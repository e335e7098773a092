/**
 What the view shows of what was sent: the state of a value is that value, a delta's scalar is read back at the path it
 was sent to, and whatever a delta does not reach stays as it was.
 */
module PatchMeaning {
  import opened Wrappers
  import opened LiveJson
  import opened MergeDelta
  import opened LogOrder

  // ---------------------------------------------------------------- a state shows a value

  /** The state says what the value says, kind by kind; only the order of an object's fields is lost. */
  ghost predicate Shows(d: Doc, v: Json)
    decreases v
  {
    match v
    case Null => d == DNull
    case Bool(b) => d.DBool? && d.b == b
    case Int(i) => d.DInt? && d.i == i
    case Real(r) => d.DReal? && d.r == r
    case Text(text) => d.DText? && d.text == text
    case Arr(items) => d.DArr? && |d.items| == |items| && forall i :: 0 <= i < |items| ==> Shows(d.items[i], items[i])
    case Obj(fields) =>
      && d.DObj?
      && (forall i :: 0 <= i < |fields| ==>
            fields[i].key in d.fields && Shows(d.fields[fields[i].key], fields[i].value))
      && (forall key :: key in d.fields ==> Mentions(fields, key))
  }

  /** The one state that shows a value is the value without its field order. */
  lemma {:induction false} ShownExactlyByStrip(d: Doc, v: Json)
    requires WellFormed(v)
    ensures Shows(d, v) <==> d == Strip(v)
    decreases v
  {
    match v
    case Arr(items) =>
      forall i | 0 <= i < |items| ensures StripItems(items)[i] == Strip(items[i]) {
        StripItemsAt(items, i);
      }
      if d.DArr? && |d.items| == |items| {
        forall i | 0 <= i < |items| ensures Shows(d.items[i], items[i]) <==> d.items[i] == StripItems(items)[i] {
          ShownExactlyByStrip(d.items[i], items[i]);
        }
        assert d.items == StripItems(items) <==> forall i :: 0 <= i < |items| ==> d.items[i] == StripItems(items)[i];
      }
    case Obj(fields) =>
      if d.DObj? {
        forall i | 0 <= i < |fields| && fields[i].key in d.fields
          ensures Shows(d.fields[fields[i].key], fields[i].value)
                  <==> d.fields[fields[i].key] == Strip(fields[i].value)
        {
          ShownExactlyByStrip(d.fields[fields[i].key], fields[i].value);
        }
        SameMapExactlyWhen(d.fields, fields);
      }
    case _ =>
  }

  /** A mapping is what an object stands for when each field is in it and nothing else is. */
  lemma SameMapExactlyWhen(m: map<string, Doc>, fields: seq<Field>)
    requires DistinctKeys(fields)
    ensures m == StripFields(fields) <==>
            && (forall i :: 0 <= i < |fields| ==> fields[i].key in m && m[fields[i].key] == Strip(fields[i].value))
            && (forall key :: key in m ==> Mentions(fields, key))
  {
    forall i | 0 <= i < |fields|
      ensures fields[i].key in StripFields(fields) && StripFields(fields)[fields[i].key] == Strip(fields[i].value) {
      StripFieldsHas(fields, i);
    }
    forall key | key in StripFields(fields) ensures Mentions(fields, key) {
      var i := StripFieldsFrom(fields, key);
    }
    if && (forall i :: 0 <= i < |fields| ==> fields[i].key in m && m[fields[i].key] == Strip(fields[i].value))
       && (forall key :: key in m ==> Mentions(fields, key))
    {
      assert m.Keys == StripFields(fields).Keys;
    }
  }

  // ---------------------------------------------------------------- two values show the same exactly when ...

  /** Fields in key order without repetition are determined by which fields they are. */
  lemma {:induction false} OrderedFieldsAreUnique(a: seq<Field>, b: seq<Field>)
    requires InKeyOrder(a) && InKeyOrder(b) && DistinctKeys(a) && DistinctKeys(b)
    requires forall f :: f in a <==> f in b
    ensures a == b
    decreases |a|
  {
    if a != [] {
      assert a[0] in b;
      var n, m := |a| - 1, |b| - 1;
      SameLastField(a, b);
      forall f ensures f in a[..n] <==> f in b[..m] {
        LastIsApart(a, f);
        LastIsApart(b, f);
      }
      OrderedFieldsAreUnique(a[..n], b[..m]);
      assert a == a[..n] + [a[n]] && b == b[..m] + [b[m]];
    } else {
      EmptyHasNoMember(b);
    }
  }

  lemma EmptyHasNoMember(b: seq<Field>)
    ensures (forall f :: f !in b) ==> b == []
  {
    if b != [] {
      assert b[0] in b;
    }
  }

  lemma LastIsApart(a: seq<Field>, f: Field)
    requires DistinctKeys(a) && a != []
    ensures f in a[..|a| - 1] <==> f in a && f != a[|a| - 1]
  {
    assert a == a[..|a| - 1] + [a[|a| - 1]];
  }

  lemma SameLastField(a: seq<Field>, b: seq<Field>)
    requires InKeyOrder(a) && InKeyOrder(b) && DistinctKeys(a) && DistinctKeys(b) && a != [] && b != []
    requires forall f :: f in a <==> f in b
    ensures a[|a| - 1] == b[|b| - 1]
  {
    var n, m := |a| - 1, |b| - 1;
    assert b[m] in a && a[n] in b;
    var i :| 0 <= i <= n && a[i] == b[m];
    var j :| 0 <= j <= m && b[j] == a[n];
    if i < n && j < m {
      KeyOrderTotal(a[i].key, a[n].key);
    }
  }

  lemma SortedMembers(fields: seq<Field>, g: Field)
    ensures g in SortFields(SortValues(fields)) <==>
              exists i :: 0 <= i < |fields| && g == Field(fields[i].key, SortKeys(fields[i].value))
  {
    SortMembers(SortValues(fields));
    SortValuesKeepsKeys(fields);
  }

  lemma SortedFieldsAreOrdered(fields: seq<Field>)
    requires DistinctKeys(fields)
    ensures InKeyOrder(SortFields(SortValues(fields))) && DistinctKeys(SortFields(SortValues(fields)))
  {
    SortValuesKeepsKeys(fields);
    SortKeepsDistinct(SortValues(fields));
    SortAscends(SortValues(fields));
  }

  /** Main result: two values show the same state exactly when the log would write them alike. */
  lemma ShowAlikeExactlyWhen(v: Json, w: Json)
    requires WellFormed(v) && WellFormed(w)
    ensures Strip(v) == Strip(w) <==> SortKeys(v) == SortKeys(w)
  {
    SortedStrip(v);
    SortedStrip(w);
    if Strip(v) == Strip(w) {
      SameStateSameOrder(v, w);
    }
  }

  lemma {:induction false} SameStateSameOrder(v: Json, w: Json)
    requires WellFormed(v) && WellFormed(w) && Strip(v) == Strip(w)
    ensures SortKeys(v) == SortKeys(w)
    decreases v
  {
    match v
    case Arr(items) =>
      assert |items| == |StripItems(items)| == |StripItems(w.items)| == |w.items|;
      forall i | 0 <= i < |items| ensures SortItems(items)[i] == SortItems(w.items)[i] {
        StripItemsAt(items, i);
        StripItemsAt(w.items, i);
        SortItemsAt(items, i);
        SortItemsAt(w.items, i);
        SameStateSameOrder(items[i], w.items[i]);
      }
      assert SortItems(items) == SortItems(w.items);
    case Obj(fields) =>
      forall i, j | 0 <= i < |fields| && 0 <= j < |w.fields| && Strip(fields[i].value) == Strip(w.fields[j].value)
        ensures SortKeys(fields[i].value) == SortKeys(w.fields[j].value)
      {
        SameStateSameOrder(fields[i].value, w.fields[j].value);
      }
      SameFieldsSameOrder(fields, w.fields);
    case _ =>
  }

  /** Where each field of one object has a partner in another: same key, and the same state. */
  lemma Partner(a: seq<Field>, b: seq<Field>, i: nat) returns (j: nat)
    requires DistinctKeys(a) && StripFields(a) == StripFields(b) && i < |a|
    ensures j < |b| && b[j].key == a[i].key && Strip(b[j].value) == Strip(a[i].value)
  {
    StripFieldsHas(a, i);
    j := StripFieldsFrom(b, a[i].key);
  }

  lemma SameFieldsSameOrder(a: seq<Field>, b: seq<Field>)
    requires DistinctKeys(a) && DistinctKeys(b) && StripFields(a) == StripFields(b)
    requires forall i, j :: 0 <= i < |a| && 0 <= j < |b| && Strip(a[i].value) == Strip(b[j].value) ==>
               SortKeys(a[i].value) == SortKeys(b[j].value)
    ensures SortFields(SortValues(a)) == SortFields(SortValues(b))
  {
    forall g ensures g in SortFields(SortValues(a)) <==> g in SortFields(SortValues(b)) {
      SortedMembers(a, g);
      SortedMembers(b, g);
      if i :| 0 <= i < |a| && g == Field(a[i].key, SortKeys(a[i].value)) {
        var j := Partner(a, b, i);
        assert g == Field(b[j].key, SortKeys(b[j].value));
      }
      if j :| 0 <= j < |b| && g == Field(b[j].key, SortKeys(b[j].value)) {
        var i := Partner(b, a, j);
        assert g == Field(a[i].key, SortKeys(a[i].value));
      }
    }
    SortedFieldsAreOrdered(a);
    SortedFieldsAreOrdered(b);
    OrderedFieldsAreUnique(SortFields(SortValues(a)), SortFields(SortValues(b)));
  }

  // ---------------------------------------------------------------- reading along a path

  type Path = seq<string>

  /** What a reader finds who follows keys through mappings, and indexes through lists. */
  function ReadAt(d: Doc, path: Path): Option<Doc>
    decreases |path|
  {
    if path == [] then Some(d)
    else
      match d
      case DObj(fields) => if path[0] in fields then ReadAt(fields[path[0]], path[1..]) else None
      case DArr(items) =>
        var index := ArrayIndex(path[0]);
        if index.Some? && index.value < |items| then ReadAt(items[index.value], path[1..]) else None
      case _ => None
  }

  /** The field is the only one of its object that reaches this slot. */
  predicate OnlyFieldFor(fields: seq<Field>, slot: Slot, i: nat)
    requires i < |fields|
  {
    forall j :: 0 <= j < |fields| ==> (slot.Matches(fields[j].key) <==> i == j)
  }

  predicate NoFieldFor(fields: seq<Field>, slot: Slot) {
    forall j :: 0 <= j < |fields| ==> !slot.Matches(fields[j].key)
  }

  /** The place that a key leads to in this state: an index of a list, a key of anything else. */
  function SlotIn(d: Doc, key: string): Option<Slot> {
    if !d.DArr? then Some(Named(key))
    else
      match ArrayIndex(key)
      case Some(index) => if index < |d.items| then Some(At(index)) else None
      case None => None
  }

  /** What the state holds at a place, null where it holds nothing. */
  function Held(d: Doc, slot: Slot): Doc
    requires d.DArr? ==> slot.At? && slot.index < |d.items|
    requires !d.DArr? ==> slot.Named?
  {
    if d.DArr? then d.items[slot.index] else Lookup(Base(d), slot.key)
  }

  /** The patch sends `v` to this path, no second key of an object goes to the same place, and no list is too short. */
  ghost predicate Sends(d: Doc, patch: Json, path: Path, v: Json)
    decreases |path|
  {
    if path == [] then patch == v
    else
      patch.Obj? && SlotIn(d, path[0]).Some? && exists i: nat :: SendsVia(d, patch.fields, path, v, i)
  }

  ghost predicate SendsVia(d: Doc, fields: seq<Field>, path: Path, v: Json, i: nat)
    requires path != [] && SlotIn(d, path[0]).Some?
    decreases |path|, 0
  {
    var slot := SlotIn(d, path[0]).value;
    i < |fields| && OnlyFieldFor(fields, slot, i) && Sends(Held(d, slot), fields[i].value, path[1..], v)
  }

  /** The patch goes elsewhere: somewhere on the path it has nothing for the next place. */
  ghost predicate Misses(d: Doc, patch: Json, path: Path)
    decreases |path|
  {
    && path != [] && patch.Obj? && (d.DArr? || d.DObj?) && SlotIn(d, path[0]).Some?
    && (|| NoFieldFor(patch.fields, SlotIn(d, path[0]).value)
        || exists i: nat :: MissesVia(d, patch.fields, path, i))
  }

  ghost predicate MissesVia(d: Doc, fields: seq<Field>, path: Path, i: nat)
    requires path != [] && SlotIn(d, path[0]).Some?
    decreases |path|, 0
  {
    var slot := SlotIn(d, path[0]).value;
    i < |fields| && OnlyFieldFor(fields, slot, i) && Misses(Held(d, slot), fields[i].value, path[1..])
  }

  lemma {:induction false} OnlyValueSent(fields: seq<Field>, slot: Slot, i: nat)
    requires i < |fields| && OnlyFieldFor(fields, slot, i)
    ensures ValuesFor(fields, slot) == [fields[i].value]
  {
    var n := |fields| - 1;
    if i < n {
      OnlyValueSent(fields[..n], slot, i);
      assert slot.Matches(fields[n].key) <==> i == n;
    } else {
      NothingSent(fields[..n], slot);
      assert slot.Matches(fields[n].key) <==> i == n;
    }
  }

  lemma {:induction false} NothingSent(fields: seq<Field>, slot: Slot)
    requires NoFieldFor(fields, slot)
    ensures ValuesFor(fields, slot) == []
  {
    if fields != [] {
      NothingSent(fields[..|fields| - 1], slot);
      assert !slot.Matches(fields[|fields| - 1].key);
    }
  }

  /** One step of reading the merged state: what was held there, with what was sent there merged in. */
  lemma ReadMergedSlot(d: Doc, fields: seq<Field>, path: Path)
    requires path != [] && SlotIn(d, path[0]).Some?
    ensures var slot := SlotIn(d, path[0]).value;
            var merged := MergeAll(Held(d, slot), ValuesFor(fields, slot));
            ValuesFor(fields, slot) != [] || (d.DObj? && path[0] in d.fields) || d.DArr? ==>
              ReadAt(Merge(d, Obj(fields)), path) == ReadAt(merged, path[1..])
  {
    if d.DArr? {
      PatchItemsAt(d.items, fields, ArrayIndex(path[0]).value);
    } else {
      MergeFieldsAt(Base(d), fields, path[0]);
      MergeFieldsKeys(Base(d), fields, path[0]);
    }
  }

  lemma MergeAllOfOne(d: Doc, v: Json)
    ensures MergeAll(d, [v]) == Merge(d, v)
  {
    assert [v][..0] == [];
  }

  /** Main result: a value that a delta sends to a path is what a reader then finds there. */
  lemma {:induction false} SentIsRead(d: Doc, patch: Json, path: Path, v: Json)
    requires Sends(d, patch, path, v) && WellFormed(v) && !v.Obj?
    ensures ReadAt(Merge(d, patch), path).Some? && Shows(ReadAt(Merge(d, patch), path).value, v)
    decreases |path|
  {
    if path == [] {
      ShownExactlyByStrip(Strip(v), v);
    } else {
      var i: nat :| SendsVia(d, patch.fields, path, v, i);
      var slot := SlotIn(d, path[0]).value;
      OnlyValueSent(patch.fields, slot, i);
      MergeAllOfOne(Held(d, slot), patch.fields[i].value);
      ReadMergedSlot(d, patch.fields, path);
      SentIsRead(Held(d, slot), patch.fields[i].value, path[1..], v);
    }
  }

  /** And what it does not reach is read as before. */
  lemma {:induction false} MissedIsKept(d: Doc, patch: Json, path: Path)
    requires Misses(d, patch, path) && ReadAt(d, path).Some?
    ensures ReadAt(Merge(d, patch), path) == ReadAt(d, path)
    decreases |path|
  {
    var slot := SlotIn(d, path[0]).value;
    ReadMergedSlot(d, patch.fields, path);
    if NoFieldFor(patch.fields, slot) {
      NothingSent(patch.fields, slot);
    } else {
      var i: nat :| MissesVia(d, patch.fields, path, i);
      OnlyValueSent(patch.fields, slot, i);
      MergeAllOfOne(Held(d, slot), patch.fields[i].value);
      MissedIsKept(Held(d, slot), patch.fields[i].value, path[1..]);
    }
  }

  /** Everything a delta does to a state, as far as a reader can see. */
  ghost predicate Patched(d: Doc, patch: Json, now: Doc) {
    && (forall path, v :: Sends(d, patch, path, v) && WellFormed(v) && !v.Obj? ==>
          ReadAt(now, path).Some? && Shows(ReadAt(now, path).value, v))
    && (forall path :: Misses(d, patch, path) && ReadAt(d, path).Some? ==> ReadAt(now, path) == ReadAt(d, path))
  }

  lemma MergePatches(d: Doc, patch: Json)
    ensures Patched(d, patch, Merge(d, patch))
  {
    forall path, v | Sends(d, patch, path, v) && WellFormed(v) && !v.Obj?
      ensures ReadAt(Merge(d, patch), path).Some? && Shows(ReadAt(Merge(d, patch), path).value, v)
    {
      SentIsRead(d, patch, path, v);
    }
    forall path | Misses(d, patch, path) && ReadAt(d, path).Some?
      ensures ReadAt(Merge(d, patch), path) == ReadAt(d, path)
    {
      MissedIsKept(d, patch, path);
    }
  }

  // ---------------------------------------------------------------- which index a key denotes

  function DigitChar(n: nat): (c: char)
    requires n < 10
    ensures c as int == 0x30 + n
  {
    (0x30 + n) as char
  }

  /** The decimal numeral of a number. */
  function Numeral(n: nat): (r: string)
    ensures r != ""
  {
    if n < 10 then [DigitChar(n)] else Numeral(n / 10) + [DigitChar(n % 10)]
  }

  lemma DigitIsItsValue(n: nat)
    requires n < 10
    ensures DigitAmong(DigitChar(n), DECIMAL_ZEROS) == Some(n)
  {
    assert DECIMAL_ZEROS[0] == 0x30;
  }

  lemma DigitsOneMore(key: string, n: nat)
    requires n < 10
    ensures Digits(key + [DigitChar(n)]) == match Digits(key) case Some(high) => Some(10 * high + n) case None => None
  {
    DigitIsItsValue(n);
    assert (key + [DigitChar(n)])[..|key|] == key;
  }

  /** Main result: the numeral of an index denotes it, unless it has more digits than the interpreter converts. */
  lemma NumeralDenotes(n: nat)
    ensures Digits(Numeral(n)) == Some(n)
    ensures ArrayIndex(Numeral(n)) == if |Numeral(n)| <= MAX_INDEX_DIGITS then Some(n) else None
  {
    NumeralDigits(n);
  }

  lemma {:induction false} NumeralDigits(n: nat)
    ensures Digits(Numeral(n)) == Some(n)
  {
    if n < 10 {
      DigitsOneMore("", n);
      assert "" + [DigitChar(n)] == [DigitChar(n)];
    } else {
      NumeralDigits(n / 10);
      DigitsOneMore(Numeral(n / 10), n % 10);
    }
  }

  /** Leading zeros change nothing. */
  lemma {:induction false} LeadingZero(key: string)
    requires key != ""
    ensures Digits("0" + key) == Digits(key)
  {
    var n := |key| - 1;
    assert ("0" + key)[..n + 1] == "0" + key[..n] && ("0" + key)[n + 1] == key[n];
    if n == 0 {
      DigitsOneMore("", 0);
      assert "" + [DigitChar(0)] == "0" && key[..0] == "" && "0" + "" == "0";
    } else {
      LeadingZero(key[..n]);
    }
  }

  /** A character that is no decimal digit spoils the whole key. */
  lemma {:induction false} OtherCharacterSpoils(key: string, i: nat)
    requires i < |key| && DigitAmong(key[i], DECIMAL_ZEROS).None?
    ensures ArrayIndex(key).None? && Digits(key).None?
  {
    if i < |key| - 1 {
      OtherCharacterSpoils(key[..|key| - 1], i);
    }
  }
}
