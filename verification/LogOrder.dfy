/**
 The session log stores every object in key order. When that leaves merges unchanged, and when it does not:
 a list patch whose keys denote one index twice is applied in key order on replay.
 */
module LogOrder {
  import opened Wrappers
  import opened LiveJson
  import opened MergeDelta

  lemma {:induction false} InsertMembers(fields: seq<Field>, f: Field)
    ensures forall g :: g in Insert(fields, f) <==> g in fields || g == f
  {
    if fields != [] && KeyBefore(f.key, fields[|fields| - 1].key) {
      InsertMembers(fields[..|fields| - 1], f);
      assert fields == fields[..|fields| - 1] + [fields[|fields| - 1]];
    }
  }

  lemma {:induction false} SortMembers(fields: seq<Field>)
    ensures forall g :: g in SortFields(fields) <==> g in fields
  {
    if fields != [] {
      SortMembers(fields[..|fields| - 1]);
      InsertMembers(SortFields(fields[..|fields| - 1]), fields[|fields| - 1]);
      assert fields == fields[..|fields| - 1] + [fields[|fields| - 1]];
    }
  }

  lemma {:induction false} InsertKeepsDistinct(fields: seq<Field>, f: Field)
    requires DistinctKeys(fields) && forall g :: g in fields ==> g.key != f.key
    ensures DistinctKeys(Insert(fields, f))
  {
    if fields != [] && KeyBefore(f.key, fields[|fields| - 1].key) {
      var n := |fields| - 1;
      InsertKeepsDistinct(fields[..n], f);
      InsertMembers(fields[..n], f);
      forall g | g in Insert(fields[..n], f) ensures g.key != fields[n].key {
        if g in fields[..n] {
          var i :| 0 <= i < n && fields[i] == g;
        }
      }
    }
  }

  lemma {:induction false} SortKeepsDistinct(fields: seq<Field>)
    requires DistinctKeys(fields)
    ensures DistinctKeys(SortFields(fields))
  {
    if fields != [] {
      var n := |fields| - 1;
      SortKeepsDistinct(fields[..n]);
      SortMembers(fields[..n]);
      forall g | g in SortFields(fields[..n]) ensures g.key != fields[n].key {
        var i :| 0 <= i < n && fields[i] == g;
      }
      InsertKeepsDistinct(SortFields(fields[..n]), fields[n]);
    }
  }

  // ---------------------------------------------------------------- sorting keeps what a slot receives

  /** The keys that share a slot already come in key order. */
  predicate SlotAscending(fields: seq<Field>, slot: Slot) {
    forall i, j :: 0 <= i < j < |fields| && slot.Matches(fields[i].key) && slot.Matches(fields[j].key) ==>
      KeyBefore(fields[i].key, fields[j].key)
  }

  lemma ValuesOneMore(fields: seq<Field>, f: Field, slot: Slot)
    ensures ValuesFor(fields + [f], slot)
            == if slot.Matches(f.key) then ValuesFor(fields, slot) + [f.value] else ValuesFor(fields, slot)
  {
    assert (fields + [f])[..|fields|] == fields;
  }

  lemma {:induction false} InsertAppends(fields: seq<Field>, f: Field, slot: Slot)
    requires slot.Matches(f.key) ==> forall g :: g in fields && slot.Matches(g.key) ==> KeyBefore(g.key, f.key)
    ensures ValuesFor(Insert(fields, f), slot)
            == if slot.Matches(f.key) then ValuesFor(fields, slot) + [f.value] else ValuesFor(fields, slot)
  {
    if fields != [] && KeyBefore(f.key, fields[|fields| - 1].key) {
      var n := |fields| - 1;
      assert fields == fields[..n] + [fields[n]];
      InsertAppends(fields[..n], f, slot);
      KeyOrderAsymmetric(f.key, fields[n].key);
      ValuesOneMore(Insert(fields[..n], f), fields[n], slot);
      ValuesOneMore(fields[..n], fields[n], slot);
    } else {
      ValuesOneMore(fields, f, slot);
    }
  }

  lemma {:induction false} SortKeepsSlot(fields: seq<Field>, slot: Slot)
    requires SlotAscending(fields, slot)
    ensures ValuesFor(SortFields(fields), slot) == ValuesFor(fields, slot)
  {
    if fields != [] {
      var n := |fields| - 1;
      SortKeepsSlot(fields[..n], slot);
      SortMembers(fields[..n]);
      forall g | g in SortFields(fields[..n]) && slot.Matches(g.key) && slot.Matches(fields[n].key)
        ensures KeyBefore(g.key, fields[n].key)
      {
        var i :| 0 <= i < n && fields[i] == g;
      }
      InsertAppends(SortFields(fields[..n]), fields[n], slot);
    }
  }

  lemma {:induction false} SortValuesOfSlot(fields: seq<Field>, slot: Slot)
    ensures ValuesFor(SortValues(fields), slot) == SortItems(ValuesFor(fields, slot))
  {
    if fields != [] {
      var n := |fields| - 1;
      SortValuesOfSlot(fields[..n], slot);
      assert SortValues(fields)[..n] == SortValues(fields[..n]);
      var earlier := ValuesFor(fields[..n], slot);
      assert (earlier + [fields[n].value])[..|earlier|] == earlier;
    }
  }

  lemma {:induction false} SortValuesAt(fields: seq<Field>, i: nat)
    requires i < |fields|
    ensures SortValues(fields)[i] == Field(fields[i].key, SortKeys(fields[i].value))
  {
    if i < |fields| - 1 {
      SortValuesAt(fields[..|fields| - 1], i);
    }
  }

  lemma {:induction false} SortItemsAt(items: seq<Json>, i: nat)
    requires i < |items|
    ensures SortItems(items)[i] == SortKeys(items[i])
  {
    if i < |items| - 1 {
      SortItemsAt(items[..|items| - 1], i);
    }
  }

  lemma SortValuesKeepsKeys(fields: seq<Field>)
    ensures forall i :: 0 <= i < |fields| ==> SortValues(fields)[i] == Field(fields[i].key, SortKeys(fields[i].value))
  {
    forall i | 0 <= i < |fields| ensures SortValues(fields)[i] == Field(fields[i].key, SortKeys(fields[i].value)) {
      SortValuesAt(fields, i);
    }
  }

  // ---------------------------------------------------------------- merging what the log holds

  /** Keys of one object that denote the same index already come in key order. */
  predicate IndexesAscending(fields: seq<Field>) {
    forall i, j ::
      0 <= i < j < |fields| && ArrayIndex(fields[i].key).Some? && ArrayIndex(fields[i].key) == ArrayIndex(fields[j].key)
      ==> KeyBefore(fields[i].key, fields[j].key)
  }

  /** The condition under which the log's key order cannot change what a patch does. */
  predicate SortSafe(v: Json) {
    match v
    case Arr(items) => WellFormed(v)
    case Obj(fields) =>
      DistinctKeys(fields) && IndexesAscending(fields) && forall i :: 0 <= i < |fields| ==> SortSafe(fields[i].value)
    case _ => true
  }

  lemma {:induction false} SortedStrip(v: Json)
    requires WellFormed(v)
    ensures Strip(SortKeys(v)) == Strip(v)
    decreases v, 1
  {
    match v
    case Arr(items) =>
      forall i | 0 <= i < |items| ensures StripItems(SortItems(items))[i] == StripItems(items)[i] {
        SortItemsAt(items, i);
        StripItemsAt(items, i);
        StripItemsAt(SortItems(items), i);
        SortedStrip(items[i]);
      }
      assert StripItems(SortItems(items)) == StripItems(items);
    case Obj(fields) =>
      SortValuesKeepsKeys(fields);
      var values := SortValues(fields);
      SortKeepsDistinct(values);
      SortMembers(values);
      SortedStripFields(fields, SortFields(values));
    case _ =>
  }

  /** A stripped object maps each key to the stripped value of the one field that has it. */
  lemma {:induction false} StripFieldsHas(fields: seq<Field>, i: nat)
    requires DistinctKeys(fields) && i < |fields|
    ensures fields[i].key in StripFields(fields) && StripFields(fields)[fields[i].key] == Strip(fields[i].value)
  {
    if i < |fields| - 1 {
      StripFieldsHas(fields[..|fields| - 1], i);
    }
  }

  lemma SortedStripFields(fields: seq<Field>, sorted: seq<Field>)
    requires DistinctKeys(fields) && DistinctKeys(sorted)
    requires forall i :: 0 <= i < |fields| ==> WellFormed(fields[i].value)
    requires forall g :: g in sorted <==> g in SortValues(fields)
    ensures StripFields(sorted) == StripFields(fields)
    decreases fields, 0
  {
    SortValuesKeepsKeys(fields);
    forall i | 0 <= i < |fields|
      ensures fields[i].key in StripFields(sorted) && fields[i].key in StripFields(fields)
      ensures StripFields(sorted)[fields[i].key] == StripFields(fields)[fields[i].key]
    {
      assert SortValues(fields)[i] in sorted;
      var j :| 0 <= j < |sorted| && sorted[j] == SortValues(fields)[i];
      StripFieldsHas(sorted, j);
      StripFieldsHas(fields, i);
      SortedStrip(fields[i].value);
    }
    forall key | key in StripFields(fields) ensures key in StripFields(sorted) {
      var i := StripFieldsFrom(fields, key);
    }
    forall key | key in StripFields(sorted)
      ensures key in StripFields(fields) && StripFields(sorted)[key] == StripFields(fields)[key] {
      var j := StripFieldsFrom(sorted, key);
      assert sorted[j] in SortValues(fields);
      var i :| 0 <= i < |fields| && SortValues(fields)[i] == sorted[j];
    }
  }

  lemma {:induction false} ValuesComeFrom(fields: seq<Field>, slot: Slot)
    ensures forall v :: v in ValuesFor(fields, slot) ==> exists i :: 0 <= i < |fields| && fields[i].value == v
  {
    if fields != [] {
      var n := |fields| - 1;
      ValuesComeFrom(fields[..n], slot);
      forall v | v in ValuesFor(fields, slot) ensures exists i :: 0 <= i < |fields| && fields[i].value == v {
        if v in ValuesFor(fields[..n], slot) {
          var i :| 0 <= i < n && fields[..n][i].value == v;
        } else {
          assert fields[n].value == v;
        }
      }
    }
  }

  lemma {:induction false} SortedMergeAll(target: Doc, patches: seq<Json>)
    requires forall v :: v in patches ==> SortSafe(v)
    ensures MergeAll(target, SortItems(patches)) == MergeAll(target, patches)
    decreases WeightAll(patches), 1
  {
    if patches != [] {
      var n := |patches| - 1;
      SortedMergeAll(target, patches[..n]);
      MergeOneMore(target, SortItems(patches[..n]), SortKeys(patches[n]));
      SortedMerge(MergeAll(target, patches[..n]), patches[n]);
    }
  }

  /** What one slot receives is the same from the log as from the feed. */
  lemma SortedSlot(fields: seq<Field>, slot: Slot, target: Doc)
    requires SortSafe(Obj(fields))
    ensures MergeAll(target, ValuesFor(SortFields(SortValues(fields)), slot))
            == MergeAll(target, ValuesFor(fields, slot))
    decreases WeightFields(fields), 2
  {
    SortValuesKeepsKeys(fields);
    SortKeepsSlot(SortValues(fields), slot);
    SortValuesOfSlot(fields, slot);
    ValuesComeFrom(fields, slot);
    SlotIsLighter(fields, slot);
    SortedMergeAll(target, ValuesFor(fields, slot));
  }

  lemma {:induction false} SortSafeIsWellFormed(v: Json)
    requires SortSafe(v)
    ensures WellFormed(v)
  {
    if v.Obj? {
      forall i | 0 <= i < |v.fields| ensures WellFormed(v.fields[i].value) {
        SortSafeIsWellFormed(v.fields[i].value);
      }
    }
  }

  /** Merging a patch read back from the log does what merging the patch itself did. */
  lemma {:induction false} SortedMerge(target: Doc, patch: Json)
    requires SortSafe(patch)
    ensures Merge(target, SortKeys(patch)) == Merge(target, patch)
    decreases Weight(patch), 0
  {
    if !patch.Obj? {
      SortSafeIsWellFormed(patch);
      SortedStrip(patch);
    } else {
      var fields, sorted := patch.fields, SortFields(SortValues(patch.fields));
      if target.DArr? {
        forall i | 0 <= i < |target.items|
          ensures PatchItems(target.items, sorted)[i] == PatchItems(target.items, fields)[i] {
          PatchItemsAt(target.items, sorted, i);
          PatchItemsAt(target.items, fields, i);
          SortedSlot(fields, At(i), target.items[i]);
        }
      } else {
        var m := Base(target);
        forall key ensures (key in MergeFields(m, sorted) <==> key in MergeFields(m, fields))
                        && Lookup(MergeFields(m, sorted), key) == Lookup(MergeFields(m, fields), key)
        {
          MergeFieldsKeys(m, sorted, key);
          MergeFieldsKeys(m, fields, key);
          SortedMentions(fields, key);
          MergeFieldsAt(m, sorted, key);
          MergeFieldsAt(m, fields, key);
          SortedSlot(fields, Named(key), Lookup(m, key));
        }
        SameMapping(MergeFields(m, sorted), MergeFields(m, fields));
      }
    }
  }

  lemma SortedMentions(fields: seq<Field>, key: string)
    ensures Mentions(SortFields(SortValues(fields)), key) <==> Mentions(fields, key)
  {
    var values := SortValues(fields);
    SortValuesKeepsKeys(fields);
    SortMembers(values);
    if i :| 0 <= i < |fields| && fields[i].key == key {
      assert values[i] in SortFields(values);
    }
    if j :| 0 <= j < |fields| && SortFields(values)[j].key == key {
      assert SortFields(values)[j] in values;
      var i :| 0 <= i < |fields| && values[i] == SortFields(values)[j];
      assert fields[i].key == key;
    }
  }

  // ---------------------------------------------------------------- exactly when key order matters

  function Zip(keys: seq<string>, values: seq<Json>): (r: seq<Field>)
    requires |keys| == |values|
    ensures |r| == |keys| && forall i :: 0 <= i < |keys| ==> r[i] == Field(keys[i], values[i])
  {
    if keys == [] then []
      else Zip(keys[..|keys| - 1], values[..|keys| - 1]) + [Field(keys[|keys| - 1], values[|keys| - 1])]
  }

  /** Whatever the values and the state, an object with these keys merges the same from the log as from the feed. */
  ghost predicate KeysMergeAlike(keys: seq<string>) {
    forall values: seq<Json>, target: Doc :: |values| == |keys| ==>
      Merge(target, Obj(SortFields(Zip(keys, values)))) == Merge(target, Obj(Zip(keys, values)))
  }

  predicate KeysAscending(keys: seq<string>) {
    forall i, j :: 0 <= i < j < |keys| && ArrayIndex(keys[i]).Some? && ArrayIndex(keys[i]) == ArrayIndex(keys[j]) ==>
      KeyBefore(keys[i], keys[j])
  }

  predicate InKeyOrder(fields: seq<Field>) {
    forall i, j :: 0 <= i < j < |fields| ==> !KeyBefore(fields[j].key, fields[i].key)
  }

  lemma NotBeforeLast(a: string, b: string, c: string)
    requires !KeyBefore(b, a) && !KeyBefore(c, b)
    ensures !KeyBefore(c, a)
  {
    if KeyBefore(c, a) {
      KeyOrderTotal(a, b);
      if KeyBefore(a, b) {
        KeyOrderTransitive(c, a, b);
      }
    }
  }

  lemma {:induction false} InsertKeepsOrder(fields: seq<Field>, f: Field)
    requires InKeyOrder(fields)
    ensures InKeyOrder(Insert(fields, f))
  {
    if fields != [] {
      var n := |fields| - 1;
      if KeyBefore(f.key, fields[n].key) {
        InsertKeepsOrder(fields[..n], f);
        InsertMembers(fields[..n], f);
        KeyOrderAsymmetric(f.key, fields[n].key);
        forall g | g in Insert(fields[..n], f) ensures !KeyBefore(fields[n].key, g.key) {
          if g != f {
            var i :| 0 <= i < n && fields[i] == g;
          }
        }
      } else {
        forall i | 0 <= i < n ensures !KeyBefore(f.key, fields[i].key) {
          NotBeforeLast(fields[i].key, fields[n].key, f.key);
        }
      }
    }
  }

  lemma {:induction false} SortAscends(fields: seq<Field>)
    ensures InKeyOrder(SortFields(fields))
  {
    if fields != [] {
      SortAscends(fields[..|fields| - 1]);
      InsertKeepsOrder(SortFields(fields[..|fields| - 1]), fields[|fields| - 1]);
    }
  }

  function Mark(i: int): Json { Obj([Field("x", Int(i))]) }

  lemma MarkSets(d: Doc, mark: int)
    requires d.DObj?
    ensures Merge(d, Mark(mark)) == DObj(d.fields["x" := DInt(mark)])
    ensures Merge(d, Obj([])) == d
  {
    var fields := [Field("x", Int(mark))];
    assert fields[..0] == [];
    assert MergeFields(d.fields, fields) == d.fields["x" := Merge(Lookup(d.fields, "x"), Int(mark))];
  }

  predicate IsMark(v: Json) { v == Obj([]) || v == Mark(0) || v == Mark(1) }

  /** Nothing but marks. */
  predicate Marks(fields: seq<Field>) {
    forall j :: 0 <= j < |fields| ==> IsMark(fields[j].value)
  }

  /** The last field that writes the mark of a slot decides it, when the others write nothing. */
  lemma PatchHits(items: seq<Doc>, earlier: seq<Field>, last: Field, i: nat)
    requires i < |items| && ArrayIndex(last.key) == Some(i)
    ensures PatchItems(items, earlier + [last])[i] == Merge(PatchItems(items, earlier)[i], last.value)
  {
    assert (earlier + [last])[..|earlier|] == earlier;
  }

  lemma PatchMisses(items: seq<Doc>, earlier: seq<Field>, last: Field, i: nat)
    requires i < |items| && ArrayIndex(last.key) != Some(i)
    ensures PatchItems(items, earlier + [last])[i] == PatchItems(items, earlier)[i]
  {
    assert (earlier + [last])[..|earlier|] == earlier;
  }

  /** A field that writes a mark or nothing leaves its slot a mapping, with the mark it wrote or the one it found. */
  lemma MarkStep(items: seq<Doc>, earlier: seq<Field>, last: Field, i: nat)
    requires i < |items| && PatchItems(items, earlier)[i].DObj? && IsMark(last.value)
    ensures var before, after := PatchItems(items, earlier)[i], PatchItems(items, earlier + [last])[i];
            && after.DObj?
            && (last.value == Obj([]) ==> after == before)
            && (forall c :: ArrayIndex(last.key) == Some(i) && last.value == Mark(c) ==>
                Lookup(after.fields, "x") == DInt(c))
  {
    if ArrayIndex(last.key) == Some(i) {
      PatchHits(items, earlier, last, i);
      MarkSets(PatchItems(items, earlier)[i], 0);
      MarkSets(PatchItems(items, earlier)[i], 1);
    } else {
      PatchMisses(items, earlier, last, i);
    }
  }

  lemma {:induction false} LastMarkWins(items: seq<Doc>, fields: seq<Field>, i: nat, winner: nat, mark: int)
    requires i < |items| && items[i].DObj? && winner < |fields| && Marks(fields)
    requires ArrayIndex(fields[winner].key) == Some(i) && fields[winner].value == Mark(mark)
    requires forall j :: winner < j < |fields| ==> fields[j].value == Obj([])
    ensures var d := PatchItems(items, fields)[i]; d.DObj? && Lookup(d.fields, "x") == DInt(mark)
  {
    var n := |fields| - 1;
    assert fields == fields[..n] + [fields[n]];
    MarksStayMappings(items, fields[..n], i);
    MarkStep(items, fields[..n], fields[n], i);
    if winner < n {
      LastMarkWins(items, fields[..n], i, winner, mark);
    }
  }

  lemma {:induction false} MarksStayMappings(items: seq<Doc>, fields: seq<Field>, i: nat)
    requires i < |items| && items[i].DObj? && Marks(fields)
    ensures PatchItems(items, fields)[i].DObj?
  {
    if fields != [] {
      var n := |fields| - 1;
      assert fields == fields[..n] + [fields[n]];
      MarksStayMappings(items, fields[..n], i);
      MarkStep(items, fields[..n], fields[n], i);
    }
  }

  /** In key order the field at `a` comes after the one at `b`, so its mark stays. */
  lemma SortedMarkWins(items: seq<Doc>, fields: seq<Field>, i: nat, a: nat, b: nat)
    requires i < |items| && items[i].DObj? && DistinctKeys(fields) && Marks(fields) && a < |fields| && b < |fields|
    requires ArrayIndex(fields[a].key) == Some(i) && fields[a].value == Mark(0)
    requires KeyBefore(fields[b].key, fields[a].key)
    requires forall j :: 0 <= j < |fields| && j != a && j != b ==> fields[j].value == Obj([])
    ensures var d := PatchItems(items, SortFields(fields))[i]; d.DObj? && Lookup(d.fields, "x") == DInt(0)
  {
    var sorted := SortFields(fields);
    SortMembers(fields);
    SortAscends(fields);
    SortKeepsDistinct(fields);
    assert fields[a] in sorted;
    var w :| 0 <= w < |sorted| && sorted[w] == fields[a];
    forall j | 0 <= j < |sorted|
      ensures IsMark(sorted[j].value)
      ensures w < j ==> sorted[j].value == Obj([])
    {
      assert sorted[j] in fields;
      var k :| 0 <= k < |fields| && fields[k] == sorted[j];
    }
    LastMarkWins(items, sorted, i, w, 0);
  }

  function MarkValues(n: nat, a: nat, b: nat): (r: seq<Json>)
    ensures |r| == n
    ensures forall j :: 0 <= j < n ==> r[j] == if j == a then Mark(0) else if j == b then Mark(1) else Obj([])
  {
    seq(n, j => if j == a then Mark(0) else if j == b then Mark(1) else Obj([]))
  }

  function EmptyMappings(n: nat): (r: seq<Doc>)
    ensures |r| == n && forall j :: 0 <= j < n ==> r[j] == DObj(map[])
  {
    seq(n, _ => DObj(map[]))
  }

  /** Two colliding keys out of key order: the feed leaves the second value in place, the log the first. */
  lemma CollisionIsReordered(keys: seq<string>, a: nat, b: nat)
    requires (forall i, j :: 0 <= i < j < |keys| ==> keys[i] != keys[j]) && a < b < |keys|
    requires ArrayIndex(keys[a]).Some? && ArrayIndex(keys[a]) == ArrayIndex(keys[b]) && KeyBefore(keys[b], keys[a])
    ensures !KeysMergeAlike(keys)
  {
    var i := ArrayIndex(keys[a]).value;
    var values := MarkValues(|keys|, a, b);
    var items := EmptyMappings(i + 1);
    MarksDiffer(items, Zip(keys, values), i, a, b);
    assert Merge(DArr(items), Obj(SortFields(Zip(keys, values)))) != Merge(DArr(items), Obj(Zip(keys, values)));
  }

  lemma MarksDiffer(items: seq<Doc>, fields: seq<Field>, i: nat, a: nat, b: nat)
    requires i < |items| && items[i].DObj? && DistinctKeys(fields) && a < b < |fields|
    requires ArrayIndex(fields[a].key) == ArrayIndex(fields[b].key) == Some(i)
             && KeyBefore(fields[b].key, fields[a].key)
    requires fields[a].value == Mark(0) && fields[b].value == Mark(1)
    requires forall j :: 0 <= j < |fields| && j != a && j != b ==> fields[j].value == Obj([])
    ensures PatchItems(items, SortFields(fields)) != PatchItems(items, fields)
  {
    LastMarkWins(items, fields, i, b, 1);
    SortedMarkWins(items, fields, i, a, b);
  }

  /** Main result: the log's key order is harmless exactly when keys that denote one index arrive in key order. */
  lemma KeyOrderIsHarmlessExactlyWhen(keys: seq<string>)
    requires forall i, j :: 0 <= i < j < |keys| ==> keys[i] != keys[j]
    ensures KeysMergeAlike(keys) <==> KeysAscending(keys)
  {
    if KeysAscending(keys) {
      forall values: seq<Json>, target: Doc | |values| == |keys|
        ensures Merge(target, Obj(SortFields(Zip(keys, values)))) == Merge(target, Obj(Zip(keys, values)))
      {
        SlotsDecide(Zip(keys, values), target);
      }
    } else {
      var a, b :| 0 <= a < b < |keys| && ArrayIndex(keys[a]).Some? && ArrayIndex(keys[a]) == ArrayIndex(keys[b])
        && !KeyBefore(keys[a], keys[b]);
      KeyOrderTotal(keys[a], keys[b]);
      CollisionIsReordered(keys, a, b);
    }
  }

  lemma SlotsDecide(fields: seq<Field>, target: Doc)
    requires DistinctKeys(fields) && IndexesAscending(fields)
    ensures Merge(target, Obj(SortFields(fields))) == Merge(target, Obj(fields))
  {
    var sorted := SortFields(fields);
    if target.DArr? {
      forall i | 0 <= i < |target.items|
        ensures PatchItems(target.items, sorted)[i] == PatchItems(target.items, fields)[i] {
        PatchItemsAt(target.items, sorted, i);
        PatchItemsAt(target.items, fields, i);
        SortKeepsSlot(fields, At(i));
      }
    } else {
      var m := Base(target);
      forall key ensures (key in MergeFields(m, sorted) <==> key in MergeFields(m, fields))
                      && Lookup(MergeFields(m, sorted), key) == Lookup(MergeFields(m, fields), key)
      {
        MergeFieldsKeys(m, sorted, key);
        MergeFieldsKeys(m, fields, key);
        SameMentions(fields, key);
        MergeFieldsAt(m, sorted, key);
        MergeFieldsAt(m, fields, key);
        SortKeepsSlot(fields, Named(key));
      }
      SameMapping(MergeFields(m, sorted), MergeFields(m, fields));
    }
  }

  lemma SameMentions(fields: seq<Field>, key: string)
    ensures Mentions(SortFields(fields), key) <==> Mentions(fields, key)
  {
    SortMembers(fields);
    if i :| 0 <= i < |fields| && fields[i].key == key {
      assert fields[i] in SortFields(fields);
    }
    if j :| 0 <= j < |fields| && SortFields(fields)[j].key == key {
      assert SortFields(fields)[j] in fields;
    }
  }

  lemma OneAndPaddedOneCollide()
    ensures ArrayIndex("1") == ArrayIndex("01") == Some(1) && KeyBefore("01", "1") && !KeyBefore("1", "01")
  {
    assert Digits("") == Some(0);
    assert DigitAmong('1', DECIMAL_ZEROS) == Some(1);
    assert DigitAmong('0', DECIMAL_ZEROS) == Some(0);
    assert "1"[..0] == "" && "01"[..1] == "0" && "0"[..0] == "";
    assert Digits("0") == Some(0);
  }

  lemma SortedPair(first: Field, second: Field)
    requires KeyBefore(second.key, first.key) && first.value.Int? && second.value.Int?
    ensures SortFields(SortValues([first, second])) == [second, first]
  {
    var both := [first, second];
    SortValuesKeepsKeys(both);
    assert SortValues(both) == both;
    assert both[..1] == [first] && [first][..0] == [];
    assert SortFields([first]) == [first];
    assert [first][..0] == [];
    assert Insert([first], second) == [second, first];
  }

  lemma PatchedPair(first: Field, second: Field)
    requires ArrayIndex(first.key) == ArrayIndex(second.key) == Some(1) && first.value.Int? && second.value.Int?
    ensures PatchItems([DNull, DNull], [first, second]) == [DNull, Strip(second.value)]
  {
    assert [first, second][..1] == [first] && [first][..0] == [];
    assert PatchItems([DNull, DNull], [first]) == [DNull, Strip(first.value)];
    assert Merge(Strip(first.value), second.value) == Strip(second.value);
  }

  /** A concrete delta of the failing family: "1" and then "01" against a list of two. */
  lemma CollidingKeysBreakReplay()
    ensures var target, patch := DArr([DNull, DNull]), Obj([Field("1", Int(7)), Field("01", Int(8))]);
            && Merge(target, patch) == DArr([DNull, DInt(8)])
            && Merge(target, SortKeys(patch)) == DArr([DNull, DInt(7)])
  {
    var one, padded := Field("1", Int(7)), Field("01", Int(8));
    OneAndPaddedOneCollide();
    SortedPair(one, padded);
    PatchedPair(one, padded);
    PatchedPair(padded, one);
  }
}
