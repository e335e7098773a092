/**
 When the log's key order is harmless for a whole delta, nested objects and all: exactly when every object in it,
 outside lists, brings the keys that denote one index in key order.
 */
module KeySkeletons {
  import opened Wrappers
  import opened LiveJson
  import opened MergeDelta
  import opened LogOrder

  predicate SameKeys(a: seq<Field>, b: seq<Field>) {
    |a| == |b| && forall i :: 0 <= i < |a| ==> a[i].key == b[i].key
  }

  /** `w` is `v` with the values of one of its objects, at any depth, chosen anew. */
  ghost predicate Redone(v: Json, w: Json)
    decreases v, 1
  {
    && v.Obj? && w.Obj? && SameKeys(v.fields, w.fields)
    && (|| (forall i :: 0 <= i < |w.fields| ==> SortSafe(w.fields[i].value))
        || exists i :: 0 <= i < |v.fields| && RedoneAt(v, w, i))
  }

  ghost predicate RedoneAt(v: Json, w: Json, i: nat)
    requires v.Obj? && w.Obj? && SameKeys(v.fields, w.fields) && i < |v.fields|
    decreases v, 0
  {
    Redone(v.fields[i].value, w.fields[i].value) && forall j :: 0 <= j < |v.fields| && j != i ==>
      w.fields[j] == v.fields[j]
  }

  /**
   Whatever the state, and whatever values one of its objects holds, `v` merges the same from the log as from the
   feed.
   */
  ghost predicate LogsAlike(v: Json) {
    forall w, target :: Redone(v, w) ==> Merge(target, SortKeys(w)) == Merge(target, w)
  }

  lemma {:induction false} RedoneIsSafe(v: Json, w: Json)
    requires SortSafe(v) && Redone(v, w)
    ensures SortSafe(w)
  {
    if i :| 0 <= i < |v.fields| && RedoneAt(v, w, i) {
      RedoneIsSafe(v.fields[i].value, w.fields[i].value);
      forall j | 0 <= j < |w.fields| ensures SortSafe(w.fields[j].value) {
        assert j != i ==> w.fields[j] == v.fields[j];
      }
    }
  }

  // ---------------------------------------------------------------- one object out of order

  /** A single field with a plain number is in order. */
  lemma OneField(f: Field)
    requires f.value.Int?
    ensures SortFields(SortValues([f])) == [f]
  {
    var none: seq<Field> := [];
    assert [f][..0] == none;
    assert SortValues([f]) == [f];
    assert SortFields(none) == none && Insert(none, f) == [f];
  }

  lemma OneFieldIsSafe(f: Field)
    requires f.value.Int?
    ensures SortSafe(Obj([f]))
  {
    assert DistinctKeys([f]) && IndexesAscending([f]) && SortSafe([f][0].value);
  }

  lemma MarkIsSorted(v: Json)
    requires IsMark(v)
    ensures SortKeys(v) == v && SortSafe(v)
  {
    var none: seq<Field> := [];
    if v == Obj(none) {
      assert SortValues(none) == none && SortFields(none) == none;
    } else {
      var f := v.fields[0];
      assert v == Obj([f]);
      OneField(f);
      OneFieldIsSafe(f);
    }
  }

  lemma {:induction false} MarksSortToThemselves(fields: seq<Field>)
    requires Marks(fields)
    ensures SortValues(fields) == fields
  {
    if fields != [] {
      var n := |fields| - 1;
      MarksSortToThemselves(fields[..n]);
      MarkIsSorted(fields[n].value);
      assert fields == fields[..n] + [fields[n]];
    }
  }

  lemma MarksAreSafe(fields: seq<Field>)
    requires Marks(fields)
    ensures forall i :: 0 <= i < |fields| ==> SortSafe(fields[i].value)
  {
    forall i | 0 <= i < |fields| ensures SortSafe(fields[i].value) {
      MarkIsSorted(fields[i].value);
    }
  }

  function KeysOf(fields: seq<Field>): (keys: seq<string>)
    ensures |keys| == |fields| && forall i :: 0 <= i < |fields| ==> keys[i] == fields[i].key
  {
    seq(|fields|, i requires 0 <= i < |fields| => fields[i].key)
  }

  /** The object's keys with marks at the two that collide, and nothing else. */
  function Marked(fields: seq<Field>, a: nat, b: nat): (r: seq<Field>)
    ensures SameKeys(fields, r) && Marks(r)
    ensures forall j :: 0 <= j < |r| ==> r[j].value == if j == a then Mark(0) else if j == b then Mark(1) else Obj([])
  {
    Zip(KeysOf(fields), MarkValues(|fields|, a, b))
  }

  /** Two keys of an object that denote one index and come out of key order. */
  lemma KeysOutOfOrder(fields: seq<Field>) returns (a: nat, b: nat)
    requires DistinctKeys(fields) && !IndexesAscending(fields)
    ensures a < b < |fields| && ArrayIndex(fields[a].key).Some?
            && ArrayIndex(fields[a].key) == ArrayIndex(fields[b].key)
    ensures KeyBefore(fields[b].key, fields[a].key)
  {
    a, b :| a < b < |fields| && ArrayIndex(fields[a].key).Some?
      && ArrayIndex(fields[a].key) == ArrayIndex(fields[b].key) && !KeyBefore(fields[a].key, fields[b].key);
    KeyOrderTotal(fields[a].key, fields[b].key);
  }

  /**
   New values for an object with colliding keys out of order, and a list on which the log and the feed then differ.
   */
  lemma ObjectOutOfOrder(fields: seq<Field>) returns (redone: seq<Field>, target: Doc)
    requires DistinctKeys(fields) && !IndexesAscending(fields)
    ensures SameKeys(fields, redone) && forall i :: 0 <= i < |redone| ==> SortSafe(redone[i].value)
    ensures Merge(target, SortKeys(Obj(redone))) != Merge(target, Obj(redone))
  {
    var a, b := KeysOutOfOrder(fields);
    redone := Marked(fields, a, b);
    var index := ArrayIndex(fields[a].key).value;
    var items := EmptyMappings(index + 1);
    MarksDiffer(items, redone, index, a, b);
    MarksSortToThemselves(redone);
    MarksAreSafe(redone);
    target := DArr(items);
    DifferingItems(items, redone);
  }

  lemma DifferingItems(items: seq<Doc>, fields: seq<Field>)
    requires SortValues(fields) == fields && PatchItems(items, SortFields(fields)) != PatchItems(items, fields)
    ensures Merge(DArr(items), SortKeys(Obj(fields))) != Merge(DArr(items), Obj(fields))
  {
    assert SortKeys(Obj(fields)) == Obj(SortFields(fields));
  }

  // ---------------------------------------------------------------- one field of a mapping

  lemma {:induction false} OnlyValueFor(fields: seq<Field>, i: nat)
    requires DistinctKeys(fields) && i < |fields|
    ensures ValuesFor(fields, Named(fields[i].key)) == [fields[i].value]
  {
    var n := |fields| - 1;
    if i == n {
      NoValueFor(fields[..n], fields[n].key);
    } else {
      OnlyValueFor(fields[..n], i);
    }
  }

  lemma {:induction false} NoValueFor(fields: seq<Field>, key: string)
    requires forall i :: 0 <= i < |fields| ==> fields[i].key != key
    ensures ValuesFor(fields, Named(key)) == []
  {
    if fields != [] {
      NoValueFor(fields[..|fields| - 1], key);
    }
  }

  lemma MergeOne(target: Doc, patch: Json)
    ensures MergeAll(target, [patch]) == Merge(target, patch)
  {
    assert [patch][..0] == [];
  }

  /** A mapping that holds `d` under one key of a patch holds, after the patch, what that key's value makes of `d`. */
  lemma MergeUnderKey(fields: seq<Field>, i: nat, d: Doc)
    requires DistinctKeys(fields) && i < |fields|
    ensures Lookup(MergeFields(map[fields[i].key := d], fields), fields[i].key) == Merge(d, fields[i].value)
  {
    MergeFieldsAt(map[fields[i].key := d], fields, fields[i].key);
    OnlyValueFor(fields, i);
    MergeOne(d, fields[i].value);
  }

  lemma SortedMergeUnderKey(fields: seq<Field>, i: nat, d: Doc)
    requires DistinctKeys(fields) && i < |fields|
    ensures Lookup(MergeFields(map[fields[i].key := d], SortFields(SortValues(fields))), fields[i].key)
            == Merge(d, SortKeys(fields[i].value))
  {
    var sorted := SortFields(SortValues(fields));
    SortValuesKeepsKeys(fields);
    SortMembers(SortValues(fields));
    SortKeepsDistinct(SortValues(fields));
    assert SortValues(fields)[i] in sorted;
    var j: nat :| j < |sorted| && sorted[j] == SortValues(fields)[i];
    MergeUnderKey(sorted, j, d);
  }

  // ---------------------------------------------------------------- the whole delta

  /** What goes wrong under one key goes wrong in the whole mapping. */
  lemma OutOfOrderUnderKey(v: Json, i: nat, inner: Json, state: Doc) returns (w: Json, target: Doc)
    requires WellFormed(v) && v.Obj? && i < |v.fields| && Redone(v.fields[i].value, inner)
    requires Merge(state, SortKeys(inner)) != Merge(state, inner)
    ensures Redone(v, w) && Merge(target, SortKeys(w)) != Merge(target, w)
  {
    var fields := v.fields[i := Field(v.fields[i].key, inner)];
    w, target := Obj(fields), DObj(map[v.fields[i].key := state]);
    assert RedoneAt(v, w, i);
    MergeUnderKey(fields, i, state);
    SortedMergeUnderKey(fields, i, state);
  }

  /** A delta that is not sort-safe can be filled so that some state tells the log from the feed. */
  lemma {:induction false} DeltaOutOfOrder(v: Json) returns (w: Json, target: Doc)
    requires WellFormed(v) && !SortSafe(v)
    ensures Redone(v, w) && Merge(target, SortKeys(w)) != Merge(target, w)
  {
    if !IndexesAscending(v.fields) {
      var redone, items := ObjectOutOfOrder(v.fields);
      w, target := Obj(redone), items;
    } else {
      var i: nat :| i < |v.fields| && !SortSafe(v.fields[i].value);
      var inner, state := DeltaOutOfOrder(v.fields[i].value);
      w, target := OutOfOrderUnderKey(v, i, inner, state);
    }
  }

  /**
   Main result: the log's key order is harmless for a delta, whatever one of its objects holds, exactly when it is
   sort-safe.
   */
  lemma LogsAlikeExactlyWhen(v: Json)
    requires WellFormed(v)
    ensures LogsAlike(v) <==> SortSafe(v)
  {
    if SortSafe(v) {
      forall w, target | Redone(v, w) ensures Merge(target, SortKeys(w)) == Merge(target, w) {
        RedoneIsSafe(v, w);
        SortedMerge(target, w);
      }
    } else {
      var w, target := DeltaOutOfOrder(v);
    }
  }
}
