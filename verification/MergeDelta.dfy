/**
 The deep merge of a feed delta into topic state, and its laws: replaying any block of deltas is harmless, state
 never grows past what was sent, arrays keep their length, and redaction survives.
 */
module MergeDelta {
  import opened Wrappers
  import opened LiveJson

  function Lookup(m: map<string, Doc>, key: string): Doc {
    if key in m then m[key] else DNull
  }

  function Merge(target: Doc, patch: Json): Doc
    decreases patch
  {
    if !patch.Obj? then Strip(patch)
    else if target.DObj? then DObj(MergeFields(target.fields, patch.fields))
    else if target.DArr? then DArr(PatchItems(target.items, patch.fields))
    // A mapping patch against anything else builds a fresh mapping, in which every key is still missing.
    else DObj(MergeFields(map[], patch.fields))
  }

  function MergeFields(m: map<string, Doc>, fields: seq<Field>): map<string, Doc>
    decreases fields
  {
    if fields == [] then m
    else
      var last := fields[|fields| - 1];
      var merged := MergeFields(m, fields[..|fields| - 1]);
      merged[last.key := Merge(Lookup(merged, last.key), last.value)]
  }

  function PatchItems(items: seq<Doc>, fields: seq<Field>): (r: seq<Doc>)
    ensures |r| == |items|
    decreases fields
  {
    if fields == [] then items
    else
      var last := fields[|fields| - 1];
      var patched := PatchItems(items, fields[..|fields| - 1]);
      var index := ArrayIndex(last.key);
      // Out-of-range indexes are dropped, so an array never grows.
      if index.None? || index.value >= |patched| then patched
      else patched[index.value := Merge(patched[index.value], last.value)]
  }

  // ---------------------------------------------------------------- what a patch does to one slot

  /** A place inside a container: a key of a mapping, or an index of a list. */
  datatype Slot = Named(key: string) | At(index: nat) {
    predicate Matches(key: string) {
      match this
      case Named(k) => k == key
      case At(i) => ArrayIndex(key) == Some(i)
    }
  }

  /** The values that a field list sends to one slot, in order. */
  function ValuesFor(fields: seq<Field>, slot: Slot): seq<Json> {
    if fields == [] then []
    else
      var last := fields[|fields| - 1];
      var earlier := ValuesFor(fields[..|fields| - 1], slot);
      if slot.Matches(last.key) then earlier + [last.value] else earlier
  }

  /** Patches applied one after the other. */
  function MergeAll(target: Doc, patches: seq<Json>): Doc {
    if patches == [] then target
    else Merge(MergeAll(target, patches[..|patches| - 1]), patches[|patches| - 1])
  }

  predicate Mentions(fields: seq<Field>, key: string) {
    exists i :: 0 <= i < |fields| && fields[i].key == key
  }

  lemma MergeOneMore(target: Doc, patches: seq<Json>, patch: Json)
    ensures MergeAll(target, patches + [patch]) == Merge(MergeAll(target, patches), patch)
  {
    assert (patches + [patch])[..|patches|] == patches;
  }

  lemma {:induction false} MergeFieldsKeys(m: map<string, Doc>, fields: seq<Field>, key: string)
    ensures key in MergeFields(m, fields) <==> key in m || Mentions(fields, key)
    ensures !Mentions(fields, key) ==> ValuesFor(fields, Named(key)) == []
  {
    if fields != [] {
      MergeFieldsKeys(m, fields[..|fields| - 1], key);
      assert Mentions(fields[..|fields| - 1], key) ==> Mentions(fields, key);
    }
  }

  lemma {:induction false} MergeFieldsAt(m: map<string, Doc>, fields: seq<Field>, key: string)
    ensures Lookup(MergeFields(m, fields), key) == MergeAll(Lookup(m, key), ValuesFor(fields, Named(key)))
  {
    if fields != [] {
      var n := |fields| - 1;
      MergeFieldsAt(m, fields[..n], key);
      MergeOneMore(Lookup(m, key), ValuesFor(fields[..n], Named(key)), fields[n].value);
    }
  }

  lemma {:induction false} PatchItemsAt(items: seq<Doc>, fields: seq<Field>, i: nat)
    requires i < |items|
    ensures PatchItems(items, fields)[i] == MergeAll(items[i], ValuesFor(fields, At(i)))
  {
    if fields != [] {
      var n := |fields| - 1;
      PatchItemsAt(items, fields[..n], i);
      MergeOneMore(items[i], ValuesFor(fields[..n], At(i)), fields[n].value);
    }
  }

  // ---------------------------------------------------------------- blocks of patches

  function Joined(patches: seq<Json>): seq<Field>
    requires forall i :: 0 <= i < |patches| ==> patches[i].Obj?
  {
    if patches == [] then [] else Joined(patches[..|patches| - 1]) + patches[|patches| - 1].fields
  }

  lemma {:induction false} MergeFieldsJoin(m: map<string, Doc>, a: seq<Field>, b: seq<Field>)
    ensures MergeFields(m, a + b) == MergeFields(MergeFields(m, a), b)
  {
    if b == [] {
      assert a + b == a;
    } else {
      MergeFieldsJoin(m, a, b[..|b| - 1]);
      assert (a + b)[..|a + b| - 1] == a + b[..|b| - 1];
    }
  }

  lemma {:induction false} PatchItemsJoin(items: seq<Doc>, a: seq<Field>, b: seq<Field>)
    ensures PatchItems(items, a + b) == PatchItems(PatchItems(items, a), b)
  {
    if b == [] {
      assert a + b == a;
    } else {
      PatchItemsJoin(items, a, b[..|b| - 1]);
      assert (a + b)[..|a + b| - 1] == a + b[..|b| - 1];
    }
  }

  /** The mapping that object patches build on. */
  function Base(target: Doc): map<string, Doc> {
    if target.DObj? then target.fields else map[]
  }

  /** A block of object patches acts as one patch with all their fields. */
  lemma {:induction false} ObjectsActAsOne(target: Doc, patches: seq<Json>)
    requires patches != [] && forall i :: 0 <= i < |patches| ==> patches[i].Obj?
    ensures MergeAll(target, patches) == Merge(target, Obj(Joined(patches)))
  {
    var n := |patches| - 1;
    if n == 0 {
      assert patches[..0] == [];
      assert [] + patches[0].fields == patches[0].fields;
    } else {
      ObjectsActAsOne(target, patches[..n]);
      if target.DArr? {
        PatchItemsJoin(target.items, Joined(patches[..n]), patches[n].fields);
      } else {
        MergeFieldsJoin(Base(target), Joined(patches[..n]), patches[n].fields);
      }
    }
  }

  /** A patch that is not a mapping makes everything before it irrelevant. */
  lemma {:induction false} ReplacementResets(target: Doc, patches: seq<Json>, j: nat)
    requires j < |patches| && !patches[j].Obj?
    ensures MergeAll(target, patches) == MergeAll(Strip(patches[j]), patches[j + 1..])
  {
    var n := |patches| - 1;
    if j < n {
      ReplacementResets(target, patches[..n], j);
      assert patches[..n][j + 1..] == patches[j + 1..][..n - j - 1];
    }
  }

  // ---------------------------------------------------------------- weights

  /** Nodes of a value. */
  function Weight(v: Json): (n: nat)
    ensures 1 <= n
  {
    match v
    case Arr(items) => 1 + WeightAll(items)
    case Obj(fields) => 1 + WeightFields(fields)
    case _ => 1
  }

  function WeightAll(items: seq<Json>): nat {
    if items == [] then 0 else WeightAll(items[..|items| - 1]) + Weight(items[|items| - 1])
  }

  function WeightFields(fields: seq<Field>): nat {
    if fields == [] then 0 else WeightFields(fields[..|fields| - 1]) + Weight(fields[|fields| - 1].value)
  }

  lemma {:induction false} WeightFieldsJoin(a: seq<Field>, b: seq<Field>)
    ensures WeightFields(a + b) == WeightFields(a) + WeightFields(b)
  {
    if b == [] {
      assert a + b == a;
    } else {
      WeightFieldsJoin(a, b[..|b| - 1]);
      assert (a + b)[..|a + b| - 1] == a + b[..|b| - 1];
    }
  }

  lemma {:induction false} JoinedIsLighter(patches: seq<Json>)
    requires forall i :: 0 <= i < |patches| ==> patches[i].Obj?
    ensures WeightFields(Joined(patches)) + |patches| == WeightAll(patches)
  {
    if patches != [] {
      JoinedIsLighter(patches[..|patches| - 1]);
      WeightFieldsJoin(Joined(patches[..|patches| - 1]), patches[|patches| - 1].fields);
    }
  }

  lemma {:induction false} SlotIsLighter(fields: seq<Field>, slot: Slot)
    ensures WeightAll(ValuesFor(fields, slot)) <= WeightFields(fields)
  {
    if fields != [] {
      SlotIsLighter(fields[..|fields| - 1], slot);
      var earlier := ValuesFor(fields[..|fields| - 1], slot);
      assert (earlier + [fields[|fields| - 1].value])[..|earlier|] == earlier;
    }
  }

  // ---------------------------------------------------------------- replays are harmless

  lemma SameMapping(a: map<string, Doc>, b: map<string, Doc>)
    requires forall key :: (key in a <==> key in b) && Lookup(a, key) == Lookup(b, key)
    ensures a == b
  {
    forall key | key in a ensures key in b && a[key] == b[key] {
      assert Lookup(a, key) == Lookup(b, key);
    }
    forall key | key in b ensures key in a {
      assert Lookup(a, key) == Lookup(b, key);
    }
  }

  lemma ReplayMapping(m: map<string, Doc>, fields: seq<Field>)
    ensures MergeFields(MergeFields(m, fields), fields) == MergeFields(m, fields)
    decreases WeightFields(fields), 1
  {
    var once := MergeFields(m, fields);
    forall key ensures (key in MergeFields(once, fields) <==> key in once)
                    && Lookup(MergeFields(once, fields), key) == Lookup(once, key)
    {
      MergeFieldsKeys(m, fields, key);
      MergeFieldsKeys(once, fields, key);
      MergeFieldsAt(m, fields, key);
      MergeFieldsAt(once, fields, key);
      SlotIsLighter(fields, Named(key));
      ReplayBlock(Lookup(m, key), ValuesFor(fields, Named(key)));
    }
    SameMapping(MergeFields(once, fields), once);
  }

  lemma ReplayList(items: seq<Doc>, fields: seq<Field>)
    ensures PatchItems(PatchItems(items, fields), fields) == PatchItems(items, fields)
    decreases WeightFields(fields), 1
  {
    var once := PatchItems(items, fields);
    forall i | 0 <= i < |items| ensures PatchItems(once, fields)[i] == once[i] {
      PatchItemsAt(items, fields, i);
      PatchItemsAt(once, fields, i);
      SlotIsLighter(fields, At(i));
      ReplayBlock(items[i], ValuesFor(fields, At(i)));
    }
  }

  /** Main result: replaying any block of patches right after itself leaves the state as it was. */
  lemma {:induction false} ReplayBlock(target: Doc, patches: seq<Json>)
    ensures MergeAll(MergeAll(target, patches), patches) == MergeAll(target, patches)
    decreases WeightAll(patches), 0
  {
    if j :| 0 <= j < |patches| && !patches[j].Obj? {
      ReplacementResets(target, patches, j);
      ReplacementResets(MergeAll(target, patches), patches, j);
    } else if patches != [] {
      ObjectsActAsOne(target, patches);
      ObjectsActAsOne(MergeAll(target, patches), patches);
      JoinedIsLighter(patches);
      if target.DArr? {
        ReplayList(target.items, Joined(patches));
      } else {
        ReplayMapping(Base(target), Joined(patches));
      }
    }
  }

  /** Merging the same delta twice yields the same state, even when several keys of it denote one index. */
  lemma MergeTwice(target: Doc, patch: Json)
    ensures Merge(Merge(target, patch), patch) == Merge(target, patch)
  {
    ReplayBlock(target, [patch]);
    assert [patch][..0] == [];
    assert MergeAll(target, [patch]) == Merge(target, patch);
    assert MergeAll(Merge(target, patch), [patch]) == Merge(Merge(target, patch), patch);
  }

  // ---------------------------------------------------------------- state stays bounded

  /** Nodes of a state. */
  ghost function Size(d: Doc): (n: nat)
    ensures 1 <= n
    decreases d, 1, 0
  {
    match d
    case DArr(items) => 1 + SizeItems(items)
    case DObj(fields) => 1 + SizeOver(d, fields.Keys)
    case _ => 1
  }

  ghost function SizeItems(items: seq<Doc>): nat
    decreases items, 0, 0
  {
    if items == [] then 0 else SizeItems(items[..|items| - 1]) + Size(items[|items| - 1])
  }

  /** Nodes below some of the keys of a mapping. */
  ghost function SizeOver(d: Doc, keys: set<string>): nat
    requires d.DObj? && keys <= d.fields.Keys
    decreases d, 0, |keys|
  {
    if keys == {} then 0
    else
      var key :| key in keys;
      Size(d.fields[key]) + SizeOver(d, keys - {key})
  }

  lemma {:induction false} SizeOverAny(d: Doc, keys: set<string>, key: string)
    requires d.DObj? && keys <= d.fields.Keys && key in keys
    ensures SizeOver(d, keys) == Size(d.fields[key]) + SizeOver(d, keys - {key})
    decreases |keys|
  {
    var first :| first in keys && SizeOver(d, keys) == Size(d.fields[first]) + SizeOver(d, keys - {first});
    if first != key {
      SizeOverAny(d, keys - {first}, key);
      SizeOverAny(d, keys - {key}, first);
      assert keys - {first} - {key} == keys - {key} - {first};
    }
  }

  lemma {:induction false} SizeOverSame(a: Doc, b: Doc, keys: set<string>)
    requires a.DObj? && b.DObj? && keys <= a.fields.Keys && keys <= b.fields.Keys
    requires forall key :: key in keys ==> a.fields[key] == b.fields[key]
    ensures SizeOver(a, keys) == SizeOver(b, keys)
    decreases |keys|
  {
    if keys != {} {
      var key :| key in keys;
      SizeOverAny(a, keys, key);
      SizeOverAny(b, keys, key);
      SizeOverSame(a, b, keys - {key});
    }
  }

  lemma SizeOfUpdate(m: map<string, Doc>, key: string, value: Doc)
    ensures Size(DObj(m[key := value])) + (if key in m then Size(m[key]) else 0) == Size(DObj(m)) + Size(value)
  {
    var before, after := DObj(m), DObj(m[key := value]);
    var others := m.Keys - {key};
    SizeOverSame(before, after, others);
    SizeOverAny(after, after.fields.Keys, key);
    assert after.fields.Keys - {key} == others;
    if key in m {
      SizeOverAny(before, m.Keys, key);
    } else {
      assert m.Keys == others;
    }
  }

  lemma {:induction false} SizeOfItemUpdate(items: seq<Doc>, i: nat, value: Doc)
    requires i < |items|
    ensures SizeItems(items[i := value]) + Size(items[i]) == SizeItems(items) + Size(value)
  {
    var n := |items| - 1;
    if i < n {
      SizeOfItemUpdate(items[..n], i, value);
      assert items[i := value][..n] == items[..n][i := value];
    } else {
      assert items[i := value][..n] == items[..n];
    }
  }

  lemma {:induction false} StripKeepsSize(v: Json)
    ensures Size(Strip(v)) <= Weight(v)
    decreases v, 1
  {
    match v
    case Arr(items) => StripItemsKeepsSize(items);
    case Obj(fields) => StripFieldsKeepsSize(fields);
    case _ =>
  }

  lemma {:induction false} StripItemsKeepsSize(items: seq<Json>)
    ensures SizeItems(StripItems(items)) <= WeightAll(items)
    decreases items, 0
  {
    if items != [] {
      var n := |items| - 1;
      StripItemsKeepsSize(items[..n]);
      StripKeepsSize(items[n]);
      assert StripItems(items)[..n] == StripItems(items[..n]);
    }
  }

  lemma {:induction false} StripFieldsKeepsSize(fields: seq<Field>)
    ensures Size(DObj(StripFields(fields))) <= 1 + WeightFields(fields)
    decreases fields, 0
  {
    if fields != [] {
      var n := |fields| - 1;
      StripFieldsKeepsSize(fields[..n]);
      StripKeepsSize(fields[n].value);
      SizeOfUpdate(StripFields(fields[..n]), fields[n].key, Strip(fields[n].value));
    }
  }

  /**
   State grows by no more than the patch that was sent, and a value built from nothing is no larger than its patch.
   */
  lemma {:induction false} MergeGrowth(target: Doc, patch: Json)
    ensures Size(Merge(target, patch)) <= Size(target) + Weight(patch)
    ensures !target.DObj? && !target.DArr? ==> Size(Merge(target, patch)) <= Weight(patch)
    decreases patch, 1
  {
    if !patch.Obj? {
      StripKeepsSize(patch);
    } else if target.DArr? {
      PatchItemsGrowth(target.items, patch.fields);
    } else {
      MergeFieldsGrowth(Base(target), patch.fields);
    }
  }

  lemma {:induction false} MergeFieldsGrowth(m: map<string, Doc>, fields: seq<Field>)
    ensures Size(DObj(MergeFields(m, fields))) <= Size(DObj(m)) + WeightFields(fields)
    decreases fields, 0
  {
    if fields != [] {
      var n := |fields| - 1;
      var merged := MergeFields(m, fields[..n]);
      MergeFieldsGrowth(m, fields[..n]);
      MergeGrowth(Lookup(merged, fields[n].key), fields[n].value);
      SizeOfUpdate(merged, fields[n].key, Merge(Lookup(merged, fields[n].key), fields[n].value));
    }
  }

  lemma {:induction false} PatchItemsGrowth(items: seq<Doc>, fields: seq<Field>)
    ensures SizeItems(PatchItems(items, fields)) <= SizeItems(items) + WeightFields(fields)
    decreases fields, 0
  {
    if fields != [] {
      var n := |fields| - 1;
      var patched := PatchItems(items, fields[..n]);
      PatchItemsGrowth(items, fields[..n]);
      var index := ArrayIndex(fields[n].key);
      if index.Some? && index.value < |patched| {
        MergeGrowth(patched[index.value], fields[n].value);
        SizeOfItemUpdate(patched, index.value, Merge(patched[index.value], fields[n].value));
      }
    }
  }

  // ---------------------------------------------------------------- depth and redaction

  predicate DepthAtMost(d: Doc, limit: int) {
    match d
    case DArr(items) => 0 < limit && forall i :: 0 <= i < |items| ==> DepthAtMost(items[i], limit - 1)
    case DObj(fields) => 0 < limit && forall key :: key in fields ==> DepthAtMost(fields[key], limit - 1)
    case _ => true
  }

  predicate PatchDepthAtMost(v: Json, limit: int) {
    match v
    case Arr(items) => 0 < limit && forall i :: 0 <= i < |items| ==> PatchDepthAtMost(items[i], limit - 1)
    case Obj(fields) => 0 < limit && forall i :: 0 <= i < |fields| ==> PatchDepthAtMost(fields[i].value, limit - 1)
    case _ => true
  }

  lemma {:induction false} StripKeepsDepth(v: Json, limit: int)
    requires PatchDepthAtMost(v, limit)
    ensures DepthAtMost(Strip(v), limit)
  {
    match v
    case Arr(items) =>
      forall i | 0 <= i < |items| ensures DepthAtMost(StripItems(items)[i], limit - 1) {
        StripItemsAt(items, i);
        StripKeepsDepth(items[i], limit - 1);
      }
    case Obj(fields) =>
      forall key | key in StripFields(fields) ensures DepthAtMost(StripFields(fields)[key], limit - 1) {
        var i := StripFieldsFrom(fields, key);
        StripKeepsDepth(fields[i].value, limit - 1);
      }
    case _ =>
  }

  lemma {:induction false} StripItemsAt(items: seq<Json>, i: nat)
    requires i < |items|
    ensures StripItems(items)[i] == Strip(items[i])
  {
    if i < |items| - 1 {
      StripItemsAt(items[..|items| - 1], i);
    }
  }

  /** Every key of a stripped object comes from one of its fields. */
  lemma {:induction false} StripFieldsFrom(fields: seq<Field>, key: string) returns (i: nat)
    requires key in StripFields(fields)
    ensures i < |fields| && fields[i].key == key && StripFields(fields)[key] == Strip(fields[i].value)
  {
    i := |fields| - 1;
    if fields[i].key != key {
      i := StripFieldsFrom(fields[..i], key);
    }
  }

  /** Merging nests no deeper than the deeper of state and patch. */
  lemma {:induction false} MergeKeepsDepth(target: Doc, patch: Json, limit: int)
    requires DepthAtMost(target, limit) && PatchDepthAtMost(patch, limit)
    ensures DepthAtMost(Merge(target, patch), limit)
    decreases patch, 1
  {
    if !patch.Obj? {
      StripKeepsDepth(patch, limit);
    } else if target.DArr? {
      PatchItemsKeepsDepth(target.items, patch.fields, limit - 1);
    } else {
      MergeFieldsKeepsDepth(Base(target), patch.fields, limit - 1);
    }
  }

  lemma {:induction false} MergeFieldsKeepsDepth(m: map<string, Doc>, fields: seq<Field>, limit: int)
    requires forall key :: key in m ==> DepthAtMost(m[key], limit)
    requires forall i :: 0 <= i < |fields| ==> PatchDepthAtMost(fields[i].value, limit)
    ensures forall key :: key in MergeFields(m, fields) ==> DepthAtMost(MergeFields(m, fields)[key], limit)
    decreases fields, 0
  {
    if fields != [] {
      var n := |fields| - 1;
      MergeFieldsKeepsDepth(m, fields[..n], limit);
      MergeKeepsDepth(Lookup(MergeFields(m, fields[..n]), fields[n].key), fields[n].value, limit);
    }
  }

  lemma {:induction false} PatchItemsKeepsDepth(items: seq<Doc>, fields: seq<Field>, limit: int)
    requires forall i :: 0 <= i < |items| ==> DepthAtMost(items[i], limit)
    requires forall i :: 0 <= i < |fields| ==> PatchDepthAtMost(fields[i].value, limit)
    ensures forall i :: 0 <= i < |items| ==> DepthAtMost(PatchItems(items, fields)[i], limit)
    decreases fields, 0
  {
    if fields != [] {
      var n := |fields| - 1;
      var patched := PatchItems(items, fields[..n]);
      PatchItemsKeepsDepth(items, fields[..n], limit);
      var index := ArrayIndex(fields[n].key);
      if index.Some? && index.value < |patched| {
        MergeKeepsDepth(patched[index.value], fields[n].value, limit);
      }
    }
  }

  /** Every sensitive key holds the redaction marker, at every depth. */
  predicate Redacted(sensitive: string -> bool, d: Doc) {
    match d
    case DArr(items) => forall i :: 0 <= i < |items| ==> Redacted(sensitive, items[i])
    case DObj(fields) =>
      forall key :: key in fields ==>
        if sensitive(key) then fields[key] == DText(REDACTED) else Redacted(sensitive, fields[key])
    case _ => true
  }

  predicate RedactedField(sensitive: string -> bool, f: Field) {
    if sensitive(f.key) then f.value == Text(REDACTED) else RedactedPatch(sensitive, f.value)
  }

  predicate RedactedPatch(sensitive: string -> bool, v: Json) {
    match v
    case Arr(items) => forall i :: 0 <= i < |items| ==> RedactedPatch(sensitive, items[i])
    case Obj(fields) => forall i :: 0 <= i < |fields| ==> RedactedField(sensitive, fields[i])
    case _ => true
  }

  lemma {:induction false} StripKeepsRedaction(sensitive: string -> bool, v: Json)
    requires RedactedPatch(sensitive, v)
    ensures Redacted(sensitive, Strip(v))
  {
    match v
    case Arr(items) =>
      forall i | 0 <= i < |items| ensures Redacted(sensitive, StripItems(items)[i]) {
        StripItemsAt(items, i);
        StripKeepsRedaction(sensitive, items[i]);
      }
    case Obj(fields) =>
      forall key | key in StripFields(fields)
        ensures if sensitive(key) then StripFields(fields)[key] == DText(REDACTED)
                else Redacted(sensitive, StripFields(fields)[key])
      {
        var i := StripFieldsFrom(fields, key);
        assert RedactedField(sensitive, fields[i]);
        if !sensitive(key) {
          StripKeepsRedaction(sensitive, fields[i].value);
        }
      }
    case _ =>
  }

  /** No run of merges can bring back what normalisation has redacted. */
  lemma {:induction false} MergeKeepsRedaction(sensitive: string -> bool, target: Doc, patch: Json)
    requires Redacted(sensitive, target) && RedactedPatch(sensitive, patch)
    ensures Redacted(sensitive, Merge(target, patch))
    decreases patch, 1
  {
    if !patch.Obj? {
      StripKeepsRedaction(sensitive, patch);
    } else if target.DArr? {
      PatchItemsKeepsRedaction(sensitive, target.items, patch.fields);
    } else {
      MergeFieldsKeepsRedaction(sensitive, Base(target), patch.fields);
    }
  }

  lemma {:induction false} MergeFieldsKeepsRedaction(sensitive: string -> bool, m: map<string, Doc>, fields: seq<Field>)
    requires Redacted(sensitive, DObj(m)) && forall i :: 0 <= i < |fields| ==> RedactedField(sensitive, fields[i])
    ensures Redacted(sensitive, DObj(MergeFields(m, fields)))
    decreases fields, 0
  {
    if fields != [] {
      var n := |fields| - 1;
      MergeFieldsKeepsRedaction(sensitive, m, fields[..n]);
      assert RedactedField(sensitive, fields[n]);
      if !sensitive(fields[n].key) {
        MergeKeepsRedaction(sensitive, Lookup(MergeFields(m, fields[..n]), fields[n].key), fields[n].value);
      }
    }
  }

  lemma {:induction false} PatchItemsKeepsRedaction(sensitive: string -> bool, items: seq<Doc>, fields: seq<Field>)
    requires forall i :: 0 <= i < |items| ==> Redacted(sensitive, items[i])
    requires forall i :: 0 <= i < |fields| ==> RedactedField(sensitive, fields[i])
    ensures forall i :: 0 <= i < |items| ==> Redacted(sensitive, PatchItems(items, fields)[i])
    decreases fields, 0
  {
    if fields != [] {
      var n := |fields| - 1;
      var patched := PatchItems(items, fields[..n]);
      PatchItemsKeepsRedaction(sensitive, items, fields[..n]);
      assert RedactedField(sensitive, fields[n]);
      var index := ArrayIndex(fields[n].key);
      if index.Some? && index.value < |patched| && !sensitive(fields[n].key) {
        MergeKeepsRedaction(sensitive, patched[index.value], fields[n].value);
      }
    }
  }

  /** A mapping patch never changes how long a list is; the list stays a list. */
  lemma ListsKeepTheirLength(items: seq<Doc>, patch: Json)
    requires patch.Obj?
    ensures Merge(DArr(items), patch).DArr? && |Merge(DArr(items), patch).items| == |items|
    ensures forall i :: 0 <= i < |items| && ValuesFor(patch.fields, At(i)) == [] ==>
              Merge(DArr(items), patch).items[i] == items[i]
  {
    forall i | 0 <= i < |items|
      ensures PatchItems(items, patch.fields)[i] == MergeAll(items[i], ValuesFor(patch.fields, At(i))) {
      PatchItemsAt(items, patch.fields, i);
    }
  }
}
