/**
 JSON values of the live feed. A frame carries `Json`, whose objects list their fields in arrival order; topic
 state is a `Doc`, whose objects are maps, because two states are compared without regard to field order.
 */
module LiveJson {
  import opened Wrappers

  datatype Field = Field(key: string, value: Json)

  datatype Json =
    | Null
    | Bool(b: bool)
    | Int(i: int)
    | Real(r: real)
    | Text(text: string)
    | Arr(items: seq<Json>)
    | Obj(fields: seq<Field>)

  datatype Doc =
    | DNull
    | DBool(b: bool)
    | DInt(i: int)
    | DReal(r: real)
    | DText(text: string)
    | DArr(items: seq<Doc>)
    | DObj(fields: map<string, Doc>)

  /** An object is a mapping: no key occurs twice. */
  predicate DistinctKeys(fields: seq<Field>) {
    forall i, j :: 0 <= i < j < |fields| ==> fields[i].key != fields[j].key
  }

  /** Every object at every depth is a mapping. */
  predicate WellFormed(v: Json) {
    match v
    case Arr(items) => forall i :: 0 <= i < |items| ==> WellFormed(items[i])
    case Obj(fields) => DistinctKeys(fields) && forall i :: 0 <= i < |fields| ==> WellFormed(fields[i].value)
    case _ => true
  }

  /** The state a value stands for: the value without its field order. */
  function Strip(v: Json): Doc {
    match v
    case Null => DNull
    case Bool(b) => DBool(b)
    case Int(i) => DInt(i)
    case Real(r) => DReal(r)
    case Text(text) => DText(text)
    case Arr(items) => DArr(StripItems(items))
    case Obj(fields) => DObj(StripFields(fields))
  }

  function StripItems(items: seq<Json>): (r: seq<Doc>)
    ensures |r| == |items|
  {
    if items == [] then [] else StripItems(items[..|items| - 1]) + [Strip(items[|items| - 1])]
  }

  function StripFields(fields: seq<Field>): map<string, Doc> {
    if fields == [] then map[]
    else
      var last := fields[|fields| - 1];
      StripFields(fields[..|fields| - 1])[last.key := Strip(last.value)]
  }

  const REDACTED := "[redacted]"

  // ---------------------------------------------------------------- array indexes

  /** Code points of the zero digit of every decimal script in Unicode 15.1. */
  const DECIMAL_ZEROS: seq<int> := [0x30] + OTHER_ZEROS

  const OTHER_ZEROS: seq<int> := [
    0x660, 0x6F0, 0x7C0, 0x966, 0x9E6, 0xA66, 0xAE6, 0xB66, 0xBE6, 0xC66, 0xCE6, 0xD66, 0xDE6, 0xE50, 0xED0,
    0xF20, 0x1040, 0x1090, 0x17E0, 0x1810, 0x1946, 0x19D0, 0x1A80, 0x1A90, 0x1B50, 0x1BB0, 0x1C40, 0x1C50, 0xA620,
    0xA8D0, 0xA900, 0xA9D0, 0xA9F0, 0xAA50, 0xABF0, 0xFF10, 0x104A0, 0x10D30, 0x11066, 0x110F0, 0x11136, 0x111D0,
    0x112F0, 0x11450, 0x114D0, 0x11650, 0x116C0, 0x11730, 0x118E0, 0x11950, 0x11C50, 0x11D50, 0x11DA0, 0x11F50,
    0x16A60, 0x16AC0, 0x16B50, 0x1D7CE, 0x1D7D8, 0x1D7E2, 0x1D7EC, 0x1D7F6, 0x1E140, 0x1E2F0, 0x1E4F0, 0x1E950,
    0x1FBF0]

  /** The interpreter refuses to convert longer digit strings. */
  const MAX_INDEX_DIGITS := 4300

  function DigitAmong(c: char, zeros: seq<int>): (r: Option<nat>)
    ensures r.Some? ==> r.value <= 9
  {
    if zeros == [] then None
    else if zeros[0] <= c as int <= zeros[0] + 9 then Some(c as int - zeros[0])
    else DigitAmong(c, zeros[1..])
  }

  function Digits(key: string): Option<nat> {
    if key == "" then Some(0)
    else
      match (Digits(key[..|key| - 1]), DigitAmong(key[|key| - 1], DECIMAL_ZEROS))
      case (Some(high), Some(low)) => Some(10 * high + low)
      case _ => None
  }

  /** The list index a key denotes: "1" and "01" both denote 1. */
  function ArrayIndex(key: string): Option<nat> {
    if key == "" || MAX_INDEX_DIGITS < |key| then None else Digits(key)
  }

  // ---------------------------------------------------------------- key order

  /** Code-point order of strings, as `sort_keys` uses it. */
  predicate KeyBefore(a: string, b: string) {
    if b == "" then false
    else if a == "" then true
    else if a[0] != b[0] then a[0] < b[0]
    else KeyBefore(a[1..], b[1..])
  }

  lemma {:induction false} KeyOrderTotal(a: string, b: string)
    ensures KeyBefore(a, b) || KeyBefore(b, a) || a == b
  {
    if a != "" && b != "" && a[0] == b[0] {
      KeyOrderTotal(a[1..], b[1..]);
      assert a == [a[0]] + a[1..] && b == [b[0]] + b[1..];
    }
  }

  lemma {:induction false} KeyOrderAsymmetric(a: string, b: string)
    requires KeyBefore(a, b)
    ensures !KeyBefore(b, a)
  {
    if a != "" && b != "" && a[0] == b[0] {
      KeyOrderAsymmetric(a[1..], b[1..]);
    }
  }

  lemma {:induction false} KeyOrderTransitive(a: string, b: string, c: string)
    requires KeyBefore(a, b) && KeyBefore(b, c)
    ensures KeyBefore(a, c)
  {
    if a != "" && b != "" && c != "" && a[0] == b[0] == c[0] {
      KeyOrderTransitive(a[1..], b[1..], c[1..]);
    }
  }

  /** The keys agree up to `n`, where the first one ends or has the smaller character. */
  predicate Precedes(a: string, b: string, n: nat) {
    n < |b| && n <= |a| && a[..n] == b[..n] && (n < |a| ==> a[n] < b[n])
  }

  lemma PrecedesAfterFirst(a: string, b: string, n: nat)
    requires a != "" && b != "" && a[0] == b[0]
    ensures Precedes(a, b, n + 1) <==> Precedes(a[1..], b[1..], n)
  {
    if n < |b[1..]| && n <= |a[1..]| {
      assert a[..n + 1] == [a[0]] + a[1..][..n] && b[..n + 1] == [b[0]] + b[1..][..n];
      assert a[..n + 1][1..] == a[1..][..n] && b[..n + 1][1..] == b[1..][..n];
    }
  }

  lemma StartsAgree(a: string, b: string, n: nat)
    ensures Precedes(a, b, n) && 0 < n ==> a != "" && a[0] == b[0]
  {
    if Precedes(a, b, n) && 0 < n {
      assert a[..n][0] == b[..n][0];
    }
  }

  /**
   Main result: one key comes before another exactly when it is a proper start of it, or smaller where they differ.
   */
  lemma {:induction false} BeforeExactlyWhen(a: string, b: string)
    ensures KeyBefore(a, b) <==> exists n: nat :: Precedes(a, b, n)
  {
    if a == "" || b == "" || a[0] != b[0] {
      if KeyBefore(a, b) {
        assert Precedes(a, b, 0);
      } else if n: nat :| Precedes(a, b, n) {
        StartsAgree(a, b, n);
      }
    } else {
      BeforeExactlyWhen(a[1..], b[1..]);
      if n: nat :| Precedes(a[1..], b[1..], n) {
        PrecedesAfterFirst(a, b, n);
      }
      if n: nat :| Precedes(a, b, n) {
        assert 0 < n;
        PrecedesAfterFirst(a, b, n - 1);
      }
    }
  }

  /** Places a field after every field whose key does not come after its own. */
  function Insert(fields: seq<Field>, f: Field): (r: seq<Field>)
    ensures |r| == |fields| + 1
  {
    if fields == [] || !KeyBefore(f.key, fields[|fields| - 1].key) then fields + [f]
    else Insert(fields[..|fields| - 1], f) + [fields[|fields| - 1]]
  }

  /** The fields of one object in key order. */
  function SortFields(fields: seq<Field>): (r: seq<Field>)
    ensures |r| == |fields|
  {
    if fields == [] then [] else Insert(SortFields(fields[..|fields| - 1]), fields[|fields| - 1])
  }

  /** What a log line holds: every object at every depth in key order. */
  function SortKeys(v: Json): Json {
    match v
    case Arr(items) => Arr(SortItems(items))
    case Obj(fields) => Obj(SortFields(SortValues(fields)))
    case _ => v
  }

  function SortItems(items: seq<Json>): (r: seq<Json>)
    ensures |r| == |items|
  {
    if items == [] then [] else SortItems(items[..|items| - 1]) + [SortKeys(items[|items| - 1])]
  }

  function SortValues(fields: seq<Field>): (r: seq<Field>)
    ensures |r| == |fields|
  {
    if fields == [] then []
    else
      var last := fields[|fields| - 1];
      SortValues(fields[..|fields| - 1]) + [Field(last.key, SortKeys(last.value))]
  }
}
