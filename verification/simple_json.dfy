/** The simplified JSON projection of a node subtree
    (src-tauri/src/handlers/json.rs): scalar leaves become JSON values, text
    that reads as a number becomes a number, image and sound properties
    contribute their serialised fields, and every child becomes a key of its
    parent's object. */
module SimpleJson {
  import opened Wrappers
  import opened JsonValue
  import opened Decimal
  import opened WzNode

  /** The key under which an image links to another image. */
  const OutlinkKey := "_outlink"
  /** The key the projection adds to an image with the image's full path. */
  const PathKey := "path"

  /** `try_convert_string_to_number`. `parseF64` stands for
      `str::parse::<f64>`, whose grammar is not modelled. A string becomes an
      integer when it reads as an i64; failing that it becomes a float when it
      reads as a finite f64; otherwise, and for every non-string value, the
      value is returned as it came. */
  function Coerce(v: Json, parseF64: string -> Option<F64>): (r: Json)
    ensures !v.Str? ==> r == v
    ensures r == v || (v.Str? && r.Num?)
    ensures v.Str? && ParseI64(v.s).Some? ==> r == Num(IntNumber(ParseI64(v.s).value))
    ensures v.Str? && ParseI64(v.s).None? ==>
      (r.Num? <==> parseF64(v.s).Some? && parseF64(v.s).value.Finite?)
    ensures v.Str? && ParseI64(v.s).None? && parseF64(v.s).Some? && parseF64(v.s).value.Finite? ==>
      r == Num(FloatNumber(parseF64(v.s).value.value))
  {
    if v.Str? then
      match ParseI64(v.s)
      case Some(i) => Num(IntNumber(i))
      case None =>
        match parseF64(v.s)
        case Some(x) =>
          (match NumberFromF64(x)
           case Some(n) => Num(n)
           case None => v)
        case None => v
    else v
  }

  /** Coercing a value that was already coerced changes nothing. */
  lemma CoerceIdempotent(v: Json, parseF64: string -> Option<F64>)
    ensures Coerce(Coerce(v, parseF64), parseF64) == Coerce(v, parseF64)
  {
  }

  /** The integer reading is tried first: the canonical text of any i64 becomes
      that integer whatever the float parser would make of it. */
  lemma CoerceIntegerText(n: int, parseF64: string -> Option<F64>)
    requires I64Min <= n <= I64Max
    ensures Coerce(Str(IntText(n)), parseF64) == Num(IntNumber(n))
  {
    IntTextRoundTrip(n);
  }

  /** Every value of a serialised property struct, coerced. */
  function CoerceAll(m: map<string, Json>, parseF64: string -> Option<F64>): (r: map<string, Json>)
    ensures r.Keys == m.Keys
    ensures forall k :: k in m ==> r[k] == Coerce(m[k], parseF64)
  {
    map k | k in m :: Coerce(m[k], parseF64)
  }

  /** The fields an image or sound node with children starts from: its
      serialised struct's fields, coerced, when the struct serialises to an
      object; no fields otherwise. */
  function OwnFields(kind: Kind, parseF64: string -> Option<F64>): map<string, Json> {
    match kind
    case Png(Obj(m)) => CoerceAll(m, parseF64)
    case Sound(Obj(m), _) => CoerceAll(m, parseF64)
    case _ => map[]
  }

  /** The projection of a node without children. */
  function LeafJson(kind: Kind, parseF64: string -> Option<F64>): Json {
    match kind
    case Value(v) => Coerce(v, parseF64)
    case Png(fields) => fields
    case Sound(fields, _) => fields
    case _ => Null
  }

  /** `to_simple_json`. Recursion only descends into children, so it ends. */
  function ToSimpleJson(n: Node, parseF64: string -> Option<F64>): (r: Json)
    ensures |n.children| > 0 ==> r.Obj?
    ensures |n.children| > 0 ==>
      forall i :: 0 <= i < |n.children| ==> n.children[i].name in r.fields
    decreases n, 2
  {
    if |n.children| == 0 then LeafJson(n.kind, parseF64)
    else
      var merged := Merged(n, parseF64);
      if n.kind.Png? && OutlinkKey !in merged then Obj(merged[PathKey := Str(n.fullPath)])
      else Obj(merged)
  }

  /** Each child's name with its projection, in child order. */
  function ChildEntries(n: Node, parseF64: string -> Option<F64>): (es: seq<(string, Json)>)
    ensures |es| == |n.children|
    decreases n, 0
  {
    seq(|n.children|, i requires 0 <= i < |n.children| =>
      (n.children[i].name, ToSimpleJson(n.children[i], parseF64)))
  }

  /** The names of a node's children. */
  function ChildNameSet(n: Node): set<string> {
    set i | 0 <= i < |n.children| :: n.children[i].name
  }

  /** Whether the projection of a node with children adds the `path` key: only
      an image does, and only when neither its fields nor its children provide
      an outlink. */
  predicate AddsPath(n: Node, parseF64: string -> Option<F64>) {
    n.kind.Png? && OutlinkKey !in OwnFields(n.kind, parseF64) && OutlinkKey !in ChildNameSet(n)
  }

  /** The object a node with children projects to, before `path` is added:
      the image or sound fields with every child's projection inserted in
      child order. */
  function Merged(n: Node, parseF64: string -> Option<F64>): (m: map<string, Json>)
    ensures forall i :: 0 <= i < |n.children| ==> n.children[i].name in m
    decreases n, 1
  {
    var entries := ChildEntries(n, parseF64);
    assert forall i :: 0 <= i < |n.children| ==> n.children[i].name == entries[i].0;
    InsertAll(OwnFields(n.kind, parseF64), entries)
  }

  /** What `Merged` holds, for children with distinct names. */
  lemma MergedContents(n: Node, parseF64: string -> Option<F64>)
    requires UniqueChildNames(n)
    ensures Merged(n, parseF64).Keys == OwnFields(n.kind, parseF64).Keys + ChildNameSet(n)
    ensures forall i :: 0 <= i < |n.children| ==>
      Merged(n, parseF64)[n.children[i].name] == ToSimpleJson(n.children[i], parseF64)
    ensures forall k :: k in OwnFields(n.kind, parseF64) && k !in ChildNameSet(n) ==>
      Merged(n, parseF64)[k] == OwnFields(n.kind, parseF64)[k]
  {
    var entries := ChildEntries(n, parseF64);
    assert forall i :: 0 <= i < |n.children| ==>
      entries[i] == (n.children[i].name, ToSimpleJson(n.children[i], parseF64));
    assert EntryKeys(entries) == ChildNameSet(n);
    forall i | 0 <= i < |n.children|
      ensures LastWithKey(entries, i)
    {
    }
  }

  /** A node with children projects to an object whose keys are the image or
      sound fields, the children's names and, for an image without outlink,
      `path`. A child's projection overrides a field of the same name, and
      `path` overrides a child named `path`. */
  lemma {:induction false} ProjectComposite(n: Node, parseF64: string -> Option<F64>)
    requires |n.children| > 0
    requires UniqueChildNames(n)
    ensures ToSimpleJson(n, parseF64).Obj?
    ensures ToSimpleJson(n, parseF64).fields.Keys ==
      OwnFields(n.kind, parseF64).Keys + ChildNameSet(n)
      + (if AddsPath(n, parseF64) then {PathKey} else {})
    ensures forall i :: 0 <= i < |n.children| ==>
      (AddsPath(n, parseF64) && n.children[i].name == PathKey) ||
      ToSimpleJson(n, parseF64).fields[n.children[i].name] == ToSimpleJson(n.children[i], parseF64)
    ensures forall k :: k in OwnFields(n.kind, parseF64) && k !in ChildNameSet(n) ==>
      (AddsPath(n, parseF64) && k == PathKey) ||
      ToSimpleJson(n, parseF64).fields[k] == OwnFields(n.kind, parseF64)[k]
    ensures AddsPath(n, parseF64) ==> ToSimpleJson(n, parseF64).fields[PathKey] == Str(n.fullPath)
  {
    var merged := Merged(n, parseF64);
    MergedContents(n, parseF64);
    var adds := AddsPath(n, parseF64);
    assert adds <==> n.kind.Png? && OutlinkKey !in merged;
    var r := ToSimpleJson(n, parseF64);
    assert r == if adds then Obj(merged[PathKey := Str(n.fullPath)]) else Obj(merged);
  }

  /** A leaf projects to its coerced scalar, to its image or sound fields as
      serialised (no coercion), and to null for every other kind. */
  lemma ProjectLeaf(n: Node, parseF64: string -> Option<F64>)
    requires |n.children| == 0
    ensures n.kind.Value? ==> ToSimpleJson(n, parseF64) == Coerce(n.kind.value, parseF64)
    ensures n.kind.Png? ==> ToSimpleJson(n, parseF64) == n.kind.pngFields
    ensures n.kind.Sound? ==> ToSimpleJson(n, parseF64) == n.kind.soundFields
    ensures !(n.kind.Value? || n.kind.Png? || n.kind.Sound?) ==> ToSimpleJson(n, parseF64) == Null
  {
  }
}
