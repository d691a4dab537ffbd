/** JSON values as serde_json builds them, and the operations on them the
    projections use. Objects are maps from key to value: the projections only
    insert and look up keys, so the order of keys plays no part. */
module JsonValue {
  import opened Wrappers

  /** A 64-bit float as `str::parse::<f64>` can return it. Rounding is not
      modelled: a finite float stands for a real number. */
  datatype F64 = Finite(value: real) | PosInfinity | NegInfinity | NaN

  /** A JSON number: serde_json keeps integers and floats apart. */
  datatype Number = IntNumber(i: int) | FloatNumber(f: real)

  datatype Json =
    | Null
    | Bool(b: bool)
    | Num(n: Number)
    | Str(s: string)
    | Arr(items: seq<Json>)
    | Obj(fields: map<string, Json>)

  /** `Number::from_f64`: JSON has no NaN and no infinities (section 6 of
      RFC 8259), so only a finite float becomes a number. */
  function NumberFromF64(x: F64): (r: Option<Number>)
    ensures r.Some? <==> x.Finite?
    ensures r.Some? ==> r.value == FloatNumber(x.value)
  {
    match x
    case Finite(v) => Some(FloatNumber(v))
    case _ => None
  }

  /** The keys of a sequence of entries. */
  function EntryKeys(entries: seq<(string, Json)>): set<string> {
    set i | 0 <= i < |entries| :: entries[i].0
  }

  /** Entry `i` is the last one with its key. */
  predicate LastWithKey(entries: seq<(string, Json)>, i: int)
    requires 0 <= i < |entries|
  {
    forall j :: i < j < |entries| ==> entries[j].0 != entries[i].0
  }

  /** `Map::insert` of each entry in order: a later entry with the same key
      replaces an earlier one, and an entry replaces what the map held. */
  function InsertAll(m: map<string, Json>, entries: seq<(string, Json)>): (r: map<string, Json>)
    ensures r.Keys == m.Keys + EntryKeys(entries)
    ensures forall i :: 0 <= i < |entries| && LastWithKey(entries, i) ==> r[entries[i].0] == entries[i].1
    ensures forall k :: k in m && k !in EntryKeys(entries) ==> r[k] == m[k]
  {
    if |entries| == 0 then m
    else
      var init := entries[..|entries| - 1];
      var last := entries[|entries| - 1];
      EntryKeysSnoc(entries);
      LastWithKeySnoc(entries);
      InsertAll(m, init)[last.0 := last.1]
  }

  lemma EntryKeysSnoc(entries: seq<(string, Json)>)
    requires |entries| > 0
    ensures EntryKeys(entries) == EntryKeys(entries[..|entries| - 1]) + {entries[|entries| - 1].0}
  {
    var init := entries[..|entries| - 1];
    assert forall i :: 0 <= i < |init| ==> init[i] == entries[i];
  }

  /** An entry last with its key stays last in the shorter sequence, and its
      key differs from the final entry's. */
  lemma LastWithKeySnoc(entries: seq<(string, Json)>)
    requires |entries| > 0
    ensures forall i :: 0 <= i < |entries| - 1 && LastWithKey(entries, i) ==>
      && LastWithKey(entries[..|entries| - 1], i)
      && entries[..|entries| - 1][i] == entries[i]
      && entries[i].0 != entries[|entries| - 1].0
  {
  }
}
