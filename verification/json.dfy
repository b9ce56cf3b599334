/**
  An already-parsed JSON value, as handed over by the `json` crate, with the accessors the
  engine uses. File reading and text parsing are not part of this model.
*/
module Json {
  import opened Basics

  datatype Json =
    | JNull
    | JBool(b: bool)
    | JNum(n: real)
    | JStr(s: string)
    | JArr(items: seq<Json>)
    | JObj(fields: seq<(string, Json)>)

  /** `entries()`: the key/value pairs of an object, nothing for any other value. */
  function Entries(j: Json): seq<(string, Json)> {
    if j.JObj? then j.fields else []
  }

  /** `members()`: the items of an array, nothing for any other value. */
  function Members(j: Json): seq<Json> {
    if j.JArr? then j.items else []
  }

  /** The value of the last entry named `key`, as a JSON object's entry loop leaves it. */
  function LastValue(es: seq<(string, Json)>, key: string): (r: Option<Json>)
    ensures r.Some? <==> exists i :: 0 <= i < |es| && es[i].0 == key
    ensures r.Some? ==> exists i :: 0 <= i < |es| && es[i] == (key, r.value)
                          && forall j :: i < j < |es| ==> es[j].0 != key
  {
    if es == [] then None
    else if es[|es| - 1].0 == key then Some(es[|es| - 1].1)
    else LastValue(es[..|es| - 1], key)
  }

  /** Reading one more entry: it wins if it carries the key. */
  lemma LastValueStep(es: seq<(string, Json)>, k: nat, key: string)
    requires k < |es|
    ensures LastValue(es[..k + 1], key) == if es[k].0 == key then Some(es[k].1) else LastValue(es[..k], key)
  {
    assert es[..k + 1][..k] == es[..k];
  }

  /** `as_str()` */
  function AsStr(j: Json): Option<string> {
    if j.JStr? then Some(j.s) else None
  }

  /** An integral number within [lo, hi], as `as_u8()` / `as_i32()` accept it. */
  function AsIntIn(j: Json, lo: int, hi: int): (r: Option<int>)
    ensures r.Some? ==> lo <= r.value <= hi && j == JNum(r.value as real)
  {
    if j.JNum? && j.n == j.n.Floor as real && lo <= j.n.Floor <= hi then Some(j.n.Floor) else None
  }

  function AsU8(j: Json): (r: Option<Byte>)
    ensures r.Some? <==> AsIntIn(j, 0, 255).Some?
  {
    match AsIntIn(j, 0, 255)
    case Some(v) => Some(v as Byte)
    case None => None
  }

  function AsI32(j: Json): Option<int> {
    AsIntIn(j, -0x8000_0000, 0x7fff_ffff)
  }

  /** `as_f32()`: any number (rounding to single precision is not modelled). */
  function AsF32(j: Json): Option<real> {
    if j.JNum? then Some(j.n) else None
  }
}
