/** Peeling typed response envelopes (`unwrap` in nmc_bmc_observer/src/lib.rs). */
module Envelope {
  import opened Sequences

  datatype Json = Object(fields: map<string, Json>) | Bool(b: bool) | Integer(n: int) | Other(text: string)

  const MAX_LAYERS: nat := 8

  function Get(v: Json, name: string): Option<Json> {
    if v.Object? && name in v.fields then Some(v.fields[name]) else None
  }

  /** An object outside any envelope, with no upstream failure. */
  predicate Plain(v: Json) {
    && v.Object? && "success" !in v.fields
    && ("upstream_status" in v.fields ==>
          v.fields["upstream_status"].Integer? && 200 <= v.fields["upstream_status"].n < 300)
  }

  predicate Succeeded(v: Json) {
    Get(v, "success") == Some(Bool(true)) && Get(v, "data").Some?
  }

  /** x lies under exactly n envelopes, all of which report success. */
  predicate Under(v: Json, n: nat, x: Json) {
    if n == 0 then v == x else Succeeded(v) && Under(Get(v, "data").value, n - 1, x)
  }

  method Unwrap(input: Json) returns (r: Option<Json>)
    ensures r.Some? ==> Plain(r.value) && exists n: nat :: n < 8 && Under(input, n, r.value)
    ensures r.None? ==> forall n: nat, x: Json :: n < 8 && Under(input, n, x) ==> !Plain(x)
  {
    var v := input;
    for i := 0 to MAX_LAYERS
      invariant Under(input, i, v)
      invariant forall n: nat, x: Json :: n < i && Under(input, n, x) ==> !Plain(x)
    {
      var success := Get(v, "success");
      if success.Some? {
        if success != Some(Bool(true)) || Get(v, "data").None? {
          NothingElseUnder(input, i, v);
          return None;
        }
        forall n: nat, x: Json | n < i + 1 && Under(input, n, x) ensures !Plain(x) {
          if n == i { UnderIsUnique(input, i, v, x); }
        }
        UnderOneMore(input, i, v);
        v := Get(v, "data").value;
      } else {
        if !v.Object? { NothingElseUnder(input, i, v); return None; }
        var status := Get(v, "upstream_status");
        if status.Some? && !(status.value.Integer? && 200 <= status.value.n < 300) {
          NothingElseUnder(input, i, v);
          return None;
        }
        return Some(v);
      }
    }
    return None;
  }

  lemma {:induction false} UnderIsUnique(v: Json, n: nat, x: Json, y: Json)
    requires Under(v, n, x) && Under(v, n, y)
    ensures x == y
  {
    if n > 0 { UnderIsUnique(Get(v, "data").value, n - 1, x, y); }
  }

  lemma {:induction false} UnderOneMore(v: Json, n: nat, x: Json)
    requires Under(v, n, x) && Succeeded(x)
    ensures Under(v, n + 1, Get(x, "data").value)
  {
    if n > 0 { UnderOneMore(Get(v, "data").value, n - 1, x); }
  }

  lemma {:induction false} UnderStops(v: Json, i: nat, x: Json, n: nat, y: Json)
    requires Under(v, i, x) && !Succeeded(x) && i < n
    ensures !Under(v, n, y)
  {
    if i > 0 && Succeeded(v) { UnderStops(Get(v, "data").value, i - 1, x, n - 1, y); }
  }

  lemma NothingElseUnder(input: Json, i: nat, v: Json)
    requires Under(input, i, v) && !Succeeded(v) && !Plain(v)
    requires forall n: nat, x: Json :: n < i && Under(input, n, x) ==> !Plain(x)
    ensures forall n: nat, x: Json :: Under(input, n, x) ==> !Plain(x)
  {
    forall n: nat, x: Json | Under(input, n, x) ensures !Plain(x) {
      if n == i { UnderIsUnique(input, i, v, x); }
      if n > i { UnderStops(input, i, v, n, x); }
    }
  }
}
