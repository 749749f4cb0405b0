/** Vocabulary shared by the modules of the gateway model. */
module Common {

  datatype Option<+T> = None | Some(value: T)

  datatype Result<+T, +E> = Ok(value: T) | Err(error: E)

  const U64_MODULUS: int := 0x1_0000_0000_0000_0000

  /** A machine word that wraps around, as `AtomicU64` does. */
  type u64 = x: int | 0 <= x < U64_MODULUS

  type u32 = x: int | 0 <= x < 0x1_0000_0000

  /** A clock reading in seconds. */
  type Instant = real

  function Min(a: int, b: int): int { if a <= b then a else b }

  function Max(a: int, b: int): int { if a >= b then a else b }

  predicate Distinct<T(==)>(xs: seq<T>) {
    forall i, j :: 0 <= i < j < |xs| ==> xs[i] != xs[j]
  }

  /** The numbers below `n` that satisfy `keep`, in order. */
  function Where(n: nat, keep: nat -> bool): seq<nat> {
    if n == 0 then [] else Where(n - 1, keep) + if keep(n - 1) then [n - 1] else []
  }

  predicate Increasing(idx: seq<nat>) {
    forall i, j :: 0 <= i < j < |idx| ==> idx[i] < idx[j]
  }

  predicate Below(idx: seq<nat>, n: nat) {
    forall i :: 0 <= i < |idx| ==> idx[i] < n
  }

  lemma {:induction false} WhereSelects(n: nat, keep: nat -> bool)
    ensures Increasing(Where(n, keep)) && Below(Where(n, keep), n)
    ensures forall i: nat :: i in Where(n, keep) <==> i < n && keep(i)
  {
    if n == 0 {
    } else {
      WhereSelects(n - 1, keep);
    }
  }

  lemma MulMono(a: real, b: real, r: real)
    requires a <= b && 0.0 <= r
    ensures a * r <= b * r
  {
  }

  lemma ScaleIff(a: real, b: real, r: real)
    requires 0.0 < r
    ensures a * r >= b * r <==> a >= b
  {
    if a >= b { MulMono(b, a, r); } else { assert (b - a) * r > 0.0; }
  }

  function Pow(b: nat, e: nat): nat {
    if e == 0 then 1 else b * Pow(b, e - 1)
  }
}

module GatewayErrors {

  /** The gateway's error kinds; message texts are not modelled. */
  datatype GatewayError =
    | BadRequest
    | Unauthorized
    | RateLimited(retryAfterSecs: nat)
    | ServiceUnavailable
    | Internal
    | ProviderError
}
