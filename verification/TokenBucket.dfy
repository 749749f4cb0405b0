/** The per-client token bucket, in memory and as the script that runs inside Redis. */
module TokenBucket {
  import opened Common

  /** Whole tokens of burst, tokens per second of refill; reals are exact. */
  datatype Config = Config(capacity: nat, rate: real)
  {
    /** What start-up validation lets through. */
    predicate Validated() { 0 < capacity && 0.0 < rate }
  }

  datatype Bucket = Bucket(tokens: real, lastRefill: Instant)

  datatype Answer = Granted(remaining: nat) | Denied(retryAfterSecs: nat)

  function Ceil(x: real): int { -((-x).Floor) }

  function MinReal(a: real, b: real): real { if a <= b then a else b }

  /** An unsigned conversion of a non-integer: negative values saturate at zero. */
  function ToNat(x: int): nat { if x < 0 then 0 else x }

  function NewBucket(cfg: Config, now: Instant): Bucket {
    Bucket(cfg.capacity as real, now)
  }

  /** Tokens after a lazy refill for `elapsed` seconds. */
  function Refilled(cfg: Config, b: Bucket, elapsed: real): real {
    MinReal(cfg.capacity as real, b.tokens + elapsed * cfg.rate)
  }

  /** Whole seconds until one token is there. Dividing by a zero rate gives infinity, which
      saturates at the largest machine word. */
  function Wait(cfg: Config, refilled: real): nat {
    if cfg.rate == 0.0 then U64_MODULUS - 1 else ToNat(Ceil((1.0 - refilled) / cfg.rate))
  }

  /** One call: `now` is the first clock reading and `readAt` the second, from which the
      elapsed time is taken. */
  datatype Call = Call(now: Instant, readAt: Instant)

  function Elapsed(b: Bucket, c: Call): real {
    if c.readAt < b.lastRefill then 0.0 else c.readAt - b.lastRefill
  }

  predicate Accepts(cfg: Config, b: Bucket, c: Call) {
    Refilled(cfg, b, Elapsed(b, c)) >= 1.0
  }

  function After(cfg: Config, b: Bucket, c: Call): Bucket {
    var refilled := Refilled(cfg, b, Elapsed(b, c));
    if refilled >= 1.0 then Bucket(refilled - 1.0, c.now) else b
  }

  function Reply(cfg: Config, b: Bucket, c: Call): Answer {
    var refilled := Refilled(cfg, b, Elapsed(b, c));
    if refilled >= 1.0 then Granted(refilled.Floor - 1) else Denied(Wait(cfg, refilled))
  }

  class LocalTokenBucket {
    var state: map<string, Bucket>

    constructor ()
      ensures state == map[]
    {
      state := map[];
    }

    /** Takes one token from the client's bucket, if it holds one after its refill. */
    method TryAcquire(client: string, cfg: Config, c: Call) returns (answer: Answer)
      modifies this
      ensures var b := if client in old(state) then old(state)[client] else NewBucket(cfg, c.now);
              answer == Reply(cfg, b, c) && state == old(state)[client := After(cfg, b, c)]
    {
      if client !in state {
        state := state[client := NewBucket(cfg, c.now)];
      }
      var bucket := state[client];
      var refilled := Refilled(cfg, bucket, Elapsed(bucket, c));
      if refilled >= 1.0 {
        bucket := Bucket(refilled - 1.0, c.now);
        state := state[client := bucket];
        answer := Granted(refilled.Floor - 1);
      } else {
        answer := Denied(Wait(cfg, refilled));
      }
    }
  }

  // ---- the script ---------------------------------------------------------------------

  /** A Redis hash: its two fields and the time at which the key expires. */
  datatype Entry = Entry(tokens: real, lastMs: int, expiresMs: int)

  const EXPIRY_MS: int := 3_600_000

  class RedisTokenBucket {
    var keys: map<string, Entry>

    constructor ()
      ensures keys == map[]
    {
      keys := map[];
    }

    /** The script, run atomically at `nowMs`, and the gateway's reading of its reply. Only a granted
        call writes. `infinity` is what Redis makes of the infinite wait at a zero rate. */
    method Eval(key: string, cfg: Config, nowMs: int, infinity: int) returns (answer: Answer)
      modifies this
      ensures answer == ScriptReply(cfg, Stored(old(keys), key), nowMs, infinity)
      ensures keys == match ScriptAfter(cfg, Stored(old(keys), key), nowMs)
                      case None => old(keys)
                      case Some(e) => old(keys)[key := e]
    {
      var live := key in keys && nowMs < keys[key].expiresMs;
      var tokens := if live then keys[key].tokens else cfg.capacity as real;
      var last := if live then keys[key].lastMs else nowMs;
      var refilled := RefilledSince(cfg, tokens, nowMs - last);
      assert refilled == ScriptRefilled(cfg, Stored(keys, key), nowMs);
      if refilled >= 1.0 {
        keys := keys[key := Entry(refilled - 1.0, nowMs, nowMs + EXPIRY_MS)];
        answer := Granted(ToNat((refilled - 1.0).Floor));
      } else {
        var wait := if cfg.rate == 0.0 then infinity else Ceil((1.0 - refilled) / cfg.rate);
        answer := Denied(AsUnsigned(wait));
      }
    }
  }

  /** The cast of the script's signed reply to an unsigned word. */
  function AsUnsigned(x: int): nat { if x < 0 then x % U64_MODULUS else x }

  function Stored(keys: map<string, Entry>, key: string): Option<Entry> {
    if key in keys then Some(keys[key]) else None
  }

  /** The fields the script reads: an expired or missing key reads as a full bucket, refilled now. */
  function Read(cfg: Config, e: Option<Entry>, nowMs: int): (real, int) {
    if e.Some? && nowMs < e.value.expiresMs then (e.value.tokens, e.value.lastMs)
    else (cfg.capacity as real, nowMs)
  }

  function ScriptRefilled(cfg: Config, e: Option<Entry>, nowMs: int): real {
    var (tokens, last) := Read(cfg, e, nowMs);
    RefilledSince(cfg, tokens, nowMs - last)
  }

  function RefilledSince(cfg: Config, tokens: real, elapsedMs: int): real {
    MinReal(cfg.capacity as real, tokens + elapsedMs as real / 1000.0 * cfg.rate)
  }

  /** A negative rate makes the script's wait negative, and the cast makes that a huge one, unless it
      rounds to zero. */
  function ScriptReply(cfg: Config, e: Option<Entry>, nowMs: int, infinity: int := 0): Answer {
    var refilled := ScriptRefilled(cfg, e, nowMs);
    if refilled >= 1.0 then Granted(ToNat((refilled - 1.0).Floor))
    else Denied(AsUnsigned(if cfg.rate == 0.0 then infinity else Ceil((1.0 - refilled) / cfg.rate)))
  }

  /** What the script writes, if it writes. */
  function ScriptAfter(cfg: Config, e: Option<Entry>, nowMs: int): Option<Entry> {
    var refilled := ScriptRefilled(cfg, e, nowMs);
    if refilled >= 1.0 then Some(Entry(refilled - 1.0, nowMs, nowMs + EXPIRY_MS)) else None
  }

  // ---- the middleware -------------------------------------------------------------------

  datatype Decision = Proceed | ProceedWithHeader(remaining: nat) | TooManyRequests(retryAfterSecs: nat)

  /** A wait of zero seconds is how the limiter reports that its backend is down. */
  function Decide(authenticated: bool, answer: Answer): Decision {
    if !authenticated then Proceed else
      match answer
      case Granted(remaining) => ProceedWithHeader(remaining)
      case Denied(wait) => if wait == 0 then Proceed else TooManyRequests(wait)
  }
}
