/**
 * The Redis token bucket (the Lua script and AllowRate in internal/redis/client.go).
 *
 * Time is a real number of seconds, read once per request and used both as ARGV[3] and as the clock of Redis.
 */
module TokenBucket {
  import opened Common

  /** A Redis string value holding a number, and the time at which it expires. */
  datatype Cell = Cell(value: real, expireAt: real)

  type Store = map<string, Cell>

  function Fetch(store: Store, key: string, now: real): Option<real> {
    if key in store && now <= store[key].expireAt then Some(store[key].value) else None
  }

  function TsKey(key: string): string {
    key + ":ts"
  }

  function MinReal(a: real, b: real): real {
    if a <= b then a else b
  }

  function MaxReal(a: real, b: real): real {
    if a >= b then a else b
  }

  /** `math.floor(burst / rate * 2)`; a zero rate divides to infinity, which `EX` refuses like a value below 1. */
  function Ttl(rate: real, burst: int): int {
    if rate == 0.0 then 0 else (burst as real / rate * 2.0).Floor
  }

  /** The tokens the script finds after refilling. */
  function Refill(tokens: Option<real>, refreshed: Option<real>, rate: real, burst: int, now: real): real {
    var last := if tokens.Some? then tokens.value else burst as real;
    var since := if refreshed.Some? then refreshed.value else now;
    MinReal(burst as real, last + MaxReal(0.0, now - since) * rate)
  }

  /** What one evaluation of the script does; `SET .. EX ttl` is an error for a ttl below 1 and then nothing is written. */
  datatype Outcome = ScriptError | Done(allowed: bool, store: Store)

  function Eval(store: Store, key: string, rate: real, burst: int, now: real, requested: real): Outcome {
    var ttl := Ttl(rate, burst);
    var filled := Refill(Fetch(store, key, now), Fetch(store, TsKey(key), now), rate, burst, now);
    var allowed := filled >= requested;
    if ttl < 1 then ScriptError
    else
      Done(allowed, store[key := Cell(if allowed then filled - requested else filled, now + ttl as real)]
                         [TsKey(key) := Cell(now, now + ttl as real)])
  }

  /** The key space of Redis with the limiter's one operation on it. */
  class RateLimiter {
    var store: Store

    constructor ()
      ensures store == map[]
    {
      store := map[];
    }

    /** Fails open: a script error admits the request. */
    method AllowRate(key: string, rps: real, burst: int, now: real) returns (allowed: bool)
      modifies this
      ensures match Eval(old(store), key, rps, burst, now, 1.0)
              case ScriptError => allowed && store == old(store)
              case Done(a, s) => allowed == a && store == s
    {
      var ttl := if rps == 0.0 then 0 else (burst as real / rps * 2.0).Floor;

      var lastTokens := burst as real;
      if key in store && now <= store[key].expireAt {
        lastTokens := store[key].value;
      }
      var lastRefreshed := now;
      if TsKey(key) in store && now <= store[TsKey(key)].expireAt {
        lastRefreshed := store[TsKey(key)].value;
      }
      var delta := MaxReal(0.0, now - lastRefreshed);
      var filled := MinReal(burst as real, lastTokens + delta * rps);
      allowed := filled >= 1.0;
      if ttl < 1 {
        return true;
      }
      if allowed {
        store := store[key := Cell(filled - 1.0, now + ttl as real)];
      } else {
        store := store[key := Cell(filled, now + ttl as real)];
      }
      store := store[TsKey(key) := Cell(now, now + ttl as real)];
    }
  }

  // ---------------------------------------------------------------- one bucket over a trace of request times

  /** One key's bucket that never expires: its tokens and the time they were computed for. */
  datatype Bucket = Bucket(tokens: real, at: real)

  ghost predicate Nondecreasing(times: seq<real>) {
    forall i, j :: 0 <= i < j < |times| ==> times[i] <= times[j]
  }

  /** Tokens earned since `at`. */
  function Gain(rate: real, at: real, now: real): real {
    MaxReal(0.0, now - at) * rate
  }

  lemma GainNonNegative(rate: real, at: real, now: real)
    requires rate > 0.0
    ensures Gain(rate, at, now) >= 0.0
  {
    MulNonNegative(MaxReal(0.0, now - at), rate);
  }

  /** The level at time `now`, before the request is decided. */
  function Level(b: Bucket, rate: real, burst: int, now: real): real {
    MinReal(burst as real, b.tokens + Gain(rate, b.at, now))
  }

  /** The bucket before the `n`-th request of the trace, when `decisions` say which requests took a token. */
  function Drain(rate: real, burst: int, times: seq<real>, decisions: seq<bool>, n: nat): Bucket
    requires n <= |times| && n <= |decisions|
  {
    if n == 0 then Bucket(burst as real, 0.0)
    else
      var b := Drain(rate, burst, times, decisions, n - 1);
      var level := Level(b, rate, burst, times[n - 1]);
      Bucket(if decisions[n - 1] then level - 1.0 else level, times[n - 1])
  }

  function Admitted(decisions: seq<bool>, lo: nat, hi: nat): nat
    requires lo <= hi <= |decisions|
  {
    if lo == hi then 0 else Admitted(decisions, lo, hi - 1) + if decisions[hi - 1] then 1 else 0
  }

  /** The script's decisions: admit whenever a whole token is there. */
  ghost predicate Greedy(rate: real, burst: int, times: seq<real>, decisions: seq<bool>) {
    && |decisions| == |times|
    && forall i :: 0 <= i < |times| ==>
         decisions[i] == (Level(Drain(rate, burst, times, decisions, i), rate, burst, times[i]) >= 1.0)
  }

  /** A policy whose bucket of the same rate and burst never goes negative. */
  ghost predicate NeverNegative(rate: real, burst: int, times: seq<real>, decisions: seq<bool>) {
    && |decisions| == |times|
    && forall i :: 0 <= i < |times| && decisions[i] ==>
         Level(Drain(rate, burst, times, decisions, i), rate, burst, times[i]) >= 1.0
  }

  lemma MulNonNegative(a: real, b: real)
    requires a >= 0.0 && b >= 0.0
    ensures a * b >= 0.0
  {
  }

  /** Stored tokens never leave [0, burst]. */
  lemma {:induction false} TokensInRange(rate: real, burst: int, times: seq<real>, decisions: seq<bool>, n: nat)
    requires rate > 0.0 && burst >= 0 && NeverNegative(rate, burst, times, decisions) && n <= |times|
    ensures 0.0 <= Drain(rate, burst, times, decisions, n).tokens <= burst as real
  {
    if n > 0 {
      TokensInRange(rate, burst, times, decisions, n - 1);
      var b := Drain(rate, burst, times, decisions, n - 1);
      GainNonNegative(rate, b.at, times[n - 1]);
    }
  }

  lemma {:induction false} DrainTime(rate: real, burst: int, times: seq<real>, decisions: seq<bool>, n: nat)
    requires n <= |times| && n <= |decisions|
    ensures Drain(rate, burst, times, decisions, n).at == if n > 0 then times[n - 1] else 0.0
  {
  }

  /** One request: `s` and `o` are the two levels before refilling, `lead` how many more the script has admitted. */
  lemma OptimalStep(burst: real, s: real, o: real, gain: real, lead: int, otherAdmits: bool)
    requires gain >= 0.0 && lead >= 0 && o - s <= lead as real
    requires otherAdmits ==> MinReal(burst, o + gain) >= 1.0
    ensures var ls, lo := MinReal(burst, s + gain), MinReal(burst, o + gain);
            var lead' := lead + (if ls >= 1.0 then 1 else 0) - if otherAdmits then 1 else 0;
            && lead' >= 0
            && (if otherAdmits then lo - 1.0 else lo) - (if ls >= 1.0 then ls - 1.0 else ls) <= lead' as real
  {
  }

  function Bit(b: bool): nat {
    if b then 1 else 0
  }

  lemma DrainStep(rate: real, burst: int, times: seq<real>, decisions: seq<bool>, n: nat)
    requires 0 < n <= |times| && n <= |decisions|
    ensures Drain(rate, burst, times, decisions, n)
            == Served(Drain(rate, burst, times, decisions, n - 1), rate, burst, times[n - 1], decisions[n - 1])
  {
    hide Level;
  }

  lemma AdmittedStep(decisions: seq<bool>, n: nat)
    requires 0 < n <= |decisions|
    ensures Admitted(decisions, 0, n) == Admitted(decisions, 0, n - 1) + Bit(decisions[n - 1])
  {
  }

  /** How far the script's bucket is ahead in admissions, and how little behind in tokens. */
  predicate Ahead(s: Bucket, o: Bucket, lead: int) {
    lead >= 0 && o.tokens - s.tokens <= lead as real
  }

  /** The bucket after a request at `now`. */
  function Served(b: Bucket, rate: real, burst: int, now: real, admits: bool): Bucket {
    var level := Level(b, rate, burst, now);
    Bucket(if admits then level - 1.0 else level, now)
  }

  /** One request at both buckets, last refilled at the same time. */
  lemma BucketStep(rate: real, burst: int, s: Bucket, o: Bucket, now: real, lead: int, a: bool, b: bool)
    requires rate > 0.0 && s.at == o.at && Ahead(s, o, lead)
    requires a == (Level(s, rate, burst, now) >= 1.0) && (b ==> Level(o, rate, burst, now) >= 1.0)
    ensures Ahead(Served(s, rate, burst, now, a), Served(o, rate, burst, now, b), lead + Bit(a) - Bit(b))
  {
    GainNonNegative(rate, s.at, now);
    OptimalStep(burst as real, s.tokens, o.tokens, Gain(rate, s.at, now), lead, b);
    hide Gain, MinReal;
  }

  lemma DecisionAt(rate: real, burst: int, times: seq<real>, decisions: seq<bool>, n: nat)
    requires n < |times| && |decisions| == |times|
    ensures var level := Level(Drain(rate, burst, times, decisions, n), rate, burst, times[n]);
            && (NeverNegative(rate, burst, times, decisions) ==> decisions[n] ==> level >= 1.0)
            && (Greedy(rate, burst, times, decisions) ==> decisions[n] == (level >= 1.0))
  {
    hide Drain, Level;
  }

  ghost predicate ScriptAhead(rate: real, burst: int, times: seq<real>, script: seq<bool>, other: seq<bool>, n: nat)
    requires n <= |times| == |script| == |other|
  {
    Ahead(Drain(rate, burst, times, script, n), Drain(rate, burst, times, other, n),
          Admitted(script, 0, n) - Admitted(other, 0, n))
  }

  lemma AheadStep(rate: real, burst: int, times: seq<real>, script: seq<bool>, other: seq<bool>, n: nat)
    requires rate > 0.0 && 0 < n <= |times| == |script| == |other|
    requires Greedy(rate, burst, times, script) && NeverNegative(rate, burst, times, other)
    requires ScriptAhead(rate, burst, times, script, other, n - 1)
    ensures ScriptAhead(rate, burst, times, script, other, n)
  {
    hide Level, Served, Ahead, Bit, Drain, Admitted, Greedy, NeverNegative;
    DrainTime(rate, burst, times, script, n - 1);
    DrainTime(rate, burst, times, other, n - 1);
    DecisionAt(rate, burst, times, script, n - 1);
    DecisionAt(rate, burst, times, other, n - 1);
    var s, o := Drain(rate, burst, times, script, n - 1), Drain(rate, burst, times, other, n - 1);
    BucketStep(rate, burst, s, o, times[n - 1], Admitted(script, 0, n - 1) - Admitted(other, 0, n - 1), script[n - 1], other[n - 1]);
    DrainStep(rate, burst, times, script, n);
    DrainStep(rate, burst, times, other, n);
    AdmittedStep(script, n);
    AdmittedStep(other, n);
  }

  lemma {:induction false} StaysAhead(rate: real, burst: int, times: seq<real>, script: seq<bool>, other: seq<bool>, n: nat)
    requires rate > 0.0 && n <= |times| == |script| == |other|
    requires Greedy(rate, burst, times, script) && NeverNegative(rate, burst, times, other)
    ensures ScriptAhead(rate, burst, times, script, other, n)
  {
    if n > 0 {
      hide ScriptAhead, Greedy, NeverNegative;
      StaysAhead(rate, burst, times, script, other, n - 1);
      AheadStep(rate, burst, times, script, other, n);
    }
  }

  /**
   * The script is optimal: after every prefix of every trace it has admitted at least as many requests as any
   * other policy that keeps its own bucket from going negative.
   */
  lemma GreedyIsOptimal(rate: real, burst: int, times: seq<real>, script: seq<bool>, other: seq<bool>, n: nat)
    requires rate > 0.0 && n <= |times|
    requires Greedy(rate, burst, times, script) && NeverNegative(rate, burst, times, other)
    ensures Admitted(script, 0, n) >= Admitted(other, 0, n)
    ensures Drain(rate, burst, times, other, n).tokens - Drain(rate, burst, times, script, n).tokens
            <= (Admitted(script, 0, n) - Admitted(other, 0, n)) as real
  {
    SameLength(rate, burst, times, script, other);
    hide Drain, Admitted, Greedy, NeverNegative;
    StaysAhead(rate, burst, times, script, other, n);
  }

  lemma SameLength(rate: real, burst: int, times: seq<real>, script: seq<bool>, other: seq<bool>)
    requires Greedy(rate, burst, times, script) && NeverNegative(rate, burst, times, other)
    ensures |script| == |times| == |other|
  {
    hide Level, Drain;
  }

  /** Tokens a rate yields from `t0` to `t1`. */
  function Earned(rate: real, t0: real, t1: real): real {
    rate * (t1 - t0)
  }

  lemma EarnedStep(rate: real, t0: real, t1: real, t2: real)
    ensures Earned(rate, t0, t0) == 0.0
    ensures t1 <= t2 ==> Earned(rate, t0, t2) == Earned(rate, t0, t1) + Gain(rate, t1, t2)
  {
    assert rate * (t2 - t0) == rate * (t1 - t0) + rate * (t2 - t1);
  }

  /** Over the requests from `i` up to `j`, at most burst + rate * elapsed are admitted. */
  lemma {:induction false} Envelope(rate: real, burst: int, times: seq<real>, decisions: seq<bool>, i: nat, j: nat)
    requires rate > 0.0 && burst >= 0 && i < j <= |times| && Nondecreasing(times)
    requires NeverNegative(rate, burst, times, decisions)
    ensures Admitted(decisions, i, j) as real + Drain(rate, burst, times, decisions, j).tokens
            <= burst as real + Earned(rate, times[i], times[j - 1])
    ensures Admitted(decisions, i, j) as real <= burst as real + Earned(rate, times[i], times[j - 1])
  {
    hide Gain, Earned;
    TokensInRange(rate, burst, times, decisions, j);
    DrainTime(rate, burst, times, decisions, j - 1);
    if j == i + 1 {
      assert Admitted(decisions, i, i) == 0;
      EarnedStep(rate, times[i], times[i], times[i]);
    } else {
      Envelope(rate, burst, times, decisions, i, j - 1);
      EarnedStep(rate, times[i], times[j - 2], times[j - 1]);
    }
  }

  // ---------------------------------------------------------------- expiry

  datatype Request = Request(key: string, rate: real, burst: int, at: real)

  /** The store after the whole trace, for any mix of keys. */
  function StoreAfter(reqs: seq<Request>): Store {
    if reqs == [] then map[]
    else
      var before, r := StoreAfter(reqs[..|reqs| - 1]), reqs[|reqs| - 1];
      match Eval(before, r.key, r.rate, r.burst, r.at, 1.0)
      case ScriptError => before
      case Done(_, store) => store
  }

  /** What AllowRate answers to `r` after the trace `before`. */
  function Answer(before: seq<Request>, r: Request): bool {
    match Eval(StoreAfter(before), r.key, r.rate, r.burst, r.at, 1.0)
    case ScriptError => true
    case Done(allowed, _) => allowed
  }

  /** The times at which `key` was asked for, and what was answered. */
  function TimesOf(reqs: seq<Request>, key: string): seq<real> {
    if reqs == [] then []
    else
      var front, r := reqs[..|reqs| - 1], reqs[|reqs| - 1];
      if r.key == key then TimesOf(front, key) + [r.at] else TimesOf(front, key)
  }

  function AnswersOf(reqs: seq<Request>, key: string): (a: seq<bool>)
    ensures |a| == |TimesOf(reqs, key)|
  {
    if reqs == [] then []
    else
      var front, r := reqs[..|reqs| - 1], reqs[|reqs| - 1];
      if r.key == key then AnswersOf(front, key) + [Answer(front, r)] else AnswersOf(front, key)
  }

  ghost predicate ClockNondecreasing(reqs: seq<Request>) {
    forall i, j :: 0 <= i < j < |reqs| ==> reqs[i].at <= reqs[j].at
  }

  /** `other` writes neither of the two cells of `key`: "a" and "a:ts" are the pair of names that does clash. */
  predicate Independent(key: string, other: string) {
    other != key && other != TsKey(key) && TsKey(other) != key
  }

  ghost predicate OneLimit(reqs: seq<Request>, key: string, rate: real, burst: int) {
    forall r :: r in reqs ==> if r.key == key then r.rate == rate && r.burst == burst else Independent(key, r.key)
  }

  /** The two cells of `key` hold the bucket, whether or not they have expired. */
  ghost predicate Holds(store: Store, key: string, rate: real, burst: int, b: Bucket) {
    var end := b.at + Ttl(rate, burst) as real;
    key in store && TsKey(key) in store && store[key] == Cell(b.tokens, end) && store[TsKey(key)] == Cell(b.at, end)
  }

  lemma FloorAtLeast(x: real, n: int)
    ensures x.Floor >= n <==> x >= n as real
  {
  }

  lemma DivTimes(a: real, r: real)
    requires r > 0.0
    ensures a / r * r == a
  {
  }

  lemma MulMonotone(a: real, b: real, c: real)
    requires a >= b && c > 0.0
    ensures a * c >= b * c
  {
  }

  /** A ttl of at least one second exists exactly when the bucket fills in at least half a second. */
  lemma TtlPositiveIff(rate: real, burst: int)
    requires rate > 0.0
    ensures Ttl(rate, burst) >= 1 <==> 2.0 * burst as real >= rate
  {
    var q := burst as real / rate;
    DivTimes(burst as real, rate);
    FloorAtLeast(q * 2.0, 1);
    if q * 2.0 >= 1.0 {
      MulMonotone(q * 2.0, 1.0, rate);
    } else {
      MulMonotone(1.0, q * 2.0, rate);
      if q * 2.0 * rate == rate { NonzeroCancel(q * 2.0, rate); }
    }
  }

  lemma NonzeroCancel(x: real, r: real)
    requires r > 0.0 && x * r == r
    ensures x == 1.0
  {
    assert (x - 1.0) * r == 0.0;
  }

  /** By the time the cells expire the bucket is full again. */
  lemma FullAtExpiry(rate: real, burst: int, elapsed: real)
    requires rate > 0.0 && 2.0 * burst as real >= rate && elapsed >= Ttl(rate, burst) as real
    ensures elapsed * rate >= burst as real
  {
    var q := burst as real / rate;
    DivTimes(burst as real, rate);
    TtlPositiveIff(rate, burst);
    FloorAtLeast(q * 2.0, 1);
    assert (q * 2.0).Floor as real > q * 2.0 - 1.0;
    assert Ttl(rate, burst) as real >= q;
    MulMonotone(elapsed, q, rate);
  }

  /** Expired or not, the script sees the same number of tokens. */
  lemma ExpiryUnseen(store: Store, key: string, rate: real, burst: int, b: Bucket, now: real)
    requires rate > 0.0 && 2.0 * burst as real >= rate && Holds(store, key, rate, burst, b)
    requires b.tokens >= 0.0 && b.at <= now
    ensures Refill(Fetch(store, key, now), Fetch(store, TsKey(key), now), rate, burst, now) == Level(b, rate, burst, now)
  {
    if now > b.at + Ttl(rate, burst) as real {
      FullAtExpiry(rate, burst, now - b.at);
    }
  }

  lemma TsKeyDiffers(key: string, other: string)
    ensures TsKey(key) == key + ":ts" && TsKey(key) != key
    ensures TsKey(key) == TsKey(other) ==> key == other
  {
    assert TsKey(key)[..|key|] == key && TsKey(other)[..|other|] == other;
  }

  lemma {:induction false} DrainPrefix(rate: real, burst: int, times: seq<real>, ds: seq<bool>, t: real, d: bool, n: nat)
    requires n <= |times| == |ds|
    ensures Drain(rate, burst, times + [t], ds + [d], n) == Drain(rate, burst, times, ds, n)
  {
    if n > 0 {
      DrainPrefix(rate, burst, times, ds, t, d, n - 1);
    }
  }

  lemma GreedySnoc(rate: real, burst: int, times: seq<real>, ds: seq<bool>, t: real, d: bool)
    requires Greedy(rate, burst, times, ds)
    requires d == (Level(Drain(rate, burst, times, ds, |times|), rate, burst, t) >= 1.0)
    ensures Greedy(rate, burst, times + [t], ds + [d])
  {
    hide Level, Drain;
    forall i | 0 <= i <= |times|
      ensures (ds + [d])[i] == (Level(Drain(rate, burst, times + [t], ds + [d], i), rate, burst, (times + [t])[i]) >= 1.0)
    {
      DrainPrefix(rate, burst, times, ds, t, d, i);
    }
  }

  lemma {:induction false} TimesBounded(reqs: seq<Request>, key: string, bound: real)
    requires forall r :: r in reqs ==> r.at <= bound
    ensures forall t :: t in TimesOf(reqs, key) ==> t <= bound
  {
    if reqs != [] {
      TimesBounded(reqs[..|reqs| - 1], key, bound);
    }
  }

  /** What the store knows about `key` after a trace. */
  ghost predicate Tracks(reqs: seq<Request>, key: string, rate: real, burst: int) {
    var times, answers := TimesOf(reqs, key), AnswersOf(reqs, key);
    && Greedy(rate, burst, times, answers)
    && if times == [] then key !in StoreAfter(reqs) && TsKey(key) !in StoreAfter(reqs)
       else Holds(StoreAfter(reqs), key, rate, burst, Drain(rate, burst, times, answers, |times|))
  }

  /** One evaluation for `key` takes its bucket one request further. */
  lemma EvalStepsBucket(front: seq<Request>, r: Request, b: Bucket)
    requires r.rate > 0.0 && 2.0 * r.burst as real >= r.rate && b.tokens >= 0.0
    requires if r.key !in StoreAfter(front) && TsKey(r.key) !in StoreAfter(front) then b == Bucket(r.burst as real, 0.0)
             else b.at <= r.at && Holds(StoreAfter(front), r.key, r.rate, r.burst, b)
    ensures var level := Level(b, r.rate, r.burst, r.at);
            && Answer(front, r) == (level >= 1.0)
            && Holds(StoreAfter(front + [r]), r.key, r.rate, r.burst, Bucket(if level >= 1.0 then level - 1.0 else level, r.at))
  {
    assert (front + [r])[..|front|] == front;
    TtlPositiveIff(r.rate, r.burst);
    TsKeyDiffers(r.key, r.key);
    if r.key !in StoreAfter(front) && TsKey(r.key) !in StoreAfter(front) {
      GainNonNegative(r.rate, 0.0, r.at);
    } else {
      ExpiryUnseen(StoreAfter(front), r.key, r.rate, r.burst, b, r.at);
    }
  }

  lemma TimesSnoc(front: seq<Request>, r: Request)
    ensures TimesOf(front + [r], r.key) == TimesOf(front, r.key) + [r.at]
    ensures AnswersOf(front + [r], r.key) == AnswersOf(front, r.key) + [Answer(front, r)]
  {
    assert (front + [r])[..|front|] == front;
  }

  lemma DrainSnoc(rate: real, burst: int, times: seq<real>, ds: seq<bool>, t: real, d: bool)
    requires |times| == |ds|
    ensures var level := Level(Drain(rate, burst, times, ds, |times|), rate, burst, t);
            Drain(rate, burst, times + [t], ds + [d], |times| + 1) == Bucket(if d then level - 1.0 else level, t)
  {
    hide Level;
    DrainPrefix(rate, burst, times, ds, t, d, |times|);
  }

  /** One request for `key` itself. */
  lemma OwnRequestTracked(front: seq<Request>, r: Request)
    requires r.rate > 0.0 && 2.0 * r.burst as real >= r.rate
    requires Tracks(front, r.key, r.rate, r.burst)
    requires forall t :: t in TimesOf(front, r.key) ==> t <= r.at
    ensures Tracks(front + [r], r.key, r.rate, r.burst)
  {
    hide Level, Eval, StoreAfter, Answer, TimesOf, AnswersOf;
    var times, answers := TimesOf(front, r.key), AnswersOf(front, r.key);
    var b := Drain(r.rate, r.burst, times, answers, |times|);
    TokensInRange(r.rate, r.burst, times, answers, |times|);
    DrainTime(r.rate, r.burst, times, answers, |times|);
    assert times != [] ==> times[|times| - 1] in times;
    EvalStepsBucket(front, r, b);
    TimesSnoc(front, r);
    GreedySnoc(r.rate, r.burst, times, answers, r.at, Answer(front, r));
    DrainSnoc(r.rate, r.burst, times, answers, r.at, Answer(front, r));
  }

  lemma OtherRequestTracked(front: seq<Request>, r: Request, key: string, rate: real, burst: int)
    requires Tracks(front, key, rate, burst) && Independent(key, r.key)
    ensures Tracks(front + [r], key, rate, burst)
  {
    assert (front + [r])[..|front|] == front;
    TsKeyDiffers(key, r.key);
  }

  lemma {:induction false} StoreTracksBucket(reqs: seq<Request>, key: string, rate: real, burst: int)
    requires rate > 0.0 && 2.0 * burst as real >= rate
    requires ClockNondecreasing(reqs) && OneLimit(reqs, key, rate, burst)
    ensures Tracks(reqs, key, rate, burst)
  {
    if reqs != [] {
      var front, r := reqs[..|reqs| - 1], reqs[|reqs| - 1];
      assert reqs == front + [r];
      StoreTracksBucket(front, key, rate, burst);
      if r.key == key {
        TimesBounded(front, key, r.at);
        OwnRequestTracked(front, r);
      } else {
        OtherRequestTracked(front, r, key, rate, burst);
      }
    }
  }

  /**
   * Eviction is unobservable: with cells that expire after floor(2 * burst / rate) seconds, and any traffic on
   * independent keys in between, every answer for `key` is the answer of a bucket that never expires.
   */
  lemma EvictionUnobservable(reqs: seq<Request>, key: string, rate: real, burst: int)
    requires rate > 0.0 && 2.0 * burst as real >= rate
    requires ClockNondecreasing(reqs) && OneLimit(reqs, key, rate, burst)
    ensures Greedy(rate, burst, TimesOf(reqs, key), AnswersOf(reqs, key))
  {
    StoreTracksBucket(reqs, key, rate, burst);
  }

  lemma {:induction false} TimesInOrder(reqs: seq<Request>, key: string)
    requires ClockNondecreasing(reqs)
    ensures Nondecreasing(TimesOf(reqs, key))
  {
    if reqs != [] {
      var front, r := reqs[..|reqs| - 1], reqs[|reqs| - 1];
      TimesInOrder(front, key);
      TimesBounded(front, key, r.at);
      var times := TimesOf(front, key);
      assert forall i :: 0 <= i < |times| ==> times[i] in times;
    }
  }

  /**
   * The envelope of a key in real traffic: whatever other keys are asked for in between, and whatever expires, of its
   * requests from number `i` up to `j` at most burst + rate * elapsed are admitted.
   */
  lemma KeyEnvelope(reqs: seq<Request>, key: string, rate: real, burst: int, i: nat, j: nat)
    requires rate > 0.0 && 2.0 * burst as real >= rate
    requires ClockNondecreasing(reqs) && OneLimit(reqs, key, rate, burst)
    requires i < j <= |TimesOf(reqs, key)|
    ensures Admitted(AnswersOf(reqs, key), i, j) as real
            <= burst as real + Earned(rate, TimesOf(reqs, key)[i], TimesOf(reqs, key)[j - 1])
  {
    EvictionUnobservable(reqs, key, rate, burst);
    TimesInOrder(reqs, key);
    hide AnswersOf, TimesOf, Drain, Level, Earned, Admitted;
    Envelope(rate, burst, TimesOf(reqs, key), AnswersOf(reqs, key), i, j);
  }

  /** One limiter key asked at the given times. */
  function Requests(key: string, rate: real, burst: int, times: seq<real>): seq<Request> {
    if times == [] then [] else Requests(key, rate, burst, times[..|times| - 1]) + [Request(key, rate, burst, times[|times| - 1])]
  }

  lemma {:induction false} RequestsShape(key: string, rate: real, burst: int, times: seq<real>)
    ensures var reqs := Requests(key, rate, burst, times);
            && |reqs| == |times|
            && (forall i :: 0 <= i < |times| ==> reqs[i] == Request(key, rate, burst, times[i]))
            && TimesOf(reqs, key) == times
  {
    if times != [] {
      var front := times[..|times| - 1];
      RequestsShape(key, rate, burst, front);
      var reqs := Requests(key, rate, burst, times);
      assert reqs[..|reqs| - 1] == Requests(key, rate, burst, front);
    }
  }

  /** Below half a second of fill time `EX 0` makes every evaluation fail, and every request is admitted. */
  lemma {:induction false} AllAdmittedBelow(key: string, rate: real, burst: int, times: seq<real>)
    requires rate > 0.0 && 2.0 * burst as real < rate
    ensures var answers := AnswersOf(Requests(key, rate, burst, times), key);
            |answers| == |times| && Admitted(answers, 0, |times|) == |times|
  {
    RequestsShape(key, rate, burst, times);
    if times != [] {
      var front := times[..|times| - 1];
      AllAdmittedBelow(key, rate, burst, front);
      TtlPositiveIff(rate, burst);
      var reqs := Requests(key, rate, burst, times);
      assert reqs[..|reqs| - 1] == Requests(key, rate, burst, front);
      AdmittedPrefix(AnswersOf(Requests(key, rate, burst, front), key), true, |front|);
    }
  }

  lemma {:induction false} AdmittedPrefix(ds: seq<bool>, d: bool, n: nat)
    requires n <= |ds|
    ensures Admitted(ds + [d], 0, n) == Admitted(ds, 0, n)
  {
    if n > 0 {
      AdmittedPrefix(ds, d, n - 1);
    }
  }

  /** The promise of the limiter for one key: never more than burst + rate * elapsed over a trace. */
  ghost predicate KeepsEnvelope(key: string, rate: real, burst: int, times: seq<real>)
    requires times != []
  {
    var answers := AnswersOf(Requests(key, rate, burst, times), key);
    |answers| == |times| &&
    Admitted(answers, 0, |times|) as real <= burst as real + Earned(rate, times[0], times[|times| - 1])
  }

  /** AllowRate limits a key at all if and only if its bucket fills in at least half a second. */
  lemma LimitEnforcedIff(key: string, rate: real, burst: int)
    requires rate > 0.0
    ensures (forall times :: times != [] && Nondecreasing(times) ==> KeepsEnvelope(key, rate, burst, times))
            <==> 2.0 * burst as real >= rate
  {
    if 2.0 * burst as real >= rate {
      forall times | times != [] && Nondecreasing(times) ensures KeepsEnvelope(key, rate, burst, times) {
        var reqs := Requests(key, rate, burst, times);
        RequestsShape(key, rate, burst, times);
        EvictionUnobservable(reqs, key, rate, burst);
        Envelope(rate, burst, times, AnswersOf(reqs, key), 0, |times|);
      }
    } else {
      var times := seq(Max(burst, 0) + 1, i => 0.0);
      assert Nondecreasing(times);
      AllAdmittedBelow(key, rate, burst, times);
      EarnedStep(rate, 0.0, 0.0, 0.0);
      assert !KeepsEnvelope(key, rate, burst, times);
    }
  }
}
