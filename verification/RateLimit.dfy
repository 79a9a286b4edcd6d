/** The sliding-window rate limiter: the in-memory form, the Redis script, and the policy both implement. */
module RateLimit {
  import opened Content

  /** Times are counted in ticks of one nondecreasing clock. */
  type Tick = nat

  type positive = x: int | 0 < x witness 1

  /** The configured maximum and window, and the resolution of the clock. */
  datatype Limits = Limits(max: nat, window: nat, perSecond: positive) {
    /** What `RateLimiter::from_options` guarantees: at least one request, and a window of at least one second. */
    ghost predicate Valid() {
      1 <= max && perSecond <= window
    }

    /** `as_secs().max(1)`. */
    function Seconds(ticks: nat): nat {
      Max(Floor(ticks, perSecond), 1)
    }
  }

  datatype Decision = Decision(allowed: bool, remaining: nat, resetSeconds: nat, retryAfter: Option<nat>)

  datatype Request = Request(key: string, at: Tick)

  function Max(a: nat, b: nat): nat {
    if a < b then b else a
  }

  /** How many whole units fit; see `FloorDivides`. */
  function Floor(a: nat, unit: positive): nat {
    if a < unit then 0 else 1 + Floor(a - unit, unit)
  }

  /** How many units cover it; see `CeilCovers`. */
  function Ceil(a: nat, unit: positive): nat {
    if a == 0 then 0 else if a <= unit then 1 else 1 + Ceil(a - unit, unit)
  }

  /** So many whole units. */
  function Units(n: nat, unit: positive): nat {
    if n == 0 then 0 else unit + Units(n - 1, unit)
  }

  lemma {:induction false} UnitsMultiply(n: nat, unit: positive)
    ensures Units(n, unit) == n * unit
  {
    if n != 0 {
      UnitsMultiply(n - 1, unit);
    }
  }

  lemma {:induction false} UnitsGrow(m: nat, n: nat, unit: positive)
    requires m <= n
    ensures Units(m, unit) <= Units(n, unit)
  {
    if m < n {
      UnitsGrow(m, n - 1, unit);
    }
  }

  lemma {:induction false} FloorDivides(a: nat, unit: positive)
    ensures Units(Floor(a, unit), unit) <= a < Units(Floor(a, unit), unit) + unit
  {
    if unit <= a {
      FloorDivides(a - unit, unit);
    }
  }

  /** The remainder is what the whole units leave over. */
  lemma {:induction false} FloorLeaves(a: nat, unit: positive)
    ensures a - Units(Floor(a, unit), unit) == a % unit
  {
    if unit <= a {
      FloorLeaves(a - unit, unit);
      RemainderDrops(a, unit);
    }
  }

  lemma RemainderDrops(a: nat, unit: positive)
    requires unit <= a
    ensures a % unit == (a - unit) % unit
  {
    var b := a - unit;
    var q, m := b / unit, b % unit;
    assert a == (q + 1) * unit + m;
    QuotientIsUnique(a, unit, q + 1, m);
  }

  lemma QuotientIsUnique(a: nat, unit: positive, q: nat, m: nat)
    requires a == q * unit + m && m < unit
    ensures m == a % unit
  {
    var d, e := a / unit, a % unit;
    assert (d - q) * unit == m - e;
    SmallMultiple(d - q, unit);
  }

  lemma SmallMultiple(k: int, unit: positive)
    requires -(unit as int) < k * unit < unit
    ensures k == 0
  {
  }

  lemma {:induction false} CeilCovers(a: nat, unit: positive)
    ensures a <= Units(Ceil(a, unit), unit) < a + unit
    ensures 0 < a ==> 1 <= Ceil(a, unit)
  {
    if unit < a {
      CeilCovers(a - unit, unit);
    }
  }

  // ---- Retained timestamps ----

  /** `now.duration_since(stamp)`, which saturates at zero. */
  function Since(now: Tick, stamp: Tick): nat {
    if stamp <= now then now - stamp else 0
  }

  /** `retain`: the stamps younger than the window. */
  function Retain(stamps: seq<Tick>, now: Tick, window: nat): seq<Tick> {
    if stamps == [] then []
    else
      var n := |stamps| - 1;
      Retain(stamps[..n], now, window) + if Since(now, stamps[n]) < window then [stamps[n]] else []
  }

  lemma {:induction false} RetainAppend(a: seq<Tick>, b: seq<Tick>, now: Tick, window: nat)
    ensures Retain(a + b, now, window) == Retain(a, now, window) + Retain(b, now, window)
  {
    if b == [] {
      assert a + b == a;
    } else {
      var n := |b| - 1;
      assert (a + b)[..|a + b| - 1] == a + b[..n];
      RetainAppend(a, b[..n], now, window);
    }
  }

  /** Pruning early changes nothing later. */
  lemma {:induction false} RetainTwice(stamps: seq<Tick>, early: Tick, late: Tick, window: nat)
    requires early <= late
    ensures Retain(Retain(stamps, early, window), late, window) == Retain(stamps, late, window)
  {
    if stamps != [] {
      var n := |stamps| - 1;
      RetainTwice(stamps[..n], early, late, window);
      var last := if Since(early, stamps[n]) < window then [stamps[n]] else [];
      RetainAppend(Retain(stamps[..n], early, window), last, late, window);
      if last != [] {
        assert [stamps[n]][..0] == [];
      }
    }
  }

  lemma {:induction false} RetainAllDead(stamps: seq<Tick>, now: Tick, window: nat)
    requires forall i :: 0 <= i < |stamps| ==> window <= Since(now, stamps[i])
    ensures Retain(stamps, now, window) == []
  {
    if stamps != [] {
      RetainAllDead(stamps[..|stamps| - 1], now, window);
    }
  }

  ghost predicate Nondecreasing(stamps: seq<Tick>) {
    forall i, j :: 0 <= i < j < |stamps| ==> stamps[i] <= stamps[j]
  }

  /** In a sorted log, a live stamp keeps every later one alive, and the live ones are a suffix. */
  lemma RetainIsSuffix(stamps: seq<Tick>, now: Tick, window: nat)
    requires Nondecreasing(stamps)
    ensures var live := Retain(stamps, now, window);
            && |live| <= |stamps| && live == stamps[|stamps| - |live|..]
            && (forall i :: 0 <= i < |stamps| ==> (Since(now, stamps[i]) < window <==> |stamps| - |live| <= i))
  {
    var k := FirstLive(stamps, now, window);
    RetainAllDead(stamps[..k], now, window);
    RetainAllLive(stamps[k..], now, window);
    RetainAppend(stamps[..k], stamps[k..], now, window);
    assert stamps[..k] + stamps[k..] == stamps;
  }

  lemma {:induction false} RetainAllLive(stamps: seq<Tick>, now: Tick, window: nat)
    requires forall i :: 0 <= i < |stamps| ==> Since(now, stamps[i]) < window
    ensures Retain(stamps, now, window) == stamps
  {
    if stamps != [] {
      var n := |stamps| - 1;
      RetainAllLive(stamps[..n], now, window);
      assert stamps[..n] + [stamps[n]] == stamps;
    }
  }

  /** Where the live part of a sorted log begins. */
  lemma FirstLive(stamps: seq<Tick>, now: Tick, window: nat) returns (k: nat)
    requires Nondecreasing(stamps)
    ensures k <= |stamps| && forall i :: 0 <= i < |stamps| ==> (Since(now, stamps[i]) < window <==> k <= i)
  {
    k := |stamps|;
    while 0 < k && Since(now, stamps[k - 1]) < window
      invariant k <= |stamps| && forall i :: k <= i < |stamps| ==> Since(now, stamps[i]) < window
    {
      k := k - 1;
    }
    assert 0 < k ==> forall i :: 0 <= i < k ==> Since(now, stamps[k - 1]) <= Since(now, stamps[i]);
  }

  // ---- The policy: one full log of allowed requests per key ----

  ghost predicate InOrder(requests: seq<Request>) {
    forall i, j :: 0 <= i < j < |requests| ==> requests[i].at <= requests[j].at
  }

  /** The times of all requests of a key that a limiter remembering everything allows. */
  function FullLog(limits: Limits, requests: seq<Request>, key: string): seq<Tick>
    decreases |requests|, 0
  {
    if requests == [] then []
    else
      var (past, r) := (requests[..|requests| - 1], requests[|requests| - 1]);
      if r.key == key && Permitted(limits, past, r) then FullLog(limits, past, key) + [r.at]
      else FullLog(limits, past, key)
  }

  /** Fewer than the maximum of the allowed requests of this key are still inside the window. */
  predicate Permitted(limits: Limits, past: seq<Request>, r: Request)
    decreases |past|, 1
  {
    |Retain(FullLog(limits, past, r.key), r.at, limits.window)| < limits.max
  }

  function Only(requests: seq<Request>, key: string): seq<Request> {
    if requests == [] then []
    else
      var (past, r) := (requests[..|requests| - 1], requests[|requests| - 1]);
      Only(past, key) + if r.key == key then [r] else []
  }

  /** Requests under other keys never matter. */
  lemma {:induction false} OtherKeysNeverMatter(limits: Limits, requests: seq<Request>, key: string)
    ensures FullLog(limits, Only(requests, key), key) == FullLog(limits, requests, key)
  {
    if requests != [] {
      var past, r := requests[..|requests| - 1], requests[|requests| - 1];
      OtherKeysNeverMatter(limits, past, key);
      if r.key == key {
        assert (Only(past, key) + [r])[..|Only(past, key)|] == Only(past, key);
      } else {
        assert Only(past, key) + [] == Only(past, key);
      }
    }
  }

  lemma {:induction false} LogInOrder(limits: Limits, requests: seq<Request>, key: string)
    requires InOrder(requests)
    ensures Nondecreasing(FullLog(limits, requests, key))
    ensures forall i :: 0 <= i < |FullLog(limits, requests, key)| ==>
              requests != [] && FullLog(limits, requests, key)[i] <= requests[|requests| - 1].at
  {
    if requests != [] {
      var past := requests[..|requests| - 1];
      LogInOrder(limits, past, key);
      assert past != [] ==> past[|past| - 1].at <= requests[|requests| - 1].at;
    }
  }

  /** The i-th and the (i+max)-th allowed requests of a key are at least one window apart. */
  lemma {:induction false} AllowedRequestsAreSpaced(limits: Limits, requests: seq<Request>, key: string, i: nat)
    requires InOrder(requests) && i + limits.max < |FullLog(limits, requests, key)|
    ensures FullLog(limits, requests, key)[i] + limits.window <= FullLog(limits, requests, key)[i + limits.max]
  {
    var past, r := requests[..|requests| - 1], requests[|requests| - 1];
    var log := FullLog(limits, past, key);
    LogInOrder(limits, past, key);
    LogGrows(limits, requests, key);
    if i + limits.max < |log| {
      AllowedRequestsAreSpaced(limits, past, key, i);
    } else {
      PermittedIsSpaced(log, r.at, limits.window, limits.max, i);
    }
  }

  /** A request adds at most its own time to the log, and only if it is permitted. */
  lemma LogGrows(limits: Limits, requests: seq<Request>, key: string)
    requires requests != []
    ensures var (past, r) := (requests[..|requests| - 1], requests[|requests| - 1]);
            var log := FullLog(limits, past, key);
            FullLog(limits, requests, key) ==
            if r.key == key && |Retain(log, r.at, limits.window)| < limits.max then log + [r.at] else log
  {
  }

  lemma PermittedIsSpaced(log: seq<Tick>, at: Tick, window: nat, max: nat, i: nat)
    requires Nondecreasing(log) && |Retain(log, at, window)| < max && i + max == |log| && log[i] <= at
    ensures log[i] + window <= at
  {
    RetainIsSuffix(log, at, window);
  }

  /** At no time are more than the maximum of a key's allowed requests inside the window. */
  lemma {:induction false} NeverMoreThanMaxLive(limits: Limits, requests: seq<Request>, key: string, now: Tick)
    requires InOrder(requests) && (requests != [] ==> requests[|requests| - 1].at <= now)
    ensures |Retain(FullLog(limits, requests, key), now, limits.window)| <= limits.max
  {
    var log := FullLog(limits, requests, key);
    LogInOrder(limits, requests, key);
    RetainIsSuffix(log, now, limits.window);
    var live := Retain(log, now, limits.window);
    if limits.max < |live| {
      var i := |log| - |live|;
      AllowedRequestsAreSpaced(limits, requests, key, i);
      assert false;
    }
  }
}
