/** `MemoryRateLimiter` and the Redis sliding-window script, each proved against the full-log policy. */
module RateLimiters {
  import opened Content
  import opened RateLimit

  // ---- In memory ----

  type Clients = map<string, seq<Tick>>

  function Stamps(clients: Clients, key: string): seq<Tick> {
    if key in clients then clients[key] else []
  }

  /** `clients.retain`: prune every client and forget the empty ones. */
  function Pruned(clients: Clients, now: Tick, window: nat): Clients {
    map k | k in clients && Retain(clients[k], now, window) != [] :: Retain(clients[k], now, window)
  }

  /** How long the window still holds the oldest stamp. */
  function Left(limits: Limits, stamps: seq<Tick>, now: Tick): nat {
    if stamps == [] then limits.window
    else if Since(now, stamps[0]) <= limits.window then limits.window - Since(now, stamps[0])
    else 0
  }

  function MemoryAnswer(limits: Limits, stamps: seq<Tick>, now: Tick): Decision {
    if |stamps| >= limits.max then
      var seconds := limits.Seconds(Left(limits, stamps, now));
      Decision(false, 0, seconds, Some(seconds))
    else
      Decision(true, limits.max - (|stamps| + 1), limits.Seconds(limits.window), None)
  }

  function MemoryClients(limits: Limits, clients: Clients, key: string, now: Tick): Clients {
    var pruned := Pruned(clients, now, limits.window);
    var stamps := Stamps(pruned, key);
    pruned[key := if |stamps| >= limits.max then stamps else stamps + [now]]
  }

  class MemoryRateLimiter {
    var clients: Clients

    constructor ()
      ensures clients == map[]
    {
      clients := map[];
    }

    /** `check`, with the instant the lock holder observed. */
    method Check(key: string, limits: Limits, now: Tick) returns (d: Decision)
      modifies this
      ensures clients == MemoryClients(limits, old(clients), key, now)
      ensures d == MemoryAnswer(limits, Retain(Stamps(old(clients), key), now, limits.window), now)
      ensures d.allowed <==> |Retain(Stamps(old(clients), key), now, limits.window)| < limits.max
    {
      clients := Pruned(clients, now, limits.window);
      PruneTwice(old(clients), key, now, limits.window);
      var stamps := Retain(Stamps(clients, key), now, limits.window);
      if |stamps| >= limits.max {
        var seconds := limits.Seconds(Left(limits, stamps, now));
        clients := clients[key := stamps];
        return Decision(false, 0, seconds, Some(seconds));
      }
      stamps := stamps + [now];
      clients := clients[key := stamps];
      return Decision(true, limits.max - |stamps|, limits.Seconds(limits.window), None);
    }
  }

  lemma PruneTwice(clients: Clients, key: string, now: Tick, window: nat)
    ensures Stamps(Pruned(clients, now, window), key) == Retain(Stamps(clients, key), now, window)
    ensures Retain(Stamps(Pruned(clients, now, window), key), now, window) == Retain(Stamps(clients, key), now, window)
  {
    RetainTwice(Stamps(clients, key), now, now, window);
  }

  /** The clients after a run of requests. */
  function MemoryRun(limits: Limits, requests: seq<Request>): Clients {
    if requests == [] then map[]
    else
      var r := requests[|requests| - 1];
      MemoryClients(limits, MemoryRun(limits, requests[..|requests| - 1]), r.key, r.at)
  }

  function MemoryDecision(limits: Limits, past: seq<Request>, r: Request): Decision {
    MemoryAnswer(limits, Retain(Stamps(MemoryRun(limits, past), r.key), r.at, limits.window), r.at)
  }

  /** Pruning every client on every call loses no live request of any key. */
  lemma {:induction false} MemoryKeepsLiveRequests(limits: Limits, requests: seq<Request>, key: string, now: Tick)
    requires InOrder(requests) && (requests != [] ==> requests[|requests| - 1].at <= now)
    ensures Retain(Stamps(MemoryRun(limits, requests), key), now, limits.window) ==
            Retain(FullLog(limits, requests, key), now, limits.window)
  {
    if requests != [] {
      var past, r := requests[..|requests| - 1], requests[|requests| - 1];
      var before, w := MemoryRun(limits, past), limits.window;
      MemoryKeepsLiveRequests(limits, past, key, r.at);
      PruneTwice(before, key, r.at, w);
      RetainTwice(Stamps(before, key), r.at, now, w);
      MemoryKeepsLiveRequests(limits, past, key, now);
      if r.key == key && Permitted(limits, past, r) {
        RetainAppend(Retain(Stamps(before, key), r.at, w), [r.at], now, w);
        RetainAppend(FullLog(limits, past, key), [r.at], now, w);
      }
    }
  }

  /** The memory limiter answers from the live part of the full log. */
  lemma MemoryAnswersFromTheLog(limits: Limits, past: seq<Request>, r: Request)
    requires InOrder(past + [r])
    ensures MemoryDecision(limits, past, r) ==
            MemoryAnswer(limits, Retain(FullLog(limits, past, r.key), r.at, limits.window), r.at)
  {
    InOrderPast(past, r);
    MemoryKeepsLiveRequests(limits, past, r.key, r.at);
  }

  lemma InOrderPast(past: seq<Request>, r: Request)
    requires InOrder(past + [r])
    ensures InOrder(past) && forall i :: 0 <= i < |past| ==> past[i].at <= r.at
  {
    assert forall i :: 0 <= i < |past| ==> (past + [r])[i] == past[i];
    assert (past + [r])[|past|] == r;
  }

  /** In every run, the memory limiter decides as the limiter that remembers everything. */
  lemma MemoryFollowsThePolicy(limits: Limits, past: seq<Request>, r: Request)
    requires InOrder(past + [r])
    ensures MemoryDecision(limits, past, r).allowed <==> Permitted(limits, past, r)
  {
    MemoryAnswersFromTheLog(limits, past, r);
  }

  // ---- Redis ----

  /** A sorted set of scores and when it expires, if ever; members are unique, so only scores matter. */
  datatype ScoreSet = ScoreSet(scores: seq<Tick>, expiresAt: Option<Tick>) {
    predicate Alive(now: Tick) {
      expiresAt.Some? ==> now < expiresAt.value
    }
  }
  type Store = map<string, ScoreSet>

  /** The scores Redis still holds for a key at this time. */
  function Held(store: Store, key: string, now: Tick): seq<Tick> {
    if key in store && store[key].Alive(now) then store[key].scores else []
  }

  /** The scores outside a range. */
  function RemoveRange(scores: seq<Tick>, low: int, high: int): seq<Tick> {
    if scores == [] then []
    else
      var n := |scores| - 1;
      RemoveRange(scores[..n], low, high) + if low <= scores[n] <= high then [] else [scores[n]]
  }

  /** The scores with one more member. */
  function AddScore(scores: seq<Tick>, score: Tick): seq<Tick> {
    if scores == [] || scores[|scores| - 1] <= score then scores + [score]
    else AddScore(scores[..|scores| - 1], score) + [scores[|scores| - 1]]
  }

  /** One second more than the window, in whole seconds. */
  function Expiry(limits: Limits, now: Tick): Tick {
    now + Units(Ceil(limits.window, limits.perSecond) + 1, limits.perSecond)
  }

  datatype Reply = Reply(allowed: bool, count: nat, retryAfter: nat)

  /** The scores the script counts. */
  function Counted(limits: Limits, store: Store, key: string, now: Tick): seq<Tick> {
    RemoveRange(Held(store, key, now), 0, now - limits.window)
  }

  /** The script's effect on the key it is called with. */
  function ScriptStore(limits: Limits, store: Store, key: string, now: Tick): Store {
    var scores := Counted(limits, store, key, now);
    if |scores| < limits.max then store[key := ScoreSet(AddScore(scores, now), Some(Expiry(limits, now)))]
    else if scores == [] then store - {key}
    else store[key := ScoreSet(scores, store[key].expiresAt)]
  }

  /** The script's reply for the scores it counted. */
  function ScriptReply(limits: Limits, scores: seq<Tick>, now: Tick): Reply
    requires limits.Valid()
  {
    if |scores| < limits.max then Reply(true, |scores| + 1, 0)
    else
      var due := scores[0] + limits.window - now;
      Reply(false, |scores|, if due <= 0 then 0 else Ceil(due, limits.perSecond))
  }

  /** `RedisSlidingWindowRateLimiter`: the script's commands on the store, the script, and the check around it. */
  class RedisRateLimiter {
    var store: Store

    constructor ()
      ensures store == map[]
    {
      store := map[];
    }

    twostate predicate OtherKeysKept(key: string)
      reads this
    {
      forall k :: k != key ==> Get(store, k) == old(Get(store, k))
    }

    /** ZREMRANGEBYSCORE; a set left without members disappears, as does one that has expired. */
    method RemoveRangeByScore(key: string, low: int, high: int, now: Tick)
      modifies this
      ensures OtherKeysKept(key)
      ensures Held(store, key, now) == RemoveRange(old(Held(store, key, now)), low, high)
      ensures Held(store, key, now) == [] ==> key !in store
      ensures Held(store, key, now) != [] ==>
                key in store && key in old(store) && store[key].expiresAt == old(store[key].expiresAt)
    {
      var kept := RemoveRange(Held(store, key, now), low, high);
      if kept == [] {
        store := store - {key};
      } else {
        assert Held(store, key, now) != [];
        store := store[key := store[key].(scores := kept)];
      }
    }

    /** ZCARD. */
    method Cardinality(key: string, now: Tick) returns (count: nat)
      ensures count == |Held(store, key, now)|
    {
      count := |Held(store, key, now)|;
    }

    /** ZRANGE 0 0 WITHSCORES: the least score, if there is one. */
    method Oldest(key: string, now: Tick) returns (oldest: Option<Tick>)
      ensures oldest == if Held(store, key, now) == [] then None else Some(Held(store, key, now)[0])
    {
      var scores := Held(store, key, now);
      oldest := if scores == [] then None else Some(scores[0]);
    }

    /** ZADD of a new member: a new set has no expiry, an old one keeps its own. */
    method AddMember(key: string, score: Tick, now: Tick)
      modifies this
      ensures OtherKeysKept(key) && key in store && Held(store, key, now) == AddScore(old(Held(store, key, now)), score)
      ensures store[key].scores == AddScore(old(Held(store, key, now)), score)
    {
      var expiresAt := if key in store && store[key].Alive(now) then store[key].expiresAt else None;
      store := store[key := ScoreSet(AddScore(Held(store, key, now), score), expiresAt)];
    }

    /** EXPIRE, in seconds from now. */
    method Expire(key: string, seconds: nat, perSecond: positive, now: Tick)
      requires key in store
      modifies this
      ensures store == old(store)[key := old(store)[key].(expiresAt := Some(now + Units(seconds, perSecond)))]
    {
      store := store[key := store[key].(expiresAt := Some(now + Units(seconds, perSecond)))];
    }

    /** ZADD and EXPIRE: the request is counted for as long as it can matter. */
    method Admit(key: string, limits: Limits, now: Tick)
      modifies this
      ensures OtherKeysKept(key)
      ensures Get(store, key) == Some(ScoreSet(AddScore(old(Held(store, key, now)), now), Some(Expiry(limits, now))))
    {
      AddMember(key, now, now);
      Expire(key, Ceil(limits.window, limits.perSecond) + 1, limits.perSecond, now);
    }

    /** `SLIDING_WINDOW_LUA`, command by command. */
    method Script(key: string, limits: Limits, now: Tick) returns (reply: Reply)
      requires limits.Valid()
      modifies this
      ensures OtherKeysKept(key) && Get(store, key) == Get(ScriptStore(limits, old(store), key, now), key)
      ensures reply == ScriptReply(limits, Counted(limits, old(store), key, now), now)
    {
      RemoveRangeByScore(key, 0, now - limits.window, now);
      var count := Cardinality(key, now);
      if count >= limits.max {
        var oldest := Oldest(key, now);
        var due := oldest.value + limits.window - now;
        return Reply(false, count, if due <= 0 then 0 else Ceil(due, limits.perSecond));
      }
      Admit(key, limits, now);
      return Reply(true, count + 1, 0);
    }

    method Check(key: string, limits: Limits, now: Tick) returns (d: Decision)
      requires limits.Valid()
      modifies this
      ensures store == ScriptStore(limits, old(store), key, now)
      ensures d == RedisAnswer(limits, ScriptReply(limits, Counted(limits, old(store), key, now), now))
      ensures d.allowed <==> |Counted(limits, old(store), key, now)| < limits.max
    {
      var reply := Script(key, limits, now);
      SameStore(store, ScriptStore(limits, old(store), key, now));
      d := Decision(
        reply.allowed,
        if reply.count <= limits.max then limits.max - reply.count else 0,
        if reply.retryAfter == 0 then limits.Seconds(limits.window) else reply.retryAfter,
        if reply.allowed then None else Some(Max(reply.retryAfter, 1)));
    }
  }

  lemma SameStore(a: Store, b: Store)
    requires forall k :: Get(a, k) == Get(b, k)
    ensures a == b
  {
    assert forall k :: k in a <==> Get(a, k).Some?;
    assert forall k :: k in b <==> Get(b, k).Some?;
    assert forall k :: k in a ==> Get(a, k) == Some(a[k]);
    assert forall k :: k in b ==> Get(b, k) == Some(b[k]);
  }

  function RedisAnswer(limits: Limits, reply: Reply): Decision
    requires limits.Valid()
  {
    Decision(
      reply.allowed,
      if reply.count <= limits.max then limits.max - reply.count else 0,
      if reply.retryAfter == 0 then limits.Seconds(limits.window) else reply.retryAfter,
      if reply.allowed then None else Some(Max(reply.retryAfter, 1)))
  }

  function RedisRun(limits: Limits, requests: seq<Request>): Store {
    if requests == [] then map[]
    else
      var r := requests[|requests| - 1];
      ScriptStore(limits, RedisRun(limits, requests[..|requests| - 1]), r.key, r.at)
  }

  function RedisDecision(limits: Limits, past: seq<Request>, r: Request): Decision
    requires limits.Valid()
  {
    RedisAnswer(limits, ScriptReply(limits, Counted(limits, RedisRun(limits, past), r.key, r.at), r.at))
  }

  /** The script's range removal keeps exactly the live scores. */
  lemma {:induction false} RemovalIsRetention(scores: seq<Tick>, now: Tick, window: nat)
    requires 0 < window
    ensures RemoveRange(scores, 0, now - window) == Retain(scores, now, window)
  {
    if scores != [] {
      RemovalIsRetention(scores[..|scores| - 1], now, window);
    }
  }

  /** The expiry the script sets outlives the window, by less than two seconds. */
  lemma ExpiryOutlivesWindow(limits: Limits, now: Tick)
    ensures now + limits.window < Expiry(limits, now) < now + limits.window + 2 * limits.perSecond
  {
    CeilCovers(limits.window, limits.perSecond);
  }

  ghost predicate UpTo(scores: seq<Tick>, bound: Tick) {
    forall i :: 0 <= i < |scores| ==> scores[i] <= bound
  }

  /** A new member joins the scores. */
  lemma {:induction false} AddScoreAdds(scores: seq<Tick>, score: Tick, bound: Tick)
    ensures multiset(AddScore(scores, score)) == multiset(scores) + multiset{score}
    ensures UpTo(scores, bound) && score <= bound ==> UpTo(AddScore(scores, score), bound)
  {
    if scores != [] && score < scores[|scores| - 1] {
      AddScoreAdds(scores[..|scores| - 1], score, bound);
      assert scores == scores[..|scores| - 1] + [scores[|scores| - 1]];
    }
  }

  lemma SortedSnoc(scores: seq<Tick>, last: Tick)
    requires Nondecreasing(scores) && UpTo(scores, last)
    ensures Nondecreasing(scores + [last])
  {
  }

  /** The scores stay sorted, whatever the clock does. */
  lemma {:induction false} AddScoreSorts(scores: seq<Tick>, score: Tick)
    requires Nondecreasing(scores)
    ensures Nondecreasing(AddScore(scores, score))
  {
    if scores == [] || scores[|scores| - 1] <= score {
      SortedSnoc(scores, score);
    } else {
      var init, last := scores[..|scores| - 1], scores[|scores| - 1];
      AddScoreSorts(init, score);
      AddScoreAdds(init, score, last);
      SortedSnoc(AddScore(init, score), last);
    }
  }

  /** Scores added in time order go to the end. */
  lemma AddScoreAppends(scores: seq<Tick>, score: Tick)
    requires forall i :: 0 <= i < |scores| ==> scores[i] <= score
    ensures AddScore(scores, score) == scores + [score]
  {
  }

  /** Neither the script's pruning nor the key's expiry loses a live request. */
  lemma {:induction false} RedisKeepsLiveRequests(limits: Limits, requests: seq<Request>, key: string, now: Tick)
    requires limits.Valid() && InOrder(requests) && (requests != [] ==> requests[|requests| - 1].at <= now)
    ensures Retain(Held(RedisRun(limits, requests), key, now), now, limits.window) ==
            Retain(FullLog(limits, requests, key), now, limits.window)
  {
    if requests != [] {
      var past, r := requests[..|requests| - 1], requests[|requests| - 1];
      var store := RedisRun(limits, past);
      RedisKeepsLiveRequests(limits, past, key, now);
      if r.key == key {
        RedisKeepsLiveRequests(limits, past, key, r.at);
        LogInOrder(limits, past, key);
        ScriptKeepsLive(limits, store, key, FullLog(limits, past, key), r.at, now);
      } else {
        HeldElsewhere(limits, store, r, key, now);
      }
    }
  }

  lemma HeldElsewhere(limits: Limits, store: Store, r: Request, key: string, now: Tick)
    requires r.key != key
    ensures Held(ScriptStore(limits, store, r.key, r.at), key, now) == Held(store, key, now)
  {
  }

  /** What Redis holds for the key after the script has run. */
  lemma HeldAfterScript(limits: Limits, store: Store, key: string, at: Tick, now: Tick, kept: seq<Tick>)
    requires limits.Valid() && at <= now && kept == Retain(Held(store, key, at), at, limits.window)
    requires forall i :: 0 <= i < |kept| ==> kept[i] <= at
    ensures Held(ScriptStore(limits, store, key, at), key, now) ==
            if |kept| < limits.max then (if now < Expiry(limits, at) then kept + [at] else [])
            else if store[key].Alive(now) then kept else []
  {
    CountedIsRetained(limits, store, key, at);
    ScriptStoreOf(limits, store, key, at, kept);
    if |kept| < limits.max {
      AddScoreAppends(kept, at);
    }
  }

  lemma ScriptStoreOf(limits: Limits, store: Store, key: string, at: Tick, kept: seq<Tick>)
    requires limits.Valid() && Counted(limits, store, key, at) == kept
    ensures |kept| < limits.max ==>
              Get(ScriptStore(limits, store, key, at), key) ==
              Some(ScoreSet(AddScore(kept, at), Some(Expiry(limits, at))))
    ensures limits.max <= |kept| ==>
              && key in store
              && Get(ScriptStore(limits, store, key, at), key) == Some(ScoreSet(kept, store[key].expiresAt))
  {
  }

  lemma LiveAfterAdding(log: seq<Tick>, at: Tick, now: Tick, window: nat, expiry: Tick)
    requires at <= now && at + window < expiry && forall i :: 0 <= i < |log| ==> log[i] <= at
    ensures Retain(if now < expiry then Retain(log, at, window) + [at] else [], now, window) ==
            Retain(log + [at], now, window)
  {
    if now < expiry {
      RetainAppend(Retain(log, at, window), [at], now, window);
      RetainAppend(log, [at], now, window);
      RetainTwice(log, at, now, window);
    } else {
      RetainAllDead(log + [at], now, window);
    }
  }

  /** One call of the script, for any store that holds the live part of some sorted log. */
  lemma ScriptKeepsLive(limits: Limits, store: Store, key: string, log: seq<Tick>, at: Tick, now: Tick)
    requires limits.Valid() && at <= now && Nondecreasing(log) && forall i :: 0 <= i < |log| ==> log[i] <= at
    requires Retain(Held(store, key, at), at, limits.window) == Retain(log, at, limits.window)
    requires Retain(Held(store, key, now), now, limits.window) == Retain(log, now, limits.window)
    ensures Retain(Held(ScriptStore(limits, store, key, at), key, now), now, limits.window) ==
            Retain(if |Retain(log, at, limits.window)| < limits.max then log + [at] else log, now, limits.window)
  {
    var kept := Retain(log, at, limits.window);
    RetainIsSuffix(log, at, limits.window);
    HeldAfterScript(limits, store, key, at, now, kept);
    if |kept| < limits.max {
      ExpiryOutlivesWindow(limits, at);
      LiveAfterAdding(log, at, now, limits.window, Expiry(limits, at));
    } else {
      RetainTwice(log, at, now, limits.window);
    }
  }

  /** The script and the memory limiter agree on every trace, on the decision and on what remains. */
  lemma LimitersAgree(limits: Limits, past: seq<Request>, r: Request)
    requires limits.Valid() && InOrder(past + [r])
    ensures RedisDecision(limits, past, r).allowed == MemoryDecision(limits, past, r).allowed
    ensures RedisDecision(limits, past, r).allowed <==> Permitted(limits, past, r)
    ensures RedisDecision(limits, past, r).remaining == MemoryDecision(limits, past, r).remaining
  {
    MemoryAnswersFromTheLog(limits, past, r);
    RedisAnswersFromTheLog(limits, past, r);
  }

  /** The scores the script counts are the live part of the full log. */
  lemma CountedAreLive(limits: Limits, past: seq<Request>, r: Request)
    requires limits.Valid() && InOrder(past + [r])
    ensures Counted(limits, RedisRun(limits, past), r.key, r.at) ==
            Retain(FullLog(limits, past, r.key), r.at, limits.window)
  {
    InOrderPast(past, r);
    RedisKeepsLiveRequests(limits, past, r.key, r.at);
    CountedIsRetained(limits, RedisRun(limits, past), r.key, r.at);
  }

  /** The script answers from the live part of the full log. */
  lemma RedisAnswersFromTheLog(limits: Limits, past: seq<Request>, r: Request)
    requires limits.Valid() && InOrder(past + [r])
    ensures RedisDecision(limits, past, r) ==
            RedisAnswer(limits, ScriptReply(limits, Retain(FullLog(limits, past, r.key), r.at, limits.window), r.at))
  {
    CountedAreLive(limits, past, r);
  }

  lemma CountedIsRetained(limits: Limits, store: Store, key: string, now: Tick)
    requires limits.Valid()
    ensures Counted(limits, store, key, now) == Retain(Held(store, key, now), now, limits.window)
  {
    RemovalIsRetention(Held(store, key, now), now, limits.window);
  }

  // ---- The numbers in an answer ----

  /** The stamps the memory limiter keeps are live, except the key's own, and no client is kept without any. */
  lemma ClientsAreLive(limits: Limits, clients: Clients, key: string, now: Tick, k: string, i: nat)
    requires k in MemoryClients(limits, clients, key, now) && k != key
    requires i < |MemoryClients(limits, clients, key, now)[k]|
    ensures Since(now, MemoryClients(limits, clients, key, now)[k][i]) < limits.window
    ensures MemoryClients(limits, clients, key, now)[k] != []
  {
    RetainedIsLive(clients[k], now, limits.window, i);
  }

  lemma {:induction false} RetainedIsLive(stamps: seq<Tick>, now: Tick, window: nat, i: nat)
    requires i < |Retain(stamps, now, window)|
    ensures Since(now, Retain(stamps, now, window)[i]) < window
  {
    var n := |stamps| - 1;
    if i < |Retain(stamps[..n], now, window)| {
      RetainedIsLive(stamps[..n], now, window, i);
    }
  }

  /**
   * On an allowance, what remains is the maximum less the live requests and this one, and the reset is the window in
   * seconds; on a denial nothing remains and the reset is the time to retry after. Both limiters count alike.
   */
  lemma AnswersExactly(limits: Limits, past: seq<Request>, r: Request)
    requires limits.Valid() && InOrder(past + [r])
    ensures var live := |Retain(FullLog(limits, past, r.key), r.at, limits.window)|;
            var memory, redis := MemoryDecision(limits, past, r), RedisDecision(limits, past, r);
            if live < limits.max then
              && memory == redis == Decision(true, limits.max - live - 1, limits.Seconds(limits.window), None)
            else
              && memory.remaining == redis.remaining == 0
              && memory.retryAfter == Some(memory.resetSeconds) && redis.retryAfter == Some(redis.resetSeconds)
              && memory.resetSeconds == limits.Seconds(TimeLeft(limits, past, r))
              && redis.resetSeconds == Ceil(TimeLeft(limits, past, r), limits.perSecond)
  {
    var live := Retain(FullLog(limits, past, r.key), r.at, limits.window);
    MemoryAnswersFromTheLog(limits, past, r);
    RedisAnswersFromTheLog(limits, past, r);
    if limits.max <= |live| {
      DeniedIsFull(limits, past, r);
      AnswerTellsTheFloor(limits, live, r.at);
      ReplyTellsTheDue(limits, live, r.at);
    }
  }

  // ---- Other keys ----

  lemma {:induction false} OnlyInOrder(past: seq<Request>, r: Request)
    requires InOrder(past + [r])
    ensures InOrder(Only(past, r.key) + [r])
    ensures forall i :: 0 <= i < |Only(past, r.key)| ==> Only(past, r.key)[i] in past
  {
    if past != [] {
      var init, last := past[..|past| - 1], past[|past| - 1];
      InOrderPast(past, r);
      InOrderInit(past, r);
      OnlyInOrder(init, r);
      if last.key == r.key {
        InOrderPast(Only(init, r.key), r);
        OnlyEarlier(init, last, r.key);
        InOrderSnoc(Only(init, r.key), last, r);
      } else {
        assert Only(past, r.key) == Only(init, r.key);
      }
    }
  }

  lemma InOrderInit(past: seq<Request>, r: Request)
    requires InOrder(past + [r]) && past != []
    ensures InOrder(past[..|past| - 1] + [r]) && InOrder(past[..|past| - 1] + [past[|past| - 1]])
  {
    InOrderPast(past, r);
    var init := past[..|past| - 1];
    assert init + [past[|past| - 1]] == past;
    assert forall i :: 0 <= i < |init| ==> (init + [r])[i] == past[i];
  }

  lemma OnlyEarlier(init: seq<Request>, last: Request, key: string)
    requires InOrder(init + [last]) && InOrder(Only(init, key))
    requires forall i :: 0 <= i < |Only(init, key)| ==> Only(init, key)[i] in init
    ensures InOrder(Only(init, key) + [last])
  {
    InOrderPast(init, last);
  }

  /** Neither limiter's answer to a request depends on the requests of other keys. */
  lemma DecisionsIgnoreOtherKeys(limits: Limits, past: seq<Request>, r: Request)
    requires limits.Valid() && InOrder(past + [r])
    ensures MemoryDecision(limits, past, r) == MemoryDecision(limits, Only(past, r.key), r)
    ensures RedisDecision(limits, past, r) == RedisDecision(limits, Only(past, r.key), r)
  {
    OnlyInOrder(past, r);
    OtherKeysNeverMatter(limits, past, r.key);
    MemoryAnswersFromTheLog(limits, past, r);
    MemoryAnswersFromTheLog(limits, Only(past, r.key), r);
    RedisAnswersFromTheLog(limits, past, r);
    RedisAnswersFromTheLog(limits, Only(past, r.key), r);
  }

  // ---- Waiting as told ----

  /** The same client again, `wait` seconds after a request. */
  function Later(limits: Limits, r: Request, wait: nat): Request {
    Request(r.key, r.at + Units(wait, limits.perSecond))
  }

  /** How long the window still holds the oldest of these stamps. */
  function DueIn(limits: Limits, live: seq<Tick>, now: Tick): nat {
    if live == [] || live[0] + limits.window <= now then 0 else live[0] + limits.window - now
  }

  /** How long the oldest live request of a denied client still has. */
  function TimeLeft(limits: Limits, past: seq<Request>, r: Request): nat {
    DueIn(limits, Retain(FullLog(limits, past, r.key), r.at, limits.window), r.at)
  }

  /** A denied client has exactly the maximum of live requests. */
  lemma DeniedIsFull(limits: Limits, past: seq<Request>, r: Request)
    requires limits.Valid() && InOrder(past + [r]) && !Permitted(limits, past, r)
    ensures var live := Retain(FullLog(limits, past, r.key), r.at, limits.window);
            |live| == limits.max && live[0] <= r.at < live[0] + limits.window
  {
    var log := FullLog(limits, past, r.key);
    InOrderPast(past, r);
    LogInOrder(limits, past, r.key);
    NeverMoreThanMaxLive(limits, past, r.key, r.at);
    OldestIsLive(log, r.at, limits.window);
  }

  lemma OldestIsLive(log: seq<Tick>, now: Tick, window: nat)
    requires Nondecreasing(log) && Retain(log, now, window) != [] && forall i :: 0 <= i < |log| ==> log[i] <= now
    ensures Retain(log, now, window)[0] <= now < Retain(log, now, window)[0] + window
  {
    RetainIsSuffix(log, now, window);
    var live := Retain(log, now, window);
    assert live[0] == log[|log| - |live|];
  }

  /** The live requests become fewer exactly when the oldest of them leaves. */
  lemma FewerWhenOldestLeaves(log: seq<Tick>, now: Tick, late: Tick, window: nat)
    requires Nondecreasing(log) && now <= late && Retain(log, now, window) != []
    requires forall i :: 0 <= i < |log| ==> log[i] <= now
    ensures |Retain(log, late, window)| < |Retain(log, now, window)| <==> Retain(log, now, window)[0] + window <= late
  {
    RetainIsSuffix(log, now, window);
    RetainIsSuffix(log, late, window);
    var live := Retain(log, now, window);
    var oldest := |log| - |live|;
    assert live[0] == log[oldest];
    assert Since(late, log[oldest]) < window <==> |log| - |Retain(log, late, window)| <= oldest;
  }

  /** After a denial at `r`, a later request of the same key is permitted exactly when the oldest live one has left. */
  lemma PermittedWhenOldestLeaves(limits: Limits, past: seq<Request>, r: Request, later: Request)
    requires limits.Valid() && InOrder(past + [r]) && !Permitted(limits, past, r)
    requires later.key == r.key && r.at <= later.at
    ensures 0 < TimeLeft(limits, past, r)
    ensures Permitted(limits, past + [r], later) <==> TimeLeft(limits, past, r) <= later.at - r.at
  {
    DeniedIsFull(limits, past, r);
    InOrderPast(past, r);
    LogInOrder(limits, past, r.key);
    FewerWhenOldestLeaves(FullLog(limits, past, r.key), r.at, later.at, limits.window);
    DenialIsNotLogged(limits, past, r);
  }

  lemma DenialIsNotLogged(limits: Limits, past: seq<Request>, r: Request)
    requires !Permitted(limits, past, r)
    ensures FullLog(limits, past + [r], r.key) == FullLog(limits, past, r.key)
  {
    assert (past + [r])[..|past|] == past;
  }

  /** A denied client is allowed later, by either limiter, exactly when the time left has passed. */
  lemma WaitingOutcome(limits: Limits, past: seq<Request>, r: Request, later: Request)
    requires limits.Valid() && InOrder(past + [r]) && !Permitted(limits, past, r)
    requires later.key == r.key && r.at <= later.at
    ensures 0 < TimeLeft(limits, past, r)
    ensures RedisDecision(limits, past + [r], later).allowed <==> TimeLeft(limits, past, r) <= later.at - r.at
    ensures MemoryDecision(limits, past + [r], later).allowed <==> TimeLeft(limits, past, r) <= later.at - r.at
  {
    PermittedWhenOldestLeaves(limits, past, r, later);
    InOrderSnoc(past, r, later);
    LimitersAgree(limits, past + [r], later);
  }

  /** With no other traffic, a request made after the script's retry-after is allowed. */
  lemma RedisRetryAfterIsEnough(limits: Limits, past: seq<Request>, r: Request, wait: nat)
    requires limits.Valid() && InOrder(past + [r]) && !RedisDecision(limits, past, r).allowed
    requires RedisDecision(limits, past, r).retryAfter.value <= wait
    ensures RedisDecision(limits, past + [r], Later(limits, r, wait)).allowed
  {
    LimitersAgree(limits, past, r);
    RedisTellsTheDue(limits, past, r);
    WaitCovers(TimeLeft(limits, past, r), wait, limits.perSecond);
    WaitingOutcome(limits, past, r, Later(limits, r, wait));
  }

  lemma WaitCovers(due: nat, wait: nat, perSecond: positive)
    requires Ceil(due, perSecond) <= wait
    ensures due <= Units(wait, perSecond)
  {
    CeilCovers(due, perSecond);
    UnitsGrow(Ceil(due, perSecond), wait, perSecond);
  }

  /** The script's retry-after is the time left, rounded up to seconds. */
  lemma RedisTellsTheDue(limits: Limits, past: seq<Request>, r: Request)
    requires limits.Valid() && InOrder(past + [r]) && !Permitted(limits, past, r)
    ensures 0 < TimeLeft(limits, past, r)
    ensures RedisDecision(limits, past, r).retryAfter == Some(Ceil(TimeLeft(limits, past, r), limits.perSecond))
  {
    DeniedIsFull(limits, past, r);
    RedisAnswersFromTheLog(limits, past, r);
    ReplyTellsTheDue(limits, Retain(FullLog(limits, past, r.key), r.at, limits.window), r.at);
  }

  lemma ReplyTellsTheDue(limits: Limits, scores: seq<Tick>, now: Tick)
    requires limits.Valid() && |scores| == limits.max && scores[0] <= now < scores[0] + limits.window
    ensures 0 < DueIn(limits, scores, now)
    ensures var d := RedisAnswer(limits, ScriptReply(limits, scores, now));
            && !d.allowed && d.remaining == 0 && d.retryAfter == Some(d.resetSeconds)
            && d.resetSeconds == Ceil(DueIn(limits, scores, now), limits.perSecond)
  {
    CeilCovers(scores[0] + limits.window - now, limits.perSecond);
  }

  lemma InOrderSnoc(past: seq<Request>, r: Request, later: Request)
    requires InOrder(past + [r]) && r.at <= later.at
    ensures InOrder(past + [r] + [later])
  {
    var all := past + [r] + [later];
    forall i, j | 0 <= i < j < |all| ensures all[i].at <= all[j].at {
      assert i < |past| ==> (past + [r])[i].at <= (past + [r])[|past|].at;
      assert j <= |past| ==> all[i] == (past + [r])[i] && all[j] == (past + [r])[j];
    }
  }

  /**
   * The memory limiter rounds its retry-after down: a client that waits exactly as long as told is allowed if and
   * only if the time left is a whole number of seconds or less than one.
   */
  lemma MemoryRetryAfterExactly(limits: Limits, past: seq<Request>, r: Request)
    requires limits.Valid() && InOrder(past + [r]) && !MemoryDecision(limits, past, r).allowed
    ensures MemoryDecision(limits, past, r).retryAfter.Some?
    ensures var later := Later(limits, r, MemoryDecision(limits, past, r).retryAfter.value);
            MemoryDecision(limits, past + [r], later).allowed <==>
            TimeLeft(limits, past, r) % limits.perSecond == 0 || TimeLeft(limits, past, r) < limits.perSecond
  {
    MemoryTellsTheFloor(limits, past, r);
    var wait := MemoryDecision(limits, past, r).retryAfter.value;
    WaitingOutcome(limits, past, r, Later(limits, r, wait));
    RoundedDown(TimeLeft(limits, past, r), limits.perSecond);
  }

  /** The memory limiter's retry-after is the time left, rounded down to seconds but at least one. */
  lemma MemoryTellsTheFloor(limits: Limits, past: seq<Request>, r: Request)
    requires limits.Valid() && InOrder(past + [r]) && !MemoryDecision(limits, past, r).allowed
    ensures !Permitted(limits, past, r)
    ensures 0 < TimeLeft(limits, past, r)
    ensures MemoryDecision(limits, past, r).retryAfter == Some(limits.Seconds(TimeLeft(limits, past, r)))
  {
    MemoryAnswersFromTheLog(limits, past, r);
    DeniedIsFull(limits, past, r);
    AnswerTellsTheFloor(limits, Retain(FullLog(limits, past, r.key), r.at, limits.window), r.at);
  }

  lemma AnswerTellsTheFloor(limits: Limits, stamps: seq<Tick>, now: Tick)
    requires limits.Valid() && |stamps| == limits.max && stamps[0] <= now < stamps[0] + limits.window
    ensures 0 < DueIn(limits, stamps, now)
    ensures var d := MemoryAnswer(limits, stamps, now);
            && !d.allowed && d.remaining == 0 && d.retryAfter == Some(d.resetSeconds)
            && d.resetSeconds == limits.Seconds(DueIn(limits, stamps, now))
  {
  }

  /** Waiting the rounded-down number of seconds covers the time left only for whole seconds or less than one. */
  lemma RoundedDown(left: nat, perSecond: positive)
    requires 0 < left
    ensures left <= Units(Max(Floor(left, perSecond), 1), perSecond) <==> left % perSecond == 0 || left < perSecond
  {
    FloorDivides(left, perSecond);
    FloorLeaves(left, perSecond);
    assert Units(1, perSecond) == perSecond;
  }

  /** A client told to wait one second is refused again: one and a half seconds were left. */
  lemma MemoryRetryAfterCanFail(limits: Limits, r: Request)
    requires limits == Limits(1, 1500, 1000) && r == Request("k", 0)
    ensures !MemoryDecision(limits, [r], r).allowed
    ensures MemoryDecision(limits, [r], r).retryAfter == Some(1)
    ensures !MemoryDecision(limits, [r] + [r], Later(limits, r, 1)).allowed
  {
    SecondAtOnce(limits, [r], r);
    assert limits.Seconds(limits.window) == 1 by {
      assert Floor(limits.window - limits.perSecond, limits.perSecond) == 0;
    }
  }

  /** With a maximum of one, a second request at the same instant is told the whole window. */
  lemma SecondAtOnce(limits: Limits, past: seq<Request>, r: Request)
    requires limits.Valid() && limits.max == 1 && past == [r]
    ensures !MemoryDecision(limits, past, r).allowed
    ensures MemoryDecision(limits, past, r).retryAfter == Some(limits.Seconds(limits.window))
    ensures MemoryDecision(limits, past + [r], Later(limits, r, limits.Seconds(limits.window))).allowed <==>
            limits.window % limits.perSecond == 0
  {
    assert InOrder(past + [r]);
    WholeWindowLeft(limits, past, r);
    MemoryFollowsThePolicy(limits, past, r);
    MemoryTellsTheFloor(limits, past, r);
    MemoryRetryAfterExactly(limits, past, r);
  }

  lemma WholeWindowLeft(limits: Limits, past: seq<Request>, r: Request)
    requires limits.Valid() && limits.max == 1 && past == [r]
    ensures !Permitted(limits, past, r) && TimeLeft(limits, past, r) == limits.window
  {
    OneRequestIsLogged(limits, past);
    OneStampIsLive(FullLog(limits, past, r.key), limits.window);
  }

  lemma OneRequestIsLogged(limits: Limits, requests: seq<Request>)
    requires limits.Valid() && |requests| == 1
    ensures FullLog(limits, requests, requests[0].key) == [requests[0].at]
  {
    var past, r := requests[..0], requests[0];
    var log := FullLog(limits, past, r.key);
    assert log == [];
    assert Permitted(limits, past, r) by {
      RetainAllDead(log, r.at, limits.window);
    }
  }

  lemma OneStampIsLive(stamps: seq<Tick>, window: nat)
    requires |stamps| == 1 && 0 < window
    ensures Retain(stamps, stamps[0], window) == stamps
  {
    RetainAllDead(stamps[..0], stamps[0], window);
  }
}
