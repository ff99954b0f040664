/**
 How often the server dispatches: once per envelope id within the retention period, and within
 each sender's own token bucket.
 */
module DispatchRuns {
  import opened Prelude
  import opened Protocol
  import opened Transport
  import opened ServerRuns
  import RateLimit
  import Replay

  // ---------------------------------------------------------------- at most once per id

  /** Event `e` brings a well-formed request whose id the cache has not seen. */
  ghost predicate Accepts(w: World, n: Node, e: Event) {
    Incoming(w, n, e).Some? && Replay.Fresh(n.server.cache.seen, Incoming(w, n, e).value.id, e.now)
  }

  lemma AcceptedArrives(w: World, n: Node, e: Event)
    requires Accepts(w, n, e)
    ensures e.Receive?
  {
  }

  /** Event `e` reaches `dispatch`. */
  ghost predicate Dispatches(w: World, n: Node, e: Event) {
    Incoming(w, n, e).Some? && Admitting(w, n, e).1 == Admitted
  }

  /** The clock does not run backwards from one arrival to the next. */
  ghost predicate ClockForward(es: seq<Event>) {
    forall i, j :: 0 <= i < j < |es| && es[i].Receive? && es[j].Receive? ==> es[i].now <= es[j].now
  }

  /** What one event asks of the replay cache. */
  ghost function CacheEvent(w: World, n: Node, e: Event): Replay.Event {
    if Incoming(w, n, e).Some? then Replay.Check(Incoming(w, n, e).value.id, e.now, e.cacheWritten)
    else if e.Restart? then Replay.Restart
    else Replay.Idle
  }

  /** What the run asks of the replay cache, event by event. */
  ghost function CacheEvents(w: World, es: seq<Event>): (cs: seq<Replay.Event>)
    ensures |cs| == |es|
    ensures forall i :: 0 <= i < |es| ==> cs[i] == CacheEvent(w, After(w, es[..i]), es[i])
  {
    seq(|es|, i requires 0 <= i < |es| => CacheEvent(w, After(w, es[..i]), es[i]))
  }

  lemma CachePrefix(w: World, es: seq<Event>, k: nat)
    requires k <= |es|
    ensures CacheEvents(w, es)[..k] == CacheEvents(w, es[..k])
  {
    hide CacheEvents, CacheEvent, After;
    assert forall i :: 0 <= i < k ==> es[..k][..i] == es[..i];
  }

  lemma CacheStep(w: World, n: Node, e: Event)
    ensures Next(w, n, e).server.cache == Replay.Applied(n.server.cache, CacheEvent(w, n, e))
  {
  }

  lemma {:induction false} CacheIsProjected(w: World, es: seq<Event>)
    ensures After(w, es).server.cache == Replay.After(CacheEvents(w, es))
    decreases |es|
  {
    if es != [] {
      var k := |es| - 1;
      var n, cs := After(w, es[..k]), CacheEvents(w, es);
      assert After(w, es) == Next(w, n, es[k]);
      hide *;
      CacheIsProjected(w, es[..k]);
      CacheStep(w, n, es[k]);
      CachePrefix(w, es, k);
      Replay.AfterSnoc(cs[..k], cs[k]);
      assert cs == cs[..k] + [cs[k]];
    }
  }

  /** Event `i` of the run is accepted. */
  ghost predicate AcceptsAt(w: World, es: seq<Event>, i: int) {
    0 <= i < |es| && Accepts(w, After(w, es[..i]), es[i])
  }

  ghost function IdAt(w: World, es: seq<Event>, i: int): string
    requires AcceptsAt(w, es, i)
  {
    Incoming(w, After(w, es[..i]), es[i]).value.id
  }

  lemma CacheAccepts(w: World, es: seq<Event>, i: nat)
    requires i < |es|
    ensures Replay.Accepted(CacheEvents(w, es), i) <==> AcceptsAt(w, es, i)
    ensures AcceptsAt(w, es, i) ==>
      CacheEvents(w, es)[i] == Replay.Check(IdAt(w, es, i), es[i].now, es[i].cacheWritten) && es[i].Receive?
  {
    CachePrefix(w, es, i);
    CacheIsProjected(w, es[..i]);
    hide After, CacheEvents, Replay.Fresh;
  }

  lemma CacheIsOrdered(w: World, es: seq<Event>)
    requires ClockForward(es)
    ensures Replay.Ordered(CacheEvents(w, es))
  {
    hide After, CacheEvents;
  }

  /** From event `i` on and before event `r`, some accepted request wrote the cache file. */
  ghost predicate WrittenSince(w: World, es: seq<Event>, i: int, r: int) {
    exists k :: i <= k < r && AcceptsAt(w, es, k) && es[k].cacheWritten
  }

  /** Every restart between events `i` and `j` found the cache file written since `i`. */
  ghost predicate Retained(w: World, es: seq<Event>, i: int, j: int) {
    forall r :: 0 <= r < |es| && i < r < j && es[r].Restart? ==> WrittenSince(w, es, i, r)
  }

  lemma WrittenIsSaved(w: World, es: seq<Event>, i: nat, r: nat, j: nat)
    requires r <= j <= |es|
    ensures WrittenSince(w, es, i, r) <==> Replay.Saved(CacheEvents(w, es)[..j], i, r)
  {
    var cs := CacheEvents(w, es);
    forall k: nat | k < r
      ensures Replay.Accepted(cs[..j], k) <==> AcceptsAt(w, es, k)
      ensures AcceptsAt(w, es, k) ==> es[k].Receive? && cs[..j][k].written == es[k].cacheWritten
    {
      CacheAccepts(w, es, k);
      Replay.AcceptedPrefix(cs, j, k);
    }
    hide CacheEvents, AcceptsAt, Replay.Accepted;
    if WrittenSince(w, es, i, r) {
      var k :| i <= k < r && AcceptsAt(w, es, k) && es[k].cacheWritten;
      assert Replay.Accepted(cs[..j], k) && cs[..j][k].written;
    }
    if Replay.Saved(cs[..j], i, r) {
      var k :| i <= k < r && Replay.Accepted(cs[..j], k) && cs[..j][k].written;
      assert AcceptsAt(w, es, k) && es[k].cacheWritten;
    }
  }

  lemma RetainedIsRemembered(w: World, es: seq<Event>, i: nat, j: nat)
    requires j <= |es|
    ensures Retained(w, es, i, j) <==> Replay.Remembered(CacheEvents(w, es)[..j], i)
  {
    var cs := CacheEvents(w, es);
    forall r | i < r < j
      ensures es[r].Restart? <==> cs[..j][r].Restart?
      ensures WrittenSince(w, es, i, r) <==> Replay.Saved(cs[..j], i, r)
    {
      WrittenIsSaved(w, es, i, r, j);
    }
    hide CacheEvents, WrittenSince, Replay.Saved;
  }

  /** Event `i` accepted this id less than the retention period before, and no restart since has lost it. */
  ghost predicate Blocks(w: World, es: seq<Event>, i: int, j: int, id: string, now: nat) {
    && i < j && AcceptsAt(w, es, i) && IdAt(w, es, i) == id && es[i].Receive? && now - es[i].now < 864_000
    && Retained(w, es, i, j)
  }

  lemma BlocksIsRemembered(w: World, es: seq<Event>, i: int, j: nat, id: string, now: nat)
    requires j <= |es|
    ensures var cs := CacheEvents(w, es)[..j];
      Blocks(w, es, i, j, id, now) <==> Replay.RecentAt(cs, i, id, now) && Replay.Remembered(cs, i)
  {
    if 0 <= i < j {
      CacheAccepts(w, es, i);
      RetainedIsRemembered(w, es, i, j);
      Replay.AcceptedPrefix(CacheEvents(w, es), j, i);
      hide CacheEvents, AcceptsAt, Retained, Replay.Accepted, Replay.Remembered;
    }
  }

  /**
   A well-formed request is accepted if and only if no earlier acceptance of its id blocks it. Nothing is
   supposed of the cache file: a failed write matters only to a restart that follows before the next one.
   */
  lemma AcceptanceIsExact(w: World, es: seq<Event>, j: nat)
    requires ClockForward(es) && j < |es| && Incoming(w, After(w, es[..j]), es[j]).Some?
    ensures es[j].Receive?
    ensures AcceptsAt(w, es, j) <==>
      !exists i :: Blocks(w, es, i, j, Incoming(w, After(w, es[..j]), es[j]).value.id, es[j].now)
  {
    var cs, id, now := CacheEvents(w, es), Incoming(w, After(w, es[..j]), es[j]).value.id, es[j].now;
    CacheAccepts(w, es, j);
    CacheIsOrdered(w, es);
    Replay.CheckIsExact(cs, j);
    forall i ensures Blocks(w, es, i, j, id, now) <==> Replay.RecentAt(cs[..j], i, id, now) && Replay.Remembered(cs[..j], i) {
      BlocksIsRemembered(w, es, i, j, id, now);
    }
    hide After, CacheEvents, Blocks, AcceptsAt, Replay.RecentAt, Replay.Remembered, Replay.Accepted;
    if i :| Blocks(w, es, i, j, id, now) {
      assert Replay.RecentAt(cs[..j], i, id, now) && Replay.Remembered(cs[..j], i);
    }
    if Replay.RememberedWithin(cs[..j], id, now) {
      var i :| Replay.RecentAt(cs[..j], i, id, now) && Replay.Remembered(cs[..j], i);
      assert Blocks(w, es, i, j, id, now);
    }
  }

  /** A request arriving again in time is not accepted again, unless a restart has lost the first. */
  lemma AcceptedAtMostOnce(w: World, es: seq<Event>, i: nat, j: nat)
    requires ClockForward(es) && i < j && AcceptsAt(w, es, i) && es[i].Receive?
    requires j < |es| && es[j].Receive? && es[j].now - es[i].now < 864_000 && Retained(w, es, i, j)
    ensures AcceptsAt(w, es, j) ==> IdAt(w, es, j) != IdAt(w, es, i)
  {
    if AcceptsAt(w, es, j) && IdAt(w, es, j) == IdAt(w, es, i) {
      AcceptanceIsExact(w, es, j);
      assert Blocks(w, es, i, j, IdAt(w, es, j), es[j].now);
    }
  }

  lemma DispatchNeedsAcceptance(w: World, n: Node, e: Event)
    requires Dispatches(w, n, e)
    ensures Accepts(w, n, e)
  {
  }

  // ---------------------------------------------------------------- each sender's own bucket

  ghost function FreshRequest(w: World, n: Node, e: Event): Option<RateLimit.Request> {
    if Accepts(w, n, e) then Some(RateLimit.Request(e.sender, e.now)) else None
  }

  function Listed<T>(x: Option<T>): seq<T> {
    if x.Some? then [x.value] else []
  }

  /** The requests that reached the rate limiter in this server lifetime. */
  ghost function FreshRequests(w: World, es: seq<Event>): seq<RateLimit.Request> {
    if es == [] || es[|es| - 1].Restart? then []
    else
      var k := |es| - 1;
      FreshRequests(w, es[..k]) + Listed(FreshRequest(w, After(w, es[..k]), es[k]))
  }

  /** The times of one sender's requests that reach the rate limiter. */
  ghost function FreshTimes(w: World, es: seq<Event>, key: string): seq<nat> {
    RateLimit.TimesOf(FreshRequests(w, es), key)
  }

  /** Only an accepted request touches a bucket; a duplicate changes none. */
  lemma BucketStep(w: World, n: Node, e: Event)
    ensures Next(w, n, e).server.buckets ==
      if e.Restart? then map[]
      else if Accepts(w, n, e)
      then n.server.buckets[e.sender := RateLimit.Spent(RateLimit.Lookup(n.server.buckets, e.sender), e.now)]
      else n.server.buckets
  {
  }

  lemma {:induction false} BucketsAreProjected(w: World, es: seq<Event>)
    ensures After(w, es).server.buckets == RateLimit.BucketsAfter(FreshRequests(w, es))
    decreases |es|
  {
    if es != [] {
      var k := |es| - 1;
      BucketsAreProjected(w, es[..k]);
      var n := After(w, es[..k]);
      BucketStep(w, n, es[k]);
      var r := FreshRequest(w, n, es[k]);
      if r.Some? {
        RateLimit.BucketsAfterSnoc(FreshRequests(w, es[..k]), r.value);
      }
      hide Next, Accepts, RateLimit.BucketsAfter;
      assert FreshRequests(w, es[..k]) + [] == FreshRequests(w, es[..k]);
    }
  }

  lemma FreshTimesNext(w: World, es: seq<Event>, key: string)
    requires es != [] && !es[|es| - 1].Restart?
    ensures var k := |es| - 1;
      FreshTimes(w, es, key) == FreshTimes(w, es[..k], key)
        + if Accepts(w, After(w, es[..k]), es[k]) && es[k].sender == key then [es[k].now] else []
  {
    var k := |es| - 1;
    var r := FreshRequest(w, After(w, es[..k]), es[k]);
    if r.Some? {
      RateLimit.TimesOfSnoc(FreshRequests(w, es[..k]), r.value, key);
    }
    hide After, Accepts, RateLimit.TimesOf;
    assert FreshRequests(w, es[..k]) + [] == FreshRequests(w, es[..k]);
    assert FreshTimes(w, es[..k], key) + [] == FreshTimes(w, es[..k], key);
  }

  /** What the rate limiter decided for the accepted requests of one sender in this lifetime, in order. */
  ghost function RateDecisions(w: World, es: seq<Event>, key: string): seq<bool> {
    if es == [] || es[|es| - 1].Restart? then []
    else
      var k := |es| - 1;
      var n := After(w, es[..k]);
      RateDecisions(w, es[..k], key) +
      if Accepts(w, n, es[k]) && es[k].sender == key then [Dispatches(w, n, es[k])] else []
  }

  /** Within one server lifetime, a sender's decisions are those of its own accepted requests alone. */
  lemma {:induction false} DecisionsAreIndependent(w: World, es: seq<Event>, key: string)
    ensures RateDecisions(w, es, key) == RateLimit.Decisions(FreshTimes(w, es, key))
    decreases |es|
  {
    hide After, Accepts, Dispatches, RateLimit.Level;
    if es != [] && !es[|es| - 1].Restart? {
      DecisionsAreIndependent(w, es[..|es| - 1], key);
      NextDecision(w, es, key);
    }
  }

  lemma NextDecision(w: World, es: seq<Event>, key: string)
    requires es != [] && !es[|es| - 1].Restart?
    requires RateDecisions(w, es[..|es| - 1], key) == RateLimit.Decisions(FreshTimes(w, es[..|es| - 1], key))
    ensures RateDecisions(w, es, key) == RateLimit.Decisions(FreshTimes(w, es, key))
  {
    hide After, Accepts, Dispatches, RateLimit.Decisions, RateLimit.Level, FreshTimes;
    var front, e := es[..|es| - 1], es[|es| - 1];
    var n, ts := After(w, front), FreshTimes(w, front, key);
    FreshTimesNext(w, es, key);
    if e.Receive? && Accepts(w, n, e) && e.sender == key {
      NextLevel(w, front, key);
      RateLimit.DecisionsSnoc(ts, e.now);
      DispatchIsLevel(w, n, e);
    } else {
      if Accepts(w, n, e) {
        AcceptedArrives(w, n, e);
      }
      assert ts + [] == ts;
    }
  }

  lemma NextLevel(w: World, es: seq<Event>, key: string)
    ensures RateLimit.Lookup(After(w, es).server.buckets, key) == RateLimit.BucketAfter(FreshTimes(w, es, key))
  {
    BucketsAreProjected(w, es);
    RateLimit.BucketsAreIndependent(FreshRequests(w, es), key);
    hide After;
  }

  lemma DispatchIsLevel(w: World, n: Node, e: Event)
    requires Accepts(w, n, e)
    ensures Dispatches(w, n, e) <==> RateLimit.Level(RateLimit.Lookup(n.server.buckets, e.sender), e.now) >= 1
  {
  }

  /** Dispatches of one sender among the events numbered `i` to `j`, `j` excluded. */
  ghost function DispatchCount(w: World, es: seq<Event>, i: nat, j: nat, key: string): nat
    requires i <= j <= |es|
  {
    if i == j then 0
    else
      DispatchCount(w, es, i, j - 1, key)
      + if es[j - 1].Receive? && es[j - 1].sender == key && Dispatches(w, After(w, es[..j - 1]), es[j - 1]) then 1 else 0
  }

  lemma {:induction false} FreshTimesPrefix(w: World, es: seq<Event>, i: nat, key: string)
    requires i <= |es| && forall k :: i <= k < |es| ==> !es[k].Restart?
    ensures var ts, ts' := FreshTimes(w, es[..i], key), FreshTimes(w, es, key);
      |ts| <= |ts'| && ts'[..|ts|] == ts
    decreases |es|
  {
    if i < |es| {
      var front := es[..|es| - 1];
      assert front[..i] == es[..i];
      FreshTimesPrefix(w, front, i, key);
      FreshTimesNext(w, es, key);
    } else {
      assert es[..i] == es;
    }
  }

  /** Whether the last event of a run is a dispatch for `key`, read off the decisions. */
  lemma LastDecision(w: World, es: seq<Event>, key: string)
    requires es != [] && !es[|es| - 1].Restart?
    ensures var ts, k := FreshTimes(w, es, key), |es| - 1;
      var c, n := |FreshTimes(w, es[..k], key)|, After(w, es[..k]);
      var hit := es[k].Receive? && es[k].sender == key && Dispatches(w, n, es[k]);
      if |ts| > c then |ts| == c + 1 && RateLimit.Decisions(ts)[c] == hit else |ts| == c && !hit
  {
    var k := |es| - 1;
    var n := After(w, es[..k]);
    FreshTimesNext(w, es, key);
    DecisionsAreIndependent(w, es, key);
    DecisionsAreIndependent(w, es[..k], key);
    if Dispatches(w, n, es[k]) {
      DispatchNeedsAcceptance(w, n, es[k]);
    }
    hide After, Dispatches, RateLimit.Decisions, FreshTimes;
  }

  lemma {:induction false} CountIsAccepted(w: World, es: seq<Event>, i: nat, j: nat, key: string)
    requires i <= j <= |es| && forall k :: i <= k < |es| ==> !es[k].Restart?
    ensures var ts := FreshTimes(w, es, key);
      var a, b := |FreshTimes(w, es[..i], key)|, |FreshTimes(w, es[..j], key)|;
      a <= b <= |ts| && DispatchCount(w, es, i, j, key) == RateLimit.Accepted(ts, a, b)
    decreases j
  {
    hide After, Accepts, Dispatches, RateLimit.Decisions, FreshTimes, RateLimit.Accepted;
    var ts := FreshTimes(w, es, key);
    var a, b := |FreshTimes(w, es[..i], key)|, |FreshTimes(w, es[..j], key)|;
    FreshTimesPrefix(w, es, j, key);
    if i < j {
      CountIsAccepted(w, es, i, j - 1, key);
      LastDecision(w, es[..j], key);
      assert es[..j][..j - 1] == es[..j - 1];
      var c := |FreshTimes(w, es[..j - 1], key)|;
      if c < b {
        RateLimit.AcceptedNext(ts, a, c);
        RateLimit.PrefixDecision(ts, b, c);
      }
    } else {
      RateLimit.NoneAccepted(ts, a);
    }
  }

  predicate ArrivedBy(es: seq<Event>, now: nat) {
    forall i :: 0 <= i < |es| && es[i].Receive? ==> es[i].now <= now
  }

  predicate UpTo(ts: seq<nat>, now: nat) {
    NonDecreasing(ts) && forall i :: 0 <= i < |ts| ==> ts[i] <= now
  }

  lemma UpToNext(ts: seq<nat>, t: nat, now: nat)
    requires UpTo(ts, t) && t <= now
    ensures UpTo(ts, now) && UpTo(ts + [t], now)
  {
  }

  lemma ArrivalsBefore(es: seq<Event>, now: nat)
    requires es != [] && ClockForward(es) && ArrivedBy(es, now)
    ensures var k := |es| - 1;
      ClockForward(es[..k])
      && if es[k].Receive? then ArrivedBy(es[..k], es[k].now) && es[k].now <= now else ArrivedBy(es[..k], now)
  {
  }

  lemma FreshTimesGrow(w: World, es: seq<Event>, key: string)
    requires es != [] && !es[|es| - 1].Restart?
    ensures var k := |es| - 1;
      var ts := FreshTimes(w, es[..k], key);
      FreshTimes(w, es, key) == ts || (es[k].Receive? && FreshTimes(w, es, key) == ts + [es[k].now])
  {
    FreshTimesNext(w, es, key);
    var k := |es| - 1;
    assert es[k].Receive? || !Accepts(w, After(w, es[..k]), es[k]);
    hide *;
    assert FreshTimes(w, es[..k], key) + [] == FreshTimes(w, es[..k], key);
  }

  lemma {:induction false} FreshTimesOrdered(w: World, es: seq<Event>, key: string, now: nat)
    requires ClockForward(es) && ArrivedBy(es, now)
    ensures UpTo(FreshTimes(w, es, key), now)
    decreases |es|
  {
    if es != [] && !es[|es| - 1].Restart? {
      var k := |es| - 1;
      ArrivalsBefore(es, now);
      FreshTimesGrow(w, es, key);
      hide *;
      if es[k].Receive? {
        FreshTimesOrdered(w, es[..k], key, es[k].now);
        UpToNext(FreshTimes(w, es[..k], key), es[k].now, now);
      } else {
        FreshTimesOrdered(w, es[..k], key, now);
      }
    }
  }

  /** The times of the fresh requests among the events numbered `i` to `j` lie between two bounds. */
  lemma {:induction false} FreshTimesBetween(w: World, es: seq<Event>, i: nat, j: nat, key: string, lo: nat, hi: nat)
    requires i <= j <= |es| && forall k :: i <= k < j ==> !es[k].Restart?
    requires forall k :: i <= k < j && es[k].Receive? ==> lo <= es[k].now <= hi
    ensures var ts, a := FreshTimes(w, es[..j], key), |FreshTimes(w, es[..i], key)|;
      forall m :: a <= m < |ts| ==> lo <= ts[m] <= hi
    decreases j
  {
    hide After, FreshTimes, Accepts;
    if i < j {
      FreshTimesBetween(w, es, i, j - 1, key, lo, hi);
      FreshTimesNext(w, es[..j], key);
      assert es[..j][..j - 1] == es[..j - 1];
      var n, e := After(w, es[..j - 1]), es[j - 1];
      if Accepts(w, n, e) {
        AcceptedArrives(w, n, e);
      }
    }
  }

  /**
   If the server does not restart and all arrivals among the events numbered `i` to `j` fall within a
   number of seconds, at most ten plus that number of requests of any one sender are dispatched among them.
   */
  lemma DispatchesPerWindow(w: World, es: seq<Event>, i: nat, j: nat, key: string, from: nat, secs: nat)
    requires ClockForward(es)
    requires i <= j <= |es| && forall k :: i <= k < j ==> !es[k].Restart?
    requires forall k :: i <= k < j && es[k].Receive? ==> from <= es[k].now <= from + secs
    ensures DispatchCount(w, es, i, j, key) <= 10 + secs
  {
    hide FreshTimes, DispatchCount;
    var run := es[..j];
    assert run[..i] == es[..i] && run[..j] == run;
    var ts := FreshTimes(w, run, key);
    var a := |FreshTimes(w, run[..i], key)|;
    CountIsAccepted(w, run, i, j, key);
    SameCount(w, es, run, i, j, key);
    FreshTimesBetween(w, run, i, j, key, from, from + secs);
    LatestArrival(w, run, key);
    if a < |ts| {
      RateLimit.WindowBound(ts, a, |ts|, secs);
    } else {
      RateLimit.NoneAccepted(ts, a);
    }
  }

  lemma {:induction false} SameCount(w: World, es: seq<Event>, run: seq<Event>, i: nat, j: nat, key: string)
    requires i <= j <= |run| <= |es| && run == es[..|run|]
    ensures DispatchCount(w, run, i, j, key) == DispatchCount(w, es, i, j, key)
    decreases j
  {
    if i < j {
      assert run[..j - 1] == es[..j - 1];
      SameCount(w, es, run, i, j - 1, key);
      hide After, Dispatches;
    }
  }

  function MaxTime(es: seq<Event>): (now: nat)
    ensures ArrivedBy(es, now)
  {
    if es == [] then 0
    else
      var m := MaxTime(es[..|es| - 1]);
      var e := es[|es| - 1];
      if e.Receive? && m < e.now then e.now else m
  }

  lemma LatestArrival(w: World, es: seq<Event>, key: string)
    requires ClockForward(es)
    ensures NonDecreasing(FreshTimes(w, es, key))
  {
    FreshTimesOrdered(w, es, key, MaxTime(es));
  }

}
