/**
 Per-sender token buckets (ratelimit.rs). Every f64 there holds a whole number no larger than the
 burst, or is about to be clamped to it, so tokens are naturals here.
 */
module RateLimit {
  import opened Prelude

  const BURST: nat := 10

  datatype Bucket = Bucket(tokens: nat, lastRefill: nat)

  type Buckets = map<string, Bucket>

  function Lookup(buckets: Buckets, key: string): Option<Bucket> {
    if key in buckets then Some(buckets[key]) else None
  }

  /** Tokens available to a request at `now`; a sender not seen before has a full bucket. */
  function Level(b: Option<Bucket>, now: nat): (n: nat)
    ensures n <= BURST
  {
    match b
    case None => BURST
    case Some(Bucket(tokens, last)) =>
      var n := tokens + SaturatingSub(now, last);
      if n < BURST then n else BURST
  }

  function Spent(b: Option<Bucket>, now: nat): Bucket {
    var n := Level(b, now);
    Bucket(if n >= 1 then n - 1 else 0, now)
  }

  class RateLimiter {
    var buckets: Buckets

    constructor ()
      ensures buckets == map[]
    {
      buckets := map[];
    }

    method Allow(key: string, now: nat) returns (ok: bool)
      modifies this
      ensures ok <==> Level(Lookup(old(buckets), key), now) >= 1
      ensures buckets == old(buckets)[key := Spent(Lookup(old(buckets), key), now)]
    {
      var b := if key in buckets then buckets[key] else Bucket(BURST, now);
      var elapsed := SaturatingSub(now, b.lastRefill);
      var tokens := if b.tokens + elapsed < BURST then b.tokens + elapsed else BURST;
      if tokens >= 1 {
        tokens := tokens - 1;
        ok := true;
      } else {
        ok := false;
      }
      buckets := buckets[key := Bucket(tokens, now)];
    }
  }

  // ---------------------------------------------------------------- one sender's requests

  /** The bucket after requests at the times `ts`. */
  function BucketAfter(ts: seq<nat>): Option<Bucket> {
    if ts == [] then None
    else Some(Spent(BucketAfter(ts[..|ts| - 1]), ts[|ts| - 1]))
  }

  /** Which of the requests at the times `ts` are allowed. */
  function Decisions(ts: seq<nat>): (ds: seq<bool>)
    ensures |ds| == |ts|
  {
    if ts == [] then []
    else
      var front := ts[..|ts| - 1];
      Decisions(front) + [Level(BucketAfter(front), ts[|ts| - 1]) >= 1]
  }

  function Count(ds: seq<bool>): (n: nat)
    ensures n <= |ds|
  {
    if ds == [] then 0 else Count(ds[..|ds| - 1]) + if ds[|ds| - 1] then 1 else 0
  }

  /** Requests allowed among those numbered `j` to `i`, `i` excluded. */
  function Accepted(ts: seq<nat>, j: nat, i: nat): nat
    requires j <= i <= |ts|
  {
    Count(Decisions(ts)[j..i])
  }

  lemma {:induction false} DecisionsPrefix(ts: seq<nat>, i: nat)
    requires i <= |ts|
    ensures Decisions(ts)[..i] == Decisions(ts[..i])
    decreases |ts|
  {
    if i < |ts| {
      var front := ts[..|ts| - 1];
      DecisionsPrefix(front, i);
      assert front[..i] == ts[..i];
    } else {
      assert ts[..i] == ts;
    }
  }

  lemma PrefixDecision(ts: seq<nat>, i: nat, k: nat)
    requires k < i <= |ts|
    ensures Decisions(ts)[k] == Decisions(ts[..i])[k]
  {
    DecisionsPrefix(ts, i);
    assert Decisions(ts)[..i][k] == Decisions(ts)[k];
  }

  lemma AcceptedNext(ts: seq<nat>, j: nat, i: nat)
    requires j <= i < |ts|
    ensures Accepted(ts, j, i + 1) == Accepted(ts, j, i) + if Decisions(ts)[i] then 1 else 0
  {
    hide Decisions;
    var ds := Decisions(ts);
    assert ds[j..i + 1] == ds[j..i] + [ds[i]];
    CountSnoc(ds[j..i], ds[i]);
  }

  lemma CountSnoc(ds: seq<bool>, d: bool)
    ensures Count(ds + [d]) == Count(ds) + if d then 1 else 0
  {
    assert (ds + [d])[..|ds|] == ds;
  }

  lemma AcceptedPrefix(ts: seq<nat>, j: nat, i: nat)
    requires j <= i <= |ts|
    ensures Accepted(ts, j, i) == Accepted(ts[..i], j, i)
  {
    DecisionsPrefix(ts, i);
    assert Decisions(ts)[j..i] == Decisions(ts)[..i][j..i];
  }

  /** What the earlier request `j` leaves for a request at `now`. */
  function Allowance(ts: seq<nat>, j: nat, now: nat): int
    requires j < |ts|
  {
    BURST + now - ts[j] - Accepted(ts, j, |ts|)
  }

  /** What one more request does to the allowance of request `j`. */
  lemma AllowanceNext(ts: seq<nat>, j: nat, now: nat)
    requires j < |ts|
    ensures var n := |ts| - 1; var spent := if Decisions(ts)[n] then 1 else 0;
      Allowance(ts, j, now) ==
        (if j < n then Allowance(ts[..n], j, ts[n]) else BURST) + now - ts[n] - spent
  {
    var n := |ts| - 1;
    AcceptedNext(ts, j, n);
    AcceptedPrefix(ts, j, n);
    NoneAccepted(ts, n);
    hide Accepted, Decisions;
  }

  lemma NonDecreasingSnoc(ts: seq<nat>, now: nat)
    requires ts != [] && NonDecreasing(ts + [now])
    ensures ts[|ts| - 1] <= now && NonDecreasing(ts[..|ts| - 1] + [ts[|ts| - 1]])
  {
    var n := |ts| - 1;
    assert (ts + [now])[n] == ts[n] && (ts + [now])[n + 1] == now;
    assert ts[..n] + [ts[n]] == (ts + [now])[..|ts|];
  }

  /** The bucket level is the least allowance over all earlier requests, or the burst. */
  lemma {:induction false} LevelIsLeastAllowance(ts: seq<nat>, now: nat)
    requires NonDecreasing(ts + [now])
    ensures forall j :: 0 <= j < |ts| ==> Level(BucketAfter(ts), now) <= Allowance(ts, j, now)
    ensures Level(BucketAfter(ts), now) == BURST
      || exists j :: 0 <= j < |ts| && Level(BucketAfter(ts), now) == Allowance(ts, j, now)
    decreases |ts|
  {
    if ts != [] {
      var n := |ts| - 1;
      var front, t := ts[..n], ts[n];
      NonDecreasingSnoc(ts, now);
      LevelIsLeastAllowance(front, t);
      LevelNext(ts, now);
      DecisionIsLevel(ts, n);
      hide *;
      var before := Level(BucketAfter(front), t);
      forall j | 0 <= j < |ts| ensures Level(BucketAfter(ts), now) <= Allowance(ts, j, now) {
        AllowanceNext(ts, j, now);
        assert j < n ==> before <= Allowance(front, j, t);
      }
      if before == BURST {
        AllowanceNext(ts, n, now);
      } else {
        var j :| 0 <= j < n && before == Allowance(front, j, t);
        AllowanceNext(ts, j, now);
      }
    }
  }

  /** The level at `now` from the level at the last request. */
  lemma LevelNext(ts: seq<nat>, now: nat)
    requires ts != [] && ts[|ts| - 1] <= now
    ensures var t := ts[|ts| - 1];
      var l := Level(BucketAfter(ts[..|ts| - 1]), t);
      var n := (if l >= 1 then l - 1 else 0) + now - t;
      Level(BucketAfter(ts), now) == (if n < BURST then n else BURST) <= BURST && l <= BURST
  {
  }

  /** Accepting request `i` keeps every stretch that ends with it within its allowance. */
  ghost predicate WithinBudget(ts: seq<nat>, i: nat)
    requires i < |ts|
  {
    forall j :: 0 <= j <= i ==> Accepted(ts, j, i) + 1 + ts[j] <= 10 + ts[i]
  }

  lemma AllowanceSince(ts: seq<nat>, j: nat, i: nat)
    requires j < i < |ts|
    ensures Allowance(ts[..i], j, ts[i]) == BURST + ts[i] - ts[j] - Accepted(ts, j, i)
  {
    AcceptedPrefix(ts, j, i);
  }

  lemma AllowedIsWithin(ts: seq<nat>, i: nat, level: int)
    requires i < |ts| && 1 <= level && forall j :: 0 <= j < i ==> level <= Allowance(ts[..i], j, ts[i])
    ensures WithinBudget(ts, i)
  {
    NoneAccepted(ts, i);
    hide Accepted, Allowance;
    forall j | 0 <= j <= i ensures Accepted(ts, j, i) + 1 + ts[j] <= 10 + ts[i] {
      if j < i {
        AllowanceSince(ts, j, i);
      }
    }
  }

  lemma DeniedIsBeyond(ts: seq<nat>, i: nat, j: nat)
    requires j < i < |ts| && Allowance(ts[..i], j, ts[i]) < 1
    ensures !WithinBudget(ts, i)
  {
    AllowanceSince(ts, j, i);
    hide Accepted, Allowance;
    assert Accepted(ts, j, i) + 1 + ts[j] > 10 + ts[i];
  }

  /**
   The bucket is exact: a request is allowed if and only if accepting it keeps the number accepted
   since each earlier request within ten plus the seconds passed. Every denial is forced.
   */
  lemma BucketIsExact(ts: seq<nat>, i: nat)
    requires NonDecreasing(ts) && i < |ts|
    ensures Decisions(ts)[i] <==> WithinBudget(ts, i)
  {
    var front := ts[..i];
    assert NonDecreasing(front + [ts[i]]) by { assert front + [ts[i]] == ts[..i + 1]; }
    LevelIsLeastAllowance(front, ts[i]);
    DecisionIsLevel(ts, i);
    hide *;
    var level := Level(BucketAfter(front), ts[i]);
    if level >= 1 {
      AllowedIsWithin(ts, i, level);
    } else {
      var j :| 0 <= j < |front| && level == Allowance(front, j, ts[i]);
      DeniedIsBeyond(ts, i, j);
    }
  }

  lemma DecisionIsLevel(ts: seq<nat>, i: nat)
    requires i < |ts|
    ensures Decisions(ts)[i] <==> Level(BucketAfter(ts[..i]), ts[i]) >= 1
  {
    DecisionsPrefix(ts, i + 1);
    assert ts[..i + 1][..i] == ts[..i];
    assert Decisions(ts)[i] == Decisions(ts)[..i + 1][i];
  }

  lemma NoneAccepted(ts: seq<nat>, i: nat)
    requires i <= |ts|
    ensures Accepted(ts, i, i) == 0
  {
  }

  /** Any window of `w` seconds admits at most `10 + w` requests. */
  lemma {:induction false} WindowBound(ts: seq<nat>, j: nat, i: nat, w: nat)
    requires NonDecreasing(ts) && j < i <= |ts| && ts[i - 1] - ts[j] <= w
    ensures Accepted(ts, j, i) <= 10 + w
    decreases i
  {
    AcceptedNext(ts, j, i - 1);
    if Decisions(ts)[i - 1] {
      BucketIsExact(ts, i - 1);
      assert Accepted(ts, j, i - 1) + 1 + ts[j] <= 10 + ts[i - 1];
    } else if j < i - 1 {
      WindowBound(ts, j, i - 1, w);
    } else {
      assert Accepted(ts, j, j) == 0;
    }
  }

  // ---------------------------------------------------------------- interleaved senders

  datatype Request = Request(key: string, now: nat)

  function BucketsAfter(rs: seq<Request>): Buckets {
    if rs == [] then map[]
    else
      var r := rs[|rs| - 1];
      var before := BucketsAfter(rs[..|rs| - 1]);
      before[r.key := Spent(Lookup(before, r.key), r.now)]
  }

  lemma BucketsAfterSnoc(rs: seq<Request>, r: Request)
    ensures BucketsAfter(rs + [r]) == BucketsAfter(rs)[r.key := Spent(Lookup(BucketsAfter(rs), r.key), r.now)]
  {
    assert (rs + [r])[..|rs|] == rs;
  }

  lemma TimesOfSnoc(rs: seq<Request>, r: Request, key: string)
    ensures TimesOf(rs + [r], key) == TimesOf(rs, key) + if r.key == key then [r.now] else []
  {
    assert (rs + [r])[..|rs|] == rs;
  }

  lemma DecisionsSnoc(ts: seq<nat>, t: nat)
    ensures Decisions(ts + [t]) == Decisions(ts) + [Level(BucketAfter(ts), t) >= 1]
  {
    assert (ts + [t])[..|ts|] == ts;
  }

  /** The times of one sender's requests. */
  function TimesOf(rs: seq<Request>, key: string): seq<nat> {
    if rs == [] then []
    else
      var r := rs[|rs| - 1];
      TimesOf(rs[..|rs| - 1], key) + if r.key == key then [r.now] else []
  }

  /** A sender's bucket depends on that sender's requests alone. */
  lemma {:induction false} BucketsAreIndependent(rs: seq<Request>, key: string)
    ensures Lookup(BucketsAfter(rs), key) == BucketAfter(TimesOf(rs, key))
    decreases |rs|
  {
    if rs != [] {
      var front, r := rs[..|rs| - 1], rs[|rs| - 1];
      BucketsAreIndependent(front, key);
      var ts := TimesOf(front, key);
      if r.key == key {
        assert (ts + [r.now])[..|ts|] == ts;
        assert TimesOf(rs, key) == ts + [r.now];
      } else {
        assert TimesOf(rs, key) == ts;
      }
    }
  }
}
