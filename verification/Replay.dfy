/** The cache of envelope ids already seen, and its file (replay.rs). */
module Replay {
  import opened Prelude

  /** Ten days. */
  const RETENTION_SECS: nat := 10 * 24 * 3600

  type Seen = map<string, nat>

  /** Entries still inside the retention period. */
  function Pruned(seen: Seen, now: nat): Seen {
    map id | id in seen && SaturatingSub(now, seen[id]) < RETENTION_SECS :: seen[id]
  }

  predicate Fresh(seen: Seen, id: string, now: nat) {
    id !in Pruned(seen, now)
  }

  /** The cache in memory and the copy on disk. */
  datatype Cache = Cache(seen: Seen, file: Seen) {

    function Checked(id: string, now: nat, written: bool): Cache {
      var kept := Pruned(seen, now);
      if id in kept then Cache(kept, file)
      else
        var next := kept[id := now];
        Cache(next, if written then next else file)
    }

    function Restarted(): Cache {
      Cache(file, file)
    }
  }

  class ReplayCache {
    var seen: Seen
    var file: Seen

    ghost function State(): Cache
      reads this
    {
      Cache(seen, file)
    }

    constructor (file: Seen)
      ensures State() == Cache(file, file)
    {
      this.seen := file;
      this.file := file;
    }

    static method Load(read: FileRead<Seen>) returns (r: Option<ReplayCache>)
      ensures r.None? <==> read.Unreadable?
      ensures r.Some? ==> fresh(r.value)
      ensures read.Found? ==> r.Some? && r.value.State() == Cache(read.value, read.value)
      ensures read.Missing? ==> r.Some? && r.value.State() == Cache(map[], map[])
    {
      if read.Unreadable? {
        return None;
      }
      var c := new ReplayCache(if read.Found? then read.value else map[]);
      r := Some(c);
    }

    /** `written` tells whether writing the file and renaming it both succeed. */
    method CheckAndInsert(id: string, now: nat, written: bool) returns (isNew: bool)
      modifies this
      ensures isNew <==> Fresh(old(seen), id, now)
      ensures State() == old(State()).Checked(id, now, written)
      ensures isNew <==> id !in old(seen) || old(seen)[id] + 864_000 <= now
      ensures forall k :: k in seen <==> k == id || (k in old(seen) && now < old(seen)[k] + 864_000)
      ensures forall k :: k in seen ==> seen[k] == if k == id && isNew then now else old(seen)[k]
      ensures file == if isNew && written then seen else old(file)
    {
      seen := map k | k in seen && SaturatingSub(now, seen[k]) < RETENTION_SECS :: seen[k];
      if id in seen {
        return false;
      }
      seen := seen[id := now];
      if written {
        file := seen;
      }
      return true;
    }
  }

  // ---------------------------------------------------------------- runs

  /** `Idle` is anything that does not concern the cache. */
  datatype Event = Check(id: string, now: nat, written: bool) | Restart | Idle

  function Applied(c: Cache, e: Event): Cache {
    match e
    case Check(id, now, written) => c.Checked(id, now, written)
    case Restart => c.Restarted()
    case Idle => c
  }

  function After(es: seq<Event>): Cache {
    if es == [] then Cache(map[], map[]) else Applied(After(es[..|es| - 1]), es[|es| - 1])
  }

  lemma AfterSnoc(es: seq<Event>, e: Event)
    ensures After(es + [e]) == Applied(After(es), e)
  {
    assert (es + [e])[..|es|] == es;
  }

  /** The answer to event `i`: a check found its id new. */
  predicate Accepted(es: seq<Event>, i: nat)
    requires i < |es|
  {
    es[i].Check? && Fresh(After(es[..i]).seen, es[i].id, es[i].now)
  }

  /** The clock does not run backwards between checks. */
  ghost predicate Ordered(es: seq<Event>) {
    forall i, j :: 0 <= i < j < |es| && es[i].Check? && es[j].Check? ==> es[i].now <= es[j].now
  }

  /** `now` is not before any check. */
  ghost predicate Current(es: seq<Event>, now: nat) {
    forall i :: 0 <= i < |es| && es[i].Check? ==> es[i].now <= now
  }

  /** Event `i` accepted the id less than the retention period before `now`. */
  ghost predicate RecentAt(es: seq<Event>, i: int, id: string, now: nat) {
    0 <= i < |es| && Accepted(es, i) && es[i].id == id && now - es[i].now < 864_000
  }

  /** From check `i` on and before event `r`, some accepting check wrote the file. */
  ghost predicate Saved(es: seq<Event>, i: int, r: nat)
    requires 0 <= i && r <= |es|
  {
    exists j :: i <= j < r && Accepted(es, j) && es[j].written
  }

  /** Every restart after check `i` found it on disk. */
  ghost predicate Remembered(es: seq<Event>, i: int)
    requires 0 <= i
  {
    forall r :: i < r < |es| && es[r].Restart? ==> Saved(es, i, r)
  }

  ghost predicate AcceptedWithin(es: seq<Event>, id: string, now: nat) {
    exists i :: RecentAt(es, i, id, now)
  }

  /** The id was accepted recently, and no restart has lost it. */
  ghost predicate RememberedWithin(es: seq<Event>, id: string, now: nat) {
    exists i :: RecentAt(es, i, id, now) && Remembered(es, i)
  }

  /** Moreover a restart now would not lose it. */
  ghost predicate SavedWithin(es: seq<Event>, id: string, now: nat) {
    exists i :: RecentAt(es, i, id, now) && Remembered(es, i) && Saved(es, i, |es|)
  }

  // One event more

  lemma AcceptedPrefix(es: seq<Event>, k: nat, i: nat)
    requires i < k <= |es|
    ensures Accepted(es[..k], i) == Accepted(es, i)
  {
    assert es[..k][..i] == es[..i];
  }

  lemma RecentPrefix(es: seq<Event>, k: nat, i: int, id: string, now: nat)
    requires k <= |es|
    ensures RecentAt(es[..k], i, id, now) <==> i < k && RecentAt(es, i, id, now)
  {
    if 0 <= i < k {
      AcceptedPrefix(es, k, i);
    }
  }

  lemma SavedPrefix(es: seq<Event>, k: nat, i: nat, r: nat)
    requires r <= k <= |es|
    ensures Saved(es[..k], i, r) == Saved(es, i, r)
  {
    forall j | i <= j < r ensures Accepted(es[..k], j) == Accepted(es, j) {
      AcceptedPrefix(es, k, j);
    }
    if Saved(es, i, r) {
      var j :| i <= j < r && Accepted(es, j) && es[j].written;
      assert Accepted(es[..k], j) && es[..k][j].written;
    }
    if Saved(es[..k], i, r) {
      var j :| i <= j < r && Accepted(es[..k], j) && es[..k][j].written;
      assert Accepted(es, j) && es[j].written;
    }
  }

  lemma SavedNext(es: seq<Event>, i: nat)
    requires i < |es|
    ensures Saved(es, i, |es|) <==> Saved(es, i, |es| - 1) || (Accepted(es, |es| - 1) && es[|es| - 1].written)
  {
  }

  lemma RememberedPrefix(es: seq<Event>, k: nat, i: nat)
    requires k <= |es| && Remembered(es, i)
    ensures Remembered(es[..k], i)
  {
    forall r | i < r < k && es[r].Restart? ensures Saved(es[..k], i, r) {
      SavedPrefix(es, k, i, r);
    }
    hide Saved;
  }

  lemma RememberedNext(es: seq<Event>, i: nat)
    requires i < |es| - 1
    ensures var n := |es| - 1;
      Remembered(es, i) <==> Remembered(es[..n], i) && (es[n].Restart? ==> Saved(es[..n], i, n))
  {
    var n := |es| - 1;
    forall r | i < r <= n ensures Saved(es[..n], i, r) == Saved(es, i, r) {
      SavedPrefix(es, n, i, r);
    }
    hide Saved;
    if Remembered(es[..n], i) && (es[n].Restart? ==> Saved(es[..n], i, n)) {
      forall r | i < r < |es| && es[r].Restart? ensures Saved(es, i, r) {
        if r < n {
          assert es[..n][r].Restart?;
        }
      }
    }
    if Remembered(es, i) {
      RememberedPrefix(es, n, i);
    }
  }

  lemma AcceptedWithinNext(es: seq<Event>, id: string, now: nat)
    requires es != []
    ensures var n := |es| - 1;
      AcceptedWithin(es, id, now) <==> AcceptedWithin(es[..n], id, now) || RecentAt(es, n, id, now)
  {
    forall i ensures RecentAt(es[..|es| - 1], i, id, now) <==> i < |es| - 1 && RecentAt(es, i, id, now) {
      RecentPrefix(es, |es| - 1, i, id, now);
    }
    RecentIndex(es, id, now);
    hide RecentAt;
    if AcceptedWithin(es, id, now) {
      var i :| RecentAt(es, i, id, now);
      assert i < |es| - 1 ==> RecentAt(es[..|es| - 1], i, id, now);
    }
    if AcceptedWithin(es[..|es| - 1], id, now) {
      var i :| RecentAt(es[..|es| - 1], i, id, now);
      assert RecentAt(es, i, id, now);
    }
  }

  lemma RecentIndex(es: seq<Event>, id: string, now: nat)
    ensures forall i :: RecentAt(es, i, id, now) ==> 0 <= i < |es|
  {
  }

  lemma RememberedWithinNext(es: seq<Event>, id: string, now: nat)
    requires es != []
    ensures var n := |es| - 1;
      RememberedWithin(es, id, now) <==>
        if es[n].Restart? then SavedWithin(es[..n], id, now)
        else RememberedWithin(es[..n], id, now) || RecentAt(es, n, id, now)
  {
    var n := |es| - 1;
    forall i ensures RecentAt(es[..n], i, id, now) <==> i < n && RecentAt(es, i, id, now) {
      RecentPrefix(es, n, i, id, now);
    }
    RecentIndex(es, id, now);
    assert es[n].Restart? ==> !RecentAt(es, n, id, now);
    hide RecentAt, Saved;
    forall i: nat | i < n
      ensures Remembered(es, i) <==> Remembered(es[..n], i) && (es[n].Restart? ==> Saved(es[..n], i, n))
    {
      RememberedNext(es, i);
    }
    assert Remembered(es, n);
    hide Remembered;
    if RememberedWithin(es, id, now) {
      var i :| RecentAt(es, i, id, now) && Remembered(es, i);
      assert i < n ==> RecentAt(es[..n], i, id, now) && Remembered(es[..n], i);
    }
    if es[n].Restart? && SavedWithin(es[..n], id, now) {
      var i :| RecentAt(es[..n], i, id, now) && Remembered(es[..n], i) && Saved(es[..n], i, n);
      assert RecentAt(es, i, id, now) && Remembered(es, i);
    }
    if !es[n].Restart? && RememberedWithin(es[..n], id, now) {
      var i :| RecentAt(es[..n], i, id, now) && Remembered(es[..n], i);
      assert RecentAt(es, i, id, now) && Remembered(es, i);
    }
  }

  lemma SavedWithinNext(es: seq<Event>, id: string, now: nat)
    requires es != []
    ensures var n := |es| - 1;
      SavedWithin(es, id, now) <==>
        if Accepted(es, n) && es[n].written then RememberedWithin(es, id, now) else SavedWithin(es[..n], id, now)
  {
    var n := |es| - 1;
    forall i ensures RecentAt(es[..n], i, id, now) <==> i < n && RecentAt(es, i, id, now) {
      RecentPrefix(es, n, i, id, now);
    }
    RecentIndex(es, id, now);
    hide RecentAt;
    forall i: nat | i <= n
      ensures Saved(es, i, |es|) <==> Saved(es, i, n) || (Accepted(es, n) && es[n].written)
      ensures Saved(es, i, n) == Saved(es[..n], i, n)
    {
      SavedNext(es, i);
      SavedPrefix(es, n, i, n);
    }
    assert !Saved(es, n, n);
    forall i: nat | i < n
      ensures Remembered(es, i) <==> Remembered(es[..n], i) && (es[n].Restart? ==> Saved(es[..n], i, n))
    {
      RememberedNext(es, i);
    }
    hide Remembered, Saved, Accepted;
    if SavedWithin(es, id, now) {
      var i :| RecentAt(es, i, id, now) && Remembered(es, i) && Saved(es, i, |es|);
      assert !(Accepted(es, n) && es[n].written) ==> RecentAt(es[..n], i, id, now) && Remembered(es[..n], i) && Saved(es[..n], i, n);
    }
    if Accepted(es, n) && es[n].written {
      if RememberedWithin(es, id, now) {
        var i :| RecentAt(es, i, id, now) && Remembered(es, i);
        assert Saved(es, i, |es|);
      }
    } else if SavedWithin(es[..n], id, now) {
      var i :| RecentAt(es[..n], i, id, now) && Remembered(es[..n], i) && Saved(es[..n], i, n);
      assert RecentAt(es, i, id, now) && Remembered(es, i) && Saved(es, i, |es|);
    }
  }

  /** What one check changes, in memory and on disk. */
  lemma CheckedFresh(c: Cache, checked: string, at: nat, written: bool, id: string, now: nat)
    requires at <= now
    ensures var c', new' := c.Checked(checked, at, written), Fresh(c.seen, checked, at);
      (Fresh(c'.seen, id, now) <==> Fresh(c.seen, id, now) && !(new' && checked == id && now - at < RETENTION_SECS))
      && (Fresh(c'.file, id, now) <==> if new' && written then Fresh(c'.seen, id, now) else Fresh(c.file, id, now))
  {
  }

  /**
   The cache is exact, whichever writes fail: memory holds the ids accepted recently that no restart has
   lost, and the file those that a restart now would not lose.
   */
  lemma {:induction false} CacheIsHistory(es: seq<Event>, now: nat)
    requires Current(es, now)
    ensures forall id :: Fresh(After(es).seen, id, now) <==> !RememberedWithin(es, id, now)
    ensures forall id :: Fresh(After(es).file, id, now) <==> !SavedWithin(es, id, now)
    decreases |es|
  {
    if es != [] {
      var n := |es| - 1;
      var c := After(es[..n]);
      CacheIsHistory(es[..n], now);
      forall id
        ensures Fresh(After(es).seen, id, now) <==> !RememberedWithin(es, id, now)
        ensures Fresh(After(es).file, id, now) <==> !SavedWithin(es, id, now)
      {
        RememberedWithinNext(es, id, now);
        SavedWithinNext(es, id, now);
        if es[n].Check? {
          CheckedFresh(c, es[n].id, es[n].now, es[n].written, id, now);
        }
        hide RememberedWithin, SavedWithin, Fresh;
      }
    }
  }

  /**
   A check finds its id new if and only if no acceptance within the retention period is remembered: one
   is forgotten exactly at a restart that comes before any later accepting check wrote the file.
   */
  lemma CheckIsExact(es: seq<Event>, i: nat)
    requires Ordered(es) && i < |es| && es[i].Check?
    ensures Accepted(es, i) <==> !RememberedWithin(es[..i], es[i].id, es[i].now)
  {
    CacheIsHistory(es[..i], es[i].now);
  }

  /** Without restarts no write matters: failed ones leave the memory correct. */
  lemma MemoryNeedsNoWrites(es: seq<Event>, i: nat)
    requires Ordered(es) && i < |es| && es[i].Check? && forall r :: 0 <= r < i ==> !es[r].Restart?
    ensures Accepted(es, i) <==> !AcceptedWithin(es[..i], es[i].id, es[i].now)
  {
    CheckIsExact(es, i);
    AllRemembered(es[..i]);
  }

  lemma AllRemembered(es: seq<Event>)
    requires forall r :: 0 <= r < |es| ==> !es[r].Restart?
    ensures forall id, now :: RememberedWithin(es, id, now) <==> AcceptedWithin(es, id, now)
  {
    RecentIndexes(es);
    hide RecentAt;
    assert forall i :: 0 <= i ==> Remembered(es, i);
    forall id, now ensures RememberedWithin(es, id, now) <==> AcceptedWithin(es, id, now) {
      if AcceptedWithin(es, id, now) {
        var i :| RecentAt(es, i, id, now);
        assert Remembered(es, i);
      }
    }
  }

  lemma RecentIndexes(es: seq<Event>)
    ensures forall i, id, now :: RecentAt(es, i, id, now) ==> 0 <= i < |es|
  {
  }

  /** What is remembered is not accepted again. */
  lemma RememberedExcludes(es: seq<Event>, i: int, j: int, id: string, now: nat)
    requires Ordered(es) && Current(es, now) && i < j && RecentAt(es, i, id, now)
    requires 0 <= j <= |es| && Remembered(es[..j], i)
    ensures !RecentAt(es, j, id, now)
  {
    if RecentAt(es, j, id, now) {
      RecentPrefix(es, j, i, id, es[j].now);
      RememberedWitness(es[..j], i, id, es[j].now);
      CheckIsExact(es, j);
    }
  }

  lemma RememberedOnly(es: seq<Event>, i: int, j: int, id: string, now: nat)
    requires Ordered(es) && Current(es, now) && i < j && RecentAt(es, i, id, now) && Remembered(es, i)
    ensures !RecentAt(es, j, id, now)
  {
    if j <= |es| {
      RememberedPrefix(es, j, i);
      RememberedExcludes(es, i, j, id, now);
    }
  }

  lemma RememberedWitness(es: seq<Event>, i: int, id: string, now: nat)
    requires RecentAt(es, i, id, now) && Remembered(es, i)
    ensures RememberedWithin(es, id, now)
  {
    hide RecentAt, Remembered;
  }

  /**
   A restart makes the cache forget an id if and only if it was accepted within the retention period, is
   still remembered, and no accepting check since then wrote the file. It never makes it recall one.
   */
  lemma RestartForgets(es: seq<Event>, id: string, now: nat)
    requires Ordered(es) && Current(es, now)
    ensures var before, after := Fresh(After(es).seen, id, now), Fresh(After(es + [Restart]).seen, id, now);
      (before ==> after)
      && (after && !before <==> exists i :: RecentAt(es, i, id, now) && Remembered(es, i) && !Saved(es, i, |es|))
  {
    CacheIsHistory(es, now);
    AfterSnoc(es, Restart);
    RecentIndex(es, id, now);
    if i :| RecentAt(es, i, id, now) && Remembered(es, i) && !Saved(es, i, |es|) {
      if SavedWithin(es, id, now) {
        var j :| RecentAt(es, j, id, now) && Remembered(es, j) && Saved(es, j, |es|);
        if i < j {
          RememberedOnly(es, i, j, id, now);
        } else if j < i {
          RememberedOnly(es, j, i, id, now);
        }
      }
    }
    hide RecentAt, Remembered, Saved, Fresh;
  }

  // ---------------------------------------------------------------- the run without its restarts

  function WithoutRestarts(es: seq<Event>): (r: seq<Event>)
    ensures forall i :: 0 <= i < |r| ==> r[i].Check? && r[i] in es
  {
    if es == [] then []
    else WithoutRestarts(es[..|es| - 1]) + if es[|es| - 1].Check? then [es[|es| - 1]] else []
  }

  /** The answers to the checks, in order. */
  function Answers(es: seq<Event>): seq<bool> {
    if es == [] then []
    else
      var n := |es| - 1;
      Answers(es[..n]) + if es[n].Check? then [Accepted(es, n)] else []
  }

  /** Every recent acceptance of the id that check `c` asks for is remembered by then. */
  ghost predicate UnharmedAt(es: seq<Event>, c: nat)
    requires c < |es| && es[c].Check?
  {
    forall i :: RecentAt(es[..c], i, es[c].id, es[c].now) ==> Remembered(es[..c], i)
  }

  ghost predicate Unharmed(es: seq<Event>) {
    forall c :: 0 <= c < |es| && es[c].Check? ==> UnharmedAt(es, c)
  }

  lemma UnharmedPrefix(es: seq<Event>, k: nat)
    requires Unharmed(es) && k <= |es|
    ensures Unharmed(es[..k])
  {
    forall c | 0 <= c < k && es[c].Check? ensures UnharmedAt(es[..k], c) {
      assert es[..k][..c] == es[..c];
      assert UnharmedAt(es, c);
    }
  }

  lemma OrderedPrefix(es: seq<Event>)
    requires Ordered(es) && es != []
    ensures Ordered(es[..|es| - 1])
    ensures es[|es| - 1].Check? ==> Current(es[..|es| - 1], es[|es| - 1].now)
  {
  }

  lemma {:induction false} OrderedWithoutRestarts(es: seq<Event>)
    requires Ordered(es)
    ensures Ordered(WithoutRestarts(es))
  {
    if es != [] {
      var n := |es| - 1;
      OrderedPrefix(es);
      OrderedWithoutRestarts(es[..n]);
      if es[n].Check? {
        var r := WithoutRestarts(es[..n]);
        forall i | 0 <= i < |r| ensures r[i].now <= es[n].now {
          assert r[i] in es[..n];
        }
      }
    }
  }

  /** The last check of the run without restarts is answered from what was accepted before. */
  lemma LastWithoutRestarts(es: seq<Event>)
    requires Ordered(es) && es != [] && es[|es| - 1].Check?
    ensures var n := |es| - 1; var r := WithoutRestarts(es);
      |r| > 0 && r == WithoutRestarts(es[..n]) + [es[n]]
      && (Accepted(r, |r| - 1) <==> !AcceptedWithin(WithoutRestarts(es[..n]), es[n].id, es[n].now))
  {
    var r := WithoutRestarts(es);
    OrderedWithoutRestarts(es);
    MemoryNeedsNoWrites(r, |r| - 1);
    assert r[..|r| - 1] == WithoutRestarts(es[..|es| - 1]);
  }

  /** Unharmed, the last check is answered from what was accepted before. */
  lemma LastUnharmed(es: seq<Event>)
    requires Ordered(es) && es != [] && es[|es| - 1].Check? && UnharmedAt(es, |es| - 1)
    ensures var n := |es| - 1; Accepted(es, n) <==> !AcceptedWithin(es[..n], es[n].id, es[n].now)
  {
    var n := |es| - 1;
    CheckIsExact(es, n);
    hide RecentAt, Accepted;
  }

  /** An unharmed run and the same run without its restarts agree on what was accepted recently. */
  lemma {:induction false} SameHistory(es: seq<Event>, id: string, now: nat)
    requires Ordered(es) && Unharmed(es)
    ensures AcceptedWithin(es, id, now) <==> AcceptedWithin(WithoutRestarts(es), id, now)
    decreases |es|
  {
    if es != [] {
      var n := |es| - 1;
      var r := WithoutRestarts(es);
      OrderedPrefix(es);
      UnharmedPrefix(es, n);
      SameHistory(es[..n], id, now);
      AcceptedWithinNext(es, id, now);
      if es[n].Check? {
        SameHistory(es[..n], es[n].id, es[n].now);
        LastUnharmed(es);
        LastWithoutRestarts(es);
        AcceptedWithinNext(r, id, now);
        assert r[..|r| - 1] == WithoutRestarts(es[..n]);
        hide AcceptedWithin, Accepted;
      } else {
        assert !RecentAt(es, n, id, now);
        assert r == WithoutRestarts(es[..n]);
        hide AcceptedWithin;
      }
    }
  }

  lemma AnswersSnoc(es: seq<Event>, e: Event)
    ensures Answers(es + [e]) == Answers(es) + if e.Check? then [Accepted(es + [e], |es|)] else []
  {
    hide Accepted;
    assert (es + [e])[..|es|] == es;
  }

  lemma AnswersNext(es: seq<Event>)
    requires Ordered(es) && es != []
    ensures var n := |es| - 1; var r, r' := WithoutRestarts(es[..n]), WithoutRestarts(es);
      if es[n].Check?
      then Answers(es) == Answers(es[..n]) + [Accepted(es, n)]
        && Answers(r') == Answers(r) + [!AcceptedWithin(r, es[n].id, es[n].now)]
      else Answers(es) == Answers(es[..n]) && Answers(r') == Answers(r)
  {
    hide *;
    var n := |es| - 1;
    if es[n].Check? {
      LastWithoutRestarts(es);
      AnswersSnoc(WithoutRestarts(es[..n]), es[n]);
      assert es[..n] + [es[n]] == es;
      AnswersSnoc(es[..n], es[n]);
    } else {
      RestartsAnswerNothing(es);
    }
  }

  lemma RestartsAnswerNothing(es: seq<Event>)
    requires es != [] && !es[|es| - 1].Check?
    ensures Answers(es) == Answers(es[..|es| - 1]) && WithoutRestarts(es) == WithoutRestarts(es[..|es| - 1])
  {
    hide Accepted;
    assert Answers(es[..|es| - 1]) + [] == Answers(es[..|es| - 1]);
  }

  lemma {:induction false} SameAnswers(es: seq<Event>)
    requires Ordered(es) && Unharmed(es)
    ensures Answers(es) == Answers(WithoutRestarts(es))
    decreases |es|
  {
    if es != [] {
      var n := |es| - 1;
      OrderedPrefix(es);
      UnharmedPrefix(es, n);
      SameAnswers(es[..n]);
      AnswersNext(es);
      if es[n].Check? {
        SameHistory(es[..n], es[n].id, es[n].now);
        LastUnharmed(es);
      }
      hide AcceptedWithin, Accepted, WithoutRestarts, Ordered, Unharmed, Answers;
    }
  }

  lemma UnharmedExcludes(es: seq<Event>, i: int, j: int, id: string, now: nat)
    requires Ordered(es) && Current(es, now) && Unharmed(es) && i < j && RecentAt(es, i, id, now)
    ensures !RecentAt(es, j, id, now)
  {
    if RecentAt(es, j, id, now) {
      RecentPrefix(es, j, i, id, es[j].now);
      assert UnharmedAt(es, j);
      RememberedExcludes(es, i, j, id, now);
    }
  }

  /** If a check is answered as in the run without restarts, and all before it were unharmed, so is it. */
  lemma AnswerShowsHarm(es: seq<Event>)
    requires Ordered(es) && es != [] && es[|es| - 1].Check? && Unharmed(es[..|es| - 1])
    requires var n := |es| - 1; Accepted(es, n) <==> !AcceptedWithin(es[..n], es[n].id, es[n].now)
    ensures UnharmedAt(es, |es| - 1)
  {
    var n := |es| - 1;
    var front, id, now := es[..n], es[n].id, es[n].now;
    OrderedPrefix(es);
    CheckIsExact(es, n);
    forall i | RecentAt(front, i, id, now) ensures Remembered(front, i) {
      assert AcceptedWithin(front, id, now);
      var j :| RecentAt(front, j, id, now) && Remembered(front, j);
      if j < i {
        RememberedOnly(front, j, i, id, now);
      } else if i < j {
        UnharmedExcludes(front, i, j, id, now);
      }
    }
  }

  lemma {:induction false} AnswersShowHarm(es: seq<Event>)
    requires Ordered(es) && Answers(es) == Answers(WithoutRestarts(es))
    ensures Unharmed(es)
    decreases |es|
  {
    if es != [] {
      var n := |es| - 1;
      OrderedPrefix(es);
      SplitLast(es);
      AnswersShowHarm(es[..n]);
      hide Answers, WithoutRestarts, Unharmed, UnharmedAt, Ordered, Accepted, AcceptedWithin;
      if es[n].Check? {
        SameHistory(es[..n], es[n].id, es[n].now);
        AnswerShowsHarm(es);
      }
      UnharmedNext(es);
    }
  }

  lemma UnharmedNext(es: seq<Event>)
    requires es != [] && Unharmed(es[..|es| - 1]) && (es[|es| - 1].Check? ==> UnharmedAt(es, |es| - 1))
    ensures Unharmed(es)
  {
    var n := |es| - 1;
    forall c | 0 <= c < |es| && es[c].Check? ensures UnharmedAt(es, c) {
      if c < n {
        assert es[..n][..c] == es[..c];
        assert UnharmedAt(es[..n], c);
      }
    }
  }

  lemma SplitLast(es: seq<Event>)
    requires Ordered(es) && es != [] && Answers(es) == Answers(WithoutRestarts(es))
    ensures var n := |es| - 1;
      Answers(es[..n]) == Answers(WithoutRestarts(es[..n]))
      && (es[n].Check? ==> Accepted(es, n) == !AcceptedWithin(WithoutRestarts(es[..n]), es[n].id, es[n].now))
  {
    AnswersNext(es);
    var n := |es| - 1;
    var a, b := Answers(es[..n]), Answers(WithoutRestarts(es[..n]));
    hide Answers, AcceptedWithin, Accepted, WithoutRestarts;
    if es[n].Check? {
      var x, y := Accepted(es, n), !AcceptedWithin(WithoutRestarts(es[..n]), es[n].id, es[n].now);
      assert a + [x] == b + [y];
      assert (a + [x])[..|a|] == a && (b + [y])[..|b|] == b;
      assert (a + [x])[|a|] == x && (b + [y])[|b|] == y;
    }
  }

  /**
   Taking the restarts out of a run changes no answer if and only if, at every check, all recent
   acceptances of its id are remembered.
   */
  lemma RestartsAreInvisible(es: seq<Event>)
    requires Ordered(es)
    ensures Answers(es) == Answers(WithoutRestarts(es)) <==> Unharmed(es)
  {
    if Unharmed(es) {
      SameAnswers(es);
    }
    if Answers(es) == Answers(WithoutRestarts(es)) {
      AnswersShowHarm(es);
    }
  }

  /** Without a successful write the restart forgets: the same id is accepted twice a second apart. */
  lemma LostWriteForgets(id: string)
    ensures var es := [Check(id, 0, false), Restart, Check(id, 1, true)];
      Accepted(es, 0) && Accepted(es, 2)
  {
    var es := [Check(id, 0, false), Restart, Check(id, 1, true)];
    assert es[..0] == [] && es[..1] == [es[0]] && es[..2] == [es[0], es[1]];
    assert After(es[..2]) == After(es[..1]).Restarted() by {
      assert es[..2][..1] == es[..1];
    }
    assert After(es[..1]).file == map[] by {
      assert es[..1][..0] == [];
    }
  }
}
