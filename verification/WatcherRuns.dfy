/**
 The watcher as a step machine (watcher.rs): a snapshot is put in memory together with the
 notifications it implies, then written to disk, then the notifications are sent one by one. The
 server may crash between any two steps and reload the file.
 */
module WatcherRuns {
  import opened Prelude
  import opened History

  /** The last known heights, per wallet. */
  type Known = map<string, Heights>

  datatype Notice = Notice(wallet: string, txid: Txid, height: nat, addresses: seq<string>)

  /** What a transition from `known` to `current` makes worth telling: new transactions, and confirmations. */
  function DiffMap(known: Option<Heights>, current: Heights): Heights {
    match known
    case None => map[]
    case Some(k) => map t | t in current && (t !in k || (k[t] == 0 && current[t] > 0)) :: current[t]
  }

  function Lookup(known: Known, wallet: string): Option<Heights> {
    if wallet in known then Some(known[wallet]) else None
  }

  /** The transition from one file to the next implies this notification. */
  predicate Implied(before: Known, after: Known, x: Notice) {
    x.wallet in after
    && var d := DiffMap(Lookup(before, x.wallet), after[x.wallet]); x.txid in d && d[x.txid] == x.height
  }

  /** Each notification the transition implies, once, in some order. */
  ghost predicate DiffOrder(xs: seq<Notice>, before: Known, after: Known) {
    && (forall x :: x in xs ==> Implied(before, after, x))
    && (forall w, t, h :: Implied(before, after, Notice(w, t, h, [])) ==> exists a :: Notice(w, t, h, a) in xs)
    && (forall i, j :: 0 <= i < j < |xs| ==> xs[i].wallet != xs[j].wallet || xs[i].txid != xs[j].txid)
  }

  /** `dirty`: memory is ahead of the file. `pending`: notifications still to be sent. `log`: those sent. */
  datatype State = State(mem: Known, file: Known, dirty: bool, pending: seq<Notice>, log: seq<Notice>)

  datatype Step =
    | Observe(wallet: string, current: Heights, deltas: seq<Notice>)
    | Forget(keep: set<string>)
    | Persist(written: bool)
    | Send(delivered: bool)
    | QueryFailed
    | Crash

  predicate Idle(s: State) {
    !s.dirty && s.pending == []
  }

  function Restricted(m: Known, keep: set<string>): Known {
    map w | w in m && w in keep :: m[w]
  }

  ghost predicate Enabled(s: State, e: Step) {
    match e
    case Observe(wallet, current, deltas) => Idle(s) && DiffOrder(deltas, s.mem, s.mem[wallet := current])
    case Forget(_) => Idle(s)
    case Persist(_) => s.dirty
    case Send(_) => !s.dirty && s.pending != []
    case QueryFailed => Idle(s)
    case Crash => true
  }

  function Next(s: State, e: Step): State {
    match e
    case Observe(wallet, current, deltas) => s.(mem := s.mem[wallet := current], dirty := true, pending := deltas)
    case Forget(keep) => s.(mem := Restricted(s.mem, keep), dirty := Restricted(s.mem, keep) != s.mem)
    case Persist(written) => s.(file := if written then s.mem else s.file, dirty := false)
    case Send(delivered) =>
      if s.pending == [] then s
      else s.(pending := s.pending[1..], log := if delivered then s.log + [s.pending[0]] else s.log)
    case QueryFailed => s
    case Crash => s.(mem := s.file, dirty := false, pending := [])
  }

  function After(start: State, es: seq<Step>): State {
    if es == [] then start else Next(After(start, es[..|es| - 1]), es[|es| - 1])
  }

  ghost predicate Run(start: State, es: seq<Step>) {
    es == [] || (Run(start, es[..|es| - 1]) && Enabled(After(start, es[..|es| - 1]), es[|es| - 1]))
  }

  /** A server that has just started with this file. */
  function Booted(file: Known): State {
    State(file, file, false, [], [])
  }

  lemma RunSnoc(start: State, es: seq<Step>, e: Step)
    requires Run(start, es) && Enabled(After(start, es), e)
    ensures Run(start, es + [e]) && After(start, es + [e]) == Next(After(start, es), e)
  {
    assert (es + [e])[..|es|] == es;
  }

  lemma {:induction false} RunConcat(start: State, a: seq<Step>, b: seq<Step>)
    requires Run(start, a) && Run(After(start, a), b)
    ensures Run(start, a + b) && After(start, a + b) == After(After(start, a), b)
    decreases |b|
  {
    if b == [] {
      assert a + b == a;
    } else {
      var n := |b| - 1;
      assert (a + b)[..|a + b| - 1] == a + b[..n];
      RunConcat(start, a, b[..n]);
    }
  }

  // ---------------------------------------------------------------- what was implied, what was sent

  /**
   The books of a run: the successive versions of the memory, the initial file first; for each version
   after the first the notifications queued for it; how many of these versions the file covers; and the
   notifications sent for versions it does not cover. A crash takes back the versions not covered.
   */
  datatype Ledger = Ledger(fs: seq<Known>, os: seq<seq<Notice>>, saved: nat, risk: seq<Notice>)

  predicate Balanced(l: Ledger) {
    |l.fs| == |l.os| + 1 && l.saved <= |l.os| && (l.saved == |l.os| ==> l.risk == [])
  }

  function Entered(l: Ledger, s: State, e: Step): (l': Ledger)
    requires Balanced(l)
    ensures Balanced(l')
  {
    match e
    case Persist(written) =>
      var n := |l.os| + 1;
      if written then Ledger(l.fs + [s.mem], l.os + [s.pending], n, []) else Ledger(l.fs + [s.mem], l.os + [s.pending], l.saved, l.risk)
    case Send(delivered) =>
      if delivered && s.pending != [] && l.saved < |l.os| then l.(risk := l.risk + [s.pending[0]]) else l
    case Crash => Ledger(l.fs[..l.saved + 1], l.os[..l.saved], l.saved, [])
    case Observe(_, _, _) => l
    case Forget(_) => l
    case QueryFailed => l
  }

  function Booked(start: State, es: seq<Step>): (l: Ledger)
    ensures Balanced(l)
  {
    if es == [] then Ledger([start.file], [], 0, [])
    else Entered(Booked(start, es[..|es| - 1]), After(start, es[..|es| - 1]), es[|es| - 1])
  }

  /** Each version follows from the one before by exactly the notifications queued for it. */
  ghost predicate Chain(l: Ledger) {
    |l.fs| == |l.os| + 1 && forall k :: 0 <= k < |l.os| ==> DiffOrder(l.os[k], l.fs[k], l.fs[k + 1])
  }

  /** No crash comes when something was sent for a version that the file does not cover. */
  ghost predicate SafeCrashes(start: State, es: seq<Step>) {
    forall i :: 0 <= i < |es| && es[i].Crash? ==> Booked(start, es[..i]).risk == []
  }

  /** `a` is obtained from `b` by leaving elements out. */
  predicate Subsequence<T(==)>(a: seq<T>, b: seq<T>)
    decreases |b|
  {
    if a == [] then true
    else if b == [] then false
    else
      var m, n := |a| - 1, |b| - 1;
      (a[m] == b[n] && Subsequence(a[..m], b[..n])) || Subsequence(a, b[..n])
  }

  lemma SubsequenceKeep<T>(a: seq<T>, b: seq<T>, x: T)
    requires Subsequence(a, b)
    ensures Subsequence(a + [x], b + [x]) && Subsequence(a, b + [x])
  {
    assert (a + [x])[..|a|] == a && (b + [x])[..|b|] == b;
  }

  lemma {:induction false} SubsequenceExtend<T>(a: seq<T>, b: seq<T>, c: seq<T>)
    requires Subsequence(a, b)
    ensures Subsequence(a, b + c)
    decreases |c|
  {
    hide Subsequence;
    if c == [] {
      assert b + c == b;
    } else {
      var n := |c| - 1;
      SubsequenceExtend(a, b, c[..n]);
      SubsequenceKeep(a, b + c[..n], c[n]);
      assert b + c[..n] + [c[n]] == b + c;
    }
  }

  /** Leaving elements out never repeats one. */
  lemma {:induction false} SubsequenceCounts<T>(a: seq<T>, b: seq<T>)
    requires Subsequence(a, b)
    ensures multiset(a) <= multiset(b)
    decreases |b|
  {
    if a != [] {
      var m, n := |a| - 1, |b| - 1;
      assert b == b[..n] + [b[n]] && a == a[..m] + [a[m]];
      if a[m] == b[n] && Subsequence(a[..m], b[..n]) {
        SubsequenceCounts(a[..m], b[..n]);
      } else {
        SubsequenceCounts(a, b[..n]);
      }
    }
  }

  /** What has been sent for the versions that the file covers. */
  ghost predicate Settled(log: seq<Notice>, l: Ledger)
    requires Balanced(l)
  {
    var n := |log| - |l.risk|;
    0 <= n && log[n..] == l.risk && Subsequence(log[..n], Flatten(l.os[..l.saved]))
  }

  /** What holds of every reachable state when crashes are safe. */
  ghost predicate Inv(s: State, l: Ledger)
    requires Balanced(l)
  {
    && Chain(l) && s.file == l.fs[l.saved] && Settled(s.log, l)
    && (if s.dirty then DiffOrder(s.pending, l.fs[|l.os|], s.mem) && Subsequence(s.log, Flatten(l.os))
        else s.mem == l.fs[|l.os|] && exists done :: Dealt(Flatten(l.os), done, s.pending, s.log))
  }

  /** Of all notifications implied, those in `done` were dealt with: the log holds some of them. */
  ghost predicate Dealt(all: seq<Notice>, done: seq<Notice>, pending: seq<Notice>, log: seq<Notice>) {
    all == done + pending && Subsequence(log, done)
  }

  lemma DealtNext(all: seq<Notice>, done: seq<Notice>, pending: seq<Notice>, log: seq<Notice>)
    requires Dealt(all, done, pending, log) && pending != []
    ensures Dealt(all, done + [pending[0]], pending[1..], log)
    ensures Dealt(all, done + [pending[0]], pending[1..], log + [pending[0]])
  {
    SubsequenceKeep(log, done, pending[0]);
    hide Subsequence;
    assert done + [pending[0]] + pending[1..] == done + pending;
  }

  lemma FlattenSnoc(os: seq<seq<Notice>>, o: seq<Notice>)
    ensures Flatten(os + [o]) == Flatten(os) + o
  {
    assert (os + [o])[..|os|] == os;
  }

  lemma NothingForgotten(before: Known, after: Known)
    requires forall w :: w in after ==> w in before && after[w] == before[w]
    ensures DiffOrder([], before, after)
  {
    forall w, t, h ensures !Implied(before, after, Notice(w, t, h, [])) {
    }
  }

  lemma InvPersist(s: State, l: Ledger, written: bool)
    requires Balanced(l) && Inv(s, l) && s.dirty
    ensures Inv(Next(s, Persist(written)), Entered(l, s, Persist(written)))
  {
    SettledPersist(s, l, written);
    ChainPersist(s, l, written);
    DealtPersist(s, l, written);
    hide Chain, DiffOrder, Settled, Dealt, Subsequence, Flatten;
  }

  lemma DealtPersist(s: State, l: Ledger, written: bool)
    requires Balanced(l) && Subsequence(s.log, Flatten(l.os))
    ensures exists done :: Dealt(Flatten(Entered(l, s, Persist(written)).os), done, s.pending, s.log)
  {
    FlattenSnoc(l.os, s.pending);
    hide Subsequence, Flatten;
    assert Dealt(Flatten(Entered(l, s, Persist(written)).os), Flatten(l.os), s.pending, s.log);
  }

  lemma ChainPersist(s: State, l: Ledger, written: bool)
    requires Balanced(l) && Chain(l) && DiffOrder(s.pending, l.fs[|l.os|], s.mem)
    ensures Chain(Entered(l, s, Persist(written)))
  {
    hide DiffOrder;
    var l' := Entered(l, s, Persist(written));
    forall k | 0 <= k < |l'.os| ensures DiffOrder(l'.os[k], l'.fs[k], l'.fs[k + 1]) {
    }
  }

  lemma SettledPersist(s: State, l: Ledger, written: bool)
    requires Balanced(l) && Settled(s.log, l) && Subsequence(s.log, Flatten(l.os))
    ensures Settled(s.log, Entered(l, s, Persist(written)))
  {
    var l' := Entered(l, s, Persist(written));
    FlattenSnoc(l.os, s.pending);
    SubsequenceExtend(s.log, Flatten(l.os), s.pending);
    hide Subsequence, Flatten;
    if written {
      assert l'.os[..|l'.os|] == l'.os && s.log[..|s.log|] == s.log;
    } else {
      assert l'.os[..l.saved] == l.os[..l.saved];
    }
  }

  lemma InvSend(s: State, l: Ledger, delivered: bool)
    requires Balanced(l) && Inv(s, l) && !s.dirty && s.pending != []
    ensures Inv(Next(s, Send(delivered)), Entered(l, s, Send(delivered)))
  {
    var done :| Dealt(Flatten(l.os), done, s.pending, s.log);
    DealtNext(Flatten(l.os), done, s.pending, s.log);
    SettledSend(s, l, delivered, done);
    hide DiffOrder, Subsequence, Flatten, Dealt, Settled;
  }

  lemma RiskGrows(log: seq<Notice>, l: Ledger, x: Notice)
    requires Balanced(l) && Settled(log, l) && l.saved < |l.os|
    ensures Settled(log + [x], l.(risk := l.risk + [x]))
  {
    hide Subsequence, Flatten;
    var n := |log| - |l.risk|;
    assert (log + [x])[..n] == log[..n] && (log + [x])[n..] == log[n..] + [x];
  }

  /** When the file covers every version, all that was sent is settled. */
  lemma CoveredIsSettled(log: seq<Notice>, l: Ledger)
    requires Balanced(l) && l.saved == |l.os| && Subsequence(log, Flatten(l.os))
    ensures Settled(log, l)
  {
    hide Subsequence, Flatten;
    assert l.os[..l.saved] == l.os && log[..|log|] == log;
  }

  lemma DealtIsSubsequence(all: seq<Notice>, done: seq<Notice>, pending: seq<Notice>, log: seq<Notice>)
    requires Dealt(all, done, pending, log)
    ensures Subsequence(log, all)
  {
    SubsequenceExtend(log, done, pending);
  }

  lemma CoveredGrows(log: seq<Notice>, l: Ledger, done: seq<Notice>, pending: seq<Notice>)
    requires Balanced(l) && l.saved == |l.os| && pending != [] && Dealt(Flatten(l.os), done, pending, log)
    ensures Settled(log + [pending[0]], l)
  {
    hide *;
    DealtNext(Flatten(l.os), done, pending, log);
    DealtIsSubsequence(Flatten(l.os), done + [pending[0]], pending[1..], log + [pending[0]]);
    CoveredIsSettled(log + [pending[0]], l);
  }

  lemma SettledSend(s: State, l: Ledger, delivered: bool, done: seq<Notice>)
    requires Balanced(l) && Settled(s.log, l) && s.pending != [] && Dealt(Flatten(l.os), done, s.pending, s.log)
    ensures Settled(Next(s, Send(delivered)).log, Entered(l, s, Send(delivered)))
  {
    hide Settled, Dealt, Flatten;
    if delivered {
      if l.saved < |l.os| {
        RiskGrows(s.log, l, s.pending[0]);
      } else {
        CoveredGrows(s.log, l, done, s.pending);
      }
    }
  }

  lemma InvCrash(s: State, l: Ledger)
    requires Balanced(l) && Inv(s, l) && l.risk == []
    ensures Inv(Next(s, Crash), Entered(l, s, Crash))
  {
    var l' := Entered(l, s, Crash);
    hide DiffOrder, Subsequence, Flatten;
    assert s.log[..|s.log|] == s.log && l'.os[..l.saved] == l'.os;
    forall k | 0 <= k < |l'.os| ensures DiffOrder(l'.os[k], l'.fs[k], l'.fs[k + 1]) {
      assert l'.os[k] == l.os[k] && l'.fs[k] == l.fs[k] && l'.fs[k + 1] == l.fs[k + 1];
    }
    assert Flatten(l'.os) + [] == Flatten(l'.os);
    assert Dealt(Flatten(l'.os), Flatten(l'.os), [], s.log);
  }

  lemma InvRest(s: State, l: Ledger, e: Step)
    requires Balanced(l) && Inv(s, l) && Enabled(s, e) && !e.Persist? && !e.Send? && !e.Crash?
    ensures Inv(Next(s, e), Entered(l, s, e))
  {
    var all := Flatten(l.os);
    var done :| Dealt(all, done, s.pending, s.log);
    if e.Forget? {
      NothingForgotten(s.mem, Restricted(s.mem, e.keep));
    }
    hide DiffOrder, Subsequence, Flatten, Settled;
    assert done + [] == done;
    assert Subsequence(s.log, all);
  }

  lemma {:induction false} InvHolds(file: Known, es: seq<Step>)
    requires Run(Booted(file), es) && SafeCrashes(Booted(file), es)
    ensures var b := Booted(file); Inv(After(b, es), Booked(b, es))
    decreases |es|
  {
    var b := Booted(file);
    if es == [] {
      assert Dealt(Flatten(Booked(b, es).os), [], [], []);
    } else {
      var k := |es| - 1;
      var s, l, e := After(b, es[..k]), Booked(b, es[..k]), es[k];
      SafePrefix(b, es);
      InvHolds(file, es[..k]);
      hide Inv;
      if e.Persist? {
        InvPersist(s, l, e.written);
      } else if e.Send? {
        InvSend(s, l, e.delivered);
      } else if e.Crash? {
        InvCrash(s, l);
      } else {
        InvRest(s, l, e);
      }
    }
  }

  lemma SafePrefix(start: State, es: seq<Step>)
    requires SafeCrashes(start, es) && es != []
    ensures SafeCrashes(start, es[..|es| - 1])
    ensures es[|es| - 1].Crash? ==> Booked(start, es[..|es| - 1]).risk == []
  {
    var front := es[..|es| - 1];
    forall i | 0 <= i < |front| && front[i].Crash? ensures Booked(start, front[..i]).risk == [] {
      assert front[..i] == es[..i] && es[i].Crash?;
    }
  }

  /**
   Whatever queries, sends and writes fail: as long as crashes are safe, the log of notifications is a
   subsequence of those implied by the successive versions, each implied once, and so no transition is
   notified twice.
   */
  lemma LogIsSubsequence(file: Known, es: seq<Step>)
    requires Run(Booted(file), es) && SafeCrashes(Booted(file), es)
    ensures var b := Booted(file); var l, log := Booked(b, es), After(b, es).log;
      Chain(l) && Subsequence(log, Flatten(l.os)) && multiset(log) <= multiset(Flatten(l.os))
  {
    InvHolds(file, es);
    var b := Booted(file);
    var s, os := After(b, es), Booked(b, es).os;
    if !s.dirty {
      var done :| Dealt(Flatten(os), done, s.pending, s.log);
      SubsequenceExtend(s.log, done, s.pending);
    }
    SubsequenceCounts(s.log, Flatten(os));
  }

  /** The latest write, if any, succeeded. */
  predicate LastPersistWritten(es: seq<Step>) {
    if es == [] then true
    else if es[|es| - 1].Persist? then es[|es| - 1].written
    else LastPersistWritten(es[..|es| - 1])
  }

  lemma {:induction false} WrittenCoversAll(start: State, es: seq<Step>)
    requires LastPersistWritten(es)
    ensures Booked(start, es).saved == |Booked(start, es).os|
    decreases |es|
  {
    if es != [] && !es[|es| - 1].Persist? {
      WrittenCoversAll(start, es[..|es| - 1]);
    }
  }

  /** In particular a crash is safe when the latest write before it succeeded. */
  lemma WrittenIsSafe(start: State, es: seq<Step>)
    requires forall i :: 0 <= i < |es| && es[i].Crash? ==> LastPersistWritten(es[..i])
    ensures SafeCrashes(start, es)
  {
    forall i | 0 <= i < |es| && es[i].Crash? ensures Booked(start, es[..i]).risk == [] {
      WrittenCoversAll(start, es[..i]);
    }
  }

  // ---------------------------------------------------------------- what an unsafe crash repeats

  /** The steps since the file last covered the memory, without the sends it covers. */
  function Again(start: State, es: seq<Step>): seq<Step> {
    if es == [] then []
    else
      var front, e := es[..|es| - 1], es[|es| - 1];
      var l := Booked(start, front);
      if e.Crash? || (e.Persist? && e.written) then []
      else if e.Send? && l.saved == |l.os| then Again(start, front)
      else Again(start, front) + [e]
  }

  /** What the file and the memory have to do with the versions, in every run. */
  ghost predicate Tallies(s: State, l: Ledger)
    requires Balanced(l)
  {
    s.file == l.fs[l.saved] && (!s.dirty ==> s.mem == l.fs[|l.os|])
  }

  lemma TallyStep(s: State, l: Ledger, e: Step)
    requires Balanced(l) && Tallies(s, l) && Enabled(s, e)
    ensures Tallies(Next(s, e), Entered(l, s, e))
  {
    hide DiffOrder;
  }

  lemma {:induction false} TalliesHold(file: Known, es: seq<Step>)
    requires Run(Booted(file), es)
    ensures Tallies(After(Booted(file), es), Booked(Booted(file), es))
    decreases |es|
  {
    if es != [] {
      var b, k := Booted(file), |es| - 1;
      TalliesHold(file, es[..k]);
      TallyStep(After(b, es[..k]), Booked(b, es[..k]), es[k]);
      hide Tallies, Enabled;
    }
  }

  /** Where the repetition stands when the run stands at `s`. */
  function Repeated(s: State, l: Ledger, log: seq<Notice>): State {
    State(s.mem, s.file, s.dirty, if l.saved == |l.os| && !s.dirty then [] else s.pending, log + l.risk)
  }

  lemma RepeatStep(s: State, l: Ledger, e: Step, log: seq<Notice>)
    requires Balanced(l) && Tallies(s, l) && Enabled(s, e) && !e.Crash? && !(e.Persist? && e.written)
    ensures var t, t' := Repeated(s, l, log), Repeated(Next(s, e), Entered(l, s, e), log);
      if e.Send? && l.saved == |l.os| then t' == t else Enabled(t, e) && Next(t, e) == t'
  {
    hide DiffOrder;
    if e.Send? && e.delivered {
      assert log + (l.risk + [s.pending[0]]) == log + l.risk + [s.pending[0]];
    }
  }

  /** The steps since the file last covered the memory can all recur after a crash. */
  lemma {:induction false} AgainRuns(file: Known, es: seq<Step>, log: seq<Notice>)
    requires Run(Booted(file), es)
    ensures var b := Booted(file); var s, l, a := After(b, es), Booked(b, es), Again(b, es);
      var t := State(s.file, s.file, false, [], log);
      Run(t, a) && After(t, a) == Repeated(s, l, log)
    decreases |es|
  {
    var b := Booted(file);
    var s, l := After(b, es), Booked(b, es);
    var t := State(s.file, s.file, false, [], log);
    TalliesHold(file, es);
    if es == [] || es[|es| - 1].Crash? || (es[|es| - 1].Persist? && es[|es| - 1].written) {
      assert log + [] == log;
      assert Run(t, []) && After(t, []) == t;
    } else {
      var k := |es| - 1;
      var e, s0, l0 := es[k], After(b, es[..k]), Booked(b, es[..k]);
      AgainRuns(file, es[..k], log);
      TalliesHold(file, es[..k]);
      RepeatStep(s0, l0, e, log);
      assert s.file == s0.file;
      hide Run, After, Enabled, Next, Repeated, Tallies, Booked;
      if !(e.Send? && l0.saved == |l0.os|) {
        RunSnoc(t, Again(b, es[..k]), e);
      }
    }
  }

  lemma {:induction false} AgainRepeats(start: State, es: seq<Step>)
    ensures forall e :: e in Again(start, es) ==> e in es && !e.Crash?
    decreases |es|
  {
    if es != [] {
      AgainRepeats(start, es[..|es| - 1]);
      hide Booked;
    }
  }

  /** The log ends with what was sent for versions the file does not cover. */
  predicate EndsWithRisk(log: seq<Notice>, l: Ledger) {
    |l.risk| <= |log| && log[|log| - |l.risk|..] == l.risk
  }

  lemma RiskStep(s: State, l: Ledger, e: Step)
    requires Balanced(l) && EndsWithRisk(s.log, l) && Enabled(s, e)
    ensures EndsWithRisk(Next(s, e).log, Entered(l, s, e))
  {
    hide DiffOrder;
    if e.Send? && e.delivered {
      var n, log := |s.log| - |l.risk|, s.log + [s.pending[0]];
      assert log[n..] == s.log[n..] + [s.pending[0]];
    }
  }

  lemma {:induction false} RiskWasSent(file: Known, es: seq<Step>)
    requires Run(Booted(file), es)
    ensures EndsWithRisk(After(Booted(file), es).log, Booked(Booted(file), es))
    decreases |es|
  {
    if es != [] {
      var b, k := Booted(file), |es| - 1;
      RiskWasSent(file, es[..k]);
      RiskStep(After(b, es[..k]), Booked(b, es[..k]), es[k]);
      hide EndsWithRisk, Enabled, Next;
    }
  }

  /**
   An unsafe crash repeats: if after it the backend shows again what it showed since the file last covered
   the memory, then exactly the notifications sent for uncovered versions, the last ones in the log, are
   sent a second time. That is nothing if and only if the crash is safe.
   */
  lemma UnsafeCrashRepeats(file: Known, es: seq<Step>)
    requires Run(Booted(file), es)
    ensures var b := Booted(file); var log, risk, again := After(b, es).log, Booked(b, es).risk, Again(b, es);
      Run(b, es + [Crash] + again)
      && After(b, es + [Crash] + again).log == log + risk
      && |risk| <= |log| && log[|log| - |risk|..] == risk
      && forall e :: e in again ==> e in es && !e.Crash?
  {
    var b := Booted(file);
    RunSnoc(b, es, Crash);
    AgainRuns(file, es, After(b, es).log);
    AgainRepeats(b, es);
    RiskWasSent(file, es);
    hide Run, After, Booked, Again;
    RunConcat(b, es + [Crash], Again(b, es));
  }

  // ---------------------------------------------------------------- nothing lost

  ghost predicate NothingLost(es: seq<Step>) {
    forall i :: 0 <= i < |es| ==> !es[i].Crash? && (es[i].Send? ==> es[i].delivered)
  }

  /** What has been sent and what is still queued make up what was implied so far. */
  ghost predicate Accounted(s: State, all: seq<Notice>) {
    all == if s.dirty then s.log else s.log + s.pending
  }

  lemma SentStep(s: State, e: Step, all: seq<Notice>)
    requires Accounted(s, all) && Enabled(s, e) && !e.Crash? && (e.Send? ==> e.delivered)
    ensures Accounted(Next(s, e), if e.Persist? then all + s.pending else all)
  {
    hide DiffOrder, Restricted;
    if e.Send? {
      assert s.log + [s.pending[0]] + s.pending[1..] == s.log + s.pending;
    }
    assert s.log + [] == s.log;
  }

  lemma {:induction false} SentSoFar(file: Known, es: seq<Step>)
    requires Run(Booted(file), es) && NothingLost(es)
    ensures Accounted(After(Booted(file), es), Flatten(Booked(Booted(file), es).os))
    decreases |es|
  {
    var b := Booted(file);
    if es != [] {
      var k := |es| - 1;
      var s, l := After(b, es[..k]), Booked(b, es[..k]);
      SentSoFar(file, es[..k]);
      SentStep(s, es[k], Flatten(l.os));
      hide Flatten, Enabled, Next, Accounted;
      if es[k].Persist? {
        FlattenSnoc(l.os, s.pending);
      }
    }
  }

  /** Without crashes and lost sends, an idle watcher has sent every implied notification, in order. */
  lemma LogIsComplete(file: Known, es: seq<Step>)
    requires Run(Booted(file), es) && NothingLost(es) && Idle(After(Booted(file), es))
    ensures After(Booted(file), es).log == Flatten(Booked(Booted(file), es).os)
  {
    SentSoFar(file, es);
    var log := After(Booted(file), es).log;
    assert log + [] == log;
  }

  /** A snapshot holding one unconfirmed transaction. */
  function OneUnconfirmed(t: Txid): Heights {
    map[t := 0]
  }

  lemma FirstDelta(file: Known, x: Notice)
    requires x.wallet in file && file[x.wallet] == map[] && x.height == 0
    ensures DiffOrder([x], file, file[x.wallet := OneUnconfirmed(x.txid)])
  {
    var after := file[x.wallet := OneUnconfirmed(x.txid)];
    assert Implied(file, after, x);
    forall w, t, h | Implied(file, after, Notice(w, t, h, [])) ensures Notice(w, t, h, x.addresses) in [x] {
      assert w == x.wallet && t == x.txid && h == 0;
    }
  }

  /** If writing the file fails, a crash makes the same transition notified again. */
  lemma LostWriteNotifiesTwice(x: Notice)
    requires x.height == 0
    ensures exists b, es :: Run(b, es) && Idle(b) && b.log == [] && After(b, es).log == [x, x]
  {
    var none: Heights := map[];
    var file: Known := map[x.wallet := none];
    var b, see := Booted(file), Observe(x.wallet, OneUnconfirmed(x.txid), [x]);
    FirstDelta(file, x);
    RunSnoc(b, [], see);
    var e1 := [] + [see];
    RunSnoc(b, e1, Persist(false));
    var e2 := e1 + [Persist(false)];
    RunSnoc(b, e2, Send(true));
    var e3 := e2 + [Send(true)];
    RunSnoc(b, e3, Crash);
    var e4 := e3 + [Crash];
    hide DiffOrder;
    assert After(b, e4) == State(file, file, false, [], [x]);
    RunSnoc(b, e4, see);
    var e5 := e4 + [see];
    RunSnoc(b, e5, Persist(true));
    var e6 := e5 + [Persist(true)];
    RunSnoc(b, e6, Send(true));
    assert After(b, e6 + [Send(true)]).log == [x, x];
  }
}
