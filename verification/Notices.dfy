/** What a wallet can reconstruct from the notifications it gets. */
module Notices {
  import opened Prelude
  import opened History
  import opened WatcherRuns

  /** The receiver's view: each notification overwrites the height of its transaction. */
  function Fold(start: Heights, ns: seq<Ranked>): Heights {
    if ns == [] then start
    else
      var x := ns[|ns| - 1];
      Fold(start, ns[..|ns| - 1])[x.txid := x.height]
  }

  lemma {:induction false} FoldConcat(start: Heights, a: seq<Ranked>, b: seq<Ranked>)
    ensures Fold(start, a + b) == Fold(Fold(start, a), b)
    decreases |b|
  {
    if b == [] {
      assert a + b == a;
    } else {
      var n := |b| - 1;
      assert (a + b)[..|a + b| - 1] == a + b[..n];
      FoldConcat(start, a, b[..n]);
    }
  }

  lemma {:induction false} FoldMisses(start: Heights, ns: seq<Ranked>, t: Txid)
    requires Absent(ns, t)
    ensures (t in Fold(start, ns) <==> t in start) && (t in start ==> Fold(start, ns)[t] == start[t])
    decreases |ns|
  {
    if ns != [] {
      FoldMisses(start, ns[..|ns| - 1], t);
    }
  }

  predicate Absent(ns: seq<Ranked>, t: Txid) {
    forall i :: 0 <= i < |ns| ==> ns[i].txid != t
  }

  /** Where an enumeration lists a transaction, and that it does so nowhere else. */
  lemma Located(ns: seq<Ranked>, d: Heights, t: Txid) returns (a: seq<Ranked>, b: seq<Ranked>)
    requires Enumerates(ns, d) && t in d
    ensures ns == a + ([Ranked(t, d[t])] + b) && Absent(a, t) && Absent(b, t)
  {
    assert Ranked(t, d[t]) in ns;
    var i :| 0 <= i < |ns| && ns[i] == Ranked(t, d[t]);
    a, b := ns[..i], ns[i + 1..];
  }

  lemma NotListed(ns: seq<Ranked>, d: Heights, t: Txid)
    requires Enumerates(ns, d) && t !in d
    ensures Absent(ns, t)
  {
    forall i | 0 <= i < |ns| ensures ns[i].txid != t {
      assert ns[i] in ns;
    }
  }

  lemma FoldOne(start: Heights, x: Ranked)
    ensures Fold(start, [x]) == start[x.txid := x.height]
  {
    assert [x][..0] == [];
  }

  lemma FoldStep(start: Heights, ns: seq<Ranked>, d: Heights, t: Txid)
    requires Enumerates(ns, d)
    ensures t in Fold(start, ns) <==> t in start + d
    ensures t in Fold(start, ns) ==> Fold(start, ns)[t] == (start + d)[t]
  {
    if t in d {
      var a, b := Located(ns, d, t);
      var x := Ranked(t, d[t]);
      FoldConcat(start, a, [x] + b);
      FoldConcat(Fold(start, a), [x], b);
      FoldOne(Fold(start, a), x);
      FoldMisses(Fold(start, a)[t := d[t]], b, t);
      hide Enumerates, Fold, Absent;
    } else {
      NotListed(ns, d, t);
      FoldMisses(start, ns, t);
    }
  }

  /** In whatever order one step's notifications come, folding them in is the map union. */
  lemma FoldIsUnion(start: Heights, ns: seq<Ranked>, d: Heights)
    requires Enumerates(ns, d)
    ensures Fold(start, ns) == start + d
  {
    hide Enumerates, Fold;
    forall t {
      FoldStep(start, ns, d, t);
    }
  }

  /** A history of snapshots, and what each transition makes the watcher send. */
  ghost predicate Told(snaps: seq<Heights>, outs: seq<seq<Ranked>>) {
    |snaps| == |outs| + 1
    && forall k :: 0 <= k < |outs| ==> Enumerates(outs[k], DiffMap(Some(snaps[k]), snaps[k + 1]))
  }

  lemma ToldNext(snaps: seq<Heights>, outs: seq<seq<Ranked>>)
    requires Told(snaps, outs) && outs != []
    ensures var n := |outs| - 1;
      Told(snaps[..n + 1], outs[..n])
      && Fold(snaps[0], Flatten(outs))
         == Fold(snaps[0], Flatten(outs[..n])) + DiffMap(Some(snaps[n]), snaps[n + 1])
  {
    var n := |outs| - 1;
    FoldConcat(snaps[0], Flatten(outs[..n]), outs[n]);
    FoldIsUnion(Fold(snaps[0], Flatten(outs[..n])), outs[n], DiffMap(Some(snaps[n]), snaps[n + 1]));
  }

  /**
   Through reorganizations and dropped transactions, folding all notifications onto the first
   snapshot covers the current one and marks confirmed all that is confirmed now.
   */
  lemma {:induction false} FoldCovers(snaps: seq<Heights>, outs: seq<seq<Ranked>>)
    requires Told(snaps, outs)
    ensures var view, now := Fold(snaps[0], Flatten(outs)), snaps[|outs|];
      forall t :: t in now ==> t in view && (now[t] > 0 ==> view[t] > 0)
    decreases |outs|
  {
    if outs != [] {
      var n := |outs| - 1;
      ToldNext(snaps, outs);
      FoldCovers(snaps[..n + 1], outs[..n]);
      hide Fold, Told;
    }
  }

  /** Transactions neither vanish nor become unconfirmed. */
  ghost predicate Steady(snaps: seq<Heights>) {
    forall i, j :: 0 <= i < j < |snaps| ==> Keeps(snaps[i], snaps[j])
  }

  ghost predicate Keeps(before: Heights, after: Heights) {
    forall t :: t in before ==> t in after && (before[t] > 0 ==> after[t] > 0)
  }

  /** On a steady history the view has exactly the current transactions, confirmed exactly when they are. */
  lemma {:induction false} FoldIsExact(snaps: seq<Heights>, outs: seq<seq<Ranked>>)
    requires Told(snaps, outs) && Steady(snaps)
    ensures var view, now := Fold(snaps[0], Flatten(outs)), snaps[|outs|];
      view.Keys == now.Keys && forall t :: t in now ==> (now[t] > 0 <==> view[t] > 0)
    decreases |outs|
  {
    if outs != [] {
      var n := |outs| - 1;
      ToldNext(snaps, outs);
      FoldIsExact(snaps[..n + 1], outs[..n]);
      hide Fold, Told;
      assert Keeps(snaps[n], snaps[n + 1]);
    }
  }

  /** The heights notified for one transaction, in order. */
  function HeightsOf(ns: seq<Ranked>, t: Txid): seq<nat> {
    if ns == [] then []
    else
      var x := ns[|ns| - 1];
      HeightsOf(ns[..|ns| - 1], t) + if x.txid == t then [x.height] else []
  }

  lemma {:induction false} HeightsOfConcat(a: seq<Ranked>, b: seq<Ranked>, t: Txid)
    ensures HeightsOf(a + b, t) == HeightsOf(a, t) + HeightsOf(b, t)
    decreases |b|
  {
    if b == [] {
      assert a + b == a;
    } else {
      var n := |b| - 1;
      assert (a + b)[..|a + b| - 1] == a + b[..n];
      HeightsOfConcat(a, b[..n], t);
    }
  }

  predicate Distinct(ns: seq<Ranked>) {
    forall i, j :: 0 <= i < j < |ns| ==> ns[i].txid != ns[j].txid
  }

  lemma {:induction false} HeightsOfNone(ns: seq<Ranked>, t: Txid)
    requires Absent(ns, t)
    ensures HeightsOf(ns, t) == []
    decreases |ns|
  {
    if ns != [] {
      HeightsOfNone(ns[..|ns| - 1], t);
    }
  }

  lemma HeightsOfStep(ns: seq<Ranked>, d: Heights, t: Txid)
    requires Enumerates(ns, d)
    ensures HeightsOf(ns, t) == if t in d then [d[t]] else []
  {
    if t in d {
      var a, b := Located(ns, d, t);
      var x := Ranked(t, d[t]);
      HeightsOfConcat(a, [x] + b, t);
      HeightsOfConcat([x], b, t);
      HeightsOfNone(a, t);
      HeightsOfNone(b, t);
      HeightsOfOne(x);
      hide Enumerates, HeightsOf, Absent;
    } else {
      NotListed(ns, d, t);
      HeightsOfNone(ns, t);
    }
  }

  lemma HeightsOfOne(x: Ranked)
    ensures HeightsOf([x], x.txid) == [x.height]
  {
    assert [x][..0] == [];
  }

  /** What has been told about a transaction, given how it stands now. */
  ghost predicate InOrder(hs: seq<nat>, now: Heights, t: Txid) {
    if t !in now then hs == []
    else if now[t] == 0 then hs == [] || hs == [0]
    else hs == [] || (|hs| == 1 && hs[0] > 0) || (|hs| == 2 && hs[0] == 0 && hs[1] > 0)
  }

  /**
   On a steady history each transaction gets at most one mempool notice, then at most one
   confirmed notice, and a confirmed one last if it was ever noticed and is confirmed now.
   */
  lemma {:induction false} NoticesInOrder(snaps: seq<Heights>, outs: seq<seq<Ranked>>, t: Txid)
    requires Told(snaps, outs) && Steady(snaps)
    ensures InOrder(HeightsOf(Flatten(outs), t), snaps[|outs|], t)
    decreases |outs|
  {
    if outs != [] {
      var n := |outs| - 1;
      assert Told(snaps[..n + 1], outs[..n]) && Keeps(snaps[n], snaps[n + 1]);
      NoticesInOrder(snaps[..n + 1], outs[..n], t);
      HeightsOfConcat(Flatten(outs[..n]), outs[n], t);
      HeightsOfStep(outs[n], DiffMap(Some(snaps[n]), snaps[n + 1]), t);
      hide HeightsOf, Told, InOrder, Keeps, Steady, DiffMap, Enumerates;
      InOrderStep(HeightsOf(Flatten(outs[..n]), t), snaps[n], snaps[n + 1], t);
    }
  }

  lemma InOrderStep(hs: seq<nat>, before: Heights, after: Heights, t: Txid)
    requires InOrder(hs, before, t) && Keeps(before, after)
    ensures var d := DiffMap(Some(before), after); InOrder(hs + (if t in d then [d[t]] else []), after, t)
  {
  }

  // ---------------------------------------------------------------- from the log to the view

  /** One wallet's notifications. */
  function OfWallet(xs: seq<Notice>, wallet: string): seq<Ranked> {
    if xs == [] then []
    else
      var x := xs[|xs| - 1];
      OfWallet(xs[..|xs| - 1], wallet) + if x.wallet == wallet then [Ranked(x.txid, x.height)] else []
  }

  lemma {:induction false} OfWalletConcat(a: seq<Notice>, b: seq<Notice>, wallet: string)
    ensures OfWallet(a + b, wallet) == OfWallet(a, wallet) + OfWallet(b, wallet)
    decreases |b|
  {
    if b == [] {
      assert a + b == a;
    } else {
      var n := |b| - 1;
      assert (a + b)[..|a + b| - 1] == a + b[..n];
      OfWalletConcat(a, b[..n], wallet);
    }
  }

  lemma {:induction false} OfWalletIs(xs: seq<Notice>, wallet: string, r: Ranked)
    ensures r in OfWallet(xs, wallet) <==> exists a :: Notice(wallet, r.txid, r.height, a) in xs
    decreases |xs|
  {
    if xs != [] {
      var n := |xs| - 1;
      var front, x := xs[..n], xs[n];
      OfWalletIs(front, wallet, r);
      assert xs == front + [x];
      if x.wallet == wallet && r == Ranked(x.txid, x.height) {
        assert x == Notice(wallet, r.txid, r.height, x.addresses);
      }
      if r in OfWallet(front, wallet) {
        var a :| Notice(wallet, r.txid, r.height, a) in front;
        assert Notice(wallet, r.txid, r.height, a) in xs;
      }
    }
  }

  lemma {:induction false} OfWalletDistinct(xs: seq<Notice>, wallet: string)
    requires forall i, j :: 0 <= i < j < |xs| ==> xs[i].wallet != xs[j].wallet || xs[i].txid != xs[j].txid
    ensures Distinct(OfWallet(xs, wallet))
    decreases |xs|
  {
    if xs != [] {
      var n := |xs| - 1;
      var front, x := xs[..n], xs[n];
      OfWalletDistinct(front, wallet);
      var rs := OfWallet(front, wallet);
      forall i | 0 <= i < |rs| ensures x.wallet == wallet ==> rs[i].txid != x.txid {
        OfWalletIs(front, wallet, rs[i]);
        assert rs[i] in rs;
        var a :| Notice(wallet, rs[i].txid, rs[i].height, a) in front;
        var m :| 0 <= m < n && front[m] == Notice(wallet, rs[i].txid, rs[i].height, a);
        assert xs[m].wallet != xs[n].wallet || xs[m].txid != xs[n].txid;
      }
    }
  }

  lemma OfWalletEnumerates(xs: seq<Notice>, before: Known, after: Known, wallet: string)
    requires DiffOrder(xs, before, after) && wallet in before && wallet in after
    ensures Enumerates(OfWallet(xs, wallet), DiffMap(Some(before[wallet]), after[wallet]))
  {
    OfWalletDistinct(xs, wallet);
    var d := DiffMap(Some(before[wallet]), after[wallet]);
    forall r ensures r in OfWallet(xs, wallet) <==> r.txid in d && d[r.txid] == r.height {
      OfWalletIs(xs, wallet, r);
      if r in OfWallet(xs, wallet) {
        var a :| Notice(wallet, r.txid, r.height, a) in xs;
        assert Implied(before, after, Notice(wallet, r.txid, r.height, a));
      }
      if r.txid in d && d[r.txid] == r.height {
        assert Implied(before, after, Notice(wallet, r.txid, r.height, []));
      }
    }
  }

  function Each(os: seq<seq<Notice>>, wallet: string): (r: seq<seq<Ranked>>)
    ensures |r| == |os| && forall k :: 0 <= k < |r| ==> r[k] == OfWallet(os[k], wallet)
  {
    seq(|os|, k requires 0 <= k < |os| => OfWallet(os[k], wallet))
  }

  lemma {:induction false} OfWalletFlatten(os: seq<seq<Notice>>, wallet: string)
    ensures OfWallet(Flatten(os), wallet) == Flatten(Each(os, wallet))
    decreases |os|
  {
    if os != [] {
      var n := |os| - 1;
      OfWalletFlatten(os[..n], wallet);
      assert Each(os, wallet)[..n] == Each(os[..n], wallet);
      OfWalletConcat(Flatten(os[..n]), os[n], wallet);
    }
  }

  lemma ChainOf(l: Ledger)
    requires Chain(l)
    ensures |l.fs| == |l.os| + 1 && forall k :: 0 <= k < |l.os| ==> DiffOrder(l.os[k], l.fs[k], l.fs[k + 1])
  {
    hide DiffOrder;
  }

  /** A wallet that no tick forgets stays known, in memory, in the file and in every version. */
  lemma {:induction false} StaysKnown(file: Known, es: seq<Step>, wallet: string)
    requires wallet in file && forall e :: e in es && e.Forget? ==> wallet in e.keep
    ensures var s, l := After(Booted(file), es), Booked(Booted(file), es);
      && wallet in s.mem && wallet in s.file
      && l.fs[0] == file && forall k :: 0 <= k < |l.fs| ==> wallet in l.fs[k]
    decreases |es|
  {
    if es != [] {
      var k := |es| - 1;
      StaysKnown(file, es[..k], wallet);
      var s, l := After(Booted(file), es[..k]), Booked(Booted(file), es[..k]);
      assert es[k] in es;
      hide *;
      StepKeeps(s, l, es[k], wallet);
      BookedLast(file, es);
    }
  }

  lemma BookedLast(file: Known, es: seq<Step>)
    requires es != []
    ensures var k := |es| - 1;
      var s, l := After(Booted(file), es[..k]), Booked(Booted(file), es[..k]);
      After(Booted(file), es) == Next(s, es[k]) && Booked(Booted(file), es) == Entered(l, s, es[k])
  {
  }

  lemma StepKeeps(s: State, l: Ledger, e: Step, wallet: string)
    requires Balanced(l) && wallet in s.mem && wallet in s.file && (forall k :: 0 <= k < |l.fs| ==> wallet in l.fs[k])
    requires e.Forget? ==> wallet in e.keep
    ensures var s', l' := Next(s, e), Entered(l, s, e);
      && wallet in s'.mem && wallet in s'.file && l'.fs[0] == l.fs[0]
      && forall k :: 0 <= k < |l'.fs| ==> wallet in l'.fs[k]
  {
  }

  /**
   For a wallet that is in the file at the start and in the watch store at the end of every tick, in a run
   without crashes and lost sends: the notifications it got, folded onto the first snapshot, cover the last one.
   */
  lemma ToldEverything(file: Known, es: seq<Step>, wallet: string)
    requires Run(Booted(file), es) && NothingLost(es) && Idle(After(Booted(file), es))
    requires wallet in file && forall e :: e in es && e.Forget? ==> wallet in e.keep
    ensures var end := After(Booted(file), es);
      wallet in end.mem
      && var view, now := Fold(file[wallet], OfWallet(end.log, wallet)), end.mem[wallet];
         forall t :: t in now ==> t in view && (now[t] > 0 ==> view[t] > 0)
  {
    var b := Booted(file);
    var fs, os := Booked(b, es).fs, Booked(b, es).os;
    StaysKnown(file, es, wallet);
    InvHolds(file, es);
    LogIsComplete(file, es);
    ChainOf(Booked(b, es));
    hide *;
    OfWalletFlatten(os, wallet);
    var snaps := Snapshots(fs, wallet);
    ToldOne(fs, os, wallet);
    FoldCovers(snaps, Each(os, wallet));
  }

  /** One wallet's part of each version. */
  function Snapshots(fs: seq<Known>, wallet: string): (snaps: seq<Heights>)
    requires forall k :: 0 <= k < |fs| ==> wallet in fs[k]
    ensures |snaps| == |fs| && forall k :: 0 <= k < |fs| ==> snaps[k] == fs[k][wallet]
  {
    seq(|fs|, k requires 0 <= k < |fs| => fs[k][wallet])
  }

  lemma ToldOne(fs: seq<Known>, os: seq<seq<Notice>>, wallet: string)
    requires forall k :: 0 <= k < |fs| ==> wallet in fs[k]
    requires |fs| == |os| + 1 && forall k :: 0 <= k < |os| ==> DiffOrder(os[k], fs[k], fs[k + 1])
    ensures Told(Snapshots(fs, wallet), Each(os, wallet))
  {
    hide Snapshots, DiffOrder, Enumerates, DiffMap, Each;
    var snaps := Snapshots(fs, wallet);
    forall k | 0 <= k < |os|
      ensures Enumerates(Each(os, wallet)[k], DiffMap(Some(snaps[k]), snaps[k + 1]))
    {
      OfWalletEnumerates(os[k], fs[k], fs[k + 1], wallet);
    }
  }
}
