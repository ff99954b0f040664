/** The watcher's code (watcher.rs): the chunked history query, the diff, and one tick. */
module Watcher {
  import opened Prelude
  import opened History
  import opened WatcherRuns
  import Store

  /** Addresses per history query. */
  const BATCH: nat := 200

  // ---------------------------------------------------------------- diff

  method Diff(known: Option<Heights>, current: Heights) returns (out: seq<Ranked>)
    ensures Enumerates(out, DiffMap(known, current))
  {
    out := [];
    if known.None? {
      return;
    }
    var todo := current.Keys;
    while todo != {}
      invariant todo <= current.Keys
      invariant forall x :: x in out <==>
        x.txid !in todo && x.txid in DiffMap(known, current) && DiffMap(known, current)[x.txid] == x.height
      invariant forall i, j :: 0 <= i < j < |out| ==> out[i].txid != out[j].txid
      decreases |todo|
    {
      var t :| t in todo;
      var height := current[t];
      assert forall i :: 0 <= i < |out| ==> out[i] in out;
      if t !in known.value || (known.value[t] == 0 && height > 0) {
        out := out + [Ranked(t, height)];
      }
      todo := todo - {t};
    }
  }

  // ---------------------------------------------------------------- the history query

  /** One history line as seen from one address. */
  datatype Sighting = Sighting(address: string, entry: Entry)

  function Sightings(address: string, hist: seq<Entry>): (s: seq<Sighting>)
    ensures |s| == |hist|
  {
    seq(|hist|, i requires 0 <= i < |hist| => Sighting(address, hist[i]))
  }

  /** Every history line, address by address. */
  function AllSightings(addrs: seq<string>, hs: seq<seq<Entry>>): seq<Sighting>
    requires |addrs| == |hs|
  {
    if hs == [] then []
    else
      var k := |hs| - 1;
      AllSightings(addrs[..k], hs[..k]) + Sightings(addrs[k], hs[k])
  }

  function EntriesOf(ss: seq<Sighting>): (es: seq<Entry>)
    ensures |es| == |ss|
  {
    seq(|ss|, i requires 0 <= i < |ss| => ss[i].entry)
  }

  /** The addresses that saw the transaction, in the order seen. */
  function Touching(ss: seq<Sighting>, t: Txid): seq<string> {
    if ss == [] then []
    else
      var x := ss[|ss| - 1];
      Touching(ss[..|ss| - 1], t) + if x.entry.txid == t then [x.address] else []
  }

  type Touched = map<Txid, seq<string>>

  ghost predicate IsTouched(touched: Touched, ss: seq<Sighting>) {
    forall t :: (t in touched <==> Touching(ss, t) != []) && (t in touched ==> touched[t] == Touching(ss, t))
  }

  lemma TouchingSnoc(ss: seq<Sighting>, x: Sighting, t: Txid)
    ensures Touching(ss + [x], t) == Touching(ss, t) + if x.entry.txid == t then [x.address] else []
  {
    assert (ss + [x])[..|ss|] == ss;
  }

  lemma {:induction false} TouchingIs(ss: seq<Sighting>, t: Txid, a: string)
    ensures a in Touching(ss, t) <==> exists x :: x in ss && x.address == a && x.entry.txid == t
    decreases |ss|
  {
    if ss != [] {
      var front, x := ss[..|ss| - 1], ss[|ss| - 1];
      TouchingIs(front, t, a);
      assert ss == front + [x];
    }
  }

  lemma InSightings(address: string, hist: seq<Entry>, x: Sighting)
    ensures x in Sightings(address, hist) <==> address == x.address && x.entry in hist
  {
    if x.entry in hist {
      var i :| 0 <= i < |hist| && hist[i] == x.entry;
      assert Sightings(address, hist)[i] == Sighting(address, x.entry);
    }
  }

  lemma {:induction false} SightingsAre(addrs: seq<string>, hs: seq<seq<Entry>>, x: Sighting)
    requires |addrs| == |hs|
    ensures x in AllSightings(addrs, hs) <==> exists i :: 0 <= i < |hs| && addrs[i] == x.address && x.entry in hs[i]
    decreases |hs|
  {
    if hs != [] {
      var k := |hs| - 1;
      SightingsAre(addrs[..k], hs[..k], x);
      InSightings(addrs[k], hs[k], x);
    }
  }

  lemma {:induction false} EntriesOfSightings(addrs: seq<string>, hs: seq<seq<Entry>>)
    requires |addrs| == |hs|
    ensures EntriesOf(AllSightings(addrs, hs)) == Flatten(hs)
    decreases |hs|
  {
    if hs != [] {
      var k := |hs| - 1;
      EntriesOfSightings(addrs[..k], hs[..k]);
      assert EntriesOf(Sightings(addrs[k], hs[k])) == hs[k];
    }
  }

  /**
   A transaction is listed with an address exactly when that address's history contains it; so every
   transaction in the snapshot comes with at least one address, all of them queried ones.
   */
  lemma TouchedIsExact(addrs: seq<string>, hs: seq<seq<Entry>>, t: Txid)
    requires |addrs| == |hs|
    ensures var ss := AllSightings(addrs, hs);
      (forall a :: a in Touching(ss, t) <==> exists i :: 0 <= i < |hs| && addrs[i] == a && Mentions(hs[i], t))
      && (t in Merged(Flatten(hs)) <==> Touching(ss, t) != [])
  {
    var ss := AllSightings(addrs, hs);
    forall a ensures a in Touching(ss, t) <==> exists i :: 0 <= i < |hs| && addrs[i] == a && Mentions(hs[i], t) {
      TouchingIs(ss, t, a);
      if a in Touching(ss, t) {
        var x :| x in ss && x.address == a && x.entry.txid == t;
        SightingsAre(addrs, hs, x);
      }
      if i :| 0 <= i < |hs| && addrs[i] == a && Mentions(hs[i], t) {
        var e :| e in hs[i] && e.txid == t;
        SightingsAre(addrs, hs, Sighting(a, e));
      }
    }
    NonEmptyTouch(addrs, hs, t);
  }

  lemma NonEmptyTouch(addrs: seq<string>, hs: seq<seq<Entry>>, t: Txid)
    requires |addrs| == |hs|
    ensures t in Merged(Flatten(hs)) <==> Touching(AllSightings(addrs, hs), t) != []
  {
    var ss := AllSightings(addrs, hs);
    EntriesOfSightings(addrs, hs);
    MergeIsMax(Flatten(hs));
    if t in Merged(Flatten(hs)) {
      assert HasHeight(Flatten(hs), t, Merged(Flatten(hs))[t]);
      var i :| 0 <= i < |ss| && EntriesOf(ss)[i].txid == t;
      assert ss[i] in ss;
      TouchingIs(ss, t, ss[i].address);
    }
    if Touching(ss, t) != [] {
      var a := Touching(ss, t)[0];
      TouchingIs(ss, t, a);
      var x :| x in ss && x.address == a && x.entry.txid == t;
      var i :| 0 <= i < |ss| && ss[i] == x;
      assert EntriesOf(ss)[i] in Flatten(hs);
    }
  }

  predicate Mentions(hist: seq<Entry>, t: Txid) {
    exists e :: e in hist && e.txid == t
  }

  function Min(a: nat, b: nat): nat {
    if a < b then a else b
  }

  /** `chunks(BATCH)`: the `i`th chunk. */
  function ChunkSize(n: nat, i: nat): nat {
    Min(n, (i + 1) * BATCH) - Min(n, i * BATCH)
  }

  function ChunkCount(n: nat): nat {
    (n + BATCH - 1) / BATCH
  }

  /** What the backend answers chunk by chunk: None is a failed query; otherwise one history per address, in order. */
  ghost predicate Answers(replies: seq<Option<seq<seq<Entry>>>>, n: nat) {
    |replies| == ChunkCount(n)
    && forall i :: 0 <= i < |replies| && replies[i].Some? ==> |replies[i].value| == ChunkSize(n, i)
  }

  ghost predicate AllAnswered(replies: seq<Option<seq<seq<Entry>>>>) {
    forall i :: 0 <= i < |replies| ==> replies[i].Some?
  }

  function Values<T>(xs: seq<Option<T>>): (r: seq<T>)
    requires forall i :: 0 <= i < |xs| ==> xs[i].Some?
    ensures |r| == |xs| && forall i :: 0 <= i < |r| ==> r[i] == xs[i].value
  {
    seq(|xs|, i requires 0 <= i < |xs| => xs[i].value)
  }

  /** All histories, one per address. */
  ghost function Histories(replies: seq<Option<seq<seq<Entry>>>>): seq<seq<Entry>>
    requires AllAnswered(replies)
  {
    Flatten(Values(replies))
  }

  lemma {:induction false} HistoriesLength(replies: seq<Option<seq<seq<Entry>>>>, n: nat, i: nat)
    requires Answers(replies, n) && i <= |replies| && AllAnswered(replies[..i])
    ensures |Histories(replies[..i])| == Min(n, i * BATCH)
  {
    if i > 0 {
      HistoriesLength(replies, n, i - 1);
      HistoriesNext(replies, i - 1);
    }
  }

  lemma HistoriesNext(replies: seq<Option<seq<seq<Entry>>>>, i: nat)
    requires i < |replies| && AllAnswered(replies[..i]) && replies[i].Some?
    ensures AllAnswered(replies[..i + 1])
    ensures Histories(replies[..i + 1]) == Histories(replies[..i]) + replies[i].value
  {
    var vs := Values(replies[..i + 1]);
    assert vs[..i] == Values(replies[..i]);
  }

  /** The two maps describe exactly the sightings so far. */
  ghost predicate Describe(current: Heights, touched: Touched, ss: seq<Sighting>) {
    current == Merged(EntriesOf(ss)) && IsTouched(touched, ss)
  }

  function Recorded(touched: Touched, x: Sighting): Touched {
    var t := x.entry.txid;
    touched[t := (if t in touched then touched[t] else []) + [x.address]]
  }

  lemma DescribeSnoc(current: Heights, touched: Touched, ss: seq<Sighting>, x: Sighting)
    requires Describe(current, touched, ss)
    ensures Describe(Added(current, x.entry), Recorded(touched, x), ss + [x])
  {
    assert EntriesOf(ss + [x]) == EntriesOf(ss) + [x.entry];
    MergedSnoc(EntriesOf(ss), x.entry);
    forall t ensures Touching(ss + [x], t) == Touching(ss, t) + if x.entry.txid == t then [x.address] else [] {
      TouchingSnoc(ss, x, t);
    }
  }

  /** The innermost loop: one address's history. */
  method See(before: Heights, touchedBefore: Touched, addr: string, hist: seq<Entry>, ghost ss: seq<Sighting>)
    returns (current: Heights, touched: Touched)
    requires Describe(before, touchedBefore, ss)
    ensures Describe(current, touched, ss + Sightings(addr, hist))
  {
    hide Describe;
    current, touched := before, touchedBefore;
    assert ss + Sightings(addr, hist[..0]) == ss;
    for m := 0 to |hist|
      invariant Describe(current, touched, ss + Sightings(addr, hist[..m]))
    {
      var h := hist[m];
      var txid := h.txid;
      var height := if h.height < 0 then 0 else h.height;
      ghost var done := ss + Sightings(addr, hist[..m]);
      DescribeSnoc(current, touched, done, Sighting(addr, h));
      assert ss + Sightings(addr, hist[..m + 1]) == done + [Sighting(addr, h)];
      if txid in current {
        current := current[txid := if current[txid] > height then current[txid] else height];
      } else {
        current := current[txid := height];
      }
      touched := touched[txid := (if txid in touched then touched[txid] else []) + [addr]];
    }
    assert hist[..|hist|] == hist;
  }

  lemma ChunkPosition(n: nat, i: nat, j: nat)
    requires i < ChunkCount(n) && j < ChunkSize(n, i)
    ensures i * BATCH + j < n && Min(n, i * BATCH) == i * BATCH
  {
  }

  lemma ChunksCover(n: nat)
    ensures Min(n, ChunkCount(n) * BATCH) == n
  {
  }

  lemma AllSightingsSnoc(addrs: seq<string>, hs: seq<seq<Entry>>, a: string, h: seq<Entry>)
    requires |addrs| == |hs|
    ensures AllSightings(addrs + [a], hs + [h]) == AllSightings(addrs, hs) + Sightings(a, h)
  {
    assert (addrs + [a])[..|hs|] == addrs && (hs + [h])[..|hs|] == hs;
  }

  /** The middle loop: the addresses of one chunk, found at index `i * BATCH + j`. */
  method SeeChunk(before: Heights, touchedBefore: Touched, addrOf: seq<string>, i: nat, histories: seq<seq<Entry>>,
                  ghost done: seq<seq<Entry>>)
    returns (current: Heights, touched: Touched)
    requires i < ChunkCount(|addrOf|) && |histories| == ChunkSize(|addrOf|, i) && |done| == Min(|addrOf|, i * BATCH)
    requires Describe(before, touchedBefore, AllSightings(addrOf[..|done|], done))
    ensures |done + histories| <= |addrOf|
    ensures Describe(current, touched, AllSightings(addrOf[..|done + histories|], done + histories))
  {
    hide Describe, AllSightings;
    current, touched := before, touchedBefore;
    assert done + histories[..0] == done;
    for j := 0 to |histories|
      invariant |done| + j <= |addrOf|
      invariant Describe(current, touched, AllSightings(addrOf[..|done| + j], done + histories[..j]))
    {
      ChunkPosition(|addrOf|, i, j);
      var addr := addrOf[i * BATCH + j];
      ghost var seen := done + histories[..j];
      AllSightingsSnoc(addrOf[..|seen|], seen, addr, histories[j]);
      assert addrOf[..|seen| + 1] == addrOf[..|seen|] + [addr];
      assert done + histories[..j + 1] == seen + [histories[j]];
      current, touched := See(current, touched, addr, histories[j], AllSightings(addrOf[..|seen|], seen));
    }
    assert histories[..|histories|] == histories;
  }

  /**
   The whole query, chunk by chunk: it fails if any chunk fails; otherwise the maps are those of the
   unchunked list of histories.
   */
  method Query(addrOf: seq<string>, replies: seq<Option<seq<seq<Entry>>>>)
    returns (ok: bool, current: Heights, touched: Touched)
    requires Answers(replies, |addrOf|)
    ensures ok <==> AllAnswered(replies)
    ensures ok ==> |Histories(replies)| == |addrOf|
    ensures ok ==> Describe(current, touched, AllSightings(addrOf, Histories(replies)))
  {
    hide Histories, AllSightings;
    current, touched := map[], map[];
    NothingSeen(addrOf[..0], replies[..0]);
    for i := 0 to |replies|
      invariant AllAnswered(replies[..i]) && |Histories(replies[..i])| == Min(|addrOf|, i * BATCH)
      invariant Describe(current, touched, AllSightings(addrOf[..Min(|addrOf|, i * BATCH)], Histories(replies[..i])))
    {
      if replies[i].None? {
        return false, current, touched;
      }
      HistoriesNext(replies, i);
      HistoriesLength(replies, |addrOf|, i + 1);
      current, touched := SeeChunk(current, touched, addrOf, i, replies[i].value, Histories(replies[..i]));
    }
    assert replies[..|replies|] == replies;
    ChunksCover(|addrOf|);
    assert addrOf[..|addrOf|] == addrOf;
    ok := true;
  }

  lemma NothingSeen(addrs: seq<string>, replies: seq<Option<seq<seq<Entry>>>>)
    requires |addrs| == 0 && |replies| == 0
    ensures |Histories(replies)| == 0 && Describe(map[], map[], AllSightings(addrs, Histories(replies)))
  {
  }

  // ---------------------------------------------------------------- ticks

  /** The addresses that parse on the server's network, in order. */
  function ValidOnly(valid: string -> bool, addrs: seq<string>): seq<string> {
    if addrs == [] then []
    else
      var a := addrs[|addrs| - 1];
      ValidOnly(valid, addrs[..|addrs| - 1]) + if valid(a) then [a] else []
  }

  lemma {:induction false} ValidOnlyIs(valid: string -> bool, addrs: seq<string>, a: string)
    ensures a in ValidOnly(valid, addrs) <==> a in addrs && valid(a)
    decreases |addrs|
  {
    if addrs != [] {
      ValidOnlyIs(valid, addrs[..|addrs| - 1], a);
      assert addrs == addrs[..|addrs| - 1] + [addrs[|addrs| - 1]];
    }
  }

  /** The notifications for the listed changes, each with the addresses its transaction touches. */
  function NoticesFor(wallet: string, deltas: seq<Ranked>, ss: seq<Sighting>): (ns: seq<Notice>)
    ensures |ns| == |deltas|
  {
    seq(|deltas|, i requires 0 <= i < |deltas| =>
      Notice(wallet, deltas[i].txid, deltas[i].height, Touching(ss, deltas[i].txid)))
  }

  lemma UnchangedIsSilent(m: Heights)
    ensures DiffMap(Some(m), m) == map[]
  {
  }

  lemma NoticesAreDiffOrder(known: Known, wallet: string, current: Heights, deltas: seq<Ranked>, ss: seq<Sighting>)
    requires Enumerates(deltas, DiffMap(Lookup(known, wallet), current))
    ensures DiffOrder(NoticesFor(wallet, deltas, ss), known, known[wallet := current])
  {
    var ns, after := NoticesFor(wallet, deltas, ss), known[wallet := current];
    forall i | 0 <= i < |ns| ensures Implied(known, after, ns[i]) {
      assert deltas[i] in deltas;
    }
    forall w, t, h | Implied(known, after, Notice(w, t, h, [])) ensures exists a :: Notice(w, t, h, a) in ns {
      if w != wallet {
        UnchangedIsSilent(known[w]);
      }
      assert Ranked(t, h) in deltas;
      var i :| 0 <= i < |deltas| && deltas[i] == Ranked(t, h);
      assert ns[i] in ns && ns[i] == Notice(wallet, t, h, ns[i].addresses);
    }
  }

  /**
   Every notification of a tick names at least one address, only addresses from the watch set, and exactly
   those whose history has the transaction.
   */
  lemma NoticesNameWatchedAddresses(valid: string -> bool, wallet: string, addrs: seq<string>, hs: seq<seq<Entry>>,
                                    known: Option<Heights>, deltas: seq<Ranked>, i: nat)
    requires |hs| == |ValidOnly(valid, addrs)| && i < |deltas|
    requires Enumerates(deltas, DiffMap(known, Merged(Flatten(hs))))
    ensures var used := ValidOnly(valid, addrs);
      var n := NoticesFor(wallet, deltas, AllSightings(used, hs))[i];
      && n.addresses != [] && (forall a :: a in n.addresses ==> a in addrs && valid(a))
      && forall a :: a in n.addresses <==> exists j :: 0 <= j < |hs| && used[j] == a && Mentions(hs[j], n.txid)
  {
    var used := ValidOnly(valid, addrs);
    assert deltas[i] in deltas;
    TouchedIsExact(used, hs, deltas[i].txid);
    forall a | a in Touching(AllSightings(used, hs), deltas[i].txid) ensures a in addrs && valid(a) {
      ValidOnlyIs(valid, addrs, a);
    }
  }

  predicate Confirms(hist: seq<Entry>, t: Txid) {
    exists e :: e in hist && e.txid == t && e.height > 0
  }

  lemma {:induction false} SomeMentions(hs: seq<seq<Entry>>, t: Txid)
    ensures t in Merged(Flatten(hs)) <==> exists h :: h in hs && Mentions(h, t)
    ensures t in Merged(Flatten(hs)) && Merged(Flatten(hs))[t] > 0 <==> exists h :: h in hs && Confirms(h, t)
  {
    var m, all := Merged(Flatten(hs)), Flatten(hs);
    MergeIsMax(all);
    forall e ensures e in all <==> exists h :: h in hs && e in h {
      InFlatten(hs, e);
    }
    hide Merged, Flatten;
    if t in m {
      assert HasHeight(all, t, m[t]);
      var e :| e in all && e.txid == t && Clamp(e.height) == m[t];
      var h :| h in hs && e in h;
      assert Mentions(h, t) && (m[t] > 0 ==> Confirms(h, t));
    }
  }

  /**
   A transaction is notified if and only if the wallet was observed before, some address's history now has
   it, and it was unseen, or seen unconfirmed and is confirmed now. So only a wallet's first observation is
   silent: an address added later tells all of its history that was unseen, however old.
   */
  lemma NotifiedIff(known: Option<Heights>, hs: seq<seq<Entry>>, t: Txid)
    ensures t in DiffMap(known, Merged(Flatten(hs))) <==>
      known.Some? && (exists h :: h in hs && Mentions(h, t))
      && (t !in known.value || (known.value[t] == 0 && exists h :: h in hs && Confirms(h, t)))
  {
    SomeMentions(hs, t);
    hide Merged, Flatten, Mentions, Confirms;
  }

  /** What happens around one wallet's tick: backend answers, the file write, which sends go through. */
  datatype TickIo = TickIo(replies: seq<Option<seq<seq<Entry>>>>, written: bool, delivered: nat -> bool)

  ghost predicate WellPosed(valid: string -> bool, addrs: seq<string>, io: TickIo) {
    Answers(io.replies, |ValidOnly(valid, addrs)|)
  }

  /** The steps of one tick of one wallet. */
  ghost function TickSteps(valid: string -> bool, wallet: string, addrs: seq<string>, io: TickIo, deltas: seq<Ranked>): seq<Step>
    requires WellPosed(valid, addrs, io)
  {
    if addrs == [] then []
    else if !AllAnswered(io.replies) then [QueryFailed]
    else
      HistoriesPerAddress(valid, addrs, io);
      var hs := Histories(io.replies);
      var ns := NoticesFor(wallet, deltas, AllSightings(ValidOnly(valid, addrs), hs));
      [Observe(wallet, Merged(Flatten(hs)), ns), Persist(io.written)] + Sends(|ns|, io.delivered)
  }

  function Sends(n: nat, delivered: nat -> bool): (s: seq<Step>)
    ensures |s| == n
  {
    seq(n, i requires 0 <= i => Send(delivered(i)))
  }

  /** The notifications among the first `n` that go through. */
  function Delivered(ns: seq<Notice>, n: nat, delivered: nat -> bool): seq<Notice>
    requires n <= |ns|
  {
    if n == 0 then [] else Delivered(ns, n - 1, delivered) + if delivered(n - 1) then [ns[n - 1]] else []
  }

  lemma {:induction false} SendsRun(s: State, ns: seq<Notice>, n: nat, delivered: nat -> bool)
    requires !s.dirty && s.pending == ns && n <= |ns|
    ensures Run(s, Sends(n, delivered))
    ensures After(s, Sends(n, delivered)) == s.(pending := ns[n..], log := s.log + Delivered(ns, n, delivered))
  {
    if n == 0 {
      assert s.log + [] == s.log;
    } else {
      SendsRun(s, ns, n - 1, delivered);
      assert Sends(n, delivered) == Sends(n - 1, delivered) + [Send(delivered(n - 1))];
      RunSnoc(s, Sends(n - 1, delivered), Send(delivered(n - 1)));
      hide Run, After;
      var d := Delivered(ns, n - 1, delivered);
      assert ns[n - 1..][1..] == ns[n..];
      assert s.log + d + [ns[n - 1]] == s.log + (d + [ns[n - 1]]);
      assert d + [] == d;
    }
  }

  lemma ObserveThenPersist(s: State, wallet: string, current: Heights, ns: seq<Notice>, written: bool)
    requires Idle(s) && DiffOrder(ns, s.mem, s.mem[wallet := current])
    ensures var es, mem := [Observe(wallet, current, ns), Persist(written)], s.mem[wallet := current];
      Run(s, es) && After(s, es) == State(mem, if written then mem else s.file, false, ns, s.log)
  {
    var e0, e1 := Observe(wallet, current, ns), Persist(written);
    RunSnoc(s, [], e0);
    RunSnoc(s, [e0], e1);
    assert [] + [e0] == [e0] && [e0] + [e1] == [e0, e1];
  }

  lemma TickRuns(s: State, wallet: string, current: Heights, ns: seq<Notice>, written: bool, delivered: nat -> bool)
    requires Idle(s) && DiffOrder(ns, s.mem, s.mem[wallet := current])
    ensures var es := [Observe(wallet, current, ns), Persist(written)] + Sends(|ns|, delivered);
      var mem := s.mem[wallet := current];
      Run(s, es) && After(s, es)
        == State(mem, if written then mem else s.file, false, [], s.log + Delivered(ns, |ns|, delivered))
  {
    ObserveThenPersist(s, wallet, current, ns, written);
    hide DiffOrder, Run, After, Sends, Delivered;
    var es := [Observe(wallet, current, ns), Persist(written)];
    SendsRun(After(s, es), ns, |ns|, delivered);
    RunConcat(s, es, Sends(|ns|, delivered));
  }

  /** The snapshot that a wallet's answered queries give. */
  ghost function Seen(io: TickIo): Heights
    requires AllAnswered(io.replies)
  {
    Merged(Flatten(Histories(io.replies)))
  }

  lemma SeenIs(io: TickIo)
    requires AllAnswered(io.replies)
    ensures Seen(io) == Merged(Flatten(Histories(io.replies)))
  {
  }

  /** What one wallet's tick sends, with the changes in the order of `deltas`. */
  ghost function SentFor(valid: string -> bool, wallet: string, addrs: seq<string>, io: TickIo, deltas: seq<Ranked>): seq<Notice>
    requires WellPosed(valid, addrs, io)
  {
    if addrs == [] || !AllAnswered(io.replies) then []
    else
      HistoriesPerAddress(valid, addrs, io);
      var ns := NoticesFor(wallet, deltas, AllSightings(ValidOnly(valid, addrs), Histories(io.replies)));
      Delivered(ns, |ns|, io.delivered)
  }

  lemma RestrictedSize(m: Known, keep: set<string>)
    ensures |Restricted(m, keep)| == |m| <==> Restricted(m, keep) == m
  {
    var r := Restricted(m, keep);
    assert r.Keys <= m.Keys;
    if |r| == |m| {
      assert m.Keys == r.Keys + (m.Keys - r.Keys);
      assert r.Keys == m.Keys;
    }
  }

  class Watcher {
    var state: Known
    var file: Known
    var log: seq<Notice>

    /** Between ticks nothing is queued; memory may differ from the file after a failed write. */
    ghost function Quiet(): State
      reads this
    {
      State(state, file, false, [], log)
    }

    constructor (file: Known)
      ensures Quiet() == Booted(file)
    {
      state := file;
      this.file := file;
      log := [];
    }

    static method Load(read: FileRead<Known>) returns (r: Option<Watcher>)
      ensures r.None? <==> read.Unreadable?
      ensures r.Some? ==> fresh(r.value) && r.value.log == []
      ensures read.Found? ==> r.Some? && r.value.state == r.value.file == read.value
      ensures read.Missing? ==> r.Some? && r.value.state == r.value.file == map[]
      ensures r.Some? ==> r.value.Quiet() == Booted(r.value.file)
    {
      if read.Unreadable? {
        return None;
      }
      var w := new Watcher(if read.Found? then read.value else map[]);
      r := Some(w);
    }

    method Persist(written: bool)
      modifies this`file
      ensures file == if written then state else old(file)
    {
      if written {
        file := state;
      }
    }

    /** Send what is queued; a send that fails is logged and forgotten. */
    method SendAll(wallet: string, out: seq<Ranked>, touched: Touched, delivered: nat -> bool, ghost ss: seq<Sighting>)
      requires IsTouched(touched, ss)
      modifies this`log
      ensures log == old(log) + Delivered(NoticesFor(wallet, out, ss), |out|, delivered)
    {
      ghost var ns := NoticesFor(wallet, out, ss);
      for k := 0 to |out|
        invariant log == old(log) + Delivered(ns, k, delivered)
      {
        var addresses := if out[k].txid in touched then touched[out[k].txid] else [];
        assert addresses == Touching(ss, out[k].txid);
        if delivered(k) {
          log := log + [Notice(wallet, out[k].txid, out[k].height, addresses)];
        }
      }
    }

    /** One wallet's tick is a run of the step machine: the steps are those of TickSteps. */
    method TickWallet(valid: string -> bool, wallet: string, addrs: seq<string>, io: TickIo)
      returns (ok: bool, ghost deltas: seq<Ranked>)
      requires WellPosed(valid, addrs, io)
      modifies this
      ensures ok <==> addrs == [] || AllAnswered(io.replies)
      ensures addrs == [] || !AllAnswered(io.replies) ==> state == old(state)
      ensures addrs != [] && AllAnswered(io.replies) ==>
        state == old(state)[wallet := Seen(io)] && Enumerates(deltas, DiffMap(Lookup(old(state), wallet), Seen(io)))
      ensures log == old(log) + SentFor(valid, wallet, addrs, io, deltas)
      ensures var es := TickSteps(valid, wallet, addrs, io, deltas);
        Run(old(Quiet()), es) && After(old(Quiet()), es) == Quiet()
    {
      hide Answers, Histories, AllSightings, Touching, Merged, Flatten, Run, After, DiffOrder, NoticesFor, Sends, Delivered, DiffMap;
      deltas := [];
      HistoriesPerAddress(valid, addrs, io);
      StutterRuns(Quiet());
      assert log + [] == log;
      if addrs == [] {
        return true, deltas;
      }
      var addrOf := SkipInvalid(valid, addrs);
      var answered, current, touched := Query(addrOf, io.replies);
      if !answered {
        return false, deltas;
      }
      var out := Diff(if wallet in state then Some(state[wallet]) else None, current);
      deltas := out;
      ghost var hs := Histories(io.replies);
      ghost var ss := AllSightings(addrOf, hs);
      NoticesAreDiffOrder(state, wallet, current, out, ss);
      EntriesOfSightings(addrOf, hs);
      TickRuns(Quiet(), wallet, current, NoticesFor(wallet, out, ss), io.written, io.delivered);
      state := state[wallet := current];
      Persist(io.written);
      SendAll(wallet, out, touched, io.delivered, ss);
      ok := true;
    }

    /**
     One tick over the watch store's snapshot, wallets in the given order. Its steps are exactly those of
     TickPlan: unpaired wallets are passed over, a failed wallet does not stop the others, and at the end
     wallets without a watch set are forgotten.
     */
    method Tick(valid: string -> bool, watch: Store.WatchStore, order: seq<string>,
                paired: string -> bool, io: string -> TickIo, forgetWritten: bool)
      returns (ghost deltas: seq<seq<Ranked>>)
      requires forall w :: w in order <==> w in watch.sets
      requires NoRepeats(order)
      requires forall w :: w in order ==> WellPosed(valid, watch.sets[w], io(w))
      modifies this
      ensures |deltas| == |order|
      ensures forall w :: w in watch.sets && Observable(watch.sets, paired, io, w) ==> w in state && state[w] == Seen(io(w))
      ensures forall w :: w in watch.sets && !Observable(watch.sets, paired, io, w) ==>
        (w in state <==> w in old(state)) && (w in state ==> state[w] == old(state)[w])
      ensures forall w :: w in state ==> w in watch.sets
      ensures forall k :: 0 <= k < |order| && Observable(watch.sets, paired, io, order[k]) ==>
        Enumerates(deltas[k], DiffMap(Lookup(old(state), order[k]), Seen(io(order[k]))))
      ensures log == old(log) + SentBy(valid, watch.sets, order, paired, io, deltas)
      ensures var es := TickPlan(valid, watch.sets, order, paired, io, deltas);
        var forget := ForgetSteps(After(old(Quiet()), es), watch.sets.Keys, forgetWritten);
        Run(old(Quiet()), es + forget) && After(old(Quiet()), es + forget) == Quiet()
    {
      hide Ticked, Run, After, TickPlan, WellPosed, ForgetSteps, SentBy, DiffMap, Seen;
      var snapshot := watch.Snapshot();
      deltas := TickWallets(valid, snapshot, order, paired, io);
      TickedIs(old(Quiet()), Quiet(), valid, snapshot, order, paired, io, deltas);
      ghost var es := TickPlan(valid, snapshot, order, paired, io, deltas);
      ghost var forget := ForgetSteps(Quiet(), snapshot.Keys, forgetWritten);
      ForgetOthers(snapshot.Keys, forgetWritten);
      RunConcat(old(Quiet()), es, forget);
    }

    /** The loop over the snapshot. */
    method TickWallets(valid: string -> bool, snapshot: map<string, seq<string>>, order: seq<string>,
                       paired: string -> bool, io: string -> TickIo)
      returns (ghost deltas: seq<seq<Ranked>>)
      requires Ready(valid, snapshot, order, io)
      requires NoRepeats(order)
      modifies this
      ensures |deltas| == |order|
      ensures Ticked(old(Quiet()), Quiet(), valid, snapshot, order, paired, io, deltas)
    {
      deltas := [];
      ghost var start := Quiet();
      NothingTicked(start, valid, snapshot, order[..0], paired, io);
      hide *;
      for k := 0 to |order|
        invariant |deltas| == k && Ready(valid, snapshot, order[..k], io)
        invariant Ticked(start, Quiet(), valid, snapshot, order[..k], paired, io, deltas)
      {
        ReadyUpTo(valid, snapshot, order, io, k);
        var wallet := order[k];
        ghost var before := Quiet();
        ghost var d := TakeTurn(valid, snapshot, wallet, paired, io);
        NextIsNew(order, k);
        ReadyUpTo(valid, snapshot, order, io, k + 1);
        TickedNext(start, before, Quiet(), valid, snapshot, order[..k], wallet, paired, io, deltas, d);
        deltas := deltas + [d];
      }
      assert order[..|order|] == order;
    }

    /**
     Two rounds of the loop. A wallet that is in the watch store both times and observed both times is, in the
     second, notified of exactly the transactions that its histories have now and did not have then, or have
     confirmed now and had only unconfirmed then; each once, with its height and the addresses that have it.
     */
    method TwoTicks(valid: string -> bool, first: Store.WatchStore, order1: seq<string>, paired1: string -> bool,
                    io1: string -> TickIo, written1: bool, second: Store.WatchStore, order2: seq<string>,
                    paired2: string -> bool, io2: string -> TickIo, written2: bool, wallet: string)
      returns (ghost told: seq<Notice>, ghost round1: seq<Notice>, ghost others: seq<Notice>, ghost others': seq<Notice>)
      requires forall w :: w in order1 <==> w in first.sets
      requires forall w :: w in order2 <==> w in second.sets
      requires NoRepeats(order1)
      requires NoRepeats(order2)
      requires forall w :: w in order1 ==> WellPosed(valid, first.sets[w], io1(w))
      requires forall w :: w in order2 ==> WellPosed(valid, second.sets[w], io2(w))
      requires wallet in first.sets && paired1(wallet) && first.sets[wallet] != [] && AllAnswered(io1(wallet).replies)
      requires wallet in second.sets && paired2(wallet) && second.sets[wallet] != [] && AllAnswered(io2(wallet).replies)
      modifies this
      ensures log == old(log) + round1 + (others + Delivered(told, |told|, io2(wallet).delivered) + others')
      ensures forall x :: x in others + others' ==> x.wallet != wallet
      ensures forall x :: x in told ==> x.wallet == wallet
      ensures forall i, j :: 0 <= i < j < |told| ==> told[i].txid != told[j].txid
      ensures forall t :: (exists x :: x in told && x.txid == t) <==>
        NewsBetween(Histories(io1(wallet).replies), Histories(io2(wallet).replies), t)
      ensures forall x :: x in told ==> HeightIn(Histories(io2(wallet).replies), x.txid, x.height)
      ensures |ValidOnly(valid, second.sets[wallet])| == |Histories(io2(wallet).replies)|
      ensures forall x, a :: x in told ==>
        (a in x.addresses <==> HasSeen(ValidOnly(valid, second.sets[wallet]), Histories(io2(wallet).replies), a, x.txid))
    {
      hide Run, After, TickPlan, WellPosed, ForgetSteps, SentBy, DiffMap, Seen, Histories, Observable;
      var _ := Tick(valid, first, order1, paired1, io1, written1);
      round1 := log[|old(log)|..];
      assert log == old(log) + round1;
      ghost var known := state;
      var deltas := Tick(valid, second, order2, paired2, io2, written2);
      ObservableIs(first.sets, paired1, io1, wallet);
      ObservableIs(second.sets, paired2, io2, wallet);
      SeenIs(io1(wallet));
      told, others, others' := WalletTold(known, valid, second.sets, order2, paired2, io2, deltas, wallet,
        Histories(io1(wallet).replies));
    }

    /** The loop's body: a wallet that is not paired is passed over, and a failed tick is only logged. */
    method TakeTurn(valid: string -> bool, snapshot: map<string, seq<string>>, wallet: string,
                    paired: string -> bool, io: string -> TickIo)
      returns (ghost d: seq<Ranked>)
      requires wallet in snapshot && WellPosed(valid, snapshot[wallet], io(wallet))
      modifies this
      ensures Turn(old(Quiet()), Quiet(), valid, snapshot, wallet, paired, io, d)
    {
      d := [];
      ObservableIs(snapshot, paired, io, wallet);
      if paired(wallet) {
        var _, ds := TickWallet(valid, wallet, snapshot[wallet], io(wallet));
        d := ds;
      }
      hide Run, After, TickSteps, WellPosed, SentFor, DiffMap, Seen, Observable;
    }

    /** The end of a tick: only the given wallets are remembered, and the file is written if that changes anything. */
    method ForgetOthers(keep: set<string>, written: bool)
      modifies this
      ensures var es := ForgetSteps(old(Quiet()), keep, written);
        Run(old(Quiet()), es) && After(old(Quiet()), es) == Quiet()
      ensures forall w :: w in state <==> w in old(state) && w in keep
      ensures forall w :: w in state ==> state[w] == old(state)[w]
      ensures file == if written && exists w :: w in old(state) && w !in keep then state else old(file)
      ensures log == old(log)
    {
      ForgetRuns(Quiet(), keep, written);
      hide Run, After, ForgetSteps;
      RestrictedSize(state, keep);
      var before := |state|;
      state := map w | w in state && w in keep :: state[w];
      if |state| != before {
        Persist(written);
      }
    }
  }

  /** The second histories have the transaction, and the first did not or had it only unconfirmed, and now it is confirmed. */
  ghost predicate NewsBetween(hs1: seq<seq<Entry>>, hs2: seq<seq<Entry>>, t: Txid) {
    && (exists h :: h in hs2 && Mentions(h, t))
    && ((forall h :: h in hs1 ==> !Mentions(h, t))
        || ((forall h :: h in hs1 ==> !Confirms(h, t)) && exists h :: h in hs2 && Confirms(h, t)))
  }

  /** The greatest height that any of the histories gives the transaction, 0 for none above. */
  ghost predicate HeightIn(hs: seq<seq<Entry>>, t: Txid, height: nat) {
    && (forall h, e :: h in hs && e in h && e.txid == t ==> e.height <= height)
    && (exists h, e :: h in hs && e in h && e.txid == t && (if e.height < 0 then 0 else e.height) == height)
  }

  /** The address's history has the transaction. */
  ghost predicate HasSeen(used: seq<string>, hs: seq<seq<Entry>>, a: string, t: Txid)
    requires |used| == |hs|
  {
    exists j :: 0 <= j < |hs| && used[j] == a && Mentions(hs[j], t)
  }

  /** Every wallet in `order` has a watch set, and each of its queries has an outcome. */
  ghost predicate Ready(valid: string -> bool, snapshot: map<string, seq<string>>, order: seq<string>, io: string -> TickIo) {
    forall w :: w in order ==> w in snapshot && WellPosed(valid, snapshot[w], io(w))
  }

  lemma ReadyUpTo(valid: string -> bool, snapshot: map<string, seq<string>>, order: seq<string>, io: string -> TickIo, k: nat)
    requires Ready(valid, snapshot, order, io) && k <= |order|
    ensures Ready(valid, snapshot, order[..k], io)
    ensures k < |order| ==> order[k] in snapshot && WellPosed(valid, snapshot[order[k]], io(order[k]))
  {
    hide WellPosed;
  }

  ghost predicate NoRepeats(order: seq<string>) {
    forall i, j :: 0 <= i < j < |order| ==> order[i] != order[j]
  }

  lemma NextIsNew(order: seq<string>, k: nat)
    requires NoRepeats(order) && k < |order|
    ensures order[k] !in order[..k] && order[..k + 1] == order[..k] + [order[k]]
  {
  }

  /** The steps of the wallets' ticks, in order; `deltas` gives the order of each wallet's notifications. */
  ghost function TickPlan(valid: string -> bool, snapshot: map<string, seq<string>>, order: seq<string>,
                          paired: string -> bool, io: string -> TickIo, deltas: seq<seq<Ranked>>): seq<Step>
    requires |deltas| == |order|
    requires Ready(valid, snapshot, order, io)
  {
    if order == [] then []
    else
      var k := |order| - 1;
      var w := order[k];
      TickPlan(valid, snapshot, order[..k], paired, io, deltas[..k])
      + if paired(w) then TickSteps(valid, w, snapshot[w], io(w), deltas[k]) else []
  }

  lemma TickPlanNext(valid: string -> bool, snapshot: map<string, seq<string>>, order: seq<string>, w: string,
                     paired: string -> bool, io: string -> TickIo, deltas: seq<seq<Ranked>>, d: seq<Ranked>)
    requires |deltas| == |order|
    requires Ready(valid, snapshot, order, io) && Ready(valid, snapshot, order + [w], io)
    ensures TickPlan(valid, snapshot, order + [w], paired, io, deltas + [d])
      == TickPlan(valid, snapshot, order, paired, io, deltas)
         + if paired(w) then TickSteps(valid, w, snapshot[w], io(w), d) else []
  {
    assert (order + [w])[..|order|] == order && (deltas + [d])[..|order|] == deltas;
  }

  /** Of the wallets in `order`, those observed have their new snapshot; all else is as it was. */
  ghost predicate Updated(before: Known, after: Known, snapshot: map<string, seq<string>>, order: seq<string>,
                          paired: string -> bool, io: string -> TickIo)
    requires forall w :: w in order ==> w in snapshot
  {
    && (forall w :: w in order && Observable(snapshot, paired, io, w) ==> w in after && after[w] == Seen(io(w)))
    && (forall w :: (w in order ==> !Observable(snapshot, paired, io, w)) ==>
          (w in after <==> w in before) && (w in after ==> after[w] == before[w]))
  }

  /** What each wallet's tick sends. */
  ghost function Turns(valid: string -> bool, snapshot: map<string, seq<string>>, order: seq<string>,
                       paired: string -> bool, io: string -> TickIo, deltas: seq<seq<Ranked>>): (ts: seq<seq<Notice>>)
    requires |deltas| == |order|
    requires Ready(valid, snapshot, order, io)
    ensures |ts| == |order|
  {
    seq(|order|, k requires 0 <= k < |order| =>
      if paired(order[k]) then SentFor(valid, order[k], snapshot[order[k]], io(order[k]), deltas[k]) else [])
  }

  /** What the wallets' ticks send, in order. */
  ghost function SentBy(valid: string -> bool, snapshot: map<string, seq<string>>, order: seq<string>,
                        paired: string -> bool, io: string -> TickIo, deltas: seq<seq<Ranked>>): seq<Notice>
    requires |deltas| == |order|
    requires Ready(valid, snapshot, order, io)
  {
    Flatten(Turns(valid, snapshot, order, paired, io, deltas))
  }

  lemma SentByNext(valid: string -> bool, snapshot: map<string, seq<string>>, order: seq<string>, w: string,
                   paired: string -> bool, io: string -> TickIo, deltas: seq<seq<Ranked>>, d: seq<Ranked>)
    requires |deltas| == |order|
    requires Ready(valid, snapshot, order, io) && Ready(valid, snapshot, order + [w], io)
    ensures SentBy(valid, snapshot, order + [w], paired, io, deltas + [d])
      == SentBy(valid, snapshot, order, paired, io, deltas)
         + if paired(w) then SentFor(valid, w, snapshot[w], io(w), d) else []
  {
    var ts := Turns(valid, snapshot, order, paired, io, deltas);
    var last := if paired(w) then SentFor(valid, w, snapshot[w], io(w), d) else [];
    assert Turns(valid, snapshot, order + [w], paired, io, deltas + [d]) == ts + [last];
    FlattenSnoc(ts, last);
  }

  lemma FlattenSplit<T>(xs: seq<seq<T>>, k: nat)
    requires k < |xs|
    ensures Flatten(xs) == Flatten(xs[..k]) + xs[k] + Flatten(xs[k + 1..])
  {
    var front, back := xs[..k + 1], xs[k + 1..];
    assert xs == front + back;
    FlattenNext(xs, k);
    FlattenConcat(front, back);
    hide *;
  }

  /** Every notification goes to a wallet that is being ticked. */
  lemma SentToTicked(valid: string -> bool, snapshot: map<string, seq<string>>, order: seq<string>,
                     paired: string -> bool, io: string -> TickIo, deltas: seq<seq<Ranked>>, k: nat, x: Notice)
    requires |deltas| == |order| && k < |order|
    requires Ready(valid, snapshot, order, io)
    requires x in Turns(valid, snapshot, order, paired, io, deltas)[k]
    ensures x.wallet == order[k]
  {
    SentToOne(valid, order[k], snapshot[order[k]], io(order[k]), deltas[k], x);
  }

  lemma SentToOne(valid: string -> bool, wallet: string, addrs: seq<string>, io: TickIo, deltas: seq<Ranked>, x: Notice)
    requires WellPosed(valid, addrs, io) && x in SentFor(valid, wallet, addrs, io, deltas)
    ensures x.wallet == wallet
  {
    HistoriesPerAddress(valid, addrs, io);
    var ns := NoticesFor(wallet, deltas, AllSightings(ValidOnly(valid, addrs), Histories(io.replies)));
    DeliveredIs(ns, |ns|, io.delivered, x);
  }

  /** The messages that go through are those whose own sending succeeds. */
  lemma {:induction false} DeliveredIs(ns: seq<Notice>, n: nat, delivered: nat -> bool, x: Notice)
    requires n <= |ns|
    ensures x in Delivered(ns, n, delivered) <==> exists i :: 0 <= i < n && delivered(i) && ns[i] == x
  {
    if n > 0 {
      DeliveredIs(ns, n - 1, delivered, x);
    }
  }

  /** Of a tick's notifications, those to one wallet. */
  lemma WalletTold(known: Known, valid: string -> bool, snapshot: map<string, seq<string>>, order: seq<string>,
                   paired: string -> bool, io: string -> TickIo, deltas: seq<seq<Ranked>>, wallet: string,
                   hs1: seq<seq<Entry>>)
    returns (told: seq<Notice>, others: seq<Notice>, others': seq<Notice>)
    requires |deltas| == |order| && wallet in order
    requires Ready(valid, snapshot, order, io)
    requires NoRepeats(order)
    requires Observable(snapshot, paired, io, wallet) && Lookup(known, wallet) == Some(Merged(Flatten(hs1)))
    requires Listed(known, snapshot, order, paired, io, deltas)
    ensures SentBy(valid, snapshot, order, paired, io, deltas) == others + Delivered(told, |told|, io(wallet).delivered) + others'
    ensures forall x :: x in others + others' ==> x.wallet != wallet
    ensures var hs2, used := Histories(io(wallet).replies), ValidOnly(valid, snapshot[wallet]);
      |used| == |hs2| && ToldExactly(told, wallet, hs1, hs2, used)
  {
    HistoriesPerAddress(valid, snapshot[wallet], io(wallet));
    var k :| 0 <= k < |order| && order[k] == wallet;
    var hs2, used := Histories(io(wallet).replies), ValidOnly(valid, snapshot[wallet]);
    var ts := Turns(valid, snapshot, order, paired, io, deltas);
    told := NoticesFor(wallet, deltas[k], AllSightings(used, hs2));
    others := Flatten(ts[..k]);
    others' := Flatten(ts[k + 1..]);
    FlattenSplit(ts, k);
    NoticesAreNews(valid, wallet, snapshot[wallet], hs1, hs2, deltas[k]);
    hide Turns, ToldExactly, NoticesFor, AllSightings, ValidOnly, Histories, DiffMap, Merged, Flatten, Delivered;
    forall x | x in others + others' ensures x.wallet != wallet {
      InFlatten(ts[..k], x);
      InFlatten(ts[k + 1..], x);
      var j :| 0 <= j < |ts| && j != k && x in ts[j];
      SentToTicked(valid, snapshot, order, paired, io, deltas, j, x);
    }
  }

  /** One notification for each piece of news, with its height and its addresses. */
  ghost predicate ToldExactly(told: seq<Notice>, wallet: string, hs1: seq<seq<Entry>>, hs2: seq<seq<Entry>>, used: seq<string>)
    requires |used| == |hs2|
  {
    && (forall x :: x in told ==> x.wallet == wallet)
    && (forall i, j :: 0 <= i < j < |told| ==> told[i].txid != told[j].txid)
    && (forall t :: (exists x :: x in told && x.txid == t) <==> NewsBetween(hs1, hs2, t))
    && (forall x :: x in told ==> HeightIn(hs2, x.txid, x.height))
    && (forall x, a :: x in told ==> (a in x.addresses <==> HasSeen(used, hs2, a, x.txid)))
  }

  lemma NoticesAreNews(valid: string -> bool, wallet: string, addrs: seq<string>, hs1: seq<seq<Entry>>, hs2: seq<seq<Entry>>,
                       deltas: seq<Ranked>)
    requires |ValidOnly(valid, addrs)| == |hs2|
    requires Enumerates(deltas, DiffMap(Some(Merged(Flatten(hs1))), Merged(Flatten(hs2))))
    ensures var used := ValidOnly(valid, addrs);
      ToldExactly(NoticesFor(wallet, deltas, AllSightings(used, hs2)), wallet, hs1, hs2, used)
  {
    var used := ValidOnly(valid, addrs);
    var ss := AllSightings(used, hs2);
    var told := NoticesFor(wallet, deltas, ss);
    var m1, m2 := Merged(Flatten(hs1)), Merged(Flatten(hs2));
    hide Merged, Flatten, DiffMap, AllSightings, ValidOnly, NewsBetween, HeightIn, HasSeen, Enumerates, NoticesFor;
    OneNoticeEach(wallet, deltas, ss, DiffMap(Some(m1), m2));
    forall t ensures (exists x :: x in told && x.txid == t) <==> NewsBetween(hs1, hs2, t) {
      ListedOnce(wallet, deltas, ss, DiffMap(Some(m1), m2), t);
      DiffIsNews(hs1, hs2, t);
    }
    forall x | x in told ensures HeightIn(hs2, x.txid, x.height) && forall a :: a in x.addresses <==> HasSeen(used, hs2, a, x.txid) {
      var i :| 0 <= i < |told| && told[i] == x;
      NoticeIs(valid, wallet, addrs, hs2, m1, deltas, i);
    }
  }

  lemma OneNoticeEach(wallet: string, deltas: seq<Ranked>, ss: seq<Sighting>, d: Heights)
    requires Enumerates(deltas, d)
    ensures var ns := NoticesFor(wallet, deltas, ss);
      && (forall x :: x in ns ==> x.wallet == wallet)
      && forall i, j :: 0 <= i < j < |ns| ==> ns[i].txid != ns[j].txid
  {
    hide Touching;
  }

  lemma DiffIsNews(hs1: seq<seq<Entry>>, hs2: seq<seq<Entry>>, t: Txid)
    ensures t in DiffMap(Some(Merged(Flatten(hs1))), Merged(Flatten(hs2))) <==> NewsBetween(hs1, hs2, t)
  {
    NotifiedIff(Some(Merged(Flatten(hs1))), hs2, t);
    SomeMentions(hs1, t);
    hide Merged, Flatten, DiffMap, Mentions, Confirms;
  }

  lemma NoticeIs(valid: string -> bool, wallet: string, addrs: seq<string>, hs: seq<seq<Entry>>, known: Heights,
                 deltas: seq<Ranked>, i: nat)
    requires |ValidOnly(valid, addrs)| == |hs| && i < |deltas|
    requires Enumerates(deltas, DiffMap(Some(known), Merged(Flatten(hs))))
    ensures var used := ValidOnly(valid, addrs);
      var x := NoticesFor(wallet, deltas, AllSightings(used, hs))[i];
      HeightIn(hs, x.txid, x.height) && forall a :: a in x.addresses <==> HasSeen(used, hs, a, x.txid)
  {
    NoticesNameWatchedAddresses(valid, wallet, addrs, hs, Some(known), deltas, i);
    assert deltas[i] in deltas;
    HeightIs(hs, deltas[i].txid);
    hide Merged, Flatten, AllSightings, ValidOnly, Mentions, HeightIn;
  }

  lemma ListedOnce(wallet: string, deltas: seq<Ranked>, ss: seq<Sighting>, d: Heights, t: Txid)
    requires Enumerates(deltas, d)
    ensures (exists x :: x in NoticesFor(wallet, deltas, ss) && x.txid == t) <==> t in d
  {
    var ns := NoticesFor(wallet, deltas, ss);
    if t in d {
      assert Ranked(t, d[t]) in deltas;
      var i :| 0 <= i < |deltas| && deltas[i] == Ranked(t, d[t]);
      assert ns[i] in ns;
    }
    if x :| x in ns && x.txid == t {
      var i :| 0 <= i < |ns| && ns[i] == x;
      assert deltas[i] in deltas;
    }
  }

  lemma HeightIs(hs: seq<seq<Entry>>, t: Txid)
    requires t in Merged(Flatten(hs))
    ensures HeightIn(hs, t, Merged(Flatten(hs))[t])
  {
    var all, m := Flatten(hs), Merged(Flatten(hs));
    MergeIsMax(all);
    forall e ensures e in all <==> exists h :: h in hs && e in h {
      InFlatten(hs, e);
    }
    hide Merged, Flatten;
    assert HasHeight(all, t, m[t]);
  }

  /** Each observed wallet's changes, in some order, against what was known of it. */
  ghost predicate Listed(known: Known, snapshot: map<string, seq<string>>, order: seq<string>, paired: string -> bool,
                         io: string -> TickIo, deltas: seq<seq<Ranked>>)
    requires |deltas| == |order|
    requires forall w :: w in order ==> w in snapshot
  {
    forall k :: 0 <= k < |order| && Observable(snapshot, paired, io, order[k]) ==>
      Enumerates(deltas[k], DiffMap(Lookup(known, order[k]), Seen(io(order[k]))))
  }

  /** How far a tick has come after the wallets in `order`. */
  ghost predicate Ticked(s0: State, s: State, valid: string -> bool, snapshot: map<string, seq<string>>, order: seq<string>,
                         paired: string -> bool, io: string -> TickIo, deltas: seq<seq<Ranked>>)
    requires |deltas| == |order|
    requires Ready(valid, snapshot, order, io)
  {
    && Updated(s0.mem, s.mem, snapshot, order, paired, io)
    && Listed(s0.mem, snapshot, order, paired, io, deltas)
    && s.log == s0.log + SentBy(valid, snapshot, order, paired, io, deltas)
    && var es := TickPlan(valid, snapshot, order, paired, io, deltas); Run(s0, es) && After(s0, es) == s
  }

  lemma TickedIs(s0: State, s: State, valid: string -> bool, snapshot: map<string, seq<string>>, order: seq<string>,
                 paired: string -> bool, io: string -> TickIo, deltas: seq<seq<Ranked>>)
    requires |deltas| == |order|
    requires Ready(valid, snapshot, order, io)
    requires Ticked(s0, s, valid, snapshot, order, paired, io, deltas)
    ensures Updated(s0.mem, s.mem, snapshot, order, paired, io)
    ensures Listed(s0.mem, snapshot, order, paired, io, deltas)
    ensures s.log == s0.log + SentBy(valid, snapshot, order, paired, io, deltas)
    ensures var es := TickPlan(valid, snapshot, order, paired, io, deltas); Run(s0, es) && After(s0, es) == s
  {
    hide Updated, Listed, SentBy, TickPlan, Run, After;
  }

  lemma NothingTicked(s: State, valid: string -> bool, snapshot: map<string, seq<string>>, order: seq<string>,
                      paired: string -> bool, io: string -> TickIo)
    requires |order| == 0
    ensures Ticked(s, s, valid, snapshot, order, paired, io, [])
  {
    assert s.log + [] == s.log;
  }

  /** What one wallet's turn does. */
  ghost predicate Turn(s: State, s': State, valid: string -> bool, snapshot: map<string, seq<string>>, w: string,
                       paired: string -> bool, io: string -> TickIo, d: seq<Ranked>)
    requires w in snapshot && WellPosed(valid, snapshot[w], io(w))
  {
    && s'.mem == (if Observable(snapshot, paired, io, w) then s.mem[w := Seen(io(w))] else s.mem)
    && (Observable(snapshot, paired, io, w) ==> Enumerates(d, DiffMap(Lookup(s.mem, w), Seen(io(w)))))
    && s'.log == s.log + (if paired(w) then SentFor(valid, w, snapshot[w], io(w), d) else [])
    && var es := if paired(w) then TickSteps(valid, w, snapshot[w], io(w), d) else []; Run(s, es) && After(s, es) == s'
  }

  lemma TickedNext(s0: State, s: State, s': State, valid: string -> bool, snapshot: map<string, seq<string>>,
                   order: seq<string>, w: string, paired: string -> bool, io: string -> TickIo,
                   deltas: seq<seq<Ranked>>, d: seq<Ranked>)
    requires |deltas| == |order| && w !in order
    requires Ready(valid, snapshot, order, io) && Ready(valid, snapshot, order + [w], io)
    requires Ticked(s0, s, valid, snapshot, order, paired, io, deltas)
    requires Turn(s, s', valid, snapshot, w, paired, io, d)
    ensures Ticked(s0, s', valid, snapshot, order + [w], paired, io, deltas + [d])
  {
    PlanTicked(s0, s, s', valid, snapshot, order, w, paired, io, deltas, d);
    SentTicked(s0.log, s.log, s'.log, valid, snapshot, order, w, paired, io, deltas, d);
    UpdatedNext(s0.mem, s.mem, s'.mem, snapshot, order, w, paired, io);
    ListedNext(s0.mem, s.mem, snapshot, order, w, paired, io, deltas, d);
    hide Run, After, TickPlan, TickSteps, SentBy, SentFor, Updated, Listed, Observable, DiffMap, Seen, WellPosed;
  }

  lemma PlanTicked(s0: State, s: State, s': State, valid: string -> bool, snapshot: map<string, seq<string>>,
                   order: seq<string>, w: string, paired: string -> bool, io: string -> TickIo,
                   deltas: seq<seq<Ranked>>, d: seq<Ranked>)
    requires |deltas| == |order|
    requires Ready(valid, snapshot, order, io) && Ready(valid, snapshot, order + [w], io)
    requires Ticked(s0, s, valid, snapshot, order, paired, io, deltas)
    requires Turn(s, s', valid, snapshot, w, paired, io, d)
    ensures var es := TickPlan(valid, snapshot, order + [w], paired, io, deltas + [d]); Run(s0, es) && After(s0, es) == s'
  {
    TickPlanNext(valid, snapshot, order, w, paired, io, deltas, d);
    var more := if paired(w) then TickSteps(valid, w, snapshot[w], io(w), d) else [];
    hide Run, After, TickPlan, TickSteps, SentBy, SentFor, Updated, Listed, Observable, DiffMap, Seen, WellPosed, Enumerates;
    RunConcat(s0, TickPlan(valid, snapshot, order, paired, io, deltas), more);
  }

  lemma Longer(log0: seq<Notice>, log: seq<Notice>, log': seq<Notice>, front: seq<Notice>, last: seq<Notice>)
    requires log == log0 + front && log' == log + last
    ensures log' == log0 + (front + last)
  {
  }

  lemma SentTicked(log0: seq<Notice>, log: seq<Notice>, log': seq<Notice>, valid: string -> bool,
                   snapshot: map<string, seq<string>>, order: seq<string>, w: string, paired: string -> bool,
                   io: string -> TickIo, deltas: seq<seq<Ranked>>, d: seq<Ranked>)
    requires |deltas| == |order|
    requires Ready(valid, snapshot, order, io) && Ready(valid, snapshot, order + [w], io)
    requires log == log0 + SentBy(valid, snapshot, order, paired, io, deltas)
    requires log' == log + if paired(w) then SentFor(valid, w, snapshot[w], io(w), d) else []
    ensures log' == log0 + SentBy(valid, snapshot, order + [w], paired, io, deltas + [d])
  {
    SentByNext(valid, snapshot, order, w, paired, io, deltas, d);
    Longer(log0, log, log', SentBy(valid, snapshot, order, paired, io, deltas),
      if paired(w) then SentFor(valid, w, snapshot[w], io(w), d) else []);
    hide *;
  }

  lemma UpdatedNext(m0: Known, m: Known, m': Known, snapshot: map<string, seq<string>>, order: seq<string>, w: string,
                    paired: string -> bool, io: string -> TickIo)
    requires w !in order && forall v :: v in order + [w] ==> v in snapshot
    requires Updated(m0, m, snapshot, order, paired, io)
    requires m' == if Observable(snapshot, paired, io, w) then m[w := Seen(io(w))] else m
    ensures Updated(m0, m', snapshot, order + [w], paired, io)
  {
    hide Observable, Seen;
  }

  lemma ListedNext(m0: Known, m: Known, snapshot: map<string, seq<string>>, order: seq<string>, w: string,
                   paired: string -> bool, io: string -> TickIo, deltas: seq<seq<Ranked>>, d: seq<Ranked>)
    requires |deltas| == |order| && w !in order && forall v :: v in order + [w] ==> v in snapshot
    requires Updated(m0, m, snapshot, order, paired, io) && Listed(m0, snapshot, order, paired, io, deltas)
    requires Observable(snapshot, paired, io, w) ==> Enumerates(d, DiffMap(Lookup(m, w), Seen(io(w))))
    ensures Listed(m0, snapshot, order + [w], paired, io, deltas + [d])
  {
    assert Lookup(m, w) == Lookup(m0, w);
    hide Observable, Seen, DiffMap, Enumerates;
  }

  /** The wallet's histories all came in, and there were some to ask for. */
  ghost predicate Observable(snapshot: map<string, seq<string>>, paired: string -> bool, io: string -> TickIo, w: string)
    requires w in snapshot
  {
    paired(w) && snapshot[w] != [] && AllAnswered(io(w).replies)
  }

  /**
   A tick observes exactly the paired wallets of the snapshot whose queries all succeed, each with the
   merged map of its histories: nobody else's failure or absence keeps a wallet from being looked at.
   */
  lemma {:induction false} TickObserves(valid: string -> bool, snapshot: map<string, seq<string>>, order: seq<string>,
                                        paired: string -> bool, io: string -> TickIo, deltas: seq<seq<Ranked>>,
                                        wallet: string, current: Heights)
    requires |deltas| == |order|
    requires Ready(valid, snapshot, order, io)
    ensures Observes(TickPlan(valid, snapshot, order, paired, io, deltas), wallet, current) <==>
      wallet in order && Observable(snapshot, paired, io, wallet) && current == Merged(Flatten(Histories(io(wallet).replies)))
    decreases |order|
  {
    if order != [] {
      var k := |order| - 1;
      var w := order[k];
      ReadyUpTo(valid, snapshot, order, io, k);
      hide Ready, WellPosed, TickSteps, Observable, Observes, Merged, Flatten, Histories;
      TickObserves(valid, snapshot, order[..k], paired, io, deltas[..k], wallet, current);
      var front := TickPlan(valid, snapshot, order[..k], paired, io, deltas[..k]);
      var last := if paired(w) then TickSteps(valid, w, snapshot[w], io(w), deltas[k]) else [];
      ObservesConcat(front, last, wallet, current);
      WalletObserves(valid, w, snapshot[w], io(w), deltas[k], wallet, current);
      assert order == order[..k] + [w];
      assert wallet in order <==> wallet in order[..k] || wallet == w;
      hide *;
      assert wallet == w ==> (Observable(snapshot, paired, io, w) <==>
        paired(w) && snapshot[w] != [] && AllAnswered(io(w).replies)) by {
        ObservableIs(snapshot, paired, io, w);
      }
    }
  }

  lemma ObservableIs(snapshot: map<string, seq<string>>, paired: string -> bool, io: string -> TickIo, w: string)
    requires w in snapshot
    ensures Observable(snapshot, paired, io, w) <==> paired(w) && snapshot[w] != [] && AllAnswered(io(w).replies)
  {
  }

  ghost predicate Observes(es: seq<Step>, wallet: string, current: Heights) {
    exists e :: e in es && e.Observe? && e.wallet == wallet && e.current == current
  }

  lemma ObservesConcat(a: seq<Step>, b: seq<Step>, wallet: string, current: Heights)
    ensures Observes(a + b, wallet, current) <==> Observes(a, wallet, current) || Observes(b, wallet, current)
    ensures !Observes([], wallet, current)
  {
  }

  lemma WalletObserves(valid: string -> bool, w: string, addrs: seq<string>, io: TickIo, deltas: seq<Ranked>,
                       wallet: string, current: Heights)
    requires WellPosed(valid, addrs, io)
    ensures Observes(TickSteps(valid, w, addrs, io, deltas), wallet, current) <==>
      w == wallet && addrs != [] && AllAnswered(io.replies) && current == Merged(Flatten(Histories(io.replies)))
  {
    var es := TickSteps(valid, w, addrs, io, deltas);
    if addrs != [] && AllAnswered(io.replies) {
      assert es[0] in es;
      hide Merged, Flatten, Histories, AllSightings, NoticesFor;
    }
  }

  /** A stored address that does not parse is skipped. */
  method SkipInvalid(valid: string -> bool, addrs: seq<string>) returns (addrOf: seq<string>)
    ensures addrOf == ValidOnly(valid, addrs)
  {
    addrOf := [];
    for k := 0 to |addrs|
      invariant addrOf == ValidOnly(valid, addrs[..k])
    {
      assert addrs[..k + 1][..k] == addrs[..k];
      if valid(addrs[k]) {
        addrOf := addrOf + [addrs[k]];
      }
    }
    assert addrs[..|addrs|] == addrs;
  }

  lemma HistoriesPerAddress(valid: string -> bool, addrs: seq<string>, io: TickIo)
    requires WellPosed(valid, addrs, io)
    ensures AllAnswered(io.replies) ==> |Histories(io.replies)| == |ValidOnly(valid, addrs)|
  {
    var n := |ValidOnly(valid, addrs)|;
    if AllAnswered(io.replies) {
      assert io.replies[..|io.replies|] == io.replies;
      HistoriesLength(io.replies, n, |io.replies|);
      ChunksCover(n);
    }
  }

  lemma StutterRuns(s: State)
    requires Idle(s)
    ensures Run(s, []) && After(s, []) == s
    ensures Run(s, [QueryFailed]) && After(s, [QueryFailed]) == s
  {
    RunSnoc(s, [], QueryFailed);
    assert [] + [QueryFailed] == [QueryFailed];
  }

  lemma NoSteps(s: State)
    ensures Run(s, []) && After(s, []) == s
  {
  }

  function ForgetSteps(s: State, keep: set<string>, written: bool): seq<Step> {
    if Restricted(s.mem, keep) != s.mem then [Forget(keep), Persist(written)] else [Forget(keep)]
  }

  lemma ForgetRuns(s: State, keep: set<string>, written: bool)
    requires Idle(s)
    ensures var r := Restricted(s.mem, keep);
      var es := ForgetSteps(s, keep, written);
      Run(s, es) && After(s, es) == s.(mem := r, file := if r != s.mem && written then r else s.file)
  {
    RunSnoc(s, [], Forget(keep));
    assert [] + [Forget(keep)] == [Forget(keep)];
    if Restricted(s.mem, keep) != s.mem {
      RunSnoc(s, [Forget(keep)], Persist(written));
      assert [Forget(keep)] + [Persist(written)] == [Forget(keep), Persist(written)];
    }
  }
}
