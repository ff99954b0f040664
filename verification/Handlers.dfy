/** Address validation and the transaction history query (handlers.rs, with `anchors` from electrs.rs). */
module Handlers {
  import opened Prelude
  import opened Protocol
  import opened History

  const MAX_QUERY_ADDRESSES: nat := 200
  const MAX_WATCH_ADDRESSES: nat := 5000
  const DEFAULT_HISTORY_LIMIT: nat := 50
  const MAX_HISTORY_LIMIT: nat := 200

  // ---------------------------------------------------------------- validate_addresses

  ghost predicate AllValid(w: World, list: seq<Item>) {
    forall i :: 0 <= i < |list| ==> list[i].Text? && w.validAddress(list[i].s)
  }

  function Texts(list: seq<Item>): (r: seq<string>)
    requires forall i :: 0 <= i < |list| ==> list[i].Text?
    ensures |r| == |list| && forall i :: 0 <= i < |r| ==> r[i] == list[i].s
  {
    seq(|list|, i requires 0 <= i < |list| => list[i].s)
  }

  /** The listed addresses in order, if there is a list, it is short enough and every item is valid. */
  ghost function Validated(w: World, list: Option<seq<Item>>, max: nat): Option<seq<string>> {
    if list.Some? && |list.value| <= max && AllValid(w, list.value) then Some(Texts(list.value)) else None
  }

  /** The result written out: all of a present, short and wholly valid list, in its order, or nothing. */
  lemma ValidatedIs(w: World, list: Option<seq<Item>>, max: nat)
    ensures var r := Validated(w, list, max);
      (r.Some? <==> (list.Some? && |list.value| <= max
        && forall i :: 0 <= i < |list.value| ==> list.value[i].Text? && w.validAddress(list.value[i].s)))
      && (r.Some? ==> |r.value| == |list.value| && forall i :: 0 <= i < |r.value| ==> list.value[i] == Text(r.value[i]))
  {
  }

  method ValidateAddresses(w: World, list: Option<seq<Item>>, max: nat) returns (r: Option<seq<string>>)
    ensures r == Validated(w, list, max)
  {
    if list.None? || |list.value| > max {
      return None;
    }
    var items := list.value;
    var out := [];
    for k := 0 to |items|
      invariant AllValid(w, items[..k]) && out == Texts(items[..k])
    {
      if items[k].NotText? || !w.validAddress(items[k].s) {
        assert !AllValid(w, items);
        return None;
      }
      out := out + [items[k].s];
      assert items[..k + 1] == items[..k] + [items[k]];
    }
    assert items[..|items|] == items;
    return Some(out);
  }

  // ---------------------------------------------------------------- get_history

  /** Block hash and time at a height, or None when the query fails. */
  type Headers = nat -> Option<(string, nat)>

  datatype HistoryTx =
    | Unconfirmed(txid: Txid)
    | Confirmed(txid: Txid, height: nat, blockHash: string, blockTime: nat)

  function Limit(requested: Option<nat>): (n: nat)
    ensures 1 <= n <= MAX_HISTORY_LIMIT
  {
    match requested
    case None => DEFAULT_HISTORY_LIMIT
    case Some(l) => if l < 1 then 1 else if l > MAX_HISTORY_LIMIT then MAX_HISTORY_LIMIT else l
  }

  function Take<T>(s: seq<T>, n: nat): seq<T> {
    if n < |s| then s[..n] else s
  }

  /** The heights above zero in play. */
  ghost predicate Reachable(txs: seq<Ranked>, headers: Headers) {
    forall i :: 0 <= i < |txs| && txs[i].height > 0 ==> headers(txs[i].height).Some?
  }

  ghost function Shown(r: Ranked, headers: Headers): HistoryTx
    requires r.height > 0 ==> headers(r.height).Some?
  {
    if r.height == 0 then Unconfirmed(r.txid)
    else Confirmed(r.txid, r.height, headers(r.height).value.0, headers(r.height).value.1)
  }

  /** The first `n` transactions of the ranking of all histories, each with its block. */
  ghost function HistoryAnswer(hs: seq<seq<Entry>>, n: nat, headers: Headers): Result<seq<HistoryTx>, ErrorCode> {
    var txs := Take(Ranking(Merged(Flatten(hs))), n);
    if Reachable(txs, headers) then
      Ok(seq(|txs|, i requires 0 <= i < |txs| => Shown(txs[i], headers)))
    else Err(BackendUnavailable)
  }

  /** `anchors`: one query per height, in any order; the first failure ends it. */
  method Anchors(heights: set<nat>, headers: Headers) returns (out: Option<map<nat, (string, nat)>>)
    ensures out.Some? <==> forall h :: h in heights ==> headers(h).Some?
    ensures out.Some? ==> out.value.Keys == heights && forall h :: h in heights ==> headers(h) == Some(out.value[h])
  {
    var m: map<nat, (string, nat)> := map[];
    var todo := heights;
    while todo != {}
      invariant todo <= heights && m.Keys == heights - todo
      invariant forall h :: h in m ==> headers(h) == Some(m[h])
      decreases |todo|
    {
      var h :| h in todo;
      if headers(h).None? {
        return None;
      }
      m := m[h := headers(h).value];
      todo := todo - {h};
    }
    return Some(m);
  }

  /** `histories` is the backend's answer: one history per address in order, or None on failure. */
  method GetHistory(w: World, addresses: Option<seq<Item>>, limit: Option<nat>,
                    histories: Option<seq<seq<Entry>>>, headers: Headers)
    returns (r: Result<seq<HistoryTx>, ErrorCode>)
    ensures var list := Validated(w, addresses, 200);
      r == if list.None? || list.value == [] then Err(InvalidRequest)
           else if histories.None? then Err(BackendUnavailable)
           else HistoryAnswer(histories.value, Limit(limit), headers)
    ensures var k := match limit case None => 50 case Some(l) => if l == 0 then 1 else if l <= 200 then l else 200;
      r.Ok? ==> (histories.Some? && r == HistoryAnswer(histories.value, k, headers)
        && |r.value| == if k < |Txids(histories.value)| then k else |Txids(histories.value)|)
  {
    var addrs := ValidateAddresses(w, addresses, MAX_QUERY_ADDRESSES);
    if addrs.None? || addrs.value == [] {
      return Err(InvalidRequest);
    }
    if histories.None? {
      return Err(BackendUnavailable);
    }
    var txs := TopTransactions(histories.value, Limit(limit));
    var heights := set i | 0 <= i < |txs| && txs[i].height > 0 :: txs[i].height;
    var anchors := Anchors(heights, headers);
    hide Ranking, Merged, Flatten, Validated;
    assert anchors.Some? <==> Reachable(txs, headers);
    if anchors.None? {
      return Err(BackendUnavailable);
    }
    var out := WithAnchors(txs, anchors.value, headers);
    AnswerLength(histories.value, Limit(limit), headers);
    return Ok(out);
  }

  /** Merge, sort and truncate. */
  method TopTransactions(hs: seq<seq<Entry>>, n: nat) returns (txs: seq<Ranked>)
    ensures txs == Take(Ranking(Merged(Flatten(hs))), n)
  {
    var seen := MergeHistories(hs);
    txs := Collect(seen);
    txs := SortTxs(txs);
    SortedIsRanking(txs, seen);
    txs := if n < |txs| then txs[..n] else txs;
  }

  /** Every positive height has its anchor, so the lookup never fails. */
  method WithAnchors(txs: seq<Ranked>, anchors: map<nat, (string, nat)>, headers: Headers) returns (out: seq<HistoryTx>)
    requires forall i :: 0 <= i < |txs| && txs[i].height > 0 ==> txs[i].height in anchors
    requires forall h :: h in anchors ==> headers(h) == Some(anchors[h])
    ensures Reachable(txs, headers)
    ensures out == seq(|txs|, i requires 0 <= i < |txs| => Shown(txs[i], headers))
  {
    out := [];
    for k := 0 to |txs|
      invariant |out| == k
      invariant forall i :: 0 <= i < k ==> out[i] == Shown(txs[i], headers)
    {
      var tx := txs[k];
      if tx.height == 0 {
        out := out + [Unconfirmed(tx.txid)];
      } else {
        var (hash, time) := anchors[tx.height];
        out := out + [Confirmed(tx.txid, tx.height, hash, time)];
      }
    }
  }

  /** The answer does not depend on the order of the addresses, or on how the histories are grouped. */
  lemma AnswerIgnoresOrder(hs: seq<seq<Entry>>, hs': seq<seq<Entry>>, n: nat, headers: Headers)
    requires forall e :: e in Flatten(hs) <==> e in Flatten(hs')
    ensures HistoryAnswer(hs, n, headers) == HistoryAnswer(hs', n, headers)
  {
    MergeIgnoresOrder(Flatten(hs), Flatten(hs'));
  }

  /** The histories of the listed addresses, in order, from a backend that knows each address's history. */
  function Asked(backend: string -> seq<Entry>, addrs: seq<string>): (hs: seq<seq<Entry>>)
    ensures |hs| == |addrs|
  {
    seq(|addrs|, i requires 0 <= i < |addrs| => backend(addrs[i]))
  }

  lemma InAsked(backend: string -> seq<Entry>, addrs: seq<string>, e: Entry)
    ensures e in Flatten(Asked(backend, addrs)) <==> exists a :: a in addrs && e in backend(a)
  {
    var hs := Asked(backend, addrs);
    InFlatten(hs, e);
    if h :| h in hs && e in h {
      var i :| 0 <= i < |hs| && hs[i] == h;
      assert addrs[i] in addrs;
    }
    if a :| a in addrs && e in backend(a) {
      var i :| 0 <= i < |addrs| && addrs[i] == a;
      assert hs[i] in hs;
    }
  }

  /** Asking for the same addresses in another order, or repeating some, gives the same answer. */
  lemma AddressOrderIsInvisible(backend: string -> seq<Entry>, addrs: seq<string>, addrs': seq<string>, n: nat, headers: Headers)
    requires forall a :: a in addrs <==> a in addrs'
    ensures HistoryAnswer(Asked(backend, addrs), n, headers) == HistoryAnswer(Asked(backend, addrs'), n, headers)
  {
    forall e ensures e in Flatten(Asked(backend, addrs)) <==> e in Flatten(Asked(backend, addrs')) {
      InAsked(backend, addrs, e);
      InAsked(backend, addrs', e);
    }
    hide HistoryAnswer, Asked, Flatten;
    AnswerIgnoresOrder(Asked(backend, addrs), Asked(backend, addrs'), n, headers);
  }

  lemma TakeTwice<T>(s: seq<T>, n: nat, m: nat)
    requires n <= m
    ensures Take(Take(s, m), n) == Take(s, n)
  {
    if n < m < |s| {
      assert s[..m][..n] == s[..n];
    }
  }

  /** A smaller limit gives a prefix of what a larger one gives. */
  lemma SmallerLimitIsPrefix(hs: seq<seq<Entry>>, n: nat, m: nat, headers: Headers)
    requires n <= m && HistoryAnswer(hs, m, headers).Ok?
    ensures var a := HistoryAnswer(hs, n, headers);
      a.Ok? && a.value == Take(HistoryAnswer(hs, m, headers).value, n)
  {
    hide Ranking, Merged, Flatten;
    var all := Ranking(Merged(Flatten(hs)));
    var t, t' := Take(all, n), Take(all, m);
    TakeTwice(all, n, m);
    assert Reachable(t, headers) by {
      assert forall i :: 0 <= i < |t| ==> t[i] == t'[i];
    }
  }

  function RankOf(tx: HistoryTx): Ranked {
    if tx.Unconfirmed? then Ranked(tx.txid, 0) else Ranked(tx.txid, tx.height)
  }

  lemma ShownInOrder(hs: seq<seq<Entry>>, n: nat, headers: Headers)
    requires HistoryAnswer(hs, n, headers).Ok?
    ensures var txs, top := HistoryAnswer(hs, n, headers).value, Take(Ranking(Merged(Flatten(hs))), n);
      |txs| == |top| && forall k :: 0 <= k < |txs| ==> RankOf(txs[k]) == top[k]
  {
    hide Ranking, Merged, Flatten;
  }

  /** The transactions that occur in the histories. */
  ghost function Txids(hs: seq<seq<Entry>>): set<Txid> {
    set e | e in Flatten(hs) :: e.txid
  }

  lemma MergedTxids(hs: seq<seq<Entry>>)
    ensures Merged(Flatten(hs)).Keys == Txids(hs)
  {
    MergeIsMax(Flatten(hs));
    hide Merged, Flatten;
    var m := Merged(Flatten(hs));
    forall t | t in m ensures t in Txids(hs) {
      assert HasHeight(Flatten(hs), t, m[t]);
    }
  }

  function Elements(ts: seq<Txid>): set<Txid> {
    set t | t in ts
  }

  lemma {:induction false} DistinctCount(ts: seq<Txid>)
    requires forall i, j :: 0 <= i < j < |ts| ==> ts[i] != ts[j]
    ensures |Elements(ts)| == |ts|
  {
    if ts != [] {
      var n := |ts| - 1;
      DistinctCount(ts[..n]);
      assert ts == ts[..n] + [ts[n]];
      assert ts[n] !in Elements(ts[..n]);
      assert Elements(ts) == Elements(ts[..n]) + {ts[n]};
    }
  }

  lemma RankedCount(r: seq<Ranked>, m: Heights)
    requires Sorted(r) && Lists(r, m)
    ensures |r| == |m|
  {
    var ts := seq(|r|, i requires 0 <= i < |r| => r[i].txid);
    forall i, j | 0 <= i < j < |r| ensures r[i].txid != r[j].txid {
      assert Before(r[i], r[j]) && r[i] in r && r[j] in r;
    }
    forall t ensures t in ts <==> t in m {
      if t in m {
        assert Ranked(t, m[t]) in r;
        var i :| 0 <= i < |r| && r[i] == Ranked(t, m[t]);
        assert ts[i] == t;
      }
      if t in ts {
        var i :| 0 <= i < |ts| && ts[i] == t;
        assert r[i] in r;
      }
    }
    DistinctCount(ts);
    assert Elements(ts) == m.Keys;
    assert |m| == |m.Keys|;
  }

  /** As many transactions as there are, up to the limit. */
  lemma AnswerLength(hs: seq<seq<Entry>>, n: nat, headers: Headers)
    requires HistoryAnswer(hs, n, headers).Ok?
    ensures |HistoryAnswer(hs, n, headers).value| == if n < |Txids(hs)| then n else |Txids(hs)|
  {
    var m := Merged(Flatten(hs));
    MergedTxids(hs);
    RankedCount(Ranking(m), m);
    ShownInOrder(hs, n, headers);
    assert |m| == |m.Keys|;
    hide HistoryAnswer, Merged, Flatten, Txids;
  }

  /** It fails exactly when a transaction within the limit has a block that cannot be had. */
  lemma AnswerFailsIff(hs: seq<seq<Entry>>, n: nat, headers: Headers)
    ensures var all, r := Ranking(Merged(Flatten(hs))), HistoryAnswer(hs, n, headers);
      (r.Err? <==> exists i :: 0 <= i < |all| && i < n && all[i].height > 0 && headers(all[i].height).None?)
      && (r.Err? ==> r.error == BackendUnavailable)
  {
    TakeReachable(Ranking(Merged(Flatten(hs))), n, headers);
    hide Ranking, Merged, Flatten, Reachable, Take;
  }

  lemma TakeReachable(all: seq<Ranked>, n: nat, headers: Headers)
    ensures Reachable(Take(all, n), headers) <==>
      !exists i :: 0 <= i < |all| && i < n && all[i].height > 0 && headers(all[i].height).None?
  {
    var txs := Take(all, n);
    if Reachable(txs, headers) {
      forall i | 0 <= i < |all| && i < n && all[i].height > 0 ensures headers(all[i].height).Some? {
        assert txs[i] == all[i];
      }
    } else {
      var i :| 0 <= i < |txs| && txs[i].height > 0 && headers(txs[i].height).None?;
      assert txs[i] == all[i];
    }
  }

  /** Newest first, then by id, the mempool last; no transaction twice. */
  lemma AnswerIsRanked(hs: seq<seq<Entry>>, n: nat, headers: Headers, i: nat, j: nat)
    requires HistoryAnswer(hs, n, headers).Ok? && i < j < |HistoryAnswer(hs, n, headers).value|
    ensures var x, y := HistoryAnswer(hs, n, headers).value[i], HistoryAnswer(hs, n, headers).value[j];
      x.txid != y.txid
      && (x.Unconfirmed? ==> y.Unconfirmed? && x.txid < y.txid)
      && (x.Confirmed? && y.Confirmed? ==> x.height > y.height || (x.height == y.height && x.txid < y.txid))
  {
    ShownInOrder(hs, n, headers);
    BlockFound(hs, n, headers, i);
    BlockFound(hs, n, headers, j);
    hide HistoryAnswer, Ranking, Merged, Flatten;
    var all := Ranking(Merged(Flatten(hs)));
    assert Before(all[i], all[j]);
    assert all[i] in all && all[j] in all;
  }

  function HeightOf(tx: HistoryTx): nat {
    if tx.Unconfirmed? then 0 else tx.height
  }

  /**
   Each transaction comes with the greatest height any history gives it, negative ones counting as 0; a
   confirmed one has a positive height and the block found at that height.
   */
  lemma AnswerIsAccurate(hs: seq<seq<Entry>>, n: nat, headers: Headers, i: nat)
    requires HistoryAnswer(hs, n, headers).Ok? && i < |HistoryAnswer(hs, n, headers).value|
    ensures var tx := HistoryAnswer(hs, n, headers).value[i];
      (exists e :: e in Flatten(hs) && e.txid == tx.txid && (e.height == HeightOf(tx) || (e.height < 0 && HeightOf(tx) == 0)))
      && (forall e :: e in Flatten(hs) && e.txid == tx.txid ==> e.height <= HeightOf(tx))
      && (tx.Confirmed? ==> tx.height > 0 && headers(tx.height) == Some((tx.blockHash, tx.blockTime)))
  {
    ShownInOrder(hs, n, headers);
    BlockFound(hs, n, headers, i);
    MergeIsMax(Flatten(hs));
    hide HistoryAnswer, Ranking, Merged, Flatten;
    var all := Ranking(Merged(Flatten(hs)));
    assert all[i] in all;
    assert HasHeight(Flatten(hs), all[i].txid, all[i].height);
  }

  lemma BlockFound(hs: seq<seq<Entry>>, n: nat, headers: Headers, i: nat)
    requires HistoryAnswer(hs, n, headers).Ok? && i < |HistoryAnswer(hs, n, headers).value|
    ensures var tx := HistoryAnswer(hs, n, headers).value[i];
      tx.Confirmed? ==> tx.height > 0 && headers(tx.height) == Some((tx.blockHash, tx.blockTime))
  {
    hide Ranking, Merged, Flatten;
  }

  lemma LeftOut(all: seq<Ranked>, m: Heights, n: nat, txs: seq<HistoryTx>, t: Txid, i: nat)
    requires Sorted(all) && Lists(all, m) && t in m
    requires |txs| == |Take(all, n)| && forall k :: 0 <= k < |txs| ==> RankOf(txs[k]) == Take(all, n)[k]
    requires i < |txs| && forall k :: 0 <= k < |txs| ==> txs[k].txid != t
    ensures |txs| == n && Before(RankOf(txs[i]), Ranked(t, m[t]))
  {
    assert Ranked(t, m[t]) in all;
    var j :| 0 <= j < |all| && all[j] == Ranked(t, m[t]);
    assert j < |txs| ==> RankOf(txs[j]).txid == t;
  }

  /** What a limit leaves out ranks after everything it lets in. */
  lemma OmittedRankLower(hs: seq<seq<Entry>>, n: nat, headers: Headers, txs: seq<HistoryTx>, t: Txid, i: nat)
    requires HistoryAnswer(hs, n, headers) == Ok(txs) && t in Merged(Flatten(hs))
    requires i < |txs| && forall k :: 0 <= k < |txs| ==> txs[k].txid != t
    ensures |txs| == n && Before(RankOf(txs[i]), Ranked(t, Merged(Flatten(hs))[t]))
  {
    ShownInOrder(hs, n, headers);
    hide *;
    LeftOut(Ranking(Merged(Flatten(hs))), Merged(Flatten(hs)), n, txs, t, i);
  }
}
