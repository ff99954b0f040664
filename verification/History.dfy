/** Transaction histories, merged by transaction: shared by the history query and the watcher. */
module History {
  import opened Prelude

  /** A transaction id, as a number in the order of the library's type. */
  type Txid = nat

  /** One line of an address history; unconfirmed ones have height 0 or -1. */
  datatype Entry = Entry(txid: Txid, height: int)

  type Heights = map<Txid, nat>

  function Clamp(height: int): nat {
    if height < 0 then 0 else height
  }

  function Added(m: Heights, e: Entry): Heights {
    var h := Clamp(e.height);
    m[e.txid := if e.txid in m && m[e.txid] > h then m[e.txid] else h]
  }

  function Merged(es: seq<Entry>): Heights {
    if es == [] then map[] else Added(Merged(es[..|es| - 1]), es[|es| - 1])
  }

  /** Some entry puts the transaction at this height. */
  ghost predicate HasHeight(es: seq<Entry>, txid: Txid, height: nat) {
    exists e :: e in es && e.txid == txid && Clamp(e.height) == height
  }

  /** The map holds exactly the transactions that occur, each at its greatest clamped height. */
  ghost predicate IsMax(m: Heights, es: seq<Entry>) {
    && (forall e :: e in es ==> e.txid in m && Clamp(e.height) <= m[e.txid])
    && (forall t :: t in m ==> HasHeight(es, t, m[t]))
  }

  lemma {:induction false} MergeIsMax(es: seq<Entry>)
    ensures IsMax(Merged(es), es)
  {
    if es != [] {
      var front, e := es[..|es| - 1], es[|es| - 1];
      MergeIsMax(front);
      assert es == front + [e];
      forall t | t in Merged(es) ensures HasHeight(es, t, Merged(es)[t]) {
        if t in Merged(front) && Merged(es)[t] == Merged(front)[t] {
          assert HasHeight(front, t, Merged(front)[t]);
        } else {
          assert e in es;
        }
      }
    }
  }

  lemma MaxIsUnique(m: Heights, m': Heights, es: seq<Entry>, es': seq<Entry>)
    requires IsMax(m, es) && IsMax(m', es') && forall e :: e in es <==> e in es'
    ensures m == m'
  {
    assert forall t :: t in m ==> HasHeight(es, t, m[t]);
    assert forall t :: t in m' ==> HasHeight(es', t, m'[t]);
  }

  lemma MergeIgnoresOrder(es: seq<Entry>, es': seq<Entry>)
    requires forall e :: e in es <==> e in es'
    ensures Merged(es) == Merged(es')
  {
    MergeIsMax(es);
    MergeIsMax(es');
    MaxIsUnique(Merged(es), Merged(es'), es, es');
  }

  lemma MergedSnoc(es: seq<Entry>, e: Entry)
    ensures Merged(es + [e]) == Added(Merged(es), e)
  {
    assert (es + [e])[..|es|] == es;
  }

  lemma NothingMerged(hs: seq<seq<Entry>>)
    requires |hs| == 0
    ensures Merged(Flatten(hs)) == map[]
  {
  }

  method MergeHistories(hs: seq<seq<Entry>>) returns (seen: Heights)
    ensures seen == Merged(Flatten(hs))
  {
    hide Merged, Flatten;
    seen := map[];
    NothingMerged(hs[..0]);
    for i := 0 to |hs|
      invariant seen == Merged(Flatten(hs[..i]))
    {
      var hist := hs[i];
      FlattenNext(hs, i);
      ghost var before := Flatten(hs[..i]);
      assert before + hist[..0] == before;
      for j := 0 to |hist|
        invariant seen == Merged(before + hist[..j])
      {
        var height := if hist[j].height < 0 then 0 else hist[j].height;
        var txid := hist[j].txid;
        assert before + hist[..j + 1] == before + hist[..j] + [hist[j]];
        MergedSnoc(before + hist[..j], hist[j]);
        if txid in seen {
          seen := seen[txid := if seen[txid] > height then seen[txid] else height];
        } else {
          seen := seen[txid := height];
        }
      }
      assert hist[..|hist|] == hist;
    }
    assert hs[..|hs|] == hs;
  }

  // ---------------------------------------------------------------- the ranking

  datatype Ranked = Ranked(txid: Txid, height: nat)

  /** Greater height first, then smaller id. */
  predicate Before(a: Ranked, b: Ranked) {
    a.height > b.height || (a.height == b.height && a.txid < b.txid)
  }

  ghost predicate Sorted(r: seq<Ranked>) {
    forall i, j :: 0 <= i < j < |r| ==> Before(r[i], r[j])
  }

  ghost predicate Lists(r: seq<Ranked>, m: Heights) {
    forall x :: x in r <==> x.txid in m && m[x.txid] == x.height
  }

  /** The items of the map, each once. */
  ghost predicate Enumerates(r: seq<Ranked>, m: Heights) {
    Lists(r, m) && forall i, j :: 0 <= i < j < |r| ==> r[i].txid != r[j].txid
  }

  lemma {:induction false} Foremost(m: Heights) returns (x: Ranked)
    requires m != map[]
    ensures x.txid in m && m[x.txid] == x.height
    ensures forall t :: t in m && t != x.txid ==> Before(x, Ranked(t, m[t]))
    decreases |m|
  {
    var t :| t in m;
    var rest := m - {t};
    assert m.Keys == rest.Keys + {t};
    x := Ranked(t, m[t]);
    if rest != map[] {
      var y := Foremost(rest);
      if Before(y, x) {
        x := y;
      }
    }
  }

  /** The one ordering of the map's items: see RankingIsUnique. */
  ghost function Ranking(m: Heights): (r: seq<Ranked>)
    ensures Sorted(r) && Lists(r, m)
    decreases |m|
  {
    if m == map[] then []
    else
      assert exists x: Ranked :: First(x, m) by {
        var x := Foremost(m);
        assert First(x, m);
      }
      var x: Ranked :| First(x, m);
      var r := Ranking(WithoutKey(m, x.txid));
      Prepended(x, r, m);
      [x] + r
  }

  function WithoutKey(m: Heights, t: Txid): (r: Heights)
    ensures t in m ==> |r| < |m|
  {
    assert t in m ==> m.Keys == (m - {t}).Keys + {t};
    m - {t}
  }

  lemma Prepended(x: Ranked, r: seq<Ranked>, m: Heights)
    requires First(x, m) && Sorted(r) && Lists(r, WithoutKey(m, x.txid))
    ensures Sorted([x] + r) && Lists([x] + r, m)
  {
    forall i | 0 <= i < |r| ensures Before(x, r[i]) {
      assert r[i] in r;
    }
    forall y ensures y in [x] + r <==> y.txid in m && m[y.txid] == y.height {
      assert y in [x] + r <==> y == x || y in r;
    }
  }

  ghost predicate First(x: Ranked, m: Heights) {
    x.txid in m && m[x.txid] == x.height && forall t :: t in m && t != x.txid ==> Before(x, Ranked(t, m[t]))
  }

  lemma {:induction false} SortedIsUnique(r: seq<Ranked>, r': seq<Ranked>)
    requires Sorted(r) && Sorted(r') && forall x :: x in r <==> x in r'
    ensures r == r'
    decreases |r|
  {
    assert r' != [] ==> r'[0] in r;
    if r != [] {
      assert r[0] in r';
      assert r[0] == r'[0];
      assert r == [r[0]] + r[1..] && r' == [r'[0]] + r'[1..];
      forall x ensures x in r[1..] <==> x in r'[1..] {
        assert x in r[1..] <==> x in r && x != r[0];
        assert x in r'[1..] <==> x in r' && x != r'[0];
      }
      SortedIsUnique(r[1..], r'[1..]);
    }
  }

  /** Whatever order the map is walked in and however it is sorted, this is the result. */
  lemma SortedIsRanking(r: seq<Ranked>, m: Heights)
    requires Sorted(r) && Lists(r, m)
    ensures r == Ranking(m)
  {
    SortedIsUnique(r, Ranking(m));
  }

  /** `into_iter().collect()`: the items of the map, each once, in no particular order. */
  method Collect(m: Heights) returns (r: seq<Ranked>)
    ensures Enumerates(r, m)
  {
    r := [];
    var todo := m.Keys;
    while todo != {}
      invariant todo <= m.Keys
      invariant forall x :: x in r <==> x.txid in m && x.txid !in todo && m[x.txid] == x.height
      invariant forall i, j :: 0 <= i < j < |r| ==> r[i].txid != r[j].txid
      decreases |todo|
    {
      var t :| t in todo;
      assert forall i :: 0 <= i < |r| ==> r[i] in r;
      r := r + [Ranked(t, m[t])];
      todo := todo - {t};
    }
  }

  /** `sort_by`: transactions with different ids, sorted. */
  method SortTxs(txs: seq<Ranked>) returns (r: seq<Ranked>)
    requires forall i, j :: 0 <= i < j < |txs| ==> txs[i].txid != txs[j].txid
    ensures Sorted(r) && forall x :: x in r <==> x in txs
  {
    r := [];
    for k := 0 to |txs|
      invariant Sorted(r) && forall x :: x in r <==> x in txs[..k]
    {
      var x := txs[k];
      assert forall i :: 0 <= i < k ==> txs[..k][i].txid != x.txid;
      var p := 0;
      while p < |r| && Before(r[p], x)
        invariant p <= |r| && forall i :: 0 <= i < p ==> Before(r[i], x)
      {
        p := p + 1;
      }
      assert forall i :: 0 <= i < |r| ==> r[i] in r;
      assert txs[..k + 1] == txs[..k] + [x];
      r := Inserted(r, p, x);
    }
    assert txs[..|txs|] == txs;
  }

  function Inserted(r: seq<Ranked>, p: nat, x: Ranked): (s: seq<Ranked>)
    requires p <= |r|
    ensures forall y :: y in s <==> y in r || y == x
    ensures (Sorted(r) && (forall i :: 0 <= i < |r| ==> r[i].txid != x.txid)
             && (forall i :: 0 <= i < p ==> Before(r[i], x)) && (p < |r| ==> !Before(r[p], x))) ==> Sorted(s)
  {
    var s := r[..p] + [x] + r[p..];
    assert r == r[..p] + r[p..];
    s
  }
}
