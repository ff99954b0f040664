/** Pairing as part of the running server: which pair requests succeed, over whole runs. */
module PairingRuns {
  import opened Prelude
  import opened Protocol
  import opened Transport
  import opened ServerRuns
  import Pairing

  /** What one event asks of the pairing manager. */
  ghost function PairingEvent(n: Node, e: Event): Option<Pairing.Event> {
    match e
    case Proceed(_) =>
      if n.job.Some? && n.job.value.env.msgType == Pair && !n.job.value.removed && n.job.value.sender !in n.server.allow.mem
      then Some(Pairing.Verify(n.job.value.now, n.job.value.sender, n.job.value.env.proof))
      else None
    case ShowQr(now, random) => Some(Pairing.Show(now, random))
    case Restart => Some(Pairing.Forget)
    case Receive(_, _, _, _) => None
    case Revoke(_, _) => None
  }

  ghost function PairingEvents(w: World, es: seq<Event>): seq<Pairing.Event> {
    if es == [] then []
    else
      var k := |es| - 1;
      var x := PairingEvent(After(w, es[..k]), es[k]);
      PairingEvents(w, es[..k]) + if x.Some? then [x.value] else []
  }

  lemma PairingStep(w: World, n: Node, e: Event)
    ensures var x := PairingEvent(n, e);
      Next(w, n, e).server.pairing
        == if x.Some? then Pairing.Applied(w.hmac, n.server.pairing, x.value) else n.server.pairing
  {
  }

  lemma {:induction false} PairingIsProjected(w: World, es: seq<Event>)
    ensures After(w, es).server.pairing == Pairing.After(w.hmac, PairingEvents(w, es))
    decreases |es|
  {
    if es != [] {
      var k := |es| - 1;
      var n, ps := After(w, es[..k]), PairingEvents(w, es[..k]);
      PairingIsProjected(w, es[..k]);
      PairingStep(w, n, es[k]);
      if PairingEvent(n, es[k]).Some? {
        Pairing.AfterSnoc(w.hmac, ps, PairingEvent(n, es[k]).value);
      }
      hide Next, PairingEvent, Pairing.After, Pairing.Applied;
      assert ps + [] == ps;
    }
  }

  predicate Timed(e: Event) {
    e.Receive? || e.ShowQr?
  }

  /** The clock does not run backwards between arrivals and displays. */
  ghost predicate OneClock(es: seq<Event>) {
    forall i, j :: 0 <= i < j < |es| && Timed(es[i]) && Timed(es[j]) ==> es[i].now <= es[j].now
  }

  ghost predicate NotAfter(es: seq<Event>, now: nat) {
    forall i :: 0 <= i < |es| && Timed(es[i]) ==> es[i].now <= now
  }

  /** Every verification so far carries a time no later than `now`. */
  ghost predicate VerifiedBy(ps: seq<Pairing.Event>, now: nat) {
    forall i :: 0 <= i < |ps| && ps[i].Verify? ==> ps[i].now <= now
  }

  lemma JobTime(w: World, n: Node, e: Event)
    ensures Next(w, n, e).job.Some? ==>
      if n.job.Some? then Next(w, n, e).job.value.now == n.job.value.now
      else e.Receive? && Next(w, n, e).job.value.now == e.now
  {
  }

  lemma {:induction false} VerificationsInTime(w: World, es: seq<Event>, now: nat)
    requires OneClock(es) && NotAfter(es, now)
    ensures var ps, n := PairingEvents(w, es), After(w, es);
      VerifiedBy(ps, now) && (n.job.Some? ==> VerifiedBy(ps, n.job.value.now) && n.job.value.now <= now)
    decreases |es|
  {
    if es != [] {
      var k := |es| - 1;
      var front, e := es[..k], es[k];
      var n := After(w, front);
      VerificationsInTime(w, front, now);
      JobTime(w, n, e);
      if e.Receive? {
        VerificationsInTime(w, front, e.now);
      }
      hide Next;
    }
  }

  /** The verifications and displays of a run come in an order that the pairing manager's history covers. */
  lemma {:induction false} PairingIsOrdered(w: World, es: seq<Event>)
    requires OneClock(es)
    ensures Pairing.Ordered(PairingEvents(w, es))
    decreases |es|
  {
    if es != [] {
      var k := |es| - 1;
      var front, e := es[..k], es[k];
      PairingIsOrdered(w, front);
      VerificationsInTime(w, front, if e.ShowQr? then e.now else Latest(front));
      hide Next, After;
    }
  }

  lemma AnswerOfPair(w: World, n: Node, io: Io)
    requires n.job.Some? && n.job.value.env.msgType == Pair && !n.job.value.removed && io.allowWritten
    ensures var j := n.job.value;
      PairSucceeds(w, n, Proceed(io), j.sender) <==>
        j.sender !in n.server.allow.mem
        && Pairing.Verifies(w.hmac, n.server.pairing, j.now, j.sender, j.env.proof)
  {
  }

  /** The latest time of an arrival or a display. */
  function Latest(es: seq<Event>): (now: nat)
    ensures NotAfter(es, now)
  {
    if es == [] then 0
    else
      var m := Latest(es[..|es| - 1]);
      var e := es[|es| - 1];
      if Timed(e) && m < e.now then e.now else m
  }

  /**
   A pair request succeeds if and only if its sender is not paired yet and the QR secret displayed
   last is unexpired, unused since, has met fewer than five wrong proofs since, and matches the proof.
   The secret is judged from the history of displays and requests alone.
   */
  lemma PairingIsExact(w: World, es: seq<Event>, i: nat)
    requires OneClock(es) && i < |es| && es[i].Proceed? && es[i].io.allowWritten
    requires After(w, es[..i]).job.Some? && After(w, es[..i]).job.value.env.msgType == Pair
    ensures var n, ps := After(w, es[..i]), PairingEvents(w, es[..i]);
      var j := n.job.value;
      PairSucceeds(w, n, es[i], j.sender) <==>
        j.sender !in n.server.allow.mem && Pairing.Live(w.hmac, ps, j.now)
        && w.hmac.unhex(j.env.proof) == Some(w.hmac.mac(ps[Pairing.Generation(w.hmac, ps).value].random, j.sender))
  {
    var front := es[..i];
    var n, ps := After(w, front), PairingEvents(w, front);
    PairingIsProjected(w, front);
    PairingIsOrdered(w, front);
    VerificationsInTime(w, front, Latest(front));
    OnlyUnpairingIsHalved(w, front);
    AnswerOfPair(w, n, es[i].io);
    hide After, PairingEvents, PairSucceeds;
    Pairing.ShowableIffLive(w.hmac, ps, n.job.value.now);
  }
}
