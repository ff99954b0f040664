/**
 Wallet and server over relays that drop, duplicate, reorder and delay: any request ever sent may
 arrive any number of times at any step, and any response ever sent may reach the wallet any number
 of times or never.
 */
module EndToEnd {
  import opened Prelude
  import opened Protocol
  import opened ServerRuns
  import opened DispatchRuns
  import opened Client
  import Replay

  ghost function OutputAt(w: World, es: seq<Event>, i: nat): Option<(string, Response)>
    requires i < |es|
  {
    Output(w, After(w, es[..i]), es[i])
  }

  ghost function IncomingAt(w: World, es: seq<Event>, i: nat): Option<Envelope>
    requires i < |es|
  {
    Incoming(w, After(w, es[..i]), es[i])
  }

  ghost predicate DispatchedAt(w: World, es: seq<Event>, i: nat, id: string)
    requires i < |es|
  {
    Dispatches(w, After(w, es[..i]), es[i]) && IncomingAt(w, es, i).value.id == id
  }

  /** Event `i` brings a request with this id that the replay cache lets through. */
  ghost predicate AcceptedAt(w: World, es: seq<Event>, i: int, id: string) {
    AcceptsAt(w, es, i) && IdAt(w, es, i) == id
  }

  /**
   Arrivals are timed by a forward clock, and a request that was let through arrives again only within the
   retention period, and not after a restart that came before the cache file was written.
   */
  ghost predicate Timely(w: World, es: seq<Event>, id: string) {
    && ClockForward(es)
    && forall i, j :: 0 <= i < j < |es| && AcceptedAt(w, es, i, id) && Carries(es[j], id) && es[i].Receive? ==>
         es[j].now - es[i].now < 864_000 && Retained(w, es, i, j)
  }

  predicate Carries(e: Event, id: string) {
    e.Receive? && e.content.Readable? && e.content.env.id == id
  }

  lemma AcceptedCarries(w: World, es: seq<Event>, i: nat, id: string)
    requires AcceptedAt(w, es, i, id)
    ensures i < |es| && Carries(es[i], id)
  {
  }

  lemma AcceptedOnce(w: World, es: seq<Event>, id: string, i: nat, j: nat)
    requires Timely(w, es, id) && AcceptedAt(w, es, i, id) && AcceptedAt(w, es, j, id)
    ensures i == j
  {
    AcceptedCarries(w, es, i, id);
    AcceptedCarries(w, es, j, id);
    hide AcceptsAt, IdAt, Retained;
    if i < j {
      AcceptedAtMostOnce(w, es, i, j);
    } else if j < i {
      AcceptedAtMostOnce(w, es, j, i);
    }
  }

  /** Every envelope id is dispatched at most once, over any run with restarts at any step. */
  lemma DispatchedAtMostOnce(w: World, es: seq<Event>, id: string, i: nat, j: nat)
    requires Timely(w, es, id) && i < |es| && j < |es|
    requires DispatchedAt(w, es, i, id) && DispatchedAt(w, es, j, id)
    ensures i == j
  {
    DispatchNeedsAcceptance(w, After(w, es[..i]), es[i]);
    DispatchNeedsAcceptance(w, After(w, es[..j]), es[j]);
    AcceptedOnce(w, es, id, i, j);
  }

  // ---------------------------------------------------------------- where a response comes from

  /** Event `s` accepted the request in progress, and nothing finished since. */
  ghost predicate Started(w: World, es: seq<Event>, s: nat, job: Job) {
    && s < |es| && es[s].Receive? && es[s].sender == job.sender
    && Accepts(w, After(w, es[..s]), es[s]) && IncomingAt(w, es, s) == Some(job.env)
    && OutputAt(w, es, s).None?
    && forall k :: s < k < |es| ==> OutputAt(w, es, k).None?
  }

  lemma JobStep(w: World, n: Node, e: Event)
    requires Next(w, n, e).job.Some?
    ensures Output(w, n, e).None?
    ensures n.job.Some? ==>
      Next(w, n, e).job.value.sender == n.job.value.sender && Next(w, n, e).job.value.env == n.job.value.env
    ensures n.job.None? ==>
      Accepts(w, n, e) && e.sender == Next(w, n, e).job.value.sender
      && Incoming(w, n, e) == Some(Next(w, n, e).job.value.env)
  {
  }

  lemma {:induction false} JobStart(w: World, es: seq<Event>) returns (s: nat)
    requires After(w, es).job.Some?
    ensures Started(w, es, s, After(w, es).job.value)
    decreases |es|
  {
    var k := |es| - 1;
    var n := After(w, es[..k]);
    JobStep(w, n, es[k]);
    hide Next, Output, Accepts, Incoming;
    if n.job.Some? {
      s := JobStart(w, es[..k]);
      assert es[..k][..s] == es[..s];
      forall m | s < m < |es| ensures OutputAt(w, es, m).None? {
        if m < k {
          assert es[..k][..m] == es[..m];
          assert OutputAt(w, es[..k], m).None?;
        }
      }
    } else {
      s := k;
      AcceptedArrives(w, n, es[k]);
    }
  }

  /** A request of `c` never gets one of the early error responses. */
  ghost predicate Honest(w: World, es: seq<Event>, c: string) {
    forall i :: 0 <= i < |es| && es[i].Receive? && es[i].sender == c ==> ParseRequest(w, es[i].content).Request?
  }

  lemma ImmediateOutput(w: World, n: Node, e: Event)
    requires Output(w, n, e).Some?
    requires e.Receive? ==> ParseRequest(w, e.content).Request?
    ensures e.Receive? ==>
      Accepts(w, n, e) && Incoming(w, n, e).value.id == Output(w, n, e).value.1.id
      && e.sender == Output(w, n, e).value.0
    ensures !e.Receive? ==>
      n.job.Some? && n.job.value.env.id == Output(w, n, e).value.1.id
      && n.job.value.sender == Output(w, n, e).value.0
  {
  }

  lemma OutputFromReceive(w: World, n: Node, e: Event)
    requires Output(w, n, e).Some? && e.Receive?
    ensures e.sender == Output(w, n, e).value.0
  {
  }

  /** Every response to an honest wallet goes back to one accepted request with the same id. */
  lemma Origin(w: World, es: seq<Event>, i: nat, c: string, r: Response) returns (s: nat)
    requires i < |es| && Honest(w, es, c) && OutputAt(w, es, i) == Some((c, r))
    ensures s <= i && Accepts(w, After(w, es[..s]), es[s]) && IncomingAt(w, es, s).value.id == r.id
    ensures es[s].Receive? && es[s].sender == c
    ensures forall k :: s <= k < i ==> OutputAt(w, es, k).None?
  {
    var n := After(w, es[..i]);
    if es[i].Receive? {
      OutputFromReceive(w, n, es[i]);
    }
    ImmediateOutput(w, n, es[i]);
    hide Next, Output, Accepts, Incoming, ParseRequest;
    if es[i].Receive? {
      s := i;
    } else {
      s := JobStart(w, es[..i]);
      assert es[..i][..s] == es[..s];
      forall k | s <= k < i ensures OutputAt(w, es, k).None? {
        assert es[..i][..k] == es[..k];
        assert OutputAt(w, es[..i], k).None?;
      }
    }
  }

  /** Event `i` answered a request of `c` with this id. */
  ghost predicate AnswersAt(w: World, es: seq<Event>, c: string, id: string, i: nat)
    requires i < |es|
  {
    OutputAt(w, es, i).Some? && OutputAt(w, es, i).value.0 == c && OutputAt(w, es, i).value.1.id == id
  }

  /** The server answers each id of an honest wallet at most once. */
  lemma OneAnswer(w: World, es: seq<Event>, c: string, id: string, i: nat, j: nat)
    requires Timely(w, es, id) && Honest(w, es, c) && i < |es| && j < |es|
    requires AnswersAt(w, es, c, id, i) && AnswersAt(w, es, c, id, j)
    ensures i == j
  {
    var s := Origin(w, es, i, c, OutputAt(w, es, i).value.1);
    var t := Origin(w, es, j, c, OutputAt(w, es, j).value.1);
    hide After, Output, Accepts, Incoming, Timely;
    AcceptedOnce(w, es, id, s, t);
  }

  // ---------------------------------------------------------------- what the wallet concludes

  function OnWire(r: Response): Wire {
    if r.body.Failure? then Wire(r.id, false, None, Some(r.body.code)) else Wire(r.id, true, Some(r.body), None)
  }

  ghost predicate CarriesOutput(w: World, es: seq<Event>, c: string, g: Gift, i: nat)
    requires i < |es|
  {
    OutputAt(w, es, i).Some? && OutputAt(w, es, i).value.0 == c && g.content == Some(OnWire(OutputAt(w, es, i).value.1))
  }

  /** A gift from the server carries a response it sent to `c`, or is a notification. */
  ghost predicate Genuine(w: World, es: seq<Event>, server: string, c: string, g: Gift) {
    g.sender == server ==>
      g.kind == KIND_NOTIFY
      || exists i :: 0 <= i < |es| && CarriesOutput(w, es, c, g, i)
  }

  /** Event `i` is the one that answered `id`, with this body. */
  ghost predicate TheAnswer(w: World, es: seq<Event>, c: string, id: string, i: nat, body: Body)
    requires i < |es|
  {
    && OutputAt(w, es, i) == Some((c, Response(id, body)))
    && forall k :: 0 <= k < |es| && AnswersAt(w, es, c, id, k) ==> k == i
  }

  function ReactionTo(body: Body): Reaction {
    if body.Failure? then Throw(body.code) else Return(Result(body))
  }

  lemma GiftIsTheAnswer(w: World, es: seq<Event>, server: string, c: string, id: string, g: Gift)
    requires Timely(w, es, id) && Honest(w, es, c) && Genuine(w, es, server, c, g)
    requires ParseResponse(g, server, id) != Ignore
    ensures exists i, body ::
      0 <= i < |es| && TheAnswer(w, es, c, id, i, body) && ParseResponse(g, server, id) == ReactionTo(body)
  {
    var i :| 0 <= i < |es| && CarriesOutput(w, es, c, g, i);
    hide After, Output, Timely, Honest;
    var body := OutputAt(w, es, i).value.1.body;
    forall k | 0 <= k < |es| && AnswersAt(w, es, c, id, k) ensures k == i {
      OneAnswer(w, es, c, id, i, k);
    }
    assert TheAnswer(w, es, c, id, i, body);
  }

  function OutcomeOf(body: Body): Outcome {
    if body.Failure? then ProtocolError(body.code) else Returned(Result(body))
  }

  /**
   End to end: whatever the relays and the server's restarts do, if `request` returns a result or
   throws a protocol error, that is the one response the server produced for this wallet and id.
   */
  lemma RequestGetsTheAnswer(w: World, es: seq<Event>, server: string, c: string, id: string, attempts: seq<Attempt>)
    requires Timely(w, es, id) && Honest(w, es, c)
    requires forall g :: g in Flatten(Inboxes(attempts)) ==> Genuine(w, es, server, c, g)
    ensures var o := Concluded(server, id, attempts);
      o.Returned? || o.ProtocolError? ==>
        exists i, body :: 0 <= i < |es| && TheAnswer(w, es, c, id, i, body) && o == OutcomeOf(body)
  {
    var gifts := Flatten(Inboxes(attempts));
    var r := FirstReaction(gifts, server, id);
    FirstReactionIs(gifts, server, id);
    if r != Ignore {
      var k :| FirstAt(gifts, server, id, k, r);
      hide After, Output, Timely, Honest, Genuine, ParseResponse, FirstReaction, Flatten, TheAnswer;
      GiftIsTheAnswer(w, es, server, c, id, gifts[k]);
      var i, body :| 0 <= i < |es| && TheAnswer(w, es, c, id, i, body)
        && ParseResponse(gifts[k], server, id) == ReactionTo(body);
      assert Concluded(server, id, attempts) == OutcomeOf(body);
    }
  }

  /** The wallet never ignores a response that the server sent it under the id it waits for. */
  lemma ResponseIsHeard(server: string, id: string, body: Body)
    ensures var g := Gift(server, 25079, Some(OnWire(Response(id, body))));
      ParseResponse(g, server, id) == ReactionTo(body) != Ignore
  {
  }

  /**
   The converse: if a gift with the server's response reaches the wallet during an attempt that was sent, after
   no failed sending, then `request` ends with that response, whatever else arrives.
   */
  lemma AnswerReachesWallet(w: World, es: seq<Event>, server: string, c: string, id: string, attempts: seq<Attempt>,
                            i: nat, body: Body, k: nat)
    requires Timely(w, es, id) && Honest(w, es, c)
    requires forall g :: g in Flatten(Inboxes(attempts)) ==> Genuine(w, es, server, c, g)
    requires i < |es| && OutputAt(w, es, i) == Some((c, Response(id, body)))
    requires SentUpTo(attempts, k) && Gift(server, 25079, Some(OnWire(Response(id, body)))) in attempts[k].value
    ensures Concluded(server, id, attempts) ==
      if body.Failure? then ProtocolError(body.code) else Returned(Result(body))
  {
    var g, gifts := Gift(server, 25079, Some(OnWire(Response(id, body)))), Flatten(Inboxes(attempts));
    hide Timely, Honest, Genuine, Output, After;
    assert g in Inboxes(attempts)[k];
    InFlatten(Inboxes(attempts), g);
    NoAnswer(gifts, server, id);
    RequestGetsTheAnswer(w, es, server, c, id, attempts);
    hide Flatten, Inboxes, FirstReaction;
    var o := Concluded(server, id, attempts);
    var i', body' :| 0 <= i' < |es| && TheAnswer(w, es, c, id, i', body') && o == OutcomeOf(body');
    assert AnswersAt(w, es, c, id, i);
  }
}
