/** The wallet's request loop (NomadClient.kt). Gifts are unwrapped already; their sender is authentic. */
module Client {
  import opened Prelude
  import opened Protocol

  const KIND_RESPONSE: nat := 25079
  const KIND_NOTIFY: nat := 25080

  /** A response envelope as the wallet parses it. */
  datatype Wire = Wire(id: string, ok: bool, result: Option<Body>, error: Option<ErrorCode>)

  /** `content` is None when it does not parse as a response envelope. */
  datatype Gift = Gift(sender: string, kind: nat, content: Option<Wire>)

  datatype Json = EmptyObject | Result(body: Body)

  datatype Reaction = Ignore | Return(result: Json) | Throw(code: ErrorCode)

  /** `SendFailed` is what `giftWrap` throws, `TimedOut` and `NoAttempts` the last error of the loop. */
  datatype Outcome =
    | Returned(result: Json) | ProtocolError(code: ErrorCode) | SendFailed | TimedOut | NoAttempts

  /** One round of the loop: None if sending throws, else the gifts that arrive before the timeout. */
  type Attempt = Option<seq<Gift>>

  /** `parseResponse`. */
  function ParseResponse(g: Gift, server: string, id: string): Reaction {
    if g.sender != server || g.kind != KIND_RESPONSE || g.content.None? || g.content.value.id != id then Ignore
    else
      var e := g.content.value;
      if e.ok then Return(match e.result case Some(b) => Result(b) case None => EmptyObject)
      else Throw(match e.error case Some(c) => c case None => Internal)
  }

  /** Gift `i` gets the reaction `r`, and every gift before it is ignored. */
  ghost predicate FirstAt(gifts: seq<Gift>, server: string, id: string, i: int, r: Reaction) {
    && 0 <= i < |gifts| && ParseResponse(gifts[i], server, id) == r
    && forall j :: 0 <= j < i ==> ParseResponse(gifts[j], server, id) == Ignore
  }

  /** What a sequence of gifts leads to. */
  function FirstReaction(gifts: seq<Gift>, server: string, id: string): Reaction {
    if gifts == [] then Ignore
    else
      var n := |gifts| - 1;
      var r := FirstReaction(gifts[..n], server, id);
      if r != Ignore then r else ParseResponse(gifts[n], server, id)
  }

  /** The first gift that is not ignored settles the wait; if all are ignored nothing does. */
  lemma {:induction false} FirstReactionIs(gifts: seq<Gift>, server: string, id: string)
    ensures var r := FirstReaction(gifts, server, id);
      if r == Ignore then forall i :: 0 <= i < |gifts| ==> ParseResponse(gifts[i], server, id) == Ignore
      else exists i :: FirstAt(gifts, server, id, i, r)
  {
    if gifts != [] {
      var n := |gifts| - 1;
      var r := FirstReaction(gifts[..n], server, id);
      FirstReactionIs(gifts[..n], server, id);
      if r != Ignore {
        var i :| FirstAt(gifts[..n], server, id, i, r);
        assert FirstAt(gifts, server, id, i, r);
      } else if ParseResponse(gifts[n], server, id) != Ignore {
        assert FirstAt(gifts, server, id, n, ParseResponse(gifts[n], server, id));
      }
    }
  }

  /** The attempts before the first one that cannot be sent. */
  function SentAttempts(attempts: seq<Attempt>): (n: nat)
    ensures n <= |attempts|
    ensures forall i :: 0 <= i < n ==> attempts[i].Some?
    ensures n < |attempts| ==> attempts[n].None?
  {
    if attempts == [] || attempts[0].None? then 0 else 1 + SentAttempts(attempts[1..])
  }

  /** What arrived during each of them. */
  function Inboxes(attempts: seq<Attempt>): (inboxes: seq<seq<Gift>>)
    ensures |inboxes| == SentAttempts(attempts)
    ensures forall i :: 0 <= i < |inboxes| ==> attempts[i].Some? && inboxes[i] == attempts[i].value
  {
    seq(SentAttempts(attempts), i requires 0 <= i < SentAttempts(attempts) => attempts[i].value)
  }

  function Unanswered(attempts: seq<Attempt>): Outcome {
    if SentAttempts(attempts) < |attempts| then SendFailed
    else if attempts == [] then NoAttempts
    else TimedOut
  }

  function Settled(r: Reaction, attempts: seq<Attempt>): Outcome {
    match r
    case Return(x) => Returned(x)
    case Throw(c) => ProtocolError(c)
    case Ignore => Unanswered(attempts)
  }

  /** The outcome, from all gifts that could be heard. */
  function Concluded(server: string, id: string, attempts: seq<Attempt>): Outcome {
    Settled(FirstReaction(Flatten(Inboxes(attempts)), server, id), attempts)
  }

  lemma {:induction false} FirstReactionConcat(a: seq<Gift>, b: seq<Gift>, server: string, id: string)
    ensures FirstReaction(a + b, server, id) ==
      if FirstReaction(a, server, id) != Ignore then FirstReaction(a, server, id) else FirstReaction(b, server, id)
    decreases |b|
  {
    if b == [] {
      assert a + b == a;
    } else {
      var n := |b| - 1;
      assert (a + b)[..|a + b| - 1] == a + b[..n];
      FirstReactionConcat(a, b[..n], server, id);
    }
  }

  /** `gifts.mapNotNull { … }.first()`, or Ignore if the timeout comes first. */
  method Await(inbox: seq<Gift>, server: string, id: string) returns (r: Reaction)
    ensures r == FirstReaction(inbox, server, id)
  {
    hide ParseResponse, FirstAt;
    for k := 0 to |inbox|
      invariant FirstReaction(inbox[..k], server, id) == Ignore
    {
      r := ParseResponse(inbox[k], server, id);
      assert inbox[..k + 1][..k] == inbox[..k];
      if r != Ignore {
        FirstReactionConcat(inbox[..k + 1], inbox[k + 1..], server, id);
        assert inbox == inbox[..k + 1] + inbox[k + 1..];
        return;
      }
    }
    assert inbox[..|inbox|] == inbox;
    r := Ignore;
  }

  /**
   `request`, given what happens in each attempt. The outcome depends only on the first gift that answers,
   in whichever attempt it comes; every attempt before that one sent the same envelope again, and none
   after it sends. An attempt that cannot be sent ends the loop.
   */
  method Request(server: string, id: string, attempts: seq<Attempt>) returns (o: Outcome, sent: nat)
    ensures o == Concluded(server, id, attempts)
    ensures forall k, i :: Heard(server, id, attempts, k, i) ==> Tells(attempts[k].value[i].content.value, o) && sent == k + 1
    ensures Unheard(server, id, attempts) ==>
      o == if exists k :: 0 <= k < |attempts| && attempts[k].None? then SendFailed
           else if |attempts| == 0 then NoAttempts else TimedOut
    ensures o.TimedOut? || o.NoAttempts? ==> sent == |attempts|
    ensures o.SendFailed? ==> sent < |attempts| && attempts[sent].None? && forall k :: 0 <= k < sent ==> attempts[k].Some?
  {
    ghost var inboxes := Inboxes(attempts);
    sent := 0;
    o := NoAttempts;
    assert Flatten(inboxes[..0]) == [];
    hide Flatten, FirstReaction, SentAttempts, Inboxes, Heard, Unheard, Tells, ParseResponse;
    while sent < |attempts|
      invariant sent <= |inboxes|
      invariant FirstReaction(Flatten(inboxes[..sent]), server, id) == Ignore
      invariant o == if sent == 0 then NoAttempts else TimedOut
    {
      if attempts[sent].None? {
        assert inboxes[..|inboxes|] == inboxes;
        NothingHeard(server, id, attempts);
        return SendFailed, sent;
      }
      assert inboxes[sent] == attempts[sent].value;
      var r := Await(attempts[sent].value, server, id);
      FlattenNext(inboxes, sent);
      FirstReactionConcat(Flatten(inboxes[..sent]), inboxes[sent], server, id);
      sent := sent + 1;
      if r != Ignore {
        LaterInboxes(inboxes, sent, server, id);
        AnsweredIn(server, id, attempts, sent);
        return match r case Return(x) => Returned(x) case Throw(c) => ProtocolError(c) case Ignore => TimedOut, sent;
      }
      o := TimedOut;
    }
    assert inboxes[..|inboxes|] == inboxes;
    NothingHeard(server, id, attempts);
  }

  /** Once an attempt is answered, later gifts do not matter. */
  lemma {:induction false} LaterInboxes(inboxes: seq<seq<Gift>>, n: nat, server: string, id: string)
    requires n <= |inboxes| && FirstReaction(Flatten(inboxes[..n]), server, id) != Ignore
    ensures FirstReaction(Flatten(inboxes), server, id) == FirstReaction(Flatten(inboxes[..n]), server, id)
    decreases |inboxes|
  {
    if n < |inboxes| {
      var front := inboxes[..|inboxes| - 1];
      assert front[..n] == inboxes[..n];
      LaterInboxes(front, n, server, id);
      FirstReactionConcat(Flatten(front), inboxes[|inboxes| - 1], server, id);
    } else {
      assert inboxes[..n] == inboxes;
    }
  }

  // ---------------------------------------------------------------- what the wallet is told

  /** A response of the server to the request with this id. */
  predicate IsAnswer(g: Gift, server: string, id: string) {
    g.sender == server && g.kind == 25079 && g.content.Some? && g.content.value.id == id
  }

  /** The server's result, the empty object for none; or its error code, `internal` for none. */
  predicate Tells(e: Wire, o: Outcome) {
    if e.ok then
      if e.result.Some? then o == Returned(Result(e.result.value)) else o == Returned(EmptyObject)
    else
      if e.error.Some? then o == ProtocolError(e.error.value) else o == ProtocolError(Internal)
  }

  /** The attempts up to this one can all be sent. */
  predicate SentUpTo(attempts: seq<Attempt>, k: int) {
    0 <= k < |attempts| && forall j :: 0 <= j <= k ==> attempts[j].Some?
  }

  /** Gift `i` of attempt `k` is the first answer. */
  ghost predicate Heard(server: string, id: string, attempts: seq<Attempt>, k: int, i: int) {
    && SentUpTo(attempts, k) && 0 <= i < |attempts[k].value| && IsAnswer(attempts[k].value[i], server, id)
    && (forall m :: 0 <= m < i ==> !IsAnswer(attempts[k].value[m], server, id))
    && (forall j, g :: 0 <= j < k && g in attempts[j].value ==> !IsAnswer(g, server, id))
  }

  ghost predicate Unheard(server: string, id: string, attempts: seq<Attempt>) {
    forall k, g :: SentUpTo(attempts, k) && g in attempts[k].value ==> !IsAnswer(g, server, id)
  }

  /** Exactly the answers are not ignored. */
  lemma IgnoredIff(g: Gift, server: string, id: string)
    ensures ParseResponse(g, server, id) == Ignore <==> !IsAnswer(g, server, id)
    ensures IsAnswer(g, server, id) ==> forall attempts :: Tells(g.content.value, Settled(ParseResponse(g, server, id), attempts))
  {
  }

  lemma NoAnswer(gifts: seq<Gift>, server: string, id: string)
    ensures FirstReaction(gifts, server, id) == Ignore <==> forall g :: g in gifts ==> !IsAnswer(g, server, id)
  {
    FirstReactionIs(gifts, server, id);
    forall g ensures ParseResponse(g, server, id) == Ignore <==> !IsAnswer(g, server, id) {
      IgnoredIff(g, server, id);
    }
    hide IsAnswer, ParseResponse, FirstReaction;
    var r := FirstReaction(gifts, server, id);
    if r != Ignore {
      var i :| FirstAt(gifts, server, id, i, r);
      assert gifts[i] in gifts;
    }
  }

  lemma FirstAnswer(gifts: seq<Gift>, server: string, id: string, i: nat)
    requires i < |gifts| && IsAnswer(gifts[i], server, id)
    requires forall m :: 0 <= m < i ==> !IsAnswer(gifts[m], server, id)
    ensures FirstReaction(gifts, server, id) == ParseResponse(gifts[i], server, id) != Ignore
  {
    NoAnswer(gifts, server, id);
    FirstReactionIs(gifts, server, id);
    forall g ensures ParseResponse(g, server, id) == Ignore <==> !IsAnswer(g, server, id) {
      IgnoredIff(g, server, id);
    }
    hide IsAnswer, ParseResponse, FirstReaction;
    assert gifts[i] in gifts;
    var r := FirstReaction(gifts, server, id);
    var n :| FirstAt(gifts, server, id, n, r);
    assert n == i;
  }

  /** The first answer over all attempts decides the outcome, and the attempt in which it comes is the last. */
  lemma HeardDecides(server: string, id: string, attempts: seq<Attempt>, k: int, i: int)
    requires Heard(server, id, attempts, k, i)
    ensures Tells(attempts[k].value[i].content.value, Concluded(server, id, attempts))
    ensures k < |Inboxes(attempts)|
    ensures FirstReaction(Flatten(Inboxes(attempts)[..k]), server, id) == Ignore
    ensures FirstReaction(Flatten(Inboxes(attempts)[..k + 1]), server, id) != Ignore
  {
    var inboxes := Inboxes(attempts);
    var before := Flatten(inboxes[..k]);
    forall g | g in before ensures !IsAnswer(g, server, id) {
      InFlatten(inboxes[..k], g);
    }
    NoAnswer(before, server, id);
    FirstAnswer(inboxes[k], server, id, i);
    FlattenNext(inboxes, k);
    FirstReactionConcat(before, inboxes[k], server, id);
    LaterInboxes(inboxes, k + 1, server, id);
    IgnoredIff(inboxes[k][i], server, id);
  }

  /** Without an answer the outcome tells whether sending failed, the time ran out, or nothing was tried. */
  lemma UnheardFails(server: string, id: string, attempts: seq<Attempt>)
    requires Unheard(server, id, attempts)
    ensures FirstReaction(Flatten(Inboxes(attempts)), server, id) == Ignore
    ensures Concluded(server, id, attempts) ==
      if exists k :: 0 <= k < |attempts| && attempts[k].None? then SendFailed
      else if |attempts| == 0 then NoAttempts else TimedOut
  {
    var gifts := Flatten(Inboxes(attempts));
    forall g | g in gifts ensures !IsAnswer(g, server, id) {
      InFlatten(Inboxes(attempts), g);
      var k :| 0 <= k < |Inboxes(attempts)| && g in Inboxes(attempts)[k];
      assert SentUpTo(attempts, k);
    }
    NoAnswer(gifts, server, id);
  }

  /** An attempt that ends with an answer is the one in which the first answer came. */
  lemma AnsweredIn(server: string, id: string, attempts: seq<Attempt>, sent: nat)
    requires 0 < sent <= |Inboxes(attempts)| && FirstReaction(Inboxes(attempts)[sent - 1], server, id) != Ignore
    requires FirstReaction(Flatten(Inboxes(attempts)[..sent - 1]), server, id) == Ignore
    ensures !Unheard(server, id, attempts)
    ensures forall k, i :: Heard(server, id, attempts, k, i) ==>
      Tells(attempts[k].value[i].content.value, Concluded(server, id, attempts)) && sent == k + 1
  {
    var inboxes := Inboxes(attempts);
    NoAnswer(inboxes[sent - 1], server, id);
    var a :| a in inboxes[sent - 1] && IsAnswer(a, server, id);
    assert SentUpTo(attempts, sent - 1) && a in attempts[sent - 1].value;
    forall k, i | Heard(server, id, attempts, k, i)
      ensures Tells(attempts[k].value[i].content.value, Concluded(server, id, attempts)) && sent == k + 1
    {
      HeardDecides(server, id, attempts, k, i);
      assert k <= sent - 1;
      if k < sent - 1 {
        IgnoredBefore(inboxes, server, id, sent - 1, k, i);
      }
    }
  }

  lemma IgnoredBefore(inboxes: seq<seq<Gift>>, server: string, id: string, n: nat, k: nat, i: nat)
    requires k < n <= |inboxes| && i < |inboxes[k]| && FirstReaction(Flatten(inboxes[..n]), server, id) == Ignore
    ensures !IsAnswer(inboxes[k][i], server, id)
  {
    var g, before := inboxes[k][i], inboxes[..n];
    NoAnswer(Flatten(before), server, id);
    InFlatten(before, g);
    assert before[k] in before && g in before[k];
  }

  lemma NothingHeard(server: string, id: string, attempts: seq<Attempt>)
    requires FirstReaction(Flatten(Inboxes(attempts)), server, id) == Ignore
    ensures forall k, i :: !Heard(server, id, attempts, k, i)
    ensures Unheard(server, id, attempts) ==>
      Concluded(server, id, attempts) ==
      if exists k :: 0 <= k < |attempts| && attempts[k].None? then SendFailed
      else if |attempts| == 0 then NoAttempts else TimedOut
  {
    var inboxes := Inboxes(attempts);
    assert inboxes[..|inboxes|] == inboxes;
    forall k, i ensures !Heard(server, id, attempts, k, i) {
      if k < |inboxes| && 0 <= k && 0 <= i < |inboxes[k]| {
        IgnoredBefore(inboxes, server, id, |inboxes|, k, i);
      }
    }
    if Unheard(server, id, attempts) {
      UnheardFails(server, id, attempts);
    }
  }
}
