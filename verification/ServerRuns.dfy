/**
 Runs of the server: requests arrive one at a time in any order and number, and between the
 admission of a request and its handler, and between the two file writes of an unpair request, the
 LAN page may revoke a wallet or display the QR. The server may restart at any step.
 */
module ServerRuns {
  import opened Prelude
  import opened Protocol
  import opened Store
  import opened Handlers
  import opened Transport
  import Journal
  import Pairing
  import RateLimit
  import Replay

  /** A request that passed admission and authorization; `removed` marks an unpair request half done. */
  datatype Job = Job(sender: string, env: Envelope, now: nat, removed: bool)

  datatype Node = Node(server: Server, job: Option<Job>)

  datatype Event =
    | Receive(sender: string, content: Content, now: nat, cacheWritten: bool)
    | Proceed(io: Io)  // the handler runs, up to its next file write
    | Revoke(key: string, written: bool)
    | ShowQr(now: nat, random: Bytes)
    | Restart

  const EMPTY := Node(Server(Replay.Cache(map[], map[]), map[], None, Disk({}, {}), Disk(map[], map[])), None)

  /** The well-formed request event `e` brings to an idle server. */
  function Incoming(w: World, n: Node, e: Event): Option<Envelope> {
    if e.Receive? && n.job.None? then
      match ParseRequest(w, e.content)
      case Request(env) => Some(env)
      case Drop => None
      case Reply(_) => None
    else None
  }

  ghost function Admitting(w: World, n: Node, e: Event): (Server, Verdict)
    requires Incoming(w, n, e).Some?
  {
    Admission(n.server, e.sender, Incoming(w, n, e).value.id, e.now, e.cacheWritten)
  }

  /** The handler's next part; without an answer there is one more. Only unpairing writes twice. */
  ghost function Proceeding(w: World, s: Server, j: Job, io: Io): (Server, Option<Body>) {
    if j.removed then (ClearStep(s, j.sender, io), Some(Unpaired))
    else if j.env.msgType == Unpair then RemoveStep(s, j.sender, io)
    else
      var (s', body) := Handled(w, s, j.sender, j.env, j.now, io);
      (s', Some(body))
  }

  ghost function Next(w: World, n: Node, e: Event): Node {
    match e
    case Receive(sender, content, now, _) =>
      if Incoming(w, n, e).None? then n
      else
        var env := Incoming(w, n, e).value;
        var (s, verdict) := Admitting(w, n, e);
        Node(s, if verdict == Admitted && Authorized(s, sender, env) then Some(Job(sender, env, now, false)) else None)
    case Proceed(io) =>
      if n.job.None? then n
      else
        var (s, body) := Proceeding(w, n.server, n.job.value, io);
        Node(s, if body.Some? then None else Some(n.job.value.(removed := true)))
    case Revoke(key, written) =>
      if key !in n.server.allow.mem then n
      else n.(server := n.server.(allow := Written(n.server.allow, n.server.allow.mem - {key}, written)))
    case ShowQr(now, random) =>
      n.(server := n.server.(pairing := Pairing.Shown(n.server.pairing, now, random)))
    case Restart =>
      var s := n.server;
      Node(Server(s.cache.Restarted(), map[], None, Disk(s.allow.file, s.allow.file), Disk(s.watch.file, s.watch.file)), None)
  }

  /** The response event `e` sends, and to whom. */
  ghost function Output(w: World, n: Node, e: Event): Option<(string, Response)> {
    if e.Receive? && n.job.None? then
      match ParseRequest(w, e.content)
      case Drop => None
      case Reply(r) => Some((e.sender, r))
      case Request(env) =>
        var (s, verdict) := Admitting(w, n, e);
        if verdict == Duplicate then None
        else if verdict == Limited then Some((e.sender, Response(env.id, Failure(RateLimited))))
        else if !Authorized(s, e.sender, env) then Some((e.sender, Response(env.id, Failure(NotPaired))))
        else None
    else if e.Proceed? && n.job.Some? then
      var j := n.job.value;
      var body := Proceeding(w, n.server, j, e.io).1;
      if body.Some? then Some((j.sender, Response(j.env.id, body.value))) else None
    else None
  }

  /** The handler runs to its end with nothing in between; its response. */
  ghost function RunHandler(w: World, n: Node, io: Io): (Node, Option<(string, Response)>)
    requires n.job.Some?
  {
    var e := Proceed(io);
    var n' := Next(w, n, e);
    if n'.job.None? then (n', Output(w, n, e)) else (Next(w, n', e), Output(w, n', e))
  }

  /** A request received and handled with nothing in between is what `route` does. */
  lemma ReceiveThenProceedIsRoute(w: World, s: Server, sender: string, content: Content, now: nat, io: Io)
    requires ParseRequest(w, content).Request?
    ensures var env := ParseRequest(w, content).env;
      var n, e := Node(s, None), Receive(sender, content, now, io.cacheWritten);
      var n' := Next(w, n, e);
      var (s', r) := Routed(w, s, sender, env, now, io);
      (if n'.job.None? then (n', Output(w, n, e)) else RunHandler(w, n', io))
        == (Node(s', None), if r.Some? then Some((sender, r.value)) else None)
  {
  }

  /**
   Once its cache entry has expired an envelope is dispatched again: an unpair request repeated after
   the retention period removes a wallet that has paired again since.
   */
  lemma ExpiredUnpairActsAgain(w: World, n: Node, sender: string, content: Content, now: nat, io: Io)
    requires n.job.None? && ParseRequest(w, content).Request? && ParseRequest(w, content).env.msgType == Unpair
    requires var id := ParseRequest(w, content).env.id;
      id in n.server.cache.seen && SaturatingSub(now, n.server.cache.seen[id]) >= Replay.RETENTION_SECS
    requires sender in n.server.allow.mem
    requires RateLimit.Level(RateLimit.Lookup(n.server.buckets, sender), now) >= 1
    ensures var n' := Next(w, Next(w, n, Receive(sender, content, now, io.cacheWritten)), Proceed(io));
      sender !in n'.server.allow.mem
  {
    var e := Receive(sender, content, now, io.cacheWritten);
    assert Admitting(w, n, e).1 == Admitted;
    assert Next(w, n, e).job == Some(Job(sender, ParseRequest(w, content).env, now, false));
  }

  ghost function After(w: World, es: seq<Event>): Node {
    if es == [] then EMPTY else Next(w, After(w, es[..|es| - 1]), es[|es| - 1])
  }

  // ---------------------------------------------------------------- who is answered what

  /** Event `s` admitted the request in progress, from a sender allowlisted then unless it asks to pair. */
  ghost predicate AdmittedAt(w: World, es: seq<Event>, s: int, job: Job) {
    && 0 <= s < |es| && es[s].Receive? && es[s].sender == job.sender && es[s].content == Readable(PROTOCOL_VERSION, job.env)
    && (job.env.msgType == Pair || job.sender in After(w, es[..s]).server.allow.mem)
  }

  lemma AdmissionStep(w: World, n: Node, e: Event)
    requires Next(w, n, e).job.Some?
    ensures var j := Next(w, n, e).job.value;
      if n.job.Some? then j.sender == n.job.value.sender && j.env == n.job.value.env
      else (e.Receive? && e.sender == j.sender && e.content == Readable(PROTOCOL_VERSION, j.env)
            && (j.env.msgType == Pair || j.sender in n.server.allow.mem))
  {
  }

  lemma {:induction false} JobWasAdmitted(w: World, es: seq<Event>) returns (s: nat)
    requires After(w, es).job.Some?
    ensures AdmittedAt(w, es, s, After(w, es).job.value)
    decreases |es|
  {
    var k := |es| - 1;
    var n := After(w, es[..k]);
    AdmissionStep(w, n, es[k]);
    assert After(w, es) == Next(w, n, es[k]);
    hide Next, After;
    if n.job.Some? {
      s := JobWasAdmitted(w, es[..k]);
      assert es[..k][..s] == es[..s];
    } else {
      s := k;
    }
  }

  /** On arrival a request is answered only to refuse it. */
  lemma ArrivalAnswer(w: World, n: Node, e: Event)
    requires e.Receive? && Output(w, n, e).Some?
    ensures var (c, r) := Output(w, n, e).value;
      c == e.sender && e.content.Readable?
      && r in {Response(e.content.env.id, Failure(UnsupportedVersion)), Response(NIL_ID, Failure(InvalidRequest)),
               Response(e.content.env.id, Failure(RateLimited)), Response(e.content.env.id, Failure(NotPaired))}
  {
  }

  /** A handler answers its own request: a pair request in one of three ways, any other only to a paired sender. */
  lemma HandlerAnswer(w: World, es: seq<Event>, i: nat) returns (s: nat)
    requires i < |es| && !es[i].Receive? && Output(w, After(w, es[..i]), es[i]).Some?
    ensures var (c, r) := Output(w, After(w, es[..i]), es[i]).value;
      s < i && es[s].Receive? && es[s].sender == c && es[s].content.Readable? && es[s].content.env.id == r.id
      && if es[s].content.env.msgType == Pair then r.body in {Paired, Failure(PairingFailed), Failure(Internal)}
         else c in After(w, es[..s]).server.allow.mem
  {
    var n := After(w, es[..i]);
    s := JobWasAdmitted(w, es[..i]);
    assert es[..i][..s] == es[..s];
    OnlyUnpairingIsHalved(w, es[..i]);
    HandlerOutput(w, n, es[i]);
    hide Output, After;
  }

  lemma HandlerOutput(w: World, n: Node, e: Event)
    requires !e.Receive? && Output(w, n, e).Some?
    requires n.job.Some? && n.job.value.removed ==> n.job.value.env.msgType == Unpair
    ensures n.job.Some? && Output(w, n, e).value.0 == n.job.value.sender
    ensures var r := Output(w, n, e).value.1;
      r.id == n.job.value.env.id
      && (n.job.value.env.msgType == Pair ==> r.body in {Paired, Failure(PairingFailed), Failure(Internal)})
  {
  }

  /**
   Over every run, every other answer than a refusal on arrival or one of the three to a pair request goes to a
   sender that was allowlisted when its request with that id arrived.
   */
  lemma StrangersLearnNothing(w: World, es: seq<Event>, i: nat)
    requires i < |es| && Output(w, After(w, es[..i]), es[i]).Some?
    ensures var (c, r) := Output(w, After(w, es[..i]), es[i]).value;
      r.body in {Failure(UnsupportedVersion), Failure(InvalidRequest), Failure(RateLimited), Failure(NotPaired),
                 Failure(PairingFailed), Failure(Internal), Paired}
      || exists s :: 0 <= s < i && es[s].Receive? && es[s].sender == c && c in After(w, es[..s]).server.allow.mem
                     && es[s].content.Readable? && es[s].content.env.id == r.id
  {
    if es[i].Receive? {
      ArrivalAnswer(w, After(w, es[..i]), es[i]);
    } else {
      var s := HandlerAnswer(w, es, i);
    }
    hide Output, After;
  }

  /** A fresh request of a sender not allowlisted, with a token left, is refused at once unless it asks to pair. */
  lemma StrangerIsRefusedAtOnce(w: World, n: Node, e: Event)
    requires Incoming(w, n, e).Some? && Incoming(w, n, e).value.msgType != Pair && e.sender !in n.server.allow.mem
    requires Replay.Fresh(n.server.cache.seen, Incoming(w, n, e).value.id, e.now)
    requires RateLimit.Level(RateLimit.Lookup(n.server.buckets, e.sender), e.now) >= 1
    ensures Output(w, n, e) == Some((e.sender, Response(Incoming(w, n, e).value.id, Failure(NotPaired))))
    ensures Next(w, n, e).job.None?
  {
  }

  // ---------------------------------------------------------------- the allowlist and the watch sets

  ghost predicate AllWritten(es: seq<Event>) {
    forall i :: 0 <= i < |es| ==>
      (es[i].Proceed? ==> es[i].io.allowWritten && es[i].io.watchWritten)
      && (es[i].Revoke? ==> es[i].written)
  }

  /** Event `e` answers a request of `key` of this type with this body. */
  ghost predicate Answers(w: World, n: Node, e: Event, key: string, msgType: MsgType, body: Body) {
    e.Proceed? && n.job.Some? && n.job.value.sender == key && n.job.value.env.msgType == msgType
    && Proceeding(w, n.server, n.job.value, e.io).1 == Some(body)
  }

  ghost predicate PairSucceeds(w: World, n: Node, e: Event, key: string) {
    Answers(w, n, e, key, Pair, Paired)
  }

  /** Event `e` puts `key` on the allowlist, whether or not that gets written. */
  ghost predicate PairAdds(w: World, n: Node, e: Event, key: string) {
    e.Proceed? && n.job.Some? && n.job.value.sender == key && n.job.value.env.msgType == Pair && !n.job.value.removed
    && key !in n.server.allow.mem
    && Pairing.Verifies(w.hmac, n.server.pairing, n.job.value.now, key, n.job.value.env.proof)
  }

  /** Event `e` takes `key` off the allowlist at its own request, whether or not that gets written. */
  ghost predicate UnpairRemoves(n: Node, e: Event, key: string) {
    e.Proceed? && n.job.Some? && n.job.value.sender == key && n.job.value.env.msgType == Unpair && !n.job.value.removed
    && key in n.server.allow.mem
  }

  /** Event `e` ends an unpair request of `key`: its watch set goes. */
  ghost predicate UnpairClears(n: Node, e: Event, key: string) {
    e.Proceed? && n.job.Some? && n.job.value.sender == key && n.job.value.removed
  }

  ghost predicate Revokes(n: Node, e: Event, key: string) {
    e.Revoke? && e.key == key && key in n.server.allow.mem
  }

  /** The latest pairing of `key`, or -1. */
  ghost function LatestPair(w: World, es: seq<Event>, key: string): (i: int)
    ensures -1 <= i < |es|
  {
    if es == [] then -1
    else
      var k := |es| - 1;
      if PairAdds(w, After(w, es[..k]), es[k], key) then k else LatestPair(w, es[..k], key)
  }

  /** The latest removal of `key` from the allowlist, by itself or on the LAN page, or -1. */
  ghost function LatestRemoval(w: World, es: seq<Event>, key: string): (i: int)
    ensures -1 <= i < |es|
  {
    if es == [] then -1
    else
      var k := |es| - 1;
      var n := After(w, es[..k]);
      if UnpairRemoves(n, es[k], key) || Revokes(n, es[k], key) then k else LatestRemoval(w, es[..k], key)
  }

  ghost predicate FilesCurrent(n: Node) {
    n.server.allow.mem == n.server.allow.file && n.server.watch.mem == n.server.watch.file
  }

  /** Every restart finds the two files as the memory was. */
  ghost predicate CurrentAtRestarts(w: World, es: seq<Event>) {
    forall r :: 0 <= r < |es| && es[r].Restart? ==> FilesCurrent(After(w, es[..r]))
  }

  lemma CurrentPrefix(w: World, es: seq<Event>)
    requires CurrentAtRestarts(w, es) && es != []
    ensures CurrentAtRestarts(w, es[..|es| - 1])
    ensures es[|es| - 1].Restart? ==> FilesCurrent(After(w, es[..|es| - 1]))
  {
    hide After, FilesCurrent;
    var front := es[..|es| - 1];
    forall r | 0 <= r < |front| && front[r].Restart? ensures FilesCurrent(After(w, front[..r])) {
      assert front[..r] == es[..r];
    }
  }

  /** Whether event `e` writes the allowlist, and if so whether that succeeds. */
  ghost function AllowWrite(w: World, n: Node, e: Event): Option<bool> {
    if e.Revoke? && Revokes(n, e, e.key) then Some(e.written)
    else if e.Proceed? && n.job.Some? && (PairAdds(w, n, e, n.job.value.sender) || UnpairRemoves(n, e, n.job.value.sender))
    then Some(e.io.allowWritten)
    else None
  }

  /** Likewise for the watch sets. */
  ghost function WatchWrite(w: World, n: Node, e: Event): Option<bool> {
    if e.Proceed? && n.job.Some? && (WatchAccepts(w, n, e, n.job.value.sender)
      || (UnpairClears(n, e, n.job.value.sender) && n.job.value.sender in n.server.watch.mem))
    then Some(e.io.watchWritten)
    else None
  }

  /** The latest write to the allowlist since the last restart, if any, succeeded. */
  ghost predicate AllowSaved(w: World, es: seq<Event>) {
    if es == [] || es[|es| - 1].Restart? then true
    else
      var k := |es| - 1;
      var x := AllowWrite(w, After(w, es[..k]), es[k]);
      if x.Some? then x.value else AllowSaved(w, es[..k])
  }

  ghost predicate WatchSaved(w: World, es: seq<Event>) {
    if es == [] || es[|es| - 1].Restart? then true
    else
      var k := |es| - 1;
      var x := WatchWrite(w, After(w, es[..k]), es[k]);
      if x.Some? then x.value else WatchSaved(w, es[..k])
  }

  lemma WriteStep(w: World, n: Node, e: Event)
    ensures var n' := Next(w, n, e);
      (n'.server.allow.mem == n'.server.allow.file
        <== e.Restart? || (if AllowWrite(w, n, e).Some? then AllowWrite(w, n, e).value else n.server.allow.mem == n.server.allow.file))
    ensures var n' := Next(w, n, e);
      (n'.server.watch.mem == n'.server.watch.file
        <== e.Restart? || (if WatchWrite(w, n, e).Some? then WatchWrite(w, n, e).value else n.server.watch.mem == n.server.watch.file))
  {
    if e.Proceed? && n.job.Some? && n.job.value.removed && n.job.value.sender !in n.server.watch.mem {
      assert n.server.watch.mem - {n.job.value.sender} == n.server.watch.mem;
    }
  }

  /** The files are current when the latest write to each succeeded. */
  lemma {:induction false} SavedIsCurrent(w: World, es: seq<Event>)
    ensures AllowSaved(w, es) ==> After(w, es).server.allow.mem == After(w, es).server.allow.file
    ensures WatchSaved(w, es) ==> After(w, es).server.watch.mem == After(w, es).server.watch.file
    decreases |es|
  {
    if es != [] {
      var k := |es| - 1;
      SavedIsCurrent(w, es[..k]);
      WriteStep(w, After(w, es[..k]), es[k]);
      hide Next, AllowWrite, WatchWrite;
    }
  }

  /** So it is enough that the latest write to each file before each restart succeeds. */
  lemma SavedRestartsAreCurrent(w: World, es: seq<Event>)
    requires forall r :: 0 <= r < |es| && es[r].Restart? ==> AllowSaved(w, es[..r]) && WatchSaved(w, es[..r])
    ensures CurrentAtRestarts(w, es)
  {
    forall r | 0 <= r < |es| && es[r].Restart? ensures FilesCurrent(After(w, es[..r])) {
      SavedIsCurrent(w, es[..r]);
    }
    hide After;
  }

  /** What one event does to the membership of `key`. */
  lemma MembershipStep(w: World, n: Node, e: Event, key: string)
    requires e.Restart? ==> FilesCurrent(n)
    ensures key in Next(w, n, e).server.allow.mem <==>
      PairAdds(w, n, e, key)
      || (key in n.server.allow.mem && !UnpairRemoves(n, e, key) && !Revokes(n, e, key))
    ensures PairAdds(w, n, e, key) ==> !UnpairRemoves(n, e, key) && !Revokes(n, e, key)
  {
  }

  /** If restarts find the files current, a key is allowlisted if and only if its latest pairing follows its latest removal. */
  lemma {:induction false} AllowlistIsLatest(w: World, es: seq<Event>, key: string)
    requires CurrentAtRestarts(w, es)
    ensures key in After(w, es).server.allow.mem <==> LatestPair(w, es, key) > LatestRemoval(w, es, key)
    decreases |es|
  {
    if es != [] {
      var k := |es| - 1;
      var front, e := es[..k], es[k];
      CurrentPrefix(w, es);
      AllowlistIsLatest(w, front, key);
      MembershipStep(w, After(w, front), e, key);
      hide Next, FilesCurrent, PairAdds, UnpairRemoves, Revokes, CurrentAtRestarts;
    }
  }

  /** The latest ending of an unpair request of `key`, or -1. */
  ghost function LatestClear(w: World, es: seq<Event>, key: string): (i: int)
    ensures -1 <= i < |es|
  {
    if es == [] then -1
    else
      var k := |es| - 1;
      if UnpairClears(After(w, es[..k]), es[k], key) then k else LatestClear(w, es[..k], key)
  }

  /** Event `e` accepts a watch request of `key`, whether or not the new set gets written. */
  ghost predicate WatchAccepts(w: World, n: Node, e: Event, key: string) {
    e.Proceed? && n.job.Some? && n.job.value.sender == key && n.job.value.env.msgType == WatchAddresses
    && !n.job.value.removed && Validated(w, n.job.value.env.addresses, MAX_WATCH_ADDRESSES).Some?
  }

  /** The latest accepted watch request of `key`, or -1. */
  ghost function LatestWatch(w: World, es: seq<Event>, key: string): (i: int)
    ensures -1 <= i < |es|
  {
    if es == [] then -1
    else
      var k := |es| - 1;
      if WatchAccepts(w, After(w, es[..k]), es[k], key) then k else LatestWatch(w, es[..k], key)
  }

  /** The addresses a watch request lists, if it lists any and all are valid. */
  ghost function Requested(w: World, env: Envelope): Option<seq<string>> {
    var list := Validated(w, env.addresses, MAX_WATCH_ADDRESSES);
    if list == Some([]) then None else list
  }

  /** The addresses asked for by the watch request that event `i` accepts. */
  ghost function RequestedAt(w: World, es: seq<Event>, i: nat): Option<seq<string>>
    requires i < |es|
  {
    var n := After(w, es[..i]);
    if n.job.Some? then Requested(w, n.job.value.env) else None
  }

  ghost function Watched(n: Node, key: string): Option<seq<string>> {
    if key in n.server.watch.mem then Some(n.server.watch.mem[key]) else None
  }

  /** What one event does to the watch set of `key`. */
  lemma WatchSetStep(w: World, n: Node, e: Event, key: string)
    requires e.Restart? ==> FilesCurrent(n)
    ensures Watched(Next(w, n, e), key) ==
      if WatchAccepts(w, n, e, key) then Requested(w, n.job.value.env)
      else if UnpairClears(n, e, key) then None
      else Watched(n, key)
    ensures WatchAccepts(w, n, e, key) ==> !UnpairClears(n, e, key)
  {
  }

  lemma WatchHistoryNext(w: World, es: seq<Event>, key: string)
    requires es != []
    ensures var k := |es| - 1;
      var n, i := After(w, es[..k]), LatestWatch(w, es[..k], key);
      LatestWatch(w, es, key) == (if WatchAccepts(w, n, es[k], key) then k else i)
      && LatestClear(w, es, key) == (if UnpairClears(n, es[k], key) then k else LatestClear(w, es[..k], key))
      && (i >= 0 ==> RequestedAt(w, es, i) == RequestedAt(w, es[..k], i))
      && (WatchAccepts(w, n, es[k], key) ==> n.job.Some? && RequestedAt(w, es, k) == Requested(w, n.job.value.env))
  {
    var k := |es| - 1;
    var i := LatestWatch(w, es[..k], key);
    assert i >= 0 ==> es[..k][..i] == es[..i];
    hide After, Proceeding, Requested, UnpairClears;
  }

  /**
   If restarts find the files current, the watch set of a key is the list of its latest accepted watch
   request, unless that list was empty or the wallet unpaired since, to the end. A revocation on the LAN
   page does not enter into it.
   */
  lemma {:induction false} WatchSetIsLatest(w: World, es: seq<Event>, key: string)
    requires CurrentAtRestarts(w, es)
    ensures var i := LatestWatch(w, es, key);
      Watched(After(w, es), key) == if i > LatestClear(w, es, key) then RequestedAt(w, es, i) else None
    decreases |es|
  {
    if es != [] {
      var k := |es| - 1;
      var front, e := es[..k], es[k];
      CurrentPrefix(w, es);
      WatchSetIsLatest(w, front, key);
      WatchSetStep(w, After(w, front), e, key);
      WatchHistoryNext(w, es, key);
      hide Next, Watched, RequestedAt, LatestWatch, LatestClear, WatchAccepts, UnpairClears, FilesCurrent, CurrentAtRestarts;
    }
  }

  // ---------------------------------------------------------------- whichever writes fail

  /** What event `e` means to the place of `key` on the allowlist. */
  ghost function AllowMark(w: World, n: Node, e: Event, key: string): Journal.Mark<bool> {
    if e.Restart? then Journal.Reboot
    else if PairAdds(w, n, e, key) then Journal.Set(true, e.io.allowWritten)
    else if UnpairRemoves(n, e, key) then Journal.Set(false, e.io.allowWritten)
    else if Revokes(n, e, key) then Journal.Set(false, e.written)
    else if AllowWrite(w, n, e).Some? then Journal.Touch(AllowWrite(w, n, e).value)
    else Journal.Other
  }

  /** What event `e` means to the watch set of `key`. */
  ghost function WatchMark(w: World, n: Node, e: Event, key: string): Journal.Mark<Option<seq<string>>> {
    if e.Restart? then Journal.Reboot
    else if WatchAccepts(w, n, e, key) then Journal.Set(Requested(w, n.job.value.env), e.io.watchWritten)
    else if UnpairClears(n, e, key) && key in n.server.watch.mem then Journal.Set(None, e.io.watchWritten)
    else if WatchWrite(w, n, e).Some? then Journal.Touch(WatchWrite(w, n, e).value)
    else Journal.Other
  }

  ghost function AllowMarks(w: World, es: seq<Event>, key: string): (ms: seq<Journal.Mark<bool>>)
    ensures |ms| == |es| && forall i :: 0 <= i < |es| ==> ms[i] == AllowMark(w, After(w, es[..i]), es[i], key)
  {
    seq(|es|, i requires 0 <= i < |es| => AllowMark(w, After(w, es[..i]), es[i], key))
  }

  ghost function WatchMarks(w: World, es: seq<Event>, key: string): (ms: seq<Journal.Mark<Option<seq<string>>>>)
    ensures |ms| == |es| && forall i :: 0 <= i < |es| ==> ms[i] == WatchMark(w, After(w, es[..i]), es[i], key)
  {
    seq(|es|, i requires 0 <= i < |es| => WatchMark(w, After(w, es[..i]), es[i], key))
  }

  ghost function AllowCopies(n: Node, key: string): Journal.Copies<bool> {
    Journal.Copies(key in n.server.allow.mem, key in n.server.allow.file)
  }

  ghost function WatchCopies(n: Node, key: string): Journal.Copies<Option<seq<string>>> {
    Journal.Copies(Watched(n, key), if key in n.server.watch.file then Some(n.server.watch.file[key]) else None)
  }

  lemma AllowMarkStep(w: World, n: Node, e: Event, key: string)
    ensures AllowCopies(Next(w, n, e), key) == Journal.Noted(AllowCopies(n, key), AllowMark(w, n, e, key))
  {
  }

  lemma WatchMarkStep(w: World, n: Node, e: Event, key: string)
    ensures WatchCopies(Next(w, n, e), key) == Journal.Noted(WatchCopies(n, key), WatchMark(w, n, e, key))
  {
    hide Validated, Pairing.Shown, Pairing.Verified, Pairing.Verifies;
  }

  lemma AllowMarksPrefix(w: World, es: seq<Event>, key: string, k: nat)
    requires k <= |es|
    ensures AllowMarks(w, es, key)[..k] == AllowMarks(w, es[..k], key)
  {
    hide After, AllowMark, AllowMarks;
    assert forall i :: 0 <= i < k ==> es[..k][..i] == es[..i];
  }

  lemma {:induction false} AllowIsPlayed(w: World, es: seq<Event>, key: string)
    ensures AllowCopies(After(w, es), key) == Journal.Played(AllowMarks(w, es, key), false)
    decreases |es|
  {
    if es != [] {
      var k := |es| - 1;
      var n, ms := After(w, es[..k]), AllowMarks(w, es, key);
      assert After(w, es) == Next(w, n, es[k]);
      hide *;
      AllowIsPlayed(w, es[..k], key);
      AllowMarkStep(w, n, es[k], key);
      AllowMarksPrefix(w, es, key, k);
      Journal.PlayedNext(ms, false);
    } else {
      NoMarks(w, key);
    }
  }

  lemma WatchMarksPrefix(w: World, es: seq<Event>, key: string, k: nat)
    requires k <= |es|
    ensures WatchMarks(w, es, key)[..k] == WatchMarks(w, es[..k], key)
  {
    hide After, WatchMark, WatchMarks;
    assert forall i :: 0 <= i < k ==> es[..k][..i] == es[..i];
  }

  lemma {:induction false} WatchIsPlayed(w: World, es: seq<Event>, key: string)
    ensures WatchCopies(After(w, es), key) == Journal.Played(WatchMarks(w, es, key), None)
    decreases |es|
  {
    if es != [] {
      var k := |es| - 1;
      var n, ms := After(w, es[..k]), WatchMarks(w, es, key);
      assert After(w, es) == Next(w, n, es[k]);
      hide *;
      WatchIsPlayed(w, es[..k], key);
      WatchMarkStep(w, n, es[k], key);
      WatchMarksPrefix(w, es, key, k);
      Journal.PlayedNext(ms, None);
    } else {
      NoMarks(w, key);
    }
  }

  lemma NoMarks(w: World, key: string)
    ensures AllowCopies(After(w, []), key) == Journal.Played(AllowMarks(w, [], key), false)
    ensures WatchCopies(After(w, []), key) == Journal.Played(WatchMarks(w, [], key), None)
  {
  }

  /** The latest change of the key's place that no restart undid, if any, put it on the list. */
  ghost predicate LastPutOn(w: World, es: seq<Event>, key: string, file: bool) {
    exists i :: Journal.IsLatest(AllowMarks(w, es, key), i, file) && AllowMarks(w, es, key)[i].value
  }

  /**
   Whichever writes fail, a key is allowlisted if and only if its latest change was a pairing, not counting
   a change that a restart undid: one that came before any later write of the file succeeded. On disk, the
   same with the changes that a restart now would undo left out as well.
   */
  lemma AllowlistIsHistory(w: World, es: seq<Event>, key: string)
    ensures key in After(w, es).server.allow.mem <==> LastPutOn(w, es, key, false)
    ensures key in After(w, es).server.allow.file <==> LastPutOn(w, es, key, true)
  {
    var ms := AllowMarks(w, es, key);
    AllowIsPlayed(w, es, key);
    Journal.PlayedIsHistory(ms, false);
    assert AllowCopies(After(w, es), key).mem == (key in After(w, es).server.allow.mem)
      && AllowCopies(After(w, es), key).file == (key in After(w, es).server.allow.file);
    hide After, AllowMarks, AllowCopies, Journal.Played, Journal.Shows, Journal.IsLatest;
    ShownIsLatest(ms, false, Journal.Played(ms, false).mem);
    ShownIsLatest(ms, true, Journal.Played(ms, false).file);
  }

  lemma ShownIsLatest(ms: seq<Journal.Mark<bool>>, file: bool, v: bool)
    requires Journal.Shows(ms, false, file, v)
    ensures v <==> exists i :: Journal.IsLatest(ms, i, file) && ms[i].value
  {
    if i :| Journal.IsLatest(ms, i, file) && ms[i].value {
      assert Journal.Shows(ms, false, file, true);
      Journal.ShowsOne(ms, false, file, v, true);
    }
  }

  /**
   Whichever writes fail, the watch set of a key, in memory and on disk, is what the latest accepted watch
   request or ended unpair request left, with the changes that restarts undid left out.
   */
  lemma WatchSetIsHistory(w: World, es: seq<Event>, key: string, v: Option<seq<string>>)
    ensures Watched(After(w, es), key) == v <==> Journal.Shows(WatchMarks(w, es, key), None, false, v)
    ensures WatchCopies(After(w, es), key).file == v <==> Journal.Shows(WatchMarks(w, es, key), None, true, v)
  {
    var ms := WatchMarks(w, es, key);
    var c := WatchCopies(After(w, es), key);
    WatchIsPlayed(w, es, key);
    Journal.PlayedIsHistory(ms, None);
    assert c.mem == Watched(After(w, es), key);
    hide After, WatchMarks, WatchCopies, Watched, Journal.Played, Journal.Shows;
    if Journal.Shows(ms, None, false, v) {
      Journal.ShowsOne(ms, None, false, v, c.mem);
    }
    if Journal.Shows(ms, None, true, v) {
      Journal.ShowsOne(ms, None, true, v, c.file);
    }
  }

  /** Every address in any watch set, in memory or on disk, is a valid one. */
  lemma {:induction false} StoredAddressesAreValid(w: World, es: seq<Event>, key: string, a: string)
    ensures key in After(w, es).server.watch.mem && a in After(w, es).server.watch.mem[key] ==> w.validAddress(a)
    ensures key in After(w, es).server.watch.file && a in After(w, es).server.watch.file[key] ==> w.validAddress(a)
    decreases |es|
  {
    if es != [] {
      var k := |es| - 1;
      StoredAddressesAreValid(w, es[..k], key, a);
      WatchMarkStep(w, After(w, es[..k]), es[k], key);
      RequestedIsValid(w, After(w, es[..k]), a);
      hide Next, Requested;
    }
  }

  lemma RequestedIsValid(w: World, n: Node, a: string)
    ensures n.job.Some? && Requested(w, n.job.value.env).Some? && a in Requested(w, n.job.value.env).value ==> w.validAddress(a)
  {
    if n.job.Some? {
      ValidatedIs(w, n.job.value.env.addresses, MAX_WATCH_ADDRESSES);
      hide Validated;
    }
  }

  // ---------------------------------------------------------------- watch sets without a wallet

  /** `key` owns a watch set and is not allowlisted. */
  ghost predicate Orphan(n: Node, key: string) {
    key in n.server.watch.mem && key !in n.server.allow.mem
  }

  /** From history alone, exactly when a key is an orphan, whichever writes fail. */
  lemma OrphanIff(w: World, es: seq<Event>, key: string)
    ensures Orphan(After(w, es), key) <==>
      !Journal.Shows(WatchMarks(w, es, key), None, false, None) && !LastPutOn(w, es, key, false)
  {
    AllowlistIsHistory(w, es, key);
    WatchSetIsHistory(w, es, key, None);
    hide After, WatchMarks, LastPutOn, Journal.Shows;
  }

  /** The latest removal of `key` was a revocation on the LAN page. */
  ghost predicate LastRevoked(w: World, es: seq<Event>, key: string) {
    LatestRemoval(w, es, key) >= 0 && es[LatestRemoval(w, es, key)].Revoke?
  }

  /** No handler ran from event `i` on, before event `r`. */
  predicate Untouched(es: seq<Event>, i: int, r: int) {
    forall k :: 0 <= k < |es| && i < k < r ==> !es[k].Proceed?
  }

  /** The latest removal of `key` was its own and was not written, or its second half is still to come or was lost to a restart. */
  ghost predicate LastInterrupted(w: World, es: seq<Event>, key: string) {
    var i := LatestRemoval(w, es, key);
    i >= 0 && es[i].Proceed?
    && (!es[i].io.allowWritten || (HalfDone(After(w, es), key) && Untouched(es, i, |es|))
        || CutShort(es, i))
  }

  /** The server restarted after event `i` before any handler ran. */
  ghost predicate CutShort(es: seq<Event>, i: int)
    requires 0 <= i
  {
    exists r :: i < r < |es| && es[r].Restart? && Untouched(es, i, r)
  }

  lemma UntouchedNext(es: seq<Event>, i: nat, r: nat)
    requires es != [] && r < |es| && Untouched(es[..|es| - 1], i, r)
    ensures Untouched(es, i, r)
    ensures r == |es| - 1 && !es[r].Proceed? ==> Untouched(es, i, |es|)
  {
    var front := es[..|es| - 1];
    assert forall k :: 0 <= k < |front| ==> front[k] == es[k];
  }

  lemma CutShortNext(es: seq<Event>, i: nat)
    requires es != []
    ensures CutShort(es[..|es| - 1], i) ==> CutShort(es, i)
    ensures es[|es| - 1].Restart? && i < |es| - 1 && Untouched(es, i, |es| - 1) ==> CutShort(es, i)
  {
    var front := es[..|es| - 1];
    if CutShort(front, i) {
      var r :| i < r < |front| && front[r].Restart? && Untouched(front, i, r);
      UntouchedNext(es, i, r);
      assert es[r].Restart?;
    }
  }

  ghost predicate HalfDone(n: Node, key: string) {
    n.job.Some? && n.job.value.sender == key && n.job.value.removed
  }

  /** The keys that may own a watch set now or when the request in progress ends. */
  ghost predicate Tracked(n: Node, key: string) {
    key in n.server.watch.mem || (n.job.Some? && n.job.value.sender == key && n.job.value.env.msgType == WatchAddresses)
  }

  lemma TrackedStep(w: World, n: Node, e: Event, key: string)
    requires (e.Restart? ==> FilesCurrent(n)) && (n.job.Some? && n.job.value.removed ==> n.job.value.env.msgType == Unpair)
    ensures UnpairClears(n, e, key) ==> !Tracked(Next(w, n, e), key)
    ensures Tracked(Next(w, n, e), key) ==> Tracked(n, key) || key in n.server.allow.mem
    ensures UnpairRemoves(n, e, key) ==> !e.io.allowWritten || HalfDone(Next(w, n, e), key)
  {
  }

  lemma {:induction false} OnlyUnpairingIsHalved(w: World, es: seq<Event>)
    ensures var j := After(w, es).job; j.Some? && j.value.removed ==> j.value.env.msgType == Unpair
    decreases |es|
  {
    if es != [] {
      OnlyUnpairingIsHalved(w, es[..|es| - 1]);
    }
  }

  /**
   A watch-set owner who is not allowlisted was last removed on the LAN page, or by an unpair request
   whose first write failed, that is half done, or that a restart cut short between its two writes.
   */
  lemma {:induction false} OrphansExplained(w: World, es: seq<Event>, key: string)
    requires CurrentAtRestarts(w, es)
    ensures Tracked(After(w, es), key) && key !in After(w, es).server.allow.mem ==>
      LastRevoked(w, es, key) || LastInterrupted(w, es, key)
    decreases |es|
  {
    if es != [] {
      var k := |es| - 1;
      var front, e := es[..k], es[k];
      var n := After(w, front);
      CurrentPrefix(w, es);
      OrphansExplained(w, front, key);
      OnlyUnpairingIsHalved(w, front);
      MembershipStep(w, n, e, key);
      TrackedStep(w, n, e, key);
      if Tracked(After(w, es), key) && key !in After(w, es).server.allow.mem && !Revokes(n, e, key) && !UnpairRemoves(n, e, key) {
        assert LatestRemoval(w, es, key) == LatestRemoval(w, front, key);
        if LastInterrupted(w, front, key) {
          KeptInterrupted(w, es, key);
        }
      }
      hide Next, Tracked, PairAdds, FilesCurrent, CurrentAtRestarts, HalfDone, UnpairClears;
      assert Untouched(es, k, |es|);
    }
  }

  lemma KeptInterrupted(w: World, es: seq<Event>, key: string)
    requires es != [] && LatestRemoval(w, es, key) == LatestRemoval(w, es[..|es| - 1], key)
    requires LastInterrupted(w, es[..|es| - 1], key) && !UnpairClears(After(w, es[..|es| - 1]), es[|es| - 1], key)
    ensures LastInterrupted(w, es, key)
  {
    var k := |es| - 1;
    var front, i := es[..k], LatestRemoval(w, es, key);
    var n := After(w, front);
    assert After(w, es) == Next(w, n, es[k]) && front[i] == es[i];
    CutShortNext(es, i);
    hide After, Next, LatestRemoval, HalfDone, UnpairClears, CutShort, Untouched;
    if es[i].io.allowWritten && !CutShort(front, i) {
      UntouchedNext(es, i, k);
      if !es[k].Restart? {
        StillHalfDone(w, n, es[k], key);
      }
    }
  }

  lemma StillHalfDone(w: World, n: Node, e: Event, key: string)
    requires HalfDone(n, key) && !UnpairClears(n, e, key) && !e.Restart?
    ensures HalfDone(Next(w, n, e), key) && !e.Proceed?
  {
  }

  /** Between the halves of an unpair request of `key` that owns a watch set; `lost` once the server restarted. */
  ghost predicate Halfway(n: Node, key: string, lost: bool) {
    && FilesCurrent(n) && Orphan(n, key)
    && (if lost then !HalfDone(n, key) && (n.job.Some? && n.job.value.sender == key ==> n.job.value.env.msgType == Pair)
        else HalfDone(n, key))
  }

  lemma HalfwayStep(w: World, n: Node, e: Event, key: string, lost: bool)
    requires Halfway(n, key, lost) && !e.Proceed? && (e.Revoke? ==> e.written)
    ensures Halfway(Next(w, n, e), key, lost || e.Restart?)
  {
  }

  ghost function Continue(w: World, n: Node, es: seq<Event>): Node {
    if es == [] then n else Next(w, Continue(w, n, es[..|es| - 1]), es[|es| - 1])
  }

  predicate Restarts(es: seq<Event>) {
    exists r :: 0 <= r < |es| && es[r].Restart?
  }

  lemma {:induction false} HalfwayHolds(w: World, n: Node, es: seq<Event>, key: string)
    requires Halfway(n, key, false) && AllWritten(es) && forall k :: 0 <= k < |es| ==> !es[k].Proceed?
    ensures Halfway(Continue(w, n, es), key, Restarts(es))
    decreases |es|
  {
    if es != [] {
      var k := |es| - 1;
      HalfwayHolds(w, n, es[..k], key);
      HalfwayStep(w, Continue(w, n, es[..k]), es[k], key, Restarts(es[..k]));
      hide Halfway, Next;
      if Restarts(es[..k]) {
        var r :| 0 <= r < k && es[..k][r].Restart?;
        assert es[r].Restart?;
      }
    }
  }

  /**
   An unpair request that was written to the allowlist leaves the watch set behind if and only if the
   server restarts before the handler goes on.
   */
  lemma UnpairClearsUnlessRestarted(w: World, n: Node, first: Io, between: seq<Event>, second: Io, key: string)
    requires FilesCurrent(n) && n.job.Some? && n.job.value.sender == key && n.job.value.env.msgType == Unpair
    requires !n.job.value.removed && key in n.server.allow.mem && key in n.server.watch.mem
    requires first.allowWritten && second.watchWritten && AllWritten(between)
    requires forall k :: 0 <= k < |between| ==> !between[k].Proceed?
    ensures var n' := Next(w, Continue(w, Next(w, n, Proceed(first)), between), Proceed(second));
      key in n'.server.watch.mem <==> Restarts(between)
  {
    var n1 := Next(w, n, Proceed(first));
    assert Halfway(n1, key, false);
    HalfwayHolds(w, n1, between, key);
    HalfwayEnds(w, Continue(w, n1, between), second, key, Restarts(between));
    hide Next;
  }

  lemma HalfwayEnds(w: World, n: Node, io: Io, key: string, lost: bool)
    requires Halfway(n, key, lost)
    ensures key in Next(w, n, Proceed(io)).server.watch.mem <==> lost
  {
  }

  lemma AfterSnoc(w: World, es: seq<Event>, e: Event)
    ensures After(w, es + [e]) == Next(w, After(w, es), e)
  {
    assert (es + [e])[..|es|] == es;
  }

  // ---------------------------------------------------------------- two runs

  const ALL_WRITTEN := Io(true, true, true, Unpaired)

  /** The server is idle with its files current, no secret to show again, and tokens left for the key. */
  ghost predicate Calm(n: Node, key: string, paired: bool, now: nat, tokens: nat) {
    && FilesCurrent(n) && n.job.None? && (key in n.server.allow.mem <==> paired)
    && !Pairing.Showable(n.server.pairing, now)
    && RateLimit.Level(RateLimit.Lookup(n.server.buckets, key), now) >= tokens
  }

  lemma CalmLater(n: Node, key: string, paired: bool, now: nat, later: nat, tokens: nat)
    requires Calm(n, key, paired, now, tokens) && now <= later
    ensures Calm(n, key, paired, later, tokens)
  {
  }

  /** A request of the current version, with a UUID for its id. */
  ghost predicate WellFormed(w: World, env: Envelope) {
    ParseRequest(w, Readable(PROTOCOL_VERSION, env)) == Request(env)
  }

  function Arrives(key: string, env: Envelope, now: nat): Event {
    Receive(key, Readable(PROTOCOL_VERSION, env), now, true)
  }

  /** A fresh request of a sender that may send it gets to its handler. */
  lemma ReachesHandler(w: World, n: Node, key: string, env: Envelope, now: nat)
    requires n.job.None? && WellFormed(w, env) && Authorized(n.server, key, env)
    requires Replay.Fresh(n.server.cache.seen, env.id, now)
    requires RateLimit.Level(RateLimit.Lookup(n.server.buckets, key), now) >= 1
    ensures var s, n' := n.server, Next(w, n, Arrives(key, env, now));
      n'.job == Some(Job(key, env, now, false))
      && n'.server.allow == s.allow && n'.server.watch == s.watch && n'.server.pairing == s.pairing
      && n'.server.cache.seen == Replay.Pruned(s.cache.seen, now)[env.id := now]
      && RateLimit.Level(RateLimit.Lookup(n'.server.buckets, key), now)
         == RateLimit.Level(RateLimit.Lookup(s.buckets, key), now) - 1
  {
  }

  /** A secret is shown and the key pairs with it. */
  lemma PairRound(w: World, n: Node, key: string, random: Bytes, env: Envelope, now: nat, tokens: nat) returns (n3: Node)
    requires Calm(n, key, false, now, tokens + 1) && WellFormed(w, env) && env.msgType == Pair
    requires Replay.Fresh(n.server.cache.seen, env.id, now) && w.hmac.Matches(random, key, env.proof)
    ensures n3 == Next(w, Next(w, Next(w, n, ShowQr(now, random)), Arrives(key, env, now)), Proceed(ALL_WRITTEN))
    ensures Calm(n3, key, true, now, tokens)
    ensures n3.server.cache.seen == Replay.Pruned(n.server.cache.seen, now)[env.id := now]
  {
    var n1 := Next(w, n, ShowQr(now, random));
    ReachesHandler(w, n1, key, env, now);
    var n2 := Next(w, n1, Arrives(key, env, now));
    n3 := Next(w, n2, Proceed(ALL_WRITTEN));
    hide RateLimit.Level, Replay.Fresh, Replay.Pruned, Arrives;
  }

  lemma WatchRound(w: World, n: Node, key: string, env: Envelope, now: nat, tokens: nat) returns (n2: Node)
    requires Calm(n, key, true, now, tokens + 1) && WellFormed(w, env) && env.msgType == WatchAddresses
    requires Replay.Fresh(n.server.cache.seen, env.id, now) && Requested(w, env).Some?
    ensures n2 == Next(w, Next(w, n, Arrives(key, env, now)), Proceed(ALL_WRITTEN))
    ensures Calm(n2, key, true, now, tokens) && key in n2.server.watch.mem
    ensures n2.server.cache.seen == Replay.Pruned(n.server.cache.seen, now)[env.id := now]
  {
    ReachesHandler(w, n, key, env, now);
    n2 := Next(w, Next(w, n, Arrives(key, env, now)), Proceed(ALL_WRITTEN));
    hide RateLimit.Level, Replay.Fresh, Replay.Pruned, Arrives;
  }

  /** The first half of an unpair request. */
  lemma RemoveRound(w: World, n: Node, key: string, env: Envelope, now: nat, tokens: nat) returns (n2: Node)
    requires Calm(n, key, true, now, tokens + 1) && WellFormed(w, env) && env.msgType == Unpair
    requires Replay.Fresh(n.server.cache.seen, env.id, now)
    ensures n2 == Next(w, Next(w, n, Arrives(key, env, now)), Proceed(ALL_WRITTEN))
    ensures n2.job == Some(Job(key, env, now, true)) && Calm(n2.(job := None), key, false, now, tokens)
    ensures n2.server.watch == n.server.watch
    ensures n2.server.cache.seen == Replay.Pruned(n.server.cache.seen, now)[env.id := now]
  {
    ReachesHandler(w, n, key, env, now);
    n2 := Next(w, Next(w, n, Arrives(key, env, now)), Proceed(ALL_WRITTEN));
    hide RateLimit.Level, Replay.Fresh, Replay.Pruned, Arrives;
  }

  lemma ClearRound(w: World, n: Node, key: string, env: Envelope, now: nat, tokens: nat)
    requires n.job == Some(Job(key, env, now, true)) && Calm(n.(job := None), key, false, now, tokens)
    ensures var n' := Next(w, n, Proceed(ALL_WRITTEN));
      Calm(n', key, false, now, tokens) && n'.server.cache == n.server.cache
  {
    assert key !in n.server.watch.mem ==> n.server.watch.mem - {key} == n.server.watch.mem;
    hide RateLimit.Level;
  }

  lemma Continued(w: World, es: seq<Event>, more: seq<Event>)
    ensures After(w, es + more) == Continue(w, After(w, es), more)
    decreases |more|
  {
    if more == [] {
      assert es + more == es;
    } else {
      var k := |more| - 1;
      Continued(w, es, more[..k]);
      assert (es + more)[..|es + more| - 1] == es + more[..k];
    }
  }

  lemma ContinueSnoc(w: World, n: Node, es: seq<Event>, e: Event)
    ensures Continue(w, n, es + [e]) == Next(w, Continue(w, n, es), e)
  {
    hide Next;
    assert (es + [e])[..|es|] == es;
  }

  lemma ContinueTwo(w: World, n: Node, a: Event, b: Event)
    ensures Continue(w, n, [a, b]) == Next(w, Next(w, n, a), b)
  {
    hide Next;
    ContinueSnoc(w, n, [], a);
    ContinueSnoc(w, n, [a], b);
    assert [] + [a] == [a] && [a] + [b] == [a, b];
  }

  lemma ContinueThree(w: World, n: Node, a: Event, b: Event, c: Event)
    ensures Continue(w, n, [a, b, c]) == Next(w, Next(w, Next(w, n, a), b), c)
  {
    hide Next, Continue;
    ContinueTwo(w, n, a, b);
    ContinueSnoc(w, n, [a, b], c);
    assert [a, b] + [c] == [a, b, c];
  }

  function Pairs(key: string, random: Bytes, env: Envelope, now: nat): seq<Event> {
    [ShowQr(now, random), Arrives(key, env, now), Proceed(ALL_WRITTEN)]
  }

  function InterruptedRun(key: string, random: Bytes, pair: Envelope, watch: Envelope, unpair: Envelope): seq<Event> {
    Pairs(key, random, pair, 0) + [Arrives(key, watch, 0), Proceed(ALL_WRITTEN)]
    + [Arrives(key, unpair, 0), Proceed(ALL_WRITTEN), Restart]
  }

  /**
   A run without failed writes and without LAN revocations that leaves an orphan: a wallet pairs, registers
   its addresses and unpairs, and the server restarts between the two writes of the unpair request.
   */
  lemma InterruptedUnpair(w: World, key: string, random: Bytes, pair: Envelope, watch: Envelope, unpair: Envelope)
    requires pair.msgType == Pair && w.hmac.Matches(random, key, pair.proof)
    requires watch.msgType == WatchAddresses && Requested(w, watch).Some? && unpair.msgType == Unpair
    requires pair.id != watch.id && pair.id != unpair.id && watch.id != unpair.id
    requires WellFormed(w, pair) && WellFormed(w, watch) && WellFormed(w, unpair)
    ensures var es := InterruptedRun(key, random, pair, watch, unpair);
      AllWritten(es) && (forall i :: 0 <= i < |es| ==> !es[i].Revoke?) && Orphan(After(w, es), key)
  {
    var a, b := Pairs(key, random, pair, 0), [Arrives(key, watch, 0), Proceed(ALL_WRITTEN)];
    var c := [Arrives(key, unpair, 0), Proceed(ALL_WRITTEN), Restart];
    EmptyIsCalm(w, key);
    var n1 := PairRound(w, EMPTY, key, random, pair, 0, 9);
    var n2 := WatchRound(w, n1, key, watch, 0, 8);
    var n3 := RemoveRound(w, n2, key, unpair, 0, 7);
    RestartLeaves(w, n3, key);
    InterruptedIsWritten(key, random, pair, watch, unpair);
    hide *;
    assert a == [a[0], a[1], a[2]] && b == [b[0], b[1]] && c == [c[0], c[1], c[2]];
    ContinueThree(w, EMPTY, a[0], a[1], a[2]);
    ContinueTwo(w, n1, b[0], b[1]);
    ContinueThree(w, n2, c[0], c[1], c[2]);
    InParts(w, a, b, c);
    InterruptedParts(key, random, pair, watch, unpair);
  }

  /** A run from the start, part by part. */
  lemma InParts(w: World, a: seq<Event>, b: seq<Event>, c: seq<Event>)
    ensures After(w, a + b + c) == Continue(w, Continue(w, Continue(w, EMPTY, a), b), c)
  {
    assert After(w, []) == EMPTY;
    hide *;
    assert [] + a == a;
    Continued(w, [], a);
    Continued(w, a, b);
    Continued(w, a + b, c);
  }

  lemma InterruptedParts(key: string, random: Bytes, pair: Envelope, watch: Envelope, unpair: Envelope)
    ensures InterruptedRun(key, random, pair, watch, unpair)
      == Pairs(key, random, pair, 0) + [Arrives(key, watch, 0), Proceed(ALL_WRITTEN)]
         + [Arrives(key, unpair, 0), Proceed(ALL_WRITTEN), Restart]
  {
  }

  lemma InterruptedIsWritten(key: string, random: Bytes, pair: Envelope, watch: Envelope, unpair: Envelope)
    ensures var es := InterruptedRun(key, random, pair, watch, unpair);
      AllWritten(es) && forall i :: 0 <= i < |es| ==> !es[i].Revoke?
  {
  }

  lemma RestartLeaves(w: World, n: Node, key: string)
    requires FilesCurrent(n) && key in n.server.watch.mem && key !in n.server.allow.mem
    ensures Orphan(Next(w, n, Restart), key)
  {
  }

  lemma EmptyIsCalm(w: World, key: string)
    ensures Calm(EMPTY, key, false, 0, 10) && EMPTY.server.cache.seen == map[] && After(w, []) == EMPTY
  {
  }

  function ExpiredRun(key: string, random: Bytes, again: Bytes, pair: Envelope, unpair: Envelope, pair': Envelope): seq<Event> {
    var later := Replay.RETENTION_SECS;
    Pairs(key, random, pair, 0) + [Arrives(key, unpair, 0), Proceed(ALL_WRITTEN), Proceed(ALL_WRITTEN)]
    + Pairs(key, again, pair', later) + [Arrives(key, unpair, later), Proceed(ALL_WRITTEN)]
  }

  /**
   A run in which an envelope repeated after the retention period acts again: a wallet pairs and unpairs,
   pairs again ten days later with a new secret, and the old unpair request, arriving once more, removes it.
   */
  lemma ExpiredUnpair(w: World, key: string, random: Bytes, again: Bytes, pair: Envelope, unpair: Envelope, pair': Envelope)
    requires pair.msgType == Pair && w.hmac.Matches(random, key, pair.proof) && unpair.msgType == Unpair
    requires pair'.msgType == Pair && w.hmac.Matches(again, key, pair'.proof)
    requires pair.id != unpair.id && pair'.id != unpair.id
    requires WellFormed(w, pair) && WellFormed(w, unpair) && WellFormed(w, pair')
    ensures var es := ExpiredRun(key, random, again, pair, unpair, pair');
      key in After(w, es[..9]).server.allow.mem && key !in After(w, es).server.allow.mem
  {
    var go, later := Proceed(ALL_WRITTEN), Replay.RETENTION_SECS;
    var a, b := Pairs(key, random, pair, 0), [Arrives(key, unpair, 0), go, go];
    var c, d := Pairs(key, again, pair', later), [Arrives(key, unpair, later), go];
    EmptyIsCalm(w, key);
    var n1 := PairRound(w, EMPTY, key, random, pair, 0, 9);
    var half := RemoveRound(w, n1, key, unpair, 0, 8);
    ClearRound(w, half, key, unpair, 0, 8);
    var n2 := Next(w, half, go);
    CalmLater(n2, key, false, 0, later, 8);
    var n3 := PairRound(w, n2, key, again, pair', later, 7);
    var n4 := RemoveRound(w, n3, key, unpair, later, 6);
    assert key in n3.server.allow.mem && key !in n4.server.allow.mem;
    var es := ExpiredRun(key, random, again, pair, unpair, pair');
    assert es == a + b + c + d && |a + b + c| == 9;
    hide *;
    assert a == [a[0], a[1], a[2]] && b == [b[0], b[1], b[2]] && c == [c[0], c[1], c[2]] && d == [d[0], d[1]];
    ContinueThree(w, EMPTY, a[0], a[1], a[2]);
    ContinueThree(w, n1, b[0], b[1], b[2]);
    ContinueThree(w, n2, c[0], c[1], c[2]);
    ContinueTwo(w, n3, d[0], d[1]);
    InParts(w, a, b, c);
    Continued(w, a + b + c, d);
    assert es[..9] == a + b + c;
  }

  // ---------------------------------------------------------------- one secret, one pairing

  /** Nothing can pair until a new secret is displayed. */
  ghost predicate Spent(s: Pairing.State) {
    s.None? || s.value.used
  }

  /** Event `i` displays the QR and puts a new secret in place. */
  ghost predicate NewSecret(w: World, es: seq<Event>, i: nat)
    requires i < |es|
  {
    es[i].ShowQr? && !Pairing.Showable(After(w, es[..i]).server.pairing, es[i].now)
  }

  lemma SpentStep(w: World, n: Node, e: Event)
    requires Spent(n.server.pairing)
    requires !(e.ShowQr? && !Pairing.Showable(n.server.pairing, e.now))
    ensures Spent(Next(w, n, e).server.pairing)
  {
  }

  lemma {:induction false} StaysSpent(w: World, es: seq<Event>, i: nat)
    requires i <= |es| && Spent(After(w, es[..i]).server.pairing)
    requires forall g :: i <= g < |es| ==> !NewSecret(w, es, g)
    ensures Spent(After(w, es).server.pairing)
    decreases |es|
  {
    if i < |es| {
      var k := |es| - 1;
      var front := es[..k];
      assert front[..i] == es[..i];
      forall g | i <= g < k ensures !NewSecret(w, front, g) {
        assert front[..g] == es[..g];
        assert !NewSecret(w, es, g);
      }
      StaysSpent(w, front, i);
      assert !NewSecret(w, es, k);
      SpentStep(w, After(w, front), es[k]);
      hide Next, Spent, Pairing.Showable;
    } else {
      assert es[..i] == es;
    }
  }

  /** Two successful pairings, by whichever keys, use different secrets: one was generated in between. */
  lemma PairingsUseDistinctSecrets(w: World, es: seq<Event>, i: nat, j: nat, a: string, b: string)
    requires i < j < |es|
    requires PairSucceeds(w, After(w, es[..i]), es[i], a) && PairSucceeds(w, After(w, es[..j]), es[j], b)
    ensures exists g :: i < g < j && NewSecret(w, es, g)
  {
    assert es[..i + 1][..i] == es[..i];
    assert After(w, es[..i + 1]) == Next(w, After(w, es[..i]), es[i]);
    assert Spent(After(w, es[..i + 1]).server.pairing);
    assert !Spent(After(w, es[..j]).server.pairing);
    assert es[..j][..i + 1] == es[..i + 1];
    if forall g :: i < g < j ==> !NewSecret(w, es, g) {
      forall g | i + 1 <= g < j ensures !NewSecret(w, es[..j], g) {
        assert es[..j][..g] == es[..g];
        assert !NewSecret(w, es, g);
      }
      StaysSpent(w, es[..j], i + 1);
    }
  }
}
