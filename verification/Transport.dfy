/**
 The server's request pipeline (transport.rs, with `watch_addresses` from handlers.rs):
 replay check, rate limit, authorization, handler.
 */
module Transport {
  import opened Prelude
  import opened Protocol
  import opened Store
  import opened Handlers
  import Pairing
  import RateLimit
  import Replay

  /** Everything the pipeline reads and changes. */
  datatype Server = Server(
    cache: Replay.Cache,
    buckets: RateLimit.Buckets,
    pairing: Pairing.State,
    allow: Disk<set<string>>,
    watch: Disk<Sets>)

  /** Outcomes decided elsewhere: which files get written, and what a backend query answers. */
  datatype Io = Io(cacheWritten: bool, allowWritten: bool, watchWritten: bool, chain: Body)

  // ---------------------------------------------------------------- the pipeline as a function

  ghost function PairStep(w: World, s: Server, sender: string, env: Envelope, now: nat, io: Io): (Server, Body) {
    if sender in s.allow.mem then (s, Failure(PairingFailed))
    else
      var s' := s.(pairing := Pairing.Verified(w.hmac, s.pairing, now, sender, env.proof));
      if !Pairing.Verifies(w.hmac, s.pairing, now, sender, env.proof) then (s', Failure(PairingFailed))
      else
        (s'.(allow := Written(s.allow, s.allow.mem + {sender}, io.allowWritten)),
         if io.allowWritten then Paired else Failure(Internal))
  }

  /** The first half of unpairing, up to the allowlist file: an answer, or None to go on. */
  ghost function RemoveStep(s: Server, sender: string, io: Io): (Server, Option<Body>) {
    if sender !in s.allow.mem then (s, Some(Failure(NotPaired)))
    else
      (s.(allow := Written(s.allow, s.allow.mem - {sender}, io.allowWritten)),
       if io.allowWritten then None else Some(Failure(Internal)))
  }

  /** The second half, up to the file of the watch sets. */
  ghost function ClearStep(s: Server, sender: string, io: Io): Server {
    s.(watch := Disk(s.watch.mem - {sender},
                     if sender in s.watch.mem && io.watchWritten then s.watch.mem - {sender} else s.watch.file))
  }

  ghost function UnpairStep(s: Server, sender: string, io: Io): (Server, Body) {
    var (s', body) := RemoveStep(s, sender, io);
    if body.Some? then (s', body.value) else (ClearStep(s', sender, io), Unpaired)
  }

  ghost function WatchStep(w: World, s: Server, sender: string, env: Envelope, io: Io): (Server, Body) {
    match Validated(w, env.addresses, MAX_WATCH_ADDRESSES)
    case None => (s, Failure(InvalidRequest))
    case Some(list) =>
      (s.(watch := Written(s.watch, Replaced(s.watch.mem, sender, list), io.watchWritten)),
       if io.watchWritten then Watching(|list|) else Failure(Internal))
  }

  /** `pair` is open to everyone; every other type needs an allowlisted sender. */
  ghost predicate Authorized(s: Server, sender: string, env: Envelope) {
    env.msgType == Pair || sender in s.allow.mem
  }

  /** The handler of an authorized request. */
  ghost function Handled(w: World, s: Server, sender: string, env: Envelope, now: nat, io: Io): (Server, Body) {
    match env.msgType
    case Pair => PairStep(w, s, sender, env, now, io)
    case Unpair => UnpairStep(s, sender, io)
    case WatchAddresses => WatchStep(w, s, sender, env, io)
    case Chain => (s, io.chain)
    case OtherType => (s, Failure(UnknownType))
  }

  ghost function Dispatched(w: World, s: Server, sender: string, env: Envelope, now: nat, io: Io): (Server, Body) {
    if Authorized(s, sender, env) then Handled(w, s, sender, env, now, io) else (s, Failure(NotPaired))
  }

  datatype Verdict = Duplicate | Limited | Admitted

  /** The replay check and, for a new id, the rate limit. */
  ghost function Admission(s: Server, sender: string, id: string, now: nat, cacheWritten: bool): (Server, Verdict) {
    var s' := s.(cache := s.cache.Checked(id, now, cacheWritten));
    if !Replay.Fresh(s.cache.seen, id, now) then (s', Duplicate)
    else
      var b := RateLimit.Lookup(s.buckets, sender);
      (s'.(buckets := s.buckets[sender := RateLimit.Spent(b, now)]),
       if RateLimit.Level(b, now) >= 1 then Admitted else Limited)
  }

  ghost function Routed(w: World, s: Server, sender: string, env: Envelope, now: nat, io: Io): (Server, Option<Response>) {
    var (s', verdict) := Admission(s, sender, env.id, now, io.cacheWritten);
    match verdict
    case Duplicate => (s', None)
    case Limited => (s', Some(Response(env.id, Failure(RateLimited))))
    case Admitted =>
      var (s'', body) := Dispatched(w, s', sender, env, now, io);
      (s'', Some(Response(env.id, body)))
  }

  // ---------------------------------------------------------------- the code

  class Transport {
    const replay: Replay.ReplayCache
    const ratelimit: RateLimit.RateLimiter
    const pairing: Pairing.PairingManager
    const allowlist: Allowlist
    const watch: WatchStore

    ghost function State(): Server
      reads replay, ratelimit, pairing, allowlist, watch
    {
      Server(replay.State(), ratelimit.buckets, pairing.state, allowlist.State(), watch.State())
    }

    constructor (replay: Replay.ReplayCache, pairing: Pairing.PairingManager, allowlist: Allowlist, watch: WatchStore)
      ensures this.replay == replay && this.pairing == pairing && this.allowlist == allowlist && this.watch == watch
      ensures fresh(ratelimit)
      ensures State() == Server(replay.State(), map[], pairing.state, allowlist.State(), watch.State())
    {
      this.replay := replay;
      this.pairing := pairing;
      this.allowlist := allowlist;
      this.watch := watch;
      this.ratelimit := new RateLimit.RateLimiter();
    }

    method Route(w: World, sender: string, env: Envelope, now: nat, io: Io) returns (r: Option<Response>)
      modifies replay, ratelimit, pairing, allowlist, watch
      ensures (State(), r) == Routed(w, old(State()), sender, env, now, io)
    {
      var isNew := replay.CheckAndInsert(env.id, now, io.cacheWritten);
      if !isNew {
        return None;
      }
      var allowed := ratelimit.Allow(sender, now);
      if !allowed {
        return Some(Response(env.id, Failure(RateLimited)));
      }
      var body := Dispatch(w, sender, env, now, io);
      return Some(Response(env.id, body));
    }

    method Dispatch(w: World, sender: string, env: Envelope, now: nat, io: Io) returns (body: Body)
      modifies pairing, allowlist, watch
      ensures (State(), body) == Dispatched(w, old(State()), sender, env, now, io)
    {
      if env.msgType == Pair {
        body := HandlePair(w, sender, env, now, io);
        return;
      }
      var paired := allowlist.IsPaired(sender);
      if !paired {
        return Failure(NotPaired);
      }
      match env.msgType {
        case Unpair => body := HandleUnpair(sender, io);
        case WatchAddresses => body := HandleWatch(w, sender, env, io);
        case Chain => body := io.chain;
        case OtherType => body := Failure(UnknownType);
      }
    }

    method HandlePair(w: World, sender: string, env: Envelope, now: nat, io: Io) returns (body: Body)
      modifies pairing, allowlist
      ensures (State(), body) == PairStep(w, old(State()), sender, env, now, io)
    {
      var paired := allowlist.IsPaired(sender);
      if paired {
        return Failure(PairingFailed);
      }
      var ok := pairing.VerifyAt(w.hmac, now, sender, env.proof);
      if !ok {
        return Failure(PairingFailed);
      }
      var added := allowlist.Add(sender, io.allowWritten);
      return if added then Paired else Failure(Internal);
    }

    method HandleUnpair(sender: string, io: Io) returns (body: Body)
      modifies allowlist, watch
      ensures (State(), body) == UnpairStep(old(State()), sender, io)
    {
      var removed := allowlist.Remove(sender, io.allowWritten);
      match removed {
        case Some(true) =>
          var _ := watch.RemoveWallet(sender, io.watchWritten);
          body := Unpaired;
        case Some(false) => body := Failure(NotPaired);
        case None => body := Failure(Internal);
      }
    }

    method HandleWatch(w: World, sender: string, env: Envelope, io: Io) returns (body: Body)
      modifies watch
      ensures (State(), body) == WatchStep(w, old(State()), sender, env, io)
    {
      var list := ValidateAddresses(w, env.addresses, MAX_WATCH_ADDRESSES);
      if list.None? {
        return Failure(InvalidRequest);
      }
      var n := watch.Replace(sender, list.value, io.watchWritten);
      return if n.Some? then Watching(n.value) else Failure(Internal);
    }
  }

  // ---------------------------------------------------------------- what each request is answered

  /** A sender that is not allowlisted may pair; anything else is refused and changes nothing. */
  lemma StrangerIsRefused(w: World, s: Server, sender: string, env: Envelope, now: nat, io: Io)
    requires sender !in s.allow.mem && env.msgType != Pair
    ensures Dispatched(w, s, sender, env, now, io) == (s, Failure(NotPaired))
  {
  }

  /** A paired sender gets what the backend query gives; a type the server does not know changes nothing either. */
  lemma QueryAnswer(w: World, s: Server, sender: string, env: Envelope, now: nat, io: Io)
    requires sender in s.allow.mem
    ensures env.msgType == Chain ==> Dispatched(w, s, sender, env, now, io) == (s, io.chain)
    ensures env.msgType == OtherType ==> Dispatched(w, s, sender, env, now, io) == (s, Failure(UnknownType))
  {
  }

  /**
   A pair request succeeds if its sender is not paired yet and proves the secret shown: unused, unexpired,
   with fewer than five wrong proofs. Success spends the secret, a wrong proof counts, the fifth drops it.
   */
  lemma PairAnswer(w: World, s: Server, sender: string, env: Envelope, now: nat, io: Io)
    requires env.msgType == Pair
    ensures var (s', body) := Dispatched(w, s, sender, env, now, io);
      var p := s.pairing;
      var live := p.Some? && !p.value.used && now < p.value.expiresAt && p.value.attempts < 5;
      var proved := live && w.hmac.unhex(env.proof) == Some(w.hmac.mac(p.value.secret, sender));
      s'.cache == s.cache && s'.buckets == s.buckets && s'.watch == s.watch
      && if sender in s.allow.mem then s' == s && body == Failure(PairingFailed)
         else if proved then
           s'.pairing == Some(p.value.(used := true)) && s'.allow.mem == s.allow.mem + {sender}
           && s'.allow.file == (if io.allowWritten then s'.allow.mem else s.allow.file)
           && body == (if io.allowWritten then Paired else Failure(Internal))
         else
           s'.allow == s.allow && body == Failure(PairingFailed)
           && s'.pairing == if !live then p else if p.value.attempts < 4 then Some(p.value.(attempts := p.value.attempts + 1)) else None
  {
  }

  /** A paired sender that unpairs leaves the allowlist and, if that was written, loses its watch set. */
  lemma UnpairAnswer(w: World, s: Server, sender: string, env: Envelope, now: nat, io: Io)
    requires env.msgType == Unpair && sender in s.allow.mem
    ensures var (s', body) := Dispatched(w, s, sender, env, now, io);
      s'.cache == s.cache && s'.buckets == s.buckets && s'.pairing == s.pairing
      && (forall k :: k in s'.allow.mem <==> k in s.allow.mem && k != sender)
      && if io.allowWritten then
           body == Unpaired && s'.allow.file == s'.allow.mem
           && (forall k :: k in s'.watch.mem <==> k in s.watch.mem && k != sender)
           && (forall k :: k in s'.watch.mem ==> s'.watch.mem[k] == s.watch.mem[k])
           && s'.watch.file == if io.watchWritten && sender in s.watch.mem then s'.watch.mem else s.watch.file
         else body == Failure(Internal) && s'.allow.file == s.allow.file && s'.watch == s.watch
  {
  }

  /**
   A paired sender's list of at most 5000 valid addresses becomes its watch set, in the order given, or
   clears it if empty; any other list changes nothing. The answer counts the addresses.
   */
  lemma WatchAnswer(w: World, s: Server, sender: string, env: Envelope, now: nat, io: Io)
    requires env.msgType == WatchAddresses && sender in s.allow.mem
    ensures var (s', body) := Dispatched(w, s, sender, env, now, io);
      var good := env.addresses.Some? && |env.addresses.value| <= 5000
        && forall i :: 0 <= i < |env.addresses.value| ==>
             env.addresses.value[i].Text? && w.validAddress(env.addresses.value[i].s);
      if !good then s' == s && body == Failure(InvalidRequest)
      else
        var list := env.addresses.value;
        s'.cache == s.cache && s'.buckets == s.buckets && s'.pairing == s.pairing && s'.allow == s.allow
        && (forall k :: k != sender ==> (k in s'.watch.mem <==> k in s.watch.mem))
        && (forall k :: k != sender && k in s.watch.mem ==> s'.watch.mem[k] == s.watch.mem[k])
        && (sender in s'.watch.mem <==> |list| > 0)
        && (|list| > 0 ==> |s'.watch.mem[sender]| == |list|)
        && (forall i :: 0 <= i < |list| ==> list[i] == Text(s'.watch.mem[sender][i]))
        && s'.watch.file == (if io.watchWritten then s'.watch.mem else s.watch.file)
        && body == if io.watchWritten then Watching(|list|) else Failure(Internal)
  {
    ValidatedIs(w, env.addresses, MAX_WATCH_ADDRESSES);
    hide Validated;
  }

  /**
   Before dispatching: an id seen less than ten days ago gets no answer, a sender without a token is told to
   slow down, and neither reaches the allowlist, the watch sets or the pairing secret. Any other request is
   answered under its own id with what dispatching it gives.
   */
  lemma RouteAnswer(w: World, s: Server, sender: string, env: Envelope, now: nat, io: Io)
    ensures var (s', r) := Routed(w, s, sender, env, now, io);
      var seen := env.id in s.cache.seen && now < s.cache.seen[env.id] + 864_000;
      var refilled := if sender !in s.buckets then 10
        else s.buckets[sender].tokens + if s.buckets[sender].lastRefill < now then now - s.buckets[sender].lastRefill else 0;
      if seen then
        r == None && s'.buckets == s.buckets && s'.pairing == s.pairing && s'.allow == s.allow && s'.watch == s.watch
      else if refilled < 1 then
        r == Some(Response(env.id, Failure(RateLimited)))
        && s'.pairing == s.pairing && s'.allow == s.allow && s'.watch == s.watch
      else
        var mid := s.(cache := s'.cache, buckets := s'.buckets);
        var (s'', body) := Dispatched(w, mid, sender, env, now, io);
        s' == s'' && r == Some(Response(env.id, body))
  {
    DispatchKeeps(w, s, sender, env, now, io);
    var s1 := Admission(s, sender, env.id, now, io.cacheWritten).0;
    DispatchKeeps(w, s1, sender, env, now, io);
    hide Dispatched;
  }

  /** Dispatching does not touch the replay cache or the buckets. */
  lemma DispatchKeeps(w: World, s: Server, sender: string, env: Envelope, now: nat, io: Io)
    ensures var s' := Dispatched(w, s, sender, env, now, io).0; s'.cache == s.cache && s'.buckets == s.buckets
  {
  }

  // ---------------------------------------------------------------- dispatching twice

  /**
   Dispatching the same envelope a second time, later, leaves the allowlist and the watch sets in
   memory as the first time left them, whatever the state was before and whichever writes succeed.
   On disk the allowlist too is as it was; so is the watch file if the first write to it succeeded.
   */
  lemma DispatchIsIdempotent(w: World, s: Server, sender: string, env: Envelope, now: nat, io: Io, later: nat, io': Io)
    requires now <= later
    ensures var once := Dispatched(w, s, sender, env, now, io).0;
      var twice := Dispatched(w, once, sender, env, later, io').0;
      twice.allow == once.allow && twice.watch.mem == once.watch.mem
      && (io.watchWritten ==> twice.watch == once.watch)
  {
    var once := Dispatched(w, s, sender, env, now, io).0;
    if env.msgType == WatchAddresses && Authorized(s, sender, env) {
      var list := Validated(w, env.addresses, MAX_WATCH_ADDRESSES);
      if list.Some? {
        assert Replaced(Replaced(s.watch.mem, sender, list.value), sender, list.value) == Replaced(s.watch.mem, sender, list.value);
      }
    }
  }

  /** What the guards of the handlers say about an envelope that has nothing left to do. */
  ghost predicate NothingToDo(w: World, s: Server, sender: string, env: Envelope, now: nat) {
    match env.msgType
    case Pair => sender in s.allow.mem || !Pairing.Verifies(w.hmac, s.pairing, now, sender, env.proof)
    case Unpair => sender !in s.allow.mem
    case WatchAddresses =>
      sender !in s.allow.mem
      || (match Validated(w, env.addresses, MAX_WATCH_ADDRESSES)
          case None => true
          case Some(list) => if list == [] then sender !in s.watch.mem else sender in s.watch.mem && s.watch.mem[sender] == list)
    case Chain => true
    case OtherType => true
  }

  /**
   With other requests in between, repeating an envelope is not always harmless: dispatching it leaves
   the allowlist and the watch sets alone if and only if its sender and payload have nothing left to do.
   */
  lemma DispatchIsHarmless(w: World, s: Server, sender: string, env: Envelope, now: nat, io: Io)
    ensures var s' := Dispatched(w, s, sender, env, now, io).0;
      s'.allow.mem == s.allow.mem && s'.watch.mem == s.watch.mem <==> NothingToDo(w, s, sender, env, now)
  {
    if env.msgType == Unpair && sender in s.allow.mem {
      assert sender !in Dispatched(w, s, sender, env, now, io).0.allow.mem;
    } else if env.msgType == Pair && !NothingToDo(w, s, sender, env, now) {
      assert sender in Dispatched(w, s, sender, env, now, io).0.allow.mem;
    } else if env.msgType == WatchAddresses && sender in s.allow.mem {
      var list := Validated(w, env.addresses, MAX_WATCH_ADDRESSES);
      if list.Some? {
        ReplacedIsSame(s.watch.mem, sender, list.value);
      }
    }
  }

  lemma ReplacedIsSame(sets: Sets, key: string, list: seq<string>)
    ensures Replaced(sets, key, list) == sets <==>
      if list == [] then key !in sets else key in sets && sets[key] == list
  {
    var r := Replaced(sets, key, list);
    if list == [] {
      assert key !in r;
      assert key !in sets ==> r == sets;
    } else {
      assert key in r && r[key] == list;
      assert key in sets && sets[key] == list ==> r == sets;
    }
  }

  /** The failed-attempt counter may still advance the second time. */
  lemma AttemptsMayAdvance(w: World, s: Server, sender: string, env: Envelope, now: nat, io: Io)
    requires env.msgType == Pair && sender !in s.allow.mem
    requires s.pairing.Some? && !s.pairing.value.used && s.pairing.value.expiresAt > now && s.pairing.value.attempts == 0
    requires !w.hmac.Matches(s.pairing.value.secret, sender, env.proof)
    ensures var once := Dispatched(w, s, sender, env, now, io).0;
      var twice := Dispatched(w, once, sender, env, now, io).0;
      once.pairing.value.attempts == 1 && twice.pairing.value.attempts == 2
  {
  }
}
