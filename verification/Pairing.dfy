/**
 The one-time pairing secret (pairing.rs). The random secret comes from outside, and so does the
 keyed hash that a proof must match; `hex::decode` may fail.
 */
module Pairing {
  import opened Prelude

  const SECRET_TTL_SECS: nat := 600
  const MAX_ATTEMPTS: nat := 5

  /** HMAC-SHA-256 of a wallet key under a secret, and the decoding of a hexadecimal proof. */
  datatype Hmac = Hmac(mac: (Bytes, string) -> Bytes, unhex: string -> Option<Bytes>) {
    predicate Matches(secret: Bytes, wallet: string, proof: string) {
      unhex(proof) == Some(mac(secret, wallet))
    }
  }

  datatype SecretState = SecretState(secret: Bytes, expiresAt: nat, used: bool, attempts: nat)

  type State = Option<SecretState>

  datatype PairingPayload =
    PairingPayload(v: nat, app: string, nodePubkey: string, relays: seq<string>, pairSecret: Bytes, exp: nat)

  /** A payload request re-shows this secret. */
  predicate Showable(s: State, now: nat) {
    s.Some? && !s.value.used && s.value.expiresAt > now
  }

  function Shown(s: State, now: nat, random: Bytes): State {
    if Showable(s, now) then s else Some(SecretState(random, now + SECRET_TTL_SECS, false, 0))
  }

  predicate Verifies(h: Hmac, s: State, now: nat, wallet: string, proof: string) {
    Showable(s, now) && s.value.attempts < MAX_ATTEMPTS && h.Matches(s.value.secret, wallet, proof)
  }

  function Verified(h: Hmac, s: State, now: nat, wallet: string, proof: string): State {
    if !Showable(s, now) || s.value.attempts >= MAX_ATTEMPTS then s
    else if h.Matches(s.value.secret, wallet, proof) then Some(s.value.(used := true))
    else if s.value.attempts + 1 >= MAX_ATTEMPTS then None
    else Some(s.value.(attempts := s.value.attempts + 1))
  }

  class PairingManager {
    var state: State

    constructor ()
      ensures state == None
    {
      state := None;
    }

    method PayloadAt(now: nat, nodePubkey: string, relays: seq<string>, random: Bytes)
      returns (p: PairingPayload)
      modifies this
      ensures state == Shown(old(state), now, random) && state.Some?
      ensures state == match old(state)
        case Some(s) => if !s.used && now < s.expiresAt then old(state) else Some(SecretState(random, now + 600, false, 0))
        case None => Some(SecretState(random, now + 600, false, 0))
      ensures p == PairingPayload(1, "nomad-server", nodePubkey, relays, state.value.secret, state.value.expiresAt)
    {
      var live := state.Some? && !state.value.used && state.value.expiresAt > now;
      if !live {
        state := Some(SecretState(random, now + SECRET_TTL_SECS, false, 0));
      }
      var s := state.value;
      p := PairingPayload(1, "nomad-server", nodePubkey, relays, s.secret, s.expiresAt);
    }

    method VerifyAt(h: Hmac, now: nat, wallet: string, proof: string) returns (ok: bool)
      modifies this
      ensures ok <==> Verifies(h, old(state), now, wallet, proof)
      ensures state == Verified(h, old(state), now, wallet, proof)
      ensures ok ==> state == Some(old(state).value.(used := true))
      ensures ok <==>
        old(state).Some?
        && var s := old(state).value;
           !s.used && now < s.expiresAt && s.attempts < 5 && h.unhex(proof) == Some(h.mac(s.secret, wallet))
      ensures !ok ==> state == match old(state)
        case Some(s) =>
          if s.used || s.expiresAt <= now || s.attempts >= 5 then old(state)
          else if s.attempts == 4 then None else Some(s.(attempts := s.attempts + 1))
        case None => None
    {
      if state.None? {
        return false;
      }
      var s := state.value;
      if s.used || s.expiresAt <= now || s.attempts >= MAX_ATTEMPTS {
        return false;
      }
      var expected := h.mac(s.secret, wallet);
      var decoded := h.unhex(proof);
      ok := decoded.Some? && decoded.value == expected;
      if ok {
        state := Some(s.(used := true));
      } else {
        s := s.(attempts := s.attempts + 1);
        state := if s.attempts >= MAX_ATTEMPTS then None else Some(s);
      }
    }
  }

  // ---------------------------------------------------------------- runs

  datatype Event =
    | Show(now: nat, random: Bytes)
    | Verify(now: nat, wallet: string, proof: string)
    | Forget  // the server restarts: the secret lived in memory only

  function Applied(h: Hmac, s: State, e: Event): State {
    match e
    case Show(now, random) => Shown(s, now, random)
    case Verify(now, wallet, proof) => Verified(h, s, now, wallet, proof)
    case Forget => None
  }

  function After(h: Hmac, es: seq<Event>): State {
    if es == [] then None else Applied(h, After(h, es[..|es| - 1]), es[|es| - 1])
  }

  lemma AfterSnoc(h: Hmac, es: seq<Event>, e: Event)
    ensures After(h, es + [e]) == Applied(h, After(h, es), e)
  {
    assert (es + [e])[..|es|] == es;
  }

  /** Event `i` puts a new secret in place. */
  predicate Generates(h: Hmac, es: seq<Event>, i: nat)
    requires i < |es|
  {
    es[i].Show? && !Showable(After(h, es[..i]), es[i].now)
  }

  /** Event `i` is a verification that succeeds. */
  predicate Succeeds(h: Hmac, es: seq<Event>, i: nat)
    requires i < |es|
  {
    es[i].Verify? && Verifies(h, After(h, es[..i]), es[i].now, es[i].wallet, es[i].proof)
  }

  // What history alone says about the current secret. Nothing below reads a state: each notion looks at
  // the events, and at the same notions for shorter histories.

  /** The latest display that came when no secret was live, if the server has not restarted since. */
  ghost function Generation(h: Hmac, es: seq<Event>): (g: Option<nat>)
    ensures g.Some? ==> g.value < |es| && es[g.value].Show?
    decreases |es|, 0
  {
    if es == [] then None
    else
      var n := |es| - 1;
      if es[n].Show? && !Live(h, es[..n], es[n].now) then Some(n)
      else if es[n].Forget? then None
      else Generation(h, es[..n])
  }

  /** Proofs after event `g` that do not match its secret. */
  function Mismatches(h: Hmac, es: seq<Event>, g: nat): nat
    requires g < |es| && es[g].Show?
  {
    var n := |es| - 1;
    if n == g then 0
    else
      Mismatches(h, es[..n], g)
      + if es[n].Verify? && !h.Matches(es[g].random, es[n].wallet, es[n].proof) then 1 else 0
  }

  /** The last event is a matching proof of a live secret. */
  ghost predicate EndsInSuccess(h: Hmac, es: seq<Event>)
    decreases |es|, 0
  {
    && es != [] && es[|es| - 1].Verify?
    && var front, e := es[..|es| - 1], es[|es| - 1];
       Live(h, front, e.now) && h.Matches(es[Generation(h, front).value].random, e.wallet, e.proof)
  }

  ghost predicate SucceededSince(h: Hmac, es: seq<Event>, g: nat)
    decreases |es|, 1
  {
    g + 1 < |es| && (EndsInSuccess(h, es) || SucceededSince(h, es[..|es| - 1], g))
  }

  /** The latest secret is unexpired, has had no success, and fewer than five mismatches. */
  ghost predicate Live(h: Hmac, es: seq<Event>, now: nat)
    ensures Live(h, es, now) ==> Generation(h, es).Some?
    decreases |es|, 2
  {
    match Generation(h, es)
    case None => false
    case Some(g) =>
      now < es[g].now + 600 && !SucceededSince(h, es, g) && Mismatches(h, es, g) < 5
  }

  /**
   No event carries a time before that of an earlier verification. (A verification may carry an
   earlier time than the display before it: its clock is read when the request arrives.)
   */
  ghost predicate Ordered(es: seq<Event>) {
    forall i, j :: 0 <= i < j < |es| && es[i].Verify? && !es[j].Forget? ==> es[i].now <= es[j].now
  }

  /** Every verification since event `g` came before `expiry`. */
  ghost predicate AllInTime(es: seq<Event>, g: nat, expiry: nat) {
    forall i :: g < i < |es| && es[i].Verify? ==> es[i].now < expiry
  }

  /** How the state in memory reflects history. */
  ghost predicate Reflects(h: Hmac, es: seq<Event>, s: State) {
    match Generation(h, es)
    case None => s == None
    case Some(g) =>
      match s
      case None => Mismatches(h, es, g) >= MAX_ATTEMPTS
      case Some(v) =>
        && v.secret == es[g].random && v.expiresAt == es[g].now + SECRET_TTL_SECS
        && (v.used <==> SucceededSince(h, es, g))
        && v.attempts < MAX_ATTEMPTS
        && (!v.used && AllInTime(es, g, v.expiresAt) ==> v.attempts == Mismatches(h, es, g))
  }

  /** The state in memory is a function of the history. */
  lemma {:induction false} StateReflectsHistory(h: Hmac, es: seq<Event>)
    requires Ordered(es)
    ensures Reflects(h, es, After(h, es))
    decreases |es|, 0
  {
    if es != [] {
      var front, e := es[..|es| - 1], es[|es| - 1];
      StateReflectsHistory(h, front);
      if !e.Forget? {
        ShowableIffLive(h, front, e.now);
      }
      hide Live, Showable, Ordered;
      if e.Show? {
        if Live(h, front, e.now) {
          ShowReflects(h, es);
        } else {
          FreshReflects(h, es);
        }
      } else if e.Verify? {
        VerifyReflects(h, es);
      } else {
        hide Reflects;
        ForgetReflects(h, es);
      }
    }
  }

  lemma ForgetReflects(h: Hmac, es: seq<Event>)
    requires es != [] && es[|es| - 1].Forget?
    ensures Reflects(h, es, After(h, es))
  {
  }

  lemma FreshReflects(h: Hmac, es: seq<Event>)
    requires es != [] && es[|es| - 1].Show?
    requires var n := |es| - 1; !Live(h, es[..n], es[n].now) && !Showable(After(h, es[..n]), es[n].now)
    ensures Reflects(h, es, After(h, es))
  {
    hide Live, Showable;
  }

  lemma ShowReflects(h: Hmac, es: seq<Event>)
    requires es != [] && es[|es| - 1].Show?
    requires var n := |es| - 1;
      Live(h, es[..n], es[n].now) && Showable(After(h, es[..n]), es[n].now) && Reflects(h, es[..n], After(h, es[..n]))
    ensures Reflects(h, es, After(h, es))
  {
    var front, e := es[..|es| - 1], es[|es| - 1];
    assert After(h, es) == After(h, front);
    assert Generation(h, es) == Generation(h, front);
    hide Live, Generation, After, Showable;
    if Generation(h, front).Some? {
      var g := Generation(h, front).value;
      assert !EndsInSuccess(h, es) && SucceededSince(h, es, g) == SucceededSince(h, front, g);
      assert Mismatches(h, es, g) == Mismatches(h, front, g);
      hide SucceededSince, EndsInSuccess, Mismatches;
      if After(h, front).Some? {
        var expiry := After(h, front).value.expiresAt;
        assert AllInTime(es, g, expiry) ==> AllInTime(front, g, expiry);
      }
    }
  }

  lemma VerifyReflects(h: Hmac, es: seq<Event>)
    requires es != [] && es[|es| - 1].Verify?
    requires forall i :: 0 <= i < |es| && es[i].Verify? ==> es[i].now <= es[|es| - 1].now
    requires var n := |es| - 1; var s := After(h, es[..n]);
      Reflects(h, es[..n], s) && (Live(h, es[..n], es[n].now) <==> Showable(s, es[n].now))
      && (Showable(s, es[n].now) ==> s.value.attempts < MAX_ATTEMPTS)
    ensures Reflects(h, es, After(h, es))
  {
    var front, e := es[..|es| - 1], es[|es| - 1];
    assert After(h, es) == Verified(h, After(h, front), e.now, e.wallet, e.proof);
    assert Generation(h, es) == Generation(h, front);
    hide After;
    if Generation(h, front).Some? {
      var g := Generation(h, front).value;
      assert EndsInSuccess(h, es) <==>
        Live(h, front, e.now) && h.Matches(es[g].random, e.wallet, e.proof);
      assert SucceededSince(h, es, g) <==> EndsInSuccess(h, es) || SucceededSince(h, front, g);
      hide Live, Generation, SucceededSince, EndsInSuccess;
      if After(h, front).Some? {
        var expiry := After(h, front).value.expiresAt;
        assert AllInTime(es, g, expiry) ==> AllInTime(front, g, expiry);
        assert e.now < expiry ==> AllInTime(front, g, expiry);
      }
    }
  }

  lemma ShowableIffLive(h: Hmac, es: seq<Event>, now: nat)
    requires Ordered(es) && forall i :: 0 <= i < |es| && es[i].Verify? ==> es[i].now <= now
    ensures Showable(After(h, es), now) <==> Live(h, es, now)
    ensures Live(h, es, now) ==> After(h, es).value.secret == es[Generation(h, es).value].random
    ensures Showable(After(h, es), now) ==> After(h, es).value.attempts < MAX_ATTEMPTS
    decreases |es|, 1
  {
    StateReflectsHistory(h, es);
    hide Generation, SucceededSince, Mismatches, After;
    if Generation(h, es).Some? && After(h, es).Some? && now < After(h, es).value.expiresAt {
      assert AllInTime(es, Generation(h, es).value, After(h, es).value.expiresAt);
    }
  }

  /**
   A verification succeeds if and only if the latest secret is unexpired, has had no earlier
   success and fewer than five mismatches, and the proof matches it.
   */
  lemma VerifyIsExact(h: Hmac, es: seq<Event>, i: nat)
    requires Ordered(es) && i < |es| && es[i].Verify?
    ensures Succeeds(h, es, i) <==>
      Live(h, es[..i], es[i].now)
      && h.unhex(es[i].proof) == Some(h.mac(es[Generation(h, es[..i]).value].random, es[i].wallet))
  {
    ShowableIffLive(h, es[..i], es[i].now);
    hide Live, Generation, After;
  }

  /** Asking for the payload makes a new secret if and only if the latest one is no longer live. */
  lemma ShowIsExact(h: Hmac, es: seq<Event>, i: nat)
    requires Ordered(es) && i < |es| && es[i].Show?
    ensures Generates(h, es, i) <==> !Live(h, es[..i], es[i].now)
  {
    ShowableIffLive(h, es[..i], es[i].now);
  }

  lemma {:induction false} SuccessCounts(h: Hmac, es: seq<Event>, i: nat, g: nat)
    requires g < i < |es| && EndsInSuccess(h, es[..i + 1])
    ensures SucceededSince(h, es, g)
    decreases |es|
  {
    hide EndsInSuccess;
    if i < |es| - 1 {
      assert es[..|es| - 1][..i + 1] == es[..i + 1];
      SuccessCounts(h, es[..|es| - 1], i, g);
    } else {
      assert es[..i + 1] == es;
    }
  }

  /** Two successes never share a secret: a new one was generated between them. */
  lemma OneSuccessPerSecret(h: Hmac, es: seq<Event>, i: nat, j: nat)
    requires Ordered(es) && i < j < |es| && Succeeds(h, es, i) && Succeeds(h, es, j)
    ensures Generation(h, es[..i]).Some? && Generation(h, es[..j]).Some?
    ensures Generation(h, es[..i]).value < i < Generation(h, es[..j]).value < j
  {
    VerifyIsExact(h, es, i);
    VerifyIsExact(h, es, j);
    var g := Generation(h, es[..j]).value;
    assert g != i by { assert es[..j][g].Show? && es[..j][i].Verify?; }
    if g < i {
      assert es[..j][..i + 1] == es[..i + 1] && es[..i + 1][..i] == es[..i];
      assert EndsInSuccess(h, es[..i + 1]);
      SuccessCounts(h, es[..j], i, g);
    }
  }

  function Generations(h: Hmac, es: seq<Event>): nat {
    if es == [] then 0
    else Generations(h, es[..|es| - 1]) + if Generates(h, es, |es| - 1) then 1 else 0
  }

  function Successes(h: Hmac, es: seq<Event>): nat {
    if es == [] then 0
    else Successes(h, es[..|es| - 1]) + if Succeeds(h, es, |es| - 1) then 1 else 0
  }

  /** Successes never exceed generated secrets, and an unspent secret leaves one to spare. */
  lemma {:induction false} SuccessesBounded(h: Hmac, es: seq<Event>)
    ensures Successes(h, es) <= Generations(h, es)
    ensures After(h, es).Some? && !After(h, es).value.used ==> Successes(h, es) < Generations(h, es)
    decreases |es|
  {
    if es != [] {
      SuccessesBounded(h, es[..|es| - 1]);
    }
  }
}
