/** A session bound to one peer: the set and the queue of remembered nonces, kept in
    step by `RememberNonce`. */
module E2eeSessions {
  import opened Options
  import opened ByteBits
  import opened Base64
  import opened JsonText
  import opened E2ee

  datatype KeyPair = KeyPair(publicKey: seq<Byte>, secretKey: seq<Byte>)

  datatype Creation =
    | Created(session: E2eeSession)
    | InvalidLocalPublicKey
    | InvalidLocalSecretKey
    | InvalidRemotePublicKey
    | InvalidReplayWindow

  // ---------- Comparing keys ----------

  /** Compares without an early exit; every byte leaves its differences in `diff`. */
  method ConstantTimeEqual(a: seq<Byte>, b: seq<Byte>) returns (equal: bool)
    ensures equal <==> a == b
  {
    if |a| != |b| {
      return false;
    }
    var diff: nat := 0;
    for i := 0 to |a|
      invariant diff == 0 <==> a[..i] == b[..i]
    {
      OrIsZero(diff, Xor(a[i], b[i]));
      XorIsZero(a[i], b[i]);
      diff := Or(diff, Xor(a[i], b[i]));
      assert a[..i + 1] == a[..i] + [a[i]] && b[..i + 1] == b[..i] + [b[i]];
    }
    equal := diff == 0;
    assert a[..|a|] == a && b[..|b|] == b;
  }

  // ---------- The session ----------

  class E2eeSession {
    const end: End
    const replayWindow: nat
    var seenNonces: set<Text>
    var nonceOrder: seq<Text>

    /** The nonces of all the envelopes accepted so far. */
    ghost var accepted: seq<Text>

    /** The queue is the last accepted nonces, in order and without duplicates, and
        the set is what is in the queue. */
    ghost predicate Valid()
      reads this
    {
      && |end.publicKey| == KEY_LENGTH && |end.remotePublicKey| == KEY_LENGTH
      && 1 <= replayWindow <= MAX_SAFE_INTEGER
      && Spread(accepted, replayWindow)
      && nonceOrder == Window(accepted, replayWindow)
      && Distinct(nonceOrder)
      && seenNonces == Elements(nonceOrder)
    }

    constructor (end: End, replayWindow: nat)
      requires |end.publicKey| == KEY_LENGTH && |end.remotePublicKey| == KEY_LENGTH
      requires 1 <= replayWindow <= MAX_SAFE_INTEGER
      ensures Valid() && this.end == end && this.replayWindow == replayWindow && accepted == []
    {
      this.end, this.replayWindow := end, replayWindow;
      seenNonces, nonceOrder, accepted := {}, [], [];
    }

    /** The checks on the keys and the window, made before the shared key is derived. */
    static method Create(box: Box, readJson: seq<Byte> -> Option<Json>, local: KeyPair,
                         remotePublicKey: seq<Byte>, replayWindow: int)
      returns (r: Creation)
      ensures r.Created? <==>
        && |local.publicKey| == KEY_LENGTH && |local.secretKey| == KEY_LENGTH
        && |remotePublicKey| == KEY_LENGTH && 1 <= replayWindow <= 9007199254740991
      ensures r.Created? ==>
        && fresh(r.session) && r.session.Valid() && r.session.accepted == []
        && r.session.replayWindow == replayWindow
        && r.session.end == End(box, readJson, local.publicKey, remotePublicKey,
                                box.agree(remotePublicKey, local.secretKey))
      ensures r.InvalidLocalPublicKey? <==> |local.publicKey| != KEY_LENGTH
      ensures r.InvalidLocalSecretKey? <==> |local.publicKey| == KEY_LENGTH && |local.secretKey| != KEY_LENGTH
      ensures r.InvalidRemotePublicKey? <==>
        && |local.publicKey| == KEY_LENGTH && |local.secretKey| == KEY_LENGTH && |remotePublicKey| != KEY_LENGTH
    {
      if |local.publicKey| != KEY_LENGTH {
        return InvalidLocalPublicKey;
      }
      if |local.secretKey| != KEY_LENGTH {
        return InvalidLocalSecretKey;
      }
      if |remotePublicKey| != KEY_LENGTH {
        return InvalidRemotePublicKey;
      }
      if replayWindow < 1 || MAX_SAFE_INTEGER < replayWindow {
        return InvalidReplayWindow;
      }
      var sharedKey := box.agree(remotePublicKey, local.secretKey);
      var session := new E2eeSession(End(box, readJson, local.publicKey, remotePublicKey, sharedKey), replayWindow);
      r := Created(session);
    }

    /** Accepts an envelope or refuses it; a refused one changes nothing. */
    method Open(envelope: Envelope) returns (outcome: Outcome)
      requires Valid()
      modifies this
      ensures Valid()
      ensures outcome == Verdict(end, old(seenNonces), envelope)
      ensures accepted == Receive(end, replayWindow, old(accepted), envelope)
      ensures outcome.Refused? ==> nonceOrder == old(nonceOrder) && seenNonces == old(seenNonces)
    {
      hide Decode, Spread, Distinct;
      if envelope.version != 1 {
        return Refused(UnsupportedVersion);
      }
      var sender := Decode(envelope.senderPublicKey);
      if !sender.Ok? {
        return Refused(Refusal(sender));
      }
      var same := ConstantTimeEqual(sender.value, end.remotePublicKey);
      if |sender.value| != KEY_LENGTH || !same {
        return Refused(WrongSender);
      }
      var nonce := Decode(envelope.nonce);
      if !nonce.Ok? {
        return Refused(Refusal(nonce));
      }
      if |nonce.value| != NONCE_LENGTH {
        return Refused(BadNonceLength);
      }
      if envelope.nonce in seenNonces {
        return Refused(Replay);
      }
      var ciphertext := Decode(envelope.ciphertext);
      if !ciphertext.Ok? {
        return Refused(Refusal(ciphertext));
      }
      if |ciphertext.value| < OVERHEAD {
        return Refused(TooShort);
      }
      var plaintext := end.box.open(ciphertext.value, nonce.value, end.sharedKey);
      if plaintext == None {
        return Refused(NotAuthentic);
      }
      ReceiveKeepsSpread(end, replayWindow, accepted, envelope);
      RememberNonce(envelope.nonce);
      var value := end.readJson(plaintext.value);
      outcome := if value == None then NotJson else Opened(value.value);
    }

    /** Appends a new nonce and forgets the oldest ones beyond the window. */
    method RememberNonce(nonceId: Text)
      requires Valid() && nonceId !in seenNonces && Spread(accepted + [nonceId], replayWindow)
      modifies this
      ensures Valid() && accepted == old(accepted) + [nonceId]
    {
      hide Spread, Distinct, Elements, Window, EndOf;
      WindowGrows(accepted, replayWindow, nonceId);
      PushKeepsSet(nonceOrder, nonceId);
      accepted := accepted + [nonceId];
      seenNonces := seenNonces + {nonceId};
      nonceOrder := nonceOrder + [nonceId];
      while |nonceOrder| > replayWindow
        invariant |Window(accepted, replayWindow)| <= |nonceOrder|
        invariant EndOf(nonceOrder, accepted)
        invariant Distinct(nonceOrder) && seenNonces == Elements(nonceOrder)
        invariant accepted == old(accepted) + [nonceId]
      {
        ShiftKeepsSet(nonceOrder);
        EndShrinks(nonceOrder, accepted, replayWindow);
        var oldest := nonceOrder[0];
        nonceOrder := nonceOrder[1..];
        seenNonces := seenNonces - {oldest};
      }
      EndIsWindow(nonceOrder, accepted, replayWindow);
    }
  }

  // ---------- The queue is the end of what was accepted ----------

  predicate EndOf(order: seq<Text>, accepted: seq<Text>) {
    |order| <= |accepted| && order == accepted[|accepted| - |order|..]
  }

  lemma WindowGrows(accepted: seq<Text>, w: nat, t: Text)
    ensures EndOf(Window(accepted, w) + [t], accepted + [t])
    ensures |Window(accepted + [t], w)| <= |Window(accepted, w) + [t]|
  {
  }

  lemma EndShrinks(order: seq<Text>, accepted: seq<Text>, w: nat)
    requires EndOf(order, accepted) && |order| > w
    ensures EndOf(order[1..], accepted) && |Window(accepted, w)| <= |order[1..]|
  {
  }

  lemma EndIsWindow(order: seq<Text>, accepted: seq<Text>, w: nat)
    requires EndOf(order, accepted) && |Window(accepted, w)| <= |order| <= w
    ensures order == Window(accepted, w)
  {
  }

  // ---------- The set follows the queue ----------

  lemma PushKeepsSet(order: seq<Text>, t: Text)
    requires Distinct(order) && t !in Elements(order)
    ensures Distinct(order + [t]) && Elements(order + [t]) == Elements(order) + {t}
  {
    assert forall i | 0 <= i < |order| :: order[i] in Elements(order);
  }

  lemma ShiftKeepsSet(order: seq<Text>)
    requires Distinct(order) && order != []
    ensures Distinct(order[1..]) && Elements(order[1..]) == Elements(order) - {order[0]}
  {
    forall t | t in Elements(order) - {order[0]}
      ensures t in order[1..]
    {
      var i :| 0 <= i < |order| && order[i] == t;
      assert order[1..][i - 1] == t;
    }
  }
}
