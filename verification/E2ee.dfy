/** Authenticated envelopes between two peers, and what a run of `open` keeps of
    them: the nonces of the last accepted envelopes, against replays. */
module E2ee {
  import opened Options
  import opened ByteBits
  import opened Base64
  import opened JsonText

  const KEY_LENGTH := 32
  const NONCE_LENGTH := 24
  const OVERHEAD := 16
  const MAX_SAFE_INTEGER := 0x1F_FFFF_FFFF_FFFF

  /** The four functions of NaCl that a session calls: the public key of a secret
      key, the key shared by two peers, and the box itself (message or ciphertext,
      nonce, shared key). */
  datatype Box = Box(
    publicOf: seq<Byte> -> seq<Byte>,
    agree: (seq<Byte>, seq<Byte>) -> seq<Byte>,
    seal: (seq<Byte>, seq<Byte>, seq<Byte>) -> seq<Byte>,
    open: (seq<Byte>, seq<Byte>, seq<Byte>) -> Option<seq<Byte>>)
  {
    /** What NaCl promises: both peers agree on a key, sealing adds 16 bytes, and a
        ciphertext opens to the message that it is the seal of, or not at all. */
    ghost predicate Sound() {
      && (forall secret | |secret| == KEY_LENGTH :: |publicOf(secret)| == KEY_LENGTH)
      && (forall a, b | |a| == KEY_LENGTH && |b| == KEY_LENGTH :: agree(publicOf(a), b) == agree(publicOf(b), a))
      && (forall m, n, k :: |seal(m, n, k)| == |m| + OVERHEAD)
      && (forall c, n, k, m :: open(c, n, k) == Some(m) <==> c == seal(m, n, k))
    }
  }

  /** The promises can be kept together: a box that only checks for 16 zero bytes. */
  lemma SoundBoxExists()
    ensures exists box: Box :: box.Sound()
  {
    var box := Box(
      (secret: seq<Byte>) => secret,
      (a: seq<Byte>, b: seq<Byte>) => [],
      (m: seq<Byte>, n: seq<Byte>, k: seq<Byte>) => Zeros() + m,
      (c: seq<Byte>, n: seq<Byte>, k: seq<Byte>) => if Zeros() <= c then Some(c[OVERHEAD..]) else None);
    forall c, m
      ensures Zeros() <= c && c[OVERHEAD..] == m <==> c == Zeros() + m
    {
      ZerosInFront(c, m);
    }
    hide Zeros;
    assert box.Sound();
  }

  function Zeros(): (z: seq<Byte>)
    ensures |z| == OVERHEAD
  {
    [0, 0, 0, 0, 0, 0, 0, 0, 0, 0, 0, 0, 0, 0, 0, 0]
  }

  lemma ZerosInFront(c: seq<Byte>, m: seq<Byte>)
    ensures Zeros() <= c && c[OVERHEAD..] == m <==> c == Zeros() + m
  {
    hide Zeros;
  }

  datatype Envelope = Envelope(version: int, senderPublicKey: Text, nonce: Text, ciphertext: Text)

  datatype Failure =
    | UnsupportedVersion
    | MalformedBase64
    | NonCanonicalBase64
    | WrongSender
    | BadNonceLength
    | Replay
    | TooShort
    | NotAuthentic

  /** A refused envelope leaves no trace; an authenticated one is remembered even
      when its plaintext turns out not to be JSON. */
  datatype Outcome = Refused(why: Failure) | NotJson | Opened(value: Json) {
    predicate Remembered() {
      !Refused?
    }
  }

  /** One end of a session: what its `open` depends on besides the envelope and the
      nonces it remembers. */
  datatype End = End(
    box: Box,
    readJson: seq<Byte> -> Option<Json>,
    publicKey: seq<Byte>,
    remotePublicKey: seq<Byte>,
    sharedKey: seq<Byte>)

  function Refusal(r: Result<seq<Byte>>): Failure
    requires !r.Ok?
  {
    if r.InvalidEncoding? then MalformedBase64 else NonCanonicalBase64
  }

  function Seal(end: End, message: seq<Byte>, nonce: seq<Byte>): Envelope {
    Envelope(1, Encode(end.publicKey), Encode(nonce), Encode(end.box.seal(message, nonce, end.sharedKey)))
  }

  // ---------- Opening one envelope ----------

  /** The checks up to the nonce, which do not depend on what was received before. */
  function CheckHeader(end: End, e: Envelope): Option<Failure> {
    if e.version != 1 then Some(UnsupportedVersion)
    else if !Decode(e.senderPublicKey).Ok? then Some(Refusal(Decode(e.senderPublicKey)))
    else if Decode(e.senderPublicKey).value != end.remotePublicKey then Some(WrongSender)
    else if !Decode(e.nonce).Ok? then Some(Refusal(Decode(e.nonce)))
    else if |Decode(e.nonce).value| != NONCE_LENGTH then Some(BadNonceLength)
    else None
  }

  function OpenBox(end: End, e: Envelope): Outcome
    requires Decode(e.nonce).Ok?
  {
    var c := Decode(e.ciphertext);
    if !c.Ok? then Refused(Refusal(c))
    else if |c.value| < OVERHEAD then Refused(TooShort)
    else
      match end.box.open(c.value, Decode(e.nonce).value, end.sharedKey)
      case None => Refused(NotAuthentic)
      case Some(plaintext) =>
        match end.readJson(plaintext)
        case None => NotJson
        case Some(value) => Opened(value)
  }

  function Verdict(end: End, recent: set<Text>, e: Envelope): Outcome {
    match CheckHeader(end, e)
    case Some(why) => Refused(why)
    case None => if e.nonce in recent then Refused(Replay) else OpenBox(end, e)
  }

  /** The envelope is one that the configured peer's `seal` makes of this message. */
  ghost predicate Genuine(end: End, e: Envelope, message: seq<Byte>, nonce: seq<Byte>) {
    && |nonce| == NONCE_LENGTH
    && e == Envelope(1, Encode(end.remotePublicKey), Encode(nonce), Encode(end.box.seal(message, nonce, end.sharedKey)))
  }

  /** Nothing but a genuine envelope with a nonce that is not remembered gets past
      the checks, and every such envelope does. */
  lemma RememberedIffGenuine(end: End, recent: set<Text>, e: Envelope)
    requires end.box.Sound()
    ensures Verdict(end, recent, e).Remembered()
            <==> e.nonce !in recent && exists message, nonce :: Genuine(end, e, message, nonce)
  {
    if Verdict(end, recent, e).Remembered() {
      var nonce, c := Decode(e.nonce).value, Decode(e.ciphertext).value;
      var message := end.box.open(c, nonce, end.sharedKey).value;
      DecodeInvertsEncode(e.senderPublicKey, end.remotePublicKey);
      DecodeInvertsEncode(e.nonce, nonce);
      DecodeInvertsEncode(e.ciphertext, c);
      assert Genuine(end, e, message, nonce);
    }
    if exists message, nonce :: Genuine(end, e, message, nonce) {
      var message, nonce :| Genuine(end, e, message, nonce);
      GenuineOpens(end, recent, e, message, nonce);
    }
  }

  lemma GenuineOpens(end: End, recent: set<Text>, e: Envelope, message: seq<Byte>, nonce: seq<Byte>)
    requires end.box.Sound() && Genuine(end, e, message, nonce)
    ensures Verdict(end, recent, e)
            == if e.nonce in recent then Refused(Replay)
               else if end.readJson(message) == None then NotJson
               else Opened(end.readJson(message).value)
  {
    var c := end.box.seal(message, nonce, end.sharedKey);
    DecodeInvertsEncode(e.senderPublicKey, end.remotePublicKey);
    DecodeInvertsEncode(e.nonce, nonce);
    DecodeInvertsEncode(e.ciphertext, c);
    assert end.box.open(c, nonce, end.sharedKey) == Some(message);
  }

  /** The text is the canonical encoding of some bytes. */
  ghost predicate Encodes(t: Text) {
    exists bytes :: t == Encode(bytes)
  }

  lemma DecodesIffEncodes(t: Text)
    ensures Decode(t).Ok? <==> Encodes(t)
    ensures Decode(t).Ok? ==> t == Encode(Decode(t).value)
  {
    hide Decode, Encode;
    if Decode(t).Ok? { DecodeInvertsEncode(t, Decode(t).value); }
    if Encodes(t) {
      var bytes :| t == Encode(bytes);
      DecodeInvertsEncode(t, bytes);
    }
  }

  /** The version, the sender and the nonce of an envelope are as they should be. */
  ghost predicate FromPeer(end: End, e: Envelope) {
    e.version == 1 && e.senderPublicKey == Encode(end.remotePublicKey)
  }

  ghost predicate WithNonce(e: Envelope, nonce: seq<Byte>) {
    e.nonce == Encode(nonce) && |nonce| == NONCE_LENGTH
  }

  /** Why the header of an envelope is refused: its version, then its sender, then the
      length of its nonce. */
  lemma WhyHeaderRefused(end: End, recent: set<Text>, e: Envelope)
    ensures var v := Verdict(end, recent, e);
      && (v == Refused(UnsupportedVersion) <==> e.version != 1)
      && (v == Refused(WrongSender) <==>
            e.version == 1 && Encodes(e.senderPublicKey) && e.senderPublicKey != Encode(end.remotePublicKey))
      && (v == Refused(BadNonceLength) <==>
            FromPeer(end, e) && Encodes(e.nonce) && !exists n :: WithNonce(e, n))
  {
    hide Decode, Encode, Encodes;
    DecodesIffEncodes(e.senderPublicKey);
    DecodesIffEncodes(e.nonce);
    DecodeInvertsEncode(e.senderPublicKey, end.remotePublicKey);
    forall n
      ensures Decode(e.nonce) == Ok(n) <==> e.nonce == Encode(n)
    {
      DecodeInvertsEncode(e.nonce, n);
    }
    if Decode(e.nonce).Ok? && |Decode(e.nonce).value| == NONCE_LENGTH {
      assert WithNonce(e, Decode(e.nonce).value);
    }
  }

  /** A field that is no encoding is refused as malformed, or as not canonical when it
      is at least well formed: the sender first, then the nonce, then the ciphertext. */
  lemma WhyTextRefused(end: End, recent: set<Text>, e: Envelope, nonce: seq<Byte>)
    ensures var v := Verdict(end, recent, e);
      && (e.version == 1 && !Encodes(e.senderPublicKey) ==>
            v == Refused(if WellFormed(e.senderPublicKey) then NonCanonicalBase64 else MalformedBase64))
      && (FromPeer(end, e) && !Encodes(e.nonce) ==>
            v == Refused(if WellFormed(e.nonce) then NonCanonicalBase64 else MalformedBase64))
      && (FromPeer(end, e) && WithNonce(e, nonce) && e.nonce !in recent && !Encodes(e.ciphertext) ==>
            v == Refused(if WellFormed(e.ciphertext) then NonCanonicalBase64 else MalformedBase64))
  {
    DecodeInvertsEncode(e.senderPublicKey, end.remotePublicKey);
    DecodeInvertsEncode(e.nonce, nonce);
    RefusedText(e.senderPublicKey);
    RefusedText(e.nonce);
    RefusedText(e.ciphertext);
    hide Decode, Encode, Encodes, WellFormed, Refusal;
  }

  lemma RefusedText(t: Text)
    ensures Decode(t).Ok? <==> Encodes(t)
    ensures !Decode(t).Ok? ==> Refusal(Decode(t)) == if WellFormed(t) then NonCanonicalBase64 else MalformedBase64
  {
    hide Encode, Encodes, WellFormed;
    DecodesIffEncodes(t);
  }

  /** Why an envelope with a good header is refused: its nonce is remembered, or its
      ciphertext is too short, or it is the seal of nothing. */
  lemma WhyBoxRefused(end: End, recent: set<Text>, e: Envelope, nonce: seq<Byte>, c: seq<Byte>)
    requires end.box.Sound() && FromPeer(end, e) && WithNonce(e, nonce)
    ensures Verdict(end, recent, e) == Refused(Replay) <==> e.nonce in recent
    ensures e.ciphertext == Encode(c) && e.nonce !in recent ==>
              && (Verdict(end, recent, e) == Refused(TooShort) <==> |c| < OVERHEAD)
              && (Verdict(end, recent, e) == Refused(NotAuthentic) <==>
                    |c| >= OVERHEAD && forall m :: c != end.box.seal(m, nonce, end.sharedKey))
  {
    hide Decode, Encode;
    DecodeInvertsEncode(e.senderPublicKey, end.remotePublicKey);
    DecodeInvertsEncode(e.nonce, nonce);
    DecodeInvertsEncode(e.ciphertext, c);
    match end.box.open(c, nonce, end.sharedKey)
    case Some(m) => assert c == end.box.seal(m, nonce, end.sharedKey);
    case None =>
      forall m
        ensures c != end.box.seal(m, nonce, end.sharedKey)
      {
        assert end.box.open(c, nonce, end.sharedKey) != Some(m);
      }
  }

  /** Two ends whose keys were made from secret keys and exchanged. */
  ghost predicate Paired(a: End, secretA: seq<Byte>, b: End, secretB: seq<Byte>) {
    && a.box == b.box && a.box.Sound()
    && |secretA| == KEY_LENGTH && |secretB| == KEY_LENGTH
    && a.publicKey == a.box.publicOf(secretA) == b.remotePublicKey
    && b.publicKey == b.box.publicOf(secretB) == a.remotePublicKey
    && a.sharedKey == a.box.agree(a.remotePublicKey, secretA)
    && b.sharedKey == b.box.agree(b.remotePublicKey, secretB)
  }

  /** What one peer seals the other one opens. */
  lemma SealOpens(a: End, secretA: seq<Byte>, b: End, secretB: seq<Byte>,
                  recent: set<Text>, message: seq<Byte>, nonce: seq<Byte>)
    requires Paired(a, secretA, b, secretB) && |nonce| == NONCE_LENGTH
    ensures Verdict(b, recent, Seal(a, message, nonce))
            == if Encode(nonce) in recent then Refused(Replay)
               else if b.readJson(message) == None then NotJson
               else Opened(b.readJson(message).value)
  {
    assert a.sharedKey == b.sharedKey;
    GenuineOpens(b, recent, Seal(a, message, nonce), message, nonce);
  }

  // ---------- The replay window ----------

  function Window(accepted: seq<Text>, w: nat): seq<Text> {
    if |accepted| <= w then accepted else accepted[|accepted| - w..]
  }

  ghost predicate Distinct(s: seq<Text>) {
    forall i, j | 0 <= i < j < |s| :: s[i] != s[j]
  }

  function Elements(s: seq<Text>): set<Text> {
    set t | t in s
  }

  /** The nonces accepted so far, after one more envelope and after a run. */
  function Receive(end: End, w: nat, accepted: seq<Text>, e: Envelope): seq<Text> {
    if Verdict(end, Elements(Window(accepted, w)), e).Remembered() then accepted + [e.nonce] else accepted
  }

  function ReceiveAll(end: End, w: nat, accepted: seq<Text>, es: seq<Envelope>): seq<Text> {
    if es == [] then accepted
    else Receive(end, w, ReceiveAll(end, w, accepted, es[..|es| - 1]), es[|es| - 1])
  }

  /** What every run keeps: accepted nonces are the texts of 24 bytes, and the same
      nonce comes again only after a full window of others. */
  ghost predicate Spread(accepted: seq<Text>, w: nat) {
    && (forall i | 0 <= i < |accepted| ::
          Decode(accepted[i]).Ok? && |Decode(accepted[i]).value| == NONCE_LENGTH)
    && (forall i, j | 0 <= i < j < |accepted| && accepted[i] == accepted[j] :: j - i > w)
  }

  /** The window holds what was accepted at one of the last `w` places. */
  lemma InWindow(accepted: seq<Text>, w: nat, t: Text)
    ensures t in Window(accepted, w)
            <==> exists i | 0 <= i < |accepted| && accepted[i] == t :: |accepted| - i <= w
  {
    var recent := Window(accepted, w);
    var from := |accepted| - |recent|;
    assert forall i | from <= i < |accepted| :: recent[i - from] == accepted[i];
  }

  lemma ReceiveKeepsSpread(end: End, w: nat, accepted: seq<Text>, e: Envelope)
    requires Spread(accepted, w)
    ensures Spread(Receive(end, w, accepted, e), w)
  {
    hide Window, Verdict, Decode;
    if Receive(end, w, accepted, e) != accepted {
      RememberedHeader(end, Elements(Window(accepted, w)), e);
      InWindow(accepted, w, e.nonce);
    }
  }

  lemma RememberedHeader(end: End, recent: set<Text>, e: Envelope)
    requires Verdict(end, recent, e).Remembered()
    ensures e.nonce !in recent && Decode(e.nonce).Ok? && |Decode(e.nonce).value| == NONCE_LENGTH
  {
    hide Decode;
  }

  lemma {:induction false} RunKeepsSpread(end: End, w: nat, es: seq<Envelope>)
    ensures Spread(ReceiveAll(end, w, [], es), w)
  {
    if es != [] {
      RunKeepsSpread(end, w, es[..|es| - 1]);
      ReceiveKeepsSpread(end, w, ReceiveAll(end, w, [], es[..|es| - 1]), es[|es| - 1]);
    }
  }

  lemma WindowIsDistinct(accepted: seq<Text>, w: nat)
    requires Spread(accepted, w)
    ensures Distinct(Window(accepted, w))
  {
    hide Decode;
    var recent := Window(accepted, w);
    var from := |accepted| - |recent|;
    forall i, j | 0 <= i < j < |recent|
      ensures recent[i] != recent[j]
    {
      assert recent[i] == accepted[from + i] && recent[j] == accepted[from + j];
    }
  }

  /** In no run is a nonce twice among the last `w` accepted. */
  lemma WindowOfRun(end: End, w: nat, es: seq<Envelope>)
    ensures Distinct(Window(ReceiveAll(end, w, [], es), w))
  {
    hide Spread, Window, Distinct;
    RunKeepsSpread(end, w, es);
    WindowIsDistinct(ReceiveAll(end, w, [], es), w);
  }

  /** In any run an envelope with a well-formed header is refused as a replay exactly
      when the bytes of its nonce are those of one of the last `w` accepted. */
  lemma ReplayIffBytesRecent(end: End, w: nat, es: seq<Envelope>, e: Envelope)
    requires CheckHeader(end, e) == None
    ensures var recent := Window(ReceiveAll(end, w, [], es), w);
      && (forall t | t in recent :: Decode(t).Ok?)
      && (Verdict(end, Elements(recent), e) == Refused(Replay)
          <==> exists t | t in recent :: Decode(t).value == Decode(e.nonce).value)
  {
    var recent := Window(ReceiveAll(end, w, [], es), w);
    RunKeepsSpread(end, w, es);
    assert Decode(e.nonce).Ok?;
    hide Decode, Spread;
    WindowDecodes(ReceiveAll(end, w, [], es), w);
    forall t | t in recent
      ensures t == e.nonce <==> Decode(t).value == Decode(e.nonce).value
    {
      TextsStandForBytes(t, e.nonce);
    }
    assert e.nonce in recent ==> Decode(e.nonce).value == Decode(e.nonce).value;
  }

  lemma WindowDecodes(accepted: seq<Text>, w: nat)
    requires Spread(accepted, w)
    ensures forall t | t in Window(accepted, w) :: Decode(t).Ok?
  {
    hide Decode;
    forall t | t in Window(accepted, w)
      ensures Decode(t).Ok?
    {
      assert t in accepted;
    }
  }

  /** An envelope that was accepted once, sent again after the run `es`: it is
      refused exactly as long as fewer than `w` others have been accepted since.
      After that the same bytes are accepted a second time. */
  lemma CapturedEnvelopeAgain(end: End, w: nat, before: seq<Text>, e: Envelope, es: seq<Envelope>)
    requires 1 <= w
    ensures var after := ReceiveAll(end, w, before + [e.nonce], es);
      Verdict(end, Elements(Window(before, w)), e).Remembered()
      && (forall i | |before| < i < |after| :: after[i] != e.nonce) ==>
        && (Verdict(end, Elements(Window(after, w)), e).Remembered() <==> |after| - |before| > w)
        && (Verdict(end, Elements(Window(after, w)), e) == Refused(Replay) <==> |after| - |before| <= w)
  {
    var after := ReceiveAll(end, w, before + [e.nonce], es);
    RunOnlyAppends(end, w, before + [e.nonce], es);
    hide ReceiveAll;
    assert after[|before|] == e.nonce;
    hide Window;
    InWindow(after, w, e.nonce);
  }

  lemma {:induction false} RunOnlyAppends(end: End, w: nat, accepted: seq<Text>, es: seq<Envelope>)
    ensures accepted <= ReceiveAll(end, w, accepted, es)
  {
    if es != [] {
      RunOnlyAppends(end, w, accepted, es[..|es| - 1]);
    }
  }

  /** So a session does not refuse a captured envelope for its whole lifetime: with a
      window of one, a single other envelope in between lets it in again. */
  lemma AcceptedTwice(end: End, e: Envelope, m: seq<Byte>, n: seq<Byte>, f: Envelope, m': seq<Byte>, n': seq<Byte>)
    requires end.box.Sound() && Genuine(end, e, m, n) && Genuine(end, f, m', n') && n != n'
    ensures ReceiveAll(end, 1, [], [e, f, e]) == [e.nonce, f.nonce, e.nonce]
  {
    hide Genuine, Receive, Decode, Encode;
    NoncesDiffer(end, e, m, n, f, m', n');
    assert ReceiveAll(end, 1, [], []) == [];
    assert Window([], 1) == [] && Window([e.nonce], 1) == [e.nonce] && Window([e.nonce, f.nonce], 1) == [f.nonce];
    hide ReceiveAll, Window;
    ReceiveGenuine(end, 1, [], e, m, n);
    ReceiveGenuine(end, 1, [e.nonce], f, m', n');
    ReceiveGenuine(end, 1, [e.nonce, f.nonce], e, m, n);
    OneMore(end, 1, [], e);
    OneMore(end, 1, [e], f);
    OneMore(end, 1, [e, f], e);
    assert [] + [e] == [e] && [e] + [f] == [e, f] && [e, f] + [e] == [e, f, e];
    assert ReceiveAll(end, 1, [], [e]) == [e.nonce];
    assert ReceiveAll(end, 1, [], [e, f]) == [e.nonce, f.nonce];
  }

  lemma NoncesDiffer(end: End, e: Envelope, m: seq<Byte>, n: seq<Byte>, f: Envelope, m': seq<Byte>, n': seq<Byte>)
    requires Genuine(end, e, m, n) && Genuine(end, f, m', n') && n != n'
    ensures e.nonce != f.nonce
  {
    DecodeInvertsEncode(e.nonce, n);
    DecodeInvertsEncode(e.nonce, n');
  }

  lemma OneMore(end: End, w: nat, es: seq<Envelope>, e: Envelope)
    ensures ReceiveAll(end, w, [], es + [e]) == Receive(end, w, ReceiveAll(end, w, [], es), e)
  {
    hide Receive;
    assert (es + [e])[..|es|] == es;
  }

  lemma ReceiveGenuine(end: End, w: nat, accepted: seq<Text>, e: Envelope, m: seq<Byte>, n: seq<Byte>)
    requires end.box.Sound() && Genuine(end, e, m, n) && e.nonce !in Window(accepted, w)
    ensures Receive(end, w, accepted, e) == accepted + [e.nonce]
  {
    GenuineOpens(end, Elements(Window(accepted, w)), e, m, n);
    hide Verdict, Genuine;
  }
}
