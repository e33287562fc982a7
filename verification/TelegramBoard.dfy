/** Board messages: encrypted bodies that have to fit into one Telegram message. */
module TelegramBoard {
  import opened Options
  import opened ByteBits
  import opened Base64
  import opened JsonText
  import opened JsonReading
  import opened E2ee
  import opened E2eeSessions

  const MAX_TEXT_BYTES := 4096

  /** The largest body that fits, in bytes of its escaped form. */
  const MAX_BODY_BYTES := 2905

  function Prefix(): Text {
    Ascii("RAOS-E2EE/1:")
  }

  function Payload(body: JsString): seq<Member> {
    [Member(Ascii("kind"), Word(Ascii("telegram-board-message"))), Member(Ascii("body"), Word(body))]
  }

  predicate HasTexts(e: Envelope) {
    IsJsString(e.senderPublicKey) && IsJsString(e.nonce) && IsJsString(e.ciphertext)
  }

  function EnvelopeMembers(e: Envelope): seq<Member>
    requires HasTexts(e)
  {
    [Member(Ascii("v"), One), Member(Ascii("senderPublicKey"), Word(e.senderPublicKey)),
     Member(Ascii("nonce"), Word(e.nonce)), Member(Ascii("ciphertext"), Word(e.ciphertext))]
  }

  // ---------- Encoding ----------

  function Sealed(end: End, body: JsString, nonce: seq<Byte>): (e: Envelope)
    ensures HasTexts(e)
  {
    EncodingIsPlain(end.publicKey);
    EncodingIsPlain(nonce);
    EncodingIsPlain(end.box.seal(Utf8(Print(Payload(body))), nonce, end.sharedKey));
    Seal(end, Utf8(Print(Payload(body))), nonce)
  }

  /** The text for Telegram, unless it is too long. */
  function EncodeMessage(end: End, body: JsString, nonce: seq<Byte>): Option<Text> {
    var encoded := Prefix() + Print(EnvelopeMembers(Sealed(end, body, nonce)));
    if |Utf8(encoded)| > MAX_TEXT_BYTES then None else Some(encoded)
  }

  // ---------- Decoding ----------

  datatype BoardOutcome =
    | NotABoardMessage
    | EnvelopeNotJson
    | BadEnvelopeShape
    | Rejected(why: Failure)
    | PayloadNotJson
    | BadPayloadShape
    | Body(body: Text)

  predicate HasText(fields: map<Text, Json>, key: Text) {
    key in fields && fields[key].Str?
  }

  predicate IsEncryptedEnvelope(j: Json) {
    && j.Object?
    && Ascii("v") in j.fields && j.fields[Ascii("v")] == Number(1)
    && HasText(j.fields, Ascii("senderPublicKey"))
    && HasText(j.fields, Ascii("nonce"))
    && HasText(j.fields, Ascii("ciphertext"))
  }

  function EnvelopeOf(j: Json): Envelope
    requires IsEncryptedEnvelope(j)
  {
    Envelope(1, j.fields[Ascii("senderPublicKey")].text, j.fields[Ascii("nonce")].text,
             j.fields[Ascii("ciphertext")].text)
  }

  predicate IsBoardPayload(j: Json) {
    && j.Object?
    && Ascii("kind") in j.fields && j.fields[Ascii("kind")] == Str(Ascii("telegram-board-message"))
    && HasText(j.fields, Ascii("body"))
  }

  function BodyOf(outcome: Outcome): BoardOutcome {
    match outcome
    case Refused(why) => Rejected(why)
    case NotJson => PayloadNotJson
    case Opened(value) => if IsBoardPayload(value) then Body(value.fields[Ascii("body")].text) else BadPayloadShape
  }

  datatype Unwrapped = Found(envelope: Envelope) | Failed(outcome: BoardOutcome)

  /** The envelope in a board message, or why there is none. */
  function Unwrap(parse: Text -> Option<Json>, text: Text): Unwrapped {
    if !(Prefix() <= text) then Failed(NotABoardMessage)
    else
      match parse(text[|Prefix()|..])
      case None => Failed(EnvelopeNotJson)
      case Some(j) => if IsEncryptedEnvelope(j) then Found(EnvelopeOf(j)) else Failed(BadEnvelopeShape)
  }

  // ---------- What is taken and what is refused ----------

  predicate Has(fields: map<Text, Json>, key: string, value: Json)
    requires forall i | 0 <= i < |key| :: key[i] < 128 as char
  {
    Ascii(key) in fields && fields[Ascii(key)] == value
  }

  /** The fields of an envelope of the only version. */
  predicate CarriesEnvelope(fields: map<Text, Json>, e: Envelope) {
    && e.version == 1 && Has(fields, "v", Number(1))
    && Has(fields, "senderPublicKey", Str(e.senderPublicKey)) && Has(fields, "nonce", Str(e.nonce))
    && Has(fields, "ciphertext", Str(e.ciphertext))
  }

  predicate CarriesBody(fields: map<Text, Json>, body: Text) {
    Has(fields, "kind", Str(Ascii("telegram-board-message"))) && Has(fields, "body", Str(body))
  }

  /** An envelope is found exactly behind the prefix, as an object with its fields. */
  lemma FoundIffCarried(parse: Text -> Option<Json>, text: Text, e: Envelope)
    ensures Unwrap(parse, text) == Found(e)
            <==> Ascii("RAOS-E2EE/1:") <= text
                 && exists fields :: parse(text[12..]) == Some(Object(fields)) && CarriesEnvelope(fields, e)
    ensures Unwrap(parse, text) == Failed(NotABoardMessage) <==> !(Ascii("RAOS-E2EE/1:") <= text)
    ensures Unwrap(parse, text) == Failed(EnvelopeNotJson)
            <==> Ascii("RAOS-E2EE/1:") <= text && parse(text[12..]) == None
    ensures Unwrap(parse, text).Failed? ==> Unwrap(parse, text).outcome in {NotABoardMessage, EnvelopeNotJson, BadEnvelopeShape}
  {
    hide Ascii;
    if Prefix() <= text {
      match parse(text[12..])
      case None =>
      case Some(j) => EnvelopeIffCarried(j, e);
    }
  }

  lemma EnvelopeIffCarried(j: Json, e: Envelope)
    ensures IsEncryptedEnvelope(j) && EnvelopeOf(j) == e <==> j.Object? && CarriesEnvelope(j.fields, e)
  {
    hide Ascii;
  }

  /** The envelope is genuine and new, and its message reads as `j`, or not at all. */
  ghost predicate Delivers(end: End, recent: set<Text>, e: Envelope, j: Option<Json>) {
    e.nonce !in recent && exists message, nonce :: Genuine(end, e, message, nonce) && end.readJson(message) == j
  }

  /** What a session end makes of an envelope: a body is taken exactly from a genuine
      and new one whose message is a board message, and any other message is told from
      one that is not JSON. */
  ghost predicate Means(end: End, recent: set<Text>, e: Envelope, outcome: BoardOutcome) {
    && (forall body :: outcome == Body(body)
          <==> exists fields :: Delivers(end, recent, e, Some(Object(fields))) && CarriesBody(fields, body))
    && (outcome == BadPayloadShape
        <==> exists j :: Delivers(end, recent, e, Some(j))
                         && !(j.Object? && exists body :: CarriesBody(j.fields, body)))
    && (outcome == PayloadNotJson <==> Delivers(end, recent, e, None))
    && (outcome.Rejected? <==> e.nonce in recent || !exists message, nonce :: Genuine(end, e, message, nonce))
    && (e.nonce in recent && (exists message, nonce :: Genuine(end, e, message, nonce)) ==> outcome == Rejected(Replay))
  }

  lemma OpenedIffCarried(j: Json)
    ensures forall body :: BodyOf(Opened(j)) == Body(body) <==> j.Object? && CarriesBody(j.fields, body)
    ensures BodyOf(Opened(j)) == BadPayloadShape <==> !(j.Object? && exists body :: CarriesBody(j.fields, body))
    ensures BodyOf(Opened(j)) == BadPayloadShape || BodyOf(Opened(j)).Body?
  {
    hide Ascii;
    if IsBoardPayload(j) {
      assert CarriesBody(j.fields, j.fields[Ascii("body")].text);
    }
  }

  lemma DeliveredIsRead(end: End, recent: set<Text>, e: Envelope, j: Option<Json>)
    requires end.box.Sound()
    ensures Delivers(end, recent, e, j)
            <==> Verdict(end, recent, e) == match j case None => NotJson case Some(value) => Opened(value)
  {
    hide Verdict, Genuine;
    if Delivers(end, recent, e, j) {
      var message, nonce :| Genuine(end, e, message, nonce) && end.readJson(message) == j;
      GenuineOpens(end, recent, e, message, nonce);
    }
    if Verdict(end, recent, e) == match j case None => NotJson case Some(value) => Opened(value) {
      RememberedIffGenuine(end, recent, e);
      var message, nonce :| Genuine(end, e, message, nonce);
      GenuineOpens(end, recent, e, message, nonce);
    }
  }

  lemma OutcomeMeans(end: End, recent: set<Text>, e: Envelope)
    requires end.box.Sound()
    ensures Means(end, recent, e, BodyOf(Verdict(end, recent, e)))
    ensures forall why :: BodyOf(Verdict(end, recent, e)) == Rejected(why) <==> Verdict(end, recent, e) == Refused(why)
  {
    hide Verdict, Genuine, IsBoardPayload, CarriesBody, Delivers;
    var v := Verdict(end, recent, e);
    RememberedIffGenuine(end, recent, e);
    forall j
      ensures Delivers(end, recent, e, j) <==> v == match j case None => NotJson case Some(value) => Opened(value)
    {
      DeliveredIsRead(end, recent, e, j);
    }
    match v
    case Refused(_) =>
      if exists message, nonce :: Genuine(end, e, message, nonce) {
        var message, nonce :| Genuine(end, e, message, nonce);
        GenuineOpens(end, recent, e, message, nonce);
      }
    case NotJson =>
    case Opened(j) =>
      OpenedIffCarried(j);
      OpenedMeans(end, recent, e, j);
  }

  lemma OpenedMeans(end: End, recent: set<Text>, e: Envelope, j: Json)
    requires forall k :: Delivers(end, recent, e, Some(k)) <==> k == j
    ensures forall body ::
              j.Object? && CarriesBody(j.fields, body)
              <==> exists fields :: Delivers(end, recent, e, Some(Object(fields))) && CarriesBody(fields, body)
    ensures !(j.Object? && exists body :: CarriesBody(j.fields, body))
            <==> exists k :: Delivers(end, recent, e, Some(k))
                             && !(k.Object? && exists body :: CarriesBody(k.fields, body))
  {
    hide Delivers, CarriesBody;
    if j.Object? { assert Delivers(end, recent, e, Some(Object(j.fields))); }
  }

  /** Only a text that holds an envelope reaches the session, which then remembers
      the nonce whatever becomes of the payload. */
  method DecodeMessage(session: E2eeSession, parse: Text -> Option<Json>, text: Text) returns (outcome: BoardOutcome)
    requires session.Valid()
    modifies session
    ensures session.Valid()
    ensures match Unwrap(parse, text)
            case Failed(why) => outcome == why && session.accepted == old(session.accepted)
            case Found(e) =>
              && outcome == BodyOf(Verdict(session.end, old(session.seenNonces), e))
              && session.accepted == Receive(session.end, session.replayWindow, old(session.accepted), e)
              && (session.end.box.Sound() ==> Means(session.end, old(session.seenNonces), e, outcome))
  {
    hide Verdict, Receive, BodyOf, IsEncryptedEnvelope, IsBoardPayload, Means;
    match Unwrap(parse, text)
    case Failed(why) =>
      outcome := why;
    case Found(e) =>
      var verdict := session.Open(e);
      outcome := BodyOf(verdict);
      if session.end.box.Sound() {
        OutcomeMeans(session.end, old(session.seenNonces), e);
      }
  }

  // ---------- How long an encoded message is ----------

  lemma CharIsPlain(x: Sextet)
    ensures EscapePoint(ToChar(x)) == [ToChar(x)] && ToChar(x) < 128
  {
  }

  lemma {:induction false} EncodingIsPlain(bytes: seq<Byte>)
    ensures IsPlain(Encode(bytes)) && IsJsString(Encode(bytes))
  {
    if bytes == [] {
    } else if |bytes| == 1 {
      QuadIsPlain(bytes[0], 0, 0);
      assert Encode(bytes) == Quad(bytes[0], 0, 0)[..2] + [PAD, PAD];
    } else if |bytes| == 2 {
      QuadIsPlain(bytes[0], bytes[1], 0);
      assert Encode(bytes) == Quad(bytes[0], bytes[1], 0)[..3] + [PAD];
    } else {
      QuadIsPlain(bytes[0], bytes[1], bytes[2]);
      EncodingIsPlain(bytes[3..]);
      hide Quad;
    }
  }

  lemma QuadIsPlain(b0: Byte, b1: Byte, b2: Byte)
    ensures IsPlain(Quad(b0, b1, b2))
  {
    CharIsPlain(b0 / 4);
    CharIsPlain(b0 % 4 * 16 + b1 / 16);
    CharIsPlain(b1 % 16 * 4 + b2 / 64);
    CharIsPlain(b2 % 64);
    hide ToChar, EscapePoint;
  }

  lemma LiteralIsPlain(s: string)
    requires forall i | 0 <= i < |s| :: ' ' <= s[i] <= 'z' && s[i] != '"' && s[i] != '\\'
    ensures IsPlain(Ascii(s)) && EscapedSize(Ascii(s)) == |s|
  {
    PlainSize(Ascii(s));
  }

  lemma PayloadSize(body: JsString)
    ensures |Utf8(Print(Payload(body)))| == 43 + EscapedSize(body)
  {
    hide Print, PrintMembers, Utf8, Ascii, EscapedSize, IsPlain, IsJsString;
    LiteralIsPlain("kind");
    LiteralIsPlain("telegram-board-message");
    LiteralIsPlain("body");
    PrintUtf8Size(Payload(body));
    hide MembersSize;
    var members := Payload(body);
    SizeWithFirst(members[0], [members[1]]);
    SizeWithFirst(members[1], []);
    assert members == [members[0]] + [members[1]];
  }

  lemma EnvelopeSize(e: Envelope)
    requires IsPlain(e.senderPublicKey) && IsPlain(e.nonce) && IsPlain(e.ciphertext) && HasTexts(e)
    ensures |Utf8(Print(EnvelopeMembers(e)))| == 55 + |e.senderPublicKey| + |e.nonce| + |e.ciphertext|
  {
    hide Print, PrintMembers, Utf8, Ascii, EscapedSize, IsPlain, IsJsString;
    LiteralIsPlain("v");
    LiteralIsPlain("senderPublicKey");
    LiteralIsPlain("nonce");
    LiteralIsPlain("ciphertext");
    PlainSize(e.senderPublicKey);
    PlainSize(e.nonce);
    PlainSize(e.ciphertext);
    PrintUtf8Size(EnvelopeMembers(e));
    var members := EnvelopeMembers(e);
    hide MembersSize;
    SizeWithFirst(members[0], [members[1], members[2], members[3]]);
    SizeWithFirst(members[1], [members[2], members[3]]);
    SizeWithFirst(members[2], [members[3]]);
    SizeWithFirst(members[3], []);
    assert members == [members[0]] + [members[1], members[2], members[3]];
    assert [members[1], members[2], members[3]] == [members[1]] + [members[2], members[3]];
    assert [members[2], members[3]] == [members[2]] + [members[3]];
  }

  lemma SizeWithFirst(m: Member, rest: seq<Member>)
    ensures MembersSize([]) == 0
    ensures MembersSize([m] + rest)
            == EscapedSize(m.key) + 3 + ScalarSize(m.value) + (if rest == [] then 0 else 1) + MembersSize(rest)
    ensures rest == [] ==> [m] + rest == [m]
  {
    assert ([m] + rest)[1..] == rest;
  }

  /** The length of the text for Telegram, before it is checked. */
  lemma MessageSize(end: End, body: JsString, nonce: seq<Byte>)
    requires end.box.Sound() && |end.publicKey| == KEY_LENGTH && |nonce| == NONCE_LENGTH
    ensures |Utf8(Prefix() + Print(EnvelopeMembers(Sealed(end, body, nonce))))|
            == 143 + (59 + EscapedSize(body) + 2) / 3 * 4
  {
    hide Print, Utf8, Ascii, EscapedSize, IsPlain, IsJsString, Encode, EnvelopeMembers, Payload;
    var e, message := Sealed(end, body, nonce), Utf8(Print(Payload(body)));
    var c := end.box.seal(message, nonce, end.sharedKey);
    EncodingIsPlain(end.publicKey);
    EncodingIsPlain(nonce);
    EncodingIsPlain(c);
    EncodedLength(end.publicKey);
    EncodedLength(nonce);
    EncodedLength(c);
    PayloadSize(body);
    EnvelopeSize(e);
    AsciiIsItsOwnUtf8(Prefix());
    Utf8Joins(Prefix(), Print(EnvelopeMembers(e)));
  }

  /** A body can be sent exactly when its escaped form has at most 2905 bytes. */
  lemma ExactSizeBound(end: End, body: JsString, nonce: seq<Byte>)
    requires end.box.Sound() && |end.publicKey| == KEY_LENGTH && |nonce| == NONCE_LENGTH
    ensures EncodeMessage(end, body, nonce).Some? <==> |Utf8(Escape(body))| <= MAX_BODY_BYTES
  {
    hide Print, Utf8, Ascii, EscapedSize, Sealed, EnvelopeMembers, Escape;
    MessageSize(end, body, nonce);
    EscapedUtf8Size(body);
  }

  // ---------- What is encoded is decoded ----------

  /** A session reads a plaintext as UTF-8 and then as JSON. */
  ghost predicate ReadsPlaintext(end: End, parse: Text -> Option<Json>, decode: seq<Byte> -> Text) {
    ReadsBack(parse) && DecodesUtf8(decode) && forall bytes :: end.readJson(bytes) == parse(decode(bytes))
  }

  /** There are such ends: these promises can be kept together. */
  lemma PlaintextReadersExist(end: End)
    ensures ReadsPlaintext(end.(readJson := bytes => ReadJson(ReadUtf8(bytes))), ReadJson, ReadUtf8)
  {
    ReadersExist();
  }

  lemma FieldsOfAppend(members: seq<Member>, m: Member)
    ensures FieldsOf([]) == map[]
    ensures FieldsOf(members + [m]) == FieldsOf(members)[m.key := ValueOf(m.value)]
  {
    assert (members + [m])[..|members|] == members;
  }

  lemma KeysDiffer()
    ensures Ascii("kind") != Ascii("body")
    ensures |Ascii("v")| == 1 && |Ascii("senderPublicKey")| == 15
    ensures |Ascii("nonce")| == 5 && |Ascii("ciphertext")| == 10
  {
    assert Ascii("kind")[0] == 107 && Ascii("body")[0] == 98;
  }

  lemma PayloadFields(body: JsString)
    ensures var j := Object(FieldsOf(Payload(body)));
      IsBoardPayload(j) && j.fields[Ascii("body")] == Str(body)
  {
    KeysDiffer();
    hide Ascii;
    var members := Payload(body);
    FieldsOfAppend([], members[0]);
    FieldsOfAppend([members[0]], members[1]);
    hide FieldsOf;
    assert members == [members[0]] + [members[1]] && [members[0]] == [] + [members[0]];
  }

  lemma EnvelopeFields(e: Envelope)
    requires HasTexts(e) && e.version == 1
    ensures var j := Object(FieldsOf(EnvelopeMembers(e)));
      IsEncryptedEnvelope(j) && EnvelopeOf(j) == e
  {
    KeysDiffer();
    hide Ascii, FieldsOf;
    var members := EnvelopeMembers(e);
    FieldsOfAppend([], members[0]);
    FieldsOfAppend([members[0]], members[1]);
    FieldsOfAppend([members[0], members[1]], members[2]);
    FieldsOfAppend([members[0], members[1], members[2]], members[3]);
    assert [members[0]] == [] + [members[0]];
    assert [members[0]] + [members[1]] == [members[0], members[1]];
    assert [members[0], members[1]] + [members[2]] == [members[0], members[1], members[2]];
    assert members == [members[0], members[1], members[2]] + [members[3]];
  }

  lemma UnwrapFinds(end: End, body: JsString, nonce: seq<Byte>, parse: Text -> Option<Json>, text: Text)
    requires ReadsBack(parse) && EncodeMessage(end, body, nonce) == Some(text)
    ensures Unwrap(parse, text) == Found(Sealed(end, body, nonce))
  {
    hide Ascii, Encode, EnvelopeMembers, FieldsOf, PrintMembers, Utf8, IsEncryptedEnvelope, EnvelopeOf;
    var members := EnvelopeMembers(Sealed(end, body, nonce));
    EnvelopeFields(Sealed(end, body, nonce));
    assert text == Prefix() + Print(members);
    assert text[|Prefix()|..] == Print(members);
  }

  lemma PlaintextRead(end: End, parse: Text -> Option<Json>, decode: seq<Byte> -> Text, body: JsString)
    requires ReadsPlaintext(end, parse, decode)
    ensures end.readJson(Utf8(Print(Payload(body)))) == Some(Object(FieldsOf(Payload(body))))
  {
    hide Ascii, FieldsOf, PrintMembers, Utf8, Payload;
    PrintHasNoSurrogates(Payload(body));
    assert NoSurrogates(Print(Payload(body)));
  }

  /** The peer finds the body in every message that could be sent, unless it has
      lately accepted the nonce. */
  lemma BoardRoundTrip(a: End, secretA: seq<Byte>, b: End, secretB: seq<Byte>, parse: Text -> Option<Json>,
                       decode: seq<Byte> -> Text, recent: set<Text>, body: JsString, nonce: seq<Byte>)
    requires Paired(a, secretA, b, secretB) && |nonce| == NONCE_LENGTH
    requires ReadsPlaintext(b, parse, decode)
    ensures var sent := EncodeMessage(a, body, nonce);
      sent.Some? ==> Unwrap(parse, sent.value) == Found(Sealed(a, body, nonce))
    ensures BodyOf(Verdict(b, recent, Sealed(a, body, nonce)))
            == if Encode(nonce) in recent then Rejected(Replay) else Body(body)
  {
    hide Ascii, Encode, Verdict, EnvelopeMembers, Payload, FieldsOf, Print, Utf8, Paired, EncodeMessage, Unwrap;
    hide IsBoardPayload;
    if EncodeMessage(a, body, nonce).Some? {
      UnwrapFinds(a, body, nonce, parse, EncodeMessage(a, body, nonce).value);
    }
    SealOpens(a, secretA, b, secretB, recent, Utf8(Print(Payload(body))), nonce);
    PlaintextRead(b, parse, decode, body);
    PayloadFields(body);
  }

  /** A body is only ever taken from an envelope that the peer sealed. */
  lemma OnlyThePeersBodies(end: End, parse: Text -> Option<Json>, recent: set<Text>, text: Text)
    requires end.box.Sound() && Unwrap(parse, text).Found?
    ensures var e := Unwrap(parse, text).envelope;
      BodyOf(Verdict(end, recent, e)).Body?
      ==> e.nonce !in recent && exists message, nonce :: Genuine(end, e, message, nonce)
  {
    RememberedIffGenuine(end, recent, Unwrap(parse, text).envelope);
  }
}
