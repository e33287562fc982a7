/** The base64 coding of binary envelope fields (section 4 of RFC 4648): Node's
    encoder, its forgiving decoder, and the strict decoder built on both. */
module Base64 {
  import opened ByteBits

  type Sextet = x: int | 0 <= x < 64

  datatype Result<+T> = Ok(value: T) | InvalidEncoding | NonCanonical

  /** The text is a JavaScript string, read as code points; below, `A` to `Z` are 65
      to 90, `a` to `z` 97 to 122, the digits 48 to 57, `+` 43, `/` 47 and `=` 61. */
  type CodePoint = c: int | 0 <= c < 0x110000
  type Text = seq<CodePoint>

  const PAD: CodePoint := 61

  function ToChar(x: Sextet): CodePoint {
    if x < 26 then x + 65
    else if x < 52 then x + 71
    else if x < 62 then x - 4
    else if x == 62 then 43 else 47
  }

  predicate IsBase64Char(c: CodePoint) {
    65 <= c <= 90 || 97 <= c <= 122 || 48 <= c <= 57 || c == 43 || c == 47
  }

  function FromChar(c: CodePoint): Sextet
    requires IsBase64Char(c)
  {
    if 65 <= c <= 90 then c - 65
    else if 97 <= c <= 122 then c - 71
    else if 48 <= c <= 57 then c + 4
    else if c == 43 then 62 else 63
  }

  lemma CharRoundTrip(x: Sextet)
    ensures IsBase64Char(ToChar(x)) && FromChar(ToChar(x)) == x && ToChar(x) != PAD
  {
  }

  /** The alphabet of RFC 4648, section 4. */
  lemma CharsOfAlphabet(x: Sextet)
    ensures x < 26 ==> ToChar(x) == 'A' as int + x
    ensures 26 <= x < 52 ==> ToChar(x) == 'a' as int + x - 26
    ensures 52 <= x < 62 ==> ToChar(x) == '0' as int + x - 52
    ensures ToChar(62) == '+' as int && ToChar(63) == '/' as int && PAD == '=' as int
  {
  }

  // ---------- Encoding ----------

  /** Three bytes as four characters of six bits each. */
  function Quad(b0: Byte, b1: Byte, b2: Byte): Text {
    [ToChar(b0 / 4), ToChar(b0 % 4 * 16 + b1 / 16), ToChar(b1 % 16 * 4 + b2 / 64), ToChar(b2 % 64)]
  }

  /** A last group of one or two bytes is filled up with zero bits and marked by
      the padding. */
  function Encode(bytes: seq<Byte>): Text {
    if bytes == [] then []
    else if |bytes| == 1 then Quad(bytes[0], 0, 0)[..2] + [PAD, PAD]
    else if |bytes| == 2 then Quad(bytes[0], bytes[1], 0)[..3] + [PAD]
    else Quad(bytes[0], bytes[1], bytes[2]) + Encode(bytes[3..])
  }

  // ---------- Decoding ----------

  /** The text less at most two padding characters. */
  function Body(s: Text): Text {
    if |s| >= 2 && s[|s| - 1] == PAD && s[|s| - 2] == PAD then s[..|s| - 2]
    else if |s| >= 1 && s[|s| - 1] == PAD then s[..|s| - 1]
    else s
  }

  /** The regular expression and the length that the strict decoder demands. */
  predicate WellFormed(s: Text) {
    |s| % 4 == 0 && forall c | c in Body(s) :: IsBase64Char(c)
  }

  predicate IsAlphabetic(c: CodePoint) {
    'A' as int <= c <= 'Z' as int || 'a' as int <= c <= 'z' as int || '0' as int <= c <= '9' as int
    || c == '+' as int || c == '/' as int
  }

  /** Characters of the alphabet, and padding from place `n` on. */
  predicate PaddedFrom(s: Text, n: int) {
    && 0 <= n <= |s| <= n + 2
    && (forall i | 0 <= i < n :: IsAlphabetic(s[i]))
    && (forall i | n <= i < |s| :: s[i] == '=' as int)
  }

  /** Whole groups of four characters of the alphabet, the last one or two of which may
      be padding. */
  lemma WellFormedIff(s: Text)
    ensures WellFormed(s) <==> |s| % 4 == 0 && exists n :: PaddedFrom(s, n)
  {
    var body := Body(s);
    assert body == s[..|body|];
    if WellFormed(s) {
      assert forall i | 0 <= i < |body| :: s[i] == body[i] && body[i] in body;
      assert PaddedFrom(s, |body|);
    }
    if exists n :: PaddedFrom(s, n) {
      var n :| PaddedFrom(s, n);
      assert n == |body|;
    }
  }

  function Triple(c0: CodePoint, c1: CodePoint, c2: CodePoint, c3: CodePoint): seq<Byte>
    requires IsBase64Char(c0) && IsBase64Char(c1) && IsBase64Char(c2) && IsBase64Char(c3)
  {
    var x0, x1, x2, x3 := FromChar(c0), FromChar(c1), FromChar(c2), FromChar(c3);
    [x0 * 4 + x1 / 16, x1 % 16 * 16 + x2 / 4, x2 % 4 * 64 + x3]
  }

  /** Node's decoder: left-over bits are dropped without a complaint. */
  function Forgiving(body: Text): seq<Byte>
    requires forall c | c in body :: IsBase64Char(c)
  {
    if |body| <= 1 then []
    else if |body| == 2 then Triple(body[0], body[1], 65, 65)[..1]
    else if |body| == 3 then Triple(body[0], body[1], body[2], 65)[..2]
    else Triple(body[0], body[1], body[2], body[3]) + Forgiving(body[4..])
  }

  /** `decodeBase64`: refuse malformed text, and text that does not come back when
      the decoded bytes are encoded again. */
  function Decode(s: Text): Result<seq<Byte>> {
    if !WellFormed(s) then InvalidEncoding
    else
      var bytes := Forgiving(Body(s));
      if Encode(bytes) != s then NonCanonical else Ok(bytes)
  }

  // ---------- Decoding inverts encoding ----------

  /** The pieces that three bytes are cut into give the bytes back, and are the
      same 24 bits. */
  lemma Rejoin(b0: Byte, b1: Byte, b2: Byte, x0: int, x1: int, x2: int, x3: int)
    requires x0 == b0 / 4 && x1 == b0 % 4 * 16 + b1 / 16 && x2 == b1 % 16 * 4 + b2 / 64 && x3 == b2 % 64
    ensures x0 * 4 + x1 / 16 == b0 && x1 % 16 * 16 + x2 / 4 == b1 && x2 % 4 * 64 + x3 == b2
    ensures b0 * 65536 + b1 * 256 + b2 == x0 * 262144 + x1 * 4096 + x2 * 64 + x3
  {
  }

  lemma SextetsDecode(x0: Sextet, x1: Sextet, x2: Sextet, x3: Sextet)
    ensures IsBase64Char(ToChar(x0)) && IsBase64Char(ToChar(x1)) && IsBase64Char(ToChar(x2)) && IsBase64Char(ToChar(x3))
    ensures Triple(ToChar(x0), ToChar(x1), ToChar(x2), ToChar(x3))
            == [x0 * 4 + x1 / 16, x1 % 16 * 16 + x2 / 4, x2 % 4 * 64 + x3]
  {
    CharRoundTrip(x0);
    CharRoundTrip(x1);
    CharRoundTrip(x2);
    CharRoundTrip(x3);
    hide ToChar, FromChar;
  }

  /** Four characters stand for the three bytes they were made from. */
  lemma QuadDecodes(b0: Byte, b1: Byte, b2: Byte)
    ensures var q := Quad(b0, b1, b2);
      && |q| == 4 && IsBase64Char(q[0]) && IsBase64Char(q[1]) && IsBase64Char(q[2]) && IsBase64Char(q[3])
      && Triple(q[0], q[1], q[2], q[3]) == [b0, b1, b2]
  {
    hide ToChar, FromChar, IsBase64Char, Triple;
    var x0, x1, x2, x3 := b0 / 4, b0 % 4 * 16 + b1 / 16, b1 % 16 * 4 + b2 / 64, b2 % 64;
    SextetsDecode(x0, x1, x2, x3);
    Rejoin(b0, b1, b2, x0, x1, x2, x3);
  }

  /** And they are the same 24 bits, the first ones first. */
  lemma QuadBits(b0: Byte, b1: Byte, b2: Byte) returns (x0: Sextet, x1: Sextet, x2: Sextet, x3: Sextet)
    ensures Quad(b0, b1, b2) == [ToChar(x0), ToChar(x1), ToChar(x2), ToChar(x3)]
    ensures x0 * 262144 + x1 * 4096 + x2 * 64 + x3 == b0 * 65536 + b1 * 256 + b2
  {
    hide ToChar;
    x0, x1, x2, x3 := b0 / 4, b0 % 4 * 16 + b1 / 16, b1 % 16 * 4 + b2 / 64, b2 % 64;
    Rejoin(b0, b1, b2, x0, x1, x2, x3);
  }

  lemma EmptyDecodes()
    ensures WellFormed([]) && Forgiving(Body([])) == []
  {
  }

  lemma OneByteDecodes(b0: Byte)
    ensures WellFormed(Encode([b0])) && Forgiving(Body(Encode([b0]))) == [b0]
  {
    assert Quad(b0, 0, 0)[2..] == [65, 65];
    hide ToChar, FromChar, IsBase64Char, Quad, Triple;
    QuadDecodes(b0, 0, 0);
    BodyOfPadded(Quad(b0, 0, 0)[..2], 2);
  }

  lemma TwoBytesDecode(b0: Byte, b1: Byte)
    ensures WellFormed(Encode([b0, b1])) && Forgiving(Body(Encode([b0, b1]))) == [b0, b1]
  {
    assert Quad(b0, b1, 0)[3..] == [65];
    hide ToChar, FromChar, IsBase64Char, Quad, Triple;
    QuadDecodes(b0, b1, 0);
    BodyOfPadded(Quad(b0, b1, 0)[..3], 1);
  }

  /** Padding is taken off again. */
  lemma BodyOfPadded(body: Text, missing: nat)
    requires 1 <= missing <= 2 && |body| == 4 - missing
    requires forall c | c in body :: IsBase64Char(c)
    ensures var s := body + (if missing == 1 then [PAD] else [PAD, PAD]); Body(s) == body && |s| == 4
  {
    assert body[|body| - 1] in body;
  }

  lemma {:induction false} EncodeDecodes(bytes: seq<Byte>)
    ensures WellFormed(Encode(bytes)) && Forgiving(Body(Encode(bytes))) == bytes
  {
    hide Quad, Forgiving, Body, WellFormed;
    if bytes == [] {
      EmptyDecodes();
    } else if |bytes| == 1 {
      OneByteDecodes(bytes[0]);
      assert bytes == [bytes[0]];
    } else if |bytes| == 2 {
      TwoBytesDecode(bytes[0], bytes[1]);
      assert bytes == [bytes[0], bytes[1]];
    } else {
      EncodeDecodes(bytes[3..]);
      GroupDecodes(bytes[0], bytes[1], bytes[2], Encode(bytes[3..]));
    }
  }

  lemma {:induction false} EncodedLength(bytes: seq<Byte>)
    ensures |Encode(bytes)| == (|bytes| + 2) / 3 * 4
  {
    hide ToChar;
    if |bytes| >= 3 {
      EncodedLength(bytes[3..]);
    }
  }

  lemma GroupDecodes(b0: Byte, b1: Byte, b2: Byte, rest: Text)
    requires WellFormed(rest)
    ensures WellFormed(Quad(b0, b1, b2) + rest)
    ensures Forgiving(Body(Quad(b0, b1, b2) + rest)) == [b0, b1, b2] + Forgiving(Body(rest))
  {
    hide ToChar, FromChar, IsBase64Char, Quad, Triple;
    QuadDecodes(b0, b1, b2);
    BodyOfAppend(Quad(b0, b1, b2), rest);
    assert (Quad(b0, b1, b2) + Body(rest))[4..] == Body(rest);
  }

  /** Padding belongs to the end of the text. */
  lemma BodyOfAppend(first: Text, rest: Text)
    requires |first| == 4 && forall c | c in first :: IsBase64Char(c)
    requires |rest| % 4 == 0
    ensures Body(first + rest) == first + Body(rest)
  {
    if rest == [] {
      assert first + rest == first;
      assert first[3] in first;
    } else {
      assert |rest| >= 4;
    }
  }

  /** The strict decoder accepts exactly the encoder's outputs, and gives back what
      was encoded. */
  lemma DecodeInvertsEncode(s: Text, bytes: seq<Byte>)
    ensures Decode(s) == Ok(bytes) <==> s == Encode(bytes)
  {
    EncodeDecodes(bytes);
  }

  /** So equal texts stand for equal bytes, and different texts for different
      bytes. */
  lemma TextsStandForBytes(s: Text, t: Text)
    requires Decode(s).Ok? && Decode(t).Ok?
    ensures s == t <==> Decode(s).value == Decode(t).value
  {
    DecodeInvertsEncode(s, Decode(s).value);
    DecodeInvertsEncode(t, Decode(t).value);
  }
}
