/** How JSON.stringify prints a flat object and how long the print is in UTF-8
    (QuoteJSONString of ECMA-262, RFC 3629). */
module JsonText {
  import opened Options
  import opened ByteBits
  import opened Base64


  /** The value of a parsed text; `Other` stands for what no caller looks into. */
  datatype Json = Str(text: Text) | Number(n: int) | Object(fields: map<Text, Json>) | Other

  datatype Scalar = Word(text: JsString) | One
  datatype Member = Member(key: JsString, value: Scalar)

  predicate IsSurrogate(c: CodePoint) {
    0xD800 <= c < 0xE000
  }

  /** Two halves of a surrogate pair next to each other are one code point. */
  predicate IsJsString(t: Text) {
    forall i | 0 < i < |t| :: !(0xD800 <= t[i - 1] < 0xDC00 && 0xDC00 <= t[i] < 0xE000)
  }

  type JsString = t: Text | IsJsString(t) witness []

  /** A text of the program's own, which is plain ASCII. */
  function Ascii(s: string): (t: Text)
    requires forall i | 0 <= i < |s| :: s[i] < 128 as char
    ensures |t| == |s| && AllBelow(t, 128)
  {
    seq(|s|, i requires 0 <= i < |s| => var c: CodePoint := s[i] as int; c)
  }

  predicate AllBelow(t: Text, limit: int) {
    forall i | 0 <= i < |t| :: t[i] < limit
  }

  // ---------- Strings in JSON ----------

  function HexDigit(x: int): CodePoint
    requires 0 <= x < 16
  {
    if x < 10 then 48 + x else 87 + x
  }

  function EscapePoint(c: CodePoint): Text {
    if c == 34 || c == 92 then [92, c]
    else if c == 8 then [92, 98]
    else if c == 9 then [92, 116]
    else if c == 10 then [92, 110]
    else if c == 12 then [92, 102]
    else if c == 13 then [92, 114]
    else if c < 32 || IsSurrogate(c) then
      [92, 117, HexDigit(c / 4096), HexDigit(c / 256 % 16), HexDigit(c / 16 % 16), HexDigit(c % 16)]
    else [c]
  }

  /** What QuoteJSONString makes of a code point: a short escape, four hexadecimal
      digits with its value, or the code point itself. */
  lemma EscapedAs(c: CodePoint)
    ensures c == '"' as int || c == '\\' as int ==> EscapePoint(c) == ['\\' as int, c]
    ensures c in {8, 9, 10, 12, 13} ==> EscapePoint(c) == ['\\' as int, "btn-fr"[c - 8] as int]
    ensures c >= 32 && c != '"' as int && c != '\\' as int && !IsSurrogate(c) ==> EscapePoint(c) == [c]
  {
  }

  lemma EscapedByValue(c: CodePoint) returns (w: int, x: int, y: int, z: int)
    requires (c < 32 && c !in {8, 9, 10, 12, 13}) || 0xD800 <= c < 0xE000
    ensures 0 <= w < 16 && 0 <= x < 16 && 0 <= y < 16 && 0 <= z < 16 && c == w * 4096 + x * 256 + y * 16 + z
    ensures EscapePoint(c) == ['\\' as int, 'u' as int, HexDigit(w), HexDigit(x), HexDigit(y), HexDigit(z)]
  {
    w, x, y, z := c / 4096, c / 256 % 16, c / 16 % 16, c % 16;
    SixteenBits(c);
  }

  lemma SixteenBits(c: int)
    requires 0 <= c < 0x10000
    ensures c == c / 4096 * 4096 + c / 256 % 16 * 256 + c / 16 % 16 * 16 + c % 16
  {
    assert c / 256 == c / 16 / 16 && c / 4096 == c / 256 / 16;
  }

  lemma HexDigits(x: int)
    requires 0 <= x < 16
    ensures HexDigit(x) == "0123456789abcdef"[x] as int
  {
  }

  function Escape(t: Text): Text {
    if t == [] then [] else EscapePoint(t[0]) + Escape(t[1..])
  }

  function Quote(t: Text): Text {
    [34] + Escape(t) + [34]
  }

  // ---------- Flat objects ----------

  function PrintScalar(v: Scalar): Text {
    match v
    case Word(text) => Quote(text)
    case One => [49]
  }

  function PrintMembers(members: seq<Member>): Text {
    if members == [] then []
    else
      Quote(members[0].key) + [58] + PrintScalar(members[0].value)
      + (if |members| == 1 then [] else [44]) + PrintMembers(members[1..])
  }

  function Print(members: seq<Member>): Text {
    [123] + PrintMembers(members) + [125]
  }

  function ValueOf(v: Scalar): Json {
    match v
    case Word(text) => Str(text)
    case One => Number(1)
  }

  function FieldsOf(members: seq<Member>): map<Text, Json> {
    if members == [] then map[]
    else FieldsOf(members[..|members| - 1])[members[|members| - 1].key := ValueOf(members[|members| - 1].value)]
  }

  /** What JSON.parse owes to JSON.stringify. */
  ghost predicate ReadsBack(parse: Text -> Option<Json>) {
    forall members :: parse(Print(members)) == Some(Object(FieldsOf(members)))
  }

  // ---------- UTF-8 ----------

  function Utf8Point(c: CodePoint): seq<Byte> {
    if c < 0x80 then [c]
    else if c < 0x800 then [0xC0 + c / 64, 0x80 + c % 64]
    else if c < 0x10000 then [0xE0 + c / 4096, 0x80 + c / 64 % 64, 0x80 + c % 64]
    else [0xF0 + c / 262144, 0x80 + c / 4096 % 64, 0x80 + c / 64 % 64, 0x80 + c % 64]
  }

  /** The bits of a code point in its bytes (section 3 of RFC 3629). */
  lemma Utf8Bits(c: CodePoint)
    ensures var u: seq<int> := Utf8Point(c);
      if c < 0x80 then u == [c]
      else if c < 0x800 then |u| == 2 && c + 0xC0 * 64 + 0x80 == u[0] * 64 + u[1]
      else if c < 0x10000 then |u| == 3 && c + 0xE0 * 4096 + 0x80 * 65 == u[0] * 4096 + u[1] * 64 + u[2]
      else |u| == 4 && c + 0xF0 * 262144 + 0x80 * 4161 == u[0] * 262144 + u[1] * 4096 + u[2] * 64 + u[3]
    ensures forall i | 1 <= i < |Utf8Point(c)| :: 0x80 <= Utf8Point(c)[i] < 0xC0
  {
    assert c / 4096 == c / 64 / 64 && c / 262144 == c / 4096 / 64;
  }

  function Utf8(t: Text): seq<Byte> {
    if t == [] then [] else Utf8Point(t[0]) + Utf8(t[1..])
  }

  /** What Buffer.toString owes to Buffer.from. */
  ghost predicate DecodesUtf8(decode: seq<Byte> -> Text) {
    forall t | NoSurrogates(t) :: decode(Utf8(t)) == t
  }

  // ---------- Lengths ----------

  /** The bytes that one code point of a string adds to a JSON text. */
  function EscapedPointSize(c: CodePoint): nat {
    if c in {8, 9, 10, 12, 13, 34, 92} then 2
    else if c < 32 || IsSurrogate(c) then 6
    else if c < 0x80 then 1
    else if c < 0x800 then 2
    else if c < 0x10000 then 3
    else 4
  }

  function EscapedSize(t: Text): nat {
    if t == [] then 0 else EscapedPointSize(t[0]) + EscapedSize(t[1..])
  }

  lemma {:induction false} Utf8Joins(s: Text, t: Text)
    ensures Utf8(s + t) == Utf8(s) + Utf8(t)
  {
    if s == [] {
      assert s + t == t;
    } else {
      Utf8Joins(s[1..], t);
      Utf8First(s, t);
      Utf8First(s, []);
      hide Utf8, Utf8Point;
      assert s + [] == s && s[1..] + [] == s[1..];
      Associates(Utf8Point(s[0]), Utf8(s[1..]), Utf8(t));
    }
  }

  lemma Utf8First(s: Text, t: Text)
    requires s != []
    ensures Utf8(s + t) == Utf8Point(s[0]) + Utf8(s[1..] + t)
  {
    hide Utf8Point;
    assert (s + t)[1..] == s[1..] + t;
  }

  lemma Associates(a: seq<Byte>, b: seq<Byte>, c: seq<Byte>)
    ensures (a + b) + c == a + (b + c)
  {
  }

  lemma {:induction false} AsciiIsItsOwnUtf8(t: Text)
    requires AllBelow(t, 128)
    ensures Utf8(t) == t
  {
    if t != [] {
      AsciiIsItsOwnUtf8(t[1..]);
    }
  }

  lemma {:induction false} EscapedUtf8Size(t: Text)
    ensures |Utf8(Escape(t))| == EscapedSize(t)
  {
    if t != [] {
      EscapedUtf8Size(t[1..]);
      Utf8Joins(EscapePoint(t[0]), Escape(t[1..]));
      EscapedPointUtf8Size(t[0]);
    }
  }

  lemma EscapedPointUtf8Size(c: CodePoint)
    ensures |Utf8(EscapePoint(c))| == EscapedPointSize(c)
  {
    var e := EscapePoint(c);
    if |e| == 1 {
      assert Utf8(e) == Utf8Point(c) + Utf8(e[1..]);
    } else {
      AsciiIsItsOwnUtf8(e);
    }
  }

  /** Base64 texts are printed as they are. */
  predicate IsPlain(t: Text) {
    forall i | 0 <= i < |t| :: EscapePoint(t[i]) == [t[i]] && t[i] < 128
  }

  lemma {:induction false} PlainEscape(t: Text)
    requires IsPlain(t)
    ensures Escape(t) == t
  {
    if t != [] {
      PlainEscape(t[1..]);
    }
  }

  lemma {:induction false} PlainSize(t: Text)
    requires IsPlain(t)
    ensures EscapedSize(t) == |t|
  {
    if t != [] {
      assert EscapePoint(t[0]) == [t[0]];
      PlainSize(t[1..]);
    }
  }

  function ScalarSize(v: Scalar): nat {
    match v
    case Word(text) => EscapedSize(text) + 2
    case One => 1
  }

  function MembersSize(members: seq<Member>): nat {
    if members == [] then 0
    else
      EscapedSize(members[0].key) + 3 + ScalarSize(members[0].value)
      + (if |members| == 1 then 0 else 1) + MembersSize(members[1..])
  }

  lemma QuoteSize(t: Text)
    ensures |Utf8(Quote(t))| == EscapedSize(t) + 2
  {
    EscapedUtf8Size(t);
    AsciiIsItsOwnUtf8([34]);
    Utf8Joins([34] + Escape(t), [34]);
    Utf8Joins([34], Escape(t));
  }

  lemma ScalarUtf8Size(v: Scalar)
    ensures |Utf8(PrintScalar(v))| == ScalarSize(v)
  {
    match v
    case Word(text) => QuoteSize(text);
    case One => AsciiIsItsOwnUtf8([49]);
  }

  lemma {:induction false} MembersUtf8Size(members: seq<Member>)
    ensures |Utf8(PrintMembers(members))| == MembersSize(members)
  {
    if members != [] {
      hide Utf8, Quote, PrintScalar, ScalarSize, EscapedSize;
      var key, value, rest := Quote(members[0].key), PrintScalar(members[0].value), PrintMembers(members[1..]);
      var comma := if |members| == 1 then [] else [44];
      QuoteSize(members[0].key);
      ScalarUtf8Size(members[0].value);
      MembersUtf8Size(members[1..]);
      AsciiIsItsOwnUtf8([58]);
      AsciiIsItsOwnUtf8(comma);
      Utf8Joins(key + [58] + value + comma, rest);
      Utf8Joins(key + [58] + value, comma);
      Utf8Joins(key + [58], value);
      Utf8Joins(key, [58]);
    } else {
      assert Utf8([]) == [];
    }
  }

  lemma PrintUtf8Size(members: seq<Member>)
    ensures |Utf8(Print(members))| == MembersSize(members) + 2
  {
    MembersUtf8Size(members);
    AsciiIsItsOwnUtf8([123]);
    AsciiIsItsOwnUtf8([125]);
    Utf8Joins([123] + PrintMembers(members), [125]);
    Utf8Joins([123], PrintMembers(members));
  }

  // ---------- Prints are well-formed Unicode ----------

  /** Nothing that UTF-8 cannot carry. */
  predicate NoSurrogates(t: Text) {
    forall i | 0 <= i < |t| :: !IsSurrogate(t[i])
  }

  lemma {:induction false} EscapedHasNoSurrogates(t: Text)
    ensures NoSurrogates(Escape(t))
  {
    if t != [] {
      EscapedHasNoSurrogates(t[1..]);
      assert NoSurrogates(EscapePoint(t[0]));
    }
  }

  lemma SurrogatesJoin(s: Text, t: Text)
    requires NoSurrogates(s) && NoSurrogates(t)
    ensures NoSurrogates(s + t)
  {
  }

  lemma ScalarHasNoSurrogates(v: Scalar)
    ensures NoSurrogates(PrintScalar(v))
  {
    if v.Word? {
      EscapedHasNoSurrogates(v.text);
      hide Escape;
    }
  }

  lemma {:induction false} PrintHasNoSurrogates(members: seq<Member>)
    ensures NoSurrogates(PrintMembers(members))
  {
    if members != [] {
      var key, value := Quote(members[0].key), PrintScalar(members[0].value);
      var comma := if |members| == 1 then [] else [44];
      ScalarHasNoSurrogates(Word(members[0].key));
      ScalarHasNoSurrogates(members[0].value);
      PrintHasNoSurrogates(members[1..]);
      assert NoSurrogates([58]) && NoSurrogates(comma);
      hide NoSurrogates, Quote;
      SurrogatesJoin(key, [58]);
      SurrogatesJoin(key + [58], value);
      SurrogatesJoin(key + [58] + value, comma);
      SurrogatesJoin(key + [58] + value + comma, PrintMembers(members[1..]));
    }
  }

  // ---------- Escaping loses nothing ----------

  function HexValue(c: CodePoint): (x: int) {
    if 48 <= c <= 57 then c - 48 else if 97 <= c <= 102 then c - 87 else 0
  }

  /** Reads the inside of a JSON string. */
  function Unescape(t: Text): Text
    decreases |t|
  {
    if |t| == 0 then []
    else if t[0] != 92 || |t| == 1 then [t[0]] + Unescape(t[1..])
    else if t[1] == 117 && |t| >= 6 then
      [HexValue(t[2]) * 4096 + HexValue(t[3]) * 256 + HexValue(t[4]) * 16 + HexValue(t[5])] + Unescape(t[6..])
    else
      [if t[1] == 98 then 8 else if t[1] == 116 then 9 else if t[1] == 110 then 10
       else if t[1] == 102 then 12 else if t[1] == 114 then 13 else t[1]] + Unescape(t[2..])
  }

  lemma UnescapePoint(c: CodePoint, rest: Text)
    ensures Unescape(EscapePoint(c) + rest) == [c] + Unescape(rest)
  {
    var e := EscapePoint(c);
    assert (e + rest)[|e|..] == rest;
    if |e| == 6 {
      HexDigitsRead(c);
      hide HexValue, HexDigit;
    }
  }

  lemma HexDigitsRead(c: CodePoint)
    requires c < 65536
    ensures HexValue(HexDigit(c / 4096)) * 4096 + HexValue(HexDigit(c / 256 % 16)) * 256
            + HexValue(HexDigit(c / 16 % 16)) * 16 + HexValue(HexDigit(c % 16)) == c
  {
    HexDigitReads(c / 4096);
    HexDigitReads(c / 256 % 16);
    HexDigitReads(c / 16 % 16);
    HexDigitReads(c % 16);
    hide HexValue, HexDigit;
    assert c == c / 16 * 16 + c % 16;
    assert c / 16 == c / 256 * 16 + c / 16 % 16 by { assert c / 16 / 16 == c / 256; }
    assert c / 256 == c / 4096 * 16 + c / 256 % 16 by { assert c / 256 / 16 == c / 4096; }
  }

  lemma HexDigitReads(x: int)
    requires 0 <= x < 16
    ensures HexValue(HexDigit(x)) == x
  {
  }

  lemma {:induction false} EscapingIsReversible(t: Text)
    ensures Unescape(Escape(t)) == t
  {
    if t != [] {
      UnescapePoint(t[0], Escape(t[1..]));
      EscapingIsReversible(t[1..]);
    }
  }
}
