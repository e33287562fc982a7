/** Printed objects and UTF-8 can be read back: different objects have different
    prints, and different texts different bytes. */
module JsonReading {
  import opened Options
  import opened ByteBits
  import opened Base64
  import opened JsonText

  // ---------- Strings end where they end ----------

  lemma OnlyTheEmptyStartsWithQuote(a: Text, x: Text)
    ensures (Escape(a) + [34] + x)[0] == 34 <==> a == []
  {
  }

  /** The quote that ends a string cannot be taken for a part of it. */
  lemma {:induction false} StringsEnd(a: Text, x: Text, b: Text, y: Text)
    requires Escape(a) + [34] + x == Escape(b) + [34] + y
    ensures a == b && x == y
  {
    hide EscapePoint;
    OnlyTheEmptyStartsWithQuote(a, x);
    OnlyTheEmptyStartsWithQuote(b, y);
    if a == [] {
      assert (Escape(a) + [34] + x)[1..] == x && (Escape(b) + [34] + y)[1..] == y;
    } else {
      var restA, restB := Escape(a[1..]) + [34] + x, Escape(b[1..]) + [34] + y;
      assert Escape(a) + [34] + x == EscapePoint(a[0]) + restA;
      assert Escape(b) + [34] + y == EscapePoint(b[0]) + restB;
      SamePoint(a[0], restA, b[0], restB);
      StringsEnd(a[1..], x, b[1..], y);
      assert a == [a[0]] + a[1..] && b == [b[0]] + b[1..];
    }
  }

  lemma SamePoint(c: CodePoint, x: Text, d: CodePoint, y: Text)
    requires EscapePoint(c) + x == EscapePoint(d) + y
    ensures c == d && x == y
  {
    UnescapePoint(c, x);
    UnescapePoint(d, y);
    hide EscapePoint, Unescape;
    assert ([c] + Unescape(x))[0] == ([d] + Unescape(y))[0];
    assert (EscapePoint(c) + x)[|EscapePoint(c)|..] == x && (EscapePoint(d) + y)[|EscapePoint(d)|..] == y;
  }

  lemma QuotesEnd(a: Text, x: Text, b: Text, y: Text)
    requires Quote(a) + x == Quote(b) + y
    ensures a == b && x == y
  {
    hide Escape;
    assert (Quote(a) + x)[1..] == Escape(a) + [34] + x;
    assert (Quote(b) + y)[1..] == Escape(b) + [34] + y;
    StringsEnd(a, x, b, y);
  }

  // ---------- Objects ----------

  lemma ScalarsEnd(v: Scalar, x: Text, w: Scalar, y: Text)
    requires PrintScalar(v) + x == PrintScalar(w) + y
    ensures v == w && x == y
  {
    assert v.Word? <==> (PrintScalar(v) + x)[0] == 34;
    assert w.Word? <==> (PrintScalar(w) + y)[0] == 34;
    if v.Word? {
      QuotesEnd(v.text, x, w.text, y);
    } else {
      assert (PrintScalar(v) + x)[1..] == x && (PrintScalar(w) + y)[1..] == y;
    }
  }

  /** What follows the first value of a printed object. */
  function Tail(members: seq<Member>): Text
    requires members != []
  {
    if |members| == 1 then [125] else [44] + PrintMembers(members[1..]) + [125]
  }

  lemma PrintOfFirst(members: seq<Member>)
    requires members != []
    ensures var comma, rest := if |members| == 1 then [] else [44], PrintMembers(members[1..]);
      && PrintMembers(members) == Quote(members[0].key) + [58] + PrintScalar(members[0].value) + comma + rest
      && Tail(members) == comma + rest + [125]
  {
    hide Quote, PrintScalar;
    if |members| == 1 {
      assert PrintMembers(members[1..]) == [];
    }
  }

  lemma FirstMember(members: seq<Member>)
    requires members != []
    ensures PrintMembers(members) + [125]
            == Quote(members[0].key) + ([58] + (PrintScalar(members[0].value) + Tail(members)))
  {
    hide PrintMembers, Quote, PrintScalar, Tail;
    PrintOfFirst(members);
    Regroup(Quote(members[0].key), PrintScalar(members[0].value), if |members| == 1 then [] else [44],
            PrintMembers(members[1..]));
  }

  lemma Regroup(key: Text, value: Text, comma: Text, rest: Text)
    ensures key + [58] + value + comma + rest + [125] == key + ([58] + (value + (comma + rest + [125])))
  {
  }

  lemma FirstMembersAgree(ms: seq<Member>, ns: seq<Member>)
    requires ms != [] && ns != []
    requires PrintMembers(ms) + [125] == PrintMembers(ns) + [125]
    ensures ms[0] == ns[0] && Tail(ms) == Tail(ns)
  {
    hide PrintMembers, Quote, PrintScalar, Tail;
    FirstMember(ms);
    FirstMember(ns);
    var x, y := PrintScalar(ms[0].value) + Tail(ms), PrintScalar(ns[0].value) + Tail(ns);
    QuotesEnd(ms[0].key, [58] + x, ns[0].key, [58] + y);
    assert ([58] + x)[1..] == x && ([58] + y)[1..] == y;
    ScalarsEnd(ms[0].value, Tail(ms), ns[0].value, Tail(ns));
  }

  lemma OnlyTheEmptyStartsWithBrace(members: seq<Member>)
    ensures (PrintMembers(members) + [125])[0] == 125 <==> members == []
  {
    if members != [] {
      hide PrintMembers, Tail;
      FirstMember(members);
    }
  }

  lemma TailOfOne(members: seq<Member>)
    requires members != []
    ensures Tail(members) != [] && (Tail(members)[0] == 125 <==> |members| == 1)
    ensures |members| > 1 ==> Tail(members)[1..] == PrintMembers(members[1..]) + [125]
  {
    hide PrintMembers;
  }

  lemma {:induction false} MembersEnd(ms: seq<Member>, ns: seq<Member>)
    requires PrintMembers(ms) + [125] == PrintMembers(ns) + [125]
    ensures ms == ns
  {
    hide PrintMembers, Tail;
    OnlyTheEmptyStartsWithBrace(ms);
    OnlyTheEmptyStartsWithBrace(ns);
    if ms != [] {
      FirstMembersAgree(ms, ns);
      TailOfOne(ms);
      TailOfOne(ns);
      if |ms| > 1 {
        MembersEnd(ms[1..], ns[1..]);
      }
      assert ms == [ms[0]] + ms[1..] && ns == [ns[0]] + ns[1..];
    }
  }

  lemma PrintsDiffer(ms: seq<Member>, ns: seq<Member>)
    requires Print(ms) == Print(ns)
    ensures ms == ns
  {
    hide PrintMembers;
    assert Print(ms)[1..] == PrintMembers(ms) + [125] && Print(ns)[1..] == PrintMembers(ns) + [125];
    MembersEnd(ms, ns);
  }

  // ---------- UTF-8 ----------

  lemma SameUtf8Point(c: CodePoint, x: seq<Byte>, d: CodePoint, y: seq<Byte>)
    requires Utf8Point(c) + x == Utf8Point(d) + y
    ensures c == d && x == y
  {
    var s, t := Utf8Point(c) + x, Utf8Point(d) + y;
    assert |Utf8Point(c)| == Utf8Length(s[0]) && |Utf8Point(d)| == Utf8Length(t[0]);
    PointOfUtf8(c);
    PointOfUtf8(d);
    hide Utf8Point, PointOf;
    assert Utf8Point(c) == s[..|Utf8Point(c)|] == t[..|Utf8Point(d)|] == Utf8Point(d);
    assert s[|Utf8Point(c)|..] == x && t[|Utf8Point(d)|..] == y;
  }

  /** How many bytes the first one announces. */
  function Utf8Length(b: Byte): nat {
    if b < 0xC0 then 1 else if b < 0xE0 then 2 else if b < 0xF0 then 3 else 4
  }

  function PointOf(u: seq<int>): int
    requires 1 <= |u| <= 4
  {
    if |u| == 1 then u[0]
    else if |u| == 2 then (u[0] - 0xC0) * 64 + (u[1] - 0x80)
    else if |u| == 3 then (u[0] - 0xE0) * 4096 + (u[1] - 0x80) * 64 + (u[2] - 0x80)
    else (u[0] - 0xF0) * 262144 + (u[1] - 0x80) * 4096 + (u[2] - 0x80) * 64 + (u[3] - 0x80)
  }

  lemma PointOfUtf8(c: CodePoint)
    ensures PointOf(Utf8Point(c)) == c
  {
    assert c / 64 / 64 == c / 4096 && c / 4096 / 64 == c / 262144;
  }

  lemma {:induction false} Utf8Differs(s: Text, t: Text)
    requires Utf8(s) == Utf8(t)
    ensures s == t
  {
    hide Utf8Point;
    if s != [] && t != [] {
      SameUtf8Point(s[0], Utf8(s[1..]), t[0], Utf8(t[1..]));
      Utf8Differs(s[1..], t[1..]);
      assert s == [s[0]] + s[1..] && t == [t[0]] + t[1..];
    } else {
      Utf8NotEmpty(s);
      Utf8NotEmpty(t);
    }
  }

  lemma Utf8NotEmpty(s: Text)
    ensures Utf8(s) == [] <==> s == []
  {
  }

  // ---------- The readers that the session relies on ----------

  ghost function ReadJson(t: Text): Option<Json> {
    if exists members :: Print(members) == t then
      var members :| Print(members) == t;
      Some(Object(FieldsOf(members)))
    else None
  }

  ghost function ReadUtf8(bytes: seq<Byte>): Text {
    if exists t :: Utf8(t) == bytes then
      var t :| Utf8(t) == bytes;
      t
    else []
  }

  /** Readers that keep the promises of JSON.parse and of Buffer.toString exist. */
  lemma ReadersExist()
    ensures ReadsBack(ReadJson) && DecodesUtf8(ReadUtf8)
  {
    hide Print, Utf8, FieldsOf;
    forall members
      ensures ReadJson(Print(members)) == Some(Object(FieldsOf(members)))
    {
      forall others | Print(others) == Print(members)
        ensures others == members
      {
        PrintsDiffer(others, members);
      }
    }
    forall t | NoSurrogates(t)
      ensures ReadUtf8(Utf8(t)) == t
    {
      forall u | Utf8(u) == Utf8(t)
        ensures u == t
      {
        Utf8Differs(u, t);
      }
    }
  }
}
