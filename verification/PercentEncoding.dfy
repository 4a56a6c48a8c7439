/**
 Percent-encoding of text as UTF-8 bytes (RFC 3986 sections 2.1 and 2.3) with nothing but the
 unreserved characters left as they are, which is what quote(..., safe='') does.
 */
module PercentEncoding {
  import opened Options

  type byte = x: int | 0 <= x < 256

  function Utf8(c: char): seq<byte> {
    var n := c as int;
    if n < 0x80 then [n]
    else if n < 0x800 then [0xC0 + n / 64, 0x80 + n % 64]
    else if n < 0x1_0000 then [0xE0 + n / 4096, 0x80 + n / 64 % 64, 0x80 + n % 64]
    else [0xF0 + n / 262144, 0x80 + n / 4096 % 64, 0x80 + n / 64 % 64, 0x80 + n % 64]
  }

  function Utf8String(s: string): seq<byte> {
    if s == "" then [] else Utf8(s[0]) + Utf8String(s[1..])
  }

  predicate Unreserved(b: byte) {
    || 'A' as int <= b <= 'Z' as int || 'a' as int <= b <= 'z' as int || '0' as int <= b <= '9' as int
    || b in {'-' as int, '.' as int, '_' as int, '~' as int}
  }

  function HexDigit(n: nat): (c: char)
    requires n < 16
    ensures '0' <= c <= '9' || 'A' <= c <= 'F'
  {
    if n < 10 then '0' + n as char else 'A' + (n - 10) as char
  }

  function QuoteByte(b: byte): string {
    if Unreserved(b) then [b as char] else ['%', HexDigit(b / 16), HexDigit(b % 16)]
  }

  function QuoteBytes(bytes: seq<byte>): string {
    if bytes == [] then "" else QuoteByte(bytes[0]) + QuoteBytes(bytes[1..])
  }

  function Quote(s: string): string {
    QuoteBytes(Utf8String(s))
  }

  // The six low bits of every continuation byte, put together again.
  function CodePoint(u: seq<int>): int {
    if |u| == 1 then u[0]
    else if |u| == 2 then 64 * (u[0] - 0xC0) + (u[1] - 0x80)
    else if |u| == 3 then 64 * (64 * (u[0] - 0xE0) + (u[1] - 0x80)) + (u[2] - 0x80)
    else if |u| == 4 then 64 * (64 * (64 * (u[0] - 0xF0) + (u[1] - 0x80)) + (u[2] - 0x80)) + (u[3] - 0x80)
    else -1
  }

  lemma Utf8IsExact(c: char)
    ensures CodePoint(Utf8(c)) == c as int
  {
    var n := c as int;
    assert n / 4096 == n / 64 / 64;
    assert n / 262144 == n / 64 / 64 / 64;
  }

  // No character's encoding starts another's.
  lemma Utf8IsPrefixFree(c: char, d: char, r: seq<byte>, t: seq<byte>)
    requires Utf8(c) + r == Utf8(d) + t
    ensures c == d && r == t
  {
    var whole := Utf8(c) + r;
    assert whole[0] == Utf8(c)[0] == Utf8(d)[0];
    assert |Utf8(c)| == |Utf8(d)|;
    forall i | 0 <= i < |Utf8(c)| ensures Utf8(c)[i] == Utf8(d)[i] {
      assert Utf8(c)[i] == whole[i] && Utf8(d)[i] == (Utf8(d) + t)[i];
    }
    assert Utf8(c) == Utf8(d);
    Utf8IsExact(c);
    Utf8IsExact(d);
    assert r == whole[|Utf8(c)|..] && t == (Utf8(d) + t)[|Utf8(d)|..];
  }

  lemma {:induction false} Utf8Injective(s: string, t: string)
    requires Utf8String(s) == Utf8String(t)
    ensures s == t
  {
    if s != "" && t != "" {
      Utf8IsPrefixFree(s[0], t[0], Utf8String(s[1..]), Utf8String(t[1..]));
      Utf8Injective(s[1..], t[1..]);
    }
  }

  lemma HexDigitInjective(m: nat, n: nat)
    requires m < 16 && n < 16 && HexDigit(m) == HexDigit(n)
    ensures m == n
  {
  }

  lemma QuoteByteIsPrefixFree(b: byte, d: byte, r: string, t: string)
    requires QuoteByte(b) + r == QuoteByte(d) + t
    ensures b == d && r == t
  {
    var whole := QuoteByte(b) + r;
    assert whole[0] == QuoteByte(b)[0] == QuoteByte(d)[0];
    assert |QuoteByte(b)| == |QuoteByte(d)|;
    forall i | 0 <= i < |QuoteByte(b)| ensures QuoteByte(b)[i] == QuoteByte(d)[i] {
      assert QuoteByte(b)[i] == whole[i] && QuoteByte(d)[i] == (QuoteByte(d) + t)[i];
    }
    if !Unreserved(b) {
      assert !Unreserved(d) && QuoteByte(b)[1] == QuoteByte(d)[1] && QuoteByte(b)[2] == QuoteByte(d)[2];
      assert HexDigit(b / 16) == HexDigit(d / 16) && HexDigit(b % 16) == HexDigit(d % 16);
      HexDigitInjective(b / 16, d / 16);
      HexDigitInjective(b % 16, d % 16);
    }
    assert r == whole[|QuoteByte(b)|..] && t == (QuoteByte(d) + t)[|QuoteByte(d)|..];
  }

  lemma {:induction false} QuoteBytesInjective(s: seq<byte>, t: seq<byte>)
    requires QuoteBytes(s) == QuoteBytes(t)
    ensures s == t
  {
    if s != [] && t != [] {
      QuoteByteIsPrefixFree(s[0], t[0], QuoteBytes(s[1..]), QuoteBytes(t[1..]));
      QuoteBytesInjective(s[1..], t[1..]);
    }
  }

  /** Different texts have different encodings. */
  lemma QuoteInjective(s: string, t: string)
    requires Quote(s) == Quote(t)
    ensures s == t
  {
    QuoteBytesInjective(Utf8String(s), Utf8String(t));
    Utf8Injective(s, t);
  }

  lemma {:induction false} QuoteBytesHasNoSlash(bytes: seq<byte>)
    ensures '/' !in QuoteBytes(bytes)
  {
    if bytes != [] {
      QuoteBytesHasNoSlash(bytes[1..]);
    }
  }

  // ----- reading it back -----

  // The value of a hexadecimal digit, in either case.
  function HexValue(c: char): Option<nat> {
    if '0' <= c <= '9' then Some((c - '0') as nat)
    else if 'A' <= c <= 'F' then Some(10 + (c - 'A') as nat)
    else if 'a' <= c <= 'f' then Some(10 + (c - 'a') as nat)
    else None
  }

  // The bytes that a percent-encoded text stands for.
  function UnquoteBytes(text: string): Option<seq<byte>> {
    if text == "" then Some([])
    else if text[0] != '%' then
      var rest := UnquoteBytes(text[1..]);
      if rest.None? || text[0] as int >= 0x80 then None else Some([text[0] as int] + rest.value)
    else if |text| < 3 || HexValue(text[1]).None? || HexValue(text[2]).None? then None
    else
      var rest := UnquoteBytes(text[3..]);
      if rest.None? then None else Some([16 * HexValue(text[1]).value + HexValue(text[2]).value] + rest.value)
  }

  // How many bytes a character has that starts with this one (RFC 3629 section 3).
  function Utf8Length(lead: byte): nat {
    if lead < 0x80 then 1
    else if 0xC0 <= lead < 0xE0 then 2
    else if 0xE0 <= lead < 0xF0 then 3
    else if 0xF0 <= lead < 0xF8 then 4
    else 0
  }

  function ReadUtf8(bytes: seq<byte>): Option<string> {
    if bytes == [] then Some("")
    else
      var n := Utf8Length(bytes[0]);
      if n == 0 || n > |bytes| then None
      else
        var point, rest := CodePoint(bytes[..n]), ReadUtf8(bytes[n..]);
        if rest.None? || !(0 <= point < 0xD800 || 0xE000 <= point < 0x11_0000) then None
        else Some([point as char] + rest.value)
  }

  function Unquote(text: string): Option<string> {
    var bytes := UnquoteBytes(text);
    if bytes.None? then None else ReadUtf8(bytes.value)
  }

  lemma HexDigitReads(n: nat)
    requires n < 16
    ensures HexValue(HexDigit(n)) == Some(n)
  {
  }

  lemma {:induction false} UnquoteQuoteBytes(bytes: seq<byte>)
    ensures UnquoteBytes(QuoteBytes(bytes)) == Some(bytes)
  {
    if bytes != [] {
      var b, code := bytes[0], QuoteByte(bytes[0]);
      UnquoteQuoteBytes(bytes[1..]);
      assert QuoteBytes(bytes)[..|code|] == code && QuoteBytes(bytes)[|code|..] == QuoteBytes(bytes[1..]);
      if !Unreserved(b) {
        HexDigitReads(b / 16);
        HexDigitReads(b % 16);
        assert QuoteBytes(bytes)[1] == code[1] && QuoteBytes(bytes)[2] == code[2];
      }
      assert [b] + bytes[1..] == bytes;
    }
  }

  lemma {:induction false} ReadUtf8String(s: string)
    ensures ReadUtf8(Utf8String(s)) == Some(s)
  {
    if s != "" {
      var code, bytes := Utf8(s[0]), Utf8String(s);
      ReadUtf8String(s[1..]);
      Utf8IsExact(s[0]);
      assert bytes[0] == code[0] && Utf8Length(code[0]) == |code|;
      assert bytes[..|code|] == code && bytes[|code|..] == Utf8String(s[1..]);
      assert [s[0]] + s[1..] == s;
    }
  }

  /** A decoder that reads hexadecimal digits by value and then UTF-8 gets every text back. */
  lemma UnquoteQuote(s: string)
    ensures Unquote(Quote(s)) == Some(s)
  {
    UnquoteQuoteBytes(Utf8String(s));
    ReadUtf8String(s);
  }

  // Section 2.3 of RFC 3986.
  predicate InUnreserved(c: char) {
    'A' <= c <= 'Z' || 'a' <= c <= 'z' || '0' <= c <= '9' || c == '-' || c == '.' || c == '_' || c == '~'
  }

  lemma {:induction false} QuoteBytesLength(bytes: seq<byte>)
    ensures |QuoteBytes(bytes)| >= |bytes|
  {
    if bytes != [] {
      QuoteBytesLength(bytes[1..]);
    }
  }

  lemma {:induction false} Utf8StringLength(s: string)
    ensures |Utf8String(s)| >= |s|
  {
    if s != "" {
      Utf8StringLength(s[1..]);
    }
  }

  // The encoding of a text, character by character.
  lemma QuoteCons(c: char, rest: string)
    ensures
      var u := Utf8(c);
      && Utf8String([c] + rest) == u + Utf8String(rest)
      && Quote([c] + rest) == QuoteByte(u[0]) + QuoteBytes(u[1..] + Utf8String(rest))
  {
    assert ([c] + rest)[1..] == rest;
    assert (Utf8(c) + Utf8String(rest))[1..] == Utf8(c)[1..] + Utf8String(rest);
  }

  lemma UnreservedStands(c: char, rest: string)
    requires InUnreserved(c)
    ensures Quote([c] + rest) == [c] + Quote(rest)
  {
    QuoteCons(c, rest);
    assert Utf8(c)[1..] + Utf8String(rest) == Utf8String(rest);
  }

  lemma ReservedGrows(c: char, rest: string)
    requires !InUnreserved(c)
    ensures |Quote([c] + rest)| > |[c] + rest|
  {
    QuoteCons(c, rest);
    var u := Utf8(c);
    assert !Unreserved(u[0]) && |QuoteByte(u[0])| == 3;
    hide Utf8, QuoteByte, QuoteBytes, Utf8String, Quote;
    QuoteBytesLength(u[1..] + Utf8String(rest));
    Utf8StringLength(rest);
  }

  /** A text stands as it is exactly when all its characters are letters, digits or -._~ . */
  lemma {:induction false} UnchangedIff(s: string)
    ensures Quote(s) == s <==> forall i :: 0 <= i < |s| ==> InUnreserved(s[i])
  {
    if s != "" {
      var c, rest := s[0], s[1..];
      UnchangedIff(rest);
      assert s == [c] + rest && forall i :: 0 < i < |s| ==> s[i] == rest[i - 1];
      hide Quote, InUnreserved;
      if InUnreserved(c) {
        UnreservedStands(c, rest);
        assert ([c] + Quote(rest))[1..] == Quote(rest);
        assert forall i :: 0 <= i < |rest| ==> rest[i] == s[i + 1];
      } else {
        ReservedGrows(c, rest);
      }
    }
  }
}
