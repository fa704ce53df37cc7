/** Percent-encoding of text as `quote` and `unquote` do it: over the bytes of its UTF-8
    form (RFC 3629), keeping the unreserved characters of section 2.3 of RFC 3986. */
module PercentEncoding {
  import opened Base

  // ---------------------------------------------------------------------------
  // UTF-8

  function Utf8(c: char): (r: seq<int>)
    ensures forall i | 0 <= i < |r| :: 0 <= r[i] < 256
  {
    var n := c as int;
    if n < 0x80 then [n]
    else if n < 0x800 then [0xC0 + n / 64, 0x80 + n % 64]
    else if n < 0x10000 then [0xE0 + n / 4096, 0x80 + n / 64 % 64, 0x80 + n % 64]
    else [0xF0 + n / 262144, 0x80 + n / 4096 % 64, 0x80 + n / 64 % 64, 0x80 + n % 64]
  }

  function Utf8Text(s: string): seq<int> {
    if s == "" then [] else Utf8(s[0]) + Utf8Text(s[1..])
  }

  predicate Continuation(b: int) {
    0x80 <= b <= 0xBF
  }

  /** The bytes that may follow a lead byte; this rules out overlong forms, surrogates and
      numbers past the last code point. */
  predicate MayFollow(lead: int, second: int) {
    if lead == 0xE0 then 0xA0 <= second <= 0xBF
    else if lead == 0xED then 0x80 <= second <= 0x9F
    else if lead == 0xF0 then 0x90 <= second <= 0xBF
    else if lead == 0xF4 then 0x80 <= second <= 0x8F
    else Continuation(second)
  }

  const REPLACEMENT: char := 0xFFFD as char

  /** The first character of a nonempty byte sequence and the bytes it takes; a malformed
      start yields the replacement character for as many bytes as could have begun a
      character. */
  function DecodeFirst(b: seq<int>): (r: (char, nat))
    requires b != []
    ensures 1 <= r.1 <= |b|
  {
    var lead := b[0];
    if 0 <= lead < 0x80 then (lead as char, 1)
    else if 0xC2 <= lead <= 0xDF then
      if |b| >= 2 && Continuation(b[1]) then (((lead - 0xC0) * 64 + b[1] - 0x80) as char, 2) else (REPLACEMENT, 1)
    else if 0xE0 <= lead <= 0xEF then
      if |b| < 2 || !MayFollow(lead, b[1]) then (REPLACEMENT, 1)
      else if |b| < 3 || !Continuation(b[2]) then (REPLACEMENT, 2)
      else (((lead - 0xE0) * 4096 + (b[1] - 0x80) * 64 + b[2] - 0x80) as char, 3)
    else if 0xF0 <= lead <= 0xF4 then
      if |b| < 2 || !MayFollow(lead, b[1]) then (REPLACEMENT, 1)
      else if |b| < 3 || !Continuation(b[2]) then (REPLACEMENT, 2)
      else if |b| < 4 || !Continuation(b[3]) then (REPLACEMENT, 3)
      else (((lead - 0xF0) * 262144 + (b[1] - 0x80) * 4096 + (b[2] - 0x80) * 64 + b[3] - 0x80) as char, 4)
    else (REPLACEMENT, 1)
  }

  function Decode(b: seq<int>): string
    decreases |b|
  {
    if b == [] then ""
    else
      var first := DecodeFirst(b);
      [first.0] + Decode(b[first.1..])
  }

  lemma DecodeOneByte(n: int, rest: seq<int>)
    requires 0 <= n < 0x80
    ensures DecodeFirst([n] + rest) == (n as char, 1)
  {
  }

  lemma DecodeTwoBytes(n: int, rest: seq<int>)
    requires 0x80 <= n < 0x800
    ensures DecodeFirst([0xC0 + n / 64, 0x80 + n % 64] + rest) == (n as char, 2)
  {
  }

  lemma DecodeThreeBytes(n: int, rest: seq<int>)
    requires 0x800 <= n < 0xD800 || 0xE000 <= n < 0x10000
    ensures DecodeFirst([0xE0 + n / 4096, 0x80 + n / 64 % 64, 0x80 + n % 64] + rest) == (n as char, 3)
  {
    assert n / 4096 == n / 64 / 64;
  }

  lemma DecodeFourBytes(n: int, rest: seq<int>)
    requires 0x10000 <= n < 0x11_0000
    ensures DecodeFirst([0xF0 + n / 262144, 0x80 + n / 4096 % 64, 0x80 + n / 64 % 64, 0x80 + n % 64] + rest)
         == (n as char, 4)
  {
    assert n / 4096 == n / 64 / 64 && n / 262144 == n / 4096 / 64;
  }

  lemma DecodeFirstOfUtf8(c: char, rest: seq<int>)
    ensures DecodeFirst(Utf8(c) + rest) == (c, |Utf8(c)|)
  {
    hide DecodeFirst;
    var n := c as int;
    if n < 0x80 {
      DecodeOneByte(n, rest);
    } else if n < 0x800 {
      DecodeTwoBytes(n, rest);
    } else if n < 0x10000 {
      DecodeThreeBytes(n, rest);
    } else {
      DecodeFourBytes(n, rest);
    }
  }

  lemma {:induction false} DecodeOfUtf8(s: string)
    ensures Decode(Utf8Text(s)) == s
  {
    if s != "" {
      DecodeFirstOfUtf8(s[0], Utf8Text(s[1..]));
      assert (Utf8(s[0]) + Utf8Text(s[1..]))[|Utf8(s[0])|..] == Utf8Text(s[1..]);
      DecodeOfUtf8(s[1..]);
    }
  }

  /** The lead byte of a character's UTF-8 form gives its length, and the others follow it. */
  lemma Utf8Shape(c: char)
    ensures var u := Utf8(c);
            && 1 <= |u| <= 4
            && (|u| == 1 <==> u[0] < 0x80)
            && (|u| == 2 <==> 0xC2 <= u[0] <= 0xDF) && (|u| == 3 <==> 0xE0 <= u[0] <= 0xEF)
            && (|u| == 4 <==> 0xF0 <= u[0] <= 0xF4)
            && (|u| >= 2 ==> MayFollow(u[0], u[1]))
            && forall i | 1 <= i < |u| :: Continuation(u[i])
  {
    var n := c as int;
    assert n / 4096 == n / 64 / 64 && n / 262144 == n / 4096 / 64;
  }

  lemma TwoBytes(l: int, s: int)
    requires 0xC2 <= l <= 0xDF && Continuation(s)
    ensures Utf8(((l - 0xC0) * 64 + s - 0x80) as char) == [l, s]
  {
  }

  lemma ThreeBytes(l: int, s: int, t: int)
    requires 0xE0 <= l <= 0xEF && MayFollow(l, s) && Continuation(t)
    ensures Utf8(((l - 0xE0) * 4096 + (s - 0x80) * 64 + t - 0x80) as char) == [l, s, t]
  {
    var n := (l - 0xE0) * 4096 + (s - 0x80) * 64 + t - 0x80;
    assert n / 64 == (l - 0xE0) * 64 + (s - 0x80) && n % 64 == t - 0x80;
    assert n / 4096 == n / 64 / 64 == l - 0xE0;
  }

  lemma FourBytes(l: int, s: int, t: int, u: int)
    requires 0xF0 <= l <= 0xF4 && MayFollow(l, s) && Continuation(t) && Continuation(u)
    ensures Utf8(((l - 0xF0) * 262144 + (s - 0x80) * 4096 + (t - 0x80) * 64 + u - 0x80) as char) == [l, s, t, u]
  {
    var n := (l - 0xF0) * 262144 + (s - 0x80) * 4096 + (t - 0x80) * 64 + u - 0x80;
    assert n / 64 == (l - 0xF0) * 4096 + (s - 0x80) * 64 + (t - 0x80) && n % 64 == u - 0x80;
    assert n / 4096 == n / 64 / 64 == (l - 0xF0) * 64 + (s - 0x80);
    assert n / 262144 == n / 4096 / 64 == l - 0xF0;
  }

  ghost predicate Begins(b: seq<int>, c: char) {
    b <= Utf8(c)
  }

  /** No character's form goes on with a byte that may not follow. */
  lemma NotBegun(b: seq<int>, k: nat, c: char)
    requires 1 <= k < |b|
    requires var lead := b[0];
             || (lead < 0xC2 || lead > 0xF4)
             || (k == 1 && !MayFollow(lead, b[1])) || (k > 1 && !Continuation(b[k]))
    ensures !Begins(b[..k + 1], c)
  {
    Utf8Shape(c);
    hide Utf8, MayFollow;
    assert b[..k + 1][0] == b[0] && b[..k + 1][1] == b[1] && b[..k + 1][k] == b[k];
  }

  /** Bytes that may follow a lead byte begin a character. */
  lemma Begun(b: seq<int>, k: nat)
    requires 2 <= k <= |b| && 0xE0 <= b[0] <= 0xF4 && MayFollow(b[0], b[1])
    requires k == 2 || (k == 3 && b[0] >= 0xF0 && Continuation(b[2]))
    ensures exists d :: Begins(b[..k], d)
  {
    hide Utf8;
    if b[0] < 0xF0 {
      ThreeBytes(b[0], b[1], 0x80);
      var d := ((b[0] - 0xE0) * 4096 + (b[1] - 0x80) * 64 + 0x80 - 0x80) as char;
      assert Begins(b[..k], d);
    } else {
      var t := if k == 3 then b[2] else 0x80;
      FourBytes(b[0], b[1], t, 0x80);
      var d := ((b[0] - 0xF0) * 262144 + (b[1] - 0x80) * 4096 + (t - 0x80) * 64 + 0x80 - 0x80) as char;
      assert Begins(b[..k], d);
    }
  }

  /** What is decoded first is the character whose UTF-8 form the bytes start with. If they
      start with none it is the replacement character, for the longest start that some
      character shares, or for one byte. */
  lemma DecodeFirstIff(b: seq<int>, c: char)
    requires b != [] && forall i | 0 <= i < |b| :: 0 <= b[i] < 256
    ensures Utf8(c) <= b ==> DecodeFirst(b) == (c, |Utf8(c)|)
    ensures var first := DecodeFirst(b);
            || Utf8(first.0) == b[..first.1]
            || (&& first.0 == REPLACEMENT
                && (first.1 == 1 || exists d :: Begins(b[..first.1], d))
                && (first.1 < |b| ==> !Begins(b[..first.1 + 1], c)))
  {
    if Utf8(c) <= b {
      DecodeFirstOfUtf8(c, b[|Utf8(c)|..]);
      assert b == Utf8(c) + b[|Utf8(c)|..];
    }
    hide Utf8, Begins, MayFollow, Continuation;
    var lead, n := b[0], |b|;
    if 0 <= lead < 0x80 {
      OneByte(lead);
      assert b[..1] == [lead];
    } else if lead < 0xC2 || lead > 0xF4 || n < 2 || !MayFollow(lead, b[1]) {
      if n > 1 && 0xC2 <= lead <= 0xDF {
        FollowsTwo(lead, b[1]);
      }
      if n > 1 {
        NotBegun(b, 1, c);
      }
    } else if lead <= 0xDF {
      FollowsTwo(lead, b[1]);
      TwoBytes(lead, b[1]);
      assert b[..2] == [lead, b[1]];
    } else if n < 3 || !Continuation(b[2]) {
      Begun(b, 2);
      if n > 2 {
        NotBegun(b, 2, c);
      }
    } else if lead <= 0xEF {
      ThreeBytes(lead, b[1], b[2]);
      assert b[..3] == [lead, b[1], b[2]];
    } else if n < 4 || !Continuation(b[3]) {
      Begun(b, 3);
      if n > 3 {
        NotBegun(b, 3, c);
      }
    } else {
      FourBytes(lead, b[1], b[2], b[3]);
      assert b[..4] == [lead, b[1], b[2], b[3]];
    }
  }

  lemma OneByte(lead: int)
    requires 0 <= lead < 0x80
    ensures Utf8(lead as char) == [lead]
  {
  }

  lemma FollowsTwo(lead: int, second: int)
    requires 0xC2 <= lead <= 0xDF
    ensures MayFollow(lead, second) <==> Continuation(second)
  {
  }

  // ---------------------------------------------------------------------------
  // Percent-encoding

  predicate Unreserved(c: char) {
    'a' <= c <= 'z' || 'A' <= c <= 'Z' || '0' <= c <= '9' || c == '-' || c == '.' || c == '_' || c == '~'
  }

  function HexDigit(n: int): char
    requires 0 <= n < 16
  {
    if n < 10 then (n + '0' as int) as char else (n - 10 + 'A' as int) as char
  }

  /** The value of a hexadecimal digit, in either case. */
  function HexValue(c: char): Option<nat> {
    if '0' <= c <= '9' then Some(c as int - '0' as int)
    else if 'A' <= c <= 'F' then Some(c as int - 'A' as int + 10)
    else if 'a' <= c <= 'f' then Some(c as int - 'a' as int + 10)
    else None
  }

  function QuoteByte(b: int): string
    requires 0 <= b < 256
  {
    if Unreserved(b as char) then [b as char] else ['%', HexDigit(b / 16), HexDigit(b % 16)]
  }

  function QuoteBytes(b: seq<int>): string
    requires forall i | 0 <= i < |b| :: 0 <= b[i] < 256
  {
    if b == [] then "" else QuoteByte(b[0]) + QuoteBytes(b[1..])
  }

  lemma {:induction false} Utf8TextIsBytes(s: string)
    ensures forall i | 0 <= i < |Utf8Text(s)| :: 0 <= Utf8Text(s)[i] < 256
  {
    if s != "" {
      Utf8TextIsBytes(s[1..]);
    }
  }

  function Quote(s: string): string {
    Utf8TextIsBytes(s);
    QuoteBytes(Utf8Text(s))
  }

  /** The bytes an ASCII text stands for; a percent sign without two digits is itself. */
  function UnquoteBytes(s: string): seq<int> {
    if s == "" then []
    else if |s| >= 3 && s[0] == '%' && HexValue(s[1]).Some? && HexValue(s[2]).Some? then
      [16 * HexValue(s[1]).value + HexValue(s[2]).value] + UnquoteBytes(s[3..])
    else [s[0] as int] + UnquoteBytes(s[1..])
  }

  predicate IsAscii(c: char) {
    c as int < 0x80
  }

  /** The length of the longest prefix without a non-ASCII character. */
  function AsciiRun(s: string): (n: nat)
    ensures n <= |s| && (s != "" && IsAscii(s[0]) ==> n > 0)
  {
    if s != "" && IsAscii(s[0]) then 1 + AsciiRun(s[1..]) else 0
  }

  function Unquote(s: string): string
    decreases |s|
  {
    if s == "" then ""
    else if !IsAscii(s[0]) then [s[0]] + Unquote(s[1..])
    else
      var n := AsciiRun(s);
      Decode(UnquoteBytes(s[..n])) + Unquote(s[n..])
  }

  /** The characters quoted text is made of. */
  predicate QuotedChar(c: char) {
    Unreserved(c) || c == '%'
  }

  lemma {:induction false} QuotedChars(b: seq<int>)
    requires forall i | 0 <= i < |b| :: 0 <= b[i] < 256
    ensures forall i | 0 <= i < |QuoteBytes(b)| :: QuotedChar(QuoteBytes(b)[i])
    ensures b != [] ==> QuoteBytes(b) != ""
  {
    if b != [] {
      QuotedChars(b[1..]);
    }
  }

  lemma {:induction false} UnquoteOneByte(b: int, rest: string)
    requires 0 <= b < 256
    ensures UnquoteBytes(QuoteByte(b) + rest) == [b] + UnquoteBytes(rest)
  {
    var s := QuoteByte(b) + rest;
    if Unreserved(b as char) {
      assert s[0] != '%' && s[1..] == rest;
    } else {
      assert s[0] == '%' && s[1] == HexDigit(b / 16) && s[2] == HexDigit(b % 16) && s[3..] == rest;
      assert HexValue(s[1]) == Some(b / 16) && HexValue(s[2]) == Some(b % 16);
    }
  }

  lemma {:induction false} UnquoteOfQuoteBytes(b: seq<int>)
    requires forall i | 0 <= i < |b| :: 0 <= b[i] < 256
    ensures UnquoteBytes(QuoteBytes(b)) == b
  {
    if b != [] {
      UnquoteOneByte(b[0], QuoteBytes(b[1..]));
      UnquoteOfQuoteBytes(b[1..]);
    }
  }

  lemma {:induction false} AsciiRunOfQuoted(s: string)
    requires forall i | 0 <= i < |s| :: QuotedChar(s[i])
    ensures AsciiRun(s) == |s|
  {
    if s != "" {
      assert QuotedChar(s[0]);
      AsciiRunOfQuoted(s[1..]);
    }
  }

  /** Unquoting undoes quoting, for every text. */
  lemma UnquoteOfQuote(s: string)
    ensures Unquote(Quote(s)) == s
    ensures forall i | 0 <= i < |Quote(s)| :: QuotedChar(Quote(s)[i])
    ensures s != "" ==> Quote(s) != ""
  {
    hide Utf8, QuoteByte, DecodeFirst;
    Utf8TextIsBytes(s);
    QuotedChars(Utf8Text(s));
    UnquoteOfQuoteBytes(Utf8Text(s));
    AsciiRunOfQuoted(Quote(s));
    DecodeOfUtf8(s);
    var q := Quote(s);
    assert q[..|q|] == q && q[|q|..] == "";
    if s != "" {
      Utf8NotEmpty(s);
      assert QuotedChar(q[0]);
    }
  }

  lemma {:induction false} Utf8NotEmpty(s: string)
    requires s != ""
    ensures Utf8Text(s) != []
  {
    assert Utf8(s[0]) != [];
  }
}
