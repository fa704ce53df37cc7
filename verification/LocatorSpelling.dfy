/** How locators, URNs and subjects are spelled, character by character, and how spellings
    that are none are refused. */
module LocatorSpelling {
  import opened Base
  import opened PercentEncoding
  import opened ResourceLocator
  import opened LocatorPairs
  import opened LocatorSubjects

  // ---------------------------------------------------------------------------
  // Quoting

  const UPPER := "ABCDEFGHIJKLMNOPQRSTUVWXYZ"
  const LOWER := "abcdefghijklmnopqrstuvwxyz"
  const DIGITS := "0123456789"
  const UPPER_HEX := "0123456789ABCDEF"
  const LOWER_HEX := "0123456789abcdef"

  lemma UnreservedListed(c: char)
    ensures Unreserved(c) <==> c in UPPER || c in LOWER || c in DIGITS || c in "-._~"
  {
    LetterOrDigit(c);
  }

  lemma InRow(s: string, first: char, last: char, c: char)
    requires last as int == first as int + |s| - 1 && s != ""
    requires forall k | 0 <= k < |s| :: s[k] as int == first as int + k
    ensures c in s <==> first <= c <= last
  {
    if first <= c <= last {
      assert s[c as int - first as int] == c;
    }
  }

  lemma UpperInRow()
    ensures |UPPER| == 26 && forall k | 0 <= k < 26 :: UPPER[k] as int == 65 + k
  {
  }

  lemma LowerInRow()
    ensures |LOWER| == 26 && forall k | 0 <= k < 26 :: LOWER[k] as int == 97 + k
  {
  }

  lemma DigitsInRow()
    ensures |DIGITS| == 10 && forall k | 0 <= k < 10 :: DIGITS[k] as int == 48 + k
  {
  }

  lemma LetterOrDigit(c: char)
    ensures 'A' <= c <= 'Z' <==> c in UPPER
    ensures 'a' <= c <= 'z' <==> c in LOWER
    ensures '0' <= c <= '9' <==> c in DIGITS
  {
    UpperInRow();
    LowerInRow();
    DigitsInRow();
    InRow(UPPER, 'A', 'Z', c);
    InRow(LOWER, 'a', 'z', c);
    InRow(DIGITS, '0', '9', c);
  }

  lemma {:induction false} QuoteBytesConcat(a: seq<int>, b: seq<int>)
    requires forall i | 0 <= i < |a| :: 0 <= a[i] < 256
    requires forall i | 0 <= i < |b| :: 0 <= b[i] < 256
    ensures QuoteBytes(a + b) == QuoteBytes(a) + QuoteBytes(b)
  {
    if a == [] {
      assert a + b == b;
    } else {
      assert (a + b)[1..] == a[1..] + b;
      QuoteBytesConcat(a[1..], b);
    }
  }

  /** Text is quoted character by character. */
  lemma QuoteOneMore(c: char, s: string)
    ensures Quote([c] + s) == Quote([c]) + Quote(s)
  {
    hide Utf8, QuoteByte;
    Utf8TextIsBytes([c]);
    Utf8TextIsBytes(s);
    Utf8TextIsBytes([c] + s);
    assert ([c] + s)[1..] == s && [c][1..] == "";
    assert Utf8Text([c]) == Utf8(c) + [] == Utf8(c);
    QuoteBytesConcat(Utf8(c), Utf8Text(s));
  }

  /** An unreserved character stands for itself; another ASCII character is a percent sign and
      two upper-case hexadecimal digits. */
  lemma QuoteOneChar(c: char)
    requires c as int < 128
    ensures Quote([c]) ==
            if c in UPPER || c in LOWER || c in DIGITS || c in "-._~" then [c]
            else ['%', UPPER_HEX[c as int / 16], UPPER_HEX[c as int % 16]]
  {
    UnreservedListed(c);
    Utf8TextIsBytes([c]);
    assert [c][1..] == "";
    assert Utf8Text([c]) == [c as int];
    var b := c as int;
    assert QuoteBytes([b]) == QuoteByte(b) + QuoteBytes([b][1..]) == QuoteByte(b);
    HexDigitIs(b / 16);
    HexDigitIs(b % 16);
  }

  lemma HexDigitIs(n: int)
    requires 0 <= n < 16
    ensures HexDigit(n) == UPPER_HEX[n]
  {
  }

  /** So unreserved text is left alone. */
  lemma {:induction false} QuoteKeepsUnreserved(s: string)
    requires forall i | 0 <= i < |s| :: s[i] in UPPER || s[i] in LOWER || s[i] in DIGITS || s[i] in "-._~"
    ensures Quote(s) == s
  {
    hide Quote;
    if s == "" {
      QuoteNothing();
    } else {
      UnreservedListed(s[0]);
      QuoteOneChar(s[0]);
      QuoteOneMore(s[0], s[1..]);
      QuoteKeepsUnreserved(s[1..]);
      assert s == [s[0]] + s[1..];
    }
  }

  lemma QuoteNothing()
    ensures Quote("") == ""
  {
  }

  /** Text without a percent sign is unquoted to itself. */
  lemma {:induction false} UnquoteKeeps(s: string)
    requires '%' !in s
    ensures Unquote(s) == s
    decreases |s|
  {
    if s != "" && IsAscii(s[0]) {
      var n := AsciiRun(s);
      AsciiRunIsAscii(s);
      AsciiKept(s[..n]);
      UnquoteKeeps(s[n..]);
      assert s == s[..n] + s[n..];
    } else if s != "" {
      UnquoteKeeps(s[1..]);
    }
  }

  lemma {:induction false} AsciiRunIsAscii(s: string)
    ensures forall i | 0 <= i < AsciiRun(s) :: IsAscii(s[i])
  {
    if s != "" && IsAscii(s[0]) {
      AsciiRunIsAscii(s[1..]);
    }
  }

  lemma {:induction false} AsciiKept(s: string)
    requires '%' !in s && forall i | 0 <= i < |s| :: IsAscii(s[i])
    ensures Decode(UnquoteBytes(s)) == s
  {
    if s != "" {
      assert s[0] in s;
      AsciiKept(s[1..]);
      var bytes := UnquoteBytes(s);
      assert bytes == [s[0] as int] + UnquoteBytes(s[1..]);
      assert DecodeFirst(bytes) == (s[0], 1);
      assert bytes[1..] == UnquoteBytes(s[1..]);
    }
  }

  /** An escape of an ASCII character is read in either case. */
  lemma UnquoteEscape(hi: nat, lo: nat)
    requires hi < 8 && lo < 16
    ensures Unquote(['%', UPPER_HEX[hi], UPPER_HEX[lo]]) == [(16 * hi + lo) as char]
    ensures Unquote(['%', LOWER_HEX[hi], LOWER_HEX[lo]]) == [(16 * hi + lo) as char]
  {
    HexValueIs(hi);
    HexValueIs(lo);
    EscapeIs(UPPER_HEX[hi], UPPER_HEX[lo], hi, lo);
    EscapeIs(LOWER_HEX[hi], LOWER_HEX[lo], hi, lo);
  }

  lemma HexValueIs(n: nat)
    requires n < 16
    ensures HexValue(UPPER_HEX[n]) == HexValue(LOWER_HEX[n]) == Some(n)
    ensures IsAscii(UPPER_HEX[n]) && IsAscii(LOWER_HEX[n])
  {
  }

  lemma EscapeIs(h: char, l: char, hi: nat, lo: nat)
    requires HexValue(h) == Some(hi) && HexValue(l) == Some(lo) && hi < 8 && lo < 16 && IsAscii(h) && IsAscii(l)
    ensures Unquote(['%', h, l]) == [(16 * hi + lo) as char]
  {
    hide HexValue;
    var s := ['%', h, l];
    assert s[1..][1..][1..] == "" && s[1..][1..] == [l];
    assert AsciiRun(s) == 3;
    assert s[..3] == s && s[3..] == "";
    assert UnquoteBytes(s) == [16 * hi + lo] + UnquoteBytes("") == [16 * hi + lo];
    assert DecodeFirst([16 * hi + lo]) == ((16 * hi + lo) as char, 1);
    assert [16 * hi + lo][1..] == [];
    assert Decode([16 * hi + lo]) == [(16 * hi + lo) as char] + Decode([]) == [(16 * hi + lo) as char];
    assert Unquote("") == "";
  }

  // ---------------------------------------------------------------------------
  // Reading locators

  /** A blank text names nothing; spaces around a locator do not matter. */
  lemma ParsePadded(value: string, text: string)
    requires Padded(value, text) && Trimmed(text)
    ensures Parse(value) == Parse(text) && (Parse(value) == Err(Empty) <==> text == "")
  {
    hide FromSegments, SplitUrl, RawSegments, UnquoteAll;
    StripIff(value, text);
    StripTrims(text);
    var s := DropBreaks(DropControls(text));
    if |s| >= 6 {
      NeverEmpty(UnquoteAll(RawSegments(SplitUrl(s[6..]))));
    }
  }

  /** Which error a list of segments gives: none at all, or the first that is blank or holds a
      slash. */
  lemma {:induction false} SegmentErrors(segments: seq<string>)
    ensures FromSegments([]) == Err(NoSegments)
    ensures segments != [] && Blank(segments[0]) ==> FromSegments(segments) == Err(EmptySegment)
    ensures segments != [] && !Blank(segments[0]) && '/' in Strip(segments[0]) ==>
              FromSegments(segments) == Err(SlashInSegment)
    ensures segments != [] && Normal(Strip(segments[0])) && FromSegments(segments).Err? && |segments| > 1 ==>
              FromSegments(segments) == FromSegments(segments[1..])
  {
    if segments != [] {
      StripTrims(segments[0]);
      StripIff(segments[0], "");
      BlankIff(segments[0]);
      NormalizeSegmentIff(segments[0]);
      NormalizeAllIff(segments[1..]);
    }
  }

  lemma BlankIff(s: string)
    ensures Blank(s) <==> Padded(s, "")
  {
    if Blank(s) {
      assert Blank("") && s == s + "" + "";
    }
  }

  lemma NeverEmpty(segments: seq<string>)
    ensures FromSegments(segments) != Err(Empty)
  {
    NormalizeErrors(segments);
  }

  lemma {:induction false} NormalizeErrors(segments: seq<string>)
    ensures NormalizeAll(segments) != Err(Empty)
  {
    if segments != [] {
      NormalizeErrors(segments[1..]);
    }
  }

  lemma {:induction false} NonEmptyConcat(a: seq<string>, b: seq<string>)
    ensures NonEmpty(a + b) == NonEmpty(a) + NonEmpty(b)
  {
    if a == [] {
      assert a + b == b;
    } else {
      assert (a + b)[0] == a[0] && (a + b)[1..] == a[1..] + b;
      NonEmptyConcat(a[1..], b);
      Regroup([a[0]], NonEmpty(a[1..]), NonEmpty(b));
    }
  }

  lemma {:induction false} NonEmptyOne(s: string)
    ensures NonEmpty([s]) == if s == "" then [] else [s]
  {
    assert [s][1..] == [];
  }

  /** No character is a space or a control character. */
  predicate NoGaps(s: string) {
    forall i | 0 <= i < |s| :: s[i] as int > 32 && !IsSpace(s[i])
  }

  lemma {:induction false} NoBreaksKeeps(s: string)
    requires NoGaps(s)
    ensures DropBreaks(s) == s
  {
    if s != "" {
      NoBreaksKeeps(s[1..]);
    }
  }

  lemma PrintedHasNoGaps(s: string)
    requires Printed(s)
    ensures NoGaps(s)
  {
  }

  /** Such a text is parsed as it is. */
  lemma ParseIs(s: string, url: Url)
    requires NoGaps(s) && HasScheme(s) && SplitUrl(s[6..]) == url && '[' !in url.netloc && ']' !in url.netloc
    ensures Parse(s) == if url.query != "" || url.fragment != "" then Err(HasExtras)
                        else FromSegments(UnquoteAll(RawSegments(url)))
  {
    hide SplitUrl, FromSegments, RawSegments, UnquoteAll, Strip, HasScheme;
    assert s != "" by {
      SchemeIff(s);
    }
    assert Trimmed(s);
    StripTrims(s);
    NoBreaksKeeps(s);
  }

  lemma PrefixIsScheme(s: string, body: string)
    requires s == PREFIX + body
    ensures HasScheme(s) && |s| >= 8 && s[6] == '/' && s[7] == '/' && s[6..][2..] == body
    ensures NoGaps(body) ==> NoGaps(s)
  {
    SchemeIff(s);
    assert s[..6] == "noetl:";
    assert NoGaps(PREFIX);
    assert NoGaps(body) ==> forall i | |PREFIX| <= i < |s| :: s[i] == body[i - |PREFIX|];
  }

  /** The text of a locator is its parts between slashes: empty parts are dropped, the others
      unquoted and taken as segments. */
  lemma {:induction false} ParseJoined(parts: seq<string>)
    requires parts != [] && forall k | 0 <= k < |parts| :: Plain(parts[k])
    ensures Parse(PREFIX + Join('/', parts)) == FromSegments(UnquoteAll(NonEmpty(parts)))
  {
    hide Parse, SplitUrl, SplitTail, FromSegments, Join, Plain, Printed, PathOf, UnquoteAll, NonEmpty;
    hide Until, HasScheme, NoGaps, Split;
    var body := Join('/', parts);
    var s := PREFIX + body;
    JoinIsPrinted(parts);
    PrintedHasNoGaps(body);
    PrefixIsScheme(s, body);
    SplitJoined(parts, s[6..]);
    NoBrackets(parts[0]);
    ParseIs(s, Url(parts[0], PathOf(parts[1..]), "", ""));
    PathParts(parts[1..]);
    NonEmptyConcat([parts[0]], parts[1..]);
    NonEmptyOne(parts[0]);
    assert [parts[0]] + parts[1..] == parts;
  }

  lemma {:induction false} SplitJoined(parts: seq<string>, rest: string)
    requires parts != [] && forall k | 0 <= k < |parts| :: Plain(parts[k])
    requires |rest| >= 2 && rest[0] == '/' && rest[1] == '/' && rest[2..] == Join('/', parts)
    ensures SplitUrl(rest) == Url(parts[0], PathOf(parts[1..]), "", "")
  {
    hide QuotedChar, Plain, Printed, SplitTail, SplitUrl, Until, Join, PathOf;
    var tail := PathOf(parts[1..]);
    JoinIsHeadAndPath(parts);
    PlainHasNoStops(parts);
    UntilStops({'/', '?', '#'}, parts[0], tail);
    PathPrinted(parts[1..]);
    SplitTailOfPrinted(parts[0], tail);
    SplitUrlAt(rest, parts[0], tail);
  }

  lemma {:induction false} JoinIsPrinted(parts: seq<string>)
    requires forall k | 0 <= k < |parts| :: Plain(parts[k])
    ensures Printed(Join('/', parts))
  {
    JoinPrinted(parts);
  }

  lemma {:induction false} PathParts(parts: seq<string>)
    requires forall k | 0 <= k < |parts| :: Plain(parts[k])
    ensures NonEmpty(Split('/', PathOf(parts))) == NonEmpty(parts)
  {
    hide Join, Plain;
    if parts == [] {
      assert Split('/', "") == [""];
      assert NonEmpty([""]) == NonEmpty([""][1..]) == [];
    } else {
      var path := PathOf(parts);
      PlainHasNoStops(parts);
      SplitOfJoin('/', parts);
      assert Until({'/'}, path) == 0 && path[..0] == "" && path[1..] == Join('/', parts);
      assert Split('/', path) == [""] + parts;
      assert ([""] + parts)[1..] == parts;
    }
  }

  /** A query or a fragment is refused, whatever locator it follows; an empty one changes
      nothing. */
  lemma {:induction false} ExtrasAreRefused(parts: seq<string>, mark: char, extra: string)
    requires parts != [] && forall k | 0 <= k < |parts| :: Plain(parts[k])
    requires (mark == '?' || mark == '#') && Plain(extra)
    ensures Parse(PREFIX + (Join('/', parts) + ([mark] + extra))) ==
            if extra == "" then Parse(PREFIX + Join('/', parts)) else Err(HasExtras)
  {
    hide *;
    var body := Join('/', parts) + ([mark] + extra);
    var s := PREFIX + body;
    JoinIsPrinted(parts);
    MarkedHasNoGaps(Join('/', parts), mark, extra);
    PrefixIsScheme(s, body);
    JoinIsHeadAndPath(parts);
    PlainHasNoStops(parts);
    PathPrinted(parts[1..]);
    NoBrackets(parts[0]);
    var path := PathOf(parts[1..]);
    var tail := path + ([mark] + extra);
    assert s[6..][2..] == parts[0] + tail;
    PathStarts(parts[1..]);
    assert tail[0] in {'/', '?', '#'};
    UntilStops({'/', '?', '#'}, parts[0], tail);
    SplitUrlAt(s[6..], parts[0], tail);
    TailHasExtras(parts[0], path, mark, extra);
    ParseIs(s, SplitTail(parts[0], tail));
    if extra == "" {
      ParseJoined(parts);
      SegmentsOfParts(parts, Url(parts[0], path, "", ""));
    }
  }

  lemma PathStarts(parts: seq<string>)
    ensures PathOf(parts) != "" ==> PathOf(parts)[0] == '/'
  {
  }

  lemma SegmentsOfParts(parts: seq<string>, url: Url)
    requires parts != [] && forall k | 0 <= k < |parts| :: Plain(parts[k])
    requires url.netloc == parts[0] && url.path == PathOf(parts[1..])
    ensures RawSegments(url) == NonEmpty(parts)
  {
    hide PathOf, NonEmpty, Split, Plain;
    PathParts(parts[1..]);
    NonEmptyConcat([parts[0]], parts[1..]);
    NonEmptyOne(parts[0]);
    assert [parts[0]] + parts[1..] == parts;
  }

  lemma MarkedHasNoGaps(text: string, mark: char, extra: string)
    requires Printed(text) && (mark == '?' || mark == '#') && Plain(extra)
    ensures NoGaps(text + ([mark] + extra))
  {
    PrintedHasNoGaps(text);
    assert NoGaps(extra);
    assert NoGaps([mark]);
  }

  lemma TailHasExtras(netloc: string, path: string, mark: char, extra: string)
    requires (mark == '?' || mark == '#') && Plain(extra) && Printed(path)
    ensures SplitTail(netloc, path + ([mark] + extra)) ==
            if mark == '#' then Url(netloc, path, "", extra) else Url(netloc, path, extra, "")
  {
    var tail := path + ([mark] + extra);
    if mark == '#' {
      UntilStops({'#'}, path, [mark] + extra);
      UntilStops({'?'}, path, "");
      assert path + "" == path;
      assert tail[..|path|] == path && tail[|path| + 1..] == extra;
    } else {
      assert forall i | 0 <= i < |tail| :: tail[i] != '#';
      UntilStops({'#'}, tail, "");
      assert tail + "" == tail && tail[..|tail|] == tail;
      UntilStops({'?'}, path, [mark] + extra);
      assert tail[..|path|] == path && tail[|path| + 1..] == extra;
    }
  }

  /** A bracket without its counterpart in the network location is refused. */
  lemma LoneBracketIsRefused(netloc: string, tail: string)
    requires forall i | 0 <= i < |netloc| :: netloc[i] !in {'/', '?', '#'}
    requires tail != "" ==> tail[0] in {'/', '?', '#'}
    requires NoGaps(netloc + tail)
    ensures Parse(PREFIX + (netloc + tail)) == Err(Malformed) <==> (('[' in netloc) != (']' in netloc))
  {
    hide SplitUrl, FromSegments, RawSegments, UnquoteAll, Strip, HasScheme, Until, SplitTail;
    var s := PREFIX + (netloc + tail);
    PrefixIsScheme(s, netloc + tail);
    assert NoGaps(s) && s != "";
    assert Trimmed(s);
    StripTrims(s);
    NoBreaksKeeps(s);
    UntilStops({'/', '?', '#'}, netloc, tail);
    SplitUrlAt(s[6..], netloc, tail);
    NetlocKept(netloc, tail);
    NeverMalformed(UnquoteAll(RawSegments(SplitTail(netloc, tail))));
  }

  lemma NetlocKept(netloc: string, tail: string)
    ensures SplitTail(netloc, tail).netloc == netloc
  {
  }

  lemma NeverMalformed(segments: seq<string>)
    ensures FromSegments(segments) != Err(Malformed)
  {
    NormalizeNotMalformed(segments);
  }

  lemma {:induction false} NormalizeNotMalformed(segments: seq<string>)
    ensures NormalizeAll(segments) != Err(Malformed)
  {
    if segments != [] {
      NormalizeNotMalformed(segments[1..]);
    }
  }

  /** The two slashes of a network location may be missing: the parts are the same. */
  lemma RootlessIsTheSame(parts: seq<string>)
    requires parts != [] && forall k | 0 <= k < |parts| :: Plain(parts[k])
    requires |parts| >= 2 ==> parts[0] != "" || parts[1] != ""
    ensures Parse("noetl:" + Join('/', parts)) == FromSegments(UnquoteAll(NonEmpty(parts)))
  {
    hide Parse, SplitUrl, SplitTail, FromSegments, Join, Plain, Printed, UnquoteAll, NonEmpty;
    hide Until, HasScheme, NoGaps, Split;
    var rest := Join('/', parts);
    var s := "noetl:" + rest;
    JoinIsPrinted(parts);
    SplitTailOfPrinted("", rest);
    NotRooted(parts);
    assert s[6..] == rest;
    PrintedAfterScheme(s, rest);
    assert SplitUrl(s[6..]) == Url("", rest, "", "") by {
      RootlessSplit(rest);
    }
    ParseIs(s, Url("", rest, "", ""));
    PlainHasNoStops(parts);
    SplitOfJoin('/', parts);
    assert [] + NonEmpty(parts) == NonEmpty(parts);
  }

  lemma RootlessSplit(rest: string)
    requires !(|rest| >= 2 && rest[0] == '/' && rest[1] == '/')
    ensures SplitUrl(rest) == SplitTail("", rest)
  {
  }

  lemma PrintedAfterScheme(s: string, rest: string)
    requires s == "noetl:" + rest && Printed(rest)
    ensures NoGaps(s) && HasScheme(s)
  {
    PrintedHasNoGaps(rest);
    assert s[..6] == "noetl:";
    SchemeIff(s);
  }

  lemma NotRooted(parts: seq<string>)
    requires parts != [] && forall k | 0 <= k < |parts| :: Plain(parts[k])
    requires |parts| >= 2 ==> parts[0] != "" || parts[1] != ""
    ensures var rest := Join('/', parts); !(|rest| >= 2 && rest[0] == '/' && rest[1] == '/')
  {
  }

  /** Tabs and line breaks inside a locator are dropped. */
  lemma BreaksAreDropped(a: string, c: char, b: string)
    requires a != "" && a[0] as int > 32 && b != "" && Trimmed(a + b)
    requires c == '\t' || c == '\n' || c == '\r'
    ensures Parse(a + ([c] + b)) == Parse(a + b)
  {
    hide SplitUrl, FromSegments, RawSegments, UnquoteAll, Strip, HasScheme;
    assert Trimmed(a + ([c] + b));
    StripTrims(a + b);
    StripTrims(a + ([c] + b));
    BreakDropped(a, c, b);
  }

  lemma {:induction false} BreakDropped(a: string, c: char, b: string)
    requires c == '\t' || c == '\n' || c == '\r'
    ensures DropBreaks(a + ([c] + b)) == DropBreaks(a + b)
  {
    if a == "" {
      assert ([c] + b)[1..] == b && a + b == b && a + ([c] + b) == [c] + b;
    } else {
      assert (a + b)[1..] == a[1..] + b && (a + ([c] + b))[1..] == a[1..] + ([c] + b);
      BreakDropped(a[1..], c, b);
    }
  }

  /** So are spaces and control characters in front of it. */
  lemma {:induction false} ControlsAreDropped(lead: string, s: string)
    requires s != "" && Trimmed(s) && s[0] as int > 32
    requires forall i | 0 <= i < |lead| :: lead[i] as int <= 32
    ensures Parse(lead + s) == Parse(s)
  {
    hide SplitUrl, FromSegments, RawSegments, UnquoteAll, HasScheme, DropBreaks;
    if lead == "" {
      assert lead + s == s;
    } else if IsSpace(lead[0]) {
      assert (lead + s)[1..] == lead[1..] + s;
      ControlsAreDropped(lead[1..], s);
    } else {
      StripTrims(s);
      assert Trimmed(lead + s);
      StripTrims(lead + s);
      LeadDropped(lead, s);
    }
  }

  lemma {:induction false} LeadDropped(lead: string, s: string)
    requires s != "" && s[0] as int > 32 && forall i | 0 <= i < |lead| :: lead[i] as int <= 32
    ensures DropControls(lead + s) == DropControls(s) == s
  {
    if lead == "" {
      assert lead + s == s;
    } else {
      assert (lead + s)[1..] == lead[1..] + s;
      LeadDropped(lead[1..], s);
    }
  }

  /** The scheme is read in any case, and nothing else will do. */
  lemma SchemeIff(s: string)
    ensures HasScheme(s) <==> |s| >= 6 && CasingOf(s[..6], "noetl:")
  {
    if |s| >= 6 {
      LowerIff(s[..6], "noetl:");
    }
  }

  lemma OtherSchemeIsRefused(s: string)
    requires Printed(s) && s != ""
    ensures Parse(s) == Err(WrongScheme) <==> !(|s| >= 6 && CasingOf(s[..6], "noetl:"))
  {
    hide Strip, FromSegments, SplitUrl, RawSegments, UnquoteAll;
    assert QuotedChar(s[0]) || s[0] == '/' || s[0] == ':';
    assert QuotedChar(s[|s| - 1]) || s[|s| - 1] == '/' || s[|s| - 1] == ':';
    assert Trimmed(s);
    StripTrims(s);
    DropBreaksKeeps(s);
    SchemeIff(s);
    if |s| >= 6 {
      NeverWrongScheme(UnquoteAll(RawSegments(SplitUrl(s[6..]))));
    }
  }

  lemma NeverWrongScheme(segments: seq<string>)
    ensures FromSegments(segments) != Err(WrongScheme)
  {
    NormalizeNotScheme(segments);
  }

  lemma {:induction false} NormalizeNotScheme(segments: seq<string>)
    ensures NormalizeAll(segments) != Err(WrongScheme)
  {
    if segments != [] {
      NormalizeNotScheme(segments[1..]);
    }
  }

  // ---------------------------------------------------------------------------
  // Pairs and URNs

  /** Of a key's values the last is read; an odd number of segments is refused. */
  lemma {:induction false} LastValueWins(segments: seq<string>, n: nat, i: nat)
    requires 2 * n <= |segments| && i < n
    requires forall j | i < j < n :: segments[2 * j] != segments[2 * i]
    ensures segments[2 * i] in PairMap(segments, n) && PairMap(segments, n)[segments[2 * i]] == segments[2 * i + 1]
  {
    if i < n - 1 {
      assert segments[2 * (n - 1)] != segments[2 * i];
      LastValueWins(segments, n - 1, i);
    }
  }

  lemma {:induction false} OddIsRefused(segments: seq<string>)
    ensures Pairs(segments) == Err(OddLength) <==> |segments| % 2 == 1
    ensures |segments| % 2 == 0 ==> Pairs(segments) == Ok(PairMap(segments, |segments| / 2))
  {
  }

  function Field(key: string, value: string): seq<string> {
    if value == "" then [] else [key, value]
  }

  /** A URN spells out the fields that are set in a fixed order, each after its key. */
  lemma UrnSpelledOut(tenant: string, org: string, l: Locality, r: Resource)
    requires forall key | key in SetKeys(tenant, org, l, r) :: Normal(FieldOf(tenant, org, l, r, key))
    requires SetKeys(tenant, org, l, r) != {}
    ensures BuildUrn(tenant, org, l, r) ==
            Ok(Print(Field("tenant", tenant) + Field("org", org)
                     + Field("region", OrEmpty(l.region)) + Field("zone", OrEmpty(l.zone))
                     + Field("cluster", OrEmpty(l.cluster))
                     + match r
                       case Dataset(id) => Field("dataset", id)
                       case Stream(id) => Field("stream", id)
                       case Partition(streamId, index) => Field("stream", streamId) + Field("partition", index)))
  {
    hide Strip, Normal, Print, FromSegments, Flatten, Given;
    var segments := Flatten(Given(UrnPairs(tenant, org, l, r)));
    FlattenUrn(tenant, org, l, r);
    FromSegmentsIff(segments);
    NormalFields(tenant, org, l, r);
    BuilderRoundTrip(tenant, org, l, r);
    StripAllKeepsNormal(segments);
  }

  lemma {:induction false} GivenOneMore(pairs: seq<Pair>, p: Pair)
    ensures Flatten(Given(pairs + [p])) == Flatten(Given(pairs)) + Field(p.0, OrEmpty(p.1))
  {
    hide Flatten;
    assert (pairs + [p])[..|pairs|] == pairs;
    if p.1.Some? && p.1.value != "" {
      FlattenOneMore(Given(pairs), (p.0, p.1.value));
    } else {
      assert Given(pairs + [p]) == Given(pairs);
      assert Flatten(Given(pairs)) + [] == Flatten(Given(pairs));
    }
  }

  lemma {:induction false} GivenConcat(a: seq<Pair>, b: seq<Pair>)
    ensures Flatten(Given(a + b)) == Flatten(Given(a)) + Flatten(Given(b))
    decreases |b|
  {
    if b == [] {
      assert a + b == a;
    } else {
      hide *;
      var front, last := b[..|b| - 1], b[|b| - 1];
      GivenConcat(a, front);
      ConcatLast(a, b);
      GivenGoesOn(a, front, last);
    }
  }

  lemma GivenGoesOn(a: seq<Pair>, front: seq<Pair>, last: Pair)
    requires Flatten(Given(a + front)) == Flatten(Given(a)) + Flatten(Given(front))
    ensures Flatten(Given((a + front) + [last])) == Flatten(Given(a)) + Flatten(Given(front + [last]))
  {
    hide *;
    GivenOneMore(a + front, last);
    GivenOneMore(front, last);
    Regroup(Flatten(Given(a)), Flatten(Given(front)), Field(last.0, OrEmpty(last.1)));
  }

  lemma ConcatLast<T>(a: seq<T>, b: seq<T>)
    requires b != []
    ensures b == b[..|b| - 1] + [b[|b| - 1]] && a + b == (a + b[..|b| - 1]) + [b[|b| - 1]]
  {
  }

  lemma Regroup<T>(a: seq<T>, b: seq<T>, c: seq<T>)
    ensures (a + b) + c == a + (b + c)
  {
  }

  lemma FlattenField(key: string, value: Option<string>)
    ensures Flatten(Given([(key, value)])) == Field(key, OrEmpty(value))
    ensures Flatten(Given(LocalityPair(key, value))) == Field(key, OrEmpty(value))
  {
    assert [(key, value)][..0] == [];
    assert Given([]) == [];
    if value.Some? && value.value != "" {
      FlattenOneMore([], (key, value.value));
      assert [] + [(key, value.value)] == [(key, value.value)];
    }
  }

  lemma FlattenUrn(tenant: string, org: string, l: Locality, r: Resource)
    ensures Flatten(Given(UrnPairs(tenant, org, l, r))) ==
            Field("tenant", tenant) + Field("org", org)
            + Field("region", OrEmpty(l.region)) + Field("zone", OrEmpty(l.zone)) + Field("cluster", OrEmpty(l.cluster))
            + match r
              case Dataset(id) => Field("dataset", id)
              case Stream(id) => Field("stream", id)
              case Partition(streamId, index) => Field("stream", streamId) + Field("partition", index)
  {
    hide Flatten, Given, Field, LocalityPair;
    var t: seq<Pair>, o: seq<Pair> := [("tenant", Some(tenant))], [("org", Some(org))];
    var re, zo := LocalityPair("region", l.region), LocalityPair("zone", l.zone);
    var cl := LocalityPair("cluster", l.cluster);
    FlattenField("tenant", Some(tenant));
    FlattenField("org", Some(org));
    FlattenField("region", l.region);
    FlattenField("zone", l.zone);
    FlattenField("cluster", l.cluster);
    FlattenResource(r);
    assert [("tenant", Some(tenant)), ("org", Some(org))] == t + o;
    GivenConcat(t, o);
    GivenConcat(re, zo);
    GivenConcat(re + zo, cl);
    GivenConcat(t + o, re + zo + cl);
    GivenConcat(t + o + (re + zo + cl), ResourcePairs(r));
  }

  lemma FlattenResource(r: Resource)
    ensures Flatten(Given(ResourcePairs(r))) ==
            match r
            case Dataset(id) => Field("dataset", id)
            case Stream(id) => Field("stream", id)
            case Partition(streamId, index) => Field("stream", streamId) + Field("partition", index)
  {
    hide Flatten, Given, Field;
    match r
    case Dataset(id) => FlattenField("dataset", Some(id));
    case Stream(id) => FlattenField("stream", Some(id));
    case Partition(streamId, index) =>
      var a: seq<Pair>, b: seq<Pair> := [("stream", Some(streamId))], [("partition", Some(index))];
      FlattenField("stream", Some(streamId));
      FlattenField("partition", Some(index));
      GivenConcat(a, b);
      assert a + b == ResourcePairs(r);
  }

  lemma NormalFields(tenant: string, org: string, l: Locality, r: Resource)
    requires forall key | key in SetKeys(tenant, org, l, r) :: Normal(FieldOf(tenant, org, l, r, key))
    ensures forall key | key in SetKeys(tenant, org, l, r) :: Normal(Strip(FieldOf(tenant, org, l, r, key)))
    ensures AllNormal(Flatten(Given(UrnPairs(tenant, org, l, r))))
  {
    hide Strip, Normal, Flatten, Given, UrnPairs, FieldOf;
    forall key | key in SetKeys(tenant, org, l, r)
      ensures Normal(Strip(FieldOf(tenant, org, l, r, key)))
    {
      NormalIsStripped(FieldOf(tenant, org, l, r, key));
    }
    var given := Given(UrnPairs(tenant, org, l, r));
    FlattenAt(given);
    GivenIsSetKeys(tenant, org, l, r);
    forall i | 0 <= i < |Flatten(given)|
      ensures Normal(Flatten(given)[i])
    {
      var p := given[i / 2];
      assert p in given && (i == 2 * (i / 2) || i == 2 * (i / 2) + 1);
    }
  }

  lemma NormalIsStripped(s: string)
    requires Normal(s)
    ensures Strip(s) == s
  {
    StripTrims(s);
  }

  // ---------------------------------------------------------------------------
  // Subjects

  lemma SafeListed(c: char)
    ensures SafeChar(c) <==> c in UPPER || c in LOWER || c in DIGITS || c in "_-"
  {
    LetterOrDigit(c);
  }

  /** A subject is the word noetl and the segments, separated by dots, with a low line for
      every character that is no letter, digit, low line or hyphen. */
  lemma SubjectSpelledOut(segments: seq<string>)
    ensures ToSubject(segments) == Join('.', ["noetl"] + MakeAllSafe(segments))
    ensures |MakeAllSafe(segments)| == |segments|
    ensures forall k, i | 0 <= k < |segments| && 0 <= i < |segments[k]| ::
              && |MakeAllSafe(segments)[k]| == |segments[k]|
              && var c := segments[k][i];
                 MakeAllSafe(segments)[k][i] == if c in UPPER || c in LOWER || c in DIGITS || c in "_-" then c else '_'
  {
    forall c: char
      ensures SafeChar(c) <==> c in UPPER || c in LOWER || c in DIGITS || c in "_-"
    {
      SafeListed(c);
    }
  }

  /** Parts are separated by what Join puts between them. */
  lemma {:induction false} JoinSpelledOut(sep: char, a: string, rest: seq<string>)
    ensures Join(sep, []) == "" && Join(sep, [a]) == a
    ensures rest != [] ==> Join(sep, [a] + rest) == a + [sep] + Join(sep, rest)
  {
    assert ([a] + rest)[1..] == rest;
  }

  /** What is no subject of a locator is refused: nothing, another root, the root alone, an
      empty token. */
  lemma OtherSubjectsAreRefused(subject: string, text: string)
    requires Padded(subject, text) && Trimmed(text)
    ensures text == "" ==> FromSubject(subject) == Err(Empty)
    ensures text != "" && !("noetl." <= text) ==> FromSubject(subject) == Err(WrongScheme)
    ensures text == "noetl." ==> FromSubject(subject) == Err(NoSegments)
    ensures "noetl." <= text && |text| > 6 ==> FromSubject(subject) == FromSegments(Split('.', text[6..]))
  {
    StripIff(subject, text);
  }
}
