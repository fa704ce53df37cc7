/** Resource locators: noetl:// names made of segments, their printed form, their
    key/value reading and their image as NATS subjects. */
module ResourceLocator {
  import opened Base
  import opened PercentEncoding

  datatype Error = Empty | WrongScheme | HasExtras | Malformed | NoSegments | EmptySegment | SlashInSegment | OddLength

  // ---------------------------------------------------------------------------
  // Splitting and joining

  function Join(sep: char, parts: seq<string>): string {
    if parts == [] then ""
    else if |parts| == 1 then parts[0]
    else parts[0] + [sep] + Join(sep, parts[1..])
  }

  /** The length of the longest prefix without any of the characters. */
  function Until(stops: set<char>, s: string): (n: nat)
    ensures n <= |s|
  {
    if s == "" || s[0] in stops then 0 else 1 + Until(stops, s[1..])
  }

  function Split(sep: char, s: string): seq<string>
    decreases |s|
  {
    var n := Until({sep}, s);
    if n == |s| then [s] else [s[..n]] + Split(sep, s[n + 1..])
  }

  lemma {:induction false} UntilStops(stops: set<char>, a: string, b: string)
    requires forall i | 0 <= i < |a| :: a[i] !in stops
    requires b == "" || b[0] in stops
    ensures Until(stops, a + b) == |a|
  {
    if a == "" {
      assert a + b == b;
    } else {
      assert (a + b)[1..] == a[1..] + b;
      UntilStops(stops, a[1..], b);
    }
  }

  /** Splitting undoes joining when no part holds the separator. */
  lemma {:induction false} SplitOfJoin(sep: char, parts: seq<string>)
    requires parts != []
    requires forall k, i | 0 <= k < |parts| && 0 <= i < |parts[k]| :: parts[k][i] != sep
    ensures Split(sep, Join(sep, parts)) == parts
    decreases |parts|
  {
    var s := Join(sep, parts);
    if |parts| == 1 {
      UntilStops({sep}, parts[0], "");
      assert parts[0] + "" == parts[0];
    } else {
      var rest := Join(sep, parts[1..]);
      assert s == parts[0] + ([sep] + rest);
      UntilStops({sep}, parts[0], [sep] + rest);
      assert s[..|parts[0]|] == parts[0] && s[|parts[0]| + 1..] == rest;
      SplitOfJoin(sep, parts[1..]);
    }
  }

  function NonEmpty(parts: seq<string>): seq<string> {
    if parts == [] then []
    else if parts[0] == "" then NonEmpty(parts[1..])
    else [parts[0]] + NonEmpty(parts[1..])
  }

  lemma {:induction false} NonEmptyKeeps(parts: seq<string>)
    requires forall k | 0 <= k < |parts| :: parts[k] != ""
    ensures NonEmpty(parts) == parts
  {
    if parts != [] {
      NonEmptyKeeps(parts[1..]);
    }
  }

  // ---------------------------------------------------------------------------
  // Segments

  function NormalizeSegment(segment: string): Result<string, Error> {
    var value := Strip(segment);
    if value == "" then Err(EmptySegment)
    else if '/' in value then Err(SlashInSegment)
    else Ok(value)
  }

  function NormalizeAll(segments: seq<string>): Result<seq<string>, Error> {
    if segments == [] then Ok([])
    else
      var first := NormalizeSegment(segments[0]);
      if first.Err? then Err(first.error)
      else
        var rest := NormalizeAll(segments[1..]);
        if rest.Err? then rest else Ok([first.value] + rest.value)
  }

  function FromSegments(segments: seq<string>): Result<seq<string>, Error> {
    var normalized := NormalizeAll(segments);
    if normalized.Ok? && normalized.value == [] then Err(NoSegments) else normalized
  }

  predicate Normal(segment: string) {
    segment != "" && Trimmed(segment) && '/' !in segment
  }

  predicate AllNormal(segments: seq<string>) {
    forall k | 0 <= k < |segments| :: Normal(segments[k])
  }

  lemma NormalizeSegmentIff(segment: string)
    ensures var r := NormalizeSegment(segment);
            && (r.Ok? <==> Normal(Strip(segment)))
            && (r.Ok? ==> r.value == Strip(segment))
            && (Normal(segment) ==> r == Ok(segment))
  {
    StripTrims(segment);
  }

  function StripAll(segments: seq<string>): seq<string> {
    seq(|segments|, k requires 0 <= k < |segments| => Strip(segments[k]))
  }

  lemma {:induction false} NormalizeAllIff(segments: seq<string>)
    ensures var r := NormalizeAll(segments);
            && (r.Ok? <==> AllNormal(StripAll(segments)))
            && (r.Ok? ==> r.value == StripAll(segments))
  {
    hide Normal, NormalizeSegment;
    if segments != [] {
      NormalizeSegmentIff(segments[0]);
      NormalizeAllIff(segments[1..]);
      assert StripAll(segments) == [Strip(segments[0])] + StripAll(segments[1..]);
      AllNormalCons(Strip(segments[0]), StripAll(segments[1..]));
    }
  }

  lemma AllNormalCons(first: string, rest: seq<string>)
    ensures AllNormal([first] + rest) <==> Normal(first) && AllNormal(rest)
  {
    var all := [first] + rest;
    assert all[0] == first && forall k | 0 <= k < |rest| :: all[k + 1] == rest[k];
  }

  /** A locator is built exactly from segments that are not blank and hold no slash once
      stripped, and there must be one; it then has the stripped segments. */
  lemma FromSegmentsIff(segments: seq<string>)
    ensures var r := FromSegments(segments);
            && (r.Ok? <==> segments != [] && AllNormal(StripAll(segments)))
            && (r.Ok? ==> r.value == StripAll(segments))
  {
    NormalizeAllIff(segments);
  }

  lemma StripAllKeepsNormal(segments: seq<string>)
    requires AllNormal(segments)
    ensures StripAll(segments) == segments
  {
    forall k | 0 <= k < |segments|
      ensures Strip(segments[k]) == segments[k]
    {
      assert Normal(segments[k]);
      StripTrims(segments[k]);
    }
  }

  // ---------------------------------------------------------------------------
  // Printing and parsing

  function QuoteAll(segments: seq<string>): seq<string> {
    seq(|segments|, k requires 0 <= k < |segments| => Quote(segments[k]))
  }

  function UnquoteAll(parts: seq<string>): seq<string> {
    seq(|parts|, k requires 0 <= k < |parts| => Unquote(parts[k]))
  }

  const PREFIX := "noetl://"

  function Print(segments: seq<string>): string {
    PREFIX + Join('/', QuoteAll(segments))
  }

  /** URL splitting drops control characters and spaces in front, and tabs and line ends
      anywhere. */
  function DropControls(s: string): string {
    if s != "" && s[0] as int <= 32 then DropControls(s[1..]) else s
  }

  function DropBreaks(s: string): string {
    if s == "" then ""
    else if s[0] == '\t' || s[0] == '\n' || s[0] == '\r' then DropBreaks(s[1..])
    else [s[0]] + DropBreaks(s[1..])
  }

  datatype Url = Url(netloc: string, path: string, query: string, fragment: string)

  /** The path, query and fragment after the network location. */
  function SplitTail(netloc: string, tail: string): Url {
    var hash := Until({'#'}, tail);
    var beforeHash := tail[..hash];
    var mark := Until({'?'}, beforeHash);
    Url(netloc, beforeHash[..mark],
        if mark < |beforeHash| then beforeHash[mark + 1..] else "",
        if hash < |tail| then tail[hash + 1..] else "")
  }

  /** The parts of what follows the scheme. */
  function SplitUrl(rest: string): Url {
    if |rest| >= 2 && rest[0] == '/' && rest[1] == '/' then
      var n := Until({'/', '?', '#'}, rest[2..]);
      SplitTail(rest[2..][..n], rest[2..][n..])
    else SplitTail("", rest)
  }

  predicate HasScheme(s: string) {
    |s| >= 6 && Lower(s[..6]) == "noetl:"
  }

  function RawSegments(url: Url): seq<string> {
    (if url.netloc != "" then [url.netloc] else []) + NonEmpty(Split('/', url.path))
  }

  function Parse(value: string): Result<seq<string>, Error> {
    var stripped := Strip(value);
    if stripped == "" then Err(Empty)
    else
      var s := DropBreaks(DropControls(stripped));
      if !HasScheme(s) then Err(WrongScheme)
      else
        var url := SplitUrl(s[6..]);
        if ('[' in url.netloc) != (']' in url.netloc) then Err(Malformed)
        else if url.query != "" || url.fragment != "" then Err(HasExtras)
        else FromSegments(UnquoteAll(RawSegments(url)))
  }

  predicate Plain(s: string) {
    forall i | 0 <= i < |s| :: QuotedChar(s[i])
  }

  lemma QuoteAllPlain(segments: seq<string>)
    ensures forall k | 0 <= k < |segments| :: Plain(QuoteAll(segments)[k])
    ensures forall k | 0 <= k < |segments| :: segments[k] != "" ==> QuoteAll(segments)[k] != ""
    ensures UnquoteAll(QuoteAll(segments)) == segments
  {
    forall k | 0 <= k < |segments|
      ensures Plain(QuoteAll(segments)[k]) && (segments[k] != "" ==> QuoteAll(segments)[k] != "")
      ensures Unquote(QuoteAll(segments)[k]) == segments[k]
    {
      UnquoteOfQuote(segments[k]);
    }
  }

  /** No character of printed text is one that parsing drops or stops at. */
  predicate Printed(s: string) {
    forall i | 0 <= i < |s| :: QuotedChar(s[i]) || s[i] == '/' || s[i] == ':'
  }

  lemma {:induction false} JoinPrinted(parts: seq<string>)
    requires forall k | 0 <= k < |parts| :: Plain(parts[k])
    ensures Printed(Join('/', parts))
    ensures parts != [] && parts[|parts| - 1] != "" ==>
              var s := Join('/', parts); s != "" && QuotedChar(s[|s| - 1])
  {
    if |parts| > 1 {
      JoinPrinted(parts[1..]);
    } else if |parts| == 1 {
      assert Plain(parts[0]);
    }
  }

  lemma {:induction false} DropBreaksKeeps(s: string)
    requires Printed(s)
    ensures DropBreaks(s) == s
  {
    if s != "" {
      DropBreaksKeeps(s[1..]);
    }
  }

  lemma PlainHasNoStops(parts: seq<string>)
    requires forall k | 0 <= k < |parts| :: Plain(parts[k])
    ensures forall k, i | 0 <= k < |parts| && 0 <= i < |parts[k]| :: parts[k][i] !in {'/', '?', '#'}
  {
    forall k, i | 0 <= k < |parts| && 0 <= i < |parts[k]|
      ensures parts[k][i] !in {'/', '?', '#'}
    {
      assert Plain(parts[k]);
    }
  }

  lemma SplitTailOfPrinted(netloc: string, tail: string)
    requires Printed(tail)
    ensures SplitTail(netloc, tail) == Url(netloc, tail, "", "")
  {
    UntilStops({'#'}, tail, "");
    UntilStops({'?'}, tail, "");
    assert tail + "" == tail && tail[..|tail|] == tail;
  }

  /** What follows the first of the joined parts. */
  function PathOf(parts: seq<string>): string {
    if parts == [] then "" else ['/'] + Join('/', parts)
  }

  lemma SplitOfPath(parts: seq<string>)
    requires forall k | 0 <= k < |parts| :: Plain(parts[k]) && parts[k] != ""
    ensures NonEmpty(Split('/', PathOf(parts))) == parts
  {
    hide Join, Plain;
    if parts == [] {
      assert Split('/', "") == [""];
      assert NonEmpty([""]) == NonEmpty([""][1..]) == [];
    } else {
      var path := PathOf(parts);
      PlainHasNoStops(parts);
      SplitOfJoin('/', parts);
      assert Until({'/'}, path) == 0 && path[..0] == "" && path[1..] == Join('/', parts);
      assert Split('/', path) == [""] + parts;
      assert ([""] + parts)[1..] == parts;
      NonEmptyKeeps(parts);
    }
  }

  lemma {:induction false} SplitUrlAt(rest: string, netloc: string, tail: string)
    requires |rest| >= 2 && rest[0] == '/' && rest[1] == '/' && rest[2..] == netloc + tail
    requires Until({'/', '?', '#'}, netloc + tail) == |netloc|
    ensures SplitUrl(rest) == SplitTail(netloc, tail)
  {
    hide SplitTail, Until;
    assert (netloc + tail)[..|netloc|] == netloc && (netloc + tail)[|netloc|..] == tail;
  }

  lemma {:induction false} JoinIsHeadAndPath(parts: seq<string>)
    requires parts != []
    ensures Join('/', parts) == parts[0] + PathOf(parts[1..])
    ensures PathOf(parts[1..]) == "" || PathOf(parts[1..])[0] == '/'
  {
  }

  /** The URL parts of quoted segments after the scheme: the first is the network
      location, the others the path. */
  lemma {:induction false} SplitUrlOfPrinted(rest: string, parts: seq<string>)
    requires parts != [] && forall k | 0 <= k < |parts| :: Plain(parts[k]) && parts[k] != ""
    requires |rest| >= 2 && rest[0] == '/' && rest[1] == '/' && rest[2..] == Join('/', parts)
    ensures SplitUrl(rest) == Url(parts[0], PathOf(parts[1..]), "", "")
  {
    hide QuotedChar, Plain, Printed, SplitTail, SplitUrl, Until, Join, PathOf;
    var tail := PathOf(parts[1..]);
    JoinIsHeadAndPath(parts);
    PlainHasNoStops(parts);
    UntilStops({'/', '?', '#'}, parts[0], tail);
    PathPrinted(parts[1..]);
    SplitTailOfPrinted(parts[0], tail);
    SplitUrlAt(rest, parts[0], tail);
  }

  lemma PathPrinted(parts: seq<string>)
    requires forall k | 0 <= k < |parts| :: Plain(parts[k])
    ensures Printed(PathOf(parts))
  {
    JoinPrinted(parts);
  }

  /** Parsing the printed form of a locator gives the locator back. */
  lemma ParseOfPrint(segments: seq<string>)
    requires segments != [] && AllNormal(segments)
    ensures Parse(Print(segments)) == Ok(segments)
  {
    hide Strip, Quote, Unquote, SplitUrl, FromSegments, RawSegments, Normal;
    var parts := QuoteAll(segments);
    AllNormalNotEmpty(segments);
    QuoteAllPlain(segments);
    JoinPrinted(parts);
    var s := Print(segments);
    PrintedIsKept(s, Join('/', parts));
    assert s[6] == '/' && s[7] == '/' && s[6..][2..] == Join('/', parts);
    SplitUrlOfPrinted(s[6..], parts);
    RawSegmentsOfPrinted(parts);
    NoBrackets(parts[0]);
    FromSegmentsIff(segments);
    StripAllKeepsNormal(segments);
  }

  lemma RawSegmentsOfPrinted(parts: seq<string>)
    requires parts != [] && forall k | 0 <= k < |parts| :: Plain(parts[k]) && parts[k] != ""
    ensures RawSegments(Url(parts[0], PathOf(parts[1..]), "", "")) == parts
  {
    SplitOfPath(parts[1..]);
    assert [parts[0]] + parts[1..] == parts;
  }

  lemma AllNormalNotEmpty(segments: seq<string>)
    requires AllNormal(segments)
    ensures forall k | 0 <= k < |segments| :: segments[k] != ""
  {
    forall k | 0 <= k < |segments|
      ensures segments[k] != ""
    {
      assert Normal(segments[k]);
    }
  }

  lemma NoBrackets(s: string)
    requires Plain(s)
    ensures '[' !in s && ']' !in s
  {
  }

  lemma {:induction false} PrintedIsKept(s: string, body: string)
    requires s == PREFIX + body && body != "" && Printed(body) && QuotedChar(body[|body| - 1])
    ensures Strip(s) == s && s != "" && DropBreaks(DropControls(s)) == s && HasScheme(s)
  {
    hide Strip;
    assert s[0] == 'n' && s[|s| - 1] == body[|body| - 1];
    assert Trimmed(s);
    StripTrims(s);
    assert Printed(s) by {
      assert Printed(PREFIX);
    }
    DropBreaksKeeps(s);
    assert s[..6] == "noetl:";
    assert Lower("noetl:") == "noetl:";
  }

  /** Printing is canonical: whatever text parses, printing the locator and parsing again
      changes nothing. */
  lemma PrintIsCanonical(value: string)
    ensures var r := Parse(value); r.Ok? ==> Parse(Print(r.value)) == r
  {
    hide Strip, Quote, Unquote, SplitUrl, FromSegments, RawSegments, Normal, AllNormal;
    var r := Parse(value);
    if r.Ok? {
      var segments := UnquoteAll(RawSegments(SplitUrl(DropBreaks(DropControls(Strip(value)))[6..])));
      assert r == FromSegments(segments);
      FromSegmentsIff(segments);
      assert r.value == StripAll(segments) && |StripAll(segments)| == |segments|;
      ParseOfPrint(r.value);
    }
  }
}
