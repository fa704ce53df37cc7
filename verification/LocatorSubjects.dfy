/** Locators as NATS subjects: a lossy image whose characters are safe in a subject. */
module LocatorSubjects {
  import opened Base
  import opened ResourceLocator

  predicate SafeChar(c: char) {
    'a' <= c <= 'z' || 'A' <= c <= 'Z' || '0' <= c <= '9' || c == '_' || c == '-'
  }

  predicate Safe(segment: string) {
    forall i | 0 <= i < |segment| :: SafeChar(segment[i])
  }

  function MakeSafe(segment: string): (r: string)
    ensures |r| == |segment| && Safe(r)
  {
    seq(|segment|, i requires 0 <= i < |segment| => if SafeChar(segment[i]) then segment[i] else '_')
  }

  function MakeAllSafe(segments: seq<string>): seq<string> {
    seq(|segments|, k requires 0 <= k < |segments| => MakeSafe(segments[k]))
  }

  function ToSubject(segments: seq<string>): string {
    Join('.', ["noetl"] + MakeAllSafe(segments))
  }

  const ROOT := "noetl."

  function FromSubject(subject: string): Result<seq<string>, Error> {
    var cleaned := Strip(subject);
    if cleaned == "" then Err(Empty)
    else if !(ROOT <= cleaned) then Err(WrongScheme)
    else if cleaned[|ROOT|..] == "" then Err(NoSegments)
    else FromSegments(Split('.', cleaned[|ROOT|..]))
  }

  lemma SafeIsNormal(segment: string)
    requires Safe(segment) && segment != ""
    ensures Normal(segment) && '.' !in segment
  {
    assert SafeChar(segment[0]) && SafeChar(segment[|segment| - 1]);
  }

  lemma {:induction false} JoinSafe(parts: seq<string>)
    requires parts != [] && forall k | 0 <= k < |parts| :: Safe(parts[k]) && parts[k] != ""
    ensures var s := Join('.', parts); s != "" && !IsSpace(s[|s| - 1])
  {
    if |parts| == 1 {
      SafeIsNormal(parts[0]);
    } else {
      JoinSafe(parts[1..]);
    }
  }

  /** The subject of a locator reads back as the locator with its characters made safe. */
  lemma FromSubjectOfSubject(segments: seq<string>)
    requires segments != [] && AllNormal(segments)
    ensures FromSubject(ToSubject(segments)) == Ok(MakeAllSafe(segments))
  {
    hide Strip, FromSegments, Normal, Split, Safe;
    var safe := MakeAllSafe(segments);
    AllNormalNotEmpty(segments);
    forall k | 0 <= k < |safe|
      ensures Safe(safe[k]) && safe[k] != "" && Normal(safe[k]) && '.' !in safe[k]
    {
      SafeIsNormal(safe[k]);
    }
    var body := Join('.', safe);
    assert (["noetl"] + safe)[1..] == safe;
    assert ToSubject(segments) == ROOT + body;
    JoinSafe(safe);
    SubjectIsTrimmed(ROOT + body, body);
    SplitOfJoin('.', safe);
    FromSegmentsIff(safe);
    StripAllKeepsNormal(safe);
    assert (ROOT + body)[|ROOT|..] == body;
  }

  lemma SubjectIsTrimmed(s: string, body: string)
    requires s == ROOT + body && body != "" && !IsSpace(body[|body| - 1])
    ensures Strip(s) == s && s != ""
  {
    assert s[0] == 'n' && s[|s| - 1] == body[|body| - 1];
    StripTrims(s);
  }

  /** A locator survives the trip through its subject exactly when its segments are
      NATS-safe. */
  lemma SubjectRoundTripIff(segments: seq<string>)
    requires segments != [] && AllNormal(segments)
    ensures FromSubject(ToSubject(segments)) == Ok(segments) <==>
            forall k | 0 <= k < |segments| :: Safe(segments[k])
  {
    hide FromSubject, ToSubject, Normal;
    FromSubjectOfSubject(segments);
    forall k | 0 <= k < |segments|
      ensures MakeSafe(segments[k]) == segments[k] <==> Safe(segments[k])
    {
    }
    if forall k | 0 <= k < |segments| :: Safe(segments[k]) {
      assert MakeAllSafe(segments) == segments;
    }
    if MakeAllSafe(segments) == segments {
      forall k | 0 <= k < |segments|
        ensures Safe(segments[k])
      {
        assert MakeAllSafe(segments)[k] == MakeSafe(segments[k]);
      }
    }
  }

  /** After one trip the locator is stable: a second one changes nothing. */
  lemma SubjectTripStabilises(segments: seq<string>)
    requires segments != [] && AllNormal(segments)
    ensures FromSubject(ToSubject(segments)).Ok?
    ensures var once := FromSubject(ToSubject(segments)).value; FromSubject(ToSubject(once)) == Ok(once)
  {
    hide FromSubject, ToSubject, Normal;
    FromSubjectOfSubject(segments);
    var once := MakeAllSafe(segments);
    AllNormalNotEmpty(segments);
    forall k | 0 <= k < |once|
      ensures Normal(once[k])
    {
      SafeIsNormal(once[k]);
    }
    SubjectRoundTripIff(once);
  }

  /** Two locators share a subject exactly when they agree once made safe. */
  lemma SubjectsClashIff(a: seq<string>, b: seq<string>)
    requires a != [] && AllNormal(a) && b != [] && AllNormal(b)
    ensures ToSubject(a) == ToSubject(b) <==> MakeAllSafe(a) == MakeAllSafe(b)
  {
    hide FromSubject, Normal, Join, MakeAllSafe;
    FromSubjectOfSubject(a);
    FromSubjectOfSubject(b);
  }
}
