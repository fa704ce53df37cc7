/** Locators as key/value pairs, and the URN builders for datasets, streams and
    partitions. */
module LocatorPairs {
  import opened Base
  import opened ResourceLocator

  type Pair = (string, Option<string>)

  /** The pairs with a value; absent and empty values are skipped. */
  function Given(pairs: seq<Pair>): seq<(string, string)> {
    if pairs == [] then []
    else
      var last := pairs[|pairs| - 1];
      Given(pairs[..|pairs| - 1])
      + (if last.1.Some? && last.1.value != "" then [(last.0, last.1.value)] else [])
  }

  lemma GivenOneMore(pairs: seq<Pair>, k: nat)
    requires k < |pairs|
    ensures Given(pairs[..k + 1]) ==
            (if pairs[k].1.Some? && pairs[k].1.value != ""
             then Given(pairs[..k]) + [(pairs[k].0, pairs[k].1.value)] else Given(pairs[..k]))
  {
    assert pairs[..k + 1][..k] == pairs[..k];
    assert Given(pairs[..k]) + [] == Given(pairs[..k]);
  }

  function Flatten(given: seq<(string, string)>): seq<string> {
    if given == [] then []
    else Flatten(given[..|given| - 1]) + [given[|given| - 1].0, given[|given| - 1].1]
  }

  lemma {:induction false} FlattenOneMore(given: seq<(string, string)>, p: (string, string))
    ensures Flatten(given + [p]) == Flatten(given) + [p.0, p.1]
  {
    assert (given + [p])[..|given|] == given;
  }

  function FromPairs(pairs: seq<Pair>): Result<seq<string>, Error> {
    FromSegments(Flatten(Given(pairs)))
  }

  method BuildFromPairs(pairs: seq<Pair>) returns (r: Result<seq<string>, Error>)
    ensures r == FromPairs(pairs)
  {
    var segments: seq<string> := [];
    for k := 0 to |pairs|
      invariant segments == Flatten(Given(pairs[..k]))
    {
      GivenOneMore(pairs, k);
      var value := pairs[k].1;
      if value.Some? && value.value != "" {
        FlattenOneMore(Given(pairs[..k]), (pairs[k].0, value.value));
        segments := segments + [pairs[k].0, value.value];
      }
    }
    assert pairs[..|pairs|] == pairs;
    r := FromSegments(segments);
  }

  /** The first `n` pairs of alternating segments; a repeated key keeps its last value. */
  function PairMap(segments: seq<string>, n: nat): map<string, string>
    requires 2 * n <= |segments|
  {
    if n == 0 then map[] else PairMap(segments, n - 1)[segments[2 * n - 2] := segments[2 * n - 1]]
  }

  function Pairs(segments: seq<string>): Result<map<string, string>, Error> {
    if |segments| % 2 != 0 then Err(OddLength) else Ok(PairMap(segments, |segments| / 2))
  }

  method ReadPairs(segments: seq<string>) returns (r: Result<map<string, string>, Error>)
    ensures r == Pairs(segments)
  {
    if |segments| % 2 != 0 {
      return Err(OddLength);
    }
    var result: map<string, string> := map[];
    for n := 0 to |segments| / 2
      invariant result == PairMap(segments, n)
    {
      result := result[segments[2 * n] := segments[2 * n + 1]];
    }
    r := Ok(result);
  }

  // ---------------------------------------------------------------------------
  // Reading back what was given

  lemma {:induction false} FlattenAt(given: seq<(string, string)>)
    ensures |Flatten(given)| == 2 * |given|
    ensures forall k | 0 <= k < |given| ::
              Flatten(given)[2 * k] == given[k].0 && Flatten(given)[2 * k + 1] == given[k].1
  {
    if given != [] {
      FlattenAt(given[..|given| - 1]);
    }
  }

  ghost predicate PairNormal(p: (string, string)) {
    Normal(Strip(p.0)) && Normal(Strip(p.1))
  }

  /** A locator is built from pairs exactly when some pair has a value and every key and
      value that is used is acceptable as a segment; its segments are those, stripped. */
  lemma {:induction false} FromPairsIff(pairs: seq<Pair>)
    ensures var given := Given(pairs);
            var r := FromPairs(pairs);
            && (r.Ok? <==> given != [] && forall p | p in given :: PairNormal(p))
            && (r.Ok? ==> |r.value| == 2 * |given| && AllNormal(r.value) && r.value != [])
            && (r.Ok? ==> forall k | 0 <= k < |given| ::
                            r.value[2 * k] == Strip(given[k].0) && r.value[2 * k + 1] == Strip(given[k].1))
  {
    hide Strip, Normal;
    var given := Given(pairs);
    var flat := Flatten(given);
    FlattenAt(given);
    FromSegmentsIff(flat);
    if forall p | p in given :: PairNormal(p) {
      forall i | 0 <= i < |flat|
        ensures Normal(StripAll(flat)[i])
      {
        assert PairNormal(given[i / 2]);
        assert i == 2 * (i / 2) || i == 2 * (i / 2) + 1;
      }
    }
    if AllNormal(StripAll(flat)) {
      forall p | p in given
        ensures PairNormal(p)
      {
        var k :| 0 <= k < |given| && given[k] == p;
        assert Normal(StripAll(flat)[2 * k]) && Normal(StripAll(flat)[2 * k + 1]);
      }
    }
  }

  /** Pairs with the same key, once stripped, have the same value. */
  ghost predicate Consistent(given: seq<(string, string)>) {
    forall p, q | p in given && q in given && Strip(p.0) == Strip(q.0) :: Strip(p.1) == Strip(q.1)
  }

  /** Every given pair is read back. */
  ghost predicate Recovered(m: map<string, string>, given: seq<(string, string)>) {
    forall p | p in given :: Strip(p.0) in m && m[Strip(p.0)] == Strip(p.1)
  }

  /** Nothing else is read back. */
  ghost predicate NothingElse(m: map<string, string>, given: seq<(string, string)>) {
    forall key | key in m :: exists p | p in given :: Strip(p.0) == key && Strip(p.1) == m[key]
  }

  lemma {:induction false} PairMapRecovers(segments: seq<string>, given: seq<(string, string)>, n: nat)
    requires n <= |given| && |segments| == 2 * |given|
    requires forall k | 0 <= k < |given| ::
               segments[2 * k] == Strip(given[k].0) && segments[2 * k + 1] == Strip(given[k].1)
    ensures NothingElse(PairMap(segments, n), given[..n])
    ensures Consistent(given[..n]) ==> Recovered(PairMap(segments, n), given[..n])
  {
    hide Strip;
    if n > 0 {
      PairMapRecovers(segments, given, n - 1);
      var last := given[n - 1];
      assert given[..n] == given[..n - 1] + [last];
      assert segments[2 * (n - 1)] == Strip(last.0) && segments[2 * (n - 1) + 1] == Strip(last.1);
      var before, now := PairMap(segments, n - 1), PairMap(segments, n);
      forall key | key in now
        ensures exists p | p in given[..n] :: Strip(p.0) == key && Strip(p.1) == now[key]
      {
        if key == Strip(last.0) {
          assert last in given[..n];
        } else {
          var p :| p in given[..n - 1] && Strip(p.0) == key && Strip(p.1) == before[key];
          assert p in given[..n];
        }
      }
      if Consistent(given[..n]) {
        assert last in given[..n];
        assert Consistent(given[..n - 1]);
      }
    }
  }

  /** From pairs to text and back: parsing the printed locator and reading its pairs gives
      only what was given, and all of it exactly when no key was given two values. */
  lemma {:induction false} PairsRoundTrip(pairs: seq<Pair>)
    requires FromPairs(pairs).Ok?
    ensures var segments := FromPairs(pairs).value;
            var read := Pairs(segments);
            && Parse(Print(segments)) == Ok(segments)
            && read.Ok? && NothingElse(read.value, Given(pairs))
            && (Recovered(read.value, Given(pairs)) <==> Consistent(Given(pairs)))
  {
    hide Strip, FromPairs, Parse, Print, Given, Consistent, Recovered, NothingElse, PairMap, AllNormal;
    var segments, given := FromPairs(pairs).value, Given(pairs);
    FromPairsIff(pairs);
    ParseOfPrint(segments);
    PairMapRecovers(segments, given, |given|);
    assert given[..|given|] == given;
    if Recovered(PairMap(segments, |given|), given) {
      RecoveredIsConsistent(PairMap(segments, |given|), given);
    }
  }

  lemma RecoveredIsConsistent(m: map<string, string>, given: seq<(string, string)>)
    requires Recovered(m, given)
    ensures Consistent(given)
  {
    hide Strip;
  }

  // ---------------------------------------------------------------------------
  // The URN builders

  datatype Locality = Locality(region: Option<string>, zone: Option<string>, cluster: Option<string>)

  datatype Resource = Dataset(id: string) | Stream(id: string) | Partition(streamId: string, index: string)

  function LocalityPair(key: string, value: Option<string>): seq<Pair> {
    if value.Some? && value.value != "" then [(key, value)] else []
  }

  function LocalityPairs(l: Locality): seq<Pair> {
    LocalityPair("region", l.region) + LocalityPair("zone", l.zone) + LocalityPair("cluster", l.cluster)
  }

  function ResourcePairs(r: Resource): seq<Pair> {
    match r
    case Dataset(id) => [("dataset", Some(id))]
    case Stream(id) => [("stream", Some(id))]
    case Partition(streamId, index) => [("stream", Some(streamId)), ("partition", Some(index))]
  }

  function UrnPairs(tenant: string, org: string, l: Locality, r: Resource): seq<Pair> {
    [("tenant", Some(tenant)), ("org", Some(org))] + LocalityPairs(l) + ResourcePairs(r)
  }

  function BuildUrn(tenant: string, org: string, l: Locality, r: Resource): Result<string, Error> {
    var built := FromPairs(UrnPairs(tenant, org, l, r));
    if built.Ok? then Ok(Print(built.value)) else Err(built.error)
  }

  function OrEmpty(value: Option<string>): string {
    if value.Some? then value.value else ""
  }

  const URN_KEYS := {"tenant", "org", "region", "zone", "cluster", "dataset", "stream", "partition"}

  /** What a builder was given for a key; empty when nothing. */
  function FieldOf(tenant: string, org: string, l: Locality, r: Resource, key: string): string {
    if key == "tenant" then tenant
    else if key == "org" then org
    else if key == "region" then OrEmpty(l.region)
    else if key == "zone" then OrEmpty(l.zone)
    else if key == "cluster" then OrEmpty(l.cluster)
    else if key == "dataset" && r.Dataset? then r.id
    else if key == "stream" && r.Stream? then r.id
    else if key == "stream" && r.Partition? then r.streamId
    else if key == "partition" && r.Partition? then r.index
    else ""
  }

  lemma {:induction false} GivenIff(pairs: seq<Pair>, p: (string, string))
    ensures p in Given(pairs) <==> (p.0, Some(p.1)) in pairs && p.1 != ""
  {
    if pairs != [] {
      var front, last := pairs[..|pairs| - 1], pairs[|pairs| - 1];
      assert pairs == front + [last];
      GivenIff(front, p);
    }
  }

  lemma LocalityPairIff(key: string, value: Option<string>, p: (string, string))
    ensures (p.0, Some(p.1)) in LocalityPair(key, value) && p.1 != "" <==>
            p.0 == key && p.1 != "" && p.1 == OrEmpty(value)
  {
  }

  lemma ResourcePairIff(r: Resource, p: (string, string))
    ensures (p.0, Some(p.1)) in ResourcePairs(r) <==>
            match r
            case Dataset(id) => p == ("dataset", id)
            case Stream(id) => p == ("stream", id)
            case Partition(streamId, index) => p == ("stream", streamId) || p == ("partition", index)
  {
  }

  lemma KeysDiffer()
    ensures "tenant"[0] == 't' && "org"[0] == 'o' && "region"[0] == 'r' && "zone"[0] == 'z'
    ensures "cluster"[0] == 'c' && "dataset"[0] == 'd' && "stream"[0] == 's' && "partition"[0] == 'p'
  {
  }

  /** The pairs a builder passes on are the fields that are set. */
  lemma GivenIsFields(tenant: string, org: string, l: Locality, r: Resource, p: (string, string))
    ensures p in Given(UrnPairs(tenant, org, l, r)) <==>
            p.0 in URN_KEYS && p.1 != "" && p.1 == FieldOf(tenant, org, l, r, p.0)
  {
    hide Given, LocalityPair, ResourcePairs;
    GivenIff(UrnPairs(tenant, org, l, r), p);
    LocalityPairIff("region", l.region, p);
    LocalityPairIff("zone", l.zone, p);
    LocalityPairIff("cluster", l.cluster, p);
    ResourcePairIff(r, p);
    KeysDiffer();
    var head: seq<Pair> := [("tenant", Some(tenant)), ("org", Some(org))];
    assert (p.0, Some(p.1)) in head <==> p == ("tenant", tenant) || p == ("org", org);
  }

  lemma UrnKeyIsNormal(key: string)
    requires key in URN_KEYS
    ensures Normal(key) && Strip(key) == key
  {
    assert Trimmed(key);
    StripTrims(key);
  }

  function SetKeys(tenant: string, org: string, l: Locality, r: Resource): set<string> {
    set key | key in URN_KEYS && FieldOf(tenant, org, l, r, key) != ""
  }

  /** The builders' law: a builder succeeds exactly when some field is set and every field
      that is set is acceptable once stripped; then parsing the URN and reading its pairs
      gives exactly the fields that are set, stripped. An empty tenant, organization or id
      is skipped like an unset locality. */
  lemma BuilderRoundTrip(tenant: string, org: string, l: Locality, r: Resource)
    ensures var urn := BuildUrn(tenant, org, l, r);
            var keys := SetKeys(tenant, org, l, r);
            && (urn.Ok? <==> keys != {} && forall key | key in keys :: Normal(Strip(FieldOf(tenant, org, l, r, key))))
            && (urn.Ok? ==>
                  && Parse(urn.value).Ok?
                  && Pairs(Parse(urn.value).value) ==
                     Ok(map key | key in keys :: Strip(FieldOf(tenant, org, l, r, key))))
  {
    hide Strip, FromPairs, Parse, Print, Given, Normal, UrnPairs, Pairs, FieldOf, SetKeys;
    var pairs := UrnPairs(tenant, org, l, r);
    var given, keys := Given(pairs), SetKeys(tenant, org, l, r);
    var field := key => FieldOf(tenant, org, l, r, key);
    GivenIsSetKeys(tenant, org, l, r);
    FromPairsIff(pairs);
    SetKeysNormal(given, keys, field);
    if FromPairs(pairs).Ok? {
      PairsRoundTrip(pairs);
      assert Consistent(given);
      MapIsFields(Pairs(FromPairs(pairs).value).value, given, keys, field);
      assert (map key | key in keys :: Strip(field(key)))
          == (map key | key in keys :: Strip(FieldOf(tenant, org, l, r, key)));
    }
  }

  lemma GivenIsSetKeys(tenant: string, org: string, l: Locality, r: Resource)
    ensures var given, keys := Given(UrnPairs(tenant, org, l, r)), SetKeys(tenant, org, l, r);
            && (forall p: (string, string) :: p in given <==> p.0 in keys && p.1 == FieldOf(tenant, org, l, r, p.0))
            && (forall key | key in keys :: Normal(key) && Strip(key) == key)
  {
    hide Strip, Normal, Given, UrnPairs, FieldOf;
    var given, keys := Given(UrnPairs(tenant, org, l, r)), SetKeys(tenant, org, l, r);
    forall p: (string, string)
      ensures p in given <==> p.0 in keys && p.1 == FieldOf(tenant, org, l, r, p.0)
    {
      GivenIsFields(tenant, org, l, r, p);
    }
    forall key | key in keys
      ensures Normal(key) && Strip(key) == key
    {
      UrnKeyIsNormal(key);
    }
  }

  lemma SetKeysNormal(given: seq<(string, string)>, keys: set<string>, field: string -> string)
    requires forall p: (string, string) :: p in given <==> p.0 in keys && p.1 == field(p.0)
    requires forall key | key in keys :: Normal(key) && Strip(key) == key
    ensures given != [] <==> keys != {}
    ensures (forall p | p in given :: PairNormal(p)) <==> forall key | key in keys :: Normal(Strip(field(key)))
  {
    hide Strip, Normal;
    if given != [] {
      assert given[0] in given;
    }
    forall key | key in keys
      ensures (key, field(key)) in given
      ensures PairNormal((key, field(key))) <==> Normal(Strip(field(key)))
    {
    }
  }

  lemma MapIsFields(m: map<string, string>, given: seq<(string, string)>, keys: set<string>, field: string -> string)
    requires forall p: (string, string) :: p in given <==> p.0 in keys && p.1 == field(p.0)
    requires forall key | key in keys :: Strip(key) == key
    requires Recovered(m, given) && NothingElse(m, given)
    ensures m == map key | key in keys :: Strip(field(key))
  {
    hide Strip;
    forall key | key in keys
      ensures key in m && m[key] == Strip(field(key))
    {
      assert (key, field(key)) in given;
    }
  }
}
