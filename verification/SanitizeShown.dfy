/** What a redacted response shows: which texts, which keys and which references, in terms
    of the characters they are made of. */
module SanitizeShown {
  import opened Base
  import opened Sanitize

  // ---------------------------------------------------------------------------
  // Texts

  ghost predicate Within(part: string, s: string) {
    exists a: string, b: string :: s == a + part + b
  }

  lemma ContainsIff(s: string, part: string)
    ensures Contains(s, part) <==> Within(part, s)
  {
    if Contains(s, part) {
      var i: nat :| i <= |s| && OccursAt(s, part, i);
      assert s == s[..i] + part + s[i + |part|..];
    }
    if Within(part, s) {
      var a, b :| s == a + part + b;
      assert OccursAt(s, part, |a|);
    }
  }

  /** Marks by which a text counts as a template or as code. */
  predicate CodeMark(mark: string) {
    || mark == "{{" || mark == "}}" || mark == "={" || mark == "def " || mark == "import "
    || mark == "return " || mark == "class " || mark == "async def "
  }

  /** A text leaks if it is a secret, or has one of eight characters or more in it, or is
      shaped like one and has no mark of a template or of code. */
  ghost predicate Leaks(rules: Rules, s: string) {
    s != "" &&
    ((exists secret | secret in rules.secrets :: s == secret || (|secret| >= 8 && Within(secret, s)))
     || (rules.shaped(s) && forall mark | CodeMark(mark) :: !Within(mark, s)))
  }

  lemma MarksIff(s: string)
    ensures LooksLikeTemplateOrCode(s) <==> exists mark :: CodeMark(mark) && Within(mark, s)
  {
    hide Contains, Within;
    ContainsIff(s, "{{");
    ContainsIff(s, "}}");
    ContainsIff(s, "={");
    ContainsIff(s, "def ");
    ContainsIff(s, "import ");
    ContainsIff(s, "return ");
    ContainsIff(s, "class ");
    ContainsIff(s, "async def ");
  }

  lemma SecretIff(rules: Rules, s: string)
    ensures SecretValue(rules, s) <==> Leaks(rules, s)
  {
    hide Contains, Within, LooksLikeTemplateOrCode, CodeMark;
    MarksIff(s);
    forall secret | secret in rules.secrets
      ensures Contains(s, secret) <==> Within(secret, s)
    {
      ContainsIff(s, secret);
    }
  }

  // ---------------------------------------------------------------------------
  // References and keys

  /** The first entry of that key. */
  predicate FirstEntry(entries: seq<Entry>, key: string, i: nat) {
    i < |entries| && entries[i].key == key && forall j | 0 <= j < i :: entries[j].key != key
  }

  lemma {:induction false} LookupIff(entries: seq<Entry>, key: string)
    ensures match Lookup(entries, key)
            case None => forall i | 0 <= i < |entries| :: entries[i].key != key
            case Some(v) => exists i: nat :: FirstEntry(entries, key, i) && entries[i].value == v
    ensures forall i: nat | FirstEntry(entries, key, i) :: Lookup(entries, key) == Some(entries[i].value)
    decreases |entries|
  {
    if entries != [] {
      LookupIff(entries[1..], key);
      assert forall i | 1 <= i < |entries| :: entries[i] == entries[1..][i - 1];
      if entries[0].key == key {
        assert FirstEntry(entries, key, 0);
      } else {
        forall i: nat | FirstEntry(entries, key, i)
          ensures i > 0 && FirstEntry(entries[1..], key, i - 1)
        {
        }
        if Lookup(entries, key).Some? {
          var i: nat :| FirstEntry(entries[1..], key, i) && entries[1..][i].value == Lookup(entries, key).value;
          assert FirstEntry(entries, key, i + 1);
        }
      }
    }
  }

  /** A dictionary whose $noetl_ref is a dictionary of kind keychain. */
  ghost predicate KeychainRef(t: Tree) {
    t.Object? &&
    exists i: nat :: FirstEntry(t.entries, "$noetl_ref", i) && t.entries[i].value.Object? &&
      exists j: nat :: FirstEntry(t.entries[i].value.entries, "kind", j) &&
                       t.entries[i].value.entries[j].value == Text("keychain")
  }

  lemma PlaceholderIff(t: Tree)
    ensures Placeholder(t) <==> KeychainRef(t)
  {
    hide Lookup, FirstEntry;
    if t.Object? {
      LookupIff(t.entries, "$noetl_ref");
      var ref := Lookup(t.entries, "$noetl_ref");
      if ref.Some? && ref.value.Object? {
        LookupIff(ref.value.entries, "kind");
      }
    }
  }

  /** The key with its letters in lower case and a low line for each hyphen. */
  predicate Spells(key: string, normal: string) {
    && |key| == |normal|
    && forall i | 0 <= i < |key| ::
         if key[i] == '-' then normal[i] == '_'
         else if 'A' <= key[i] <= 'Z' then normal[i] as int == key[i] as int + 32
         else normal[i] == key[i]
  }

  lemma NormalizeIff(key: string, normal: string)
    ensures NormalizeKey(key) == normal <==> Spells(key, normal)
  {
    if Spells(key, normal) {
      assert forall i | 0 <= i < |key| :: NormalizeKey(key)[i] == normal[i];
    }
  }

  /** A key of the caller's list, in some spelling. */
  ghost predicate Listed(rules: Rules, key: string) {
    exists normal | normal in rules.additionalKeys :: Spells(key, normal)
  }

  /** A key with a sensitive term in it, in some spelling. */
  ghost predicate HasTerm(rules: Rules, key: string) {
    exists term, normal | term in rules.sensitiveTerms :: Spells(key, normal) && Within(term, normal)
  }

  lemma KeysIff(rules: Rules, key: string)
    ensures BlindKey(rules, key) <==> Listed(rules, key)
    ensures SensitiveKey(rules, key) <==> HasTerm(rules, key)
  {
    hide Contains, Within, Spells, NormalizeKey;
    forall normal
      ensures NormalizeKey(key) == normal <==> Spells(key, normal)
    {
      NormalizeIff(key, normal);
    }
    forall term
      ensures Contains(NormalizeKey(key), term) <==> Within(term, NormalizeKey(key))
    {
      ContainsIff(NormalizeKey(key), term);
    }
  }

  // ---------------------------------------------------------------------------
  // What redaction does

  /** Above the depth limit a text is replaced exactly when it leaks, a list, a tuple or a
      dictionary is redacted item by item; nothing at the limit is touched. */
  lemma TextsAreRedacted(rules: Rules, t: Tree, depth: nat)
    ensures depth >= rules.maxDepth ==> Redact(rules, t, depth) == t
    ensures depth < rules.maxDepth && t.Text? ==>
              Redact(rules, t, depth) == if Leaks(rules, t.s) then Text(rules.redaction) else t
    ensures depth < rules.maxDepth && t.Scalar? ==> Redact(rules, t, depth) == t
    ensures depth < rules.maxDepth && (t.List? || t.Tuple?) ==>
              var r := Redact(rules, t, depth);
              && r.List? == t.List? && r.Tuple? == t.Tuple? && |r.items| == |t.items|
              && forall i | 0 <= i < |t.items| :: r.items[i] == Redact(rules, t.items[i], depth + 1)
  {
    hide SecretValue, Leaks;
    if t.Text? {
      SecretIff(rules, t.s);
    }
  }

  /** The value of a listed key is replaced unless it is a reference to the keychain; under a
      key with a sensitive term, so are containers but such references, and texts that leak;
      under any other key the value is redacted in its turn. */
  lemma {:induction false} EntriesAreRedacted(rules: Rules, entries: seq<Entry>, depth: nat, i: nat)
    requires depth < rules.maxDepth && i < |entries|
    ensures var r := Redact(rules, Object(entries), depth);
            && r.Object? && |r.entries| == |entries| && r.entries[i].key == entries[i].key
            && var key, v := entries[i].key, entries[i].value;
               r.entries[i].value ==
                 if KeychainRef(v) && (Listed(rules, key) || HasTerm(rules, key)) then v
                 else if Listed(rules, key) then Text(rules.redaction)
                 else if HasTerm(rules, key) then
                   if v.Scalar? || (v.Text? && !Leaks(rules, v.s)) then v else Text(rules.redaction)
                 else Redact(rules, v, depth + 1)
  {
    hide SecretValue, Leaks, Placeholder, KeychainRef, BlindKey, SensitiveKey, Listed, HasTerm;
    KeysIff(rules, entries[i].key);
    PlaceholderIff(entries[i].value);
    RefIsObject(entries[i].value);
    if entries[i].value.Text? {
      SecretIff(rules, entries[i].value.s);
    }
    assert Redact(rules, Object(entries), depth).entries[i] == RedactEntry(rules, entries[i], depth);
  }

  lemma RefIsObject(t: Tree)
    ensures KeychainRef(t) ==> t.Object?
  {
  }

  /** The path leads into a reference to the keychain that some entry or item holds. */
  ghost predicate UnderRef(t: Tree, path: seq<nat>)
    decreases |path|
  {
    |path| > 1 && path[0] < |Children(t)| &&
    (KeychainRef(Children(t)[path[0]]) || UnderRef(Children(t)[path[0]], path[1..]))
  }

  /** No text the response shows leaks: above the depth limit and outside references to the
      keychain, every text is the redaction text, or harmless. */
  lemma {:induction false} NoSecretShown(rules: Rules, t: Tree, depth: nat, path: seq<nat>)
    requires depth + |path| < rules.maxDepth && !UnderRef(Redact(rules, t, depth), path)
    ensures var shown := At(Redact(rules, t, depth), path);
            shown.Some? && shown.value.Text? ==> shown.value.s == rules.redaction || !Leaks(rules, shown.value.s)
    decreases |path|
  {
    hide Leaks, KeychainRef, Listed, HasTerm, RedactEntry;
    var r := Redact(rules, t, depth);
    TextsAreRedacted(rules, t, depth);
    if path != [] && path[0] < |Children(r)| {
      var child := Children(r)[path[0]];
      if t.Object? {
        EntriesAreRedacted(rules, t.entries, depth, path[0]);
      }
      if child == Redact(rules, Children(t)[path[0]], depth + 1) {
        NoSecretShown(rules, Children(t)[path[0]], depth + 1, path[1..]);
      } else {
        RefIsObject(child);
        assert path[1..] == [] ==> At(child, path[1..]) == Some(child);
        assert path[1..] != [] && Children(child) == [] ==> At(child, path[1..]).None?;
        assert |path| > 1 ==> !KeychainRef(child);
      }
    }
  }
}
