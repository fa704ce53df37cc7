/** The response redactor: a recursive pass over a JSON-like tree that replaces what the
    key or the shape of a value marks as secret. */
module Sanitize {
  import opened Base

  /** Numbers, booleans and null pass through alike. */
  datatype Tree = Scalar(text: string) | Text(s: string) | Object(entries: seq<Entry>)
    | List(items: seq<Tree>) | Tuple(items: seq<Tree>)

  datatype Entry = Entry(key: string, value: Tree)

  /** The caller's keys (normalized) and secrets, the built-in sensitive terms, and the
      value patterns as an oracle. */
  datatype Rules = Rules(
    additionalKeys: set<string>, secrets: set<string>, redaction: string, maxDepth: int,
    sensitiveTerms: set<string>, shaped: string -> bool)

  // ---------------------------------------------------------------------------
  // Classification

  predicate OccursAt(s: string, part: string, i: nat) {
    i + |part| <= |s| && s[i..i + |part|] == part
  }

  predicate Contains(s: string, part: string) {
    exists i: nat | i <= |s| :: OccursAt(s, part, i)
  }

  function NormalizeKey(key: string): string {
    seq(|key|, i requires 0 <= i < |key| => if key[i] == '-' then '_' else LowerChar(key[i]))
  }

  predicate BlindKey(rules: Rules, key: string) {
    NormalizeKey(key) in rules.additionalKeys
  }

  predicate SensitiveKey(rules: Rules, key: string) {
    exists term | term in rules.sensitiveTerms :: Contains(NormalizeKey(key), term)
  }

  predicate LooksLikeTemplateOrCode(s: string) {
    Contains(s, "{{") || Contains(s, "}}") || Contains(s, "={") || Contains(s, "def ") ||
    Contains(s, "import ") || Contains(s, "return ") || Contains(s, "class ") || Contains(s, "async def ")
  }

  predicate SecretValue(rules: Rules, s: string) {
    s != "" &&
    (s in rules.secrets ||
     (exists secret | secret in rules.secrets :: |secret| >= 8 && Contains(s, secret)) ||
     (!LooksLikeTemplateOrCode(s) && rules.shaped(s)))
  }

  /** The value of a key, as a dictionary lookup. */
  function Lookup(entries: seq<Entry>, key: string): Option<Tree> {
    if entries == [] then None
    else if entries[0].key == key then Some(entries[0].value)
    else Lookup(entries[1..], key)
  }

  predicate Placeholder(t: Tree) {
    t.Object? &&
    var ref := Lookup(t.entries, "$noetl_ref");
    ref.Some? && ref.value.Object? && Lookup(ref.value.entries, "kind") == Some(Text("keychain"))
  }

  // ---------------------------------------------------------------------------
  // Redaction

  function RedactText(rules: Rules, t: Tree): Tree
    requires t.Text?
  {
    if SecretValue(rules, t.s) then Text(rules.redaction) else t
  }

  /** The value of one dictionary entry; entries of neither kind of key recurse. */
  function RedactEntry(rules: Rules, e: Entry, depth: nat): Entry
    decreases e, 0
  {
    if BlindKey(rules, e.key) then
      if Placeholder(e.value) then e else e.(value := Text(rules.redaction))
    else if SensitiveKey(rules, e.key) then
      if e.value.Text? then e.(value := RedactText(rules, e.value))
      else if Placeholder(e.value) || e.value.Scalar? then e
      else e.(value := Text(rules.redaction))
    else e.(value := Redact(rules, e.value, depth + 1))
  }

  function Redact(rules: Rules, t: Tree, depth: nat): Tree
    decreases t, 1
  {
    if depth >= rules.maxDepth then t
    else
      match t
      case Object(entries) =>
        Object(seq(|entries|, i requires 0 <= i < |entries| => RedactEntry(rules, entries[i], depth)))
      case List(items) =>
        List(seq(|items|, i requires 0 <= i < |items| => Redact(rules, items[i], depth + 1)))
      case Tuple(items) =>
        Tuple(seq(|items|, i requires 0 <= i < |items| => Redact(rules, items[i], depth + 1)))
      case Text(_) => RedactText(rules, t)
      case Scalar(_) => t
  }

  method RedactResponse(rules: Rules, t: Tree, depth: nat) returns (r: Tree)
    ensures r == Redact(rules, t, depth)
    decreases t
  {
    if depth >= rules.maxDepth {
      return t;
    }
    match t
    case Object(entries) =>
      var result: seq<Entry> := [];
      for i := 0 to |entries|
        invariant |result| == i
        invariant forall j | 0 <= j < i :: result[j] == RedactEntry(rules, entries[j], depth)
      {
        var e := entries[i];
        if BlindKey(rules, e.key) {
          result := result + [if Placeholder(e.value) then e else Entry(e.key, Text(rules.redaction))];
        } else if SensitiveKey(rules, e.key) {
          if e.value.Text? {
            result := result + [Entry(e.key, if SecretValue(rules, e.value.s) then Text(rules.redaction) else e.value)];
          } else if Placeholder(e.value) {
            result := result + [e];
          } else if e.value.Object? || e.value.List? || e.value.Tuple? {
            result := result + [Entry(e.key, Text(rules.redaction))];
          } else {
            result := result + [e];
          }
        } else {
          var v := RedactResponse(rules, e.value, depth + 1);
          result := result + [Entry(e.key, v)];
        }
      }
      r := Object(result);
    case List(items) =>
      var done := RedactAll(rules, items, depth);
      r := List(done);
    case Tuple(items) =>
      var done := RedactAll(rules, items, depth);
      r := Tuple(done);
    case Text(s) =>
      r := if SecretValue(rules, s) then Text(rules.redaction) else t;
    case Scalar(_) =>
      r := t;
  }

  method RedactAll(rules: Rules, items: seq<Tree>, depth: nat) returns (done: seq<Tree>)
    ensures |done| == |items|
    ensures forall i | 0 <= i < |items| :: done[i] == Redact(rules, items[i], depth + 1)
    decreases items
  {
    done := [];
    for i := 0 to |items|
      invariant |done| == i
      invariant forall j | 0 <= j < i :: done[j] == Redact(rules, items[j], depth + 1)
    {
      var v := RedactResponse(rules, items[i], depth + 1);
      done := done + [v];
    }
  }

  // ---------------------------------------------------------------------------
  // What redaction guarantees

  predicate CleanText(rules: Rules, s: string) {
    s == rules.redaction || !SecretValue(rules, s)
  }

  /** Nothing down to the depth limit shows a secret: a blindly redacted key holds the
      redaction text or a keychain placeholder, a sensitive key holds no container but a
      placeholder, and every text is the redaction text or not secret-shaped. */
  predicate Clean(rules: Rules, t: Tree, depth: nat)
    decreases t, 1
  {
    depth < rules.maxDepth ==>
      match t
      case Object(entries) => forall i | 0 <= i < |entries| :: CleanEntry(rules, entries[i], depth)
      case List(items) => forall i | 0 <= i < |items| :: Clean(rules, items[i], depth + 1)
      case Tuple(items) => forall i | 0 <= i < |items| :: Clean(rules, items[i], depth + 1)
      case Text(s) => CleanText(rules, s)
      case Scalar(_) => true
  }

  predicate CleanEntry(rules: Rules, e: Entry, depth: nat)
    decreases e, 0
  {
    var v := e.value;
    if BlindKey(rules, e.key) then Placeholder(v) || v == Text(rules.redaction)
    else if SensitiveKey(rules, e.key) then Placeholder(v) || v.Scalar? || (v.Text? && CleanText(rules, v.s))
    else Clean(rules, v, depth + 1)
  }

  lemma {:induction false} RedactCleansEntry(rules: Rules, e: Entry, depth: nat)
    ensures CleanEntry(rules, RedactEntry(rules, e, depth), depth)
    decreases e, 0
  {
    hide BlindKey, SensitiveKey, Placeholder, SecretValue, Redact, Clean;
    if !BlindKey(rules, e.key) && !SensitiveKey(rules, e.key) {
      RedactCleans(rules, e.value, depth + 1);
    }
  }

  /** What redaction returns is clean, for every tree and every set of rules. */
  lemma {:induction false} RedactCleans(rules: Rules, t: Tree, depth: nat)
    ensures Clean(rules, Redact(rules, t, depth), depth)
    decreases t, 1
  {
    hide SecretValue, RedactEntry, CleanEntry;
    if depth < rules.maxDepth {
      match t
      case Object(entries) =>
        forall i | 0 <= i < |entries|
          ensures CleanEntry(rules, RedactEntry(rules, entries[i], depth), depth)
        {
          RedactCleansEntry(rules, entries[i], depth);
        }
      case List(items) =>
        forall i | 0 <= i < |items| { RedactCleans(rules, items[i], depth + 1); }
      case Tuple(items) =>
        forall i | 0 <= i < |items| { RedactCleans(rules, items[i], depth + 1); }
      case Text(_) =>
      case Scalar(_) =>
    }
  }

  lemma {:induction false} EntryUnchangedIffClean(rules: Rules, e: Entry, depth: nat)
    ensures RedactEntry(rules, e, depth) == e <==> CleanEntry(rules, e, depth)
    decreases e, 0
  {
    hide BlindKey, SensitiveKey, Lookup, SecretValue, Redact, Clean;
    UnchangedIffClean(rules, e.value, depth + 1);
  }

  /** Redaction leaves a tree alone exactly when it is clean. */
  lemma {:induction false} UnchangedIffClean(rules: Rules, t: Tree, depth: nat)
    ensures Redact(rules, t, depth) == t <==> Clean(rules, t, depth)
    decreases t, 1
  {
    hide SecretValue, RedactEntry, CleanEntry;
    if depth < rules.maxDepth {
      match t
      case Object(entries) =>
        forall i | 0 <= i < |entries|
          ensures RedactEntry(rules, entries[i], depth) == entries[i] <==> CleanEntry(rules, entries[i], depth)
        {
          EntryUnchangedIffClean(rules, entries[i], depth);
        }
        SameSeq(Redact(rules, t, depth).entries, entries);
      case List(items) =>
        forall i | 0 <= i < |items| { UnchangedIffClean(rules, items[i], depth + 1); }
        SameSeq(Redact(rules, t, depth).items, items);
      case Tuple(items) =>
        forall i | 0 <= i < |items| { UnchangedIffClean(rules, items[i], depth + 1); }
        SameSeq(Redact(rules, t, depth).items, items);
      case Text(_) =>
      case Scalar(_) =>
    }
  }

  lemma SameSeq<T>(a: seq<T>, b: seq<T>)
    requires |a| == |b|
    ensures a == b <==> forall i | 0 <= i < |a| :: a[i] == b[i]
  {
  }

  /** Redacting twice is redacting once, whatever the redaction text: even one that is
      itself secret-shaped. */
  lemma {:induction false} RedactionIsStable(rules: Rules, t: Tree, depth: nat)
    ensures Redact(rules, Redact(rules, t, depth), depth) == Redact(rules, t, depth)
  {
    RedactCleans(rules, t, depth);
    UnchangedIffClean(rules, Redact(rules, t, depth), depth);
  }

  // ---------------------------------------------------------------------------
  // What redaction keeps

  function Children(t: Tree): seq<Tree> {
    match t
    case Object(entries) => seq(|entries|, i requires 0 <= i < |entries| => entries[i].value)
    case List(items) => items
    case Tuple(items) => items
    case _ => []
  }

  /** The part of a tree at a path of child positions. */
  function At(t: Tree, path: seq<nat>): Option<Tree>
    decreases |path|
  {
    if path == [] then Some(t)
    else if path[0] < |Children(t)| then At(Children(t)[path[0]], path[1..])
    else None
  }

  /** Two containers of the same kind and size, dictionaries with the same keys. */
  predicate SameContainer(t: Tree, r: Tree) {
    match (t, r)
    case (Object(es), Object(rs)) => |es| == |rs| && forall i | 0 <= i < |es| :: es[i].key == rs[i].key
    case (List(xs), List(ys)) => |xs| == |ys|
    case (Tuple(xs), Tuple(ys)) => |xs| == |ys|
    case _ => false
  }

  /** Redaction invents nothing and moves nothing: whatever stands at a path of the
      result stood there before, or is the redaction text, or is a container of the same
      kind, size and keys as the one that stood there. */
  lemma {:induction false} NothingInvented(rules: Rules, t: Tree, depth: nat, path: seq<nat>)
    ensures var r := At(Redact(rules, t, depth), path);
            r.Some? ==>
              var was := At(t, path);
              was.Some? && (r == was || r.value == Text(rules.redaction) || SameContainer(was.value, r.value))
    decreases |path|
  {
    hide BlindKey, SensitiveKey, Placeholder, SecretValue;
    var r := Redact(rules, t, depth);
    if path != [] && depth < rules.maxDepth && path[0] < |Children(r)| {
      var child := Children(t)[path[0]];
      if t.Object? && Children(r)[path[0]] != Redact(rules, child, depth + 1) {
        if Children(r)[path[0]] == Text(rules.redaction) {
          assert At(Children(r)[path[0]], path[1..]).Some? ==> path[1..] == [];
        }
      } else {
        NothingInvented(rules, child, depth + 1, path[1..]);
      }
    }
  }

  /** A keychain placeholder under a sensitive or blindly redacted key survives. */
  lemma {:induction false} PlaceholderSurvives(rules: Rules, t: Tree, depth: nat, i: nat)
    requires t.Object? && i < |t.entries| && Placeholder(t.entries[i].value)
    requires BlindKey(rules, t.entries[i].key) || SensitiveKey(rules, t.entries[i].key)
    ensures At(Redact(rules, t, depth), [i]) == Some(t.entries[i].value)
  {
    assert [i][1..] == [];
  }
}
