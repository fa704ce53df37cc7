/** Types shared by the models of the worker and the server. */
module Base {

  /** A value that may be absent: Python's `None`, or a row that no query found. */
  datatype Option<+T> = None | Some(value: T)

  /** A value, or the error a call raised instead of returning one. */
  datatype Result<+T, +E> = Ok(value: T) | Err(error: E)

  /** The lower-case form of an ASCII letter; any other character is unchanged. */
  function LowerChar(c: char): char {
    if 'A' <= c <= 'Z' then (c as int + 32) as char else c
  }

  function Lower(s: string): (r: string)
    ensures |r| == |s|
  {
    seq(|s|, i requires 0 <= i < |s| => LowerChar(s[i]))
  }

  /** The characters `str.strip` removes. */
  predicate IsSpace(c: char) {
    var n := c as int;
    9 <= n <= 13 || 28 <= n <= 32 || n == 0x85 || n == 0xA0 || n == 0x1680 || 0x2000 <= n <= 0x200A ||
    n == 0x2028 || n == 0x2029 || n == 0x202F || n == 0x205F || n == 0x3000
  }

  function StripLeft(s: string): string {
    if s != "" && IsSpace(s[0]) then StripLeft(s[1..]) else s
  }

  function StripRight(s: string): string {
    if s != "" && IsSpace(s[|s| - 1]) then StripRight(s[..|s| - 1]) else s
  }

  function Strip(s: string): string {
    StripRight(StripLeft(s))
  }

  /** No space at either end. */
  predicate Trimmed(s: string) {
    s == "" || (!IsSpace(s[0]) && !IsSpace(s[|s| - 1]))
  }

  lemma {:induction false} StripLeftTrims(s: string)
    ensures var r := StripLeft(s); r == "" || !IsSpace(r[0])
  {
    if s != "" && IsSpace(s[0]) {
      StripLeftTrims(s[1..]);
    }
  }

  lemma {:induction false} StripRightTrims(s: string)
    ensures var r := StripRight(s); r <= s && (r == "" || !IsSpace(r[|r| - 1]))
  {
    if s != "" && IsSpace(s[|s| - 1]) {
      StripRightTrims(s[..|s| - 1]);
    }
  }

  /** Stripping trims, and leaves what is trimmed alone. */
  lemma StripTrims(s: string)
    ensures Trimmed(Strip(s))
    ensures Trimmed(s) ==> Strip(s) == s
  {
    StripLeftTrims(s);
    StripRightTrims(StripLeft(s));
  }

  /** The characters one by one. */
  lemma SpacesListed(c: char)
    ensures IsSpace(c) <==>
            c as int in {9, 10, 11, 12, 13, 28, 29, 30, 31, 32, 0x85, 0xA0, 0x1680,
                         0x2000, 0x2001, 0x2002, 0x2003, 0x2004, 0x2005, 0x2006, 0x2007, 0x2008, 0x2009, 0x200A,
                         0x2028, 0x2029, 0x202F, 0x205F, 0x3000}
  {
  }

  predicate Blank(s: string) {
    forall i | 0 <= i < |s| :: IsSpace(s[i])
  }

  /** The text with spaces around it. */
  ghost predicate Padded(s: string, text: string) {
    exists a: string, b: string :: Blank(a) && Blank(b) && s == a + text + b
  }

  lemma {:induction false} StripLeftDrops(s: string)
    ensures |StripLeft(s)| <= |s| && s[|s| - |StripLeft(s)|..] == StripLeft(s)
    ensures Blank(s[..|s| - |StripLeft(s)|])
  {
    if s != "" && IsSpace(s[0]) {
      StripLeftDrops(s[1..]);
      var n := |s| - |StripLeft(s)|;
      assert s[..n] == [s[0]] + s[1..][..n - 1];
    }
  }

  lemma {:induction false} StripRightDrops(s: string)
    ensures StripRight(s) <= s && Blank(s[|StripRight(s)|..])
  {
    if s != "" && IsSpace(s[|s| - 1]) {
      var front := s[..|s| - 1];
      StripRightDrops(front);
      assert s[|StripRight(s)|..] == front[|StripRight(s)|..] + [s[|s| - 1]];
    }
  }

  lemma {:induction false} StripLeftOf(a: string, s: string)
    requires Blank(a) && (s == "" || !IsSpace(s[0]))
    ensures StripLeft(a + s) == s
  {
    if a != "" {
      assert (a + s)[1..] == a[1..] + s;
      StripLeftOf(a[1..], s);
    } else {
      assert a + s == s;
    }
  }

  lemma {:induction false} StripRightOf(s: string, b: string)
    requires Blank(b) && (s == "" || !IsSpace(s[|s| - 1]))
    ensures StripRight(s + b) == s
  {
    if b != "" {
      assert (s + b)[..|s + b| - 1] == s + b[..|b| - 1];
      StripRightOf(s, b[..|b| - 1]);
    } else {
      assert s + b == s;
    }
  }

  lemma {:induction false} StripLeftOfBlank(a: string)
    requires Blank(a)
    ensures StripLeft(a) == ""
  {
    if a != "" {
      StripLeftOfBlank(a[1..]);
    }
  }

  /** Stripping finds a text exactly in the text with spaces around it. */
  lemma StripIff(s: string, text: string)
    requires Trimmed(text)
    ensures Strip(s) == text <==> Padded(s, text)
  {
    var left := StripLeft(s);
    StripLeftDrops(s);
    StripRightDrops(left);
    if Strip(s) == text {
      var a, b := s[..|s| - |left|], left[|text|..];
      assert s == a + text + b;
    }
    if Padded(s, text) {
      var a, b :| Blank(a) && Blank(b) && s == a + text + b;
      if text == "" {
        assert Blank(s);
        StripLeftOfBlank(s);
      } else {
        assert s == a + (text + b) && (text + b)[0] == text[0];
        StripLeftOf(a, text + b);
        StripRightOf(text, b);
      }
    }
  }

  /** The word in any mix of upper and lower case. */
  predicate CasingOf(s: string, word: string) {
    && |s| == |word|
    && forall i | 0 <= i < |s| :: s[i] == word[i] || ('a' <= word[i] <= 'z' && s[i] as int + 32 == word[i] as int)
  }

  /** Lower case finds a lower-case word exactly in its casings. */
  lemma LowerIff(s: string, word: string)
    requires forall i | 0 <= i < |word| :: !('A' <= word[i] <= 'Z')
    ensures Lower(s) == word <==> CasingOf(s, word)
  {
    if Lower(s) == word {
      forall i | 0 <= i < |s|
        ensures s[i] == word[i] || ('a' <= word[i] <= 'z' && s[i] as int + 32 == word[i] as int)
      {
        assert Lower(s)[i] == LowerChar(s[i]);
      }
    }
  }

  function MaxReal(a: real, b: real): real {
    if a >= b then a else b
  }

  function MinReal(a: real, b: real): real {
    if a <= b then a else b
  }

  function Pow2(n: nat): (r: nat)
    ensures r >= 1
  {
    if n == 0 then 1 else 2 * Pow2(n - 1)
  }
}
