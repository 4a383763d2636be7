/** The string operations the reconciliation scripts apply to labels, dates and amounts. */
module Text {

  /** The non-breaking space that spreadsheet labels carry. */
  const Nbsp: char := '\U{A0}'

  /** The characters Python's `str.isspace` accepts, which are exactly the ones
      `str.strip()` and `str.rstrip()` (called without arguments) remove. */
  predicate IsSpace(c: char) {
    ('\t' <= c <= '\r') || ('\U{1C}' <= c <= '\U{1F}') || c == ' '
    || c == '\U{85}' || c == Nbsp || c == '\U{1680}'
    || ('\U{2000}' <= c <= '\U{200A}') || c == '\U{2028}' || c == '\U{2029}'
    || c == '\U{202F}' || c == '\U{205F}' || c == '\U{3000}'
  }

  /** A string with no trailing whitespace, the shape every result of `RStrip` has. */
  predicate RStripped(s: string) {
    s == [] || !IsSpace(s[|s| - 1])
  }

  /** `str.rstrip()`: the longest prefix of `s` that does not end in whitespace. */
  function RStrip(s: string): (r: string)
    ensures r <= s
    ensures RStripped(r)
    ensures forall i :: |r| <= i < |s| ==> IsSpace(s[i])
  {
    if |s| > 0 && IsSpace(s[|s| - 1]) then RStrip(s[..|s| - 1]) else s
  }

  /** `str.lstrip()`: the longest suffix of `s` that does not start with whitespace. */
  function LStrip(s: string): (r: string)
    ensures |r| <= |s| && r == s[|s| - |r|..]
    ensures r == [] || !IsSpace(r[0])
    ensures forall i :: 0 <= i < |s| - |r| ==> IsSpace(s[i])
  {
    if |s| > 0 && IsSpace(s[0]) then LStrip(s[1..]) else s
  }

  /** `r` is what lies between positions `k` and `k + |r|` of `t`, and every character of `t`
      outside that stretch is whitespace. */
  predicate TrimmedAt(t: string, r: string, k: int) {
    0 <= k && k + |r| <= |t| && r == t[k..k + |r|]
    && (forall i :: 0 <= i < k ==> IsSpace(t[i]))
    && (forall i :: k + |r| <= i < |t| ==> IsSpace(t[i]))
  }

  /** A suffix `r` of a prefix `u` of `s` that leaves only whitespace around it in `s`. */
  lemma TrimmedAtEnds(s: string, u: string, r: string)
    requires u <= s && |r| <= |u| && r == u[|u| - |r|..]
    requires forall i :: 0 <= i < |u| - |r| ==> IsSpace(u[i])
    requires forall i :: |u| <= i < |s| ==> IsSpace(s[i])
    ensures TrimmedAt(s, r, |u| - |r|)
  {
    var k := |u| - |r|;
    assert u == s[..|u|];
    assert r == s[k..k + |r|];
    forall i | 0 <= i < k ensures IsSpace(s[i]) {
      assert s[i] == u[i];
    }
  }

  /** Trimming keeps only characters of the trimmed string. */
  lemma TrimmedKeepsChars(t: string, r: string)
    requires exists k :: TrimmedAt(t, r, k)
    ensures forall c :: c in r ==> c in t
  {
    var k :| TrimmedAt(t, r, k);
    forall c | c in r ensures c in t {
      var j :| 0 <= j < |r| && r[j] == c;
      assert t[k + j] == c;
    }
  }

  /** `str.strip()`: whitespace removed at both ends, and nothing else. */
  function Strip(s: string): (r: string)
    ensures exists k :: TrimmedAt(s, r, k)
    ensures r == [] || (!IsSpace(r[0]) && !IsSpace(r[|r| - 1]))
  {
    var u := RStrip(s);
    var r := LStrip(u);
    TrimmedAtEnds(s, u, r);
    r
  }

  /** `str.replace(c, '')` for a one-character pattern: every `c` removed, the rest kept in order. */
  function RemoveChar(s: string, c: char): (r: string)
    ensures c !in r
    ensures forall x :: x in r <==> x in s && x != c
  {
    if s == [] then []
    else
      assert s == [s[0]] + s[1..];
      (if s[0] == c then [] else [s[0]]) + RemoveChar(s[1..], c)
  }

  /** `str.replace(a, b)` for one-character patterns: every `a` becomes `b`, nothing else moves. */
  function ReplaceChar(s: string, a: char, b: char): (r: string)
    ensures |r| == |s|
    ensures a != b ==> a !in r
    ensures forall i :: 0 <= i < |s| && s[i] != a ==> r[i] == s[i]
    ensures forall i :: 0 <= i < |s| && s[i] == a ==> r[i] == b
  {
    seq(|s|, i requires 0 <= i < |s| => if s[i] == a then b else s[i])
  }

  /** The text step of `clean_dollar_amount`: drop every `$` and every `,`, then trim
      both ends; the result is what `float` is asked to parse. */
  function CleanDollarText(s: string): (r: string)
    ensures '$' !in r && ',' !in r
    ensures exists k :: TrimmedAt(RemoveChar(RemoveChar(s, '$'), ','), r, k)
    ensures r == [] || (!IsSpace(r[0]) && !IsSpace(r[|r| - 1]))
  {
    var t := RemoveChar(RemoveChar(s, '$'), ',');
    var r := Strip(t);
    TrimmedKeepsChars(t, r);
    r
  }

  /** A string already free of trailing whitespace is its own `rstrip`. */
  lemma RStripIdentity(s: string)
    requires RStripped(s)
    ensures RStrip(s) == s
  {
  }

  /** `rstrip` is idempotent. */
  lemma RStripIdempotent(s: string)
    ensures RStrip(RStrip(s)) == RStrip(s)
  {
    RStripIdentity(RStrip(s));
  }

  /** `replace(c, '')` shortens the text by exactly the number of occurrences of `c`. */
  lemma {:induction false} RemoveCharCount(s: string, c: char)
    ensures |RemoveChar(s, c)| + multiset(s)[c] == |s|
  {
    if s != [] {
      assert s == [s[0]] + s[1..];
      RemoveCharCount(s[1..], c);
    }
  }

  /** Removing a character distributes over concatenation, so surviving characters keep their order. */
  lemma {:induction false} RemoveCharConcat(s: string, t: string, c: char)
    ensures RemoveChar(s + t, c) == RemoveChar(s, c) + RemoveChar(t, c)
  {
    if s == [] {
      assert s + t == t;
    } else {
      assert (s + t)[0] == s[0];
      assert (s + t)[1..] == s[1..] + t;
      RemoveCharConcat(s[1..], t, c);
    }
  }

  /** Replacing one whitespace character by another cannot create trailing whitespace:
      the last character of a right-stripped string is not whitespace, so it is never replaced. */
  lemma ReplaceKeepsRStripped(s: string, a: char, b: char)
    requires IsSpace(a)
    requires RStripped(s)
    ensures RStripped(ReplaceChar(s, a, b))
    ensures RStrip(ReplaceChar(s, a, b)) == ReplaceChar(s, a, b)
  {
    var r := ReplaceChar(s, a, b);
    if |s| > 0 {
      assert s[|s| - 1] != a;
      assert r[|r| - 1] == s[|s| - 1];
    }
    RStripIdentity(r);
  }

  /** Text without `$`, `,` or surrounding whitespace passes through the cleaning step unchanged. */
  lemma CleanDollarTextIdentity(s: string)
    requires '$' !in s && ',' !in s
    requires s == [] || (!IsSpace(s[0]) && !IsSpace(s[|s| - 1]))
    ensures CleanDollarText(s) == s
  {
    RemoveCharAbsent(s, '$');
    RemoveCharAbsent(s, ',');
    RStripIdentity(s);
  }

  /** Removing a character that does not occur changes nothing. */
  lemma {:induction false} RemoveCharAbsent(s: string, c: char)
    requires c !in s
    ensures RemoveChar(s, c) == s
  {
    if s != [] {
      assert s[0] in s;
      assert forall x :: x in s[1..] ==> x in s;
      RemoveCharAbsent(s[1..], c);
      assert s == [s[0]] + s[1..];
    }
  }
}
