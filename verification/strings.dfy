/** The JavaScript string operations the core relies on, over `seq<char>`:
    `indexOf`/`includes`, `replace` with a string pattern (first occurrence
    only, with the `$` substitution patterns of a replacement string),
    `trim` and an ASCII `toLowerCase`. */
module Strings {
  import opened Wrappers

  /** `p` occurs in `s` starting at index `i`. */
  predicate OccursAt(s: string, p: string, i: int) {
    0 <= i && i + |p| <= |s| && s[i..i + |p|] == p
  }

  /** `s.includes(p)`. */
  predicate Contains(s: string, p: string) {
    exists i :: 0 <= i <= |s| - |p| && OccursAt(s, p, i)
  }

  /** `s.indexOf(p, from)`, with `None` for -1. */
  function IndexOfFrom(s: string, p: string, from: nat): (r: Option<nat>)
    ensures r.Some? ==> from <= r.value && OccursAt(s, p, r.value)
    ensures r.Some? ==> forall j :: from <= j < r.value ==> !OccursAt(s, p, j)
    ensures r.None? ==> forall j :: from <= j ==> !OccursAt(s, p, j)
    decreases |s| - from
  {
    if from + |p| > |s| then None
    else if s[from..from + |p|] == p then Some(from)
    else IndexOfFrom(s, p, from + 1)
  }

  /** `s.indexOf(p)`: the first occurrence, if any. */
  function IndexOf(s: string, p: string): (r: Option<nat>)
    ensures r.Some? ==> OccursAt(s, p, r.value)
    ensures r.Some? ==> forall j :: j < r.value ==> !OccursAt(s, p, j)
    ensures r.None? <==> !Contains(s, p)
  {
    IndexOfFrom(s, p, 0)
  }

  /** The expansion of a replacement string (GetSubstitution of
      ECMAScript, section 22.1.3.19.1) for a string pattern, which has no
      capture groups: `$$` is `$`, `$&` the matched text, `` $` `` the text
      before the match, `$'` the text after it; any other `$` (including
      `$1` and `$<`) stands for itself. */
  function Expand(rep: string, matched: string, before: string, after: string): string
    decreases |rep|
  {
    if |rep| == 0 then []
    else if rep[0] == '$' && |rep| >= 2 && rep[1] == '$' then "$" + Expand(rep[2..], matched, before, after)
    else if rep[0] == '$' && |rep| >= 2 && rep[1] == '&' then matched + Expand(rep[2..], matched, before, after)
    else if rep[0] == '$' && |rep| >= 2 && rep[1] == '`' then before + Expand(rep[2..], matched, before, after)
    else if rep[0] == '$' && |rep| >= 2 && rep[1] == '\'' then after + Expand(rep[2..], matched, before, after)
    else [rep[0]] + Expand(rep[1..], matched, before, after)
  }

  /** A replacement string without `$` is inserted verbatim. */
  lemma {:induction false} ExpandPlain(rep: string, matched: string, before: string, after: string)
    requires '$' !in rep
    ensures Expand(rep, matched, before, after) == rep
    decreases |rep|
  {
    if |rep| > 0 {
      assert rep[0] != '$';
      assert forall c :: c in rep[1..] ==> c in rep;
      ExpandPlain(rep[1..], matched, before, after);
      assert rep == [rep[0]] + rep[1..];
    }
  }

  /** `s.replace(p, rep)` with a string pattern: only the first occurrence
      of `p` is replaced; without an occurrence `s` is returned. */
  function ReplaceFirst(s: string, p: string, rep: string): (r: string)
    ensures !Contains(s, p) ==> r == s
    ensures Contains(s, p) && '$' !in rep ==> |r| == |s| - |p| + |rep|
  {
    match IndexOf(s, p)
    case None => s
    case Some(i) =>
      var before := s[..i];
      var after := s[i + |p|..];
      if '$' !in rep then ExpandPlain(rep, p, before, after); before + rep + after
      else before + Expand(rep, p, before, after) + after
  }

  /** When the first occurrence of `p` is at `i`, the replacement splices
      the expansion in at `i` and keeps both sides verbatim. */
  lemma ReplaceFirstAt(s: string, p: string, rep: string, i: int)
    requires OccursAt(s, p, i)
    requires forall j :: j < i ==> !OccursAt(s, p, j)
    ensures ReplaceFirst(s, p, rep) == s[..i] + Expand(rep, p, s[..i], s[i + |p|..]) + s[i + |p|..]
  {
    assert IndexOf(s, p) == Some(i);
    if '$' !in rep {
      ExpandPlain(rep, p, s[..i], s[i + |p|..]);
    }
  }

  /** Only the first occurrence is replaced: every later occurrence of `p`
      survives, shifted by the change in length. */
  lemma ReplaceFirstKeepsLater(s: string, p: string, rep: string, i: int, j: int)
    requires OccursAt(s, p, i)
    requires forall k :: k < i ==> !OccursAt(s, p, k)
    requires OccursAt(s, p, j) && j >= i + |p|
    ensures OccursAt(ReplaceFirst(s, p, rep), p, j - |p| + |Expand(rep, p, s[..i], s[i + |p|..])|)
  {
    ReplaceFirstAt(s, p, rep, i);
    var e := Expand(rep, p, s[..i], s[i + |p|..]);
    var r := s[..i] + e + s[i + |p|..];
    var d := j - |p| + |e|;
    forall k | 0 <= k < |p|
      ensures r[d + k] == p[k]
    {
      assert r[d + k] == s[i + |p|..][j - i - |p| + k] == s[j + k];
      assert s[j..j + |p|][k] == s[j + k];
    }
    assert r[d..d + |p|] == p;
  }

  /** A repeated token keeps its second copy: `"{x} et {x}"` becomes
      `"y et {x}"`. */
  lemma ReplaceFirstRepeatedToken()
    ensures ReplaceFirst("{x} et {x}", "{x}", "y") == "y et {x}"
  {
    var s := "{x} et {x}";
    assert OccursAt(s, "{x}", 0);
    ReplaceFirstAt(s, "{x}", "y", 0);
    assert s[3..] == " et {x}";
  }

  // ----- Placeholders `{name}` -----

  /** A placeholder token: `{`, a name free of braces, `}`. */
  predicate IsPlaceholder(p: string) {
    && |p| >= 2
    && p[0] == '{' && p[|p| - 1] == '}'
    && '{' !in p[1..] && '}' !in p[..|p| - 1]
  }

  /** A prefix without the first character of `p` hides no occurrence:
      the occurrences of `p` in `a + b` are exactly those in `b`, shifted. */
  lemma PeelText(a: string, b: string, p: string)
    requires |p| > 0 && p[0] !in a
    ensures forall j :: OccursAt(a + b, p, j) <==> j >= |a| && OccursAt(b, p, j - |a|)
  {
    var s := a + b;
    forall j | 0 <= j < |a|
      ensures !OccursAt(s, p, j)
    {
      if j + |p| <= |s| {
        assert s[j..j + |p|][0] == a[j];
      }
    }
    ShiftedWindows(a, b, p);
  }

  /** Windows of `a + b` that start at or after `|a|` are windows of `b`. */
  lemma ShiftedWindows(a: string, b: string, p: string)
    ensures forall j :: |a| <= j ==> (OccursAt(a + b, p, j) <==> OccursAt(b, p, j - |a|))
  {
    forall j | |a| <= j && j + |p| <= |a + b|
      ensures OccursAt(a + b, p, j) <==> OccursAt(b, p, j - |a|)
    {
      assert (a + b)[j..j + |p|] == b[j - |a|..j - |a| + |p|];
    }
  }

  /** A different placeholder at the front hides no occurrence of `p`. */
  lemma PeelHole(q: string, b: string, p: string)
    requires IsPlaceholder(q) && IsPlaceholder(p) && q != p
    ensures forall j :: OccursAt(q + b, p, j) <==> j >= |q| && OccursAt(b, p, j - |q|)
  {
    var s := q + b;
    if |p| <= |s| {
      var w := s[..|p|];
      if |p| < |q| {
        // the window ends inside the name of `q`, where no `}` appears
        assert q[..|q| - 1][|p| - 1] == q[|p| - 1] == w[|p| - 1];
        assert w[|p| - 1] != p[|p| - 1];
      } else if |p| == |q| {
        assert w == q;
      } else {
        // `q` closes inside the window, where `p` has no `}`
        assert w[|q| - 1] == q[|q| - 1];
        assert p[..|p| - 1][|q| - 1] == p[|q| - 1];
        assert w[|q| - 1] != p[|q| - 1];
      }
      assert w != p;
    }
    forall j | 0 < j < |q|
      ensures !OccursAt(s, p, j)
    {
      if j + |p| <= |s| {
        assert q[1..][j - 1] == q[j] == s[j..j + |p|][0];
      }
    }
    ShiftedWindows(q, b, p);
  }

  /** A placeholder at the front occurs at 0 and nowhere else inside itself. */
  lemma PeelSame(p: string, b: string)
    requires IsPlaceholder(p)
    ensures forall j :: OccursAt(p + b, p, j) <==> j == 0 || (j >= |p| && OccursAt(b, p, j - |p|))
  {
    var s := p + b;
    assert s[..|p|] == p;
    forall j | 0 < j < |p|
      ensures !OccursAt(s, p, j)
    {
      if j + |p| <= |s| {
        assert p[1..][j - 1] == p[j] == s[j..j + |p|][0];
      }
    }
    ShiftedWindows(p, b, p);
  }

  /** Behind brace-free text, the placeholder `p` is found first where it
      stands, and the replacement's expansion is spliced in there. */
  lemma ReplaceAfterText(a: string, p: string, b: string, rep: string)
    requires '{' !in a && IsPlaceholder(p)
    ensures ReplaceFirst(a + p + b, p, rep) == a + Expand(rep, p, a, b) + b
  {
    var s := a + p + b;
    assert s == a + (p + b);
    PeelText(a, p + b, p);
    PeelSame(p, b);
    ReplaceFirstAt(s, p, rep, |a|);
    assert s[..|a|] == a && s[|a| + |p|..] == b;
  }

  /** As above, with a `$`-free replacement inserted verbatim. */
  lemma ReplaceAfterPlain(a: string, p: string, b: string, rep: string)
    requires '{' !in a && IsPlaceholder(p) && '$' !in rep
    ensures ReplaceFirst(a + p + b, p, rep) == a + rep + b
  {
    ReplaceAfterText(a, p, b, rep);
    ExpandPlain(rep, p, a, b);
  }

  /** A `$`-free prefix of a replacement string is copied verbatim. */
  lemma {:induction false} ExpandPlainPrefix(a: string, rep: string, matched: string, before: string, after: string)
    requires '$' !in a
    ensures Expand(a + rep, matched, before, after) == a + Expand(rep, matched, before, after)
    decreases |a|
  {
    if |a| > 0 {
      var e := Expand(rep, matched, before, after);
      assert (a + rep)[0] == a[0] != '$';
      assert (a + rep)[1..] == a[1..] + rep;
      assert forall c :: c in a[1..] ==> c in a;
      ExpandPlainPrefix(a[1..], rep, matched, before, after);
      assert Expand(a + rep, matched, before, after) == [a[0]] + (a[1..] + e);
      assert [a[0]] + (a[1..] + e) == a + e;
    } else {
      assert a + rep == rep;
    }
  }

  /** `$$` in a replacement string stands for a single `$`. */
  lemma ExpandDollarDollar(rest: string, matched: string, before: string, after: string)
    ensures Expand("$$" + rest, matched, before, after) == "$" + Expand(rest, matched, before, after)
  {
    assert ("$$" + rest)[2..] == rest;
  }

  /** Between `$`-free text, `$$` collapses to one `$`. */
  lemma ExpandEscapedDollar(lead: string, tail: string, matched: string, before: string, after: string)
    requires '$' !in lead && '$' !in tail
    ensures Expand(lead + "$$" + tail, matched, before, after) == lead + "$" + tail
  {
    assert lead + "$$" + tail == lead + ("$$" + tail);
    ExpandPlainPrefix(lead, "$$" + tail, matched, before, after);
    ExpandDollarDollar(tail, matched, before, after);
    ExpandPlain(tail, matched, before, after);
    assert lead + ("$" + tail) == lead + "$" + tail;
  }

  /** The middle of a three-part concatenation occurs where it stands. */
  lemma OccursInMiddle(x: string, c: string, y: string, z: string)
    ensures OccursAt(x + c + y + z, c, |x|)
  {
    assert (x + c + y + z)[|x|..|x| + |c|] == c;
  }

  /** Text without `{` contains no placeholder. */
  lemma NoBraceNoPlaceholder(s: string, p: string)
    requires '{' !in s && IsPlaceholder(p)
    ensures !Contains(s, p)
  {
    forall i | 0 <= i < |s|
      ensures !OccursAt(s, p, i)
    {
      if i + |p| <= |s| {
        assert s[i..i + |p|][0] == s[i];
      }
    }
  }

  // ----- trim -----

  /** ECMAScript WhiteSpace and LineTerminator code points, which
      `String.prototype.trim` strips (section 12.2 and 12.3 of ECMA-262). */
  predicate IsWhitespace(c: char) {
    || c == '\t' || c == '\n' || c == '\U{B}' || c == '\U{C}' || c == '\r' || c == ' '
    || c == '\U{A0}' || c == '\U{1680}' || ('\U{2000}' <= c <= '\U{200A}')
    || c == '\U{2028}' || c == '\U{2029}' || c == '\U{202F}' || c == '\U{205F}'
    || c == '\U{3000}' || c == '\U{FEFF}'
  }

  predicate IsBlank(s: string) {
    forall i :: 0 <= i < |s| ==> IsWhitespace(s[i])
  }

  /** The number of leading whitespace characters of `s`. */
  function LeadingSpace(s: string): (n: nat)
    ensures n <= |s|
    ensures IsBlank(s[..n])
    ensures n < |s| ==> !IsWhitespace(s[n])
  {
    if |s| > 0 && IsWhitespace(s[0]) then
      var n := 1 + LeadingSpace(s[1..]);
      assert forall i :: 1 <= i < n ==> s[..n][i] == s[1..][..n - 1][i - 1];
      n
    else 0
  }

  /** The number of trailing whitespace characters of `s`. */
  function TrailingSpace(s: string): (n: nat)
    ensures n <= |s|
    ensures IsBlank(s[|s| - n..])
    ensures n < |s| ==> !IsWhitespace(s[|s| - n - 1])
  {
    if |s| > 0 && IsWhitespace(s[|s| - 1]) then
      var n := 1 + TrailingSpace(s[..|s| - 1]);
      assert s[|s| - n..] == s[..|s| - 1][|s| - n..] + [s[|s| - 1]];
      n
    else 0
  }

  /** `s.trimStart()`. */
  function TrimStart(s: string): string {
    s[LeadingSpace(s)..]
  }

  /** `s.trimEnd()`. */
  function TrimEnd(s: string): string {
    s[..|s| - TrailingSpace(s)]
  }

  /** `s.trim()`: neither end of the result is whitespace, and only
      whitespace was removed. */
  function Trim(s: string): (r: string)
    ensures |r| > 0 ==> !IsWhitespace(r[0]) && !IsWhitespace(r[|r| - 1])
    ensures exists k :: 0 <= k <= |s| - |r| && r == s[k..k + |r|] && IsBlank(s[..k]) && IsBlank(s[k + |r|..])
  {
    var k := LeadingSpace(s);
    var m := TrailingSpace(s[k..]);
    SliceOfDrop(s, k, m);
    TrimEnd(TrimStart(s))
  }

  /** Cutting `m` from the end of `s[k..]`. */
  lemma SliceOfDrop(s: string, k: nat, m: nat)
    requires k + m <= |s|
    ensures s[k..][..|s| - k - m] == s[k..|s| - m]
    ensures s[k..][|s| - k - m..] == s[|s| - m..]
  {
  }

  /** `!s.trim()` holds exactly for blank strings (the empty string included). */
  lemma TrimEmptyIffBlank(s: string)
    ensures Trim(s) == [] <==> IsBlank(s)
  {
    if Trim(s) == [] {
      var k :| 0 <= k <= |s| && IsBlank(s[..k]) && IsBlank(s[k..]);
      forall i | 0 <= i < |s|
        ensures IsWhitespace(s[i])
      {
        if i < k {
          assert s[..k][i] == s[i];
        } else {
          assert s[k..][i - k] == s[i];
        }
      }
    }
  }

  // ----- toLowerCase -----

  /** ASCII lower-casing of one character. */
  function LowerChar(c: char): (r: char)
    ensures 'A' <= c <= 'Z' ==> 'a' <= r <= 'z' && r as int - c as int == 32
    ensures !('A' <= c <= 'Z') ==> r == c
  {
    if 'A' <= c <= 'Z' then (c as int + 32) as char else c
  }

  /** `s.toLowerCase()`, restricted to ASCII letters. */
  function Lower(s: string): (r: string)
    ensures |r| == |s|
    ensures forall i :: 0 <= i < |s| ==> r[i] == LowerChar(s[i])
  {
    seq(|s|, i requires 0 <= i < |s| => LowerChar(s[i]))
  }

  /** Lower-casing twice is lower-casing once. */
  lemma LowerIdempotent(s: string)
    ensures Lower(Lower(s)) == Lower(s)
  {
  }

  /** Every string includes the empty string. */
  lemma ContainsEmpty(s: string)
    ensures Contains(s, [])
  {
    assert OccursAt(s, [], 0);
  }
}
