/** The few pieces of Python's text handling that the ranking watcher relies
    on: `str.isspace` on one character, `str.strip()`, `str.split()` with no
    separator, `str.join` and `str()` of a non-negative integer. */
module PyText {

  /** Python's `str.isspace()` on a single character: the characters CPython
      treats as whitespace when it strips or splits without a separator. */
  const Spaces: set<char> := {' ', '\t', '\n', '\U{0B}', '\U{0C}', '\r', '\U{1C}', '\U{1D}', '\U{1E}', '\U{1F}', '\U{85}', '\U{A0}', '\U{1680}',
    '\U{2000}', '\U{2001}', '\U{2002}', '\U{2003}', '\U{2004}', '\U{2005}', '\U{2006}', '\U{2007}', '\U{2008}', '\U{2009}', '\U{200A}',
    '\U{2028}', '\U{2029}', '\U{202F}', '\U{205F}', '\U{3000}'}
  predicate IsSpace(c: char)
  {
    c in Spaces
  }

  predicate NoSpace(s: string)
  {
    forall i :: 0 <= i < |s| ==> !IsSpace(s[i])
  }

  predicate AllSpace(s: string)
  {
    forall i :: 0 <= i < |s| ==> IsSpace(s[i])
  }

  /** The number of whitespace characters `s` starts with. */
  function LeadingSpaces(s: string): (k: nat)
    ensures k <= |s|
  {
    if s != [] && IsSpace(s[0]) then 1 + LeadingSpaces(s[1..]) else 0
  }

  lemma {:induction false} LeadingSpacesSpec(s: string)
    ensures AllSpace(s[..LeadingSpaces(s)])
    ensures LeadingSpaces(s) == |s| || !IsSpace(s[LeadingSpaces(s)])
  {
    if s != [] && IsSpace(s[0]) {
      LeadingSpacesSpec(s[1..]);
      assert s[..LeadingSpaces(s)] == [s[0]] + s[1..][..LeadingSpaces(s[1..])];
    }
  }

  /** The number of whitespace characters `s` ends with. */
  function TrailingSpaces(s: string): (k: nat)
    ensures k <= |s|
  {
    if s != [] && IsSpace(s[|s| - 1]) then 1 + TrailingSpaces(s[..|s| - 1]) else 0
  }

  lemma {:induction false} TrailingSpacesSpec(s: string)
    ensures AllSpace(s[|s| - TrailingSpaces(s)..])
    ensures TrailingSpaces(s) == |s| || !IsSpace(s[|s| - 1 - TrailingSpaces(s)])
  {
    if s != [] && IsSpace(s[|s| - 1]) {
      var init := s[..|s| - 1];
      var k := TrailingSpaces(init);
      TrailingSpacesSpec(init);
      assert TrailingSpaces(s) == k + 1;
      forall i | |s| - (k + 1) <= i < |s|
        ensures IsSpace(s[i])
      {
        if i < |s| - 1 {
          assert s[i] == init[|init| - k..][i - (|init| - k)];
        }
      }
      if k < |init| {
        assert s[|s| - 1 - TrailingSpaces(s)] == init[|init| - 1 - k];
      }
    }
  }

  /** `s.lstrip()`. */
  function LStrip(s: string): string
  {
    s[LeadingSpaces(s)..]
  }

  /** `s.rstrip()`. */
  function RStrip(s: string): string
  {
    s[..|s| - TrailingSpaces(s)]
  }

  /** `s.strip()`: neither starts nor ends with whitespace. */
  function Strip(s: string): (r: string)
    ensures r == [] || (!IsSpace(r[0]) && !IsSpace(r[|r| - 1]))
  {
    var l := LStrip(s);
    LeadingSpacesSpec(s);
    TrailingSpacesSpec(l);
    RStrip(l)
  }

  /** What `s.strip()` removes is whitespace at the two ends and nothing else:
      `s` is a run of whitespace, then the result, then a run of whitespace;
      so the result is empty exactly when `s` is all whitespace. */
  lemma StripSpec(s: string)
    ensures var r := Strip(s);
      && (exists k :: 0 <= k <= |s| - |r| && s[k..k + |r|] == r && AllSpace(s[..k]) && AllSpace(s[k + |r|..]))
      && (r == [] <==> AllSpace(s))
  {
    var l := LStrip(s);
    LeadingSpacesSpec(s);
    TrailingSpacesSpec(l);
    var r := Strip(s);
    var k := LeadingSpaces(s);
    assert s[k..k + |r|] == r;
    assert s[k + |r|..] == l[|r|..];
    assert s == s[..k] + l;
    if r == [] {
      assert l == l[|l| - TrailingSpaces(l)..];
    }
  }

  /** A text with nothing left to strip. */
  predicate Stripped(s: string)
  {
    Strip(s) == s
  }

  /** Stripping is idempotent. */
  lemma StripIdempotent(s: string)
    ensures Strip(Strip(s)) == Strip(s)
  {
    var r := Strip(s);
    if r != [] {
      assert LeadingSpaces(r) == 0;
      assert TrailingSpaces(r) == 0;
      assert r[0..] == r && r[..|r|] == r;
    }
  }

  /** The length of the leading run of non-whitespace characters of `t`. */
  function WordLength(t: string): (n: nat)
    ensures n <= |t|
  {
    if t == [] || IsSpace(t[0]) then 0 else WordLength(t[1..]) + 1
  }

  lemma {:induction false} WordLengthSpec(t: string)
    ensures NoSpace(t[..WordLength(t)])
    ensures WordLength(t) == |t| || IsSpace(t[WordLength(t)])
  {
    if t != [] && !IsSpace(t[0]) {
      WordLengthSpec(t[1..]);
      assert t[..WordLength(t)] == [t[0]] + t[1..][..WordLength(t[1..])];
    }
  }

  /** `WordLength` is the only length at which a run without whitespace
      stops at whitespace or at the end. */
  lemma {:induction false} WordLengthIs(t: string, n: nat)
    requires n <= |t| && NoSpace(t[..n])
    requires n == |t| || IsSpace(t[n])
    ensures WordLength(t) == n
  {
    if n > 0 {
      assert t[0] == t[..n][0];
      assert t[1..][..n - 1] == t[..n][1..];
      WordLengthIs(t[1..], n - 1);
    }
  }

  /** `s.split()`: the maximal runs of non-whitespace characters, in order. */
  function Words(s: string): seq<string>
    decreases |s|
  {
    var k := LeadingSpaces(s);
    if k == |s| then []
    else
      LeadingSpacesSpec(s);
      var t := s[k..];
      var n := WordLength(t);
      [t[..n]] + Words(t[n..])
  }

  /** `sep.join(parts)`. */
  function Join(sep: string, parts: seq<string>): string
  {
    if parts == [] then ""
    else if |parts| == 1 then parts[0]
    else parts[0] + sep + Join(sep, parts[1..])
  }

  /** Joining two non-empty lists of parts puts one separator between their
      joins. */
  lemma {:induction false} JoinAppend(sep: string, a: seq<string>, b: seq<string>)
    requires a != [] && b != []
    ensures Join(sep, a + b) == Join(sep, a) + sep + Join(sep, b)
    decreases |a|
  {
    var ab := a + b;
    assert ab[0] == a[0];
    if |a| == 1 {
      assert ab[1..] == b;
    } else {
      assert ab[1..] == a[1..] + b;
      JoinAppend(sep, a[1..], b);
    }
  }

  /** Text in which whitespace occurs only as single spaces between two
      non-whitespace characters: no leading, trailing or doubled space. */
  ghost predicate Collapsed(r: string)
  {
    && (r == [] || (!IsSpace(r[0]) && !IsSpace(r[|r| - 1])))
    && (forall i :: 0 <= i < |r| && IsSpace(r[i]) ==> r[i] == ' ')
    && (forall i, j :: 0 <= i < j < |r| && j == i + 1 ==> !IsSpace(r[i]) || !IsSpace(r[j]))
  }

  predicate IsWord(w: string)
  {
    w != [] && NoSpace(w)
  }

  predicate AllWords(ws: seq<string>)
  {
    forall i :: 0 <= i < |ws| ==> IsWord(ws[i])
  }

  /** A leading whitespace character does not change the words. */
  lemma WordsAfterSpace(c: char, s: string)
    requires IsSpace(c)
    ensures Words([c] + s) == Words(s)
  {
    var cs := [c] + s;
    assert cs[1..] == s;
    assert LeadingSpaces(cs) == 1 + LeadingSpaces(s);
    assert cs[LeadingSpaces(cs)..] == s[LeadingSpaces(s)..];
  }

  /** Splitting undoes joining with a single space: `" ".join(ws).split() == ws`
      whenever every element of `ws` is a non-empty run without whitespace. */
  lemma {:induction false} WordsOfJoin(ws: seq<string>)
    requires AllWords(ws)
    ensures Words(Join(" ", ws)) == ws
  {
    if ws == [] {
    } else if |ws| == 1 {
      var w := ws[0];
      assert IsWord(w);
      assert LeadingSpaces(w) == 0;
      assert w[0..] == w;
      assert w[..|w|] == w;
      WordLengthIs(w, |w|);
      assert w[|w|..] == [];
      assert Words([]) == [];
    } else {
      var w := ws[0];
      var rest := Join(" ", ws[1..]);
      var j := w + " " + rest;
      assert LeadingSpaces(j) == 0 by { assert j[0] == w[0]; }
      assert j[0..] == j;
      assert j[..|w|] == w;
      WordLengthIs(j, |w|);
      assert j[|w|..] == [' '] + rest;
      WordsAfterSpace(' ', rest);
      assert AllWords(ws[1..]);
      WordsOfJoin(ws[1..]);
    }
  }

  /** Joining whitespace-free words with single spaces gives collapsed text. */
  lemma {:induction false} JoinCollapsed(ws: seq<string>)
    requires AllWords(ws)
    ensures Collapsed(Join(" ", ws))
  {
    if |ws| > 1 {
      var w := ws[0];
      var rest := Join(" ", ws[1..]);
      assert AllWords(ws[1..]);
      JoinCollapsed(ws[1..]);
      var j := w + " " + rest;
      assert Join(" ", ws) == j;
      assert rest != [] by { assert |ws[1..]| >= 1; JoinNonEmpty(ws[1..]); }
      forall i | 0 <= i < |j|
        ensures IsSpace(j[i]) ==> j[i] == ' '
      {
        if i < |w| {
          assert j[i] == w[i];
        } else if i > |w| {
          assert j[i] == rest[i - |w| - 1];
        }
      }
      forall i, k | 0 <= i < k < |j| && k == i + 1
        ensures !IsSpace(j[i]) || !IsSpace(j[k])
      {
        if i < |w| {
          assert j[i] == w[i];
        } else if i == |w| {
          assert j[k] == rest[0];
        } else {
          assert j[i] == rest[i - |w| - 1];
          assert j[k] == rest[k - |w| - 1];
        }
      }
    }
  }

  lemma {:induction false} JoinNonEmpty(ws: seq<string>)
    requires AllWords(ws) && ws != []
    ensures Join(" ", ws) != []
    ensures Join(" ", ws)[0] == ws[0][0]
  {
  }

  /** Every element of `s.split()` is a non-empty run without whitespace. */
  lemma {:induction false} WordsAreWords(s: string)
    ensures AllWords(Words(s))
    decreases |s|
  {
    var k := LeadingSpaces(s);
    LeadingSpacesSpec(s);
    if k < |s| {
      var t := s[k..];
      var n := WordLength(t);
      WordLengthSpec(t);
      var w := t[..n];
      assert IsWord(w);
      var rest := Words(t[n..]);
      WordsAreWords(t[n..]);
      assert Words(s) == [w] + rest;
      forall i | 0 <= i < |[w] + rest|
        ensures IsWord(([w] + rest)[i])
      {
        if i > 0 {
          assert ([w] + rest)[i] == rest[i - 1];
        }
      }
    }
  }

  /** `" ".join(s.split())`, one word at a time: the first word of `s`, then
      a single space and the rest collapsed, if anything is left. */
  function Collapse(s: string): string
    decreases |s|
  {
    var k := LeadingSpaces(s);
    if k == |s| then ""
    else
      LeadingSpacesSpec(s);
      var t := s[k..];
      var n := WordLength(t);
      var rest := Collapse(t[n..]);
      if rest == [] then t[..n] else t[..n] + " " + rest
  }

  /** `Collapse` is Python's `" ".join(s.split())`. */
  lemma {:induction false} CollapseIsJoinOfWords(s: string)
    ensures Collapse(s) == Join(" ", Words(s))
    decreases |s|
  {
    var k := LeadingSpaces(s);
    LeadingSpacesSpec(s);
    if k < |s| {
      var t := s[k..];
      var n := WordLength(t);
      CollapseIsJoinOfWords(t[n..]);
      var ws := Words(t[n..]);
      WordsAreWords(t[n..]);
      assert Words(s) == [t[..n]] + ws;
      JoinEmpty(ws);
      if ws != [] {
        assert ([t[..n]] + ws)[1..] == ws;
      }
    }
  }

  lemma JoinEmpty(ws: seq<string>)
    requires AllWords(ws)
    ensures Join(" ", ws) == [] <==> ws == []
  {
    if ws != [] {
      JoinNonEmpty(ws);
    }
  }

  /** Collapsing leaves whitespace only as single spaces between words, keeps
      exactly the words of `s`, and so collapsing twice is collapsing once. */
  lemma CollapseSpec(s: string)
    ensures Collapsed(Collapse(s))
    ensures Words(Collapse(s)) == Words(s)
    ensures Collapse(Collapse(s)) == Collapse(s)
  {
    CollapseIsJoinOfWords(s);
    WordsAreWords(s);
    JoinCollapsed(Words(s));
    WordsOfJoin(Words(s));
    CollapseIsJoinOfWords(Collapse(s));
  }

  /** A single word is its own collapsed form. */
  lemma CollapseWord(w: string)
    requires IsWord(w)
    ensures Collapse(w) == w
  {
    assert AllWords([w]);
    WordsOfJoin([w]);
    CollapseIsJoinOfWords(w);
  }

  function DigitChar(d: nat): (c: char)
    requires d < 10
    ensures '0' <= c <= '9'
  {
    ['0', '1', '2', '3', '4', '5', '6', '7', '8', '9'][d]
  }

  /** `str(n)` for a non-negative integer: its decimal digits. */
  function NatToString(n: nat): (r: string)
    ensures r != [] && forall i :: 0 <= i < |r| ==> '0' <= r[i] <= '9'
  {
    if n < 10 then [DigitChar(n)] else NatToString(n / 10) + [DigitChar(n % 10)]
  }

  /** The value of a string of decimal digits (the inverse of `NatToString`). */
  function DigitsValue(r: string): nat
    requires forall i :: 0 <= i < |r| ==> '0' <= r[i] <= '9'
  {
    if r == [] then 0 else 10 * DigitsValue(r[..|r| - 1]) + (r[|r| - 1] as int - '0' as int)
  }

  lemma {:induction false} NatToStringRoundTrip(n: nat)
    ensures DigitsValue(NatToString(n)) == n
  {
    var r := NatToString(n);
    if n >= 10 {
      NatToStringRoundTrip(n / 10);
      assert r[..|r| - 1] == NatToString(n / 10);
    }
  }

  /** Distinct counts are written as distinct strings. */
  lemma NatToStringInjective(m: nat, n: nat)
    requires NatToString(m) == NatToString(n)
    ensures m == n
  {
    NatToStringRoundTrip(m);
    NatToStringRoundTrip(n);
  }

  /** A decimal numeral contains no whitespace, so stripping leaves it alone. */
  lemma NatToStringStripped(n: nat)
    ensures Strip(NatToString(n)) == NatToString(n)
  {
    var r := NatToString(n);
    assert !IsSpace(r[0]) && !IsSpace(r[|r| - 1]);
    assert LeadingSpaces(r) == 0 && TrailingSpaces(r) == 0;
    assert r[0..] == r && r[..|r|] == r;
  }
}
