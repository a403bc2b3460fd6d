/**
  The string primitives the quiz bot relies on, over an ASCII view of Python's `str`:
  `str.lower()`, the tokens of `re.findall(r'\b\w+\b', s)`, `t in s`, `s.split(c)`,
  `c.join(pieces)`, `s.strip()` and `str(n)` for natural numbers.
*/
module Text {

  // ---------------------------------------------------------------- lower case

  /** `str.lower()` on one character; only 'A'..'Z' change. */
  function LowerChar(c: char): char {
    if 'A' <= c <= 'Z' then (c as int + 32) as char else c
  }

  /** `str.lower()`: no capital is left, and every other character stays where it was. */
  function Lower(s: string): (r: string)
    ensures |r| == |s|
    ensures forall i :: 0 <= i < |s| ==> r[i] == LowerChar(s[i])
    ensures forall i :: 0 <= i < |r| ==> !('A' <= r[i] <= 'Z')
    ensures forall i :: 0 <= i < |s| && !('A' <= s[i] <= 'Z') ==> r[i] == s[i]
    ensures forall i :: 0 <= i < |s| && 'A' <= s[i] <= 'Z' ==> 'a' <= r[i] <= 'z' && r[i] as int == s[i] as int + 32
  {
    seq(|s|, i requires 0 <= i < |s| => LowerChar(s[i]))
  }

  // ---------------------------------------------------------------- tokens

  /** The characters `\w` matches: ASCII letters, digits and the underscore. */
  predicate IsWordChar(c: char) {
    'a' <= c <= 'z' || 'A' <= c <= 'Z' || '0' <= c <= '9' || c == '_'
  }

  predicate IsWord(w: string) {
    |w| > 0 && forall i :: 0 <= i < |w| ==> IsWordChar(w[i])
  }

  /** Length of the run of word characters at the start of `s`. */
  function RunLength(s: string): (n: nat)
    ensures n <= |s|
    ensures forall i :: 0 <= i < n ==> IsWordChar(s[i])
    ensures n < |s| ==> !IsWordChar(s[n])
    decreases |s|
  {
    if s == [] || !IsWordChar(s[0]) then 0 else 1 + RunLength(s[1..])
  }

  /**
    The matches of `\b\w+\b` in `s`, in order. WordsCount and WordsMatch below
    prove that these are exactly the maximal runs of word characters, each listed
    once for every position where it occurs as such a run.
  */
  function Words(s: string): (ws: seq<string>)
    ensures forall w :: w in ws ==> IsWord(w)
    decreases |s|
  {
    if s == [] then []
    else if !IsWordChar(s[0]) then Words(s[1..])
    else
      var n := RunLength(s);
      [s[..n]] + Words(s[n..])
  }

  // ---------------------------------------------------------------- substrings

  predicate IsPrefix(p: string, s: string) {
    |p| <= |s| && s[..|p|] == p
  }

  /** Python's `t in s` on strings; the empty string occurs in every string. */
  predicate Contains(s: string, t: string)
    decreases |s|
  {
    IsPrefix(t, s) || (s != [] && Contains(s[1..], t))
  }

  /** `t` is the slice of `s` that starts at index `i`. */
  predicate OccursAt(s: string, t: string, i: int) {
    0 <= i <= |s| - |t| && s[i..i + |t|] == t
  }

  /** `t in s` holds exactly when `t` is the slice of `s` at some position. */
  lemma {:induction false} ContainsAt(s: string, t: string)
    ensures Contains(s, t) <==> exists i :: OccursAt(s, t, i)
    decreases |s|
  {
    if s == [] {
      if Contains(s, t) {
        assert OccursAt(s, t, 0);
      }
    } else {
      ContainsAt(s[1..], t);
      if IsPrefix(t, s) {
        assert OccursAt(s, t, 0);
      }
      if Contains(s[1..], t) {
        var i :| OccursAt(s[1..], t, i);
        assert s[i + 1..i + 1 + |t|] == s[1..][i..i + |t|];
        assert OccursAt(s, t, i + 1);
      }
      if i :| OccursAt(s, t, i) {
        if i == 0 {
          assert IsPrefix(t, s);
        } else {
          assert s[1..][i - 1..i - 1 + |t|] == s[i..i + |t|];
          assert OccursAt(s[1..], t, i - 1);
        }
      }
    }
  }

  /** An occurrence of a non-empty `t` puts its first character into `s`. */
  lemma {:induction false} ContainsFirstChar(s: string, t: string)
    ensures Contains(s, t) && t != [] ==> t[0] in s
    decreases |s|
  {
    if s != [] && !IsPrefix(t, s) {
      ContainsFirstChar(s[1..], t);
    }
  }

  // ---------------------------------------------------------------- matches of \b\w+\b

  /**
    `\b\w+\b` matches `w` at index `i` of `s`: `w` is a non-empty run of word characters
    there, with no word character right before it or right after it.
  */
  predicate MatchAt(s: string, w: string, i: int) {
    IsWord(w) && OccursAt(s, w, i)
    && (i == 0 || !IsWordChar(s[i - 1]))
    && (i + |w| == |s| || !IsWordChar(s[i + |w|]))
  }

  /** The number of indices from `i` on at which `\b\w+\b` matches `w`. */
  function MatchCount(s: string, w: string, i: nat): nat
    decreases |s| - i
  {
    if i >= |s| then 0 else (if MatchAt(s, w, i) then 1 else 0) + MatchCount(s, w, i + 1)
  }

  /** A run of word characters at the start of `s` followed by a non-word character (or the end) is the whole run. */
  lemma RunLengthUnique(s: string, m: nat)
    requires m <= |s| && forall k :: 0 <= k < m ==> IsWordChar(s[k])
    requires m < |s| ==> !IsWordChar(s[m])
    ensures RunLength(s) == m
  {
  }

  /**
    Cutting `s` at `k`, where the cut does not fall inside a run of word characters,
    moves every match by `k`.
  */
  lemma MatchShift(s: string, k: nat, w: string, j: nat)
    requires 0 < k <= |s|
    requires !IsWordChar(s[k - 1]) || k == |s| || !IsWordChar(s[k])
    ensures MatchAt(s[k..], w, j) <==> MatchAt(s, w, k + j)
  {
    var t := s[k..];
    if 0 <= j <= |t| - |w| {
      assert t[j..j + |w|] == s[k + j..k + j + |w|];
      if j + |w| < |t| {
        assert t[j + |w|] == s[k + j + |w|];
      }
      if j > 0 {
        assert t[j - 1] == s[k + j - 1];
      } else if IsWord(w) && OccursAt(s, w, k) {
        assert w[0] == s[k];
      }
    }
  }

  lemma {:induction false} MatchCountShift(s: string, k: nat, w: string, j: nat)
    requires 0 < k <= |s|
    requires !IsWordChar(s[k - 1]) || k == |s| || !IsWordChar(s[k])
    ensures MatchCount(s[k..], w, j) == MatchCount(s, w, k + j)
    decreases |s| - k - j
  {
    if k + j < |s| {
      MatchShift(s, k, w, j);
      MatchCountShift(s, k, w, j + 1);
    }
  }

  /** No match starts strictly inside the run of word characters `s[..n]`. */
  lemma {:induction false} MatchCountInsideRun(s: string, w: string, i: nat, n: nat)
    requires 1 <= i <= n <= |s|
    requires forall k :: 0 <= k < n ==> IsWordChar(s[k])
    ensures MatchCount(s, w, i) == MatchCount(s, w, n)
    decreases n - i
  {
    if i < n {
      assert IsWordChar(s[i - 1]);
      MatchCountInsideRun(s, w, i + 1, n);
    }
  }

  /**
    `re.findall(r'\b\w+\b', s)` lists `w` exactly as many times as `\b\w+\b` matches `w`
    somewhere in `s`.
  */
  lemma {:induction false} WordsCount(s: string, w: string)
    ensures multiset(Words(s))[w] == MatchCount(s, w, 0)
    decreases |s|
  {
    if s == [] {
    } else if !IsWordChar(s[0]) {
      assert !MatchAt(s, w, 0);
      MatchCountShift(s, 1, w, 0);
      WordsCount(s[1..], w);
    } else {
      var n := RunLength(s);
      var head := s[..n];
      assert Words(s) == [head] + Words(s[n..]);
      assert MatchAt(s, w, 0) <==> w == head by {
        if w == head {
          assert OccursAt(s, head, 0);
        }
        if MatchAt(s, w, 0) {
          assert forall k :: 0 <= k < |w| ==> s[k] == w[k];
          RunLengthUnique(s, |w|);
        }
      }
      MatchCountInsideRun(s, w, 1, n);
      MatchCountShift(s, n, w, 0);
      WordsCount(s[n..], w);
    }
  }

  /** Some match of `w` lies at index `i` or later exactly when the count from `i` is positive. */
  lemma {:induction false} MatchCountPositive(s: string, w: string, i: nat)
    ensures MatchCount(s, w, i) > 0 <==> exists j :: i <= j < |s| && MatchAt(s, w, j)
    decreases |s| - i
  {
    if i < |s| {
      MatchCountPositive(s, w, i + 1);
    }
  }

  /** The tokens of `re.findall(r'\b\w+\b', s)` are exactly the strings `\b\w+\b` matches in `s`. */
  lemma WordsMatch(s: string, w: string)
    ensures w in Words(s) <==> exists i :: MatchAt(s, w, i)
  {
    WordsCount(s, w);
    MatchCountPositive(s, w, 0);
    if i :| MatchAt(s, w, i) {
      assert 0 <= i < |s|;
    }
  }

  // ---------------------------------------------------------------- split and join

  /** `s.split(sep)`: the pieces of `s` between occurrences of `sep`, always at least one. */
  function Split(s: string, sep: char): (pieces: seq<string>)
    ensures |pieces| >= 1
    decreases |s|
  {
    if s == [] then [[]]
    else
      var rest := Split(s[1..], sep);
      if s[0] == sep then [[]] + rest else [[s[0]] + rest[0]] + rest[1..]
  }

  /** There is one piece more than there are separators, and no piece holds one. */
  lemma {:induction false} SplitPieces(s: string, sep: char)
    ensures |Split(s, sep)| == multiset(s)[sep] + 1
    ensures forall p :: p in Split(s, sep) ==> sep !in p
    decreases |s|
  {
    if s != [] {
      var rest := Split(s[1..], sep);
      SplitPieces(s[1..], sep);
      assert s == [s[0]] + s[1..];
      if s[0] != sep {
        var pieces := [[s[0]] + rest[0]] + rest[1..];
        assert rest == [rest[0]] + rest[1..];
        forall p | p in pieces
          ensures sep !in p
        {
          if p != pieces[0] {
            assert p in rest;
          }
        }
      }
    }
  }

  /** `sep.join(pieces)`; the empty list joins to the empty string. */
  function Join(sep: char, pieces: seq<string>): string
    decreases |pieces|
  {
    if pieces == [] then []
    else if |pieces| == 1 then pieces[0]
    else pieces[0] + [sep] + Join(sep, pieces[1..])
  }

  lemma JoinCons(sep: char, x: string, rest: seq<string>)
    requires rest != []
    ensures Join(sep, [x] + rest) == x + [sep] + Join(sep, rest)
  {
    assert ([x] + rest)[1..] == rest;
  }

  /** A string that starts with the separator joins back from an empty first piece. */
  lemma JoinSplitAtSep(s: string, sep: char)
    requires s != [] && s[0] == sep
    requires Join(sep, Split(s[1..], sep)) == s[1..]
    ensures Join(sep, Split(s, sep)) == s
  {
    var rest := Split(s[1..], sep);
    assert Split(s, sep) == [[]] + rest;
    JoinCons(sep, [], rest);
    assert s == [s[0]] + s[1..];
  }

  /** A string that starts with another character joins back with it in front of the first piece. */
  lemma JoinSplitAtOther(s: string, sep: char)
    requires s != [] && s[0] != sep
    requires Join(sep, Split(s[1..], sep)) == s[1..]
    ensures Join(sep, Split(s, sep)) == s
  {
    var rest := Split(s[1..], sep);
    var tail := rest[1..];
    assert rest == [rest[0]] + tail;
    assert Split(s, sep) == [[s[0]] + rest[0]] + tail;
    if tail != [] {
      JoinCons(sep, [s[0]] + rest[0], tail);
      JoinCons(sep, rest[0], tail);
      assert Join(sep, Split(s, sep)) == [s[0]] + (rest[0] + [sep] + Join(sep, tail));
    } else {
      assert Join(sep, rest) == rest[0];
    }
    assert Join(sep, Split(s, sep)) == [s[0]] + Join(sep, rest);
    assert s == [s[0]] + s[1..];
  }

  /** Joining the pieces of a split gives back the string. */
  lemma {:induction false} JoinSplit(s: string, sep: char)
    ensures Join(sep, Split(s, sep)) == s
    decreases |s|
  {
    if s != [] {
      JoinSplit(s[1..], sep);
      if s[0] == sep {
        JoinSplitAtSep(s, sep);
      } else {
        JoinSplitAtOther(s, sep);
      }
    }
  }

  lemma {:induction false} SplitNoSep(p: string, sep: char)
    requires sep !in p
    ensures Split(p, sep) == [p]
    decreases |p|
  {
    if p != [] {
      assert p[0] != sep && sep !in p[1..];
      SplitNoSep(p[1..], sep);
      assert [p[0]] + p[1..] == p;
    }
  }

  lemma {:induction false} SplitOnSep(p: string, sep: char, rest: string)
    requires sep !in p
    ensures Split(p + [sep] + rest, sep) == [p] + Split(rest, sep)
    decreases |p|
  {
    var s := p + [sep] + rest;
    if p == [] {
      assert s[1..] == rest;
    } else {
      assert s[0] == p[0] != sep && sep !in p[1..];
      assert s[1..] == p[1..] + [sep] + rest;
      SplitOnSep(p[1..], sep, rest);
      assert [p[0]] + p[1..] == p;
    }
  }

  /** Splitting a join of separator-free pieces gives back the pieces. */
  lemma {:induction false} SplitJoin(pieces: seq<string>, sep: char)
    requires |pieces| >= 1
    requires forall p :: p in pieces ==> sep !in p
    ensures Split(Join(sep, pieces), sep) == pieces
    decreases |pieces|
  {
    if |pieces| == 1 {
      SplitNoSep(pieces[0], sep);
    } else {
      SplitJoin(pieces[1..], sep);
      SplitOnSep(pieces[0], sep, Join(sep, pieces[1..]));
    }
  }

  // ---------------------------------------------------------------- strip

  /** The ASCII characters for which `str.isspace()` holds. */
  predicate IsSpace(c: char) {
    c == ' ' || '\t' <= c <= '\r' || '\U{1C}' <= c <= '\U{1F}'
  }

  /** The first index from `i` on that is not whitespace (or `|s|`). */
  function SkipSpace(s: string, i: nat): (j: nat)
    requires i <= |s|
    ensures i <= j <= |s|
    ensures forall k :: i <= k < j ==> IsSpace(s[k])
    ensures j < |s| ==> !IsSpace(s[j])
    decreases |s| - i
  {
    if i < |s| && IsSpace(s[i]) then SkipSpace(s, i + 1) else i
  }

  /** The end of `s[a..j]` once the whitespace at its end is dropped. */
  function SkipSpaceBack(s: string, a: nat, j: nat): (b: nat)
    requires a <= j <= |s|
    ensures a <= b <= j
    ensures forall k :: b <= k < j ==> IsSpace(s[k])
    ensures b > a ==> !IsSpace(s[b - 1])
    decreases j
  {
    if j > a && IsSpace(s[j - 1]) then SkipSpaceBack(s, a, j - 1) else j
  }

  /** `r` is `s[a..a + |r|]` and everything of `s` outside that slice is whitespace. */
  predicate TrimmedAt(s: string, r: string, a: int) {
    && 0 <= a <= |s| - |r| && r == s[a..a + |r|]
    && (forall i :: 0 <= i < a ==> IsSpace(s[i]))
    && (forall i :: a + |r| <= i < |s| ==> IsSpace(s[i]))
  }

  /**
    `s.strip()`: the slice `s[a..b]` left once the leading and trailing whitespace
    is removed; the slice neither starts nor ends with whitespace.
  */
  function Strip(s: string): (r: string)
    ensures exists a :: TrimmedAt(s, r, a)
    ensures r != [] ==> !IsSpace(r[0]) && !IsSpace(r[|r| - 1])
  {
    var a := SkipSpace(s, 0);
    var b := SkipSpaceBack(s, a, |s|);
    assert TrimmedAt(s, s[a..b], a);
    s[a..b]
  }

  lemma OccurrenceInsideTrim(s: string, r: string, a: int, t: string, i: int)
    requires TrimmedAt(s, r, a) && OccursAt(s, t, i)
    requires t != [] && forall k :: 0 <= k < |t| ==> !IsSpace(t[k])
    ensures OccursAt(r, t, i - a)
  {
    assert s[i] == t[0];
    assert s[i + |t| - 1] == t[|t| - 1];
    assert a <= i && i + |t| <= a + |r|;
    var inner, outer := r[i - a..i - a + |t|], s[i..i + |t|];
    forall k | 0 <= k < |t| ensures inner[k] == outer[k] {
      assert r[i - a + k] == s[a..a + |r|][i - a + k];
    }
    assert inner == outer;
  }

  lemma OccurrenceOfTrim(s: string, r: string, a: int, t: string, j: int)
    requires TrimmedAt(s, r, a) && OccursAt(r, t, j)
    ensures OccursAt(s, t, a + j)
  {
    var outer, inner := s[a + j..a + j + |t|], r[j..j + |t|];
    forall k | 0 <= k < |t| ensures outer[k] == inner[k] {
      assert r[j + k] == s[a..a + |r|][j + k];
    }
    assert outer == inner;
  }

  /** Stripping whitespace never hides or creates an occurrence of a whitespace-free string. */
  lemma StripKeepsOccurrences(s: string, t: string)
    requires t != [] && forall i :: 0 <= i < |t| ==> !IsSpace(t[i])
    ensures Contains(Strip(s), t) <==> Contains(s, t)
  {
    var r := Strip(s);
    var a :| TrimmedAt(s, r, a);
    ContainsAt(s, t);
    ContainsAt(r, t);
    if Contains(s, t) {
      var i :| OccursAt(s, t, i);
      OccurrenceInsideTrim(s, r, a, t, i);
    }
    if Contains(r, t) {
      var j :| OccursAt(r, t, j);
      OccurrenceOfTrim(s, r, a, t, j);
    }
  }

  // ---------------------------------------------------------------- decimal numbers

  predicate IsDigit(c: char) {
    '0' <= c <= '9'
  }

  function DigitChar(d: nat): (c: char)
    requires d < 10
  {
    ('0' as int + d) as char
  }

  /** `str(n)` for a natural number: its decimal digits, without leading zeros. */
  function Decimal(n: nat): (s: string)
    ensures |s| >= 1
    ensures forall i :: 0 <= i < |s| ==> IsDigit(s[i])
    ensures n < 10 <==> |s| == 1
    ensures n >= 1 ==> s[0] != '0'
    decreases n
  {
    if n < 10 then [DigitChar(n)] else Decimal(n / 10) + [DigitChar(n % 10)]
  }

  /** The number a string of decimal digits denotes. */
  function DecimalValue(s: string): nat
    requires forall i :: 0 <= i < |s| ==> IsDigit(s[i])
    decreases |s|
  {
    if s == [] then 0
    else
      assert IsDigit(s[|s| - 1]);
      DecimalValue(s[..|s| - 1]) * 10 + (s[|s| - 1] as int - '0' as int)
  }

  /** Reading back the digits `str(n)` writes gives `n`. */
  lemma {:induction false} DecimalRoundTrip(n: nat)
    ensures DecimalValue(Decimal(n)) == n
    decreases n
  {
    if n >= 10 {
      DecimalRoundTrip(n / 10);
      var s := Decimal(n);
      assert s[..|s| - 1] == Decimal(n / 10);
    }
  }
}
