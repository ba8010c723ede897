/**
 * The identifier glob compiler (`src/globToRegex.js`).
 *
 * The source builds a regular expression string and wraps it in `^...$`.
 * Here the compiler emits the three kinds of pieces that string is made of,
 * and `Matches` gives their meaning directly:
 *   - `Lit(c)`: a pattern character other than `*`. Reserved regex characters
 *     are escaped with a backslash and all others are copied, so either way
 *     the piece matches exactly `c`.
 *   - `Star`: `((?!(\*\*|/|:)).)*`, any number of characters, none of them a
 *     delimiter `/` or `:` or a line terminator, and none at a position
 *     where `**` starts.
 *   - `Globstar`: `([^/:]*(/|:|$))*`, zero or more whole segments, each a run
 *     of non-delimiters ended by a delimiter or by the end of the candidate.
 */
module GlobToRegex {

  datatype Token = Lit(c: char) | Star | Globstar

  predicate IsDelimiter(c: char) { c == '/' || c == ':' }

  /** The end of the run of `*` that starts at `i` (`i` itself when `p[i]` is not `*`). */
  function RunEnd(p: string, i: nat): (j: nat)
    requires i <= |p|
    ensures i <= j <= |p|
    ensures j == |p| || p[j] != '*'
    decreases |p| - i
  {
    if i == |p| || p[i] != '*' then i else RunEnd(p, i + 1)
  }

  /** Everything from `i` up to the end of its run is a star. */
  lemma {:induction false} RunEndStars(p: string, i: nat)
    requires i <= |p|
    ensures forall k :: i <= k < RunEnd(p, i) ==> p[k] == '*'
    decreases |p| - i
  {
    if i < |p| && p[i] == '*' {
      RunEndStars(p, i + 1);
    }
  }

  /**
   * The star run `p[i..j]` is a globstar: at least two stars, and the
   * characters before and after it are each absent, `/` or `:`.
   */
  predicate IsGlobstarRun(p: string, i: nat, j: nat)
    requires i <= j <= |p|
  {
    && j - i >= 2
    && (i == 0 || IsDelimiter(p[i - 1]))
    && (j == |p| || IsDelimiter(p[j]))
  }

  /**
   * The pieces compiled from `p[i..]`, by runs: a non-star character is a
   * literal; a maximal star run is a globstar, which also takes the
   * delimiter after it, or else a single-segment wildcard.
   */
  function TokensFrom(p: string, i: nat): (toks: seq<Token>)
    requires i <= |p|
    ensures |toks| <= |p| - i
    decreases |p| - i
  {
    if i == |p| then []
    else if p[i] != '*' then [Lit(p[i])] + TokensFrom(p, i + 1)
    else
      var j := RunEnd(p, i);
      if IsGlobstarRun(p, i, j) then [Globstar] + TokensFrom(p, if j < |p| then j + 1 else j)
      else [Star] + TokensFrom(p, j)
  }

  function Tokenize(p: string): (toks: seq<Token>)
  {
    TokensFrom(p, 0)
  }

  lemma Shift(done: seq<Token>, t: Token, rest: seq<Token>, all: seq<Token>)
    requires done + ([t] + rest) == all
    ensures (done + [t]) + rest == all
  {
  }

  /** How `TokensFrom` reads the star run starting at `i`. */
  lemma RunTokens(p: string, i: nat)
    requires i < |p| && p[i] == '*'
    ensures var j := RunEnd(p, i);
      TokensFrom(p, i) ==
        if IsGlobstarRun(p, i, j) then [Globstar] + TokensFrom(p, if j < |p| then j + 1 else j)
        else [Star] + TokensFrom(p, j)
  {
  }

  /**
   * The compiler loop. The index advances inside the body: through a star
   * run in the inner loop, and once more past the delimiter a globstar
   * swallows. It ends after at most |pattern| rounds, with one piece per
   * round.
   */
  method Compile(pattern: string) returns (toks: seq<Token>)
    ensures toks == Tokenize(pattern)
    ensures |toks| <= |pattern|
  {
    toks := [];
    var i := 0;
    ghost var k := 0;  // i, or |pattern| once i has gone past the end
    while i < |pattern|
      invariant 0 <= i <= |pattern| + 1
      invariant k == if i <= |pattern| then i else |pattern|
      invariant toks + TokensFrom(pattern, k) == Tokenize(pattern)
      decreases |pattern| + 1 - i
    {
      var c := pattern[i];
      if c == '*' {
        // Consume the whole run of stars, noting whether there is more than one
        var start := i;
        var multipleStars := false;
        while i + 1 < |pattern| && pattern[i + 1] == '*'
          invariant start <= i < |pattern|
          invariant pattern[i] == '*'
          invariant multipleStars == (i > start)
          invariant RunEnd(pattern, start) == RunEnd(pattern, i)
        {
          multipleStars := true;
          i := i + 1;
        }
        assert RunEnd(pattern, i) == i + 1 by {
          assert RunEnd(pattern, i) == RunEnd(pattern, i + 1);
        }
        var prevOk := start == 0 || IsDelimiter(pattern[start - 1]);
        var nextOk := i + 1 == |pattern| || IsDelimiter(pattern[i + 1]);
        RunTokens(pattern, start);
        assert start == k;
        if multipleStars && prevOk && nextOk {
          k := if i + 1 < |pattern| then i + 2 else i + 1;
          Shift(toks, Globstar, TokensFrom(pattern, k), Tokenize(pattern));
          toks := toks + [Globstar];
          i := i + 1;  // move past the delimiter after the run
        } else {
          k := i + 1;
          Shift(toks, Star, TokensFrom(pattern, k), Tokenize(pattern));
          toks := toks + [Star];
        }
      } else {
        k := i + 1;
        Shift(toks, Lit(c), TokensFrom(pattern, k), Tokenize(pattern));
        toks := toks + [Lit(c)];
      }
      i := i + 1;
    }
  }

  /** The characters the regular-expression `.` does not match. */
  predicate IsLineTerminator(c: char)
  {
    c == '\n' || c == '\r' || c == '\U{2028}' || c == '\U{2029}'
  }

  /**
   * At index `k` of the candidate `s`, the single-segment wildcard
   * `((?!(\*\*|/|:)).)*` may take a character: not a delimiter, not a line
   * terminator, and not the first of two stars.
   */
  predicate StarStep(s: string, k: nat)
    requires k < |s|
  {
    && !IsDelimiter(s[k])
    && !IsLineTerminator(s[k])
    && !(s[k] == '*' && k + 1 < |s| && s[k + 1] == '*')
  }

  /** The single-segment wildcard may take the first `j` characters of `s`. */
  predicate StarSpan(s: string, j: nat)
    requires j <= |s|
  {
    forall k :: 0 <= k < j ==> StarStep(s, k)
  }

  /** The globstar may take the first `j` characters of `s`: nothing, up to a delimiter, or all. */
  predicate GlobSpan(s: string, j: nat)
    requires j <= |s|
  {
    j == 0 || j == |s| || IsDelimiter(s[j - 1])
  }

  /** The anchored test `^pieces$`: the pieces match the whole candidate. */
  function Matches(toks: seq<Token>, s: string): (ok: bool)
    decreases toks
  {
    if toks == [] then s == []
    else match toks[0]
      case Lit(c) => s != [] && s[0] == c && Matches(toks[1..], s[1..])
      case Star => exists j :: 0 <= j <= |s| && StarSpan(s, j) && Matches(toks[1..], s[j..])
      case Globstar => exists j :: 0 <= j <= |s| && GlobSpan(s, j) && Matches(toks[1..], s[j..])
  }

  /** `globToRegex(pattern).test(candidate)`. */
  function MatchGlob(pattern: string, candidate: string): (ok: bool)
  {
    Matches(Tokenize(pattern), candidate)
  }

  // ---------------------------------------------------------------------
  // What the pieces mean

  /** The pieces of a star-free text: one literal per character. */
  function Lits(w: string): (toks: seq<Token>)
    ensures |toks| == |w|
  {
    if w == [] then [] else [Lit(w[0])] + Lits(w[1..])
  }

  /** A star-free stretch of the pattern compiles to its characters as literals. */
  lemma {:induction false} StarFreeTokens(p: string, i: nat, m: nat)
    requires i <= m <= |p|
    requires forall k :: i <= k < m ==> p[k] != '*'
    ensures TokensFrom(p, i) == Lits(p[i..m]) + TokensFrom(p, m)
    decreases m - i
  {
    if i < m {
      StarFreeTokens(p, i + 1, m);
      LitStepFrom(p, i, m);
    } else {
      assert p[i..m] == [];
    }
  }

  /** One literal step of `StarFreeTokens`. */
  lemma LitStepFrom(p: string, i: nat, m: nat)
    requires i < m <= |p| && p[i] != '*'
    ensures TokensFrom(p, i) == [Lit(p[i])] + TokensFrom(p, i + 1)
    ensures Lits(p[i..m]) + TokensFrom(p, m) == [Lit(p[i])] + (Lits(p[i + 1..m]) + TokensFrom(p, m))
  {
    assert p[i..m][0] == p[i] && p[i..m][1..] == p[i + 1..m];
  }

  lemma LitStep(c: char, toks: seq<Token>, s: string)
    ensures Matches([Lit(c)] + toks, s) == (s != [] && s[0] == c && Matches(toks, s[1..]))
  {
    assert ([Lit(c)] + toks)[1..] == toks;
  }

  /** Literals match exactly their own text, followed by whatever the rest matches. */
  lemma {:induction false} LitsMatch(w: string, rest: seq<Token>, s: string)
    ensures Matches(Lits(w) + rest, s) <==>
      |w| <= |s| && s[..|w|] == w && Matches(rest, s[|w|..])
  {
    if w != [] {
      assert Lits(w) + rest == [Lit(w[0])] + (Lits(w[1..]) + rest);
      LitStep(w[0], Lits(w[1..]) + rest, s);
      if s != [] {
        LitsMatch(w[1..], rest, s[1..]);
        if |w| <= |s| {
          assert s[1..][|w| - 1..] == s[|w|..];
          assert s[..|w|] == [s[0]] + s[1..][..|w| - 1];
          assert w == [w[0]] + w[1..];
        }
      }
    } else {
      assert Lits(w) + rest == rest;
    }
  }

  /**
   * Anchoring: a pattern without `*` accepts exactly one candidate, itself;
   * no longer, shorter, prefixed or suffixed string.
   */
  lemma StarFreeExact(p: string, s: string)
    requires '*' !in p
    ensures MatchGlob(p, s) <==> s == p
  {
    StarFreeTokens(p, 0, |p|);
    assert p[0..|p|] == p;
    assert Lits(p) + [] == Lits(p);
    LitsMatch(p, [], s);
  }

  predicate NoDelimiter(t: string)
  {
    forall k :: 0 <= k < |t| ==> !IsDelimiter(t[k])
  }

  /**
   * The regular expression `([^/:]*(/|:|$))*` taken literally: `t` is a
   * sequence of segments, each a delimiter-free run ended by a delimiter,
   * where the last may instead end at the end of the candidate (`atEnd`).
   */
  ghost predicate Segments(t: string, atEnd: bool)
    decreases |t|
  {
    || t == []
    || (exists n :: 0 <= n < |t| && IsDelimiter(t[n]) && NoDelimiter(t[..n]) && Segments(t[n + 1..], atEnd))
    || (atEnd && NoDelimiter(t))
  }

  /** The index of the first delimiter in `t`, or |t|. */
  function FirstDelimiter(t: string): (n: nat)
    ensures n <= |t| && NoDelimiter(t[..n])
    ensures n < |t| ==> IsDelimiter(t[n])
  {
    if t == [] then 0
    else if IsDelimiter(t[0]) then 0
    else
      var n := 1 + FirstDelimiter(t[1..]);
      assert t[..n] == [t[0]] + t[1..][..n - 1];
      n
  }

  /** A run of whole segments is anything that is empty, ends with a delimiter, or reaches the end. */
  lemma {:induction false} SegmentsIff(t: string, atEnd: bool)
    ensures Segments(t, atEnd) <==> (t == [] || IsDelimiter(t[|t| - 1]) || atEnd)
    decreases |t|
  {
    if t != [] {
      if IsDelimiter(t[|t| - 1]) || atEnd {
        var n := FirstDelimiter(t);
        if n < |t| {
          SegmentsIff(t[n + 1..], atEnd);
          if n + 1 < |t| {
            assert t[n + 1..][|t[n + 1..]| - 1] == t[|t| - 1];
          }
        } else {
          assert t[..n] == t;
        }
      } else {
        if Segments(t, atEnd) {
          var n :| 0 <= n < |t| && IsDelimiter(t[n]) && NoDelimiter(t[..n]) && Segments(t[n + 1..], atEnd);
          SegmentsIff(t[n + 1..], atEnd);
        }
      }
    }
  }

  /** The globstar takes exactly the prefixes that consist of whole segments. */
  lemma GlobSpanIsSegments(s: string, j: nat)
    requires j <= |s|
    ensures GlobSpan(s, j) <==> Segments(s[..j], j == |s|)
  {
    SegmentsIff(s[..j], j == |s|);
  }

  // ---------------------------------------------------------------------
  // Which star runs become globstars

  /** A maximal run of stars starts at `i`. */
  predicate IsRunStart(p: string, i: nat)
  {
    i < |p| && p[i] == '*' && (i == 0 || p[i - 1] != '*')
  }

  /** `k` is not strictly inside a run of stars. */
  predicate AtRunBoundary(p: string, k: nat)
    requires k <= |p|
  {
    k == 0 || k == |p| || p[k - 1] != '*' || p[k] != '*'
  }

  /** No run starts strictly inside the run that starts at `i`, nor right after it. */
  lemma NoRunStartInside(p: string, i: nat, x: nat)
    requires IsRunStart(p, i) && i < x <= RunEnd(p, i)
    ensures !IsRunStart(p, x)
  {
    RunEndStars(p, i);
  }

  /** Some run starting at or after `k` compiles to a globstar (`globstar`) or to a wildcard (not). */
  ghost predicate QualifyingRunFrom(p: string, k: nat, globstar: bool)
  {
    exists i :: k <= i < |p| && IsRunStart(p, i) && IsGlobstarRun(p, i, RunEnd(p, i)) == globstar
  }

  lemma PeelRun(p: string, k: nat, globstar: bool)
    requires k < |p|
    ensures QualifyingRunFrom(p, k, globstar) <==>
      (IsRunStart(p, k) && IsGlobstarRun(p, k, RunEnd(p, k)) == globstar) || QualifyingRunFrom(p, k + 1, globstar)
  {
    if QualifyingRunFrom(p, k, globstar) {
      var i :| k <= i < |p| && IsRunStart(p, i) && IsGlobstarRun(p, i, RunEnd(p, i)) == globstar;
      if i > k {
        assert QualifyingRunFrom(p, k + 1, globstar);
      }
    }
  }

  /** Skipping positions where no run starts changes nothing. */
  lemma {:induction false} SkipNonStarts(p: string, k: nat, next: nat, globstar: bool)
    requires k <= next <= |p|
    requires forall i :: k <= i < next ==> !IsRunStart(p, i)
    ensures QualifyingRunFrom(p, k, globstar) <==> QualifyingRunFrom(p, next, globstar)
    decreases next - k
  {
    if k < next {
      PeelRun(p, k, globstar);
      SkipNonStarts(p, k + 1, next, globstar);
    }
  }

  /**
   * Reading the pattern from a run boundary `k`, a globstar (a wildcard) is
   * emitted iff some run starting at or after `k` qualifies (does not).
   */
  lemma {:induction false} RunsFrom(p: string, k: nat)
    requires k <= |p| && AtRunBoundary(p, k)
    ensures (Globstar in TokensFrom(p, k)) == QualifyingRunFrom(p, k, true)
    ensures (Star in TokensFrom(p, k)) == QualifyingRunFrom(p, k, false)
    decreases |p| - k
  {
    if k < |p| {
      if p[k] != '*' {
        RunsFrom(p, k + 1);
        assert TokensFrom(p, k) == [Lit(p[k])] + TokensFrom(p, k + 1);
        SkipNonStarts(p, k, k + 1, true);
        SkipNonStarts(p, k, k + 1, false);
      } else {
        var j := RunEnd(p, k);
        assert IsRunStart(p, k);
        RunTokens(p, k);
        PeelRun(p, k, true);
        PeelRun(p, k, false);
        var next := if IsGlobstarRun(p, k, j) && j < |p| then j + 1 else j;
        RunsFrom(p, next);
        forall i | k + 1 <= i < next
          ensures !IsRunStart(p, i)
        {
          if i <= j { NoRunStartInside(p, k, i); }
        }
        SkipNonStarts(p, k + 1, next, true);
        SkipNonStarts(p, k + 1, next, false);
      }
    }
  }

  /**
   * A run of stars compiles to a globstar iff it has two or more stars and
   * the characters around it are each absent, `/` or `:`; every other run
   * compiles to a single-segment wildcard.
   */
  lemma GlobstarIff(p: string)
    ensures Globstar in Tokenize(p) <==>
      exists i :: IsRunStart(p, i) && IsGlobstarRun(p, i, RunEnd(p, i))
    ensures Star in Tokenize(p) <==>
      exists i :: IsRunStart(p, i) && !IsGlobstarRun(p, i, RunEnd(p, i))
  {
    RunsFrom(p, 0);
  }

  /** Every run of two or more stars is bounded by delimiters or the ends. */
  predicate MultiStarsBounded(p: string)
  {
    forall i :: 0 <= i < |p| && IsRunStart(p, i) && RunEnd(p, i) - i >= 2 ==> IsGlobstarRun(p, i, RunEnd(p, i))
  }

  /** Each compiled piece of `p[k..]` accepts its own source text. */
  lemma {:induction false} SelfMatchFrom(p: string, k: nat)
    requires MultiStarsBounded(p)
    requires k <= |p| && AtRunBoundary(p, k)
    ensures Matches(TokensFrom(p, k), p[k..])
    decreases |p| - k, 2
  {
    if k < |p| {
      if p[k] != '*' {
        SelfMatchFrom(p, k + 1);
        assert p[k..][1..] == p[k + 1..];
      } else {
        SelfMatchRun(p, k);
      }
    }
  }

  /** The same, from the start of a run of stars. */
  lemma {:induction false} SelfMatchRun(p: string, k: nat)
    requires MultiStarsBounded(p)
    requires k < |p| && AtRunBoundary(p, k) && p[k] == '*'
    ensures Matches(TokensFrom(p, k), p[k..])
    decreases |p| - k, 1
  {
    assert IsRunStart(p, k);
    RunTokens(p, k);
    if IsGlobstarRun(p, k, RunEnd(p, k)) {
      SelfMatchGlobstar(p, k);
    } else {
      SelfMatchStar(p, k);
    }
  }

  /** A globstar run takes its own stars and the delimiter after them. */
  lemma {:induction false} SelfMatchGlobstar(p: string, k: nat)
    requires MultiStarsBounded(p)
    requires IsRunStart(p, k) && IsGlobstarRun(p, k, RunEnd(p, k))
    ensures var j := RunEnd(p, k);
      Matches([Globstar] + TokensFrom(p, if j < |p| then j + 1 else j), p[k..])
    decreases |p| - k, 0
  {
    var s := p[k..];
    var j := RunEnd(p, k);
    var next := if j < |p| then j + 1 else j;
    SelfMatchFrom(p, next);
    assert s[next - k..] == p[next..];
    GlobstarHead(TokensFrom(p, next), s, next - k);
  }

  /** Any other run is a single star, which takes itself. */
  lemma {:induction false} SelfMatchStar(p: string, k: nat)
    requires MultiStarsBounded(p)
    requires IsRunStart(p, k) && !IsGlobstarRun(p, k, RunEnd(p, k))
    ensures RunEnd(p, k) == k + 1
    ensures Matches([Star] + TokensFrom(p, k + 1), p[k..])
    decreases |p| - k, 0
  {
    var s := p[k..];
    var j := RunEnd(p, k);
    assert j == k + 1;
    SelfMatchFrom(p, j);
    assert s[1..] == p[j..];
    assert StarStep(s, 0);
    StarHead(TokensFrom(p, j), s, 1);
  }

  /** A wildcard that takes the first `j` characters, then the rest of the pieces. */
  lemma StarHead(toks: seq<Token>, s: string, j: nat)
    requires j <= |s| && StarSpan(s, j) && Matches(toks, s[j..])
    ensures Matches([Star] + toks, s)
  {
    assert ([Star] + toks)[1..] == toks;
  }

  /** A globstar that takes the first `j` characters, then the rest of the pieces. */
  lemma GlobstarHead(toks: seq<Token>, s: string, j: nat)
    requires j <= |s| && GlobSpan(s, j) && Matches(toks, s[j..])
    ensures Matches([Globstar] + toks, s)
  {
    assert ([Globstar] + toks)[1..] == toks;
  }

  /**
   * A pattern whose multi-star runs are all properly bounded accepts itself
   * as a candidate: a single `*` takes its own `*`, a globstar takes its own
   * stars and the delimiter after them.
   */
  lemma SelfMatch(p: string)
    requires MultiStarsBounded(p)
    ensures MatchGlob(p, p)
  {
    SelfMatchFrom(p, 0);
    assert p[0..] == p;
  }

  /** Without the boundary condition it fails: `a**b` does not accept `a**b`. */
  lemma NoSelfMatchUnbounded()
    ensures !MatchGlob("a**b", "a**b")
  {
    var p := "a**b";
    assert RunEnd(p, 1) == 3 by {
      assert RunEnd(p, 3) == 3;
      assert RunEnd(p, 2) == 3;
    }
    RunTokens(p, 1);
    assert TokensFrom(p, 3) == [Lit('b')] + TokensFrom(p, 4);
    assert Tokenize(p) == [Lit('a'), Star, Lit('b')];
    var s := "**b";
    assert !StarStep(s, 0);
    assert !Matches([Lit('b')], s);
    assert p[1..] == s;
  }

  // ---------------------------------------------------------------------
  // Patterns ending in a wildcard after a delimiter

  lemma TrailingTokens(w: string, d: char, stars: nat)
    requires '*' !in w && IsDelimiter(d) && 1 <= stars <= 2
    ensures var p := w + [d] + seq(stars, _ => '*');
      Tokenize(p) == Lits(w + [d]) + [if stars == 2 then Globstar else Star]
  {
    var p := w + [d] + seq(stars, _ => '*');
    var n := |w| + 1;
    StarFreeTokens(p, 0, n);
    assert p[0..n] == w + [d];
    assert RunEnd(p, n) == |p| by {
      if stars == 2 {
        assert RunEnd(p, n + 1) == |p|;
      }
    }
    RunTokens(p, n);
  }

  /**
   * `w`, a delimiter `d` and then two stars, with `w` star-free, accepts
   * exactly the candidates that start with `w` and `d`: any number of
   * segments may follow, but the
   * delimiter is a literal and must be there, so `<w>` alone is rejected.
   */
  lemma TrailingGlobstar(w: string, d: char, s: string)
    requires '*' !in w && IsDelimiter(d)
    ensures MatchGlob(w + [d] + "**", s) <==>
      |w| + 1 <= |s| && s[..|w| + 1] == w + [d]
  {
    assert "**" == seq(2, _ => '*');
    TrailingTokens(w, d, 2);
    LitsMatch(w + [d], [Globstar], s);
    if |w| + 1 <= |s| {
      var rest := s[|w| + 1..];
      assert GlobSpan(rest, |rest|) && Matches([], rest[|rest|..]);
    }
  }

  /**
   * `w`, a delimiter `d` and then one star, with `w` star-free, accepts
   * exactly `w` and `d` followed by one segment: no delimiter, and no two
   * stars in a row anywhere in it.
   */
  lemma TrailingStar(w: string, d: char, s: string)
    requires '*' !in w && IsDelimiter(d)
    ensures MatchGlob(w + [d] + "*", s) <==>
      |w| + 1 <= |s| && s[..|w| + 1] == w + [d] && StarSpan(s[|w| + 1..], |s| - |w| - 1)
  {
    assert "*" == seq(1, _ => '*');
    TrailingTokens(w, d, 1);
    LitsMatch(w + [d], [Star], s);
    if |w| + 1 <= |s| {
      var rest := s[|w| + 1..];
      assert Matches([Star], rest) <==> StarSpan(rest, |rest|) by {
        if StarSpan(rest, |rest|) {
          assert Matches([], rest[|rest|..]);
        }
      }
    }
  }

  /** A lone globstar accepts every candidate. */
  lemma GlobstarAcceptsAll(s: string)
    ensures MatchGlob("**", s)
  {
    var p := "**";
    assert RunEnd(p, 0) == 2 by { assert RunEnd(p, 1) == 2; }
    RunTokens(p, 0);
    assert Tokenize(p) == [Globstar];
    assert GlobSpan(s, |s|) && Matches([], s[|s|..]);
  }

  /** `article/` and two stars accepts neither `article` itself nor a sibling such as `articles`. */
  lemma ArticleGlobstarRejects()
    ensures !MatchGlob("article/**", "article")
    ensures !MatchGlob("article/**", "articles")
  {
    var w := "article";
    assert "article/**" == w + ['/'] + "**";
    TrailingGlobstar(w, '/', "article");
    TrailingGlobstar(w, '/', "articles");
    assert "articles"[..8] != w + ['/'] by { assert "articles"[7] == 's'; }
  }

  /** A trailing single star never takes a delimiter: a candidate with one past the prefix is refused. */
  lemma TrailingStarOneSegment(w: string, d: char, s: string, k: nat)
    requires '*' !in w && IsDelimiter(d)
    requires |w| + 1 <= k < |s| && IsDelimiter(s[k])
    ensures !MatchGlob(w + [d] + "*", s)
  {
    TrailingStar(w, d, s);
    var rest := s[|w| + 1..];
    assert rest[k - |w| - 1] == s[k];
    assert !StarStep(rest, k - |w| - 1);
  }

  /** `article/` and one star accepts nothing deeper than one segment. */
  lemma ArticleStarRejectsDeeper()
    ensures !MatchGlob("article/*", "article/*/comments")
  {
    var w := "article";
    assert "article/*" == w + ['/'] + "*";
    TrailingStarOneSegment(w, '/', "article/*/comments", 9);
  }

  /** Nor a segment with two stars in a row. */
  lemma ArticleStarRejectsGlobstar()
    ensures !MatchGlob("article/*", "article/**")
  {
    var w := "article";
    assert "article/*" == w + ['/'] + "*";
    TrailingStar(w, '/', "article/**");
    assert "article/**"[8..] == "**";
    assert !StarStep("**", 0);
  }

  // ---------------------------------------------------------------------
  // A globstar between two delimiters

  /** Star-free literals match exactly their own text. */
  lemma LitsExact(v: string, x: string)
    ensures Matches(Lits(v), x) <==> x == v
  {
    assert Lits(v) + [] == Lits(v);
    LitsMatch(v, [], x);
  }

  /**
   * A globstar followed by star-free literals `v`: the candidate ends with
   * `v`, and what the globstar takes before it is whole segments.
   */
  lemma GlobstarThenLits(v: string, rest: string)
    ensures Matches([Globstar] + Lits(v), rest) <==>
      |v| <= |rest| && rest[|rest| - |v|..] == v && GlobSpan(rest, |rest| - |v|)
  {
    if Matches([Globstar] + Lits(v), rest) {
      var j := GlobstarSplit(Lits(v), rest);
      LitsExact(v, rest[j..]);
    }
    if |v| <= |rest| && rest[|rest| - |v|..] == v && GlobSpan(rest, |rest| - |v|) {
      LitsExact(v, rest[|rest| - |v|..]);
      GlobstarHead(Lits(v), rest, |rest| - |v|);
    }
  }

  /** A matching globstar takes some first `j` characters, and the rest of the pieces match what follows. */
  lemma GlobstarSplit(toks: seq<Token>, s: string) returns (j: nat)
    requires Matches([Globstar] + toks, s)
    ensures j <= |s| && GlobSpan(s, j) && Matches(toks, s[j..])
  {
    assert ([Globstar] + toks)[1..] == toks;
    j :| 0 <= j <= |s| && GlobSpan(s, j) && Matches(toks, s[j..]);
  }

  /** How `w`, `d1`, two stars, `d2` and `v` compile: the globstar swallows `d2`. */
  lemma MidGlobstarTokens(w: string, d1: char, d2: char, v: string)
    requires '*' !in w && '*' !in v && IsDelimiter(d1) && IsDelimiter(d2)
    ensures Tokenize(w + [d1] + "**" + [d2] + v) == Lits(w + [d1]) + ([Globstar] + Lits(v))
  {
    var p := w + [d1] + "**" + [d2] + v;
    var n := |w| + 1;
    assert p[n - 1] == d1 && p[n] == '*' && p[n + 1] == '*' && p[n + 2] == d2;
    StarFreeTokens(p, 0, n);
    assert p[0..n] == w + [d1];
    assert RunEnd(p, n) == n + 2 by {
      assert RunEnd(p, n + 2) == n + 2;
      assert RunEnd(p, n + 1) == n + 2;
    }
    RunTokens(p, n);
    forall k | n + 3 <= k < |p|
      ensures p[k] != '*'
    {
      assert p[k] == v[k - n - 3];
    }
    StarFreeTokens(p, n + 3, |p|);
    assert p[n + 3..|p|] == v;
    assert Lits(v) + TokensFrom(p, |p|) == Lits(v);
  }

  /**
   * `w`, a delimiter, two stars, a delimiter and `v`, with `w` and `v`
   * star-free, accepts `w`, the first delimiter, some middle `t` and `v`,
   * where `t` is empty or ends with a delimiter: the globstar takes the
   * delimiter after it, so `a/` globstar `/b` accepts `a/b` and `a/x/y/b`
   * but not `a/xb`. With `v` empty the middle is unconstrained, so the
   * closing delimiter is not required.
   */
  lemma MidGlobstar(w: string, d1: char, d2: char, v: string, s: string)
    requires '*' !in w && '*' !in v && IsDelimiter(d1) && IsDelimiter(d2)
    ensures MatchGlob(w + [d1] + "**" + [d2] + v, s) <==>
      && |w| + 1 + |v| <= |s|
      && s[..|w| + 1] == w + [d1]
      && s[|s| - |v|..] == v
      && var t := s[|w| + 1..|s| - |v|];
         t == [] || IsDelimiter(t[|t| - 1]) || v == []
  {
    MidGlobstarTokens(w, d1, d2, v);
    LitsMatch(w + [d1], [Globstar] + Lits(v), s);
    if |w| + 1 <= |s| {
      var rest := s[|w| + 1..];
      GlobstarThenLits(v, rest);
      if |v| <= |rest| {
        assert rest[|rest| - |v|..] == s[|s| - |v|..];
        var m := |rest| - |v|;
        if m > 0 {
          assert rest[m - 1] == s[|w| + 1..|s| - |v|][m - 1];
        }
      }
    }
  }

  /** `a/` globstar `/b` accepts `a/b`: the middle may be empty. */
  lemma MidGlobstarEmpty()
    ensures MatchGlob("a/**/b", "a/b")
  {
    assert "a/**/b" == "a" + ['/'] + "**" + ['/'] + "b";
    MidGlobstar("a", '/', '/', "b", "a/b");
  }

  /** It accepts whole segments in the middle. */
  lemma MidGlobstarSegments()
    ensures MatchGlob("a/**/b", "a/x/y/b")
  {
    assert "a/**/b" == "a" + ['/'] + "**" + ['/'] + "b";
    MidGlobstar("a", '/', '/', "b", "a/x/y/b");
    assert "a/x/y/b"[2..6] == "x/y/";
  }

  /** It refuses part of a segment in the middle. */
  lemma MidGlobstarPartial()
    ensures !MatchGlob("a/**/b", "a/xb")
  {
    assert "a/**/b" == "a" + ['/'] + "**" + ['/'] + "b";
    MidGlobstar("a", '/', '/', "b", "a/xb");
    assert "a/xb"[2..3] == "x";
  }
}
