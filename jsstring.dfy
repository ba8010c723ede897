/**
 * The few JavaScript string built-ins the permission engine relies on:
 * `String.prototype.lastIndexOf`, `split` and `Array.prototype.join` with a
 * one-character separator, the `isNumeric` helper, `parseInt(s, 10)` and the
 * decimal rendering of a non-negative integer in a template string.
 */
module JsString {

  /** `s.lastIndexOf(c)`: the index of the last `c` in `s`, or -1 when there is none. */
  function LastIndexOf(s: string, c: char): (r: int)
    ensures -1 <= r < |s|
    ensures r >= 0 ==> s[r] == c
    ensures forall k :: r < k < |s| ==> s[k] != c
  {
    if s == [] then -1
    else if s[|s| - 1] == c then |s| - 1
    else LastIndexOf(s[..|s| - 1], c)
  }

  /** `parts.join(sep)`: the parts with `sep` between neighbours ("" for no parts). */
  function Join(parts: seq<string>, sep: char): (text: string)
  {
    if |parts| == 0 then ""
    else if |parts| == 1 then parts[0]
    else Join(parts[..|parts| - 1], sep) + [sep] + parts[|parts| - 1]
  }

  /**
   * `s.split(sep)`: the maximal `sep`-free pieces of `s`, in order; an empty
   * string gives one empty piece and neighbouring separators an empty piece
   * between them. Split and Join are inverse to each other.
   */
  function Split(s: string, sep: char): (parts: seq<string>)
    ensures |parts| >= 1
    ensures forall i :: 0 <= i < |parts| ==> sep !in parts[i]
    decreases |s|
  {
    var d := LastIndexOf(s, sep);
    if d == -1 then [s]
    else Split(s[..d], sep) + [s[d + 1..]]
  }

  /** Splitting and joining again gives the string back. */
  lemma {:induction false} JoinSplit(s: string, sep: char)
    ensures Join(Split(s, sep), sep) == s
    decreases |s|
  {
    var d := LastIndexOf(s, sep);
    if d != -1 {
      var front := Split(s[..d], sep);
      JoinSplit(s[..d], sep);
      assert Split(s, sep) == front + [s[d + 1..]];
      assert (front + [s[d + 1..]])[..|front|] == front;
      assert s == s[..d] + [sep] + s[d + 1..];
    }
  }

  /** Joining separator-free pieces and splitting again gives the pieces back. */
  lemma {:induction false} SplitJoin(parts: seq<string>, sep: char)
    requires |parts| >= 1
    requires forall i :: 0 <= i < |parts| ==> sep !in parts[i]
    ensures Split(Join(parts, sep), sep) == parts
    decreases |parts|
  {
    if |parts| == 1 {
      SplitSingle(parts[0], sep);
    } else {
      var front := parts[..|parts| - 1];
      var last := parts[|parts| - 1];
      SplitJoin(front, sep);
      JoinSnoc(front, sep, last);
      assert front + [last] == parts;
    }
  }

  /** A string without the separator is a single piece. */
  lemma SplitSingle(p: string, sep: char)
    requires sep !in p
    ensures Split(p, sep) == [p]
  {
  }

  /** Splitting after one more separator-free piece. */
  lemma JoinSnoc(front: seq<string>, sep: char, last: string)
    requires |front| >= 1 && sep !in last
    requires Split(Join(front, sep), sep) == front
    ensures Split(Join(front + [last], sep), sep) == front + [last]
  {
    var parts := front + [last];
    assert parts[..|parts| - 1] == front;
    SplitSnoc(Join(front, sep), sep, last);
  }

  /** A piece after the last separator is the last piece. */
  lemma SplitSnoc(a: string, sep: char, b: string)
    requires sep !in b
    ensures Split(a + [sep] + b, sep) == Split(a, sep) + [b]
  {
    var s := a + [sep] + b;
    LastIndexOfAfter(a, sep, b);
    assert s[..|a|] == a;
    assert s[|a| + 1..] == b;
  }

  /** In `a + [c] + b` with no `c` in `b`, the last `c` is the one after `a`. */
  lemma LastIndexOfAfter(a: string, c: char, b: string)
    requires c !in b
    ensures LastIndexOf(a + [c] + b, c) == |a|
  {
    var s := a + [c] + b;
    assert s[|a|] == c;
  }

  predicate IsDigit(c: char) { '0' <= c <= '9' }

  /** `isNumeric(s)`, taken to mean: a non-empty string of decimal digits. */
  predicate IsNumeric(s: string)
  {
    |s| > 0 && forall i :: 0 <= i < |s| ==> IsDigit(s[i])
  }

  /** `parseInt(s, 10)` on a string of decimal digits. */
  function DecimalValue(s: string): (n: nat)
    requires forall i :: 0 <= i < |s| ==> IsDigit(s[i])
  {
    if s == [] then 0
    else
      assert IsDigit(s[|s| - 1]);
      10 * DecimalValue(s[..|s| - 1]) + (s[|s| - 1] as int - '0' as int)
  }

  /** `${n}` for a non-negative integer `n`: its decimal digits, without leading zeros. */
  function DecimalString(n: nat): (s: string)
    ensures IsNumeric(s)
  {
    if n < 10 then [('0' as int + n) as char]
    else DecimalString(n / 10) + [('0' as int + n % 10) as char]
  }

  /** Printing a number and parsing it back gives the number. */
  lemma {:induction false} DecimalRoundTrip(n: nat)
    ensures DecimalValue(DecimalString(n)) == n
  {
    if n >= 10 {
      var s := DecimalString(n);
      assert s[..|s| - 1] == DecimalString(n / 10);
      DecimalRoundTrip(n / 10);
    }
  }
}
