/**
 * The permission-string validator: a purely syntactic check of a string of
 * the form `identifier?privileges`, against a privilege registry.
 *
 * Unlike the parser of `RNPermission`, which splits at the last `:`, the
 * validator splits at the last `?`; each component keeps its own delimiter
 * here, as in the code.
 */
module Validate {
  import opened JsString
  import opened Configuration
  import opened GlobToRegex
  import RNPermission

  /** The validator's argument: a string, or any other value. */
  datatype Input = Text(s: string) | NotText

  /** The delimiter the validator splits at. */
  const Delimiter := '?'

  // ---------------------------------------------------------------------
  // Privilege tokens

  /** `privilege < Math.min(...values)`; with no values the minimum is +Infinity. */
  predicate BelowAll(m: map<string, Mask>, n: nat)
  {
    forall k :: k in m ==> n < m[k]
  }

  /** `privilege >= Math.max(...values) * 2`; with no values that is -Infinity. */
  predicate AtLeastTwiceAll(m: map<string, Mask>, n: nat)
  {
    forall k :: k in m ==> n >= 2 * m[k]
  }

  /**
   * One token passes: a number from the minimum value up to, but not
   * including, twice the maximum value; or any configured name, whatever
   * its value.
   */
  predicate TokenValid(c: Config, t: string)
  {
    if IsNumeric(t) then
      !BelowAll(c.privileges, DecimalValue(t)) && !AtLeastTwiceAll(c.privileges, DecimalValue(t))
    else
      t in c.privileges
  }

  /** Every token passes. */
  predicate EveryTokenValid(c: Config, tokens: seq<string>)
  {
    forall i :: 0 <= i < |tokens| ==> TokenValid(c, tokens[i])
  }

  /** The `for...of` loop: stop at the first token that fails. */
  function AllTokensValid(c: Config, tokens: seq<string>): (ok: bool)
  {
    if tokens == [] then true
    else if !TokenValid(c, tokens[0]) then false
    else AllTokensValid(c, tokens[1..])
  }

  /** The early-exit loop accepts exactly when every token passes. */
  lemma {:induction false} AllTokensValidMeaning(c: Config, tokens: seq<string>)
    ensures AllTokensValid(c, tokens) <==> EveryTokenValid(c, tokens)
  {
    if tokens != [] {
      AllTokensValidMeaning(c, tokens[1..]);
      assert forall i :: 1 <= i < |tokens| ==> tokens[i] == tokens[1..][i - 1];
    }
  }

  /** `validatePrivileges(text)`: every comma-separated token passes. */
  function ValidatePrivileges(c: Config, text: string): (ok: bool)
  {
    AllTokensValid(c, Split(text, ','))
  }

  // ---------------------------------------------------------------------
  // Identifier checks

  /** A letter, a digit, or one of `.`, `_`, `-`, `:`, `/` and `*`. */
  predicate IsIdentifierChar(ch: char)
  {
    ('a' <= ch <= 'z') || ('A' <= ch <= 'Z') || ('0' <= ch <= '9')
    || ch == '.' || ch == '_' || ch == '-' || ch == ':' || ch == '/' || ch == '*'
  }

  /** The identifier character test: its pattern is unanchored, so one such character is enough. */
  predicate HasIdentifierChar(id: string)
  {
    exists i :: 0 <= i < |id| && IsIdentifierChar(id[i])
  }

  /** `**` at `i`, followed by a character other than `:`, `/` or `?`. */
  predicate StarStarThenOther(id: string, i: nat)
  {
    i + 2 < |id| && id[i] == '*' && id[i + 1] == '*' && id[i + 2] !in ":/?"
  }

  /** A character other than `:` or `/` at `i`, followed by `**`. */
  predicate OtherThenStarStar(id: string, i: nat)
  {
    i + 2 < |id| && id[i] !in ":/" && id[i + 1] == '*' && id[i + 2] == '*'
  }

  /** The first multistar test: some `**` comes before a character other than `:`, `/` or `?`. */
  predicate BadMultistarAfter(id: string)
  {
    exists i: nat | i < |id| :: StarStarThenOther(id, i)
  }

  /** The second multistar test: some `**` comes after a character other than `:` or `/`. */
  predicate BadMultistarBefore(id: string)
  {
    exists i: nat | i < |id| :: OtherThenStarStar(id, i)
  }

  // ---------------------------------------------------------------------
  // The validator

  /** The default export of the validator, one early return after another. */
  function Validate(input: Input, c: Config): (r: bool)
    ensures r ==> input.Text?
    ensures r ==> 0 < LastIndexOf(input.s, Delimiter)
  {
    if input.NotText? then false
    else
      var s := input.s;
      var d := LastIndexOf(s, Delimiter);
      if d <= 0 then false
      else
        var id := s[..d];
        if !HasIdentifierChar(id) then false
        else if BadMultistarAfter(id) then false
        else if BadMultistarBefore(id) then false
        else ValidatePrivileges(c, s[d + 1..])
  }

  /**
   * A string that validates has a `?` after a non-empty identifier, the
   * last one in it, and the identifier has an identifier character.
   */
  lemma ValidatedIdentifier(s: string, c: Config)
    requires Validate(Text(s), c)
    ensures var d := LastIndexOf(s, Delimiter);
      && 0 < d < |s| && s[d] == Delimiter && (forall k :: d < k < |s| ==> s[k] != Delimiter)
      && HasIdentifierChar(s[..d])
  {
  }

  /**
   * `validatePrivileges` accepts exactly the texts each of whose
   * comma-separated tokens is a configured name or a number in
   * `[min, 2 * max)`.
   */
  lemma ValidatePrivilegesMeaning(c: Config, text: string)
    ensures ValidatePrivileges(c, text) <==> EveryTokenValid(c, Split(text, ','))
  {
    AllTokensValidMeaning(c, Split(text, ','));
  }

  /**
   * Putting an identifier and a privilege text without `?` together: the
   * validator judges the two parts separately, and nothing else.
   */
  lemma ValidateSplit(id: string, rest: string, c: Config)
    requires Delimiter !in rest
    ensures Validate(Text(id + [Delimiter] + rest), c)
      <==> && |id| > 0 && HasIdentifierChar(id)
           && !BadMultistarAfter(id) && !BadMultistarBefore(id)
           && ValidatePrivileges(c, rest)
  {
    var s := id + [Delimiter] + rest;
    LastIndexOfAfter(id, Delimiter, rest);
    assert s[..|id|] == id && s[|id| + 1..] == rest;
  }

  /**
   * The multistar rules are what the glob compiler needs: in an identifier
   * without `?` that passes them, every run of two or more stars is exactly
   * `**`, standing between delimiters or the ends of the identifier. With a
   * `?` allowed the conclusion fails (`QuestionAfterGlobstar`).
   */
  lemma ValidMultistarsBounded(id: string)
    requires !BadMultistarAfter(id) && !BadMultistarBefore(id) && Delimiter !in id
    ensures MultiStarsBounded(id)
  {
    forall i | 0 <= i < |id| && IsRunStart(id, i) && RunEnd(id, i) - i >= 2
      ensures IsGlobstarRun(id, i, RunEnd(id, i))
    {
      var j := RunEnd(id, i);
      RunEndStars(id, i);
      assert !StarStarThenOther(id, i);
      assert i > 0 ==> !OtherThenStarStar(id, i - 1);
    }
  }

  /**
   * So a validated identifier without a `?` in it is accepted by the glob
   * it compiles to. A `?` after `**` breaks this (`QuestionAfterGlobstar`).
   */
  lemma ValidatedIdentifierSelfMatch(s: string, c: Config)
    requires Validate(Text(s), c)
    requires Delimiter !in s[..LastIndexOf(s, Delimiter)]
    ensures MatchGlob(s[..LastIndexOf(s, Delimiter)], s[..LastIndexOf(s, Delimiter)])
  {
    var id := s[..LastIndexOf(s, Delimiter)];
    ValidMultistarsBounded(id);
    SelfMatch(id);
  }

  /**
   * The first multistar test lets `**` be followed by `?`, which the glob
   * compiler does not treat as a delimiter. An earlier `?` stays in the
   * identifier, since the split is at the last one. So the identifier
   * below, `a`, `/`, `**`, `?`, `b`, validates whenever its privileges do,
   * yet its `**` compiles to a single-segment wildcard that refuses `**`,
   * and the identifier does not accept itself.
   * This is why the two lemmas above ask for an identifier without `?`.
   */
  lemma QuestionAfterGlobstar(rest: string, c: Config)
    requires Delimiter !in rest
    ensures Validate(Text("a/**?b" + [Delimiter] + rest), c) <==> ValidatePrivileges(c, rest)
    ensures !MatchGlob("a/**?b", "a/**?b")
  {
    var id := "a/**?b";
    ValidateSplit(id, rest, c);
    assert IsIdentifierChar(id[0]);
    assert !BadMultistarAfter(id) by {
      forall i: nat | i < |id| ensures !StarStarThenOther(id, i) {
      }
    }
    assert !BadMultistarBefore(id) by {
      forall i: nat | i < |id| ensures !OtherThenStarStar(id, i) {
      }
    }
    QuestionGlobstarNoSelfMatch();
  }

  /** The glob half: `**` before `?` is a single-segment wildcard, which refuses `**`. */
  lemma QuestionGlobstarNoSelfMatch()
    ensures !MatchGlob("a/**?b", "a/**?b")
  {
    var id := "a/**?b";
    assert RunEnd(id, 2) == 4 by {
      assert RunEnd(id, 4) == 4;
      assert RunEnd(id, 3) == 4;
    }
    RunTokens(id, 2);
    assert TokensFrom(id, 4) == [Lit('?'), Lit('b')] + TokensFrom(id, 6);
    assert Tokenize(id) == [Lit('a'), Lit('/'), Star, Lit('?'), Lit('b')];
    var s := "**?b";
    assert !StarStep(s, 0);
    assert !Matches([Lit('?'), Lit('b')], s);
    assert id[2..] == s;
  }

  /**
   * `**` followed by anything but `:`, `/` or `?`, or preceded by anything
   * but `:` or `/`, is refused, whatever the privileges.
   */
  lemma RejectsUnboundedMultistar(id: string, i: nat, rest: string, c: Config)
    requires Delimiter !in rest
    requires StarStarThenOther(id, i) || OtherThenStarStar(id, i)
    ensures !Validate(Text(id + [Delimiter] + rest), c)
  {
    ValidateSplit(id, rest, c);
  }

  // ---------------------------------------------------------------------
  // Agreement with the parser

  /**
   * A number is never split by `,`: its only token is itself.
   */
  lemma NumericSingleToken(text: string)
    requires IsNumeric(text)
    ensures Split(text, ',') == [text]
  {
    assert forall i :: 0 <= i < |text| ==> text[i] != ',';
  }

  /**
   * When no configured value is 0 and no token is a number, a privilege
   * text the validator accepts is one the parser resolves, to the OR of
   * the named values.
   */
  lemma ValidNamesParse(text: string, c: Config)
    requires ValidatePrivileges(c, text)
    requires forall k :: k in c.privileges ==> c.privileges[k] != 0
    requires forall i :: 0 <= i < |Split(text, ',')| ==> !IsNumeric(Split(text, ',')[i])
    ensures RNPermission.PrivilegesOf(text, c).Ok?
    ensures RNPermission.PrivilegesOf(text, c).value
      == OrAll(LookupAll(c.privileges, Split(text, ',')))
  {
    var tokens := Split(text, ',');
    if IsNumeric(text) {
      NumericSingleToken(text);
    }
    AllTokensValidMeaning(c, tokens);
    forall i | 0 <= i < |tokens|
      ensures RNPermission.Known(c.privileges, tokens[i])
    {
      assert TokenValid(c, tokens[i]);
    }
    RNPermission.OrNamesOk(tokens, c.privileges);
    RNPermission.OrNamesValue(tokens, c.privileges);
  }

  /**
   * The validator and the parser disagree on numbers: with values 1 and 2,
   * the privilege text `3` validates, as 3 is below twice the maximum (so,
   * by `ValidateSplit`, does `a?3`), yet the parser finds it out of range,
   * as it is above the maximum.
   */
  lemma NumberAboveMaximum()
    ensures var c := Config(map["read" := 1, "write" := 2], [], map[]);
      && ValidatePrivileges(c, "3")
      && RNPermission.PrivilegesOf("3", c) == RNPermission.Err(RNPermission.OutOfRange)
  {
    var c := Config(map["read" := 1, "write" := 2], [], map[]);
    assert Split("3", ',') == ["3"];
    assert DecimalValue("3") == 3;
    assert !BelowAll(c.privileges, 3) by { assert "read" in c.privileges; }
    assert !AtLeastTwiceAll(c.privileges, 3) by { assert "write" in c.privileges; }
  }

  /**
   * Numbers and names may be mixed for the validator (`5,read` passes when
   * 5 is in range) but not for the parser: a text that is not itself a
   * number is read as names only, so a number among the tokens is an
   * unknown privilege, unless some privilege is named by digits.
   */
  lemma MixedTokensRefused(text: string, c: Config, i: nat)
    requires !IsNumeric(text)
    requires i < |Split(text, ',')| && IsNumeric(Split(text, ',')[i])
    requires forall k :: k in c.privileges ==> !IsNumeric(k)
    ensures RNPermission.PrivilegesOf(text, c).Err?
  {
    var tokens := Split(text, ',');
    RNPermission.OrNamesOk(tokens, c.privileges);
    assert !RNPermission.Known(c.privileges, tokens[i]);
  }
}
