/**
 * A single resource name permission (`src/RNPermission.js`): a glob
 * identifier, a privilege bitmask and the registry it was parsed against.
 *
 * The source's instances are mutable objects with fluent setters; the pure
 * operations here work on the value `Perm` such an object holds at the time
 * of the call, and `class Permission` carries the operations that update
 * one in place. Every exception the source throws is an `Err` result.
 */
module RNPermission {
  import opened JsString
  import opened Bits
  import opened Configuration
  import opened GlobToRegex

  /** The exceptions the permission code throws. */
  datatype Error =
    | NotAPermission                 // the constructor got neither a string nor a permission
    | MissingDelimiter               // a permission string without `:`
    | OutOfRange                     // a numeric privilege outside 1 .. the largest configured value
    | UnknownPrivilege(name: string) // a privilege name that is missing or 0 in the registry
    | NotAPrivilege                  // `privileges()` or `hasPrivilege()` got an argument of another type
    | NoIdentifier                   // `matchIdentifier()` got a value without an `identifier()` method
    | NotAString                     // the `identifier()` setter got a value other than a string

  datatype Result<T> = Ok(value: T) | Err(error: Error)

  /** What an RNPermission object holds: `_identifier`, `_privileges` and `_config`. */
  datatype Perm = Perm(identifier: string, privileges: Mask, config: ValidConfig)

  /**
   * An argument that should be a permission: a permission string, an
   * RNPermission (by the value it holds; the source copies it before use), or
   * any other JavaScript value.
   */
  datatype Arg = Text(s: string) | Obj(v: Perm) | Other

  /** One argument of a rest parameter that `_.flatten` spreads one level. */
  datatype Spread = One(arg: Arg) | Many(args: seq<Arg>)

  /** `_.flatten(args)`: arrays are spread, other arguments kept, in order. */
  function Flatten(xs: seq<Spread>): (r: seq<Arg>)
    ensures forall a :: a in r <==>
      exists i :: 0 <= i < |xs| && (xs[i] == One(a) || (xs[i].Many? && a in xs[i].args))
  {
    if xs == [] then []
    else
      var last := xs[|xs| - 1];
      Flatten(xs[..|xs| - 1]) + (if last.One? then [last.arg] else last.args)
  }

  /** A single argument stays one element; a single array is spread into its elements. */
  lemma FlattenOne(x: Arg, xs: seq<Arg>)
    ensures Flatten([One(x)]) == [x]
    ensures Flatten([Many(xs)]) == xs
  {
    assert [One(x)][..0] == [];
    assert [Many(xs)][..0] == [];
  }

  lemma {:induction false} FlattenAppend(a: seq<Spread>, b: seq<Spread>)
    ensures Flatten(a + b) == Flatten(a) + Flatten(b)
    decreases |b|
  {
    if b == [] {
      assert a + b == a;
    } else {
      var front, last := b[..|b| - 1], b[|b| - 1];
      assert (a + b)[..|a + b| - 1] == a + front && (a + b)[|a + b| - 1] == last;
      FlattenAppend(a, front);
      calc {
        Flatten(a + b);
        Flatten(a + front) + (if last.One? then [last.arg] else last.args);
        Flatten(a) + Flatten(front) + (if last.One? then [last.arg] else last.args);
        Flatten(a) + Flatten(b);
      }
    }
  }

  // ---------------------------------------------------------------------
  // Privilege strings

  /** A JavaScript boolean used as a number operand: `true` is 1, `false` is 0. */
  function JsBool(b: bool): (n: nat)
  {
    if b then 1 else 0
  }

  /** `n > _.max(values)`: the number is above every configured value. */
  predicate AboveAll(m: map<string, Mask>, n: int)
  {
    forall k :: k in m ==> n > m[k]
  }

  /** `privileges[name]` is truthy: the name is configured with a non-zero value. */
  predicate Known(m: map<string, Mask>, name: string)
  {
    name in m && m[name] != 0
  }

  /**
   * What the name loop of `_parsePrivileges` computes: the OR of the values
   * of the names, or the exception for the first name that is not known.
   */
  function OrNames(names: seq<string>, m: map<string, Mask>): (r: Result<Mask>)
    ensures r.Err? ==> r.error.UnknownPrivilege?
  {
    if names == [] then Ok(0)
    else
      match OrNames(names[..|names| - 1], m)
      case Err(e) => Err(e)
      case Ok(v) =>
        var last := names[|names| - 1];
        if Known(m, last) then Ok(Or(v, m[last])) else Err(UnknownPrivilege(last))
  }

  /** The names resolve iff every one is known. */
  lemma {:induction false} OrNamesOk(names: seq<string>, m: map<string, Mask>)
    ensures OrNames(names, m).Ok? <==> forall i :: 0 <= i < |names| ==> Known(m, names[i])
  {
    if names != [] {
      var front := names[..|names| - 1];
      OrNamesOk(front, m);
      assert forall j :: 0 <= j < |front| ==> names[j] == front[j];
    }
  }

  /** Resolved names give the OR of their values. */
  lemma {:induction false} OrNamesValue(names: seq<string>, m: map<string, Mask>)
    requires OrNames(names, m).Ok?
    ensures OrNames(names, m).value == OrAll(LookupAll(m, names))
  {
    if names != [] {
      var front := names[..|names| - 1];
      var last := names[|names| - 1];
      OrNamesValue(front, m);
      assert names == front + [last];
      LookupAllSnoc(m, front, last);
      OrAllSnoc(LookupAll(m, front), m[last]);
    }
  }

  /** Otherwise the error names the first unknown one. */
  lemma {:induction false} OrNamesFirstUnknown(names: seq<string>, m: map<string, Mask>)
    requires OrNames(names, m).Err?
    ensures exists i ::
      && 0 <= i < |names|
      && OrNames(names, m).error == UnknownPrivilege(names[i])
      && !Known(m, names[i])
      && forall j :: 0 <= j < i ==> Known(m, names[j])
  {
    var front := names[..|names| - 1];
    var last := names[|names| - 1];
    assert forall j :: 0 <= j < |front| ==> names[j] == front[j];
    if OrNames(front, m).Err? {
      OrNamesFirstUnknown(front, m);
    } else {
      OrNamesOk(front, m);
      assert !Known(m, names[|names| - 1]);
    }
  }

  /** Once a prefix has thrown, later names do not matter. */
  lemma {:induction false} OrNamesErrPrefix(names: seq<string>, more: seq<string>, m: map<string, Mask>)
    requires OrNames(names, m).Err?
    ensures OrNames(names + more, m) == OrNames(names, m)
    decreases |more|
  {
    if more == [] {
      assert names + more == names;
    } else {
      var front := more[..|more| - 1];
      OrNamesErrPrefix(names, front, m);
      assert (names + more)[..|names + more| - 1] == names + front;
    }
  }

  /**
   * `_parsePrivileges(text)`: a numeric string is a bitmask, which must lie
   * between 1 and the largest configured value; anything else is a comma list
   * of names whose values are ORed.
   */
  function PrivilegesOf(text: string, c: Config): (r: Result<Mask>)
    ensures IsNumeric(text) ==>
      (r.Ok? <==> 0 < DecimalValue(text) && !AboveAll(c.privileges, DecimalValue(text)))
      && (r.Ok? ==> r.value == DecimalValue(text))
      && (r.Err? ==> r.error == OutOfRange)
    ensures !IsNumeric(text) ==> r == OrNames(Split(text, ','), c.privileges)
  {
    if IsNumeric(text) then
      var n := DecimalValue(text);
      if n <= 0 || AboveAll(c.privileges, n) then Err(OutOfRange)
      else Ok(n)
    else
      OrNames(Split(text, ','), c.privileges)
  }

  /** `_parsePrivileges` as the source writes it. */
  method ParsePrivileges(text: string, c: Config) returns (r: Result<Mask>)
    ensures r == PrivilegesOf(text, c)
  {
    if IsNumeric(text) {
      var n := DecimalValue(text);
      if n <= 0 || AboveAll(c.privileges, n) {
        return Err(OutOfRange);
      }
      return Ok(n);
    }
    r := OrNamesLoop(Split(text, ','), c.privileges);
  }

  /** The `forEach` of `_parsePrivileges`, which ORs each name's value into `bitmask`. */
  method OrNamesLoop(parts: seq<string>, m: map<string, Mask>) returns (r: Result<Mask>)
    ensures r == OrNames(parts, m)
  {
    var bitmask: Mask := 0;
    var i := 0;
    while i < |parts|
      invariant 0 <= i <= |parts|
      invariant OrNames(parts[..i], m) == Ok(bitmask)
    {
      var name := parts[i];
      assert parts[..i + 1][..i] == parts[..i];
      if !Known(m, name) {
        OrNamesErrPrefix(parts[..i + 1], parts[i + 1..], m);
        assert parts[..i + 1] + parts[i + 1..] == parts;
        return Err(UnknownPrivilege(name));
      }
      bitmask := Or(bitmask, m[name]);
      i := i + 1;
    }
    assert parts[..i] == parts;
    return Ok(bitmask);
  }

  /**
   * `_parse`: split at the last `:`; the identifier is everything before it
   * (and may itself contain `:`), the privileges everything after it.
   */
  function Parse(s: string, c: ValidConfig): (r: Result<Perm>)
    ensures r == Err(MissingDelimiter) <==> ':' !in s
    ensures r.Ok? ==>
      var id := r.value.identifier;
      && r.value.config == c
      && |id| < |s| && s[..|id|] == id && s[|id|] == ':' && ':' !in s[|id| + 1..]
      && PrivilegesOf(s[|id| + 1..], c) == Ok(r.value.privileges)
  {
    var d := LastIndexOf(s, ':');
    if d == -1 then Err(MissingDelimiter)
    else
      var b := PrivilegesOf(s[d + 1..], c);
      if b.Err? then assert b.error != MissingDelimiter; Err(b.error)
      else Ok(Perm(s[..d], b.value, c))
  }

  /**
   * Once a `:` is present, `_parse` fails exactly when the privileges after
   * the last `:` do, and with their error.
   */
  lemma ParseFollowsPrivileges(s: string, c: ValidConfig)
    requires ':' in s
    ensures var suffix := s[LastIndexOf(s, ':') + 1..];
      && (Parse(s, c).Ok? <==> PrivilegesOf(suffix, c).Ok?)
      && (Parse(s, c).Err? ==> Parse(s, c).error == PrivilegesOf(suffix, c).error)
  {
  }

  /**
   * `_parse` rejects only a missing `:`, so a string that starts with its
   * only `:` parses to the empty identifier.
   */
  lemma EmptyIdentifierParses(t: string, c: ValidConfig)
    requires ':' !in t && PrivilegesOf(t, c).Ok?
    ensures Parse([':'] + t, c) == Ok(Perm("", PrivilegesOf(t, c).value, c))
  {
    LastIndexOfAfter("", ':', t);
    assert "" + [':'] + t == [':'] + t;
    assert ([':'] + t)[1..] == t;
  }

  /** `toString()`: the identifier, `:` and the privileges in decimal. */
  function ToString(p: Perm): (text: string)
  {
    p.identifier + ":" + DecimalString(p.privileges)
  }

  /**
   * A permission whose bitmask is non-zero and no larger than the largest
   * configured value prints to a string that parses back to it.
   */
  lemma ParseToString(p: Perm)
    requires p.privileges != 0 && !AboveAll(p.config.privileges, p.privileges)
    ensures Parse(ToString(p), p.config) == Ok(p)
  {
    var digits := DecimalString(p.privileges);
    var s := ToString(p);
    assert ':' !in digits by {
      assert forall k :: 0 <= k < |digits| ==> IsDigit(digits[k]);
    }
    LastIndexOfAfter(p.identifier, ':', digits);
    assert s[..|p.identifier|] == p.identifier;
    assert s[|p.identifier| + 1..] == digits;
    DecimalRoundTrip(p.privileges);
  }

  /**
   * The converse fails for a bitmask above every configured value: it
   * prints as a number that `_parsePrivileges` rejects as out of range.
   */
  lemma ToStringAboveAll(p: Perm)
    requires AboveAll(p.config.privileges, p.privileges)
    ensures Parse(ToString(p), p.config) == Err(OutOfRange)
  {
    var digits := DecimalString(p.privileges);
    var s := ToString(p);
    assert ':' !in digits by {
      assert forall k :: 0 <= k < |digits| ==> IsDigit(digits[k]);
    }
    LastIndexOfAfter(p.identifier, ':', digits);
    assert s[..|p.identifier|] == p.identifier;
    assert s[|p.identifier| + 1..] == digits;
    DecimalRoundTrip(p.privileges);
  }

  /**
   * ... and names can build such a bitmask: with `read` 1 and `update` 4,
   * `read,update` is 5, above both values.
   */
  lemma NamesCanExceedEveryValue()
    ensures var c := Config(map["read" := 1, "update" := 4], [], map[]);
      && c.Valid()
      && OrNames(["read", "update"], c.privileges) == Ok(5)
      && AboveAll(c.privileges, 5)
  {
    var c := Config(map["read" := 1, "update" := 4], [], map[]);
    assert |c.privileges| == 2;
    assert ["read", "update"][..1] == ["read"];
    assert ["read"][..0] == [];
    assert Or(0, 1) == 1;
    assert Or(1, 4) == 5 by {
      assert Or(0, 2) == 2;
      assert Or(0, 1) == 1;
    }
  }

  // ---------------------------------------------------------------------
  // Converting arguments

  /** `new RNPermission(a)`, as a value: parse a string against `global`, copy a permission. */
  function Coerce(a: Arg, global: ValidConfig): (r: Result<Perm>)
  {
    match a
    case Text(s) => Parse(s, global)
    case Obj(v) => Ok(v)
    case Other => Err(NotAPermission)
  }

  /** The index of the first argument that cannot be converted, or |args|. */
  function FirstFailure(args: seq<Arg>, global: ValidConfig): (i: nat)
    ensures i <= |args|
    ensures forall j :: 0 <= j < i ==> Coerce(args[j], global).Ok?
    ensures i < |args| ==> Coerce(args[i], global).Err?
  {
    if args == [] || Coerce(args[0], global).Err? then 0
    else 1 + FirstFailure(args[1..], global)
  }

  /** The converted arguments, when every one converts. */
  function Coerced(args: seq<Arg>, global: ValidConfig): (ps: seq<Perm>)
    requires forall i :: 0 <= i < |args| ==> Coerce(args[i], global).Ok?
    ensures |ps| == |args|
    ensures forall i :: 0 <= i < |args| ==> Coerce(args[i], global) == Ok(ps[i])
  {
    if args == [] then []
    else Coerced(args[..|args| - 1], global) + [Coerce(args[|args| - 1], global).value]
  }

  /** `args.map(e => new RNPermission(e))`: all of them, or the first exception. */
  function CoerceAll(args: seq<Arg>, global: ValidConfig): (r: Result<seq<Perm>>)
    ensures r.Ok? <==> forall i :: 0 <= i < |args| ==> Coerce(args[i], global).Ok?
    ensures r.Ok? ==>
      |r.value| == |args| && forall i :: 0 <= i < |args| ==> Coerce(args[i], global) == Ok(r.value[i])
    ensures r.Err? ==>
      exists i :: 0 <= i < |args| && Coerce(args[i], global) == Err(r.error)
        && forall j :: 0 <= j < i ==> Coerce(args[j], global).Ok?
  {
    var i := FirstFailure(args, global);
    if i < |args| then Err(Coerce(args[i], global).error)
    else Ok(Coerced(args, global))
  }

  lemma CoerceAllAppend(a: seq<Arg>, b: seq<Arg>, global: ValidConfig)
    requires CoerceAll(a, global).Ok? && CoerceAll(b, global).Ok?
    ensures CoerceAll(a + b, global) == Ok(CoerceAll(a, global).value + CoerceAll(b, global).value)
  {
    var r := CoerceAll(a + b, global);
    assert forall i :: 0 <= i < |a + b| ==> Coerce((a + b)[i], global).Ok? by {
      forall i | 0 <= i < |a + b|
        ensures Coerce((a + b)[i], global).Ok?
      {
        if i >= |a| {
          assert (a + b)[i] == b[i - |a|];
        }
      }
    }
    var both := CoerceAll(a, global).value + CoerceAll(b, global).value;
    assert r.value == both by {
      forall i | 0 <= i < |a + b|
        ensures r.value[i] == both[i]
      {
        if i >= |a| {
          assert (a + b)[i] == b[i - |a|];
        }
      }
    }
  }

  // ---------------------------------------------------------------------
  // Privilege tests

  /**
   * `matchPrivileges(q)`, and `hasPrivilege` on one resolved mask: `q` is no
   * larger than the held mask `h` and shares at least one bit with it. This
   * is a numeric comparison plus an overlap, not a sub-mask test.
   */
  predicate MatchPrivileges(h: Mask, q: Mask)
  {
    q <= h && And(h, q) != 0
  }

  /** A non-empty sub-mask of the held mask always passes. */
  lemma SubMaskMatches(h: Mask, q: Mask)
    requires SubMask(q, h) && q != 0
    ensures MatchPrivileges(h, q)
  {
    SubMaskLe(q, h);
    AndSubMask(q, h);
  }

  /**
   * The converse fails: holding `read,update` (5) passes a test for
   * `read,create` (3) although `create` (2) is not held.
   */
  lemma MatchPrivilegesNotSubMask()
    ensures MatchPrivileges(5, 3) && !SubMask(3, 5)
  {
    assert And(5, 3) == 2 * And(2, 1) + 1;
    assert AndNot(3, 5) == 2 * AndNot(1, 2) + 0;
    assert AndNot(1, 2) == 2 * AndNot(0, 1) + 1;
  }

  /**
   * For a held mask of all ones below some bit (such as 63), the test is
   * exactly "non-zero and no larger", which is then the sub-mask test.
   */
  lemma LowOnesMatch(k: nat, q: Mask)
    ensures MatchPrivileges(Pow2(k) - 1, q) <==> 0 < q <= Pow2(k) - 1
    ensures MatchPrivileges(Pow2(k) - 1, q) <==> q != 0 && SubMask(q, Pow2(k) - 1)
  {
    LowOnesOrder(q, k);
    if 0 < q <= Pow2(k) - 1 {
      SubMaskMatches(Pow2(k) - 1, q);
    }
  }

  /** An argument of `hasPrivilege`: a number, a comma list, an array of such, or another value. */
  datatype Query = QNumber(n: nat) | QText(s: string) | QList(items: seq<Query>) | QOther

  /** One comma token of a string query resolves and passes `MatchPrivileges`. */
  predicate TokenHeld(p: Perm, t: string)
  {
    PrivilegesOf(t, p.config).Ok? && MatchPrivileges(p.privileges, PrivilegesOf(t, p.config).value)
  }

  /** What `hasPrivilege(q)` returning true means, without the evaluation order. */
  predicate Holds(p: Perm, q: Query)
  {
    match q
    case QNumber(n) => MatchPrivileges(p.privileges, n)
    case QText(s) => forall i :: 0 <= i < |Split(s, ',')| ==> TokenHeld(p, Split(s, ',')[i])
    case QList(items) => forall i :: 0 <= i < |items| ==> Holds(p, items[i])
    case QOther => false
  }

  /**
   * `hasPrivilege(q)`: an array holds when every element does, a number when
   * it passes `MatchPrivileges`, a string when every comma token resolves
   * (with `_parsePrivileges`) to a mask that passes; `every` stops at the
   * first failure, so a later token or element that would throw is not
   * looked at. Any other argument throws.
   */
  function HasPrivilege(p: Perm, q: Query): (r: Result<bool>)
    decreases q, 1
  {
    match q
    case QNumber(n) => Ok(MatchPrivileges(p.privileges, n))
    case QText(s) => EveryToken(p, Split(s, ','))
    case QList(items) => EveryQuery(p, q, 0)
    case QOther => Err(NotAPrivilege)
  }

  /** `_.every(items.slice(i), e => this.hasPrivilege(e))` for the array query `list`. */
  function EveryQuery(p: Perm, list: Query, i: nat): (r: Result<bool>)
    requires list.QList? && i <= |list.items|
    decreases list, 0, |list.items| - i
  {
    if i == |list.items| then Ok(true)
    else
      match HasPrivilege(p, list.items[i])
      case Err(e) => Err(e)
      case Ok(b) => if b then EveryQuery(p, list, i + 1) else Ok(false)
  }

  /** The `every` over the comma tokens of a string query. */
  function EveryToken(p: Perm, parts: seq<string>): (r: Result<bool>)
  {
    if parts == [] then Ok(true)
    else
      match PrivilegesOf(parts[0], p.config)
      case Err(e) => Err(e)
      case Ok(b) => if MatchPrivileges(p.privileges, b) then EveryToken(p, parts[1..]) else Ok(false)
  }

  /**
   * `every` over comma tokens throws iff the first token that does not hold
   * fails to resolve: every token before it holds.
   */
  predicate TokensRaise(p: Perm, parts: seq<string>)
  {
    exists i :: 0 <= i < |parts| && PrivilegesOf(parts[i], p.config).Err?
      && forall j :: 0 <= j < i ==> TokenHeld(p, parts[j])
  }

  /**
   * The tokens all hold iff the result is true; an exception comes exactly
   * when the first token that does not hold does not resolve, and it is
   * that token's error.
   */
  lemma {:induction false} EveryTokenMeaning(p: Perm, parts: seq<string>)
    ensures EveryToken(p, parts) == Ok(true) <==> forall i :: 0 <= i < |parts| ==> TokenHeld(p, parts[i])
    ensures EveryToken(p, parts).Err? <==> TokensRaise(p, parts)
    ensures EveryToken(p, parts).Err? ==>
      exists i :: 0 <= i < |parts| && PrivilegesOf(parts[i], p.config) == Err(EveryToken(p, parts).error)
        && forall j :: 0 <= j < i ==> TokenHeld(p, parts[j])
  {
    if parts != [] {
      EveryTokenMeaning(p, parts[1..]);
      assert forall i :: 0 < i < |parts| ==> parts[i] == parts[1..][i - 1];
      if EveryToken(p, parts).Err? && PrivilegesOf(parts[0], p.config).Ok? {
        var k :| 0 <= k < |parts[1..]| && PrivilegesOf(parts[1..][k], p.config) == Err(EveryToken(p, parts).error)
          && forall j :: 0 <= j < k ==> TokenHeld(p, parts[1..][j]);
        assert PrivilegesOf(parts[k + 1], p.config) == Err(EveryToken(p, parts).error);
      }
    }
    EveryTokenRaises(p, parts);
  }

  lemma {:induction false} EveryTokenRaises(p: Perm, parts: seq<string>)
    ensures EveryToken(p, parts).Err? <==> TokensRaise(p, parts)
  {
    if parts != [] {
      EveryTokenRaises(p, parts[1..]);
      TokensRaiseStep(p, parts);
    }
  }

  /** The first token raises, or it holds and the rest raise. */
  lemma TokensRaiseStep(p: Perm, parts: seq<string>)
    requires parts != []
    ensures TokensRaise(p, parts) <==>
      PrivilegesOf(parts[0], p.config).Err? || (TokenHeld(p, parts[0]) && TokensRaise(p, parts[1..]))
  {
    if TokensRaise(p, parts) && PrivilegesOf(parts[0], p.config).Ok? {
      var k :| 0 <= k < |parts| && PrivilegesOf(parts[k], p.config).Err?
        && forall j :: 0 <= j < k ==> TokenHeld(p, parts[j]);
      assert parts[1..][k - 1] == parts[k];
      assert forall j :: 0 <= j < k - 1 ==> parts[1..][j] == parts[j + 1];
    }
    if TokenHeld(p, parts[0]) && TokensRaise(p, parts[1..]) {
      var k :| 0 <= k < |parts[1..]| && PrivilegesOf(parts[1..][k], p.config).Err?
        && forall j :: 0 <= j < k ==> TokenHeld(p, parts[1..][j]);
      assert parts[k + 1] == parts[1..][k];
      assert forall j :: 0 < j < k + 1 ==> parts[j] == parts[1..][j - 1];
    }
  }

  /** `hasPrivilege(q)` returns true exactly when `q` holds. */
  lemma {:induction false} HasPrivilegeMeaning(p: Perm, q: Query)
    ensures HasPrivilege(p, q) == Ok(true) <==> Holds(p, q)
    decreases q, 1
  {
    match q
    case QNumber(n) =>
    case QText(s) => EveryTokenMeaning(p, Split(s, ','));
    case QList(items) => EveryQueryMeaning(p, q, 0);
    case QOther =>
  }

  lemma {:induction false} EveryQueryMeaning(p: Perm, list: Query, i: nat)
    requires list.QList? && i <= |list.items|
    ensures EveryQuery(p, list, i) == Ok(true) <==> forall j :: i <= j < |list.items| ==> Holds(p, list.items[j])
    decreases list, 0, |list.items| - i
  {
    if i < |list.items| {
      HasPrivilegeMeaning(p, list.items[i]);
      EveryQueryMeaning(p, list, i + 1);
    }
  }

  /**
   * When `hasPrivilege(q)` throws rather than answering: for another kind
   * of value; for a string, when the first comma token that does not hold
   * fails to resolve; for an array, when the first element that does not
   * hold throws. A number never throws.
   */
  predicate Raises(p: Perm, q: Query)
    decreases q, 1
  {
    match q
    case QNumber(n) => false
    case QText(s) => TokensRaise(p, Split(s, ','))
    case QList(items) => ItemsRaise(p, q, 0)
    case QOther => true
  }

  /** Some element from `i` on raises, and every element before it (from `i`) holds. */
  predicate ItemsRaise(p: Perm, list: Query, i: nat)
    requires list.QList?
    decreases list, 0
  {
    exists j :: i <= j < |list.items| && Raises(p, list.items[j])
      && forall k :: i <= k < j ==> Holds(p, list.items[k])
  }

  /** The element at `i` raises, or it holds and a later one raises. */
  lemma ItemsRaiseStep(p: Perm, list: Query, i: nat)
    requires list.QList? && i < |list.items|
    ensures ItemsRaise(p, list, i) <==>
      Raises(p, list.items[i]) || (Holds(p, list.items[i]) && ItemsRaise(p, list, i + 1))
  {
    var items := list.items;
    if ItemsRaise(p, list, i) && !Raises(p, items[i]) {
      var j :| i <= j < |items| && Raises(p, items[j]) && forall k :: i <= k < j ==> Holds(p, items[k]);
      assert j > i && Holds(p, items[i]);
    }
  }

  /** `hasPrivilege(q)` throws exactly when `q` raises. */
  lemma {:induction false} HasPrivilegeRaises(p: Perm, q: Query)
    ensures HasPrivilege(p, q).Err? <==> Raises(p, q)
    decreases q, 1
  {
    match q
    case QNumber(n) =>
    case QText(s) => EveryTokenRaises(p, Split(s, ','));
    case QList(items) => EveryQueryRaises(p, q, 0);
    case QOther =>
  }

  lemma {:induction false} EveryQueryRaises(p: Perm, list: Query, i: nat)
    requires list.QList? && i <= |list.items|
    ensures EveryQuery(p, list, i).Err? <==> ItemsRaise(p, list, i)
    decreases list, 0, |list.items| - i
  {
    if i < |list.items| {
      HasPrivilegeMeaning(p, list.items[i]);
      HasPrivilegeRaises(p, list.items[i]);
      EveryQueryRaises(p, list, i + 1);
      ItemsRaiseStep(p, list, i);
    }
  }

  // ---------------------------------------------------------------------
  // Delegation privileges

  /**
   * `grantPrivileges()` restricted to the names `gs`: those for which
   * `hasPrivilege(name)` is true, in the order of `gs`.
   */
  function GrantNamesFrom(p: Perm, gs: seq<string>): (names: seq<string>)
  {
    if gs == [] then []
    else
      var g := gs[|gs| - 1];
      GrantNamesFrom(p, gs[..|gs| - 1]) + (if HasPrivilege(p, QText(g)) == Ok(true) then [g] else [])
  }

  /** `grantPrivileges()`: the delegation-capable names the permission holds, in registry order. */
  function GrantNames(p: Perm): (names: seq<string>)
  {
    GrantNamesFrom(p, p.config.grantOrder)
  }

  /**
   * In a valid registry a delegation-capable name resolves on its own to its
   * configured value, so testing it never throws and is `MatchPrivileges`.
   */
  lemma GrantNameHeld(p: Perm, g: string)
    requires g in p.config.grantOrder
    ensures HasPrivilege(p, QText(g)) == Ok(MatchPrivileges(p.privileges, p.config.privileges[g]))
  {
    assert Split(g, ',') == [g];
    assert OrNames([g], p.config.privileges) == Ok(p.config.privileges[g]) by {
      assert [g][..0] == [];
    }
    assert PrivilegesOf(g, p.config) == Ok(p.config.privileges[g]);
    assert [g][1..] == [];
    assert EveryToken(p, []) == Ok(true);
    assert EveryToken(p, [g]) == Ok(MatchPrivileges(p.privileges, p.config.privileges[g]));
  }

  /**
   * A name is listed iff it is delegation-capable and its own value passes
   * `MatchPrivileges` against the held mask; no name is listed twice.
   */
  lemma {:induction false} GrantNamesFromMeaning(p: Perm, gs: seq<string>)
    requires forall g :: g in gs ==> g in p.config.grantOrder
    requires forall i, j :: 0 <= i < j < |gs| ==> gs[i] != gs[j]
    ensures forall g :: g in GrantNamesFrom(p, gs) <==>
      g in gs && MatchPrivileges(p.privileges, p.config.privileges[g])
    ensures forall i, j :: 0 <= i < j < |GrantNamesFrom(p, gs)| ==>
      GrantNamesFrom(p, gs)[i] != GrantNamesFrom(p, gs)[j]
  {
    if gs != [] {
      var front := gs[..|gs| - 1];
      var g := gs[|gs| - 1];
      assert gs == front + [g];
      GrantNamesFromMeaning(p, front);
      GrantNameHeld(p, g);
      assert g !in front;
    }
  }

  lemma GrantNamesMeaning(p: Perm)
    ensures forall g :: g in GrantNames(p) <==>
      g in p.config.grantOrder && MatchPrivileges(p.privileges, p.config.privileges[g])
    ensures forall i, j :: 0 <= i < j < |GrantNames(p)| ==> GrantNames(p)[i] != GrantNames(p)[j]
  {
    GrantNamesFromMeaning(p, p.config.grantOrder);
  }

  /** Every listed name is one of `gs`. */
  lemma {:induction false} GrantNamesFromWithin(p: Perm, gs: seq<string>)
    ensures forall i :: 0 <= i < |GrantNamesFrom(p, gs)| ==> GrantNamesFrom(p, gs)[i] in gs
  {
    if gs != [] {
      var front := gs[..|gs| - 1];
      GrantNamesFromWithin(p, front);
      assert forall g :: g in front ==> g in gs;
    }
  }

  /** Any two of `names` appear in `gs` in the same order. */
  ghost predicate InOrderOf(names: seq<string>, gs: seq<string>)
  {
    forall i, j :: 0 <= i < j < |names| ==> PairInOrder(names[i], names[j], gs)
  }

  /** `x` occurs in `gs` before some occurrence of `y`. */
  ghost predicate PairInOrder(x: string, y: string, gs: seq<string>)
  {
    exists a, b :: 0 <= a < b < |gs| && gs[a] == x && gs[b] == y
  }

  /** The listed names keep the order they have in `gs`. */
  lemma {:induction false} GrantNamesFromOrder(p: Perm, gs: seq<string>)
    ensures InOrderOf(GrantNamesFrom(p, gs), gs)
  {
    if gs != [] {
      var front := gs[..|gs| - 1];
      var g := gs[|gs| - 1];
      GrantNamesFromOrder(p, front);
      GrantNamesFromWithin(p, front);
      assert gs == front + [g];
      InOrderSnoc(GrantNamesFrom(p, front), front, g, HasPrivilege(p, QText(g)) == Ok(true));
    }
  }

  /** Appending the same name, or nothing, to an ordered list and its source keeps the order. */
  lemma InOrderSnoc(names: seq<string>, gs: seq<string>, g: string, keep: bool)
    requires InOrderOf(names, gs)
    requires forall i :: 0 <= i < |names| ==> names[i] in gs
    ensures InOrderOf(names + (if keep then [g] else []), gs + [g])
  {
    var all := names + (if keep then [g] else []);
    var src := gs + [g];
    forall i, j | 0 <= i < j < |all|
      ensures PairInOrder(all[i], all[j], src)
    {
      assert all[i] == names[i];
      if j < |names| {
        assert all[j] == names[j];
        assert PairInOrder(names[i], names[j], gs);
        var a, b :| 0 <= a < b < |gs| && gs[a] == names[i] && gs[b] == names[j];
        assert src[a] == all[i] && src[b] == all[j];
      } else {
        assert names[i] in gs;
        var a :| 0 <= a < |gs| && gs[a] == names[i];
        assert src[a] == all[i] && src[|gs|] == all[j];
      }
    }
  }

  /**
   * `grantPrivileges()` lists the held delegation names in the order the
   * registry's `grantPrivileges` keys have.
   */
  lemma GrantNamesOrder(p: Perm)
    ensures InOrderOf(GrantNames(p), p.config.grantOrder)
  {
    GrantNamesFromOrder(p, p.config.grantOrder);
  }

  /** `grantsAllowed()`: the OR of the grant masks of the held delegation names. */
  function GrantsAllowed(p: Perm): (m: Mask)
  {
    OrAll(LookupAll(p.config.grantPrivileges, GrantNames(p)))
  }

  /**
   * `grantsAllowed()` is the least mask above the grant mask of every held
   * delegation name: each of them is inside it, and any mask that covers all
   * of them covers it.
   */
  lemma GrantsAllowedBounds(p: Perm, bound: Mask)
    ensures forall g :: g in p.config.grantOrder && MatchPrivileges(p.privileges, p.config.privileges[g]) ==>
      SubMask(p.config.grantPrivileges[g], GrantsAllowed(p))
    ensures (forall g :: g in p.config.grantOrder && MatchPrivileges(p.privileges, p.config.privileges[g]) ==>
      SubMask(p.config.grantPrivileges[g], bound)) ==> SubMask(GrantsAllowed(p), bound)
  {
    GrantNamesMeaning(p);
    var names := GrantNames(p);
    var ms := LookupAll(p.config.grantPrivileges, names);
    OrAllUpper(ms);
    forall g | g in p.config.grantOrder && MatchPrivileges(p.privileges, p.config.privileges[g])
      ensures SubMask(p.config.grantPrivileges[g], GrantsAllowed(p))
    {
      var i :| 0 <= i < |names| && names[i] == g;
      assert ms[i] == p.config.grantPrivileges[g];
    }
    if forall g :: g in p.config.grantOrder && MatchPrivileges(p.privileges, p.config.privileges[g]) ==>
      SubMask(p.config.grantPrivileges[g], bound)
    {
      forall i | 0 <= i < |ms|
        ensures SubMask(ms[i], bound)
      {
        assert names[i] in names;
      }
      OrAllLeast(ms, bound);
    }
  }

  /** A permission holding no delegation name may grant nothing. */
  lemma GrantsAllowedNone(p: Perm)
    requires forall g :: g in p.config.grantOrder ==> !MatchPrivileges(p.privileges, p.config.privileges[g])
    ensures GrantsAllowed(p) == 0
  {
    GrantsAllowedBounds(p, 0);
    SubMaskLe(GrantsAllowed(p), 0);
  }

  // ---------------------------------------------------------------------
  // Identifiers and `allows`

  /**
   * `matchIdentifier(a)`: the identifier of `a` (parsed against the global
   * registry when `a` is a string) is accepted by this permission's glob.
   */
  function MatchIdentifier(p: Perm, a: Arg, global: ValidConfig): (r: Result<bool>)
    ensures a.Obj? ==> r == Ok(MatchGlob(p.identifier, a.v.identifier))
    ensures a.Text? ==> (r.Ok? <==> Parse(a.s, global).Ok?)
    ensures a.Text? && r.Ok? ==> r.value == MatchGlob(p.identifier, a.s[..LastIndexOf(a.s, ':')])
    ensures a.Other? ==> r == Err(NoIdentifier)
  {
    match a
    case Text(s) =>
      (match Parse(s, global)
       case Err(e) => Err(e)
       case Ok(e) => Ok(MatchGlob(p.identifier, e.identifier)))
    case Obj(v) => Ok(MatchGlob(p.identifier, v.identifier))
    case Other => Err(NoIdentifier)
  }

  /** `this.matchIdentifier(e) && this.matchPrivileges(e.privileges())`. */
  predicate Covers(p: Perm, e: Perm)
  {
    MatchGlob(p.identifier, e.identifier) && MatchPrivileges(p.privileges, e.privileges)
  }

  /**
   * `allows(...args)`: every argument (arrays spread one level) converts to
   * a permission, the first that does not throwing, and the result is
   * whether this permission covers each of them.
   */
  function Allows(p: Perm, args: seq<Spread>, global: ValidConfig): (r: Result<bool>)
    ensures r.Ok? <==> forall a :: a in Flatten(args) ==> Coerce(a, global).Ok?
    ensures r == Ok(true) <==>
      forall a :: a in Flatten(args) ==> Coerce(a, global).Ok? && Covers(p, Coerce(a, global).value)
    ensures r.Err? ==> exists a :: a in Flatten(args) && Coerce(a, global) == Err(r.error)
  {
    var all := CoerceAll(Flatten(args), global);
    assert forall a :: a in Flatten(args) ==> exists i :: 0 <= i < |Flatten(args)| && Flatten(args)[i] == a;
    match all
    case Err(e) => Err(e)
    case Ok(ps) => Ok(forall i :: 0 <= i < |ps| ==> Covers(p, ps[i]))
  }

  /** Passing the arguments in two calls gives the same verdict as passing them together. */
  lemma AllowsSplit(p: Perm, a: seq<Spread>, b: seq<Spread>, global: ValidConfig)
    ensures Allows(p, a + b, global) == Ok(true) <==>
      Allows(p, a, global) == Ok(true) && Allows(p, b, global) == Ok(true)
  {
    FlattenAppend(a, b);
  }

  /**
   * A permission allows itself when its privileges are non-zero and its
   * glob matches itself (every run of two or more stars is a globstar).
   */
  lemma AllowsSelf(p: Perm, global: ValidConfig)
    requires p.privileges != 0 && MultiStarsBounded(p.identifier)
    ensures Allows(p, [One(Obj(p))], global) == Ok(true)
  {
    SelfMatch(p.identifier);
    SubMaskRefl(p.privileges);
    SubMaskMatches(p.privileges, p.privileges);
    assert Covers(p, p);
    assert Coerce(Obj(p), global) == Ok(p);
    assert Flatten([One(Obj(p))]) == [Obj(p)] by {
      assert [One(Obj(p))][..0] == [];
    }
    assert forall a :: a in [Obj(p)] ==> a == Obj(p);
  }

  // ---------------------------------------------------------------------
  // Delegation: `mayGrant`, `mayRevoke`

  /**
   * The first test of `_areLesserPrivileges` as written: `a & b === 0`
   * parses as `a & (b === 0)`, so its right operand is the boolean
   * `allowed === 0` used as 0 or 1.
   */
  predicate GrantRefused(toGrant: Mask, allowed: Mask)
  {
    toGrant > allowed || And(toGrant, JsBool(allowed == 0)) != 0
  }

  /** The grantee test of `_areLesserPrivileges` as written, with the same precedence. */
  predicate GranteeRefused(granteeMask: Mask, allowed: Mask)
  {
    granteeMask != 0 && (granteeMask > allowed || And(allowed, JsBool(granteeMask == 0)) != 0)
  }

  /**
   * Both `&` disjuncts are dead: the tests are a plain numeric comparison,
   * which is not a sub-mask test (3 is below 4 but shares no bit with it),
   * except against a mask of all ones below some bit (such as 63 or 127).
   */
  lemma RefusalEffective(x: Mask, allowed: Mask)
    ensures GrantRefused(x, allowed) <==> x > allowed
    ensures GranteeRefused(x, allowed) <==> x != 0 && x > allowed
    ensures !GrantRefused(3, 4) && !SubMask(3, 4)
    ensures forall k: nat :: allowed == Pow2(k) - 1 ==> (!GrantRefused(x, allowed) <==> SubMask(x, allowed))
  {
    if allowed == 0 && And(x, 1) != 0 {
      assert x != 0;
    }
    assert AndNot(3, 4) == 2 * AndNot(1, 2) + 1;
    assert AndNot(1, 2) == 2 * AndNot(0, 1) + 1;
    forall k: nat | allowed == Pow2(k) - 1
      ensures !GrantRefused(x, allowed) <==> SubMask(x, allowed)
    {
      LowOnesOrder(x, k);
    }
  }

  /** `e ? this._config.privileges[e] : 0`: an empty or unconfigured name counts 0. */
  function NameValue(m: map<string, Mask>, name: string): (v: Mask)
    ensures v == 0 <==> name == "" || name !in m || m[name] == 0
  {
    if name == "" then 0 else Lookup(m, name)
  }

  function NameValues(m: map<string, Mask>, names: seq<string>): (vs: seq<Mask>)
    ensures |vs| == |names|
    ensures forall i :: 0 <= i < |names| ==> vs[i] == NameValue(m, names[i])
  {
    if names == [] then [] else NameValues(m, names[..|names| - 1]) + [NameValue(m, names[|names| - 1])]
  }

  /**
   * `.filter(e => e.matchIdentifier(this)).map(e => e.grantPrivileges())`
   * flattened: the delegation names held by the grantee permissions whose
   * glob accepts the grantor's identifier, in order.
   */
  function GranteeNames(p: Perm, gs: seq<Perm>): (names: seq<string>)
  {
    if gs == [] then []
    else
      var e := gs[|gs| - 1];
      GranteeNames(p, gs[..|gs| - 1]) + (if MatchGlob(e.identifier, p.identifier) then GrantNames(e) else [])
  }

  /** The OR, in the grantor's registry, of the grantee delegation names' own values. */
  function GranteeMask(p: Perm, gs: seq<Perm>): (m: Mask)
  {
    OrAll(NameValues(p.config.privileges, GranteeNames(p, gs)))
  }

  /** A grantee name comes from a grantee whose glob accepts the grantor. */
  lemma {:induction false} GranteeNamesMeaning(p: Perm, gs: seq<Perm>)
    ensures forall n :: n in GranteeNames(p, gs) <==>
      exists i :: 0 <= i < |gs| && MatchGlob(gs[i].identifier, p.identifier) && n in GrantNames(gs[i])
  {
    if gs != [] {
      var front := gs[..|gs| - 1];
      GranteeNamesMeaning(p, front);
      assert forall i :: 0 <= i < |front| ==> gs[i] == front[i];
    }
  }

  /**
   * The grantee mask is the least mask above the value of every such name:
   * each is inside it and any mask covering all of them covers it.
   */
  lemma GranteeMaskBounds(p: Perm, gs: seq<Perm>, bound: Mask)
    ensures forall i, n :: 0 <= i < |gs| && MatchGlob(gs[i].identifier, p.identifier) && n in GrantNames(gs[i]) ==>
      SubMask(NameValue(p.config.privileges, n), GranteeMask(p, gs))
    ensures (forall i, n :: 0 <= i < |gs| && MatchGlob(gs[i].identifier, p.identifier) && n in GrantNames(gs[i]) ==>
      SubMask(NameValue(p.config.privileges, n), bound)) ==> SubMask(GranteeMask(p, gs), bound)
  {
    GranteeNamesMeaning(p, gs);
    var names := GranteeNames(p, gs);
    var vs := NameValues(p.config.privileges, names);
    OrAllUpper(vs);
    forall i, n | 0 <= i < |gs| && MatchGlob(gs[i].identifier, p.identifier) && n in GrantNames(gs[i])
      ensures SubMask(NameValue(p.config.privileges, n), GranteeMask(p, gs))
    {
      assert n in names;
      var k :| 0 <= k < |names| && names[k] == n;
      assert vs[k] == NameValue(p.config.privileges, n);
    }
    if forall i, n :: 0 <= i < |gs| && MatchGlob(gs[i].identifier, p.identifier) && n in GrantNames(gs[i]) ==>
      SubMask(NameValue(p.config.privileges, n), bound)
    {
      forall k | 0 <= k < |vs|
        ensures SubMask(vs[k], bound)
      {
        assert names[k] in names;
      }
      OrAllLeast(vs, bound);
    }
  }

  /**
   * `_areLesserPrivileges(np, grantees)`: the mask to grant must pass the
   * first test against `grantsAllowed()`; then, when grantees are given,
   * they are converted (the first that cannot be throws) and their
   * delegation mask must pass the second.
   */
  function AreLesserPrivileges(p: Perm, np: Perm, grantees: seq<Arg>, global: ValidConfig): (r: Result<bool>)
  {
    var allowed := GrantsAllowed(p);
    if GrantRefused(np.privileges, allowed) then Ok(false)
    else if |grantees| > 0 then
      match CoerceAll(grantees, global)
      case Err(e) => Err(e)
      case Ok(gs) => Ok(!GranteeRefused(GranteeMask(p, gs), allowed))
    else Ok(true)
  }

  /**
   * `mayGrant(cand, grantees)`: false when nothing may be granted or the
   * candidate's identifier is outside this glob, otherwise
   * `_areLesserPrivileges`.
   */
  function MayGrant(p: Perm, cand: Arg, grantees: seq<Arg>, global: ValidConfig): (r: Result<bool>)
  {
    match Coerce(cand, global)
    case Err(e) => Err(e)
    case Ok(np) =>
      if GrantsAllowed(p) == 0 || !MatchGlob(p.identifier, np.identifier) then Ok(false)
      else AreLesserPrivileges(p, np, grantees, global)
  }

  /** `mayRevoke` decides exactly as `mayGrant`. */
  function MayRevoke(p: Perm, cand: Arg, grantees: seq<Arg>, global: ValidConfig): (r: Result<bool>)
  {
    MayGrant(p, cand, grantees, global)
  }

  /**
   * What `mayGrant` decides, with the dead disjuncts gone: the candidate
   * and, once it gets that far, every grantee convert; something may be
   * granted; the candidate's identifier is inside the glob; its mask is no
   * larger than `grantsAllowed()`; and the grantee delegation mask is 0 or
   * no larger than it.
   */
  lemma MayGrantMeaning(p: Perm, cand: Arg, grantees: seq<Arg>, global: ValidConfig)
    ensures MayGrant(p, cand, grantees, global) == Ok(true) <==>
      && Coerce(cand, global).Ok?
      && GrantsAllowed(p) != 0
      && MatchGlob(p.identifier, Coerce(cand, global).value.identifier)
      && Coerce(cand, global).value.privileges <= GrantsAllowed(p)
      && (|grantees| > 0 ==>
            && CoerceAll(grantees, global).Ok?
            && (GranteeMask(p, CoerceAll(grantees, global).value) == 0
                || GranteeMask(p, CoerceAll(grantees, global).value) <= GrantsAllowed(p)))
    ensures MayGrant(p, cand, grantees, global).Err? <==>
      || Coerce(cand, global).Err?
      || (&& GrantsAllowed(p) != 0
          && MatchGlob(p.identifier, Coerce(cand, global).value.identifier)
          && Coerce(cand, global).value.privileges <= GrantsAllowed(p)
          && |grantees| > 0 && CoerceAll(grantees, global).Err?)
  {
    if Coerce(cand, global).Ok? {
      RefusalEffective(Coerce(cand, global).value.privileges, GrantsAllowed(p));
      if |grantees| > 0 && CoerceAll(grantees, global).Ok? {
        RefusalEffective(GranteeMask(p, CoerceAll(grantees, global).value), GrantsAllowed(p));
      }
    }
  }

  /** `toObject()`: the identifier and the privileges. */
  function ToObject(p: Perm): (o: (string, Mask))
  {
    (p.identifier, p.privileges)
  }

  // ---------------------------------------------------------------------
  // The mutable object

  /** An argument of the `identifier()` setter: a string or another value. */
  datatype IdArg = IdText(s: string) | IdOther

  /** An argument of the `privileges()` setter: an array of strings, a string, a number or another value. */
  datatype PrivArg = PList(items: seq<string>) | PText(s: string) | PNumber(n: nat) | POther

  /** The mask the `privileges()` setter stores, or what it throws. */
  function PrivilegesFromArg(a: PrivArg, c: Config): (r: Result<Mask>)
  {
    match a
    case PList(items) => PrivilegesOf(Join(items, ','), c)
    case PText(s) => PrivilegesOf(s, c)
    case PNumber(n) => Ok(n)
    case POther => Err(NotAPrivilege)
  }

  /**
   * An array of privilege names sets the OR of their values, as the comma
   * list of the same names would: the array is joined with `,` and split
   * again.
   */
  lemma ListOfNames(items: seq<string>, c: Config)
    requires |items| >= 1
    requires forall i :: 0 <= i < |items| ==> ',' !in items[i] && !IsNumeric(items[i])
    ensures PrivilegesFromArg(PList(items), c) == OrNames(items, c.privileges)
  {
    var s := Join(items, ',');
    SplitJoin(items, ',');
    if |items| > 1 {
      var front := Join(items[..|items| - 1], ',');
      assert s == front + [','] + items[|items| - 1];
      assert s[|front|] == ',';
    }
  }

  /**
   * An RNPermission object: the identifier and privileges its setters
   * replace, and the registry snapshot taken when it was created.
   */
  class Permission {
    var identifier: string
    var privileges: Mask
    const config: ValidConfig

    /** The value the object holds. */
    function Value(): (v: Perm)
      reads this
    {
      Perm(identifier, privileges, config)
    }

    /** Copy every field of a permission value, as the copy constructor does. */
    constructor FromValue(v: Perm)
      ensures Value() == v
    {
      identifier := v.identifier;
      privileges := v.privileges;
      config := v.config;
    }

    /**
     * `new RNPermission(a)`: a string is split at its last `:` and its
     * privileges parsed against the global registry, which the object keeps;
     * a permission is copied; any other value throws.
     */
    static method New(a: Arg, global: ValidConfig) returns (r: Result<Permission>)
      ensures r.Ok? <==> Coerce(a, global).Ok?
      ensures r.Ok? ==> fresh(r.value) && r.value.Value() == Coerce(a, global).value
      ensures r.Err? ==> Coerce(a, global) == Err(r.error)
    {
      if a.Other? {
        return Err(NotAPermission);
      }
      var v: Perm;
      if a.Text? {
        var d := LastIndexOf(a.s, ':');
        if d == -1 {
          return Err(MissingDelimiter);
        }
        var privs := ParsePrivileges(a.s[d + 1..], global);
        if privs.Err? {
          return Err(privs.error);
        }
        v := Perm(a.s[..d], privs.value, global);
      } else {
        v := a.v;
      }
      var p := new Permission.FromValue(v);
      return Ok(p);
    }

    /** `clone()`: a new object holding the same value. */
    method Clone() returns (c: Permission)
      ensures fresh(c) && c.Value() == Value()
    {
      c := new Permission.FromValue(Value());
    }

    /**
     * The `identifier(id)` setter: a string replaces the identifier; any
     * other value throws and leaves the object as it was.
     */
    method SetIdentifier(a: IdArg) returns (r: Result<()>)
      modifies this
      ensures a.IdText? ==> r == Ok(()) && Value() == old(Value()).(identifier := a.s)
      ensures a.IdOther? ==> r == Err(NotAString) && unchanged(this)
    {
      if a.IdOther? {
        return Err(NotAString);
      }
      identifier := a.s;
      return Ok(());
    }

    /**
     * The `privileges(x)` setter: an array is joined with `,` and parsed, a
     * string is parsed, a number is stored as it is (without a range check);
     * a parse error or any other value throws before anything is stored.
     */
    method SetPrivileges(a: PrivArg) returns (r: Result<()>)
      modifies this
      ensures PrivilegesFromArg(a, config).Ok? ==>
        r == Ok(()) && Value() == old(Value()).(privileges := PrivilegesFromArg(a, config).value)
      ensures PrivilegesFromArg(a, config).Err? ==>
        r == Err(PrivilegesFromArg(a, config).error) && unchanged(this)
    {
      var m: Result<Mask>;
      match a {
        case PList(items) =>
          m := ParsePrivileges(Join(items, ','), config);
        case PText(s) =>
          m := ParsePrivileges(s, config);
        case PNumber(n) =>
          m := Ok(n);
        case POther =>
          m := Err(NotAPrivilege);
      }
      if m.Err? {
        return Err(m.error);
      }
      privileges := m.value;
      return Ok(());
    }

    /** `grantPrivileges()`: walk the delegation names in order, pushing each one held. */
    method GrantPrivileges() returns (names: seq<string>)
      ensures names == GrantNames(Value())
    {
      var order := config.grantOrder;
      names := [];
      var i := 0;
      while i < |order|
        invariant 0 <= i <= |order|
        invariant names == GrantNamesFrom(Value(), order[..i])
      {
        assert order[..i + 1][..i] == order[..i];
        if HasPrivilege(Value(), QText(order[i])) == Ok(true) {
          names := names + [order[i]];
        }
        i := i + 1;
      }
      assert order[..i] == order;
    }
  }

  /** A clone keeps the value it was made with when the original is changed afterwards. */
  method CloneThenChange(p: Permission, id: string, a: PrivArg) returns (c: Permission)
    modifies p
    ensures fresh(c) && c.Value() == old(p.Value())
    ensures PrivilegesFromArg(a, p.config).Ok? ==>
      p.Value() == old(p.Value()).(identifier := id, privileges := PrivilegesFromArg(a, p.config).value)
  {
    c := p.Clone();
    var renamed := p.SetIdentifier(IdText(id));
    var changed := p.SetPrivileges(a);
  }
}
