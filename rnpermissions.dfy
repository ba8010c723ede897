/**
 * A collection of permissions (`src/RNPermissions.js`). `allows` checks a
 * request against the combined privileges of every held permission whose
 * glob accepts the request's identifier; `mayGrant` and `mayRevoke` need one
 * held permission that allows the delegation on its own.
 */
module RNPermissions {
  import opened Bits
  import opened Configuration
  import opened GlobToRegex
  import opened RNPermission

  /** The values the objects hold, in order. */
  function ValuesOf(ps: seq<Permission>): (vs: seq<Perm>)
    reads set i | 0 <= i < |ps| :: ps[i]
    ensures |vs| == |ps|
    ensures forall i :: 0 <= i < |ps| ==> vs[i] == ps[i].Value()
  {
    if ps == [] then [] else ValuesOf(ps[..|ps| - 1]) + [ps[|ps| - 1].Value()]
  }

  /** Every object is new and no two of them are the same object. */
  twostate predicate AllFresh(new ps: seq<Permission>)
  {
    (forall i :: 0 <= i < |ps| ==> fresh(ps[i]))
    && (forall i, j :: 0 <= i < j < |ps| ==> ps[i] != ps[j])
  }

  /**
   * `args.map(e => new RNPermission(e))`: a new object per argument, or the
   * exception of the first argument that cannot be converted.
   */
  method NewAll(args: seq<Arg>, global: ValidConfig) returns (r: Result<seq<Permission>>)
    ensures r.Ok? <==> CoerceAll(args, global).Ok?
    ensures r.Ok? ==> AllFresh(r.value) && ValuesOf(r.value) == CoerceAll(args, global).value
    ensures r.Err? ==> CoerceAll(args, global) == Err(r.error)
  {
    var out: seq<Permission> := [];
    var i := 0;
    while i < |args|
      invariant 0 <= i <= |args| && |out| == i
      invariant AllFresh(out)
      invariant forall j :: 0 <= j < i ==> Coerce(args[j], global) == Ok(out[j].Value())
    {
      var p := Permission.New(args[i], global);
      if p.Err? {
        ghost var all := CoerceAll(args, global);
        assert all.Err?;
        ghost var k :| 0 <= k < |args| && Coerce(args[k], global) == Err(all.error)
          && forall j :: 0 <= j < k ==> Coerce(args[j], global).Ok?;
        assert k == i;
        return Err(p.error);
      }
      out := out + [p.value];
      i := i + 1;
    }
    return Ok(out);
  }

  // ---------------------------------------------------------------------
  // `allows`: clearing covered bits

  /** What one held permission contributes for a request for `id`: its privileges if its glob accepts `id`. */
  function Own(p: Perm, id: string): (m: Mask)
  {
    if MatchGlob(p.identifier, id) then p.privileges else 0
  }

  function Owns(held: seq<Perm>, id: string): (ms: seq<Mask>)
    ensures |ms| == |held|
    ensures forall i :: 0 <= i < |held| ==> ms[i] == Own(held[i], id)
  {
    if held == [] then [] else Owns(held[..|held| - 1], id) + [Own(held[|held| - 1], id)]
  }

  /**
   * The OR of the privileges of the held permissions whose glob accepts
   * `id`: the bits the loop of `allows` can clear from a request for `id`.
   */
  function Cover(held: seq<Perm>, id: string): (m: Mask)
  {
    OrAll(Owns(held, id))
  }

  /**
   * The cover is the least mask above the privileges of each held
   * permission whose glob accepts `id`.
   */
  lemma CoverBounds(held: seq<Perm>, id: string, bound: Mask)
    ensures forall i :: 0 <= i < |held| && MatchGlob(held[i].identifier, id) ==>
      SubMask(held[i].privileges, Cover(held, id))
    ensures (forall i :: 0 <= i < |held| && MatchGlob(held[i].identifier, id) ==>
      SubMask(held[i].privileges, bound)) ==> SubMask(Cover(held, id), bound)
  {
    var ms := Owns(held, id);
    OrAllUpper(ms);
    if forall i :: 0 <= i < |held| && MatchGlob(held[i].identifier, id) ==> SubMask(held[i].privileges, bound) {
      forall i | 0 <= i < |ms|
        ensures SubMask(ms[i], bound)
      {
        if !MatchGlob(held[i].identifier, id) {
          assert AndNot(0, bound) == 0;
        }
      }
      OrAllLeast(ms, bound);
    }
  }

  /** The cover of a prefix of the held permissions is inside the whole cover. */
  lemma CoverPrefix(held: seq<Perm>, id: string, i: nat)
    requires i <= |held|
    ensures SubMask(Cover(held[..i], id), Cover(held, id))
  {
    var ms := Owns(held, id);
    OrAllUpper(ms);
    assert forall j :: 0 <= j < i ==> Owns(held[..i], id)[j] == ms[j];
    OrAllLeast(Owns(held[..i], id), Cover(held, id));
  }

  /** One more held permission ORs its contribution into the cover. */
  lemma CoverSnoc(held: seq<Perm>, id: string, i: nat)
    requires i < |held|
    ensures Cover(held[..i + 1], id) == Or(Cover(held[..i], id), Own(held[i], id))
  {
    assert Owns(held[..i + 1], id) == Owns(held[..i], id) + [Own(held[i], id)];
    OrAllSnoc(Owns(held[..i], id), Own(held[i], id));
  }

  /** The bits of a request that no matching held permission supplies. */
  function Remaining(held: seq<Perm>, e: Perm): (m: Mask)
  {
    AndNot(e.privileges, Cover(held, e.identifier))
  }

  /**
   * `allows(...args)` on the held values: every argument converts (the first
   * that does not throws) and each request has no bit left uncovered.
   */
  function SetAllows(held: seq<Perm>, args: seq<Spread>, global: ValidConfig): (r: Result<bool>)
  {
    match CoerceAll(Flatten(args), global)
    case Err(e) => Err(e)
    case Ok(ps) => Ok(forall i :: 0 <= i < |ps| ==> Remaining(held, ps[i]) == 0)
  }

  /** `allows` throws iff some flattened argument does not convert. */
  lemma SetAllowsThrows(held: seq<Perm>, args: seq<Spread>, global: ValidConfig)
    ensures SetAllows(held, args, global).Ok? <==>
      forall i :: 0 <= i < |Flatten(args)| ==> Coerce(Flatten(args)[i], global).Ok?
  {
  }

  /** Bit `k` is a bit of some held permission whose glob accepts `id`. */
  ghost predicate Supplies(held: seq<Perm>, id: string, k: nat)
  {
    exists h :: 0 <= h < |held| && MatchGlob(held[h].identifier, id) && Bit(held[h].privileges, k)
  }

  /** The bits of the cover are the bits some matching held permission supplies. */
  lemma CoverBit(held: seq<Perm>, id: string, k: nat)
    ensures Bit(Cover(held, id), k) <==> Supplies(held, id, k)
  {
    var ms := Owns(held, id);
    BitOrAll(ms, k);
    if exists i :: 0 <= i < |ms| && Bit(ms[i], k) {
      var i :| 0 <= i < |ms| && Bit(ms[i], k);
      if !MatchGlob(held[i].identifier, id) {
        BitZero(k);
      }
    }
    if Supplies(held, id, k) {
      var h :| 0 <= h < |held| && MatchGlob(held[h].identifier, id) && Bit(held[h].privileges, k);
      assert Bit(ms[h], k);
    }
  }

  /**
   * Nothing of a request is left uncovered iff each bit it asks for is a
   * bit of some held permission whose glob accepts its identifier.
   */
  lemma RemainingNone(held: seq<Perm>, e: Perm)
    ensures Remaining(held, e) == 0 <==>
      forall k: nat :: Bit(e.privileges, k) ==> Supplies(held, e.identifier, k)
  {
    var cover := Cover(held, e.identifier);
    SubMaskBits(e.privileges, cover);
    assert BitsIn(e.privileges, cover) <==>
      forall k: nat :: Bit(e.privileges, k) ==> Supplies(held, e.identifier, k)
    by {
      forall k: nat
        ensures Bit(cover, k) <==> Supplies(held, e.identifier, k)
      {
        CoverBit(held, e.identifier, k);
      }
    }
  }

  /**
   * `allows` is true iff every flattened argument converts (`CoerceAll`
   * says into what) and each bit of each converted request is a bit of
   * some held permission whose glob accepts that request's identifier.
   */
  lemma SetAllowsMeaning(held: seq<Perm>, args: seq<Spread>, global: ValidConfig)
    ensures SetAllows(held, args, global) == Ok(true) <==>
      && CoerceAll(Flatten(args), global).Ok?
      && var ps := CoerceAll(Flatten(args), global).value;
         forall i, k: nat :: 0 <= i < |ps| && Bit(ps[i].privileges, k) ==>
           Supplies(held, ps[i].identifier, k)
  {
    var r := CoerceAll(Flatten(args), global);
    if r.Ok? {
      forall i | 0 <= i < |r.value|
        ensures Remaining(held, r.value[i]) == 0 <==>
          forall k: nat :: Bit(r.value[i].privileges, k) ==> Supplies(held, r.value[i].identifier, k)
      {
        RemainingNone(held, r.value[i]);
      }
    }
  }

  /**
   * The `while` loop of `allows` on one request copy `c`: clear the bits of
   * every held permission whose glob accepts `c`'s identifier, stopping
   * early once nothing is left, and report whether nothing is left.
   */
  method ClearCovered(c: Permission, held: seq<Perm>) returns (ok: bool)
    modifies c
    ensures c.Value() == old(c.Value()).(privileges := Remaining(held, old(c.Value())))
    ensures ok <==> Remaining(held, old(c.Value())) == 0
  {
    ghost var orig := c.privileges;
    ghost var id := c.identifier;
    ghost var cfg := c.config;
    var i := 0;
    while c.privileges > 0 && i < |held|
      invariant 0 <= i <= |held|
      invariant c.identifier == id && c.config == cfg
      invariant c.privileges == AndNot(orig, Cover(held[..i], id))
      decreases |held| - i
    {
      CoverSnoc(held, id, i);
      if MatchGlob(held[i].identifier, c.identifier) {
        AndNotOr(orig, Cover(held[..i], id), held[i].privileges);
        var cleared := c.SetPrivileges(PNumber(AndNot(c.privileges, held[i].privileges)));
      }
      i := i + 1;
    }
    if i < |held| {
      ClearedEarly(held, id, orig, i);
    } else {
      assert held[..i] == held;
    }
    ok := c.privileges == 0;
  }

  /** Once the bits left after a prefix are none, none are left after all of them. */
  lemma ClearedEarly(held: seq<Perm>, id: string, x: Mask, i: nat)
    requires i <= |held| && AndNot(x, Cover(held[..i], id)) == 0
    ensures AndNot(x, Cover(held, id)) == 0
  {
    CoverPrefix(held, id, i);
    AndNotMonotone(x, Cover(held[..i], id), Cover(held, id));
    SubMaskLe(AndNot(x, Cover(held, id)), 0);
  }

  /** No request before index `j` has bits left uncovered. */
  predicate ClearBefore(held: seq<Perm>, ps: seq<Perm>, j: nat)
    requires j <= |ps|
  {
    forall m :: 0 <= m < j ==> Remaining(held, ps[m]) == 0
  }

  /** The values of the request copies once the first `k` have been cleared. */
  function ClearedUpTo(held: seq<Perm>, ps: seq<Perm>, k: nat, j: nat): (v: Perm)
    requires j < |ps|
  {
    if j < k then ps[j].(privileges := Remaining(held, ps[j])) else ps[j]
  }

  /**
   * The `every` of `allows` over the request copies: run the clearing loop
   * on each in turn and stop at the first with bits left. `stop` is that
   * request's index (or the number of requests): every request before it is
   * clear, the copies up to and including it hold their uncovered bits, and
   * the later ones are untouched.
   */
  method ClearAll(cs: seq<Permission>, held: seq<Perm>, ghost ps: seq<Perm>) returns (ok: bool, ghost stop: nat)
    requires |cs| == |ps|
    requires forall i, j :: 0 <= i < j < |cs| ==> cs[i] != cs[j]
    requires forall j :: 0 <= j < |cs| ==> cs[j].Value() == ps[j]
    modifies set j | 0 <= j < |cs| :: cs[j]
    ensures stop <= |ps| && (ok <==> stop == |ps|)
    ensures ClearBefore(held, ps, stop)
    ensures !ok ==> Remaining(held, ps[stop]) != 0
    ensures ok <==> ClearBefore(held, ps, |ps|)
    ensures forall j :: 0 <= j < |cs| ==>
      cs[j].Value() == ClearedUpTo(held, ps, if ok then stop else stop + 1, j)
  {
    var k := 0;
    while k < |cs|
      invariant 0 <= k <= |cs|
      invariant ClearBefore(held, ps, k)
      invariant forall j :: 0 <= j < |cs| ==> cs[j].Value() == ClearedUpTo(held, ps, k, j)
    {
      var left := ClearAt(cs, held, ps, k);
      if !left {
        return false, k;
      }
      k := k + 1;
    }
    return true, k;
  }

  /** One round of the `every`: clear the copy at `k`; the others keep their values. */
  method ClearAt(cs: seq<Permission>, held: seq<Perm>, ghost ps: seq<Perm>, k: nat) returns (left: bool)
    requires k < |cs| == |ps|
    requires forall i, j :: 0 <= i < j < |cs| ==> cs[i] != cs[j]
    requires ClearBefore(held, ps, k)
    requires forall j :: 0 <= j < |cs| ==> cs[j].Value() == ClearedUpTo(held, ps, k, j)
    modifies cs[k]
    ensures left <==> ClearBefore(held, ps, k + 1)
    ensures !left ==> Remaining(held, ps[k]) != 0 && !ClearBefore(held, ps, |ps|)
    ensures forall j :: 0 <= j < |cs| ==> cs[j].Value() == ClearedUpTo(held, ps, k + 1, j)
  {
    left := ClearCovered(cs[k], held);
    forall j | 0 <= j < |cs| && j != k
      ensures cs[j].Value() == old(cs[j].Value())
    {
      assert cs[j] != cs[k];
    }
  }

  /** Two permissions combine for `allows`: `read` (1) and `update` (4) together cover 5. */
  lemma AllowsCombines(c: ValidConfig)
    ensures Remaining([Perm("a", 1, c), Perm("a", 4, c)], Perm("a", 5, c)) == 0
    ensures !Covers(Perm("a", 1, c), Perm("a", 5, c)) && !Covers(Perm("a", 4, c), Perm("a", 5, c))
  {
    StarFreeExact("a", "a");
    var held := [Perm("a", 1, c), Perm("a", 4, c)];
    assert Owns(held, "a") == [1, 4];
    assert [1, 4][..1] == [1] && [1][..0] == [];
    assert Cover(held, "a") == Or(Or(0, 1), 4);
    assert Or(1, 4) == 2 * Or(0, 2) + 1;
    assert AndNot(5, 5) == 2 * AndNot(2, 2);
    assert AndNot(2, 2) == 2 * AndNot(1, 1);
  }

  /**
   * For a single held permission and a non-zero request, covering every bit
   * is stronger than `Covers`; a sub-mask with a matching glob is enough for
   * both. `Covers` alone is not enough: `read,update` (5) covers
   * `read,create` (3) but leaves `create` (2) uncovered.
   */
  lemma SetVersusSingle(p: Perm, e: Perm)
    ensures e.privileges != 0 && Remaining([p], e) == 0 ==> Covers(p, e)
    ensures MatchGlob(p.identifier, e.identifier) && SubMask(e.privileges, p.privileges) ==>
      Remaining([p], e) == 0
    ensures e.privileges == 3 && p.privileges == 5 && MatchGlob(p.identifier, e.identifier) ==>
      Covers(p, e) && Remaining([p], e) != 0
  {
    assert [p][..0] == [];
    assert Owns([p], e.identifier) == [Own(p, e.identifier)];
    OrAllSnoc([], Own(p, e.identifier));
    assert [] + [Own(p, e.identifier)] == [Own(p, e.identifier)];
    assert Cover([p], e.identifier) == Or(0, Own(p, e.identifier));
    if e.privileges != 0 && Remaining([p], e) == 0 {
      if MatchGlob(p.identifier, e.identifier) {
        SubMaskMatches(p.privileges, e.privileges);
      }
    }
    MatchPrivilegesNotSubMask();
  }

  // ---------------------------------------------------------------------
  // Delegation over the collection

  /**
   * `answers.some(b => b)` over the answers of the held permissions, in
   * order: the first true or the first exception decides, and the answers
   * after it are never asked for.
   */
  function Some(answers: seq<Result<bool>>): (r: Result<bool>)
  {
    if answers == [] then Ok(false)
    else
      match answers[0]
      case Err(e) => Err(e)
      case Ok(b) => if b then Ok(true) else Some(answers[1..])
  }

  /** `Some` is true iff some answer is true and every answer before it false. */
  lemma {:induction false} SomeMeaning(answers: seq<Result<bool>>)
    ensures Some(answers) == Ok(true) <==>
      exists i :: 0 <= i < |answers| && answers[i] == Ok(true)
        && forall j :: 0 <= j < i ==> answers[j] == Ok(false)
  {
    if answers != [] {
      var rest := answers[1..];
      SomeMeaning(rest);
      assert forall i :: 0 < i < |answers| ==> answers[i] == rest[i - 1];
      if Some(answers) == Ok(true) && answers[0] != Ok(true) {
        var k :| 0 <= k < |rest| && rest[k] == Ok(true) && forall j :: 0 <= j < k ==> rest[j] == Ok(false);
        assert answers[k + 1] == Ok(true);
      }
      if exists i :: 0 <= i < |answers| && answers[i] == Ok(true) && forall j :: 0 <= j < i ==> answers[j] == Ok(false) {
        var i :| 0 <= i < |answers| && answers[i] == Ok(true) && forall j :: 0 <= j < i ==> answers[j] == Ok(false);
        if i > 0 {
          assert rest[i - 1] == Ok(true);
        }
      }
    }
  }

  /** `ourPerm.mayGrant(np, grantees)` for each held permission, in order. */
  function Answers(held: seq<Perm>, np: Perm, grantees: seq<Arg>, global: ValidConfig): (rs: seq<Result<bool>>)
  {
    seq(|held|, i requires 0 <= i < |held| => MayGrant(held[i], Obj(np), grantees, global))
  }

  /** `_mayGrantOrRevoke`: convert the candidate, then ask the held permissions. */
  function SetMayGrant(held: seq<Perm>, cand: Arg, grantees: seq<Arg>, global: ValidConfig): (r: Result<bool>)
  {
    match Coerce(cand, global)
    case Err(e) => Err(e)
    case Ok(np) => Some(Answers(held, np, grantees, global))
  }

  /** Asking with the converted candidate is asking with the candidate itself. */
  lemma SetMayGrantMeaning(held: seq<Perm>, cand: Arg, grantees: seq<Arg>, global: ValidConfig)
    ensures SetMayGrant(held, cand, grantees, global) == Ok(true) <==>
      exists i :: 0 <= i < |held| && MayGrant(held[i], cand, grantees, global) == Ok(true)
        && forall j :: 0 <= j < i ==> MayGrant(held[j], cand, grantees, global) == Ok(false)
  {
    if Coerce(cand, global).Ok? {
      var np := Coerce(cand, global).value;
      var answers := Answers(held, np, grantees, global);
      SomeMeaning(answers);
      forall i | 0 <= i < |held|
        ensures answers[i] == MayGrant(held[i], cand, grantees, global)
      {
        MayGrantCoerced(held[i], cand, np, grantees, global);
      }
    }
  }

  /** A permission asked about a candidate answers as it does about the converted candidate. */
  lemma MayGrantCoerced(p: Perm, cand: Arg, np: Perm, grantees: seq<Arg>, global: ValidConfig)
    requires Coerce(cand, global) == Ok(np)
    ensures MayGrant(p, cand, grantees, global) == MayGrant(p, Obj(np), grantees, global)
  {
  }

  /** `mayRevoke` on the collection decides exactly as `mayGrant`. */
  function SetMayRevoke(held: seq<Perm>, cand: Arg, grantees: seq<Arg>, global: ValidConfig): (r: Result<bool>)
  {
    SetMayGrant(held, cand, grantees, global)
  }

  // ---------------------------------------------------------------------
  // The collection object

  /** An RNPermissions object: the list of permission objects its setter replaces. */
  class PermissionSet {
    var permissions: seq<Permission>

    /** The values of the held permissions. */
    function Held(): (vs: seq<Perm>)
      reads this, set i | 0 <= i < |permissions| :: permissions[i]
    {
      ValuesOf(permissions)
    }

    constructor Init(ps: seq<Permission>)
      ensures permissions == ps
    {
      permissions := ps;
    }

    /** `new RNPermissions(...args)`: a new object for every argument, arrays spread one level. */
    static method Create(args: seq<Spread>, global: ValidConfig) returns (r: Result<PermissionSet>)
      ensures r.Ok? <==> CoerceAll(Flatten(args), global).Ok?
      ensures r.Ok? ==>
        fresh(r.value) && AllFresh(r.value.permissions)
        && r.value.Held() == CoerceAll(Flatten(args), global).value
      ensures r.Err? ==> CoerceAll(Flatten(args), global) == Err(r.error)
    {
      var ps := NewAll(Flatten(args), global);
      if ps.Err? {
        return Err(ps.error);
      }
      var s := new PermissionSet.Init(ps.value);
      return Ok(s);
    }

    /**
     * The `permissions(...args)` setter: with at least one argument the list
     * is replaced by new objects for the arguments, in order (nothing changes
     * when one throws); with none it is the getter and nothing changes.
     */
    method SetPermissions(args: seq<Spread>, global: ValidConfig) returns (r: Result<()>)
      modifies this
      ensures |args| == 0 ==> r == Ok(()) && unchanged(this)
      ensures |args| > 0 ==> (r.Ok? <==> CoerceAll(Flatten(args), global).Ok?)
      ensures |args| > 0 && r.Ok? ==>
        AllFresh(permissions) && ValuesOf(permissions) == CoerceAll(Flatten(args), global).value
      ensures r.Err? ==> unchanged(this) && CoerceAll(Flatten(args), global) == Err(r.error)
    {
      if |args| == 0 {
        return Ok(());
      }
      var ps := NewAll(Flatten(args), global);
      if ps.Err? {
        return Err(ps.error);
      }
      permissions := ps.value;
      return Ok(());
    }

    /**
     * `allows(...args)`: convert every argument into a new object, then, for
     * each in turn, clear the bits the held permissions supply and stop at
     * the first request with bits left. Only the new objects are changed:
     * the method may modify nothing that existed before the call.
     */
    method Allows(args: seq<Spread>, global: ValidConfig) returns (r: Result<bool>)
      ensures r == SetAllows(old(Held()), args, global)
    {
      var held := Held();
      var copies := NewAll(Flatten(args), global);
      if copies.Err? {
        return Err(copies.error);
      }
      var ok, _ := ClearAll(copies.value, held, CoerceAll(Flatten(args), global).value);
      return Ok(ok);
    }

    /** `mayGrant(cand, grantees)` on the collection. */
    function MayGrant(cand: Arg, grantees: seq<Arg>, global: ValidConfig): (r: Result<bool>)
      reads this, set i | 0 <= i < |permissions| :: permissions[i]
    {
      SetMayGrant(Held(), cand, grantees, global)
    }

    /** `mayRevoke(cand, grantees)` on the collection. */
    function MayRevoke(cand: Arg, grantees: seq<Arg>, global: ValidConfig): (r: Result<bool>)
      reads this, set i | 0 <= i < |permissions| :: permissions[i]
    {
      SetMayRevoke(Held(), cand, grantees, global)
    }
  }
}
