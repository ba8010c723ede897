/**
 * The configuration registry every permission takes a snapshot of, and the
 * mask folds shared by the permission and permission-set code.
 *
 * Privilege values are JavaScript numbers combined with `|`, `&` and `~`,
 * which act on 32-bit signed integers. A valid registry keeps its values
 * below 2^31, so every mask built from it is a non-negative integer below
 * 2^31, on which those operators are the bitwise operations of `Bits`.
 */
module Configuration {
  import opened JsString
  import opened Bits

  /** A privilege bitmask. */
  type Mask = nat

  /**
   * `privileges` maps each privilege name to its value (an alias such as
   * `crud` may be the OR of several bits); `grantOrder` lists the keys of
   * `grantPrivileges` in the order `Object.keys` returns them, and
   * `grantPrivileges` maps each delegation-capable name to the mask it may
   * grant.
   */
  datatype Config = Config(
    privileges: map<string, Mask>,
    grantOrder: seq<string>,
    grantPrivileges: map<string, Mask>)
  {
    /**
     * A usable registry: at least one privilege (so that a maximum value
     * exists), every value a non-negative 32-bit integer, and every
     * delegation-capable name listed once, in `grantOrder`, and resolvable on
     * its own as a configured, non-zero, non-numeric privilege name without a
     * comma.
     */
    predicate Valid()
    {
      && |privileges| > 0
      && (forall k :: k in privileges ==> privileges[k] < 0x8000_0000)
      && (forall k :: k in grantPrivileges ==> grantPrivileges[k] < 0x8000_0000)
      && (forall i, j :: 0 <= i < j < |grantOrder| ==> grantOrder[i] != grantOrder[j])
      && grantPrivileges.Keys == (set g | g in grantOrder)
      && (forall g :: g in grantOrder ==>
            g in privileges && privileges[g] != 0 && ',' !in g && !IsNumeric(g))
    }
  }

  /**
   * The registries the engine is used with. Every permission, and the global
   * registry strings are parsed against, has one of these.
   */
  type ValidConfig = c: Config | c.Valid() witness Config(map["read" := 1], [], map[])

  /** `m[k]` read the way `x | m[k]` reads it: a missing key counts as 0. */
  function Lookup(m: map<string, Mask>, k: string): (v: Mask)
    ensures k in m ==> v == m[k]
    ensures k !in m ==> v == 0
  {
    if k in m then m[k] else 0
  }

  /** `ms.reduce((a, b) => a | b, 0)`: the OR of the masks, left to right. */
  function OrAll(ms: seq<Mask>): (m: Mask)
  {
    if ms == [] then 0
    else Or(OrAll(ms[..|ms| - 1]), ms[|ms| - 1])
  }

  /** The OR is above each of the masks. */
  lemma {:induction false} OrAllUpper(ms: seq<Mask>)
    ensures forall i :: 0 <= i < |ms| ==> SubMask(ms[i], OrAll(ms))
  {
    if ms != [] {
      var front := ms[..|ms| - 1];
      OrAllUpper(front);
      OrUpper(OrAll(front), ms[|ms| - 1]);
      forall i | 0 <= i < |front|
        ensures SubMask(ms[i], OrAll(ms))
      {
        SubMaskTrans(ms[i], OrAll(front), OrAll(ms));
      }
    }
  }

  /** The OR is the least mask above all of them: nothing else gets in. */
  lemma {:induction false} OrAllLeast(ms: seq<Mask>, bound: Mask)
    requires forall i :: 0 <= i < |ms| ==> SubMask(ms[i], bound)
    ensures SubMask(OrAll(ms), bound)
  {
    if ms != [] {
      OrAllLeast(ms[..|ms| - 1], bound);
      OrLeast(OrAll(ms[..|ms| - 1]), ms[|ms| - 1], bound);
    }
  }

  /** The OR of a concatenation is the OR of the two ORs. */
  lemma {:induction false} OrAllAppend(a: seq<Mask>, b: seq<Mask>)
    ensures OrAll(a + b) == Or(OrAll(a), OrAll(b))
    decreases |b|
  {
    if b != [] {
      var front := b[..|b| - 1];
      assert (a + b)[..|a + b| - 1] == a + front;
      OrAllAppend(a, front);
      OrAssoc(OrAll(a), OrAll(front), b[|b| - 1]);
    } else {
      assert a + b == a;
    }
  }

  /** A bit of the OR is a bit of one of the masks. */
  lemma {:induction false} BitOrAll(ms: seq<Mask>, k: nat)
    ensures Bit(OrAll(ms), k) <==> exists i :: 0 <= i < |ms| && Bit(ms[i], k)
  {
    if ms == [] {
      BitZero(k);
    } else {
      var front := ms[..|ms| - 1];
      BitOrAll(front, k);
      BitOr(OrAll(front), ms[|ms| - 1], k);
      if exists i :: 0 <= i < |front| && Bit(front[i], k) {
        var i :| 0 <= i < |front| && Bit(front[i], k);
        assert ms[i] == front[i];
      }
      if exists i :: 0 <= i < |ms| && Bit(ms[i], k) {
        var i :| 0 <= i < |ms| && Bit(ms[i], k);
        if i < |front| {
          assert front[i] == ms[i];
        }
      }
    }
  }

  lemma OrAllSnoc(ms: seq<Mask>, x: Mask)
    ensures OrAll(ms + [x]) == Or(OrAll(ms), x)
  {
    assert (ms + [x])[..|ms|] == ms;
  }

  /** The masks of `m` at the names `ks`, in order (missing names give 0). */
  function LookupAll(m: map<string, Mask>, ks: seq<string>): (vs: seq<Mask>)
    ensures |vs| == |ks|
    ensures forall i :: 0 <= i < |ks| ==> vs[i] == Lookup(m, ks[i])
  {
    if ks == [] then [] else LookupAll(m, ks[..|ks| - 1]) + [Lookup(m, ks[|ks| - 1])]
  }

  lemma LookupAllSnoc(m: map<string, Mask>, ks: seq<string>, k: string)
    ensures LookupAll(m, ks + [k]) == LookupAll(m, ks) + [Lookup(m, k)]
  {
    assert (ks + [k])[..|ks|] == ks;
  }
}
