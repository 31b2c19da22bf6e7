/** Rotation of the key encryption key, DEK by DEK (internal/keymanager/local.go). */
module KeyRotation {
  import opened Events
  import opened KeyStore

  /** The KEK each bucket's DEK is wrapped under. */
  type Seal = map<string, Bytes>

  function Uniform(buckets: set<string>, kek: Bytes): Seal { map b | b in buckets :: kek }

  /** The seals once the visited DEKs have been wrapped again. */
  function Reseal(seal: Seal, visited: seq<string>, kek: Bytes): Seal {
    map b | b in seal :: if b in visited then kek else seal[b]
  }

  /** DEKs that hold exactly these keys, each wrapped under its own KEK. */
  ghost predicate Sealed(c: Cipher, deks: map<string, Held>, seal: Seal, keys: map<string, Bytes>) {
    && deks.Keys == seal.Keys == keys.Keys
    && forall b :: b in deks ==>
         IsWrap(c, seal[b], keys[b], deks[b].wrapped) && (deks[b].key.Some? ==> deks[b].key.value == keys[b])
  }

  /** A raw key is to be had exactly when it is in memory or wrapped under the KEK in force, and it
      is never a wrong one. */
  lemma RawKeyIff(c: Cipher, m: Manager, seal: Seal, keys: map<string, Bytes>, b: string)
    requires c.Lawful() && Sealed(c, m.deks, seal, keys) && b in m.deks
    ensures RawKey(c, m.kek, m.deks[b]) == if m.deks[b].key.Some? || seal[b] == m.kek then Some(keys[b]) else None
  {
    UnwrapOf(c, seal[b], keys[b], m.deks[b].wrapped, m.kek);
  }

  lemma RefinesIsSealed(c: Cipher, m: Manager, keys: map<string, Bytes>)
    requires Refines(c, m, keys)
    ensures Sealed(c, m.deks, Uniform(m.deks.Keys, m.kek), keys)
  {
    hide IsWrap;
    assert m.store.Keys == m.deks.Keys;
    forall b | b in m.deks ensures IsWrap(c, m.kek, keys[b], m.deks[b].wrapped) {
      SaveOf(m, b);
    }
  }

  lemma SavedRefines(c: Cipher, m: Manager, keys: map<string, Bytes>)
    requires Sealed(c, m.deks, Uniform(m.deks.Keys, m.kek), keys)
    ensures Refines(c, Saved(m), keys)
  {
    hide IsWrap;
  }

  // ---------------------------------------------------------------- the loop

  predicate Distinct(order: seq<string>) { forall i, j :: 0 <= i < j < |order| ==> order[i] != order[j] }

  /** How many DEKs the loop visits before it stops. */
  function Visited(c: Cipher, m: Manager, order: seq<string>, newKek: Bytes, nonces: string -> Bytes): (k: nat)
    requires forall b <- order :: b in m.deks
    ensures k <= |order|
    decreases |order|
  {
    if order == [] then 0
    else
      match RawKey(c, m.kek, m.deks[order[0]])
      case None => 0
      case Some(raw) => 1 + Visited(c, Rewrapped(c, m, order[0], raw, newKek, nonces), order[1..], newKek, nonces)
  }

  /** The KEK in force when the loop comes to position `i`: the first iteration changes it. */
  function InForce(m: Manager, newKek: Bytes, i: nat): Bytes { if i == 0 then m.kek else newKek }

  /** The DEK at position `i` of the order can be unwrapped when the loop comes to it. */
  predicate Opens(m: Manager, seal: Seal, order: seq<string>, newKek: Bytes, i: nat)
    requires i < |order| && order[i] in m.deks && order[i] in seal
  {
    m.deks[order[i]].key.Some? || seal[order[i]] == InForce(m, newKek, i)
  }

  lemma RewrapOne(c: Cipher, m: Manager, seal: Seal, keys: map<string, Bytes>, b: string, newKek: Bytes,
                  nonces: string -> Bytes)
    requires Sealed(c, m.deks, seal, keys) && b in m.deks
    ensures var m' := Rewrapped(c, m, b, keys[b], newKek, nonces);
      && Sealed(c, m'.deks, seal[b := newKek], keys)
      && m'.kek == newKek && m'.store == m.store && m'.deks.Keys == m.deks.Keys
      && forall a :: a in m.deks && a != b ==> m'.deks[a] == m.deks[a]
  {
    assert IsWrap(c, newKek, keys[b], c.wrap(newKek, keys[b], nonces(b)));
    hide IsWrap;
  }

  lemma ResealOne(seal: Seal, order: seq<string>, k: nat, newKek: Bytes)
    requires order != [] && order[0] in seal && k < |order|
    ensures Reseal(seal[order[0] := newKek], order[1..][..k], newKek) == Reseal(seal, order[..k + 1], newKek)
  {
    assert order[..k + 1] == [order[0]] + order[1..][..k];
  }

  /** The loop visits DEKs as long as they open, and succeeds when it has visited all. */
  predicate StopsAt(c: Cipher, m: Manager, seal: Seal, order: seq<string>, newKek: Bytes, nonces: string -> Bytes)
    requires forall b <- order :: b in m.deks && b in seal
  {
    var ok, k := Rewrap(c, m, order, newKek, nonces).1, Visited(c, m, order, newKek, nonces);
    && (ok <==> k == |order|)
    && (forall i :: 0 <= i < k ==> Opens(m, seal, order, newKek, i))
    && (k < |order| ==> !Opens(m, seal, order, newKek, k))
  }

  /** The DEKs it has visited are wrapped under the new KEK, with their raw keys left in memory; the
      others and the store are as they were. */
  ghost predicate Leaves(c: Cipher, m: Manager, seal: Seal, keys: map<string, Bytes>,
                         order: seq<string>, newKek: Bytes, nonces: string -> Bytes)
    requires forall b <- order :: b in m.deks && b in seal
  {
    var m', k := Rewrap(c, m, order, newKek, nonces).0, Visited(c, m, order, newKek, nonces);
    && Sealed(c, m'.deks, Reseal(seal, order[..k], newKek), keys)
    && m'.kek == InForce(m, newKek, k) && m'.store == m.store
    && (forall b :: b in m.deks ==> if b in order[..k] then m'.deks[b].key.Some? else m'.deks[b] == m.deks[b])
  }

  lemma {:induction false} RewrapStops(c: Cipher, m: Manager, seal: Seal, keys: map<string, Bytes>,
                                       order: seq<string>, newKek: Bytes, nonces: string -> Bytes)
    requires c.Lawful() && Sealed(c, m.deks, seal, keys) && Distinct(order) && forall b <- order :: b in m.deks
    ensures (forall b <- order :: b in seal)
    ensures StopsAt(c, m, seal, order, newKek, nonces) && Leaves(c, m, seal, keys, order, newKek, nonces)
    decreases |order|
  {
    SealedKeys(c, m.deks, seal, keys);
    if order == [] || RawKey(c, m.kek, m.deks[order[0]]).None? {
      if order != [] {
        RawKeyIff(c, m, seal, keys, order[0]);
      }
      hide Sealed, RawKey, Cipher.Lawful;
      ResealNone(seal, newKek);
      assert order[..0] == [];
    } else {
      RawKeyIff(c, m, seal, keys, order[0]);
      RewrapOne(c, m, seal, keys, order[0], newKek, nonces);
      hide Sealed, RawKey, Cipher.Lawful, StopsAt, Leaves, Rewrapped;
      var next := Rewrapped(c, m, order[0], keys[order[0]], newKek, nonces);
      RewrapStops(c, next, seal[order[0] := newKek], keys, order[1..], newKek, nonces);
      StopsAfterFirst(c, m, seal, keys, order, newKek, nonces);
      LeavesAfterFirst(c, m, seal, keys, order, newKek, nonces);
    }
  }

  lemma SealedKeys(c: Cipher, deks: map<string, Held>, seal: Seal, keys: map<string, Bytes>)
    requires Sealed(c, deks, seal, keys)
    ensures deks.Keys == seal.Keys == keys.Keys
  {
  }

  lemma ResealNone(seal: Seal, newKek: Bytes)
    ensures Reseal(seal, [], newKek) == seal
  {
  }

  lemma StopsAfterFirst(c: Cipher, m: Manager, seal: Seal, keys: map<string, Bytes>,
                        order: seq<string>, newKek: Bytes, nonces: string -> Bytes)
    requires Distinct(order) && order != [] && m.deks.Keys == seal.Keys == keys.Keys && forall b <- order :: b in m.deks
    requires RawKey(c, m.kek, m.deks[order[0]]) == Some(keys[order[0]]) && Opens(m, seal, order, newKek, 0)
    requires var next := Rewrapped(c, m, order[0], keys[order[0]], newKek, nonces);
      (forall b <- order[1..] :: b in next.deks && b in seal[order[0] := newKek])
      && StopsAt(c, next, seal[order[0] := newKek], order[1..], newKek, nonces)
    ensures StopsAt(c, m, seal, order, newKek, nonces)
  {
    var b, k := order[0], Visited(c, m, order, newKek, nonces);
    var next := Rewrapped(c, m, b, keys[b], newKek, nonces);
    var rest := Visited(c, next, order[1..], newKek, nonces);
    hide RawKey;
    forall i | 0 < i < |order| ensures order[1..][i - 1] == order[i] != b {
    }
    forall i | 0 <= i < k ensures Opens(m, seal, order, newKek, i) {
      if i > 0 {
        assert Opens(next, seal[b := newKek], order[1..], newKek, i - 1);
      }
    }
  }

  lemma LeavesAfterFirst(c: Cipher, m: Manager, seal: Seal, keys: map<string, Bytes>,
                         order: seq<string>, newKek: Bytes, nonces: string -> Bytes)
    requires Sealed(c, m.deks, seal, keys) && Distinct(order) && order != []
    requires m.deks.Keys == seal.Keys == keys.Keys && forall b <- order :: b in m.deks
    requires RawKey(c, m.kek, m.deks[order[0]]) == Some(keys[order[0]])
    requires var next := Rewrapped(c, m, order[0], keys[order[0]], newKek, nonces);
      (forall b <- order[1..] :: b in next.deks && b in seal[order[0] := newKek])
      && Leaves(c, next, seal[order[0] := newKek], keys, order[1..], newKek, nonces)
    ensures Leaves(c, m, seal, keys, order, newKek, nonces)
  {
    hide Sealed, RawKey, Reseal, Rewrap, Visited, Distinct;
    var b, k := order[0], Visited(c, m, order, newKek, nonces);
    var next := Rewrapped(c, m, b, keys[b], newKek, nonces);
    var rest := Visited(c, next, order[1..], newKek, nonces);
    RewrapOne(c, m, seal, keys, b, newKek, nonces);
    assert next.deks[b].key.Some?;
    FirstStep(c, m, order, keys[b], newKek, nonces);
    hide Rewrapped;
    ResealOne(seal, order, rest, newKek);
    var m' := Rewrap(c, next, order[1..], newKek, nonces).0;
    VisitedGrow(m.deks, next.deks, m'.deks, order, rest);
  }

  /** `before` is what the loop starts with, `next` what its first iteration leaves, `after` what the
      following ones leave. */
  lemma VisitedGrow(before: map<string, Held>, next: map<string, Held>, after: map<string, Held>, order: seq<string>,
                    rest: nat)
    requires order != [] && rest < |order| && Distinct(order)
    requires before.Keys == next.Keys == after.Keys && order[0] in next && next[order[0]].key.Some?
    requires forall a :: a in before && a != order[0] ==> next[a] == before[a]
    requires forall a :: a in next ==> if a in order[1..][..rest] then after[a].key.Some? else after[a] == next[a]
    ensures forall a :: a in before ==> if a in order[..rest + 1] then after[a].key.Some? else after[a] == before[a]
  {
    assert order[..rest + 1] == [order[0]] + order[1..][..rest];
    forall a ensures a in order[..rest + 1] <==> a == order[0] || a in order[1..][..rest] {
    }
  }

  lemma FirstStep(c: Cipher, m: Manager, order: seq<string>, raw: Bytes, newKek: Bytes, nonces: string -> Bytes)
    requires order != [] && (forall b <- order :: b in m.deks) && RawKey(c, m.kek, m.deks[order[0]]) == Some(raw)
    ensures var next := Rewrapped(c, m, order[0], raw, newKek, nonces);
      && Rewrap(c, m, order, newKek, nonces) == Rewrap(c, next, order[1..], newKek, nonces)
      && Visited(c, m, order, newKek, nonces) == 1 + Visited(c, next, order[1..], newKek, nonces)
  {
  }

  // ---------------------------------------------------------------- when a rotation succeeds

  lemma RotateStops(c: Cipher, m: Manager, keys: map<string, Bytes>, order: seq<string>, newKek: Bytes,
                    nonces: string -> Bytes)
    requires c.Lawful() && Refines(c, m, keys) && IsOrder(order, m)
    ensures var seal := Uniform(m.deks.Keys, m.kek);
      && Sealed(c, m.deks, seal, keys)
      && StopsAt(c, m, seal, order, newKek, nonces) && Leaves(c, m, seal, keys, order, newKek, nonces)
  {
    RefinesIsSealed(c, m, keys);
    RewrapStops(c, m, Uniform(m.deks.Keys, m.kek), keys, order, newKek, nonces);
  }

  /** The DEKs that cannot be unwrapped while this KEK is in force: those with no raw key in memory
      that are wrapped under another one. */
  function Shut(m: Manager, seal: Seal, kek: Bytes): set<string> {
    set b | b in m.deks && b in seal && m.deks[b].key.None? && seal[b] != kek
  }

  /** From any state, a rotation in a given order succeeds exactly when the first DEK opens under the
      KEK in force before, and every later one under the new KEK, which the first iteration already
      puts in force. */
  lemma RotateSucceedsIff(c: Cipher, m: Manager, seal: Seal, keys: map<string, Bytes>, order: seq<string>,
                          newKek: Bytes, nonces: string -> Bytes)
    requires c.Lawful() && Sealed(c, m.deks, seal, keys) && IsOrder(order, m)
    ensures Rotate(c, m, order, newKek, nonces).1 <==>
      forall i :: 0 <= i < |order| ==> order[i] !in Shut(m, seal, InForce(m, newKek, i))
  {
    RewrapStops(c, m, seal, keys, order, newKek, nonces);
    hide Cipher.Lawful, IsWrap, Sealed, StopsAt, Leaves, Rotate;
    AllOpen(c, m, seal, order, newKek, nonces);
    forall i | 0 <= i < |order|
      ensures Opens(m, seal, order, newKek, i) <==> order[i] !in Shut(m, seal, InForce(m, newKek, i))
    {
    }
    hide Opens, Shut;
  }

  lemma AllOpen(c: Cipher, m: Manager, seal: Seal, order: seq<string>, newKek: Bytes, nonces: string -> Bytes)
    requires (forall b <- order :: b in m.deks && b in seal) && StopsAt(c, m, seal, order, newKek, nonces)
    ensures Rotate(c, m, order, newKek, nonces).1 <==> forall i :: 0 <= i < |order| ==> Opens(m, seal, order, newKek, i)
    ensures Rotate(c, m, order, newKek, nonces).1 <==> Visited(c, m, order, newKek, nonces) == |order|
  {
    hide Opens, Rewrap, Visited;
  }

  ghost predicate AtMostOne(bs: set<string>) { forall a, b :: a in bs && b in bs ==> a == b }

  /** The DEKs without a raw key in memory. */
  function Sleeping(m: Manager): set<string> { set b | b in m.deks && m.deks[b].key.None? }

  /** The buckets in some order. */
  lemma SomeOrder(bs: set<string>) returns (order: seq<string>)
    ensures Distinct(order) && forall b :: b in order <==> b in bs
  {
    order := [];
    var rest := bs;
    while rest != {}
      invariant rest <= bs && Distinct(order) && forall b :: b in order <==> b in bs - rest
      decreases |rest|
    {
      var b :| b in rest;
      assert b !in order;
      order := order + [b];
      rest := rest - {b};
    }
  }

  lemma OrderFrom(m: Manager, first: string) returns (order: seq<string>)
    requires first in m.deks
    ensures IsOrder(order, m) && order != [] && order[0] == first
  {
    var rest := SomeOrder(m.deks.Keys - {first});
    order := [first] + rest;
    assert forall i :: 0 < i < |order| ==> order[i] in rest;
  }

  /** The order in which a map is walked is random. From any state, a rotation succeeds in every
      order exactly when every DEK opens under the KEK in force, and, unless there is at most one,
      under the new KEK too. */
  lemma RotateAlwaysSucceedsIff(c: Cipher, m: Manager, seal: Seal, keys: map<string, Bytes>, newKek: Bytes,
                                nonces: string -> Bytes)
    requires c.Lawful() && Sealed(c, m.deks, seal, keys)
    ensures (forall order | IsOrder(order, m) :: Rotate(c, m, order, newKek, nonces).1)
            <==> Shut(m, seal, m.kek) == {} && (AtMostOne(m.deks.Keys) || Shut(m, seal, newKek) == {})
  {
    hide Sealed, Rotate, Cipher.Lawful, Shut;
    ShutAreDeks(m, seal, m.kek);
    ShutAreDeks(m, seal, newKek);
    if Shut(m, seal, m.kek) == {} && (AtMostOne(m.deks.Keys) || Shut(m, seal, newKek) == {}) {
      forall order | IsOrder(order, m) ensures Rotate(c, m, order, newKek, nonces).1 {
        RotateSucceedsIff(c, m, seal, keys, order, newKek, nonces);
        assert forall i :: 1 <= i < |order| ==> order[i] in m.deks && order[i] != order[0] && order[0] in m.deks;
      }
    } else if Shut(m, seal, m.kek) != {} {
      var b :| b in Shut(m, seal, m.kek);
      var order := OrderFrom(m, b);
      RotateSucceedsIff(c, m, seal, keys, order, newKek, nonces);
      assert order[0] in Shut(m, seal, InForce(m, newKek, 0));
    } else {
      var b :| b in Shut(m, seal, newKek);
      var a :| a in m.deks && a != b;
      var order := OrderFrom(m, a);
      RotateSucceedsIff(c, m, seal, keys, order, newKek, nonces);
      var i :| 0 <= i < |order| && order[i] == b;
      assert order[i] in Shut(m, seal, InForce(m, newKek, i));
    }
  }

  lemma ShutAreDeks(m: Manager, seal: Seal, kek: Bytes)
    ensures Shut(m, seal, kek) <= m.deks.Keys
  {
  }

  /** All DEKs but this one open under the new KEK, and it opens under the KEK in force. */
  predicate CanBeFirst(m: Manager, seal: Seal, newKek: Bytes, b: string) {
    b in m.deks && b !in Shut(m, seal, m.kek) && Shut(m, seal, newKek) <= {b}
  }

  /** From any state it succeeds in some order exactly when there are no DEKs, or visiting some one
      first helps: it opens under the KEK in force, and all others under the new KEK. */
  lemma RotateCanSucceedIff(c: Cipher, m: Manager, seal: Seal, keys: map<string, Bytes>, newKek: Bytes,
                            nonces: string -> Bytes)
    requires c.Lawful() && Sealed(c, m.deks, seal, keys)
    ensures (exists order | IsOrder(order, m) :: Rotate(c, m, order, newKek, nonces).1)
            <==> m.deks == map[] || exists b :: CanBeFirst(m, seal, newKek, b)
  {
    hide Sealed, Rotate, Cipher.Lawful, Shut;
    ShutAreDeks(m, seal, m.kek);
    ShutAreDeks(m, seal, newKek);
    if m.deks == map[] {
      assert IsOrder([], m);
      RotateSucceedsIff(c, m, seal, keys, [], newKek, nonces);
    } else if b :| CanBeFirst(m, seal, newKek, b) {
      var order := OrderFrom(m, b);
      RotateSucceedsIff(c, m, seal, keys, order, newKek, nonces);
      assert Rotate(c, m, order, newKek, nonces).1;
    } else {
      forall order | IsOrder(order, m) ensures !Rotate(c, m, order, newKek, nonces).1 {
        RotateSucceedsIff(c, m, seal, keys, order, newKek, nonces);
        if Rotate(c, m, order, newKek, nonces).1 {
          FirstOfGoodOrder(m, seal, order, newKek);
        }
      }
    }
  }

  lemma FirstOfGoodOrder(m: Manager, seal: Seal, order: seq<string>, newKek: Bytes)
    requires IsOrder(order, m) && m.deks != map[]
    requires forall i :: 0 <= i < |order| ==> order[i] !in Shut(m, seal, InForce(m, newKek, i))
    ensures order != [] && CanBeFirst(m, seal, newKek, order[0])
  {
    ShutAreDeks(m, seal, newKek);
    hide Shut;
    var a :| a in m.deks;
    assert a in order;
    assert order[0] !in Shut(m, seal, InForce(m, newKek, 0));
    forall b | b in Shut(m, seal, newKek) ensures b == order[0] {
      var i :| 0 <= i < |order| && order[i] == b;
    }
  }

  lemma ShutUnderOne(m: Manager, newKek: Bytes)
    ensures var seal := Uniform(m.deks.Keys, m.kek);
      && Shut(m, seal, m.kek) == {} && Shut(m, seal, newKek) == if newKek == m.kek then {} else Sleeping(m)
  {
  }

  /** When all DEKs are under the KEK in force, a rotation in a given order succeeds exactly when every
      DEK after the first one visited has its raw key in memory, or the old KEK is drawn again. */
  lemma UnderOneSucceedsIff(c: Cipher, m: Manager, keys: map<string, Bytes>, order: seq<string>, newKek: Bytes,
                            nonces: string -> Bytes)
    requires c.Lawful() && Refines(c, m, keys) && IsOrder(order, m)
    ensures Rotate(c, m, order, newKek, nonces).1
            <==> newKek == m.kek || forall i :: 1 <= i < |order| ==> m.deks[order[i]].key.Some?
  {
    RefinesIsSealed(c, m, keys);
    hide Refines, Rotate, Sealed, Cipher.Lawful, Uniform, Sleeping, Shut;
    var seal := Uniform(m.deks.Keys, m.kek);
    RotateSucceedsIff(c, m, seal, keys, order, newKek, nonces);
    ShutUnderOne(m, newKek);
    forall i | 0 <= i < |order|
      ensures order[i] !in Shut(m, seal, InForce(m, newKek, i))
              <==> i == 0 || newKek == m.kek || m.deks[order[i]].key.Some?
    {
      SleepingIff(m, order[i]);
    }
    hide IsOrder, InForce;
  }

  lemma SleepingIff(m: Manager, b: string)
    requires b in m.deks
    ensures b in Sleeping(m) <==> m.deks[b].key.None?
  {
  }

  /** When all DEKs are under the KEK in force, a rotation succeeds in every order exactly when all
      raw keys are in memory, or there is at most one DEK, or the old KEK is drawn again; */
  lemma UnderOneAlwaysSucceedsIff(c: Cipher, m: Manager, keys: map<string, Bytes>, newKek: Bytes,
                                  nonces: string -> Bytes)
    requires c.Lawful() && Refines(c, m, keys)
    ensures (forall order | IsOrder(order, m) :: Rotate(c, m, order, newKek, nonces).1)
            <==> newKek == m.kek || AtMostOne(m.deks.Keys) || Sleeping(m) == {}
  {
    RefinesIsSealed(c, m, keys);
    hide Refines, Rotate, Sealed, Cipher.Lawful, Sleeping, Shut, IsOrder;
    RotateAlwaysSucceedsIff(c, m, Uniform(m.deks.Keys, m.kek), keys, newKek, nonces);
    ShutUnderOne(m, newKek);
  }

  /** it succeeds in some order exactly when at most one DEK has no raw key in memory, or the old KEK
      is drawn again. */
  lemma UnderOneCanSucceedIff(c: Cipher, m: Manager, keys: map<string, Bytes>, newKek: Bytes, nonces: string -> Bytes)
    requires c.Lawful() && Refines(c, m, keys)
    ensures (exists order | IsOrder(order, m) :: Rotate(c, m, order, newKek, nonces).1)
            <==> newKek == m.kek || AtMostOne(Sleeping(m))
  {
    RefinesIsSealed(c, m, keys);
    hide Refines, Rotate, Sealed, Cipher.Lawful, Shut, IsOrder, AtMostOne, Sleeping, CanBeFirst;
    RotateCanSucceedIff(c, m, Uniform(m.deks.Keys, m.kek), keys, newKek, nonces);
    FirstUnderOne(m, newKek);
  }

  lemma FirstUnderOne(m: Manager, newKek: Bytes)
    ensures m.deks == map[] || (exists b :: CanBeFirst(m, Uniform(m.deks.Keys, m.kek), newKek, b))
            <==> newKek == m.kek || AtMostOne(Sleeping(m))
  {
    ShutUnderOne(m, newKek);
    hide Shut;
    var seal := Uniform(m.deks.Keys, m.kek);
    if newKek == m.kek || AtMostOne(Sleeping(m)) {
      if b :| b in Sleeping(m) {
        assert CanBeFirst(m, seal, newKek, b);
      } else if b :| b in m.deks {
        assert CanBeFirst(m, seal, newKek, b);
      }
    }
  }

  // ---------------------------------------------------------------- what a rotation leaves

  lemma ResealAll(m: Manager, order: seq<string>, newKek: Bytes)
    requires IsOrder(order, m)
    ensures Reseal(Uniform(m.deks.Keys, m.kek), order, newKek) == Uniform(m.deks.Keys, newKek)
  {
  }

  /** A rotation that succeeds preserves every key, in memory and in the store. */
  lemma RotateRefines(c: Cipher, m: Manager, keys: map<string, Bytes>, order: seq<string>, newKek: Bytes,
                      nonces: string -> Bytes)
    requires c.Lawful() && Refines(c, m, keys) && IsOrder(order, m) && Rotate(c, m, order, newKek, nonces).1
    ensures Refines(c, Rotate(c, m, order, newKek, nonces).0, keys)
    ensures Rotate(c, m, order, newKek, nonces).0.kek == newKek
  {
    hide Refines, Cipher.Lawful, Sealed, Rewrap, Uniform;
    RotateStops(c, m, keys, order, newKek, nonces);
    AllOpen(c, m, Uniform(m.deks.Keys, m.kek), order, newKek, nonces);
    LoopSeals(c, m, keys, order, newKek, nonces);
    SavedRefines(c, Rewrap(c, m, order, newKek, nonces).0.(kek := newKek), keys);
  }

  lemma LoopSeals(c: Cipher, m: Manager, keys: map<string, Bytes>, order: seq<string>, newKek: Bytes,
                  nonces: string -> Bytes)
    requires IsOrder(order, m) && Visited(c, m, order, newKek, nonces) == |order|
    requires Leaves(c, m, Uniform(m.deks.Keys, m.kek), keys, order, newKek, nonces)
    ensures var deks := Rewrap(c, m, order, newKek, nonces).0.deks;
      Sealed(c, deks, Uniform(deks.Keys, newKek), keys)
  {
    assert order[..|order|] == order;
    ResealAll(m, order, newKek);
    hide Sealed, Visited, Rewrap, IsOrder, Reseal, Uniform;
    SealedKeys(c, Rewrap(c, m, order, newKek, nonces).0.deks, Uniform(m.deks.Keys, newKek), keys);
  }

  /** A rotation that fails leaves the store alone: restarting under the old KEK recovers every key. */
  lemma FailedRotationRecovers(c: Cipher, m: Manager, keys: map<string, Bytes>, order: seq<string>, newKek: Bytes,
                               nonces: string -> Bytes)
    requires c.Lawful() && Refines(c, m, keys) && IsOrder(order, m) && !Rotate(c, m, order, newKek, nonces).1
    ensures var m' := Rotate(c, m, order, newKek, nonces).0;
      m'.kek == newKek && StoreHolds(c, m'.store, m.kek, keys) && Refines(c, Restart(m', m.kek), keys)
  {
    RotateStops(c, m, keys, order, newKek, nonces);
    assert Opens(m, Uniform(m.deks.Keys, m.kek), order, newKek, 0);
    hide IsWrap, Rewrap, Sealed, Cipher.Lawful;
    RestartRefines(c, Rotate(c, m, order, newKek, nonces).0, m.kek, keys);
  }

  // ---------------------------------------------------------------- lookups and restarts

  /** Every lookup answers as the plain map does. */
  ghost predicate AnswersLikeMap(c: Cipher, m: Manager, keys: map<string, Bytes>) {
    forall b :: Get(c, m, b).1 == if b in keys then Some(keys[b]) else None
  }

  /** A lookup finds the bucket's key exactly when it is in memory or wrapped under the current KEK,
      and never finds another one. */
  lemma LookupIff(c: Cipher, m: Manager, seal: Seal, keys: map<string, Bytes>, b: string)
    requires c.Lawful() && Sealed(c, m.deks, seal, keys)
    ensures Get(c, m, b).1
            == if b in keys && (m.deks[b].key.Some? || seal[b] == m.kek) then Some(keys[b]) else None
  {
    if b in keys {
      RawKeyIff(c, m, seal, keys, b);
    }
  }

  lemma AnswersIff(c: Cipher, m: Manager, seal: Seal, keys: map<string, Bytes>)
    requires c.Lawful() && Sealed(c, m.deks, seal, keys)
    ensures AnswersLikeMap(c, m, keys) <==> forall b :: b in keys ==> m.deks[b].key.Some? || seal[b] == m.kek
  {
    forall b ensures Get(c, m, b).1
                     == if b in keys && (m.deks[b].key.Some? || seal[b] == m.kek) then Some(keys[b]) else None
    {
      LookupIff(c, m, seal, keys, b);
    }
    hide Get, Cipher.Lawful, IsWrap;
  }

  /** A restart recovers exactly the keys wrapped under the KEK it is given. */
  lemma RestartAnswersIff(c: Cipher, m: Manager, seal: Seal, keys: map<string, Bytes>, kek: Bytes)
    requires c.Lawful() && Sealed(c, Load(m.store), seal, keys)
    ensures forall b :: b in keys ==> Get(c, Restart(m, kek), b).1 == if seal[b] == kek then Some(keys[b]) else None
    ensures AnswersLikeMap(c, Restart(m, kek), keys) <==> forall b :: b in keys ==> seal[b] == kek
  {
    AnswersIff(c, Restart(m, kek), seal, keys);
    forall b | b in keys ensures Get(c, Restart(m, kek), b).1 == if seal[b] == kek then Some(keys[b]) else None {
      LookupIff(c, Restart(m, kek), seal, keys, b);
    }
  }

  lemma StoreIsSealed(c: Cipher, m: Manager, keys: map<string, Bytes>)
    requires Refines(c, m, keys)
    ensures Sealed(c, Load(m.store), Uniform(keys.Keys, m.kek), keys)
  {
    hide IsWrap;
  }

  /** The KEK a rotation draws is kept nowhere but in memory. After a rotation that succeeds, a restart
      under any other KEK, such as the configured one, finds no key at all. */
  lemma RestartAfterRotation(c: Cipher, m: Manager, keys: map<string, Bytes>, order: seq<string>, newKek: Bytes,
                             nonces: string -> Bytes, kek: Bytes)
    requires c.Lawful() && Refines(c, m, keys) && IsOrder(order, m) && Rotate(c, m, order, newKek, nonces).1
    ensures var restarted := Restart(Rotate(c, m, order, newKek, nonces).0, kek);
      && (AnswersLikeMap(c, restarted, keys) <==> keys == map[] || kek == newKek)
      && (kek != newKek ==> forall b :: Get(c, restarted, b).1 == None)
  {
    RotateRefines(c, m, keys, order, newKek, nonces);
    hide Rotate, Cipher.Lawful;
    var m' := Rotate(c, m, order, newKek, nonces).0;
    StoreIsSealed(c, m', keys);
    hide Refines;
    RestartAnswersIff(c, m', Uniform(keys.Keys, newKek), keys, kek);
    forall b ensures b !in keys ==> Get(c, Restart(m', kek), b).1 == None {
      LookupIff(c, Restart(m', kek), Uniform(keys.Keys, newKek), keys, b);
    }
    assert keys == map[] <==> forall b :: b !in keys;
  }
}
