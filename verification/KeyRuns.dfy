/** The key manager over whole runs of generating, looking up, shredding, rotating and restarting,
    under whatever keys (internal/keymanager/local.go). */
module KeyRuns {
  import opened Events
  import opened KeyStore
  import opened KeyRotation

  datatype Op =
    | Generating(bucket: string, meta: Meta, raw: Bytes, nonce: Bytes)
    | Getting(bucket: string)
    | Shredding(bucket: string)
    | Rotation(order: seq<string>, newKek: Bytes, nonces: string -> Bytes)
    | Restarting(kek: Bytes)

  /** A manager, with the KEK each DEK is wrapped under in memory and in the store. */
  datatype System = System(m: Manager, memory: Seal, stored: Seal)

  ghost function Step(c: Cipher, s: System, op: Op): System {
    match op
    case Generating(bucket, meta, raw, nonce) =>
      var memory := s.memory[bucket := s.m.kek];
      System(Generate(c, s.m, bucket, meta, raw, nonce), memory, memory)
    case Getting(bucket) => s.(m := Get(c, s.m, bucket).0)
    case Shredding(bucket) =>
      if bucket !in s.m.deks then s
      else System(Shred(s.m, bucket), s.memory - {bucket}, s.memory - {bucket})
    case Rotation(order, newKek, nonces) =>
      if !IsOrder(order, s.m) then s
      else
        var (m', ok) := Rotate(c, s.m, order, newKek, nonces);
        var memory := Reseal(s.memory, order[..Visited(c, s.m, order, newKek, nonces)], newKek);
        System(m', memory, if ok then memory else s.stored)
    case Restarting(kek) => System(Restart(s.m, kek), s.stored, s.stored)
  }

  ghost function Run(c: Cipher, kek: Bytes, ops: seq<Op>): System {
    if ops == [] then System(Manager(map[], kek, map[]), map[], map[])
    else Step(c, Run(c, kek, ops[..|ops| - 1]), ops[|ops| - 1])
  }

  /** The plain map: generating sets a key, shredding removes it, nothing else changes it. */
  function Keys(ops: seq<Op>): map<string, Bytes> {
    if ops == [] then map[] else KeysStep(Keys(ops[..|ops| - 1]), ops[|ops| - 1])
  }

  function KeysStep(keys: map<string, Bytes>, op: Op): map<string, Bytes> {
    match op
    case Generating(bucket, _, raw, _) => keys[bucket := raw]
    case Shredding(bucket) => keys - {bucket}
    case _ => keys
  }

  /** Memory and store both hold exactly these keys, wrapped as recorded. */
  ghost predicate Holds(c: Cipher, s: System, keys: map<string, Bytes>) {
    Sealed(c, s.m.deks, s.memory, keys) && Sealed(c, Load(s.m.store), s.stored, keys)
  }

  // ---------------------------------------------------------------- every operation

  lemma SavingKeepsSealed(c: Cipher, deks: map<string, Held>, seal: Seal, keys: map<string, Bytes>)
    requires Sealed(c, deks, seal, keys)
    ensures Sealed(c, Load(Save(deks)), seal, keys)
  {
    hide IsWrap;
  }

  lemma GenerateHolds(c: Cipher, s: System, bucket: string, meta: Meta, raw: Bytes, nonce: Bytes,
                      keys: map<string, Bytes>)
    requires Holds(c, s, keys)
    ensures Holds(c, Step(c, s, Generating(bucket, meta, raw, nonce)), keys[bucket := raw])
  {
    hide Sealed, Save, Load;
    AddingKey(c, s.m, s.memory, keys, bucket, meta, raw, nonce);
    var m' := Generate(c, s.m, bucket, meta, raw, nonce);
    SavingKeepsSealed(c, m'.deks, s.memory[bucket := s.m.kek], keys[bucket := raw]);
  }

  lemma AddingKey(c: Cipher, m: Manager, seal: Seal, keys: map<string, Bytes>, bucket: string, meta: Meta, raw: Bytes,
                  nonce: Bytes)
    requires Sealed(c, m.deks, seal, keys)
    ensures Sealed(c, Generate(c, m, bucket, meta, raw, nonce).deks, seal[bucket := m.kek], keys[bucket := raw])
  {
    assert IsWrap(c, m.kek, raw, c.wrap(m.kek, raw, nonce));
    hide IsWrap, Save;
  }

  lemma KeepingKey(c: Cipher, deks: map<string, Held>, seal: Seal, keys: map<string, Bytes>, b: string)
    requires Sealed(c, deks, seal, keys) && b in deks
    ensures b in keys && Sealed(c, deks[b := deks[b].(key := Some(keys[b]))], seal, keys)
  {
    hide IsWrap;
  }

  lemma GetHolds(c: Cipher, s: System, bucket: string, keys: map<string, Bytes>)
    requires c.Lawful() && Holds(c, s, keys)
    ensures Holds(c, Step(c, s, Getting(bucket)), keys)
  {
    hide IsWrap, Cipher.Lawful, RawKey, Sealed;
    if bucket in s.m.deks {
      RawKeyIff(c, s.m, s.memory, keys, bucket);
      KeepingKey(c, s.m.deks, s.memory, keys, bucket);
    }
  }

  lemma ShredHolds(c: Cipher, s: System, bucket: string, keys: map<string, Bytes>)
    requires Holds(c, s, keys)
    ensures Holds(c, Step(c, s, Shredding(bucket)), keys - {bucket})
  {
    hide IsWrap;
    if bucket in s.m.deks {
      SavingKeepsSealed(c, s.m.deks - {bucket}, s.memory - {bucket}, keys - {bucket});
    } else {
      assert keys - {bucket} == keys;
    }
  }

  lemma RotationStep(c: Cipher, s: System, order: seq<string>, newKek: Bytes, nonces: string -> Bytes)
    requires IsOrder(order, s.m)
    ensures var s', m', ok := Step(c, s, Rotation(order, newKek, nonces)), Rewrap(c, s.m, order, newKek, nonces).0,
                              Rotate(c, s.m, order, newKek, nonces).1;
      && s'.m.deks == m'.deks && s'.m.kek == (if ok then newKek else m'.kek)
      && s'.memory == Reseal(s.memory, order[..Visited(c, s.m, order, newKek, nonces)], newKek)
      && s'.m.store == (if ok then Save(m'.deks) else s.m.store) && s'.stored == (if ok then s'.memory else s.stored)
  {
    hide Rewrap, Visited, Reseal, Save;
  }

  lemma RotateHolds(c: Cipher, s: System, order: seq<string>, newKek: Bytes, nonces: string -> Bytes,
                    keys: map<string, Bytes>)
    requires c.Lawful() && Holds(c, s, keys)
    ensures Holds(c, Step(c, s, Rotation(order, newKek, nonces)), keys)
  {
    if IsOrder(order, s.m) {
      hide Sealed, Cipher.Lawful, Rewrap, Visited, StopsAt, Reseal, Load, Save, Rotate;
      RewrapStops(c, s.m, s.memory, keys, order, newKek, nonces);
      RotationStep(c, s, order, newKek, nonces);
      hide IsOrder, Step;
      var s' := Step(c, s, Rotation(order, newKek, nonces));
      SavingKeepsSealed(c, s'.m.deks, s'.memory, keys);
    }
  }

  lemma StepHolds(c: Cipher, s: System, op: Op, keys: map<string, Bytes>)
    requires c.Lawful() && Holds(c, s, keys)
    ensures Holds(c, Step(c, s, op), KeysStep(keys, op))
  {
    match op
    case Generating(bucket, meta, raw, nonce) => GenerateHolds(c, s, bucket, meta, raw, nonce, keys);
    case Getting(bucket) => GetHolds(c, s, bucket, keys);
    case Shredding(bucket) => ShredHolds(c, s, bucket, keys);
    case Rotation(order, newKek, nonces) => RotateHolds(c, s, order, newKek, nonces, keys);
    case Restarting(kek) =>
  }

  // ---------------------------------------------------------------- every run

  /** Over every run, whatever rotations fail and whatever keys restarts use, memory and store hold
      exactly the keys of the plain map, each still wrapped under the KEK on record. */
  lemma {:induction false} RunRefinesMap(c: Cipher, kek: Bytes, ops: seq<Op>)
    requires c.Lawful()
    ensures Holds(c, Run(c, kek, ops), Keys(ops))
  {
    if ops != [] {
      hide Step, Holds, KeysStep;
      RunRefinesMap(c, kek, ops[..|ops| - 1]);
      StepHolds(c, Run(c, kek, ops[..|ops| - 1]), ops[|ops| - 1], Keys(ops[..|ops| - 1]));
    }
  }

  /** After any run a lookup finds the plain map's key or nothing, and all lookups answer as the plain
      map does exactly when every DEK is in memory or wrapped under the current KEK. */
  lemma LookupsAfterRun(c: Cipher, kek: Bytes, ops: seq<Op>)
    requires c.Lawful()
    ensures var s, keys := Run(c, kek, ops), Keys(ops);
      && s.m.deks.Keys == s.memory.Keys == keys.Keys
      && (forall b :: Get(c, s.m, b).1 == if b in keys && (s.m.deks[b].key.Some? || s.memory[b] == s.m.kek)
                                          then Some(keys[b]) else None)
      && (AnswersLikeMap(c, s.m, keys) <==> forall b :: b in keys ==> s.m.deks[b].key.Some? || s.memory[b] == s.m.kek)
  {
    var s, keys := Run(c, kek, ops), Keys(ops);
    RunRefinesMap(c, kek, ops);
    AnswersIff(c, s.m, s.memory, keys);
    forall b ensures Get(c, s.m, b).1 == if b in keys && (s.m.deks[b].key.Some? || s.memory[b] == s.m.kek)
                                         then Some(keys[b]) else None {
      LookupIff(c, s.m, s.memory, keys, b);
    }
  }

  /** After any run, a restart under any KEK recovers exactly the keys whose stored DEKs are wrapped
      under that KEK, so it recovers the plain map if and only if all of them are. */
  lemma RestartAfterRun(c: Cipher, kek: Bytes, ops: seq<Op>, given: Bytes)
    requires c.Lawful()
    ensures var s, keys := Run(c, kek, ops), Keys(ops);
      && s.stored.Keys == keys.Keys
      && (forall b :: b in keys ==>
            Get(c, Restart(s.m, given), b).1 == if s.stored[b] == given then Some(keys[b]) else None)
      && (AnswersLikeMap(c, Restart(s.m, given), keys) <==> forall b :: b in keys ==> s.stored[b] == given)
  {
    RunRefinesMap(c, kek, ops);
    RestartAnswersIff(c, Run(c, kek, ops).m, Run(c, kek, ops).stored, Keys(ops), given);
  }

  // ---------------------------------------------------------------- restarts under the configured KEK

  /** Every restart is under the configured KEK, and no rotation happens. */
  predicate Unrotated(ops: seq<Op>, kek: Bytes) {
    forall i :: 0 <= i < |ops| ==> !ops[i].Rotation? && (ops[i].Restarting? ==> ops[i].kek == kek)
  }

  /** All DEKs are wrapped under this KEK, which is the current one. */
  predicate AllUnder(s: System, kek: Bytes) {
    && s.m.kek == kek
    && (forall b :: b in s.memory ==> s.memory[b] == kek)
    && (forall b :: b in s.stored ==> s.stored[b] == kek)
  }

  lemma StepStaysUnder(c: Cipher, s: System, op: Op, kek: Bytes)
    requires AllUnder(s, kek) && !op.Rotation? && (op.Restarting? ==> op.kek == kek)
    ensures AllUnder(Step(c, s, op), kek)
  {
    hide RawKey, Save;
  }

  /** The manager is started under one configured KEK, and so is every restart. Without a rotation all
      DEKs stay wrapped under it, so every lookup answers and every restart recovers every key. */
  lemma {:induction false} ConfiguredKekSuffices(c: Cipher, kek: Bytes, ops: seq<Op>)
    requires c.Lawful() && Unrotated(ops, kek)
    ensures var s := Run(c, kek, ops);
      AllUnder(s, kek) && AnswersLikeMap(c, s.m, Keys(ops)) && AnswersLikeMap(c, Restart(s.m, kek), Keys(ops))
  {
    hide Step, Keys;
    if ops != [] {
      ConfiguredKekSuffices(c, kek, ops[..|ops| - 1]);
      StepStaysUnder(c, Run(c, kek, ops[..|ops| - 1]), ops[|ops| - 1], kek);
    }
    LookupsAfterRun(c, kek, ops);
    RestartAfterRun(c, kek, ops, kek);
    hide AnswersLikeMap, Run;
  }

  lemma RunSnoc(c: Cipher, kek: Bytes, ops: seq<Op>, op: Op)
    ensures Run(c, kek, ops + [op]) == Step(c, Run(c, kek, ops), op)
    ensures Keys(ops + [op]) == KeysStep(Keys(ops), op)
  {
    assert (ops + [op])[..|ops|] == ops;
  }

  /** The KEK a rotation draws is kept nowhere but in memory. After any run that ends with a rotation
      that succeeds, a restart recovers the keys exactly when there are none or it is given that KEK;
      under any other, such as the configured one, every key is lost. */
  lemma RotationThenRestart(c: Cipher, kek: Bytes, ops: seq<Op>, order: seq<string>, newKek: Bytes,
                            nonces: string -> Bytes, given: Bytes)
    requires c.Lawful() && IsOrder(order, Run(c, kek, ops).m) && Rotate(c, Run(c, kek, ops).m, order, newKek, nonces).1
    ensures var m, keys := Run(c, kek, ops + [Rotation(order, newKek, nonces)]).m, Keys(ops);
      && (AnswersLikeMap(c, Restart(m, given), keys) <==> keys == map[] || given == newKek)
      && (forall b :: b in keys ==> Get(c, Restart(m, given), b).1 == if given == newKek then Some(keys[b]) else None)
  {
    var s, op := Run(c, kek, ops), Rotation(order, newKek, nonces);
    hide Run, Step, Rotate, Keys, Holds, AnswersLikeMap, Get, IsOrder;
    RunSnoc(c, kek, ops, op);
    RunRefinesMap(c, kek, ops);
    StoredAfterRotation(c, s, Keys(ops), order, newKek, nonces);
    RestartAfterRun(c, kek, ops + [op], given);
    assert Keys(ops) == map[] <==> forall b :: b !in Keys(ops);
  }

  lemma StoredAfterRotation(c: Cipher, s: System, keys: map<string, Bytes>, order: seq<string>, newKek: Bytes,
                            nonces: string -> Bytes)
    requires c.Lawful() && Holds(c, s, keys) && IsOrder(order, s.m) && Rotate(c, s.m, order, newKek, nonces).1
    ensures var s' := Step(c, s, Rotation(order, newKek, nonces));
      s'.stored.Keys == keys.Keys && forall b :: b in keys ==> s'.stored[b] == newKek
  {
    hide Rotate, Visited, StopsAt, Leaves, Sealed, Opens, Cipher.Lawful, Load;
    SealedKeys(c, s.m.deks, s.memory, keys);
    RewrapStops(c, s.m, s.memory, keys, order, newKek, nonces);
    AllOpen(c, s.m, s.memory, order, newKek, nonces);
    assert order[..Visited(c, s.m, order, newKek, nonces)] == order;
  }

  /** A run that loses its key: generate, rotate, restart under the configured KEK. */
  lemma RotatedKeyIsLost(c: Cipher, kek: Bytes, newKek: Bytes, bucket: string, meta: Meta, raw: Bytes, nonce: Bytes,
                         nonces: string -> Bytes)
    requires c.Lawful() && newKek != kek
    ensures var ops := [Generating(bucket, meta, raw, nonce), Rotation([bucket], newKek, nonces), Restarting(kek)];
      bucket in Keys(ops) && Get(c, Run(c, kek, ops).m, bucket).1 == None
  {
    var g, r, t := Generating(bucket, meta, raw, nonce), Rotation([bucket], newKek, nonces), Restarting(kek);
    AfterOneGenerated(c, kek, bucket, meta, raw, nonce);
    var s := Run(c, kek, [g]);
    assert IsOrder([bucket], s.m) && [bucket][1..] == [];
    assert Rewrap(c, s.m, [bucket], newKek, nonces).1;
    hide Run, Keys;
    RunSnoc(c, kek, [g], r);
    RunSnoc(c, kek, [g, r], t);
    assert [g] + [r] == [g, r] && [g, r] + [t] == [g, r, t];
    RotationThenRestart(c, kek, [g], [bucket], newKek, nonces, kek);
  }

  lemma AfterOneGenerated(c: Cipher, kek: Bytes, bucket: string, meta: Meta, raw: Bytes, nonce: Bytes)
    ensures var g := Generating(bucket, meta, raw, nonce);
      && Run(c, kek, [g]).m.deks == map[bucket := Held(meta, Some(raw), c.wrap(kek, raw, nonce))]
      && Run(c, kek, [g]).m.kek == kek && Keys([g]) == map[bucket := raw]
  {
    var g := Generating(bucket, meta, raw, nonce);
    RunSnoc(c, kek, [], g);
    assert [] + [g] == [g];
  }

  // ---------------------------------------------------------------- rotations that fail

  /** After any run, failed rotations included: a rotation succeeds in every order exactly when every
      DEK opens under the KEK in force and, unless there is at most one, under the new KEK; it succeeds
      in some order exactly when there are none or some one can be the first. */
  lemma RotationAfterRunIff(c: Cipher, kek: Bytes, ops: seq<Op>, newKek: Bytes, nonces: string -> Bytes)
    requires c.Lawful()
    ensures var s := Run(c, kek, ops);
      && ((forall order | IsOrder(order, s.m) :: Rotate(c, s.m, order, newKek, nonces).1)
          <==> Shut(s.m, s.memory, s.m.kek) == {}
               && (AtMostOne(s.m.deks.Keys) || Shut(s.m, s.memory, newKek) == {}))
      && ((exists order | IsOrder(order, s.m) :: Rotate(c, s.m, order, newKek, nonces).1)
          <==> s.m.deks == map[] || exists b :: CanBeFirst(s.m, s.memory, newKek, b))
  {
    RunRefinesMap(c, kek, ops);
    hide Run, Rotate, Shut, Sealed, Cipher.Lawful, IsOrder, AtMostOne, CanBeFirst;
    var s := Run(c, kek, ops);
    RotateAlwaysSucceedsIff(c, s.m, s.memory, Keys(ops), newKek, nonces);
    RotateCanSucceedIff(c, s.m, s.memory, Keys(ops), newKek, nonces);
  }

  /** A run that ends with a failing rotation: two DEKs generated, a restart, a rotation. */
  lemma RotationCanFail(c: Cipher, kek: Bytes, newKek: Bytes, a: Op, b: Op, nonces: string -> Bytes)
    requires c.Lawful() && newKek != kek && a.Generating? && b.Generating? && a.bucket != b.bucket
    ensures var m := Run(c, kek, [a, b, Restarting(kek)]).m;
      && IsOrder([a.bucket, b.bucket], m) && IsOrder([b.bucket, a.bucket], m)
      && (forall order | IsOrder(order, m) :: !Rotate(c, m, order, newKek, nonces).1)
  {
    AfterTwoGenerated(c, kek, a, b);
    var m := Run(c, kek, [a, b, Restarting(kek)]).m;
    assert a.bucket in Sleeping(m) && b.bucket in Sleeping(m) && !AtMostOne(Sleeping(m));
    hide Rotate, Run, Keys, Refines, Cipher.Lawful, AtMostOne;
    UnderOneCanSucceedIff(c, m, Keys([a, b]), newKek, nonces);
  }

  lemma AfterTwoGenerated(c: Cipher, kek: Bytes, a: Op, b: Op)
    requires c.Lawful() && a.Generating? && b.Generating?
    ensures var m := Run(c, kek, [a, b, Restarting(kek)]).m;
      && m.kek == kek && m.deks.Keys == {a.bucket, b.bucket} && (forall d :: d in m.deks ==> m.deks[d].key.None?)
      && Refines(c, m, Keys([a, b]))
  {
    var t := Restarting(kek);
    assert Unrotated([a, b], kek) && [a, b] + [t] == [a, b, t];
    hide Run, Keys, AnswersLikeMap, Sealed, Unrotated, Cipher.Lawful;
    ConfiguredKekSuffices(c, kek, [a, b]);
    RunRefinesMap(c, kek, [a, b, t]);
    RunRefinesMap(c, kek, [a, b]);
    TwoKeys(c, kek, a, b);
    RunSnoc(c, kek, [a, b], t);
    var s := Run(c, kek, [a, b]);
    RestartFits(c, s, kek);
    SealedKeys(c, Load(s.m.store), s.stored, Keys([a, b]));
    hide Step;
    UnderOneKekRefines(c, Run(c, kek, [a, b, t]), Keys([a, b]), kek);
  }

  lemma TwoKeys(c: Cipher, kek: Bytes, a: Op, b: Op)
    requires a.Generating? && b.Generating?
    ensures Keys([a, b]).Keys == {a.bucket, b.bucket}
  {
    assert [a, b][..1] == [a] && [a][..0] == [];
    assert Keys([a]) == map[a.bucket := a.raw];
  }

  lemma RestartFits(c: Cipher, s: System, kek: Bytes)
    ensures var s' := Step(c, s, Restarting(kek));
      s'.m.store == Save(s'.m.deks) && s'.m.deks.Keys == s.m.store.Keys
      && forall d :: d in s'.m.deks ==> s'.m.deks[d].key.None?
    ensures AllUnder(s, kek) ==> AllUnder(Step(c, s, Restarting(kek)), kek)
  {
  }

  lemma UnderOneKekRefines(c: Cipher, s: System, keys: map<string, Bytes>, kek: Bytes)
    requires Holds(c, s, keys) && AllUnder(s, kek) && s.m.store == Save(s.m.deks)
    ensures Refines(c, s.m, keys)
  {
    hide IsWrap;
    assert Save(s.m.deks).Keys == s.m.deks.Keys;
  }

  /** Some one KEK unwraps everything in the store. */
  ghost predicate Readable(c: Cipher, store: map<string, Stored>) {
    exists kek :: Opened(c, store, kek)
  }

  ghost predicate Opened(c: Cipher, store: map<string, Stored>, kek: Bytes) {
    forall b :: b in store ==> c.unwrap(kek, store[b].wrapped).Some?
  }

  lemma OpenedIff(c: Cipher, s: System, keys: map<string, Bytes>, kek: Bytes)
    requires c.Lawful() && Holds(c, s, keys)
    ensures Opened(c, s.m.store, kek) <==> forall b :: b in s.stored ==> s.stored[b] == kek
  {
    forall b | b in s.m.store ensures c.unwrap(kek, s.m.store[b].wrapped).Some? <==> s.stored[b] == kek {
      UnwrapOf(c, s.stored[b], keys[b], s.m.store[b].wrapped, kek);
    }
    hide Cipher.Lawful, IsWrap;
  }

  /** The state a rotation that fails leaves when all DEKs were under one KEK before: those visited are
      under the new KEK, the others under the old one, and neither group is empty. */
  lemma AfterFailure(c: Cipher, s: System, keys: map<string, Bytes>, kek: Bytes, order: seq<string>, newKek: Bytes,
                     nonces: string -> Bytes)
    requires c.Lawful() && Holds(c, s, keys) && AllUnder(s, kek) && IsOrder(order, s.m)
    requires !Rotate(c, s.m, order, newKek, nonces).1
    ensures var s', k := Step(c, s, Rotation(order, newKek, nonces)), Visited(c, s.m, order, newKek, nonces);
      && newKek != kek && 0 < k < |order| && Holds(c, s', keys) && s'.m.kek == newKek
      && s'.memory == Reseal(s.memory, order[..k], newKek)
      && s'.memory.Keys == s'.m.deks.Keys == s.m.deks.Keys
  {
    hide Rotate, Visited, Sealed, Cipher.Lawful, Load;
    SealedKeys(c, s.m.deks, s.memory, keys);
    RewrapStops(c, s.m, s.memory, keys, order, newKek, nonces);
    AllOpen(c, s.m, s.memory, order, newKek, nonces);
    StepHolds(c, s, Rotation(order, newKek, nonces), keys);
    RotationStep(c, s, order, newKek, nonces);
    hide Step;
    var k := Visited(c, s.m, order, newKek, nonces);
    assert k < |order| && !Opens(s.m, s.memory, order, newKek, k);
  }

  /** After a failed rotation, saving a newly generated DEK leaves a store that one KEK can read if and
      only if it replaces the only DEK the rotation did not visit. */
  lemma GeneratingAfterFailure(c: Cipher, s: System, keys: map<string, Bytes>, kek: Bytes, order: seq<string>,
                               newKek: Bytes, nonces: string -> Bytes, bucket: string, meta: Meta, raw: Bytes,
                               nonce: Bytes)
    requires c.Lawful() && Holds(c, s, keys) && AllUnder(s, kek) && IsOrder(order, s.m)
    requires !Rotate(c, s.m, order, newKek, nonces).1
    ensures var failed, k := Step(c, s, Rotation(order, newKek, nonces)), Visited(c, s.m, order, newKek, nonces);
      Readable(c, Step(c, failed, Generating(bucket, meta, raw, nonce)).m.store) <==> order[k..] == [bucket]
  {
    hide Rotate, Visited, Cipher.Lawful, Sealed, Opened;
    var failed, k := Step(c, s, Rotation(order, newKek, nonces)), Visited(c, s.m, order, newKek, nonces);
    AfterFailure(c, s, keys, kek, order, newKek, nonces);
    var saved := Step(c, failed, Generating(bucket, meta, raw, nonce));
    StepHolds(c, failed, Generating(bucket, meta, raw, nonce), keys);
    ResealHalves(s, order, k, kek, newKek);
    MixedAfterGenerating(failed.memory, order, k, kek, newKek, bucket);
    hide Step, Holds, AllUnder, Reseal;
    SavedReadableIff(c, saved, keys[bucket := raw]);
  }

  /** All of a store's DEKs are wrapped under one KEK. */
  ghost predicate UnderOne(seal: Seal) { forall a, b :: a in seal && b in seal ==> seal[a] == seal[b] }

  lemma SavedReadableIff(c: Cipher, s: System, keys: map<string, Bytes>)
    requires c.Lawful() && Holds(c, s, keys)
    ensures Readable(c, s.m.store) <==> UnderOne(s.stored)
  {
    forall kek ensures Opened(c, s.m.store, kek) <==> forall b :: b in s.stored ==> s.stored[b] == kek {
      OpenedIff(c, s, keys, kek);
    }
    hide Holds, Opened, Cipher.Lawful;
    if UnderOne(s.stored) {
      var kek :| forall b :: b in s.stored ==> s.stored[b] == kek by {
        if s.stored != map[] {
          var a :| a in s.stored;
          assert forall b :: b in s.stored ==> s.stored[b] == s.stored[a];
        }
      }
      assert Opened(c, s.m.store, kek);
    }
  }

  /** In every reachable state one KEK can read the whole store exactly when all DEKs saved are under one. */
  lemma StoreReadableIff(c: Cipher, kek: Bytes, ops: seq<Op>)
    requires c.Lawful()
    ensures Readable(c, Run(c, kek, ops).m.store) <==> UnderOne(Run(c, kek, ops).stored)
  {
    RunRefinesMap(c, kek, ops);
    SavedReadableIff(c, Run(c, kek, ops), Keys(ops));
  }

  /** Whatever happened before, saving a generated DEK leaves a readable store exactly when every other
      DEK in memory is wrapped under the KEK in force, */
  lemma GeneratingReadableIff(c: Cipher, kek: Bytes, ops: seq<Op>, bucket: string, meta: Meta, raw: Bytes, nonce: Bytes)
    requires c.Lawful()
    ensures var s := Run(c, kek, ops);
      Readable(c, Run(c, kek, ops + [Generating(bucket, meta, raw, nonce)]).m.store)
      <==> forall b :: b in s.memory && b != bucket ==> s.memory[b] == s.m.kek
  {
    var s, op := Run(c, kek, ops), Generating(bucket, meta, raw, nonce);
    StoreReadableIff(c, kek, ops + [op]);
    RunSnoc(c, kek, ops, op);
    hide Run, Readable;
    var seal := s.memory[bucket := s.m.kek];
    assert seal == Step(c, s, op).stored;
    forall b | b in s.memory && b != bucket ensures b in seal && seal[b] == s.memory[b] {
    }
    assert bucket in seal && seal[bucket] == s.m.kek;
  }

  /** and saving because a DEK was shredded exactly when all others in memory are under one KEK. */
  lemma ShreddingReadableIff(c: Cipher, kek: Bytes, ops: seq<Op>, bucket: string)
    requires c.Lawful() && bucket in Run(c, kek, ops).m.deks
    ensures Readable(c, Run(c, kek, ops + [Shredding(bucket)]).m.store)
            <==> UnderOne(Run(c, kek, ops).memory - {bucket})
  {
    StoreReadableIff(c, kek, ops + [Shredding(bucket)]);
    RunSnoc(c, kek, ops, Shredding(bucket));
    hide Run, Readable;
  }

  lemma SplitDistinct(order: seq<string>, k: nat)
    requires Distinct(order) && k <= |order|
    ensures Distinct(order[..k]) && Distinct(order[k..])
    ensures forall b :: b in order <==> b in order[..k] || b in order[k..]
    ensures forall b :: b in order[..k] ==> b !in order[k..]
  {
    assert order == order[..k] + order[k..];
  }

  /** Seals of which the visited DEKs' are the new KEK and the others' the old one. */
  ghost predicate Halved(seal: Seal, order: seq<string>, k: nat, kek: Bytes, newKek: Bytes)
    requires k <= |order|
  {
    && (forall b :: b in seal <==> b in order[..k] || b in order[k..])
    && (forall b :: b in seal ==> seal[b] == if b in order[..k] then newKek else kek)
  }

  lemma ResealHalves(s: System, order: seq<string>, k: nat, kek: Bytes, newKek: Bytes)
    requires AllUnder(s, kek) && Distinct(order) && k <= |order| && s.memory.Keys == (set b | b in order)
    ensures Halved(Reseal(s.memory, order[..k], newKek), order, k, kek, newKek)
  {
    SplitDistinct(order, k);
    hide Distinct;
  }

  lemma MixedAfterGenerating(seal: Seal, order: seq<string>, k: nat, kek: Bytes, newKek: Bytes, bucket: string)
    requires k < |order| && Distinct(order) && Halved(seal, order, k, kek, newKek) && newKek != kek
    ensures UnderOne(seal[bucket := newKek]) <==> order[k..] == [bucket]
  {
    SplitDistinct(order, k);
    hide Distinct;
    var stored := seal[bucket := newKek];
    if order[k..] == [bucket] {
      assert forall b :: b in stored ==> stored[b] == newKek;
    } else {
      var u := Another(order[k..], bucket);
      assert stored[u] == kek && stored[bucket] == newKek;
    }
  }

  /** Saving because a DEK was shredded leaves a store that one KEK can read if and only if that DEK
      was the only one not visited, or the only one visited. */
  lemma ShreddingAfterFailure(c: Cipher, s: System, keys: map<string, Bytes>, kek: Bytes, order: seq<string>,
                              newKek: Bytes, nonces: string -> Bytes, bucket: string)
    requires c.Lawful() && Holds(c, s, keys) && AllUnder(s, kek) && IsOrder(order, s.m)
    requires !Rotate(c, s.m, order, newKek, nonces).1 && bucket in s.m.deks
    ensures var failed, k := Step(c, s, Rotation(order, newKek, nonces)), Visited(c, s.m, order, newKek, nonces);
      Readable(c, Step(c, failed, Shredding(bucket)).m.store) <==> order[k..] == [bucket] || order[..k] == [bucket]
  {
    hide Rotate, Visited, Cipher.Lawful, Sealed, Opened;
    var failed, k := Step(c, s, Rotation(order, newKek, nonces)), Visited(c, s.m, order, newKek, nonces);
    AfterFailure(c, s, keys, kek, order, newKek, nonces);
    var saved := Step(c, failed, Shredding(bucket));
    StepHolds(c, failed, Shredding(bucket), keys);
    ResealHalves(s, order, k, kek, newKek);
    MixedAfterShredding(failed.memory, order, k, kek, newKek, bucket);
    hide Step, Holds, AllUnder, Reseal;
    SavedReadableIff(c, saved, keys - {bucket});
  }

  lemma MixedAfterShredding(seal: Seal, order: seq<string>, k: nat, kek: Bytes, newKek: Bytes, bucket: string)
    requires 0 < k < |order| && Distinct(order) && Halved(seal, order, k, kek, newKek) && newKek != kek
    ensures UnderOne(seal - {bucket}) <==> order[k..] == [bucket] || order[..k] == [bucket]
  {
    SplitDistinct(order, k);
    hide Distinct;
    var stored := seal - {bucket};
    if order[k..] == [bucket] {
      assert forall b :: b in stored ==> stored[b] == newKek;
    } else if order[..k] == [bucket] {
      assert forall b :: b in stored ==> stored[b] == kek;
    } else {
      var u := Another(order[k..], bucket);
      var v := Another(order[..k], bucket);
      assert stored[u] == kek && stored[v] == newKek;
    }
  }

  lemma Another(xs: seq<string>, x: string) returns (y: string)
    requires xs != [] && xs != [x] && Distinct(xs)
    ensures y in xs && y != x
  {
    y := if xs[0] != x then xs[0] else xs[1];
  }

  // ---------------------------------------------------------------- what is stored

  /** The metadata the plain map would carry: set by generating, removed by shredding. */
  function Metas(ops: seq<Op>): map<string, Meta> {
    if ops == [] then map[] else MetasStep(Metas(ops[..|ops| - 1]), ops[|ops| - 1])
  }

  function MetasStep(metas: map<string, Meta>, op: Op): map<string, Meta> {
    match op
    case Generating(bucket, meta, _, _) => metas[bucket := meta]
    case Shredding(bucket) => metas - {bucket}
    case _ => metas
  }

  ghost predicate MetasFit(m: Manager, metas: map<string, Meta>) {
    && m.deks.Keys == m.store.Keys == metas.Keys
    && forall b :: b in metas ==> m.deks[b].meta == metas[b] && m.store[b].meta == metas[b]
  }

  /** After any run, in memory and in the store every DEK has the metadata it was generated with. */
  lemma {:induction false} MetadataIsKept(c: Cipher, kek: Bytes, ops: seq<Op>)
    ensures MetasFit(Run(c, kek, ops).m, Metas(ops))
  {
    if ops != [] {
      hide Step, MetasFit, MetasStep;
      MetadataIsKept(c, kek, ops[..|ops| - 1]);
      StepKeepsMetas(c, Run(c, kek, ops[..|ops| - 1]), Metas(ops[..|ops| - 1]), ops[|ops| - 1]);
    } else {
      hide Metas;
      assert Metas([]) == map[];
    }
  }

  lemma {:induction false} StepKeepsMetas(c: Cipher, s: System, metas: map<string, Meta>, op: Op)
    requires MetasFit(s.m, metas)
    ensures MetasFit(Step(c, s, op).m, MetasStep(metas, op))
  {
    hide MetasFit, Generate, Get, Shred, Rotate, Restart, Reseal;
    match op
    case Generating(bucket, meta, raw, nonce) => GenerateKeepsMetas(c, s.m, metas, bucket, meta, raw, nonce);
    case Getting(bucket) => GetKeepsMetas(c, s.m, metas, bucket);
    case Shredding(bucket) => ShredKeepsMetas(s.m, metas, bucket);
    case Rotation(order, newKek, nonces) =>
      if IsOrder(order, s.m) { RotationKeepsMetas(c, s.m, metas, order, newKek, nonces); }
    case Restarting(kek) => RestartKeepsMetas(s.m, metas, kek);
  }

  lemma GenerateKeepsMetas(c: Cipher, m: Manager, metas: map<string, Meta>, bucket: string, meta: Meta, raw: Bytes,
                           nonce: Bytes)
    requires MetasFit(m, metas)
    ensures MetasFit(Generate(c, m, bucket, meta, raw, nonce), metas[bucket := meta])
  {
  }

  lemma GetKeepsMetas(c: Cipher, m: Manager, metas: map<string, Meta>, bucket: string)
    requires MetasFit(m, metas)
    ensures MetasFit(Get(c, m, bucket).0, metas)
  {
    hide RawKey;
  }

  lemma ShredKeepsMetas(m: Manager, metas: map<string, Meta>, bucket: string)
    requires MetasFit(m, metas)
    ensures MetasFit(if bucket in m.deks then Shred(m, bucket) else m, metas - {bucket})
  {
  }

  lemma RestartKeepsMetas(m: Manager, metas: map<string, Meta>, kek: Bytes)
    requires MetasFit(m, metas)
    ensures MetasFit(Restart(m, kek), metas)
  {
  }

  lemma {:induction false} RotationKeepsMetas(c: Cipher, m: Manager, metas: map<string, Meta>, order: seq<string>,
                                              newKek: Bytes, nonces: string -> Bytes)
    requires MetasFit(m, metas) && IsOrder(order, m)
    ensures MetasFit(Rotate(c, m, order, newKek, nonces).0, metas)
  {
    RewrapKeepsMetas(c, m, order, newKek, nonces);
    hide Rewrap;
  }

  lemma {:induction false} RewrapKeepsMetas(c: Cipher, m: Manager, order: seq<string>, newKek: Bytes,
                                            nonces: string -> Bytes)
    requires forall b <- order :: b in m.deks
    ensures var m' := Rewrap(c, m, order, newKek, nonces).0;
      && m'.deks.Keys == m.deks.Keys && m'.store == m.store
      && forall b :: b in m.deks ==> m'.deks[b].meta == m.deks[b].meta
    decreases |order|
  {
    if order != [] && RawKey(c, m.kek, m.deks[order[0]]).Some? {
      RewrapKeepsMetas(c, Rewrapped(c, m, order[0], RawKey(c, m.kek, m.deks[order[0]]).value, newKek, nonces),
                       order[1..], newKek, nonces);
    }
  }

  /** Generating stores the key wrapped under the KEK in force with the nonce drawn for it, and its
      metadata; all other DEKs are stored as memory holds them. */
  lemma GeneratingStores(c: Cipher, kek: Bytes, ops: seq<Op>, bucket: string, meta: Meta, raw: Bytes, nonce: Bytes)
    ensures var s, s' := Run(c, kek, ops), Run(c, kek, ops + [Generating(bucket, meta, raw, nonce)]);
      && s'.m.kek == s.m.kek && s'.m.store.Keys == s.m.deks.Keys + {bucket}
      && s'.m.store[bucket].meta == meta && s'.m.store[bucket].wrapped == c.wrap(s.m.kek, raw, nonce)
      && forall b :: b in s.m.deks && b != bucket ==>
           s'.m.store[b].meta == s.m.deks[b].meta && s'.m.store[b].wrapped == s.m.deks[b].wrapped
  {
    RunSnoc(c, kek, ops, Generating(bucket, meta, raw, nonce));
    hide Run;
  }

  /** A rotation that succeeds stores every key wrapped under the new KEK with the nonce drawn for it. */
  lemma RotationStores(c: Cipher, kek: Bytes, ops: seq<Op>, order: seq<string>, newKek: Bytes, nonces: string -> Bytes)
    requires c.Lawful() && IsOrder(order, Run(c, kek, ops).m) && Rotate(c, Run(c, kek, ops).m, order, newKek, nonces).1
    ensures var m, keys := Run(c, kek, ops + [Rotation(order, newKek, nonces)]).m, Keys(ops);
      && m.kek == newKek && m.store.Keys == keys.Keys
      && forall b :: b in keys ==> m.store[b].wrapped == c.wrap(newKek, keys[b], nonces(b))
  {
    var s := Run(c, kek, ops);
    hide Run, Keys, Rotate, Sealed, Cipher.Lawful, IsOrder, Reseal, Visited;
    RunSnoc(c, kek, ops, Rotation(order, newKek, nonces));
    RunRefinesMap(c, kek, ops);
    RotatedStore(c, s.m, s.memory, Keys(ops), order, newKek, nonces);
  }

  lemma RotatedStore(c: Cipher, m: Manager, seal: Seal, keys: map<string, Bytes>, order: seq<string>, newKek: Bytes,
                     nonces: string -> Bytes)
    requires c.Lawful() && Sealed(c, m.deks, seal, keys) && IsOrder(order, m) && Rotate(c, m, order, newKek, nonces).1
    ensures var m' := Rotate(c, m, order, newKek, nonces).0;
      && m'.kek == newKek && m'.store.Keys == keys.Keys
      && forall b :: b in keys ==> m'.store[b].wrapped == c.wrap(newKek, keys[b], nonces(b))
  {
    RewrapWraps(c, m, seal, keys, order, newKek, nonces);
    hide Rewrap, Sealed, Cipher.Lawful;
  }

  lemma {:induction false} RewrapWraps(c: Cipher, m: Manager, seal: Seal, keys: map<string, Bytes>,
                                       order: seq<string>, newKek: Bytes, nonces: string -> Bytes)
    requires c.Lawful() && Sealed(c, m.deks, seal, keys) && Distinct(order) && (forall b <- order :: b in m.deks)
    requires Rewrap(c, m, order, newKek, nonces).1
    ensures var m' := Rewrap(c, m, order, newKek, nonces).0;
      && m'.deks.Keys == m.deks.Keys == keys.Keys
      && forall b :: b in m.deks ==>
           m'.deks[b].wrapped == if b in order then c.wrap(newKek, keys[b], nonces(b)) else m.deks[b].wrapped
    decreases |order|
  {
    SealedKeys(c, m.deks, seal, keys);
    if order != [] {
      RawKeyIff(c, m, seal, keys, order[0]);
      RewrapOne(c, m, seal, keys, order[0], newKek, nonces);
      hide Sealed, RawKey, Cipher.Lawful;
      var next := Rewrapped(c, m, order[0], keys[order[0]], newKek, nonces);
      assert next.deks[order[0]].wrapped == c.wrap(newKek, keys[order[0]], nonces(order[0]));
      hide Rewrapped;
      RewrapWraps(c, next, seal[order[0] := newKek], keys, order[1..], newKek, nonces);
      assert order == [order[0]] + order[1..];
    }
  }
}
