/** The envelope key manager as a value: what it holds in memory, what it has stored, and the plain
    map from bucket to key that both stand for (internal/keymanager/local.go). */
module KeyStore {
  import opened Events

  type Byte = x: int | 0 <= x < 256
  type Bytes = seq<Byte>

  /** Authenticated encryption under a key encryption key; `wrap` also takes the nonce. */
  datatype Cipher = Cipher(wrap: (Bytes, Bytes, Bytes) -> Bytes, unwrap: (Bytes, Bytes) -> Option<Bytes>) {
    /** Unwrapping undoes wrapping under the same KEK, and fails under any other. */
    ghost predicate Lawful() {
      forall kek, key, nonce, other :: unwrap(other, wrap(kek, key, nonce)) == if other == kek then Some(key) else None
    }
  }

  datatype Meta = Meta(id: string, createdAt: int)

  /** A data encryption key in memory; `key` is absent until a stored one is first used. */
  datatype Held = Held(meta: Meta, key: Option<Bytes>, wrapped: Bytes)

  datatype Stored = Stored(meta: Meta, wrapped: Bytes)

  datatype Manager = Manager(deks: map<string, Held>, kek: Bytes, store: map<string, Stored>)

  /** What the store file holds after saving: never a raw key. */
  function Save(deks: map<string, Held>): map<string, Stored> {
    map b | b in deks :: Stored(deks[b].meta, deks[b].wrapped)
  }

  function Load(store: map<string, Stored>): map<string, Held> {
    map b | b in store :: Held(store[b].meta, None, store[b].wrapped)
  }

  function Saved(m: Manager): Manager { m.(store := Save(m.deks)) }

  function Generate(c: Cipher, m: Manager, bucket: string, meta: Meta, raw: Bytes, nonce: Bytes): Manager {
    Saved(m.(deks := m.deks[bucket := Held(meta, Some(raw), c.wrap(m.kek, raw, nonce))]))
  }

  /** The raw key of a held DEK under the current KEK. */
  function RawKey(c: Cipher, kek: Bytes, h: Held): Option<Bytes> {
    if h.key.Some? then h.key else c.unwrap(kek, h.wrapped)
  }

  function Get(c: Cipher, m: Manager, bucket: string): (Manager, Option<Bytes>) {
    if bucket !in m.deks then (m, None)
    else
      match RawKey(c, m.kek, m.deks[bucket])
      case None => (m, None)
      case Some(raw) => (m.(deks := m.deks[bucket := m.deks[bucket].(key := Some(raw))]), Some(raw))
  }

  function Shred(m: Manager, bucket: string): Manager {
    if bucket !in m.deks then m else Saved(m.(deks := m.deks - {bucket}))
  }

  /** The order a rotation visits the DEKs in. */
  ghost predicate IsOrder(order: seq<string>, m: Manager) {
    && (forall b :: b in order <==> b in m.deks)
    && (forall i, j :: 0 <= i < j < |order| ==> order[i] != order[j])
  }

  /** The rotation loop: each DEK is unwrapped under the KEK in force and wrapped under the new one,
      and the new KEK is put in force by the first of them. */
  function Rewrap(c: Cipher, m: Manager, order: seq<string>, newKek: Bytes, nonces: string -> Bytes)
    : (r: (Manager, bool))
    requires forall b <- order :: b in m.deks
    ensures r.0.deks.Keys == m.deks.Keys && r.0.store == m.store
    decreases |order|
  {
    if order == [] then (m, true)
    else
      match RawKey(c, m.kek, m.deks[order[0]])
      case None => (m, false)
      case Some(raw) => Rewrap(c, Rewrapped(c, m, order[0], raw, newKek, nonces), order[1..], newKek, nonces)
  }

  function Rewrapped(c: Cipher, m: Manager, bucket: string, raw: Bytes, newKek: Bytes, nonces: string -> Bytes): Manager
    requires bucket in m.deks
  {
    m.(deks := m.deks[bucket := Held(m.deks[bucket].meta, Some(raw), c.wrap(newKek, raw, nonces(bucket)))],
       kek := newKek)
  }

  function Rotate(c: Cipher, m: Manager, order: seq<string>, newKek: Bytes, nonces: string -> Bytes): (Manager, bool)
    requires forall b <- order :: b in m.deks
  {
    var (m', ok) := Rewrap(c, m, order, newKek, nonces);
    if ok then (Saved(m'.(kek := newKek)), true) else (m', false)
  }

  function Restart(m: Manager, kek: Bytes): Manager { Manager(Load(m.store), kek, m.store) }

  // ---------------------------------------------------------------- refinement

  ghost predicate IsWrap(c: Cipher, kek: Bytes, key: Bytes, wrapped: Bytes) {
    exists nonce :: wrapped == c.wrap(kek, key, nonce)
  }

  /** The store holds exactly these keys, wrapped under one KEK. */
  ghost predicate StoreHolds(c: Cipher, store: map<string, Stored>, kek: Bytes, keys: map<string, Bytes>) {
    && store.Keys == keys.Keys
    && forall b :: b in keys ==> IsWrap(c, kek, keys[b], store[b].wrapped)
  }

  /** Memory and store hold exactly these keys, all wrapped under the current KEK. */
  ghost predicate Refines(c: Cipher, m: Manager, keys: map<string, Bytes>) {
    && StoreHolds(c, m.store, m.kek, keys)
    && m.store == Save(m.deks)
    && forall b :: b in m.deks && m.deks[b].key.Some? ==> b in keys && m.deks[b].key.value == keys[b]
  }

  lemma UnwrapOf(c: Cipher, kek: Bytes, key: Bytes, wrapped: Bytes, other: Bytes)
    requires c.Lawful() && IsWrap(c, kek, key, wrapped)
    ensures c.unwrap(other, wrapped) == if other == kek then Some(key) else None
  {
  }

  lemma SaveOf(m: Manager, bucket: string)
    requires bucket in m.deks && m.store == Save(m.deks)
    ensures bucket in m.store && m.store[bucket].wrapped == m.deks[bucket].wrapped
  {
  }

  lemma GenerateRefines(c: Cipher, m: Manager, bucket: string, meta: Meta, raw: Bytes, nonce: Bytes,
                        keys: map<string, Bytes>)
    requires Refines(c, m, keys)
    ensures Refines(c, Generate(c, m, bucket, meta, raw, nonce), keys[bucket := raw])
  {
    assert IsWrap(c, m.kek, raw, c.wrap(m.kek, raw, nonce));
    hide IsWrap;
  }

  /** A key is found exactly when the plain map has one, and it is that one. */
  lemma GetRefines(c: Cipher, m: Manager, bucket: string, keys: map<string, Bytes>)
    requires c.Lawful() && Refines(c, m, keys)
    ensures var (m', key) := Get(c, m, bucket);
      Refines(c, m', keys) && key == if bucket in keys then Some(keys[bucket]) else None
  {
    hide Cipher.Lawful;
    if bucket in keys {
      SaveOf(m, bucket);
      UnwrapOf(c, m.kek, keys[bucket], m.deks[bucket].wrapped, m.kek);
      hide IsWrap;
      assert Save(Get(c, m, bucket).0.deks) == Save(m.deks);
    }
  }

  lemma ShredRefines(c: Cipher, m: Manager, bucket: string, keys: map<string, Bytes>)
    requires Refines(c, m, keys)
    ensures Refines(c, Shred(m, bucket), keys - {bucket})
  {
    hide IsWrap;
    assert m.store.Keys == m.deks.Keys;
    if bucket !in m.deks {
      assert keys - {bucket} == keys;
    }
  }

  lemma RestartRefines(c: Cipher, m: Manager, kek: Bytes, keys: map<string, Bytes>)
    requires StoreHolds(c, m.store, kek, keys)
    ensures Refines(c, Restart(m, kek), keys)
  {
    hide IsWrap;
    assert Save(Load(m.store)) == m.store;
  }
}
