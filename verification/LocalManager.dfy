/** The local key manager as the object graph it is (internal/keymanager/local.go): each data
    encryption key is an object that owns two byte buffers. Random bytes and times are parameters. */
module LocalManager {
  import opened Events
  import opened KeyStore

  class DEK {
    const bucketId: string
    const meta: Meta
    var key: Option<array<Byte>>
    var wrappedKey: array<Byte>

    ghost function Footprint(): set<object> reads this {
      if key.Some? then {this, wrappedKey, key.value} else {this, wrappedKey}
    }

    ghost predicate Valid() reads this { key != Some(wrappedKey) }

    /** All of it is recorded as this bucket's. */
    ghost predicate Owned(owner: map<object, string>) reads this {
      && this in owner && owner[this] == bucketId
      && wrappedKey in owner && owner[wrappedKey] == bucketId
      && (key.Some? ==> key.value in owner && owner[key.value] == bucketId)
    }

    ghost function Value(): Held reads Footprint() {
      Held(meta, if key.Some? then Some(key.value[..]) else None, wrappedKey[..])
    }

    constructor (bucketId: string, meta: Meta, key: Option<array<Byte>>, wrappedKey: array<Byte>)
      requires key != Some(wrappedKey)
      ensures this.bucketId == bucketId && this.meta == meta && this.key == key && this.wrappedKey == wrappedKey
    {
      this.bucketId, this.meta, this.key, this.wrappedKey := bucketId, meta, key, wrappedKey;
    }

    method SetKey(raw: Bytes, ghost owner: map<object, string>) returns (buffer: array<Byte>)
      requires Valid() && Owned(owner)
      modifies this`key
      ensures fresh(buffer) && Valid() && (buffer !in owner ==> Owned(owner[buffer := bucketId]))
      ensures Value() == old(Value()).(key := Some(raw))
    {
      buffer := Copy(raw);
      key := Some(buffer);
    }

    method SetWrapped(wrapped: Bytes, ghost owner: map<object, string>) returns (buffer: array<Byte>)
      requires Valid() && Owned(owner)
      modifies this`wrappedKey
      ensures fresh(buffer) && Valid() && (buffer !in owner ==> Owned(owner[buffer := bucketId]))
      ensures Value() == old(Value()).(wrapped := wrapped)
    {
      buffer := Copy(wrapped);
      wrappedKey := buffer;
    }

    /** Overwrites the key material in place. */
    method Zero()
      requires Valid()
      modifies Footprint() - {this}
      ensures forall i :: 0 <= i < wrappedKey.Length ==> wrappedKey[i] == 0
      ensures key.Some? ==> forall i :: 0 <= i < key.value.Length ==> key.value[i] == 0
    {
      if key.Some? {
        Wipe(key.value);
      }
      Wipe(wrappedKey);
    }
  }

  /** Every DEK is filed under its bucket and shares no buffer with another bucket's. */
  ghost predicate AllOwned(deks: map<string, DEK>, owner: map<object, string>)
    reads deks.Values
  {
    forall b :: b in deks ==> deks[b].bucketId == b && deks[b].Valid() && deks[b].Owned(owner)
  }

  ghost function Values(deks: map<string, DEK>, owner: map<object, string>): (r: map<string, Held>)
    requires AllOwned(deks, owner)
    reads deks.Values, owner.Keys
    ensures r.Keys == deks.Keys
  {
    map b | b in deks :: deks[b].Value()
  }

  /** Only the named buckets' objects changed, so the other buckets' DEKs did not. */
  twostate lemma Undisturbed(new deks: map<string, DEK>, new owner: map<object, string>, except: set<string>)
    requires old(allocated(deks)) && (forall o <- owner :: old(allocated(o))) && old(AllOwned(deks, owner))
    requires forall o <- owner :: owner[o] !in except ==> unchanged(o)
    ensures forall b :: b in deks && b !in except ==>
      deks[b].Valid() && deks[b].Owned(owner) && deks[b].Value() == old(deks[b].Value())
  {
    hide DEK.Value;
    forall b | b in deks && b !in except
      ensures deks[b].Valid() && deks[b].Owned(owner) && deks[b].Value() == old(deks[b].Value())
    {
      var dek := deks[b];
      assert unchanged(dek);
      assert forall o <- dek.Footprint() :: o in owner && owner[o] == b;
    }
  }

  lemma Owns(dek: DEK, owner: map<object, string>)
    requires forall o <- dek.Footprint() :: o in owner && owner[o] == dek.bucketId
    ensures dek.Owned(owner)
  {
  }

  /** Recording more objects keeps what was recorded. */
  lemma OwnedStays(deks: map<string, DEK>, owner: map<object, string>, more: map<object, string>)
    requires owner.Keys !! more.Keys
    ensures forall b :: b in deks && deks[b].Owned(owner) ==> deks[b].Owned(owner + more)
  {
  }

  method Wipe(buffer: array<Byte>)
    modifies buffer
    ensures forall i :: 0 <= i < buffer.Length ==> buffer[i] == 0
  {
    for k := 0 to buffer.Length
      invariant forall i :: 0 <= i < k ==> buffer[i] == 0
    {
      buffer[k] := 0;
    }
  }

  method Copy(bytes: Bytes) returns (buffer: array<Byte>)
    ensures fresh(buffer) && buffer[..] == bytes
  {
    buffer := new Byte[|bytes|];
    for k := 0 to |bytes|
      invariant buffer[..k] == bytes[..k]
    {
      buffer[k] := bytes[k];
    }
  }

  /** One entry of the store file. */
  datatype Entry = Entry(bucket: string, stored: Stored)

  /** The store file on disk. */
  datatype StoreFile = Absent | Unreadable | Present(entries: seq<Entry>) {
    function Entries(): seq<Entry> { if Present? then entries else [] }
  }

  /** A store file read as a map; a later entry for a bucket replaces an earlier one. */
  function Parse(file: seq<Entry>): map<string, Stored> {
    if file == [] then map[]
    else Parse(file[..|file| - 1])[file[|file| - 1].bucket := file[|file| - 1].stored]
  }

  /** A bucket is read exactly when some entry names it, and as its last entry says. */
  lemma {:induction false} ParseIs(file: seq<Entry>, b: string)
    ensures b in Parse(file) <==> exists i :: 0 <= i < |file| && file[i].bucket == b
    ensures forall i ::
      0 <= i < |file| && file[i].bucket == b && (forall j :: i < j < |file| ==> file[j].bucket != b) ==>
      b in Parse(file) && Parse(file)[b] == file[i].stored
  {
    if file != [] {
      var n := |file| - 1;
      ParseIs(file[..n], b);
      assert forall i :: 0 <= i < n ==> file[..n][i] == file[i];
    }
  }

  lemma LoadSnoc(store: map<string, Stored>, s: Entry)
    ensures Load(store[s.bucket := s.stored]) == Load(store)[s.bucket := Held(s.stored.meta, None, s.stored.wrapped)]
  {
  }

  lemma RewrapUnfolds(c: Cipher, m: Manager, order: seq<string>, i: nat, newKek: Bytes, nonces: string -> Bytes)
    requires i < |order| && forall b <- order :: b in m.deks
    ensures KeyStore.Rewrap(c, m, order[i..], newKek, nonces)
            == match RawKey(c, m.kek, m.deks[order[i]])
               case None => (m, false)
               case Some(raw) => KeyStore.Rewrap(c, Rewrapped(c, m, order[i], raw, newKek, nonces), order[i + 1..],
                                                 newKek, nonces)
  {
    assert order[i..][1..] == order[i + 1..];
  }

  lemma RewrapsNone(c: Cipher, m: Manager, newKek: Bytes, nonces: string -> Bytes)
    ensures KeyStore.Rewrap(c, m, [], newKek, nonces) == (m, true)
  {
  }

  lemma RotateAfterLoop(c: Cipher, m: Manager, order: seq<string>, newKek: Bytes, nonces: string -> Bytes,
                        looped: Manager, ok: bool)
    requires forall b <- order :: b in m.deks
    requires (looped, ok) == KeyStore.Rewrap(c, m, order, newKek, nonces)
    ensures Rotate(c, m, order, newKek, nonces) == (if ok then Saved(looped.(kek := newKek)) else looped, ok)
  {
  }

  class LocalManager {
    const cipher: Cipher
    var deks: map<string, DEK>
    var kek: array<Byte>
    var file: seq<Entry>

    /** Which bucket each object belongs to, or belonged to. */
    ghost var owner: map<object, string>

    ghost function Repr(): set<object> reads this { {this, kek} + owner.Keys }

    /** No buffer is shared. */
    ghost predicate Valid()
      reads this, deks.Values
    {
      && kek !in owner && this !in owner
      && AllOwned(deks, owner)
    }

    ghost function Held(): map<string, Held>
      requires Valid()
      reads this, deks.Values, Repr()
    {
      Values(deks, owner)
    }

    ghost function State(): Manager
      requires Valid()
      reads this, deks.Values, Repr()
    {
      Manager(Held(), kek[..], Parse(file))
    }

    constructor (cipher: Cipher, kek: array<Byte>, file: seq<Entry>)
      ensures Valid() && this.cipher == cipher && this.kek == kek && fresh(Repr() - {kek})
      ensures State() == Restart(Manager(map[], [], Parse(file)), kek[..])
    {
      this.cipher, this.kek, this.file, deks, owner := cipher, kek, file, map[], map[];
      new;
      LoadStore();
    }

    /** Opens a manager on a store file: fails when the KEK is not 32 bytes long, or the file exists
        and cannot be read or parsed. Keys stay wrapped until first used. */
    static method Open(cipher: Cipher, kek: array<Byte>, file: StoreFile) returns (m: Option<LocalManager>)
      ensures m.Some? <==> kek.Length == 32 && !file.Unreadable?
      ensures m.Some? ==> m.value.Valid() && m.value.cipher == cipher && m.value.kek == kek
                          && fresh(m.value.Repr() - {kek})
                          && m.value.State() == Restart(Manager(map[], [], Parse(file.Entries())), kek[..])
    {
      if kek.Length != 32 || file.Unreadable? {
        return None;
      }
      var manager := new LocalManager(cipher, kek, file.Entries());
      return Some(manager);
    }

    /** Installs a DEK for its bucket; one that was there before is merely forgotten. */
    method Put(dek: DEK)
      requires Valid() && dek.Valid() && dek.Footprint() !! Repr()
      modifies this`deks, this`owner
      ensures Valid() && owner.Keys == old(owner.Keys) + dek.Footprint()
      ensures deks == old(deks)[dek.bucketId := dek] && Held() == old(Held())[dek.bucketId := dek.Value()]
    {
      hide DEK.Value, DEK.Owned;
      ghost var added := map o | o in dek.Footprint() :: dek.bucketId;
      ghost var before, recorded := deks, owner;
      owner := owner + added;
      deks := deks[dek.bucketId := dek];
      Undisturbed(before, recorded, {});
      OwnedStays(before, recorded, added);
      Owns(dek, owner);
    }

    /** Adds a DEK with fresh buffers. */
    method Install(bucket: string, meta: Meta, raw: Option<Bytes>, wrapped: Bytes) returns (dek: DEK)
      requires Valid()
      modifies this`deks, this`owner
      ensures Valid() && fresh(owner.Keys - old(owner.Keys)) && bucket in deks && deks[bucket] == dek && fresh(dek)
      ensures Held() == old(Held())[bucket := KeyStore.Held(meta, raw, wrapped)]
    {
      hide AllOwned, Values;
      var wrappedKey := Copy(wrapped);
      var key: Option<array<Byte>> := None;
      if raw.Some? {
        var buffer := Copy(raw.value);
        key := Some(buffer);
      }
      dek := new DEK(bucket, meta, key, wrappedKey);
      Put(dek);
    }

    /** Reads the store file into memory. */
    method LoadStore()
      requires Valid() && deks == map[]
      modifies this`deks, this`owner
      ensures Valid() && fresh(owner.Keys - old(owner.Keys))
      ensures State() == old(State()).(deks := Load(Parse(file)))
    {
      assert Held() == Load(Parse(file[..0]));
      hide Valid, Load, Values;
      for i := 0 to |file|
        invariant Valid() && fresh(owner.Keys - old(owner.Keys))
        invariant Held() == Load(Parse(file[..i]))
      {
        var s := file[i];
        var _ := Install(s.bucket, s.stored.meta, None, s.stored.wrapped);
        assert file[..i + 1][..i] == file[..i];
        LoadSnoc(Parse(file[..i]), s);
      }
      assert file[..|file|] == file;
    }

    /** Rewrites the store file from memory. */
    method SaveStore()
      requires Valid()
      modifies this`file
      ensures Valid() && State() == Saved(old(State()))
    {
      var stored: seq<Entry> := [];
      var remaining := deks.Keys;
      while remaining != {}
        invariant remaining <= deks.Keys
        invariant Parse(stored) == Save(map b | b in deks && b !in remaining :: deks[b].Value())
        decreases |remaining|
      {
        var b :| b in remaining;
        remaining := remaining - {b};
        ghost var before := stored;
        stored := stored + [Entry(b, Stored(deks[b].meta, deks[b].wrappedKey[..]))];
        assert stored[..|stored| - 1] == before;
      }
      file := stored;
    }

    /** Creates a key for a bucket, wraps it under the current KEK and saves the store. */
    method GenerateDEK(bucket: string, meta: Meta, raw: Bytes, nonce: Bytes) returns (dek: DEK)
      requires Valid()
      modifies this`deks, this`owner, this`file
      ensures Valid() && fresh(owner.Keys - old(owner.Keys)) && fresh(dek) && bucket in deks && deks[bucket] == dek
      ensures State() == Generate(cipher, old(State()), bucket, meta, raw, nonce)
    {
      hide Valid, Values, Save;
      var wrapped := cipher.wrap(kek[..], raw, nonce);
      dek := Install(bucket, meta, Some(raw), wrapped);
      SaveStore();
    }

    /** Gives a bucket's DEK its raw key. */
    method Unlock(bucket: string, raw: Bytes)
      requires Valid() && bucket in deks
      modifies deks[bucket], this`owner
      ensures Valid() && fresh(owner.Keys - old(owner.Keys))
      ensures Held() == old(Held())[bucket := old(Held())[bucket].(key := Some(raw))]
    {
      hide DEK.Value, DEK.Owned, DEK.Valid;
      ghost var recorded := owner;
      var buffer := deks[bucket].SetKey(raw, owner);
      owner := owner[buffer := bucket];
      Undisturbed(deks, recorded, {bucket});
      OwnedStays(deks, recorded, map[buffer := bucket]);
      assert owner == recorded + map[buffer := bucket];
    }

    /** The raw key of a held DEK, unwrapped and kept on its first use. */
    method Fetch(bucket: string) returns (raw: Option<Bytes>)
      requires Valid() && bucket in deks
      modifies deks[bucket], this`owner
      ensures Valid() && fresh(owner.Keys - old(owner.Keys))
      ensures var h := old(Held())[bucket];
        && raw == RawKey(cipher, kek[..], h)
        && Held() == (if raw.Some? then old(Held())[bucket := h.(key := raw)] else old(Held()))
    {
      var dek := deks[bucket];
      assert dek.Value() == Held()[bucket];
      hide AllOwned;
      if dek.key.Some? {
        return Some(dek.key.value[..]);
      }
      raw := cipher.unwrap(kek[..], dek.wrappedKey[..]);
      if raw.Some? {
        Unlock(bucket, raw.value);
      }
    }

    /** Finds a bucket's key. */
    method GetDEK(bucket: string) returns (dek: Option<DEK>)
      requires Valid()
      modifies if bucket in deks then {deks[bucket]} else {}, this`owner
      ensures Valid() && fresh(owner.Keys - old(owner.Keys)) && deks == old(deks)
      ensures var (m, key) := Get(cipher, old(State()), bucket);
        && State() == m
        && (dek.Some? <==> key.Some?)
        && (dek.Some? ==> bucket in deks && dek.value == deks[bucket] && Held()[bucket].key == key)
    {
      hide AllOwned, DEK.Value;
      if bucket !in deks {
        return None;
      }
      var raw := Fetch(bucket);
      return if raw.Some? then Some(deks[bucket]) else None;
    }

    /** Zeroes a bucket's buffers and forgets the bucket; no other bucket's buffer changes. */
    method Erase(bucket: string)
      requires Valid() && bucket in deks
      modifies this`deks, deks[bucket].Footprint() - {deks[bucket]}
      ensures Valid() && Held() == old(Held()) - {bucket}
      ensures forall i :: 0 <= i < old(deks[bucket].wrappedKey).Length ==> old(deks[bucket].wrappedKey)[i] == 0
      ensures old(deks[bucket].key.Some?) ==>
        forall i :: 0 <= i < old(deks[bucket].key.value).Length ==> old(deks[bucket].key.value)[i] == 0
    {
      hide DEK.Value;
      deks[bucket].Zero();
      ghost var before := deks;
      deks := deks - {bucket};
      Undisturbed(before, owner, {bucket});
    }

    /** Destroys a bucket's key: its buffers are zeroed and it leaves memory and store. */
    method ShredDEK(bucket: string)
      requires Valid()
      modifies Repr() - {kek}
      ensures Valid() && Repr() == old(Repr())
      ensures State() == Shred(old(State()), bucket)
      ensures bucket in old(deks) ==>
        forall i :: 0 <= i < old(deks)[bucket].wrappedKey.Length ==> old(deks)[bucket].wrappedKey[i] == 0
      ensures bucket in old(deks) && old(deks)[bucket].key.Some? ==>
        forall i :: 0 <= i < old(deks)[bucket].key.value.Length ==> old(deks)[bucket].key.value[i] == 0
    {
      hide AllOwned, Values, Save, Parse;
      if bucket !in deks {
        return;
      }
      FootprintInRepr(bucket);
      Erase(bucket);
      SaveStore();
    }

    /** Replaces a bucket's wrapped key. */
    method Reseal(bucket: string, wrapped: Bytes)
      requires Valid() && bucket in deks
      modifies deks[bucket], this`owner
      ensures Valid() && fresh(owner.Keys - old(owner.Keys))
      ensures Held() == old(Held())[bucket := old(Held())[bucket].(wrapped := wrapped)]
    {
      hide DEK.Value, DEK.Owned, DEK.Valid;
      ghost var recorded := owner;
      var buffer := deks[bucket].SetWrapped(wrapped, owner);
      owner := owner[buffer := bucket];
      Undisturbed(deks, recorded, {bucket});
      OwnedStays(deks, recorded, map[buffer := bucket]);
      assert owner == recorded + map[buffer := bucket];
    }

    /** One round of a rotation: unwraps a DEK under the KEK in force, puts the new KEK in force and
        wraps the DEK under it. */
    method RewrapOne(bucket: string, newKEK: array<Byte>, nonce: Bytes) returns (ok: bool)
      requires Valid() && bucket in deks && newKEK !in owner
      modifies deks[bucket], this`owner, this`kek
      ensures Valid() && fresh(owner.Keys - old(owner.Keys))
      ensures var h := old(Held())[bucket];
        var raw := RawKey(cipher, old(kek[..]), h);
        && ok == raw.Some?
        && kek == (if ok then newKEK else old(kek))
        && Held() == if ok then
                       old(Held())[bucket := KeyStore.Held(h.meta, raw, cipher.wrap(newKEK[..], raw.value, nonce))]
                     else old(Held())
    {
      hide AllOwned, DEK.Value, Values, RawKey;
      var raw := Fetch(bucket);
      if raw.None? {
        return false;
      }
      kek := newKEK;
      Reseal(bucket, cipher.wrap(kek[..], raw.value, nonce));
      ok := true;
    }

    /** The rotation loop. */
    method RewrapAll(order: seq<string>, newKEK: array<Byte>, nonces: string -> Bytes) returns (ok: bool)
      requires Valid() && newKEK !in owner && forall b <- order :: b in deks
      modifies deks.Values, this`owner, this`kek
      ensures Valid() && fresh(owner.Keys - old(owner.Keys))
      ensures (kek == old(kek) || kek == newKEK) && newKEK[..] == old(newKEK[..])
      ensures (State(), ok) == KeyStore.Rewrap(cipher, old(State()), order, newKEK[..], nonces)
    {
      hide AllOwned, Values, KeyStore.Rewrap, RawKey, Parse;
      ghost var start := State();
      assert order[0..] == order;
      for i := 0 to |order|
        invariant Valid() && fresh(owner.Keys - old(owner.Keys))
        invariant kek == old(kek) || kek == newKEK
        invariant KeyStore.Rewrap(cipher, State(), order[i..], newKEK[..], nonces)
                  == KeyStore.Rewrap(cipher, start, order, newKEK[..], nonces)
      {
        RewrapUnfolds(cipher, State(), order, i, newKEK[..], nonces);
        var visited := RewrapOne(order[i], newKEK, nonces(order[i]));
        if !visited {
          return false;
        }
      }
      assert order[|order|..] == [];
      RewrapsNone(cipher, State(), newKEK[..], nonces);
      ok := true;
    }

    /** Draws a new KEK and wraps every DEK under it, visiting them in the given order. The new KEK
        is put in force inside the loop; on success the old one is zeroed and the store saved. */
    method RotateKEK(order: seq<string>, newKek: Bytes, nonces: string -> Bytes) returns (ok: bool)
      requires Valid() && IsOrder(order, State())
      modifies Repr()
      ensures Valid() && fresh(owner.Keys - old(owner.Keys))
      ensures (State(), ok) == Rotate(cipher, old(State()), order, newKek, nonces)
      ensures ok ==> fresh(kek) && forall i :: 0 <= i < old(kek).Length ==> old(kek)[i] == 0
    {
      hide AllOwned, Values, Rotate, Parse;
      var newKEK := Copy(newKek);
      ok := RotateTo(order, newKEK, nonces);
    }

    method RotateTo(order: seq<string>, newKEK: array<Byte>, nonces: string -> Bytes) returns (ok: bool)
      requires Valid() && newKEK !in Repr() && forall b <- order :: b in deks
      modifies Repr()
      ensures Valid() && fresh(owner.Keys - old(owner.Keys))
      ensures (State(), ok) == Rotate(cipher, old(State()), order, newKEK[..], nonces)
      ensures newKEK[..] == old(newKEK[..]) && (ok ==> kek == newKEK)
      ensures ok ==> forall i :: 0 <= i < old(kek).Length ==> old(kek)[i] == 0
    {
      DeksInRepr();
      hide AllOwned, Values, KeyStore.Rewrap, Rotate, Parse, Saved;
      ghost var start := State();
      var oldKEK := kek;
      ok := RewrapAll(order, newKEK, nonces);
      RotateAfterLoop(cipher, start, order, newKEK[..], nonces, State(), ok);
      if ok {
        Adopt(oldKEK, newKEK);
      }
    }

    /** The end of a successful rotation. */
    method Adopt(oldKEK: array<Byte>, newKEK: array<Byte>)
      requires Valid() && oldKEK !in owner && newKEK !in owner && oldKEK != newKEK
      modifies this`kek, this`file, oldKEK
      ensures newKEK[..] == old(newKEK[..])
      ensures Valid() && kek == newKEK && State() == Saved(old(State()).(kek := newKEK[..]))
      ensures forall i :: 0 <= i < oldKEK.Length ==> oldKEK[i] == 0
    {
      hide AllOwned, Values, Parse, Saved;
      kek := newKEK;
      Retire(oldKEK);
      SaveStore();
    }

    /** Zeroes a buffer the manager no longer uses. */
    method Retire(oldKEK: array<Byte>)
      requires Valid() && oldKEK !in owner && oldKEK != kek
      modifies oldKEK
      ensures Valid() && State() == old(State())
      ensures forall i :: 0 <= i < oldKEK.Length ==> oldKEK[i] == 0
    {
      Wipe(oldKEK);
      Undisturbed(deks, owner, {});
    }

    lemma FootprintInRepr(bucket: string)
      requires Valid() && bucket in deks
      ensures deks[bucket].Footprint() <= owner.Keys && kek !in deks[bucket].Footprint()
    {
    }

    lemma DeksInRepr()
      requires Valid()
      ensures deks.Values <= Repr()
    {
    }
  }
}
