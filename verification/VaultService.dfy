/** The vault as objects: rows and files updated one write at a time, each method proved
    against the operation of module Vault that it performs. */
module VaultService {
  import opened Wrappers
  import opened Secret
  import V = Vault

  /** The database rows and the key file the vault touches. */
  class Store {
    var metaWrapped: Option<Wrapped>
    var metaSalt: Option<nat>
    var metaMode: V.Mode
    var metaZK: Option<V.Keyring>
    var keyFile: Option<string>
    var rows: map<int, V.Row>
    var wrappers: map<string, V.Wrapper>

    ghost function Disk(): V.Disk
      reads this
    {
      V.Disk(metaWrapped, metaSalt, metaMode, metaZK, keyFile, rows, wrappers)
    }

    method LoadOrCreateKey(random: string) returns (material: string)
      modifies this`keyFile
      ensures (Disk(), material) == V.LoadOrCreateKey(old(Disk()), random)
    {
      if keyFile.Some? && keyFile.value != "" { return keyFile.value; }
      keyFile := Some(random);
      material := random;
    }

    method SetSecret(id: int, enc: Enc) returns (r: Result<(), V.Failure>)
      modifies this`rows
      ensures (Disk(), r) == V.WithSecret(old(Disk()), id, enc)
    {
      if id !in rows || !rows[id].active { return Err(V.NotFound); }
      rows := rows[id := rows[id].(enc := enc)];
      r := Ok(());
    }
  }

  class Service {
    const store: Store
    var enabled: bool
    var zk: bool
    var mode: V.Mode
    var salt: Option<nat>
    var wrapped: Option<Wrapped>
    var box: Option<Key>

    ghost function Now(): V.World
      reads this, store
    {
      V.World(V.Memory(enabled, zk, mode, salt, wrapped, box), store.Disk())
    }

    constructor (st: Store, random: string)
      modifies st
      ensures store == st && Now() == V.NewVault(old(st.Disk()), random)
    {
      store := st;
      enabled, zk, mode, salt, wrapped, box := false, false, V.NoMode, None, None, None;
      new;
      if st.metaZK.Some? {
        enabled, zk := true, true;
        return;
      }
      if st.metaWrapped.Some? {
        enabled, wrapped, mode, salt := true, st.metaWrapped, st.metaMode, st.metaSalt;
        if mode == V.Auto {
          var material := st.LoadOrCreateKey(random);
          box := UnwrapKey(wrapped.value, FromString(material));
        }
        return;
      }
      var material := st.LoadOrCreateKey(random);
      Bootstrap(material);
    }

    method Bootstrap(material: string)
      modifies this, store
      ensures Now() == V.Bootstrapped(old(Now()), material)
    {
      var dek := FromString(material);
      var w := WrapKey(dek, dek);
      store.metaMode := V.Auto;
      store.metaSalt := None;
      store.metaWrapped := Some(w);
      mode, wrapped, enabled := V.Auto, Some(w), true;
      box := Some(dek);
    }

    method Unlock(passphrase: string) returns (r: Result<(), V.Failure>)
      modifies this`box
      ensures (Now(), r) == V.Unlock(old(Now()), passphrase)
    {
      if !enabled { return Err(V.NotEnabled); }
      if box.Some? { return Ok(()); }
      if mode != V.Passphrase { return Err(V.NoPassphraseSet); }
      if wrapped.None? || salt.None? { return Err(V.WrongPassphrase); }
      var dek := UnwrapKey(wrapped.value, FromPassphrase(passphrase, salt.value));
      if dek.None? { return Err(V.WrongPassphrase); }
      box := dek;
      r := Ok(());
    }

    method Lock()
      modifies this`box
      ensures Now() == V.Lock(old(Now()))
    {
      box := None;
    }

    method Persist(m: V.Mode, s: Option<nat>, w: Wrapped)
      modifies this, store
      ensures Now() == V.Persist(old(Now()), m, s, w)
    {
      store.metaMode := m;
      store.metaSalt := s;
      store.metaWrapped := Some(w);
      mode, salt, wrapped := m, s, Some(w);
    }

    method SetPassphrase(current: string, next: string, newSalt: nat, random: string) returns (r: Result<(), V.Failure>)
      modifies this, store
      ensures (Now(), r) == V.SetPassphrase(old(Now()), current, next, newSalt, random)
    {
      if box.None? { return Err(V.Locked); }
      if mode == V.Passphrase && next != "" {
        if wrapped.None? || salt.None? || UnwrapKey(wrapped.value, FromPassphrase(current, salt.value)).None? {
          return Err(V.WrongPassphrase);
        }
      }
      if next == "" {
        var material := store.LoadOrCreateKey(random);
        Persist(V.Auto, None, WrapKey(box.value, FromString(material)));
        return Ok(());
      }
      Persist(V.Passphrase, Some(newSalt), WrapKey(box.value, FromPassphrase(next, newSalt)));
      store.keyFile := None;
      r := Ok(());
    }

    method EnableZK(ring: V.Keyring)
      modifies this, store
      ensures Now() == V.EnableZK(old(Now()), ring)
    {
      store.metaZK := Some(ring);
      store.metaWrapped, store.metaMode, store.metaSalt := None, V.NoMode, None;
      store.keyFile := None;
      enabled, zk := true, true;
      box := None;
    }

    method DisableZK(random: string)
      modifies this, store
      ensures Now() == V.DisableZK(old(Now()), random)
    {
      store.metaZK := None;
      store.rows := map id | id in store.rows :: store.rows[id].(enc := Blank);
      zk := false;
      var material := store.LoadOrCreateKey(random);
      Bootstrap(material);
    }

    // ----- handlers -----

    method HandleSetSecret(id: int, value: string, enc: Enc) returns (r: Result<(), V.Failure>)
      modifies store
      ensures (Now(), r) == V.HandleSetSecret(old(Now()), id, value, enc)
    {
      if !enabled { return Err(V.NotEnabled); }
      if zk {
        r := store.SetSecret(id, enc);
      } else {
        if box.None? { return Err(V.Locked); }
        r := store.SetSecret(id, if value == "" then Blank else Sealed(box.value, value));
      }
    }

    method HandleRevealSecret(id: int) returns (r: Result<V.Shown, V.Failure>)
      ensures r == V.Reveal(Now(), id)
    {
      if !enabled { return Err(V.NotEnabled); }
      if id !in store.rows || store.rows[id].enc == Blank { return Err(V.NotFound); }
      if zk { return Ok(V.Ciphertext(store.rows[id].enc)); }
      if box.None? { return Err(V.Locked); }
      match Open(store.rows[id].enc, box.value) {
        case Some(text) => r := Ok(V.Plain(text));
        case None => r := Err(V.Undecryptable);
      }
    }

    method HandleKeyringSet(ring: V.Keyring, secrets: seq<(int, Enc)>)
      modifies this, store
      ensures Now() == V.HandleKeyringSet(old(Now()), ring, secrets)
    {
      var wasOn := zk;
      EnableZK(ring);
      if !wasOn { store.wrappers := map[]; }
      ghost var mem, kept := Now().mem, store.Disk();
      for k := 0 to |secrets|
        invariant Now() == V.World(mem, V.WithSecrets(kept, secrets[..k]))
      {
        assert secrets[..k + 1][..k] == secrets[..k];
        var r := store.SetSecret(secrets[k].0, secrets[k].1);
      }
      assert secrets[..|secrets|] == secrets;
    }

    method HandleKeyringDelete(random: string)
      modifies this, store
      ensures Now() == V.HandleKeyringDelete(old(Now()), random)
    {
      DisableZK(random);
      store.wrappers := map[];
    }
  }
}
