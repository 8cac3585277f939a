/** The browser side as objects: the one module variable of zk.js and the page flows that
    read and set it, each proved against its operation in ZeroKnowledge. */
module VaultPage {
  import opened Wrappers
  import opened Secret
  import V = Vault
  import VaultService
  import Z = ZeroKnowledge

  /** zk.js: everything turns on one variable. */
  class Keyholder {
    var dek: Option<Key>

    constructor ()
      ensures dek == None
    {
      dek := None;
    }

    method Create(pass: string, salt: nat, serial: nat) returns (ring: V.Keyring)
      modifies this
      ensures dek == Some(Generated(serial)) && ring == Z.RingFor(Generated(serial), pass, salt)
    {
      var kek := FromBrowserPass(pass, salt, Z.ITERS);
      dek := Some(Generated(serial));
      ring := V.Keyring(WrapKey(dek.value, kek), salt, Z.ITERS);
    }

    method Unlock(pass: string, ring: V.Keyring) returns (ok: bool)
      modifies this
      ensures ok == Z.RingOpens(ring, pass).Some?
      ensures dek == if ok then Z.RingOpens(ring, pass) else old(dek)
    {
      var key := UnwrapKey(ring.wrapped, FromBrowserPass(pass, ring.salt, ring.iters));
      ok := key.Some?;
      if ok { dek := key; }
    }

    /** A rotation's keyring still opens to the key in hand. */
    method Rewrap(pass: string, salt: nat) returns (ring: Option<V.Keyring>)
      ensures ring.Some? <==> dek.Some?
      ensures ring.Some? ==> ring.value == Z.RingFor(dek.value, pass, salt) && Z.RingOpens(ring.value, pass) == dek
    {
      if dek.None? { return None; }
      ring := Some(V.Keyring(WrapKey(dek.value, FromBrowserPass(pass, salt, Z.ITERS)), salt, Z.ITERS));
    }

    method WrapForKey(prf: Key) returns (wrapped: Option<Wrapped>)
      ensures wrapped.Some? <==> dek.Some?
      ensures wrapped.Some? ==> forall kek :: UnwrapKey(wrapped.value, kek) == if kek == prf then dek else None
    {
      wrapped := if dek.Some? then Some(WrapKey(dek.value, prf)) else None;
    }

    method UnlockWithKey(prf: Key, wrapped: Wrapped) returns (ok: bool)
      modifies this
      ensures ok == UnwrapKey(wrapped, prf).Some?
      ensures dek == if ok then UnwrapKey(wrapped, prf) else old(dek)
    {
      var key := UnwrapKey(wrapped, prf);
      ok := key.Some?;
      if ok { dek := key; }
    }

    method Lock()
      modifies this
      ensures dek == None
    {
      dek := None;
    }
  }

  class Page {
    const zk: Keyholder
    const server: VaultService.Service
    var zkEnabled: bool

    ghost function Now(): Z.Session
      reads this, zk, server, server.store
    {
      Z.Session(server.Now(), zk.dek, zkEnabled)
    }

    constructor (holder: Keyholder, service: VaultService.Service)
      ensures zk == holder && server == service && zkEnabled == service.zk
    {
      zk, server, zkEnabled := holder, service, service.zk;
    }

    method Read(listing: seq<int>) returns (plains: seq<(int, string)>)
      ensures plains == Z.Readable(server.Now(), listing)
    {
      plains := [];
      for k := 0 to |listing|
        invariant plains == Z.Readable(server.Now(), listing[..k])
      {
        assert listing[..k + 1][..k] == listing[..k];
        var r := server.HandleRevealSecret(listing[k]);
        match r {
          case Ok(Plain(text)) => if text != "" { plains := plains + [(listing[k], text)]; }
          case _ =>
        }
      }
      assert listing[..|listing|] == listing;
    }

    /** Settings, "Turn on zero-knowledge". */
    method EnableZK(pass: string, salt: nat, serial: nat, listing: seq<int>)
      modifies this, zk, server, server.store
      ensures Now() == Z.Enable(old(Now()), pass, salt, serial, listing)
    {
      if zkEnabled || |pass| < 8 { return; }
      var plains := Read(listing);
      ghost var goal := Z.Encrypted(plains, Generated(serial));
      var ring := zk.Create(pass, salt, serial);
      var migrated := [];
      for k := 0 to |plains|
        invariant zk.dek == Some(Generated(serial)) && server.Now() == old(server.Now()) && !zkEnabled
        invariant migrated == goal[..k]
      {
        migrated := migrated + [(plains[k].0, Sealed(zk.dek.value, plains[k].1))];
      }
      assert goal[..|plains|] == goal;
      server.HandleKeyringSet(ring, migrated);
      zkEnabled := true;
    }

    /** Settings, "Change passphrase". */
    method ChangeZK(current: string, next: string, salt: nat)
      modifies this, zk, server, server.store
      ensures Now() == Z.Rotate(old(Now()), current, next, salt)
    {
      if !zkEnabled || |next| < 8 { return; }
      if zk.dek.None? {
        if server.store.metaZK.None? { return; }
        var ok := zk.Unlock(current, server.store.metaZK.value);
        if !ok { return; }
      }
      var ring := zk.Rewrap(next, salt);
      server.HandleKeyringSet(ring.value, []);
    }

    method DisableZK(random: string)
      modifies this, zk, server, server.store
      ensures Now() == Z.Disable(old(Now()), random)
    {
      if !zkEnabled { return; }
      server.HandleKeyringDelete(random);
      zk.Lock();
      zkEnabled := false;
    }

    method PairKey(credential: string, prfSalt: nat)
      modifies server.store
      ensures Now() == Z.Pair(old(Now()), credential, prfSalt)
    {
      if !zkEnabled || zk.dek.None? { return; }
      var wrapped := zk.WrapForKey(FromPRF(credential, prfSalt));
      assert UnwrapKey(wrapped.value, FromPRF(credential, prfSalt)) == zk.dek;
      var st := server.store;
      st.wrappers := st.wrappers - {credential};
      st.wrappers := st.wrappers[credential := V.Wrapper(wrapped.value, prfSalt)];
    }

    method UnpairKey(credential: string)
      modifies server.store
      ensures Now() == Z.Unpair(old(Now()), credential)
    {
      var st := server.store;
      st.wrappers := st.wrappers - {credential};
    }

    /** The unlock dialog. */
    method Enter(door: Z.Door)
      modifies zk
      ensures Now() == Z.Step(old(Now()), Z.Enter(door))
    {
      if !zkEnabled { return; }
      match door {
        case ByPass(pass) =>
          if server.store.metaZK.None? { return; }
          var ok := zk.Unlock(pass, server.store.metaZK.value);
        case ByKey(credential) =>
          if credential !in server.store.wrappers { return; }
          var row := server.store.wrappers[credential];
          var ok := zk.UnlockWithKey(FromPRF(credential, row.prfSalt), row.wrapped);
      }
    }

    method StoreSecret(id: int, value: string)
      modifies server.store
      ensures Now() == Z.StoreSecret(old(Now()), id, value)
    {
      if !zkEnabled {
        var r := server.HandleSetSecret(id, value, Blank);
      } else if zk.dek.Some? {
        var r := server.HandleSetSecret(id, "", if value == "" then Blank else Sealed(zk.dek.value, value));
      }
    }
  }
}
