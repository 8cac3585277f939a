/** Zero-knowledge mode with one browser session: the keys of zk.js, the flows of
    settings.js and vault-ui.js that use them, and the wrapper rows of store/webauthn.go.
    Every request succeeds unless the server itself refuses it. */
module ZeroKnowledge {
  import opened Wrappers
  import opened Secret
  import V = Vault

  const ITERS := 310000

  /** The server, the data key the page holds, and what the page believes about the mode. */
  datatype Session = Session(world: V.World, dek: Option<Key>, zkEnabled: bool)

  function RingFor(dek: Key, pass: string, salt: nat): V.Keyring {
    V.Keyring(WrapKey(dek, FromBrowserPass(pass, salt, ITERS)), salt, ITERS)
  }

  function RingOpens(ring: V.Keyring, pass: string): Option<Key> {
    UnwrapKey(ring.wrapped, FromBrowserPass(pass, ring.salt, ring.iters))
  }

  /** Two ways in: the vault passphrase, or a paired security key. */
  datatype Door = ByPass(pass: string) | ByKey(credential: string)

  function Unlocked(s: Session, door: Door): Session {
    var dek := match door
      case ByPass(pass) => if s.world.disk.zk.Some? then RingOpens(s.world.disk.zk.value, pass) else None
      case ByKey(cred) =>
        if cred in s.world.disk.wrappers
        then UnwrapKey(s.world.disk.wrappers[cred].wrapped, FromPRF(cred, s.world.disk.wrappers[cred].prfSalt))
        else None;
    if dek.Some? then s.(dek := dek) else s
  }

  /** What the page can read of the secrets listed, before the switch. */
  function Readable(w: V.World, listing: seq<int>): (plains: seq<(int, string)>)
  {
    if listing == [] then []
    else
      var n := |listing| - 1;
      match V.Reveal(w, listing[n])
      case Ok(Plain(text)) => Readable(w, listing[..n]) + if text != "" then [(listing[n], text)] else []
      case _ => Readable(w, listing[..n])
  }

  function Encrypted(plains: seq<(int, string)>, dek: Key): (secrets: seq<(int, Enc)>)
    ensures |secrets| == |plains|
  {
    seq(|plains|, k requires 0 <= k < |plains| => (plains[k].0, Sealed(dek, plains[k].1)))
  }

  function Enable(s: Session, pass: string, salt: nat, serial: nat, listing: seq<int>): Session {
    if s.zkEnabled || |pass| < 8 then s
    else
      var dek := Generated(serial);
      var migrated := Encrypted(Readable(s.world, listing), dek);
      Session(V.HandleKeyringSet(s.world, RingFor(dek, pass, salt), migrated), Some(dek), true)
  }

  /** Change the passphrase: the same data key under a new wrapping. */
  function Rotate(s: Session, current: string, next: string, salt: nat): Session {
    if !s.zkEnabled || |next| < 8 then s
    else
      var open := if s.dek.Some? then s else Unlocked(s, ByPass(current));
      if open.dek.None? then s
      else open.(world := V.HandleKeyringSet(open.world, RingFor(open.dek.value, next, salt), []))
  }

  function Disable(s: Session, random: string): Session {
    if !s.zkEnabled then s else Session(V.HandleKeyringDelete(s.world, random), None, false)
  }

  function Pair(s: Session, credential: string, prfSalt: nat): Session {
    if !s.zkEnabled || s.dek.None? then s
    else
      var wrapper := V.Wrapper(WrapKey(s.dek.value, FromPRF(credential, prfSalt)), prfSalt);
      s.(world := s.world.(disk := s.world.disk.(wrappers := s.world.disk.wrappers[credential := wrapper])))
  }

  function Unpair(s: Session, credential: string): Session {
    s.(world := s.world.(disk := s.world.disk.(wrappers := s.world.disk.wrappers - {credential})))
  }

  function StoreSecret(s: Session, id: int, value: string): Session {
    if !s.zkEnabled then s.(world := V.HandleSetSecret(s.world, id, value, Blank).0)
    else if s.dek.None? then s
    else s.(world := V.HandleSetSecret(s.world, id, "", if value == "" then Blank else Sealed(s.dek.value, value)).0)
  }

  /** What the page makes of the ciphertext it is handed. */
  function Decrypt(s: Session, id: int): Option<string> {
    if s.dek.Some? && id in s.world.disk.rows then Open(s.world.disk.rows[id].enc, s.dek.value) else None
  }

  datatype Op =
    | EnableZK(pass: string, salt: nat, serial: nat, listing: seq<int>)
    | ChangeZK(current: string, next: string, salt: nat)
    | DisableZK(random: string)
    | PairKey(credential: string, prfSalt: nat)
    | UnpairKey(credential: string)
    | Enter(door: Door)
    | LockPage
    | Reload
    | Store(id: int, value: string)
    | Server(op: V.Op)

  /** Operations on the server that this page's own requests do not stand for. */
  predicate Aside(op: V.Op) { !op.SetSecret? && !op.KeyringSet? && !op.KeyringDelete? }

  predicate Allowed(op: Op) { op.Server? ==> Aside(op.op) }

  function Step(s: Session, op: Op): Session {
    match op
    case EnableZK(pass, salt, serial, listing) => Enable(s, pass, salt, serial, listing)
    case ChangeZK(current, next, salt) => Rotate(s, current, next, salt)
    case DisableZK(random) => Disable(s, random)
    case PairKey(credential, prfSalt) => Pair(s, credential, prfSalt)
    case UnpairKey(credential) => Unpair(s, credential)
    case Enter(door) => if s.zkEnabled then Unlocked(s, door) else s
    case LockPage => if s.zkEnabled then s.(dek := None) else s
    case Reload => Session(s.world, None, s.world.mem.zk)
    case Store(id, value) => StoreSecret(s, id, value)
    case Server(op) => s.(world := V.Step(s.world, op))
  }

  function Run(s: Session, ops: seq<Op>): Session {
    if ops == [] then s else Step(Run(s, ops[..|ops| - 1]), ops[|ops| - 1])
  }

  /** What a rotation takes: the mode on, a new passphrase of eight characters, and a page
      that is unlocked or gets the passphrase in force. */
  predicate MayRotate(s: Session, pass: string, current: string, next: string) {
    s.zkEnabled && |next| >= 8 && (s.dek.Some? || current == pass)
  }

  /** The vault passphrase in force after an operation. */
  function PassAfter(s: Session, op: Op, pass: string): string {
    match op
    case EnableZK(new', _, _, _) => if !s.zkEnabled && |new'| >= 8 then new' else pass
    case ChangeZK(current, next, _) => if MayRotate(s, pass, current, next) then next else pass
    case _ => pass
  }

  function LatestPass(s: Session, ops: seq<Op>, pass: string): string {
    if ops == [] then pass
    else
      var n := |ops| - 1;
      PassAfter(Run(s, ops[..n]), ops[n], LatestPass(s, ops[..n], pass))
  }

  /** The data key of zero-knowledge mode: whatever the stored keyring wraps. */
  function DataKey(s: Session): Key
    requires s.world.disk.zk.Some?
  {
    s.world.disk.zk.value.wrapped.dek
  }

  /** While the mode is on, every door leads to the same data key; while it is off there are
      no wrappers. */
  predicate OneKey(s: Session, pass: string) {
    && s.zkEnabled == s.world.mem.zk == s.world.disk.zk.Some?
    && (!s.zkEnabled ==> s.world.disk.wrappers == map[])
    && (s.zkEnabled ==>
          && RingOpens(s.world.disk.zk.value, pass) == Some(DataKey(s))
          && (s.dek.Some? ==> s.dek.value == DataKey(s))
          && forall c :: c in s.world.disk.wrappers ==> OpensWrapper(s, c))
  }

  predicate OpensWrapper(s: Session, c: string)
    requires s.world.disk.zk.Some? && c in s.world.disk.wrappers
  {
    var wrapper := s.world.disk.wrappers[c];
    UnwrapKey(wrapper.wrapped, FromPRF(c, wrapper.prfSalt)) == Some(DataKey(s))
  }

  /** Switching on starts with a new data key, held by the page, and no wrappers. */
  lemma {:induction false} EnableKeepsOneKey(s: Session, pass: string, salt: nat, serial: nat, listing: seq<int>)
    requires !s.zkEnabled && !s.world.mem.zk && |pass| >= 8
    ensures var s' := Enable(s, pass, salt, serial, listing);
            s'.zkEnabled && OneKey(s', pass) && s'.world.disk.wrappers == map[] && s'.dek == Some(Generated(serial))
  {
    var on := V.EnableZK(s.world, RingFor(Generated(serial), pass, salt));
    V.SecretsFrame(on.disk, Encrypted(Readable(s.world, listing), Generated(serial)));
    V.SecretsFrame(on.disk.(wrappers := map[]), Encrypted(Readable(s.world, listing), Generated(serial)));
  }

  /** A rotation wraps the very data key that is already in use. Afterwards the keyring opens
      for the new passphrase and no other if the rotation was allowed; else nothing has
      happened at all. */
  lemma {:induction false} RotateKeepsRing(s: Session, current: string, next: string, salt: nat, pass: string)
    requires OneKey(s, pass) && s.zkEnabled
    ensures var s' := Rotate(s, current, next, salt);
            && s'.zkEnabled && s'.world.mem.zk && s'.world.disk.zk.Some?
            && s'.world.disk.wrappers == s.world.disk.wrappers && s'.world.disk.rows == s.world.disk.rows
            && DataKey(s') == DataKey(s) && (s'.dek.Some? ==> s'.dek.value == DataKey(s))
            && (if MayRotate(s, pass, current, next)
                then && s'.dek == Some(DataKey(s))
                     && forall p :: RingOpens(s'.world.disk.zk.value, p) == if p == next then Some(DataKey(s)) else None
                else s' == s)
  {
    if MayRotate(s, pass, current, next) {
      assert Rotate(s, current, next, salt).world.disk.zk == Some(RingFor(DataKey(s), next, salt));
    }
  }

  lemma {:induction false} PairKeepsOneKey(s: Session, credential: string, prfSalt: nat, pass: string)
    requires OneKey(s, pass) && s.zkEnabled
    ensures OneKey(Pair(s, credential, prfSalt), pass) && DataKey(Pair(s, credential, prfSalt)) == DataKey(s)
  {
    var s' := Pair(s, credential, prfSalt);
    forall c | c in s'.world.disk.wrappers ensures OpensWrapper(s', c) {
      assert c in s.world.disk.wrappers && c != credential ==> OpensWrapper(s, c);
    }
  }

  /** The server's own operations leave keyring and wrappers alone while the mode is on. */
  lemma {:induction false} AsideKeepsRing(w: V.World, op: V.Op)
    requires Aside(op) && w.mem.zk && w.disk.zk.Some?
    ensures V.Step(w, op).mem.zk && V.Step(w, op).disk.zk == w.disk.zk && V.Step(w, op).disk.wrappers == w.disk.wrappers
  {
  }

  /** Any other operation while the mode is on leaves the keyring, and adds no wrapper. */
  lemma {:induction false} OthersKeepOneKey(s: Session, op: Op, pass: string)
    requires OneKey(s, pass) && s.zkEnabled && Allowed(op)
    requires !op.EnableZK? && !op.ChangeZK? && !op.DisableZK? && !op.PairKey?
    ensures OneKey(Step(s, op), pass) && DataKey(Step(s, op)) == DataKey(s)
  {
    var s' := Step(s, op);
    if op.Server? { AsideKeepsRing(s.world, op.op); }
    forall c | c in s'.world.disk.wrappers ensures OpensWrapper(s', c) {
      assert c in s.world.disk.wrappers && s'.world.disk.wrappers[c] == s.world.disk.wrappers[c];
      assert OpensWrapper(s, c);
    }
  }

  lemma {:induction false} StepKeepsOneKey(s: Session, op: Op, pass: string)
    requires OneKey(s, pass) && Allowed(op)
    ensures OneKey(Step(s, op), PassAfter(s, op, pass))
    ensures s.zkEnabled && !op.DisableZK? ==> Step(s, op).zkEnabled && DataKey(Step(s, op)) == DataKey(s)
  {
    match op {
      case EnableZK(new', salt, serial, listing) =>
        if !s.zkEnabled && |new'| >= 8 { EnableKeepsOneKey(s, new', salt, serial, listing); }
      case ChangeZK(current, next, salt) =>
        if s.zkEnabled {
          RotateKeepsRing(s, current, next, salt, pass);
          assert RingOpens(Rotate(s, current, next, salt).world.disk.zk.value, PassAfter(s, op, pass)) ==
              Some(DataKey(s));
          assert forall c :: c in s.world.disk.wrappers ==> OpensWrapper(s, c);
        }
      case DisableZK(random) =>
      case PairKey(credential, prfSalt) => if s.zkEnabled { PairKeepsOneKey(s, credential, prfSalt, pass); }
      case _ => if s.zkEnabled { OthersKeepOneKey(s, op, pass); }
    }
  }

  /** Over any run of enable, rotate, pair, unpair, lock, unlock, disable, reloads and server
      restarts, every security-key wrapper and the passphrase keyring hold the same data key. */
  lemma {:induction false} RunsKeepOneKey(s: Session, ops: seq<Op>, pass: string)
    requires OneKey(s, pass) && forall k :: 0 <= k < |ops| ==> Allowed(ops[k])
    ensures OneKey(Run(s, ops), LatestPass(s, ops, pass))
  {
    if ops == [] {
    } else {
      var n := |ops| - 1;
      RunsKeepOneKey(s, ops[..n], pass);
      StepKeepsOneKey(Run(s, ops[..n]), ops[n], LatestPass(s, ops[..n], pass));
    }
  }

  /** Why one session matters: while the mode is on, the server keeps the wrappers whatever
      keyring it is handed, so a paired key still opens the vault exactly when that keyring
      wraps the data key already in use. */
  lemma {:induction false} RotationMustKeepTheKey(s: Session, pass: string, ring: V.Keyring, secrets: seq<(int, Enc)>,
          c: string)
    requires OneKey(s, pass) && s.zkEnabled && c in s.world.disk.wrappers
    ensures var s' := s.(world := V.HandleKeyringSet(s.world, ring, secrets));
            && c in s'.world.disk.wrappers
            && (Unlocked(s'.(dek := None), ByKey(c)).dek == Some(ring.wrapped.dek) <==> ring.wrapped.dek == DataKey(s))
  {
    V.SecretsFrame(V.EnableZK(s.world, ring).disk, secrets);
    assert OpensWrapper(s, c);
  }

  /** Pairing gives that key a way in, and changes no other; it takes the mode on and an
      unlocked page, without which nothing happens. */
  lemma {:induction false} PairedKeyOpens(s: Session, pass: string, credential: string, prfSalt: nat)
    requires OneKey(s, pass)
    ensures var s' := Pair(s, credential, prfSalt);
            if s.zkEnabled && s.dek.Some?
            then && credential in s'.world.disk.wrappers
                 && Unlocked(s'.(dek := None), ByKey(credential)).dek == Some(DataKey(s))
                 && s'.world.disk.wrappers - {credential} == s.world.disk.wrappers - {credential}
            else s' == s
  {
  }

  /** Unpairing takes that key's way in, and no other's. */
  lemma {:induction false} UnpairedKeyDoesNot(s: Session, credential: string)
    ensures var s' := Unpair(s, credential);
            && Unlocked(s'.(dek := None), ByKey(credential)).dek == None
            && s'.world.disk.wrappers == s.world.disk.wrappers - {credential}
            && s' == s.(world := s.world.(disk := s.world.disk.(wrappers := s'.world.disk.wrappers)))
  {
  }

  /** Leaving the mode locks the page for good: no key, no wrapper, no secret is left, and
      every entry is. */
  lemma {:induction false} DisableLeavesNothing(s: Session, random: string)
    requires s.zkEnabled && random != ""
    ensures var s' := Disable(s, random);
            && !s'.zkEnabled && s'.dek == None && s'.world.disk.wrappers == map[]
            && V.Sound(s'.world, None) && s'.world.mem.box.Some?
            && s'.world.disk.rows.Keys == s.world.disk.rows.Keys
            && forall id :: id in s.world.disk.rows ==>
                s'.world.disk.rows[id] == V.Row(s.world.disk.rows[id].active, Blank)
  {
    V.LeavingBlanks(s.world, random);
  }

  /** What the page stores it can show: its own ciphertext inside the mode, the server's
      answer outside, nothing for an empty value - and a locked page stores nothing. */
  lemma {:induction false} PageStores(s: Session, pass: string, server: Option<string>, id: int, value: string)
    requires OneKey(s, pass) && V.Inv(s.world, server)
    requires id in s.world.disk.rows && s.world.disk.rows[id].active
    ensures var s' := StoreSecret(s, id, value);
            && (s.zkEnabled && s.dek.None? ==> s' == s)
            && (s.zkEnabled && s.dek.Some? ==> Decrypt(s', id) == if value == "" then None else Some(value))
            && (s.zkEnabled && s.dek.Some? && value == "" ==> s'.world.disk.rows[id].enc == Blank)
            && (!s.zkEnabled && s.world.mem.box.None? ==> s' == s)
            && (!s.zkEnabled && s.world.mem.box.Some? ==>
                  V.Reveal(s'.world, id) == if value == "" then Err(V.NotFound) else Ok(V.Plain(value)))
  {
    V.StoredIsRevealed(s.world, server, id, value, Blank);
  }

  predicate Keeps(op: Op, id: int) { Allowed(op) && !op.DisableZK? && (op.Store? ==> op.id != id) }

  lemma {:induction false} StepKeepsCiphertext(s: Session, op: Op, pass: string, id: int)
    requires OneKey(s, pass) && s.zkEnabled && Keeps(op, id) && id in s.world.disk.rows
    ensures id in Step(s, op).world.disk.rows && Step(s, op).world.disk.rows[id].enc == s.world.disk.rows[id].enc
  {
  }

  lemma {:induction false} RunKeepsCiphertext(s: Session, ops: seq<Op>, pass: string, id: int)
    requires OneKey(s, pass) && s.zkEnabled && id in s.world.disk.rows
    requires forall k :: 0 <= k < |ops| ==> Keeps(ops[k], id)
    ensures var s' := Run(s, ops);
            && OneKey(s', LatestPass(s, ops, pass)) && s'.zkEnabled && DataKey(s') == DataKey(s)
            && id in s'.world.disk.rows && s'.world.disk.rows[id].enc == s.world.disk.rows[id].enc
  {
    if ops == [] {
    } else {
      var n := |ops| - 1;
      RunKeepsCiphertext(s, ops[..n], pass, id);
      StepKeepsOneKey(Run(s, ops[..n]), ops[n], LatestPass(s, ops[..n], pass));
      StepKeepsCiphertext(Run(s, ops[..n]), ops[n], LatestPass(s, ops[..n], pass), id);
    }
  }

  /** A secret encrypted in the page, then any run - passphrase rotations, keys paired and
      unpaired, restarts - then a locked or reloaded page: the latest passphrase and every paired key
      decrypt it; any other passphrase, and any unpaired key, leave the page locked. */
  lemma {:induction false} SecretOutlivesRotation(s: Session, id: int, value: string, ops: seq<Op>, pass: string,
          door: Door, closing: Op)
    requires OneKey(s, pass) && s.zkEnabled && s.dek.Some? && s.world.mem.enabled && value != ""
    requires id in s.world.disk.rows && s.world.disk.rows[id].active
    requires forall k :: 0 <= k < |ops| ==> Keeps(ops[k], id)
    requires closing == LockPage || closing == Reload
    ensures var stored := StoreSecret(s, id, value);
            var locked := Step(Run(stored, ops), closing);
            var right := match door
              case ByPass(p) => p == LatestPass(stored, ops, pass)
              case ByKey(c) => c in locked.world.disk.wrappers;
            Decrypt(Unlocked(locked, door), id) == if right then Some(value) else None
  {
    var stored := StoreSecret(s, id, value);
    StepKeepsOneKey(s, Store(id, value), pass);
    RunKeepsCiphertext(stored, ops, pass, id);
    var end := Run(stored, ops);
    match door {
      case ByKey(c) => if c in end.world.disk.wrappers { assert OpensWrapper(end, c); }
      case ByPass(p) =>
    }
  }

  // ----- switching on -----

  predicate HasSecret(w: V.World, id: int) {
    id in w.disk.rows && w.disk.rows[id].active && w.disk.rows[id].enc != Blank
  }

  /** A plaintext the server gave up, and the row it came from. */
  predicate Reads(w: V.World, plain: (int, string)) {
    && w.mem.box.Some? && plain.0 in w.disk.rows
    && w.disk.rows[plain.0].enc != Blank && w.disk.rows[plain.0].enc.plain == plain.1
  }

  /** In a sound vault, unlocked, the page reads exactly the stored plaintexts; from a
      locked one it reads nothing. */
  lemma {:induction false} ReadableIs(w: V.World, server: Option<string>, listing: seq<int>)
    requires V.Sound(w, server)
    ensures forall k :: 0 <= k < |Readable(w, listing)| ==> Reads(w, Readable(w, listing)[k])
    ensures w.mem.box.Some? ==> forall id :: id in listing && id in w.disk.rows && w.disk.rows[id].enc != Blank ==>
              (id, w.disk.rows[id].enc.plain) in Readable(w, listing)
  {
    if listing == [] {
    } else {
      var n := |listing| - 1;
      ReadableIs(w, server, listing[..n]);
      assert listing == listing[..n] + [listing[n]];
    }
  }

  /** Writing the migrated ciphertexts: a listed active row gets its own, others keep theirs. */
  lemma {:induction false} MigratedRow(disk: V.Disk, plains: seq<(int, string)>, dek: Key, id: int)
    requires id in disk.rows && disk.rows[id].active && disk.rows[id].enc != Blank
    requires forall k :: 0 <= k < |plains| && plains[k].0 == id ==> plains[k].1 == disk.rows[id].enc.plain
    ensures var disk' := V.WithSecrets(disk, Encrypted(plains, dek));
            && id in disk'.rows && disk'.rows[id].active
            && disk'.rows[id].enc ==
                 if (id, disk.rows[id].enc.plain) in plains then Sealed(dek, disk.rows[id].enc.plain)
                 else disk.rows[id].enc
  {
    if plains == [] {
    } else {
      var n := |plains| - 1;
      MigratedRow(disk, plains[..n], dek, id);
      assert Encrypted(plains, dek)[..n] == Encrypted(plains[..n], dek);
      assert plains == plains[..n] + [plains[n]];
    }
  }

  /** Turning zero-knowledge mode on carries a stored secret over exactly when the server
      vault is unlocked at that moment: from a locked one the page reads nothing, the row
      keeps the ciphertext of a key the server has just dropped, and the page cannot
      decrypt it. */
  lemma {:induction false} EnableCarriesOverIffUnlocked(s: Session, server: Option<string>, pass: string, salt: nat,
          serial: nat, listing: seq<int>, id: int)
    requires V.Sound(s.world, server) && !s.zkEnabled && |pass| >= 8
    requires s.world.disk.wrapped.value.dek != Generated(serial)
    requires HasSecret(s.world, id) && id in listing
    ensures Decrypt(Enable(s, pass, salt, serial, listing), id) ==
            if s.world.mem.box.Some? then Some(s.world.disk.rows[id].enc.plain) else None
  {
    var dek, plains := Generated(serial), Readable(s.world, listing);
    var on := V.EnableZK(s.world, RingFor(dek, pass, salt));
    ReadableIs(s.world, server, listing);
    forall k | 0 <= k < |plains| && plains[k].0 == id ensures plains[k].1 == s.world.disk.rows[id].enc.plain {
      assert Reads(s.world, plains[k]);
    }
    MigratedRow(on.disk.(wrappers := map[]), plains, dek, id);
  }
}
