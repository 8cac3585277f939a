/** The secret vault (internal/server/vault.go, the vault handlers of security.go and
    server.go): what is in memory, what is on disk, and what each operation does to both.
    Every write to disk succeeds; randomness arrives as a parameter. */
module Vault {
  import opened Wrappers
  import opened Secret

  datatype Mode = NoMode | Auto | Passphrase

  datatype Keyring = Keyring(wrapped: Wrapped, salt: nat, iters: nat)

  datatype Row = Row(active: bool, enc: Enc)

  datatype Wrapper = Wrapper(wrapped: Wrapped, prfSalt: nat)

  /** The meta table, the key file, the secret column and the security-key wrappers. An
      empty meta value is None. */
  datatype Disk = Disk(wrapped: Option<Wrapped>, salt: Option<nat>, mode: Mode, zk: Option<Keyring>,
                       keyFile: Option<string>, rows: map<int, Row>, wrappers: map<string, Wrapper>)

  /** The fields of the vault object; `box` is there exactly while it is unlocked. */
  datatype Memory = Memory(enabled: bool, zk: bool, mode: Mode, salt: Option<nat>, wrapped: Option<Wrapped>,
      box: Option<Key>)

  datatype World = World(mem: Memory, disk: Disk)

  datatype Failure = Locked | NotEnabled | NoPassphraseSet | WrongPassphrase | TooShort | NotFound | Undecryptable

  // ----- the vault's own methods -----

  /** `LoadOrCreateKey`: the key file's material, made up first if it is missing or empty. */
  function LoadOrCreateKey(disk: Disk, random: string): (Disk, string) {
    if disk.keyFile.Some? && disk.keyFile.value != "" then (disk, disk.keyFile.value)
    else (disk.(keyFile := Some(random)), random)
  }

  function NewVault(disk: Disk, random: string): World {
    if disk.zk.Some? then World(Memory(true, true, NoMode, None, None, None), disk)
    else if disk.wrapped.Some? then
      var locked := Memory(true, false, disk.mode, disk.salt, disk.wrapped, None);
      if disk.mode == Auto then
        var (disk', material) := LoadOrCreateKey(disk, random);
        World(locked.(box := UnwrapKey(disk.wrapped.value, FromString(material))), disk')
      else World(locked, disk)
    else
      var (disk', material) := LoadOrCreateKey(disk, random);
      Bootstrapped(World(Memory(false, false, NoMode, None, None, None), disk'), material)
  }

  /** A data key derived from the key file, wrapped under itself, in auto mode. */
  function Bootstrapped(w: World, material: string): World {
    var dek := FromString(material);
    var wrapped := Some(WrapKey(dek, dek));
    World(w.mem.(enabled := true, mode := Auto, wrapped := wrapped, box := Some(dek)),
          w.disk.(mode := Auto, salt := None, wrapped := wrapped))
  }

  function Unlock(w: World, pass: string): (World, Result<(), Failure>) {
    if !w.mem.enabled then (w, Err(NotEnabled))
    else if w.mem.box.Some? then (w, Ok(()))
    else if w.mem.mode != Passphrase then (w, Err(NoPassphraseSet))
    else match Unwrapped(w.mem, pass)
      case Some(dek) => (w.(mem := w.mem.(box := Some(dek))), Ok(()))
      case None => (w, Err(WrongPassphrase))
  }

  /** What a passphrase gets out of the keyring held in memory. */
  function Unwrapped(mem: Memory, pass: string): Option<Key> {
    if mem.wrapped.Some? && mem.salt.Some?
    then UnwrapKey(mem.wrapped.value, FromPassphrase(pass, mem.salt.value))
    else None
  }

  function Lock(w: World): World { w.(mem := w.mem.(box := None)) }

  function Persist(w: World, mode: Mode, salt: Option<nat>, wrapped: Wrapped): World {
    World(w.mem.(mode := mode, salt := salt, wrapped := Some(wrapped)),
          w.disk.(mode := mode, salt := salt, wrapped := Some(wrapped)))
  }

  function SetPassphrase(w: World, current: string, next: string, salt: nat, random: string)
    : (World, Result<(), Failure>)
  {
    if w.mem.box.None? then (w, Err(Locked))
    else if w.mem.mode == Passphrase && next != "" && Unwrapped(w.mem, current).None? then (w, Err(WrongPassphrase))
    else if next == "" then
      var (disk', material) := LoadOrCreateKey(w.disk, random);
      (Persist(w.(disk := disk'), Auto, None, WrapKey(w.mem.box.value, FromString(material))), Ok(()))
    else
      var w' := Persist(w, Passphrase, Some(salt), WrapKey(w.mem.box.value, FromPassphrase(next, salt)));
      (w'.(disk := w'.disk.(keyFile := None)), Ok(()))
  }

  function EnableZK(w: World, ring: Keyring): World {
    World(w.mem.(enabled := true, zk := true, box := None),
          w.disk.(zk := Some(ring), wrapped := None, mode := NoMode, salt := None, keyFile := None))
  }

  function Cleared(rows: map<int, Row>): map<int, Row> {
    map id | id in rows :: rows[id].(enc := Blank)
  }

  function DisableZK(w: World, random: string): World {
    var (disk', material) := LoadOrCreateKey(w.disk.(zk := None, rows := Cleared(w.disk.rows)), random);
    Bootstrapped(World(w.mem.(zk := false), disk'), material)
  }

  // ----- the handlers -----

  /** `SetSecret`: only an active row is written. */
  function WithSecret(disk: Disk, id: int, enc: Enc): (Disk, Result<(), Failure>) {
    if id in disk.rows && disk.rows[id].active then (disk.(rows := disk.rows[id := disk.rows[id].(enc := enc)]), Ok(()))
    else (disk, Err(NotFound))
  }

  /** PUT .../secret: a plaintext to seal, or the browser's own ciphertext. */
  function HandleSetSecret(w: World, id: int, value: string, enc: Enc): (World, Result<(), Failure>) {
    if !w.mem.enabled then (w, Err(NotEnabled))
    else if w.mem.zk then var (disk', r) := WithSecret(w.disk, id, enc); (w.(disk := disk'), r)
    else if w.mem.box.None? then (w, Err(Locked))
    else
      var sealed := if value == "" then Blank else Sealed(w.mem.box.value, value);
      var (disk', r) := WithSecret(w.disk, id, sealed);
      (w.(disk := disk'), r)
  }

  datatype Shown = Plain(text: string) | Ciphertext(enc: Enc)

  /** GET .../secret. */
  function Reveal(w: World, id: int): Result<Shown, Failure> {
    if !w.mem.enabled then Err(NotEnabled)
    else if id !in w.disk.rows || w.disk.rows[id].enc == Blank then Err(NotFound)
    else if w.mem.zk then Ok(Ciphertext(w.disk.rows[id].enc))
    else if w.mem.box.None? then Err(Locked)
    else match Open(w.disk.rows[id].enc, w.mem.box.value)
      case Some(text) => Ok(Plain(text))
      case None => Err(Undecryptable)
  }

  function HandlePassphrase(w: World, current: string, next: string, salt: nat, random: string)
    : (World, Result<(), Failure>)
  {
    if next != "" && |next| < 8 then (w, Err(TooShort)) else SetPassphrase(w, current, next, salt, random)
  }

  function WithSecrets(disk: Disk, secrets: seq<(int, Enc)>): Disk {
    if secrets == [] then disk
    else
      var n := |secrets| - 1;
      WithSecret(WithSecrets(disk, secrets[..n]), secrets[n].0, secrets[n].1).0
  }

  /** POST /vault/keyring: wrappers survive a rotation, not a first enabling. */
  function HandleKeyringSet(w: World, ring: Keyring, secrets: seq<(int, Enc)>): World {
    var on := EnableZK(w, ring);
    var kept := if w.mem.zk then on.disk else on.disk.(wrappers := map[]);
    on.(disk := WithSecrets(kept, secrets))
  }

  /** DELETE /vault/keyring. */
  function HandleKeyringDelete(w: World, random: string): World {
    var off := DisableZK(w, random);
    off.(disk := off.disk.(wrappers := map[]))
  }

  // ----- runs -----

  datatype Op =
    | SetSecret(id: int, value: string, enc: Enc)
    | UnlockWith(pass: string)
    | LockUp
    | ChangePass(current: string, next: string, salt: nat, random: string)
    | KeyringSet(ring: Keyring, secrets: seq<(int, Enc)>)
    | KeyringDelete(random: string)
    | Restart(random: string)
    | AddRow(id: int)
    | RemoveRow(id: int)

  function Step(w: World, op: Op): World {
    match op
    case SetSecret(id, value, enc) => HandleSetSecret(w, id, value, enc).0
    case UnlockWith(pass) => Unlock(w, pass).0
    case LockUp => Lock(w)
    case ChangePass(current, next, salt, random) => HandlePassphrase(w, current, next, salt, random).0
    case KeyringSet(ring, secrets) => HandleKeyringSet(w, ring, secrets)
    case KeyringDelete(random) => HandleKeyringDelete(w, random)
    case Restart(random) => NewVault(w.disk, random)
    case AddRow(id) => if id in w.disk.rows then w else w.(disk := w.disk.(rows := w.disk.rows[id := Row(true, Blank)]))
    case RemoveRow(id) =>
      if id in w.disk.rows then w.(disk := w.disk.(rows := w.disk.rows[id := w.disk.rows[id].(active := false)])) else w
  }

  /** Fresh key-file material is never empty. */
  predicate Random(op: Op) {
    match op
    case ChangePass(_, _, _, random) => random != ""
    case KeyringDelete(random) => random != ""
    case Restart(random) => random != ""
    case _ => true
  }

  /** What a change of passphrase takes: an open vault, eight characters unless it is a
      removal, and the passphrase in force if one is being replaced by another. */
  predicate MayChange(mem: Memory, pass: Option<string>, current: string, next: string) {
    && mem.box.Some?
    && (next != "" ==> |next| >= 8)
    && (next != "" && mem.mode == Passphrase ==> Some(current) == pass)
  }

  /** The passphrase in force after an operation, if there is one. */
  function PassAfter(w: World, op: Op, pass: Option<string>): Option<string> {
    match op
    case ChangePass(current, next, _, _) =>
      if !MayChange(w.mem, pass, current, next) then pass else if next == "" then None else Some(next)
    case KeyringDelete(_) => None
    case _ => pass
  }

  function Run(w: World, ops: seq<Op>): World {
    if ops == [] then w else Step(Run(w, ops[..|ops| - 1]), ops[|ops| - 1])
  }

  function LatestPass(w: World, ops: seq<Op>, pass: Option<string>): Option<string> {
    if ops == [] then pass
    else
      var n := |ops| - 1;
      PassAfter(Run(w, ops[..n]), ops[n], LatestPass(w, ops[..n], pass))
  }

  predicate AllRandom(ops: seq<Op>) { forall k :: 0 <= k < |ops| ==> Random(ops[k]) }

  // ----- what every state keeps -----

  predicate SealedUnder(rows: map<int, Row>, dek: Key) {
    forall id :: id in rows && rows[id].enc != Blank ==> rows[id].enc.key == dek && rows[id].enc.plain != ""
  }

  /** Outside zero-knowledge mode: memory and disk hold the same keyring, every stored
      value is sealed under the data key it wraps, an open box holds that key, and the
      wrapping key is the key file's in auto mode, and in passphrase mode the latest
      passphrase's, with no key file left. */
  predicate Sound(w: World, pass: Option<string>) {
    && w.mem.enabled && !w.mem.zk && w.disk.zk == None
    && w.disk.wrapped.Some? && w.mem.wrapped == w.disk.wrapped && w.mem.mode == w.disk.mode
    && (w.mem.box.Some? ==> w.mem.box.value == w.disk.wrapped.value.dek)
    && SealedUnder(w.disk.rows, w.disk.wrapped.value.dek)
    && (w.disk.mode == Auto ==>
          w.disk.keyFile.Some? && w.disk.keyFile.value != ""
              && w.disk.wrapped.value.kek == FromString(w.disk.keyFile.value))
    && (w.disk.mode != Auto ==>
          && w.disk.mode == Passphrase && w.disk.keyFile == None && pass.Some?
          && w.disk.salt.Some? && w.mem.salt == w.disk.salt
          && w.disk.wrapped.value.kek == FromPassphrase(pass.value, w.disk.salt.value))
  }

  predicate Inv(w: World, pass: Option<string>) {
    if w.disk.zk.Some? then w.mem.enabled && w.mem.zk else Sound(w, pass)
  }

  lemma {:induction false} SecretsFrame(disk: Disk, secrets: seq<(int, Enc)>)
    ensures WithSecrets(disk, secrets) == disk.(rows := WithSecrets(disk, secrets).rows)
  {
    if secrets == [] {
    } else {
      SecretsFrame(disk, secrets[..|secrets| - 1]);
    }
  }

  lemma {:induction false} StepKeepsInv(w: World, op: Op, pass: Option<string>)
    requires Inv(w, pass) && Random(op)
    ensures Inv(Step(w, op), PassAfter(w, op, pass))
  {
    match op {
      case KeyringSet(ring, secrets) =>
        var on := EnableZK(w, ring);
        SecretsFrame(if w.mem.zk then on.disk else on.disk.(wrappers := map[]), secrets);
      case _ =>
    }
  }

  /** A new install, or one from before keyrings: no keyring of any kind, and whatever
      is stored was sealed straight under the key file. */
  predicate Installed(disk: Disk) {
    && disk.zk == None && disk.wrapped == None && disk.mode == NoMode
    && if disk.keyFile.Some? && disk.keyFile.value != "" then SealedUnder(disk.rows, FromString(disk.keyFile.value))
       else forall id :: id in disk.rows ==> disk.rows[id].enc == Blank
  }

  /** Over any run from an installation, every state outside zero-knowledge mode is sound
      for the latest passphrase. */
  lemma {:induction false} RunsStaySound(disk: Disk, random: string, ops: seq<Op>)
    requires Installed(disk) && random != "" && AllRandom(ops)
    ensures var w := NewVault(disk, random);
            Inv(Run(w, ops), LatestPass(w, ops, None))
  {
    if ops == [] {
    } else {
      var n, w := |ops| - 1, NewVault(disk, random);
      RunsStaySound(disk, random, ops[..n]);
      StepKeepsInv(Run(w, ops[..n]), ops[n], LatestPass(w, ops[..n], None));
    }
  }

  // ----- what a sound state is good for -----

  predicate RevealsAll(w: World) {
    forall id :: id in w.disk.rows && w.disk.rows[id].enc != Blank ==>
        Reveal(w, id) == Ok(Plain(w.disk.rows[id].enc.plain))
  }

  /** After any run that ends locked in passphrase mode: exactly the latest passphrase
      unlocks the vault, and then every stored secret is revealed in plain. */
  lemma {:induction false} LatestPassphraseUnlocks(disk: Disk, random: string, ops: seq<Op>, attempt: string)
    requires Installed(disk) && random != "" && AllRandom(ops)
    requires var w := Run(NewVault(disk, random), ops);
             w.disk.zk == None && w.disk.mode == Passphrase && w.mem.box == None
    ensures var w, pass := Run(NewVault(disk, random), ops), LatestPass(NewVault(disk, random), ops, None);
            && pass.Some? && w.disk.keyFile == None
            && (Unlock(w, attempt).1.Ok? <==> attempt == pass.value)
            && (if attempt == pass.value then RevealsAll(Unlock(w, attempt).0) else Unlock(w, attempt).0 == w)
  {
    RunsStaySound(disk, random, ops);
  }

  /** After any run outside zero-knowledge mode: in auto mode a restart alone unlocks and
      every stored secret is revealed; in passphrase mode a restart leaves the vault locked. */
  lemma {:induction false} RestartUnlocksOnlyAuto(disk: Disk, random: string, ops: seq<Op>, random': string)
    requires Installed(disk) && random != "" && AllRandom(ops)
    requires Run(NewVault(disk, random), ops).disk.zk == None
    ensures var w := Run(NewVault(disk, random), ops);
            && (w.disk.mode == Auto ==> RevealsAll(NewVault(w.disk, random')))
            && (NewVault(w.disk, random').mem.box.Some? <==> w.disk.mode == Auto)
  {
    RunsStaySound(disk, random, ops);
  }

  /** Operations other than a write to this row or a switch of zero-knowledge mode. */
  predicate LeavesAlone(op: Op, id: int) {
    !op.KeyringSet? && !op.KeyringDelete? && (op.SetSecret? ==> op.id != id)
  }

  lemma {:induction false} StepLeavesAlone(w: World, op: Op, pass: Option<string>, id: int)
    requires Inv(w, pass) && w.disk.zk == None && Random(op) && LeavesAlone(op, id) && id in w.disk.rows
    ensures var w' := Step(w, op);
            && w'.disk.zk == None && id in w'.disk.rows && w'.disk.rows[id].enc == w.disk.rows[id].enc
            && w'.disk.wrapped.Some? && w'.disk.wrapped.value.dek == w.disk.wrapped.value.dek
  {
  }

  /** Passphrase changes, removals, locks and restarts never cost a secret: after any run of
      them it is still there, and revealed as stored whenever the vault is unlocked. */
  lemma {:induction false} SecretsSurvive(w: World, ops: seq<Op>, pass: Option<string>, id: int)
    requires Inv(w, pass) && w.disk.zk == None && AllRandom(ops)
    requires forall k :: 0 <= k < |ops| ==> LeavesAlone(ops[k], id)
    requires id in w.disk.rows && w.disk.rows[id].enc != Blank
    ensures Inv(Run(w, ops), LatestPass(w, ops, pass)) && Run(w, ops).disk.zk == None
    ensures id in Run(w, ops).disk.rows && Run(w, ops).disk.rows[id].enc == w.disk.rows[id].enc
    ensures Run(w, ops).mem.box.Some? ==> Reveal(Run(w, ops), id) == Ok(Plain(w.disk.rows[id].enc.plain))
    ensures Run(w, ops).mem.box.None? ==> Reveal(Run(w, ops), id) == Err(Locked)
  {
    if ops == [] {
    } else {
      var n := |ops| - 1;
      SecretsSurvive(w, ops[..n], pass, id);
      StepKeepsInv(Run(w, ops[..n]), ops[n], LatestPass(w, ops[..n], pass));
      StepLeavesAlone(Run(w, ops[..n]), ops[n], LatestPass(w, ops[..n], pass), id);
    }
  }

  /** Outside zero-knowledge mode a locked vault refuses: no secret is revealed, none is
      written, no passphrase is set; only the passphrase in force unlocks it, and in auto
      mode not even that. */
  lemma {:induction false} LockedVaultRefuses(w: World, pass: Option<string>, op: Op, attempt: string)
    requires Inv(w, pass) && w.disk.zk == None && (op.SetSecret? || op.ChangePass?)
    ensures Step(Lock(w), op) == Lock(w) && Lock(w).disk == w.disk
    ensures forall id ::
              Reveal(Lock(w), id) == Err(if id in w.disk.rows && w.disk.rows[id].enc != Blank then Locked else NotFound)
    ensures Unlock(Lock(w), attempt).1.Ok? <==> w.disk.mode == Passphrase && pass == Some(attempt)
  {
  }

  /** Outside zero-knowledge mode unlocking succeeds if and only if the vault is open already
      or it is given the passphrase in force; either way nothing but the box changes. */
  lemma {:induction false} UnlockedIff(w: World, pass: Option<string>, attempt: string)
    requires Inv(w, pass) && w.disk.zk == None
    ensures var (w', r) := Unlock(w, attempt);
            && (r.Ok? <==> w.mem.box.Some? || (w.mem.mode == Passphrase && pass == Some(attempt)))
            && w'.mem.box.Some? == r.Ok? && w' == w.(mem := w.mem.(box := w'.mem.box))
            && (w.mem.box.Some? ==> w' == w)
            && (r.Err? ==> r.error == if w.mem.mode == Auto then NoPassphraseSet else WrongPassphrase)
  {
  }

  /** Why a passphrase change is refused. */
  function Refusal(mem: Memory, next: string): Failure {
    if next != "" && |next| < 8 then TooShort else if mem.box.None? then Locked else WrongPassphrase
  }

  /** Outside zero-knowledge mode a passphrase change is accepted if and only if the vault is
      open, the new one is empty or long enough, and the current one is right where there is
      one to replace. An accepted change puts the new one in force; a refused one changes
      nothing. */
  lemma {:induction false} ChangeAcceptedIff(w: World, pass: Option<string>, current: string, next: string, salt: nat,
          random: string)
    requires Inv(w, pass) && w.disk.zk == None && random != ""
    ensures var (w', r) := HandlePassphrase(w, current, next, salt, random);
            && (r.Ok? <==>
                w.mem.box.Some? && (next == "" || (|next| >= 8 && (w.mem.mode == Auto || Some(current) == pass))))
            && (r.Err? ==> w' == w)
            && (r.Err? ==> r.error == Refusal(w.mem, next))
            && (r.Ok? ==>
                  && Sound(w', if next == "" then None else Some(next)) && w'.mem.box == w.mem.box
                  && w'.mem.mode == (if next == "" then Auto else Passphrase) && w'.disk.rows == w.disk.rows)
  {
  }

  /** What a locked vault yields to. It opens for exactly three things: the passphrase in
      force, a restart in auto mode, and leaving a zero-knowledge mode it is not in, which
      blanks every secret. Its disk changes for nothing but the two keyring requests and
      entries coming and going. */
  lemma {:induction false} LockedVaultYieldsTo(w: World, pass: Option<string>, op: Op)
    requires Inv(w, pass) && w.disk.zk == None && w.mem.box == None
    ensures Step(w, op).mem.box.Some? <==>
              || (op.UnlockWith? && w.disk.mode == Passphrase && pass == Some(op.pass))
              || (op.Restart? && w.disk.mode == Auto)
              || op.KeyringDelete?
    ensures Step(w, op).disk != w.disk ==> op.KeyringSet? || op.KeyringDelete? || op.AddRow? || op.RemoveRow?
    ensures op.KeyringDelete? ==> forall id :: id in w.disk.rows ==> Step(w, op).disk.rows[id].enc == Blank
    ensures op.KeyringSet? ==> Step(w, op).disk.rows == WithSecrets(w.disk, op.secrets).rows
  {
    if op.KeyringSet? {
      SecretsOfRows(w.disk, EnableZK(w, op.ring).disk.(wrappers := map[]), op.secrets);
      SecretsOfRows(w.disk, EnableZK(w, op.ring).disk, op.secrets);
    }
  }

  /** Writing secrets depends on nothing but the rows. */
  lemma {:induction false} SecretsOfRows(a: Disk, b: Disk, secrets: seq<(int, Enc)>)
    requires a.rows == b.rows
    ensures WithSecrets(a, secrets).rows == WithSecrets(b, secrets).rows
  {
    if secrets == [] {
    } else {
      SecretsOfRows(a, b, secrets[..|secrets| - 1]);
    }
  }

  /** What the server hands out for a write it has accepted: nothing for an empty one, in
      zero-knowledge mode the ciphertext that came in, else the value. */
  function ReadsBack(w: World, value: string, enc: Enc): Result<Shown, Failure> {
    if w.mem.zk then if enc == Blank then Err(NotFound) else Ok(Ciphertext(enc))
    else if value == "" then Err(NotFound) else Ok(Plain(value))
  }

  /** A write is accepted exactly when the entry is active and the vault open, or in
      zero-knowledge mode, and then reads back at once. It touches one ciphertext and
      nothing else, accepted or not. */
  lemma {:induction false} StoredIsRevealed(w: World, pass: Option<string>, id: int, value: string, enc: Enc)
    requires Inv(w, pass)
    ensures var (w', r) := HandleSetSecret(w, id, value, enc);
            && (r.Ok? <==> (w.mem.zk || w.mem.box.Some?) && id in w.disk.rows && w.disk.rows[id].active)
            && (r.Ok? ==> Reveal(w', id) == ReadsBack(w, value, enc))
            && (r.Err? ==> w' == w && r.error == if w.mem.zk || w.mem.box.Some? then NotFound else Locked)
            && (r.Ok? ==>
                w' == w.(disk := w.disk.(rows := w.disk.rows[id := w'.disk.rows[id]])) && w'.disk.rows[id].active)
  {
  }

  // ----- many secrets at once -----

  /** Index of the last entry of the list for this id, or -1. */
  function LastFor(secrets: seq<(int, Enc)>, id: int): (at: int)
    ensures -1 <= at < |secrets|
    ensures at >= 0 ==> secrets[at].0 == id
    ensures forall k :: at < k < |secrets| ==> secrets[k].0 != id
  {
    if secrets == [] then -1
    else
      var n := |secrets| - 1;
      var earlier := LastFor(secrets[..n], id);
      assert forall k :: 0 <= k < n ==> secrets[..n][k] == secrets[k];
      if secrets[n].0 == id then n else earlier
  }

  /** Secrets written in turn: an active row ends with the last one for it, every other row
      as it was. */
  lemma {:induction false} LastSecretWins(disk: Disk, secrets: seq<(int, Enc)>, id: int)
    ensures var out, at := WithSecrets(disk, secrets), LastFor(secrets, id);
            && (id in out.rows <==> id in disk.rows)
            && (id in disk.rows ==>
                  out.rows[id] ==
                  if disk.rows[id].active && at >= 0 then disk.rows[id].(enc := secrets[at].1) else disk.rows[id])
  {
    if secrets == [] {
    } else {
      LastSecretWins(disk, secrets[..|secrets| - 1], id);
    }
  }

  // ----- the server in zero-knowledge mode -----

  /** No key and nothing to get one from: neither in memory nor on disk. */
  predicate Blind(w: World) {
    && w.mem.enabled && w.mem.zk && w.disk.zk.Some?
    && w.mem.box == None && w.mem.wrapped == None && w.mem.mode == NoMode
    && w.disk.wrapped == None && w.disk.mode == NoMode && w.disk.salt == None && w.disk.keyFile == None
  }

  lemma {:induction false} StepKeepsBlind(w: World, op: Op)
    requires Blind(w) && !op.KeyringDelete?
    ensures Blind(Step(w, op))
  {
    if op.KeyringSet? { SecretsFrame(EnableZK(w, op.ring).disk, op.secrets); }
  }

  lemma {:induction false} RunStaysBlind(w: World, ops: seq<Op>)
    requires Blind(w) && forall k :: 0 <= k < |ops| ==> !ops[k].KeyringDelete?
    ensures Blind(Run(w, ops))
  {
    if ops == [] {
    } else {
      RunStaysBlind(w, ops[..|ops| - 1]);
      StepKeepsBlind(Run(w, ops[..|ops| - 1]), ops[|ops| - 1]);
    }
  }

  /** Switching zero-knowledge mode on leaves the disk without any key of the server's. From
      the next start, whatever is asked of it short of leaving the mode, the server holds no
      key and hands out ciphertexts as they came in. */
  lemma {:induction false} ServerGoesBlind(w: World, ring: Keyring, secrets: seq<(int, Enc)>, random: string,
          ops: seq<Op>, id: int)
    requires forall k :: 0 <= k < |ops| ==> !ops[k].KeyringDelete?
    ensures var on := HandleKeyringSet(w, ring, secrets);
            && on.mem.box == None && on.disk.zk == Some(ring)
            && Blind(Run(NewVault(on.disk, random), ops))
            && (Reveal(Run(NewVault(on.disk, random), ops), id).Ok? ==>
                  Reveal(Run(NewVault(on.disk, random), ops), id).value.Ciphertext?)
  {
    var on := EnableZK(w, ring);
    SecretsFrame(on.disk, secrets);
    SecretsFrame(on.disk.(wrappers := map[]), secrets);
    RunStaysBlind(NewVault(HandleKeyringSet(w, ring, secrets).disk, random), ops);
  }

  /** Leaving the mode keeps every entry and blanks its secret, drops every wrapper, and
      leaves an open vault in auto mode. */
  lemma {:induction false} LeavingBlanks(w: World, random: string)
    requires random != ""
    ensures var off := HandleKeyringDelete(w, random);
            && Sound(off, None) && off.mem.box.Some? && off.mem.mode == Auto
            && off.disk.wrappers == map[] && off.disk.rows.Keys == w.disk.rows.Keys
            && forall id :: id in w.disk.rows ==> off.disk.rows[id] == Row(w.disk.rows[id].active, Blank)
  {
  }
}
