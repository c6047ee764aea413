/**
  The password vault of each school: a key pair whose private half is locked with
  a master key, and user passwords encrypted for the public half.

  Cryptography is symbolic: a box opens with the key it was closed with, a
  ciphertext with the other half of its pair, and a hash accepts the text it was
  made from; anything else is an error.
 */
module PasswordVault {
  import opened Optional
  import opened Utf8

  type Id = string

  // ------------------------------------------------------------------ cryptography

  datatype PublicKey = Pub(pair: int)
  datatype PrivateKey = Priv(pair: int)

  datatype AesKey = AesKey(master: string, salt: string)
  datatype Box = Box(lockedWith: AesKey, content: PrivateKey)

  datatype Hash = Argon(text: string)
  datatype Cipher = Rsa(key: PublicKey, plaintext: string)

  function Open(box: Box, key: AesKey): (content: Option<PrivateKey>)
  {
    if box.lockedWith == key then Some(box.content) else None
  }

  predicate Verify(hash: Hash, text: string)
  {
    hash.text == text
  }

  function Decrypt(key: PrivateKey, c: Cipher): (plaintext: Option<string>)
  {
    if c.key.pair == key.pair then Some(c.plaintext) else None
  }

  /** What a 2048-bit key holds under OAEP with SHA-256: 256 - 2 * 32 - 2 bytes. */
  const OAEP_LIMIT := 190

  predicate Encryptable(plaintext: string)
  {
    plaintext != "" && Utf8Length(plaintext) <= OAEP_LIMIT
  }

  function Encrypt(key: PublicKey, plaintext: string): (c: Option<Cipher>)
  {
    if Utf8Length(plaintext) <= OAEP_LIMIT then Some(Rsa(key, plaintext)) else None
  }

  predicate Blank(c: char)
  {
    || c == ' ' || '\t' <= c <= '\r' || c == '\U{A0}' || c == '\U{1680}' || '\U{2000}' <= c <= '\U{200A}'
    || c == '\U{2028}' || c == '\U{2029}' || c == '\U{202F}' || c == '\U{205F}' || c == '\U{3000}' || c == '\U{FEFF}'
  }

  /** The 25 characters that the runtime trims, by code point. */
  lemma BlankIff(c: char)
    ensures Blank(c) <==>
      c as int in {9, 10, 11, 12, 13, 32, 160, 5760, 8192, 8193, 8194, 8195, 8196, 8197, 8198, 8199, 8200, 8201, 8202,
        8232, 8233, 8239, 8287, 12288, 65279}
  {
  }

  function Trim(s: string): (t: string)
    decreases |s|
  {
    if s == "" then ""
    else if Blank(s[0]) then Trim(s[1..])
    else if Blank(s[|s| - 1]) then Trim(s[..|s| - 1])
    else s
  }

  // ------------------------------------------------------------------ tables

  /** The vault columns of a school. */
  datatype Tenant = Tenant(publicKey: Option<PublicKey>, encryptedPrivateKey: Option<Box>, salt: Option<string>,
      keyHash: Option<Hash>)

  /** An account; `guesses` are the standard credentials its data would have been issued with. */
  datatype Account = Account(tenant: Id, isPlatformAdmin: bool, passwordHash: Hash, encrypted: Option<Cipher>,
      guesses: seq<string>)

  type Tenants = map<Id, Tenant>
  type Accounts = map<Id, Account>

  datatype State = Tables(tenants: Tenants, accounts: Accounts)

  /** What the random generator yields in a request. */
  datatype Random = Random(pair: int, salt: string, generatedKey: string)

  predicate ProperRandom(r: Random)
  {
    r.generatedKey != "" && Trim(r.generatedKey) == r.generatedKey
  }

  // ------------------------------------------------------------------ vault operations

  predicate HasVault(t: Tenant)
  {
    t.publicKey.Some? && t.encryptedPrivateKey.Some?
  }

  function NewVault(master: string, r: Random): (t: Tenant)
  {
    Tenant(Some(Pub(r.pair)), Some(Box(AesKey(master, r.salt), Priv(r.pair))), Some(r.salt), Some(Argon(master)))
  }

  /** The trimmed key that was given, or a generated one. */
  function InitialKey(given: Option<string>, r: Random): (master: string)
  {
    if given.Some? && Trim(given.value) != "" then Trim(given.value) else r.generatedKey
  }

  function Ensured(t: Tenant, given: Option<string>, r: Random): (t': Tenant)
    ensures HasVault(t')
    ensures HasVault(t) ==> t' == t
  {
    if HasVault(t) then t else NewVault(InitialKey(given, r), r)
  }

  /** The generated key is told to the caller only when no key, or an empty one, was given. */
  function KeyTold(t: Tenant, given: Option<string>, r: Random): (told: Option<string>)
  {
    if HasVault(t) || (given.Some? && given.value != "") then None else Some(InitialKey(given, r))
  }

  datatype Setup = Initialized | Rotated | KeyRequired | WrongKey | Broken

  function SetupKey(t: Tenant, newKey: string, currentKey: Option<string>, isPlatformAdmin: bool,
      r: Random): (x: (Tenant, Setup))
  {
    if !HasVault(t) then (Ensured(t, Some(newKey), r), Initialized)
    else if currentKey.None? || currentKey.value == "" then (t, KeyRequired)
    else if !isPlatformAdmin && t.keyHash.None? then (t, Broken)
    else if !isPlatformAdmin && !Verify(t.keyHash.value, currentKey.value) then (t, WrongKey)
    else if t.salt.None? then (t, KeyRequired)
    else
      var content := Open(t.encryptedPrivateKey.value, AesKey(currentKey.value, t.salt.value));
      if content.None? then (t, Broken)
      else (Tenant(t.publicKey, Some(Box(AesKey(newKey, r.salt), content.value)), Some(r.salt),
          Some(Argon(newKey))), Rotated)
  }

  /** The state and ciphertext after encrypting for a school, whose vault is created when it has none. */
  function EncryptFor(tenants: Tenants, tenantId: Id, plaintext: string, r: Random): (x: (Tenants, Option<Cipher>))
  {
    if plaintext == "" || tenantId !in tenants then (tenants, None)
    else if tenants[tenantId].publicKey.Some? then (tenants, Encrypt(tenants[tenantId].publicKey.value, plaintext))
    else
      var t := Ensured(tenants[tenantId], None, r);
      (tenants[tenantId := t], Encrypt(t.publicKey.value, plaintext))
  }

  /** The first guess that the hash accepts. */
  function Recover(guesses: seq<string>, hash: Hash): (p: Option<string>)
  {
    if guesses == [] then None else if Verify(hash, guesses[0]) then Some(guesses[0]) else Recover(guesses[1..], hash)
  }

  /** Recovery finds the password or nothing. */
  lemma {:induction false} RecoverFindsPassword(guesses: seq<string>, hash: Hash)
    ensures Recover(guesses, hash) == if hash.text in guesses then Some(hash.text) else None
  {
    if guesses != [] {
      RecoverFindsPassword(guesses[1..], hash);
    }
  }

  datatype Answer =
    | NotFound
    | BadPassword
    | PasswordChanged
    | Told(publicKey: PublicKey, key: Option<string>)
    | SetupDone(setup: Setup)
    | Forbidden
    | NoVault
    | TooMany
    | WrongMasterKey
    | Irrecoverable
    | Failure
    | Revealed(password: string)
    | Backfilled(total: nat, recovered: nat, alreadyEncrypted: nat, unrecovered: nat)

  function Change(s: State, user: Id, oldPassword: string, newPassword: string, r: Random): (x: (State, Answer))
  {
    if user !in s.accounts then (s, NotFound)
    else if !Verify(s.accounts[user].passwordHash, oldPassword) then (s, BadPassword)
    else
      var a := s.accounts[user];
      var (tenants, c) := EncryptFor(s.tenants, a.tenant, newPassword, r);
      var a' := a.(passwordHash := Argon(newPassword), encrypted := if c.Some? then c else a.encrypted);
      (Tables(tenants, s.accounts[user := a']), PasswordChanged)
  }

  /** The ciphertext to open: the stored one, or one made from a recovered password. */
  function Stored(t: Tenant, a: Account): (c: Option<Cipher>)
  {
    if a.encrypted.Some? then a.encrypted
    else
      var p := Recover(a.guesses, a.passwordHash);
      if p.Some? && p.value != "" && t.publicKey.Some? then Encrypt(t.publicKey.value, p.value) else None
  }

  /** Recovery found a password that is too long to encrypt. */
  predicate Overlong(t: Tenant, a: Account)
  {
    var p := Recover(a.guesses, a.passwordHash);
    a.encrypted.None? && p.Some? && p.value != "" && t.publicKey.Some? && Encrypt(t.publicKey.value, p.value).None?
  }

  function Unlock(t: Tenant, c: Cipher, master: string): (p: Option<string>)
    requires t.encryptedPrivateKey.Some? && t.salt.Some?
  {
    var key := Open(t.encryptedPrivateKey.value, AesKey(master, t.salt.value));
    if key.None? then None else Decrypt(key.value, c)
  }

  /** `held` is the limiter's refusal. */
  function Reveal(s: State, admin: Id, target: Id, master: string, held: bool): (x: (State, Answer))
  {
    if admin !in s.accounts || target !in s.accounts then (s, NotFound)
    else if !s.accounts[admin].isPlatformAdmin && s.accounts[admin].tenant != s.accounts[target].tenant
    then (s, Forbidden)
    else if s.accounts[target].tenant !in s.tenants then (s, NotFound)
    else
      var a := s.accounts[target];
      var t := s.tenants[a.tenant];
      if t.encryptedPrivateKey.None? || t.salt.None? || t.keyHash.None? then (s, NoVault)
      else if held then (s, TooMany)
      else if !Verify(t.keyHash.value, master) then (s, WrongMasterKey)
      else if Overlong(t, a) then (s, Failure)
      else if Stored(t, a).None? then (s, Irrecoverable)
      else
        var s' := s.(accounts := s.accounts[target := a.(encrypted := Stored(t, a))]);
        var p := Unlock(t, Stored(t, a).value, master);
        (s', if p.Some? then Revealed(p.value) else Failure)
  }

  datatype Tally = Tally(recovered: nat, alreadyEncrypted: nat, unrecovered: nat)

  function FillOne(accounts: Accounts, key: PublicKey, id: Id): (x: (Accounts, Tally))
    requires id in accounts
  {
    var a := accounts[id];
    var p := Recover(a.guesses, a.passwordHash);
    if a.encrypted.Some? then (accounts, Tally(0, 1, 0))
    else if p.Some? && p.value != "" && Encrypt(key, p.value).Some? then
      (accounts[id := a.(encrypted := Encrypt(key, p.value))], Tally(1, 0, 0))
    else (accounts, Tally(0, 0, 1))
  }

  function Added(a: Tally, b: Tally): (sum: Tally)
  {
    Tally(a.recovered + b.recovered, a.alreadyEncrypted + b.alreadyEncrypted, a.unrecovered + b.unrecovered)
  }

  /** A password that is found but too long stops the whole backfill. */
  predicate Stops(a: Account)
  {
    var p := Recover(a.guesses, a.passwordHash);
    a.encrypted.None? && p.Some? && p.value != "" && Utf8Length(p.value) > OAEP_LIMIT
  }

  predicate AllIn(accounts: Accounts, ids: seq<Id>)
  {
    forall i :: 0 <= i < |ids| ==> ids[i] in accounts
  }

  function Fill(accounts: Accounts, key: PublicKey, ids: seq<Id>): (x: (Accounts, Tally))
    requires AllIn(accounts, ids)
    ensures x.0.Keys == accounts.Keys
    decreases |ids|
  {
    if ids == [] then (accounts, Tally(0, 0, 0))
    else
      var n := |ids| - 1;
      var (before, tally) := Fill(accounts, key, ids[..n]);
      var (after, one) := FillOne(before, key, ids[n]);
      (after, Added(tally, one))
  }

  /** Each account of the school once. */
  predicate IsRoster(accounts: Accounts, tenantId: Id, ids: seq<Id>)
  {
    && (forall i :: 0 <= i < |ids| ==> ids[i] in accounts && accounts[ids[i]].tenant == tenantId)
    && (forall id :: id in accounts && accounts[id].tenant == tenantId ==> id in ids)
    && forall i, j :: 0 <= i < j < |ids| ==> ids[i] != ids[j]
  }

  /** How far a backfill gets: up to the first account that stops it. */
  function Reach(accounts: Accounts, ids: seq<Id>): (n: nat)
    requires AllIn(accounts, ids)
    ensures n <= |ids|
    ensures n < |ids| ==> Stops(accounts[ids[n]])
    ensures forall i :: 0 <= i < n ==> !Stops(accounts[ids[i]])
    decreases |ids|
  {
    if ids == [] then 0
    else
      var m := |ids| - 1;
      var n := Reach(accounts, ids[..m]);
      if n < m then n else if Stops(accounts[ids[m]]) then m else m + 1
  }

  function Backfill(s: State, tenantId: Id, ids: seq<Id>, r: Random): (x: (State, Answer))
    requires IsRoster(s.accounts, tenantId, ids)
  {
    if tenantId !in s.tenants then (s, NotFound)
    else
      var t := Ensured(s.tenants[tenantId], None, r);
      var n := Reach(s.accounts, ids);
      var (accounts, tally) := Fill(s.accounts, t.publicKey.value, ids[..n]);
      (Tables(s.tenants[tenantId := t], accounts),
       if n < |ids| then Failure else Backfilled(|ids|, tally.recovered, tally.alreadyEncrypted, tally.unrecovered))
  }

  datatype Event =
    | EnsureVault(tenant: Id, initialKey: Option<string>)
    | SetupMasterKey(tenant: Id, newKey: string, currentKey: Option<string>, isPlatformAdmin: bool)
    | ChangePassword(user: Id, oldPassword: string, newPassword: string)
    | RevealPassword(admin: Id, target: Id, master: string, held: bool)
    | BackfillPasswords(tenant: Id, ids: seq<Id>)

  datatype Step = Step(event: Event, random: Random)

  predicate Enabled(s: State, step: Step)
  {
    ProperRandom(step.random) && (step.event.BackfillPasswords? ==>
      IsRoster(s.accounts, step.event.tenant, step.event.ids))
  }

  function Next(s: State, step: Step): (x: (State, Answer))
    requires Enabled(s, step)
  {
    match step.event
    case EnsureVault(tenant, initialKey) => (
      if tenant !in s.tenants then (s, NotFound)
      else
        var t := Ensured(s.tenants[tenant], initialKey, step.random);
        (s.(tenants := s.tenants[tenant := t]),
         Told(t.publicKey.value, KeyTold(s.tenants[tenant], initialKey, step.random))))
    case SetupMasterKey(tenant, newKey, currentKey, isPlatformAdmin) => (
      if tenant !in s.tenants then (s, NotFound)
      else
        var (t, setup) := SetupKey(s.tenants[tenant], newKey, currentKey, isPlatformAdmin, step.random);
        (s.(tenants := s.tenants[tenant := t]), SetupDone(setup)))
    case ChangePassword(user, oldPassword, newPassword) => Change(s, user, oldPassword, newPassword, step.random)
    case RevealPassword(admin, target, master, held) => Reveal(s, admin, target, master, held)
    case BackfillPasswords(tenant, ids) => Backfill(s, tenant, ids, step.random)
  }

  /** For a school that is not there nothing is set up, filled or answered but that. */
  lemma MissingSchoolIsNotFound(s: State, step: Step)
    requires Enabled(s, step)
    requires match step.event
      case EnsureVault(tenant, _) => tenant !in s.tenants
      case SetupMasterKey(tenant, _, _, _) => tenant !in s.tenants
      case BackfillPasswords(tenant, _) => tenant !in s.tenants
      case _ => false
    ensures Next(s, step) == (s, NotFound)
  {
  }

  /** Setting up writes the one school's vault and answers how; the operations on vaults leave all else alone. */
  lemma VaultEventsDo(s: State, step: Step)
    requires Enabled(s, step)
    ensures step.event.EnsureVault? && step.event.tenant in s.tenants ==>
      var t := Ensured(s.tenants[step.event.tenant], step.event.initialKey, step.random);
      var told := KeyTold(s.tenants[step.event.tenant], step.event.initialKey, step.random);
      Next(s, step) == (Tables(s.tenants[step.event.tenant := t], s.accounts), Told(t.publicKey.value, told))
    ensures step.event.SetupMasterKey? && step.event.tenant in s.tenants ==>
      var e := step.event;
      var (t, setup) := SetupKey(s.tenants[e.tenant], e.newKey, e.currentKey, e.isPlatformAdmin, step.random);
      Next(s, step) == (Tables(s.tenants[e.tenant := t], s.accounts), SetupDone(setup))
  {
  }

  // ------------------------------------------------------------------ the invariant

  /** The columns are all set or all empty; the hash is of the key that locks the private half of the public key. */
  predicate VaultOk(t: Tenant)
  {
    && (t.publicKey.Some? <==> t.encryptedPrivateKey.Some?)
    && (t.publicKey.Some? <==> t.salt.Some?)
    && (t.publicKey.Some? <==> t.keyHash.Some?)
    && (t.publicKey.Some? ==>
      t.encryptedPrivateKey.value == Box(AesKey(t.keyHash.value.text, t.salt.value), Priv(t.publicKey.value.pair)))
  }

  predicate TenantsOk(tenants: Tenants)
  {
    forall id :: id in tenants ==> VaultOk(tenants[id])
  }

  /** A ciphertext is for the public key of the account's school. */
  predicate AccountOk(tenants: Tenants, a: Account)
  {
    a.tenant in tenants && (a.encrypted.Some? ==> tenants[a.tenant].publicKey == Some(a.encrypted.value.key))
  }

  predicate AccountsOk(tenants: Tenants, accounts: Accounts)
  {
    forall id :: id in accounts ==> AccountOk(tenants, accounts[id])
  }

  predicate Inv(s: State)
  {
    TenantsOk(s.tenants) && AccountsOk(s.tenants, s.accounts)
  }

  /**
    In a sound vault the hash accepts a key exactly when the key opens the private half
    that pairs with the public key.
   */
  lemma HashAcceptsWhatOpens(t: Tenant, key: string)
    requires VaultOk(t) && HasVault(t)
    ensures Verify(t.keyHash.value, key) <==> Open(t.encryptedPrivateKey.value, AesKey(key, t.salt.value)).Some?
    ensures Verify(t.keyHash.value, key) ==>
      Open(t.encryptedPrivateKey.value, AesKey(key, t.salt.value)) == Some(Priv(t.publicKey.value.pair))
  {
  }

  /** Every operation keeps a public key once it is there. */
  predicate KeysKept(before: Tenants, after: Tenants)
  {
    forall id :: id in before ==>
      id in after && (before[id].publicKey.Some? ==> after[id].publicKey == before[id].publicKey)
  }

  lemma OneTenantChanged(tenants: Tenants, id: Id, t: Tenant)
    requires TenantsOk(tenants) && id in tenants && VaultOk(t)
    requires tenants[id].publicKey.Some? ==> t.publicKey == tenants[id].publicKey
    ensures TenantsOk(tenants[id := t]) && KeysKept(tenants, tenants[id := t])
  {
  }

  lemma AccountsStayOk(before: Tenants, after: Tenants, accounts: Accounts)
    requires AccountsOk(before, accounts) && KeysKept(before, after)
    ensures AccountsOk(after, accounts)
  {
  }

  /** The vaults of the schools but this one are untouched, and so is this one's if it is there. */
  predicate OnlyMissingVaultMade(before: Tenants, after: Tenants, id: Id)
  {
    && after.Keys == before.Keys
    && (forall other :: other in before && other != id ==> after[other] == before[other])
    && (id in before && before[id].publicKey.Some? ==> after[id] == before[id])
  }

  /** A ciphertext of the text for the school's public key, exactly when it has from 1 to 190 bytes. */
  lemma EncryptForIsSound(tenants: Tenants, id: Id, plaintext: string, r: Random)
    requires TenantsOk(tenants)
    ensures
      var (tenants', c) := EncryptFor(tenants, id, plaintext, r);
      && TenantsOk(tenants') && KeysKept(tenants, tenants')
      && (c.Some? <==> id in tenants && plaintext != "" && Utf8Length(plaintext) <= 190)
      && OnlyMissingVaultMade(tenants, tenants', id)
      && (plaintext == "" ==> tenants' == tenants)
      && (plaintext != "" && id in tenants && tenants[id].publicKey.None? ==>
        tenants'[id].publicKey == Some(Pub(r.pair)) && tenants'[id].keyHash == Some(Argon(r.generatedKey)))
      && (c.Some? ==> c.value.plaintext == plaintext && tenants'[id].publicKey == Some(c.value.key))
  {
    if plaintext != "" && id in tenants && tenants[id].publicKey.None? {
      OneTenantChanged(tenants, id, Ensured(tenants[id], None, r));
    }
  }

  lemma {:induction false} FillKeepsOk(tenants: Tenants, accounts: Accounts, key: PublicKey, tenantId: Id, ids: seq<Id>)
    requires AllIn(accounts, ids) && AccountsOk(tenants, accounts)
    requires tenantId in tenants && tenants[tenantId].publicKey == Some(key)
    requires forall i :: 0 <= i < |ids| ==> accounts[ids[i]].tenant == tenantId
    ensures AccountsOk(tenants, Fill(accounts, key, ids).0)
    ensures forall id :: id in accounts ==> Fill(accounts, key, ids).0[id].tenant == accounts[id].tenant
    decreases |ids|
  {
    if ids != [] {
      var n := |ids| - 1;
      FillKeepsOk(tenants, accounts, key, tenantId, ids[..n]);
      assert accounts[ids[n]].tenant == tenantId;
      var before := Fill(accounts, key, ids[..n]).0;
      assert AccountOk(tenants, before[ids[n]]);
    }
  }

  lemma ChangeKeepsInv(s: State, user: Id, oldPassword: string, newPassword: string, r: Random)
    requires Inv(s)
    ensures Inv(Change(s, user, oldPassword, newPassword, r).0)
    ensures KeysKept(s.tenants, Change(s, user, oldPassword, newPassword, r).0.tenants)
  {
    if user in s.accounts {
      var a := s.accounts[user];
      assert AccountOk(s.tenants, a);
      EncryptForIsSound(s.tenants, a.tenant, newPassword, r);
      AccountsStayOk(s.tenants, EncryptFor(s.tenants, a.tenant, newPassword, r).0, s.accounts);
    }
  }

  lemma BackfillKeepsInv(s: State, tenantId: Id, ids: seq<Id>, r: Random)
    requires Inv(s) && IsRoster(s.accounts, tenantId, ids)
    ensures Inv(Backfill(s, tenantId, ids, r).0)
    ensures KeysKept(s.tenants, Backfill(s, tenantId, ids, r).0.tenants)
  {
    if tenantId in s.tenants {
      var t := Ensured(s.tenants[tenantId], None, r);
      var tenants := s.tenants[tenantId := t];
      OneTenantChanged(s.tenants, tenantId, t);
      AccountsStayOk(s.tenants, tenants, s.accounts);
      FillKeepsOk(tenants, s.accounts, t.publicKey.value, tenantId, ids[..Reach(s.accounts, ids)]);
    }
  }

  lemma StepKeepsInv(s: State, step: Step)
    requires Inv(s) && Enabled(s, step)
    ensures Inv(Next(s, step).0) && KeysKept(s.tenants, Next(s, step).0.tenants)
  {
    var e, r := step.event, step.random;
    var s' := Next(s, step).0;
    match e {
      case EnsureVault(tenant, initialKey) =>
        if tenant in s.tenants {
          OneTenantChanged(s.tenants, tenant, s'.tenants[tenant]);
        }
      case SetupMasterKey(tenant, newKey, currentKey, isPlatformAdmin) =>
        if tenant in s.tenants {
          OneTenantChanged(s.tenants, tenant, s'.tenants[tenant]);
        }
      case ChangePassword(user, oldPassword, newPassword) =>
        ChangeKeepsInv(s, user, oldPassword, newPassword, r);
      case RevealPassword(admin, target, master, held) =>
        assert target in s.accounts ==> AccountOk(s.tenants, s.accounts[target]);
      case BackfillPasswords(tenant, ids) =>
        BackfillKeepsInv(s, tenant, ids, r);
    }
    AccountsStayOk(s.tenants, s'.tenants, s.accounts);
  }

  // ------------------------------------------------------------------ first keys and rotation

  function MasterKey(t: Tenant): (key: string)
    requires t.keyHash.Some?
  {
    t.keyHash.value.text
  }

  /**
    Changing the master key works exactly for the current key, for a platform
    administrator as for anyone; then the new key and only it opens the same pair.
    Anything else changes nothing.
   */
  lemma RotationNeedsCurrentKey(t: Tenant, newKey: string, currentKey: Option<string>, isPlatformAdmin: bool, r: Random)
    requires VaultOk(t) && HasVault(t)
    ensures
      var (t', setup) := SetupKey(t, newKey, currentKey, isPlatformAdmin, r);
      && VaultOk(t') && t'.publicKey == t.publicKey
      && (setup == Rotated <==> currentKey == Some(MasterKey(t)) && currentKey.value != "")
      && (setup == Rotated ==> MasterKey(t') == newKey && t'.salt == Some(r.salt))
      && (setup != Rotated ==> t' == t)
      && (setup == KeyRequired <==> currentKey.None? || currentKey.value == "")
      && (setup == WrongKey || setup == Broken ==> setup == if isPlatformAdmin then Broken else WrongKey)
      && setup != Initialized
  {
  }

  lemma {:induction false} TrimEmptyIffBlank(s: string)
    ensures Trim(s) == "" <==> forall i :: 0 <= i < |s| ==> Blank(s[i])
    decreases |s|
  {
    if s != "" {
      if Blank(s[0]) {
        TrimEmptyIffBlank(s[1..]);
        assert forall i :: 1 <= i < |s| ==> s[i] == s[1..][i - 1];
      } else if Blank(s[|s| - 1]) {
        TrimEmptyIffBlank(s[..|s| - 1]);
        assert s[..|s| - 1] != "" && s[..|s| - 1][0] == s[0];
      }
    }
  }

  lemma {:induction false} TrimShortens(s: string)
    ensures |Trim(s)| <= |s|
    decreases |s|
  {
    if s != "" {
      if Blank(s[0]) {
        TrimShortens(s[1..]);
      } else if Blank(s[|s| - 1]) {
        TrimShortens(s[..|s| - 1]);
      }
    }
  }

  lemma TrimKeepsIffClean(s: string)
    ensures Trim(s) == s <==> s == "" || (!Blank(s[0]) && !Blank(s[|s| - 1]))
  {
    if s != "" {
      TrimShortens(s[1..]);
      TrimShortens(s[..|s| - 1]);
    }
  }

  predicate AllBlank(s: string)
  {
    forall i :: 0 <= i < |s| ==> Blank(s[i])
  }

  lemma BlankAtFront(s: string, front: string, rest: string)
    requires s != "" && Blank(s[0]) && s[1..] == front + rest && AllBlank(front)
    ensures s == ([s[0]] + front) + rest && AllBlank([s[0]] + front)
  {
    assert s == [s[0]] + s[1..];
  }

  lemma BlankAtBack(s: string, rest: string, back: string)
    requires s != "" && Blank(s[|s| - 1]) && s[..|s| - 1] == rest + back && AllBlank(back)
    ensures s == rest + (back + [s[|s| - 1]]) && AllBlank(back + [s[|s| - 1]])
  {
    assert s == s[..|s| - 1] + [s[|s| - 1]];
  }

  /** Trimming takes off the blanks at both ends and nothing else. */
  lemma {:induction false} TrimTakesBlanksOff(s: string) returns (front: string, back: string)
    ensures s == front + Trim(s) + back && AllBlank(front) && AllBlank(back)
    ensures Trim(s) != "" ==> !Blank(Trim(s)[0]) && !Blank(Trim(s)[|Trim(s)| - 1])
    decreases |s|
  {
    if s == "" {
      return "", "";
    }
    if Blank(s[0]) {
      front, back := TrimTakesBlanksOff(s[1..]);
      assert s[1..] == front + (Trim(s) + back);
      BlankAtFront(s, front, Trim(s) + back);
      front := [s[0]] + front;
    } else if Blank(s[|s| - 1]) {
      front, back := TrimTakesBlanksOff(s[..|s| - 1]);
      BlankAtBack(s, front + Trim(s), back);
      back := back + [s[|s| - 1]];
    } else {
      front, back := "", "";
    }
  }

  /**
    A school without a vault gets one under the trimmed key or a generated one, which is
    told only to a caller who gave none; a vault that is there stays and nothing is told.
   */
  lemma EnsureVaultDoes(t: Tenant, given: Option<string>, r: Random)
    requires ProperRandom(r)
    ensures HasVault(t) ==> Ensured(t, given, r) == t && KeyTold(t, given, r) == None
    ensures !HasVault(t) ==>
      var t' := Ensured(t, given, r);
      && t'.publicKey == Some(Pub(r.pair)) && t'.salt == Some(r.salt) && t'.keyHash.Some?
      && t'.encryptedPrivateKey == Some(Box(AesKey(MasterKey(t'), r.salt), Priv(r.pair)))
      && MasterKey(t') == (if given.Some? && !AllBlank(given.value) then Trim(given.value) else r.generatedKey)
      && KeyTold(t, given, r) == (if given.None? || given.value == "" then Some(MasterKey(t')) else None)
  {
    if given.Some? {
      TrimEmptyIffBlank(given.value);
    }
  }

  /**
    The first setup trims the key, so the key that was typed opens the vault if and
    only if it has no blank at either end and is not empty.  A blank key is replaced
    by a generated one that nobody is told.
   */
  lemma FirstKeyOpensIffTrimmed(t: Tenant, newKey: string, currentKey: Option<string>, isPlatformAdmin: bool, r: Random)
    requires VaultOk(t) && !HasVault(t) && ProperRandom(r)
    ensures
      var (t', setup) := SetupKey(t, newKey, currentKey, isPlatformAdmin, r);
      && setup == Initialized && VaultOk(t') && HasVault(t')
      && (Verify(t'.keyHash.value, newKey) <==> newKey != "" && !Blank(newKey[0]) && !Blank(newKey[|newKey| - 1]))
    ensures (forall i :: 0 <= i < |newKey| ==> Blank(newKey[i])) ==>
      MasterKey(SetupKey(t, newKey, currentKey, isPlatformAdmin, r).0) == r.generatedKey &&
      (newKey != "" ==> KeyTold(t, Some(newKey), r).None?)
  {
    TrimEmptyIffBlank(newKey);
    TrimKeepsIffClean(newKey);
  }

  // ------------------------------------------------------------------ reveal

  /** The stored ciphertext is of this password. */
  predicate Holds(a: Account, password: string)
  {
    a.encrypted.Some? && a.encrypted.value.plaintext == password
  }

  predicate UpToDate(s: State, user: Id)
  {
    user in s.accounts && Holds(s.accounts[user], s.accounts[user].passwordHash.text)
  }

  /** No ciphertext yet, but the password is one of the standard ones. */
  predicate Recoverable(a: Account)
  {
    a.encrypted.None? && a.passwordHash.text in a.guesses && Encryptable(a.passwordHash.text)
  }

  predicate MayReveal(s: State, admin: Id, target: Id)
  {
    && admin in s.accounts && target in s.accounts
    && (s.accounts[admin].isPlatformAdmin || s.accounts[admin].tenant == s.accounts[target].tenant)
  }

  /**
    Reveal answers with the current password if and only if the caller may ask, gives
    the school's current master key, and the stored ciphertext is of that password or
    can be made now.
   */
  lemma RevealIffCurrent(s: State, admin: Id, target: Id, master: string)
    requires Inv(s) && MayReveal(s, admin, target)
    ensures
      var a := s.accounts[target];
      var t := s.tenants[a.tenant];
      Reveal(s, admin, target, master, false).1 == Revealed(a.passwordHash.text) <==>
        HasVault(t) && master == MasterKey(t) && (UpToDate(s, target) || Recoverable(a))
  {
    var a := s.accounts[target];
    assert AccountOk(s.tenants, a);
    assert VaultOk(s.tenants[a.tenant]);
    RecoverFindsPassword(a.guesses, a.passwordHash);
  }

  /** Nothing is revealed across schools, or without the current key. */
  lemma RevealNeedsKeyAndSchool(s: State, admin: Id, target: Id, master: string, held: bool)
    requires Inv(s) && Reveal(s, admin, target, master, held).1.Revealed?
    ensures MayReveal(s, admin, target) && !held
    ensures HasVault(s.tenants[s.accounts[target].tenant]) && master == MasterKey(s.tenants[s.accounts[target].tenant])
  {
  }

  /** The answer to a request to reveal, from the rows alone; only a recovered ciphertext is written. */
  lemma RevealDoes(s: State, admin: Id, target: Id, master: string, held: bool)
    requires Inv(s)
    ensures
      var (s', answer) := Reveal(s, admin, target, master, held);
      && (answer == NotFound <==> admin !in s.accounts || target !in s.accounts)
      && (answer == Forbidden <==> admin in s.accounts && target in s.accounts && !MayReveal(s, admin, target))
      && s'.tenants == s.tenants && s'.accounts.Keys == s.accounts.Keys
      && (forall id :: id in s.accounts && id != target ==> s'.accounts[id] == s.accounts[id])
      && (MayReveal(s, admin, target) ==>
        var a, t := s.accounts[target], s.tenants[s.accounts[target].tenant];
        var unlocked := HasVault(t) && !held && master == MasterKey(t);
        && (answer == NoVault <==> !HasVault(t)) && (answer == TooMany <==> HasVault(t) && held)
        && (answer == WrongMasterKey <==> HasVault(t) && !held && master != MasterKey(t))
        && (a.encrypted.Some? ==> s' == s && (unlocked ==> answer == Revealed(a.encrypted.value.plaintext)))
        && (a.encrypted.None? ==>
          if unlocked && Recoverable(a) then
            && answer == Revealed(a.passwordHash.text)
            && s'.accounts[target] == a.(encrypted := Some(Rsa(t.publicKey.value, a.passwordHash.text)))
          else
            && s' == s
            && (unlocked ==> answer == if a.passwordHash.text in a.guesses && a.passwordHash.text != ""
                then Failure else Irrecoverable)))
  {
    if MayReveal(s, admin, target) {
      var a := s.accounts[target];
      assert AccountOk(s.tenants, a);
      assert VaultOk(s.tenants[a.tenant]);
      RecoverFindsPassword(a.guesses, a.passwordHash);
    }
  }

  /** An account whose school is gone is not found, and a box that the accepted key does not open is a failure. */
  lemma DamagedAccountIs(s: State, admin: Id, target: Id, master: string)
    requires MayReveal(s, admin, target)
    ensures
      var a := s.accounts[target];
      var (s', answer) := Reveal(s, admin, target, master, false);
      && (a.tenant !in s.tenants ==> s' == s && answer == NotFound)
      && (a.tenant in s.tenants && answer != NoVault && a.encrypted.Some? &&
          s.tenants[a.tenant].keyHash == Some(Argon(master)) &&
          s.tenants[a.tenant].encryptedPrivateKey.value.lockedWith.master != master
        ==> answer == Failure)
  {
  }

  /** A vault without hash cannot test a key, and one without salt cannot open its box. */
  lemma DamagedVaultIs(t: Tenant, newKey: string, currentKey: string, r: Random)
    requires HasVault(t) && currentKey != ""
    ensures t.keyHash.None? ==> SetupKey(t, newKey, Some(currentKey), false, r) == (t, Broken)
    ensures t.salt.None? && t.keyHash == Some(Argon(currentKey)) ==>
      SetupKey(t, newKey, Some(currentKey), false, r) == (t, KeyRequired)
  {
  }

  // ------------------------------------------------------------------ password changes

  /**
    A password is changed if and only if the account is there and the old password is
    the one its hash was made from; otherwise nothing changes.  Then the hash is of the
    new password, and the ciphertext too when the new password can be encrypted.
   */
  lemma ChangeIff(s: State, user: Id, oldPassword: string, newPassword: string, r: Random)
    requires Inv(s)
    ensures
      var (s', answer) := Change(s, user, oldPassword, newPassword, r);
      && (answer == PasswordChanged <==>
        user in s.accounts && s.accounts[user].passwordHash == Argon(oldPassword))
      && (answer != PasswordChanged ==> s' == s && answer == if user in s.accounts then BadPassword else NotFound)
      && (answer == PasswordChanged ==>
        var a := s.accounts[user];
        && s'.accounts.Keys == s.accounts.Keys && OnlyMissingVaultMade(s.tenants, s'.tenants, a.tenant)
        && (forall id :: id in s.accounts && id != user ==> s'.accounts[id] == s.accounts[id])
        && s'.accounts[user] == Account(a.tenant, a.isPlatformAdmin, Argon(newPassword),
          if Encryptable(newPassword) && s'.tenants[a.tenant].publicKey.Some?
          then Some(Rsa(s'.tenants[a.tenant].publicKey.value, newPassword)) else a.encrypted, a.guesses)
        && (Encryptable(newPassword) ==> s'.tenants[a.tenant].publicKey.Some?))
  {
    if user in s.accounts {
      assert AccountOk(s.tenants, s.accounts[user]);
      assert VaultOk(s.tenants[s.accounts[user].tenant]);
    }
  }

  /**
    After a password change the vault holds the new password if and only if the new
    password can be encrypted, or the vault held it before; else the old ciphertext stays.
   */
  lemma ChangeKeepsVaultCurrentIff(s: State, user: Id, oldPassword: string, newPassword: string, r: Random)
    requires Inv(s) && Change(s, user, oldPassword, newPassword, r).1 == PasswordChanged
    ensures
      var s' := Change(s, user, oldPassword, newPassword, r).0;
      && s'.accounts[user].passwordHash == Argon(newPassword)
      && (UpToDate(s', user) <==> (Encryptable(newPassword) || Holds(s.accounts[user], newPassword)))
      && (!Encryptable(newPassword) ==> s'.accounts[user].encrypted == s.accounts[user].encrypted)
  {
  }

  /** So an overlong new password leaves the old one to be revealed. */
  lemma OverlongPasswordRevealsOldOne(s: State, admin: Id, user: Id, oldPassword: string, newPassword: string,
      r: Random)
    requires Inv(s) && MayReveal(s, admin, user) && UpToDate(s, user)
    requires Verify(s.accounts[user].passwordHash, oldPassword)
    requires Utf8Length(newPassword) > OAEP_LIMIT
    ensures
      var s' := Change(s, user, oldPassword, newPassword, r).0;
      var key := s'.tenants[s'.accounts[user].tenant].keyHash;
      key.Some? && Reveal(s', admin, user, key.value.text, false).1 == Revealed(oldPassword)
  {
    ChangeKeepsInv(s, user, oldPassword, newPassword, r);
    ChangeKeepsVaultCurrentIff(s, user, oldPassword, newPassword, r);
    var s' := Change(s, user, oldPassword, newPassword, r).0;
    assert AccountOk(s'.tenants, s'.accounts[user]);
    assert VaultOk(s'.tenants[s'.accounts[user].tenant]);
  }

  // ------------------------------------------------------------------ backfill

  lemma FillOneAt(accounts: Accounts, key: PublicKey, ids: seq<Id>, n: nat)
    requires n < |ids| && AllIn(accounts, ids) && !Stops(accounts[ids[n]])
    requires Fill(accounts, key, ids[..n]).0[ids[n]] == accounts[ids[n]]
    ensures
      var before := Fill(accounts, key, ids[..n]).0;
      var a := accounts[ids[n]];
      FillOne(before, key, ids[n]).0 ==
        (if Recoverable(a) then before[ids[n] := a.(encrypted := Some(Rsa(key, a.passwordHash.text)))] else before)
  {
    var a := accounts[ids[n]];
    RecoverFindsPassword(a.guesses, a.passwordHash);
  }

  /** Up to this position, the accounts that already have a ciphertext, and those that get one. */
  function Places(accounts: Accounts, ids: seq<Id>, encrypted: bool): (places: set<nat>)
    requires AllIn(accounts, ids)
  {
    set i: nat | i < |ids| && (if encrypted then accounts[ids[i]].encrypted.Some? else Recoverable(accounts[ids[i]]))
  }

  lemma PlacesGrow(accounts: Accounts, ids: seq<Id>, encrypted: bool)
    requires AllIn(accounts, ids) && ids != []
    ensures var n := |ids| - 1;
      var hit := if encrypted then accounts[ids[n]].encrypted.Some? else Recoverable(accounts[ids[n]]);
      |Places(accounts, ids, encrypted)| == |Places(accounts, ids[..n], encrypted)| + if hit then 1 else 0
  {
    var n := |ids| - 1;
    var before, after := Places(accounts, ids[..n], encrypted), Places(accounts, ids, encrypted);
    var hit := if encrypted then accounts[ids[n]].encrypted.Some? else Recoverable(accounts[ids[n]]);
    assert after == if hit then before + {n} else before;
  }

  lemma FillOneTally(accounts: Accounts, key: PublicKey, id: Id)
    requires id in accounts && !Stops(accounts[id])
    ensures FillOne(accounts, key, id).1 ==
      if accounts[id].encrypted.Some? then Tally(0, 1, 0)
      else if Recoverable(accounts[id]) then Tally(1, 0, 0)
      else Tally(0, 0, 1)
  {
    RecoverFindsPassword(accounts[id].guesses, accounts[id].passwordHash);
  }

  /** A backfill counts every account once; it encrypts exactly the recoverable ones and touches no other. */
  lemma {:induction false} FillCounts(accounts: Accounts, key: PublicKey, ids: seq<Id>)
    requires AllIn(accounts, ids)
    requires forall i, j :: 0 <= i < j < |ids| ==> ids[i] != ids[j]
    requires forall i :: 0 <= i < |ids| ==> !Stops(accounts[ids[i]])
    ensures
      var (_, tally) := Fill(accounts, key, ids);
      tally.recovered + tally.alreadyEncrypted + tally.unrecovered == |ids|
    ensures forall id :: id in accounts ==>
      Fill(accounts, key, ids).0[id] ==
        var a := accounts[id];
        if id in ids && Recoverable(a) then a.(encrypted := Some(Rsa(key, a.passwordHash.text))) else a
    decreases |ids|
  {
    if ids != [] {
      var n := |ids| - 1;
      FillCounts(accounts, key, ids[..n]);
      var a := accounts[ids[n]];
      assert ids[n] !in ids[..n];
      RecoverFindsPassword(a.guesses, a.passwordHash);
      FillOneAt(accounts, key, ids, n);
    }
  }

  /** Each of the three counts is what it is called. */
  lemma {:induction false} TallyIsExact(accounts: Accounts, key: PublicKey, ids: seq<Id>)
    requires AllIn(accounts, ids)
    requires forall i, j :: 0 <= i < j < |ids| ==> ids[i] != ids[j]
    requires forall i :: 0 <= i < |ids| ==> !Stops(accounts[ids[i]])
    ensures
      var (_, tally) := Fill(accounts, key, ids);
      && tally.recovered == |Places(accounts, ids, false)| && tally.alreadyEncrypted == |Places(accounts, ids, true)|
      && tally.unrecovered == |ids| - tally.recovered - tally.alreadyEncrypted
    decreases |ids|
  {
    if ids != [] {
      var n := |ids| - 1;
      TallyIsExact(accounts, key, ids[..n]);
      FillCounts(accounts, key, ids[..n]);
      PlacesGrow(accounts, ids, false);
      PlacesGrow(accounts, ids, true);
      assert ids[n] !in ids[..n];
      FillOneTally(Fill(accounts, key, ids[..n]).0, key, ids[n]);
    }
  }

  /** The password that stops a backfill is a standard one of more than 190 bytes. */
  lemma StopsIff(a: Account)
    ensures Stops(a) <==>
      a.encrypted.None? && a.passwordHash.text in a.guesses && Utf8Length(a.passwordHash.text) > 190
    ensures Encryptable(a.passwordHash.text) <==> 0 < |a.passwordHash.text| && Utf8Length(a.passwordHash.text) <= 190
  {
    RecoverFindsPassword(a.guesses, a.passwordHash);
  }

  /** An account further down the roster is as it was. */
  lemma FillLeavesRest(accounts: Accounts, key: PublicKey, ids: seq<Id>, n: nat)
    requires n < |ids| && AllIn(accounts, ids) && n <= Reach(accounts, ids)
    requires forall i, j :: 0 <= i < j < |ids| ==> ids[i] != ids[j]
    ensures Fill(accounts, key, ids[..n]).0[ids[n]] == accounts[ids[n]]
  {
    FillCounts(accounts, key, ids[..n]);
    assert ids[n] !in ids[..n];
  }

  lemma FillNext(accounts: Accounts, key: PublicKey, ids: seq<Id>, n: nat)
    requires n < |ids| && AllIn(accounts, ids)
    ensures var (before, tally) := Fill(accounts, key, ids[..n]);
      var (after, one) := FillOne(before, key, ids[n]);
      Fill(accounts, key, ids[..n + 1]) == (after, Added(tally, one))
  {
    assert ids[..n + 1][..n] == ids[..n];
  }

  predicate Begins(accounts: Accounts, ids: seq<Id>, id: Id)
    requires AllIn(accounts, ids)
  {
    exists i :: 0 <= i < |ids| && ids[i] == id && forall k :: 0 <= k <= i ==> !Stops(accounts[ids[k]])
  }

  lemma ReachedIffBegins(accounts: Accounts, ids: seq<Id>, id: Id)
    requires AllIn(accounts, ids)
    ensures id in ids[..Reach(accounts, ids)] <==> Begins(accounts, ids, id)
  {
    var n := Reach(accounts, ids);
    if id in ids[..n] {
      var i :| 0 <= i < n && ids[..n][i] == id;
      assert ids[i] == id;
    }
    if Begins(accounts, ids, id) {
      var i :| 0 <= i < |ids| && ids[i] == id && forall k :: 0 <= k <= i ==> !Stops(accounts[ids[k]]);
      assert i < n;
      assert ids[..n][i] == id;
    }
  }

  /** The recoverable accounts up to the first that stops the backfill have a ciphertext, the others are as before. */
  predicate EncryptsUpToStop(before: Accounts, after: Accounts, key: PublicKey, ids: seq<Id>)
    requires AllIn(before, ids)
  {
    && after.Keys == before.Keys
    && forall id :: id in before ==>
      after[id] ==
        if Begins(before, ids, id) && Recoverable(before[id])
        then before[id].(encrypted := Some(Rsa(key, before[id].passwordHash.text))) else before[id]
  }

  lemma FillEncryptsUpToStop(accounts: Accounts, key: PublicKey, ids: seq<Id>)
    requires AllIn(accounts, ids) && forall i, j :: 0 <= i < j < |ids| ==> ids[i] != ids[j]
    ensures EncryptsUpToStop(accounts, Fill(accounts, key, ids[..Reach(accounts, ids)]).0, key, ids)
  {
    var n := Reach(accounts, ids);
    FillCounts(accounts, key, ids[..n]);
    forall id | id in accounts
      ensures id in ids[..n] <==> Begins(accounts, ids, id)
    {
      ReachedIffBegins(accounts, ids, id);
    }
  }

  predicate SomeStops(accounts: Accounts, ids: seq<Id>)
    requires AllIn(accounts, ids)
  {
    exists i :: 0 <= i < |ids| && Stops(accounts[ids[i]])
  }

  /** A backfill makes the school's vault if it has none and encrypts what it can. */
  lemma BackfillDoes(s: State, tenantId: Id, ids: seq<Id>, r: Random)
    requires Inv(s) && IsRoster(s.accounts, tenantId, ids)
    ensures
      var s' := Backfill(s, tenantId, ids, r).0;
      if tenantId !in s.tenants then s' == s
      else
        && OnlyMissingVaultMade(s.tenants, s'.tenants, tenantId) && s'.tenants[tenantId].publicKey.Some?
        && EncryptsUpToStop(s.accounts, s'.accounts, s'.tenants[tenantId].publicKey.value, ids)
  {
    if tenantId in s.tenants {
      assert VaultOk(s.tenants[tenantId]);
      var t := Ensured(s.tenants[tenantId], None, r);
      FillEncryptsUpToStop(s.accounts, t.publicKey.value, ids);
    }
  }

  /** It tells its counts if and only if no account stops it. */
  lemma BackfillAnswers(s: State, tenantId: Id, ids: seq<Id>, r: Random)
    requires IsRoster(s.accounts, tenantId, ids)
    ensures
      var answer := Backfill(s, tenantId, ids, r).1;
      && (answer == NotFound <==> tenantId !in s.tenants)
      && (answer == Failure <==> tenantId in s.tenants && SomeStops(s.accounts, ids))
      && (tenantId in s.tenants && !SomeStops(s.accounts, ids) ==>
        && answer.Backfilled? && answer.total == |ids|
        && answer.recovered == |Places(s.accounts, ids, false)|
        && answer.alreadyEncrypted == |Places(s.accounts, ids, true)|
        && answer.recovered + answer.alreadyEncrypted + answer.unrecovered == |ids|)
  {
    var n := Reach(s.accounts, ids);
    if tenantId in s.tenants && n == |ids| {
      assert ids[..n] == ids;
      TallyIsExact(s.accounts, Ensured(s.tenants[tenantId], None, r).publicKey.value, ids);
    }
  }

  // ------------------------------------------------------------------ runs

  function Run(s: State, steps: seq<Step>): (s': State)
    requires AllEnabled(s, steps)
    decreases |steps|, 1
  {
    if steps == [] then s else Next(Run(s, steps[..|steps| - 1]), steps[|steps| - 1]).0
  }

  predicate AllEnabled(s: State, steps: seq<Step>)
    decreases |steps|, 0
  {
    steps == [] || (
      && AllEnabled(s, steps[..|steps| - 1])
      && Enabled(Run(s, steps[..|steps| - 1]), steps[|steps| - 1]))
  }

  lemma {:induction false} FillKeepsHashes(accounts: Accounts, key: PublicKey, ids: seq<Id>, id: Id)
    requires AllIn(accounts, ids) && id in accounts
    ensures Fill(accounts, key, ids).0[id].passwordHash == accounts[id].passwordHash
    decreases |ids|
  {
    if ids != [] {
      FillKeepsHashes(accounts, key, ids[..|ids| - 1], id);
    }
  }

  /** The step is a password change of the user that gives the password of now. */
  predicate GivesPassword(s: State, e: Event, user: Id)
  {
    e.ChangePassword? && e.user == user && user in s.accounts && s.accounts[user].passwordHash == Argon(e.oldPassword)
  }

  lemma StepKeepsPasswordUnlessGiven(s: State, step: Step, user: Id)
    requires Inv(s) && Enabled(s, step) && user in s.accounts
    ensures user in Next(s, step).0.accounts
    ensures Next(s, step).0.accounts[user].passwordHash == s.accounts[user].passwordHash ||
      (GivesPassword(s, step.event, user) &&
        Next(s, step).0.accounts[user].passwordHash == Argon(step.event.newPassword))
  {
    var e := step.event;
    if e.ChangePassword? {
      ChangeIff(s, e.user, e.oldPassword, e.newPassword, step.random);
    } else if e.BackfillPasswords? && e.tenant in s.tenants {
      var key := Ensured(s.tenants[e.tenant], None, step.random).publicKey.value;
      FillKeepsHashes(s.accounts, key, e.ids[..Reach(s.accounts, e.ids)], user);
    }
  }

  lemma {:induction false} RunKeepsInv(s: State, steps: seq<Step>)
    requires Inv(s) && AllEnabled(s, steps)
    ensures Inv(Run(s, steps))
    decreases |steps|
  {
    if steps != [] {
      RunKeepsInv(s, steps[..|steps| - 1]);
      StepKeepsInv(Run(s, steps[..|steps| - 1]), steps[|steps| - 1]);
    }
  }

  /** Over any run a password stays what it is but for steps that give the password of that moment. */
  lemma {:induction false} PasswordChangesOnlyWhenGiven(s: State, steps: seq<Step>, user: Id)
    requires Inv(s) && AllEnabled(s, steps) && user in s.accounts
    ensures user in Run(s, steps).accounts
    ensures (forall i :: 0 <= i < |steps| && AllEnabled(s, steps[..i]) ==>
        !GivesPassword(Run(s, steps[..i]), steps[i].event, user)) ==>
      Run(s, steps).accounts[user].passwordHash == s.accounts[user].passwordHash
    decreases |steps|
  {
    if steps != [] {
      var n := |steps| - 1;
      PasswordChangesOnlyWhenGiven(s, steps[..n], user);
      RunKeepsInv(s, steps[..n]);
      StepKeepsPasswordUnlessGiven(Run(s, steps[..n]), steps[n], user);
      assert forall i :: 0 <= i < n ==> steps[..n][..i] == steps[..i];
    }
  }

  predicate EncryptableChange(e: Event, user: Id)
  {
    e.ChangePassword? && e.user == user ==> Encryptable(e.newPassword)
  }

  lemma StepKeepsUpToDate(s: State, step: Step, user: Id)
    requires Inv(s) && Enabled(s, step) && UpToDate(s, user) && EncryptableChange(step.event, user)
    ensures UpToDate(Next(s, step).0, user)
  {
    var e, r := step.event, step.random;
    if e.ChangePassword? && Next(s, step).1 == PasswordChanged {
      ChangeKeepsVaultCurrentIff(s, e.user, e.oldPassword, e.newPassword, r);
    } else if e.BackfillPasswords? && e.tenant in s.tenants {
      var ids := e.ids[..Reach(s.accounts, e.ids)];
      var key := Ensured(s.tenants[e.tenant], None, r).publicKey.value;
      FillCounts(s.accounts, key, ids);
    }
  }

  lemma {:induction false} RunKeepsUpToDate(s: State, steps: seq<Step>, user: Id)
    requires Inv(s) && AllEnabled(s, steps) && UpToDate(s, user)
    requires forall i :: 0 <= i < |steps| ==> EncryptableChange(steps[i].event, user)
    ensures UpToDate(Run(s, steps), user)
    decreases |steps|
  {
    if steps != [] {
      var n := |steps| - 1;
      RunKeepsUpToDate(s, steps[..n], user);
      RunKeepsInv(s, steps[..n]);
      StepKeepsUpToDate(Run(s, steps[..n]), steps[n], user);
    }
  }

  /**
    After any run of key rotations, password changes, reveals and backfills in which
    the user's new passwords can be encrypted, the school's current master key, and no
    other, reveals the latest password.
   */
  lemma CurrentKeyRevealsLatestPassword(s: State, steps: seq<Step>, admin: Id, user: Id, master: string)
    requires Inv(s) && AllEnabled(s, steps) && UpToDate(s, user)
    requires forall i :: 0 <= i < |steps| ==> EncryptableChange(steps[i].event, user)
    requires MayReveal(Run(s, steps), admin, user)
    ensures
      var s' := Run(s, steps);
      && s'.accounts[user].tenant in s'.tenants
      && var t := s'.tenants[s'.accounts[user].tenant];
      && HasVault(t) && VaultOk(t)
      && (Reveal(s', admin, user, master, false).1 == Revealed(s'.accounts[user].passwordHash.text) <==>
        master == MasterKey(t))
  {
    RunKeepsInv(s, steps);
    RunKeepsUpToDate(s, steps, user);
    var s' := Run(s, steps);
    assert AccountOk(s'.tenants, s'.accounts[user]);
    assert VaultOk(s'.tenants[s'.accounts[user].tenant]);
    RevealIffCurrent(s', admin, user, master);
  }

  // ------------------------------------------------------------------ the service

  class PasswordVaultService {
    var tenants: Tenants
    var accounts: Accounts

    constructor (tenants: Tenants, accounts: Accounts)
      ensures this.tenants == tenants && this.accounts == accounts
    {
      this.tenants := tenants;
      this.accounts := accounts;
    }

    ghost function Current(): (s: State)
      reads this
    {
      Tables(tenants, accounts)
    }

    method EnsureTenantVault(tenantId: Id, initialMasterKey: Option<string>, r: Random) returns (answer: Answer)
      requires ProperRandom(r)
      modifies this`tenants
      ensures (Current(), answer) == Next(old(Current()), Step(EnsureVault(tenantId, initialMasterKey), r))
    {
      if tenantId !in tenants {
        return NotFound;
      }
      var tenant := tenants[tenantId];
      assert tenants[tenantId := tenant] == tenants;
      if tenant.publicKey.Some? && tenant.encryptedPrivateKey.Some? {
        return Told(tenant.publicKey.value, None);
      }
      var masterKey := r.generatedKey;
      if initialMasterKey.Some? && Trim(initialMasterKey.value) != "" {
        masterKey := Trim(initialMasterKey.value);
      }
      var boxed := Box(AesKey(masterKey, r.salt), Priv(r.pair));
      tenants := tenants[tenantId := Tenant(Some(Pub(r.pair)), Some(boxed), Some(r.salt), Some(Argon(masterKey)))];
      var given := initialMasterKey.Some? && initialMasterKey.value != "";
      answer := Told(Pub(r.pair), if given then None else Some(masterKey));
    }

    method SetupKeyOf(tenantId: Id, newMasterKey: string, currentMasterKey: Option<string>,
        isPlatformAdmin: bool, r: Random)
      returns (answer: Answer)
      requires ProperRandom(r)
      modifies this`tenants
      ensures (Current(), answer) ==
        Next(old(Current()), Step(SetupMasterKey(tenantId, newMasterKey, currentMasterKey, isPlatformAdmin), r))
    {
      if tenantId !in tenants {
        return NotFound;
      }
      var tenant := tenants[tenantId];
      if !(tenant.publicKey.Some? && tenant.encryptedPrivateKey.Some?) {
        var _ := EnsureTenantVault(tenantId, Some(newMasterKey), r);
        return SetupDone(Initialized);
      }
      assert tenants[tenantId := tenant] == tenants;
      if !isPlatformAdmin {
        if currentMasterKey.None? || currentMasterKey.value == "" {
          return SetupDone(KeyRequired);
        }
        if tenant.keyHash.None? {
          return SetupDone(Broken);
        }
        if !Verify(tenant.keyHash.value, currentMasterKey.value) {
          return SetupDone(WrongKey);
        }
      }
      if currentMasterKey.None? || currentMasterKey.value == "" || tenant.salt.None? {
        return SetupDone(KeyRequired);
      }
      var privateKey := Open(tenant.encryptedPrivateKey.value, AesKey(currentMasterKey.value, tenant.salt.value));
      if privateKey.None? {
        return SetupDone(Broken);
      }
      tenants := tenants[tenantId := tenant.(
        encryptedPrivateKey := Some(Box(AesKey(newMasterKey, r.salt), privateKey.value)),
        salt := Some(r.salt), keyHash := Some(Argon(newMasterKey)))];
      answer := SetupDone(Rotated);
    }

    method EncryptPasswordForTenant(tenantId: Id, plaintext: string, r: Random) returns (encrypted: Option<Cipher>)
      requires ProperRandom(r)
      modifies this`tenants
      ensures (tenants, encrypted) == EncryptFor(old(tenants), tenantId, plaintext, r)
    {
      if plaintext == "" {
        return None;
      }
      if tenantId in tenants && tenants[tenantId].publicKey.Some? {
        return Encrypt(tenants[tenantId].publicKey.value, plaintext);
      }
      var vault := EnsureTenantVault(tenantId, None, r);
      if vault.NotFound? {
        return None;
      }
      encrypted := Encrypt(vault.publicKey, plaintext);
    }

    method ChangePasswordOf(userId: Id, oldPassword: string, newPassword: string, r: Random) returns (answer: Answer)
      requires ProperRandom(r)
      modifies this
      ensures (Current(), answer) == Next(old(Current()), Step(ChangePassword(userId, oldPassword, newPassword), r))
    {
      if userId !in accounts {
        return NotFound;
      }
      var user := accounts[userId];
      if !Verify(user.passwordHash, oldPassword) {
        return BadPassword;
      }
      var encrypted := EncryptPasswordForTenant(user.tenant, newPassword, r);
      user := user.(passwordHash := Argon(newPassword));
      if encrypted.Some? {
        user := user.(encrypted := encrypted);
      }
      accounts := accounts[userId := user];
      answer := PasswordChanged;
    }

    method TryRecoverPlaintext(user: Account) returns (plaintext: Option<string>)
      ensures plaintext == Recover(user.guesses, user.passwordHash)
    {
      for i := 0 to |user.guesses|
        invariant Recover(user.guesses, user.passwordHash) == Recover(user.guesses[i..], user.passwordHash)
      {
        if Verify(user.passwordHash, user.guesses[i]) {
          return Some(user.guesses[i]);
        }
        assert user.guesses[i..][1..] == user.guesses[i + 1..];
      }
      plaintext := None;
    }

    method RevealPasswordOf(adminUserId: Id, targetUserId: Id, masterKey: string, held: bool, ghost r: Random)
      returns (answer: Answer)
      requires ProperRandom(r)
      modifies this`accounts
      ensures (Current(), answer) ==
        Next(old(Current()), Step(RevealPassword(adminUserId, targetUserId, masterKey, held), r))
    {
      if adminUserId !in accounts || targetUserId !in accounts {
        return NotFound;
      }
      var target := accounts[targetUserId];
      if !accounts[adminUserId].isPlatformAdmin && accounts[adminUserId].tenant != target.tenant {
        return Forbidden;
      }
      if target.tenant !in tenants {
        return NotFound;
      }
      var tenant := tenants[target.tenant];
      if tenant.encryptedPrivateKey.None? || tenant.salt.None? || tenant.keyHash.None? {
        return NoVault;
      }
      if held {
        return TooMany;
      }
      if !Verify(tenant.keyHash.value, masterKey) {
        return WrongMasterKey;
      }
      var encrypted := target.encrypted;
      if encrypted.None? {
        var recovered := TryRecoverPlaintext(target);
        if recovered.Some? && recovered.value != "" && tenant.publicKey.Some? {
          encrypted := Encrypt(tenant.publicKey.value, recovered.value);
          if encrypted.None? {
            return Failure;
          }
          accounts := accounts[targetUserId := target.(encrypted := encrypted)];
        } else {
          return Irrecoverable;
        }
      }
      assert accounts == old(accounts)[targetUserId := target.(encrypted := Stored(tenant, target))];
      var privateKey := Open(tenant.encryptedPrivateKey.value, AesKey(masterKey, tenant.salt.value));
      if privateKey.None? {
        return Failure;
      }
      var plaintext := Decrypt(privateKey.value, encrypted.value);
      answer := if plaintext.Some? then Revealed(plaintext.value) else Failure;
    }

    /** One account: already encrypted, recovered, not recoverable, or too long to encrypt. */
    method FillAccount(publicKey: PublicKey, id: Id) returns (done: bool, one: Tally)
      requires id in accounts
      modifies this`accounts
      ensures done <==> !Stops(old(accounts)[id])
      ensures if done then (accounts, one) == FillOne(old(accounts), publicKey, id) else accounts == old(accounts)
    {
      var user := accounts[id];
      if user.encrypted.Some? {
        return true, Tally(0, 1, 0);
      }
      var plaintext := TryRecoverPlaintext(user);
      if plaintext.None? || plaintext.value == "" {
        return true, Tally(0, 0, 1);
      }
      var encrypted := Encrypt(publicKey, plaintext.value);
      if encrypted.None? {
        return false, Tally(0, 0, 0);
      }
      accounts := accounts[id := user.(encrypted := encrypted)];
      return true, Tally(1, 0, 0);
    }

    /** Encrypts what can be recovered, account by account, until one stops it. */
    method FillAccounts(publicKey: PublicKey, users: seq<Id>) returns (done: bool, tally: Tally)
      requires AllIn(accounts, users) && forall i, j :: 0 <= i < j < |users| ==> users[i] != users[j]
      modifies this`accounts
      ensures (accounts, tally) == Fill(old(accounts), publicKey, users[..Reach(old(accounts), users)])
      ensures done <==> Reach(old(accounts), users) == |users|
    {
      tally := Tally(0, 0, 0);
      ghost var before := accounts;
      ghost var reach := Reach(accounts, users);
      for i := 0 to |users|
        invariant i <= reach
        invariant (accounts, tally) == Fill(before, publicKey, users[..i])
      {
        FillLeavesRest(before, publicKey, users, i);
        FillNext(before, publicKey, users, i);
        var filled, one := FillAccount(publicKey, users[i]);
        if !filled {
          return false, tally;
        }
        tally := Added(tally, one);
      }
      done := true;
    }

    method BackfillTenantPasswords(tenantId: Id, users: seq<Id>, r: Random) returns (answer: Answer)
      requires ProperRandom(r) && IsRoster(accounts, tenantId, users)
      modifies this
      ensures (Current(), answer) == Next(old(Current()), Step(BackfillPasswords(tenantId, users), r))
      ensures answer.Backfilled? ==>
        answer.recovered + answer.alreadyEncrypted + answer.unrecovered == answer.total == |users|
    {
      if tenantId !in tenants {
        return NotFound;
      }
      var vault := EnsureTenantVault(tenantId, None, r);
      ghost var before := accounts;
      var done, tally := FillAccounts(vault.publicKey, users);
      assert tenants[tenantId].publicKey.value == vault.publicKey;
      if !done {
        return Failure;
      }
      FillCounts(before, vault.publicKey, users);
      assert users[..|users|] == users;
      answer := Backfilled(|users|, tally.recovered, tally.alreadyEncrypted, tally.unrecovered);
    }
  }
}
