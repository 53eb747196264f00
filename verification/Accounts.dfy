/**
 The accounts and the rules they obey (src-tauri/src/claude/accounts.rs): ids,
 names, colours, directories, and what "well formed" means for a registry.
 */
module Accounts {
  import opened Wrappers
  import opened Text

  const DEFAULT_ID := "default"
  const DEFAULT_NAME := "Default"
  const DEFAULT_COLOR := "#8b5cf6"
  const NAME_MAX := 40

  const PALETTE := ["#0ea5e9", "#f59e0b", "#10b981", "#ef4444", "#ec4899", "#14b8a6", "#6366f1", "#84cc16"]

  /** The machine: how a directory is normalized, the (normalized) home
      directory, what is no directory, how a name is folded to lower case, and
      the hash of a token. It does not change from one run to the next. */
  datatype Machine = Machine(
    normalize: string -> Option<string>,
    home: Option<string>,
    notADirectory: string -> bool,
    fold: string -> string,
    sha: string -> string)

  datatype Kind = Directory | Token

  datatype Account = Account(
    id: string,
    name: string,
    kind: Kind,
    dir: Option<string>,
    color: Option<string>,
    createdAt: int,
    hooksPlugin: Option<string>,
    tokenSha: Option<string>,
    accountUuid: Option<string>,
    identitySha: Option<string>,
    extra: map<string, string>)

  const DEFAULT_ACCOUNT :=
    Account(DEFAULT_ID, DEFAULT_NAME, Directory, None, Some(DEFAULT_COLOR), 0, None, None, None, None, map[])

  datatype Defaults = Defaults(newSession: string, bridge: string, byProject: map<string, string>)

  const DEFAULT_DEFAULTS := Defaults(DEFAULT_ID, DEFAULT_ID, map[])

  datatype Consent = Consent(giver: string, taker: string)

  /** Backups; `rest` stands for the settings the registry does not check. */
  datatype Backup = Backup(folder: Option<string>, rest: string)

  const DEFAULT_BACKUP := Backup(None, "")

  // ---------------------------------------------------------------------- checks

  predicate IsAccountId(id: string) {
    |id| == 16 && "acc_" <= id && forall i :: 4 <= i < 16 ==> IsDigit(id[i]) || 'a' <= id[i] <= 'f'
  }

  predicate IsSha(s: string) {
    |s| == 64 && forall i :: 0 <= i < 64 ==> IsHexDigit(s[i])
  }

  predicate IsColor(c: string) {
    |c| == 7 && c[0] == '#' && forall i :: 1 <= i < 7 ==> IsHexDigit(c[i])
  }

  predicate NoFolderChar(c: char) {
    IsControl(c) || c in "/\\:*?\"<>|"
  }

  /** A name trimmed, or nothing when it may not be one. */
  function CleanName(name: string): (r: Option<string>)
    ensures r.Some? ==> 1 <= |r.value| <= NAME_MAX
  {
    var trimmed := Trim(name);
    if |trimmed| == 0 || |trimmed| > NAME_MAX then None
    else if trimmed[0] == '.' || exists i :: 0 <= i < |trimmed| && NoFolderChar(trimmed[i]) then None
    else Some(trimmed)
  }

  /** A checked name passes the check unchanged. */
  lemma CleanNameStays(name: string)
    requires CleanName(name).Some?
    ensures CleanName(CleanName(name).value) == CleanName(name)
  {
    assert Trim(Trim(name)) == Trim(name);
  }

  function LowerHex(c: char): char {
    if 'A' <= c <= 'F' then c - 'A' + 'a' else c
  }

  /** A colour in lower case. */
  function LowerColor(c: string): string {
    seq(|c|, i requires 0 <= i < |c| => LowerHex(c[i]))
  }

  predicate Absolute(path: string) {
    path != "" && path[0] == '/'
  }

  /** The names between the slashes. */
  function Parts(path: string): seq<string> {
    var i := IndexOf(path, "/");
    var head := path[..i];
    (if head == "" || head == "." then [] else [head]) + (if i == |path| then [] else Parts(path[i + 1..]))
  }

  function Components(path: string): seq<string> {
    (if Absolute(path) then ["/"] else if path == "." || "./" <= path then ["."] else []) + Parts(path)
  }

  /** One directory lies in the other, or both are the same. */
  predicate Overlap(a: string, b: string) {
    Components(a) <= Components(b) || Components(b) <= Components(a)
  }

  // -------------------------------------------------------------------- accounts

  predicate Has(accounts: seq<Account>, id: string) {
    exists i :: 0 <= i < |accounts| && accounts[i].id == id
  }

  /** The account with that id: the first one, as the code finds it. */
  function Find(accounts: seq<Account>, id: string): (r: Option<Account>)
    ensures r.Some? <==> Has(accounts, id)
    ensures r.Some? ==> r.value in accounts && r.value.id == id
  {
    if accounts == [] then None
    else if accounts[0].id == id then Some(accounts[0])
    else
      assert forall i :: 1 <= i < |accounts| ==> accounts[i] == accounts[1..][i - 1];
      Find(accounts[1..], id)
  }

  predicate NameTaken(m: Machine, accounts: seq<Account>, name: string, except: Option<string>) {
    exists i :: 0 <= i < |accounts| && Some(accounts[i].id) != except && m.fold(accounts[i].name) == m.fold(name)
  }

  /** The Default account's directory, as directories are compared with it. */
  function DefaultDir(m: Machine, base: string): string {
    if m.normalize(base).Some? then m.normalize(base).value else base
  }

  /** No run may use it: the root, the home directory, or no directory at all. */
  predicate Reserved(m: Machine, dir: string) {
    || Components(dir) == ["/"]
    || (m.home.Some? && Components(m.home.value) == Components(dir))
    || m.notADirectory(dir)
  }

  /** A directory account may use `dir` in a run whose Default is `base`. */
  predicate DirFree(m: Machine, base: string, accounts: seq<Account>, dir: string) {
    && !Overlap(dir, DefaultDir(m, base))
    && !Reserved(m, dir)
    && forall i :: 0 <= i < |accounts| && accounts[i].dir.Some? ==> !Overlap(dir, accounts[i].dir.value)
  }

  // ----------------------------------------------------------------- well formed

  predicate GoodLook(a: Account) {
    && CleanName(a.name) == Some(a.name)
    && (a.color.Some? ==> IsColor(a.color.value))
    && (a.identitySha.Some? ==> IsSha(a.identitySha.value))
  }

  predicate GoodDefault(a: Account) {
    GoodLook(a) && a == DEFAULT_ACCOUNT.(name := a.name, color := a.color, hooksPlugin := a.hooksPlugin,
                                         accountUuid := a.accountUuid, identitySha := a.identitySha, extra := a.extra)
    && a.color.Some?
  }

  /** An account that is fine by itself, whatever the run's Default. */
  predicate GoodOther(m: Machine, a: Account) {
    && IsAccountId(a.id) && GoodLook(a)
    && match a.kind
       case Directory =>
         a.dir.Some? && m.normalize(a.dir.value) == a.dir && !Reserved(m, a.dir.value) && a.tokenSha.None?
       case Token => a.dir.None? && (a.tokenSha.Some? ==> IsSha(a.tokenSha.value))
  }

  predicate DirsApart(a: Account, b: Account) {
    a.dir.Some? && b.dir.Some? ==> !Overlap(a.dir.value, b.dir.value)
  }

  /** Two accounts may stand side by side. */
  predicate Apart(m: Machine, a: Account, b: Account) {
    a.id != b.id && m.fold(a.name) != m.fold(b.name) && DirsApart(a, b)
  }

  /** The account can be used in a run whose Default is `base`. */
  predicate Fits(m: Machine, base: string, a: Account) {
    a.dir.Some? ==> !Overlap(a.dir.value, DefaultDir(m, base))
  }

  /** The Default first; every account fine by itself and apart from the rest. */
  ghost predicate GoodAccounts(m: Machine, accounts: seq<Account>) {
    && |accounts| > 0 && GoodDefault(accounts[0])
    && (forall i :: 1 <= i < |accounts| ==> GoodOther(m, accounts[i]))
    && (forall i, j :: 0 <= i < j < |accounts| ==> Apart(m, accounts[i], accounts[j]))
  }

  ghost predicate AllFit(m: Machine, base: string, accounts: seq<Account>) {
    forall i :: 0 <= i < |accounts| ==> Fits(m, base, accounts[i])
  }

  ghost predicate GoodDefaults(accounts: seq<Account>, d: Defaults) {
    && Has(accounts, d.newSession) && Has(accounts, d.bridge)
    && forall dir :: dir in d.byProject ==> Absolute(dir) && Has(accounts, d.byProject[dir])
  }

  ghost predicate GoodConsents(accounts: seq<Account>, consents: seq<Consent>) {
    && (forall i :: 0 <= i < |consents| ==> Has(accounts, consents[i].giver) && Has(accounts, consents[i].taker))
    && (forall i, j :: 0 <= i < j < |consents| ==> consents[i] != consents[j])
  }

  predicate GoodBackup(b: Backup) {
    b.folder.Some? ==> Absolute(b.folder.value)
  }

  lemma LowerKeepsColor(c: string)
    requires IsColor(c)
    ensures IsColor(LowerColor(c))
  {
  }

  /** In a well-formed list an id names one account. */
  lemma {:induction false} FoundIsTheOne(m: Machine, accounts: seq<Account>, i: nat)
    requires i < |accounts|
    requires forall j, k :: 0 <= j < k < |accounts| ==> accounts[j].id != accounts[k].id
    ensures Find(accounts, accounts[i].id) == Some(accounts[i])
  {
    var found := Find(accounts, accounts[i].id).value;
    var j :| 0 <= j < |accounts| && accounts[j] == found;
    assert j == i;
  }
}
