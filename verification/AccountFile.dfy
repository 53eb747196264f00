/**
 The registry and its file (src-tauri/src/claude/accounts.rs): what a save
 writes, what a load makes of it, and why a run that cannot use an account does
 not erase it.
 */
module AccountFiles {
  import opened Wrappers
  import opened Accounts

  /** An entry of the file's account list: what it says when it can be read (a
      save writes it plainly, with no spelling of its own), or the raw text. */
  datatype Raw =
    | Entry(account: Account, spelling: string)
    | Unreadable(id: Option<string>, text: string)

  datatype RawConsent =
    | Pair(consent: Consent, spelling: string)
    | Junk(text: string)

  /** What a run could not use, written back as it was. */
  datatype Held = Held(
    accounts: seq<Raw>,
    ids: set<string>,
    consents: seq<RawConsent>,
    byProject: map<string, string>,
    newSession: Option<string>,
    bridge: Option<string>)

  const NOTHING_HELD := Held([], {}, [], map[], None, None)

  datatype Registry = Registry(
    accounts: seq<Account>,
    defaults: Defaults,
    consents: seq<Consent>,
    backup: Backup,
    extra: map<string, string>,
    held: Held)

  const DEFAULT_REGISTRY :=
    Registry([DEFAULT_ACCOUNT], DEFAULT_DEFAULTS, [], DEFAULT_BACKUP, map[], NOTHING_HELD)

  /** The file; a part that cannot be read is `None`. */
  datatype File = File(
    accounts: seq<Raw>,
    defaults: Option<Defaults>,
    consents: seq<RawConsent>,
    backup: Option<Backup>,
    extra: map<string, string>)

  function Entries(accounts: seq<Account>): seq<Raw> {
    seq(|accounts|, i requires 0 <= i < |accounts| => Entry(accounts[i], ""))
  }

  function Pairs(consents: seq<Consent>): seq<RawConsent> {
    seq(|consents|, i requires 0 <= i < |consents| => Pair(consents[i], ""))
  }

  function OrElse<T>(o: Option<T>, default: T): T {
    if o.Some? then o.value else default
  }

  /** What a save writes: this run's registry, and what it holds. */
  function ToFile(reg: Registry): File {
    File(Entries(reg.accounts) + reg.held.accounts,
         Some(Defaults(OrElse(reg.held.newSession, reg.defaults.newSession),
                       OrElse(reg.held.bridge, reg.defaults.bridge),
                       reg.held.byProject + reg.defaults.byProject)),
         Pairs(reg.consents) + reg.held.consents,
         Some(reg.backup),
         reg.extra)
  }

  // ------------------------------------------------------------------------ load

  function RawId(raw: Raw): Option<string> {
    match raw
    case Entry(account, _) => Some(account.id)
    case Unreadable(id, _) => id
  }

  function Hold(reg: Registry, raw: Raw): Registry {
    var id := RawId(raw);
    var named := id.Some? && IsAccountId(id.value) && !Has(reg.accounts, id.value);
    reg.(held := reg.held.(accounts := reg.held.accounts + [raw],
                           ids := if named then reg.held.ids + {id.value} else reg.held.ids))
  }

  /** An account of the file as this run would use it, or nothing. */
  function ValidateLoaded(m: Machine, base: string, accounts: seq<Account>, a: Account): Option<Account> {
    var name := CleanName(a.name);
    if !IsAccountId(a.id) || Has(accounts, a.id) then None
    else if name.None? || NameTaken(m, accounts, name.value, None) then None
    else
      var b := a.(name := name.value,
                  color := if a.color.Some? && !IsColor(a.color.value) then None else a.color,
                  identitySha := if a.identitySha.Some? && !IsSha(a.identitySha.value) then None else a.identitySha);
      match a.kind
      case Directory =>
        var dir := if a.dir.Some? then m.normalize(a.dir.value) else None;
        if dir.None? || !DirFree(m, base, accounts, dir.value) then None
        else Some(b.(dir := dir, tokenSha := None))
      case Token =>
        Some(b.(dir := None, tokenSha := if a.tokenSha.Some? && !IsSha(a.tokenSha.value) then None else a.tokenSha))
  }

  /** The Default keeps what the file may decide about it. */
  function WithDefault(d: Account, a: Account): Account {
    d.(name := OrElse(CleanName(a.name), d.name),
       color := if a.color.Some? && IsColor(a.color.value) then a.color else d.color,
       hooksPlugin := a.hooksPlugin,
       accountUuid := a.accountUuid,
       identitySha := if a.identitySha.Some? && !IsSha(a.identitySha.value) then None else a.identitySha,
       extra := a.extra)
  }

  function LoadEntry(m: Machine, base: string, reg: Registry, raw: Raw): (r: Registry)
    requires |reg.accounts| > 0
    ensures |r.accounts| > 0
  {
    match raw
    case Unreadable(_, _) => Hold(reg, raw)
    case Entry(a, _) =>
      if a.id == DEFAULT_ID then reg.(accounts := reg.accounts[0 := WithDefault(reg.accounts[0], a)])
      else
        var valid := ValidateLoaded(m, base, reg.accounts, a);
        if valid.None? then Hold(reg, raw) else reg.(accounts := reg.accounts + [valid.value])
  }

  function LoadEntries(m: Machine, base: string, reg: Registry, raws: seq<Raw>): (r: Registry)
    requires |reg.accounts| > 0
    ensures |r.accounts| > 0
  {
    if raws == [] then reg
    else LoadEntry(m, base, LoadEntries(m, base, reg, raws[..|raws| - 1]), raws[|raws| - 1])
  }

  /** Ids both valid and held are the valid ones'; a Default renamed onto a later
      account's name gets its first name back. */
  function Settle(m: Machine, reg: Registry): (r: Registry)
    requires |reg.accounts| > 0
    ensures |r.accounts| > 0
  {
    var clash := NameTaken(m, reg.accounts[1..], reg.accounts[0].name, None);
    reg.(held := reg.held.(ids := set id | id in reg.held.ids && !Has(reg.accounts, id)),
         accounts := if clash then reg.accounts[0 := reg.accounts[0].(name := DEFAULT_NAME)] else reg.accounts)
  }

  function LoadDefaults(reg: Registry, defaults: Option<Defaults>): Registry {
    if defaults.None? then reg
    else
      var d := defaults.value;
      var ids := reg.held.ids;
      reg.(defaults := Defaults(if Has(reg.accounts, d.newSession) then d.newSession else DEFAULT_ID,
                                if Has(reg.accounts, d.bridge) then d.bridge else DEFAULT_ID,
                                map dir | dir in d.byProject && Absolute(dir) && Has(reg.accounts, d.byProject[dir])
                                  :: d.byProject[dir]),
           held := reg.held.(
             newSession := if !Has(reg.accounts, d.newSession) && d.newSession in ids then Some(d.newSession)
                           else reg.held.newSession,
             bridge := if !Has(reg.accounts, d.bridge) && d.bridge in ids then Some(d.bridge) else reg.held.bridge,
             byProject := map dir | dir in d.byProject && Absolute(dir) && d.byProject[dir] in ids :: d.byProject[dir]))
  }

  predicate Known(accounts: seq<Account>, c: Consent) {
    Has(accounts, c.giver) && Has(accounts, c.taker)
  }

  predicate HeldOrKnown(reg: Registry, id: string) {
    id in reg.held.ids || Has(reg.accounts, id)
  }

  function LoadConsent(reg: Registry, raw: RawConsent): Registry {
    if raw.Junk? then reg
    else
      var c := raw.consent;
      if Known(reg.accounts, c) then
        if c in reg.consents then reg else reg.(consents := reg.consents + [c])
      else if HeldOrKnown(reg, c.giver) && HeldOrKnown(reg, c.taker) then
        reg.(held := reg.held.(consents := reg.held.consents + [raw]))
      else reg
  }

  function LoadConsents(reg: Registry, raws: seq<RawConsent>): Registry {
    if raws == [] then reg
    else LoadConsent(LoadConsents(reg, raws[..|raws| - 1]), raws[|raws| - 1])
  }

  function LoadBackup(reg: Registry, backup: Option<Backup>): Registry {
    if backup.Some? && GoodBackup(backup.value) then reg.(backup := backup.value) else reg
  }

  /** What a run whose Default directory is `base` makes of the file. */
  function FromFile(m: Machine, base: string, file: File): Registry {
    var read := LoadEntries(m, base, DEFAULT_REGISTRY.(extra := file.extra), file.accounts);
    LoadBackup(LoadConsents(LoadDefaults(Settle(m, read), file.defaults), file.consents), file.backup)
  }

  /** The load as the code does it, filling the registry in place. */
  method Load(m: Machine, base: string, file: File) returns (reg: Registry)
    ensures reg == FromFile(m, base, file)
  {
    reg := DEFAULT_REGISTRY.(extra := file.extra);
    ghost var start := reg;
    var i := 0;
    while i < |file.accounts|
      invariant i <= |file.accounts| && |reg.accounts| > 0
      invariant reg == LoadEntries(m, base, start, file.accounts[..i])
    {
      assert file.accounts[..i + 1][..i] == file.accounts[..i];
      reg := LoadEntry(m, base, reg, file.accounts[i]);
      i := i + 1;
    }
    assert file.accounts[..i] == file.accounts;
    reg := LoadDefaults(Settle(m, reg), file.defaults);
    ghost var named := reg;
    i := 0;
    while i < |file.consents|
      invariant i <= |file.consents|
      invariant reg == LoadConsents(named, file.consents[..i])
    {
      assert file.consents[..i + 1][..i] == file.consents[..i];
      reg := LoadConsent(reg, file.consents[i]);
      i := i + 1;
    }
    assert file.consents[..i] == file.consents;
    reg := LoadBackup(reg, file.backup);
  }
}
