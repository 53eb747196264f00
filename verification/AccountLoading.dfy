/**
 What a load makes of any file, however damaged
 (src-tauri/src/claude/accounts.rs).
 */
module AccountLoading {
  import opened Wrappers
  import opened Accounts
  import opened AccountFiles
  import opened AccountEntries
  import opened Shuffles
  import Text

  /** Normalizing a normalized directory changes nothing. */
  ghost predicate Stable(m: Machine) {
    forall p :: m.normalize(p).Some? ==> m.normalize(m.normalize(p).value) == m.normalize(p)
  }

  /** The accounts are good, but for the Default's name. */
  ghost predicate GoodButName(m: Machine, base: string, accounts: seq<Account>) {
    && |accounts| > 0 && GoodDefault(accounts[0]) && AllFit(m, base, accounts)
    && (forall i :: 1 <= i < |accounts| ==> GoodOther(m, accounts[i]))
    && (forall i, j :: 1 <= i < j < |accounts| ==> Apart(m, accounts[i], accounts[j]))
  }

  ghost predicate DefaultNameApart(m: Machine, accounts: seq<Account>) {
    |accounts| > 0 && !NameTaken(m, accounts[1..], accounts[0].name, None)
  }

  lemma FirstIsGood()
    ensures GoodDefault(DEFAULT_ACCOUNT)
  {
    assert Text.Trim(DEFAULT_NAME) == DEFAULT_NAME;
    assert CleanName(DEFAULT_NAME) == Some(DEFAULT_NAME);
    assert IsColor(DEFAULT_COLOR);
  }

  lemma ValidatedIsGood(m: Machine, base: string, accounts: seq<Account>, a: Account)
    requires Stable(m) && ValidateLoaded(m, base, accounts, a).Some?
    ensures var b := ValidateLoaded(m, base, accounts, a).value;
      && GoodOther(m, b) && Fits(m, base, b) && b.id == a.id
      && forall i :: 0 <= i < |accounts| ==> Apart(m, accounts[i], b)
  {
    CleanNameStays(a.name);
  }

  lemma DefaultStaysGood(d: Account, a: Account)
    requires GoodDefault(d)
    ensures GoodDefault(WithDefault(d, a))
  {
    if CleanName(a.name).Some? {
      CleanNameStays(a.name);
    }
  }

  lemma PushKeepsGood(m: Machine, base: string, accounts: seq<Account>, a: Account)
    requires Stable(m) && GoodButName(m, base, accounts) && ValidateLoaded(m, base, accounts, a).Some?
    ensures var next := accounts + [ValidateLoaded(m, base, accounts, a).value];
      GoodButName(m, base, next) && (DefaultNameApart(m, accounts) ==> DefaultNameApart(m, next))
  {
    ValidatedIsGood(m, base, accounts, a);
    var b := ValidateLoaded(m, base, accounts, a).value;
    assert (accounts + [b])[1..] == accounts[1..] + [b];
  }

  lemma RenameKeepsGood(m: Machine, base: string, accounts: seq<Account>, a: Account)
    requires GoodButName(m, base, accounts)
    ensures GoodButName(m, base, accounts[0 := WithDefault(accounts[0], a)])
  {
    DefaultStaysGood(accounts[0], a);
  }

  lemma EntryKeepsGood(m: Machine, base: string, reg: Registry, raw: Raw)
    requires Stable(m) && GoodButName(m, base, reg.accounts)
    ensures GoodButName(m, base, LoadEntry(m, base, reg, raw).accounts)
    ensures DefaultNameApart(m, reg.accounts) && (!IsDefaultEntry(raw) || |reg.accounts| == 1) ==>
              DefaultNameApart(m, LoadEntry(m, base, reg, raw).accounts)
  {
    if raw.Entry? {
      if raw.account.id == DEFAULT_ID {
        RenameKeepsGood(m, base, reg.accounts, raw.account);
      } else if ValidateLoaded(m, base, reg.accounts, raw.account).Some? {
        PushKeepsGood(m, base, reg.accounts, raw.account);
      }
    }
  }

  /** Only the first entry may be the Default's, as every save writes it. */
  predicate DefaultComesFirst(raws: seq<Raw>) {
    forall i :: 1 <= i < |raws| ==> !IsDefaultEntry(raws[i])
  }

  lemma {:induction false} EntriesAreGood(m: Machine, base: string, extra: map<string, string>, raws: seq<Raw>)
    requires Stable(m)
    ensures var reg := LoadEntries(m, base, DEFAULT_REGISTRY.(extra := extra), raws);
      && GoodButName(m, base, reg.accounts)
      && (DefaultComesFirst(raws) ==> DefaultNameApart(m, reg.accounts))
    decreases |raws|
  {
    FirstIsGood();
    if raws != [] {
      var n := |raws| - 1;
      EntriesAreGood(m, base, extra, raws[..n]);
      EntryKeepsGood(m, base, LoadEntries(m, base, DEFAULT_REGISTRY.(extra := extra), raws[..n]), raws[n]);
      assert n == 0 ==> raws[..n] == [];
    }
  }

  /** Reading the entries touches the accounts and what is held of them. */
  lemma {:induction false} EntriesTouchAccounts(m: Machine, base: string, reg: Registry, raws: seq<Raw>)
    requires |reg.accounts| > 0
    ensures var read := LoadEntries(m, base, reg, raws);
      read == reg.(accounts := read.accounts,
                   held := reg.held.(accounts := read.held.accounts, ids := read.held.ids))
    decreases |raws|
  {
    if raws != [] {
      EntriesTouchAccounts(m, base, reg, raws[..|raws| - 1]);
    }
  }

  lemma {:induction false} ConsentsAreGood(reg: Registry, raws: seq<RawConsent>)
    requires GoodConsents(reg.accounts, reg.consents)
    ensures var read := LoadConsents(reg, raws);
      && GoodConsents(read.accounts, read.consents)
      && read == reg.(consents := read.consents, held := reg.held.(consents := read.held.consents))
    decreases |raws|
  {
    if raws != [] {
      ConsentsAreGood(reg, raws[..|raws| - 1]);
    }
  }

  /** The accounts as the file's entries leave them, before the Default's name is
      looked at again. */
  function Read(m: Machine, base: string, file: File): seq<Account> {
    LoadEntries(m, base, DEFAULT_REGISTRY.(extra := file.extra), file.accounts).accounts
  }

  /** The Default was renamed onto another account's name, and its first name is
      taken as well: only a Default entry that is not the first entry can do
      that. */
  predicate NamesCollide(m: Machine, accounts: seq<Account>)
    requires |accounts| > 0
  {
    NameTaken(m, accounts[1..], accounts[0].name, None) && NameTaken(m, accounts[1..], DEFAULT_NAME, None)
  }

  /** Any file loads to a well-formed registry, unless its Default entries
      collide with the others' names; never when the Default comes first. */
  lemma LoadIsWellFormed(m: Machine, base: string, file: File)
    requires Stable(m)
    ensures |Read(m, base, file)| > 0
    ensures WellFormed(m, base, FromFile(m, base, file)) <==> !NamesCollide(m, Read(m, base, file))
    ensures DefaultComesFirst(file.accounts) ==> !NamesCollide(m, Read(m, base, file))
  {
    EntriesAreGood(m, base, file.extra, file.accounts);
    LoadedParts(m, base, file);
    var read := LoadEntries(m, base, DEFAULT_REGISTRY.(extra := file.extra), file.accounts);
    SettledNames(m, base, read);
    var loaded := FromFile(m, base, file);
    assert loaded.accounts == Settle(m, read).accounts && AllFit(m, base, loaded.accounts);
    if GoodAccounts(m, loaded.accounts) {
      assert WellFormed(m, base, loaded);
    }
  }

  lemma LoadedParts(m: Machine, base: string, file: File)
    requires |Read(m, base, file)| > 0 && Read(m, base, file)[0].id == DEFAULT_ID
    ensures var read := LoadEntries(m, base, DEFAULT_REGISTRY.(extra := file.extra), file.accounts);
      var loaded := FromFile(m, base, file);
      && loaded.accounts == Settle(m, read).accounts && GoodBackup(loaded.backup)
      && GoodDefaults(loaded.accounts, loaded.defaults) && GoodConsents(loaded.accounts, loaded.consents)
  {
    var start := DEFAULT_REGISTRY.(extra := file.extra);
    EntriesTouchAccounts(m, base, start, file.accounts);
    var settled := Settle(m, LoadEntries(m, base, start, file.accounts));
    assert settled.accounts[0].id == DEFAULT_ID;
    DefaultsAreGood(settled, file.defaults);
    ConsentsAreGood(LoadDefaults(settled, file.defaults), file.consents);
  }

  lemma ResetIsGood(m: Machine, base: string, accounts: seq<Account>)
    requires GoodButName(m, base, accounts)
    ensures GoodButName(m, base, accounts[0 := accounts[0].(name := DEFAULT_NAME)])
  {
    FirstIsGood();
  }

  lemma SettledNames(m: Machine, base: string, read: Registry)
    requires GoodButName(m, base, read.accounts)
    ensures var settled := Settle(m, read).accounts;
      GoodButName(m, base, settled) && (GoodAccounts(m, settled) <==> !NamesCollide(m, read.accounts))
  {
    var settled := Settle(m, read).accounts;
    ResetIsGood(m, base, read.accounts);
    assert settled[1..] == read.accounts[1..];
    assert DefaultNameApart(m, settled) <==> !NamesCollide(m, read.accounts);
    NameDecides(m, base, settled);
  }

  lemma NameDecides(m: Machine, base: string, accounts: seq<Account>)
    requires GoodButName(m, base, accounts)
    ensures GoodAccounts(m, accounts) <==> DefaultNameApart(m, accounts)
  {
    forall i | 1 <= i < |accounts|
      ensures accounts[i] == accounts[1..][i - 1]
      ensures accounts[i].id != DEFAULT_ID && DirsApart(accounts[0], accounts[i])
      ensures GoodAccounts(m, accounts) ==> m.fold(accounts[0].name) != m.fold(accounts[i].name)
    {
      assert GoodOther(m, accounts[i]);
      assert GoodAccounts(m, accounts) ==> Apart(m, accounts[0], accounts[i]);
    }
  }

  lemma DefaultsAreGood(reg: Registry, defaults: Option<Defaults>)
    requires Has(reg.accounts, DEFAULT_ID) && GoodDefaults(reg.accounts, reg.defaults)
    ensures GoodDefaults(LoadDefaults(reg, defaults).accounts, LoadDefaults(reg, defaults).defaults)
  {
  }

  // ------------------------------------------------------------ nothing is erased

  /** An entry of the file is not lost: it is held as it was, or its id is in
      use. */
  ghost predicate IsKept(reg: Registry, raw: Raw) {
    raw in reg.held.accounts || (RawId(raw).Some? && Has(reg.accounts, RawId(raw).value))
  }

  lemma {:induction false} EntriesAreKept(m: Machine, base: string, reg: Registry, raws: seq<Raw>)
    requires |reg.accounts| > 0 && reg.accounts[0].id == DEFAULT_ID
    ensures var read := LoadEntries(m, base, reg, raws);
      read.accounts[0].id == DEFAULT_ID && forall i :: 0 <= i < |raws| ==> IsKept(read, raws[i])
    decreases |raws|
  {
    if raws != [] {
      var n := |raws| - 1;
      EntriesAreKept(m, base, reg, raws[..n]);
      var before := LoadEntries(m, base, reg, raws[..n]);
      EntryKeepsRest(m, base, before, raws[n]);
      forall i | 0 <= i < |raws|
        ensures IsKept(LoadEntries(m, base, reg, raws), raws[i])
      {
        if i < n {
          assert raws[..n][i] == raws[i];
        }
      }
    }
  }

  lemma EntryKeepsRest(m: Machine, base: string, reg: Registry, raw: Raw)
    requires |reg.accounts| > 0 && reg.accounts[0].id == DEFAULT_ID
    ensures var next := LoadEntry(m, base, reg, raw);
      && IsKept(next, raw) && next.accounts[0].id == DEFAULT_ID
      && forall other :: IsKept(reg, other) ==> IsKept(next, other)
  {
    var next := LoadEntry(m, base, reg, raw);
    assert forall i :: 0 <= i < |reg.accounts| ==> next.accounts[i].id == reg.accounts[i].id;
    if |next.accounts| > |reg.accounts| {
      assert next.accounts[|reg.accounts|].id == raw.account.id;
    }
  }

  /** Whatever is wrong with an entry, the next save does not erase it. */
  lemma NoEntryIsErased(m: Machine, base: string, file: File, i: nat)
    requires i < |file.accounts|
    ensures var loaded := FromFile(m, base, file);
      var id := RawId(file.accounts[i]);
      file.accounts[i] in ToFile(loaded).accounts || (id.Some? && Has(loaded.accounts, id.value))
  {
    var start := DEFAULT_REGISTRY.(extra := file.extra);
    EntriesAreKept(m, base, start, file.accounts);
    EntriesTouchAccounts(m, base, start, file.accounts);
    var read := LoadEntries(m, base, start, file.accounts);
    var loaded := FromFile(m, base, file);
    ConsentsTouchNoAccount(LoadDefaults(Settle(m, read), file.defaults), file.consents);
    assert loaded.held.accounts == read.held.accounts;
    assert IsKept(read, file.accounts[i]);
    if RawId(file.accounts[i]).Some? && Has(read.accounts, RawId(file.accounts[i]).value) {
      var j :| 0 <= j < |read.accounts| && read.accounts[j].id == RawId(file.accounts[i]).value;
      assert loaded.accounts[j].id == read.accounts[j].id;
    }
  }

  lemma {:induction false} ConsentsTouchNoAccount(reg: Registry, raws: seq<RawConsent>)
    ensures var read := LoadConsents(reg, raws);
      read.accounts == reg.accounts && read.held.accounts == reg.held.accounts
    decreases |raws|
  {
    if raws != [] {
      ConsentsTouchNoAccount(reg, raws[..|raws| - 1]);
    }
  }

  // -------------------------------------------------------------- what does not hold

  lemma OneMore(m: Machine, base: string, reg: Registry, raws: seq<Raw>, raw: Raw)
    requires |reg.accounts| > 0
    ensures LoadEntries(m, base, reg, raws + [raw]) == LoadEntry(m, base, LoadEntries(m, base, reg, raws), raw)
  {
    assert (raws + [raw])[..|raws|] == raws;
  }

  /** One Default entry can do it when it comes after a: the Default takes a's
      name, b loads as "Default", and the Default is reset to that. */
  lemma OneDefaultEntryCanCollide(m: Machine, base: string, d: Account, a: Account, b: Account)
    requires GoodDefault(d) && GoodOther(m, a) && GoodOther(m, b) && a.kind == Token && b.kind == Token && a.id != b.id
    requires d.name == a.name && m.fold(b.name) == m.fold(DEFAULT_NAME) && m.fold(a.name) != m.fold(DEFAULT_NAME)
    ensures NamesCollide(m, Read(m, base, Just(Entries([a, d, b]))))
  {
    var start := DEFAULT_REGISTRY.(extra := map[]);
    var one := start.(accounts := [DEFAULT_ACCOUNT, a]);
    var two := start.(accounts := [WithDefault(DEFAULT_ACCOUNT, d), a]);
    var three := start.(accounts := [WithDefault(DEFAULT_ACCOUNT, d), a, b]);
    assert LoadEntry(m, base, start, Entry(a, "")) == one;
    assert LoadEntry(m, base, one, Entry(d, "")) == two;
    TakenIn(m, base, two, b);
    assert two.accounts + [b] == three.accounts;
    assert Entries([a, d, b]) == [Entry(a, ""), Entry(d, ""), Entry(b, "")];
    LoadOfThree(m, base, start, Entry(a, ""), Entry(d, ""), Entry(b, ""));
    assert three.accounts[1..] == [a, b] && [a, b][0] == a && [a, b][1] == b;
  }

  lemma TakenIn(m: Machine, base: string, reg: Registry, b: Account)
    requires |reg.accounts| == 2 && GoodOther(m, b) && b.kind == Token
    requires forall i :: 0 <= i < 2 ==> reg.accounts[i].id != b.id && m.fold(reg.accounts[i].name) != m.fold(b.name)
    ensures LoadEntry(m, base, reg, Entry(b, "")) == reg.(accounts := reg.accounts + [b])
  {
  }

  lemma LoadOfThree(m: Machine, base: string, reg: Registry, x: Raw, y: Raw, z: Raw)
    requires |reg.accounts| > 0
    ensures LoadEntries(m, base, reg, [x, y, z])
         == LoadEntry(m, base, LoadEntry(m, base, LoadEntry(m, base, reg, x), y), z)
  {
    assert [x] == [] + [x] && [x, y] == [x] + [y] && [x, y, z] == [x, y] + [z];
    OneMore(m, base, reg, [], x);
    OneMore(m, base, reg, [x], y);
    OneMore(m, base, reg, [x, y], z);
  }

  /** So can a second Default entry: the Default takes b's name, is reset to
      "Default", and a has that one. */
  lemma NamesCanCollide(m: Machine, base: string, d: Account, a: Account, b: Account)
    requires GoodAccounts(m, [d, a, b]) && AllFit(m, base, [d, a, b])
    requires m.fold(a.name) == m.fold(DEFAULT_NAME)
    ensures NamesCollide(m, Read(m, base, Just(Entries([d, a, b]) + [Entry(d.(name := b.name), "")])))
  {
    var accounts := [d, a, b];
    EntriesSplit(m, base, map[], accounts);
    KeptWhole(accounts, FitsIn(m, base));
    assert accounts[1] == a && accounts[2] == b && Apart(m, accounts[1], accounts[2]);
    OneMore(m, base, DEFAULT_REGISTRY, Entries(accounts), Entry(d.(name := b.name), ""));
    assert DEFAULT_REGISTRY.(extra := map[]) == DEFAULT_REGISTRY;
    var read := accounts[0 := WithDefault(d, d.(name := b.name))];
    assert GoodLook(b);
    assert read[1..][0] == a && read[1..][1] == b;
  }

  /** Loading does not compare token hashes: two accounts of one token both
      load. */
  lemma TwinTokensLoad(m: Machine, base: string, d: Account, a: Account, b: Account)
    requires GoodAccounts(m, [d, a, b]) && a.kind == Token && b.kind == Token && a.tokenSha == b.tokenSha
    ensures Read(m, base, File(Entries([d, a, b]), None, [], None, map[])) == [d, a, b]
  {
    var accounts := [d, a, b];
    assert accounts[0] == d && accounts[1] == a && accounts[2] == b;
    EntriesSplit(m, base, map[], accounts);
    KeptWhole(accounts, FitsIn(m, base));
    assert DEFAULT_REGISTRY.(extra := map[]) == DEFAULT_REGISTRY;
  }

  function TwoAndHeld(d: Account, x: Account, y: Account): Registry {
    DEFAULT_REGISTRY.(accounts := [d, x], held := NOTHING_HELD.(accounts := [Entry(y, "")], ids := {y.id}))
  }

  function Just(raws: seq<Raw>): File {
    File(raws, None, [], None, map[])
  }

  lemma TwoThenOne(m: Machine, base: string, d: Account, x: Account, y: Account)
    requires GoodAccounts(m, [d, x])
    requires |Split(m, base, map[], [d, x]).accounts| > 0
    ensures LoadEntries(m, base, DEFAULT_REGISTRY.(extra := map[]), Entries([d, x, y]))
            == LoadEntry(m, base, Split(m, base, map[], [d, x]), Entry(y, ""))
  {
    EntriesSplit(m, base, map[], [d, x]);
    OneMore(m, base, DEFAULT_REGISTRY.(extra := map[]), Entries([d, x]), Entry(y, ""));
    assert Entries([d, x, y]) == Entries([d, x]) + [Entry(y, "")];
  }

  lemma NamesakeIsHeld(m: Machine, base: string, d: Account, x: Account, y: Account)
    requires GoodAccounts(m, [d, x]) && AllFit(m, base, [d, x])
    requires GoodOther(m, y) && y.id != x.id && m.fold(x.name) == m.fold(y.name)
    ensures LoadEntries(m, base, DEFAULT_REGISTRY.(extra := map[]), Entries([d, x, y])) == TwoAndHeld(d, x, y)
  {
    var two := DEFAULT_REGISTRY.(extra := map[], accounts := [d, x]);
    assert Split(m, base, map[], [d, x]) == two by {
      KeptWhole([d, x], FitsIn(m, base));
      assert IdsOf([]) == {};
    }
    TwoThenOne(m, base, d, x, y);
    NamesakeIsRefused(m, base, d, x, y);
  }

  lemma NamesakeIsRefused(m: Machine, base: string, d: Account, x: Account, y: Account)
    requires GoodDefault(d) && GoodOther(m, y) && y.id != x.id && m.fold(x.name) == m.fold(y.name)
    ensures LoadEntry(m, base, DEFAULT_REGISTRY.(extra := map[], accounts := [d, x]), Entry(y, ""))
         == TwoAndHeld(d, x, y)
  {
    var accounts := [d, x];
    assert accounts[1] == x;
    assert ValidateLoaded(m, base, accounts, y) == None;
    assert !Has(accounts, y.id);
  }

  lemma NamesakeMovesIn(m: Machine, base: string, d: Account, x: Account, y: Account)
    requires GoodAccounts(m, [d, x]) && GoodAccounts(m, [d, y]) && y.id != x.id
    requires !Fits(m, base, x) && AllFit(m, base, [d, y])
    ensures LoadEntries(m, base, DEFAULT_REGISTRY.(extra := map[]), Entries([d, x, y])) == TwoAndHeld(d, y, x)
  {
    SplitOfTwo(m, base, d, x);
    TwoThenOne(m, base, d, x, y);
    assert [d, y][0] == d && [d, y][1] == y && Apart(m, [d, y][0], [d, y][1]);
    ValidateGood(m, base, [d], y);
  }

  lemma ValidateGood(m: Machine, base: string, accounts: seq<Account>, a: Account)
    requires GoodOther(m, a) && Fits(m, base, a)
    requires forall i :: 0 <= i < |accounts| ==> Apart(m, accounts[i], a)
    ensures ValidateLoaded(m, base, accounts, a) == Some(a)
  {
  }

  lemma SplitOfTwo(m: Machine, base: string, d: Account, x: Account)
    requires GoodDefault(d) && !Fits(m, base, x)
    ensures Split(m, base, map[], [d, x])
            == DEFAULT_REGISTRY.(extra := map[], accounts := [d],
                                 held := NOTHING_HELD.(accounts := [Entry(x, "")], ids := {x.id}))
  {
    assert [d, x] == [d] + [x] && [d] == [] + [d];
    SplitGrows([d], FitsIn(m, base), x);
    SplitGrows([], FitsIn(m, base), d);
    assert IdsOf([x]) == {x.id};
  }

  lemma TwoAndHeldSaves(m: Machine, base: string, raws: seq<Raw>, d: Account, x: Account, y: Account)
    requires GoodAccounts(m, [d, x]) && y.id != x.id && y.id != d.id
    requires LoadEntries(m, base, DEFAULT_REGISTRY.(extra := map[]), raws) == TwoAndHeld(d, x, y)
    ensures ToFile(FromFile(m, base, Just(raws))) ==
            File(Entries([d, x, y]), Some(DEFAULT_DEFAULTS), [], Some(DEFAULT_BACKUP), map[])
  {
    NamesApart(m, [d, x]);
    assert [d, x][0] == d && [d, x][1] == x;
    assert Settle(m, TwoAndHeld(d, x, y)) == TwoAndHeld(d, x, y);
    assert FromFile(m, base, Just(raws)) == TwoAndHeld(d, x, y);
    assert Entries([d, x, y]) == Entries([d, x]) + [Entry(y, "")];
  }

  /** The file of a registry that holds b because a has its name: one run that
      cannot use a, and b takes a's place for good. */
  lemma AHeldEntryCanDisplace(m: Machine, home: string, base: string, d: Account, a: Account, b: Account)
    requires GoodAccounts(m, [d, a]) && GoodAccounts(m, [d, b]) && a.id != b.id && m.fold(a.name) == m.fold(b.name)
    requires AllFit(m, home, [d, a]) && AllFit(m, home, [d, b])
    requires !Fits(m, base, a) && AllFit(m, base, [d, b])
    ensures var raws := Entries([d, a, b]);
      var after := ToFile(FromFile(m, base, Just(raws)));
      && Read(m, home, Just(raws)) == [d, a]
      && ToFile(FromFile(m, home, Just(raws))).accounts == raws
      && Read(m, home, after) == [d, b]
      && ToFile(FromFile(m, home, Just(after.accounts))).accounts == Entries([d, b, a])
  {
    assert [d, a][0] == d && [d, a][1] == a && [d, b][1] == b && Apart(m, [d, b][0], [d, b][1]);
    NamesakeIsHeld(m, home, d, a, b);
    TwoAndHeldSaves(m, home, Entries([d, a, b]), d, a, b);
    NamesakeMovesIn(m, base, d, a, b);
    TwoAndHeldSaves(m, base, Entries([d, a, b]), d, b, a);
    NamesakeIsHeld(m, home, d, b, a);
    TwoAndHeldSaves(m, home, Entries([d, b, a]), d, b, a);
  }
}
