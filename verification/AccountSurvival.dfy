/**
 Why an account outlives runs that cannot use it: saving and loading under
 other Default directories, any number of times, loses nothing
 (src-tauri/src/claude/accounts.rs).
 */
module AccountSurvival {
  import opened Wrappers
  import opened Accounts
  import opened AccountFiles
  import opened AccountEntries
  import opened Shuffles

  /** What is held is what a load leaves: the ids are those the raw entries name,
      a default or project is held only for one of them, and a consent only when
      it names one. */
  ghost predicate WellHeld(reg: Registry) {
    var h, known := reg.held, IdsOf(reg.accounts) + reg.held.ids;
    && h.ids == NewIds(reg.accounts, h.accounts)
    && (h.newSession.Some? ==> h.newSession.value in h.ids && reg.defaults.newSession == DEFAULT_ID)
    && (h.bridge.Some? ==> h.bridge.value in h.ids && reg.defaults.bridge == DEFAULT_ID)
    && (forall dir :: dir in h.byProject ==>
        Absolute(dir) && h.byProject[dir] in h.ids && dir !in reg.defaults.byProject)
    && (forall raw :: raw in h.consents ==>
        raw.Pair? && raw.consent.giver in known && raw.consent.taker in known && !Known(reg.accounts, raw.consent))
  }

  /** The same registry, up to the order of accounts (the Default stays first)
      and consents. */
  ghost predicate Same(a: Registry, b: Registry) {
    && |a.accounts| > 0 && |b.accounts| > 0 && a.accounts[0] == b.accounts[0]
    && multiset(a.accounts) == multiset(b.accounts)
    && multiset(a.consents) == multiset(b.consents)
    && a.defaults == b.defaults && a.backup == b.backup && a.extra == b.extra
    && multiset(a.held.consents) == multiset(b.held.consents)
    && a.held.(consents := []) == b.held.(consents := [])
  }

  /** All the consents a registry writes. */
  function AllConsents(reg: Registry): seq<RawConsent> {
    Pairs(reg.consents) + reg.held.consents
  }

  /** The defaults a registry writes. */
  function AllDefaults(reg: Registry): Defaults {
    ToFile(reg).defaults.value
  }

  /** The file holds all of `reg`, its accounts in the order of `accounts` and its
      consents in the order of `consents`. */
  ghost predicate PresentsAs(file: File, reg: Registry, accounts: seq<Account>, consents: seq<RawConsent>) {
    && file == File(Entries(accounts) + reg.held.accounts, Some(AllDefaults(reg)), consents, Some(reg.backup),
                    reg.extra)
    && |accounts| > 0 && |reg.accounts| > 0 && accounts[0] == reg.accounts[0]
    && multiset(accounts) == multiset(reg.accounts)
    && multiset(consents) == multiset(AllConsents(reg))
  }

  ghost predicate Presents(file: File, reg: Registry) {
    exists accounts, consents :: PresentsAs(file, reg, accounts, consents)
  }

  // --------------------------------------------------------------------- defaults

  /** The defaults name only these ids. */
  ghost predicate RefersTo(ids: set<string>, d: Defaults) {
    && d.newSession in ids && d.bridge in ids
    && forall dir :: dir in d.byProject ==> Absolute(dir) && d.byProject[dir] in ids
  }

  /** What the loaded registry uses and what it holds make up the defaults. */
  lemma DefaultsSurvive(reg: Registry, ids: set<string>, d: Defaults)
    requires Covers(reg, ids) && RefersTo(ids, d) && Has(reg.accounts, DEFAULT_ID)
    requires reg.held.newSession.None? && reg.held.bridge.None?
    ensures var loaded := LoadDefaults(reg, Some(d));
      ToFile(loaded).defaults == Some(d) && GoodDefaults(loaded.accounts, loaded.defaults)
  {
    var loaded := LoadDefaults(reg, Some(d));
    assert loaded.held.byProject + loaded.defaults.byProject == d.byProject;
  }

  lemma AllDefaultsRefer(reg: Registry)
    requires GoodDefaults(reg.accounts, reg.defaults) && WellHeld(reg)
    ensures RefersTo(IdsOf(reg.accounts) + reg.held.ids, AllDefaults(reg))
  {
    forall id
      ensures Has(reg.accounts, id) ==> id in IdsOf(reg.accounts)
    {
      HasIsIds(reg.accounts, id);
    }
  }

  lemma HeldIsNew(accounts: seq<Account>, raws: seq<Raw>, id: string)
    requires id in NewIds(accounts, raws)
    ensures !Has(accounts, id)
  {
  }

  /** Loading the defaults that a registry wrote gives them back. */
  lemma DefaultsComeBack(reg: Registry, read: Registry)
    requires GoodDefaults(reg.accounts, reg.defaults) && WellHeld(reg)
    requires forall id :: Has(read.accounts, id) <==> Has(reg.accounts, id)
    requires read.held.ids == reg.held.ids && read.held.newSession.None? && read.held.bridge.None?
    ensures LoadDefaults(read, Some(AllDefaults(reg)))
         == read.(defaults := reg.defaults, held := read.held.(newSession := reg.held.newSession,
                  bridge := reg.held.bridge, byProject := reg.held.byProject))
  {
    var d, h := reg.defaults, reg.held;
    forall id | id in h.ids
      ensures !Has(read.accounts, id)
    {
      HeldIsNew(reg.accounts, h.accounts, id);
    }
    ProjectsComeBack(read, d.byProject, h.byProject);
    OneComesBack(read, d.newSession, h.newSession);
    OneComesBack(read, d.bridge, h.bridge);
  }

  lemma OneComesBack(read: Registry, own: string, held: Option<string>)
    requires if held.Some? then own == DEFAULT_ID && held.value in read.held.ids && !Has(read.accounts, held.value)
             else Has(read.accounts, own)
    ensures var all := OrElse(held, own);
      && own == (if Has(read.accounts, all) then all else DEFAULT_ID)
      && held == if !Has(read.accounts, all) && all in read.held.ids then Some(all) else None
  {
  }

  lemma ProjectsComeBack(read: Registry, own: map<string, string>, held: map<string, string>)
    requires forall id :: id in read.held.ids ==> !Has(read.accounts, id)
    requires forall dir :: dir in own ==> Absolute(dir) && Has(read.accounts, own[dir])
    requires forall dir :: dir in held ==> Absolute(dir) && held[dir] in read.held.ids && dir !in own
    ensures var all := held + own;
      && (map dir | dir in all && Absolute(dir) && Has(read.accounts, all[dir]) :: all[dir]) == own
      && (map dir | dir in all && Absolute(dir) && all[dir] in read.held.ids :: all[dir]) == held
  {
  }

  // --------------------------------------------------------------------- consents

  predicate Between(ids: set<string>, raw: RawConsent) {
    raw.Pair? && raw.consent.giver in ids && raw.consent.taker in ids
  }

  /** Consents between the accounts and the held entries; those between two
      accounts are written plainly, and once. */
  ghost predicate GoodRawConsents(own: set<string>, ids: set<string>, consents: seq<RawConsent>) {
    && (forall raw :: raw in consents ==> Between(ids, raw))
    && (forall raw :: raw in consents && Between(own, raw) ==> raw.spelling == "" && multiset(consents)[raw] <= 1)
  }

  function KnownIn(accounts: seq<Account>): RawConsent -> bool {
    (raw: RawConsent) => raw.Pair? && Known(accounts, raw.consent)
  }

  /** The consents of a list, without their spelling. */
  function Plain(consents: seq<RawConsent>): seq<Consent> {
    seq(|consents|, i requires 0 <= i < |consents| =>
      if consents[i].Pair? then consents[i].consent else Consent("", ""))
  }

  /** The consents between usable accounts are in, the others are held. */
  function ConsentsSplit(reg: Registry, consents: seq<RawConsent>): Registry {
    reg.(consents := Plain(Kept(consents, KnownIn(reg.accounts))),
         held := reg.held.(consents := Dropped(consents, KnownIn(reg.accounts))))
  }

  lemma PrefixConsents(own: set<string>, ids: set<string>, before: seq<RawConsent>, raw: RawConsent)
    requires GoodRawConsents(own, ids, before + [raw])
    ensures GoodRawConsents(own, ids, before) && Between(ids, raw)
    ensures Between(own, raw) ==> raw.spelling == "" && raw !in before
  {
    var all := before + [raw];
    assert forall x :: x in all <==> x in before || x == raw;
    assert multiset(all) == multiset(before) + multiset{raw};
    assert raw in before <==> multiset(before)[raw] > 0;
  }

  lemma {:induction false} ConsentsLoad(reg: Registry, own: set<string>, ids: set<string>, consents: seq<RawConsent>)
    requires Covers(reg, ids) && GoodRawConsents(own, ids, consents)
    requires forall id :: Has(reg.accounts, id) ==> id in own
    requires reg.consents == [] && reg.held.consents == []
    ensures LoadConsents(reg, consents) == ConsentsSplit(reg, consents)
    decreases |consents|
  {
    if consents != [] {
      var n := |consents| - 1;
      var before, raw := consents[..n], consents[n];
      assert consents == before + [raw];
      PrefixConsents(own, ids, before, raw);
      ConsentsLoad(reg, own, ids, before);
      OneMoreConsent(reg, own, before, raw);
    }
  }

  lemma OneMoreConsent(reg: Registry, own: set<string>, before: seq<RawConsent>, raw: RawConsent)
    requires raw.Pair? && (Between(own, raw) ==> raw.spelling == "" && raw !in before)
    requires forall x :: x in before && Between(own, x) ==> x.spelling == ""
    requires forall id :: Has(reg.accounts, id) ==> id in own
    requires HeldOrKnown(reg, raw.consent.giver) && HeldOrKnown(reg, raw.consent.taker)
    ensures LoadConsent(ConsentsSplit(reg, before), raw) == ConsentsSplit(reg, before + [raw])
  {
    var p := KnownIn(reg.accounts);
    SplitGrows(before, p, raw);
    PlainGrows(Kept(before, p), raw);
    if p(raw) {
      NotYetKept(reg.accounts, own, before, raw);
    }
  }

  lemma PlainGrows(kept: seq<RawConsent>, raw: RawConsent)
    requires raw.Pair?
    ensures Plain(kept + [raw]) == Plain(kept) + [raw.consent]
  {
  }

  lemma NotYetKept(accounts: seq<Account>, own: set<string>, before: seq<RawConsent>, raw: RawConsent)
    requires Between(own, raw) && raw.spelling == "" && raw !in before
    requires forall x :: x in before && Between(own, x) ==> x.spelling == ""
    requires forall id :: Has(accounts, id) ==> id in own
    ensures raw.consent !in Plain(Kept(before, KnownIn(accounts)))
  {
    var kept := Kept(before, KnownIn(accounts));
    SplitElements(before, KnownIn(accounts));
    forall i | 0 <= i < |kept|
      ensures Plain(kept)[i] != raw.consent
    {
      assert kept[i] in before && Between(own, kept[i]) && kept[i] != raw;
    }
  }

  /** The plain consents written again are what was read. */
  lemma PlainComesBack(consents: seq<RawConsent>)
    requires forall raw :: raw in consents ==> raw.Pair? && raw.spelling == ""
    ensures Pairs(Plain(consents)) == consents
  {
    forall i | 0 <= i < |consents|
      ensures Pairs(Plain(consents))[i] == consents[i]
    {
      assert consents[i] in consents;
    }
  }

  lemma KeptArePlain(own: set<string>, ids: set<string>, accounts: seq<Account>, consents: seq<RawConsent>)
    requires GoodRawConsents(own, ids, consents) && forall id :: Has(accounts, id) ==> id in own
    ensures Pairs(Plain(Kept(consents, KnownIn(accounts)))) == Kept(consents, KnownIn(accounts))
  {
    SplitElements(consents, KnownIn(accounts));
    PlainComesBack(Kept(consents, KnownIn(accounts)));
  }

  lemma AllConsentsAreGood(reg: Registry)
    requires GoodConsents(reg.accounts, reg.consents) && WellHeld(reg)
    ensures GoodRawConsents(IdsOf(reg.accounts), IdsOf(reg.accounts) + reg.held.ids, AllConsents(reg))
  {
    var own, plain, held := IdsOf(reg.accounts), Pairs(reg.consents), reg.held.consents;
    forall id
      ensures Has(reg.accounts, id) <==> id in own
    {
      HasIsIds(reg.accounts, id);
    }
    assert Distinct(plain);
    forall raw | raw in AllConsents(reg)
      ensures Between(own + reg.held.ids, raw)
      ensures Between(own, raw) ==> raw.spelling == "" && multiset(AllConsents(reg))[raw] <= 1
    {
      assert raw in plain || raw in held;
      DistinctOnce(plain, raw);
      assert multiset(AllConsents(reg)) == multiset(plain) + multiset(held);
      if Between(own, raw) {
        assert raw !in held;
        assert multiset(held)[raw] == 0;
      }
    }
  }

  lemma ShuffledConsents(own: set<string>, ids: set<string>, was: seq<RawConsent>, now: seq<RawConsent>)
    requires GoodRawConsents(own, ids, was) && multiset(was) == multiset(now)
    ensures GoodRawConsents(own, ids, now)
  {
    assert forall raw :: raw in now <==> raw in multiset(now);
    assert forall raw :: raw in was <==> raw in multiset(was);
  }

  lemma {:induction false} PlainCount(consents: seq<RawConsent>, c: Consent)
    requires forall raw :: raw in consents ==> raw.Pair? && raw.spelling == ""
    ensures multiset(Plain(consents))[c] == multiset(consents)[Pair(c, "")]
  {
    if consents != [] {
      var n := |consents| - 1;
      var before, raw := consents[..n], consents[n];
      assert consents == before + [raw] && raw in consents;
      assert Plain(consents) == Plain(before) + [raw.consent];
      PlainCount(before, c);
    }
  }

  lemma PlainShuffle(was: seq<RawConsent>, now: seq<RawConsent>)
    requires forall raw :: raw in was ==> raw.Pair? && raw.spelling == ""
    requires multiset(was) == multiset(now)
    ensures multiset(Plain(was)) == multiset(Plain(now))
  {
    assert forall raw :: raw in now <==> raw in multiset(now);
    assert forall raw :: raw in was <==> raw in multiset(was);
    forall c
      ensures multiset(Plain(was))[c] == multiset(Plain(now))[c]
    {
      PlainCount(was, c);
      PlainCount(now, c);
    }
  }

  /** At home the consents split as they were. */
  lemma ConsentsComeBack(reg: Registry, accounts: seq<Account>, consents: seq<RawConsent>)
    requires GoodConsents(reg.accounts, reg.consents) && WellHeld(reg)
    requires forall id :: Has(accounts, id) <==> Has(reg.accounts, id)
    requires multiset(consents) == multiset(AllConsents(reg))
    ensures multiset(Plain(Kept(consents, KnownIn(accounts)))) == multiset(reg.consents)
    ensures multiset(Dropped(consents, KnownIn(accounts))) == multiset(reg.held.consents)
  {
    AllConsentsSplit(reg, accounts);
    SplitOfShuffle(AllConsents(reg), consents, KnownIn(accounts));
    PlainParts(reg.consents, AllConsents(reg), consents, KnownIn(accounts));
  }

  lemma PlainParts(plain: seq<Consent>, all: seq<RawConsent>, consents: seq<RawConsent>, p: RawConsent -> bool)
    requires Kept(all, p) == Pairs(plain) && multiset(consents) == multiset(all)
    ensures multiset(Plain(Kept(consents, p))) == multiset(plain)
  {
    SplitOfShuffle(all, consents, p);
    PlainShuffle(Pairs(plain), Kept(consents, p));
    assert Plain(Pairs(plain)) == plain;
  }

  lemma AllConsentsSplit(reg: Registry, accounts: seq<Account>)
    requires GoodConsents(reg.accounts, reg.consents) && WellHeld(reg)
    requires forall id :: Has(accounts, id) <==> Has(reg.accounts, id)
    ensures Kept(AllConsents(reg), KnownIn(accounts)) == Pairs(reg.consents)
    ensures Dropped(AllConsents(reg), KnownIn(accounts)) == reg.held.consents
  {
    var p, plain := KnownIn(accounts), Pairs(reg.consents);
    KeptOfConcat(plain, reg.held.consents, p);
    KeptWhole(plain, p);
    DroppedWhole(reg.held.consents, p);
  }

  // ------------------------------------------------------------------------- runs

  /** What a run makes of a file that presents a registry. */
  function LoadedAs(m: Machine, base: string, reg: Registry, accounts: seq<Account>,
                    consents: seq<RawConsent>): Registry {
    ConsentsSplit(LoadDefaults(HeldOn(Split(m, base, reg.extra, accounts), reg.held.accounts), Some(AllDefaults(reg))),
                  consents).(backup := reg.backup)
  }

  /** Beside the accounts this run can use, it can use nothing of what is held. */
  ghost predicate StaysHeld(m: Machine, base: string, reg: Registry) {
    AllRefused(m, base, Kept(reg.accounts, FitsIn(m, base)), reg.held.accounts)
  }

  lemma PresentedLoads(m: Machine, base: string, file: File, reg: Registry, accounts: seq<Account>,
                       consents: seq<RawConsent>)
    requires PresentsAs(file, reg, accounts, consents) && GoodBackup(reg.backup) && GoodAccounts(m, accounts)
    requires reg.held.ids == NewIds(accounts, reg.held.accounts)
    requires GoodRawConsents(IdsOf(accounts), IdsOf(accounts) + reg.held.ids, consents)
    requires AllRefused(m, base, Kept(accounts, FitsIn(m, base)), reg.held.accounts)
    ensures FromFile(m, base, file) == LoadedAs(m, base, reg, accounts, consents)
  {
    GoodThenRefused(m, base, reg.extra, accounts, reg.held.accounts);
    SplitCovers(m, base, reg.extra, accounts, reg.held.accounts);
    var split := HeldOn(Split(m, base, reg.extra, accounts), reg.held.accounts);
    var named := LoadDefaults(split, Some(AllDefaults(reg)));
    ConsentsLoad(named, IdsOf(accounts), IdsOf(accounts) + reg.held.ids, consents);
  }

  lemma SavedConsents(reg: Registry, own: set<string>, ids: set<string>, consents: seq<RawConsent>)
    requires GoodRawConsents(own, ids, consents) && forall id :: Has(reg.accounts, id) ==> id in own
    ensures var here := KnownIn(reg.accounts);
      ToFile(ConsentsSplit(reg, consents)) == ToFile(reg).(consents := Kept(consents, here) + Dropped(consents, here))
  {
    KeptArePlain(own, ids, reg.accounts, consents);
  }

  lemma SavedSplit(m: Machine, base: string, extra: map<string, string>, accounts: seq<Account>, raws: seq<Raw>,
                   defaults: Option<Defaults>)
    ensures ToFile(LoadDefaults(HeldOn(Split(m, base, extra, accounts), raws), defaults)).accounts
            == Entries(Kept(accounts, FitsIn(m, base)) + Dropped(accounts, FitsIn(m, base))) + raws
  {
    EntriesConcat(Kept(accounts, FitsIn(m, base)), Dropped(accounts, FitsIn(m, base)));
    DefaultsAddNoEntry(HeldOn(Split(m, base, extra, accounts), raws), defaults);
  }

  lemma DefaultsAddNoEntry(reg: Registry, defaults: Option<Defaults>)
    ensures ToFile(LoadDefaults(reg, defaults)).accounts == Entries(reg.accounts) + reg.held.accounts
  {
  }

  lemma EntriesConcat(a: seq<Account>, b: seq<Account>)
    ensures Entries(a + b) == Entries(a) + Entries(b)
  {
  }

  /** What that run saves. */
  lemma SavedAgain(m: Machine, base: string, reg: Registry, accounts: seq<Account>, consents: seq<RawConsent>)
    requires GoodAccounts(m, accounts) && reg.held.ids == NewIds(accounts, reg.held.accounts)
    requires RefersTo(IdsOf(accounts) + reg.held.ids, AllDefaults(reg))
    requires GoodRawConsents(IdsOf(accounts), IdsOf(accounts) + reg.held.ids, consents)
    ensures var fits, here := FitsIn(m, base), KnownIn(Kept(accounts, FitsIn(m, base)));
      ToFile(LoadedAs(m, base, reg, accounts, consents))
      == File(Entries(Kept(accounts, fits) + Dropped(accounts, fits)) + reg.held.accounts, Some(AllDefaults(reg)),
              Kept(consents, here) + Dropped(consents, here), Some(reg.backup), reg.extra)
  {
    var split := HeldOn(Split(m, base, reg.extra, accounts), reg.held.accounts);
    SplitCovers(m, base, reg.extra, accounts, reg.held.accounts);
    assert split.accounts[0].id == DEFAULT_ID;
    var named := LoadDefaults(split, Some(AllDefaults(reg)));
    DefaultsSurvive(split, IdsOf(accounts) + reg.held.ids, AllDefaults(reg));
    SavedSplit(m, base, reg.extra, accounts, reg.held.accounts, Some(AllDefaults(reg)));
    SavedConsents(named, IdsOf(accounts), IdsOf(accounts) + reg.held.ids, consents);
  }

  lemma SplitPresents(file: File, reg: Registry, accounts: seq<Account>, consents: seq<RawConsent>,
                      fits: Account -> bool, here: RawConsent -> bool)
    requires |reg.accounts| > 0 && |Kept(accounts, fits)| > 0 && Kept(accounts, fits)[0] == reg.accounts[0]
    requires multiset(accounts) == multiset(reg.accounts) && multiset(consents) == multiset(AllConsents(reg))
    requires file == File(Entries(Kept(accounts, fits) + Dropped(accounts, fits)) + reg.held.accounts,
                          Some(AllDefaults(reg)), Kept(consents, here) + Dropped(consents, here), Some(reg.backup),
                          reg.extra)
    ensures Presents(file, reg)
  {
    SplitIsShuffle(accounts, fits);
    SplitIsShuffle(consents, here);
    assert PresentsAs(file, reg, Kept(accounts, fits) + Dropped(accounts, fits),
                      Kept(consents, here) + Dropped(consents, here));
  }

  /** Reordered accounts and consents keep all that a load needs. */
  lemma PresentedIsGood(m: Machine, home: string, reg: Registry, accounts: seq<Account>, consents: seq<RawConsent>)
    requires WellFormed(m, home, reg) && WellHeld(reg)
    requires |accounts| > 0 && accounts[0] == reg.accounts[0] && multiset(accounts) == multiset(reg.accounts)
    requires multiset(consents) == multiset(AllConsents(reg))
    ensures GoodAccounts(m, accounts) && AllFit(m, home, accounts)
    ensures forall x :: x in accounts <==> x in reg.accounts
    ensures IdsOf(accounts) == IdsOf(reg.accounts) && forall id :: Has(accounts, id) <==> Has(reg.accounts, id)
    ensures reg.held.ids == NewIds(accounts, reg.held.accounts)
    ensures RefersTo(IdsOf(accounts) + reg.held.ids, AllDefaults(reg))
    ensures GoodRawConsents(IdsOf(accounts), IdsOf(accounts) + reg.held.ids, consents)
  {
    ShuffleKeepsGood(m, reg.accounts, accounts);
    ShuffleKeepsIds(reg.accounts, accounts);
    ShuffleKeepsFit(m, home, reg.accounts, accounts);
    SameNewIds(reg.accounts, accounts, reg.held.accounts);
    AllDefaultsRefer(reg);
    AllConsentsAreGood(reg);
    ShuffledConsents(IdsOf(accounts), IdsOf(accounts) + reg.held.ids, AllConsents(reg), consents);
  }

  lemma ShuffleKeepsIds(was: seq<Account>, now: seq<Account>)
    requires multiset(was) == multiset(now)
    ensures forall x :: x in now <==> x in was
    ensures IdsOf(now) == IdsOf(was) && forall id :: Has(now, id) <==> Has(was, id)
  {
    assert forall x :: x in was <==> x in multiset(was);
    assert forall x :: x in now <==> x in multiset(now);
    forall id
      ensures Has(now, id) <==> Has(was, id)
    {
      HasIsIds(now, id);
      HasIsIds(was, id);
    }
  }

  lemma ShuffleKeepsFit(m: Machine, base: string, was: seq<Account>, now: seq<Account>)
    requires AllFit(m, base, was) && forall x :: x in now <==> x in was
    ensures AllFit(m, base, now)
  {
    assert forall i :: 0 <= i < |now| ==> now[i] in was;
  }

  lemma SameNewIds(was: seq<Account>, now: seq<Account>, raws: seq<Raw>)
    requires forall id :: Has(was, id) <==> Has(now, id)
    ensures NewIds(was, raws) == NewIds(now, raws)
  {
  }

  lemma StaysHeldReordered(m: Machine, base: string, reg: Registry, accounts: seq<Account>)
    requires StaysHeld(m, base, reg) && forall x :: x in accounts <==> x in reg.accounts
    ensures AllRefused(m, base, Kept(accounts, FitsIn(m, base)), reg.held.accounts)
  {
    SplitElements(accounts, FitsIn(m, base));
    SplitElements(reg.accounts, FitsIn(m, base));
    RefusedByElements(m, base, Kept(reg.accounts, FitsIn(m, base)), Kept(accounts, FitsIn(m, base)), reg.held.accounts);
  }

  /** One odd run loses nothing: whatever its Default directory, if it can use
      nothing of what is held, the file it saves presents the same registry. */
  lemma OddRunKeepsAll(m: Machine, base: string, home: string, file: File, reg: Registry)
    requires WellFormed(m, home, reg) && WellHeld(reg) && StaysHeld(m, base, reg) && Presents(file, reg)
    ensures Presents(ToFile(FromFile(m, base, file)), reg)
  {
    var accounts, consents :| PresentsAs(file, reg, accounts, consents);
    PresentedIsGood(m, home, reg, accounts, consents);
    StaysHeldReordered(m, base, reg, accounts);
    PresentedLoads(m, base, file, reg, accounts, consents);
    SavedAgain(m, base, reg, accounts, consents);
    KeptIsGood(m, accounts, FitsIn(m, base));
    SplitPresents(ToFile(FromFile(m, base, file)), reg, accounts, consents, FitsIn(m, base),
                  KnownIn(Kept(accounts, FitsIn(m, base))));
  }

  /** Where every account fits, all is as it was. */
  lemma AllHere(m: Machine, home: string, reg: Registry, accounts: seq<Account>, consents: seq<RawConsent>)
    requires AllFit(m, home, accounts) && GoodDefaults(reg.accounts, reg.defaults) && WellHeld(reg)
    requires forall id :: Has(accounts, id) <==> Has(reg.accounts, id)
    requires reg.held.ids == NewIds(accounts, reg.held.accounts)
    ensures LoadedAs(m, home, reg, accounts, consents)
            == reg.(accounts := accounts, consents := Plain(Kept(consents, KnownIn(accounts))),
                    held := reg.held.(consents := Dropped(consents, KnownIn(accounts))))
  {
    SplitWhole(m, home, reg.extra, accounts, reg.held.accounts);
    KeptWhole(accounts, FitsIn(m, home));
    DefaultsComeBack(reg, HeldOn(Split(m, home, reg.extra, accounts), reg.held.accounts));
  }

  lemma SplitWhole(m: Machine, home: string, extra: map<string, string>, accounts: seq<Account>, raws: seq<Raw>)
    requires AllFit(m, home, accounts)
    ensures HeldOn(Split(m, home, extra, accounts), raws)
         == DEFAULT_REGISTRY.(extra := extra, accounts := accounts,
                              held := NOTHING_HELD.(accounts := raws, ids := NewIds(accounts, raws)))
  {
    KeptWhole(accounts, FitsIn(m, home));
    NothingDropped();
    assert [] + raws == raws && {} + NewIds(accounts, raws) == NewIds(accounts, raws);
  }

  lemma NothingDropped()
    ensures IdsOf([]) == {} && Entries([]) == []
  {
  }

  /** Back under the original directory, the registry is what it was. */
  lemma LoadedAtHome(m: Machine, home: string, file: File, reg: Registry)
    requires WellFormed(m, home, reg) && WellHeld(reg) && StaysHeld(m, home, reg) && Presents(file, reg)
    ensures Same(reg, FromFile(m, home, file))
  {
    var accounts, consents :| PresentsAs(file, reg, accounts, consents);
    PresentedIsGood(m, home, reg, accounts, consents);
    StaysHeldReordered(m, home, reg, accounts);
    PresentedLoads(m, home, file, reg, accounts, consents);
    AllHere(m, home, reg, accounts, consents);
    ConsentsComeBack(reg, accounts, consents);
  }

  /** The file after a run under each of the directories in turn. */
  function AfterRuns(m: Machine, bases: seq<string>, file: File): File {
    if bases == [] then file else AfterRuns(m, bases[1..], ToFile(FromFile(m, bases[0], file)))
  }

  lemma {:induction false} RunsKeepAll(m: Machine, home: string, bases: seq<string>, file: File, reg: Registry)
    requires WellFormed(m, home, reg) && WellHeld(reg) && Presents(file, reg)
    requires forall i :: 0 <= i < |bases| ==> StaysHeld(m, bases[i], reg)
    ensures Presents(AfterRuns(m, bases, file), reg)
  {
    if bases != [] {
      OddRunKeepsAll(m, bases[0], home, file, reg);
      RunsKeepAll(m, home, bases[1..], ToFile(FromFile(m, bases[0], file)), reg);
    }
  }

  /** Survival: a well-formed registry, saved, then loaded and saved by any number
      of runs under other Default directories, loads under the original one as
      it was, up to the order of accounts and consents, as long as none of these
      runs can use an entry that is held. */
  lemma AccountsSurvive(m: Machine, home: string, bases: seq<string>, reg: Registry)
    requires WellFormed(m, home, reg) && WellHeld(reg) && StaysHeld(m, home, reg)
    requires forall i :: 0 <= i < |bases| ==> StaysHeld(m, bases[i], reg)
    ensures Same(reg, FromFile(m, home, AfterRuns(m, bases, ToFile(reg))))
  {
    assert PresentsAs(ToFile(reg), reg, reg.accounts, AllConsents(reg));
    RunsKeepAll(m, home, bases, ToFile(reg), reg);
    LoadedAtHome(m, home, AfterRuns(m, bases, ToFile(reg)), reg);
  }

  /** Nothing unreadable is ever of use: survival with any unreadable entries. */
  lemma UnreadableStaysHeld(m: Machine, base: string, reg: Registry)
    requires forall i :: 0 <= i < |reg.held.accounts| ==> reg.held.accounts[i].Unreadable?
    ensures StaysHeld(m, base, reg)
  {
  }

  /** Survival without any condition, when nothing is held. */
  lemma AccountsSurviveWithNothingHeld(m: Machine, home: string, bases: seq<string>, reg: Registry)
    requires WellFormed(m, home, reg) && reg.held == NOTHING_HELD
    ensures Same(reg, FromFile(m, home, AfterRuns(m, bases, ToFile(reg))))
  {
    assert NewIds(reg.accounts, []) == {};
    AccountsSurvive(m, home, bases, reg);
  }
}
