/**
 Which accounts come home (src-tauri/src/claude/accounts.rs): what a load holds
 survives like what it uses, and an account an odd run left out is lost exactly
 when that run took something into use that stands in its way.
 */
module AccountReturns {
  import opened Wrappers
  import opened Accounts
  import opened AccountFiles
  import opened AccountEntries
  import opened AccountSurvival
  import opened AccountLoading
  import opened Shuffles

  // ----------------------------------------------------- what a load holds is held well

  /** The entries read so far: the ids held are those of held entries, and every
      held entry is refused beside the accounts. */
  ghost predicate HoldsWell(m: Machine, base: string, reg: Registry) {
    && NewIds(reg.accounts, reg.held.accounts) <= reg.held.ids
    && (forall id :: id in reg.held.ids ==>
        IsAccountId(id) && exists raw :: raw in reg.held.accounts && RawId(raw) == Some(id))
    && AllRefused(m, base, reg.accounts, reg.held.accounts)
  }

  /** More accounts refuse no less. */
  lemma StillRefused(m: Machine, base: string, accounts: seq<Account>, b: Account, raw: Raw)
    requires Refused(m, base, accounts, raw)
    ensures Refused(m, base, accounts + [b], raw)
  {
    var all := accounts + [b];
    assert forall i :: 0 <= i < |accounts| ==> all[i] == accounts[i];
    if raw.Entry? {
      var name := CleanName(raw.account.name);
      if Has(accounts, raw.account.id) {
        var i :| 0 <= i < |accounts| && accounts[i].id == raw.account.id;
        assert all[i].id == raw.account.id;
      }
      if name.Some? && NameTaken(m, accounts, name.value, None) {
        var i :| 0 <= i < |accounts| && Some(accounts[i].id) != None && m.fold(accounts[i].name) == m.fold(name.value);
        assert Some(all[i].id) != None && m.fold(all[i].name) == m.fold(name.value);
      }
    }
  }

  lemma PushHoldsWell(m: Machine, base: string, reg: Registry, b: Account)
    requires HoldsWell(m, base, reg)
    ensures HoldsWell(m, base, reg.(accounts := reg.accounts + [b]))
  {
    var all := reg.accounts + [b];
    forall i | 0 <= i < |reg.held.accounts|
      ensures Refused(m, base, all, reg.held.accounts[i])
    {
      StillRefused(m, base, reg.accounts, b, reg.held.accounts[i]);
    }
    assert forall id :: Has(reg.accounts, id) ==> Has(all, id) by {
      assert forall i :: 0 <= i < |reg.accounts| ==> all[i] == reg.accounts[i];
    }
  }

  lemma HoldHoldsWell(m: Machine, base: string, reg: Registry, raw: Raw)
    requires HoldsWell(m, base, reg) && Refused(m, base, reg.accounts, raw)
    ensures HoldsWell(m, base, Hold(reg, raw))
  {
    NewIdsGrow(reg.accounts, reg.held.accounts, raw);
    var next := Hold(reg, raw);
    forall id | id in next.held.ids
      ensures IsAccountId(id) && exists x :: x in next.held.accounts && RawId(x) == Some(id)
    {
      if id in reg.held.ids {
        var x :| x in reg.held.accounts && RawId(x) == Some(id);
        assert x in next.held.accounts;
      } else {
        assert raw in next.held.accounts;
      }
    }
  }

  lemma {:induction false} EntriesHoldWell(m: Machine, base: string, extra: map<string, string>, raws: seq<Raw>)
    requires DefaultComesFirst(raws)
    ensures HoldsWell(m, base, LoadEntries(m, base, DEFAULT_REGISTRY.(extra := extra), raws))
    decreases |raws|
  {
    var start := DEFAULT_REGISTRY.(extra := extra);
    assert NewIds(start.accounts, []) == {};
    if raws != [] {
      var n := |raws| - 1;
      EntriesHoldWell(m, base, extra, raws[..n]);
      var before := LoadEntries(m, base, start, raws[..n]);
      match raws[n]
      case Unreadable(_, _) => HoldHoldsWell(m, base, before, raws[n]);
      case Entry(a, _) =>
        if a.id == DEFAULT_ID {
          assert n == 0 && raws[..0] == [];
          var first := LoadEntry(m, base, start, raws[0]);
          assert NewIds(first.accounts, []) == {};
        } else if ValidateLoaded(m, base, before.accounts, a).None? {
          HoldHoldsWell(m, base, before, raws[n]);
        } else {
          PushHoldsWell(m, base, before, ValidateLoaded(m, base, before.accounts, a).value);
        }
    }
  }

  lemma SettledHoldsExactly(m: Machine, base: string, read: Registry)
    requires |read.accounts| > 0 && HoldsWell(m, base, read) && DefaultNameApart(m, read.accounts)
    ensures var settled := Settle(m, read);
      settled.accounts == read.accounts && settled.held.ids == NewIds(read.accounts, read.held.accounts)
  {
    var settled := Settle(m, read);
    forall id | id in settled.held.ids
      ensures id in NewIds(read.accounts, read.held.accounts)
    {
      var raw :| raw in read.held.accounts && RawId(raw) == Some(id);
    }
  }

  /** A held consent names a held entry, and otherwise accounts. */
  ghost predicate HeldConsent(reg: Registry, raw: RawConsent) {
    raw.Pair? && HeldOrKnown(reg, raw.consent.giver) && HeldOrKnown(reg, raw.consent.taker)
    && !Known(reg.accounts, raw.consent)
  }

  lemma {:induction false} HeldConsentsAreGood(reg: Registry, raws: seq<RawConsent>)
    requires reg.held.consents == []
    ensures var read := LoadConsents(reg, raws);
      && read == reg.(consents := read.consents, held := reg.held.(consents := read.held.consents))
      && forall raw :: raw in read.held.consents ==> HeldConsent(reg, raw)
    decreases |raws|
  {
    if raws != [] {
      HeldConsentsAreGood(reg, raws[..|raws| - 1]);
    }
  }

  lemma DefaultsAreHeldWell(reg: Registry, defaults: Option<Defaults>)
    requires reg.held.newSession.None? && reg.held.bridge.None? && reg.held.byProject == map[]
    requires forall id :: id in reg.held.ids ==> !Has(reg.accounts, id)
    ensures var named := LoadDefaults(reg, defaults);
      var h, d := named.held, named.defaults;
      && named == reg.(defaults := d, held := reg.held.(newSession := h.newSession, bridge := h.bridge,
                                                        byProject := h.byProject))
      && (h.newSession.Some? ==> h.newSession.value in h.ids && d.newSession == DEFAULT_ID)
      && (h.bridge.Some? ==> h.bridge.value in h.ids && d.bridge == DEFAULT_ID)
      && (forall dir :: dir in h.byProject ==> Absolute(dir) && h.byProject[dir] in h.ids && dir !in d.byProject)
  {
  }

  /** What any load leaves, when the Default comes first: well formed, held well,
      and of no further use to this run. */
  lemma LoadIsWellHeld(m: Machine, base: string, file: File)
    requires Stable(m) && DefaultComesFirst(file.accounts)
    ensures var reg := FromFile(m, base, file);
      WellFormed(m, base, reg) && WellHeld(reg) && StaysHeld(m, base, reg)
  {
    var start := DEFAULT_REGISTRY.(extra := file.extra);
    var read := LoadEntries(m, base, start, file.accounts);
    LoadIsWellFormed(m, base, file);
    EntriesAreGood(m, base, file.extra, file.accounts);
    EntriesTouchAccounts(m, base, start, file.accounts);
    EntriesHoldWell(m, base, file.extra, file.accounts);
    SettledHoldsExactly(m, base, read);
    var settled := Settle(m, read);
    DefaultsAreHeldWell(settled, file.defaults);
    var named := LoadDefaults(settled, file.defaults);
    HeldConsentsAreGood(named, file.consents);
    var reg := FromFile(m, base, file);
    KnownAreIds(reg);
    KeptWhole(reg.accounts, FitsIn(m, base));
  }

  lemma KnownAreIds(reg: Registry)
    ensures forall id :: HeldOrKnown(reg, id) <==> id in IdsOf(reg.accounts) + reg.held.ids
  {
    forall id
      ensures HeldOrKnown(reg, id) <==> id in IdsOf(reg.accounts) + reg.held.ids
    {
      HasIsIds(reg.accounts, id);
    }
  }

  /** So whatever was loaded, held entries included, survives runs under other
      directories that can use nothing of what is held. */
  lemma LoadedRegistriesSurvive(m: Machine, home: string, file: File, bases: seq<string>)
    requires Stable(m) && DefaultComesFirst(file.accounts)
    requires forall i :: 0 <= i < |bases| ==> StaysHeld(m, bases[i], FromFile(m, home, file))
    ensures var reg := FromFile(m, home, file); Same(reg, FromFile(m, home, AfterRuns(m, bases, ToFile(reg))))
  {
    LoadIsWellHeld(m, home, file);
    AccountsSurvive(m, home, bases, FromFile(m, home, file));
  }

  // --------------------------------------------------------------------- coming home

  function ApartFrom(m: Machine, others: seq<Account>): Account -> bool {
    (a: Account) => forall i :: 0 <= i < |others| ==> Apart(m, others[i], a)
  }

  lemma NotApartIsRefused(m: Machine, base: string, accounts: seq<Account>, i: nat, a: Account)
    requires i < |accounts| && GoodOther(m, a) && !Apart(m, accounts[i], a)
    ensures ValidateLoaded(m, base, accounts, a).None?
  {
    assert accounts[i].id == a.id ==> Has(accounts, a.id);
    assert Some(accounts[i].id) != None;
    assert m.fold(accounts[i].name) == m.fold(a.name) ==> NameTaken(m, accounts, a.name, None);
  }

  /** Accounts fine by themselves, usable at home, and apart from each other. */
  ghost predicate GoodList(m: Machine, home: string, list: seq<Account>) {
    && (forall i :: 0 <= i < |list| ==> GoodOther(m, list[i]) && Fits(m, home, list[i]))
    && (forall i, j :: 0 <= i < j < |list| ==> Apart(m, list[i], list[j]))
  }

  lemma GoodListPrefix(m: Machine, home: string, before: seq<Account>, a: Account)
    requires GoodList(m, home, before + [a])
    ensures GoodList(m, home, before) && GoodOther(m, a) && Fits(m, home, a)
    ensures forall x :: x in before ==> Apart(m, x, a)
  {
    var all := before + [a];
    assert all[|before|] == a;
    assert forall i :: 0 <= i < |before| ==> all[i] == before[i];
  }

  /** Good accounts that fit load exactly when they stand apart from those that
      loaded before them. */
  lemma {:induction false} ApartComeBack(m: Machine, home: string, reg: Registry, list: seq<Account>)
    requires |reg.accounts| > 0 && GoodList(m, home, list)
    ensures LoadEntries(m, home, reg, Entries(list)).accounts == reg.accounts + Kept(list, ApartFrom(m, reg.accounts))
    decreases |list|
  {
    if list != [] {
      var n := |list| - 1;
      var before, a := list[..n], list[n];
      assert list == before + [a];
      GoodListPrefix(m, home, before, a);
      ApartComeBack(m, home, reg, before);
      OneMoreEntry(m, home, reg, before, a);
      SplitGrows(before, ApartFrom(m, reg.accounts), a);
      NextComesBack(m, home, LoadEntries(m, home, reg, Entries(before)), reg.accounts, before, a);
    }
  }

  lemma ApartIsTaken(m: Machine, home: string, now: Registry, first: seq<Account>, kept: seq<Account>, a: Account)
    requires GoodOther(m, a) && Fits(m, home, a) && now.accounts == first + kept && |first| > 0
    requires ApartFrom(m, first)(a) && forall x :: x in kept ==> Apart(m, x, a)
    ensures LoadEntry(m, home, now, Entry(a, "")).accounts == now.accounts + [a]
  {
    forall i | 0 <= i < |now.accounts|
      ensures Apart(m, now.accounts[i], a)
    {
      assert i >= |first| ==> now.accounts[i] == kept[i - |first|];
    }
    ValidateGood(m, home, now.accounts, a);
  }

  lemma NotApartIsHeld(m: Machine, home: string, now: Registry, first: seq<Account>, a: Account)
    requires GoodOther(m, a) && first <= now.accounts && |first| > 0 && !ApartFrom(m, first)(a)
    ensures LoadEntry(m, home, now, Entry(a, "")).accounts == now.accounts
  {
    var i :| 0 <= i < |first| && !Apart(m, first[i], a);
    NotApartIsRefused(m, home, now.accounts, i, a);
  }

  lemma NextComesBack(m: Machine, home: string, now: Registry, first: seq<Account>, before: seq<Account>, a: Account)
    requires |first| > 0 && GoodOther(m, a) && Fits(m, home, a)
    requires now.accounts == first + Kept(before, ApartFrom(m, first))
    requires forall x :: x in before ==> Apart(m, x, a)
    ensures LoadEntry(m, home, now, Entry(a, "")).accounts
         == now.accounts + (if ApartFrom(m, first)(a) then [a] else [])
  {
    SplitElements(before, ApartFrom(m, first));
    if ApartFrom(m, first)(a) {
      ApartIsTaken(m, home, now, first, Kept(before, ApartFrom(m, first)), a);
    } else {
      NotApartIsHeld(m, home, now, first, a);
    }
  }

  /** Loading only adds, to the accounts and to what is held. */
  lemma {:induction false} LoadGrows(m: Machine, base: string, reg: Registry, raws: seq<Raw>)
    requires |reg.accounts| > 0 && forall i :: 0 <= i < |raws| ==> !IsDefaultEntry(raws[i])
    ensures var read := LoadEntries(m, base, reg, raws);
      && reg.accounts <= read.accounts && reg.held.accounts <= read.held.accounts
      && forall raw :: raw in read.held.accounts ==> raw in reg.held.accounts || raw in raws
    decreases |raws|
  {
    if raws != [] {
      var n := |raws| - 1;
      LoadGrows(m, base, reg, raws[..n]);
      var before, after := LoadEntries(m, base, reg, raws[..n]), LoadEntries(m, base, reg, raws);
      assert after == LoadEntry(m, base, before, raws[n]);
      assert before.accounts <= after.accounts && before.held.accounts <= after.held.accounts;
      assert raws[n] in raws && forall raw :: raw in raws[..n] ==> raw in raws;
    }
  }

  /** No entry beyond the first may be the Default's. */
  predicate NoDefault(raws: seq<Raw>) {
    forall i :: 0 <= i < |raws| ==> !IsDefaultEntry(raws[i])
  }

  /** What a run that used `used` and left out `dropped` saves. */
  ghost predicate Saves(m: Machine, home: string, file: File, used: seq<Account>, dropped: seq<Account>,
                        more: seq<Raw>) {
    && file.accounts == Entries(used) + (Entries(dropped) + more)
    && GoodAccounts(m, used) && NoDefault(more) && GoodList(m, home, dropped)
  }

  lemma SavedDefaultFirst(m: Machine, home: string, file: File, used: seq<Account>, dropped: seq<Account>,
                          more: seq<Raw>)
    requires Saves(m, home, file, used, dropped, more)
    ensures DefaultComesFirst(file.accounts)
  {
    forall i | 1 <= i < |file.accounts|
      ensures !IsDefaultEntry(file.accounts[i])
    {
      if i < |used| {
        assert GoodOther(m, used[i]);
      } else if i < |used| + |dropped| {
        assert GoodOther(m, dropped[i - |used|]);
      } else {
        assert file.accounts[i] == more[i - |used| - |dropped|];
      }
    }
  }

  /** When the Default comes first, what the entries load to is what the whole
      load has. */
  lemma LoadedLists(m: Machine, base: string, file: File)
    requires Stable(m) && DefaultComesFirst(file.accounts)
    ensures var read := LoadEntries(m, base, DEFAULT_REGISTRY.(extra := file.extra), file.accounts);
      var loaded := FromFile(m, base, file);
      && loaded.accounts == read.accounts && loaded.held.accounts == read.held.accounts
      && GoodAccounts(m, loaded.accounts) && AllFit(m, base, loaded.accounts)
  {
    var start := DEFAULT_REGISTRY.(extra := file.extra);
    LoadIsWellFormed(m, base, file);
    EntriesAreGood(m, base, file.extra, file.accounts);
    var read := LoadEntries(m, base, start, file.accounts);
    ConsentsTouchNoAccount(LoadDefaults(Settle(m, read), file.defaults), file.consents);
  }

  /** The accounts that load at home begin with those used that fit there and
      those left out that stand apart from them. */
  lemma HomeLoads(m: Machine, home: string, file: File, used: seq<Account>, dropped: seq<Account>, more: seq<Raw>)
    requires Stable(m) && Saves(m, home, file, used, dropped, more)
    ensures var here := Kept(used, FitsIn(m, home));
      && GoodAccounts(m, FromFile(m, home, file).accounts)
      && here + Kept(dropped, ApartFrom(m, here)) <= FromFile(m, home, file).accounts
  {
    var start := DEFAULT_REGISTRY.(extra := file.extra);
    SavedDefaultFirst(m, home, file, used, dropped, more);
    LoadedLists(m, home, file);
    EntriesSplit(m, home, file.extra, used);
    KeptIsGood(m, used, FitsIn(m, home));
    var split := Split(m, home, file.extra, used);
    LoadOfConcat(m, home, start, Entries(used), Entries(dropped) + more);
    LoadOfConcat(m, home, split, Entries(dropped), more);
    ApartComeBack(m, home, split, dropped);
    LoadGrows(m, home, LoadEntries(m, home, split, Entries(dropped)), more);
  }

  /** An account left out comes back exactly when it stands apart from every
      account in use that can be used at home. */
  lemma ComesBackExactly(m: Machine, home: string, file: File, used: seq<Account>, dropped: seq<Account>,
                         more: seq<Raw>, a: Account)
    requires Stable(m) && Saves(m, home, file, used, dropped, more) && a in dropped && a !in used
    ensures a in FromFile(m, home, file).accounts <==>
      forall b :: b in used && Fits(m, home, b) ==> Apart(m, b, a)
  {
    HomeLoads(m, home, file, used, dropped, more);
    var here, end := Kept(used, FitsIn(m, home)), FromFile(m, home, file).accounts;
    var back := Kept(dropped, ApartFrom(m, here));
    SplitElements(used, FitsIn(m, home));
    SplitElements(dropped, ApartFrom(m, here));
    assert forall x :: x in here + back ==> x in end;
    if a in end {
      forall b | b in used && Fits(m, home, b)
        ensures Apart(m, b, a)
      {
        assert b in here + back;
        InGoodApart(m, end, b, a);
      }
    }
    if forall b :: b in used && Fits(m, home, b) ==> Apart(m, b, a) {
      assert forall i :: 0 <= i < |here| ==> here[i] in here;
      assert ApartFrom(m, here)(a);
      assert a in here + back;
    }
  }

  lemma InGoodApart(m: Machine, accounts: seq<Account>, a: Account, b: Account)
    requires GoodAccounts(m, accounts) && a in accounts && b in accounts && a != b
    ensures Apart(m, a, b)
  {
    var i :| 0 <= i < |accounts| && accounts[i] == a;
    var j :| 0 <= j < |accounts| && accounts[j] == b;
    assert Apart(m, accounts[if i < j then i else j], accounts[if i < j then j else i]);
  }

  lemma OutsAreNoDefault(m: Machine, base: string, accounts: seq<Account>)
    requires GoodAccounts(m, accounts)
    ensures forall raw :: raw in Entries(Dropped(accounts, FitsIn(m, base))) ==> !IsDefaultEntry(raw)
  {
    var dropped := Dropped(accounts, FitsIn(m, base));
    SplitElements(accounts, FitsIn(m, base));
    forall raw | raw in Entries(dropped)
      ensures !IsDefaultEntry(raw)
    {
      var i :| 0 <= i < |dropped| && Entries(dropped)[i] == raw;
      assert dropped[i] in accounts && !Fits(m, base, dropped[i]);
    }
  }

  /** What an odd run holds begins with the accounts it left out. */
  lemma OddRunHolds(m: Machine, base: string, reg: Registry) returns (more: seq<Raw>)
    requires Stable(m) && GoodAccounts(m, reg.accounts) && NoDefault(reg.held.accounts)
    ensures var odd := FromFile(m, base, ToFile(reg));
      && odd.held.accounts == Entries(Dropped(reg.accounts, FitsIn(m, base))) + more && NoDefault(more)
      && GoodAccounts(m, odd.accounts) && AllFit(m, base, odd.accounts)
  {
    var file := ToFile(reg);
    var start := DEFAULT_REGISTRY.(extra := file.extra);
    assert Saves(m, base, file, reg.accounts, [], reg.held.accounts) by {
      assert Entries([]) == [] && [] + reg.held.accounts == reg.held.accounts;
    }
    SavedDefaultFirst(m, base, file, reg.accounts, [], reg.held.accounts);
    LoadedLists(m, base, file);
    EntriesSplit(m, base, file.extra, reg.accounts);
    KeptIsGood(m, reg.accounts, FitsIn(m, base));
    var split := Split(m, base, file.extra, reg.accounts);
    LoadOfConcat(m, base, start, Entries(reg.accounts), reg.held.accounts);
    more := HeldGrows(m, base, split, reg.held.accounts);
    OutsAreNoDefault(m, base, reg.accounts);
    forall i | 0 <= i < |more|
      ensures !IsDefaultEntry(more[i])
    {
      assert more[i] in more;
    }
  }

  lemma HeldGrows(m: Machine, base: string, reg: Registry, raws: seq<Raw>) returns (more: seq<Raw>)
    requires |reg.accounts| > 0 && NoDefault(raws)
    ensures LoadEntries(m, base, reg, raws).held.accounts == reg.held.accounts + more
    ensures forall raw :: raw in more ==> raw in reg.held.accounts || raw in raws
  {
    LoadGrows(m, base, reg, raws);
    var all := LoadEntries(m, base, reg, raws).held.accounts;
    more := all[|reg.held.accounts|..];
    assert forall raw :: raw in more ==> raw in all;
  }

  lemma LeftOutIsGood(m: Machine, base: string, home: string, accounts: seq<Account>, a: Account)
    requires GoodAccounts(m, accounts) && AllFit(m, home, accounts) && a in accounts && !Fits(m, base, a)
    ensures GoodOther(m, a) && Fits(m, home, a)
  {
    var k :| 0 <= k < |accounts| && accounts[k] == a;
    assert k > 0;
  }

  lemma LeftOutAreGood(m: Machine, base: string, home: string, accounts: seq<Account>)
    requires GoodAccounts(m, accounts) && AllFit(m, home, accounts)
    ensures GoodList(m, home, Dropped(accounts, FitsIn(m, base)))
  {
    var dropped := Dropped(accounts, FitsIn(m, base));
    SplitElements(accounts, FitsIn(m, base));
    assert Distinct(accounts);
    DroppedIsDistinct(accounts, FitsIn(m, base));
    forall i | 0 <= i < |dropped|
      ensures GoodOther(m, dropped[i]) && Fits(m, home, dropped[i])
    {
      LeftOutIsGood(m, base, home, accounts, dropped[i]);
    }
    forall i, j | 0 <= i < j < |dropped|
      ensures Apart(m, dropped[i], dropped[j])
    {
      assert dropped[i] in accounts && dropped[j] in accounts;
      InGoodApart(m, accounts, dropped[i], dropped[j]);
    }
  }

  lemma OddRunSaves(m: Machine, base: string, home: string, reg: Registry, left: Registry) returns (more: seq<Raw>)
    requires Stable(m) && WellFormed(m, home, reg) && NoDefault(reg.held.accounts)
    requires GoodAccounts(m, left.accounts) && left.held.accounts == FromFile(m, base, ToFile(reg)).held.accounts
    ensures Saves(m, home, ToFile(left), left.accounts, Dropped(reg.accounts, FitsIn(m, base)), more)
  {
    more := OddRunHolds(m, base, reg);
    LeftOutAreGood(m, base, home, reg.accounts);
  }

  /** A run under another directory left an account out. Whatever the run then
      made of its own accounts, as long as it kept what it held, the account is
      back at home exactly when it stands apart from all of them that can be used
      there. */
  lemma LeftOutComesBackExactly(m: Machine, base: string, home: string, reg: Registry, left: Registry, a: Account)
    requires Stable(m) && WellFormed(m, home, reg) && NoDefault(reg.held.accounts)
    requires GoodAccounts(m, left.accounts) && AllFit(m, base, left.accounts)
    requires left.held.accounts == FromFile(m, base, ToFile(reg)).held.accounts
    requires a in reg.accounts && !Fits(m, base, a)
    ensures a in FromFile(m, home, ToFile(left)).accounts <==>
      forall b :: b in left.accounts && Fits(m, home, b) ==> Apart(m, b, a)
  {
    var more := OddRunSaves(m, base, home, reg, left);
    var dropped := Dropped(reg.accounts, FitsIn(m, base));
    SplitElements(reg.accounts, FitsIn(m, base));
    assert a in dropped && a !in left.accounts;
    ComesBackExactly(m, home, ToFile(left), left.accounts, dropped, more, a);
  }

  /** One odd run that changes nothing: an account it left out is lost at home
      exactly when a held entry that the run took into use also loads at home and
      does not stand apart from the account. */
  lemma LeftOutIsLostExactly(m: Machine, base: string, home: string, reg: Registry, a: Account)
    requires Stable(m) && WellFormed(m, home, reg) && NoDefault(reg.held.accounts)
    requires a in reg.accounts && !Fits(m, base, a)
    ensures var odd := FromFile(m, base, ToFile(reg));
      a !in FromFile(m, home, ToFile(odd)).accounts <==>
      exists b :: b in odd.accounts && b !in reg.accounts && Fits(m, home, b) && !Apart(m, b, a)
  {
    var odd := FromFile(m, base, ToFile(reg));
    var more := OddRunHolds(m, base, reg);
    LeftOutComesBackExactly(m, base, home, reg, odd, a);
    forall b | b in odd.accounts && b in reg.accounts
      ensures Apart(m, b, a)
    {
      InGoodApart(m, reg.accounts, b, a);
    }
  }

  /** And what it took into use was held, and loads at home exactly if it fits. */
  lemma TakenIntoUse(m: Machine, base: string, home: string, reg: Registry, b: Account)
    requires Stable(m) && WellFormed(m, home, reg) && NoDefault(reg.held.accounts)
    requires var odd := FromFile(m, base, ToFile(reg)); b in odd.accounts && b !in reg.accounts
    ensures exists raw :: raw in reg.held.accounts && RawId(raw) == Some(b.id)
    ensures Fits(m, home, b) ==> b in FromFile(m, home, ToFile(FromFile(m, base, ToFile(reg)))).accounts
  {
    TakenWasHeld(m, base, reg, b);
    var held := OddRunHolds(m, base, reg);
    var odd := FromFile(m, base, ToFile(reg));
    var more := OddRunSaves(m, base, home, reg, odd);
    UsedComesHome(m, home, ToFile(odd), odd.accounts, Dropped(reg.accounts, FitsIn(m, base)), more, b);
  }

  lemma UsedComesHome(m: Machine, home: string, file: File, used: seq<Account>, dropped: seq<Account>, more: seq<Raw>,
                      b: Account)
    requires Stable(m) && Saves(m, home, file, used, dropped, more) && b in used
    ensures Fits(m, home, b) ==> b in FromFile(m, home, file).accounts
  {
    HomeLoads(m, home, file, used, dropped, more);
    var here := Kept(used, FitsIn(m, home));
    SplitElements(used, FitsIn(m, home));
    assert Fits(m, home, b) ==> b in here + Kept(dropped, ApartFrom(m, here));
  }

  lemma {:induction false} LoadedFrom(m: Machine, base: string, reg: Registry, raws: seq<Raw>, b: Account)
    requires |reg.accounts| > 0 && NoDefault(raws) && b in LoadEntries(m, base, reg, raws).accounts
    ensures b in reg.accounts || exists raw :: raw in raws && RawId(raw) == Some(b.id)
    decreases |raws|
  {
    if raws != [] {
      var n := |raws| - 1;
      if b in LoadEntries(m, base, reg, raws[..n]).accounts {
        LoadedFrom(m, base, reg, raws[..n], b);
        assert forall raw :: raw in raws[..n] ==> raw in raws;
      } else {
        assert raws[n] in raws && RawId(raws[n]) == Some(b.id);
      }
    }
  }

  lemma TakenWasHeld(m: Machine, base: string, reg: Registry, b: Account)
    requires Stable(m) && GoodAccounts(m, reg.accounts) && NoDefault(reg.held.accounts)
    requires b in FromFile(m, base, ToFile(reg)).accounts && b !in reg.accounts
    ensures exists raw :: raw in reg.held.accounts && RawId(raw) == Some(b.id)
  {
    var file := ToFile(reg);
    var start := DEFAULT_REGISTRY.(extra := file.extra);
    assert Saves(m, base, file, reg.accounts, [], reg.held.accounts) by {
      assert Entries([]) == [] && [] + reg.held.accounts == reg.held.accounts;
    }
    SavedDefaultFirst(m, base, file, reg.accounts, [], reg.held.accounts);
    LoadedLists(m, base, file);
    EntriesSplit(m, base, file.extra, reg.accounts);
    KeptIsGood(m, reg.accounts, FitsIn(m, base));
    SplitElements(reg.accounts, FitsIn(m, base));
    LoadOfConcat(m, base, start, Entries(reg.accounts), reg.held.accounts);
    LoadedFrom(m, base, Split(m, base, file.extra, reg.accounts), reg.held.accounts, b);
  }
}
