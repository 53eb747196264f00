/**
 What the entries of a file load to (src-tauri/src/claude/accounts.rs): the
 accounts this run can use, and those it holds for another.
 */
module AccountEntries {
  import opened Wrappers
  import opened Accounts
  import opened AccountFiles
  import opened Shuffles

  /** What a run whose Default directory is `base` keeps about its accounts. */
  ghost predicate WellFormed(m: Machine, base: string, reg: Registry) {
    && GoodAccounts(m, reg.accounts) && AllFit(m, base, reg.accounts)
    && GoodDefaults(reg.accounts, reg.defaults)
    && GoodConsents(reg.accounts, reg.consents)
    && GoodBackup(reg.backup)
  }

  function FitsIn(m: Machine, base: string): Account -> bool {
    a => Fits(m, base, a)
  }

  function IdsOf(accounts: seq<Account>): set<string> {
    set a | a in accounts :: a.id
  }

  /** What the first entries load to: those that fit are in, the rest are held. */
  function Split(m: Machine, base: string, extra: map<string, string>, accounts: seq<Account>): Registry {
    var out := Dropped(accounts, FitsIn(m, base));
    DEFAULT_REGISTRY.(extra := extra, accounts := Kept(accounts, FitsIn(m, base)),
                      held := NOTHING_HELD.(accounts := Entries(out), ids := IdsOf(out)))
  }

  lemma ShuffleKeepsGood(m: Machine, was: seq<Account>, now: seq<Account>)
    requires GoodAccounts(m, was) && |now| > 0 && now[0] == was[0] && multiset(was) == multiset(now)
    ensures GoodAccounts(m, now)
  {
    assert Distinct(was);
    ShuffleKeepsDistinct(was, now);
    forall i | 1 <= i < |now|
      ensures GoodOther(m, now[i])
    {
      assert now[i] in was && now[i] != now[0];
    }
    forall i, j | 0 <= i < j < |now|
      ensures Apart(m, now[i], now[j])
    {
      assert now[i] in was && now[j] in was && now[i] != now[j];
    }
  }

  /** What a good entry does to the registry loaded so far. */
  function Taken(m: Machine, base: string, reg: Registry, a: Account): Registry {
    if Fits(m, base, a) then reg.(accounts := reg.accounts + [a])
    else reg.(held := reg.held.(accounts := reg.held.accounts + [Entry(a, "")], ids := reg.held.ids + {a.id}))
  }

  lemma GoodEntryIsTaken(m: Machine, base: string, reg: Registry, a: Account)
    requires |reg.accounts| > 0 && GoodOther(m, a)
    requires forall i :: 0 <= i < |reg.accounts| ==> Apart(m, reg.accounts[i], a)
    ensures LoadEntry(m, base, reg, Entry(a, "")) == Taken(m, base, reg, a)
  {
  }

  lemma ListsGrow(accounts: seq<Account>, a: Account)
    ensures Entries(accounts + [a]) == Entries(accounts) + [Entry(a, "")]
    ensures IdsOf(accounts + [a]) == IdsOf(accounts) + {a.id}
  {
    var all := accounts + [a];
    assert forall x :: x in all <==> x in accounts || x == a;
    forall id
      ensures id in IdsOf(all) <==> id in IdsOf(accounts) + {a.id}
    {
      if id in IdsOf(accounts) + {a.id} {
        var x :| (x in accounts || x == a) && x.id == id;
        assert x in all;
      }
    }
  }

  lemma LoadedGrows(m: Machine, base: string, extra: map<string, string>, accounts: seq<Account>, a: Account)
    ensures Split(m, base, extra, accounts + [a]) == Taken(m, base, Split(m, base, extra, accounts), a)
  {
    SplitGrows(accounts, FitsIn(m, base), a);
    ListsGrow(Dropped(accounts, FitsIn(m, base)), a);
  }

  lemma FirstEntry(m: Machine, base: string, extra: map<string, string>, a: Account)
    requires GoodDefault(a)
    ensures LoadEntry(m, base, DEFAULT_REGISTRY.(extra := extra), Entry(a, "")) == Split(m, base, extra, [a])
  {
    assert [] + [a] == [a];
    SplitGrows([], FitsIn(m, base), a);
    assert DEFAULT_REGISTRY.accounts[0 := a] == [a];
  }

  ghost predicate JoinsWell(m: Machine, accounts: seq<Account>, a: Account) {
    GoodOther(m, a) && forall i :: 0 <= i < |accounts| ==> Apart(m, accounts[i], a)
  }

  lemma KeptJoinsWell(m: Machine, accounts: seq<Account>, p: Account -> bool, a: Account)
    requires JoinsWell(m, accounts, a)
    ensures JoinsWell(m, Kept(accounts, p), a)
  {
    var kept := Kept(accounts, p);
    SplitElements(accounts, p);
    forall i | 0 <= i < |kept|
      ensures Apart(m, kept[i], a)
    {
      assert kept[i] in accounts;
    }
  }

  lemma NextEntry(m: Machine, base: string, extra: map<string, string>, accounts: seq<Account>, a: Account)
    requires JoinsWell(m, accounts, a)
    requires |Split(m, base, extra, accounts).accounts| > 0
    ensures LoadEntry(m, base, Split(m, base, extra, accounts), Entry(a, "")) == Split(m, base, extra, accounts + [a])
  {
    var reg := Split(m, base, extra, accounts);
    KeptJoinsWell(m, accounts, FitsIn(m, base), a);
    GoodEntryIsTaken(m, base, reg, a);
    LoadedGrows(m, base, extra, accounts, a);
  }

  lemma PrefixIsGood(m: Machine, accounts: seq<Account>, a: Account)
    requires GoodAccounts(m, accounts + [a]) && |accounts| > 0
    ensures GoodAccounts(m, accounts) && JoinsWell(m, accounts, a)
  {
    var all := accounts + [a];
    assert all[|accounts|] == a;
    assert forall i :: 0 <= i < |accounts| ==> all[i] == accounts[i];
  }

  lemma OneMoreEntry(m: Machine, base: string, reg: Registry, accounts: seq<Account>, a: Account)
    requires |reg.accounts| > 0
    ensures LoadEntries(m, base, reg, Entries(accounts + [a]))
            == LoadEntry(m, base, LoadEntries(m, base, reg, Entries(accounts)), Entry(a, ""))
  {
    ListsGrow(accounts, a);
    assert Entries(accounts + [a])[..|accounts|] == Entries(accounts);
  }

  /** Entries of a good list load to its split, whatever the run. */
  lemma {:induction false} EntriesSplit(m: Machine, base: string, extra: map<string, string>, accounts: seq<Account>)
    requires GoodAccounts(m, accounts)
    ensures LoadEntries(m, base, DEFAULT_REGISTRY.(extra := extra), Entries(accounts))
         == Split(m, base, extra, accounts)
    decreases |accounts|
  {
    var n := |accounts| - 1;
    var before, a := accounts[..n], accounts[n];
    assert accounts == before + [a];
    OneMoreEntry(m, base, DEFAULT_REGISTRY.(extra := extra), before, a);
    if n == 0 {
      assert accounts == [a];
      FirstEntry(m, base, extra, a);
    } else {
      PrefixIsGood(m, before, a);
      EntriesSplit(m, base, extra, before);
      NextEntry(m, base, extra, before, a);
    }
  }

  lemma JoinedIsGood(m: Machine, accounts: seq<Account>, a: Account)
    requires GoodAccounts(m, accounts) && JoinsWell(m, accounts, a)
    ensures GoodAccounts(m, accounts + [a])
  {
    var all := accounts + [a];
    assert all[|accounts|] == a && forall i :: 0 <= i < |accounts| ==> all[i] == accounts[i];
  }

  /** Leaving out accounts, the Default aside, leaves a good list. */
  lemma {:induction false} KeptIsGood(m: Machine, accounts: seq<Account>, p: Account -> bool)
    requires GoodAccounts(m, accounts) && p(accounts[0])
    ensures GoodAccounts(m, Kept(accounts, p)) && Kept(accounts, p)[0] == accounts[0]
    decreases |accounts|
  {
    var n := |accounts| - 1;
    var before, a := accounts[..n], accounts[n];
    assert accounts == before + [a];
    SplitGrows(before, p, a);
    if n == 0 {
      assert before == [];
    } else {
      PrefixIsGood(m, before, a);
      KeptIsGood(m, before, p);
      KeptJoinsWell(m, before, p, a);
      if p(a) {
        JoinedIsGood(m, Kept(before, p), a);
      }
    }
  }

  ghost predicate DistinctIds(accounts: seq<Account>) {
    forall i, j :: 0 <= i < j < |accounts| ==> accounts[i].id != accounts[j].id
  }

  /** Every id of the list is either usable here or held, never both. */
  lemma KnownOrHeld(m: Machine, base: string, accounts: seq<Account>, id: string)
    requires DistinctIds(accounts)
    ensures var here := Has(Kept(accounts, FitsIn(m, base)), id);
      var away := id in IdsOf(Dropped(accounts, FitsIn(m, base)));
      !(here && away) && (here || away <==> Has(accounts, id))
  {
    var kept, out := Kept(accounts, FitsIn(m, base)), Dropped(accounts, FitsIn(m, base));
    SplitElements(accounts, FitsIn(m, base));
    HasIsIds(kept, id);
    HasIsIds(accounts, id);
  }

  lemma HasIsIds(accounts: seq<Account>, id: string)
    ensures Has(accounts, id) <==> id in IdsOf(accounts)
  {
    if i :| 0 <= i < |accounts| && accounts[i].id == id {
      assert accounts[i] in accounts;
    }
  }

  lemma NamesApart(m: Machine, accounts: seq<Account>)
    requires GoodAccounts(m, accounts)
    ensures DistinctIds(accounts) && !NameTaken(m, accounts[1..], accounts[0].name, None)
  {
    assert forall i, j :: 0 <= i < j < |accounts| ==> Apart(m, accounts[i], accounts[j]);
    forall i | 0 <= i < |accounts[1..]|
      ensures m.fold(accounts[1..][i].name) != m.fold(accounts[0].name)
    {
      assert Apart(m, accounts[0], accounts[i + 1]);
    }
  }

  // ----------------------------------------------------------------- held entries

  /** The account ids that raw entries name and no account has. */
  function NewIds(accounts: seq<Account>, raws: seq<Raw>): set<string> {
    set raw | raw in raws && RawId(raw).Some? && IsAccountId(RawId(raw).value) && !Has(accounts, RawId(raw).value)
      :: RawId(raw).value
  }

  predicate IsDefaultEntry(raw: Raw) {
    raw.Entry? && raw.account.id == DEFAULT_ID
  }

  /** Beside these accounts the entry is of no use to the run. */
  predicate Refused(m: Machine, base: string, accounts: seq<Account>, raw: Raw) {
    raw.Unreadable? || (!IsDefaultEntry(raw) && ValidateLoaded(m, base, accounts, raw.account).None?)
  }

  ghost predicate AllRefused(m: Machine, base: string, accounts: seq<Account>, raws: seq<Raw>) {
    forall i :: 0 <= i < |raws| ==> Refused(m, base, accounts, raws[i])
  }

  /** The registry with these entries held as well. */
  function HeldOn(reg: Registry, raws: seq<Raw>): Registry {
    reg.(held := reg.held.(accounts := reg.held.accounts + raws, ids := reg.held.ids + NewIds(reg.accounts, raws)))
  }

  lemma NewIdsGrow(accounts: seq<Account>, raws: seq<Raw>, raw: Raw)
    ensures NewIds(accounts, raws + [raw]) == NewIds(accounts, raws) + NewIds(accounts, [raw])
  {
    var all := raws + [raw];
    assert forall x :: x in all <==> x in raws || x in [raw];
    forall id
      ensures id in NewIds(accounts, all) <==> id in NewIds(accounts, raws) || id in NewIds(accounts, [raw])
    {
      if id in NewIds(accounts, raws) || id in NewIds(accounts, [raw]) {
        var x :| (x in raws || x in [raw]) && RawId(x) == Some(id);
        assert x in all;
      }
    }
  }

  lemma HoldIsHeldOn(reg: Registry, raws: seq<Raw>, raw: Raw)
    ensures Hold(HeldOn(reg, raws), raw) == HeldOn(reg, raws + [raw])
  {
    NewIdsGrow(reg.accounts, raws, raw);
    var id := RawId(raw);
    if id.Some? && IsAccountId(id.value) && !Has(reg.accounts, id.value) {
      assert raw in [raw];
      assert NewIds(reg.accounts, [raw]) == {id.value};
    } else {
      assert NewIds(reg.accounts, [raw]) == {};
    }
  }

  /** Entries of no use are held, one after the other. */
  lemma {:induction false} RefusedAreHeld(m: Machine, base: string, reg: Registry, raws: seq<Raw>)
    requires |reg.accounts| > 0 && AllRefused(m, base, reg.accounts, raws)
    ensures LoadEntries(m, base, reg, raws) == HeldOn(reg, raws)
    decreases |raws|
  {
    if raws == [] {
      assert NewIds(reg.accounts, []) == {};
    } else {
      var n := |raws| - 1;
      var before, raw := raws[..n], raws[n];
      assert raws == before + [raw];
      RefusedAreHeld(m, base, reg, before);
      assert Refused(m, base, reg.accounts, raw);
      HoldIsHeldOn(reg, before, raw);
    }
  }

  lemma {:induction false} LoadOfConcat(m: Machine, base: string, reg: Registry, a: seq<Raw>, b: seq<Raw>)
    requires |reg.accounts| > 0
    ensures LoadEntries(m, base, reg, a + b) == LoadEntries(m, base, LoadEntries(m, base, reg, a), b)
    decreases |b|
  {
    if b == [] {
      assert a + b == a;
    } else {
      assert (a + b)[..|a + b| - 1] == a + b[..|b| - 1];
      LoadOfConcat(m, base, reg, a, b[..|b| - 1]);
    }
  }

  /** Whether an entry is refused depends on which accounts there are, not on
      their order. */
  lemma RefusedByElements(m: Machine, base: string, was: seq<Account>, now: seq<Account>, raws: seq<Raw>)
    requires AllRefused(m, base, was, raws) && forall x :: x in was <==> x in now
    ensures AllRefused(m, base, now, raws)
  {
    forall i | 0 <= i < |raws|
      ensures Refused(m, base, now, raws[i])
    {
      assert Refused(m, base, was, raws[i]);
      if raws[i].Entry? {
        SameElements(m, base, was, now, raws[i].account);
      }
    }
  }

  lemma SameElements(m: Machine, base: string, was: seq<Account>, now: seq<Account>, a: Account)
    requires ValidateLoaded(m, base, was, a).None? && forall x :: x in was <==> x in now
    ensures ValidateLoaded(m, base, now, a).None?
  {
    assert forall i :: 0 <= i < |was| ==> was[i] in now;
    if Has(was, a.id) {
      var i :| 0 <= i < |was| && was[i].id == a.id;
      var j :| 0 <= j < |now| && now[j] == was[i];
    }
    var name := CleanName(a.name);
    if name.Some? && NameTaken(m, was, name.value, None) {
      var i :| 0 <= i < |was| && Some(was[i].id) != None && m.fold(was[i].name) == m.fold(name.value);
      var j :| 0 <= j < |now| && now[j] == was[i];
      assert NameTaken(m, now, name.value, None);
    }
  }

  /** The whole list: good accounts, then entries this run refuses beside those
      it can use. Neither the clean-up of the ids nor the rename of the Default
      changes what they load to. */
  lemma GoodThenRefused(m: Machine, base: string, extra: map<string, string>, accounts: seq<Account>, raws: seq<Raw>)
    requires GoodAccounts(m, accounts) && AllRefused(m, base, Kept(accounts, FitsIn(m, base)), raws)
    ensures var read := LoadEntries(m, base, DEFAULT_REGISTRY.(extra := extra), Entries(accounts) + raws);
      read == HeldOn(Split(m, base, extra, accounts), raws) && Settle(m, read) == read
  {
    EntriesSplit(m, base, extra, accounts);
    LoadOfConcat(m, base, DEFAULT_REGISTRY.(extra := extra), Entries(accounts), raws);
    RefusedAreHeld(m, base, Split(m, base, extra, accounts), raws);
    SplitIsSettled(m, base, extra, accounts, raws);
  }

  lemma SplitIsSettled(m: Machine, base: string, extra: map<string, string>, accounts: seq<Account>, raws: seq<Raw>)
    requires GoodAccounts(m, accounts)
    ensures var reg := HeldOn(Split(m, base, extra, accounts), raws);
      |reg.accounts| > 0 && Settle(m, reg) == reg
  {
    var reg := HeldOn(Split(m, base, extra, accounts), raws);
    KeptIsGood(m, accounts, FitsIn(m, base));
    NamesApart(m, reg.accounts);
    forall id | id in reg.held.ids
      ensures !Has(reg.accounts, id)
    {
      NamesApart(m, accounts);
      KnownOrHeld(m, base, accounts, id);
    }
  }

  /** The run knows or holds every id of the accounts and of the entries, and
      never both. */
  ghost predicate Covers(reg: Registry, ids: set<string>) {
    && (forall id :: id in ids ==> Has(reg.accounts, id) || id in reg.held.ids)
    && (forall id :: id in reg.held.ids ==> !Has(reg.accounts, id))
  }

  lemma SplitCovers(m: Machine, base: string, extra: map<string, string>, accounts: seq<Account>, raws: seq<Raw>)
    requires GoodAccounts(m, accounts)
    ensures var reg := HeldOn(Split(m, base, extra, accounts), raws);
      && Covers(reg, IdsOf(accounts) + NewIds(accounts, raws))
      && GoodAccounts(m, reg.accounts) && reg.accounts[0] == accounts[0]
      && forall id :: Has(reg.accounts, id) ==> id in IdsOf(accounts)
  {
    var reg := HeldOn(Split(m, base, extra, accounts), raws);
    NamesApart(m, accounts);
    KeptIsGood(m, accounts, FitsIn(m, base));
    forall id
      ensures id in IdsOf(accounts) ==> Has(reg.accounts, id) || id in reg.held.ids
      ensures id in reg.held.ids ==> !Has(reg.accounts, id)
      ensures Has(reg.accounts, id) ==> id in IdsOf(accounts)
    {
      HasIsIds(accounts, id);
      KnownOrHeld(m, base, accounts, id);
    }
    forall id | id in NewIds(accounts, raws)
      ensures id in reg.held.ids
    {
      var raw :| raw in raws && RawId(raw) == Some(id) && IsAccountId(id) && !Has(accounts, id);
      KnownOrHeld(m, base, accounts, id);
      assert !Has(reg.accounts, id);
    }
  }
}
