/**
 What the changes of a run do to what it holds for others
 (src-tauri/src/claude/accounts.rs): when a restart gives it back.
 */
module AccountHolding {
  import opened Wrappers
  import opened Text
  import opened Accounts
  import opened AccountFiles
  import opened AccountEntries
  import opened AccountSurvival
  import opened AccountLoading
  import opened AccountReturns
  import opened AccountChanges
  import opened Shuffles

  // ------------------------------------------------------------------------- reloading

  lemma OwnFileHasDefaultFirst(m: Machine, reg: Registry)
    requires GoodAccounts(m, reg.accounts) && NoDefault(reg.held.accounts)
    ensures DefaultComesFirst(ToFile(reg).accounts)
  {
    forall i | 1 <= i < |ToFile(reg).accounts|
      ensures !IsDefaultEntry(ToFile(reg).accounts[i])
    {
      if i < |reg.accounts| {
        assert GoodOther(m, reg.accounts[i]);
      } else {
        assert ToFile(reg).accounts[i] == reg.held.accounts[i - |reg.accounts|];
      }
    }
  }

  /** Any run loads a registry's own file well. */
  lemma OwnFileLoadsWell(m: Machine, base: string, reg: Registry)
    requires Stable(m) && GoodAccounts(m, reg.accounts) && NoDefault(reg.held.accounts)
    ensures var loaded := FromFile(m, base, ToFile(reg));
      WellFormed(m, base, loaded) && WellHeld(loaded) && StaysHeld(m, base, loaded)
  {
    OwnFileHasDefaultFirst(m, reg);
    LoadIsWellHeld(m, base, ToFile(reg));
  }

  lemma SameElementsOf<T>(a: seq<T>, b: seq<T>)
    requires multiset(a) == multiset(b)
    ensures forall x :: x in a <==> x in b
  {
    assert forall x :: x in a <==> x in multiset(a);
    assert forall x :: x in b <==> x in multiset(b);
  }

  lemma SameIds(a: seq<Account>, b: seq<Account>)
    requires forall x :: x in a <==> x in b
    ensures IdsOf(a) == IdsOf(b) && forall id :: Has(a, id) <==> Has(b, id)
  {
    forall id
      ensures Has(a, id) <==> Has(b, id)
    {
      HasIsIds(a, id);
      HasIsIds(b, id);
    }
  }

  lemma SameIsHeldTheSame(m: Machine, base: string, a: Registry, b: Registry)
    requires Same(a, b) && WellHeld(b) && StaysHeld(m, base, b)
    ensures WellHeld(a) && StaysHeld(m, base, a)
  {
    SameElementsOf(a.accounts, b.accounts);
    SameElementsOf(a.held.consents, b.held.consents);
    SameIds(a.accounts, b.accounts);
    SameNewIds(a.accounts, b.accounts, a.held.accounts);
    StaysHeldReordered(m, base, b, a.accounts);
  }

  /** Saved and loaded again under the same directory, a registry is what it was
      exactly when it holds what a load would, and could not use it now either. */
  lemma ReloadsExactly(m: Machine, home: string, reg: Registry)
    requires Stable(m) && WellFormed(m, home, reg) && NoDefault(reg.held.accounts)
    ensures Same(reg, FromFile(m, home, ToFile(reg))) <==> WellHeld(reg) && StaysHeld(m, home, reg)
  {
    var loaded := FromFile(m, home, ToFile(reg));
    if WellHeld(reg) && StaysHeld(m, home, reg) {
      AccountsSurvive(m, home, [], reg);
    }
    if Same(reg, loaded) {
      OwnFileLoadsWell(m, home, reg);
      SameIsHeldTheSame(m, home, reg, loaded);
    }
  }

  // --------------------------------------------------------------------------- changes

  /** A held entry or a held consent names the id. */
  predicate HeldNames(h: Held, id: string) {
    || (exists raw :: raw in h.accounts && RawId(raw) == Some(id))
    || (exists raw :: raw in h.consents && raw.Pair? && (raw.consent.giver == id || raw.consent.taker == id))
  }

  lemma SameIdsKeepHeld(was: Registry, now: Registry)
    requires WellHeld(was) && now.held == was.held && now.defaults == was.defaults
    requires |was.accounts| == |now.accounts|
    requires forall i :: 0 <= i < |was.accounts| ==> was.accounts[i].id == now.accounts[i].id
    ensures WellHeld(now)
  {
    forall id
      ensures Has(was.accounts, id) <==> Has(now.accounts, id)
      ensures id in IdsOf(was.accounts) <==> id in IdsOf(now.accounts)
    {
      HasIsIds(was.accounts, id);
      HasIsIds(now.accounts, id);
      assert Has(was.accounts, id) ==> Has(now.accounts, id);
      assert Has(now.accounts, id) ==> Has(was.accounts, id);
    }
    SameNewIds(was.accounts, now.accounts, was.held.accounts);
  }

  lemma AddedHas(accounts: seq<Account>, a: Account)
    ensures forall id :: Has(accounts + [a], id) <==> Has(accounts, id) || id == a.id
    ensures IdsOf(accounts + [a]) == IdsOf(accounts) + {a.id}
  {
    var all := accounts + [a];
    ListsGrow(accounts, a);
    assert all[|accounts|] == a && forall i :: 0 <= i < |accounts| ==> all[i] == accounts[i];
  }

  /** Adding an account with an id that is new keeps what is held. */
  lemma AddedKeepsHeld(reg: Registry, a: Account)
    requires WellHeld(reg) && IsAccountId(a.id) && !Has(reg.accounts, a.id) && a.id !in reg.held.ids
    ensures WellHeld(Added(reg, a))
  {
    var all := reg.accounts + [a];
    AddedHas(reg.accounts, a);
    assert NewIds(all, reg.held.accounts) == NewIds(reg.accounts, reg.held.accounts);
    forall raw | raw in reg.held.consents
      ensures !Known(all, raw.consent)
    {
      HeldConsentNames(reg, raw);
    }
  }

  /** A held consent names a held id. */
  lemma HeldConsentNames(reg: Registry, raw: RawConsent)
    requires WellHeld(reg) && raw in reg.held.consents
    ensures raw.consent.giver in reg.held.ids || raw.consent.taker in reg.held.ids
    ensures raw.consent.giver in reg.held.ids ==> !Has(reg.accounts, raw.consent.giver)
    ensures raw.consent.taker in reg.held.ids ==> !Has(reg.accounts, raw.consent.taker)
  {
    HasIsIds(reg.accounts, raw.consent.giver);
    HasIsIds(reg.accounts, raw.consent.taker);
  }

  lemma RemovedHas(accounts: seq<Account>, id: string)
    ensures var left := Kept(accounts, OtherThan(id));
      forall other :: (Has(left, other) <==> Has(accounts, other) && other != id)
                      && (other in IdsOf(left) <==> other in IdsOf(accounts) && other != id)
  {
    var left := Kept(accounts, OtherThan(id));
    SplitElements(accounts, OtherThan(id));
    forall other
      ensures Has(left, other) <==> Has(accounts, other) && other != id
      ensures other in IdsOf(left) <==> other in IdsOf(accounts) && other != id
    {
      HasIsIds(left, other);
      HasIsIds(accounts, other);
    }
  }

  lemma RemovedNewIds(accounts: seq<Account>, left: seq<Account>, raws: seq<Raw>, id: string)
    requires forall other :: Has(left, other) <==> Has(accounts, other) && other != id
    requires Has(accounts, id) && IsAccountId(id)
    ensures NewIds(left, raws) == NewIds(accounts, raws) <==> !exists raw :: raw in raws && RawId(raw) == Some(id)
  {
    if raw :| raw in raws && RawId(raw) == Some(id) {
      assert id in NewIds(left, raws) && id !in NewIds(accounts, raws);
    } else {
      assert NewIds(left, raws) == NewIds(accounts, raws);
    }
  }

  /** Removing an account keeps what is held exactly when nothing held names it. */
  lemma RemovedKeepsHeldExactly(m: Machine, reg: Registry, id: string)
    requires GoodAccounts(m, reg.accounts) && WellHeld(reg) && Remove(reg, id).Ok?
    ensures WellHeld(Remove(reg, id).value) <==> !HeldNames(reg.held, id)
  {
    var now := Remove(reg, id).value;
    OthersHaveGoodIds(m, reg.accounts, id);
    RemovedHas(reg.accounts, id);
    RemovedNewIds(reg.accounts, now.accounts, reg.held.accounts, id);
    RemovedConsentsHeld(reg, now, id);
    RemovedDefaultsHeld(reg, id);
  }

  /** The held consents are what a load leaves. */
  ghost predicate ConsentsHeld(accounts: seq<Account>, h: Held) {
    forall raw :: raw in h.consents ==>
      raw.Pair? && raw.consent.giver in IdsOf(accounts) + h.ids && raw.consent.taker in IdsOf(accounts) + h.ids
      && !Known(accounts, raw.consent)
  }

  /** Removing an account leaves the held defaults as a load would. */
  lemma RemovedDefaultsHeld(reg: Registry, id: string)
    requires WellHeld(reg) && Remove(reg, id).Ok?
    ensures var now := Remove(reg, id).value;
      WellHeld(now) <==> now.held.ids == NewIds(now.accounts, now.held.accounts) && ConsentsHeld(now.accounts, now.held)
  {
  }

  lemma OthersHaveGoodIds(m: Machine, accounts: seq<Account>, id: string)
    requires GoodAccounts(m, accounts) && Has(accounts, id) && id != DEFAULT_ID
    ensures IsAccountId(id)
  {
    var i :| 0 <= i < |accounts| && accounts[i].id == id;
    assert i > 0 && GoodOther(m, accounts[i]);
  }

  lemma RemovedConsentsHeld(reg: Registry, now: Registry, id: string)
    requires WellHeld(reg) && Has(reg.accounts, id) && now.held == reg.held
    requires forall other :: Has(now.accounts, other) <==> Has(reg.accounts, other) && other != id
    requires forall other :: other in IdsOf(now.accounts) <==> other in IdsOf(reg.accounts) && other != id
    ensures ConsentsHeld(now.accounts, now.held) <==>
      !exists raw :: raw in reg.held.consents && raw.Pair? && (raw.consent.giver == id || raw.consent.taker == id)
  {
    HeldIsNewHere(reg, id);
  }

  lemma HeldIsNewHere(reg: Registry, id: string)
    requires WellHeld(reg) && Has(reg.accounts, id)
    ensures id !in reg.held.ids
  {
    if id in reg.held.ids {
      HeldIsNew(reg.accounts, reg.held.accounts, id);
    }
  }

  /** Choosing the defaults keeps what is held exactly when no project chosen is
      held for another account. */
  lemma ChosenKeepsHeldExactly(reg: Registry, newSession: string, bridge: string, projects: seq<(string, string)>)
    requires WellHeld(reg) && SetDefaults(reg, newSession, bridge, projects).Ok?
    ensures WellHeld(SetDefaults(reg, newSession, bridge, projects).value) <==>
      !exists dir :: dir in CleanProjects(reg.accounts, projects).value && dir in reg.held.byProject
  {
  }

  /** The promise that project entries stay when the defaults are chosen: the
      next file has a held project entry exactly when no entry was chosen for
      that directory. */
  lemma AHeldProjectStaysExactly(reg: Registry, newSession: string, bridge: string, projects: seq<(string, string)>,
                                 dir: string)
    requires WellHeld(reg) && SetDefaults(reg, newSession, bridge, projects).Ok? && dir in reg.held.byProject
    ensures var written := AllDefaults(SetDefaults(reg, newSession, bridge, projects).value).byProject;
      && dir in written
      && (written[dir] == reg.held.byProject[dir] <==> dir !in CleanProjects(reg.accounts, projects).value)
  {
    ProjectsAreGood(reg.accounts, projects);
    HeldIsNew(reg.accounts, reg.held.accounts, reg.held.byProject[dir]);
  }

  /** So one is lost when its directory is chosen for the Default. */
  lemma AChosenProjectReplacesAHeldOne(reg: Registry)
    requires WellHeld(reg) && Has(reg.accounts, DEFAULT_ID) && "/p" in reg.held.byProject
    ensures var chosen := SetDefaults(reg, DEFAULT_ID, DEFAULT_ID, [("/p", DEFAULT_ID)]);
      && chosen.Ok? && chosen.value.held.byProject == reg.held.byProject
      && AllDefaults(chosen.value).byProject["/p"] == DEFAULT_ID != reg.held.byProject["/p"]
  {
    var projects := [("/p", DEFAULT_ID)];
    assert projects[..0] == [];
    assert Trim("/p") == "/p";
    PartsOfOne();
    assert ProjectKey("/p") == "/p";
    assert CleanProjects(reg.accounts, projects) == Ok(map["/p" := DEFAULT_ID]);
    AHeldProjectStaysExactly(reg, DEFAULT_ID, DEFAULT_ID, projects, "/p");
  }

  lemma PartsOfOne()
    ensures Parts("/p") == ["p"]
  {
    assert "/p"[1..] == "p" && "p"[1..] == "" && "/p"[..0] == "" && "p"[..1] == "p";
    assert IndexOf("/p", "/") == 0;
    assert "p"[0] != "/"[0];
    assert IndexOf("p", "/") == 1 + IndexOf("", "/");
    assert Parts("p") == ["p"];
  }
}
