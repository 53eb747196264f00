/**
 What each change of the registry makes (src-tauri/src/claude/accounts.rs), field
 by field, what it leaves alone, and what its refusals mean.
 */
module AccountAnswers {
  import opened Wrappers
  import opened Text
  import opened Accounts
  import opened AccountFiles
  import opened AccountEntries
  import opened AccountLoading
  import opened AccountChanges
  import opened Shuffles

  // ------------------------------------------------------------------------- input

  /** A name that may stand: 1 to 40 characters, no dot first, nothing a folder
      name may not have. */
  predicate NameMayStand(n: string) {
    && 1 <= |n| <= 40 && n[0] != '.'
    && forall i :: 0 <= i < |n| ==> !IsControl(n[i]) && n[i] !in "/\\:*?\"<>|"
  }

  /** A name is accepted exactly when it may stand once trimmed, and trimmed. */
  lemma CleanNameExactly(name: string)
    ensures CleanName(name) == if NameMayStand(Trim(name)) then Some(Trim(name)) else None
  {
  }

  /** One line of printable characters, 20 to 512 of them. */
  predicate LooksLikeAToken(t: string) {
    20 <= |t| <= 512 && forall i :: 0 <= i < |t| ==> '!' <= t[i] <= '~'
  }

  /** `#rrggbb`. */
  predicate LooksLikeAColor(c: string) {
    |c| == 7 && c[0] == '#' && forall i :: 1 <= i < 7 ==> IsHexDigit(c[i])
  }

  predicate Used(accounts: seq<Account>, color: string) {
    exists i :: 0 <= i < |accounts| && accounts[i].color == Some(color)
  }

  /** The colour asked for, in lower case; or the first of the palette that no
      account has; or, when all are used, the one whose turn it is. */
  ghost predicate ColorAsAsked(accounts: seq<Account>, asked: Option<string>, picked: string) {
    if asked.Some? then
      && LooksLikeAColor(asked.value) && |picked| == 7
      && forall i :: 0 <= i < 7 ==>
           picked[i] as int == asked.value[i] as int + if 'A' <= asked.value[i] <= 'F' then 32 else 0
    else if exists k :: 0 <= k < |PALETTE| && !Used(accounts, PALETTE[k]) then
      exists k :: 0 <= k < |PALETTE| && picked == PALETTE[k] && !Used(accounts, picked)
                  && forall j :: 0 <= j < k ==> Used(accounts, PALETTE[j])
    else |accounts| > 0 && picked == PALETTE[(|accounts| - 1) % |PALETTE|]
  }

  lemma {:induction false} FirstUnusedIsFirst(accounts: seq<Account>, palette: seq<string>)
    ensures FirstUnused(accounts, palette).None? ==> forall k :: 0 <= k < |palette| ==> Used(accounts, palette[k])
    ensures FirstUnused(accounts, palette).Some? ==>
      exists k :: 0 <= k < |palette| && FirstUnused(accounts, palette).value == palette[k]
                  && !Used(accounts, palette[k]) && forall j :: 0 <= j < k ==> Used(accounts, palette[j])
  {
    if palette != [] && Used(accounts, palette[0]) {
      var rest := palette[1..];
      FirstUnusedIsFirst(accounts, rest);
      assert forall k :: 1 <= k < |palette| ==> palette[k] == rest[k - 1];
      if FirstUnused(accounts, rest).Some? {
        var k :| 0 <= k < |rest| && FirstUnused(accounts, rest).value == rest[k]
                 && !Used(accounts, rest[k]) && forall j :: 0 <= j < k ==> Used(accounts, rest[j]);
        assert palette[k + 1] == rest[k];
      }
    }
  }

  lemma PickedAsAsked(accounts: seq<Account>, asked: Option<string>)
    requires |accounts| > 0
    ensures PickColor(accounts, asked).Ok? <==> (asked.Some? ==> LooksLikeAColor(asked.value))
    ensures PickColor(accounts, asked).Ok? ==> ColorAsAsked(accounts, asked, PickColor(accounts, asked).value)
  {
    FirstUnusedIsFirst(accounts, PALETTE);
  }

  // ------------------------------------------------------------------- directories

  lemma {:induction false} SlashInJoined(a: string, b: string)
    ensures IndexOf(a + "/" + b, "/") == IndexOf(a, "/")
  {
    var all := a + "/" + b;
    if a == "" {
      assert all[0] == "/"[0];
    } else {
      assert all[0] == a[0] && all[1..] == a[1..] + "/" + b;
      SlashInJoined(a[1..], b);
      assert "/" <= all <==> all[0] == '/';
      assert "/" <= a <==> a[0] == '/';
    }
  }

  function NameBefore(head: string): seq<string> {
    if head == "" || head == "." then [] else [head]
  }

  lemma PartsOfCut(path: string, i: nat)
    requires i == IndexOf(path, "/")
    ensures Parts(path) == NameBefore(path[..i]) + if i == |path| then [] else Parts(path[i + 1..])
  {
  }

  lemma Reassociated(a: seq<string>, b: seq<string>, c: seq<string>)
    ensures a + (b + c) == a + b + c
  {
  }

  lemma JoinedBehindName(a: string, b: string)
    requires IndexOf(a, "/") == |a|
    ensures Parts(a + "/" + b) == NameBefore(a) + Parts(b)
  {
    var all := a + "/" + b;
    SlashInJoined(a, b);
    PartsOfCut(all, |a|);
    assert all[..|a|] == a && all[|a| + 1..] == b;
  }

  lemma JoinedBehindSlash(a: string, b: string, i: nat)
    requires i == IndexOf(a, "/") < |a|
    ensures Parts(a + "/" + b) == NameBefore(a[..i]) + Parts(a[i + 1..] + "/" + b)
  {
    var all := a + "/" + b;
    SlashInJoined(a, b);
    PartsOfCut(all, i);
    assert all[..i] == a[..i] && all[i + 1..] == a[i + 1..] + "/" + b;
  }

  /** A path's names are those of its parts. */
  lemma {:induction false} PartsOfJoined(a: string, b: string)
    ensures Parts(a + "/" + b) == Parts(a) + Parts(b)
    decreases |a|
  {
    var i := IndexOf(a, "/");
    PartsOfCut(a, i);
    if i == |a| {
      JoinedBehindName(a, b);
      assert a[..i] == a && NameBefore(a) + [] == NameBefore(a);
    } else {
      var rest := a[i + 1..];
      JoinedBehindSlash(a, b, i);
      PartsOfJoined(rest, b);
      Reassociated(NameBefore(a[..i]), Parts(rest), Parts(b));
    }
  }

  lemma ComponentsOfJoined(a: string, b: string)
    requires Absolute(a)
    ensures Components(a + "/" + b) == Components(a) + Parts(b)
  {
    PartsOfJoined(a, b);
    Reassociated(["/"], Parts(a), Parts(b));
    assert (a + "/" + b)[0] == a[0];
  }

  /** A directory overlaps everything below it. */
  lemma BelowOverlaps(a: string, b: string)
    requires Absolute(a)
    ensures Overlap(a, a + "/" + b) && Overlap(a + "/" + b, a)
  {
    ComponentsOfJoined(a, b);
  }

  /** A directory is free exactly when it overlaps neither the Default's own, as this
      run resolves it, nor any account's, and is neither the root, nor the home
      directory, nor no directory at all. */
  lemma DirFreeExactly(m: Machine, base: string, accounts: seq<Account>, dir: string)
    ensures DirFree(m, base, accounts, dir) <==>
      && (m.normalize(base).Some? ==> !Overlap(dir, m.normalize(base).value))
      && (m.normalize(base).None? ==> !Overlap(dir, base))
      && (forall i :: 0 <= i < |accounts| && accounts[i].dir.Some? ==> !Overlap(dir, accounts[i].dir.value))
      && Components(dir) != ["/"] && !m.notADirectory(dir)
      && (m.home.Some? ==> Components(m.home.value) != Components(dir))
  {
  }

  predicate PlainName(x: string) {
    x != "" && x != "." && '/' !in x
  }

  lemma {:induction false} NoSlash(x: string)
    requires '/' !in x
    ensures IndexOf(x, "/") == |x|
  {
    if x != "" {
      assert "/" <= x <==> x[0] == '/';
      NoSlash(x[1..]);
    }
  }

  lemma PartsOfPlain(x: string)
    requires PlainName(x)
    ensures Parts(x) == [x]
  {
    NoSlash(x);
    assert x[..|x|] == x;
  }

  /** Two directories of different names in one directory do not overlap, even when
      one name begins with the other. */
  lemma NeighboursAreApart(parent: string, x: string, y: string)
    requires Absolute(parent) && PlainName(x) && PlainName(y) && x != y
    ensures !Overlap(parent + "/" + x, parent + "/" + y)
  {
    ComponentsOfJoined(parent, x);
    ComponentsOfJoined(parent, y);
    PartsOfPlain(x);
    PartsOfPlain(y);
    var a, b := Components(parent + "/" + x), Components(parent + "/" + y);
    assert |a| == |b| && a[|a| - 1] == x && b[|b| - 1] == y;
  }

  // ------------------------------------------------------------------ new accounts

  /** A new account has this id, name and kind, was made now, and nothing else is
      known of it. */
  ghost predicate IsNew(a: Account, id: string, name: string, kind: Kind, now: int) {
    && a.id == id && a.name == Trim(name) && NameMayStand(a.name) && a.kind == kind && a.createdAt == now
    && a.hooksPlugin == None && a.accountUuid == None && a.identitySha == None && a.extra == map[]
  }

  /** Adding a directory account adds one account, as asked, at the end, and
      changes nothing else. */
  lemma AddDirectorySays(m: Machine, base: string, reg: Registry, name: string, dir: string, color: Option<string>,
                         id: string, now: int, created: bool)
    requires |reg.accounts| > 0 && AddDirectory(m, base, reg, name, dir, color, id, now, created).Ok?
    ensures var next := AddDirectory(m, base, reg, name, dir, color, id, now, created).value;
      && |next.accounts| == |reg.accounts| + 1 && reg.accounts <= next.accounts
      && next == reg.(accounts := next.accounts)
      && var a := next.accounts[|reg.accounts|];
         && IsNew(a, id, name, Directory, now) && a.dir.Some? && a.dir == m.normalize(dir) && a.tokenSha == None
         && a.color.Some? && ColorAsAsked(reg.accounts, color, a.color.value) && created
  {
    PickedAsAsked(reg.accounts, color);
    CleanNameExactly(name);
  }

  /** The same for a token account: its token looks like one, and its hash is kept. */
  lemma AddTokenSays(m: Machine, reg: Registry, name: string, token: Option<string>, color: Option<string>,
                     id: string, now: int)
    requires |reg.accounts| > 0 && AddToken(m, reg, name, token, color, id, now).Ok?
    ensures var next := AddToken(m, reg, name, token, color, id, now).value;
      && |next.accounts| == |reg.accounts| + 1 && reg.accounts <= next.accounts
      && next == reg.(accounts := next.accounts)
      && var a := next.accounts[|reg.accounts|];
         && IsNew(a, id, name, Token, now) && a.dir == None
         && a.color.Some? && ColorAsAsked(reg.accounts, color, a.color.value)
         && (token.None? ==> a.tokenSha == None)
         && (token.Some? ==> LooksLikeAToken(token.value) && a.tokenSha == Some(m.sha(token.value)))
  {
    PickedAsAsked(reg.accounts, color);
    CleanNameExactly(name);
  }

  // --------------------------------------------------------------- changed accounts

  /** One account was replaced, under its own id, and nothing else changed. */
  ghost predicate OnlyAt(reg: Registry, next: Registry, p: nat) {
    && p < |reg.accounts| == |next.accounts|
    && next.accounts[p].id == reg.accounts[p].id
    && (forall i :: 0 <= i < |reg.accounts| && i != p ==> next.accounts[i] == reg.accounts[i])
    && next == reg.(accounts := next.accounts)
  }

  lemma OnlyPosition(accounts: seq<Account>, p: nat)
    requires DistinctIds(accounts) && p < |accounts|
    ensures Position(accounts, accounts[p].id) == p
  {
  }

  /** Renaming and recolouring change the name and the colour asked for, of that
      account, and nothing else. */
  lemma UpdateSays(m: Machine, reg: Registry, p: nat, name: Option<string>, color: Option<string>)
    requires DistinctIds(reg.accounts) && p < |reg.accounts| && Update(m, reg, reg.accounts[p].id, name, color).Ok?
    ensures var next := Update(m, reg, reg.accounts[p].id, name, color).value;
      && OnlyAt(reg, next, p)
      && var a, b := reg.accounts[p], next.accounts[p];
         && b == a.(name := b.name, color := b.color)
         && (name.None? ==> b.name == a.name)
         && (name.Some? ==> b.name == Trim(name.value) && NameMayStand(b.name))
         && (color.None? ==> b.color == a.color)
         && (color.Some? ==> b.color.Some? && ColorAsAsked(reg.accounts, color, b.color.value))
  {
    OnlyPosition(reg.accounts, p);
    if name.Some? {
      CleanNameExactly(name.value);
    }
  }

  /** A new token replaces the hash and makes the person behind it unknown. */
  lemma SetTokenSays(m: Machine, reg: Registry, p: nat, token: string)
    requires DistinctIds(reg.accounts) && p < |reg.accounts| && SetToken(m, reg, reg.accounts[p].id, token).Ok?
    ensures var next := SetToken(m, reg, reg.accounts[p].id, token).value;
      && OnlyAt(reg, next, p) && LooksLikeAToken(token)
      && var a, b := reg.accounts[p], next.accounts[p];
         && b == a.(tokenSha := b.tokenSha, accountUuid := b.accountUuid)
         && a.kind == Token && b.tokenSha == Some(m.sha(token)) && b.accountUuid == None
  {
    OnlyPosition(reg.accounts, p);
  }

  lemma {:induction false} KeptButOne(accounts: seq<Account>, p: nat)
    requires DistinctIds(accounts) && p < |accounts|
    ensures Kept(accounts, OtherThan(accounts[p].id)) == accounts[..p] + accounts[p + 1..]
    decreases |accounts|
  {
    var n := |accounts| - 1;
    var front := accounts[..n];
    var keep := OtherThan(accounts[p].id);
    if p == n {
      KeptWhole(front, keep);
      assert accounts[p + 1..] == [];
    } else {
      KeptButOne(front, p);
      assert accounts[p + 1..] == front[p + 1..] + [accounts[n]];
      assert front[..p] + front[p + 1..] + [accounts[n]] == accounts[..p] + accounts[p + 1..];
    }
  }

  /** Removing an account takes out that one, in place, with the consents that name
      it; what was chosen for it falls to the Default or is dropped, and every other
      choice stays. */
  lemma RemoveSays(reg: Registry, p: nat)
    requires DistinctIds(reg.accounts) && p < |reg.accounts|
    ensures Remove(reg, reg.accounts[p].id).Ok? <==> reg.accounts[p].id != DEFAULT_ID
    ensures var id := reg.accounts[p].id; id != DEFAULT_ID ==>
      var next := Remove(reg, id).value;
      && next.accounts == reg.accounts[..p] + reg.accounts[p + 1..]
      && next.defaults.newSession == (if reg.defaults.newSession == id then DEFAULT_ID else reg.defaults.newSession)
      && next.defaults.bridge == (if reg.defaults.bridge == id then DEFAULT_ID else reg.defaults.bridge)
      && (forall dir :: dir in next.defaults.byProject <==>
                        dir in reg.defaults.byProject && reg.defaults.byProject[dir] != id)
      && (forall dir :: dir in next.defaults.byProject ==>
                        next.defaults.byProject[dir] == reg.defaults.byProject[dir])
      && (forall c :: c in next.consents <==> c in reg.consents && c.giver != id && c.taker != id)
      && next == reg.(accounts := next.accounts, defaults := next.defaults, consents := next.consents)
  {
    KeptButOne(reg.accounts, p);
    SplitElements(reg.consents, NotNaming(reg.accounts[p].id));
  }

  // --------------------------------------------------------------------- the choices

  /** A path without the slashes it ends in; the root stays. */
  ghost predicate WithoutSlashes(path: string, key: string) {
    if forall i :: 0 <= i < |path| ==> path[i] == '/' then key == "/"
    else key != "" && key <= path && key[|key| - 1] != '/' && forall i :: |key| <= i < |path| ==> path[i] == '/'
  }

  lemma {:induction false} TrimmedSlashes(path: string)
    ensures TrimSlashes(path) <= path && forall i :: |TrimSlashes(path)| <= i < |path| ==> path[i] == '/'
    ensures TrimSlashes(path) != "" ==> path[|TrimSlashes(path)| - 1] != '/'
  {
    if path != "" && path[|path| - 1] == '/' {
      TrimmedSlashes(path[..|path| - 1]);
    }
  }

  lemma ProjectKeyExactly(path: string, key: string)
    ensures WithoutSlashes(path, key) <==> ProjectKey(path) == key
  {
    TrimmedSlashes(path);
    var r := TrimSlashes(path);
    if WithoutSlashes(path, key) && r != "" {
      assert path[|r| - 1] != '/';
      assert key[|key| - 1] == path[|key| - 1];
      assert |key| == |r|;
      assert key == path[..|key|] && r == path[..|r|];
    }
  }

  /** A project entry that may stand: an absolute directory without `..`, for an
      account there is. */
  predicate MayBeChosen(accounts: seq<Account>, project: (string, string)) {
    Has(accounts, project.1) && Absolute(Trim(project.0)) && ".." !in Parts(Trim(project.0))
  }

  function KeyOf(project: (string, string)): string {
    ProjectKey(Trim(project.0))
  }

  /** The entry for a directory is the last one chosen for it. */
  ghost predicate LastChosen(projects: seq<(string, string)>, i: nat, key: string) {
    && i < |projects| && KeyOf(projects[i]) == key
    && forall j :: i < j < |projects| ==> KeyOf(projects[j]) != key
  }

  /** The map has, for each directory chosen, the account of its last choice, and
      nothing else. */
  ghost predicate LastWins(projects: seq<(string, string)>, clean: map<string, string>) {
    && (forall key :: key in clean ==> exists i: nat :: LastChosen(projects, i, key))
    && (forall i: nat, key :: LastChosen(projects, i, key) ==> key in clean && clean[key] == projects[i].1)
  }

  lemma CleanLast(accounts: seq<Account>, projects: seq<(string, string)>)
    requires projects != []
    ensures var n := |projects| - 1;
      var before, all := CleanProjects(accounts, projects[..n]), CleanProjects(accounts, projects);
      && (all.Ok? <==> before.Ok? && MayBeChosen(accounts, projects[n]))
      && (all.Ok? ==> all.value == before.value[KeyOf(projects[n]) := projects[n].1])
  {
  }

  lemma {:induction false} AllMayBeChosen(accounts: seq<Account>, projects: seq<(string, string)>)
    ensures CleanProjects(accounts, projects).Ok? <==>
      forall i :: 0 <= i < |projects| ==> MayBeChosen(accounts, projects[i])
    decreases |projects|
  {
    if projects != [] {
      var front := projects[..|projects| - 1];
      AllMayBeChosen(accounts, front);
      CleanLast(accounts, projects);
      assert forall i :: 0 <= i < |front| ==> front[i] == projects[i];
    }
  }

  lemma {:induction false} TheLastWins(accounts: seq<Account>, projects: seq<(string, string)>)
    requires CleanProjects(accounts, projects).Ok?
    ensures LastWins(projects, CleanProjects(accounts, projects).value)
    decreases |projects|
  {
    if projects != [] {
      var front, last := projects[..|projects| - 1], projects[|projects| - 1];
      CleanLast(accounts, projects);
      TheLastWins(accounts, front);
      OneMoreChosen(front, last, CleanProjects(accounts, front).value);
      assert front + [last] == projects;
    }
  }

  lemma LaterChosen(front: seq<(string, string)>, last: (string, string), i: nat, key: string)
    requires i < |front|
    ensures LastChosen(front + [last], i, key) <==> LastChosen(front, i, key) && KeyOf(last) != key
  {
    var all := front + [last];
    assert all[|front|] == last && forall j :: 0 <= j < |front| ==> all[j] == front[j];
  }

  lemma OneMoreChosen(front: seq<(string, string)>, last: (string, string), clean: map<string, string>)
    requires LastWins(front, clean)
    ensures LastWins(front + [last], clean[KeyOf(last) := last.1])
  {
    var all, now := front + [last], clean[KeyOf(last) := last.1];
    assert LastChosen(all, |front|, KeyOf(last));
    forall key | key in now
      ensures exists i: nat :: LastChosen(all, i, key)
    {
      if key != KeyOf(last) {
        var i: nat :| LastChosen(front, i, key);
        LaterChosen(front, last, i, key);
      }
    }
    forall i: nat, key | LastChosen(all, i, key)
      ensures key in now && now[key] == all[i].1
    {
      if i < |front| {
        LaterChosen(front, last, i, key);
      }
    }
  }

  /** Choosing the defaults is refused exactly when one of them, or a project entry,
      may not stand. It sets each default to the account chosen for it, and the
      projects to the last choice for each directory; it gives up the two held
      defaults and changes nothing else. */
  lemma SetDefaultsSays(reg: Registry, newSession: string, bridge: string, projects: seq<(string, string)>)
    ensures SetDefaults(reg, newSession, bridge, projects).Ok? <==>
      && Has(reg.accounts, newSession) && Has(reg.accounts, bridge)
      && forall i :: 0 <= i < |projects| ==> MayBeChosen(reg.accounts, projects[i])
    ensures SetDefaults(reg, newSession, bridge, projects).Ok? ==>
      var next := SetDefaults(reg, newSession, bridge, projects).value;
      && next.defaults.newSession == newSession && next.defaults.bridge == bridge
      && LastWins(projects, next.defaults.byProject)
      && next.held.newSession == None && next.held.bridge == None && SameHeld(reg, next)
      && next == reg.(defaults := next.defaults, held := next.held)
  {
    AllMayBeChosen(reg.accounts, projects);
    if CleanProjects(reg.accounts, projects).Ok? {
      TheLastWins(reg.accounts, projects);
    }
  }

  /** The next file has both choices, and the account of every project chosen. */
  lemma ChoicesAreSaved(reg: Registry, newSession: string, bridge: string, projects: seq<(string, string)>)
    requires SetDefaults(reg, newSession, bridge, projects).Ok?
    ensures var written := ToFile(SetDefaults(reg, newSession, bridge, projects).value).defaults.value;
      && written.newSession == newSession && written.bridge == bridge
      && forall i: nat, key :: LastChosen(projects, i, key) ==>
           key in written.byProject && written.byProject[key] == projects[i].1
  {
    SetDefaultsSays(reg, newSession, bridge, projects);
  }

  /** A consent is set exactly when both accounts are there, and touches nothing
      but the consents. */
  lemma SetCopyConsentSays(reg: Registry, giver: string, taker: string, granted: bool)
    ensures SetCopyConsent(reg, giver, taker, granted).Ok? <==> Has(reg.accounts, giver) && Has(reg.accounts, taker)
    ensures SetCopyConsent(reg, giver, taker, granted).Ok? ==>
      var next := SetCopyConsent(reg, giver, taker, granted).value; next == reg.(consents := next.consents)
  {
  }

  // --------------------------------------------------------------------- the entries

  /** The account an entry of the file stands for: the name trimmed, the directory
      normalized, a colour or hash that is none left out. */
  ghost predicate StandsFor(m: Machine, a: Account, b: Account) {
    && b == a.(name := Trim(a.name), dir := b.dir, color := b.color, tokenSha := b.tokenSha,
               identitySha := b.identitySha)
    && b.color == (if a.color.Some? && LooksLikeAColor(a.color.value) then a.color else None)
    && b.identitySha == (if a.identitySha.Some? && IsSha(a.identitySha.value) then a.identitySha else None)
    && match a.kind
       case Directory => a.dir.Some? && b.dir.Some? && b.dir == m.normalize(a.dir.value) && b.tokenSha == None
       case Token => b.dir == None
                     && b.tokenSha == if a.tokenSha.Some? && IsSha(a.tokenSha.value) then a.tokenSha else None
  }

  /** An entry is used, as the account it stands for, exactly when that account may
      join those loaded before it in this run. */
  lemma EntryIsUsedExactly(m: Machine, base: string, accounts: seq<Account>, a: Account, b: Account)
    requires Stable(m)
    ensures ValidateLoaded(m, base, accounts, a) == Some(b) <==>
      StandsFor(m, a, b) && JoinsWell(m, accounts, b) && Fits(m, base, b)
  {
    CleanNameExactly(a.name);
    assert Trim(Trim(a.name)) == Trim(a.name);
    if StandsFor(m, a, b) && JoinsWell(m, accounts, b) && Fits(m, base, b) {
      AJoinerIsUsed(m, base, accounts, a, b);
    }
  }

  lemma AJoinerIsUsed(m: Machine, base: string, accounts: seq<Account>, a: Account, b: Account)
    requires StandsFor(m, a, b) && JoinsWell(m, accounts, b) && Fits(m, base, b)
    ensures ValidateLoaded(m, base, accounts, a) == Some(b)
  {
    CleanNameExactly(a.name);
    assert Trim(Trim(a.name)) == Trim(a.name);
    JoinerIsFree(m, base, accounts, b);
  }
}
