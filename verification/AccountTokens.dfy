/**
 When a loaded registry gives no token to two accounts
 (src-tauri/src/claude/accounts.rs): the load does not compare token hashes.
 */
module AccountTokens {
  import opened Wrappers
  import opened Accounts
  import opened AccountFiles
  import opened AccountEntries
  import opened AccountLoading
  import opened AccountChanges

  /** The comparison the load leaves out: the entry is accepted as a token account
      whose hash an account loaded before it has. */
  predicate BringsTwin(m: Machine, base: string, accounts: seq<Account>, raw: Raw) {
    raw.Entry? && !IsDefaultEntry(raw) &&
    var a := ValidateLoaded(m, base, accounts, raw.account);
    a.Some? && a.value.kind == Token && a.value.tokenSha.Some? && TokenTaken(accounts, a.value.tokenSha.value, None)
  }

  lemma PushedTokens(accounts: seq<Account>, a: Account)
    requires DistinctTokens(accounts)
    ensures DistinctTokens(accounts + [a]) <==>
      !(a.kind == Token && a.tokenSha.Some? && TokenTaken(accounts, a.tokenSha.value, None))
  {
    var all := accounts + [a];
    assert forall i :: 0 <= i < |accounts| ==> all[i] == accounts[i];
    if a.kind == Token && a.tokenSha.Some? && TokenTaken(accounts, a.tokenSha.value, None) {
      var i :| 0 <= i < |accounts| && HasToken(accounts[i], a.tokenSha.value) && Some(accounts[i].id) != None;
      assert SameToken(all[i], all[|accounts|]);
    } else {
      forall i | 0 <= i < |accounts|
        ensures !SameToken(accounts[i], a)
      {
        assert Some(accounts[i].id) != None;
      }
    }
  }

  /** An entry keeps tokens distinct exactly when it brings no twin. */
  lemma EntryKeepsTokensExactly(m: Machine, base: string, reg: Registry, raw: Raw)
    requires |reg.accounts| > 0 && DistinctTokens(reg.accounts)
    ensures DistinctTokens(LoadEntry(m, base, reg, raw).accounts) <==> !BringsTwin(m, base, reg.accounts, raw)
  {
    if raw.Entry? && raw.account.id != DEFAULT_ID {
      var a := ValidateLoaded(m, base, reg.accounts, raw.account);
      if a.Some? {
        PushedTokens(reg.accounts, a.value);
      }
    }
  }

  lemma TwinsStay(m: Machine, base: string, reg: Registry, raw: Raw)
    requires |reg.accounts| > 0 && !DistinctTokens(reg.accounts)
    ensures !DistinctTokens(LoadEntry(m, base, reg, raw).accounts)
  {
    var i, j :| 0 <= i < j < |reg.accounts| && SameToken(reg.accounts[i], reg.accounts[j]);
    var next := LoadEntry(m, base, reg, raw).accounts;
    assert SameToken(next[i], next[j]);
  }

  /** No entry of the file brings a twin of one that loads before it. */
  ghost predicate NoTwins(m: Machine, base: string, reg: Registry, raws: seq<Raw>)
    requires |reg.accounts| > 0
  {
    forall k :: 0 <= k < |raws| ==> !BringsTwin(m, base, LoadEntries(m, base, reg, raws[..k]).accounts, raws[k])
  }

  lemma OneMoreTwin(m: Machine, base: string, reg: Registry, raws: seq<Raw>, raw: Raw)
    requires |reg.accounts| > 0
    ensures NoTwins(m, base, reg, raws + [raw]) <==>
      NoTwins(m, base, reg, raws) && !BringsTwin(m, base, LoadEntries(m, base, reg, raws).accounts, raw)
  {
    var all := raws + [raw];
    assert all[..|raws|] == raws && all[|raws|] == raw;
    assert forall k :: 0 <= k < |raws| ==> all[..k] == raws[..k] && all[k] == raws[k];
  }

  lemma {:induction false} EntriesKeepTokensExactly(m: Machine, base: string, reg: Registry, raws: seq<Raw>)
    requires |reg.accounts| > 0 && DistinctTokens(reg.accounts)
    ensures DistinctTokens(LoadEntries(m, base, reg, raws).accounts) <==> NoTwins(m, base, reg, raws)
    decreases |raws|
  {
    if raws != [] {
      var n := |raws| - 1;
      var before := LoadEntries(m, base, reg, raws[..n]);
      assert raws == raws[..n] + [raws[n]];
      EntriesKeepTokensExactly(m, base, reg, raws[..n]);
      OneMoreTwin(m, base, reg, raws[..n], raws[n]);
      if DistinctTokens(before.accounts) {
        EntryKeepsTokensExactly(m, base, before, raws[n]);
      } else {
        TwinsStay(m, base, before, raws[n]);
      }
    }
  }

  lemma SettledTokens(m: Machine, accounts: seq<Account>, settled: seq<Account>)
    requires |accounts| == |settled|
    requires forall i :: 0 <= i < |accounts| ==>
      accounts[i].kind == settled[i].kind && accounts[i].tokenSha == settled[i].tokenSha
    ensures DistinctTokens(accounts) <==> DistinctTokens(settled)
  {
    assert forall i, j :: 0 <= i < j < |accounts| ==>
      (SameToken(accounts[i], accounts[j]) <==> SameToken(settled[i], settled[j]));
  }

  /** A loaded registry obeys every rule exactly when its Default entries do not
      collide with the other names and no entry brings a twin token. */
  lemma LoadKeepsRulesExactly(m: Machine, base: string, file: File)
    requires Stable(m)
    ensures |Read(m, base, file)| > 0
    ensures Rules(m, base, FromFile(m, base, file)) <==>
      !NamesCollide(m, Read(m, base, file)) && NoTwins(m, base, DEFAULT_REGISTRY.(extra := file.extra), file.accounts)
  {
    var start := DEFAULT_REGISTRY.(extra := file.extra);
    LoadIsWellFormed(m, base, file);
    EntriesKeepTokensExactly(m, base, start, file.accounts);
    LoadedTokens(m, base, file);
  }

  lemma LoadedTokens(m: Machine, base: string, file: File)
    requires |Read(m, base, file)| > 0
    ensures DistinctTokens(FromFile(m, base, file).accounts) <==> DistinctTokens(Read(m, base, file))
  {
    var read := LoadEntries(m, base, DEFAULT_REGISTRY.(extra := file.extra), file.accounts);
    ConsentsTouchNoAccount(LoadDefaults(Settle(m, read), file.defaults), file.consents);
    SettledTokens(m, read.accounts, FromFile(m, base, file).accounts);
  }
}
