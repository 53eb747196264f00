/**
 What an answer may grant and what becomes of it (src-tauri/src/pending.rs), said
 without the code's own tests: which permission updates last, which answers are
 valid, and what the store does with one.
 */
module PendingAnswers {
  import opened Wrappers
  import opened Text
  import opened PendingPolicy
  import opened PendingStores

  // -------------------------------------------------------------------- splitting

  /** No `__` begins in `s`. */
  predicate Plain(s: string) {
    forall i :: 0 <= i < |s| - 1 ==> s[i] != '_' || s[i + 1] != '_'
  }

  lemma PlainTail(s: string)
    requires Plain(s) && s != ""
    ensures Plain(s[1..]) && !("__" <= s)
  {
    var t := s[1..];
    forall i | 0 <= i < |t| - 1
      ensures t[i] != '_' || t[i + 1] != '_'
    {
      assert t[i] == s[i + 1] && t[i + 1] == s[i + 2];
    }
    assert |s| > 1 ==> s[0] != "__"[0] || s[1] != "__"[1];
  }

  lemma {:induction false} PlainHasNoIndex(s: string)
    requires Plain(s)
    ensures IndexOf(s, "__") == |s|
  {
    if s != "" {
      PlainTail(s);
      PlainHasNoIndex(s[1..]);
    }
  }

  /** The first `__` behind a part without one, that does not end in `_`. */
  lemma {:induction false} IndexBehind(a: string, b: string)
    requires Plain(a) && (a != "" ==> a[|a| - 1] != '_')
    ensures IndexOf(a + "__" + b, "__") == |a|
  {
    var s := a + "__" + b;
    if a == "" {
      assert s[0] == '_' && s[1] == '_';
      assert "__" <= s;
    } else {
      assert s[0] == a[0] && s[1] == if |a| > 1 then a[1] else '_';
      assert !("__" <= s);
      assert s[1..] == a[1..] + "__" + b;
      PlainTail(a);
      IndexBehind(a[1..], b);
    }
  }

  // ------------------------------------------------------------------------- rules

  /** One MCP server's tools: `mcp__`, the server, and what follows it. */
  function ServerRule(server: string, rest: string): string {
    "mcp__" + server + rest
  }

  /** A server's name: not empty at the end of a part. */
  predicate ServerName(s: string) {
    Plain(s) && s != "" && s[|s| - 1] != '_'
  }

  lemma TheRestOfARule(server: string, rest: string)
    ensures "mcp__" <= ServerRule(server, rest) && ServerRule(server, rest)[5..] == server + rest
  {
    var tool := ServerRule(server, rest);
    assert tool == "mcp__" + (server + rest);
    assert tool[..5] == "mcp__";
  }

  /** Naming a server, or all of its tools, covers the whole server; naming one of
      its tools covers only that one. */
  lemma ServerRules(rule: Value, server: string, name: string)
    requires ServerName(server) && Plain(name) && rule.Obj?
    ensures GetString(rule, "toolName") == Some(ServerRule(server, "")) ==> IsBlanketRule(rule)
    ensures GetString(rule, "toolName") == Some(ServerRule(server, "__" + name)) ==>
      (IsBlanketRule(rule) <==> name == "" || name == "*")
  {
    TheRestOfARule(server, "");
    TheRestOfARule(server, "__" + name);
    PlainHasNoIndex(server);
    assert server + "" == server;
    IndexBehind(server, name);
    assert server + ("__" + name) == server + "__" + name;
    assert (server + "__" + name)[|server| + 2..] == name;
    PlainHasNoIndex(name);
    assert name[..|name|] == name;
  }

  /** A rule for a built-in tool covers all of its uses without content, or with
      only wildcards; a rule that names no tool, or any, covers everything. */
  lemma ToolRules(rule: Value)
    ensures GetString(rule, "toolName") in {None, Some(""), Some("*")} ==> IsBlanketRule(rule)
    ensures var tool, content := GetString(rule, "toolName"), GetString(rule, "ruleContent");
      tool !in {None, Some(""), Some("*")} && !("mcp__" <= tool.value) ==>
        (IsBlanketRule(rule) <==> content == None || Trim(content.value) in {"", "*", ":*", "**", "* *"})
  {
    assert Trim("") == "";
  }

  // ----------------------------------------------------------------------- updates

  /** The update is written to a place that outlives the session. */
  predicate WritesSettings(update: Value) {
    update.Obj? && GetString(update, "destination").Some?
    && GetString(update, "destination") != Some("session") && GetString(update, "destination") != Some("cliArg")
  }

  /** The update switches to a mode that asks for nothing. */
  predicate StopsAsking(update: Value) {
    GetString(update, "type") == Some("setMode")
    && (GetString(update, "mode") == Some("bypassPermissions") || GetString(update, "mode") == Some("dontAsk"))
  }

  predicate WidensDirectories(update: Value) {
    GetString(update, "type") == Some("addDirectories")
  }

  predicate AllowsByRule(update: Value) {
    && (GetString(update, "type") == Some("addRules") || GetString(update, "type") == Some("replaceRules"))
    && (GetString(update, "behavior") == None || GetString(update, "behavior") == Some("allow"))
  }

  /** One of its rules covers a whole tool or server. */
  predicate AllowsEverything(update: Value) {
    AllowsByRule(update) && Get(update, "rules").Some? && Get(update, "rules").value.Arr?
    && exists i :: 0 <= i < |Get(update, "rules").value.items| && IsBlanketRule(Get(update, "rules").value.items[i])
  }

  /** Nothing can be said about an update that is no object. */
  predicate Unreadable(update: Value) {
    !update.Obj? && !update.Null?
  }

  /** What lasts beyond its request. */
  predicate Lasts(update: Value) {
    || Unreadable(update) || WritesSettings(update) || StopsAsking(update)
    || WidensDirectories(update) || AllowsEverything(update)
  }

  /** Standing are exactly the updates that last. */
  lemma StandingExactly(update: Value)
    ensures IsStanding(update) <==> Lasts(update)
  {
  }

  /** So for one rule for a tool, kept for the session: it stands exactly when it
      allows, and allows every use. */
  lemma ASessionRuleStandsExactly(update: Value, rule: Value, tool: string, content: string)
    requires update.Obj? && GetString(update, "destination") in {None, Some("session"), Some("cliArg")}
    requires GetString(update, "type") == Some("addRules") && Get(update, "rules") == Some(Arr([rule]))
    requires GetString(rule, "toolName") == Some(tool) && tool != "" && tool != "*" && !("mcp__" <= tool)
    requires GetString(rule, "ruleContent") == Some(content)
    ensures IsStanding(update) <==>
      GetString(update, "behavior") in {None, Some("allow")} && Trim(content) in {"", "*", ":*", "**", "* *"}
  {
    ToolRules(rule);
    assert [rule][0] == rule;
  }

  /** A decision that grants an update which lasts is dangerous, whatever the
      suggestion was flagged as. */
  lemma LastingGrantsAreDangerous(item: Item, d: Decision, update: Value)
    requires update in Granted(item, d) && Lasts(update)
    ensures d.allow && IsDangerous(item, d)
  {
    StandingExactly(update);
    StandingGrantsAreDangerous(item, d, update);
  }

  /** Over every run: a decision that grants an update which lasts was delivered
      only from a caller with the dangerous right. */
  lemma LastingGrantsNeedTheRight(steps: seq<Step>, i: nat, update: Value)
    requires i < |Run(EMPTY, steps).deliveries|
    requires var x := Run(EMPTY, steps).deliveries[i]; update in Granted(x.item, x.decision) && Lasts(update)
    ensures Run(EMPTY, steps).deliveries[i].mayDangerous
  {
    StandingExactly(update);
    StandingGrantsNeedTheRight(steps, i, update);
  }

  /** Allowing is dangerous exactly for an item that is, for a mode that asks for
      nothing, and for a suggestion that is flagged as standing or lasts. */
  lemma DangerousExactly(item: Item, d: Decision)
    ensures IsDangerous(item, d) <==>
      || item.dangerous
      || d.mode == Some("bypassPermissions") || d.mode == Some("dontAsk")
      || (Chosen(item, d).Some? && (Chosen(item, d).value.standing || Lasts(Chosen(item, d).value.raw)))
  {
    if Chosen(item, d).Some? {
      StandingExactly(Chosen(item, d).value.raw);
    }
  }

  // --------------------------------------------------------------------- decisions

  /** The chosen suggestion is the first with its index, if there is one. */
  lemma {:induction false} FoundIsTheFirst(suggestions: seq<Suggestion>, index: nat)
    ensures FindSuggestion(suggestions, index).None? <==>
      forall i :: 0 <= i < |suggestions| ==> suggestions[i].index != index
    ensures FindSuggestion(suggestions, index).Some? ==>
      exists i :: 0 <= i < |suggestions| && suggestions[i] == FindSuggestion(suggestions, index).value
                  && suggestions[i].index == index && forall j :: 0 <= j < i ==> suggestions[j].index != index
  {
    if suggestions != [] && suggestions[0].index != index {
      var rest := suggestions[1..];
      FoundIsTheFirst(rest, index);
      assert forall i :: 1 <= i < |suggestions| ==> suggestions[i] == rest[i - 1];
      if FindSuggestion(rest, index).Some? {
        var i :| 0 <= i < |rest| && rest[i] == FindSuggestion(rest, index).value
                 && rest[i].index == index && forall j :: 0 <= j < i ==> rest[j].index != index;
        assert suggestions[i + 1] == rest[i];
      }
    }
  }

  /** The parts of a decision fit the item: the suggestion exists, a mode is a known
      one for a plan, answers are for a question, content is an object for an
      elicitation. */
  predicate Fitting(item: Item, d: Decision) {
    && (d.suggestion.Some? ==>
        exists i :: 0 <= i < |item.suggestions| && item.suggestions[i].index == d.suggestion.value)
    && (d.mode.Some? ==>
        item.kind == Plan && d.mode.value in {"default", "acceptEdits", "plan", "auto", "bypassPermissions", "dontAsk"})
    && (d.answers.Some? && d.answers.value != map[] ==> item.kind == Question)
    && (d.content.Some? && d.content.value != Null ==> item.kind == Elicitation && d.content.value.Obj?)
  }

  lemma ValidExactly(item: Item, d: Decision)
    ensures Validate(item, d).None? <==> Fitting(item, d)
  {
    if d.suggestion.Some? {
      FoundIsTheFirst(item.suggestions, d.suggestion.value);
    }
  }

  // --------------------------------------------------------------------- the store

  /** An answer goes through exactly when the item is live and can be answered, the
      decision fits it, and what it grants that is dangerous the caller may. */
  lemma GoesThroughExactly(st: State, id: string, d: Decision, mayDangerous: bool)
    ensures Refused(st, id, d, mayDangerous).None? <==>
      && id in st.slots && st.slots[id].item.answerable && Fitting(st.slots[id].item, d)
      && (d.allow && IsDangerous(st.slots[id].item, d) ==> mayDangerous)
    ensures Refused(st, id, d, mayDangerous) == Some(Forbidden) ==>
      id in st.slots && Fitting(st.slots[id].item, d) && d.allow && IsDangerous(st.slots[id].item, d) && !mayDangerous
    ensures Refused(st, id, d, mayDangerous) == Some(NotAnswerable) <==>
      id in st.slots && !st.slots[id].item.answerable
  {
    if id in st.slots {
      ValidExactly(st.slots[id].item, d);
    }
  }

  /** The newest registration leaves with this outcome, and every other live item
      stays. */
  ghost predicate Left(st: State, next: State, id: string, outcome: Outcome) {
    && id in st.slots && id !in next.slots
    && (forall other :: other != id ==>
        (other in next.slots <==> other in st.slots) && (other in st.slots ==> next.slots[other] == st.slots[other]))
    && id in next.resolutions
    && next.resolutions[id] == Resolution(id, st.slots[id].item.session, outcome, None)
    && next.history == st.history + [id] && next.left == st.left + [st.slots[id].registration]
    && next.registered == st.registered
  }

  /** An answer that goes through: its raiser, if it still waits, gets exactly this
      decision, and what is remembered says how it ended. A refused one changes
      nothing. */
  lemma AnAnswerSays(st: State, id: string, d: Decision, mayDangerous: bool, receiving: bool)
    ensures var next := Next(st, Resolve(id, d, mayDangerous, receiving));
      if Refused(st, id, d, mayDangerous).Some? then next == st
      else if !receiving then Left(st, next, id, Cancelled) && next.deliveries == st.deliveries
      else
        var item := st.slots[id].item;
        && next.deliveries == st.deliveries + [Delivery(st.slots[id].registration, item, d, mayDangerous)]
        && (!d.allow ==> Left(st, next, id, Denied))
        && (d.allow && (item.kind == Question || item.kind == Elicitation) ==> Left(st, next, id, Answered))
        && (d.allow && (item.kind == Permission || item.kind == Plan) ==> Left(st, next, id, Allowed))
  {
  }

  lemma AWithdrawalSays(st: State, id: string, outcome: Outcome)
    ensures var next := Next(st, Withdraw(id, outcome));
      next.deliveries == st.deliveries && if id in st.slots then Left(st, next, id, outcome) else next == st
  {
  }

  /** A registered item is live under its own id unless that is missing, live or
      remembered, and then under the spare one; it is dangerous if it was called so
      or classified so, and can be answered unless it is only observed. */
  lemma ARegistrationSays(st: State, item: Item, why: Option<string>, spare: string, now: int)
    requires Inv(st) && Fresh(st, spare)
    ensures var next := Next(st, Register(item, why, spare, now));
      var id := if item.id != "" && item.id !in st.slots && item.id !in st.finished then item.id else spare;
      && id !in st.slots && next.slots.Keys == st.slots.Keys + {id}
      && (forall other :: other in st.slots ==> next.slots[other] == st.slots[other])
      && next.slots[id].registration == st.registered && next.registered == st.registered + 1
      && var stored := next.slots[id].item;
         && stored.id == id && stored.session == item.session && stored.kind == item.kind
         && stored.input == item.input && stored.suggestions == item.suggestions
         && (stored.dangerous <==> item.dangerous || why.Some?)
         && stored.reason == (if item.reason.Some? then item.reason else why)
         && (stored.answerable <==> item.source == Answering)
         && stored.createdAt == (if item.createdAt == 0 then now else item.createdAt)
  {
  }

  /** Only what is remembered can be resolved anew, and only its resolution changes. */
  lemma AResolutionIsReplaced(st: State, r: Resolution)
    requires Inv(st)
    ensures var next := Next(st, SetResolution(r));
      && next == st.(resolutions := next.resolutions) && next.resolutions.Keys == st.resolutions.Keys
      && (r.id in st.finished ==> next.resolutions[r.id] == r)
      && forall id :: id in st.resolutions && (id != r.id || r.id !in st.finished) ==>
           next.resolutions[id] == st.resolutions[id]
  {
  }
}
