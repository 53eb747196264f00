/**
 What an answer to a pending request may grant (src-tauri/src/pending.rs): the
 checks before it is delivered, and the permission result built from it.
 */
module PendingPolicy {
  import opened Wrappers
  import opened Text

  /** A JSON value. */
  datatype Value =
    | Null
    | Bool(b: bool)
    | Number(n: int)
    | Str(s: string)
    | Arr(items: seq<Value>)
    | Obj(fields: map<string, Value>)

  function Get(v: Value, key: string): Option<Value> {
    if v.Obj? && key in v.fields then Some(v.fields[key]) else None
  }

  function GetString(v: Value, key: string): Option<string> {
    var f := Get(v, key);
    if f.Some? && f.value.Str? then Some(f.value.s) else None
  }

  function StringOr(v: Value, key: string, default: string): string {
    var s := GetString(v, key);
    if s.Some? then s.value else default
  }

  datatype Kind = Permission | Question | Plan | Elicitation

  datatype Source = Observed | Answering

  datatype Suggestion = Suggestion(index: nat, title: string, standing: bool, raw: Value)

  datatype Item = Item(
    id: string,
    session: string,
    kind: Kind,
    source: Source,
    input: Option<Value>,
    suggestions: seq<Suggestion>,
    dangerous: bool,
    reason: Option<string>,
    createdAt: int,
    answerable: bool)

  datatype Decision = Decision(
    allow: bool,
    suggestion: Option<nat>,
    message: Option<string>,
    answers: Option<map<string, string>>,
    mode: Option<string>,
    interrupt: bool,
    content: Option<Value>)

  predicate Ungated(mode: string) {
    mode == "bypassPermissions" || mode == "dontAsk"
  }

  predicate KnownMode(mode: string) {
    mode in {"default", "acceptEdits", "plan", "auto", "bypassPermissions", "dontAsk"}
  }

  datatype Refusal = NoSuchSuggestion | UnknownMode | ModeNeedsPlan | AnswersNeedQuestion | ContentNeedsElicitation
                   | ContentNotObject

  /** The suggestion with that index: the first one, as the code finds it. */
  function FindSuggestion(suggestions: seq<Suggestion>, index: nat): Option<Suggestion> {
    if suggestions == [] then None
    else if suggestions[0].index == index then Some(suggestions[0])
    else FindSuggestion(suggestions[1..], index)
  }

  function Chosen(item: Item, d: Decision): Option<Suggestion> {
    if d.suggestion.None? then None else FindSuggestion(item.suggestions, d.suggestion.value)
  }

  function Validate(item: Item, d: Decision): Option<Refusal> {
    if d.suggestion.Some? && Chosen(item, d).None? then Some(NoSuchSuggestion)
    else if d.mode.Some? && !KnownMode(d.mode.value) then Some(UnknownMode)
    else if d.mode.Some? && item.kind != Plan then Some(ModeNeedsPlan)
    else if HasAnswers(d) && item.kind != Question then Some(AnswersNeedQuestion)
    else if d.content.Some? && !d.content.value.Null? && item.kind != Elicitation then Some(ContentNeedsElicitation)
    else if d.content.Some? && !d.content.value.Null? && !d.content.value.Obj? then Some(ContentNotObject)
    else None
  }

  /** The second part of `s` split at `__`, if there is one. */
  function SecondPart(s: string): Option<string> {
    var i := IndexOf(s, "__");
    if i + 2 > |s| then None
    else
      var rest := s[i + 2..];
      Some(rest[..IndexOf(rest, "__")])
  }

  /** A rule that covers every use of a tool, or a whole MCP server. */
  predicate IsBlanketRule(rule: Value) {
    var tool := StringOr(rule, "toolName", "");
    var content := Trim(StringOr(rule, "ruleContent", ""));
    if tool == "" || tool == "*" then true
    else if "mcp__" <= tool then
      var part := SecondPart(tool[5..]);
      part.None? || part.value == "" || part.value == "*"
    else content in {"", "*", ":*", "**", "* *"}
  }

  /** Whether one permission update outlives the request it rides in on. */
  predicate IsStanding(raw: Value) {
    if !raw.Obj? then !raw.Null?
    else
      var kind := StringOr(raw, "type", "");
      var destination := StringOr(raw, "destination", "session");
      if destination != "session" && destination != "cliArg" then true
      else if kind == "setMode" then
        var mode := GetString(raw, "mode");
        mode.Some? && Ungated(mode.value)
      else if kind == "addDirectories" then true
      else if kind == "addRules" || kind == "replaceRules" then
        var behavior := GetString(raw, "behavior");
        var rules := Get(raw, "rules");
        (behavior.None? || behavior.value == "allow")
        && rules.Some? && rules.value.Arr?
        && exists i :: 0 <= i < |rules.value.items| && IsBlanketRule(rules.value.items[i])
      else false
  }

  predicate IsDangerous(item: Item, d: Decision) {
    item.dangerous
    || (d.mode.Some? && Ungated(d.mode.value))
    || (Chosen(item, d).Some? && (Chosen(item, d).value.standing || IsStanding(Chosen(item, d).value.raw)))
  }

  function SetMode(mode: string): Value {
    Obj(map["type" := Str("setMode"), "mode" := Str(mode), "destination" := Str("session")])
  }

  function AnswersValue(answers: map<string, string>): Value {
    Obj(map k | k in answers :: Str(answers[k]))
  }

  predicate HasAnswers(d: Decision) {
    d.answers.Some? && d.answers.value != map[]
  }

  function DenyResult(text: string, interrupt: bool): (r: Value)
    ensures Updates(r) == [] && GetString(r, "behavior") == Some("deny") && GetString(r, "message") == Some(text)
    ensures Get(r, "interrupt") == (if interrupt then Some(Bool(true)) else None) && Get(r, "updatedInput") == None
  {
    var fields := map["behavior" := Str("deny"), "message" := Str(text)];
    Obj(if interrupt then fields["interrupt" := Bool(true)] else fields)
  }

  function AllowResult(input: Option<Value>, perms: seq<Value>): (r: Value)
    ensures Updates(r) == perms && GetString(r, "behavior") == Some("allow") && Get(r, "updatedInput") == input
  {
    var fields := map["behavior" := Str("allow")];
    var answered := if input.Some? then fields["updatedInput" := input.value] else fields;
    Obj(if perms != [] then answered["updatedPermissions" := Arr(perms)] else answered)
  }

  /** The permission result for a decision. */
  method PermissionResult(item: Item, d: Decision) returns (out: Value)
    ensures Updates(out) == Granted(item, d)
    ensures GetString(out, "behavior") ==
            if item.kind == Elicitation then None else Some(if d.allow then "allow" else "deny")
    ensures item.kind != Elicitation && !d.allow ==>
      && GetString(out, "message") ==
         Some(if d.message.None? || Trim(d.message.value) == "" then "Denied from Mother Claude." else d.message.value)
      && Get(out, "interrupt") == (if d.interrupt then Some(Bool(true)) else None)
      && Get(out, "updatedInput") == None
    ensures item.kind == Elicitation ==>
      && GetString(out, "action") == Some(if d.allow then "accept" else "decline")
      && Get(out, "content") ==
         if !d.allow then None
         else if d.content.Some? && d.content.value.Obj? then d.content else Some(Obj(map[]))
    ensures item.kind != Elicitation && d.allow && !HasAnswers(d) ==> Get(out, "updatedInput") == item.input
    ensures item.kind != Elicitation && d.allow && HasAnswers(d) ==>
      var input := Get(out, "updatedInput");
      && input.Some? && Get(input.value, "answers") == Some(AnswersValue(d.answers.value))
      && forall key :: key != "answers" ==>
        Get(input.value, key) == if item.input.Some? then Get(item.input.value, key) else None
  {
    if item.kind == Elicitation {
      return ElicitationResult(d);
    }
    if !d.allow {
      var text := if d.message.Some? && Trim(d.message.value) != "" then d.message.value
                  else "Denied from Mother Claude.";
      return DenyResult(text, d.interrupt);
    }
    var input := item.input;
    if HasAnswers(d) {
      var base := if input.Some? && input.value.Obj? then input.value.fields else map[];
      input := Some(Obj(base["answers" := AnswersValue(d.answers.value)]));
    }
    var perms: seq<Value> := [];
    var chosen := Chosen(item, d);
    if chosen.Some? {
      perms := perms + [chosen.value.raw];
    }
    if d.mode.Some? {
      perms := perms + [SetMode(d.mode.value)];
    }
    out := AllowResult(input, perms);
  }

  function ElicitationResult(d: Decision): (r: Value)
    ensures Updates(r) == [] && GetString(r, "behavior") == None
    ensures GetString(r, "action") == Some(if d.allow then "accept" else "decline")
    ensures d.allow <==> Get(r, "content").Some?
  {
    if d.allow then
      Obj(map["action" := Str("accept"),
              "content" := if d.content.Some? && d.content.value.Obj? then d.content.value else Obj(map[])])
    else Obj(map["action" := Str("decline")])
  }

  /** The permission updates a result carries. */
  function Updates(result: Value): seq<Value> {
    var u := Get(result, "updatedPermissions");
    if u.Some? && u.value.Arr? then u.value.items else []
  }

  /** The updates a decision grants: the chosen suggestion's, and a mode for the
      session. */
  function Granted(item: Item, d: Decision): seq<Value> {
    if item.kind == Elicitation || !d.allow then []
    else
      (if Chosen(item, d).Some? then [Chosen(item, d).value.raw] else [])
      + (if d.mode.Some? then [SetMode(d.mode.value)] else [])
  }

  /** The gate is sound: a decision that grants a standing update is dangerous. */
  lemma StandingGrantsAreDangerous(item: Item, d: Decision, update: Value)
    requires update in Granted(item, d) && IsStanding(update)
    ensures d.allow && IsDangerous(item, d)
  {
    if d.mode.Some? && update == SetMode(d.mode.value) {
      assert GetString(update, "type") == Some("setMode");
      assert GetString(update, "mode") == d.mode;
    }
  }

  /** And no tighter than it must be: for an item not dangerous in itself, whose
      suggestions are flagged as their updates are, allowing is dangerous only
      if it grants a standing update. */
  lemma DangerousOnlyForStandingGrants(item: Item, d: Decision)
    requires !item.dangerous && item.kind != Elicitation && d.allow
    requires forall i :: 0 <= i < |item.suggestions| ==>
      (item.suggestions[i].standing ==> IsStanding(item.suggestions[i].raw))
    ensures IsDangerous(item, d) <==> exists u :: u in Granted(item, d) && IsStanding(u)
  {
    if d.suggestion.Some? {
      FoundIsThere(item.suggestions, d.suggestion.value);
    }
    if IsDangerous(item, d) {
      if Chosen(item, d).Some? && IsStanding(Chosen(item, d).value.raw) {
        assert Chosen(item, d).value.raw in Granted(item, d);
      } else {
        var u := SetMode(d.mode.value);
        assert GetString(u, "type") == Some("setMode");
        assert GetString(u, "mode") == d.mode;
        assert u in Granted(item, d) && IsStanding(u);
      }
    }
    if u :| u in Granted(item, d) && IsStanding(u) {
      StandingGrantsAreDangerous(item, d, u);
    }
  }

  lemma {:induction false} FoundIsThere(suggestions: seq<Suggestion>, index: nat)
    ensures FindSuggestion(suggestions, index).Some? ==> FindSuggestion(suggestions, index).value in suggestions
  {
    if suggestions != [] {
      FoundIsThere(suggestions[1..], index);
    }
  }
}
