/**
 What the journal's lines say (src-tauri/src/claude/agents.rs): which agents started
 and which have their result, told from the lines alone.
 */
module JournalAnswers {
  import opened Wrappers
  import opened Journals

  /** The line says that the agent started, with this title and phase. */
  ghost predicate Starts(parse: Parser, line: Line, a: Agent) {
    var rec := parse(line);
    && rec.Some? && rec.value.kind == Some("started") && rec.value.agent == Some(a.id)
    && a.title == (if rec.value.title.Some? then rec.value.title.value else "") && a.phase == rec.value.phase
  }

  ghost predicate StartsId(parse: Parser, line: Line, id: string) {
    parse(line).Some? && parse(line).value.kind == Some("started") && parse(line).value.agent == Some(id)
  }

  /** The line says that the agent has its result. */
  ghost predicate Gives(parse: Parser, line: Line, id: string) {
    parse(line).Some? && parse(line).value.kind == Some("result") && parse(line).value.agent == Some(id)
  }

  /** An agent has its result exactly when some line says so. */
  lemma {:induction false} ResultsExactly(parse: Parser, lines: seq<Line>, id: string)
    ensures id in Fold(parse, lines).results <==> exists i :: 0 <= i < |lines| && Gives(parse, lines[i], id)
  {
    if lines != [] {
      var n := |lines| - 1;
      var front := lines[..n];
      ResultsExactly(parse, front, id);
      assert forall i :: 0 <= i < n ==> front[i] == lines[i];
    }
  }

  /** The first line about the agent is line `i`. */
  ghost predicate FirstStart(parse: Parser, lines: seq<Line>, i: nat, a: Agent) {
    && i < |lines| && Starts(parse, lines[i], a)
    && forall j :: 0 <= j < i ==> !StartsId(parse, lines[j], a.id)
  }

  /** The agent is as the first line about it says. */
  ghost predicate AsSaid(parse: Parser, lines: seq<Line>, a: Agent) {
    exists i: nat :: FirstStart(parse, lines, i, a)
  }

  lemma FirstStaysFirst(parse: Parser, front: seq<Line>, line: Line, i: nat, a: Agent)
    requires FirstStart(parse, front, i, a)
    ensures FirstStart(parse, front + [line], i, a)
  {
    var all := front + [line];
    assert forall j :: 0 <= j < |front| ==> all[j] == front[j];
  }

  /** Every agent listed is as the first line about it says. */
  lemma {:induction false} ListedAsSaid(parse: Parser, lines: seq<Line>, p: nat)
    requires p < |Fold(parse, lines).started|
    ensures AsSaid(parse, lines, Fold(parse, lines).started[p])
    decreases |lines|
  {
    var n := |lines| - 1;
    var front, line := lines[..n], lines[n];
    var was, a := Fold(parse, front).started, Fold(parse, lines).started[p];
    assert lines == front + [line];
    if p < |was| {
      ListedAsSaid(parse, front, p);
      var i: nat :| FirstStart(parse, front, i, was[p]);
      FirstStaysFirst(parse, front, line, i, was[p]);
    } else {
      NotListedNotSaid(parse, front, a.id);
      assert forall j :: 0 <= j < n ==> front[j] == lines[j];
      assert FirstStart(parse, lines, n, a);
    }
  }

  /** Below the cap whoever is not listed never started. */
  lemma {:induction false} NotListedNotSaid(parse: Parser, lines: seq<Line>, id: string)
    requires |Fold(parse, lines).started| < STARTED_CAP && !Knows(Fold(parse, lines).started, id)
    ensures forall i :: 0 <= i < |lines| ==> !StartsId(parse, lines[i], id)
    decreases |lines|
  {
    if lines != [] {
      var n := |lines| - 1;
      var front := lines[..n];
      ListGrows(parse, front, lines[n]);
      assert lines == front + [lines[n]];
      NotListedNotSaid(parse, front, id);
      assert forall i :: 0 <= i < n ==> front[i] == lines[i];
      if StartsId(parse, lines[n], id) {
        StartedIsKnown(parse, front, lines[n], id);
      }
    }
  }

  lemma StartedIsKnown(parse: Parser, front: seq<Line>, line: Line, id: string)
    requires StartsId(parse, line, id) && |Fold(parse, front).started| < STARTED_CAP
    ensures Knows(Fold(parse, front + [line]).started, id)
  {
    assert (front + [line])[..|front|] == front;
    var was, now := Fold(parse, front).started, Fold(parse, front + [line]).started;
    if Knows(was, id) {
      ListGrows(parse, front, line);
    } else {
      assert now[|was|].id == id;
    }
  }

  lemma ListGrows(parse: Parser, front: seq<Line>, line: Line)
    ensures var was, now := Fold(parse, front).started, Fold(parse, front + [line]).started;
      was <= now && forall id :: Knows(was, id) ==> Knows(now, id)
  {
    assert (front + [line])[..|front|] == front;
    var was, now := Fold(parse, front).started, Fold(parse, front + [line]).started;
    forall id | Knows(was, id)
      ensures Knows(now, id)
    {
      var i :| 0 <= i < |was| && was[i].id == id;
      assert now[i] == was[i];
    }
  }

  /** Below the cap, an agent is listed exactly when some line says that it started;
      at any time a listed one is as the first such line says. */
  lemma StartedExactly(parse: Parser, lines: seq<Line>, id: string)
    ensures var started := Fold(parse, lines).started;
      && (|started| < STARTED_CAP ==>
          (Knows(started, id) <==> exists i :: 0 <= i < |lines| && StartsId(parse, lines[i], id)))
      && forall p :: 0 <= p < |started| ==> AsSaid(parse, lines, started[p])
  {
    var started := Fold(parse, lines).started;
    forall p | 0 <= p < |started|
      ensures AsSaid(parse, lines, started[p])
    {
      ListedAsSaid(parse, lines, p);
    }
    if |started| < STARTED_CAP && !Knows(started, id) {
      NotListedNotSaid(parse, lines, id);
    }
    if p :| 0 <= p < |started| && started[p].id == id {
      var i: nat :| FirstStart(parse, lines, i, started[p]);
      assert StartsId(parse, lines[i], id);
    }
  }

  /** A file under another number than the one read is read afresh by the next read,
      whatever its size. */
  lemma ANewFileIsReadAfresh(parse: Parser, w: World, ino: nat, content: seq<Byte>)
    requires w.journal.ino != 0 && ino != w.journal.ino
    ensures var end := Next(parse, Next(parse, w, Replace(ino, content)), Advance([], |content|));
      && end.journal.ino == ino && end.journal.offset == LinesEnd(content)
      && end.journal.progress == Fold(parse, Lines(content))
  {
    var replaced := Next(parse, w, Replace(ino, content));
    AdvanceAgrees(parse, replaced, [], |content|);
    var end := Next(parse, replaced, Advance([], |content|));
    assert content + [] == content;
    AdvanceSees(parse, w.journal, ino, |content|, Readable(content, |content|));
    BatchAtTheEnd(parse, end.journal, content);
  }
}
