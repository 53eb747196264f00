/**
 The cached reader of a workflow's journal (src-tauri/src/claude/agents.rs): it
 reads on from its offset, keeps what the complete lines say, and starts over
 when the file was replaced or cut short.
 */
module Journals {
  import opened Wrappers

  type Line = seq<Byte>

  const NEWLINE: Byte := 10
  const STARTED_CAP := 2000

  /** One line as parsed; every field is optional, and an unreadable line is no
      record at all. */
  datatype Record = Record(kind: Option<string>, agent: Option<string>, title: Option<string>, phase: Option<string>)

  /** How a line's text is read: opaque, but the same for the same bytes. */
  type Parser = Line -> Option<Record>

  datatype Agent = Agent(id: string, title: string, phase: Option<string>)

  /** What the lines read so far say. */
  datatype Progress = Progress(started: seq<Agent>, results: set<string>)

  const NOTHING := Progress([], {})

  predicate Knows(started: seq<Agent>, id: string) {
    exists i :: 0 <= i < |started| && started[i].id == id
  }

  function Apply(parse: Parser, p: Progress, line: Line): Progress {
    var rec := parse(line);
    if rec.None? || rec.value.agent.None? then p
    else
      var id := rec.value.agent.value;
      if rec.value.kind == Some("started") then
        if Knows(p.started, id) || |p.started| >= STARTED_CAP then p
        else
          var title := if rec.value.title.Some? then rec.value.title.value else "";
          p.(started := p.started + [Agent(id, title, rec.value.phase)])
      else if rec.value.kind == Some("result") then p.(results := p.results + {id})
      else p
  }

  /** Folding lines in order. */
  function Fold(parse: Parser, lines: seq<Line>): Progress {
    if lines == [] then NOTHING
    else Apply(parse, Fold(parse, lines[..|lines| - 1]), lines[|lines| - 1])
  }

  /** No newline from `from` up to `to`. */
  predicate NoNewline(text: seq<Byte>, from: nat, to: nat) {
    forall i :: from <= i < to && i < |text| ==> text[i] != NEWLINE
  }

  /** The length of the first complete line, newline included, or 0. */
  function FirstLine(text: seq<Byte>): (n: nat)
    ensures n <= |text|
    ensures n > 0 ==> text[n - 1] == NEWLINE && NoNewline(text, 0, n - 1)
    ensures n == 0 ==> NoNewline(text, 0, |text|)
  {
    if text == [] then 0
    else if text[0] == NEWLINE then 1
    else
      var n := FirstLine(text[1..]);
      assert forall i :: 1 <= i < |text| ==> text[i] == text[1..][i - 1];
      if n == 0 then 0 else n + 1
  }

  /** The complete lines of a text, each with its newline; a partial last line
      is none. */
  function Lines(text: seq<Byte>): seq<Line>
    decreases |text|
  {
    var n := FirstLine(text);
    if n == 0 then [] else [text[..n]] + Lines(text[n..])
  }

  /** Where the complete lines end. */
  function LinesEnd(text: seq<Byte>): (e: nat)
    ensures e <= |text| && AtLineEnd(text, e) && NoNewline(text, e, |text|)
    decreases |text|
  {
    var n := FirstLine(text);
    if n == 0 then 0
    else
      var e := LinesEnd(text[n..]);
      EndsInTail(text, n, e);
      n + e
  }

  lemma EndsInTail(text: seq<Byte>, n: nat, e: nat)
    requires 0 < n <= |text| && text[n - 1] == NEWLINE
    requires e <= |text| - n && AtLineEnd(text[n..], e) && NoNewline(text[n..], e, |text| - n)
    ensures AtLineEnd(text, n + e) && NoNewline(text, n + e, |text|)
  {
    assert forall i :: n <= i < |text| ==> text[i] == text[n..][i - n];
  }

  predicate AtLineEnd(text: seq<Byte>, e: nat) {
    e == 0 || (e <= |text| && text[e - 1] == NEWLINE)
  }

  lemma FirstLineIsFirst(text: seq<Byte>, n: nat)
    requires 0 < n <= |text| && text[n - 1] == NEWLINE && NoNewline(text, 0, n - 1)
    ensures FirstLine(text) == n
  {
    var m := FirstLine(text);
    assert m > 0 && text[m - 1] == NEWLINE;
  }

  lemma FirstLineOfConcat(a: seq<Byte>, b: seq<Byte>)
    requires a != [] && AtLineEnd(a, |a|)
    ensures var n := FirstLine(a);
      && 0 < n <= |a| && FirstLine(a + b) == n && (a + b)[..n] == a[..n] && (a + b)[n..] == a[n..] + b
      && AtLineEnd(a[n..], |a[n..]|)
  {
    var n := FirstLine(a);
    assert n > 0 by { assert a[|a| - 1] == NEWLINE; }
    assert NoNewline(a + b, 0, n - 1);
    FirstLineIsFirst(a + b, n);
  }

  lemma LinesOfFirst(text: seq<Byte>, n: nat)
    requires n == FirstLine(text) > 0
    ensures Lines(text) == [text[..n]] + Lines(text[n..])
  {
  }

  lemma JoinLines(first: seq<Line>, mid: seq<Line>, last: seq<Line>)
    ensures first + (mid + last) == (first + mid) + last
  {
  }

  /** Lines of a text cut at a line end. */
  lemma {:induction false} LinesOfConcat(a: seq<Byte>, b: seq<Byte>)
    requires AtLineEnd(a, |a|)
    ensures Lines(a + b) == Lines(a) + Lines(b)
    decreases |a|
  {
    if a == [] {
      assert a + b == b;
    } else {
      var n := FirstLine(a);
      FirstLineOfConcat(a, b);
      LinesOfFirst(a + b, n);
      LinesOfFirst(a, n);
      LinesOfConcat(a[n..], b);
      JoinLines([a[..n]], Lines(a[n..]), Lines(b));
    }
  }

  /** A text without a newline holds no complete line. */
  lemma NoLinesInTail(text: seq<Byte>)
    requires NoNewline(text, 0, |text|)
    ensures Lines(text) == []
  {
  }

  // -------------------------------------------------------------- the reader

  datatype View = View(offset: nat, ino: nat, progress: Progress)

  const FRESH := View(0, 0, NOTHING)

  /** What the complete lines before `end` say. */
  function Told(parse: Parser, text: seq<Byte>, end: nat): Progress
    requires end <= |text|
  {
    Fold(parse, Lines(text[..end]))
  }

  /** The journal holds the fold of a part of `text` that ends at a line end. */
  ghost predicate Agrees(parse: Parser, v: View, text: seq<Byte>) {
    && v.offset <= |text| && AtLineEnd(text, v.offset)
    && v.progress == Told(parse, text, v.offset)
  }

  /** The file is seen to have been replaced or cut short. */
  predicate Detected(v: View, ino: nat, size: nat) {
    (v.ino != 0 && ino != v.ino) || size < v.offset
  }

  /** Reading complete lines on from the offset. */
  function ReadOn(parse: Parser, v: View, text: seq<Byte>): View
    decreases if v.offset <= |text| then |text| - v.offset else 0
  {
    if v.offset > |text| || FirstLine(text[v.offset..]) == 0 then v
    else
      var n := FirstLine(text[v.offset..]);
      ReadOn(parse, v.(offset := v.offset + n, progress := Apply(parse, v.progress, text[v.offset..v.offset + n])),
             text)
  }

  /** Where a look starts: at the old offset, or afresh. */
  function Base(v: View, ino: nat, size: nat): View {
    if Detected(v, ino, size) then FRESH.(ino := ino) else v.(ino := ino)
  }

  function AdvanceView(parse: Parser, v: View, ino: nat, size: nat, seen: seq<Byte>): View {
    var base := Base(v, ino, size);
    if size == base.offset then base else ReadOn(parse, base, seen)
  }

  /** One line further. */
  function Further(parse: Parser, v: View, text: seq<Byte>): View
    requires v.offset <= |text|
  {
    var n := FirstLine(text[v.offset..]);
    v.(offset := v.offset + n, progress := Apply(parse, v.progress, text[v.offset..v.offset + n]))
  }

  lemma ReadOnOneLine(parse: Parser, v: View, text: seq<Byte>)
    requires v.offset <= |text| && FirstLine(text[v.offset..]) > 0
    ensures ReadOn(parse, v, text) == ReadOn(parse, Further(parse, v, text), text)
  {
  }

  /** A file's stamp as the reader sees it, or nothing when it cannot. */
  datatype Stamp = Stamp(ino: nat, size: nat)

  class Journal {
    var offset: nat
    var ino: nat
    var started: seq<Agent>
    var results: set<string>

    function Now(): View
      reads this
    {
      View(offset, ino, Progress(started, results))
    }

    constructor ()
      ensures Now() == FRESH
    {
      offset, ino, started, results := 0, 0, [], {};
    }

    method TakeLine(parse: Parser, line: Line)
      modifies this`started, this`results
      ensures Progress(started, results) == Apply(parse, old(Progress(started, results)), line)
    {
      var rec := parse(line);
      if rec.None? || rec.value.agent.None? {
        return;
      }
      var id := rec.value.agent.value;
      if rec.value.kind == Some("started") {
        if !Knows(started, id) && |started| < STARTED_CAP {
          started := started + [Agent(id, if rec.value.title.Some? then rec.value.title.value else "",
                                      rec.value.phase)];
        }
      } else if rec.value.kind == Some("result") {
        results := results + {id};
      }
    }

    /** Read on from the offset. `stamp` is what `stat` said, `seen` what the
        reads after it could get of the file (`None` when it did not open):
        more when it grew meanwhile, less when a read failed. */
    method Advance(parse: Parser, stamp: Option<Stamp>, seen: Option<seq<Byte>>)
      modifies this
      ensures stamp.None? ==> Now() == old(Now())
      ensures stamp.Some? ==>
        Now() == AdvanceView(parse, old(Now()), stamp.value.ino, stamp.value.size,
                             if seen.Some? then seen.value else [])
    {
      if stamp.None? {
        return;
      }
      if (ino != 0 && stamp.value.ino != ino) || stamp.value.size < offset {
        offset, started, results := 0, [], {};
      }
      ino := stamp.value.ino;
      if stamp.value.size == offset || seen.None? {
        return;
      }
      ReadLines(parse, seen.value);
    }

    method ReadLines(parse: Parser, text: seq<Byte>)
      modifies this
      ensures Now() == ReadOn(parse, old(Now()), text)
    {
      ghost var end := ReadOn(parse, Now(), text);
      while offset <= |text| && FirstLine(text[offset..]) > 0
        invariant ReadOn(parse, Now(), text) == end
        decreases |text| - offset
      {
        ReadOnOneLine(parse, Now(), text);
        ReadLine(parse, text);
      }
    }

    method ReadLine(parse: Parser, text: seq<Byte>)
      requires offset <= |text| && FirstLine(text[offset..]) > 0
      modifies this
      ensures Now() == Further(parse, old(Now()), text)
    {
      var n := FirstLine(text[offset..]);
      var line := text[offset..offset + n];
      offset := offset + n;
      TakeLine(parse, line);
    }
  }

  lemma TheEndIsUnique(text: seq<Byte>, e: nat)
    requires e <= |text| && AtLineEnd(text, e) && NoNewline(text, e, |text|)
    ensures LinesEnd(text) == e
  {
    var m := LinesEnd(text);
    assert m > 0 ==> text[m - 1] == NEWLINE;
  }

  lemma ReadOnEnds(text: seq<Byte>, offset: nat)
    requires offset <= |text| && AtLineEnd(text, offset)
    ensures offset + LinesEnd(text[offset..]) == LinesEnd(text)
  {
    EndsWithTail(text, offset, text[offset..], LinesEnd(text[offset..]));
  }

  lemma EndsWithTail(text: seq<Byte>, offset: nat, tail: seq<Byte>, d: nat)
    requires offset <= |text| && AtLineEnd(text, offset) && tail == text[offset..]
    requires d <= |tail| && AtLineEnd(tail, d) && NoNewline(tail, d, |tail|)
    ensures offset + d == LinesEnd(text)
  {
    TailEnds(text, offset, d);
    TheEndIsUnique(text, offset + d);
  }

  lemma TailEnds(text: seq<Byte>, offset: nat, d: nat)
    requires offset <= |text| && AtLineEnd(text, offset) && d <= |text| - offset
    requires AtLineEnd(text[offset..], d) && NoNewline(text[offset..], d, |text| - offset)
    ensures AtLineEnd(text, offset + d) && NoNewline(text, offset + d, |text|)
  {
    var tail := text[offset..];
    assert forall i :: offset <= i < |text| ==> text[i] == tail[i - offset];
  }

  lemma LinesOfOne(line: seq<Byte>)
    requires line != [] && line[|line| - 1] == NEWLINE && NoNewline(line, 0, |line| - 1)
    ensures Lines(line) == [line]
  {
    FirstLineIsFirst(line, |line|);
    assert line[..|line|] == line && line[|line|..] == [];
  }

  lemma LineAfter(text: seq<Byte>, offset: nat, n: nat)
    requires offset <= |text| && n == FirstLine(text[offset..]) > 0
    ensures var line := text[offset..offset + n];
      && text[..offset + n] == text[..offset] + line && line != []
      && line[|line| - 1] == NEWLINE && NoNewline(line, 0, |line| - 1)
  {
    assert text[offset..offset + n] == text[offset..][..n];
  }

  lemma FoldOfLast(parse: Parser, before: seq<Line>, line: Line)
    ensures Fold(parse, before + [line]) == Apply(parse, Fold(parse, before), line)
  {
    assert (before + [line])[..|before|] == before;
  }

  lemma OneMoreLine(parse: Parser, text: seq<Byte>, offset: nat, n: nat)
    requires offset <= |text| && AtLineEnd(text, offset) && n == FirstLine(text[offset..]) && n > 0
    ensures Told(parse, text, offset + n) == Apply(parse, Told(parse, text, offset), text[offset..offset + n])
    ensures AtLineEnd(text, offset + n)
  {
    var line := text[offset..offset + n];
    LineAfter(text, offset, n);
    LinesOfConcat(text[..offset], line);
    LinesOfOne(line);
    FoldOfLast(parse, Lines(text[..offset]), line);
  }

  // ------------------------------------------------------------- whole runs

  /** The file grows, is replaced or cut short or rewritten, or is read: `during`
      is appended between the reader's `stat` and its reads, and `limit` bytes
      are readable before a read fails. `AdvanceSwapped` is a read for which the
      file is replaced between the `stat` and the opening. */
  datatype Step =
    | Append(more: seq<Byte>)
    | Replace(ino: nat, content: seq<Byte>)
    | Advance(during: seq<Byte>, limit: nat)
    | AdvanceSwapped(ino: nat, content: seq<Byte>, limit: nat)

  datatype World = World(ino: nat, content: seq<Byte>, journal: View)

  function Next(parse: Parser, w: World, step: Step): World {
    match step
    case Append(more) => w.(content := w.content + more)
    case Replace(ino, content) => w.(ino := ino, content := content)
    case Advance(during, limit) =>
      var grown := w.content + during;
      w.(content := grown, journal := AdvanceView(parse, w.journal, w.ino, |w.content|, Readable(grown, limit)))
    case AdvanceSwapped(ino, content, limit) =>
      World(ino, content, AdvanceView(parse, w.journal, w.ino, |w.content|, Readable(content, limit)))
  }

  function Readable(text: seq<Byte>, limit: nat): seq<Byte> {
    if limit <= |text| then text[..limit] else text
  }

  function Run(parse: Parser, w: World, steps: seq<Step>): World
    decreases steps
  {
    if steps == [] then w else Run(parse, Next(parse, w, steps[0]), steps[1..])
  }

  /** What the reader can tell at its next look: the file is replaced by another
      one, or cut below the offset, and has not grown to the offset again by
      then (a reader that has read nothing need not tell). */
  predicate Visible(w: World, step: Step) {
    match step
    case Append(more) =>
      Detected(w.journal, w.ino, |w.content|) ==> Detected(w.journal, w.ino, |w.content + more|)
    case Replace(ino, content) =>
      (w.journal.offset == 0 && w.journal.progress == NOTHING) || Detected(w.journal, ino, |content|)
    case Advance(_, _) => true
    case AdvanceSwapped(ino, _, _) => w.ino != 0 && ino != w.ino
  }

  predicate AllVisible(parse: Parser, w: World, steps: seq<Step>)
    decreases steps
  {
    steps == [] || (Visible(w, steps[0]) && AllVisible(parse, Next(parse, w, steps[0]), steps[1..]))
  }

  /** The journal agrees with the file, or the next look will see that it does
      not. */
  ghost predicate Sound(parse: Parser, w: World) {
    Agrees(parse, w.journal, w.content) || Detected(w.journal, w.ino, |w.content|)
  }

  lemma FurtherAgrees(parse: Parser, v: View, text: seq<Byte>)
    requires Agrees(parse, v, text) && FirstLine(text[v.offset..]) > 0
    ensures Agrees(parse, Further(parse, v, text), text)
  {
    OneMoreLine(parse, text, v.offset, FirstLine(text[v.offset..]));
  }

  lemma {:induction false} ReadOnAgrees(parse: Parser, v: View, text: seq<Byte>)
    requires Agrees(parse, v, text)
    ensures Agrees(parse, ReadOn(parse, v, text), text)
    ensures ReadOn(parse, v, text).offset == LinesEnd(text) && ReadOn(parse, v, text).ino == v.ino
    decreases |text| - v.offset
  {
    if FirstLine(text[v.offset..]) > 0 {
      FurtherAgrees(parse, v, text);
      ReadOnAgrees(parse, Further(parse, v, text), text);
    } else {
      ReadOnEnds(text, v.offset);
    }
  }

  lemma StillAgrees(parse: Parser, v: View, text: seq<Byte>, more: seq<Byte>)
    requires Agrees(parse, v, text)
    ensures Agrees(parse, v, text + more)
  {
    assert (text + more)[..v.offset] == text[..v.offset];
  }

  lemma ReadsShort(parse: Parser, v: View, text: seq<Byte>, limit: nat)
    requires Agrees(parse, v, text) && limit <= |text|
    ensures Agrees(parse, ReadOn(parse, v, text[..limit]), text) && ReadOn(parse, v, text[..limit]).ino == v.ino
    decreases |text| - v.offset
  {
    var seen := text[..limit];
    if v.offset <= limit {
      assert seen[..v.offset] == text[..v.offset];
      ReadOnAgrees(parse, v, seen);
      var end := ReadOn(parse, v, seen);
      assert text[..end.offset] == seen[..end.offset];
    }
  }

  lemma BaseAgrees(parse: Parser, w: World)
    requires Sound(parse, w)
    ensures Agrees(parse, Base(w.journal, w.ino, |w.content|), w.content)
  {
    assert w.content[..0] == [] && Lines([]) == [];
  }

  lemma FullReadEnds(parse: Parser, base: View, content: seq<Byte>)
    requires Agrees(parse, base, content)
    ensures (if |content| == base.offset then base else ReadOn(parse, base, content)).offset == LinesEnd(content)
  {
    if |content| == base.offset {
      TheEndIsUnique(content, base.offset);
    } else {
      ReadOnAgrees(parse, base, content);
    }
  }

  lemma AdvanceKeepsAgreement(parse: Parser, w: World, during: seq<Byte>, limit: nat)
    requires Sound(parse, w)
    ensures var next := Next(parse, w, Advance(during, limit)); Agrees(parse, next.journal, next.content)
  {
    var grown := w.content + during;
    var base := Base(w.journal, w.ino, |w.content|);
    BaseAgrees(parse, w);
    StillAgrees(parse, base, w.content, during);
    var cut := if limit <= |grown| then limit else |grown|;
    assert Readable(grown, limit) == grown[..cut];
    ReadsShort(parse, base, grown, cut);
  }

  lemma FullAdvanceEnds(parse: Parser, w: World, limit: nat)
    requires Sound(parse, w) && limit >= |w.content|
    ensures Next(parse, w, Advance([], limit)).journal.offset == LinesEnd(w.content)
  {
    BaseAgrees(parse, w);
    FullReadEnds(parse, Base(w.journal, w.ino, |w.content|), w.content);
    assert w.content + [] == w.content && Readable(w.content, limit) == w.content;
  }

  /** Reading a file it agrees with (or sees is another) makes the journal the
      fold of all its complete lines, unless a read failed. */
  lemma AdvanceAgrees(parse: Parser, w: World, during: seq<Byte>, limit: nat)
    requires Sound(parse, w)
    ensures var next := Next(parse, w, Advance(during, limit));
      && Agrees(parse, next.journal, next.content)
      && (during == [] && limit >= |w.content| ==> next.journal.offset == LinesEnd(next.content))
  {
    AdvanceKeepsAgreement(parse, w, during, limit);
    if during == [] && limit >= |w.content| {
      FullAdvanceEnds(parse, w, limit);
      assert w.content + [] == w.content;
    }
  }

  lemma {:induction false} ReadOnKeepsIno(parse: Parser, v: View, text: seq<Byte>)
    ensures ReadOn(parse, v, text).ino == v.ino
    decreases if v.offset <= |text| then |text| - v.offset else 0
  {
    if v.offset <= |text| && FirstLine(text[v.offset..]) > 0 {
      ReadOnKeepsIno(parse, Further(parse, v, text), text);
    }
  }

  /** A look remembers the file its `stat` saw, whatever the reads got. */
  lemma AdvanceSees(parse: Parser, v: View, ino: nat, size: nat, seen: seq<Byte>)
    ensures AdvanceView(parse, v, ino, size, seen).ino == ino
  {
    ReadOnKeepsIno(parse, Base(v, ino, size), seen);
  }

  lemma StepKeepsSound(parse: Parser, w: World, step: Step)
    requires Sound(parse, w) && Visible(w, step)
    ensures Sound(parse, Next(parse, w, step))
  {
    match step {
      case Append(more) =>
        if !Detected(w.journal, w.ino, |w.content|) { StillAgrees(parse, w.journal, w.content, more); }
      case Replace(ino, content) =>
        assert content[..0] == [] && Lines([]) == [];
      case Advance(during, limit) => AdvanceAgrees(parse, w, during, limit);
      case AdvanceSwapped(ino, content, limit) =>
        AdvanceSees(parse, w.journal, w.ino, |w.content|, Readable(content, limit));
    }
  }

  lemma BatchAtTheEnd(parse: Parser, v: View, text: seq<Byte>)
    requires Agrees(parse, v, text) && v.offset == LinesEnd(text)
    ensures v.progress == Fold(parse, Lines(text))
  {
    var e := v.offset;
    assert text == text[..e] + text[e..];
    assert AtLineEnd(text[..e], |text[..e]|);
    LinesOfConcat(text[..e], text[e..]);
    NoLinesInTail(text[e..]);
    assert Lines(text[..e]) + [] == Lines(text[..e]);
  }

  /** Incremental equals batch: over every run of appends (cut anywhere), visible
      replacements and truncations, and reads, a read that reaches the end of the file leaves the
      fold of all its complete lines at once. */
  lemma {:induction false} IncrementalEqualsBatch(parse: Parser, w: World, steps: seq<Step>)
    requires Sound(parse, w) && AllVisible(parse, w, steps)
    ensures Sound(parse, Run(parse, w, steps))
    ensures var end := Next(parse, Run(parse, w, steps), Advance([], |Run(parse, w, steps).content|));
      && end.journal.offset == LinesEnd(end.content)
      && end.journal.progress == Fold(parse, Lines(end.content))
    decreases steps
  {
    if steps == [] {
      AdvanceAgrees(parse, w, [], |w.content|);
      var end := Next(parse, w, Advance([], |w.content|));
      BatchAtTheEnd(parse, end.journal, end.content);
    } else {
      StepKeepsSound(parse, w, steps[0]);
      IncrementalEqualsBatch(parse, Next(parse, w, steps[0]), steps[1..]);
    }
  }

  /** A file cut below the offset is read afresh by the next read. */
  lemma TruncationRestarts(parse: Parser, w: World, content: seq<Byte>)
    requires |content| < w.journal.offset
    ensures var end := Next(parse, w.(content := content), Advance([], |content|));
      Agrees(parse, end.journal, content) && end.journal.offset == LinesEnd(content)
  {
    var cut := w.(content := content);
    AdvanceKeepsAgreement(parse, cut, [], |content|);
    FullAdvanceEnds(parse, cut, |content|);
    assert content + [] == content;
  }

  /** Folding lines on from what is known. */
  function FoldOn(parse: Parser, p: Progress, lines: seq<Line>): Progress {
    if lines == [] then p
    else Apply(parse, FoldOn(parse, p, lines[..|lines| - 1]), lines[|lines| - 1])
  }

  lemma {:induction false} FoldOnFirst(parse: Parser, p: Progress, line: Line, lines: seq<Line>)
    ensures FoldOn(parse, p, [line] + lines) == FoldOn(parse, Apply(parse, p, line), lines)
  {
    var all := [line] + lines;
    if lines == [] {
      assert all == [line] && all[..0] == [];
      assert FoldOn(parse, p, all[..0]) == p;
    } else {
      assert all[..|all| - 1] == [line] + lines[..|lines| - 1];
      FoldOnFirst(parse, p, line, lines[..|lines| - 1]);
    }
  }

  lemma FirstFolds(parse: Parser, p: Progress, rest: seq<Byte>, n: nat)
    requires n == FirstLine(rest) > 0
    ensures FoldOn(parse, p, Lines(rest)) == FoldOn(parse, Apply(parse, p, rest[..n]), Lines(rest[n..]))
  {
    LinesOfFirst(rest, n);
    FoldOnFirst(parse, p, rest[..n], Lines(rest[n..]));
  }

  lemma TailOfTail(text: seq<Byte>, offset: nat, n: nat)
    requires offset + n <= |text|
    ensures text[offset + n..] == text[offset..][n..] && text[offset..offset + n] == text[offset..][..n]
  {
  }

  lemma ReadOnStep(parse: Parser, v: View, text: seq<Byte>, rest: seq<Byte>, n: nat)
    requires v.offset <= |text| && rest == text[v.offset..] && n == FirstLine(rest) > 0
    ensures text[v.offset + n..] == rest[n..]
    ensures ReadOn(parse, v, text)
         == ReadOn(parse, View(v.offset + n, v.ino, Apply(parse, v.progress, rest[..n])), text)
  {
    TailOfTail(text, v.offset, n);
    ReadOnOneLine(parse, v, text);
    assert Further(parse, v, text) == View(v.offset + n, v.ino, Apply(parse, v.progress, rest[..n]));
  }

  lemma {:induction false} ReadOnFolds(parse: Parser, v: View, text: seq<Byte>, rest: seq<Byte>)
    requires v.offset <= |text| && rest == text[v.offset..]
    ensures ReadOn(parse, v, text).progress == FoldOn(parse, v.progress, Lines(rest))
    decreases |text| - v.offset
  {
    var n := FirstLine(rest);
    if n == 0 {
      assert Lines(rest) == [];
    } else {
      var p := Apply(parse, v.progress, rest[..n]);
      ReadOnStep(parse, v, text, rest, n);
      ReadOnFolds(parse, View(v.offset + n, v.ino, p), text, rest[n..]);
      FirstFolds(parse, v.progress, rest, n);
    }
  }

  /** The agents that lines add to those started. */
  function StartedOn(parse: Parser, started: seq<Agent>, lines: seq<Line>): seq<Agent> {
    if lines == [] then started
    else Apply(parse, Progress(StartedOn(parse, started, lines[..|lines| - 1]), {}), lines[|lines| - 1]).started
  }

  /** The agents that lines give a result for. */
  function ResultsOf(parse: Parser, lines: seq<Line>): set<string> {
    if lines == [] then {}
    else Apply(parse, Progress([], ResultsOf(parse, lines[..|lines| - 1])), lines[|lines| - 1]).results
  }

  lemma {:induction false} FoldOnParts(parse: Parser, p: Progress, lines: seq<Line>)
    ensures FoldOn(parse, p, lines)
         == Progress(StartedOn(parse, p.started, lines), p.results + ResultsOf(parse, lines))
    ensures p.started <= StartedOn(parse, p.started, lines)
  {
    if lines != [] {
      FoldOnParts(parse, p, lines[..|lines| - 1]);
    }
  }

  /** A file the reader cannot tell from the one it knows, whatever it holds now:
      the next full read keeps every agent and result of the old file and adds
      what the lines after the offset say. */
  lemma AMissedRewriteReadsOn(parse: Parser, v: View, ino: nat, content: seq<Byte>)
    requires !Detected(v, ino, |content|)
    ensures var end, rest := AdvanceView(parse, v, ino, |content|, content).progress, Lines(content[v.offset..]);
      && end == Progress(StartedOn(parse, v.progress.started, rest), v.progress.results + ResultsOf(parse, rest))
      && v.progress.started <= end.started && v.progress.results <= end.results
  {
    var base := v.(ino := ino);
    ReadOnFolds(parse, base, content, content[v.offset..]);
    FoldOnParts(parse, v.progress, Lines(content[v.offset..]));
    if |content| == v.offset {
      assert content[v.offset..] == [];
    }
  }

  /** So that read says what the new file says exactly when the new file's agents
      are the old ones continued by the lines after the offset, and its results
      the old ones and those of these lines: it is wrong as soon as the new file
      lacks an old agent or an old result. */
  lemma AMissedRewriteIsRightExactly(parse: Parser, v: View, ino: nat, content: seq<Byte>)
    requires !Detected(v, ino, |content|)
    ensures var end, whole := AdvanceView(parse, v, ino, |content|, content).progress, Fold(parse, Lines(content));
      var rest := Lines(content[v.offset..]);
      && (end == whole <==>
          && whole.started == StartedOn(parse, v.progress.started, rest)
          && whole.results == v.progress.results + ResultsOf(parse, rest))
      && (!(v.progress.started <= whole.started) || !(v.progress.results <= whole.results) ==> end != whole)
  {
    AMissedRewriteReadsOn(parse, v, ino, content);
  }

  lemma {:induction false} FoldIsFoldOn(parse: Parser, before: seq<Line>, lines: seq<Line>)
    ensures Fold(parse, before + lines) == FoldOn(parse, Fold(parse, before), lines)
  {
    if lines == [] {
      assert before + lines == before;
    } else {
      assert (before + lines)[..|before + lines| - 1] == before + lines[..|lines| - 1];
      FoldIsFoldOn(parse, before, lines[..|lines| - 1]);
    }
  }

  /** When the offset still ends a line, the old content is compared with what the
      new file says up to there: its results must be the old ones but for results
      given again later, and its agents the old ones but for agents that start
      later. */
  lemma AtALineEndRightExactly(parse: Parser, v: View, ino: nat, content: seq<Byte>)
    requires !Detected(v, ino, |content|) && AtLineEnd(content, v.offset)
    ensures var told, rest := Told(parse, content, v.offset), Lines(content[v.offset..]);
      var later := ResultsOf(parse, rest);
      AdvanceView(parse, v, ino, |content|, content).progress == Fold(parse, Lines(content)) <==>
        && told.results - later == v.progress.results - later
        && StartedOn(parse, told.started, rest) == StartedOn(parse, v.progress.started, rest)
  {
    var before, after := content[..v.offset], content[v.offset..];
    assert content == before + after;
    assert AtLineEnd(before, |before|);
    LinesOfConcat(before, after);
    FoldIsFoldOn(parse, Lines(before), Lines(after));
    FoldOnParts(parse, Told(parse, content, v.offset), Lines(after));
    AMissedRewriteReadsOn(parse, v, ino, content);
    SameBut(Told(parse, content, v.offset).results, v.progress.results, ResultsOf(parse, Lines(after)));
  }

  lemma SameBut(a: set<string>, b: set<string>, c: set<string>)
    ensures a + c == b + c <==> a - c == b - c
  {
    if a - c == b - c {
      assert a + c == (a - c) + c && b + c == (b - c) + c;
    }
    if a + c == b + c {
      assert a - c == (a + c) - c && b - c == (b + c) - c;
    }
  }

  /** And it is right whenever the new file agrees with what was read. */
  lemma AnAgreeingRewriteIsRight(parse: Parser, v: View, ino: nat, content: seq<Byte>)
    requires !Detected(v, ino, |content|) && Agrees(parse, v, content)
    ensures AdvanceView(parse, v, ino, |content|, content).progress == Fold(parse, Lines(content))
  {
    var w := World(ino, content, v);
    AdvanceAgrees(parse, w, [], |content|);
    assert content + [] == content && Readable(content, |content|) == content;
    BatchAtTheEnd(parse, AdvanceView(parse, v, ino, |content|, content), content);
  }

  /** A rewrite in place that is missed: the journal keeps saying what the old
      file said. */
  lemma ARewriteInPlaceIsMissed(parse: Parser, a: string, b: string, ino: nat)
    requires a != b
    requires parse([97, NEWLINE]) == Some(Record(Some("result"), Some(a), None, None))
    requires parse([98, NEWLINE]) == Some(Record(Some("result"), Some(b), None, None))
    ensures var w := World(ino, [97, NEWLINE], View(2, ino, Progress([], {a})));
      && Agrees(parse, w.journal, w.content)
      && Run(parse, w, [Replace(ino, [98, NEWLINE]), Advance([], 2)]).journal.progress.results == {a}
      && Fold(parse, Lines([98, NEWLINE])).results == {b}
  {
    OneLine(parse, 97);
    OneLine(parse, 98);
    var w := World(ino, [97, NEWLINE], View(2, ino, Progress([], {a})));
    assert w.content[..2] == w.content;
    var r := Next(parse, w, Replace(ino, [98, NEWLINE]));
    var end := Next(parse, r, Advance([], 2));
    assert Run(parse, r, [Advance([], 2)]) == Run(parse, end, []);
    assert [Replace(ino, [98, NEWLINE]), Advance([], 2)][1..] == [Advance([], 2)];
  }

  lemma OneLine(parse: Parser, c: Byte)
    requires c != NEWLINE
    ensures Lines([c, NEWLINE]) == [[c, NEWLINE]]
    ensures Fold(parse, Lines([c, NEWLINE])) == Apply(parse, NOTHING, [c, NEWLINE])
  {
    var text := [c, NEWLINE];
    FirstLineIsFirst(text, 2);
    assert text[..2] == text && text[2..] == [];
    var only: seq<Line> := [text];
    assert only[..0] == [];
  }

  // --------------------------------------------------------- a run's counts

  datatype RunStatus = Running | Completed | Failed | Killed

  datatype Counts = Counts(total: nat, running: nat, done: nat, failed: nat)

  function StartedIds(started: seq<Agent>): set<string> {
    set a | a in started :: a.id
  }

  ghost predicate DistinctAgents(started: seq<Agent>) {
    forall i, j :: 0 <= i < j < |started| ==> started[i].id != started[j].id
  }

  /** No agent starts twice, whatever the lines say. */
  lemma {:induction false} FoldKeepsAgentsDistinct(parse: Parser, lines: seq<Line>)
    ensures DistinctAgents(Fold(parse, lines).started) && |Fold(parse, lines).started| <= STARTED_CAP
  {
    if lines != [] {
      FoldKeepsAgentsDistinct(parse, lines[..|lines| - 1]);
    }
  }

  lemma {:induction false} CountIds(started: seq<Agent>)
    requires DistinctAgents(started)
    ensures |StartedIds(started)| == |started|
  {
    if started != [] {
      var front := started[..|started| - 1];
      CountIds(front);
      assert StartedIds(started) == StartedIds(front) + {started[|started| - 1].id};
      assert started[|started| - 1].id !in StartedIds(front);
    }
  }

  /** The counting loop: an agent with a result is done; the others run while
      the workflow does, and failed if it failed. A run whose journal names no
      agent takes the count its run file `reported`, all done. */
  method CountAgents(started: seq<Agent>, results: set<string>, status: RunStatus, reported: Option<nat>)
    returns (c: Counts)
    requires DistinctAgents(started)
    ensures started != [] || reported.None? ==>
      && c.total == |StartedIds(started)|
      && c.done == |StartedIds(started) * results|
    ensures started == [] && reported.Some? ==> c.total == c.done == reported.value % 0x1_0000_0000
    ensures c.running == if status == Running then |StartedIds(started) - results| else 0
    ensures c.failed == if status == Failed then |StartedIds(started) - results| else 0
  {
    c := CountStarted(started, results, status);
    CountIds(started);
    if reported.Some? && c.total == 0 {
      c := c.(total := reported.value % 0x1_0000_0000, done := reported.value % 0x1_0000_0000);
    }
  }

  method CountStarted(started: seq<Agent>, results: set<string>, status: RunStatus) returns (c: Counts)
    requires DistinctAgents(started)
    ensures c.total == |started| && c.done == |StartedIds(started) * results|
    ensures c.running == if status == Running then |StartedIds(started) - results| else 0
    ensures c.failed == if status == Failed then |StartedIds(started) - results| else 0
  {
    var total, running, done, failed := 0, 0, 0, 0;
    ghost var open := 0;
    for i := 0 to |started|
      invariant total == i && done == |StartedIds(started[..i]) * results|
      invariant open == |StartedIds(started[..i]) - results|
      invariant running == if status == Running then open else 0
      invariant failed == if status == Failed then open else 0
    {
      var id := started[i].id;
      OneMoreId(started, i, results);
      total := total + 1;
      if id in results {
        done := done + 1;
      } else {
        open := open + 1;
        if status == Running {
          running := running + 1;
        } else if status == Failed {
          failed := failed + 1;
        }
      }
    }
    assert started[..|started|] == started;
    c := Counts(total, running, done, failed);
  }

  lemma OneMoreId(started: seq<Agent>, i: nat, results: set<string>)
    requires i < |started| && DistinctAgents(started)
    ensures var seen, now, given := StartedIds(started[..i]), StartedIds(started[..i + 1]), started[i].id in results;
      && |now * results| == |seen * results| + (if given then 1 else 0)
      && |now - results| == |seen - results| + (if given then 0 else 1)
  {
    var seen, id := StartedIds(started[..i]), started[i].id;
    assert id !in seen;
    assert started[..i + 1] == started[..i] + [started[i]];
    assert StartedIds(started[..i + 1]) == seen + {id};
    InOrOut(seen, id, results);
  }

  lemma InOrOut(seen: set<string>, id: string, results: set<string>)
    requires id !in seen
    ensures |(seen + {id}) * results| == |seen * results| + (if id in results then 1 else 0)
    ensures |(seen + {id}) - results| == |seen - results| + (if id in results then 0 else 1)
  {
    if id in results {
      assert (seen + {id}) * results == seen * results + {id};
      assert (seen + {id}) - results == seen - results;
    } else {
      assert (seen + {id}) * results == seen * results;
      assert (seen + {id}) - results == (seen - results) + {id};
    }
  }
}
