/** What a stream reports, compared with its input: each call takes its text apart into pieces, and all
    pieces are reported but for path lines and the blank lines behind them. */
module CodeBlockReports {
  import opened Wrappers

  import opened CodeBlocks
  import opened CodeBlockInvariants
  import opened StreamingIsBatch
  import opened TextLines

  // ---- Pieces ----

  /** A line, or a part of a line that is reported early. */
  datatype Piece = Piece(text: string, line: bool)

  function Step(c: Config, m: Machine, piece: Piece): Machine {
    if piece.line then ProcessLine(c, m, piece.text) else Add(m, piece.text)
  }

  function Run(c: Config, m: Machine, pieces: seq<Piece>): Machine
    decreases |pieces|
  {
    if pieces == [] then m else Run(c, Step(c, m, pieces[0]), pieces[1..])
  }

  /** Parts are reported early only where ordinary text is expected. */
  predicate Legal(c: Config, m: Machine, pieces: seq<Piece>)
    decreases |pieces|
  {
    pieces != [] ==> (pieces[0].line || InText(m)) && Legal(c, Step(c, m, pieces[0]), pieces[1..])
  }

  function Input(pieces: seq<Piece>): string {
    if pieces == [] then "" else pieces[0].text + Input(pieces[1..])
  }

  function Lines(lines: seq<string>): seq<Piece> {
    seq(|lines|, i requires 0 <= i < |lines| => Piece(lines[i], true))
  }

  // ---- The pieces of a call, and of a stream ----

  /** The first complete line may continue one that was reported in part. */
  function CompletePieces(s: Stream, lines: seq<string>): seq<Piece> {
    if lines != [] && s.canEmitIncompleteLine then [Piece(lines[0], false)] + Lines(lines[1..]) else Lines(lines)
  }

  function IncompletePieces(m: Machine, last: string): seq<Piece> {
    if last != "" && !RequiresFullLine(m.state, last) then [Piece(last, false)] else []
  }

  function CallPieces(c: Config, s: Stream, text: string): seq<Piece> {
    var split := SplitLines(text);
    var lines := [s.lastIncompleteLine + split[0]] + split[1..];
    var complete := lines[..|lines| - 1];
    if text == "" then []
    else CompletePieces(s, complete) + IncompletePieces(ProcessComplete(c, s, complete), lines[|lines| - 1])
  }

  function ChunksPieces(c: Config, s: Stream, chunks: seq<string>): seq<Piece>
    decreases |chunks|
  {
    if chunks == [] then []
    else CallPieces(c, s, chunks[0]) + ChunksPieces(c, ProcessMarkdown(c, s, chunks[0]), chunks[1..])
  }

  /** The pieces of all calls and of the final flush. */
  function StreamPieces(c: Config, chunks: seq<string>): seq<Piece> {
    var last := ProcessChunks(c, START, chunks).lastIncompleteLine;
    ChunksPieces(c, START, chunks) + Lines(if last == "" then [] else [last])
  }

  // ---- What a run reports ----

  /** A path line right behind an opening fence, or a blank line right behind a path line. */
  predicate Dropped(c: Config, m: Machine, piece: Piece) {
    piece.line &&
    ((m.state == LineAfterFence && FilePathOf(c, m, piece.text).Some?)
     || (m.state == LineAfterFilePath && c.isBlank(piece.text)))
  }

  /** The input without the dropped lines. */
  function Kept(c: Config, m: Machine, pieces: seq<Piece>): string
    decreases |pieces|
  {
    if pieces == [] then ""
    else (if Dropped(c, m, pieces[0]) then "" else pieces[0].text) + Kept(c, Step(c, m, pieces[0]), pieces[1..])
  }

  /** Everything reported, and the opening fence whose report waits for the next line. */
  function ReportedText(m: Machine): string {
    AllText(m.emitted)
        + if m.state == LineAfterFence && m.currentBlock.Some? then m.currentBlock.value.firstLine else ""
  }

  lemma {:induction false} AllTextTag(r: Reported, text: string, info: Option<Info>)
    ensures AllText(r + Tag(text, info)) == AllText(r) + text
  {
  }

  lemma {:induction false} ContentConserves(m: Machine, line: string)
    requires Shape(m) && InText(m)
    ensures ReportedText(ProcessContent(m, line)) == ReportedText(m) + line
  {
    hide MatchFence, Tag, AllText;
    AllTextTag(m.emitted, line, CurrentInfo(m));
    Assoc(AllText(m.emitted), "", line);
    assert AllText(m.emitted) + "" == AllText(m.emitted) && "" + line == line;
    assert AllText(m.emitted) + line + "" == AllText(m.emitted) + line;
  }

  lemma {:induction false} StepConserves(c: Config, m: Machine, piece: Piece)
    requires Invariant(m) && (piece.line || InText(m))
    ensures ReportedText(Step(c, m, piece)) == ReportedText(m) + if Dropped(c, m, piece) then "" else piece.text
  {
    hide MatchFence, Tag, AllText, ProcessContent, Texts;
    var line := piece.text;
    if m.currentBlock.Some? {
      AllTextTag(m.emitted, m.currentBlock.value.firstLine, CurrentInfo(m));
    }
    AllTextTag(m.emitted, line, CurrentInfo(m));
    assert ReportedText(m) + "" == ReportedText(m);
    assert AllText(m.emitted) + "" == AllText(m.emitted);
    if piece.line && InText(m) {
      ContentConserves(m, line);
    } else if piece.line && m.state == LineAfterFence && !Dropped(c, m, piece) {
      FirstLineKeepsInvariant(m, InCodeBlock);
      StateLater(m, InCodeBlock);
      var inside := EmitFirstLine(m.(state := InCodeBlock));
      ContentConserves(inside, line);
      assert ReportedText(inside) == ReportedText(m) by {
        assert AllText(inside.emitted) + "" == AllText(inside.emitted);
      }
    } else if piece.line && m.state == LineAfterFence {
      ResourceConserves(m, c.resolveCodeblockPath(FilePathOf(c, m, line).value));
    } else if piece.line && !Dropped(c, m, piece) {
      InsideKeepsInvariant(m);
      ContentConserves(m.(state := InCodeBlock), line);
    } else if !piece.line {
      assert AllText(m.emitted) + line + "" == AllText(m.emitted) + line;
    }
  }

  lemma {:induction false} ResourceConserves(m: Machine, resource: Option<string>)
    requires Shape(m) && m.state == LineAfterFence
    ensures ReportedText(EmitFirstLine(WithResource(m, resource)).(state := LineAfterFilePath)) == ReportedText(m)
  {
    var m' := WithResource(m, resource);
    AllTextTag(m'.emitted, m'.currentBlock.value.firstLine, CurrentInfo(m'));
    var text := AllText(m.emitted) + m.currentBlock.value.firstLine;
    assert text + "" == text;
  }

  lemma {:induction false} StepKeepsInvariant(c: Config, m: Machine, piece: Piece)
    requires Invariant(m) && (piece.line || InText(m))
    ensures Invariant(Step(c, m, piece))
  {
    if piece.line { LineKeepsInvariant(c, m, piece.text); } else { AddKeepsInvariant(m, piece.text); }
  }

  /** A run keeps the invariant, and reports its input except the dropped lines. */
  lemma {:induction false} RunConserves(c: Config, m: Machine, pieces: seq<Piece>)
    requires Invariant(m) && Legal(c, m, pieces)
    ensures Invariant(Run(c, m, pieces))
    ensures ReportedText(Run(c, m, pieces)) == ReportedText(m) + Kept(c, m, pieces)
    decreases |pieces|
  {
    hide Invariant, Step, Dropped, ReportedText;
    if pieces == [] {
      assert ReportedText(m) + "" == ReportedText(m);
    } else {
      StepKeepsInvariant(c, m, pieces[0]);
      StepConserves(c, m, pieces[0]);
      RunConserves(c, Step(c, m, pieces[0]), pieces[1..]);
      Assoc(ReportedText(m), if Dropped(c, m, pieces[0]) then "" else pieces[0].text,
          Kept(c, Step(c, m, pieces[0]), pieces[1..]));
    }
  }

  // ---- The pieces of a call are what it runs ----

  lemma {:induction false} RunJoin(c: Config, m: Machine, a: seq<Piece>, b: seq<Piece>)
    ensures Run(c, m, a + b) == Run(c, Run(c, m, a), b)
    ensures Legal(c, m, a + b) == (Legal(c, m, a) && Legal(c, Run(c, m, a), b))
    ensures Input(a + b) == Input(a) + Input(b)
    decreases |a|
  {
    if a == [] {
      assert a + b == b && "" + Input(b) == Input(b);
    } else {
      assert (a + b)[1..] == a[1..] + b;
      RunJoin(c, Step(c, m, a[0]), a[1..], b);
      Assoc(a[0].text, Input(a[1..]), Input(b));
    }
  }

  lemma {:induction false} LinesRun(c: Config, m: Machine, lines: seq<string>)
    ensures Run(c, m, Lines(lines)) == ProcessLines(c, m, lines)
    ensures Legal(c, m, Lines(lines)) && Input(Lines(lines)) == Concat(lines)
    decreases |lines|
  {
    if lines != [] {
      assert Lines(lines)[1..] == Lines(lines[1..]);
      LinesRun(c, ProcessLine(c, m, lines[0]), lines[1..]);
    }
  }

  /** Lines are read in full. */
  ghost predicate ReadInFull(pieces: seq<Piece>) {
    forall i :: 0 <= i < |pieces| && pieces[i].line ==> IsFullLine(pieces[i].text)
  }

  /** A run of full lines, and parts of lines, leaves all closed blocks between fences of a line each. */
  lemma {:induction false} RunIsFenced(c: Config, m: Machine, pieces: seq<Piece>)
    requires Invariant(m) && Legal(c, m, pieces) && ReadInFull(pieces)
    requires AllFenced(m) && OpenedByFullLine(m)
    ensures AllFenced(Run(c, m, pieces)) && OpenedByFullLine(Run(c, m, pieces))
    decreases |pieces|
  {
    hide Invariant, AllFenced, OpenedByFullLine, IsFullLine, Unbroken, ProcessLine, Add;
    if pieces != [] {
      StepKeepsInvariant(c, m, pieces[0]);
      if pieces[0].line {
        FullLineEnds(pieces[0].text);
        LineIsFenced(c, m, pieces[0].text);
      } else {
        AddIsFenced(m, pieces[0].text);
      }
      RunIsFenced(c, Step(c, m, pieces[0]), pieces[1..]);
    }
  }

  /** Between calls: the invariant, closed blocks between fences of a line each, no line end held back, and a
      line reported in part only in ordinary text. */
  ghost predicate StreamInvariant(s: Stream) {
    && Invariant(s.machine) && AllFenced(s.machine) && OpenedByFullLine(s.machine) && Unbroken(s.lastIncompleteLine)
    && (s.canEmitIncompleteLine ==> InText(s.machine) && s.lastIncompleteLine == "")
  }

  lemma {:induction false} StartInvariant()
    ensures StreamInvariant(START)
  {
    InitialInvariant();
  }

  lemma {:induction false} StepOfPart(c: Config, m: Machine, text: string)
    ensures Step(c, m, Piece(text, false)) == Add(m, text)
  {
  }

  lemma {:induction false} CompleteIsRun(c: Config, s: Stream, lines: seq<string>)
    requires StreamInvariant(s)
    ensures var pieces := CompletePieces(s, lines);
      && Run(c, s.machine, pieces) == ProcessComplete(c, s, lines)
      && Legal(c, s.machine, pieces) && Input(pieces) == Concat(lines)
  {
    hide Invariant, Step;
    if lines != [] && s.canEmitIncompleteLine {
      var first := Piece(lines[0], false);
      LinesRun(c, Add(s.machine, lines[0]), lines[1..]);
      assert CompletePieces(s, lines)[1..] == Lines(lines[1..]);
      StepOfPart(c, s.machine, lines[0]);
    } else {
      LinesRun(c, s.machine, lines);
    }
  }

  lemma {:induction false} IncompleteIsRun(c: Config, m: Machine, last: string)
    ensures var s, pieces := ProcessIncomplete(m, last), IncompletePieces(m, last);
      && Run(c, m, pieces) == s.machine && Legal(c, m, pieces) && Input(pieces) + s.lastIncompleteLine == last
      && (s.canEmitIncompleteLine ==> InText(s.machine) && s.lastIncompleteLine == "")
  {
    hide MightBeFence;
    if last != "" && !RequiresFullLine(m.state, last) {
      assert [Piece(last, false)][1..] == [] && last + "" + "" == last;
      StepOfPart(c, m, last);
    } else {
      assert "" + last == last;
    }
  }

  /** The complete lines of a call, and the rest behind them. */
  lemma {:induction false} CallLines(held: string, text: string)
    returns (full: seq<string>, complete: seq<string>, rest: string)
    requires Unbroken(held) && text != ""
    ensures AreFullLines(full) && Unbroken(rest)
    ensures complete == if full == [] then [] else [held + full[0]] + full[1..]
    ensures var split := SplitLines(text);
      [held + split[0]] + split[1..] == complete + [rest]
    ensures Concat(complete) + rest == held + text
    ensures full == [] ==> rest == held + text
  {
    var tail;
    full, tail := LinesOf(text);
    SplitFullLines(full, tail);
    hide SplitLines, AreFullLines;
    if full == [] {
      complete, rest := [], held + tail;
      assert Concat([]) + tail == tail && "" + rest == rest;
      assert [tail][1..] == [] && [rest] + [] == [] + [rest];
    } else {
      complete, rest := [held + full[0]] + full[1..], tail;
      assert (full + [tail])[1..] == full[1..] + [tail];
      Assoc([held + full[0]], full[1..], [tail]);
      assert complete[1..] == full[1..];
      Assoc(held, full[0], Concat(full[1..]));
      Assoc(held, Concat(full), tail);
    }
  }

  /** A call reads its complete lines, and then deals with the rest. */
  lemma {:induction false} CallParts(c: Config, s: Stream, text: string, complete: seq<string>, rest: string)
    requires text != "" && Unbroken(rest)
    requires var split := SplitLines(text); [s.lastIncompleteLine + split[0]] + split[1..] == complete + [rest]
    ensures ProcessMarkdown(c, s, text) == ProcessIncomplete(ProcessComplete(c, s, complete), rest)
    ensures CallPieces(c, s, text)
         == CompletePieces(s, complete) + IncompletePieces(ProcessComplete(c, s, complete), rest)
  {
    hide SplitLines, ProcessComplete, ProcessIncomplete, CompletePieces, IncompletePieces;
    assert (complete + [rest])[..|complete|] == complete;
  }

  lemma {:induction false} CallReadsInFull(s: Stream, full: seq<string>, complete: seq<string>, m: Machine,
          rest: string)
    requires AreFullLines(full) && Unbroken(s.lastIncompleteLine)
    requires complete == if full == [] then [] else [s.lastIncompleteLine + full[0]] + full[1..]
    ensures ReadInFull(CompletePieces(s, complete) + IncompletePieces(m, rest))
  {
    hide IsFullLine, Unbroken;
    if full != [] {
      LongerLine(s.lastIncompleteLine, full[0]);
    }
    assert forall i :: 0 <= i < |complete| ==> IsFullLine(complete[i]);
    var pieces := CompletePieces(s, complete);
    assert forall i :: 0 <= i < |pieces| ==> pieces[i].text == complete[i];
  }

  lemma {:induction false} PartsAreRun(c: Config, s: Stream, complete: seq<string>, rest: string)
    requires StreamInvariant(s)
    ensures var m := ProcessComplete(c, s, complete);
      var s', pieces := ProcessIncomplete(m, rest), CompletePieces(s, complete) + IncompletePieces(m, rest);
      && Run(c, s.machine, pieces) == s'.machine && Legal(c, s.machine, pieces)
      && Input(pieces) + s'.lastIncompleteLine == Concat(complete) + rest
      && (s'.canEmitIncompleteLine ==> InText(s'.machine) && s'.lastIncompleteLine == "")
  {
    hide Invariant, AllFenced, OpenedByFullLine, Run, Legal, ProcessComplete, ProcessIncomplete, Input, Concat;
    var m := ProcessComplete(c, s, complete);
    CompleteIsRun(c, s, complete);
    IncompleteIsRun(c, m, rest);
    var first, second := CompletePieces(s, complete), IncompletePieces(m, rest);
    RunJoin(c, s.machine, first, second);
    Assoc(Input(first), Input(second), ProcessIncomplete(m, rest).lastIncompleteLine);
  }

  lemma {:induction false} HeldIsUnbroken(m: Machine, rest: string)
    requires Unbroken(rest)
    ensures Unbroken(ProcessIncomplete(m, rest).lastIncompleteLine)
  {
  }

  /** A call is the run of its pieces; they are its text, together with what was held before and without what
      is held after. */
  lemma {:induction false} CallIsRun(c: Config, s: Stream, text: string)
    requires StreamInvariant(s)
    ensures var s', pieces := ProcessMarkdown(c, s, text), CallPieces(c, s, text);
      && Run(c, s.machine, pieces) == s'.machine && Legal(c, s.machine, pieces)
      && Input(pieces) + s'.lastIncompleteLine == s.lastIncompleteLine + text
      && StreamInvariant(s')
  {
    if text == "" {
      assert "" + s.lastIncompleteLine == s.lastIncompleteLine + "";
      return;
    }
    hide Invariant, Run, Legal, SplitLines, ProcessComplete, ProcessIncomplete, ProcessMarkdown, CallPieces;
    hide AreFullLines, Concat, Input, AllFenced, OpenedByFullLine, ReadInFull, CompletePieces, IncompletePieces;
    hide Unbroken;
    var full, complete, rest := CallLines(s.lastIncompleteLine, text);
    CallParts(c, s, text, complete, rest);
    PartsAreRun(c, s, complete, rest);
    var m := ProcessComplete(c, s, complete);
    var pieces := CompletePieces(s, complete) + IncompletePieces(m, rest);
    HeldIsUnbroken(m, rest);
    CallReadsInFull(s, full, complete, m, rest);
    RunConserves(c, s.machine, pieces);
    RunIsFenced(c, s.machine, pieces);
  }

  lemma {:induction false} CallKeepsInvariant(c: Config, s: Stream, text: string)
    requires StreamInvariant(s)
    ensures StreamInvariant(ProcessMarkdown(c, s, text))
  {
    hide StreamInvariant;
    CallIsRun(c, s, text);
  }

  lemma {:induction false} EmptyRun(c: Config, m: Machine)
    ensures Run(c, m, []) == m && Legal(c, m, []) && Input([]) == ""
  {
  }

  lemma {:induction false} ChunksAreRun(c: Config, s: Stream, chunks: seq<string>)
    requires StreamInvariant(s)
    ensures var s', pieces := ProcessChunks(c, s, chunks), ChunksPieces(c, s, chunks);
      && Run(c, s.machine, pieces) == s'.machine && Legal(c, s.machine, pieces)
      && Input(pieces) + s'.lastIncompleteLine == s.lastIncompleteLine + Concat(chunks)
      && StreamInvariant(s')
    decreases |chunks|
  {
    hide StreamInvariant, Run, Legal, ProcessMarkdown, CallPieces;
    if chunks == [] {
      EmptyRun(c, s.machine);
      assert "" + s.lastIncompleteLine == s.lastIncompleteLine + "";
    } else {
      var s1 := ProcessMarkdown(c, s, chunks[0]);
      CallIsRun(c, s, chunks[0]);
      ChunksAreRun(c, s1, chunks[1..]);
      var first, others := CallPieces(c, s, chunks[0]), ChunksPieces(c, s1, chunks[1..]);
      RunJoin(c, s.machine, first, others);
      Assoc(Input(first), Input(others), ProcessChunks(c, s, chunks).lastIncompleteLine);
      Assoc(Input(first), s1.lastIncompleteLine, Concat(chunks[1..]));
      Assoc(s.lastIncompleteLine, chunks[0], Concat(chunks[1..]));
    }
  }

  lemma {:induction false} NothingReported(text: string)
    ensures ReportedText(INITIAL) + text == text
  {
  }

  lemma {:induction false} OneLine(c: Config, m: Machine, line: string)
    ensures ProcessLines(c, m, [line]) == ProcessLine(c, m, line) && Concat([line]) == line
  {
    assert [line][1..] == [] && line + "" == line;
  }

  lemma {:induction false} FlushReportsPending(m: Machine)
    requires Invariant(m)
    ensures AllText((if m.state == LineAfterFence then EmitFirstLine(m) else m).emitted) == ReportedText(m)
  {
    if m.state == LineAfterFence {
      AllTextTag(m.emitted, m.currentBlock.value.firstLine, CurrentInfo(m));
    } else {
      assert AllText(m.emitted) + "" == AllText(m.emitted);
    }
  }

  // ---- Where pieces begin and end ----

  ghost predicate AtLineStart(pieces: seq<Piece>) {
    pieces == [] || EndsWithLineDelimiter(pieces[|pieces| - 1].text)
  }

  /** The next piece belongs to one line.  It begins at the start of a line, or behind a part reported
      early; a line that begins there is a held rest that starts with a fence character. */
  ghost predicate Fits(pieces: seq<Piece>, next: Piece) {
    && next.text != "" && (Unbroken(next.text) || IsFullLine(next.text))
    && (AtLineStart(pieces) || !pieces[|pieces| - 1].line)
    && (next.line ==> AtLineStart(pieces) || IsFenceChar(next.text[0]))
  }

  ghost predicate WellCut(pieces: seq<Piece>)
    decreases |pieces|
  {
    pieces != [] ==> WellCut(pieces[..|pieces| - 1]) && Fits(pieces[..|pieces| - 1], pieces[|pieces| - 1])
  }

  lemma {:induction false} WellCutPush(pieces: seq<Piece>, next: Piece)
    requires WellCut(pieces) && Fits(pieces, next)
    ensures WellCut(pieces + [next])
  {
    assert (pieces + [next])[..|pieces|] == pieces;
  }

  lemma {:induction false} WellCutLines(pieces: seq<Piece>, lines: seq<string>)
    requires WellCut(pieces) && AtLineStart(pieces) && forall i :: 0 <= i < |lines| ==> IsFullLine(lines[i])
    ensures WellCut(pieces + Lines(lines)) && AtLineStart(pieces + Lines(lines))
    decreases |lines|
  {
    hide WellCut, IsFullLine;
    if lines == [] {
      assert pieces + Lines(lines) == pieces;
    } else {
      var first := Piece(lines[0], true);
      FullLineEnds(lines[0]);
      WellCutPush(pieces, first);
      WellCutLines(pieces + [first], lines[1..]);
      assert pieces + Lines(lines) == pieces + [first] + Lines(lines[1..]);
    }
  }

  /** What the pieces so far tell about the stream. */
  ghost predicate Between(pieces: seq<Piece>, s: Stream) {
    && WellCut(pieces) && Unbroken(s.lastIncompleteLine)
    && (s.canEmitIncompleteLine ==> s.lastIncompleteLine == "" && pieces != [] && !pieces[|pieces| - 1].line)
    && (!s.canEmitIncompleteLine && !AtLineStart(pieces) ==>
          && s.lastIncompleteLine != "" && IsFenceChar(s.lastIncompleteLine[0])
          && !pieces[|pieces| - 1].line)
  }

  lemma {:induction false} IncompleteFits(pieces: seq<Piece>, m: Machine, rest: string)
    requires WellCut(pieces) && Unbroken(rest)
    requires rest == "" ==> AtLineStart(pieces)
    requires AtLineStart(pieces) || (!pieces[|pieces| - 1].line && (InText(m) || IsFenceChar(rest[0])))
    ensures Between(pieces + IncompletePieces(m, rest), ProcessIncomplete(m, rest))
  {
    if rest != "" && !RequiresFullLine(m.state, rest) {
      WellCutPush(pieces, Piece(rest, false));
    } else {
      assert pieces + IncompletePieces(m, rest) == pieces;
    }
  }

  /** The first complete line of a call continues what came before. */
  lemma {:induction false} FirstFits(pieces: seq<Piece>, s: Stream, first: string)
    requires Between(pieces, s) && IsFullLine(first)
    ensures var piece := Piece(s.lastIncompleteLine + first, !s.canEmitIncompleteLine);
      WellCut(pieces + [piece]) && AtLineStart(pieces + [piece])
  {
    hide IsFullLine;
    LongerLine(s.lastIncompleteLine, first);
    FullLineEnds(first);
    FullLineEnds(s.lastIncompleteLine + first);
    WellCutPush(pieces, Piece(s.lastIncompleteLine + first, !s.canEmitIncompleteLine));
  }

  lemma {:induction false} CompleteFits(pieces: seq<Piece>, s: Stream, full: seq<string>, complete: seq<string>)
    requires Between(pieces, s) && AreFullLines(full) && full != []
    requires complete == [s.lastIncompleteLine + full[0]] + full[1..]
    ensures WellCut(pieces + CompletePieces(s, complete)) && AtLineStart(pieces + CompletePieces(s, complete))
  {
    hide WellCut, AtLineStart, Between, IsFullLine;
    var first := Piece(complete[0], !s.canEmitIncompleteLine);
    assert complete[1..] == full[1..];
    FirstFits(pieces, s, full[0]);
    WellCutLines(pieces + [first], full[1..]);
    Assoc(pieces, [first], Lines(full[1..]));
    assert Lines(complete) == [Piece(complete[0], true)] + Lines(complete[1..]);
  }

  /** A call that completes no line goes on with the part before. */
  lemma {:induction false} PartFits(pieces: seq<Piece>, s: Stream, text: string)
    requires StreamInvariant(s) && Between(pieces, s) && text != "" && Unbroken(s.lastIncompleteLine + text)
    ensures Between(pieces + IncompletePieces(s.machine, s.lastIncompleteLine + text),
        ProcessIncomplete(s.machine, s.lastIncompleteLine + text))
  {
    hide Invariant, AllFenced, OpenedByFullLine, WellCut, Unbroken, IncompletePieces, ProcessIncomplete;
    IncompleteFits(pieces, s.machine, s.lastIncompleteLine + text);
  }

  lemma {:induction false} CallFits(c: Config, pieces: seq<Piece>, s: Stream, text: string)
    requires StreamInvariant(s) && Between(pieces, s)
    ensures Between(pieces + CallPieces(c, s, text), ProcessMarkdown(c, s, text))
  {
    if text == "" {
      assert pieces + [] == pieces;
      return;
    }
    HoldsNoLineEnd(s);
    hide StreamInvariant, Between, WellCut, SplitLines, ProcessMarkdown, CallPieces, AreFullLines, Concat;
    hide IncompletePieces, ProcessIncomplete, ProcessComplete, MightBeFence, Unbroken;
    var full, complete, rest := CallLines(s.lastIncompleteLine, text);
    CallParts(c, s, text, complete, rest);
    var m := ProcessComplete(c, s, complete);
    var first := CompletePieces(s, complete);
    Assoc(pieces, first, IncompletePieces(m, rest));
    if full == [] {
      assert pieces + first == pieces;
      NoCompleteLine(c, s);
      PartFits(pieces, s, text);
    } else {
      CompleteFits(pieces, s, full, complete);
      IncompleteFits(pieces + first, m, rest);
    }
  }

  lemma {:induction false} HoldsNoLineEnd(s: Stream)
    requires StreamInvariant(s)
    ensures Unbroken(s.lastIncompleteLine)
  {
  }

  lemma {:induction false} NoCompleteLine(c: Config, s: Stream)
    ensures ProcessComplete(c, s, []) == s.machine
  {
  }

  lemma {:induction false} ChunksFit(c: Config, pieces: seq<Piece>, s: Stream, chunks: seq<string>)
    requires StreamInvariant(s) && Between(pieces, s)
    ensures Between(pieces + ChunksPieces(c, s, chunks), ProcessChunks(c, s, chunks))
    decreases |chunks|
  {
    hide StreamInvariant, Between, ProcessMarkdown, CallPieces;
    if chunks == [] {
      assert pieces + [] == pieces;
    } else {
      var first, s1 := CallPieces(c, s, chunks[0]), ProcessMarkdown(c, s, chunks[0]);
      CallIsRun(c, s, chunks[0]);
      CallFits(c, pieces, s, chunks[0]);
      ChunksFit(c, pieces + first, s1, chunks[1..]);
      Assoc(pieces, first, ChunksPieces(c, s1, chunks[1..]));
    }
  }

  // ---- Whole streams ----

  lemma {:induction false} StreamIsRun(c: Config, chunks: seq<string>)
    ensures var pieces := StreamPieces(c, chunks);
      && Legal(c, INITIAL, pieces) && Input(pieces) == Concat(chunks)
      && Flush(c, ProcessChunks(c, START, chunks)).machine == Finished(Run(c, INITIAL, pieces))
  {
    hide Invariant, Run, Legal, ProcessLine, Input, Concat, ChunksPieces;
    StartInvariant();
    ChunksAreRun(c, START, chunks);
    assert "" + Concat(chunks) == Concat(chunks);
    var s, pieces := ProcessChunks(c, START, chunks), ChunksPieces(c, START, chunks);
    var last := s.lastIncompleteLine;
    var held := if last == "" then [] else [last];
    LinesRun(c, s.machine, held);
    RunJoin(c, INITIAL, pieces, Lines(held));
    OneLine(c, s.machine, last);
    EmptyRun(c, s.machine);
  }

  lemma {:induction false} StartFits()
    ensures Between([], START)
  {
  }

  /** The flush reads what is held as a line. */
  lemma {:induction false} HeldFits(pieces: seq<Piece>, s: Stream)
    requires Between(pieces, s)
    ensures WellCut(pieces + Lines(if s.lastIncompleteLine == "" then [] else [s.lastIncompleteLine]))
  {
    hide WellCut;
    var last := s.lastIncompleteLine;
    if last == "" {
      assert pieces + Lines([]) == pieces;
    } else {
      WellCutPush(pieces, Piece(last, true));
      assert Lines([last]) == [Piece(last, true)];
    }
  }

  lemma {:induction false} StreamFits(c: Config, chunks: seq<string>)
    ensures WellCut(StreamPieces(c, chunks))
  {
    hide ChunksPieces, ProcessChunks, Between;
    StartInvariant();
    StartFits();
    ChunksFit(c, [], START, chunks);
    var pieces := ChunksPieces(c, START, chunks);
    assert [] + pieces == pieces;
    HeldFits(pieces, ProcessChunks(c, START, chunks));
  }

  /** For every chunking, with one flush at the end: the stream runs exactly the pieces its calls take the
      input apart into; each is a line or a part of one, a line begins behind a part only at a fence
      character, and what is reported is the input without path lines right behind an opening fence and
      blank lines right behind those. */
  lemma {:induction false} ReportsAreInput(c: Config, chunks: seq<string>)
    ensures var pieces, m := StreamPieces(c, chunks), Flush(c, ProcessChunks(c, START, chunks)).machine;
      && Legal(c, INITIAL, pieces) && WellCut(pieces) && Input(pieces) == Concat(chunks)
      && m == Finished(Run(c, INITIAL, pieces))
      && AllText(m.emitted) == Kept(c, INITIAL, pieces)
  {
    hide Invariant, Run, Legal, AllText, Kept, Input, Concat, StreamPieces, ProcessChunks, Flush, WellCut;
    StreamIsRun(c, chunks);
    StreamFits(c, chunks);
    RunReports(c, StreamPieces(c, chunks));
  }

  lemma {:induction false} RunReports(c: Config, pieces: seq<Piece>)
    requires Legal(c, INITIAL, pieces)
    ensures AllText(Finished(Run(c, INITIAL, pieces)).emitted) == Kept(c, INITIAL, pieces)
  {
    hide Invariant, Run, Legal, AllText, Kept;
    InitialInvariant();
    RunConserves(c, INITIAL, pieces);
    FlushReportsPending(Run(c, INITIAL, pieces));
    NothingReported(Kept(c, INITIAL, pieces));
  }

  /** If no cut parts a line end or does harm, the pieces can be told from the text alone: what is reported is
      the lines of the text without path lines right behind an opening fence and blank lines right behind
      those. */
  lemma {:induction false} ReportsAreLines(c: Config, chunks: seq<string>)
    requires KeepsLineEnds("", chunks) && NoHarmfulCuts(c, START, chunks)
    ensures var lines := LinesOfText(Concat(chunks));
      && Concat(lines) == Concat(chunks)
      && AllText(Flush(c, ProcessChunks(c, START, chunks)).machine.emitted) == Kept(c, INITIAL, Lines(lines))
  {
    hide Run, Legal, AllText, Kept, SplitLines, ProcessChunks, Flush, NoHarmfulCuts;
    var lines := LinesOfText(Concat(chunks));
    StreamingIsReference(c, chunks);
    LinesRun(c, INITIAL, lines);
    RunReports(c, Lines(lines));
    LinesOfTextText(Concat(chunks));
  }

  /** Splitting loses no character. */
  lemma {:induction false} LinesOfTextText(text: string)
    ensures Concat(LinesOfText(text)) == text
  {
    hide SplitLines, AreFullLines;
    var full, rest := LinesOf(text);
    SplitFullLines(full, rest);
    ConcatPush(full, rest);
    assert (full + [rest])[..|full|] == full;
    assert Concat(full) + "" == Concat(full);
  }

  /** For every chunking: after the flush every closed block's reports are a full opening line, its reported
      code and a single closing line, the open block's are its fence and its code so far, blocks are numbered
      in order, and the text outside is what the blocks were reported to follow. */
  lemma {:induction false} BlocksAreReported(c: Config, chunks: seq<string>)
    ensures var m := Flush(c, ProcessChunks(c, START, chunks)).machine;
      Settled(m) && AllFenced(m) && OpenedByLine(m)
  {
    hide Settled, Invariant, ProcessLine, EmitFirstLine, AllFenced, OpenedByLine, OpenedByFullLine;
    StartInvariant();
    ChunksAreRun(c, START, chunks);
    var s := ProcessChunks(c, START, chunks);
    FlushedBlocks(c, s.machine, s.lastIncompleteLine);
  }

  lemma {:induction false} FlushedBlocks(c: Config, m: Machine, last: string)
    requires Invariant(m) && AllFenced(m) && OpenedByFullLine(m) && Unbroken(last)
    ensures var read := if last != "" then ProcessLine(c, m, last) else m;
      Settled(Finished(read)) && AllFenced(Finished(read)) && OpenedByLine(Finished(read))
  {
    hide Settled, Texts, ProcessLine, EmitFirstLine, AllFenced, OpenedByLine, OpenedByFullLine;
    if last != "" {
      LineKeepsInvariant(c, m, last);
      LineIsFenced(c, m, last);
    } else {
      FullLineIsLine(m);
    }
    var read := if last != "" then ProcessLine(c, m, last) else m;
    FlushSettles(read);
    FlushIsFenced(read);
  }
}
