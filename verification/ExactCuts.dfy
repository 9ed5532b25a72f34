/** When a stream agrees, after every chunk, with one call on the whole text so far. */
module ExactCuts {
  import opened Wrappers

  import opened CodeBlocks
  import opened CodeBlockInvariants
  import opened CodeBlockReports
  import opened StreamingIsBatch
  import opened TextLines

  // ---- Two machines that have come apart ----

  /** The blocks that text was reported for, character by character, with the opening fence whose report
      waits for the next line. */
  function Blocks(m: Machine): seq<int> {
    Indices(m.emitted)
        + if m.state == LineAfterFence && m.currentBlock.Some? then OfFirstLine(m.currentBlock.value) else []
  }

  function OfFirstLine(block: Block): seq<int> { Repeat(|block.firstLine|, block.info.index) }

  function Indices(r: Reported): (s: seq<int>)
    ensures |s| == |r|
  {
    seq(|r|, i requires 0 <= i < |r| => IndexOf(r[i].1))
  }

  function Repeat(n: nat, index: int): (s: seq<int>)
    ensures |s| == n && forall i :: 0 <= i < n ==> s[i] == index
  {
    seq(n, _ => index)
  }

  lemma {:induction false} IndicesTag(r: Reported, text: string, info: Option<Info>)
    ensures Indices(r + Tag(text, info)) == Indices(r) + Repeat(|text|, IndexOf(info))
  {
  }

  /** Some character has been reported for different blocks. */
  ghost predicate Disagree(a: Machine, b: Machine) {
    exists p: nat :: p < |Blocks(a)| && p < |Blocks(b)| && Blocks(a)[p] != Blocks(b)[p]
  }

  /** The same block is open, in one machine within more nested blocks than in the other. */
  ghost predicate Deeper(a: Machine, b: Machine) {
    && Inside(a) && Inside(b) && a.currentBlock == b.currentBlock && a.nestingLevel > b.nestingLevel
    && |Blocks(a)| == |Blocks(b)|
  }

  /** A block is still open that the other machine has closed. */
  ghost predicate StillOpen(a: Machine, b: Machine) {
    && Inside(a) && b.state == OutsideCodeBlock && b.currentBlock.None? && a.currentBlock.value.info.index < b.index
    && |Blocks(a)| == |Blocks(b)|
  }

  ghost predicate Apart(a: Machine, b: Machine) {
    Disagree(a, b) || Deeper(a, b) || Deeper(b, a) || StillOpen(a, b) || StillOpen(b, a)
  }

  // ---- They stay apart ----

  /** The block a line is reported for. */
  function BlockOf(m: Machine, line: string): int {
    if m.currentBlock.Some? then m.currentBlock.value.info.index
    else if MatchFence(line).Some? then m.index
    else OUTSIDE
  }

  lemma {:induction false} AddBlocks(m: Machine, text: string)
    requires InText(m)
    ensures Blocks(Add(m, text)) == Blocks(m) + Repeat(|text|, IndexOf(CurrentInfo(m)))
  {
    hide Tag, Indices, Repeat;
    IndicesTag(m.emitted, text, CurrentInfo(m));
    var after := Indices(m.emitted) + Repeat(|text|, IndexOf(CurrentInfo(m)));
    assert after + [] == after && Indices(m.emitted) + [] == Indices(m.emitted);
  }

  lemma {:induction false} ContentBlocks(m: Machine, line: string)
    requires Shape(m) && InText(m)
    ensures Blocks(ProcessContent(m, line)) == Blocks(m) + Repeat(|line|, BlockOf(m, line))
  {
    hide Tag, Indices, Repeat, MatchFence;
    AddBlocks(m, line);
    assert Indices(m.emitted) + [] == Indices(m.emitted);
    var matched := MatchFence(line);
    if matched.Some? && m.currentBlock.Some? {
      AddBlocks(m.(nestingLevel := m.nestingLevel + 1), line);
      IndicesTag(m.emitted, line, Some(m.currentBlock.value.info));
      var after := Indices(m.emitted) + Repeat(|line|, BlockOf(m, line));
      assert after + [] == after;
      if m.nestingLevel > 1 {
        AddBlocks(m.(nestingLevel := m.nestingLevel - 1), line);
      }
    }
  }

  lemma {:induction false} FirstLineBlocks(m: Machine, state: State)
    requires Shape(m) && m.state == LineAfterFence && state != LineAfterFence
    ensures Blocks(EmitFirstLine(m.(state := state))) == Blocks(m)
  {
    hide Tag, Indices, Repeat;
    IndicesTag(m.emitted, m.currentBlock.value.firstLine, CurrentInfo(m));
    assert Blocks(m) + [] == Blocks(m);
  }

  /** Reports are never taken back. */
  lemma {:induction false} LineBlocks(c: Config, m: Machine, line: string)
    requires Shape(m)
    ensures Blocks(m) <= Blocks(ProcessLine(c, m, line))
    ensures InText(m) ==> Blocks(ProcessLine(c, m, line)) == Blocks(m) + Repeat(|line|, BlockOf(m, line))
  {
    hide Blocks, ProcessContent, EmitFirstLine, WithResource;
    match m.state
    case LineAfterFence =>
      var path := FilePathOf(c, m, line);
      if path.Some? {
        var resource := c.resolveCodeblockPath(path.value);
        ResourceBlocks(m, resource);
        FirstLineBlocks(WithResource(m, resource), LineAfterFilePath);
        StateLater(WithResource(m, resource), LineAfterFilePath);
      } else {
        FirstLineBlocks(m, InCodeBlock);
        FirstLineShape(m);
        StateLater(m, InCodeBlock);
        ContentBlocks(EmitFirstLine(m.(state := InCodeBlock)), line);
      }
    case LineAfterFilePath =>
      InsideBlocks(m);
      if !c.isBlank(line) {
        ContentBlocks(m.(state := InCodeBlock), line);
      }
    case _ =>
      ContentBlocks(m, line);
  }

  lemma {:induction false} ResourceBlocks(m: Machine, resource: Option<string>)
    requires Shape(m)
    ensures Shape(WithResource(m, resource)) && WithResource(m, resource).state == m.state
    ensures Blocks(WithResource(m, resource)) == Blocks(m)
  {
    hide Indices, Repeat, MatchFence;
  }

  lemma {:induction false} FirstLineShape(m: Machine)
    requires Shape(m) && m.state == LineAfterFence
    ensures Shape(EmitFirstLine(m.(state := InCodeBlock)))
  {
    hide MatchFence;
  }

  lemma {:induction false} InsideBlocks(m: Machine)
    requires Shape(m) && m.state == LineAfterFilePath
    ensures Shape(m.(state := InCodeBlock)) && Blocks(m.(state := InCodeBlock)) == Blocks(m)
  {
    hide Indices, MatchFence;
  }

  lemma {:induction false} DisagreeLater(c: Config, a: Machine, b: Machine, line: string)
    requires Shape(a) && Shape(b) && Disagree(a, b)
    ensures Disagree(ProcessLine(c, a, line), ProcessLine(c, b, line))
  {
    hide Blocks, Shape, ProcessLine;
    LineBlocks(c, a, line);
    LineBlocks(c, b, line);
    var a', b' := ProcessLine(c, a, line), ProcessLine(c, b, line);
    var p: nat :| p < |Blocks(a)| && p < |Blocks(b)| && Blocks(a)[p] != Blocks(b)[p];
    assert p < |Blocks(a')| && p < |Blocks(b')| && Blocks(a')[p] != Blocks(b')[p];
  }

  /** What follows is reported for the open block in one machine, and for no block or a later one in the
      other. */
  lemma {:induction false} StillOpenLater(c: Config, a: Machine, b: Machine, line: string)
    requires Shape(a) && Shape(b) && StillOpen(a, b) && line != ""
    ensures Disagree(ProcessLine(c, a, line), ProcessLine(c, b, line))
    ensures Disagree(ProcessLine(c, b, line), ProcessLine(c, a, line))
  {
    hide Blocks, ProcessLine, MatchFence;
    LineBlocks(c, a, line);
    LineBlocks(c, b, line);
    var a', b', p := ProcessLine(c, a, line), ProcessLine(c, b, line), |Blocks(a)|;
    assert Blocks(a')[p] == BlockOf(a, line) && Blocks(b')[p] == BlockOf(b, line);
  }

  lemma {:induction false} DeeperLater(c: Config, a: Machine, b: Machine, line: string)
    requires Shape(a) && Shape(b) && Deeper(a, b)
    ensures var a', b' := ProcessLine(c, a, line), ProcessLine(c, b, line); Deeper(a', b') || StillOpen(a', b')
  {
    hide Blocks, ProcessLine, Nests, MatchFence;
    LineBlocks(c, a, line);
    LineBlocks(c, b, line);
    LineInside(c, a, line);
    LineInside(c, b, line);
    NestsByOne(a.currentBlock.value.fence, line);
    ClosedIndex(c, b, line);
  }

  lemma {:induction false} NestsByOne(fence: string, line: string)
    ensures Nests(fence, line) >= -1
  {
  }

  lemma {:induction false} ClosedIndex(c: Config, m: Machine, line: string)
    requires Inside(m)
    ensures ProcessLine(c, m, line).index == m.index
  {
    hide MatchFence, Tag;
  }

  lemma {:induction false} ApartLater(c: Config, a: Machine, b: Machine, line: string)
    requires Shape(a) && Shape(b) && Apart(a, b) && line != ""
    ensures Apart(ProcessLine(c, a, line), ProcessLine(c, b, line))
  {
    hide Shape, ProcessLine, Disagree, Deeper, StillOpen;
    if Disagree(a, b) {
      DisagreeLater(c, a, b, line);
    } else if Deeper(a, b) {
      DeeperLater(c, a, b, line);
    } else if Deeper(b, a) {
      DeeperLater(c, b, a, line);
    } else if StillOpen(a, b) {
      StillOpenLater(c, a, b, line);
    } else {
      StillOpenLater(c, b, a, line);
    }
  }

  /** Whatever lines follow, the two machines never agree again. */
  lemma {:induction false} ApartForever(c: Config, a: Machine, b: Machine, lines: seq<string>)
    requires Invariant(a) && Invariant(b) && Apart(a, b) && forall i :: 0 <= i < |lines| ==> lines[i] != ""
    ensures Finished(ProcessLines(c, a, lines)) != Finished(ProcessLines(c, b, lines))
    decreases |lines|
  {
    hide Apart, Texts, ProcessLine, Finished, Shape;
    if lines == [] {
      ApartFinished(a, b);
    } else {
      LineKeepsInvariant(c, a, lines[0]);
      LineKeepsInvariant(c, b, lines[0]);
      ApartLater(c, a, b, lines[0]);
      ApartForever(c, ProcessLine(c, a, lines[0]), ProcessLine(c, b, lines[0]), lines[1..]);
    }
  }

  lemma {:induction false} FinishedBlocks(m: Machine)
    requires Shape(m) && m.state == LineAfterFence
    ensures Indices(Finished(m).emitted) == Blocks(m)
  {
    hide Tag, Repeat, Indices;
    IndicesTag(m.emitted, m.currentBlock.value.firstLine, CurrentInfo(m));
  }

  lemma {:induction false} ApartFinished(a: Machine, b: Machine)
    requires Shape(a) && Shape(b) && Apart(a, b)
    ensures Finished(a) != Finished(b)
  {
    hide Indices, MatchFence, Repeat;
    if a.state == LineAfterFence { FinishedBlocks(a); }
    if b.state == LineAfterFence { FinishedBlocks(b); }
    assert Indices(a.emitted) + [] == Indices(a.emitted) && Indices(b.emitted) + [] == Indices(b.emitted);
  }

  /** A fence that is not taken as text sets a machine apart from one that adds it as text. */
  lemma {:induction false} FenceSetsApart(c: Config, m: Machine, line: string)
    requires Shape(m) && InText(m) && !TakenAsText(m, line)
    ensures Apart(ProcessLine(c, m, line), Add(m, line))
  {
    FenceStart(line);
    hide MatchFence, Tag, Blocks;
    LineBlocks(c, m, line);
    AddBlocks(m, line);
    var a, b := ProcessLine(c, m, line), Add(m, line);
    if m.currentBlock.None? {
      var p := |Blocks(m)|;
      assert Blocks(a)[p] == m.index && Blocks(b)[p] == OUTSIDE;
      assert Disagree(a, b);
    } else if m.nestingLevel + Nests(m.currentBlock.value.fence, line) > m.nestingLevel {
      assert Deeper(a, b);
    } else if m.nestingLevel > 1 {
      assert Deeper(b, a);
    } else {
      assert StillOpen(b, a);
    }
  }

  // ---- What a call makes of its text ----

  lemma {:induction false} IncompleteAsLine(c: Config, m: Machine, rest: string)
    ensures Flush(c, ProcessIncomplete(m, rest)).machine == Finished(if rest == "" then m else ProcessLine(c, m, rest))
  {
    if rest != "" && !RequiresFullLine(m.state, rest) {
      FenceStart(rest);
      hide MatchFence, MightBeFence, Tag;
      OrdinaryLine(c, m, rest);
      AddKeepsState(m, rest);
    }
  }

  function WithRest(lines: seq<string>, rest: string): seq<string> {
    if rest == "" then lines else lines + [rest]
  }

  lemma {:induction false} RestAsLast(c: Config, m: Machine, lines: seq<string>, rest: string)
    ensures Flush(c, ProcessIncomplete(ProcessLines(c, m, lines), rest)).machine
         == Finished(ProcessLines(c, m, WithRest(lines, rest)))
  {
    hide ProcessIncomplete, Flush, Finished, ProcessLine;
    IncompleteAsLine(c, ProcessLines(c, m, lines), rest);
    if rest != "" {
      ProcessLinesPush(c, m, lines, rest);
    }
  }

  /** The first line of a chunk, or all of it if it completes no line. */
  function FirstLine(chunk: string): string { SplitLines(chunk)[0] }

  /** A call that does not add its first line to one reported in part reads it as a line. */
  lemma {:induction false} CallReadsLine(c: Config, s: Stream, full: seq<string>, rest: string)
    requires AreFullLines(full) && Unbroken(rest) && Unbroken(s.lastIncompleteLine)
    requires full != [] && !s.canEmitIncompleteLine
    ensures Flush(c, ProcessMarkdown(c, s, Concat(full) + rest)).machine
         == Finished(ProcessLines(c, ProcessLine(c, s.machine, s.lastIncompleteLine + full[0]),
             WithRest(full[1..], rest)))
  {
    hide ProcessIncomplete, Flush, Finished, ProcessLine, AreFullLines, ProcessMarkdown;
    FeedLines(c, s, full, rest);
    var fed := [s.lastIncompleteLine + full[0]] + full[1..];
    assert fed[1..] == full[1..];
    RestAsLast(c, ProcessLine(c, s.machine, s.lastIncompleteLine + full[0]), full[1..], rest);
  }

  // ---- Lines read behind a reported part ----

  /** The line the text ends in. */
  function LastLine(text: string): string {
    var split := SplitLines(text);
    split[|split| - 1]
  }

  /** If a part of the current line has been reported, and the call reads the chunk's first line together
      with the held rest as a line of its own, or goes on to hold them, then they are taken as text. */
  predicate ReadsAsText(s: Stream, before: string, chunk: string) {
    var behind := s.lastIncompleteLine != LastLine(before);
    chunk != "" && behind && (s.canEmitIncompleteLine ==> Unbroken(chunk)) ==>
      TakenAsText(s.machine, s.lastIncompleteLine + FirstLine(chunk))
  }

  predicate AlwaysReadsAsText(c: Config, s: Stream, before: string, chunks: seq<string>)
    decreases |chunks|
  {
    chunks != [] ==>
      && ReadsAsText(s, before, chunks[0])
      && AlwaysReadsAsText(c, ProcessMarkdown(c, s, chunks[0]), before + chunks[0], chunks[1..])
  }

  /** Flushed after these chunks, the stream leaves what one call on their text leaves. */
  predicate Agrees(c: Config, chunks: seq<string>) {
    Flush(c, ProcessChunks(c, START, chunks)).machine == Flush(c, ProcessMarkdown(c, START, Concat(chunks))).machine
  }

  /** It does so after the chunks `done`, and after each of the chunks that follow. */
  predicate AgreesFrom(c: Config, done: seq<string>, chunks: seq<string>)
    decreases |chunks|
  {
    Agrees(c, done) && (chunks != [] ==> AgreesFrom(c, done + [chunks[0]], chunks[1..]))
  }

  lemma {:induction false} LastLineSoFar(c: Config, s: Stream, lines: seq<string>, early: string)
    requires Stands(c, s, lines, early, "")
    ensures s.lastIncompleteLine != LastLine(TextSoFar(lines, early, s)) <==> early != ""
  {
    hide AreFullLines, SplitLines, MatchFence, IsBase;
    SplitFullLines(lines, early + s.lastIncompleteLine);
    assert early != "" ==> |early + s.lastIncompleteLine| > |s.lastIncompleteLine|;
    assert "" + s.lastIncompleteLine == s.lastIncompleteLine;
  }

  lemma {:induction false} FirstLineOf(full: seq<string>, rest: string)
    requires AreFullLines(full) && Unbroken(rest)
    ensures FirstLine(Concat(full) + rest) == if full == [] then rest else full[0]
    ensures Unbroken(Concat(full) + rest) <==> full == []
  {
    hide SplitLines, IsFullLine;
    SplitFullLines(full, rest);
    if full != [] {
      FullLineEnds(full[0]);
      var text := Concat(full) + rest;
      assert text[|full[0]| - 1] == full[0][|full[0]| - 1];
    } else {
      assert Concat(full) + rest == rest;
    }
  }

  /** Then the call keeps the meaning of the stream. */
  lemma {:induction false} ReadingKeeps(c: Config, s: Stream, lines: seq<string>, early: string, chunk: string)
    requires Stands(c, s, lines, early, "") && chunk != "" && ReadsAsText(s, TextSoFar(lines, early, s), chunk)
    ensures Stands(c, s, lines, early, chunk + "") && !HarmfulCut(s, chunk, "")
  {
    hide AreFullLines, SplitLines, MatchFence, IsBase, TextSoFar, FirstLine, LastLine;
    LastLineSoFar(c, s, lines, early);
    var full, rest := LinesOf(chunk);
    FirstLineOf(full, rest);
    var held := s.lastIncompleteLine;
    assert chunk + "" == chunk;
    if full == [] {
      assert Concat(full) + rest == rest;
      assert held == "" ==> held + chunk == chunk;
    } else {
      FirstOfFull(full);
      LongerEnds(held, full[0]);
      Assoc(full[0], Concat(full[1..]), rest);
      Assoc(held, full[0], Concat(full[1..]) + rest);
      FenceOfLine(held + full[0], Concat(full[1..]) + rest);
    }
  }

  lemma {:induction false} FirstOfFull(full: seq<string>)
    requires AreFullLines(full) && full != []
    ensures EndsWithLineDelimiter(full[0])
  {
  }

  lemma {:induction false} LongerEnds(part: string, line: string)
    requires EndsWithLineDelimiter(line)
    ensures EndsWithLineDelimiter(part + line)
  {
  }

  // ---- Otherwise it breaks with the reference, for good ----

  lemma {:induction false} LinesKeepInvariant(c: Config, m: Machine, lines: seq<string>)
    requires Invariant(m)
    ensures Invariant(ProcessLines(c, m, lines))
    decreases |lines|
  {
    hide Invariant, ProcessLine;
    if lines != [] {
      LineKeepsInvariant(c, m, lines[0]);
      LinesKeepInvariant(c, ProcessLine(c, m, lines[0]), lines[1..]);
    }
  }

  lemma {:induction false} StandsInvariant(c: Config, s: Stream, lines: seq<string>, early: string, after: string)
    requires Stands(c, s, lines, early, after)
    ensures Invariant(s.machine) && (early != "" ==> InText(s.machine))
  {
    hide Invariant, AreFullLines, ProcessLines, MatchFence, MightBeFence;
    InitialInvariant();
    LinesKeepInvariant(c, INITIAL, lines);
    var base := ProcessLines(c, INITIAL, lines);
    if early != "" {
      AddKeepsInvariant(base, early);
      AddKeepsState(base, early);
    }
  }

  /** The whole line is text, as the part reported was. */
  lemma {:induction false} ReferenceAfter(
      c: Config, s: Stream, lines: seq<string>, early: string, first: string, more: seq<string>)
    requires Stands(c, s, lines, early, "") && early != ""
    ensures ProcessLines(c, INITIAL, lines + ([early + s.lastIncompleteLine + first] + more))
         == ProcessLines(c, Add(s.machine, s.lastIncompleteLine + first), more)
  {
    hide AreFullLines, MatchFence, MightBeFence, Add, Tag, ProcessLine;
    var base, read := ProcessLines(c, INITIAL, lines), s.lastIncompleteLine + first;
    var line := early + s.lastIncompleteLine + first;
    ProcessLinesJoin(c, INITIAL, lines, [line] + more);
    assert ([line] + more)[1..] == more;
    Assoc(early, s.lastIncompleteLine, first);
    ReportedIsNoFence(early, read);
    OrdinaryLine(c, base, line);
    AddTwice(base, early, read);
  }

  lemma {:induction false} LinesOfFull(lines: seq<string>, rest: string)
    requires AreFullLines(lines) && Unbroken(rest)
    ensures LinesOfText(Concat(lines) + rest) == WithRest(lines, rest)
  {
    hide SplitLines, AreFullLines;
    SplitFullLines(lines, rest);
    assert (lines + [rest])[..|lines|] == lines;
  }

  lemma {:induction false} LinesBehind(
      c: Config, s: Stream, lines: seq<string>, early: string, full: seq<string>, rest: string)
    requires Stands(c, s, lines, early, "") && AreFullLines(full) && Unbroken(rest)
    requires !(EndsWithReturn(TextSoFar(lines, early, s)) && full != [] && StartsWithFeed(full[0]))
    requires full == [] ==> rest != ""
    ensures LinesOfText(TextSoFar(lines, early, s) + (Concat(full) + rest))
         == if full == [] then lines + ([early + s.lastIncompleteLine + rest] + [])
            else lines + ([early + s.lastIncompleteLine + full[0]] + WithRest(full[1..], rest))
  {
    hide IsFullLine, SplitLines, MatchFence, IsBase;
    var part := early + s.lastIncompleteLine;
    Assoc(Concat(lines) + part, Concat(full), rest);
    if full == [] {
      LinesOfFull(lines, part + rest);
      assert Concat(full) + rest == rest;
      Assoc(Concat(lines), part, rest);
      assert [part + rest] + [] == [part + rest];
    } else {
      CompletedLines(lines, part, full);
      LinesText(lines, part, full);
      LinesOfFull(Completed(lines, part + full[0], full[1..]), rest);
      if rest != "" {
        Assoc(lines, [part + full[0]] + full[1..], [rest]);
        Assoc([part + full[0]], full[1..], [rest]);
      }
    }
  }

  /** What the flush after the call leaves. */
  lemma {:induction false} FlushedAfter(c: Config, s: Stream, full: seq<string>, rest: string)
    requires AreFullLines(full) && Unbroken(rest) && Unbroken(s.lastIncompleteLine)
    requires if full == [] then rest != "" else !s.canEmitIncompleteLine
    ensures Flush(c, ProcessMarkdown(c, s, Concat(full) + rest)).machine
         == if full == [] then Finished(ProcessLine(c, s.machine, s.lastIncompleteLine + rest))
            else Finished(ProcessLines(c, ProcessLine(c, s.machine, s.lastIncompleteLine + full[0]),
                WithRest(full[1..], rest)))
  {
    hide ProcessIncomplete, Flush, Finished, ProcessLine, AreFullLines, ProcessMarkdown;
    if full == [] {
      assert Concat(full) + rest == rest;
      FeedPart(c, s, rest);
      IncompleteAsLine(c, s.machine, s.lastIncompleteLine + rest);
    } else {
      CallReadsLine(c, s, full, rest);
    }
  }

  lemma {:induction false} NoEmptyLines(full: seq<string>, rest: string)
    requires AreFullLines(full) && full != []
    ensures forall i :: 0 <= i < |WithRest(full[1..], rest)| ==> WithRest(full[1..], rest)[i] != ""
  {
  }

  /** Behind a reported part, a line that is not taken as text leaves the stream apart from the reference. */
  lemma {:induction false} ReadingBreaks(c: Config, s: Stream, lines: seq<string>, early: string, chunk: string)
    requires Stands(c, s, lines, early, "") && chunk != "" && !ReadsAsText(s, TextSoFar(lines, early, s), chunk)
    requires !(EndsWithReturn(TextSoFar(lines, early, s)) && StartsWithFeed(chunk))
    ensures Flush(c, ProcessMarkdown(c, s, chunk)).machine != Reference(c, TextSoFar(lines, early, s) + chunk)
  {
    hide AreFullLines, IsBase, TextSoFar, FirstLine, LastLine, ProcessMarkdown, Flush, Finished, Add, ProcessLine,
        TakenAsText;
    hide Shape, Texts, Apart, InText, LinesOfText, Unbroken;
    LastLineSoFar(c, s, lines, early);
    var full, rest := LinesOf(chunk);
    FirstLineOf(full, rest);
    var m, first := s.machine, if full == [] then rest else full[0];
    var read, more := s.lastIncompleteLine + first, if full == [] then [] else WithRest(full[1..], rest);
    StandsInvariant(c, s, lines, early, "");
    FenceSetsApart(c, m, read);
    TextKeepsInvariant(m, read);
    LineKeepsInvariant(c, m, read);
    if full != [] {
      NoEmptyLines(full, rest);
      StartOfFull(full, rest);
    } else {
      assert Concat(full) + rest == rest;
    }
    ApartForever(c, ProcessLine(c, m, read), Add(m, read), more);
    ReferenceAfter(c, s, lines, early, first, more);
    LinesBehind(c, s, lines, early, full, rest);
    FlushedAfter(c, s, full, rest);
  }

  lemma {:induction false} TextKeepsInvariant(m: Machine, text: string)
    requires Invariant(m) && InText(m)
    ensures Invariant(Add(m, text))
  {
    hide Invariant;
    AddKeepsInvariant(m, text);
  }

  // ---- The streams that agree throughout ----

  /** After the chunks `done`, the stream stands for their text. */
  ghost predicate Reached(c: Config, done: seq<string>, s: Stream, lines: seq<string>, early: string) {
    s == ProcessChunks(c, START, done) && Stands(c, s, lines, early, "") && TextSoFar(lines, early, s) == Concat(done)
  }

  lemma {:induction false} ReachedAgrees(c: Config, done: seq<string>, s: Stream, lines: seq<string>, early: string)
    requires Reached(c, done, s, lines, early)
    ensures Agrees(c, done)
  {
    hide Stands, TextSoFar, Flush, Reference, ProcessChunks, ProcessMarkdown;
    FlushIsReference(c, s, lines, early);
    BatchIsReference(c, Concat(done));
  }

  lemma {:induction false} ReachedNext(
      c: Config, done: seq<string>, s: Stream, lines: seq<string>, early: string, chunk: string)
    returns (lines': seq<string>, early': string)
    requires Reached(c, done, s, lines, early) && ReadsAsText(s, Concat(done), chunk)
    requires !(EndsWithReturn(Concat(done)) && StartsWithFeed(chunk))
    ensures Reached(c, done + [chunk], ProcessMarkdown(c, s, chunk), lines', early')
  {
    hide Stands, TextSoFar, ProcessMarkdown, ReadsAsText, ProcessChunks, Concat;
    ChunksPush(c, START, done, chunk);
    ConcatPush(done, chunk);
    if chunk == "" {
      NoText(c, s);
      assert Concat(done) + chunk == Concat(done);
      lines', early' := lines, early;
    } else {
      ReadingKeeps(c, s, lines, early, chunk);
      lines', early' := ChunkStands(c, s, lines, early, chunk, "");
    }
  }

  lemma {:induction false} NextDisagrees(
      c: Config, done: seq<string>, s: Stream, lines: seq<string>, early: string, chunk: string)
    requires Reached(c, done, s, lines, early) && !ReadsAsText(s, Concat(done), chunk)
    requires !(EndsWithReturn(Concat(done)) && StartsWithFeed(chunk))
    ensures !Agrees(c, done + [chunk])
  {
    hide Stands, TextSoFar, ProcessMarkdown, ProcessChunks, Concat, Flush, Reference, TakenAsText, FirstLine, LastLine,
        Unbroken;
    ChunksPush(c, START, done, chunk);
    ConcatPush(done, chunk);
    BatchIsReference(c, Concat(done) + chunk);
    ReadingBreaks(c, s, lines, early, chunk);
  }

  lemma {:induction false} AgreesFromExactly(
      c: Config, done: seq<string>, s: Stream, lines: seq<string>, early: string, chunks: seq<string>)
    requires Reached(c, done, s, lines, early) && KeepsLineEnds(Concat(done), chunks)
    ensures AgreesFrom(c, done, chunks) <==> AlwaysReadsAsText(c, s, Concat(done), chunks)
    decreases |chunks|
  {
    hide Reached, ProcessMarkdown, ReadsAsText, Concat, Agrees;
    ReachedAgrees(c, done, s, lines, early);
    if chunks != [] {
      var next := done + [chunks[0]];
      ConcatPush(done, chunks[0]);
      if ReadsAsText(s, Concat(done), chunks[0]) {
        var lines', early' := ReachedNext(c, done, s, lines, early, chunks[0]);
        AgreesFromExactly(c, next, ProcessMarkdown(c, s, chunks[0]), lines', early', chunks[1..]);
      } else {
        NextDisagrees(c, done, s, lines, early, chunks[0]);
        assert !AgreesFrom(c, next, chunks[1..]);
      }
    }
  }

  /** A stream whose cuts part no line end agrees after each of its chunks with one call on the text so far
      if and only if, at each of them, what is read behind a reported part is taken as text. */
  lemma {:induction false} AgreesThroughout(c: Config, chunks: seq<string>)
    requires KeepsLineEnds("", chunks)
    ensures AgreesFrom(c, [], chunks) <==> AlwaysReadsAsText(c, START, "", chunks)
  {
    hide Stands, TextSoFar;
    StartStands(c, "");
    AgreesFromExactly(c, [], START, [], "", chunks);
  }

  // ---- Cuts inside a line end ----

  /** The line opens a block, or closes the one that is open. */
  predicate OpensOrCloses(m: Machine, line: string) {
    match MatchFence(line)
    case None => false
    case Some(fence) =>
      m.currentBlock.None? || (fence == Fence(m.currentBlock.value.fence, "") && m.nestingLevel <= 1)
  }

  /** A cut between the carriage return and the line feed behind `line` matters when the line opens or closes
      a block, or is dropped as a path line or as the blank line behind one, with or without the line feed. */
  predicate LineEndMatters(c: Config, m: Machine, line: string) {
    || OpensOrCloses(m, line + "\r")
    || Dropped(c, m, Piece(line + "\r", true))
    || Dropped(c, m, Piece(line + "\r" + "\n", true))
  }

  function ReadApart(c: Config, m: Machine, line: string): Machine {
    ProcessLine(c, ProcessLine(c, m, line + "\r"), "\n")
  }

  function ReadTogether(c: Config, m: Machine, line: string): Machine {
    ProcessLine(c, m, line + "\r" + "\n")
  }

  lemma {:induction false} CutInText(c: Config, m: Machine, line: string)
    requires Shape(m) && InText(m)
    ensures ReadApart(c, m, line) == ReadTogether(c, m, line) <==> !OpensOrCloses(m, line + "\r")
    ensures Finished(ReadApart(c, m, line)) == Finished(ReadTogether(c, m, line)) <==> !OpensOrCloses(m, line + "\r")
  {
    var first, whole := line + "\r", line + "\r" + "\n";
    FenceOfLine(first, "\n");
    FenceStart("\n");
    hide MatchFence, Tag;
    AddTwice(m, first, "\n");
    if m.currentBlock.Some? {
      AddTwice(m.(nestingLevel := m.nestingLevel + 1), first, "\n");
      if m.nestingLevel > 1 { AddTwice(m.(nestingLevel := m.nestingLevel - 1), first, "\n"); }
    }
    if OpensOrCloses(m, first) {
      var two, one := ReadApart(c, m, line), ReadTogether(c, m, line);
      assert m.currentBlock.None? ==> one.state == LineAfterFence && two.state != LineAfterFence;
      assert m.currentBlock.Some? ==> one.markdownBeforeBlock == "" && two.markdownBeforeBlock == "" + "\n";
    }
  }

  /** The machine that reads a line which is not dropped. */
  function Ready(m: Machine): Machine {
    match m.state
    case LineAfterFence => EmitFirstLine(m.(state := InCodeBlock))
    case LineAfterFilePath => m.(state := InCodeBlock)
    case _ => m
  }

  lemma {:induction false} ReadyReads(c: Config, m: Machine, line: string)
    requires Shape(m)
    ensures Shape(Ready(m)) && InText(Ready(m)) && OpensOrCloses(Ready(m), line) == OpensOrCloses(m, line)
    ensures !Dropped(c, m, Piece(line, true)) ==> ProcessLine(c, m, line) == ProcessLine(c, Ready(m), line)
  {
    hide MatchFence, Tag, ProcessContent;
  }

  /** In an open block, a line that is not dropped is reported. */
  lemma {:induction false} ReadyReports(c: Config, m: Machine, line: string)
    requires Shape(m) && InText(m) && m.currentBlock.Some?
    ensures var after := ProcessLine(c, m, line); |after.emitted| == |m.emitted| + |line| && InText(after)
  {
    hide MatchFence;
  }

  lemma {:induction false} DroppedReports(c: Config, m: Machine, line: string)
    requires Shape(m) && Dropped(c, m, Piece(line, true))
    ensures var after := ProcessLine(c, m, line);
      && |after.emitted| == |Ready(m).emitted| && Shape(after)
      && after.state == if m.state == LineAfterFence then LineAfterFilePath else InCodeBlock
  {
    hide MatchFence;
  }

  lemma {:induction false} FeedReports(c: Config, m: Machine)
    requires Shape(m) && m.currentBlock.Some? && (InText(m) || m.state == LineAfterFilePath)
    ensures var after := ProcessLine(c, m, "\n");
      && InText(after) && |after.emitted| <= |m.emitted| + 1
      && (InText(m) ==> |after.emitted| == |m.emitted| + 1)
  {
    FenceStart("\n");
    hide MatchFence;
  }

  /** What has been read apart: if the line was dropped, at most the line feed is reported behind it. */
  lemma {:induction false} ApartReports(c: Config, m: Machine, line: string)
    requires Shape(m) && m.currentBlock.Some? && (m.state == LineAfterFence || m.state == LineAfterFilePath)
    ensures var two, n := ReadApart(c, m, line), |Ready(m).emitted|;
      && InText(two)
      && if !Dropped(c, m, Piece(line + "\r", true)) then |two.emitted| > n
         else |two.emitted| <= n + 1 && (m.state == LineAfterFilePath ==> |two.emitted| > n)
  {
    hide ProcessLine, Dropped, OpensOrCloses, MatchFence;
    var first := line + "\r";
    ReadyReads(c, m, first);
    if Dropped(c, m, Piece(first, true)) {
      DroppedReports(c, m, first);
      FeedReports(c, ProcessLine(c, m, first));
    } else {
      ReadyReports(c, Ready(m), first);
      FenceStart("\n");
      OrdinaryLine(c, ProcessLine(c, m, first), "\n");
    }
  }

  lemma {:induction false} CutOfDropped(c: Config, m: Machine, line: string)
    requires Shape(m)
    requires Dropped(c, m, Piece(line + "\r", true)) || Dropped(c, m, Piece(line + "\r" + "\n", true))
    ensures ReadApart(c, m, line) != ReadTogether(c, m, line)
    ensures Finished(ReadApart(c, m, line)) != Finished(ReadTogether(c, m, line))
  {
    var whole := line + "\r" + "\n";
    assert m.currentBlock.Some? && (m.state == LineAfterFence || m.state == LineAfterFilePath);
    hide ProcessLine, Dropped, OpensOrCloses, MatchFence, ReadApart, Ready;
    ApartReports(c, m, line);
    ReadyReads(c, m, whole);
    if Dropped(c, m, Piece(whole, true)) {
      DroppedReports(c, m, whole);
    } else {
      ReadyKeepsBlock(m);
      ReadyReports(c, Ready(m), whole);
    }
  }

  lemma {:induction false} ReadyKeepsBlock(m: Machine)
    ensures Ready(m).currentBlock == m.currentBlock
  {
  }

  /** A cut between a carriage return and its line feed makes two lines of one.  In every state that changes
      the result, before and after a flush, exactly when the cut matters. */
  lemma {:induction false} CutLineEnd(c: Config, m: Machine, line: string)
    requires Shape(m)
    ensures ReadApart(c, m, line) == ReadTogether(c, m, line) <==> !LineEndMatters(c, m, line)
    ensures Finished(ReadApart(c, m, line)) == Finished(ReadTogether(c, m, line)) <==> !LineEndMatters(c, m, line)
  {
    hide ProcessLine, Dropped, OpensOrCloses, Ready, Finished;
    var first, whole := line + "\r", line + "\r" + "\n";
    if Dropped(c, m, Piece(first, true)) || Dropped(c, m, Piece(whole, true)) {
      CutOfDropped(c, m, line);
    } else {
      ReadyReads(c, m, first);
      ReadyReads(c, m, whole);
      CutInText(c, Ready(m), line);
    }
  }

  // ---- Cuts inside a line end of a stream ----

  lemma {:induction false} LineWithEnd(line: string, end: string)
    requires Unbroken(line) && (end == "\r" || end == "\r" + "\n")
    ensures IsFullLine(line + end)
  {
    LongerLine(line, end);
  }

  lemma {:induction false} FlushNothingHeld(c: Config, s: Stream)
    requires s.lastIncompleteLine == ""
    ensures Flush(c, s).machine == Finished(s.machine)
  {
  }

  /** A cut in the line end, for one stream. */
  lemma {:induction false} TwoCalls(c: Config, s: Stream, line: string)
    requires Unbroken(line) && Shape(s.machine) && (s.canEmitIncompleteLine ==> InText(s.machine))
    ensures Flush(c, ProcessMarkdown(c, ProcessMarkdown(c, s, line + "\r"), "\n")).machine
        == Flush(c, ProcessMarkdown(c, s, line + "\r" + "\n")).machine
      <==> s.canEmitIncompleteLine || !LineEndMatters(c, s.machine, s.lastIncompleteLine + line)
  {
    hide ProcessLine, ProcessMarkdown, Finished, LineEndMatters, Add, MatchFence, Flush, IsFullLine, Shape;
    var held, first, whole := s.lastIncompleteLine, line + "\r", line + "\r" + "\n";
    Assoc(line, "\r", "\n");
    Assoc(held, line, "\r");
    Assoc(held, first, "\n");
    LineWithEnd(line, "\r");
    LineWithEnd(line, "\r" + "\n");
    LineFeedAlone();
    CallOnLine(c, s, first);
    var s1 := ProcessMarkdown(c, s, first);
    CallOnLine(c, s1, "\n");
    CallOnLine(c, s, whole);
    assert "" + "\n" == "\n";
    FlushNothingHeld(c, ProcessMarkdown(c, s1, "\n"));
    FlushNothingHeld(c, ProcessMarkdown(c, s, whole));
    if s.canEmitIncompleteLine {
      FenceStart("\n");
      AddKeepsState(s.machine, held + first);
      OrdinaryLine(c, s1.machine, "\n");
      AddTwice(s.machine, held + first, "\n");
    } else {
      CutLineEnd(c, s.machine, held + line);
    }
  }

  /** After any chunks, a cut between a carriage return and its line feed changes the result if and only if
      the line is not being reported in part already, and the cut matters to it. */
  lemma {:induction false} LineEndCutIsExact(c: Config, chunks: seq<string>, line: string)
    requires Unbroken(line)
    ensures var s := ProcessChunks(c, START, chunks);
      Flush(c, ProcessChunks(c, START, chunks + [line + "\r"] + ["\n"])).machine
        == Flush(c, ProcessChunks(c, START, chunks + [line + "\r" + "\n"])).machine
      <==> s.canEmitIncompleteLine || !LineEndMatters(c, s.machine, s.lastIncompleteLine + line)
  {
    hide ProcessMarkdown, Texts, AllFenced, OpenedByFullLine, LineEndMatters, Flush, ProcessChunks, Shape;
    StartInvariant();
    ChunksAreRun(c, START, chunks);
    ChunksPush(c, START, chunks, line + "\r");
    ChunksPush(c, START, chunks + [line + "\r"], "\n");
    ChunksPush(c, START, chunks, line + "\r" + "\n");
    TwoCalls(c, ProcessChunks(c, START, chunks), line);
  }

  /** Such a cut exists: inside the line end of an opening fence. */
  lemma {:induction false} CutBehindReturn(c: Config)
    ensures Flush(c, ProcessChunks(c, START, ["```\r", "\n"])).machine
         != Flush(c, ProcessMarkdown(c, START, "```\r\n")).machine
  {
    hide MatchFence, Flush, ProcessMarkdown;
    FenceStart("```\r");
    LineEndCutIsExact(c, [], "```");
    assert "```" + "\r" == "```\r" && "```\r" + "\n" == "```\r\n" && "" + "```" == "```";
    assert [] + ["```\r"] + ["\n"] == ["```\r", "\n"];
    assert [] + ["```\r\n"] == ["```\r\n"] && ["```\r\n"][1..] == [];
    assert ProcessChunks(c, START, ["```\r\n"]) == ProcessMarkdown(c, START, "```\r\n");
  }
}
