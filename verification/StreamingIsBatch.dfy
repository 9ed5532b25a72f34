/** Feeding a text in chunks and feeding it at once give the same result, if no chunk boundary parts a
    line end or makes the processor take the middle of a line for a fence. */
module StreamingIsBatch {
  import opened Wrappers

  import opened CodeBlocks
  import opened TextLines

  lemma {:induction false} ProcessLinesJoin(c: Config, m: Machine, a: seq<string>, b: seq<string>)
    ensures ProcessLines(c, m, a + b) == ProcessLines(c, ProcessLines(c, m, a), b)
    decreases |a|
  {
    if a == [] {
      assert a + b == b;
    } else {
      assert (a + b)[1..] == a[1..] + b;
      ProcessLinesJoin(c, ProcessLine(c, m, a[0]), a[1..], b);
    }
  }

  // ---- Fences and parts of lines ----

  lemma {:induction false} RunLengthAtLeast(line: string, c: char, n: nat)
    requires n <= |line| && forall i :: 0 <= i < n ==> line[i] == c
    ensures RunLength(line, c) >= n
    decreases n
  {
    if n > 0 {
      RunLengthAtLeast(line[1..], c, n - 1);
    }
  }

  /** A fence is a line that starts with three equal fence characters. */
  lemma {:induction false} FenceStart(line: string)
    ensures MatchFence(line).Some? <==> |line| >= 3 && MightBeFence(line)
  {
    if |line| >= 3 && MightBeFence(line) {
      RunLengthAtLeast(line, line[0], 3);
    }
  }

  /** A line part that was reported early cannot become the start of a fence. */
  lemma {:induction false} ReportedIsNoFence(part: string, rest: string)
    requires !MightBeFence(part)
    ensures MatchFence(part + rest).None? && !MightBeFence(part + rest)
  {
    FenceStart(part + rest);
  }

  lemma {:induction false} RunLengthEnds(line: string, more: string, c: char)
    requires EndsWithLineDelimiter(line) && IsFenceChar(c)
    ensures RunLength(line + more, c) == RunLength(line, c) < |line|
    decreases |line|
  {
    if line[0] == c {
      assert (line + more)[1..] == line[1..] + more;
      RunLengthEnds(line[1..], more, c);
    }
  }

  lemma {:induction false} WordPrefixEnds(line: string, more: string)
    requires EndsWithLineDelimiter(line)
    ensures WordPrefix(line + more) == WordPrefix(line)
    decreases |line|
  {
    if IsWordChar(line[0]) {
      assert (line + more)[1..] == line[1..] + more;
      WordPrefixEnds(line[1..], more);
    }
  }

  /** What follows a line does not matter to its fence. */
  lemma {:induction false} FenceOfLine(line: string, more: string)
    requires EndsWithLineDelimiter(line)
    ensures MatchFence(line + more) == MatchFence(line)
  {
    var all := line + more;
    if IsFenceChar(line[0]) {
      RunLengthEnds(line, more, line[0]);
      var n := RunLength(line, line[0]);
      assert all[..n] == line[..n] && all[n..] == line[n..] + more;
      WordPrefixEnds(line[n..], more);
    }
  }

  lemma {:induction false} AddTwice(m: Machine, a: string, b: string)
    ensures Add(Add(m, a), b) == Add(m, a + b)
  {
    var info := CurrentInfo(m);
    assert Tag(a, info) + Tag(b, info) == Tag(a + b, info);
    assert m.emitted + Tag(a, info) + Tag(b, info) == m.emitted + Tag(a + b, info);
    assert m.code + a + b == m.code + (a + b);
    assert m.markdownBeforeBlock + a + b == m.markdownBeforeBlock + (a + b);
  }

  lemma {:induction false} AddKeepsState(m: Machine, text: string)
    ensures Add(m, text).state == m.state && Add(m, text).nestingLevel == m.nestingLevel
    ensures Add(m, text).currentBlock == m.currentBlock
  {
  }

  lemma {:induction false} OrdinaryLine(c: Config, m: Machine, line: string)
    requires InText(m) && MatchFence(line).None?
    ensures ProcessLine(c, m, line) == Add(m, line)
  {
  }

  // ---- Cuts inside a line ----

  /** The rest of a line, read as a line of its own, counts as ordinary text: it is no fence, or a fence of
      another kind than the open block's. */
  predicate TakenAsText(m: Machine, rest: string) {
    match MatchFence(rest)
    case None => true
    case Some(fence) => m.currentBlock.Some? && fence.fence != m.currentBlock.value.fence
  }

  /** Reading the rest of a line as a line of its own is harmless exactly when it is taken as text. */
  lemma {:induction false} RestAsLine(c: Config, m: Machine, rest: string)
    requires InText(m)
    ensures ProcessLine(c, m, rest) == Add(m, rest) <==> TakenAsText(m, rest)
  {
  }

  /** Otherwise it opens or closes a block, or changes the nesting level. */
  lemma {:induction false} FenceMatters(c: Config, m: Machine, rest: string)
    requires InText(m) && !TakenAsText(m, rest)
    ensures var after := ProcessLine(c, m, rest);
      after.currentBlock.Some? != m.currentBlock.Some? || after.nestingLevel != m.nestingLevel
  {
  }

  /** Two rests that each matter can undo each other: one that opens a nested block, and one that closes
      it. */
  lemma {:induction false} FencesCanCancel(c: Config, m: Machine, opening: string, closing: string)
    requires m.state == InCodeBlock && m.currentBlock.Some? && m.nestingLevel >= 1
    requires MatchFence(opening).Some? && MatchFence(opening).value.fence == m.currentBlock.value.fence
    requires MatchFence(opening).value.language != ""
    requires MatchFence(closing) == Some(Fence(m.currentBlock.value.fence, ""))
    ensures !TakenAsText(m, opening) && !TakenAsText(m, closing)
    ensures ProcessLine(c, ProcessLine(c, m, opening), closing) == Add(Add(m, opening), closing)
  {
    hide MatchFence, Tag;
  }

  /** A cut before `chunk` does harm when the beginning of the line has been reported already, the chunk
      does not complete the line, and what follows the cut is not taken as text. */
  ghost predicate HarmfulCut(s: Stream, chunk: string, after: string) {
    s.canEmitIncompleteLine && chunk != "" && Unbroken(chunk) && !TakenAsText(s.machine, chunk + after)
  }

  ghost predicate NoHarmfulCuts(c: Config, s: Stream, chunks: seq<string>)
    decreases |chunks|
  {
    chunks != [] ==>
      && !HarmfulCut(s, chunks[0], Concat(chunks[1..]))
      && NoHarmfulCuts(c, ProcessMarkdown(c, s, chunks[0]), chunks[1..])
  }

  /** No cut falls between a carriage return and its line feed. */
  predicate KeepsLineEnds(before: string, chunks: seq<string>)
    decreases |chunks|
  {
    chunks != [] ==>
      && !(EndsWithReturn(before) && StartsWithFeed(chunks[0]))
      && KeepsLineEnds(before + chunks[0], chunks[1..])
  }

  // ---- What the stream stands for ----

  /** After the full lines `lines` and an unbroken part of the next line, with `after` still to come: the
      part's beginning `early` may have been reported already, the rest is held. */
  ghost predicate Stands(c: Config, s: Stream, lines: seq<string>, early: string, after: string) {
    && AreFullLines(lines) && Unbroken(early) && Unbroken(s.lastIncompleteLine)
    && s.canEmitIncompleteLine == (early != "" && s.lastIncompleteLine == "")
    && IsBase(ProcessLines(c, INITIAL, lines), s.machine, early)
    && (early != "" && s.lastIncompleteLine != "" ==> TakenAsText(s.machine, s.lastIncompleteLine + after))
  }

  /** The machine has read full lines up to `base`, and reported `early` beyond. */
  predicate IsBase(base: Machine, m: Machine, early: string) {
    if early == "" then m == base else m == Add(base, early) && InText(base) && !MightBeFence(early)
  }

  /** The text read so far. */
  function TextSoFar(lines: seq<string>, early: string, s: Stream): string {
    Concat(lines) + (early + s.lastIncompleteLine)
  }

  /** The held part ends a call. */
  lemma {:induction false} IncompleteStands(
      c: Config, m: Machine, lines: seq<string>, early: string, last: string, after: string)
    returns (early': string)
    requires AreFullLines(lines) && Unbroken(early) && Unbroken(last)
    requires IsBase(ProcessLines(c, INITIAL, lines), m, early)
    requires early != "" ==> last != "" && TakenAsText(m, last + after)
    ensures var s := ProcessIncomplete(m, last);
      early' + s.lastIncompleteLine == early + last && Stands(c, s, lines, early', after)
  {
    hide AreFullLines, ProcessLines, MatchFence, Tag;
    var base := ProcessLines(c, INITIAL, lines);
    var s := ProcessIncomplete(m, last);
    if last != "" && !RequiresFullLine(m.state, last) {
      if early == "" {
        assert "" + last == last;
      } else {
        AddTwice(base, early, last);
        ReportedIsNoFence(early, last);
      }
      early' := early + last;
      assert early' + "" == early';
    } else {
      early' := early;
    }
  }

  /** Completing the current line has the effect of processing that line as a whole. */
  lemma {:induction false} CompleteLine(
      c: Config, s: Stream, lines: seq<string>, early: string, end: string, more: seq<string>, after: string)
    requires Stands(c, s, lines, early, end + after) && EndsWithLineDelimiter(end)
    ensures ProcessComplete(c, s, [s.lastIncompleteLine + end] + more)
         == ProcessLines(c, INITIAL, lines + ([early + s.lastIncompleteLine + end] + more))
  {
    hide ProcessLine, MatchFence, Add, AreFullLines;
    var base, last := ProcessLines(c, INITIAL, lines), s.lastIncompleteLine;
    var line := early + last + end;
    ProcessLinesJoin(c, INITIAL, lines, [line] + more);
    assert ([line] + more)[1..] == more && ([last + end] + more)[1..] == more;
    if early == "" {
      assert line == last + end;
    } else {
      ReportedIsNoFence(early, last + end);
      assert early + (last + end) == line;
      OrdinaryLine(c, base, line);
      AddTwice(base, early, last + end);
      if last != "" {
        Assoc(last, end, after);
        FenceOfLine(last + end, after);
        AddKeepsState(base, early);
        RestAsLine(c, s.machine, last + end);
      } else {
        assert last + end == end;
      }
    }
  }

  /** What a call does with a chunk of full lines and a rest. */
  lemma {:induction false} FeedLines(c: Config, s: Stream, full: seq<string>, rest: string)
    requires full != [] && AreFullLines(full) && Unbroken(rest)
    ensures ProcessMarkdown(c, s, Concat(full) + rest)
         == ProcessIncomplete(ProcessComplete(c, s, [s.lastIncompleteLine + full[0]] + full[1..]), rest)
  {
    hide ProcessComplete, ProcessIncomplete, SplitLines;
    var last, more := s.lastIncompleteLine, full[1..];
    SplitFullLines(full, rest);
    var split := full + [rest];
    assert split[0] == full[0] && split[1..] == more + [rest];
    var fed := [last + split[0]] + split[1..];
    assert fed == [last + full[0]] + more + [rest];
    assert fed[..|fed| - 1] == [last + full[0]] + more;
  }

  /** What a call does with a chunk that completes no line. */
  lemma {:induction false} FeedPart(c: Config, s: Stream, chunk: string)
    requires chunk != "" && Unbroken(chunk) && Unbroken(s.lastIncompleteLine)
    ensures ProcessMarkdown(c, s, chunk) == ProcessIncomplete(s.machine, s.lastIncompleteLine + chunk)
  {
    assert Concat([]) + chunk == chunk && [] + [chunk] == [chunk];
    SplitFullLines([], chunk);
    assert [s.lastIncompleteLine + chunk][..0] == [];
  }

  /** A call within one line. */
  lemma {:induction false} PartStands(
      c: Config, s: Stream, lines: seq<string>, early: string, chunk: string, after: string)
    returns (early': string)
    requires Stands(c, s, lines, early, chunk + after)
    requires chunk != "" && Unbroken(chunk) && !HarmfulCut(s, chunk, after)
    ensures var s' := ProcessMarkdown(c, s, chunk);
      early' + s'.lastIncompleteLine == early + s.lastIncompleteLine + chunk && Stands(c, s', lines, early', after)
  {
    var last := s.lastIncompleteLine;
    FeedPart(c, s, chunk);
    hide MatchFence, SplitLines, ProcessIncomplete, AreFullLines;
    Assoc(last, chunk, after);
    if last == "" {
      assert last + chunk == chunk;
    }
    early' := IncompleteStands(c, s.machine, lines, early, last + chunk, after);
    Assoc(early, last, chunk);
  }

  /** The lines complete after a call that completes the current line. */
  function Completed(lines: seq<string>, line: string, more: seq<string>): seq<string> {
    lines + ([line] + more)
  }

  lemma {:induction false} FeedCompletes(
      c: Config, s: Stream, lines: seq<string>, early: string, full: seq<string>, rest: string, after: string)
    requires full != [] && AreFullLines(full) && Unbroken(rest)
    requires Stands(c, s, lines, early, Concat(full) + rest + after)
    ensures var completed := Completed(lines, early + s.lastIncompleteLine + full[0], full[1..]);
      ProcessMarkdown(c, s, Concat(full) + rest) == ProcessIncomplete(ProcessLines(c, INITIAL, completed), rest)
  {
    FullLineEnds(full[0]);
    hide ProcessIncomplete, ProcessLines, SplitLines, ProcessComplete, Add, ProcessMarkdown, MatchFence, Stands,
        AreFullLines;
    var more := full[1..];
    Assoc(full[0], Concat(more), rest);
    Assoc(full[0], Concat(more) + rest, after);
    CompleteLine(c, s, lines, early, full[0], more, Concat(more) + rest + after);
    FeedLines(c, s, full, rest);
  }

  lemma {:induction false} FullLineEnds(line: string)
    requires IsFullLine(line)
    ensures EndsWithLineDelimiter(line)
  {
  }

  lemma {:induction false} CompletedLines(lines: seq<string>, part: string, full: seq<string>)
    requires full != [] && AreFullLines(full) && AreFullLines(lines) && Unbroken(part)
    requires !(EndsWithReturn(Concat(lines) + part) && StartsWithFeed(full[0]))
    ensures AreFullLines(Completed(lines, part + full[0], full[1..]))
  {
    hide IsFullLine, Concat;
    var line, more := part + full[0], full[1..];
    LongerLine(part, full[0]);
    EndOfConcat(lines);
    if part == "" {
      assert Concat(lines) + part == Concat(lines);
    }
    var all := Completed(lines, line, more);
    forall i | 0 <= i < |all|
      ensures all[i] == if i < |lines| then lines[i] else if i == |lines| then line else full[i - |lines|]
    {
    }
  }

  /** A call that completes the current line. */
  lemma {:induction false} LinesStand(
      c: Config, s: Stream, lines: seq<string>, early: string, full: seq<string>, rest: string, after: string)
    returns (lines': seq<string>, early': string)
    requires full != [] && AreFullLines(full) && Unbroken(rest)
    requires Stands(c, s, lines, early, Concat(full) + rest + after)
    requires !(EndsWithReturn(TextSoFar(lines, early, s)) && StartsWithFeed(full[0]))
    ensures var s' := ProcessMarkdown(c, s, Concat(full) + rest);
      && Concat(lines') == TextSoFar(lines, early, s) + Concat(full)
      && early' + s'.lastIncompleteLine == rest && Stands(c, s', lines', early', after)
  {
    FeedCompletes(c, s, lines, early, full, rest, after);
    CompletedLines(lines, early + s.lastIncompleteLine, full);
    hide Stands, ProcessIncomplete, ProcessMarkdown, MatchFence, AreFullLines;
    LinesText(lines, early + s.lastIncompleteLine, full);
    lines' := Completed(lines, early + s.lastIncompleteLine + full[0], full[1..]);
    early' := IncompleteStands(c, ProcessLines(c, INITIAL, lines'), lines', "", rest, after);
    assert "" + rest == rest;
  }

  lemma {:induction false} LinesText(lines: seq<string>, part: string, full: seq<string>)
    requires full != []
    ensures Concat(Completed(lines, part + full[0], full[1..])) == Concat(lines) + part + Concat(full)
  {
    var line, more := part + full[0], full[1..];
    ConcatJoin(lines, [line] + more);
    assert ([line] + more)[1..] == more;
    Assoc(part, full[0], Concat(more));
    Assoc(Concat(lines), part, Concat(full));
  }

  /** One call keeps the meaning of the stream. */
  lemma {:induction false} ChunkStands(
      c: Config, s: Stream, lines: seq<string>, early: string, chunk: string, after: string)
    returns (lines': seq<string>, early': string)
    requires Stands(c, s, lines, early, chunk + after)
    requires chunk != "" && !HarmfulCut(s, chunk, after)
    requires !(EndsWithReturn(TextSoFar(lines, early, s)) && StartsWithFeed(chunk))
    ensures var s' := ProcessMarkdown(c, s, chunk);
      Stands(c, s', lines', early', after) && TextSoFar(lines', early', s') == TextSoFar(lines, early, s) + chunk
  {
    hide ProcessMarkdown, Stands, HarmfulCut, AreFullLines;
    var full, rest := LinesOf(chunk);
    var s', before := ProcessMarkdown(c, s, chunk), TextSoFar(lines, early, s);
    if full == [] {
      assert chunk == rest;
      lines' := lines;
      early' := PartStands(c, s, lines, early, chunk, after);
      Assoc(Concat(lines), early + s.lastIncompleteLine, chunk);
    } else {
      StartOfFull(full, rest);
      lines', early' := LinesStand(c, s, lines, early, full, rest, after);
      Assoc(before, Concat(full), rest);
    }
  }

  lemma {:induction false} StartOfFull(full: seq<string>, rest: string)
    requires AreFullLines(full) && full != [] && Unbroken(rest)
    ensures StartsWithFeed(Concat(full) + rest) <==> StartsWithFeed(full[0])
  {
    StartOfConcat(full, rest);
  }

  /** All calls together keep the meaning of the stream. */
  lemma {:induction false} ChunksStand(
      c: Config, s: Stream, lines: seq<string>, early: string, chunks: seq<string>)
    returns (lines': seq<string>, early': string)
    requires Stands(c, s, lines, early, Concat(chunks))
    requires KeepsLineEnds(TextSoFar(lines, early, s), chunks) && NoHarmfulCuts(c, s, chunks)
    ensures var s' := ProcessChunks(c, s, chunks);
      && Stands(c, s', lines', early', "")
      && TextSoFar(lines', early', s') == TextSoFar(lines, early, s) + Concat(chunks)
    decreases |chunks|
  {
    hide Stands, HarmfulCut, TextSoFar, ProcessMarkdown;
    var before := TextSoFar(lines, early, s);
    if chunks == [] {
      lines', early' := lines, early;
      assert before + "" == before;
    } else {
      var chunk, after := chunks[0], Concat(chunks[1..]);
      Assoc(before, chunk, after);
      if chunk == "" {
        NoText(c, s);
        assert before + chunk == before && chunk + after == after;
        lines', early' := ChunksStand(c, s, lines, early, chunks[1..]);
      } else {
        var lines1, early1 := ChunkStands(c, s, lines, early, chunk, after);
        lines', early' := ChunksStand(c, ProcessMarkdown(c, s, chunk), lines1, early1, chunks[1..]);
      }
    }
  }

  lemma {:induction false} ChunksPush(c: Config, s: Stream, done: seq<string>, chunk: string)
    ensures ProcessChunks(c, s, done + [chunk]) == ProcessMarkdown(c, ProcessChunks(c, s, done), chunk)
    decreases |done|
  {
    hide ProcessMarkdown;
    if done == [] {
      assert done + [chunk] == [chunk] && [chunk][1..] == [];
      assert ProcessChunks(c, ProcessMarkdown(c, s, chunk), []) == ProcessMarkdown(c, s, chunk);
    } else {
      assert (done + [chunk])[1..] == done[1..] + [chunk];
      ChunksPush(c, ProcessMarkdown(c, s, done[0]), done[1..], chunk);
    }
  }

  lemma {:induction false} NoText(c: Config, s: Stream)
    ensures ProcessMarkdown(c, s, "") == s
  {
  }

  // ---- The reference ----

  /** The lines of a text, without the empty one behind a last line end. */
  function LinesOfText(text: string): seq<string> {
    var split := SplitLines(text);
    if split[|split| - 1] == "" then split[..|split| - 1] else split
  }

  /** The opening fence is reported too, if nothing followed it. */
  function Finished(m: Machine): Machine {
    if m.state == LineAfterFence then EmitFirstLine(m) else m
  }

  /** The whole text, line by line. */
  function Reference(c: Config, text: string): Machine {
    Finished(ProcessLines(c, INITIAL, LinesOfText(text)))
  }

  lemma {:induction false} FlushIsReference(c: Config, s: Stream, lines: seq<string>, early: string)
    requires Stands(c, s, lines, early, "")
    ensures Flush(c, s).machine == Reference(c, TextSoFar(lines, early, s))
  {
    hide MatchFence, Add, SplitLines, MightBeFence, AreFullLines;
    var base, last := ProcessLines(c, INITIAL, lines), s.lastIncompleteLine;
    var rest := early + last;
    SplitFullLines(lines, rest);
    assert (lines + [rest])[..|lines|] == lines;
    if rest != "" {
      ProcessLinesPush(c, INITIAL, lines, rest);
      if early == "" {
        assert rest == last;
      } else {
        ReportedIsNoFence(early, last);
        OrdinaryLine(c, base, rest);
        if last == "" {
          assert rest == early;
        } else {
          assert last + "" == last;
          AddKeepsState(base, early);
          RestAsLine(c, s.machine, last);
          AddTwice(base, early, last);
        }
      }
    }
  }

  lemma {:induction false} StartStands(c: Config, after: string)
    ensures Stands(c, START, [], "", after) && TextSoFar([], "", START) == ""
  {
  }

  /** However a text is cut, if no cut parts a line end or does harm, the final flush leaves what reading it
      line by line leaves: the same reports, character by character and block by block, the same code
      blocks and the same state. */
  lemma {:induction false} StreamingIsReference(c: Config, chunks: seq<string>)
    requires KeepsLineEnds("", chunks) && NoHarmfulCuts(c, START, chunks)
    ensures Flush(c, ProcessChunks(c, START, chunks)).machine == Reference(c, Concat(chunks))
  {
    hide Stands, TextSoFar, Reference;
    StartStands(c, Concat(chunks));
    var lines, early := ChunksStand(c, START, [], "", chunks);
    assert "" + Concat(chunks) == Concat(chunks);
    FlushIsReference(c, ProcessChunks(c, START, chunks), lines, early);
  }

  /** A call on a whole text has no cuts. */
  lemma {:induction false} BatchIsReference(c: Config, text: string)
    ensures Flush(c, ProcessMarkdown(c, START, text)).machine == Reference(c, text)
  {
    assert [text][1..] == [] && Concat([text]) == text;
    assert ProcessChunks(c, START, [text]) == ProcessMarkdown(c, START, text);
    StreamingIsReference(c, [text]);
  }

  /** Streaming equals batch. */
  lemma {:induction false} StreamingIsBatch(c: Config, chunks: seq<string>)
    requires KeepsLineEnds("", chunks) && NoHarmfulCuts(c, START, chunks)
    ensures Flush(c, ProcessChunks(c, START, chunks)).machine
         == Flush(c, ProcessMarkdown(c, START, Concat(chunks))).machine
  {
    hide Flush;
    StreamingIsReference(c, chunks);
    BatchIsReference(c, Concat(chunks));
  }

  // ---- Cuts that can be told from the text alone ----

  /** The cut is at the start of a line, or the next chunk completes the line, or no fence follows. */
  predicate SafeCut(before: string, chunk: string, after: string) {
    || before == "" || EndsWithLineDelimiter(before)
    || chunk == "" || !Unbroken(chunk)
    || MatchFence(chunk + after).None?
  }

  ghost predicate SafeCuts(before: string, chunks: seq<string>)
    decreases |chunks|
  {
    chunks != [] ==>
      SafeCut(before, chunks[0], Concat(chunks[1..])) && SafeCuts(before + chunks[0], chunks[1..])
  }

  lemma {:induction false} SafeCutDoesNoHarm(
      c: Config, s: Stream, lines: seq<string>, early: string, chunk: string, after: string)
    requires Stands(c, s, lines, early, chunk + after) && SafeCut(TextSoFar(lines, early, s), chunk, after)
    ensures !HarmfulCut(s, chunk, after)
  {
    hide AreFullLines, MatchFence, ProcessLines;
    if s.canEmitIncompleteLine {
      var before := TextSoFar(lines, early, s);
      assert early + s.lastIncompleteLine == early;
      assert before[|before| - 1] == early[|early| - 1];
    }
  }

  /** Safe cuts do no harm, whatever the state of the stream is. */
  lemma {:induction false} SafeCutsDoNoHarm(
      c: Config, s: Stream, lines: seq<string>, early: string, chunks: seq<string>)
    requires Stands(c, s, lines, early, Concat(chunks))
    requires KeepsLineEnds(TextSoFar(lines, early, s), chunks) && SafeCuts(TextSoFar(lines, early, s), chunks)
    ensures NoHarmfulCuts(c, s, chunks)
    decreases |chunks|
  {
    hide Stands, HarmfulCut, TextSoFar, ProcessMarkdown, SafeCut;
    if chunks != [] {
      var before, chunk, after := TextSoFar(lines, early, s), chunks[0], Concat(chunks[1..]);
      SafeCutDoesNoHarm(c, s, lines, early, chunk, after);
      if chunk == "" {
        NoText(c, s);
        assert before + chunk == before && chunk + after == after;
        SafeCutsDoNoHarm(c, s, lines, early, chunks[1..]);
      } else {
        var lines1, early1 := ChunkStands(c, s, lines, early, chunk, after);
        SafeCutsDoNoHarm(c, ProcessMarkdown(c, s, chunk), lines1, early1, chunks[1..]);
      }
    }
  }

  lemma {:induction false} SafeStreamingIsBatch(c: Config, chunks: seq<string>)
    requires KeepsLineEnds("", chunks) && SafeCuts("", chunks)
    ensures Flush(c, ProcessChunks(c, START, chunks)).machine
         == Flush(c, ProcessMarkdown(c, START, Concat(chunks))).machine
  {
    hide Stands, TextSoFar, Flush;
    StartStands(c, Concat(chunks));
    SafeCutsDoNoHarm(c, START, [], "", chunks);
    StreamingIsBatch(c, chunks);
  }

  // ---- One cut inside a line: harmless exactly when it is not harmful ----

  lemma {:induction false} FlushKeepsBlock(c: Config, s: Stream)
    requires s.lastIncompleteLine == ""
    ensures Flush(c, s).machine.currentBlock == s.machine.currentBlock
    ensures Flush(c, s).machine.nestingLevel == s.machine.nestingLevel
  {
  }

  lemma {:induction false} ThreeChunks(c: Config, s: Stream, x: string, y: string, z: string)
    ensures ProcessChunks(c, s, [x, y, z]) == ProcessMarkdown(c, ProcessMarkdown(c, ProcessMarkdown(c, s, x), y), z)
    ensures Concat([x, y, z]) == x + y + z && Concat([y, z]) == y + z && Concat([z]) == z
  {
    assert [x, y, z][1..] == [y, z] && [y, z][1..] == [z] && [z][1..] == [];
    var s2 := ProcessMarkdown(c, ProcessMarkdown(c, s, x), y);
    assert ProcessChunks(c, s2, [z]) == ProcessMarkdown(c, s2, z);
    assert z + "" == z;
    assert Concat([z]) == z + Concat([]) == z;
    assert Concat([y, z]) == y + Concat([z]);
    assert Concat([x, y, z]) == x + Concat([y, z]);
    Assoc(x, y, z);
  }

  /** A call on one full line. */
  lemma {:induction false} CallOnLine(c: Config, s: Stream, line: string)
    requires IsFullLine(line)
    ensures ProcessMarkdown(c, s, line)
         == Stream(if s.canEmitIncompleteLine then Add(s.machine, s.lastIncompleteLine + line)
                   else ProcessLine(c, s.machine, s.lastIncompleteLine + line), "", false)
  {
    hide ProcessLine, Add, IsFullLine;
    assert [line][1..] == [] && Concat([line]) + "" == line;
    FeedLines(c, s, [line], "");
    var fed := [s.lastIncompleteLine + line] + [];
    assert fed == [s.lastIncompleteLine + line] && fed[1..] == [];
    assert ProcessLines(c, s.machine, fed) == ProcessLine(c, s.machine, s.lastIncompleteLine + line);
  }

  /** The two chunks around a cut inside a line, and the end of that line. */
  function CutOnce(before: string, rest: string): seq<string> { [before, rest, "\n"] }

  lemma {:induction false} OneCutKeepsLineEnds(before: string, rest: string)
    requires rest != "" && Unbroken(rest)
    ensures KeepsLineEnds("", CutOnce(before, rest))
  {
    var chunks := CutOnce(before, rest);
    assert chunks[1..] == [rest, "\n"] && chunks[1..][1..] == ["\n"] && chunks[1..][1..][1..] == [];
    var text := "" + before + rest;
    assert text[|text| - 1] == rest[|rest| - 1];
    assert KeepsLineEnds(text + "\n", []);
    assert KeepsLineEnds(text, ["\n"]);
    assert KeepsLineEnds("" + before, [rest, "\n"]);
  }

  lemma {:induction false} OneCutHarms(c: Config, before: string, rest: string)
    requires rest != "" && Unbroken(rest)
    ensures NoHarmfulCuts(c, START, CutOnce(before, rest))
        <==> !HarmfulCut(ProcessMarkdown(c, START, before), rest, "\n")
  {
    hide ProcessMarkdown, TakenAsText;
    var chunks := CutOnce(before, rest);
    ThreeChunks(c, START, before, rest, "\n");
    assert chunks[1..] == [rest, "\n"] && chunks[1..][1..] == ["\n"] && chunks[1..][1..][1..] == [];
    var s1 := ProcessMarkdown(c, START, before);
    var s2 := ProcessMarkdown(c, s1, rest);
    assert !HarmfulCut(s2, "\n", "") by { assert IsLineDelimiter("\n"[0]); }
    assert NoHarmfulCuts(c, s2, ["\n"]) <==> NoHarmfulCuts(c, ProcessMarkdown(c, s2, "\n"), []);
  }

  /** The stream holds a rest that looks like a fence, and then reads it as a line. */
  lemma {:induction false} HarmfulRest(c: Config, s1: Stream, rest: string)
    requires s1.lastIncompleteLine == "" && InText(s1.machine) && Unbroken(rest) && MatchFence(rest + "\n").Some?
    ensures var s2 := ProcessMarkdown(c, s1, rest);
      ProcessMarkdown(c, s2, "\n") == Stream(ProcessLine(c, s1.machine, rest + "\n"), "", false)
  {
    FenceStart(rest + "\n");
    hide MatchFence, ProcessMarkdown, ProcessLine;
    FeedPart(c, s1, rest);
    assert "" + rest == rest;
    CallOnLine(c, Stream(s1.machine, rest, false), "\n");
  }

  lemma {:induction false} OneFullLine(rest: string)
    requires Unbroken(rest)
    ensures AreFullLines([rest + "\n"])
  {
    hide IsFullLine;
    LineFeedAlone();
    LongerLine(rest, "\n");
  }

  /** What the whole text gives instead: the rest is text. */
  lemma {:induction false} WholeLineIsText(c: Config, s: Stream, lines: seq<string>,
          early: string, rest: string, after: string)
    requires Stands(c, s, lines, early, after) && early != "" && s.lastIncompleteLine == "" && Unbroken(rest)
    ensures Reference(c, TextSoFar(lines, early, s) + rest + "\n") == Add(s.machine, rest + "\n")
  {
    hide MatchFence, Add, SplitLines, AreFullLines, Concat;
    var base, line := ProcessLines(c, INITIAL, lines), early + (rest + "\n");
    OneFullLine(rest);
    CompletedLines(lines, early, [rest + "\n"]);
    assert [rest + "\n"][1..] == [] && [line] + [] == [line];
    var all := lines + [line];
    assert Completed(lines, line, []) == all;
    ConcatPush(lines, line);
    SplitFullLines(all, "");
    assert (all + [""])[..|all|] == all;
    assert Concat(all) + "" == TextSoFar(lines, early, s) + rest + "\n" by {
      assert early + s.lastIncompleteLine == early;
      Assoc(Concat(lines) + early, rest, "\n");
      Assoc(Concat(lines), early, rest + "\n");
    }
    ProcessLinesPush(c, INITIAL, lines, line);
    ReportedIsNoFence(early, rest + "\n");
    OrdinaryLine(c, base, line);
    AddTwice(base, early, rest + "\n");
    AddKeepsState(base, line);
  }

  /** After any lines and any part of the current one: cutting the rest of the line off changes the result if
      and only if the cut is harmful, that is, if the part has been reported and the rest is a fence that
      opens a block or is of the open block's kind. */
  lemma {:induction false} OneCutIsExact(c: Config, before: string, rest: string)
    requires rest != "" && Unbroken(rest)
    ensures Flush(c, ProcessChunks(c, START, CutOnce(before, rest))).machine
         == Flush(c, ProcessMarkdown(c, START, before + rest + "\n")).machine
       <==> !HarmfulCut(ProcessMarkdown(c, START, before), rest, "\n")
  {
    hide ProcessMarkdown, Stands, TextSoFar, Flush, Reference, TakenAsText, ProcessLine;
    var chunks, s1 := CutOnce(before, rest), ProcessMarkdown(c, START, before);
    OneCutKeepsLineEnds(before, rest);
    OneCutHarms(c, before, rest);
    ThreeChunks(c, START, before, rest, "\n");
    BatchIsReference(c, before + rest + "\n");
    if HarmfulCut(s1, rest, "\n") {
      HarmfulDiffers(c, before, rest);
    } else {
      StreamingIsBatch(c, chunks);
    }
  }

  lemma {:induction false} HarmfulDiffers(c: Config, before: string, rest: string)
    requires rest != "" && Unbroken(rest) && HarmfulCut(ProcessMarkdown(c, START, before), rest, "\n")
    ensures Flush(c, ProcessChunks(c, START, CutOnce(before, rest))).machine != Reference(c, before + rest + "\n")
  {
    hide ProcessMarkdown, Stands, TextSoFar, Flush, Reference, MatchFence, ProcessLine, ProcessChunks, Add;
    var s1, after := ProcessMarkdown(c, START, before), rest + "\n";
    var lines, early := BeforeCut(c, before, after);
    HarmfulRest(c, s1, rest);
    ThreeChunks(c, START, before, rest, "\n");
    WholeLineIsText(c, s1, lines, early, rest, after);
    FenceMatters(c, s1.machine, after);
    AddKeepsState(s1.machine, after);
    FlushKeepsBlock(c, Stream(ProcessLine(c, s1.machine, after), "", false));
  }

  lemma {:induction false} BeforeCut(c: Config, before: string, after: string)
    returns (lines: seq<string>, early: string)
    requires ProcessMarkdown(c, START, before).canEmitIncompleteLine
    ensures var s := ProcessMarkdown(c, START, before);
      && Stands(c, s, lines, early, after) && TextSoFar(lines, early, s) == before
      && early != "" && s.lastIncompleteLine == "" && InText(s.machine)
  {
    StartStands(c, before + after);
    NoText(c, START);
    lines, early := ChunkStands(c, START, [], "", before, after);
    assert "" + before == before;
    AddKeepsState(ProcessLines(c, INITIAL, lines), early);
  }

  /** Such a cut exists: behind the first letter of a line, before three backticks. */
  lemma {:induction false} CutBeforeBackticks(c: Config)
    ensures HarmfulCut(ProcessMarkdown(c, START, "x"), "```", "\n")
    ensures Flush(c, ProcessChunks(c, START, CutOnce("x", "```"))).machine
         != Flush(c, ProcessMarkdown(c, START, "x```\n")).machine
  {
    FenceStart("```\n");
    hide MatchFence, Flush, ProcessChunks, ProcessMarkdown, Tag;
    FeedPart(c, START, "x");
    assert "" + "x" == "x" && "```" + "\n" == "```\n" && "x" + "```" + "\n" == "x```\n";
    OneCutIsExact(c, "x", "```");
  }
}
