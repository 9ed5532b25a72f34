/** Agreement at the end of a stream alone cannot be told cut by cut: two cuts that each do harm can cancel. */
module CancellingCuts {
  import opened Wrappers

  import opened CodeBlocks
  import opened StreamingIsBatch
  import opened TextLines

  /** Two lines, of which each is cut behind a part that has been reported. */
  function CutTwice(before: string, opening: string, part: string, closing: string): seq<string> {
    [before, opening, "\n", part, closing, "\n"]
  }

  /** The same text, with cuts that do no harm. */
  function CutHarmlessly(before: string, opening: string, part: string, closing: string): seq<string> {
    [before, opening + "\n", part, closing + "\n"]
  }

  /** The stream stands inside a block, behind a part of a line, and what follows opens a nested block and
      closes it again. */
  ghost predicate Cancelling(s: Stream, opening: string, part: string, closing: string) {
    && s.canEmitIncompleteLine && s.lastIncompleteLine == "" && s.machine.state == InCodeBlock
    && s.machine.currentBlock.Some? && s.machine.nestingLevel >= 1
    && Unbroken(opening) && Unbroken(part) && Unbroken(closing)
    && MatchFence(opening + "\n").Some? && MatchFence(opening + "\n").value.language != ""
    && MatchFence(opening + "\n").value.fence == s.machine.currentBlock.value.fence
    && part != "" && !MightBeFence(part)
    && MatchFence(closing + "\n") == Some(Fence(s.machine.currentBlock.value.fence, ""))
  }

  lemma {:induction false} NestingAside(m: Machine, opening: string, part: string, closing: string)
    ensures var deeper := Add(Add(m.(nestingLevel := m.nestingLevel + 1), opening), part);
      Add(deeper.(nestingLevel := m.nestingLevel), closing)
         == Add(Add(Add(m, opening), part), closing)
  {
  }

  lemma {:induction false} PartIsReported(c: Config, s: Stream, part: string)
    requires s.lastIncompleteLine == "" && InText(s.machine) && Unbroken(part) && part != "" && !MightBeFence(part)
    ensures ProcessMarkdown(c, s, part) == Stream(Add(s.machine, part), "", true)
  {
    FeedPart(c, s, part);
    assert "" + part == part;
  }

  /** The first cut opens a nested block, the second closes it. */
  lemma {:induction false} CancellingCalls(c: Config, s: Stream, opening: string, part: string, closing: string)
    requires Cancelling(s, opening, part, closing)
    ensures var s2 := ProcessMarkdown(c, ProcessMarkdown(c, ProcessMarkdown(c, s, opening), "\n"), part);
      && HarmfulCut(s, opening, "\n" + part + closing + "\n") && HarmfulCut(s2, closing, "\n")
      && ProcessMarkdown(c, ProcessMarkdown(c, s2, closing), "\n")
         == Stream(Add(Add(Add(s.machine, opening + "\n"), part), closing + "\n"), "", false)
  {
    FenceStart(opening + "\n");
    FenceStart(closing + "\n");
    hide MatchFence, ProcessMarkdown, MightBeFence, Tag;
    var m := s.machine;
    assert opening + ("\n" + part + closing + "\n") == opening + "\n" + (part + closing + "\n");
    FenceOfLine(opening + "\n", part + closing + "\n");
    HarmfulRest(c, s, opening);
    var m1 := m.(nestingLevel := m.nestingLevel + 1);
    assert ProcessLine(c, m, opening + "\n") == Add(m1, opening + "\n");
    var s1 := Stream(Add(m1, opening + "\n"), "", false);
    PartIsReported(c, s1, part);
    var s2 := Stream(Add(s1.machine, part), "", true);
    HarmfulRest(c, s2, closing);
    NestingAside(m, opening + "\n", part, closing + "\n");
  }

  /** The same text, cut harmlessly, is read as text. */
  lemma {:induction false} HarmlessCalls(c: Config, s: Stream, opening: string, part: string, closing: string)
    requires Cancelling(s, opening, part, closing)
    ensures var s1 := ProcessMarkdown(c, s, opening + "\n");
      var s2 := ProcessMarkdown(c, s1, part);
      && !s1.canEmitIncompleteLine
      && ProcessMarkdown(c, s2, closing + "\n")
         == Stream(Add(Add(Add(s.machine, opening + "\n"), part), closing + "\n"), "", false)
  {
    hide MatchFence, ProcessMarkdown, MightBeFence, Add, IsFullLine, Unbroken;
    LineFeedAlone();
    LongerLine(opening, "\n");
    LongerLine(closing, "\n");
    assert "" + (opening + "\n") == opening + "\n" && "" + (closing + "\n") == closing + "\n";
    CallOnLine(c, s, opening + "\n");
    var s1 := Stream(Add(s.machine, opening + "\n"), "", false);
    AddKeepsState(s.machine, opening + "\n");
    PartIsReported(c, s1, part);
    var s2 := Stream(Add(s1.machine, part), "", true);
    CallOnLine(c, s2, closing + "\n");
  }

  lemma {:induction false} CutTwiceCalls(c: Config, before: string, opening: string, part: string, closing: string)
    ensures var chunks, s := CutTwice(before, opening, part, closing), ProcessMarkdown(c, START, before);
      var s2 := ProcessMarkdown(c, ProcessMarkdown(c, ProcessMarkdown(c, s, opening), "\n"), part);
      && ProcessChunks(c, START, chunks[..4]) == s2
      && ProcessChunks(c, START, chunks) == ProcessMarkdown(c, ProcessMarkdown(c, s2, closing), "\n")
      && Concat(chunks[2..]) == "\n" + part + closing + "\n" && Concat(chunks[5..]) == "\n"
      && Concat(chunks) == before + opening + "\n" + part + closing + "\n"
  {
    hide ProcessMarkdown, ProcessChunks, Concat;
    var chunks := CutTwice(before, opening, part, closing);
    OneChunk(c, before);
    ConcatOne(before);
    ConcatOne("\n");
    ChunksPush(c, START, [before], opening);
    ChunksPush(c, START, [before] + [opening], "\n");
    ChunksPush(c, START, [before] + [opening] + ["\n"], part);
    ChunksPush(c, START, chunks[..4], closing);
    ChunksPush(c, START, chunks[..4] + [closing], "\n");
    ConcatPush([before], opening);
    ConcatPush([before] + [opening], "\n");
    ConcatPush([before] + [opening] + ["\n"], part);
    ConcatPush(chunks[..4], closing);
    ConcatPush(chunks[..4] + [closing], "\n");
    ConcatPush(["\n"], part);
    ConcatPush(["\n"] + [part], closing);
    ConcatPush(["\n"] + [part] + [closing], "\n");
    assert chunks[..4] == [before] + [opening] + ["\n"] + [part];
    assert chunks == chunks[..4] + [closing] + ["\n"];
    assert chunks[2..] == ["\n"] + [part] + [closing] + ["\n"] && chunks[5..] == ["\n"];
  }

  lemma {:induction false} ConcatOne(text: string)
    ensures Concat([text]) == text
  {
    assert [text][1..] == [] && text + "" == text;
  }

  lemma {:induction false} OneChunk(c: Config, chunk: string)
    ensures ProcessChunks(c, START, [chunk]) == ProcessMarkdown(c, START, chunk)
  {
    assert [chunk][1..] == [];
    assert ProcessChunks(c, ProcessMarkdown(c, START, chunk), []) == ProcessMarkdown(c, START, chunk);
  }

  lemma {:induction false} HarmlessKeepsLineEnds(before: string, opening: string, part: string, closing: string)
    requires opening != "" && !StartsWithFeed(opening) && part != "" && Unbroken(part)
    ensures KeepsLineEnds("", CutHarmlessly(before, opening, part, closing))
  {
    var chunks := CutHarmlessly(before, opening, part, closing);
    assert chunks[1..] == [opening + "\n", part, closing + "\n"] && chunks[1..][1..] == [part, closing + "\n"];
    assert chunks[1..][1..][1..] == [closing + "\n"] && chunks[1..][1..][1..][1..] == [];
    var text := "" + before + (opening + "\n");
    assert text[|text| - 1] == '\n';
    assert (text + part)[|text + part| - 1] == part[|part| - 1];
    assert KeepsLineEnds(text + part, [closing + "\n"]);
    assert KeepsLineEnds(text, [part, closing + "\n"]);
    assert KeepsLineEnds("" + before, [opening + "\n", part, closing + "\n"]);
  }

  lemma {:induction false} CutHarmlesslyCalls(c: Config, before: string, opening: string, part: string, closing: string)
    requires !ProcessMarkdown(c, ProcessMarkdown(c, START, before), opening + "\n").canEmitIncompleteLine
    ensures var chunks, s := CutHarmlessly(before, opening, part, closing), ProcessMarkdown(c, START, before);
      var s2 := ProcessMarkdown(c, ProcessMarkdown(c, s, opening + "\n"), part);
      && NoHarmfulCuts(c, START, chunks)
      && ProcessChunks(c, START, chunks) == ProcessMarkdown(c, s2, closing + "\n")
      && Concat(chunks) == before + opening + "\n" + part + closing + "\n"
  {
    hide ProcessMarkdown, TakenAsText;
    var chunks := CutHarmlessly(before, opening, part, closing);
    var s := ProcessMarkdown(c, START, before);
    var s1 := ProcessMarkdown(c, s, opening + "\n");
    var s2 := ProcessMarkdown(c, s1, part);
    assert chunks[1..] == [opening + "\n", part, closing + "\n"] && chunks[1..][1..] == [part, closing + "\n"];
    assert chunks[1..][1..][1..] == [closing + "\n"] && chunks[1..][1..][1..][1..] == [];
    assert IsLineDelimiter((opening + "\n")[|opening|]) && IsLineDelimiter((closing + "\n")[|closing|]);
    assert ProcessChunks(c, s2, [closing + "\n"]) == ProcessMarkdown(c, s2, closing + "\n");
    assert ProcessChunks(c, s1, chunks[1..][1..]) == ProcessMarkdown(c, s2, closing + "\n");
    assert NoHarmfulCuts(c, s2, [closing + "\n"]);
    assert NoHarmfulCuts(c, s1, chunks[1..][1..]);
    assert NoHarmfulCuts(c, s, chunks[1..]);
    assert Concat([closing + "\n"]) == closing + "\n" + "";
    assert Concat(chunks[1..][1..]) == part + Concat([closing + "\n"]);
    assert Concat(chunks[1..]) == opening + "\n" + Concat(chunks[1..][1..]);
    assert Concat(chunks) == before + Concat(chunks[1..]);
    assert Concat(chunks) == before + opening + "\n" + part + closing + "\n";
  }

  /** Two harmful cuts that cancel: the stream ends as one call on its text does. */
  lemma {:induction false} CutsCanCancel(c: Config, before: string, opening: string, part: string, closing: string)
    requires Cancelling(ProcessMarkdown(c, START, before), opening, part, closing)
    ensures var chunks := CutTwice(before, opening, part, closing);
      && HarmfulCut(ProcessMarkdown(c, START, before), opening, Concat(chunks[2..]))
      && HarmfulCut(ProcessChunks(c, START, chunks[..4]), closing, Concat(chunks[5..]))
      && Flush(c, ProcessChunks(c, START, chunks)).machine
         == Flush(c, ProcessMarkdown(c, START, Concat(chunks))).machine
  {
    var s := ProcessMarkdown(c, START, before);
    CancellingCalls(c, s, opening, part, closing);
    HarmlessCalls(c, s, opening, part, closing);
    FenceStart(opening + "\n");
    assert opening != "" && !StartsWithFeed(opening);
    hide ProcessMarkdown, Flush, HarmfulCut, MatchFence, ProcessChunks, Concat, Add, NoHarmfulCuts, KeepsLineEnds;
    CutTwiceCalls(c, before, opening, part, closing);
    CutHarmlesslyCalls(c, before, opening, part, closing);
    HarmlessKeepsLineEnds(before, opening, part, closing);
    StreamingIsBatch.StreamingIsBatch(c, CutHarmlessly(before, opening, part, closing));
  }

  lemma {:induction false} ThreeBackticks(rest: string)
    requires rest != "" && rest[0] != '`'
    ensures MatchFence("```" + rest) == Some(Fence("```", WordPrefix(rest)))
  {
    var line := "```" + rest;
    assert line[1..] == "``" + rest && line[1..][1..] == "`" + rest && line[1..][1..][1..] == rest;
    assert RunLength(rest, '`') == 0;
    assert RunLength(line[1..][1..], '`') == 1;
    assert RunLength(line[1..], '`') == 2;
    assert line[..3] == "```" && line[3..] == rest;
  }

  /** Behind an opening fence, whatever the config takes for a path: two lines of text lead into the block. */
  lemma {:induction false} TwoLinesIn(c: Config, m: Machine, line: string)
    requires m.state == LineAfterFence && m.currentBlock.Some? && MatchFence(line).None?
    ensures var after := ProcessLine(c, ProcessLine(c, m, line), line);
      && after.state == InCodeBlock && after.nestingLevel == m.nestingLevel
      && after.currentBlock.Some? && after.currentBlock.value.fence == m.currentBlock.value.fence
  {
    hide MatchFence, Tag;
  }

  lemma {:induction false} ThreeLines(x: string, y: string, z: string)
    requires IsFullLine(x) && IsFullLine(y) && IsFullLine(z)
    requires !StartsWithFeed(y) && !StartsWithFeed(z)
    ensures AreFullLines([x, y, z]) && Concat([x, y, z]) == x + y + z
  {
    hide IsFullLine;
    ConcatOne(x);
    ConcatPush([x], y);
    ConcatPush([x] + [y], z);
    assert [x] + [y] + [z] == [x, y, z];
  }

  lemma {:induction false} ProcessThree(c: Config, m: Machine, x: string, y: string, z: string)
    ensures ProcessLines(c, m, [x, y, z]) == ProcessLine(c, ProcessLine(c, ProcessLine(c, m, x), y), z)
  {
    hide ProcessLine;
    assert [x, y, z][1..] == [y, z] && [y, z][1..] == [z] && [z][1..] == [];
    var m2 := ProcessLine(c, ProcessLine(c, m, x), y);
    assert ProcessLines(c, ProcessLine(c, m2, z), []) == ProcessLine(c, m2, z);
    assert ProcessLines(c, m2, [z]) == ProcessLine(c, m2, z);
    assert ProcessLines(c, ProcessLine(c, m, x), [y, z]) == ProcessLines(c, m2, [z]);
  }

  lemma {:induction false} CancellingFences()
    ensures MatchFence("```\n") == Some(Fence("```", "")) && MatchFence("```js\n") == Some(Fence("```", "js"))
  {
    ThreeBackticks("\n");
    ThreeBackticks("js\n");
    assert "js\n"[1..] == "s\n" && "s\n"[1..] == "\n";
    assert WordPrefix("\n") == "" && WordPrefix("s\n") == "s" && WordPrefix("js\n") == "js";
    assert "```" + "\n" == "```\n" && "```" + "js\n" == "```js\n";
  }

  /** A block is open, and a part of a line in it has been reported. */
  lemma {:induction false} InsideBlock(c: Config)
    ensures var s := ProcessMarkdown(c, START, "```\n" + "a\n" + "a\n" + "x");
      && s.canEmitIncompleteLine && s.lastIncompleteLine == "" && s.machine.state == InCodeBlock
      && s.machine.currentBlock.Some? && s.machine.nestingLevel == 1 && s.machine.currentBlock.value.fence == "```"
  {
    CancellingFences();
    FenceStart("a\n");
    hide MatchFence, ProcessMarkdown, Tag, IsFullLine, Concat;
    var x, y := "```\n", "a\n";
    FullLiterals();
    ThreeLines(x, y, y);
    FeedLines(c, START, [x, y, y], "x");
    assert "" + x == x && [x, y, y][1..] == [y, y] && [x] + [y, y] == [x, y, y];
    ProcessThree(c, INITIAL, x, y, y);
    var m1 := ProcessLine(c, INITIAL, x);
    TwoLinesIn(c, m1, y);
    AddKeepsState(ProcessLine(c, ProcessLine(c, m1, y), y), "x");
  }

  lemma {:induction false} FullLiterals()
    ensures IsFullLine("```\n") && IsFullLine("a\n")
  {
  }

  /** Such cuts exist, for every config: in a block fenced by three backticks, before backticks that name a
      language and before backticks that do not. */
  lemma {:induction false} BackticksCancel(c: Config)
    ensures var before := "```\n" + "a\n" + "a\n" + "x";
      var chunks := CutTwice(before, "```js", "x", "```");
      && HarmfulCut(ProcessMarkdown(c, START, before), "```js", Concat(chunks[2..]))
      && HarmfulCut(ProcessChunks(c, START, chunks[..4]), "```", Concat(chunks[5..]))
      && Flush(c, ProcessChunks(c, START, chunks)).machine
         == Flush(c, ProcessMarkdown(c, START, Concat(chunks))).machine
  {
    InsideBlock(c);
    CancellingFences();
    hide MatchFence, ProcessMarkdown, HarmfulCut, Flush, ProcessChunks, Concat;
    assert "```" + "\n" == "```\n" && "```js" + "\n" == "```js\n";
    CutsCanCancel(c, "```\n" + "a\n" + "a\n" + "x", "```js", "x", "```");
  }
}
