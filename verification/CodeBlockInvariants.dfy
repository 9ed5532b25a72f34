/** What every run of the line machine keeps, however the text is cut. */
module CodeBlockInvariants {
  import opened Wrappers

  import opened CodeBlocks
  import opened TextLines

  /** The index reported for text outside all blocks. */
  const OUTSIDE := -1

  /** The text reported for one block, or outside all blocks. */
  function TextOf(r: Reported, index: int): string {
    if r == [] then ""
    else
      var init, last := TextOf(r[..|r| - 1], index), r[|r| - 1];
      if IndexOf(last.1) == index then init + [last.0] else init
  }

  function IndexOf(info: Option<Info>): int {
    if info.Some? then info.value.index else OUTSIDE
  }

  /** All text reported. */
  function AllText(r: Reported): (s: string)
    ensures |s| == |r| && forall i :: 0 <= i < |r| ==> s[i] == r[i].0
  {
    seq(|r|, i requires 0 <= i < |r| => r[i].0)
  }

  lemma {:induction false} TextOfTag(r: Reported, text: string, info: Option<Info>, index: int)
    ensures TextOf(r + Tag(text, info), index)
        == if IndexOf(info) == index then TextOf(r, index) + text else TextOf(r, index)
    decreases |text|
  {
    if text == "" {
      assert r + Tag(text, info) == r;
    } else {
      var init := text[..|text| - 1];
      var all := r + Tag(text, info);
      assert all[..|all| - 1] == r + Tag(init, info);
      TextOfTag(r, init, info, index);
      assert init + [text[|text| - 1]] == text;
      assert TextOf(r, index) + init + [text[|text| - 1]] == TextOf(r, index) + text;
    }
  }

  /** The text before all closed blocks, in order. */
  function BeforeBlocks(blocks: seq<CodeBlock>): string {
    if blocks == [] then "" else BeforeBlocks(blocks[..|blocks| - 1]) + blocks[|blocks| - 1].markdownBeforeBlock
  }

  /** The text is an opening fence, the reported code, and a closing fence of the same kind without a
      language. */
  predicate Encloses(first: string, block: CodeBlock, last: string, text: string) {
    && text == first + block.code + last
    && MatchFence(first).Some? && MatchFence(first).value.language == block.language
    && MatchFence(last) == Some(Fence(MatchFence(first).value.fence, ""))
  }

  ghost predicate ClosedBlock(block: CodeBlock, text: string) {
    exists first: string, last: string :: Encloses(first, block, last, text)
  }

  /** What the open block has been reported so far. */
  function OpenText(m: Machine): string {
    if m.currentBlock.None? || m.state == LineAfterFence then "" else m.currentBlock.value.firstLine + m.code
  }

  /** The fields fit together. */
  ghost predicate Shape(m: Machine) {
    && (m.currentBlock.Some? <==> m.state != OutsideCodeBlock)
    && (m.currentBlock.Some? <==> m.nestingLevel >= 1)
    && m.index == |m.codeBlocks| + (if m.currentBlock.Some? then 1 else 0)
    && (m.currentBlock.Some? ==>
          var block := m.currentBlock.value;
          && block.info.index == |m.codeBlocks|
          && MatchFence(block.firstLine) == Some(Fence(block.fence, block.info.language)))
    && (m.state == LineAfterFence || m.state == OutsideCodeBlock ==> m.code == "")
  }

  /** The reports fit the fields. */
  ghost predicate Texts(m: Machine) {
    && TextOf(m.emitted, OUTSIDE) == BeforeBlocks(m.codeBlocks) + m.markdownBeforeBlock
    && (forall j: nat :: j < |m.codeBlocks| ==> ClosedBlock(m.codeBlocks[j], TextOf(m.emitted, j)))
    && TextOf(m.emitted, |m.codeBlocks|) == OpenText(m)
    && (forall j: nat :: j > |m.codeBlocks| ==> TextOf(m.emitted, j) == "")
  }

  ghost predicate Invariant(m: Machine) {
    Shape(m) && Texts(m)
  }

  // ---- Every step keeps the invariant ----

  lemma {:induction false} InitialInvariant()
    ensures Invariant(INITIAL)
  {
  }

  /** `after` reports `text` for one index, and nothing for any other. */
  ghost predicate Grows(before: Reported, after: Reported, at: int, text: string) {
    forall index: int :: TextOf(after, index)
        == if at == index then TextOf(before, index) + text else TextOf(before, index)
  }

  lemma {:induction false} TagGrows(r: Reported, text: string, info: Option<Info>)
    ensures Grows(r, r + Tag(text, info), IndexOf(info), text)
  {
    forall index: int
      ensures TextOf(r + Tag(text, info), index)
          == if IndexOf(info) == index then TextOf(r, index) + text else TextOf(r, index)
    {
      TextOfTag(r, text, info, index);
    }
  }

  lemma {:induction false} AddKeepsInvariant(m: Machine, text: string)
    requires Invariant(m) && (m.state == OutsideCodeBlock || m.state == InCodeBlock)
    ensures Invariant(Add(m, text))
  {
    hide TextOf, MatchFence, Tag, BeforeBlocks, ClosedBlock;
    TagGrows(m.emitted, text, CurrentInfo(m));
    Assoc(BeforeBlocks(m.codeBlocks), m.markdownBeforeBlock, text);
    if m.currentBlock.Some? {
      Assoc(m.currentBlock.value.firstLine, m.code, text);
    }
  }

  lemma {:induction false} OpenKeepsInvariant(m: Machine, line: string)
    requires Invariant(m) && m.currentBlock.None? && MatchFence(line).Some?
    ensures Invariant(Open(m, line, MatchFence(line).value))
  {
  }

  lemma {:induction false} CloseKeepsInvariant(m: Machine, line: string)
    requires Invariant(m) && m.state == InCodeBlock
    requires MatchFence(line) == Some(Fence(m.currentBlock.value.fence, ""))
    ensures Invariant(Close(m, line, m.currentBlock.value))
  {
    hide TextOf, MatchFence, Tag, ClosedBlock, BeforeBlocks;
    var block, n := m.currentBlock.value, |m.codeBlocks|;
    var after := Close(m, line, block);
    TagGrows(m.emitted, line, Some(block.info));
    assert Texts(after) by {
      ClosedNow(after.codeBlocks[n], block.firstLine, line);
      assert TextOf(after.emitted, n) == block.firstLine + m.code + line;
      forall j: nat | j < n + 1
        ensures ClosedBlock(after.codeBlocks[j], TextOf(after.emitted, j))
      {
        if j < n { assert after.codeBlocks[j] == m.codeBlocks[j]; }
      }
      BeforeBlocksSnoc(m.codeBlocks, after.codeBlocks[n]);
    }
  }

  lemma {:induction false} ClosedNow(block: CodeBlock, first: string, last: string)
    requires MatchFence(first).Some? && MatchFence(first).value.language == block.language
    requires MatchFence(last) == Some(Fence(MatchFence(first).value.fence, ""))
    ensures ClosedBlock(block, first + block.code + last)
  {
    assert Encloses(first, block, last, first + block.code + last);
  }

  lemma {:induction false} BeforeBlocksSnoc(blocks: seq<CodeBlock>, block: CodeBlock)
    ensures BeforeBlocks(blocks + [block]) + "" == BeforeBlocks(blocks) + block.markdownBeforeBlock
  {
    assert (blocks + [block])[..|blocks|] == blocks;
  }

  lemma {:induction false} FirstLineKeepsInvariant(m: Machine, state: State)
    requires Invariant(m) && m.state == LineAfterFence && (state == InCodeBlock || state == LineAfterFilePath)
    ensures Invariant(EmitFirstLine(m.(state := state)))
  {
    hide TextOf, MatchFence, Tag, BeforeBlocks, ClosedBlock;
    var first := m.currentBlock.value.firstLine;
    TagGrows(m.emitted, first, CurrentInfo(m));
    assert "" + first == first + "";
  }

  lemma {:induction false} ContentKeepsInvariant(m: Machine, line: string)
    requires Invariant(m) && (m.state == OutsideCodeBlock || m.state == InCodeBlock)
    ensures Invariant(ProcessContent(m, line))
  {
    var matched := MatchFence(line);
    hide MatchFence, Add, Close, Open, TextOf, BeforeBlocks;
    if matched.None? {
      AddKeepsInvariant(m, line);
    } else if m.currentBlock.None? {
      OpenKeepsInvariant(m, line);
    } else if matched.value.fence != m.currentBlock.value.fence {
      AddKeepsInvariant(m, line);
    } else if matched.value.language != "" {
      AddKeepsInvariant(m.(nestingLevel := m.nestingLevel + 1), line);
    } else if m.nestingLevel > 1 {
      AddKeepsInvariant(m.(nestingLevel := m.nestingLevel - 1), line);
    } else {
      CloseKeepsInvariant(m, line);
    }
  }

  lemma {:induction false} ResourceKeepsInvariant(m: Machine, resource: Option<string>)
    requires Invariant(m)
    ensures Invariant(WithResource(m, resource)) && WithResource(m, resource).state == m.state
  {
  }

  lemma {:induction false} LineKeepsInvariant(c: Config, m: Machine, line: string)
    requires Invariant(m)
    ensures Invariant(ProcessLine(c, m, line))
  {
    hide Invariant, ProcessContent, WithResource, EmitFirstLine;
    match m.state
    case LineAfterFence =>
      var path := FilePathOf(c, m, line);
      if path.Some? {
        ResourceKeepsInvariant(m, c.resolveCodeblockPath(path.value));
        FirstLineKeepsInvariant(WithResource(m, c.resolveCodeblockPath(path.value)), LineAfterFilePath);
        StateLater(WithResource(m, c.resolveCodeblockPath(path.value)), LineAfterFilePath);
      } else {
        FirstLineKeepsInvariant(m, InCodeBlock);
        StateLater(m, InCodeBlock);
        ContentKeepsInvariant(EmitFirstLine(m.(state := InCodeBlock)), line);
      }
    case LineAfterFilePath =>
      InsideKeepsInvariant(m);
      if !c.isBlank(line) {
        ContentKeepsInvariant(m.(state := InCodeBlock), line);
      }
    case _ =>
      ContentKeepsInvariant(m, line);
  }

  lemma {:induction false} StateLater(m: Machine, state: State)
    ensures EmitFirstLine(m).(state := state) == EmitFirstLine(m.(state := state))
    ensures EmitFirstLine(m.(state := state)).state == state
  {
  }

  lemma {:induction false} InsideKeepsInvariant(m: Machine)
    requires Invariant(m) && m.state == LineAfterFilePath
    ensures Invariant(m.(state := InCodeBlock))
  {
  }

  // ---- The fences are single lines ----

  /** A line, or the last line of a text, which may lack its line end. */
  predicate OneLine(line: string) { line != "" && (Unbroken(line) || IsFullLine(line)) }

  /** The opening fence is a full line, and the closing one a single line: all that is reported between them
      is the block's code. */
  ghost predicate FencedBlock(block: CodeBlock, text: string) {
    exists first: string, last: string :: IsFullLine(first) && OneLine(last) && Encloses(first, block, last, text)
  }

  ghost predicate AllFenced(m: Machine) {
    forall j: nat :: j < |m.codeBlocks| ==> FencedBlock(m.codeBlocks[j], TextOf(m.emitted, j))
  }

  ghost predicate OpenedByFullLine(m: Machine) {
    m.currentBlock.Some? ==> IsFullLine(m.currentBlock.value.firstLine)
  }

  ghost predicate OpenedByLine(m: Machine) {
    m.currentBlock.Some? ==> OneLine(m.currentBlock.value.firstLine)
  }

  lemma {:induction false} FullLineIsLine(m: Machine)
    requires OpenedByFullLine(m)
    ensures OpenedByLine(m)
  {
  }

  /** The closed blocks are as before, and so is what has been reported for them. */
  ghost predicate KeepsClosed(before: Machine, after: Machine) {
    && before.codeBlocks <= after.codeBlocks
    && forall j: nat :: j < |before.codeBlocks| ==> TextOf(after.emitted, j) == TextOf(before.emitted, j)
  }

  lemma {:induction false} StillFenced(before: Machine, after: Machine)
    requires AllFenced(before) && KeepsClosed(before, after) && |after.codeBlocks| == |before.codeBlocks|
    ensures AllFenced(after)
  {
    hide FencedBlock, TextOf;
    assert after.codeBlocks == before.codeBlocks;
  }

  lemma {:induction false} AddKeepsClosed(m: Machine, text: string)
    requires Shape(m)
    ensures KeepsClosed(m, Add(m, text))
  {
    hide TextOf, MatchFence, Tag;
    TagGrows(m.emitted, text, CurrentInfo(m));
  }

  lemma {:induction false} FirstLineKeepsClosed(m: Machine, state: State)
    requires Shape(m)
    ensures KeepsClosed(m, EmitFirstLine(m.(state := state)))
  {
    hide TextOf, MatchFence, Tag;
    if m.currentBlock.Some? {
      TagGrows(m.emitted, m.currentBlock.value.firstLine, CurrentInfo(m));
    }
  }

  /** Closing leaves a block whose reports are its two fences, a line each, around its code. */
  lemma {:induction false} CloseIsFenced(m: Machine, line: string)
    requires Invariant(m) && m.state == InCodeBlock && AllFenced(m) && OpenedByFullLine(m) && OneLine(line)
    requires MatchFence(line) == Some(Fence(m.currentBlock.value.fence, ""))
    ensures AllFenced(Close(m, line, m.currentBlock.value))
  {
    hide TextOf, MatchFence, Tag, BeforeBlocks, ClosedBlock, IsFullLine, Unbroken;
    var block, n := m.currentBlock.value, |m.codeBlocks|;
    var after := Close(m, line, block);
    TagGrows(m.emitted, line, Some(block.info));
    FencedNow(after.codeBlocks[n], block.firstLine, line);
    assert TextOf(after.emitted, n) == block.firstLine + m.code + line;
    forall j: nat | j < n + 1
      ensures FencedBlock(after.codeBlocks[j], TextOf(after.emitted, j))
    {
      if j < n { assert after.codeBlocks[j] == m.codeBlocks[j]; }
    }
  }

  lemma {:induction false} FencedNow(block: CodeBlock, first: string, last: string)
    requires IsFullLine(first) && OneLine(last)
    requires MatchFence(first).Some? && MatchFence(first).value.language == block.language
    requires MatchFence(last) == Some(Fence(MatchFence(first).value.fence, ""))
    ensures FencedBlock(block, first + block.code + last)
  {
    hide MatchFence;
    assert Encloses(first, block, last, first + block.code + last);
  }

  lemma {:induction false} ContentIsFenced(m: Machine, line: string)
    requires Invariant(m) && InText(m) && AllFenced(m) && OpenedByFullLine(m) && OneLine(line)
    ensures AllFenced(ProcessContent(m, line)) && OpenedByLine(ProcessContent(m, line))
    ensures IsFullLine(line) ==> OpenedByFullLine(ProcessContent(m, line))
  {
    FullLineIsLine(m);
    hide MatchFence, TextOf, FencedBlock, Tag, Texts, IsFullLine, OneLine, AllFenced, KeepsClosed;
    var matched, after := MatchFence(line), ProcessContent(m, line);
    if matched.Some? && m.currentBlock.Some? && after.currentBlock.None? {
      CloseIsFenced(m, line);
    } else if matched.Some? && m.currentBlock.None? {
      NothingReportedYet(m, after);
      StillFenced(m, after);
    } else {
      AddKeepsClosed(m.(nestingLevel := after.nestingLevel), line);
      SameClosed(m, m.(nestingLevel := after.nestingLevel), after);
      StillFenced(m, after);
    }
  }

  lemma {:induction false} NothingReportedYet(m: Machine, after: Machine)
    requires after.codeBlocks == m.codeBlocks && after.emitted == m.emitted
    ensures KeepsClosed(m, after)
  {
  }

  lemma {:induction false} SameClosed(m: Machine, inside: Machine, after: Machine)
    requires inside.codeBlocks == m.codeBlocks && inside.emitted == m.emitted && KeepsClosed(inside, after)
    ensures KeepsClosed(m, after)
  {
  }

  /** Every line leaves all closed blocks fenced, and an open one opened by a line: by a full line, if it is one. */
  lemma {:induction false} LineIsFenced(c: Config, m: Machine, line: string)
    requires Invariant(m) && AllFenced(m) && OpenedByFullLine(m) && OneLine(line)
    ensures AllFenced(ProcessLine(c, m, line)) && OpenedByLine(ProcessLine(c, m, line))
    ensures IsFullLine(line) ==> OpenedByFullLine(ProcessLine(c, m, line))
  {
    hide Invariant, ProcessContent, WithResource, EmitFirstLine, AllFenced, OpenedByFullLine, OpenedByLine;
    hide IsFullLine, OneLine;
    match m.state
    case LineAfterFence =>
      var path := FilePathOf(c, m, line);
      if path.Some? {
        var resource := c.resolveCodeblockPath(path.value);
        ResourceIsFenced(m, resource);
        ResourceKeepsInvariant(m, resource);
        FirstLineIsFenced(WithResource(m, resource), LineAfterFilePath);
        StateLater(WithResource(m, resource), LineAfterFilePath);
        FullLineIsLine(ProcessLine(c, m, line));
      } else {
        FirstLineIsFenced(m, InCodeBlock);
        FirstLineKeepsInvariant(m, InCodeBlock);
        StateLater(m, InCodeBlock);
        ContentIsFenced(EmitFirstLine(m.(state := InCodeBlock)), line);
      }
    case LineAfterFilePath =>
      InsideKeepsInvariant(m);
      InsideIsFenced(m);
      FullLineIsLine(m.(state := InCodeBlock));
      if !c.isBlank(line) {
        ContentIsFenced(m.(state := InCodeBlock), line);
      }
    case _ =>
      ContentIsFenced(m, line);
  }

  lemma {:induction false} ResourceIsFenced(m: Machine, resource: Option<string>)
    requires AllFenced(m) && OpenedByFullLine(m)
    ensures AllFenced(WithResource(m, resource)) && OpenedByFullLine(WithResource(m, resource))
  {
    hide FencedBlock, TextOf;
  }

  lemma {:induction false} FirstLineIsFenced(m: Machine, state: State)
    requires Invariant(m) && AllFenced(m) && OpenedByFullLine(m)
    ensures AllFenced(EmitFirstLine(m.(state := state))) && OpenedByFullLine(EmitFirstLine(m.(state := state)))
  {
    hide Texts, AllFenced, KeepsClosed;
    FirstLineKeepsClosed(m, state);
    StillFenced(m, EmitFirstLine(m.(state := state)));
  }

  lemma {:induction false} InsideIsFenced(m: Machine)
    requires AllFenced(m) && OpenedByFullLine(m)
    ensures AllFenced(m.(state := InCodeBlock)) && OpenedByFullLine(m.(state := InCodeBlock))
  {
    hide FencedBlock, TextOf;
  }

  lemma {:induction false} AddIsFenced(m: Machine, text: string)
    requires Invariant(m) && AllFenced(m) && OpenedByFullLine(m)
    ensures AllFenced(Add(m, text)) && OpenedByFullLine(Add(m, text))
  {
    hide Texts, AllFenced, KeepsClosed;
    AddKeepsClosed(m, text);
    StillFenced(m, Add(m, text));
  }

  // ---- Where a block ends ----

  /** What a line does to the depth inside a block: a fence of the block's kind opens a nested block if it
      names a language, and closes one if it does not. */
  function Nests(fence: string, line: string): int {
    match MatchFence(line)
    case None => 0
    case Some(f) => if f.fence != fence then 0 else if f.language != "" then 1 else -1
  }

  function Depth(fence: string, lines: seq<string>): int {
    if lines == [] then 0 else Nests(fence, lines[0]) + Depth(fence, lines[1..])
  }

  /** The depth stays positive after every line. */
  predicate StaysOpen(fence: string, depth: int, lines: seq<string>)
    decreases |lines|
  {
    lines != [] ==> depth + Nests(fence, lines[0]) > 0 && StaysOpen(fence, depth + Nests(fence, lines[0]), lines[1..])
  }

  ghost predicate Inside(m: Machine) {
    m.state == InCodeBlock && m.currentBlock.Some? && m.nestingLevel >= 1
  }

  lemma {:induction false} LineInside(c: Config, m: Machine, line: string)
    requires Inside(m)
    ensures var block, after, depth := m.currentBlock.value, ProcessLine(c, m, line),
        m.nestingLevel + Nests(m.currentBlock.value.fence, line);
      if depth > 0 then
        && Inside(after) && after.currentBlock == m.currentBlock && after.nestingLevel == depth
            && after.code == m.code + line
        && after.codeBlocks == m.codeBlocks && after.markdownBeforeBlock == m.markdownBeforeBlock
      else
        && after.state == OutsideCodeBlock && after.currentBlock.None?
        && after.codeBlocks == m.codeBlocks
            + [CodeBlock(m.code, block.info.resource, block.info.language, m.markdownBeforeBlock)]
  {
    hide MatchFence, Tag;
  }

  /** While the depth stays positive, the same block is open and its code is every line, nested fences
      included. */
  lemma {:induction false} LinesInside(c: Config, m: Machine, lines: seq<string>)
    requires Inside(m) && StaysOpen(m.currentBlock.value.fence, m.nestingLevel, lines)
    ensures var after := ProcessLines(c, m, lines);
      && Inside(after) && after.currentBlock == m.currentBlock && after.code == m.code + Concat(lines)
      && after.nestingLevel == m.nestingLevel + Depth(m.currentBlock.value.fence, lines)
      && after.codeBlocks == m.codeBlocks && after.markdownBeforeBlock == m.markdownBeforeBlock
    decreases |lines|
  {
    hide ProcessLine, MatchFence, Nests;
    if lines == [] {
      assert m.code + "" == m.code;
    } else {
      LineInside(c, m, lines[0]);
      LinesInside(c, ProcessLine(c, m, lines[0]), lines[1..]);
      Assoc(m.code, lines[0], Concat(lines[1..]));
    }
  }

  /** The block ends with the first line that brings the depth to zero, and is reported with all lines
      before it as its code. */
  lemma {:induction false} BlockEndsAtMatchingFence(c: Config, m: Machine, lines: seq<string>, last: string)
    requires Inside(m) && StaysOpen(m.currentBlock.value.fence, m.nestingLevel, lines)
    requires m.nestingLevel + Depth(m.currentBlock.value.fence, lines + [last]) == 0
    ensures var block, after := m.currentBlock.value, ProcessLines(c, m, lines + [last]);
      && after.state == OutsideCodeBlock && after.currentBlock.None?
      && after.codeBlocks == m.codeBlocks
          + [CodeBlock(m.code + Concat(lines), block.info.resource, block.info.language, m.markdownBeforeBlock)]
  {
    hide ProcessLine, MatchFence, Nests;
    LinesInside(c, m, lines);
    var before := ProcessLines(c, m, lines);
    DepthPush(m.currentBlock.value.fence, lines, last);
    LineInside(c, before, last);
    ProcessLinesPush(c, m, lines, last);
  }

  lemma {:induction false} DepthPush(fence: string, lines: seq<string>, last: string)
    ensures Depth(fence, lines + [last]) == Depth(fence, lines) + Nests(fence, last)
    decreases |lines|
  {
    hide Nests;
    if lines == [] {
      assert [last][1..] == [];
    } else {
      assert (lines + [last])[1..] == lines[1..] + [last];
      DepthPush(fence, lines[1..], last);
    }
  }

  // ---- After the flush ----

  /** The invariant once the opening fence has been reported too. */
  ghost predicate Settled(m: Machine) {
    && Shape(m)
    && TextOf(m.emitted, OUTSIDE) == BeforeBlocks(m.codeBlocks) + m.markdownBeforeBlock
    && (forall j: nat :: j < |m.codeBlocks| ==> ClosedBlock(m.codeBlocks[j], TextOf(m.emitted, j)))
    && (m.currentBlock.Some? ==> TextOf(m.emitted, |m.codeBlocks|) == m.currentBlock.value.firstLine + m.code)
    && (forall j: nat :: j >= m.index ==> TextOf(m.emitted, j) == "")
  }

  lemma {:induction false} FlushSettles(m: Machine)
    requires Invariant(m)
    ensures Settled(if m.state == LineAfterFence then EmitFirstLine(m) else m)
  {
    hide TextOf, Tag, ClosedBlock, BeforeBlocks, MatchFence;
    if m.state == LineAfterFence {
      TagGrows(m.emitted, m.currentBlock.value.firstLine, CurrentInfo(m));
      assert "" + m.currentBlock.value.firstLine == m.currentBlock.value.firstLine + "";
    }
  }

  lemma {:induction false} FlushIsFenced(m: Machine)
    requires Shape(m) && AllFenced(m) && OpenedByLine(m)
    ensures var after := if m.state == LineAfterFence then EmitFirstLine(m) else m;
      AllFenced(after) && OpenedByLine(after)
  {
    hide AllFenced, KeepsClosed, OneLine, MatchFence;
    if m.state == LineAfterFence {
      assert m.(state := LineAfterFence) == m;
      FirstLineKeepsClosed(m, LineAfterFence);
      StillFenced(m, EmitFirstLine(m));
    }
  }

  // ---- What the fences tell about the code ----

  predicate NoReturns(text: string) { '\r' !in text }

  /** The code ends where a line ends, as it does unless a part of a line was reported before the fence. */
  predicate EndsALine(code: string) { code == "" || code[|code| - 1] == '\n' }

  lemma {:induction false} FeedAtEnd(line: string)
    requires IsFullLine(line) && NoReturns(line)
    ensures line[|line| - 1] == '\n' && forall i :: 0 <= i < |line| - 1 ==> line[i] != '\n'
  {
    assert forall i :: 0 <= i < |line| - 1 ==> line[i] == line[..|line| - 1][i];
  }

  lemma {:induction false} FeedAtMostAtEnd(line: string)
    requires OneLine(line) && NoReturns(line)
    ensures forall i :: 0 <= i < |line| - 1 ==> line[i] != '\n'
  {
    if IsFullLine(line) { FeedAtEnd(line); }
  }

  lemma {:induction false} LineAtStart(text: string, first: string, rest: string)
    requires text == first + rest && NoReturns(text) && IsFullLine(first)
    ensures 0 < |first| <= |text| && first == text[..|first|]
    ensures text[|first| - 1] == '\n' && forall i :: 0 <= i < |first| - 1 ==> text[i] != '\n'
  {
    assert first == text[..|first|];
    FeedAtEnd(first);
  }

  lemma {:induction false} LineAtEnd(text: string, before: string, last: string)
    requires text == before + last && NoReturns(text) && OneLine(last)
    requires before != "" && before[|before| - 1] == '\n'
    ensures |before| < |text| && last == text[|before|..]
    ensures text[|before| - 1] == '\n' && forall i :: |before| <= i < |text| - 1 ==> text[i] != '\n'
  {
    assert last == text[|before|..];
    FeedAtMostAtEnd(last);
    assert forall i :: |before| <= i < |text| ==> text[i] == last[i - |before|];
  }

  /** Two readings of the same reports as a fence line, code and a fence line agree: the reports leave no
      choice what the code is. */
  lemma {:induction false} CodeIsDetermined(text: string, first: string, code: string, last: string,
          first': string, code': string, last': string)
    requires text == first + code + last && text == first' + code' + last' && NoReturns(text)
    requires IsFullLine(first) && OneLine(last) && EndsALine(code)
    requires IsFullLine(first') && OneLine(last') && EndsALine(code')
    ensures first == first' && code == code' && last == last'
  {
    hide IsFullLine, OneLine, NoReturns;
    FenceLines(text, first, code, last);
    FenceLines(text, first', code', last');
    assert |first| == |first'|;
    assert |first + code| == |first' + code'|;
  }

  lemma {:induction false} FenceLines(text: string, first: string, code: string, last: string)
    requires text == first + code + last && NoReturns(text)
    requires IsFullLine(first) && OneLine(last) && EndsALine(code)
    ensures var i, n := |first|, |first + code|;
      && 0 < i <= n < |text| && first == text[..i] && code == text[i..n] && last == text[n..]
      && text[i - 1] == '\n' && (forall k :: 0 <= k < i - 1 ==> text[k] != '\n')
      && text[n - 1] == '\n' && (forall k :: n <= k < |text| - 1 ==> text[k] != '\n')
  {
    hide IsFullLine, OneLine, NoReturns;
    Assoc(first, code, last);
    LineAtStart(text, first, code + last);
    assert (first + code)[|first + code| - 1] == '\n';
    LineAtEnd(text, first + code, last);
    assert code == text[|first|..|first + code|];
  }
}
