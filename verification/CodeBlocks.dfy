/** The line machine of copilot-fork/src/extension/codeBlocks/node/codeBlockProcessor.ts.

    The machine records what its two callbacks receive.  Emitted markdown is recorded character by
    character, each with the block it was reported for, so that two ways of cutting the same text into
    pieces can be compared. */
module CodeBlocks {
  import opened Wrappers

  datatype State = OutsideCodeBlock | LineAfterFence | LineAfterFilePath | InCodeBlock

  datatype Info = Info(index: nat, language: string, resource: Option<string>)

  datatype Block = Block(info: Info, fence: string, firstLine: string)

  datatype CodeBlock = CodeBlock(code: string, resource: Option<string>, language: string, markdownBeforeBlock: string)

  /** What the processor knows about paths and blank lines: the path named by a line of a given
      language, if any; the resource of a path, if any; whether a line is blank. */
  datatype Config = Config(
    getFilePath: (string, string) -> Option<string>,
    resolveCodeblockPath: string -> Option<string>,
    isBlank: string -> bool)

  type Reported = seq<(char, Option<Info>)>

  datatype Machine = Machine(
    state: State,
    nestingLevel: nat,
    currentBlock: Option<Block>,
    index: nat,
    code: string,
    markdownBeforeBlock: string,
    emitted: Reported,
    codeBlocks: seq<CodeBlock>)

  const INITIAL := Machine(OutsideCodeBlock, 0, None, 0, "", "", [], [])

  // ---- Fences ----

  predicate IsFenceChar(c: char) { c == '`' || c == '~' }

  predicate IsWordChar(c: char) { 'a' <= c <= 'z' || 'A' <= c <= 'Z' || '0' <= c <= '9' || c == '_' }

  /** The number of leading characters equal to c. */
  function RunLength(line: string, c: char): (n: nat)
    ensures n <= |line| && forall i :: 0 <= i < n ==> line[i] == c
    ensures n < |line| ==> line[n] != c
  {
    if line != "" && line[0] == c then 1 + RunLength(line[1..], c) else 0
  }

  function WordPrefix(text: string): (word: string)
    ensures word <= text && forall i :: 0 <= i < |word| ==> IsWordChar(word[i])
    ensures |word| < |text| ==> !IsWordChar(text[|word|])
  {
    if text != "" && IsWordChar(text[0]) then [text[0]] + WordPrefix(text[1..]) else ""
  }

  datatype Fence = Fence(fence: string, language: string)

  /** A leading run of three or more backticks or tildes, and the word behind it. */
  function MatchFence(line: string): Option<Fence> {
    if line == "" || !IsFenceChar(line[0]) then None
    else
      var n := RunLength(line, line[0]);
      if n < 3 then None else Some(Fence(line[..n], WordPrefix(line[n..])))
  }

  /** Whether more text could still turn the line into a fence. */
  predicate MightBeFence(line: string) {
    |line| > 0 ==>
      && IsFenceChar(line[0])
      && (|line| > 1 ==> line[1] == line[0])
      && (|line| > 2 ==> line[2] == line[0])
  }

  // ---- One line ----

  function Tag(text: string, info: Option<Info>): (r: Reported)
    ensures |r| == |text| && forall i :: 0 <= i < |r| ==> r[i] == (text[i], info)
  {
    seq(|text|, i requires 0 <= i < |text| => (text[i], info))
  }

  function Emit(m: Machine, text: string, info: Option<Info>): Machine {
    m.(emitted := m.emitted + Tag(text, info))
  }

  function CurrentInfo(m: Machine): Option<Info> {
    if m.currentBlock.Some? then Some(m.currentBlock.value.info) else None
  }

  /** Text that neither opens nor closes a block: _processLinePart, and the end of _processLine. */
  function Add(m: Machine, text: string): Machine {
    var added :=
      if m.currentBlock.Some? then m.(code := m.code + text)
      else m.(markdownBeforeBlock := m.markdownBeforeBlock + text);
    Emit(added, text, CurrentInfo(m))
  }

  function Open(m: Machine, line: string, fence: Fence): Machine {
    m.(nestingLevel := 1,
       currentBlock := Some(Block(Info(m.index, fence.language, None), fence.fence, line)),
       index := m.index + 1,
       state := LineAfterFence)
  }

  function Close(m: Machine, line: string, block: Block): Machine {
    var closed := Emit(m, line, Some(block.info));
    var reported := CodeBlock(m.code, block.info.resource, block.info.language, m.markdownBeforeBlock);
    closed.(codeBlocks := m.codeBlocks + [reported], code := "", markdownBeforeBlock := "",
        currentBlock := None, nestingLevel := 0, state := OutsideCodeBlock)
  }

  /** The part of _processLine that looks at fences. */
  function ProcessContent(m: Machine, line: string): Machine {
    match MatchFence(line)
    case None => Add(m, line)
    case Some(fence) =>
      if m.currentBlock.None? then
        Open(m, line, fence)
      else if fence.fence != m.currentBlock.value.fence then
        Add(m, line)
      else if fence.language != "" then
        Add(m.(nestingLevel := m.nestingLevel + 1), line)
      else if m.nestingLevel > 1 then
        Add(m.(nestingLevel := m.nestingLevel - 1), line)
      else
        Close(m, line, m.currentBlock.value)
  }

  /** The block's first line is reported once the line behind it has been seen. */
  function EmitFirstLine(m: Machine): Machine {
    if m.currentBlock.None? then m
    else Emit(m, m.currentBlock.value.firstLine, CurrentInfo(m))
  }

  function WithResource(m: Machine, resource: Option<string>): Machine {
    if m.currentBlock.None? || m.currentBlock.value.info.resource.Some? then m
    else
      var block := m.currentBlock.value;
      m.(currentBlock := Some(block.(info := block.info.(resource := resource))))
  }

  function FilePathOf(c: Config, m: Machine, line: string): Option<string> {
    if m.currentBlock.None? then None else c.getFilePath(line, m.currentBlock.value.info.language)
  }

  function ProcessLine(c: Config, m: Machine, line: string): Machine {
    match m.state
    case LineAfterFence =>
      var path := FilePathOf(c, m, line);
      if path.Some? then
        EmitFirstLine(WithResource(m, c.resolveCodeblockPath(path.value)).(state := LineAfterFilePath))
      else
        ProcessContent(EmitFirstLine(m.(state := InCodeBlock)), line)
    case LineAfterFilePath =>
      var inside := m.(state := InCodeBlock);
      if c.isBlank(line) then inside else ProcessContent(inside, line)
    case _ =>
      ProcessContent(m, line)
  }

  function ProcessLines(c: Config, m: Machine, lines: seq<string>): Machine
    decreases |lines|
  {
    if lines == [] then m else ProcessLines(c, ProcessLine(c, m, lines[0]), lines[1..])
  }

  // ---- Lines of a text ----

  predicate IsLineDelimiter(c: char) { c == '\n' || c == '\r' }

  predicate EndsWithLineDelimiter(line: string) {
    |line| > 0 && IsLineDelimiter(line[|line| - 1])
  }

  function FirstDelimiter(text: string): (i: nat)
    ensures i <= |text| && forall j :: 0 <= j < i ==> !IsLineDelimiter(text[j])
    ensures i < |text| ==> IsLineDelimiter(text[i])
  {
    if text == "" || IsLineDelimiter(text[0]) then 0 else 1 + FirstDelimiter(text[1..])
  }

  /** The lines of a text with their separators; the last one has none and may be empty. */
  function SplitLines(text: string): (lines: seq<string>)
    ensures |lines| > 0
    decreases |text|
  {
    var i := FirstDelimiter(text);
    if i == |text| then [text]
    else
      var end := if text[i] == '\r' && i + 1 < |text| && text[i + 1] == '\n' then i + 2 else i + 1;
      [text[..end]] + SplitLines(text[end..])
  }

  // ---- The stream ----

  /** The processor between two calls. */
  datatype Stream = Stream(machine: Machine, lastIncompleteLine: string, canEmitIncompleteLine: bool)

  const START := Stream(INITIAL, "", false)

  predicate RequiresFullLine(state: State, line: string) {
    if state == OutsideCodeBlock || state == InCodeBlock then MightBeFence(line) else true
  }

  /** The complete lines of a call, the first of which may continue a line already reported in part. */
  function ProcessComplete(c: Config, s: Stream, lines: seq<string>): Machine {
    if lines != [] && s.canEmitIncompleteLine then ProcessLines(c, Add(s.machine, lines[0]), lines[1..])
    else ProcessLines(c, s.machine, lines)
  }

  /** The incomplete line a call ends with is reported at once, unless it might be a fence. */
  function ProcessIncomplete(m: Machine, last: string): Stream {
    if last != "" && !RequiresFullLine(m.state, last) then Stream(Add(m, last), "", true)
    else Stream(m, last, false)
  }

  function ProcessMarkdown(c: Config, s: Stream, text: string): Stream {
    if text == "" then s
    else
      var split := SplitLines(text);
      var lines := [s.lastIncompleteLine + split[0]] + split[1..];
      var last := lines[|lines| - 1];
      if EndsWithLineDelimiter(last) then ProcessIncomplete(ProcessComplete(c, s, lines), "")
      else ProcessIncomplete(ProcessComplete(c, s, lines[..|lines| - 1]), last)
  }

  function Flush(c: Config, s: Stream): Stream {
    var m := if s.lastIncompleteLine != "" then ProcessLine(c, s.machine, s.lastIncompleteLine) else s.machine;
    Stream(if m.state == LineAfterFence then EmitFirstLine(m) else m, "", s.canEmitIncompleteLine)
  }

  function ProcessCodeblockUri(s: Stream, uri: string): Stream {
    s.(machine := WithResource(s.machine, Some(uri)))
  }

  function ProcessChunks(c: Config, s: Stream, chunks: seq<string>): Stream
    decreases |chunks|
  {
    if chunks == [] then s else ProcessChunks(c, ProcessMarkdown(c, s, chunks[0]), chunks[1..])
  }

  function Concat(texts: seq<string>): string {
    if texts == [] then "" else texts[0] + Concat(texts[1..])
  }

  // ---- Shared by the proofs about the machine ----

  /** Ordinary text is expected: no opening fence or path line came last. */
  predicate InText(m: Machine) { m.state == OutsideCodeBlock || m.state == InCodeBlock }

  lemma {:induction false} Assoc<T>(a: seq<T>, b: seq<T>, c: seq<T>)
    ensures a + b + c == a + (b + c)
  {
  }

  lemma {:induction false} ConcatPush(texts: seq<string>, last: string)
    ensures Concat(texts + [last]) == Concat(texts) + last
    decreases |texts|
  {
    if texts != [] {
      ConcatPush(texts[1..], last);
      assert (texts + [last])[1..] == texts[1..] + [last];
    } else {
      assert texts + [last] == [last];
      assert [last][1..] == [];
    }
  }

  lemma {:induction false} ProcessLinesPush(c: Config, m: Machine, lines: seq<string>, last: string)
    ensures ProcessLines(c, m, lines + [last]) == ProcessLine(c, ProcessLines(c, m, lines), last)
    decreases |lines|
  {
    if lines == [] {
      assert lines + [last] == [last];
      assert [last][1..] == [];
    } else {
      assert (lines + [last])[1..] == lines[1..] + [last];
      ProcessLinesPush(c, ProcessLine(c, m, lines[0]), lines[1..], last);
    }
  }
}
