/** What a whole block is reported as, told from its lines and the config. */
module WholeBlocks {
  import opened Wrappers

  import opened CodeBlocks
  import opened CodeBlockInvariants
  import opened Fences

  // ---- The lines behind an opening fence ----

  /** The path the first of them names, if any. */
  function PathOf(c: Config, language: string, lines: seq<string>): Option<string> {
    if lines == [] then None else c.getFilePath(lines[0], language)
  }

  /** The lines of the block: not the path line, nor one blank line right behind it. */
  function BodyOf(c: Config, language: string, lines: seq<string>): seq<string> {
    if PathOf(c, language, lines).None? then lines
    else if |lines| >= 2 && c.isBlank(lines[1]) then lines[2..]
    else lines[1..]
  }

  /** The resource of the block: the URI given right behind its opening fence, or else that of its path. */
  function ResourceOf(c: Config, language: string, uri: Option<string>, lines: seq<string>): Option<string> {
    if uri.Some? || PathOf(c, language, lines).None? then uri
    else c.resolveCodeblockPath(PathOf(c, language, lines).value)
  }

  // ---- Inside the block ----

  lemma {:induction false} TagJoin(r: Reported, a: string, b: string, info: Option<Info>)
    ensures r + Tag(a, info) + Tag(b, info) == r + Tag(a + b, info)
  {
    assert Tag(a, info) + Tag(b, info) == Tag(a + b, info);
    Assoc(r, Tag(a, info), Tag(b, info));
  }

  /** The machine after lines that leave the block open: it has collected and reported them. */
  function Collected(m: Machine, text: string, depth: nat): Machine {
    m.(nestingLevel := depth, code := m.code + text, emitted := m.emitted + Tag(text, CurrentInfo(m)))
  }

  lemma {:induction false} LineIsCollected(c: Config, m: Machine, line: string)
    requires Inside(m) && m.nestingLevel + Nests(m.currentBlock.value.fence, line) > 0
    ensures ProcessLine(c, m, line) == Collected(m, line, m.nestingLevel + Nests(m.currentBlock.value.fence, line))
  {
    hide MatchFence, Tag;
  }

  lemma {:induction false} LinesAreCollected(c: Config, m: Machine, lines: seq<string>)
    requires Inside(m) && StaysOpen(m.currentBlock.value.fence, m.nestingLevel, lines)
    ensures m.nestingLevel + Depth(m.currentBlock.value.fence, lines) > 0
    ensures ProcessLines(c, m, lines)
         == Collected(m, Concat(lines), m.nestingLevel + Depth(m.currentBlock.value.fence, lines))
    decreases |lines|
  {
    hide ProcessLine, Nests, Tag;
    if lines == [] {
      NothingCollected(m);
    } else {
      var fence := m.currentBlock.value.fence;
      var depth := m.nestingLevel + Nests(fence, lines[0]);
      LineIsCollected(c, m, lines[0]);
      LinesAreCollected(c, Collected(m, lines[0], depth), lines[1..]);
      TagJoin(m.emitted, lines[0], Concat(lines[1..]), CurrentInfo(m));
      Assoc(m.code, lines[0], Concat(lines[1..]));
    }
  }

  lemma {:induction false} NothingCollected(m: Machine)
    ensures Collected(m, "", m.nestingLevel) == m
  {
    assert m.emitted + Tag("", CurrentInfo(m)) == m.emitted && m.code + "" == m.code;
  }

  /** The machine after the block: it has reported everything and the block with its code. */
  function Closed(m: Machine, info: Info, text: string, code: string): Machine {
    m.(state := OutsideCodeBlock, nestingLevel := 0, currentBlock := None, code := "", markdownBeforeBlock := "",
       emitted := m.emitted + Tag(text, Some(info)),
       codeBlocks := m.codeBlocks + [CodeBlock(code, info.resource, info.language, m.markdownBeforeBlock)])
  }

  lemma {:induction false} BodyIsReported(c: Config, m: Machine, inner: seq<string>, last: string)
    requires Inside(m) && StaysOpen(m.currentBlock.value.fence, m.nestingLevel, inner)
    requires m.nestingLevel + Depth(m.currentBlock.value.fence, inner) == 1
    requires Spells(last, m.currentBlock.value.fence, "")
    ensures ProcessLines(c, m, inner + [last])
         == Closed(m, m.currentBlock.value.info, Concat(inner + [last]), m.code + Concat(inner))
  {
    hide Nests, Spells, MatchFence, Tag, Concat;
    var text := Concat(inner);
    LinesAreCollected(c, m, inner);
    ProcessLinesPush(c, m, inner, last);
    ConcatPush(inner, last);
    FenceIsSpelled(last, m.currentBlock.value.fence, "");
    TagJoin(m.emitted, text, last, Some(m.currentBlock.value.info));
  }

  // ---- From the opening fence on ----

  lemma {:induction false} BlockBegins(c: Config, m: Machine, lines: seq<string>)
    requires m.state == LineAfterFence && m.currentBlock.Some? && lines != []
    requires var language := m.currentBlock.value.info.language; BodyOf(c, language, lines) != []
    ensures var block := m.currentBlock.value;
      var language := block.info.language;
      var info := block.info.(resource := ResourceOf(c, language, block.info.resource, lines));
      ProcessLines(c, m, lines)
      == ProcessLines(c, m.(state := InCodeBlock, currentBlock := Some(block.(info := info)),
                            emitted := m.emitted + Tag(block.firstLine, Some(info))),
             BodyOf(c, language, lines))
  {
    hide ProcessContent, Tag;
    if |lines| >= 2 {
      assert lines[1..][1..] == lines[2..] && lines[1..][0] == lines[1];
    }
  }

  lemma {:induction false} OpensBlock(c: Config, m: Machine, first: string, fence: string, language: string)
    requires m.state == OutsideCodeBlock && m.currentBlock.None? && Spells(first, fence, language)
    ensures ProcessLine(c, m, first) == Open(m, first, Fence(fence, language))
  {
    FenceIsSpelled(first, fence, language);
    hide MatchFence, Spells;
  }

  /** What is open once the URI, if any, has been given right behind the opening fence. */
  function Opened(c: Config, m: Machine, first: string, uri: Option<string>): Machine {
    var begun := ProcessLine(c, m, first);
    if uri.Some? then ProcessCodeblockUri(Stream(begun, "", false), uri.value).machine else begun
  }

  /** Outside all blocks, an opening fence, any lines that leave the block open, and a closing fence are
      reported as one block: its code is those lines but for a path line right behind the opening fence and a
      blank line right behind that, its language the word of the opening fence, its resource the URI given or
      else that of the path; and all its text is reported under its number, language and resource. */
  lemma {:induction false} BlockIsReported(c: Config, m: Machine, first: string, fence: string, language: string,
          uri: Option<string>, lines: seq<string>, inner: seq<string>, last: string)
    requires Shape(m) && m.state == OutsideCodeBlock
    requires Spells(first, fence, language) && Spells(last, fence, "")
    requires BodyOf(c, language, lines) == inner + [last]
    requires StaysOpen(fence, 1, inner) && Depth(fence, inner) == 0
    ensures var info := Info(m.index, language, ResourceOf(c, language, uri, lines));
      ProcessLines(c, Opened(c, m, first, uri), lines)
      == m.(index := m.index + 1, markdownBeforeBlock := "",
            nestingLevel := 0,
            emitted := m.emitted + Tag(first + Concat(inner + [last]), Some(info)),
            codeBlocks := m.codeBlocks + [CodeBlock(Concat(inner), info.resource, language, m.markdownBeforeBlock)])
  {
    hide Tag, Concat, Spells, Nests;
    OpensBlock(c, m, first, fence, language);
    var given := Opened(c, m, first, uri);
    BlockBegins(c, given, lines);
    var info := Info(m.index, language, ResourceOf(c, language, uri, lines));
    var inside := given.(state := InCodeBlock, currentBlock := Some(given.currentBlock.value.(info := info)),
        emitted := m.emitted + Tag(first, Some(info)));
    BodyIsReported(c, inside, inner, last);
    TagJoin(m.emitted, first, Concat(inner + [last]), Some(info));
    assert m.code + Concat(inner) == Concat(inner);
  }

  /** A URI given inside a block without a resource is the one the block is reported with; one given later, or
      outside all blocks, changes nothing. */
  lemma {:induction false} UriIsReported(c: Config, s: Stream, uri: string, inner: seq<string>, last: string)
    requires Inside(s.machine) && StaysOpen(s.machine.currentBlock.value.fence, s.machine.nestingLevel, inner)
    requires s.machine.nestingLevel + Depth(s.machine.currentBlock.value.fence, inner) == 1
    requires Spells(last, s.machine.currentBlock.value.fence, "")
    ensures var m, given := s.machine, ProcessCodeblockUri(s, uri);
      var info := m.currentBlock.value.info;
      && given == s.(machine := given.machine) && given.machine.emitted == m.emitted
      && ProcessLines(c, given.machine, inner + [last]).codeBlocks
         == m.codeBlocks + [CodeBlock(m.code + Concat(inner), if info.resource.Some? then info.resource else Some(uri),
                info.language, m.markdownBeforeBlock)]
  {
    hide Tag, Concat, Spells, Nests;
    BodyIsReported(c, ProcessCodeblockUri(s, uri).machine, inner, last);
  }

  lemma {:induction false} UriIsIgnored(s: Stream, uri: string)
    requires s.machine.currentBlock.None? || s.machine.currentBlock.value.info.resource.Some?
    ensures ProcessCodeblockUri(s, uri) == s
  {
  }

  // ---- A flush in the middle of a stream ----

  /** Where nothing is held back, neither a line nor an opening fence, a flush changes nothing: the stream goes on
      in the middle of its line. */
  lemma {:induction false} FlushOfNothing(c: Config, s: Stream)
    requires s.lastIncompleteLine == "" && s.machine.state != LineAfterFence
    ensures Flush(c, s) == s
  {
  }

  /** A second flush reports the opening fence once more if one still waits for its next line, and otherwise
      changes nothing. */
  lemma {:induction false} FlushTwice(c: Config, s: Stream)
    requires Shape(s.machine)
    ensures var once, twice := Flush(c, s), Flush(c, Flush(c, s));
      && once.lastIncompleteLine == "" && once.canEmitIncompleteLine == s.canEmitIncompleteLine
      && (once.machine.state != LineAfterFence ==> twice == once)
      && (once.machine.state == LineAfterFence && once.machine.currentBlock.Some? ==>
            twice == once.(machine := once.machine.(emitted := once.machine.emitted
                + Tag(once.machine.currentBlock.value.firstLine, Some(once.machine.currentBlock.value.info)))))
  {
    hide MatchFence, Tag, ProcessLine;
  }
}
