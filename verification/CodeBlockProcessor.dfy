/** The class of copilot-fork/src/extension/codeBlocks/node/codeBlockProcessor.ts, with the lists it
    collects code and text in, proved against the line machine. */
module CodeBlockProcessor {
  import opened Wrappers

  import opened CodeBlocks
  import opened CodeBlockInvariants
  import opened CodeBlockReports

  /** One call of the callback that receives markdown. */
  datatype Emission = Emission(text: string, info: Option<Info>)

  function Flatten(emissions: seq<Emission>): Reported {
    if emissions == [] then []
    else
      var last := emissions[|emissions| - 1];
      Flatten(emissions[..|emissions| - 1]) + Tag(last.text, last.info)
  }

  lemma {:induction false} FlattenPush(emissions: seq<Emission>, last: Emission)
    ensures Flatten(emissions + [last]) == Flatten(emissions) + Tag(last.text, last.info)
  {
    assert (emissions + [last])[..|emissions|] == emissions;
  }

  lemma {:induction false} OpenBlockIsSet(m: Machine)
    requires Invariant(m) && m.state == LineAfterFence
    ensures m.currentBlock.Some?
  {
  }

  class CodeBlockProcessor {
    const config: Config
    /** The empty string stands for no incomplete line. */
    var lastIncompleteLine: string
    var canEmitIncompleteLine: bool
    var currentBlock: Option<Block>
    var code: seq<string>
    var markdownBeforeBlock: seq<string>
    var nestingLevel: nat
    var index: nat
    var state: State
    var emissions: seq<Emission>
    var codeBlocks: seq<CodeBlock>

    ghost function LineMachine(): Machine
      reads this
    {
      Machine(state, nestingLevel, currentBlock, index, Concat(code), Concat(markdownBeforeBlock), Flatten(emissions),
          codeBlocks)
    }

    ghost function AsStream(): Stream
      reads this
    {
      Stream(LineMachine(), lastIncompleteLine, canEmitIncompleteLine)
    }

    ghost predicate Valid()
      reads this
    {
      StreamInvariant(AsStream())
    }

    constructor (config: Config)
      ensures this.config == config && AsStream() == START && Valid()
    {
      this.config := config;
      lastIncompleteLine := "";
      canEmitIncompleteLine := false;
      currentBlock := None;
      code := [];
      markdownBeforeBlock := [];
      nestingLevel := 0;
      index := 0;
      state := OutsideCodeBlock;
      emissions := [];
      codeBlocks := [];
      new;
      InitialInvariant();
    }

    method EmitMarkdown(text: string, info: Option<Info>)
      modifies this`emissions
      ensures LineMachine() == Emit(old(LineMachine()), text, info)
    {
      FlattenPush(emissions, Emission(text, info));
      emissions := emissions + [Emission(text, info)];
    }

    method ProcessLinePart(incompleteLine: string)
      modifies this`code, this`markdownBeforeBlock, this`emissions
      ensures LineMachine() == Add(old(LineMachine()), incompleteLine)
    {
      if currentBlock.Some? {
        ConcatPush(code, incompleteLine);
        code := code + [incompleteLine];
        EmitMarkdown(incompleteLine, Some(currentBlock.value.info));
      } else {
        ConcatPush(markdownBeforeBlock, incompleteLine);
        markdownBeforeBlock := markdownBeforeBlock + [incompleteLine];
        EmitMarkdown(incompleteLine, None);
      }
    }

    method ProcessCodeblockUri(uri: string)
      requires Valid()
      modifies this`currentBlock
      ensures Valid()
      ensures AsStream() == CodeBlocks.ProcessCodeblockUri(old(AsStream()), uri)
    {
      hide Invariant;
      ResourceKeepsInvariant(LineMachine(), Some(uri));
      if currentBlock.Some? && currentBlock.value.info.resource.None? {
        var block := currentBlock.value;
        currentBlock := Some(block.(info := block.info.(resource := Some(uri))));
      }
    }

    method ProcessLine(line: string)
      requires Invariant(LineMachine())
      modifies this`currentBlock, this`code, this`markdownBeforeBlock, this`nestingLevel, this`index, this`state,
               this`emissions, this`codeBlocks
      ensures LineMachine() == CodeBlocks.ProcessLine(config, old(LineMachine()), line)
      ensures Invariant(LineMachine())
    {
      hide Invariant, MatchFence, Concat, Flatten, Tag;
      ghost var before := LineMachine();
      LineKeepsInvariant(config, before, line);
      if state == LineAfterFence {
        OpenBlockIsSet(before);
        var codeBlock := currentBlock.value;
        var filePath := config.getFilePath(line, codeBlock.info.language);
        if filePath.Some? {
          if codeBlock.info.resource.None? {
            codeBlock := codeBlock.(info := codeBlock.info.(resource := config.resolveCodeblockPath(filePath.value)));
            currentBlock := Some(codeBlock);
          }
          state := LineAfterFilePath;
          EmitMarkdown(codeBlock.firstLine, Some(codeBlock.info));
          return;
        } else {
          state := InCodeBlock;
          EmitMarkdown(codeBlock.firstLine, Some(codeBlock.info));
        }
      } else if state == LineAfterFilePath {
        state := InCodeBlock;
        if config.isBlank(line) {
          return;
        }
      }
      assert CodeBlocks.ProcessLine(config, before, line) == ProcessContent(LineMachine(), line);
      ProcessLineContent(line);
    }

    /** The rest of the method above, from the match against the fence expression on. */
    method ProcessLineContent(line: string)
      modifies this`currentBlock, this`code, this`markdownBeforeBlock, this`nestingLevel, this`index, this`state,
               this`emissions, this`codeBlocks
      ensures LineMachine() == ProcessContent(old(LineMachine()), line)
    {
      hide MatchFence, Flatten, Tag;
      var fenceLanguageIdMatch := MatchFence(line);
      if fenceLanguageIdMatch.Some? {
        var fence, language := fenceLanguageIdMatch.value.fence, fenceLanguageIdMatch.value.language;
        if currentBlock.None? {
          nestingLevel := 1;
          currentBlock := Some(Block(Info(index, language, None), fence, line));
          index := index + 1;
          state := LineAfterFence;
          return;
        }
        if fence == currentBlock.value.fence {
          if language != "" {
            nestingLevel := nestingLevel + 1;
          } else if nestingLevel > 1 {
            nestingLevel := nestingLevel - 1;
          } else {
            var info := currentBlock.value.info;
            EmitMarkdown(line, Some(info));
            var reported := CodeBlock(Concat(code), info.resource, info.language, Concat(markdownBeforeBlock));
            codeBlocks := codeBlocks + [reported];
            code := [];
            markdownBeforeBlock := [];
            currentBlock := None;
            nestingLevel := 0;
            state := OutsideCodeBlock;
            return;
          }
        }
      }
      ProcessLinePart(line);
    }

    /** The middle of the method below. */
    method ProcessCompleteLines(lines: seq<string>)
      requires Invariant(LineMachine())
      requires canEmitIncompleteLine ==> InText(LineMachine())
      modifies this`currentBlock, this`code, this`markdownBeforeBlock, this`nestingLevel, this`index, this`state,
               this`emissions, this`codeBlocks
      ensures LineMachine() == ProcessComplete(config, old(AsStream()), lines)
    {
      hide Invariant, MatchFence, Concat, Flatten, Tag, CodeBlocks.ProcessLine, Add;
      ghost var target := ProcessComplete(config, AsStream(), lines);
      var i := 0;
      if i < |lines| && canEmitIncompleteLine {
        AddKeepsInvariant(LineMachine(), lines[0]);
        ProcessLinePart(lines[0]);
        i := i + 1;
      }
      assert ProcessLines(config, LineMachine(), lines[i..]) == target;
      while i < |lines|
        invariant i <= |lines|
        invariant Invariant(LineMachine())
        invariant ProcessLines(config, LineMachine(), lines[i..]) == target
      {
        assert lines[i..][1..] == lines[i + 1..];
        ProcessLine(lines[i]);
        i := i + 1;
      }
    }

    method ProcessMarkdown(text: string)
      requires Valid()
      modifies this
      ensures Valid()
      ensures AsStream() == CodeBlocks.ProcessMarkdown(config, old(AsStream()), text)
    {
      hide Invariant, MatchFence, Concat, Flatten, Tag, SplitLines, MightBeFence, CodeBlocks.ProcessLine, Add;
      hide AllFenced, OpenedByFullLine;
      if |text| == 0 {
        return;
      }
      ghost var before := AsStream();
      CallKeepsInvariant(config, before, text);
      var lines := SplitLines(text);
      ghost var split := lines;
      if lastIncompleteLine != "" {
        lines := lines[0 := lastIncompleteLine + lines[0]];
      }
      assert before.lastIncompleteLine == "" ==> before.lastIncompleteLine + split[0] == split[0];
      assert lines == [before.lastIncompleteLine + split[0]] + split[1..];
      if !EndsWithLineDelimiter(lines[|lines| - 1]) {
        lastIncompleteLine := lines[|lines| - 1];
        lines := lines[..|lines| - 1];
      } else {
        lastIncompleteLine := "";
      }
      ProcessCompleteLines(lines);
      if lastIncompleteLine != "" && !RequiresFullLine(state, lastIncompleteLine) {
        ProcessLinePart(lastIncompleteLine);
        lastIncompleteLine := "";
        canEmitIncompleteLine := true;
      } else {
        canEmitIncompleteLine := false;
      }
    }

    method Flush()
      requires Valid()
      modifies this
      ensures AsStream() == CodeBlocks.Flush(config, old(AsStream()))
      ensures Settled(LineMachine()) && AllFenced(LineMachine()) && OpenedByLine(LineMachine())
    {
      hide Invariant, Settled, MatchFence, Concat, Flatten, Tag, CodeBlocks.ProcessLine;
      hide AllFenced, OpenedByLine, OpenedByFullLine;
      FlushedBlocks(config, LineMachine(), lastIncompleteLine);
      if lastIncompleteLine != "" {
        ProcessLine(lastIncompleteLine);
        lastIncompleteLine := "";
      }
      if state == LineAfterFence && currentBlock.Some? {
        EmitMarkdown(currentBlock.value.firstLine, Some(currentBlock.value.info));
      }
    }
  }
}
