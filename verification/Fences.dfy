/** What a fence looks like, by its characters, and when a line can still become one. */
module Fences {
  import opened Wrappers

  import opened CodeBlocks
  import opened StreamingIsBatch

  predicate InWord(c: char) {
    'a' <= c <= 'z' || 'A' <= c <= 'Z' || '0' <= c <= '9' || c == '_'
  }

  /** The line begins with this fence, a whole run of three or more backticks or of as many tildes, and then
      with this whole word. */
  predicate Spells(line: string, fence: string, language: string) {
    && |fence| >= 3 && (fence[0] == '`' || fence[0] == '~') && (forall i :: 0 <= i < |fence| ==> fence[i] == fence[0])
    && (forall i :: 0 <= i < |language| ==> InWord(language[i]))
    && fence + language <= line
    && var rest := line[|fence| + |language|..];
       rest != "" ==> !InWord(rest[0]) && (language == "" ==> rest[0] != fence[0])
  }

  lemma {:induction false} RunLengthIs(line: string, c: char, n: nat)
    requires n <= |line| && (forall i :: 0 <= i < n ==> line[i] == c) && (n < |line| ==> line[n] != c)
    ensures RunLength(line, c) == n
    decreases n
  {
    if n > 0 { RunLengthIs(line[1..], c, n - 1); }
  }

  lemma {:induction false} WordPrefixIs(text: string, word: string)
    requires word <= text && (forall i :: 0 <= i < |word| ==> InWord(word[i]))
    requires |word| < |text| ==> !InWord(text[|word|])
    ensures WordPrefix(text) == word
    decreases |word|
  {
    if word != "" {
      WordPrefixIs(text[1..], word[1..]);
      assert word == [word[0]] + word[1..];
    }
  }

  /** The run of a line, and what is behind it. */
  lemma {:induction false} AtRun(line: string, fence: string, language: string)
    requires fence + language <= line
    ensures |fence| <= |line| && line[..|fence|] == fence && language <= line[|fence|..]
    ensures line[|fence| + |language|..] == line[|fence|..][|language|..]
    ensures |fence| < |line| ==> line[|fence|] == line[|fence|..][0]
  {
    assert (fence + language)[..|fence|] == fence && (fence + language)[|fence|..] == language;
    assert line[..|fence|] == line[..|fence + language|][..|fence|];
    assert line[|fence|..][..|language|] == line[..|fence + language|][|fence|..];
  }

  lemma {:induction false} SpelledIsMatched(line: string, fence: string, language: string)
    requires Spells(line, fence, language)
    ensures MatchFence(line) == Some(Fence(fence, language))
  {
    AtRun(line, fence, language);
    var rest := line[|fence|..];
    hide WordPrefix, RunLength;
    assert forall i :: 0 <= i < |fence| ==> line[i] == fence[i];
    assert language != "" ==> rest[0] == language[0];
    RunLengthIs(line, fence[0], |fence|);
    WordPrefixIs(rest, language);
  }

  lemma {:induction false} MatchedIsSpelled(line: string)
    requires MatchFence(line).Some?
    ensures Spells(line, MatchFence(line).value.fence, MatchFence(line).value.language)
  {
    var n := RunLength(line, line[0]);
    var fence, language, rest := line[..n], WordPrefix(line[n..]), line[n..];
    assert fence + language == line[..n + |language|];
    assert line[n + |language|..] == rest[|language|..];
    assert n < |line| ==> line[n] == rest[0];
  }

  /** A line is matched as a fence with this run and this language exactly when it begins with them. */
  lemma {:induction false} FenceIsSpelled(line: string, fence: string, language: string)
    ensures MatchFence(line) == Some(Fence(fence, language)) <==> Spells(line, fence, language)
  {
    hide MatchFence, Spells;
    if Spells(line, fence, language) { SpelledIsMatched(line, fence, language); }
    if MatchFence(line).Some? { MatchedIsSpelled(line); }
  }

  /** It is matched as none exactly when it begins with no three equal backticks or tildes. */
  lemma {:induction false} NoFenceIsSpelled(line: string)
    ensures MatchFence(line).None?
       <==> !(|line| >= 3 && (line[0] == '`' || line[0] == '~') && line[1] == line[0] && line[2] == line[0])
  {
    FenceStart(line);
  }

  /** A line might be a fence exactly when more text can make it one. */
  lemma {:induction false} MightBecomeFence(line: string)
    ensures MightBeFence(line) <==> exists more: string :: MatchFence(line + more).Some?
  {
    if MightBeFence(line) {
      var c := if line == "" then '`' else line[0];
      FenceStart(line + [c, c, c]);
      assert MatchFence(line + [c, c, c]).Some?;
    }
    if more: string :| MatchFence(line + more).Some? {
      FenceStart(line + more);
    }
  }

  /** In ordinary text the end of a call is held back only if more text can make it a fence. */
  ghost predicate HeldForAReason(s: Stream) {
    s.lastIncompleteLine != "" && InText(s.machine) ==>
      exists more: string :: MatchFence(s.lastIncompleteLine + more).Some?
  }

  lemma {:induction false} IncompleteHeldForAReason(m: Machine, last: string)
    ensures HeldForAReason(ProcessIncomplete(m, last))
  {
    hide MatchFence, MightBeFence, Tag;
    MightBecomeFence(last);
  }

  lemma {:induction false} CallHoldsForAReason(c: Config, s: Stream, text: string)
    requires HeldForAReason(s)
    ensures HeldForAReason(ProcessMarkdown(c, s, text))
  {
    if text != "" {
      hide HeldForAReason, SplitLines, ProcessIncomplete, ProcessComplete;
      var split := SplitLines(text);
      var lines := [s.lastIncompleteLine + split[0]] + split[1..];
      var last := lines[|lines| - 1];
      IncompleteHeldForAReason(ProcessComplete(c, s, lines), "");
      IncompleteHeldForAReason(ProcessComplete(c, s, lines[..|lines| - 1]), last);
    }
  }

  lemma {:induction false} AlwaysHeldForAReason(c: Config, s: Stream, chunks: seq<string>)
    requires HeldForAReason(s)
    ensures HeldForAReason(ProcessChunks(c, s, chunks))
    decreases |chunks|
  {
    hide HeldForAReason, ProcessMarkdown;
    if chunks != [] {
      CallHoldsForAReason(c, s, chunks[0]);
      AlwaysHeldForAReason(c, ProcessMarkdown(c, s, chunks[0]), chunks[1..]);
    }
  }

  /** For every chunking: what is ordinary text, and can be nothing else, has been reported when a call ends. */
  lemma {:induction false} TextIsReportedAtOnce(c: Config, chunks: seq<string>)
    ensures HeldForAReason(ProcessChunks(c, START, chunks))
  {
    hide ProcessChunks;
    AlwaysHeldForAReason(c, START, chunks);
  }
}
