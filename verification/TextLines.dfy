/** Texts as lines: a line ends with a line feed, a carriage return, or the two together. */
module TextLines {
  import opened CodeBlocks

  predicate Unbroken(text: string) { forall i :: 0 <= i < |text| ==> text[i] != '\n' && text[i] != '\r' }

  predicate EndsWithBreak(line: string) {
    |line| > 0 && (line[|line| - 1] == '\n' || line[|line| - 1] == '\r')
  }

  predicate EndsWithReturn(text: string) { |text| > 0 && text[|text| - 1] == '\r' }

  predicate StartsWithFeed(text: string) { |text| > 0 && text[0] == '\n' }

  /** How many characters end the line. */
  function EndLength(line: string): (n: nat)
    requires |line| > 0
    ensures 1 <= n <= |line|
  {
    if |line| > 1 && line[|line| - 1] == '\n' && line[|line| - 2] == '\r' then 2 else 1
  }

  /** A line end at the end and nowhere else. */
  predicate IsFullLine(line: string) {
    EndsWithBreak(line) && Unbroken(line[..|line| - EndLength(line)])
  }

  /** Full lines, none of which shares its line end with the next. */
  ghost predicate AreFullLines(lines: seq<string>) {
    && (forall i :: 0 <= i < |lines| ==> IsFullLine(lines[i]))
    && (forall i, j :: 0 <= i < j < |lines| && j == i + 1 ==> !(EndsWithReturn(lines[i]) && StartsWithFeed(lines[j])))
  }

  lemma {:induction false} SplitFirstLine(head: string, rest: string)
    requires IsFullLine(head) && !(EndsWithReturn(head) && StartsWithFeed(rest))
    ensures SplitLines(head + rest) == [head] + SplitLines(rest)
  {
    var text, at := head + rest, |head| - EndLength(head);
    assert forall k :: 0 <= k < at ==> text[k] == head[..at][k];
    assert IsLineDelimiter(text[at]);
    assert FirstDelimiter(text) == at;
    assert text[..|head|] == head && text[|head|..] == rest;
  }

  lemma {:induction false} StartOfConcat(lines: seq<string>, rest: string)
    requires Unbroken(rest) && forall i :: 0 <= i < |lines| ==> IsFullLine(lines[i])
    ensures StartsWithFeed(Concat(lines) + rest) <==> lines != [] && StartsWithFeed(lines[0])
  {
    if lines == [] {
      assert Concat(lines) + rest == rest;
    } else {
      assert (Concat(lines) + rest)[0] == lines[0][0];
    }
  }

  /** Splitting finds exactly the full lines and the unbroken rest. */
  lemma {:induction false} SplitFullLines(lines: seq<string>, rest: string)
    requires AreFullLines(lines) && Unbroken(rest)
    ensures SplitLines(Concat(lines) + rest) == lines + [rest]
    decreases |lines|
  {
    if lines == [] {
      assert Concat(lines) + rest == rest;
      assert FirstDelimiter(rest) == |rest|;
    } else {
      hide SplitLines, IsFullLine;
      var head, tail := lines[0], Concat(lines[1..]) + rest;
      assert Concat(lines) + rest == head + tail;
      StartOfConcat(lines[1..], rest);
      SplitFirstLine(head, tail);
      SplitFullLines(lines[1..], rest);
      Assoc([head], lines[1..], [rest]);
      assert [head] + lines[1..] == lines;
    }
  }

  /** Every text consists of full lines and an unbroken rest. */
  lemma {:induction false} LinesOf(text: string) returns (lines: seq<string>, rest: string)
    ensures AreFullLines(lines) && Unbroken(rest) && text == Concat(lines) + rest
    decreases |text|
  {
    var i := FirstDelimiter(text);
    if i == |text| {
      lines, rest := [], text;
      assert Concat(lines) + rest == rest;
    } else {
      var end := if text[i] == '\r' && i + 1 < |text| && text[i + 1] == '\n' then i + 2 else i + 1;
      var head, tail := text[..end], text[end..];
      assert text == head + tail;
      FullLineAt(text, i, end);
      lines, rest := LinesOf(tail);
      StartOfConcat(lines, rest);
      FullLinesPush(head, lines);
      assert Concat([head] + lines) == head + Concat(lines) by { assert ([head] + lines)[1..] == lines; }
      Assoc(head, Concat(lines), rest);
      lines := [head] + lines;
    }
  }

  lemma {:induction false} FullLineAt(text: string, i: nat, end: nat)
    requires i == FirstDelimiter(text) < |text|
    requires end == if text[i] == '\r' && i + 1 < |text| && text[i + 1] == '\n' then i + 2 else i + 1
    ensures IsFullLine(text[..end]) && !(EndsWithReturn(text[..end]) && StartsWithFeed(text[end..]))
  {
    var head := text[..end];
    assert head[..|head| - EndLength(head)] == text[..|head| - EndLength(head)];
  }

  lemma {:induction false} FullLinesPush(head: string, lines: seq<string>)
    requires IsFullLine(head) && AreFullLines(lines)
    requires lines != [] ==> !(EndsWithReturn(head) && StartsWithFeed(lines[0]))
    ensures AreFullLines([head] + lines)
  {
    hide IsFullLine;
    var all := [head] + lines;
    forall i | 0 < i < |all| ensures all[i] == lines[i - 1] {
    }
  }

  lemma {:induction false} LineFeedAlone()
    ensures IsFullLine("\n")
  {
  }

  /** Putting unbroken text in front of a full line. */
  lemma {:induction false} LongerLine(part: string, line: string)
    requires Unbroken(part) && IsFullLine(line)
    ensures IsFullLine(part + line) && (EndsWithReturn(part + line) <==> EndsWithReturn(line))
    ensures StartsWithFeed(part + line) ==> part == ""
  {
    var long := part + line;
    if |line| == 1 && |part| > 0 {
      assert long[|long| - 2] == part[|part| - 1];
    }
    assert long[..|long| - EndLength(long)] == part + line[..|line| - EndLength(line)];
  }

  lemma {:induction false} ConcatJoin(a: seq<string>, b: seq<string>)
    ensures Concat(a + b) == Concat(a) + Concat(b)
    decreases |a|
  {
    if a == [] {
      assert a + b == b;
    } else {
      ConcatJoin(a[1..], b);
      assert (a + b)[1..] == a[1..] + b;
      Assoc(a[0], Concat(a[1..]), Concat(b));
    }
  }

  /** The text ends as its last line does. */
  lemma {:induction false} EndOfConcat(lines: seq<string>)
    requires AreFullLines(lines)
    ensures EndsWithReturn(Concat(lines)) <==> lines != [] && EndsWithReturn(lines[|lines| - 1])
    ensures lines != [] ==> EndsWithLineDelimiter(Concat(lines))
  {
    if lines != [] {
      var init, last := lines[..|lines| - 1], lines[|lines| - 1];
      assert lines == init + [last];
      ConcatPush(init, last);
      var text := Concat(init) + last;
      assert text[|text| - 1] == last[|last| - 1];
    }
  }
}
