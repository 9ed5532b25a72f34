/** The repetition detector of copilot-fork/src/util/common/anomalyDetection.ts. */
module RepetitionDetector {
  import opened Sequences

  datatype RepetitionConfig = RepetitionConfig(maxTokenSequenceLength: nat, lastTokensToConsider: nat)

  const CONFIGS := [
    RepetitionConfig(1, 10),
    RepetitionConfig(10, 30),
    RepetitionConfig(20, 45),
    RepetitionConfig(30, 60),
    RepetitionConfig(60, 120)]

  /** Each element equals the one p before it. */
  ghost predicate HasPeriod<T(!new)>(s: seq<T>, p: nat) {
    forall i :: p <= i < |s| ==> s[i] == s[i - p]
  }

  /** The pattern over and over, the last time possibly cut short. */
  function Repeated<T>(pattern: seq<T>, length: nat): (r: seq<T>)
    requires pattern != []
    ensures |r| == length
  {
    if length <= |pattern| then pattern[..length] else pattern + Repeated(pattern, length - |pattern|)
  }

  ghost predicate Repeats<T(!new)>(s: seq<T>, longest: nat) {
    exists p: nat :: 1 <= p <= longest && HasPeriod(s, p)
  }

  /** The last n tokens repeat a pattern of at most `longest` tokens. */
  ghost predicate EndsRepeating<T(!new)>(tokens: seq<T>, n: nat, longest: nat) {
    n <= |tokens| && Repeats(tokens[|tokens| - n..], longest)
  }

  ghost predicate EndsInPattern<T(!new)>(tokens: seq<T>) {
    || EndsRepeating(tokens, 10, 1)
    || EndsRepeating(tokens, 30, 10)
    || EndsRepeating(tokens, 45, 20)
    || EndsRepeating(tokens, 60, 30)
    || EndsRepeating(tokens, 120, 60)
  }

  // ---- Periods ----

  /** A period is the length of a repeated pattern. */
  lemma {:induction false} PeriodIsPattern<T(!new)>(s: seq<T>, p: nat)
    requires 1 <= p <= |s|
    ensures HasPeriod(s, p) <==> exists pattern: seq<T> :: |pattern| == p && s == Repeated(pattern, |s|)
  {
    if HasPeriod(s, p) {
      PeriodRepeats(s, p);
      assert |s[..p]| == p && s == Repeated(s[..p], |s|);
    }
    if pattern: seq<T> :| |pattern| == p && s == Repeated(pattern, |s|) {
      RepeatedHasPeriod(pattern, |s|);
    }
  }

  lemma {:induction false} PeriodRepeats<T(!new)>(s: seq<T>, p: nat)
    requires 1 <= p <= |s| && HasPeriod(s, p)
    ensures s == Repeated(s[..p], |s|)
    decreases |s|
  {
    if |s| > p {
      var rest := s[p..];
      assert s == s[..p] + rest;
      if |rest| <= p {
        assert rest == s[..p][..|rest|];
      } else {
        PeriodRepeats(rest, p);
        assert rest[..p] == s[..p];
      }
    }
  }

  lemma {:induction false} RepeatedHasPeriod<T(!new)>(pattern: seq<T>, length: nat)
    requires pattern != []
    ensures HasPeriod(Repeated(pattern, length), |pattern|)
    decreases length
  {
    if length > |pattern| {
      RepeatedHasPeriod(pattern, length - |pattern|);
      var s, rest := Repeated(pattern, length), Repeated(pattern, length - |pattern|);
      forall i | |pattern| <= i < length ensures s[i] == s[i - |pattern|] {
        assert s[i] == rest[i - |pattern|];
        if i - |pattern| >= |pattern| {
          assert s[i - |pattern|] == rest[i - |pattern| - |pattern|];
        }
      }
    }
  }

  // ---- The prefix function ----

  /** s[..q + 1] begins with its own last k + 1 elements, and is longer. */
  ghost predicate Border<T(!new)>(s: seq<T>, q: nat, k: int) {
    -1 <= k < q < |s| && forall i :: 0 <= i <= k ==> s[i] == s[q - k + i]
  }

  ghost predicate LongestBorder<T(!new)>(s: seq<T>, q: nat, k: int) {
    Border(s, q, k) && forall j :: k < j < q ==> !Border(s, q, j)
  }

  lemma {:induction false} BorderGrows<T(!new)>(s: seq<T>, q: nat, k: int)
    requires 1 <= q < |s| && -1 <= k < q - 1
    ensures Border(s, q, k + 1) <==> (Border(s, q - 1, k) && s[k + 1] == s[q])
  {
    if Border(s, q, k + 1) {
      assert s[k + 1] == s[q - (k + 1) + (k + 1)];
      forall i | 0 <= i <= k ensures s[i] == s[q - 1 - k + i] {
        assert s[i] == s[q - (k + 1) + i];
      }
    }
    if Border(s, q - 1, k) && s[k + 1] == s[q] {
      forall i | 0 <= i <= k + 1 ensures s[i] == s[q - (k + 1) + i] {
        if i <= k { assert s[i] == s[q - 1 - k + i]; }
      }
    }
  }

  lemma {:induction false} BorderOfBorder<T(!new)>(s: seq<T>, q: nat, k: nat, j: int)
    requires Border(s, q, k) && -1 <= j < k
    ensures Border(s, q, j) <==> Border(s, k, j)
  {
    if Border(s, q, j) {
      forall i | 0 <= i <= j ensures s[i] == s[k - j + i] {
        assert s[k - j + i] == s[q - k + (k - j + i)];
      }
    }
    if Border(s, k, j) {
      forall i | 0 <= i <= j ensures s[i] == s[q - j + i] {
        assert s[k - j + i] == s[q - k + (k - j + i)];
      }
    }
  }

  lemma {:induction false} LongerFails<T(!new)>(s: seq<T>, q: nat, k: int)
    requires 1 <= q < |s| && LongestBorder(s, q - 1, k)
    ensures forall j :: k + 1 < j < q ==> !Border(s, q, j)
  {
    forall j | k + 1 < j < q ensures !Border(s, q, j) {
      BorderGrows(s, q, j - 1);
    }
  }

  /** The values written: the longest border of every prefix; and the two loops together take at most
      two rounds for each element. */
  method KmpPrefixFunction<T(==, !new)>(s: seq<T>) returns (pi: array<int>, ghost rounds: nat)
    ensures pi.Length >= |s| && pi.Length >= 1 && pi[0] == -1
    ensures forall q :: 0 <= q < |s| ==> LongestBorder(s, q, pi[q])
    ensures rounds <= 2 * |s|
  {
    pi := new int[if |s| == 0 then 1 else |s|](_ => 0);
    pi[0] := -1;
    var k := -1;
    rounds := 0;
    var q := 1;
    while q < |s|
      invariant 1 <= q && (q <= |s| || q == 1)
      invariant pi[0] == -1
      invariant forall r :: 0 <= r < q && r < |s| ==> LongestBorder(s, r, pi[r])
      invariant |s| > 0 ==> k == pi[q - 1]
      invariant -1 <= k && rounds + k + 1 <= 2 * (q - 1)
    {
      LongerFails(s, q, k);
      while k >= 0 && s[k + 1] != s[q]
        modifies {}
        invariant Border(s, q - 1, k)
        invariant forall j :: k + 1 < j < q ==> !Border(s, q, j)
        invariant rounds + k + 1 <= 2 * (q - 1)
        decreases k
      {
        NextBorder(s, q, k, pi[k]);
        k := pi[k];
        rounds := rounds + 1;
      }
      BorderGrows(s, q, k);
      if s[k + 1] == s[q] {
        k := k + 1;
      }
      pi[q] := k;
      rounds := rounds + 1;
      q := q + 1;
    }
  }

  lemma {:induction false} NextBorder<T(!new)>(s: seq<T>, q: nat, k: nat, next: int)
    requires 1 <= q < |s| && Border(s, q - 1, k) && s[k + 1] != s[q]
    requires LongestBorder(s, k, next)
    requires forall j :: k + 1 < j < q ==> !Border(s, q, j)
    ensures Border(s, q - 1, next)
    ensures forall j :: next + 1 < j < q ==> !Border(s, q, j)
  {
    BorderOfBorder(s, q - 1, k, next);
    forall j | next + 1 < j < q ensures !Border(s, q, j) {
      if j <= k + 1 {
        BorderGrows(s, q, j - 1);
        if j <= k { BorderOfBorder(s, q - 1, k, j - 1); }
      }
    }
  }

  lemma {:induction false} BorderIsPeriod<T(!new)>(s: seq<T>, n: nat, k: int)
    requires 1 <= n <= |s| && -1 <= k < n - 1
    ensures Border(s, n - 1, k) <==> HasPeriod(s[..n], n - 1 - k)
  {
    var p := n - 1 - k;
    if Border(s, n - 1, k) {
      forall i | p <= i < n ensures s[..n][i] == s[..n][i - p] {
        assert s[i - p] == s[n - 1 - k + (i - p)];
      }
    }
    if HasPeriod(s[..n], p) {
      forall i | 0 <= i <= k ensures s[i] == s[n - 1 - k + i] {
        assert s[..n][i + p] == s[..n][i + p - p];
      }
    }
  }

  /** What the prefix function gives at the end of a stretch is the least period of the stretch. */
  lemma {:induction false} PatternLengthIsLeastPeriod<T(!new)>(s: seq<T>, n: nat, k: int)
    requires 1 <= n <= |s| && LongestBorder(s, n - 1, k)
    ensures 1 <= n - 1 - k <= n && HasPeriod(s[..n], n - 1 - k)
    ensures forall p: nat :: 1 <= p < n - 1 - k ==> !HasPeriod(s[..n], p)
  {
    BorderIsPeriod(s, n, k);
    forall p: nat | 1 <= p < n - 1 - k ensures !HasPeriod(s[..n], p) {
      BorderIsPeriod(s, n, n - 1 - p);
      assert !Border(s, n - 1, n - 1 - p);
    }
  }

  // ---- The detector ----

  /** The first n elements repeat a pattern of at most `longest` elements. */
  ghost predicate StartsRepeating<T(!new)>(s: seq<T>, n: nat, longest: nat) {
    n <= |s| && Repeats(s[..n], longest)
  }

  ghost predicate StartsWithPattern<T(!new)>(s: seq<T>) {
    || StartsRepeating(s, 10, 1)
    || StartsRepeating(s, 30, 10)
    || StartsRepeating(s, 45, 20)
    || StartsRepeating(s, 60, 30)
    || StartsRepeating(s, 120, 60)
  }

  ghost predicate Fits<T(!new)>(s: seq<T>, config: RepetitionConfig) {
    StartsRepeating(s, config.lastTokensToConsider, config.maxTokenSequenceLength)
  }

  lemma {:induction false} TableWrittenOut<T(!new)>(s: seq<T>)
    ensures StartsWithPattern(s) <==> exists c :: 0 <= c < |CONFIGS| && Fits(s, CONFIGS[c])
  {
    hide StartsRepeating;
    assert StartsRepeating(s, 10, 1) == Fits(s, CONFIGS[0]) && StartsRepeating(s, 30, 10) == Fits(s, CONFIGS[1]);
    assert StartsRepeating(s, 45, 20) == Fits(s, CONFIGS[2]) && StartsRepeating(s, 60, 30) == Fits(s, CONFIGS[3]);
    assert StartsRepeating(s, 120, 60) == Fits(s, CONFIGS[4]);
  }

  method IsRepeatedPattern<T(==, !new)>(s: seq<T>) returns (repeated: bool)
    ensures repeated <==> StartsWithPattern(s)
  {
    var prefix, _ := KmpPrefixFunction(s);
    TableWrittenOut(s);
    var c := 0;
    while c < |CONFIGS|
      modifies {}
      invariant 0 <= c <= |CONFIGS|
      invariant forall b :: 0 <= b < c ==> !Fits(s, CONFIGS[b])
    {
      var config := CONFIGS[c];
      if |s| >= config.lastTokensToConsider {
        var patternLength := config.lastTokensToConsider - 1 - prefix[config.lastTokensToConsider - 1];
        PatternLengthIsLeastPeriod(s, config.lastTokensToConsider, prefix[config.lastTokensToConsider - 1]);
        if patternLength <= config.maxTokenSequenceLength {
          assert Fits(s, CONFIGS[c]);
          return true;
        }
      }
      c := c + 1;
    }
    return false;
  }

  function WithoutBlanks<T>(tokens: seq<T>, isBlank: T -> bool): (r: seq<T>) {
    if tokens == [] then []
    else (if isBlank(tokens[0]) then [] else [tokens[0]]) + WithoutBlanks(tokens[1..], isBlank)
  }

  lemma {:induction false} WithoutBlanksPush<T>(tokens: seq<T>, last: T, isBlank: T -> bool)
    ensures WithoutBlanks(tokens + [last], isBlank) == WithoutBlanks(tokens, isBlank)
        + if isBlank(last) then [] else [last]
  {
    if tokens == [] {
      assert [last][1..] == [];
    } else {
      assert (tokens + [last])[1..] == tokens[1..] + [last];
      WithoutBlanksPush(tokens[1..], last, isBlank);
    }
  }

  lemma {:induction false} WithoutBlanksReversed<T>(tokens: seq<T>, isBlank: T -> bool)
    ensures WithoutBlanks(Rev(tokens), isBlank) == Rev(WithoutBlanks(tokens, isBlank))
  {
    if tokens != [] {
      assert Rev(tokens) == Rev(tokens[1..]) + [tokens[0]];
      WithoutBlanksPush(Rev(tokens[1..]), tokens[0], isBlank);
      WithoutBlanksReversed(tokens[1..], isBlank);
    }
  }

  /** The tokens that are not blank, in their order: there are places for all of them and no others. */
  lemma {:induction false} WithoutBlanksIs<T>(tokens: seq<T>, isBlank: T -> bool) returns (places: seq<nat>)
    ensures |places| == |WithoutBlanks(tokens, isBlank)|
    ensures forall i, j :: 0 <= i < j < |places| ==> places[i] < places[j]
    ensures forall i :: 0 <= i < |places| ==>
        places[i] < |tokens| && WithoutBlanks(tokens, isBlank)[i] == tokens[places[i]]
    ensures forall k: nat :: k in places <==> k < |tokens| && !isBlank(tokens[k])
    decreases |tokens|
  {
    if tokens == [] {
      places := [];
    } else {
      var init, last := tokens[..|tokens| - 1], tokens[|tokens| - 1];
      assert tokens == init + [last];
      WithoutBlanksPush(init, last, isBlank);
      places := WithoutBlanksIs(init, isBlank);
      if !isBlank(last) {
        var before := places;
        places := places + [|init|];
        assert forall k: nat :: k in places <==> k in before || k == |init|;
      }
    }
  }

  lemma {:induction false} PeriodReversed<T(!new)>(s: seq<T>, p: nat)
    ensures HasPeriod(Rev(s), p) <==> HasPeriod(s, p)
  {
    var r, n := Rev(s), |s|;
    if HasPeriod(s, p) {
      forall i | p <= i < n ensures r[i] == r[i - p] {
        assert s[n - 1 - (i - p)] == s[n - 1 - (i - p) - p];
      }
    }
    if HasPeriod(r, p) {
      forall i | p <= i < n ensures s[i] == s[i - p] {
        assert r[n - 1 - (i - p)] == r[n - 1 - (i - p) - p];
      }
    }
  }

  lemma {:induction false} StartOfReversed<T(!new)>(tokens: seq<T>)
    ensures StartsWithPattern(Rev(tokens)) <==> EndsInPattern(tokens)
  {
    hide StartsRepeating, EndsRepeating;
    RepeatingReversed(tokens, 10, 1);
    RepeatingReversed(tokens, 30, 10);
    RepeatingReversed(tokens, 45, 20);
    RepeatingReversed(tokens, 60, 30);
    RepeatingReversed(tokens, 120, 60);
  }

  lemma {:induction false} RepeatingReversed<T(!new)>(tokens: seq<T>, n: nat, longest: nat)
    ensures StartsRepeating(Rev(tokens), n, longest) <==> EndsRepeating(tokens, n, longest)
  {
    hide HasPeriod;
    if n <= |tokens| {
      var end := tokens[|tokens| - n..];
      assert Rev(tokens)[..n] == Rev(end);
      forall p: nat ensures HasPeriod(Rev(end), p) <==> HasPeriod(end, p) {
        PeriodReversed(end, p);
      }
    }
  }

  /** True exactly when the tokens, or the tokens without blanks, end in a repeated pattern that is short enough. */
  method IsRepetitive<T(==, !new)>(tokens: seq<T>, isBlank: T -> bool) returns (repetitive: bool)
    ensures repetitive <==> EndsInPattern(tokens) || EndsInPattern(WithoutBlanks(tokens, isBlank))
  {
    var tokensBackwards := Rev(tokens);
    StartOfReversed(tokens);
    WithoutBlanksReversed(tokens, isBlank);
    StartOfReversed(WithoutBlanks(tokens, isBlank));
    repetitive := IsRepeatedPattern(tokensBackwards);
    if !repetitive {
      repetitive := IsRepeatedPattern(WithoutBlanks(tokensBackwards, isBlank));
    }
  }
}
