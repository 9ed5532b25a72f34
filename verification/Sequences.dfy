/** Sequences: taking an element out, and reading them backwards. */
module Sequences {
  function Rev<T>(s: seq<T>): (r: seq<T>)
    ensures |r| == |s|
    ensures forall i :: 0 <= i < |s| ==> r[i] == s[|s| - 1 - i]
  {
    seq(|s|, i requires 0 <= i < |s| => s[|s| - 1 - i])
  }

  /** s without its element at a position; s itself when there is none. */
  function RemoveAt<T>(s: seq<T>, at: nat): seq<T> {
    if at < |s| then s[..at] + s[at + 1..] else s
  }

  lemma {:induction false} RemoveAtShape<T>(s: seq<T>, at: nat)
    ensures var rest := RemoveAt(s, at);
      && |rest| == (if at < |s| then |s| - 1 else |s|)
      && forall i :: 0 <= i < |rest| ==> rest[i] == s[if i < at then i else i + 1]
  {
    var rest := RemoveAt(s, at);
    forall i | 0 <= i < |rest| ensures rest[i] == s[if i < at then i else i + 1] {
      if at <= i { assert at < |s| && rest[i] == s[at + 1..][i - at]; }
    }
  }

  lemma {:induction false} PushTaken<T>(before: seq<T>, s: seq<T>, k: nat)
    requires k < |s|
    ensures before + s[..k] + [s[k]] == before + s[..k + 1]
  {
  }
}
