/** Line numbers of match offsets: the direct count, and the incremental counter
    that only looks at what lies between one call and the next. */
module LineCounter {

  /** Newlines among the first `n` characters; there are none past the end. */
  function Newlines(content: string, n: nat): nat {
    if n == 0 then 0
    else Newlines(content, n - 1) + (if n <= |content| && content[n - 1] == '\n' then 1 else 0)
  }

  lemma {:induction false} NewlinesPastEnd(content: string, n: nat)
    requires |content| <= n
    ensures Newlines(content, n) == Newlines(content, |content|)
  {
    if |content| < n { NewlinesPastEnd(content, n - 1); }
  }

  /** They are counted one by one. */
  lemma {:induction false} NewlinesAreCounted(content: string, n: nat)
    requires n <= |content|
    ensures Newlines(content, n) == multiset(content[..n])['\n']
  {
    if 0 < n {
      NewlinesAreCounted(content, n - 1);
      assert content[..n] == content[..n - 1] + [content[n - 1]];
    }
  }

  lemma {:induction false} NewlinesGrow(content: string, m: nat, n: nat)
    requires m <= n
    ensures Newlines(content, m) <= Newlines(content, n)
  {
    if m < n { NewlinesGrow(content, m, n - 1); }
  }

  method LineNumberAt(content: string, offset: nat) returns (line: nat)
    ensures line == 1 + Newlines(content, offset)
  {
    line := 1;
    var i := 0;
    while i < offset && i < |content|
      invariant 0 <= i <= offset && i <= |content|
      invariant line == 1 + Newlines(content, i)
    {
      if content[i] == '\n' { line := line + 1; }
      i := i + 1;
    }
    if i < offset { NewlinesPastEnd(content, offset); }
  }

  datatype Counter = Counter(lastOffset: nat, line: nat)

  const START: Counter := Counter(0, 1)

  function Next(c: Counter, content: string, offset: nat): Counter {
    NewlinesGrow(content, c.lastOffset, if c.lastOffset < offset then offset else c.lastOffset);
    Counter(offset,
            if c.lastOffset < offset
              then c.line + (Newlines(content, offset) - Newlines(content, c.lastOffset))
            else c.line)
  }

  /** The closure made by `createLineCounter`. */
  class LineCounter {
    var lastOffset: nat
    var currentLine: nat

    ghost function View(): Counter
      reads this
    {
      Counter(lastOffset, currentLine)
    }

    constructor ()
      ensures View() == START
    {
      lastOffset := 0;
      currentLine := 1;
    }

    method LineAt(content: string, offset: nat) returns (line: nat)
      modifies this
      ensures View() == Next(old(View()), content, offset) && line == View().line
    {
      ghost var from, was := lastOffset, currentLine;
      var i := lastOffset;
      while i < offset && i < |content|
        invariant from <= i && (i <= offset || i == from)
        invariant lastOffset == from
        invariant currentLine + Newlines(content, from) == was + Newlines(content, i)
      {
        if content[i] == '\n' { currentLine := currentLine + 1; }
        i := i + 1;
      }
      if i < offset {
        NewlinesPastEnd(content, i);
        NewlinesPastEnd(content, offset);
      }
      lastOffset := offset;
      return currentLine;
    }
  }

  // ------------------------------------------------------------ runs

  function After(content: string, offsets: seq<nat>): Counter {
    if offsets == [] then START else Next(After(content, offsets[..|offsets| - 1]), content, offsets[|offsets| - 1])
  }

  /** The answer to call `i` is the direct count. */
  predicate RightAt(content: string, offsets: seq<nat>, i: nat)
    requires i < |offsets|
  {
    After(content, offsets[..i + 1]).line == 1 + Newlines(content, offsets[i])
  }

  /** Call `i` does not go back over a newline. */
  predicate NoNewlineBack(content: string, offsets: seq<nat>, i: nat)
    requires i < |offsets|
  {
    0 < i && offsets[i] < offsets[i - 1] ==> Newlines(content, offsets[i]) == Newlines(content, offsets[i - 1])
  }

  /** Every call of a run is right exactly when none goes back over a newline. */
  lemma {:induction false} AllRightIff(content: string, offsets: seq<nat>)
    ensures (forall i :: 0 <= i < |offsets| ==> RightAt(content, offsets, i))
       <==> (forall i :: 0 <= i < |offsets| ==> NoNewlineBack(content, offsets, i))
  {
    if offsets != [] {
      var n := |offsets| - 1;
      var prev := offsets[..n];
      AllRightIff(content, prev);
      forall i | 0 <= i < n
        ensures RightAt(content, prev, i) <==> RightAt(content, offsets, i)
        ensures NoNewlineBack(content, prev, i) <==> NoNewlineBack(content, offsets, i)
      {
        assert prev[..i + 1] == offsets[..i + 1];
      }
      if forall i :: 0 <= i < n ==> RightAt(content, offsets, i) {
        LastIsRightIff(content, offsets);
      } else {
        assert !forall i :: 0 <= i < n ==> RightAt(content, prev, i);
        var i :| 0 <= i < n && !NoNewlineBack(content, prev, i);
        assert !NoNewlineBack(content, offsets, i);
      }
    }
  }

  lemma {:induction false} LastIsRightIff(content: string, offsets: seq<nat>)
    requires offsets != []
    requires 1 < |offsets| ==> RightAt(content, offsets, |offsets| - 2)
    ensures RightAt(content, offsets, |offsets| - 1) <==> NoNewlineBack(content, offsets, |offsets| - 1)
  {
    var n := |offsets| - 1;
    assert offsets[..n + 1] == offsets;
    LastOffset(content, offsets[..n]);
    if 0 < n {
      assert offsets[..n] == offsets[..n - 1 + 1];
      if offsets[n] < offsets[n - 1] { NewlinesGrow(content, offsets[n], offsets[n - 1]); }
    }
  }

  lemma {:induction false} LastOffset(content: string, offsets: seq<nat>)
    ensures After(content, offsets).lastOffset == if offsets == [] then 0 else offsets[|offsets| - 1]
  {
  }

  /** Matches come in order, so the counter is right on every call. */
  lemma {:induction false} OrderedOffsetsAreRight(content: string, offsets: seq<nat>, i: nat)
    requires forall j :: 0 < j < |offsets| ==> offsets[j - 1] <= offsets[j]
    requires i < |offsets|
    ensures After(content, offsets[..i + 1]).line == 1 + Newlines(content, offsets[i])
  {
    assert forall j :: 0 <= j < |offsets| ==> NoNewlineBack(content, offsets, j);
    AllRightIff(content, offsets);
    assert RightAt(content, offsets, i);
  }
}
