/** Matching of (), [] and {} in a text, independently of any scanner. */
module Brackets {
  import opened Options

  predicate IsOpen(c: char) {
    c == '(' || c == '[' || c == '{'
  }

  predicate IsClose(c: char) {
    c == ')' || c == ']' || c == '}'
  }

  predicate Pairs(open: char, close: char) {
    (open == '(' && close == ')') || (open == '[' && close == ']') || (open == '{' && close == '}')
  }

  /** Nesting of the brackets in a stretch of text, by position. */
  datatype Forest = Empty | Node(open: nat, inner: Forest, close: nat, rest: Forest)

  ghost predicate NoBracket(s: string, i: int, j: int) {
    0 <= i <= j <= |s| && forall k | i <= k < j :: !IsOpen(s[k]) && !IsClose(s[k])
  }

  /** The brackets of s[i..j] are balanced, nested as f says. */
  ghost predicate Balanced(f: Forest, s: string, i: nat, j: nat) {
    match f
    case Empty => NoBracket(s, i, j)
    case Node(a, inner, b, rest) =>
      && i <= a < b < j <= |s| && NoBracket(s, i, a) && IsOpen(s[a]) && Pairs(s[a], s[b])
      && Balanced(inner, s, a + 1, b) && Balanced(rest, s, b + 1, j)
  }

  /** s[i..j] is an opening bracket, balanced text, and its closing bracket. */
  ghost predicate Enclosed(s: string, i: nat, j: nat) {
    i + 1 < j <= |s| && IsOpen(s[i]) && Pairs(s[i], s[j - 1]) && Nested(s, i + 1, j - 1)
  }

  ghost predicate Nested(s: string, a: nat, b: nat) {
    exists f :: Balanced(f, s, a, b)
  }

  ghost predicate Unclosed(s: string, i: nat) {
    forall j :: !Enclosed(s, i, j)
  }

  ghost predicate Unopened(s: string, j: nat) {
    forall i :: !Enclosed(s, i, j)
  }

  /** Position after the bracket that closes the last of `st`, reading on from i. */
  function Forward(s: string, i: nat, st: seq<char>): (r: Option<nat>)
    decreases |s| - i
  {
    if i >= |s| then None
    else if IsOpen(s[i]) then Forward(s, i + 1, st + [s[i]])
    else if IsClose(s[i]) then
      if st == [] || !Pairs(st[|st| - 1], s[i]) then None
      else if |st| == 1 then Some(i + 1)
      else Forward(s, i + 1, st[..|st| - 1])
    else Forward(s, i + 1, st)
  }

  /** Position of the bracket that opens the last of `st`, reading back from i - 1. */
  function Backward(s: string, i: nat, st: seq<char>): (r: Option<nat>) {
    if i == 0 || i > |s| then None
    else if IsClose(s[i - 1]) then Backward(s, i - 1, st + [s[i - 1]])
    else if IsOpen(s[i - 1]) then
      if st == [] || !Pairs(s[i - 1], st[|st| - 1]) then None
      else if |st| == 1 then Some(i - 1)
      else Backward(s, i - 1, st[..|st| - 1])
    else Backward(s, i - 1, st)
  }

  lemma {:induction false} ForwardSkips(s: string, i: nat, j: nat, st: seq<char>)
    requires NoBracket(s, i, j)
    ensures Forward(s, i, st) == Forward(s, j, st)
    decreases j - i
  {
    if i == j {
    } else {
      ForwardSkips(s, i + 1, j, st);
    }
  }

  lemma {:induction false} BackwardSkips(s: string, i: nat, j: nat, st: seq<char>)
    requires NoBracket(s, i, j)
    ensures Backward(s, j, st) == Backward(s, i, st)
    decreases j - i
  {
    if i == j {
    } else {
      BackwardSkips(s, i, j - 1, st);
    }
  }

  /** Balanced text leaves the stack of a pending match alone. */
  lemma {:induction false} ForwardPasses(f: Forest, s: string, i: nat, j: nat, st: seq<char>)
    requires Balanced(f, s, i, j) && st != []
    ensures Forward(s, i, st) == Forward(s, j, st)
  {
    match f
    case Empty => ForwardSkips(s, i, j, st);
    case Node(a, inner, b, rest) =>
      ForwardSkips(s, i, a, st);
      ForwardPasses(inner, s, a + 1, b, st + [s[a]]);
      assert (st + [s[a]])[..|st|] == st;
      ForwardPasses(rest, s, b + 1, j, st);
  }

  lemma {:induction false} BackwardPasses(f: Forest, s: string, i: nat, j: nat, st: seq<char>)
    requires Balanced(f, s, i, j) && st != []
    ensures Backward(s, j, st) == Backward(s, i, st)
  {
    match f
    case Empty => BackwardSkips(s, i, j, st);
    case Node(a, inner, b, rest) =>
      BackwardPasses(rest, s, b + 1, j, st);
      BackwardPasses(inner, s, a + 1, b, st + [s[b]]);
      assert (st + [s[b]])[..|st|] == st;
      BackwardSkips(s, i, a, st);
  }

  /** A forward match first closes the last of `st`, with balanced text before. */
  lemma {:induction false} ForwardBalanced(s: string, i: nat, st: seq<char>) returns (f: Forest, m: nat)
    requires st != [] && Forward(s, i, st).Some?
    ensures i <= m < |s| && Balanced(f, s, i, m) && Pairs(st[|st| - 1], s[m])
    ensures Forward(s, i, st) == if |st| == 1 then Some(m + 1) else Forward(s, m + 1, st[..|st| - 1])
    decreases |s| - i
  {
    if IsClose(s[i]) {
      f, m := Empty, i;
    } else if IsOpen(s[i]) {
      var inner, b := ForwardBalanced(s, i + 1, st + [s[i]]);
      assert (st + [s[i]])[..|st|] == st;
      var rest;
      rest, m := ForwardBalanced(s, b + 1, st);
      f := Node(i, inner, b, rest);
    } else {
      f, m := ForwardBalanced(s, i + 1, st);
      f := Widened(f, s, i, m);
    }
  }

  function Widened(f: Forest, s: string, i: nat, m: nat): (g: Forest)
    requires i < m <= |s| && Balanced(f, s, i + 1, m) && !IsOpen(s[i]) && !IsClose(s[i])
    ensures Balanced(g, s, i, m)
  {
    f
  }

  lemma {:induction false} BackwardBalanced(s: string, i: nat, st: seq<char>) returns (f: Forest, m: nat)
    requires st != [] && Backward(s, i, st).Some?
    ensures m < i <= |s| && Balanced(f, s, m + 1, i) && Pairs(s[m], st[|st| - 1])
    ensures Backward(s, i, st) == if |st| == 1 then Some(m) else Backward(s, m, st[..|st| - 1])
  {
    if IsOpen(s[i - 1]) {
      f, m := Empty, i - 1;
    } else if IsClose(s[i - 1]) {
      var inner, a := BackwardBalanced(s, i - 1, st + [s[i - 1]]);
      assert (st + [s[i - 1]])[..|st|] == st;
      var before;
      before, m := BackwardBalanced(s, a, st);
      f := Appended(before, s, m + 1, a, inner, i - 1);
    } else {
      f, m := BackwardBalanced(s, i - 1, st);
      f := Extended(f, s, m + 1, i);
    }
  }

  /** Balanced text followed by one bracketed group. */
  function Appended(f: Forest, s: string, i: nat, a: nat, inner: Forest, b: nat): (g: Forest)
    requires Balanced(f, s, i, a) && a < b < |s| && IsOpen(s[a]) && Pairs(s[a], s[b]) && Balanced(inner, s, a + 1, b)
    ensures Balanced(g, s, i, b + 1)
    decreases f
  {
    match f
    case Empty => Node(a, inner, b, Empty)
    case Node(a0, inner0, b0, rest) => Node(a0, inner0, b0, Appended(rest, s, b0 + 1, a, inner, b))
  }

  function Extended(f: Forest, s: string, i: nat, j: nat): (g: Forest)
    requires 0 < j <= |s| && Balanced(f, s, i, j - 1) && !IsOpen(s[j - 1]) && !IsClose(s[j - 1])
    ensures Balanced(g, s, i, j)
    decreases f
  {
    match f
    case Empty => f
    case Node(a, inner, b, rest) => Node(a, inner, b, Extended(rest, s, b + 1, j))
  }

  /** Reading forward from an opening bracket finds the end of what it encloses,
      and fails exactly when it encloses nothing. */
  lemma ForwardFindsEnclosed(s: string, i: nat, j: nat)
    requires i < |s| && IsOpen(s[i])
    ensures Forward(s, i, []) == Some(j) <==> Enclosed(s, i, j)
  {
    assert [] + [s[i]] == [s[i]];
    if Forward(s, i, []) == Some(j) {
      var f, m := ForwardBalanced(s, i + 1, [s[i]]);
      assert j == m + 1 && Balanced(f, s, i + 1, j - 1);
    }
    if Enclosed(s, i, j) {
      var f :| Balanced(f, s, i + 1, j - 1);
      ForwardPasses(f, s, i + 1, j - 1, [s[i]]);
    }
  }

  lemma BackwardFindsEnclosed(s: string, i: nat, j: nat)
    requires 0 < j <= |s| && IsClose(s[j - 1])
    ensures Backward(s, j, []) == Some(i) <==> Enclosed(s, i, j)
  {
    assert [] + [s[j - 1]] == [s[j - 1]];
    if Backward(s, j, []) == Some(i) {
      var f, m := BackwardBalanced(s, j - 1, [s[j - 1]]);
      assert i == m && Balanced(f, s, i + 1, j - 1);
    }
    if Enclosed(s, i, j) {
      var f :| Balanced(f, s, i + 1, j - 1);
      BackwardPasses(f, s, i + 1, j - 1, [s[j - 1]]);
    }
  }

  lemma ForwardFails(s: string, i: nat)
    requires i < |s| && IsOpen(s[i])
    ensures Forward(s, i, []) == None <==> Unclosed(s, i)
  {
    forall j: nat
      ensures Forward(s, i, []) == Some(j) <==> Enclosed(s, i, j)
    {
      ForwardFindsEnclosed(s, i, j);
    }
  }

  lemma BackwardFails(s: string, j: nat)
    requires 0 < j <= |s| && IsClose(s[j - 1])
    ensures Backward(s, j, []) == None <==> Unopened(s, j)
  {
    forall i: nat
      ensures Backward(s, j, []) == Some(i) <==> Enclosed(s, i, j)
    {
      BackwardFindsEnclosed(s, i, j);
    }
  }
}
