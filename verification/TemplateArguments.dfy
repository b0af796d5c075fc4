/** Template argument lists: text in which angle brackets are brackets.  The
    scanners find both ends of every such list. */
module TemplateArguments {
  import opened Options
  import opened Brackets
  import opened CloseExpression
  import opened AngleBrackets

  predicate Opens(c: char) {
    IsOpen(c) || c == '<'
  }

  predicate Closes(c: char) {
    IsClose(c) || c == '>'
  }

  predicate Matches(open: char, close: char) {
    Pairs(open, close) || (open == '<' && close == '>')
  }

  ghost predicate Blank(s: string, i: int, j: int) {
    0 <= i <= j <= |s| && forall k | i <= k < j :: !Opens(s[k]) && !Closes(s[k])
  }

  /** The brackets of s[i..j], angle brackets included, are balanced, nested as
      f says. */
  ghost predicate AllBalanced(f: Forest, s: string, i: nat, j: nat) {
    match f
    case Empty => Blank(s, i, j)
    case Node(a, inner, b, rest) =>
      && i <= a < b < j <= |s| && Blank(s, i, a) && Opens(s[a]) && Matches(s[a], s[b])
      && AllBalanced(inner, s, a + 1, b) && AllBalanced(rest, s, b + 1, j)
  }

  /** What is pending after s[i..j] has been read on top of `st`. */
  function Pending(s: string, i: nat, j: nat, st: seq<char>): Option<seq<char>>
    requires j <= |s|
    decreases j - i
  {
    if i >= j then Some(st)
    else if Opens(s[i]) then Pending(s, i + 1, j, st + [s[i]])
    else if Closes(s[i]) then
      if st == [] || !Matches(st[|st| - 1], s[i]) then None else Pending(s, i + 1, j, st[..|st| - 1])
    else Pending(s, i + 1, j, st)
  }

  function PendingBack(s: string, i: nat, j: nat, st: seq<char>): Option<seq<char>>
    requires j <= |s|
  {
    if i >= j then Some(st)
    else if Closes(s[j - 1]) then PendingBack(s, i, j - 1, st + [s[j - 1]])
    else if Opens(s[j - 1]) then
      if st == [] || !Matches(s[j - 1], st[|st| - 1]) then None else PendingBack(s, i, j - 1, st[..|st| - 1])
    else PendingBack(s, i, j - 1, st)
  }

  lemma {:induction false} BlankPasses(s: string, i: nat, k: nat, j: nat, st: seq<char>)
    requires Blank(s, i, k) && k <= j <= |s|
    ensures Pending(s, i, j, st) == Pending(s, k, j, st)
    decreases k - i
  {
    if i == k {
    } else {
      BlankPasses(s, i + 1, k, j, st);
    }
  }

  lemma {:induction false} BlankPassesBack(s: string, i: nat, k: nat, j: nat, st: seq<char>)
    requires Blank(s, k, j) && i <= k
    ensures PendingBack(s, i, j, st) == PendingBack(s, i, k, st)
    decreases j - k
  {
    if k == j {
    } else {
      BlankPassesBack(s, i, k, j - 1, st);
    }
  }

  /** Balanced text leaves what is pending as it was. */
  lemma {:induction false} BalancedPasses(f: Forest, s: string, i: nat, k: nat, j: nat, st: seq<char>)
    requires AllBalanced(f, s, i, k) && k <= j <= |s|
    ensures Pending(s, i, j, st) == Pending(s, k, j, st)
  {
    match f
    case Empty => BlankPasses(s, i, k, j, st);
    case Node(a, inner, b, rest) =>
      BlankPasses(s, i, a, j, st);
      BalancedPasses(inner, s, a + 1, b, j, st + [s[a]]);
      assert (st + [s[a]])[..|st|] == st;
      BalancedPasses(rest, s, b + 1, k, j, st);
  }

  lemma {:induction false} BalancedPassesBack(f: Forest, s: string, i: nat, k: nat, j: nat, st: seq<char>)
    requires AllBalanced(f, s, k, j) && i <= k
    ensures PendingBack(s, i, j, st) == PendingBack(s, i, k, st)
  {
    match f
    case Empty => BlankPassesBack(s, i, k, j, st);
    case Node(a, inner, b, rest) =>
      BalancedPassesBack(rest, s, i, b + 1, j, st);
      BalancedPassesBack(inner, s, i, a + 1, b, st + [s[b]]);
      assert (st + [s[b]])[..|st|] == st;
      BlankPassesBack(s, i, k, a, st);
  }

  // ---- forward ---------------------------------------------------------------------------

  /** No statement ends here, and an angle bracket is not part of an operator to
      a forward scan. */
  predicate PlainUp(line: string, i: nat)
    requires i < |line|
  {
    line[i] != ';' && (line[i] == '<' ==> PushesLess(line, i)) &&
    (line[i] == '>' ==> !(i > 0 && (line[i - 1] == '-' || AfterOperator(line[..i - 1]))))
  }

  /** ... from position i of line l to position j of line m. */
  ghost predicate AllPlainUp(lines: seq<string>, l: nat, i: nat, m: nat, j: nat) {
    forall n: nat, k: nat | l <= n <= m && n < |lines| && k < |lines[n]| && (n == l ==> i <= k) && (n == m ==> k < j) ::
      PlainUp(lines[n], k)
  }

  /** Above the `<` it started from, the stack of a scan holds what is pending. */
  ghost predicate FollowsUpAt(step: Stepper, line: string, i: nat, st: seq<char>) {
    i < |line| && PlainUp(line, i) ==>
      var stack := ['<'] + st;
      if Opens(line[i]) then step(line, i, stack) == Go(i + 1, ['<'] + (st + [line[i]]))
      else if !Closes(line[i]) then step(line, i, stack) == Go(i + 1, stack)
      else if st == [] then line[i] == '>' ==> step(line, i, stack) == Stop(i + 1)
      else Matches(st[|st| - 1], line[i]) ==> step(line, i, stack) == Go(i + 1, ['<'] + st[..|st| - 1])
  }

  ghost predicate FollowsUp(step: Stepper) {
    forall line, i: nat, st {:trigger FollowsUpAt(step, line, i, st)} :: FollowsUpAt(step, line, i, st)
  }

  lemma EndStepFollows()
    ensures FollowsUp(EndStep)
  {
    forall line: string, i: nat, st: seq<char>
      ensures FollowsUpAt(EndStep, line, i, st)
    {
      if i < |line| {
        EndStepFollowsAt(line, i, st);
      }
    }
  }

  lemma EndStepFollowsAt(line: string, i: nat, st: seq<char>)
    requires i < |line|
    ensures FollowsUpAt(EndStep, line, i, st)
  {
    assert ['<'] + st + [line[i]] == ['<'] + (st + [line[i]]);
    if st != [] {
      assert (['<'] + st)[..|st|] == ['<'] + st[..|st| - 1];
    }
  }

  /** One line of a scan up to text position b: a `>` there ends it, and if the
      line ends before, the stack holds what is pending. */
  lemma {:induction false} ScanFollows(text: string, at: nat, line: string, i: nat, b: nat, st: seq<char>,
                                       step: Stepper)
      returns (rest: seq<char>)
    requires FollowsUp(step) && at + |line| <= |text| && text[at..at + |line|] == line
    requires i <= |line| && at + i <= b <= |text| && Pending(text, at + i, b, st) == Some([])
    requires forall k | i <= k < |line| && at + k <= b :: PlainUp(line, k)
    ensures at + |line| <= b ==> ScanUp(line, i, ['<'] + st, step) == (-1, Some(['<'] + rest)) &&
                                 Pending(text, at + |line|, b, rest) == Some([])
    ensures b < at + |line| && line[b - at] == '>' ==> ScanUp(line, i, ['<'] + st, step) == (b - at + 1, None)
    decreases |line| - i
  {
    rest := st;
    if i == |line| {
    } else {
      assert text[at + i] == text[at..at + |line|][i];
      assert FollowsUpAt(step, line, i, st);
      if at + i < b {
        var next := if Opens(line[i]) then st + [line[i]] else if Closes(line[i]) then st[..|st| - 1] else st;
        rest := ScanFollows(text, at, line, i + 1, b, next, step);
      }
    }
  }

  lemma {:induction false} CloseFromFollows(lines: seq<string>, l: nat, pos: nat, m: nat, q: nat, st: seq<char>,
                                            step: Stepper)
    requires FollowsUp(step) && l <= m < |lines| && pos <= |lines[l]| && q < |lines[m]| && lines[m][q] == '>'
    requires Offset(lines, l) + pos <= Offset(lines, m) + q <= |Text(lines)|
    requires Pending(Text(lines), Offset(lines, l) + pos, Offset(lines, m) + q, st) == Some([])
    requires AllPlainUp(lines, l, pos, m, q + 1)
    ensures CloseFrom(lines, l, pos, ['<'] + st, step) == (lines[m], m, q + 1)
    decreases m - l
  {
    LineInText(lines, l);
    if l < m {
      LaterLine(lines, l, m);
    }
    var rest := ScanFollows(Text(lines), Offset(lines, l), lines[l], pos, Offset(lines, m) + q, st, step);
    if l == m {
    } else {
      LaterLineFrom(lines, l + 1, m);
      CloseFromFollows(lines, l + 1, 0, m, q, rest, step);
    }
  }

  lemma LaterLineFrom(lines: seq<string>, l: nat, m: nat)
    requires l <= m < |lines|
    ensures Offset(lines, l) <= Offset(lines, m)
  {
    if l < m {
      LaterLine(lines, l, m);
    }
  }

  /** A `<` and a `>` with text between them in which all four kinds of brackets
      balance. */
  ghost predicate ArgumentList(f: Forest, lines: seq<string>, l: nat, p: nat, m: nat, q: nat) {
    && l <= m < |lines| && p < |lines[l]| && q < |lines[m]| && lines[l][p] == '<' && lines[m][q] == '>'
    && Offset(lines, l) + p < Offset(lines, m) + q <= |Text(lines)|
    && AllBalanced(f, Text(lines), Offset(lines, l) + p + 1, Offset(lines, m) + q)
  }

  /** From the `<` of an argument list without operators and semicolons, the
      place after its `>` is reported. */
  lemma ClosingFindsMatch(f: Forest, lines: seq<string>, l: nat, p: nat, m: nat, q: nat)
    requires ArgumentList(f, lines, l, p, m, q) && AllPlainUp(lines, l, p, m, q + 1) && !ShiftOrCompare(lines[l], p)
    ensures Closing(lines, l, p) == (lines[m], m, q + 1)
  {
    BalancedPasses(f, Text(lines), Offset(lines, l) + p + 1, Offset(lines, m) + q, Offset(lines, m) + q, []);
    EndStepFollows();
    assert PlainUp(lines[l], p);
    PushedLess(lines[l], p);
    CloseOneStep(lines, l, p, EndStep, ['<']);
    assert ['<'] + [] == ['<'];
    CloseFromFollows(lines, l, p + 1, m, q, [], EndStep);
  }

  // ---- backward --------------------------------------------------------------------------

  /** The same to a backward scan. */
  predicate PlainDown(line: string, i: nat)
    requires i < |line|
  {
    line[i] != ';' && !Skips(line, i)
  }

  ghost predicate AllPlainDown(lines: seq<string>, l: nat, i: nat, m: nat, j: nat) {
    forall n: nat, k: nat | l <= n <= m && n < |lines| && k < |lines[n]| && (n == l ==> i <= k) && (n == m ==> k < j) ::
      PlainDown(lines[n], k)
  }

  ghost predicate FollowsDownAt(step: Stepper, line: string, i: nat, st: seq<char>) {
    i < |line| && PlainDown(line, i) ==>
      var stack := ['>'] + st;
      if Closes(line[i]) then step(line, i, stack) == Go(i, ['>'] + (st + [line[i]]))
      else if !Opens(line[i]) then step(line, i, stack) == Go(i, stack)
      else if st == [] then line[i] == '<' ==> step(line, i, stack) == Stop(i)
      else Matches(line[i], st[|st| - 1]) ==> step(line, i, stack) == Go(i, ['>'] + st[..|st| - 1])
  }

  ghost predicate FollowsDown(step: Stepper) {
    forall line, i: nat, st {:trigger FollowsDownAt(step, line, i, st)} :: FollowsDownAt(step, line, i, st)
  }

  lemma StartStepFollows()
    ensures FollowsDown(StartStep)
  {
    forall line: string, i: nat, st: seq<char>
      ensures FollowsDownAt(StartStep, line, i, st)
    {
      if i < |line| {
        StartStepFollowsAt(line, i, st);
      }
    }
  }

  lemma StartStepFollowsAt(line: string, i: nat, st: seq<char>)
    requires i < |line|
    ensures FollowsDownAt(StartStep, line, i, st)
  {
    assert ['>'] + st + [line[i]] == ['>'] + (st + [line[i]]);
    if st != [] {
      assert (['>'] + st)[..|st|] == ['>'] + st[..|st| - 1];
    }
  }

  /** One line of a backward scan down to text position a. */
  lemma {:induction false} ScanBackFollows(text: string, at: nat, line: string, n: nat, a: nat, st: seq<char>,
                                           step: Stepper)
      returns (rest: seq<char>)
    requires FollowsDown(step) && at + |line| <= |text| && text[at..at + |line|] == line
    requires n <= |line| && a < at + n && PendingBack(text, a + 1, at + n, st) == Some([])
    requires forall k | 0 <= k < n && a <= at + k :: PlainDown(line, k)
    ensures a < at ==> ScanDown(line, n, ['>'] + st, step) == (-1, Some(['>'] + rest)) &&
                       PendingBack(text, a + 1, at, rest) == Some([])
    ensures at <= a && line[a - at] == '<' ==> ScanDown(line, n, ['>'] + st, step) == (a - at, None)
  {
    rest := st;
    if n == 0 {
    } else {
      var i := n - 1;
      assert text[at + i] == text[at..at + |line|][i];
      assert FollowsDownAt(step, line, i, st);
      if a < at + i {
        var next := if Closes(line[i]) then st + [line[i]] else if Opens(line[i]) then st[..|st| - 1] else st;
        rest := ScanBackFollows(text, at, line, i, a, next, step);
      }
    }
  }

  lemma {:induction false} OpenFromFollows(lines: seq<string>, l: nat, p: nat, m: nat, n: nat, st: seq<char>,
                                           step: Stepper)
    requires FollowsDown(step) && l <= m < |lines| && p < |lines[l]| && n <= |lines[m]| && lines[l][p] == '<'
    requires Offset(lines, l) + p < Offset(lines, m) + n <= |Text(lines)|
    requires PendingBack(Text(lines), Offset(lines, l) + p + 1, Offset(lines, m) + n, st) == Some([])
    requires AllPlainDown(lines, l, p, m, n)
    ensures OpenFrom(lines, m, n, ['>'] + st, step) == (lines[l], l, p)
    decreases m - l
  {
    LineInText(lines, m);
    if l < m {
      LaterLine(lines, l, m);
    }
    var rest := ScanBackFollows(Text(lines), Offset(lines, m), lines[m], n, Offset(lines, l) + p, st, step);
    if l == m {
    } else {
      LineInText(lines, m - 1);
      OpenFromFollows(lines, l, p, m - 1, |lines[m - 1]|, rest, step);
    }
  }

  /** From the `>` of an argument list without operators and semicolons, its `<`
      is reported. */
  lemma OpeningFindsMatch(f: Forest, lines: seq<string>, l: nat, p: nat, m: nat, q: nat)
    requires ArgumentList(f, lines, l, p, m, q) && AllPlainDown(lines, l, p, m, q + 1)
    ensures Opening(lines, m, q) == (lines[l], l, p)
  {
    BalancedPassesBack(f, Text(lines), Offset(lines, l) + p + 1, Offset(lines, l) + p + 1, Offset(lines, m) + q, []);
    StartStepFollows();
    assert PlainDown(lines[m], q);
    PushedGreater(lines[m], q);
    OpenOneStep(lines, m, q, StartStep, '>');
    assert ['>'] + [] == ['>'];
    OpenFromFollows(lines, l, p, m, q, [], StartStep);
  }

  /** On such lists the two directions undo each other. */
  lemma MatchRoundTrip(f: Forest, lines: seq<string>, l: nat, p: nat, m: nat, q: nat)
    requires ArgumentList(f, lines, l, p, m, q) && !ShiftOrCompare(lines[l], p)
    requires AllPlainUp(lines, l, p, m, q + 1) && AllPlainDown(lines, l, p, m, q + 1)
    ensures Closing(lines, l, p) == (lines[m], m, q + 1) && Opening(lines, m, q) == (lines[l], l, p)
  {
    ClosingFindsMatch(f, lines, l, p, m, q);
    OpeningFindsMatch(f, lines, l, p, m, q);
  }
}
