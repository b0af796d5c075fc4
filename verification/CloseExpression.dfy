/** The bracket scanners of the style checker, which also track possible
    template argument lists by angle brackets. */
module CloseExpression {
  import opened Options
  import opened Brackets

  // ---- the regular expressions in use ---------------------------------------------

  predicate IsSpace(c: char) {
    c == ' ' || c == '\t' || c == '\n' || c == '\r' || c == '\U{000B}' || c == '\U{000C}'
  }

  predicate IsWord(c: char) {
    'a' <= c <= 'z' || 'A' <= c <= 'Z' || '0' <= c <= '9' || c == '_'
  }

  function TrimRight(s: string): string {
    if s != [] && IsSpace(s[|s| - 1]) then TrimRight(s[..|s| - 1]) else s
  }

  /** The word "operator", possibly followed by blanks, ends s. */
  predicate AfterOperator(s: string) {
    var t := TrimRight(s);
    |t| >= 8 && t[|t| - 8..] == "operator" && (|t| == 8 || !IsWord(t[|t| - 9]))
  }

  /** s[i] is the sign of a comparison >= set between blanks. */
  predicate SpacedGreaterEqual(s: string, i: nat)
    requires 0 < i < |s|
  {
    i + 2 < |s| && IsSpace(s[i - 1]) && s[i] == '>' && s[i + 1] == '=' && IsSpace(s[i + 2])
  }

  // ---- scanning forward --------------------------------------------------------------

  function PopWhile(stack: seq<char>, c: char): seq<char> {
    if stack != [] && stack[|stack| - 1] == c then PopWhile(stack[..|stack| - 1], c) else stack
  }

  /** Result of a scan of one line: (end, None) at a match, (-1, None) at a
      mismatch, and (-1, Some(stack)) at the end of the line. */
  type ScanResult = (int, Option<seq<char>>)

  /** What one character does to a scan: end it, or go on at a position. */
  datatype Step = Stop(at: int) | Go(next: nat, stack: seq<char>)

  type Stepper = (string, nat, seq<char>) -> Step

  function EndStep(line: string, i: nat, stack: seq<char>): (r: Step)
    ensures r.Go? ==> r.next == i + 1
  {
    if i >= |line| then Stop(-1)
    else
      var ch := line[i];
      if IsOpen(ch) then Go(i + 1, stack + [ch])
      else if ch == '<' then
        if i > 0 && line[i - 1] == '<' then
          if stack != [] && stack[|stack| - 1] == '<' then
            if |stack| == 1 then Stop(-1) else Go(i + 1, stack[..|stack| - 1])
          else Go(i + 1, stack)
        else if i > 0 && AfterOperator(line[..i]) then Go(i + 1, stack)
        else Go(i + 1, stack + ['<'])
      else if IsClose(ch) then
        var popped := PopWhile(stack, '<');
        if popped == [] || !Pairs(popped[|popped| - 1], ch) then Stop(-1)
        else if |popped| == 1 then Stop(i + 1)
        else Go(i + 1, popped[..|popped| - 1])
      else if ch == '>' then
        if i > 0 && (line[i - 1] == '-' || AfterOperator(line[..i - 1])) then Go(i + 1, stack)
        else if stack != [] && stack[|stack| - 1] == '<' then
          if |stack| == 1 then Stop(i + 1) else Go(i + 1, stack[..|stack| - 1])
        else Go(i + 1, stack)
      else if ch == ';' then
        var popped := PopWhile(stack, '<');
        if popped == [] then Stop(-1) else Go(i + 1, popped)
      else Go(i + 1, stack)
  }

  /** Scan of a line from position i to its end, one step a character. */
  function ScanUp(line: string, i: nat, stack: seq<char>, step: Stepper): ScanResult
    decreases |line| - i
  {
    if i >= |line| then (-1, Some(stack))
    else match step(line, i, stack)
         case Stop(end) => (end, None)
         case Go(_, st) => ScanUp(line, i + 1, st, step)
  }

  function FindEnd(line: string, i: nat, stack: seq<char>): ScanResult {
    ScanUp(line, i, stack, EndStep)
  }

  method FindEndOfExpressionInLine(line: string, startpos: nat, stack0: seq<char>) returns (r: ScanResult)
    requires startpos <= |line|
    ensures r == FindEnd(line, startpos, stack0)
  {
    var stack := stack0;
    for i := startpos to |line|
      invariant FindEnd(line, startpos, stack0) == FindEnd(line, i, stack)
    {
      var ch := line[i];
      if IsOpen(ch) {
        stack := stack + [ch];
      } else if ch == '<' {
        if i > 0 && line[i - 1] == '<' {
          if stack != [] && stack[|stack| - 1] == '<' {
            stack := stack[..|stack| - 1];
            if stack == [] {
              return (-1, None);
            }
          }
        } else if i > 0 && AfterOperator(line[..i]) {
          continue;
        } else {
          stack := stack + ['<'];
        }
      } else if IsClose(ch) {
        stack := PopAll(stack, '<');
        if stack == [] {
          return (-1, None);
        }
        if Pairs(stack[|stack| - 1], ch) {
          stack := stack[..|stack| - 1];
          if stack == [] {
            return (i + 1, None);
          }
        } else {
          return (-1, None);
        }
      } else if ch == '>' {
        if i > 0 && (line[i - 1] == '-' || AfterOperator(line[..i - 1])) {
          continue;
        }
        if stack != [] {
          if stack[|stack| - 1] == '<' {
            stack := stack[..|stack| - 1];
            if stack == [] {
              return (i + 1, None);
            }
          }
        }
      } else if ch == ';' {
        stack := PopAll(stack, '<');
        if stack == [] {
          return (-1, None);
        }
      }
    }
    return (-1, Some(stack));
  }

  /** `while stack and stack[-1] == c: stack.pop()` */
  method PopAll(stack0: seq<char>, c: char) returns (stack: seq<char>)
    ensures stack == PopWhile(stack0, c)
  {
    stack := stack0;
    while stack != [] && stack[|stack| - 1] == c
      invariant PopWhile(stack, c) == PopWhile(stack0, c)
    {
      stack := stack[..|stack| - 1];
    }
  }

  // ---- scanning backward -----------------------------------------------------------------

  function StartStep(line: string, i: nat, stack: seq<char>): (r: Step)
    ensures r.Go? ==> r.next == i || (i < |line| && r.next == i - 1 && Skips(line, i))
  {
    if i >= |line| then Stop(-1)
    else
      var ch := line[i];
      if IsClose(ch) then Go(i, stack + [ch])
      else if ch == '>' then
        if Skips(line, i) then Go(i - 1, stack) else Go(i, stack + ['>'])
      else if ch == '<' then
        if Skips(line, i) then Go(i - 1, stack)
        else if stack != [] && stack[|stack| - 1] == '>' then
          if |stack| == 1 then Stop(i) else Go(i, stack[..|stack| - 1])
        else Go(i, stack)
      else if IsOpen(ch) then
        var popped := PopWhile(stack, '>');
        if popped == [] || !Pairs(ch, popped[|popped| - 1]) then Stop(-1)
        else if |popped| == 1 then Stop(i)
        else Go(i, popped[..|popped| - 1])
      else if ch == ';' then
        var popped := PopWhile(stack, '>');
        if popped == [] then Stop(-1) else Go(i, popped)
      else Go(i, stack)
  }

  /** An angle bracket that takes the character before it along: "->", " >= ",
      "operator>" and "<<". */
  predicate Skips(line: string, i: nat)
    requires i < |line|
  {
    i > 0 &&
    ((line[i] == '>' && (line[i - 1] == '-' || SpacedGreaterEqual(line, i) || AfterOperator(line[..i]))) ||
     (line[i] == '<' && line[i - 1] == '<'))
  }

  /** Scan of line[..n] from its end, each step to where it says. */
  function ScanDown(line: string, n: nat, stack: seq<char>, step: Stepper): ScanResult {
    if n == 0 then (-1, Some(stack))
    else match step(line, n - 1, stack)
         case Stop(start) => (start, None)
         case Go(next, st) => if next < n then ScanDown(line, next, st, step) else (-1, None)
  }

  function FindStart(line: string, n: nat, stack: seq<char>): ScanResult {
    ScanDown(line, n, stack, StartStep)
  }

  method FindStartOfExpressionInLine(line: string, endpos: int, stack0: seq<char>) returns (r: ScanResult)
    requires -1 <= endpos < |line|
    ensures r == FindStart(line, endpos + 1, stack0)
  {
    var stack := stack0;
    var i := endpos;
    while i >= 0
      invariant -1 <= i < |line|
      invariant FindStart(line, endpos + 1, stack0) == FindStart(line, i + 1, stack)
    {
      var ch := line[i];
      if IsClose(ch) {
        stack := stack + [ch];
      } else if ch == '>' {
        if Skips(line, i) {
          i := i - 1;
        } else {
          stack := stack + ['>'];
        }
      } else if ch == '<' {
        if Skips(line, i) {
          i := i - 1;
        } else if stack != [] && stack[|stack| - 1] == '>' {
          stack := stack[..|stack| - 1];
          if stack == [] {
            return (i, None);
          }
        }
      } else if IsOpen(ch) {
        stack := PopAll(stack, '>');
        if stack == [] {
          return (-1, None);
        }
        if Pairs(ch, stack[|stack| - 1]) {
          stack := stack[..|stack| - 1];
          if stack == [] {
            return (i, None);
          }
        } else {
          return (-1, None);
        }
      } else if ch == ';' {
        stack := PopAll(stack, '>');
        if stack == [] {
          return (-1, None);
        }
      }
      i := i - 1;
    }
    return (-1, Some(stack));
  }

  // ---- angle brackets do not matter to a bracket match ------------------------------------

  /** The stack without its tentative angle brackets. */
  function Without(stack: seq<char>, angle: char): seq<char> {
    if stack == [] then []
    else if stack[|stack| - 1] == angle then Without(stack[..|stack| - 1], angle)
    else Without(stack[..|stack| - 1], angle) + [stack[|stack| - 1]]
  }

  predicate Rooted(stack: seq<char>, angle: char) {
    stack != [] && stack[0] != angle
  }

  /** `popped` stands on a bracket and st is what it holds without angle brackets. */
  ghost predicate SameTop(popped: seq<char>, st: seq<char>, angle: char) {
    Rooted(popped, angle) && st != [] && Without(popped, angle) == st && popped[|popped| - 1] == st[|st| - 1] &&
    Without(popped[..|popped| - 1], angle) == st[..|st| - 1] && (|popped| == 1 <==> |st| == 1)
  }

  lemma BracketOnTop(stack: seq<char>, angle: char)
    requires Rooted(stack, angle) && stack[|stack| - 1] != angle
    requires |stack| > 1 ==> Without(stack[..|stack| - 1], angle) != []
    ensures SameTop(stack, Without(stack, angle), angle)
  {
    assert Without(stack, angle)[..|Without(stack, angle)| - 1] == Without(stack[..|stack| - 1], angle);
  }

  lemma {:induction false} RootedStays(stack: seq<char>, angle: char)
    requires Rooted(stack, angle)
    ensures SameTop(PopWhile(stack, angle), Without(stack, angle), angle)
  {
    if |stack| == 1 {
    } else {
      RootedStays(stack[..|stack| - 1], angle);
    }
    if stack[|stack| - 1] != angle {
      BracketOnTop(stack, angle);
    }
  }

  lemma WithoutPushed(stack: seq<char>, c: char, angle: char)
    ensures Without(stack + [c], angle) == if c == angle then Without(stack, angle) else Without(stack, angle) + [c]
  {
    assert (stack + [c])[..|stack|] == stack;
  }

  /** Without its angle brackets, the stack of a scan that stands on a bracket is
      the stack of pending brackets: a bracket that points away is pushed, one
      that faces the top must pair with it and pops it, and all else leaves it. */
  ghost predicate TracksBrackets(step: Step, ch: char, stack: seq<char>, angle: char, pushes: bool, pops: bool,
                                 pairs: bool, found: int) {
    var st := Without(stack, angle);
    match step
    case Stop(at) =>
      pops && (if pairs then at == found && |st| == 1 else at == -1)
    case Go(_, next) =>
      Rooted(next, angle) && (pops ==> pairs && |st| > 1) &&
      Without(next, angle) == if pushes then st + [ch] else if pops then st[..|st| - 1] else st
  }

  /** A step of a forward scan pushes opening and pops closing brackets. */
  ghost predicate TracksUpAt(step: Stepper, line: string, i: nat, stack: seq<char>) {
    i < |line| && Rooted(stack, '<') ==>
      Without(stack, '<') != [] &&
      TracksBrackets(step(line, i, stack), line[i], stack, '<', IsOpen(line[i]), IsClose(line[i]),
                     Pairs(Without(stack, '<')[|Without(stack, '<')| - 1], line[i]), i + 1)
  }

  ghost predicate TracksUp(step: Stepper) {
    forall line, i: nat, stack {:trigger TracksUpAt(step, line, i, stack)} :: TracksUpAt(step, line, i, stack)
  }

  /** A step of a backward scan does it the other way round, and what it skips
      is no bracket. */
  ghost predicate TracksDownAt(step: Stepper, line: string, i: nat, stack: seq<char>) {
    i < |line| && Rooted(stack, '>') ==>
      Without(stack, '>') != [] &&
      TracksBrackets(step(line, i, stack), line[i], stack, '>', IsClose(line[i]), IsOpen(line[i]),
                     Pairs(line[i], Without(stack, '>')[|Without(stack, '>')| - 1]), i) &&
      (step(line, i, stack).Go? ==>
         var next := step(line, i, stack).next;
         next == i || (i == next + 1 && !IsOpen(line[next]) && !IsClose(line[next])))
  }

  ghost predicate TracksDown(step: Stepper) {
    forall line, i: nat, stack {:trigger TracksDownAt(step, line, i, stack)} :: TracksDownAt(step, line, i, stack)
  }

  // One lemma for each class of characters.

  lemma EndStepOpens(line: string, i: nat, stack: seq<char>)
    requires i < |line| && Rooted(stack, '<') && IsOpen(line[i])
    ensures TracksUpAt(EndStep, line, i, stack)
  {
    RootedStays(stack, '<');
    WithoutPushed(stack, line[i], '<');
  }

  lemma EndStepCloses(line: string, i: nat, stack: seq<char>)
    requires i < |line| && Rooted(stack, '<') && IsClose(line[i])
    ensures TracksUpAt(EndStep, line, i, stack)
  {
    RootedStays(stack, '<');
  }

  lemma EndStepAngles(line: string, i: nat, stack: seq<char>)
    requires i < |line| && Rooted(stack, '<') && (line[i] == '<' || line[i] == '>')
    ensures TracksUpAt(EndStep, line, i, stack)
  {
    RootedStays(stack, '<');
    WithoutPushed(stack, line[i], '<');
  }

  lemma EndStepOthers(line: string, i: nat, stack: seq<char>)
    requires i < |line| && Rooted(stack, '<') && !IsOpen(line[i]) && !IsClose(line[i])
    requires line[i] != '<' && line[i] != '>'
    ensures TracksUpAt(EndStep, line, i, stack)
  {
    RootedStays(stack, '<');
  }

  lemma EndStepTracks()
    ensures TracksUp(EndStep)
  {
    forall line: string, i: nat, stack: seq<char>
      ensures TracksUpAt(EndStep, line, i, stack)
    {
      if i < |line| && Rooted(stack, '<') {
        if IsOpen(line[i]) {
          EndStepOpens(line, i, stack);
        } else if IsClose(line[i]) {
          EndStepCloses(line, i, stack);
        } else if line[i] == '<' || line[i] == '>' {
          EndStepAngles(line, i, stack);
        } else {
          EndStepOthers(line, i, stack);
        }
      }
    }
  }

  lemma StartStepCloses(line: string, i: nat, stack: seq<char>)
    requires i < |line| && Rooted(stack, '>') && IsClose(line[i])
    ensures TracksDownAt(StartStep, line, i, stack)
  {
    RootedStays(stack, '>');
    WithoutPushed(stack, line[i], '>');
  }

  lemma StartStepOpens(line: string, i: nat, stack: seq<char>)
    requires i < |line| && Rooted(stack, '>') && IsOpen(line[i])
    ensures TracksDownAt(StartStep, line, i, stack)
  {
    RootedStays(stack, '>');
  }

  lemma StartStepAngles(line: string, i: nat, stack: seq<char>)
    requires i < |line| && Rooted(stack, '>') && (line[i] == '<' || line[i] == '>')
    ensures TracksDownAt(StartStep, line, i, stack)
  {
    RootedStays(stack, '>');
    WithoutPushed(stack, line[i], '>');
    if Skips(line, i) {
      SkippedIsNoBracket(line, i);
    }
  }

  lemma StartStepOthers(line: string, i: nat, stack: seq<char>)
    requires i < |line| && Rooted(stack, '>') && !IsOpen(line[i]) && !IsClose(line[i])
    requires line[i] != '<' && line[i] != '>'
    ensures TracksDownAt(StartStep, line, i, stack)
  {
    RootedStays(stack, '>');
  }

  lemma StartStepTracks()
    ensures TracksDown(StartStep)
  {
    forall line: string, i: nat, stack: seq<char>
      ensures TracksDownAt(StartStep, line, i, stack)
    {
      if i < |line| && Rooted(stack, '>') {
        if IsClose(line[i]) {
          StartStepCloses(line, i, stack);
        } else if IsOpen(line[i]) {
          StartStepOpens(line, i, stack);
        } else if line[i] == '<' || line[i] == '>' {
          StartStepAngles(line, i, stack);
        } else {
          StartStepOthers(line, i, stack);
        }
      }
    }
  }

  predicate Blanks(s: string, i: int, j: int) {
    0 <= i <= j <= |s| && forall k | i <= k < j :: IsSpace(s[k])
  }

  /** What is trimmed is all the blanks at the end. */
  lemma {:induction false} TrimRightCuts(s: string) returns (k: nat)
    ensures k <= |s| && TrimRight(s) == s[..k] && Blanks(s, k, |s|) && (k > 0 ==> !IsSpace(s[k - 1]))
  {
    if s == [] || !IsSpace(s[|s| - 1]) {
      k := |s|;
    } else {
      k := TrimRightCuts(s[..|s| - 1]);
      assert s[..|s| - 1][..k] == s[..k];
    }
  }

  /** The word "operator" stands at i, with only blanks after it. */
  predicate OperatorAt(s: string, i: nat) {
    i + 8 <= |s| && s[i..i + 8] == "operator" && Blanks(s, i + 8, |s|) && (i > 0 ==> !IsWord(s[i - 1]))
  }

  lemma AfterOperatorByCharacters(s: string)
    ensures AfterOperator(s) <==> exists i: nat :: OperatorAt(s, i)
  {
    var k := TrimRightCuts(s);
    if AfterOperator(s) {
      assert s[..k][k - 8..] == s[k - 8..k];
      assert OperatorAt(s, k - 8);
    }
    if i: nat :| OperatorAt(s, i) {
      assert s[i + 7] == s[i..i + 8][7];
      assert k == i + 8;
      assert s[..k][k - 8..] == s[i..i + 8];
    }
  }

  lemma AfterOperatorEnds(s: string)
    requires AfterOperator(s)
    ensures s != [] && (IsSpace(s[|s| - 1]) || s[|s| - 1] == 'r')
  {
    AfterOperatorByCharacters(s);
    var i: nat :| OperatorAt(s, i);
    assert s[i + 7] == s[i..i + 8][7];
  }

  /** The character a backward scan steps over without looking is no bracket. */
  lemma SkippedIsNoBracket(line: string, i: nat)
    requires i < |line| && Skips(line, i)
    ensures !IsOpen(line[i - 1]) && !IsClose(line[i - 1])
  {
    if AfterOperator(line[..i]) {
      AfterOperatorEnds(line[..i]);
    }
  }

  lemma StepIsForward(text: string, at: nat, line: string, i: nat, stack: seq<char>, step: Stepper)
    requires TracksUp(step) && i < |line| && at + i < |text| && text[at + i] == line[i] && Rooted(stack, '<')
    ensures match step(line, i, stack)
            case Stop(end) =>
              Forward(text, at + i, Without(stack, '<')) == (if end > -1 then Some(at + end) else None) &&
              (end == -1 || end == i + 1)
            case Go(_, st) =>
              Rooted(st, '<') &&
              Forward(text, at + i, Without(stack, '<')) == Forward(text, at + i + 1, Without(st, '<'))
  {
    assert TracksUpAt(step, line, i, stack);
  }

  lemma StepIsBackward(text: string, at: nat, line: string, i: nat, stack: seq<char>, step: Stepper)
    requires TracksDown(step) && i < |line| && Rooted(stack, '>')
    requires at + |line| <= |text| && text[at..at + |line|] == line
    ensures match step(line, i, stack)
            case Stop(start) =>
              Backward(text, at + i + 1, Without(stack, '>')) == (if start > -1 then Some(at + start) else None) &&
              (start == -1 || start == i)
            case Go(next, st) =>
              next <= i && Rooted(st, '>') &&
              Backward(text, at + i + 1, Without(stack, '>')) == Backward(text, at + next, Without(st, '>'))
  {
    assert TracksDownAt(step, line, i, stack);
    assert text[at + i] == text[at..at + |line|][i];
    if i > 0 {
      assert text[at + i - 1] == text[at..at + |line|][i - 1];
    }
  }

  /** One line of a forward scan whose stack stands on a bracket, seen within a
      text: the same brackets are matched as if there were no angle brackets. */
  lemma {:induction false} ScanIsForward(text: string, at: nat, line: string, i: nat, stack: seq<char>, step: Stepper)
    requires TracksUp(step)
    requires i <= |line| && at + |line| <= |text| && text[at..at + |line|] == line && Rooted(stack, '<')
    ensures var (end, st) := ScanUp(line, i, stack, step);
            if end > -1 then i < end <= |line| && Forward(text, at + i, Without(stack, '<')) == Some(at + end)
            else if st.None? then Forward(text, at + i, Without(stack, '<')) == None
            else Rooted(st.value, '<') && Forward(text, at + i, Without(stack, '<')) ==
                                          Forward(text, at + |line|, Without(st.value, '<'))
    decreases |line| - i
  {
    if i == |line| {
    } else {
      assert text[at + i] == text[at..at + |line|][i];
      StepIsForward(text, at, line, i, stack, step);
      match step(line, i, stack)
      case Stop(end) =>
      case Go(_, st) => ScanIsForward(text, at, line, i + 1, st, step);
    }
  }

  lemma {:induction false} ScanIsBackward(text: string, at: nat, line: string, n: nat, stack: seq<char>, step: Stepper)
    requires TracksDown(step)
    requires n <= |line| && at + |line| <= |text| && text[at..at + |line|] == line && Rooted(stack, '>')
    ensures var (start, st) := ScanDown(line, n, stack, step);
            if start > -1 then start < n && Backward(text, at + n, Without(stack, '>')) == Some(at + start)
            else if st.None? then Backward(text, at + n, Without(stack, '>')) == None
            else Rooted(st.value, '>') && Backward(text, at + n, Without(stack, '>')) ==
                                          Backward(text, at, Without(st.value, '>'))
  {
    if n == 0 {
    } else {
      var i := n - 1;
      assert text[at + i] == text[at..at + |line|][i];
      StepIsBackward(text, at, line, i, stack, step);
      match step(line, i, stack)
      case Stop(start) =>
      case Go(next, st) => ScanIsBackward(text, at, line, next, st, step);
    }
  }

  // ---- several lines ------------------------------------------------------------------------

  /** The lines as one text, each ended by a newline. */
  function Text(lines: seq<string>): string {
    if lines == [] then [] else Text(lines[..|lines| - 1]) + lines[|lines| - 1] + ['\n']
  }

  /** Where line l starts in the text. */
  function Offset(lines: seq<string>, l: nat): nat
    requires l <= |lines|
  {
    |Text(lines[..l])|
  }

  lemma {:induction false} LineInText(lines: seq<string>, l: nat)
    requires l < |lines|
    ensures Offset(lines, l + 1) == Offset(lines, l) + |lines[l]| + 1 <= |Text(lines)|
    ensures Text(lines)[Offset(lines, l)..Offset(lines, l) + |lines[l]|] == lines[l]
    ensures Text(lines)[Offset(lines, l) + |lines[l]|] == '\n'
    ensures l + 1 == |lines| ==> Offset(lines, l + 1) == |Text(lines)|
  {
    var front := lines[..|lines| - 1];
    assert lines[..l + 1][..l] == lines[..l];
    if l < |front| {
      LineInText(front, l);
      assert front[..l] == lines[..l] && front[..l + 1] == lines[..l + 1];
      var a, b := Offset(lines, l), Offset(lines, l) + |lines[l]|;
      assert Text(lines)[a..b] == Text(front)[a..b];
    } else {
      assert lines[..l] == front && lines[..l + 1] == lines;
    }
  }

  lemma {:induction false} LaterLine(lines: seq<string>, l: nat, m: nat)
    requires l < m <= |lines|
    ensures Offset(lines, l) + |lines[l]| < Offset(lines, m)
    decreases m - l
  {
    LineInText(lines, l);
    if l + 1 == m {
    } else {
      LaterLine(lines, l + 1, m);
    }
  }

  /** A place in the text is a line and a position in it. */
  lemma PlaceUnique(lines: seq<string>, l: nat, p: nat, m: nat, q: nat)
    requires l < |lines| && m < |lines| && p <= |lines[l]| && q <= |lines[m]|
    requires Offset(lines, l) + p == Offset(lines, m) + q
    ensures l == m && p == q
  {
    if l < m { LaterLine(lines, l, m); }
    if m < l { LaterLine(lines, m, l); }
  }

  /** A line, its number and a position in it; position -1 for no match. */
  type Place = (string, nat, int)

  function CloseFrom(lines: seq<string>, l: nat, pos: nat, stack: seq<char>, step: Stepper): Place
    requires l < |lines| && pos <= |lines[l]|
    decreases |lines| - l
  {
    var (end, st) := ScanUp(lines[l], pos, stack, step);
    if end > -1 then (lines[l], l, end)
    else if st.Some? && st.value != [] && l + 1 < |lines| then CloseFrom(lines, l + 1, 0, st.value, step)
    else (lines[l], |lines|, -1)
  }

  function OpenFrom(lines: seq<string>, l: nat, n: nat, stack: seq<char>, step: Stepper): Place
    requires l < |lines| && n <= |lines[l]|
  {
    var (start, st) := ScanDown(lines[l], n, stack, step);
    if start > -1 then (lines[l], l, start)
    else if st.Some? && st.value != [] && l > 0 then OpenFrom(lines, l - 1, |lines[l - 1]|, st.value, step)
    else (lines[l], 0, -1)
  }

  /** `<<` or `<=` stands at pos. */
  predicate ShiftOrCompare(line: string, pos: nat)
    requires pos < |line|
  {
    line[pos] == '<' && pos + 1 < |line| && (line[pos + 1] == '<' || line[pos + 1] == '=')
  }

  function Closing(lines: seq<string>, linenum: nat, pos: nat): Place
    requires linenum < |lines| && pos < |lines[linenum]|
  {
    var line := lines[linenum];
    if !(IsOpen(line[pos]) || line[pos] == '<') || ShiftOrCompare(line, pos) then (line, |lines|, -1)
    else CloseFrom(lines, linenum, pos, [], EndStep)
  }

  function Opening(lines: seq<string>, linenum: nat, pos: nat): Place
    requires linenum < |lines| && pos < |lines[linenum]|
  {
    var line := lines[linenum];
    if !(IsClose(line[pos]) || line[pos] == '>') then (line, 0, -1)
    else OpenFrom(lines, linenum, pos + 1, [], StartStep)
  }

  method CloseExpression(lines: seq<string>, linenum0: nat, pos: nat) returns (r: Place)
    requires linenum0 < |lines| && pos < |lines[linenum0]|
    ensures r == Closing(lines, linenum0, pos)
  {
    var linenum := linenum0;
    var line := lines[linenum];
    if !(IsOpen(line[pos]) || line[pos] == '<') || ShiftOrCompare(line, pos) {
      return (line, |lines|, -1);
    }
    var scan := FindEndOfExpressionInLine(line, pos, []);
    if scan.0 > -1 {
      return (line, linenum, scan.0);
    }
    while scan.1.Some? && scan.1.value != [] && linenum < |lines| - 1
      invariant linenum < |lines| && line == lines[linenum]
      invariant CloseFrom(lines, linenum0, pos, [], EndStep) ==
                if scan.1.Some? && scan.1.value != [] && linenum + 1 < |lines|
                then CloseFrom(lines, linenum + 1, 0, scan.1.value, EndStep) else (line, |lines|, -1)
      decreases |lines| - linenum
    {
      linenum := linenum + 1;
      line := lines[linenum];
      scan := FindEndOfExpressionInLine(line, 0, scan.1.value);
      if scan.0 > -1 {
        return (line, linenum, scan.0);
      }
    }
    return (line, |lines|, -1);
  }

  method ReverseCloseExpression(lines: seq<string>, linenum0: nat, pos: nat) returns (r: Place)
    requires linenum0 < |lines| && pos < |lines[linenum0]|
    ensures r == Opening(lines, linenum0, pos)
  {
    var linenum := linenum0;
    var line := lines[linenum];
    if !(IsClose(line[pos]) || line[pos] == '>') {
      return (line, 0, -1);
    }
    var scan := FindStartOfExpressionInLine(line, pos, []);
    if scan.0 > -1 {
      return (line, linenum, scan.0);
    }
    while scan.1.Some? && scan.1.value != [] && linenum > 0
      invariant linenum < |lines| && line == lines[linenum]
      invariant OpenFrom(lines, linenum0, pos + 1, [], StartStep) ==
                if scan.1.Some? && scan.1.value != [] && linenum > 0
                then OpenFrom(lines, linenum - 1, |lines[linenum - 1]|, scan.1.value, StartStep) else (line, 0, -1)
      decreases linenum
    {
      linenum := linenum - 1;
      line := lines[linenum];
      scan := FindStartOfExpressionInLine(line, |line| - 1, scan.1.value);
      if scan.0 > -1 {
        return (line, linenum, scan.0);
      }
    }
    return (line, 0, -1);
  }

  // ---- what the scanners find -------------------------------------------------------------------

  lemma {:induction false} CloseFromIsForward(lines: seq<string>, l: nat, pos: nat, stack: seq<char>, step: Stepper)
    requires l < |lines| && pos <= |lines[l]| && Rooted(stack, '<') && TracksUp(step)
    ensures var (line, m, end) := CloseFrom(lines, l, pos, stack, step);
            if end == -1 then Forward(Text(lines), Offset(lines, l) + pos, Without(stack, '<')) == None
            else m < |lines| && line == lines[m] && 0 < end <= |line| &&
                 Forward(Text(lines), Offset(lines, l) + pos, Without(stack, '<')) == Some(Offset(lines, m) + end)
    decreases |lines| - l
  {
    LineInText(lines, l);
    ScanIsForward(Text(lines), Offset(lines, l), lines[l], pos, stack, step);
    var (end, st) := ScanUp(lines[l], pos, stack, step);
    if end > -1 || st.None? || l + 1 == |lines| {
    } else {
      CloseFromIsForward(lines, l + 1, 0, st.value, step);
    }
  }

  lemma {:induction false} OpenFromIsBackward(lines: seq<string>, l: nat, n: nat, stack: seq<char>, step: Stepper)
    requires l < |lines| && n <= |lines[l]| && Rooted(stack, '>') && TracksDown(step)
    ensures var (line, m, start) := OpenFrom(lines, l, n, stack, step);
            if start == -1 then Backward(Text(lines), Offset(lines, l) + n, Without(stack, '>')) == None
            else m < |lines| && line == lines[m] && 0 <= start < |line| &&
                 Backward(Text(lines), Offset(lines, l) + n, Without(stack, '>')) == Some(Offset(lines, m) + start)
  {
    LineInText(lines, l);
    ScanIsBackward(Text(lines), Offset(lines, l), lines[l], n, stack, step);
    var (start, st) := ScanDown(lines[l], n, stack, step);
    if start > -1 || st.None? || l == 0 {
    } else {
      LineInText(lines, l - 1);
      OpenFromIsBackward(lines, l - 1, |lines[l - 1]|, st.value, step);
    }
  }

  /** A place that a match from text position `from` was found at. */
  ghost predicate FoundAt(lines: seq<string>, place: Place, found: Option<nat>) {
    var (line, m, q) := place;
    if q == -1 then found == None
    else m < |lines| && line == lines[m] && 0 <= q <= |line| && found == Some(Offset(lines, m) + q)
  }

  lemma CharInText(lines: seq<string>, l: nat, p: nat)
    requires l < |lines| && p < |lines[l]|
    ensures Offset(lines, l) + p < |Text(lines)| && Text(lines)[Offset(lines, l) + p] == lines[l][p]
  {
    LineInText(lines, l);
    var text, at := Text(lines), Offset(lines, l);
    assert text[at..at + |lines[l]|][p] == text[at + p];
  }

  lemma StackedFirst(lines: seq<string>, l: nat, p: nat, step: Stepper)
    requires l < |lines| && p < |lines[l]| && IsOpen(lines[l][p]) && TracksUp(step)
    requires step(lines[l], p, []) == Go(p + 1, [lines[l][p]])
    ensures FoundAt(lines, CloseFrom(lines, l, p, [], step), Forward(Text(lines), Offset(lines, l) + p, []))
    ensures CloseFrom(lines, l, p, [], step).2 != 0
  {
    var ch := lines[l][p];
    CharInText(lines, l, p);
    assert [] + [ch] == [ch];
    WithoutPushed([], ch, '<');
    CloseFromIsForward(lines, l, p + 1, [ch], step);
    assert CloseFrom(lines, l, p, [], step) == CloseFrom(lines, l, p + 1, [ch], step);
  }

  lemma ClosingIsForward(lines: seq<string>, l: nat, p: nat)
    requires l < |lines| && p < |lines[l]| && IsOpen(lines[l][p])
    ensures FoundAt(lines, Closing(lines, l, p), Forward(Text(lines), Offset(lines, l) + p, []))
    ensures Closing(lines, l, p).2 != 0
  {
    EndStepTracks();
    assert [] + [lines[l][p]] == [lines[l][p]];
    StackedFirst(lines, l, p, EndStep);
  }

  lemma OpenOneStep(lines: seq<string>, l: nat, p: nat, step: Stepper, ch: char)
    requires l < |lines| && p < |lines[l]| && step(lines[l], p, []) == Go(p, [ch])
    ensures OpenFrom(lines, l, p + 1, [], step) == OpenFrom(lines, l, p, [ch], step)
  {
    assert ScanDown(lines[l], p + 1, [], step) == ScanDown(lines[l], p, [ch], step);
  }

  lemma StackedLast(lines: seq<string>, l: nat, p: nat, step: Stepper)
    requires l < |lines| && p < |lines[l]| && IsClose(lines[l][p]) && TracksDown(step)
    requires step(lines[l], p, []) == Go(p, [lines[l][p]])
    ensures var place := OpenFrom(lines, l, p + 1, [], step);
            FoundAt(lines, place, Backward(Text(lines), Offset(lines, l) + p + 1, [])) &&
            (place.2 != -1 ==> place.2 < |place.0|)
  {
    var ch := lines[l][p];
    CharInText(lines, l, p);
    assert [] + [ch] == [ch];
    WithoutPushed([], ch, '>');
    OpenFromIsBackward(lines, l, p, [ch], step);
    OpenOneStep(lines, l, p, step, ch);
  }

  lemma OpeningIsBackward(lines: seq<string>, l: nat, p: nat)
    requires l < |lines| && p < |lines[l]| && IsClose(lines[l][p])
    ensures FoundAt(lines, Opening(lines, l, p), Backward(Text(lines), Offset(lines, l) + p + 1, []))
    ensures Opening(lines, l, p).2 != -1 ==> Opening(lines, l, p).2 < |Opening(lines, l, p).0|
  {
    StartStepTracks();
    assert [] + [lines[l][p]] == [lines[l][p]];
    StackedLast(lines, l, p, StartStep);
  }

  /** The place ends what the bracket at text position i encloses; there is no
      place exactly if it encloses nothing. */
  ghost predicate ClosesAt(lines: seq<string>, i: nat, place: Place) {
    var (line, m, end) := place;
    if end == -1 then Unclosed(Text(lines), i)
    else m < |lines| && line == lines[m] && 0 < end <= |line| && Enclosed(Text(lines), i, Offset(lines, m) + end)
  }

  /** The place starts what ends before text position j. */
  ghost predicate OpensAt(lines: seq<string>, j: nat, place: Place) {
    var (line, m, start) := place;
    if start == -1 then Unopened(Text(lines), j)
    else m < |lines| && line == lines[m] && 0 <= start < |line| && Enclosed(Text(lines), Offset(lines, m) + start, j)
  }

  lemma FoundCloses(lines: seq<string>, place: Place, i: nat)
    requires i < |Text(lines)| && IsOpen(Text(lines)[i]) && place.2 != 0
    requires FoundAt(lines, place, Forward(Text(lines), i, []))
    ensures ClosesAt(lines, i, place)
  {
    if place.2 == -1 {
      ForwardFails(Text(lines), i);
    } else {
      ForwardFindsEnclosed(Text(lines), i, Offset(lines, place.1) + place.2);
    }
  }

  lemma FoundOpens(lines: seq<string>, place: Place, j: nat)
    requires 0 < j <= |Text(lines)| && IsClose(Text(lines)[j - 1]) && (place.2 != -1 ==> place.2 < |place.0|)
    requires FoundAt(lines, place, Backward(Text(lines), j, []))
    ensures OpensAt(lines, j, place)
  {
    if place.2 == -1 {
      BackwardFails(Text(lines), j);
    } else {
      BackwardFindsEnclosed(Text(lines), Offset(lines, place.1) + place.2, j);
    }
  }

  /** From an opening bracket, whatever angle brackets and semicolons the text
      holds: a close is reported at the end of what the bracket encloses, and
      none is reported exactly when it encloses nothing. */
  lemma ClosingIsEnclosed(lines: seq<string>, l: nat, p: nat)
    requires l < |lines| && p < |lines[l]| && IsOpen(lines[l][p])
    ensures ClosesAt(lines, Offset(lines, l) + p, Closing(lines, l, p))
  {
    ClosingIsForward(lines, l, p);
    CharInText(lines, l, p);
    FoundCloses(lines, Closing(lines, l, p), Offset(lines, l) + p);
  }

  lemma OpeningIsEnclosed(lines: seq<string>, l: nat, p: nat)
    requires l < |lines| && p < |lines[l]| && IsClose(lines[l][p])
    ensures OpensAt(lines, Offset(lines, l) + p + 1, Opening(lines, l, p))
  {
    OpeningIsBackward(lines, l, p);
    CharInText(lines, l, p);
    FoundOpens(lines, Opening(lines, l, p), Offset(lines, l) + p + 1);
  }

  /** The two directions undo each other on every text, over any number of lines. */
  lemma CloseThenReverse(lines: seq<string>, l: nat, p: nat)
    requires l < |lines| && p < |lines[l]| && IsOpen(lines[l][p])
    ensures var (line, m, end) := Closing(lines, l, p);
            end != -1 ==> m < |lines| && 0 < end <= |lines[m]| && Opening(lines, m, end - 1) == (lines[l], l, p)
  {
    ClosingIsEnclosed(lines, l, p);
    var (line, m, end) := Closing(lines, l, p);
    if end != -1 {
      CharInText(lines, m, end - 1);
      OpeningIsBackward(lines, m, end - 1);
      BackwardFindsEnclosed(Text(lines), Offset(lines, l) + p, Offset(lines, m) + end);
      var (_, k, start) := Opening(lines, m, end - 1);
      PlaceUnique(lines, k, start, l, p);
    }
  }

  lemma ReverseThenClose(lines: seq<string>, m: nat, q: nat)
    requires m < |lines| && q < |lines[m]| && IsClose(lines[m][q])
    ensures var (line, l, start) := Opening(lines, m, q);
            start != -1 ==> l < |lines| && 0 <= start < |lines[l]| && Closing(lines, l, start) == (lines[m], m, q + 1)
  {
    OpeningIsEnclosed(lines, m, q);
    var (line, l, start) := Opening(lines, m, q);
    if start != -1 {
      CharInText(lines, l, start);
      ClosingIsForward(lines, l, start);
      ForwardFindsEnclosed(Text(lines), Offset(lines, l) + start, Offset(lines, m) + q + 1);
      var (_, k, end) := Closing(lines, l, start);
      PlaceUnique(lines, k, end, m, q + 1);
    }
  }

  // ---- text between brackets ------------------------------------------------------------------------

  function Closer(open: char): char
    requires IsOpen(open)
  {
    if open == '(' then ')' else if open == '[' then ']' else '}'
  }

  /** `start` is the end of the pattern's match, if the pattern occurs at all. */
  method GetTextInside(text: string, start: Option<nat>) returns (r: Option<string>)
    requires start.Some? ==> 0 < start.value <= |text| && IsOpen(text[start.value - 1])
    ensures start.None? ==> r == None
    ensures start.Some? && r.Some? ==>
              start.value + |r.value| < |text| && r.value == text[start.value..start.value + |r.value|] &&
              Enclosed(text, start.value - 1, start.value + |r.value| + 1)
    ensures start.Some? && r.None? ==> Unclosed(text, start.value - 1)
  {
    if start.None? {
      return None;
    }
    var startPosition := start.value;
    var punctuationStack := [Closer(text[startPosition - 1])];
    ghost var opens := [text[startPosition - 1]];
    ghost var whole := Forward(text, startPosition - 1, []);
    assert [] + opens == opens;
    var position := startPosition;
    while punctuationStack != [] && position < |text|
      invariant startPosition <= position <= |text| && |opens| == |punctuationStack|
      invariant forall i | 0 <= i < |opens| :: IsOpen(opens[i]) && punctuationStack[i] == Closer(opens[i])
      invariant whole == if opens == [] then Some(position) else Forward(text, position, opens)
      invariant opens == [] ==> position > startPosition
      decreases |text| - position
    {
      if text[position] == punctuationStack[|punctuationStack| - 1] {
        punctuationStack := punctuationStack[..|punctuationStack| - 1];
        opens := opens[..|opens| - 1];
      } else if IsClose(text[position]) {
        ForwardFails(text, startPosition - 1);
        return None;
      } else if IsOpen(text[position]) {
        punctuationStack := punctuationStack + [Closer(text[position])];
        opens := opens + [text[position]];
      }
      position := position + 1;
    }
    if punctuationStack != [] {
      ForwardFails(text, startPosition - 1);
      return None;
    }
    ForwardFindsEnclosed(text, startPosition - 1, position);
    return Some(text[startPosition..position - 1]);
  }
}
