/** What a scan from an angle bracket finds. */
module AngleBrackets {
  import opened Options
  import opened AngleActs
  import opened Brackets
  import opened CloseExpression

  // ---- brackets of a stretch of text ----------------------------------------------------

  /** The pending brackets after s[i..j] has been read on top of `st`; none if a
      closing bracket does not pair with the last one pending. */
  function Reads(s: string, i: nat, j: nat, st: seq<char>): Option<seq<char>>
    requires j <= |s|
    decreases j - i
  {
    if i >= j then Some(st)
    else if IsOpen(s[i]) then Reads(s, i + 1, j, st + [s[i]])
    else if IsClose(s[i]) then
      if st == [] || !Pairs(st[|st| - 1], s[i]) then None else Reads(s, i + 1, j, st[..|st| - 1])
    else Reads(s, i + 1, j, st)
  }

  /** The same, read backwards. */
  function ReadsBack(s: string, i: nat, j: nat, st: seq<char>): Option<seq<char>>
    requires j <= |s|
  {
    if i >= j then Some(st)
    else if IsClose(s[j - 1]) then ReadsBack(s, i, j - 1, st + [s[j - 1]])
    else if IsOpen(s[j - 1]) then
      if st == [] || !Pairs(s[j - 1], st[|st| - 1]) then None else ReadsBack(s, i, j - 1, st[..|st| - 1])
    else ReadsBack(s, i, j - 1, st)
  }

  lemma {:induction false} ReadsJoin(s: string, i: nat, k: nat, j: nat, st: seq<char>, mid: seq<char>)
    requires i <= k <= j <= |s| && Reads(s, i, k, st) == Some(mid)
    ensures Reads(s, i, j, st) == Reads(s, k, j, mid)
    decreases k - i
  {
    if i == k {
    } else if IsOpen(s[i]) {
      ReadsJoin(s, i + 1, k, j, st + [s[i]], mid);
    } else if IsClose(s[i]) {
      ReadsJoin(s, i + 1, k, j, st[..|st| - 1], mid);
    } else {
      ReadsJoin(s, i + 1, k, j, st, mid);
    }
  }

  lemma {:induction false} ReadsBackJoin(s: string, i: nat, k: nat, j: nat, st: seq<char>, mid: seq<char>)
    requires i <= k <= j <= |s| && ReadsBack(s, k, j, st) == Some(mid)
    ensures ReadsBack(s, i, j, st) == ReadsBack(s, i, k, mid)
    decreases j - k
  {
    if k == j {
    } else if IsClose(s[j - 1]) {
      ReadsBackJoin(s, i, k, j - 1, st + [s[j - 1]], mid);
    } else if IsOpen(s[j - 1]) {
      ReadsBackJoin(s, i, k, j - 1, st[..|st| - 1], mid);
    } else {
      ReadsBackJoin(s, i, k, j - 1, st, mid);
    }
  }

  lemma {:induction false} ReadsStuck(s: string, i: nat, k: nat, j: nat, st: seq<char>)
    requires i <= k <= j <= |s| && Reads(s, i, k, st).None?
    ensures Reads(s, i, j, st).None?
    decreases k - i
  {
    if i == k {
    } else if IsOpen(s[i]) {
      ReadsStuck(s, i + 1, k, j, st + [s[i]]);
    } else if !IsClose(s[i]) {
      ReadsStuck(s, i + 1, k, j, st);
    } else if st != [] && Pairs(st[|st| - 1], s[i]) {
      ReadsStuck(s, i + 1, k, j, st[..|st| - 1]);
    }
  }

  lemma {:induction false} ReadsBackStuck(s: string, i: nat, k: nat, j: nat, st: seq<char>)
    requires i <= k <= j <= |s| && ReadsBack(s, k, j, st).None?
    ensures ReadsBack(s, i, j, st).None?
    decreases j - k
  {
    if k == j {
    } else if IsClose(s[j - 1]) {
      ReadsBackStuck(s, i, k, j - 1, st + [s[j - 1]]);
    } else if !IsOpen(s[j - 1]) {
      ReadsBackStuck(s, i, k, j - 1, st);
    } else if st != [] && Pairs(s[j - 1], st[|st| - 1]) {
      ReadsBackStuck(s, i, k, j - 1, st[..|st| - 1]);
    }
  }

  lemma {:induction false} ReadsIdle(s: string, i: nat, k: nat, j: nat, st: seq<char>)
    requires NoBracket(s, i, k) && k <= j <= |s|
    ensures Reads(s, i, j, st) == Reads(s, k, j, st)
    decreases k - i
  {
    if i == k {
    } else {
      ReadsIdle(s, i + 1, k, j, st);
    }
  }

  lemma {:induction false} ReadsBackIdle(s: string, i: nat, k: nat, j: nat, st: seq<char>)
    requires NoBracket(s, k, j) && i <= k
    ensures ReadsBack(s, i, j, st) == ReadsBack(s, i, k, st)
    decreases j - k
  {
    if k == j {
    } else {
      ReadsBackIdle(s, i, k, j - 1, st);
    }
  }

  /** Balanced text leaves what is pending as it was. */
  lemma {:induction false} ReadsPasses(f: Forest, s: string, i: nat, k: nat, j: nat, st: seq<char>)
    requires Balanced(f, s, i, k) && k <= j <= |s|
    ensures Reads(s, i, j, st) == Reads(s, k, j, st)
  {
    match f
    case Empty => ReadsIdle(s, i, k, j, st);
    case Node(a, inner, b, rest) =>
      ReadsIdle(s, i, a, j, st);
      ReadsPasses(inner, s, a + 1, b, j, st + [s[a]]);
      assert (st + [s[a]])[..|st|] == st;
      ReadsPasses(rest, s, b + 1, k, j, st);
  }

  lemma {:induction false} ReadsBackPasses(f: Forest, s: string, i: nat, k: nat, j: nat, st: seq<char>)
    requires Balanced(f, s, k, j) && i <= k
    ensures ReadsBack(s, i, j, st) == ReadsBack(s, i, k, st)
  {
    match f
    case Empty => ReadsBackIdle(s, i, k, j, st);
    case Node(a, inner, b, rest) =>
      ReadsBackPasses(rest, s, i, b + 1, j, st);
      ReadsBackPasses(inner, s, i, a + 1, b, st + [s[b]]);
      assert (st + [s[b]])[..|st|] == st;
      ReadsBackIdle(s, i, k, a, st);
  }

  /** A reading that ends with fewer pending brackets closes the last one. */
  lemma {:induction false} ReadsClosing(s: string, i: nat, j: nat, st: seq<char>) returns (f: Forest, m: nat)
    requires j <= |s| && Reads(s, i, j, st).Some? && |Reads(s, i, j, st).value| < |st|
    ensures i <= m < j && Balanced(f, s, i, m) && Pairs(st[|st| - 1], s[m])
    ensures Reads(s, i, j, st) == Reads(s, m + 1, j, st[..|st| - 1])
    decreases j - i
  {
    if IsClose(s[i]) {
      f, m := Empty, i;
    } else if IsOpen(s[i]) {
      var inner, b := ReadsClosing(s, i + 1, j, st + [s[i]]);
      assert (st + [s[i]])[..|st|] == st;
      var rest;
      rest, m := ReadsClosing(s, b + 1, j, st);
      f := Node(i, inner, b, rest);
    } else {
      f, m := ReadsClosing(s, i + 1, j, st);
      f := Widened(f, s, i, m);
    }
  }

  lemma {:induction false} ReadsBackOpening(s: string, i: nat, j: nat, st: seq<char>) returns (f: Forest, m: nat)
    requires j <= |s| && ReadsBack(s, i, j, st).Some? && |ReadsBack(s, i, j, st).value| < |st|
    ensures i <= m < j && Balanced(f, s, m + 1, j) && Pairs(s[m], st[|st| - 1])
    ensures ReadsBack(s, i, j, st) == ReadsBack(s, i, m, st[..|st| - 1])
    decreases j - i
  {
    if IsOpen(s[j - 1]) {
      f, m := Empty, j - 1;
    } else if IsClose(s[j - 1]) {
      var inner, a := ReadsBackOpening(s, i, j - 1, st + [s[j - 1]]);
      assert (st + [s[j - 1]])[..|st|] == st;
      var before;
      before, m := ReadsBackOpening(s, i, a, st);
      f := Appended(before, s, m + 1, a, inner, j - 1);
    } else {
      f, m := ReadsBackOpening(s, i, j - 1, st);
      f := Extended(f, s, m + 1, j);
    }
  }

  /** A stretch that leaves nothing pending is balanced. */
  lemma {:induction false} ReadsNested(s: string, i: nat, j: nat) returns (f: Forest)
    requires i <= j <= |s| && Reads(s, i, j, []) == Some([])
    ensures Balanced(f, s, i, j)
    decreases j - i
  {
    if i == j {
      f := Empty;
    } else if IsOpen(s[i]) {
      assert [] + [s[i]] == [s[i]];
      var inner, b := ReadsClosing(s, i + 1, j, [s[i]]);
      var rest := ReadsNested(s, b + 1, j);
      f := Node(i, inner, b, rest);
    } else {
      f := ReadsNested(s, i + 1, j);
      f := Widened(f, s, i, j);
    }
  }

  lemma {:induction false} ReadsBackNested(s: string, i: nat, j: nat) returns (f: Forest)
    requires i <= j <= |s| && ReadsBack(s, i, j, []) == Some([])
    ensures Balanced(f, s, i, j)
    decreases j - i
  {
    if i == j {
      f := Empty;
    } else if IsClose(s[j - 1]) {
      assert [] + [s[j - 1]] == [s[j - 1]];
      var inner, a := ReadsBackOpening(s, i, j - 1, [s[j - 1]]);
      var before := ReadsBackNested(s, i, a);
      f := Appended(before, s, i, a, inner, j - 1);
    } else {
      f := ReadsBackNested(s, i, j - 1);
      f := Extended(f, s, i, j);
    }
  }

  // ---- what the characters of a line do to a forward scan --------------------------------

  /** The angle bracket at p goes on the stack of a scan that starts there. */
  predicate PushesLess(line: string, p: nat)
    requires p < |line|
  {
    line[p] == '<' && !(p > 0 && (line[p - 1] == '<' || AfterOperator(line[..p])))
  }

  predicate PushesGreater(line: string, p: nat)
    requires p < |line|
  {
    line[p] == '>' && !Skips(line, p)
  }

  /** The bracket that a bracket pairs with. */
  function Mate(c: char): char {
    match c
    case '(' => ')'
    case ')' => '('
    case '[' => ']'
    case ']' => '['
    case '{' => '}'
    case '}' => '{'
    case _ => c
  }

  function ActUp(line: string, i: nat): Act {
    if i >= |line| then Idle
    else if IsOpen(line[i]) then Opens(line[i])
    else if IsClose(line[i]) then Closes(Mate(line[i]))
    else if line[i] == ';' then Semicolon
    else if PushesLess(line, i) then Angle
    else if line[i] == '<' && line[i - 1] == '<' then Unangle(false)
    else if line[i] == '>' && !(i > 0 && (line[i - 1] == '-' || AfterOperator(line[..i - 1]))) then Unangle(true)
    else Idle
  }

  function AsStep(o: Outcome, found: nat, next: nat): Step {
    match o
    case On(stack) => Go(next, stack)
    case Found => Stop(found)
    case Fail => Stop(-1)
  }

  /** A step of a forward scan does what the character says. */
  ghost predicate StepsUpAt(step: Stepper, line: string, i: nat, stack: seq<char>) {
    i < |line| ==> step(line, i, stack) == AsStep(Effect(stack, ActUp(line, i), '<'), i + 1, i + 1)
  }

  ghost predicate StepsUp(step: Stepper) {
    forall line, i: nat, stack {:trigger StepsUpAt(step, line, i, stack)} :: StepsUpAt(step, line, i, stack)
  }

  lemma EndStepsUp()
    ensures StepsUp(EndStep)
  {
    forall line: string, i: nat, stack: seq<char>
      ensures StepsUpAt(EndStep, line, i, stack)
    {
      EndStepsUpAt(line, i, stack);
    }
  }

  lemma EndStepsUpAt(line: string, i: nat, stack: seq<char>)
    ensures StepsUpAt(EndStep, line, i, stack)
  {
  }

  // ---- and those of a text ------------------------------------------------------------------

  type Reading = (string, nat) -> Act

  /** What each character of a text does; a newline does nothing. */
  function TextActs(lines: seq<string>, act: Reading): seq<Act> {
    if lines == [] then []
    else
      var last := lines[|lines| - 1];
      TextActs(lines[..|lines| - 1], act) + seq(|last|, i requires 0 <= i < |last| => act(last, i)) + [Idle]
  }

  lemma {:induction false} TextActAt(lines: seq<string>, act: Reading, l: nat, i: nat)
    requires l < |lines| && i <= |lines[l]|
    ensures |TextActs(lines, act)| == |Text(lines)| && Offset(lines, l) + i < |Text(lines)|
    ensures TextActs(lines, act)[Offset(lines, l) + i] == if i < |lines[l]| then act(lines[l], i) else Idle
  {
    var front := lines[..|lines| - 1];
    LineInText(lines, l);
    TextActsLength(front, act);
    if l < |front| {
      TextActAt(front, act, l, i);
      assert front[..l] == lines[..l];
    } else {
      assert lines[..l] == front;
    }
  }

  lemma {:induction false} TextActsLength(lines: seq<string>, act: Reading)
    ensures |TextActs(lines, act)| == |Text(lines)|
  {
    if lines == [] {
    } else {
      TextActsLength(lines[..|lines| - 1], act);
    }
  }

  /** Every act is the act of a character of the text. */
  lemma {:induction false} TextActOf(lines: seq<string>, act: Reading, k: nat) returns (line: string, i: nat)
    requires k < |Text(lines)|
    ensures |TextActs(lines, act)| == |Text(lines)|
    ensures TextActs(lines, act)[k] == if i < |line| then act(line, i) else Idle
    ensures Text(lines)[k] == if i < |line| then line[i] else '\n'
  {
    var front := lines[..|lines| - 1];
    TextActsLength(front, act);
    if k < |Text(front)| {
      line, i := TextActOf(front, act, k);
    } else {
      line, i := lines[|lines| - 1], k - |Text(front)|;
    }
  }

  // ---- a forward scan ----------------------------------------------------------------------------

  /** The acts say which characters are brackets. */
  ghost predicate ReadsAs(acts: seq<Act>, s: string, a: nat) {
    a + |acts| <= |s| && forall k | 0 <= k < |acts| :: BracketAs(acts[k], s[a + k])
  }

  predicate BracketAs(act: Act, c: char) {
    match act
    case Opens(b) => IsOpen(c) && b == c
    case Closes(mate) => IsClose(c) && mate == Mate(c)
    case _ => !IsOpen(c) && !IsClose(c)
  }

  /** The acts from text position i on. */
  function ActsFrom(lines: seq<string>, i: nat): (acts: seq<Act>)
    requires i <= |Text(lines)|
    ensures |acts| == |Text(lines)| - i
  {
    TextActsLength(lines, ActUp);
    seq(|Text(lines)| - i, k requires 0 <= k < |Text(lines)| - i => TextActs(lines, ActUp)[i + k])
  }

  /** The act of a character of a line, counted from text position i. */
  lemma ActFrom(lines: seq<string>, i: nat, l: nat, p: nat)
    requires l < |lines| && p <= |lines[l]| && i <= Offset(lines, l) + p
    ensures Offset(lines, l) + p < |Text(lines)|
    ensures ActsFrom(lines, i)[Offset(lines, l) + p - i] == if p < |lines[l]| then ActUp(lines[l], p) else Idle
  {
    TextActAt(lines, ActUp, l, p);
  }

  lemma ActsReadAs(lines: seq<string>, i: nat)
    requires i <= |Text(lines)|
    ensures ReadsAs(ActsFrom(lines, i), Text(lines), i) && Proper(ActsFrom(lines, i), '<')
  {
    forall k: nat | k < |Text(lines)| - i
      ensures BracketAs(ActsFrom(lines, i)[k], Text(lines)[i + k])
    {
      var line, n := TextActOf(lines, ActUp, i + k);
    }
  }

  function Chars(acts: seq<Act>, ps: seq<nat>): seq<char>
    requires forall i | 0 <= i < |ps| :: ps[i] < |acts| && acts[ps[i]].Opens?
  {
    seq(|ps|, i requires 0 <= i < |ps| => acts[ps[i]].c)
  }

  lemma ReadsOne(s: string, i: nat, st: seq<char>)
    requires i < |s|
    ensures Reads(s, i, i + 1, st) ==
            if IsOpen(s[i]) then Some(st + [s[i]])
            else if !IsClose(s[i]) then Some(st)
            else if st == [] || !Pairs(st[|st| - 1], s[i]) then None else Some(st[..|st| - 1])
  {
  }

  /** How one act changes what is pending. */
  lemma PendingOne(acts: seq<Act>, k: nat, ps: seq<nat>)
    requires k < |acts| && Pending(acts, k) == Some(ps)
    ensures var st := Chars(acts, ps);
            match acts[k]
            case Opens(c) => Pending(acts, k + 1).Some? && Chars(acts, Pending(acts, k + 1).value) == st + [c]
            case Closes(mate) =>
              if st == [] || st[|st| - 1] != mate then Pending(acts, k + 1).None?
              else Pending(acts, k + 1).Some? && Chars(acts, Pending(acts, k + 1).value) == st[..|st| - 1]
            case _ => Pending(acts, k + 1) == Some(ps)
  {
    CharsLast(acts, ps);
    if acts[k].Opens? {
      assert Chars(acts, ps + [k]) == Chars(acts, ps) + [acts[k].c];
    }
  }

  lemma MatePairs(c: char, d: char)
    ensures IsClose(d) ==> (Pairs(c, d) <==> c == Mate(d))
    ensures IsOpen(d) ==> (Pairs(d, c) <==> c == Mate(d))
  {
  }

  lemma PendingStep(acts: seq<Act>, s: string, a: nat, k: nat, ps: seq<nat>, st: seq<char>)
    requires k < |acts| && a + |acts| == |s| && BracketAs(acts[k], s[a + k])
    requires Pending(acts, k) == Some(ps) && st == Chars(acts, ps) && Reads(s, a, a + k, []) == Some(st)
    ensures Reads(s, a, a + k + 1, []) == PendingChars(acts, k + 1)
  {
    ReadsJoin(s, a, a + k, a + k + 1, [], st);
    ReadsOne(s, a + k, st);
    PendingOne(acts, k, ps);
    if st != [] {
      MatePairs(st[|st| - 1], s[a + k]);
    }
  }

  function PendingChars(acts: seq<Act>, k: nat): Option<seq<char>>
    requires k <= |acts|
  {
    match Pending(acts, k)
    case Some(ps) => Some(Chars(acts, ps))
    case None => None
  }

  /** What is pending are the brackets that reading the text leaves. */
  lemma {:induction false} PendingReads(acts: seq<Act>, s: string, a: nat, k: nat)
    requires a + |acts| == |s| && ReadsAs(acts, s, a) && k <= |acts|
    ensures Reads(s, a, a + k, []) == PendingChars(acts, k)
  {
    if k == 0 {
      assert Chars(acts, []) == [];
    } else {
      PendingReads(acts, s, a, k - 1);
      if Pending(acts, k - 1).None? {
        ReadsStuck(s, a, a + k - 1, a + k, []);
      } else {
        var ps := Pending(acts, k - 1).value;
        PendingStep(acts, s, a, k - 1, ps, Chars(acts, ps));
      }
    }
  }

  lemma CharsLast(acts: seq<Act>, ps: seq<nat>)
    requires forall i | 0 <= i < |ps| :: ps[i] < |acts| && acts[ps[i]].Opens?
    ensures ps != [] ==> Chars(acts, ps[..|ps| - 1]) == Chars(acts, ps)[..|ps| - 1]
    ensures Chars(acts, ps) == [] <==> ps == []
  {
  }

  /** Nothing is pending exactly where the brackets are balanced. */
  lemma PendingIsNested(lines: seq<string>, i: nat, k: nat)
    requires i + k <= |Text(lines)|
    ensures Pending(ActsFrom(lines, i), k) == Some([]) <==> Nested(Text(lines), i, i + k)
  {
    var acts := ActsFrom(lines, i);
    ActsReadAs(lines, i);
    PendingReads(acts, Text(lines), i, k);
    ReadsIsNested(Text(lines), i, i + k);
    if Pending(acts, k).Some? {
      CharsLast(acts, Pending(acts, k).value);
    }
  }

  lemma ReadsIsNested(s: string, i: nat, j: nat)
    requires i <= j <= |s|
    ensures Reads(s, i, j, []) == Some([]) <==> Nested(s, i, j)
  {
    if Reads(s, i, j, []) == Some([]) {
      var f := ReadsNested(s, i, j);
    }
    if f :| Balanced(f, s, i, j) {
      ReadsPasses(f, s, i, j, j, []);
    }
  }

  /** What the scan of a line reports, by the acts from k on, its position being i. */
  function AsScan(c: Course, k: nat, i: nat): ScanResult {
    match c
    case Ran(stack) => (-1, Some(stack))
    case FoundAt(j) => (i + (j - k) + 1, None)
    case Failed => (-1, None)
  }

  /** The acts from k on are those of line[i..]. */
  ghost predicate ActsOfRest(acts: seq<Act>, k: nat, line: string, i: nat) {
    i <= |line| && k + (|line| - i) <= |acts| && forall j | i <= j < |line| :: acts[k + (j - i)] == ActUp(line, j)
  }

  lemma RestShrinks(acts: seq<Act>, k: nat, line: string, i: nat)
    requires ActsOfRest(acts, k, line, i) && i < |line|
    ensures acts[k] == ActUp(line, i) && ActsOfRest(acts, k + 1, line, i + 1)
  {
    assert acts[k + (i - i)] == ActUp(line, i);
    forall j | i + 1 <= j < |line|
      ensures acts[k + 1 + (j - (i + 1))] == ActUp(line, j)
    {
      assert acts[k + (j - i)] == ActUp(line, j);
    }
  }

  lemma {:induction false} ScanUpDrives(acts: seq<Act>, k: nat, line: string, i: nat, stack: seq<char>, step: Stepper)
    requires StepsUp(step) && ActsOfRest(acts, k, line, i)
    ensures ScanUp(line, i, stack, step) == AsScan(Drive(stack, acts, k, k + (|line| - i), '<'), k, i)
    decreases |line| - i
  {
    if i == |line| {
    } else {
      RestShrinks(acts, k, line, i);
      assert StepsUpAt(step, line, i, stack);
      match Effect(stack, acts[k], '<')
      case On(st) => ScanUpDrives(acts, k + 1, line, i + 1, st, step);
      case Found =>
      case Fail =>
    }
  }

  /** The place is right after the match of a scan from text position i, and there
      is none exactly if nothing matches. */
  ghost predicate ClosesMatch(lines: seq<string>, i: nat, place: Place) {
    i <= |Text(lines)| &&
    var (line, m, end) := place;
    if end == -1 then Unmatched(ActsFrom(lines, i))
    else m < |lines| && line == lines[m] && 0 < end <= |line| && i < Offset(lines, m) + end &&
         Matched(ActsFrom(lines, i), Offset(lines, m) + end - 1 - i)
  }

  lemma LineActs(lines: seq<string>, from: nat, l: nat, pos: nat)
    requires l < |lines| && pos <= |lines[l]| && from <= Offset(lines, l) + pos
    ensures Offset(lines, l) + |lines[l]| < |Text(lines)|
    ensures ActsOfRest(ActsFrom(lines, from), Offset(lines, l) + pos - from, lines[l], pos)
    ensures ActsFrom(lines, from)[Offset(lines, l) + |lines[l]| - from] == Idle
  {
    ActFrom(lines, from, l, |lines[l]|);
    forall j | pos <= j < |lines[l]|
      ensures ActsFrom(lines, from)[Offset(lines, l) + pos - from + (j - pos)] == ActUp(lines[l], j)
    {
      ActFrom(lines, from, l, j);
    }
  }

  /** The place is right after the character of act j. */
  ghost predicate PlaceAfter(lines: seq<string>, from: nat, place: Place, c: Course) {
    var (line, m, end) := place;
    if c.FoundAt? then
      m < |lines| && line == lines[m] && 0 < end <= |line| && from <= Offset(lines, m) + end - 1 &&
      Offset(lines, m) + end - 1 - from == c.k
    else end == -1
  }

  /** The acts of a line, and of its end, before those of the next. */
  lemma DriveLine(stack: seq<char>, acts: seq<Act>, k: nat, e: nat, angle: char)
    requires k <= e < |acts| && acts[e] == Idle && stack != []
    ensures var c, all := Drive(stack, acts, k, e, angle), Drive(stack, acts, k, |acts|, angle);
            if c.Ran? then c.stack != [] && all == Drive(c.stack, acts, e + 1, |acts|, angle)
            else all == c && (c.FoundAt? ==> k <= c.k < e)
  {
    DriveJoin(stack, acts, k, e, |acts|, angle);
    DriveStands(stack, acts, k, e, angle);
    DriveBounded(stack, acts, k, e, angle);
  }

  lemma {:induction false} CloseFromDrives(lines: seq<string>, from: nat, l: nat, pos: nat, stack: seq<char>,
                                           step: Stepper)
    requires StepsUp(step) && stack != [] && l < |lines| && pos <= |lines[l]|
    requires from <= Offset(lines, l) + pos <= |Text(lines)|
    ensures var acts, k := ActsFrom(lines, from), Offset(lines, l) + pos - from;
            PlaceAfter(lines, from, CloseFrom(lines, l, pos, stack, step), Drive(stack, acts, k, |acts|, '<'))
    decreases |lines| - l
  {
    var acts, k, e := ActsFrom(lines, from), Offset(lines, l) + pos - from, Offset(lines, l) + |lines[l]| - from;
    LineActs(lines, from, l, pos);
    ScanUpDrives(acts, k, lines[l], pos, stack, step);
    DriveLine(stack, acts, k, e, '<');
    LineInText(lines, l);
    if l + 1 == |lines| {
    } else if Drive(stack, acts, k, e, '<').Ran? {
      CloseFromDrives(lines, from, l + 1, 0, Drive(stack, acts, k, e, '<').stack, step);
    }
  }

  /** From an angle bracket on the stack. */
  lemma CloseFromFinds(lines: seq<string>, l: nat, pos: nat, step: Stepper)
    requires StepsUp(step) && l < |lines| && pos <= |lines[l]| && Offset(lines, l) + pos <= |Text(lines)|
    ensures ClosesMatch(lines, Offset(lines, l) + pos, CloseFrom(lines, l, pos, ['<'], step))
  {
    var from := Offset(lines, l) + pos;
    ActsReadAs(lines, from);
    CloseFromDrives(lines, from, l, pos, ['<'], step);
    DriveFinds(ActsFrom(lines, from), '<');
  }

  /** The place, if any, is right after a `>`, with balanced brackets between it
      and text position i. */
  ghost predicate ClosesAngle(lines: seq<string>, i: nat, place: Place) {
    var (line, m, end) := place;
    end == -1 ||
    (m < |lines| && line == lines[m] && 0 < end <= |line| && line[end - 1] == '>' &&
     Nested(Text(lines), i, Offset(lines, m) + end - 1))
  }

  lemma UnangleIsGreater(line: string, i: nat)
    requires i < |line|
    ensures ActUp(line, i) == Unangle(true) ==> line[i] == '>'
    ensures ActDown(line, i) == Unangle(true) ==> line[i] == '<'
  {
  }

  lemma UnangleAhead(lines: seq<string>, i: nat, m: nat, p: nat)
    requires m < |lines| && p < |lines[m]| && i <= Offset(lines, m) + p < |Text(lines)|
    requires ActsFrom(lines, i)[Offset(lines, m) + p - i] == Unangle(true)
    ensures lines[m][p] == '>'
  {
    ActFrom(lines, i, m, p);
    UnangleIsGreater(lines[m], p);
  }

  lemma MatchClosesAngle(lines: seq<string>, i: nat, place: Place)
    requires ClosesMatch(lines, i, place)
    ensures ClosesAngle(lines, i, place)
  {
    if place.2 != -1 {
      UnangleAhead(lines, i, place.1, place.2 - 1);
      PendingIsNested(lines, i, Offset(lines, place.1) + place.2 - 1 - i);
    }
  }

  lemma PushedLess(line: string, p: nat)
    requires p < |line| && PushesLess(line, p)
    ensures EndStep(line, p, []) == Go(p + 1, ['<'])
  {
    assert [] + ['<'] == ['<'];
  }

  lemma CloseOneStep(lines: seq<string>, l: nat, p: nat, step: Stepper, st: seq<char>)
    requires l < |lines| && p < |lines[l]| && step(lines[l], p, []) == Go(p + 1, st)
    ensures CloseFrom(lines, l, p, [], step) == CloseFrom(lines, l, p + 1, st, step)
  {
    assert ScanUp(lines[l], p, [], step) == ScanUp(lines[l], p + 1, st, step);
  }

  lemma CloseFromLess(lines: seq<string>, l: nat, p: nat, step: Stepper)
    requires l < |lines| && p < |lines[l]| && step(lines[l], p, []) == Go(p + 1, ['<']) && StepsUp(step)
    ensures ClosesMatch(lines, Offset(lines, l) + p + 1, CloseFrom(lines, l, p, [], step))
    ensures ClosesAngle(lines, Offset(lines, l) + p + 1, CloseFrom(lines, l, p, [], step))
  {
    CharInText(lines, l, p);
    CloseOneStep(lines, l, p, step, ['<']);
    CloseFromFinds(lines, l, p + 1, step);
    MatchClosesAngle(lines, Offset(lines, l) + p + 1, CloseFrom(lines, l, p, [], step));
  }

  /** From a `<` that is pushed: a close is reported right after the `>` that
      matches it, and none exactly if nothing does; between the two, brackets
      are balanced. */
  lemma ClosingLess(lines: seq<string>, l: nat, p: nat)
    requires l < |lines| && p < |lines[l]| && PushesLess(lines[l], p)
    ensures ClosesAngle(lines, Offset(lines, l) + p + 1, Closing(lines, l, p))
    ensures !ShiftOrCompare(lines[l], p) ==> ClosesMatch(lines, Offset(lines, l) + p + 1, Closing(lines, l, p))
  {
    EndStepsUp();
    PushedLess(lines[l], p);
    CloseFromLess(lines, l, p, EndStep);
  }

  /** No close is reported from any other character, nor from a `<` that is
      followed by `<` or `=`. */
  lemma ClosingRefuses(lines: seq<string>, l: nat, p: nat)
    requires l < |lines| && p < |lines[l]|
    requires (lines[l][p] !in "([{<") ||
             (lines[l][p] == '<' && p + 1 < |lines[l]| && lines[l][p + 1] in "<=")
    ensures Closing(lines, l, p) == (lines[l], |lines|, -1)
  {
  }

  lemma SemicolonAct(lines: seq<string>, i: nat, m: nat, q: nat)
    requires m < |lines| && q < |lines[m]| && lines[m][q] == ';' && i <= Offset(lines, m) + q <= |Text(lines)|
    requires Nested(Text(lines), i, Offset(lines, m) + q)
    ensures var acts, j := ActsFrom(lines, i), Offset(lines, m) + q - i;
            j < |acts| && acts[j] == Semicolon && Pending(acts, j) == Some([])
  {
    ActFrom(lines, i, m, q);
    PendingIsNested(lines, i, Offset(lines, m) + q - i);
  }

  lemma MatchBeforeSemicolon(lines: seq<string>, i: nat, m: nat, q: nat, place: Place)
    requires place.2 == -1 || ClosesMatch(lines, i, place)
    requires m < |lines| && q < |lines[m]| && lines[m][q] == ';' && i <= Offset(lines, m) + q <= |Text(lines)|
    requires Nested(Text(lines), i, Offset(lines, m) + q)
    ensures BeforePlace(lines, place, Offset(lines, m) + q)
  {
    SemicolonAct(lines, i, m, q);
    MatchBefore(lines, i, Offset(lines, m) + q - i, place);
  }

  /** A semicolon with no bracket pending: no place after it is reported. */
  lemma NothingAfterSemicolon(lines: seq<string>, l: nat, p: nat, m: nat, q: nat)
    requires l <= m < |lines| && p < |lines[l]| && PushesLess(lines[l], p) && q < |lines[m]| && lines[m][q] == ';'
    requires Offset(lines, l) + p < Offset(lines, m) + q <= |Text(lines)|
    requires Nested(Text(lines), Offset(lines, l) + p + 1, Offset(lines, m) + q)
    ensures BeforePlace(lines, Closing(lines, l, p), Offset(lines, m) + q)
  {
    ClosingLess(lines, l, p);
    MatchBeforeSemicolon(lines, Offset(lines, l) + p + 1, m, q, Closing(lines, l, p));
  }

  /** The place reported, if any, is not after text position j. */
  ghost predicate BeforePlace(lines: seq<string>, place: Place, j: nat) {
    place.2 == -1 || (place.1 < |lines| && Offset(lines, place.1) + place.2 <= j)
  }

  lemma MatchBefore(lines: seq<string>, i: nat, j: nat, place: Place)
    requires i <= |Text(lines)| && (place.2 == -1 || ClosesMatch(lines, i, place))
    requires var acts := ActsFrom(lines, i); j < |acts| && acts[j] == Semicolon && Pending(acts, j) == Some([])
    ensures BeforePlace(lines, place, i + j)
  {
    if place.2 != -1 {
      SemicolonEnds(ActsFrom(lines, i), j, Offset(lines, place.1) + place.2 - 1 - i);
    }
  }

  /** Characters that a forward scan with nothing on its stack does not pass by. */
  predicate ActsUp(line: string, i: nat)
    requires i < |line|
  {
    IsOpen(line[i]) || IsClose(line[i]) || line[i] == ';' || PushesLess(line, i)
  }

  /** The first such character from position i on, or the end of the line. */
  function NextActing(line: string, i: nat): (q: nat)
    requires i <= |line|
    ensures i <= q <= |line| && (q < |line| ==> ActsUp(line, q))
    ensures forall k | i <= k < q :: !ActsUp(line, k)
    decreases |line| - i
  {
    if i == |line| || ActsUp(line, i) then i else NextActing(line, i + 1)
  }

  lemma IdleUp(line: string, i: nat)
    requires i < |line| && !ActsUp(line, i)
    ensures EndStep(line, i, []) == Go(i + 1, [])
  {
    assert PopWhile([], '<') == [];
  }

  lemma {:induction false} ScanPassesIdle(line: string, i: nat)
    requires i <= |line|
    ensures ScanUp(line, i, [], EndStep) == ScanUp(line, NextActing(line, i), [], EndStep)
    decreases |line| - i
  {
    if i == |line| || ActsUp(line, i) {
    } else {
      IdleUp(line, i);
      ScanPassesIdle(line, i + 1);
    }
  }

  lemma StopsEmpty(lines: seq<string>, l: nat, q: nat)
    requires l < |lines| && q <= |lines[l]| && (q < |lines[l]| ==> IsClose(lines[l][q]) || lines[l][q] == ';')
    ensures CloseFrom(lines, l, q, [], EndStep).2 == -1
  {
    assert PopWhile([], '<') == [];
  }

  /** The place is what the first character decides that acts: the end of what a
      bracket encloses, the match of a `<` that is pushed, and none for a closing
      bracket, a semicolon or the end of the line. */
  ghost predicate DecidedBy(lines: seq<string>, l: nat, q: nat, place: Place)
    requires l < |lines| && q <= |lines[l]|
  {
    var line := lines[l];
    if q == |line| || IsClose(line[q]) || line[q] == ';' then place.2 == -1
    else if IsOpen(line[q]) then place == Closing(lines, l, q) && ClosesAt(lines, Offset(lines, l) + q, place)
    else
      && PushesLess(line, q) && ClosesMatch(lines, Offset(lines, l) + q + 1, place)
      && ClosesAngle(lines, Offset(lines, l) + q + 1, place)
      && (!ShiftOrCompare(line, q) ==> place == Closing(lines, l, q))
  }

  lemma FirstDecides(lines: seq<string>, l: nat, q: nat)
    requires l < |lines| && q <= |lines[l]| && (q < |lines[l]| ==> ActsUp(lines[l], q))
    ensures DecidedBy(lines, l, q, CloseFrom(lines, l, q, [], EndStep))
  {
    if q == |lines[l]| || IsClose(lines[l][q]) || lines[l][q] == ';' {
      StopsEmpty(lines, l, q);
    } else if IsOpen(lines[l][q]) {
      ClosingIsEnclosed(lines, l, q);
    } else {
      EndStepsUp();
      PushedLess(lines[l], q);
      CloseFromLess(lines, l, q, EndStep);
    }
  }

  lemma UnpushedPassed(lines: seq<string>, l: nat, p: nat)
    requires l < |lines| && p < |lines[l]| && !ActsUp(lines[l], p)
    ensures CloseFrom(lines, l, p, [], EndStep) == CloseFrom(lines, l, NextActing(lines[l], p + 1), [], EndStep)
  {
    IdleUp(lines[l], p);
    CloseOneStep(lines, l, p, EndStep, []);
    ScanPassesIdle(lines[l], p + 1);
  }

  /** A `<` that is not pushed is not there for the scan.  The text after it
      decides: what its first bracket, or `<` that is pushed, encloses is
      reported, and nothing if a closing bracket, a semicolon or the end of the
      line comes first. */
  lemma ClosingLessUnpushed(lines: seq<string>, l: nat, p: nat)
    requires l < |lines| && p < |lines[l]| && lines[l][p] == '<' && !PushesLess(lines[l], p)
    requires !ShiftOrCompare(lines[l], p)
    ensures DecidedBy(lines, l, NextActing(lines[l], p + 1), Closing(lines, l, p))
  {
    UnpushedPassed(lines, l, p);
    FirstDecides(lines, l, NextActing(lines[l], p + 1));
  }

  lemma GroupClosed(line: string, i: nat)
    requires i + 2 < |line| && line[i] == '(' && line[i + 2] == ')'
    requires line[i + 1] == 'b'
    ensures ScanUp(line, i, [], EndStep) == (i + 3, None)
  {
    assert [] + ['('] == ['('] && PopWhile(['('], '<') == ['('];
    assert EndStep(line, i, []) == Go(i + 1, ['(']) && EndStep(line, i + 1, ['(']) == Go(i + 2, ['(']);
    assert EndStep(line, i + 2, ['(']) == Stop(i + 3);
    assert ScanUp(line, i + 2, ['('], EndStep) == (i + 3, None);
    assert ScanUp(line, i + 1, ['('], EndStep) == (i + 3, None);
  }

  /** ... as in the second `<` of a shift: the end of a bracket is reported. */
  lemma ShiftClosesBracket(line: string)
    requires line == "a<<(b)"
    ensures Closing([line], 0, 2) == (line, 0, 6)
  {
    GroupClosed(line, 3);
    assert PushesLess(line, 1) && NextActing(line, 3) == 3;
    ClosingLessUnpushed([line], 0, 2);
  }

  // ---- backwards -----------------------------------------------------------------------------

  /** How many `<` stand in a row from position i on. */
  function RunRight(line: string, i: nat): nat
    decreases |line| - i
  {
    if i < |line| && line[i] == '<' then 1 + RunRight(line, i + 1) else 0
  }

  /** What a character does to a backward scan.  Of `<` in a row every second one
      takes the one before it along: the first counts if their number is odd. */
  function ActDown(line: string, i: nat): Act {
    if i >= |line| then Idle
    else if IsClose(line[i]) then Opens(line[i])
    else if IsOpen(line[i]) then Closes(Mate(line[i]))
    else if line[i] == ';' then Semicolon
    else if PushesGreater(line, i) then Angle
    else if line[i] == '<' && (i == 0 || line[i - 1] != '<') && RunRight(line, i) % 2 == 1 then Unangle(true)
    else Idle
  }

  /** The same for a character that the scan comes upon. */
  function ActMet(line: string, i: nat): Act {
    if i < |line| && line[i] == '<' && !Skips(line, i) then Unangle(true) else ActDown(line, i)
  }

  ghost predicate StepsDownAt(step: Stepper, line: string, i: nat, stack: seq<char>) {
    i < |line| ==>
      if Skips(line, i) then step(line, i, stack) == Go(i - 1, stack)
      else step(line, i, stack) == AsStep(Effect(stack, ActMet(line, i), '>'), i, i)
  }

  ghost predicate StepsDown(step: Stepper) {
    forall line, i: nat, stack {:trigger StepsDownAt(step, line, i, stack)} :: StepsDownAt(step, line, i, stack)
  }

  lemma StartStepsDown()
    ensures StepsDown(StartStep)
  {
    forall line: string, i: nat, stack: seq<char>
      ensures StepsDownAt(StartStep, line, i, stack)
    {
      StartStepsDownAt(line, i, stack);
    }
  }

  lemma StartStepsDownAt(line: string, i: nat, stack: seq<char>)
    ensures StepsDownAt(StartStep, line, i, stack)
  {
  }

  /** The scan comes to line[..n] without having stepped over half of a pair. */
  predicate Comes(line: string, n: nat) {
    n <= |line| && (n == 0 || line[n - 1] != '<' || RunRight(line, n) % 2 == 0)
  }

  /** What is stepped over does nothing, and the scan comes to what is before. */
  lemma SkipIsIdle(line: string, n: nat)
    requires 0 < n && Comes(line, n) && Skips(line, n - 1)
    ensures n >= 2 && ActDown(line, n - 1) == Idle && ActDown(line, n - 2) == Idle && Comes(line, n - 2)
  {
    if line[n - 1] == '<' {
      assert RunRight(line, n - 2) == 1 + (1 + RunRight(line, n));
    } else {
      SkippedIsIdle(line, n - 1);
    }
  }

  lemma MetIsAct(line: string, n: nat)
    requires 0 < n && Comes(line, n) && !Skips(line, n - 1)
    ensures ActDown(line, n - 1) == ActMet(line, n - 1) && Comes(line, n - 1)
  {
    if line[n - 1] == '<' {
      assert RunRight(line, n - 1) == 1 + RunRight(line, n);
    }
  }

  /** The acts before text position j, the last first. */
  function ActsBefore(lines: seq<string>, j: nat): (acts: seq<Act>)
    requires j <= |Text(lines)|
    ensures |acts| == j
  {
    TextActsLength(lines, ActDown);
    seq(j, k requires 0 <= k < j => TextActs(lines, ActDown)[j - 1 - k])
  }

  predicate BracketBackAs(act: Act, c: char) {
    match act
    case Opens(b) => IsClose(c) && b == c
    case Closes(mate) => IsOpen(c) && mate == Mate(c)
    case _ => !IsOpen(c) && !IsClose(c)
  }

  ghost predicate ReadsBackAs(acts: seq<Act>, s: string) {
    |acts| <= |s| && forall k | 0 <= k < |acts| :: BracketBackAs(acts[k], s[|acts| - 1 - k])
  }

  /** The act of a character of a line, counted back from text position j. */
  lemma ActBefore(lines: seq<string>, j: nat, l: nat, p: nat)
    requires l < |lines| && p <= |lines[l]| && Offset(lines, l) + p < j <= |Text(lines)|
    ensures ActsBefore(lines, j)[j - 1 - (Offset(lines, l) + p)] ==
            if p < |lines[l]| then ActDown(lines[l], p) else Idle
  {
    TextActAt(lines, ActDown, l, p);
  }

  lemma ActsReadBackAs(lines: seq<string>, j: nat)
    requires j <= |Text(lines)|
    ensures ReadsBackAs(ActsBefore(lines, j), Text(lines)) && Proper(ActsBefore(lines, j), '>')
  {
    forall k: nat | k < j
      ensures BracketBackAs(ActsBefore(lines, j)[k], Text(lines)[j - 1 - k])
    {
      var line, n := TextActOf(lines, ActDown, j - 1 - k);
    }
  }

  lemma ReadsBackOne(s: string, i: nat, st: seq<char>)
    requires i < |s|
    ensures ReadsBack(s, i, i + 1, st) ==
            if IsClose(s[i]) then Some(st + [s[i]])
            else if !IsOpen(s[i]) then Some(st)
            else if st == [] || !Pairs(s[i], st[|st| - 1]) then None else Some(st[..|st| - 1])
  {
  }

  lemma PendingStepBack(acts: seq<Act>, s: string, k: nat, ps: seq<nat>, st: seq<char>)
    requires k < |acts| <= |s| && BracketBackAs(acts[k], s[|acts| - 1 - k])
    requires Pending(acts, k) == Some(ps) && st == Chars(acts, ps)
    requires ReadsBack(s, |acts| - k, |acts|, []) == Some(st)
    ensures ReadsBack(s, |acts| - k - 1, |acts|, []) == PendingChars(acts, k + 1)
  {
    var i := |acts| - k - 1;
    ReadsBackJoin(s, i, i + 1, |acts|, [], st);
    ReadsBackOne(s, i, st);
    PendingOne(acts, k, ps);
    if st != [] {
      MatePairs(st[|st| - 1], s[i]);
    }
  }

  lemma {:induction false} PendingReadsBack(acts: seq<Act>, s: string, k: nat)
    requires ReadsBackAs(acts, s) && k <= |acts|
    ensures ReadsBack(s, |acts| - k, |acts|, []) == PendingChars(acts, k)
  {
    if k == 0 {
      assert Chars(acts, []) == [];
    } else {
      PendingReadsBack(acts, s, k - 1);
      assert BracketBackAs(acts[k - 1], s[|acts| - 1 - (k - 1)]);
      if Pending(acts, k - 1).None? {
        ReadsBackStuck(s, |acts| - k, |acts| - (k - 1), |acts|, []);
      } else {
        var ps := Pending(acts, k - 1).value;
        PendingStepBack(acts, s, k - 1, ps, Chars(acts, ps));
      }
    }
  }

  lemma PendingBackIsNested(lines: seq<string>, j: nat, k: nat)
    requires k <= j <= |Text(lines)|
    ensures Pending(ActsBefore(lines, j), k) == Some([]) <==> Nested(Text(lines), j - k, j)
  {
    var acts := ActsBefore(lines, j);
    ActsReadBackAs(lines, j);
    PendingReadsBack(acts, Text(lines), k);
    ReadsBackIsNested(Text(lines), j - k, j);
    if Pending(acts, k).Some? {
      CharsLast(acts, Pending(acts, k).value);
    }
  }

  lemma ReadsBackIsNested(s: string, i: nat, j: nat)
    requires i <= j <= |s|
    ensures ReadsBack(s, i, j, []) == Some([]) <==> Nested(s, i, j)
  {
    if ReadsBack(s, i, j, []) == Some([]) {
      var f := ReadsBackNested(s, i, j);
    }
    if f :| Balanced(f, s, i, j) {
      ReadsBackPasses(f, s, i, i, j, []);
    }
  }

  /** The acts from k on are those of line[..n], the last first. */
  ghost predicate ActsOfFront(acts: seq<Act>, k: nat, line: string, n: nat) {
    n <= |line| && k + n <= |acts| && forall j | 0 <= j < n :: acts[k + (n - 1 - j)] == ActDown(line, j)
  }

  lemma FrontShrinks(acts: seq<Act>, k: nat, line: string, n: nat)
    requires ActsOfFront(acts, k, line, n) && 0 < n
    ensures acts[k] == ActDown(line, n - 1) && ActsOfFront(acts, k + 1, line, n - 1)
  {
    assert acts[k + (n - 1 - (n - 1))] == ActDown(line, n - 1);
    forall j | 0 <= j < n - 1
      ensures acts[k + 1 + (n - 1 - 1 - j)] == ActDown(line, j)
    {
      assert acts[k + (n - 1 - j)] == ActDown(line, j);
    }
  }

  /** What the scan of line[..n] reports, by the acts from k on. */
  function AsScanBack(c: Course, k: nat, n: nat): ScanResult {
    match c
    case Ran(stack) => (-1, Some(stack))
    case FoundAt(j) => (n - 1 - (j - k), None)
    case Failed => (-1, None)
  }

  lemma SkipDrives(acts: seq<Act>, k: nat, line: string, n: nat, stack: seq<char>)
    requires 0 < n && ActsOfFront(acts, k, line, n) && Comes(line, n) && Skips(line, n - 1)
    ensures n >= 2 && Comes(line, n - 2) && ActsOfFront(acts, k + 2, line, n - 2)
    ensures Drive(stack, acts, k, k + n, '>') == Drive(stack, acts, k + 2, k + n, '>')
  {
    SkipIsIdle(line, n);
    FrontShrinks(acts, k, line, n);
    FrontShrinks(acts, k + 1, line, n - 1);
    assert Drive(stack, acts, k + 1, k + n, '>') == Drive(stack, acts, k + 2, k + n, '>');
  }

  lemma {:induction false} ScanDownDrives(acts: seq<Act>, k: nat, line: string, n: nat, stack: seq<char>, step: Stepper)
    requires StepsDown(step) && ActsOfFront(acts, k, line, n) && Comes(line, n)
    ensures ScanDown(line, n, stack, step) == AsScanBack(Drive(stack, acts, k, k + n, '>'), k, n)
    decreases n
  {
    if n == 0 {
    } else {
      assert StepsDownAt(step, line, n - 1, stack);
      if Skips(line, n - 1) {
        SkipDrives(acts, k, line, n, stack);
        ScanDownDrives(acts, k + 2, line, n - 2, stack, step);
      } else {
        FrontShrinks(acts, k, line, n);
        MetIsAct(line, n);
        match Effect(stack, acts[k], '>')
        case On(st) => ScanDownDrives(acts, k + 1, line, n - 1, st, step);
        case Found =>
        case Fail =>
      }
    }
  }

  /** The place is the match of a backward scan from text position j, and there
      is none exactly if nothing matches. */
  ghost predicate OpensMatch(lines: seq<string>, j: nat, place: Place) {
    j <= |Text(lines)| &&
    var (line, m, start) := place;
    if start == -1 then Unmatched(ActsBefore(lines, j))
    else m < |lines| && line == lines[m] && 0 <= start < |line| && Offset(lines, m) + start < j &&
         Matched(ActsBefore(lines, j), j - 1 - (Offset(lines, m) + start))
  }

  lemma FrontActs(lines: seq<string>, from: nat, l: nat, n: nat)
    requires l < |lines| && n <= |lines[l]| && Offset(lines, l) + n <= from <= |Text(lines)|
    ensures ActsOfFront(ActsBefore(lines, from), from - (Offset(lines, l) + n), lines[l], n)
  {
    forall j | 0 <= j < n
      ensures ActsBefore(lines, from)[from - (Offset(lines, l) + n) + (n - 1 - j)] == ActDown(lines[l], j)
    {
      ActBefore(lines, from, l, j);
    }
  }

  /** The place is the character of act j. */
  ghost predicate PlaceAt(lines: seq<string>, from: nat, place: Place, c: Course) {
    var (line, m, start) := place;
    if c.FoundAt? then
      m < |lines| && line == lines[m] && 0 <= start < |line| && Offset(lines, m) + start < from &&
      from - 1 - (Offset(lines, m) + start) == c.k
    else start == -1
  }

  lemma {:induction false} OpenFromDrives(lines: seq<string>, from: nat, l: nat, n: nat, stack: seq<char>,
                                          step: Stepper)
    requires StepsDown(step) && stack != [] && l < |lines| && Comes(lines[l], n)
    requires Offset(lines, l) + n <= from <= |Text(lines)|
    ensures var acts, k := ActsBefore(lines, from), from - (Offset(lines, l) + n);
            PlaceAt(lines, from, OpenFrom(lines, l, n, stack, step), Drive(stack, acts, k, |acts|, '>'))
  {
    var acts, k := ActsBefore(lines, from), from - (Offset(lines, l) + n);
    var e := k + n;
    FrontActs(lines, from, l, n);
    ScanDownDrives(acts, k, lines[l], n, stack, step);
    DriveJoin(stack, acts, k, e, |acts|, '>');
    DriveStands(stack, acts, k, e, '>');
    DriveBounded(stack, acts, k, e, '>');
    if l == 0 {
      assert Text(lines[..0]) == [];
    } else if Drive(stack, acts, k, e, '>').Ran? {
      NewlineBefore(lines, from, l);
      OpenFromDrives(lines, from, l - 1, |lines[l - 1]|, Drive(stack, acts, k, e, '>').stack, step);
    }
  }

  lemma OpenFromFinds(lines: seq<string>, l: nat, n: nat, step: Stepper)
    requires StepsDown(step) && l < |lines| && Comes(lines[l], n) && Offset(lines, l) + n <= |Text(lines)|
    ensures OpensMatch(lines, Offset(lines, l) + n, OpenFrom(lines, l, n, ['>'], step))
  {
    var from := Offset(lines, l) + n;
    ActsReadBackAs(lines, from);
    OpenFromDrives(lines, from, l, n, ['>'], step);
    DriveFinds(ActsBefore(lines, from), '>');
  }

  lemma NewlineBefore(lines: seq<string>, from: nat, l: nat)
    requires 0 < l < |lines| && Offset(lines, l) <= from <= |Text(lines)|
    ensures Offset(lines, l) == Offset(lines, l - 1) + |lines[l - 1]| + 1
    ensures ActsBefore(lines, from)[from - Offset(lines, l)] == Idle
  {
    LineInText(lines, l - 1);
    ActBefore(lines, from, l - 1, |lines[l - 1]|);
  }

  /** The place, if any, is a `<`, with balanced brackets between it and text
      position j. */
  ghost predicate OpensAngle(lines: seq<string>, j: nat, place: Place) {
    var (line, m, start) := place;
    start == -1 ||
    (m < |lines| && line == lines[m] && 0 <= start < |line| && line[start] == '<' &&
     Nested(Text(lines), Offset(lines, m) + start + 1, j))
  }

  lemma UnangleBack(lines: seq<string>, j: nat, m: nat, p: nat)
    requires m < |lines| && p < |lines[m]| && Offset(lines, m) + p < j <= |Text(lines)|
    requires ActsBefore(lines, j)[j - 1 - (Offset(lines, m) + p)] == Unangle(true)
    ensures lines[m][p] == '<'
  {
    ActBefore(lines, j, m, p);
    UnangleIsGreater(lines[m], p);
  }

  lemma MatchOpensAngle(lines: seq<string>, j: nat, place: Place)
    requires OpensMatch(lines, j, place)
    ensures OpensAngle(lines, j, place)
  {
    if place.2 != -1 {
      UnangleBack(lines, j, place.1, place.2);
      PendingBackIsNested(lines, j, j - 1 - (Offset(lines, place.1) + place.2));
    }
  }

  lemma PushedGreater(line: string, p: nat)
    requires p < |line| && PushesGreater(line, p)
    ensures StartStep(line, p, []) == Go(p, ['>'])
  {
    assert [] + ['>'] == ['>'];
  }

  lemma OpenFromGreater(lines: seq<string>, l: nat, p: nat, step: Stepper)
    requires l < |lines| && p < |lines[l]| && step(lines[l], p, []) == Go(p, ['>']) && StepsDown(step)
    requires lines[l][p] == '>'
    ensures OpensMatch(lines, Offset(lines, l) + p, OpenFrom(lines, l, p + 1, [], step))
    ensures OpensAngle(lines, Offset(lines, l) + p, OpenFrom(lines, l, p + 1, [], step))
  {
    CharInText(lines, l, p);
    OpenOneStep(lines, l, p, step, '>');
    OpenFromFinds(lines, l, p, step);
    MatchOpensAngle(lines, Offset(lines, l) + p, OpenFrom(lines, l, p + 1, [], step));
  }

  /** From a `>` that is pushed: the `<` that matches it is reported, and none
      exactly if nothing does; between the two, brackets are balanced. */
  lemma OpeningGreater(lines: seq<string>, l: nat, p: nat)
    requires l < |lines| && p < |lines[l]| && PushesGreater(lines[l], p)
    ensures OpensMatch(lines, Offset(lines, l) + p, Opening(lines, l, p))
    ensures OpensAngle(lines, Offset(lines, l) + p, Opening(lines, l, p))
  {
    StartStepsDown();
    PushedGreater(lines[l], p);
    OpenFromGreater(lines, l, p, StartStep);
  }

  /** No start is reported from any other character. */
  lemma OpeningRefuses(lines: seq<string>, l: nat, p: nat)
    requires l < |lines| && p < |lines[l]| && lines[l][p] !in ")]}>"
    ensures Opening(lines, l, p) == (lines[l], 0, -1)
  {
  }

  lemma SemicolonActBack(lines: seq<string>, j: nat, m: nat, q: nat)
    requires m < |lines| && q < |lines[m]| && lines[m][q] == ';' && Offset(lines, m) + q < j <= |Text(lines)|
    requires Nested(Text(lines), Offset(lines, m) + q + 1, j)
    ensures var acts, k := ActsBefore(lines, j), j - 1 - (Offset(lines, m) + q);
            k < |acts| && acts[k] == Semicolon && Pending(acts, k) == Some([])
  {
    ActBefore(lines, j, m, q);
    PendingBackIsNested(lines, j, j - 1 - (Offset(lines, m) + q));
  }

  lemma MatchAfterSemicolon(lines: seq<string>, j: nat, m: nat, q: nat, place: Place)
    requires OpensMatch(lines, j, place)
    requires m < |lines| && q < |lines[m]| && lines[m][q] == ';' && Offset(lines, m) + q < j <= |Text(lines)|
    requires Nested(Text(lines), Offset(lines, m) + q + 1, j)
    ensures AfterPlace(lines, place, Offset(lines, m) + q)
  {
    SemicolonActBack(lines, j, m, q);
    MatchAfter(lines, j, j - 1 - (Offset(lines, m) + q), place);
  }

  /** A semicolon with no bracket pending: no place before it is reported. */
  lemma NothingBeforeSemicolon(lines: seq<string>, l: nat, p: nat, m: nat, q: nat)
    requires m <= l < |lines| && p < |lines[l]| && PushesGreater(lines[l], p) && q < |lines[m]| && lines[m][q] == ';'
    requires Offset(lines, m) + q < Offset(lines, l) + p <= |Text(lines)|
    requires Nested(Text(lines), Offset(lines, m) + q + 1, Offset(lines, l) + p)
    ensures AfterPlace(lines, Opening(lines, l, p), Offset(lines, m) + q)
  {
    OpeningGreater(lines, l, p);
    MatchAfterSemicolon(lines, Offset(lines, l) + p, m, q, Opening(lines, l, p));
  }

  /** The place reported, if any, is after text position i. */
  ghost predicate AfterPlace(lines: seq<string>, place: Place, i: nat) {
    place.2 == -1 || (place.1 < |lines| && i < Offset(lines, place.1) + place.2)
  }

  lemma MatchAfter(lines: seq<string>, j: nat, k: nat, place: Place)
    requires k < j <= |Text(lines)| && OpensMatch(lines, j, place)
    requires var acts := ActsBefore(lines, j); acts[k] == Semicolon && Pending(acts, k) == Some([])
    ensures AfterPlace(lines, place, j - 1 - k)
  {
    if place.2 != -1 {
      SemicolonEnds(ActsBefore(lines, j), k, j - 1 - (Offset(lines, place.1) + place.2));
    }
  }

  /** Characters that a backward scan with nothing on its stack does not pass by. */
  predicate ActsDown(line: string, i: nat)
    requires i < |line|
  {
    IsOpen(line[i]) || IsClose(line[i]) || line[i] == ';' || PushesGreater(line, i)
  }

  /** The end of the last such character of line[..n], or 0. */
  function LastActing(line: string, n: nat): (q: nat)
    requires n <= |line|
    ensures q <= n && (q > 0 ==> ActsDown(line, q - 1))
    ensures forall k | q <= k < n :: !ActsDown(line, k)
  {
    if n == 0 || ActsDown(line, n - 1) then n else LastActing(line, n - 1)
  }

  /** Nor is the character that a backward scan steps over one of them. */
  lemma SkippedIsIdle(line: string, i: nat)
    requires i < |line| && Skips(line, i)
    ensures !ActsDown(line, i - 1)
  {
    SkippedIsNoBracket(line, i);
    if AfterOperator(line[..i]) {
      AfterOperatorEnds(line[..i]);
    }
  }

  lemma IdleDown(line: string, i: nat)
    requires i < |line| && !ActsDown(line, i)
    ensures StartStep(line, i, []) == if Skips(line, i) then Go(i - 1, []) else Go(i, [])
  {
    assert PopWhile([], '>') == [];
  }

  lemma {:induction false} ScanBackPassesIdle(line: string, n: nat)
    requires n <= |line|
    ensures ScanDown(line, n, [], StartStep) == ScanDown(line, LastActing(line, n), [], StartStep)
  {
    if n == 0 || ActsDown(line, n - 1) {
    } else {
      IdleDown(line, n - 1);
      if Skips(line, n - 1) {
        SkippedIsIdle(line, n - 1);
        ScanBackPassesIdle(line, n - 2);
      } else {
        ScanBackPassesIdle(line, n - 1);
      }
    }
  }

  lemma StopsEmptyBack(lines: seq<string>, l: nat, q: nat)
    requires l < |lines| && q <= |lines[l]| && (q > 0 ==> IsOpen(lines[l][q - 1]) || lines[l][q - 1] == ';')
    ensures OpenFrom(lines, l, q, [], StartStep).2 == -1
  {
    assert PopWhile([], '>') == [];
  }

  /** The place is what the last character decides that acts, before q. */
  ghost predicate DecidedBackBy(lines: seq<string>, l: nat, q: nat, place: Place)
    requires l < |lines| && q <= |lines[l]|
  {
    var line := lines[l];
    if q == 0 || IsOpen(line[q - 1]) || line[q - 1] == ';' then place.2 == -1
    else
      place == Opening(lines, l, q - 1) &&
      if IsClose(line[q - 1]) then OpensAt(lines, Offset(lines, l) + q, place)
      else
        && PushesGreater(line, q - 1) && OpensMatch(lines, Offset(lines, l) + q - 1, place)
        && OpensAngle(lines, Offset(lines, l) + q - 1, place)
  }

  lemma LastDecides(lines: seq<string>, l: nat, q: nat)
    requires l < |lines| && q <= |lines[l]| && (q > 0 ==> ActsDown(lines[l], q - 1))
    ensures DecidedBackBy(lines, l, q, OpenFrom(lines, l, q, [], StartStep))
  {
    if q == 0 || IsOpen(lines[l][q - 1]) || lines[l][q - 1] == ';' {
      StopsEmptyBack(lines, l, q);
    } else if IsClose(lines[l][q - 1]) {
      OpeningIsEnclosed(lines, l, q - 1);
    } else {
      OpeningGreater(lines, l, q - 1);
    }
  }

  lemma SkippedPassed(lines: seq<string>, l: nat, p: nat)
    requires l < |lines| && p < |lines[l]| && !ActsDown(lines[l], p)
    ensures OpenFrom(lines, l, p + 1, [], StartStep) ==
            OpenFrom(lines, l, LastActing(lines[l], p), [], StartStep)
  {
    ScanBackPassesIdle(lines[l], p + 1);
  }

  /** A `>` that is skipped, as that of an arrow, is not there for the scan.  The
      text before it decides: what its last closing bracket, or `>` that is
      pushed, ends is reported, and nothing if an opening bracket, a semicolon
      or the start of the line comes first. */
  lemma OpeningGreaterUnpushed(lines: seq<string>, l: nat, p: nat)
    requires l < |lines| && p < |lines[l]| && lines[l][p] == '>' && !PushesGreater(lines[l], p)
    ensures DecidedBackBy(lines, l, LastActing(lines[l], p), Opening(lines, l, p))
  {
    SkippedPassed(lines, l, p);
    LastDecides(lines, l, LastActing(lines[l], p));
  }

  lemma GroupOpened(line: string, i: nat)
    requires i + 2 < |line| && line[i] == '(' && line[i + 2] == ')'
    requires line[i + 1] == 'x'
    ensures ScanDown(line, i + 3, [], StartStep) == (i, None)
  {
    assert [] + [')'] == [')'] && PopWhile([')'], '>') == [')'];
    assert StartStep(line, i + 2, []) == Go(i + 2, [')']) && StartStep(line, i + 1, [')']) == Go(i + 1, [')']);
    assert StartStep(line, i, [')']) == Stop(i);
    assert ScanDown(line, i + 1, [')'], StartStep) == (i, None);
    assert ScanDown(line, i + 2, [')'], StartStep) == (i, None);
  }

  /** ... as in `f(x)->y`: the start of the argument list is reported. */
  lemma ArrowOpensBracket(line: string)
    requires line == "f(x)->y"
    ensures Opening([line], 0, 5) == (line, 0, 1)
  {
    GroupOpened(line, 1);
    assert LastActing(line, 5) == 4;
    OpeningGreaterUnpushed([line], 0, 5);
  }
}
