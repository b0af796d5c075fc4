/** The brace nesting of a source file and its preprocessor checkpoints, as
    values: what each line does to them, and what a file with conditional
    sections amounts to. */
module NestingModel {
  import opened Options

  // ---- lines, as the regular expressions cut them up ------------------------------------

  datatype Directive = NoDirective | If | Else | Endif

  /** A namespace head at the start of a line; `opens` if its brace follows. */
  datatype NamespaceHead = NamespaceHead(name: string, opens: bool)

  datatype Token = OpenBrace(externC: bool, asm: bool) | CloseBrace | Semicolon | CloseParen

  datatype Line = Line(
    number: nat,
    directive: Directive,
    parens: int,                    // '(' minus ')' on the line
    asm: bool,                      // the line starts with an asm keyword
    namespaces: seq<NamespaceHead>,
    class_: Option<string>,         // a class head that is no template argument
    tokens: seq<Token>)

  // ---- the nesting stack --------------------------------------------------------------------

  datatype Kind = Plain | ExternC | Class(name: string) | Namespace(name: string)

  datatype Asm = NoAsm | InsideAsm | EndAsm | BlockAsm

  datatype Block = Block(kind: Kind, line: nat, seenOpenBrace: bool, openParentheses: int, inlineAsm: Asm)

  type Stack = seq<Block>

  function NewBlock(kind: Kind, line: nat, seenOpenBrace: bool): Block {
    Block(kind, line, seenOpenBrace, 0, NoAsm)
  }

  predicate SeenOpenBrace(stack: Stack) {
    stack == [] || stack[|stack| - 1].seenOpenBrace
  }

  function SetTop(stack: Stack, b: Block): Stack
    requires stack != []
  {
    stack[|stack| - 1 := b]
  }

  /** The innermost block after the parentheses of a line. */
  function AfterParens(b: Block, line: Line): Block {
    var open := b.openParentheses + line.parens;
    var asm :=
      if b.inlineAsm == NoAsm || b.inlineAsm == EndAsm then
        if line.parens != 0 && open == 1 && line.asm then InsideAsm else NoAsm
      else if b.inlineAsm == InsideAsm && open == 0 then EndAsm
      else b.inlineAsm;
    b.(openParentheses := open, inlineAsm := asm)
  }

  function CountParens(stack: Stack, line: Line): Stack {
    if stack == [] then stack else SetTop(stack, AfterParens(stack[|stack| - 1], line))
  }

  function PushNamespaces(stack: Stack, heads: seq<NamespaceHead>, line: nat): Stack {
    if heads == [] then stack
    else PushNamespaces(stack, heads[..|heads| - 1], line) +
         [NewBlock(Namespace(heads[|heads| - 1].name), line, heads[|heads| - 1].opens)]
  }

  function PushClass(stack: Stack, class_: Option<string>, line: nat): Stack {
    if class_.Some? && (stack == [] || stack[|stack| - 1].openParentheses == 0)
    then stack + [NewBlock(Class(class_.value), line, false)]
    else stack
  }

  function ConsumeToken(stack: Stack, token: Token, line: nat): Stack {
    match token
    case OpenBrace(externC, asm) =>
      if !SeenOpenBrace(stack) then SetTop(stack, stack[|stack| - 1].(seenOpenBrace := true))
      else if externC then stack + [NewBlock(ExternC, line, true)]
      else stack + [NewBlock(Plain, line, true).(inlineAsm := if asm then BlockAsm else NoAsm)]
    case Semicolon | CloseParen =>
      if !SeenOpenBrace(stack) then stack[..|stack| - 1] else stack
    case CloseBrace =>
      if stack != [] then stack[..|stack| - 1] else stack
  }

  function Consume(stack: Stack, tokens: seq<Token>, line: nat): Stack {
    if tokens == [] then stack
    else ConsumeToken(Consume(stack, tokens[..|tokens| - 1], line), tokens[|tokens| - 1], line)
  }

  /** The text of a line, after its preprocessor directive if it has one. */
  function Body(stack: Stack, line: Line): Stack {
    var s1 := CountParens(stack, line);
    var s2 := PushNamespaces(s1, line.namespaces, line.number);
    var s3 := PushClass(s2, line.class_, line.number);
    Consume(s3, line.tokens, line.number)
  }

  // ---- the preprocessor stack -----------------------------------------------------------------

  datatype Checkpoint = Checkpoint(beforeIf: Stack, beforeElse: Stack, seenElse: bool)

  datatype State = State(stack: Stack, pp: seq<Checkpoint>)

  function Preprocess(s: State, directive: Directive): State {
    match directive
    case NoDirective => s
    case If => s.(pp := s.pp + [Checkpoint(s.stack, [], false)])
    case Else =>
      if s.pp == [] then s
      else
        var top := s.pp[|s.pp| - 1];
        var saved := if top.seenElse then top else top.(seenElse := true, beforeElse := s.stack);
        State(top.beforeIf, s.pp[|s.pp| - 1 := saved])
    case Endif =>
      if s.pp == [] then s
      else
        var top := s.pp[|s.pp| - 1];
        State(if top.seenElse then top.beforeElse else s.stack, s.pp[..|s.pp| - 1])
  }

  function Update(s: State, line: Line): State {
    var t := Preprocess(s, line.directive);
    t.(stack := Body(t.stack, line))
  }

  function Run(s: State, lines: seq<Line>): State {
    if lines == [] then s else Update(Run(s, lines[..|lines| - 1]), lines[|lines| - 1])
  }

  // ---- the text that counts ----------------------------------------------------------------------

  /** For each open conditional, whether its first branch has ended. */
  function Branches(lines: seq<Line>): seq<bool> {
    if lines == [] then []
    else
      NextBranches(Branches(lines[..|lines| - 1]), lines[|lines| - 1].directive)
  }

  function NextBranches(b: seq<bool>, d: Directive): seq<bool> {
    match d
    case NoDirective => b
    case If => b + [false]
    case Else => if b == [] then b else b[|b| - 1 := true]
    case Endif => if b == [] then b else b[..|b| - 1]
  }

  /** The lines left when every branch from an #else or #elif on is deleted. */
  function Kept(lines: seq<Line>): seq<Line> {
    if lines == [] then []
    else Kept(lines[..|lines| - 1]) + if true in Branches(lines) then [] else [lines[|lines| - 1]]
  }

  /** Lines as plain text: directives do nothing. */
  function RunPlain(stack: Stack, lines: seq<Line>): Stack {
    if lines == [] then stack else Body(RunPlain(stack, lines[..|lines| - 1]), lines[|lines| - 1])
  }

  /** Every #else, #elif and #endif belongs to an #if of these lines. */
  predicate OwnIfs(lines: seq<Line>) {
    lines == [] ||
    (OwnIfs(lines[..|lines| - 1]) &&
     (lines[|lines| - 1].directive in {Else, Endif} ==> Branches(lines[..|lines| - 1]) != []))
  }

  predicate ProperlyNested(lines: seq<Line>) {
    OwnIfs(lines) && Branches(lines) == []
  }

  /** Index of the outermost conditional whose first branch has ended. */
  function Outermost(branches: seq<bool>): (i: nat)
    requires true in branches
    ensures i < |branches| && branches[i] && forall j | 0 <= j < i :: !branches[j]
  {
    var front := branches[..|branches| - 1];
    if true in front then Outermost(front)
    else
      assert branches == front + [branches[|branches| - 1]];
      |branches| - 1
  }

  /** The stack the lines kept so far have led to: set aside at the outermost
      branch that has ended, if any has. */
  function Committed(s: State, base: nat, branches: seq<bool>): Stack
    requires |s.pp| == base + |branches|
  {
    if true in branches then s.pp[base + Outermost(branches)].beforeElse else s.stack
  }

  /** Above the checkpoints of `start` there is one for each open conditional. */
  ghost predicate InStep(s: State, start: State, branches: seq<bool>) {
    && |s.pp| == |start.pp| + |branches|
    && s.pp[..|start.pp|] == start.pp
    && forall i | 0 <= i < |branches| :: s.pp[|start.pp| + i].seenElse == branches[i]
  }

  lemma IfCommits(start: State, s: State, b: seq<bool>)
    requires InStep(s, start, b)
    ensures InStep(Preprocess(s, If), start, b + [false])
    ensures Committed(Preprocess(s, If), |start.pp|, b + [false]) == Committed(s, |start.pp|, b)
  {
    assert (b + [false])[..|b|] == b;
    assert true in b + [false] <==> true in b;
  }

  lemma EndedBranch(b: seq<bool>)
    requires b != []
    ensures true in b[|b| - 1 := true]
    ensures Outermost(b[|b| - 1 := true]) == if true in b then Outermost(b) else |b| - 1
  {
    assert b[|b| - 1 := true][|b| - 1];
  }

  lemma ElseCommits(start: State, s: State, b: seq<bool>)
    requires InStep(s, start, b) && b != []
    ensures InStep(Preprocess(s, Else), start, b[|b| - 1 := true])
    ensures Committed(Preprocess(s, Else), |start.pp|, b[|b| - 1 := true]) == Committed(s, |start.pp|, b)
  {
    EndedBranch(b);
    assert s.pp[|start.pp| + |b| - 1].seenElse == b[|b| - 1];
  }

  lemma ClosedBranch(b: seq<bool>)
    requires b != []
    ensures var front, last := b[..|b| - 1], b[|b| - 1];
            (true in b <==> true in front || last) &&
            (true in b ==> Outermost(b) == if true in front then Outermost(front) else |b| - 1)
  {
    assert b == b[..|b| - 1] + [b[|b| - 1]];
  }

  lemma EndifCommits(start: State, s: State, b: seq<bool>)
    requires InStep(s, start, b) && b != []
    ensures InStep(Preprocess(s, Endif), start, b[..|b| - 1])
    ensures Committed(Preprocess(s, Endif), |start.pp|, b[..|b| - 1]) == Committed(s, |start.pp|, b)
  {
    ClosedBranch(b);
    assert s.pp[|start.pp| + |b| - 1].seenElse == b[|b| - 1];
  }

  /** A directive never changes what has been committed. */
  lemma PreprocessCommits(start: State, s: State, b: seq<bool>, d: Directive)
    requires InStep(s, start, b) && (start.pp == [] || d !in {Else, Endif} || b != [])
    ensures InStep(Preprocess(s, d), start, NextBranches(b, d))
    ensures Committed(Preprocess(s, d), |start.pp|, NextBranches(b, d)) == Committed(s, |start.pp|, b)
  {
    match d
    case NoDirective =>
    case If => IfCommits(start, s, b);
    case Else => if b != [] { ElseCommits(start, s, b); }
    case Endif => if b != [] { EndifCommits(start, s, b); }
  }

  lemma BodyCommits(start: State, t: State, b: seq<bool>, line: Line)
    requires InStep(t, start, b)
    ensures var u := t.(stack := Body(t.stack, line));
            InStep(u, start, b) && Committed(u, |start.pp|, b) ==
                                   if true in b then Committed(t, |start.pp|, b)
                                   else Body(Committed(t, |start.pp|, b), line)
  {
  }

  lemma RunPlainAppend(stack: Stack, lines: seq<Line>, line: Line)
    ensures RunPlain(stack, lines + [line]) == Body(RunPlain(stack, lines), line)
  {
    assert (lines + [line])[..|lines|] == lines;
  }

  /** At every point of every file, or of every properly nested stretch of one,
      the committed stack is that of the kept lines taken as plain text. */
  lemma {:induction false} CommittedIsKept(start: State, lines: seq<Line>)
    requires start.pp == [] || OwnIfs(lines)
    ensures InStep(Run(start, lines), start, Branches(lines))
    ensures Committed(Run(start, lines), |start.pp|, Branches(lines)) == RunPlain(start.stack, Kept(lines))
  {
    if lines == [] {
    } else {
      var front, line := lines[..|lines| - 1], lines[|lines| - 1];
      CommittedIsKept(start, front);
      var s, b' := Run(start, front), Branches(lines);
      PreprocessCommits(start, s, Branches(front), line.directive);
      BodyCommits(start, Preprocess(s, line.directive), b', line);
      if true !in b' {
        RunPlainAppend(start.stack, Kept(front), line);
      } else {
        assert Kept(lines) == Kept(front);
      }
    }
  }

  /** A properly nested stretch of lines leaves the preprocessor stack as it was,
      and the nesting stack as the stretch without its #else branches would. */
  lemma NestedStretch(start: State, lines: seq<Line>)
    requires ProperlyNested(lines)
    ensures Run(start, lines) == State(RunPlain(start.stack, Kept(lines)), start.pp)
  {
    CommittedIsKept(start, lines);
  }

  // ---- the branches that do not count ------------------------------------------------------------

  /** Conditionals the lines begin minus those they end. */
  function IfDepth(lines: seq<Line>): int {
    if lines == [] then 0
    else
      IfDepth(lines[..|lines| - 1]) +
      match lines[|lines| - 1].directive { case If => 1 case Endif => -1 case _ => 0 }
  }

  /** No #endif among the lines ends a conditional opened before them. */
  predicate StaysInside(lines: seq<Line>) {
    IfDepth(lines) >= 0 && (lines == [] || StaysInside(lines[..|lines| - 1]))
  }

  /** A directive never touches what the conditional with checkpoint n began with,
      unless it ends it. */
  lemma StepInside(u: State, n: nat, d: Directive)
    requires n < |u.pp| && (d == Endif ==> n + 1 < |u.pp|)
    ensures var v := Preprocess(u, d);
            |v.pp| == |u.pp| + (match d { case If => 1 case Endif => -1 case _ => 0 }) &&
            v.pp[n].beforeIf == u.pp[n].beforeIf
  {
  }

  /** Within a conditional the stack before its #if is kept, whatever follows. */
  lemma {:induction false} InsideIf(s: State, open: Line, lines: seq<Line>)
    requires open.directive == If && StaysInside(lines)
    ensures var u := Run(Update(s, open), lines);
            |u.pp| == |s.pp| + 1 + IfDepth(lines) && u.pp[|s.pp|].beforeIf == s.stack
  {
    if lines == [] {
    } else {
      var front, line := lines[..|lines| - 1], lines[|lines| - 1];
      InsideIf(s, open, front);
      StepInside(Run(Update(s, open), front), |s.pp|, line.directive);
    }
  }

  /** An #else or #elif brings back the stack from before its #if: that of the
      nearest #if whose conditional is still open. */
  lemma ElseRestores(s: State, open: Line, lines: seq<Line>)
    requires open.directive == If && StaysInside(lines) && IfDepth(lines) == 0
    ensures Preprocess(Run(Update(s, open), lines), Else).stack == s.stack
  {
    InsideIf(s, open, lines);
  }

  // ---- the kept lines as a file of their own ---------------------------------------------------------

  /** Open conditionals of the kept lines: those up to the outermost ended one. */
  function KeptBranches(b: seq<bool>): (r: seq<bool>)
    ensures true !in r
  {
    seq(if true in b then Outermost(b) + 1 else |b|, _ => false)
  }

  lemma IfKeeps(b: seq<bool>)
    ensures true in b + [false] <==> true in b
    ensures KeptBranches(b + [false]) == if true in b then KeptBranches(b) else KeptBranches(b) + [false]
  {
    assert (b + [false])[..|b|] == b;
    assert true in b + [false] <==> true in b;
  }

  lemma ElseKeeps(b: seq<bool>)
    requires b != []
    ensures true in b[|b| - 1 := true] && KeptBranches(b[|b| - 1 := true]) == KeptBranches(b)
  {
    var b' := b[|b| - 1 := true];
    assert b'[|b| - 1];
    if true in b {
      assert Outermost(b') == Outermost(b);
    } else {
      assert Outermost(b') == |b| - 1;
    }
  }

  lemma EndifKeeps(b: seq<bool>)
    requires b != []
    ensures var b' := b[..|b| - 1];
            if true in b' then KeptBranches(b') == KeptBranches(b) else KeptBranches(b) == KeptBranches(b') + [false]
  {
    var b' := b[..|b| - 1];
    assert b == b' + [b[|b| - 1]];
    if true in b' {
      assert Outermost(b') == Outermost(b);
    } else if true in b {
      assert Outermost(b) == |b| - 1;
    }
  }

  lemma KeptBranchesStep(b: seq<bool>, d: Directive)
    requires d in {Else, Endif} ==> b != []
    ensures var b' := NextBranches(b, d);
            if true in b' then KeptBranches(b') == KeptBranches(b)
            else d != Else && KeptBranches(b') == NextBranches(KeptBranches(b), d) &&
                 (d == Endif ==> KeptBranches(b) != [])
  {
    match d
    case NoDirective =>
    case If => IfKeeps(b);
    case Else => ElseKeeps(b);
    case Endif => EndifKeeps(b);
  }

  lemma {:induction false} KeptIsNested(lines: seq<Line>)
    requires OwnIfs(lines)
    ensures OwnIfs(Kept(lines)) && Kept(Kept(lines)) == Kept(lines)
    ensures Branches(Kept(lines)) == KeptBranches(Branches(lines))
  {
    if lines == [] {
    } else {
      var front, line := lines[..|lines| - 1], lines[|lines| - 1];
      KeptIsNested(front);
      KeptBranchesStep(Branches(front), line.directive);
      if true !in Branches(lines) {
        assert Kept(lines)[..|Kept(lines)| - 1] == Kept(front);
        assert true !in Branches(Kept(lines));
      } else {
        assert Kept(lines) == Kept(front);
      }
    }
  }

  /** Deleting the #else branches from a properly nested stretch of lines does
      not change what it does. */
  lemma ElseBranchesDoNotCount(start: State, lines: seq<Line>)
    requires ProperlyNested(lines)
    ensures ProperlyNested(Kept(lines)) && Run(start, Kept(lines)) == Run(start, lines)
  {
    KeptIsNested(lines);
    NestedStretch(start, lines);
    NestedStretch(start, Kept(lines));
  }
}
