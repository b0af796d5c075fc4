/** The nesting tracker itself: blocks are objects changed in place, so the
    checkpoints hold deep copies. */
module NestingState {
  import opened Options
  import opened NestingModel
  import Braces = NestingBraces
  import Blocks = NestingBlocks

  class BlockInfo {
    const kind: Kind
    const startingLine: nat
    var seenOpenBrace: bool
    var openParentheses: int
    var inlineAsm: Asm

    constructor (kind: Kind, line: nat, seenOpenBrace: bool)
      ensures View() == NewBlock(kind, line, seenOpenBrace)
    {
      this.kind := kind;
      this.startingLine := line;
      this.seenOpenBrace := seenOpenBrace;
      openParentheses := 0;
      inlineAsm := NoAsm;
    }

    constructor Copy(b: BlockInfo)
      ensures View() == b.View()
    {
      kind := b.kind;
      startingLine := b.startingLine;
      seenOpenBrace := b.seenOpenBrace;
      openParentheses := b.openParentheses;
      inlineAsm := b.inlineAsm;
    }

    function View(): Block
      reads this
    {
      Block(kind, startingLine, seenOpenBrace, openParentheses, inlineAsm)
    }
  }

  ghost function Views(s: seq<BlockInfo>): Stack
    reads s
  {
    seq(|s|, i requires 0 <= i < |s| reads s => s[i].View())
  }

  ghost predicate Unique(s: seq<BlockInfo>) {
    forall i, j | 0 <= i < j < |s| :: s[i] != s[j]
  }

  datatype PreprocessorInfo =
    PreprocessorInfo(stackBeforeIf: seq<BlockInfo>, stackBeforeElse: seq<BlockInfo>, seenElse: bool)
  {
    ghost function Blocks(): set<BlockInfo> {
      (set b | b in stackBeforeIf) + set b | b in stackBeforeElse
    }

    ghost function View(): Checkpoint
      reads Blocks()
    {
      Checkpoint(Views(stackBeforeIf), Views(stackBeforeElse), seenElse)
    }
  }

  ghost predicate SavedIn(pp: seq<PreprocessorInfo>, b: BlockInfo) {
    exists i :: 0 <= i < |pp| && b in pp[i].Blocks()
  }

  ghost function SavedBlocks(pp: seq<PreprocessorInfo>): (r: set<BlockInfo>)
    ensures forall i | 0 <= i < |pp| :: pp[i].Blocks() <= r
    ensures forall b | b in r :: SavedIn(pp, b)
  {
    if pp == [] then {} else SavedBlocks(pp[..|pp| - 1]) + pp[|pp| - 1].Blocks()
  }

  /** A new block for each of s: `copy.deepcopy`. */
  method DeepCopy(s: seq<BlockInfo>) returns (r: seq<BlockInfo>)
    ensures Unique(r) && fresh(set b | b in r)
    ensures Views(r) == Views(s)
  {
    r := [];
    for i := 0 to |s|
      invariant |r| == i && Unique(r) && (forall b | b in r :: fresh(b))
      invariant forall k | 0 <= k < i :: r[k].View() == s[k].View()
    {
      var b := new BlockInfo.Copy(s[i]);
      r := r + [b];
    }
  }

  /** `_PreprocessorInfo(copy.deepcopy(stack))` */
  method NewCheckpoint(s: seq<BlockInfo>) returns (top: PreprocessorInfo)
    ensures top.View() == Checkpoint(Views(s), [], false)
    ensures fresh(top.Blocks()) && top.stackBeforeElse == []
  {
    var copy := DeepCopy(s);
    top := PreprocessorInfo(copy, [], false);
  }

  class NestingState {
    var stack: seq<BlockInfo>
    var ppStack: seq<PreprocessorInfo>

    ghost function Saved(): (r: set<BlockInfo>)
      reads this
      ensures forall i | 0 <= i < |ppStack| :: ppStack[i].Blocks() <= r
    {
      SavedBlocks(ppStack)
    }

    /** The blocks of the live stack are on it once and in no checkpoint, and a
        stack set aside for an #endif shares none with any other. */
    ghost predicate Valid()
      reads this
    {
      && Unique(stack)
      && (forall i, b | 0 <= i < |ppStack| && b in stack :: b !in ppStack[i].Blocks())
      && (forall i | 0 <= i < |ppStack| :: Unique(ppStack[i].stackBeforeElse))
      && (forall i, j, b | 0 <= i < j < |ppStack| && b in ppStack[j].stackBeforeElse :: b !in ppStack[i].Blocks())
    }

    ghost function View(): State
      reads this, stack, Saved()
    {
      State(Views(stack), seq(|ppStack|, i requires 0 <= i < |ppStack| reads this, Saved() => ppStack[i].View()))
    }

    constructor ()
      ensures Valid() && View() == State([], [])
    {
      stack := [];
      ppStack := [];
    }

    method PushCheckpoint(top: PreprocessorInfo)
      requires Valid() && (forall b | b in stack :: b !in top.Blocks()) && top.stackBeforeElse == []
      modifies this`ppStack
      ensures Valid() && ppStack == old(ppStack) + [top]
      ensures View() == old(View()).(pp := old(View()).pp + [top.View()])
      ensures forall b | b in Saved() :: b in old(Saved()) || b in top.Blocks()
    {
      ppStack := ppStack + [top];
      assert ppStack[..|ppStack| - 1] == old(ppStack);
      assert forall i | 0 <= i < |old(ppStack)| :: ppStack[i].View() == old(ppStack[i].View());
    }

    method BeginIf()
      requires Valid()
      modifies this`ppStack
      ensures Valid() && View() == Preprocess(old(View()), If)
      ensures forall b | b in Saved() :: b in old(Saved()) || fresh(b)
    {
      var top := NewCheckpoint(stack);
      assert View() == old(View());
      PushCheckpoint(top);
    }

    method EndFirstBranch()
      requires Valid() && ppStack != []
      modifies this`ppStack
      ensures Valid() && |ppStack| == |old(ppStack)|
      ensures var top := old(View()).pp[|ppStack| - 1];
              View() == old(View()).(pp := old(View()).pp[|ppStack| - 1 :=
                if top.seenElse then top else top.(seenElse := true, beforeElse := old(View()).stack)])
      ensures forall b | b in Saved() :: b in old(Saved()) || fresh(b)
    {
      var top := ppStack[|ppStack| - 1];
      if !top.seenElse {
        var before := DeepCopy(stack);
        top := top.(seenElse := true, stackBeforeElse := before);
        ppStack := ppStack[|ppStack| - 1 := top];
      }
    }

    method RestoreBeforeIf()
      requires Valid() && ppStack != []
      modifies this`stack
      ensures Valid() && View() == old(View()).(stack := old(View()).pp[|ppStack| - 1].beforeIf)
      ensures forall b | b in stack :: fresh(b)
    {
      stack := DeepCopy(ppStack[|ppStack| - 1].stackBeforeIf);
    }

    method EndConditional()
      requires Valid() && ppStack != []
      modifies this
      ensures Valid() && View() == Preprocess(old(View()), Endif)
      ensures forall b | b in stack :: b in old(stack) || b in old(Saved())
      ensures forall b | b in Saved() :: b in old(Saved()) || fresh(b)
    {
      if ppStack[|ppStack| - 1].seenElse {
        stack := ppStack[|ppStack| - 1].stackBeforeElse;
      }
      ppStack := ppStack[..|ppStack| - 1];
    }

    method UpdatePreprocessor(directive: Directive)
      requires Valid()
      modifies this
      ensures Valid() && View() == Preprocess(old(View()), directive)
      ensures forall b | b in stack :: b in old(stack) || b in old(Saved()) || fresh(b)
      ensures forall b | b in Saved() :: b in old(Saved()) || fresh(b)
    {
      if directive == If {
        BeginIf();
      } else if directive == Else {
        if ppStack != [] {
          EndFirstBranch();
          RestoreBeforeIf();
        }
      } else if directive == Endif {
        if ppStack != [] {
          EndConditional();
        }
      }
    }

    method Append(b: BlockInfo)
      requires Valid() && b !in stack && forall i | 0 <= i < |ppStack| :: b !in ppStack[i].Blocks()
      modifies this`stack
      ensures Valid() && View() == old(View()).(stack := old(View()).stack + [b.View()])
      ensures stack == old(stack) + [b]
    {
      stack := stack + [b];
    }

    method Pop()
      requires Valid() && stack != []
      modifies this`stack
      ensures stack == old(stack)[..|old(stack)| - 1]
      ensures Valid() && View() == old(View()).(stack := old(View()).stack[..|old(stack)| - 1])
    {
      stack := stack[..|stack| - 1];
      assert forall b | b in stack :: b in old(stack);
    }

    method CountParentheses(line: Line)
      requires Valid()
      modifies stack
      ensures Valid() && View() == old(View()).(stack := CountParens(old(View()).stack, line))
    {
      if stack != [] {
        var innerBlock := stack[|stack| - 1];
        innerBlock.openParentheses := innerBlock.openParentheses + line.parens;
        if innerBlock.inlineAsm == NoAsm || innerBlock.inlineAsm == EndAsm {
          if line.parens != 0 && innerBlock.openParentheses == 1 && line.asm {
            innerBlock.inlineAsm := InsideAsm;
          } else {
            innerBlock.inlineAsm := NoAsm;
          }
        } else if innerBlock.inlineAsm == InsideAsm && innerBlock.openParentheses == 0 {
          innerBlock.inlineAsm := EndAsm;
        }
        assert innerBlock.View() == AfterParens(old(innerBlock.View()), line);
        assert Views(stack) == old(Views(stack))[|stack| - 1 := innerBlock.View()];
        forall i | 0 <= i < |ppStack|
          ensures ppStack[i].View() == old(ppStack[i].View())
        {
          assert innerBlock in stack && innerBlock !in ppStack[i].Blocks();
        }
      }
    }

    /** The head of the innermost block is complete. */
    method MarkTop()
      requires Valid() && stack != []
      modifies stack
      ensures Valid()
      ensures var top := old(View()).stack[|stack| - 1];
              View() == old(View()).(stack := SetTop(old(View()).stack, top.(seenOpenBrace := true)))
    {
      var top := stack[|stack| - 1];
      top.seenOpenBrace := true;
      assert Views(stack) == old(Views(stack))[|stack| - 1 := top.View()];
      forall i | 0 <= i < |ppStack|
        ensures ppStack[i].View() == old(ppStack[i].View())
      {
        assert top in stack && top !in ppStack[i].Blocks();
      }
    }

    method OpenBlock(externC: bool, asm: bool, line: nat)
      requires Valid() && SeenOpenBrace(View().stack)
      modifies this`stack
      ensures Valid()
      ensures View() == old(View()).(stack := ConsumeToken(old(View()).stack, OpenBrace(externC, asm), line))
      ensures forall b | b in stack :: b in old(stack) || fresh(b)
    {
      var b;
      if externC {
        b := new BlockInfo(ExternC, line, true);
      } else {
        b := new BlockInfo(Plain, line, true);
        if asm {
          b.inlineAsm := BlockAsm;
        }
      }
      Append(b);
    }

    method ConsumeOne(token: Token, line: nat)
      requires Valid()
      modifies this`stack, set b | b in stack
      ensures Valid() && View() == old(View()).(stack := ConsumeToken(old(View()).stack, token, line))
      ensures forall b | b in stack :: b in old(stack) || fresh(b)
    {
      match token
      case OpenBrace(externC, asm) =>
        if stack != [] && !stack[|stack| - 1].seenOpenBrace {
          MarkTop();
        } else {
          OpenBlock(externC, asm, line);
        }
      case Semicolon | CloseParen =>
        if stack != [] && !stack[|stack| - 1].seenOpenBrace {
          Pop();
        }
      case CloseBrace =>
        if stack != [] {
          Pop();
        }
    }

    method PushNamespaceHeads(line: Line)
      requires Valid()
      modifies this`stack
      ensures Valid()
      ensures View() == old(View()).(stack := PushNamespaces(old(View()).stack, line.namespaces, line.number))
      ensures forall b | b in stack :: b in old(stack) || fresh(b)
    {
      for i := 0 to |line.namespaces|
        invariant Valid() && forall b | b in stack :: b in old(stack) || fresh(b)
        invariant View() == old(View()).(stack := PushNamespaces(old(View()).stack, line.namespaces[..i], line.number))
      {
        var b := new BlockInfo(Namespace(line.namespaces[i].name), line.number, line.namespaces[i].opens);
        Append(b);
        assert line.namespaces[..i + 1][..i] == line.namespaces[..i];
      }
      assert line.namespaces[..|line.namespaces|] == line.namespaces;
    }

    method PushClassHead(line: Line)
      requires Valid()
      modifies this`stack
      ensures Valid() && View() == old(View()).(stack := PushClass(old(View()).stack, line.class_, line.number))
      ensures |stack| == |old(stack)| + 1 <==>
              line.class_.Some? && (old(stack) == [] || old(stack[|stack| - 1].openParentheses) == 0)
      ensures forall b | b in stack :: b in old(stack) || fresh(b)
    {
      if line.class_.Some? && (stack == [] || stack[|stack| - 1].openParentheses == 0) {
        var b := new BlockInfo(Class(line.class_.value), line.number, false);
        Append(b);
      }
    }

    method ConsumeTokens(line: Line)
      requires Valid()
      modifies this`stack, set b | b in stack
      ensures Valid() && View() == old(View()).(stack := Consume(old(View()).stack, line.tokens, line.number))
      ensures forall b | b in stack :: b in old(stack) || fresh(b)
    {
      for i := 0 to |line.tokens|
        invariant Valid() && forall b | b in stack :: b in old(stack) || fresh(b)
        invariant View() == old(View()).(stack := Consume(old(View()).stack, line.tokens[..i], line.number))
      {
        assert forall b | b in stack :: b in old(stack) || fresh(b);
        ConsumeOne(line.tokens[i], line.number);
        assert line.tokens[..i + 1][..i] == line.tokens[..i];
      }
      assert line.tokens[..|line.tokens|] == line.tokens;
    }

    /** What a line does, directive first.  The effect on the whole state is that
        of the value model: no change of a block shows through a checkpoint. */
    method Update(line: Line)
      requires Valid()
      modifies this, stack, Saved()
      ensures Valid() && View() == NestingModel.Update(old(View()), line)
      ensures forall b | b in stack :: b in old(stack) || b in old(Saved()) || fresh(b)
      ensures forall b | b in Saved() :: b in old(Saved()) || fresh(b)
    {
      UpdatePreprocessor(line.directive);
      CountParentheses(line);
      PushNamespaceHeads(line);
      PushClassHead(line);
      ConsumeTokens(line);
    }
  }

  lemma RunOne(lines: seq<Line>, i: nat)
    requires i < |lines|
    ensures Run(State([], []), lines[..i + 1]) == NestingModel.Update(Run(State([], []), lines[..i]), lines[i])
  {
    assert lines[..i + 1][..i] == lines[..i];
  }

  /** Updating with every line of a file, from the empty state. */
  method UpdateAll(lines: seq<Line>) returns (state: NestingState)
    ensures state.Valid() && state.View() == Run(State([], []), lines)
  {
    state := new NestingState();
    for i := 0 to |lines|
      invariant fresh(state) && fresh(set b | b in state.stack) && fresh(state.Saved())
      invariant state.Valid() && state.View() == Run(State([], []), lines[..i])
    {
      RunOne(lines, i);
      state.Update(lines[i]);
    }
    assert lines[..|lines|] == lines;
  }

  /** The state after a whole file. */
  method Process(lines: seq<Line>) returns (state: NestingState)
    ensures state.Valid() && state.View() == Run(State([], []), lines)
    ensures ProperlyNested(lines) ==> state.View() == State(RunPlain([], Kept(lines)), [])
    ensures forall t | ProperlyNested(lines) && Braces.Proper(t) && Braces.Events(Kept(lines)) == Braces.Flat(t) ::
              state.View() == State(Blocks.Leaves([], t), [])
  {
    state := UpdateAll(lines);
    if ProperlyNested(lines) {
      NestedStretch(State([], []), lines);
      Blocks.FileLeaves(lines);
    }
  }
}
