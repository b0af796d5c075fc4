/** What stands on the nesting stack after a text: the blocks it leaves open, each
    with what opened it and the parentheses of the lines it was innermost for. */
module NestingBlocks {
  import opened Options
  import opened NestingModel
  import opened NestingBraces

  // ---- a block and the lines it was innermost for --------------------------------------------

  /** '(' minus ')' on the lines. */
  function Sum(lines: seq<Line>): int {
    if lines == [] then 0 else Sum(lines[..|lines| - 1]) + lines[|lines| - 1].parens
  }

  /** Line i starts an inline assembly block: an asm keyword, and its parentheses
      leave exactly one open. */
  predicate StartsAsm(open: int, lines: seq<Line>, i: nat) {
    i < |lines| && lines[i].asm && lines[i].parens != 0 && open + Sum(lines[..i + 1]) == 1
  }

  /** After the first k lines some parenthesis is open, or one too many closed. */
  predicate OpenAfter(open: int, lines: seq<Line>, k: nat) {
    k <= |lines| && open + Sum(lines[..k]) != 0
  }

  /** From line i on no line ends with all parentheses closed. */
  predicate StaysOpen(open: int, lines: seq<Line>, i: nat) {
    forall k | i < k <= |lines| :: OpenAfter(open, lines, k)
  }

  /** Inline assembly started at line i and has not ended. */
  predicate AsmSince(open: int, lines: seq<Line>, i: nat) {
    StartsAsm(open, lines, i) && StaysOpen(open, lines, i)
  }

  /** Within inline assembly: since it started, parentheses have been open. */
  predicate WithinAsm(asm: Asm, open: int, lines: seq<Line>) {
    (asm == InsideAsm && StaysOpen(open, lines, 0)) ||
    exists i :: 0 <= i < |lines| && AsmSince(open, lines, i)
  }

  /** The last of the lines has closed the parentheses of inline assembly. */
  predicate LeavesAsm(asm: Asm, open: int, lines: seq<Line>) {
    if lines == [] then asm == EndAsm
    else WithinAsm(asm, open, lines[..|lines| - 1]) && open + Sum(lines) == 0
  }

  function AsmAfter(asm: Asm, open: int, lines: seq<Line>): Asm {
    if asm == BlockAsm then BlockAsm
    else if WithinAsm(asm, open, lines) then InsideAsm
    else if LeavesAsm(asm, open, lines) then EndAsm
    else NoAsm
  }

  /** A block that has been innermost for these lines. */
  function Read(b: Block, lines: seq<Line>): Block {
    b.(openParentheses := b.openParentheses + Sum(lines),
       inlineAsm := AsmAfter(b.inlineAsm, b.openParentheses, lines))
  }

  lemma ReadNone(b: Block)
    ensures Read(b, []) == b
  {
    if b.inlineAsm == InsideAsm {
      assert StaysOpen(b.openParentheses, [], 0);
    }
  }

  lemma SumOne(lines: seq<Line>, line: Line)
    ensures Sum(lines + [line]) == Sum(lines) + line.parens
  {
    assert (lines + [line])[..|lines|] == lines;
  }

  lemma OpenAfterOne(open: int, lines: seq<Line>, line: Line, k: nat)
    ensures k <= |lines| ==> OpenAfter(open, lines + [line], k) == OpenAfter(open, lines, k)
    ensures k == |lines| + 1 ==> OpenAfter(open, lines + [line], k) == (open + Sum(lines + [line]) != 0)
  {
    if k <= |lines| {
      assert (lines + [line])[..k] == lines[..k];
    } else if k == |lines| + 1 {
      assert (lines + [line])[..k] == lines + [line];
    }
  }

  lemma StaysOpenOne(open: int, lines: seq<Line>, line: Line, i: nat)
    requires i <= |lines|
    ensures StaysOpen(open, lines + [line], i) <==>
            StaysOpen(open, lines, i) && OpenAfter(open, lines + [line], |lines| + 1)
  {
    var all := lines + [line];
    forall k | 0 <= k <= |lines|
      ensures OpenAfter(open, all, k) == OpenAfter(open, lines, k)
    {
      OpenAfterOne(open, lines, line, k);
    }
  }

  lemma StartsAsmOne(open: int, lines: seq<Line>, line: Line, i: nat)
    ensures i < |lines| ==> StartsAsm(open, lines + [line], i) == StartsAsm(open, lines, i)
    ensures i == |lines| ==> StartsAsm(open, lines + [line], i) ==
                             (line.asm && line.parens != 0 && open + Sum(lines + [line]) == 1)
  {
    if i < |lines| {
      assert (lines + [line])[..i + 1] == lines[..i + 1];
    } else if i == |lines| {
      assert (lines + [line])[..i + 1] == lines + [line];
    }
  }

  lemma AsmSinceOne(open: int, lines: seq<Line>, line: Line, i: nat)
    requires i <= |lines|
    ensures AsmSince(open, lines + [line], i) <==>
            OpenAfter(open, lines + [line], |lines| + 1) &&
            if i < |lines| then AsmSince(open, lines, i) else StartsAsm(open, lines + [line], i)
  {
    StartsAsmOne(open, lines, line, i);
    StaysOpenOne(open, lines, line, i);
    assert StaysOpen(open, lines, |lines|);
  }

  lemma WithinAsmOne(asm: Asm, open: int, lines: seq<Line>, line: Line)
    ensures WithinAsm(asm, open, lines + [line]) <==>
            open + Sum(lines + [line]) != 0 &&
            (WithinAsm(asm, open, lines) || (line.asm && line.parens != 0 && open + Sum(lines + [line]) == 1))
  {
    var all := lines + [line];
    OpenAfterOne(open, lines, line, |lines| + 1);
    StaysOpenOne(open, lines, line, 0);
    StartsAsmOne(open, lines, line, |lines|);
    forall i | 0 <= i <= |lines|
      ensures AsmSince(open, all, i) <==>
              OpenAfter(open, all, |lines| + 1) &&
              if i < |lines| then AsmSince(open, lines, i) else StartsAsm(open, all, i)
    {
      AsmSinceOne(open, lines, line, i);
    }
  }

  /** Counting one line more is what a line does to the innermost block. */
  lemma ReadOne(b: Block, lines: seq<Line>, line: Line)
    ensures AfterParens(Read(b, lines), line) == Read(b, lines + [line])
  {
    var asm, open, all := b.inlineAsm, b.openParentheses, lines + [line];
    SumOne(lines, line);
    WithinAsmOne(asm, open, lines, line);
    assert all[..|all| - 1] == lines;
  }

  lemma {:induction false} ReadMore(b: Block, lines: seq<Line>, more: seq<Line>)
    ensures Read(Read(b, lines), more) == Read(b, lines + more)
  {
    if more == [] {
      ReadNone(Read(b, lines));
      assert lines + more == lines;
    } else {
      var front, line := more[..|more| - 1], more[|more| - 1];
      assert front + [line] == more;
      ReadMore(b, lines, front);
      ReadOne(Read(b, lines), front, line);
      ReadOne(b, lines + front, line);
      assert lines + front + [line] == lines + more;
    }
  }

  // ---- the blocks a text leaves -------------------------------------------------------------

  /** Open parentheses of the block a text stands in, if it stands in one. */
  type Around = Option<int>

  function Outside(stack: Stack): Around {
    if stack == [] then None else Some(stack[|stack| - 1].openParentheses)
  }

  function After(p: Around, lines: seq<Line>): Around {
    match p
    case None => None
    case Some(open) => Some(open + Sum(lines))
  }

  /** The lines that begin among the events. */
  function LinesOf(es: seq<Event>): seq<Line> {
    if es == [] then []
    else LinesOf(es[..|es| - 1]) + match es[|es| - 1] { case Parens(on) => [on] case _ => [] }
  }

  /** A class head among the arguments in open parentheses is none. */
  predicate IsBlockHead(head: Event, p: Around) {
    head.NamespaceAt? || (head.ClassAt? && (p.None? || p.value == 0))
  }

  /** The block that a brace opens: plain, extern "C" or asm; or a namespace
      whose brace is on its line. */
  function BraceBlock(e: Event): Block
    requires Opens(e)
  {
    match e
    case TokenAt(token, number) =>
      Block(if token.externC then ExternC else Plain, number, true, 0,
            if token.asm && !token.externC then BlockAsm else NoAsm)
    case NamespaceAt(space, number) => Block(Namespace(space.name), number, true, 0, NoAsm)
  }

  /** The block of a head once its brace has come. */
  function HeadBlock(head: Event): Block
    requires IsHead(head)
  {
    match head
    case ClassAt(name, number) => Block(Class(name), number, true, 0, NoAsm)
    case NamespaceAt(space, number) => Block(Namespace(space.name), number, true, 0, NoAsm)
  }

  /** The lines of a text for which the block it stands in is innermost. */
  function Own(t: Nest, p: Around): seq<Line>
    decreases t
  {
    match t
    case Done => []
    case Neutral(e, rest) => LinesOf([e]) + Own(rest, After(p, LinesOf([e])))
    case Braced(_, _, _, rest) => Own(rest, p)
    case Headed(head, breaks, _, _, _, rest) =>
      OwnBreaks(head, breaks, p) + Own(rest, After(p, OwnBreaks(head, breaks, p)))
    case Declared(head, breaks, _, rest) =>
      OwnBreaks(head, breaks, p) + Own(rest, After(p, OwnBreaks(head, breaks, p)))
    case Open(_, _) => []
    case OpenHeaded(head, breaks, _, _) => OwnBreaks(head, breaks, p)
  }

  /** The lines that begin between a head and its brace belong to the block of the
      head if it is one. */
  function OwnBreaks(head: Event, breaks: seq<Event>, p: Around): seq<Line> {
    if IsBlockHead(head, p) then [] else LinesOf(breaks)
  }

  /** A block left open, and the lines it was innermost for. */
  datatype LeftOpen = LeftOpen(block: Block, lines: seq<Line>)

  function Blocks(t: Nest, p: Around): seq<LeftOpen>
    requires Proper(t)
    decreases t
  {
    match t
    case Done => []
    case Neutral(e, rest) => Blocks(rest, After(p, LinesOf([e])))
    case Braced(_, _, _, rest) => Blocks(rest, p)
    case Headed(head, breaks, _, _, _, rest) => Blocks(rest, After(p, OwnBreaks(head, breaks, p)))
    case Declared(head, breaks, _, rest) => Blocks(rest, After(p, OwnBreaks(head, breaks, p)))
    case Open(open, rest) => [LeftOpen(BraceBlock(open), Own(rest, Some(0)))] + Blocks(rest, Some(0))
    case OpenHeaded(head, breaks, open, rest) =>
      if IsBlockHead(head, p) then
        var lines := LinesOf(breaks);
        var within := Some(Sum(lines));
        [LeftOpen(HeadBlock(head), lines + Own(rest, within))] + Blocks(rest, within)
      else [LeftOpen(BraceBlock(open), Own(rest, Some(0)))] + Blocks(rest, Some(0))
  }

  /** The stack whose innermost block has been innermost for the lines. */
  function ReadTop(stack: Stack, lines: seq<Line>): Stack {
    if stack == [] then stack else stack[|stack| - 1 := Read(stack[|stack| - 1], lines)]
  }

  /** The blocks as they stand on the stack. */
  function Standing(blocks: seq<LeftOpen>): Stack {
    seq(|blocks|, i requires 0 <= i < |blocks| => Read(blocks[i].block, blocks[i].lines))
  }

  // ---- the stack after a text -----------------------------------------------------------------

  lemma ReadTopOf(stack: Stack, block: Block, lines: seq<Line>)
    ensures ReadTop(stack + [block], lines) == stack + [Read(block, lines)]
  {
  }

  lemma Regroup(a: Stack, b: Stack, c: Stack)
    ensures a + b + c == a + (b + c)
  {
  }

  lemma StandingOne(first: LeftOpen, blocks: seq<LeftOpen>)
    ensures Standing([first] + blocks) == [Read(first.block, first.lines)] + Standing(blocks)
  {
  }

  lemma ReadTopMore(stack: Stack, lines: seq<Line>, more: seq<Line>)
    ensures ReadTop(ReadTop(stack, lines), more) == ReadTop(stack, lines + more)
    ensures Outside(ReadTop(stack, lines)) == After(Outside(stack), lines)
    ensures SeenOpenBrace(stack) ==> SeenOpenBrace(ReadTop(stack, lines))
  {
    if stack != [] {
      ReadMore(stack[|stack| - 1], lines, more);
    }
  }

  lemma ReadTopNone(stack: Stack)
    ensures ReadTop(stack, []) == stack
  {
    if stack != [] {
      ReadNone(stack[|stack| - 1]);
    }
  }

  lemma ParensRead(stack: Stack, e: Event)
    requires e.Parens?
    ensures Handle(stack, e) == ReadTop(stack, LinesOf([e])) && LinesOf([e]) == [e.on]
  {
    assert [e][..0] == [];
    if stack != [] {
      var b := stack[|stack| - 1];
      ReadNone(b);
      ReadOne(b, [], e.on);
      assert [] + [e.on] == [e.on];
    }
  }

  lemma {:induction false} BreaksRead(stack: Stack, breaks: seq<Event>)
    requires Breaks(breaks)
    ensures HandleAll(stack, breaks) == ReadTop(stack, LinesOf(breaks))
  {
    if breaks == [] {
      ReadTopNone(stack);
    } else {
      var front, e := breaks[..|breaks| - 1], breaks[|breaks| - 1];
      BreaksRead(stack, front);
      ParensRead(HandleAll(stack, front), e);
      ReadTopMore(stack, LinesOf(front), LinesOf([e]));
    }
  }

  /** The stack with a head and the lines after it, before its brace. */
  function WithHead(stack: Stack, head: Event, lines: seq<Line>): Stack
    requires IsHead(head)
  {
    if IsBlockHead(head, Outside(stack))
    then stack + [Read(HeadBlock(head), lines).(seenOpenBrace := false)]
    else ReadTop(stack, lines)
  }

  lemma OpeningArrives(stack: Stack, open: Event)
    requires SeenOpenBrace(stack) && Opens(open)
    ensures Handle(stack, open) == stack + [BraceBlock(open)]
  {
  }

  lemma HeadArrives(stack: Stack, head: Event)
    requires SeenOpenBrace(stack) && IsHead(head)
    ensures Handle(stack, head) ==
            if IsBlockHead(head, Outside(stack)) then stack + [HeadBlock(head).(seenOpenBrace := false)] else stack
  {
  }

  lemma ReadUnseen(block: Block, lines: seq<Line>)
    ensures Read(block.(seenOpenBrace := false), lines) == Read(block, lines).(seenOpenBrace := false)
  {
  }

  lemma HeadRead(stack: Stack, head: Event, breaks: seq<Event>)
    requires SeenOpenBrace(stack) && IsHead(head) && Breaks(breaks)
    ensures HandleAll(stack, [head] + breaks) == WithHead(stack, head, LinesOf(breaks))
  {
    HandleAppend(stack, [head], breaks);
    HandleOne(stack, head);
    HeadArrives(stack, head);
    BreaksRead(Handle(stack, head), breaks);
    if IsBlockHead(head, Outside(stack)) {
      ReadUnseen(HeadBlock(head), LinesOf(breaks));
      ReadTopOf(stack, HeadBlock(head).(seenOpenBrace := false), LinesOf(breaks));
    }
  }

  lemma BraceOnHead(under: Stack, block: Block, open: Event)
    requires IsBrace(open) && block.seenOpenBrace
    ensures Handle(under + [block.(seenOpenBrace := false)], open) == under + [block]
  {
  }

  /** The block on top once the brace after a head has come: that of the head, or
      of the brace if the head is none. */
  function Opened(head: Event, breaks: seq<Event>, open: Event, p: Around): Block
    requires IsHead(head) && IsBrace(open)
  {
    if IsBlockHead(head, p) then Read(HeadBlock(head), LinesOf(breaks)) else BraceBlock(open)
  }

  lemma HeadOpens(stack: Stack, head: Event, breaks: seq<Event>, open: Event)
    requires SeenOpenBrace(stack) && IsHead(head) && Breaks(breaks) && IsBrace(open)
    ensures HandleAll(stack, [head] + breaks + [open]) ==
            ReadTop(stack, OwnBreaks(head, breaks, Outside(stack))) + [Opened(head, breaks, open, Outside(stack))]
  {
    HeadRead(stack, head, breaks);
    HandleAppend(stack, [head] + breaks, [open]);
    HandleOne(WithHead(stack, head, LinesOf(breaks)), open);
    if IsBlockHead(head, Outside(stack)) {
      BraceOnHead(stack, Read(HeadBlock(head), LinesOf(breaks)), open);
      ReadTopNone(stack);
    } else {
      ReadTopMore(stack, LinesOf(breaks), []);
      OpeningArrives(ReadTop(stack, LinesOf(breaks)), open);
    }
  }

  lemma HeadEnds(stack: Stack, head: Event, breaks: seq<Event>, end: Event)
    requires SeenOpenBrace(stack) && IsHead(head) && Breaks(breaks) && Ends(end)
    ensures HandleAll(stack, [head] + breaks + [end]) ==
            ReadTop(stack, OwnBreaks(head, breaks, Outside(stack)))
  {
    HeadRead(stack, head, breaks);
    HandleAppend(stack, [head] + breaks, [end]);
    var t := WithHead(stack, head, LinesOf(breaks));
    HandleOne(t, end);
    ReadTopNone(stack);
    ReadTopMore(stack, LinesOf(breaks), []);
    if IsBlockHead(head, Outside(stack)) {
      assert t[..|stack|] == stack;
    }
  }

  lemma {:induction false} BlocksLeft(t: Nest, p: Around)
    requires Proper(t)
    ensures |Blocks(t, p)| == Left(t)
    decreases t
  {
    match t
    case Done =>
    case Neutral(e, rest) => BlocksLeft(rest, After(p, LinesOf([e])));
    case Braced(_, _, _, rest) => BlocksLeft(rest, p);
    case Headed(head, breaks, _, _, _, rest) => BlocksLeft(rest, After(p, OwnBreaks(head, breaks, p)));
    case Declared(head, breaks, _, rest) => BlocksLeft(rest, After(p, OwnBreaks(head, breaks, p)));
    case Open(_, rest) => BlocksLeft(rest, Some(0));
    case OpenHeaded(head, breaks, _, rest) =>
      BlocksLeft(rest, if IsBlockHead(head, p) then Some(Sum(LinesOf(breaks))) else Some(0));
  }

  /** The stack a text leaves: the block it stands in has been innermost for its own
      lines, and on top stand the blocks it leaves open. */
  function Leaves(stack: Stack, t: Nest): Stack
    requires Proper(t)
  {
    ReadTop(stack, Own(t, Outside(stack))) + Standing(Blocks(t, Outside(stack)))
  }

  /** A text on top of a block that has been innermost for some lines. */
  lemma LeavesOnBlock(stack: Stack, block: Block, lines: seq<Line>, rest: Nest)
    requires Proper(rest) && block.openParentheses == 0
    ensures var within := Some(Sum(lines));
            Leaves(stack + [Read(block, lines)], rest) ==
            stack + Standing([LeftOpen(block, lines + Own(rest, within))] + Blocks(rest, within))
  {
    var own, blocks := Own(rest, Some(Sum(lines))), Blocks(rest, Some(Sum(lines)));
    assert Outside(stack + [Read(block, lines)]) == Some(Sum(lines));
    ReadMore(block, lines, own);
    ReadTopOf(stack, Read(block, lines), own);
    StandingOne(LeftOpen(block, lines + own), blocks);
    Regroup(stack, [Read(block, lines + own)], Standing(blocks));
  }

  /** A text goes on where lines of the block it stands in have ended. */
  lemma LeavesAfterLines(stack: Stack, lines: seq<Line>, t: Nest, rest: Nest)
    requires Proper(t) && Proper(rest)
    requires Own(t, Outside(stack)) == lines + Own(rest, After(Outside(stack), lines))
    requires Blocks(t, Outside(stack)) == Blocks(rest, After(Outside(stack), lines))
    ensures Leaves(ReadTop(stack, lines), rest) == Leaves(stack, t)
  {
    ReadTopMore(stack, lines, Own(rest, After(Outside(stack), lines)));
  }

  lemma NeutralRead(stack: Stack, e: Event)
    requires SeenOpenBrace(stack) && (e.Parens? || Ends(e))
    ensures HandleAll(stack, [e]) == ReadTop(stack, LinesOf([e]))
  {
    HandleOne(stack, e);
    if e.Parens? {
      ParensRead(stack, e);
    } else {
      assert [e][..0] == [];
      ReadTopNone(stack);
    }
  }

  /** The closing brace of a block takes it off, whatever it has read. */
  lemma BlockTaken(stack: Stack, opening: seq<Event>, under: Stack, block: Block, inner: Nest, close: Event)
    requires HandleAll(stack, opening) == under + [block]
    requires Proper(inner) && Left(inner) == 0 && close.TokenAt? && close.token.CloseBrace?
    requires HandleAll(under + [block], Flat(inner)) == Leaves(under + [block], inner)
    ensures HandleAll(stack, opening + Flat(inner) + [close]) == under
  {
    HandleAppend(stack, opening, Flat(inner));
    HandleAppend(stack, opening + Flat(inner), [close]);
    BlocksLeft(inner, Some(block.openParentheses));
    HandleOne(Leaves(under + [block], inner), close);
  }

  /** The stack a text leads to, block by block. */
  lemma {:induction false} NestLeaves(stack: Stack, t: Nest)
    requires Proper(t) && SeenOpenBrace(stack)
    ensures HandleAll(stack, Flat(t)) == Leaves(stack, t)
    decreases t, 1
  {
    match t
    case Done =>
      ReadTopNone(stack);
    case Neutral(e, rest) =>
      NeutralRead(stack, e);
      RestLeaves(stack, [e], LinesOf([e]), t, rest);
    case Braced(open, inner, close, rest) =>
      HandleOne(stack, open);
      OpeningArrives(stack, open);
      NestLeaves(stack + [BraceBlock(open)], inner);
      BlockTaken(stack, [open], stack, BraceBlock(open), inner, close);
      ReadTopNone(stack);
      RestLeaves(stack, [open] + Flat(inner) + [close], [], t, rest);
    case Headed(_, _, _, _, _, _) =>
      HeadedLeaves(stack, t);
    case Declared(head, breaks, end, rest) =>
      HeadEnds(stack, head, breaks, end);
      RestLeaves(stack, [head] + breaks + [end], OwnBreaks(head, breaks, Outside(stack)), t, rest);
    case Open(open, rest) =>
      HandleOne(stack, open);
      OpeningArrives(stack, open);
      RestOnBrace(stack, [open], stack, open, rest);
      ReadTopNone(stack);
    case OpenHeaded(head, breaks, open, rest) =>
      HeadOpens(stack, head, breaks, open);
      OpenHeadedLeaves(stack, [head] + breaks + [open], head, breaks, open, rest);
  }

  lemma {:induction false} HeadedLeaves(stack: Stack, t: Nest)
    requires Proper(t) && t.Headed? && SeenOpenBrace(stack)
    ensures HandleAll(stack, Flat(t)) == Leaves(stack, t)
    decreases t, 0
  {
    var Headed(head, breaks, open, inner, close, rest) := t;
    var own, block := OwnBreaks(head, breaks, Outside(stack)), Opened(head, breaks, open, Outside(stack));
    HeadOpens(stack, head, breaks, open);
    NestLeaves(ReadTop(stack, own) + [block], inner);
    BlockTaken(stack, [head] + breaks + [open], ReadTop(stack, own), block, inner, close);
    RestLeaves(stack, [head] + breaks + [open] + Flat(inner) + [close], own, t, rest);
  }

  lemma {:induction false} OpenHeadedLeaves(stack: Stack, done: seq<Event>, head: Event, breaks: seq<Event>,
                                                open: Event, rest: Nest)
    requires SeenOpenBrace(stack) && IsHead(head) && Breaks(breaks) && IsBrace(open) && Proper(rest)
    requires HandleAll(stack, done) ==
             ReadTop(stack, OwnBreaks(head, breaks, Outside(stack))) + [Opened(head, breaks, open, Outside(stack))]
    ensures HandleAll(stack, done + Flat(rest)) == Leaves(stack, OpenHeaded(head, breaks, open, rest))
    decreases rest, 4
  {
    if IsBlockHead(head, Outside(stack)) {
      ReadTopNone(stack);
      RestOnBlock(stack, done, stack, HeadBlock(head), LinesOf(breaks), rest);
    } else {
      RestOnBrace(stack, done, ReadTop(stack, LinesOf(breaks)), open, rest);
    }
  }

  lemma {:induction false} RestLeaves(stack: Stack, done: seq<Event>, lines: seq<Line>, t: Nest, rest: Nest)
    requires Proper(t) && Proper(rest) && SeenOpenBrace(stack)
    requires HandleAll(stack, done) == ReadTop(stack, lines)
    requires Own(t, Outside(stack)) == lines + Own(rest, After(Outside(stack), lines))
    requires Blocks(t, Outside(stack)) == Blocks(rest, After(Outside(stack), lines))
    ensures HandleAll(stack, done + Flat(rest)) == Leaves(stack, t)
    decreases rest, 2
  {
    HandleAppend(stack, done, Flat(rest));
    ReadTopMore(stack, lines, []);
    NestLeaves(ReadTop(stack, lines), rest);
    LeavesAfterLines(stack, lines, t, rest);
  }

  lemma {:induction false} RestOnBlock(stack: Stack, done: seq<Event>, under: Stack, block: Block,
                                           lines: seq<Line>, rest: Nest)
    requires Proper(rest) && block.seenOpenBrace && block.openParentheses == 0
    requires HandleAll(stack, done) == under + [Read(block, lines)]
    ensures var within := Some(Sum(lines));
            HandleAll(stack, done + Flat(rest)) ==
            under + Standing([LeftOpen(block, lines + Own(rest, within))] + Blocks(rest, within))
    decreases rest, 2
  {
    HandleAppend(stack, done, Flat(rest));
    NestLeaves(under + [Read(block, lines)], rest);
    LeavesOnBlock(under, block, lines, rest);
  }

  lemma {:induction false} RestOnBrace(stack: Stack, done: seq<Event>, under: Stack, open: Event, rest: Nest)
    requires Proper(rest) && Opens(open) && HandleAll(stack, done) == under + [BraceBlock(open)]
    ensures HandleAll(stack, done + Flat(rest)) ==
            under + Standing([LeftOpen(BraceBlock(open), Own(rest, Some(0)))] + Blocks(rest, Some(0)))
    decreases rest, 3
  {
    ReadNone(BraceBlock(open));
    RestOnBlock(stack, done, under, BraceBlock(open), [], rest);
    assert [] + Own(rest, Some(0)) == Own(rest, Some(0));
  }

  /** Lines whose events make up such a text, cut into lines anywhere. */
  lemma TextLeaves(stack: Stack, lines: seq<Line>, t: Nest)
    requires SeenOpenBrace(stack) && Proper(t) && Events(lines) == Flat(t)
    ensures RunPlain(stack, lines) == Leaves(stack, t)
  {
    HandleLines(stack, lines);
    NestLeaves(stack, t);
  }

  /** ... and of a properly nested stretch only the kept lines need be such. */
  lemma ConditionalTextLeaves(start: State, lines: seq<Line>, t: Nest)
    requires ProperlyNested(lines) && SeenOpenBrace(start.stack) && Proper(t) && Events(Kept(lines)) == Flat(t)
    ensures Run(start, lines) == State(Leaves(start.stack, t), start.pp)
  {
    NestedStretch(start, lines);
    TextLeaves(start.stack, Kept(lines), t);
  }

  /** A whole file, if its kept lines are such a text. */
  lemma FileLeaves(lines: seq<Line>)
    requires ProperlyNested(lines)
    ensures forall t | Proper(t) && Events(Kept(lines)) == Flat(t) ::
              Run(State([], []), lines) == State(Leaves([], t), [])
  {
    forall t | Proper(t) && Events(Kept(lines)) == Flat(t)
      ensures Run(State([], []), lines) == State(Leaves([], t), [])
    {
      ConditionalTextLeaves(State([], []), lines, t);
    }
  }

  /** A closing brace after a text takes off the innermost block, be it one that
      the text has found; with none open it does nothing. */
  lemma ClosingTakesInnermost(stack: Stack, t: Nest, close: Event)
    requires Proper(t) && SeenOpenBrace(stack) && close.TokenAt? && close.token.CloseBrace?
    ensures var s := Leaves(stack, t);
            HandleAll(stack, Flat(t) + [close]) == if s == [] then [] else s[..|s| - 1]
  {
    NestLeaves(stack, t);
    HandleAppend(stack, Flat(t), [close]);
    HandleOne(Leaves(stack, t), close);
  }

  lemma LeavesSeen(stack: Stack, t: Nest)
    requires Proper(t) && SeenOpenBrace(stack)
    ensures SeenOpenBrace(Leaves(stack, t))
  {
    NestLeaves(stack, t);
    NestCounted(stack, t);
  }

  /** A head after a text waits for its brace on top, if it is one; the lines that
      begin meanwhile are its own. */
  lemma HeadStands(stack: Stack, t: Nest, head: Event, breaks: seq<Event>)
    requires Proper(t) && SeenOpenBrace(stack) && IsHead(head) && Breaks(breaks)
    ensures HandleAll(stack, Flat(t) + ([head] + breaks)) == WithHead(Leaves(stack, t), head, LinesOf(breaks))
  {
    NestLeaves(stack, t);
    LeavesSeen(stack, t);
    HandleAppend(stack, Flat(t), [head] + breaks);
    HeadRead(Leaves(stack, t), head, breaks);
  }

  // ---- class heads ---------------------------------------------------------------------------

  lemma {:induction false} BlocksBegin(t: Nest, p: Around)
    requires Proper(t)
    ensures forall b | b in Blocks(t, p) :: b.block.openParentheses == 0
    decreases t
  {
    match t
    case Done =>
    case Neutral(e, rest) => BlocksBegin(rest, After(p, LinesOf([e])));
    case Braced(_, _, _, rest) => BlocksBegin(rest, p);
    case Headed(head, breaks, _, _, _, rest) => BlocksBegin(rest, After(p, OwnBreaks(head, breaks, p)));
    case Declared(head, breaks, _, rest) => BlocksBegin(rest, After(p, OwnBreaks(head, breaks, p)));
    case Open(_, rest) => BlocksBegin(rest, Some(0));
    case OpenHeaded(head, breaks, _, rest) =>
      BlocksBegin(rest, if IsBlockHead(head, p) then Some(Sum(LinesOf(breaks))) else Some(0));
  }

  /** Open parentheses of the innermost block after a text: those of the lines it
      was innermost for, and of the block found if the text leaves none open. */
  function Innermost(t: Nest, p: Around): Around
    requires Proper(t)
  {
    var blocks := Blocks(t, p);
    if blocks == [] then After(p, Own(t, p)) else Some(Sum(blocks[|blocks| - 1].lines))
  }

  lemma OutsideStanding(under: Stack, blocks: seq<LeftOpen>)
    requires forall b | b in blocks :: b.block.openParentheses == 0
    ensures Outside(under + Standing(blocks)) ==
            if blocks == [] then Outside(under) else Some(Sum(blocks[|blocks| - 1].lines))
  {
    if blocks == [] {
      assert under + Standing(blocks) == under;
    } else {
      var last := blocks[|blocks| - 1];
      assert last in blocks && Standing(blocks)[|blocks| - 1] == Read(last.block, last.lines);
    }
  }

  lemma LeavesInnermost(stack: Stack, t: Nest)
    requires Proper(t) && SeenOpenBrace(stack)
    ensures Outside(Leaves(stack, t)) == Innermost(t, Outside(stack))
  {
    var p := Outside(stack);
    ReadTopMore(stack, Own(t, p), []);
    BlocksBegin(t, p);
    OutsideStanding(ReadTop(stack, Own(t, p)), Blocks(t, p));
  }

  lemma InnermostParentheses(stack: Stack, t: Nest)
    requires Proper(t) && SeenOpenBrace(stack)
    ensures Outside(HandleAll(stack, Flat(t))) == Innermost(t, Outside(stack))
  {
    NestLeaves(stack, t);
    LeavesInnermost(stack, t);
  }

  /** A class head after a text puts a block on the stack if and only if the
      parentheses of the innermost block balance, or no block is open. */
  lemma ClassHeadCounts(stack: Stack, t: Nest, name: string, number: nat)
    requires Proper(t) && SeenOpenBrace(stack)
    ensures var s, p := HandleAll(stack, Flat(t)), Innermost(t, Outside(stack));
            HandleAll(stack, Flat(t) + [ClassAt(name, number)]) ==
            if p.None? || p.value == 0 then s + [Block(Class(name), number, false, 0, NoAsm)] else s
  {
    InnermostParentheses(stack, t);
    HandleAppend(stack, Flat(t), [ClassAt(name, number)]);
    HandleOne(HandleAll(stack, Flat(t)), ClassAt(name, number));
  }
}
