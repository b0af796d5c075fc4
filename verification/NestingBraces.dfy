/** What the nesting stack counts: the braces that are still open. */
module NestingBraces {
  import opened Options
  import opened NestingModel

  /** Opening minus closing braces. */
  function Depth(tokens: seq<Token>): int {
    if tokens == [] then 0
    else
      Depth(tokens[..|tokens| - 1]) +
      match tokens[|tokens| - 1] { case OpenBrace(_, _) => 1 case CloseBrace => -1 case _ => 0 }
  }

  /** Reading the tokens at depth d never closes more braces than are open. */
  predicate NeverBelow(d: int, tokens: seq<Token>) {
    d + Depth(tokens) >= 0 && (tokens == [] || NeverBelow(d, tokens[..|tokens| - 1]))
  }

  function Tokens(lines: seq<Line>): seq<Token> {
    if lines == [] then [] else Tokens(lines[..|lines| - 1]) + lines[|lines| - 1].tokens
  }

  /** No namespace or class head on any line: only braces open blocks. */
  predicate OnlyBraces(lines: seq<Line>) {
    forall i | 0 <= i < |lines| :: lines[i].namespaces == [] && lines[i].class_.None?
  }

  /** The blocks from position base on, and the one they stand in, have seen
      their opening brace. */
  predicate OpenFrom(stack: Stack, base: nat) {
    base <= |stack| && forall i | base - 1 <= i < |stack| && 0 <= i :: stack[i].seenOpenBrace
  }

  /** The first n blocks of both are the same, but for parentheses and asm. */
  predicate SameBelow(s: Stack, t: Stack, n: nat) {
    n <= |s| && n <= |t| &&
    forall i | 0 <= i < n ::
      s[i].kind == t[i].kind && s[i].line == t[i].line && s[i].seenOpenBrace == t[i].seenOpenBrace
  }

  /** Tokens touch no block below base, and leave one block per open brace above. */
  lemma {:induction false} ConsumeKeeps(stack: Stack, tokens: seq<Token>, line: nat, base: nat)
    requires OpenFrom(stack, base) && NeverBelow(|stack| - base, tokens)
    ensures var t := Consume(stack, tokens, line);
            |t| == |stack| + Depth(tokens) && OpenFrom(t, base) && t[..base] == stack[..base]
  {
    if tokens == [] {
    } else {
      ConsumeKeeps(stack, tokens[..|tokens| - 1], line, base);
    }
  }

  lemma {:induction false} DepthAppend(d: int, a: seq<Token>, b: seq<Token>)
    ensures Depth(a + b) == Depth(a) + Depth(b)
    ensures NeverBelow(d, a + b) ==> NeverBelow(d, a) && NeverBelow(d + Depth(a), b)
  {
    if b == [] {
      assert a + b == a;
    } else {
      assert (a + b)[..|a + b| - 1] == a + b[..|b| - 1];
      DepthAppend(d, a, b[..|b| - 1]);
    }
  }

  lemma BodyKeeps(stack: Stack, line: Line, base: nat)
    requires OpenFrom(stack, base) && line.namespaces == [] && line.class_.None?
    requires NeverBelow(|stack| - base, line.tokens)
    ensures var t := Body(stack, line);
            |t| == |stack| + Depth(line.tokens) && OpenFrom(t, base) && SameBelow(stack, t, base)
  {
    var s := CountParens(stack, line);
    assert |s| == |stack| && SameBelow(stack, s, |stack|);
    ConsumeKeeps(s, line.tokens, line.number, base);
  }

  /** t holds the blocks of s and on top of them d more, all seen open. */
  predicate Counted(s: Stack, t: Stack, d: int) {
    |t| == |s| + d && OpenFrom(t, |s|) && SameBelow(s, t, |s|)
  }

  lemma LineCounted(stack: Stack, s: Stack, line: Line, d: int)
    requires Counted(stack, s, d) && line.namespaces == [] && line.class_.None? && NeverBelow(d, line.tokens)
    ensures Counted(stack, Body(s, line), d + Depth(line.tokens))
  {
    BodyKeeps(s, line, |stack|);
  }

  /** Plain text leaves the blocks it finds open, and on top of them one for
      every brace it opens and does not close. */
  lemma {:induction false} BracesCounted(stack: Stack, lines: seq<Line>)
    requires SeenOpenBrace(stack) && OnlyBraces(lines) && NeverBelow(0, Tokens(lines))
    ensures Counted(stack, RunPlain(stack, lines), Depth(Tokens(lines)))
  {
    if lines == [] {
    } else {
      var front, line := lines[..|lines| - 1], lines[|lines| - 1];
      DepthAppend(0, Tokens(front), line.tokens);
      BracesCounted(stack, front);
      LineCounted(stack, RunPlain(stack, front), line, Depth(Tokens(front)));
    }
  }

  /** Of a properly nested stretch of a file only the braces outside the #else
      branches count. */
  lemma ConditionalBracesCounted(start: State, lines: seq<Line>)
    requires ProperlyNested(lines) && SeenOpenBrace(start.stack)
    requires OnlyBraces(Kept(lines)) && NeverBelow(0, Tokens(Kept(lines)))
    ensures var end := Run(start, lines);
            end.pp == start.pp && Counted(start.stack, end.stack, Depth(Tokens(Kept(lines))))
  {
    NestedStretch(start, lines);
    BracesCounted(start.stack, Kept(lines));
  }

  /** A class or namespace head is closed by the brace that closes its body, and
      taken back by a semicolon or parenthesis before any brace. */
  lemma HeadClosed(stack: Stack, head: Block, brace: Token, body: seq<Token>, line: nat)
    requires SeenOpenBrace(stack) && !head.seenOpenBrace && brace.OpenBrace?
    requires NeverBelow(0, body) && Depth(body) == 0
    ensures Consume(stack + [head], [brace] + body + [CloseBrace], line) == stack
    ensures Consume(stack + [head], [Semicolon], line) == stack
    ensures Consume(stack + [head], [CloseParen], line) == stack
  {
    var entered := ConsumeToken(stack + [head], brace, line);
    assert entered == stack + [head.(seenOpenBrace := true)];
    ConsumeAppend(stack + [head], [brace], body, line);
    assert Consume(stack + [head], [brace], line) == entered by {
      assert [brace][..0] == [];
    }
    BodyLeaves(entered, body, line);
    var all := [brace] + body + [CloseBrace];
    assert all[..|all| - 1] == [brace] + body;
    assert entered[..|entered| - 1] == stack;
    assert [Semicolon][..0] == [] && [CloseParen][..0] == [];
    assert (stack + [head])[..|stack|] == stack;
  }

  lemma {:induction false} ConsumeAppend(stack: Stack, a: seq<Token>, b: seq<Token>, line: nat)
    ensures Consume(stack, a + b, line) == Consume(Consume(stack, a, line), b, line)
  {
    if b == [] {
      assert a + b == a;
    } else {
      assert (a + b)[..|a + b| - 1] == a + b[..|b| - 1];
      ConsumeAppend(stack, a, b[..|b| - 1], line);
    }
  }

  /** Balanced braces leave the stack exactly as it was. */
  lemma BodyLeaves(stack: Stack, body: seq<Token>, line: nat)
    requires stack != [] && SeenOpenBrace(stack) && NeverBelow(0, body) && Depth(body) == 0
    ensures Consume(stack, body, line) == stack
  {
    ConsumeKeeps(stack, body, line, |stack|);
  }

  // ---- lines with heads ------------------------------------------------------------------

  /** What a line does to the stack, piece by piece. */
  datatype Event =
    | Parens(on: Line)
    | NamespaceAt(space: NamespaceHead, number: nat)
    | ClassAt(name: string, number: nat)
    | TokenAt(token: Token, number: nat)

  function Handle(stack: Stack, e: Event): Stack {
    match e
    case Parens(on) => CountParens(stack, on)
    case NamespaceAt(space, number) => stack + [NewBlock(Namespace(space.name), number, space.opens)]
    case ClassAt(name, number) => PushClass(stack, Some(name), number)
    case TokenAt(token, number) => ConsumeToken(stack, token, number)
  }

  function HandleAll(stack: Stack, es: seq<Event>): Stack {
    if es == [] then stack else Handle(HandleAll(stack, es[..|es| - 1]), es[|es| - 1])
  }

  function SpaceEvents(heads: seq<NamespaceHead>, number: nat): (r: seq<Event>)
    ensures |r| == |heads| && forall i | 0 <= i < |r| :: r[i] == NamespaceAt(heads[i], number)
  {
    seq(|heads|, i requires 0 <= i < |heads| => NamespaceAt(heads[i], number))
  }

  function TokenEvents(tokens: seq<Token>, number: nat): (r: seq<Event>)
    ensures |r| == |tokens| && forall i | 0 <= i < |r| :: r[i] == TokenAt(tokens[i], number)
  {
    seq(|tokens|, i requires 0 <= i < |tokens| => TokenAt(tokens[i], number))
  }

  function LineEvents(line: Line): seq<Event> {
    [Parens(line)] + SpaceEvents(line.namespaces, line.number) +
    (match line.class_ { case Some(name) => [ClassAt(name, line.number)] case None => [] }) +
    TokenEvents(line.tokens, line.number)
  }

  function Events(lines: seq<Line>): seq<Event> {
    if lines == [] then [] else Events(lines[..|lines| - 1]) + LineEvents(lines[|lines| - 1])
  }

  lemma {:induction false} HandleAppend(stack: Stack, a: seq<Event>, b: seq<Event>)
    ensures HandleAll(stack, a + b) == HandleAll(HandleAll(stack, a), b)
  {
    if b == [] {
      assert a + b == a;
    } else {
      assert (a + b)[..|a + b| - 1] == a + b[..|b| - 1];
      HandleAppend(stack, a, b[..|b| - 1]);
    }
  }

  lemma HandleOne(stack: Stack, e: Event)
    ensures HandleAll(stack, [e]) == Handle(stack, e)
  {
    assert [e][..0] == [];
  }

  lemma {:induction false} HandleSpaces(stack: Stack, heads: seq<NamespaceHead>, number: nat)
    ensures HandleAll(stack, SpaceEvents(heads, number)) == PushNamespaces(stack, heads, number)
  {
    if heads == [] {
    } else {
      HandleSpaces(stack, heads[..|heads| - 1], number);
      assert SpaceEvents(heads, number)[..|heads| - 1] == SpaceEvents(heads[..|heads| - 1], number);
    }
  }

  lemma {:induction false} HandleTokens(stack: Stack, tokens: seq<Token>, number: nat)
    ensures HandleAll(stack, TokenEvents(tokens, number)) == Consume(stack, tokens, number)
  {
    if tokens == [] {
    } else {
      HandleTokens(stack, tokens[..|tokens| - 1], number);
      assert TokenEvents(tokens, number)[..|tokens| - 1] == TokenEvents(tokens[..|tokens| - 1], number);
    }
  }

  lemma HandleLine(stack: Stack, line: Line)
    ensures HandleAll(stack, LineEvents(line)) == Body(stack, line)
  {
    var spaces, tokens := SpaceEvents(line.namespaces, line.number), TokenEvents(line.tokens, line.number);
    var heads := match line.class_ { case Some(name) => [ClassAt(name, line.number)] case None => [] };
    HandleOne(stack, Parens(line));
    HandleAppend(stack, [Parens(line)], spaces);
    HandleSpaces(CountParens(stack, line), line.namespaces, line.number);
    HandleAppend(stack, [Parens(line)] + spaces, heads);
    if line.class_.Some? {
      HandleOne(PushNamespaces(CountParens(stack, line), line.namespaces, line.number), heads[0]);
    }
    HandleAppend(stack, [Parens(line)] + spaces + heads, tokens);
    HandleTokens(HandleAll(stack, [Parens(line)] + spaces + heads), line.tokens, line.number);
  }

  lemma {:induction false} HandleLines(stack: Stack, lines: seq<Line>)
    ensures HandleAll(stack, Events(lines)) == RunPlain(stack, lines)
  {
    if lines == [] {
    } else {
      var front, line := lines[..|lines| - 1], lines[|lines| - 1];
      HandleLines(stack, front);
      HandleAppend(stack, Events(front), LineEvents(line));
      HandleLine(RunPlain(stack, front), line);
    }
  }

  // ---- texts as trees ----------------------------------------------------------------------

  /** A text whose braces nest: neutral events, blocks in braces, blocks behind a
      head, declarations (a head that a semicolon or parenthesis takes back), and
      braces that stay open.  Between a head and its brace only lines may end. */
  datatype Nest =
    | Done
    | Neutral(e: Event, rest: Nest)
    | Braced(open: Event, inner: Nest, close: Event, rest: Nest)
    | Headed(head: Event, breaks: seq<Event>, open: Event, inner: Nest, close: Event, rest: Nest)
    | Declared(head: Event, breaks: seq<Event>, end: Event, rest: Nest)
    | Open(open: Event, rest: Nest)
    | OpenHeaded(head: Event, breaks: seq<Event>, open: Event, rest: Nest)

  function Flat(t: Nest): seq<Event> {
    match t
    case Done => []
    case Neutral(e, rest) => [e] + Flat(rest)
    case Braced(open, inner, close, rest) => [open] + Flat(inner) + [close] + Flat(rest)
    case Headed(head, breaks, open, inner, close, rest) =>
      [head] + breaks + [open] + Flat(inner) + [close] + Flat(rest)
    case Declared(head, breaks, end, rest) => [head] + breaks + [end] + Flat(rest)
    case Open(open, rest) => [open] + Flat(rest)
    case OpenHeaded(head, breaks, open, rest) => [head] + breaks + [open] + Flat(rest)
  }

  predicate IsBrace(e: Event) {
    e.TokenAt? && e.token.OpenBrace?
  }

  /** A brace, or a namespace head with its brace. */
  predicate Opens(e: Event) {
    IsBrace(e) || (e.NamespaceAt? && e.space.opens)
  }

  predicate IsHead(e: Event) {
    e.ClassAt? || (e.NamespaceAt? && !e.space.opens)
  }

  predicate Ends(e: Event) {
    e.TokenAt? && (e.token.Semicolon? || e.token.CloseParen?)
  }

  predicate Breaks(es: seq<Event>) {
    forall i | 0 <= i < |es| :: es[i].Parens?
  }

  predicate Proper(t: Nest) {
    match t
    case Done => true
    case Neutral(e, rest) => (e.Parens? || Ends(e)) && Proper(rest)
    case Braced(open, inner, close, rest) =>
      Opens(open) && Proper(inner) && Left(inner) == 0 && close.TokenAt? && close.token.CloseBrace? && Proper(rest)
    case Headed(head, breaks, open, inner, close, rest) =>
      IsHead(head) && Breaks(breaks) && IsBrace(open) && Proper(inner) && Left(inner) == 0 &&
      close.TokenAt? && close.token.CloseBrace? && Proper(rest)
    case Declared(head, breaks, end, rest) => IsHead(head) && Breaks(breaks) && Ends(end) && Proper(rest)
    case Open(open, rest) => Opens(open) && Proper(rest)
    case OpenHeaded(head, breaks, open, rest) => IsHead(head) && Breaks(breaks) && IsBrace(open) && Proper(rest)
  }

  /** Blocks the text leaves open. */
  function Left(t: Nest): nat {
    match t
    case Done => 0
    case Neutral(_, rest) => Left(rest)
    case Braced(_, _, _, rest) => Left(rest)
    case Headed(_, _, _, _, _, rest) => Left(rest)
    case Declared(_, _, _, rest) => Left(rest)
    case Open(_, rest) => 1 + Left(rest)
    case OpenHeaded(_, _, _, rest) => 1 + Left(rest)
  }

  lemma CountedThen(s: Stack, t: Stack, u: Stack, d: nat, e: nat)
    requires Counted(s, t, d) && Counted(t, u, e)
    ensures Counted(s, u, d + e)
  {
  }

  lemma CountedSeen(s: Stack, t: Stack, d: nat)
    requires Counted(s, t, d)
    ensures SeenOpenBrace(t)
  {
  }

  lemma NeutralEvent(stack: Stack, e: Event)
    requires SeenOpenBrace(stack) && (e.Parens? || Ends(e))
    ensures Counted(stack, Handle(stack, e), 0)
  {
  }

  lemma OpeningEvent(stack: Stack, e: Event)
    requires SeenOpenBrace(stack) && Opens(e)
    ensures Counted(stack, Handle(stack, e), 1)
  {
  }

  lemma ClosingEvent(stack: Stack, t: Stack, e: Event)
    requires Counted(stack, t, 1) && e.TokenAt? && e.token.CloseBrace?
    ensures Counted(stack, Handle(t, e), 0)
  {
  }

  /** A head waits for its brace on top of the stack; a class head met within
      parentheses has not been pushed at all. */
  predicate Waiting(stack: Stack, t: Stack) {
    Counted(stack, t, 0) ||
    (|t| == |stack| + 1 && SeenOpenBrace(stack) && SameBelow(stack, t, |stack|) && !t[|stack|].seenOpenBrace)
  }

  lemma HeadWaits(stack: Stack, head: Event)
    requires SeenOpenBrace(stack) && IsHead(head)
    ensures Waiting(stack, Handle(stack, head))
  {
  }

  lemma ParensWait(stack: Stack, t: Stack, e: Event)
    requires Waiting(stack, t) && e.Parens?
    ensures Waiting(stack, Handle(t, e))
  {
    if Counted(stack, t, 0) {
      CountedSeen(stack, t, 0);
      NeutralEvent(t, e);
      CountedThen(stack, t, Handle(t, e), 0, 0);
    }
  }

  lemma {:induction false} BreaksWait(stack: Stack, t: Stack, breaks: seq<Event>)
    requires Waiting(stack, t) && Breaks(breaks)
    ensures Waiting(stack, HandleAll(t, breaks))
  {
    if breaks == [] {
    } else {
      BreaksWait(stack, t, breaks[..|breaks| - 1]);
      ParensWait(stack, HandleAll(t, breaks[..|breaks| - 1]), breaks[|breaks| - 1]);
    }
  }

  lemma BraceArrives(stack: Stack, t: Stack, e: Event)
    requires Waiting(stack, t) && IsBrace(e)
    ensures Counted(stack, Handle(t, e), 1)
  {
    if Counted(stack, t, 0) {
      CountedSeen(stack, t, 0);
      OpeningEvent(t, e);
      CountedThen(stack, t, Handle(t, e), 0, 1);
    }
  }

  lemma EndArrives(stack: Stack, t: Stack, e: Event)
    requires Waiting(stack, t) && Ends(e)
    ensures Counted(stack, Handle(t, e), 0)
  {
    if Counted(stack, t, 0) {
      CountedSeen(stack, t, 0);
      NeutralEvent(t, e);
      CountedThen(stack, t, Handle(t, e), 0, 0);
    }
  }

  lemma HeadThen(stack: Stack, head: Event, breaks: seq<Event>, e: Event)
    requires SeenOpenBrace(stack) && IsHead(head) && Breaks(breaks) && (IsBrace(e) || Ends(e))
    ensures Counted(stack, HandleAll(stack, [head] + breaks + [e]), if IsBrace(e) then 1 else 0)
  {
    HandleOne(stack, head);
    HeadWaits(stack, head);
    BreaksWait(stack, Handle(stack, head), breaks);
    HandleAppend(stack, [head], breaks);
    HandleAppend(stack, [head] + breaks, [e]);
    var t := HandleAll(stack, [head] + breaks);
    HandleOne(t, e);
    if IsBrace(e) {
      BraceArrives(stack, t, e);
    } else {
      EndArrives(stack, t, e);
    }
  }

  lemma EventsThen(stack: Stack, a: seq<Event>, b: seq<Event>, d: nat, e: nat)
    requires Counted(stack, HandleAll(stack, a), d)
    requires Counted(HandleAll(stack, a), HandleAll(HandleAll(stack, a), b), e)
    ensures Counted(stack, HandleAll(stack, a + b), d + e)
  {
    HandleAppend(stack, a, b);
    CountedThen(stack, HandleAll(stack, a), HandleAll(stack, a + b), d, e);
  }

  lemma ClosedThen(stack: Stack, a: seq<Event>, close: Event)
    requires Counted(stack, HandleAll(stack, a), 1) && close.TokenAt? && close.token.CloseBrace?
    ensures Counted(stack, HandleAll(stack, a + [close]), 0)
  {
    HandleAppend(stack, a, [close]);
    HandleOne(HandleAll(stack, a), close);
    ClosingEvent(stack, HandleAll(stack, a), close);
  }

  /** Opening events, balanced text, and the closing brace. */
  lemma BlockCounted(stack: Stack, opening: seq<Event>, inner: Nest, close: Event)
    requires Counted(stack, HandleAll(stack, opening), 1) && close.TokenAt? && close.token.CloseBrace?
    requires Counted(HandleAll(stack, opening), HandleAll(HandleAll(stack, opening), Flat(inner)), 0)
    ensures Counted(stack, HandleAll(stack, opening + Flat(inner) + [close]), 0)
  {
    EventsThen(stack, opening, Flat(inner), 1, 0);
    ClosedThen(stack, opening + Flat(inner), close);
  }

  /** A text gives back the blocks it found, with one more on top for each brace
      it leaves open, wherever its lines end and whatever heads it holds. */
  lemma {:induction false} NestCounted(stack: Stack, t: Nest)
    requires Proper(t) && SeenOpenBrace(stack)
    ensures Counted(stack, HandleAll(stack, Flat(t)), Left(t))
    decreases t, 0
  {
    match t
    case Done =>
    case Neutral(e, rest) =>
      HandleOne(stack, e);
      NeutralEvent(stack, e);
      RestCounted(stack, [e], 0, rest);
    case Braced(open, inner, close, rest) =>
      HandleOne(stack, open);
      OpeningEvent(stack, open);
      CountedSeen(stack, Handle(stack, open), 1);
      NestCounted(Handle(stack, open), inner);
      BlockCounted(stack, [open], inner, close);
      RestCounted(stack, [open] + Flat(inner) + [close], 0, rest);
    case Headed(head, breaks, open, inner, close, rest) =>
      var opening := [head] + breaks + [open];
      HeadThen(stack, head, breaks, open);
      CountedSeen(stack, HandleAll(stack, opening), 1);
      NestCounted(HandleAll(stack, opening), inner);
      BlockCounted(stack, opening, inner, close);
      RestCounted(stack, opening + Flat(inner) + [close], 0, rest);
    case Declared(head, breaks, end, rest) =>
      HeadThen(stack, head, breaks, end);
      RestCounted(stack, [head] + breaks + [end], 0, rest);
    case Open(open, rest) =>
      HandleOne(stack, open);
      OpeningEvent(stack, open);
      RestCounted(stack, [open], 1, rest);
    case OpenHeaded(head, breaks, open, rest) =>
      HeadThen(stack, head, breaks, open);
      RestCounted(stack, [head] + breaks + [open], 1, rest);
  }

  lemma {:induction false} RestCounted(stack: Stack, done: seq<Event>, d: nat, rest: Nest)
    requires Proper(rest) && Counted(stack, HandleAll(stack, done), d)
    ensures Counted(stack, HandleAll(stack, done + Flat(rest)), d + Left(rest))
    decreases rest, 1
  {
    CountedSeen(stack, HandleAll(stack, done), d);
    NestCounted(HandleAll(stack, done), rest);
    EventsThen(stack, done, Flat(rest), d, Left(rest));
  }

  /** Lines whose events make up such a text, cut into lines anywhere. */
  lemma BlocksGivenBack(stack: Stack, lines: seq<Line>, t: Nest)
    requires SeenOpenBrace(stack) && Proper(t) && Events(lines) == Flat(t)
    ensures Counted(stack, RunPlain(stack, lines), Left(t))
  {
    HandleLines(stack, lines);
    NestCounted(stack, t);
  }

  /** ... and of a properly nested stretch only the kept lines need be such. */
  lemma ConditionalBlocksGivenBack(start: State, lines: seq<Line>, t: Nest)
    requires ProperlyNested(lines) && SeenOpenBrace(start.stack) && Proper(t) && Events(Kept(lines)) == Flat(t)
    ensures var end := Run(start, lines);
            end.pp == start.pp && Counted(start.stack, end.stack, Left(t))
  {
    NestedStretch(start, lines);
    BlocksGivenBack(start.stack, Kept(lines), t);
  }
}
