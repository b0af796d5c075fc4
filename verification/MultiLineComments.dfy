/** Blanking out comments that run over several lines. */
module MultiLineComments {
  import opened Options
  import C = CloseExpression

  const DUMMY := "/**/"

  function TrimLeft(s: string): string {
    if s != [] && C.IsSpace(s[0]) then TrimLeft(s[1..]) else s
  }

  function Strip(s: string): string {
    TrimLeft(C.TrimRight(s))
  }

  /** Two characters stand at or after position `from`. */
  predicate Occurs(a: char, b: char, s: string, from: nat) {
    exists i :: from <= i < |s| - 1 && s[i] == a && s[i + 1] == b
  }

  /** A comment starts the line and does not end on it. */
  predicate IsStart(line: string) {
    var t := Strip(line);
    |t| >= 2 && t[0] == '/' && t[1] == '*' && !Occurs('*', '/', t, 2)
  }

  predicate IsEnd(line: string) {
    var t := Strip(line);
    |t| >= 2 && t[|t| - 2] == '*' && t[|t| - 1] == '/'
  }

  // ---- the two tests by the characters of the line ---------------------------------------

  lemma {:induction false} TrimLeftCuts(s: string) returns (k: nat)
    ensures k <= |s| && TrimLeft(s) == s[k..] && C.Blanks(s, 0, k) && (k < |s| ==> !C.IsSpace(s[k]))
  {
    if s == [] || !C.IsSpace(s[0]) {
      k := 0;
    } else {
      k := TrimLeftCuts(s[1..]);
      k := k + 1;
    }
  }

  /** What is left of a line: from its first to its last character that is not
      blank. */
  lemma StripCuts(s: string) returns (a: nat, b: nat)
    ensures a <= b <= |s| && Strip(s) == s[a..b] && C.Blanks(s, 0, a) && C.Blanks(s, b, |s|)
    ensures a < b ==> !C.IsSpace(s[a]) && !C.IsSpace(s[b - 1])
  {
    b := C.TrimRightCuts(s);
    a := TrimLeftCuts(s[..b]);
    assert s[..b][a..] == s[a..b];
  }

  /** A comment opens at i, with only blanks before it, and does not end. */
  predicate OpensAt(line: string, i: nat) {
    && i + 2 <= |line| && C.Blanks(line, 0, i) && line[i] == '/' && line[i + 1] == '*'
    && forall k | i + 2 <= k < |line| - 1 :: !(line[k] == '*' && line[k + 1] == '/')
  }

  /** A comment ends at j + 2, with only blanks after it. */
  predicate EndsAt(line: string, j: nat) {
    j + 2 <= |line| && line[j] == '*' && line[j + 1] == '/' && C.Blanks(line, j + 2, |line|)
  }

  /** A line starts a comment if and only if one opens after its leading blanks
      and does not end on the line. */
  lemma StartByCharacters(line: string)
    ensures IsStart(line) <==> exists i: nat :: OpensAt(line, i)
  {
    var a, b := StripCuts(line);
    assert forall k | 0 <= k < b - a :: line[a..b][k] == line[a + k];
    if IsStart(line) {
      assert OpensAt(line, a) by {
        forall k | a + 2 <= k < |line| - 1
          ensures !(line[k] == '*' && line[k + 1] == '/')
        {
          if k + 1 < b {
            assert line[a..b][k - a] == line[k] && line[a..b][k + 1 - a] == line[k + 1];
          }
        }
      }
    }
    if i: nat :| OpensAt(line, i) {
      assert !C.IsSpace(line[i]) && !C.IsSpace(line[i + 1]);
      assert a == i && b >= i + 2;
      assert line[a..b][0] == '/' && line[a..b][1] == '*';
    }
  }

  lemma EndByCharacters(line: string)
    ensures IsEnd(line) <==> exists j: nat :: EndsAt(line, j)
  {
    var a, b := StripCuts(line);
    assert forall k | 0 <= k < b - a :: line[a..b][k] == line[a + k];
    if IsEnd(line) {
      assert EndsAt(line, b - 2);
    }
    if j: nat :| EndsAt(line, j) {
      assert !C.IsSpace(line[j]) && !C.IsSpace(line[j + 1]);
      assert b == j + 2 && a <= j;
      assert line[a..b][j - a] == '*' && line[a..b][j + 1 - a] == '/';
    }
  }

  type Test = string -> bool

  // ---- which lines are part of a comment -----------------------------------------------

  /** Line i belongs to a comment that started on it or before it. */
  predicate Covered(lines: seq<string>, i: nat, start: Test, end: Test)
    requires i < |lines|
  {
    start(lines[i]) || (i > 0 && Covered(lines, i - 1, start, end) && !end(lines[i - 1]))
  }

  /** No comment goes on into line i. */
  predicate Outside(lines: seq<string>, i: nat, start: Test, end: Test)
    requires i <= |lines|
  {
    i == 0 || !Covered(lines, i - 1, start, end) || end(lines[i - 1])
  }

  ghost predicate Ends(lines: seq<string>, i: nat, end: Test) {
    exists e :: i <= e < |lines| && end(lines[e])
  }

  /** A line of a comment that ends is blanked out. */
  ghost function CleanedLine(lines: seq<string>, i: nat, start: Test, end: Test): string
    requires i < |lines|
  {
    if Covered(lines, i, start, end) && Ends(lines, i, end) then DUMMY else lines[i]
  }

  ghost function Cleaned(lines: seq<string>, start: Test, end: Test): (r: seq<string>)
    ensures |r| == |lines| && forall i: nat | i < |lines| :: r[i] == CleanedLine(lines, i, start, end)
  {
    seq(|lines|, i requires 0 <= i < |lines| => CleanedLine(lines, i, start, end))
  }

  /** A comment starts on line b, outside any other, and never ends. */
  ghost predicate NeverEnds(lines: seq<string>, b: nat, start: Test, end: Test) {
    b < |lines| && start(lines[b]) && Outside(lines, b, start, end) && !Ends(lines, b, end)
  }

  // ---- the methods -----------------------------------------------------------------------

  /** FindNextMultiLineCommentStart and ...End, which differ in the test. */
  method FindNext(lines: array<string>, lineix0: nat, test: Test) returns (lineix: nat)
    requires lineix0 <= lines.Length
    ensures lineix0 <= lineix <= lines.Length && (lineix < lines.Length ==> test(lines[lineix]))
    ensures forall i | lineix0 <= i < lineix :: !test(lines[i])
  {
    lineix := lineix0;
    while lineix < lines.Length
      invariant lineix0 <= lineix <= lines.Length
      invariant forall i | lineix0 <= i < lineix :: !test(lines[i])
    {
      if test(lines[lineix]) {
        return;
      }
      lineix := lineix + 1;
    }
  }

  method RemoveMultiLineCommentsFromRange(lines: array<string>, begin: nat, end: nat)
    requires begin <= end <= lines.Length
    modifies lines
    ensures forall i | 0 <= i < lines.Length :: lines[i] == if begin <= i < end then DUMMY else old(lines[i])
  {
    for i := begin to end
      invariant forall k | 0 <= k < lines.Length :: lines[k] == if begin <= k < i then DUMMY else old(lines[k])
    {
      lines[i] := DUMMY;
    }
  }

  /** RemoveMultiLineComments, for any two tests of lines. */
  method RemoveMarked(lines: array<string>, start: Test, end: Test) returns (error: Option<nat>)
    modifies lines
    ensures lines[..] == Cleaned(old(lines[..]), start, end)
    ensures error.None? <==> Outside(old(lines[..]), lines.Length, start, end)
    ensures error.Some? ==> error.value > 0 && NeverEnds(old(lines[..]), error.value - 1, start, end)
  {
    ghost var text := lines[..];
    var lineix := 0;
    while lineix < lines.Length
      invariant lineix <= lines.Length && Outside(text, lineix, start, end)
      invariant forall i | 0 <= i < lineix :: lines[i] == CleanedLine(text, i, start, end)
      invariant forall i | lineix <= i < lines.Length :: lines[i] == text[i]
    {
      var b := FindNext(lines, lineix, start);
      NothingCovered(text, lineix, b, start, end);
      if b >= lines.Length {
        return None;
      }
      var e := FindNext(lines, b, end);
      AllCovered(text, b, e, start, end);
      if e >= lines.Length {
        return Some(b + 1);
      }
      RemoveMultiLineCommentsFromRange(lines, b, e + 1);
      lineix := e + 1;
    }
    return None;
  }

  /** Up to the next start no line is part of a comment. */
  lemma {:induction false} NothingCovered(lines: seq<string>, from: nat, b: nat, start: Test, end: Test)
    requires from <= b <= |lines| && Outside(lines, from, start, end)
    requires forall i | from <= i < b :: !start(lines[i])
    ensures forall i | from <= i < b :: !Covered(lines, i, start, end)
    ensures Outside(lines, b, start, end)
  {
    if from == b {
    } else {
      NothingCovered(lines, from, b - 1, start, end);
    }
  }

  /** From the start up to and including the end, every line is. */
  lemma {:induction false} AllCovered(lines: seq<string>, b: nat, e: nat, start: Test, end: Test)
    requires b <= e <= |lines| && b < |lines| && start(lines[b])
    requires forall i | b <= i < e :: !end(lines[i])
    ensures forall i | b <= i <= e && i < |lines| :: Covered(lines, i, start, end)
  {
    if b == e {
    } else {
      AllCovered(lines, b, e - 1, start, end);
    }
  }

  method RemoveMultiLineComments(lines: array<string>) returns (error: Option<nat>)
    modifies lines
    ensures lines[..] == Cleaned(old(lines[..]), IsStart, IsEnd)
    ensures error.None? <==> Outside(old(lines[..]), lines.Length, IsStart, IsEnd)
    ensures error.Some? ==> error.value > 0 && NeverEnds(old(lines[..]), error.value - 1, IsStart, IsEnd)
  {
    error := RemoveMarked(lines, IsStart, IsEnd);
  }

  // ---- what is left ---------------------------------------------------------------------------

  lemma DummyIsNoStart()
    ensures !IsStart(DUMMY)
  {
    assert C.TrimRight(DUMMY) == DUMMY && TrimLeft(DUMMY) == DUMMY;
    assert DUMMY[2] == '*' && DUMMY[3] == '/';
  }

  /** A comment that never ends starts on at most one line, and there is one
      exactly if the text stops inside a comment. */
  lemma NeverEndsUnique(lines: seq<string>, b: nat, c: nat, start: Test, end: Test)
    requires NeverEnds(lines, b, start, end) && NeverEnds(lines, c, start, end)
    ensures b == c
    ensures !Outside(lines, |lines|, start, end)
  {
    assert forall i | b <= i < |lines| :: !end(lines[i]);
    assert forall i | c <= i < |lines| :: !end(lines[i]);
    AllCovered(lines, b, |lines|, start, end);
    AllCovered(lines, c, |lines|, start, end);
  }

  /** Only lines of a comment that never ends are still part of a comment. */
  lemma {:induction false} CoveredInCleaned(lines: seq<string>, i: nat, start: Test, end: Test)
    requires i < |lines| && !start(DUMMY)
    ensures Covered(Cleaned(lines, start, end), i, start, end) <==>
            Covered(lines, i, start, end) && !Ends(lines, i, end)
  {
    assert Cleaned(lines, start, end)[i] == CleanedLine(lines, i, start, end);
    if i == 0 {
    } else {
      assert Cleaned(lines, start, end)[i - 1] == CleanedLine(lines, i - 1, start, end);
      CoveredInCleaned(lines, i - 1, start, end);
      assert Ends(lines, i - 1, end) <==> end(lines[i - 1]) || Ends(lines, i, end);
    }
  }

  /** Where nothing ends, nothing is changed. */
  lemma NoEndLeft(lines: seq<string>, i: nat, start: Test, end: Test)
    requires i < |lines| && !Ends(lines, i, end)
    ensures !Ends(Cleaned(lines, start, end), i, end)
  {
    forall e | i <= e < |lines|
      ensures !end(Cleaned(lines, start, end)[e])
    {
      assert Cleaned(lines, start, end)[e] == CleanedLine(lines, e, start, end);
    }
  }

  lemma CleanedTwice(lines: seq<string>, start: Test, end: Test)
    requires !start(DUMMY)
    ensures Cleaned(Cleaned(lines, start, end), start, end) == Cleaned(lines, start, end)
  {
    var cleaned := Cleaned(lines, start, end);
    forall i: nat | i < |lines|
      ensures CleanedLine(cleaned, i, start, end) == cleaned[i]
    {
      CoveredInCleaned(lines, i, start, end);
      if !Ends(lines, i, end) { NoEndLeft(lines, i, start, end); }
    }
  }

  /** The comment that never ends is the same before and after. */
  lemma NeverEndsStays(lines: seq<string>, b: nat, start: Test, end: Test)
    requires !start(DUMMY)
    ensures NeverEnds(Cleaned(lines, start, end), b, start, end) <==> NeverEnds(lines, b, start, end)
  {
    var cleaned := Cleaned(lines, start, end);
    if b < |lines| {
      assert cleaned[b] == CleanedLine(lines, b, start, end);
      CoveredInCleaned(lines, b, start, end);
      if Covered(cleaned, b, start, end) {
        EndsInCleaned(lines, b, start, end);
      }
      if b > 0 {
        assert cleaned[b - 1] == CleanedLine(lines, b - 1, start, end);
        CoveredInCleaned(lines, b - 1, start, end);
      }
    }
  }

  lemma EndsInCleaned(lines: seq<string>, i: nat, start: Test, end: Test)
    requires i < |lines| && !start(DUMMY) && Covered(Cleaned(lines, start, end), i, start, end)
    ensures !Ends(lines, i, end) && !Ends(Cleaned(lines, start, end), i, end)
  {
    CoveredInCleaned(lines, i, start, end);
    NoEndLeft(lines, i, start, end);
  }

  /** Removing comments twice is removing them once, also from a file that stops
      inside a comment: that fails again, on the same line. */
  lemma CleaningIsIdempotent(lines: seq<string>, b: nat)
    ensures Cleaned(Cleaned(lines, IsStart, IsEnd), IsStart, IsEnd) == Cleaned(lines, IsStart, IsEnd)
    ensures NeverEnds(Cleaned(lines, IsStart, IsEnd), b, IsStart, IsEnd) <==> NeverEnds(lines, b, IsStart, IsEnd)
  {
    DummyIsNoStart();
    CleanedTwice(lines, IsStart, IsEnd);
    NeverEndsStays(lines, b, IsStart, IsEnd);
  }
}
