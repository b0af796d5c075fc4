/** What the characters of a text do to a scan that starts from an angle bracket,
    and which of them ends it. */
module AngleActs {
  import opened Options
  import opened Brackets
  import opened CloseExpression

  /** A bracket that points away from the start of the scan, one that faces it,
      an angle bracket that may open a template argument list, one that may close
      one (`ends`) or shows that there was none, and a semicolon. */
  datatype Act = Opens(c: char) | Closes(mate: char) | Angle | Unangle(ends: bool) | Semicolon | Idle

  // ---- by the acts alone ---------------------------------------------------------------

  /** The brackets pending before act k; none if one has been closed wrongly. */
  function Pending(acts: seq<Act>, k: nat): (r: Option<seq<nat>>)
    requires k <= |acts|
    ensures r.Some? ==> forall i | 0 <= i < |r.value| :: r.value[i] < k && acts[r.value[i]].Opens?
    ensures r.Some? ==> forall i, j | 0 <= i < j < |r.value| :: r.value[i] < r.value[j]
  {
    if k == 0 then Some([])
    else
      match Pending(acts, k - 1)
      case None => None
      case Some(ps) =>
        match acts[k - 1]
        case Opens(_) => Some(ps + [k - 1])
        case Closes(mate) => if ps == [] || acts[ps[|ps| - 1]].c != mate then None else Some(ps[..|ps| - 1])
        case _ => Some(ps)
  }

  /** The innermost of them, or -1 for the angle bracket the scan started from. */
  function Innermost(ps: seq<nat>): int {
    if ps == [] then -1 else ps[|ps| - 1]
  }

  /** How many angle brackets stand open directly within bracket `key` before act
      k.  What stands within other brackets does not count. */
  function Count(acts: seq<Act>, key: int, k: nat): nat
    requires -1 <= key && k <= |acts|
  {
    if k <= key + 1 then if key == -1 then 1 else 0
    else
      var n := Count(acts, key, k - 1);
      if Pending(acts, k - 1).None? || Innermost(Pending(acts, k - 1).value) != key then n
      else
        match acts[k - 1]
        case Angle => n + 1
        case Unangle(_) => if n > 0 then n - 1 else 0
        case Semicolon => 0
        case _ => n
  }

  /** Act j does not close the last angle bracket that stands open. */
  predicate StaysOpen(acts: seq<Act>, j: nat) {
    j < |acts| && (Pending(acts, j) == Some([]) ==> Count(acts, -1, j + 1) > 0)
  }

  /** No bracket is pending, and all angle brackets are closed for the first time,
      by one that ends a list. */
  ghost predicate Matched(acts: seq<Act>, k: nat) {
    && k < |acts| && acts[k] == Unangle(true) && Pending(acts, k) == Some([]) && Count(acts, -1, k + 1) == 0
    && forall j: nat | j < k :: StaysOpen(acts, j)
  }

  ghost predicate Unmatched(acts: seq<Act>) {
    forall k: nat :: !Matched(acts, k)
  }

  lemma MatchedOnce(acts: seq<Act>, j: nat, k: nat)
    requires Matched(acts, j) && Matched(acts, k)
    ensures j == k
  {
    assert j < k ==> StaysOpen(acts, j);
    assert k < j ==> StaysOpen(acts, k);
  }

  lemma CountAlone(acts: seq<Act>, k: nat)
    requires k < |acts| && Pending(acts, k) == Some([])
    ensures !acts[k].Opens? && !acts[k].Closes? ==> Pending(acts, k + 1) == Some([])
    ensures acts[k].Closes? ==> Pending(acts, k + 1) == None
    ensures var n := Count(acts, -1, k);
            Count(acts, -1, k + 1) == match acts[k]
                                      case Angle => n + 1
                                      case Unangle(_) => if n > 0 then n - 1 else 0
                                      case Semicolon => 0
                                      case _ => n
  {
  }

  /** A semicolon with no bracket pending ends the search: nothing after it
      matches. */
  lemma SemicolonEnds(acts: seq<Act>, j: nat, k: nat)
    requires j < |acts| && acts[j] == Semicolon && Pending(acts, j) == Some([]) && Matched(acts, k)
    ensures k < j
  {
    CountAlone(acts, j);
    assert j < k ==> StaysOpen(acts, j);
  }

  /** Within a bracket it drops the angle brackets that stand open there. */
  lemma SemicolonDrops(acts: seq<Act>, j: nat)
    requires j < |acts| && acts[j] == Semicolon && Pending(acts, j).Some? && Pending(acts, j).value != []
    ensures Count(acts, Innermost(Pending(acts, j).value), j + 1) == 0
  {
  }

  // ---- the stack of a scan -----------------------------------------------------------------

  datatype Outcome = On(stack: seq<char>) | Found | Fail

  /** What an act does to the stack of a scan. */
  function Effect(stack: seq<char>, act: Act, angle: char): Outcome {
    match act
    case Opens(c) => On(stack + [c])
    case Closes(mate) =>
      var popped := PopWhile(stack, angle);
      if popped == [] || popped[|popped| - 1] != mate then Fail
      else if |popped| == 1 then Found else On(popped[..|popped| - 1])
    case Angle => On(stack + [angle])
    case Unangle(ends) =>
      if stack == [] || stack[|stack| - 1] != angle then On(stack)
      else if |stack| > 1 then On(stack[..|stack| - 1])
      else if ends then Found else Fail
    case Semicolon =>
      var popped := PopWhile(stack, angle);
      if popped == [] then Fail else On(popped)
    case Idle => On(stack)
  }

  function Times(c: char, n: nat): (r: seq<char>)
    ensures |r| == n && forall i | 0 <= i < n :: r[i] == c
  {
    seq(n, _ => c)
  }

  predicate AreOpen(acts: seq<Act>, ps: seq<nat>, k: nat) {
    k <= |acts| &&
    (forall i | 0 <= i < |ps| :: ps[i] < k && acts[ps[i]].Opens?) && forall i, j | 0 <= i < j < |ps| :: ps[i] < ps[j]
  }

  /** The angle brackets that stand open, and each pending bracket with those that
      stand open directly within it. */
  function Shape(acts: seq<Act>, ps: seq<nat>, k: nat, angle: char): seq<char>
    requires AreOpen(acts, ps, k)
  {
    if ps == [] then Times(angle, Count(acts, -1, k))
    else
      var p := ps[|ps| - 1];
      Shape(acts, ps[..|ps| - 1], k, angle) + [acts[p].c] + Times(angle, Count(acts, p, k))
  }

  /** No bracket is an angle bracket. */
  predicate Proper(acts: seq<Act>, angle: char) {
    forall i | 0 <= i < |acts| && acts[i].Opens? :: acts[i].c != angle
  }

  /** Before act k nothing has matched, and the stack has its shape. */
  ghost predicate Scanned(acts: seq<Act>, k: nat, stack: seq<char>, angle: char) {
    && k <= |acts| && Proper(acts, angle) && Pending(acts, k).Some?
    && stack == Shape(acts, Pending(acts, k).value, k, angle)
    && (forall j: nat | j < k :: StaysOpen(acts, j))
    && Count(acts, -1, k) > 0
  }

  lemma {:induction false} PopTimes(stack: seq<char>, angle: char, n: nat)
    requires stack == [] || stack[|stack| - 1] != angle
    ensures PopWhile(stack + Times(angle, n), angle) == stack
  {
    if n == 0 {
      assert stack + Times(angle, n) == stack;
    } else {
      PopTimes(stack, angle, n - 1);
      assert (stack + Times(angle, n))[..|stack| + n - 1] == stack + Times(angle, n - 1);
    }
  }

  /** What an act does to a stack whose last bracket is followed by n angle
      brackets. */
  lemma EffectWithin(below: seq<char>, n: nat, act: Act, angle: char)
    requires |below| > 1 && below[|below| - 1] != angle
    ensures Effect(below + Times(angle, n), act, angle) ==
            match act
            case Opens(c) => On(below + Times(angle, n) + [c])
            case Closes(mate) => if below[|below| - 1] == mate then On(below[..|below| - 1]) else Fail
            case Angle => On(below + Times(angle, n + 1))
            case Unangle(_) => On(below + Times(angle, if n > 0 then n - 1 else 0))
            case Semicolon => On(below + Times(angle, 0))
            case Idle => On(below + Times(angle, n))
  {
    PopTimes(below, angle, n);
    assert below + Times(angle, 0) == below;
    assert below + Times(angle, n) + [angle] == below + Times(angle, n + 1);
    if n > 0 {
      assert (below + Times(angle, n))[..|below| + n - 1] == below + Times(angle, n - 1);
    }
  }

  /** ... and to one of n angle brackets. */
  lemma EffectAlone(n: nat, act: Act, angle: char)
    requires n > 0
    ensures Effect(Times(angle, n), act, angle) ==
            match act
            case Opens(c) => On(Times(angle, n) + [c])
            case Closes(_) => Fail
            case Angle => On(Times(angle, n + 1))
            case Unangle(ends) => if n > 1 then On(Times(angle, n - 1)) else if ends then Found else Fail
            case Semicolon => Fail
            case Idle => On(Times(angle, n))
  {
    PopTimes([], angle, n);
    TimesStep(angle, n);
  }

  lemma TimesStep(c: char, n: nat)
    ensures [] + Times(c, n) == Times(c, n) && Times(c, n) + [c] == Times(c, n + 1)
    ensures n > 0 ==> Times(c, n)[..n - 1] == Times(c, n - 1)
  {
  }

  /** Where act k leaves a count alone. */
  lemma CountStays(acts: seq<Act>, key: int, k: nat)
    requires -1 <= key < k < |acts|
    requires Pending(acts, k).None? || Innermost(Pending(acts, k).value) != key ||
             !(acts[k].Angle? || acts[k].Unangle? || acts[k].Semicolon?)
    ensures Count(acts, key, k + 1) == Count(acts, key, k)
  {
  }

  lemma {:induction false} ShapeStays(acts: seq<Act>, ps: seq<nat>, k: nat, angle: char)
    requires k < |acts| && AreOpen(acts, ps, k) && Pending(acts, k).Some?
    requires acts[k].Angle? || acts[k].Unangle? || acts[k].Semicolon? ==>
               Pending(acts, k).value != [] && Innermost(Pending(acts, k).value) !in ps
    ensures Shape(acts, ps, k + 1, angle) == Shape(acts, ps, k, angle)
  {
    if ps == [] {
      CountStays(acts, -1, k);
    } else {
      ShapeStays(acts, ps[..|ps| - 1], k, angle);
      CountStays(acts, ps[|ps| - 1], k);
    }
  }

  lemma {:induction false} ShapeNotEmpty(acts: seq<Act>, ps: seq<nat>, k: nat, angle: char)
    requires AreOpen(acts, ps, k) && Count(acts, -1, k) > 0
    ensures Shape(acts, ps, k, angle) != []
  {
    if ps == [] {
    } else {
      ShapeNotEmpty(acts, ps[..|ps| - 1], k, angle);
    }
  }

  lemma {:induction false} StaysWrong(acts: seq<Act>, j: nat, k: nat)
    requires j <= k <= |acts| && Pending(acts, j).None?
    ensures Pending(acts, k).None?
  {
    if j == k {
    } else {
      StaysWrong(acts, j, k - 1);
    }
  }

  /** What goes wrong at act k leaves nothing to match. */
  lemma NothingMatches(acts: seq<Act>, k: nat)
    requires k < |acts| && forall j: nat | j < k :: StaysOpen(acts, j)
    requires Pending(acts, k + 1).None? ||
             (Pending(acts, k) == Some([]) && Count(acts, -1, k + 1) == 0 && acts[k] != Unangle(true))
    requires !acts[k].Unangle? || Pending(acts, k) == Some([])
    ensures Unmatched(acts)
  {
    forall j: nat
      ensures !Matched(acts, j)
    {
      assert Matched(acts, j) ==> if j < k then StaysOpen(acts, j) else k < j ==> StaysOpen(acts, k);
      if Matched(acts, j) && j > k && Pending(acts, k + 1).None? {
        StaysWrong(acts, k + 1, j);
      }
    }
  }

  /** The last pending bracket with all below it. */
  function Below(acts: seq<Act>, ps: seq<nat>, k: nat, angle: char): (below: seq<char>)
    requires AreOpen(acts, ps, k) && ps != []
    ensures |below| > 0 && below[|below| - 1] == acts[ps[|ps| - 1]].c
    ensures below[..|below| - 1] == Shape(acts, ps[..|ps| - 1], k, angle)
  {
    Shape(acts, ps[..|ps| - 1], k, angle) + [acts[ps[|ps| - 1]].c]
  }

  lemma ShapeIsBelow(acts: seq<Act>, ps: seq<nat>, k: nat, angle: char)
    requires AreOpen(acts, ps, k) && ps != [] && Count(acts, -1, k) > 0
    ensures |Below(acts, ps, k, angle)| > 1
    ensures Shape(acts, ps, k, angle) == Below(acts, ps, k, angle) + Times(angle, Count(acts, ps[|ps| - 1], k))
  {
    ShapeNotEmpty(acts, ps[..|ps| - 1], k, angle);
  }

  lemma ScannedNext(acts: seq<Act>, k: nat, before: seq<char>, stack: seq<char>, angle: char)
    requires k < |acts| && Scanned(acts, k, before, angle) && Pending(acts, k + 1).Some? && Count(acts, -1, k + 1) > 0
    requires stack == Shape(acts, Pending(acts, k + 1).value, k + 1, angle)
    ensures Scanned(acts, k + 1, stack, angle)
  {
  }

  lemma ActAlone(acts: seq<Act>, k: nat, stack: seq<char>, angle: char)
    requires k < |acts| && Scanned(acts, k, stack, angle) && Pending(acts, k) == Some([]) && !acts[k].Opens?
    ensures match Effect(stack, acts[k], angle)
            case On(st) => Scanned(acts, k + 1, st, angle)
            case Found => Matched(acts, k)
            case Fail => Unmatched(acts)
  {
    EffectAlone(Count(acts, -1, k), acts[k], angle);
    CountAlone(acts, k);
    match Effect(stack, acts[k], angle)
    case On(st) => ScannedNext(acts, k, stack, st, angle);
    case Found =>
    case Fail => NothingMatches(acts, k);
  }

  /** Within a bracket an act that is no bracket changes the count of that
      bracket alone. */
  lemma ShapeWithin(acts: seq<Act>, k: nat, ps: seq<nat>, angle: char)
    requires k < |acts| && Pending(acts, k) == Some(ps) && ps != [] && !acts[k].Opens? && !acts[k].Closes?
    ensures Pending(acts, k + 1) == Some(ps) && Count(acts, -1, k + 1) == Count(acts, -1, k)
    ensures Shape(acts, ps, k + 1, angle) ==
            Below(acts, ps, k, angle) + Times(angle, Count(acts, ps[|ps| - 1], k + 1))
  {
    ShapeStays(acts, ps[..|ps| - 1], k, angle);
    CountStays(acts, -1, k);
  }

  lemma CountWithin(acts: seq<Act>, k: nat, ps: seq<nat>)
    requires k < |acts| && Pending(acts, k) == Some(ps) && ps != []
    ensures var p := ps[|ps| - 1];
            Count(acts, p, k + 1) == match acts[k]
                                     case Angle => Count(acts, p, k) + 1
                                     case Unangle(_) => if Count(acts, p, k) > 0 then Count(acts, p, k) - 1 else 0
                                     case Semicolon => 0
                                     case _ => Count(acts, p, k)
  {
  }

  lemma ActWithin(acts: seq<Act>, k: nat, stack: seq<char>, angle: char)
    requires k < |acts| && Scanned(acts, k, stack, angle) && Pending(acts, k).value != []
    requires !acts[k].Opens? && !acts[k].Closes?
    ensures Effect(stack, acts[k], angle).On?
    ensures Scanned(acts, k + 1, Effect(stack, acts[k], angle).stack, angle)
  {
    var ps := Pending(acts, k).value;
    ShapeIsBelow(acts, ps, k, angle);
    EffectWithin(Below(acts, ps, k, angle), Count(acts, ps[|ps| - 1], k), acts[k], angle);
    CountWithin(acts, k, ps);
    ShapeWithin(acts, k, ps, angle);
    ScannedNext(acts, k, stack, Effect(stack, acts[k], angle).stack, angle);
  }

  lemma ShapeCloses(acts: seq<Act>, k: nat, ps: seq<nat>, angle: char)
    requires k < |acts| && Pending(acts, k) == Some(ps) && ps != [] && acts[k].Closes?
    ensures acts[k].mate != acts[ps[|ps| - 1]].c ==> Pending(acts, k + 1).None?
    ensures acts[k].mate == acts[ps[|ps| - 1]].c ==>
              Pending(acts, k + 1) == Some(ps[..|ps| - 1]) && Count(acts, -1, k + 1) == Count(acts, -1, k) &&
              Shape(acts, ps[..|ps| - 1], k + 1, angle) == Shape(acts, ps[..|ps| - 1], k, angle)
  {
    ShapeStays(acts, ps[..|ps| - 1], k, angle);
    CountStays(acts, -1, k);
  }

  lemma ActCloses(acts: seq<Act>, k: nat, stack: seq<char>, angle: char)
    requires k < |acts| && Scanned(acts, k, stack, angle) && Pending(acts, k).value != [] && acts[k].Closes?
    ensures match Effect(stack, acts[k], angle)
            case On(st) => Scanned(acts, k + 1, st, angle)
            case Found => false
            case Fail => Unmatched(acts)
  {
    var ps := Pending(acts, k).value;
    ShapeIsBelow(acts, ps, k, angle);
    EffectWithin(Below(acts, ps, k, angle), Count(acts, ps[|ps| - 1], k), acts[k], angle);
    ShapeCloses(acts, k, ps, angle);
    match Effect(stack, acts[k], angle)
    case On(st) => ScannedNext(acts, k, stack, st, angle);
    case Fail => NothingMatches(acts, k);
  }

  lemma ShapeOpens(acts: seq<Act>, k: nat, ps: seq<nat>, angle: char)
    requires k < |acts| && Pending(acts, k) == Some(ps) && acts[k].Opens?
    ensures Pending(acts, k + 1) == Some(ps + [k])
    ensures Shape(acts, ps + [k], k + 1, angle) == Shape(acts, ps, k, angle) + [acts[k].c]
  {
    ShapeStays(acts, ps, k, angle);
    assert (ps + [k])[..|ps|] == ps;
    assert Times(angle, 0) == [];
  }

  lemma ActOpens(acts: seq<Act>, k: nat, stack: seq<char>, angle: char)
    requires k < |acts| && Scanned(acts, k, stack, angle) && acts[k].Opens?
    ensures Scanned(acts, k + 1, stack + [acts[k].c], angle)
  {
    ShapeOpens(acts, k, Pending(acts, k).value, angle);
    CountStays(acts, -1, k);
    ScannedNext(acts, k, stack, stack + [acts[k].c], angle);
  }

  /** Each act keeps the shape of the stack, or matches, or leaves nothing to
      match. */
  lemma ActKeeps(acts: seq<Act>, k: nat, stack: seq<char>, angle: char)
    requires k < |acts| && Scanned(acts, k, stack, angle)
    ensures match Effect(stack, acts[k], angle)
            case On(st) => Scanned(acts, k + 1, st, angle)
            case Found => Matched(acts, k)
            case Fail => Unmatched(acts)
  {
    if acts[k].Opens? {
      ActOpens(acts, k, stack, angle);
    } else if Pending(acts, k).value == [] {
      ActAlone(acts, k, stack, angle);
    } else if acts[k].Closes? {
      ActCloses(acts, k, stack, angle);
    } else {
      ActWithin(acts, k, stack, angle);
    }
  }

  // ---- a whole scan ------------------------------------------------------------------------

  datatype Course = Ran(stack: seq<char>) | FoundAt(k: nat) | Failed

  /** The acts from k up to `end`, one after the other. */
  function Drive(stack: seq<char>, acts: seq<Act>, k: nat, end: nat, angle: char): Course
    requires k <= end <= |acts|
    decreases end - k
  {
    if k == end then Ran(stack)
    else
      match Effect(stack, acts[k], angle)
      case On(st) => Drive(st, acts, k + 1, end, angle)
      case Found => FoundAt(k)
      case Fail => Failed
  }

  lemma {:induction false} DriveJoin(stack: seq<char>, acts: seq<Act>, k: nat, mid: nat, end: nat, angle: char)
    requires k <= mid <= end <= |acts|
    ensures var c := Drive(stack, acts, k, mid, angle);
            Drive(stack, acts, k, end, angle) == if c.Ran? then Drive(c.stack, acts, mid, end, angle) else c
    decreases mid - k
  {
    if k == mid {
    } else {
      match Effect(stack, acts[k], angle)
      case On(st) => DriveJoin(st, acts, k + 1, mid, end, angle);
      case Found =>
      case Fail =>
    }
  }

  /** A stack does not become empty on the way. */
  lemma {:induction false} DriveStands(stack: seq<char>, acts: seq<Act>, k: nat, end: nat, angle: char)
    requires k <= end <= |acts| && stack != []
    ensures Drive(stack, acts, k, end, angle).Ran? ==> Drive(stack, acts, k, end, angle).stack != []
    decreases end - k
  {
    if k == end {
    } else {
      match Effect(stack, acts[k], angle)
      case On(st) => DriveStands(st, acts, k + 1, end, angle);
      case Found =>
      case Fail =>
    }
  }

  lemma {:induction false} DriveBounded(stack: seq<char>, acts: seq<Act>, k: nat, end: nat, angle: char)
    requires k <= end <= |acts|
    ensures Drive(stack, acts, k, end, angle).FoundAt? ==> k <= Drive(stack, acts, k, end, angle).k < end
    decreases end - k
  {
    if k == end {
    } else {
      match Effect(stack, acts[k], angle)
      case On(st) => DriveBounded(st, acts, k + 1, end, angle);
      case Found =>
      case Fail =>
    }
  }

  /** The match, or nothing if nothing matches. */
  ghost predicate Finds(acts: seq<Act>, c: Course) {
    if c.FoundAt? then Matched(acts, c.k) else Unmatched(acts)
  }

  lemma {:induction false} DriveKeeps(stack: seq<char>, acts: seq<Act>, k: nat, angle: char)
    requires k <= |acts| && Scanned(acts, k, stack, angle)
    ensures Finds(acts, Drive(stack, acts, k, |acts|, angle))
    decreases |acts| - k
  {
    if k == |acts| {
      assert forall j: nat | Matched(acts, j) :: StaysOpen(acts, j);
    } else {
      ActKeeps(acts, k, stack, angle);
      match Effect(stack, acts[k], angle)
      case On(st) => DriveKeeps(st, acts, k + 1, angle);
      case Found =>
      case Fail =>
    }
  }

  /** A scan that starts from an angle bracket finds its match, and nothing exactly
      if nothing matches. */
  lemma DriveFinds(acts: seq<Act>, angle: char)
    requires Proper(acts, angle)
    ensures Finds(acts, Drive([angle], acts, 0, |acts|, angle))
  {
    assert Times(angle, 1) == [angle];
    DriveKeeps([angle], acts, 0, angle);
  }
}
