/** Cutting a range of n work items among the threads of a team. */
module Splitter {

  /** Items before thread t when every thread gets q and the first r one more. */
  function Share(q: nat, r: nat, t: nat): nat {
    t * q + if t < r then t else r
  }

  /** Where the part of thread t starts, and the part of thread t - 1 ends. */
  function Cut(n: nat, team: nat, t: nat): nat
    requires team > 0
  {
    Share(n / team, n % team, t)
  }

  lemma ShareStep(q: nat, r: nat, t: nat)
    ensures Share(q, r, t + 1) == Share(q, r, t) + q + if t < r then 1 else 0
  {
    assert (t + 1) * q == t * q + q;
  }

  lemma {:induction false} ShareMonotone(q: nat, r: nat, s: nat, t: nat)
    requires s <= t
    ensures Share(q, r, s) <= Share(q, r, t)
    decreases t - s
  {
    if s == t {
    } else {
      ShareStep(q, r, s);
      ShareMonotone(q, r, s + 1, t);
    }
  }

  lemma CutEnds(n: nat, team: nat)
    requires team > 0
    ensures Cut(n, team, 0) == 0 && Cut(n, team, team) == n
  {
  }

  lemma CutMonotone(n: nat, team: nat, s: nat, t: nat)
    requires s <= t <= team && team > 0
    ensures Cut(n, team, s) <= Cut(n, team, t) <= n
  {
    ShareMonotone(n / team, n % team, s, t);
    ShareMonotone(n / team, n % team, t, team);
    CutEnds(n, team);
  }

  /** Parts differ by at most one item, the longer ones first. */
  lemma CutBalanced(n: nat, team: nat, s: nat, t: nat)
    requires s <= t < team
    ensures var first, later := Cut(n, team, s + 1) - Cut(n, team, s), Cut(n, team, t + 1) - Cut(n, team, t);
            0 <= later <= first <= later + 1
  {
    ShareStep(n / team, n % team, s);
    ShareStep(n / team, n % team, t);
  }

  // Unsigned arithmetic modulo the word m.

  function Add(a: nat, b: nat, m: nat): nat
    requires m > 0
  {
    (a + b) % m
  }

  function Sub(a: nat, b: nat, m: nat): nat
    requires m > 0
  {
    (a - b) % m
  }

  function Mul(a: nat, b: nat, m: nat): nat
    requires m > 0
  {
    (a * b) % m
  }

  lemma SmallMod(a: int, m: int)
    requires m > 0
    ensures 0 <= a < m ==> a % m == a
    ensures m <= a < 2 * m ==> a % m == a - m
    ensures -m <= a < 0 ==> a % m == a + m
  {
  }

  lemma DivUnique(a: nat, b: nat, q: int, r: nat)
    requires b > 0 && a == q * b + r && r < b
    ensures a / b == q && a % b == r
  {
    var d := a / b - q;
    assert d * b == (a / b) * b - q * b;
    OnlyZeroMultiple(d, b);
  }

  lemma OnlyZeroMultiple(d: int, b: int)
    requires -b < d * b < b
    ensures d == 0
  {
    assert d > 0 ==> d * b >= b;
    assert d < 0 ==> d * b <= -b;
  }

  /** The rounded-up share n1 and the number t1 of threads that get it. */
  lemma CeilShare(n: nat, team: nat) returns (n1: nat, t1: nat)
    requires n > 0 && team > 1
    ensures n1 >= 1 && 1 <= t1 <= team && n == (n1 - 1) * team + t1
    ensures n1 == (if n % team == 0 then n / team else n / team + 1)
    ensures t1 == if n % team == 0 then team else n % team
  {
    var q, r := n / team, n % team;
    assert n == q * team + r;
    n1, t1 := if r == 0 then q else q + 1, if r == 0 then team else r;
    assert (q - 1) * team == q * team - team;
  }

  /** Start of a part by the code's case distinction, in unbounded integers. */
  lemma ShareStart(team: nat, q: nat, r: nat, tid: nat, n1: nat, t1: nat)
    requires r < team && tid <= team && n1 >= 1
    requires n1 == (if r == 0 then q else q + 1) && t1 == if r == 0 then team else r
    ensures Share(q, r, tid) == if tid <= t1 then tid * n1 else t1 * n1 + (tid - t1) * (n1 - 1)
  {
    if r > 0 {
      assert tid * n1 == tid * q + tid;
      assert t1 * n1 == t1 * q + t1;
      assert (tid - t1) * q == tid * q - t1 * q;
    }
  }

  lemma FactorBound(a: nat, b: nat)
    requires b > 0
    ensures a <= a * b
  {
  }

  /** When n + team - 1 fits, n1 and t1 come out right: a sum n + team that is
      one too large wraps to 0, and the subtraction wraps it back. */
  lemma CeilInWords(n: nat, team: nat, m: nat, n1: nat, t1: nat)
    requires 1 < team && n + team - 1 < m
    requires n1 >= 1 && 1 <= t1 <= team && n == (n1 - 1) * team + t1
    ensures Sub(Add(n, team, m), 1, m) / team == n1
    ensures Sub(n1, 1, m) == n1 - 1 && Sub(n, Mul(n1 - 1, team, m), m) == t1
  {
    SmallMod(n + team, m);
    SmallMod(n + team - m - 1, m);
    SmallMod(n + team - 1, m);
    assert n + team - 1 == n1 * team + (t1 - 1);
    DivUnique(n + team - 1, team, n1, t1 - 1);
    FactorBound(n1 - 1, team);
    SmallMod(n1 - 1, m);
    SmallMod((n1 - 1) * team, m);
    SmallMod(t1, m);
  }

  /** Nothing wraps from there to the ends of the part. */
  lemma PartInWords(n: nat, team: nat, q: nat, r: nat, tid: nat, m: nat, n1: nat, t1: nat)
    requires r < team < m && tid < team && n == Share(q, r, team) < m && 1 <= n1
    requires n1 == (if r == 0 then q else q + 1) && t1 == if r == 0 then team else r
    ensures Share(q, r, tid) ==
            if tid <= t1 then Mul(tid, n1, m) else Add(Mul(t1, n1, m), Mul(Sub(tid, t1, m), n1 - 1, m), m)
    ensures Add(if tid < t1 then n1 else n1 - 1, Share(q, r, tid), m) == Share(q, r, tid + 1)
  {
    ShareStart(team, q, r, tid, n1, t1);
    ShareStep(q, r, tid);
    ShareMonotone(q, r, tid, tid + 1);
    ShareMonotone(q, r, tid + 1, team);
    SmallMod(Share(q, r, tid), m);
    SmallMod(Share(q, r, tid + 1), m);
    if t1 < tid {
      ShareStart(team, q, r, t1, n1, t1);
      ShareMonotone(q, r, t1, tid);
      SmallMod(t1 * n1, m);
      TailInWords(tid - t1, n1 - 1, t1 * n1, m);
    }
  }

  lemma TailInWords(d: nat, n2: nat, head: nat, m: nat)
    requires head + d * n2 < m && d < m
    ensures Add(head, Mul(Sub(d, 0, m), n2, m), m) == head + d * n2
  {
    SmallMod(d, m);
    SmallMod(d * n2, m);
    SmallMod(head + d * n2, m);
  }

  /** The part of thread tid as the code computes it in words of m values. */
  function WordPart(n: nat, team: nat, tid: nat, m: nat): (r: (nat, nat))
    requires n < m && tid < team < m
    ensures team == 1 || n == 0 ==> r == (0, n)
  {
    if team <= 1 || n == 0 then (0, n)
    else
      var n1 := Sub(Add(n, team, m), 1, m) / team;
      var n2 := Sub(n1, 1, m);
      var t1 := Sub(n, Mul(n2, team, m), m);
      var start := if tid <= t1 then Mul(tid, n1, m) else Add(Mul(t1, n1, m), Mul(Sub(tid, t1, m), n2, m), m);
      (start, Add(if tid < t1 then n1 else n2, start, m))
  }

  lemma ExactWhenItFits(n: nat, team: nat, tid: nat, m: nat)
    requires tid < team < m && n + team - 1 < m
    ensures WordPart(n, team, tid, m) == (Cut(n, team, tid), Cut(n, team, tid + 1))
  {
    if team == 1 || n == 0 {
      LoneShare(n, team, tid);
    } else {
      var c1, d1 := CeilShare(n, team);
      CeilInWords(n, team, m, c1, d1);
      CutEnds(n, team);
      PartInWords(n, team, n / team, n % team, tid, m, c1, d1);
    }
  }

  /** Reduction modulo the word leaves the value as it is. */
  predicate Kept(v: int, m: nat)
    requires m > 0
  {
    v % m == v
  }

  /** Every intermediate value of the branch for several threads, computed in
      unbounded integers, is its own word. */
  predicate NothingWraps(n: nat, team: nat, tid: nat, m: nat)
    requires n > 0 && team > 1 && m > 0
  {
    var n1 := (n + team - 1) / team;
    var n2 := n1 - 1;
    var t1 := n - n2 * team;
    var start := if tid <= t1 then tid * n1 else t1 * n1 + (tid - t1) * n2;
    && Kept(n + team, m) && Kept(n + team - 1, m) && Kept(n2, m) && Kept(n2 * team, m) && Kept(t1, m)
    && (tid > t1 ==> Kept(t1 * n1, m) && Kept(tid - t1, m) && Kept((tid - t1) * n2, m))
    && Kept(start, m) && Kept((if tid < t1 then n1 else n2) + start, m)
  }

  lemma CeilIs(n: nat, team: nat, n1: nat, t1: nat)
    requires team > 1 && n1 >= 1 && 1 <= t1 <= team && n == (n1 - 1) * team + t1
    ensures (n + team - 1) / team == n1
  {
    assert n + team - 1 == n1 * team + (t1 - 1);
    DivUnique(n + team - 1, team, n1, t1 - 1);
  }

  lemma StartsKept(n: nat, team: nat, tid: nat, m: nat, n1: nat, t1: nat)
    requires 0 < n < m && 1 < team && tid < team < m
    requires n1 >= 1 && n1 == (if n % team == 0 then n / team else n / team + 1)
    requires t1 == if n % team == 0 then team else n % team
    ensures var start := if tid <= t1 then tid * n1 else t1 * n1 + (tid - t1) * (n1 - 1);
            Kept(start, m) && Kept((if tid < t1 then n1 else n1 - 1) + start, m)
    ensures tid > t1 ==> Kept(t1 * n1, m) && Kept(tid - t1, m) && Kept((tid - t1) * (n1 - 1), m)
  {
    ShareStart(team, n / team, n % team, tid, n1, t1);
    ShareStep(n / team, n % team, tid);
    CutMonotone(n, team, tid, tid + 1);
    var start := Cut(n, team, tid);
    SmallMod(start, m);
    SmallMod((if tid < t1 then n1 else n1 - 1) + start, m);
    if tid > t1 {
      FactorsKept(t1 * n1, tid - t1, n1 - 1, m);
    }
  }

  lemma FactorsKept(head: nat, d: nat, n2: nat, m: nat)
    requires head + d * n2 < m && d < m
    ensures Kept(head, m) && Kept(d, m) && Kept(d * n2, m)
  {
    SmallMod(head, m);
    SmallMod(d, m);
    SmallMod(d * n2, m);
  }

  /** No intermediate value exceeds the word if and only if n + team fits; a part
      is exact for one value more, since what wraps then wraps back. */
  lemma NothingWrapsExactly(n: nat, team: nat, tid: nat, m: nat)
    requires 0 < n < m && 1 < team && tid < team < m
    ensures NothingWraps(n, team, tid, m) <==> n + team < m
  {
    if n + team < m {
      var n1, t1 := CeilShare(n, team);
      CeilIs(n, team, n1, t1);
      FactorBound(n1 - 1, team);
      SmallMod(n + team, m);
      SmallMod(n + team - 1, m);
      FactorsKept(t1, n1 - 1, team, m);
      StartsKept(n, team, tid, m, n1, t1);
    }
  }

  /** When n + team - 1 wraps, the rounded-up share comes out as 0: the first
      n + team - m threads get nothing, the next one nearly a whole word, and
      the others a part that ends before it starts. */
  lemma PartWhenItWraps(n: nat, team: nat, tid: nat, m: nat)
    requires n < m && tid < team < m && m <= n + team - 1
    ensures var (start, end) := WordPart(n, team, tid, m);
            if tid < n + team - m then start == end == 0
            else if tid == n + team - m then start == 0 && end == m - 1
            else end == start - 1
  {
    var t1 := n + team - m;
    CeilWraps(n, team, m);
    SmallMod(-1, m);
    MaxWordTimes(team, m);
    SmallMod(t1, m);
    SmallMod(0, m);
    SmallMod(m - 1, m);
    if tid > t1 {
      TailWraps(tid - t1, m);
    }
  }

  lemma TailWraps(d: nat, m: nat)
    requires 0 < d < m
    ensures Add(0, Mul(Sub(d, 0, m), m - 1, m), m) == m - d
    ensures Add(m - 1, m - d, m) == m - d - 1
  {
    assert Sub(d, 0, m) == d by { SmallMod(d, m); }
    MaxWordBy(d, m);
    assert Add(0, m - d, m) == m - d by { SmallMod(m - d, m); }
    assert Add(m - 1, m - d, m) == m - d - 1 by { SmallMod(2 * m - d - 1, m); }
  }

  lemma MaxWordBy(d: nat, m: nat)
    requires 0 < d < m
    ensures Mul(d, m - 1, m) == m - d
  {
    MaxWordTimes(d, m);
    assert d * (m - 1) == (m - 1) * d;
  }

  lemma WrongWhenItWraps(n: nat, team: nat, tid: nat, m: nat)
    requires n < m && tid < team < m && m <= n + team - 1
    ensures WordPart(n, team, tid, m) != (Cut(n, team, tid), Cut(n, team, tid + 1))
  {
    PartWhenItWraps(n, team, tid, m);
    CutPositive(n, team);
    CutMonotone(n, team, 1, tid + 1);
    CutMonotone(n, team, tid, tid + 1);
    if tid > 0 {
      CutMonotone(n, team, 1, tid);
    }
  }

  lemma CeilWraps(n: nat, team: nat, m: nat)
    requires n < m && 0 < team < m && m <= n + team - 1
    ensures Sub(Add(n, team, m), 1, m) / team == 0
  {
    SmallMod(n + team, m);
    SmallMod(n + team - m - 1, m);
    SmallDiv(n + team - m - 1, team);
  }

  lemma MaxWordTimes(team: nat, m: nat)
    requires 0 < team < m
    ensures Mul(m - 1, team, m) == m - team
  {
    assert (m - 1) * team == (team - 1) * m + (m - team);
    DivUnique((m - 1) * team, m, team - 1, m - team);
  }

  lemma SmallDiv(a: nat, b: nat)
    requires a < b
    ensures a / b == 0
  {
  }

  lemma CutPositive(n: nat, team: nat)
    requires n > 0 && team > 0
    ensures Cut(n, team, 1) > 0
  {
    assert n == (n / team) * team + n % team;
    ShareStep(n / team, n % team, 0);
  }

  lemma LoneShare(n: nat, team: nat, tid: nat)
    requires tid < team && (team == 1 || n == 0)
    ensures Cut(n, team, tid) == 0 && Cut(n, team, tid + 1) == n
  {
    CutEnds(n, team);
    CutMonotone(n, team, tid, tid + 1);
  }

  /** In words of m values a thread's part is exact if and only if
      n + team - 1 fits. */
  method Split(n: nat, team: nat, tid: nat, m: nat) returns (nStart: nat, nEnd: nat)
    requires n < m && team < m && tid < team
    ensures nStart == Cut(n, team, tid) && nEnd == Cut(n, team, tid + 1) <==> n + team - 1 < m
    ensures (nStart, nEnd) == WordPart(n, team, tid, m)
  {
    if team <= 1 || n == 0 {
      nStart := 0;
      nEnd := n;
      SmallMod(n, m);
    } else {
      var n1 := Sub(Add(n, team, m), 1, m) / team;
      var n2 := Sub(n1, 1, m);
      var t1 := Sub(n, Mul(n2, team, m), m);
      nEnd := if tid < t1 then n1 else n2;
      nStart := if tid <= t1 then Mul(tid, n1, m) else Add(Mul(t1, n1, m), Mul(Sub(tid, t1, m), n2, m), m);
    }
    nEnd := Add(nEnd, nStart, m);
    if n + team - 1 < m {
      ExactWhenItFits(n, team, tid, m);
    } else {
      WrongWhenItWraps(n, team, tid, m);
    }
  }
}
