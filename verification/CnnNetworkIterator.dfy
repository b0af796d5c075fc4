/** The breadth-first iterator over the layers of a CNN network. */
module CnnNetworkIterator {
  import opened Options
  import opened Sequences

  /** Address of a layer. */
  type Layer = nat

  /** Consumers of each output of a layer, and the creators of its inputs. */
  datatype Links = Links(outputs: seq<seq<Layer>>, creators: seq<Option<Layer>>)

  /** All layers, and for each network input the layers that consume it. */
  datatype Graph = Graph(links: map<Layer, Links>, inputs: seq<seq<Layer>>) {

    /** y consumes an output of x. */
    predicate Child(x: Layer, y: Layer) {
      x in links && exists i :: 0 <= i < |links[x].outputs| && y in links[x].outputs[i]
    }

    /** y has created an input of x, and is still alive. */
    predicate Parent(x: Layer, y: Layer) {
      x in links && Some(y) in links[x].creators
    }

    predicate Linked(x: Layer, y: Layer) {
      Child(x, y) || Parent(x, y)
    }

    ghost predicate Closed() {
      && (forall x, y | Linked(x, y) :: y in links)
      && (forall i, j | 0 <= i < |inputs| && 0 <= j < |inputs[i]| :: inputs[i][j] in links)
    }

    /** Children, output by output, then parents. */
    function Neighbours(x: Layer): seq<Layer> {
      if x in links then Flatten(links[x].outputs) + Alive(links[x].creators) else []
    }
  }

  function Alive(xs: seq<Option<Layer>>): seq<Layer> {
    if xs == [] then []
    else Alive(xs[..|xs| - 1]) + match xs[|xs| - 1] { case Some(x) => [x] case None => [] }
  }

  /** Those of xs that are alive. */
  function Living(xs: seq<Option<Layer>>): nat {
    if xs == [] then 0 else Living(xs[..|xs| - 1]) + if xs[|xs| - 1].Some? then 1 else 0
  }

  lemma {:induction false} AliveAt(xs: seq<Option<Layer>>, j: nat)
    requires j < |xs| && xs[j].Some?
    ensures |Alive(xs)| == Living(xs) && Living(xs[..j]) < Living(xs) && Alive(xs)[Living(xs[..j])] == xs[j].value
  {
    var n := |xs| - 1;
    AliveLength(xs[..n]);
    if j == n {
    } else {
      AliveAt(xs[..n], j);
      assert xs[..n][..j] == xs[..j];
    }
  }

  lemma {:induction false} AliveLength(xs: seq<Option<Layer>>)
    ensures |Alive(xs)| == Living(xs)
  {
    if xs == [] {
    } else {
      AliveLength(xs[..|xs| - 1]);
    }
  }

  lemma {:induction false} AliveMembers(xs: seq<Option<Layer>>, x: Layer)
    ensures x in Alive(xs) <==> Some(x) in xs
  {
    if xs == [] {
    } else {
      AliveMembers(xs[..|xs| - 1], x);
      assert xs == xs[..|xs| - 1] + [xs[|xs| - 1]];
    }
  }

  /** The neighbours of a layer are its children and its parents. */
  lemma NeighboursAreLinked(g: Graph, x: Layer, y: Layer)
    ensures y in g.Neighbours(x) <==> g.Linked(x, y)
  {
    if x in g.links {
      FlattenMembers(g.links[x].outputs, y);
      AliveMembers(g.links[x].creators, y);
    }
  }

  /** They come output by output, consumer by consumer, and then creator by
      creator. */
  lemma NeighboursInOrder(g: Graph, x: Layer)
    requires x in g.links
    ensures var outputs, creators := g.links[x].outputs, g.links[x].creators;
            && |g.Neighbours(x)| == Lengths(outputs) + Living(creators)
            && (forall i: nat, k: nat | i < |outputs| && k < |outputs[i]| ::
                  Lengths(outputs[..i]) + k < Lengths(outputs) &&
                  g.Neighbours(x)[Lengths(outputs[..i]) + k] == outputs[i][k])
            && (forall j: nat | j < |creators| && creators[j].Some? ::
                  Living(creators[..j]) < Living(creators) &&
                  g.Neighbours(x)[Lengths(outputs) + Living(creators[..j])] == creators[j].value)
  {
    var outputs, creators := g.links[x].outputs, g.links[x].creators;
    FlattenLength(outputs);
    AliveLength(creators);
    forall i: nat, k: nat | i < |outputs| && k < |outputs[i]|
      ensures Lengths(outputs[..i]) + k < Lengths(outputs)
      ensures g.Neighbours(x)[Lengths(outputs[..i]) + k] == outputs[i][k]
    {
      FlattenAt(outputs, i, k);
    }
    forall j: nat | j < |creators| && creators[j].Some?
      ensures Living(creators[..j]) < Living(creators)
      ensures g.Neighbours(x)[Lengths(outputs) + Living(creators[..j])] == creators[j].value
    {
      AliveAt(creators, j);
    }
  }

  lemma NeighboursWithin(g: Graph, x: Layer)
    requires g.Closed()
    ensures forall y | y in g.Neighbours(x) :: y in g.links
  {
    forall y | y in g.Neighbours(x)
      ensures y in g.links
    {
      NeighboursAreLinked(g, x, y);
    }
  }

  /** What the iterator remembers: the layers seen, and those still to visit. */
  datatype Frontier = Frontier(visited: set<Layer>, queue: seq<Layer>)

  function Push(f: Frontier, x: Layer): Frontier {
    if x in f.visited then f else Frontier(f.visited + {x}, f.queue + [x])
  }

  function PushAll(f: Frontier, xs: seq<Layer>): Frontier {
    if xs == [] then f else Push(PushAll(f, xs[..|xs| - 1]), xs[|xs| - 1])
  }

  function Pop(g: Graph, f: Frontier): Frontier {
    if f.queue == [] then f
    else PushAll(Frontier(f.visited, f.queue[1..]), g.Neighbours(f.queue[0]))
  }

  /** Layers the iterator still has to deliver: an upper bound. */
  ghost function Measure(g: Graph, f: Frontier): nat {
    |g.links.Keys - f.visited| + |f.queue|
  }

  ghost predicate Within(g: Graph, f: Frontier) {
    g.Closed() && f.visited <= g.links.Keys && forall x | x in f.queue :: x in f.visited
  }

  /** `added` is what of xs had not been seen: seen now, and queued once each. */
  ghost predicate Adds(f: Frontier, xs: seq<Layer>, added: seq<Layer>, h: Frontier) {
    && h == Frontier(f.visited + Elems(added), f.queue + added)
    && Distinct(added) && (forall x | x in added :: x in xs && x !in f.visited)
    && (forall x | x in xs :: x in h.visited)
  }

  lemma {:induction false} PushAllAdds(f: Frontier, xs: seq<Layer>) returns (added: seq<Layer>)
    ensures Adds(f, xs, added, PushAll(f, xs))
  {
    if xs == [] {
      added := [];
    } else {
      var front, last := xs[..|xs| - 1], xs[|xs| - 1];
      var before := PushAllAdds(f, front);
      assert forall x :: x in xs <==> x in front || x == last;
      added := if last in PushAll(f, front).visited then before else before + [last];
      assert Elems(before + [last]) == Elems(before) + {last};
    }
  }

  lemma PopAdds(g: Graph, f: Frontier) returns (added: seq<Layer>)
    requires f.queue != []
    ensures Adds(Frontier(f.visited, f.queue[1..]), g.Neighbours(f.queue[0]), added, Pop(g, f))
  {
    added := PushAllAdds(Frontier(f.visited, f.queue[1..]), g.Neighbours(f.queue[0]));
  }

  /** A pop takes one layer off what is left to deliver. */
  lemma MeasureDrops(g: Graph, f: Frontier)
    requires Within(g, f) && f.queue != []
    ensures Within(g, Pop(g, f)) && Measure(g, Pop(g, f)) == Measure(g, f) - 1
  {
    var added := PopAdds(g, f);
    assert f.queue[0] in f.queue;
    NeighboursWithin(g, f.queue[0]);
    DistinctCount(added);
    var unseen := g.links.Keys - f.visited;
    assert unseen == (g.links.Keys - Pop(g, f).visited) + Elems(added);
  }

  /** Everything delivered from f on. */
  ghost function Delivered(g: Graph, f: Frontier): seq<Layer>
    requires Within(g, f)
    decreases Measure(g, f)
  {
    if f.queue == [] then []
    else
      MeasureDrops(g, f);
      [f.queue[0]] + Delivered(g, Pop(g, f))
  }

  // ---- distance ------------------------------------------------------------------

  /** Children and parents of these layers. */
  ghost function Around(g: Graph, b: set<Layer>): set<Layer> {
    set x, y | x in b && y in g.Neighbours(x) :: y
  }

  /** Layers at most n links away from s, through children or parents. */
  ghost function Ball(g: Graph, s: Layer, n: nat): set<Layer> {
    if n == 0 then {s}
    else
      var b := Ball(g, s, n - 1);
      b + Around(g, b)
  }

  /** From s over links to x. */
  ghost predicate Walk(g: Graph, s: Layer, p: seq<Layer>, x: Layer) {
    && p != [] && p[|p| - 1] == x
    && if |p| == 1 then x == s else g.Linked(p[|p| - 2], x) && Walk(g, s, p[..|p| - 1], p[|p| - 2])
  }

  /** x is at most n links away from s. */
  ghost predicate Near(g: Graph, s: Layer, n: nat, x: Layer) {
    exists p :: Walk(g, s, p, x) && |p| <= n + 1
  }

  ghost predicate Reachable(g: Graph, s: Layer, x: Layer) {
    exists p :: Walk(g, s, p, x)
  }

  /** The ball of radius n is the set of ends of walks of at most n links. */
  lemma {:induction false} BallIsWalks(g: Graph, s: Layer, n: nat, x: Layer)
    ensures x in Ball(g, s, n) <==> Near(g, s, n, x)
  {
    if x in Ball(g, s, n) {
      var p := WalkInBall(g, s, n, x);
    }
    if p :| Walk(g, s, p, x) && |p| <= n + 1 {
      WalkStaysInBall(g, s, n, p, x);
    }
  }

  lemma WalkOn(g: Graph, s: Layer, p: seq<Layer>, y: Layer, x: Layer)
    requires Walk(g, s, p, y) && g.Linked(y, x)
    ensures Walk(g, s, p + [x], x)
  {
    assert (p + [x])[..|p|] == p;
  }

  lemma {:induction false} WalkInBall(g: Graph, s: Layer, n: nat, x: Layer) returns (p: seq<Layer>)
    requires x in Ball(g, s, n)
    ensures Walk(g, s, p, x) && |p| <= n + 1
  {
    if n == 0 {
      p := [s];
    } else {
      var y := BallStep(g, s, n, x);
      p := WalkInBall(g, s, n - 1, y);
      if x != y {
        NeighboursAreLinked(g, y, x);
        WalkOn(g, s, p, y, x);
        p := p + [x];
      }
    }
  }

  lemma BallStep(g: Graph, s: Layer, n: nat, x: Layer) returns (y: Layer)
    requires n > 0 && x in Ball(g, s, n)
    ensures y in Ball(g, s, n - 1) && (x == y || x in g.Neighbours(y))
  {
    if x in Ball(g, s, n - 1) {
      y := x;
    } else {
      y :| y in Ball(g, s, n - 1) && x in g.Neighbours(y);
    }
  }

  lemma BallNext(g: Graph, s: Layer, n: nat, y: Layer, x: Layer)
    requires y in Ball(g, s, n) && x in g.Neighbours(y)
    ensures x in Ball(g, s, n + 1)
  {
  }

  lemma {:induction false} WalkEnds(g: Graph, s: Layer, p: seq<Layer>, x: Layer)
    requires Walk(g, s, p, x)
    ensures x in Ball(g, s, |p| - 1)
  {
    if |p| == 1 {
    } else {
      WalkEnds(g, s, p[..|p| - 1], p[|p| - 2]);
      NeighboursAreLinked(g, p[|p| - 2], x);
      BallNext(g, s, |p| - 2, p[|p| - 2], x);
    }
  }

  lemma WalkStaysInBall(g: Graph, s: Layer, n: nat, p: seq<Layer>, x: Layer)
    requires Walk(g, s, p, x) && |p| <= n + 1
    ensures x in Ball(g, s, n)
  {
    WalkEnds(g, s, p, x);
    BallGrows(g, s, |p| - 1, n);
  }

  lemma {:induction false} BallGrows(g: Graph, s: Layer, m: nat, n: nat)
    requires m <= n
    ensures Ball(g, s, m) <= Ball(g, s, n)
  {
    if m == n {
    } else {
      BallGrows(g, s, m, n - 1);
    }
  }

  lemma ReachableInBall(g: Graph, s: Layer, x: Layer)
    ensures Reachable(g, s, x) <==> exists n: nat :: x in Ball(g, s, n)
  {
    if p :| Walk(g, s, p, x) {
      WalkEnds(g, s, p, x);
    }
    if n: nat :| x in Ball(g, s, n) {
      var p := WalkInBall(g, s, n, x);
    }
  }

  /** No layer is delivered before one that is closer to s. */
  ghost predicate ByDistance(g: Graph, s: Layer, order: seq<Layer>) {
    forall i, j, n: nat | 0 <= i < j < |order| && Near(g, s, n, order[j]) :: Near(g, s, n, order[i])
  }

  // ---- the invariant of the breadth-first search -----------------------------------

  /** The first m queued layers are at distance k, the others at k + 1; of the
      ball of radius k all but the first m have had their neighbours queued. */
  ghost predicate Layered(g: Graph, s: Layer, f: Frontier, k: nat, m: nat) {
    && m <= |f.queue| && Distinct(f.queue)
    && (forall i | 0 <= i < m :: f.queue[i] in Ball(g, s, k))
    && (k > 0 ==> forall i | 0 <= i < |f.queue| :: f.queue[i] !in Ball(g, s, k - 1))
    && (forall i | m <= i < |f.queue| :: f.queue[i] in Ball(g, s, k + 1) && f.queue[i] !in Ball(g, s, k))
    && (forall x :: x in f.visited <==> x in Ball(g, s, k) || x in f.queue[m..])
    && (forall x | x in Ball(g, s, k) && x !in f.queue[..m] :: Expanded(g, f, x))
  }

  ghost predicate Expanded(g: Graph, f: Frontier, x: Layer) {
    forall y | y in g.Neighbours(x) :: y in f.visited
  }

  lemma NextBall(g: Graph, s: Layer, k: nat, x: Layer, y: Layer)
    requires x in Ball(g, s, k) && y in g.Neighbours(x)
    ensures y in Ball(g, s, k + 1)
  {
  }

  lemma QueuedIsVisited(g: Graph, s: Layer, f: Frontier, k: nat, m: nat)
    requires Layered(g, s, f, k, m)
    ensures forall i | 0 <= i < |f.queue| :: f.queue[i] in f.visited
  {
    forall i | 0 <= i < |f.queue|
      ensures f.queue[i] in f.visited
    {
      if i >= m {
        assert f.queue[i] == f.queue[m..][i - m];
      }
    }
  }

  lemma PopLayered(g: Graph, s: Layer, f: Frontier, k: nat, m: nat)
    requires Layered(g, s, f, k, m) && m > 0
    ensures Layered(g, s, Pop(g, f), k, m - 1)
  {
    var added := PopAdds(g, f);
    QueuedIsVisited(g, s, f, k, m);
    DistinctTail(f, added, Pop(g, f));
    PopSpheres(g, s, f, k, m, added, Pop(g, f));
    PopVisited(g, s, f, k, m, added, Pop(g, f));
    PopExpanded(g, s, f, k, m, added, Pop(g, f));
  }

  lemma PopSpheres(g: Graph, s: Layer, f: Frontier, k: nat, m: nat, added: seq<Layer>, h: Frontier)
    requires Layered(g, s, f, k, m) && m > 0
    requires Adds(Frontier(f.visited, f.queue[1..]), g.Neighbours(f.queue[0]), added, h)
    ensures forall i | 0 <= i < m - 1 :: h.queue[i] in Ball(g, s, k)
    ensures k > 0 ==> forall i | 0 <= i < |h.queue| :: h.queue[i] !in Ball(g, s, k - 1)
    ensures forall i | m - 1 <= i < |h.queue| :: h.queue[i] in Ball(g, s, k + 1) && h.queue[i] !in Ball(g, s, k)
  {
    if k > 0 { BallGrows(g, s, k - 1, k); }
    forall i | 0 <= i < |h.queue|
      ensures i < m - 1 ==> h.queue[i] in Ball(g, s, k)
      ensures k > 0 ==> h.queue[i] !in Ball(g, s, k - 1)
      ensures m - 1 <= i ==> h.queue[i] in Ball(g, s, k + 1) && h.queue[i] !in Ball(g, s, k)
    {
      if i < |f.queue| - 1 {
        assert h.queue[i] == f.queue[i + 1];
      } else {
        assert h.queue[i] == added[i - (|f.queue| - 1)] && h.queue[i] in added;
        NextBall(g, s, k, f.queue[0], h.queue[i]);
      }
    }
  }

  lemma PopVisited(g: Graph, s: Layer, f: Frontier, k: nat, m: nat, added: seq<Layer>, h: Frontier)
    requires Layered(g, s, f, k, m) && m > 0
    requires Adds(Frontier(f.visited, f.queue[1..]), g.Neighbours(f.queue[0]), added, h)
    ensures forall x :: x in h.visited <==> x in Ball(g, s, k) || x in h.queue[m - 1..]
  {
    assert h.queue[m - 1..] == f.queue[m..] + added;
  }

  lemma PopExpanded(g: Graph, s: Layer, f: Frontier, k: nat, m: nat, added: seq<Layer>, h: Frontier)
    requires Layered(g, s, f, k, m) && m > 0
    requires Adds(Frontier(f.visited, f.queue[1..]), g.Neighbours(f.queue[0]), added, h)
    ensures forall x | x in Ball(g, s, k) && x !in h.queue[..m - 1] :: Expanded(g, h, x)
  {
    FrontTail(f.queue, added, m);
    forall x | x in Ball(g, s, k) && x !in h.queue[..m - 1]
      ensures Expanded(g, h, x)
    {
      if x != f.queue[0] {
        assert Expanded(g, f, x);
        StaysExpanded(g, f, h, x);
      }
    }
  }

  lemma FrontTail(q: seq<Layer>, added: seq<Layer>, m: nat)
    requires 0 < m <= |q|
    ensures q[..m] == [q[0]] + (q[1..] + added)[..m - 1]
  {
  }

  lemma StaysExpanded(g: Graph, f: Frontier, h: Frontier, x: Layer)
    requires Expanded(g, f, x) && f.visited <= h.visited
    ensures Expanded(g, h, x)
  {
  }

  lemma DistinctTail(f: Frontier, added: seq<Layer>, h: Frontier)
    requires f.queue != [] && Distinct(f.queue) && Distinct(added) && h.queue == f.queue[1..] + added
    requires forall i | 0 <= i < |f.queue| :: f.queue[i] in f.visited
    requires forall x | x in added :: x !in f.visited
    ensures Distinct(h.queue) && f.queue[0] !in h.queue
  {
    assert forall i | 0 <= i < |added| :: added[i] in added;
    assert forall i | 0 <= i < |h.queue| ::
        h.queue[i] == if i < |f.queue| - 1 then f.queue[i + 1] else added[i - (|f.queue| - 1)];
  }

  /** With no layer left at distance k, the frontier is the next sphere. */
  lemma NextSphere(g: Graph, s: Layer, f: Frontier, k: nat)
    requires Layered(g, s, f, k, 0)
    ensures Layered(g, s, f, k + 1, |f.queue|)
  {
    assert f.queue[0..] == f.queue && f.queue[..|f.queue|] == f.queue;
    forall x
      ensures x in f.visited <==> x in Ball(g, s, k + 1)
    {
      if x in Ball(g, s, k + 1) && x !in Ball(g, s, k) {
        var y :| y in Ball(g, s, k) && x in g.Neighbours(y);
        assert Expanded(g, f, y);
      }
      BallGrows(g, s, k, k + 1);
    }
    forall x | x in Ball(g, s, k + 1) && x !in f.queue
      ensures Expanded(g, f, x)
    {
      assert x in f.visited;
    }
  }

  lemma ExpandedStep(g: Graph, f: Frontier, y: Layer, x: Layer)
    requires y in f.visited && Expanded(g, f, y) && (x == y || x in g.Neighbours(y))
    ensures x in f.visited
  {
  }

  lemma {:induction false} BallInside(g: Graph, s: Layer, f: Frontier, n: nat, x: Layer)
    requires s in f.visited && (forall y | y in f.visited :: Expanded(g, f, y)) && x in Ball(g, s, n)
    ensures x in f.visited
  {
    if n == 0 {
    } else {
      var y := BallStep(g, s, n, x);
      BallInside(g, s, f, n - 1, y);
      ExpandedStep(g, f, y, x);
    }
  }

  /** An empty queue means that the search has reached everything. */
  lemma AllReached(g: Graph, s: Layer, f: Frontier, k: nat, n: nat)
    requires Layered(g, s, f, k, 0) && f.queue == []
    ensures Ball(g, s, n) <= f.visited
  {
    assert s in Ball(g, s, 0);
    BallGrows(g, s, 0, k);
    forall x | x in Ball(g, s, n)
      ensures x in f.visited
    {
      BallInside(g, s, f, n, x);
    }
  }

  /** `order` is what is left to deliver from f on: the layers reachable and
      not yet delivered, each once, closer ones first. */
  ghost predicate RestOf(g: Graph, s: Layer, f: Frontier, order: seq<Layer>) {
    && (forall y :: y in order <==> Reachable(g, s, y) && (y !in f.visited || y in f.queue))
    && Distinct(order) && ByDistance(g, s, order)
  }

  ghost predicate Outside(g: Graph, s: Layer, k: nat, order: seq<Layer>) {
    k > 0 ==> forall y | y in order :: y !in Ball(g, s, k - 1)
  }

  lemma {:induction false} DeliversTheRest(g: Graph, s: Layer, f: Frontier, k: nat, m: nat)
    requires Within(g, f) && Layered(g, s, f, k, m) && (m > 0 || f.queue == [])
    ensures RestOf(g, s, f, Delivered(g, f)) && Outside(g, s, k, Delivered(g, f))
    decreases Measure(g, f)
  {
    if f.queue == [] {
      NothingLeft(g, s, f, k);
    } else {
      var h := Pop(g, f);
      MeasureDrops(g, f);
      PopLayered(g, s, f, k, m);
      if m > 1 {
        DeliversTheRest(g, s, h, k, m - 1);
      } else {
        NextSphere(g, s, h, k);
        DeliversTheRest(g, s, h, k + 1, |h.queue|);
        OutsideSmaller(g, s, k, Delivered(g, h));
      }
      FirstThenRest(g, s, f, k, m, Delivered(g, h));
    }
  }

  lemma OutsideSmaller(g: Graph, s: Layer, k: nat, order: seq<Layer>)
    requires Outside(g, s, k + 1, order)
    ensures Outside(g, s, k, order)
  {
    if k > 0 { BallGrows(g, s, k - 1, k); }
  }

  lemma NothingLeft(g: Graph, s: Layer, f: Frontier, k: nat)
    requires Layered(g, s, f, k, 0) && f.queue == []
    ensures forall y | Reachable(g, s, y) :: y in f.visited
  {
    forall y | Reachable(g, s, y)
      ensures y in f.visited
    {
      ReachableInBall(g, s, y);
      var n: nat :| y in Ball(g, s, n);
      AllReached(g, s, f, k, n);
    }
  }

  lemma FirstThenRest(g: Graph, s: Layer, f: Frontier, k: nat, m: nat, rest: seq<Layer>)
    requires Layered(g, s, f, k, m) && m > 0 && RestOf(g, s, Pop(g, f), rest) && Outside(g, s, k, rest)
    ensures RestOf(g, s, f, [f.queue[0]] + rest) && Outside(g, s, k, [f.queue[0]] + rest)
  {
    var x, h := f.queue[0], Pop(g, f);
    var added := PopAdds(g, f);
    QueuedIsVisited(g, s, f, k, m);
    DistinctTail(f, added, h);
    assert x in Ball(g, s, k);
    assert x !in rest;
    ReachableInBall(g, s, x);
    ByDistanceFrom(g, s, k, x, rest);
    forall y
      ensures y in [x] + rest <==> Reachable(g, s, y) && (y !in f.visited || y in f.queue)
    {
      PopMembers(g, f, added, h, y);
    }
  }

  lemma PopMembers(g: Graph, f: Frontier, added: seq<Layer>, h: Frontier, y: Layer)
    requires f.queue != [] && Adds(Frontier(f.visited, f.queue[1..]), g.Neighbours(f.queue[0]), added, h)
    ensures y == f.queue[0] || (y !in h.visited || y in h.queue) <==> y == f.queue[0] || y !in f.visited || y in f.queue
  {
    assert f.queue == [f.queue[0]] + f.queue[1..];
  }

  lemma FarFrom(g: Graph, s: Layer, k: nat, n: nat, y: Layer)
    requires k > 0 ==> y !in Ball(g, s, k - 1)
    requires y in Ball(g, s, n)
    ensures k <= n
  {
    if n < k {
      BallGrows(g, s, n, k - 1);
    }
  }

  lemma ByDistanceFrom(g: Graph, s: Layer, k: nat, x: Layer, rest: seq<Layer>)
    requires x in Ball(g, s, k) && Outside(g, s, k, rest) && ByDistance(g, s, rest)
    ensures ByDistance(g, s, [x] + rest)
  {
    var order := [x] + rest;
    forall i, j, n: nat | 0 <= i < j < |order| && Near(g, s, n, order[j])
      ensures Near(g, s, n, order[i])
    {
      if i > 0 {
        assert order[j] == rest[j - 1] && order[i] == rest[i - 1];
      } else {
        assert order[j] in rest;
        BallIsWalks(g, s, n, order[j]);
        FarFrom(g, s, k, n, order[j]);
        BallGrows(g, s, k, n);
        BallIsWalks(g, s, n, x);
      }
    }
  }

  // ---- the order among layers of the same distance --------------------------------------

  function Append(order: seq<Layer>, x: Layer): seq<Layer> {
    if x in order then order else order + [x]
  }

  function AppendAll(order: seq<Layer>, xs: seq<Layer>): seq<Layer> {
    if xs == [] then order else Append(AppendAll(order, xs[..|xs| - 1]), xs[|xs| - 1])
  }

  /** s, and then for each layer of `order` its neighbours that are not yet
      listed. */
  function Discovered(g: Graph, s: Layer, order: seq<Layer>): seq<Layer> {
    if order == [] then [s]
    else AppendAll(Discovered(g, s, order[..|order| - 1]), g.Neighbours(order[|order| - 1]))
  }

  /** The layers listed so far are those delivered and those queued. */
  ghost predicate Lists(done: seq<Layer>, f: Frontier, listed: seq<Layer>) {
    listed == done + f.queue && forall x :: x in f.visited <==> x in listed
  }

  lemma {:induction false} PushAllAppends(done: seq<Layer>, f: Frontier, listed: seq<Layer>, xs: seq<Layer>)
    requires Lists(done, f, listed)
    ensures Lists(done, PushAll(f, xs), AppendAll(listed, xs))
  {
    if xs == [] {
    } else {
      PushAllAppends(done, f, listed, xs[..|xs| - 1]);
    }
  }

  /** Each layer delivered is followed by those of its neighbours that were not
      listed before, in their order. */
  lemma {:induction false} DeliversAsDiscovered(g: Graph, s: Layer, f: Frontier, done: seq<Layer>, all: seq<Layer>)
    requires Within(g, f) && Lists(done, f, Discovered(g, s, done)) && all == done + Delivered(g, f)
    ensures Discovered(g, s, all) == all
    decreases Measure(g, f)
  {
    if f.queue == [] {
      assert all == done;
    } else {
      MeasureDrops(g, f);
      PopDiscovers(g, s, f, done);
      DeliveredFirst(g, f, done);
      DeliversAsDiscovered(g, s, Pop(g, f), done + [f.queue[0]], all);
    }
  }

  lemma DeliveredFirst(g: Graph, f: Frontier, done: seq<Layer>)
    requires Within(g, f) && f.queue != [] && Within(g, Pop(g, f))
    ensures done + Delivered(g, f) == done + [f.queue[0]] + Delivered(g, Pop(g, f))
  {
    var rest := Delivered(g, Pop(g, f));
    assert Delivered(g, f) == [f.queue[0]] + rest;
    assert done + ([f.queue[0]] + rest) == done + [f.queue[0]] + rest;
  }

  lemma PopDiscovers(g: Graph, s: Layer, f: Frontier, done: seq<Layer>)
    requires f.queue != [] && Lists(done, f, Discovered(g, s, done))
    ensures Lists(done + [f.queue[0]], Pop(g, f), Discovered(g, s, done + [f.queue[0]]))
  {
    var x := f.queue[0];
    assert done + f.queue == done + [x] + f.queue[1..];
    PushAllAppends(done + [x], Frontier(f.visited, f.queue[1..]), Discovered(g, s, done), g.Neighbours(x));
    assert (done + [x])[..|done|] == done;
  }

  // ---- the iterator -----------------------------------------------------------------

  /** The layer the iteration starts from: the first consumer of the first input. */
  function StartLayer(g: Graph): Option<Layer> {
    if g.inputs != [] && g.inputs[0] != [] then Some(g.inputs[0][0]) else None
  }

  class Iterator {
    var visited: set<Layer>
    var nextLayersToVisit: seq<Layer>
    var currentLayer: Option<Layer>

    function State(): Frontier
      reads this
    {
      Frontier(visited, nextLayersToVisit)
    }

    /** The current layer is the front of the queue. */
    predicate AtFront()
      reads this
    {
      currentLayer == if nextLayersToVisit == [] then None else Some(nextLayersToVisit[0])
    }

    /** The end iterator. */
    constructor ()
      ensures State() == Frontier({}, []) && AtFront()
    {
      visited := {};
      nextLayersToVisit := [];
      currentLayer := None;
    }

    constructor Begin(g: Graph)
      ensures AtFront()
      ensures State() == if g.inputs != [] && g.inputs[0] != [] then Frontier({g.inputs[0][0]}, [g.inputs[0][0]])
                         else Frontier({}, [])
    {
      visited := {};
      nextLayersToVisit := [];
      currentLayer := None;
      if g.inputs != [] && g.inputs[0] != [] {
        currentLayer := Some(g.inputs[0][0]);
        nextLayersToVisit := [g.inputs[0][0]];
        visited := {g.inputs[0][0]};
      }
    }

    /** Queues a layer unless it has been seen. */
    method Visit(x: Layer)
      modifies this`visited, this`nextLayersToVisit
      ensures State() == Push(old(State()), x)
    {
      if x !in visited {
        nextLayersToVisit := nextLayersToVisit + [x];
        visited := visited + {x};
      }
    }

    /** The children, output by output. */
    method VisitOutputs(outputs: seq<seq<Layer>>)
      modifies this`visited, this`nextLayersToVisit
      ensures State() == PushAll(old(State()), Flatten(outputs))
    {
      for i := 0 to |outputs|
        invariant State() == PushAll(old(State()), Flatten(outputs[..i]))
      {
        VisitAll(outputs[i]);
        FlattenOneMore(outputs, i);
        PushAllAppend(old(State()), Flatten(outputs[..i]), outputs[i]);
      }
      assert outputs[..|outputs|] == outputs;
    }

    method VisitAll(children: seq<Layer>)
      modifies this`visited, this`nextLayersToVisit
      ensures State() == PushAll(old(State()), children)
    {
      for j := 0 to |children|
        invariant State() == PushAll(old(State()), children[..j])
      {
        Visit(children[j]);
        PushOneMore(old(State()), children, j);
      }
      assert children[..|children|] == children;
    }

    /** The parents that are still alive. */
    method VisitCreators(creators: seq<Option<Layer>>)
      modifies this`visited, this`nextLayersToVisit
      ensures State() == PushAll(old(State()), Alive(creators))
    {
      for i := 0 to |creators|
        invariant State() == PushAll(old(State()), Alive(creators[..i]))
      {
        AliveOneMore(creators, i);
        if creators[i].Some? {
          Visit(creators[i].value);
          PushLast(old(State()), Alive(creators[..i]), creators[i].value);
        }
      }
      assert creators[..|creators|] == creators;
    }

    method Next(g: Graph) returns (layer: Option<Layer>)
      requires forall x | x in nextLayersToVisit :: x in g.links
      modifies this`visited, this`nextLayersToVisit
      ensures State() == Pop(g, old(State()))
      ensures layer == if nextLayersToVisit == [] then None else Some(nextLayersToVisit[0])
    {
      if nextLayersToVisit == [] {
        return None;
      }
      var nextLayer := nextLayersToVisit[0];
      nextLayersToVisit := nextLayersToVisit[1..];
      ghost var popped := State();
      VisitOutputs(g.links[nextLayer].outputs);
      VisitCreators(g.links[nextLayer].creators);
      PushAllAppend(popped, Flatten(g.links[nextLayer].outputs), Alive(g.links[nextLayer].creators));
      return if nextLayersToVisit == [] then None else Some(nextLayersToVisit[0]);
    }

    method Increment(g: Graph)
      requires forall x | x in nextLayersToVisit :: x in g.links
      modifies this
      ensures State() == Pop(g, old(State())) && AtFront()
    {
      currentLayer := Next(g);
    }

    /** The network field is never set, so only the current layers differ. */
    method Equals(that: Iterator) returns (equal: bool)
      ensures equal <==> currentLayer == that.currentLayer
    {
      equal := currentLayer == that.currentLayer;
    }
  }

  lemma PushLast(f: Frontier, done: seq<Layer>, x: Layer)
    ensures PushAll(f, done + [x]) == Push(PushAll(f, done), x)
  {
    assert (done + [x])[..|done|] == done;
  }

  lemma PushOneMore(f: Frontier, xs: seq<Layer>, j: nat)
    requires j < |xs|
    ensures PushAll(f, xs[..j + 1]) == Push(PushAll(f, xs[..j]), xs[j])
  {
    assert xs[..j + 1][..j] == xs[..j];
  }

  lemma {:induction false} PushAllAppend(f: Frontier, a: seq<Layer>, b: seq<Layer>)
    ensures PushAll(f, a + b) == PushAll(PushAll(f, a), b)
  {
    if b == [] {
      assert a + b == a;
    } else {
      assert (a + b)[..|a + b| - 1] == a + b[..|b| - 1];
      PushAllAppend(f, a, b[..|b| - 1]);
    }
  }

  lemma AliveOneMore(creators: seq<Option<Layer>>, i: nat)
    requires i < |creators|
    ensures Alive(creators[..i + 1]) ==
            if creators[i].Some? then Alive(creators[..i]) + [creators[i].value] else Alive(creators[..i])
  {
    assert creators[..i + 1][..i] == creators[..i];
  }

  lemma StartIsLayered(g: Graph, s: Layer)
    requires g.Closed() && s in g.links
    ensures Within(g, Frontier({s}, [s])) && Layered(g, s, Frontier({s}, [s]), 0, 1)
  {
    assert [s][1..] == [] && [s][..1] == [s];
  }

  /** begin() .. end(): the layers linked to the start layer, in either direction
      and over any distance, each once and in order of distance. */
  method Layers(g: Graph) returns (layers: seq<Layer>)
    requires g.Closed()
    ensures StartLayer(g).None? ==> layers == []
    ensures StartLayer(g).Some? ==> forall x :: x in layers <==> Reachable(g, StartLayer(g).value, x)
    ensures StartLayer(g).Some? ==> ByDistance(g, StartLayer(g).value, layers)
    ensures StartLayer(g).Some? ==> layers == Discovered(g, StartLayer(g).value, layers)
    ensures Distinct(layers)
  {
    var it := new Iterator.Begin(g);
    var end := new Iterator();
    if StartLayer(g).Some? {
      StartIsLayered(g, StartLayer(g).value);
      DeliversTheRest(g, StartLayer(g).value, it.State(), 0, 1);
      assert Delivered(g, it.State()) == [] + Delivered(g, it.State());
      DeliversAsDiscovered(g, StartLayer(g).value, it.State(), [], Delivered(g, it.State()));
    }
    layers := Drain(g, it, end);
  }

  /** Advancing from f yields the layers of `rest` and then the end. */
  ghost predicate Yields(g: Graph, f: Frontier, rest: seq<Layer>)
    decreases |rest|
  {
    if f.queue == [] then rest == []
    else
      && rest != [] && rest[0] == f.queue[0] && (forall x | x in f.queue :: x in g.links)
      && Yields(g, Pop(g, f), rest[1..])
  }

  lemma {:induction false} YieldsDelivered(g: Graph, f: Frontier)
    requires Within(g, f)
    ensures Yields(g, f, Delivered(g, f))
    decreases Measure(g, f)
  {
    if f.queue == [] {
    } else {
      MeasureDrops(g, f);
      YieldsDelivered(g, Pop(g, f));
    }
  }

  /** `for (; it != end; ++it)` */
  method Drain(g: Graph, it: Iterator, end: Iterator) returns (layers: seq<Layer>)
    requires it != end && it.AtFront() && end.currentLayer == None && Within(g, it.State())
    modifies it
    ensures layers == Delivered(g, old(it.State())) && it.currentLayer == None
  {
    YieldsDelivered(g, it.State());
    layers := DrainRest(g, it, end, Delivered(g, it.State()));
  }

  lemma Regrouped<T>(a: seq<T>, b: seq<T>)
    requires b != []
    ensures a + [b[0]] + b[1..] == a + b
  {
  }

  method DrainRest(g: Graph, it: Iterator, end: Iterator, ghost all: seq<Layer>) returns (layers: seq<Layer>)
    requires it != end && it.AtFront() && end.currentLayer == None && Yields(g, it.State(), all)
    modifies it
    ensures layers == all && it.currentLayer == None
  {
    layers := [];
    ghost var rest := all;
    var atEnd := it.Equals(end);
    while !atEnd
      invariant it.AtFront() && end.currentLayer == None && Yields(g, it.State(), rest)
      invariant layers + rest == all && (atEnd <==> rest == [])
      decreases |rest|
    {
      Regrouped(layers, rest);
      layers := layers + [it.currentLayer.value];
      it.Increment(g);
      rest := rest[1..];
      atEnd := it.Equals(end);
    }
  }

  /** size(): the number of layers linked to the start layer. */
  method Size(g: Graph) returns (n: nat)
    requires g.Closed()
    ensures StartLayer(g).None? ==> n == 0
    ensures StartLayer(g).Some? ==> n == |set x | x in g.links && Reachable(g, StartLayer(g).value, x)|
  {
    var layers := Layers(g);
    n := |layers|;
    if StartLayer(g).Some? {
      var s := StartLayer(g).value;
      DistinctCount(layers);
      forall x | Reachable(g, s, x)
        ensures x in g.links
      {
        var p :| Walk(g, s, p, x);
        WalkWithin(g, s, p, x);
      }
      assert Elems(layers) == set x | x in g.links && Reachable(g, s, x);
    }
  }

  lemma WalkWithin(g: Graph, s: Layer, p: seq<Layer>, x: Layer)
    requires g.Closed() && s in g.links && Walk(g, s, p, x)
    ensures x in g.links
  {
    if |p| > 1 {
      assert g.Linked(p[|p| - 2], x);
    }
  }
}
