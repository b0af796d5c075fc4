/** The topological iterator over a network: depth-first search with loop
    detection, then the reversed post-order. */
module NetworkIterator {
  import opened Options
  import opened Networks
  import opened Sequences

  datatype Outcome = Done | LoopFound | LayerMissing(id: Id)

  // ---- what a post-order means -------------------------------------------------

  /** Whatever a layer leads to stands before it, at every place it stands. */
  ghost predicate PostOrdered(net: Network, s: seq<Id>) {
    forall i: nat | i < |s| :: Preceded(net, s, i)
  }

  ghost predicate Preceded(net: Network, s: seq<Id>, i: nat)
    requires i < |s|
  {
    forall v | net.Edge(s[i], v) :: v in s[..i]
  }

  ghost predicate Sorted(net: Network, s: seq<Id>) {
    forall i, j | 0 <= i < |s| && 0 <= j < |s| && net.Edge(s[i], s[j]) :: i < j
  }

  function Reversed(s: seq<Id>): (r: seq<Id>)
    ensures |r| == |s| && forall i | 0 <= i < |s| :: r[i] == s[|s| - 1 - i]
  {
    if s == [] then [] else Reversed(s[1..]) + [s[0]]
  }

  lemma ReversedMembers(s: seq<Id>, x: Id)
    ensures x in Reversed(s) <==> x in s
  {
    if x in s {
      var i :| 0 <= i < |s| && s[i] == x;
      assert Reversed(s)[|s| - 1 - i] == x;
    }
  }

  lemma ReversedSorted(net: Network, s: seq<Id>)
    requires PostOrdered(net, s) && Distinct(s)
    ensures Sorted(net, Reversed(s)) && Distinct(Reversed(s))
  {
    var r := Reversed(s);
    forall i, j | 0 <= i < |r| && 0 <= j < |r| && net.Edge(r[i], r[j])
      ensures i < j
    {
      assert Preceded(net, s, |s| - 1 - i);
      assert r[i] == s[|s| - 1 - i] && r[j] in s[..|s| - 1 - i];
    }
  }

  /** In a post-order a path only leads back, so no layer of it is on a loop. */
  lemma {:induction false} PathLeadsBack(net: Network, s: seq<Id>, i: nat, p: seq<Id>)
    requires PostOrdered(net, s) && i < |s| && net.Path(p) && p[0] == s[i] && |p| > 1
    ensures p[|p| - 1] in s[..i]
    decreases |p|
  {
    assert Preceded(net, s, i) && net.Edge(p[0], p[1]);
    var j :| 0 <= j < i && s[j] == p[1];
    if |p| == 2 {
    } else {
      PathLeadsBack(net, s, j, p[1..]);
    }
  }

  lemma {:induction false} PostOrderHasNoLoop(net: Network, s: seq<Id>, u: Id)
    requires PostOrdered(net, s) && u in s
    ensures !net.OnCycle(u)
  {
    if net.OnCycle(u) {
      var p :| net.Leads(u, p, u) && |p| > 1;
      var i := FirstAt(s, u);
      PathLeadsBack(net, s, i, p);
      assert false;
    }
  }

  lemma FirstAt(s: seq<Id>, u: Id) returns (i: nat)
    requires u in s
    ensures i < |s| && s[i] == u && u !in s[..i]
  {
    i := 0;
    while s[i] != u
      invariant i < |s| && u in s[i..] && u !in s[..i]
      decreases |s| - i
    {
      assert s[i..] == [s[i]] + s[i + 1..];
      i := i + 1;
    }
  }

  // ---- heads ---------------------------------------------------------------------

  /** One of the first n heads leads to x. */
  ghost predicate Led(net: Network, heads: seq<Option<Id>>, n: nat, x: Id)
    requires n <= |heads|
  {
    n > 0 && (Led(net, heads, n - 1, x) || (heads[n - 1].Some? && net.Reaches(heads[n - 1].value, x)))
  }

  lemma {:induction false} LedBy(net: Network, heads: seq<Option<Id>>, n: nat, x: Id)
    requires n <= |heads|
    ensures Led(net, heads, n, x) <==> exists i :: 0 <= i < n && heads[i].Some? && net.Reaches(heads[i].value, x)
  {
    if n == 0 {
    } else {
      LedBy(net, heads, n - 1, x);
    }
  }

  ghost predicate FromHeads(net: Network, heads: seq<Option<Id>>, x: Id) {
    Led(net, heads, |heads|, x)
  }

  /** No head among the first n is a layer an earlier head leads to. */
  ghost predicate IndependentUpTo(net: Network, heads: seq<Option<Id>>, n: nat)
    requires n <= |heads|
  {
    forall j | 0 <= j < n && heads[j].Some? :: !Led(net, heads, j, heads[j].value)
  }

  ghost predicate Independent(net: Network, heads: seq<Option<Id>>) {
    IndependentUpTo(net, heads, |heads|)
  }

  /** Nothing the heads lead to is on a loop or connected to a missing layer. */
  ghost predicate Sortable(net: Network, heads: seq<Option<Id>>) {
    forall u | FromHeads(net, heads, u) :: !net.OnCycle(u) && forall v | net.Edge(u, v) :: v in net.layers
  }

  /** What completed searches from the first n heads leave as post-order. */
  ghost predicate Searched(net: Network, heads: seq<Option<Id>>, n: nat, s: seq<Id>)
    requires n <= |heads|
  {
    && PostOrdered(net, s)
    && (forall x | x in s :: x in net.layers && Led(net, heads, n, x))
    && (forall i | 0 <= i < n && heads[i].Some? :: heads[i].value in s)
    && (Distinct(s) <==> IndependentUpTo(net, heads, n))
  }

  /** The post-order is closed, so it holds everything the heads lead to. */
  lemma ReachedIsListed(net: Network, heads: seq<Option<Id>>, n: nat, s: seq<Id>, x: Id)
    requires n <= |heads| && Searched(net, heads, n, s)
    ensures x in s <==> Led(net, heads, n, x)
  {
    LedBy(net, heads, n, x);
    if Led(net, heads, n, x) {
      var i :| 0 <= i < n && heads[i].Some? && net.Reaches(heads[i].value, x);
      ReachableIsListed(net, s, heads[i].value, x);
    }
  }

  lemma ReachableIsListed(net: Network, s: seq<Id>, u: Id, x: Id)
    requires PostOrdered(net, s) && u in s && net.Reaches(u, x)
    ensures x in s
  {
    var p :| net.Leads(u, p, x);
    var i :| 0 <= i < |s| && s[i] == u;
    if |p| > 1 {
      PathLeadsBack(net, s, i, p);
    }
  }

  lemma ListedNext(net: Network, s: seq<Id>, layer: Id, to: Id)
    requires PostOrdered(net, s) && layer in s && net.Edge(layer, to)
    ensures to in s
  {
    var i :| 0 <= i < |s| && s[i] == layer;
    assert Preceded(net, s, i);
  }

  lemma SearchedIsSortable(net: Network, heads: seq<Option<Id>>, s: seq<Id>)
    requires Searched(net, heads, |heads|, s)
    ensures Sortable(net, heads)
  {
    forall u | FromHeads(net, heads, u)
      ensures !net.OnCycle(u)
      ensures forall v | net.Edge(u, v) :: v in net.layers
    {
      ReachedIsListed(net, heads, |heads|, s, u);
      PostOrderHasNoLoop(net, s, u);
      forall v | net.Edge(u, v)
        ensures v in net.layers
      {
        ListedNext(net, s, u, v);
      }
    }
  }

  // ---- the search ------------------------------------------------------------------

  /** Layers on the path are entered but not left (false); all other visited
      layers have been left (true) and stand in the post-order. */
  ghost predicate SearchInv(net: Network, visited: map<Id, bool>, s: seq<Id>, path: seq<Id>) {
    && (forall x :: x in visited <==> x in path || x in s)
    && (forall x | x in visited :: visited[x] <==> x !in path)
    && (forall x | x in visited :: x in net.layers)
    && PostOrdered(net, s)
    && (path != [] ==> net.Path(path))
  }

  /** Where a search from the heads of `path` meets a loop or a missing layer. */
  ghost predicate Meets(net: Network, head: Id, outcome: Outcome) {
    match outcome
    case Done => true
    case LoopFound => exists u :: net.Reaches(head, u) && net.OnCycle(u)
    case LayerMissing(id) => id !in net.layers && exists u :: net.Reaches(head, u) && net.Edge(u, id)
  }

  /** What a search that leaves `layer` has added to the post-order. */
  ghost predicate Added(net: Network, before: map<Id, bool>, s: seq<Id>, layer: Id,
                        after: map<Id, bool>, t: seq<Id>) {
    && s < t && layer in t
    && (forall i | |s| <= i < |t| :: net.Reaches(layer, t[i]))
    && (layer in before ==> t == s + [layer])
    && (layer !in before ==> (forall i | |s| <= i < |t| :: t[i] !in before) && (Distinct(s) ==> Distinct(t)))
    && (forall x | x in before :: x in after)
  }

  lemma EnterLayer(net: Network, visited: map<Id, bool>, s: seq<Id>, path: seq<Id>, layer: Id)
    requires SearchInv(net, visited, s, path) && layer in net.layers && layer !in path
    requires path != [] ==> net.Edge(path[|path| - 1], layer)
    ensures SearchInv(net, visited[layer := false], s, path + [layer])
  {
  }

  lemma LeaveLayer(net: Network, visited: map<Id, bool>, s: seq<Id>, path: seq<Id>, layer: Id)
    requires SearchInv(net, visited, s, path + [layer]) && layer !in path
    requires forall v | net.Edge(layer, v) :: v in s
    ensures SearchInv(net, visited[layer := true], s + [layer], path)
  {
    var t := s + [layer];
    forall i: nat | i < |t|
      ensures Preceded(net, t, i)
    {
      assert t[..i] == s[..i];
      assert i < |s| ==> Preceded(net, s, i);
    }
    if path != [] {
      assert forall i | 0 <= i < |path| :: path[i] == (path + [layer])[i];
    }
  }

  /** An edge back to the path closes a loop. */
  lemma LoopClosed(net: Network, trail: seq<Id>, to: Id)
    requires net.Path(trail) && to in trail && net.Edge(trail[|trail| - 1], to)
    ensures Meets(net, trail[0], LoopFound)
  {
    var i :| 0 <= i < |trail| && trail[i] == to;
    var loop := trail[i..] + [to];
    assert net.Leads(trail[0], trail[..i + 1], to) && net.Leads(to, loop, to);
    assert net.Reaches(trail[0], to) && net.OnCycle(to);
  }

  lemma MissingMet(net: Network, trail: seq<Id>, to: Id)
    requires net.Path(trail) && to !in net.layers && net.Edge(trail[|trail| - 1], to)
    ensures Meets(net, trail[0], LayerMissing(to))
  {
    assert net.Leads(trail[0], trail, trail[|trail| - 1]);
  }

  /** The same while the connections of `layer` are being followed. */
  ghost predicate Adding(net: Network, before: map<Id, bool>, s: seq<Id>, layer: Id,
                         now: map<Id, bool>, t: seq<Id>) {
    && s <= t && layer in now
    && (forall i | |s| <= i < |t| :: net.Reaches(layer, t[i]))
    && (layer in before ==> t == s)
    && (layer !in before ==>
          (forall i | |s| <= i < |t| :: t[i] !in before && t[i] != layer) && (Distinct(s) ==> Distinct(t)))
    && (forall x | x in before :: x in now)
  }

  lemma AddingMore(net: Network, before: map<Id, bool>, s: seq<Id>, layer: Id, now: map<Id, bool>, t: seq<Id>,
                   to: Id, after: map<Id, bool>, u: seq<Id>)
    requires Adding(net, before, s, layer, now, t) && layer !in before && to !in now
    requires net.Edge(layer, to) && Added(net, now, t, to, after, u)
    ensures Adding(net, before, s, layer, after, u)
  {
    forall i | |s| <= i < |u|
      ensures net.Reaches(layer, u[i])
      ensures u[i] !in before && u[i] != layer
    {
      if i < |t| {
        assert u[i] == t[i];
      } else {
        ReachesNext(net, layer, to);
        ReachesThrough(net, layer, to, u[i]);
      }
    }
  }

  lemma AddingDone(net: Network, before: map<Id, bool>, s: seq<Id>, layer: Id, now: map<Id, bool>, t: seq<Id>)
    requires Adding(net, before, s, layer, now, t)
    requires layer !in before ==> layer !in s
    ensures Added(net, before, s, layer, now[layer := true], t + [layer])
  {
    ReachesSelf(net, layer);
  }

  /** Measure of the recursion: layers not entered yet. */
  ghost function Unvisited(net: Network, visited: map<Id, bool>): set<Id> {
    set x | x in net.layers && x !in visited
  }

  /** One more head: the post-order stays free of duplicates exactly while no
      head is already in it. */
  lemma NextHead(net: Network, heads: seq<Option<Id>>, k: nat, visited: map<Id, bool>, s: seq<Id>,
                 after: map<Id, bool>, t: seq<Id>)
    requires k < |heads| && heads[k].Some? && SearchInv(net, visited, s, []) && Searched(net, heads, k, s)
    requires SearchInv(net, after, t, []) && Added(net, visited, s, heads[k].value, after, t)
    ensures Searched(net, heads, k + 1, t)
  {
    var h := heads[k].value;
    forall x | x in t
      ensures Led(net, heads, k + 1, x)
    {
      var i :| 0 <= i < |t| && t[i] == x;
      if i < |s| {
        assert s[i] == x;
      }
    }
    assert forall x | x in s :: x in t;
    ReachedIsListed(net, heads, k, s, h);
    DistinctStep(s, t, h);
  }

  lemma DistinctStep(s: seq<Id>, t: seq<Id>, h: Id)
    requires s < t && h in t && (h in s ==> t == s + [h]) && (h !in s && Distinct(s) ==> Distinct(t))
    ensures Distinct(t) <==> Distinct(s) && h !in s
  {
    assert forall i | 0 <= i < |s| :: t[i] == s[i];
    if h in s {
      var j :| 0 <= j < |s| && s[j] == h;
      assert t[j] == t[|s|];
    }
  }

  class Iterator {
    const network: Network
    var sortedLayers: seq<Id>
    var currentLayer: Option<Id>
    var currentIdx: nat

    /** A search from one layer; `path` leads from a head to the caller. */
    method Dfs(visited: map<Id, bool>, layer: Id, ghost path: seq<Id>)
      returns (visited': map<Id, bool>, outcome: Outcome)
      requires SearchInv(network, visited, sortedLayers, path)
      requires layer in network.layers && layer !in path && (layer in visited ==> path == [])
      requires path != [] ==> network.Edge(path[|path| - 1], layer)
      modifies this`sortedLayers
      ensures outcome.Done? ==> SearchInv(network, visited', sortedLayers, path)
      ensures outcome.Done? ==> Added(network, visited, old(sortedLayers), layer, visited', sortedLayers)
      ensures Meets(network, (path + [layer])[0], outcome)
      decreases Unvisited(network, visited)
    {
      ghost var trail := path + [layer];
      visited' := visited[layer := false];
      EnterLayer(network, visited, sortedLayers, path, layer);
      var connections := network.GetLayerConnections(layer);
      var k := 0;
      while k < |connections|
        invariant 0 <= k <= |connections|
        invariant SearchInv(network, visited', sortedLayers, trail)
        invariant Adding(network, visited, old(sortedLayers), layer, visited', sortedLayers)
        invariant forall j | 0 <= j < k && connections[j].to != layer :: connections[j].to in sortedLayers
      {
        var to := connections[k].to;
        k := k + 1;
        if to == layer {
          continue;
        }
        assert connections[k - 1] in connections && network.Edge(layer, to);
        if to !in network.layers {
          outcome := LayerMissing(to);
          MissingMet(network, trail, to);
          return;
        }
        if to in visited' {
          if !visited'[to] {
            outcome := LoopFound;
            LoopClosed(network, trail, to);
            return;
          }
          continue;
        }
        if layer in visited {
          ListedNext(network, sortedLayers, layer, to);
          assert false;
        }
        assert layer in Unvisited(network, visited) - Unvisited(network, visited');
        assert Unvisited(network, visited') <= Unvisited(network, visited);
        ghost var mid, s := visited', sortedLayers;
        visited', outcome := Dfs(visited', to, trail);
        if !outcome.Done? {
          return;
        }
        AddingMore(network, visited, old(sortedLayers), layer, mid, s, to, visited', sortedLayers);
      }
      LeaveLayer(network, visited', sortedLayers, path, layer);
      AddingDone(network, visited, old(sortedLayers), layer, visited', sortedLayers);
      sortedLayers := sortedLayers + [layer];
      visited' := visited'[layer := true];
      outcome := Done;
    }

    /** The end iterator; also the state in which `Begin` starts. */
    constructor (network: Network)
      ensures this.network == network && sortedLayers == [] && currentLayer == None && currentIdx == 0
    {
      this.network := network;
      sortedLayers := [];
      currentLayer := None;
      currentIdx := 0;
    }

    method ForestDfs(heads: seq<Option<Id>>) returns (outcome: Outcome)
      requires sortedLayers == []
      requires forall i | 0 <= i < |heads| && heads[i].Some? :: heads[i].value in network.layers
      modifies this`sortedLayers
      ensures outcome.Done? ==> Searched(network, heads, |heads|, sortedLayers)
      ensures !outcome.Done? ==>
                exists i :: 0 <= i < |heads| && heads[i].Some? && Meets(network, heads[i].value, outcome)
    {
      outcome := Done;
      var visited: map<Id, bool> := map[];
      for k := 0 to |heads|
        invariant SearchInv(network, visited, sortedLayers, [])
        invariant Searched(network, heads, k, sortedLayers)
        invariant outcome == Done
      {
        if heads[k].Some? {
          ghost var before, s := visited, sortedLayers;
          visited, outcome := Dfs(visited, heads[k].value, []);
          if !outcome.Done? {
            assert [] + [heads[k].value] == [heads[k].value];
            return;
          }
          NextHead(network, heads, k, before, s, visited, sortedLayers);
        } else {
          SkipHead(network, heads, k, sortedLayers);
        }
      }
    }

    /** The iterator stands at position k of its list. */
    ghost predicate At(k: nat)
      reads this
    {
      if k < |sortedLayers| then currentLayer == Some(sortedLayers[k]) && currentIdx == k + 1
      else currentLayer == None && k == currentIdx == |sortedLayers|
    }

    method GetNextLayer() returns (layer: Option<Id>)
      requires currentIdx <= |sortedLayers|
      modifies this`currentIdx
      ensures layer == if old(currentIdx) < |sortedLayers| then Some(sortedLayers[old(currentIdx)]) else None
      ensures currentIdx == if old(currentIdx) < |sortedLayers| then old(currentIdx) + 1 else old(currentIdx)
    {
      if |sortedLayers| > currentIdx {
        currentIdx := currentIdx + 1;
        return Some(sortedLayers[currentIdx - 1]);
      }
      return None;
    }

    method Begin(inputs: seq<Option<Id>>) returns (outcome: Outcome)
      requires sortedLayers == [] && currentIdx == 0
      requires forall i | 0 <= i < |inputs| && inputs[i].Some? :: inputs[i].value in network.layers
      modifies this
      ensures outcome.Done? ==>
                At(0) && exists s :: Searched(network, inputs, |inputs|, s) && sortedLayers == Reversed(s)
      ensures !outcome.Done? ==>
                exists i :: 0 <= i < |inputs| && inputs[i].Some? && Meets(network, inputs[i].value, outcome)
    {
      outcome := ForestDfs(inputs);
      if outcome.Done? {
        sortedLayers := Reversed(sortedLayers);
        currentLayer := GetNextLayer();
      }
    }

    method Equals(that: Iterator) returns (equal: bool)
      ensures equal <==> network == that.network && currentLayer == that.currentLayer
    {
      equal := network == that.network && currentLayer == that.currentLayer;
    }

    method Advance(ghost k: nat)
      requires At(k) && k < |sortedLayers|
      modifies this`currentLayer, this`currentIdx
      ensures At(k + 1)
    {
      currentLayer := GetNextLayer();
    }
  }

  lemma SkipHead(net: Network, heads: seq<Option<Id>>, k: nat, s: seq<Id>)
    requires k < |heads| && heads[k].None? && Searched(net, heads, k, s)
    ensures Searched(net, heads, k + 1, s)
  {
  }

  lemma MeetsFromHeads(net: Network, heads: seq<Option<Id>>, outcome: Outcome)
    requires !outcome.Done?
    requires exists i :: 0 <= i < |heads| && heads[i].Some? && Meets(net, heads[i].value, outcome)
    ensures !Sortable(net, heads)
    ensures outcome.LoopFound? ==> exists u :: FromHeads(net, heads, u) && net.OnCycle(u)
    ensures outcome.LayerMissing? ==>
              outcome.id !in net.layers && exists u :: FromHeads(net, heads, u) && net.Edge(u, outcome.id)
  {
    var i :| 0 <= i < |heads| && heads[i].Some? && Meets(net, heads[i].value, outcome);
    if outcome.LoopFound? {
      var u :| net.Reaches(heads[i].value, u) && net.OnCycle(u);
      LedBy(net, heads, |heads|, u);
      assert FromHeads(net, heads, u);
    } else {
      var u :| net.Reaches(heads[i].value, u) && net.Edge(u, outcome.id);
      LedBy(net, heads, |heads|, u);
      assert FromHeads(net, heads, u);
    }
  }

  /** What the reversed post-order of a completed search is. */
  lemma TraversedLayers(net: Network, heads: seq<Option<Id>>, s: seq<Id>)
    requires Searched(net, heads, |heads|, s)
    ensures Sortable(net, heads)
    ensures forall x :: x in Reversed(s) <==> FromHeads(net, heads, x)
    ensures Distinct(Reversed(s)) <==> Independent(net, heads)
    ensures Independent(net, heads) ==> Sorted(net, Reversed(s))
  {
    SearchedIsSortable(net, heads, s);
    var r := Reversed(s);
    forall x
      ensures x in r <==> FromHeads(net, heads, x)
    {
      ReachedIsListed(net, heads, |heads|, s, x);
      ReversedMembers(s, x);
    }
    if Distinct(r) {
      forall i, j | 0 <= i < j < |s|
        ensures s[i] != s[j]
      {
        assert s[i] == r[|s| - 1 - i] && s[j] == r[|s| - 1 - j];
      }
    }
    if Independent(net, heads) {
      ReversedSorted(net, s);
    }
  }

  /** Iterating from begin to end over a network with these inputs. */
  method Traverse(net: Network, inputs: seq<Option<Id>>) returns (outcome: Outcome, layers: seq<Id>)
    requires forall i | 0 <= i < |inputs| && inputs[i].Some? :: inputs[i].value in net.layers
    ensures outcome.Done? <==> Sortable(net, inputs)
    ensures outcome.LoopFound? ==> exists u :: FromHeads(net, inputs, u) && net.OnCycle(u)
    ensures outcome.LayerMissing? ==> exists u :: FromHeads(net, inputs, u) && net.Edge(u, outcome.id)
    ensures outcome.LayerMissing? ==> outcome.id !in net.layers
    ensures outcome.Done? ==> forall x :: x in layers <==> FromHeads(net, inputs, x)
    ensures outcome.Done? ==> (Distinct(layers) <==> Independent(net, inputs))
    ensures outcome.Done? && Independent(net, inputs) ==> Sorted(net, layers)
    ensures !outcome.Done? ==> layers == []
  {
    layers := [];
    var it := new Iterator(net);
    var end := new Iterator(net);
    outcome := it.Begin(inputs);
    if !outcome.Done? {
      MeetsFromHeads(net, inputs, outcome);
      return;
    }
    ghost var s :| Searched(net, inputs, |inputs|, s) && it.sortedLayers == Reversed(s);
    layers := Drain(it, end);
    TraversedLayers(net, inputs, s);
  }

  /** `for (; it != end; ++it)` from the first layer on. */
  method Drain(it: Iterator, end: Iterator) returns (layers: seq<Id>)
    requires it != end && it.network == end.network && end.currentLayer == None && it.At(0)
    modifies it
    ensures layers == it.sortedLayers == old(it.sortedLayers) && it.currentLayer == None
  {
    layers := [];
    ghost var k := 0;
    var atEnd := it.Equals(end);
    while !atEnd
      invariant it.sortedLayers == old(it.sortedLayers) && end.currentLayer == None
      invariant k <= |it.sortedLayers| && it.At(k)
      invariant layers == it.sortedLayers[..k] && (atEnd <==> k == |it.sortedLayers|)
      decreases |it.sortedLayers| - k
    {
      layers := layers + [it.currentLayer.value];
      it.Advance(k);
      k := k + 1;
      atEnd := it.Equals(end);
    }
  }

  // ---- networks put together by the builder ------------------------------------

  /** Layer ids are unique, and connections join different existing layers. */
  ghost predicate WellFormed(net: Network) {
    && Distinct(net.layers)
    && forall c | c in net.connections :: c.from != c.to && c.from in net.layers && c.to in net.layers
  }

  function Heads(ids: seq<Id>): (r: seq<Option<Id>>)
    ensures |r| == |ids| && forall i | 0 <= i < |ids| :: r[i] == Some(ids[i])
  {
    seq(|ids|, i requires 0 <= i < |ids| => Some(ids[i]))
  }

  lemma {:induction false} EntriesDistinct(net: Network, ids: seq<Id>)
    requires Distinct(ids)
    ensures Distinct(net.Entries(ids))
  {
    if ids == [] {
    } else {
      assert forall i | 0 <= i < |ids| - 1 :: ids[1..][i] == ids[i + 1];
      EntriesDistinct(net, ids[1..]);
      assert ids[0] !in ids[1..];
    }
  }

  /** A layer without incoming connections is reached only from itself. */
  lemma ReachesInput(net: Network, u: Id, h: Id)
    requires h in net.GetInputs() && net.Reaches(u, h)
    ensures u == h
  {
    var p :| net.Leads(u, p, h);
    assert |p| > 1 ==> net.Edge(p[|p| - 2], p[|p| - 1]);
  }

  lemma InputsIndependent(net: Network)
    requires Distinct(net.layers)
    ensures Independent(net, Heads(net.GetInputs()))
  {
    var inputs := net.GetInputs();
    var heads := Heads(inputs);
    EntriesDistinct(net, net.layers);
    forall j | 0 <= j < |heads|
      ensures !Led(net, heads, j, heads[j].value)
    {
      LedBy(net, heads, j, heads[j].value);
      forall i | 0 <= i < j
        ensures !net.Reaches(heads[i].value, heads[j].value)
      {
        if net.Reaches(heads[i].value, heads[j].value) {
          ReachesInput(net, inputs[i], inputs[j]);
        }
      }
    }
  }

  ghost predicate HasSource(net: Network, within: set<Id>, x: Id) {
    exists v :: v in within && net.Edge(v, x)
  }

  /** Walking backwards within a finite set of layers ends up on a loop. */
  lemma {:induction false} NoSourceMeansLoop(net: Network, within: set<Id>, p: seq<Id>) returns (u: Id)
    requires net.Path(p) && forall x | x in p :: x in within
    requires forall x {:trigger HasSource(net, within, x)} | x in within :: HasSource(net, within, x)
    ensures net.OnCycle(u)
    decreases within - set x | x in p
  {
    assert HasSource(net, within, p[0]);
    var v :| v in within && net.Edge(v, p[0]);
    var q := [v] + p;
    assert net.Path(q);
    if v in p {
      var i :| 0 <= i < |p| && p[i] == v;
      u := v;
      assert net.Leads(v, q[..i + 2], v);
    } else {
      assert v in (within - set x | x in p) - (within - set x | x in q);
      u := NoSourceMeansLoop(net, within, q);
    }
  }

  ghost function Unreached(net: Network): (r: set<Id>)
    ensures forall x :: x in r <==> x in net.layers && !FromHeads(net, Heads(net.GetInputs()), x)
  {
    set x | x in net.layers && !FromHeads(net, Heads(net.GetInputs()), x)
  }

  lemma UnreachedHasSource(net: Network, within: set<Id>, u: Id)
    requires WellFormed(net) && u in within
    requires within == Unreached(net)
    ensures HasSource(net, within, u)
  {
    var inputs, heads := net.GetInputs(), Heads(net.GetInputs());
    if u in inputs {
      var i :| 0 <= i < |inputs| && inputs[i] == u;
      HeadIsReached(net, heads, i, u);
    }
    var v :| Connection(v, u) in net.connections;
    if FromHeads(net, heads, v) {
      FromHeadsNext(net, heads, v, u);
    }
    assert v in within && net.Edge(v, u);
  }

  lemma HeadIsReached(net: Network, heads: seq<Option<Id>>, i: nat, u: Id)
    requires i < |heads| && heads[i] == Some(u)
    ensures FromHeads(net, heads, u)
  {
    ReachesSelf(net, u);
    LedBy(net, heads, |heads|, u);
  }

  lemma FromHeadsNext(net: Network, heads: seq<Option<Id>>, v: Id, u: Id)
    requires FromHeads(net, heads, v) && net.Edge(v, u)
    ensures FromHeads(net, heads, u)
  {
    LedBy(net, heads, |heads|, v);
    var i :| 0 <= i < |heads| && heads[i].Some? && net.Reaches(heads[i].value, v);
    ReachesNext(net, v, u);
    ReachesThrough(net, heads[i].value, v, u);
    LedBy(net, heads, |heads|, u);
  }

  lemma UnreachedMeansLoop(net: Network, x: Id) returns (u: Id)
    requires WellFormed(net) && x in Unreached(net)
    ensures net.OnCycle(u)
  {
    forall v {:trigger HasSource(net, Unreached(net), v)} | v in Unreached(net)
      ensures HasSource(net, Unreached(net), v)
    {
      UnreachedHasSource(net, Unreached(net), v);
    }
    u := NoSourceMeansLoop(net, Unreached(net), [x]);
  }

  /** Connections join layers of the network, so loops do. */
  lemma LoopIsInside(net: Network, u: Id)
    requires WellFormed(net) && net.OnCycle(u)
    ensures u in net.layers
  {
    var p :| net.Leads(u, p, u) && |p| > 1;
    assert net.Edge(p[0], p[1]);
  }

  /** begin() .. end() of a network: what is listed is listed once, with every
      connection's source before its target; and all layers are listed if and only
      if the network has no loop.  A loop that no input leads to goes unnoticed:
      its layers are not listed. */
  method Layers(net: Network) returns (outcome: Outcome, layers: seq<Id>)
    requires Distinct(net.layers)
    ensures outcome.Done? ==> Distinct(layers) && Sorted(net, layers)
    ensures outcome.Done? ==> forall x :: x in layers <==> FromHeads(net, Heads(net.GetInputs()), x)
    ensures WellFormed(net) ==>
              ((forall u :: !net.OnCycle(u)) <==> outcome.Done? && forall x :: x in layers <==> x in net.layers)
  {
    var heads := Heads(net.GetInputs());
    InputsIndependent(net);
    outcome, layers := Traverse(net, heads);
    if WellFormed(net) && outcome.Done? && forall x :: x in layers <==> x in net.layers {
      forall u
        ensures !net.OnCycle(u)
      {
        if net.OnCycle(u) {
          LoopIsInside(net, u);
        }
      }
    }
    if WellFormed(net) && forall u :: !net.OnCycle(u) {
      forall u, v | net.Edge(u, v)
        ensures v in net.layers
      {
      }
      assert Sortable(net, heads);
      forall x
        ensures x in layers <==> x in net.layers
      {
        if x in net.layers {
          if x in Unreached(net) {
            var u := UnreachedMeansLoop(net, x);
          }
        } else if x in layers {
          FromHeadsIsLayer(net, heads, x);
        }
      }
    }
  }

  /** Sets of existing layers do not lead out of the network. */
  lemma FromHeadsIsLayer(net: Network, heads: seq<Option<Id>>, x: Id)
    requires WellFormed(net) && FromHeads(net, heads, x)
    requires forall i | 0 <= i < |heads| && heads[i].Some? :: heads[i].value in net.layers
    ensures x in net.layers
  {
    LedBy(net, heads, |heads|, x);
    var i :| 0 <= i < |heads| && heads[i].Some? && net.Reaches(heads[i].value, x);
    var p :| net.Leads(heads[i].value, p, x);
    if |p| > 1 {
      assert net.Edge(p[|p| - 2], p[|p| - 1]);
    }
  }

  /** The network 0 -> 1 with both layers as heads. */
  predicate TwoHeads(net: Network, heads: seq<Option<Id>>) {
    net == Network([0, 1], [Connection(0, 1)]) && heads == [Some(0), Some(1)]
  }

  lemma SecondHeadReached(net: Network, heads: seq<Option<Id>>)
    requires TwoHeads(net, heads)
    ensures net.Reaches(0, 0) && net.Reaches(0, 1) && net.Reaches(1, 1) && !Independent(net, heads)
  {
    assert net.Edge(0, 1);
    ReachesNext(net, 0, 1);
    ReachesSelf(net, 0);
    ReachesSelf(net, 1);
    assert heads[1].Some? && Led(net, heads, 1, heads[1].value);
  }

  lemma TwicePostOrdered(net: Network, heads: seq<Option<Id>>)
    requires TwoHeads(net, heads)
    ensures PostOrdered(net, [1, 0, 1])
  {
    var s := [1, 0, 1];
    forall i: nat | i < 3
      ensures Preceded(net, s, i)
    {
      assert s[..1][0] == 1;
    }
  }

  lemma TwiceListed(net: Network, heads: seq<Option<Id>>)
    requires TwoHeads(net, heads)
    ensures Searched(net, heads, 2, [1, 0, 1])
  {
    var s := [1, 0, 1];
    SecondHeadReached(net, heads);
    TwicePostOrdered(net, heads);
    assert Led(net, heads, 1, 0) && Led(net, heads, 1, 1);
    assert s[0] == s[2] && s[1] == 0;
  }

  lemma TwoLayers(net: Network, heads: seq<Option<Id>>)
    requires TwoHeads(net, heads)
    ensures WellFormed(net) && Independent(net, Heads(net.GetInputs()))
  {
    assert Distinct(net.layers);
    InputsIndependent(net);
  }

  lemma SameReversed()
    ensures Reversed([1, 0, 1]) == [1, 0, 1]
  {
  }

  lemma NeverListedOnce(net: Network, heads: seq<Option<Id>>, s: seq<Id>)
    requires TwoHeads(net, heads) && Searched(net, heads, 2, s)
    ensures !Distinct(Reversed(s))
  {
    SecondHeadReached(net, heads);
    TraversedLayers(net, heads, s);
  }

  /** The search from both heads completes, as there is no loop, and every listing
      it completes with repeats a layer, as [1, 0, 1] does: the loop over the heads
      does not ask whether a head has been visited.  The heads that the network
      computes for itself are not like that. */
  lemma RepeatedHead(net: Network, heads: seq<Option<Id>>)
    requires TwoHeads(net, heads)
    ensures WellFormed(net) && Sortable(net, heads) && !Independent(net, heads)
    ensures Searched(net, heads, 2, [1, 0, 1]) && Reversed([1, 0, 1]) == [1, 0, 1]
    ensures forall s | Searched(net, heads, 2, s) :: !Distinct(Reversed(s))
    ensures Independent(net, Heads(net.GetInputs()))
  {
    TwoLayers(net, heads);
    SameReversed();
    SecondHeadReached(net, heads);
    TwiceListed(net, heads);
    SearchedIsSortable(net, heads, [1, 0, 1]);
    forall s | Searched(net, heads, 2, s)
      ensures !Distinct(Reversed(s))
    {
      NeverListedOnce(net, heads, s);
    }
  }
}
