/** Layers and connections of a network built by ids, and its paths. */
module Networks {

  type Id = nat

  datatype Connection = Connection(from: Id, to: Id)

  datatype Network = Network(layers: seq<Id>, connections: seq<Connection>) {

    /** Connections that start or end at the layer, in order. */
    function GetLayerConnections(id: Id): (r: seq<Connection>)
      ensures forall c :: c in r <==> c in connections && (c.from == id || c.to == id)
    {
      Touching(connections, id)
    }

    /** Layers at which no connection ends, in order. */
    function GetInputs(): (r: seq<Id>)
      ensures forall x :: x in r <==> x in layers && !exists u :: Connection(u, x) in connections
    {
      Entries(layers)
    }

    function Entries(ids: seq<Id>): (r: seq<Id>)
      ensures forall x :: x in r <==> x in ids && !exists u :: Connection(u, x) in connections
    {
      if ids == [] then []
      else (if forall c | c in GetLayerConnections(ids[0]) :: c.to != ids[0] then [ids[0]] else []) + Entries(ids[1..])
    }

    /** A connection between two different layers. */
    predicate Edge(u: Id, v: Id) {
      u != v && Connection(u, v) in connections
    }

    predicate Path(p: seq<Id>) {
      p != [] && forall i | 0 <= i < |p| - 1 :: Edge(p[i], p[i + 1])
    }

    predicate Leads(u: Id, p: seq<Id>, v: Id) {
      Path(p) && p[0] == u && p[|p| - 1] == v
    }

    ghost predicate Reaches(u: Id, v: Id) {
      exists p :: Leads(u, p, v)
    }

    /** A closed path through at least two layers. */
    ghost predicate OnCycle(u: Id) {
      exists p :: Leads(u, p, u) && |p| > 1
    }
  }

  function Touching(connections: seq<Connection>, id: Id): (r: seq<Connection>)
    ensures forall c :: c in r <==> c in connections && (c.from == id || c.to == id)
  {
    if connections == [] then []
    else (if connections[0].from == id || connections[0].to == id then [connections[0]] else []) +
         Touching(connections[1..], id)
  }

  lemma PathJoin(net: Network, p: seq<Id>, q: seq<Id>)
    requires net.Path(p) && net.Path(q) && p[|p| - 1] == q[0]
    ensures net.Path(p + q[1..]) && (p + q[1..])[|p + q[1..]| - 1] == q[|q| - 1]
  {
    var r := p + q[1..];
    forall i | 0 <= i < |r| - 1
      ensures net.Edge(r[i], r[i + 1])
    {
      if i >= |p| - 1 {
        assert r[i] == q[i - (|p| - 1)] && r[i + 1] == q[i + 1 - (|p| - 1)];
      }
    }
  }

  lemma ReachesSelf(net: Network, u: Id)
    ensures net.Reaches(u, u)
  {
    assert net.Leads(u, [u], u);
  }

  lemma ReachesThrough(net: Network, u: Id, v: Id, w: Id)
    requires net.Reaches(u, v) && net.Reaches(v, w)
    ensures net.Reaches(u, w)
  {
    var p :| net.Leads(u, p, v);
    var q :| net.Leads(v, q, w);
    PathJoin(net, p, q);
    assert net.Leads(u, p + q[1..], w);
  }

  lemma ReachesNext(net: Network, u: Id, v: Id)
    requires net.Edge(u, v)
    ensures net.Reaches(u, v)
  {
    assert net.Leads(u, [u, v], v);
  }
}
