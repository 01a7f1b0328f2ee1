/** The graph held by the store and the write handlers of the REST API
    (backend/index.js): Person nodes keyed by `nom`, typed directed relations between names. */
module GraphStore {
  import opened Wrappers
  import opened Collections

  /** Node labels: the handlers create Persons; change proposals live in the same store. */
  datatype Label = Person | Proposal

  /** A node with the properties the core reads or writes; a missing property is `None`. */
  datatype Node = Node(kind: Label, nom: string, origine: Option<string>,
                       x: Option<int>, y: Option<int>, nodeId: Option<string>)

  /** A directed relation of type `relType` from the Person named `source` to the one named `target`. */
  datatype Edge = Edge(source: string, target: string, relType: string, edgeId: Option<string>)

  /** A Person as a JSON object: its property map, as read queries return it and as import
      and restore read it back. */
  datatype Props = Props(nom: string, origine: Option<string>, x: Option<int>, y: Option<int>,
                         nodeId: Option<string>)

  /** A relation as a JSON object: endpoints by name and the type. */
  datatype GraphEdge = GraphEdge(source: string, target: string, relType: string)

  /** Status of POST /import. */
  datatype ImportOutcome = Imported(nodesCount: nat, edgesCount: nat) | ImportFailed

  /** What `MATCH (p:Person {nom: $nom})` selects. */
  predicate IsPerson(n: Node, nom: string) {
    n.kind == Person && n.nom == nom
  }

  /** The names of the Person nodes. */
  function PersonNames(nodes: seq<Node>): set<string> {
    set n | n in nodes && n.kind == Person :: n.nom
  }

  /** The store invariant: every relation joins two names of Persons. */
  predicate NoDangling(nodes: seq<Node>, edges: seq<Edge>) {
    forall e :: e in edges ==> e.source in PersonNames(nodes) && e.target in PersonNames(nodes)
  }

  /** How many nodes `MATCH (p:Person {nom: $nom})` finds. */
  function PersonCount(nodes: seq<Node>, nom: string): nat {
    if nodes == [] then 0 else (if IsPerson(nodes[0], nom) then 1 else 0) + PersonCount(nodes[1..], nom)
  }

  /** The property map of a node. */
  function PropsOf(n: Node): Props {
    Props(n.nom, n.origine, n.x, n.y, n.nodeId)
  }

  /** `v || null` for a string property. */
  function OrNull(v: Option<string>): Option<string> {
    if v == Some("") then None else v
  }

  /** `v || 0` for a coordinate. */
  function OrZero(v: Option<int>): int {
    v.GetOr(0)
  }

  /** The Person that import and restore create from a JSON node: only `nom`, `origine || null`,
      `x || 0` and `y || 0`; any `nodeId` is dropped. */
  function Defaulted(p: Props): Node {
    Node(Person, p.nom, OrNull(p.origine), Some(OrZero(p.x)), Some(OrZero(p.y)), None)
  }

  /** The Persons created, in order, from a list of JSON nodes. */
  function Recreated(input: seq<Props>): (r: seq<Node>)
    ensures |r| == |input|
    ensures forall k :: 0 <= k < |input| ==> r[k] == Defaulted(input[k])
  {
    seq(|input|, k requires 0 <= k < |input| => Defaulted(input[k]))
  }

  /** The relations `MATCH (a:Person {nom:$s}) MATCH (b:Person {nom:$t}) CREATE (a)-[:T]->(b)`
      creates: one per pair of matching Persons, none when either name is unknown. */
  function NewEdges(nodes: seq<Node>, s: string, t: string, relType: string): seq<Edge> {
    seq(PersonCount(nodes, s) * PersonCount(nodes, t), _ => Edge(s, t, relType, None))
  }

  /** The relations created by running that query once per JSON relation, in order. */
  function MatchedEdges(nodes: seq<Node>, input: seq<GraphEdge>): seq<Edge> {
    if input == [] then []
    else
      var g := input[|input| - 1];
      MatchedEdges(nodes, input[..|input| - 1]) + NewEdges(nodes, g.source, g.target, g.relType)
  }

  /** SET p.x, p.y on the Persons named `nom`. */
  function WithCoordinates(nodes: seq<Node>, nom: string, x: Option<int>, y: Option<int>): seq<Node> {
    seq(|nodes|, k requires 0 <= k < |nodes| =>
      if IsPerson(nodes[k], nom) then nodes[k].(x := x, y := y) else nodes[k])
  }

  /** SET p.nom, p.origine on the Persons named `oldNom`. */
  function Renamed(nodes: seq<Node>, oldNom: string, newNom: string, origine: Option<string>): seq<Node> {
    seq(|nodes|, k requires 0 <= k < |nodes| =>
      if IsPerson(nodes[k], oldNom) then nodes[k].(nom := newNom, origine := origine) else nodes[k])
  }

  /** The relations of renamed Persons follow them to their new name. */
  function RenamedEdges(edges: seq<Edge>, oldNom: string, newNom: string): seq<Edge> {
    seq(|edges|, k requires 0 <= k < |edges| =>
      edges[k].(source := if edges[k].source == oldNom then newNom else edges[k].source,
                target := if edges[k].target == oldNom then newNom else edges[k].target))
  }

  /** The nodes left by `MATCH (p:Person {nom:$nom}) DETACH DELETE p`. */
  function WithoutPerson(nodes: seq<Node>, nom: string): seq<Node> {
    Filter(nodes, (n: Node) => !IsPerson(n, nom))
  }

  /** The relations left by that query: those not touching `nom`. */
  function WithoutIncident(edges: seq<Edge>, nom: string): seq<Edge> {
    Filter(edges, (e: Edge) => e.source != nom && e.target != nom)
  }

  /** The relations left by `MATCH (a {nom:$s})-[r:T]->(b {nom:$t}) DELETE r`. */
  function WithoutRelation(edges: seq<Edge>, s: string, t: string, relType: string): seq<Edge> {
    Filter(edges, (e: Edge) => !(e.source == s && e.target == t && e.relType == relType))
  }

  /** The nodes left by `MATCH (p:Person) DETACH DELETE p`: the non-Person ones. */
  function NonPersons(nodes: seq<Node>): seq<Node> {
    Filter(nodes, (n: Node) => n.kind != Person)
  }

  // ---------- lemmas about names ----------

  lemma PersonNamesAppend(a: seq<Node>, b: seq<Node>)
    ensures PersonNames(a + b) == PersonNames(a) + PersonNames(b)
  {
    forall m | m in PersonNames(a + b) ensures m in PersonNames(a) + PersonNames(b) {
      var n :| n in a + b && n.kind == Person && n.nom == m;
      assert n in a || n in b;
    }
  }

  /** A name has a matching Person exactly when it is one of the Person names. */
  lemma {:induction false} PersonCountPositive(nodes: seq<Node>, nom: string)
    ensures PersonCount(nodes, nom) > 0 <==> nom in PersonNames(nodes)
  {
    if nodes != [] {
      PersonCountPositive(nodes[1..], nom);
      assert nodes == [nodes[0]] + nodes[1..];
      PersonNamesAppend([nodes[0]], nodes[1..]);
    }
  }

  /** Two node lists that agree on labels and names, position by position, have the same Person names. */
  lemma SameNames(a: seq<Node>, b: seq<Node>)
    requires |a| == |b|
    requires forall k :: 0 <= k < |a| ==> a[k].kind == b[k].kind && a[k].nom == b[k].nom
    ensures PersonNames(a) == PersonNames(b)
  {
    forall m | m in PersonNames(a) ensures m in PersonNames(b) {
      var n :| n in a && n.kind == Person && n.nom == m;
      var k :| 0 <= k < |a| && a[k] == n;
      assert b[k] in b;
    }
    forall m | m in PersonNames(b) ensures m in PersonNames(a) {
      var n :| n in b && n.kind == Person && n.nom == m;
      var k :| 0 <= k < |b| && b[k] == n;
      assert a[k] in a;
    }
  }

  /** Setting coordinates keeps every Person name. */
  lemma CoordinatesKeepNames(nodes: seq<Node>, nom: string, x: Option<int>, y: Option<int>)
    ensures PersonNames(WithCoordinates(nodes, nom, x, y)) == PersonNames(nodes)
  {
    SameNames(nodes, WithCoordinates(nodes, nom, x, y));
  }

  /** Renaming replaces `oldNom` by `newNom` among the Person names, when there was such a Person. */
  lemma RenamedNames(nodes: seq<Node>, oldNom: string, newNom: string, origine: Option<string>)
    ensures var r := PersonNames(Renamed(nodes, oldNom, newNom, origine));
            if oldNom in PersonNames(nodes) then r == PersonNames(nodes) - {oldNom} + {newNom}
            else r == PersonNames(nodes)
  {
    var r := Renamed(nodes, oldNom, newNom, origine);
    forall m | m in PersonNames(nodes) && m != oldNom ensures m in PersonNames(r) {
      var n :| n in nodes && n.kind == Person && n.nom == m;
      var k :| 0 <= k < |nodes| && nodes[k] == n;
      assert r[k] in r;
    }
    forall m | m in PersonNames(r) ensures m in PersonNames(nodes) - {oldNom} + {newNom} {
      var n :| n in r && n.kind == Person && n.nom == m;
      var k :| 0 <= k < |r| && r[k] == n;
      assert nodes[k] in nodes;
    }
    if oldNom in PersonNames(nodes) {
      var n :| n in nodes && n.kind == Person && n.nom == oldNom;
      var k :| 0 <= k < |nodes| && nodes[k] == n;
      assert r[k] in r;
      assert newNom in PersonNames(r);
      if oldNom != newNom {
        assert oldNom !in PersonNames(r) by {
          forall m | m in r && m.kind == Person ensures m.nom != oldNom {
            var j :| 0 <= j < |r| && r[j] == m;
          }
        }
      }
    } else {
      forall m | m in PersonNames(r) ensures m in PersonNames(nodes) {
        var n :| n in r && n.kind == Person && n.nom == m;
        var k :| 0 <= k < |r| && r[k] == n;
        assert nodes[k] in nodes;
      }
    }
  }

  /** The Persons left after deleting `nom` are all the others. */
  lemma WithoutPersonNames(nodes: seq<Node>, nom: string)
    ensures PersonNames(WithoutPerson(nodes, nom)) == PersonNames(nodes) - {nom}
  {
    var r := WithoutPerson(nodes, nom);
    forall m | m in PersonNames(nodes) - {nom} ensures m in PersonNames(r) {
      var n :| n in nodes && n.kind == Person && n.nom == m;
      FilterMember(nodes, (n: Node) => !IsPerson(n, nom), n);
    }
    forall m | m in PersonNames(r) ensures m in PersonNames(nodes) - {nom} {
      var n :| n in r && n.kind == Person && n.nom == m;
      FilterMember(nodes, (n: Node) => !IsPerson(n, nom), n);
    }
  }

  /** Every relation the MATCH/MATCH/CREATE query creates joins two existing Persons. */
  lemma NewEdgesJoinPersons(nodes: seq<Node>, s: string, t: string, relType: string)
    ensures forall e :: e in NewEdges(nodes, s, t, relType) ==>
              e == Edge(s, t, relType, None) && s in PersonNames(nodes) && t in PersonNames(nodes)
  {
    PersonCountPositive(nodes, s);
    PersonCountPositive(nodes, t);
  }

  /** The relations created for a list of JSON relations never dangle. */
  lemma {:induction false} MatchedEdgesJoinPersons(nodes: seq<Node>, input: seq<GraphEdge>)
    ensures NoDangling(nodes, MatchedEdges(nodes, input))
  {
    if input != [] {
      var g := input[|input| - 1];
      MatchedEdgesJoinPersons(nodes, input[..|input| - 1]);
      NewEdgesJoinPersons(nodes, g.source, g.target, g.relType);
    }
  }

  /** When every endpoint names exactly one Person, each JSON relation becomes exactly one
      relation, with the same endpoints and type and no `edgeId`. */
  lemma {:induction false} MatchedEdgesOneEach(nodes: seq<Node>, input: seq<GraphEdge>)
    requires forall g :: g in input ==> PersonCount(nodes, g.source) == 1 && PersonCount(nodes, g.target) == 1
    ensures |MatchedEdges(nodes, input)| == |input|
    ensures forall k :: 0 <= k < |input| ==>
              MatchedEdges(nodes, input)[k] == Edge(input[k].source, input[k].target, input[k].relType, None)
  {
    if input != [] {
      var init := input[..|input| - 1];
      assert forall g :: g in init ==> g in input;
      MatchedEdgesOneEach(nodes, init);
      var g := input[|input| - 1];
      assert NewEdges(nodes, g.source, g.target, g.relType) == [Edge(g.source, g.target, g.relType, None)];
    }
  }

  /** The store. Every handler runs one Cypher statement (import and restore run several); the
      invariant `Valid` says that no relation dangles. */
  class Store {
    var nodes: seq<Node>
    var edges: seq<Edge>

    ghost predicate Valid()
      reads this
    {
      NoDangling(nodes, edges)
    }

    constructor ()
      ensures Valid() && nodes == [] && edges == []
    {
      nodes := [];
      edges := [];
    }

    /** POST /person: 400 without a truthy `nom` or with `x` or `y` missing; otherwise one new
        Person with exactly the given fields (no `nodeId`), and 201. */
    method CreatePerson(nom: Arg<string>, origine: Arg<string>, x: Arg<int>, y: Arg<int>) returns (status: int)
      requires Valid()
      modifies this
      ensures Valid()
      ensures status == (if !Truthy(nom) || x.Absent? || y.Absent? then 400 else 201)
      ensures status == 400 ==> nodes == old(nodes) && edges == old(edges)
      ensures status == 201 ==>
                nodes == old(nodes) + [Node(Person, nom.value, Stored(origine), Stored(x), Stored(y), None)]
                && edges == old(edges)
    {
      if !Truthy(nom) {
        return 400;
      }
      if x.Absent? || y.Absent? {
        return 400;
      }
      var n := Node(Person, nom.value, Stored(origine), Stored(x), Stored(y), None);
      PersonNamesAppend(nodes, [n]);
      nodes := nodes + [n];
      status := 201;
    }

    /** PATCH /person/coordinates: the Persons named `nom` get the given `x` and `y` (a missing
        one unsets it); nothing else changes; always 200. */
    method SetCoordinates(nom: Arg<string>, x: Arg<int>, y: Arg<int>) returns (status: int)
      requires Valid()
      modifies this
      ensures Valid() && status == 200 && edges == old(edges)
      ensures nodes == if nom.Given? then WithCoordinates(old(nodes), nom.value, Stored(x), Stored(y)) else old(nodes)
    {
      if nom.Given? {
        CoordinatesKeepNames(nodes, nom.value, Stored(x), Stored(y));
        nodes := WithCoordinates(nodes, nom.value, Stored(x), Stored(y));
      }
      status := 200;
    }

    /** PATCH /person: 400 without a truthy `oldNom`; otherwise the Persons named `oldNom` get
        `nom || oldNom` and `origine`, their relations follow the rename, and 200. */
    method UpdatePerson(oldNom: Arg<string>, nom: Arg<string>, origine: Arg<string>) returns (status: int)
      requires Valid()
      modifies this
      ensures Valid()
      ensures status == (if Truthy(oldNom) then 200 else 400)
      ensures status == 400 ==> nodes == old(nodes) && edges == old(edges)
      ensures status == 200 ==>
                var newNom := if Truthy(nom) then nom.value else oldNom.value;
                nodes == Renamed(old(nodes), oldNom.value, newNom, Stored(origine))
                && edges == RenamedEdges(old(edges), oldNom.value, newNom)
    {
      if !Truthy(oldNom) {
        return 400;
      }
      var newNom := if Truthy(nom) then nom.value else oldNom.value;
      var n' := Renamed(nodes, oldNom.value, newNom, Stored(origine));
      var e' := RenamedEdges(edges, oldNom.value, newNom);
      RenamedNames(nodes, oldNom.value, newNom, Stored(origine));
      forall e | e in e' ensures e.source in PersonNames(n') && e.target in PersonNames(n') {
        var k :| 0 <= k < |e'| && e'[k] == e;
        assert edges[k] in edges;
      }
      nodes, edges := n', e';
      status := 200;
    }

    /** DELETE /person: the Persons named `nom` and every relation touching that name go;
        everything else stays; always 200. */
    method DeletePerson(nom: Arg<string>) returns (status: int)
      requires Valid()
      modifies this
      ensures Valid() && status == 200
      ensures nom.Given? ==> nodes == WithoutPerson(old(nodes), nom.value) && edges == WithoutIncident(old(edges), nom.value)
      ensures !nom.Given? ==> nodes == old(nodes) && edges == old(edges)
    {
      if nom.Given? {
        var n' := WithoutPerson(nodes, nom.value);
        var e' := WithoutIncident(edges, nom.value);
        WithoutPersonNames(nodes, nom.value);
        forall e | e in e' ensures e.source in PersonNames(n') && e.target in PersonNames(n') {
          FilterMember(edges, (e: Edge) => e.source != nom.value && e.target != nom.value, e);
        }
        nodes, edges := n', e';
      }
      status := 200;
    }

    /** DELETE /all: every node (Proposals included) and every relation goes. */
    method DeleteAll()
      requires Valid()
      modifies this
      ensures Valid() && nodes == [] && edges == []
    {
      nodes, edges := [], [];
    }

    /** POST /relation: one relation per pair of Persons matching `source` and `target`, so none
        when either is unknown; always 201. */
    method AddRelation(source: Arg<string>, target: Arg<string>, relType: string) returns (status: int)
      requires Valid()
      modifies this
      ensures Valid() && status == 201 && nodes == old(nodes)
      ensures edges == if source.Given? && target.Given?
                       then old(edges) + NewEdges(nodes, source.value, target.value, relType)
                       else old(edges)
    {
      if source.Given? && target.Given? {
        NewEdgesJoinPersons(nodes, source.value, target.value, relType);
        edges := edges + NewEdges(nodes, source.value, target.value, relType);
      }
      status := 201;
    }

    /** DELETE /relation: the relations of type `relType` from `source` to `target` go, and
        only those; always 200. */
    method DeleteRelation(source: Arg<string>, target: Arg<string>, relType: string) returns (status: int)
      requires Valid()
      modifies this
      ensures Valid() && status == 200 && nodes == old(nodes)
      ensures edges == if source.Given? && target.Given?
                       then WithoutRelation(old(edges), source.value, target.value, relType)
                       else old(edges)
    {
      if source.Given? && target.Given? {
        var e' := WithoutRelation(edges, source.value, target.value, relType);
        forall e | e in e' ensures e in edges {
          FilterMember(edges, (e: Edge) => !(e.source == source.value && e.target == target.value && e.relType == relType), e);
        }
        edges := e';
      }
      status := 200;
    }

    /** `MATCH (p:Person) DETACH DELETE p`: the Persons go with all their relations (every
        relation joins Persons), the other nodes stay. */
    method DeletePersons()
      requires Valid()
      modifies this
      ensures Valid() && nodes == NonPersons(old(nodes)) && edges == []
    {
      nodes, edges := NonPersons(nodes), [];
    }

    /** One `CREATE (:Person {...})` per JSON node, in order, with the import defaults. */
    method RecreateNodes(input: seq<Props>)
      requires Valid()
      modifies this
      ensures Valid() && nodes == old(nodes) + Recreated(input) && edges == old(edges)
    {
      var i := 0;
      while i < |input|
        invariant 0 <= i <= |input|
        invariant nodes == old(nodes) + Recreated(input[..i])
        invariant edges == old(edges)
        invariant Valid()
      {
        var n := Defaulted(input[i]);
        PersonNamesAppend(nodes, [n]);
        assert Recreated(input[..i + 1]) == Recreated(input[..i]) + [n];
        nodes := nodes + [n];
        i := i + 1;
      }
      assert input[..i] == input;
    }

    /** One MATCH/MATCH/CREATE per JSON relation, in order. */
    method RecreateEdges(input: seq<GraphEdge>)
      requires Valid()
      modifies this
      ensures Valid() && nodes == old(nodes) && edges == old(edges) + MatchedEdges(nodes, input)
    {
      var i := 0;
      while i < |input|
        invariant 0 <= i <= |input|
        invariant nodes == old(nodes)
        invariant edges == old(edges) + MatchedEdges(nodes, input[..i])
        invariant Valid()
      {
        var g := input[i];
        assert input[..i + 1][..i] == input[..i];
        NewEdgesJoinPersons(nodes, g.source, g.target, g.relType);
        edges := edges + NewEdges(nodes, g.source, g.target, g.relType);
        i := i + 1;
      }
      assert input[..i] == input;
    }

    /** POST /import: everything is deleted, then one Person per JSON node (with the defaults)
        and the relations between known names; the counts reported are the input lengths.
        A body without a node list, or without a relation list, fails with 500 after the
        steps that ran before. */
    method Import(input: Option<seq<Props>>, relations: Option<seq<GraphEdge>>) returns (r: ImportOutcome)
      requires Valid()
      modifies this
      ensures Valid()
      ensures input.None? ==> r == ImportFailed && nodes == [] && edges == []
      ensures input.Some? ==> nodes == Recreated(input.value)
      ensures input.Some? && relations.None? ==> r == ImportFailed && edges == []
      ensures input.Some? && relations.Some? ==>
                r == Imported(|input.value|, |relations.value|)
                && edges == MatchedEdges(nodes, relations.value)
    {
      nodes, edges := [], [];
      if input.None? {
        return ImportFailed;
      }
      RecreateNodes(input.value);
      if relations.None? {
        return ImportFailed;
      }
      RecreateEdges(relations.value);
      r := Imported(|input.value|, |relations.value|);
    }
  }
}
