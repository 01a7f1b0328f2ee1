/** The export/import round trip of backend/index.js: the rows the read query returns for a
    store, and what re-importing the exported graph recreates. */
module RoundTrip {
  import opened Wrappers
  import opened Collections
  import opened GraphStore
  import opened GraphRead

  /** The Persons named `k`, in store order. */
  function Named(nodes: seq<Node>, k: string): (r: seq<Node>)
    ensures |r| == PersonCount(nodes, k)
    ensures forall m :: m in r ==> m in nodes && IsPerson(m, k)
  {
    if nodes == [] then []
    else (if IsPerson(nodes[0], k) then [nodes[0]] else []) + Named(nodes[1..], k)
  }

  /** The rows pairing Person `p` with each Person of `qs` through a relation of type `t`. */
  function Fan(p: Node, qs: seq<Node>, t: string): seq<Row> {
    seq(|qs|, j requires 0 <= j < |qs| => Row(PropsOf(p), Some(t), Some(PropsOf(qs[j]))))
  }

  /** The rows for one relation between the Persons `ps` and the Persons `qs`. */
  function Cross(ps: seq<Node>, qs: seq<Node>, t: string): seq<Row> {
    if ps == [] then [] else Fan(ps[0], qs, t) + Cross(ps[1..], qs, t)
  }

  /** The complete rows: one per relation and pair of Persons it joins. */
  function EdgeRows(nodes: seq<Node>, edges: seq<Edge>): seq<Row> {
    if edges == [] then []
    else Cross(Named(nodes, edges[0].source), Named(nodes, edges[0].target), edges[0].relType)
         + EdgeRows(nodes, edges[1..])
  }

  /** Some relation leaves the name `k`. */
  predicate HasOut(edges: seq<Edge>, k: string) {
    exists e :: e in edges && e.source == k
  }

  /** The rows `OPTIONAL MATCH` pads with nulls: one per Person with no outgoing relation. */
  function LoneRows(ns: seq<Node>, edges: seq<Edge>): seq<Row> {
    if ns == [] then []
    else (if ns[0].kind == Person && !HasOut(edges, ns[0].nom) then [Row(PropsOf(ns[0]), None, None)] else [])
         + LoneRows(ns[1..], edges)
  }

  /** One order in which `MATCH (p:Person) OPTIONAL MATCH (p)-[r]->(q:Person) RETURN p, r, q`
      may return its rows for a store whose Person names are unique and which has no dangling
      relation. */
  function QueryRows(nodes: seq<Node>, edges: seq<Edge>): seq<Row> {
    EdgeRows(nodes, edges) + LoneRows(nodes, edges)
  }

  /** The rows the query may return: those of `QueryRows`, in any order, since the query has no
      `ORDER BY`. */
  predicate QueryResult(nodes: seq<Node>, edges: seq<Edge>, rows: seq<Row>) {
    multiset(rows) == multiset(QueryRows(nodes, edges))
  }

  /** No two Persons share a `nom`. */
  predicate UniqueNames(nodes: seq<Node>) {
    forall i, j :: 0 <= i < j < |nodes| && nodes[i].kind == Person && nodes[j].kind == Person ==>
      nodes[i].nom != nodes[j].nom
  }

  /** The Person nodes, in order. */
  function Persons(nodes: seq<Node>): (r: seq<Node>)
    ensures |r| <= |nodes|
  {
    if nodes == [] then [] else (if nodes[0].kind == Person then [nodes[0]] else []) + Persons(nodes[1..])
  }

  /** A relation as exported: endpoints and type, without its `edgeId`. */
  function Plain(edges: seq<Edge>): (r: seq<GraphEdge>)
    ensures |r| == |edges|
  {
    seq(|edges|, k requires 0 <= k < |edges| => GraphEdge(edges[k].source, edges[k].target, edges[k].relType))
  }

  /** A property map that some Person of the store has. */
  predicate FromPerson(nodes: seq<Node>, w: Props) {
    exists n :: n in nodes && n.kind == Person && w == PropsOf(n)
  }

  // ---------- lemmas ----------

  lemma UniqueNamesTail(nodes: seq<Node>)
    requires nodes != [] && UniqueNames(nodes)
    ensures UniqueNames(nodes[1..])
  {
    forall i, j | 0 <= i < j < |nodes| - 1 && nodes[1..][i].kind == Person && nodes[1..][j].kind == Person
      ensures nodes[1..][i].nom != nodes[1..][j].nom
    {
      assert nodes[1..][i] == nodes[i + 1] && nodes[1..][j] == nodes[j + 1];
    }
  }

  /** With unique names the first Person's name does not recur. */
  lemma HeadNameFresh(nodes: seq<Node>)
    requires nodes != [] && UniqueNames(nodes) && nodes[0].kind == Person
    ensures nodes[0].nom !in PersonNames(nodes[1..])
  {
    forall m | m in nodes[1..] && m.kind == Person ensures m.nom != nodes[0].nom {
      var j :| 0 <= j < |nodes[1..]| && nodes[1..][j] == m;
      assert nodes[j + 1] == m;
    }
  }

  /** With unique names a name selects at most one Person, and exactly one when it is a Person's. */
  lemma {:induction false} PersonCountOne(nodes: seq<Node>, k: string)
    requires UniqueNames(nodes)
    ensures PersonCount(nodes, k) == if k in PersonNames(nodes) then 1 else 0
  {
    PersonCountPositive(nodes, k);
    if nodes != [] {
      UniqueNamesTail(nodes);
      PersonCountOne(nodes[1..], k);
      assert nodes == [nodes[0]] + nodes[1..];
      PersonNamesAppend([nodes[0]], nodes[1..]);
      if IsPerson(nodes[0], k) {
        HeadNameFresh(nodes);
      }
    }
  }

  /** With unique names two Persons with the same `nom` are the same node. */
  lemma SamePerson(nodes: seq<Node>, m: Node, n: Node)
    requires UniqueNames(nodes)
    requires m in nodes && n in nodes && m.kind == Person && n.kind == Person && m.nom == n.nom
    ensures m == n
  {
    var i :| 0 <= i < |nodes| && nodes[i] == m;
    var j :| 0 <= j < |nodes| && nodes[j] == n;
  }

  /** Every node of the list is a Person. */
  lemma {:induction false} AllPersons(nodes: seq<Node>)
    requires forall k :: 0 <= k < |nodes| ==> nodes[k].kind == Person
    ensures Persons(nodes) == nodes
  {
    if nodes != [] {
      AllPersons(nodes[1..]);
    }
  }

  /** With unique names the number of names is the number of Persons. */
  lemma {:induction false} UniqueCount(nodes: seq<Node>)
    requires UniqueNames(nodes)
    ensures |PersonNames(nodes)| == |Persons(nodes)|
  {
    if nodes == [] {
      assert PersonNames(nodes) == {};
    } else {
      UniqueNamesTail(nodes);
      UniqueCount(nodes[1..]);
      HeadNames(nodes);
    }
  }

  /** The first node adds its name to the names of the rest exactly when it is a Person, and
      then the name is new. */
  lemma HeadNames(nodes: seq<Node>)
    requires nodes != [] && UniqueNames(nodes)
    ensures |PersonNames(nodes)| == |PersonNames(nodes[1..])| + (if nodes[0].kind == Person then 1 else 0)
    ensures |Persons(nodes)| == |Persons(nodes[1..])| + (if nodes[0].kind == Person then 1 else 0)
  {
    assert nodes == [nodes[0]] + nodes[1..];
    PersonNamesAppend([nodes[0]], nodes[1..]);
    if nodes[0].kind == Person {
      assert PersonNames([nodes[0]]) == {nodes[0].nom};
      HeadNameFresh(nodes);
    } else {
      assert PersonNames([nodes[0]]) == {};
    }
  }

  /** With unique names a relation between two Persons' names yields exactly one row. */
  lemma {:induction false} EdgeRowsUnfold(nodes: seq<Node>, edges: seq<Edge>) returns (p: Node, q: Node)
    requires UniqueNames(nodes) && edges != []
    requires edges[0].source in PersonNames(nodes) && edges[0].target in PersonNames(nodes)
    ensures p in nodes && IsPerson(p, edges[0].source) && q in nodes && IsPerson(q, edges[0].target)
    ensures Writes(EdgeRows(nodes, edges)) == [PropsOf(p), PropsOf(q)] + Writes(EdgeRows(nodes, edges[1..]))
    ensures RowEdges(EdgeRows(nodes, edges)) ==
            [GraphEdge(edges[0].source, edges[0].target, edges[0].relType)] + RowEdges(EdgeRows(nodes, edges[1..]))
  {
    var e := edges[0];
    p := NamedOne(nodes, e.source);
    q := NamedOne(nodes, e.target);
    var row := Row(PropsOf(p), Some(e.relType), Some(PropsOf(q)));
    var rest := EdgeRows(nodes, edges[1..]);
    assert EdgeRows(nodes, edges) == Cross(Named(nodes, e.source), Named(nodes, e.target), e.relType) + rest;
    CrossOne(p, q, e.relType);
    assert EdgeRows(nodes, edges) == [row] + rest;
    CompleteRowCons(PropsOf(p), e.relType, PropsOf(q), rest);
  }

  /** With unique names a Person's name selects exactly that Person. */
  lemma NamedOne(nodes: seq<Node>, k: string) returns (p: Node)
    requires UniqueNames(nodes) && k in PersonNames(nodes)
    ensures Named(nodes, k) == [p] && p in nodes && IsPerson(p, k)
  {
    PersonCountOne(nodes, k);
    var ps := Named(nodes, k);
    p := ps[0];
    assert p in ps;
    assert ps == [p];
  }

  lemma CrossOne(p: Node, q: Node, t: string)
    ensures Cross([p], [q], t) == [Row(PropsOf(p), Some(t), Some(PropsOf(q)))]
  {
    assert [p][1..] == [];
    assert Fan(p, [q], t) == [Row(PropsOf(p), Some(t), Some(PropsOf(q)))];
  }

  lemma RowCons(row: Row, rest: seq<Row>)
    ensures Writes([row] + rest) == [row.p] + (if Complete(row) then [row.q.value] else []) + Writes(rest)
    ensures RowEdges([row] + rest) == (if Complete(row) then [EdgeOf(row)] else []) + RowEdges(rest)
  {
    assert ([row] + rest)[1..] == rest;
  }

  /** A complete row writes both its Persons and pushes its edge. */
  lemma CompleteRowCons(a: Props, t: string, b: Props, rest: seq<Row>)
    ensures Writes([Row(a, Some(t), Some(b))] + rest) == [a, b] + Writes(rest)
    ensures RowEdges([Row(a, Some(t), Some(b))] + rest) == [GraphEdge(a.nom, b.nom, t)] + RowEdges(rest)
  {
    RowCons(Row(a, Some(t), Some(b)), rest);
  }

  lemma NoDanglingTail(nodes: seq<Node>, edges: seq<Edge>)
    requires edges != [] && NoDangling(nodes, edges)
    ensures NoDangling(nodes, edges[1..])
    ensures edges[0].source in PersonNames(nodes) && edges[0].target in PersonNames(nodes)
  {
    assert edges[0] in edges;
    forall g | g in edges[1..] ensures g in edges { }
  }

  lemma PlainCons(edges: seq<Edge>)
    requires edges != []
    ensures Plain(edges) == [GraphEdge(edges[0].source, edges[0].target, edges[0].relType)] + Plain(edges[1..])
  {
    var h := [GraphEdge(edges[0].source, edges[0].target, edges[0].relType)];
    forall k | 0 <= k < |edges| ensures Plain(edges)[k] == (h + Plain(edges[1..]))[k] {
      if k > 0 {
        assert edges[1..][k - 1] == edges[k];
      }
    }
  }

  /** Each relation yields one complete row, so the exported relations are the store's. */
  lemma {:induction false} EdgeRowsEdges(nodes: seq<Node>, edges: seq<Edge>)
    requires UniqueNames(nodes) && NoDangling(nodes, edges)
    ensures RowEdges(EdgeRows(nodes, edges)) == Plain(edges)
  {
    if edges != [] {
      NoDanglingTail(nodes, edges);
      EdgeRowsEdges(nodes, edges[1..]);
      var p, q := EdgeRowsUnfold(nodes, edges);
      PlainCons(edges);
    } else {
      assert Plain(edges) == [];
    }
  }

  /** The complete rows are written from the Persons' property maps, and cover every Person
      with an outgoing relation. */
  lemma {:induction false} EdgeRowsWrites(nodes: seq<Node>, edges: seq<Edge>)
    requires UniqueNames(nodes) && NoDangling(nodes, edges)
    ensures forall w :: w in Writes(EdgeRows(nodes, edges)) ==> FromPerson(nodes, w)
    ensures forall n :: n in nodes && n.kind == Person && HasOut(edges, n.nom) ==>
              PropsOf(n) in Writes(EdgeRows(nodes, edges))
  {
    if edges != [] {
      NoDanglingTail(nodes, edges);
      EdgeRowsWrites(nodes, edges[1..]);
      var p, q := EdgeRowsUnfold(nodes, edges);
      assert edges == [edges[0]] + edges[1..];
      forall n | n in nodes && n.kind == Person && HasOut(edges, n.nom)
        ensures PropsOf(n) in Writes(EdgeRows(nodes, edges))
      {
        if !HasOut(edges[1..], n.nom) {
          var g :| g in edges && g.source == n.nom;
          assert g == edges[0];
          SamePerson(nodes, p, n);
        }
      }
    }
  }

  /** The null-padded rows carry no relation; they are written from Persons without an
      outgoing relation, and every such Person has one. */
  lemma {:induction false} LoneRowsFacts(ns: seq<Node>, edges: seq<Edge>)
    ensures RowEdges(LoneRows(ns, edges)) == []
    ensures forall w :: w in Writes(LoneRows(ns, edges)) ==> FromPerson(ns, w)
    ensures forall n :: n in ns && n.kind == Person && !HasOut(edges, n.nom) ==>
              PropsOf(n) in Writes(LoneRows(ns, edges))
  {
    if ns != [] {
      LoneRowsFacts(ns[1..], edges);
      var head := if ns[0].kind == Person && !HasOut(edges, ns[0].nom) then [Row(PropsOf(ns[0]), None, None)] else [];
      var rest := LoneRows(ns[1..], edges);
      WritesAppend(head, rest);
      RowEdgesAppend(head, rest);
      assert ns == [ns[0]] + ns[1..];
      forall w | w in Writes(LoneRows(ns, edges)) ensures FromPerson(ns, w) {
        if w in Writes(rest) {
          var n :| n in ns[1..] && n.kind == Person && w == PropsOf(n);
          assert n in ns;
        } else {
          assert w == PropsOf(ns[0]);
        }
      }
    }
  }

  /** What the query returns for a store with unique Person names and no dangling relation:
      one complete row per relation, in order; its writes are exactly the Persons' property maps. */
  lemma QueryRowsFacts(nodes: seq<Node>, edges: seq<Edge>)
    requires UniqueNames(nodes) && NoDangling(nodes, edges)
    ensures RowEdges(QueryRows(nodes, edges)) == Plain(edges)
    ensures forall w :: w in Writes(QueryRows(nodes, edges)) ==> FromPerson(nodes, w)
    ensures forall n :: n in nodes && n.kind == Person ==> PropsOf(n) in Writes(QueryRows(nodes, edges))
  {
    EdgeRowsEdges(nodes, edges);
    EdgeRowsWrites(nodes, edges);
    LoneRowsFacts(nodes, edges);
    WritesAppend(EdgeRows(nodes, edges), LoneRows(nodes, edges));
    RowEdgesAppend(EdgeRows(nodes, edges), LoneRows(nodes, edges));
  }

  /** The facts above hold for the query's rows in whatever order they come, the relations
      then being a rearrangement of the store's. */
  lemma QueryResultFacts(nodes: seq<Node>, edges: seq<Edge>, rows: seq<Row>)
    requires UniqueNames(nodes) && NoDangling(nodes, edges) && QueryResult(nodes, edges, rows)
    ensures multiset(RowEdges(rows)) == multiset(Plain(edges))
    ensures forall w :: w in Writes(rows) ==> FromPerson(nodes, w)
    ensures forall n :: n in nodes && n.kind == Person ==> PropsOf(n) in Writes(rows)
  {
    var q := QueryRows(nodes, edges);
    QueryRowsFacts(nodes, edges);
    RowEdgesPerm(rows, q);
    forall w ensures w in Writes(rows) <==> w in Writes(q) {
      WritesMember(rows, w);
      WritesMember(q, w);
      forall row ensures row in rows <==> row in q {
        assert row in rows <==> row in multiset(rows);
        assert row in q <==> row in multiset(q);
      }
    }
  }

  /** The Persons POST /import recreates from the body GET /export returns for `rows`, the
      export's dictionary being of the given kind. */
  function ReimportedNodes(kind: DictKind, rows: seq<Row>): seq<Node> {
    Recreated(Values(Fold(kind, rows).entries))
  }

  /** The relations POST /import recreates from that body. */
  function ReimportedEdges(kind: DictKind, rows: seq<Row>): seq<Edge> {
    MatchedEdges(ReimportedNodes(kind, rows), RowEdges(rows))
  }

  /** The store's relations without their `edgeId`. */
  function Stripped(edges: seq<Edge>): seq<Edge> {
    Map(edges, (e: Edge) => e.(edgeId := None))
  }

  /** `m` is some original Person with the import defaults applied. */
  predicate FromPersonDefaulted(nodes: seq<Node>, m: Node) {
    exists n :: n in nodes && n.kind == Person && m == Defaulted(PropsOf(n))
  }

  /** Every re-imported Person is an original Person with the import defaults applied. */
  lemma ReimportedFromPersons(nodes: seq<Node>, edges: seq<Edge>, rows: seq<Row>)
    requires UniqueNames(nodes) && NoDangling(nodes, edges) && QueryResult(nodes, edges, rows)
    ensures forall i :: 0 <= i < |ReimportedNodes(NullPrototype, rows)| ==> FromPersonDefaulted(nodes, ReimportedNodes(NullPrototype, rows)[i])
  {
    QueryResultFacts(nodes, edges, rows);
    FoldCharacterized(NullPrototype, rows);
    var entries := Fold(NullPrototype, rows).entries;
    var n2 := ReimportedNodes(NullPrototype, rows);
    forall i | 0 <= i < |n2| ensures FromPersonDefaulted(nodes, n2[i]) {
      LookupPresent(entries, entries[i].0);
      LastWriteSome(Writes(rows), entries[i].0);
      assert n2[i] == Defaulted(entries[i].1);
      assert FromPerson(nodes, entries[i].1);
      var n :| n in nodes && n.kind == Person && entries[i].1 == PropsOf(n);
      assert n2[i] == Defaulted(PropsOf(n));
    }
  }

  /** Every original Person is re-imported, with the import defaults applied. */
  lemma PersonsReimported(nodes: seq<Node>, edges: seq<Edge>, rows: seq<Row>)
    requires UniqueNames(nodes) && NoDangling(nodes, edges) && QueryResult(nodes, edges, rows)
    ensures forall n :: n in nodes && n.kind == Person ==>
              exists i :: 0 <= i < |ReimportedNodes(NullPrototype, rows)| && ReimportedNodes(NullPrototype, rows)[i] == Defaulted(PropsOf(n))
  {
    QueryResultFacts(nodes, edges, rows);
    FoldCharacterized(NullPrototype, rows);
    var w := Writes(rows);
    var entries := Fold(NullPrototype, rows).entries;
    var n2 := ReimportedNodes(NullPrototype, rows);
    forall n | n in nodes && n.kind == Person ensures exists i :: 0 <= i < |n2| && n2[i] == Defaulted(PropsOf(n)) {
      LastWriteSome(w, n.nom);
      LookupPresent(entries, n.nom);
      var i :| 0 <= i < |entries| && entries[i].0 == n.nom;
      var v := LastWrite(w, n.nom).value;
      assert FromPerson(nodes, v);
      var m :| m in nodes && m.kind == Person && v == PropsOf(m);
      SamePerson(nodes, m, n);
      assert n2[i] == Defaulted(PropsOf(n));
    }
  }

  /** The re-imported Persons have unique names, the original Persons' names. */
  lemma ReimportedNames(nodes: seq<Node>, edges: seq<Edge>, rows: seq<Row>)
    requires UniqueNames(nodes) && NoDangling(nodes, edges) && QueryResult(nodes, edges, rows)
    ensures UniqueNames(ReimportedNodes(NullPrototype, rows))
    ensures PersonNames(ReimportedNodes(NullPrototype, rows)) == PersonNames(nodes)
  {
    FoldCharacterized(NullPrototype, rows);
    var entries := Fold(NullPrototype, rows).entries;
    var n2 := ReimportedNodes(NullPrototype, rows);
    forall i, j | 0 <= i < j < |n2| ensures n2[i].nom != n2[j].nom {
      assert n2[i].nom == entries[i].0 && n2[j].nom == entries[j].0;
    }
    ReimportedFromPersons(nodes, edges, rows);
    PersonsReimported(nodes, edges, rows);
    forall k | k in PersonNames(n2) ensures k in PersonNames(nodes) {
      var m :| m in n2 && m.kind == Person && m.nom == k;
      var i :| 0 <= i < |n2| && n2[i] == m;
      assert FromPersonDefaulted(nodes, n2[i]);
      var n :| n in nodes && n.kind == Person && n2[i] == Defaulted(PropsOf(n));
    }
    forall k | k in PersonNames(nodes) ensures k in PersonNames(n2) {
      var n :| n in nodes && n.kind == Person && n.nom == k;
      var i :| 0 <= i < |n2| && n2[i] == Defaulted(PropsOf(n));
      assert n2[i] in n2;
    }
  }

  /** As many Persons are re-imported as there were. */
  lemma ReimportedCount(nodes: seq<Node>, edges: seq<Edge>, rows: seq<Row>)
    requires UniqueNames(nodes) && NoDangling(nodes, edges) && QueryResult(nodes, edges, rows)
    ensures |ReimportedNodes(NullPrototype, rows)| == |Persons(nodes)|
  {
    var n2 := ReimportedNodes(NullPrototype, rows);
    ReimportedNames(nodes, edges, rows);
    UniqueCount(nodes);
    UniqueCount(n2);
    AllPersons(n2);
  }

  /** The relation POST /import creates for an exported edge between two single Persons. */
  function Unstored(g: GraphEdge): Edge {
    Edge(g.source, g.target, g.relType, None)
  }

  /** Both ends of every exported relation name exactly one re-imported Person. */
  lemma ExportedEndsSingle(nodes: seq<Node>, edges: seq<Edge>, rows: seq<Row>)
    requires UniqueNames(nodes) && NoDangling(nodes, edges) && QueryResult(nodes, edges, rows)
    ensures forall g :: g in RowEdges(rows) ==>
              PersonCount(ReimportedNodes(NullPrototype, rows), g.source) == 1 && PersonCount(ReimportedNodes(NullPrototype, rows), g.target) == 1
  {
    var n2 := ReimportedNodes(NullPrototype, rows);
    ReimportedNames(nodes, edges, rows);
    QueryResultFacts(nodes, edges, rows);
    forall g | g in RowEdges(rows) ensures PersonCount(n2, g.source) == 1 && PersonCount(n2, g.target) == 1 {
      assert g in multiset(Plain(edges));
      PlainEndsSingle(nodes, edges, n2, g);
    }
  }

  /** The ends of a store relation name one Person in any list with the store's Person names. */
  lemma PlainEndsSingle(nodes: seq<Node>, edges: seq<Edge>, n2: seq<Node>, g: GraphEdge)
    requires NoDangling(nodes, edges) && g in Plain(edges)
    requires UniqueNames(n2) && PersonNames(n2) == PersonNames(nodes)
    ensures PersonCount(n2, g.source) == 1 && PersonCount(n2, g.target) == 1
  {
    var k :| 0 <= k < |edges| && Plain(edges)[k] == g;
    assert edges[k] in edges;
    PersonCountOne(n2, g.source);
    PersonCountOne(n2, g.target);
  }

  /** Each exported relation is recreated once, in the order of the rows. */
  lemma ReimportedEdgesMap(nodes: seq<Node>, edges: seq<Edge>, rows: seq<Row>)
    requires UniqueNames(nodes) && NoDangling(nodes, edges) && QueryResult(nodes, edges, rows)
    ensures ReimportedEdges(NullPrototype, rows) == Map(RowEdges(rows), Unstored)
  {
    ExportedEndsSingle(nodes, edges, rows);
    MatchedEdgesMap(ReimportedNodes(NullPrototype, rows), RowEdges(rows));
  }

  /** With single Persons at both ends, each input relation is created once, in order. */
  lemma MatchedEdgesMap(n2: seq<Node>, input: seq<GraphEdge>)
    requires forall g :: g in input ==> PersonCount(n2, g.source) == 1 && PersonCount(n2, g.target) == 1
    ensures MatchedEdges(n2, input) == Map(input, Unstored)
  {
    MatchedEdgesOneEach(n2, input);
    var m, u := MatchedEdges(n2, input), Map(input, Unstored);
    forall k | 0 <= k < |input| ensures m[k] == u[k] {
      assert u[k] == Unstored(input[k]);
    }
  }

  lemma StrippedPlain(edges: seq<Edge>)
    ensures Stripped(edges) == Map(Plain(edges), Unstored)
  {
    var s, u := Stripped(edges), Map(Plain(edges), Unstored);
    forall k | 0 <= k < |edges| ensures s[k] == u[k] {
      assert s[k] == edges[k].(edgeId := None);
      assert u[k] == Unstored(Plain(edges)[k]);
    }
  }

  /** Each original relation is re-imported once, without its `edgeId`; in the order of
      `QueryRows` the relations come back in store order. */
  lemma ReimportedRelations(nodes: seq<Node>, edges: seq<Edge>, rows: seq<Row>)
    requires UniqueNames(nodes) && NoDangling(nodes, edges) && QueryResult(nodes, edges, rows)
    ensures |ReimportedEdges(NullPrototype, rows)| == |edges|
    ensures multiset(ReimportedEdges(NullPrototype, rows)) == multiset(Stripped(edges))
    ensures rows == QueryRows(nodes, edges) ==>
              forall k :: 0 <= k < |edges| ==> ReimportedEdges(NullPrototype, rows)[k] == edges[k].(edgeId := None)
  {
    var exEdges := RowEdges(rows);
    QueryResultFacts(nodes, edges, rows);
    ReimportedEdgesMap(nodes, edges, rows);
    StrippedPlain(edges);
    MapPerm(exEdges, Plain(edges), Unstored);
    assert |exEdges| == |multiset(exEdges)| == |multiset(Plain(edges))| == |edges|;
    if rows == QueryRows(nodes, edges) {
      QueryRowsFacts(nodes, edges);
    }
  }

  /** GET /export followed by POST /import of its body, for a store whose Persons have unique
      names and for the query's rows in any order: the import recreates one Person per original
      Person (same count, no two sharing a name), each with its `nom`, `origine || null`,
      `x || 0`, `y || 0` and no `nodeId`; and one relation per original relation, with the same
      endpoints and type and no `edgeId`, in store order when the rows come in the order of
      `QueryRows`. */
  lemma ExportImport(nodes: seq<Node>, edges: seq<Edge>, rows: seq<Row>)
    requires UniqueNames(nodes) && NoDangling(nodes, edges) && QueryResult(nodes, edges, rows)
    ensures var n2 := ReimportedNodes(NullPrototype, rows);
            && |n2| == |Persons(nodes)|
            && UniqueNames(n2)
            && (forall i :: 0 <= i < |n2| ==> FromPersonDefaulted(nodes, n2[i]))
            && (forall n :: n in nodes && n.kind == Person ==> exists i :: 0 <= i < |n2| && n2[i] == Defaulted(PropsOf(n)))
    ensures var e2 := ReimportedEdges(NullPrototype, rows);
            && |e2| == |edges|
            && multiset(e2) == multiset(Stripped(edges))
            && (rows == QueryRows(nodes, edges) ==> forall k :: 0 <= k < |edges| ==> e2[k] == edges[k].(edgeId := None))
  {
    ReimportedFromPersons(nodes, edges, rows);
    PersonsReimported(nodes, edges, rows);
    ReimportedNames(nodes, edges, rows);
    ReimportedCount(nodes, edges, rows);
    ReimportedRelations(nodes, edges, rows);
  }

  // ---------- the plain-object dictionary of the handlers ----------

  /** For a store in which no Person is named `__proto__`, the handlers' plain `{}` gives the
      same export, hence the same re-import, as the prototype-free dictionary, so the round
      trip above holds for the handlers as written. */
  lemma PlainObjectAgrees(nodes: seq<Node>, edges: seq<Edge>, rows: seq<Row>)
    requires UniqueNames(nodes) && NoDangling(nodes, edges) && QueryResult(nodes, edges, rows)
    requires ProtoKey !in PersonNames(nodes)
    ensures Fold(PlainObject, rows) == Fold(NullPrototype, rows)
    ensures ReimportedNodes(PlainObject, rows) == ReimportedNodes(NullPrototype, rows)
    ensures ReimportedEdges(PlainObject, rows) == ReimportedEdges(NullPrototype, rows)
  {
    QueryResultFacts(nodes, edges, rows);
    forall w | w in Writes(rows) ensures w.nom != ProtoKey {
      var n :| n in nodes && n.kind == Person && w == PropsOf(n);
      assert n.nom in PersonNames(nodes);
    }
    FoldKindsAgree(rows);
  }

  /** A store with a Person named `__proto__` and a relation from it to Marie MARTIN. */
  const ProtoPerson: Node := Node(Person, ProtoKey, None, Some(0), Some(0), None)
  const Marie: Node := Node(Person, "Marie MARTIN", None, Some(0), Some(0), None)
  const ProtoNodes: seq<Node> := [ProtoPerson, Marie]
  const ProtoEdges: seq<Edge> := [Edge(ProtoKey, "Marie MARTIN", "AMI", None)]

  /** The complete row for the relation, and the lone row for Marie MARTIN. */
  lemma ProtoRows()
    ensures QueryRows(ProtoNodes, ProtoEdges) ==
              [Row(PropsOf(ProtoPerson), Some("AMI"), Some(PropsOf(Marie))), Row(PropsOf(Marie), None, None)]
  {
    var a, b, nodes, edges := ProtoPerson, Marie, ProtoNodes, ProtoEdges;
    var r1 := Row(PropsOf(a), Some("AMI"), Some(PropsOf(b)));
    var r2 := Row(PropsOf(b), None, None);
    assert ProtoKey != "Marie MARTIN";
    assert Named(nodes, ProtoKey) == [a];
    assert Named(nodes, "Marie MARTIN") == [b];
    assert Fan(a, [b], "AMI") == [r1];
    assert Cross([a], [b], "AMI") == Fan(a, [b], "AMI") + Cross([], [b], "AMI");
    assert edges[1..] == [];
    assert EdgeRows(nodes, edges) == Cross([a], [b], "AMI") + EdgeRows(nodes, []);
    assert HasOut(edges, ProtoKey) && !HasOut(edges, "Marie MARTIN");
    assert nodes[1..] == [b] && [b][1..] == [];
    assert LoneRows(nodes, edges) == LoneRows([b], edges);
    assert LoneRows([b], edges) == [r2] + LoneRows([], edges);
  }

  /** On the plain object the `__proto__` write adds no key. */
  lemma ProtoFold()
    ensures Fold(PlainObject, QueryRows(ProtoNodes, ProtoEdges)) ==
              Assembly([(Marie.nom, PropsOf(Marie))], [GraphEdge(ProtoKey, "Marie MARTIN", "AMI")])
  {
    ProtoRows();
    var r1 := Row(PropsOf(ProtoPerson), Some("AMI"), Some(PropsOf(Marie)));
    var r2 := Row(PropsOf(Marie), None, None);
    var rows := [r1, r2];
    var e1 := Assembly([(Marie.nom, PropsOf(Marie))], [GraphEdge(ProtoKey, "Marie MARTIN", "AMI")]);
    assert Step(PlainObject, Assembly([], []), r1) == e1;
    assert Step(PlainObject, e1, r2) == e1;
    assert rows[1..] == [r2] && [r2][1..] == [];
    assert FoldFrom(PlainObject, e1, [r2]) == FoldFrom(PlainObject, e1, []);
    assert Fold(PlainObject, rows) == FoldFrom(PlainObject, e1, [r2]);
  }

  /** For that store the handlers' export omits the `__proto__` Person while keeping the
      relation that leaves it, so re-importing the export recreates Marie MARTIN alone and no
      relation; the prototype-free dictionary brings back both Persons and the relation. */
  lemma ProtoPersonLost()
    ensures UniqueNames(ProtoNodes) && NoDangling(ProtoNodes, ProtoEdges)
    ensures var rows := QueryRows(ProtoNodes, ProtoEdges);
            && RowEdges(rows) == [GraphEdge(ProtoKey, "Marie MARTIN", "AMI")]
            && ReimportedNodes(PlainObject, rows) == [Defaulted(PropsOf(Marie))]
            && ReimportedEdges(PlainObject, rows) == []
            && |ReimportedNodes(NullPrototype, rows)| == 2
            && |ReimportedEdges(NullPrototype, rows)| == 1
  {
    var rows := QueryRows(ProtoNodes, ProtoEdges);
    ProtoFold();
    var n2 := ReimportedNodes(PlainObject, rows);
    assert n2 == [Defaulted(PropsOf(Marie))];
    assert PersonCount(n2, ProtoKey) == 0;
    var g := GraphEdge(ProtoKey, "Marie MARTIN", "AMI");
    assert RowEdges(rows) == [g] by {
      FoldCharacterized(PlainObject, rows);
    }
    assert [g][..0] == [];
    assert NewEdges(n2, ProtoKey, "Marie MARTIN", "AMI") == [];
    assert MatchedEdges(n2, [g]) == MatchedEdges(n2, []) + NewEdges(n2, ProtoKey, "Marie MARTIN", "AMI");
    assert PersonNames(ProtoNodes) == {ProtoKey, "Marie MARTIN"};
    ProtoCorrected();
  }

  /** The corrected round trip for that store. */
  lemma ProtoCorrected()
    ensures var rows := QueryRows(ProtoNodes, ProtoEdges);
            |ReimportedNodes(NullPrototype, rows)| == 2 && |ReimportedEdges(NullPrototype, rows)| == 1
  {
    assert ProtoKey != "Marie MARTIN";
    assert PersonNames(ProtoNodes) == {ProtoKey, "Marie MARTIN"};
    assert Persons(ProtoNodes) == ProtoNodes;
    ExportImport(ProtoNodes, ProtoEdges, QueryRows(ProtoNodes, ProtoEdges));
  }
}
