/** backend/ids.js: six-digit identifiers for Persons (`nodeId`) and relations (`edgeId`),
    allocated by bounded random probing, and the pass that gives one to every record lacking it. */
module Ids {
  import opened Wrappers
  import opened Text
  import opened GraphStore

  /** `Math.floor(100000 + Math.random() * 900000)`: the random source is an oracle of such draws. */
  type Draw = n: int | 100000 <= n <= 999999 witness 100000

  /** The number of probes before giving up. */
  const MaxProbes: nat := 50

  /** `random6`: the decimal string of a draw, six digits that read back as the draw. */
  function Random6(d: Draw): (s: string)
    ensures |s| == 6
    ensures forall i :: 0 <= i < |s| ==> IsDigit(s[i])
    ensures DecimalValue(s) == d
  {
    assert Pow10(5) == 100000 by {
      assert Pow10(1) == 10 && Pow10(2) == 100 && Pow10(3) == 1000 && Pow10(4) == 10000;
    }
    DecimalLength(d, 6, 100000);
    DecimalRoundTrip(d);
    DecimalString(d)
  }

  /** Different draws give different ids. */
  lemma Random6Injective(a: Draw, b: Draw)
    requires Random6(a) == Random6(b)
    ensures a == b
  {
  }

  /** `p.nodeId IS NULL OR size(toString(p.nodeId)) <> 6` fails: the id is present and six long. */
  predicate ValidId(id: Option<string>) {
    id.Some? && |id.value| == 6
  }

  /** The ids `MATCH (p:Person {nodeId: $id})` can find. */
  function NodeIdsInUse(nodes: seq<Node>): set<string> {
    set n | n in nodes && n.kind == Person && n.nodeId.Some? :: n.nodeId.value
  }

  /** The ids `MATCH ()-[r]->() WHERE r.edgeId = $id` can find. */
  function EdgeIdsInUse(edges: seq<Edge>): set<string> {
    set e | e in edges && e.edgeId.Some? :: e.edgeId.value
  }

  /** The probing loop shared by both generators: up to 50 draws, from position `from` of the
      oracle, the first one not in use is returned; after 50 ids in use it fails. `next` is the
      position of the first unused draw. */
  method Probe(inUse: set<string>, draws: nat -> Draw, from: nat, failure: string) returns (r: Result<string>, next: nat)
    ensures r.Ok? ==> from < next <= from + MaxProbes && r.value == Random6(draws(next - 1)) && r.value !in inUse
    ensures r.Ok? ==> forall j :: from <= j < next - 1 ==> Random6(draws(j)) in inUse
    ensures r.Err? ==> r.message == failure && next == from + MaxProbes
    ensures r.Err? ==> forall j :: from <= j < from + MaxProbes ==> Random6(draws(j)) in inUse
  {
    var i := 0;
    while i < MaxProbes
      invariant 0 <= i <= MaxProbes
      invariant forall j :: from <= j < from + i ==> Random6(draws(j)) in inUse
    {
      var id := Random6(draws(from + i));
      if id !in inUse {
        return Ok(id), from + i + 1;
      }
      i := i + 1;
    }
    return Err(failure), from + MaxProbes;
  }

  /** `generateUniqueNodeId`: the first of the next draws whose six-digit id no Person's `nodeId`
      equals, or failure after 50 draws all in use. Relation ids play no part. */
  method GenerateUniqueNodeId(nodes: seq<Node>, draws: nat -> Draw, from: nat) returns (r: Result<string>, next: nat)
    ensures r.Ok? ==> |r.value| == 6 && r.value !in NodeIdsInUse(nodes) && from < next <= from + MaxProbes
    ensures r.Ok? ==> forall n :: n in nodes && n.kind == Person ==> n.nodeId != Some(r.value)
    ensures r.Ok? ==> r.value == Random6(draws(next - 1))
                      && forall j :: from <= j < next - 1 ==> Random6(draws(j)) in NodeIdsInUse(nodes)
    ensures r.Err? ==> next == from + MaxProbes && forall j :: from <= j < from + MaxProbes ==> Random6(draws(j)) in NodeIdsInUse(nodes)
  {
    r, next := Probe(NodeIdsInUse(nodes), draws, from, "Impossible de générer un nodeId unique");
  }

  /** `generateUniqueEdgeId`: the first of the next draws whose six-digit id no relation's
      `edgeId` equals, or failure after 50 draws all in use. Person ids play no part. */
  method GenerateUniqueEdgeId(edges: seq<Edge>, draws: nat -> Draw, from: nat) returns (r: Result<string>, next: nat)
    ensures r.Ok? ==> |r.value| == 6 && r.value !in EdgeIdsInUse(edges) && from < next <= from + MaxProbes
    ensures r.Ok? ==> forall e :: e in edges ==> e.edgeId != Some(r.value)
    ensures r.Ok? ==> r.value == Random6(draws(next - 1))
                      && forall j :: from <= j < next - 1 ==> Random6(draws(j)) in EdgeIdsInUse(edges)
    ensures r.Err? ==> next == from + MaxProbes && forall j :: from <= j < from + MaxProbes ==> Random6(draws(j)) in EdgeIdsInUse(edges)
  {
    r, next := Probe(EdgeIdsInUse(edges), draws, from, "Impossible de générer un edgeId unique");
  }

  // ---------- migration ----------

  /** `MATCH (p:Person) WHERE <no valid nodeId> RETURN p.nom`, in store order. */
  function InvalidNames(nodes: seq<Node>): (r: seq<string>)
    ensures forall n :: n in nodes && n.kind == Person && !ValidId(n.nodeId) ==> n.nom in r
    ensures OnlyInvalidNamed(nodes, r)
    ensures |r| <= |nodes|
  {
    if nodes == [] then []
    else (if nodes[0].kind == Person && !ValidId(nodes[0].nodeId) then [nodes[0].nom] else []) + InvalidNames(nodes[1..])
  }

  /** Every name in `names` belongs to some Person without a valid id. */
  predicate OnlyInvalidNamed(nodes: seq<Node>, names: seq<string>) {
    forall x :: x in names ==> exists n :: n in nodes && n.kind == Person && !ValidId(n.nodeId) && n.nom == x
  }

  /** What identifies a relation to the migration: its endpoints and type. */
  datatype EdgeKey = EdgeKey(source: string, target: string, relType: string)

  function KeyOf(e: Edge): EdgeKey {
    EdgeKey(e.source, e.target, e.relType)
  }

  /** `MATCH (a:Person)-[r]->(b:Person) WHERE <no valid edgeId> RETURN a.nom, b.nom, type(r)`. */
  function InvalidKeys(edges: seq<Edge>): (r: seq<EdgeKey>)
    ensures forall e :: e in edges && !ValidId(e.edgeId) ==> KeyOf(e) in r
    ensures OnlyInvalidKeyed(edges, r)
    ensures |r| <= |edges|
  {
    if edges == [] then []
    else (if !ValidId(edges[0].edgeId) then [KeyOf(edges[0])] else []) + InvalidKeys(edges[1..])
  }

  /** Every key in `keys` is that of some relation without a valid id. */
  predicate OnlyInvalidKeyed(edges: seq<Edge>, keys: seq<EdgeKey>) {
    forall x :: x in keys ==> exists e :: e in edges && !ValidId(e.edgeId) && KeyOf(e) == x
  }

  /** Every Person has a valid id. */
  predicate PersonIdsValid(nodes: seq<Node>) {
    forall k :: 0 <= k < |nodes| && nodes[k].kind == Person ==> ValidId(nodes[k].nodeId)
  }

  /** Every relation has a valid id. */
  predicate RelationIdsValid(edges: seq<Edge>) {
    forall k :: 0 <= k < |edges| ==> ValidId(edges[k].edgeId)
  }

  /** With every Person id valid no name is selected. */
  lemma {:induction false} NoInvalidNames(nodes: seq<Node>)
    requires PersonIdsValid(nodes)
    ensures InvalidNames(nodes) == []
  {
    if nodes != [] {
      assert forall k :: 0 <= k < |nodes| - 1 ==> nodes[1..][k] == nodes[k + 1];
      NoInvalidNames(nodes[1..]);
    }
  }

  /** With every relation id valid no key is selected. */
  lemma {:induction false} NoInvalidKeys(edges: seq<Edge>)
    requires RelationIdsValid(edges)
    ensures InvalidKeys(edges) == []
  {
    if edges != [] {
      assert forall k :: 0 <= k < |edges| - 1 ==> edges[1..][k] == edges[k + 1];
      NoInvalidKeys(edges[1..]);
    }
  }

  /** Once the selected Persons have valid ids, every Person has one. */
  lemma NamedIdsComplete(nodes0: seq<Node>, nodes1: seq<Node>)
    requires OnlyNodeIds(nodes0, nodes1) && KeptUnlessNamed(nodes0, nodes1, InvalidNames(nodes0))
    requires NamedIdsValid(nodes1, InvalidNames(nodes0))
    ensures PersonIdsValid(nodes1)
  {
    var names := InvalidNames(nodes0);
    forall k | 0 <= k < |nodes1| && nodes1[k].kind == Person ensures ValidId(nodes1[k].nodeId) {
      assert nodes0[k] in nodes0;
      if nodes1[k].nom !in names {
        assert nodes1[k] == nodes0[k];
      }
    }
  }

  /** Once the selected relations have valid ids, every relation has one. */
  lemma KeyedIdsComplete(edges0: seq<Edge>, edges1: seq<Edge>)
    requires OnlyEdgeIds(edges0, edges1) && KeptUnlessKeyed(edges0, edges1, InvalidKeys(edges0))
    requires KeyedIdsValid(edges1, InvalidKeys(edges0))
    ensures RelationIdsValid(edges1)
  {
    var keys := InvalidKeys(edges0);
    forall k | 0 <= k < |edges1| ensures ValidId(edges1[k].edgeId) {
      assert edges0[k] in edges0;
      if KeyOf(edges1[k]) !in keys {
        assert edges1[k] == edges0[k];
      }
    }
  }

  /** Every Person named `nom` has a valid id. */
  predicate NameIdsValid(nodes: seq<Node>, nom: string) {
    forall n :: n in nodes && n.kind == Person && n.nom == nom ==> ValidId(n.nodeId)
  }

  /** Every relation of key `key` has a valid id. */
  predicate KeyIdsValid(edges: seq<Edge>, key: EdgeKey) {
    forall e :: e in edges && KeyOf(e) == key ==> ValidId(e.edgeId)
  }

  /** A name whose Persons all have valid ids is not among names of Persons without one. */
  lemma UnsharedNameNotSelected(nodes: seq<Node>, names: seq<string>, nom: string)
    requires OnlyInvalidNamed(nodes, names)
    requires NameIdsValid(nodes, nom)
    ensures nom !in names
  {
  }

  /** A key whose relations all have valid ids is not among keys of relations without one. */
  lemma UnsharedKeyNotSelected(edges: seq<Edge>, keys: seq<EdgeKey>, key: EdgeKey)
    requires OnlyInvalidKeyed(edges, keys)
    requires KeyIdsValid(edges, key)
    ensures key !in keys
  {
  }

  /** A Person whose id is valid, and whose name no Person without a valid id shares, is not
      selected, so a pass that keeps the unselected nodes (as `Migrate` does) keeps it. */
  lemma ValidPersonKept(before: seq<Node>, after: seq<Node>, k: nat)
    requires KeptUnlessNamed(before, after, InvalidNames(before))
    requires k < |before| && before[k].kind == Person
    requires NameIdsValid(before, before[k].nom)
    ensures after[k] == before[k]
  {
    var names := InvalidNames(before);
    UnsharedNameNotSelected(before, names, before[k].nom);
    assert !(before[k].kind == Person && before[k].nom in names);
  }

  /** A relation whose id is valid, and whose key no relation without a valid id shares, is not
      selected, so a pass that keeps the unselected relations (as `Migrate` does) keeps it. */
  lemma ValidRelationKept(before: seq<Edge>, after: seq<Edge>, k: nat)
    requires KeptUnlessKeyed(before, after, InvalidKeys(before))
    requires k < |before|
    requires KeyIdsValid(before, KeyOf(before[k]))
    ensures after[k] == before[k]
  {
    UnsharedKeyNotSelected(before, InvalidKeys(before), KeyOf(before[k]));
  }

  /** `MATCH (p:Person {nom: $nom}) SET p.nodeId = $nodeId`. */
  function WithNodeId(nodes: seq<Node>, nom: string, id: string): (r: seq<Node>)
    ensures |r| == |nodes|
    ensures forall k :: 0 <= k < |nodes| ==> r[k] == if IsPerson(nodes[k], nom) then nodes[k].(nodeId := Some(id)) else nodes[k]
  {
    seq(|nodes|, k requires 0 <= k < |nodes| => if IsPerson(nodes[k], nom) then nodes[k].(nodeId := Some(id)) else nodes[k])
  }

  /** `MATCH (a:Person {nom: $source})-[r:T]->(b:Person {nom: $target}) SET r.edgeId = $edgeId`. */
  function WithEdgeId(edges: seq<Edge>, key: EdgeKey, id: string): (r: seq<Edge>)
    ensures |r| == |edges|
    ensures forall k :: 0 <= k < |edges| ==> r[k] == if KeyOf(edges[k]) == key then edges[k].(edgeId := Some(id)) else edges[k]
  {
    seq(|edges|, k requires 0 <= k < |edges| => if KeyOf(edges[k]) == key then edges[k].(edgeId := Some(id)) else edges[k])
  }

  /** Setting an id keeps every node's label and name, so no relation starts dangling. */
  lemma WithNodeIdKeepsNames(nodes: seq<Node>, nom: string, id: string)
    ensures PersonNames(WithNodeId(nodes, nom, id)) == PersonNames(nodes)
  {
    SameNames(nodes, WithNodeId(nodes, nom, id));
  }

  /** After an id is set on the Persons named `nom`, those Persons' id differs from that of every
      Person with another name, provided the id was not in use. */
  lemma FreshIdSeparates(nodes: seq<Node>, nom: string, id: string, i: nat, j: nat)
    requires id !in NodeIdsInUse(nodes)
    requires i < |nodes| && j < |nodes| && IsPerson(nodes[i], nom) && nodes[j].kind == Person && nodes[j].nom != nom
    ensures WithNodeId(nodes, nom, id)[i].nodeId != WithNodeId(nodes, nom, id)[j].nodeId
  {
    assert nodes[j] in nodes;
  }

  // ---------- what the migration passes keep and establish ----------

  /** Only the Persons' `nodeId` differs between `before` and `after`. */
  predicate OnlyNodeIds(before: seq<Node>, after: seq<Node>) {
    |after| == |before| && forall k :: 0 <= k < |before| ==> after[k] == before[k].(nodeId := after[k].nodeId)
  }

  /** Nodes other than Persons of a name in `names` are as they were. */
  predicate KeptUnlessNamed(before: seq<Node>, after: seq<Node>, names: seq<string>) {
    |after| == |before|
    && forall k :: 0 <= k < |before| && !(before[k].kind == Person && before[k].nom in names) ==> after[k] == before[k]
  }

  /** Every Person of a name in `names` has a valid id. */
  predicate NamedIdsValid(nodes: seq<Node>, names: seq<string>) {
    forall k :: 0 <= k < |nodes| && nodes[k].kind == Person && nodes[k].nom in names ==> ValidId(nodes[k].nodeId)
  }

  /** A Person of a name in `names` and a Person of another name have different ids. */
  predicate NamedIdsDistinct(nodes: seq<Node>, names: seq<string>) {
    forall a, b ::
      (0 <= a < |nodes| && 0 <= b < |nodes| && nodes[a].kind == Person && nodes[b].kind == Person
       && nodes[a].nom in names && nodes[a].nom != nodes[b].nom) ==> nodes[a].nodeId != nodes[b].nodeId
  }

  /** Only the relations' `edgeId` differs between `before` and `after`. */
  predicate OnlyEdgeIds(before: seq<Edge>, after: seq<Edge>) {
    |after| == |before| && forall k :: 0 <= k < |before| ==> after[k] == before[k].(edgeId := after[k].edgeId)
  }

  /** Relations whose key is not in `keys` are as they were. */
  predicate KeptUnlessKeyed(before: seq<Edge>, after: seq<Edge>, keys: seq<EdgeKey>) {
    |after| == |before| && forall k :: 0 <= k < |before| && KeyOf(before[k]) !in keys ==> after[k] == before[k]
  }

  /** Every relation whose key is in `keys` has a valid id. */
  predicate KeyedIdsValid(edges: seq<Edge>, keys: seq<EdgeKey>) {
    forall k :: 0 <= k < |edges| && KeyOf(edges[k]) in keys ==> ValidId(edges[k].edgeId)
  }

  /** A relation whose key is in `keys` and a relation of another key have different ids. */
  predicate KeyedIdsDistinct(edges: seq<Edge>, keys: seq<EdgeKey>) {
    forall a, b :: 0 <= a < |edges| && 0 <= b < |edges| && KeyOf(edges[a]) in keys && KeyOf(edges[a]) != KeyOf(edges[b])
      ==> edges[a].edgeId != edges[b].edgeId
  }

  /** One round of the first loop: setting a fresh id on the Persons of the next name extends
      all four facts to that name. */
  lemma NodeRound(nodes0: seq<Node>, before: seq<Node>, names: seq<string>, i: nat, id: string)
    requires i < |names| && |id| == 6 && id !in NodeIdsInUse(before)
    requires OnlyNodeIds(nodes0, before) && KeptUnlessNamed(nodes0, before, names[..i])
    requires NamedIdsValid(before, names[..i]) && NamedIdsDistinct(before, names[..i])
    ensures var after := WithNodeId(before, names[i], id);
            && OnlyNodeIds(nodes0, after) && KeptUnlessNamed(nodes0, after, names[..i + 1])
            && NamedIdsValid(after, names[..i + 1]) && NamedIdsDistinct(after, names[..i + 1])
  {
    var nom := names[i];
    var after := WithNodeId(before, nom, id);
    assert names[..i + 1] == names[..i] + [nom];
    forall a, b | 0 <= a < |after| && 0 <= b < |after| && after[a].kind == Person && after[b].kind == Person
                  && after[a].nom in names[..i + 1] && after[a].nom != after[b].nom
      ensures after[a].nodeId != after[b].nodeId
    {
      if after[a].nom == nom {
        FreshIdSeparates(before, nom, id, a, b);
      } else if after[b].nom == nom {
        assert before[a] in before && before[a].nodeId.Some?;
        FreshIdSeparates(before, nom, id, b, a);
      }
    }
  }

  /** One round of the second loop, for the relations of the next key. */
  lemma EdgeRound(edges0: seq<Edge>, before: seq<Edge>, keys: seq<EdgeKey>, j: nat, id: string)
    requires j < |keys| && |id| == 6 && id !in EdgeIdsInUse(before)
    requires OnlyEdgeIds(edges0, before) && KeptUnlessKeyed(edges0, before, keys[..j])
    requires KeyedIdsValid(before, keys[..j]) && KeyedIdsDistinct(before, keys[..j])
    ensures var after := WithEdgeId(before, keys[j], id);
            && OnlyEdgeIds(edges0, after) && KeptUnlessKeyed(edges0, after, keys[..j + 1])
            && KeyedIdsValid(after, keys[..j + 1]) && KeyedIdsDistinct(after, keys[..j + 1])
  {
    var key := keys[j];
    var after := WithEdgeId(before, key, id);
    assert keys[..j + 1] == keys[..j] + [key];
    forall a, b | 0 <= a < |after| && 0 <= b < |after| && KeyOf(after[a]) in keys[..j + 1] && KeyOf(after[a]) != KeyOf(after[b])
      ensures after[a].edgeId != after[b].edgeId
    {
      if KeyOf(after[a]) == key {
        assert before[b] in before;
      } else if KeyOf(after[b]) == key {
        assert before[a] in before && before[a].edgeId.Some?;
      }
    }
  }

  /** Setting a relation id keeps its ends, so no relation starts dangling. */
  lemma WithEdgeIdKeepsEnds(nodes: seq<Node>, edges: seq<Edge>, key: EdgeKey, id: string)
    requires NoDangling(nodes, edges)
    ensures NoDangling(nodes, WithEdgeId(edges, key, id))
  {
    var after := WithEdgeId(edges, key, id);
    forall e | e in after ensures e.source in PersonNames(nodes) && e.target in PersonNames(nodes) {
      var k :| 0 <= k < |after| && after[k] == e;
      assert edges[k] in edges;
    }
  }

  /** The first loop of the migration: for each selected name in turn a fresh Person id is
      drawn and set on every Person of that name. Only Persons of a selected name change, and
      only their `nodeId`. On success each of them has a valid id, different from that of every
      Person with another name. */
  method AssignNodeIds(store: Store, names: seq<string>, draws: nat -> Draw, from: nat) returns (r: Result<()>, next: nat)
    requires store.Valid()
    modifies store
    ensures store.Valid() && store.edges == old(store.edges)
    ensures names == [] ==> r.Ok? && store.nodes == old(store.nodes) && next == from
    ensures OnlyNodeIds(old(store.nodes), store.nodes) && KeptUnlessNamed(old(store.nodes), store.nodes, names)
    ensures r.Ok? ==> NamedIdsValid(store.nodes, names) && NamedIdsDistinct(store.nodes, names)
  {
    ghost var nodes0 := store.nodes;
    next := from;
    var i := 0;
    while i < |names|
      invariant 0 <= i <= |names| && next >= from
      invariant names == [] ==> next == from
      invariant store.Valid() && store.edges == old(store.edges)
      invariant OnlyNodeIds(nodes0, store.nodes) && KeptUnlessNamed(nodes0, store.nodes, names[..i])
      invariant NamedIdsValid(store.nodes, names[..i]) && NamedIdsDistinct(store.nodes, names[..i])
    {
      var id;
      id, next := GenerateUniqueNodeId(store.nodes, draws, next);
      if id.Err? {
        assert names[..i] + names[i..] == names;
        KeptMore(nodes0, store.nodes, names[..i], names);
        return Err(id.message), next;
      }
      NodeRound(nodes0, store.nodes, names, i, id.value);
      WithNodeIdKeepsNames(store.nodes, names[i], id.value);
      store.nodes := WithNodeId(store.nodes, names[i], id.value);
      i := i + 1;
    }
    assert names[..|names|] == names;
    r := Ok(());
  }

  /** What is kept outside a list of names is kept outside any longer list. */
  lemma KeptMore(before: seq<Node>, after: seq<Node>, names: seq<string>, more: seq<string>)
    requires KeptUnlessNamed(before, after, names)
    requires forall n :: n in names ==> n in more
    ensures KeptUnlessNamed(before, after, more)
  {
  }

  /** The same for relation keys. */
  lemma KeptMoreKeys(before: seq<Edge>, after: seq<Edge>, keys: seq<EdgeKey>, more: seq<EdgeKey>)
    requires KeptUnlessKeyed(before, after, keys)
    requires forall k :: k in keys ==> k in more
    ensures KeptUnlessKeyed(before, after, more)
  {
  }

  /** The second loop of the migration: for each selected key in turn a fresh relation id is
      drawn and set on every relation with that key. Only relations of a selected key change,
      and only their `edgeId`. On success each of them has a valid id, different from that of
      every relation with another key. */
  method AssignEdgeIds(store: Store, keys: seq<EdgeKey>, draws: nat -> Draw, from: nat) returns (r: Result<()>, next: nat)
    requires store.Valid()
    modifies store
    ensures store.Valid() && store.nodes == old(store.nodes)
    ensures keys == [] ==> r.Ok? && store.edges == old(store.edges) && next == from
    ensures OnlyEdgeIds(old(store.edges), store.edges) && KeptUnlessKeyed(old(store.edges), store.edges, keys)
    ensures r.Ok? ==> KeyedIdsValid(store.edges, keys) && KeyedIdsDistinct(store.edges, keys)
  {
    ghost var edges0 := store.edges;
    next := from;
    var j := 0;
    while j < |keys|
      invariant 0 <= j <= |keys| && next >= from
      invariant keys == [] ==> next == from
      invariant store.Valid() && store.nodes == old(store.nodes)
      invariant OnlyEdgeIds(edges0, store.edges) && KeptUnlessKeyed(edges0, store.edges, keys[..j])
      invariant KeyedIdsValid(store.edges, keys[..j]) && KeyedIdsDistinct(store.edges, keys[..j])
    {
      var id;
      id, next := GenerateUniqueEdgeId(store.edges, draws, next);
      if id.Err? {
        assert keys[..j] + keys[j..] == keys;
        KeptMoreKeys(edges0, store.edges, keys[..j], keys);
        return Err(id.message), next;
      }
      EdgeRound(edges0, store.edges, keys, j, id.value);
      WithEdgeIdKeepsEnds(store.nodes, store.edges, keys[j], id.value);
      store.edges := WithEdgeId(store.edges, keys[j], id.value);
      j := j + 1;
    }
    assert keys[..|keys|] == keys;
    r := Ok(());
  }

  /** `migrateNodeIdsAndEdgeIds`. Every label, name, property, endpoint and type stays as it was;
      nodes and relations not selected keep their ids. On success every Person and every relation
      has a six-character id, and Persons (relations) of different names (keys) whose name (key)
      was selected have different ids. A store whose ids are all valid is left as it is, with no
      draw used, so a second run after a successful one changes nothing. */
  method Migrate(store: Store, draws: nat -> Draw, from: nat) returns (r: Result<()>, next: nat)
    requires store.Valid()
    modifies store
    ensures store.Valid()
    ensures OnlyNodeIds(old(store.nodes), store.nodes)
    ensures KeptUnlessNamed(old(store.nodes), store.nodes, InvalidNames(old(store.nodes)))
    ensures OnlyEdgeIds(old(store.edges), store.edges)
    ensures KeptUnlessKeyed(old(store.edges), store.edges, InvalidKeys(old(store.edges)))
    ensures r.Ok? ==> PersonIdsValid(store.nodes) && RelationIdsValid(store.edges)
    ensures r.Ok? ==> NamedIdsDistinct(store.nodes, InvalidNames(old(store.nodes)))
    ensures r.Ok? ==> KeyedIdsDistinct(store.edges, InvalidKeys(old(store.edges)))
    ensures PersonIdsValid(old(store.nodes)) && RelationIdsValid(old(store.edges)) ==>
              r.Ok? && store.nodes == old(store.nodes) && store.edges == old(store.edges) && next == from
  {
    ghost var nodes0, edges0 := store.nodes, store.edges;
    var names := InvalidNames(store.nodes);
    if PersonIdsValid(nodes0) {
      NoInvalidNames(nodes0);
    }
    if RelationIdsValid(edges0) {
      NoInvalidKeys(edges0);
    }
    r, next := AssignNodeIds(store, names, draws, from);
    if r.Err? {
      return;
    }
    NamedIdsComplete(nodes0, store.nodes);
    var keys := InvalidKeys(store.edges);
    r, next := AssignEdgeIds(store, keys, draws, next);
    if r.Ok? {
      KeyedIdsComplete(edges0, store.edges);
    }
  }
}
