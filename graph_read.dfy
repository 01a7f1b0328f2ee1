/** The read side of the REST API (backend/index.js GET /graph and GET /export): the rows of
    `MATCH (p:Person) OPTIONAL MATCH (p)-[r]->(q:Person) RETURN p, r, q` are folded into a
    dictionary keyed by `nom` and an edge list. The handlers build the dictionary on a plain
    `{}`; the fold is also defined for a dictionary without a prototype, the corrected design. */
module GraphRead {
  import opened Wrappers
  import opened Collections
  import opened GraphStore

  /** One result row: `p`, and the relation type `r` and target `q` when the optional match found one. */
  datatype Row = Row(p: Props, r: Option<string>, q: Option<Props>)

  /** The `nodes` dictionary: (key, value) pairs in insertion order, as `Object.values` lists them. */
  type Entries = seq<(string, Props)>

  /** The state of the fold: the dictionary and the edges pushed so far. */
  datatype Assembly = Assembly(entries: Entries, edges: seq<GraphEdge>)

  /** A node of GET /graph: `{ id: nom, ...properties }`. */
  datatype GraphNode = GraphNode(id: string, props: Props)

  /** The body of GET /export. */
  datatype Exported = Exported(nodes: seq<Props>, edges: seq<GraphEdge>, exportDate: string)

  /** `if (q && r)`: the row carries a relation. */
  predicate Complete(row: Row) {
    row.r.Some? && row.q.Some?
  }

  /** The edge pushed for a complete row. */
  function EdgeOf(row: Row): GraphEdge
    requires Complete(row)
  {
    GraphEdge(row.p.nom, row.q.value.nom, row.r.value)
  }

  /** `nodes[k] = v`: a known key keeps its place and takes the new value; a new key goes last. */
  function Put(d: Entries, k: string, v: Props): Entries {
    if d == [] then [(k, v)]
    else if d[0].0 == k then [(k, v)] + d[1..]
    else [d[0]] + Put(d[1..], k, v)
  }

  /** How the `nodes` dictionary is created: `{}`, on which `nodes["__proto__"] = v` runs the
      prototype setter and adds no key, or `Object.create(null)`, where every string is a key. */
  datatype DictKind = PlainObject | NullPrototype

  /** The one key a plain object does not store. */
  const ProtoKey: string := "__proto__"

  /** `nodes[k] = v` adds or updates the key `k`. */
  predicate Stores(kind: DictKind, k: string) {
    kind == NullPrototype || k != ProtoKey
  }

  /** `nodes[k] = v` on a dictionary of the given kind. */
  function Assign(kind: DictKind, d: Entries, k: string, v: Props): Entries {
    if Stores(kind, k) then Put(d, k, v) else d
  }

  /** `nodes[k]`. */
  function Lookup(d: Entries, k: string): Option<Props> {
    if d == [] then None else if d[0].0 == k then Some(d[0].1) else Lookup(d[1..], k)
  }

  predicate UniqueKeys(d: Entries) {
    forall i, j :: 0 <= i < j < |d| ==> d[i].0 != d[j].0
  }

  /** Every entry is keyed by the `nom` of its value. */
  predicate KeyedByNom(d: Entries) {
    forall i :: 0 <= i < |d| ==> d[i].1.nom == d[i].0
  }

  /** One step of `records.forEach`. */
  function Step(kind: DictKind, a: Assembly, row: Row): Assembly {
    var e1 := Assign(kind, a.entries, row.p.nom, row.p);
    if Complete(row) then Assembly(Assign(kind, e1, row.q.value.nom, row.q.value), a.edges + [EdgeOf(row)])
    else Assembly(e1, a.edges)
  }

  /** The fold of the remaining rows from a given state. */
  function FoldFrom(kind: DictKind, a: Assembly, rows: seq<Row>): Assembly
    decreases rows
  {
    if rows == [] then a else FoldFrom(kind, Step(kind, a, rows[0]), rows[1..])
  }

  /** The whole fold, from the empty dictionary and edge list. */
  function Fold(kind: DictKind, rows: seq<Row>): Assembly {
    FoldFrom(kind, Assembly([], []), rows)
  }

  // ---------- an independent description of the result ----------

  /** The property maps written into the dictionary, in order: each row's `p`, then its `q`
      when the row is complete. */
  function Writes(rows: seq<Row>): seq<Props> {
    if rows == [] then [] else RowWrites(rows[0]) + Writes(rows[1..])
  }

  /** The property maps one row writes. */
  function RowWrites(row: Row): seq<Props> {
    [row.p] + (if Complete(row) then [row.q.value] else [])
  }

  /** The writes of two row lists are the writes of each, in order. */
  lemma {:induction false} WritesAppend(a: seq<Row>, b: seq<Row>)
    ensures Writes(a + b) == Writes(a) + Writes(b)
  {
    if a == [] {
      assert a + b == b;
    } else {
      WritesAppend(a[1..], b);
      assert (a + b)[0] == a[0] && (a + b)[1..] == a[1..] + b;
    }
  }

  /** The last of the writes with `nom == k`. */
  function LastWrite(ws: seq<Props>, k: string): Option<Props> {
    if ws == [] then None
    else
      var later := LastWrite(ws[1..], k);
      if later.Some? then later else if ws[0].nom == k then Some(ws[0]) else None
  }

  /** One edge per complete row, in row order. */
  function RowEdges(rows: seq<Row>): (r: seq<GraphEdge>)
    ensures |r| <= |rows|
  {
    if rows == [] then []
    else (if Complete(rows[0]) then [EdgeOf(rows[0])] else []) + RowEdges(rows[1..])
  }

  /** The edges of two row lists are the edges of each, in order. */
  lemma {:induction false} RowEdgesAppend(a: seq<Row>, b: seq<Row>)
    ensures RowEdges(a + b) == RowEdges(a) + RowEdges(b)
  {
    if a == [] {
      assert a + b == b;
    } else {
      var ab := a + b;
      assert ab[0] == a[0] && ab[1..] == a[1..] + b;
      RowEdgesAppend(a[1..], b);
      var h := if Complete(a[0]) then [EdgeOf(a[0])] else [];
      assert RowEdges(ab) == h + RowEdges(a[1..] + b);
      assert RowEdges(a) == h + RowEdges(a[1..]);
    }
  }

  /** The edges of rearranged rows are a rearrangement of their edges. */
  lemma {:induction false} RowEdgesPerm(a: seq<Row>, b: seq<Row>)
    requires multiset(a) == multiset(b)
    ensures multiset(RowEdges(a)) == multiset(RowEdges(b))
    decreases |a|
  {
    if a == [] {
      assert |b| == |multiset(b)| == 0;
    } else {
      var i := PermSplit(a, b);
      var l, r := b[..i], b[i + 1..];
      RowEdgesPerm(a[1..], l + r);
      assert a == [a[0]] + a[1..];
      RowEdgesAppend([a[0]], a[1..]);
      RowEdgesAppend(l + [a[0]], r);
      RowEdgesAppend(l, [a[0]]);
      RowEdgesAppend(l, r);
    }
  }

  /** A property map is written exactly when some row writes it. */
  lemma {:induction false} WritesMember(rows: seq<Row>, w: Props)
    ensures w in Writes(rows) <==> exists row :: row in rows && w in RowWrites(row)
  {
    if rows != [] {
      WritesMember(rows[1..], w);
      assert rows == [rows[0]] + rows[1..];
    }
  }

  // ---------- lemmas ----------

  lemma {:induction false} PutLookup(d: Entries, k: string, v: Props, j: string)
    ensures Lookup(Put(d, k, v), j) == if j == k then Some(v) else Lookup(d, j)
  {
    if d != [] && d[0].0 != k {
      PutLookup(d[1..], k, v, j);
    }
  }

  lemma AssignLookup(kind: DictKind, d: Entries, k: string, v: Props, j: string)
    ensures Lookup(Assign(kind, d, k, v), j) == if j == k && Stores(kind, k) then Some(v) else Lookup(d, j)
  {
    if Stores(kind, k) {
      PutLookup(d, k, v, j);
    }
  }

  /** The keys after a `Put` are the keys before plus `k`. */
  lemma {:induction false} PutKeys(d: Entries, k: string, v: Props)
    ensures forall i :: 0 <= i < |Put(d, k, v)| ==> Put(d, k, v)[i] == (k, v) || Put(d, k, v)[i] in d
    ensures forall i :: 0 <= i < |Put(d, k, v)| ==> Put(d, k, v)[i].0 != k ==> Put(d, k, v)[i] in d
  {
    if d != [] && d[0].0 != k {
      PutKeys(d[1..], k, v);
      var r := Put(d, k, v);
      assert r == [d[0]] + Put(d[1..], k, v);
      forall i | 0 < i < |r| ensures r[i] == Put(d[1..], k, v)[i - 1] { }
    } else if d != [] {
      forall i | 0 < i < |Put(d, k, v)| ensures Put(d, k, v)[i] == d[i] { }
    }
  }

  lemma {:induction false} PutUnique(d: Entries, k: string, v: Props)
    requires UniqueKeys(d)
    ensures UniqueKeys(Put(d, k, v))
  {
    if d != [] && d[0].0 != k {
      PutUnique(d[1..], k, v);
      PutKeys(d[1..], k, v);
      var r := Put(d, k, v);
      var t := Put(d[1..], k, v);
      assert r == [d[0]] + t;
      forall j | 0 < j < |r| ensures r[0].0 != r[j].0 {
        assert r[j] == t[j - 1];
        if t[j - 1].0 != k {
          var m :| 0 <= m < |d[1..]| && d[1..][m] == t[j - 1];
          assert d[m + 1] == t[j - 1];
        }
      }
    }
  }

  lemma {:induction false} PutKeyedByNom(d: Entries, v: Props)
    requires KeyedByNom(d)
    ensures KeyedByNom(Put(d, v.nom, v))
  {
    PutKeys(d, v.nom, v);
    var r := Put(d, v.nom, v);
    forall i | 0 <= i < |r| ensures r[i].1.nom == r[i].0 {
      if r[i] != (v.nom, v) {
        var m :| 0 <= m < |d| && d[m] == r[i];
      }
    }
  }

  /** A `nom` has a last write exactly when some write has that `nom`. */
  lemma {:induction false} LastWriteSome(ws: seq<Props>, k: string)
    ensures LastWrite(ws, k).Some? <==> exists w :: w in ws && w.nom == k
    ensures LastWrite(ws, k).Some? ==> LastWrite(ws, k).value in ws && LastWrite(ws, k).value.nom == k
  {
    if ws != [] {
      LastWriteSome(ws[1..], k);
      assert ws == [ws[0]] + ws[1..];
    }
  }

  /** The last write in a concatenation comes from the second part when it has one. */
  lemma {:induction false} LastWriteAppend(a: seq<Props>, b: seq<Props>, k: string)
    ensures LastWrite(a + b, k) == if LastWrite(b, k).Some? then LastWrite(b, k) else LastWrite(a, k)
  {
    if a == [] {
      assert a + b == b;
    } else {
      LastWriteAppend(a[1..], b, k);
      assert (a + b)[1..] == a[1..] + b;
    }
  }

  /** Keys and values of the fold, from any state: each key the dictionary stores maps to its
      last write, or to what it held before when the rows never write it; a key it does not
      store keeps what it held. */
  lemma {:induction false} FoldFromLookup(kind: DictKind, a: Assembly, rows: seq<Row>, k: string)
    ensures Lookup(FoldFrom(kind, a, rows).entries, k) ==
            if Stores(kind, k) && LastWrite(Writes(rows), k).Some? then LastWrite(Writes(rows), k) else Lookup(a.entries, k)
    decreases rows
  {
    if rows != [] {
      var row := rows[0];
      var s := Step(kind, a, row);
      FoldFromLookup(kind, s, rows[1..], k);
      var head := [row.p] + (if Complete(row) then [row.q.value] else []);
      assert Writes(rows) == head + Writes(rows[1..]);
      LastWriteAppend(head, Writes(rows[1..]), k);
      AssignLookup(kind, a.entries, row.p.nom, row.p, k);
      if Complete(row) {
        AssignLookup(kind, Assign(kind, a.entries, row.p.nom, row.p), row.q.value.nom, row.q.value, k);
        assert LastWrite(head, k) == LastWrite([row.p] + [row.q.value], k);
      }
    }
  }

  lemma AssignShape(kind: DictKind, d: Entries, v: Props)
    requires UniqueKeys(d) && KeyedByNom(d)
    ensures UniqueKeys(Assign(kind, d, v.nom, v)) && KeyedByNom(Assign(kind, d, v.nom, v))
  {
    if Stores(kind, v.nom) {
      PutUnique(d, v.nom, v);
      PutKeyedByNom(d, v);
    }
  }

  lemma {:induction false} FoldFromShape(kind: DictKind, a: Assembly, rows: seq<Row>)
    requires UniqueKeys(a.entries) && KeyedByNom(a.entries)
    ensures UniqueKeys(FoldFrom(kind, a, rows).entries) && KeyedByNom(FoldFrom(kind, a, rows).entries)
    decreases rows
  {
    if rows != [] {
      var row := rows[0];
      AssignShape(kind, a.entries, row.p);
      if Complete(row) {
        AssignShape(kind, Assign(kind, a.entries, row.p.nom, row.p), row.q.value);
      }
      FoldFromShape(kind, Step(kind, a, row), rows[1..]);
    }
  }

  lemma {:induction false} FoldFromEdges(kind: DictKind, a: Assembly, rows: seq<Row>)
    ensures FoldFrom(kind, a, rows).edges == a.edges + RowEdges(rows)
    decreases rows
  {
    if rows != [] {
      FoldFromEdges(kind, Step(kind, a, rows[0]), rows[1..]);
    }
  }

  /** Both endpoints of every edge are `nom`s written by the rows. */
  lemma {:induction false} EdgeEndpointsWritten(rows: seq<Row>, e: GraphEdge)
    requires e in RowEdges(rows)
    ensures exists w :: w in Writes(rows) && w.nom == e.source
    ensures exists w :: w in Writes(rows) && w.nom == e.target
  {
    var head := [rows[0].p] + (if Complete(rows[0]) then [rows[0].q.value] else []);
    assert Writes(rows) == head + Writes(rows[1..]);
    if !(Complete(rows[0]) && e == EdgeOf(rows[0])) {
      EdgeEndpointsWritten(rows[1..], e);
    } else {
      assert rows[0].p in Writes(rows) && rows[0].q.value in Writes(rows);
    }
  }

  /** Each complete row's `p` and `q` are among the writes. */
  lemma {:induction false} RowWritten(rows: seq<Row>, row: Row)
    requires row in rows
    ensures row.p in Writes(rows)
    ensures Complete(row) ==> row.q.value in Writes(rows)
  {
    if rows[0] != row {
      RowWritten(rows[1..], row);
    }
  }

  /** Which nodes and edges the assembly produces: unique keys, each the `nom` of its value;
      each name the dictionary stores mapped to its last write (so every row's `p` and every
      complete row's `q` appear), and on a plain object no `__proto__` key; one edge per
      complete row, in order, whose stored endpoints both appear. */
  lemma FoldCharacterized(kind: DictKind, rows: seq<Row>)
    ensures UniqueKeys(Fold(kind, rows).entries) && KeyedByNom(Fold(kind, rows).entries)
    ensures forall k :: Lookup(Fold(kind, rows).entries, k) == if Stores(kind, k) then LastWrite(Writes(rows), k) else None
    ensures Fold(kind, rows).edges == RowEdges(rows)
    ensures forall e :: e in Fold(kind, rows).edges ==>
              (Stores(kind, e.source) ==> Lookup(Fold(kind, rows).entries, e.source).Some?)
              && (Stores(kind, e.target) ==> Lookup(Fold(kind, rows).entries, e.target).Some?)
  {
    FoldFromShape(kind, Assembly([], []), rows);
    forall k ensures Lookup(Fold(kind, rows).entries, k) == if Stores(kind, k) then LastWrite(Writes(rows), k) else None {
      FoldFromLookup(kind, Assembly([], []), rows, k);
    }
    FoldFromEdges(kind, Assembly([], []), rows);
    forall e | e in Fold(kind, rows).edges
      ensures (Stores(kind, e.source) ==> Lookup(Fold(kind, rows).entries, e.source).Some?)
              && (Stores(kind, e.target) ==> Lookup(Fold(kind, rows).entries, e.target).Some?)
    {
      EdgeEndpointsWritten(rows, e);
      LastWriteSome(Writes(rows), e.source);
      LastWriteSome(Writes(rows), e.target);
    }
  }

  /** A key is present exactly when looking it up succeeds. */
  lemma {:induction false} LookupPresent(d: Entries, k: string)
    ensures Lookup(d, k).Some? <==> exists i :: 0 <= i < |d| && d[i].0 == k
    ensures UniqueKeys(d) ==> forall i :: 0 <= i < |d| && d[i].0 == k ==> Lookup(d, k) == Some(d[i].1)
  {
    if d != [] {
      LookupPresent(d[1..], k);
      assert forall i :: 0 < i < |d| ==> d[i] == d[1..][i - 1];
    }
  }

  /** The dictionary's values, as `Object.values(nodes)`. */
  function Values(d: Entries): (r: seq<Props>)
    ensures |r| == |d|
  {
    seq(|d|, k requires 0 <= k < |d| => d[k].1)
  }

  /** The shared fold of GET /graph, GET /export and `getCurrentGraph`, on a dictionary of the
      given kind. */
  method Assemble(kind: DictKind, rows: seq<Row>) returns (entries: Entries, edges: seq<GraphEdge>)
    ensures Assembly(entries, edges) == Fold(kind, rows)
    ensures UniqueKeys(entries) && KeyedByNom(entries)
    ensures forall k :: Lookup(entries, k) == if Stores(kind, k) then LastWrite(Writes(rows), k) else None
    ensures edges == RowEdges(rows)
    ensures forall e :: e in edges ==>
              (Stores(kind, e.source) ==> Lookup(entries, e.source).Some?) && (Stores(kind, e.target) ==> Lookup(entries, e.target).Some?)
  {
    entries, edges := [], [];
    var i := 0;
    while i < |rows|
      invariant 0 <= i <= |rows|
      invariant FoldFrom(kind, Assembly(entries, edges), rows[i..]) == Fold(kind, rows)
    {
      var row := rows[i];
      assert rows[i..] == [row] + rows[i + 1..];
      entries := Assign(kind, entries, row.p.nom, row.p);
      if row.q.Some? && row.r.Some? {
        entries := Assign(kind, entries, row.q.value.nom, row.q.value);
        edges := edges + [GraphEdge(row.p.nom, row.q.value.nom, row.r.value)];
      }
      i := i + 1;
    }
    FoldCharacterized(kind, rows);
  }

  /** When no row writes the name `__proto__`, the plain object and the prototype-free
      dictionary give the same fold. */
  lemma {:induction false} FoldFromKindsAgree(a: Assembly, rows: seq<Row>)
    requires forall w :: w in Writes(rows) ==> w.nom != ProtoKey
    ensures FoldFrom(PlainObject, a, rows) == FoldFrom(NullPrototype, a, rows)
    decreases rows
  {
    if rows != [] {
      var row := rows[0];
      assert Writes(rows) == RowWrites(row) + Writes(rows[1..]);
      assert row.p in RowWrites(row);
      assert Complete(row) ==> row.q.value in RowWrites(row);
      assert Step(PlainObject, a, row) == Step(NullPrototype, a, row);
      FoldFromKindsAgree(Step(NullPrototype, a, row), rows[1..]);
    }
  }

  lemma FoldKindsAgree(rows: seq<Row>)
    requires forall w :: w in Writes(rows) ==> w.nom != ProtoKey
    ensures Fold(PlainObject, rows) == Fold(NullPrototype, rows)
  {
    FoldFromKindsAgree(Assembly([], []), rows);
  }

  /** GET /graph: at most one node per `nom`, each with `id == nom` and the properties of the
      last row that wrote it; a node for every name written except `__proto__`, which the
      plain object drops; one edge per complete row, whose endpoints other than `__proto__`
      are nodes. */
  method GetGraph(rows: seq<Row>) returns (nodes: seq<GraphNode>, edges: seq<GraphEdge>)
    ensures forall i, j :: 0 <= i < j < |nodes| ==> nodes[i].id != nodes[j].id
    ensures forall i :: 0 <= i < |nodes| ==>
              nodes[i].id == nodes[i].props.nom && Some(nodes[i].props) == LastWrite(Writes(rows), nodes[i].id)
    ensures forall k :: (exists i :: 0 <= i < |nodes| && nodes[i].id == k) <==> k != ProtoKey && LastWrite(Writes(rows), k).Some?
    ensures forall i :: 0 <= i < |rows| && rows[i].p.nom != ProtoKey ==> exists j :: 0 <= j < |nodes| && nodes[j].id == rows[i].p.nom
    ensures edges == RowEdges(rows)
    ensures forall e :: e in edges ==>
              (e.source != ProtoKey ==> exists i :: 0 <= i < |nodes| && nodes[i].id == e.source)
              && (e.target != ProtoKey ==> exists j :: 0 <= j < |nodes| && nodes[j].id == e.target)
  {
    var entries;
    entries, edges := Assemble(PlainObject, rows);
    nodes := seq(|entries|, k requires 0 <= k < |entries| => GraphNode(entries[k].0, entries[k].1));
    forall k ensures (exists i :: 0 <= i < |nodes| && nodes[i].id == k) <==> k != ProtoKey && LastWrite(Writes(rows), k).Some? {
      LookupPresent(entries, k);
      if exists i :: 0 <= i < |entries| && entries[i].0 == k {
        var i :| 0 <= i < |entries| && entries[i].0 == k;
        assert nodes[i].id == k;
      }
    }
    forall i | 0 <= i < |nodes|
      ensures Some(nodes[i].props) == LastWrite(Writes(rows), nodes[i].id)
    {
      LookupPresent(entries, nodes[i].id);
    }
    forall i | 0 <= i < |rows| && rows[i].p.nom != ProtoKey ensures exists j :: 0 <= j < |nodes| && nodes[j].id == rows[i].p.nom {
      RowWritten(rows, rows[i]);
      LastWriteSome(Writes(rows), rows[i].p.nom);
      LookupPresent(entries, rows[i].p.nom);
    }
    forall e | e in edges
      ensures (e.source != ProtoKey ==> exists i :: 0 <= i < |nodes| && nodes[i].id == e.source)
              && (e.target != ProtoKey ==> exists j :: 0 <= j < |nodes| && nodes[j].id == e.target)
    {
      LookupPresent(entries, e.source);
      LookupPresent(entries, e.target);
    }
  }

  /** GET /export: the dictionary's values (no `id` field) and the same edges, with the date
      given by the caller; one node per name written except `__proto__`. */
  method Export(rows: seq<Row>, exportDate: string) returns (r: Exported)
    ensures r.exportDate == exportDate
    ensures r.edges == RowEdges(rows)
    ensures r.nodes == Values(Fold(PlainObject, rows).entries)
    ensures forall i, j :: 0 <= i < j < |r.nodes| ==> r.nodes[i].nom != r.nodes[j].nom
    ensures forall i :: 0 <= i < |r.nodes| ==> Some(r.nodes[i]) == LastWrite(Writes(rows), r.nodes[i].nom)
    ensures forall k :: (exists i :: 0 <= i < |r.nodes| && r.nodes[i].nom == k) <==> k != ProtoKey && LastWrite(Writes(rows), k).Some?
  {
    var entries, edges := Assemble(PlainObject, rows);
    r := Exported(Values(entries), edges, exportDate);
    forall i | 0 <= i < |r.nodes| ensures Some(r.nodes[i]) == LastWrite(Writes(rows), r.nodes[i].nom) {
      LookupPresent(entries, r.nodes[i].nom);
    }
    forall k ensures (exists i :: 0 <= i < |r.nodes| && r.nodes[i].nom == k) <==> k != ProtoKey && LastWrite(Writes(rows), k).Some? {
      LookupPresent(entries, k);
      if exists i :: 0 <= i < |entries| && entries[i].0 == k {
        var i :| 0 <= i < |entries| && entries[i].0 == k;
        assert r.nodes[i].nom == k;
      }
    }
  }
}
