/** backend/snapshots.js: snapshots of the Person graph kept as JSON files in one directory,
    listed newest first, found by id and restored into the store. */
module Snapshots {
  import opened Wrappers
  import opened Text
  import opened Collections
  import opened GraphStore
  import opened GraphRead
  import opened RoundTrip

  /** The JSON content of a snapshot file. */
  datatype Snapshot = Snapshot(id: string, timestamp: string, message: string, author: string,
                               nodes: seq<Props>, edges: seq<GraphEdge>)

  /** A directory entry: its file name and the parsed content. */
  datatype SnapshotFile = SnapshotFile(name: string, content: Snapshot)

  /** An element of the `listSnapshots` result. */
  datatype SnapshotInfo = SnapshotInfo(id: string, filename: string, timestamp: string, message: string,
                                       author: string, nodesCount: nat, edgesCount: nat)

  /** What `createSnapshot` returns. */
  datatype Created = Created(id: string, filename: string, timestamp: string)

  /** What `restoreSnapshot` returns (besides its fixed message). */
  datatype Restored = Restored(nodesRestored: nat, edgesRestored: nat)

  /** The file names, in directory order. */
  function Names(files: seq<SnapshotFile>): (r: seq<string>)
    ensures |r| == |files|
    ensures forall k :: 0 <= k < |files| ==> r[k] == files[k].name
  {
    seq(|files|, k requires 0 <= k < |files| => files[k].name)
  }

  /** A directory holds each name once. */
  predicate DistinctNames(files: seq<SnapshotFile>) {
    forall i, j :: 0 <= i < j < |files| ==> files[i].name != files[j].name
  }

  /** The list filter: `snapshot-*.json`. */
  predicate Listed(name: string) {
    StartsWith(name, "snapshot-") && EndsWith(name, ".json")
  }

  /** The file name `createSnapshot` writes: every ':' of the timestamp becomes '-'. */
  function SnapshotFilename(timestamp: string, id: string): string {
    "snapshot-" + ReplaceChar(timestamp, ':', '-') + "-" + id + ".json"
  }

  /** What `getSnapshotById` looks for in a file name. */
  function IdTag(id: string): string {
    "-" + id + ".json"
  }

  /** A created snapshot's file passes the list filter and carries its id tag. */
  lemma FilenameListed(timestamp: string, id: string)
    ensures Listed(SnapshotFilename(timestamp, id))
    ensures Contains(SnapshotFilename(timestamp, id), IdTag(id))
  {
    var f := SnapshotFilename(timestamp, id);
    var mid := ReplaceChar(timestamp, ':', '-');
    assert f == "snapshot-" + (mid + "-" + id + ".json");
    assert f[..|"snapshot-"|] == "snapshot-";
    assert f == ("snapshot-" + mid + "-" + id) + ".json";
    assert f[|f| - |".json"|..] == ".json";
    assert f == ("snapshot-" + mid) + IdTag(id) + [];
    ContainsInfix("snapshot-" + mid, IdTag(id), []);
  }

  /** The content of the file called `name`, if any. */
  function ContentOf(files: seq<SnapshotFile>, name: string): (r: Option<Snapshot>)
    ensures r.Some? <==> name in Names(files)
  {
    if files == [] then None
    else if files[0].name == name then Some(files[0].content)
    else
      assert Names(files) == [files[0].name] + Names(files[1..]);
      ContentOf(files[1..], name)
  }

  /** With distinct names the content of a file is the one stored under its name. */
  lemma {:induction false} ContentOfAt(files: seq<SnapshotFile>, k: nat)
    requires DistinctNames(files) && k < |files|
    ensures ContentOf(files, files[k].name) == Some(files[k].content)
  {
    if k > 0 {
      assert DistinctNames(files[1..]) by {
        forall i, j | 0 <= i < j < |files| - 1 ensures files[1..][i].name != files[1..][j].name {
          assert files[1..][i] == files[i + 1] && files[1..][j] == files[j + 1];
        }
      }
      assert files[0].name != files[k].name;
      ContentOfAt(files[1..], k - 1);
    }
  }

  /** The names `listSnapshots` reports: the listed ones, sorted, then reversed. */
  function ListedNames(files: seq<SnapshotFile>): seq<string> {
    Reverse(SortStrings(Filter(Names(files), Listed)))
  }

  /** The listed names are in descending order and are exactly the directory's `snapshot-*.json`
      names, each as often as it occurs there. */
  lemma ListedNamesProperties(files: seq<SnapshotFile>)
    ensures SortedDown(ListedNames(files))
    ensures multiset(ListedNames(files)) == multiset(Filter(Names(files), Listed))
    ensures forall name :: name in ListedNames(files) <==> name in Names(files) && Listed(name)
  {
    var kept := Filter(Names(files), Listed);
    SortProperties(kept);
    ReverseSorted(SortStrings(kept));
    ReverseMultiset(SortStrings(kept));
    forall name ensures name in ListedNames(files) <==> name in Names(files) && Listed(name) {
      assert name in ListedNames(files) <==> multiset(ListedNames(files))[name] > 0;
      assert name in kept <==> multiset(kept)[name] > 0;
      FilterMember(Names(files), Listed, name);
    }
  }

  lemma ListedNamesPresent(files: seq<SnapshotFile>)
    ensures forall k :: 0 <= k < |ListedNames(files)| ==> ListedNames(files)[k] in Names(files)
  {
    ListedNamesProperties(files);
    forall k | 0 <= k < |ListedNames(files)| ensures ListedNames(files)[k] in Names(files) {
      assert ListedNames(files)[k] in ListedNames(files);
    }
  }

  /** The list entry for one file. */
  function InfoOf(filename: string, c: Snapshot): SnapshotInfo {
    SnapshotInfo(c.id, filename, c.timestamp, c.message, c.author, |c.nodes|, |c.edges|)
  }

  /** `listSnapshots`: nothing when the directory is missing; otherwise one entry per
      `snapshot-*.json` file, newest name first, with the counts of its stored nodes and edges. */
  function ListSnapshots(present: bool, files: seq<SnapshotFile>): (r: seq<SnapshotInfo>)
    ensures !present ==> r == []
    ensures present ==> |r| == |ListedNames(files)|
    ensures present ==> forall k :: 0 <= k < |r| ==>
              r[k].filename == ListedNames(files)[k] && ContentOf(files, r[k].filename).Some?
              && r[k] == InfoOf(r[k].filename, ContentOf(files, r[k].filename).value)
  {
    if !present then []
    else
      var names := ListedNames(files);
      ListedNamesPresent(files);
      seq(|names|, k requires 0 <= k < |names| => InfoOf(names[k], ContentOf(files, names[k]).value))
  }

  /** The first file, in directory order, whose name contains `tag`. */
  function FirstMatch(files: seq<SnapshotFile>, tag: string): (r: Option<nat>)
    ensures r.Some? ==> r.value < |files| && Contains(files[r.value].name, tag)
    ensures r.Some? ==> forall j :: 0 <= j < r.value ==> !Contains(files[j].name, tag)
    ensures r.None? <==> forall j :: 0 <= j < |files| ==> !Contains(files[j].name, tag)
  {
    if files == [] then None
    else if Contains(files[0].name, tag) then Some(0)
    else
      match FirstMatch(files[1..], tag)
      case None => None
      case Some(k) => Some(k + 1)
  }

  /** `getSnapshotById`: null when the directory is missing or no file name contains `-<id>.json`;
      otherwise the content of the first such file in directory order. */
  function GetSnapshotById(present: bool, files: seq<SnapshotFile>, id: string): (r: Option<Snapshot>)
    ensures r.None? <==> !present || forall j :: 0 <= j < |files| ==> !Contains(files[j].name, IdTag(id))
    ensures r.Some? ==> exists k :: 0 <= k < |files| && Contains(files[k].name, IdTag(id)) && r.value == files[k].content
                                    && forall j :: 0 <= j < k ==> !Contains(files[j].name, IdTag(id))
  {
    if !present then None
    else
      match FirstMatch(files, IdTag(id))
      case None => None
      case Some(k) => Some(files[k].content)
  }

  /** `fs.writeFileSync`: an existing file is overwritten in place, a new one is added last. */
  function Written(files: seq<SnapshotFile>, name: string, c: Snapshot): (r: seq<SnapshotFile>)
    ensures |r| == if name in Names(files) then |files| else |files| + 1
    ensures forall k :: 0 <= k < |files| ==> r[k] == if files[k].name == name then SnapshotFile(name, c) else files[k]
    ensures name !in Names(files) ==> r[|files|] == SnapshotFile(name, c)
  {
    if name in Names(files) then
      seq(|files|, k requires 0 <= k < |files| => if files[k].name == name then SnapshotFile(name, c) else files[k])
    else files + [SnapshotFile(name, c)]
  }

  /** Writing keeps the names distinct; the written file is there and is the only one
      with that name. */
  lemma WrittenFile(files: seq<SnapshotFile>, name: string, c: Snapshot)
    requires DistinctNames(files)
    ensures DistinctNames(Written(files, name, c))
    ensures exists k :: 0 <= k < |Written(files, name, c)| && Written(files, name, c)[k] == SnapshotFile(name, c)
  {
    var r := Written(files, name, c);
    if name in Names(files) {
      var k :| 0 <= k < |files| && Names(files)[k] == name;
      assert r[k] == SnapshotFile(name, c);
    } else {
      assert r[|files|] == SnapshotFile(name, c);
      forall j | 0 <= j < |files| ensures files[j].name != name {
        assert Names(files)[j] == files[j].name;
      }
    }
  }

  /** The file a snapshot is written to is listed and is found by its id. */
  lemma CreatedFindable(files: seq<SnapshotFile>, timestamp: string, id: string, c: Snapshot)
    requires DistinctNames(files)
    ensures var name := SnapshotFilename(timestamp, id);
            var r := Written(files, name, c);
            && name in ListedNames(r)
            && GetSnapshotById(true, r, id).Some?
  {
    var name := SnapshotFilename(timestamp, id);
    var r := Written(files, name, c);
    FilenameListed(timestamp, id);
    ListedNamesProperties(r);
    WrittenFile(files, name, c);
    var k :| 0 <= k < |r| && r[k] == SnapshotFile(name, c);
    assert Names(r)[k] == name;
  }

  /** When no other file carries the id tag, looking the id up returns the snapshot just written. */
  lemma CreatedFoundExactly(files: seq<SnapshotFile>, timestamp: string, id: string, c: Snapshot)
    requires DistinctNames(files)
    requires forall j :: 0 <= j < |files| && files[j].name != SnapshotFilename(timestamp, id) ==>
               !Contains(files[j].name, IdTag(id))
    ensures GetSnapshotById(true, Written(files, SnapshotFilename(timestamp, id), c), id) == Some(c)
  {
    var name := SnapshotFilename(timestamp, id);
    var r := Written(files, name, c);
    CreatedFindable(files, timestamp, id, c);
    var k := FirstMatch(r, IdTag(id)).value;
    assert r[k].name == name && r[k].content == c;
  }

  /** The Person nodes left after restore are exactly the recreated ones. */
  lemma {:induction false} PersonsAppend(a: seq<Node>, b: seq<Node>)
    ensures Persons(a + b) == Persons(a) + Persons(b)
  {
    if a == [] {
      assert a + b == b;
    } else {
      var c := a + b;
      assert c[0] == a[0] && c[1..] == a[1..] + b;
      PersonsAppend(a[1..], b);
      var h := if a[0].kind == Person then [a[0]] else [];
      assert Persons(c) == h + Persons(c[1..]);
      assert Persons(a) == h + Persons(a[1..]);
    }
  }

  lemma {:induction false} NoPersons(nodes: seq<Node>)
    requires forall k :: 0 <= k < |nodes| ==> nodes[k].kind != Person
    ensures Persons(nodes) == []
    ensures forall k :: PersonCount(nodes, k) == 0
  {
    if nodes != [] {
      NoPersons(nodes[1..]);
    }
  }

  lemma {:induction false} PersonCountAppend(a: seq<Node>, b: seq<Node>, k: string)
    ensures PersonCount(a + b, k) == PersonCount(a, k) + PersonCount(b, k)
  {
    if a == [] {
      assert a + b == b;
    } else {
      PersonCountAppend(a[1..], b, k);
      assert (a + b)[1..] == a[1..] + b;
    }
  }

  /** The relations created from a list depend only on how many Persons carry each name. */
  lemma {:induction false} MatchedEdgesSameCounts(a: seq<Node>, b: seq<Node>, input: seq<GraphEdge>)
    requires forall k :: PersonCount(a, k) == PersonCount(b, k)
    ensures MatchedEdges(a, input) == MatchedEdges(b, input)
  {
    if input != [] {
      MatchedEdgesSameCounts(a, b, input[..|input| - 1]);
    }
  }

  /** After restore the Proposal (non-Person) nodes are all still there, in their order, and the
      Persons are exactly the ones recreated from the snapshot; relations are created between
      the recreated Persons only. */
  lemma RestoredNodes(nodes: seq<Node>, input: seq<Props>, relations: seq<GraphEdge>)
    ensures var after := NonPersons(nodes) + Recreated(input);
            && (forall n :: n in nodes && n.kind != Person ==> n in after)
            && Persons(after) == Recreated(input)
            && MatchedEdges(after, relations) == MatchedEdges(Recreated(input), relations)
  {
    var kept := NonPersons(nodes);
    var after := kept + Recreated(input);
    forall k | 0 <= k < |kept| ensures kept[k].kind != Person {
      assert kept[k] in kept;
      FilterMember(nodes, (n: Node) => n.kind != Person, kept[k]);
    }
    forall n | n in nodes && n.kind != Person ensures n in after {
      FilterMember(nodes, (n: Node) => n.kind != Person, n);
    }
    NoPersons(kept);
    PersonsAppend(kept, Recreated(input));
    AllPersons(Recreated(input));
    forall k ensures PersonCount(after, k) == PersonCount(Recreated(input), k) {
      PersonCountAppend(kept, Recreated(input), k);
    }
    MatchedEdgesSameCounts(after, Recreated(input), relations);
  }

  /** `getCurrentGraph`: the Person graph as `createSnapshot` stores it, on a plain `{}`: one
      node per name written except `__proto__`, and endpoints other than `__proto__` are nodes. */
  method GetCurrentGraph(rows: seq<Row>) returns (nodes: seq<Props>, edges: seq<GraphEdge>)
    ensures nodes == Values(Fold(PlainObject, rows).entries) && edges == RowEdges(rows)
    ensures forall i, j :: 0 <= i < j < |nodes| ==> nodes[i].nom != nodes[j].nom
    ensures forall i :: 0 <= i < |nodes| ==> Some(nodes[i]) == LastWrite(Writes(rows), nodes[i].nom)
    ensures forall k :: (exists i :: 0 <= i < |nodes| && nodes[i].nom == k) <==> k != ProtoKey && LastWrite(Writes(rows), k).Some?
    ensures forall e :: e in edges ==>
              (e.source != ProtoKey ==> exists i :: 0 <= i < |nodes| && nodes[i].nom == e.source)
              && (e.target != ProtoKey ==> exists j :: 0 <= j < |nodes| && nodes[j].nom == e.target)
  {
    var entries;
    entries, edges := Assemble(PlainObject, rows);
    nodes := Values(entries);
    forall i | 0 <= i < |nodes| ensures Some(nodes[i]) == LastWrite(Writes(rows), nodes[i].nom) {
      LookupPresent(entries, nodes[i].nom);
    }
    forall k ensures (exists i :: 0 <= i < |nodes| && nodes[i].nom == k) <==> k != ProtoKey && LastWrite(Writes(rows), k).Some? {
      LookupPresent(entries, k);
      if exists i :: 0 <= i < |entries| && entries[i].0 == k {
        var i :| 0 <= i < |entries| && entries[i].0 == k;
        assert nodes[i].nom == k;
      }
    }
  }

  /** The snapshot directory: whether it exists, and its files in directory order. */
  class SnapshotDir {
    var present: bool
    var files: seq<SnapshotFile>

    ghost predicate Valid()
      reads this
    {
      DistinctNames(files)
    }

    constructor(present: bool, files: seq<SnapshotFile>)
      requires DistinctNames(files)
      ensures Valid() && this.present == present && this.files == files
    {
      this.present := present;
      this.files := files;
    }

    /** `initSnapshotsDir`: the directory exists afterwards; its files are unchanged. */
    method InitSnapshotsDir()
      requires Valid()
      modifies this
      ensures Valid() && present && files == old(files)
    {
      present := true;
    }

    /** `createSnapshot`: the current graph is written under `SnapshotFilename(timestamp, id)`
        with `id` the first 8 characters of `uuid`; writing fails when the directory is missing. */
    method CreateSnapshot(rows: seq<Row>, message: string, author: string, uuid: string, timestamp: string)
      returns (r: Result<Created>)
      requires Valid()
      modifies this
      ensures Valid() && present == old(present)
      ensures !present ==> r.Err? && files == old(files)
      ensures present ==>
                var id := Take(uuid, 8);
                var name := SnapshotFilename(timestamp, id);
                && r == Ok(Created(id, name, timestamp))
                && files == Written(old(files), name,
                                    Snapshot(id, timestamp, message, author, Values(Fold(PlainObject, rows).entries), RowEdges(rows)))
                && name in ListedNames(files)
                && GetSnapshotById(present, files, id).Some?
    {
      var nodes, edges := GetCurrentGraph(rows);
      var id := Take(uuid, 8);
      var snapshot := Snapshot(id, timestamp, message, author, nodes, edges);
      var name := SnapshotFilename(timestamp, id);
      if !present {
        return Err("ENOENT: no such file or directory");
      }
      CreatedFindable(files, timestamp, id, snapshot);
      WrittenFile(files, name, snapshot);
      files := Written(files, name, snapshot);
      r := Ok(Created(id, name, timestamp));
    }
  }

  /** `restoreSnapshot`: an unknown id fails and changes nothing; otherwise every Person is
      detach-deleted (Proposals stay), the snapshot's nodes are recreated with the import
      defaults and its relations between known names, and the counts are the snapshot's lengths. */
  method RestoreSnapshot(store: Store, dir: SnapshotDir, id: string) returns (r: Result<Restored>)
    requires store.Valid()
    modifies store
    ensures store.Valid()
    ensures GetSnapshotById(dir.present, dir.files, id).None? ==>
              r.Err? && store.nodes == old(store.nodes) && store.edges == old(store.edges)
    ensures GetSnapshotById(dir.present, dir.files, id).Some? ==>
              var s := GetSnapshotById(dir.present, dir.files, id).value;
              && r == Ok(Restored(|s.nodes|, |s.edges|))
              && store.nodes == NonPersons(old(store.nodes)) + Recreated(s.nodes)
              && store.edges == MatchedEdges(Recreated(s.nodes), s.edges)
  {
    var snapshot := GetSnapshotById(dir.present, dir.files, id);
    if snapshot.None? {
      return Err("Snapshot " + id + " introuvable");
    }
    var s := snapshot.value;
    store.DeletePersons();
    store.RecreateNodes(s.nodes);
    store.RecreateEdges(s.edges);
    RestoredNodes(old(store.nodes), s.nodes, s.edges);
    r := Ok(Restored(|s.nodes|, |s.edges|));
  }

  /** Restoring a snapshot of the current graph (unique Person names), whatever the order of the
      query's rows, brings back every Person with its `nom`, `origine || null`, `x || 0`, `y || 0`,
      and every relation once without its `edgeId`; in the order of `QueryRows` the relations
      come back in store order. */
  lemma RestoreOfCurrent(nodes: seq<Node>, edges: seq<Edge>, rows: seq<Row>)
    requires UniqueNames(nodes) && NoDangling(nodes, edges) && QueryResult(nodes, edges, rows)
    ensures var after := NonPersons(nodes) + Recreated(Values(Fold(NullPrototype, rows).entries));
            var restored := MatchedEdges(Recreated(Values(Fold(NullPrototype, rows).entries)), RowEdges(rows));
            && Persons(after) == ReimportedNodes(NullPrototype, rows)
            && |Persons(after)| == |Persons(nodes)|
            && (forall n :: n in nodes && n.kind == Person ==>
                  exists i :: 0 <= i < |Persons(after)| && Persons(after)[i] == Defaulted(PropsOf(n)))
            && |restored| == |edges|
            && multiset(restored) == multiset(Stripped(edges))
            && (rows == QueryRows(nodes, edges) ==>
                  forall k :: 0 <= k < |edges| ==> restored[k] == edges[k].(edgeId := None))
  {
    RestoredNodes(nodes, Values(Fold(NullPrototype, rows).entries), RowEdges(rows));
    ExportImport(nodes, edges, rows);
  }
}
