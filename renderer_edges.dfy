/** frontend/renderer.js: the id a displayed relation is given when the graph is loaded, and the
    relation type the double-click handler reads back from that id to delete or retype it. */
module EdgeIds {
  import opened Wrappers
  import opened Text
  import opened Collections
  import opened GraphStore

  /** A relation as `GET /graph` sends it; `edgeId` is given by back ends that store ids. */
  datatype ShownEdge = ShownEdge(source: string, target: string, relType: Option<string>, edgeId: Option<string>)

  /** A displayed relation: its element id and its ends, as the view stores them, and `relType`.
      `relType` is the type kept with the element in the corrected design (`RecoveredType`). The
      element data as written keeps only the id, the ends and a colour, and `TypeFromId` does
      not use this field. */
  datatype EdgeElement = EdgeElement(id: string, source: string, target: string, relType: string)

  predicate Present(o: Option<string>) {
    o.Some? && o.value != ""
  }

  /** `edge.type || "CONNECTION"`: masked relations come without a type. */
  function TypeOrDefault(e: ShownEdge): string {
    if Present(e.relType) then e.relType.value else "CONNECTION"
  }

  /** `edge.edgeId || source_target_type`. */
  function ElementId(e: ShownEdge): string {
    if Present(e.edgeId) then e.edgeId.value else e.source + "_" + e.target + "_" + TypeOrDefault(e)
  }

  function ShowEdge(e: ShownEdge): EdgeElement {
    EdgeElement(ElementId(e), e.source, e.target, TypeOrDefault(e))
  }

  /** `edge.id().split('_').pop()`: the type as the double-click handler reads it. */
  function TypeFromId(id: string): string {
    var parts := Split(id, '_');
    parts[|parts| - 1]
  }

  /** The corrected read-back: the type kept with the displayed relation, not a piece of its id. */
  function RecoveredType(el: EdgeElement): string {
    el.relType
  }

  /** The last piece of a split is what follows the last separator. */
  lemma {:induction false} SplitLast(w: string, b: string, sep: char)
    requires sep !in b
    ensures |Split(w + [sep] + b, sep)| >= 2
    ensures Split(w + [sep] + b, sep)[|Split(w + [sep] + b, sep)| - 1] == b
  {
    var s := w + [sep] + b;
    if w == [] {
      assert s == [sep] + b && s[1..] == b;
      SplitNoSep(b, sep);
    } else {
      assert s[1..] == w[1..] + [sep] + b;
      SplitLast(w[1..], b, sep);
    }
  }

  /** Without a stored id, the type is read back from the fallback id whatever underscores the
      names contain, as long as the type itself has none. */
  lemma FallbackTypeRoundTrip(e: ShownEdge)
    requires !Present(e.edgeId)
    requires '_' !in TypeOrDefault(e)
    ensures TypeFromId(ElementId(e)) == TypeOrDefault(e)
  {
    assert ElementId(e) == (e.source + "_" + e.target) + ['_'] + TypeOrDefault(e);
    SplitLast(e.source + "_" + e.target, TypeOrDefault(e), '_');
  }

  /** A relation stored with id `482913` is shown under that id, and its type is then read back
      as `482913`; a delete request with that type leaves the relation in place. */
  lemma StoredIdHidesType(id: string, edges: seq<Edge>)
    requires id == "482913"
    requires edges == [Edge("Jean DUPONT", "Marie MARTIN", "FAMILLE", Some(id))]
    ensures var el := ShowEdge(ShownEdge("Jean DUPONT", "Marie MARTIN", Some("FAMILLE"), Some(id)));
            TypeFromId(el.id) == id && WithoutRelation(edges, el.source, el.target, TypeFromId(el.id)) == edges
  {
    SplitNoSep(id, '_');
    var f := (e: Edge) => !(e.source == "Jean DUPONT" && e.target == "Marie MARTIN" && e.relType == id);
    assert f(edges[0]);
    FilterAll(edges, f);
  }

  /** The shown form of a stored relation. */
  function ShownOf(e: Edge): ShownEdge {
    ShownEdge(e.source, e.target, Some(e.relType), e.edgeId)
  }

  /** Without a stored id, a type containing `_` is cut to its last piece: a `DEMI_FRERE`
      relation is read back as `FRERE`, and a delete request with that type leaves the stored
      relation in place. */
  lemma UnderscoreTypeCut(edges: seq<Edge>, k: nat, head: string, tail: string)
    requires k < |edges| && edges[k].edgeId.None? && edges[k].relType == head + "_" + tail && '_' !in tail
    ensures var el := ShowEdge(ShownOf(edges[k]));
            TypeFromId(el.id) == tail != edges[k].relType
            && edges[k] in WithoutRelation(edges, el.source, el.target, TypeFromId(el.id))
  {
    var e := edges[k];
    var el := ShowEdge(ShownOf(e));
    assert el.id == (e.source + "_" + e.target + "_" + head) + ['_'] + tail;
    SplitLast(e.source + "_" + e.target + "_" + head, tail, '_');
    assert |tail| < |e.relType|;
    FilterMember(edges, (x: Edge) => !(x.source == e.source && x.target == e.target && x.relType == tail), e);
  }

  /** With the type taken from the displayed relation, a delete request built from it removes
      the stored relation it shows, whether or not the relation has a stored id. */
  lemma RecoveredTypeDeletes(edges: seq<Edge>, k: nat)
    requires k < |edges| && edges[k].relType != ""
    ensures var el := ShowEdge(ShownOf(edges[k]));
            RecoveredType(el) == edges[k].relType
            && edges[k] !in WithoutRelation(edges, el.source, el.target, RecoveredType(el))
  {
    var e := edges[k];
    FilterMember(edges, (x: Edge) => !(x.source == e.source && x.target == e.target && x.relType == e.relType), e);
  }
}
