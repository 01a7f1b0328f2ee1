/** frontend/renderer.js, `loadPendingOnGraph`: pending proposals are drawn over the displayed
    graph in three passes over the list (new people, then new relations, then marks on the
    elements that a proposal would change or delete). */
module PendingOverlay {
  import opened Wrappers

  /** A displayed element, keyed by its id in the graph view. */
  datatype Element =
    | NodeEl(nodeLabel: string, origines: seq<string>, x: int, y: int, classes: set<string>)
    | EdgeEl(source: string, target: string, color: string, classes: set<string>)

  datatype ProposalKind = AddNode | AddRelation | ModifyNode | DeleteNode | DeleteRelation | OtherKind(name: string)

  /** The `data` object of a proposal; a missing property is `None`. */
  datatype ProposalData = ProposalData(
    nom: Option<string>, origines: Option<seq<string>>, x: Option<int>, y: Option<int>,
    source: Option<string>, target: Option<string>, relType: Option<string>)

  datatype Proposal = Proposal(id: string, kind: ProposalKind, data: Option<ProposalData>)

  const NoData := ProposalData(None, None, None, None, None, None, None)

  /** `p.data || {}`. */
  function DataOf(p: Proposal): ProposalData {
    p.data.GetOr(NoData)
  }

  /** A truthy string property. */
  predicate Present(o: Option<string>) {
    o.Some? && o.value != ""
  }

  /** `colors[type] || 'black'`. */
  function ColorOf(t: Option<string>): string {
    if t == Some("FAMILLE") then "blue"
    else if t == Some("AMIS") then "green"
    else if t == Some("AMOUR") then "red"
    else if t == Some("CONNECTION") then "#999"
    else "black"
  }

  function WithClass(e: Element, c: string): Element {
    e.(classes := e.classes + {c})
  }

  // ---------- pass 1: pending people ----------

  /** `p` proposes a person whose name is `k`. */
  predicate ProposesNode(p: Proposal, k: string) {
    p.kind == AddNode && Present(DataOf(p).nom) && DataOf(p).nom.value == k
  }

  function PendingNode(p: Proposal): Element {
    var d := DataOf(p);
    NodeEl(d.nom.GetOr(""), d.origines.GetOr([]), d.x.GetOr(0), d.y.GetOr(0), {"pending"})
  }

  function NodeStep(els: map<string, Element>, p: Proposal): map<string, Element> {
    if p.kind == AddNode && Present(DataOf(p).nom) && DataOf(p).nom.value !in els
    then els[DataOf(p).nom.value := PendingNode(p)]
    else els
  }

  function NodePass(els: map<string, Element>, ps: seq<Proposal>): map<string, Element>
    decreases ps
  {
    if ps == [] then els else NodePass(NodeStep(els, ps[0]), ps[1..])
  }

  /** The first pass keeps a shown element as it is. */
  lemma {:induction false} NodePassKeeps(els: map<string, Element>, ps: seq<Proposal>, k: string)
    requires k in els
    ensures k in NodePass(els, ps) && NodePass(els, ps)[k] == els[k]
    decreases ps
  {
    if ps != [] {
      NodePassKeeps(NodeStep(els, ps[0]), ps[1..], k);
    }
  }

  /** After the first pass, `k` is shown exactly when it was shown or a proposal names it. */
  lemma {:induction false} NodePassDomain(els: map<string, Element>, ps: seq<Proposal>, k: string)
    ensures k in NodePass(els, ps) <==> k in els || exists i :: 0 <= i < |ps| && ProposesNode(ps[i], k)
    decreases ps
  {
    if ps != [] {
      var rest := ps[1..];
      var e1 := NodeStep(els, ps[0]);
      NodePassDomain(e1, rest, k);
      if exists i :: 0 <= i < |rest| && ProposesNode(rest[i], k) {
        var i :| 0 <= i < |rest| && ProposesNode(rest[i], k);
        assert ps[i + 1] == rest[i];
      }
      if exists i :: 0 <= i < |ps| && ProposesNode(ps[i], k) {
        var i :| 0 <= i < |ps| && ProposesNode(ps[i], k);
        if i > 0 {
          assert rest[i - 1] == ps[i];
        }
      }
    }
  }

  /** A person added by the first pass is built from the first proposal of its name. */
  lemma {:induction false} NodePassFirst(els: map<string, Element>, ps: seq<Proposal>, k: string)
    requires k in NodePass(els, ps) && k !in els
    ensures exists i :: 0 <= i < |ps| && ProposesNode(ps[i], k) && NodePass(els, ps)[k] == PendingNode(ps[i])
                        && forall j :: 0 <= j < i ==> !ProposesNode(ps[j], k)
    decreases ps
  {
    if ps != [] {
      var p, rest := ps[0], ps[1..];
      var e1 := NodeStep(els, p);
      var r := NodePass(els, ps);
      assert r == NodePass(e1, rest);
      if k in e1 {
        NodePassKeeps(e1, rest, k);
        assert ProposesNode(ps[0], k) && r[k] == PendingNode(ps[0]);
      } else {
        NodePassFirst(e1, rest, k);
        var i :| 0 <= i < |rest| && ProposesNode(rest[i], k) && r[k] == PendingNode(rest[i])
                 && forall j :: 0 <= j < i ==> !ProposesNode(rest[j], k);
        assert ps[i + 1] == rest[i];
        forall j | 0 <= j < i + 1 ensures !ProposesNode(ps[j], k) {
          if j > 0 {
            assert ps[j] == rest[j - 1];
          }
        }
      }
    }
  }

  /** The first pass keeps every element, and adds for every name proposed and not yet shown
      one pending person, built from the first proposal of that name. */
  lemma NodePassFacts(els: map<string, Element>, ps: seq<Proposal>)
    ensures forall k :: k in els ==> k in NodePass(els, ps) && NodePass(els, ps)[k] == els[k]
    ensures forall k :: k in NodePass(els, ps) <==> k in els || exists i :: 0 <= i < |ps| && ProposesNode(ps[i], k)
    ensures forall k :: k in NodePass(els, ps) && k !in els ==>
              exists i :: 0 <= i < |ps| && ProposesNode(ps[i], k) && NodePass(els, ps)[k] == PendingNode(ps[i])
                          && forall j :: 0 <= j < i ==> !ProposesNode(ps[j], k)
  {
    forall k | k in els ensures k in NodePass(els, ps) && NodePass(els, ps)[k] == els[k] {
      NodePassKeeps(els, ps, k);
    }
    forall k ensures k in NodePass(els, ps) <==> k in els || exists i :: 0 <= i < |ps| && ProposesNode(ps[i], k) {
      NodePassDomain(els, ps, k);
    }
    forall k | k in NodePass(els, ps) && k !in els
      ensures exists i :: 0 <= i < |ps| && ProposesNode(ps[i], k) && NodePass(els, ps)[k] == PendingNode(ps[i])
                          && forall j :: 0 <= j < i ==> !ProposesNode(ps[j], k)
    {
      NodePassFirst(els, ps, k);
    }
  }

  // ---------- pass 2: pending relations ----------

  function PendingEdgeId(p: Proposal): string {
    "pending_e_" + p.id
  }

  /** `p` proposes a relation whose two ends are displayed in `els`. */
  predicate RelationReady(p: Proposal, els: map<string, Element>) {
    var d := DataOf(p);
    p.kind == AddRelation && Present(d.source) && Present(d.target) && d.source.value in els && d.target.value in els
  }

  function PendingEdge(p: Proposal): Element {
    var d := DataOf(p);
    EdgeEl(d.source.GetOr(""), d.target.GetOr(""), ColorOf(d.relType), {"pending"})
  }

  function EdgeStep(els: map<string, Element>, p: Proposal): map<string, Element> {
    if RelationReady(p, els) && PendingEdgeId(p) !in els then els[PendingEdgeId(p) := PendingEdge(p)] else els
  }

  function EdgePass(els: map<string, Element>, ps: seq<Proposal>): map<string, Element>
    decreases ps
  {
    if ps == [] then els else EdgePass(EdgeStep(els, ps[0]), ps[1..])
  }

  /** The second pass keeps a shown element as it is. */
  lemma {:induction false} EdgePassKeeps(els: map<string, Element>, ps: seq<Proposal>, k: string)
    requires k in els
    ensures k in EdgePass(els, ps) && EdgePass(els, ps)[k] == els[k]
    decreases ps
  {
    if ps != [] {
      EdgePassKeeps(EdgeStep(els, ps[0]), ps[1..], k);
    }
  }

  /** A proposal whose ends are shown has its pending relation id in the view afterwards. */
  lemma {:induction false} EdgePassAdds(els: map<string, Element>, ps: seq<Proposal>, i: nat)
    requires i < |ps| && RelationReady(ps[i], els)
    ensures PendingEdgeId(ps[i]) in EdgePass(els, ps)
    decreases ps
  {
    var e1 := EdgeStep(els, ps[0]);
    if i == 0 {
      if PendingEdgeId(ps[0]) in e1 {
        EdgePassKeeps(e1, ps[1..], PendingEdgeId(ps[0]));
      }
    } else {
      assert ps[1..][i - 1] == ps[i];
      assert RelationReady(ps[1..][i - 1], e1);
      EdgePassAdds(e1, ps[1..], i - 1);
    }
  }

  /** Every element the second pass adds is the pending relation of a proposal whose ends are
      shown. */
  lemma {:induction false} EdgePassOnly(els: map<string, Element>, ps: seq<Proposal>, k: string)
    requires k in EdgePass(els, ps) && k !in els
    ensures exists i :: 0 <= i < |ps| && k == PendingEdgeId(ps[i]) && EdgePass(els, ps)[k] == PendingEdge(ps[i])
                        && RelationReady(ps[i], EdgePass(els, ps))
    decreases ps
  {
    if ps != [] {
      var p, rest := ps[0], ps[1..];
      var e1 := EdgeStep(els, p);
      var r := EdgePass(els, ps);
      assert r == EdgePass(e1, rest);
      if k in e1 {
        EdgePassKeeps(e1, rest, k);
        var d := DataOf(ps[0]);
        EdgePassKeeps(e1, rest, d.source.value);
        EdgePassKeeps(e1, rest, d.target.value);
        assert k == PendingEdgeId(ps[0]) && r[k] == PendingEdge(ps[0]);
        assert RelationReady(ps[0], r);
      } else {
        EdgePassOnly(e1, rest, k);
        var i :| 0 <= i < |rest| && k == PendingEdgeId(rest[i]) && r[k] == PendingEdge(rest[i])
                 && RelationReady(rest[i], r);
        assert ps[i + 1] == rest[i];
      }
    }
  }

  /** The second pass keeps every element; it adds, under `pending_e_<id>`, a pending relation
      for every proposal whose ends are displayed, unless that id is already taken; every element
      it adds is such a relation, and both its ends are displayed. */
  lemma EdgePassFacts(els: map<string, Element>, ps: seq<Proposal>)
    ensures forall k :: k in els ==> k in EdgePass(els, ps) && EdgePass(els, ps)[k] == els[k]
    ensures forall i :: 0 <= i < |ps| && RelationReady(ps[i], els) ==> PendingEdgeId(ps[i]) in EdgePass(els, ps)
    ensures forall k :: k in EdgePass(els, ps) && k !in els ==>
              exists i :: 0 <= i < |ps| && k == PendingEdgeId(ps[i]) && EdgePass(els, ps)[k] == PendingEdge(ps[i])
                          && RelationReady(ps[i], EdgePass(els, ps))
  {
    forall k | k in els ensures k in EdgePass(els, ps) && EdgePass(els, ps)[k] == els[k] {
      EdgePassKeeps(els, ps, k);
    }
    forall i | 0 <= i < |ps| && RelationReady(ps[i], els) ensures PendingEdgeId(ps[i]) in EdgePass(els, ps) {
      EdgePassAdds(els, ps, i);
    }
    forall k | k in EdgePass(els, ps) && k !in els
      ensures exists i :: 0 <= i < |ps| && k == PendingEdgeId(ps[i]) && EdgePass(els, ps)[k] == PendingEdge(ps[i])
                          && RelationReady(ps[i], EdgePass(els, ps))
    {
      EdgePassOnly(els, ps, k);
    }
  }

  // ---------- pass 3: marks ----------

  /** The id that a `delete_relation` proposal names. */
  function RelationKey(d: ProposalData): string {
    d.source.GetOr("") + "_" + d.target.GetOr("") + "_" + d.relType.GetOr("")
  }

  /** The element id a proposal marks, and the class it adds there. */
  function MarkOf(p: Proposal): Option<(string, string)> {
    var d := DataOf(p);
    if p.kind == ModifyNode && Present(d.nom) then Some((d.nom.value, "pending-modify"))
    else if p.kind == DeleteNode && Present(d.nom) then Some((d.nom.value, "pending-delete"))
    else if p.kind == DeleteRelation && Present(d.source) && Present(d.target) && Present(d.relType)
    then Some((RelationKey(d), "pending-delete"))
    else None
  }

  function MarkStep(els: map<string, Element>, p: Proposal): map<string, Element> {
    match MarkOf(p)
    case Some((k, c)) => if k in els then els[k := WithClass(els[k], c)] else els
    case None => els
  }

  function MarkPass(els: map<string, Element>, ps: seq<Proposal>): map<string, Element>
    decreases ps
  {
    if ps == [] then els else MarkPass(MarkStep(els, ps[0]), ps[1..])
  }

  /** The classes the proposals of `ps` add to the element `k`. */
  predicate Marks(p: Proposal, k: string) {
    MarkOf(p).Some? && MarkOf(p).value.0 == k
  }

  function MarksOn(ps: seq<Proposal>, k: string): set<string> {
    set i | 0 <= i < |ps| && Marks(ps[i], k) :: MarkOf(ps[i]).value.1
  }

  /** The element with `e`'s content and the classes `cs` added. */
  predicate SameButClasses(e: Element, f: Element, cs: set<string>) {
    f == e.(classes := e.classes + cs)
  }

  /** The class the first proposal adds to `k`, if it names `k`. */
  function FirstMark(ps: seq<Proposal>, k: string): set<string>
    requires ps != []
  {
    if Marks(ps[0], k) then {MarkOf(ps[0]).value.1} else {}
  }

  lemma MarksOnCons(ps: seq<Proposal>, k: string)
    requires ps != []
    ensures MarksOn(ps, k) == FirstMark(ps, k) + MarksOn(ps[1..], k)
  {
    var rest := ps[1..];
    forall c | c in MarksOn(ps, k) ensures c in FirstMark(ps, k) + MarksOn(rest, k) {
      var i :| 0 <= i < |ps| && Marks(ps[i], k) && MarkOf(ps[i]).value.1 == c;
      if i > 0 {
        assert rest[i - 1] == ps[i];
      }
    }
    forall c | c in MarksOn(rest, k) ensures c in MarksOn(ps, k) {
      var i :| 0 <= i < |rest| && Marks(rest[i], k) && MarkOf(rest[i]).value.1 == c;
      assert ps[i + 1] == rest[i];
    }
  }

  /** One mark step keeps every id and adds to `k` the class of the proposal if it names `k`. */
  lemma MarkStepAt(els: map<string, Element>, ps: seq<Proposal>, k: string)
    requires ps != [] && k in els
    ensures k in MarkStep(els, ps[0]) && SameButClasses(els[k], MarkStep(els, ps[0])[k], FirstMark(ps, k))
  {
  }

  /** The third pass keeps the set of ids. */
  lemma {:induction false} MarkPassKeys(els: map<string, Element>, ps: seq<Proposal>)
    ensures MarkPass(els, ps).Keys == els.Keys
    decreases ps
  {
    if ps != [] {
      MarkPassKeys(MarkStep(els, ps[0]), ps[1..]);
    }
  }

  /** The third pass adds to a shown element the classes of the proposals naming it. */
  lemma {:induction false} MarkPassAt(els: map<string, Element>, ps: seq<Proposal>, k: string)
    requires k in els
    ensures k in MarkPass(els, ps) && SameButClasses(els[k], MarkPass(els, ps)[k], MarksOn(ps, k))
    decreases ps
  {
    if ps == [] {
      assert MarksOn(ps, k) == {};
      assert els[k].classes + {} == els[k].classes;
    } else {
      var e1 := MarkStep(els, ps[0]);
      MarkStepAt(els, ps, k);
      MarkPassAt(e1, ps[1..], k);
      MarksOnCons(ps, k);
      assert els[k].classes + FirstMark(ps, k) + MarksOn(ps[1..], k) == els[k].classes + MarksOn(ps, k);
    }
  }

  /** The third pass creates nothing and removes nothing; each displayed element gains exactly
      the classes of the proposals that name it and is otherwise unchanged. */
  lemma MarkPassFacts(els: map<string, Element>, ps: seq<Proposal>)
    ensures MarkPass(els, ps).Keys == els.Keys
    ensures forall k :: k in els ==> SameButClasses(els[k], MarkPass(els, ps)[k], MarksOn(ps, k))
  {
    MarkPassKeys(els, ps);
    forall k | k in els ensures SameButClasses(els[k], MarkPass(els, ps)[k], MarksOn(ps, k)) {
      MarkPassAt(els, ps, k);
    }
  }

  /** The three passes together. */
  function Overlay(els: map<string, Element>, ps: seq<Proposal>): map<string, Element> {
    MarkPass(EdgePass(NodePass(els, ps), ps), ps)
  }

  /** The elements displayed before the overlay keep their content and gain only classes, and a
      pending person is shown for every proposed name. */
  lemma OverlayKeepsShown(els: map<string, Element>, ps: seq<Proposal>)
    ensures forall k :: k in els ==>
              (k in Overlay(els, ps) && SameButClasses(els[k], Overlay(els, ps)[k], MarksOn(ps, k)))
    ensures forall i, k :: 0 <= i < |ps| && ProposesNode(ps[i], k) ==> k in Overlay(els, ps)
  {
    NodePassFacts(els, ps);
    var n := NodePass(els, ps);
    EdgePassFacts(n, ps);
    MarkPassFacts(EdgePass(n, ps), ps);
  }

  /** The graph view, as far as these passes see it: the displayed elements by id. */
  class GraphView {
    var elements: map<string, Element>

    constructor (shown: map<string, Element>)
      ensures elements == shown
    {
      elements := shown;
    }

    /** `loadPendingOnGraph`, given what the proposals request answered: `None` when the
        response was not ok or not an array. */
    method LoadPendingOnGraph(response: Option<seq<Proposal>>)
      modifies this
      ensures response.None? ==> elements == old(elements)
      ensures response.Some? ==> elements == Overlay(old(elements), response.value)
    {
      if response.None? || |response.value| == 0 {
        return;
      }
      var list := response.value;
      var i := 0;
      while i < |list|
        invariant 0 <= i <= |list|
        invariant NodePass(elements, list[i..]) == NodePass(old(elements), list)
      {
        var d := DataOf(list[i]);
        if list[i].kind == AddNode && Present(d.nom) && d.nom.value !in elements {
          elements := elements[d.nom.value := PendingNode(list[i])];
        }
        assert list[i..][1..] == list[i + 1..];
        i := i + 1;
      }
      var afterNodes := elements;
      i := 0;
      while i < |list|
        invariant 0 <= i <= |list|
        invariant EdgePass(elements, list[i..]) == EdgePass(afterNodes, list)
      {
        var d := DataOf(list[i]);
        if list[i].kind == AddRelation && Present(d.source) && Present(d.target) {
          if d.source.value in elements && d.target.value in elements {
            var id := PendingEdgeId(list[i]);
            if id !in elements {
              elements := elements[id := PendingEdge(list[i])];
            }
          }
        }
        assert list[i..][1..] == list[i + 1..];
        i := i + 1;
      }
      var afterEdges := elements;
      i := 0;
      while i < |list|
        invariant 0 <= i <= |list|
        invariant MarkPass(elements, list[i..]) == MarkPass(afterEdges, list)
      {
        var m := MarkOf(list[i]);
        if m.Some? && m.value.0 in elements {
          elements := elements[m.value.0 := WithClass(elements[m.value.0], m.value.1)];
        }
        assert list[i..][1..] == list[i + 1..];
        i := i + 1;
      }
    }
  }
}
