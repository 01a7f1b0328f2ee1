/** frontend/renderer.js: dissolving an origin group, which sends one `PATCH /person` per member
    with the group's origin taken out of that member's origins. */
module Groups {
  import opened Wrappers
  import opened Collections

  /** A displayed person, as the group handler sees it. */
  datatype Member = Member(id: string, isGroup: bool, origines: Option<seq<string>>)

  /** The body of one `PATCH /person` request. */
  datatype PersonPatch = PersonPatch(oldNom: string, nom: string, origines: seq<string>)

  /** How one request ended: an ok response, another response, or a thrown error. */
  datatype Reply = ReplyOk | ReplyNotOk | ReplyThrew

  /** `current.filter(o => o !== origine)`. */
  function RemoveOrigin(current: seq<string>, origine: string): seq<string> {
    Filter(current, (o: string) => o != origine)
  }

  /** The origin is gone afterwards, and every other origin keeps its number of occurrences. */
  lemma RemoveOriginCounts(current: seq<string>, origine: string)
    ensures origine !in RemoveOrigin(current, origine)
    ensures forall o :: o != origine ==> multiset(RemoveOrigin(current, origine))[o] == multiset(current)[o]
  {
    var r := RemoveOrigin(current, origine);
    FilterCounts(current, (o: string) => o != origine);
    assert multiset(r)[origine] == 0;
  }

  /** Removal works piece by piece, so the remaining origins stay in their order. */
  lemma RemoveOriginAppend(a: seq<string>, b: seq<string>, origine: string)
    ensures RemoveOrigin(a + b, origine) == RemoveOrigin(a, origine) + RemoveOrigin(b, origine)
  {
    FilterAppend(a, b, (o: string) => o != origine);
  }

  /** A list without the origin is sent back unchanged, so dissolving twice changes nothing more. */
  lemma RemoveOriginIdempotent(current: seq<string>, origine: string)
    ensures RemoveOrigin(RemoveOrigin(current, origine), origine) == RemoveOrigin(current, origine)
  {
    var r := RemoveOrigin(current, origine);
    RemoveOriginCounts(current, origine);
    forall k | 0 <= k < |r| ensures r[k] != origine {
      assert r[k] in r;
    }
    FilterAll(r, (o: string) => o != origine);
  }

  /** The members of a group: the people whose origins include it. */
  function GroupMembers(shown: seq<Member>, origine: string): (r: seq<Member>)
    ensures forall m :: m in r <==> m in shown && !m.isGroup && origine in m.origines.GetOr([])
  {
    var keep := (m: Member) => !m.isGroup && origine in m.origines.GetOr([]);
    var r := Filter(shown, keep);
    assert forall m :: m in r <==> m in shown && keep(m) by {
      forall m ensures m in r <==> m in shown && keep(m) {
        FilterMember(shown, keep, m);
      }
    }
    r
  }

  /** The request for one member: its name twice and its origins without the group's. */
  function PatchFor(m: Member, origine: string): PersonPatch {
    PersonPatch(m.id, m.id, RemoveOrigin(m.origines.GetOr([]), origine))
  }

  /** No request sent while dissolving a group keeps the group's origin. */
  lemma PatchDropsOrigin(m: Member, origine: string)
    ensures origine !in PatchFor(m, origine).origines
    ensures m.origines.GetOr([]) == PatchFor(m, origine).origines <==> origine !in m.origines.GetOr([])
  {
    var current := m.origines.GetOr([]);
    RemoveOriginCounts(current, origine);
    if origine !in current {
      forall k | 0 <= k < |current| ensures current[k] != origine {
        assert current[k] in current;
      }
      FilterAll(current, (o: string) => o != origine);
    }
  }

  /** The number of ok replies among the first `n` requests. */
  function OkReplies(reply: nat -> Reply, n: nat): (c: nat)
    ensures c <= n
  {
    if n == 0 then 0 else OkReplies(reply, n - 1) + (if reply(n - 1) == ReplyOk then 1 else 0)
  }

  /** `dissolveGroup`: the requests sent, in order, and the two counters it reports; `reply(k)`
      is how the `k`-th request ended. */
  method DissolveGroup(members: seq<Member>, origine: string, reply: nat -> Reply)
    returns (requests: seq<PersonPatch>, successCount: nat, errorCount: nat)
    ensures |requests| == |members|
    ensures forall k :: 0 <= k < |members| ==> requests[k] == PatchFor(members[k], origine)
    ensures successCount == OkReplies(reply, |members|)
    ensures successCount + errorCount == |members|
  {
    requests := [];
    successCount := 0;
    errorCount := 0;
    var i := 0;
    while i < |members|
      invariant 0 <= i <= |members|
      invariant |requests| == i
      invariant forall k :: 0 <= k < i ==> requests[k] == PatchFor(members[k], origine)
      invariant successCount == OkReplies(reply, i)
      invariant successCount + errorCount == i
    {
      ghost var before := requests;
      requests := requests + [PatchFor(members[i], origine)];
      assert forall k :: 0 <= k < i ==> requests[k] == before[k];
      if reply(i) == ReplyOk {
        successCount := successCount + 1;
      } else {
        errorCount := errorCount + 1;
      }
      i := i + 1;
    }
  }
}
