/** Intrusive linked lists over an array of nodes, as utils/dfs/buf.c keeps
    them: links are node indices, NIL ends a list. */
module Links {

  const NIL: int := -1

  datatype Link = Link(next: int, prev: int)

  datatype Ends = Ends(head: int, tail: int)

  ghost predicate NoRepeat(ids: seq<nat>) {
    forall k, k' :: 0 <= k < k' < |ids| ==> ids[k] != ids[k']
  }

  function First(ids: seq<nat>): int {
    if ids == [] then NIL else ids[0]
  }

  function Last(ids: seq<nat>): int {
    if ids == [] then NIL else ids[|ids| - 1]
  }

  function After(ids: seq<nat>, k: nat): int
    requires k < |ids|
  {
    if k + 1 < |ids| then ids[k + 1] else NIL
  }

  function Before(ids: seq<nat>, k: nat): int
    requires k < |ids|
  {
    if k > 0 then ids[k - 1] else NIL
  }

  /** The nodes from the head on are exactly ids, in order, with the forward
      links right: a singly linked list. */
  ghost predicate Forward(links: seq<Link>, head: int, ids: seq<nat>) {
    && NoRepeat(ids)
    && head == First(ids)
    && forall k :: 0 <= k < |ids| ==> ids[k] < |links| && links[ids[k]].next == After(ids, k)
  }

  /** Mutually inverse links: a doubly linked list. */
  ghost predicate Chain(links: seq<Link>, head: int, ids: seq<nat>) {
    && Forward(links, head, ids)
    && forall k :: 0 <= k < |ids| ==> ids[k] < |links| && links[ids[k]].prev == Before(ids, k)
  }

  ghost predicate Deque(links: seq<Link>, ends: Ends, ids: seq<nat>) {
    Chain(links, ends.head, ids) && ends.tail == Last(ids)
  }

  function Without(ids: seq<nat>, k: nat): seq<nat>
    requires k < |ids|
  {
    ids[..k] + ids[k + 1..]
  }

  /** Unlink b: mend the neighbours, then clear its own links. */
  function Unlinked(links: seq<Link>, b: nat): seq<Link>
    requires b < |links|
  {
    var n, p := links[b].next, links[b].prev;
    var l1 := if 0 <= n < |links| then links[n := links[n].(prev := p)] else links;
    var l2 := if 0 <= p < |links| then l1[p := l1[p].(next := n)] else l1;
    l2[b := Link(NIL, NIL)]
  }

  function HeadWithout(links: seq<Link>, head: int, b: nat): int
    requires b < |links|
  {
    if head == b then links[b].next else head
  }

  function EndsWithout(links: seq<Link>, ends: Ends, b: nat): Ends
    requires b < |links|
  {
    Ends(HeadWithout(links, ends.head, b), if ends.tail == b then links[b].prev else ends.tail)
  }

  lemma WithoutFacts(ids: seq<nat>, k: nat)
    requires NoRepeat(ids) && k < |ids|
    ensures NoRepeat(Without(ids, k))
    ensures forall x :: x in Without(ids, k) <==> x in ids && x != ids[k]
  {
    var r := Without(ids, k);
    forall x | x in ids && x != ids[k] ensures x in r {
      var j :| 0 <= j < |ids| && ids[j] == x;
      assert r[if j < k then j else j - 1] == x;
    }
    forall x | x in r ensures x in ids && x != ids[k] {
      var j :| 0 <= j < |r| && r[j] == x;
      assert ids[if j < k then j else j + 1] == x;
    }
  }

  lemma UnlinkedAt(links: seq<Link>, b: nat, x: nat)
    requires b < |links| && x < |links| && x != b
    ensures |Unlinked(links, b)| == |links|
    ensures Unlinked(links, b)[b] == Link(NIL, NIL)
    ensures Unlinked(links, b)[x] == Link(if x == links[b].prev then links[b].next else links[x].next,
                                          if x == links[b].next then links[b].prev else links[x].prev)
  {}

  lemma UnlinkedSize(links: seq<Link>, b: nat)
    requires b < |links|
    ensures |Unlinked(links, b)| == |links|
    ensures Unlinked(links, b)[b] == Link(NIL, NIL)
  {}

  /** One member of the list that remains. */
  lemma UnlinkMember(links: seq<Link>, head: int, ids: seq<nat>, k: nat, j: nat)
    requires Chain(links, head, ids) && k < |ids| && j < |Without(ids, k)|
    ensures var l, r := Unlinked(links, ids[k]), Without(ids, k);
            && |l| == |links| && r[j] < |l|
            && l[r[j]].next == After(r, j) && l[r[j]].prev == Before(r, j)
  {
    hide Unlinked;
    var i := if j < k then j else j + 1;
    assert Without(ids, k)[j] == ids[i] != ids[k];
    UnlinkedAt(links, ids[k], ids[i]);
    assert links[ids[k]] == Link(After(ids, k), Before(ids, k));
    assert links[ids[i]] == Link(After(ids, i), Before(ids, i));
    assert k > 0 ==> (ids[i] == ids[k - 1] <==> i == k - 1);
    assert k + 1 < |ids| ==> (ids[i] == ids[k + 1] <==> i == k + 1);
  }

  /** Unlinking a member leaves the list of the others. */
  lemma UnlinkChain(links: seq<Link>, head: int, ids: seq<nat>, k: nat)
    requires Chain(links, head, ids) && k < |ids|
    ensures Chain(Unlinked(links, ids[k]), HeadWithout(links, head, ids[k]), Without(ids, k))
  {
    hide Unlinked;
    var l, r := Unlinked(links, ids[k]), Without(ids, k);
    UnlinkedSize(links, ids[k]);
    WithoutFacts(ids, k);
    forall j | 0 <= j < |r| ensures r[j] < |l| && l[r[j]].next == After(r, j) && l[r[j]].prev == Before(r, j) {
      UnlinkMember(links, head, ids, k, j);
    }
    assert links[ids[k]].next == After(ids, k);
    if k > 0 { assert ids[0] != ids[k]; }
  }

  lemma ChainAt(links: seq<Link>, head: int, ids: seq<nat>, k: nat)
    requires Chain(links, head, ids) && k < |ids|
    ensures ids[k] < |links| && links[ids[k]] == Link(After(ids, k), Before(ids, k))
    ensures NoRepeat(ids) && head == First(ids)
  {}

  lemma LastWithout(ids: seq<nat>, k: nat)
    requires NoRepeat(ids) && k < |ids|
    ensures Last(Without(ids, k)) == if Last(ids) == ids[k] then Before(ids, k) else Last(ids)
  {
    if k < |ids| - 1 { assert ids[k] != ids[|ids| - 1]; }
  }

  lemma UnlinkDeque(links: seq<Link>, ends: Ends, ids: seq<nat>, k: nat)
    requires Deque(links, ends, ids) && k < |ids|
    ensures Deque(Unlinked(links, ids[k]), EndsWithout(links, ends, ids[k]), Without(ids, k))
  {
    hide Unlinked, Chain, Without, HeadWithout, NoRepeat, Last;
    ChainAt(links, ends.head, ids, k);
    UnlinkChain(links, ends.head, ids, k);
    LastWithout(ids, k);
  }

  /** Unlinking writes only to members of the list. */
  lemma UnlinkFrame(links: seq<Link>, head: int, ids: seq<nat>, k: nat)
    requires Chain(links, head, ids) && k < |ids|
    ensures |Unlinked(links, ids[k])| == |links|
    ensures forall x :: 0 <= x < |links| && x !in ids ==> Unlinked(links, ids[k])[x] == links[x]
    ensures Unlinked(links, ids[k])[ids[k]] == Link(NIL, NIL)
  {
    hide Unlinked;
    UnlinkedSize(links, ids[k]);
    forall x | 0 <= x < |links| && x !in ids ensures Unlinked(links, ids[k])[x] == links[x] {
      UnlinkedAt(links, ids[k], x);
      assert links[ids[k]] == Link(After(ids, k), Before(ids, k));
    }
  }

  /** Append b at the tail. */
  function Appended(links: seq<Link>, ends: Ends, b: nat): seq<Link>
    requires b < |links|
  {
    var l := links[b := Link(NIL, ends.tail)];
    if 0 <= ends.tail < |links| then l[ends.tail := l[ends.tail].(next := b)] else l
  }

  function EndsWith(ends: Ends, b: nat): Ends {
    Ends(if ends.head == NIL then b else ends.head, b)
  }

  lemma AppendDeque(links: seq<Link>, ends: Ends, ids: seq<nat>, b: nat)
    requires Deque(links, ends, ids) && b < |links| && b !in ids
    ensures Deque(Appended(links, ends, b), EndsWith(ends, b), ids + [b])
    ensures |Appended(links, ends, b)| == |links|
    ensures forall x :: 0 <= x < |links| && x !in ids && x != b ==> Appended(links, ends, b)[x] == links[x]
  {
    var l, r := Appended(links, ends, b), ids + [b];
    forall k | 0 <= k < |r| ensures r[k] < |l| && l[r[k]].next == After(r, k) && l[r[k]].prev == Before(r, k) {
      if k < |ids| - 1 { assert ids[k] != ids[|ids| - 1]; }
    }
  }

  /** Put b in front of a bucket. */
  function Pushed(links: seq<Link>, head: int, b: nat): seq<Link>
    requires b < |links|
  {
    var l := if 0 <= head < |links| then links[head := links[head].(prev := b)] else links;
    l[b := Link(head, NIL)]
  }

  lemma PushChain(links: seq<Link>, head: int, ids: seq<nat>, b: nat)
    requires Chain(links, head, ids) && b < |links| && b !in ids
    ensures Chain(Pushed(links, head, b), b, [b] + ids)
    ensures |Pushed(links, head, b)| == |links|
    ensures forall x :: 0 <= x < |links| && x !in ids && x != b ==> Pushed(links, head, b)[x] == links[x]
  {
    var l, r := Pushed(links, head, b), [b] + ids;
    forall k | 0 <= k < |r| ensures r[k] < |l| && l[r[k]].next == After(r, k) && l[r[k]].prev == Before(r, k) {
      if k > 0 { assert r[k] == ids[k - 1]; }
      if k > 1 { assert ids[k - 1] != ids[0]; }
    }
  }

  /** A list whose members' links are untouched is still that list. */
  lemma ForwardFrame(links: seq<Link>, links': seq<Link>, head: int, ids: seq<nat>)
    requires Forward(links, head, ids) && |links'| == |links|
    requires forall k :: 0 <= k < |ids| ==> links'[ids[k]] == links[ids[k]]
    ensures Forward(links', head, ids)
  {}

  lemma ChainFrame(links: seq<Link>, links': seq<Link>, head: int, ids: seq<nat>)
    requires Chain(links, head, ids) && |links'| == |links|
    requires forall k :: 0 <= k < |ids| ==> links'[ids[k]] == links[ids[k]]
    ensures Chain(links', head, ids)
  {}
}
