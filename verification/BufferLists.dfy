/** The three chains and the hash buckets of the buffer pool (utils/dfs/buf.c)
    as values, and what each list operation does to them. */
module BufferLists {
  import opened Links

  const HASHSIZE: nat := 512

  /** All buffers share one chain link each; the free list is singly linked. The
      last three fields list the members in order. */
  datatype Chains = Chains(chain: seq<Link>, freelist: int, clean: Ends, dirty: Ends,
                           frees: seq<nat>, cleans: seq<nat>, dirties: seq<nat>)

  ghost predicate Disjoint(a: seq<nat>, b: seq<nat>) {
    forall x :: x in a ==> x !in b
  }

  ghost predicate ChainsOk(l: Chains) {
    && Forward(l.chain, l.freelist, l.frees)
    && Deque(l.chain, l.clean, l.cleans)
    && Deque(l.chain, l.dirty, l.dirties)
    && Disjoint(l.frees, l.cleans) && Disjoint(l.frees, l.dirties) && Disjoint(l.cleans, l.dirties)
  }

  ghost predicate InNone(l: Chains, i: nat) {
    i < |l.chain| && i !in l.frees && i !in l.cleans && i !in l.dirties
  }

  function UnlinkClean(l: Chains, i: nat, k: nat): Chains
    requires i < |l.chain| && k < |l.cleans|
  {
    l.(chain := Unlinked(l.chain, i), clean := EndsWithout(l.chain, l.clean, i), cleans := Without(l.cleans, k))
  }

  lemma UnlinkCleanOk(l: Chains, k: nat)
    requires ChainsOk(l) && k < |l.cleans|
    ensures l.cleans[k] < |l.chain|
    ensures ChainsOk(UnlinkClean(l, l.cleans[k], k)) && InNone(UnlinkClean(l, l.cleans[k], k), l.cleans[k])
    ensures |UnlinkClean(l, l.cleans[k], k).chain| == |l.chain|
    ensures forall x :: x in UnlinkClean(l, l.cleans[k], k).cleans <==> x in l.cleans && x != l.cleans[k]
  {
    hide Unlinked, EndsWithout, Without;
    var i, l' := l.cleans[k], UnlinkClean(l, l.cleans[k], k);
    UnlinkDeque(l.chain, l.clean, l.cleans, k);
    UnlinkFrame(l.chain, l.clean.head, l.cleans, k);
    WithoutFacts(l.cleans, k);
    Elsewhere(l.cleans, l.frees, l.chain, l'.chain);
    Elsewhere(l.cleans, l.dirties, l.chain, l'.chain);
    ForwardFrame(l.chain, l'.chain, l.freelist, l.frees);
    ChainFrame(l.chain, l'.chain, l.dirty.head, l.dirties);
  }

  /** Links of a disjoint list are untouched when only members of a list are. */
  lemma Elsewhere(ids: seq<nat>, others: seq<nat>, links: seq<Link>, links': seq<Link>)
    requires Disjoint(ids, others) || Disjoint(others, ids)
    requires |links'| == |links| && forall x :: 0 <= x < |links| && x !in ids ==> links'[x] == links[x]
    requires forall k :: 0 <= k < |others| ==> others[k] < |links|
    ensures forall k :: 0 <= k < |others| ==> links'[others[k]] == links[others[k]]
  {}

  function UnlinkDirty(l: Chains, i: nat, k: nat): Chains
    requires i < |l.chain| && k < |l.dirties|
  {
    l.(chain := Unlinked(l.chain, i), dirty := EndsWithout(l.chain, l.dirty, i), dirties := Without(l.dirties, k))
  }

  lemma UnlinkDirtyOk(l: Chains, k: nat)
    requires ChainsOk(l) && k < |l.dirties|
    ensures l.dirties[k] < |l.chain|
    ensures ChainsOk(UnlinkDirty(l, l.dirties[k], k)) && InNone(UnlinkDirty(l, l.dirties[k], k), l.dirties[k])
    ensures |UnlinkDirty(l, l.dirties[k], k).chain| == |l.chain|
    ensures forall x :: x in UnlinkDirty(l, l.dirties[k], k).dirties <==> x in l.dirties && x != l.dirties[k]
  {
    hide Unlinked, EndsWithout, Without;
    var i, l' := l.dirties[k], UnlinkDirty(l, l.dirties[k], k);
    UnlinkDeque(l.chain, l.dirty, l.dirties, k);
    UnlinkFrame(l.chain, l.dirty.head, l.dirties, k);
    WithoutFacts(l.dirties, k);
    Elsewhere(l.dirties, l.frees, l.chain, l'.chain);
    Elsewhere(l.dirties, l.cleans, l.chain, l'.chain);
    ForwardFrame(l.chain, l'.chain, l.freelist, l.frees);
    ChainFrame(l.chain, l'.chain, l.clean.head, l.cleans);
  }

  function AppendClean(l: Chains, i: nat): Chains
    requires i < |l.chain|
  {
    l.(chain := Appended(l.chain, l.clean, i), clean := EndsWith(l.clean, i), cleans := l.cleans + [i])
  }

  lemma AppendCleanOk(l: Chains, i: nat)
    requires ChainsOk(l) && InNone(l, i)
    ensures ChainsOk(AppendClean(l, i)) && |AppendClean(l, i).chain| == |l.chain|
  {
    hide Appended;
    var l' := AppendClean(l, i);
    AppendDeque(l.chain, l.clean, l.cleans, i);
    Elsewhere(l.cleans + [i], l.frees, l.chain, l'.chain);
    Elsewhere(l.cleans + [i], l.dirties, l.chain, l'.chain);
    ForwardFrame(l.chain, l'.chain, l.freelist, l.frees);
    ChainFrame(l.chain, l'.chain, l.dirty.head, l.dirties);
  }

  function AppendDirty(l: Chains, i: nat): Chains
    requires i < |l.chain|
  {
    l.(chain := Appended(l.chain, l.dirty, i), dirty := EndsWith(l.dirty, i), dirties := l.dirties + [i])
  }

  lemma AppendDirtyOk(l: Chains, i: nat)
    requires ChainsOk(l) && InNone(l, i)
    ensures ChainsOk(AppendDirty(l, i)) && |AppendDirty(l, i).chain| == |l.chain|
  {
    hide Appended;
    var l' := AppendDirty(l, i);
    AppendDeque(l.chain, l.dirty, l.dirties, i);
    Elsewhere(l.dirties + [i], l.frees, l.chain, l'.chain);
    Elsewhere(l.dirties + [i], l.cleans, l.chain, l'.chain);
    ForwardFrame(l.chain, l'.chain, l.freelist, l.frees);
    ChainFrame(l.chain, l'.chain, l.clean.head, l.cleans);
  }

  function PushFree(l: Chains, i: nat): Chains
    requires i < |l.chain|
  {
    l.(chain := l.chain[i := Link(l.freelist, NIL)], freelist := i, frees := [i] + l.frees)
  }

  lemma PushFreeOk(l: Chains, i: nat)
    requires ChainsOk(l) && InNone(l, i)
    ensures ChainsOk(PushFree(l, i)) && |PushFree(l, i).chain| == |l.chain|
  {
    var l' := PushFree(l, i);
    forall k | 0 <= k < |l'.frees| ensures l'.frees[k] < |l.chain| && l'.chain[l'.frees[k]].next == After(l'.frees, k) {
      if k > 0 { assert l'.frees[k] == l.frees[k - 1]; }
    }
    ChainFrame(l.chain, l'.chain, l.clean.head, l.cleans);
    ChainFrame(l.chain, l'.chain, l.dirty.head, l.dirties);
  }

  function PopFree(l: Chains): Chains
    requires 0 <= l.freelist < |l.chain| && |l.frees| > 0
  {
    l.(chain := l.chain[l.freelist := Link(NIL, NIL)], freelist := l.chain[l.freelist].next, frees := l.frees[1..])
  }

  lemma PopFreeOk(l: Chains)
    requires ChainsOk(l) && l.freelist != NIL
    ensures |l.frees| > 0 && l.freelist == l.frees[0] < |l.chain|
    ensures ChainsOk(PopFree(l)) && InNone(PopFree(l), l.freelist) && |PopFree(l).chain| == |l.chain|
    ensures forall x :: x in PopFree(l).frees <==> x in l.frees && x != l.freelist
  {
    var l' := PopFree(l);
    assert l.frees[0] == l.freelist;
    PopForward(l.chain, l.freelist, l.frees);
    assert forall x :: 0 <= x < |l.chain| && x !in l.frees ==> l'.chain[x] == l.chain[x];
    Elsewhere(l.frees, l.cleans, l.chain, l'.chain);
    Elsewhere(l.frees, l.dirties, l.chain, l'.chain);
    ChainFrame(l.chain, l'.chain, l.clean.head, l.cleans);
    ChainFrame(l.chain, l'.chain, l.dirty.head, l.dirties);
  }

  lemma PopForward(links: seq<Link>, head: int, ids: seq<nat>)
    requires Forward(links, head, ids) && |ids| > 0
    ensures 0 <= head < |links| && Forward(links[head := Link(NIL, NIL)], links[head].next, ids[1..])
    ensures forall x :: x in ids[1..] <==> x in ids && x != head
  {
    var rest, links' := ids[1..], links[ids[0] := Link(NIL, NIL)];
    forall k | 0 <= k < |rest| ensures rest[k] < |links'| && links'[rest[k]].next == After(rest, k) {
      assert rest[k] == ids[k + 1] != ids[0];
    }
    forall x | x in ids && x != head ensures x in rest {
      var k :| 0 <= k < |ids| && ids[k] == x;
      assert rest[k - 1] == x;
    }
  }

  // ------------------------------------------------------------ hash buckets

  datatype Hash = Hash(bucket: seq<Link>, table: seq<int>, buckets: seq<seq<nat>>)

  /** Every bucket is a doubly linked list and no buffer is in two. */
  ghost predicate HashOk(h: Hash) {
    && |h.table| == |h.buckets| == HASHSIZE
    && (forall s :: 0 <= s < HASHSIZE ==> Chain(h.bucket, h.table[s], h.buckets[s]))
    && (forall s, t :: 0 <= s < t < HASHSIZE ==> Disjoint(h.buckets[s], h.buckets[t]))
  }

  function Unhashed(h: Hash, s: nat, i: nat, k: nat): Hash
    requires s < |h.table| && s < |h.buckets| && i < |h.bucket| && k < |h.buckets[s]|
  {
    h.(bucket := Unlinked(h.bucket, i), table := h.table[s := HeadWithout(h.bucket, h.table[s], i)],
       buckets := h.buckets[s := Without(h.buckets[s], k)])
  }

  lemma UnhashOk(h: Hash, s: nat, k: nat)
    requires HashOk(h) && s < HASHSIZE && k < |h.buckets[s]|
    ensures h.buckets[s][k] < |h.bucket|
    ensures var h' := Unhashed(h, s, h.buckets[s][k], k);
            && HashOk(h') && |h'.bucket| == |h.bucket|
            && forall x :: x in h'.buckets[s] <==> x in h.buckets[s] && x != h.buckets[s][k]
  {
    hide Unlinked, HeadWithout, Without;
    var i := h.buckets[s][k];
    assert Chain(h.bucket, h.table[s], h.buckets[s]);
    var h' := Unhashed(h, s, i, k);
    UnlinkChain(h.bucket, h.table[s], h.buckets[s], k);
    UnlinkFrame(h.bucket, h.table[s], h.buckets[s], k);
    WithoutFacts(h.buckets[s], k);
    forall t | 0 <= t < HASHSIZE ensures Chain(h'.bucket, h'.table[t], h'.buckets[t]) {
      if t != s {
        OtherBucket(h, s, t);
        Elsewhere(h.buckets[s], h.buckets[t], h.bucket, h'.bucket);
        ChainFrame(h.bucket, h'.bucket, h.table[t], h.buckets[t]);
      }
    }
  }

  lemma OtherBucket(h: Hash, s: nat, t: nat)
    requires HashOk(h) && s < HASHSIZE && t < HASHSIZE && s != t
    ensures Chain(h.bucket, h.table[t], h.buckets[t])
    ensures Disjoint(h.buckets[s], h.buckets[t]) || Disjoint(h.buckets[t], h.buckets[s])
    ensures forall k :: 0 <= k < |h.buckets[t]| ==> h.buckets[t][k] < |h.bucket|
  {}

  function Hashed(h: Hash, s: nat, i: nat): Hash
    requires s < |h.table| && s < |h.buckets| && i < |h.bucket|
  {
    h.(bucket := Pushed(h.bucket, h.table[s], i), table := h.table[s := i],
      buckets := h.buckets[s := [i] + h.buckets[s]])
  }

  lemma HashInsertOk(h: Hash, s: nat, i: nat)
    requires HashOk(h) && s < HASHSIZE && i < |h.bucket|
    requires forall t :: 0 <= t < HASHSIZE ==> i !in h.buckets[t]
    ensures HashOk(Hashed(h, s, i)) && |Hashed(h, s, i).bucket| == |h.bucket|
  {
    hide Pushed;
    var h' := Hashed(h, s, i);
    PushChain(h.bucket, h.table[s], h.buckets[s], i);
    forall t | 0 <= t < HASHSIZE ensures Chain(h'.bucket, h'.table[t], h'.buckets[t]) {
      if t != s {
        OtherBucket(h, s, t);
        assert Disjoint([i] + h.buckets[s], h.buckets[t]);
        Elsewhere([i] + h.buckets[s], h.buckets[t], h.bucket, h'.bucket);
        ChainFrame(h.bucket, h'.bucket, h.table[t], h.buckets[t]);
      }
    }
  }
}
