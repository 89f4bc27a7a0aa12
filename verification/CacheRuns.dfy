/** Whole sequential runs of the buffer cache: any requests in any order, with the
    discipline that release_buffer asks of its callers as the only condition. */
module CacheRuns {
  import opened Basics
  import opened Links
  import opened PointerPage
  import opened BufferCache

  /** What a client may ask for, by block number or by a buffer it holds. */
  datatype Request =
    Get(b: nat) | Alloc(b: nat) | Store(i: nat, data: Block) | Update(i: nat) | Forget(i: nat) | Release(i: nat) |
    Drop(b: nat) | Flush

  /** Refused: not a legal request. Full: every buffer is locked, which stops the
      program. */
  datatype Reply = Refused | Full | Done | Got(i: nat, data: Block)

  predicate Holds(bufs: seq<Buf>, i: nat) {
    i < |bufs| && bufs[i].locks > 0
  }

  /** Only a holder writes, marks or releases a buffer, and the last release of a
      buffer that differs from the device comes after marking it. */
  predicate Legal(size: nat, bufs: seq<Buf>, device: seq<Block>, req: Request) {
    match req
    case Get(b) => b < |device|
    case Alloc(b) => b < |device|
    case Drop(b) => b < |device|
    case Store(i, data) => Holds(bufs, i) && |data| == size
    case Update(i) => Holds(bufs, i)
    case Forget(i) => Holds(bufs, i)
    case Release(i) =>
      && Holds(bufs, i)
      && (bufs[i].locks == 1 && bufs[i].state.Locked? ==>
            bufs[i].blkno < |device| && bufs[i].data == device[bufs[i].blkno])
    case Flush => true
  }

  ghost predicate LegalIn(c: Cache, req: Request) {
    Legal(c.size, c.bufs, c.device, req)
  }

  ghost predicate SameSizes(c: Cache, c': Cache) {
    c'.size == c.size && |c'.bufs| == |c.bufs| && |c'.device| == |c.device|
  }

  /** Block b now has this content; every other block has its old one. */
  ghost predicate ContentNow(c: Cache, c': Cache, b: nat, data: Block) {
    && b < |c.device| == |c'.device| && Logical(c', NIL, b) == data
    && forall x :: 0 <= x < |c.device| && x != b ==> Logical(c', NIL, x) == Logical(c, NIL, x)
  }

  ghost predicate AllLocked(c: Cache, b: nat) {
    (forall j :: !Caches(c, NIL, j, b)) && forall i :: 0 <= i < |c.bufs| ==> c.bufs[i].locks > 0
  }

  /** No locked buffer caches the block. */
  ghost predicate NotHeld(c: Cache, b: nat) {
    forall i :: Caches(c, NIL, i, b) ==> c.bufs[i].locks == 0
  }

  /** The device holds every block that no locked buffer caches. */
  ghost predicate Written(c: Cache) {
    forall b :: 0 <= b < |c.device| && NotHeld(c, b) ==> c.device[b] == Logical(c, NIL, b)
  }

  /** Only buffer i differs, and only in its data or mark. */
  ghost predicate Edited(c: Cache, c': Cache, i: nat, b: Buf) {
    i < |c.bufs| && c'.bufs == c.bufs[i := b] && c'.device == c.device && c.bufs[i].blkno < |c.device|
  }

  /** What a legal request does. */
  ghost predicate Effect(c: Cache, req: Request, reply: Reply, c': Cache)
    requires LegalIn(c, req)
  {
    match req
    case Get(b) =>
      && (reply.Full? <==> AllLocked(c, b)) && !reply.Done?
      && (reply.Got? ==> Granted(c, c', reply.i, b) && reply.data == c'.bufs[reply.i].data
                         && ContentNow(c, c', b, reply.data) && c'.device[b] == c.device[b]
                         && (Revived(c, b) ==> reply.data == ZeroBytes(c.size))
                         && (reply.data == Logical(c, NIL, b) <==> !Revived(c, b) || c.device[b] == ZeroBytes(c.size)))
    case Alloc(b) =>
      && (reply.Full? <==> AllLocked(c, b)) && !reply.Done?
      && (reply.Got? ==> Granted(c, c', reply.i, b) && reply.data == c'.bufs[reply.i].data == ZeroBytes(c.size)
                         && ContentNow(c, c', b, reply.data))
    case Store(i, data) =>
      && reply.Done? && Edited(c, c', i, c.bufs[i].(data := data))
      && (if c.bufs[i].state.Invalid? then SameContent(c, NIL, c', NIL) else ContentNow(c, c', c.bufs[i].blkno, data))
    case Update(i) =>
      && reply.Done? && Edited(c, c', i, c.bufs[i].(state := Updated))
      && ContentNow(c, c', c.bufs[i].blkno, c.bufs[i].data)
    case Forget(i) =>
      && reply.Done? && Edited(c, c', i, c.bufs[i].(state := Invalid))
      && ContentNow(c, c', c.bufs[i].blkno, c.device[c.bufs[i].blkno])
    case Release(i) =>
      && reply.Done? && c'.device == c.device && SameContent(c, NIL, c', NIL)
      && |c'.bufs| == |c.bufs| && c'.bufs[i].locks == c.bufs[i].locks - 1
      && (forall j :: 0 <= j < |c.bufs| && j != i ==> c'.bufs[j] == c.bufs[j])
      && c'.bufs[i].blkno == c.bufs[i].blkno
      && c'.bufs[i].state == if c.bufs[i].locks > 1 then c.bufs[i].state else Idle(c.bufs[i].state)
    case Drop(b) =>
      reply.Done? && c'.device == c.device && ContentNow(c, c', b, c.device[b])
    case Flush =>
      && reply.Done? && SameContent(c, NIL, c', NIL) && Written(c') && |c'.bufs| == |c.bufs|
      && (forall i :: 0 <= i < |c.bufs| ==> c'.bufs[i].locks == c.bufs[i].locks)
      && (forall i :: 0 <= i < |c.bufs| && c.bufs[i].locks > 0 ==> c'.bufs[i] == c.bufs[i])
  }

  ghost predicate Answers(c: Cache, req: Request, reply: Reply, c': Cache) {
    && SameSizes(c, c')
    && (reply.Refused? <==> !LegalIn(c, req))
    && (reply.Refused? || reply.Full? ==> c' == c)
    && (LegalIn(c, req) ==> Effect(c, req, reply, c'))
  }

  method ServeGet(pool: BufferPool, b: nat) returns (reply: Reply)
    requires pool.Valid() && b < |pool.device|
    modifies pool
    ensures pool.Valid() && Answers(old(pool.State()), Get(b), reply, pool.State())
  {
    hide Ok, Logical, Caches, Revived;
    ghost var c := pool.State();
    var r := pool.GetBuffer(b);
    reply := if r == NIL then Full else Got(r, pool.bufs[r].data);
    forall x | 0 <= x < |c.device| && x != b && r != NIL ensures Logical(pool.State(), NIL, x) == Logical(c, NIL, x) {
      assert pool.Content(x) == old(pool.Content(x));
    }
    assert r != NIL ==> pool.Content(b) == Logical(pool.State(), NIL, b);
  }

  method ServeAlloc(pool: BufferPool, b: nat) returns (reply: Reply)
    requires pool.Valid() && b < |pool.device|
    modifies pool
    ensures pool.Valid() && Answers(old(pool.State()), Alloc(b), reply, pool.State())
  {
    hide Ok, Logical, Caches;
    ghost var c := pool.State();
    var r := pool.AllocBuffer(b);
    reply := if r == NIL then Full else Got(r, pool.bufs[r].data);
    forall x | 0 <= x < |c.device| && r != NIL
      ensures Logical(pool.State(), NIL, x) == if x == b then ZeroBytes(pool.size) else Logical(c, NIL, x)
    {
      assert pool.Content(x) == if x == b then ZeroBytes(pool.size) else old(pool.Content(x));
    }
  }

  method ServeMark(pool: BufferPool, req: Request) returns (reply: Reply)
    requires pool.Valid() && Legal(pool.size, pool.bufs, pool.device, req)
    requires req.Store? || req.Update? || req.Forget?
    modifies pool
    ensures pool.Valid() && Answers(old(pool.State()), req, reply, pool.State())
  {
    hide Ok, Logical;
    ghost var c := pool.State();
    reply := Done;
    match req {
      case Store(i, data) => pool.Fill(i, data);
      case Update(i) => pool.MarkBufferUpdated(i);
      case Forget(i) => pool.MarkBufferInvalid(i);
    }
    forall x | 0 <= x < |c.device| && x != c.bufs[req.i].blkno
      ensures Logical(pool.State(), NIL, x) == Logical(c, NIL, x)
    {
      assert pool.Content(x) == old(pool.Content(x));
    }
    assert pool.Content(c.bufs[req.i].blkno) == Logical(pool.State(), NIL, c.bufs[req.i].blkno);
    assert old(pool.Content(pool.bufs[req.i].blkno)) == Logical(c, NIL, c.bufs[req.i].blkno);
  }

  method ServeRest(pool: BufferPool, req: Request) returns (reply: Reply)
    requires pool.Valid() && Legal(pool.size, pool.bufs, pool.device, req)
    requires req.Release? || req.Drop? || req.Flush?
    modifies pool
    ensures pool.Valid() && Answers(old(pool.State()), req, reply, pool.State())
  {
    hide Ok, Logical, Caches;
    ghost var c := pool.State();
    reply := Done;
    match req {
      case Release(i) => pool.ReleaseBuffer(i);
      case Drop(b) => pool.InvalidateBuffer(b);
      case Flush => pool.FlushBuffers();
    }
    forall x | 0 <= x < |c.device|
      ensures Logical(pool.State(), NIL, x) == if req.Drop? && x == req.b then c.device[x] else Logical(c, NIL, x)
    {
      assert pool.Content(x) == if req.Drop? && x == req.b then c.device[x] else old(pool.Content(x));
    }
    forall x | req.Flush? && 0 <= x < |c.device| && NotHeld(pool.State(), x)
      ensures pool.device[x] == Logical(pool.State(), NIL, x)
    {
      assert pool.device[x] == pool.Content(x);
    }
  }

  /** One request on the real methods. */
  method Serve(pool: BufferPool, req: Request) returns (reply: Reply)
    requires pool.Valid()
    modifies pool
    ensures pool.Valid() && Answers(old(pool.State()), req, reply, pool.State())
  {
    hide Ok, Effect;
    if !Legal(pool.size, pool.bufs, pool.device, req) {
      return Refused;
    }
    match req {
      case Get(b) => reply := ServeGet(pool, b);
      case Alloc(b) => reply := ServeAlloc(pool, b);
      case Store(_, _) => reply := ServeMark(pool, req);
      case Update(_) => reply := ServeMark(pool, req);
      case Forget(_) => reply := ServeMark(pool, req);
      case Release(_) => reply := ServeRest(pool, req);
      case Drop(_) => reply := ServeRest(pool, req);
      case Flush => reply := ServeRest(pool, req);
    }
  }

  ghost predicate Chained(trace: seq<Cache>, reqs: seq<Request>, replies: seq<Reply>) {
    && |replies| == |reqs| && |trace| == |reqs| + 1
    && (forall i :: 0 <= i < |trace| ==> Ok(trace[i], NIL))
    && (forall i :: 0 <= i < |reqs| ==> Answers(trace[i], reqs[i], replies[i], trace[i + 1]))
  }

  /** Every run: the pool is in order in every state, and every request is answered
      as it should. */
  method ServeAll(pool: BufferPool, reqs: seq<Request>) returns (replies: seq<Reply>, ghost trace: seq<Cache>)
    requires pool.Valid()
    modifies pool
    ensures Chained(trace, reqs, replies) && trace[0] == old(pool.State()) && trace[|reqs|] == pool.State()
  {
    hide Ok, Answers;
    replies, trace := [], [pool.State()];
    for i := 0 to |reqs|
      invariant |replies| == i && |trace| == i + 1 && trace[0] == old(pool.State()) && trace[i] == pool.State()
      invariant forall k :: 0 <= k <= i ==> Ok(trace[k], NIL)
      invariant forall k :: 0 <= k < i ==> Answers(trace[k], reqs[k], replies[k], trace[k + 1])
    {
      var reply := Serve(pool, reqs[i]);
      replies := replies + [reply];
      trace := trace + [pool.State()];
    }
  }

  // ------------------------------------------------ what a block contains

  /** What a request makes block b contain, if it changes that: zeros, new data,
      the data of a buffer that is no longer invalid, or, where pending data is
      thrown away, what is on the device. */
  ghost function Given(c: Cache, req: Request, reply: Reply, b: nat): Option<Block>
    requires b < |c.device|
  {
    match req
    case Get(x) => if reply.Got? && x == b && Revived(c, b) then Some(ZeroBytes(c.size)) else None
    case Alloc(x) => if reply.Got? && x == b then Some(ZeroBytes(c.size)) else None
    case Store(i, data) => if reply.Done? && Of(c, i, b) && !c.bufs[i].state.Invalid? then Some(data) else None
    case Update(i) => if reply.Done? && Of(c, i, b) && c.bufs[i].state.Invalid? then Some(c.bufs[i].data) else None
    case Forget(i) => if reply.Done? && Of(c, i, b) then Some(c.device[b]) else None
    case Drop(x) => if reply.Done? && x == b then Some(c.device[b]) else None
    case _ => None
  }

  predicate Of(c: Cache, i: nat, b: nat) {
    i < |c.bufs| && c.bufs[i].blkno == b
  }

  /** What block b was given last before request n, at first what it contained. */
  ghost function Last(trace: seq<Cache>, reqs: seq<Request>, replies: seq<Reply>, b: nat, n: nat): Block
    requires n <= |reqs| == |replies| && |trace| == |reqs| + 1
    requires forall k :: 0 <= k < |trace| ==> b < |trace[k].device|
  {
    if n == 0 then Logical(trace[0], NIL, b) else
    match Given(trace[n - 1], reqs[n - 1], replies[n - 1], b)
    case Some(data) => data
    case None => Last(trace, reqs, replies, b, n - 1)
  }

  lemma UnlockedNotInvalid(c: Cache, i: nat)
    requires Ok(c, NIL) && i < |c.bufs| && c.bufs[i].locks == 0
    ensures !c.bufs[i].state.Invalid?
  {
    assert PlacedAt(c, NIL, i);
  }

  /** After one request a block contains what that gave it, or else what it did. */
  lemma OneStep(c: Cache, req: Request, reply: Reply, c': Cache, b: nat)
    requires Ok(c, NIL) && Answers(c, req, reply, c') && b < |c.device|
    ensures |c'.device| == |c.device|
    ensures Logical(c', NIL, b) == match Given(c, req, reply, b) case Some(data) => data case None => Logical(c, NIL, b)
    ensures req.Get? && reply.Got? && req.b == b ==> reply.data == Logical(c', NIL, b)
  {
    hide Ok, Logical, ZeroBytes, Revived, Granted, AllLocked, Written;
    if req.Update? && LegalIn(c, req) && !c.bufs[req.i].state.Invalid? { HitAgain(c, req.i); }
  }

  /** A block number that the device has at first it has throughout. */
  ghost predicate OnDevice(trace: seq<Cache>, b: nat) {
    forall k :: 0 <= k < |trace| ==> b < |trace[k].device|
  }

  lemma StaysOnDevice(trace: seq<Cache>, reqs: seq<Request>, replies: seq<Reply>, b: nat)
    requires Chained(trace, reqs, replies) && b < |trace[0].device|
    ensures OnDevice(trace, b)
  {
    hide Ok, Answers;
    forall k | 0 <= k < |trace| ensures b < |trace[k].device| { SameDevice(trace, reqs, replies, k); }
  }

  /** Cache transparency over every run: in every state each block contains what it
      was given last, whatever was evicted or flushed in between. */
  lemma {:induction false} Transparent(trace: seq<Cache>, reqs: seq<Request>, replies: seq<Reply>, b: nat, n: nat)
    requires Chained(trace, reqs, replies) && n <= |reqs| && OnDevice(trace, b)
    ensures Logical(trace[n], NIL, b) == Last(trace, reqs, replies, b, n)
    decreases n
  {
    hide Ok, Logical, Answers, Given;
    if n > 0 {
      Transparent(trace, reqs, replies, b, n - 1);
      assert Answers(trace[n - 1], reqs[n - 1], replies[n - 1], trace[n]);
      OneStep(trace[n - 1], reqs[n - 1], replies[n - 1], trace[n], b);
    }
  }

  /** get_buffer returns what the block contains from then on, which is what it was
      given last unless its cached copy is invalid and comes back as zeros. */
  lemma ReadsLast(trace: seq<Cache>, reqs: seq<Request>, replies: seq<Reply>, n: nat)
    requires Chained(trace, reqs, replies) && n < |reqs| && reqs[n].Get? && replies[n].Got?
    ensures OnDevice(trace, reqs[n].b) && replies[n].data == Last(trace, reqs, replies, reqs[n].b, n + 1)
    ensures replies[n].data == Last(trace, reqs, replies, reqs[n].b, n) <==>
            !Revived(trace[n], reqs[n].b) || trace[n].device[reqs[n].b] == ZeroBytes(trace[n].size)
  {
    hide Ok, Logical, Last, Given, Granted, Revived, Caches, AllLocked, ZeroBytes;
    assert Answers(trace[n], reqs[n], replies[n], trace[n + 1]);
    SameDevice(trace, reqs, replies, n);
    StaysOnDevice(trace, reqs, replies, reqs[n].b);
    Transparent(trace, reqs, replies, reqs[n].b, n);
    Transparent(trace, reqs, replies, reqs[n].b, n + 1);
    OneStep(trace[n], reqs[n], replies[n], trace[n + 1], reqs[n].b);
  }

  ghost predicate NoInvalid(c: Cache) {
    forall i :: 0 <= i < |c.bufs| ==> !c.bufs[i].state.Invalid?
  }

  /** In a run that throws nothing away no copy is ever invalid, so that only writing
      and alloc_buffer give a block anything. */
  lemma {:induction false} NeverInvalid(trace: seq<Cache>, reqs: seq<Request>, replies: seq<Reply>, n: nat)
    requires Chained(trace, reqs, replies) && n <= |reqs| && NoInvalid(trace[0])
    requires forall i :: 0 <= i < |reqs| ==> !reqs[i].Forget? && !reqs[i].Drop?
    ensures NoInvalid(trace[n])
    ensures n < |reqs| ==> forall b :: 0 <= b < |trace[n].device| && Given(trace[n], reqs[n], replies[n], b).Some? ==>
              reqs[n].Alloc? || reqs[n].Store?
    decreases n
  {
    hide Ok, Logical, Answers, NoInvalid, ZeroBytes;
    if n > 0 {
      NeverInvalid(trace, reqs, replies, n - 1);
      assert Answers(trace[n - 1], reqs[n - 1], replies[n - 1], trace[n]);
      StillValid(trace[n - 1], reqs[n - 1], replies[n - 1], trace[n]);
    }
    NothingInvalid(trace[n]);
  }

  lemma NothingInvalid(c: Cache)
    requires NoInvalid(c)
    ensures forall i :: 0 <= i < |c.bufs| ==> !c.bufs[i].state.Invalid?
    ensures forall b :: !Revived(c, b)
  {}

  lemma StillValid(c: Cache, req: Request, reply: Reply, c': Cache)
    requires Ok(c', NIL) && Answers(c, req, reply, c') && NoInvalid(c) && !req.Forget? && !req.Drop?
    ensures NoInvalid(c')
  {
    hide Ok, Logical, ZeroBytes;
    forall i | 0 <= i < |c'.bufs| && c'.bufs[i].locks == 0 ensures !c'.bufs[i].state.Invalid? {
      UnlockedNotInvalid(c', i);
    }
  }

  lemma {:induction false} SameDevice(trace: seq<Cache>, reqs: seq<Request>, replies: seq<Reply>, n: nat)
    requires Chained(trace, reqs, replies) && n <= |reqs|
    ensures |trace[n].device| == |trace[0].device|
    decreases n
  {
    hide Ok, Effect, LegalIn;
    if n > 0 {
      SameDevice(trace, reqs, replies, n - 1);
      assert Answers(trace[n - 1], reqs[n - 1], replies[n - 1], trace[n]);
    }
  }

  /** After a flush the device has what each block was given last, if no locked
      buffer caches it. */
  lemma FlushedLast(trace: seq<Cache>, reqs: seq<Request>, replies: seq<Reply>, n: nat, b: nat)
    requires Chained(trace, reqs, replies) && OnDevice(trace, b)
    requires n < |reqs| && reqs[n].Flush? && NotHeld(trace[n + 1], b)
    ensures trace[n + 1].device[b] == Last(trace, reqs, replies, b, n + 1)
  {
    hide Ok, Logical, Last, Given, NotHeld;
    assert Answers(trace[n], reqs[n], replies[n], trace[n + 1]);
    Transparent(trace, reqs, replies, b, n + 1);
  }

  /** A new pool over a device, and any run on it. */
  method RunFresh(poolsize: nat, size: nat, device: seq<Block>, reqs: seq<Request>)
    returns (replies: seq<Reply>, ghost trace: seq<Cache>)
    requires forall b :: 0 <= b < |device| ==> |device[b]| == size
    ensures Chained(trace, reqs, replies) && trace[0].device == device && NoInvalid(trace[0])
    ensures forall b :: 0 <= b < |device| ==> Logical(trace[0], NIL, b) == device[b]
    ensures |replies| == |reqs|
    ensures forall n :: 0 <= n < |reqs| && (reqs[n].Get? || reqs[n].Alloc?) ==>
              (replies[n].Refused? <==> reqs[n].b >= |device|) && !replies[n].Done?
  {
    hide Ok, Logical, Answers;
    var pool := new BufferPool(poolsize, size, device);
    forall b | 0 <= b < |device| ensures Logical(pool.State(), NIL, b) == device[b] {
      assert pool.Content(b) == device[b];
    }
    replies, trace := ServeAll(pool, reqs);
    forall n | 0 <= n < |reqs| && (reqs[n].Get? || reqs[n].Alloc?)
      ensures (replies[n].Refused? <==> reqs[n].b >= |device|) && !replies[n].Done?
    {
      SameDevice(trace, reqs, replies, n);
      Understood(trace[n], reqs[n], replies[n], trace[n + 1]);
    }
  }

  lemma Understood(c: Cache, req: Request, reply: Reply, c': Cache)
    requires Answers(c, req, reply, c') && (req.Get? || req.Alloc?)
    ensures (reply.Refused? <==> req.b >= |c.device|) && !reply.Done?
  {
    hide Logical, Granted, Revived, Caches;
  }
}
