/** The debugger link of utils/dbggw/rdp.c: run-length coding and checksummed
    packets over a byte stream. */
module DebugLink {

  import opened Basics
  import opened PointerPage

  const DBG_RLE_ESCAPE: byte := 0xA5
  const DBG_SIGNATURE: byte := 0xDB

  // ----- run-length coding ------------------------------------------------------

  /** How far the run of v that already has n bytes goes, at most 256. */
  function Run(d: Block, v: byte, n: nat): (r: nat)
    requires n <= |d| && n <= 256
    ensures n <= r <= |d| && r <= 256
    ensures forall i :: n <= i < r ==> d[i] == v
    decreases |d| - n
  {
    if n < |d| && n < 256 && d[n] == v then Run(d, v, n + 1) else n
  }

  predicate Packed(d: Block)
    requires |d| > 0
  {
    d[0] == DBG_RLE_ESCAPE || (|d| > 3 && d[0] == d[1] && d[0] == d[2])
  }

  /** A run of 256 is sent as 0. */
  function RunCode(v: byte, n: nat): Block {
    [DBG_RLE_ESCAPE, v, n % 256]
  }

  function Encode(d: Block): Block {
    if d == [] then [] else
    if Packed(d) then RunCode(d[0], Run(d, d[0], 1)) + Encode(d[Run(d, d[0], 1)..])
    else [d[0]] + Encode(d[1..])
  }

  function Repeat(v: byte, n: nat): (r: Block)
    ensures |r| == n && forall i :: 0 <= i < n ==> r[i] == v
  {
    seq<byte>(n, _ => v)
  }

  function RunOf(count: byte): nat {
    if count == 0 then 256 else count
  }

  function Prepend(d: Block, r: Option<(Block, Block)>): Option<(Block, Block)> {
    match r
    case None => None
    case Some(p) => Some((d + p.0, p.1))
  }

  /** The first len bytes that a stream stands for, and what follows; None where
      the stream ends too soon or a run goes past len. */
  function Decode(s: Block, len: nat): Option<(Block, Block)>
    decreases len
  {
    if len == 0 then Some(([], s)) else
    if s == [] then None else
    if s[0] != DBG_RLE_ESCAPE then Prepend([s[0]], Decode(s[1..], len - 1)) else
    if |s| < 3 || RunOf(s[2]) > len then None else
    Prepend(Repeat(s[1], RunOf(s[2])), Decode(s[3..], len - RunOf(s[2])))
  }

  /** An escape, a byte and a count stand for that many of the byte, the count taken
      modulo 256. */
  lemma DecodeRun(v: byte, count: byte, n: nat, e: Block, len: nat)
    requires 1 <= n <= 256 && n % 256 == count && n <= len
    ensures Decode([DBG_RLE_ESCAPE, v, count] + e, len) == Prepend(Repeat(v, n), Decode(e, len - n))
  {
    var s := [DBG_RLE_ESCAPE, v, count] + e;
    assert s[0] == DBG_RLE_ESCAPE && s[1] == v && RunOf(s[2]) == n;
    assert s[3..] == e;
  }

  lemma DecodeLiteral(v: byte, e: Block, len: nat)
    requires v != DBG_RLE_ESCAPE && len > 0
    ensures Decode([v] + e, len) == Prepend([v], Decode(e, len - 1))
  {
    assert ([v] + e)[1..] == e;
  }

  /** What was encoded comes back, and the receiver stops right behind it. */
  lemma {:induction false} RoundTrip(d: Block, suffix: Block)
    ensures Decode(Encode(d) + suffix, |d|) == Some((d, suffix))
    decreases |d|
  {
    if d == [] {
      assert Encode(d) + suffix == suffix;
    } else if Packed(d) {
      RoundTripRun(d, Run(d, d[0], 1), suffix);
    } else {
      RoundTripLiteral(d, suffix);
    }
  }

  lemma {:induction false} RoundTripRun(d: Block, n: nat, suffix: Block)
    requires |d| > 0 && Packed(d) && n == Run(d, d[0], 1)
    ensures Decode(Encode(d) + suffix, |d|) == Some((d, suffix))
    decreases |d|, 0
  {
    hide Decode, Run;
    var rest := d[n..];
    RoundTrip(rest, suffix);
    DecodeRun(d[0], n % 256, n, Encode(rest) + suffix, |d|);
    assert Encode(d) + suffix == RunCode(d[0], n) + (Encode(rest) + suffix);
    assert d == Repeat(d[0], n) + rest;
  }

  lemma {:induction false} RoundTripLiteral(d: Block, suffix: Block)
    requires |d| > 0 && !Packed(d)
    ensures Decode(Encode(d) + suffix, |d|) == Some((d, suffix))
    decreases |d|, 0
  {
    hide Decode;
    var rest := d[1..];
    RoundTrip(rest, suffix);
    DecodeLiteral(d[0], Encode(rest) + suffix, |d|);
    assert Encode(d) + suffix == [d[0]] + (Encode(rest) + suffix);
    assert d == [d[0]] + rest;
  }

  /** Bytes that are no escapes never take more room encoded. */
  lemma {:induction false} EncodeNoLonger(d: Block)
    ensures |Encode(d)| <= 3 * |d|
    ensures DBG_RLE_ESCAPE !in d ==> |Encode(d)| <= |d|
    decreases |d|
  {
    if d != [] {
      var n := if Packed(d) then Run(d, d[0], 1) else 1;
      EncodeNoLonger(d[n..]);
      if d[0] != DBG_RLE_ESCAPE && Packed(d) { RunFrom(d, d[0], 1, 3); }
    }
  }

  lemma {:induction false} RunFrom(d: Block, v: byte, n: nat, m: nat)
    requires n <= m <= |d| && m <= 256 && forall i :: n <= i < m ==> d[i] == v
    ensures Run(d, v, n) == Run(d, v, m) >= m
    decreases m - n
  {
    if n < m { RunFrom(d, v, n + 1, m); }
  }

  /** What n equal bytes take: three for every 256 of them and for the rest, unless
      that is shorter as it is. */
  function RunCost(v: byte, n: nat): nat {
    n / 256 * 3 + (if v == DBG_RLE_ESCAPE && n % 256 > 0 then 3 else if n % 256 < 3 then n % 256 else 3)
  }

  lemma {:induction false} RunLength(v: byte, n: nat)
    ensures |Encode(Repeat(v, n))| == RunCost(v, n)
    decreases n
  {
    hide RunCost;
    if n == 0 {
      RunCosts(v, 0);
    } else {
      var m := if n <= 3 && v != DBG_RLE_ESCAPE then 1 else if n < 256 then n else 256;
      RunLength(v, n - m);
      RunSplit(v, n, m);
      RunCosts(v, n);
    }
  }

  /** The first step of the encoding takes off a run or one byte. */
  lemma RunSplit(v: byte, n: nat, m: nat)
    requires n > 0 && m == if n <= 3 && v != DBG_RLE_ESCAPE then 1 else if n < 256 then n else 256
    ensures |Encode(Repeat(v, n))| ==
            (if n <= 3 && v != DBG_RLE_ESCAPE then 1 else 3) + |Encode(Repeat(v, n - m))|
  {
    hide Run;
    var d := Repeat(v, n);
    assert d[m..] == Repeat(v, n - m);
    if n > 3 || v == DBG_RLE_ESCAPE {
      RunFrom(d, v, 1, m);
      assert Run(d, v, 1) == m;
    }
  }

  lemma RunCosts(v: byte, n: nat)
    ensures RunCost(v, 0) == 0
    ensures 0 < n <= 3 && v != DBG_RLE_ESCAPE ==> RunCost(v, n) == 1 + RunCost(v, n - 1)
    ensures 0 < n < 256 && (n > 3 || v == DBG_RLE_ESCAPE) ==> RunCost(v, n) == 3
    ensures n >= 256 ==> RunCost(v, n) == 3 + RunCost(v, n - 256)
  {}

  lemma {:induction false} DecodeLength(s: Block, len: nat)
    ensures Decode(s, len).Some? ==> |Decode(s, len).value.0| == len
    decreases len
  {
    if len > 0 && s != [] {
      if s[0] != DBG_RLE_ESCAPE {
        DecodeLength(s[1..], len - 1);
      } else if |s| >= 3 && RunOf(s[2]) <= len {
        DecodeLength(s[3..], len - RunOf(s[2]));
      }
    }
  }

  /** left - n for unsigned 32-bit integers. */
  function Less(left: nat, n: nat): (r: nat)
    requires left < WORD && n <= WORD
    ensures r < WORD
  {
    if n <= left then left - n else left - n + WORD
  }

  /** All bytes that dbg_recv_rle writes from the start of its buffer on, and what
      follows in the stream; None while the stream is too short. A run that goes
      past the end takes the count of bytes left below zero. */
  function Written(s: Block, left: nat): (r: Option<(Block, Block)>)
    requires left < WORD
    ensures r.Some? ==> |r.value.0| == left || |r.value.0| >= left + WORD
    decreases |s|
  {
    if left == 0 then Some(([], s)) else
    if s == [] then None else
    if s[0] != DBG_RLE_ESCAPE then Prepend([s[0]], Written(s[1..], left - 1)) else
    if |s| < 3 then None else
    Prepend(Repeat(s[1], RunOf(s[2])), Written(s[3..], Less(left, RunOf(s[2]))))
  }

  /** The receiver writes exactly its len bytes, and then the right ones, exactly if
      no run goes past them. */
  lemma {:induction false} WrittenExactly(s: Block, len: nat)
    requires len < WORD
    ensures Decode(s, len).Some? ==> Written(s, len) == Decode(s, len)
    ensures Written(s, len).Some? ==> (|Written(s, len).value.0| == len <==> Decode(s, len).Some?)
    ensures Written(s, len).Some? && Decode(s, len).None? ==> |Written(s, len).value.0| >= len + WORD
    decreases |s|
  {
    DecodeLength(s, len);
    if len > 0 && s != [] {
      if s[0] != DBG_RLE_ESCAPE {
        WrittenExactly(s[1..], len - 1);
      } else if |s| >= 3 {
        if RunOf(s[2]) <= len { WrittenExactly(s[3..], len - RunOf(s[2])); }
      }
    }
  }

  /** For example, a run of 3 where 2 bytes are left: all 3 are written and 2^32 - 1
      bytes seem to be left. */
  lemma RunPastEnd(v: byte, rest: Block)
    ensures var s := RunCode(v, 3) + rest;
      Decode(s, 2) == None && Written(s, 2) == Prepend(Repeat(v, 3), Written(rest, WORD - 1))
  {
    var s := RunCode(v, 3) + rest;
    assert s[0] == DBG_RLE_ESCAPE && s[1] == v && RunOf(s[2]) == 3;
    assert s[3..] == rest;
  }

  // ----- packets ------------------------------------------------------------------

  /** Addition of unsigned chars. */
  function Add8(a: byte, b: byte): byte {
    var x: int, y: int := a, b;
    if x + y < 256 then x + y else x + y - 256
  }

  function Negated(a: byte): byte {
    var x: int := a;
    if x == 0 then 0 else 256 - x
  }

  lemma Add8Laws(a: byte, b: byte, c: byte)
    ensures Add8(a, b) == Add8(b, a)
    ensures Add8(a, Add8(b, c)) == Add8(Add8(a, b), c)
    ensures Add8(a, b) == Add8(a, c) <==> b == c
    ensures Add8(a, 0) == a && Add8(a, Negated(a)) == 0
    ensures Add8(a, b) == 0 <==> b == Negated(a)
  {}

  /** The byte sum, modulo 256. */
  function Sum(d: Block): byte {
    if d == [] then 0 else Add8(Sum(d[..|d| - 1]), d[|d| - 1])
  }

  /** The plain sum of the bytes. */
  function Total(d: Block): nat {
    if d == [] then 0 else Total(d[1..]) + d[0] as int
  }

  lemma {:induction false} TotalAppend(a: Block, b: Block)
    ensures Total(a + b) == Total(a) + Total(b)
  {
    if a == [] {
      assert a + b == b;
    } else {
      assert (a + b)[1..] == a[1..] + b;
      TotalAppend(a[1..], b);
    }
  }

  /** The checksum arithmetic in unsigned chars is that of whole numbers modulo 256. */
  lemma {:induction false} SumIsTotal(d: Block)
    ensures Sum(d) == Total(d) % 256
  {
    if d != [] {
      var n := |d| - 1;
      SumIsTotal(d[..n]);
      TotalAppend(d[..n], [d[n]]);
      assert d == d[..n] + [d[n]];
    }
  }

  lemma {:induction false} SumAppend(a: Block, b: Block)
    ensures Sum(a + b) == Add8(Sum(a), Sum(b))
    decreases |b|
  {
    hide Add8;
    if b == [] {
      assert a + b == a;
      Add8Laws(Sum(a), 0, 0);
    } else {
      var n := |b| - 1;
      SumAppend(a, b[..n]);
      assert (a + b)[..|a + b| - 1] == a + b[..n];
      Add8Laws(Sum(a), Sum(b[..n]), b[n]);
    }
  }

  lemma SumOne(v: byte)
    ensures Sum([v]) == v
  {
    assert [v][..0] == [];
  }

  function Header(cmd: byte, id: byte, checksum: byte, len: nat): (h: Block)
    requires len < WORD
    ensures |h| == 8
  {
    [DBG_SIGNATURE, cmd, id, checksum] + PtrBytes(len)
  }

  function Checksum(cmd: byte, id: byte, data: Block): byte
    requires |data| < WORD
  {
    Negated(Sum(Header(cmd, id, 0, |data|) + data))
  }

  function Packet(cmd: byte, id: byte, data: Block): Block
    requires |data| < WORD
  {
    Header(cmd, id, Checksum(cmd, id, data), |data|) + Encode(data)
  }

  /** The bytes of a packet, by position: signature, command, id, a byte that makes
      the header and the payload add up to a multiple of 256, the length of the
      payload in four bytes, the lowest first, and the payload encoded. */
  lemma PacketBytes(cmd: byte, id: byte, data: Block)
    requires |data| < WORD
    ensures var p := Packet(cmd, id, data);
      && |p| >= 8 && p[0] == DBG_SIGNATURE && p[1] == cmd && p[2] == id
      && (Total(p[..8]) + Total(data)) % 256 == 0 && LittleEndian(p[4..8]) == |data| && p[8..] == Encode(data)
  {
    hide Encode, Sum, Checksum, LittleEndian, Total;
    var h, p := Header(cmd, id, Checksum(cmd, id, data), |data|), Packet(cmd, id, data);
    assert p[..8] == h && p[4..8] == PtrBytes(|data|) && p[8..] == Encode(data);
    PtrBytesSpell(|data|);
    SumZero(cmd, id, data, data);
    SumIsTotal(h + data);
    TotalAppend(h, data);
  }

  datatype Reply = Reply(status: int, cmd: byte, id: byte, data: Block, rest: Block)

  /** dbg_recv_packet; None while the packet is not complete. */
  function Receive(s: Block, max: nat): Option<Reply>
    decreases |s|
  {
    if s == [] then None else
    if s[0] != DBG_SIGNATURE then Receive(s[1..], max) else
    if |s| < 8 then None else Accept(s, max)
  }

  function Accept(s: Block, max: nat): Option<Reply>
    requires |s| >= 8
  {
    var len := Ptr(s[4..8], 0);
    if len > max then Some(Reply(-1, s[1], s[2], [], s[8..])) else
    match Written(s[8..], len)
    case None => None
    case Some(p) =>
      Some(Reply(if Sum(s[..8] + p.0[..len]) != 0 then -2 else len, s[1], s[2], p.0, p.1))
  }

  lemma {:induction false} Resync(noise: Block, s: Block, max: nat)
    requires DBG_SIGNATURE !in noise
    ensures Receive(noise + s, max) == Receive(s, max)
  {
    if noise == [] {
      assert noise + s == s;
    } else {
      assert (noise + s)[1..] == noise[1..] + s;
      Resync(noise[1..], s, max);
    }
  }

  /** What the receiver makes of a stream, by position: it skips to the signature,
      refuses a length over the limit, and otherwise takes as many bytes as the
      length says and refuses them unless header and payload add up to a multiple
      of 256. */
  lemma ReceiveReads(noise: Block, s: Block, max: nat)
    requires DBG_SIGNATURE !in noise && |s| >= 8 && s[0] == DBG_SIGNATURE
    ensures var len, r := LittleEndian(s[4..8]), Receive(noise + s, max);
      && len < WORD
      && (len > max ==> r == Some(Reply(-1, s[1], s[2], [], s[8..])))
      && (len <= max ==> (r.None? <==> Written(s[8..], len).None?))
      && (len <= max && r.Some? ==>
            && Some((r.value.data, r.value.rest)) == Written(s[8..], len) && |r.value.data| >= len
            && r.value.cmd == s[1] && r.value.id == s[2]
            && r.value.status ==
               if (Total(s[..8]) + Total(r.value.data[..len])) % 256 == 0 then len else -2)
  {
    hide Written, Sum, LittleEndian, Total;
    Resync(noise, s, max);
    PtrIsLittleEndian(s[4..8], 0);
    assert s[4..8][0..4] == s[4..8];
    var len := LittleEndian(s[4..8]);
    if len <= max && Written(s[8..], len).Some? {
      var data := Written(s[8..], len).value.0[..len];
      SumIsTotal(s[..8] + data);
      TotalAppend(s[..8], data);
    }
  }

  lemma HeaderSum(cmd: byte, id: byte, checksum: byte, len: nat)
    requires len < WORD
    ensures Sum(Header(cmd, id, checksum, len)) == Add8(Sum(Header(cmd, id, 0, len)), checksum)
  {
    hide Sum, Add8;
    var a: Block, b := [DBG_SIGNATURE, cmd, id], PtrBytes(len);
    var zero: Block := [0];
    assert Header(cmd, id, checksum, len) == (a + [checksum]) + b;
    assert Header(cmd, id, 0, len) == (a + zero) + b;
    SumAppend(a + [checksum], b);
    SumAppend(a + zero, b);
    SumAppend(a, [checksum]);
    SumAppend(a, zero);
    SumOne(checksum);
    SumOne(0);
    SwapLines(Sum(a), Sum(b), checksum);
  }

  lemma SwapLines(a: byte, b: byte, c: byte)
    ensures Add8(Add8(a, c), b) == Add8(Add8(Add8(a, 0), b), c)
  {}

  /** The whole packet sums to zero exactly when the payload's sum is the sent one's. */
  lemma SumZero(cmd: byte, id: byte, data: Block, data': Block)
    requires |data| < WORD && |data'| == |data|
    ensures Sum(Header(cmd, id, Checksum(cmd, id, data), |data|) + data') == 0 <==> Sum(data') == Sum(data)
  {
    hide Sum, Add8, Header, Negated;
    var h := Sum(Header(cmd, id, 0, |data|));
    var c := Checksum(cmd, id, data);
    SumAppend(Header(cmd, id, 0, |data|), data);
    HeaderSum(cmd, id, c, |data|);
    SumAppend(Header(cmd, id, c, |data|), data');
    ZeroLines(h, Sum(data), Sum(data'));
  }

  lemma ZeroLines(h: byte, x: byte, y: byte)
    ensures Add8(Add8(h, Negated(Add8(h, x))), y) == 0 <==> y == x
  {}

  /** A header followed by any payload of the announced length: the receiver
      takes it if and only if the byte sums agree. */
  lemma AcceptedIff(cmd: byte, id: byte, data: Block, data': Block, rest: Block, max: nat)
    requires |data'| == |data| <= max && |data| < WORD
    ensures Receive(Header(cmd, id, Checksum(cmd, id, data), |data|) + Encode(data') + rest, max) ==
            Some(Reply(if Sum(data') == Sum(data) then |data| else -2, cmd, id, data', rest))
  {
    hide Decode, Written, Encode, Sum, Checksum;
    var h := Header(cmd, id, Checksum(cmd, id, data), |data|);
    var s := h + Encode(data') + rest;
    assert s[8..] == Encode(data') + rest;
    assert s[..8] == h;
    assert s[4..8] == PtrBytes(|data|);
    PtrRoundTrip(|data|);
    RoundTrip(data', rest);
    WrittenExactly(s[8..], |data|);
    assert data'[..|data|] == data';
    SumZero(cmd, id, data, data');
  }

  /** A sent packet is received as sent, whatever noise precedes it. */
  lemma PacketReceived(cmd: byte, id: byte, data: Block, noise: Block, rest: Block, max: nat)
    requires |data| <= max && |data| < WORD && DBG_SIGNATURE !in noise
    ensures Receive(noise + (Packet(cmd, id, data) + rest), max) == Some(Reply(|data|, cmd, id, data, rest))
  {
    hide Receive, Encode, Checksum, Sum;
    Resync(noise, Packet(cmd, id, data) + rest, max);
    AcceptedIff(cmd, id, data, data, rest, max);
  }

  /** Changing one payload byte changes the sum. */
  lemma {:induction false} SumChanged(d: Block, i: nat, v: byte)
    requires i < |d| && v != d[i]
    ensures Sum(d[i := v]) != Sum(d)
    decreases |d|
  {
    var n := |d| - 1;
    if i < n {
      assert d[i := v][..n] == d[..n][i := v];
      SumChanged(d[..n], i, v);
      Add8Laws(d[n], Sum(d[..n]), Sum(d[..n][i := v]));
    } else {
      assert d[i := v][..n] == d[..n];
    }
  }

  lemma OneByteRefused(cmd: byte, id: byte, data: Block, i: nat, v: byte, rest: Block, max: nat)
    requires i < |data| <= max && |data| < WORD && v != data[i]
    ensures Receive(Header(cmd, id, Checksum(cmd, id, data), |data|) + Encode(data[i := v]) + rest, max) ==
            Some(Reply(-2, cmd, id, data[i := v], rest))
  {
    SumChanged(data, i, v);
    AcceptedIff(cmd, id, data, data[i := v], rest, max);
  }

  lemma TooLongRefused(cmd: byte, id: byte, data: Block, rest: Block, max: nat)
    requires max < |data| < WORD
    ensures Receive(Packet(cmd, id, data) + rest, max).Some?
    ensures Receive(Packet(cmd, id, data) + rest, max).value.status == -1
  {
    hide Encode, Sum, Checksum;
    var s := Packet(cmd, id, data) + rest;
    assert s[4..8] == PtrBytes(|data|);
    PtrRoundTrip(|data|);
  }

  /** The checksum loops: an unsigned char accumulates the bytes. */
  method AddBytes(start: byte, d: Block) returns (sum: byte)
    ensures sum == Add8(start, Sum(d))
  {
    hide Add8;
    sum := start;
    Add8Laws(start, 0, 0);
    for n := 0 to |d|
      invariant sum == Add8(start, Sum(d[..n]))
    {
      Add8Laws(start, Sum(d[..n]), d[n]);
      sum := Add8(sum, d[n]);
      assert d[..n + 1][..n] == d[..n];
    }
    assert d[..|d|] == d;
  }

  // ----- the session ----------------------------------------------------------------

  class Session {
    const max: nat
    var sent: Block
    var incoming: Block

    constructor (max: nat, incoming: Block)
      ensures this.max == max && sent == [] && this.incoming == incoming
    {
      this.max, sent, this.incoming := max, [], incoming;
    }

    method Send(b: Block)
      modifies this`sent
      ensures sent == old(sent) + b
    {
      sent := sent + b;
    }

    method Recv() returns (b: byte)
      requires |incoming| > 0
      modifies this`incoming
      ensures b == old(incoming)[0] && incoming == old(incoming)[1..]
    {
      b := incoming[0];
      incoming := incoming[1..];
    }

    method RecvWord() returns (word: Block)
      requires |incoming| >= 4
      modifies this`incoming
      ensures word == old(incoming)[..4] && incoming == old(incoming)[4..]
    {
      word := incoming[..4];
      incoming := incoming[4..];
    }

    /** dbg_send_rle: bytes between q and p are waiting to be sent as they are. */
    method SendRle(data: Block)
      modifies this`sent
      ensures sent == old(sent) + Encode(data)
    {
      hide Encode, Packed, RunCode;
      var p, q, left := 0, 0, |data|;
      ghost var done: Block := [];
      assert data[0..] == data && data[0..0] == [];
      while left > 0
        invariant 0 <= q <= p <= |data| && left == |data| - p
        invariant sent == old(sent) + done
        invariant done + (data[q..p] + Encode(data[p..])) == Encode(data)
        decreases left
      {
        IsPacked(data, p);
        Associate(done, data[q..p], Encode(data[p..]));
        if data[p] == DBG_RLE_ESCAPE || (left > 3 && data[p] == data[p + 1] && data[p] == data[p + 2]) {
          if p > q {
            Send(data[q..p]);
            done := done + data[q..p];
            q := p;
          }
          assert done + Encode(data[p..]) == Encode(data);
          q, left := SkipRun(data, p, left);
          EncodeRun(data, p, q);
          Associate(done, RunCode(data[p], q - p), Encode(data[q..]));
          Send(RunCode(data[p], q - p));
          done := done + RunCode(data[p], q - p);
          p := q;
        } else {
          EncodeLiteral(data, q, p);
          p := p + 1;
          left := left - 1;
        }
      }
      EncodeEnd(data, p);
      Associate(done, data[q..p], []);
      if p > q {
        Send(data[q..p]);
      }
    }

    /** The inner loop: q runs to the end of the run that starts at p. */
    method SkipRun(data: Block, p: nat, left0: nat) returns (q: nat, left: nat)
      requires p < |data| && left0 == |data| - p
      ensures p < q <= |data| && left == |data| - q && q - p == Run(data[p..], data[p], 1)
    {
      q, left := p, left0;
      ghost var tail := data[p..];
      while left > 0 && q - p < 256 && data[q] == data[p]
        invariant p <= q <= |data| && left == |data| - q && q - p <= 256
        invariant if q == p then true else Run(tail, tail[0], q - p) == Run(tail, tail[0], 1)
        decreases left
      {
        q := q + 1;
        left := left - 1;
      }
    }

    /** The inner loop: one run. */
    method WriteRun(before: Block, left0: nat, value: byte, count: byte) returns (data: Block, left: nat)
      requires left0 < WORD
      ensures data == before + Repeat(value, RunOf(count)) && left == Less(left0, RunOf(count))
    {
      data, left := before, left0;
      var n: nat := if count == 0 then 256 else count;
      while n > 0
        invariant n <= RunOf(count) && left == Less(left0, RunOf(count) - n)
        invariant data == before + Repeat(value, RunOf(count) - n)
      {
        data := data + [value];
        left := Less(left, 1);
        n := n - 1;
      }
    }

    /** dbg_recv_rle, on a stream that lasts: the bytes it writes, through a pointer
        that no test stops at the end of the buffer. */
    method RecvRle(len: nat) returns (data: Block)
      requires len < WORD && Written(incoming, len).Some?
      modifies this`incoming
      ensures Written(old(incoming), len) == Some((data, incoming))
      ensures |data| == len <==> Decode(old(incoming), len).Some?
      ensures |data| == len ==> Decode(old(incoming), len) == Some((data, incoming))
    {
      hide Decode, Less, RunOf;
      data := [];
      var left := len;
      PrependNothing(Written(incoming, len));
      WrittenExactly(incoming, len);
      while left > 0
        invariant 0 <= left < WORD && Written(incoming, left).Some?
        invariant Prepend(data, Written(incoming, left)) == Written(old(incoming), len)
        decreases |incoming|
      {
        ghost var s, d0 := incoming, data;
        var ch := Recv();
        if ch == DBG_RLE_ESCAPE {
          var value := Recv();
          var count := Recv();
          assert incoming == s[3..];
          data, left := WriteRun(data, left, value, count);
          Regroup(d0, Repeat(value, RunOf(s[2])), Written(incoming, left));
        } else {
          data := data + [ch];
          left := left - 1;
          Regroup(d0, [ch], Written(incoming, left));
        }
      }
      assert data + [] == data;
    }

    /** dbg_send_packet. */
    method SendPacket(cmd: byte, id: byte, data: Block)
      requires |data| < WORD
      modifies this`sent
      ensures sent == old(sent) + Packet(cmd, id, data)
    {
      hide Encode, Sum, Add8;
      var hdr := Header(cmd, id, 0, |data|);
      var checksum := AddBytes(0, hdr);
      Add8Laws(Sum(hdr), 0, 0);
      checksum := AddBytes(checksum, data);
      SumAppend(hdr, data);
      hdr := Header(cmd, id, Negated(checksum), |data|);
      Send(hdr);
      SendRle(data);
    }

    /** dbg_recv_packet. */
    method RecvPacket() returns (r: Reply)
      requires Receive(incoming, max).Some?
      modifies this`incoming
      ensures Receive(old(incoming), max) == Some(r.(rest := incoming))
    {
      hide Encode, Decode, Written, Sum, Add8;
      var sig := Recv();
      assert [sig] + incoming == old(incoming);
      while sig != DBG_SIGNATURE
        invariant Receive([sig] + incoming, max) == Receive(old(incoming), max)
        decreases |incoming|
      {
        assert ([sig] + incoming)[1..] == incoming;
        ghost var s := incoming;
        sig := Recv();
        assert [sig] + incoming == s;
      }
      ghost var s := [sig] + incoming;
      var cmd := Recv();
      var id := Recv();
      var checksum := Recv();
      var word := RecvWord();
      assert s[..8] == [sig, cmd, id, checksum] + word && s[4..8] == word && s[8..] == incoming;
      var len := Ptr(word, 0);
      if len > max {
        return Reply(-1, cmd, id, [], []);
      }
      var data := RecvRle(len);
      var hdr := [sig, cmd, id, checksum] + word;
      var sum := AddBytes(0, hdr);
      Add8Laws(Sum(hdr), 0, 0);
      sum := AddBytes(sum, data[..len]);
      SumAppend(hdr, data[..len]);
      return Reply(if sum != 0 then -2 else len, cmd, id, data, []);
    }
  }

  lemma IsPacked(data: Block, p: nat)
    requires p < |data|
    ensures Packed(data[p..]) <==>
      data[p] == DBG_RLE_ESCAPE || (|data| - p > 3 && data[p] == data[p + 1] && data[p] == data[p + 2])
  {}

  lemma EncodeRun(data: Block, p: nat, q: nat)
    requires p < q <= |data| && Packed(data[p..]) && q - p == Run(data[p..], data[p], 1)
    ensures Encode(data[p..]) == RunCode(data[p], q - p) + Encode(data[q..])
  {
    assert data[p..][q - p..] == data[q..];
  }

  lemma EncodeLiteral(data: Block, q: nat, p: nat)
    requires q <= p < |data| && !Packed(data[p..])
    ensures data[q..p] + Encode(data[p..]) == data[q..p + 1] + Encode(data[p + 1..])
  {
    assert data[p..][1..] == data[p + 1..];
    assert data[q..p + 1] == data[q..p] + [data[p]];
  }

  lemma EncodeEnd(data: Block, p: nat)
    requires p == |data|
    ensures Encode(data[p..]) == []
  {}

  lemma PrependNothing(r: Option<(Block, Block)>)
    ensures Prepend([], r) == r
  {
    if r.Some? { assert [] + r.value.0 == r.value.0; }
  }

  lemma Regroup(a: Block, b: Block, r: Option<(Block, Block)>)
    ensures Prepend(a, Prepend(b, r)) == Prepend(a + b, r)
  {
    if r.Some? { assert a + (b + r.value.0) == (a + b) + r.value.0; }
  }
}
