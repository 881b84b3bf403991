// The W6100 receive path: a 16 KiB ring on the chip, 16-bit free-running
// pointers, length-prefixed frames, and the driver that hands them up.
module RxRing {
  import opened Options

  const RX_MEM_START := 0x30000
  const RX_MEM_SIZE := 0x4000
  const S0_CR := 0x10010
  const S0_RX_RSR := 0x10224
  const S0_RX_RD := 0x10228
  const CR_RECV: Byte := 0x40

  type Byte = b: int | 0 <= b < 0x100

  type Frame = seq<Byte>

  // ---------------------------------------------------------------- encodings

  function PutBe16(v: nat): (s: seq<Byte>)
    requires v < 0x1_0000
    ensures |s| == 2 && GetBe16(s) == v
  { [v / 0x100, v % 0x100] }

  function GetBe16(s: seq<Byte>): (v: nat)
    requires |s| == 2
    ensures v < 0x1_0000
  { (s[0] as int) * 0x100 + s[1] as int }

  /** The first byte is the more significant one: the encodings are ordered as the numbers are. */
  lemma FirstByteLeads(a: nat, b: nat)
    requires a < 0x1_0000 && b < 0x1_0000
    ensures var s, t := PutBe16(a), PutBe16(b); a < b <==> s[0] < t[0] || (s[0] == t[0] && s[1] < t[1])
    ensures GetBe16([0, 1]) == 1 && GetBe16([1, 0]) == 0x100
  {
  }

  /** A frame in the ring: a length that counts itself, then the bytes. */
  function Encode(f: Frame): seq<Byte>
    requires |f| + 2 < 0x1_0000
  { PutBe16(|f| + 2) + f }

  predicate Encodable(q: seq<Frame>) { forall f :: f in q ==> |f| + 2 < 0x1_0000 }

  function Flat(q: seq<Frame>): seq<Byte>
    requires Encodable(q)
  { if q == [] then [] else Encode(q[0]) + Flat(q[1..]) }

  lemma {:induction false} FlatCat(a: seq<Frame>, b: seq<Frame>)
    requires Encodable(a) && Encodable(b)
    ensures Encodable(a + b) && Flat(a + b) == Flat(a) + Flat(b)
  {
    hide Encode;
    if a == [] {
      assert a + b == b;
    } else {
      assert (a + b)[0] == a[0] && (a + b)[1..] == a[1..] + b;
      FlatCat(a[1..], b);
    }
  }

  lemma AppendFlat(q: seq<Frame>, f: Frame)
    requires Encodable(q) && |f| + 2 < 0x1_0000
    ensures Encodable(q + [f]) && Flat(q + [f]) == Flat(q) + Encode(f)
  {
    FlatCat(q, [f]);
    assert Flat([f]) == Encode(f) + [];
  }

  // SPI addressing: a 16-bit offset and a control byte with block and direction.

  function Block(addr: nat): nat { addr / 0x1_0000 % 0x20 }

  function Command(addr: nat, write: bool): (Byte, Byte, Byte)
  { (addr / 0x100 % 0x100, addr % 0x100, Block(addr) * 8 + if write then 4 else 0) }

  /** What the chip makes of the three command bytes: block, offset, direction. */
  function Decode(c: (Byte, Byte, Byte)): (nat, nat, bool)
  { (c.2 / 8, c.0 * 0x100 + c.1, c.2 / 4 % 2 == 1) }

  /** The chip decodes exactly the address and direction the driver encoded: the offset goes first, its
      high byte in front, the block into the top five bits and the direction into bit 2. */
  lemma CommandRoundTrip(addr: nat, write: bool)
    requires addr < 0x20_0000
    ensures Decode(Command(addr, write)) == (addr / 0x1_0000, addr % 0x1_0000, write)
    ensures var (high, low, control) := Command(addr, write);
            && addr % 0x1_0000 == high * 0x100 + low && control / 8 == addr / 0x1_0000
            && control % 8 == if write then 4 else 0
  {
    OffsetBytes(addr);
    assert addr / 0x1_0000 < 0x20;
  }

  lemma OffsetBytes(addr: nat)
    ensures addr / 0x100 % 0x100 * 0x100 + addr % 0x100 == addr % 0x1_0000
  {
  }

  // ---------------------------------------------------------------- the chip

  /** Free-running 16-bit pointers agree with ring offsets across both wraps. */
  lemma WrapsAgree(p: nat, k: nat)
    ensures (p + k) % 0x1_0000 % RX_MEM_SIZE == (p % RX_MEM_SIZE + k) % RX_MEM_SIZE == (p + k) % RX_MEM_SIZE
  {
    var x := p + k;
    assert x == x / 0x1_0000 * 4 * RX_MEM_SIZE + x % 0x1_0000;
    ModAdd(x % 0x1_0000, x / 0x1_0000 * 4);
    assert p + k == p / RX_MEM_SIZE * RX_MEM_SIZE + (p % RX_MEM_SIZE + k);
    ModAdd(p % RX_MEM_SIZE + k, p / RX_MEM_SIZE);
  }

  lemma {:induction false} ModAdd(x: nat, m: nat)
    ensures (m * RX_MEM_SIZE + x) % RX_MEM_SIZE == x % RX_MEM_SIZE
  {
    if m > 0 {
      ModAdd(x, m - 1);
      assert m * RX_MEM_SIZE + x == (m - 1) * RX_MEM_SIZE + x + RX_MEM_SIZE;
    }
  }

  /** The cell k behind a pointer. */
  function Slot(p: nat, k: nat): (i: nat)
    ensures i < RX_MEM_SIZE
  { (p + k) % RX_MEM_SIZE }

  /** The ring from pointer p holds the bytes d. */
  predicate Holds(ring: seq<Byte>, p: nat, d: seq<Byte>)
    requires |ring| == RX_MEM_SIZE
  { |d| <= RX_MEM_SIZE && forall k :: 0 <= k < |d| ==> ring[Slot(p, k)] == d[k] }

  lemma HoldsSize(ring: seq<Byte>, p: nat, d: seq<Byte>)
    requires |ring| == RX_MEM_SIZE && Holds(ring, p, d)
    ensures |d| <= RX_MEM_SIZE
  {
  }

  class Chip {
    const mem: array<Byte>                    // socket 0 receive memory
    var rxRd: nat                             // RX_RD as last written
    var base: nat                             // read pointer the chip acts on, set by RECV
    var wr: nat                               // write pointer
    var tick: nat                             // bus transactions so far
    const traffic: nat -> seq<Frame>          // frames the network delivers before each transaction
    ghost var queue: seq<Frame>               // frames held
    ghost var accepted: seq<Frame>            // every frame ever accepted
    ghost var consumed: seq<Frame>            // every frame released by RECV

    ghost predicate Valid()
      reads this, mem
    {
      && mem.Length == RX_MEM_SIZE && rxRd < 0x1_0000 && base < 0x1_0000 && wr < 0x1_0000
      && Encodable(queue) && accepted == consumed + queue
      && Holds(mem[..], base, Flat(queue)) && wr == (base + |Flat(queue)|) % 0x1_0000
    }

    constructor (traffic: nat -> seq<Frame>, start: nat)
      requires start < 0x1_0000
      ensures Valid() && queue == [] && base == rxRd == start && fresh(mem)
    {
      this.traffic := traffic;
      mem := new Byte[RX_MEM_SIZE](_ => 0);
      rxRd, base, wr, tick := start, start, start, 0;
      queue, accepted, consumed := [], [], [];
    }

    /** Frames only join at the end; the driver's side of the chip is untouched. */
    twostate predicate Grown()
      reads this
    {
      && old(queue) <= queue && old(accepted) <= accepted && consumed == old(consumed)
      && base == old(base) && rxRd == old(rxRd)
    }

    /** The received size register: what lies between the pointers. */
    function Rsr(): nat
      reads this
      requires base < 0x1_0000 && wr < 0x1_0000
    { (wr + 0x1_0000 - base) % 0x1_0000 }

    lemma QueueEncodable()
      requires Valid()
      ensures Encodable(queue)
    {
    }

    /** One frame from the network; a frame that does not fit is dropped. */
    method Arrive(f: Frame)
      requires Valid()
      modifies this`wr, this`queue, this`accepted, mem
      ensures Valid() && Grown()
      ensures queue == if |f| + 2 <= RX_MEM_SIZE - |old(Flat(queue))| then old(queue) + [f] else old(queue)
    {
      hide Flat, Encode, Slot;
      RsrIsSize(base, wr, |Flat(queue)|);
      assert Rsr() == |Flat(queue)|;
      if |f| + 2 > RX_MEM_SIZE - Rsr() { return; }
      var bytes := PutBe16(|f| + 2) + f;
      assert bytes == Encode(f) by { EncodeIs(f); }
      ghost var d := Flat(queue);
      var i := 0;
      while i < |bytes|
        invariant i <= |bytes| && unchanged(this)
        invariant Holds(mem[..], base, d + bytes[..i])
      {
        SlotOf(base, |d|, wr, i);
        ghost var before := mem[..];
        mem[Slot(wr, i)] := bytes[i];
        StoreNext(before, mem[..], base, d + bytes[..i], bytes[i]);
        assert d + bytes[..i] + [bytes[i]] == d + bytes[..i + 1];
        i := i + 1;
      }
      assert bytes[..|bytes|] == bytes;
      AppendFlat(queue, f);
      WrapAdd(base, |d|, |bytes|);
      wr := (wr + |bytes|) % 0x1_0000;
      queue := queue + [f];
      accepted := accepted + [f];
    }

    /** What the network does before a bus transaction. */
    method Traffic()
      requires Valid()
      modifies this`wr, this`queue, this`accepted, this`tick, mem
      ensures Valid() && Grown()
    {
      var fs := traffic(tick);
      tick := tick + 1;
      for i := 0 to |fs|
        invariant Valid() && Grown()
      {
        Arrive(fs[i]);
      }
    }

    /** A read transaction on the receive memory. */
    method ReadMem(cmd: (Byte, Byte, Byte), len: nat) returns (data: seq<Byte>)
      requires Valid()
      requires Decode(cmd).0 == 3 && !Decode(cmd).2 && Decode(cmd).1 + len <= RX_MEM_SIZE
      modifies this`wr, this`queue, this`accepted, this`tick, mem
      ensures Valid() && Grown()
      ensures data == mem[Decode(cmd).1..Decode(cmd).1 + len]
    {
      Traffic();
      data := mem[Decode(cmd).1..Decode(cmd).1 + len];
    }

    /** A read transaction on one of the two 16-bit receive registers of socket 0. */
    method ReadReg(cmd: (Byte, Byte, Byte)) returns (data: seq<Byte>)
      requires Valid()
      requires Decode(cmd) == (1, 0x224, false) || Decode(cmd) == (1, 0x228, false)
      modifies this`wr, this`queue, this`accepted, this`tick, mem
      ensures Valid() && Grown() && |data| == 2
      ensures Decode(cmd).1 == 0x224 ==> GetBe16(data) == |Flat(queue)|
      ensures Decode(cmd).1 == 0x228 ==> GetBe16(data) == rxRd
    {
      Traffic();
      RsrIsSize(base, wr, |Flat(queue)|);
      data := PutBe16(if Decode(cmd).1 == 0x224 then Rsr() else rxRd);
    }

    method WriteRd(cmd: (Byte, Byte, Byte), data: seq<Byte>)
      requires Valid() && Decode(cmd) == (1, 0x228, true) && |data| == 2
      modifies this`rxRd, this`wr, this`queue, this`accepted, this`tick, mem
      ensures Valid() && rxRd == GetBe16(data)
      ensures old(queue) <= queue && old(accepted) <= accepted && consumed == old(consumed) && base == old(base)
    {
      Traffic();
      rxRd := GetBe16(data);
    }

    /** The RECV command releases everything up to RX_RD, which must be a frame boundary. */
    method Recv(cmd: (Byte, Byte, Byte), op: Byte)
      requires Valid() && Decode(cmd) == (1, 0x10, true) && op == CR_RECV
      requires queue != [] && rxRd == (base + |queue[0]| + 2) % 0x1_0000
      modifies this`base, this`wr, this`queue, this`accepted, this`consumed, this`tick, mem
      ensures Valid() && base == rxRd == old(rxRd)
      ensures old(queue)[1..] <= queue && old(accepted) <= accepted
      ensures consumed == old(consumed) + [old(queue)[0]]
    {
      Traffic();
      Release(mem[..], base, queue);
      base := rxRd;
      consumed := consumed + [queue[0]];
      queue := queue[1..];
    }
  }

  lemma EncodeIs(f: Frame)
    requires |f| + 2 < 0x1_0000
    ensures Encode(f) == PutBe16(|f| + 2) + f
  {
  }

  lemma RsrIsSize(base: nat, wr: nat, n: nat)
    requires base < 0x1_0000 && n <= RX_MEM_SIZE && wr == (base + n) % 0x1_0000
    ensures (wr + 0x1_0000 - base) % 0x1_0000 == n
  {
  }

  lemma WrapAdd(p: nat, a: nat, b: nat)
    ensures ((p + a) % 0x1_0000 + b) % 0x1_0000 == (p + (a + b)) % 0x1_0000
  {
  }

  lemma SlotOf(base: nat, n: nat, wr: nat, i: nat)
    requires wr == (base + n) % 0x1_0000
    ensures Slot(wr, i) == Slot(base, n + i)
  {
    WrapsAgree(base, n);
    WrapsAgree(wr, i);
    WrapsAgree(base + n, i);
  }

  /** Writing the slot behind the data extends the data. */
  lemma StoreNext(before: seq<Byte>, after: seq<Byte>, p: nat, d: seq<Byte>, b: Byte)
    requires |before| == RX_MEM_SIZE && Holds(before, p, d) && |d| < RX_MEM_SIZE
    requires after == before[Slot(p, |d|) := b]
    ensures Holds(after, p, d + [b])
  {
    forall k: nat | k < |d| ensures Slot(p, k) != Slot(p, |d|) {
      SlotsDiffer(p, k, |d|);
    }
  }

  lemma SlotsDiffer(p: nat, j: nat, k: nat)
    requires j < k < j + RX_MEM_SIZE
    ensures Slot(p, j) != Slot(p, k)
  {
  }

  /** Moving the pointer on drops the bytes it passed. */
  lemma HoldsDrop(ring: seq<Byte>, p: nat, d: seq<Byte>, n: nat)
    requires |ring| == RX_MEM_SIZE && Holds(ring, p, d) && n <= |d|
    ensures Holds(ring, (p + n) % 0x1_0000, d[n..])
  {
    forall k: nat | k < |d| - n ensures ring[Slot((p + n) % 0x1_0000, k)] == d[n..][k] {
      SlotOf(p, n, (p + n) % 0x1_0000, k);
    }
  }

  lemma Release(ring: seq<Byte>, p: nat, q: seq<Frame>)
    requires |ring| == RX_MEM_SIZE && Encodable(q) && q != [] && Holds(ring, p, Flat(q))
    ensures var n := |q[0]| + 2;
            Encodable(q[1..]) && |Flat(q)| == n + |Flat(q[1..])|
            && Holds(ring, (p + n) % 0x1_0000, Flat(q[1..]))
    ensures (p + |Flat(q)|) % 0x1_0000 == ((p + |q[0]| + 2) % 0x1_0000 + |Flat(q[1..])|) % 0x1_0000
  {
    hide Flat, Holds;
    var n := |q[0]| + 2;
    FlatTail(q);
    HoldsDrop(ring, p, Flat(q), n);
    WrapAdd(p, n, |Flat(q[1..])|);
  }

  lemma FlatTail(q: seq<Frame>)
    requires Encodable(q) && q != []
    ensures Encodable(q[1..]) && |Flat(q)| == |q[0]| + 2 + |Flat(q[1..])| && Flat(q)[|q[0]| + 2..] == Flat(q[1..])
  {
  }

  // ---------------------------------------------------------------- the driver

  lemma {:induction false} FlatPrefix(q: seq<Frame>, r: seq<Frame>)
    requires Encodable(r) && q <= r
    ensures Encodable(q) && Flat(q) <= Flat(r)
  {
    if q != [] {
      assert r[0] == q[0] && q[1..] <= r[1..];
      FlatPrefix(q[1..], r[1..]);
    }
  }

  /** A stretch of ring memory that does not wrap is a stretch of the data. */
  lemma Stretch(ring: seq<Byte>, base: nat, d: seq<Byte>, start: nat, offset: nat, j: nat, m: nat)
    requires |ring| == RX_MEM_SIZE && Holds(ring, base, d)
    requires offset == (base + start) % 0x1_0000 && start + j + m <= |d| && Slot(offset, j) + m <= RX_MEM_SIZE
    ensures ring[Slot(offset, j)..Slot(offset, j) + m] == d[start + j..start + j + m]
  {
    var a, b := ring[Slot(offset, j)..Slot(offset, j) + m], d[start + j..start + j + m];
    forall k: nat | k < m ensures a[k] == b[k] {
      SlotOf(base, start, offset, j + k);
      SlotNext(offset, j, k);
    }
  }

  lemma SlotNext(p: nat, j: nat, k: nat)
    requires Slot(p, j) + k < RX_MEM_SIZE
    ensures Slot(p, j + k) == Slot(p, j) + k
  {
  }

  /** One read that does not wrap; its bytes lie j behind `start` in the data. */
  method ReadStretch(chip: Chip, at: nat, n: nat, ghost offset: nat, ghost start: nat, ghost j: nat)
    returns (data: seq<Byte>)
    requires chip.Valid() && offset == (chip.base + start) % 0x1_0000 && start + j + n <= |Flat(chip.queue)|
    requires at == Slot(offset, j) && at + n <= RX_MEM_SIZE
    modifies chip`wr, chip`queue, chip`accepted, chip`tick, chip.mem
    ensures chip.Valid() && chip.Grown()
    ensures data == old(Flat(chip.queue))[start + j..start + j + n]
  {
    hide Flat, Holds;
    CommandRoundTrip(RX_MEM_START + at, false);
    assert (RX_MEM_START + at) / 0x1_0000 == 3 && (RX_MEM_START + at) % 0x1_0000 == at;
    hide Command, Decode;
    data := chip.ReadMem(Command(RX_MEM_START + at, false), n);
    FlatPrefix(old(chip.queue), chip.queue);
    Stretch(chip.mem[..], chip.base, Flat(chip.queue), start, offset, j, n);
    assert data == Flat(chip.queue)[start + j..start + j + n];
  }

  /** w6100_readbuf: len bytes from a free-running offset, in two reads across the wrap.
      The bytes lie at `start` in the data the chip holds. */
  method ReadBuf(chip: Chip, offset: nat, len: nat, ghost start: nat) returns (data: seq<Byte>)
    requires chip.Valid() && offset == (chip.base + start) % 0x1_0000 && start + len <= |Flat(chip.queue)|
    modifies chip`wr, chip`queue, chip`accepted, chip`tick, chip.mem
    ensures chip.Valid() && chip.Grown()
    ensures data == old(Flat(chip.queue))[start..start + len]
  {
    hide Flat, Slot, Encode, Encodable;
    SlotZero(offset);
    var at, n, remain := offset % RX_MEM_SIZE, len, 0;
    if at + len > RX_MEM_SIZE {
      remain := (at + len) % RX_MEM_SIZE;
      n := RX_MEM_SIZE - at;
      HoldsSize(chip.mem[..], chip.base, Flat(chip.queue));
    }
    ghost var d := Flat(chip.queue);
    data := ReadStretch(chip, at, n, offset, start, 0);
    if remain == 0 { return; }
    FlatPrefix(old(chip.queue), chip.queue);
    SlotWraps(offset, n);
    var rest := ReadStretch(chip, 0, remain, offset, start, n);
    assert d[start..start + len] == d[start..start + n] + d[start + n..start + len];
    data := data + rest;
  }

  lemma SlotZero(p: nat)
    ensures Slot(p, 0) == p % RX_MEM_SIZE
  {
  }

  lemma SlotWraps(p: nat, n: nat)
    requires n == RX_MEM_SIZE - p % RX_MEM_SIZE
    ensures Slot(p, n) == 0
  {
  }

  /** One buffer of a packet's chain. */
  class NetBuf {
    const room: nat
    var data: seq<Byte>

    constructor (room: nat)
      ensures this.room == room && data == []
    {
      this.room, data := room, [];
    }
  }

  function Sum(rooms: seq<nat>): nat
  { if rooms == [] then 0 else rooms[0] + Sum(rooms[1..]) }

  /** The bytes of a packet: its fragments in chain order. */
  function Payload(pkt: seq<NetBuf>): seq<Byte>
    reads pkt
  { if pkt == [] then [] else Payload(pkt[..|pkt| - 1]) + pkt[|pkt| - 1].data }

  /** net_pkt_rx_alloc_with_buffer: empty fragments with the rooms the allocator chose. */
  method NewPacket(rooms: seq<nat>) returns (pkt: seq<NetBuf>)
    ensures |pkt| == |rooms| && fresh(set b | b in pkt)
    ensures forall i :: 0 <= i < |pkt| ==> pkt[i].room == rooms[i] && pkt[i].data == []
    ensures forall i, j :: 0 <= i < j < |pkt| ==> pkt[i] != pkt[j]
  {
    pkt := [];
    while |pkt| < |rooms|
      invariant |pkt| <= |rooms| && forall b :: b in pkt ==> fresh(b)
      invariant forall i :: 0 <= i < |pkt| ==> pkt[i].room == rooms[i] && pkt[i].data == []
      invariant forall i, j :: 0 <= i < j < |pkt| ==> pkt[i] != pkt[j]
      decreases |rooms| - |pkt|
    {
      var b := new NetBuf(rooms[|pkt|]);
      pkt := pkt + [b];
    }
  }

  predicate Empty(pkt: seq<NetBuf>)
    reads pkt
  { forall b :: b in pkt ==> b.data == [] }

  predicate Distinct(pkt: seq<NetBuf>) { forall i, j :: 0 <= i < j < |pkt| ==> pkt[i] != pkt[j] }

  function Rooms(pkt: seq<NetBuf>): (r: seq<nat>)
    ensures |r| == |pkt|
  { seq(|pkt|, i requires 0 <= i < |pkt| => pkt[i].room) }

  lemma RoomsStep(pkt: seq<NetBuf>, i: nat)
    requires i < |pkt|
    ensures Sum(Rooms(pkt)[i..]) == pkt[i].room + Sum(Rooms(pkt)[i + 1..])
  {
    assert Rooms(pkt)[i..][1..] == Rooms(pkt)[i + 1..];
  }

  /** One fragment: reads what it has room for and appends it (net_buf_add). */
  method FillOne(chip: Chip, buf: NetBuf, reader: nat, readLen: nat, ghost start: nat) returns (n: nat)
    requires chip.Valid() && buf.data == []
    requires reader == (chip.base + start) % 0x1_0000 && start + readLen <= |Flat(chip.queue)|
    modifies chip`wr, chip`queue, chip`accepted, chip`tick, chip.mem, buf
    ensures chip.Valid() && chip.Grown()
    ensures n == (if readLen > buf.room then buf.room else readLen)
    ensures buf.data == old(Flat(chip.queue))[start..start + n]
  {
    var fragLen := buf.room - |buf.data|;
    n := if readLen > fragLen then fragLen else readLen;
    var bytes := ReadBuf(chip, reader, n, start);
    buf.data := buf.data + bytes;
  }

  /** The first i fragments hold the first n bytes of f, none beyond its room; the others are empty. */
  predicate Filled(pkt: seq<NetBuf>, i: nat, f: Frame, n: nat)
    requires i <= |pkt| && n <= |f|
    reads pkt
  {
    && Payload(pkt[..i]) == f[..n]
    && (forall k :: i <= k < |pkt| ==> pkt[k].data == [])
    && (forall k :: 0 <= k < i ==> |pkt[k].data| <= pkt[k].room)
  }

  /** One turn of the loop: fragment i takes the next bytes of the oldest frame. */
  method FillNext(chip: Chip, pkt: seq<NetBuf>, i: nat, reader: nat, readLen: nat, ghost f: Frame) returns (n: nat)
    requires chip.Valid() && chip.queue != [] && chip.queue[0] == f && readLen <= |f|
    requires reader == (chip.base + (2 + (|f| - readLen))) % 0x1_0000
    requires i < |pkt| && Distinct(pkt) && Filled(pkt, i, f, |f| - readLen)
    modifies chip`wr, chip`queue, chip`accepted, chip`tick, chip.mem, pkt[i]
    ensures chip.Valid() && chip.Grown()
    ensures n == (if readLen > pkt[i].room then pkt[i].room else readLen)
    ensures Filled(pkt, i + 1, f, |f| - (readLen - n))
  {
    hide Flat, Sum, Rooms, Holds, Encode, Slot, Encodable, Chip.Valid;
    ghost var done := |f| - readLen;
    chip.QueueEncodable();
    FirstFrame(chip.queue, done, readLen);
    label before:
    n := FillOne(chip, pkt[i], reader, readLen, 2 + done);
    assert pkt[i].data == f[done..done + n] by { FirstFrameBytes(old@before(chip.queue), done, n); }
    PayloadKept@before(pkt[..i]);
    PayloadNext(pkt, i);
    Prefixes(f, done, n);
  }

  lemma Prefixes(f: Frame, done: nat, n: nat)
    requires done + n <= |f|
    ensures f[..done] + f[done..done + n] == f[..done + n]
  {
  }

  /** A packet's bytes depend on its fragments only. */
  twostate lemma {:induction false} PayloadKept(pkt: seq<NetBuf>)
    requires forall k :: 0 <= k < |pkt| ==> allocated(pkt[k]) && pkt[k].data == old(pkt[k].data)
    ensures Payload(pkt) == old(Payload(pkt))
  {
    if pkt != [] { PayloadKept(pkt[..|pkt| - 1]); }
  }

  /** The do-while loop of w6100_rx over the fragment chain. */
  method Fill(chip: Chip, pkt: seq<NetBuf>, off: nat, rxLen: nat)
    requires chip.Valid() && chip.queue != [] && rxLen == |chip.queue[0]| && off == chip.base
    requires pkt != [] && Empty(pkt) && Distinct(pkt) && Sum(Rooms(pkt)) >= rxLen
    modifies chip`wr, chip`queue, chip`accepted, chip`tick, chip.mem, pkt
    ensures chip.Valid() && chip.Grown()
    ensures Payload(pkt) == old(chip.queue)[0]
    ensures forall b :: b in pkt ==> |b.data| <= b.room
  {
    hide Flat, Sum, Rooms, Holds, Payload, Encode, Encodable, Chip.Valid;
    ghost var f := chip.queue[0];
    var reader: nat, readLen: nat, i: nat := (off + 2) % 0x1_0000, rxLen, 0;
    assert Rooms(pkt)[0..] == Rooms(pkt);
    PayloadNone(pkt[..0]);
    while true
      invariant chip.Valid() && chip.Grown() && chip.queue != [] && chip.queue[0] == f
      invariant i < |pkt| && readLen <= rxLen
      invariant reader == (chip.base + (2 + (rxLen - readLen))) % 0x1_0000
      invariant Filled(pkt, i, f, rxLen - readLen) && Sum(Rooms(pkt)[i..]) >= readLen
      decreases |pkt| - i
    {
      RoomsStep(pkt, i);
      var n := FillNext(chip, pkt, i, reader, readLen, f);
      WrapAdd(chip.base, 2 + (rxLen - readLen), n);
      reader := (reader + n) % 0x1_0000;
      readLen := readLen - n;
      i := i + 1;
      if readLen == 0 { break; }
      assert i < |pkt| by { SumOfNone(Rooms(pkt)[i..]); }
    }
    PayloadRest(pkt, i);
    assert f[..rxLen] == f;
  }

  lemma SumOfNone(rooms: seq<nat>)
    ensures rooms == [] ==> Sum(rooms) == 0
  {
  }

  lemma FirstFrame(q: seq<Frame>, done: nat, rest: nat)
    requires Encodable(q) && q != [] && done + rest == |q[0]|
    ensures 2 + done + rest <= |Flat(q)|
  {
  }

  lemma FirstFrameBytes(q: seq<Frame>, done: nat, n: nat)
    requires Encodable(q) && q != [] && done + n <= |q[0]|
    ensures 2 + done + n <= |Flat(q)| && Flat(q)[2 + done..2 + done + n] == q[0][done..done + n]
  {
  }

  lemma PayloadNone(pkt: seq<NetBuf>)
    requires pkt == []
    ensures Payload(pkt) == []
  {
  }

  lemma PayloadNext(pkt: seq<NetBuf>, i: nat)
    requires i < |pkt|
    ensures Payload(pkt[..i + 1]) == Payload(pkt[..i]) + pkt[i].data
  {
    assert pkt[..i + 1][..i] == pkt[..i];
  }

  /** Fragments the loop did not reach stay empty. */
  lemma {:induction false} PayloadRest(pkt: seq<NetBuf>, i: nat)
    requires i <= |pkt| && forall k :: i <= k < |pkt| ==> pkt[k].data == []
    ensures Payload(pkt) == Payload(pkt[..i])
    decreases |pkt|
  {
    if i == |pkt| {
      assert pkt[..i] == pkt;
    } else {
      var init := pkt[..|pkt| - 1];
      PayloadRest(init, i);
      assert init[..i] == pkt[..i];
    }
  }

  /** What the allocator may answer: nothing, or a chain with enough room. */
  ghost predicate Allocator(alloc: nat -> Option<seq<nat>>)
  { forall n {:trigger alloc(n)} :: alloc(n).Some? ==> alloc(n).value != [] && Sum(alloc(n).value) >= n }

  /** The registers and the length prefix of the oldest frame; None if nothing was received. */
  method Peek(chip: Chip) returns (head: Option<(nat, nat)>)
    requires chip.Valid() && chip.rxRd == chip.base
    modifies chip`wr, chip`queue, chip`accepted, chip`tick, chip.mem
    ensures chip.Valid() && chip.Grown()
    ensures head.None? ==> old(chip.queue) == []
    ensures head.Some? ==> chip.queue != [] && head.value == (chip.base, |chip.queue[0]|)
  {
    hide Flat, Holds, Decode, Command;
    Registers();
    var tmp := chip.ReadReg(Command(S0_RX_RSR, false));
    SizeOfHead(chip.queue);
    if GetBe16(tmp) == 0 { return None; }
    tmp := chip.ReadReg(Command(S0_RX_RD, false));
    var off := GetBe16(tmp);
    SizeOfHead(chip.queue);
    assert off == (chip.base + 0) % 0x1_0000;
    var header := ReadBuf(chip, off, 2, 0);
    head := Some((off, GetBe16(header) - 2));
  }

  lemma SizeOfHead(q: seq<Frame>)
    requires Encodable(q)
    ensures |Flat(q)| == 0 <==> q == []
    ensures q != [] ==> |Flat(q)| >= 2 && |Flat(q)[0..2]| == 2 && GetBe16(Flat(q)[0..2]) == |q[0]| + 2
  {
    if q != [] { assert Flat(q)[0..2] == PutBe16(|q[0]| + 2); }
  }

  /** w6100_rx: hands up exactly the oldest frame and releases exactly it, or changes nothing. */
  method Rx(chip: Chip, alloc: nat -> Option<seq<nat>>) returns (pkt: Option<seq<NetBuf>>)
    requires chip.Valid() && chip.rxRd == chip.base && Allocator(alloc)
    modifies chip`rxRd, chip`base, chip`wr, chip`queue, chip`accepted, chip`consumed, chip`tick, chip.mem
    ensures chip.Valid() && chip.rxRd == chip.base && old(chip.accepted) <= chip.accepted
    ensures pkt.Some? ==> chip.consumed == old(chip.consumed) + [Payload(pkt.value)]
    ensures pkt.Some? ==> forall b :: b in pkt.value ==> fresh(b) && |b.data| <= b.room
    ensures pkt.Some? && old(chip.queue) != [] ==> Payload(pkt.value) == old(chip.queue)[0]
    ensures pkt.None? ==> chip.consumed == old(chip.consumed) && old(chip.queue) <= chip.queue
    ensures pkt.None? && old(chip.queue) != [] ==> alloc(|old(chip.queue)[0]|) == None
  {
    hide Flat, Sum, Holds, Decode, Command, Payload;
    Registers();
    var head := Peek(chip);
    if head.None? { return None; }
    var (off, rxLen) := head.value;
    ghost var f := chip.queue[0];
    var rooms := alloc(rxLen);
    if rooms.None? { return None; }
    var bufs := NewPacket(rooms.value);
    assert Rooms(bufs) == rooms.value by { RoomsAre(bufs, rooms.value); }
    Fill(chip, bufs, off, rxLen);
    assert Payload(bufs) == f;
    chip.WriteRd(Command(S0_RX_RD, true), PutBe16((off + 2 + rxLen) % 0x1_0000));
    chip.Recv(Command(S0_CR, true), CR_RECV);
    assert Payload(bufs) == f;
    pkt := Some(bufs);
  }

  lemma Registers()
    ensures Decode(Command(S0_RX_RSR, false)) == (1, 0x224, false)
    ensures Decode(Command(S0_RX_RD, false)) == (1, 0x228, false)
    ensures Decode(Command(S0_RX_RD, true)) == (1, 0x228, true)
    ensures Decode(Command(S0_CR, true)) == (1, 0x10, true)
  {
  }

  lemma RoomsAre(pkt: seq<NetBuf>, rooms: seq<nat>)
    requires |pkt| == |rooms| && forall i :: 0 <= i < |pkt| ==> pkt[i].room == rooms[i]
    ensures Rooms(pkt) == rooms
  {
  }
}
