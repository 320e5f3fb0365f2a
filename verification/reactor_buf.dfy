/** The input and output buffers of a connection: byte queues over one pooled block that is swapped
    for a larger one when it is full and given back when it is empty. */
module ReactorBuffer {
  import opened BufferPool

  /** How a call ends: with a return value, in a failed assertion, in exit(1), or in a write past the end of
      a block, behind which nothing is defined. */
  datatype Outcome = Done(ret: int) | Aborted | Exited | Overrun

  /** What write() does, interruptions apart. */
  datatype Written = Wrote(n: nat) | WouldBlock | WriteError

  /** What FIONREAD announces and what read() then delivers, interruptions apart. */
  datatype Arrival = NoCount | Announced(need: nat, got: Received)
  datatype Received = Bytes(bytes: seq<Byte>) | EndOfStream | ReadError

  class ReactorBuf {
    const pool: BufPool<ReactorBuf>
    var buf: IoBuf?

    /** The pool knows this buffer as the holder of its block, and of no other block. */
    ghost predicate Valid()
      reads this, pool, pool.FreeBlocks(), buf
    {
      && pool.Valid()
      && (buf != null ==> buf in pool.blocks && buf in pool.owner && pool.owner[buf] == this && buf.Valid())
      && (forall b :: b in pool.owner && pool.owner[b] == this ==> b == buf)
    }

    /** The bytes queued in this buffer. */
    ghost function Contents(): seq<Byte>
      reads this, buf, if buf == null then {} else {buf.data}
    {
      if buf == null || !buf.Valid() then [] else buf.Contents()
    }

    /** At every call boundary of a buffer in use the window starts at the front. */
    predicate Usable()
      reads this, buf
    {
      buf == null || buf.head == 0
    }

    /** Everything but the blocks of other buffers. */
    ghost function Footprint(): set<object>
      reads this, pool
    {
      {this, pool} + Mine() + (set b | b in Mine() :: b.data)
    }

    ghost function Mine(): set<IoBuf>
      reads this, pool
    {
      pool.blocks - pool.Others(this).Keys
    }

    lemma OwnBlock()
      requires Valid()
      ensures buf != null ==> buf in Footprint() && buf.data in Footprint()
    {
      hide BufPool.Valid;
      if buf != null {
        assert buf in Mine();
      }
    }

    /** The memory of two buffers of one pool is disjoint. */
    lemma Apart(other: ReactorBuf)
      requires Valid() && other.Valid() && other != this && other.pool == pool
      ensures other !in Footprint()
      ensures other.buf != null ==> other.buf !in Footprint() && other.buf.data !in Footprint()
    {
      hide BufPool.Valid;
      pool.HeldBlocks();
      if other.buf != null {
        assert other.buf !in Mine();
        forall b | b in Mine()
          ensures b.data != other.buf.data
        {
          assert b in pool.blocks && other.buf in pool.blocks && b != other.buf;
        }
      }
    }

    lemma AmongOthers(other: ReactorBuf)
      requires Valid() && other != this && other.pool == pool
      ensures forall b :: b in pool.Others(other) && pool.Others(other)[b] == this ==> b == buf
      ensures buf != null ==> buf in pool.Others(other) && pool.Others(other)[buf] == this
    {
      hide BufPool.Valid;
    }

    /** What another buffer of the pool does to its own blocks leaves this one valid. */
    lemma StaysValid(other: ReactorBuf, others: map<IoBuf, ReactorBuf>)
      requires other != this && pool.Valid() && pool.Others(other) == others
      requires forall b :: b in others && others[b] == this ==> b == buf
      requires buf != null ==> buf in others && others[buf] == this && buf.Valid()
      ensures Valid()
    {
      hide BufPool.Valid;
      pool.HeldBlocks();
      forall b | b in pool.owner && pool.owner[b] == this
        ensures b == buf
      {
        assert b in pool.Others(other);
      }
    }

    /** data(): the first n bytes of the queue. */
    function Peek(n: nat): (bytes: seq<Byte>)
      requires (buf != null ==> buf.Valid()) && n <= Length()
      reads this, buf, if buf == null then {} else {buf.data}
      ensures n <= |Contents()| && bytes == Contents()[..n]
    {
      if buf == null then [] else buf.data[buf.head..buf.head + n]
    }

    constructor (pool: BufPool<ReactorBuf>)
      requires pool.Valid()
      ensures this.pool == pool && buf == null
      ensures Valid() && Contents() == []
    {
      hide BufPool.Valid;
      this.pool := pool;
      buf := null;
      new;
      assert pool.FreeBlocks() == old(pool.FreeBlocks());
    }

    function Length(): int
      reads this, buf
    {
      if buf == null then 0 else buf.length
    }

    /** pop(): the block goes back to the pool when its last byte is consumed. */
    method Pop(len: nat) returns (o: Outcome)
      requires Valid()
      modifies this, pool, buf
      ensures o == if old(buf) == null || old(Length()) < len then Aborted else Done(0)
      ensures o == Done(0) ==>
                && Valid() && pool.Others(this) == old(pool.Others(this)) && pool.blocks == old(pool.blocks)
                && len <= |old(Contents())| && Contents() == old(Contents())[len..]
                && (if len == old(Length()) then buf == null else buf == old(buf) && buf.head == old(buf.head) + len)
    {
      hide BufPool.Valid;
      if buf == null || buf.length < len {
        return Aborted;
      }
      pool.HeldBlocks();
      buf.Pop(len);
      assert buf !in old(pool.FreeBlocks());
      assert pool.FreeBlocks() == old(pool.FreeBlocks());
      assert pool.Valid();
      if buf.length == 0 {
        Release();
      }
      o := Done(0);
    }

    /** clear() */
    method Release()
      requires pool.Valid() && (buf != null ==> buf in pool.owner && pool.owner[buf] == this && buf.Valid())
      requires forall b :: b in pool.owner && pool.owner[b] == this ==> b == buf
      modifies this, pool, buf
      ensures Valid() && buf == null && Contents() == []
      ensures pool.Others(this) == old(pool.Others(this)) && pool.blocks == old(pool.blocks)
    {
      hide BufPool.Valid;
      if buf != null {
        pool.Revert(buf);
        label Back: buf := null;
        assert pool.FreeBlocks() == old@Back(pool.FreeBlocks());
      }
    }

    /** Carries the queue over from the block at hand, which goes back to the pool, to another one. */
    method MoveTo(b: IoBuf)
      requires pool.Valid() && buf != null && b != buf
      requires buf in pool.owner && pool.owner[buf] == this && b in pool.owner && pool.owner[b] == this
      requires forall c :: c in pool.owner && pool.owner[c] == this ==> c == buf || c == b
      requires buf.Valid() && b.Valid() && buf.length <= b.capacity && buf.data != b.data
      modifies this, pool, buf, b, b.data
      ensures Valid() && buf == b && buf.head == 0 && Contents() == old(Contents())
      ensures buf.length == old(buf.length)
      ensures pool.Others(this) == old(pool.Others(this)) && pool.blocks == old(pool.blocks)
      ensures forall k :: old(buf.capacity) < k <= M8M ==> (pool.Exhausted(k) <==> old(pool.Exhausted(k)))
      ensures Footprint() == old(Footprint())
    {
      hide BufPool.Valid, BufPool.Exhausted, IoBuf.Contents;
      pool.HeldBlocks();
      b.Copy(buf);
      assert pool.FreeBlocks() == old(pool.FreeBlocks());
      pool.Revert(buf);
      label Back: buf := b;
      assert pool.FreeBlocks() == old@Back(pool.FreeBlocks());
    }

    /** How a request for room for n more bytes ends: it aborts when the window does not start at the
        front, fails above 8 MB in all, and exits when the pool is exhausted. */
    ghost function Room(n: nat): Outcome
      reads this, pool, buf
    {
      if !Usable() then Aborted
      else if buf != null && n <= buf.capacity - buf.length then Done(0)
      else if M8M < n + Length() then Done(-1)
      else if pool.Exhausted(n + Length()) then Exited
      else Done(0)
    }

    /** The size of the block that holds the queue once it has room for n more bytes. */
    ghost function CapacityFor(n: nat): int
      reads this, buf
    {
      if buf != null && n <= buf.capacity - buf.length then buf.capacity
      else if n + Length() <= M8M then SizeClass(n + Length())
      else 0
    }

    /** How a request for k bytes in all ends that the block does not hold which has room for n more. */
    ghost predicate ExhaustedNext(n: nat, k: int)
      reads this, pool, buf
    {
      if buf != null && n <= buf.capacity - buf.length then pool.Exhausted(k)
      else pool.ExhaustedAfter(n + Length(), k)
    }

    /** How a request for room for m bytes ends that follows n bytes sent with success. */
    ghost function RoomNext(n: nat, m: nat): Outcome
      reads this, pool, buf
    {
      if m <= CapacityFor(n) - (Length() + n) then Done(0)
      else if M8M < m + (Length() + n) then Done(-1)
      else if ExhaustedNext(n, m + (Length() + n)) then Exited
      else Done(0)
    }

    /** No block is larger than 8 MB, so the sum decides; the program exits exactly if it takes another block,
        none of that size is free, and the pool has reached its limit of 5 GB. */
    lemma RoomMeans(n: nat)
      requires Valid()
      ensures !Usable() <==> Room(n).Aborted?
      ensures Usable() && !Room(n).Exited? ==> Room(n) == if 8388608 < n + Length() then Done(-1) else Done(0)
      ensures Room(n).Exited? <==>
                && (buf == null || (buf.head == 0 && buf.capacity < buf.length + n))
                && n + Length() <= 8388608 && SizeClass(n + Length()) in pool.pool
                && pool.pool[SizeClass(n + Length())] == null
                && 5242880 <= pool.totalMem + SizeClass(n + Length()) / 1024
    {
      hide BufPool.Valid, SizeClass;
      pool.HeldBlocks();
      if n + Length() <= M8M {
        pool.HasClass(n + Length());
        pool.ShortMeans(n + Length());
      }
    }

    lemma RoomIn(capacity: int, length: int)
      requires buf != null && buf.head == 0 && buf.capacity == capacity && buf.length == length
      ensures forall m: nat :: Room(m) == if m <= capacity - length then Done(0) else if M8M < m + length then Done(-1)
          else if pool.Exhausted(m + length) then Exited else Done(0)
    {
    }

    lemma LengthMeans()
      requires Valid()
      ensures 0 <= Length() == |Contents()| && (buf != null ==> buf.Valid())
    {
      hide BufPool.Valid;
    }

    lemma FreeIsMine()
      ensures pool.FreeBlocks() <= Footprint() && {this, pool} <= Footprint()
    {
    }

    /** alloc_buf, and what it means for the other buffers of the pool. */
    method Obtain(n: nat) returns (exited: bool, b: IoBuf?)
      requires Valid()
      modifies pool, pool.FreeBlocks()
      ensures exited <==> old(pool.Exhausted(n))
      ensures exited ==> n <= M8M
      ensures !exited ==>
                && pool.Valid() && (b == null <==> M8M < n)
                && pool.Others(this) == old(pool.Others(this))
                && fresh(Footprint() - old(Footprint()))
                && old(pool.blocks) <= pool.blocks && fresh(pool.blocks - old(pool.blocks))
                && forall c :: c in pool.blocks && c !in old(pool.blocks) ==> fresh(c.data)
      ensures !exited && b == null ==> Valid() && Contents() == old(Contents()) && Usable() == old(Usable())
      ensures !exited && b != null ==>
                && b in pool.owner && pool.owner[b] == this && b != buf && b in Footprint() && b.data in Footprint()
                && b.Valid() && b.length == 0 && b.head == 0 && n <= b.capacity == SizeClass(n)
                && (buf != null ==> b.data != buf.data && buf in pool.owner && buf.Valid())
                && (buf != null ==> pool.owner[buf] == this && Contents() == old(Contents()))
                && (forall c :: c in pool.owner && pool.owner[c] == this ==> c == buf || c == b)
                && forall k :: SizeClass(n) < k <= M8M ==> (pool.Exhausted(k) <==> old(pool.ExhaustedAfter(n, k)))
    {
      hide BufPool.Valid, SizeClass, IoBuf.Contents, BufPool.Exhausted, BufPool.ExhaustedAfter;
      pool.HeldBlocks();
      exited, b := pool.AllocBuf(n, this);
      if !exited {
        pool.HeldBlocks();
        if b != null {
          SizeClassIsSmallestFit(n);
        }
      }
    }

    /** The opening of read_data and of send_data. */
    method Reserve(n: nat) returns (o: Outcome)
      requires Valid()
      modifies Footprint()
      ensures o == old(Room(n)) && (o.Done? ==> -1 <= o.ret <= 0)
      ensures o.Done? ==>
                && Valid() && Usable() && Contents() == old(Contents())
                && pool.Others(this) == old(pool.Others(this))
                && fresh(Footprint() - old(Footprint()))
                && old(pool.blocks) <= pool.blocks && fresh(pool.blocks - old(pool.blocks))
                && forall b :: b in pool.blocks && b !in old(pool.blocks) ==> fresh(b.data)
      ensures o == Done(0) ==>
                && buf != null && n <= buf.capacity - buf.length && buf.capacity == old(CapacityFor(n))
                && forall k :: buf.capacity < k <= M8M ==> (pool.Exhausted(k) <==> old(ExhaustedNext(n, k)))
      ensures o == Done(-1) ==> buf == old(buf)
    {
      hide BufPool.Valid, BufPool.Exhausted, BufPool.ExhaustedAfter, SizeClass;
      hide IoBuf.Contents, Footprint, BufPool.Others;
      if buf == null {
        o := Take(n);
      } else if buf.head != 0 {
        o := Aborted;
      } else if buf.capacity - buf.length < n {
        o := Grow(n);
      } else {
        o := Done(0);
      }
    }

    /** The first block for an empty queue. */
    method Take(n: nat) returns (o: Outcome)
      requires Valid() && buf == null
      modifies Footprint()
      ensures o == if M8M < n then Done(-1) else if old(pool.Exhausted(n)) then Exited else Done(0)
      ensures o.Done? ==>
                && Valid() && Usable() && Contents() == []
                && pool.Others(this) == old(pool.Others(this))
                && fresh(Footprint() - old(Footprint()))
                && old(pool.blocks) <= pool.blocks && fresh(pool.blocks - old(pool.blocks))
                && forall b :: b in pool.blocks && b !in old(pool.blocks) ==> fresh(b.data)
      ensures o == Done(0) ==>
                && buf != null && n <= buf.capacity - buf.length && buf.capacity == old(CapacityFor(n))
                && forall k :: buf.capacity < k <= M8M ==> (pool.Exhausted(k) <==> old(ExhaustedNext(n, k)))
      ensures o == Done(-1) ==> buf == null
    {
      hide BufPool.Valid, IoBuf.Contents, BufPool.Exhausted, BufPool.ExhaustedAfter, SizeClass, BufPool.Others;
      FreeIsMine();
      var exited, b := Obtain(n);
      if exited {
        return Exited;
      }
      if b == null {
        return Done(-1);
      }
      label Got: buf := b;

      assert pool.FreeBlocks() == old@Got(pool.FreeBlocks());
      EmptyContents(b);
      o := Done(0);
    }

    /** A larger block for a queue that is about to outgrow its own. */
    method Grow(n: nat) returns (o: Outcome)
      requires Valid() && buf != null && buf.head == 0 && buf.capacity - buf.length < n
      modifies Footprint()
      ensures o == if M8M < n + old(Length()) then Done(-1)
          else if old(pool.Exhausted(n + Length())) then Exited else Done(0)
      ensures o.Done? ==>
                && Valid() && Usable() && Contents() == old(Contents())
                && pool.Others(this) == old(pool.Others(this))
                && fresh(Footprint() - old(Footprint()))
                && old(pool.blocks) <= pool.blocks && fresh(pool.blocks - old(pool.blocks))
                && forall b :: b in pool.blocks && b !in old(pool.blocks) ==> fresh(b.data)
      ensures o == Done(0) ==>
                && buf != null && n <= buf.capacity - buf.length && buf.capacity == old(CapacityFor(n))
                && forall k :: buf.capacity < k <= M8M ==> (pool.Exhausted(k) <==> old(ExhaustedNext(n, k)))
      ensures o == Done(-1) ==> buf == old(buf)
    {
      hide BufPool.Valid, SizeClass, IoBuf.Contents, ReactorBuf.Contents, BufPool.Exhausted, BufPool.ExhaustedAfter;
      hide BufPool.Others, Footprint;
      pool.HeldBlocks();
      OwnBlock();
      FreeIsMine();
      var need := buf.length + n;
      var exited, b := Obtain(need);
      if exited {
        return Exited;
      }
      if b == null {
        return Done(-1);
      }
      pool.HeldBlocks();
      assert b in old(Footprint()) || fresh(b);
      assert b.data in old(Footprint()) || fresh(b.data);
      MoveTo(b);
      o := Done(0);
    }

    /** send_data: appends all of data or nothing. */
    method SendData(data: seq<Byte>) returns (o: Outcome)
      requires Valid()
      modifies Footprint()
      ensures o == old(Room(|data|))
      ensures o.Done? ==>
                && Valid() && Usable() && Contents() == (if o.ret == 0 then old(Contents()) + data else old(Contents()))
                && pool.Others(this) == old(pool.Others(this))
                && fresh(Footprint() - old(Footprint()))
                && old(pool.blocks) <= pool.blocks && fresh(pool.blocks - old(pool.blocks))
                && forall b :: b in pool.blocks && b !in old(pool.blocks) ==> fresh(b.data)
      ensures o == Done(-1) ==> buf == old(buf)
      ensures o == Done(0) ==> forall m: nat :: Room(m) == old(RoomNext(|data|, m))
    {
      hide BufPool.Valid, BufPool.Exhausted, IoBuf.Contents, Room, CapacityFor, ExhaustedNext;
      hide Footprint, BufPool.Others, SizeClass;
      pool.HeldBlocks();
      LengthMeans();
      o := Reserve(|data|);
      if o == Done(0) {
        pool.HeldBlocks();
        OwnBlock();
        label Have: buf.Append(data);
        assert pool.FreeBlocks() == old@Have(pool.FreeBlocks());
        LengthMeans();
        RoomIn(buf.capacity, buf.length);
      }
    }

    /** After a count of zero the program reads up to 4096 bytes into the block it has, and has asked for no
        room. */
    ghost predicate Overruns(a: Arrival)
      reads this, pool, buf
    {
      a.Announced? && a.need == 0 && a.got.Bytes? && Room(0) == Done(0) && CapacityFor(0) - Length() < |a.got.bytes|
    }

    /** How read_data ends behind a count. */
    ghost function Received(a: Arrival): Outcome
      requires a.Announced?
      reads this, pool, buf
    {
      if Room(a.need) != Done(0) then Room(a.need)
      else if Overruns(a) then Overrun
      else Delivered(a.need, a.got)
    }

    /** read_data */
    method ReadData(a: Arrival) returns (o: Outcome)
      requires Valid() && Plausible(a)
      modifies Footprint()
      ensures o == if a.NoCount? then Done(-1) else old(Received(a))
      ensures a.Announced? && old(Room(a.need)) != Done(0) ==> o == old(Room(a.need))
      ensures a.Announced? && old(Room(a.need)) == Done(0) ==>
                match a.got
                case EndOfStream => o == Done(0)
                case ReadError => o == Done(-1)
                case Bytes(bytes) =>
                  if a.need != 0 then o == if |bytes| == a.need then Done(|bytes|) else Aborted
                  else if old(buf) != null && old(buf.capacity - buf.length) < |bytes| then o == Overrun
                  else o == Done(|bytes|)
      ensures o.Done? && 0 < o.ret ==> a.Announced? && a.got.Bytes? && Contents() == old(Contents()) + a.got.bytes
      ensures o.Done? && o.ret <= 0 ==> Contents() == old(Contents())
      ensures o.Done? ==>
                && Valid() && (a.Announced? ==> Usable())
                && Contents() == (if o.ret > 0 then old(Contents()) + Offered(a) else old(Contents()))
                && pool.Others(this) == old(pool.Others(this))
                && fresh(Footprint() - old(Footprint()))
                && old(pool.blocks) <= pool.blocks && fresh(pool.blocks - old(pool.blocks))
                && forall b :: b in pool.blocks && b !in old(pool.blocks) ==> fresh(b.data)
      ensures a.NoCount? ==> buf == old(buf)
    {
      hide BufPool.Valid, IoBuf.Contents, Room, ExhaustedNext, BufPool.Exhausted;
      pool.HeldBlocks();
      LengthMeans();
      if a.NoCount? {
        return Done(-1);
      }
      o := Reserve(a.need);
      if o != Done(0) {
        return;
      }
      if !a.got.Bytes? || Cut(a) {
        return Delivered(a.need, a.got);
      }
      pool.HeldBlocks();
      LengthMeans();
      if a.need == 0 && buf.capacity - buf.length < |a.got.bytes| {
        return Overrun;
      }
      label Have: buf.Append(a.got.bytes);
      assert pool.FreeBlocks() == old@Have(pool.FreeBlocks());
      o := Done(|a.got.bytes|);
    }

    /** write2fd: what the descriptor took leaves the queue, the rest moves to the front. The block stays,
        even with nothing left in it. */
    method Write2fd(w: Written) returns (o: Outcome)
      requires Valid() && (w.Wrote? ==> w.n <= Length())
      modifies buf, if buf == null then {} else {buf.data}
      ensures o == if old(buf) == null || old(buf.head) != 0 then Aborted
                   else match w case Wrote(n) => Done(n) case WouldBlock => Done(0) case WriteError => Done(-1)
      ensures o.Done? ==>
                && Valid() && Usable()
                && (if w.Wrote? then w.n <= |old(Contents())| && Contents() == old(Contents())[w.n..]
                    else Contents() == old(Contents()))
    {
      hide BufPool.Valid;
      if buf == null || buf.head != 0 {
        return Aborted;
      }
      pool.HeldBlocks();
      if w.Wrote? && 0 < w.n {
        buf.Pop(w.n);
        buf.Adjust();
      }
      assert pool.FreeBlocks() == old(pool.FreeBlocks());
      o := match w case Wrote(n) => Done(n) case WouldBlock => Done(0) case WriteError => Done(-1);
    }

    /** adjust() */
    method Adjust()
      requires Valid()
      modifies buf, if buf == null then {} else {buf.data}
      ensures Valid() && Usable() && Contents() == old(Contents())
    {
      hide BufPool.Valid, IoBuf.Contents;
      if buf != null {
        pool.HeldBlocks();
        buf.Adjust();
        assert pool.FreeBlocks() == old(pool.FreeBlocks());
      }
    }
  }

  /** read() delivers at least one byte and at most as many as it was asked for; after a count of zero
      that is 4096. */
  predicate Plausible(a: Arrival) {
    a.Announced? && a.got.Bytes? ==> 1 <= |a.got.bytes| <= if a.need == 0 then M4K else a.need
  }

  function Offered(a: Arrival): seq<Byte> {
    if a.Announced? && a.got.Bytes? then a.got.bytes else []
  }

  /** Fewer bytes came than were announced. */
  predicate Cut(a: Arrival) {
    a.Announced? && a.got.Bytes? && a.need != 0 && |a.got.bytes| != a.need
  }

  /** What read_data makes of an answer of read(): fewer bytes than announced fail its assertion. */
  function Delivered(need: nat, got: Received): Outcome {
    match got
    case EndOfStream => Done(0)
    case ReadError => Done(-1)
    case Bytes(bytes) => if need == 0 || |bytes| == need then Done(|bytes|) else Aborted
  }

  lemma EmptyContents(b: IoBuf)
    requires b.Valid() && b.length == 0
    ensures b.Contents() == []
  {
  }
}
