/** The pool of memory blocks: one free list of linked blocks for each of seven sizes. */
module BufferPool {

  type Byte = x: int | 0 <= x < 256

  const M4K := 4096
  const M16K := 16384
  const M64K := 65536
  const M256K := 262144
  const M1M := 1048576
  const M4M := 4194304
  const M8M := 8388608

  predicate IsCap(c: int) {
    c == M4K || c == M16K || c == M64K || c == M256K || c == M1M || c == M4M || c == M8M
  }

  /** In units of 1024 bytes, as the accounting is. */
  const EXTRA_MEM_LIMIT := 5 * 1024 * 1024

  /** A block: a window of length bytes from head on inside a fixed array. */
  class IoBuf {
    const data: array<Byte>
    const capacity: int
    var head: int
    var length: int
    var next: IoBuf?

    ghost predicate Valid()
      reads this
    {
      0 <= head && 0 <= length && head + length <= capacity == data.Length
    }

    ghost function Contents(): seq<Byte>
      requires Valid()
      reads this, data
    {
      data[head..head + length]
    }

    constructor (size: nat)
      ensures Valid() && fresh(data)
      ensures capacity == size && head == 0 && length == 0 && next == null
    {
      data := new Byte[size];
      capacity, head, length, next := size, 0, 0, null;
    }

    method Clear()
      modifies this`head, this`length
      ensures head == 0 && length == 0
    {
      length, head := 0, 0;
    }

    /** Moves the window to the front of the array. */
    method Adjust()
      requires Valid()
      modifies this`head, data
      ensures Valid() && head == 0 && Contents() == old(Contents())
    {
      if head != 0 {
        if length != 0 {
          forall i | 0 <= i < length {
            data[i] := data[head + i];
          }
        }
        head := 0;
      }
    }

    method Copy(other: IoBuf)
      requires Valid() && other.Valid() && other.length <= capacity && data != other.data
      modifies this`head, this`length, data
      ensures Valid() && head == 0 && length == old(other.length) && Contents() == old(other.Contents())
    {
      forall i | 0 <= i < other.length {
        data[i] := other.data[other.head + i];
      }
      head := 0;
      length := other.length;
    }

    method Pop(len: int)
      requires Valid() && 0 <= len <= length
      modifies this`head, this`length
      ensures Valid() && head == old(head) + len && length == old(length) - len
      ensures Contents() == old(Contents())[len..]
    {
      length := length - len;
      head := head + len;
    }

    /** memcpy behind the window. */
    method Append(bytes: seq<Byte>)
      requires Valid() && head == 0 && length + |bytes| <= capacity
      modifies this`length, data
      ensures Valid() && Contents() == old(Contents()) + bytes
    {
      forall i | 0 <= i < |bytes| {
        data[length + i] := bytes[i];
      }
      length := length + |bytes|;
    }
  }

  /** The size class that serves a request. */
  function SizeClass(n: int): int
    requires n <= M8M
  {
    if n <= M4K then M4K
    else if n <= M16K then M16K
    else if n <= M64K then M64K
    else if n <= M256K then M256K
    else if n <= M1M then M1M
    else if n <= M4M then M4M
    else M8M
  }

  lemma SizeClassIsSmallestFit(n: int)
    requires n <= M8M
    ensures IsCap(SizeClass(n)) && n <= SizeClass(n)
    ensures forall c :: IsCap(c) && n <= c ==> SizeClass(n) <= c
  {
  }

  function Share(created: map<int, int>, cap: int): int {
    if cap in created then cap / 1024 * (created[cap] - 1) else 0
  }

  /** What the pool believes it uses: every size is short of one block, the head of the first list. */
  function Accounted(created: map<int, int>): int {
    Share(created, M4K) + Share(created, M16K) + Share(created, M64K) + Share(created, M256K)
    + Share(created, M1M) + Share(created, M4M) + Share(created, M8M)
  }

  function Used(created: map<int, int>, cap: int): int {
    if cap in created then cap / 1024 * created[cap] else 0
  }

  function TrueUsage(created: map<int, int>): int {
    Used(created, M4K) + Used(created, M16K) + Used(created, M64K) + Used(created, M256K)
    + Used(created, M1M) + Used(created, M4M) + Used(created, M8M)
  }

  /** The blocks really allocated exceed the accounted ones by one block of each size. */
  lemma TrueUsageBound(created: map<int, int>)
    requires forall c :: IsCap(c) ==> c in created
    ensures TrueUsage(created) == Accounted(created) + 13652
    ensures Accounted(created) < EXTRA_MEM_LIMIT ==> TrueUsage(created) < EXTRA_MEM_LIMIT + 13652
  {
    assert IsCap(M4K) && IsCap(M16K) && IsCap(M64K) && IsCap(M256K) && IsCap(M1M) && IsCap(M4M) && IsCap(M8M);
  }

  lemma ShareGrows(created: map<int, int>, cap: int)
    requires IsCap(cap) && cap in created
    ensures Accounted(created[cap := created[cap] + 1]) == Accounted(created) + cap / 1024
  {
    var c' := created[cap := created[cap] + 1];
    assert forall c :: c != cap ==> Share(c', c) == Share(created, c);
    assert cap / 1024 * (created[cap] + 1 - 1) == cap / 1024 * (created[cap] - 1) + cap / 1024;
  }

  lemma ShareStarts(created: map<int, int>, cap: int, n: nat)
    requires IsCap(cap) && cap !in created
    ensures Accounted(created[cap := n + 1]) == Accounted(created) + cap / 1024 * n
  {
    var c' := created[cap := n + 1];
    assert forall c :: c != cap ==> Share(c', c) == Share(created, c);
  }

  /** No free block of the size n needs, and the limit does not allow for another one. */
  predicate Short(pool: map<int, IoBuf?>, total: int, n: int) {
    && n <= M8M && SizeClass(n) in pool && pool[SizeClass(n)] == null
    && total + SizeClass(n) / 1024 >= EXTRA_MEM_LIMIT
  }

  /** The list of one size says nothing about requests for more. */
  lemma ShortElsewhere(p: map<int, IoBuf?>, p': map<int, IoBuf?>, total: int, cap: int)
    requires p.Keys == p'.Keys && forall c :: c in p && c != cap ==> p[c] == p'[c]
    ensures forall n :: cap < n <= M8M ==> Short(p, total, n) == Short(p', total, n)
  {
    forall n | cap < n <= M8M
      ensures Short(p, total, n) == Short(p', total, n)
    {
      SizeClassIsSmallestFit(n);
    }
  }

  function First(list: seq<IoBuf>): IoBuf? {
    if list == [] then null else list[0]
  }

  /** The blocks of a size that are in use. */
  function InUse(held: set<IoBuf>, cap: int): set<IoBuf> {
    set b | b in held && b.capacity == cap
  }

  ghost predicate Distinct(list: seq<IoBuf>) {
    forall i, j :: 0 <= i < j < |list| ==> list[i] != list[j]
  }

  /** The list is linked as the sequence says, acyclic, of one size, and its blocks are empty. */
  ghost predicate FreeList(list: seq<IoBuf>, cap: int)
    reads list
  {
    && Distinct(list)
    && (forall i :: 0 <= i < |list| ==>
           list[i].capacity == cap && list[i].Valid() && list[i].head == 0 && list[i].length == 0)
    && (forall i, j :: 0 <= i < j < |list| && j == i + 1 ==> list[i].next == list[j])
    && (list != [] ==> list[|list| - 1].next == null)
  }

  lemma OneMoreInUse(held: set<IoBuf>, b: IoBuf)
    requires b !in held
    ensures forall c :: |InUse(held + {b}, c)| == |InUse(held, c)| + if c == b.capacity then 1 else 0
  {
    forall c
      ensures |InUse(held + {b}, c)| == |InUse(held, c)| + if c == b.capacity then 1 else 0
    {
      assert InUse(held + {b}, c) == InUse(held, c) + if c == b.capacity then {b} else {};
    }
  }

  lemma FirstIsReady(list: seq<IoBuf>, cap: int)
    requires FreeList(list, cap) && list != []
    ensures list[0].Valid() && list[0].capacity == cap && list[0].head == 0 && list[0].length == 0
    ensures list[0].next == First(list[1..])
    ensures forall x :: x in list[1..] ==> x in list && x != list[0]
  {
    assert forall i :: 0 <= i < |list| - 1 ==> list[1..][i] == list[i + 1];
  }

  lemma RestIsFree(list: seq<IoBuf>, cap: int)
    requires FreeList(list, cap) && list != []
    ensures FreeList(list[1..], cap)
  {
    assert forall i :: 0 <= i < |list| - 1 ==> list[1..][i] == list[i + 1];
  }

  /** Two blocks never share memory. */
  ghost predicate Separate(blocks: set<IoBuf>) {
    forall b, b' :: b in blocks && b' in blocks && b != b' ==> b.data != b'.data
  }

  /** Every block is held or in the list of its size. */
  ghost predicate Placed(blocks: set<IoBuf>, held: set<IoBuf>, free: map<int, seq<IoBuf>>) {
    held <= blocks && forall b :: b in blocks ==> b.capacity in free && (b in held || b in free[b.capacity])
  }

  lemma PlacedAfterTake(blocks: set<IoBuf>, held: set<IoBuf>, free: map<int, seq<IoBuf>>, c: int)
    requires Placed(blocks, held, free) && c in free && free[c] != [] && free[c][0] in blocks
    ensures Placed(blocks, held + {free[c][0]}, free[c := free[c][1..]])
  {
    assert free[c] == [free[c][0]] + free[c][1..];
  }

  lemma PlacedAfterRevert(blocks: set<IoBuf>, held: set<IoBuf>, free: map<int, seq<IoBuf>>, b: IoBuf)
    requires Placed(blocks, held, free) && b in held
    ensures b.capacity in free && Placed(blocks, held - {b}, free[b.capacity := [b] + free[b.capacity]])
  {
  }

  lemma PlacedAfterNew(blocks: set<IoBuf>, held: set<IoBuf>, free: map<int, seq<IoBuf>>, b: IoBuf)
    requires Placed(blocks, held, free) && b.capacity in free
    ensures Placed(blocks + {b}, held + {b}, free)
  {
  }

  lemma ConservedAfterTake(created: map<int, int>, held: set<IoBuf>, free: map<int, seq<IoBuf>>, c: int)
    requires Conserved(created, free, held) && c in free && free[c] != [] && free[c][0] !in held
        && free[c][0].capacity == c
    ensures Conserved(created, free[c := free[c][1..]], held + {free[c][0]})
  {
    OneMoreInUse(held, free[c][0]);
  }

  lemma ConservedAfterRevert(created: map<int, int>, held: set<IoBuf>, free: map<int, seq<IoBuf>>, b: IoBuf)
    requires Conserved(created, free, held) && b in held && b.capacity in free
    ensures Conserved(created, free[b.capacity := [b] + free[b.capacity]], held - {b})
  {
    OneMoreInUse(held - {b}, b);
    assert held - {b} + {b} == held;
  }

  lemma ConservedAfterNew(created: map<int, int>, held: set<IoBuf>, free: map<int, seq<IoBuf>>, b: IoBuf)
    requires Conserved(created, free, held) && b !in held && b.capacity in created
    ensures Conserved(created[b.capacity := created[b.capacity] + 1], free, held + {b})
  {
    OneMoreInUse(held, b);
  }

  ghost function Members(list: seq<IoBuf>): set<IoBuf> {
    set b | b in list
  }

  lemma AfterNewList(blocks: set<IoBuf>, free: map<int, seq<IoBuf>>, created: map<int, int>, list: seq<IoBuf>, c: int)
    requires Placed(blocks, {}, free) && Conserved(created, free, {}) && c !in free && c !in created
    requires forall b :: b in list ==> b.capacity == c
    ensures Placed(blocks + Members(list), {}, free[c := list])
    ensures Conserved(created[c := |list|], free[c := list], {})
  {
    assert InUse({}, c) == {};
  }

  lemma SeparateOne(b: IoBuf)
    ensures Separate({b})
  {
  }

  lemma SeparateUnion(blocks: set<IoBuf>, more: set<IoBuf>)
    requires Separate(blocks) && Separate(more)
    requires forall b, b' :: b in blocks && b' in more ==> b.data != b'.data
    ensures Separate(blocks + more)
  {
  }

  /** created(c) == |free(c)| + |held of size c|, for every size. */
  ghost predicate Conserved(created: map<int, int>, free: map<int, seq<IoBuf>>, held: set<IoBuf>) {
    forall c :: c in created ==> c in free && created[c] == |free[c]| + |InUse(held, c)|
  }

  class BufPool<Holder(==)> {
    var pool: map<int, IoBuf?>
    var totalMem: int
    /** The free blocks as sequences, who holds each of the others, all blocks, and how many were
        created for each size. */
    ghost var free: map<int, seq<IoBuf>>
    ghost var owner: map<IoBuf, Holder>
    ghost var blocks: set<IoBuf>
    ghost var created: map<int, int>

    ghost function FreeBlocks(): set<IoBuf>
      reads this
    {
      blocks - owner.Keys
    }

    ghost predicate Valid()
      reads this, FreeBlocks()
    {
      (forall c :: IsCap(c) <==> c in pool) && Consistent() && totalMem < EXTRA_MEM_LIMIT
    }

    ghost predicate Consistent()
      reads this, FreeBlocks()
    {
      && free.Keys == pool.Keys && created.Keys == pool.Keys
      && (forall c :: c in pool ==> ListOk(c))
      && Placed(blocks, owner.Keys, free)
      && Separate(blocks)
      && Conserved(created, free, owner.Keys)
      && totalMem == Accounted(created)
    }

    ghost predicate ListOk(c: int)
      requires c in pool && c in free
      reads this, FreeBlocks()
    {
      && pool[c] == First(free[c])
      && (forall b :: b in free[c] ==> b in blocks && b !in owner && b.capacity == c)
      && FreeList(free[c], c)
    }

    /** The blocks held by others than h. */
    ghost function Others(h: Holder): map<IoBuf, Holder>
      reads this
    {
      HeldByOthers(owner, h)
    }

    /** The blocks held by others than h and h'. */
    ghost function Besides(h: Holder, h': Holder): map<IoBuf, Holder>
      reads this
    {
      HeldBesides(owner, h, h')
    }

    lemma HeldBlocks()
      requires Valid()
      ensures owner.Keys <= blocks && Separate(blocks)
      ensures forall b :: b in blocks ==> 4096 <= b.capacity <= M8M
    {
    }

    /** The pool as the program starts it. */
    constructor ()
      ensures Valid() && owner == map[] && fresh(blocks)
      ensures created == map[4096 := 5001, 16384 := 1001, 65536 := 501, 262144 := 201, 1048576 := 51, 4194304 := 21,
                             8388608 := 11]
    {
      pool, totalMem := map[], 0;
      free, owner, created, blocks := map[], map[], map[], {};
      new;
      hide Consistent, IsCap;
      EmptyIsConsistent();
      FillSmall();
      FillLarge();
      CapsAre(pool.Keys);
    }

    lemma EmptyIsConsistent()
      requires pool == map[] && free == map[] && owner == map[] && blocks == {} && created == map[] && totalMem == 0
      ensures Consistent()
    {
      EmptyIsConserved();
      assert owner.Keys == {};
    }

    method FillSmall()
      requires Consistent() && pool == map[] && owner == map[] && blocks == {} && created == map[] && totalMem == 0
      modifies this
      ensures Consistent() && owner == map[] && fresh(blocks) && pool.Keys == {M4K, M16K, M64K, M256K}
      ensures created == map[M4K := 5001, M16K := 1001, M64K := 501, M256K := 201] && totalMem == 119200
    {
      hide Consistent;
      MakeIoBufList(M4K, 5000);
      MakeIoBufList(M16K, 1000);
      MakeIoBufList(M64K, 500);
      MakeIoBufList(M256K, 200);
    }

    method FillLarge()
      requires Consistent() && owner == map[] && pool.Keys == {M4K, M16K, M64K, M256K} && totalMem == 119200
      modifies this
      ensures Consistent() && owner == map[] && old(blocks) <= blocks && fresh(blocks - old(blocks))
      ensures pool.Keys == {M4K, M16K, M64K, M256K, M1M, M4M, M8M}
      ensures created == old(created)[M1M := 51][M4M := 21][M8M := 11] && totalMem == 334240
    {
      hide Consistent;
      MakeIoBufList(M1M, 50);
      MakeIoBufList(M4M, 20);
      MakeIoBufList(M8M, 10);
    }

    /** One head block and num more behind it; the head is not accounted for. */
    method MakeIoBufList(cap: int, num: nat)
      requires IsCap(cap) && cap !in pool && Consistent() && owner == map[]
      modifies this
      ensures Consistent() && owner == map[] && pool.Keys == old(pool.Keys) + {cap}
      ensures created == old(created)[cap := num + 1] && totalMem == old(totalMem) + cap / 1024 * num
      ensures old(blocks) <= blocks && fresh(blocks - old(blocks))
    {
      hide IsCap, Accounted, FreeList, Placed, Conserved, Separate, Consistent;
      var first, list := NewList(cap, num);
      assert FreeBlocks() == old(FreeBlocks());
      Adopt(cap, num, first, list);
    }

    /** Enters the blocks of a new list. */
    method Adopt(cap: int, num: nat, first: IoBuf, ghost list: seq<IoBuf>)
      requires IsCap(cap) && cap !in pool && Consistent() && owner == map[]
      requires |list| == num + 1 && first == list[0] && FreeList(list, cap) && Separate(Members(list))
      requires forall b :: b in list ==> b !in blocks && b.capacity == cap
      requires forall b, b' :: b in blocks && b' in list ==> b.data != b'.data
      modifies this
      ensures Consistent() && owner == map[] && pool.Keys == old(pool.Keys) + {cap}
      ensures created == old(created)[cap := num + 1] && totalMem == old(totalMem) + cap / 1024 * num
      ensures blocks == old(blocks) + Members(list)
    {
      hide IsCap, Accounted, FreeList, Placed, Conserved, Separate;
      ShareStarts(created, cap, num);
      assert owner.Keys == {};
      AfterNewList(blocks, free, created, list, cap);
      SeparateUnion(blocks, Members(list));
      pool := pool[cap := first];
      free := free[cap := list];
      created := created[cap := num + 1];
      totalMem := totalMem + cap / 1024 * num;
      blocks := blocks + Members(list);
      forall c | c in pool
        ensures ListOk(c)
      {
        if c != cap {
          assert old(ListOk(c));
        }
      }
    }

    static method NewList(cap: int, num: nat) returns (first: IoBuf, ghost list: seq<IoBuf>)
      requires IsCap(cap)
      ensures |list| == num + 1 && first == list[0] && FreeList(list, cap) && fresh(list)
      ensures Separate(Members(list))
      ensures forall b :: b in list ==> fresh(b.data) && b.capacity == cap
    {
      first := new IoBuf(cap);
      var prev := first;
      list := [first];
      for i := 0 to num
        invariant |list| == i + 1 && first == list[0] && prev == list[i]
        invariant FreeList(list, cap) && fresh(list)
        invariant forall b, b' :: b in list && b' in list && b != b' ==> b.data != b'.data
        invariant forall b :: b in list ==> fresh(b.data)
      {
        var block := new IoBuf(cap);
        prev.next := block;
        prev := block;
        list := list + [block];
      }
    }

    /** A request for n bytes would have to go beyond the limit. */
    ghost predicate Exhausted(n: int)
      reads this
    {
      Short(pool, totalMem, n)
    }

    /** The same, once a request for another size has been served. */
    ghost predicate ExhaustedAfter(served: int, n: int)
      reads this
    {
      Short(pool, totalMem + Cost(served), n)
    }

    /** What serving a request adds to the accounted memory. */
    ghost function Cost(n: int): int
      reads this
    {
      if n <= M8M && SizeClass(n) in pool && pool[SizeClass(n)] == null then SizeClass(n) / 1024 else 0
    }

    /** alloc_buf: exits the process when it may not grow any further, answers null above 8 MB, and
        otherwise hands the first block of the list, or a new one, to its caller. */
    method AllocBuf(n: int, ghost who: Holder) returns (exited: bool, b: IoBuf?)
      requires Valid()
      modifies this, FreeBlocks()
      ensures exited <==> old(Exhausted(n))
      ensures exited <==>
                && n <= 8388608 && SizeClass(n) in old(pool) && old(pool)[SizeClass(n)] == null
                && 5242880 <= old(totalMem) + SizeClass(n) / 1024
      ensures !exited ==> Valid() && old(blocks) <= blocks && fresh(blocks - old(blocks))
      ensures !exited && M8M < n ==>
                b == null && owner == old(owner) && created == old(created) && blocks == old(blocks)
      ensures !exited && n <= M8M ==>
                && b != null && b !in old(owner) && owner == old(owner)[b := who] && Handed(b, SizeClass(n))
                && (blocks == old(blocks) || (blocks == old(blocks) + {b} && fresh(b) && fresh(b.data)))
                && created == if old(pool)[SizeClass(n)] == null
                              then old(created)[SizeClass(n) := old(created)[SizeClass(n)] + 1] else old(created)
      ensures !exited && n <= M8M ==>
                forall k :: SizeClass(n) < k <= M8M ==> (Exhausted(k) <==> old(ExhaustedAfter(n, k)))
    {
      hide IsCap, SizeClass, Accounted, FreeList, Separate, Conserved, Short;
      ShortMeans(n);
      exited, b := false, null;
      if M8M < n {
        return;
      }
      var index := SizeClass(n);
      SizeClassIsSmallestFit(n);
      if pool[index] == null {
        if totalMem + index / 1024 >= EXTRA_MEM_LIMIT {
          exited := true;
          return;
        }
        b := Grow(index, who);
      } else {
        b := TakeFirst(index, who);
      }
      ShortElsewhere(pool, old(pool), totalMem, index);
    }

    lemma HasClass(n: int)
      requires Valid() && n <= M8M
      ensures SizeClass(n) in pool
    {
      SizeClassIsSmallestFit(n);
    }

    lemma ShortMeans(n: int)
      ensures Exhausted(n) <==>
                n <= M8M && SizeClass(n) in pool && pool[SizeClass(n)] == null
                && totalMem + SizeClass(n) / 1024 >= EXTRA_MEM_LIMIT
    {
    }

    /** A block as its new holder gets it. */
    ghost predicate Handed(b: IoBuf, cap: int)
      reads this, b
    {
      b.Valid() && b.capacity == cap && b.head == 0 && b.length == 0 && b in blocks
    }

    method Grow(index: int, ghost who: Holder) returns (b: IoBuf)
      requires Valid() && IsCap(index) && totalMem + index / 1024 < EXTRA_MEM_LIMIT
      modifies this`totalMem, this`owner, this`created, this`blocks
      ensures Valid() && fresh(b) && fresh(b.data) && blocks == old(blocks) + {b}
      ensures owner == old(owner)[b := who] && Handed(b, index)
      ensures created == old(created)[index := old(created)[index] + 1]
      ensures totalMem == old(totalMem) + index / 1024
    {
      hide IsCap, Valid;
      CapIsPositive(index);
      b := new IoBuf(index);
      assert FreeBlocks() == old(FreeBlocks());
      Enrol(b, index, who);
    }

    /** Enters a block made for its first holder. */
    method Enrol(b: IoBuf, index: int, ghost who: Holder)
      requires Valid() && IsCap(index) && totalMem + index / 1024 < EXTRA_MEM_LIMIT
      requires b !in blocks && b.capacity == index && forall b' :: b' in blocks ==> b'.data != b.data
      modifies this`totalMem, this`owner, this`created, this`blocks
      ensures Valid() && blocks == old(blocks) + {b} && owner == old(owner)[b := who]
      ensures created == old(created)[index := old(created)[index] + 1]
      ensures totalMem == old(totalMem) + index / 1024
    {
      hide IsCap, Accounted, FreeList, Placed, Conserved, Separate;
      SeparateOne(b);
      SeparateUnion(blocks, {b});
      ShareGrows(created, index);
      PlacedAfterNew(blocks, owner.Keys, free, b);
      HeldAreBlocks(blocks, owner.Keys, free);
      ConservedAfterNew(created, owner.Keys, free, b);
      totalMem := totalMem + index / 1024;
      owner := owner[b := who];
      blocks := blocks + {b};
      created := created[index := created[index] + 1];
      assert owner.Keys == old(owner.Keys) + {b};
      forall c | c in pool
        ensures ListOk(c)
      {
        assert old(ListOk(c));
      }
    }

    method TakeFirst(index: int, ghost who: Holder) returns (b: IoBuf)
      requires Valid() && IsCap(index) && pool[index] != null
      modifies this`pool, this`free, this`owner, pool[index]
      ensures Valid() && created == old(created) && blocks == old(blocks)
      ensures b == old(pool)[index] && b !in old(owner) && owner == old(owner)[b := who] && Handed(b, index)
      ensures pool.Keys == old(pool.Keys) && forall c :: c in pool && c != index ==> pool[c] == old(pool)[c]
    {
      hide Consistent, IsCap;
      b := Detach(index, who);
      label Off: b.next := null;
      assert FreeBlocks() == old@Off(FreeBlocks());
    }

    /** The first block of a list changes hands. */
    method Detach(index: int, ghost who: Holder) returns (b: IoBuf)
      requires Valid() && IsCap(index) && pool[index] != null
      modifies this`pool, this`free, this`owner
      ensures Valid() && created == old(created) && blocks == old(blocks) && totalMem == old(totalMem)
      ensures b == old(pool)[index] && b !in old(owner) && owner == old(owner)[b := who] && Handed(b, index)
      ensures pool.Keys == old(pool.Keys) && forall c :: c in pool && c != index ==> pool[c] == old(pool)[c]
    {
      hide IsCap, Accounted, Separate, FreeList, Placed, Conserved;
      b := pool[index];
      ghost var list := free[index];
      assert ListOk(index);
      FirstIsReady(list, index);
      ghost var rest := list[1..];
      RestIsFree(list, index);
      PlacedAfterTake(blocks, owner.Keys, free, index);
      ConservedAfterTake(created, owner.Keys, free, index);
      pool := pool[index := b.next];
      free := free[index := rest];
      owner := owner[b := who];
      assert owner.Keys == old(owner.Keys) + {b};
      forall c | c in pool
        ensures ListOk(c)
      {
        assert old(ListOk(c));
        if c != index {
          assert b !in free[c];
        }
      }
    }

    static method LinkBefore(b: IoBuf, next: IoBuf?, ghost list: seq<IoBuf>, ghost cap: int)
      requires FreeList(list, cap) && next == First(list) && b !in list
      requires b.Valid() && b.capacity == cap && b.head == 0 && b.length == 0
      modifies b`next
      ensures FreeList([b] + list, cap)
    {
      b.next := next;
      assert forall i :: 0 < i < |list| + 1 ==> ([b] + list)[i] == list[i - 1];
    }

    /** revert: clears the block and puts it in front of the list of its size; that there is such a
        list is what the program asserts. */
    method Revert(b: IoBuf)
      requires Valid() && b in owner && b.Valid()
      modifies this`pool, this`free, this`owner, b
      ensures Valid() && created == old(created) && totalMem == old(totalMem) && blocks == old(blocks)
      ensures owner == old(owner) - {b}
      ensures free == old(free)[b.capacity := [b] + old(free)[b.capacity]]
      ensures forall k :: b.capacity < k <= M8M ==> (Exhausted(k) <==> old(Exhausted(k)))
    {
      hide IsCap, Accounted, Separate, FreeList, Placed, Conserved, Short;
      var index := b.capacity;
      PlacedAfterRevert(blocks, owner.Keys, free, b);
      ConservedAfterRevert(created, owner.Keys, free, b);
      assert index in pool;
      ghost var list := free[index];
      assert ListOk(index);
      HeldIsABlock(blocks, owner.Keys, free, b);
      b.Clear();
      LinkBefore(b, pool[index], list, index);
      pool := pool[index := b];
      free := free[index := [b] + list];
      owner := owner - {b};
      ShortElsewhere(pool, old(pool), totalMem, index);
      assert owner.Keys == old(owner.Keys) - {b};
      forall c | c in pool
        ensures ListOk(c)
      {
        assert old(ListOk(c));
      }
    }
  }

  ghost function HeldByOthers<H>(owner: map<IoBuf, H>, h: H): map<IoBuf, H> {
    map b | b in owner && owner[b] != h :: owner[b]
  }

  ghost function HeldBesides<H>(owner: map<IoBuf, H>, h: H, h': H): map<IoBuf, H> {
    map b | b in owner && owner[b] != h && owner[b] != h' :: owner[b]
  }

  /** The blocks that h does not hold tell which ones neither h nor h' holds. */
  lemma OthersTellBesides<H>(o: map<IoBuf, H>, o': map<IoBuf, H>, h: H, h': H)
    requires HeldByOthers(o, h) == HeldByOthers(o', h)
    ensures HeldBesides(o, h, h') == HeldBesides(o', h, h') && HeldBesides(o, h', h) == HeldBesides(o', h', h)
  {
    var m, m' := HeldByOthers(o, h), HeldByOthers(o', h);
    assert forall b :: b in o && o[b] != h <==> b in m;
    assert forall b :: b in o' && o'[b] != h <==> b in m';
    assert forall b :: b in m ==> m[b] == o[b] == o'[b];
  }

  lemma HeldIsABlock(blocks: set<IoBuf>, held: set<IoBuf>, free: map<int, seq<IoBuf>>, b: IoBuf)
    requires Placed(blocks, held, free) && b in held
    ensures b in blocks
  {
  }

  lemma HeldAreBlocks(blocks: set<IoBuf>, held: set<IoBuf>, free: map<int, seq<IoBuf>>)
    requires Placed(blocks, held, free)
    ensures held <= blocks
  {
  }

  lemma CapsAre(caps: set<int>)
    requires caps == {M4K, M16K, M64K, M256K, M1M, M4M, M8M}
    ensures forall c :: IsCap(c) <==> c in caps
  {
  }

  lemma CapIsPositive(c: int)
    requires IsCap(c)
    ensures 1024 <= c
  {
  }

  lemma EmptyIsConserved()
    ensures Conserved(map[], map[], {}) && Separate({})
  {
  }
}
