/**
  The kernel arena: bump allocation with first-fit recycling through a free list threaded
  through the free blocks.
 */
module Arena {
  import opened Lists
  import opened RoundRobin

  type Addr = nat

  const NIL: Addr := 0

  datatype Block = Block(total: nat, payloadSize: nat, next: Addr)

  /** ptr is the pointer size.  blocks holds the headers that lie in the arena, slots the
      pointer-sized words just below the payloads. */
  datatype Arena = Arena(
    ptr: nat,
    base: Addr,
    len: nat,
    bump: nat,
    free: Addr,
    live: nat,
    peak: nat,
    allocations: nat,
    frees: nat,
    blocks: map<Addr, Block>,
    slots: map<Addr, Addr>)

  function Header(a: Arena): nat { 3 * a.ptr }

  /** The least multiple of align that is not below v. */
  function AlignUp(v: nat, align: nat): (p: nat)
    requires align > 0
    ensures v <= p < v + align
    ensures Rem(v, align) == 0 ==> p == v
  {
    if Rem(v, align) == 0 then v else v + (align - Rem(v, align))
  }

  function PayloadOf(a: Arena, hdr: Addr, align: nat): Addr
    requires align > 0
  {
    AlignUp(hdr + Header(a) + a.ptr, align)
  }

  function Effective(a: Arena, align: nat): nat { if align < a.ptr then a.ptr else align }

  function Next(a: Arena, b: Addr): Addr { if b in a.blocks then a.blocks[b].next else NIL }

  predicate Fits(a: Arena, b: Addr, size: nat, align: nat)
    requires align > 0 && b in a.blocks
  {
    PayloadOf(a, b, align) + size <= b + a.blocks[b].total
  }

  /** The free-list scan: the first block that fits, with its predecessor. */
  function FirstFit(a: Arena, prev: Addr, cur: Addr, size: nat, align: nat, budget: nat): (Addr, Addr)
    requires align > 0
    decreases budget
  {
    if cur !in a.blocks || budget == 0 then (prev, NIL)
    else if Fits(a, cur, size, align) then (prev, cur)
    else FirstFit(a, cur, a.blocks[cur].next, size, align, budget - 1)
  }

  function Account(a: Arena, size: nat): Arena {
    a.(live := a.live + size,
       peak := if a.live + size > a.peak then a.live + size else a.peak,
       allocations := a.allocations + 1)
  }

  function Recycle(a: Arena, prev: Addr, cur: Addr, payload: Addr, size: nat): Arena
    requires cur in a.blocks && payload >= a.ptr
  {
    var next := a.blocks[cur].next;
    var a1 := if prev !in a.blocks then a.(free := next)
              else a.(blocks := a.blocks[prev := a.blocks[prev].(next := next)]);
    Account(a1.(blocks := a1.blocks[cur := a1.blocks[cur].(next := NIL, payloadSize := size)],
                slots := a1.slots[payload - a.ptr := cur]), size)
  }

  /** Alloc: NIL when nothing fits. */
  function Alloc(a: Arena, size: nat, align: nat): (Arena, Addr)
    requires align > 0
  {
    if a.base == NIL || size == 0 then (a, NIL)
    else
      var al := Effective(a, align);
      var (prev, cur) := FirstFit(a, NIL, a.free, size, al, |a.blocks|);
      if cur in a.blocks then
        var payload := PayloadOf(a, cur, al);
        (Recycle(a, prev, cur, payload, size), payload)
      else
        var payload := AlignUp(a.base + a.bump + Header(a) + a.ptr, al);
        var used := payload + size - a.base;
        if used > a.len then (a, NIL)
        else
          var hdr := payload - a.ptr - Header(a);
          (Account(a.(blocks := a.blocks[hdr := Block(used - (hdr - a.base), size, NIL)],
                      slots := a.slots[payload - a.ptr := hdr],
                      bump := used), size), payload)
  }

  function Slot(a: Arena, payload: Addr): Addr {
    if payload >= a.ptr && payload - a.ptr in a.slots then a.slots[payload - a.ptr] else NIL
  }

  /** Free: a null or already freed pointer is ignored. */
  function Free(a: Arena, payload: Addr): Arena {
    var hdr := Slot(a, payload);
    if payload == NIL || a.base == NIL || hdr == NIL || hdr !in a.blocks then a
    else
      var size := a.blocks[hdr].payloadSize;
      a.(blocks := a.blocks[hdr := a.blocks[hdr].(next := a.free)],
         free := hdr,
         slots := a.slots[payload - a.ptr := NIL],
         live := if a.live < size then 0 else a.live - size,
         frees := a.frees + 1)
  }

  // ----- the invariant

  /** An allocation that has not been freed. */
  datatype Lease = Lease(payload: Addr, hdr: Addr, size: nat, align: nat)

  ghost predicate Chain(a: Arena, head: Addr, list: seq<Addr>)
    decreases |list|
  {
    if list == [] then head == NIL
    else head == list[0] && head in a.blocks && Chain(a, a.blocks[head].next, list[1..])
  }

  ghost function Sizes(leases: seq<Lease>): nat {
    if leases == [] then 0 else Sizes(leases[..|leases| - 1]) + leases[|leases| - 1].size
  }

  /** Carved blocks lie in the used part of the region, one after another. */
  ghost predicate Carved(a: Arena) {
    && a.base > 0 && a.ptr > 0 && a.bump <= a.len
    && NIL !in a.blocks
    && (forall b {:trigger a.blocks[b]} | b in a.blocks ::
          a.base <= b && b + a.blocks[b].total <= a.base + a.bump && Header(a) + a.ptr <= a.blocks[b].total)
    && (forall b, c {:trigger a.blocks[b], a.blocks[c]} | b in a.blocks && c in a.blocks && b < c ::
          b + a.blocks[b].total <= c)
  }

  /** A lease's payload is where its block and alignment put it, inside the block, with its
      slot filled in. */
  ghost predicate Leased(a: Arena, l: Lease) {
    && l.hdr in a.blocks
    && l.size > 0 && l.align > 0
    && l.payload == PayloadOf(a, l.hdr, Effective(a, l.align))
    && l.payload + l.size <= l.hdr + a.blocks[l.hdr].total
    && a.blocks[l.hdr].payloadSize == l.size
    && Slot(a, l.payload) == l.hdr
  }

  /** Every carved block is on the free list once or leased once, never both. */
  ghost predicate Inv(a: Arena, list: seq<Addr>, leases: seq<Lease>) {
    && Carved(a)
    && Chain(a, a.free, list) && Distinct(list)
    && (forall b {:trigger b in list} | b in list :: b in a.blocks)
    && (forall i {:trigger leases[i]} | 0 <= i < |leases| :: Leased(a, leases[i]) && leases[i].hdr !in list)
    && (forall i, j {:trigger leases[i], leases[j]} | 0 <= i < j < |leases| :: leases[i].hdr != leases[j].hdr)
    && (forall b {:trigger b in a.blocks} | b in a.blocks ::
          b in list || exists i :: 0 <= i < |leases| && leases[i].hdr == b)
    && a.live == Sizes(leases)
  }

  // ----- scanning

  lemma {:induction false} ChainFrame(a: Arena, a': Arena, head: Addr, list: seq<Addr>)
    requires Chain(a, head, list)
    requires forall b | b in list :: b in a.blocks && b in a'.blocks && a'.blocks[b].next == a.blocks[b].next
    ensures Chain(a', head, list)
    decreases |list|
  {
    if list != [] {
      assert list[0] in list;
      ChainFrame(a, a', a.blocks[head].next, list[1..]);
    }
  }

  lemma {:induction false} ChainMembers(a: Arena, head: Addr, list: seq<Addr>)
    requires Chain(a, head, list)
    ensures forall b | b in list :: b in a.blocks
    decreases |list|
  {
    if list != [] {
      ChainMembers(a, a.blocks[head].next, list[1..]);
    }
  }

  /** The scan finds the first block of the list that fits, and its predecessor. */
  lemma {:induction false} FirstFitScans(a: Arena, prev: Addr, cur: Addr, list: seq<Addr>,
                                         size: nat, align: nat, budget: nat)
    returns (j: nat)
    requires align > 0 && Chain(a, cur, list) && |list| <= budget && NIL !in a.blocks
    ensures j <= |list|
    ensures forall i | 0 <= i < j :: list[i] in a.blocks && !Fits(a, list[i], size, align)
    ensures j == |list| ==> FirstFit(a, prev, cur, size, align, budget).1 == NIL
    ensures j < |list| ==>
              && list[j] in a.blocks && Fits(a, list[j], size, align)
              && FirstFit(a, prev, cur, size, align, budget) == (if j == 0 then prev else list[j - 1], list[j])
    decreases budget
  {
    if list == [] {
      j := 0;
    } else if Fits(a, cur, size, align) {
      j := 0;
    } else {
      var r := list[1..];
      j := FirstFitScans(a, cur, a.blocks[cur].next, r, size, align, budget - 1);
      j := j + 1;
    }
  }

  ghost function Without(list: seq<Addr>, j: nat): seq<Addr>
    requires j < |list|
  {
    list[..j] + list[j + 1..]
  }

  /** Redirecting the predecessor takes the j-th block out of the chain. */
  lemma {:induction false} ChainSkips(a: Arena, a': Arena, head: Addr, list: seq<Addr>, j: nat)
    requires Chain(a, head, list) && Distinct(list) && j < |list| && list[j] in a.blocks
    requires forall b | b in list && b != list[j] :: b in a.blocks && b in a'.blocks
               && a'.blocks[b].next == if j > 0 && b == list[j - 1] then a.blocks[list[j]].next else a.blocks[b].next
    ensures Chain(a', if j == 0 then a.blocks[list[0]].next else head, Without(list, j))
    decreases |list|
  {
    var r := list[1..];
    if j == 0 {
      assert Without(list, 0) == r;
      forall b | b in r ensures b in a.blocks && b in a'.blocks && a'.blocks[b].next == a.blocks[b].next {
        assert b in list && b != list[0];
      }
      ChainFrame(a, a', a.blocks[head].next, r);
    } else {
      assert list[0] in list && list[0] != list[j];
      assert Without(list, j)[1..] == Without(r, j - 1);
      assert r[j - 1] == list[j];
      forall b | b in r && b != r[j - 1] ensures b in list && b != list[0] && b != list[j] {
      }
      ChainSkips(a, a', a.blocks[head].next, r, j - 1);
    }
  }

  // ----- allocation keeps the invariant

  /** A lease whose block and slot are left alone stays good. */
  lemma LeaseKept(a: Arena, a': Arena, l: Lease)
    requires Leased(a, l) && a'.ptr == a.ptr
    requires l.hdr in a'.blocks && a'.blocks[l.hdr].total == a.blocks[l.hdr].total
    requires a'.blocks[l.hdr].payloadSize == a.blocks[l.hdr].payloadSize
    requires Slot(a', l.payload) == Slot(a, l.payload)
    ensures Leased(a', l)
  {
  }

  /** The slot of a lease lies inside its block, so blocks apart have slots apart. */
  lemma SlotsApart(a: Arena, l: Lease, hdr: Addr, payload: Addr)
    requires Carved(a) && Leased(a, l) && hdr in a.blocks && hdr != l.hdr
    requires hdr + Header(a) + a.ptr <= payload <= hdr + a.blocks[hdr].total
    ensures payload != l.payload && payload >= a.ptr && l.payload >= a.ptr
    ensures payload - a.ptr != l.payload - a.ptr
  {
    assert l.hdr < hdr ==> l.hdr + a.blocks[l.hdr].total <= hdr;
    assert hdr < l.hdr ==> hdr + a.blocks[hdr].total <= l.hdr;
  }

  ghost function Granted(a: Arena, hdr: Addr, size: nat, align: nat): Lease
    requires align > 0 && a.ptr > 0
  {
    Lease(PayloadOf(a, hdr, Effective(a, align)), hdr, size, align)
  }

  lemma RecycleBlocks(a: Arena, prev: Addr, cur: Addr, payload: Addr, size: nat)
    requires cur in a.blocks && payload >= a.ptr && prev != cur && NIL !in a.blocks && (prev == NIL || prev in a.blocks)
    ensures var a' := Recycle(a, prev, cur, payload, size);
            && a'.blocks.Keys == a.blocks.Keys
            && a'.free == (if prev == NIL then a.blocks[cur].next else a.free)
            && a'.blocks[cur].payloadSize == size
            && a'.slots == a.slots[payload - a.ptr := cur]
            && (forall b {:trigger a'.blocks[b]} | b in a.blocks ::
                  && a'.blocks[b].total == a.blocks[b].total
                  && (b != cur ==> a'.blocks[b].payloadSize == a.blocks[b].payloadSize)
                  && (b != cur ==> a'.blocks[b].next == if b == prev then a.blocks[cur].next else a.blocks[b].next))
  {
  }

  lemma RecycleChain(a: Arena, list: seq<Addr>, j: nat, payload: Addr, size: nat)
    requires Chain(a, a.free, list) && Distinct(list) && NIL !in a.blocks && payload >= a.ptr
    requires j < |list| && forall b | b in list :: b in a.blocks
    ensures list[j] in a.blocks
    ensures var prev := if j == 0 then NIL else list[j - 1];
            var a' := Recycle(a, prev, list[j], payload, size);
            Chain(a', a'.free, Without(list, j)) && Distinct(Without(list, j))
  {
    hide Recycle;
    var cur, prev := list[j], if j == 0 then NIL else list[j - 1];
    assert cur in list && (j > 0 ==> prev in list && prev != cur);
    RecycleBlocks(a, prev, cur, payload, size);
    ChainSkips(a, Recycle(a, prev, cur, payload, size), a.free, list, j);
    ChainHead(a, a.free, list);
  }

  lemma ChainHead(a: Arena, head: Addr, list: seq<Addr>)
    requires Chain(a, head, list) && list != []
    ensures head == list[0]
  {
  }

  lemma WithoutMembers(list: seq<Addr>, j: nat, b: Addr)
    requires j < |list| && Distinct(list)
    ensures b in Without(list, j) <==> b in list && b != list[j]
  {
    if b in list && b != list[j] {
      var i :| 0 <= i < |list| && list[i] == b;
      if i < j {
        assert Without(list, j)[i] == b;
      } else {
        assert Without(list, j)[i - 1] == b;
      }
    }
  }

  lemma RecycleLeases(a: Arena, list: seq<Addr>, leases: seq<Lease>, j: nat, size: nat, align: nat)
    requires Inv(a, list, leases) && j < |list| && list[j] in a.blocks && size > 0 && align > 0
    requires Fits(a, list[j], size, Effective(a, align))
    ensures var prev, l := if j == 0 then NIL else list[j - 1], Granted(a, list[j], size, align);
            var a' := Recycle(a, prev, list[j], l.payload, size);
            Leased(a', l) && forall i | 0 <= i < |leases| :: Leased(a', leases[i]) && leases[i].hdr != list[j]
  {
    hide Recycle, Leased, Chain, AlignUp;
    var prev, l := if j == 0 then NIL else list[j - 1], Granted(a, list[j], size, align);
    PrevOnList(a, list, j);
    RecycleBlocks(a, prev, list[j], l.payload, size);
    var a' := Recycle(a, prev, list[j], l.payload, size);
    RecycleBooks(a, prev, list[j], l.payload, size);
    GrantIsLeased(a, a', list[j], size, align);
    forall i | 0 <= i < |leases| ensures Leased(a', leases[i]) && leases[i].hdr != list[j] {
      assert list[j] in list && Leased(a, leases[i]);
      LeaseInBlocks(a, leases[i]);
      LeaseUntouched(a, a', leases[i], list[j], l.payload);
    }
  }

  lemma LeaseInBlocks(a: Arena, l: Lease)
    requires Leased(a, l)
    ensures l.hdr in a.blocks
  {
  }

  lemma PrevOnList(a: Arena, list: seq<Addr>, j: nat)
    requires Distinct(list) && j < |list| && NIL !in a.blocks && forall b | b in list :: b in a.blocks
    ensures var prev := if j == 0 then NIL else list[j - 1];
            (prev == NIL || prev in a.blocks) && prev != list[j]
  {
    assert list[j] in list;
    if j > 0 {
      assert list[j - 1] in list;
    }
  }

  lemma GrantIsLeased(a: Arena, a': Arena, cur: Addr, size: nat, align: nat)
    requires Carved(a) && cur in a.blocks && size > 0 && align > 0 && Fits(a, cur, size, Effective(a, align))
    requires a'.ptr == a.ptr && cur in a'.blocks && a'.blocks[cur].total == a.blocks[cur].total
    requires a'.blocks[cur].payloadSize == size
    requires a'.slots == a.slots[Granted(a, cur, size, align).payload - a.ptr := cur]
    ensures Leased(a', Granted(a, cur, size, align))
  {
  }

  lemma LeaseUntouched(a: Arena, a': Arena, l: Lease, hdr: Addr, payload: Addr)
    requires Carved(a) && Leased(a, l) && hdr in a.blocks && hdr != l.hdr
    requires hdr + Header(a) + a.ptr <= payload <= hdr + a.blocks[hdr].total
    requires a'.ptr == a.ptr && a'.blocks.Keys == a.blocks.Keys
    requires a'.blocks[l.hdr].total == a.blocks[l.hdr].total
    requires a'.blocks[l.hdr].payloadSize == a.blocks[l.hdr].payloadSize
    requires payload - a.ptr in a'.slots && a'.slots == a.slots[payload - a.ptr := a'.slots[payload - a.ptr]]
    ensures Leased(a', l)
  {
    SlotsApart(a, l, hdr, payload);
    LeaseKept(a, a', l);
  }

  lemma SizesAppend(leases: seq<Lease>, l: Lease)
    ensures Sizes(leases + [l]) == Sizes(leases) + l.size
  {
    assert (leases + [l])[..|leases|] == leases;
  }

  lemma RecycleKeeps(a: Arena, list: seq<Addr>, leases: seq<Lease>, j: nat, size: nat, align: nat)
    requires Inv(a, list, leases) && j < |list| && list[j] in a.blocks && size > 0 && align > 0
    requires Fits(a, list[j], size, Effective(a, align))
    ensures var prev, l := if j == 0 then NIL else list[j - 1], Granted(a, list[j], size, align);
            Inv(Recycle(a, prev, list[j], l.payload, size), Without(list, j), leases + [l])
  {
    hide Recycle, Without, Leased, Chain, AlignUp;
    var prev, l := if j == 0 then NIL else list[j - 1], Granted(a, list[j], size, align);
    var a', list', leases' := Recycle(a, prev, list[j], l.payload, size), Without(list, j), leases + [l];
    PrevOnList(a, list, j);
    RecycleBlocks(a, prev, list[j], l.payload, size);
    RecycleChain(a, list, j, l.payload, size);
    RecycleLeases(a, list, leases, j, size, align);
    SizesAppend(leases, l);
    RecycleBooks(a, prev, list[j], l.payload, size);
    forall b ensures b in list' <==> b in list && b != list[j] {
      WithoutMembers(list, j, b);
    }
    forall i | 0 <= i < |leases'| ensures Leased(a', leases'[i]) && leases'[i].hdr !in list' {
      if i < |leases| { assert leases'[i] == leases[i]; }
    }
    forall i, k | 0 <= i < k < |leases'| ensures leases'[i].hdr != leases'[k].hdr {
      assert leases'[i] == leases[i];
      if k < |leases| { assert leases'[k] == leases[k]; }
    }
    forall b | b in a'.blocks ensures b in list' || exists i :: 0 <= i < |leases'| && leases'[i].hdr == b {
      if b == list[j] {
        assert leases'[|leases|].hdr == b;
      } else if b !in list {
        var i :| 0 <= i < |leases| && leases[i].hdr == b;
        assert leases'[i].hdr == b;
      }
    }
  }

  lemma RecycleBooks(a: Arena, prev: Addr, cur: Addr, payload: Addr, size: nat)
    requires cur in a.blocks && payload >= a.ptr
    ensures var a' := Recycle(a, prev, cur, payload, size);
            && a'.ptr == a.ptr && a'.base == a.base && a'.len == a.len && a'.bump == a.bump
            && a'.live == a.live + size
  {
  }

  /** The block carved when nothing on the list fits. */
  ghost function CarveAt(a: Arena, align: nat): Addr
    requires align > 0 && a.ptr > 0
  {
    AlignUp(a.base + a.bump + Header(a) + a.ptr, Effective(a, align)) - a.ptr - Header(a)
  }

  /** The arena after carving. */
  ghost function Carve(a: Arena, size: nat, align: nat): Arena
    requires align > 0 && a.ptr > 0 && size > 0
  {
    var hdr := CarveAt(a, align);
    var payload := hdr + Header(a) + a.ptr;
    Account(a.(blocks := a.blocks[hdr := Block(payload + size - hdr, size, NIL)],
               slots := a.slots[payload - a.ptr := hdr],
               bump := if payload + size >= a.base then payload + size - a.base else 0), size)
  }

  lemma CarvedBlocks(a: Arena, size: nat, align: nat)
    requires Carved(a) && size > 0 && align > 0
    requires CarveAt(a, align) + Header(a) + a.ptr + size <= a.base + a.len
    ensures CarveAt(a, align) !in a.blocks
    ensures Carved(Carve(a, size, align))
    ensures Leased(Carve(a, size, align), Lease(CarveAt(a, align) + Header(a) + a.ptr, CarveAt(a, align), size, align))
  {
    hide AlignUp, CarveAt, Carved, Leased;
    CarveIsNew(a, align);
    CarveStaysCarved(a, size, align);
    CarveIsLeased(a, size, align);
  }

  lemma CarveIsNew(a: Arena, align: nat)
    requires Carved(a) && align > 0
    ensures CarveAt(a, align) !in a.blocks
    ensures forall b | b in a.blocks :: b + a.blocks[b].total <= CarveAt(a, align)
  {
    hide AlignUp, CarveAt;
    CarveAbove(a, align);
    forall b | b in a.blocks ensures b < CarveAt(a, align) {
      assert a.blocks[b].total > 0;
    }
  }

  lemma CarveStaysCarved(a: Arena, size: nat, align: nat)
    requires Carved(a) && size > 0 && align > 0
    requires CarveAt(a, align) + Header(a) + a.ptr + size <= a.base + a.len
    ensures Carved(Carve(a, size, align))
  {
    hide AlignUp, CarveAt, Effective;
    CarveAbove(a, align);
    CarveIsNew(a, align);
    var a', hdr := Carve(a, size, align), CarveAt(a, align);
    forall b, c | b in a'.blocks && c in a'.blocks && b < c ensures b + a'.blocks[b].total <= c {
      if c != hdr && b != hdr {
        assert a.blocks[b] == a'.blocks[b] && a.blocks[c] == a'.blocks[c];
      }
    }
  }

  lemma CarveIsLeased(a: Arena, size: nat, align: nat)
    requires Carved(a) && size > 0 && align > 0
    ensures Leased(Carve(a, size, align), Lease(CarveAt(a, align) + Header(a) + a.ptr, CarveAt(a, align), size, align))
  {
    hide AlignUp, CarveAt, Carved;
    assert a.ptr > 0 by { CarvedPositive(a); }
    CarveAbove(a, align);
    AlignedStays(a, align);
  }

  lemma CarvedPositive(a: Arena)
    requires Carved(a)
    ensures a.ptr > 0 && a.base > 0
  {
  }

  /** A carved header lies past everything carved before. */
  lemma CarveAbove(a: Arena, align: nat)
    requires align > 0 && a.ptr > 0
    ensures CarveAt(a, align) >= a.base + a.bump
    ensures CarveAt(a, align) + Header(a) + a.ptr == AlignUp(a.base + a.bump + Header(a) + a.ptr, Effective(a, align))
  {
    hide AlignUp;
  }

  lemma CarveLease(a: Arena, size: nat, align: nat, l: Lease)
    requires Carved(a) && size > 0 && align > 0 && Leased(a, l)
    ensures Leased(Carve(a, size, align), l) && l.hdr != CarveAt(a, align)
  {
    assert a.blocks[l.hdr].total > 0;
  }

  lemma CarveKeeps(a: Arena, list: seq<Addr>, leases: seq<Lease>, size: nat, align: nat)
    requires Inv(a, list, leases) && size > 0 && align > 0
    requires CarveAt(a, align) + Header(a) + a.ptr + size <= a.base + a.len
    ensures var l := Lease(CarveAt(a, align) + Header(a) + a.ptr, CarveAt(a, align), size, align);
            Inv(Carve(a, size, align), list, leases + [l])
  {
    hide Leased, AlignUp, Carved, Carve, CarveAt, Chain, Sizes;
    assert a.ptr > 0 by { CarvedPositive(a); }
    var a', hdr := Carve(a, size, align), CarveAt(a, align);
    var l := Lease(hdr + Header(a) + a.ptr, hdr, size, align);
    SizesAppend(leases, l);
    CarvedBlocks(a, size, align);
    CarveSets(a, size, align);
    CarveLeases(a, list, leases, size, align);
    ChainMembers(a, a.free, list);
    ChainFrame(a, a', a.free, list);
    forall b | b in a'.blocks ensures b in list || exists i :: 0 <= i < |leases + [l]| && (leases + [l])[i].hdr == b {
      if b == hdr {
        assert (leases + [l])[|leases|].hdr == b;
      } else if b !in list {
        var i :| 0 <= i < |leases| && leases[i].hdr == b;
        assert (leases + [l])[i].hdr == b;
      }
    }
  }

  lemma CarveSets(a: Arena, size: nat, align: nat)
    requires align > 0 && a.ptr > 0 && size > 0 && CarveAt(a, align) !in a.blocks
    ensures var a' := Carve(a, size, align);
            && a'.free == a.free && a'.live == a.live + size && a'.blocks.Keys == a.blocks.Keys + {CarveAt(a, align)}
            && forall b | b in a.blocks :: a'.blocks[b] == a.blocks[b]
  {
    hide CarveAt;
  }

  lemma CarveLeases(a: Arena, list: seq<Addr>, leases: seq<Lease>, size: nat, align: nat)
    requires Inv(a, list, leases) && size > 0 && align > 0
    requires CarveAt(a, align) + Header(a) + a.ptr + size <= a.base + a.len
    ensures var hdr := CarveAt(a, align);
            var leases' := leases + [Lease(hdr + Header(a) + a.ptr, hdr, size, align)];
            && (forall i {:trigger leases'[i]} | 0 <= i < |leases'| ::
                  Leased(Carve(a, size, align), leases'[i]) && leases'[i].hdr !in list)
            && (forall i, k {:trigger leases'[i], leases'[k]} | 0 <= i < k < |leases'| :: leases'[i].hdr != leases'[k].hdr)
  {
    hide Leased, AlignUp, Chain, Sizes, Carve, CarveAt;
    CarvedBlocks(a, size, align);
    forall i | 0 <= i < |leases| ensures Leased(Carve(a, size, align), leases[i]) && leases[i].hdr != CarveAt(a, align) {
      assert Leased(a, leases[i]);
      CarveLease(a, size, align, leases[i]);
    }
  }

  lemma AlignedStays(a: Arena, align: nat)
    requires align > 0 && a.ptr > 0
    ensures PayloadOf(a, CarveAt(a, align), Effective(a, align))
            == AlignUp(a.base + a.bump + Header(a) + a.ptr, Effective(a, align))
  {
    var v, al := a.base + a.bump + Header(a) + a.ptr, Effective(a, align);
    AlignUpAligned(v, al);
  }

  /** An aligned address is a multiple of its alignment. */
  lemma {:induction false} AlignUpAligned(v: nat, align: nat)
    requires align > 0
    ensures Rem(AlignUp(v, align), align) == 0
  {
    if v >= align {
      AlignUpAligned(v - align, align);
    } else if v > 0 {
      assert AlignUp(v, align) == align && Rem(0, align) == 0;
    }
  }

  // ----- alloc and free, whole

  ghost predicate Allocates(a: Arena, list: seq<Addr>, leases: seq<Lease>, a': Arena, list': seq<Addr>,
                            leases': seq<Lease>, payload: Addr, size: nat, align: nat) {
    && Inv(a', list', leases')
    && |leases'| == |leases| + 1 && leases'[..|leases|] == leases
    && leases'[|leases|].payload == payload && leases'[|leases|].size == size && leases'[|leases|].align == align
  }

  /** An allocation either fails and changes nothing, or adds exactly one lease with the
      size and alignment asked for. */
  lemma AllocKeeps(a: Arena, list: seq<Addr>, leases: seq<Lease>, size: nat, align: nat)
    returns (list': seq<Addr>, leases': seq<Lease>)
    requires Inv(a, list, leases) && align > 0
    ensures var (a', payload) := Alloc(a, size, align);
            if payload == NIL then a' == a && list' == list && leases' == leases
            else Allocates(a, list, leases, a', list', leases', payload, size, align)
  {
    hide Inv, Alloc, FirstFit, Chain, Fits, Leased, Carved, Allocates;
    list', leases' := list, leases;
    if size == 0 {
      NothingAsked(a, align);
    } else {
      ListParts(a, list, leases);
      DistinctFits(list, a.blocks);
      var j := FirstFitScans(a, NIL, a.free, list, size, Effective(a, align), |a.blocks|);
      if j < |list| {
        list', leases' := AllocRecycles(a, list, leases, size, align, j);
      } else {
        list', leases' := AllocCarves(a, list, leases, size, align);
      }
    }
  }

  lemma NothingAsked(a: Arena, align: nat)
    requires align > 0
    ensures Alloc(a, 0, align) == (a, NIL)
  {
  }

  lemma AllocRecycles(a: Arena, list: seq<Addr>, leases: seq<Lease>, size: nat, align: nat, j: nat)
    returns (list': seq<Addr>, leases': seq<Lease>)
    requires Inv(a, list, leases) && align > 0 && size > 0 && a.ptr > 0 && a.base > 0
    requires j < |list| && list[j] in a.blocks && Fits(a, list[j], size, Effective(a, align))
    requires FirstFit(a, NIL, a.free, size, Effective(a, align), |a.blocks|)
             == (if j == 0 then NIL else list[j - 1], list[j])
    ensures var (a', payload) := Alloc(a, size, align);
            payload != NIL && Allocates(a, list, leases, a', list', leases', payload, size, align)
  {
    hide Inv, Alloc, FirstFit, Recycle, Fits, PayloadOf, Effective, Without;
    RecycleKeeps(a, list, leases, j, size, align);
    RecycleIsAlloc(a, if j == 0 then NIL else list[j - 1], list[j], size, align);
    list', leases' := Without(list, j), leases + [Granted(a, list[j], size, align)];
  }

  lemma AllocCarves(a: Arena, list: seq<Addr>, leases: seq<Lease>, size: nat, align: nat)
    returns (list': seq<Addr>, leases': seq<Lease>)
    requires Inv(a, list, leases) && align > 0 && size > 0 && Carved(a) && a.ptr > 0
    requires FirstFit(a, NIL, a.free, size, Effective(a, align), |a.blocks|).1 == NIL
    ensures var (a', payload) := Alloc(a, size, align);
            if payload == NIL then a' == a && list' == list && leases' == leases
            else Allocates(a, list, leases, a', list', leases', payload, size, align)
  {
    hide Inv, FirstFit, Carved, Carve, CarveAt, Effective;
    list', leases' := list, leases;
    if Alloc(a, size, align).1 == NIL {
      NullIsNothing(a, size, align);
    } else {
      hide Alloc;
      CarveIsAlloc(a, size, align);
      CarveKeeps(a, list, leases, size, align);
      leases' := leases + [Lease(Alloc(a, size, align).1, CarveAt(a, align), size, align)];
    }
  }

  lemma NullIsNothing(a: Arena, size: nat, align: nat)
    requires Carved(a) && align > 0
    requires FirstFit(a, NIL, a.free, size, Effective(a, align), |a.blocks|).1 == NIL
    requires Alloc(a, size, align).1 == NIL
    ensures Alloc(a, size, align).0 == a
  {
    hide FirstFit, Effective;
    AlignedStays(a, align);
  }

  lemma RecycleIsAlloc(a: Arena, prev: Addr, cur: Addr, size: nat, align: nat)
    requires a.base > 0 && a.ptr > 0 && size > 0 && align > 0 && cur in a.blocks
    requires FirstFit(a, NIL, a.free, size, Effective(a, align), |a.blocks|) == (prev, cur)
    ensures var payload := PayloadOf(a, cur, Effective(a, align));
            payload > 0 && Alloc(a, size, align) == (Recycle(a, prev, cur, payload, size), payload)
  {
    hide FirstFit, Recycle, AlignUp;
    PayloadBeyond(a, cur, Effective(a, align));
  }

  lemma ListParts(a: Arena, list: seq<Addr>, leases: seq<Lease>)
    requires Inv(a, list, leases)
    ensures Chain(a, a.free, list) && Distinct(list) && NIL !in a.blocks && a.ptr > 0 && a.base > 0
    ensures forall b | b in list :: b in a.blocks
    ensures Carved(a)
  {
  }

  lemma CarveIsAlloc(a: Arena, size: nat, align: nat)
    requires Carved(a) && size > 0 && align > 0
    requires FirstFit(a, NIL, a.free, size, Effective(a, align), |a.blocks|).1 == NIL
    requires Alloc(a, size, align).1 != NIL
    ensures Alloc(a, size, align) == (Carve(a, size, align), CarveAt(a, align) + Header(a) + a.ptr)
    ensures CarveAt(a, align) + Header(a) + a.ptr + size <= a.base + a.len
  {
    hide FirstFit;
  }

  ghost function Returned(leases: seq<Lease>, i: nat): seq<Lease>
    requires i < |leases|
  {
    leases[..i] + leases[i + 1..]
  }

  lemma ReturnedButLast(leases: seq<Lease>, i: nat)
    requires i < |leases| - 1
    ensures Returned(leases, i) == Returned(leases[..|leases| - 1], i) + [leases[|leases| - 1]]
  {
    var rest := leases[..|leases| - 1];
    assert rest[..i] == leases[..i];
    assert leases[i + 1..] == rest[i + 1..] + [leases[|leases| - 1]];
  }

  lemma {:induction false} SizesReturned(leases: seq<Lease>, i: nat)
    requires i < |leases|
    ensures Sizes(leases) == Sizes(Returned(leases, i)) + leases[i].size
  {
    var last := |leases| - 1;
    if i == last {
      assert Returned(leases, i) == leases[..last];
    } else {
      SizesReturned(leases[..last], i);
      ReturnedButLast(leases, i);
      assert (Returned(leases[..last], i) + [leases[last]])[..last - 1] == Returned(leases[..last], i);
    }
  }

  lemma FreeBlocks(a: Arena, list: seq<Addr>, leases: seq<Lease>, i: nat)
    requires Inv(a, list, leases) && i < |leases|
    ensures var a', l := Free(a, leases[i].payload), leases[i];
            && l.hdr in a.blocks && l.payload >= a.ptr && l.hdr != NIL
            && a'.blocks == a.blocks[l.hdr := a.blocks[l.hdr].(next := a.free)]
            && a'.slots == a.slots[l.payload - a.ptr := NIL]
            && a'.free == l.hdr && a'.ptr == a.ptr && a'.base == a.base && a'.len == a.len && a'.bump == a.bump
            && a'.live == a.live - l.size
  {
    hide Inv, Chain, AlignUp, Carved, Sizes;
    LeaseStands(a, list, leases, i);
    LeasePlaced(a, list, leases, i);
    ListParts(a, list, leases);
    LiveIsSum(a, list, leases);
    SizesReturned(leases, i);
  }

  lemma TwoLeases(a: Arena, list: seq<Addr>, leases: seq<Lease>, i: nat, k: nat)
    requires Inv(a, list, leases) && i < |leases| && k < |leases| && i != k
    ensures Carved(a) && Leased(a, leases[k])
    ensures leases[k].hdr in a.blocks && leases[i].hdr in a.blocks && leases[i].hdr != leases[k].hdr
    ensures leases[i].hdr + Header(a) + a.ptr <= leases[i].payload <= leases[i].hdr + a.blocks[leases[i].hdr].total
  {
    hide AlignUp;
    assert Leased(a, leases[i]) && Leased(a, leases[k]);
    PayloadBeyond(a, leases[i].hdr, Effective(a, leases[i].align));
  }

  lemma FreeLeases(a: Arena, list: seq<Addr>, leases: seq<Lease>, i: nat, k: nat)
    requires Inv(a, list, leases) && i < |leases| && k < |leases| && i != k
    ensures Leased(Free(a, leases[i].payload), leases[k])
  {
    hide AlignUp, Inv, Leased, Carved, Free, Chain, Sizes;
    FreeBlocks(a, list, leases, i);
    TwoLeases(a, list, leases, i, k);
    LeaseUntouched(a, Free(a, leases[i].payload), leases[k], leases[i].hdr, leases[i].payload);
  }

  lemma FreeList(a: Arena, list: seq<Addr>, leases: seq<Lease>, i: nat)
    requires Inv(a, list, leases) && i < |leases|
    ensures var a', list' := Free(a, leases[i].payload), [leases[i].hdr] + list;
            Carved(a') && Chain(a', a'.free, list') && Distinct(list') && forall b | b in list' :: b in a'.blocks
  {
    hide Free, Leased, AlignUp, Carved, Chain, Inv;
    var a', list' := Free(a, leases[i].payload), [leases[i].hdr] + list;
    FreeBlocks(a, list, leases, i);
    ListParts(a, list, leases);
    assert leases[i].hdr !in list by { LeaseOffList(a, list, leases, i); }
    ChainFrame(a, a', a.free, list);
    ChainPush(a', leases[i].hdr, a.free, list);
    RelinkedIsCarved(a, a', leases[i].hdr);
  }

  lemma LeaseOffList(a: Arena, list: seq<Addr>, leases: seq<Lease>, i: nat)
    requires Inv(a, list, leases) && i < |leases|
    ensures leases[i].hdr !in list
  {
    assert Leased(a, leases[i]);
  }

  lemma ChainPush(a: Arena, b: Addr, head: Addr, list: seq<Addr>)
    requires b in a.blocks && a.blocks[b].next == head && Chain(a, head, list)
    ensures Chain(a, b, [b] + list)
  {
    assert ([b] + list)[1..] == list;
  }

  lemma RelinkedIsCarved(a: Arena, a': Arena, b: Addr)
    requires Carved(a) && b in a.blocks && a'.blocks == a.blocks[b := a.blocks[b].(next := a.free)]
    requires a'.ptr == a.ptr && a'.base == a.base && a'.len == a.len && a'.bump == a.bump
    ensures Carved(a')
  {
  }

  lemma ReturnedAt(leases: seq<Lease>, i: nat, k: nat)
    requires i < |leases| && k < |leases| - 1
    ensures |Returned(leases, i)| == |leases| - 1
    ensures Returned(leases, i)[k] == leases[if k < i then k else k + 1]
  {
  }

  lemma FreeRest(a: Arena, list: seq<Addr>, leases: seq<Lease>, i: nat)
    requires Inv(a, list, leases) && i < |leases|
    ensures var a', list', leases' := Free(a, leases[i].payload), [leases[i].hdr] + list, Returned(leases, i);
            && (forall k {:trigger leases'[k]} | 0 <= k < |leases'| :: Leased(a', leases'[k]) && leases'[k].hdr !in list')
            && (forall j, k {:trigger leases'[j], leases'[k]} | 0 <= j < k < |leases'| :: leases'[j].hdr != leases'[k].hdr)
  {
    hide Free, Leased, AlignUp, Returned, Carved, Chain;
    var a', list', leases' := Free(a, leases[i].payload), [leases[i].hdr] + list, Returned(leases, i);
    forall k | 0 <= k < |leases'| ensures Leased(a', leases'[k]) && leases'[k].hdr !in list' {
      ReturnedLength(leases, i);
      ReturnedAt(leases, i, k);
      FreeLeases(a, list, leases, i, if k < i then k else k + 1);
    }
    forall j, k | 0 <= j < k < |leases'| ensures leases'[j].hdr != leases'[k].hdr {
      ReturnedLength(leases, i);
      ReturnedAt(leases, i, j);
      ReturnedAt(leases, i, k);
    }
  }

  lemma ReturnedLength(leases: seq<Lease>, i: nat)
    requires i < |leases|
    ensures |Returned(leases, i)| == |leases| - 1
  {
  }

  lemma FreePartition(a: Arena, list: seq<Addr>, leases: seq<Lease>, i: nat, b: Addr)
    requires Inv(a, list, leases) && i < |leases| && b in a.blocks
    ensures var list', leases' := [leases[i].hdr] + list, Returned(leases, i);
            b in list' || exists k :: 0 <= k < |leases'| && leases'[k].hdr == b
  {
    hide Leased, Carved, Chain;
    if b !in list && b != leases[i].hdr {
      var k :| 0 <= k < |leases| && leases[k].hdr == b;
      var k' := if k < i then k else k - 1;
      ReturnedAt(leases, i, k');
      assert Returned(leases, i)[k'].hdr == b;
    }
  }

  /** A free puts exactly that lease's block back at the head of the list; the accounting
      subtraction never saturates. */
  lemma FreeKeeps(a: Arena, list: seq<Addr>, leases: seq<Lease>, i: nat)
    requires Inv(a, list, leases) && i < |leases|
    ensures Inv(Free(a, leases[i].payload), [leases[i].hdr] + list, Returned(leases, i))
    ensures a.live >= leases[i].size
  {
    hide Free, Leased, AlignUp, Returned, Carved, Chain;
    FreeBlocks(a, list, leases, i);
    SizesReturned(leases, i);
    FreeList(a, list, leases, i);
    FreeRest(a, list, leases, i);
    forall b | b in Free(a, leases[i].payload).blocks
      ensures b in [leases[i].hdr] + list
              || exists k :: 0 <= k < |Returned(leases, i)| && Returned(leases, i)[k].hdr == b
    {
      FreePartition(a, list, leases, i, b);
    }
  }

  // ----- what the invariant means

  /** A live payload is aligned and in the region, it lies past its own header and slot, and
      it is apart from every other block, live or free: from its header, its slot and its
      payload. */
  lemma PayloadsAreApart(a: Arena, list: seq<Addr>, leases: seq<Lease>, i: nat)
    requires Inv(a, list, leases) && i < |leases|
    ensures var l := leases[i];
            && Rem(l.payload, Effective(a, l.align)) == 0
            && a.base <= l.payload && l.payload + l.size <= a.base + a.bump <= a.base + a.len
            && l.hdr in a.blocks && l.hdr + Header(a) <= l.payload - a.ptr
            && (forall b {:trigger a.blocks[b]} | b in a.blocks && b != l.hdr ::
                  l.payload + l.size <= b || b + a.blocks[b].total <= l.hdr)
  {
    hide Inv, Leased, AlignUp;
    LeasePlaced(a, list, leases, i);
    ListParts(a, list, leases);
    assert Carved(a);
  }

  /** So live payloads are apart from each other. */
  lemma LivePayloadsAreApart(a: Arena, list: seq<Addr>, leases: seq<Lease>, i: nat, k: nat)
    requires Inv(a, list, leases) && i < |leases| && k < |leases| && i != k
    ensures var l, o := leases[i], leases[k];
            l.payload + l.size <= o.payload || o.payload + o.size <= l.payload
  {
    hide Inv, Leased, AlignUp;
    LeasePlaced(a, list, leases, i);
    LeasePlaced(a, list, leases, k);
    LeasesApart(a, list, leases, i, k);
  }

  /** Where one lease lies. */
  lemma LeasePlaced(a: Arena, list: seq<Addr>, leases: seq<Lease>, i: nat)
    requires Inv(a, list, leases) && i < |leases|
    ensures var l := leases[i];
            && l.hdr in a.blocks && l.align > 0 && a.ptr > 0
            && Rem(l.payload, Effective(a, l.align)) == 0
            && a.base <= l.hdr && l.hdr + Header(a) + a.ptr <= l.payload
            && l.payload + l.size <= l.hdr + a.blocks[l.hdr].total <= a.base + a.bump <= a.base + a.len
  {
    hide AlignUp, Chain;
    assert Leased(a, leases[i]);
    AlignUpAligned(leases[i].hdr + Header(a) + a.ptr, Effective(a, leases[i].align));
  }

  lemma LeasesApart(a: Arena, list: seq<Addr>, leases: seq<Lease>, i: nat, k: nat)
    requires Inv(a, list, leases) && i < |leases| && k < |leases| && i != k
    ensures var b, c := leases[i].hdr, leases[k].hdr;
            && b in a.blocks && c in a.blocks
            && (b + a.blocks[b].total <= c || c + a.blocks[c].total <= b)
  {
    hide AlignUp, Chain;
    assert Leased(a, leases[i]) && Leased(a, leases[k]);
    assert leases[i].hdr != leases[k].hdr by {
      if i < k {
        assert leases[i].hdr != leases[k].hdr;
      } else {
        assert leases[k].hdr != leases[i].hdr;
      }
    }
  }

  /** Free then ask again for the same: the same payload comes back, and nothing new is
      carved. */
  lemma FreedIsReused(a: Arena, list: seq<Addr>, leases: seq<Lease>, i: nat)
    requires Inv(a, list, leases) && i < |leases|
    ensures var l := leases[i];
            var (a', payload) := Alloc(Free(a, l.payload), l.size, l.align);
            payload == l.payload && a'.bump == a.bump && a'.live == a.live
  {
    hide AlignUp, Free, Recycle, Inv, Alloc;
    var l := leases[i];
    var freed := Free(a, l.payload);
    assert Leased(a, l) by { LeaseStands(a, list, leases, i); }
    FreeBlocks(a, list, leases, i);
    ListParts(a, list, leases);
    NonEmpty(freed.blocks, l.hdr);
    HeadFits(freed, l.size, l.align, l.payload);
    RecycleBooks(freed, NIL, l.hdr, l.payload, l.size);
  }

  lemma LeaseStands(a: Arena, list: seq<Addr>, leases: seq<Lease>, i: nat)
    requires Inv(a, list, leases) && i < |leases|
    ensures Leased(a, leases[i])
  {
  }

  /** When the head of the list fits, that is what an allocation takes. */
  lemma HeadFits(a: Arena, size: nat, align: nat, payload: Addr)
    requires a.base > 0 && a.ptr > 0 && size > 0 && align > 0 && |a.blocks| > 0 && a.free in a.blocks
    requires payload == PayloadOf(a, a.free, Effective(a, align)) && payload >= a.ptr
    requires payload + size <= a.free + a.blocks[a.free].total
    ensures Alloc(a, size, align) == (Recycle(a, NIL, a.free, payload, size), payload)
  {
    hide AlignUp, Recycle;
  }

  lemma NonEmpty(m: map<Addr, Block>, b: Addr)
    requires b in m
    ensures |m| > 0
  {
    assert |m.Keys - {b}| == |m.Keys| - 1 && |m.Keys| == |m|;
  }

  // ----- every run

  datatype Op = AllocOp(size: nat, align: nat) | FreeOp(payload: Addr)

  function Apply(a: Arena, op: Op): Arena {
    match op
    case AllocOp(size, align) => if align == 0 then a else Alloc(a, size, align).0
    case FreeOp(payload) => Free(a, payload)
  }

  function Run(a: Arena, ops: seq<Op>): Arena {
    if ops == [] then a else Apply(Run(a, ops[..|ops| - 1]), ops[|ops| - 1])
  }

  function Fresh(ptr: nat, base: Addr, len: nat): Arena {
    Arena(ptr, base, len, 0, NIL, 0, 0, 0, 0, map[], map[])
  }

  ghost function RemoveFirst(s: seq<Addr>, p: Addr): seq<Addr> {
    if s == [] then [] else if s[0] == p then s[1..] else [s[0]] + RemoveFirst(s[1..], p)
  }

  /** The payloads handed out and not given back. */
  ghost function Outstanding(a: Arena, ops: seq<Op>): seq<Addr> {
    if ops == [] then []
    else
      var before := ops[..|ops| - 1];
      match ops[|ops| - 1]
      case AllocOp(size, align) =>
        if align == 0 || Alloc(Run(a, before), size, align).1 == NIL then Outstanding(a, before)
        else Outstanding(a, before) + [Alloc(Run(a, before), size, align).1]
      case FreeOp(payload) => RemoveFirst(Outstanding(a, before), payload)
  }

  /** What callers owe: only outstanding pointers are freed. */
  ghost predicate Legal(a: Arena, ops: seq<Op>) {
    forall i | 0 <= i < |ops| && ops[i].FreeOp? :: ops[i].payload in Outstanding(a, ops[..i])
  }

  ghost function Payloads(leases: seq<Lease>): (s: seq<Addr>)
    ensures |s| == |leases|
  {
    seq(|leases|, i requires 0 <= i < |leases| => leases[i].payload)
  }

  lemma {:induction false} RemoveAt(s: seq<Addr>, i: nat)
    requires Distinct(s) && i < |s|
    ensures RemoveFirst(s, s[i]) == s[..i] + s[i + 1..]
  {
    if i > 0 {
      assert s[1..][i - 1] == s[i];
      RemoveAt(s[1..], i - 1);
      assert s[0] != s[i];
      assert [s[0]] + (s[1..][..i - 1] + s[1..][i..]) == s[..i] + s[i + 1..];
    }
  }

  /** After every legal sequence of allocations and frees the arena is sound: its leases are
      exactly the outstanding payloads, every carved block is leased or free, and the live
      count is the sum of the sizes asked for. */
  lemma {:induction false} ArenaIsSafe(ptr: nat, base: Addr, len: nat, ops: seq<Op>)
    returns (list: seq<Addr>, leases: seq<Lease>)
    requires ptr > 0 && base > 0 && Legal(Fresh(ptr, base, len), ops)
    ensures Inv(Run(Fresh(ptr, base, len), ops), list, leases)
    ensures Payloads(leases) == Outstanding(Fresh(ptr, base, len), ops)
    ensures Run(Fresh(ptr, base, len), ops).live == Sizes(leases)
  {
    var a := Fresh(ptr, base, len);
    if ops == [] {
      list, leases := [], [];
      assert Sizes([]) == 0;
    } else {
      var before, op := ops[..|ops| - 1], ops[|ops| - 1];
      LegalPrefix(a, ops);
      list, leases := ArenaIsSafe(ptr, base, len, before);
      list, leases := OneOp(Run(a, before), list, leases, op);
    }
  }

  lemma LegalPrefix(a: Arena, ops: seq<Op>)
    requires Legal(a, ops) && ops != []
    ensures Legal(a, ops[..|ops| - 1])
    ensures ops[|ops| - 1].FreeOp? ==> ops[|ops| - 1].payload in Outstanding(a, ops[..|ops| - 1])
  {
    var before := ops[..|ops| - 1];
    forall i | 0 <= i < |before| && before[i].FreeOp? ensures before[i].payload in Outstanding(a, before[..i]) {
      assert before[..i] == ops[..i] && before[i] == ops[i];
    }
  }

  lemma OneOp(a: Arena, list: seq<Addr>, leases: seq<Lease>, op: Op) returns (list': seq<Addr>, leases': seq<Lease>)
    requires Inv(a, list, leases)
    requires op.FreeOp? ==> op.payload in Payloads(leases)
    ensures Inv(Apply(a, op), list', leases')
    ensures Apply(a, op).live == Sizes(leases')
    ensures match op
            case AllocOp(size, align) =>
              Payloads(leases') == if align == 0 || Alloc(a, size, align).1 == NIL then Payloads(leases)
                                   else Payloads(leases) + [Alloc(a, size, align).1]
            case FreeOp(payload) => Payloads(leases') == RemoveFirst(Payloads(leases), payload)
  {
    hide Inv, Alloc, Free;
    match op
    case AllocOp(size, align) =>
      if align == 0 {
        list', leases' := list, leases;
      } else {
        list', leases' := AllocKeeps(a, list, leases, size, align);
        assert Payloads(leases) == Payloads(leases'[..|leases|]);
      }
      LiveIsSum(Apply(a, op), list', leases');
    case FreeOp(payload) =>
      var k :| 0 <= k < |leases| && leases[k].payload == payload;
      FreeKeeps(a, list, leases, k);
      list', leases' := [leases[k].hdr] + list, Returned(leases, k);
      DistinctPayloads(a, list, leases);
      RemoveAt(Payloads(leases), k);
      LiveIsSum(Apply(a, op), list', leases');
  }

  lemma LiveIsSum(a: Arena, list: seq<Addr>, leases: seq<Lease>)
    requires Inv(a, list, leases)
    ensures a.live == Sizes(leases)
  {
  }

  lemma DistinctPayloads(a: Arena, list: seq<Addr>, leases: seq<Lease>)
    requires Inv(a, list, leases)
    ensures Distinct(Payloads(leases))
  {
    hide Inv;
    forall i, j | 0 <= i < j < |leases| ensures leases[i].payload != leases[j].payload {
      LivePayloadsAreApart(a, list, leases, i, j);
      LeaseIsSized(a, list, leases, i);
      LeaseIsSized(a, list, leases, j);
    }
  }

  lemma LeaseIsSized(a: Arena, list: seq<Addr>, leases: seq<Lease>, i: nat)
    requires Inv(a, list, leases) && i < |leases|
    ensures leases[i].size > 0
  {
    assert Leased(a, leases[i]);
  }

  /** An allocation is refused exactly when it asks for nothing, or no free block fits and
      the rest of the region is too small. */
  lemma RefusedIffFull(a: Arena, list: seq<Addr>, leases: seq<Lease>, size: nat, align: nat)
    requires Inv(a, list, leases) && align > 0
    ensures Alloc(a, size, align).1 == NIL <==>
              || size == 0
              || ((forall b | b in list :: b in a.blocks && !Fits(a, b, size, Effective(a, align)))
                  && AlignUp(a.base + a.bump + Header(a) + a.ptr, Effective(a, align)) + size > a.base + a.len)
  {
    hide Inv, Leased, Recycle, FirstFit, AlignUp;
    if size > 0 {
      ListParts(a, list, leases);
      DistinctFits(list, a.blocks);
      var j := FirstFitScans(a, NIL, a.free, list, size, Effective(a, align), |a.blocks|);
      if j < |list| {
        assert list[j] in list;
        PayloadBeyond(a, list[j], Effective(a, align));
      } else {
        PayloadBeyond(a, a.base + a.bump, Effective(a, align));
      }
    }
  }

  /** Where an allocation goes: into the first free block that fits, as it lies, with nothing
      carved; or, when none fits, to the first aligned address that leaves room for a header and
      a slot above everything carved, and the region is used up to the end of the payload and no
      further. */
  lemma AllocPlaces(a: Arena, list: seq<Addr>, leases: seq<Lease>, size: nat, align: nat) returns (j: nat)
    requires Inv(a, list, leases) && align > 0 && Alloc(a, size, align).1 != NIL
    ensures j <= |list| && forall i | 0 <= i < j :: list[i] in a.blocks && !Fits(a, list[i], size, Effective(a, align))
    ensures var (a', payload) := Alloc(a, size, align);
            if j < |list| then
              && list[j] in a.blocks && Fits(a, list[j], size, Effective(a, align))
              && payload == PayloadOf(a, list[j], Effective(a, align)) && a'.bump == a.bump
            else
              && payload == AlignUp(a.base + a.bump + Header(a) + a.ptr, Effective(a, align))
              && a'.base == a.base && a'.base + a'.bump == payload + size
  {
    hide Inv, Leased, Recycle, FirstFit, AlignUp;
    ListParts(a, list, leases);
    DistinctFits(list, a.blocks);
    j := FirstFitScans(a, NIL, a.free, list, size, Effective(a, align), |a.blocks|);
    if j < |list| {
      PayloadBeyond(a, list[j], Effective(a, align));
      assert PayloadOf(a, list[j], Effective(a, align)) >= a.ptr by { hide AlignUp; }
      RecycleBooks(a, if j == 0 then NIL else list[j - 1], list[j], PayloadOf(a, list[j], Effective(a, align)), size);
    }
  }

  lemma PayloadBeyond(a: Arena, hdr: Addr, align: nat)
    requires align > 0 && a.ptr > 0
    ensures PayloadOf(a, hdr, align) > hdr
  {
  }

  /** The counters count: every successful allocation is outstanding or was freed, and the
      peak is the most that has ever been live at once. */
  lemma {:induction false} CountersBalance(ptr: nat, base: Addr, len: nat, ops: seq<Op>)
    requires ptr > 0 && base > 0 && Legal(Fresh(ptr, base, len), ops)
    ensures var a := Run(Fresh(ptr, base, len), ops);
            && a.allocations == a.frees + |Outstanding(Fresh(ptr, base, len), ops)|
            && (forall i | 0 <= i <= |ops| :: Run(Fresh(ptr, base, len), ops[..i]).live <= a.peak)
            && (exists i :: 0 <= i <= |ops| && Run(Fresh(ptr, base, len), ops[..i]).live == a.peak)
  {
    hide Inv, Legal, Alloc, Free, RemoveFirst, Apply;
    var a := Fresh(ptr, base, len);
    if ops == [] {
      assert Run(a, ops[..0]).live == Run(a, ops).peak;
    } else {
      var before, op := ops[..|ops| - 1], ops[|ops| - 1];
      LegalPrefix(a, ops);
      CountersBalance(ptr, base, len, before);
      var list, leases := ArenaIsSafe(ptr, base, len, before);
      assert before[..|before|] == before;
      assert Run(a, before).live <= Run(a, before).peak;
      OneOpCounts(Run(a, before), list, leases, op);
      PeakGoesOn(a, ops);
    }
  }

  lemma OneOpCounts(a: Arena, list: seq<Addr>, leases: seq<Lease>, op: Op)
    requires Inv(a, list, leases) && a.live <= a.peak
    requires op.FreeOp? ==> op.payload in Payloads(leases)
    ensures var a' := Apply(a, op);
            && a'.peak == (if a'.live > a.peak then a'.live else a.peak)
            && match op
               case AllocOp(size, align) =>
                 a'.frees == a.frees
                 && a'.allocations == a.allocations + (if align == 0 || Alloc(a, size, align).1 == NIL then 0 else 1)
               case FreeOp(payload) =>
                 && a'.frees == a.frees + 1 && a'.allocations == a.allocations
                 && |RemoveFirst(Payloads(leases), payload)| == |leases| - 1
  {
    hide Inv, Alloc, Free;
    match op
    case AllocOp(size, align) =>
      ListParts(a, list, leases);
      if align > 0 {
        AllocCounts(a, size, align);
      }
    case FreeOp(payload) =>
      var k :| 0 <= k < |leases| && leases[k].payload == payload;
      DistinctPayloads(a, list, leases);
      RemoveAt(Payloads(leases), k);
      FreeCounts(a, list, leases, k);
  }

  /** If the peak was the most that was live, it is so after one more operation. */
  lemma PeakGoesOn(a: Arena, ops: seq<Op>)
    requires ops != []
    requires var before := ops[..|ops| - 1];
             && (forall i | 0 <= i <= |before| :: Run(a, before[..i]).live <= Run(a, before).peak)
             && (exists i :: 0 <= i <= |before| && Run(a, before[..i]).live == Run(a, before).peak)
             && Run(a, ops).peak == (if Run(a, ops).live > Run(a, before).peak then Run(a, ops).live else Run(a, before).peak)
    ensures forall i | 0 <= i <= |ops| :: Run(a, ops[..i]).live <= Run(a, ops).peak
    ensures exists i :: 0 <= i <= |ops| && Run(a, ops[..i]).live == Run(a, ops).peak
  {
    hide Run;
    var before := ops[..|ops| - 1];
    assert ops[..|ops|] == ops;
    forall i | 0 <= i <= |ops| ensures Run(a, ops[..i]).live <= Run(a, ops).peak {
      if i <= |before| {
        assert before[..i] == ops[..i];
      }
    }
    var i :| 0 <= i <= |before| && Run(a, before[..i]).live == Run(a, before).peak;
    assert before[..i] == ops[..i];
    assert Run(a, ops[..if Run(a, ops).live > Run(a, before).peak then |ops| else i]).live == Run(a, ops).peak;
  }

  lemma AllocCounts(a: Arena, size: nat, align: nat)
    requires align > 0 && a.ptr > 0 && a.live <= a.peak
    ensures var (a', payload) := Alloc(a, size, align);
            && a'.frees == a.frees && a'.peak == (if a'.live > a.peak then a'.live else a.peak)
            && a'.allocations == a.allocations + (if payload == NIL then 0 else 1)
  {
    hide FirstFit;
  }

  lemma FreeCounts(a: Arena, list: seq<Addr>, leases: seq<Lease>, i: nat)
    requires Inv(a, list, leases) && i < |leases|
    ensures var a' := Free(a, leases[i].payload);
            && a'.frees == a.frees + 1 && a'.allocations == a.allocations
            && a'.peak == a.peak && a'.live <= a.live
  {
    assert Leased(a, leases[i]);
  }
}
