/**
  The arena as it runs: headers and slots rewritten in place, the free list threaded through
  the blocks.  The methods are proved equal to the functions of module Arena.
 */
module Allocator {
  import opened RoundRobin
  import A = Arena
  import Lists

  class Arena {
    const ptr: nat
    const base: A.Addr
    const len: nat
    var bump: nat
    var free: A.Addr
    var live: nat
    var peak: nat
    var allocations: nat
    var frees: nat
    var blocks: map<A.Addr, A.Block>
    var slots: map<A.Addr, A.Addr>
    ghost var list: seq<A.Addr>
    ghost var leases: seq<A.Lease>

    ghost function View(): A.Arena
      reads this
    {
      A.Arena(ptr, base, len, bump, free, live, peak, allocations, frees, blocks, slots)
    }

    ghost predicate Intact()
      reads this
    {
      A.Inv(View(), list, leases)
    }

    constructor (ptr: nat, base: A.Addr, len: nat)
      requires ptr > 0 && base > 0
      ensures View() == A.Fresh(ptr, base, len) && Intact() && leases == []
    {
      this.ptr, this.base, this.len := ptr, base, len;
      bump, free, live, peak, allocations, frees := 0, A.NIL, 0, 0, 0, 0;
      blocks, slots := map[], map[];
      list, leases := [], [];
    }

    /** The first multiple of align at or above v, by masking: v + align - 1 less what it has
        over a multiple. */
    static method AlignUp(v: nat, align: nat) returns (p: nat)
      requires align > 0
      ensures p == A.AlignUp(v, align)
    {
      var mask := align - 1;
      MaskRoundsUp(v, align);
      p := v + mask - Rem(v + mask, align);
    }

    static lemma {:induction false} MaskRoundsUp(v: nat, align: nat)
      requires align > 0
      ensures Rem(v + align - 1, align) <= v + align - 1
      ensures A.AlignUp(v, align) == v + align - 1 - Rem(v + align - 1, align)
      decreases v
    {
      assert Rem(v + align - 1, align) == if v == 0 then align - 1 else Rem(v - 1, align);
      if v > align {
        MaskRoundsUp(v - align, align);
        assert Rem(v, align) == Rem(v - align, align);
      }
    }

    method Account(size: nat)
      modifies `live, `peak, `allocations
      ensures View() == A.Account(old(View()), size)
    {
      live := live + size;
      if live > peak {
        peak := live;
      }
      allocations := allocations + 1;
    }

    /** Take cur off the list, behind prev, and hand it out. */
    method Recycle(prev: A.Addr, cur: A.Addr, payload: A.Addr, size: nat)
      requires cur in blocks && payload >= ptr
      modifies this
      ensures View() == A.Recycle(old(View()), prev, cur, payload, size)
      ensures list == old(list) && leases == old(leases)
    {
      var next := blocks[cur].next;
      if prev !in blocks {
        free := next;
      } else {
        blocks := blocks[prev := blocks[prev].(next := next)];
      }
      blocks := blocks[cur := blocks[cur].(next := A.NIL, payloadSize := size)];
      slots := slots[payload - ptr := cur];
      Account(size);
    }

    /** The free-list scan. */
    method FindFit(size: nat, align: nat) returns (prev: A.Addr, cur: A.Addr, payload: A.Addr)
      requires Intact() && align > 0
      ensures (prev, cur) == A.FirstFit(View(), A.NIL, free, size, align, |blocks|)
      ensures cur in blocks ==> payload == A.PayloadOf(View(), cur, align)
    {
      hide A.Inv, A.AlignUp, A.Chain, A.FirstFit;
      A.ListParts(View(), list, leases);
      Lists.DistinctFits(list, blocks);
      prev, cur, payload := A.NIL, free, A.NIL;
      ghost var rest, budget := list, |blocks|;
      while cur in blocks
        invariant |rest| <= budget && A.Chain(View(), cur, rest)
        invariant A.FirstFit(View(), A.NIL, free, size, align, |blocks|)
               == A.FirstFit(View(), prev, cur, size, align, budget)
        decreases budget
      {
        ScanStep(View(), prev, cur, rest, size, align, budget);
        var next := blocks[cur].next;
        payload := AlignUp(cur + 3 * ptr + ptr, align);
        if payload + size <= cur + blocks[cur].total {
          return;
        }
        prev := cur;
        cur := next;
        rest, budget := rest[1..], budget - 1;
      }
      ScanEnds(View(), prev, cur, size, align, budget);
      cur := A.NIL;
    }

    static lemma ScanStep(a: A.Arena, prev: A.Addr, cur: A.Addr, rest: seq<A.Addr>, size: nat, align: nat, budget: nat)
      requires align > 0 && cur in a.blocks && A.Chain(a, cur, rest) && |rest| <= budget && A.NIL !in a.blocks
      ensures rest != [] && A.Chain(a, a.blocks[cur].next, rest[1..])
      ensures A.FirstFit(a, prev, cur, size, align, budget) ==
                if A.Fits(a, cur, size, align) then (prev, cur)
                else A.FirstFit(a, cur, a.blocks[cur].next, size, align, budget - 1)
    {
    }

    static lemma ScanEnds(a: A.Arena, prev: A.Addr, cur: A.Addr, size: nat, align: nat, budget: nat)
      requires align > 0 && cur !in a.blocks
      ensures A.FirstFit(a, prev, cur, size, align, budget) == (prev, A.NIL)
    {
    }

    /** Fresh memory, low to high. */
    method Carve(size: nat, align: nat) returns (payload: A.Addr)
      requires base != A.NIL && size > 0 && align > 0 && ptr > 0
      requires A.FirstFit(View(), A.NIL, free, size, A.Effective(View(), align), |blocks|).1 !in blocks
      modifies this
      ensures (View(), payload) == A.Alloc(old(View()), size, align)
      ensures list == old(list) && leases == old(leases)
    {
      hide A.FirstFit, A.AlignUp;
      var start := base + bump;
      payload := AlignUp(start + 3 * ptr + ptr, if align < ptr then ptr else align);
      var end := payload + size;
      var used := end - base;
      if used > len {
        return A.NIL;
      }
      var hdr := payload - ptr - 3 * ptr;
      blocks := blocks[hdr := A.Block(used - (hdr - base), size, A.NIL)];
      slots := slots[payload - ptr := hdr];
      bump := used;
      Account(size);
    }

    /** Reserve size bytes; null when the region is exhausted. */
    method Alloc(size: nat, align: nat) returns (payload: A.Addr)
      requires Intact() && align > 0
      modifies this
      ensures (View(), payload) == A.Alloc(old(View()), size, align)
      ensures Intact()
      ensures if payload == A.NIL then View() == old(View()) && leases == old(leases)
              else A.Allocates(old(View()), old(list), old(leases), View(), list, leases, payload, size, align)
    {
      hide A.Inv, A.FirstFit, A.Recycle, A.AlignUp, A.PayloadOf;
      ghost var list', leases' := A.AllocKeeps(View(), list, leases, size, align);
      A.ListParts(View(), list, leases);
      if base == A.NIL || size == 0 {
        return A.NIL;
      }
      var least := if align < ptr then ptr else align;
      var prev, cur;
      prev, cur, payload := FindFit(size, least);
      if cur in blocks {
        assert payload >= ptr by { PayloadAbove(View(), cur, least); }
        Recycle(prev, cur, payload, size);
      } else {
        payload := Carve(size, align);
      }
      list, leases := list', leases';
    }

    static lemma PayloadAbove(a: A.Arena, hdr: A.Addr, align: nat)
      requires align > 0
      ensures A.PayloadOf(a, hdr, align) >= a.ptr
    {
    }

    /** Give a payload back.  Freeing null, or what was already freed, does nothing. */
    method Free(payload: A.Addr)
      requires Intact()
      requires payload == A.NIL || A.Slot(View(), payload) == A.NIL || payload in A.Payloads(leases)
      modifies this
      ensures View() == A.Free(old(View()), payload)
      ensures Intact()
      ensures A.Payloads(leases) == A.RemoveFirst(old(A.Payloads(leases)), payload)
    {
      hide A.Inv, A.Free;
      ghost var list', leases' := FreeReturns(View(), list, leases, payload);
      Release(payload);
      list, leases := list', leases';
    }

    static lemma FreeReturns(a: A.Arena, list: seq<A.Addr>, leases: seq<A.Lease>, payload: A.Addr)
      returns (list': seq<A.Addr>, leases': seq<A.Lease>)
      requires A.Inv(a, list, leases)
      requires payload == A.NIL || A.Slot(a, payload) == A.NIL || payload in A.Payloads(leases)
      ensures A.Inv(A.Free(a, payload), list', leases')
      ensures A.Payloads(leases') == A.RemoveFirst(A.Payloads(leases), payload)
    {
      hide A.Inv, A.Free;
      if payload in A.Payloads(leases) {
        var k :| 0 <= k < |leases| && leases[k].payload == payload;
        A.FreeKeeps(a, list, leases, k);
        A.DistinctPayloads(a, list, leases);
        A.RemoveAt(A.Payloads(leases), k);
        list', leases' := [leases[k].hdr] + list, A.Returned(leases, k);
        PayloadsWithout(leases, k);
      } else {
        FreeNothing(a, payload);
        NotThere(A.Payloads(leases), payload);
        list', leases' := list, leases;
      }
    }

    static lemma PayloadsWithout(leases: seq<A.Lease>, k: nat)
      requires k < |leases|
      ensures A.Payloads(A.Returned(leases, k)) == A.Payloads(leases)[..k] + A.Payloads(leases)[k + 1..]
    {
      var whole, rest := A.Payloads(leases), A.Payloads(A.Returned(leases, k));
      forall i | 0 <= i < |rest| ensures rest[i] == (whole[..k] + whole[k + 1..])[i] {
        assert rest[i] == A.Returned(leases, k)[i].payload == leases[if i < k then i else i + 1].payload;
      }
    }

    static lemma FreeNothing(a: A.Arena, payload: A.Addr)
      requires payload == A.NIL || A.Slot(a, payload) == A.NIL
      ensures A.Free(a, payload) == a
    {
    }

    method Release(payload: A.Addr)
      modifies this
      ensures View() == A.Free(old(View()), payload)
      ensures list == old(list) && leases == old(leases)
    {
      if payload == A.NIL || base == A.NIL {
        return;
      }
      var hdr := if payload >= ptr && payload - ptr in slots then slots[payload - ptr] else A.NIL;
      if hdr == A.NIL || hdr !in blocks {
        return;
      }
      var size := blocks[hdr].payloadSize;
      blocks := blocks[hdr := blocks[hdr].(next := free)];
      free := hdr;
      slots := slots[payload - ptr := A.NIL];
      live := if live < size then 0 else live - size;
      frees := frees + 1;
    }

    static lemma {:induction false} NotThere(s: seq<A.Addr>, p: A.Addr)
      requires p !in s
      ensures A.RemoveFirst(s, p) == s
    {
      if s != [] {
        NotThere(s[1..], p);
      }
    }

    /** The number of free blocks, for the statistics. */
    method FreeBlocks() returns (n: nat)
      requires Intact()
      ensures n == if |list| <= 1_000_000 then |list| else 1_000_001
    {
      hide A.Inv;
      A.ListParts(View(), list, leases);
      n := 0;
      var p := free;
      ghost var rest := list;
      while p in blocks
        invariant n + |rest| == |list| && n <= 1_000_000 && A.Chain(View(), p, rest)
        decreases |rest|
      {
        n := n + 1;
        p := blocks[p].next;
        rest := rest[1..];
        if n > 1_000_000 {
          break;
        }
      }
    }
  }

  // ----- powers of two

  function Exp2(n: nat): nat { if n == 0 then 1 else 2 * Exp2(n - 1) }

  lemma {:induction false} Exp2Sum(i: nat, j: nat)
    ensures Exp2(i + j) == Exp2(i) * Exp2(j)
  {
    if i > 0 {
      Exp2Sum(i - 1, j);
      Exp2Step(i - 1);
      Exp2Step(i - 1 + j);
      Associative(2, Exp2(i - 1), Exp2(j));
    }
  }

  lemma Exp2Step(n: nat)
    ensures Exp2(n + 1) == 2 * Exp2(n)
  {
  }

  lemma Associative(a: nat, b: nat, c: nat)
    ensures a * (b * c) == (a * b) * c
  {
  }

  lemma {:induction false} Exp2Grows(i: nat, j: nat)
    requires i <= j
    ensures 0 < Exp2(i) <= Exp2(j)
  {
    if i < j {
      Exp2Grows(i, j - 1);
    } else if i > 0 {
      Exp2Grows(i - 1, i - 1);
    }
  }

  lemma MultipleOfMultiple(p: nat, a: nat, c: nat)
    requires a > 0 && c > 0 && a * c > 0 && p % (a * c) == 0
    ensures p % a == 0
  {
    var q := p / (a * c);
    assert p == (q * c) * a by {
      assert p == q * (a * c);
      assert q * (a * c) == q * (c * a) == (q * c) * a;
    }
    TimesAligned(q * c, a);
    TimesIsProduct(q * c, a);
    DivisionIsDivision(p, a);
  }

  lemma {:induction false} TimesAligned(n: nat, a: nat)
    requires a > 0
    ensures Rem(Times(n, a), a) == 0
  {
    if n > 0 {
      TimesAligned(n - 1, a);
    }
  }

  /** With power-of-two alignments a live payload is aligned as asked, even where the pointer
      size forced a coarser alignment. */
  lemma PayloadsAreAligned(a: A.Arena, list: seq<A.Addr>, leases: seq<A.Lease>, i: nat, p: nat, e: nat)
    requires A.Inv(a, list, leases) && i < |leases|
    requires a.ptr == Exp2(p) && leases[i].align == Exp2(e)
    ensures leases[i].payload % leases[i].align == 0
  {
    hide A.Inv;
    var l := leases[i];
    A.PayloadsAreApart(a, list, leases, i);
    Exp2Grows(0, p);
    Exp2Grows(0, e);
    DivisionIsDivision(l.payload, A.Effective(a, l.align));
    if l.align < a.ptr {
      if e >= p {
        Exp2Grows(p, e);
      }
      Exp2Sum(e, p - e);
      Exp2Grows(0, p - e);
      MultipleOfMultiple(l.payload, Exp2(e), Exp2(p - e));
    }
  }

  /** x with its low e bits cleared: what masking with the complement of 2^e - 1 leaves. */
  function ClearLow(x: nat, e: nat): nat {
    if e == 0 then x else 2 * ClearLow(x / 2, e - 1)
  }

  lemma {:induction false} RemDoubles(h: nat, b: nat, a: nat)
    requires a > 0 && b <= 1
    ensures Rem(2 * h + b, 2 * a) == 2 * Rem(h, a) + b
  {
    if h >= a {
      RemDoubles(h - a, b, a);
      assert 2 * h + b - 2 * a == 2 * (h - a) + b;
    }
  }

  lemma {:induction false} ClearLowDropsRemainder(x: nat, e: nat)
    ensures Exp2(e) > 0 && ClearLow(x, e) + Rem(x, Exp2(e)) == x
  {
    if e == 0 {
      RemOne(x);
    } else {
      ClearLowDropsRemainder(x / 2, e - 1);
      RemDoubles(x / 2, x % 2, Exp2(e - 1));
    }
  }

  lemma {:induction false} RemOne(x: nat)
    ensures Rem(x, 1) == 0
  {
    if x > 0 {
      RemOne(x - 1);
    }
  }

  /** For a power of two, rounding up is adding the mask and clearing its bits. */
  lemma AlignUpMasks(v: nat, e: nat)
    ensures Exp2(e) > 0 && A.AlignUp(v, Exp2(e)) == ClearLow(v + Exp2(e) - 1, e)
  {
    ClearLowDropsRemainder(v + Exp2(e) - 1, e);
    Arena.MaskRoundsUp(v, Exp2(e));
  }
}
