/**
  io::Pipe's byte ring: a buffer of 256 bytes, two indices that are never reduced to the
  buffer and wrap at the machine word, and the copy loops.  It implements a bounded queue.
 */
module Pipes {
  import opened Events
  import opened Scheduler
  import opened Walk
  import S = Signals

  newtype byte = x: int | 0 <= x < 256

  const CAPACITY: nat := 256

  /** n bytes of a circular buffer, from index start on. */
  ghost function Ring(bytes: seq<byte>, start: nat, n: nat): (s: seq<byte>)
    requires |bytes| == CAPACITY
    ensures |s| == n
  {
    seq(n, i requires 0 <= i < n => bytes[(start + i) % CAPACITY])
  }

  /** Equal slots stay equal a few slots on. */
  lemma {:induction false} SlotsShift(a: nat, b: nat, i: nat)
    requires a % CAPACITY == b % CAPACITY
    ensures (a + i) % CAPACITY == (b + i) % CAPACITY
  {
    if i > 0 {
      SlotsShift(a, b, i - 1);
      NextSlot(a + i - 1);
      NextSlot(b + i - 1);
    }
  }

  lemma NextSlot(a: nat)
    ensures (a + 1) % CAPACITY == if a % CAPACITY == CAPACITY - 1 then 0 else a % CAPACITY + 1
  {
  }

  /** Within one lap no slot comes twice. */
  lemma {:induction false} SlotsApart(a: nat, i: nat)
    requires 0 < i < CAPACITY
    ensures (a + i) % CAPACITY
         == if a % CAPACITY + i < CAPACITY then a % CAPACITY + i else a % CAPACITY + i - CAPACITY
  {
    if i > 1 {
      SlotsApart(a, i - 1);
    }
    NextSlot(a + i - 1);
  }

  lemma RingDrop(bytes: seq<byte>, start: nat, start': nat, n: nat, k: nat)
    requires |bytes| == CAPACITY && k <= n && start' % CAPACITY == (start + k) % CAPACITY
    ensures Ring(bytes, start', n - k) == Ring(bytes, start, n)[k..]
  {
    var dropped := Ring(bytes, start, n)[k..];
    forall i | 0 <= i < n - k ensures Ring(bytes, start', n - k)[i] == dropped[i] {
      SlotsShift(start', start + k, i);
      assert dropped[i] == Ring(bytes, start, n)[k + i];
    }
  }

  /** Writing the slot behind the last byte appends it, as long as there is a free slot. */
  lemma RingAppend(bytes: seq<byte>, start: nat, n: nat, slot: nat, b: byte)
    requires |bytes| == CAPACITY && n < CAPACITY && slot < CAPACITY && slot == (start + n) % CAPACITY
    ensures Ring(bytes[slot := b], start, n + 1) == Ring(bytes, start, n) + [b]
  {
    var grown := Ring(bytes[slot := b], start, n + 1);
    forall i | 0 <= i < n ensures grown[i] == Ring(bytes, start, n)[i] {
      SlotsApart(start + i, n - i);
    }
  }

  class Pipe {
    const word: nat          // the size of the index type
    ghost const laps: nat    // how often the buffer fits into it
    const buf: array<byte>
    const data: Signal
    const space: Signal
    var head: nat
    var tail: nat

    ghost predicate Valid()
      reads this
    {
      && buf.Length == CAPACITY
      && word == CAPACITY * laps && laps >= 2
      && head < word && tail < word
      && Distance() <= CAPACITY
      && data != space
    }

    /** wrapping_sub. */
    function Distance(): nat
      reads this
      requires head < word && tail < word
    {
      if head >= tail then head - tail else head + word - tail
    }

    /** wrapping_add, for an index and a count below the word size. */
    function Plus(i: nat, n: nat): nat {
      if i + n >= word then i + n - word else i + n
    }

    /** The bytes in the ring, oldest first. */
    ghost function Contents(): (s: seq<byte>)
      reads this, buf
      requires Valid()
      ensures |s| == Distance()
    {
      Ring(buf[..], tail, Distance())
    }

    constructor (word: nat, ghost laps: nat)
      requires word == CAPACITY * laps && laps >= 2
      ensures Valid() && Contents() == [] && fresh(buf) && fresh(data) && fresh(space)
      ensures data.View() == space.View() == S.Signal(false, 0)
    {
      this.word := word;
      this.laps := laps;
      buf := new byte[CAPACITY](_ => 0);
      data := new Signal();
      space := new Signal();
      head, tail := 0, 0;
    }

    /** Masking a wrapped index is reducing the unwrapped one. */
    lemma MaskWraps(i: nat, n: nat)
      requires word == CAPACITY * laps && i < word && n <= word
      ensures Plus(i, n) % CAPACITY == (i + n) % CAPACITY
    {
      if i + n >= word {
        Reduce(i + n - word, laps);
      }
    }

    static lemma {:induction false} Reduce(x: nat, laps: nat)
      ensures (x + CAPACITY * laps) % CAPACITY == x % CAPACITY
    {
      if laps > 0 {
        Reduce(x, laps - 1);
      }
    }

    method Len() returns (n: nat)
      requires Valid()
      ensures n == |Contents()|
    {
      n := Distance();
    }

    method Room() returns (n: nat)
      requires Valid()
      ensures n == CAPACITY - |Contents()|
    {
      n := CAPACITY - Distance();
    }

    /** The byte goes to the back, or is refused by a full ring. */
    method PushSection(b: byte) returns (ok: bool)
      requires Valid()
      modifies this`head, buf
      ensures Valid()
      ensures ok <==> |old(Contents())| < CAPACITY
      ensures Contents() == if ok then old(Contents()) + [b] else old(Contents())
    {
      ok := Distance() < CAPACITY;
      if ok {
        HeadIndex();
        RingAppend(buf[..], tail, Distance(), head % CAPACITY, b);
        buf[head % CAPACITY] := b;
        head := Plus(head, 1);
      }
    }

    /** The slot behind the last byte. */
    lemma HeadIndex()
      requires Valid()
      ensures head % CAPACITY == (tail + Distance()) % CAPACITY
    {
      if head < tail {
        Reduce(head, laps);
      }
    }

    /** Take up to out.Length bytes from the front. */
    method PopSection(out: array<byte>) returns (n: nat)
      requires Valid() && out != buf
      modifies this`tail, out
      ensures Valid()
      ensures n == if |old(Contents())| <= out.Length then |old(Contents())| else out.Length
      ensures out[..n] == old(Contents())[..n]
      ensures out[n..] == old(out[n..])
      ensures Contents() == old(Contents())[n..]
    {
      var avail := if Distance() <= out.Length then Distance() else out.Length;
      ghost var was := Contents();
      var i := 0;
      while i < avail
        invariant i <= avail && Valid() && tail == old(tail) && Contents() == was
        invariant forall j | 0 <= j < i :: out[j] == was[j]
        invariant forall j | i <= j < out.Length :: out[j] == old(out[j])
      {
        MaskWraps(tail, i);
        assert was[i] == buf[(tail + i) % CAPACITY];
        out[i] := buf[Plus(tail, i) % CAPACITY];
        i := i + 1;
      }
      n := avail;
      MaskWraps(tail, n);
      RingDrop(buf[..], tail, Plus(tail, n), |was|, n);
      tail := Plus(tail, n);
    }

    /** Copy in what fits, in order, and say how much that was. */
    method WriteSection(data: seq<byte>) returns (n: nat)
      requires Valid()
      modifies this`head, buf
      ensures Valid()
      ensures n == if |data| <= CAPACITY - |old(Contents())| then |data| else CAPACITY - |old(Contents())|
      ensures Contents() == old(Contents()) + data[..n]
    {
      hide Ring;
      var room := CAPACITY - Distance();
      n := if room <= |data| then room else |data|;
      ghost var was, have := Contents(), Distance();
      HeadIndex();
      var i := 0;
      assert was + data[..0] == was;
      while i < n
        invariant i <= n && Valid() && head == old(head)
        invariant Ring(buf[..], tail, have + i) == was + data[..i]
      {
        MaskWraps(head, i);
        SlotsShift(head, tail + have, i);
        var slot := Plus(head, i) % CAPACITY;
        RingAppend(buf[..], tail, have + i, slot, data[i]);
        ghost var before := buf[..];
        buf[slot] := data[i];
        assert buf[..] == before[slot := data[i]];
        assert was + data[..i + 1] == was + data[..i] + [data[i]];
        i := i + 1;
      }
      head := Plus(head, n);
    }

    // ----- the operations: a section, then the signal

    /** sig has been set, and whoever was registered has been woken. */
    static twostate predicate Announced(sig: Signal, kernel: Kernel)
      reads sig, kernel
    {
      && sig.View() == S.Signal(true, 0)
      && kernel.View() == WakeTask(old(kernel.View()), old(sig.waiter))
    }

    static twostate predicate Silent(sig: Signal, kernel: Kernel)
      reads sig, kernel
    {
      sig.View() == old(sig.View()) && kernel.View() == old(kernel.View())
    }

    /** An interrupt handler's push: a byte that fits is announced to the reader. */
    method PushFromIsr(kernel: Kernel, b: byte) returns (ok: bool)
      requires Valid() && kernel.Intact()
      modifies this`head, buf, data, kernel`mem
      ensures Valid() && kernel.Intact()
      ensures ok <==> |old(Contents())| < CAPACITY
      ensures Contents() == if ok then old(Contents()) + [b] else old(Contents())
      ensures if ok then Announced(data, kernel) else Silent(data, kernel)
    {
      ok := PushSection(b);
      if ok {
        data.Set(kernel);
      }
    }

    /** Bytes taken out are announced to the writer. */
    method PopInto(kernel: Kernel, out: array<byte>) returns (n: nat)
      requires Valid() && out != buf && kernel.Intact()
      modifies this`tail, out, space, kernel`mem
      ensures Valid() && kernel.Intact()
      ensures n == if |old(Contents())| <= out.Length then |old(Contents())| else out.Length
      ensures out[..n] == old(Contents())[..n]
      ensures out[n..] == old(out[n..])
      ensures Contents() == old(Contents())[n..]
      ensures if n > 0 then Announced(space, kernel) else Silent(space, kernel)
    {
      n := PopSection(out);
      if n > 0 {
        space.Set(kernel);
      }
    }

    /** Bytes that fit are announced to the reader. */
    method WriteFromIsr(kernel: Kernel, bytes: seq<byte>) returns (n: nat)
      requires Valid() && kernel.Intact()
      modifies this`head, buf, data, kernel`mem
      ensures Valid() && kernel.Intact()
      ensures n == if |bytes| <= CAPACITY - |old(Contents())| then |bytes| else CAPACITY - |old(Contents())|
      ensures Contents() == old(Contents()) + bytes[..n]
      ensures if n > 0 then Announced(data, kernel) else Silent(data, kernel)
    {
      n := WriteSection(bytes);
      if n > 0 {
        data.Set(kernel);
      }
    }
  }
}
