/**
  What the FIFO loops do on the chip: `n` reads of RegFifo return `n`
  consecutive FIFO bytes from the pointer on (wrapping at 256) and advance
  the pointer by `n`; writes from pointer 0 lay the bytes down in order.
 */
module FifoProperties {
  import opened Registers
  import opened Chip
  import opened Transport
  import opened Encoding
  import opened Driver
  import opened Bytes

  /** The `n` FIFO bytes from `start` on, wrapping at the end of the buffer. */
  function FifoSlice(fifo: seq<bv8>, start: bv8, n: nat): seq<bv8>
    requires |fifo| == 256
  {
    if n == 0 then [] else FifoSlice(fifo, start, n - 1) + [fifo[Advance(start, n - 1) as int]]
  }

  /** The bus log of draining those bytes. */
  function DrainLog(fifo: seq<bv8>, start: bv8, n: nat): seq<Access>
    requires |fifo| == 256
  {
    if n == 0 then [] else DrainLog(fifo, start, n - 1) + [RegRead(RegFifo, fifo[Advance(start, n - 1) as int])]
  }

  /** The bus log of writing `xs` to RegFifo. */
  function FillLog(xs: seq<bv8>): seq<Access> {
    if |xs| == 0 then [] else FillLog(xs[..|xs| - 1]) + [RegWrite(RegFifo, xs[|xs| - 1])]
  }

  /** The pointer `start` after `n` accesses: `n` further on, wrapping at 256. */
  function Advance(start: bv8, n: nat): bv8 {
    if n == 0 then start else Advance(start, n - 1) + 1
  }

  /** From pointer 0, fewer than 256 accesses leave the pointer at their count. */
  lemma {:induction false} AdvanceFromZero(n: nat)
    requires n < 256
    ensures Advance(0, n) as int == n
  {
    if n > 0 {
      AdvanceFromZero(n - 1);
      ByteIncrement(Advance(0, n - 1));
    }
  }

  /** The pointer after `n` accesses, in closed form. */
  lemma {:induction false} AdvanceMod(start: bv8, n: nat)
    ensures Advance(start, n) as int == (start as int + n) % 256
  {
    if n == 0 {
      ByteMod(start);
    } else {
      AdvanceMod(start, n - 1);
      StepMod(Advance(start, n - 1), start as int + n - 1);
    }
  }

  /** A FIFO slice in closed form: byte `i` is the FIFO byte `i` places after `start`, modulo 256. */
  lemma {:induction false} FifoSliceAt(fifo: seq<bv8>, start: bv8, n: nat)
    requires |fifo| == 256
    ensures |FifoSlice(fifo, start, n)| == n
    ensures forall i :: 0 <= i < n ==> FifoSlice(fifo, start, n)[i] == fifo[(start as int + i) % 256]
  {
    if n > 0 {
      FifoSliceAt(fifo, start, n - 1);
      AdvanceMod(start, n - 1);
    }
  }

  /** One read of RegFifo: the byte at the pointer, and the pointer one further on. */
  lemma FifoRead(s: ChipState)
    requires s.WellFormed()
    ensures var p := s.FifoPtr();
      ReadRegister(s, RegFifo) ==
        (ChipState(s.regs[RegFifoAddrPtr as int := p + 1], s.fifo, s.log + [RegRead(RegFifo, s.fifo[p as int])]),
         s.fifo[p as int])
  {
  }

  /** One write of RegFifo: the byte lands at the pointer, and the pointer moves one further on. */
  lemma FifoWrite(s: ChipState, x: bv8)
    requires s.WellFormed()
    ensures var p := s.FifoPtr();
      WriteRegister(s, RegFifo, x) ==
        ChipState(s.regs[RegFifoAddrPtr as int := p + 1], s.fifo[p as int := x], s.log + [RegWrite(RegFifo, x)])
  {
  }

  /** A second store to a register overwrites the first. */
  lemma StoreTwice(a: seq<bv8>, i: int, x: bv8, y: bv8)
    requires 0 <= i < |a|
    ensures a[i := x][i := y] == a[i := y]
  {
  }

  /** The read that follows `n - 1` reads of RegFifo. */
  lemma DrainExtend(s: ChipState, n: nat)
    requires s.WellFormed() && n > 0
    ensures var p := s.FifoPtr();
      var s1 := ChipState(s.regs[RegFifoAddrPtr as int := Advance(p, n - 1)], s.fifo, s.log + DrainLog(s.fifo, p, n - 1));
      ReadRegister(s1, RegFifo) ==
        (ChipState(s.regs[RegFifoAddrPtr as int := Advance(p, n)], s.fifo, s.log + DrainLog(s.fifo, p, n)),
         s.fifo[Advance(p, n - 1) as int])
  {
    var p := s.FifoPtr();
    var q := Advance(p, n - 1);
    var s1 := ChipState(s.regs[RegFifoAddrPtr as int := q], s.fifo, s.log + DrainLog(s.fifo, p, n - 1));
    FifoRead(s1);
    StoreTwice(s.regs, RegFifoAddrPtr as int, q, Advance(p, n));
    assert (s.log + DrainLog(s.fifo, p, n - 1)) + [RegRead(RegFifo, s.fifo[q as int])] == s.log + DrainLog(s.fifo, p, n);
  }

  /**
    Draining: `n` reads of RegFifo return the `n` bytes from the pointer
    on, leave the FIFO as it was, advance the pointer by `n` and touch no
    other register.
   */
  lemma {:induction false} FifoDrain(s: ChipState, n: nat)
    requires s.WellFormed()
    ensures var p := s.FifoPtr();
      ReadFifo(s, n) ==
        (ChipState(s.regs[RegFifoAddrPtr as int := Advance(p, n)], s.fifo, s.log + DrainLog(s.fifo, p, n)),
         FifoSlice(s.fifo, p, n))
  {
    var p := s.FifoPtr();
    if n == 0 {
      assert s.regs[RegFifoAddrPtr as int := p] == s.regs;
      assert s.log + [] == s.log;
    } else {
      FifoDrain(s, n - 1);
      DrainExtend(s, n);
    }
  }

  /** The write that follows writing all but the last byte of `xs` from pointer 0. */
  lemma FillExtend(s: ChipState, xs: seq<bv8>)
    requires s.WellFormed() && s.FifoPtr() == 0 && 0 < |xs| < 256
    ensures var n := |xs|;
      var s1 := ChipState(s.regs[RegFifoAddrPtr as int := Advance(0, n - 1)], xs[..n - 1] + s.fifo[n - 1..],
                          s.log + FillLog(xs[..n - 1]));
      WriteRegister(s1, RegFifo, xs[n - 1]) ==
        ChipState(s.regs[RegFifoAddrPtr as int := Advance(0, n)], xs + s.fifo[n..], s.log + FillLog(xs))
  {
    var n := |xs|;
    var q := Advance(0, n - 1);
    AdvanceFromZero(n - 1);
    WriteAt(s.regs, xs[..n - 1] + s.fifo[n - 1..], s.log + FillLog(xs[..n - 1]), q, xs[n - 1]);
    FillStep(s.fifo, s.log, xs);
  }

  /** A write of RegFifo with the pointer at `q`, whatever the pointer held before. */
  lemma WriteAt(regs: seq<bv8>, fifo: seq<bv8>, log: seq<Access>, q: bv8, x: bv8)
    requires |regs| == 128 && |fifo| == 256
    ensures WriteRegister(ChipState(regs[RegFifoAddrPtr as int := q], fifo, log), RegFifo, x) ==
      ChipState(regs[RegFifoAddrPtr as int := q + 1], fifo[q as int := x], log + [RegWrite(RegFifo, x)])
  {
    FifoWrite(ChipState(regs[RegFifoAddrPtr as int := q], fifo, log), x);
    StoreTwice(regs, RegFifoAddrPtr as int, q, q + 1);
  }

  /** Writing the last byte of `xs` completes the FIFO contents and the log. */
  lemma FillStep(fifo: seq<bv8>, log: seq<Access>, xs: seq<bv8>)
    requires |fifo| == 256 && 0 < |xs| < 256
    ensures var n := |xs|;
      && (xs[..n - 1] + fifo[n - 1..])[n - 1 := xs[n - 1]] == xs + fifo[n..]
      && (log + FillLog(xs[..n - 1])) + [RegWrite(RegFifo, xs[n - 1])] == log + FillLog(xs)
  {
    SpliceStep(fifo, xs);
  }

  /** Storing the last byte of `xs` at its position extends the laid-down prefix by one. */
  lemma SpliceStep(fifo: seq<bv8>, xs: seq<bv8>)
    requires |fifo| == 256 && 0 < |xs| < 256
    ensures var n := |xs|;
      (xs[..n - 1] + fifo[n - 1..])[n - 1 := xs[n - 1]] == xs + fifo[n..]
  {
    var n := |xs|;
    var lhs := (xs[..n - 1] + fifo[n - 1..])[n - 1 := xs[n - 1]];
    var rhs := xs + fifo[n..];
    forall k | 0 <= k < 256
      ensures lhs[k] == rhs[k]
    {
      if k < n - 1 {
        assert lhs[k] == xs[k];
      } else if k >= n {
        assert lhs[k] == fifo[k];
      }
    }
  }

  /**
    Filling from pointer 0: writing `xs` (at most 255 bytes) puts byte `i`
    at FIFO position `i`, keeps the rest of the FIFO, leaves the pointer
    at `|xs|` and touches no other register.
   */
  lemma {:induction false} FifoFill(s: ChipState, xs: seq<bv8>)
    requires s.WellFormed() && s.FifoPtr() == 0 && |xs| < 256
    ensures WriteFifo(s, xs) ==
      ChipState(s.regs[RegFifoAddrPtr as int := Advance(0, |xs|)], xs + s.fifo[|xs|..], s.log + FillLog(xs))
    ensures Advance(0, |xs|) as int == |xs|
  {
    AdvanceFromZero(|xs|);
    if |xs| == 0 {
      assert s.regs[RegFifoAddrPtr as int := 0] == s.regs;
      assert xs + s.fifo[0..] == s.fifo;
      assert s.log + [] == s.log;
    } else {
      FifoFill(s, xs[..|xs| - 1]);
      FillExtend(s, xs);
    }
  }
}
