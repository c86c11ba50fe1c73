/**
 * The int64 generator: NewInt64Config's layout, the Int64 call on an
 * Int64Config and EnvInt64, on Go's signed 64-bit words.
 *
 * Widths are 5/10/12 bits by default and always total 27, so the time field
 * keeps the top 37 bits of LastTime. Every field is a signed int64: sums
 * wrap around, a shift by a negative count panics, and the id is built on
 * the two's-complement patterns and read back as an int64.
 */
module Int64Id {
  import opened GoWord
  import opened Snowflake
  import opened Env

  const DefaultProcessBits: int64 := 5
  const DefaultServerBits: int64 := 10
  const DefaultSequenceBits: int64 := 12
  const MinProcessBits: int64 := 1
  const MinServerBits: int64 := 1
  const MinSequenceBits: int64 := 12
  const TotalBits: int64 := DefaultProcessBits + DefaultServerBits + DefaultSequenceBits

  /** Every width is an int64 value. */
  predicate Int64Layout(l: Layout)
  {
    MinInt64 <= l.serverBits <= MaxInt64 && MinInt64 <= l.processBits <= MaxInt64
    && MinInt64 <= l.sequenceBits <= MaxInt64
  }

  /**
   * The floors NewInt64Config applies first. A sequence width under its
   * minimum 12 is set to the server minimum, 1.
   */
  function Clamp(serverBits: int64, processBits: int64, sequenceBits: int64): (c: Layout)
    ensures Int64Layout(c)
    ensures c.serverBits == (if serverBits < MinServerBits then MinServerBits else serverBits)
    ensures c.processBits == (if processBits < MinProcessBits then MinProcessBits else processBits)
    ensures c.sequenceBits == (if sequenceBits < MinSequenceBits then MinServerBits else sequenceBits)
  {
    Layout(if serverBits < MinServerBits then MinServerBits else serverBits,
           if processBits < MinProcessBits then MinProcessBits else processBits,
           if sequenceBits < MinSequenceBits then MinServerBits else sequenceBits)
  }

  /**
   * The budget NewInt64Config applies to the floored widths: a sum over
   * 27 falls back to the defaults (server 10, process 5), and a sum under
   * it hands the slack to the sequence. The sums are int64 sums and wrap
   * like Go's.
   */
  function Budget(c: Layout): (l: Layout)
    requires Int64Layout(c) && 1 <= c.serverBits && 1 <= c.processBits
    ensures Int64Layout(l) && 1 <= l.serverBits && 1 <= l.processBits
  {
    var sum := WrapI64(c.processBits + c.serverBits + c.sequenceBits);
    if sum > TotalBits then
      Layout(DefaultServerBits, DefaultProcessBits, DefaultSequenceBits)
    else if sum < TotalBits then
      Layout(c.serverBits, c.processBits, WrapI64(TotalBits - c.processBits - c.serverBits))
    else
      c
  }

  /** The widths NewInt64Config picks: the floors, then the budget. */
  function NewLayout(serverBits: int64, processBits: int64, sequenceBits: int64): (l: Layout)
    ensures Int64Layout(l) && 1 <= l.serverBits && 1 <= l.processBits
  {
    Budget(Clamp(serverBits, processBits, sequenceBits))
  }

  /** Whatever the floored widths, Go's int64 sum of the budgeted widths is 27. */
  lemma BudgetSum(c: Layout)
    requires Int64Layout(c) && 1 <= c.serverBits && 1 <= c.processBits
    ensures WrapI64(TimeShift(Budget(c))) == TotalBits
  {
    var sum := WrapI64(c.processBits + c.serverBits + c.sequenceBits);
    if sum > TotalBits {
      WrapI64Small(TotalBits);
    } else if sum < TotalBits {
      var a, b := c.serverBits + c.processBits, TotalBits - c.processBits - c.serverBits;
      assert TimeShift(Budget(c)) == a + WrapI64(b);
      WrapI64Sum(a, b);
      assert a + b == 27;
      WrapI64Small(27);
    }
  }

  /** Whatever the inputs, Go's int64 sum of the chosen widths is the budget 27. */
  lemma LayoutSum(serverBits: int64, processBits: int64, sequenceBits: int64)
    ensures WrapI64(TimeShift(NewLayout(serverBits, processBits, sequenceBits))) == TotalBits
  {
    BudgetSum(Clamp(serverBits, processBits, sequenceBits));
  }

  /** The floors do not push the width sum past MaxInt64. */
  predicate NoOverflow(serverBits: int64, processBits: int64, sequenceBits: int64)
  {
    TimeShift(Clamp(serverBits, processBits, sequenceBits)) <= MaxInt64
  }

  /**
   * For inputs whose sum does not overflow, the widths add up to exactly 27
   * and each is at least 1; the sequence is not kept at 12 or more.
   */
  lemma LayoutTotal(serverBits: int64, processBits: int64, sequenceBits: int64)
    requires NoOverflow(serverBits, processBits, sequenceBits)
    ensures var l := NewLayout(serverBits, processBits, sequenceBits);
      TimeShift(l) == TotalBits as int
      && l.serverBits >= MinServerBits as int && l.processBits >= MinProcessBits as int
      && l.sequenceBits >= 1
  {
    var c := Clamp(serverBits, processBits, sequenceBits);
    WrapI64Small(TimeShift(c));
    if TimeShift(c) < TotalBits as int {
      WrapI64Small(TotalBits - c.processBits - c.serverBits);
    }
  }

  /**
   * Greedy sequence: a floored sum under the budget keeps the floored
   * server and process widths and gives the rest to the sequence.
   */
  lemma LayoutGreedy(serverBits: int64, processBits: int64, sequenceBits: int64)
    requires NoOverflow(serverBits, processBits, sequenceBits)
    requires TimeShift(Clamp(serverBits, processBits, sequenceBits)) < TotalBits as int
    ensures var c, l := Clamp(serverBits, processBits, sequenceBits), NewLayout(serverBits, processBits, sequenceBits);
      l == Layout(c.serverBits, c.processBits, TotalBits as int - c.processBits - c.serverBits)
  {
    var c := Clamp(serverBits, processBits, sequenceBits);
    WrapI64Small(TimeShift(c));
    WrapI64Small(TotalBits - c.processBits - c.serverBits);
  }

  /** A floored sum over the budget yields the fallback widths 10/5/12. */
  lemma LayoutFallback(serverBits: int64, processBits: int64, sequenceBits: int64)
    requires NoOverflow(serverBits, processBits, sequenceBits)
    requires TimeShift(Clamp(serverBits, processBits, sequenceBits)) > TotalBits as int
    ensures NewLayout(serverBits, processBits, sequenceBits) == Layout(10, 5, 12)
  {
    WrapI64Small(TimeShift(Clamp(serverBits, processBits, sequenceBits)));
  }

  /**
   * DefaultInt64Config passes the default process width as the server
   * width: its layout is server 5, process 10, sequence 12. (0, 0, 0) and
   * (1, 1, 12) give the sequence the 25 bits left; a sequence request of 0
   * is floored to 1, not 12, and kept when the other two fill the budget.
   */
  lemma LayoutExamples()
    ensures NewLayout(DefaultProcessBits, DefaultServerBits, DefaultSequenceBits) == Layout(5, 10, 12)
    ensures NewLayout(0, 0, 0) == Layout(1, 1, 25)
    ensures NewLayout(1, 1, 12) == Layout(1, 1, 25)
    ensures NewLayout(6, 20, 0) == Layout(6, 20, 1)
  {
    WrapI64Small(27);
    WrapI64Small(3);
    WrapI64Small(14);
    WrapI64Small(25);
  }

  /**
   * Huge requests overflow the int64 sum: three widths of 2^62 wrap to a
   * negative sum, which counts as under the budget, and the slack handed
   * to the sequence is negative.
   */
  lemma LayoutOverflow()
    ensures var big := 0x4000_0000_0000_0000;
      NewLayout(big, big, big) == Layout(big, big, 27 - 0x8000_0000_0000_0000)
  {
    var big := 0x4000_0000_0000_0000;
    assert WrapI64(3 * big) == -big by {
      WrapI64Sum(-big, 4 * big);
      assert WrapI64(4 * big) == 0 by {
        Pow2Of64();
      }
      WrapI64Small(-big);
    }
    assert WrapI64(27 - 2 * big) == 27 - 2 * big by {
      WrapI64Small(27 - 2 * big);
    }
  }

  // ---------------------------------------------------------------------------
  // Shift counts

  /**
   * The shift counts Int64 uses are not negative: Go panics on a negative
   * shift count, and each of these is an int64 sum or difference of the
   * widths.
   */
  predicate NoPanic(l: Layout)
  {
    WrapI64(l.serverBits + l.processBits + l.sequenceBits) >= 0
    && WrapI64(l.serverBits - 1) >= 0
    && WrapI64(l.processBits + l.sequenceBits) >= 0
    && WrapI64(l.processBits - 1) >= 0
    && l.sequenceBits >= 0
  }

  /** The two's-complement patterns of the widths. */
  function Patterns(l: Layout): (p: Layout)
    ensures WordLayout(p, 64)
  {
    Layout(Wrap(l.serverBits, 64), Wrap(l.processBits, 64), Wrap(l.sequenceBits, 64))
  }

  /** A layout that keeps the time field has small positive widths: no shift panics. */
  lemma KeepsTimeNoPanic(l: Layout)
    requires KeepsTime(l, 64)
    ensures NoPanic(l) && Patterns(l) == l && WordLayout(l, 64)
  {
    Pow2Of64();
    WrapI64Small(TimeShift(l));
    WrapI64Small(l.serverBits - 1);
    WrapI64Small(l.processBits + l.sequenceBits);
    WrapI64Small(l.processBits - 1);
    WrapSmall(l.serverBits, 64);
    WrapSmall(l.processBits, 64);
    WrapSmall(l.sequenceBits, 64);
  }

  /** A layout NewInt64Config builds from non-overflowing inputs keeps LastTime in the id. */
  lemma LayoutKeepsTime(serverBits: int64, processBits: int64, sequenceBits: int64)
    requires NoOverflow(serverBits, processBits, sequenceBits)
    ensures var l := NewLayout(serverBits, processBits, sequenceBits);
      KeepsTime(l, 64) && TimeShift(l) == 27 && NoPanic(l) && l.sequenceBits <= 25
  {
    LayoutTotal(serverBits, processBits, sequenceBits);
    KeepsTimeNoPanic(NewLayout(serverBits, processBits, sequenceBits));
  }

  /**
   * The value of Go's `2 << (SequenceBits - 1)` on int64: 2^SequenceBits
   * while that fits, MinInt64 at 63 bits, and 0 once the 2 is shifted out
   * of the word. (Go panics when SequenceBits - 1 is negative;
   * Int64Config.CanCall rules that out.)
   */
  function Limit(sequenceBits: int64): int64
  {
    if 1 <= sequenceBits <= 62 then
      SmallPeriod(sequenceBits);
      Pow2(sequenceBits)
    else if sequenceBits == 63 then MinInt64
    else 0
  }

  /**
   * Limit is the shift Go performs: the pattern 2 shifted by the pattern of
   * SequenceBits - 1, read back as an int64. Every width below 1 has a
   * pattern that makes the shift count 2^63 or more.
   */
  lemma LimitShift(sequenceBits: int64)
    ensures Limit(sequenceBits) == ToSigned(TwoShl(Wrap(sequenceBits, 64), 64))
  {
    Pow2Words();
    if 1 <= sequenceBits <= 63 {
      WrapSmall(sequenceBits, 64);
      if sequenceBits < 63 {
        Pow2Strict(sequenceBits, 63);
        WrapNonNegative64(Pow2(sequenceBits));
      }
    } else if sequenceBits < 0 {
      DivModUnique(sequenceBits, Pow2(64), -1, sequenceBits + Pow2(64));
    } else {
      WrapSmall(sequenceBits, 64);
    }
  }

  // ---------------------------------------------------------------------------
  // The state machine

  /** Both fields are int64 values. */
  predicate Int64Tick(t: Tick)
  {
    MinInt64 <= t.lastTime <= MaxInt64 && MinInt64 <= t.sequence <= MaxInt64
  }

  /**
   * One call of Int64 on its state, with Go's signed comparison and
   * wrapping increments: while the custom epoch is not past LastTime, the
   * sequence is incremented, and on reaching the limit it restarts at 0 and
   * LastTime moves on by one; otherwise the state restarts at the epoch.
   */
  function Step(customEpoch: int64, t: Tick, sequenceBits: int64): (r: Tick)
    ensures Int64Tick(t) ==> Int64Tick(r)
  {
    if customEpoch <= t.lastTime then
      var s := WrapI64(t.sequence + 1);
      if s == Limit(sequenceBits) then Tick(WrapI64(t.lastTime + 1), 0) else Tick(t.lastTime, s)
    else
      Tick(customEpoch, 0)
  }

  /** A sequence width of at most 62 bits leaves room in an int64 for 2^SequenceBits and the increment. */
  lemma SmallPeriod(sequenceBits: nat)
    requires sequenceBits <= 62
    ensures 2 * Pow2(sequenceBits) <= MaxInt64 + 1
  {
    Pow2Strict(sequenceBits, 63);
    Pow2Words();
  }

  /** With the epoch at 0, a call keeps the sequence in [0, 2^SequenceBits). */
  lemma StepInRange(t: Tick, sequenceBits: int64)
    requires Int64Tick(t) && 1 <= sequenceBits <= 62
    requires 0 <= t.sequence < Pow2(sequenceBits)
    ensures var r := Step(0, t, sequenceBits);
      0 <= r.sequence < Pow2(sequenceBits)
  {
    SmallPeriod(sequenceBits);
    if 0 <= t.lastTime {
      WrapI64Small(t.sequence + 1);
    }
  }

  /**
   * The state read as one number: LastTime * 2^SequenceBits + Sequence.
   * Snowflake.Counter is the unsigned counterpart; its period comes from the
   * unsigned limit, which differs from the signed Limit at 63 bits, so the
   * signed counter is stated on 2^SequenceBits directly.
   */
  function Counter64(t: Tick, sequenceBits: nat): int
  {
    t.lastTime * Pow2(sequenceBits) + t.sequence
  }

  /** Both ways of moving on by one raise the counter by one. */
  lemma CounterNext(t: Tick, sequenceBits: nat)
    ensures Counter64(Tick(t.lastTime, t.sequence + 1), sequenceBits) == Counter64(t, sequenceBits) + 1
    ensures t.sequence + 1 == Pow2(sequenceBits) ==>
      Counter64(Tick(t.lastTime + 1, 0), sequenceBits) == Counter64(t, sequenceBits) + 1
  {
    var p := Pow2(sequenceBits);
    assert (t.lastTime + 1) * p == t.lastTime * p + p;
  }

  /**
   * While LastTime is below MaxInt64, a call advances the counter by
   * exactly one; the call after the
   * last sequence value restarts the sequence at 0 and moves LastTime on.
   */
  lemma StepCounter(t: Tick, sequenceBits: int64)
    requires 1 <= sequenceBits <= 62
    requires 0 <= t.lastTime < MaxInt64 && 0 <= t.sequence < Pow2(sequenceBits)
    ensures Counter64(Step(0, t, sequenceBits), sequenceBits) == Counter64(t, sequenceBits) + 1
    ensures t.sequence == Pow2(sequenceBits) - 1 ==> Step(0, t, sequenceBits) == Tick(t.lastTime + 1, 0)
  {
    var p := Pow2(sequenceBits);
    SmallPeriod(sequenceBits);
    CounterNext(t, sequenceBits);
    if t.sequence + 1 == p {
      assert Step(0, t, sequenceBits) == Tick(t.lastTime + 1, 0);
    } else {
      assert Step(0, t, sequenceBits) == Tick(t.lastTime, t.sequence + 1);
    }
  }

  /**
   * LastTime overflows: the call after the last sequence value at MaxInt64
   * leaves LastTime at MinInt64; the epoch 0 is then past LastTime, so the
   * call after that restarts the state at (0, 0).
   */
  lemma LastTimeOverflow(t: Tick, sequenceBits: int64)
    requires 1 <= sequenceBits <= 62
    requires t.lastTime == MaxInt64 && t.sequence == Pow2(sequenceBits) - 1
    ensures Step(0, t, sequenceBits) == Tick(MinInt64, 0)
    ensures Step(0, Step(0, t, sequenceBits), sequenceBits) == Tick(0, 0)
  {
    var p := Pow2(sequenceBits);
    SmallPeriod(sequenceBits);
    WrapI64Small(p);
    WrapI64Overflow();
  }

  /** The state after n calls from the state the constructor leaves. */
  function Run64(sequenceBits: int64, n: nat): (r: Tick)
    ensures Int64Tick(r)
  {
    if n == 0 then Tick(0, 0) else Step(0, Run64(sequenceBits, n - 1), sequenceBits)
  }

  /**
   * The n-th call from the fresh state leaves LastTime at n / 2^SequenceBits
   * and Sequence at n % 2^SequenceBits, as long as LastTime has not
   * overflowed.
   */
  lemma {:induction false} FreshRun64(sequenceBits: int64, n: nat)
    requires 1 <= sequenceBits <= 62 && n <= MaxInt64
    ensures var p := Pow2(sequenceBits);
      Run64(sequenceBits, n) == Tick(n / p, n % p)
  {
    var p := Pow2(sequenceBits);
    if n == 0 {
      DivModUnique(0, p, 0, 0);
    } else {
      var m := n - 1;
      FreshRun64(sequenceBits, m);
      var t := Tick(m / p, m % p);
      DivDigits(m, p);
      StepCounter(t, sequenceBits);
      StepInRange(t, sequenceBits);
      var r := Step(0, t, sequenceBits);
      DivModUnique(n, p, r.lastTime, r.sequence);
    }
  }

  /**
   * For a layout that keeps the time field, the first 2^(64-TimeShift) *
   * 2^SequenceBits calls from the fresh state read n as the two digits
   * (LastTime, Sequence) in base 2^SequenceBits, LastTime within its bits.
   */
  lemma FreshDigits(l: Layout, n: nat)
    requires KeepsTime(l, 64)
    requires n < Pow2(64 - TimeShift(l)) * Pow2(l.sequenceBits)
    ensures l.sequenceBits <= 62 && Pow2(l.sequenceBits) <= MaxInt64 && n <= MaxInt64
    ensures var p := Pow2(l.sequenceBits);
      0 <= n / p <= n && TimeFits(l, 64, n / p) && 0 <= n % p < p
      && Run64(l.sequenceBits, n) == Tick(n / p, n % p)
  {
    var q, top := l.sequenceBits, 64 - TimeShift(l);
    var p := Pow2(q);
    assert q <= 62 && n <= MaxInt64 by {
      Pow2Add(top, q);
      SmallPeriod(top + q);
    }
    SmallPeriod(q);
    FreshRun64(q, n);
    DivBelow(n, Pow2(top), p);
    DivDigits(n, p);
  }

  // ---------------------------------------------------------------------------
  // Ids

  /**
   * The id Int64 returns: Go's expression on the two's-complement patterns
   * of its operands, read back as an int64. (The value is the one Go
   * computes when no shift count is negative; Int64Config.CanCall rules the
   * negative counts out.)
   */
  function IdOf(l: Layout, lastTime: int64, serverID: int64, processID: int64, sequence: int64): int64
  {
    ToSigned(Pack(64, Patterns(l), Wrap(lastTime, 64), Wrap(serverID, 64), Wrap(processID, 64), Wrap(sequence, 64)))
  }

  /** The low SequenceBits bits of an id are Sequence. */
  lemma IdLowBits(l: Layout, lastTime: int64, serverID: int64, processID: int64, sequence: int64)
    requires KeepsTime(l, 64)
    requires 0 <= sequence < Pow2(l.sequenceBits)
    ensures IdOf(l, lastTime, serverID, processID, sequence) % Pow2(l.sequenceBits) == sequence
  {
    KeepsTimeNoPanic(l);
    var q := l.sequenceBits;
    assert Wrap(sequence, 64) == sequence && Period(q, 64) == Pow2(q) by {
      Pow2Monotone(q, 64);
      WrapSmall(sequence, 64);
      KeepsTimeShifts(64, l);
    }
    var u := Pack(64, l, Wrap(lastTime, 64), Wrap(serverID, 64), Wrap(processID, 64), sequence);
    assert Proper(l, 64) by {
      Pow2Exceeds(64);
    }
    PackLowBits(64, l, Wrap(lastTime, 64), Wrap(serverID, 64), Wrap(processID, 64), sequence);
    SignedLowBits(u, q);
  }

  /** For a layout that keeps the time field, an id is the Snowflake pack read as an int64. */
  lemma IdOfPack(l: Layout, lastTime: int64, serverID: int64, processID: int64, sequence: int64)
    requires KeepsTime(l, 64) && 0 <= lastTime && 0 <= sequence
    ensures WordLayout(l, 64) && sequence < Pow2(64)
    ensures IdOf(l, lastTime, serverID, processID, sequence)
         == ToSigned(Pack(64, l, lastTime, Wrap(serverID, 64), Wrap(processID, 64), sequence))
  {
    KeepsTimeNoPanic(l);
    WrapNonNegative64(lastTime);
    WrapNonNegative64(sequence);
  }

  /**
   * With bit S of the server id clear, an id determines LastTime and
   * Sequence while LastTime fits the bits above the shift (37 bits for
   * every layout NewInt64Config builds from non-overflowing widths).
   */
  lemma IdInjective(l: Layout, serverID: int64, processID: int64,
                    lastTime1: int64, sequence1: int64, lastTime2: int64, sequence2: int64)
    requires KeepsTime(l, 64)
    requires And(Wrap(serverID, 64), Pow2(l.serverBits)) == 0
    requires 0 <= lastTime1 && TimeFits(l, 64, lastTime1) && 0 <= sequence1 < Pow2(l.sequenceBits)
    requires 0 <= lastTime2 && TimeFits(l, 64, lastTime2) && 0 <= sequence2 < Pow2(l.sequenceBits)
    ensures IdOf(l, lastTime1, serverID, processID, sequence1) == IdOf(l, lastTime2, serverID, processID, sequence2)
      <==> lastTime1 == lastTime2 && sequence1 == sequence2
  {
    PackInjective(64, l, Wrap(serverID, 64), Wrap(processID, 64), lastTime1, sequence1, lastTime2, sequence2);
    IdOfPack(l, lastTime1, serverID, processID, sequence1);
    IdOfPack(l, lastTime2, serverID, processID, sequence2);
  }

  /** The id the n-th call returns from the state the constructor leaves. */
  function FreshId64(l: Layout, serverID: int64, processID: int64, n: nat): int64
    requires Int64Layout(l)
  {
    var t := Run64(l.sequenceBits, n);
    IdOf(l, t.lastTime, serverID, processID, t.sequence)
  }

  /**
   * With bit S of the server id clear, the calls i < j from the fresh state
   * return different ids as long as LastTime stays in the bits above the
   * shift; and every call after the constructor returns a non-zero id.
   * LayoutKeepsTime gives the layout conditions, with 37 bits of LastTime,
   * for every config built from non-overflowing widths.
   */
  lemma DistinctIds(l: Layout, serverID: int64, processID: int64, i: nat, j: nat)
    requires KeepsTime(l, 64)
    requires And(Wrap(serverID, 64), Pow2(l.serverBits)) == 0
    requires i < j < Pow2(64 - TimeShift(l)) * Pow2(l.sequenceBits)
    ensures FreshId64(l, serverID, processID, i) != FreshId64(l, serverID, processID, j)
    ensures 1 <= i ==> FreshId64(l, serverID, processID, i) != 0
  {
    var p := Pow2(l.sequenceBits);
    assert FreshId64(l, serverID, processID, i) != FreshId64(l, serverID, processID, j) by {
      FreshDigits(l, i);
      FreshDigits(l, j);
      DigitsDiffer(i, j, p);
      IdInjective(l, serverID, processID, i / p, i % p, j / p, j % p);
    }
    if 1 <= i {
      NonZeroId(l, serverID, processID, i);
    }
  }

  /** Whatever the server id, every call after the constructor returns a non-zero id while LastTime fits. */
  lemma NonZeroId(l: Layout, serverID: int64, processID: int64, n: nat)
    requires KeepsTime(l, 64)
    requires 1 <= n < Pow2(64 - TimeShift(l)) * Pow2(l.sequenceBits)
    ensures FreshId64(l, serverID, processID, n) != 0
  {
    var p := Pow2(l.sequenceBits);
    FreshDigits(l, n);
    DivDigits(n, p);
    IdNonZero(l, n / p, serverID, processID, n % p);
  }

  /**
   * Whatever the server id, every state but (0, 0) whose LastTime fits
   * gives a non-zero id.
   */
  lemma IdNonZero(l: Layout, lastTime: int64, serverID: int64, processID: int64, sequence: int64)
    requires KeepsTime(l, 64)
    requires 0 <= lastTime && TimeFits(l, 64, lastTime) && 0 <= sequence < Pow2(l.sequenceBits)
    requires lastTime != 0 || sequence != 0
    ensures IdOf(l, lastTime, serverID, processID, sequence) != 0
  {
    IdOfPack(l, lastTime, serverID, processID, sequence);
    KeepsTimeShifts(64, l);
    var u := Pack(64, l, lastTime, Wrap(serverID, 64), Wrap(processID, 64), sequence);
    PackNonZero(64, l, lastTime, Wrap(serverID, 64), Wrap(processID, 64), sequence);
    SignedNonZero(u);
  }

  /**
   * Within the first tick, the calls 1 <= i < j from the fresh state return
   * different, non-zero ids whatever server and process ids each call
   * passes: the low SequenceBits bits of each id are its call number.
   */
  lemma FirstPeriodIds(l: Layout, serverI: int64, processI: int64, serverJ: int64, processJ: int64, i: nat, j: nat)
    requires KeepsTime(l, 64)
    requires 1 <= i < j < Pow2(l.sequenceBits)
    ensures var idI, idJ := FreshId64(l, serverI, processI, i), FreshId64(l, serverJ, processJ, j);
      idI != idJ && idI != 0 && idJ != 0
  {
    var p := Pow2(l.sequenceBits);
    assert j < Pow2(64 - TimeShift(l)) * p by {
      MulAtLeast(Pow2(64 - TimeShift(l)), p);
    }
    FreshDigits(l, i);
    FreshDigits(l, j);
    DivModUnique(i, p, 0, i);
    DivModUnique(j, p, 0, j);
    var idI, idJ := FreshId64(l, serverI, processI, i), FreshId64(l, serverJ, processJ, j);
    assert idI == IdOf(l, 0, serverI, processI, i) && idJ == IdOf(l, 0, serverJ, processJ, j);
    IdLowBits(l, 0, serverI, processI, i);
    IdLowBits(l, 0, serverJ, processJ, j);
    DivModUnique(0, p, 0, 0);
  }

  /** Sequence is within [0, 2^SequenceBits) whenever that range fits an int64. */
  predicate SequenceInRange(t: Tick, sequenceBits: int64)
  {
    1 <= sequenceBits <= 62 ==> 0 <= t.sequence < Pow2(sequenceBits)
  }

  /**
   * What one call keeps, from epoch 0 and a sequence in range: the new
   * sequence is in range, a layout that keeps the time field never makes
   * a shift count negative, and the low SequenceBits bits of the id are
   * the new Sequence.
   */
  lemma SignedCallKeeps(l: Layout, customEpoch: int64, t: Tick, serverID: int64, processID: int64)
    requires Int64Layout(l) && Int64Tick(t)
    ensures var r := Step(customEpoch, t, l.sequenceBits);
      customEpoch == 0 && SequenceInRange(t, l.sequenceBits) ==> SequenceInRange(r, l.sequenceBits)
    ensures KeepsTime(l, 64) ==> NoPanic(l) && WrapI64(l.sequenceBits - 1) >= 0
    ensures var r := Step(customEpoch, t, l.sequenceBits);
      customEpoch == 0 && SequenceInRange(t, l.sequenceBits) && KeepsTime(l, 64) ==>
        IdOf(l, r.lastTime, serverID, processID, r.sequence) % Pow2(l.sequenceBits) == r.sequence
  {
    var q := l.sequenceBits;
    var r := Step(customEpoch, t, q);
    if customEpoch == 0 && 1 <= q <= 62 && SequenceInRange(t, q) {
      StepInRange(t, q);
    }
    if KeepsTime(l, 64) {
      KeepsTimeNoPanic(l);
      WrapI64Small(q - 1);
      if customEpoch == 0 && SequenceInRange(t, q) {
        assert q <= 62 by {
          Pow2Strict(q, 64);
        }
        IdLowBits(l, r.lastTime, serverID, processID, r.sequence);
      }
    }
  }

  // ---------------------------------------------------------------------------
  // Coercions and the environment

  /** Int64's coercion of the server id: anything not positive means 1. */
  function ServerOf(serverID: int64): (s: int64)
    ensures s >= 1
    ensures serverID >= 1 ==> s == serverID
    ensures serverID <= 0 ==> s == 1
  {
    if serverID <= 0 then 1 else serverID
  }

  /** Int64's coercion of the process id: anything not positive means the pid. */
  function ProcessOf(processID: int64, pid: int64): (p: int64)
    ensures processID >= 1 ==> p == processID
    ensures processID <= 0 ==> p == pid
  {
    if processID <= 0 then pid else processID
  }

  /**
   * EnvInt64's checks once both variables are parsed: the server id must
   * parse and be positive, then the process id must parse and not be
   * negative (0 is let through, and Int64 then uses the pid).
   */
  function CheckEnv(serverParse: Option<int64>, processParse: Option<int64>): (r: Result<(int64, int64)>)
    ensures r.Ok? <==> serverParse.Some? && serverParse.value > 0 && processParse.Some? && processParse.value >= 0
    ensures r.Ok? ==> r.value == (serverParse.value, processParse.value)
    ensures r == Err(ServerParse) <==> serverParse.None?
    ensures r == Err(ServerRange) <==> serverParse.Some? && serverParse.value <= 0
    ensures r == Err(ProcessParse) <==> serverParse.Some? && serverParse.value > 0 && processParse.None?
    ensures r == Err(ProcessRange) <==>
      serverParse.Some? && serverParse.value > 0 && processParse.Some? && processParse.value < 0
  {
    if serverParse.None? then Err(ServerParse)
    else if serverParse.value <= 0 then Err(ServerRange)
    else if processParse.None? then Err(ProcessParse)
    else if processParse.value < 0 then Err(ProcessRange)
    else Ok((serverParse.value, processParse.value))
  }

  /** An Int64Config: fixed widths and the mutable (LastTime, Sequence) state. */
  class Int64Config {
    const Epoch: int64
    const CustomEpoch: int64
    var LastTime: int64
    var Sequence: int64
    const ProcessBits: int64
    const ServerBits: int64
    const SequenceBits: int64

    function Widths(): Layout
    {
      Layout(ServerBits, ProcessBits, SequenceBits)
    }

    function State(): Tick
      reads this
    {
      Tick(LastTime, Sequence)
    }

    /** The next Int64 call shifts by no negative count, so it does not panic. */
    predicate CanCall()
      reads this
    {
      NoPanic(Widths()) && (CustomEpoch <= LastTime ==> WrapI64(SequenceBits - 1) >= 0)
    }

    /** What every constructed config keeps: epoch 0 and the sequence below its limit. */
    ghost predicate Valid()
      reads this
    {
      CustomEpoch == 0 && SequenceInRange(State(), SequenceBits)
    }

    /** NewInt64Config, with the clock reading `now` (Unix seconds) as a parameter. */
    constructor (serverBits: int64, processBits: int64, sequenceBits: int64, now: int64)
      ensures Widths() == NewLayout(serverBits, processBits, sequenceBits)
      ensures Epoch == now && CustomEpoch == 0
      ensures State() == Tick(0, 0)
      ensures Valid()
      ensures NoOverflow(serverBits, processBits, sequenceBits) ==> CanCall()
    {
      var l := NewLayout(serverBits, processBits, sequenceBits);
      Epoch := now;
      CustomEpoch := now - now;
      LastTime, Sequence := 0, 0;
      ServerBits, ProcessBits, SequenceBits := l.serverBits, l.processBits, l.sequenceBits;
      if NoOverflow(serverBits, processBits, sequenceBits) {
        LayoutKeepsTime(serverBits, processBits, sequenceBits);
        WrapI64Small(l.sequenceBits - 1);
      }
    }

    /**
     * Int64: one call. The state takes one `Step` and the id packs the new
     * state with the coerced server and process ids. On a valid config
     * whose layout keeps the time field, the low SequenceBits bits of the
     * id are the new Sequence, and the next call cannot panic either.
     */
    method Int64(serverID: int64, processID: int64, pid: int64) returns (id: int64)
      requires CanCall()
      modifies this
      ensures State() == Step(CustomEpoch, old(State()), SequenceBits)
      ensures id == IdOf(Widths(), LastTime, ServerOf(serverID), ProcessOf(processID, pid), Sequence)
      ensures old(Valid()) ==> Valid()
      ensures KeepsTime(Widths(), 64) ==> CanCall()
      ensures old(Valid()) && KeepsTime(Widths(), 64) ==> id % Pow2(SequenceBits) == Sequence
    {
      var server, process := serverID, processID;
      if server <= 0 {
        server := 1;
      }
      if process <= 0 {
        process := pid;
      }
      ghost var t := State();
      if CustomEpoch <= LastTime {
        Sequence := WrapI64(Sequence + 1);
        if Sequence == Limit(SequenceBits) {
          Sequence := 0;
          LastTime := WrapI64(LastTime + 1);
        }
      } else {
        Sequence := 0;
        LastTime := CustomEpoch;
      }
      assert State() == Step(CustomEpoch, t, SequenceBits);
      id := IdOf(Widths(), LastTime, server, process, Sequence);
      SignedCallKeeps(Widths(), CustomEpoch, t, server, process);
    }

    /**
     * EnvInt64 with the two parse results as parameters: a refused input
     * returns 0 and its error and leaves the state alone; otherwise this is
     * an Int64 call.
     */
    method EnvInt64(serverParse: Option<int64>, processParse: Option<int64>, pid: int64)
      returns (id: int64, err: Option<EnvError>)
      requires CheckEnv(serverParse, processParse).Ok? ==> CanCall()
      modifies this
      ensures CheckEnv(serverParse, processParse).Err? ==>
        id == 0 && err == Some(CheckEnv(serverParse, processParse).error) && State() == old(State())
      ensures CheckEnv(serverParse, processParse).Ok? ==>
        err == None
        && State() == Step(CustomEpoch, old(State()), SequenceBits)
        && id == IdOf(Widths(), LastTime, serverParse.value, ProcessOf(processParse.value, pid), Sequence)
      ensures old(Valid()) ==> Valid()
    {
      if serverParse.None? {
        return 0, Some(ServerParse);
      }
      if serverParse.value <= 0 {
        return 0, Some(ServerRange);
      }
      if processParse.None? {
        return 0, Some(ProcessParse);
      }
      if processParse.value < 0 {
        return 0, Some(ProcessRange);
      }
      id := Int64(serverParse.value, processParse.value, pid);
      err := None;
    }
  }
}
