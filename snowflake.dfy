/**
 * What the three generators share: the bit layout, the (LastTime, Sequence)
 * state machine of one call, and the packing of an id, all on w-bit Go words.
 *
 * `Advance` is one call of Uint32 or Uint64 on the state; Int64 has its
 * own signed step (Int64Id.Step). `Pack` is the expression that builds the
 * returned id, with Go's shifts and the `2 << (bits - 1)` masks exactly as
 * written; Int64 applies it to two's-complement patterns.
 */
module Snowflake {
  import opened GoWord

  /** Widths of the server, process and sequence fields below the time field. */
  datatype Layout = Layout(serverBits: int, processBits: int, sequenceBits: int)

  /** The generator's mutable state: the time tick and the sequence within it. */
  datatype Tick = Tick(lastTime: int, sequence: int)

  /** Every width is a w-bit unsigned value. */
  predicate WordLayout(l: Layout, w: nat)
  {
    0 <= l.serverBits < Pow2(w) && 0 <= l.processBits < Pow2(w) && 0 <= l.sequenceBits < Pow2(w)
  }

  /**
   * A layout whose fields all have at least one bit and whose shift counts
   * do not wrap around.
   */
  predicate Proper(l: Layout, w: nat)
  {
    1 <= l.serverBits && 1 <= l.processBits && 1 <= l.sequenceBits
    && l.serverBits + l.processBits + l.sequenceBits < Pow2(w)
  }

  /**
   * How many sequence values one tick holds: Go's limit
   * `2 << (SequenceBits - 1)`, or the whole word when that limit is 0.
   */
  function Period(sequenceBits: nat, w: nat): (p: nat)
    requires 1 <= w && sequenceBits < Pow2(w)
    ensures p == Pow2(if 1 <= sequenceBits < w then sequenceBits else w)
    ensures p <= Pow2(w)
  {
    if 1 <= sequenceBits < w then Pow2Monotone(sequenceBits, w); TwoShl(sequenceBits, w)
    else Pow2(w)
  }

  /** Both fields are w-bit values and the sequence is below its period. */
  predicate InRange(t: Tick, sequenceBits: nat, w: nat)
    requires 1 <= w && sequenceBits < Pow2(w)
  {
    0 <= t.lastTime < Pow2(w) && 0 <= t.sequence < Period(sequenceBits, w)
  }

  /**
   * One call of the unsigned generators on their state (uint32.go and
   * uint64.go): while the custom epoch is not past LastTime, the sequence
   * is incremented, and on reaching Go's limit it restarts at 0 and
   * LastTime moves on by one; otherwise the state restarts at the epoch.
   */
  function Advance(w: nat, customEpoch: nat, t: Tick, sequenceBits: nat): (r: Tick)
    requires 1 <= w && sequenceBits < Pow2(w) && customEpoch < Pow2(w)
    requires 0 <= t.lastTime < Pow2(w) && 0 <= t.sequence < Pow2(w)
    ensures 0 <= r.lastTime < Pow2(w) && 0 <= r.sequence < Pow2(w)
  {
    if customEpoch <= t.lastTime then
      var s := Inc(t.sequence, w);
      if s == TwoShl(sequenceBits, w) then Tick(Inc(t.lastTime, w), 0) else Tick(t.lastTime, s)
    else
      Tick(customEpoch, 0)
  }

  /** The state after n calls. */
  function Run(w: nat, customEpoch: nat, t: Tick, sequenceBits: nat, n: nat): (r: Tick)
    requires 1 <= w && sequenceBits < Pow2(w) && customEpoch < Pow2(w)
    requires 0 <= t.lastTime < Pow2(w) && 0 <= t.sequence < Pow2(w)
    ensures 0 <= r.lastTime < Pow2(w) && 0 <= r.sequence < Pow2(w)
  {
    if n == 0 then t else Advance(w, customEpoch, Run(w, customEpoch, t, sequenceBits, n - 1), sequenceBits)
  }

  /** LastTime and Sequence read as one number: the calls made so far. */
  function Counter(t: Tick, sequenceBits: nat, w: nat): int
    requires 1 <= w && sequenceBits < Pow2(w)
  {
    t.lastTime * Period(sequenceBits, w) + t.sequence
  }

  /** The number of distinct states, after which the counter wraps. */
  function Cycle(sequenceBits: nat, w: nat): (c: nat)
    requires 1 <= w && sequenceBits < Pow2(w)
    ensures c >= 1
  {
    Pow2(w) * Period(sequenceBits, w)
  }

  // ---------------------------------------------------------------------------
  // The state machine

  /** Calls keep the sequence below its period, whatever the epoch. */
  lemma AdvanceInRange(w: nat, customEpoch: nat, t: Tick, sequenceBits: nat)
    requires 1 <= w && sequenceBits < Pow2(w) && customEpoch < Pow2(w)
    requires InRange(t, sequenceBits, w)
    ensures InRange(Advance(w, customEpoch, t, sequenceBits), sequenceBits, w)
  {
    var p := Period(sequenceBits, w);
    if customEpoch <= t.lastTime && t.sequence + 1 == p {
      SequenceWraps(w, t.sequence, sequenceBits);
    }
  }

  /**
   * With the epoch at 0, as every constructor leaves it, a call advances
   * the counter LastTime * Period + Sequence by exactly one, modulo the
   * number of states.
   */
  lemma AdvanceCounter(w: nat, t: Tick, sequenceBits: nat)
    requires 1 <= w && sequenceBits < Pow2(w)
    requires InRange(t, sequenceBits, w)
    ensures Counter(Advance(w, 0, t, sequenceBits), sequenceBits, w)
         == (Counter(t, sequenceBits, w) + 1) % Cycle(sequenceBits, w)
  {
    var p, T := Period(sequenceBits, w), Pow2(w);
    var r := Advance(w, 0, t, sequenceBits);
    if t.sequence + 1 < p {
      assert r == Tick(t.lastTime, t.sequence + 1);
    } else {
      assert r == Tick((t.lastTime + 1) % T, 0) by {
        SequenceWraps(w, t.sequence, sequenceBits);
        IncWrap(t.lastTime, w);
      }
    }
    MulCarry(t.lastTime, t.sequence, T, p);
  }

  /** Incrementing the last sequence value of a tick hits Go's limit. */
  lemma SequenceWraps(w: nat, sequence: nat, sequenceBits: nat)
    requires 1 <= w && sequenceBits < Pow2(w)
    requires sequence + 1 == Period(sequenceBits, w)
    ensures Inc(sequence, w) == TwoShl(sequenceBits, w)
  {
    if 1 <= sequenceBits < w {
      Pow2Strict(sequenceBits, w);
    }
  }

  /**
   * Rollover: the call after the last sequence value of a tick restarts
   * the sequence at 0 and moves LastTime on by one, without blocking.
   */
  lemma AdvanceRollover(w: nat, t: Tick, sequenceBits: nat)
    requires 1 <= w && sequenceBits < Pow2(w)
    requires InRange(t, sequenceBits, w)
    requires t.sequence == Period(sequenceBits, w) - 1
    ensures Advance(w, 0, t, sequenceBits) == Tick(Inc(t.lastTime, w), 0)
  {
    SequenceWraps(w, t.sequence, sequenceBits);
  }

  /** After n calls the counter has moved on by n, modulo the number of states. */
  lemma {:induction false} RunCounter(w: nat, t: Tick, sequenceBits: nat, n: nat)
    requires 1 <= w && sequenceBits < Pow2(w)
    requires InRange(t, sequenceBits, w)
    ensures InRange(Run(w, 0, t, sequenceBits, n), sequenceBits, w)
    ensures Counter(Run(w, 0, t, sequenceBits, n), sequenceBits, w)
         == (Counter(t, sequenceBits, w) + n) % Cycle(sequenceBits, w)
  {
    var c := Counter(t, sequenceBits, w);
    if n == 0 {
      CounterBelowCycle(t, sequenceBits, w);
      DivModUnique(c, Cycle(sequenceBits, w), 0, c);
    } else {
      var prev := Run(w, 0, t, sequenceBits, n - 1);
      RunCounter(w, t, sequenceBits, n - 1);
      AdvanceInRange(w, 0, prev, sequenceBits);
      AdvanceCounter(w, prev, sequenceBits);
      ModAddOne(c + n - 1, Cycle(sequenceBits, w));
    }
  }

  lemma CounterBelowCycle(t: Tick, sequenceBits: nat, w: nat)
    requires 1 <= w && sequenceBits < Pow2(w)
    requires InRange(t, sequenceBits, w)
    ensures 0 <= Counter(t, sequenceBits, w) < Cycle(sequenceBits, w)
  {
    MulBelow(t.lastTime, t.sequence, Pow2(w), Period(sequenceBits, w));
  }

  /** A state is recovered from its counter. */
  lemma CounterDecode(t: Tick, sequenceBits: nat, w: nat)
    requires 1 <= w && sequenceBits < Pow2(w)
    requires InRange(t, sequenceBits, w)
    ensures t.sequence == Counter(t, sequenceBits, w) % Period(sequenceBits, w)
    ensures t.lastTime == Counter(t, sequenceBits, w) / Period(sequenceBits, w)
  {
    DivModUnique(Counter(t, sequenceBits, w), Period(sequenceBits, w), t.lastTime, t.sequence);
  }

  /**
   * From the state every constructor makes, the n-th call leaves the
   * sequence at n modulo the period.
   */
  lemma FreshSequence(w: nat, sequenceBits: nat, n: nat)
    requires 1 <= w && sequenceBits < Pow2(w)
    ensures Run(w, 0, Tick(0, 0), sequenceBits, n).sequence == n % Period(sequenceBits, w)
  {
    var p := Period(sequenceBits, w);
    var r := Run(w, 0, Tick(0, 0), sequenceBits, n);
    RunCounter(w, Tick(0, 0), sequenceBits, n);
    CounterDecode(r, sequenceBits, w);
    ModMod(n, p, Pow2(w));
    assert Cycle(sequenceBits, w) == p * Pow2(w);
  }

  /** From the fresh state, the sequence repeats with the period. */
  lemma SequenceRepeats(w: nat, sequenceBits: nat, k: nat)
    requires 1 <= w && sequenceBits < Pow2(w)
    ensures var p := Period(sequenceBits, w);
      Run(w, 0, Tick(0, 0), sequenceBits, k).sequence == Run(w, 0, Tick(0, 0), sequenceBits, k + p).sequence
  {
    var p := Period(sequenceBits, w);
    FreshSequence(w, sequenceBits, k);
    FreshSequence(w, sequenceBits, k + p);
    MulAddMod(1, p, k);
  }

  // ---------------------------------------------------------------------------
  // Packing

  /** LastTime << (S + P + Q), S, P, Q the server, process and sequence widths. */
  function TimeField(w: nat, l: Layout, lastTime: nat): (f: nat)
    requires 1 <= w && WordLayout(l, w)
    ensures f < Pow2(w)
  {
    Shl(lastTime, Wrap(l.serverBits + l.processBits + l.sequenceBits, w), w)
  }

  /** (serverID & (2 << (S - 1))) << (P + Q) */
  function ServerField(w: nat, l: Layout, serverID: nat): (f: nat)
    requires 1 <= w && WordLayout(l, w)
    ensures f < Pow2(w)
  {
    Shl(And(serverID, TwoShl(l.serverBits, w)), Wrap(l.processBits + l.sequenceBits, w), w)
  }

  /** (processID & (2 << (P - 1))) << Q */
  function ProcessField(w: nat, l: Layout, processID: nat): (f: nat)
    requires 1 <= w && WordLayout(l, w)
    ensures f < Pow2(w)
  {
    Shl(And(processID, TwoShl(l.processBits, w)), l.sequenceBits, w)
  }

  /** The part of an id above the sequence, on w-bit words. */
  function Fields(w: nat, l: Layout, lastTime: nat, serverID: nat, processID: nat): (f: nat)
    requires 1 <= w && WordLayout(l, w)
    ensures f < Pow2(w)
  {
    var time, server, process := TimeField(w, l, lastTime), ServerField(w, l, serverID), ProcessField(w, l, processID);
    OrBound(time, server, w);
    OrBound(Or(time, server), process, w);
    Or(Or(time, server), process)
  }

  /** The id Go builds: the fields above, or-ed with the sequence. */
  function Pack(w: nat, l: Layout, lastTime: nat, serverID: nat, processID: nat, sequence: nat): (id: nat)
    requires 1 <= w && WordLayout(l, w) && sequence < Pow2(w)
    ensures id < Pow2(w)
  {
    var f := Fields(w, l, lastTime, serverID, processID);
    OrBound(f, sequence, w);
    Or(f, sequence)
  }

  /**
   * The id the n-th call returns when every call starts from the state the
   * constructor leaves (CustomEpoch 0, LastTime 0, Sequence 0).
   */
  function FreshId(w: nat, l: Layout, serverID: nat, processID: nat, n: nat): (id: nat)
    requires 1 <= w && WordLayout(l, w)
    ensures id < Pow2(w)
  {
    var t := Run(w, 0, Tick(0, 0), l.sequenceBits, n);
    Pack(w, l, t.lastTime, serverID, processID, t.sequence)
  }

  /** The number of low bits the sequence owns: SequenceBits, at most the word. */
  function LowWidth(l: Layout, w: nat): (k: nat)
    requires 1 <= w && WordLayout(l, w) && Proper(l, w)
    ensures Pow2(k) == Period(l.sequenceBits, w)
    ensures k <= w && k <= l.sequenceBits
  {
    if l.sequenceBits < w then l.sequenceBits else w
  }

  lemma TimeFieldClear(w: nat, l: Layout, lastTime: nat)
    requires 1 <= w && WordLayout(l, w) && Proper(l, w)
    ensures TimeField(w, l, lastTime) % Pow2(LowWidth(l, w)) == 0
  {
    var n := l.serverBits + l.processBits + l.sequenceBits;
    WrapSmall(n, w);
    ShlMultiple(lastTime, n, w, LowWidth(l, w));
  }

  lemma ServerFieldClear(w: nat, l: Layout, serverID: nat)
    requires 1 <= w && WordLayout(l, w) && Proper(l, w)
    ensures ServerField(w, l, serverID) % Pow2(LowWidth(l, w)) == 0
  {
    var n := l.processBits + l.sequenceBits;
    WrapSmall(n, w);
    ShlMultiple(And(serverID, TwoShl(l.serverBits, w)), n, w, LowWidth(l, w));
  }

  lemma ProcessFieldClear(w: nat, l: Layout, processID: nat)
    requires 1 <= w && WordLayout(l, w) && Proper(l, w)
    ensures ProcessField(w, l, processID) % Pow2(LowWidth(l, w)) == 0
  {
    ShlMultiple(And(processID, TwoShl(l.processBits, w)), l.sequenceBits, w, LowWidth(l, w));
  }

  /** Every field is shifted left by at least SequenceBits. */
  lemma FieldsClearLowBits(w: nat, l: Layout, lastTime: nat, serverID: nat, processID: nat)
    requires 1 <= w && WordLayout(l, w) && Proper(l, w)
    ensures Fields(w, l, lastTime, serverID, processID) % Period(l.sequenceBits, w) == 0
  {
    var k := LowWidth(l, w);
    var time, server, process := TimeField(w, l, lastTime), ServerField(w, l, serverID), ProcessField(w, l, processID);
    TimeFieldClear(w, l, lastTime);
    ServerFieldClear(w, l, serverID);
    ProcessFieldClear(w, l, processID);
    OrMultiple(time, server, k);
    OrMultiple(Or(time, server), process, k);
  }

  /** The low bits of an id are the sequence. */
  lemma PackLowBits(w: nat, l: Layout, lastTime: nat, serverID: nat, processID: nat, sequence: nat)
    requires 1 <= w && WordLayout(l, w) && Proper(l, w)
    requires sequence < Period(l.sequenceBits, w)
    ensures Pack(w, l, lastTime, serverID, processID, sequence) % Period(l.sequenceBits, w) == sequence
  {
    var k := LowWidth(l, w);
    FieldsClearLowBits(w, l, lastTime, serverID, processID);
    OrLowTerm(Fields(w, l, lastTime, serverID, processID), sequence, k);
  }

  /**
   * What one call keeps from epoch 0, as every constructor leaves it: a
   * sequence below its period stays there, and in a proper layout the low
   * bits of the id packed from the new state are the new sequence.
   */
  lemma CallKeeps(w: nat, l: Layout, t: Tick, serverID: nat, processID: nat)
    requires 1 <= w && WordLayout(l, w)
    requires 0 <= t.lastTime < Pow2(w) && 0 <= t.sequence < Period(l.sequenceBits, w)
    ensures var r := Advance(w, 0, t, l.sequenceBits);
      r.sequence < Period(l.sequenceBits, w)
      && (Proper(l, w) ==> Pack(w, l, r.lastTime, serverID, processID, r.sequence) % Period(l.sequenceBits, w) == r.sequence)
  {
    var r := Advance(w, 0, t, l.sequenceBits);
    AdvanceInRange(w, 0, t, l.sequenceBits);
    if Proper(l, w) {
      PackLowBits(w, l, r.lastTime, serverID, processID, r.sequence);
    }
  }

  /**
   * The first Period - 1 calls on a fresh state return non-zero, pairwise
   * distinct ids, whatever server and process ids each call passes.
   */
  lemma FreshIdsDistinct(w: nat, l: Layout, i: nat, j: nat,
                         serverI: nat, processI: nat, serverJ: nat, processJ: nat)
    requires 1 <= w && WordLayout(l, w) && Proper(l, w)
    requires 1 <= i < j < Period(l.sequenceBits, w)
    ensures var idI, idJ := FreshId(w, l, serverI, processI, i), FreshId(w, l, serverJ, processJ, j);
      idI != idJ && idI != 0 && idJ != 0
  {
    var p := Period(l.sequenceBits, w);
    var ti, tj := Run(w, 0, Tick(0, 0), l.sequenceBits, i), Run(w, 0, Tick(0, 0), l.sequenceBits, j);
    FreshSequence(w, l.sequenceBits, i);
    FreshSequence(w, l.sequenceBits, j);
    DivModUnique(i, p, 0, i);
    DivModUnique(j, p, 0, j);
    PackLowBits(w, l, ti.lastTime, serverI, processI, ti.sequence);
    PackLowBits(w, l, tj.lastTime, serverJ, processJ, tj.sequence);
  }

  /**
   * From the state every constructor makes, before the counter wraps, the
   * n-th call leaves LastTime at n / Period and Sequence at n % Period.
   */
  lemma FreshRun(w: nat, sequenceBits: nat, n: nat)
    requires 1 <= w && sequenceBits < Pow2(w)
    requires n < Cycle(sequenceBits, w)
    ensures Run(w, 0, Tick(0, 0), sequenceBits, n)
         == Tick(n / Period(sequenceBits, w), n % Period(sequenceBits, w))
  {
    var r := Run(w, 0, Tick(0, 0), sequenceBits, n);
    RunCounter(w, Tick(0, 0), sequenceBits, n);
    DivModUnique(n, Cycle(sequenceBits, w), 0, n);
    CounterDecode(r, sequenceBits, w);
  }

  /** The width of everything below the time field. */
  function TimeShift(l: Layout): int
  {
    l.serverBits + l.processBits + l.sequenceBits
  }

  /**
   * A layout whose time field starts inside the word, so that LastTime is
   * kept in the id (uint64, int64); lastTime then fits in the bits left.
   */
  predicate KeepsTime(l: Layout, w: nat)
  {
    1 <= l.serverBits && 1 <= l.processBits && 1 <= l.sequenceBits && TimeShift(l) < w
  }

  /** LastTime fits in the bits of the word above the shift. */
  predicate TimeFits(l: Layout, w: nat, lastTime: nat)
  {
    TimeShift(l) <= w && lastTime < Pow2(w - TimeShift(l))
  }

  /** The shift counts of a layout that keeps the time field do not wrap. */
  lemma KeepsTimeShifts(w: nat, l: Layout)
    requires 1 <= w && KeepsTime(l, w)
    ensures Wrap(TimeShift(l), w) == TimeShift(l)
    ensures Wrap(l.processBits + l.sequenceBits, w) == l.processBits + l.sequenceBits
    ensures Period(l.sequenceBits, w) == Pow2(l.sequenceBits)
  {
    Pow2Exceeds(w);
    WrapSmall(TimeShift(l), w);
    WrapSmall(l.processBits + l.sequenceBits, w);
  }

  /**
   * With bit S of the server id clear, an id is the exact sum of its
   * fields: LastTime * 2^(S+P+Q) + (bit P of the process id) * 2^(P+Q)
   * + Sequence. (The server field is always 0 then: the mask keeps bit S
   * alone.)
   */
  lemma PackValue(w: nat, l: Layout, lastTime: nat, serverID: nat, processID: nat, sequence: nat)
    requires 1 <= w && WordLayout(l, w) && KeepsTime(l, w)
    requires And(serverID, Pow2(l.serverBits)) == 0
    requires lastTime < Pow2(w - TimeShift(l)) && sequence < Period(l.sequenceBits, w)
    ensures Pack(w, l, lastTime, serverID, processID, sequence)
         == lastTime * Pow2(TimeShift(l)) + ProcessPart(l, processID) + sequence
  {
    var n, q := TimeShift(l), l.sequenceBits;
    KeepsTimeShifts(w, l);
    var time := lastTime * Pow2(n);
    var process := ProcessPart(l, processID);
    assert Fields(w, l, lastTime, serverID, processID) == time + process by {
      FieldsValue(w, l, lastTime, serverID, processID);
    }
    assert (time + process) % Pow2(q) == 0 by {
      PowMultiple(lastTime, n, q);
      ProcessBelowTime(l, processID);
      ModSumZero(time, process, Pow2(q));
    }
    OrDisjoint(time + process, sequence, q);
  }

  lemma FieldsValue(w: nat, l: Layout, lastTime: nat, serverID: nat, processID: nat)
    requires 1 <= w && WordLayout(l, w) && KeepsTime(l, w)
    requires And(serverID, Pow2(l.serverBits)) == 0
    requires lastTime < Pow2(w - TimeShift(l))
    ensures Fields(w, l, lastTime, serverID, processID)
         == lastTime * Pow2(TimeShift(l)) + ProcessPart(l, processID)
  {
    var n := TimeShift(l);
    var time := lastTime * Pow2(n);
    var process := ProcessField(w, l, processID);
    assert TimeField(w, l, lastTime) == time by {
      TimeFieldValue(w, l, lastTime);
    }
    assert ServerField(w, l, serverID) == 0 by {
      ServerFieldZero(w, l, serverID);
    }
    assert process == ProcessPart(l, processID) by {
      ProcessFieldValue(w, l, processID);
    }
    assert time % Pow2(n) == 0 by {
      MulMod(lastTime, Pow2(n));
    }
    assert process < Pow2(n) by {
      ProcessBelowTime(l, processID);
    }
    assert Fields(w, l, lastTime, serverID, processID) == Or(time, process);
    OrDisjoint(time, process, n);
  }

  /**
   * The process field when nothing wraps: bit P of the process id, the one
   * bit the mask 2 << (P - 1) keeps, moved up to bit P + Q.
   */
  function ProcessPart(l: Layout, processID: nat): (f: nat)
    requires 0 <= l.processBits && 0 <= l.sequenceBits
    ensures f == 0 || f == Pow2(l.processBits + l.sequenceBits)
  {
    if And(processID, Pow2(l.processBits)) == 0 then 0 else Pow2(l.processBits + l.sequenceBits)
  }

  lemma TimeFieldValue(w: nat, l: Layout, lastTime: nat)
    requires 1 <= w && WordLayout(l, w) && KeepsTime(l, w)
    requires lastTime < Pow2(w - TimeShift(l))
    ensures TimeField(w, l, lastTime) == lastTime * Pow2(TimeShift(l))
  {
    var n := TimeShift(l);
    KeepsTimeShifts(w, l);
    assert lastTime * Pow2(n) < Pow2(w) by {
      Pow2Add(w - n, n);
      MulBelow(lastTime, 0, Pow2(w - n), Pow2(n));
    }
    ShlExact(lastTime, n, w);
  }

  lemma ProcessFieldValue(w: nat, l: Layout, processID: nat)
    requires 1 <= w && WordLayout(l, w) && KeepsTime(l, w)
    ensures ProcessField(w, l, processID) == ProcessPart(l, processID)
  {
    var p, q := l.processBits, l.sequenceBits;
    var masked := And(processID, Pow2(p));
    var field := ProcessField(w, l, processID);
    assert field == Shl(masked, q, w) by {
      assert TwoShl(p, w) == Pow2(p);
    }
    AndPow2(processID, p);
    if masked == 0 {
      assert field == 0 by {
        ShlZero(q, w);
      }
    } else {
      assert masked * Pow2(q) == Pow2(p + q) < Pow2(w) by {
        Pow2Add(p, q);
        Pow2Strict(p + q, w);
      }
      ShlExact(masked, q, w);
    }
  }

  /** The process field sits in one bit below the time field, above the sequence. */
  lemma ProcessBelowTime(l: Layout, processID: nat)
    requires 1 <= l.serverBits && 1 <= l.processBits && 1 <= l.sequenceBits
    ensures var f := ProcessPart(l, processID);
      f % Pow2(l.sequenceBits) == 0 && f + Pow2(l.sequenceBits) <= Pow2(TimeShift(l))
  {
    var p, q := l.processBits, l.sequenceBits;
    var f := ProcessPart(l, processID);
    assert f + Pow2(q) <= Pow2(TimeShift(l)) by {
      Pow2Strict(q, p + q);
      Pow2Strict(p + q, TimeShift(l));
    }
    if f != 0 {
      assert f == Pow2(p) * Pow2(q) by {
        Pow2Add(p, q);
      }
      MulMod(Pow2(p), Pow2(q));
    }
  }

  lemma LowBelowTime(l: Layout, processID: nat, sequence: nat)
    requires 1 <= l.serverBits && 1 <= l.processBits && 1 <= l.sequenceBits
    requires sequence < Pow2(l.sequenceBits)
    ensures ProcessPart(l, processID) + sequence < Pow2(TimeShift(l))
  {
    ProcessBelowTime(l, processID);
  }

  lemma ModSumZero(a: int, b: int, d: int)
    requires d > 0 && a % d == 0 && b % d == 0
    ensures (a + b) % d == 0
  {
    DivModUnique(a + b, d, a / d + b / d, 0);
  }

  /**
   * For fixed server and process ids with bit S of the server id clear, an
   * id determines LastTime and Sequence: ids are injective in the state.
   */
  lemma PackInjective(w: nat, l: Layout, serverID: nat, processID: nat,
                      lastTime1: nat, sequence1: nat, lastTime2: nat, sequence2: nat)
    requires 1 <= w && KeepsTime(l, w)
    requires And(serverID, Pow2(l.serverBits)) == 0
    requires TimeFits(l, w, lastTime1) && sequence1 < Pow2(l.sequenceBits)
    requires TimeFits(l, w, lastTime2) && sequence2 < Pow2(l.sequenceBits)
    ensures WordLayout(l, w) && Pow2(l.sequenceBits) < Pow2(w)
    ensures Pack(w, l, lastTime1, serverID, processID, sequence1) == Pack(w, l, lastTime2, serverID, processID, sequence2)
        <==> lastTime1 == lastTime2 && sequence1 == sequence2
  {
    Pow2Exceeds(w);
    Pow2Strict(l.sequenceBits, w);
    KeepsTimeShifts(w, l);
    var n, b := Pow2(TimeShift(l)), ProcessPart(l, processID);
    PackDigits(w, l, lastTime1, serverID, processID, sequence1);
    PackDigits(w, l, lastTime2, serverID, processID, sequence2);
    DigitsUnique(n, lastTime1, b + sequence1, lastTime2, b + sequence2);
  }

  /** An id as two digits in base 2^(S+P+Q): LastTime above, the process bit and Sequence below. */
  lemma PackDigits(w: nat, l: Layout, lastTime: nat, serverID: nat, processID: nat, sequence: nat)
    requires 1 <= w && WordLayout(l, w) && KeepsTime(l, w)
    requires And(serverID, Pow2(l.serverBits)) == 0
    requires lastTime < Pow2(w - TimeShift(l)) && sequence < Period(l.sequenceBits, w)
    ensures var low := ProcessPart(l, processID) + sequence;
      0 <= low < Pow2(TimeShift(l))
      && Pack(w, l, lastTime, serverID, processID, sequence) == lastTime * Pow2(TimeShift(l)) + low
  {
    assert sequence < Pow2(l.sequenceBits) by {
      KeepsTimeShifts(w, l);
    }
    LowBelowTime(l, processID, sequence);
    PackValue(w, l, lastTime, serverID, processID, sequence);
  }

  /** Two numbers written with the same base n and in-range low digits agree digit by digit. */
  lemma DigitsUnique(n: int, hi1: int, lo1: int, hi2: int, lo2: int)
    requires 0 <= lo1 < n && 0 <= lo2 < n
    ensures hi1 * n + lo1 == hi2 * n + lo2 <==> hi1 == hi2 && lo1 == lo2
  {
    if hi1 * n + lo1 == hi2 * n + lo2 {
      DivModUnique(hi1 * n + lo1, n, hi1, lo1);
      DivModUnique(hi2 * n + lo2, n, hi2, lo2);
    }
  }

  /**
   * From a fresh state, the ids of calls i < j differ as long as LastTime
   * still fits in the bits above the fields and bit S of the server id is
   * clear.
   */
  lemma UniqueIds(w: nat, l: Layout, serverID: nat, processID: nat, timeBits: nat, i: nat, j: nat)
    requires 1 <= w && WordLayout(l, w) && KeepsTime(l, w) && timeBits == w - TimeShift(l)
    requires And(serverID, Pow2(l.serverBits)) == 0
    requires i < j < Pow2(timeBits) * Pow2(l.sequenceBits)
    ensures FreshId(w, l, serverID, processID, i) != FreshId(w, l, serverID, processID, j)
    ensures 1 <= i ==> FreshId(w, l, serverID, processID, i) != 0
  {
    var p := Pow2(l.sequenceBits);
    FreshState(w, l, timeBits, i);
    FreshState(w, l, timeBits, j);
    DigitsDiffer(i, j, p);
    PackInjective(w, l, serverID, processID, i / p, i % p, j / p, j % p);
    if 1 <= i {
      FreshNonZero(w, l, serverID, processID, timeBits, i);
    }
  }

  /**
   * While LastTime fits above the shift, call n leaves the fresh state at
   * the two digits of n in base 2^SequenceBits.
   */
  lemma FreshState(w: nat, l: Layout, timeBits: nat, n: nat)
    requires 1 <= w && WordLayout(l, w) && KeepsTime(l, w) && timeBits == w - TimeShift(l)
    requires n < Pow2(timeBits) * Pow2(l.sequenceBits)
    ensures Period(l.sequenceBits, w) == Pow2(l.sequenceBits)
    ensures var p := Pow2(l.sequenceBits);
      n / p < Pow2(timeBits) && n % p < p && Run(w, 0, Tick(0, 0), l.sequenceBits, n) == Tick(n / p, n % p)
  {
    var q := l.sequenceBits;
    var p := Pow2(q);
    assert Period(q, w) == p by {
      KeepsTimeShifts(w, l);
    }
    assert n < Cycle(q, w) by {
      Pow2Monotone(timeBits, w);
      MulMonotoneLeft(Pow2(timeBits), Pow2(w), p);
    }
    DivBelow(n, Pow2(timeBits), p);
    FreshRun(w, q, n);
  }

  /**
   * Whatever the server id, every call n >= 1 from the fresh state returns
   * a non-zero id while LastTime fits above the shift.
   */
  lemma FreshNonZero(w: nat, l: Layout, serverID: nat, processID: nat, timeBits: nat, n: nat)
    requires 1 <= w && WordLayout(l, w) && KeepsTime(l, w) && timeBits == w - TimeShift(l)
    requires 1 <= n < Pow2(timeBits) * Pow2(l.sequenceBits)
    ensures FreshId(w, l, serverID, processID, n) != 0
  {
    var p := Pow2(l.sequenceBits);
    FreshState(w, l, timeBits, n);
    assert n / p != 0 || n % p != 0 by {
      DivDigits(n, p);
    }
    PackNonZero(w, l, n / p, serverID, processID, n % p);
  }

  /**
   * Every state but (0, 0) whose LastTime fits packs to a non-zero id: with
   * bit S of the server id clear, LastTime or Sequence shows in it; with
   * that bit set, the server field alone is non-zero.
   */
  lemma PackNonZero(w: nat, l: Layout, lastTime: nat, serverID: nat, processID: nat, sequence: nat)
    requires 1 <= w && WordLayout(l, w) && KeepsTime(l, w)
    requires TimeFits(l, w, lastTime) && sequence < Period(l.sequenceBits, w)
    requires lastTime != 0 || sequence != 0
    ensures Pack(w, l, lastTime, serverID, processID, sequence) != 0
  {
    if And(serverID, Pow2(l.serverBits)) == 0 {
      PackValue(w, l, lastTime, serverID, processID, sequence);
      if lastTime != 0 {
        MulAtLeast(lastTime, Pow2(TimeShift(l)));
      }
    } else {
      ServerFieldValue(w, l, serverID);
    }
  }

  /** Two numbers with the same quotient and remainder are equal. */
  lemma DigitsDiffer(i: int, j: int, d: int)
    requires d > 0 && i != j
    ensures i / d != j / d || i % d != j % d
  {
  }

  lemma MulMonotoneLeft(a: nat, b: nat, c: nat)
    requires a <= b
    ensures a * c <= b * c
  {
  }

  lemma DivBelow(x: nat, a: nat, d: nat)
    requires d > 0 && x < a * d
    ensures x / d < a
  {
    if x / d >= a {
      MulMonotoneLeft(a, x / d, d);
      assert false;
    }
  }

  /**
   * The mask keeps bit S of the server id and shifts it to bit S + P + Q,
   * the lowest bit of the time field: with that bit set, the id at
   * LastTime 0 equals the id at LastTime 1.
   */
  lemma MaskCollision(w: nat, l: Layout, serverID: nat, processID: nat, sequence: nat)
    requires 1 <= w && WordLayout(l, w) && KeepsTime(l, w)
    requires And(serverID, Pow2(l.serverBits)) != 0
    requires sequence < Pow2(w)
    ensures Pack(w, l, 0, serverID, processID, sequence) == Pack(w, l, 1, serverID, processID, sequence)
  {
    var n := TimeShift(l);
    var server := ServerField(w, l, serverID);
    assert TimeField(w, l, 1) == Pow2(n) by {
      Pow2Monotone(1, w - n);
      TimeFieldValue(w, l, 1);
    }
    assert TimeField(w, l, 0) == 0 by {
      ShlZero(Wrap(n, w), w);
    }
    assert server == Pow2(n) by {
      ServerFieldValue(w, l, serverID);
    }
    assert Or(Pow2(n), server) == Or(0, server) by {
      OrIdempotent(Pow2(n));
    }
  }

  /**
   * With bit S of the server id set, call k (k >= 1) and call k + 2^Q on a fresh
   * state return the same id: the second tick's LastTime bit is hidden by
   * the server bit.
   */
  lemma DuplicateIds(w: nat, l: Layout, serverID: nat, processID: nat, k: nat)
    requires 1 <= w && WordLayout(l, w) && KeepsTime(l, w)
    requires And(serverID, Pow2(l.serverBits)) != 0
    requires 1 <= k < Pow2(l.sequenceBits)
    ensures FreshId(w, l, serverID, processID, k) == FreshId(w, l, serverID, processID, k + Pow2(l.sequenceBits))
  {
    FreshTicks(w, l, k);
    MaskCollision(w, l, serverID, processID, k);
  }

  /** From the fresh state, call k and call k + 2^Q differ only in LastTime. */
  lemma FreshTicks(w: nat, l: Layout, k: nat)
    requires 1 <= w && WordLayout(l, w) && KeepsTime(l, w) && k < Pow2(l.sequenceBits)
    ensures Run(w, 0, Tick(0, 0), l.sequenceBits, k) == Tick(0, k)
    ensures Run(w, 0, Tick(0, 0), l.sequenceBits, k + Pow2(l.sequenceBits)) == Tick(1, k)
  {
    var q := l.sequenceBits;
    var p := Pow2(q);
    assert Period(q, w) == p && k < Pow2(w) by {
      KeepsTimeShifts(w, l);
      Pow2Monotone(q, w);
    }
    assert k + p < Cycle(q, w) by {
      Pow2Monotone(1, w);
      MulMonotoneLeft(2, Pow2(w), p);
    }
    assert Run(w, 0, Tick(0, 0), q, k) == Tick(0, k) by {
      FreshRun(w, q, k);
      DivModUnique(k, p, 0, k);
    }
    assert Run(w, 0, Tick(0, 0), q, k + p) == Tick(1, k) by {
      FreshRun(w, q, k + p);
      DivModUnique(k + p, p, 1, k);
    }
  }

  lemma ServerFieldZero(w: nat, l: Layout, serverID: nat)
    requires 1 <= w && WordLayout(l, w) && KeepsTime(l, w)
    requires And(serverID, Pow2(l.serverBits)) == 0
    ensures ServerField(w, l, serverID) == 0
  {
    assert TwoShl(l.serverBits, w) == Pow2(l.serverBits);
    ShlZero(Wrap(l.processBits + l.sequenceBits, w), w);
  }

  lemma ServerFieldValue(w: nat, l: Layout, serverID: nat)
    requires 1 <= w && WordLayout(l, w) && KeepsTime(l, w)
    requires And(serverID, Pow2(l.serverBits)) != 0
    ensures ServerField(w, l, serverID) == Pow2(TimeShift(l))
  {
    var s, pq := l.serverBits, l.processBits + l.sequenceBits;
    AndPow2(serverID, s);
    KeepsTimeShifts(w, l);
    assert TwoShl(s, w) == Pow2(s);
    Pow2Add(s, pq);
    Pow2Strict(TimeShift(l), w);
    ShlExact(Pow2(s), pq, w);
  }

  /**
   * When the time shift S + P + Q reaches the word width, Go's shift drops
   * LastTime entirely (uint32, whose layouts always total 35 bits): the id
   * does not depend on LastTime.
   */
  lemma TimeDropped(w: nat, l: Layout, lastTime1: nat, lastTime2: nat, serverID: nat, processID: nat, sequence: nat)
    requires 1 <= w && WordLayout(l, w) && sequence < Pow2(w)
    requires Wrap(TimeShift(l), w) >= w
    ensures Pack(w, l, lastTime1, serverID, processID, sequence) == Pack(w, l, lastTime2, serverID, processID, sequence)
  {
    assert TimeField(w, l, lastTime1) == 0 == TimeField(w, l, lastTime2);
  }

  /**
   * When the time field is shifted out, the ids from the fresh state repeat
   * with the sequence period.
   */
  lemma PeriodicIds(w: nat, l: Layout, serverID: nat, processID: nat, k: nat)
    requires 1 <= w && WordLayout(l, w) && Wrap(TimeShift(l), w) >= w
    ensures FreshId(w, l, serverID, processID, k) == FreshId(w, l, serverID, processID, k + Period(l.sequenceBits, w))
  {
    var p := Period(l.sequenceBits, w);
    var t1, t2 := Run(w, 0, Tick(0, 0), l.sequenceBits, k), Run(w, 0, Tick(0, 0), l.sequenceBits, k + p);
    assert t1.sequence == t2.sequence by {
      SequenceRepeats(w, l.sequenceBits, k);
    }
    assert Pack(w, l, t1.lastTime, serverID, processID, t1.sequence)
        == Pack(w, l, t2.lastTime, serverID, processID, t1.sequence) by {
      TimeDropped(w, l, t1.lastTime, t2.lastTime, serverID, processID, t1.sequence);
    }
  }

  /**
   * The state the constructor leaves packs to 0 when the masks keep nothing
   * of the server and process ids.
   */
  lemma PackZero(w: nat, l: Layout, serverID: nat, processID: nat)
    requires 1 <= w && WordLayout(l, w)
    requires And(serverID, TwoShl(l.serverBits, w)) == 0 && And(processID, TwoShl(l.processBits, w)) == 0
    ensures Pack(w, l, 0, serverID, processID, 0) == 0
  {
    ShlZero(Wrap(TimeShift(l), w), w);
    ShlZero(Wrap(l.processBits + l.sequenceBits, w), w);
    ShlZero(l.sequenceBits, w);
  }

  /**
   * When the time field is shifted out and the masks keep nothing of the
   * server and process ids, every call that is a multiple of the period
   * returns the id 0 from the fresh state, as the constructor's state would:
   * its Sequence is 0 and its LastTime does not reach the id.
   */
  lemma PeriodicZeroIds(w: nat, l: Layout, serverID: nat, processID: nat, n: nat)
    requires 1 <= w && WordLayout(l, w) && Wrap(TimeShift(l), w) >= w
    requires And(serverID, TwoShl(l.serverBits, w)) == 0 && And(processID, TwoShl(l.processBits, w)) == 0
    requires n % Period(l.sequenceBits, w) == 0
    ensures FreshId(w, l, serverID, processID, n) == 0
  {
    var t := Run(w, 0, Tick(0, 0), l.sequenceBits, n);
    assert t.sequence == 0 by {
      FreshSequence(w, l.sequenceBits, n);
    }
    assert Pack(w, l, t.lastTime, serverID, processID, 0) == Pack(w, l, 0, serverID, processID, 0) by {
      TimeDropped(w, l, t.lastTime, 0, serverID, processID, 0);
    }
    PackZero(w, l, serverID, processID);
  }
}
