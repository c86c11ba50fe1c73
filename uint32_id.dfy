/**
 * The uint32 generator: NewUint32Config's layout, the Uint32 call on a
 * Uint32Config and EnvUint32, on 32-bit unsigned words.
 *
 * Widths are 5/10/20 bits by default and always total 35, more than the
 * word: `LastTime << 35` is 0 in Go, so the time field never reaches the id
 * and only the server, process and sequence fields do. A server id of 0 is
 * raised to 1 and a process id of 0 becomes the pid.
 */
module Uint32Id {
  import opened GoWord
  import opened Snowflake
  import opened Env

  const DefaultProcessBits: uint32 := 5
  const DefaultServerBits: uint32 := 10
  const DefaultSequenceBits: uint32 := 20
  const MinProcessBits: uint32 := 1
  const MinServerBits: uint32 := 1
  const MinSequenceBits: uint32 := 15
  const TotalBits: uint32 := DefaultProcessBits + DefaultServerBits + DefaultSequenceBits

  /** The width of a uint32 id. */
  const Word: nat := 32

  /**
   * The floors NewUint32Config applies first. A sequence width under its
   * minimum 15 is set to the server minimum, 1.
   */
  function Clamp(serverBits: uint32, processBits: uint32, sequenceBits: uint32): (c: Layout)
    ensures c.serverBits == (if serverBits < MinServerBits then MinServerBits else serverBits)
    ensures c.processBits == (if processBits < MinProcessBits then MinProcessBits else processBits)
    ensures c.sequenceBits == (if sequenceBits < MinSequenceBits then MinServerBits else sequenceBits)
  {
    Layout(if serverBits < MinServerBits then MinServerBits else serverBits,
           if processBits < MinProcessBits then MinProcessBits else processBits,
           if sequenceBits < MinSequenceBits then MinServerBits else sequenceBits)
  }

  /**
   * The budget NewUint32Config applies to the floored widths: a sum over
   * 35 falls back to the defaults (server 10, process 5), and a sum under
   * it hands the slack to the sequence. The sums wrap like Go's.
   */
  function Budget(c: Layout): (l: Layout)
    requires WordLayout(c, Word) && 1 <= c.serverBits && 1 <= c.processBits
    ensures WordLayout(l, Word) && 1 <= l.serverBits && 1 <= l.processBits
  {
    Pow2Of32();
    var sum := Wrap(c.processBits + c.serverBits + c.sequenceBits, Word);
    if sum > TotalBits then
      Layout(DefaultServerBits, DefaultProcessBits, DefaultSequenceBits)
    else if sum < TotalBits then
      Layout(c.serverBits, c.processBits, Wrap(TotalBits - c.processBits - c.serverBits, Word))
    else
      c
  }

  /** The widths NewUint32Config picks: the floors, then the budget. */
  function NewLayout(serverBits: uint32, processBits: uint32, sequenceBits: uint32): (l: Layout)
    ensures WordLayout(l, Word) && 1 <= l.serverBits && 1 <= l.processBits
  {
    Pow2Of32();
    Budget(Clamp(serverBits, processBits, sequenceBits))
  }

  /** Whatever the floored widths, Go's uint32 sum of the budgeted widths is 35. */
  lemma BudgetSum(c: Layout)
    requires WordLayout(c, Word) && 1 <= c.serverBits && 1 <= c.processBits
    ensures Wrap(TimeShift(Budget(c)), Word) == TotalBits
  {
    Pow2Of32();
    var sum := Wrap(c.processBits + c.serverBits + c.sequenceBits, Word);
    if sum > TotalBits {
      WrapSmall(TotalBits, Word);
    } else if sum < TotalBits {
      SlackFills(c.serverBits + c.processBits);
    }
  }

  /** Whatever the inputs, Go's uint32 sum of the chosen widths is the budget 35. */
  lemma LayoutSum(serverBits: uint32, processBits: uint32, sequenceBits: uint32)
    ensures Wrap(TimeShift(NewLayout(serverBits, processBits, sequenceBits)), Word) == TotalBits
  {
    Pow2Of32();
    BudgetSum(Clamp(serverBits, processBits, sequenceBits));
  }

  /** Handing the wrapped slack to the sequence brings the wrapped sum to the budget. */
  lemma SlackFills(a: int)
    ensures Wrap(a + Wrap(TotalBits - a, Word), Word) == TotalBits
  {
    WrapSum(a, TotalBits - a, Word);
    assert Pow2(Word) == 0x1_0000_0000 by {
      Pow2Of32();
    }
    WrapSmall(TotalBits, Word);
  }

  /** The floors do not push the width sum past a 32-bit word. */
  predicate NoOverflow(serverBits: uint32, processBits: uint32, sequenceBits: uint32)
  {
    TimeShift(Clamp(serverBits, processBits, sequenceBits)) <= MaxUint32
  }

  /**
   * For inputs whose sum does not overflow, the widths add up to exactly 35
   * and each is at least 1; the sequence is not kept at 15 or more.
   */
  lemma LayoutTotal(serverBits: uint32, processBits: uint32, sequenceBits: uint32)
    requires NoOverflow(serverBits, processBits, sequenceBits)
    ensures var l := NewLayout(serverBits, processBits, sequenceBits);
      TimeShift(l) == TotalBits as int
      && l.serverBits >= 1 && l.processBits >= 1 && l.sequenceBits >= 1
  {
    var c := Clamp(serverBits, processBits, sequenceBits);
    Pow2Of32();
    WrapSmall(TimeShift(c), Word);
    if TimeShift(c) < TotalBits as int {
      WrapSmall(TotalBits - c.processBits - c.serverBits, Word);
    }
  }

  /**
   * Greedy sequence: a floored sum under the budget keeps the floored
   * server and process widths and gives the rest to the sequence.
   */
  lemma LayoutGreedy(serverBits: uint32, processBits: uint32, sequenceBits: uint32)
    requires NoOverflow(serverBits, processBits, sequenceBits)
    requires TimeShift(Clamp(serverBits, processBits, sequenceBits)) < TotalBits as int
    ensures var c, l := Clamp(serverBits, processBits, sequenceBits), NewLayout(serverBits, processBits, sequenceBits);
      l == Layout(c.serverBits, c.processBits, TotalBits as int - c.processBits - c.serverBits)
  {
    var c := Clamp(serverBits, processBits, sequenceBits);
    Pow2Of32();
    WrapSmall(TimeShift(c), Word);
    WrapSmall(TotalBits - c.processBits - c.serverBits, Word);
  }

  /** A floored sum over the budget yields the fallback widths 10/5/20. */
  lemma LayoutFallback(serverBits: uint32, processBits: uint32, sequenceBits: uint32)
    requires NoOverflow(serverBits, processBits, sequenceBits)
    requires TimeShift(Clamp(serverBits, processBits, sequenceBits)) > TotalBits as int
    ensures NewLayout(serverBits, processBits, sequenceBits) == Layout(10, 5, 20)
  {
    Pow2Of32();
    WrapSmall(TimeShift(Clamp(serverBits, processBits, sequenceBits)), Word);
  }

  /**
   * DefaultUint32Config passes the default process width as the server
   * width: its layout is server 5, process 10, sequence 20. Then the unit
   * tests' expectations, and a request whose sequence width 0 is floored
   * to 1 and, the sum being exactly 35, stays 1.
   */
  lemma LayoutExamples()
    ensures NewLayout(DefaultProcessBits, DefaultServerBits, DefaultSequenceBits) == Layout(5, 10, 20)
    ensures NewLayout(0, 0, 0) == Layout(1, 1, 33)
    ensures NewLayout(1, 1, 15) == Layout(1, 1, 33)
    ensures NewLayout(20, 14, 0) == Layout(20, 14, 1)
  {
    Pow2Of32();
    WrapSmall(35, Word);
    WrapSmall(3, Word);
    WrapSmall(17, Word);
    WrapSmall(33, Word);
  }

  /** A layout NewUint32Config builds from non-overflowing inputs is proper for 32-bit words. */
  lemma LayoutProper(serverBits: uint32, processBits: uint32, sequenceBits: uint32)
    requires NoOverflow(serverBits, processBits, sequenceBits)
    ensures Proper(NewLayout(serverBits, processBits, sequenceBits), Word)
  {
    LayoutTotal(serverBits, processBits, sequenceBits);
    Pow2Exceeds(Word);
  }

  /** Uint32's coercion of the server id: 0 means 1. */
  function ServerOf(serverID: uint32): (s: uint32)
    ensures s != 0
    ensures serverID != 0 ==> s == serverID
    ensures serverID == 0 ==> s == 1
  {
    if serverID == 0 then 1 else serverID
  }

  /** Uint32's coercion of the process id: 0 means the pid, truncated to 32 bits. */
  function ProcessOf(processID: uint32, pid: int64): (p: uint32)
    ensures processID != 0 ==> p == processID
    ensures processID == 0 ==> Wrap(p, Word) == Wrap(pid, Word)
  {
    Pow2Of32();
    if processID == 0 then
      assert Wrap(Wrap(pid, Word), Word) == Wrap(pid, Word) by {
        WrapSmall(Wrap(pid, Word), Word);
      }
      Wrap(pid, Word)
    else processID
  }

  /**
   * EnvUint32's checks once the variables are parsed: the server id must
   * parse and be non-zero, then the process id must parse; 0 is a valid
   * process id.
   */
  function CheckEnv(serverParse: Option<uint32>, processParse: Option<uint32>): (r: Result<(uint32, uint32)>)
    ensures r.Ok? <==> serverParse.Some? && serverParse.value != 0 && processParse.Some?
    ensures r.Ok? ==> r.value == (serverParse.value, processParse.value)
    ensures r == Err(ServerParse) <==> serverParse.None?
    ensures r == Err(ServerRange) <==> serverParse == Some(0)
    ensures r == Err(ProcessParse) <==> serverParse.Some? && serverParse.value != 0 && processParse.None?
  {
    if serverParse.None? then Err(ServerParse)
    else if serverParse.value == 0 then Err(ServerRange)
    else if processParse.None? then Err(ProcessParse)
    else Ok((serverParse.value, processParse.value))
  }

  /** A Uint32Config: fixed widths and the mutable (LastTime, Sequence) state. */
  class Uint32Config {
    const Epoch: uint32
    const CustomEpoch: uint32
    var LastTime: uint32
    var Sequence: uint32
    const ProcessBits: uint32
    const ServerBits: uint32
    const SequenceBits: uint32

    function Widths(): Layout
    {
      Layout(ServerBits, ProcessBits, SequenceBits)
    }

    function State(): Tick
      reads this
    {
      Tick(LastTime, Sequence)
    }

    /** What every constructed config keeps: epoch 0 and the sequence below its period. */
    ghost predicate Valid()
      reads this
    {
      Pow2Of32();
      CustomEpoch == 0 && Sequence < Period(SequenceBits, Word)
    }

    /** NewUint32Config, with the clock reading `now` (Unix seconds) as a parameter. */
    constructor (serverBits: uint32, processBits: uint32, sequenceBits: uint32, now: int64)
      ensures Widths() == NewLayout(serverBits, processBits, sequenceBits)
      ensures Epoch == Wrap(now, Word) && CustomEpoch == 0
      ensures State() == Tick(0, 0)
      ensures Valid()
    {
      Pow2Of32();
      var l := NewLayout(serverBits, processBits, sequenceBits);
      Epoch := Wrap(now, Word);
      CustomEpoch := Wrap(Wrap(now, Word) - Wrap(now, Word), Word);
      LastTime, Sequence := 0, 0;
      ServerBits, ProcessBits, SequenceBits := l.serverBits, l.processBits, l.sequenceBits;
    }

    /**
     * Uint32: one call. The state takes one step of `Advance` and the id
     * packs the new state with the coerced server and process ids. On a
     * valid config with a proper layout the low SequenceBits bits of the id
     * are the new Sequence.
     */
    method Uint32(serverID: uint32, processID: uint32, pid: int64) returns (id: uint32)
      modifies this
      ensures Pow2(Word) == MaxUint32 + 1  // the word size, which the clauses below rely on
      ensures State() == Advance(Word, CustomEpoch, old(State()), SequenceBits)
      ensures id == Pack(Word, Widths(), LastTime, ServerOf(serverID), ProcessOf(processID, pid), Sequence)
      ensures old(Valid()) ==> Valid()
      ensures old(Valid()) && Proper(Widths(), Word) ==> id % Period(SequenceBits, Word) == Sequence
    {
      Pow2Of32();
      var server, process := serverID, processID;
      if server == 0 {
        server := 1;
      }
      if process == 0 {
        process := Wrap(pid, Word);
      }
      ghost var t := State();
      if CustomEpoch <= LastTime {
        Sequence := Inc(Sequence, Word);
        if Sequence == TwoShl(SequenceBits, Word) {
          Sequence := 0;
          LastTime := Inc(LastTime, Word);
        }
      } else {
        Sequence := 0;
        LastTime := CustomEpoch;
      }
      assert State() == Advance(Word, CustomEpoch, t, SequenceBits);
      id := Pack(Word, Widths(), LastTime, server, process, Sequence);
      if old(Valid()) {
        CallKeeps(Word, Widths(), t, server, process);
      }
    }

    /**
     * EnvUint32 with the two parse results as parameters: a refused input
     * returns 0 and its error and leaves the state alone; otherwise this is
     * a Uint32 call.
     */
    method EnvUint32(serverParse: Option<uint32>, processParse: Option<uint32>, pid: int64)
      returns (id: uint32, err: Option<EnvError>)
      modifies this
      ensures Pow2(Word) == MaxUint32 + 1  // the word size, which the clauses below rely on
      ensures CheckEnv(serverParse, processParse).Err? ==>
        id == 0 && err == Some(CheckEnv(serverParse, processParse).error) && State() == old(State())
      ensures CheckEnv(serverParse, processParse).Ok? ==>
        err == None
        && State() == Advance(Word, CustomEpoch, old(State()), SequenceBits)
        && id == Pack(Word, Widths(), LastTime, serverParse.value, ProcessOf(processParse.value, pid), Sequence)
      ensures old(Valid()) ==> Valid()
    {
      Pow2Of32();
      if serverParse.None? {
        return 0, Some(ServerParse);
      }
      if serverParse.value == 0 {
        return 0, Some(ServerRange);
      }
      if processParse.None? {
        return 0, Some(ProcessParse);
      }
      id := Uint32(serverParse.value, processParse.value, pid);
      err := None;
    }
  }

  // ---------------------------------------------------------------------------
  // Ids of a constructed config

  /**
   * On a config built from non-overflowing widths, the calls 1 <= i < j
   * below the sequence period (2^SequenceBits, or 2^32 once SequenceBits
   * reaches 32) from the fresh state return different, non-zero
   * ids, whatever server and process ids each call passes.
   */
  lemma DistinctIds(serverBits: uint32, processBits: uint32, sequenceBits: uint32,
                    serverI: uint32, processI: uint32, serverJ: uint32, processJ: uint32, i: nat, j: nat)
    requires NoOverflow(serverBits, processBits, sequenceBits)
    requires var l := NewLayout(serverBits, processBits, sequenceBits);
      1 <= i < j < Period(l.sequenceBits, Word)
    ensures var l := NewLayout(serverBits, processBits, sequenceBits);
      var idI, idJ := FreshId(Word, l, serverI, processI, i), FreshId(Word, l, serverJ, processJ, j);
      idI != idJ && idI != 0 && idJ != 0
  {
    var l := NewLayout(serverBits, processBits, sequenceBits);
    LayoutProper(serverBits, processBits, sequenceBits);
    FreshIdsDistinct(Word, l, i, j, serverI, processI, serverJ, processJ);
  }

  /**
   * The three widths of every uint32 layout add up to at least 32, so the
   * time shift pushes LastTime out of the word entirely: by
   * Snowflake.PeriodicIds, call k and call k + Period from the fresh state
   * return the same id for the same server and process ids.
   */
  lemma LayoutDropsTime(serverBits: uint32, processBits: uint32, sequenceBits: uint32)
    ensures var l := NewLayout(serverBits, processBits, sequenceBits);
      WordLayout(l, Word) && Wrap(TimeShift(l), Word) >= Word
  {
    LayoutSum(serverBits, processBits, sequenceBits);
  }

  /**
   * Because LastTime is dropped, a uint32 config returns 0 at every call
   * that is a multiple of the sequence period once the masks keep nothing of the
   * server and process ids: on the default layout (server 5, process 10,
   * sequence 20), server id 1 and a process id with bit 10 clear, call 2^20
   * returns 0.
   */
  lemma ZeroIds(serverBits: uint32, processBits: uint32, sequenceBits: uint32,
                serverID: uint32, processID: uint32, n: nat)
    requires var l := NewLayout(serverBits, processBits, sequenceBits);
      And(serverID, TwoShl(l.serverBits, Word)) == 0 && And(processID, TwoShl(l.processBits, Word)) == 0
      && n % Period(l.sequenceBits, Word) == 0
    ensures var l := NewLayout(serverBits, processBits, sequenceBits);
      FreshId(Word, l, serverID, processID, n) == 0
  {
    var l := NewLayout(serverBits, processBits, sequenceBits);
    assert Wrap(TimeShift(l), Word) >= Word by {
      LayoutDropsTime(serverBits, processBits, sequenceBits);
    }
    PeriodicZeroIds(Word, l, serverID, processID, n);
  }

  /**
   * On the default layout, server id 1 and a process id with bit 10 clear
   * give the id 0 at every call that is a multiple of 2^20.
   */
  lemma DefaultZeroId(processID: uint32, n: nat)
    requires And(processID, Pow2(10)) == 0 && n % Pow2(20) == 0
    ensures var l := NewLayout(DefaultProcessBits, DefaultServerBits, DefaultSequenceBits);
      l == Layout(5, 10, 20) && FreshId(Word, l, 1, processID, n) == 0
  {
    var l := NewLayout(DefaultProcessBits, DefaultServerBits, DefaultSequenceBits);
    assert l == Layout(5, 10, 20) by {
      LayoutExamples();
    }
    assert And(1, TwoShl(l.serverBits, Word)) == 0 by {
      assert TwoShl(5, Word) == Pow2(5) > 1;
      AndPow2(1, 5);
    }
    assert TwoShl(l.processBits, Word) == Pow2(10);
    assert Period(l.sequenceBits, Word) == Pow2(20);
    ZeroIds(DefaultProcessBits, DefaultServerBits, DefaultSequenceBits, 1, processID, n);
  }
}
