/**
 * The uint64 generator: NewUint64Config's layout, the Uint64 call on a
 * Uint64Config and EnvUint64, on 64-bit unsigned words.
 *
 * Widths are 5/10/24 bits by default and always total 39, so the time field
 * keeps the top 25 bits of LastTime. The server id is not coerced: 0 passes
 * through.
 */
module Uint64Id {
  import opened GoWord
  import opened Snowflake
  import opened Env

  const DefaultProcessBits: uint64 := 5
  const DefaultServerBits: uint64 := 10
  const DefaultSequenceBits: uint64 := 24
  const MinProcessBits: uint64 := 1
  const MinServerBits: uint64 := 1
  const MinSequenceBits: uint64 := 24
  const TotalBits: uint64 := DefaultProcessBits + DefaultServerBits + DefaultSequenceBits

  /** The three floors NewUint64Config applies first; each is its own minimum. */
  function Clamp(serverBits: uint64, processBits: uint64, sequenceBits: uint64): (c: Layout)
    ensures c.serverBits == (if serverBits < MinServerBits then MinServerBits else serverBits)
    ensures c.processBits == (if processBits < MinProcessBits then MinProcessBits else processBits)
    ensures c.sequenceBits == (if sequenceBits < MinSequenceBits then MinSequenceBits else sequenceBits)
  {
    Layout(if serverBits < MinServerBits then MinServerBits else serverBits,
           if processBits < MinProcessBits then MinProcessBits else processBits,
           if sequenceBits < MinSequenceBits then MinSequenceBits else sequenceBits)
  }

  /**
   * The budget NewUint64Config applies to the floored widths: a sum over
   * 39 falls back to the defaults (server 10, process 5), and a sum under
   * it hands the slack to the sequence. The sums wrap like Go's.
   */
  function Budget(c: Layout): (l: Layout)
    requires WordLayout(c, 64) && 1 <= c.serverBits && 1 <= c.processBits
    ensures WordLayout(l, 64) && 1 <= l.serverBits && 1 <= l.processBits
  {
    Pow2Of64();
    var sum := Wrap(c.processBits + c.serverBits + c.sequenceBits, 64);
    if sum > TotalBits then
      Layout(DefaultServerBits, DefaultProcessBits, DefaultSequenceBits)
    else if sum < TotalBits then
      Layout(c.serverBits, c.processBits, Wrap(TotalBits - c.processBits - c.serverBits, 64))
    else
      c
  }

  /** The widths NewUint64Config picks: the floors, then the budget. */
  function NewLayout(serverBits: uint64, processBits: uint64, sequenceBits: uint64): (l: Layout)
    ensures WordLayout(l, 64) && 1 <= l.serverBits && 1 <= l.processBits
  {
    Pow2Of64();
    Budget(Clamp(serverBits, processBits, sequenceBits))
  }

  /** Whatever the floored widths, Go's uint64 sum of the budgeted widths is 39. */
  lemma BudgetSum(c: Layout)
    requires WordLayout(c, 64) && 1 <= c.serverBits && 1 <= c.processBits
    ensures Wrap(TimeShift(Budget(c)), 64) == TotalBits
  {
    Pow2Of64();
    var sum := Wrap(c.processBits + c.serverBits + c.sequenceBits, 64);
    WrapSmall(TotalBits, 64);
    if sum < TotalBits {
      WrapSum(c.serverBits + c.processBits, TotalBits - c.processBits - c.serverBits, 64);
    }
  }

  /** Whatever the inputs, Go's uint64 sum of the chosen widths is the budget 39. */
  lemma LayoutSum(serverBits: uint64, processBits: uint64, sequenceBits: uint64)
    ensures Wrap(TimeShift(NewLayout(serverBits, processBits, sequenceBits)), 64) == TotalBits
  {
    Pow2Of64();
    BudgetSum(Clamp(serverBits, processBits, sequenceBits));
  }

  /** The floors do not push the width sum past a 64-bit word. */
  predicate NoOverflow(serverBits: uint64, processBits: uint64, sequenceBits: uint64)
  {
    TimeShift(Clamp(serverBits, processBits, sequenceBits)) <= MaxUint64
  }

  /** For inputs whose sum does not overflow, the widths add up to exactly 39. */
  lemma LayoutTotal(serverBits: uint64, processBits: uint64, sequenceBits: uint64)
    requires NoOverflow(serverBits, processBits, sequenceBits)
    ensures var l := NewLayout(serverBits, processBits, sequenceBits);
      TimeShift(l) == TotalBits as int
      && l.serverBits >= MinServerBits as int && l.processBits >= MinProcessBits as int
      && l.sequenceBits >= MinSequenceBits as int
  {
    var c := Clamp(serverBits, processBits, sequenceBits);
    var l := NewLayout(serverBits, processBits, sequenceBits);
    Pow2Of64();
    WrapSmall(TimeShift(c), 64);
    if TimeShift(c) < TotalBits as int {
      WrapSmall(TotalBits - c.processBits - c.serverBits, 64);
    }
  }

  /**
   * Greedy sequence: a floored sum under the budget keeps the floored
   * server and process widths and gives the rest to the sequence.
   */
  lemma LayoutGreedy(serverBits: uint64, processBits: uint64, sequenceBits: uint64)
    requires NoOverflow(serverBits, processBits, sequenceBits)
    requires TimeShift(Clamp(serverBits, processBits, sequenceBits)) < TotalBits as int
    ensures var c, l := Clamp(serverBits, processBits, sequenceBits), NewLayout(serverBits, processBits, sequenceBits);
      l == Layout(c.serverBits, c.processBits, TotalBits as int - c.processBits - c.serverBits)
  {
    var c := Clamp(serverBits, processBits, sequenceBits);
    Pow2Of64();
    WrapSmall(TimeShift(c), 64);
    WrapSmall(TotalBits - c.processBits - c.serverBits, 64);
  }

  /** A floored sum over the budget yields the fallback widths 10/5/24. */
  lemma LayoutFallback(serverBits: uint64, processBits: uint64, sequenceBits: uint64)
    requires NoOverflow(serverBits, processBits, sequenceBits)
    requires TimeShift(Clamp(serverBits, processBits, sequenceBits)) > TotalBits as int
    ensures NewLayout(serverBits, processBits, sequenceBits) == Layout(10, 5, 24)
  {
    Pow2Of64();
    WrapSmall(TimeShift(Clamp(serverBits, processBits, sequenceBits)), 64);
  }

  /**
   * DefaultUint64Config passes the default process width as the server
   * width: its layout is server 5, process 10, sequence 24. The other
   * layouts are the unit tests' expectations.
   */
  lemma LayoutExamples()
    ensures NewLayout(DefaultProcessBits, DefaultServerBits, DefaultSequenceBits) == Layout(5, 10, 24)
    ensures NewLayout(0, 0, 0) == Layout(1, 1, 37)
    ensures NewLayout(1, 1, 24) == Layout(1, 1, 37)
  {
    Pow2Of64();
    WrapSmall(39, 64);
    WrapSmall(26, 64);
    WrapSmall(37, 64);
  }

  /** A layout NewUint64Config builds from non-overflowing inputs keeps LastTime in the id. */
  lemma LayoutKeepsTime(serverBits: uint64, processBits: uint64, sequenceBits: uint64)
    requires NoOverflow(serverBits, processBits, sequenceBits)
    ensures var l := NewLayout(serverBits, processBits, sequenceBits);
      KeepsTime(l, 64) && TimeShift(l) == 39
  {
    LayoutTotal(serverBits, processBits, sequenceBits);
  }

  /** Uint64's coercion of the process id: 0 means the pid. */
  function ProcessOf(processID: uint64, pid: int64): (p: uint64)
    ensures processID != 0 ==> p == processID
    ensures processID == 0 ==> Wrap(p, 64) == Wrap(pid, 64)
  {
    Pow2Of64();
    if processID == 0 then Wrap(pid, 64) else processID
  }

  /**
   * EnvUint64's checks once both variables are parsed: only a parse
   * failure is refused, the server id first.
   */
  function CheckEnv(serverParse: Option<uint64>, processParse: Option<uint64>): (r: Result<(uint64, uint64)>)
    ensures r.Ok? <==> serverParse.Some? && processParse.Some?
    ensures r.Ok? ==> r.value == (serverParse.value, processParse.value)
    ensures r == Err(ServerParse) <==> serverParse.None?
    ensures r == Err(ProcessParse) <==> serverParse.Some? && processParse.None?
  {
    if serverParse.None? then Err(ServerParse)
    else if processParse.None? then Err(ProcessParse)
    else Ok((serverParse.value, processParse.value))
  }

  /** A Uint64Config: fixed widths and the mutable (LastTime, Sequence) state. */
  class Uint64Config {
    const Epoch: uint64
    const CustomEpoch: uint64
    var LastTime: uint64
    var Sequence: uint64
    const ProcessBits: uint64
    const ServerBits: uint64
    const SequenceBits: uint64

    function Widths(): Layout
    {
      Layout(ServerBits, ProcessBits, SequenceBits)
    }

    function State(): Tick
      reads this
    {
      Tick(LastTime, Sequence)
    }

    /** What every constructed config keeps: epoch 0 and the sequence below its period. */
    ghost predicate Valid()
      reads this
    {
      Pow2Of64();
      CustomEpoch == 0 && Sequence < Period(SequenceBits, 64)
    }

    /** NewUint64Config, with the clock reading `now` (Unix seconds) as a parameter. */
    constructor (serverBits: uint64, processBits: uint64, sequenceBits: uint64, now: int64)
      ensures Widths() == NewLayout(serverBits, processBits, sequenceBits)
      ensures Epoch == Wrap(now, 64) && CustomEpoch == 0
      ensures State() == Tick(0, 0)
      ensures Valid()
    {
      Pow2Of64();
      var l := NewLayout(serverBits, processBits, sequenceBits);
      Epoch := Wrap(now, 64);
      CustomEpoch := Wrap(Wrap(now, 64) - Wrap(now, 64), 64);
      LastTime, Sequence := 0, 0;
      ServerBits, ProcessBits, SequenceBits := l.serverBits, l.processBits, l.sequenceBits;
    }

    /**
     * Uint64: one call. The state takes one step of `Advance` and the id
     * packs the new state with the server id and the (coerced) process id.
     * On a valid config with a proper layout the low SequenceBits bits of
     * the id are the new Sequence.
     */
    method Uint64(serverID: uint64, processID: uint64, pid: int64) returns (id: uint64)
      modifies this
      ensures Pow2(64) == MaxUint64 + 1  // the word size, which the clauses below rely on
      ensures State() == Advance(64, CustomEpoch, old(State()), SequenceBits)
      ensures id == Pack(64, Widths(), LastTime, serverID, ProcessOf(processID, pid), Sequence)
      ensures old(Valid()) ==> Valid()
      ensures old(Valid()) && Proper(Widths(), 64) ==> id % Period(SequenceBits, 64) == Sequence
    {
      Pow2Of64();
      var process := processID;
      if process == 0 {
        process := Wrap(pid, 64);
      }
      ghost var t := State();
      if CustomEpoch <= LastTime {
        Sequence := Inc(Sequence, 64);
        if Sequence == TwoShl(SequenceBits, 64) {
          Sequence := 0;
          LastTime := Inc(LastTime, 64);
        }
      } else {
        Sequence := 0;
        LastTime := CustomEpoch;
      }
      assert State() == Advance(64, CustomEpoch, t, SequenceBits);
      id := Pack(64, Widths(), LastTime, serverID, process, Sequence);
      if old(Valid()) {
        CallKeeps(64, Widths(), t, serverID, process);
      }
    }

    /**
     * EnvUint64 with the two parse results as parameters: a parse failure
     * returns 0 and its error and leaves the state alone; otherwise this
     * is a Uint64 call.
     */
    method EnvUint64(serverParse: Option<uint64>, processParse: Option<uint64>, pid: int64)
      returns (id: uint64, err: Option<EnvError>)
      modifies this
      ensures Pow2(64) == MaxUint64 + 1  // the word size, which the clauses below rely on
      ensures CheckEnv(serverParse, processParse).Err? ==>
        id == 0 && err == Some(CheckEnv(serverParse, processParse).error) && State() == old(State())
      ensures CheckEnv(serverParse, processParse).Ok? ==>
        err == None
        && State() == Advance(64, CustomEpoch, old(State()), SequenceBits)
        && id == Pack(64, Widths(), LastTime, serverParse.value, ProcessOf(processParse.value, pid), Sequence)
      ensures old(Valid()) ==> Valid()
    {
      Pow2Of64();
      if serverParse.None? {
        return 0, Some(ServerParse);
      }
      if processParse.None? {
        return 0, Some(ProcessParse);
      }
      id := Uint64(serverParse.value, processParse.value, pid);
      err := None;
    }
  }

  // ---------------------------------------------------------------------------
  // Ids of a constructed config

  /**
   * On a config built from non-overflowing widths, with bit S of the server
   * id clear, the calls i < j from the fresh state return different ids as
   * long as LastTime stays below 2^25, and every call after the
   * constructor returns a non-zero id.
   */
  lemma DistinctIds(serverBits: uint64, processBits: uint64, sequenceBits: uint64,
                    serverID: uint64, processID: uint64, i: nat, j: nat)
    requires NoOverflow(serverBits, processBits, sequenceBits)
    requires var l := NewLayout(serverBits, processBits, sequenceBits);
      And(serverID, Pow2(l.serverBits)) == 0 && i < j < Pow2(25) * Pow2(l.sequenceBits)
    ensures var l := NewLayout(serverBits, processBits, sequenceBits);
      FreshId(64, l, serverID, processID, i) != FreshId(64, l, serverID, processID, j)
      && (1 <= i ==> FreshId(64, l, serverID, processID, i) != 0)
  {
    var l := NewLayout(serverBits, processBits, sequenceBits);
    LayoutKeepsTime(serverBits, processBits, sequenceBits);
    UniqueIds(64, l, serverID, processID, 25, i, j);
  }

  /**
   * On a config built from non-overflowing widths, every call n >= 1 from
   * the fresh state returns a non-zero id, whatever the server and process
   * ids, as long as LastTime stays below 2^25.
   */
  lemma NonZeroIds(serverBits: uint64, processBits: uint64, sequenceBits: uint64,
                   serverID: uint64, processID: uint64, n: nat)
    requires NoOverflow(serverBits, processBits, sequenceBits)
    requires var l := NewLayout(serverBits, processBits, sequenceBits);
      1 <= n < Pow2(25) * Pow2(l.sequenceBits)
    ensures var l := NewLayout(serverBits, processBits, sequenceBits);
      FreshId(64, l, serverID, processID, n) != 0
  {
    var l := NewLayout(serverBits, processBits, sequenceBits);
    LayoutKeepsTime(serverBits, processBits, sequenceBits);
    FreshNonZero(64, l, serverID, processID, 25, n);
  }

  /**
   * On a config built from non-overflowing widths, the calls 1 <= i < j
   * within the first tick from the fresh state return different, non-zero
   * ids, whatever server and process ids each call passes.
   */
  lemma FirstPeriodIds(serverBits: uint64, processBits: uint64, sequenceBits: uint64,
                       serverI: uint64, processI: uint64, serverJ: uint64, processJ: uint64, i: nat, j: nat)
    requires NoOverflow(serverBits, processBits, sequenceBits)
    requires var l := NewLayout(serverBits, processBits, sequenceBits);
      1 <= i < j < Pow2(l.sequenceBits)
    ensures var l := NewLayout(serverBits, processBits, sequenceBits);
      var idI, idJ := FreshId(64, l, serverI, processI, i), FreshId(64, l, serverJ, processJ, j);
      idI != idJ && idI != 0 && idJ != 0
  {
    var l := NewLayout(serverBits, processBits, sequenceBits);
    LayoutKeepsTime(serverBits, processBits, sequenceBits);
    KeepsTimeShifts(64, l);
    Pow2Exceeds(64);
    FreshIdsDistinct(64, l, i, j, serverI, processI, serverJ, processJ);
  }
}
