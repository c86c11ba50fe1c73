# oneid: a Dafny model of the Snowflake id generators

oneid builds unique integer ids the Snowflake way. The same generator is
written three times, once per integer type: `int64.go`, `uint32.go` and
`uint64.go`. Each copy has three parts.

- **A layout calculator** (`NewInt64Config`, `NewUint32Config`,
  `NewUint64Config`). It floors the requested server, process and sequence
  widths. If their sum is over the budget (27, 35 or 39 bits), it falls back
  to the defaults. If the sum is under the budget, it hands the slack to the
  sequence.
- **A generator call** (`Int64`, `Uint32`, `Uint64`). It advances the
  config's `(LastTime, Sequence)` state by one and packs an id:
  `LastTime << (S+P+Q) | (serverID & (2 << (S-1))) << (P+Q) | (processID & (2 << (P-1))) << Q | Sequence`.
- **An environment entry point** (`EnvInt64`, `EnvUint32`, `EnvUint64`). It
  checks the parsed `SERVER_ID` and `PROCESS_ID` before calling the
  generator.

The Dafny modules follow that structure:

- `GoWord` (go_word.dfy) models Go's fixed-width arithmetic on unbounded
  integers:
  - a word is its bit pattern, a `nat` below 2^w;
  - sums wrap (`Wrap`, `WrapI64`);
  - an int64 is the signed reading of its pattern (`ToSigned`);
  - `<<` drops the bits pushed out of the word and gives 0 once the count
    reaches the width (`Shl`);
  - `&` and `|` work bit by bit (`And`, `Or`).
- `Snowflake` (snowflake.dfy) holds what the three copies share:
  - the `Layout` and `Tick` values;
  - the unsigned step `Advance` and its iteration `Run`;
  - the packing expression `Pack`, with the masks exactly as written;
  - the properties of the packed id.
- `Int64Id`, `Uint32Id`, `Uint64Id` model one source file each:
  - the layout calculator as the functions `Clamp`, `Budget` and `NewLayout`;
  - the config as a class whose `LastTime` and `Sequence` fields the
    generator method updates in place;
  - the environment checks as a function `CheckEnv` and a method that calls
    the generator.
- `Env` (env.dfy) holds the `Option`/`Result` values and the error kinds of
  the environment entry points.

The model follows the code as written, and so keeps these behaviours:

- **Defaults swapped.** The default configs pass the default process width
  as the server width, so their layouts are server 5 / process 10.
- **Sequence floor.** int64 and uint32 raise a too-small sequence width to
  1, not to their sequence minimum.
- **Mask keeps one bit.** The mask `2 << (bits - 1)` is 2^bits, so it keeps
  a single bit of the server or process id. That bit lands one place
  higher: with bit S of the server id set, it overlaps the lowest bit of the
  time field, and two different states give the same id (`MaskCollision`,
  `DuplicateIds`).
- **uint32 drops LastTime.** uint32's widths always total 35, more than the
  word. Go's `LastTime << 35` is 0, so LastTime never reaches a uint32 id,
  and ids repeat with the sequence period (`LayoutDropsTime`, `PeriodicIds`).
  When the masks keep nothing of the server and process ids, every call
  that is a multiple of the period returns 0: on `DefaultUint32Config` with
  server id 1 and a process id whose bit 10 is clear, call 2^20 returns 0
  (`Uint32Id.ZeroIds`, `Uint32Id.DefaultZeroId`). The int64 and uint64
  generators, which keep LastTime, never return 0 after the constructor
  while LastTime fits above the shift, whatever the server and process ids
  (`Int64Id.NonZeroId`, `Uint64Id.NonZeroIds`).
- **Huge widths wrap.** Width sums wrap like Go's, so huge requests give
  wrapped layouts (`Int64Id.LayoutOverflow`).
- **Comments differ from the code.** The comment on `DefaultUint32Config`
  announces a 12-bit sequence; the code gives 20, and the model follows the
  code.

## Model

| member | source | states |
|---|---|---|
| GoWord.Wrap | uint32.go:66-73 | Go's stored result of an arithmetic expression is a pattern below 2^w |
| GoWord.WrapSum | uint32.go:72 | adding an already-wrapped summand gives the same word as adding the exact one |
| GoWord.Inc | uint32.go:114 | `x++` on a w-bit word stays in the word (the largest value wraps to 0) |
| GoWord.IncWrap | uint32.go:117 | `x++` is the exact successor taken modulo 2^w |
| GoWord.ToSigned | int64.go:131-134 | reading a 64-bit pattern as int64 and storing it again gives back the same pattern |
| GoWord.SignedNonZero | int64.go:131-134 | only the zero pattern reads as the int64 0 |
| GoWord.WrapI64 | int64.go:121 | Go's int64 result of an expression has the same 64-bit pattern as its exact value |
| GoWord.WrapI64Pattern | int64.go:121 | the int64 result depends only on the 64-bit pattern of the exact value |
| GoWord.WrapI64Overflow | int64.go:124 | incrementing MaxInt64 gives MinInt64 |
| GoWord.WrapI64Sum | int64.go:75 | adding an already-wrapped int64 summand gives the same int64 as adding the exact one |
| GoWord.Shl | uint64.go:117 | a left shift keeps the result inside the word |
| GoWord.ShlMultiple | uint64.go:117-119 | shifting left by n clears the low k bits for every k up to n and the width |
| GoWord.TwoShl | uint32.go:115 | `2 << (bits - 1)` is 2^bits while that fits in the word, and 0 otherwise (including the wrapped count when bits is 0) |
| GoWord.Or | uint64.go:117-120 | the bitwise or of a and b is at least each operand and at most their sum |
| GoWord.And | uint64.go:118-119 | `a & b` is at most each operand |
| GoWord.OrLowBits | uint64.go:117-120 | the low k bits of the bitwise or of a and b are the or of their low k bits |
| GoWord.OrDisjoint | uint64.go:117-120 | or-ing a value below 2^k into a multiple of 2^k adds it |
| GoWord.OrLowTerm | uint64.go:117-120 | the low k bits of the or of hi and lo are lo when hi is a multiple of 2^k and lo is below 2^k |
| GoWord.OrBound | uint64.go:117-120 | the or of two w-bit words is a w-bit word |
| GoWord.AndPow2 | uint64.go:118 | `x & 2^k` is 0 or 2^k: the mask keeps one bit |
| Snowflake.Period | uint32.go:115 | the number of sequence values a tick holds is 2^SequenceBits, or the whole word when Go's limit is 0 |
| Snowflake.Advance | uint32.go:113-122 | one unsigned call leaves LastTime and Sequence inside the word |
| Snowflake.Run | uint64.go:106-115 | n calls leave both fields inside the word |
| Snowflake.AdvanceInRange | uint32.go:113-122 | whatever the epoch, a call keeps Sequence below its period |
| Snowflake.AdvanceCounter | uint32.go:113-122 | from epoch 0, a call raises the counter LastTime * Period + Sequence by exactly one, modulo the number of states |
| Snowflake.SequenceWraps | uint32.go:114-115 | incrementing the last sequence value of a tick hits Go's limit |
| Snowflake.AdvanceRollover | uint64.go:108-111 | after the last sequence value, a call resets Sequence to 0 and moves LastTime on by one |
| Snowflake.RunCounter | uint64.go:106-115 | after n calls the state is in range and the counter has moved on by n, modulo the number of states |
| Snowflake.CounterBelowCycle | uint64.go:106-115 | the counter of an in-range state is below the number of states |
| Snowflake.CounterDecode | uint64.go:106-115 | an in-range state is recovered from its counter as quotient and remainder by the period |
| Snowflake.FreshSequence | uint32.go:113-122 | from the constructed state, call n leaves Sequence at n modulo the period |
| Snowflake.SequenceRepeats | uint32.go:113-122 | from the constructed state, the sequence repeats with the period |
| Snowflake.FreshRun | uint64.go:106-115 | from the constructed state and before the counter wraps, call n leaves LastTime at n / Period and Sequence at n % Period |
| Snowflake.TimeField | uint64.go:117 | the shifted LastTime fits in the word |
| Snowflake.ServerField | uint64.go:118 | the masked, shifted server id fits in the word |
| Snowflake.ProcessField | uint64.go:119 | the masked, shifted process id fits in the word |
| Snowflake.Fields | uint64.go:117-119 | the part of the id above the sequence fits in the word |
| Snowflake.Pack | uint64.go:117-120 | the packed id fits in the word |
| Snowflake.FreshId | uint32.go:124-127 | the id call n returns from the constructed state fits in the word |
| Snowflake.TimeFieldClear | uint64.go:117 | the time field leaves the low SequenceBits bits clear |
| Snowflake.ServerFieldClear | uint64.go:118 | the server field leaves the low SequenceBits bits clear |
| Snowflake.ProcessFieldClear | uint64.go:119 | the process field leaves the low SequenceBits bits clear |
| Snowflake.FieldsClearLowBits | uint64.go:117-119 | everything above the sequence is a multiple of the period |
| Snowflake.PackLowBits | uint64.go:117-120 | in a proper layout, the id modulo the period is Sequence |
| Snowflake.CallKeeps | uint32.go:113-127 | from epoch 0 one call keeps Sequence below its period, and the new id's low bits are the new Sequence |
| Snowflake.FreshIdsDistinct | uint32.go:124-127 | calls 1 <= i < j below the period from the constructed state return distinct, non-zero ids, whatever server and process ids each passes |
| Snowflake.KeepsTimeShifts | uint64.go:117-119 | when the time field starts inside the word, no shift count wraps and the period is 2^SequenceBits |
| Snowflake.PackValue | uint64.go:117-120 | with bit S of the server id clear, the id is LastTime * 2^(S+P+Q) + the process bit + Sequence |
| Snowflake.FieldsValue | uint64.go:117-119 | with bit S of the server id clear, the part above the sequence is the time field plus the process bit |
| Snowflake.ProcessPart | uint64.go:119 | the masked process id contributes 0 or 2^(P+Q) |
| Snowflake.TimeFieldValue | uint64.go:117 | when LastTime fits above the shift, the time field is LastTime * 2^(S+P+Q) |
| Snowflake.ProcessFieldValue | uint64.go:119 | when nothing wraps, the process field is its one masked bit moved to bit P+Q |
| Snowflake.ProcessBelowTime | uint64.go:119 | the process bit lies below the time field |
| Snowflake.LowBelowTime | uint64.go:119-120 | the process bit plus Sequence stays below the time field |
| Snowflake.PackDigits | uint64.go:117-120 | an id is two digits in base 2^(S+P+Q): LastTime above, the process bit and Sequence below |
| Snowflake.PackInjective | uint64.go:117-120 | with bit S of the server id clear and LastTime fitting above the shift, ids are equal exactly when the states are |
| Snowflake.UniqueIds | uint64.go:106-120 | from the constructed state, with bit S of the server id clear, calls i < j return different ids while LastTime fits above the shift, and every call i >= 1 returns a non-zero id |
| Snowflake.PackNonZero | uint64.go:117-120 | whatever the server and process ids, every state but (0, 0) whose LastTime fits above the shift packs to a non-zero id |
| Snowflake.FreshState | uint64.go:106-115 | while LastTime fits above the shift, call n leaves the constructed state at (n / 2^SequenceBits, n % 2^SequenceBits) |
| Snowflake.FreshNonZero | uint64.go:106-120 | whatever the server and process ids, every call n >= 1 from the constructed state returns a non-zero id while LastTime fits above the shift |
| Snowflake.MaskCollision | uint64.go:118 | with bit S of the server id set, the id at LastTime 0 equals the id at LastTime 1 |
| Snowflake.DuplicateIds | uint64.go:117-120 | with bit S of the server id set, call k (1 <= k < 2^SequenceBits) and call k + 2^SequenceBits from the constructed state return the same id |
| Snowflake.FreshTicks | uint64.go:106-115 | from the constructed state, calls k and k + 2^SequenceBits differ only in LastTime (0 and 1) |
| Snowflake.ServerFieldZero | uint64.go:118 | with bit S of the server id clear, the server field is 0 |
| Snowflake.ServerFieldValue | uint64.go:118 | with bit S of the server id set, the server field is 2^(S+P+Q), the lowest bit of the time field |
| Snowflake.TimeDropped | uint32.go:124 | when the time shift reaches the width, the id does not depend on LastTime |
| Snowflake.PeriodicIds | uint32.go:124-127 | when the time shift reaches the width, call k and call k + Period from the constructed state return the same id |
| Snowflake.PackZero | uint32.go:124-127 | the constructor's state (0, 0) packs to 0 when the masks keep nothing of the server and process ids |
| Snowflake.PeriodicZeroIds | uint32.go:113-127 | when the time shift reaches the width and the masks keep nothing of the server and process ids, every call that is a multiple of the period returns 0 from the constructed state |
| Int64Id.Clamp | int64.go:57-67 | server and process widths under 1 become 1; a sequence width under 12 becomes 1, not 12 |
| Int64Id.Budget | int64.go:69-76 | the budgeted widths are int64 values, with server and process at least 1 |
| Int64Id.NewLayout | int64.go:53-76 | the chosen widths are int64 values, with server and process at least 1 |
| Int64Id.BudgetSum | int64.go:69-76 | whatever the floored widths, Go's int64 sum of the budgeted widths is 27 |
| Int64Id.LayoutSum | int64.go:69-76 | whatever the inputs, Go's int64 sum of the chosen widths is 27 |
| Int64Id.LayoutTotal | int64.go:69-76 | for non-overflowing inputs, the widths add up to exactly 27 and each is at least 1 |
| Int64Id.LayoutGreedy | int64.go:73-76 | a floored sum under 27 keeps server and process and gives the sequence 27 - P - S |
| Int64Id.LayoutFallback | int64.go:69-72 | a floored sum over 27 gives server 10, process 5, sequence 12 |
| Int64Id.LayoutExamples | int64.go:102 | the default config is 5/10/12; (0,0,0) and (1,1,12) give a 25-bit sequence; (6,20,0) keeps a 1-bit sequence |
| Int64Id.LayoutOverflow | int64.go:69-76 | three widths of 2^62 wrap to a negative sum, count as under budget, and get a negative sequence width |
| Int64Id.Patterns | int64.go:131-134 | the widths' two's-complement patterns are 64-bit words |
| Int64Id.KeepsTimeNoPanic | int64.go:131-133 | a layout whose time field starts inside the word has no negative shift count, and its patterns are the widths |
| Int64Id.LayoutKeepsTime | int64.go:53-93 | a config built from non-overflowing widths keeps LastTime in the id, has time shift 27, never panics and has a sequence of at most 25 bits |
| Int64Id.LimitShift | int64.go:122 | the limit `2 << (SequenceBits - 1)` is 2^SequenceBits up to 62 bits, MinInt64 at 63, and 0 above |
| Int64Id.Limit | int64.go:122 | (definition, no contract) the value of `2 << (SequenceBits - 1)`: 2^SequenceBits up to 62 bits, MinInt64 at 63, 0 otherwise; LimitShift proves it is Go's shift |
| Int64Id.NoPanic | int64.go:131-133 | (definition, no contract) every shift count of the id expression, an int64 sum or difference of the widths, is not negative, so Go does not panic |
| Int64Id.Int64Config.CanCall | int64.go:122 | (definition, no contract) NoPanic for the config's widths, and a non-negative `SequenceBits - 1` whenever the increment branch runs |
| Int64Id.Step | int64.go:120-129 | one signed call keeps both fields int64 values |
| Int64Id.StepInRange | int64.go:120-129 | from epoch 0, a call keeps 0 <= Sequence < 2^SequenceBits |
| Int64Id.StepCounter | int64.go:120-129 | while LastTime is below MaxInt64, a call raises LastTime * 2^SequenceBits + Sequence by exactly one; after the last sequence value it resets Sequence and bumps LastTime |
| Int64Id.LastTimeOverflow | int64.go:124 | at LastTime MaxInt64 the rollover wraps LastTime to MinInt64, and the call after that restarts the state at (0, 0) |
| Int64Id.Run64 | int64.go:120-129 | n calls from the constructed state leave int64 fields |
| Int64Id.FreshRun64 | int64.go:120-129 | for every n <= MaxInt64, call n from the constructed state leaves LastTime at n / 2^SequenceBits and Sequence at n % 2^SequenceBits |
| Int64Id.FreshDigits | int64.go:120-129 | for a layout keeping the time field, the calls whose LastTime fits above the shift read n as two digits (LastTime, Sequence) |
| Int64Id.IdOf | int64.go:131-134 | (definition, no contract) the id expression evaluated on the two's-complement patterns of its operands and read back as an int64; IdLowBits, IdOfPack and IdInjective state its properties |
| Int64Id.FreshId64 | int64.go:107-136 | (definition, no contract) the id call n returns from the constructed state; DistinctIds and FirstPeriodIds state its properties |
| Int64Id.IdLowBits | int64.go:131-134 | the id modulo 2^SequenceBits is Sequence |
| Int64Id.IdOfPack | int64.go:131-134 | for non-negative state, the int64 id is the unsigned pack read as an int64 |
| Int64Id.IdInjective | int64.go:131-134 | with bit S of the server id clear, ids are equal exactly when the states are |
| Int64Id.DistinctIds | int64.go:131-134 | from the constructed state, with bit S of the server id clear, calls i < j return different ids, and every call i >= 1 returns a non-zero id |
| Int64Id.NonZeroId | int64.go:107-136 | from the constructed state, whatever the server and process ids, every call n >= 1 returns a non-zero id while LastTime fits above the shift, across tick boundaries |
| Int64Id.IdNonZero | int64.go:131-134 | whatever the server and process ids, every state but (0, 0) whose LastTime fits above the shift gives a non-zero id |
| Int64Id.FirstPeriodIds | int64.go:107-136 | within the first tick, calls 1 <= i < j from the constructed state return different, non-zero ids whatever server and process ids each call passes |
| Int64Id.SignedCallKeeps | int64.go:120-134 | from epoch 0 one call keeps the sequence in range; a layout keeping the time field cannot panic, and the id's low bits are the new Sequence |
| Int64Id.ServerOf | int64.go:109-111 | a positive server id is kept, and every server id at or below 0 becomes exactly 1 |
| Int64Id.ProcessOf | int64.go:113-115 | a positive process id is kept; any other becomes the pid |
| Int64Id.CheckEnv | int64.go:146-165 | ok exactly when the server id parses and is positive and the process id parses and is not negative; each error kind exactly in its case, in the source's order |
| Int64Id.Int64Config.constructor | int64.go:78-93 | the widths are NewLayout's, CustomEpoch is 0, the state is (0, 0), and non-overflowing inputs give a config whose calls cannot panic |
| Int64Id.Int64Config.Int64 | int64.go:107-136 | the state takes one signed step; the id packs the new state with the coerced ids; a valid config stays valid, cannot panic next, and the id's low bits are Sequence |
| Int64Id.Int64Config.EnvInt64 | int64.go:141-168 | a refused input returns 0 and its error and leaves the state unchanged; otherwise this is one Int64 call with the parsed ids |
| Uint32Id.Clamp | uint32.go:54-64 | server and process widths of 0 become 1; a sequence width under 15 becomes 1, not 15 |
| Uint32Id.Budget | uint32.go:66-73 | the budgeted widths are uint32 values, with server and process at least 1 |
| Uint32Id.NewLayout | uint32.go:53-73 | the chosen widths are uint32 values, with server and process at least 1 |
| Uint32Id.BudgetSum | uint32.go:66-73 | whatever the floored widths, Go's uint32 sum of the budgeted widths is 35 |
| Uint32Id.LayoutSum | uint32.go:66-73 | whatever the inputs, Go's uint32 sum of the chosen widths is 35 |
| Uint32Id.SlackFills | uint32.go:72 | handing the wrapped slack to the sequence brings the wrapped sum to 35 |
| Uint32Id.LayoutTotal | uint32.go:66-73 | for non-overflowing inputs, the widths add up to exactly 35 and each is at least 1 |
| Uint32Id.LayoutGreedy | uint32.go:70-73 | a floored sum under 35 keeps server and process and gives the sequence 35 - P - S |
| Uint32Id.LayoutFallback | uint32.go:66-69 | a floored sum over 35 gives server 10, process 5, sequence 20 |
| Uint32Id.LayoutExamples | uint32.go:97 | the default config is 5/10/20; (0,0,0) and (1,1,15) give 33; (20,14,0) keeps a 1-bit sequence |
| Uint32Id.LayoutProper | uint32.go:53-73 | a config built from non-overflowing widths has a proper 32-bit layout |
| Uint32Id.LayoutDropsTime | uint32.go:124 | every uint32 layout shifts LastTime out of the word |
| Uint32Id.ServerOf | uint32.go:102-104 | a non-zero server id is kept, and 0 becomes exactly 1 |
| Uint32Id.ProcessOf | uint32.go:106-108 | a non-zero process id is kept; 0 becomes the pid truncated to 32 bits |
| Uint32Id.CheckEnv | uint32.go:137-152 | ok exactly when the server id parses and is non-zero and the process id parses; each error kind exactly in its case |
| Uint32Id.Uint32Config.constructor | uint32.go:75-90 | the widths are NewLayout's, Epoch is the truncated clock, CustomEpoch is 0, the state is (0, 0) |
| Uint32Id.Uint32Config.Uint32 | uint32.go:101-128 | the state takes one step of Advance; the id packs the new state with the coerced ids; a valid config stays valid and the id's low bits are Sequence |
| Uint32Id.Uint32Config.EnvUint32 | uint32.go:133-155 | a refused input returns 0 and its error and leaves the state unchanged; otherwise this is one Uint32 call |
| Uint32Id.DistinctIds | uint32.go:124-127 | on a constructed config, calls 1 <= i < j below the period return distinct, non-zero ids |
| Uint32Id.ZeroIds | uint32.go:113-127 | on every uint32 config, when the masks keep nothing of the server and process ids, every call that is a multiple of the period returns 0 from the constructed state |
| Uint32Id.DefaultZeroId | uint32.go:113-127 | on the default layout 5/10/20, server id 1 and a process id with bit 10 clear give 0 at every call that is a multiple of 2^20 |
| Uint64Id.Clamp | uint64.go:51-61 | each width under its minimum (1, 1, 24) is raised to that minimum |
| Uint64Id.Budget | uint64.go:63-70 | the budgeted widths are uint64 values, with server and process at least 1 |
| Uint64Id.NewLayout | uint64.go:50-70 | the chosen widths are uint64 values, with server and process at least 1 |
| Uint64Id.BudgetSum | uint64.go:63-70 | whatever the floored widths, Go's uint64 sum of the budgeted widths is 39 |
| Uint64Id.LayoutSum | uint64.go:63-70 | whatever the inputs, Go's uint64 sum of the chosen widths is 39 |
| Uint64Id.LayoutTotal | uint64.go:63-70 | for non-overflowing inputs, the widths add up to exactly 39, with server and process at least 1 and the sequence at least 24 |
| Uint64Id.LayoutGreedy | uint64.go:67-70 | a floored sum under 39 keeps server and process and gives the sequence 39 - P - S |
| Uint64Id.LayoutFallback | uint64.go:63-66 | a floored sum over 39 gives server 10, process 5, sequence 24 |
| Uint64Id.LayoutExamples | uint64.go:94 | the default config is 5/10/24; (0,0,0) and (1,1,24) give 37 |
| Uint64Id.LayoutKeepsTime | uint64.go:117 | a config built from non-overflowing widths keeps LastTime in the id, with time shift 39 |
| Uint64Id.ProcessOf | uint64.go:99-101 | a non-zero process id is kept; 0 becomes the pid |
| Uint64Id.CheckEnv | uint64.go:130-141 | ok exactly when both ids parse; server id 0 is accepted |
| Uint64Id.Uint64Config.constructor | uint64.go:72-87 | the widths are NewLayout's, Epoch is the clock, CustomEpoch is 0, the state is (0, 0) |
| Uint64Id.Uint64Config.Uint64 | uint64.go:98-121 | the state takes one step of Advance; the id packs the new state with the server id as given and the coerced process id; a valid config stays valid and the id's low bits are Sequence |
| Uint64Id.Uint64Config.EnvUint64 | uint64.go:126-144 | a parse failure returns 0 and its error and leaves the state unchanged; otherwise this is one Uint64 call |
| Uint64Id.DistinctIds | uint64.go:117-120 | on a constructed config, with bit S of the server id clear, calls i < j return different ids while LastTime stays below 2^25, and every call i >= 1 returns a non-zero id |
| Uint64Id.NonZeroIds | uint64.go:98-121 | on a constructed config, whatever the server and process ids, every call n >= 1 returns a non-zero id while LastTime stays below 2^25 |
| Uint64Id.FirstPeriodIds | uint64.go:98-121 | on a constructed config, calls 1 <= i < j within the first tick return different, non-zero ids whatever server and process ids each call passes |

## Left out

- The mutex (`Lock`/`Unlock`) and the goroutine tests are left out. Each call is modelled as one atomic method on the config.
- `time.Now()` is a parameter `now` of the constructors. The `Epoch` field is stored but never read by the source.
- `os.Getpid()` is a parameter `pid` of the generator methods.
- `os.Getenv` and `strconv.ParseInt`/`ParseUint` are left out. Each parse result is an `Option` input, `None` standing for a parse error.
- The `fmt.Errorf` messages are left out. Errors are the tags of `Env.EnvError`.
- doc.go holds only documentation and is not part of this model.
- Int64Id.Int64Config.Int64: Go panics when a shift count is negative. The model does not return that panic as an outcome. The method requires `CanCall()`, which holds exactly when no shift count is negative. Every config built from non-overflowing widths establishes it and keeps it.
- Int64Id.IdLowBits: proved only for layouts whose time field starts inside the word (`KeepsTime`). Every config built from non-overflowing widths has one (`LayoutKeepsTime`). For wrapped layouts from huge widths, the low-bits property is not stated.
- Int64Id.DistinctIds: distinctness is proved only for one server id and one process id passed on both calls, while LastTime fits above the shift (2^37 ticks for every non-overflowing layout) and bit S of the server id is clear. With that bit set, ids repeat: see `Snowflake.DuplicateIds`. Calls that pass different server and process ids are covered only within the first tick, by `Int64Id.FirstPeriodIds`. Non-zero ids are proved for every server and process id, while LastTime fits above the shift (`Int64Id.NonZeroId`).
- Int64Id.StepCounter: proved only while LastTime is below MaxInt64. At MaxInt64 the counter wraps, as `LastTimeOverflow` states.
- Uint64Id.DistinctIds: distinctness is proved only for one server id and one process id passed on both calls, while LastTime stays below 2^25 and bit S of the server id is clear. Calls that pass different ids are covered only within the first tick, by `Uint64Id.FirstPeriodIds`. Non-zero ids are proved for every server and process id, while LastTime stays below 2^25 (`Uint64Id.NonZeroIds`).
- Uint32Id.DistinctIds: proved only below the sequence period. No uint32 id keeps LastTime, so ids repeat after one period (`Snowflake.PeriodicIds`), and at multiples of the period they can be 0 (`Uint32Id.ZeroIds`).
- The `else` branch of the generators (CustomEpoch past LastTime) is modelled. It never runs on an unsigned config because CustomEpoch is always 0. On int64 it runs only after LastTime wraps past MaxInt64.
