# SLO Fabric: model and proofs

SLO Fabric is a runtime that takes in evidence about services, decides whether they meet their
objectives, and issues enforcement intents fenced by generations and epochs. This project models its two
hard parts in Dafny and proves what they are for. `dafny verify dfyconfig.toml` checks everything.

**The byte layer.** CRC-32 (the frame check sequence of IEEE 802.3, clause 3.2.9), the framed stream
protocol, and the versioned state codec.

- `ShiftRegister`, `Crc32`: the table-driven checksum is the bit-serial one, and any change within four
  consecutive bytes is caught, also when it hits the checksum's own bytes.
- `Binary`, `ByteStreams`, `EnumBytes`, `Codec`, `CodecProofs`, `Persistence`: writer and reader objects with
  their cursor, every encoder and decoder as a method, and an exact round trip for whole states.
- `Layout`, `Ranges`: where each field of a file and of a frame stands, at offsets, and what the decoder's tests
  on the bits of doubles say of their numbers.
- `Net`: frames, the one-shot decoder, and the streaming receiver over a transport that splits the bytes
  however it likes.

**The decision engine.** The single mutex makes each public call one atomic step, so the engine is a state
machine over runs of calls.

- `SampleWindows`, `Percentiles`, `Trends`, `Budgets`, `Decisions`, `Binding`: what one objective's evidence
  amounts to, and how objectives compete. `Hysteresis`, `Measures` and `Precedence` say the same of the bare
  numbers, samples and fields, without the functions that compute it.
- `Accumulators`, `Lives`: everything the engine can do to one objective's accumulator is an `Update`; a
  sequence of updates is a life, and the per-objective theorems hold of every life.
- `Tables`, `Engine`, `Fabrics`: the state machine (`Step`, `Run`), and the `Fabric` object whose methods, with
  the loops and field updates of the source, are each proved to take exactly that step.
- `Runs`: a run, seen from one objective, is a life (`Engine.RunIsLife`), and each of its updates comes from a
  call of the matching kind with a definition in force. This carries every theorem on lives over to runs.
- `Fencing`, `Intents`, `Histories`, `Restart`: the theorems on whole runs. `Intake` keeps account of what each
  objective has gathered from outside, by the records answered Ok; `Reports` says what every answer carries.
- `Coordinators`: processes that start, register workers, save, crash and restart, over one state file.

Modelling choices. Times and counts are integers, with the 64-bit bound where the code saturates or wraps.
Measurements are reals; 0.05, 0.10 and 1e-9 are exact. A double inside a record is its eight bytes, read as
the exact number it stands for. Identifiers and generations are 64-bit words. The order in which a hash table
is walked when saving is a parameter, and so are the reason and digest texts of an evaluation.

Where the code does less than its documentation says, the code is followed:

- Hard and soft, the policy mode and the tie-break setting take no part in choosing the binding objective, and
  the states AtRisk, Recovering and Suspended are never produced: `Histories.StatesProduced`.
- One objective without usable evidence hides a violating sibling: `Intents.OverdueRecoveryHidden`, and
  `Intents.EvaluationViolatesExactly` for exactly when a violation shows.
- Evaluating a contract with no objectives takes the first element of an empty list. `Legal` rules it out;
  adding a contract prevents it, superseding and loading do not: `Runs.PopulatedRunIsLegal`,
  `Runs.EmptySupersedeIsIllegal`.
- The generation fence fails where another contract has the intent's objective and service at the old
  generation: `Fencing.SharedObjectiveDefeatsFence`, and `Fencing.ReplacedAcceptedExactly` for exactly when.
- For an at-least objective a measurement of zero or below ranks as if it were one:
  `Binding.AtLeastLosesItsPlace`, and `Binding.KeepsBindingExactly` for exactly when the ranking is right.
- A failure that follows a recorded restoration or verification is not measured until it is verified itself:
  `Lives.SecondFailureGoesUnseen`, `Lives.FailureIsMeasuredExactly`, `Lives.VerifiedFailureIsMeasured`.
- Availability evidence is not checked: `Accumulators.CreditKeepsBalanceExactly` says which values make the
  account claim more than was eligible, or less than nothing.
- Objectives for costs per request or per token are never decided: `Intake.UnitCostUndecided`, and
  `Measures.CostDecidedExactly` for exactly when a cost objective is.
- Availability evidence in percent is taken for basis points: `Intake.PercentCountsForLittle`.
- A contract that is accepted can make every later file unreadable: `Restart.AcceptedContractSpoilsFile`, and
  `Restart.FileLoadsExactly` for exactly when a saved file loads.
- Epochs increase only across incarnations that left a file of their own that loads:
  `Coordinators.EpochsIncreaseExactly`; without a save they repeat, and after a file that does not load they
  fall back to one: `Coordinators.RegisteredTwiceWithoutSave`, `Coordinators.EpochFallsAfterSpoiltSave`. The
  coordinator's own messages add no contract, so from its own scenario only the decoder's limits on count and
  size can spoil its file: `Coordinators.CoordinatorEpochs`.

## Model

| member | source | states |
|---|---|---|
| Crc32.BuildTable | include/slofabric/crc32.hpp:15-29 | entry i of the table is eight shift-register steps from i |
| Crc32.Compute | include/slofabric/crc32.hpp:33-41 | the table loop yields the checksum that is defined bit by bit |
| Crc32.TableDrivenIsBitSerial | include/slofabric/crc32.hpp:19-40 | on every input, folding with the table equals clocking in one message bit at a time |
| Crc32.CheckValue | include/slofabric/crc32.hpp:15-41 | the published check value: "123456789" has checksum 0xCBF43926, which fixes start value, polynomial, bit order and complement; the empty message has zero |
| Crc32.LeadingZeroCounts | include/slofabric/crc32.hpp:33-41 | a zero byte in front of any message changes its checksum |
| Crc32.BurstDetected | include/slofabric/crc32.hpp:33-41 | two buffers of equal length that differ only within four consecutive bytes never have the same checksum |
| Crc32.SealBreaks | src/slofabric/persistence.cpp:372-394 | a sealed buffer changed within four consecutive bytes, body or checksum, is no longer sealed |
| Crc32.SealSeals | src/slofabric/persistence.cpp:374-377 | appending the checksum low byte first makes a buffer that passes the check |
| ByteStreams.ByteWriter.WriteWord | include/slofabric/binary.hpp:26-33 | appends the little-endian digits of a word to the buffer |
| ByteStreams.ByteWriter.WriteText | include/slofabric/binary.hpp:35-38 | appends the length as a 64-bit word and then the bytes |
| ByteStreams.ByteReader.ReadWord | include/slofabric/binary.hpp:86-111 | takes a little-endian word off the unread bytes, or fails when they are too few; the cursor stays within the data |
| ByteStreams.ByteReader.ReadText | include/slofabric/binary.hpp:113-121 | takes a counted text within the limit, or fails |
| ByteStreams.ByteReader.ReadBool | include/slofabric/binary.hpp:74-79 | any byte but zero reads as true |
| CodecProofs.ValueRoundTrip | src/slofabric/persistence.cpp:37-73 | reading a written value gives it back, or fails exactly when the value is one the reader forbids |
| Ranges.RangesExactly | src/slofabric/persistence.cpp:53-143 | the range tests on bits say of a finite double: a percentage from 0 to 100, a fraction from 0 to 1, a pressure not negative; what is not a number is refused except as a fraction |
| Ranges.LargerBits | include/slofabric/objective_value.hpp:93-107 | positive doubles are ordered as their bits are |
| CodecProofs.ObjectiveRoundTrip | src/slofabric/persistence.cpp:87-143 | reading a written objective gives it back exactly when it meets the decoder's demands |
| CodecProofs.ContractRoundTrip | src/slofabric/persistence.cpp:145-184 | the same for contracts with their counted objectives and optional expiration |
| CodecProofs.ReceiptRoundTrip | src/slofabric/persistence.cpp:205-236 | the same for enforcement receipts |
| CodecProofs.SnapshotRoundTrip | src/slofabric/persistence.cpp:238-260 | the same for saved objective states, whose budget counts must not be negative |
| CodecProofs.EvaluationRoundTrip | src/slofabric/persistence.cpp:262-290 | evaluation records always come back |
| CodecProofs.DeserializeUndoesSerialize | src/slofabric/persistence.cpp:294-341 | deserializing a serialized state gives it back exactly when the state is well formed and not oversized |
| CodecProofs.DecodedIsGood | src/slofabric/persistence.cpp:312-341 | whatever the bytes, a state that the decoder delivers meets all its demands |
| CodecProofs.AcceptedBodiesArePrefixFree | src/slofabric/persistence.cpp:312-341 | no accepted body is a proper prefix of another, so every truncation and extension is refused |
| Layout.StateLayout | src/slofabric/persistence.cpp:294-310 | a state file starts with 0x534C4F46 and version 2 in four bytes each, the epoch and the number of policies in eight, and the policies follow |
| Layout.SnapshotLayout | src/slofabric/persistence.cpp:238-244 | the offset of every field of a saved objective state, low byte first and in two's complement: 65 bytes |
| Layout.EvaluationLayout | src/slofabric/persistence.cpp:262-271 | the same for an evaluation record: 75 bytes |
| Layout.ReceiptLayout | src/slofabric/persistence.cpp:205-215 | the same for a receipt: 106 bytes and its reason |
| Layout.PolicyLayout | src/slofabric/persistence.cpp:186-191 | the same for a policy: 34 bytes and its two texts |
| Layout.ContractLayout | src/slofabric/persistence.cpp:145-149 | the same for the head of a contract, with the number of its objectives in front of them |
| Layout.TermsLayout | src/slofabric/persistence.cpp:150-153 | the same for its terms, with the flag of the expiration date |
| Layout.OwnerLayout | src/slofabric/persistence.cpp:154-157 | the same for the end of a contract |
| Layout.ObjectiveLayout | src/slofabric/persistence.cpp:87-94 | the same for the head of an objective, behind its name |
| Layout.LimitsLayout | src/slofabric/persistence.cpp:95-99 | target, breach and recovery threshold: nine bytes each with their unit, the thresholds behind a flag |
| Layout.RequirementsLayout | src/slofabric/persistence.cpp:100-110 | the 63 bytes of evidence requirements and window that end an objective |
| Persistence.SerializeState | src/slofabric/persistence.cpp:294-310 | the writer loop produces the specified bytes |
| Persistence.DeserializeState | src/slofabric/persistence.cpp:312-341 | the reader loop accepts and yields exactly what the specification does |
| Persistence.EncodeObjective | src/slofabric/persistence.cpp:87-112 | appends the specified bytes of an objective |
| Persistence.DecodeObjective | src/slofabric/persistence.cpp:114-143 | consumes and yields what the specification does, with all its checks |
| Persistence.DecodeContract | src/slofabric/persistence.cpp:161-184 | the same for contracts |
| Persistence.SaveImage | src/slofabric/persistence.cpp:372-379 | the file is the body followed by its checksum |
| Persistence.LoadImage | src/slofabric/persistence.cpp:381-400 | size, checksum and body are checked in order |
| Persistence.LoadUndoesSave | src/slofabric/persistence.cpp:372-400 | loading a saved file yields the state saved, exactly when the decoder's demands are met |
| Persistence.DamagedFileIsRejected | src/slofabric/persistence.cpp:381-397 | a file that passes the checksum, whether or not it decodes, changed within four consecutive bytes anywhere, does not load |
| Net.EncodeFrame | src/slofabric/net.cpp:63-74 | builds header, payload and checksum as specified |
| Net.DecodeFrame | src/slofabric/net.cpp:76-101 | makes each check of the one-shot decoder in order |
| Net.DecodeUndoesEncode | src/slofabric/net.cpp:63-101 | decoding an encoded frame gives it back exactly when its payload is within the limit |
| Layout.FrameLayout | src/slofabric/net.cpp:63-74 | every byte of an encoded frame: 0x534C4631, kind, flags, length, payload and the checksum of all before it |
| Layout.FrameLimit | src/slofabric/net.cpp:76-101 | a frame comes back exactly when its payload has at most 4194304 bytes |
| Net.DamagedFrameIsRejected | src/slofabric/net.cpp:76-101 | a buffer that passes the checksum, changed within four consecutive bytes, whichever field is hit, is rejected |
| Net.DamagedEncodingIsRejected | src/slofabric/net.cpp:63-101 | the same for every encoded frame, whatever the size of its payload |
| Net.RecvExact | src/slofabric/net.cpp:27-41 | however the transport splits the bytes, exactly the next n are returned, or failure when they never come |
| Net.SendExact | src/slofabric/net.cpp:43-56 | success means that all bytes were sent in order, failure that a proper prefix was |
| Net.SendFrame | src/slofabric/net.cpp:103-107 | sends the encoded frame, and nothing of an oversized one |
| Net.RecvFrame | src/slofabric/net.cpp:109-132 | takes one frame off the stream as specified, for any split into partial reads |
| Net.TakeAgreesWithDecode | src/slofabric/net.cpp:76-132 | the streaming receiver yields a frame exactly when the one-shot decoder accepts the bytes it consumed |
| Net.RecvAll | src/slofabric/net.cpp:103-132 | repeated receiving returns exactly the frames sent, in order, and leaves what follows them |
| SampleWindows.SampleWindow.Push | include/slofabric/sample_window.hpp:70-132 | the object's verdict and new contents are those of the one-sample specification |
| SampleWindows.SampleWindow.EvictByAge | include/slofabric/sample_window.hpp:197-203 | drops from the front the samples that are as old as the interval |
| SampleWindows.IngestKeepsBatch | include/slofabric/sample_window.hpp:70-132 | one arrival keeps the window equal to its batch specification over the accepted history |
| SampleWindows.WindowIsBatch | include/slofabric/sample_window.hpp:70-132 | after any arrivals: sliding is the last capacity samples younger than the interval, rolling count the last capacity, tumbling and fixed the newest bucket; times and sequence numbers stay ordered |
| SampleWindows.HeldExactly | include/slofabric/sample_window.hpp:88-129 | sample by sample, which part of its history a window holds: by number from the end, by age below the interval, by bucket; it is always the tail |
| SampleWindows.LargestIsTenTo300 | include/slofabric/sample_window.hpp:71 | the largest value taken is the 300th power of ten |
| SampleWindows.VerdictIsExact | include/slofabric/sample_window.hpp:70-132 | the verdict on a reading by its own value, time and number, not-a-number and plus infinity included; Late and Closed never occur |
| SampleWindows.QuotientIsDivision | include/slofabric/sample_window.hpp:114-115 | bucket numbers come from division that truncates toward zero |
| SampleWindows.HeldIsOrdered | include/slofabric/sample_window.hpp:97-103 | what a window holds is ordered, ends with the newest sample, and in a sliding window lies within one interval of it |
| Percentiles.ComputeQuantile | include/slofabric/sample_window.hpp:168-186 | sorting and indexing yields the nearest-rank value |
| Percentiles.QuantileIsLeast | include/slofabric/sample_window.hpp:168-186 | the percentile is a stored sample, and is the least value with at least ceil(pN) samples at or below it |
| Percentiles.QuantileExceeds | include/slofabric/sample_window.hpp:168-186 | it exceeds a limit exactly when at least N - ceil(pN) + 1 samples do |
| Percentiles.QuantileMonotone | include/slofabric/sample_window.hpp:176-184 | it never falls as p grows |
| Percentiles.QuantileIgnoresOrder | include/slofabric/sample_window.hpp:168-186 | it does not depend on the order of arrival |
| Percentiles.ComputeMean | include/slofabric/sample_window.hpp:145-153 | the loop yields the sum over the count, and zero for no samples |
| Percentiles.ComputeExtremes | include/slofabric/sample_window.hpp:154-165 | the loops yield the smallest and the largest value |
| Percentiles.ExtremesBound | include/slofabric/sample_window.hpp:154-165 | these are stored values that bound all others |
| Trends.ComputeTrendRisk | src/slofabric/fabric.cpp:383-403 | the accumulating loop yields the risk of the fitted line |
| Trends.FitGrows | src/slofabric/fabric.cpp:389-395 | what one more sample adds to the least-squares denominator and numerator |
| Trends.DenominatorSign | src/slofabric/fabric.cpp:394-395 | the denominator is never negative, and zero exactly when all sample times coincide |
| Trends.NumeratorFalls | src/slofabric/fabric.cpp:396 | Chebyshev's sum inequality: samples in time order whose values never rise have no positive covariance |
| Trends.NoRiskWithoutRise | src/slofabric/fabric.cpp:383-403 | a window reached by any arrivals, whose values never rise over time, predicts no risk |
| Trends.RiskExactly | src/slofabric/fabric.cpp:383-402 | exactly when a line is Elevated or High: four samples, positive pairwise covariance and dispersion, and a projection over the window, or over a minute where there is none, above the limit or one and a half times it |
| Budgets.ErrorBudget.Consume | include/slofabric/budget.hpp:72-76 | counts one event, and stops at the largest integer |
| Budgets.ErrorBudget.ConsumeCount | include/slofabric/budget.hpp:77-83 | charges a positive amount that fits, and otherwise nothing |
| Budgets.ErrorBudget.ResetWindow | include/slofabric/budget.hpp:120-123 | starts a new window with nothing consumed |
| Budgets.Accounting | include/slofabric/budget.hpp:60-68 | remaining and consumed make up total and overrun, and one of remaining and overrun is zero |
| Budgets.ExhaustedIsNoneLeft | include/slofabric/budget.hpp:85-92 | the state is exhausted exactly when nothing remains |
| Budgets.StateExactly | include/slofabric/budget.hpp:85-92 | healthy below nine tenths consumed, exhausted from all of it on, near the limit between |
| Budgets.BurnClassExactly | include/slofabric/budget.hpp:102-118 | normal up to the elapsed share, critical above twice it |
| Budgets.ChargedCounts | include/slofabric/budget.hpp:72-76 | n events raise the count by n, up to the largest integer |
| Budgets.RestoredCount | include/slofabric/budget.hpp:77-83 | charging a saved count at once is the same as charging its events one by one |
| Budgets.BurnIsProportion | include/slofabric/budget.hpp:94-111 | at every time the burn rate is above r exactly when the consumed share is more than r times the elapsed share; zero with no total or nothing elapsed |
| Decisions.WorseZone | src/slofabric/fabric.cpp:338-353 | a worse measurement never lands in a better zone, in either direction |
| Decisions.ViolatingExactly | src/slofabric/fabric.cpp:338-365 | over any evaluations from a start that is not latched: Violating exactly when some evaluation breached and since then all had usable evidence and none was clear |
| Decisions.ViolatingWhileUsable | src/slofabric/fabric.cpp:355-365 | with usable evidence throughout: exactly when some evaluation breached and none since was clear |
| Decisions.OtherStates | src/slofabric/fabric.cpp:769-798 | exactly when the state is Compliant, NearLimit, stale or without evidence |
| Hysteresis.ViolatingByNumbers | src/slofabric/fabric.cpp:338-365 | the trace theorem on the numbers, for both comparisons and any thresholds: Violating exactly when some measurement was beyond the breach threshold by 1e-9 and since then every one was usable and not inside |
| Hysteresis.OthersByNumbers | src/slofabric/fabric.cpp:769-798 | exactly when Compliant, NearLimit, stale or without evidence, by the last measurement, the thresholds, the five percent band and the cap of the unit |
| Hysteresis.AtMostLatch | src/slofabric/fabric.cpp:343-348 | with recovery below breach: exactly when some measurement was above breach + 1e-9 and every later one was usable and above recovery + 1e-9 |
| Hysteresis.AtLeastLatch | src/slofabric/fabric.cpp:349-352 | the mirror image for at-least objectives |
| Hysteresis.BandHolds | tests/test_fabric2.cpp:160-187 | breach 0.90, recovery 0.80: 0.95 violates, 0.85 still does, 0.75 does not |
| Hysteresis.MagnitudeByNumbers | src/slofabric/fabric.cpp:697-702 | the magnitude times the breach threshold is the measurement; the other way round for at-least objectives |
| Doubles.NextExponent | include/slofabric/objective_value.hpp:93-107 | a double with the next exponent is twice the number |
| Doubles.WithinExponent | include/slofabric/objective_value.hpp:93-107 | between two exponents, and below the first, the numbers are spaced evenly |
| Doubles.OneIsOne | include/slofabric/objective_value.hpp:93-107 | the bits 0x3FF0000000000000 are the number one |
| Decisions.WorseMagnitude | src/slofabric/fabric.cpp:697-702 | a worse measurement has no smaller magnitude exactly unless an at-least objective falls from between zero and one to zero or below |
| Binding.FrontIsLeast | src/slofabric/fabric.cpp:820-826 | whatever the sorting algorithm, the front of the sorted candidates is the least one, for distinct names |
| Binding.PickBinding | src/slofabric/fabric.cpp:820-827 | finds the least candidate |
| Binding.BindingIsUnique | src/slofabric/fabric.cpp:816-828 | with usable evidence and some objective not compliant, the binding one is the unique least by severity, larger magnitude, priority and name |
| Precedence.BindingSpelledOut | src/slofabric/fabric.cpp:816-828 | an objective binds exactly when it is out of compliance and, against each other such one, is more severe, or further out, or of a smaller priority number, or has a name that is a proper prefix or smaller at the first byte that differs |
| Precedence.LexIsNameFirst | src/slofabric/fabric.cpp:824 | the order of names is that one |
| Binding.BindingIgnoresOrder | src/slofabric/fabric.cpp:816-828 | with usable evidence and some objective not compliant, the verdict is the same for every order of the objectives |
| Binding.WorseStaysBinding | src/slofabric/fabric.cpp:697-702 | a binding objective that gets worse, in either direction of comparison, stays binding when it becomes more severe or its magnitude does not fall |
| Binding.KeepsBindingExactly | src/slofabric/fabric.cpp:697-702 | that is exactly when it keeps its place against all other judgements that could be made; otherwise another objective with the same limits takes it |
| Binding.AtLeastLosesItsPlace | src/slofabric/fabric.cpp:701 | an at-least objective with target 100 that falls from one half to zero loses its place to an at-most one at 150 times its target |
| Binding.CompliantExactly | src/slofabric/fabric.cpp:806-829 | the overall state is Compliant exactly when every objective is |
| Binding.SecondariesExactly | src/slofabric/fabric.cpp:834-838 | the secondary constraints are exactly the other objectives that are not compliant, each once |
| Accumulators.ComputeMeasure | src/slofabric/fabric.cpp:248-318 | each dimension's measurement, or none where evidence is missing or too little |
| Measures.MeasureMeans | src/slofabric/fabric.cpp:248-318 | for every dimension and kind, exactly when something is measured and what: a mean times the count is the total, a deadline or pressure maximum exceeds x exactly when some sample does, headroom is below x exactly when some sample is, a percentile exceeds x exactly when fewer than its share of the samples are at most x, availability times the eligible amount is 10000 times the served, a cost budget is the total of its costs |
| Measures.PercentileExceeds | include/slofabric/sample_window.hpp:168-186 | the percentile of rank p exceeds x exactly when fewer than the share p of the values are at most x |
| Measures.FreshnessByAge | src/slofabric/fabric.cpp:229-245 | exactly when the evidence of a window objective is current or stale, by the age of its newest sample |
| Measures.FreshnessExpires | src/slofabric/fabric.cpp:213-230 | exactly when evidence is missing altogether, for each dimension |
| Measures.PredictionExactly | src/slofabric/fabric.cpp:368-405 | what is predicted for an objective, with pace and slope multiplied out |
| Measures.JudgedByNumbers | src/slofabric/fabric.cpp:787-800 | state, rank and magnitude of an objective with usable evidence, by the measured number, the thresholds, the last state and the budget after rolling over |
| Measures.JudgedWithout | src/slofabric/fabric.cpp:769-784 | without usable evidence: revalidation for stale evidence, and otherwise insufficient |
| Measures.JudgedBudget | src/slofabric/fabric.cpp:763-767 | what a judgement says of the budget that it leaves |
| Measures.CostDecidedExactly | src/slofabric/fabric.cpp:225-288 | a cost objective has usable evidence exactly when its list of costs has an item and, for costs per request or token, its window enough samples |
| Accumulators.EvictCosts | src/slofabric/fabric.cpp:73-81 | keeps the costs within the interval, at most the last 4096 |
| Accumulators.CreditKeepsBalanceExactly | src/slofabric/fabric.cpp:592-604 | availability evidence, whose value is not checked, keeps serving between zero and eligible exactly when its share is above minus one and below its weight plus one |
| Accumulators.CreditInRange | src/slofabric/fabric.cpp:592-604 | values from zero to ten thousand do, and less than one unit is rounded away |
| Accumulators.BalancedRatio | src/slofabric/fabric.cpp:55-66 | measured availability stays between nothing and everything |
| Accumulators.AddCostKeepsTail | src/slofabric/fabric.cpp:73-81 | a cost window keeps a tail that ends with the new item, and drops exactly what is too old or too many |
| Accumulators.AddCostExactly | src/slofabric/fabric.cpp:73-81 | exactly what stays when a cost is added: all from the first item that is not too old, at most the last 4096 |
| Accumulators.CostRiskIsPace | src/slofabric/fabric.cpp:370-382 | cost risk is predicted exactly when spending is ahead of the target's share of the window that has passed, at all times and for all windows; for a negative target, ahead of one and a half times that |
| Lives.SecondFailureGoesUnseen | src/slofabric/fabric.cpp:627-633 | a failure measures no positive duration, however long it goes on, exactly when it comes after a recorded verification, or after a restoration with no verification |
| Lives.FailureIsMeasuredExactly | src/slofabric/fabric.cpp:87-102 | a failure in progress is measured as the time since it became authoritative exactly when no restoration and no verification preceded it in its generation |
| Lives.VerifiedFailureIsMeasured | src/slofabric/fabric.cpp:87-102 | a verification recorded for a failure makes it measure its real duration, whatever came before |
| Lives.RecoveryOverLife | src/slofabric/fabric.cpp:87-102 | over every life within a generation: from the last failure to the last verification, else the last restoration, else now |
| Lives.LifeWindowSound | src/slofabric/fabric.cpp:119-156 | through every life, generation changes included, the window is one that ingesting built for its definition |
| Lives.AgeBound | src/slofabric/fabric.cpp:230-244 | every sample behind a definite verdict on a sliding window is younger than two windows, or than the freshness limit and a window |
| Lives.BudgetFollowsLedger | src/slofabric/fabric.cpp:150-156 | the budget follows an unbounded ledger through every life without a load |
| Lives.CooldownLasts | src/slofabric/fabric.cpp:956-959 | a cooldown stays through every life within its generation that sets no other |
| Lives.StateFollowsSightings | src/slofabric/fabric.cpp:787-798 | the noted state is what the evaluations alone lead to, whatever happens between them |
| Lives.RecentIsLast | src/slofabric/fabric.cpp:119-127 | within a generation an objective remembers exactly the last 4096 distinct ids it was given |
| Lives.RefusedWhileRecent | src/slofabric/fabric.cpp:569-571 | an id it remembers is refused until 4096 further ones are remembered |
| Engine.RunIsLife | src/slofabric/fabric.cpp:199-209 | a run of calls changes an objective's accumulator by that objective's updates and nothing else |
| Runs.RunUpdatesInForce | src/slofabric/fabric.cpp:555-665 | every update in a run comes from a call of its kind, with a definition in force at that point of the run |
| Runs.PopulatedRunIsLegal | src/slofabric/fabric.cpp:466-517 | a run in which every superseding and loaded contract has objectives never evaluates an empty contract |
| Runs.EmptySupersedeIsIllegal | src/slofabric/fabric.cpp:507-517 | superseding by a contract without objectives and then evaluating it does |
| Fabrics.Fabric.constructor | src/slofabric/fabric.cpp:160-184 | a new fabric is empty, with epoch one |
| Fabrics.Fabric.SetPolicy | src/slofabric/fabric.cpp:457-464 | a policy is stored if its generation is higher, with the whole new state and answer |
| Fabrics.Fabric.AddContract | src/slofabric/fabric.cpp:466-481 | objectives are checked in order, then the generation |
| Fabrics.Fabric.SupersedeContract | src/slofabric/fabric.cpp:507-517 | only the generation is checked |
| Fabrics.Fabric.AmendContract | src/slofabric/fabric.cpp:483-525 | activating, suspending, expiring and retiring change lifecycle and dates only |
| Fabrics.Fabric.NoteEvidence | src/slofabric/fabric.cpp:186-197 | refuses id zero and known ids, and otherwise rings the id in |
| Fabrics.Fabric.IngestEvidence | src/slofabric/fabric.cpp:555-615 | note, epoch, definition, generation, then the accumulator, in this order |
| Fabrics.TakeIn | src/slofabric/fabric.cpp:570-614 | what evidence does to an accumulator, by its dimension |
| Intake.StockOverRun | src/slofabric/fabric.cpp:555-615 | through any run without a load, within a generation: what an objective has gathered is what the records answered Ok brought, kept account of from outside: the window is the batch window of their times and values in order, the amounts are their sums, the costs theirs |
| Intake.GatheredOverRun | src/slofabric/fabric.cpp:555-615 | so the samples held are, by time and value, exactly those to be kept of all records answered Ok |
| Intake.AnsweredExactly | src/slofabric/fabric.cpp:555-615 | a record is answered Ok exactly when its id is new to fabric and objective, epoch and generation are current or absent, its unit is right, and it is for availability, for costs, or a sample not too large and not from before the newest |
| Intake.RefusedExactly | src/slofabric/fabric.cpp:555-615 | and otherwise the answer is that of the first test that fails |
| Intake.WorstOverRun | src/slofabric/fabric.cpp:289-318 | a deadline or pressure objective measures above x exactly when a record answered Ok, of those to be kept, is above x |
| Intake.AvailabilityOverRun | src/slofabric/fabric.cpp:592-604 | measured availability times all weights answered Ok is 10000 times what they served |
| Intake.UnitCostUndecided | src/slofabric/fabric.cpp:225-228 | an objective for costs per request or per token is InsufficientEvidence after every run, whatever was answered Ok |
| Intake.UnitCostHidesContract | src/slofabric/fabric.cpp:806-829 | and a contract with one gets no verdict and no action |
| Intake.PercentCountsForLittle | src/slofabric/fabric.cpp:592-604 | availability evidence in percent is credited with at most a hundredth of its weight |
| Fabrics.FindDefinition | src/slofabric/fabric.cpp:562-566 | the nested walk finds the first definition of the highest generation |
| Fabrics.Fabric.RecordRecoveryEvent | src/slofabric/fabric.cpp:617-635 | marks the phase and its time |
| Fabrics.Fabric.IngestViolationEvent | src/slofabric/fabric.cpp:637-648 | looks the accumulator up once per contract, then charges the budget if there is one |
| Fabrics.Fabric.SetObjectiveBudget | src/slofabric/fabric.cpp:653-665 | replaces the budget unless the total is negative |
| Fabrics.JudgeObjectives | src/slofabric/fabric.cpp:741-804 | the loop judges each objective after noting the ones before it |
| Fabrics.JudgeOne | src/slofabric/fabric.cpp:752-798 | budget rollover, state, risk, rank and magnitude of one objective |
| Fabrics.ReachVerdict | src/slofabric/fabric.cpp:806-829 | the loops over judgements yield the verdict |
| Fabrics.Explain | src/slofabric/fabric.cpp:833-886 | secondary constraints, risks and ranked intents in order |
| Fabrics.Fabric.Evaluate | src/slofabric/fabric.cpp:711-913 | selection, policy check, judgements, verdict, intent and record: the whole new state and answer |
| Fabrics.Fabric.Authorize | src/slofabric/fabric.cpp:918-964 | the fences in order, then receipt, cooldown and history |
| Fabrics.Fabric.Save | src/slofabric/fabric.cpp:1008-1033 | lists every accumulator once and changes nothing |
| Fabrics.Fabric.Load | src/slofabric/fabric.cpp:1035-1070 | next epoch, tables, restored accumulators and histories |
| Fencing.FencedForever | src/slofabric/fabric.cpp:918-936 | once the contract or policy generation of an intent is replaced, no run without a load makes it acceptable, as long as no other contract is accepted with its objective and service at that generation |
| Fencing.ReplacedAcceptedExactly | src/slofabric/fabric.cpp:925-936 | a replaced intent is accepted exactly when the last contract with its objective and service is another one, at the old generation, with authority and the intent's policy generation |
| Fencing.AcceptedReplacement | src/slofabric/fabric.cpp:457-481 | an accepted new generation of the contract or of its policy replaces what the intent carries |
| Fencing.GenerationsRise | src/slofabric/fabric.cpp:457-517 | no call but a load lowers a generation or removes a contract or policy |
| Fencing.EvidencePassesExactly | src/slofabric/fabric.cpp:555-568 | new evidence passes exactly with no epoch or the current one, a known objective, and no generation or the highest one in force |
| Fencing.NewestIsHighest | src/slofabric/fabric.cpp:562-566 | the definition found has the highest generation, and none is found exactly when no contract has the objective |
| Fencing.ScopedIsHighest | src/slofabric/fabric.cpp:714-719 | the contract evaluated has the highest generation among those that may authorize for the scope |
| Fencing.AddedExactly | src/slofabric/fabric.cpp:466-481 | exactly which contracts are added, and that a refused one changes nothing |
| Reports.ReplacedExactly | src/slofabric/fabric.cpp:457-517 | exactly which policies and superseding contracts are accepted, and that nothing else changes |
| Reports.AddedOnStep | src/slofabric/fabric.cpp:466-481 | the same for contracts that are added, with the unit of every target spelled out |
| Reports.LifecycleOnStep | src/slofabric/fabric.cpp:483-525 | what each lifecycle call makes of the contract it names, and that only activation lets it authorize |
| Reports.EventsAnswered | src/slofabric/fabric.cpp:617-665 | exactly which recovery events, violation events and budgets are answered Ok |
| Fencing.SharedObjectiveDefeatsFence | src/slofabric/fabric.cpp:925-931 | with a second contract that has the objective at the old generation, an intent of the replaced contract is accepted |
| Fencing.SavingIncarnationIsFenced | src/slofabric/fabric.cpp:555-561 | after a load of what a fabric saved, and any run without a load, its intents and its stamped evidence are refused |
| Fencing.IntentsCarryEpoch | src/slofabric/fabric.cpp:840-848 | the intents a fabric issues carry its epoch |
| Intents.IntentMeans | src/slofabric/fabric.cpp:711-865 | an intent with an action implies an authorizing contract, its policy's generation, usable evidence for every objective, an enforceable binding objective and a passed cooldown |
| Intents.IntentExactly | src/slofabric/fabric.cpp:806-865 | an evaluation asks for an action exactly when all evidence is usable, some objective is not compliant, the binding one may be enforced and its cooldown has passed |
| Reports.EvaluatedExactly | src/slofabric/fabric.cpp:711-724 | an evaluation is carried out exactly when the first contract of the highest generation among the active, effective, unexpired ones of the scope is under its policy's generation; the answer names both |
| Reports.JudgementOnStep | src/slofabric/fabric.cpp:741-804 | each judgement in an answer, by the numbers and by what the fabric holds |
| Reports.VerdictOnStep | src/slofabric/fabric.cpp:806-832 | overall state and binding objective of every answer, with the order of precedence spelled out |
| Reports.ActionOnStep | src/slofabric/fabric.cpp:851-865 | the action asked for, by dimension and severity of the binding objective that the intent names |
| Reports.ListsOnStep | src/slofabric/fabric.cpp:833-875 | secondary constraints, ranked intents and risks of every answer |
| Reports.RecordOnStep | src/slofabric/fabric.cpp:895-910 | which fields the record of an evaluation and the stamps of its intent carry; the last 1024 records are kept |
| Reports.AuthorizedExactly | src/slofabric/fabric.cpp:918-936 | an intent is authorized exactly when it is of this epoch, asks for an action, and the last contract with its service and objective has its generation, is active, effective and unexpired, under a policy of its generation |
| Reports.ReceiptOnStep | src/slofabric/fabric.cpp:938-963 | which fields a receipt carries, the cooldown, and that nothing else changes; the last 1024 receipts are kept |
| Intents.EvaluationViolatesExactly | src/slofabric/fabric.cpp:806-829 | an evaluation is Violating exactly when all evidence is usable and some objective violates |
| Intents.OverdueRecoveryViolates | src/slofabric/fabric.cpp:264-273 | a recovery that has lasted past its breach threshold violates, in whatever contract, and the contract too when all evidence is usable |
| Intents.OverdueRecoveryHidden | src/slofabric/fabric.cpp:806-815 | an overdue recovery beside an objective without evidence is reported as insufficient evidence |
| Intents.OverdueRecoveryAsksFailover | src/slofabric/fabric.cpp:264-273 | where an overdue recovery is all that is out of compliance, may be enforced and is not cooling down, failover is asked for |
| Intents.AuthorizeAccepts | src/slofabric/fabric.cpp:918-936 | authorizing it at the same time with no call between succeeds, where no other contract has the objective and service |
| Intents.CooldownHoldsBack | src/slofabric/fabric.cpp:858-863 | after an accepted authorization with any cooldown, until it ends every evaluation binding that objective asks for nothing, barring another accepted authorization, another generation in force or a load |
| Intents.EvaluateAuthorizeHoldBack | src/slofabric/fabric.cpp:858-959 | evaluation, authorization and every later evaluation in one statement |
| Histories.RingIsLast | src/slofabric/fabric.cpp:186-197 | through every run, loads included, the ring is the last 8192 noted ids without repeats and the set has the same ids |
| Histories.RefusedWhileNoted | src/slofabric/fabric.cpp:558-559 | a noted id is refused without any effect until 8192 further ids are noted |
| Histories.RecentOverRun | src/slofabric/fabric.cpp:119-127 | the objective's own memory over runs of calls |
| Histories.RecentSoundAlways | src/slofabric/fabric.cpp:119-127 | in every reachable state, ring and set of each accumulator agree, without repeats and within capacity |
| Histories.TakenOnce | src/slofabric/fabric.cpp:569-571 | evidence given to an objective is not taken in again while the objective remembers it, even if the fabric has forgotten it |
| Histories.BudgetIsAudited | src/slofabric/fabric.cpp:637-665 | consumed is the number of violation events answered Ok since the budget was set or rolled over, whatever else is called, loads excepted |
| Histories.HysteresisOverRun | src/slofabric/fabric.cpp:787-798 | the latch as a property of runs of calls |
| Histories.ViolatingOverRun | src/slofabric/fabric.cpp:787-798 | and by the measured numbers against the thresholds of the objective |
| Histories.StatesProduced | src/slofabric/fabric.cpp:355-365 | in every state that a run reaches, no objective is noted as AtRisk, Recovering or Suspended |
| Histories.StatesReported | src/slofabric/fabric.cpp:806-829 | and no evaluation reports one of them |
| Histories.RecoveryOverRun | src/slofabric/fabric.cpp:617-635 | the same over runs of calls, by the events answered Ok |
| Histories.AgeBoundOverRun | src/slofabric/fabric.cpp:289-317 | the age bound in every evaluation that any run leads to |
| Histories.NoRiskOverRun | src/slofabric/fabric.cpp:368-405 | no predicted risk without a rise, in every evaluation that any run leads to |
| Restart.LoadedSlot | src/slofabric/fabric.cpp:1047-1063 | what load makes of each saved accumulator: an empty one with budget and cooldown, or none where no contract has its generation |
| Restart.RestartKeeps | src/slofabric/fabric.cpp:1008-1070 | save then load keeps policies, contracts, histories, and for each matching accumulator the cooldown and every budget whose total is not zero |
| Restart.SavedSnapshot | src/slofabric/fabric.cpp:1008-1033 | which fields of an accumulator save writes |
| Restart.RestartedEmpty | src/slofabric/fabric.cpp:1047-1063 | a restarted accumulator has no evidence, and has to be revalidated since the time of its last state |
| Restart.UndecidedAfterLoad | src/slofabric/fabric.cpp:769-859 | after a load a contract with a non-recovery objective gets no verdict and no action until evidence for that objective is answered Ok; refused records do not matter |
| Restart.InsufficientAfterLoad | src/slofabric/fabric.cpp:806-829 | with no evidence answered Ok since the load the answer is exactly InsufficientEvidence |
| Restart.FileLoadsExactly | src/slofabric/fabric.cpp:1008-1041 | the file saved by any run loads exactly when its texts, contracts and counts are within the decoder's limits |
| Restart.LoadedIsSavable | src/slofabric/fabric.cpp:1035-1070 | a loaded fabric, whatever it was before, is one whose file only count or size can spoil |
| Restart.AcceptedContractSpoilsFile | src/slofabric/fabric.cpp:466-481 | an accepted contract with an empty window makes every file saved with it unreadable |
| Coordinators.Coordinator.constructor | distributed/coordinator_main.cpp:239-246 | a new process takes up the state file if it is good, and its epoch |
| Coordinators.DecodeHello | distributed/distributed_protocol.hpp:25-32 | name, boot id and epoch of a greeting, or failure |
| Coordinators.GreetingAnswered | distributed/coordinator_main.cpp:142-170 | the answer to a greeting by its name, boot id and epoch, and what is remembered |
| Coordinators.Coordinator.HandleHello | distributed/coordinator_main.cpp:142-170 | malformed, stale epoch, stale boot id, or registered, in this order |
| Coordinators.Coordinator.SaveFile | distributed/coordinator_main.cpp:215-221 | what a kill or shutdown message writes |
| Coordinators.EpochsIncreaseExactly | distributed/coordinator_main.cpp:215-246 | across incarnations epochs strictly increase exactly when each one left a file of its own that loads before the next started, and never fall exactly when none past epoch one left a file that does not load |
| Coordinators.CoordinatorEpochs | distributed/coordinator_main.cpp:142-246 | the coordinator as it is, with its file format and messages: as long as what it saves stays within the decoder's count and size, epochs never fall, and strictly increase exactly when each incarnation saved before the next started |
| Coordinators.CoordinatorRegistersOnce | distributed/coordinator_main.cpp:142-170 | then, when each incarnation saved, no worker name, boot id and epoch is registered twice |
| Coordinators.EpochFallsAfterSpoiltSave | distributed/coordinator_main.cpp:215-246 | a process past epoch one whose saved state does not load again is followed by one at epoch one |
| Coordinators.AcceptedContractSpoilsSave | distributed/coordinator_main.cpp:215-221 | for a fabric that accepts further contracts, one with an empty window makes for such a state |
| Coordinators.NeverRegisteredTwice | distributed/coordinator_main.cpp:142-170 | no worker name, boot id and epoch is registered twice when no two incarnations have the same epoch |
| Coordinators.RegistersAgainExactly | distributed/coordinator_main.cpp:155-165 | a greeting registers a name, boot id and epoch again exactly when it carries the running epoch, the process has not seen the boot id, and an earlier incarnation at the same epoch has |
| Coordinators.EarlierIncarnationsAreFenced | distributed/coordinator_main.cpp:239-246 | the running process refuses every intent and stamped record of every earlier incarnation that had another epoch |
| Coordinators.RegisteredTwiceWithoutSave | distributed/coordinator_main.cpp:155-165 | after an incarnation that never saved, the same worker and boot id are admitted again under the same epoch |
| Coordinators.RegisteredTwiceAfterSpoiltSave | distributed/coordinator_main.cpp:155-165 | after a first incarnation whose file does not load, the same happens |
| Coordinators.SavesLoadAgain | distributed/coordinator_main.cpp:215-246 | the file a process writes gives back the state exactly when the decoder's demands are met, and nothing otherwise |

## Left out

- Sockets, addresses, processes, clocks, and opening and renaming files: foreign calls. Receiving and sending return arbitrary positive chunk sizes, and a save writes the whole file or nothing.
- Floating-point rounding: measurements are reals. Windows refuse not-a-number and plus infinity as the source does; minus infinity, which the source accepts as a sample, reads as zero, and so does a threshold or percent that is not finite.
- Fabrics.TakeIn: minus infinity is taken as a sample of zero, because no real stands for it; the source stores it.
- Fabrics.Fabric.Evaluate: asks that the contract it chooses has objectives, because without any the source takes the first of an empty list, which C++ leaves undefined.
- Signed overflow that C++ leaves undefined, in differences of times and in bucket starts: integers are unbounded there; the end of a cooldown wraps.
- Sample sequence numbers: they are unbounded, so a wrap after 2^64 samples in one generation is not modelled.
- Coordinators.EpochsIncreaseExactly: assumes that the file's epoch plus the number of events stays below 2^64, where the epoch would wrap to zero; the same for the other theorems on incarnations.
- Intents.CooldownHoldsBack: assumes that the end of the cooldown fits 64 bits; past that the sum wraps and the cooldown is already over.
- The digest text and its hash: no freedom from collisions can be proved.
- Explanation texts, measured values formatted with their unit, and the list of required changes: output only.
- Error texts: decoders have one failure outcome, calls a status code.
- Equal candidates in the sort: where rank, magnitude, priority and name all coincide the source's choice is unspecified, and the model takes the first.
- The index of evaluations by id, the status queries, and counts of contracts and evaluations: reads only.
- The receipt lifecycle (transition, completion, dispatch): a finite table with no part in a decision.
- Uniqueness of enforcement and evaluation ids across a load: not kept, because the counters are not restored.
- The quantile store kept beside a window: nothing reads it.
- Checked multiplication and scaling of units: nothing in the core calls them.
- Aliasing of accumulators: the source changes them in place inside a hash table, the model replaces the entry.
- Heartbeats, the monitor thread, evidence and evaluation messages of the coordinator: they reach the fabric as ordinary calls.
- Lazy building of the checksum table and other memory-model matters: public calls are atomic.
- Command line, examples, benchmarks, CUDA proof and adapters.
