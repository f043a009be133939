/** The records of the runtime: identities, objectives, contracts, policies, receipts and the
    state that survives a restart. Times and durations are nanoseconds. */
module Types {

  type byte = x: int | 0 <= x < 256

  const TWO_32: int := 0x1_0000_0000
  const TWO_63: int := 0x8000_0000_0000_0000
  const TWO_64: int := 0x1_0000_0000_0000_0000

  type U64 = x: int | 0 <= x < TWO_64
  type I64 = x: int | -TWO_63 <= x < TWO_63
  type I32 = x: int | -0x8000_0000 <= x < 0x8000_0000

  const MAX_I64: I64 := 0x7FFF_FFFF_FFFF_FFFF

  /** A byte string whose length fits the machine word that counts it. */
  type Text = s: seq<byte> | |s| < TWO_64

  /** A double as the eight bytes it is stored in, read as an unsigned word. */
  datatype Double = Double(bits: U64)

  datatype Option<+T> = None | Some(value: T) {
    predicate IsFailure() { None? }
    function PropagateFailure<U>(): Option<U>
      requires None?
    { None }
    function Extract(): T
      requires Some?
    { value }
  }

  function Guard(condition: bool): Option<()> {
    if condition then Some(()) else None
  }

  /** The objective dimensions. */
  datatype Dimension =
    | Latency | Availability | Throughput | RecoveryTime | MemoryPressure | Cost

  datatype ObjectiveKind =
    | LatencyMean | LatencyPercentile | LatencyMaxDeadline | AvailabilityTime | AvailabilityRequest
    | ThroughputRate | RecoveryMaxDuration | MemoryPressureMax | MemoryMinHeadroom | CostPerRequest
    | CostPerToken | CostWindowBudget

  /** AtMost: lower is better. AtLeast: higher is better. */
  datatype Comparison =
    | AtMost | AtLeast

  datatype HardSoft =
    | Hard | Soft

  datatype EnforcementClass =
    | NoEnforcement | Advisory | Authorized | Mandatory

  datatype WindowType =
    | Instantaneous | Sliding | Tumbling | FixedInterval | RollingCount

  datatype AvailabilityMode =
    | ByTime | ByRequests

  datatype RateTag =
    | RequestRate | TokenRate | ByteRate | OperationRate

  datatype ContractLifecycle =
    | Draft | Active | Superseded | Suspended | Expired | Retired

  datatype PolicyMode =
    | Lexicographic | HardThenSoft

  datatype TieBreak =
    | ByPriority | ByName | ByObjectiveId

  datatype ComplianceState =
    | Compliant | NearLimit | AtRisk | Violating | Recovering | InsufficientEvidence | RevalidationRequired
    | ContractSuspended

  /** The last value has no name in the source: the decoders accept its byte all the same. */
  datatype EnforcementAction =
    | NoAction | Admit | Defer | Reject | Throttle | ReserveCapacity | IncreaseCapacity | ReduceBatchSize
    | IncreaseBatchSize | ChangeQueuePriority | PreemptLowerPriority | PromoteWarmCapacity | Replicate
    | Drain | Failover | Recover | ReplanRecovery | ReclaimMemory | ReduceResidency | LimitPower
    | ChangePlacement | Escalate | ManualInterventionRequired | Unnamed23

  datatype EnforcementLifecycle =
    | Proposed | AuthorizedReceipt | Dispatched | Acknowledged | Effective | Failed | Cancelled
    | SupersededReceipt | ExpiredReceipt | OutcomeUnknown

  /** A value together with its unit. */
  datatype Value =
    | Nanoseconds(i: I64)
    | ByteCount(i: I64)
    | Count(i: I64)
    | BasisPoints(i: I64)
    | Percentage(d: Double)
    | PressureRatio(d: Double)
    | RequestsPerSecond(d: Double)
    | TokensPerSecond(d: Double)
    | BytesPerSecond(d: Double)
    | OperationsPerSecond(d: Double)
    | CostMicros(i: I64)
    | EnergyJoules(i: I64)

  datatype Objective = Objective(
    id: U64, gen: U64, name: Text,
    dim: Dimension, kind: ObjectiveKind, comparison: Comparison, hard: HardSoft,
    enforcement: EnforcementClass,
    target: Value, breach: Option<Value>, recovery: Option<Value>,
    minEvidence: I64, uncertainty: Double, freshnessTtl: I64, grace: I64,
    windowType: WindowType, windowDuration: I64, windowCount: I64,
    priority: I32, percentileRank: Double,
    availabilityMode: AvailabilityMode, rateTag: RateTag)
  {
    predicate TargetUnitMatches() {
      match dim
      case Throughput => (
        match rateTag
        case RequestRate => target.RequestsPerSecond?
        case TokenRate => target.TokensPerSecond?
        case ByteRate => target.BytesPerSecond?
        case OperationRate => target.OperationsPerSecond?)
      case Latency => target.Nanoseconds?
      case Availability => target.BasisPoints?
      case RecoveryTime => target.Nanoseconds?
      case MemoryPressure => target.PressureRatio?
      case Cost => target.CostMicros?
    }
  }

  datatype Contract = Contract(
    id: U64, gen: U64, service: U64, workload: U64, tenant: U64,
    objectives: seq<Objective>,
    policyId: U64, policyGen: U64,
    effectiveFrom: I64, expiration: Option<I64>, epoch: U64,
    lifecycle: ContractLifecycle, name: Text, provenance: Text)
  {
    predicate CanAuthorize(now: int) {
      lifecycle.Active? && effectiveFrom <= now && (expiration.Some? ==> now < expiration.value)
    }
  }

  datatype Policy = Policy(
    id: U64, gen: U64, mode: PolicyMode, tieBreak: TieBreak, name: Text, description: Text)

  datatype Receipt = Receipt(
    id: U64, gen: U64, action: EnforcementAction, lifecycle: EnforcementLifecycle,
    epoch: U64, contractGen: U64, policyGen: U64, evaluationId: U64, evaluationGen: U64,
    workloadGen: U64, service: U64, workload: U64, objectiveId: U64, objectiveGen: U64, reason: Text)

  datatype ObjectiveSnapshot = ObjectiveSnapshot(
    objectiveId: U64, objectiveGen: U64,
    budgetTotal: I64, budgetConsumed: I64, budgetWindow: I64, budgetWindowStart: I64,
    lastState: ComplianceState, lastStateTime: I64, cooldownUntil: I64)

  datatype EvaluationRecord = EvaluationRecord(
    evaluationId: U64, evaluationGen: U64, contractGen: U64, policyGen: U64, evidenceGen: U64,
    epoch: U64, time: I64, compliance: ComplianceState, bindingDimension: Dimension,
    bindingObjective: U64, selectedAction: EnforcementAction, digest: U64)

  /** Everything that survives a restart of the coordinator. */
  datatype DurableState = DurableState(
    epoch: U64, policies: seq<Policy>, contracts: seq<Contract>,
    snapshots: seq<ObjectiveSnapshot>, receipts: seq<Receipt>, evaluations: seq<EvaluationRecord>)
}
