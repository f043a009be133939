/** The byte of every enumerated value, and the value of every byte that the decoders accept. */
module EnumBytes {
  import opened Types

  /** The value at index `b` of a table; a byte past its end stands for nothing. */
  function Lookup<T>(table: seq<T>, b: byte): Option<T> {
    if b < |table| then Some(table[b]) else None
  }

  function DimensionOf(b: byte): Option<Dimension> {
    Lookup([Latency, Availability, Throughput, RecoveryTime, MemoryPressure, Cost], b)
  }

  function DimensionByte(v: Dimension): (b: byte)
    ensures DimensionOf(b) == Some(v)
  {
    match v
    case Latency => 0 case Availability => 1 case Throughput => 2 case RecoveryTime => 3
    case MemoryPressure => 4 case Cost => 5
  }

  function ObjectiveKindOf(b: byte): Option<ObjectiveKind> {
    Lookup([LatencyMean, LatencyPercentile, LatencyMaxDeadline, AvailabilityTime, AvailabilityRequest,
            ThroughputRate, RecoveryMaxDuration, MemoryPressureMax, MemoryMinHeadroom, CostPerRequest,
            CostPerToken, CostWindowBudget], b)
  }

  function ObjectiveKindByte(v: ObjectiveKind): (b: byte)
    ensures ObjectiveKindOf(b) == Some(v)
  {
    match v
    case LatencyMean => 0 case LatencyPercentile => 1 case LatencyMaxDeadline => 2 case AvailabilityTime => 3
    case AvailabilityRequest => 4 case ThroughputRate => 5 case RecoveryMaxDuration => 6
    case MemoryPressureMax => 7 case MemoryMinHeadroom => 8 case CostPerRequest => 9 case CostPerToken => 10
    case CostWindowBudget => 11
  }

  function ComparisonOf(b: byte): Option<Comparison> {
    Lookup([AtMost, AtLeast], b)
  }

  function ComparisonByte(v: Comparison): (b: byte)
    ensures ComparisonOf(b) == Some(v)
  {
    match v
    case AtMost => 0 case AtLeast => 1
  }

  function HardSoftOf(b: byte): Option<HardSoft> {
    Lookup([Hard, Soft], b)
  }

  function HardSoftByte(v: HardSoft): (b: byte)
    ensures HardSoftOf(b) == Some(v)
  {
    match v
    case Hard => 0 case Soft => 1
  }

  function EnforcementClassOf(b: byte): Option<EnforcementClass> {
    Lookup([NoEnforcement, Advisory, Authorized, Mandatory], b)
  }

  function EnforcementClassByte(v: EnforcementClass): (b: byte)
    ensures EnforcementClassOf(b) == Some(v)
  {
    match v
    case NoEnforcement => 0 case Advisory => 1 case Authorized => 2 case Mandatory => 3
  }

  function WindowTypeOf(b: byte): Option<WindowType> {
    Lookup([Instantaneous, Sliding, Tumbling, FixedInterval, RollingCount], b)
  }

  function WindowTypeByte(v: WindowType): (b: byte)
    ensures WindowTypeOf(b) == Some(v)
  {
    match v
    case Instantaneous => 0 case Sliding => 1 case Tumbling => 2 case FixedInterval => 3
    case RollingCount => 4
  }

  function AvailabilityModeOf(b: byte): Option<AvailabilityMode> {
    Lookup([ByTime, ByRequests], b)
  }

  function AvailabilityModeByte(v: AvailabilityMode): (b: byte)
    ensures AvailabilityModeOf(b) == Some(v)
  {
    match v
    case ByTime => 0 case ByRequests => 1
  }

  function RateTagOf(b: byte): Option<RateTag> {
    Lookup([RequestRate, TokenRate, ByteRate, OperationRate], b)
  }

  function RateTagByte(v: RateTag): (b: byte)
    ensures RateTagOf(b) == Some(v)
  {
    match v
    case RequestRate => 0 case TokenRate => 1 case ByteRate => 2 case OperationRate => 3
  }

  function ContractLifecycleOf(b: byte): Option<ContractLifecycle> {
    Lookup([Draft, Active, Superseded, Suspended, Expired, Retired], b)
  }

  function ContractLifecycleByte(v: ContractLifecycle): (b: byte)
    ensures ContractLifecycleOf(b) == Some(v)
  {
    match v
    case Draft => 0 case Active => 1 case Superseded => 2 case Suspended => 3 case Expired => 4
    case Retired => 5
  }

  function PolicyModeOf(b: byte): Option<PolicyMode> {
    Lookup([Lexicographic, HardThenSoft], b)
  }

  function PolicyModeByte(v: PolicyMode): (b: byte)
    ensures PolicyModeOf(b) == Some(v)
  {
    match v
    case Lexicographic => 0 case HardThenSoft => 1
  }

  function TieBreakOf(b: byte): Option<TieBreak> {
    Lookup([ByPriority, ByName, ByObjectiveId], b)
  }

  function TieBreakByte(v: TieBreak): (b: byte)
    ensures TieBreakOf(b) == Some(v)
  {
    match v
    case ByPriority => 0 case ByName => 1 case ByObjectiveId => 2
  }

  function ComplianceStateOf(b: byte): Option<ComplianceState> {
    Lookup([Compliant, NearLimit, AtRisk, Violating, Recovering, InsufficientEvidence, RevalidationRequired,
            ContractSuspended], b)
  }

  function ComplianceStateByte(v: ComplianceState): (b: byte)
    ensures ComplianceStateOf(b) == Some(v)
  {
    match v
    case Compliant => 0 case NearLimit => 1 case AtRisk => 2 case Violating => 3 case Recovering => 4
    case InsufficientEvidence => 5 case RevalidationRequired => 6 case ContractSuspended => 7
  }

  function EnforcementActionOf(b: byte): Option<EnforcementAction> {
    Lookup([NoAction, Admit, Defer, Reject, Throttle, ReserveCapacity, IncreaseCapacity, ReduceBatchSize,
            IncreaseBatchSize, ChangeQueuePriority, PreemptLowerPriority, PromoteWarmCapacity, Replicate,
            Drain, Failover, Recover, ReplanRecovery, ReclaimMemory, ReduceResidency, LimitPower,
            ChangePlacement, Escalate, ManualInterventionRequired, Unnamed23], b)
  }

  function EnforcementActionByte(v: EnforcementAction): (b: byte)
    ensures EnforcementActionOf(b) == Some(v)
  {
    match v
    case NoAction => 0 case Admit => 1 case Defer => 2 case Reject => 3 case Throttle => 4
    case ReserveCapacity => 5 case IncreaseCapacity => 6 case ReduceBatchSize => 7
    case IncreaseBatchSize => 8 case ChangeQueuePriority => 9 case PreemptLowerPriority => 10
    case PromoteWarmCapacity => 11 case Replicate => 12 case Drain => 13 case Failover => 14
    case Recover => 15 case ReplanRecovery => 16 case ReclaimMemory => 17 case ReduceResidency => 18
    case LimitPower => 19 case ChangePlacement => 20 case Escalate => 21
    case ManualInterventionRequired => 22 case Unnamed23 => 23
  }

  function EnforcementLifecycleOf(b: byte): Option<EnforcementLifecycle> {
    Lookup([Proposed, AuthorizedReceipt, Dispatched, Acknowledged, Effective, Failed, Cancelled,
            SupersededReceipt, ExpiredReceipt, OutcomeUnknown], b)
  }

  function EnforcementLifecycleByte(v: EnforcementLifecycle): (b: byte)
    ensures EnforcementLifecycleOf(b) == Some(v)
  {
    match v
    case Proposed => 0 case AuthorizedReceipt => 1 case Dispatched => 2 case Acknowledged => 3
    case Effective => 4 case Failed => 5 case Cancelled => 6 case SupersededReceipt => 7
    case ExpiredReceipt => 8 case OutcomeUnknown => 9
  }
}
