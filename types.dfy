/**
 * The scheduler's shared vocabulary: the queues, the attendance statuses, the
 * default hourly slots, the record shapes the components exchange and the two
 * constant queue tables (quotas and difficulty order).
 */
module Types {
  import opened Wrappers

  /** An agent's attendance status for the day. */
  datatype AgentStatus = NotApplicable | Present | Off | Absent | Pto | Rdot | RdSwap | Sme

  function StatusText(s: AgentStatus): string {
    match s
    case NotApplicable => "N/A"
    case Present => "PRESENT"
    case Off => "OFF"
    case Absent => "ABSENT"
    case Pto => "PTO"
    case Rdot => "RDOT"
    case RdSwap => "RD SWAP"
    case Sme => "SME"
  }

  /** The six review queues. */
  datatype Queue = PmPgc | SvPgc | LvPgc | PmNpgc | SvNpgc | LvNpgc

  function QueueName(q: Queue): string {
    match q
    case PmPgc => "PM PGC"
    case SvPgc => "SV PGC"
    case LvPgc => "LV PGC"
    case PmNpgc => "PM NPGC"
    case SvNpgc => "SV NPGC"
    case LvNpgc => "LV NPGC"
  }

  /** The queues in the order generation fills them. */
  const QUEUES: seq<Queue> := [PmPgc, SvPgc, LvPgc, PmNpgc, SvNpgc, LvNpgc]

  const DEFAULT_TIME_SLOTS: seq<string> := [
    "10:00 - 11:00",
    "11:00 - 12:00",
    "12:00 - 1:00",
    "1:00 - 2:00",
    "2:00 - 3:00",
    "3:00 - 4:00",
    "4:00 - 5:00",
    "5:00 - 6:00",
    "6:00 - 7:00"
  ]

  const AGENT_STATUSES: seq<AgentStatus> := [NotApplicable, Present, Off, Absent, Pto, Rdot, RdSwap, Sme]

  /**
   * A roster entry. `assignments` counts the seats the agent received per queue
   * (a missing key reads as 0) and `total` the seats over all queues.
   */
  datatype Agent = Agent(
    id: string,
    name: string,
    nickname: string,
    restDays: string,
    status: AgentStatus,
    assignments: map<Queue, nat>,
    total: nat,
    avatar: Option<string>)

  /** Required agents per time slot and queue; a missing queue key reads as 0. */
  type HeadcountRow = map<Queue, nat>
  type HeadcountData = map<string, HeadcountRow>

  /**
   * One slot of the generated schedule: the nicknames seated per queue, or a
   * warning and no seats when too few agents were available.
   */
  datatype SegmentationResult = SegmentationResult(
    slot: string,
    totalRequired: nat,
    assignments: map<Queue, seq<string>>,
    warning: Option<string>)

  /** A break of an agent, its start and end written as clock labels such as "11:15 AM". */
  datatype BreakSlot = BreakSlot(id: string, name: string, start: string, end: string)

  datatype AgentBreakTime = AgentBreakTime(agentId: string, breaks: seq<BreakSlot>)

  datatype QueueQuota = QueueQuota(queue: Queue, displayName: string, targetQuota: nat, hourlyQuota: nat)

  const QUEUE_QUOTAS: seq<QueueQuota> := [
    QueueQuota(SvPgc, "SHORT_VideoPGC", 400, 53),
    QueueQuota(SvNpgc, "SHORT_Video_NON_PGC", 400, 53),
    QueueQuota(LvPgc, "LONG_Video_PGC", 300, 40),
    QueueQuota(LvNpgc, "LONG_Video_NON_PGC", 300, 40),
    QueueQuota(PmPgc, "PM PGC", 600, 80),
    QueueQuota(PmNpgc, "PM NPGC", 600, 80)
  ]

  /** The queues from hardest to easiest. */
  const QUEUE_DIFFICULTY_ORDER: seq<Queue> := [LvPgc, SvPgc, PmPgc, LvNpgc, PmNpgc, SvNpgc]

  predicate IsPgc(q: Queue) {
    q == PmPgc || q == SvPgc || q == LvPgc
  }

  /** The same content type with the other PGC flag ("SV PGC" and "SV NPGC"). */
  function Sibling(q: Queue): Queue {
    match q
    case PmPgc => PmNpgc
    case SvPgc => SvNpgc
    case LvPgc => LvNpgc
    case PmNpgc => PmPgc
    case SvNpgc => SvPgc
    case LvNpgc => LvPgc
  }

  predicate Distinct<T(==)>(s: seq<T>) {
    forall i, j :: 0 <= i < j < |s| ==> s[i] != s[j]
  }

  /** QUEUES holds each queue exactly once. */
  lemma QueuesComplete()
    ensures |QUEUES| == 6 && Distinct(QUEUES)
    ensures forall q: Queue :: q in QUEUES
  {
    forall q: Queue ensures q in QUEUES {
      match q
      case PmPgc => assert QUEUES[0] == q;
      case SvPgc => assert QUEUES[1] == q;
      case LvPgc => assert QUEUES[2] == q;
      case PmNpgc => assert QUEUES[3] == q;
      case SvNpgc => assert QUEUES[4] == q;
      case LvNpgc => assert QUEUES[5] == q;
    }
  }

  /** The difficulty order is a rearrangement of QUEUES that puts the three PGC queues first. */
  lemma DifficultyOrderIsPermutation()
    ensures multiset(QUEUE_DIFFICULTY_ORDER) == multiset(QUEUES)
    ensures forall i :: 0 <= i < |QUEUE_DIFFICULTY_ORDER| ==> (IsPgc(QUEUE_DIFFICULTY_ORDER[i]) <==> i < 3)
  {
    calc {
      multiset(QUEUE_DIFFICULTY_ORDER);
      multiset{LvPgc, SvPgc, PmPgc, LvNpgc, PmNpgc, SvNpgc};
      multiset{PmPgc, SvPgc, LvPgc, PmNpgc, SvNpgc, LvNpgc};
      multiset(QUEUES);
    }
  }

  /** The quota entry of a queue, if the table has one. */
  function QuotaOf(q: Queue, table: seq<QueueQuota>): (r: Option<QueueQuota>)
    ensures r.Some? ==> r.value in table && r.value.queue == q
    ensures r.None? ==> forall k :: 0 <= k < |table| ==> table[k].queue != q
  {
    if table == [] then None
    else if table[0].queue == q then Some(table[0])
    else QuotaOf(q, table[1..])
  }

  /** Every queue has an entry in QUEUE_QUOTAS, and the PGC and non-PGC queues of a family share quotas. */
  lemma QuotasWellFormed()
    ensures forall q: Queue :: QuotaOf(q, QUEUE_QUOTAS).Some?
    ensures forall q: Queue ::
      QuotaOf(q, QUEUE_QUOTAS).value.targetQuota == QuotaOf(Sibling(q), QUEUE_QUOTAS).value.targetQuota &&
      QuotaOf(q, QUEUE_QUOTAS).value.hourlyQuota == QuotaOf(Sibling(q), QUEUE_QUOTAS).value.hourlyQuota
  {
    forall q: Queue
      ensures QuotaOf(q, QUEUE_QUOTAS).Some? && QuotaOf(Sibling(q), QUEUE_QUOTAS).Some?
      ensures QuotaOf(q, QUEUE_QUOTAS).value.targetQuota == QuotaOf(Sibling(q), QUEUE_QUOTAS).value.targetQuota
      ensures QuotaOf(q, QUEUE_QUOTAS).value.hourlyQuota == QuotaOf(Sibling(q), QUEUE_QUOTAS).value.hourlyQuota
    {
      QuotaOfRow(q);
      QuotaOfRow(Sibling(q));
    }
  }

  /** QUEUE_QUOTAS has one row per queue, no queue twice, and positive quotas throughout. */
  lemma QuotaRows()
    ensures |QUEUE_QUOTAS| == |QUEUES|
    ensures forall i, j :: 0 <= i < j < |QUEUE_QUOTAS| ==> QUEUE_QUOTAS[i].queue != QUEUE_QUOTAS[j].queue
    ensures forall k :: 0 <= k < |QUEUE_QUOTAS| ==> QUEUE_QUOTAS[k].targetQuota > 0 && QUEUE_QUOTAS[k].hourlyQuota > 0
  {
  }

  /** The row of QUEUE_QUOTAS that holds a queue. */
  function QuotaRow(q: Queue): nat {
    match q
    case SvPgc => 0
    case SvNpgc => 1
    case LvPgc => 2
    case LvNpgc => 3
    case PmPgc => 4
    case PmNpgc => 5
  }

  /** The lookup finds each queue in its own row. */
  lemma QuotaOfRow(q: Queue)
    ensures QuotaRow(q) < |QUEUE_QUOTAS| && QuotaOf(q, QUEUE_QUOTAS) == Some(QUEUE_QUOTAS[QuotaRow(q)])
  {
    var t := QUEUE_QUOTAS;
    assert t[1..][1..][1..][1..][1..] == [t[5]];
  }

  /** AGENT_STATUSES lists every status exactly once. */
  lemma StatusesComplete()
    ensures Distinct(AGENT_STATUSES)
    ensures forall s: AgentStatus :: s in AGENT_STATUSES
  {
    forall s: AgentStatus ensures s in AGENT_STATUSES {
      match s
      case NotApplicable => assert AGENT_STATUSES[0] == s;
      case Present => assert AGENT_STATUSES[1] == s;
      case Off => assert AGENT_STATUSES[2] == s;
      case Absent => assert AGENT_STATUSES[3] == s;
      case Pto => assert AGENT_STATUSES[4] == s;
      case Rdot => assert AGENT_STATUSES[5] == s;
      case RdSwap => assert AGENT_STATUSES[6] == s;
      case Sme => assert AGENT_STATUSES[7] == s;
    }
  }
}
