/**
 * The page state of the scheduler and the handlers that change it. Each
 * handler builds the next state from the previous one; together they keep
 * every listed time slot backed by a headcount row, which generation needs.
 */
module HomeState {
  import opened Wrappers
  import opened Types
  import opened HomeBreaks
  import opened Seating
  import opened Generation
  import opened Filters

  datatype HomeState = HomeState(
    agents: seq<Agent>,
    breakTimes: BreakTable,
    timeSlots: seq<string>,
    headcount: HeadcountData,
    results: seq<SegmentationResult>,
    hasGenerated: bool)

  /** A headcount row asking for nobody on any of the six queues. */
  const ZERO_ROW: HeadcountRow := map[PmPgc := 0, SvPgc := 0, LvPgc := 0, PmNpgc := 0, SvNpgc := 0, LvNpgc := 0]

  lemma ZeroRowAsksNothing()
    ensures forall q :: q in ZERO_ROW && ZERO_ROW[q] == 0
    ensures TotalReq(ZERO_ROW) == 0
  {
    forall q ensures q in ZERO_ROW && ZERO_ROW[q] == 0 {
      match q
      case PmPgc =>
      case SvPgc =>
      case LvPgc =>
      case PmNpgc =>
      case SvNpgc =>
      case LvNpgc =>
    }
    ZeroTotal(ZERO_ROW, |QUEUES|);
  }

  /** The starting headcount table: a zero row for every slot. */
  function InitHeadcount(slots: seq<string>): (h: HeadcountData)
    ensures forall s :: s in h <==> s in slots
    ensures forall s :: s in h ==> h[s] == ZERO_ROW
  {
    map s | s in slots :: ZERO_ROW
  }

  /** The state the page starts in, before any agents are known. */
  function Initial(agents: seq<Agent>): (r: HomeState)
    ensures Backs(r) && r.agents == agents && r.timeSlots == DEFAULT_TIME_SLOTS
    ensures forall s :: s in r.headcount ==> r.headcount[s] == ZERO_ROW
    ensures r.breakTimes == map[] && r.results == [] && !r.hasGenerated
  {
    HomeState(agents, map[], DEFAULT_TIME_SLOTS, InitHeadcount(DEFAULT_TIME_SLOTS), [], false)
  }

  /** Every listed slot has a headcount row. */
  predicate Backs(st: HomeState) {
    Backed(st.timeSlots, st.headcount)
  }

  lemma InitialBacked(agents: seq<Agent>)
    ensures Backs(Initial(agents))
  {
  }

  // ---------------------------------------------------------------------------
  // Agents

  /** The agent gets the new status and empty counters; earlier results are dropped. */
  function StatusChange(st: HomeState, agentId: string, status: AgentStatus): (r: HomeState)
    ensures |r.agents| == |st.agents|
    ensures forall i :: 0 <= i < |st.agents| ==>
      if st.agents[i].id == agentId
      then r.agents[i] == st.agents[i].(status := status, assignments := map[], total := 0)
      else r.agents[i] == st.agents[i]
    ensures r.results == [] && !r.hasGenerated
    ensures r.breakTimes == st.breakTimes && r.timeSlots == st.timeSlots && r.headcount == st.headcount
  {
    var agents := seq(|st.agents|, i requires 0 <= i < |st.agents| =>
      if st.agents[i].id == agentId then st.agents[i].(status := status, assignments := map[], total := 0)
      else st.agents[i]);
    st.(agents := agents, hasGenerated := false, results := [])
  }

  /** The key an agent is deleted by. */
  function AgentId(a: Agent): string { a.id }

  /**
   * The agent leaves the roster, the other agents keep their order, and its
   * break record goes with it.
   */
  function DeleteAgent(st: HomeState, agentId: string): (r: HomeState)
    ensures forall a :: a in r.agents <==> a in st.agents && a.id != agentId
    ensures r.agents == Without(st.agents, AgentId, agentId)
    ensures agentId !in r.breakTimes
    ensures forall k :: k != agentId ==> (k in r.breakTimes <==> k in st.breakTimes)
    ensures forall k :: k in r.breakTimes ==> r.breakTimes[k] == st.breakTimes[k]
    ensures r.timeSlots == st.timeSlots && r.headcount == st.headcount
    ensures r.results == st.results && r.hasGenerated == st.hasGenerated
  {
    WithoutMembers(st.agents, AgentId, agentId);
    st.(agents := Without(st.agents, AgentId, agentId), breakTimes := st.breakTimes - {agentId})
  }

  // ---------------------------------------------------------------------------
  // Breaks

  /** The agent's break list is replaced by the given one; no other record changes. */
  function BreakChange(st: HomeState, agentId: string, breaks: seq<BreakSlot>): (r: HomeState)
    ensures agentId in r.breakTimes && r.breakTimes[agentId] == AgentBreakTime(agentId, breaks)
    ensures forall k :: k != agentId ==> (k in r.breakTimes <==> k in st.breakTimes)
    ensures forall k :: k != agentId && k in r.breakTimes ==> r.breakTimes[k] == st.breakTimes[k]
    ensures r.agents == st.agents && r.timeSlots == st.timeSlots && r.headcount == st.headcount
    ensures r.results == st.results && r.hasGenerated == st.hasGenerated
  {
    st.(breakTimes := st.breakTimes[agentId := AgentBreakTime(agentId, breaks)])
  }

  // ---------------------------------------------------------------------------
  // Headcount and slots

  /** A headcount entry forced into 0 to 99. */
  function Clamp(value: int): (r: nat)
    ensures r <= 99
    ensures 0 <= value <= 99 ==> r == value
    ensures value < 0 ==> r == 0
    ensures value > 99 ==> r == 99
  {
    if value < 0 then 0 else if value > 99 then 99 else value
  }

  /**
   * One entry of the headcount table is set to the clamped value; every other
   * entry of that row and every other row stays as it was. A slot without a
   * row gets a row holding just that entry.
   */
  function HeadcountChange(st: HomeState, slot: string, queue: Queue, value: int): (r: HomeState)
    ensures slot in r.headcount && queue in r.headcount[slot] && r.headcount[slot][queue] == Clamp(value)
    ensures forall q :: q != queue ==>
      (q in r.headcount[slot] <==> slot in st.headcount && q in st.headcount[slot]) &&
      (q in r.headcount[slot] ==> r.headcount[slot][q] == st.headcount[slot][q])
    ensures forall s :: s != slot ==> (s in r.headcount <==> s in st.headcount)
    ensures forall s :: s != slot && s in r.headcount ==> r.headcount[s] == st.headcount[s]
    ensures r.agents == st.agents && r.timeSlots == st.timeSlots && r.breakTimes == st.breakTimes
    ensures r.results == st.results && r.hasGenerated == st.hasGenerated
  {
    var row := if slot in st.headcount then st.headcount[slot] else map[];
    st.(headcount := st.headcount[slot := row[queue := Clamp(value)]])
  }

  /** A new slot is appended with a zero row; a slot already listed changes nothing. */
  function AddTimeSlot(st: HomeState, slot: string): (r: HomeState)
    ensures slot in st.timeSlots ==> r == st
    ensures slot !in st.timeSlots ==>
      r.timeSlots == st.timeSlots + [slot] &&
      r.headcount == st.headcount[slot := ZERO_ROW] &&
      r.agents == st.agents && r.breakTimes == st.breakTimes &&
      r.results == st.results && r.hasGenerated == st.hasGenerated
  {
    if slot in st.timeSlots then st
    else st.(timeSlots := st.timeSlots + [slot], headcount := st.headcount[slot := ZERO_ROW])
  }

  /**
   * The slot leaves both the slot list and the headcount table, the other
   * slots keep their order, and earlier results are dropped.
   */
  function RemoveTimeSlot(st: HomeState, slot: string): (r: HomeState)
    ensures slot !in r.timeSlots && slot !in r.headcount
    ensures forall s :: s != slot ==> (s in r.timeSlots <==> s in st.timeSlots)
    ensures r.timeSlots == Without(st.timeSlots, Itself, slot)
    ensures forall s :: s != slot ==> (s in r.headcount <==> s in st.headcount)
    ensures forall s :: s in r.headcount ==> r.headcount[s] == st.headcount[s]
    ensures r.agents == st.agents && r.breakTimes == st.breakTimes
    ensures r.results == [] && !r.hasGenerated
  {
    WithoutMembers(st.timeSlots, Itself, slot);
    st.(timeSlots := Without(st.timeSlots, Itself, slot), headcount := st.headcount - {slot},
        results := [], hasGenerated := false)
  }

  /** Every handler keeps each listed slot backed by a headcount row. */
  lemma HandlersKeepBacked(st: HomeState, agentId: string, status: AgentStatus, breaks: seq<BreakSlot>,
                           slot: string, queue: Queue, value: int)
    requires Backs(st)
    ensures Backs(StatusChange(st, agentId, status))
    ensures Backs(DeleteAgent(st, agentId))
    ensures Backs(BreakChange(st, agentId, breaks))
    ensures Backs(HeadcountChange(st, slot, queue, value))
    ensures Backs(AddTimeSlot(st, slot))
    ensures Backs(RemoveTimeSlot(st, slot))
  {
    AddKeepsBacked(st, slot);
    RemoveKeepsBacked(st, slot);
    HeadcountKeepsBacked(st, slot, queue, value);
  }

  /** Adding a slot gives it a row, and the others keep theirs. */
  lemma AddKeepsBacked(st: HomeState, slot: string)
    requires Backs(st)
    ensures Backs(AddTimeSlot(st, slot))
  {
    var added := AddTimeSlot(st, slot);
    if slot !in st.timeSlots {
      forall i | 0 <= i < |added.timeSlots|
        ensures added.timeSlots[i] in added.headcount
      {
        if i < |st.timeSlots| {
          assert added.timeSlots[i] == st.timeSlots[i];
        }
      }
    }
  }

  /** Removing a slot leaves every remaining slot its row. */
  lemma RemoveKeepsBacked(st: HomeState, slot: string)
    requires Backs(st)
    ensures Backs(RemoveTimeSlot(st, slot))
  {
    var removed := RemoveTimeSlot(st, slot);
    forall i | 0 <= i < |removed.timeSlots|
      ensures removed.timeSlots[i] in removed.headcount
    {
      assert removed.timeSlots[i] in removed.timeSlots;
      var k :| 0 <= k < |st.timeSlots| && st.timeSlots[k] == removed.timeSlots[i];
    }
  }

  /** Setting a cell keeps every slot backed. */
  lemma HeadcountKeepsBacked(st: HomeState, slot: string, queue: Queue, value: int)
    requires Backs(st)
    ensures Backs(HeadcountChange(st, slot, queue, value))
  {
    var changed := HeadcountChange(st, slot, queue, value);
    forall i | 0 <= i < |changed.timeSlots|
      ensures changed.timeSlots[i] in changed.headcount
    {
      assert st.timeSlots[i] in st.headcount;
    }
  }

  // ---------------------------------------------------------------------------
  // Generation

  /** Generation replaces the agents' counters, purges expired breaks and publishes the results. */
  function Generate(st: HomeState, now: nat, rank: (nat, string) -> int): (r: HomeState)
    requires Backs(st)
    ensures Backs(r) && r.hasGenerated
    ensures r.timeSlots == st.timeSlots && r.headcount == st.headcount
    ensures var out := Segmentation(st.agents, st.breakTimes, st.timeSlots, st.headcount, now, rank);
      r.agents == out.agents && r.breakTimes == out.breakTimes && r.results == out.results
  {
    var out := Segmentation(st.agents, st.breakTimes, st.timeSlots, st.headcount, now, rank);
    st.(agents := out.agents, breakTimes := out.breakTimes, results := out.results, hasGenerated := true)
  }
}
