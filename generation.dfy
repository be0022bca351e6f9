/**
 * Generating the schedule: expired breaks are purged, the PRESENT agents get a
 * working copy with empty counters, each time slot in turn is either skipped
 * (nothing asked), flagged with a warning (too few agents off break) or filled
 * from the available agents ordered by running total, and finally every agent
 * takes its counters back from the working copy (or empty ones).
 */
module Generation {
  import opened Wrappers
  import opened TimeText
  import opened Types
  import opened HomeTime
  import opened HomeBreaks
  import opened Seating

  // ---------------------------------------------------------------------------
  // Who is available in a slot

  /** The on-break check of one slot, as a test on agent ids. */
  function BreakCheck(slot: string, table: BreakTable): string -> bool {
    id => OnBreak(id, slot, table)
  }

  /** The first n working records whose on-break status is `away`, in order. */
  function Filter(copies: seq<Agent>, n: nat, onBreak: string -> bool, away: bool): (r: seq<Agent>)
    requires n <= |copies|
    ensures |r| <= n
  {
    if n == 0 then []
    else
      Filter(copies, n - 1, onBreak, away) +
      (if onBreak(copies[n - 1].id) == away then [copies[n - 1]] else [])
  }

  function Available(copies: seq<Agent>, slot: string, table: BreakTable): seq<Agent> {
    Filter(copies, |copies|, BreakCheck(slot, table), false)
  }

  function Away(copies: seq<Agent>, slot: string, table: BreakTable): seq<Agent> {
    Filter(copies, |copies|, BreakCheck(slot, table), true)
  }

  /** A record is kept exactly when it is among the first n and its on-break status is `away`. */
  lemma {:induction false} FilterMembers(copies: seq<Agent>, n: nat, onBreak: string -> bool, away: bool)
    requires n <= |copies|
    ensures forall x :: x in Filter(copies, n, onBreak, away) <==>
      (onBreak(x.id) == away && exists i :: 0 <= i < n && copies[i] == x)
  {
    if n > 0 {
      FilterMembers(copies, n - 1, onBreak, away);
    }
  }

  /** The available agents and the agents on break together are all of the working records. */
  lemma {:induction false} FilterPartition(copies: seq<Agent>, n: nat, onBreak: string -> bool)
    requires n <= |copies|
    ensures |Filter(copies, n, onBreak, false)| + |Filter(copies, n, onBreak, true)| == n
  {
    if n > 0 {
      FilterPartition(copies, n - 1, onBreak);
    }
  }

  /** Keeping some of a list of distinct records keeps them distinct. */
  lemma {:induction false} FilterDistinct(copies: seq<Agent>, n: nat, onBreak: string -> bool, away: bool)
    requires n <= |copies| && DistinctIds(copies)
    ensures DistinctIds(Filter(copies, n, onBreak, away))
  {
    if n > 0 {
      FilterDistinct(copies, n - 1, onBreak, away);
      FilterMembers(copies, n - 1, onBreak, away);
      var prev := Filter(copies, n - 1, onBreak, away);
      forall k | 0 <= k < |prev|
        ensures prev[k].id != copies[n - 1].id
      {
        assert prev[k] in prev;
        var i :| 0 <= i < n - 1 && copies[i] == prev[k];
      }
    }
  }

  /** The two filters of the source, each asking the break check once per record. */
  method FilterByBreak(copies: seq<Agent>, slot: string, table: BreakTable, away: bool) returns (r: seq<Agent>)
    ensures r == Filter(copies, |copies|, BreakCheck(slot, table), away)
  {
    r := [];
    var i := 0;
    while i < |copies|
      invariant i <= |copies|
      invariant r == Filter(copies, i, BreakCheck(slot, table), away)
    {
      var onBreak := IsAgentOnBreak(copies[i].id, slot, table);
      assert BreakCheck(slot, table)(copies[i].id) == onBreak;
      if onBreak == away {
        r := r + [copies[i]];
      }
      i := i + 1;
    }
  }

  // ---------------------------------------------------------------------------
  // One slot

  /** The warning of a slot that cannot be filled, naming the agents on break when there are any. */
  function WarningText(slot: string, required: nat, available: nat, away: seq<string>): (r: string)
    ensures |slot| < |r| && r[..|slot|] == slot
    ensures |away| == 0 ==> r[|r| - 1] == ')'
    ensures |away| > 0 ==> |Join(away, ", ")| < |r| && r[|r| - |Join(away, ", ")|..] == Join(away, ", ")
  {
    slot + ": Insufficient agents (Required: " + NatToString(required) + ", Available: " + NatToString(available) + ")" +
    (if |away| > 0 then " - On break: " + Join(away, ", ") else "")
  }

  /** What one slot contributes: a result, if any, and the working records afterwards. */
  datatype Step = Step(result: Option<SegmentationResult>, counters: seq<Agent>)

  /** The order in which a slot's seats are handed out. */
  function Ordering(copies: seq<Agent>, slot: string, table: BreakTable, rank: (nat, string) -> int, slotIndex: nat): seq<Agent> {
    SortByTotal(Available(copies, slot, table), rank, slotIndex)
  }

  /** A slot is filled when it asks for someone and enough agents are off break. */
  predicate Filled(copies: seq<Agent>, slot: string, row: HeadcountRow, table: BreakTable) {
    0 < TotalReq(row) <= |Available(copies, slot, table)|
  }

  function SlotStep(copies: seq<Agent>, slot: string, row: HeadcountRow, table: BreakTable,
                    rank: (nat, string) -> int, slotIndex: nat): (r: Step)
    ensures |r.counters| == |copies|
    ensures r.result.Some? <==> TotalReq(row) > 0
    ensures r.result.Some? ==> r.result.value.slot == slot && r.result.value.totalRequired == TotalReq(row)
    ensures r.result.None? || r.result.value.warning.Some? ==> r.counters == copies
  {
    var total := TotalReq(row);
    if total == 0 then Step(None, copies)
    else
      var avail := Available(copies, slot, table);
      if total > |avail| then
        var away := Away(copies, slot, table);
        var warning := WarningText(slot, total, |avail|, NickRange(away, 0, |away|));
        Step(Some(SegmentationResult(slot, total, map[], Some(warning))), copies)
      else
        var sorted := Ordering(copies, slot, table, rank, slotIndex);
        Step(Some(SegmentationResult(slot, total, Assigns(sorted, row, |QUEUES|), None)),
             ApplySeats(copies, sorted, SeatQueues(row, |QUEUES|), total))
  }

  /** Processes one slot: skip it, warn about it, or seat its agents. */
  method ProcessSlot(copies: seq<Agent>, slot: string, row: HeadcountRow, table: BreakTable,
                     rank: (nat, string) -> int, slotIndex: nat)
      returns (result: Option<SegmentationResult>, updated: seq<Agent>)
    ensures Step(result, updated) == SlotStep(copies, slot, row, table, rank, slotIndex)
  {
    var total := TotalReq(row);
    result := None;
    updated := copies;
    if total == 0 {
      return;
    }
    var avail := FilterByBreak(copies, slot, table, false);
    var away := FilterByBreak(copies, slot, table, true);
    if total > |avail| {
      var warning := WarningText(slot, total, |avail|, NickRange(away, 0, |away|));
      result := Some(SegmentationResult(slot, total, map[], Some(warning)));
      return;
    }
    var sorted := SortByTotal(avail, rank, slotIndex);
    var assigns;
    assigns, updated := FillSeats(copies, sorted, row);
    result := Some(SegmentationResult(slot, total, assigns, None));
  }

  /**
   * A slot yields a result exactly when it asks for someone; the result
   * carries a warning and no seats exactly when fewer agents are off break
   * than asked for, and otherwise every queue gets exactly its headcount.
   */
  lemma StepResult(copies: seq<Agent>, slot: string, row: HeadcountRow, table: BreakTable,
                   rank: (nat, string) -> int, slotIndex: nat)
    ensures var step := SlotStep(copies, slot, row, table, rank, slotIndex);
      (step.result.Some? <==> TotalReq(row) > 0) &&
      (step.result.Some? ==>
        step.result.value.slot == slot && step.result.value.totalRequired == TotalReq(row) &&
        (step.result.value.warning.Some? <==> TotalReq(row) > |Available(copies, slot, table)|) &&
        (step.result.value.warning.Some? ==> step.result.value.assignments == map[] && step.counters == copies) &&
        (step.result.value.warning.None? ==>
          forall q :: q in step.result.value.assignments && |step.result.value.assignments[q]| == Req(row, q)))
  {
    if Filled(copies, slot, row, table) {
      FilterMembers(copies, |copies|, BreakCheck(slot, table), false);
      SeatsPerQueue(Ordering(copies, slot, table, rank, slotIndex), row);
    }
  }

  /** An unfilled slot carries its warning text and no seats. */
  lemma StepWarning(copies: seq<Agent>, slot: string, row: HeadcountRow, table: BreakTable,
                    rank: (nat, string) -> int, slotIndex: nat)
    requires 0 < TotalReq(row) && |Available(copies, slot, table)| < TotalReq(row)
    ensures var away := Away(copies, slot, table);
      SlotStep(copies, slot, row, table, rank, slotIndex).result ==
        Some(SegmentationResult(slot, TotalReq(row), map[],
          Some(WarningText(slot, TotalReq(row), |Available(copies, slot, table)|, NickRange(away, 0, |away|)))))
  {
  }

  /** Some record is kept exactly when one of the first n has the wanted on-break status. */
  lemma {:induction false} FilterNonEmpty(copies: seq<Agent>, n: nat, onBreak: string -> bool, away: bool)
    requires n <= |copies|
    ensures |Filter(copies, n, onBreak, away)| > 0 <==> exists i :: 0 <= i < n && onBreak(copies[i].id) == away
  {
    if n > 0 {
      FilterNonEmpty(copies, n - 1, onBreak, away);
    }
  }

  /** The names in a warning are those of exactly the working records on break. */
  lemma AwayMembers(copies: seq<Agent>, slot: string, table: BreakTable)
    ensures forall x :: x in Away(copies, slot, table) <==> x in copies && OnBreak(x.id, slot, table)
  {
    FilterMembers(copies, |copies|, BreakCheck(slot, table), true);
    forall x
      ensures x in Away(copies, slot, table) <==> x in copies && BreakCheck(slot, table)(x.id)
    {
    }
  }

  /** A warning has the on-break suffix exactly when some working record is on break. */
  lemma AwayNonEmpty(copies: seq<Agent>, slot: string, table: BreakTable)
    ensures |Away(copies, slot, table)| > 0 <==> exists i :: 0 <= i < |copies| && OnBreak(copies[i].id, slot, table)
  {
    FilterNonEmpty(copies, |copies|, BreakCheck(slot, table), true);
    forall i | 0 <= i < |copies|
      ensures BreakCheck(slot, table)(copies[i].id) == OnBreak(copies[i].id, slot, table)
    {
    }
  }

  /** The agents a filled slot seats have distinct ids, each taken from the working records. */
  lemma OrderingDistinct(copies: seq<Agent>, slot: string, table: BreakTable, rank: (nat, string) -> int, slotIndex: nat)
    requires DistinctIds(copies)
    ensures DistinctIds(Ordering(copies, slot, table, rank, slotIndex))
  {
    FilterDistinct(copies, |copies|, BreakCheck(slot, table), false);
    SortDistinct(Available(copies, slot, table), rank, slotIndex);
  }

  /** Every agent of the ordering is an available working record. */
  lemma OrderingMembers(copies: seq<Agent>, slot: string, table: BreakTable, rank: (nat, string) -> int, slotIndex: nat, p: nat)
    requires p < |Ordering(copies, slot, table, rank, slotIndex)|
    ensures !OnBreak(Ordering(copies, slot, table, rank, slotIndex)[p].id, slot, table)
    ensures exists i :: 0 <= i < |copies| && copies[i] == Ordering(copies, slot, table, rank, slotIndex)[p]
  {
    var sorted := Ordering(copies, slot, table, rank, slotIndex);
    FilterMembers(copies, |copies|, BreakCheck(slot, table), false);
    assert sorted[p] in multiset(sorted);
    assert sorted[p] in Available(copies, slot, table);
  }

  /** Every available working record has a place in the ordering. */
  lemma OrderingHasAvailable(copies: seq<Agent>, slot: string, table: BreakTable, rank: (nat, string) -> int, slotIndex: nat, k: nat)
    requires k < |copies| && !OnBreak(copies[k].id, slot, table)
    ensures exists p :: 0 <= p < |Ordering(copies, slot, table, rank, slotIndex)| && Ordering(copies, slot, table, rank, slotIndex)[p] == copies[k]
  {
    var sorted := Ordering(copies, slot, table, rank, slotIndex);
    FilterMembers(copies, |copies|, BreakCheck(slot, table), false);
    assert copies[k] in Available(copies, slot, table);
    assert copies[k] in multiset(sorted);
    assert copies[k] in sorted;
  }

  /**
   * In a filled slot each working record changes only in its counters, gains
   * at most one seat, stays consistent, and is left untouched when the agent
   * is on break.
   */
  lemma StepSeats(copies: seq<Agent>, slot: string, row: HeadcountRow, table: BreakTable,
                  rank: (nat, string) -> int, slotIndex: nat, j: nat)
    requires DistinctIds(copies) && j < |copies|
    ensures var after := SlotStep(copies, slot, row, table, rank, slotIndex).counters;
      |after| == |copies| &&
      SameButCounters(copies[j], after[j]) &&
      copies[j].total <= after[j].total <= copies[j].total + 1 &&
      (Consistent(copies[j]) ==> Consistent(after[j])) &&
      (OnBreak(copies[j].id, slot, table) ==> after[j] == copies[j])
  {
    if Filled(copies, slot, row, table) {
      var sorted := Ordering(copies, slot, table, rank, slotIndex);
      var total := TotalReq(row);
      var queues := SeatQueues(row, |QUEUES|);
      OrderingDistinct(copies, slot, table, rank, slotIndex);
      ApplySeatsEffect(copies, sorted, queues, total, j);
      SeatsOfDistinct(sorted, total, copies[j].id);
      if OnBreak(copies[j].id, slot, table) {
        forall i | 0 <= i < total
          ensures sorted[i].id != copies[j].id
        {
          OrderingMembers(copies, slot, table, rank, slotIndex, i);
        }
        ApplySeatsUntouched(copies, sorted, queues, total, j);
      }
    }
  }

  /**
   * Fairness of a filled slot: an agent that gains a seat never had a higher
   * running total than an available agent that gains none.
   */
  lemma StepFair(copies: seq<Agent>, slot: string, row: HeadcountRow, table: BreakTable,
                 rank: (nat, string) -> int, slotIndex: nat, j: nat, k: nat)
    requires DistinctIds(copies) && j < |copies| && k < |copies|
    requires !OnBreak(copies[k].id, slot, table)
    requires SlotStep(copies, slot, row, table, rank, slotIndex).counters[j].total > copies[j].total
    requires SlotStep(copies, slot, row, table, rank, slotIndex).counters[k].total == copies[k].total
    ensures copies[j].total <= copies[k].total
  {
    var sorted := Ordering(copies, slot, table, rank, slotIndex);
    var total := TotalReq(row);
    var queues := SeatQueues(row, |QUEUES|);
    assert Filled(copies, slot, row, table);
    OrderingDistinct(copies, slot, table, rank, slotIndex);
    ApplySeatsEffect(copies, sorted, queues, total, j);
    ApplySeatsEffect(copies, sorted, queues, total, k);
    SeatsOfDistinct(sorted, total, copies[j].id);
    SeatsOfDistinct(sorted, total, copies[k].id);
    var i :| 0 <= i < total && sorted[i].id == copies[j].id;
    OrderingHasAvailable(copies, slot, table, rank, slotIndex, k);
    var p :| 0 <= p < |sorted| && sorted[p] == copies[k];
    assert total <= p;
    OrderingMembers(copies, slot, table, rank, slotIndex, i);
    var m :| 0 <= m < |copies| && copies[m] == sorted[i];
    assert m == j;
  }

  // ---------------------------------------------------------------------------
  // All slots

  /** Every slot has a row in the headcount table, as the slot handlers keep it. */
  predicate Backed(slots: seq<string>, headcount: HeadcountData) {
    forall i :: 0 <= i < |slots| ==> slots[i] in headcount
  }

  datatype Run = Run(results: seq<SegmentationResult>, counters: seq<Agent>)

  /** What happens in one slot, given the working records, the slot, its row and its index. */
  type Stepper = (seq<Agent>, string, HeadcountRow, nat) -> Step

  /** The slot step of one generation, with its break table and tie-break fixed. */
  function SlotStepper(table: BreakTable, rank: (nat, string) -> int): Stepper {
    (copies: seq<Agent>, slot: string, row: HeadcountRow, slotIndex: nat) => SlotStep(copies, slot, row, table, rank, slotIndex)
  }

  /** The first n slots processed in order, each seeing the counters the earlier ones left. */
  function RunSlots(copies: seq<Agent>, slots: seq<string>, headcount: HeadcountData, step: Stepper, n: nat): Run
    requires n <= |slots| && Backed(slots, headcount)
  {
    if n == 0 then Run([], copies)
    else
      var prev := RunSlots(copies, slots, headcount, step, n - 1);
      var next := step(prev.counters, slots[n - 1], headcount[slots[n - 1]], n - 1);
      Run(prev.results + Optional(next.result), next.counters)
  }

  /** The slots among the first n that ask for anyone, in order. */
  function Demanded(slots: seq<string>, headcount: HeadcountData, n: nat): seq<string>
    requires n <= |slots| && Backed(slots, headcount)
  {
    if n == 0 then []
    else Demanded(slots, headcount, n - 1) + (if TotalReq(headcount[slots[n - 1]]) > 0 then [slots[n - 1]] else [])
  }

  function SlotNames(results: seq<SegmentationResult>): (r: seq<string>)
    ensures |r| == |results|
  {
    if results == [] then [] else SlotNames(results[..|results| - 1]) + [results[|results| - 1].slot]
  }

  /** A result of a slot that asks for anyone: a warning and no seats, or exactly the headcount on every queue. */
  predicate ResultOk(r: SegmentationResult, headcount: HeadcountData) {
    r.slot in headcount && r.totalRequired == TotalReq(headcount[r.slot]) > 0 &&
    (r.warning.Some? ==> r.assignments == map[]) &&
    (r.warning.None? ==> forall q :: q in r.assignments && |r.assignments[q]| == Req(headcount[r.slot], q))
  }

  predicate AllOk(results: seq<SegmentationResult>, headcount: HeadcountData) {
    forall r :: r in results ==> ResultOk(r, headcount)
  }

  function Optional(o: Option<SegmentationResult>): seq<SegmentationResult> {
    if o.Some? then [o.value] else []
  }

  /** Appending one slot's result, if any, to results that are in order and well formed. */
  lemma ResultsSnoc(results: seq<SegmentationResult>, o: Option<SegmentationResult>, headcount: HeadcountData)
    requires AllOk(results, headcount) && (o.Some? ==> ResultOk(o.value, headcount))
    ensures SlotNames(results + Optional(o)) == SlotNames(results) + (if o.Some? then [o.value.slot] else [])
    ensures AllOk(results + Optional(o), headcount)
  {
    if o.Some? {
      assert (results + [o.value])[..|results|] == results;
    } else {
      assert results + [] == results;
    }
  }

  /** A step yields a result exactly for a slot that asks for anyone, and that result names the slot and is well formed. */
  ghost predicate StepsOk(step: Stepper, headcount: HeadcountData) {
    forall copies, slot, slotIndex :: slot in headcount ==>
      var o := step(copies, slot, headcount[slot], slotIndex).result;
      (o.Some? <==> TotalReq(headcount[slot]) > 0) &&
      (o.Some? ==> o.value.slot == slot && ResultOk(o.value, headcount))
  }

  /** StepsOk for one slot. */
  lemma StepOkAt(step: Stepper, headcount: HeadcountData, copies: seq<Agent>, slot: string, slotIndex: nat)
    requires StepsOk(step, headcount) && slot in headcount
    ensures var o := step(copies, slot, headcount[slot], slotIndex).result;
      (o.Some? <==> TotalReq(headcount[slot]) > 0) &&
      (o.Some? ==> o.value.slot == slot && ResultOk(o.value, headcount))
  {
  }

  /** The generation's slot step has the shape the results need. */
  lemma SlotStepperOk(table: BreakTable, rank: (nat, string) -> int, headcount: HeadcountData)
    ensures StepsOk(SlotStepper(table, rank), headcount)
  {
    forall copies, slot, slotIndex | slot in headcount
      ensures var o := SlotStep(copies, slot, headcount[slot], table, rank, slotIndex).result;
        (o.Some? <==> TotalReq(headcount[slot]) > 0) &&
        (o.Some? ==> o.value.slot == slot && ResultOk(o.value, headcount))
    {
      StepResult(copies, slot, headcount[slot], table, rank, slotIndex);
    }
  }

  /**
   * The results are the slots that ask for anyone, in the order of the slot
   * list, each well formed.
   */
  lemma {:induction false} RunResults(copies: seq<Agent>, slots: seq<string>, headcount: HeadcountData, step: Stepper, n: nat)
    requires n <= |slots| && Backed(slots, headcount) && StepsOk(step, headcount)
    ensures SlotNames(RunSlots(copies, slots, headcount, step, n).results) == Demanded(slots, headcount, n)
    ensures AllOk(RunSlots(copies, slots, headcount, step, n).results, headcount)
  {
    if n > 0 {
      var prev := RunSlots(copies, slots, headcount, step, n - 1);
      RunResults(copies, slots, headcount, step, n - 1);
      var slot := slots[n - 1];
      StepOkAt(step, headcount, prev.counters, slot, n - 1);
      ResultsSnoc(prev.results, step(prev.counters, slot, headcount[slot], n - 1).result, headcount);
    }
  }

  /**
   * The working records after some slots: same number, each the same but for
   * its counters, its total grown by at most one per slot, consistent
   * counters kept consistent.
   */
  predicate Grown(before: seq<Agent>, after: seq<Agent>, slotCount: nat) {
    |after| == |before| && forall j :: 0 <= j < |before| ==> GrownOne(before[j], after[j], slotCount)
  }

  predicate GrownOne(before: Agent, after: Agent, slotCount: nat) {
    SameButCounters(before, after) &&
    before.total <= after.total <= before.total + slotCount &&
    (Consistent(before) ==> Consistent(after))
  }

  lemma GrownTrans(a: seq<Agent>, b: seq<Agent>, c: seq<Agent>, m: nat, n: nat)
    requires Grown(a, b, m) && Grown(b, c, n)
    ensures Grown(a, c, m + n)
  {
  }

  lemma GrownDistinct(a: seq<Agent>, b: seq<Agent>, n: nat)
    requires Grown(a, b, n) && DistinctIds(a)
    ensures DistinctIds(b)
  {
    forall i, j | 0 <= i < j < |b|
      ensures b[i].id != b[j].id
    {
      assert SameButCounters(a[i], b[i]) && SameButCounters(a[j], b[j]);
    }
  }

  /** One slot grows the working records by at most one seat each. */
  lemma StepGrows(copies: seq<Agent>, slot: string, row: HeadcountRow, table: BreakTable,
                  rank: (nat, string) -> int, slotIndex: nat)
    requires DistinctIds(copies)
    ensures Grown(copies, SlotStep(copies, slot, row, table, rank, slotIndex).counters, 1)
  {
    var after := SlotStep(copies, slot, row, table, rank, slotIndex).counters;
    forall j | 0 <= j < |copies|
      ensures GrownOne(copies[j], after[j], 1)
    {
      StepSeats(copies, slot, row, table, rank, slotIndex, j);
    }
    StepCount(copies, slot, row, table, rank, slotIndex);
  }

  /** A slot keeps the number of working records. */
  lemma StepCount(copies: seq<Agent>, slot: string, row: HeadcountRow, table: BreakTable,
                  rank: (nat, string) -> int, slotIndex: nat)
    ensures |SlotStep(copies, slot, row, table, rank, slotIndex).counters| == |copies|
  {
  }

  /** Every step grows distinct working records by at most one seat each. */
  ghost predicate StepsGrow(step: Stepper) {
    forall copies, slot, row, slotIndex :: DistinctIds(copies) ==> Grown(copies, step(copies, slot, row, slotIndex).counters, 1)
  }

  lemma SlotStepperGrows(table: BreakTable, rank: (nat, string) -> int)
    ensures StepsGrow(SlotStepper(table, rank))
  {
    forall copies, slot, row, slotIndex | DistinctIds(copies)
      ensures Grown(copies, SlotStep(copies, slot, row, table, rank, slotIndex).counters, 1)
    {
      StepGrows(copies, slot, row, table, rank, slotIndex);
    }
  }

  /**
   * Across the slots the working records keep their number, their ids and
   * everything but their counters; consistent counters stay consistent, and
   * an agent never gains more than one seat per slot.
   */
  lemma {:induction false} RunCounters(copies: seq<Agent>, slots: seq<string>, headcount: HeadcountData, step: Stepper, n: nat)
    requires n <= |slots| && Backed(slots, headcount) && DistinctIds(copies) && StepsGrow(step)
    ensures Grown(copies, RunSlots(copies, slots, headcount, step, n).counters, n)
  {
    if n > 0 {
      var prev := RunSlots(copies, slots, headcount, step, n - 1).counters;
      RunCounters(copies, slots, headcount, step, n - 1);
      GrownDistinct(copies, prev, n - 1);
      GrownTrans(copies, prev, step(prev, slots[n - 1], headcount[slots[n - 1]], n - 1).counters, n - 1, 1);
    } else {
      assert Grown(copies, copies, 0);
    }
  }

  // ---------------------------------------------------------------------------
  // The whole generation

  /** The working copy of an agent: the same record with empty counters. */
  function Reset(a: Agent): (r: Agent)
    ensures Fresh(r) && SameButCounters(a, r)
  {
    a.(assignments := map[], total := 0)
  }

  /** Working copies of the PRESENT agents among the first n, in order. */
  function Roster(agents: seq<Agent>, n: nat): (r: seq<Agent>)
    requires n <= |agents|
    ensures |r| <= n
  {
    if n == 0 then []
    else Roster(agents, n - 1) + (if agents[n - 1].status == Present then [Reset(agents[n - 1])] else [])
  }

  /** The roster holds exactly a fresh copy of each PRESENT agent, and distinct ids stay distinct. */
  lemma {:induction false} RosterMembers(agents: seq<Agent>, n: nat)
    requires n <= |agents|
    ensures forall x :: x in Roster(agents, n) <==> exists i :: 0 <= i < n && agents[i].status == Present && x == Reset(agents[i])
    ensures DistinctIds(agents) ==> DistinctIds(Roster(agents, n))
  {
    if n > 0 {
      RosterMembers(agents, n - 1);
      var prev := Roster(agents, n - 1);
      if DistinctIds(agents) {
        forall k | 0 <= k < |prev|
          ensures prev[k].id != agents[n - 1].id
        {
          assert prev[k] in prev;
          var i :| 0 <= i < n - 1 && agents[i].status == Present && prev[k] == Reset(agents[i]);
        }
      }
    }
  }

  /** An agent's record after generation: the counters of its working copy, or empty ones. */
  function Merged(a: Agent, copies: seq<Agent>): (r: Agent)
    ensures SameButCounters(a, r)
  {
    var j := FindById(copies, a.id);
    if j < |copies| then a.(assignments := copies[j].assignments, total := copies[j].total) else Reset(a)
  }

  function MergeBack(agents: seq<Agent>, copies: seq<Agent>): (r: seq<Agent>)
    ensures |r| == |agents| && forall i :: 0 <= i < |agents| ==> r[i] == Merged(agents[i], copies)
  {
    seq(|agents|, i requires 0 <= i < |agents| => Merged(agents[i], copies))
  }

  datatype Outcome = Outcome(agents: seq<Agent>, breakTimes: BreakTable, results: seq<SegmentationResult>)

  /** The state generation leaves: updated agents, the purged break table and the slot results. */
  function Segmentation(agents: seq<Agent>, table: BreakTable, slots: seq<string>, headcount: HeadcountData,
                        now: nat, rank: (nat, string) -> int): (o: Outcome)
    requires Backed(slots, headcount)
    ensures |o.agents| == |agents| && forall i :: 0 <= i < |agents| ==> SameButCounters(agents[i], o.agents[i])
    ensures o.breakTimes.Keys <= table.Keys
  {
    var cleaned := PurgeExpired(table, now);
    var run := RunSlots(Roster(agents, |agents|), slots, headcount, SlotStepper(cleaned, rank), |slots|);
    Outcome(MergeBack(agents, run.counters), cleaned, run.results)
  }

  /** The generation handler, slot by slot with the working copy threaded through. */
  method Generate(agents: seq<Agent>, table: BreakTable, slots: seq<string>, headcount: HeadcountData,
                  now: nat, rank: (nat, string) -> int)
      returns (newAgents: seq<Agent>, cleaned: BreakTable, results: seq<SegmentationResult>)
    requires Backed(slots, headcount)
    ensures Outcome(newAgents, cleaned, results) == Segmentation(agents, table, slots, headcount, now, rank)
  {
    cleaned := RemoveExpiredBreaks(table, now);
    var roster := Roster(agents, |agents|);
    var copies := roster;
    results := [];
    var i := 0;
    while i < |slots|
      invariant i <= |slots|
      invariant Run(results, copies) == RunSlots(roster, slots, headcount, SlotStepper(cleaned, rank), i)
    {
      var slot := slots[i];
      var result;
      result, copies := ProcessSlot(copies, slot, headcount[slot], cleaned, rank, i);
      results := results + Optional(result);
      i := i + 1;
    }
    newAgents := MergeBack(agents, copies);
  }

  /**
   * After generation every agent keeps its place and everything but its
   * counters, its total is the sum of its queue counts and at most the number
   * of slots, and an agent that is not PRESENT has empty counters.
   */
  lemma Settles(agents: seq<Agent>, table: BreakTable, slots: seq<string>, headcount: HeadcountData,
                now: nat, rank: (nat, string) -> int)
    requires Backed(slots, headcount) && DistinctIds(agents)
    ensures var out := Segmentation(agents, table, slots, headcount, now, rank);
      |out.agents| == |agents| &&
      forall i :: 0 <= i < |agents| ==>
        SameButCounters(agents[i], out.agents[i]) &&
        Consistent(out.agents[i]) && out.agents[i].total <= |slots| &&
        (agents[i].status != Present ==> Fresh(out.agents[i]))
  {
    var roster := Roster(agents, |agents|);
    var cleaned := PurgeExpired(table, now);
    var after := RunSlots(roster, slots, headcount, SlotStepper(cleaned, rank), |slots|).counters;
    RosterMembers(agents, |agents|);
    SlotStepperGrows(cleaned, rank);
    RunCounters(roster, slots, headcount, SlotStepper(cleaned, rank), |slots|);
    assert Grown(roster, after, |slots|);
    forall i | 0 <= i < |agents|
      ensures var m := Merged(agents[i], after);
        Consistent(m) && m.total <= |slots| && (agents[i].status != Present ==> Fresh(m))
    {
      var j := FindById(after, agents[i].id);
      if j < |after| {
        assert roster[j] in roster;
        FreshConsistent(roster[j]);
        var k :| 0 <= k < |agents| && agents[k].status == Present && roster[j] == Reset(agents[k]);
        assert SameButCounters(roster[j], after[j]);
        assert k == i;
      } else {
        FreshConsistent(Reset(agents[i]));
      }
    }
  }

  /**
   * The results of a generation are the slots that ask for anyone, in the
   * order of the slot list; each carries its slot's headcount total and
   * either a warning and no seats or exactly the headcount on every queue.
   */
  lemma ResultsMatchSlots(agents: seq<Agent>, table: BreakTable, slots: seq<string>, headcount: HeadcountData,
                          now: nat, rank: (nat, string) -> int)
    requires Backed(slots, headcount)
    ensures var out := Segmentation(agents, table, slots, headcount, now, rank);
      SlotNames(out.results) == Demanded(slots, headcount, |slots|) && AllOk(out.results, headcount)
  {
    var cleaned := PurgeExpired(table, now);
    SlotStepperOk(cleaned, rank, headcount);
    RunResults(Roster(agents, |agents|), slots, headcount, SlotStepper(cleaned, rank), |slots|);
  }
}
