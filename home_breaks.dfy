/**
 * Break availability for the scheduler: whether an agent's breaks overlap a
 * slot, and the clean-up that drops breaks that have already ended. The
 * current minute of the day is a parameter.
 */
module HomeBreaks {
  import opened Wrappers
  import opened TimeText
  import opened Types
  import opened HomeTime

  /** The break records of the roster, keyed by agent id. */
  type BreakTable = map<string, AgentBreakTime>

  /** The minutes a break runs between, each end read with the clock parser. */
  function BreakSpan(b: BreakSlot): Interval {
    Interval(ParseTimeToMinutes(b.start), ParseTimeToMinutes(b.end))
  }

  /** Two spans overlap when the first starts before the second ends and ends after the second starts. */
  predicate Meets(span: Interval, slot: Interval) {
    span.start < slot.end && span.end > slot.start
  }

  /** The spans of a list of breaks, in order. */
  function Spans(breaks: seq<BreakSlot>): (r: seq<Interval>)
    ensures |r| == |breaks|
  {
    if breaks == [] then [] else Spans(breaks[..|breaks| - 1]) + [BreakSpan(breaks[|breaks| - 1])]
  }

  /** Some span of the list meets the slot; the list is read from its end. */
  predicate AnyMeets(spans: seq<Interval>, slot: Interval) {
    |spans| > 0 && (AnyMeets(spans[..|spans| - 1], slot) || Meets(spans[|spans| - 1], slot))
  }

  /** The agent has a break record, the slot label parses, and one of the breaks overlaps the slot. */
  predicate OnBreak(agentId: string, slot: string, table: BreakTable)
    ensures OnBreak(agentId, slot, table) ==> agentId in table && |table[agentId].breaks| > 0 && ParseSlotTimes(slot).Some?
  {
    agentId in table &&
    match ParseSlotTimes(slot)
    case None => false
    case Some(slotTimes) => AnyMeets(Spans(table[agentId].breaks), slotTimes)
  }

  /** Scans the agent's breaks in order and stops at the first one that overlaps the slot. */
  method IsAgentOnBreak(agentId: string, slot: string, table: BreakTable) returns (r: bool)
    ensures r == OnBreak(agentId, slot, table)
  {
    if agentId !in table || |table[agentId].breaks| == 0 {
      return false;
    }
    var slotTimes := ParseSlotTimes(slot);
    if slotTimes.None? {
      return false;
    }
    var breaks := table[agentId].breaks;
    var k := 0;
    while k < |breaks|
      invariant k <= |breaks|
      invariant !AnyMeets(Spans(breaks[..k]), slotTimes.value)
    {
      var breakStart := ParseTimeToMinutes(breaks[k].start);
      var breakEnd := ParseTimeToMinutes(breaks[k].end);
      SpansSnoc(breaks, k);
      if breakStart < slotTimes.value.end && breakEnd > slotTimes.value.start {
        AnyMeetsPrefix(breaks, k + 1, slotTimes.value);
        return true;
      }
      k := k + 1;
    }
    assert breaks[..k] == breaks;
    return false;
  }

  /** One more break adds its span at the end and meets the slot when either part does. */
  lemma SpansSnoc(breaks: seq<BreakSlot>, k: nat)
    requires k < |breaks|
    ensures Spans(breaks[..k + 1]) == Spans(breaks[..k]) + [BreakSpan(breaks[k])]
    ensures forall slot :: AnyMeets(Spans(breaks[..k + 1]), slot) <==>
      AnyMeets(Spans(breaks[..k]), slot) || Meets(BreakSpan(breaks[k]), slot)
  {
    assert breaks[..k + 1][..k] == breaks[..k];
    var spans := Spans(breaks[..k]) + [BreakSpan(breaks[k])];
    assert spans[..|spans| - 1] == Spans(breaks[..k]);
  }

  /** A meeting in a prefix is a meeting of the whole list. */
  lemma {:induction false} AnyMeetsPrefix(breaks: seq<BreakSlot>, n: nat, slot: Interval)
    requires n <= |breaks| && AnyMeets(Spans(breaks[..n]), slot)
    ensures AnyMeets(Spans(breaks), slot)
    decreases |breaks| - n
  {
    if n < |breaks| {
      SpansSnoc(breaks, n);
      AnyMeetsPrefix(breaks, n + 1, slot);
    } else {
      assert breaks[..n] == breaks;
    }
  }

  /** The scan finds a meeting exactly when some span meets the slot. */
  lemma {:induction false} AnyMeetsExists(spans: seq<Interval>, slot: Interval)
    ensures AnyMeets(spans, slot) <==> exists k :: 0 <= k < |spans| && Meets(spans[k], slot)
  {
    if |spans| > 0 {
      var last := |spans| - 1;
      var init := spans[..last];
      AnyMeetsExists(init, slot);
      if AnyMeets(spans, slot) && !Meets(spans[last], slot) {
        var k :| 0 <= k < |init| && Meets(init[k], slot);
        assert spans[k] == init[k];
      }
      if exists k :: 0 <= k < |spans| && Meets(spans[k], slot) {
        var k :| 0 <= k < |spans| && Meets(spans[k], slot);
        if k < last {
          assert init[k] == spans[k];
        }
      }
    }
  }

  /** Span k of a list is the span of break k. */
  lemma {:induction false} SpansAt(breaks: seq<BreakSlot>, k: nat)
    requires k < |breaks|
    ensures Spans(breaks)[k] == BreakSpan(breaks[k])
  {
    if k < |breaks| - 1 {
      SpansAt(breaks[..|breaks| - 1], k);
    }
  }

  /**
   * An agent is on break in a slot exactly when they have a break record, the
   * slot label parses, and some break starts before the slot ends and ends
   * after the slot starts.
   */
  lemma OnBreakMeans(agentId: string, slot: string, table: BreakTable)
    ensures OnBreak(agentId, slot, table) <==>
      agentId in table && ParseSlotTimes(slot).Some? &&
      exists k :: 0 <= k < |table[agentId].breaks| && Meets(BreakSpan(table[agentId].breaks[k]), ParseSlotTimes(slot).value)
  {
    if agentId in table && ParseSlotTimes(slot).Some? {
      var breaks, slotTimes := table[agentId].breaks, ParseSlotTimes(slot).value;
      AnyMeetsExists(Spans(breaks), slotTimes);
      forall k | 0 <= k < |breaks|
        ensures Spans(breaks)[k] == BreakSpan(breaks[k])
      {
        SpansAt(breaks, k);
      }
    }
  }

  /** A break whose end carries no AM/PM reads as ending at minute 0, so it overlaps no slot. */
  lemma EndWithoutPeriodNeverBlocks(b: BreakSlot, slot: Interval)
    requires FindTime(b.end, true).None?
    ensures !Meets(BreakSpan(b), slot)
  {
  }

  /** An agent none of whose breaks has an end with AM/PM is on break in no slot. */
  lemma NoReadableEndNotOnBreak(agentId: string, slot: string, table: BreakTable)
    requires agentId in table
    requires forall k :: 0 <= k < |table[agentId].breaks| ==> FindTime(table[agentId].breaks[k].end, true).None?
    ensures !OnBreak(agentId, slot, table)
  {
    OnBreakMeans(agentId, slot, table);
    if ParseSlotTimes(slot).Some? {
      var breaks := table[agentId].breaks;
      forall k | 0 <= k < |breaks|
        ensures !Meets(BreakSpan(breaks[k]), ParseSlotTimes(slot).value)
      {
        EndWithoutPeriodNeverBlocks(breaks[k], ParseSlotTimes(slot).value);
      }
    }
  }

  // ---------------------------------------------------------------------------
  // Expired breaks

  /** A break is still active when its end lies after the current minute. */
  predicate Active(b: BreakSlot, now: nat) {
    ParseTimeToMinutes(b.end) > now
  }

  /** The breaks that are still active, in their original order. */
  function ActiveBreaks(breaks: seq<BreakSlot>, now: nat): (r: seq<BreakSlot>)
    ensures |r| <= |breaks|
    ensures forall b :: b in r <==> b in breaks && Active(b, now)
  {
    if breaks == [] then []
    else
      var rest := ActiveBreaks(breaks[1..], now);
      assert forall b :: b in breaks <==> b == breaks[0] || b in breaks[1..];
      if Active(breaks[0], now) then [breaks[0]] + rest else rest
  }

  /** The records left after the clean-up: the active breaks of each agent, and no record for an agent left without breaks. */
  function PurgeExpired(table: BreakTable, now: nat): (r: BreakTable)
    ensures r.Keys <= table.Keys
    ensures forall id :: id in r ==> r[id].agentId == table[id].agentId && |r[id].breaks| > 0
  {
    Refiltered(table, breaks => ActiveBreaks(breaks, now))
  }

  /** Each record with its breaks passed through `keep`, and no record for an agent left without breaks. */
  function Refiltered(table: BreakTable, keep: seq<BreakSlot> -> seq<BreakSlot>): BreakTable {
    map id | id in table && |keep(table[id].breaks)| > 0 :: table[id].(breaks := keep(table[id].breaks))
  }

  /** Builds the cleaned table one record at a time. */
  method RemoveExpiredBreaks(table: BreakTable, now: nat) returns (updated: BreakTable)
    ensures updated == PurgeExpired(table, now)
  {
    updated := map[];
    var remaining := table.Keys;
    while remaining != {}
      invariant remaining <= table.Keys
      invariant forall id :: id in updated <==>
        (id in table && id !in remaining && |ActiveBreaks(table[id].breaks, now)| > 0)
      invariant forall id :: id in updated ==> updated[id] == table[id].(breaks := ActiveBreaks(table[id].breaks, now))
      decreases |remaining|
    {
      var id :| id in remaining;
      var activeBreaks := ActiveBreaks(table[id].breaks, now);
      if |activeBreaks| > 0 {
        updated := updated[id := table[id].(breaks := activeBreaks)];
      }
      remaining := remaining - {id};
    }
  }

  /** The clean-up adds no agent and no break: every kept break was a break of that agent and is active. */
  lemma PurgeKeepsOnlyActive(table: BreakTable, now: nat)
    ensures PurgeExpired(table, now).Keys <= table.Keys
    ensures forall id, b :: id in PurgeExpired(table, now) && b in PurgeExpired(table, now)[id].breaks ==>
      b in table[id].breaks && Active(b, now)
    ensures forall id :: id in PurgeExpired(table, now) ==>
      PurgeExpired(table, now)[id].agentId == table[id].agentId && |PurgeExpired(table, now)[id].breaks| > 0
  {
  }

  /** An agent keeps a record exactly when one of their breaks is still active, and then keeps all active ones. */
  lemma PurgeKeepsEveryActive(table: BreakTable, now: nat, id: string)
    requires id in table
    ensures id in PurgeExpired(table, now) <==> exists b :: b in table[id].breaks && Active(b, now)
    ensures forall b :: b in table[id].breaks && Active(b, now) ==> b in PurgeExpired(table, now)[id].breaks
  {
    var active := ActiveBreaks(table[id].breaks, now);
    if |active| > 0 {
      assert active[0] in active;
      assert id in PurgeExpired(table, now);
    }
    if exists b :: b in table[id].breaks && Active(b, now) {
      var b :| b in table[id].breaks && Active(b, now);
      assert b in active;
    }
  }

  /** Filtering distributes over concatenation, so the kept breaks stay in their original order. */
  lemma {:induction false} ActiveBreaksAppend(xs: seq<BreakSlot>, ys: seq<BreakSlot>, now: nat)
    ensures ActiveBreaks(xs + ys, now) == ActiveBreaks(xs, now) + ActiveBreaks(ys, now)
  {
    if xs == [] {
      assert xs + ys == ys;
    } else {
      assert (xs + ys)[1..] == xs[1..] + ys;
      ActiveBreaksAppend(xs[1..], ys, now);
    }
  }

  /** Filtering twice keeps what filtering once keeps. */
  lemma {:induction false} ActiveBreaksIdempotent(breaks: seq<BreakSlot>, now: nat)
    ensures ActiveBreaks(ActiveBreaks(breaks, now), now) == ActiveBreaks(breaks, now)
  {
    if breaks != [] {
      ActiveBreaksIdempotent(breaks[1..], now);
      var rest := ActiveBreaks(breaks[1..], now);
      if Active(breaks[0], now) {
        assert ([breaks[0]] + rest)[1..] == rest;
      }
    }
  }

  /** Running the clean-up twice at the same minute gives what running it once gives. */
  lemma PurgeIdempotent(table: BreakTable, now: nat)
    ensures PurgeExpired(PurgeExpired(table, now), now) == PurgeExpired(table, now)
  {
    var once := PurgeExpired(table, now);
    forall id | id in once
      ensures ActiveBreaks(once[id].breaks, now) == once[id].breaks && |once[id].breaks| > 0
    {
      ActiveBreaksIdempotent(table[id].breaks, now);
    }
    RefilteredUnchanged(once, breaks => ActiveBreaks(breaks, now));
  }

  /** A table whose records each hold at least one break and are left alone by `keep` comes through unchanged. */
  lemma RefilteredUnchanged(table: BreakTable, keep: seq<BreakSlot> -> seq<BreakSlot>)
    requires forall id :: id in table ==> keep(table[id].breaks) == table[id].breaks && |table[id].breaks| > 0
    ensures Refiltered(table, keep) == table
  {
  }
}
