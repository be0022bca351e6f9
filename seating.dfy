/**
 * The seat-filling step of schedule generation: the per-queue requirements of
 * a headcount row, the per-agent counters a seat bumps, the ordering of the
 * available agents by their running total, and the loop that hands out the
 * seats queue by queue from one shared position in that ordering.
 */
module Seating {
  import opened Wrappers
  import opened Types

  // ---------------------------------------------------------------------------
  // Requirements

  /** Agents a row asks for on one queue; a queue missing from the row asks for none. */
  function Req(row: HeadcountRow, q: Queue): nat {
    if q in row then row[q] else 0
  }

  /** Seats asked for by the first k queues of QUEUES: where queue k starts in the shared ordering. */
  function Offset(row: HeadcountRow, k: nat): nat
    requires k <= |QUEUES|
  {
    if k == 0 then 0 else Offset(row, k - 1) + Req(row, QUEUES[k - 1])
  }

  /** Seats asked for by the whole row, summed over QUEUES. */
  function TotalReq(row: HeadcountRow): (r: nat)
    ensures r == Req(row, PmPgc) + Req(row, SvPgc) + Req(row, LvPgc) + Req(row, PmNpgc) + Req(row, SvNpgc) + Req(row, LvNpgc)
  {
    assert Offset(row, 1) == Req(row, PmPgc);
    assert Offset(row, 2) == Offset(row, 1) + Req(row, SvPgc);
    assert Offset(row, 3) == Offset(row, 2) + Req(row, LvPgc);
    assert Offset(row, 4) == Offset(row, 3) + Req(row, PmNpgc);
    assert Offset(row, 5) == Offset(row, 4) + Req(row, SvNpgc);
    Offset(row, |QUEUES|)
  }

  /** The queues' seat ranges follow each other and all lie below the row's total. */
  lemma {:induction false} OffsetBounds(row: HeadcountRow, k: nat, k2: nat)
    requires k <= k2 <= |QUEUES|
    ensures Offset(row, k) <= Offset(row, k2) <= TotalReq(row)
    decreases |QUEUES| - k
  {
    if k < |QUEUES| {
      OffsetBounds(row, k + 1, if k2 == k then k + 1 else k2);
    }
  }

  /** A row with a zero entry for every queue asks for nothing, and one asking for nothing has no positive entry. */
  lemma {:induction false} ZeroTotal(row: HeadcountRow, k: nat)
    requires k <= |QUEUES|
    ensures Offset(row, k) == 0 <==> forall j :: 0 <= j < k ==> Req(row, QUEUES[j]) == 0
  {
    if k > 0 {
      ZeroTotal(row, k - 1);
    }
  }

  // ---------------------------------------------------------------------------
  // Counters

  /** Seats an agent holds on a queue; a missing key reads as 0. */
  function Count(m: map<Queue, nat>, q: Queue): nat {
    if q in m then m[q] else 0
  }

  /** Seats held on the first k queues of QUEUES. */
  function CountSum(m: map<Queue, nat>, k: nat): nat
    requires k <= |QUEUES|
  {
    if k == 0 then 0 else CountSum(m, k - 1) + Count(m, QUEUES[k - 1])
  }

  /** An agent's total is the number of seats recorded on its queues. */
  predicate Consistent(a: Agent) {
    a.total == CountSum(a.assignments, |QUEUES|)
  }

  /** An agent whose counters are empty, as every generation starts them. */
  predicate Fresh(a: Agent) {
    a.assignments == map[] && a.total == 0
  }

  /** Two records that differ at most in their counters. */
  predicate SameButCounters(a: Agent, b: Agent) {
    a.(assignments := b.assignments, total := b.total) == b
  }

  lemma FreshConsistent(a: Agent)
    requires Fresh(a)
    ensures Consistent(a)
  {
    ZeroCountSum(a.assignments, |QUEUES|);
  }

  lemma {:induction false} ZeroCountSum(m: map<Queue, nat>, k: nat)
    requires k <= |QUEUES| && m == map[]
    ensures CountSum(m, k) == 0
  {
    if k > 0 {
      ZeroCountSum(m, k - 1);
    }
  }

  /** One more seat on queue q: that queue's count and the total each grow by exactly one. */
  function Bump(a: Agent, q: Queue): (r: Agent)
    ensures SameButCounters(a, r)
    ensures Count(r.assignments, q) == Count(a.assignments, q) + 1 && r.total == a.total + 1
    ensures forall q' :: q' != q ==> Count(r.assignments, q') == Count(a.assignments, q')
  {
    a.(assignments := a.assignments[q := Count(a.assignments, q) + 1], total := a.total + 1)
  }

  /** A bump on queue q' adds one to queue q's count exactly when q' is q. */
  lemma BumpCount(a: Agent, q': Queue, q: Queue)
    ensures Count(Bump(a, q').assignments, q) == Count(a.assignments, q) + (if q' == q then 1 else 0)
  {
  }

  /** Where a queue stands in QUEUES. */
  function Position(q: Queue): (r: nat)
    ensures r < |QUEUES| && QUEUES[r] == q
  {
    match q
    case PmPgc => 0
    case SvPgc => 1
    case LvPgc => 2
    case PmNpgc => 3
    case SvNpgc => 4
    case LvNpgc => 5
  }

  /** A bump adds one to the sum over the first k queues when they include the bumped one. */
  lemma {:induction false} BumpCountSum(m: map<Queue, nat>, q: Queue, k: nat)
    requires k <= |QUEUES|
    ensures CountSum(m[q := Count(m, q) + 1], k) == CountSum(m, k) + (if Position(q) < k then 1 else 0)
  {
    if k > 0 {
      BumpCountSum(m, q, k - 1);
      QueuesComplete();
      assert QUEUES[k - 1] == q <==> Position(q) == k - 1;
    }
  }

  /** A bump keeps the total equal to the seats recorded on the queues. */
  lemma BumpConsistent(a: Agent, q: Queue)
    requires Consistent(a)
    ensures Consistent(Bump(a, q))
  {
    BumpCountSum(a.assignments, q, |QUEUES|);
  }

  // ---------------------------------------------------------------------------
  // Looking agents up and seating them

  /** The position of the first record with the given id, or the length when there is none. */
  function FindById(agents: seq<Agent>, id: string): (j: nat)
    ensures j <= |agents|
    ensures j < |agents| ==> agents[j].id == id
    ensures forall i :: 0 <= i < j ==> agents[i].id != id
  {
    if agents == [] then 0
    else if agents[0].id == id then 0
    else 1 + FindById(agents[1..], id)
  }

  predicate DistinctIds(agents: seq<Agent>) {
    forall i, j :: 0 <= i < j < |agents| ==> agents[i].id != agents[j].id
  }

  /** With distinct ids the lookup finds exactly the record at that position. */
  lemma FindByIdAt(agents: seq<Agent>, j: nat)
    requires DistinctIds(agents) && j < |agents|
    ensures FindById(agents, agents[j].id) == j
  {
  }

  /** The seat of one agent on queue q: the counters of the first record with its id are bumped. */
  function Seat(counters: seq<Agent>, agent: Agent, q: Queue): (r: seq<Agent>)
    ensures |r| == |counters|
  {
    var j := FindById(counters, agent.id);
    if j < |counters| then counters[j := Bump(counters[j], q)] else counters
  }

  /** The first n seats of a slot, taken in order: seated[i] sits on queues[i]. */
  function ApplySeats(counters: seq<Agent>, seated: seq<Agent>, queues: seq<Queue>, n: nat): (r: seq<Agent>)
    requires n <= |seated| && n <= |queues|
    ensures |r| == |counters|
  {
    if n == 0 then counters
    else Seat(ApplySeats(counters, seated, queues, n - 1), seated[n - 1], queues[n - 1])
  }

  /** How many of the first n seats go to the agent with the given id. */
  function SeatsOf(seated: seq<Agent>, n: nat, id: string): nat
    requires n <= |seated|
  {
    if n == 0 then 0
    else SeatsOf(seated, n - 1, id) + (if seated[n - 1].id == id then 1 else 0)
  }

  /** How many of the first n seats are on queue q and go to the agent with the given id. */
  function SeatsOn(seated: seq<Agent>, queues: seq<Queue>, n: nat, id: string, q: Queue): nat
    requires n <= |seated| && n <= |queues|
  {
    if n == 0 then 0
    else SeatsOn(seated, queues, n - 1, id, q) + (if seated[n - 1].id == id && queues[n - 1] == q then 1 else 0)
  }

  /** Among distinct records, one seat bumps exactly the record carrying the agent's id. */
  lemma SeatAt(counters: seq<Agent>, agent: Agent, q: Queue, j: nat)
    requires DistinctIds(counters) && j < |counters|
    ensures Seat(counters, agent, q)[j] == if agent.id == counters[j].id then Bump(counters[j], q) else counters[j]
  {
    FindByIdAt(counters, j);
  }

  /** Among distinct records, the n-th seat bumps exactly the record carrying the seated agent's id. */
  lemma SeatStep(counters: seq<Agent>, seated: seq<Agent>, queues: seq<Queue>, n: nat, j: nat)
    requires 0 < n <= |seated| && n <= |queues| && DistinctIds(counters) && j < |counters|
    ensures ApplySeats(counters, seated, queues, n)[j] ==
      if seated[n - 1].id == counters[j].id then Bump(ApplySeats(counters, seated, queues, n - 1)[j], queues[n - 1])
      else ApplySeats(counters, seated, queues, n - 1)[j]
  {
    SeatedDistinct(counters, seated, queues, n - 1);
    SeatAt(ApplySeats(counters, seated, queues, n - 1), seated[n - 1], queues[n - 1], j);
  }

  /**
   * Seating only touches counters: every record keeps its place and its other
   * fields, its total grows by the seats it got, and a consistent record stays
   * consistent.
   */
  lemma {:induction false} ApplySeatsEffect(counters: seq<Agent>, seated: seq<Agent>, queues: seq<Queue>, n: nat, j: nat)
    requires n <= |seated| && n <= |queues| && DistinctIds(counters) && j < |counters|
    ensures SameButCounters(counters[j], ApplySeats(counters, seated, queues, n)[j])
    ensures ApplySeats(counters, seated, queues, n)[j].total == counters[j].total + SeatsOf(seated, n, counters[j].id)
    ensures Consistent(counters[j]) ==> Consistent(ApplySeats(counters, seated, queues, n)[j])
  {
    if n > 0 {
      var before := ApplySeats(counters, seated, queues, n - 1)[j];
      ApplySeatsEffect(counters, seated, queues, n - 1, j);
      SeatStep(counters, seated, queues, n, j);
      if seated[n - 1].id == counters[j].id && Consistent(before) {
        BumpConsistent(before, queues[n - 1]);
      }
    }
  }

  /** Each queue's count of a record grows by the seats it got on that queue. */
  lemma {:induction false} ApplySeatsCounts(counters: seq<Agent>, seated: seq<Agent>, queues: seq<Queue>, n: nat, j: nat, q: Queue)
    requires n <= |seated| && n <= |queues| && DistinctIds(counters) && j < |counters|
    ensures Count(ApplySeats(counters, seated, queues, n)[j].assignments, q) ==
      Count(counters[j].assignments, q) + SeatsOn(seated, queues, n, counters[j].id, q)
  {
    if n > 0 {
      ApplySeatsCounts(counters, seated, queues, n - 1, j, q);
      SeatStep(counters, seated, queues, n, j);
      BumpCount(ApplySeats(counters, seated, queues, n - 1)[j], queues[n - 1], q);
    }
  }

  /** A record whose id none of the first n seated agents carries comes through unchanged. */
  lemma {:induction false} ApplySeatsUntouched(counters: seq<Agent>, seated: seq<Agent>, queues: seq<Queue>, n: nat, j: nat)
    requires n <= |seated| && n <= |queues| && DistinctIds(counters) && j < |counters|
    requires forall i :: 0 <= i < n ==> seated[i].id != counters[j].id
    ensures ApplySeats(counters, seated, queues, n)[j] == counters[j]
  {
    if n > 0 {
      ApplySeatsUntouched(counters, seated, queues, n - 1, j);
      SeatStep(counters, seated, queues, n, j);
    }
  }

  /** Seating keeps the records' ids, so they stay distinct. */
  lemma SeatedDistinct(counters: seq<Agent>, seated: seq<Agent>, queues: seq<Queue>, n: nat)
    requires n <= |seated| && n <= |queues| && DistinctIds(counters)
    ensures DistinctIds(ApplySeats(counters, seated, queues, n))
    ensures forall j :: 0 <= j < |counters| ==> ApplySeats(counters, seated, queues, n)[j].id == counters[j].id
  {
    ApplySeatsIds(counters, seated, queues, n);
  }

  /** Seating keeps every record's id. */
  lemma {:induction false} ApplySeatsIds(counters: seq<Agent>, seated: seq<Agent>, queues: seq<Queue>, n: nat)
    requires n <= |seated| && n <= |queues|
    ensures forall j :: 0 <= j < |counters| ==> ApplySeats(counters, seated, queues, n)[j].id == counters[j].id
  {
    if n > 0 {
      ApplySeatsIds(counters, seated, queues, n - 1);
    }
  }

  /** Among distinct agents, one holds a seat of the first n exactly when it is among them. */
  lemma {:induction false} SeatsOfDistinct(seated: seq<Agent>, n: nat, id: string)
    requires n <= |seated| && DistinctIds(seated)
    ensures SeatsOf(seated, n, id) == (if exists i :: 0 <= i < n && seated[i].id == id then 1 else 0)
  {
    if n > 0 {
      SeatsOfDistinct(seated, n - 1, id);
    }
  }

  // ---------------------------------------------------------------------------
  // Ordering the available agents

  /**
   * The comparison of the source's sort: the lower running total first. Equal
   * totals are ordered by a tie-break rank, which stands for the random choice
   * the source makes for each slot.
   */
  predicate KeyLE(a: Agent, b: Agent, rank: (nat, string) -> int, slotIndex: nat) {
    a.total < b.total || (a.total == b.total && rank(slotIndex, a.id) <= rank(slotIndex, b.id))
  }

  predicate SortedByKey(s: seq<Agent>, rank: (nat, string) -> int, slotIndex: nat) {
    forall i, j :: 0 <= i < j < |s| ==> KeyLE(s[i], s[j], rank, slotIndex)
  }

  /** The totals never go down along the sequence. */
  predicate SortedByTotal(s: seq<Agent>) {
    forall i, j :: 0 <= i < j < |s| ==> s[i].total <= s[j].total
  }

  /** x placed after every element that does not come strictly after it. */
  function Insert(x: Agent, s: seq<Agent>, rank: (nat, string) -> int, slotIndex: nat): (r: seq<Agent>)
    ensures multiset(r) == multiset(s) + multiset{x}
  {
    if s == [] then [x]
    else if !KeyLE(s[0], x, rank, slotIndex) then [x] + s
    else
      assert s == [s[0]] + s[1..];
      [s[0]] + Insert(x, s[1..], rank, slotIndex)
  }

  /** Every element of an insertion's result is the inserted agent or stands somewhere in the sequence. */
  lemma InsertedFrom(x: Agent, s: seq<Agent>, rank: (nat, string) -> int, slotIndex: nat, k: nat) returns (m: nat)
    requires k < |Insert(x, s, rank, slotIndex)|
    ensures Insert(x, s, rank, slotIndex)[k] == x || (m < |s| && s[m] == Insert(x, s, rank, slotIndex)[k])
  {
    var r := Insert(x, s, rank, slotIndex);
    assert r[k] in multiset(r);
    if r[k] != x {
      assert r[k] in s;
      m :| 0 <= m < |s| && s[m] == r[k];
    } else {
      m := 0;
    }
  }

  /** Inserting into a sorted sequence keeps it sorted. */
  lemma {:induction false} InsertSorted(x: Agent, s: seq<Agent>, rank: (nat, string) -> int, slotIndex: nat)
    requires SortedByKey(s, rank, slotIndex)
    ensures SortedByKey(Insert(x, s, rank, slotIndex), rank, slotIndex)
  {
    if s != [] {
      if !KeyLE(s[0], x, rank, slotIndex) {
        forall k | 0 <= k < |s|
          ensures KeyLE(x, s[k], rank, slotIndex)
        {
          if k > 0 {
            assert KeyLE(s[0], s[k], rank, slotIndex);
          }
        }
        ConsAt(x, s);
      } else {
        var rest := Insert(x, s[1..], rank, slotIndex);
        InsertSorted(x, s[1..], rank, slotIndex);
        forall k | 0 <= k < |rest|
          ensures KeyLE(s[0], rest[k], rank, slotIndex)
        {
          var m := InsertedFrom(x, s[1..], rank, slotIndex, k);
          if rest[k] != x {
            assert s[m + 1] == rest[k];
          }
        }
        ConsAt(s[0], rest);
      }
    }
  }

  /** Inserting an agent whose id is new keeps the ids distinct. */
  lemma {:induction false} InsertDistinct(x: Agent, s: seq<Agent>, rank: (nat, string) -> int, slotIndex: nat)
    requires SortedByKey(s, rank, slotIndex) && DistinctIds(s)
    requires forall k :: 0 <= k < |s| ==> s[k].id != x.id
    ensures DistinctIds(Insert(x, s, rank, slotIndex))
  {
    if s != [] && KeyLE(s[0], x, rank, slotIndex) {
      var rest := Insert(x, s[1..], rank, slotIndex);
      InsertDistinct(x, s[1..], rank, slotIndex);
      forall k | 0 <= k < |rest|
        ensures rest[k].id != s[0].id
      {
        var m := InsertedFrom(x, s[1..], rank, slotIndex, k);
        if rest[k] != x {
          assert s[m + 1] == rest[k];
        }
      }
      ConsAt(s[0], rest);
    }
  }

  /** The element put in front comes first and shifts the rest by one. */
  lemma ConsAt(a: Agent, s: seq<Agent>)
    ensures |[a] + s| == |s| + 1 && ([a] + s)[0] == a
    ensures forall k :: 1 <= k <= |s| ==> ([a] + s)[k] == s[k - 1]
  {
  }

  /** The available agents in the order the seats are handed out: a stable insertion sort by KeyLE. */
  function SortByTotal(s: seq<Agent>, rank: (nat, string) -> int, slotIndex: nat): (r: seq<Agent>)
    ensures SortedByKey(r, rank, slotIndex) && SortedByTotal(r)
    ensures multiset(r) == multiset(s) && |r| == |s|
  {
    if s == [] then []
    else
      var n := |s| - 1;
      assert s == s[..n] + [s[n]];
      var init := SortByTotal(s[..n], rank, slotIndex);
      InsertSorted(s[n], init, rank, slotIndex);
      var r := Insert(s[n], init, rank, slotIndex);
      assert |r| == |multiset(r)|;
      r
  }

  /** Every agent of the sorted list stands somewhere in the list that was sorted. */
  lemma SortedFrom(s: seq<Agent>, rank: (nat, string) -> int, slotIndex: nat, k: nat) returns (m: nat)
    requires k < |SortByTotal(s, rank, slotIndex)|
    ensures m < |s| && s[m] == SortByTotal(s, rank, slotIndex)[k]
  {
    var sorted := SortByTotal(s, rank, slotIndex);
    assert sorted[k] in multiset(sorted);
    assert sorted[k] in s;
    m :| 0 <= m < |s| && s[m] == sorted[k];
  }

  /** Sorting keeps exactly the agents it was given, and keeps their ids distinct. */
  lemma {:induction false} SortDistinct(s: seq<Agent>, rank: (nat, string) -> int, slotIndex: nat)
    requires DistinctIds(s)
    ensures DistinctIds(SortByTotal(s, rank, slotIndex))
  {
    if s != [] {
      var n := |s| - 1;
      var init := SortByTotal(s[..n], rank, slotIndex);
      assert DistinctIds(s[..n]);
      SortDistinct(s[..n], rank, slotIndex);
      forall k | 0 <= k < |init|
        ensures init[k].id != s[n].id
      {
        var m := SortedFrom(s[..n], rank, slotIndex, k);
        assert s[m] == init[k];
      }
      InsertDistinct(s[n], init, rank, slotIndex);
    }
  }

  // ---------------------------------------------------------------------------
  // Handing out the seats

  /** The nicknames of positions lo to hi - 1, in order. */
  function NickRange(s: seq<Agent>, lo: nat, hi: nat): (r: seq<string>)
    requires lo <= hi <= |s|
    ensures |r| == hi - lo && forall k :: 0 <= k < hi - lo ==> r[k] == s[lo + k].nickname
  {
    if hi == lo then [] else NickRange(s, lo, hi - 1) + [s[hi - 1].nickname]
  }

  function Repeat(q: Queue, n: nat): (r: seq<Queue>)
    ensures |r| == n && forall k :: 0 <= k < n ==> r[k] == q
  {
    if n == 0 then [] else Repeat(q, n - 1) + [q]
  }

  /** The queue of every seat of the first k queues, in the order the seats are handed out. */
  function SeatQueues(row: HeadcountRow, k: nat): (r: seq<Queue>)
    requires k <= |QUEUES|
    ensures |r| == Offset(row, k)
  {
    if k == 0 then [] else SeatQueues(row, k - 1) + Repeat(QUEUES[k - 1], Req(row, QUEUES[k - 1]))
  }

  /** The nicknames seated on the first k queues: queue j takes the ordering's range from Offset(j) to Offset(j + 1). */
  function Assigns(sorted: seq<Agent>, row: HeadcountRow, k: nat): map<Queue, seq<string>>
    requires k <= |QUEUES| && Offset(row, k) <= |sorted|
  {
    if k == 0 then map[]
    else
      OffsetBounds(row, k - 1, k);
      Assigns(sorted, row, k - 1)[QUEUES[k - 1] := NickRange(sorted, Offset(row, k - 1), Offset(row, k))]
  }

  /**
   * The assignment map has a key for exactly the first k queues, and queue
   * QUEUES[p] holds the nicknames of its own range of the ordering.
   */
  lemma {:induction false} AssignsAt(sorted: seq<Agent>, row: HeadcountRow, k: nat, q: Queue)
    requires k <= |QUEUES| && Offset(row, k) <= |sorted|
    ensures q in Assigns(sorted, row, k) <==> Position(q) < k
    ensures Position(q) < k ==>
      Offset(row, Position(q) + 1) <= Offset(row, k) &&
      Assigns(sorted, row, k)[q] == NickRange(sorted, Offset(row, Position(q)), Offset(row, Position(q) + 1))
  {
    if k > 0 {
      OffsetBounds(row, k - 1, k);
      AssignsAt(sorted, row, k - 1, q);
      QueuesComplete();
      assert QUEUES[k - 1] == q <==> Position(q) == k - 1;
      if Position(q) < k - 1 {
        OffsetBounds(row, Position(q) + 1, k - 1);
      }
    }
  }

  /** Every queue gets a list of exactly as many nicknames as the row asks for on it. */
  lemma SeatsPerQueue(sorted: seq<Agent>, row: HeadcountRow)
    requires TotalReq(row) <= |sorted|
    ensures forall q :: q in Assigns(sorted, row, |QUEUES|) && |Assigns(sorted, row, |QUEUES|)[q]| == Req(row, q)
  {
    forall q
      ensures q in Assigns(sorted, row, |QUEUES|) && |Assigns(sorted, row, |QUEUES|)[q]| == Req(row, q)
    {
      AssignsAt(sorted, row, |QUEUES|, q);
    }
  }

  /**
   * Walks QUEUES in order with one shared position into the ordering: queue q
   * takes the next Req(row, q) agents, and each seat bumps that agent's counters.
   */
  method FillSeats(counters: seq<Agent>, sorted: seq<Agent>, row: HeadcountRow)
      returns (assigns: map<Queue, seq<string>>, updated: seq<Agent>)
    requires TotalReq(row) <= |sorted|
    ensures assigns == Assigns(sorted, row, |QUEUES|)
    ensures updated == ApplySeats(counters, sorted, SeatQueues(row, |QUEUES|), TotalReq(row))
  {
    ghost var allQueues := SeatQueues(row, |QUEUES|);
    var idx := 0;
    assigns := map[];
    updated := counters;
    var k := 0;
    while k < |QUEUES|
      invariant k <= |QUEUES|
      invariant idx == Offset(row, k) <= TotalReq(row)
      invariant assigns == Assigns(sorted, row, k)
      invariant updated == ApplySeats(counters, sorted, allQueues, idx)
    {
      var q := QUEUES[k];
      OffsetBounds(row, k + 1, |QUEUES|);
      SeatQueuesAt(row, k);
      var names;
      names, updated, idx := FillQueue(counters, sorted, allQueues, updated, q, Req(row, q), idx);
      assigns := assigns[q := names];
      k := k + 1;
    }
  }

  /** Seat t of the slot, for t in queue k's range, is on queue k. */
  lemma SeatQueuesAt(row: HeadcountRow, k: nat)
    requires k < |QUEUES|
    ensures Offset(row, k + 1) <= TotalReq(row)
    ensures forall t :: Offset(row, k) <= t < Offset(row, k + 1) ==> SeatQueues(row, |QUEUES|)[t] == QUEUES[k]
  {
    SeatQueuesPrefix(row, k + 1, |QUEUES|);
  }

  /** The seats of the first k queues come first among the seats of the first k2. */
  lemma {:induction false} SeatQueuesPrefix(row: HeadcountRow, k: nat, k2: nat)
    requires k <= k2 <= |QUEUES|
    ensures Offset(row, k) <= Offset(row, k2)
    ensures forall t :: 0 <= t < Offset(row, k) ==> SeatQueues(row, k2)[t] == SeatQueues(row, k)[t]
    decreases k2
  {
    if k < k2 {
      SeatQueuesPrefix(row, k, k2 - 1);
      OffsetBounds(row, k, k2 - 1);
    }
  }

  /**
   * The seats of one queue: the next `need` agents of the ordering from
   * position idx, each bumped on queue q, their nicknames in order.
   */
  method FillQueue(ghost counters: seq<Agent>, sorted: seq<Agent>, ghost queues: seq<Queue>, updated: seq<Agent>,
                   q: Queue, need: nat, idx: nat)
      returns (names: seq<string>, updated': seq<Agent>, idx': nat)
    requires idx + need <= |sorted| && idx + need <= |queues|
    requires forall t :: idx <= t < idx + need ==> queues[t] == q
    requires updated == ApplySeats(counters, sorted, queues, idx)
    ensures idx' == idx + need
    ensures names == NickRange(sorted, idx, idx')
    ensures updated' == ApplySeats(counters, sorted, queues, idx')
  {
    names := [];
    updated' := updated;
    idx' := idx;
    while idx' < idx + need
      invariant idx <= idx' <= idx + need
      invariant names == NickRange(sorted, idx, idx')
      invariant updated' == ApplySeats(counters, sorted, queues, idx')
    {
      // idx' stays below idx + need, so the source's `if (!agent) break` never fires.
      var agent := sorted[idx'];
      idx' := idx' + 1;
      names := names + [agent.nickname];
      updated' := SeatAgent(updated', agent, q);
    }
  }

  /** Bumps the counters of the first record with the agent's id, if there is one. */
  method SeatAgent(counters: seq<Agent>, agent: Agent, q: Queue) returns (updated: seq<Agent>)
    ensures updated == Seat(counters, agent, q)
  {
    updated := counters;
    var j := FindById(counters, agent.id);
    if j < |counters| {
      updated := counters[j := Bump(counters[j], q)];
    }
  }
}
