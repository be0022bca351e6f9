/**
 * The server's in-memory store: users and agents kept in insertion-ordered
 * tables keyed by id, and one application-state record that partial updates
 * merge into field by field.
 */
module Storage {
  import opened Wrappers
  import opened Types
  import opened Filters

  // ---------------------------------------------------------------------------
  // Records

  datatype User = User(id: string, username: string, password: string)

  datatype InsertUser = InsertUser(username: string, password: string)

  /** An agent row as the store keeps it. The store itself never sets `productivity`. */
  datatype StoredAgent = StoredAgent(
    id: string,
    name: string,
    nickname: string,
    restDays: string,
    status: string,
    assignments: map<Queue, nat>,
    total: int,
    avatar: Option<string>,
    sortOrder: int,
    productivity: Option<int>)

  /** The fields a new agent is created from; every field but the names may be missing. */
  datatype InsertAgent = InsertAgent(
    name: string,
    nickname: string,
    restDays: Option<string>,
    status: Option<string>,
    assignments: Option<map<Queue, nat>>,
    total: Option<int>,
    avatar: Option<string>,
    sortOrder: Option<int>,
    productivity: Option<int>)

  /** A partial agent record: the fields present overwrite the stored ones. */
  datatype AgentPatch = AgentPatch(
    name: Option<string>,
    nickname: Option<string>,
    restDays: Option<string>,
    status: Option<string>,
    assignments: Option<map<Queue, nat>>,
    total: Option<int>,
    avatar: Option<Option<string>>,
    sortOrder: Option<int>,
    productivity: Option<int>)

  /** One entry of a reorder request. */
  datatype OrderUpdate = OrderUpdate(id: string, sortOrder: int)

  datatype QueueTimeSlot = QueueTimeSlot(startTime: string, endTime: string)

  /** The single application-state record. */
  datatype AppState = AppState(
    id: string,
    headcountData: HeadcountData,
    timeSlots: seq<string>,
    lockedSlots: seq<string>,
    segmentationResults: seq<SegmentationResult>,
    queueTimeSlots: map<string, map<string, QueueTimeSlot>>,
    productivityImage: string,
    productivityQuota: int,
    hasGenerated: string)

  /** A partial application state: a missing (or null) field keeps the previous value. */
  datatype StatePatch = StatePatch(
    headcountData: Option<HeadcountData>,
    timeSlots: Option<seq<string>>,
    lockedSlots: Option<seq<string>>,
    segmentationResults: Option<seq<SegmentationResult>>,
    queueTimeSlots: Option<map<string, map<string, QueueTimeSlot>>>,
    productivityImage: Option<string>,
    productivityQuota: Option<int>,
    hasGenerated: Option<string>)

  // ---------------------------------------------------------------------------
  // Agents

  /** The row createAgent stores: missing or empty fields get their defaults, the sort order is the one given. */
  function NewAgent(input: InsertAgent, id: string, sortOrder: int): (a: StoredAgent)
    ensures a.id == id && a.name == input.name && a.nickname == input.nickname && a.sortOrder == sortOrder
    ensures a.restDays == TextOr(input.restDays, "Sun-Mon") && a.status == TextOr(input.status, "N/A")
    ensures a.assignments == (if input.assignments.Some? then input.assignments.value else map[])
    ensures a.total == (if input.total.Some? then input.total.value else 0)
    ensures a.avatar == (if input.avatar.Some? && input.avatar.value != "" then input.avatar else None)
    ensures a.productivity.None?
  {
    StoredAgent(
      id,
      input.name,
      input.nickname,
      TextOr(input.restDays, "Sun-Mon"),
      TextOr(input.status, "N/A"),
      if input.assignments.Some? then input.assignments.value else map[],
      if input.total.Some? then input.total.value else 0,
      if input.avatar.Some? && input.avatar.value != "" then input.avatar else None,
      sortOrder,
      None)
  }

  /** An input that gives nothing but the names creates an agent with every default. */
  lemma NewAgentDefaults(name: string, nickname: string, id: string, sortOrder: int)
    ensures NewAgent(InsertAgent(name, nickname, None, None, None, None, None, None, None), id, sortOrder)
         == StoredAgent(id, name, nickname, "Sun-Mon", "N/A", map[], 0, None, sortOrder, None)
  {
  }

  /** `{ ...existing, ...patch }`: the fields present in the patch replace the stored ones. */
  function Patched(a: StoredAgent, patch: AgentPatch): (r: StoredAgent)
    ensures r.id == a.id
  {
    StoredAgent(
      a.id,
      if patch.name.Some? then patch.name.value else a.name,
      if patch.nickname.Some? then patch.nickname.value else a.nickname,
      if patch.restDays.Some? then patch.restDays.value else a.restDays,
      if patch.status.Some? then patch.status.value else a.status,
      if patch.assignments.Some? then patch.assignments.value else a.assignments,
      if patch.total.Some? then patch.total.value else a.total,
      if patch.avatar.Some? then patch.avatar.value else a.avatar,
      if patch.sortOrder.Some? then patch.sortOrder.value else a.sortOrder,
      if patch.productivity.Some? then patch.productivity else a.productivity)
  }

  const EMPTY_AGENT_PATCH: AgentPatch := AgentPatch(None, None, None, None, None, None, None, None, None)

  /** A patch with no fields changes nothing, and applying the same patch twice is applying it once. */
  lemma PatchedLaws(a: StoredAgent, patch: AgentPatch)
    ensures Patched(a, EMPTY_AGENT_PATCH) == a
    ensures Patched(Patched(a, patch), patch) == Patched(a, patch)
  {
  }

  /** A patch that names only a sort order changes only the sort order. */
  lemma PatchedSortOrderOnly(a: StoredAgent, order: int)
    ensures Patched(a, EMPTY_AGENT_PATCH.(sortOrder := Some(order))) == a.(sortOrder := order)
  {
  }

  /** The stored rows in the order their ids were first inserted. */
  function ValuesInOrder(order: seq<string>, m: map<string, StoredAgent>): (r: seq<StoredAgent>)
    requires forall i :: 0 <= i < |order| ==> order[i] in m
    ensures |r| == |order| && forall i :: 0 <= i < |order| ==> r[i] == m[order[i]]
  {
    seq(|order|, i requires 0 <= i < |order| => m[order[i]])
  }

  /** No row has a larger sort order than a row after it. */
  predicate SortedByOrder(agents: seq<StoredAgent>) {
    forall i, j :: 0 <= i < j < |agents| ==> agents[i].sortOrder <= agents[j].sortOrder
  }

  /** Places a row after every row of a sorted list whose sort order is not larger. */
  function InsertByOrder(a: StoredAgent, sorted: seq<StoredAgent>): (r: seq<StoredAgent>)
    requires SortedByOrder(sorted)
    ensures SortedByOrder(r) && |r| == |sorted| + 1
    ensures forall k :: 0 <= k < |r| ==>
      a.sortOrder <= r[k].sortOrder || (|sorted| > 0 && sorted[0].sortOrder <= r[k].sortOrder)
    decreases |sorted|
  {
    if sorted == [] then [a]
    else if a.sortOrder < sorted[0].sortOrder then
      ConsSorted(a, sorted);
      [a] + sorted
    else
      var rest := InsertByOrder(a, sorted[1..]);
      ConsSorted(sorted[0], rest);
      [sorted[0]] + rest
  }

  /** A row no larger than every row of a sorted list can go in front of it. */
  lemma ConsSorted(x: StoredAgent, s: seq<StoredAgent>)
    requires SortedByOrder(s) && forall k :: 0 <= k < |s| ==> x.sortOrder <= s[k].sortOrder
    ensures SortedByOrder([x] + s)
  {
  }

  /** Inserting adds exactly the one row. */
  lemma {:induction false} InsertPermutes(a: StoredAgent, sorted: seq<StoredAgent>)
    requires SortedByOrder(sorted)
    ensures multiset(InsertByOrder(a, sorted)) == multiset(sorted) + multiset{a}
    decreases |sorted|
  {
    if sorted != [] && a.sortOrder >= sorted[0].sortOrder {
      InsertPermutes(a, sorted[1..]);
      assert sorted == [sorted[0]] + sorted[1..];
    }
  }

  /** A stable sort by ascending sort order. */
  function SortByOrder(agents: seq<StoredAgent>): (r: seq<StoredAgent>)
    ensures SortedByOrder(r) && |r| == |agents|
  {
    if agents == [] then []
    else InsertByOrder(agents[|agents| - 1], SortByOrder(agents[..|agents| - 1]))
  }

  /** Sorting rearranges the rows and neither adds nor drops one. */
  lemma {:induction false} SortPermutes(agents: seq<StoredAgent>)
    ensures multiset(SortByOrder(agents)) == multiset(agents)
  {
    if agents != [] {
      var init := agents[..|agents| - 1];
      SortPermutes(init);
      InsertPermutes(agents[|agents| - 1], SortByOrder(init));
      assert agents == init + [agents[|agents| - 1]];
    }
  }

  /** Sorting a list that is already in order returns it unchanged. */
  lemma {:induction false} SortSorted(agents: seq<StoredAgent>)
    requires SortedByOrder(agents)
    ensures SortByOrder(agents) == agents
  {
    if agents != [] {
      var n := |agents| - 1;
      var init, last := agents[..n], agents[n];
      assert SortedByOrder(init) by {
        forall i, j | 0 <= i < j < n ensures init[i].sortOrder <= init[j].sortOrder {
          assert init[i] == agents[i] && init[j] == agents[j];
        }
      }
      SortSorted(init);
      forall k | 0 <= k < n ensures init[k].sortOrder <= last.sortOrder {
        assert init[k] == agents[k];
      }
      InsertLast(last, init);
      calc {
        SortByOrder(agents);
        InsertByOrder(last, SortByOrder(init));
        InsertByOrder(last, init);
        init + [last];
        { assert agents == init + [last]; }
        agents;
      }
    }
  }

  /** A row whose sort order is at least every sorted row's lands at the end. */
  lemma {:induction false} InsertLast(a: StoredAgent, sorted: seq<StoredAgent>)
    requires SortedByOrder(sorted)
    requires forall k :: 0 <= k < |sorted| ==> sorted[k].sortOrder <= a.sortOrder
    ensures InsertByOrder(a, sorted) == sorted + [a]
    decreases |sorted|
  {
    if sorted != [] {
      InsertLast(a, sorted[1..]);
      assert sorted == [sorted[0]] + sorted[1..];
    }
  }

  /** The largest sort order of a list, starting from -1, as the reduce in createAgent computes it. */
  function MaxSortOrder(agents: seq<StoredAgent>): (r: int)
    ensures r >= -1
    ensures forall i :: 0 <= i < |agents| ==> agents[i].sortOrder <= r
    ensures r == -1 || exists i :: 0 <= i < |agents| && agents[i].sortOrder == r
  {
    if agents == [] then -1
    else
      var init := agents[..|agents| - 1];
      var m := MaxSortOrder(init);
      var last := agents[|agents| - 1].sortOrder;
      assert forall i :: 0 <= i < |init| ==> init[i] == agents[i];
      if last > m then last else m
  }

  /** The reduce in createAgent: a running maximum of the sort orders, starting from -1. */
  method LargestSortOrder(agents: seq<StoredAgent>) returns (m: int)
    ensures m == MaxSortOrder(agents)
  {
    m := -1;
    var i := 0;
    while i < |agents|
      invariant 0 <= i <= |agents|
      invariant m == MaxSortOrder(agents[..i])
    {
      assert agents[..i + 1][..i] == agents[..i];
      if agents[i].sortOrder > m {
        m := agents[i].sortOrder;
      }
      i := i + 1;
    }
    assert agents[..i] == agents;
  }

  /** The agent table after one reorder entry: a known id takes the new sort order, an unknown one is ignored. */
  function ApplyOrder(m: map<string, StoredAgent>, u: OrderUpdate): (r: map<string, StoredAgent>)
    ensures r.Keys == m.Keys
  {
    if u.id in m then m[u.id := m[u.id].(sortOrder := u.sortOrder)] else m
  }

  /** The agent table after a whole reorder request, applied front to back. */
  function ApplyOrders(m: map<string, StoredAgent>, updates: seq<OrderUpdate>): (r: map<string, StoredAgent>)
    ensures r.Keys == m.Keys
  {
    if updates == [] then m
    else ApplyOrder(ApplyOrders(m, updates[..|updates| - 1]), updates[|updates| - 1])
  }

  /** The sort order the last entry for an id asks for, or the given one when no entry names it. */
  function LastOrderFor(updates: seq<OrderUpdate>, id: string, current: int): int {
    if updates == [] then current
    else if updates[|updates| - 1].id == id then updates[|updates| - 1].sortOrder
    else LastOrderFor(updates[..|updates| - 1], id, current)
  }

  /**
   * A reorder request changes nothing but sort orders, only of stored ids,
   * and for an id named several times the last entry wins.
   */
  lemma {:induction false} ApplyOrdersEffect(m: map<string, StoredAgent>, updates: seq<OrderUpdate>)
    ensures ApplyOrders(m, updates).Keys == m.Keys
    ensures forall k :: k in m ==>
      ApplyOrders(m, updates)[k] == m[k].(sortOrder := LastOrderFor(updates, k, m[k].sortOrder))
  {
    if updates != [] {
      ApplyOrdersEffect(m, updates[..|updates| - 1]);
    }
  }

  // ---------------------------------------------------------------------------
  // Application state

  const DEFAULT_STATE_ID: string := "default"

  /** `given ?? previous ?? fallback`. */
  function Coalesce<T>(given: Option<T>, previous: Option<T>, fallback: T): (r: T)
    ensures given.Some? ==> r == given.value
    ensures given.None? && previous.Some? ==> r == previous.value
    ensures given.None? && previous.None? ==> r == fallback
  {
    if given.Some? then given.value else if previous.Some? then previous.value else fallback
  }

  /** updateAppState: each field is the one given, else the previous one, else its default; the id is always "default". */
  function MergeState(prior: Option<AppState>, patch: StatePatch): (r: AppState)
    ensures r.id == DEFAULT_STATE_ID
  {
    AppState(
      DEFAULT_STATE_ID,
      Coalesce(patch.headcountData, if prior.Some? then Some(prior.value.headcountData) else None, map[]),
      Coalesce(patch.timeSlots, if prior.Some? then Some(prior.value.timeSlots) else None, []),
      Coalesce(patch.lockedSlots, if prior.Some? then Some(prior.value.lockedSlots) else None, []),
      Coalesce(patch.segmentationResults, if prior.Some? then Some(prior.value.segmentationResults) else None, []),
      Coalesce(patch.queueTimeSlots, if prior.Some? then Some(prior.value.queueTimeSlots) else None, map[]),
      Coalesce(patch.productivityImage, if prior.Some? then Some(prior.value.productivityImage) else None, ""),
      Coalesce(patch.productivityQuota, if prior.Some? then Some(prior.value.productivityQuota) else None, 100),
      Coalesce(patch.hasGenerated, if prior.Some? then Some(prior.value.hasGenerated) else None, "false"))
  }

  /** The state every field of which has its default. */
  const DEFAULT_STATE: AppState := AppState(DEFAULT_STATE_ID, map[], [], [], [], map[], "", 100, "false")

  /** The patch resetAppState sends: every field set to its default. */
  const RESET_PATCH: StatePatch :=
    StatePatch(Some(map[]), Some([]), Some([]), Some([]), Some(map[]), Some(""), Some(100), Some("false"))

  const EMPTY_STATE_PATCH: StatePatch := StatePatch(None, None, None, None, None, None, None, None)

  /** `a ?? b` field by field: the fields of the later patch win over the earlier one's. */
  function Combine(later: StatePatch, earlier: StatePatch): StatePatch {
    StatePatch(
      if later.headcountData.Some? then later.headcountData else earlier.headcountData,
      if later.timeSlots.Some? then later.timeSlots else earlier.timeSlots,
      if later.lockedSlots.Some? then later.lockedSlots else earlier.lockedSlots,
      if later.segmentationResults.Some? then later.segmentationResults else earlier.segmentationResults,
      if later.queueTimeSlots.Some? then later.queueTimeSlots else earlier.queueTimeSlots,
      if later.productivityImage.Some? then later.productivityImage else earlier.productivityImage,
      if later.productivityQuota.Some? then later.productivityQuota else earlier.productivityQuota,
      if later.hasGenerated.Some? then later.hasGenerated else earlier.hasGenerated)
  }

  /** Resetting yields exactly the default state, whatever came before. */
  lemma ResetIgnoresPrior(prior: Option<AppState>)
    ensures MergeState(prior, RESET_PATCH) == DEFAULT_STATE
  {
  }

  /** With no previous state, an empty update also yields the default state. */
  lemma FirstEmptyUpdate()
    ensures MergeState(None, EMPTY_STATE_PATCH) == DEFAULT_STATE
  {
  }

  /** An empty update keeps every field of the previous state and only sets the id. */
  lemma EmptyUpdateKeeps(s: AppState)
    ensures MergeState(Some(s), EMPTY_STATE_PATCH) == s.(id := DEFAULT_STATE_ID)
  {
  }

  /** Two updates in a row act as one update whose fields are the later ones where given, else the earlier ones. */
  lemma MergeTwice(prior: Option<AppState>, earlier: StatePatch, later: StatePatch)
    ensures MergeState(Some(MergeState(prior, earlier)), later) == MergeState(prior, Combine(later, earlier))
  {
  }

  /** Repeating an update changes nothing more. */
  lemma MergeIdempotent(prior: Option<AppState>, patch: StatePatch)
    ensures MergeState(Some(MergeState(prior, patch)), patch) == MergeState(prior, patch)
  {
    MergeTwice(prior, patch, patch);
    assert Combine(patch, patch) == patch;
  }

  // ---------------------------------------------------------------------------
  // The store

  /** An insertion order lists each user id once, exactly the table's keys, and each row sits under its own id. */
  ghost predicate UsersFiled(order: seq<string>, m: map<string, User>) {
    Distinct(order) && (forall k :: k in m <==> k in order) && (forall k :: k in m ==> m[k].id == k)
  }

  /** The same for the agent table. */
  ghost predicate AgentsFiled(order: seq<string>, m: map<string, StoredAgent>) {
    Distinct(order) && (forall k :: k in m <==> k in order) && (forall k :: k in m ==> m[k].id == k)
  }

  /** Filing a row under a fresh id at the end of the order keeps the agent table well filed. */
  lemma AgentAppended(order: seq<string>, m: map<string, StoredAgent>, a: StoredAgent)
    requires AgentsFiled(order, m) && a.id !in m
    ensures AgentsFiled(order + [a.id], m[a.id := a])
  {
  }

  class MemStorage {
    var users: map<string, User>
    /** The user ids in insertion order, which is the order the user table is scanned in. */
    var userOrder: seq<string>
    var agentMap: map<string, StoredAgent>
    /** The agent ids in insertion order. */
    var agentOrder: seq<string>
    var state: Option<AppState>

    /** Each table holds its ids once each in its order, and every row is filed under its own id. */
    ghost predicate Valid()
      reads this
    {
      UsersFiled(userOrder, users) && AgentsFiled(agentOrder, agentMap)
    }

    constructor ()
      ensures Valid()
      ensures users == map[] && userOrder == [] && agentMap == map[] && agentOrder == [] && state.None?
    {
      users := map[];
      userOrder := [];
      agentMap := map[];
      agentOrder := [];
      state := None;
    }

    // ---- users

    method GetUser(id: string) returns (r: Option<User>)
      ensures r.Some? <==> id in users
      ensures r.Some? ==> r.value == users[id]
    {
      r := if id in users then Some(users[id]) else None;
    }

    /** The first user, in insertion order, with the given user name. */
    method GetUserByUsername(username: string) returns (r: Option<User>)
      requires Valid()
      ensures r.None? <==> forall k :: k in users ==> users[k].username != username
      ensures r.Some? ==> r.value in users.Values && r.value.username == username
      ensures r.Some? ==> exists i :: 0 <= i < |userOrder| && users[userOrder[i]] == r.value &&
                                      forall j :: 0 <= j < i ==> users[userOrder[j]].username != username
    {
      var i := 0;
      while i < |userOrder|
        invariant 0 <= i <= |userOrder|
        invariant forall j :: 0 <= j < i ==> users[userOrder[j]].username != username
      {
        var user := users[userOrder[i]];
        if user.username == username {
          return Some(user);
        }
        i := i + 1;
      }
      forall k | k in users
        ensures users[k].username != username
      {
        var j :| 0 <= j < |userOrder| && userOrder[j] == k;
      }
      r := None;
    }

    /** Files a new user under a fresh id. */
    method CreateUser(input: InsertUser, id: string) returns (user: User)
      requires Valid() && id !in users
      modifies this
      ensures Valid()
      ensures user == User(id, input.username, input.password)
      ensures users == old(users)[id := user] && userOrder == old(userOrder) + [id]
      ensures agentMap == old(agentMap) && agentOrder == old(agentOrder) && state == old(state)
    {
      user := User(id, input.username, input.password);
      users := users[id := user];
      userOrder := userOrder + [id];
    }

    // ---- agents

    /** Every stored agent once, by ascending sort order. */
    method GetAllAgents() returns (r: seq<StoredAgent>)
      requires Valid()
      ensures SortedByOrder(r)
      ensures multiset(r) == multiset(ValuesInOrder(agentOrder, agentMap))
      ensures |r| == |agentMap|
      ensures forall a :: a in r <==> a in agentMap.Values
    {
      DistinctKeys(agentOrder, agentMap);
      var values := ValuesInOrder(agentOrder, agentMap);
      r := SortByOrder(values);
      SortPermutes(values);
      forall a
        ensures a in r <==> a in agentMap.Values
      {
        assert a in r <==> a in multiset(values);
        if a in agentMap.Values {
          var k :| k in agentMap && agentMap[k] == a;
          var i :| 0 <= i < |agentOrder| && agentOrder[i] == k;
          assert values[i] == a;
        }
      }
    }

    method GetAgent(id: string) returns (r: Option<StoredAgent>)
      ensures r.Some? <==> id in agentMap
      ensures r.Some? ==> r.value == agentMap[id]
    {
      r := if id in agentMap then Some(agentMap[id]) else None;
    }

    /**
     * Files a new agent under a fresh id, with the defaults filled in and a
     * sort order one above the largest stored one (0 for an empty table).
     */
    method CreateAgent(input: InsertAgent, id: string) returns (a: StoredAgent)
      requires Valid() && id !in agentMap
      modifies this
      ensures Valid()
      ensures a == NewAgent(input, id, a.sortOrder)
      ensures a.sortOrder >= 0
      ensures forall k :: k in old(agentMap) ==> old(agentMap)[k].sortOrder < a.sortOrder
      ensures a.sortOrder == 0 || exists k :: k in old(agentMap) && old(agentMap)[k].sortOrder == a.sortOrder - 1
      ensures agentMap == old(agentMap)[id := a] && agentOrder == old(agentOrder) + [id]
      ensures users == old(users) && userOrder == old(userOrder) && state == old(state)
    {
      var existing := GetAllAgents();
      var maxOrder := LargestSortOrder(existing);
      forall k | k in agentMap
        ensures agentMap[k].sortOrder <= maxOrder
      {
        assert agentMap[k] in existing;
      }
      if maxOrder != -1 {
        var j :| 0 <= j < |existing| && existing[j].sortOrder == maxOrder;
        assert existing[j] in agentMap.Values;
      }
      a := NewAgent(input, id, maxOrder + 1);
      AgentAppended(agentOrder, agentMap, a);
      agentMap := agentMap[id := a];
      agentOrder := agentOrder + [id];
    }

    /** Overlays the given fields on a stored agent; an unknown id changes nothing. */
    method UpdateAgent(id: string, patch: AgentPatch) returns (r: Option<StoredAgent>)
      requires Valid()
      modifies this
      ensures Valid()
      ensures id !in old(agentMap) ==> r.None? && agentMap == old(agentMap)
      ensures id in old(agentMap) ==> r == Some(Patched(old(agentMap)[id], patch)) && agentMap == old(agentMap)[id := r.value]
      ensures agentOrder == old(agentOrder)
      ensures users == old(users) && userOrder == old(userOrder) && state == old(state)
    {
      if id !in agentMap {
        return None;
      }
      var updated := Patched(agentMap[id], patch);
      agentMap := agentMap[id := updated];
      r := Some(updated);
    }

    /** Removes the agent with the given id, if there is one. */
    method DeleteAgent(id: string)
      requires Valid()
      modifies this
      ensures Valid()
      ensures agentMap == old(agentMap) - {id} && agentOrder == Without(old(agentOrder), Itself, id)
      ensures users == old(users) && userOrder == old(userOrder) && state == old(state)
    {
      WithoutDistinct(agentOrder, Itself, id);
      WithoutMembers(agentOrder, Itself, id);
      agentMap := agentMap - {id};
      agentOrder := Without(agentOrder, Itself, id);
    }

    /** Applies a reorder request entry by entry. */
    method UpdateAgentOrder(updates: seq<OrderUpdate>)
      requires Valid()
      modifies this
      ensures Valid()
      ensures agentMap == ApplyOrders(old(agentMap), updates) && agentOrder == old(agentOrder)
      ensures users == old(users) && userOrder == old(userOrder) && state == old(state)
    {
      var i := 0;
      while i < |updates|
        invariant 0 <= i <= |updates|
        invariant agentMap == ApplyOrders(old(agentMap), updates[..i])
        invariant Valid()
        invariant agentOrder == old(agentOrder) && users == old(users) && userOrder == old(userOrder) && state == old(state)
      {
        var u := updates[i];
        assert updates[..i + 1][..i] == updates[..i];
        assert ApplyOrders(old(agentMap), updates[..i + 1]) == ApplyOrder(agentMap, u);
        if u.id in agentMap {
          agentMap := agentMap[u.id := agentMap[u.id].(sortOrder := u.sortOrder)];
        }
        i := i + 1;
      }
      assert updates[..i] == updates;
    }

    // ---- application state

    method GetAppState() returns (r: Option<AppState>)
      ensures r == state
    {
      r := state;
    }

    /** Merges a partial state into the stored one and returns the result. */
    method UpdateAppState(patch: StatePatch) returns (r: AppState)
      modifies this
      ensures r == MergeState(old(state), patch) && state == Some(r)
      ensures users == old(users) && userOrder == old(userOrder)
      ensures agentMap == old(agentMap) && agentOrder == old(agentOrder)
    {
      r := MergeState(state, patch);
      state := Some(r);
    }

    /** Puts every field of the state back to its default. */
    method ResetAppState() returns (r: AppState)
      modifies this
      ensures r == DEFAULT_STATE && state == Some(r)
      ensures users == old(users) && userOrder == old(userOrder)
      ensures agentMap == old(agentMap) && agentOrder == old(agentOrder)
    {
      r := UpdateAppState(RESET_PATCH);
      ResetIgnoresPrior(old(state));
    }
  }

  /** Distinct ids that are exactly the keys of a table list every row once. */
  lemma DistinctKeys(order: seq<string>, m: map<string, StoredAgent>)
    requires Distinct(order) && forall k :: k in m <==> k in order
    ensures |order| == |m|
  {
    var keys := set i | 0 <= i < |order| :: order[i];
    assert keys == m.Keys;
    DistinctCard(order);
  }

  lemma {:induction false} DistinctCard(order: seq<string>)
    requires Distinct(order)
    ensures |set i | 0 <= i < |order| :: order[i]| == |order|
  {
    if order != [] {
      var init := order[..|order| - 1];
      DistinctCard(init);
      var s := set i | 0 <= i < |order| :: order[i];
      var t := set i | 0 <= i < |init| :: init[i];
      assert s == t + {order[|order| - 1]};
      assert order[|order| - 1] !in t;
    }
  }
}
