/** The round-robin selection pass of `claim_technical_qc_tasks`. */
module QcScheduler {
  import opened Basics
  import opened Wrappers
  import opened QcTasks

  type Project = nat
  type Item = nat

  /** A candidate row: what the selection pass reads of it. */
  datatype Candidate = Candidate(task: TaskId, project: Project, item: Item)

  function Count(counts: map<Project, nat>, p: Project): nat {
    if p in counts then counts[p] else 0
  }

  function Queue(grouped: map<Project, seq<Candidate>>, p: Project): seq<Candidate> {
    if p in grouped then grouped[p] else []
  }

  function Items(s: seq<Candidate>): set<Item> {
    set c | c in s :: c.item
  }

  /** How many of the selected rows belong to `p`. */
  function Picks(s: seq<Candidate>, p: Project): nat {
    if s == [] then 0 else Picks(s[..|s| - 1], p) + (if s[|s| - 1].project == p then 1 else 0)
  }

  lemma PicksSnoc(s: seq<Candidate>, c: Candidate, p: Project)
    ensures Picks(s + [c], p) == Picks(s, p) + (if c.project == p then 1 else 0)
  {
    assert (s + [c])[..|s|] == s;
  }

  /** What is left of a queue: a suffix, and what was taken off it is active. */
  ghost predicate Drained(before: seq<Candidate>, after: seq<Candidate>, active: set<Item>) {
    && |after| <= |before| && after == before[|before| - |after|..]
    && (forall i :: 0 <= i < |before| - |after| ==> before[i].item in active)
  }

  /** The variables of a pass. */
  datatype Pass = Pass(grouped: map<Project, seq<Candidate>>, counts: map<Project, nat>, active: set<Item>, selected: seq<Candidate>)

  /** Rows of a group belong to its project. */
  ghost predicate WellGrouped(grouped: map<Project, seq<Candidate>>) {
    forall p, i :: p in grouped && 0 <= i < |grouped[p]| ==> grouped[p][i].project == p
  }

  ghost predicate QueuesOk(start: Pass, s: Pass) {
    && s.grouped.Keys == start.grouped.Keys
    && forall p :: p in start.grouped ==> Drained(start.grouped[p], s.grouped[p], s.active)
  }

  /** The selected rows are candidates of distinct items that were free. */
  ghost predicate ItemsOk(start: Pass, s: Pass) {
    && s.active == start.active + Items(s.selected)
    && (forall c :: c in s.selected ==> c.item !in start.active && c in Queue(start.grouped, c.project))
    && (forall i, j :: 0 <= i < j < |s.selected| ==> s.selected[i].item != s.selected[j].item)
  }

  ghost predicate CountsOk(start: Pass, s: Pass, cap: nat) {
    && (forall p :: Count(s.counts, p) == Count(start.counts, p) + Picks(s.selected, p))
    && (forall p :: Picks(s.selected, p) > 0 ==> Count(s.counts, p) <= cap)
  }

  /** Row `c` is in its project's queue, at position `a`. */
  ghost predicate QueuedAt(start: Pass, c: Candidate, a: int) {
    0 <= a < |Queue(start.grouped, c.project)| && Queue(start.grouped, c.project)[a] == c
  }

  /** How many rows have been taken off a project's queue. */
  function TakenOff(start: Pass, s: Pass, p: Project): int {
    |Queue(start.grouped, p)| - |Queue(s.grouped, p)|
  }

  /** The rows selected from one project are in the order of its queue, and come before
      everything still queued. */
  ghost predicate OrderOk(start: Pass, s: Pass) {
    && (forall i :: 0 <= i < |s.selected| ==> AlreadyTaken(start, s, s.selected[i]))
    && (forall i, j :: 0 <= i < j < |s.selected| && s.selected[i].project == s.selected[j].project ==>
          PickedBefore(start, s.selected[i], s.selected[j]))
  }

  ghost predicate AlreadyTaken(start: Pass, s: Pass, c: Candidate) {
    exists a :: QueuedAt(start, c, a) && a < TakenOff(start, s, c.project)
  }

  lemma StaysTaken(start: Pass, s: Pass, s': Pass, c: Candidate)
    requires AlreadyTaken(start, s, c) && TakenOff(start, s, c.project) <= TakenOff(start, s', c.project)
    ensures AlreadyTaken(start, s', c)
  {
    hide QueuedAt, TakenOff;
    var a :| QueuedAt(start, c, a) && a < TakenOff(start, s, c.project);
  }

  ghost predicate PickedBefore(start: Pass, c: Candidate, d: Candidate) {
    exists a, b :: a < b && QueuedAt(start, c, a) && QueuedAt(start, d, b)
  }

  ghost predicate PassOk(start: Pass, s: Pass, cap: nat) {
    QueuesOk(start, s) && ItemsOk(start, s) && CountsOk(start, s, cap) && OrderOk(start, s)
  }

  /** Take the head of `p`'s queue and select it. */
  function Selecting(s: Pass, p: Project): Pass
    requires p in s.grouped && s.grouped[p] != []
  {
    var row := s.grouped[p][0];
    Pass(s.grouped[p := s.grouped[p][1..]], s.counts[p := Count(s.counts, p) + 1], s.active + {row.item}, s.selected + [row])
  }

  lemma DrainHead(before: seq<Candidate>, after: seq<Candidate>, active: set<Item>, active': set<Item>)
    requires Drained(before, after, active) && after != [] && active <= active' && after[0].item in active'
    ensures Drained(before, after[1..], active')
  {
    var k := |before| - |after|;
    assert before[k] == after[0] && after[1..] == before[k + 1..];
  }

  lemma DrainedByMore(before: seq<Candidate>, after: seq<Candidate>, active: set<Item>, active': set<Item>)
    requires Drained(before, after, active) && active <= active'
    ensures Drained(before, after, active')
  {
  }

  /** Taking the head off `p`'s queue, when its item is or becomes active. */
  lemma PoppingKeepsQueues(start: Pass, s: Pass, s': Pass, p: Project)
    requires QueuesOk(start, s) && p in s.grouped && s.grouped[p] != []
    requires s'.grouped == s.grouped[p := s.grouped[p][1..]] && s.active <= s'.active && s.grouped[p][0].item in s'.active
    ensures QueuesOk(start, s')
  {
    hide Drained;
    forall q | q in start.grouped ensures Drained(start.grouped[q], s'.grouped[q], s'.active) {
      assert Drained(start.grouped[q], s.grouped[q], s.active);
      if q == p {
        DrainHead(start.grouped[q], s.grouped[q], s.active, s'.active);
      } else {
        DrainedByMore(start.grouped[q], s.grouped[q], s.active, s'.active);
      }
    }
  }

  lemma SelectingKeepsQueues(start: Pass, s: Pass, p: Project)
    requires QueuesOk(start, s) && p in s.grouped && s.grouped[p] != []
    ensures QueuesOk(start, Selecting(s, p))
  {
    hide QueuesOk;
    PoppingKeepsQueues(start, s, Selecting(s, p), p);
  }

  lemma SelectingKeepsItems(start: Pass, s: Pass, p: Project)
    requires QueuesOk(start, s) && ItemsOk(start, s) && WellGrouped(start.grouped)
    requires p in s.grouped && s.grouped[p] != [] && s.grouped[p][0].item !in s.active
    ensures ItemsOk(start, Selecting(s, p)) && s.grouped[p][0].project == p
  {
    var row := s.grouped[p][0];
    assert Drained(start.grouped[p], s.grouped[p], s.active);
    assert row == start.grouped[p][|start.grouped[p]| - |s.grouped[p]|];
    assert Items(s.selected + [row]) == Items(s.selected) + {row.item};
    forall i | 0 <= i < |s.selected| ensures s.selected[i].item != row.item {
      assert s.selected[i].item in Items(s.selected);
    }
  }

  lemma SelectingKeepsCounts(start: Pass, s: Pass, cap: nat, p: Project)
    requires CountsOk(start, s, cap) && p in s.grouped && s.grouped[p] != [] && s.grouped[p][0].project == p
    requires Count(s.counts, p) < cap
    ensures CountsOk(start, Selecting(s, p), cap)
    ensures forall q :: Picks(Selecting(s, p).selected, q) == Picks(s.selected, q) + (if q == p then 1 else 0)
  {
    hide Picks;
    forall q ensures Picks(s.selected + [s.grouped[p][0]], q) == Picks(s.selected, q) + (if q == p then 1 else 0) {
      PicksSnoc(s.selected, s.grouped[p][0], q);
    }
  }

  /** The head of a queue is the next row of the queue it came from. */
  lemma HeadQueuedAt(start: Pass, s: Pass, p: Project)
    requires QueuesOk(start, s) && WellGrouped(start.grouped) && p in s.grouped && s.grouped[p] != []
    ensures s.grouped[p][0].project == p && QueuedAt(start, s.grouped[p][0], TakenOff(start, s, p))
  {
    assert Drained(start.grouped[p], s.grouped[p], s.active);
  }

  lemma SelectingKeepsOrder(start: Pass, s: Pass, p: Project)
    requires QueuesOk(start, s) && OrderOk(start, s) && WellGrouped(start.grouped) && p in s.grouped && s.grouped[p] != []
    ensures OrderOk(start, Selecting(s, p))
  {
    var s', row := Selecting(s, p), s.grouped[p][0];
    HeadQueuedAt(start, s, p);
    forall q ensures TakenOff(start, s', q) == TakenOff(start, s, q) + (if q == p then 1 else 0) {
    }
    hide QueuesOk, QueuedAt, WellGrouped, TakenOff;
    assert AlreadyTaken(start, s', row);
    forall i | 0 <= i < |s.selected| ensures AlreadyTaken(start, s', s.selected[i]) {
      StaysTaken(start, s, s', s.selected[i]);
    }
    forall i | 0 <= i < |s.selected| && s.selected[i].project == p ensures PickedBefore(start, s.selected[i], row) {
      assert AlreadyTaken(start, s, s.selected[i]);
    }
    hide AlreadyTaken, PickedBefore;
  }

  lemma SkippingKeepsOrder(start: Pass, s: Pass, p: Project)
    requires OrderOk(start, s) && p in s.grouped && s.grouped[p] != []
    ensures OrderOk(start, s.(grouped := s.grouped[p := s.grouped[p][1..]]))
  {
    hide QueuedAt, PickedBefore, AlreadyTaken;
    var s' := s.(grouped := s.grouped[p := s.grouped[p][1..]]);
    forall i | 0 <= i < |s.selected| ensures AlreadyTaken(start, s', s.selected[i]) {
      StaysTaken(start, s, s', s.selected[i]);
    }
  }

  /** Drop the head of `p`'s queue, whose item is taken. */
  lemma SkippingKeeps(start: Pass, s: Pass, p: Project)
    requires QueuesOk(start, s) && p in s.grouped && s.grouped[p] != [] && s.grouped[p][0].item in s.active
    ensures QueuesOk(start, s.(grouped := s.grouped[p := s.grouped[p][1..]]))
  {
    hide QueuesOk;
    PoppingKeepsQueues(start, s, s.(grouped := s.grouped[p := s.grouped[p][1..]]), p);
  }

  /** `p` can take no more: it is at its cap, or all its candidates' items are taken. */
  ghost predicate Blocked(start: Pass, s: Pass, cap: nat, p: Project) {
    Count(s.counts, p) >= cap || Items(Queue(start.grouped, p)) <= s.active
  }

  lemma EmptyQueueBlocks(start: Pass, s: Pass, cap: nat, p: Project)
    requires QueuesOk(start, s) && p in s.grouped && s.grouped[p] == []
    ensures Blocked(start, s, cap, p)
  {
    assert Drained(start.grouped[p], s.grouped[p], s.active);
  }

  /** Round-robin bookkeeping after `k` projects of round `r`: those already visited have
      been served `r + 1` times unless blocked, the others `r` times. */
  ghost predicate RoundOk(start: Pass, s: Pass, cap: nat, order: seq<Project>, r: nat, k: nat) {
    forall i :: 0 <= i < |order| ==>
      var turns := if i < k then r + 1 else r;
      Picks(s.selected, order[i]) <= turns &&
      (!Blocked(start, s, cap, order[i]) ==> Picks(s.selected, order[i]) == turns)
  }

  /** No project got more than one pick beyond a project that could still take another. */
  ghost predicate Fair(start: Pass, s: Pass, cap: nat, order: seq<Project>) {
    forall p, q :: p in order && q in order && !Blocked(start, s, cap, q) ==>
      Picks(s.selected, p) <= Picks(s.selected, q) + 1
  }

  lemma RoundIsFair(start: Pass, s: Pass, cap: nat, order: seq<Project>, r: nat, k: nat)
    requires RoundOk(start, s, cap, order, r, k)
    ensures Fair(start, s, cap, order)
  {
    forall p, q | p in order && q in order && !Blocked(start, s, cap, q)
      ensures Picks(s.selected, p) <= Picks(s.selected, q) + 1
    {
      var i :| 0 <= i < |order| && order[i] == p;
      var j :| 0 <= j < |order| && order[j] == q;
    }
  }

  /** A visit that selects nothing because the project is blocked. */
  lemma VisitBlocked(start: Pass, s: Pass, cap: nat, order: seq<Project>, r: nat, k: nat)
    requires RoundOk(start, s, cap, order, r, k) && k < |order| && Blocked(start, s, cap, order[k])
    ensures RoundOk(start, s, cap, order, r, k + 1)
  {
  }

  /** A visit that selects a row. */
  lemma VisitSelects(start: Pass, s: Pass, s': Pass, cap: nat, order: seq<Project>, r: nat, k: nat)
    requires RoundOk(start, s, cap, order, r, k) && k < |order| && !Blocked(start, s, cap, order[k])
    requires forall i, j :: 0 <= i < j < |order| ==> order[i] != order[j]
    requires forall q :: Picks(s'.selected, q) == Picks(s.selected, q) + (if q == order[k] then 1 else 0)
    requires forall q :: Count(s.counts, q) <= Count(s'.counts, q)
    requires s.active <= s'.active
    ensures RoundOk(start, s', cap, order, r, k + 1)
  {
    forall i | 0 <= i < |order| && !Blocked(start, s', cap, order[i]) ensures !Blocked(start, s, cap, order[i]) {
    }
  }

  lemma HeadUnblocks(start: Pass, s: Pass, cap: nat, p: Project)
    requires QueuesOk(start, s) && p in s.grouped && s.grouped[p] != [] && s.grouped[p][0].item !in s.active
    requires Count(s.counts, p) < cap
    ensures !Blocked(start, s, cap, p)
  {
    assert Drained(start.grouped[p], s.grouped[p], s.active);
    assert s.grouped[p][0] in start.grouped[p];
    assert s.grouped[p][0].item in Items(start.grouped[p]);
  }

  lemma SkippingKeepsAll(start: Pass, s: Pass, cap: nat, order: seq<Project>, r: nat, k: nat, p: Project)
    requires PassOk(start, s, cap) && RoundOk(start, s, cap, order, r, k)
    requires p in s.grouped && s.grouped[p] != [] && s.grouped[p][0].item in s.active
    ensures
      var s' := s.(grouped := s.grouped[p := s.grouped[p][1..]]);
      PassOk(start, s', cap) && RoundOk(start, s', cap, order, r, k)
  {
    SkippingKeeps(start, s, p);
    SkippingKeepsOrder(start, s, p);
    hide OrderOk;
  }

  lemma SelectingKeepsAll(start: Pass, s: Pass, cap: nat, order: seq<Project>, r: nat, k: nat)
    requires PassOk(start, s, cap) && RoundOk(start, s, cap, order, r, k) && WellGrouped(start.grouped) && Distinct(order)
    requires k < |order| && order[k] in s.grouped && s.grouped[order[k]] != []
    requires s.grouped[order[k]][0].item !in s.active && Count(s.counts, order[k]) < cap
    ensures PassOk(start, Selecting(s, order[k]), cap) && RoundOk(start, Selecting(s, order[k]), cap, order, r, k + 1)
  {
    hide QueuesOk, ItemsOk, CountsOk, RoundOk, Blocked, OrderOk;
    var p := order[k];
    HeadUnblocks(start, s, cap, p);
    SelectingKeepsQueues(start, s, p);
    SelectingKeepsItems(start, s, p);
    SelectingKeepsCounts(start, s, cap, p);
    SelectingKeepsOrder(start, s, p);
    VisitSelects(start, s, Selecting(s, p), cap, order, r, k);
  }

  /** The first row of a queue whose item is free, if there is one. */
  function FirstFree(queue: seq<Candidate>, active: set<Item>): Option<Candidate> {
    if queue == [] then None else if queue[0].item !in active then Some(queue[0]) else FirstFree(queue[1..], active)
  }

  /** It is in the queue, its item is free, and every row before it has a taken item; there is
      none only if all items are taken. */
  lemma {:induction false} FirstFreeIsFirst(queue: seq<Candidate>, active: set<Item>)
    ensures FirstFree(queue, active).None? ==> forall c :: c in queue ==> c.item in active
    ensures FirstFree(queue, active).Some? ==>
      exists k :: 0 <= k < |queue| && queue[k] == FirstFree(queue, active).value && queue[k].item !in active &&
        forall i :: 0 <= i < k ==> queue[i].item in active
  {
    if queue != [] && queue[0].item in active {
      FirstFreeIsFirst(queue[1..], active);
      if FirstFree(queue, active).Some? {
        var k :| 0 <= k < |queue| - 1 && queue[1..][k] == FirstFree(queue, active).value && queue[1..][k].item !in active &&
          forall i :: 0 <= i < k ==> queue[1..][i].item in active;
        assert queue[k + 1] == queue[1..][k];
        forall i | 0 <= i < k + 1 ensures queue[i].item in active {
          assert i > 0 ==> queue[i] == queue[1..][i - 1];
        }
      }
    }
  }

  /** One visit to a project: skip rows whose item is taken, then select the next. It takes
      the first candidate of a free item, unless the project is at its cap or has none. */
  method Visit(start: Pass, s0: Pass, cap: nat, order: seq<Project>, ghost r: nat, k: nat) returns (s: Pass, took: bool)
    requires PassOk(start, s0, cap) && WellGrouped(start.grouped) && Distinct(order)
    requires k < |order| && order[k] in start.grouped && RoundOk(start, s0, cap, order, r, k)
    ensures PassOk(start, s, cap) && RoundOk(start, s, cap, order, r, k + 1)
    ensures
      var next := FirstFree(Queue(s0.grouped, order[k]), s0.active);
      && (took <==> Count(s0.counts, order[k]) < cap && next.Some?)
      && s.selected == if took then s0.selected + [next.value] else s0.selected
  {
    hide Drained, ItemsOk, CountsOk, RoundOk, OrderOk;
    var p := order[k];
    s, took := s0, false;
    if Count(s.counts, p) >= cap {
      VisitBlocked(start, s, cap, order, r, k);
      return;
    }
    while s.grouped[p] != [] && s.grouped[p][0].item in s.active
      invariant s == s0.(grouped := s.grouped) && p in s.grouped
      invariant PassOk(start, s, cap) && RoundOk(start, s, cap, order, r, k)
      invariant FirstFree(s.grouped[p], s.active) == FirstFree(Queue(s0.grouped, p), s0.active)
      decreases |s.grouped[p]|
    {
      SkippingKeepsAll(start, s, cap, order, r, k, p);
      s := s.(grouped := s.grouped[p := s.grouped[p][1..]]);
    }
    if s.grouped[p] == [] {
      EmptyQueueBlocks(start, s, cap, p);
      VisitBlocked(start, s, cap, order, r, k);
    } else {
      SelectingKeepsAll(start, s, cap, order, r, k);
      s, took := Selecting(s, p), true;
    }
  }

  lemma NothingSelected(start: Pass, cap: nat, order: seq<Project>)
    requires start.selected == []
    ensures PassOk(start, start, cap) && RoundOk(start, start, cap, order, 0, 0)
  {
  }

  /** One selection pass: round after round over the projects until `room` rows are
      selected or no project can take another. It selects candidates of distinct free
      items, takes no project past its cap, leaves room unused only when every project
      is blocked, and is fair. */
  method SelectRoundRobin(start: Pass, order: seq<Project>, cap: nat, room: nat) returns (s: Pass)
    requires start.selected == [] && WellGrouped(start.grouped) && Distinct(order)
    requires forall p :: p in order ==> p in start.grouped
    ensures PassOk(start, s, cap) && |s.selected| <= room
    ensures |s.selected| == room || forall p :: p in order ==> Blocked(start, s, cap, p)
    ensures Fair(start, s, cap, order)
  {
    hide QueuesOk, ItemsOk, CountsOk, OrderOk, FirstFree;
    s := start;
    ghost var r := 0;
    NothingSelected(start, cap, order);
    RoundIsFair(start, s, cap, order, r, 0);
    while |s.selected| < room
      invariant PassOk(start, s, cap) && |s.selected| <= room
      invariant RoundOk(start, s, cap, order, r, 0)
      decreases room - |s.selected|
    {
      var before := s.selected;
      var k := 0;
      while k < |order| && |s.selected| < room
        invariant 0 <= k <= |order| && PassOk(start, s, cap) && |s.selected| <= room
        invariant RoundOk(start, s, cap, order, r, k)
        invariant |before| <= |s.selected| && (|before| == |s.selected| ==> s.selected == before)
        invariant forall i :: 0 <= i < |order| ==> Picks(before, order[i]) <= r
      {
        var took: bool;
        s, took := Visit(start, s, cap, order, r, k);
        k := k + 1;
      }
      RoundIsFair(start, s, cap, order, r, k);
      if |s.selected| == |before| {
        assert forall i :: 0 <= i < |order| ==> Blocked(start, s, cap, order[i]);
        return;
      }
      if k < |order| {
        return;
      }
      r := r + 1;
    }
    RoundIsFair(start, s, cap, order, r, 0);
  }
}
