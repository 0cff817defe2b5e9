/** One call of `claim_technical_qc_tasks`: sweep expired leases, then read the candidate
    window, select round-robin and claim, until the limit is reached or nothing is left. */
module QcClaims {
  import opened Basics
  import opened Wrappers
  import opened Lexicographic
  import opened QcTasks
  import opened QcScheduler
  import opened QcWindow
  import opened QcCandidates

  // ----- grouping them

  function CandidateOf(rows: Rows, t: TaskId): Candidate
    requires t in rows
  {
    Candidate(t, rows[t].project, rows[t].item)
  }

  /** Within each queue, rows are in episode order. */
  ghost predicate QueuesInOrder(rows: Rows, grouped: map<nat, seq<Candidate>>) {
    forall p, a, b :: p in grouped && 0 <= a < b < |grouped[p]| ==> PickLe(rows, grouped[p][a], grouped[p][b])
  }

  ghost predicate PickLe(rows: Rows, c: Candidate, d: Candidate) {
    c.task in rows && d.task in rows && EpisodeLe(rows, c.task, d.task)
  }

  /** Within each project, tasks are in episode order. */
  ghost predicate TasksInOrder(rows: Rows, tasks: seq<TaskId>)
    requires forall t :: t in tasks ==> t in rows
  {
    forall i, j :: 0 <= i < j < |tasks| && rows[tasks[i]].project == rows[tasks[j]].project ==> EpisodeLe(rows, tasks[i], tasks[j])
  }

  /** A row that follows all of its project's queue may be appended to it. */
  lemma AppendInOrder(rows: Rows, tasks: seq<TaskId>, i: nat, grouped: map<nat, seq<Candidate>>)
    requires (forall t :: t in tasks ==> t in rows) && TasksInOrder(rows, tasks) && i < |tasks|
    requires WellGrouped(grouped) && QueuesInOrder(rows, grouped)
    requires forall p, c :: p in grouped && c in grouped[p] ==> c.task in tasks[..i] && c == CandidateOf(rows, c.task)
    ensures
      var c := CandidateOf(rows, tasks[i]);
      QueuesInOrder(rows, grouped[c.project := Queue(grouped, c.project) + [c]])
  {
    hide EpisodeLe;
    var c := CandidateOf(rows, tasks[i]);
    var queue := Queue(grouped, c.project);
    forall a | 0 <= a < |queue| ensures PickLe(rows, queue[a], c) {
      assert queue[a] in queue;
      var k :| 0 <= k < i && tasks[k] == queue[a].task;
    }
    hide PickLe;
  }

  /** Group the candidates whose item is free by project, keeping their order. */
  method GroupFree(rows: Rows, tasks: seq<TaskId>, active: set<nat>) returns (grouped: map<nat, seq<Candidate>>)
    requires (forall t :: t in tasks ==> t in rows) && TasksInOrder(rows, tasks)
    ensures WellGrouped(grouped) && QueuesInOrder(rows, grouped)
    ensures forall p, c :: p in grouped && c in grouped[p] ==>
      c.task in tasks && c == CandidateOf(rows, c.task) && c.item !in active
    ensures forall t :: t in tasks && rows[t].item !in active ==> CandidateOf(rows, t) in Queue(grouped, rows[t].project)
    ensures forall p :: p in grouped ==> grouped[p] != []
  {
    hide TasksInOrder, QueuesInOrder;
    grouped := map[];
    NoQueues(rows);
    for i := 0 to |tasks|
      invariant WellGrouped(grouped) && QueuesInOrder(rows, grouped)
      invariant forall p, c :: p in grouped && c in grouped[p] ==>
        c.task in tasks[..i] && c == CandidateOf(rows, c.task) && c.item !in active
      invariant forall k :: 0 <= k < i && rows[tasks[k]].item !in active ==>
        CandidateOf(rows, tasks[k]) in Queue(grouped, rows[tasks[k]].project)
      invariant forall p :: p in grouped ==> grouped[p] != []
    {
      var c := CandidateOf(rows, tasks[i]);
      assert tasks[..i + 1] == tasks[..i] + [tasks[i]];
      if c.item !in active {
        AppendInOrder(rows, tasks, i, grouped);
        grouped := grouped[c.project := Queue(grouped, c.project) + [c]];
      }
    }
  }

  lemma NoQueues(rows: Rows)
    ensures QueuesInOrder(rows, map[])
  {
  }

  function OrderKey(rows: Rows, grouped: map<nat, seq<Candidate>>, counts: map<nat, nat>, p: nat): seq<nat>
  {
    var queue := Queue(grouped, p);
    [Count(counts, p), if queue != [] && queue[0].task in rows then rows[queue[0].task].createdAt else 0, p]
  }

  ghost predicate Ordered(rows: Rows, grouped: map<nat, seq<Candidate>>, counts: map<nat, nat>, order: seq<nat>) {
    forall i, j :: 0 <= i < j < |order| ==>
      LexLe(OrderKey(rows, grouped, counts, order[i]), OrderKey(rows, grouped, counts, order[j]))
  }

  /** `project_order`: fewest running first, then age, then id. */
  method OrderProjects(rows: Rows, grouped: map<nat, seq<Candidate>>, counts: map<nat, nat>) returns (order: seq<nat>)
    ensures Distinct(order) && forall p :: p in order <==> p in grouped
    ensures Ordered(rows, grouped, counts, order)
  {
    order := [];
    var rest := grouped.Keys;
    while rest != {}
      invariant rest <= grouped.Keys && Distinct(order) && Ordered(rows, grouped, counts, order)
      invariant forall p :: p in order <==> p in grouped.Keys - rest
      decreases rest
    {
      var p :| p in rest;
      order := PlaceProject(rows, grouped, counts, order, p);
      rest := rest - {p};
    }
  }

  method PlaceProject(rows: Rows, grouped: map<nat, seq<Candidate>>, counts: map<nat, nat>, order: seq<nat>, p: nat)
    returns (placed: seq<nat>)
    requires p !in order && Distinct(order) && Ordered(rows, grouped, counts, order)
    ensures Distinct(placed) && (forall q :: q in placed <==> q == p || q in order) && Ordered(rows, grouped, counts, placed)
  {
    hide LexLe, OrderKey;
    var k := 0;
    while k < |order| && LexLe(OrderKey(rows, grouped, counts, order[k]), OrderKey(rows, grouped, counts, p))
      invariant 0 <= k <= |order|
      invariant forall i :: 0 <= i < k ==> LexLe(OrderKey(rows, grouped, counts, order[i]), OrderKey(rows, grouped, counts, p))
    {
      k := k + 1;
    }
    forall j | k <= j < |order| ensures LexLe(OrderKey(rows, grouped, counts, p), OrderKey(rows, grouped, counts, order[j])) {
      LexTotal(OrderKey(rows, grouped, counts, p), OrderKey(rows, grouped, counts, order[k]));
      if j > k {
        LexTransitive(OrderKey(rows, grouped, counts, p), OrderKey(rows, grouped, counts, order[k]),
                      OrderKey(rows, grouped, counts, order[j]));
      }
    }
    placed := order[..k] + [p] + order[k..];
    Placed(order, p, k);
  }

  lemma Placed(order: seq<nat>, p: nat, k: nat)
    requires k <= |order| && p !in order && Distinct(order)
    ensures Distinct(order[..k] + [p] + order[k..])
    ensures forall q :: q in order[..k] + [p] + order[k..] <==> q == p || q in order
  {
    assert order == order[..k] + order[k..];
  }

  /** Projects are visited fewest running first, then by the age of their first candidate,
      then by id. */
  lemma VisitOrder(rows: Rows, grouped: map<nat, seq<Candidate>>, counts: map<nat, nat>, order: seq<nat>, i: nat, j: nat)
    requires Ordered(rows, grouped, counts, order) && i < j < |order|
    requires forall p :: p in order ==> p in grouped && grouped[p] != [] && grouped[p][0].task in rows
    ensures
      var p, q := order[i], order[j];
      var a, b := rows[grouped[p][0].task].createdAt, rows[grouped[q][0].task].createdAt;
      Count(counts, p) < Count(counts, q) || (Count(counts, p) == Count(counts, q) && (a < b || (a == b && p <= q)))
  {
    hide LexLe;
    var p, q := order[i], order[j];
    var a, b := rows[grouped[p][0].task].createdAt, rows[grouped[q][0].task].createdAt;
    assert OrderKey(rows, grouped, counts, p) == [Count(counts, p)] + [a, p] && OrderKey(rows, grouped, counts, q) == [Count(counts, q)] + [b, q];
    LexCons(Count(counts, p), [a, p], Count(counts, q), [b, q]);
    LexPair(a, p, b, q);
  }

  // ----- claiming

  /** What one row's claim does to the running sets. */
  lemma ClaimRaisesCount(rows: Rows, t: TaskId, c: ClaimId, until: Time, p: nat)
    requires t in rows && rows[t].status != Running
    ensures
      var rows' := rows[t := Claimed(rows[t], c, until)];
      && |RunningIn(rows', p)| == |RunningIn(rows, p)| + (if rows[t].project == p then 1 else 0)
      && RunningItems(rows') == RunningItems(rows) + {rows[t].item}
  {
    var rows' := rows[t := Claimed(rows[t], c, until)];
    if rows[t].project == p {
      assert RunningIn(rows', p) == RunningIn(rows, p) + {t};
    } else {
      assert RunningIn(rows', p) == RunningIn(rows, p);
    }
    RunningItemsGrow(rows, t, c, until);
  }

  lemma RunningItemsGrow(rows: Rows, t: TaskId, c: ClaimId, until: Time)
    requires t in rows && rows[t].status != Running
    ensures RunningItems(rows[t := Claimed(rows[t], c, until)]) == RunningItems(rows) + {rows[t].item}
  {
    var rows' := rows[t := Claimed(rows[t], c, until)];
    forall x | x in RunningItems(rows) + {rows[t].item} ensures x in RunningItems(rows') {
      if x == rows[t].item {
        assert rows'[t].status == Running && rows'[t].item == x;
      } else {
        var u :| u in rows && rows[u].status == Running && rows[u].item == x;
        assert rows'[u] == rows[u];
      }
    }
    forall x | x in RunningItems(rows') ensures x in RunningItems(rows) + {rows[t].item} {
      var u :| u in rows' && rows'[u].status == Running && rows'[u].item == x;
      assert u != t ==> rows'[u] == rows[u];
    }
  }

  /** The rows after a call differ from those before exactly in the claimed tasks. */
  ghost predicate ClaimedExactly(before: Rows, after: Rows, claims: seq<(TaskId, ClaimId)>, until: Time) {
    && after.Keys == before.Keys
    && (forall i, j :: 0 <= i < j < |claims| ==> claims[i].0 != claims[j].0)
    && (forall i :: 0 <= i < |claims| ==>
          claims[i].0 in before && after[claims[i].0] == Claimed(before[claims[i].0], claims[i].1, until))
    && (forall t :: t in before && (forall i :: 0 <= i < |claims| ==> claims[i].0 != t) ==> after[t] == before[t])
  }

  lemma ClaimOneMore(before: Rows, after: Rows, claims: seq<(TaskId, ClaimId)>, until: Time, t: TaskId, c: ClaimId)
    requires ClaimedExactly(before, after, claims, until) && t in after && after[t].status != Running
    ensures ClaimedExactly(before, after[t := Claimed(after[t], c, until)], claims + [(t, c)], until)
  {
    forall i | 0 <= i < |claims| ensures claims[i].0 != t {
      assert after[claims[i].0].status == Running;
    }
    assert after[t] == before[t];
    var claims' := claims + [(t, c)];
    forall u | u in before && (forall i :: 0 <= i < |claims'| ==> claims'[i].0 != u)
      ensures after[t := Claimed(after[t], c, until)][u] == before[u]
    {
      assert claims'[|claims|].0 != u;
      assert forall i :: 0 <= i < |claims| ==> claims[i] == claims'[i];
    }
  }

  /** Rows fit to be claimed one after the other: claimable, of distinct free items. */
  ghost predicate Selectable(rows: Rows, selected: seq<Candidate>, k: nat, now: Time, maxAttempts: nat) {
    && (forall i :: k <= i < |selected| ==>
          var c := selected[i];
          && c.task in rows && c == CandidateOf(rows, c.task) && Claimable(rows[c.task], now, maxAttempts)
          && c.item !in RunningItems(rows))
    && (forall i, j :: k <= i < j < |selected| ==> selected[i].item != selected[j].item)
  }

  lemma NotBusy(rows: Rows, t: TaskId)
    requires t in rows && rows[t].item !in RunningItems(rows)
    ensures !ItemBusy(rows, t)
  {
  }

  lemma ClaimKeepsSelectable(rows: Rows, selected: seq<Candidate>, k: nat, now: Time, maxAttempts: nat, c: ClaimId, until: Time)
    requires k < |selected| && Selectable(rows, selected, k, now, maxAttempts)
    ensures
      var t := selected[k].task;
      Selectable(rows[t := Claimed(rows[t], c, until)], selected, k + 1, now, maxAttempts)
  {
    var t := selected[k].task;
    ClaimRaisesCount(rows, t, c, until, 0);
    forall i | k < i < |selected| ensures selected[i].task != t {
      assert selected[i].item != selected[k].item;
      assert selected[i] == CandidateOf(rows, selected[i].task) && selected[k] == CandidateOf(rows, t);
    }
  }

  /** No project gained more running tasks than rows of it among the first `k` selected. */
  ghost predicate GainWithin(before: Rows, after: Rows, selected: seq<Candidate>, k: nat)
    requires k <= |selected|
  {
    forall p :: |RunningIn(after, p)| <= |RunningIn(before, p)| + Picks(selected[..k], p)
  }

  lemma GainStep(before: Rows, rows: Rows, selected: seq<Candidate>, k: nat, c: ClaimId, until: Time)
    requires k < |selected| && GainWithin(before, rows, selected, k)
    requires selected[k].task in rows && selected[k] == CandidateOf(rows, selected[k].task) && rows[selected[k].task].status != Running
    ensures GainWithin(before, rows, selected, k + 1)
    ensures GainWithin(before, rows[selected[k].task := Claimed(rows[selected[k].task], c, until)], selected, k + 1)
  {
    hide RunningIn, RunningItems;
    var row := selected[k];
    assert selected[..k + 1] == selected[..k] + [row];
    forall p ensures Picks(selected[..k + 1], p) == Picks(selected[..k], p) + (if row.project == p then 1 else 0) {
      PicksSnoc(selected[..k], row, p);
    }
    forall p
      ensures |RunningIn(rows[row.task := Claimed(rows[row.task], c, until)], p)|
           == |RunningIn(rows, p)| + (if row.project == p then 1 else 0)
    {
      ClaimRaisesCount(rows, row.task, c, until, p);
    }
  }

  /** The items of the first `k` selected rows whose claims conflicted. */
  ghost function ConflictItems(selected: seq<Candidate>, conflict: nat -> bool, from: nat, k: nat): set<nat>
    requires k <= |selected|
  {
    set j | 0 <= j < k && conflict(from + j) :: selected[j].item
  }

  lemma NextConflict(selected: seq<Candidate>, conflict: nat -> bool, from: nat, k: nat)
    requires k < |selected|
    ensures ConflictItems(selected, conflict, from, k + 1)
         == ConflictItems(selected, conflict, from, k) + if conflict(from + k) then {selected[k].item} else {}
  {
  }

  ghost predicate NoConflicts(conflict: nat -> bool) {
    forall n: nat :: !conflict(n)
  }

  lemma NoConflictItems(selected: seq<Candidate>, conflict: nat -> bool, from: nat, k: nat)
    requires k <= |selected| && NoConflicts(conflict)
    ensures ConflictItems(selected, conflict, from, k) == {}
  {
  }

  /** The items of the first `k` selected rows. */
  function ItemsTried(selected: seq<Candidate>, k: nat): (items: seq<nat>)
    requires k <= |selected|
    ensures |items| == k
  {
    seq(k, j requires 0 <= j < k => selected[j].item)
  }

  /** What was tried is running or has conflicted. */
  ghost predicate Settled(tried: seq<nat>, rows: Rows, conflicted: set<nat>) {
    forall x :: x in tried ==> x in RunningItems(rows) || x in conflicted
  }

  lemma SettleOne(rows: Rows, selected: seq<Candidate>, k: nat, c: ClaimId, until: Time, conflicted: set<nat>)
    requires k < |selected| && Settled(ItemsTried(selected, k), rows, conflicted)
    requires selected[k].task in rows && selected[k] == CandidateOf(rows, selected[k].task) && rows[selected[k].task].status != Running
    ensures Settled(ItemsTried(selected, k + 1), rows, conflicted + {selected[k].item})
    ensures
      var rows' := rows[selected[k].task := Claimed(rows[selected[k].task], c, until)];
      Settled(ItemsTried(selected, k + 1), rows', conflicted) && RunningItems(rows) <= RunningItems(rows')
  {
    RunningItemsGrow(rows, selected[k].task, c, until);
    hide RunningItems;
    assert ItemsTried(selected, k + 1) == ItemsTried(selected, k) + [selected[k].item];
  }

  /** Items tried later are new: they were neither running nor in conflict. */
  lemma TriedOnce(tried: seq<nat>, before: Rows, after: Rows, conflicted0: set<nat>, conflicted: set<nat>, selected: seq<Candidate>, k: nat)
    requires Distinct(tried) && Settled(tried, before, conflicted0) && k <= |selected|
    requires forall c :: c in selected ==> c.item !in RunningItems(before) + conflicted0
    requires forall i, j :: 0 <= i < j < |selected| ==> selected[i].item != selected[j].item
    requires Settled(ItemsTried(selected, k), after, conflicted) && RunningItems(before) <= RunningItems(after)
    ensures Distinct(tried + ItemsTried(selected, k)) && Settled(tried + ItemsTried(selected, k), after, conflicted0 + conflicted)
  {
    hide RunningItems;
    var more := ItemsTried(selected, k);
    forall i, j | 0 <= i < |tried| && 0 <= j < |more| ensures tried[i] != more[j] {
      assert tried[i] in tried && selected[j] in selected;
    }
  }

  /** Each claim got one of the first `n` ids. */
  ghost predicate IdsUpTo(claims: seq<(TaskId, ClaimId)>, uuid: nat -> ClaimId, n: nat) {
    forall i :: 0 <= i < |claims| ==> exists m: nat :: m < n && claims[i].1 == uuid(m)
  }

  ghost predicate DistinctIds(claims: seq<(TaskId, ClaimId)>) {
    forall i, j :: 0 <= i < j < |claims| ==> claims[i].1 != claims[j].1
  }

  /** No two ids are the same. */
  ghost predicate FreshIds(uuid: nat -> ClaimId) {
    forall a: nat, b: nat :: a != b ==> uuid(a) != uuid(b)
  }

  /** Ids are handed out in turn, so fresh ones give distinct claims. */
  ghost predicate IdsOk(claims: seq<(TaskId, ClaimId)>, uuid: nat -> ClaimId, n: nat) {
    IdsUpTo(claims, uuid, n) && (FreshIds(uuid) ==> DistinctIds(claims))
  }

  lemma NextId(claims: seq<(TaskId, ClaimId)>, uuid: nat -> ClaimId, n: nat, t: TaskId)
    requires IdsOk(claims, uuid, n)
    ensures IdsOk(claims, uuid, n + 1) && IdsOk(claims + [(t, uuid(n))], uuid, n + 1)
  {
    var all := claims + [(t, uuid(n))];
    forall i | 0 <= i < |all| ensures exists m: nat :: m < n + 1 && all[i].1 == uuid(m) {
      if i < |claims| {
        var m: nat :| m < n && claims[i].1 == uuid(m);
      }
    }
    assert IdsUpTo(claims, uuid, n + 1) by {
      forall i | 0 <= i < |claims| ensures exists m: nat :: m < n + 1 && claims[i].1 == uuid(m) {
        var m: nat :| m < n && claims[i].1 == uuid(m);
      }
    }
  }

  /** The claims of a pass: those made before, then some of the selected rows. */
  ghost predicate ClaimsFrom(claims0: seq<(TaskId, ClaimId)>, claims: seq<(TaskId, ClaimId)>, selected: seq<Candidate>) {
    claims0 <= claims && forall i :: |claims0| <= i < |claims| ==> exists c :: c in selected && c.task == claims[i].0
  }

  /** The claim loop over one pass's selection. Claim number `n` of the call gets the id
      `uuid(n)` and conflicts with a concurrent transaction if `conflict(n)`; the model
      shows that there is no other conflict. */
  method ClaimSelected(table: TaskTable, selected: seq<Candidate>, claims0: seq<(TaskId, ClaimId)>, attempts0: nat,
                       limit: nat, leaseSeconds: nat, now: Time, scanLimit: nat,
                       conflict: nat -> bool, uuid: nat -> ClaimId, ghost swept: Rows)
    returns (claims: seq<(TaskId, ClaimId)>, attempts: nat, conflicted: set<nat>)
    requires Inv(table.Db(), table.maxAttempts) && |claims0| <= limit && attempts0 <= scanLimit
    requires Selectable(table.rows, selected, 0, now, table.maxAttempts)
    requires ClaimedExactly(swept, table.rows, claims0, now + leaseSeconds) && IdsOk(claims0, uuid, attempts0)
    modifies table
    ensures IdsOk(claims, uuid, attempts)
    ensures Inv(table.Db(), table.maxAttempts) && |claims| <= limit && attempts0 <= attempts <= scanLimit
    ensures selected != [] && |claims0| < limit && attempts0 < scanLimit ==> attempts0 < attempts
    ensures ClaimedExactly(swept, table.rows, claims, now + leaseSeconds)
    ensures GainWithin(old(table.rows), table.rows, selected, |selected|)
    ensures attempts - attempts0 <= |selected| && conflicted == ConflictItems(selected, conflict, attempts0, attempts - attempts0)
    ensures NoConflicts(conflict) ==> conflicted == {} && attempts - attempts0 == |claims| - |claims0|
    ensures attempts == attempts0 + |selected| || |claims| == limit || attempts == scanLimit
    ensures ClaimsFrom(claims0, claims, selected)
    ensures Settled(ItemsTried(selected, attempts - attempts0), table.rows, conflicted) && RunningItems(old(table.rows)) <= RunningItems(table.rows)
  {
    hide Inv, ItemBusy, RunningIn, RunningItems, ClaimedExactly, GainWithin, Picks, ConflictItems, IdsOk, Settled, ItemsTried;
    claims, attempts, conflicted := claims0, attempts0, {};
    GainNothing(table.rows, selected);
    NoConflictYet(selected, conflict, attempts0);
    NothingTried(selected, table.rows);
    var k := 0;
    while k < |selected| && |claims| < limit && attempts < scanLimit
      invariant 0 <= k <= |selected| && |claims| <= limit && attempts == attempts0 + k <= scanLimit
      invariant k == 0 ==> claims == claims0
      invariant Inv(table.Db(), table.maxAttempts)
      invariant Selectable(table.rows, selected, k, now, table.maxAttempts)
      invariant ClaimedExactly(swept, table.rows, claims, now + leaseSeconds)
      invariant GainWithin(old(table.rows), table.rows, selected, k)
      invariant conflicted == ConflictItems(selected, conflict, attempts0, k)
      invariant NoConflicts(conflict) ==> k == |claims| - |claims0|
      invariant ClaimsFrom(claims0, claims, selected) && IdsOk(claims, uuid, attempts)
      invariant Settled(ItemsTried(selected, k), table.rows, conflicted) && RunningItems(old(table.rows)) <= RunningItems(table.rows)
    {
      SettleOne(table.rows, selected, k, uuid(attempts), now + leaseSeconds, conflicted);
      NextId(claims, uuid, attempts, selected[k].task);
      NextConflict(selected, conflict, attempts0, k);
      var row, id := selected[k], uuid(attempts);
      ghost var rows := table.rows;
      NotBusy(rows, row.task);
      ApplyKeeps(table.Db(), Take(row.task, id, leaseSeconds, conflict(attempts)), now, table.maxAttempts);
      GainStep(old(table.rows), rows, selected, k, id, now + leaseSeconds);
      ClaimKeepsSelectable(rows, selected, k, now, table.maxAttempts, id, now + leaseSeconds);
      ClaimOneMore(swept, rows, claims, now + leaseSeconds, row.task, id);
      var ok := table.Claim(row.task, id, leaseSeconds, now, conflict(attempts));
      assert ok == !conflict(attempts);
      if ok {
        claims := claims + [(row.task, id)];
      } else {
        conflicted := conflicted + {row.item};
      }
      attempts, k := attempts + 1, k + 1;
    }
    GainMonotone(old(table.rows), table.rows, selected, k);
    if NoConflicts(conflict) {
      NoConflictItems(selected, conflict, attempts0, k);
    }
  }

  lemma NothingTried(selected: seq<Candidate>, rows: Rows)
    ensures Settled(ItemsTried(selected, 0), rows, {}) && Settled([], rows, {})
  {
  }

  lemma NoConflictYet(selected: seq<Candidate>, conflict: nat -> bool, from: nat)
    ensures ConflictItems(selected, conflict, from, 0) == {}
  {
  }

  lemma GainNothing(rows: Rows, selected: seq<Candidate>)
    ensures GainWithin(rows, rows, selected, 0)
  {
  }

  lemma GainMonotone(before: Rows, after: Rows, selected: seq<Candidate>, k: nat)
    requires k <= |selected| && GainWithin(before, after, selected, k)
    ensures GainWithin(before, after, selected, |selected|)
  {
    hide RunningIn;
    assert selected[..|selected|] == selected;
    forall p ensures Picks(selected[..k], p) <= Picks(selected, p) {
      PicksPrefix(selected, k, p);
    }
  }

  lemma {:induction false} PicksPrefix(s: seq<Candidate>, k: nat, p: nat)
    requires k <= |s|
    ensures Picks(s[..k], p) <= Picks(s, p)
    decreases |s|
  {
    if k < |s| {
      PicksPrefix(s[..|s| - 1], k, p);
      assert s[..|s| - 1][..k] == s[..k];
    } else {
      assert s[..k] == s;
    }
  }

  // ----- one pass and the whole call

  method RunningCounts(rows: Rows) returns (counts: map<nat, nat>)
    ensures forall p :: Count(counts, p) == |RunningIn(rows, p)|
  {
    counts := map p | p in (set t | t in rows :: rows[t].project) :: |RunningIn(rows, p)|;
    forall p | p !in counts ensures RunningIn(rows, p) == {} {
      assert forall t :: t in rows ==> rows[t].project in (set u | u in rows :: rows[u].project);
    }
  }

  /** Nothing more could run: every project is at its cap, or all its eligible items run. */
  ghost predicate Saturated(v: View, cap: nat) {
    forall p ::
      || |RunningIn(v.rows, p)| >= cap
      || forall t :: t in v.rows && Eligible(v, t) && v.rows[t].project == p ==> v.rows[t].item in RunningItems(v.rows)
  }

  /** Of one project's rows, earlier episodes are picked first. */
  ghost predicate PicksInOrder(rows: Rows, selected: seq<Candidate>) {
    forall i, j :: 0 <= i < j < |selected| && selected[i].project == selected[j].project ==> PickLe(rows, selected[i], selected[j])
  }

  lemma PicksFollowQueues(rows: Rows, start: Pass, s: Pass)
    requires OrderOk(start, s) && QueuesInOrder(rows, start.grouped)
    ensures PicksInOrder(rows, s.selected)
  {
    hide PickLe, AlreadyTaken;
    forall i, j | 0 <= i < j < |s.selected| && s.selected[i].project == s.selected[j].project
      ensures PickLe(rows, s.selected[i], s.selected[j])
    {
      assert PickedBefore(start, s.selected[i], s.selected[j]);
      var a, b :| a < b && QueuedAt(start, s.selected[i], a) && QueuedAt(start, s.selected[j], b);
    }
  }

  /** The rows one pass selects, from the candidates whose item is not in `active`. */
  method SelectPass(v: View, active: set<nat>, cap: nat, room: nat, scanLimit: nat) returns (selected: seq<Candidate>, cut: bool)
    requires ValidView(v) && OneProjectPerItem(v.rows) && RunningItems(v.rows) <= active
    ensures |selected| <= room && Selectable(v.rows, selected, 0, v.now, v.maxAttempts)
    ensures PicksInOrder(v.rows, selected) && forall c :: c in selected ==> Eligible(v, c.task) && c.item !in active
    ensures forall p :: Picks(selected, p) > 0 ==> |RunningIn(v.rows, p)| + Picks(selected, p) <= cap
    ensures cut <==> |Candidates(v, Max(8, 2 * cap))| > scanLimit
    ensures selected == [] && room > 0 && !cut && active == RunningItems(v.rows) ==> Saturated(v, cap)
  {
    hide EpisodeLe, Candidates, Drained, OrderOk, QueuesInOrder;
    var counts := RunningCounts(v.rows);
    var tasks;
    tasks, cut := ClaimCandidates(v, scanLimit, Max(8, 2 * cap));
    CandidatesShape(v, Max(8, 2 * cap), scanLimit);
    var grouped := GroupFree(v.rows, tasks, active);
    var order := OrderProjects(v.rows, grouped, counts);
    var start := Pass(grouped, counts, active, []);
    var s := SelectRoundRobin(start, order, cap, room);
    selected := s.selected;
    PicksFollowQueues(v.rows, start, s);
    SelectionIsSelectable(v, tasks, start, s, cap);
    if selected == [] && room > 0 && !cut && active == RunningItems(v.rows) {
      NothingSelectedMeansSaturated(v, tasks, start, s, order, cap);
    }
  }

  lemma SelectionIsSelectable(v: View, tasks: seq<TaskId>, start: Pass, s: Pass, cap: nat)
    requires PassOk(start, s, cap) && RunningItems(v.rows) <= start.active
    requires forall t :: t in tasks ==> t in v.rows && FirstOfItem(v, t)
    requires forall p, c :: p in start.grouped && c in start.grouped[p] ==> c.task in tasks && c == CandidateOf(v.rows, c.task)
    ensures Selectable(v.rows, s.selected, 0, v.now, v.maxAttempts)
    ensures forall c :: c in s.selected ==> Eligible(v, c.task)
  {
    hide RunningItems, QueuesOk, CountsOk, OrderOk;
    forall i | 0 <= i < |s.selected|
      ensures
        var c := s.selected[i];
        && c.task in v.rows && c == CandidateOf(v.rows, c.task) && Claimable(v.rows[c.task], v.now, v.maxAttempts)
        && c.item !in RunningItems(v.rows)
    {
      assert s.selected[i] in s.selected;
    }
  }

  lemma NothingSelectedMeansSaturated(v: View, tasks: seq<TaskId>, start: Pass, s: Pass, order: seq<nat>, cap: nat)
    requires ValidView(v) && OneProjectPerItem(v.rows)
    requires PassOk(start, s, cap) && s.selected == [] && start.active == RunningItems(v.rows)
    requires forall p :: Count(start.counts, p) == |RunningIn(v.rows, p)|
    requires forall p :: p in order <==> p in start.grouped
    requires forall p :: p in order ==> Blocked(start, s, cap, p)
    requires forall t :: t in tasks ==> t in v.rows
    requires forall p, t :: HasEligible(v, v.ids, p) && t in Window(v, p, Max(8, 2 * cap)) ==> t in tasks
    requires forall t :: t in tasks && v.rows[t].item !in start.active ==> CandidateOf(v.rows, t) in Queue(start.grouped, v.rows[t].project)
    ensures Saturated(v, cap)
  {
    forall p | |RunningIn(v.rows, p)| < cap && HasEligible(v, v.ids, p)
      ensures forall t :: t in v.rows && Eligible(v, t) && v.rows[t].project == p ==> v.rows[t].item in RunningItems(v.rows)
    {
      BlockedProjectIsSaturated(v, tasks, start, s, order, cap, p);
    }
  }

  lemma WindowInProject(v: View, p: nat, limit: nat)
    ensures forall t :: t in Window(v, p, limit) ==> t in v.rows && v.rows[t].project == p
  {
    var full := FullWindow(v, v.ids, p);
    assert forall t :: t in Window(v, p, limit) ==> t in full;
  }

  lemma BlockedProjectIsSaturated(v: View, tasks: seq<TaskId>, start: Pass, s: Pass, order: seq<nat>, cap: nat, p: nat)
    requires ValidView(v) && OneProjectPerItem(v.rows)
    requires PassOk(start, s, cap) && s.selected == [] && start.active == RunningItems(v.rows)
    requires Count(start.counts, p) == |RunningIn(v.rows, p)| < cap
    requires forall q :: q in order <==> q in start.grouped
    requires forall q :: q in order ==> Blocked(start, s, cap, q)
    requires forall t :: t in Window(v, p, Max(8, 2 * cap)) ==> t in tasks
    requires forall t :: t in tasks ==> t in v.rows
    requires forall t :: t in tasks && v.rows[t].item !in start.active ==> CandidateOf(v.rows, t) in Queue(start.grouped, v.rows[t].project)
    ensures forall t :: t in v.rows && Eligible(v, t) && v.rows[t].project == p ==> v.rows[t].item in RunningItems(v.rows)
  {
    hide RunningItems, RunningIn, Eligible, Window, QueuesOk, OneProjectPerItem, ValidView;
    var limit := Max(8, 2 * cap);
    WindowInProject(v, p, limit);
    WindowLosesNothing(v, p, cap, limit);
    var items := ItemsOf(v.rows, Window(v, p, limit));
    var queue := Queue(start.grouped, p);
    assert Items(s.selected) == {};
    assert Items(queue) <= start.active by {
      assert p in order ==> Blocked(start, s, cap, p);
    }
    forall t | t in Window(v, p, limit) ensures v.rows[t].item in RunningItems(v.rows) {
      var c := CandidateOf(v.rows, t);
      assert c in queue ==> c.item in Items(queue);
    }
    assert items - RunningItems(v.rows) == {};
  }

  // ----- enough room for all

  /** The claimed rows are no longer eligible, and nothing became eligible. */
  lemma EligibleShrinks(v: View, v': View, claims: seq<(TaskId, ClaimId)>, until: Time)
    requires ClaimedExactly(v.rows, v'.rows, claims, until) && v' == v.(rows := v'.rows)
    ensures forall t :: Eligible(v', t) ==> Eligible(v, t) && v'.rows[t] == v.rows[t]
    ensures EligibleItems(v') <= EligibleItems(v)
  {
    assert forall i :: 0 <= i < |claims| ==> v'.rows[claims[i].0].status == Running;
    hide ClaimedExactly, Eligible;
  }

  lemma NothingCut(v: View, v': View, claims: seq<(TaskId, ClaimId)>, until: Time, perProject: nat)
    requires ClaimedExactly(v.rows, v'.rows, claims, until) && v' == v.(rows := v'.rows)
    requires ValidView(v') && OneProjectPerItem(v'.rows)
    ensures |Candidates(v', perProject)| <= |EligibleItems(v)|
  {
    hide ClaimedExactly, Candidates;
    EligibleShrinks(v, v', claims, until);
    CandidatesBounded(v', perProject);
    SubsetSize(EligibleItems(v'), EligibleItems(v));
  }

  ghost predicate ClaimsEligible(v: View, claims: seq<(TaskId, ClaimId)>) {
    forall i :: 0 <= i < |claims| ==> Eligible(v, claims[i].0)
  }

  lemma MoreClaimsEligible(v: View, v': View, claims0: seq<(TaskId, ClaimId)>, claims: seq<(TaskId, ClaimId)>, until: Time, selected: seq<Candidate>)
    requires ClaimedExactly(v.rows, v'.rows, claims0, until) && v' == v.(rows := v'.rows) && ClaimsEligible(v, claims0)
    requires ClaimsFrom(claims0, claims, selected) && forall c :: c in selected ==> Eligible(v', c.task)
    ensures ClaimsEligible(v, claims)
  {
    EligibleShrinks(v, v', claims0, until);
    hide ClaimedExactly, Eligible;
    forall i | 0 <= i < |claims| ensures Eligible(v, claims[i].0) {
      if i < |claims0| {
        assert claims[i] == claims0[i];
      }
    }
  }

  function ClaimedTasks(claims: seq<(TaskId, ClaimId)>): (r: seq<TaskId>)
    ensures |r| == |claims| && forall i :: 0 <= i < |r| ==> r[i] == claims[i].0
  {
    seq(|claims|, i requires 0 <= i < |claims| => claims[i].0)
  }

  lemma ClaimedItems(v: View, v': View, claims: seq<(TaskId, ClaimId)>, until: Time)
    requires ClaimedExactly(v.rows, v'.rows, claims, until) && v' == v.(rows := v'.rows) && ClaimsEligible(v, claims) && OnePerItem(v'.rows)
    ensures forall t :: t in ClaimedTasks(claims) ==> t in v'.rows
    ensures |ItemsOf(v'.rows, ClaimedTasks(claims))| == |claims|
    ensures ItemsOf(v'.rows, ClaimedTasks(claims)) <= EligibleItems(v) && ItemsOf(v'.rows, ClaimedTasks(claims)) <= RunningItems(v'.rows)
  {
    hide Eligible;
    var tasks := ClaimedTasks(claims);
    forall i | 0 <= i < |claims|
      ensures claims[i].0 in v'.rows && v'.rows[claims[i].0].status == Running && v'.rows[claims[i].0].item == v.rows[claims[i].0].item
      ensures claims[i].0 in v.rows && Eligible(v, claims[i].0)
    {
    }
    forall i, j | 0 <= i < j < |tasks| ensures v'.rows[tasks[i]].item != v'.rows[tasks[j]].item {
      assert claims[i].0 != claims[j].0;
    }
    hide ClaimedExactly, OnePerItem;
    DistinctItems(v'.rows, tasks);
  }

  /** When every eligible item has been claimed, nothing more could run. */
  lemma AllItemsClaimed(v: View, v': View, claims: seq<(TaskId, ClaimId)>, until: Time, cap: nat)
    requires ClaimedExactly(v.rows, v'.rows, claims, until) && v' == v.(rows := v'.rows) && ClaimsEligible(v, claims) && OnePerItem(v'.rows)
    requires |claims| >= |EligibleItems(v)|
    ensures Saturated(v', cap)
  {
    ClaimedItems(v, v', claims, until);
    EligibleShrinks(v, v', claims, until);
    hide ClaimedExactly, Eligible, OnePerItem, RunningItems, RunningIn;
    var items := ItemsOf(v'.rows, ClaimedTasks(claims));
    SameSize(items, EligibleItems(v));
    forall t | t in v'.rows && Eligible(v', t) ensures v'.rows[t].item in RunningItems(v'.rows) {
      assert v'.rows[t].item in EligibleItems(v);
    }
  }

  lemma SameSize(a: set<nat>, b: set<nat>)
    requires a <= b && |a| >= |b|
    ensures a == b
  {
    assert b == a + (b - a);
    assert |b - a| == 0;
  }

  /** The call with admissible bounds. At most `limit` claims, for distinct tasks; nothing but
      the claimed rows changes after the sweep; the lease protocol's invariant, with its
      one running task per item, is kept; no project ends above the larger of its cap
      and what it had running; no item is tried twice (`tried` lists them), so a conflict is
      not repeated; and when no claim conflicts and there are no more items with
      an eligible row than the call may scan, it makes `limit` claims or leaves nothing
      that could still run. */
  method ClaimRounds(table: TaskTable, ids: seq<TaskId>, ready: set<TaskId>, expired: seq<TaskId>,
                     limit: nat, cap: nat, leaseSeconds: nat, now: Time, scanLimit: nat,
                     conflict: nat -> bool, uuid: nat -> ClaimId)
    returns (claims: seq<(TaskId, ClaimId)>, ghost tried: seq<nat>)
    requires Inv(table.Db(), table.maxAttempts) && OneProjectPerItem(table.rows)
    requires ValidView(View(table.rows, ids, ready, now, table.maxAttempts))
    modifies table
    ensures Inv(table.Db(), table.maxAttempts)
    ensures |claims| <= limit && (FreshIds(uuid) ==> DistinctIds(claims))
    ensures |tried| <= scanLimit && Distinct(tried)
    ensures ClaimsEligible(View(ReconcileAll(old(table.rows), expired, now, table.maxAttempts), ids, ready, now, table.maxAttempts), claims)
    ensures
      var swept := ReconcileAll(old(table.rows), expired, now, table.maxAttempts);
      && ClaimedExactly(swept, table.rows, claims, now + leaseSeconds) && Capped(swept, table.rows, cap)
      && (NoConflicts(conflict) && |EligibleItems(View(swept, ids, ready, now, table.maxAttempts))| <= scanLimit ==>
            |claims| == limit || Saturated(View(table.rows, ids, ready, now, table.maxAttempts), cap))
  {
    hide Inv, RunningIn, RunningItems, ClaimedExactly, GainWithin, Capped, Saturated, Selectable, Picks, OneProjectPerItem, ClaimsEligible, ClaimsFrom, EligibleItems, NoConflicts, Eligible, Candidates, ConflictItems, PicksInOrder, IdsUpTo, DistinctIds, Settled, ItemsTried;
    ApplyKeeps(table.Db(), Sweep(expired), now, table.maxAttempts);
    SweepKeepsTasks(table.rows, expired, now, table.maxAttempts);
    SweepKeepsProjects(table.rows, expired, now, table.maxAttempts);
    table.Reconcile(expired, now);
    ghost var first := View(table.rows, ids, ready, now, table.maxAttempts);
    ghost var easy := NoConflicts(conflict) && |EligibleItems(first)| <= scanLimit;
    NothingClaimed(table.rows, now + leaseSeconds, cap);
    NoClaims(first, uuid);
    claims, tried := [], [];
    NothingTried([], table.rows);
    var attempts, conflicted := 0, {};
    while |claims| < limit && attempts < scanLimit
      invariant Inv(table.Db(), table.maxAttempts) && |claims| <= limit && attempts <= scanLimit
      invariant ClaimedExactly(first.rows, table.rows, claims, now + leaseSeconds)
      invariant table.rows.Keys == first.rows.Keys && OneProjectPerItem(table.rows)
      invariant Capped(first.rows, table.rows, cap)
      invariant ClaimsEligible(first, claims) && IdsOk(claims, uuid, attempts)
      invariant easy ==> conflicted == {} && attempts == |claims|
      invariant |tried| == attempts && Distinct(tried) && Settled(tried, table.rows, conflicted)
      decreases scanLimit - attempts
    {
      var v := View(table.rows, ids, ready, now, table.maxAttempts);
      var selected, cut := SelectPass(v, RunningItems(table.rows) + conflicted, cap, limit - |claims|, scanLimit);
      NothingCut(first, v, claims, now + leaseSeconds, Max(8, 2 * cap));
      if selected == [] {
        assert conflicted == {} ==> RunningItems(table.rows) + conflicted == RunningItems(table.rows);
        return;
      }
      ghost var before, claims0 := table.rows, claims;
      var more;
      ghost var attempts0, conflicted0 := attempts, conflicted;
      claims, attempts, more := ClaimSelected(table, selected, claims, attempts, limit, leaseSeconds, now, scanLimit, conflict, uuid, first.rows);
      conflicted := conflicted + more;
      SelectedDiffer(before, selected, now, table.maxAttempts);
      TriedOnce(tried, before, table.rows, conflicted0, more, selected, attempts - attempts0);
      tried := tried + ItemsTried(selected, attempts - attempts0);
      CappedStep(first.rows, before, table.rows, selected, cap);
      ClaimedKeepsProjects(first.rows, table.rows, claims, now + leaseSeconds);
      MoreClaimsEligible(first, v, claims0, claims, now + leaseSeconds, selected);
    }
    if easy && |claims| < limit {
      OnePerItemOf(table.Db(), table.maxAttempts);
      AllItemsClaimed(first, View(table.rows, ids, ready, now, table.maxAttempts), claims, now + leaseSeconds, cap);
    }
  }

  lemma SelectedDiffer(rows: Rows, selected: seq<Candidate>, now: Time, maxAttempts: nat)
    requires Selectable(rows, selected, 0, now, maxAttempts)
    ensures forall i, j :: 0 <= i < j < |selected| ==> selected[i].item != selected[j].item
  {
  }

  lemma OnePerItemOf(db: Database, maxAttempts: nat)
    requires Inv(db, maxAttempts)
    ensures OnePerItem(db.rows)
  {
  }

  lemma NoClaims(v: View, uuid: nat -> ClaimId)
    ensures ClaimsEligible(v, []) && IdsOk([], uuid, 0)
  {
  }

  /** `claim_technical_qc_tasks`: bounds that are not positive are refused before anything
      is touched; otherwise the call is as above. */
  method ClaimTasks(table: TaskTable, ids: seq<TaskId>, ready: set<TaskId>, expired: seq<TaskId>,
                    limit: int, cap: int, leaseSeconds: int, now: Time, scanLimit: int,
                    conflict: nat -> bool, uuid: nat -> ClaimId)
    returns (r: Result<seq<(TaskId, ClaimId)>>, ghost tried: seq<nat>)
    requires Inv(table.Db(), table.maxAttempts) && OneProjectPerItem(table.rows)
    requires ValidView(View(table.rows, ids, ready, now, table.maxAttempts))
    modifies table
    ensures r.Stopped? <==> limit < 1 || cap < 1 || leaseSeconds < 1 || table.maxAttempts < 1 || scanLimit < 1
    ensures r.Stopped? ==> table.Db() == old(table.Db())
    ensures Distinct(tried) && (r.Ok? ==> |tried| <= scanLimit)
    ensures Inv(table.Db(), table.maxAttempts)
    ensures r.Ok? ==>
      var swept := ReconcileAll(old(table.rows), expired, now, table.maxAttempts);
      && |r.value| <= limit && (FreshIds(uuid) ==> DistinctIds(r.value))
      && (forall i :: 0 <= i < |r.value| ==>
            && r.value[i].0 in ready && r.value[i].0 in swept && swept[r.value[i].0].attempts < table.maxAttempts
            && (swept[r.value[i].0].status == Queued || (swept[r.value[i].0].status == Failed && swept[r.value[i].0].nextAttempt.Some? && swept[r.value[i].0].nextAttempt.value <= now)))
      && ClaimedExactly(swept, table.rows, r.value, now + leaseSeconds) && Capped(swept, table.rows, cap)
      && (NoConflicts(conflict) && |EligibleItems(View(swept, ids, ready, now, table.maxAttempts))| <= scanLimit ==>
            |r.value| == limit || Saturated(View(table.rows, ids, ready, now, table.maxAttempts), cap))
  {
    hide Inv, ClaimedExactly, Capped, Saturated, OneProjectPerItem, ValidView, ReconcileAll, EligibleItems, NoConflicts, FreshIds, DistinctIds;
    if limit < 1 || cap < 1 || leaseSeconds < 1 || table.maxAttempts < 1 || scanLimit < 1 {
      return Stopped(Raised), [];
    }
    var claims;
    claims, tried := ClaimRounds(table, ids, ready, expired, limit, cap, leaseSeconds, now, scanLimit, conflict, uuid);
    r := Ok(claims);
  }

  /** No project runs more than the larger of its cap and what it ran before. */
  ghost predicate Capped(before: Rows, after: Rows, cap: nat) {
    forall p :: |RunningIn(after, p)| <= Max(|RunningIn(before, p)|, cap)
  }

  lemma CappedStep(first: Rows, before: Rows, after: Rows, selected: seq<Candidate>, cap: nat)
    requires Capped(first, before, cap) && GainWithin(before, after, selected, |selected|)
    requires forall p :: Picks(selected, p) > 0 ==> |RunningIn(before, p)| + Picks(selected, p) <= cap
    ensures Capped(first, after, cap)
  {
    hide RunningIn;
    assert selected[..|selected|] == selected;
  }

  lemma NothingClaimed(rows: Rows, until: Time, cap: nat)
    ensures ClaimedExactly(rows, rows, [], until) && Capped(rows, rows, cap)
  {
  }

  /** Rows never move to another project or item. */
  ghost predicate SamePlaces(a: Rows, b: Rows) {
    a.Keys == b.Keys && forall t :: t in a ==> b[t].project == a[t].project && b[t].item == a[t].item
  }

  lemma SamePlacesKeeps(a: Rows, b: Rows)
    requires SamePlaces(a, b) && OneProjectPerItem(a)
    ensures OneProjectPerItem(b)
  {
  }

  lemma ClaimedKeepsProjects(before: Rows, after: Rows, claims: seq<(TaskId, ClaimId)>, until: Time)
    requires ClaimedExactly(before, after, claims, until) && OneProjectPerItem(before)
    ensures after.Keys == before.Keys && OneProjectPerItem(after)
  {
    hide OneProjectPerItem;
    forall t | t in before ensures after[t].project == before[t].project && after[t].item == before[t].item {
      if i :| 0 <= i < |claims| && claims[i].0 == t {
        assert after[claims[i].0] == Claimed(before[t], claims[i].1, until);
      }
    }
    SamePlacesKeeps(before, after);
  }

  lemma SweepKeepsProjects(rows: Rows, batch: seq<TaskId>, now: Time, maxAttempts: nat)
    requires OneProjectPerItem(rows)
    ensures OneProjectPerItem(ReconcileAll(rows, batch, now, maxAttempts))
  {
    hide OneProjectPerItem, ReconcileAll;
    SweepKeepsTasks(rows, batch, now, maxAttempts);
    forall t | t in rows
      ensures
        var after := ReconcileAll(rows, batch, now, maxAttempts);
        t in after && after[t].project == rows[t].project && after[t].item == rows[t].item
    {
      SweepOnlyExpired(rows, batch, now, maxAttempts, t);
    }
    SamePlacesKeeps(rows, ReconcileAll(rows, batch, now, maxAttempts));
  }
}
