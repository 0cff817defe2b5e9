/** `_claim_candidates`: the eligible projects, oldest first, and the windows of their rows,
    cut off at the scan limit. */
module QcCandidates {
  import opened Basics
  import opened Wrappers
  import opened Lexicographic
  import opened QcTasks
  import opened QcWindow

  // ----- the projects

  /** `min(created_at)` over the eligible rows of a project. */
  function Oldest(v: View, ids: seq<TaskId>, p: Project): nat {
    if ids == [] then 0
    else
      var rest := Oldest(v, ids[1..], p);
      var t := ids[0];
      if Eligible(v, t) && v.rows[t].project == p && (!HasEligible(v, ids[1..], p) || v.rows[t].createdAt < rest)
      then v.rows[t].createdAt else rest
  }

  predicate HasEligible(v: View, ids: seq<TaskId>, p: Project) {
    exists t :: t in ids && Eligible(v, t) && v.rows[t].project == p
  }

  function AgeKey(v: View, p: Project): seq<nat> {
    [Oldest(v, v.ids, p), p]
  }

  function InsertProject(v: View, p: Project, ps: seq<Project>): (r: seq<Project>)
    ensures forall q :: q in r <==> q == p || q in ps
  {
    if ps == [] || LexLe(AgeKey(v, p), AgeKey(v, ps[0])) then [p] + ps
    else [ps[0]] + InsertProject(v, p, ps[1..])
  }

  /** The projects with an eligible row, oldest row first. */
  function EligibleProjects(v: View, ids: seq<TaskId>): (r: seq<Project>)
    ensures forall p :: p in r <==> HasEligible(v, ids, p)
  {
    if ids == [] then []
    else
      var rest := EligibleProjects(v, ids[1..]);
      var t := ids[0];
      assert forall p :: HasEligible(v, ids, p) <==> HasEligible(v, ids[1..], p) || (Eligible(v, t) && v.rows[t].project == p);
      if Eligible(v, t) && v.rows[t].project !in rest then InsertProject(v, v.rows[t].project, rest) else rest
  }

  /** Oldest first and without repetition. */
  ghost predicate ByAge(v: View, ps: seq<Project>) {
    forall i, j :: 0 <= i < j < |ps| ==> ps[i] != ps[j] && LexLe(AgeKey(v, ps[i]), AgeKey(v, ps[j]))
  }

  lemma {:induction false} InsertByAge(v: View, p: Project, ps: seq<Project>)
    requires ByAge(v, ps) && p !in ps
    ensures ByAge(v, InsertProject(v, p, ps))
  {
    hide LexLe, AgeKey;
    if ps == [] || LexLe(AgeKey(v, p), AgeKey(v, ps[0])) {
      forall j | 0 <= j < |ps| ensures LexLe(AgeKey(v, p), AgeKey(v, ps[j])) {
        if j > 0 {
          LexTransitive(AgeKey(v, p), AgeKey(v, ps[0]), AgeKey(v, ps[j]));
        }
      }
    } else {
      var rest := InsertProject(v, p, ps[1..]);
      InsertByAge(v, p, ps[1..]);
      LexTotal(AgeKey(v, p), AgeKey(v, ps[0]));
      forall j | 0 <= j < |rest| ensures ps[0] != rest[j] && LexLe(AgeKey(v, ps[0]), AgeKey(v, rest[j])) {
        assert rest[j] in rest;
      }
    }
  }

  lemma {:induction false} ProjectsByAge(v: View, ids: seq<TaskId>)
    ensures ByAge(v, EligibleProjects(v, ids))
  {
    if ids != [] {
      ProjectsByAge(v, ids[1..]);
      if Eligible(v, ids[0]) && v.rows[ids[0]].project !in EligibleProjects(v, ids[1..]) {
        InsertByAge(v, v.rows[ids[0]].project, EligibleProjects(v, ids[1..]));
      }
    }
  }

  ghost predicate EligibleIn(v: View, ids: seq<TaskId>, p: Project, t: TaskId) {
    t in ids && Eligible(v, t) && v.rows[t].project == p
  }

  /** `Oldest` is the creation time of an eligible row of the project, and no eligible row of
      it is older. */
  lemma {:induction false} OldestIsLeast(v: View, ids: seq<TaskId>, p: Project) returns (first: TaskId)
    requires HasEligible(v, ids, p)
    ensures EligibleIn(v, ids, p, first) && v.rows[first].createdAt == Oldest(v, ids, p)
    ensures forall t :: EligibleIn(v, ids, p, t) ==> Oldest(v, ids, p) <= v.rows[t].createdAt
  {
    hide Claimable;
    var t, rest := ids[0], ids[1..];
    assert forall u :: EligibleIn(v, ids, p, u) <==> EligibleIn(v, rest, p, u) || (u == t && Eligible(v, t) && v.rows[t].project == p);
    if HasEligible(v, rest, p) {
      first := OldestIsLeast(v, rest, p);
      if EligibleIn(v, [t], p, t) && v.rows[t].createdAt < Oldest(v, rest, p) {
        first := t;
      }
    } else {
      first := t;
    }
  }

  /** The order of the projects, told from the rows: of two projects, the first has an eligible
      row older than every eligible row of the second, or as old as the oldest of them and then
      the smaller id. */
  lemma OlderFirst(v: View, i: nat, j: nat) returns (first: TaskId, second: TaskId)
    requires i < j < |EligibleProjects(v, v.ids)|
    ensures
      var ps := EligibleProjects(v, v.ids);
      && EligibleIn(v, v.ids, ps[i], first) && EligibleIn(v, v.ids, ps[j], second)
      && (forall t :: EligibleIn(v, v.ids, ps[j], t) ==> v.rows[first].createdAt <= v.rows[t].createdAt)
      && (v.rows[first].createdAt < v.rows[second].createdAt || (v.rows[first].createdAt == v.rows[second].createdAt && ps[i] < ps[j]))
      && (forall t :: EligibleIn(v, v.ids, ps[j], t) ==> v.rows[second].createdAt <= v.rows[t].createdAt)
      && (forall t :: EligibleIn(v, v.ids, ps[i], t) ==> v.rows[first].createdAt <= v.rows[t].createdAt)
  {
    hide Claimable, LexLe, Oldest;
    var ps := EligibleProjects(v, v.ids);
    ProjectsByAge(v, v.ids);
    assert ps[i] in ps && ps[j] in ps;
    hide EligibleProjects;
    first := OldestIsLeast(v, v.ids, ps[i]);
    second := OldestIsLeast(v, v.ids, ps[j]);
    LexPair(Oldest(v, v.ids, ps[i]), ps[i], Oldest(v, v.ids, ps[j]), ps[j]);
  }

  // ----- their windows

  /** The windows of the projects, one after the other. */
  function Windows(v: View, ps: seq<Project>, perProject: nat): seq<TaskId> {
    if ps == [] then [] else Windows(v, ps[..|ps| - 1], perProject) + Window(v, ps[|ps| - 1], perProject)
  }

  function Take(s: seq<TaskId>, n: nat): seq<TaskId> {
    if n < |s| then s[..n] else s
  }

  /** All candidates, before the scan limit. */
  function Candidates(v: View, perProject: nat): seq<TaskId> {
    Windows(v, EligibleProjects(v, v.ids), perProject)
  }

  lemma WindowNonEmpty(v: View, p: Project, limit: nat)
    requires ValidView(v) && HasEligible(v, v.ids, p) && limit >= 1
    ensures Window(v, p, limit) != []
  {
    var t :| t in v.ids && Eligible(v, t) && v.rows[t].project == p;
    hide Eligible, FirstOfItem;
    ShortWindowHasAll(v, p, t);
  }

  /** The windows of `n` projects have at least `n` rows. */
  lemma {:induction false} WindowsLength(v: View, ps: seq<Project>, perProject: nat)
    requires ValidView(v) && perProject >= 1 && forall p :: p in ps ==> HasEligible(v, v.ids, p)
    ensures |Windows(v, ps, perProject)| >= |ps|
  {
    hide Window;
    if ps != [] {
      WindowsLength(v, ps[..|ps| - 1], perProject);
      WindowNonEmpty(v, ps[|ps| - 1], perProject);
    }
  }

  /** Further projects only add rows at the end. */
  lemma {:induction false} WindowsPrefix(v: View, ps: seq<Project>, n: nat, perProject: nat)
    requires n <= |ps|
    ensures Windows(v, ps[..n], perProject) <= Windows(v, ps, perProject)
    decreases |ps|
  {
    hide Window;
    if n == |ps| {
      assert ps[..n] == ps;
    } else {
      WindowsPrefix(v, ps[..|ps| - 1], n, perProject);
      assert ps[..|ps| - 1][..n] == ps[..n];
    }
  }

  lemma TakePrefix(xs: seq<TaskId>, ys: seq<TaskId>, n: nat)
    requires xs <= ys && n <= |xs|
    ensures Take(xs, n) == Take(ys, n)
  {
  }

  lemma TakeNext(xs: seq<TaskId>, w: seq<TaskId>, n: nat)
    ensures |Take(xs, n)| <= n
    ensures Take(xs + w, n) == Take(xs, n) + Take(w, n - |Take(xs, n)|)
    ensures |xs + w| > n <==> |xs| > n || |w| > n - |Take(xs, n)|
  {
  }

  /** `_claim_candidates`: the first `scanLimit` rows of the windows of all eligible
      projects, oldest project first. `cut` tells whether the limit cut anything off. */
  method ClaimCandidates(v: View, scanLimit: nat, perProject: nat) returns (tasks: seq<TaskId>, cut: bool)
    requires ValidView(v) && perProject >= 1
    ensures tasks == Take(Candidates(v, perProject), scanLimit)
    ensures cut <==> |Candidates(v, perProject)| > scanLimit
  {
    hide Window, ValidView, Take, EligibleProjects;
    var all := EligibleProjects(v, v.ids);
    var projects := if |all| > scanLimit then all[..scanLimit] else all;
    tasks := [];
    cut := |all| > scanLimit;
    EmptyTake(scanLimit);
    for i := 0 to |projects|
      invariant tasks == Take(Windows(v, projects[..i], perProject), scanLimit)
      invariant cut <==> |all| > scanLimit || |Windows(v, projects[..i], perProject)| > scanLimit
    {
      assert projects[..i + 1][..i] == projects[..i];
      var window := Window(v, projects[i], perProject);
      TakeNext(Windows(v, projects[..i], perProject), window, scanLimit);
      cut := cut || |window| > scanLimit - |tasks|;
      tasks := tasks + Take(window, scanLimit - |tasks|);
    }
    assert projects[..|projects|] == projects;
    if |all| > scanLimit {
      WindowsLength(v, all, perProject);
      WindowsLength(v, projects, perProject);
      WindowsPrefix(v, all, scanLimit, perProject);
      TakePrefix(Windows(v, projects, perProject), Windows(v, all, perProject), scanLimit);
    }
  }

  lemma EmptyTake(n: nat)
    ensures Take([], n) == []
  {
  }

  // ----- what the candidates are

  lemma WindowMembers(v: View, p: Project, limit: nat)
    requires ValidView(v)
    ensures forall t :: t in Window(v, p, limit) ==> t in v.rows && v.rows[t].project == p && FirstOfItem(v, t)
    ensures InOrder(v.rows, Window(v, p, limit)) && Distinct(Window(v, p, limit))
  {
    var full := FullWindow(v, v.ids, p);
    FullWindowShape(v, v.ids, p);
    assert forall t :: t in Window(v, p, limit) ==> t in full;
  }

  /** First rows of their items, in episode order within each project, no item twice. */
  ghost predicate CandidatesOk(v: View, tasks: seq<TaskId>) {
    && (forall t :: t in tasks ==> t in v.rows && FirstOfItem(v, t))
    && (forall i, j :: 0 <= i < j < |tasks| && v.rows[tasks[i]].project == v.rows[tasks[j]].project ==> EpisodeLe(v.rows, tasks[i], tasks[j]))
    && (forall i, j :: 0 <= i < j < |tasks| ==> v.rows[tasks[i]].item != v.rows[tasks[j]].item)
  }

  lemma WindowAppends(v: View, tasks: seq<TaskId>, p: Project, perProject: nat)
    requires ValidView(v) && OneProjectPerItem(v.rows) && CandidatesOk(v, tasks)
    requires forall t :: t in tasks ==> v.rows[t].project != p
    ensures CandidatesOk(v, tasks + Window(v, p, perProject))
  {
    hide FirstOfItem, EpisodeLe, Window;
    var w := Window(v, p, perProject);
    WindowMembers(v, p, perProject);
    var all := tasks + w;
    forall i, j | 0 <= i < j < |all| ensures v.rows[all[i]].item != v.rows[all[j]].item {
      if i >= |tasks| {
        assert all[i] in w && all[j] in w && all[i] == w[i - |tasks|] && all[j] == w[j - |tasks|];
        FirstRowsDifferInItem(v, all[i], all[j]);
      } else if j >= |tasks| {
        assert all[i] in tasks && all[j] in w;
      }
    }
  }

  lemma {:induction false} WindowsAreCandidates(v: View, ps: seq<Project>, perProject: nat)
    requires ValidView(v) && OneProjectPerItem(v.rows) && forall i, j :: 0 <= i < j < |ps| ==> ps[i] != ps[j]
    ensures CandidatesOk(v, Windows(v, ps, perProject))
    ensures forall t :: t in Windows(v, ps, perProject) ==> v.rows[t].project in ps
    ensures forall p, t :: p in ps && t in Window(v, p, perProject) ==> t in Windows(v, ps, perProject)
  {
    hide FirstOfItem, EpisodeLe, Window, OneProjectPerItem, ValidView;
    if ps != [] {
      var n := |ps| - 1;
      WindowsAreCandidates(v, ps[..n], perProject);
      WindowMembers(v, ps[n], perProject);
      WindowAppends(v, Windows(v, ps[..n], perProject), ps[n], perProject);
      assert ps == ps[..n] + [ps[n]];
    }
  }

  lemma CandidatesPrefix(v: View, tasks: seq<TaskId>, n: nat)
    requires CandidatesOk(v, tasks)
    ensures CandidatesOk(v, Take(tasks, n))
  {
    hide FirstOfItem, EpisodeLe;
  }

  lemma CandidatesShape(v: View, perProject: nat, scanLimit: nat)
    requires ValidView(v) && OneProjectPerItem(v.rows)
    ensures CandidatesOk(v, Take(Candidates(v, perProject), scanLimit)) && CandidatesOk(v, Candidates(v, perProject))
    ensures forall p, t :: HasEligible(v, v.ids, p) && t in Window(v, p, perProject) ==> t in Candidates(v, perProject)
  {
    hide CandidatesOk, Window, Take;
    ProjectsByAge(v, v.ids);
    WindowsAreCandidates(v, EligibleProjects(v, v.ids), perProject);
    CandidatesPrefix(v, Candidates(v, perProject), scanLimit);
  }

  // ----- how many there can be

  /** The items that have an eligible row. */
  ghost function EligibleItems(v: View): set<Item> {
    set t | t in v.rows && Eligible(v, t) :: v.rows[t].item
  }

  lemma ItemsSnoc(rows: Rows, tasks: seq<TaskId>, t: TaskId)
    requires t in rows && forall u :: u in tasks ==> u in rows
    ensures ItemsOf(rows, tasks + [t]) == ItemsOf(rows, tasks) + {rows[t].item}
  {
  }

  lemma {:induction false} DistinctItems(rows: Rows, tasks: seq<TaskId>)
    requires forall t :: t in tasks ==> t in rows
    requires forall i, j :: 0 <= i < j < |tasks| ==> rows[tasks[i]].item != rows[tasks[j]].item
    ensures |ItemsOf(rows, tasks)| == |tasks|
  {
    if tasks == [] {
      assert ItemsOf(rows, tasks) == {};
    } else {
      var n := |tasks| - 1;
      var init := tasks[..n];
      DistinctItems(rows, init);
      assert rows[tasks[n]].item !in ItemsOf(rows, init);
      assert tasks == init + [tasks[n]];
      ItemsSnoc(rows, init, tasks[n]);
    }
  }

  lemma SubsetSize(a: set<Item>, b: set<Item>)
    requires a <= b
    ensures |a| <= |b|
  {
    assert b == a + (b - a);
  }

  /** There are at most as many candidates as items with an eligible row. */
  lemma CandidatesBounded(v: View, perProject: nat)
    requires ValidView(v) && OneProjectPerItem(v.rows)
    ensures |Candidates(v, perProject)| <= |EligibleItems(v)|
  {
    hide Eligible, Candidates, Window;
    var tasks := Candidates(v, perProject);
    CandidatesShape(v, perProject, 0);
    DistinctItems(v.rows, tasks);
    var items := ItemsOf(v.rows, tasks);
    forall x | x in items ensures x in EligibleItems(v) {
      var t :| t in tasks && v.rows[t].item == x;
      assert FirstOfItem(v, t);
    }
    SubsetSize(items, EligibleItems(v));
  }
}
