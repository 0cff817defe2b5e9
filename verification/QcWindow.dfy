/** The candidate window of `_claim_candidates`: for each project the oldest claimable row
    of every item, in episode order, cut off at a bound; and why the bound loses nothing. */
module QcWindow {
  import opened Basics
  import opened Wrappers
  import opened Lexicographic
  import opened QcTasks

  type Project = nat
  type Item = nat

  /** The query's world: the rows, an enumeration of their ids, the rows whose project is
      live and whose playback file is ready, the time and the attempt bound. */
  datatype View = View(rows: Rows, ids: seq<TaskId>, ready: set<TaskId>, now: Time, maxAttempts: nat)

  ghost predicate ValidView(v: View) {
    && (forall i, j :: 0 <= i < j < |v.ids| ==> v.ids[i] != v.ids[j])
    && (forall t :: t in v.ids <==> t in v.rows)
  }

  predicate Eligible(v: View, t: TaskId) {
    t in v.rows && t in v.ready && Claimable(v.rows[t], v.now, v.maxAttempts)
  }

  /** `row_number() over (partition by item order by created_at, id)` is 1. */
  predicate FirstOfItem(v: View, t: TaskId) {
    && Eligible(v, t)
    && forall u :: u in v.rows && Eligible(v, u) && v.rows[u].project == v.rows[t].project && v.rows[u].item == v.rows[t].item ==>
         LexLe([v.rows[t].createdAt, t], [v.rows[u].createdAt, u])
  }

  /** Episode order: rows without an episode last, then age, then id. */
  function EpisodeKey(r: Row, t: TaskId): seq<nat> {
    [if r.episode.None? then 1 else 0, if r.episode.None? then 0 else r.episode.value, r.createdAt, t]
  }

  predicate EpisodeLe(rows: Rows, t: TaskId, u: TaskId)
    requires t in rows && u in rows
  {
    LexLe(EpisodeKey(rows[t], t), EpisodeKey(rows[u], u))
  }

  function Insert(rows: Rows, t: TaskId, ts: seq<TaskId>): (r: seq<TaskId>)
    requires t in rows && forall u :: u in ts ==> u in rows
    ensures |r| == |ts| + 1 && forall u :: u in r <==> u == t || u in ts
  {
    if ts == [] || EpisodeLe(rows, t, ts[0]) then [t] + ts else [ts[0]] + Insert(rows, t, ts[1..])
  }

  /** All candidates of a project, in episode order. */
  function FullWindow(v: View, ids: seq<TaskId>, p: Project): (r: seq<TaskId>)
    ensures forall t :: t in r <==> t in ids && FirstOfItem(v, t) && v.rows[t].project == p
  {
    if ids == [] then []
    else
      var rest := FullWindow(v, ids[1..], p);
      if FirstOfItem(v, ids[0]) && v.rows[ids[0]].project == p then Insert(v.rows, ids[0], rest) else rest
  }

  function Window(v: View, p: Project, limit: nat): seq<TaskId> {
    var full := FullWindow(v, v.ids, p);
    if limit < |full| then full[..limit] else full
  }

  // ----- the window in order, one row per item

  ghost predicate InOrder(rows: Rows, ts: seq<TaskId>) {
    && (forall u :: u in ts ==> u in rows)
    && (forall i, j :: 0 <= i < j < |ts| ==> EpisodeLe(rows, ts[i], ts[j]))
  }

  lemma {:induction false} InsertInOrder(rows: Rows, t: TaskId, ts: seq<TaskId>)
    requires t in rows && InOrder(rows, ts)
    ensures InOrder(rows, Insert(rows, t, ts))
  {
    if ts == [] || EpisodeLe(rows, t, ts[0]) {
      forall j | 0 <= j < |ts| ensures EpisodeLe(rows, t, ts[j]) {
        if j > 0 {
          LexTransitive(EpisodeKey(rows[t], t), EpisodeKey(rows[ts[0]], ts[0]), EpisodeKey(rows[ts[j]], ts[j]));
        }
      }
    } else {
      InsertInOrder(rows, t, ts[1..]);
      LexTotal(EpisodeKey(rows[t], t), EpisodeKey(rows[ts[0]], ts[0]));
      var rest := Insert(rows, t, ts[1..]);
      forall j | 0 <= j < |rest| ensures EpisodeLe(rows, ts[0], rest[j]) {
        assert rest[j] in rest;
      }
    }
  }

  lemma {:induction false} InsertDistinct(rows: Rows, t: TaskId, ts: seq<TaskId>)
    requires t in rows && Distinct(ts) && t !in ts && forall u :: u in ts ==> u in rows
    ensures Distinct(Insert(rows, t, ts))
  {
    hide EpisodeLe;
    if ts != [] && !EpisodeLe(rows, t, ts[0]) {
      InsertDistinct(rows, t, ts[1..]);
      var rest := Insert(rows, t, ts[1..]);
      assert forall j :: 0 <= j < |rest| ==> rest[j] in rest;
    }
  }

  lemma {:induction false} FullWindowShape(v: View, ids: seq<TaskId>, p: Project)
    requires Distinct(ids) && forall t :: t in ids ==> t in v.rows
    ensures InOrder(v.rows, FullWindow(v, ids, p)) && Distinct(FullWindow(v, ids, p))
  {
    if ids != [] {
      FullWindowShape(v, ids[1..], p);
      if FirstOfItem(v, ids[0]) && v.rows[ids[0]].project == p {
        InsertInOrder(v.rows, ids[0], FullWindow(v, ids[1..], p));
        InsertDistinct(v.rows, ids[0], FullWindow(v, ids[1..], p));
      }
    }
  }

  /** Two different first rows of one project are of different items. */
  lemma FirstRowsDifferInItem(v: View, t: TaskId, u: TaskId)
    requires FirstOfItem(v, t) && FirstOfItem(v, u) && t != u && v.rows[t].project == v.rows[u].project
    ensures v.rows[t].item != v.rows[u].item
  {
    var a, b := [v.rows[t].createdAt, t], [v.rows[u].createdAt, u];
    assert a[1] != b[1];
    LexTotal(a, b);
  }

  // ----- sizes

  function ItemsOf(rows: Rows, ts: seq<TaskId>): set<Item>
    requires forall t :: t in ts ==> t in rows
  {
    set t | t in ts :: rows[t].item
  }

  lemma {:induction false} ItemsOfSize(v: View, p: Project, ts: seq<TaskId>)
    requires Distinct(ts) && forall t :: t in ts ==> t in v.rows && FirstOfItem(v, t) && v.rows[t].project == p
    ensures |ItemsOf(v.rows, ts)| == |ts|
  {
    if ts == [] {
      assert ItemsOf(v.rows, ts) == {};
    } else {
      var rest, x := ts[1..], v.rows[ts[0]].item;
      ItemsOfSize(v, p, rest);
      forall t | t in rest ensures v.rows[t].item != x {
        FirstRowsDifferInItem(v, ts[0], t);
      }
      assert ItemsOf(v.rows, ts) == ItemsOf(v.rows, rest) + {x};
    }
  }

  function RunningIn(rows: Rows, p: Project): set<TaskId> {
    set t | t in rows && rows[t].status == Running && rows[t].project == p
  }

  function RunningItems(rows: Rows): set<Item> {
    set t | t in rows && rows[t].status == Running :: rows[t].item
  }

  function ItemsIn(rows: Rows, ts: set<TaskId>): set<Item>
    requires ts <= rows.Keys
  {
    set t | t in ts :: rows[t].item
  }

  lemma {:induction false} ImageSize(rows: Rows, ts: set<TaskId>)
    requires ts <= rows.Keys
    ensures |ItemsIn(rows, ts)| <= |ts|
  {
    if ts == {} {
      assert ItemsIn(rows, ts) == {};
    } else {
      var t0 :| t0 in ts;
      ImageSize(rows, ts - {t0});
      assert ItemsIn(rows, ts) == ItemsIn(rows, ts - {t0}) + {rows[t0].item};
    }
  }

  lemma DifferenceSize(a: set<Item>, b: set<Item>)
    ensures |a - b| >= |a| - |b|
  {
    assert a == (a - b) + (a * b);
    assert b == (b - a) + (a * b);
  }

  /** Every eligible item has a first row. */
  lemma {:induction false} FirstRowExists(v: View, t: TaskId, left: set<TaskId>) returns (f: TaskId)
    requires Eligible(v, t) && left <= v.rows.Keys
    requires forall u ::
      u in v.rows && Eligible(v, u) && v.rows[u].project == v.rows[t].project && v.rows[u].item == v.rows[t].item && u !in left ==>
        LexLe([v.rows[t].createdAt, t], [v.rows[u].createdAt, u])
    ensures FirstOfItem(v, f) && v.rows[f].project == v.rows[t].project && v.rows[f].item == v.rows[t].item
    decreases left
  {
    if left == {} {
      f := t;
    } else {
      var u :| u in left;
      LexTotal([v.rows[t].createdAt, t], [v.rows[u].createdAt, u]);
      if Eligible(v, u) && v.rows[u].project == v.rows[t].project && v.rows[u].item == v.rows[t].item
         && LexLe([v.rows[u].createdAt, u], [v.rows[t].createdAt, t]) {
        forall x | x in v.rows && Eligible(v, x) && v.rows[x].project == v.rows[t].project && v.rows[x].item == v.rows[t].item && x !in left - {u}
          ensures LexLe([v.rows[u].createdAt, u], [v.rows[x].createdAt, x])
        {
          LexTotal([v.rows[u].createdAt, u], [v.rows[u].createdAt, u]);
          if x != u {
            LexTransitive([v.rows[u].createdAt, u], [v.rows[t].createdAt, t], [v.rows[x].createdAt, x]);
          }
        }
        f := FirstRowExists(v, u, left - {u});
      } else {
        f := FirstRowExists(v, t, left - {u});
      }
    }
  }

  /** An item belongs to one project (a foreign key says so). */
  ghost predicate OneProjectPerItem(rows: Rows) {
    forall t, u :: t in rows && u in rows && rows[t].item == rows[u].item ==> rows[t].project == rows[u].project
  }

  lemma ShortWindowHasAll(v: View, p: Project, t: TaskId)
    requires ValidView(v) && Eligible(v, t) && v.rows[t].project == p
    ensures forall u :: u in FullWindow(v, v.ids, p) ==> u in v.rows
    ensures v.rows[t].item in ItemsOf(v.rows, FullWindow(v, v.ids, p))
  {
    var f := FirstRowExists(v, t, v.rows.Keys);
    assert f in FullWindow(v, v.ids, p);
  }

  /** A running task that has an item of the project is a task of the project. */
  lemma BusyInProject(rows: Rows, p: Project, w: seq<TaskId>, x: Item)
    requires OneProjectPerItem(rows) && forall t :: t in w ==> t in rows && rows[t].project == p
    requires x in ItemsOf(rows, w)
    ensures x in RunningItems(rows) <==> x in ItemsIn(rows, RunningIn(rows, p))
  {
    var t :| t in w && rows[t].item == x;
    if x in RunningItems(rows) {
      var u :| u in rows && rows[u].status == Running && rows[u].item == x;
      assert rows[u].project == p && u in RunningIn(rows, p);
    }
  }

  lemma LongWindowHasRoom(v: View, p: Project, w: seq<TaskId>)
    requires OneProjectPerItem(v.rows) && Distinct(w)
    requires forall t :: t in w ==> t in v.rows && FirstOfItem(v, t) && v.rows[t].project == p
    ensures |ItemsOf(v.rows, w) - RunningItems(v.rows)| >= |w| - |RunningIn(v.rows, p)|
  {
    assert RunningIn(v.rows, p) <= v.rows.Keys;
    hide FirstOfItem, Distinct, OneProjectPerItem, RunningIn, RunningItems, ItemsIn, ItemsOf;
    var items, busy := ItemsOf(v.rows, w), ItemsIn(v.rows, RunningIn(v.rows, p));
    ItemsOfSize(v, p, w);
    ImageSize(v.rows, RunningIn(v.rows, p));
    DifferenceSize(items, busy);
    forall x | x in items ensures x in RunningItems(v.rows) <==> x in busy {
      BusyInProject(v.rows, p, w, x);
    }
    assert items - busy == items - RunningItems(v.rows);
  }

  /** The window of a project below its cap is enough: it holds enough items that are not
      running to fill the project's remaining capacity, or every eligible item at all. */
  lemma WindowLosesNothing(v: View, p: Project, cap: nat, limit: nat)
    requires ValidView(v) && OneProjectPerItem(v.rows)
    requires |RunningIn(v.rows, p)| < cap && limit == Max(8, 2 * cap)
    ensures forall t :: t in Window(v, p, limit) ==> t in v.rows
    ensures
      var items := ItemsOf(v.rows, Window(v, p, limit));
      || |items - RunningItems(v.rows)| >= cap - |RunningIn(v.rows, p)|
      || forall t :: t in v.rows && Eligible(v, t) && v.rows[t].project == p ==> v.rows[t].item in items
  {
    hide FirstOfItem, InOrder, Eligible, RunningItems, RunningIn, ItemsOf;
    var full, w := FullWindow(v, v.ids, p), Window(v, p, limit);
    FullWindowShape(v, v.ids, p);
    if |full| <= limit {
      forall t | t in v.rows && Eligible(v, t) && v.rows[t].project == p ensures v.rows[t].item in ItemsOf(v.rows, w) {
        ShortWindowHasAll(v, p, t);
      }
    } else {
      LongWindowHasRoom(v, p, w);
    }
  }

  // ----- the two orders, told from the rows

  /** Rows without an episode come last; otherwise the smaller episode, then the older row,
      then the smaller id. */
  lemma EpisodeOrder(rows: Rows, t: TaskId, u: TaskId)
    requires t in rows && u in rows
    ensures
      var a, b := rows[t], rows[u];
      EpisodeLe(rows, t, u) <==>
        || (a.episode.Some? && b.episode.None?)
        || (a.episode.Some? && b.episode.Some? && a.episode.value < b.episode.value)
        || (a.episode == b.episode && (a.createdAt < b.createdAt || (a.createdAt == b.createdAt && t <= u)))
  {
    hide LexLe;
    var a, b := rows[t], rows[u];
    var none, episode := (r: Row) => if r.episode.None? then 1 else 0, (r: Row) => if r.episode.None? then 0 else r.episode.value;
    assert EpisodeKey(a, t) == [none(a)] + ([episode(a)] + [a.createdAt, t]) && EpisodeKey(b, u) == [none(b)] + ([episode(b)] + [b.createdAt, u]);
    LexCons(none(a), [episode(a)] + [a.createdAt, t], none(b), [episode(b)] + [b.createdAt, u]);
    LexCons(episode(a), [a.createdAt, t], episode(b), [b.createdAt, u]);
    LexPair(a.createdAt, t, b.createdAt, u);
  }

  /** The row of an item that is considered: the oldest eligible one, by id when equally old. */
  lemma FirstIsOldest(v: View, t: TaskId)
    requires Eligible(v, t)
    ensures FirstOfItem(v, t) <==>
      forall u :: u in v.rows && Eligible(v, u) && v.rows[u].project == v.rows[t].project && v.rows[u].item == v.rows[t].item ==>
        v.rows[t].createdAt < v.rows[u].createdAt || (v.rows[t].createdAt == v.rows[u].createdAt && t <= u)
  {
    hide LexLe, Claimable;
    forall u | u in v.rows
      ensures LexLe([v.rows[t].createdAt, t], [v.rows[u].createdAt, u]) <==>
              v.rows[t].createdAt < v.rows[u].createdAt || (v.rows[t].createdAt == v.rows[u].createdAt && t <= u)
    {
      LexPair(v.rows[t].createdAt, t, v.rows[u].createdAt, u);
    }
  }
}
