/** Storage mutation locks: a transaction takes the locks of its targets in ascending order
    and keeps them until it ends. */
module StorageLocks {
  import opened Lexicographic
  import opened Sums
  import opened Wrappers

  // ----- canonical targets

  /** `s.split("/")` */
  function Segments(s: string): (parts: seq<string>)
    ensures |parts| >= 1
  {
    if s == "" then [""]
    else
      var rest := Segments(s[1..]);
      if s[0] == '/' then [""] + rest else [[s[0]] + rest[0]] + rest[1..]
  }

  /** The parts of a relative POSIX path: empty and `.` segments do not count. */
  function Kept(segments: seq<string>): seq<string> {
    if segments == [] then []
    else
      var rest := Kept(segments[1..]);
      if segments[0] == "" || segments[0] == "." then rest else [segments[0]] + rest
  }

  /** `_canonical_target` */
  function CanonicalTarget(logical: string): Option<string> {
    var parts := Kept(Segments(logical));
    if (logical != "" && logical[0] == '/') || |parts| != 2 || (parts[0] != "files" && parts[0] != "packages") || parts[1] == ".." then None
    else Some(parts[0] + "/" + parts[1])
  }

  predicate Plain(s: string) { '/' !in s }

  lemma {:induction false} SegmentsPlain(s: string, i: nat)
    requires i < |Segments(s)|
    ensures Plain(Segments(s)[i])
  {
    if s != "" {
      var rest := Segments(s[1..]);
      if s[0] == '/' {
        if i > 0 { SegmentsPlain(s[1..], i - 1); }
      } else {
        SegmentsPlain(s[1..], i);
      }
    }
  }

  lemma {:induction false} KeptFrom(segments: seq<string>, i: nat)
    requires i < |Kept(segments)|
    ensures Kept(segments)[i] in segments && Kept(segments)[i] != "" && Kept(segments)[i] != "."
  {
    var rest := Kept(segments[1..]);
    if segments[0] == "" || segments[0] == "." {
      KeptFrom(segments[1..], i);
    } else if i > 0 {
      KeptFrom(segments[1..], i - 1);
    }
  }

  lemma {:induction false} SegmentsOfPlain(s: string)
    requires Plain(s)
    ensures Segments(s) == [s]
  {
    if s != "" {
      SegmentsOfPlain(s[1..]);
      assert s == [s[0]] + s[1..];
    }
  }

  lemma {:induction false} SegmentsOfTwo(a: string, b: string)
    requires Plain(a) && Plain(b)
    ensures Segments(a + "/" + b) == [a, b]
  {
    if a == "" {
      SegmentsOfPlain(b);
      assert (a + "/" + b)[1..] == b;
    } else {
      SegmentsOfTwo(a[1..], b);
      assert (a + "/" + b)[1..] == a[1..] + "/" + b;
      assert a == [a[0]] + a[1..];
    }
  }

  /** A canonical target is a namespace and a plain name, and its own canonical form. */
  lemma CanonicalTwice(logical: string)
    requires CanonicalTarget(logical).Some?
    ensures
      var c := CanonicalTarget(logical).value;
      && CanonicalTarget(c) == Some(c)
      && exists space, name: string :: c == space + "/" + name && space in {"files", "packages"} && Plain(name) && name !in {"", ".", ".."}
  {
    var segments := Segments(logical);
    var parts := Kept(segments);
    KeptFrom(segments, 0);
    KeptFrom(segments, 1);
    var i :| 0 <= i < |segments| && segments[i] == parts[1];
    SegmentsPlain(logical, i);
    assert Plain(parts[0]);
    SegmentsOfTwo(parts[0], parts[1]);
    assert Kept([parts[1]]) == [parts[1]];
    assert [parts[0], parts[1]][1..] == [parts[1]];
    assert Kept([parts[0], parts[1]]) == [parts[0], parts[1]];
    hide Segments, Kept;
  }

  /** The inverse of `Segments`. */
  function Joined(parts: seq<string>): string
    requires parts != []
  {
    if |parts| == 1 then parts[0] else parts[0] + "/" + Joined(parts[1..])
  }

  lemma {:induction false} JoinedSegments(s: string)
    ensures Joined(Segments(s)) == s
  {
    if s != "" {
      var rest := Segments(s[1..]);
      JoinedSegments(s[1..]);
      if s[0] == '/' {
        assert ([""] + rest)[1..] == rest;
      } else {
        assert ([[s[0]] + rest[0]] + rest[1..])[1..] == rest[1..];
      }
    }
  }

  lemma {:induction false} SegmentsPrepend(a: string, s: string)
    requires Plain(a)
    ensures Segments(a + "/" + s) == [a] + Segments(s)
  {
    if a == "" {
      assert (a + "/" + s)[1..] == s;
    } else {
      assert (a + "/" + s)[1..] == a[1..] + "/" + s && a == [a[0]] + a[1..];
      SegmentsPrepend(a[1..], s);
    }
  }

  lemma {:induction false} SegmentsJoined(parts: seq<string>)
    requires parts != [] && forall i :: 0 <= i < |parts| ==> Plain(parts[i])
    ensures Segments(Joined(parts)) == parts
  {
    if |parts| == 1 {
      SegmentsOfPlain(parts[0]);
      assert parts == [parts[0]];
    } else {
      SegmentsPrepend(parts[0], Joined(parts[1..]));
      SegmentsJoined(parts[1..]);
      assert parts == [parts[0]] + parts[1..];
    }
  }

  /** No absolute path is canonical. */
  lemma AbsoluteIsRefused(rest: string)
    ensures CanonicalTarget("/" + rest).None?
  {
    hide Segments, Kept;
  }

  /** Of a namespace and a name without slashes: canonical if and only if the namespace is one
      of the two and the name is proper, and then it is its own canonical form. So the two
      namespaces, and different names, stay apart. */
  lemma CanonicalIff(space: string, name: string)
    requires Plain(space) && Plain(name)
    ensures CanonicalTarget(space + "/" + name) ==
      if (space == "files" || space == "packages") && name != "" && name != "." && name != ".." then Some(space + "/" + name) else None
  {
    SegmentsOfTwo(space, name);
    assert [space, name][1..] == [name] && [name][1..] == [];
    assert Kept([name]) == if name == "" || name == "." then [] else [name];
    assert Kept([space, name]) == (if space == "" || space == "." then [] else [space]) + Kept([name]);
    assert space == "" ==> (space + "/" + name)[0] == '/';
    assert space != "" ==> (space + "/" + name)[0] == space[0] && space[0] in space;
    hide Segments, Kept;
  }

  // ----- the order of acquisition

  function Codes(s: string): seq<nat> {
    seq(|s|, i requires 0 <= i < |s| => s[i] as nat)
  }

  predicate Before(x: string, y: string) {
    x != y && LexLe(Codes(x), Codes(y))
  }

  lemma CodesInjective(x: string, y: string)
    requires Codes(x) == Codes(y)
    ensures x == y
  {
    assert |x| == |Codes(x)| == |Codes(y)| == |y|;
    assert forall i :: 0 <= i < |x| ==> x[i] as nat == Codes(x)[i] == Codes(y)[i] == y[i] as nat;
  }

  lemma BeforeOrder(x: string, y: string, z: string)
    ensures x == y || Before(x, y) || Before(y, x)
    ensures !(Before(x, y) && Before(y, x))
    ensures Before(x, y) && Before(y, z) ==> Before(x, z)
  {
    hide LexLe, Codes;
    LexTotal(Codes(x), Codes(y));
    if LexLe(Codes(x), Codes(y)) && LexLe(Codes(y), Codes(x)) {
      CodesInjective(x, y);
    }
    if LexLe(Codes(x), Codes(y)) && LexLe(Codes(y), Codes(z)) {
      LexTransitive(Codes(x), Codes(y), Codes(z));
    }
    if x == z && LexLe(Codes(y), Codes(x)) && LexLe(Codes(x), Codes(y)) {
      CodesInjective(x, y);
    }
  }

  ghost predicate InLockOrder(ts: seq<string>) {
    forall i, j :: 0 <= i < j < |ts| ==> Before(ts[i], ts[j])
  }

  /** Insert into an ascending list, once. */
  method Insert(ts: seq<string>, t: string) returns (r: seq<string>)
    requires InLockOrder(ts)
    ensures InLockOrder(r) && forall x :: x in r <==> x in ts || x == t
  {
    hide Before;
    var k := 0;
    while k < |ts| && Before(ts[k], t)
      invariant 0 <= k <= |ts| && forall i :: 0 <= i < k ==> Before(ts[i], t)
    {
      k := k + 1;
    }
    if k < |ts| && ts[k] == t {
      return ts;
    }
    forall j | k <= j < |ts| ensures Before(t, ts[j]) {
      BeforeOrder(ts[k], t, t);
      BeforeOrder(t, ts[k], ts[j]);
    }
    r := ts[..k] + [t] + ts[k..];
    forall x ensures x in r <==> x in ts || x == t {
      assert x in ts <==> x in ts[..k] || x in ts[k..] by { assert ts == ts[..k] + ts[k..]; }
    }
  }

  /** The list a call acquires: the canonical targets, ascending and without repetition.
      A target that is not canonical stops the call before any lock is taken. */
  method SortedTargets(logical: seq<string>) returns (r: Result<seq<string>>)
    ensures r.Stopped? <==> exists l :: l in logical && CanonicalTarget(l).None?
    ensures r.Ok? ==> InLockOrder(r.value) && forall t :: t in r.value <==> exists l :: l in logical && CanonicalTarget(l) == Some(t)
  {
    hide CanonicalTarget, Before;
    var targets := [];
    for n := 0 to |logical|
      invariant InLockOrder(targets)
      invariant forall l :: l in logical[..n] ==> CanonicalTarget(l).Some?
      invariant forall t :: t in targets <==> exists l :: l in logical[..n] && CanonicalTarget(l) == Some(t)
    {
      var target := CanonicalTarget(logical[n]);
      if target.None? {
        assert logical[n] in logical;
        return Stopped(Raised);
      }
      assert logical[..n + 1] == logical[..n] + [logical[n]];
      targets := Insert(targets, target.value);
    }
    assert logical[..|logical|] == logical;
    return Ok(targets);
  }

  // ----- transactions

  type TxId = nat

  /** A transaction in its one call: it holds the first `got` of its targets, until it ends
      by commit or by abort. */
  datatype Tx = Tx(targets: seq<string>, got: nat, ended: bool)

  datatype State = State(txs: map<TxId, Tx>, owner: map<string, TxId>)

  datatype Step = Begin(tx: TxId, targets: seq<string>) | Acquire(tx: TxId) | End(tx: TxId)

  /** An unfinished transaction can step when its next lock is free, or when it has all. */
  predicate CanStep(s: State, x: TxId) {
    && x in s.txs && !s.txs[x].ended
    && (s.txs[x].got < |s.txs[x].targets| ==> s.txs[x].targets[s.txs[x].got] !in s.owner)
  }

  ghost function Apply(s: State, step: Step): State {
    match step
    case Begin(x, targets) =>
      if x in s.txs || !InLockOrder(targets) then s else s.(txs := s.txs[x := Tx(targets, 0, false)])
    case Acquire(x) =>
      if CanStep(s, x) && s.txs[x].got < |s.txs[x].targets| then
        State(s.txs[x := s.txs[x].(got := s.txs[x].got + 1)], s.owner[s.txs[x].targets[s.txs[x].got] := x])
      else s
    case End(x) =>
      if x in s.txs then State(s.txs[x := s.txs[x].(ended := true)], map t | t in s.owner && s.owner[t] != x :: s.owner[t]) else s
  }

  /** What the steps do: a new transaction starts with none of its locks; taking a free lock
      gives exactly that one; ending gives back exactly those it holds. */
  lemma StepsMean(s: State, x: TxId, targets: seq<string>)
    ensures x !in s.txs && InLockOrder(targets) ==> Apply(s, Begin(x, targets)) == s.(txs := s.txs[x := Tx(targets, 0, false)])
    ensures x in s.txs && !s.txs[x].ended && s.txs[x].got < |s.txs[x].targets| ==>
      var t := s.txs[x].targets[s.txs[x].got];
      Apply(s, Acquire(x)) == if t in s.owner then s else State(s.txs[x := s.txs[x].(got := s.txs[x].got + 1)], s.owner[t := x])
    ensures x in s.txs ==>
      var s' := Apply(s, End(x));
      && s'.txs == s.txs[x := s.txs[x].(ended := true)]
      && (forall t :: t in s'.owner <==> t in s.owner && s.owner[t] != x) && (forall t :: t in s'.owner ==> s'.owner[t] == s.owner[t])
  {
    hide InLockOrder;
  }

  ghost predicate TxOk(s: State, x: TxId, tx: Tx) {
    && tx.got <= |tx.targets| && InLockOrder(tx.targets)
    && (!tx.ended ==> forall i :: 0 <= i < tx.got ==> tx.targets[i] in s.owner && s.owner[tx.targets[i]] == x)
  }

  /** The lock is held by an unfinished transaction that acquired it. */
  ghost predicate LockOk(s: State, t: string, x: TxId) {
    x in s.txs && !s.txs[x].ended && s.txs[x].got <= |s.txs[x].targets| && t in s.txs[x].targets[..s.txs[x].got]
  }

  ghost predicate Inv(s: State) {
    && (forall x :: x in s.txs ==> TxOk(s, x, s.txs[x]))
    && (forall t :: t in s.owner ==> LockOk(s, t, s.owner[t]))
  }

  lemma AcquireKeepsLocks(s: State, x: TxId, t: string)
    requires Inv(s) && CanStep(s, x) && s.txs[x].got < |s.txs[x].targets| && t in Apply(s, Acquire(x)).owner
    ensures LockOk(Apply(s, Acquire(x)), t, Apply(s, Acquire(x)).owner[t])
  {
    hide TxOk, InLockOrder;
    var tx := s.txs[x];
    assert tx.targets[..tx.got + 1] == tx.targets[..tx.got] + [tx.targets[tx.got]];
    assert t in s.owner ==> LockOk(s, t, s.owner[t]);
  }

  lemma AcquireKeeps(s: State, x: TxId)
    requires Inv(s) && CanStep(s, x) && s.txs[x].got < |s.txs[x].targets|
    ensures Inv(Apply(s, Acquire(x)))
  {
    hide LockOk, InLockOrder;
    var s' := Apply(s, Acquire(x));
    forall t | t in s'.owner ensures LockOk(s', t, s'.owner[t]) {
      AcquireKeepsLocks(s, x, t);
    }
    forall y | y in s'.txs ensures TxOk(s', y, s'.txs[y]) {
      assert TxOk(s, y, s.txs[y]);
    }
  }

  lemma ApplyKeeps(s: State, step: Step)
    requires Inv(s)
    ensures Inv(Apply(s, step))
  {
    hide Before;
    match step
    case Begin(_, _) =>
    case Acquire(x) =>
      if CanStep(s, x) && s.txs[x].got < |s.txs[x].targets| {
        AcquireKeeps(s, x);
      }
    case End(x) =>
      var s' := Apply(s, step);
      forall y | y in s'.txs ensures TxOk(s', y, s'.txs[y]) {
        assert TxOk(s, y, s.txs[y]);
      }
  }

  ghost function Run(s: State, steps: seq<Step>): State {
    if steps == [] then s else Apply(Run(s, steps[..|steps| - 1]), steps[|steps| - 1])
  }

  const IDLE := State(map[], map[])

  lemma {:induction false} RunsKeepInvariant(s: State, steps: seq<Step>)
    requires Inv(s)
    ensures Inv(Run(s, steps))
  {
    hide Inv, Apply;
    if steps != [] {
      RunsKeepInvariant(s, steps[..|steps| - 1]);
      ApplyKeeps(Run(s, steps[..|steps| - 1]), steps[|steps| - 1]);
    }
  }

  // ----- no deadlock

  predicate Waits(s: State, x: TxId) {
    x in s.txs && !s.txs[x].ended && s.txs[x].got < |s.txs[x].targets|
  }

  function NextTarget(s: State, x: TxId): string
    requires Waits(s, x)
  {
    s.txs[x].targets[s.txs[x].got]
  }

  /** The transactions waiting for something after what `x` waits for. */
  ghost function WaitingAfter(s: State, x: TxId): set<TxId>
    requires Waits(s, x)
  {
    set y | y in s.txs && Waits(s, y) && Before(NextTarget(s, x), NextTarget(s, y))
  }

  /** Whoever holds the lock that `x` waits for waits, if at all, for a later one. */
  lemma HolderIsAhead(s: State, x: TxId)
    requires Inv(s) && Waits(s, x) && NextTarget(s, x) in s.owner
    ensures
      var y := s.owner[NextTarget(s, x)];
      y in s.txs && !s.txs[y].ended && (Waits(s, y) ==> Before(NextTarget(s, x), NextTarget(s, y)))
  {
    hide Before;
    var t := NextTarget(s, x);
    var y := s.owner[t];
    assert LockOk(s, t, y) && TxOk(s, y, s.txs[y]);
    var i :| 0 <= i < s.txs[y].got && s.txs[y].targets[i] == t;
  }

  /** Following the holders from any unfinished transaction leads to one that can step. */
  lemma {:induction false} FollowHolders(s: State, x: TxId) returns (free: TxId)
    requires Inv(s) && x in s.txs && !s.txs[x].ended
    ensures CanStep(s, free)
    decreases if Waits(s, x) then |WaitingAfter(s, x)| + 1 else 0
  {
    hide Before, Inv;
    if !Waits(s, x) || NextTarget(s, x) !in s.owner {
      return x;
    }
    HolderIsAhead(s, x);
    var y := s.owner[NextTarget(s, x)];
    if Waits(s, y) {
      forall z | z in WaitingAfter(s, y) ensures z in WaitingAfter(s, x) {
        BeforeOrder(NextTarget(s, x), NextTarget(s, y), NextTarget(s, z));
      }
      BeforeOrder(NextTarget(s, y), NextTarget(s, y), NextTarget(s, y));
      assert y in WaitingAfter(s, x) - WaitingAfter(s, y);
      SmallerSet(WaitingAfter(s, y), WaitingAfter(s, x), y);
    }
    free := FollowHolders(s, y);
  }

  lemma SmallerSet(a: set<TxId>, b: set<TxId>, y: TxId)
    requires a <= b && y in b && y !in a
    ensures |a| < |b|
  {
    assert |b - a| > 0 by { assert y in b - a; }
    assert b == a + (b - a);
  }

  /** In every state of every run, if a transaction is unfinished then some unfinished
      transaction can take its next lock or end. */
  lemma NoDeadlock(steps: seq<Step>, x: TxId)
    requires x in Run(IDLE, steps).txs && !Run(IDLE, steps).txs[x].ended
    ensures exists y :: CanStep(Run(IDLE, steps), y)
  {
    hide Apply, CanStep;
    RunsKeepInvariant(IDLE, steps);
    var y := FollowHolders(Run(IDLE, steps), x);
  }

  // ----- everyone finishes

  function StepsLeft(tx: Tx): int {
    if tx.ended then 0 else |tx.targets| - tx.got + 1
  }

  ghost function Left(s: State): map<TxId, int> {
    map x | x in s.txs :: StepsLeft(s.txs[x])
  }

  ghost function WorkLeft(s: State): int {
    Sum<TxId>(Left(s))
  }

  /** The step a transaction can take brings all work one nearer to its end. */
  function NextStep(s: State, x: TxId): Step
    requires x in s.txs
  {
    if s.txs[x].got < |s.txs[x].targets| then Acquire(x) else End(x)
  }

  lemma LeftAfter(s: State, x: TxId)
    requires Inv(s) && CanStep(s, x) && x in s.txs
    ensures x in Left(s) && Left(s)[x] > 0 && (forall y :: y in Left(s) ==> Left(s)[y] >= 0)
    ensures Left(Apply(s, NextStep(s, x))) == Left(s)[x := Left(s)[x] - 1]
  {
    hide InLockOrder;
    forall y | y in s.txs ensures s.txs[y].got <= |s.txs[y].targets| {
      assert TxOk(s, y, s.txs[y]);
    }
    hide TxOk, LockOk;
  }

  lemma StepWorks(s: State, x: TxId)
    requires Inv(s) && CanStep(s, x) && x in s.txs
    ensures WorkLeft(Apply(s, NextStep(s, x))) == WorkLeft(s) - 1 && WorkLeft(s) > 0
  {
    hide Inv, Apply, CanStep, Left, Sum;
    LeftAfter(s, x);
    var left := Left(s);
    SumSet<TxId>(left, x, left[x] - 1);
    SumWithout<TxId>(left, x);
    SumNonNegative<TxId>(left - {x});
  }

  /** No step of the run is an abort or idle: each is what its transaction does next, taking
      a free lock or ending with all its locks. */
  ghost predicate Productive(s: State, steps: seq<Step>) {
    forall i :: 0 <= i < |steps| ==> TakesItsTurn(Run(s, steps[..i]), steps[i])
  }

  ghost predicate TakesItsTurn(s: State, step: Step) {
    CanStep(s, step.tx) && step == NextStep(s, step.tx)
  }

  lemma TurnWorks(s: State, step: Step)
    requires Inv(s) && TakesItsTurn(s, step)
    ensures Inv(Apply(s, step)) && WorkLeft(Apply(s, step)) == WorkLeft(s) - 1 && WorkLeft(s) > 0
  {
    hide Inv, Apply, WorkLeft;
    StepWorks(s, step.tx);
    ApplyKeeps(s, step);
  }

  lemma ProductivePrefix(s: State, steps: seq<Step>)
    requires Productive(s, steps) && steps != []
    ensures Productive(s, steps[..|steps| - 1]) && TakesItsTurn(Run(s, steps[..|steps| - 1]), steps[|steps| - 1])
  {
    hide TakesItsTurn, Run;
    var init := steps[..|steps| - 1];
    forall i | 0 <= i < |init| ensures TakesItsTurn(Run(s, init[..i]), init[i]) {
      assert init[..i] == steps[..i];
    }
  }

  lemma ProductiveSnoc(s: State, steps: seq<Step>, step: Step)
    requires Productive(s, steps) && TakesItsTurn(Run(s, steps), step)
    ensures Productive(s, steps + [step]) && Run(s, steps + [step]) == Apply(Run(s, steps), step)
  {
    hide TakesItsTurn, Apply;
    var all := steps + [step];
    assert all[..|steps|] == steps;
    forall i | 0 <= i < |all| ensures TakesItsTurn(Run(s, all[..i]), all[i]) {
      assert i < |steps| ==> all[..i] == steps[..i];
    }
  }

  /** Every productive run uses up the work step by step, so it cannot be longer than the
      work there was. */
  lemma {:induction false} ProductiveRunsAreBounded(s: State, steps: seq<Step>)
    requires Inv(s) && Productive(s, steps)
    ensures Inv(Run(s, steps)) && 0 <= WorkLeft(Run(s, steps)) == WorkLeft(s) - |steps|
  {
    hide Inv, Apply, WorkLeft, Productive, TakesItsTurn;
    if steps == [] {
      WorkIsNonNegative(s);
    } else {
      var n := |steps| - 1;
      ProductivePrefix(s, steps);
      ProductiveRunsAreBounded(s, steps[..n]);
      TurnWorks(Run(s, steps[..n]), steps[n]);
    }
  }

  lemma WorkIsNonNegative(s: State)
    requires Inv(s)
    ensures WorkLeft(s) >= 0
  {
    hide Sum, InLockOrder;
    forall x | x in Left(s) ensures Left(s)[x] >= 0 {
      assert TxOk(s, x, s.txs[x]);
    }
    SumNonNegative<TxId>(Left(s));
  }

  /** Wherever a productive run stands, it can be continued productively until every
      transaction has got all its locks and ended, and it then has taken exactly as many
      steps as there was work. */
  lemma {:induction false} EveryoneEnds(s: State, steps: seq<Step>) returns (all: seq<Step>)
    requires Inv(s) && Productive(s, steps)
    ensures steps <= all && Productive(s, all) && |all| == WorkLeft(s)
    ensures forall x :: x in Run(s, all).txs ==> Run(s, all).txs[x].ended
    decreases WorkLeft(s) - |steps|
  {
    hide Inv, CanStep, Productive, Apply, WorkLeft, TakesItsTurn;
    ProductiveRunsAreBounded(s, steps);
    var now := Run(s, steps);
    if x :| x in now.txs && !now.txs[x].ended {
      var y := FollowHolders(now, x);
      CanStepIsTx(now, y);
      var next := NextStep(now, y);
      ItsTurn(now, y);
      TurnWorks(now, next);
      ProductiveSnoc(s, steps, next);
      all := EveryoneEnds(s, steps + [next]);
    } else {
      all := steps;
      NoWork(now);
    }
  }

  lemma ItsTurn(s: State, x: TxId)
    requires CanStep(s, x) && x in s.txs
    ensures TakesItsTurn(s, NextStep(s, x))
  {
  }

  lemma CanStepIsTx(s: State, x: TxId)
    requires CanStep(s, x)
    ensures x in s.txs
  {
  }

  lemma NoWork(s: State)
    requires forall x :: x in s.txs ==> s.txs[x].ended
    ensures WorkLeft(s) == 0
  {
    AllZero(Left(s));
  }

  lemma {:induction false} AllZero(left: map<TxId, int>)
    requires forall x :: x in left ==> left[x] == 0
    ensures Sum<TxId>(left) == 0
    decreases |left|
  {
    if left != map[] {
      var x :| x in left;
      SumWithout<TxId>(left, x);
      assert (left - {x}).Keys == left.Keys - {x};
      AllZero(left - {x});
    }
  }
}
