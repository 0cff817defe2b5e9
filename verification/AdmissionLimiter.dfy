/** The upload admission limiter: counters per principal and per upload, a total and a set of
    exclusively held uploads, against the leases that are still held. */
module AdmissionLimiter {
  import opened Sums
  import opened Wrappers

  type LeaseId = nat

  datatype Limits = Limits(perPrincipal: int, perUpload: int, total: int)

  /** What a part lease was given for. */
  datatype Ticket = Ticket(principal: string, upload: string)

  /** The limiter's fields. */
  datatype Book = Book(total: int, byPrincipal: map<string, int>, byUpload: map<string, int>, exclusive: set<string>)

  const BLANK := Book(0, map[], map[], {})

  function Count(counts: map<string, int>, key: string): int {
    if key in counts then counts[key] else 0
  }

  /** Count one down, dropping the key when the count was one. */
  function Less(counts: map<string, int>, key: string): map<string, int> {
    if Count(counts, key) == 1 then counts - {key} else counts[key := Count(counts, key) - 1]
  }

  function More(counts: map<string, int>, key: string): map<string, int> {
    counts[key := Count(counts, key) + 1]
  }

  predicate InvalidRequest(t: Ticket, limits: Limits) {
    t.principal == "" || limits.perPrincipal < 1 || limits.perUpload < 1 || limits.total < 1
  }

  predicate Refused(b: Book, t: Ticket, limits: Limits) {
    || t.upload in b.exclusive || b.total >= limits.total
    || Count(b.byPrincipal, t.principal) >= limits.perPrincipal || Count(b.byUpload, t.upload) >= limits.perUpload
  }

  lemma SumLess(counts: map<string, int>, key: string)
    requires key in counts
    ensures Sum(Less(counts, key)) == Sum(counts) - 1
  {
    hide Sum;
    if counts[key] == 1 {
      SumWithout(counts, key);
    } else {
      SumSet(counts, key, counts[key] - 1);
    }
  }

  // ----- the held leases

  type Live = map<LeaseId, Ticket>

  datatype Side = ByPrincipal | ByUpload

  function KeyOf(side: Side, t: Ticket): string {
    if side == ByPrincipal then t.principal else t.upload
  }

  /** The held leases counted under a key. */
  ghost function Held(live: Live, side: Side, key: string): set<LeaseId> {
    set i | i in live && KeyOf(side, live[i]) == key
  }

  /** The counters of one side tell the number of held leases, key by key and in sum, and a
      key is present exactly while it counts something. */
  ghost predicate Counted(counts: map<string, int>, live: Live, side: Side) {
    && Sum(counts) == |live|
    && (forall key :: Count(counts, key) == |Held(live, side, key)|)
    && Positive(counts)
  }

  lemma HeldMore(live: Live, side: Side, id: LeaseId, t: Ticket, key: string)
    requires id !in live
    ensures |Held(live[id := t], side, key)| == |Held(live, side, key)| + if key == KeyOf(side, t) then 1 else 0
  {
    assert Held(live[id := t], side, key) == if key == KeyOf(side, t) then Held(live, side, key) + {id} else Held(live, side, key);
  }

  lemma HeldLess(live: Live, side: Side, id: LeaseId, key: string)
    requires id in live
    ensures |Held(live - {id}, side, key)| == |Held(live, side, key)| - if key == KeyOf(side, live[id]) then 1 else 0
  {
    assert Held(live - {id}, side, key) == Held(live, side, key) - {id};
  }

  ghost predicate Positive(counts: map<string, int>) {
    forall key :: key in counts ==> counts[key] > 0
  }

  lemma MorePositive(counts: map<string, int>, key: string)
    requires Positive(counts)
    ensures Positive(More(counts, key))
  {
  }

  lemma LessPositive(counts: map<string, int>, key: string)
    requires Positive(counts) && key in counts
    ensures Positive(Less(counts, key))
  {
  }

  lemma CountOne(counts: map<string, int>, key: string, k: string)
    ensures Count(More(counts, key), k) == Count(counts, k) + if k == key then 1 else 0
    ensures Count(Less(counts, key), k) == Count(counts, k) - if k == key then 1 else 0
  {
  }

  lemma CountedMore(counts: map<string, int>, live: Live, side: Side, id: LeaseId, t: Ticket)
    requires Counted(counts, live, side) && id !in live
    ensures Counted(More(counts, KeyOf(side, t)), live[id := t], side)
  {
    hide Held, Sum, KeyOf, Positive, Count, More;
    var key, live' := KeyOf(side, t), live[id := t];
    SumMore(counts, key);
    MorePositive(counts, key);
    LiveSize(live, id, t);
    forall k ensures Count(More(counts, key), k) == |Held(live', side, k)| {
      CountOne(counts, key, k);
      HeldMore(live, side, id, t, k);
    }
  }

  lemma CountedLess(counts: map<string, int>, live: Live, side: Side, id: LeaseId)
    requires Counted(counts, live, side) && id in live
    ensures KeyOf(side, live[id]) in counts
    ensures Counted(Less(counts, KeyOf(side, live[id])), live - {id}, side)
  {
    hide Held, Sum, KeyOf, Positive, Less;
    var key, live' := KeyOf(side, live[id]), live - {id};
    HeldLess(live, side, id, key);
    assert Count(counts, key) > 0;
    SumLess(counts, key);
    LessPositive(counts, key);
    LiveSize(live, id, live[id]);
    hide Count;
    forall k ensures Count(Less(counts, key), k) == |Held(live', side, k)| {
      CountOne(counts, key, k);
      HeldLess(live, side, id, k);
    }
  }

  lemma SumMore(counts: map<string, int>, key: string)
    ensures Sum(More(counts, key)) == Sum(counts) + 1
  {
    hide Sum;
    SumSet(counts, key, Count(counts, key) + 1);
  }

  lemma LiveSize(live: Live, id: LeaseId, t: Ticket)
    ensures id !in live ==> |live[id := t]| == |live| + 1
    ensures id in live ==> |live - {id}| == |live| - 1
  {
    assert live[id := t].Keys == live.Keys + {id} && (live - {id}).Keys == live.Keys - {id};
  }

  lemma NoneCounted(counts: map<string, int>, side: Side)
    requires Counted(counts, map[], side)
    ensures counts == map[]
  {
    hide Sum;
    forall key ensures key !in counts {
      assert Count(counts, key) == |Held(map[], side, key)|;
      assert Held(map[], side, key) == {};
    }
  }

  lemma NothingCounted(side: Side)
    ensures Counted(map[], map[], side)
  {
    forall key ensures Held(map[], side, key) == {} {
    }
  }

  /** The book is exactly what the held leases say, and no upload is both exclusively held
      and in use. */
  ghost predicate Refines(b: Book, live: Live, owners: map<LeaseId, string>) {
    && b.total == |live| && Counted(b.byPrincipal, live, ByPrincipal) && Counted(b.byUpload, live, ByUpload)
    && b.exclusive == owners.Values && Unshared(owners)
    && b.exclusive !! b.byUpload.Keys
  }

  ghost predicate Unshared(owners: map<LeaseId, string>) {
    forall i, j :: i in owners && j in owners && i != j ==> owners[i] != owners[j]
  }

  // ----- the four operations

  /** The book with the leases held so far; `next` is the id of the next lease. */
  datatype State = State(book: Book, live: Live, owners: map<LeaseId, string>, next: LeaseId)

  datatype Op = Acquire(ticket: Ticket, limits: Limits) | AcquireExclusive(upload: string) | Release(lease: LeaseId) | ReleaseExclusive(lease: LeaseId)

  function Admitted(b: Book, t: Ticket): Book {
    b.(total := b.total + 1, byPrincipal := More(b.byPrincipal, t.principal), byUpload := More(b.byUpload, t.upload))
  }

  function Returned(b: Book, t: Ticket): Book {
    b.(total := b.total - 1, byPrincipal := Less(b.byPrincipal, t.principal), byUpload := Less(b.byUpload, t.upload))
  }

  function Apply(s: State, op: Op): State {
    match op
    case Acquire(t, limits) =>
      if InvalidRequest(t, limits) || Refused(s.book, t, limits) then s
      else s.(book := Admitted(s.book, t), live := s.live[s.next := t], next := s.next + 1)
    case AcquireExclusive(u) =>
      if u == "" || u in s.book.exclusive || Count(s.book.byUpload, u) > 0 then s
      else s.(book := s.book.(exclusive := s.book.exclusive + {u}), owners := s.owners[s.next := u], next := s.next + 1)
    case Release(i) =>
      if i !in s.live then s else s.(book := Returned(s.book, s.live[i]), live := s.live - {i})
    case ReleaseExclusive(i) =>
      if i !in s.owners then s else s.(book := s.book.(exclusive := s.book.exclusive - {s.owners[i]}), owners := s.owners - {i})
  }

  ghost predicate Inv(s: State) {
    && Refines(s.book, s.live, s.owners)
    && (forall i :: i in s.live ==> i < s.next) && (forall i :: i in s.owners ==> i < s.next)
  }

  /** Neither the total nor any counter exceeds its limit. */
  ghost predicate Within(b: Book, limits: Limits) {
    && b.total <= limits.total
    && (forall p :: p in b.byPrincipal ==> b.byPrincipal[p] <= limits.perPrincipal)
    && (forall u :: u in b.byUpload ==> b.byUpload[u] <= limits.perUpload)
  }

  lemma AcquireKeeps(s: State, t: Ticket, limits: Limits)
    requires Inv(s)
    ensures Inv(Apply(s, Acquire(t, limits)))
  {
    hide Sum, Held;
    if !InvalidRequest(t, limits) && !Refused(s.book, t, limits) {
      CountedMore(s.book.byPrincipal, s.live, ByPrincipal, s.next, t);
      CountedMore(s.book.byUpload, s.live, ByUpload, s.next, t);
      assert s.live[s.next := t].Keys == s.live.Keys + {s.next};
    }
  }

  lemma ReleaseKeeps(s: State, i: LeaseId)
    requires Inv(s)
    ensures Inv(Apply(s, Release(i)))
  {
    hide Sum, Held;
    if i in s.live {
      CountedLess(s.book.byPrincipal, s.live, ByPrincipal, i);
      CountedLess(s.book.byUpload, s.live, ByUpload, i);
      assert (s.live - {i}).Keys == s.live.Keys - {i};
    }
  }

  lemma OwnerRefines(b: Book, live: Live, owners: map<LeaseId, string>, i: LeaseId, u: string)
    requires Refines(b, live, owners) && i !in owners && u !in b.exclusive && Count(b.byUpload, u) <= 0
    ensures Refines(b.(exclusive := b.exclusive + {u}), live, owners[i := u])
  {
    hide Counted, Unshared, Count;
    OwnersAdd(owners, i, u);
    CountsOnlyHeld(b.byUpload, live, ByUpload, u);
    StillApart(b, u);
  }

  lemma ExclusiveKeeps(s: State, u: string)
    requires Inv(s)
    ensures Inv(Apply(s, AcquireExclusive(u)))
  {
    hide Refines, Count;
    if !(u == "" || u in s.book.exclusive || Count(s.book.byUpload, u) > 0) {
      OwnerRefines(s.book, s.live, s.owners, s.next, u);
    }
  }

  lemma CountsOnlyHeld(counts: map<string, int>, live: Live, side: Side, key: string)
    requires Counted(counts, live, side)
    ensures key in counts <==> Count(counts, key) > 0
  {
  }

  lemma ReleaseExclusiveKeeps(s: State, i: LeaseId)
    requires Inv(s)
    ensures Inv(Apply(s, ReleaseExclusive(i)))
  {
    hide Counted;
    if i in s.owners {
      OwnersDrop(s.owners, i);
    }
  }

  lemma StillApart(b: Book, u: string)
    requires b.exclusive !! b.byUpload.Keys && u !in b.byUpload
    ensures b.exclusive + {u} !! b.byUpload.Keys
  {
  }

  lemma OwnersAdd(owners: map<LeaseId, string>, i: LeaseId, u: string)
    requires i !in owners && Unshared(owners) && u !in owners.Values
    ensures owners[i := u].Values == owners.Values + {u} && Unshared(owners[i := u])
  {
    forall v | v in owners.Values + {u} ensures v in owners[i := u].Values {
      if v == u {
        assert owners[i := u][i] == u;
      } else {
        var j :| j in owners && owners[j] == v;
        assert owners[i := u][j] == v;
      }
    }
  }

  lemma OwnersDrop(owners: map<LeaseId, string>, i: LeaseId)
    requires i in owners && Unshared(owners)
    ensures (owners - {i}).Values == owners.Values - {owners[i]}
  {
    forall v | v in owners.Values - {owners[i]} ensures v in (owners - {i}).Values {
      var j :| j in owners && owners[j] == v;
      assert (owners - {i})[j] == v;
    }
  }

  ghost function Run(s: State, ops: seq<Op>): State {
    if ops == [] then s else Apply(Run(s, ops[..|ops| - 1]), ops[|ops| - 1])
  }

  const START := State(BLANK, map[], map[], 0)

  lemma ApplyKeeps(s: State, op: Op)
    requires Inv(s)
    ensures Inv(Apply(s, op))
  {
    hide Inv, Apply;
    match op
    case Acquire(t, limits) => AcquireKeeps(s, t, limits);
    case AcquireExclusive(u) => ExclusiveKeeps(s, u);
    case Release(i) => ReleaseKeeps(s, i);
    case ReleaseExclusive(i) => ReleaseExclusiveKeeps(s, i);
  }

  /** After every sequence of operations, each acquisition under limits of its own, the book
      is exactly what the held leases say. */
  lemma {:induction false} RunsRefine(ops: seq<Op>)
    ensures Inv(Run(START, ops))
  {
    hide Inv, Apply;
    if ops == [] {
      StartOk();
    } else {
      var n := |ops| - 1;
      RunsRefine(ops[..n]);
      ApplyKeeps(Run(START, ops[..n]), ops[n]);
    }
  }

  /** The limits of every acquisition are at most these. */
  ghost predicate LimitedBy(op: Op, limits: Limits) {
    op.Acquire? ==> op.limits.perPrincipal <= limits.perPrincipal && op.limits.perUpload <= limits.perUpload && op.limits.total <= limits.total
  }

  lemma StaysWithin(s: State, op: Op, limits: Limits)
    requires Inv(s) && Within(s.book, limits) && LimitedBy(op, limits)
    ensures Within(Apply(s, op).book, limits)
  {
    hide Sum, Held;
    if op.Release? && op.lease in s.live {
      CountedLess(s.book.byPrincipal, s.live, ByPrincipal, op.lease);
      CountedLess(s.book.byUpload, s.live, ByUpload, op.lease);
      hide Counted;
    }
  }

  /** Limits that no acquisition of the run goes beyond are never exceeded. */
  lemma {:induction false} RunsStayWithin(ops: seq<Op>, limits: Limits)
    requires limits.total >= 0 && forall i :: 0 <= i < |ops| ==> LimitedBy(ops[i], limits)
    ensures Within(Run(START, ops).book, limits)
  {
    hide Apply, Inv, LimitedBy;
    if ops != [] {
      var n := |ops| - 1;
      RunsStayWithin(ops[..n], limits);
      RunsRefine(ops[..n]);
      StaysWithin(Run(START, ops[..n]), ops[n], limits);
    }
  }

  lemma StartOk()
    ensures Inv(START)
  {
    NothingCounted(ByPrincipal);
    NothingCounted(ByUpload);
  }

  /** A lease is granted if and only if the arguments are valid, nobody holds the upload
      exclusively, and the held leases in all, of the principal and for the upload are each
      fewer than their limit; and then exactly that lease is added. */
  lemma AdmittedIff(s: State, t: Ticket, limits: Limits)
    requires Inv(s)
    ensures
      var s' := Apply(s, Acquire(t, limits));
      if && t.principal != "" && limits.perPrincipal >= 1 && limits.perUpload >= 1 && limits.total >= 1
         && (forall i :: i in s.owners ==> s.owners[i] != t.upload)
         && |s.live| < limits.total
         && |set i | i in s.live && s.live[i].principal == t.principal| < limits.perPrincipal
         && |set i | i in s.live && s.live[i].upload == t.upload| < limits.perUpload
      then s'.live == s.live[s.next := t] && s.next !in s.live && s'.owners == s.owners
      else s' == s
  {
    hide Sum, More;
    assert Count(s.book.byPrincipal, t.principal) == |Held(s.live, ByPrincipal, t.principal)|;
    assert Count(s.book.byUpload, t.upload) == |Held(s.live, ByUpload, t.upload)|;
    assert Held(s.live, ByPrincipal, t.principal) == set i | i in s.live && s.live[i].principal == t.principal;
    assert Held(s.live, ByUpload, t.upload) == set i | i in s.live && s.live[i].upload == t.upload;
    assert t.upload in s.owners.Values <==> exists i :: i in s.owners && s.owners[i] == t.upload;
    hide Counted, Count, Held;
  }

  /** Exclusive use is granted if and only if the upload has an id, nobody has it exclusively
      and no part of it is held. */
  lemma ExclusiveIff(s: State, u: string)
    requires Inv(s)
    ensures
      var s' := Apply(s, AcquireExclusive(u));
      if u != "" && (forall i :: i in s.owners ==> s.owners[i] != u) && (forall i :: i in s.live ==> s.live[i].upload != u)
      then s'.owners == s.owners[s.next := u] && s.next !in s.owners && s'.live == s.live
      else s' == s
  {
    hide Sum;
    assert Count(s.book.byUpload, u) == |Held(s.live, ByUpload, u)|;
    assert u in s.owners.Values <==> exists i :: i in s.owners && s.owners[i] == u;
    if i :| i in s.live && s.live[i].upload == u {
      assert i in Held(s.live, ByUpload, u);
    } else {
      assert Held(s.live, ByUpload, u) == {};
    }
    hide Counted, Count, Held;
  }

  /** A release takes away exactly the lease it names, if it is still held. */
  lemma ReleasedIff(s: State, i: LeaseId)
    ensures Apply(s, Release(i)).live == s.live - {i} && Apply(s, Release(i)).owners == s.owners
    ensures Apply(s, ReleaseExclusive(i)).owners == s.owners - {i} && Apply(s, ReleaseExclusive(i)).live == s.live
  {
    assert i !in s.live ==> s.live - {i} == s.live;
    assert i !in s.owners ==> s.owners - {i} == s.owners;
  }

  /** When every lease has been released, in whatever order, the limiter is as new. */
  lemma AllReturned(s: State)
    requires Inv(s) && s.live == map[] && s.owners == map[]
    ensures s.book == BLANK
  {
    hide Counted;
    NoneCounted(s.book.byPrincipal, ByPrincipal);
    NoneCounted(s.book.byUpload, ByUpload);
  }

  // ----- the objects

  class Limiter {
    var total: int
    var byPrincipal: map<string, int>
    var byUpload: map<string, int>
    var exclusive: set<string>
    ghost var live: Live
    ghost var owners: map<LeaseId, string>
    ghost var next: LeaseId
    ghost var parts: set<PartLease>            // every part lease ever issued
    ghost var operations: set<ExclusiveLease>  // every exclusive lease ever issued

    constructor ()
      ensures Valid() && Now() == START && parts == {} && operations == {}
    {
      total, byPrincipal, byUpload, exclusive := 0, map[], map[], {};
      live, owners, next, parts, operations := map[], map[], 0, {}, {};
      new;
      StartOk();
    }

    ghost function Now(): State
      reads this
    {
      State(Book(total, byPrincipal, byUpload, exclusive), live, owners, next)
    }

    /** The book is what the held leases say, and a lease object is unreleased exactly
        while it is held. */
    ghost predicate Valid()
      reads this, parts, operations
    {
      Inv(Now()) && PartsOk() && OperationsOk()
    }

    ghost predicate PartsOk()
      reads this, parts
    {
      && (forall l :: l in parts ==> PartOk(l))
      && (forall l, m :: l in parts && m in parts && l != m ==> l.id != m.id)
    }

    ghost predicate PartOk(l: PartLease)
      reads this, l
    {
      l.limiter == this && l.id < next && (l.released <==> l.id !in live) && (l.id in live ==> live[l.id] == l.ticket)
    }

    ghost predicate OperationsOk()
      reads this, operations
    {
      && (forall l :: l in operations ==> l.limiter == this && l.id < next && (l.released <==> l.id !in owners) && (l.id in owners ==> owners[l.id] == l.upload))
      && (forall l, m :: l in operations && m in operations && l != m ==> l.id != m.id)
    }

    /** `try_acquire`: raises, refuses or hands out a new lease. */
    method TryAcquire(principal: string, upload: string, limits: Limits) returns (r: Result<Option<PartLease>>)
      requires Valid()
      modifies this
      ensures Valid() && Now() == Apply(old(Now()), Acquire(Ticket(principal, upload), limits)) && operations == old(operations)
      ensures r.Stopped? <==> InvalidRequest(Ticket(principal, upload), limits)
      ensures r == Ok(None) <==> !InvalidRequest(Ticket(principal, upload), limits) && Refused(old(Now()).book, Ticket(principal, upload), limits)
      ensures r.Ok? && r.value.Some? ==> fresh(r.value.value) && !r.value.value.released && parts == old(parts) + {r.value.value}
      ensures r.Ok? && r.value.None? ==> parts == old(parts)
    {
      hide Inv, PartsOk, OperationsOk, Admitted, Count;
      ApplyKeeps(Now(), Acquire(Ticket(principal, upload), limits));
      if principal == "" || limits.perPrincipal < 1 || limits.perUpload < 1 || limits.total < 1 {
        return Stopped(Raised);
      }
      var principalCount, uploadCount := Count(byPrincipal, principal), Count(byUpload, upload);
      if upload in exclusive || total >= limits.total || principalCount >= limits.perPrincipal || uploadCount >= limits.perUpload {
        return Ok(None);
      }
      var lease := Admit(Ticket(principal, upload), principalCount, uploadCount);
      return Ok(Some(lease));
    }

    /** The admitting branch of `try_acquire`. */
    method Admit(t: Ticket, principalCount: int, uploadCount: int) returns (lease: PartLease)
      requires Valid() && principalCount == Count(byPrincipal, t.principal) && uploadCount == Count(byUpload, t.upload)
      modifies this
      ensures PartsOk() && OperationsOk() && operations == old(operations)
      ensures fresh(lease) && !lease.released && parts == old(parts) + {lease}
      ensures
        var s := old(Now());
        Now() == s.(book := Admitted(s.book, t), live := s.live[s.next := t], next := s.next + 1)
    {
      hide Inv, Count, More;
      NextIsNew(Now());
      AddsOne(byPrincipal, t.principal);
      AddsOne(byUpload, t.upload);
      lease := new PartLease(this, t, next);
      total := total + 1;
      byPrincipal := byPrincipal[t.principal := principalCount + 1];
      byUpload := byUpload[t.upload := uploadCount + 1];
      live, next, parts := live[next := t], next + 1, parts + {lease};
    }

    /** `try_acquire_exclusive` */
    method TryAcquireExclusive(upload: string) returns (r: Result<Option<ExclusiveLease>>)
      requires Valid()
      modifies this
      ensures Valid() && Now() == Apply(old(Now()), AcquireExclusive(upload)) && parts == old(parts)
      ensures r.Stopped? <==> upload == ""
      ensures r == Ok(None) <==> upload != "" && (upload in old(exclusive) || Count(old(byUpload), upload) > 0)
      ensures r.Ok? && r.value.Some? ==> fresh(r.value.value) && !r.value.value.released && operations == old(operations) + {r.value.value}
      ensures r.Ok? && r.value.None? ==> operations == old(operations)
    {
      hide Inv;
      ApplyKeeps(Now(), AcquireExclusive(upload));
      if upload == "" {
        return Stopped(Raised);
      }
      if upload in exclusive || Count(byUpload, upload) > 0 {
        return Ok(None);
      }
      NextIsNew(Now());
      var lease := new ExclusiveLease(this, upload, next);
      exclusive := exclusive + {upload};
      owners, next, operations := owners[next := upload], next + 1, operations + {lease};
      return Ok(Some(lease));
    }

    /** `_release`: the keys looked up are always present. */
    method ReleaseTicket(t: Ticket, ghost id: LeaseId)
      requires Inv(Now()) && id in live && live[id] == t
      modifies this
      ensures Now() == Apply(old(Now()), Release(id)) && parts == old(parts) && operations == old(operations)
    {
      hide Inv, Counted;
      HeldKeys(Now(), id);
      var principalCount, uploadCount := byPrincipal[t.principal], byUpload[t.upload];
      byPrincipal := if principalCount == 1 then byPrincipal - {t.principal} else byPrincipal[t.principal := principalCount - 1];
      byUpload := if uploadCount == 1 then byUpload - {t.upload} else byUpload[t.upload := uploadCount - 1];
      total := total - 1;
      live := live - {id};
    }
  }

  lemma AddsOne(counts: map<string, int>, key: string)
    ensures counts[key := Count(counts, key) + 1] == More(counts, key)
  {
  }

  lemma NextIsNew(s: State)
    requires Inv(s)
    ensures s.next !in s.live && s.next !in s.owners
  {
  }

  lemma HeldKeys(s: State, id: LeaseId)
    requires Inv(s) && id in s.live
    ensures s.live[id].principal in s.book.byPrincipal && s.live[id].upload in s.book.byUpload
  {
    hide Counted;
    CountedLess(s.book.byPrincipal, s.live, ByPrincipal, id);
    CountedLess(s.book.byUpload, s.live, ByUpload, id);
  }

  class PartLease {
    const limiter: Limiter
    const ticket: Ticket
    ghost const id: LeaseId
    var released: bool

    constructor (limiter: Limiter, ticket: Ticket, ghost id: LeaseId)
      ensures this.limiter == limiter && this.ticket == ticket && this.id == id && !released
    {
      this.limiter, this.ticket, this.id, released := limiter, ticket, id, false;
    }

    /** `release`: the first call gives the lease back, any later call does nothing. */
    method Return()
      requires limiter.Valid() && this in limiter.parts
      modifies this, limiter
      ensures limiter.Valid() && released && limiter.parts == old(limiter.parts) && limiter.operations == old(limiter.operations)
      ensures limiter.Now() == Apply(old(limiter.Now()), Release(id))
      ensures old(released) ==> limiter.Now() == old(limiter.Now())
    {
      hide Inv;
      if released {
        return;
      }
      ApplyKeeps(limiter.Now(), Release(id));
      released := true;
      limiter.ReleaseTicket(ticket, id);
    }
  }

  class ExclusiveLease {
    const limiter: Limiter
    const upload: string
    ghost const id: LeaseId
    var released: bool

    constructor (limiter: Limiter, upload: string, ghost id: LeaseId)
      ensures this.limiter == limiter && this.upload == upload && this.id == id && !released
    {
      this.limiter, this.upload, this.id, released := limiter, upload, id, false;
    }

    method Return()
      requires limiter.Valid() && this in limiter.operations
      modifies this, limiter
      ensures limiter.Valid() && released && limiter.parts == old(limiter.parts) && limiter.operations == old(limiter.operations)
      ensures limiter.Now() == Apply(old(limiter.Now()), ReleaseExclusive(id))
      ensures old(released) ==> limiter.Now() == old(limiter.Now())
    {
      hide Inv;
      if released {
        return;
      }
      ApplyKeeps(limiter.Now(), ReleaseExclusive(id));
      released := true;
      limiter.exclusive := limiter.exclusive - {upload};
      limiter.owners := limiter.owners - {id};
    }
  }
}
