/** The similarity graph of a project's thumbnails: the union-find rebuild of which frame
    each task wants, and the incremental update that must agree with it. */
module ThumbnailGroups {
  import opened DHash
  import opened SortedSets
  import opened UnionFind

  type Signatures = map<Id, string>

  const FRAME_ZERO := 0
  const FALLBACK_FRAME := 3000

  predicate Sim(sigs: Signatures, x: Id, y: Id) {
    x in sigs && y in sigs && x != y && SignaturesAreSimilar(sigs[x], sigs[y])
  }

  lemma SimSymmetric(sigs: Signatures, x: Id, y: Id)
    ensures Sim(sigs, x, y) == Sim(sigs, y, x)
  {
    hide SignaturesAreSimilar;
    if x in sigs && y in sigs {
      SimilarIsSymmetric(sigs[x], sigs[y]);
    }
  }

  // ----- paths

  ghost predicate IsPath(sigs: Signatures, p: seq<Id>) {
    && p != [] && (forall i :: 0 <= i < |p| ==> p[i] in sigs)
    && (forall i :: 0 <= i < |p| - 1 ==> Sim(sigs, p[i], p[i + 1]))
  }

  ghost predicate Joins(sigs: Signatures, p: seq<Id>, x: Id, y: Id) {
    IsPath(sigs, p) && p[0] == x && p[|p| - 1] == y
  }

  /** A similarity path joins the two tasks. */
  ghost predicate Joined(sigs: Signatures, x: Id, y: Id) {
    exists p :: Joins(sigs, p, x, y)
  }

  lemma ExtendPath(sigs: Signatures, x: Id, u: Id, v: Id)
    requires Joined(sigs, x, u) && Sim(sigs, u, v)
    ensures Joined(sigs, x, v)
  {
    hide Sim;
    var p :| Joins(sigs, p, x, u);
    assert v in sigs by { SimMembers(sigs, u, v); }
    assert Joins(sigs, p + [v], x, v);
  }

  lemma SimMembers(sigs: Signatures, u: Id, v: Id)
    requires Sim(sigs, u, v)
    ensures u in sigs && v in sigs && u != v
  {
  }

  // ----- roots follow the edges

  type Edges = set<(Id, Id)>

  ghost predicate Closed(e: Edges, s: set<Id>) {
    forall u, v :: (u, v) in e ==> (u in s <==> v in s)
  }

  /** The roots are exactly the components of the edges: an edge joins equal roots, and a
      set that respects all edges respects all roots. */
  ghost predicate Tracks(roots: map<Id, Id>, e: Edges) {
    && (forall u, v :: (u, v) in e ==> u in roots && v in roots && roots[u] == roots[v])
    && (forall s: set<Id> :: Closed(e, s) ==> Respects(roots, s))
  }

  ghost predicate Respects(roots: map<Id, Id>, s: set<Id>) {
    forall x :: x in roots ==> (x in s <==> roots[x] in s)
  }

  lemma UnionTracks(roots: map<Id, Id>, e: Edges, l: Id, r: Id)
    requires Tracks(roots, e) && l in roots && r in roots
    ensures Tracks(Merged(roots, l, r), e + {(l, r)})
  {
    var roots' := Merged(roots, l, r);
    forall s: set<Id> | Closed(e + {(l, r)}, s) ensures Respects(roots', s) {
      assert (l, r) in e + {(l, r)};
      assert Closed(e, s);
      assert Respects(roots, s);
    }
  }

  /** All similar pairs, and only those, are edges. */
  ghost predicate Complete(sigs: Signatures, e: Edges) {
    && (forall u, v :: (u, v) in e ==> Sim(sigs, u, v))
    && (forall u: Id, v: Id :: Sim(sigs, u, v) ==> (u, v) in e || (v, u) in e)
  }

  lemma {:induction false} PathKeepsRoot(sigs: Signatures, roots: map<Id, Id>, e: Edges, p: seq<Id>)
    requires Tracks(roots, e) && Complete(sigs, e) && roots.Keys == sigs.Keys && IsPath(sigs, p)
    ensures roots[p[0]] == roots[p[|p| - 1]]
    decreases |p|
  {
    hide Sim;
    if |p| > 1 {
      var n := |p| - 2;
      assert IsPath(sigs, p[..n + 1]);
      PathKeepsRoot(sigs, roots, e, p[..n + 1]);
      assert Sim(sigs, p[n], p[n + 1]);
    }
  }

  /** Two tasks have the same root exactly when a similarity path joins them. */
  lemma SameRootIffJoined(sigs: Signatures, roots: map<Id, Id>, e: Edges, x: Id, y: Id)
    requires Tracks(roots, e) && Complete(sigs, e) && roots.Keys == sigs.Keys && x in sigs && y in sigs
    ensures roots[x] == roots[y] <==> Joined(sigs, x, y)
  {
    hide Sim, Joins;
    if Joined(sigs, x, y) {
      var p :| Joins(sigs, p, x, y);
      JoinsIsPath(sigs, p, x, y);
      PathKeepsRoot(sigs, roots, e, p);
    }
    var s := set z | z in sigs && Joined(sigs, x, z);
    forall u, v | (u, v) in e ensures u in s <==> v in s {
      SimSymmetric(sigs, u, v);
      SimMembers(sigs, u, v);
      if u in s { ExtendPath(sigs, x, u, v); }
      if v in s { ExtendPath(sigs, x, v, u); }
    }
    assert Closed(e, s) && Respects(roots, s);
    SelfJoined(sigs, x);
  }

  lemma JoinsIsPath(sigs: Signatures, p: seq<Id>, x: Id, y: Id)
    requires Joins(sigs, p, x, y)
    ensures IsPath(sigs, p) && p[0] == x && p[|p| - 1] == y
  {
  }

  lemma SelfJoined(sigs: Signatures, x: Id)
    requires x in sigs
    ensures Joined(sigs, x, x)
  {
    assert Joins(sigs, [x], x, x);
  }

  /** A task shares its root with another exactly when some other task is similar to it. */
  lemma CompanionIffSimilar(sigs: Signatures, roots: map<Id, Id>, e: Edges, x: Id)
    requires Tracks(roots, e) && Complete(sigs, e) && roots.Keys == sigs.Keys && x in sigs
    ensures (exists y :: y in sigs && y != x && roots[y] == roots[x]) <==> exists y: Id :: Sim(sigs, x, y)
  {
    hide Sim;
    if y: Id :| Sim(sigs, x, y) {
      SimMembers(sigs, x, y);
      assert roots[y] == roots[x];
    }
    if y :| y in sigs && y != x && roots[y] == roots[x] {
      SameRootIffJoined(sigs, roots, e, x, y);
      var p :| Joins(sigs, p, x, y);
      assert Sim(sigs, p[0], p[0 + 1]);
    }
  }

  // ----- what each task wants

  /** The frame a task wants: the fallback exactly when some other task is similar to it. */
  ghost function Wanted(sigs: Signatures, x: Id): nat {
    if exists y: Id :: Sim(sigs, x, y) then FALLBACK_FRAME else FRAME_ZERO
  }

  /** The pairs of `ids` before position `(i, j)` in the double loop. */
  ghost predicate Visited(i: int, j: int, a: int, b: int) {
    a < b && (a < i || (a == i && b < j))
  }

  /** The edges found so far: the similar pairs among those visited. */
  ghost predicate EdgesUpTo(sigs: Signatures, ids: seq<Id>, e: Edges, i: int, j: int) {
    && (forall u, v :: (u, v) in e ==> Sim(sigs, u, v))
    && (forall a, b :: 0 <= a < |ids| && 0 <= b < |ids| && Visited(i, j, a, b) && Sim(sigs, ids[a], ids[b]) ==> (ids[a], ids[b]) in e)
  }

  lemma AllVisited(sigs: Signatures, ids: seq<Id>, e: Edges)
    requires EdgesUpTo(sigs, ids, e, |ids|, 0) && forall x: Id :: x in ids <==> x in sigs
    ensures Complete(sigs, e)
  {
    hide Sim;
    forall u: Id, v: Id | Sim(sigs, u, v) ensures (u, v) in e || (v, u) in e {
      SimMembers(sigs, u, v);
      SimSymmetric(sigs, u, v);
      var a :| 0 <= a < |ids| && ids[a] == u;
      var b :| 0 <= b < |ids| && ids[b] == v;
      assert Visited(|ids|, 0, a, b) || Visited(|ids|, 0, b, a);
    }
  }

  /** The double loop of the rebuild: union every similar pair. */
  method Unite(sigs: Signatures, ids: seq<Id>) returns (forest: Forest, ghost e: Edges)
    requires Ascending(ids) && forall x: Id :: x in ids <==> x in sigs
    ensures fresh(forest) && forest.Valid() && forest.Contents().Keys == sigs.Keys
    ensures Tracks(forest.Contents(), e) && Complete(sigs, e)
  {
    hide Ranked, Roots, Sim, Tracks, EdgesUpTo;
    forest := new Forest(sigs.Keys);
    e := {};
    NoEdges(sigs, ids);
    for i := 0 to |ids|
      invariant fresh(forest) && forest.Valid() && forest.Contents().Keys == sigs.Keys
      invariant Tracks(forest.Contents(), e) && EdgesUpTo(sigs, ids, e, i, 0)
    {
      e := UniteRow(forest, sigs, ids, i, e);
    }
    AllVisited(sigs, ids, e);
  }

  method UniteRow(forest: Forest, sigs: Signatures, ids: seq<Id>, i: nat, ghost e0: Edges) returns (ghost e: Edges)
    requires i < |ids| && forall x: Id :: x in ids <==> x in sigs
    requires forest.Valid() && forest.Contents().Keys == sigs.Keys
    requires Tracks(forest.Contents(), e0) && EdgesUpTo(sigs, ids, e0, i, 0)
    modifies forest
    ensures forest.Valid() && forest.Contents().Keys == sigs.Keys
    ensures Tracks(forest.Contents(), e) && EdgesUpTo(sigs, ids, e, i + 1, 0)
  {
    hide Ranked, Roots, Sim, Tracks, EdgesUpTo;
    e := e0;
    NextRow(sigs, ids, e, i, 0, i + 1);
    for j := i + 1 to |ids|
      invariant forest.Valid() && forest.Contents().Keys == sigs.Keys
      invariant Tracks(forest.Contents(), e) && EdgesUpTo(sigs, ids, e, i, j)
    {
      assert ids[i] in ids && ids[j] in ids;
      NextEdge(sigs, ids, e, i, j);
      if Sim(sigs, ids[i], ids[j]) {
        UnionTracks(forest.Contents(), e, ids[i], ids[j]);
        forest.Union(ids[i], ids[j]);
        e := e + {(ids[i], ids[j])};
      }
    }
    NextRow(sigs, ids, e, i, |ids|, 0);
  }

  lemma NoEdges(sigs: Signatures, ids: seq<Id>)
    ensures EdgesUpTo(sigs, ids, {}, 0, 0)
    ensures Tracks(Identity(sigs.Keys), {})
  {
  }

  lemma NextEdge(sigs: Signatures, ids: seq<Id>, e: Edges, i: nat, j: nat)
    requires EdgesUpTo(sigs, ids, e, i, j) && i < j < |ids|
    ensures Sim(sigs, ids[i], ids[j]) ==> EdgesUpTo(sigs, ids, e + {(ids[i], ids[j])}, i, j + 1)
    ensures !Sim(sigs, ids[i], ids[j]) ==> EdgesUpTo(sigs, ids, e, i, j + 1)
  {
    hide Sim;
  }

  /** Moving between the ends of two rows visits no further pair. */
  lemma NextRow(sigs: Signatures, ids: seq<Id>, e: Edges, i: nat, j: nat, j': nat)
    requires EdgesUpTo(sigs, ids, e, i, j)
    ensures j == 0 && j' == i + 1 ==> EdgesUpTo(sigs, ids, e, i, j')
    ensures j == |ids| && j' == 0 ==> EdgesUpTo(sigs, ids, e, i + 1, j')
  {
    hide Sim;
  }

  // ----- component sizes and the wanted frames

  /** The first `n` ids whose root is `r`. */
  ghost function MembersUpTo(roots: map<Id, Id>, ids: seq<Id>, n: nat, r: Id): set<Id>
    requires n <= |ids|
  {
    set k | 0 <= k < n && ids[k] in roots && roots[ids[k]] == r :: ids[k]
  }

  lemma NextMember(roots: map<Id, Id>, ids: seq<Id>, n: nat, r: Id)
    requires n < |ids| && Ascending(ids) && ids[n] in roots
    ensures |MembersUpTo(roots, ids, n + 1, r)| == |MembersUpTo(roots, ids, n, r)| + (if roots[ids[n]] == r then 1 else 0)
  {
    var before, after := MembersUpTo(roots, ids, n, r), MembersUpTo(roots, ids, n + 1, r);
    if roots[ids[n]] == r {
      assert after == before + {ids[n]};
    } else {
      assert after == before;
    }
  }

  function Size(sizes: map<Id, nat>, r: Id): nat {
    if r in sizes then sizes[r] else 0
  }

  lemma CompanionIffTwo(roots: map<Id, Id>, ids: seq<Id>, x: Id)
    requires x in roots && x in ids && forall y: Id :: y in ids <==> y in roots
    ensures |MembersUpTo(roots, ids, |ids|, roots[x])| > 1 <==> exists y :: y in roots && y != x && roots[y] == roots[x]
  {
    var s := MembersUpTo(roots, ids, |ids|, roots[x]);
    forall y | y in roots && roots[y] == roots[x] ensures y in s {
      var k :| 0 <= k < |ids| && ids[k] == y;
      assert ids[k] in s;
    }
    assert x in s && |s - {x}| == |s| - 1;
    if y :| y in roots && y != x && roots[y] == roots[x] {
      assert y in s - {x};
    }
    if |s| > 1 {
      var y :| y in s - {x};
      assert y in roots && y != x && roots[y] == roots[x];
    }
  }

  /** The sizes count the first `n` ids by root. */
  ghost predicate SizesOk(sizes: map<Id, nat>, roots: map<Id, Id>, ids: seq<Id>, n: nat)
    requires n <= |ids|
  {
    forall r: Id :: Size(sizes, r) == |MembersUpTo(roots, ids, n, r)|
  }

  ghost predicate Enumerates(ids: seq<Id>, roots: map<Id, Id>) {
    Ascending(ids) && forall x: Id :: x in ids <==> x in roots
  }

  lemma NoSizes(roots: map<Id, Id>, ids: seq<Id>)
    ensures SizesOk(map[], roots, ids, 0)
  {
    forall r: Id ensures MembersUpTo(roots, ids, 0, r) == {} {
    }
  }

  lemma NextSize(sizes: map<Id, nat>, roots: map<Id, Id>, ids: seq<Id>, n: nat)
    requires n < |ids| && Enumerates(ids, roots) && SizesOk(sizes, roots, ids, n) && ids[n] in roots
    ensures SizesOk(sizes[roots[ids[n]] := Size(sizes, roots[ids[n]]) + 1], roots, ids, n + 1)
  {
    hide MembersUpTo;
    var root := roots[ids[n]];
    var sizes' := sizes[root := Size(sizes, root) + 1];
    forall r: Id ensures Size(sizes', r) == |MembersUpTo(roots, ids, n + 1, r)| {
      NextMember(roots, ids, n, r);
    }
  }

  method ComponentSizes(forest: Forest, ids: seq<Id>) returns (sizes: map<Id, nat>)
    requires forest.Valid() && Enumerates(ids, forest.Contents())
    modifies forest
    ensures forest.Valid() && forest.Contents() == old(forest.Contents())
    ensures SizesOk(sizes, forest.Contents(), ids, |ids|)
  {
    hide Ranked, Roots, SizesOk;
    sizes := map[];
    ghost var roots := forest.Contents();
    NoSizes(roots, ids);
    for i := 0 to |ids|
      invariant forest.Valid() && forest.Contents() == roots
      invariant SizesOk(sizes, roots, ids, i)
    {
      assert ids[i] in ids;
      NextSize(sizes, roots, ids, i);
      var root := forest.Find(ids[i]);
      sizes := sizes[root := Size(sizes, root) + 1];
    }
  }

  lemma SizeTellsWanted(sigs: Signatures, sizes: map<Id, nat>, roots: map<Id, Id>, e: Edges, ids: seq<Id>, x: Id)
    requires Enumerates(ids, roots) && SizesOk(sizes, roots, ids, |ids|) && x in sigs
    requires Tracks(roots, e) && Complete(sigs, e) && roots.Keys == sigs.Keys
    ensures Wanted(sigs, x) == if Size(sizes, roots[x]) > 1 then FALLBACK_FRAME else FRAME_ZERO
  {
    hide MembersUpTo, Tracks, Complete, Sim;
    CompanionIffTwo(roots, ids, x);
    CompanionIffSimilar(sigs, roots, e, x);
  }

  /** The choices for the first `n` ids are the wanted ones. */
  ghost predicate ChosenUpTo(desired: map<Id, nat>, sigs: Signatures, ids: seq<Id>, n: nat)
    requires n <= |ids|
  {
    && (forall x: Id :: x in desired <==> x in ids[..n])
    && (forall x :: x in desired ==> desired[x] == Wanted(sigs, x))
  }

  lemma ChooseNext(desired: map<Id, nat>, sigs: Signatures, ids: seq<Id>, n: nat)
    requires n < |ids| && ChosenUpTo(desired, sigs, ids, n)
    ensures ChosenUpTo(desired[ids[n] := Wanted(sigs, ids[n])], sigs, ids, n + 1)
  {
    hide Wanted;
    assert ids[..n + 1] == ids[..n] + [ids[n]];
  }

  /** The last loop of the rebuild: a task wants the fallback frame when its component has
      more than one member. */
  method WantedFrames(forest: Forest, sigs: Signatures, sizes: map<Id, nat>, ids: seq<Id>, ghost e: Edges) returns (desired: map<Id, nat>)
    requires forest.Valid() && forest.Contents().Keys == sigs.Keys && Enumerates(ids, forest.Contents())
    requires SizesOk(sizes, forest.Contents(), ids, |ids|)
    requires Tracks(forest.Contents(), e) && Complete(sigs, e)
    modifies forest
    ensures desired.Keys == sigs.Keys && forall x :: x in sigs ==> desired[x] == Wanted(sigs, x)
  {
    hide Ranked, Roots, Wanted, Tracks, Complete, SizesOk, ChosenUpTo, Size, Ascending;
    desired := map[];
    ghost var roots := forest.Contents();
    NothingChosen(sigs, ids);
    for i := 0 to |ids|
      invariant forest.Valid() && forest.Contents() == roots
      invariant ChosenUpTo(desired, sigs, ids, i)
    {
      assert ids[i] in ids;
      SizeTellsWanted(sigs, sizes, roots, e, ids, ids[i]);
      ChooseNext(desired, sigs, ids, i);
      var root := forest.Find(ids[i]);
      desired := desired[ids[i] := if Size(sizes, root) > 1 then FALLBACK_FRAME else FRAME_ZERO];
    }
    AllChosen(desired, sigs, ids);
  }

  lemma NothingChosen(sigs: Signatures, ids: seq<Id>)
    ensures ChosenUpTo(map[], sigs, ids, 0)
  {
  }

  lemma AllChosen(desired: map<Id, nat>, sigs: Signatures, ids: seq<Id>)
    requires ChosenUpTo(desired, sigs, ids, |ids|) && forall x: Id :: x in ids <==> x in sigs
    ensures desired.Keys == sigs.Keys && forall x :: x in sigs ==> desired[x] == Wanted(sigs, x)
  {
    assert ids[..|ids|] == ids;
  }

  /** The full rebuild: union-find over all pairs, component sizes, wanted frames. A task
      wants the fallback frame exactly when some other task is similar to it. */
  method FullRebuild(sigs: Signatures) returns (desired: map<Id, nat>)
    ensures desired.Keys == sigs.Keys && forall x :: x in sigs ==> desired[x] == Wanted(sigs, x)
  {
    hide Ranked, Roots, Wanted, Tracks, Complete, SizesOk, Ascending;
    var ids := AscendingKeys(sigs.Keys);
    var forest;
    ghost var e;
    forest, e := Unite(sigs, ids);
    ghost var roots := forest.Contents();
    var sizes := ComponentSizes(forest, ids);
    desired := WantedFrames(forest, sigs, sizes, ids, e);
  }

  // ----- the incremental update

  /** The O(N) branch, for one task whose signature was just published. */
  method Incremental(stored: map<Id, nat>, sigs: Signatures, changed: Id) returns (desired: map<Id, nat>)
    requires changed in sigs && sigs.Keys <= stored.Keys
    ensures desired.Keys == stored.Keys
    ensures desired[changed] == Wanted(sigs, changed)
    ensures forall t :: t in stored && t != changed ==> desired[t] == if Sim(sigs, changed, t) then FALLBACK_FRAME else stored[t]
  {
    hide SignaturesAreSimilar;
    var matched := set t | t in sigs && t != changed && SignaturesAreSimilar(sigs[changed], sigs[t]);
    assert forall t: Id :: t in matched <==> Sim(sigs, changed, t);
    assert matched == {} || exists t: Id :: t in matched;
    desired := stored[changed := if matched != {} then FALLBACK_FRAME else FRAME_ZERO];
    var rest := matched;
    while rest != {}
      invariant rest <= matched && desired.Keys == stored.Keys && desired[changed] == Wanted(sigs, changed)
      invariant forall t :: t in stored && t != changed ==> desired[t] == if t in matched - rest then FALLBACK_FRAME else stored[t]
      decreases rest
    {
      var t :| t in rest;
      desired := desired[t := FALLBACK_FRAME];
      rest := rest - {t};
    }
  }

  /** The incremental update gives exactly the frames of the full rebuild if and only if the
      stored choice of every task that the changed one does not match was the right one in
      the graph without the changed task. */
  lemma IncrementalAgreesIff(stored: map<Id, nat>, sigs: Signatures, changed: Id, desired: map<Id, nat>)
    requires changed in sigs && sigs.Keys <= stored.Keys && desired.Keys == stored.Keys
    requires desired[changed] == Wanted(sigs, changed)
    requires forall t :: t in stored && t != changed ==> desired[t] == if Sim(sigs, changed, t) then FALLBACK_FRAME else stored[t]
    ensures
      (forall t :: t in sigs ==> desired[t] == Wanted(sigs, t)) <==>
      (forall t :: t in sigs && t != changed && !Sim(sigs, changed, t) ==> stored[t] == Wanted(sigs - {changed}, t))
  {
    hide SignaturesAreSimilar;
    forall t | t in sigs && t != changed
      ensures Sim(sigs, changed, t) ==> Wanted(sigs, t) == FALLBACK_FRAME
      ensures !Sim(sigs, changed, t) ==> Wanted(sigs, t) == Wanted(sigs - {changed}, t)
    {
      SimSymmetric(sigs, changed, t);
      forall y: Id ensures Sim(sigs - {changed}, t, y) <==> Sim(sigs, t, y) && y != changed {
      }
    }
  }
}
