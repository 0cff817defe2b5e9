/** The `parents` dictionary of `reconcile_project_thumbnail_groups`, with its `find` (path
    halving) and `union`. A ghost rank that grows along every parent link shows that `find`
    terminates and gives each element a root. */
module UnionFind {

  type Id = nat
  type Links = map<Id, Id>

  ghost predicate Ranked(parents: Links, rank: map<Id, nat>, bound: nat) {
    && rank.Keys == parents.Keys
    && forall x :: x in parents ==>
         && parents[x] in parents && rank[x] < bound
         && (parents[x] != x ==> rank[x] < rank[parents[x]])
  }

  ghost function Root(parents: Links, rank: map<Id, nat>, bound: nat, x: Id): Id
    requires Ranked(parents, rank, bound) && x in parents
    decreases bound - rank[x]
  {
    if parents[x] == x then x else Root(parents, rank, bound, parents[x])
  }

  lemma {:induction false} RootIsRoot(parents: Links, rank: map<Id, nat>, bound: nat, x: Id)
    requires Ranked(parents, rank, bound) && x in parents
    ensures
      var r := Root(parents, rank, bound, x);
      r in parents && parents[r] == r
    decreases bound - rank[x]
  {
    if parents[x] != x {
      RootIsRoot(parents, rank, bound, parents[x]);
    }
  }

  /** The roots of all elements. */
  ghost function Roots(parents: Links, rank: map<Id, nat>, bound: nat): (m: map<Id, Id>)
    requires Ranked(parents, rank, bound)
    ensures m.Keys == parents.Keys && forall x :: x in m ==> m[x] == Root(parents, rank, bound, x)
  {
    map x | x in parents :: Root(parents, rank, bound, x)
  }

  /** Everything in `right`'s tree moves to the root of `left`. */
  function Merged(roots: map<Id, Id>, left: Id, right: Id): (m: map<Id, Id>)
    requires left in roots && right in roots
    ensures m.Keys == roots.Keys
  {
    map x | x in roots :: if roots[x] == roots[right] then roots[left] else roots[x]
  }

  lemma HalvingStaysRanked(parents: Links, rank: map<Id, nat>, bound: nat, x: Id)
    requires Ranked(parents, rank, bound) && x in parents
    ensures parents[x] in parents && Ranked(parents[x := parents[parents[x]]], rank, bound)
  {
  }

  lemma RootOfParent(parents: Links, rank: map<Id, nat>, bound: nat, x: Id)
    requires Ranked(parents, rank, bound) && x in parents
    ensures parents[x] in parents && Root(parents, rank, bound, x) == Root(parents, rank, bound, parents[x])
    ensures rank.Keys == parents.Keys && rank[x] < bound && (parents[x] != x ==> rank[x] < rank[parents[x]] < bound)
    ensures parents[x] == x ==> Root(parents, rank, bound, x) == x
  {
  }

  /** Pointing an element at its grandparent changes no root. */
  lemma {:induction false} HalvingKeepsRoot(parents: Links, rank: map<Id, nat>, bound: nat, x: Id, y: Id)
    requires Ranked(parents, rank, bound) && x in parents && y in parents && parents[x] in parents
    requires Ranked(parents[x := parents[parents[x]]], rank, bound)
    ensures Root(parents[x := parents[parents[x]]], rank, bound, y) == Root(parents, rank, bound, y)
    decreases bound - rank[y]
  {
    hide Root, Ranked;
    var parents' := parents[x := parents[parents[x]]];
    RootOfParent(parents, rank, bound, y);
    RootOfParent(parents', rank, bound, y);
    if parents[y] != y {
      var p := parents[y];
      RootOfParent(parents, rank, bound, p);
      if y != x {
        HalvingKeepsRoot(parents, rank, bound, x, p);
      } else {
        HalvingKeepsRoot(parents, rank, bound, x, parents[p]);
      }
    }
  }

  lemma HalvingKeepsRoots(parents: Links, rank: map<Id, nat>, bound: nat, x: Id)
    requires Ranked(parents, rank, bound) && x in parents
    ensures parents[x] in parents && Ranked(parents[x := parents[parents[x]]], rank, bound)
    ensures Roots(parents[x := parents[parents[x]]], rank, bound) == Roots(parents, rank, bound)
  {
    hide Root, Ranked;
    HalvingStaysRanked(parents, rank, bound, x);
    forall y | y in parents
      ensures Root(parents[x := parents[parents[x]]], rank, bound, y) == Root(parents, rank, bound, y)
    {
      HalvingKeepsRoot(parents, rank, bound, x, y);
    }
  }

  function Raised(rank: map<Id, nat>, l: Id, r: Id): map<Id, nat>
    requires l in rank && r in rank
  {
    rank[l := if rank[l] <= rank[r] then rank[r] + 1 else rank[l]]
  }

  lemma LinkStaysRanked(parents: Links, rank: map<Id, nat>, bound: nat, l: Id, r: Id)
    requires Ranked(parents, rank, bound) && l in parents && r in parents
    requires parents[l] == l && parents[r] == r && l != r
    ensures Ranked(parents[r := l], Raised(rank, l, r), bound + 1)
  {
  }

  /** Hanging one root under another merges exactly their two trees. */
  lemma {:induction false} LinkMergesRoots(parents: Links, rank: map<Id, nat>, bound: nat, l: Id, r: Id, y: Id)
    requires Ranked(parents, rank, bound) && l in parents && r in parents && y in parents
    requires parents[l] == l && parents[r] == r && l != r
    requires rank.Keys == parents.Keys && Ranked(parents[r := l], Raised(rank, l, r), bound + 1)
    ensures
      var root := Root(parents, rank, bound, y);
      Root(parents[r := l], Raised(rank, l, r), bound + 1, y) == if root == r then l else root
    decreases bound - rank[y]
  {
    hide Root, Ranked, Raised;
    var parents', rank' := parents[r := l], Raised(rank, l, r);
    RootOfParent(parents, rank, bound, y);
    RootOfParent(parents', rank', bound + 1, y);
    RootOfParent(parents', rank', bound + 1, l);
    if parents[y] != y {
      LinkMergesRoots(parents, rank, bound, l, r, parents[y]);
    }
  }

  lemma LinkMergesAllRoots(parents: Links, rank: map<Id, nat>, bound: nat, left: Id, right: Id, l: Id, r: Id)
    requires Ranked(parents, rank, bound) && left in parents && right in parents
    requires l == Roots(parents, rank, bound)[left] && r == Roots(parents, rank, bound)[right] && l != r
    ensures rank.Keys == parents.Keys && l in parents && r in parents
    ensures Ranked(parents[r := l], Raised(rank, l, r), bound + 1)
    ensures Roots(parents[r := l], Raised(rank, l, r), bound + 1) == Merged(Roots(parents, rank, bound), left, right)
  {
    hide Root, Ranked, Raised;
    RootIsRoot(parents, rank, bound, left);
    RootIsRoot(parents, rank, bound, right);
    RootOfParent(parents, rank, bound, l);
    LinkStaysRanked(parents, rank, bound, l, r);
    forall y | y in parents
      ensures
        var root := Root(parents, rank, bound, y);
        Root(parents[r := l], Raised(rank, l, r), bound + 1, y) == if root == r then l else root
    {
      LinkMergesRoots(parents, rank, bound, l, r, y);
    }
  }

  lemma MergedAlready(roots: map<Id, Id>, left: Id, right: Id)
    requires left in roots && right in roots && roots[left] == roots[right]
    ensures Merged(roots, left, right) == roots
  {
  }

  function Identity(ids: set<Id>): map<Id, Id> {
    map x | x in ids :: x
  }

  class Forest {
    var parents: Links
    ghost var rank: map<Id, nat>
    ghost var bound: nat

    ghost predicate Valid()
      reads this
    {
      Ranked(parents, rank, bound)
    }

    ghost function Contents(): (m: map<Id, Id>)
      requires Valid()
      reads this
      ensures m.Keys == parents.Keys
    {
      Roots(parents, rank, bound)
    }

    /** Every element starts as its own root. */
    constructor (ids: set<Id>)
      ensures Valid() && Contents() == Identity(ids)
    {
      parents := Identity(ids);
      rank := map x | x in ids :: 0;
      bound := 1;
    }

    /** `find`, halving paths on its way: it returns the root and changes no root. */
    method Find(x: Id) returns (r: Id)
      requires Valid() && x in parents
      modifies this`parents
      ensures Valid() && Contents() == old(Contents())
      ensures x in Contents() && r == Contents()[x]
    {
      hide Root, Ranked;
      r := x;
      while parents[r] != r
        invariant Valid() && Contents() == old(Contents()) && r in parents
        invariant Contents()[r] == Contents()[x]
        decreases bound - (if r in rank then rank[r] else 0)
      {
        HalvingKeepsRoots(parents, rank, bound, r);
        RootOfParent(parents, rank, bound, r);
        RootOfParent(parents, rank, bound, parents[r]);
        parents := parents[r := parents[parents[r]]];
        r := parents[r];
        RootOfParent(parents, rank, bound, r);
      }
      RootOfParent(parents, rank, bound, r);
    }

    /** `union`: the two trees become one, under the root of `left`. */
    method Union(left: Id, right: Id)
      requires Valid() && left in parents && right in parents
      modifies this
      ensures Valid() && Contents() == Merged(old(Contents()), left, right)
    {
      hide Root, Ranked, Roots, Merged, Raised;
      var leftRoot := Find(left);
      var rightRoot := Find(right);
      if leftRoot != rightRoot {
        LinkMergesAllRoots(parents, rank, bound, left, right, leftRoot, rightRoot);
        parents := parents[rightRoot := leftRoot];
        rank, bound := Raised(rank, leftRoot, rightRoot), bound + 1;
      } else {
        MergedAlready(Contents(), left, right);
      }
    }
  }
}
