/** Sets of numbers as ascending sequences, the result of `sorted(set(...))`. */
module SortedSets {

  ghost predicate Ascending(s: seq<nat>) {
    forall i, j :: 0 <= i < j < |s| ==> s[i] < s[j]
  }

  /** Put a code into an ascending sequence, once. */
  function Add(s: seq<nat>, c: nat): (r: seq<nat>)
    requires Ascending(s)
    ensures Ascending(r) && forall x: nat :: x in r <==> x in s || x == c
  {
    if s == [] || c < s[0] then [c] + s
    else if c == s[0] then s
    else
      var rest := Add(s[1..], c);
      assert forall i :: 0 <= i < |rest| ==> rest[i] in rest;
      [s[0]] + rest
  }

  function AddAll(s: seq<nat>, cs: seq<nat>): (r: seq<nat>)
    requires Ascending(s)
    ensures Ascending(r) && forall x: nat :: x in r <==> x in s || x in cs
    decreases |cs|
  {
    if cs == [] then s else AddAll(Add(s, cs[0]), cs[1..])
  }

  method AscendingKeys(frames: set<nat>) returns (ordered: seq<nat>)
    ensures Ascending(ordered) && forall f: nat :: f in ordered <==> f in frames
  {
    ordered := [];
    var rest := frames;
    while rest != {}
      invariant Ascending(ordered) && rest <= frames
      invariant forall f: nat :: f in ordered <==> f in frames - rest
      decreases rest
    {
      var f :| f in rest;
      ordered := Add(ordered, f);
      rest := rest - {f};
    }
  }
}
