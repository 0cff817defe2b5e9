/** The order of tuples of numbers. */
module Lexicographic {

  predicate LexLe(a: seq<nat>, b: seq<nat>) {
    a == [] || (b != [] && (a[0] < b[0] || (a[0] == b[0] && LexLe(a[1..], b[1..]))))
  }

  lemma LexTotal(a: seq<nat>, b: seq<nat>)
    ensures LexLe(a, a)
    ensures LexLe(a, b) || LexLe(b, a)
    ensures LexLe(a, b) && LexLe(b, a) ==> a == b
  {
    if a != [] {
      LexTotal(a[1..], a[1..]);
      if b != [] {
        LexTotal(a[1..], b[1..]);
        assert a == [a[0]] + a[1..] && b == [b[0]] + b[1..];
      }
    }
  }

  lemma LexTransitive(a: seq<nat>, b: seq<nat>, c: seq<nat>)
    requires LexLe(a, b) && LexLe(b, c)
    ensures LexLe(a, c)
  {
    if a != [] && a[0] == b[0] == c[0] {
      LexTransitive(a[1..], b[1..], c[1..]);
    }
  }

  /** The order of the first numbers, and of the rest when they are equal. */
  lemma LexCons(x: nat, a: seq<nat>, y: nat, b: seq<nat>)
    ensures LexLe([x] + a, [y] + b) <==> x < y || (x == y && LexLe(a, b))
  {
    assert ([x] + a)[1..] == a && ([y] + b)[1..] == b;
  }

  lemma LexPair(x1: nat, x2: nat, y1: nat, y2: nat)
    ensures LexLe([x1, x2], [y1, y2]) <==> x1 < y1 || (x1 == y1 && x2 <= y2)
  {
    assert [x1, x2] == [x1] + [x2] && [y1, y2] == [y1] + [y2] && [x2] == [x2] + [] && [y2] == [y2] + [];
    LexCons(x1, [x2], y1, [y2]);
    LexCons(x2, [], y2, []);
  }
}
