/** The difference hash of a thumbnail frame, its hexadecimal form, and the similarity
    test on two such signatures. */
module DHash {
  import opened Wrappers

  // ----- numbers as bits

  function Bit(b: bool): nat { if b then 1 else 0 }

  function Pack(bits: seq<bool>): nat {
    if bits == [] then 0 else Append(Pack(bits[..|bits| - 1]), bits[|bits| - 1])
  }

  function Xor(a: nat, b: nat): nat {
    if a == 0 && b == 0 then 0 else Append(Xor(a / 2, b / 2), a % 2 != b % 2)
  }

  /** Shift left by one and set the lowest bit. */
  function Append(n: nat, b: bool): nat {
    2 * n + Bit(b)
  }

  function BitCount(n: nat): nat {
    if n == 0 then 0 else n % 2 + BitCount(n / 2)
  }

  function Pow2(k: nat): nat {
    if k == 0 then 1 else 2 * Pow2(k - 1)
  }

  lemma {:induction false} PackBound(bits: seq<bool>)
    ensures Pack(bits) < Pow2(|bits|)
  {
    if bits != [] {
      PackBound(bits[..|bits| - 1]);
    }
  }

  /** The number of positions at which two bit strings agree. */
  function Agreements(x: seq<bool>, y: seq<bool>): nat
    requires |x| == |y|
  {
    if x == [] then 0
    else Agreements(x[..|x| - 1], y[..|y| - 1]) + Bit(x[|x| - 1] == y[|y| - 1])
  }

  lemma {:induction false} XorCountsDifferences(x: seq<bool>, y: seq<bool>)
    requires |x| == |y|
    ensures BitCount(Xor(Pack(x), Pack(y))) + Agreements(x, y) == |x|
  {
    if x != [] {
      var a, b := Pack(x[..|x| - 1]), Pack(y[..|y| - 1]);
      var p, q := x[|x| - 1], y[|y| - 1];
      XorCountsDifferences(x[..|x| - 1], y[..|y| - 1]);
      assert Pack(x) / 2 == a && Pack(x) % 2 == Bit(p);
      assert Pack(y) / 2 == b && Pack(y) % 2 == Bit(q);
      if Pack(x) != 0 || Pack(y) != 0 {
        XorStep(Pack(x), Pack(y));
      }
    }
  }

  lemma XorStep(a: nat, b: nat)
    requires a != 0 || b != 0
    ensures BitCount(Xor(a, b)) == BitCount(Xor(a / 2, b / 2)) + Bit(a % 2 != b % 2)
  {
    hide BitCount, Append;
    BitCountStep(Xor(a / 2, b / 2), a % 2 != b % 2);
  }

  lemma BitCountStep(h: nat, b: bool)
    ensures BitCount(Append(h, b)) == BitCount(h) + Bit(b)
  {
    assert Append(h, b) % 2 == Bit(b) && Append(h, b) / 2 == h;
  }

  lemma {:induction false} XorCommutes(a: nat, b: nat)
    ensures Xor(a, b) == Xor(b, a)
  {
    if a != 0 || b != 0 {
      XorCommutes(a / 2, b / 2);
    }
  }

  // ----- hexadecimal

  function Digit(d: nat): char
    requires d < 16
  {
    "0123456789abcdef"[d]
  }

  /** The value of a hexadecimal digit of either case. */
  function DigitValue(c: char): Option<nat> {
    if '0' <= c <= '9' then Some((c as int) - ('0' as int))
    else if 'a' <= c <= 'f' then Some((c as int) - ('a' as int) + 10)
    else if 'A' <= c <= 'F' then Some((c as int) - ('A' as int) + 10)
    else None
  }

  /** `f"{n:0kx}"` for a number of at most `k` digits. */
  function Hex(n: nat, k: nat): (s: string)
    ensures |s| == k
  {
    if k == 0 then "" else Hex(n / 16, k - 1) + [Digit(n % 16)]
  }

  /** `int(s, 16)` of a string of hexadecimal digits. */
  function ParseHex(s: string): Option<nat> {
    if s == "" then Some(0)
    else
      var init, last := ParseHex(s[..|s| - 1]), DigitValue(s[|s| - 1]);
      if init.None? || last.None? then None else Some(16 * init.value + last.value)
  }

  function Pow16(k: nat): nat {
    if k == 0 then 1 else 16 * Pow16(k - 1)
  }

  lemma DigitRoundTrip(d: nat)
    requires d < 16
    ensures DigitValue(Digit(d)) == Some(d)
  {
  }

  lemma {:induction false} HexRoundTrip(n: nat, k: nat)
    requires n < Pow16(k)
    ensures ParseHex(Hex(n, k)) == Some(n)
  {
    if k > 0 {
      HexRoundTrip(n / 16, k - 1);
      DigitRoundTrip(n % 16);
      assert Hex(n, k)[..k - 1] == Hex(n / 16, k - 1);
    }
  }

  lemma {:induction false} Pow16IsPow2(k: nat)
    ensures Pow16(k) == Pow2(4 * k)
  {
    if k > 0 {
      Pow16IsPow2(k - 1);
      assert Pow2(4 * k) == 2 * Pow2(4 * k - 1) == 4 * Pow2(4 * k - 2) == 8 * Pow2(4 * k - 3) == 16 * Pow2(4 * (k - 1));
    }
  }

  // ----- signatures

  /** The 64 left/right comparisons of a 9 by 8 grey frame, row by row. */
  function Comparison(frame: seq<nat>, k: nat): bool
    requires |frame| == 72 && k < 64
  {
    frame[k / 8 * 9 + k % 8] > frame[k / 8 * 9 + k % 8 + 1]
  }

  function Comparisons(frame: seq<nat>, n: nat): (bits: seq<bool>)
    requires |frame| == 72 && n <= 64
    ensures |bits| == n
  {
    seq(n, k requires 0 <= k < n => Comparison(frame, k))
  }

  lemma ComparisonAt(frame: seq<nat>, row: nat, column: nat)
    requires |frame| == 72 && row < 8 && column < 8
    ensures Comparison(frame, 8 * row + column) == (frame[row * 9 + column] > frame[row * 9 + column + 1])
  {
    assert (8 * row + column) / 8 == row && (8 * row + column) % 8 == column;
  }

  lemma EmptyPack(frame: seq<nat>)
    requires |frame| == 72
    ensures Pack(Comparisons(frame, 0)) == 0
  {
  }

  lemma PackNext(frame: seq<nat>, k: nat)
    requires |frame| == 72 && k < 64
    ensures Pack(Comparisons(frame, k + 1)) == Append(Pack(Comparisons(frame, k)), Comparison(frame, k))
  {
    hide Comparison;
    assert Comparisons(frame, k + 1)[..k] == Comparisons(frame, k);
  }

  /** `_thumbnail_dhash` */
  method ThumbnailDhash(frame: seq<nat>) returns (signature: Result<string>)
    ensures |frame| != 72 ==> signature == Stopped(Raised)
    ensures |frame| == 72 ==> signature == Ok(Hex(Pack(Comparisons(frame, 64)), 16))
  {
    hide Pack, Comparisons, Hex;
    if |frame| != 72 {
      return Stopped(Raised);
    }
    var value := 0;
    EmptyPack(frame);
    for row := 0 to 8
      invariant value == Pack(Comparisons(frame, 8 * row))
    {
      value := HashRow(frame, row, value);
    }
    return Ok(Hex(value, 16));
  }

  method HashRow(frame: seq<nat>, row: nat, before: nat) returns (value: nat)
    requires |frame| == 72 && row < 8 && before == Pack(Comparisons(frame, 8 * row))
    ensures value == Pack(Comparisons(frame, 8 * row + 8))
  {
    hide Pack, Comparisons, Comparison, Append;
    value := before;
    var offset := row * 9;
    for column := 0 to 8
      invariant value == Pack(Comparisons(frame, 8 * row + column))
    {
      ComparisonAt(frame, row, column);
      PackNext(frame, 8 * row + column);
      value := Append(value, frame[offset + column] > frame[offset + column + 1]);
    }
  }

  /** `_valid_signature` */
  predicate ValidSignature(s: string) {
    |s| == 16 && ParseHex(s).Some?
  }

  /** `thumbnail_signatures_are_similar` */
  predicate SignaturesAreSimilar(left: string, right: string) {
    && ValidSignature(left) && ValidSignature(right)
    && (64 - BitCount(Xor(ParseHex(left).value, ParseHex(right).value))) * 100 > 85 * 64
  }

  lemma SimilarIsSymmetric(left: string, right: string)
    ensures SignaturesAreSimilar(left, right) == SignaturesAreSimilar(right, left)
  {
    if ValidSignature(left) && ValidSignature(right) {
      XorCommutes(ParseHex(left).value, ParseHex(right).value);
    }
  }

  /** End to end: the signatures of two frames are valid, and they are similar exactly when
      at least 55 of the 64 comparisons agree. */
  lemma DhashSimilarity(f: seq<nat>, g: seq<nat>)
    requires |f| == |g| == 72
    ensures
      var s, t := Hex(Pack(Comparisons(f, 64)), 16), Hex(Pack(Comparisons(g, 64)), 16);
      && ValidSignature(s) && ValidSignature(t)
      && (SignaturesAreSimilar(s, t) <==> Agreements(Comparisons(f, 64), Comparisons(g, 64)) >= 55)
  {
    hide Pow2, Pow16, Hex, ParseHex, Xor, BitCount, Pack, Agreements;
    var x, y := Comparisons(f, 64), Comparisons(g, 64);
    PackBound(x);
    PackBound(y);
    Pow16IsPow2(16);
    HexRoundTrip(Pack(x), 16);
    HexRoundTrip(Pack(y), 16);
    XorCountsDifferences(x, y);
  }

  // ----- told from the pixels

  /** The positions at which two bit strings agree. */
  ghost function Agreeing(x: seq<bool>, y: seq<bool>): set<int>
    requires |x| == |y|
  {
    set k | 0 <= k < |x| && x[k] == y[k]
  }

  lemma {:induction false} AgreementsCount(x: seq<bool>, y: seq<bool>)
    requires |x| == |y|
    ensures Agreements(x, y) == |Agreeing(x, y)|
  {
    if x == [] {
      assert Agreeing(x, y) == {};
    } else {
      var n := |x| - 1;
      AgreementsCount(x[..n], y[..n]);
      assert Agreeing(x, y) == if x[n] == y[n] then Agreeing(x[..n], y[..n]) + {n} else Agreeing(x[..n], y[..n]);
    }
  }

  /** The pixel at position `k` of the 8 by 8 grid is brighter than its right neighbour. */
  ghost predicate Darkens(frame: seq<nat>, k: int)
    requires |frame| == 72 && 0 <= k < 64
  {
    frame[9 * (k / 8) + k % 8] > frame[9 * (k / 8) + k % 8 + 1]
  }

  /** Two frames are similar exactly when at least 55 of the 64 positions agree on whether the
      pixel is brighter than its right neighbour. */
  lemma SimilarByPixels(f: seq<nat>, g: seq<nat>)
    requires |f| == |g| == 72
    ensures
      var s, t := Hex(Pack(Comparisons(f, 64)), 16), Hex(Pack(Comparisons(g, 64)), 16);
      SignaturesAreSimilar(s, t) <==> |set k | 0 <= k < 64 && Darkens(f, k) == Darkens(g, k)| >= 55
  {
    hide Hex, ParseHex, Pack, Agreements, SignaturesAreSimilar;
    DhashSimilarity(f, g);
    var x, y := Comparisons(f, 64), Comparisons(g, 64);
    AgreementsCount(x, y);
    assert forall k :: 0 <= k < 64 ==> x[k] == Darkens(f, k) && y[k] == Darkens(g, k);
    assert Agreeing(x, y) == set k | 0 <= k < 64 && Darkens(f, k) == Darkens(g, k);
  }

  lemma DivHalf(h: nat, b: nat, m: nat)
    requires m > 0 && b < 2
    ensures (2 * h + b) / (2 * m) == h / m
  {
    var q, r := h / m, h % m;
    assert h == m * q + r;
    assert 2 * h + b == (2 * m) * q + (2 * r + b) && 2 * r + b < 2 * m;
    QuotientIs(2 * h + b, 2 * m, q, 2 * r + b);
  }

  lemma QuotientIs(n: nat, d: nat, q: nat, r: nat)
    requires d > 0 && n == d * q + r && r < d
    ensures n / d == q
  {
    var q', r' := n / d, n % d;
    assert n == d * q' + r';
    if q' > q {
      TimesMore(d, q + 1, q');
    } else if q' < q {
      TimesMore(d, q' + 1, q);
    }
  }

  lemma TimesMore(d: nat, a: nat, b: nat)
    requires a <= b
    ensures d * a <= d * b
  {
  }

  lemma {:induction false} PackBit(bits: seq<bool>, k: nat)
    requires k < |bits|
    ensures Pow2(|bits| - 1 - k) > 0 && Pack(bits) / Pow2(|bits| - 1 - k) % 2 == Bit(bits[k])
  {
    var n := |bits| - 1;
    Pow2Positive(n - k);
    if k < n {
      Pow2Positive(n - 1 - k);
      PackBit(bits[..n], k);
      DivHalf(Pack(bits[..n]), Bit(bits[n]), Pow2(n - 1 - k));
    }
  }

  lemma {:induction false} Pow2Positive(k: nat)
    ensures Pow2(k) > 0
  {
    if k > 0 {
      Pow2Positive(k - 1);
    }
  }

  /** The signature's number has the comparison at position `k` as its bit `63 - k`. */
  lemma SignatureBits(frame: seq<nat>, k: nat)
    requires |frame| == 72 && k < 64
    ensures
      var value := ParseHex(Hex(Pack(Comparisons(frame, 64)), 16));
      value.Some? && Pow2(63 - k) > 0 && value.value / Pow2(63 - k) % 2 == if Darkens(frame, k) then 1 else 0
  {
    hide Hex, ParseHex, Pow2, Pow16, Pack;
    var bits := Comparisons(frame, 64);
    PackBound(bits);
    Pow16IsPow2(16);
    HexRoundTrip(Pack(bits), 16);
    PackBit(bits, k);
  }
}
