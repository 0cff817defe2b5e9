/** The MP4 top-level box scan. A file is accepted exactly when it is the serialization of a
    list of boxes whose first `moov` comes before its first `mdat`. */
module Faststart {
  import opened Wrappers

  type Byte = b: int | 0 <= b < 256

  // ----- big-endian numbers

  function BigEndian(s: seq<Byte>): nat {
    if s == [] then 0 else 256 * BigEndian(s[..|s| - 1]) + s[|s| - 1]
  }

  function ToBytes(n: nat, k: nat): (s: seq<Byte>)
    ensures |s| == k
  {
    if k == 0 then [] else ToBytes(n / 256, k - 1) + [n % 256]
  }

  function Pow256(k: nat): nat {
    if k == 0 then 1 else 256 * Pow256(k - 1)
  }

  lemma {:induction false} ReadWritten(n: nat, k: nat)
    requires n < Pow256(k)
    ensures BigEndian(ToBytes(n, k)) == n
  {
    if k > 0 {
      ReadWritten(n / 256, k - 1);
      assert ToBytes(n, k)[..k - 1] == ToBytes(n / 256, k - 1);
    }
  }

  lemma {:induction false} WriteRead(s: seq<Byte>)
    ensures ToBytes(BigEndian(s), |s|) == s && BigEndian(s) < Pow256(|s|)
  {
    if s != [] {
      var n := |s| - 1;
      WriteRead(s[..n]);
      assert BigEndian(s) / 256 == BigEndian(s[..n]) && BigEndian(s) % 256 == s[n];
      assert s == s[..n] + [s[n]];
    }
  }

  // ----- boxes

  datatype Form = Short | Long | ToEnd

  datatype Box = Box(form: Form, kind: seq<Byte>, payload: seq<Byte>)

  const MOOV: seq<Byte> := [0x6d, 0x6f, 0x6f, 0x76]
  const MDAT: seq<Byte> := [0x6d, 0x64, 0x61, 0x74]

  function HeaderLength(form: Form): nat { if form == Long then 16 else 8 }

  function Size(b: Box): nat { HeaderLength(b.form) + |b.payload| }

  /** Section 4.2 of ISO/IEC 14496-12: size and type, with the size in 32 bits, in 64 bits
      after the mark 1, or replaced by the mark 0. */
  function Header(b: Box): seq<Byte> {
    match b.form
    case Short => ToBytes(Size(b), 4) + b.kind
    case Long => ToBytes(1, 4) + b.kind + ToBytes(Size(b), 8)
    case ToEnd => ToBytes(0, 4) + b.kind
  }

  function Serialize(boxes: seq<Box>): seq<Byte> {
    if boxes == [] then [] else Header(boxes[0]) + boxes[0].payload + Serialize(boxes[1..])
  }

  ghost predicate BoxOk(b: Box) {
    && |b.kind| == 4
    && (b.form == Short ==> Size(b) < Pow256(4)) && (b.form == Long ==> Size(b) < Pow256(8))
  }

  /** Sizes fit their fields, and only the last box may run to the end of the file. */
  ghost predicate WellFormed(boxes: seq<Box>) {
    forall i :: 0 <= i < |boxes| ==> BoxOk(boxes[i]) && (boxes[i].form == ToEnd ==> i == |boxes| - 1)
  }

  /** The first `moov` comes before the first `mdat`, and there are both. */
  ghost predicate MoovFirst(boxes: seq<Box>) {
    exists i, k ::
      && 0 <= i < k < |boxes| && boxes[i].kind == MOOV && boxes[k].kind == MDAT
      && forall j :: 0 <= j < i ==> boxes[j].kind != MDAT
  }

  // ----- reading a header

  function Pread(file: seq<Byte>, length: nat, offset: nat): seq<Byte>
    requires offset <= |file|
  {
    file[offset..if offset + length <= |file| then offset + length else |file|]
  }

  /** `_read_box_header`: the box's form and size and its type, or an exception. */
  function ReadBoxHeader(file: seq<Byte>, offset: nat): Option<(Form, nat, seq<Byte>)>
    requires offset <= |file|
  {
    var header := Pread(file, 16, offset);
    var rest := |file| - offset;
    if |header| < 8 then None
    else
      var short, kind := BigEndian(header[0..4]), header[4..8];
      if short == 0 then Some((ToEnd, rest, kind))
      else if short == 1 then
        if |header| < 16 then None
        else
          var long := BigEndian(header[8..16]);
          if long < 16 || long > rest then None else Some((Long, long, kind))
      else if short < 8 || short > rest then None
      else Some((Short, short, kind))
  }

  lemma HeaderOfSuffix(file: seq<Byte>, offset: nat)
    requires offset <= |file|
    ensures ReadBoxHeader(file[offset..], 0) == ReadBoxHeader(file, offset)
  {
    assert Pread(file[offset..], 16, 0) == Pread(file, 16, offset);
  }

  /** The box a header announces at the start of `s`. */
  function FirstBox(s: seq<Byte>): Option<Box> {
    match ReadBoxHeader(s, 0)
    case None => None
    case Some((form, size, kind)) => if HeaderLength(form) <= size <= |s| then Some(Box(form, kind, s[HeaderLength(form)..size])) else None
  }

  lemma HeaderFits(s: seq<Byte>)
    ensures
      match ReadBoxHeader(s, 0)
      case None => FirstBox(s).None?
      case Some((form, size, kind)) =>
        8 <= HeaderLength(form) <= size <= |s| && FirstBox(s) == Some(Box(form, kind, s[HeaderLength(form)..size]))
  {
  }

  function Parse(s: seq<Byte>): Option<seq<Box>>
    decreases |s|
  {
    if s == [] then Some([])
    else
      var first := FirstBox(s);
      if first.None? || !(0 < Size(first.value) <= |s|) then None
      else
        var rest := Parse(s[Size(first.value)..]);
        if rest.None? then None else Some([first.value] + rest.value)
  }

  // ----- parsing undoes serializing, and the other way round

  lemma FieldSizes()
    ensures 1 < Pow256(4) < Pow256(8)
  {
    assert Pow256(4) == 256 * Pow256(3) && Pow256(3) == 256 * Pow256(2) && Pow256(2) == 256 * Pow256(1) && Pow256(1) == 256;
    assert Pow256(8) == 256 * Pow256(7) && Pow256(7) == 256 * Pow256(6) && Pow256(6) == 256 * Pow256(5) && Pow256(5) == 256 * Pow256(4);
  }

  lemma FirstWritten(b: Box, rest: seq<Byte>)
    requires BoxOk(b) && (b.form == ToEnd ==> rest == [])
    ensures |Header(b)| == HeaderLength(b.form)
    ensures FirstBox(Header(b) + b.payload + rest) == Some(b)
  {
    hide BigEndian, ToBytes, Pow256;
    FieldSizes();
    var s := Header(b) + b.payload + rest;
    var mark := match b.form case Short => Size(b) case Long => 1 case ToEnd => 0;
    ReadWritten(mark, 4);
    assert |Header(b)| == HeaderLength(b.form);
    var header := Pread(s, 16, 0);
    assert s[0..4] == Header(b)[0..4] == ToBytes(mark, 4) && s[4..8] == Header(b)[4..8] == b.kind;
    assert header[0..4] == s[0..4] && header[4..8] == s[4..8];
    if b.form == Long {
      ReadWritten(Size(b), 8);
      assert s[8..16] == Header(b)[8..16] == ToBytes(Size(b), 8);
      assert header[8..16] == s[8..16];
    }
    assert s[HeaderLength(b.form)..Size(b)] == b.payload;
  }

  lemma FirstRead(s: seq<Byte>)
    requires FirstBox(s).Some?
    ensures
      var b := FirstBox(s).value;
      && BoxOk(b) && 0 < Size(b) <= |s| && (b.form == ToEnd ==> Size(b) == |s|)
      && s == Header(b) + b.payload + s[Size(b)..]
  {
    hide BigEndian, ToBytes, Pow256;
    var b := FirstBox(s).value;
    var header := Pread(s, 16, 0);
    HeaderFits(s);
    WriteRead(header[0..4]);
    assert header[0..4] == s[0..4] && header[4..8] == s[4..8];
    if b.form == Long {
      WriteRead(header[8..16]);
      assert header[8..16] == s[8..16];
      assert Header(b) == s[..16];
    } else {
      assert Header(b) == s[..8];
    }
  }

  lemma AfterFirst(b: Box, rest: seq<Byte>)
    requires |Header(b)| == HeaderLength(b.form)
    ensures
      var s := Header(b) + b.payload + rest;
      0 < Size(b) <= |s| && s[Size(b)..] == rest
  {
    hide Header;
  }

  lemma {:induction false} ParseWritten(boxes: seq<Box>)
    requires WellFormed(boxes)
    ensures Parse(Serialize(boxes)) == Some(boxes)
  {
    hide Header, FirstBox, BoxOk, Size, HeaderLength;
    if boxes != [] {
      var b, rest := boxes[0], Serialize(boxes[1..]);
      assert b.form == ToEnd ==> boxes[1..] == [];
      assert BoxOk(b);
      FirstWritten(b, rest);
      AfterFirst(b, rest);
      ParseWritten(boxes[1..]);
      assert boxes == [b] + boxes[1..];
    }
  }

  lemma {:induction false} WrittenParse(s: seq<Byte>)
    requires Parse(s).Some?
    ensures WellFormed(Parse(s).value) && Serialize(Parse(s).value) == s
    decreases |s|
  {
    hide Header, FirstBox, BoxOk;
    if s != [] {
      FirstRead(s);
      var b := FirstBox(s).value;
      var rest := s[Size(b)..];
      WrittenParse(rest);
      var boxes := Parse(s).value;
      assert boxes[0] == b && boxes[1..] == Parse(rest).value;
      if b.form == ToEnd {
        assert rest == [];
      }
      forall i | 0 <= i < |boxes| ensures BoxOk(boxes[i]) && (boxes[i].form == ToEnd ==> i == |boxes| - 1) {
        assert i > 0 ==> boxes[i] == boxes[1..][i - 1];
      }
    }
  }

  // ----- the scan

  /** What the two offsets say about the boxes passed so far. */
  ghost predicate Seen(done: seq<Box>, moov: Option<nat>, mdat: Option<nat>, offset: nat) {
    && (moov.Some? ==> moov.value < offset) && (mdat.Some? ==> mdat.value < offset)
    && (moov.Some? <==> exists i :: 0 <= i < |done| && done[i].kind == MOOV)
    && (mdat.Some? <==> exists i :: 0 <= i < |done| && done[i].kind == MDAT)
    && (moov.Some? && mdat.Some? ==> (moov.value < mdat.value <==> MoovFirst(done)))
  }

  lemma SeenNext(done: seq<Box>, b: Box, moov: Option<nat>, mdat: Option<nat>, offset: nat, next: nat)
    requires Seen(done, moov, mdat, offset) && offset < next
    ensures
      Seen(done + [b],
           if b.kind == MOOV && moov.None? then Some(offset) else moov,
           if b.kind == MDAT && mdat.None? then Some(offset) else mdat, next)
  {
    var n, done' := |done|, done + [b];
    assert done'[n] == b && forall i :: 0 <= i < n ==> done'[i] == done[i];
    assert MOOV != MDAT by { assert MOOV[1] != MDAT[1]; }
    assert MoovFirst(done) ==> MoovFirst(done');
    if b.kind == MDAT && mdat.None? && moov.Some? {
      var i :| 0 <= i < n && done[i].kind == MOOV;
      assert done'[i].kind == MOOV && done'[n].kind == MDAT;
      assert MoovFirst(done');
    }
    if MoovFirst(done') && mdat.Some? {
      MoovFirstBefore(done, b);
    }
  }

  /** A later box does not change the order of the firsts. */
  lemma MoovFirstBefore(done: seq<Box>, b: Box)
    requires MoovFirst(done + [b]) && exists i :: 0 <= i < |done| && done[i].kind == MDAT
    ensures MoovFirst(done)
  {
    var d := done + [b];
    var i, k :| 0 <= i < k < |d| && d[i].kind == MOOV && d[k].kind == MDAT && forall j :: 0 <= j < i ==> d[j].kind != MDAT;
    var m :| 0 <= m < |done| && done[m].kind == MDAT;
    assert d[m] == done[m] && d[i] == done[i] && forall j :: 0 <= j < i ==> d[j] == done[j];
    assert MOOV[1] != MDAT[1];
    assert i < m && done[i].kind == MOOV && done[m].kind == MDAT;
  }

  ghost function Prepend(done: seq<Box>, rest: Option<seq<Box>>): Option<seq<Box>> {
    if rest.None? then None else Some(done + rest.value)
  }

  /** One turn of the scan, seen from the parser. */
  lemma ScanStep(file: seq<Byte>, done: seq<Box>, offset: nat)
    requires offset < |file|
    ensures
      match ReadBoxHeader(file, offset)
      case None => Parse(file[offset..]).None?
      case Some((form, size, kind)) =>
        && 8 <= size <= |file| - offset && FirstBox(file[offset..]).Some? && FirstBox(file[offset..]).value.kind == kind
        && Prepend(done, Parse(file[offset..])) == Prepend(done + [FirstBox(file[offset..]).value], Parse(file[offset + size..]))
  {
    hide ReadBoxHeader;
    var s := file[offset..];
    HeaderOfSuffix(file, offset);
    HeaderFits(s);
    if FirstBox(s).Some? {
      var b := FirstBox(s).value;
      var size := ReadBoxHeader(file, offset).value.1;
      assert Size(b) == size;
      assert s[size..] == file[offset + size..];
      if Parse(s[size..]).Some? {
        assert done + ([b] + Parse(s[size..]).value) == (done + [b]) + Parse(s[size..]).value;
      }
    }
  }

  /** `_assert_faststart`; false is the exception. */
  method AssertFaststart(file: seq<Byte>) returns (ok: bool)
    ensures ok <==> exists boxes :: WellFormed(boxes) && Serialize(boxes) == file && MoovFirst(boxes)
  {
    hide WellFormed, Serialize, MoovFirst, Parse, ReadBoxHeader, FirstBox, Seen;
    ghost var done: seq<Box> := [];
    var offset := 0;
    var moov: Option<nat>, mdat: Option<nat> := None, None;
    ScanStart(file);
    while offset < |file|
      invariant 0 <= offset <= |file|
      invariant Seen(done, moov, mdat, offset)
      invariant Parse(file) == Prepend(done, Parse(file[offset..]))
    {
      ScanStep(file, done, offset);
      var header := ReadBoxHeader(file, offset);
      if header.None? {
        Rejected(file);
        return false;
      }
      var (_, size, kind) := header.value;
      SeenNext(done, FirstBox(file[offset..]).value, moov, mdat, offset, offset + size);
      done := done + [FirstBox(file[offset..]).value];
      if kind == MOOV && moov.None? {
        moov := Some(offset);
      } else if kind == MDAT && mdat.None? {
        mdat := Some(offset);
      }
      offset := offset + size;
    }
    ScanEnd(file, done, moov, mdat, offset);
    ok := !(offset != |file| || moov.None? || mdat.None? || moov.value >= mdat.value);
  }

  lemma ScanStart(file: seq<Byte>)
    ensures Seen([], None, None, 0) && Parse(file) == Prepend([], Parse(file[0..]))
  {
    assert file[0..] == file;
    if Parse(file).Some? {
      assert [] + Parse(file).value == Parse(file).value;
    }
  }

  lemma Rejected(file: seq<Byte>)
    requires Parse(file).None?
    ensures !exists boxes :: WellFormed(boxes) && Serialize(boxes) == file
  {
    forall boxes | WellFormed(boxes) && Serialize(boxes) == file ensures false {
      ParseWritten(boxes);
    }
  }

  lemma ScanEnd(file: seq<Byte>, done: seq<Box>, moov: Option<nat>, mdat: Option<nat>, offset: nat)
    requires offset == |file| && Seen(done, moov, mdat, offset) && Parse(file) == Prepend(done, Parse(file[offset..]))
    ensures
      (moov.Some? && mdat.Some? && moov.value < mdat.value) <==>
      exists boxes :: WellFormed(boxes) && Serialize(boxes) == file && MoovFirst(boxes)
  {
    hide WellFormed, Serialize;
    assert file[offset..] == [];
    assert Parse([]) == Some([]) && done + [] == done;
    WrittenParse(file);
    forall boxes | WellFormed(boxes) && Serialize(boxes) == file ensures boxes == done {
      ParseWritten(boxes);
    }
  }

  /** On the serialization of any box list the scan gives the answer read off the list. */
  lemma AnswerOnSerialized(boxes: seq<Box>)
    requires WellFormed(boxes)
    ensures (exists other :: WellFormed(other) && Serialize(other) == Serialize(boxes) && MoovFirst(other)) <==> MoovFirst(boxes)
  {
    hide WellFormed, Serialize, MoovFirst, Parse;
    ParseWritten(boxes);
    forall other | WellFormed(other) && Serialize(other) == Serialize(boxes) ensures other == boxes {
      ParseWritten(other);
    }
  }
}
