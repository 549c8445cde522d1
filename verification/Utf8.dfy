/** UTF-8 as defined in section 4 of RFC 3629, and decoding with replacement characters as recommended in
    section 3.9 of Unicode 6.0. */
module Utf8 {
  type CodeUnit = x: int | 0 <= x < 256

  const REPLACEMENT := 0xFFFD

  predicate IsScalar(c: int) {
    0 <= c < 0xD800 || 0xE000 <= c <= 0x10FFFF
  }

  /** Groups of six bits, the last group last, behind a first byte that tells how many there are. */
  function Encode(c: int): (b: seq<CodeUnit>)
    requires IsScalar(c)
  {
    if c < 0x80 then [c]
    else if c < 0x800 then [0xC0 + c / 64, 0x80 + c % 64]
    else if c < 0x10000 then [0xE0 + c / 64 / 64, 0x80 + c / 64 % 64, 0x80 + c % 64]
    else [0xF0 + c / 64 / 64 / 64, 0x80 + c / 64 / 64 % 64, 0x80 + c / 64 % 64, 0x80 + c % 64]
  }

  /** How many bytes a sequence has that starts with `b`; 0 if none does. */
  function Length(b: CodeUnit): nat {
    if b < 0x80 then 1
    else if b < 0xC2 then 0
    else if b < 0xE0 then 2
    else if b < 0xF0 then 3
    else if b < 0xF5 then 4
    else 0
  }

  predicate Continues(b: CodeUnit) {
    0x80 <= b < 0xC0
  }

  predicate Second(first: CodeUnit, b: CodeUnit) {
    && Continues(b)
    && (first == 0xE0 ==> 0xA0 <= b)
    && (first == 0xED ==> b < 0xA0)
    && (first == 0xF0 ==> 0x90 <= b)
    && (first == 0xF4 ==> b < 0x90)
  }

  /** A character or the beginning of one. */
  predicate Viable(b: seq<CodeUnit>) {
    && 0 < |b| <= Length(b[0])
    && (1 < |b| ==> Second(b[0], b[1]))
    && (2 < |b| ==> Continues(b[2]))
    && (3 < |b| ==> Continues(b[3]))
  }

  predicate Complete(b: seq<CodeUnit>) {
    Viable(b) && |b| == Length(b[0])
  }

  /** The number that `high` followed by a continuation byte stands for. */
  function Append6(high: int, b: CodeUnit): int {
    high * 64 + b - 0x80
  }

  function Scalar(b: seq<CodeUnit>): int
    requires Complete(b)
  {
    var first: int := b[0];
    if |b| == 1 then first
    else if |b| == 2 then Append6(first - 0xC0, b[1])
    else if |b| == 3 then Append6(Append6(first - 0xE0, b[1]), b[2])
    else Append6(Append6(Append6(first - 0xF0, b[1]), b[2]), b[3])
  }

  lemma Split6(high: int, b: CodeUnit)
    requires Continues(b)
    ensures Append6(high, b) / 64 == high && Append6(high, b) % 64 == b - 0x80
  {
  }

  lemma Join6(c: int)
    ensures Append6(c / 64, 0x80 + c % 64) == c
  {
  }

  lemma TwoBytes(b: seq<CodeUnit>)
    requires Complete(b) && |b| == 2
    ensures IsScalar(Scalar(b)) && Encode(Scalar(b)) == b
  {
    Split6(b[0] as int - 0xC0, b[1]);
  }

  lemma ThreeBytes(b: seq<CodeUnit>)
    requires Complete(b) && |b| == 3
    ensures IsScalar(Scalar(b)) && Encode(Scalar(b)) == b
  {
    var first: int := b[0];
    Split6(first - 0xE0, b[1]);
    Split6(Append6(first - 0xE0, b[1]), b[2]);
  }

  lemma FourBytes(b: seq<CodeUnit>)
    requires Complete(b) && |b| == 4
    ensures IsScalar(Scalar(b)) && Encode(Scalar(b)) == b
  {
    var first: int := b[0];
    var middle := Append6(first - 0xF0, b[1]);
    Split6(first - 0xF0, b[1]);
    Split6(middle, b[2]);
    Split6(Append6(middle, b[2]), b[3]);
  }

  lemma ScalarEncodes(b: seq<CodeUnit>)
    requires Complete(b)
    ensures IsScalar(Scalar(b)) && Encode(Scalar(b)) == b
  {
    if |b| == 2 {
      TwoBytes(b);
    } else if |b| == 3 {
      ThreeBytes(b);
    } else if |b| == 4 {
      FourBytes(b);
    }
  }

  lemma EncodeComplete(c: int)
    requires IsScalar(c)
    ensures Complete(Encode(c)) && Scalar(Encode(c)) == c
  {
    Join6(c);
    Join6(c / 64);
    Join6(c / 64 / 64);
  }

  lemma PrefixViable(b: seq<CodeUnit>, c: int)
    requires IsScalar(c) && b != [] && b <= Encode(c)
    ensures Viable(b)
  {
    hide Encode, Scalar;
    EncodeComplete(c);
  }

  /** The byte tables say which sequences begin a character, and which are one. */
  lemma ViableMeans(b: seq<CodeUnit>)
    ensures Viable(b) <==> b != [] && exists c :: IsScalar(c) && b <= Encode(c)
    ensures Complete(b) <==> exists c :: IsScalar(c) && b == Encode(c)
  {
    hide Encode, Scalar;
    if Viable(b) {
      var full := b + Filling(b);
      ScalarEncodes(full);
      assert b <= Encode(Scalar(full));
    }
    forall c | IsScalar(c) && b != [] && b <= Encode(c) ensures Viable(b) { PrefixViable(b, c); }
    forall c | IsScalar(c) && b == Encode(c) ensures Complete(b) { EncodeComplete(c); }
    if Complete(b) { ScalarEncodes(b); }
  }

  /** Bytes that complete a sequence. */
  function Filling(b: seq<CodeUnit>): (f: seq<CodeUnit>)
    requires Viable(b)
    ensures Complete(b + f)
  {
    var second := if b[0] == 0xE0 then 0xA0 else if b[0] == 0xF0 then 0x90 else 0x80;
    var all := [second, 0x80, 0x80][..Length(b[0]) - 1];
    all[|b| - 1..]
  }

  // ---------------------------------------------------------------- whole strings

  /** The length of the longest beginning of `s` that is viable, knowing that it is at least `n`. */
  function ViableLength(s: seq<CodeUnit>, n: nat): (m: nat)
    requires n <= |s| && (0 < n ==> Viable(s[..n]))
    ensures n <= m <= |s| && (0 < m ==> Viable(s[..m])) && (m < |s| ==> !Viable(s[..m + 1]))
    decreases |s| - n
  {
    if n < |s| && Viable(s[..n + 1]) then ViableLength(s, n + 1) else n
  }

  datatype Pieces = Pieces(done: seq<seq<CodeUnit>>, rest: seq<CodeUnit>)

  /** All of `s` may still become a character. */
  predicate Waiting(s: seq<CodeUnit>) {
    ViableLength(s, 0) == |s| && !Complete(s)
  }

  /** The length of the character, or of the maximal subpart of an ill-formed sequence, that `s` starts with. */
  function Cut(s: seq<CodeUnit>): (k: nat)
    requires s != []
    ensures 0 < k <= |s|
  {
    if ViableLength(s, 0) == 0 then 1 else ViableLength(s, 0)
  }

  /** Cuts `s` into characters and maximal subparts of ill-formed sequences; what may still become a character
      remains. */
  function Split(s: seq<CodeUnit>): (p: Pieces)
    decreases |s|
  {
    if s == [] || Waiting(s) then Pieces([], s)
    else
      var p := Split(s[Cut(s)..]);
      Pieces([s[..Cut(s)]] + p.done, p.rest)
  }

  function Point(piece: seq<CodeUnit>): int {
    if Complete(piece) then Scalar(piece) else REPLACEMENT
  }

  function Points(pieces: seq<seq<CodeUnit>>): seq<int> {
    seq(|pieces|, i requires 0 <= i < |pieces| => Point(pieces[i]))
  }

  /** A piece that is no character reads as the replacement character, U+FFFD. */
  lemma Replaced(piece: seq<CodeUnit>)
    requires forall c | IsScalar(c) :: Encode(c) != piece
    ensures Point(piece) == 0xFFFD
  {
    hide Encode, Scalar, Complete;
    if Complete(piece) { ScalarEncodes(piece); }
  }

  ghost function Concat(pieces: seq<seq<CodeUnit>>): seq<CodeUnit> {
    if pieces == [] then [] else pieces[0] + Concat(pieces[1..])
  }

  lemma SplitStep(s: seq<CodeUnit>)
    ensures s == [] || Waiting(s) ==> Split(s) == Pieces([], s)
    ensures s != [] && !Waiting(s)
        ==> Split(s) == Pieces([s[..Cut(s)]] + Split(s[Cut(s)..]).done, Split(s[Cut(s)..]).rest)
  {
    hide Waiting, Cut;
  }

  /** No byte is lost. */
  lemma {:induction false} SplitJoins(s: seq<CodeUnit>)
    ensures Concat(Split(s).done) + Split(s).rest == s
    decreases |s|
  {
    hide Waiting, Cut, Split;
    SplitStep(s);
    if s != [] && !Waiting(s) {
      var p := Split(s[Cut(s)..]);
      SplitJoins(s[Cut(s)..]);
      assert Split(s).done[1..] == p.done;
      assert s[..Cut(s)] + (Concat(p.done) + p.rest) == s;
    }
  }

  /** Every beginning of a viable sequence is viable. */
  lemma ViablePrefix(b: seq<CodeUnit>, n: nat)
    requires Viable(b) && 0 < n <= |b|
    ensures Viable(b[..n]) && (n < |b| ==> !Complete(b[..n]))
  {
  }

  lemma LongestViable(s: seq<CodeUnit>, m: nat)
    requires 0 < m <= |s| && Viable(s[..m])
    ensures m <= ViableLength(s, 0)
  {
    var n := ViableLength(s, 0);
    var k := if n + 1 <= m then n + 1 else m;
    ViablePrefix(s[..m], k);
    assert s[..m][..k] == s[..k];
  }

  /** Each piece is as long as a character or the beginning of one can be there. */
  lemma FirstPiece(s: seq<CodeUnit>, m: nat)
    requires s != [] && Split(s).done != [] && 0 < m <= |s| && Viable(s[..m])
    ensures m <= |Split(s).done[0]|
  {
    LongestViable(s, m);
  }

  lemma {:induction false} ViableLengthLonger(s: seq<CodeUnit>, c: CodeUnit, n: nat)
    requires n <= |s| && (0 < n ==> Viable(s[..n]))
    requires ViableLength(s, n) < |s| || (0 < |s| && Complete(s))
    ensures 0 < n ==> Viable((s + [c])[..n])
    ensures ViableLength(s + [c], n) == ViableLength(s, n)
    decreases |s| - n
  {
    var t := s + [c];
    assert t[..n] == s[..n];
    if n < |s| {
      assert t[..n + 1] == s[..n + 1];
      if Viable(s[..n + 1]) { ViableLengthLonger(s, c, n + 1); }
    } else {
      assert t[..n + 1] == t && s[..n] == s;
    }
  }

  lemma CutLonger(s: seq<CodeUnit>, c: CodeUnit)
    requires s != [] && !Waiting(s)
    ensures !Waiting(s + [c]) && Cut(s + [c]) == Cut(s)
  {
    hide Viable;
    assert s[..|s|] == s;
    ViableLengthLonger(s, c, 0);
  }

  /** Decoding goes on from what remained. */
  lemma {:induction false} SplitSnoc(s: seq<CodeUnit>, c: CodeUnit)
    ensures var p, q := Split(s), Split(Split(s).rest + [c]);
            Split(s + [c]) == Pieces(p.done + q.done, q.rest)
    decreases |s|
  {
    hide Waiting, Cut, Split;
    SplitStep(s);
    if s == [] || Waiting(s) {
      var q := Split(s + [c]);
      assert [] + q.done == q.done;
    } else {
      var k := Cut(s);
      CutLonger(s, c);
      SplitSnoc(s[k..], c);
      var t := s + [c];
      assert t[..k] == s[..k] && t[k..] == s[k..] + [c];
      SplitStep(t);
      var p := Split(s[k..]);
      var q := Split(p.rest + [c]);
      assert [s[..k]] + (p.done + q.done) == [s[..k]] + p.done + q.done;
    }
  }

  function EncodeAll(text: seq<int>): seq<CodeUnit>
    requires forall i | 0 <= i < |text| :: IsScalar(text[i])
  {
    if text == [] then [] else Encode(text[0]) + EncodeAll(text[1..])
  }

  lemma {:induction false} ViableLengthComplete(b: seq<CodeUnit>, more: seq<CodeUnit>, n: nat)
    requires Complete(b) && n <= |b| && (0 < n ==> Viable(b[..n]))
    ensures 0 < n ==> Viable((b + more)[..n])
    ensures ViableLength(b + more, n) == |b|
    decreases |b| - n
  {
    var t := b + more;
    assert t[..n] == b[..n];
    if n < |b| {
      assert t[..n + 1] == b[..n + 1];
      ViablePrefix(b, n + 1);
      ViableLengthComplete(b, more, n + 1);
    }
  }

  lemma CutComplete(b: seq<CodeUnit>, more: seq<CodeUnit>)
    requires Complete(b)
    ensures !Waiting(b + more) && Cut(b + more) == |b|
  {
    ViableLengthComplete(b, more, 0);
    assert |b + more| == |b| ==> b + more == b;
  }

  /** Decoding undoes encoding. */
  lemma {:induction false} RoundTrip(text: seq<int>)
    requires forall i | 0 <= i < |text| :: IsScalar(text[i])
    ensures Points(Split(EncodeAll(text)).done) == text && Split(EncodeAll(text)).rest == []
  {
    hide Waiting, Cut, Complete, Encode, Scalar;
    if text != [] {
      var b, more := Encode(text[0]), EncodeAll(text[1..]);
      EncodeComplete(text[0]);
      CutComplete(b, more);
      RoundTrip(text[1..]);
      assert (b + more)[..|b|] == b && (b + more)[|b|..] == more;
    }
  }

  // ---------------------------------------------------------------- byte by byte

  datatype Verdict = Parsed(bytes: nat, c: int) | IllFormed | Partial

  /** `mbrtowc` on a nonempty buffer in a UTF-8 locale. It reports 0 bytes for the character 0. */
  function Mbrtowc(b: seq<CodeUnit>): (v: Verdict)
    requires b != []
    ensures v.Parsed? ==> IsScalar(v.c)
  {
    var n := ViableLength(b, 0);
    if 0 < n && Complete(b[..n]) then
      ScalarEncodes(b[..n]);
      Parsed(if Scalar(b[..n]) == 0 then 0 else n, Scalar(b[..n]))
    else if n == |b| then Partial
    else IllFormed
  }

  lemma PointsNone()
    ensures Points([]) == []
  {
  }

  lemma PointsAppend(a: seq<seq<CodeUnit>>, b: seq<seq<CodeUnit>>)
    ensures Points(a + b) == Points(a) + Points(b)
  {
  }

  /** The first piece, and the others. */
  lemma SplitPoints(b: seq<CodeUnit>)
    ensures b == [] || Waiting(b) ==> Split(b) == Pieces([], b)
    ensures b != [] && !Waiting(b)
        ==> Points(Split(b).done) == [Point(b[..Cut(b)])] + Points(Split(b[Cut(b)..]).done)
            && Split(b).rest == Split(b[Cut(b)..]).rest
  {
    hide Cut, Waiting, Split, Point;
    SplitStep(b);
    if b != [] && !Waiting(b) {
      var first, more := [b[..Cut(b)]], Split(b[Cut(b)..]).done;
      PointsAppend(first, more);
      assert Points(first) == [Point(b[..Cut(b)])];
    }
  }

  /** What remains after decoding is the beginning of a character. */
  lemma {:induction false} RestWaits(s: seq<CodeUnit>)
    ensures var rest := Split(s).rest; rest == [] || (Waiting(rest) && Viable(rest) && |rest| < 4)
    decreases |s|
  {
    hide Cut;
    if s != [] && Waiting(s) {
      assert s[..|s|] == s;
    } else if s != [] {
      RestWaits(s[Cut(s)..]);
    }
  }

  /** What `mbrtowc` says of a buffer that was waiting before its last byte. */
  lemma Verdicts(b: seq<CodeUnit>)
    requires b != [] && (|b| == 1 || Waiting(b[..|b| - 1]))
    ensures var v := Mbrtowc(b);
            && (v.Parsed? ==> !Waiting(b) && Cut(b) == |b| && Point(b) == v.c
                              && (if v.bytes == 0 then |b| == 1 && v.c == 0 else v.bytes == |b|))
            && (v.IllFormed? ==> !Waiting(b) && Cut(b) == (if |b| > 1 then |b| - 1 else 1)
                                 && Point(b[..Cut(b)]) == REPLACEMENT)
            && (v.Partial? ==> Waiting(b))
  {
    hide Encode, Scalar;
    var n := ViableLength(b, 0);
    assert b[..|b|] == b;
    if 1 < |b| {
      var before := b[..|b| - 1];
      assert before[..|before|] == before;
      LongestViable(b, |before|);
    }
    if Complete(b) {
      ScalarEncodes(b);
      assert Encode(0) == [0] by { ZeroByte(); }
    }
  }

  lemma ZeroByte()
    ensures IsScalar(0) && Encode(0) == [0]
  {
  }

  const BUF_SIZE := 8

  class Utf8Parser {
    const buf: array<CodeUnit>
    var bufLen: nat
    /** The code points passed on to the escape sequence parser. */
    var passed: seq<int>
    /** All bytes that were input. */
    ghost var fed: seq<CodeUnit>

    ghost predicate Valid()
      reads this, buf
    {
      && buf.Length == BUF_SIZE && bufLen < BUF_SIZE
      && passed == Points(Split(fed).done)
      && buf[..bufLen] == Split(fed).rest
    }

    constructor ()
      ensures Valid() && fed == [] && passed == [] && bufLen == 0 && fresh(buf)
    {
      buf := new CodeUnit[BUF_SIZE](_ => 0);
      bufLen, passed, fed := 0, [], [];
    }

    constructor Copy(other: Utf8Parser)
      requires other.Valid()
      ensures Valid() && fed == other.fed && passed == other.passed && fresh(buf)
      ensures bufLen == other.bufLen && buf[..bufLen] == other.buf[..bufLen]
    {
      buf := new CodeUnit[BUF_SIZE](i requires 0 <= i < BUF_SIZE && other.buf.Length == BUF_SIZE reads other.buf => other.buf[i]);
      bufLen, passed, fed := other.bufLen, other.passed, other.fed;
      new;
      assert buf[..] == other.buf[..];
      assert buf[..bufLen] == buf[..][..bufLen] && other.buf[..bufLen] == other.buf[..][..bufLen];
    }

    /** Decodes what is in the buffer, whose last byte is new. */
    method Drain()
      requires buf.Length == BUF_SIZE && 0 < bufLen <= BUF_SIZE
      requires bufLen == 1 || Waiting(buf[..bufLen - 1])
      modifies this`bufLen, this`passed, buf
      ensures bufLen <= BUF_SIZE
      ensures var p := Split(old(buf[..bufLen])); passed == old(passed) + Points(p.done) && buf[..bufLen] == p.rest
    {
      hide Mbrtowc, Cut, Waiting, Points, Viable, Point, Split;
      ghost var p := Split(buf[..bufLen]);
      var total, length := 0, bufLen;
      while total != length
        invariant 0 <= total <= length && bufLen <= length <= BUF_SIZE
        invariant total + bufLen == length || (total == length && Waiting(buf[..bufLen]))
        invariant bufLen <= 1 || Waiting(buf[..bufLen - 1])
        invariant passed + Points(Split(buf[..bufLen]).done) == old(passed) + Points(p.done)
        invariant Split(buf[..bufLen]).rest == p.rest
        decreases length - total
      {
        assert total < length && 0 < bufLen;
        ghost var b := buf[..bufLen];
        assert b[..bufLen - 1] == buf[..bufLen - 1];
        Verdicts(b);
        SplitPoints(b);
        var c, bytes;
        match Mbrtowc(buf[..bufLen]) {
          case Parsed(n, point) =>
            c, bytes := point, n;
            if bytes == 0 {
              assert bufLen == 1;
              bytes := 1;
            }
            bufLen := bufLen - bytes;
          case IllFormed =>
            if bufLen > 1 {
              buf[0] := buf[bufLen - 1];
              bytes := bufLen - 1;
              bufLen := 1;
            } else {
              bufLen := 0;
              bytes := 1;
            }
            c := REPLACEMENT;
          case Partial =>
            total := total + bufLen;
            continue;
        }
        assert buf[..bufLen] == b[bytes..] && b[..|b|] == b;
        assert bytes == Cut(b) && Point(b[..bytes]) == c;
        ghost var more := Points(Split(b[bytes..]).done);
        assert passed + ([c] + more) == (passed + [c]) + more;
        passed := passed + [c];
        total := total + bytes;
      }
      SplitPoints(buf[..bufLen]);
      assert Points([]) == [] by { PointsNone(); }
    }

    /** Takes one byte. What has been passed on, and what is kept, is what decoding the whole input gives. */
    method Input(c: CodeUnit)
      requires Valid()
      modifies this, buf
      ensures Valid() && fed == old(fed) + [c]
      ensures var p := Split(old(buf[..bufLen]) + [c]); passed == old(passed) + Points(p.done) && buf[..bufLen] == p.rest
    {
      hide Points, Waiting, Viable;
      ghost var before, kept := Split(fed), buf[..bufLen];
      SplitSnoc(fed, c);
      RestWaits(fed);
      PointsAppend(before.done, Split(before.rest + [c]).done);
      fed := fed + [c];
      RestWaits(fed);
      if bufLen == 0 && c <= 0x7F {
        Ascii(c);
        passed := passed + [c];
        return;
      }
      buf[bufLen] := c;
      bufLen := bufLen + 1;
      assert buf[..bufLen - 1] == kept && buf[..bufLen] == kept + [c];
      Drain();
    }
  }

  lemma Ascii(c: CodeUnit)
    requires c <= 0x7F
    ensures Points(Split([] + [c]).done) == [c as int] && Split([] + [c]).rest == []
  {
  }
}
