/**
 The polyline decoder, proved against the encoder of Google's Encoded Polyline Algorithm
 Format for integers of any size.
 */
module Polyline {
  import opened Basics

  // ----- Bits -----------------------------------------------------------------

  function Pow2(n: nat): (p: nat)
    ensures p > 0
  {
    if n == 0 then 1 else 2 * Pow2(n - 1)
  }

  /** Bitwise or of naturals. */
  function Or(a: nat, b: nat): nat
    decreases a + b
  {
    if a == 0 && b == 0 then 0
    else (if a % 2 == 1 || b % 2 == 1 then 1 else 0) + 2 * Or(a / 2, b / 2)
  }

  lemma {:induction false} OrZero(a: nat)
    ensures Or(0, a) == a
  {
    if a == 0 {
    } else {
      OrZero(a / 2);
    }
  }

  lemma Halved(n: nat, p: nat)
    ensures (n * (2 * p)) / 2 == n * p && (n * (2 * p)) % 2 == 0
  {
    assert n * (2 * p) == 2 * (n * p);
  }

  /** Bits that do not overlap are added. */
  lemma {:induction false} OrOfDisjoint(a: nat, b: nat, shift: nat)
    requires a < Pow2(shift)
    ensures Or(a, b * Pow2(shift)) == a + b * Pow2(shift)
  {
    if shift == 0 {
      OrZero(b);
    } else {
      Halved(b, Pow2(shift - 1));
      OrOfDisjoint(a / 2, b, shift - 1);
    }
  }

  // ----- Reading --------------------------------------------------------------

  function Byte(c: char): int { c as int - 63 }

  /** The five payload bits, as a mask of the two's complement value. */
  function Payload(c: char): (n: nat)
    ensures n < 32
  {
    Byte(c) % 32
  }

  predicate Continues(c: char) { Byte(c) >= 0x20 }

  /** The number that starts at `i` and the position after it; nothing if the text ends in it. */
  function ReadNumber(s: string, i: nat): (r: Option<(nat, nat)>)
    ensures r.Some? ==> i < r.value.1 <= |s|
    decreases |s| - i
  {
    if i >= |s| then None
    else if !Continues(s[i]) then Some((Payload(s[i]), i + 1))
    else
      var rest :- ReadNumber(s, i + 1);
      Some((Payload(s[i]) + 32 * rest.0, rest.1))
  }

  /** The delta a number stands for. */
  function Unfold(n: nat): int { if n % 2 == 1 then -(n / 2) - 1 else n / 2 }

  /** The points from position `i` on, after the point (`latitude`, `longitude`). */
  function ReadPoints(s: string, i: nat, latitude: int, longitude: int): Option<seq<(int, int)>>
    decreases |s| - i
  {
    if i >= |s| then Some([])
    else
      var a :- ReadNumber(s, i);
      var b :- ReadNumber(s, a.1);
      var lat, lon := latitude + Unfold(a.0), longitude + Unfold(b.0);
      var rest :- ReadPoints(s, b.1, lat, lon);
      Some([(lon, lat)] + rest)
  }

  function Scaled(points: seq<(int, int)>): (r: seq<(real, real)>)
    ensures |r| == |points|
    ensures forall k :: 0 <= k < |r| ==> r[k] == (points[k].0 as real / 100000.0, points[k].1 as real / 100000.0)
  {
    seq(|points|, k requires 0 <= k < |points| => (points[k].0 as real / 100000.0, points[k].1 as real / 100000.0))
  }

  lemma ScaledOneMore(points: seq<(int, int)>, longitude: int, latitude: int)
    ensures Scaled(points + [(longitude, latitude)]) ==
              Scaled(points) + [(longitude as real / 100000.0, latitude as real / 100000.0)]
  {
  }

  // ----- The decoder ----------------------------------------------------------

  /** What has been read so far, with `shift` bits in `result`, and what is still to come. */
  ghost predicate ReadSoFar(s: string, start: nat, index: nat, shift: nat, result: nat) {
    && result < Pow2(shift)
    && match ReadNumber(s, index)
       case None => ReadNumber(s, start).None?
       case Some((n, next)) => ReadNumber(s, start) == Some((result + n * Pow2(shift), next))
  }

  lemma Pow2Plus5(shift: nat)
    ensures Pow2(shift + 5) == 32 * Pow2(shift)
  {
    assert Pow2(shift + 5) == 2 * Pow2(shift + 4) == 4 * Pow2(shift + 3) == 8 * Pow2(shift + 2) == 16 * Pow2(shift + 1);
  }

  lemma Regroup(result: nat, x: nat, n: nat, p: nat)
    ensures result + (x + 32 * n) * p == result + x * p + n * (32 * p)
  {
  }

  lemma StaysBelow(result: nat, x: nat, p: nat)
    requires result < p && x < 32
    ensures result + x * p < 32 * p
  {
    assert x * p <= 31 * p;
  }

  lemma ReadStep(s: string, start: nat, index: nat, shift: nat, result: nat)
    requires index < |s| && ReadSoFar(s, start, index, shift, result)
    ensures var total := Or(result, Payload(s[index]) * Pow2(shift));
            if Continues(s[index]) then ReadSoFar(s, start, index + 1, shift + 5, total)
            else ReadNumber(s, start) == Some((total, index + 1))
  {
    var x := Payload(s[index]);
    OrOfDisjoint(result, x, shift);
    if Continues(s[index]) {
      Pow2Plus5(shift);
      StaysBelow(result, x, Pow2(shift));
      var rest := ReadNumber(s, index + 1);
      if rest.Some? { Regroup(result, x, rest.value.0, Pow2(shift)); }
    }
  }

  method DecodeNumber(s: string, start: nat) returns (r: Option<(nat, nat)>)
    requires start <= |s|
    ensures r == ReadNumber(s, start)
  {
    var index, shift, result := start, 0, 0;
    while true
      invariant start <= index <= |s| && ReadSoFar(s, start, index, shift, result)
      decreases |s| - index
    {
      if index == |s| { return None; }
      var byte := Byte(s[index]);
      ReadStep(s, start, index, shift, result);
      result := Or(result, (byte % 32) * Pow2(shift));
      index := index + 1;
      shift := shift + 5;
      if byte < 0x20 { return Some((result, index)); }
    }
  }

  /** Decodes to (longitude, latitude) pairs; nothing if the text breaks off inside a point. */
  method Decode(encoded: string) returns (r: Option<seq<(real, real)>>)
    ensures r.Some? <==> ReadPoints(encoded, 0, 0, 0).Some?
    ensures r.Some? ==> r.value == Scaled(ReadPoints(encoded, 0, 0, 0).value)
  {
    var coordinates: seq<(real, real)> := [];
    var latitude, longitude, index := 0, 0, 0;
    ghost var read: seq<(int, int)> := [];
    PrependNone(ReadPoints(encoded, 0, 0, 0));
    while index < |encoded|
      invariant index <= |encoded| && coordinates == Scaled(read)
      invariant ReadPoints(encoded, 0, 0, 0) == Prepend(read, ReadPoints(encoded, index, latitude, longitude))
    {
      var a := DecodeNumber(encoded, index);
      if a.None? { return None; }
      var b := DecodeNumber(encoded, a.value.1);
      if b.None? { return None; }
      latitude := latitude + Unfold(a.value.0);
      longitude := longitude + Unfold(b.value.0);
      PrependOne(read, (longitude, latitude), ReadPoints(encoded, b.value.1, latitude, longitude));
      ScaledOneMore(read, longitude, latitude);
      coordinates := coordinates + [(longitude as real / 100000.0, latitude as real / 100000.0)];
      read := read + [(longitude, latitude)];
      index := b.value.1;
    }
    assert read + [] == read;
    r := Some(coordinates);
  }

  ghost function Prepend(read: seq<(int, int)>, rest: Option<seq<(int, int)>>): Option<seq<(int, int)>> {
    if rest.Some? then Some(read + rest.value) else None
  }

  lemma PrependNone(rest: Option<seq<(int, int)>>)
    ensures Prepend([], rest) == rest
  {
    if rest.Some? { assert [] + rest.value == rest.value; }
  }

  lemma PrependOne(read: seq<(int, int)>, x: (int, int), rest: Option<seq<(int, int)>>)
    ensures Prepend(read, Prepend([x], rest)) == Prepend(read + [x], rest)
  {
    if rest.Some? { assert read + ([x] + rest.value) == read + [x] + rest.value; }
  }

  // ----- The encoder ----------------------------------------------------------

  /** Non-negative deltas become even numbers, negative ones odd. */
  function Fold(delta: int): nat { if delta >= 0 then 2 * delta else -2 * delta - 1 }

  function EncodeNumber(n: nat): (s: string)
    ensures s != ""
  {
    if n < 32 then [(n + 63) as char]
    else [(n % 32 + 32 + 63) as char] + EncodeNumber(n / 32)
  }

  /** The points are (latitude, longitude) pairs. */
  function EncodePoints(points: seq<(int, int)>, latitude: int, longitude: int): string {
    if points == [] then ""
    else
      var p := points[0];
      EncodeNumber(Fold(p.0 - latitude)) + EncodeNumber(Fold(p.1 - longitude)) + EncodePoints(points[1..], p.0, p.1)
  }

  function Swapped(points: seq<(int, int)>): seq<(int, int)> {
    if points == [] then [] else [(points[0].1, points[0].0)] + Swapped(points[1..])
  }

  /** The text has `code` at position `i`. */
  ghost predicate At(text: string, i: nat, code: string) {
    i + |code| <= |text| && text[i..i + |code|] == code
  }

  lemma AtSplits(text: string, i: nat, a: string, b: string)
    requires At(text, i, a + b)
    ensures At(text, i, a) && At(text, i + |a|, b)
  {
    assert text[i..i + |a + b|][..|a|] == a && text[i..i + |a + b|][|a|..] == b;
  }

  lemma {:induction false} NumberReadsBack(text: string, i: nat, n: nat)
    requires At(text, i, EncodeNumber(n))
    ensures ReadNumber(text, i) == Some((n, i + |EncodeNumber(n)|))
    decreases n
  {
    var code := EncodeNumber(n);
    assert text[i] == code[0];
    if n >= 32 {
      AtSplits(text, i, [code[0]], EncodeNumber(n / 32));
      NumberReadsBack(text, i + 1, n / 32);
    }
  }

  lemma FoldsBack(delta: int)
    ensures Unfold(Fold(delta)) == delta
  {
  }

  /** The rest of the text is the encoding of these points. */
  ghost predicate Remains(text: string, i: nat, points: seq<(int, int)>, latitude: int, longitude: int) {
    At(text, i, EncodePoints(points, latitude, longitude)) && i + |EncodePoints(points, latitude, longitude)| == |text|
  }

  lemma PairReadsBack(text: string, i: nat, m: nat, n: nat, rest: string)
    requires At(text, i, EncodeNumber(m) + EncodeNumber(n) + rest)
    ensures var j := i + |EncodeNumber(m)|;
            var k := j + |EncodeNumber(n)|;
            ReadNumber(text, i) == Some((m, j)) && ReadNumber(text, j) == Some((n, k)) && At(text, k, rest)
  {
    var a, b := EncodeNumber(m), EncodeNumber(n);
    AtSplits(text, i, a + b, rest);
    AtSplits(text, i, a, b);
    NumberReadsBack(text, i, m);
    NumberReadsBack(text, i + |a|, n);
  }

  lemma PointReadsBack(text: string, i: nat, points: seq<(int, int)>, latitude: int, longitude: int)
    returns (j: nat, k: nat)
    requires points != [] && Remains(text, i, points, latitude, longitude)
    ensures ReadNumber(text, i) == Some((Fold(points[0].0 - latitude), j))
    ensures ReadNumber(text, j) == Some((Fold(points[0].1 - longitude), k))
    ensures i < |text| && Remains(text, k, points[1..], points[0].0, points[0].1)
  {
    var m, n := Fold(points[0].0 - latitude), Fold(points[0].1 - longitude);
    PairReadsBack(text, i, m, n, EncodePoints(points[1..], points[0].0, points[0].1));
    j := i + |EncodeNumber(m)|;
    k := j + |EncodeNumber(n)|;
  }

  /** Decoding the encoding of any points reads all of the text and gives back those points. */
  lemma {:induction false} PointsReadBack(text: string, i: nat, points: seq<(int, int)>, latitude: int, longitude: int)
    requires Remains(text, i, points, latitude, longitude)
    ensures ReadPoints(text, i, latitude, longitude) == Some(Swapped(points))
    decreases |points|
  {
    if points == [] {
    } else {
      var j, k := PointReadsBack(text, i, points, latitude, longitude);
      FoldsBack(points[0].0 - latitude);
      FoldsBack(points[0].1 - longitude);
      PointsReadBack(text, k, points[1..], points[0].0, points[0].1);
    }
  }

  method RoundTrip(points: seq<(int, int)>) returns (r: Option<seq<(real, real)>>)
    ensures r == Some(Scaled(Swapped(points)))
  {
    var encoded := EncodePoints(points, 0, 0);
    assert encoded[0..|encoded|] == encoded;
    PointsReadBack(encoded, 0, points, 0, 0);
    r := Decode(encoded);
  }
}
