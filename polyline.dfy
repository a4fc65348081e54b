/** The Encoded Polyline Algorithm Format as the route decoder of
    `src/utils/routing.ts` reads it (Valhalla's precision-6 variant).

    A polyline is a string of character codes. Each coordinate delta is a
    varint of 5-bit groups: a character contributes `(code - 63) & 0x1f` at
    shifts 0, 5, 10, ... and the group goes on while `code - 63 >= 0x20`.
    The unsigned varint `r` is zig-zag decoded (`r >> 1` when even,
    `~(r >> 1)` when odd), latitude then longitude, and the deltas are summed
    into running totals; each total divided by `10^precision` is one point. */
module Polyline {
  import opened Basics

  /** A UTF-16 code unit, as `String.prototype.charCodeAt` returns it. */
  type CharCode = c: int | 0 <= c < 0x1_0000

  /** A point in fixed-point units (the running integer sums before scaling). */
  type Fixed = (int, int)

  function Pow2(n: nat): (r: nat)
    ensures r >= 1
  {
    if n == 0 then 1 else 2 * Pow2(n - 1)
  }

  lemma Pow2Plus5(n: nat)
    ensures Pow2(n + 5) == 32 * Pow2(n)
  {
    calc {
      Pow2(n + 5);
      2 * Pow2(n + 4);
      4 * Pow2(n + 3);
      8 * Pow2(n + 2);
      16 * Pow2(n + 1);
      32 * Pow2(n);
    }
  }

  function Pow10(n: nat): (r: nat)
    ensures r >= 1
  {
    if n == 0 then 1 else 10 * Pow10(n - 1)
  }

  /** `Math.pow(10, precision || 6)`: an absent or zero precision means 6. */
  function Factor(precision: nat): (f: real)
    ensures f >= 1.0
    ensures precision == 0 ==> f == 1000000.0
  {
    Pow10(if precision == 0 then 6 else precision) as real
  }

  /** The five payload bits of the character at `i`. Past the end of the
      string `charCodeAt` gives NaN and `NaN & 0x1f` is 0. For a code below 63
      the byte is negative, and Dafny's Euclidean `% 32` is exactly the
      two's-complement `& 0x1f`. */
  function Payload(codes: seq<CharCode>, i: nat): (b: int)
    ensures 0 <= b < 32
  {
    if i < |codes| then (codes[i] as int - 63) % 32 else 0
  }

  /** Whether the group goes on after the character at `i` (`byte >= 0x20`;
      false for NaN past the end). */
  predicate Continues(codes: seq<CharCode>, i: nat) {
    i < |codes| && codes[i] as int - 63 >= 0x20
  }

  /** The unsigned varint that starts at `i`, and the index just after it. */
  function ReadVarint(codes: seq<CharCode>, i: nat): (r: (nat, nat))
    ensures r.1 > i
    decreases |codes| - i
  {
    if Continues(codes, i) then
      var rest := ReadVarint(codes, i + 1);
      (Payload(codes, i) + 32 * rest.0, rest.1)
    else
      (Payload(codes, i), i + 1)
  }

  /** `r & 1 ? ~(r >> 1) : r >> 1`. */
  function ZigZag(r: nat): int {
    if r % 2 == 1 then -(r / 2) - 1 else r / 2
  }

  /** The (latitude, longitude) deltas of the points that start at `i`. */
  function DeltasFrom(codes: seq<CharCode>, i: nat): (ds: seq<Fixed>)
    ensures i <= |codes| ==> |ds| <= |codes| - i
    ensures i < |codes| ==> |ds| >= 1
    decreases |codes| - i
  {
    if i >= |codes| then []
    else
      var lat := ReadVarint(codes, i);
      var lng := ReadVarint(codes, lat.1);
      [(ZigZag(lat.0), ZigZag(lng.0))] + DeltasFrom(codes, lng.1)
  }

  function Deltas(codes: seq<CharCode>): seq<Fixed> {
    DeltasFrom(codes, 0)
  }

  /** The component-wise sum of a list of deltas. */
  function Sum(ds: seq<Fixed>): Fixed {
    if ds == [] then (0, 0)
    else
      var s := Sum(ds[..|ds| - 1]);
      (s.0 + ds[|ds| - 1].0, s.1 + ds[|ds| - 1].1)
  }

  function Scale(p: Fixed, factor: real): Point
    requires factor > 0.0
  {
    Point(p.0 as real / factor, p.1 as real / factor)
  }

  /** The decoded polyline: point k is the running sum of the first k+1 deltas, scaled. */
  function DecodeCoordinates(codes: seq<CharCode>, precision: nat): seq<Point> {
    var ds := Deltas(codes);
    seq(|ds|, k requires 0 <= k < |ds| => Scale(Sum(ds[..k + 1]), Factor(precision)))
  }

  /** One do-while group loop of `PolylineDecoder.decode`. */
  method ReadGroup(codes: seq<CharCode>, start: nat) returns (result: nat, index: nat)
    ensures (result, index) == ReadVarint(codes, start)
  {
    index := start;
    result := 0;
    var shift: nat := 0;
    var more := true;
    while more
      invariant index >= start
      invariant more ==> ReadVarint(codes, index).1 == ReadVarint(codes, start).1
      invariant more ==> result + Pow2(shift) * ReadVarint(codes, index).0 == ReadVarint(codes, start).0
      invariant !more ==> (result, index) == ReadVarint(codes, start)
      decreases more, |codes| - index
    {
      // the byte is NaN past the end: no bits, and the group stops
      var payload := Payload(codes, index);
      ghost var acc, scale := result, Pow2(shift);
      more := Continues(codes, index);
      result := result + payload * Pow2(shift);
      Pow2Plus5(shift);
      shift := shift + 5;
      index := index + 1;
      if more {
        var rest := ReadVarint(codes, index);
        assert ReadVarint(codes, index - 1) == (payload + 32 * rest.0, rest.1);
        GroupStep(acc, payload, scale, rest.0);
      } else {
        assert ReadVarint(codes, index - 1) == (payload, index);
        assert result == acc + scale * payload;
      }
    }
  }

  lemma GroupStep(acc: int, payload: int, scale: int, v: int)
    ensures (acc + payload * scale) + (32 * scale) * v == acc + scale * (payload + 32 * v)
  {
  }

  /** `PolylineDecoder.decode`: every point is the running sum of the deltas
      so far, divided by `10^(precision || 6)`. */
  method Decode(codes: seq<CharCode>, precision: nat) returns (coordinates: seq<Point>)
    ensures |coordinates| == |Deltas(codes)| <= |codes|
    ensures forall k | 0 <= k < |coordinates| ::
      coordinates[k] == Scale(Sum(Deltas(codes)[..k + 1]), Factor(precision))
    ensures coordinates == DecodeCoordinates(codes, precision)
  {
    var factor := Factor(precision);
    var index: nat, lat, lng := 0, 0, 0;
    coordinates := [];
    ghost var done: seq<Fixed> := [];
    while index < |codes|
      invariant Deltas(codes) == done + DeltasFrom(codes, index)
      invariant |coordinates| == |done|
      invariant (lat, lng) == Sum(done)
      invariant forall k | 0 <= k < |done| :: coordinates[k] == Scale(Sum(done[..k + 1]), factor)
      decreases |codes| - index
    {
      var latRaw, lngRaw;
      ghost var i0 := index;
      latRaw, index := ReadGroup(codes, index);
      var latitudeChange := ZigZag(latRaw);
      lngRaw, index := ReadGroup(codes, index);
      var longitudeChange := ZigZag(lngRaw);
      lat := lat + latitudeChange;
      lng := lng + longitudeChange;
      ghost var d := (latitudeChange, longitudeChange);
      DeltasStep(codes, i0, done, Deltas(codes));
      AppendPoint(coordinates, done, d, factor);
      coordinates := coordinates + [Scale((lat, lng), factor)];
      done := done + [d];
    }
    assert done == Deltas(codes);
    SameCoordinates(coordinates, codes, precision);
  }

  lemma SameCoordinates(coordinates: seq<Point>, codes: seq<CharCode>, precision: nat)
    requires |coordinates| == |Deltas(codes)|
    requires forall k | 0 <= k < |coordinates| ::
      coordinates[k] == Scale(Sum(Deltas(codes)[..k + 1]), Factor(precision))
    ensures coordinates == DecodeCoordinates(codes, precision)
  {
  }

  /** Appending the next running sum keeps "point k is the scaled sum of the first k+1 deltas". */
  lemma AppendPoint(coordinates: seq<Point>, done: seq<Fixed>, d: Fixed, factor: real)
    requires factor > 0.0 && |coordinates| == |done|
    requires forall k | 0 <= k < |done| :: coordinates[k] == Scale(Sum(done[..k + 1]), factor)
    ensures var s := Sum(done + [d]);
      forall k | 0 <= k < |done| + 1 ::
        (coordinates + [Scale(s, factor)])[k] == Scale(Sum((done + [d])[..k + 1]), factor)
    ensures Sum(done + [d]) == (Sum(done).0 + d.0, Sum(done).1 + d.1)
  {
    var all := done + [d];
    assert all[..|done|] == done;
    assert all[..|all|] == all;
    forall k | 0 <= k < |done|
      ensures (coordinates + [Scale(Sum(all), factor)])[k] == Scale(Sum(all[..k + 1]), factor)
    {
      PrefixOfAppend(done, d, k);
    }
  }

  /** One outer iteration reads the next (latitude, longitude) pair. */
  lemma DeltasStep(codes: seq<CharCode>, i: nat, done: seq<Fixed>, all: seq<Fixed>)
    requires i < |codes| && all == done + DeltasFrom(codes, i)
    ensures var lat := ReadVarint(codes, i);
      var lng := ReadVarint(codes, lat.1);
      all == (done + [(ZigZag(lat.0), ZigZag(lng.0))]) + DeltasFrom(codes, lng.1)
  {
  }

  lemma PrefixOfAppend(s: seq<Fixed>, d: Fixed, k: nat)
    requires k < |s|
    ensures (s + [d])[..k + 1] == s[..k + 1]
  {
  }

  // ---- The encoder: the partner the decoder inverts ----

  /** Zig-zag encoding: non-negative d to 2d, negative d to -2d - 1. */
  function ZigZagEncode(d: int): nat {
    if d >= 0 then 2 * d else -2 * d - 1
  }

  lemma ZigZagRoundTrip(d: int)
    ensures ZigZag(ZigZagEncode(d)) == d
  {
  }

  /** The 5-bit groups of `z`, least significant first, 0x20 marking continuation. */
  function EncodeVarint(z: nat): (e: seq<CharCode>)
    ensures |e| >= 1
    decreases z
  {
    if z < 32 then [z + 63] else [z % 32 + 0x20 + 63] + EncodeVarint(z / 32)
  }

  function EncodeDeltas(ds: seq<Fixed>): seq<CharCode> {
    if ds == [] then [] else EncodePoint(ds[0]) + EncodeDeltas(ds[1..])
  }

  /** The deltas between consecutive points, the first taken from (0, 0). */
  function Differences(pts: seq<Fixed>): (ds: seq<Fixed>)
    ensures |ds| == |pts|
  {
    if pts == [] then []
    else
      var prev := if |pts| == 1 then (0, 0) else pts[|pts| - 2];
      Differences(pts[..|pts| - 1]) + [(pts[|pts| - 1].0 - prev.0, pts[|pts| - 1].1 - prev.1)]
  }

  function EncodePolyline(pts: seq<Fixed>): seq<CharCode> {
    EncodeDeltas(Differences(pts))
  }

  /** `e` occurs in `codes` at index `i`, stated character by character. */
  ghost predicate At(codes: seq<CharCode>, i: nat, e: seq<CharCode>)
    decreases |e|
  {
    e == [] || (i < |codes| && codes[i] == e[0] && At(codes, i + 1, e[1..]))
  }

  /** Every suffix of a string occurs in it where it starts. */
  lemma {:induction false} AtSuffix(codes: seq<CharCode>, i: nat)
    requires i <= |codes|
    ensures At(codes, i, codes[i..])
    decreases |codes| - i
  {
    if i < |codes| {
      AtSuffix(codes, i + 1);
      assert codes[i..][1..] == codes[i + 1..];
    }
  }

  lemma {:induction false} AtSplit(codes: seq<CharCode>, i: nat, a: seq<CharCode>, b: seq<CharCode>)
    requires At(codes, i, a + b)
    ensures At(codes, i, a) && At(codes, i + |a|, b)
    decreases |a|
  {
    if a == [] {
      assert a + b == b;
    } else {
      assert (a + b)[0] == a[0] && (a + b)[1..] == a[1..] + b;
      AtSplit(codes, i + 1, a[1..], b);
    }
  }

  /** A varint group reads back the value it encodes, wherever it sits in the string. */
  lemma {:induction false} ReadEncodedVarint(codes: seq<CharCode>, i: nat, z: nat)
    requires At(codes, i, EncodeVarint(z))
    ensures ReadVarint(codes, i) == (z, i + |EncodeVarint(z)|)
    decreases z
  {
    if z >= 32 {
      ReadEncodedVarint(codes, i + 1, z / 32);
    }
  }

  /** The encoding of one point: its latitude group, then its longitude group. */
  function EncodePoint(d: Fixed): seq<CharCode> {
    EncodeVarint(ZigZagEncode(d.0)) + EncodeVarint(ZigZagEncode(d.1))
  }

  lemma ReadEncodedPoint(codes: seq<CharCode>, i: nat, d: Fixed)
    requires At(codes, i, EncodePoint(d))
    ensures DeltasFrom(codes, i) == [d] + DeltasFrom(codes, i + |EncodePoint(d)|)
  {
    var a := EncodeVarint(ZigZagEncode(d.0));
    var b := EncodeVarint(ZigZagEncode(d.1));
    AtSplit(codes, i, a, b);
    ReadEncodedVarint(codes, i, ZigZagEncode(d.0));
    ReadEncodedVarint(codes, i + |a|, ZigZagEncode(d.1));
    ZigZagRoundTrip(d.0);
    ZigZagRoundTrip(d.1);
    var lat := ReadVarint(codes, i);
    var lng := ReadVarint(codes, lat.1);
    assert (ZigZag(lat.0), ZigZag(lng.0)) == d;
    assert lng.1 == i + |EncodePoint(d)|;
  }

  /** The first point encoded at `i` is read back, and the rest of the
      encoding follows it. */
  lemma ReadFirstEncoded(codes: seq<CharCode>, i: nat, ds: seq<Fixed>)
    requires ds != [] && At(codes, i, EncodeDeltas(ds))
    ensures At(codes, i + |EncodePoint(ds[0])|, EncodeDeltas(ds[1..]))
    ensures |EncodeDeltas(ds)| == |EncodePoint(ds[0])| + |EncodeDeltas(ds[1..])|
    ensures DeltasFrom(codes, i) == [ds[0]] + DeltasFrom(codes, i + |EncodePoint(ds[0])|)
  {
    AtSplit(codes, i, EncodePoint(ds[0]), EncodeDeltas(ds[1..]));
    ReadEncodedPoint(codes, i, ds[0]);
  }

  /** The points encoded at `i` are read back, followed by whatever comes after them at `p`. */
  lemma {:induction false} DeltasOfEncoded(codes: seq<CharCode>, i: nat, ds: seq<Fixed>, p: nat)
    requires At(codes, i, EncodeDeltas(ds)) && p == i + |EncodeDeltas(ds)|
    ensures DeltasFrom(codes, i) == ds + DeltasFrom(codes, p)
    decreases ds
  {
    if ds != [] {
      ReadFirstEncoded(codes, i, ds);
      var mid := i + |EncodePoint(ds[0])|;
      DeltasOfEncoded(codes, mid, ds[1..], p);
      ConsConcat(DeltasFrom(codes, i), DeltasFrom(codes, mid), ds, DeltasFrom(codes, p));
    }
  }

  lemma ConsConcat(whole: seq<Fixed>, rest: seq<Fixed>, ds: seq<Fixed>, tail: seq<Fixed>)
    requires ds != [] && whole == [ds[0]] + rest && rest == ds[1..] + tail
    ensures whole == ds + tail
  {
    assert ds == [ds[0]] + ds[1..];
  }

  /** Decoding the encoding of any list of integer deltas gives those deltas back. */
  lemma DecodeEncodeDeltas(ds: seq<Fixed>)
    ensures Deltas(EncodeDeltas(ds)) == ds
  {
    var codes := EncodeDeltas(ds);
    AtSuffix(codes, 0);
    DeltasOfEncoded(codes, 0, ds, |codes|);
  }

  lemma {:induction false} DifferencesPrefix(pts: seq<Fixed>, n: nat)
    requires n <= |pts|
    ensures Differences(pts)[..n] == Differences(pts[..n])
    decreases |pts|
  {
    if n < |pts| {
      var init := pts[..|pts| - 1];
      DifferencesPrefix(init, n);
      assert init[..n] == pts[..n];
      assert Differences(pts)[..n] == Differences(init)[..n];
    } else {
      assert pts[..n] == pts;
    }
  }

  lemma {:induction false} SumDifferences(pts: seq<Fixed>)
    requires pts != []
    ensures Sum(Differences(pts)) == pts[|pts| - 1]
    decreases |pts|
  {
    var init := pts[..|pts| - 1];
    assert Differences(pts)[..|pts| - 1] == Differences(init);
    if |pts| > 1 {
      SumDifferences(init);
    }
  }

  /** The round trip of the whole format: decoding an encoded polyline of
      fixed-point points yields exactly those points, scaled by the factor. */
  lemma PolylineRoundTrip(pts: seq<Fixed>, precision: nat)
    ensures DecodeCoordinates(EncodePolyline(pts), precision)
         == seq(|pts|, k requires 0 <= k < |pts| => Scale(pts[k], Factor(precision)))
  {
    var ds := Differences(pts);
    DecodeEncodeDeltas(ds);
    var decoded := DecodeCoordinates(EncodePolyline(pts), precision);
    forall k | 0 <= k < |pts| ensures decoded[k] == Scale(pts[k], Factor(precision)) {
      DifferencesPrefix(pts, k + 1);
      SumDifferences(pts[..k + 1]);
    }
  }

  /** A lone latitude at the end of a string reads as one point whose
      longitude delta is 0. */
  lemma LoneLatitude(codes: seq<CharCode>, i: nat, lat: int)
    requires At(codes, i, EncodeVarint(ZigZagEncode(lat)))
    requires |codes| == i + |EncodeVarint(ZigZagEncode(lat))|
    ensures DeltasFrom(codes, i) == [(lat, 0)]
  {
    ReadEncodedVarint(codes, i, ZigZagEncode(lat));
    ZigZagRoundTrip(lat);
    assert ReadVarint(codes, |codes|) == (0, |codes| + 1);
    assert DeltasFrom(codes, |codes| + 1) == [];
  }

  /** A string cut after a latitude decodes without failing: the missing
      longitude reads as zero bits, so the last point has longitude delta 0. */
  lemma TruncatedLongitude(ds: seq<Fixed>, lat: int)
    ensures Deltas(EncodeDeltas(ds) + EncodeVarint(ZigZagEncode(lat))) == ds + [(lat, 0)]
  {
    var prefix := EncodeDeltas(ds);
    var tail := EncodeVarint(ZigZagEncode(lat));
    var codes := prefix + tail;
    AtSuffix(codes, 0);
    AtSplit(codes, 0, prefix, tail);
    DeltasOfEncoded(codes, 0, ds, |prefix|);
    LoneLatitude(codes, |prefix|, lat);
  }
}
