/** Colour interpolation of `src/protocol/text_format.rs`, over exact reals. */
module Gradients {
  import opened Bytes
  import opened TextColors

  /** `round`: to the nearest integer, halves away from zero. */
  function Round(x: real): int {
    if x < 0.0 then -((-x + 0.5).Floor) else (x + 0.5).Floor
  }

  predicate Between(a: int, m: int, b: int) {
    a <= m <= b || b <= m <= a
  }

  function Exact(a: byte, b: byte, frac: real): real {
    a as real + (b as real - a as real) * frac
  }

  lemma TimesMono(d: real, f: real, g: real)
    requires 0.0 <= d && f <= g
    ensures d * f <= d * g
  {
  }

  lemma ExactMono(a: byte, b: byte, f: real, g: real)
    requires f <= g
    ensures if a <= b then Exact(a, b, f) <= Exact(a, b, g) else Exact(a, b, g) <= Exact(a, b, f)
  {
  }

  lemma ExactEnds(a: byte, b: byte)
    ensures Exact(a, b, 0.0) == a as real && Exact(a, b, 1.0) == b as real
  {
  }

  lemma ExactBetween(a: byte, b: byte, frac: real)
    requires 0.0 <= frac <= 1.0
    ensures if a <= b then a as real <= Exact(a, b, frac) <= b as real else b as real <= Exact(a, b, frac) <= a as real
  {
    hide Exact;
    ExactEnds(a, b);
    ExactMono(a, b, 0.0, frac);
    ExactMono(a, b, frac, 1.0);
  }

  lemma RoundMono(x: real, y: real)
    requires 0.0 <= x <= y
    ensures Round(x) <= Round(y)
  {
  }

  lemma RoundInt(n: nat)
    ensures Round(n as real) == n
  {
  }

  /** One channel between two stops. */
  function Mix(a: byte, b: byte, frac: real): (r: byte)
    requires 0.0 <= frac <= 1.0
    ensures Between(a, r, b)
    ensures frac == 0.0 ==> r == a
    ensures frac == 1.0 ==> r == b
  {
    ExactBetween(a, b, frac);
    ExactEnds(a, b);
    RoundInt(a);
    RoundInt(b);
    if a <= b then
      RoundMono(a as real, Exact(a, b, frac));
      RoundMono(Exact(a, b, frac), b as real);
      Round(Exact(a, b, frac))
    else
      RoundMono(b as real, Exact(a, b, frac));
      RoundMono(Exact(a, b, frac), a as real);
      Round(Exact(a, b, frac))
  }

  /** Moving along a segment moves each channel from one stop towards the other, never back. */
  lemma MixMonotone(a: byte, b: byte, f: real, g: real)
    requires 0.0 <= f <= g <= 1.0
    ensures Between(a, Mix(a, b, f), Mix(a, b, g)) && Between(Mix(a, b, f), Mix(a, b, g), b)
  {
    hide Exact, Round;
    ExactBetween(a, b, f);
    ExactBetween(a, b, g);
    ExactMono(a, b, f, g);
    if a <= b {
      RoundMono(Exact(a, b, f), Exact(a, b, g));
    } else {
      RoundMono(Exact(a, b, g), Exact(a, b, f));
    }
  }

  function MixColors(a: Rgb, b: Rgb, frac: real): Rgb
    requires 0.0 <= frac <= 1.0
  {
    Rgb(Mix(a.r, b.r, frac), Mix(a.g, b.g, frac), Mix(a.b, b.b, frac))
  }

  predicate ColorBetween(a: Rgb, m: Rgb, b: Rgb) {
    Between(a.r, m.r, b.r) && Between(a.g, m.g, b.g) && Between(a.b, m.b, b.b)
  }

  /** How far along the stops `t` lies, in segments. */
  function Scaled(n: nat, t: real): (s: real)
    requires n >= 2
    ensures 0.0 <= s <= (n - 1) as real
  {
    var u := if t < 0.0 then 0.0 else if t > 1.0 then 1.0 else t;
    var m := (n - 1) as real;
    TimesMono(m, 0.0, u);
    TimesMono(m, u, 1.0);
    m * u
  }

  function Segment(n: nat, t: real): (i: nat)
    requires n >= 2
    ensures i <= n - 2 && 0.0 <= Scaled(n, t) - i as real <= 1.0
  {
    var f := Scaled(n, t).Floor;
    if f < n - 2 then f else n - 2
  }

  function Interpolate(stops: seq<Rgb>, t: real): Rgb
    requires stops != []
  {
    if |stops| == 1 then stops[0]
    else
      var i := Segment(|stops|, t);
      MixColors(stops[i], stops[i + 1], Scaled(|stops|, t) - i as real)
  }

  /** Each channel of a sampled colour lies between those of two neighbouring stops. */
  lemma InterpolateBetween(stops: seq<Rgb>, t: real) returns (i: nat)
    requires stops != []
    ensures i < |stops| && (|stops| > 1 ==> i + 1 < |stops|)
    ensures ColorBetween(stops[i], Interpolate(stops, t), stops[if |stops| == 1 then i else i + 1])
  {
    if |stops| == 1 {
      i := 0;
    } else {
      i := Segment(|stops|, t);
    }
  }

  /** The colour of the character at `pos` of `total`. */
  function Sample(stops: seq<Rgb>, total: nat, pos: nat): Rgb
    requires stops != [] && pos < total
  {
    Interpolate(stops, if total <= 1 then 0.0 else pos as real / (total - 1) as real)
  }

  lemma InterpolateAtZero(stops: seq<Rgb>)
    requires stops != []
    ensures Interpolate(stops, 0.0) == stops[0]
  {
    if |stops| > 1 {
      hide Mix;
      assert Scaled(|stops|, 0.0) == 0.0;
      assert Segment(|stops|, 0.0) == 0;
    }
  }

  lemma InterpolateAtOne(stops: seq<Rgb>)
    requires stops != []
    ensures Interpolate(stops, 1.0) == stops[|stops| - 1]
  {
    if |stops| > 1 {
      hide Mix;
      assert Scaled(|stops|, 1.0) == (|stops| - 1) as real;
      assert Segment(|stops|, 1.0) == |stops| - 2;
    }
  }

  lemma SamePart(n: real)
    requires n > 0.0
    ensures 0.0 / n == 0.0 && n / n == 1.0
  {
  }

  /** The first character takes the first stop, and the last of at least two takes the last stop. */
  lemma SampleEnds(stops: seq<Rgb>, total: nat)
    requires stops != [] && total > 0
    ensures Sample(stops, total, 0) == stops[0]
    ensures total > 1 ==> Sample(stops, total, total - 1) == stops[|stops| - 1]
  {
    hide Interpolate;
    InterpolateAtZero(stops);
    InterpolateAtOne(stops);
    if total > 1 {
      SamePart((total - 1) as real);
    }
  }

  // ----- how far along -----

  /** With each of the gaps between `n` stops divided into equal parts, how many lie before position `pos`. */
  function Parts(n: nat, pos: nat): nat
    requires n >= 2
  {
    pos * (n - 1)
  }

  /** The gap those parts end in, when each has `whole` of them. */
  function Gap(n: nat, parts: nat, whole: nat): (i: nat)
    requires n >= 2 && whole > 0
    ensures i <= n - 2
  {
    if parts / whole < n - 2 then parts / whole else n - 2
  }

  /** And how far into it. */
  function Past(parts: nat, gap: nat, whole: nat): int {
    parts - gap * whole
  }

  lemma ScaledIs(n: nat, total: nat, pos: nat)
    requires n >= 2 && total >= 2 && pos < total
    ensures Scaled(n, pos as real / (total - 1) as real) * (total - 1) as real == Parts(n, pos) as real
  {
    var p, m, k := pos as real, (total - 1) as real, (n - 1) as real;
    assert 0.0 <= p / m <= 1.0;
    var t := p / m;
    assert t * m == p;
    assert Scaled(n, t) == k * t;
    assert k * t * m == k * (t * m);
    assert (pos * (n - 1)) as real == p * k;
  }

  lemma FloorIs(s: real, m: nat, x: nat)
    requires m > 0 && s * m as real == x as real
    ensures s.Floor == x / m
  {
    var q, r := x / m, x % m;
    assert x == q * m + r;
    assert x as real == q as real * m as real + r as real;
    var d := s - q as real;
    assert d * m as real == r as real;
    assert 0.0 <= d < 1.0;
  }

  /** `ch` is the whole number nearest to the point `part` of `whole` on the way from `a` to `b`. */
  predicate Nearest(a: int, b: int, part: int, whole: int, ch: int) {
    -whole <= 2 * whole * (ch - a) - 2 * (b - a) * part <= whole
  }

  lemma Scale(w: real, lo: real, e: real, hi: real, p: real)
    requires w >= 0.0 && lo <= e <= hi && e * w == p
    ensures lo * w <= p <= hi * w
  {
    TimesMono(w, lo, e);
    TimesMono(w, e, hi);
  }

  lemma Product(d: real, frac: real, w: real, p: real)
    requires frac * w == p
    ensures d * frac * w == d * p
  {
  }

  lemma MixIsClose(a: byte, b: byte, frac: real)
    requires 0.0 <= frac <= 1.0
    ensures var e, m := (b - a) as real * frac, (Mix(a, b, frac) - a) as real; m - 0.5 <= e <= m + 0.5
  {
    ExactBetween(a, b, frac);
    var x, ch := Exact(a, b, frac), Mix(a, b, frac);
    assert ch as real - 0.5 <= x <= ch as real + 0.5;
    assert (b - a) as real == b as real - a as real;
  }

  lemma MixNearest(a: byte, b: byte, frac: real, part: nat, whole: nat)
    requires 0.0 <= frac <= 1.0 && whole > 0 && frac * whole as real == part as real
    ensures Nearest(a, b, part, whole, Mix(a, b, frac))
  {
    hide Mix;
    var m, d := Mix(a, b, frac) - a, b - a;
    MixIsClose(a, b, frac);
    Product(d as real, frac, whole as real, part as real);
    Scale(whole as real, m as real - 0.5, d as real * frac, m as real + 0.5, d as real * part as real);
    Whole(m, d, part, whole);
  }

  /** The same bounds in whole numbers. */
  lemma Whole(m: int, d: int, part: nat, whole: int)
    requires (m as real - 0.5) * whole as real <= d as real * part as real <= (m as real + 0.5) * whole as real
    ensures -whole <= 2 * whole * m - 2 * d * part <= whole
  {
    assert (m * whole) as real == m as real * whole as real;
    assert (d * part) as real == d as real * part as real;
    var x, y := m * whole, d * part;
    assert x as real - 0.5 * whole as real <= y as real <= x as real + 0.5 * whole as real;
    assert 2 * x - whole <= 2 * y <= 2 * x + whole;
    assert 2 * whole * m == 2 * x && 2 * d * part == 2 * y;
  }

  lemma SegmentIs(n: nat, t: real, parts: nat, whole: nat)
    requires n >= 2 && whole > 0 && Scaled(n, t) * whole as real == parts as real
    ensures Segment(n, t) == Gap(n, parts, whole)
  {
    FloorIs(Scaled(n, t), whole, parts);
    var q := parts / whole;
    hide Scaled;
  }

  lemma Along(n: nat, t: real, whole: nat, parts: nat)
    requires n >= 2 && whole > 0 && Scaled(n, t) * whole as real == parts as real
    ensures var i := Segment(n, t);
            && i == Gap(n, parts, whole) && Past(parts, i, whole) >= 0
            && (Scaled(n, t) - i as real) * whole as real == Past(parts, i, whole) as real
  {
    hide Scaled, Segment, Gap, Past;
    SegmentIs(n, t, parts, whole);
    PartIs(Scaled(n, t), whole, parts, Segment(n, t));
  }

  /**
   * The colour of position `pos` of `total` is the nearest to the point that far along the
   * stops, counted in parts of which each gap between stops has `total - 1`.
   */
  lemma SampleIsLinear(stops: seq<Rgb>, total: nat, pos: nat)
    requires |stops| >= 2 && total >= 2 && pos < total
    ensures var whole := total - 1;
            var parts := Parts(|stops|, pos);
            var i := Gap(|stops|, parts, whole);
            NearestColor(stops[i], stops[i + 1], Past(parts, i, whole), whole, Sample(stops, total, pos))
  {
    hide Mix, Scaled, Segment, NearestColor, Parts, Gap, Past;
    var whole, parts := total - 1, Parts(|stops|, pos);
    var t := pos as real / whole as real;
    ScaledIs(|stops|, total, pos);
    Along(|stops|, t, whole, parts);
    var i := Segment(|stops|, t);
    MixColorsNearest(stops[i], stops[i + 1], Scaled(|stops|, t) - i as real, Past(parts, i, whole), whole);
  }

  predicate NearestColor(a: Rgb, b: Rgb, part: int, whole: int, c: Rgb) {
    Nearest(a.r, b.r, part, whole, c.r) && Nearest(a.g, b.g, part, whole, c.g) && Nearest(a.b, b.b, part, whole, c.b)
  }

  lemma MixColorsNearest(a: Rgb, b: Rgb, frac: real, part: nat, whole: nat)
    requires 0.0 <= frac <= 1.0 && whole > 0 && frac * whole as real == part as real
    ensures NearestColor(a, b, part, whole, MixColors(a, b, frac))
  {
    hide Mix, Nearest;
    MixNearest(a.r, b.r, frac, part, whole);
    MixNearest(a.g, b.g, frac, part, whole);
    MixNearest(a.b, b.b, frac, part, whole);
  }

  lemma PartIs(s: real, whole: nat, parts: nat, i: nat)
    requires s * whole as real == parts as real && 0.0 <= s - i as real && whole > 0
    ensures Past(parts, i, whole) >= 0 && (s - i as real) * whole as real == Past(parts, i, whole) as real
  {
    var w := whole as real;
    assert (s - i as real) * w == s * w - i as real * w;
    assert i as real * w == (i * whole) as real;
    TimesMono(w, 0.0, s - i as real);
  }
}
