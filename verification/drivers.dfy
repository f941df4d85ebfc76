/** The colour driver of the markers: one colour component as a function of
    the detection quality. Below 0.3 the marker is dark red, from 1.0 on it has
    its own colour, and in between it blends linearly from grey to its own
    colour. Arithmetic is over the reals (no float rounding). */
module Drivers {
  import opened Common

  const DarkRed: seq<real> := [0.5, 0.0, 0.0, 1.0]
  const Grey: seq<real> := [0.5, 0.5, 0.5, 1.0]

  /** get_quality_driven_color_component. The channel index is a Python list
      index into four entries: -4..-1 count from the end, anything else is an
      IndexError (None here). */
  function QualityColorComponent(quality: real, r: real, g: real, b: real, a: real, channel: int): (c: Option<real>)
    ensures c.Some? <==> -4 <= channel < 4
  {
    var original := [r, g, b, a];
    match PyIndex(4, channel)
    case None => None
    case Some(i) =>
      if quality >= 1.0 then Some(original[i])
      else if quality < 0.3 then Some(DarkRed[i])
      else Some(Blend(Grey[i], original[i], quality))
  }

  /** grey * (1 - t) + original * t with t = (quality - 0.3) / 0.7. */
  function Blend(grey: real, original: real, quality: real): real
  {
    var t := (quality - 0.3) / 0.7;
    grey * (1.0 - t) + original * t
  }

  /** The three bands, for a channel index 0..3. */
  lemma ColorBands(quality: real, r: real, g: real, b: real, a: real, channel: int)
    requires 0 <= channel < 4
    ensures var original := [r, g, b, a];
      var c := QualityColorComponent(quality, r, g, b, a, channel);
      && (quality >= 1.0 ==> c == Some(original[channel]))
      && (quality < 0.3 ==> c == Some(DarkRed[channel]))
      && (0.3 <= quality < 1.0 ==> c == Some(Blend(Grey[channel], original[channel], quality)))
  {
  }

  /** The blend is the original component pulled towards grey by an amount
      proportional to 1 - quality; at 0.3 it is grey. */
  lemma {:induction false} BlendGap(grey: real, original: real, quality: real)
    ensures Blend(grey, original, quality) == original + (grey - original) * ((1.0 - quality) / 0.7)
    ensures Blend(grey, original, 0.3) == grey
  {
    var t := (quality - 0.3) / 0.7;
    assert 1.0 - t == (1.0 - quality) / 0.7;
  }

  /** In the blending band the blend lies between grey and the original
      component, and equals the original one only when the two agree. */
  lemma {:induction false} BlendBetween(grey: real, original: real, quality: real)
    requires 0.3 <= quality < 1.0
    ensures var c := Blend(grey, original, quality);
      && (grey <= original ==> grey <= c <= original)
      && (original <= grey ==> original <= c <= grey)
      && (c == original <==> grey == original)
  {
    var u := (1.0 - quality) / 0.7;
    assert 0.0 < u <= 1.0;
    BlendGap(grey, original, quality);
    var d := grey - original;
    var c := Blend(grey, original, quality);
    assert c == original + d * u;
    ScaledSign(d, u, c - original);
  }

  /** The blend approaches the original component as quality approaches 1:
      within eps of it once quality is within 0.7 * eps of 1, when grey and the
      original differ by at most 1 (as components in [0, 1] do). */
  lemma {:induction false} ContinuousAtOne(grey: real, original: real, quality: real, eps: real)
    requires eps > 0.0 && -1.0 <= grey - original <= 1.0
    requires 1.0 - 0.7 * eps < quality < 1.0
    ensures -eps < Blend(grey, original, quality) - original < eps
  {
    var w := (1.0 - quality) / 0.7;
    assert w < eps;
    BlendGap(grey, original, quality);
    var d := grey - original;
    assert Blend(grey, original, quality) == original + d * w;
    ScaledBound(d, w, Blend(grey, original, quality) - original);
  }

  /** Scaling by a factor in (0, 1] keeps the sign and does not grow the magnitude. */
  lemma ScaledSign(d: real, u: real, p: real)
    requires 0.0 < u <= 1.0 && p == d * u
    ensures d > 0.0 ==> 0.0 < p <= d
    ensures d < 0.0 ==> d <= p < 0.0
    ensures d == 0.0 ==> p == 0.0
  {
  }

  lemma ScaledBound(d: real, w: real, p: real)
    requires -1.0 <= d <= 1.0 && w >= 0.0 && p == d * w
    ensures -w <= p <= w
  {
  }
}
