/** `ProgressBar.tsx`: a bar whose width and label show a percentage clamped
    to 0..100 and whose colour is picked from three bands of that clamped
    value. */
module ProgressBar {

  /** The lower and upper end of the scale and the band thresholds. */
  const Floor: real := 0.0
  const Ceiling: real := 100.0
  const GreenFrom: real := 75.0
  const YellowFrom: real := 50.0

  datatype Color = Green | Yellow | Red

  /** What the component renders: the bar width and the caption both show the
      same percentage. */
  datatype Bar = Bar(width: real, caption: real, color: Color)

  /** `Math.max(0, Math.min(100, value))`. */
  function Safe(v: real): (r: real)
    ensures Floor <= r <= Ceiling
    ensures Floor <= v <= Ceiling ==> r == v
    ensures v < Floor ==> r == Floor
    ensures v > Ceiling ==> r == Ceiling
  {
    var capped := if Ceiling < v then Ceiling else v;
    if Floor > capped then Floor else capped
  }

  /** Clamping is idempotent and keeps the order of values. */
  lemma SafeIdempotentMonotone(u: real, v: real)
    ensures Safe(Safe(v)) == Safe(v)
    ensures u <= v ==> Safe(u) <= Safe(v)
  {
  }

  /** The colour of a clamped value. */
  function ColorOf(safe: real): Color {
    if safe >= GreenFrom then Green
    else if safe >= YellowFrom then Yellow
    else Red
  }

  function Render(value: real): (b: Bar)
    ensures b.width == b.caption == Safe(value)
    ensures b.color == ColorOf(Safe(value))
  {
    var safe := Safe(value);
    Bar(safe, safe, ColorOf(safe))
  }

  /** Because both thresholds lie inside the scale, the band can be read off
      the raw value: green from 75 up (including anything above 100), yellow
      from 50 to below 75, red below 50 (including negative values). */
  lemma BandsOfRawValue(v: real)
    ensures Render(v).color == Green <==> v >= GreenFrom
    ensures Render(v).color == Yellow <==> YellowFrom <= v < GreenFrom
    ensures Render(v).color == Red <==> v < YellowFrom
  {
  }

  /** A value that is already clamped renders the same as the raw one. */
  lemma RenderOfSafe(v: real)
    ensures Render(Safe(v)) == Render(v)
  {
    SafeIdempotentMonotone(v, v);
  }

  /** A higher value never gets a worse colour (red < yellow < green). */
  function Rank(c: Color): nat {
    match c
    case Red => 0
    case Yellow => 1
    case Green => 2
  }

  lemma ColorMonotone(u: real, v: real)
    requires u <= v
    ensures Rank(Render(u).color) <= Rank(Render(v).color)
  {
    BandsOfRawValue(u);
    BandsOfRawValue(v);
  }
}
