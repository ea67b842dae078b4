/**
 * The perceptual colour distance of `src/simd.rs`: a scalar form, a 4-lane
 * vector form that may only be called with a capability token, and a
 * dispatcher. Channels are real numbers, so floating-point rounding is not
 * modelled and the two forms agree exactly.
 */
module Simd {
  import opened Wrappers
  import opened Pal

  /** The AVX2+FMA capability token (`Desktop64`): it carries no data. */
  datatype Token = Desktop64

  /** What the runtime CPU probe can observe. */
  datatype Target = X86_64(hasAvx2Fma: bool) | OtherArch

  /**
   * `summon_token`: a token exists only on x86_64 and only when the CPU has
   * the required instructions; on every other architecture there is none.
   */
  function SummonToken(target: Target): (token: Option<Token>)
    ensures token.Some? <==> target.X86_64? && target.hasAvx2Fma
    ensures target.OtherArch? ==> token == None
  {
    match target
    case X86_64(hasAvx2Fma) => if hasAvx2Fma then Some(Desktop64) else None
    case OtherArch => None
  }

  /** `f32::max` on values that are never NaN here. */
  function Max(x: real, y: real): real
  {
    if x >= y then x else y
  }

  /**
   * One colour channel of the metric: the larger of the squared difference
   * seen on black and the one seen on white, where the white difference is
   * the black difference shifted by the alpha difference.
   */
  function ChannelTerm(black: real, alphaDiff: real): (t: real)
    ensures t >= 0.0
  {
    SquareNonNegative(black);
    SquareNonNegative(black + alphaDiff);
    Max(black * black, (black + alphaDiff) * (black + alphaDiff))
  }

  lemma SquareNonNegative(v: real)
    ensures v * v >= 0.0
  {
    if v < 0.0 {
      assert v * v == (-v) * (-v);
    }
  }

  /**
   * `diff_scalar`: the channel terms of red, green and blue, summed; alpha
   * contributes only through the white shift.
   */
  function DiffScalar(x: Color, y: Color): (d: real)
    ensures d >= 0.0
  {
    var alphaDiff := y.a - x.a;
    ChannelTerm(x.r - y.r, alphaDiff) + ChannelTerm(x.g - y.g, alphaDiff) + ChannelTerm(x.b - y.b, alphaDiff)
  }

  /** `f32x4`: four lanes, lane-wise arithmetic. */
  datatype F32x4 = F32x4(l0: real, l1: real, l2: real, l3: real) {
    function Add(o: F32x4): F32x4 { F32x4(l0 + o.l0, l1 + o.l1, l2 + o.l2, l3 + o.l3) }
    function Sub(o: F32x4): F32x4 { F32x4(l0 - o.l0, l1 - o.l1, l2 - o.l2, l3 - o.l3) }
    function Mul(o: F32x4): F32x4 { F32x4(l0 * o.l0, l1 * o.l1, l2 * o.l2, l3 * o.l3) }
    function LaneMax(o: F32x4): F32x4
    {
      F32x4(Max(l0, o.l0), Max(l1, o.l1), Max(l2, o.l2), Max(l3, o.l3))
    }
    function ToArray(): seq<real> { [l0, l1, l2, l3] }
  }

  /** `f32x4::from_array` of the ARGB layout cast to `[f32; 4]`. */
  function FromColor(token: Token, c: Color): F32x4
  {
    F32x4(c.a, c.r, c.g, c.b)
  }

  function Splat(token: Token, v: real): F32x4
  {
    F32x4(v, v, v, v)
  }

  /**
   * `diff_simd`: the same metric on packed lanes. Lane 0 carries alpha; its
   * result is computed and dropped, only lanes 1..3 are summed. Over the
   * reals it equals the scalar form for every pair of colours.
   */
  function DiffSimd(token: Token, x: Color, y: Color): (d: real)
    ensures d == DiffScalar(x, y)
  {
    var arr := MaxSquares(token, x, y).ToArray();
    LanesAreChannels(token, x, y);
    arr[1] + arr[2] + arr[3]
  }

  /** The lane-wise larger square of the on-black and on-white differences. */
  function MaxSquares(token: Token, x: Color, y: Color): F32x4
  {
    var px := FromColor(token, x);
    var py := FromColor(token, y);
    var alphaDiff := Splat(token, y.a - x.a);
    var onBlack := px.Sub(py);
    var onWhite := onBlack.Add(alphaDiff);
    onBlack.Mul(onBlack).LaneMax(onWhite.Mul(onWhite))
  }

  /** Lanes 1..3 of the vector computation are the scalar channel terms. */
  lemma LanesAreChannels(token: Token, x: Color, y: Color)
    ensures MaxSquares(token, x, y).l1 == ChannelTerm(x.r - y.r, y.a - x.a)
    ensures MaxSquares(token, x, y).l2 == ChannelTerm(x.g - y.g, y.a - x.a)
    ensures MaxSquares(token, x, y).l3 == ChannelTerm(x.b - y.b, y.a - x.a)
  {
    RedLane(token, x, y);
    GreenLane(token, x, y);
    BlueLane(token, x, y);
  }

  lemma RedLane(token: Token, x: Color, y: Color)
    ensures MaxSquares(token, x, y).l1 == ChannelTerm(x.r - y.r, y.a - x.a)
  {
  }

  lemma GreenLane(token: Token, x: Color, y: Color)
    ensures MaxSquares(token, x, y).l2 == ChannelTerm(x.g - y.g, y.a - x.a)
  {
  }

  lemma BlueLane(token: Token, x: Color, y: Color)
    ensures MaxSquares(token, x, y).l3 == ChannelTerm(x.b - y.b, y.a - x.a)
  {
  }

  /** `diff`: probes for a token on every call and picks the path. */
  function Diff(target: Target, x: Color, y: Color): (d: real)
    ensures d == DiffScalar(x, y)
  {
    match SummonToken(target)
    case Some(token) => DiffSimd(token, x, y)
    case None => DiffScalar(x, y)
  }

  /**
   * Which of the twin implementations a tree builder or a search holds: the
   * scalar one, or the vector one together with the token it was given.
   */
  datatype Path = Scalar | Vector(token: Token)

  /** The distance function a `Path` calls at every comparison. */
  function DiffOn(path: Path, x: Color, y: Color): (d: real)
    ensures d == DiffScalar(x, y)
  {
    match path
    case Scalar => DiffScalar(x, y)
    case Vector(token) => DiffSimd(token, x, y)
  }

  /** The distance of a colour to itself is zero. */
  lemma DiffSelf(x: Color)
    ensures DiffScalar(x, x) == 0.0
  {
  }

  /**
   * The metric is symmetric: swapping the operands negates both the black
   * and the white difference of every channel, which squaring cancels.
   */
  lemma DiffSymmetric(x: Color, y: Color)
    ensures DiffScalar(x, y) == DiffScalar(y, x)
  {
    ChannelSymmetric(x.r - y.r, y.a - x.a);
    ChannelSymmetric(x.g - y.g, y.a - x.a);
    ChannelSymmetric(x.b - y.b, y.a - x.a);
  }

  lemma ChannelSymmetric(black: real, alphaDiff: real)
    ensures ChannelTerm(black, alphaDiff) == ChannelTerm(-black, -alphaDiff)
  {
    assert (-black) * (-black) == black * black;
    assert (-black + -alphaDiff) * (-black + -alphaDiff) == (black + alphaDiff) * (black + alphaDiff);
  }
}
