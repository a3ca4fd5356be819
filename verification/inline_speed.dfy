/** The speed controls: the number of generations computed per step and the
    target number of steps per second, each set by a slider over the base-2
    logarithm of the value or by typing the value. Only the integer slider
    positions are modelled. */
module InlineSpeed {
  import opened Wrappers
  import opened Decimal

  function Pow2(e: nat): (r: nat)
    ensures r >= 1
  {
    if e == 0 then 1 else 2 * Pow2(e - 1)
  }

  /** The exponent of an exact power of two; nothing for any other number. */
  function Log2(n: int): (r: Option<nat>)
    ensures r.Some? ==> Pow2(r.value) == n
    decreases if n > 0 then n else 0
  {
    if n == 1 then Some(0)
    else if n >= 2 && n % 2 == 0 then
      match Log2(n / 2)
      case Some(e) => Some(e + 1)
      case None => None
    else None
  }

  lemma {:induction false} Log2OfPow2(e: nat)
    ensures Log2(Pow2(e)) == Some(e)
  {
    if e > 0 {
      Log2OfPow2(e - 1);
      assert Pow2(e) / 2 == Pow2(e - 1);
    }
  }

  /** A slider's semantics: its value, its range and its number of
      intermediate stops. */
  datatype ProgressBarRangeInfo = ProgressBarRangeInfo(current: real, low: real, high: real, steps: nat)

  /** The positions a slider with `steps` intermediate stops can take. */
  function Stops(info: ProgressBarRangeInfo): (r: seq<real>)
    requires info.low <= info.high
    ensures |r| == info.steps + 2
    ensures r[0] == info.low && r[|r| - 1] == info.high
  {
    seq(info.steps + 2, k => info.low + (info.high - info.low) * (k as real) / ((info.steps + 1) as real))
  }

  /** The largest exponent the sliders reach. */
  const MaxExponent: nat := 8

  /** The generations slider: exponents 0 to 8 with 7 stops in between. */
  function GenerationsSlider(generationsPerStep: int): (r: Option<ProgressBarRangeInfo>)
    ensures r.Some? <==> Log2(generationsPerStep).Some? && Log2(generationsPerStep).value <= MaxExponent
    ensures r.Some? ==> r.value.current.Floor >= 0 && Pow2(r.value.current.Floor) == generationsPerStep
    ensures r.Some? ==> r.value.current == r.value.current.Floor as real
  {
    match Log2(generationsPerStep)
    case Some(e) => if e <= MaxExponent then Some(ProgressBarRangeInfo(e as real, 0.0, MaxExponent as real, 7)) else None
    case None => None
  }

  /** The generations slider stops exactly at the whole exponents 0 to 8. */
  lemma GenerationsStopsAreWholeExponents(generationsPerStep: int)
    requires GenerationsSlider(generationsPerStep).Some?
    ensures Stops(GenerationsSlider(generationsPerStep).value) == seq(9, k => k as real)
  {
  }

  /** Moving the generations slider to a stop sets two to that power. */
  function SetGenerationsProgress(position: nat): (generationsPerStep: int)
    requires position <= MaxExponent
    ensures GenerationsSlider(generationsPerStep).Some?
    ensures GenerationsSlider(generationsPerStep).value.current == position as real
  {
    Log2OfPow2(position);
    Pow2(position)
  }

  /** Typed text is read as a whole number; text that is not one is refused. */
  function EnterGenerationsText(text: string): (r: Option<int>)
    ensures forall n: int :: r == Some(n) <== text == IntToString(n)
  {
    IntToStringRoundTripAll();
    ParseInt(text)
  }

  lemma IntToStringRoundTripAll()
    ensures forall n: int :: ParseInt(IntToString(n)) == Some(n)
  {
    forall n: int ensures ParseInt(IntToString(n)) == Some(n) {
      IntToStringRoundTrip(n);
    }
  }

  /** The target-speed slider spans exponents 0 to 8 without stops; at a
      whole exponent it sets two to that power steps per second. */
  function SetTargetStepsProgress(position: nat): (stepsPerSecond: real)
    requires position <= MaxExponent
    ensures stepsPerSecond == Pow2(position) as real
    ensures TargetStepsSlider(stepsPerSecond) == Some(ProgressBarRangeInfo(position as real, 0.0, MaxExponent as real, 0))
  {
    Log2OfPow2(position);
    Pow2(position) as real
  }

  /** Where the target-speed slider sits for a whole power of two. */
  function TargetStepsSlider(stepsPerSecond: real): (r: Option<ProgressBarRangeInfo>)
    ensures r.Some? <==> stepsPerSecond == stepsPerSecond.Floor as real
                         && Log2(stepsPerSecond.Floor).Some? && Log2(stepsPerSecond.Floor).value <= MaxExponent
    ensures r.Some? ==> r.value.current.Floor >= 0 && Pow2(r.value.current.Floor) as real == stepsPerSecond
    ensures r.Some? ==> r.value.current == r.value.current.Floor as real
    ensures r.Some? ==> r.value.low == 0.0 && r.value.high == MaxExponent as real && r.value.steps == 0
  {
    if stepsPerSecond != stepsPerSecond.Floor as real then None
    else match Log2(stepsPerSecond.Floor)
      case Some(e) => if e <= MaxExponent then Some(ProgressBarRangeInfo(e as real, 0.0, MaxExponent as real, 0)) else None
      case None => None
  }

  /** Typed target speed: whole-number text sets that many steps per second,
      and the text of a power of two up to 256 moves the slider to its
      exponent. */
  function EnterTargetStepsText(text: string): (r: Option<real>)
    ensures forall n: int :: text == IntToString(n) ==> r == Some(n as real)
    ensures forall e: nat :: e <= MaxExponent && text == IntToString(Pow2(e)) ==>
              r.Some? && TargetStepsSlider(r.value) == Some(ProgressBarRangeInfo(e as real, 0.0, MaxExponent as real, 0))
  {
    IntToStringRoundTripAll();
    Log2OfPow2All();
    match ParseInt(text)
    case Some(n) => Some(n as real)
    case None => None
  }

  lemma Log2OfPow2All()
    ensures forall e: nat :: Log2(Pow2(e)) == Some(e)
  {
    forall e: nat ensures Log2(Pow2(e)) == Some(e) {
      Log2OfPow2(e);
    }
  }

  /** One generation per step sits at slider position 0. */
  lemma OneGenerationAtZero()
    ensures GenerationsSlider(1) == Some(ProgressBarRangeInfo(0.0, 0.0, 8.0, 7))
  {
  }

  /** Position 8 of either slider means 256. */
  lemma PositionEightIs256()
    ensures SetGenerationsProgress(8) == 256
    ensures SetTargetStepsProgress(8) == 256.0
  {
    assert Pow2(8) == 256;
  }

  lemma TextOf256()
    ensures IntToString(256) == "256"
  {
    assert NatToString(2) == "2";
    assert NatToString(25) == NatToString(2) + [DigitChar(5)];
    assert NatToString(256) == NatToString(25) + [DigitChar(6)];
  }

  /** Typing 256 sets 256 generations per step, which puts the slider at 8. */
  lemma Typing256()
    ensures EnterGenerationsText("256") == Some(256)
    ensures GenerationsSlider(256).Some? && GenerationsSlider(256).value.current == 8.0
  {
    TextOf256();
    assert Pow2(8) == 256;
    Log2OfPow2(8);
  }
}
