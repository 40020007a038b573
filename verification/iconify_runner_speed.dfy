/** Iconify's `RunnerSpeed`: the animation speed as a percentage of the base
    rate of 8 frames per second, and the timer delay it yields.
 */
module IconifyRunnerSpeed {
  import opened Common

  datatype RunnerSpeed = RunnerSpeed(value: uint32)

  const X100: RunnerSpeed := RunnerSpeed(0)
  const X125: RunnerSpeed := RunnerSpeed(1)
  const X150: RunnerSpeed := RunnerSpeed(2)
  const X175: RunnerSpeed := RunnerSpeed(3)
  const X200: RunnerSpeed := RunnerSpeed(4)

  const EnumerationValues: seq<RunnerSpeed> := [X100, X125, X150, X175, X200]

  predicate IsDefined(s: RunnerSpeed) {
    s in EnumerationValues
  }

  function GetValues(): (r: seq<RunnerSpeed>)
    ensures |r| == 5
    ensures Distinct(r)
    ensures forall i :: 0 <= i < |r| ==> IsDefined(r[i])
    ensures forall t :: IsDefined(t) ==> t in r
    ensures forall i, j :: 0 <= i < j < |r| ==> r[i].value < r[j].value
    ensures r[0] == X100
  {
    EnumerationValues
  }

  /** Milliseconds per frame at 100%: 1000 / 8. */
  const Interval: real := 1000.0 / 8.0

  /** The divisor applied to the interval; an unlisted code runs at 100%. */
  function Multiplier(s: RunnerSpeed): real {
    match s.value
    case 0 => 1.00
    case 1 => 1.25
    case 2 => 1.50
    case 3 => 1.75
    case 4 => 2.00
    case _ => 1.00
  }

  /** `(int)(interval / multiplier)`: the quotient truncated toward zero. */
  function GetDelay(s: RunnerSpeed): (ms: int)
    ensures 0 < ms <= 125
    ensures !IsDefined(s) ==> ms == 125
  {
    (Interval / Multiplier(s)).Floor
  }

  function GetString(s: RunnerSpeed): (r: string)
    ensures r == "" <==> !IsDefined(s)
  {
    match s.value
    case 0 => "100%"
    case 1 => "125%"
    case 2 => "150%"
    case 3 => "175%"
    case 4 => "200%"
    case _ => ""
  }

  /** Exact match on the percentage strings; failure leaves code 0 (X100). */
  function TryParse(value: Option<string>): (p: Parsed<RunnerSpeed>)
    ensures p.success ==> IsDefined(p.result) && value == Some(GetString(p.result))
    ensures !p.success ==> p.result == X100
  {
    match value
    case None => Parsed(false, RunnerSpeed(0))
    case Some(s) =>
      match s
      case "100%" => Parsed(true, X100)
      case "125%" => Parsed(true, X125)
      case "150%" => Parsed(true, X150)
      case "175%" => Parsed(true, X175)
      case "200%" => Parsed(true, X200)
      case _ => Parsed(false, RunnerSpeed(0))
  }

  lemma DelayTable()
    ensures GetDelay(X100) == 125 && GetDelay(X125) == 100 && GetDelay(X150) == 83
    ensures GetDelay(X175) == 71 && GetDelay(X200) == 62
  {
  }

  /** A faster setting never waits as long as a slower one. */
  lemma DelayStrictlyDecreasing(i: int, j: int)
    requires 0 <= i < j < |GetValues()|
    ensures GetDelay(GetValues()[i]) > GetDelay(GetValues()[j])
  {
    DelayTable();
  }

  lemma ParseRoundTrip(s: RunnerSpeed)
    requires IsDefined(s)
    ensures TryParse(Some(GetString(s))) == Parsed(true, s)
  {
  }

  lemma GetStringInjective(s: RunnerSpeed, u: RunnerSpeed)
    requires IsDefined(s) && IsDefined(u)
    requires GetString(s) == GetString(u)
    ensures s == u
  {
  }

  lemma ClosedEnumLaws()
    ensures ClosedEnum(GetValues(), GetString, TryParse)
  {
    forall i | 0 <= i < |GetValues()|
      ensures TryParse(Some(GetString(GetValues()[i]))) == Parsed(true, GetValues()[i])
    {
      ParseRoundTrip(GetValues()[i]);
    }
  }
}
