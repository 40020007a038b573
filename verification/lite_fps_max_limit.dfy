/** RunCat365Lite's `FpsMaxLimit`: a cap on the animation frame rate and the
    timer interval it yields from a 50 ms base scaled by a rate factor.
 */
module LiteFpsMaxLimit {
  import opened Common

  datatype FpsMaxLimit = FpsMaxLimit(value: uint32)

  const Fps10: FpsMaxLimit := FpsMaxLimit(0)
  const Fps20: FpsMaxLimit := FpsMaxLimit(1)
  const Fps30: FpsMaxLimit := FpsMaxLimit(2)
  const Fps40: FpsMaxLimit := FpsMaxLimit(3)

  const EnumerationValues: seq<FpsMaxLimit> := [Fps10, Fps20, Fps30, Fps40]

  predicate IsDefined(f: FpsMaxLimit) {
    f in EnumerationValues
  }

  function GetValues(): (r: seq<FpsMaxLimit>)
    ensures |r| == 4
    ensures Distinct(r)
    ensures forall i :: 0 <= i < |r| ==> IsDefined(r[i])
    ensures forall t :: IsDefined(t) ==> t in r
    ensures forall i, j :: 0 <= i < j < |r| ==> r[i].value < r[j].value
    ensures r[0] == Fps10
  {
    EnumerationValues
  }

  /** The base interval in milliseconds. */
  const Rate: real := 50.0

  /** The rate factor; an unlisted code gets that of Fps40. */
  function RateFactor(f: FpsMaxLimit): real {
    match f.value
    case 0 => 0.25
    case 1 => 0.5
    case 2 => 0.75
    case 3 => 1.0
    case _ => 1.0
  }

  /** `(int)(rate / factor)`: the quotient truncated toward zero. */
  function GetIntervalMs(f: FpsMaxLimit): (ms: int)
    ensures 0 < ms <= 200
    ensures !IsDefined(f) ==> ms == 50
  {
    (Rate / RateFactor(f)).Floor
  }

  function GetString(f: FpsMaxLimit): (r: string)
    ensures r == "" <==> !IsDefined(f)
  {
    match f.value
    case 0 => "Fps10"
    case 1 => "Fps20"
    case 2 => "Fps30"
    case 3 => "Fps40"
    case _ => ""
  }

  /** Exact, case-sensitive match; failure leaves code 0 (Fps10). */
  function TryParse(value: Option<string>): (p: Parsed<FpsMaxLimit>)
    ensures p.success ==> IsDefined(p.result) && value == Some(GetString(p.result))
    ensures !p.success ==> p.result == Fps10
  {
    match value
    case None => Parsed(false, FpsMaxLimit(0))
    case Some(s) =>
      match s
      case "Fps10" => Parsed(true, Fps10)
      case "Fps20" => Parsed(true, Fps20)
      case "Fps30" => Parsed(true, Fps30)
      case "Fps40" => Parsed(true, Fps40)
      case _ => Parsed(false, FpsMaxLimit(0))
  }

  lemma IntervalTable()
    ensures GetIntervalMs(Fps10) == 200 && GetIntervalMs(Fps20) == 100
    ensures GetIntervalMs(Fps30) == 66 && GetIntervalMs(Fps40) == 50
  {
  }

  lemma IntervalStrictlyDecreasing(i: int, j: int)
    requires 0 <= i < j < |GetValues()|
    ensures GetIntervalMs(GetValues()[i]) > GetIntervalMs(GetValues()[j])
  {
    IntervalTable();
  }

  lemma ParseRoundTrip(f: FpsMaxLimit)
    requires IsDefined(f)
    ensures TryParse(Some(GetString(f))) == Parsed(true, f)
  {
  }

  lemma ClosedEnumLaws()
    ensures ClosedEnum(GetValues(), GetString, TryParse)
  {
    forall i | 0 <= i < |GetValues()|
      ensures TryParse(Some(GetString(GetValues()[i]))) == Parsed(true, GetValues()[i])
    {
      ParseRoundTrip(GetValues()[i]);
    }
  }
}
