/** RunCat365Lite's `Speed`: a percentage of the base rate of 8 frames per
    second. Its first member, and so the parse default, is 50%.
 */
module LiteSpeed {
  import opened Common

  datatype Speed = Speed(value: uint32)

  const X050: Speed := Speed(0)
  const X075: Speed := Speed(1)
  const X100: Speed := Speed(2)
  const X150: Speed := Speed(3)
  const X200: Speed := Speed(4)

  const EnumerationValues: seq<Speed> := [X050, X075, X100, X150, X200]

  predicate IsDefined(s: Speed) {
    s in EnumerationValues
  }

  function GetValues(): (r: seq<Speed>)
    ensures |r| == 5
    ensures Distinct(r)
    ensures forall i :: 0 <= i < |r| ==> IsDefined(r[i])
    ensures forall t :: IsDefined(t) ==> t in r
    ensures forall i, j :: 0 <= i < j < |r| ==> r[i].value < r[j].value
    ensures r[0] == X050
  {
    EnumerationValues
  }

  /** Milliseconds per frame at 100%: 1000 / 8. */
  const Interval: real := 1000.0 / 8.0

  /** The divisor applied to the interval; an unlisted code runs at 100%,
      not at the 50% of code 0. */
  function Multiplier(s: Speed): real {
    match s.value
    case 0 => 0.50
    case 1 => 0.75
    case 2 => 1.00
    case 3 => 1.50
    case 4 => 2.00
    case _ => 1.00
  }

  /** `(int)(interval / multiplier)`: the quotient truncated toward zero. */
  function GetDelay(s: Speed): (ms: int)
    ensures 0 < ms <= 250
    ensures !IsDefined(s) ==> ms == 125
  {
    (Interval / Multiplier(s)).Floor
  }

  function GetString(s: Speed): (r: string)
    ensures r == "" <==> !IsDefined(s)
  {
    match s.value
    case 0 => "50%"
    case 1 => "75%"
    case 2 => "100%"
    case 3 => "150%"
    case 4 => "200%"
    case _ => ""
  }

  /** Exact match on the percentage strings; failure leaves code 0 (X050). */
  function TryParse(value: Option<string>): (p: Parsed<Speed>)
    ensures p.success ==> IsDefined(p.result) && value == Some(GetString(p.result))
    ensures !p.success ==> p.result == X050
  {
    match value
    case None => Parsed(false, Speed(0))
    case Some(s) =>
      match s
      case "50%" => Parsed(true, X050)
      case "75%" => Parsed(true, X075)
      case "100%" => Parsed(true, X100)
      case "150%" => Parsed(true, X150)
      case "200%" => Parsed(true, X200)
      case _ => Parsed(false, Speed(0))
  }

  lemma DelayTable()
    ensures GetDelay(X050) == 250 && GetDelay(X075) == 166 && GetDelay(X100) == 125
    ensures GetDelay(X150) == 83 && GetDelay(X200) == 62
  {
  }

  /** An unlisted code gets the delay of X100, which differs from that of the parse default X050. */
  lemma UnknownDelayIsNotDefaultDelay(s: Speed)
    requires !IsDefined(s)
    ensures GetDelay(s) == GetDelay(X100) != GetDelay(TryParse(None).result)
  {
    DelayTable();
  }

  lemma DelayStrictlyDecreasing(i: int, j: int)
    requires 0 <= i < j < |GetValues()|
    ensures GetDelay(GetValues()[i]) > GetDelay(GetValues()[j])
  {
    DelayTable();
  }

  lemma ParseRoundTrip(s: Speed)
    requires IsDefined(s)
    ensures TryParse(Some(GetString(s))) == Parsed(true, s)
  {
  }

  lemma ClosedEnumLaws()
    ensures ClosedEnum(GetValues(), GetString, TryParse)
  {
    forall i | 0 <= i < |GetValues()|
      ensures TryParse(Some(GetString(GetValues()[i]))) == Parsed(true, GetValues()[i])
    {
      ParseRoundTrip(GetValues()[i]);
    }
  }
}
