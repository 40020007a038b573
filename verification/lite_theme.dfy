/** RunCat365Lite's `Theme`: follow the system, or force the light or dark
    sprite set. Any 32-bit code can be held; only 0, 1 and 2 are listed.
 */
module LiteTheme {
  import opened Common

  datatype Theme = Theme(value: uint32)

  const System: Theme := Theme(0)
  const Light: Theme := Theme(1)
  const Dark: Theme := Theme(2)

  const EnumerationValues: seq<Theme> := [System, Light, Dark]

  predicate IsDefined(t: Theme) {
    t in EnumerationValues
  }

  function GetValues(): (r: seq<Theme>)
    ensures |r| == 3
    ensures Distinct(r)
    ensures forall i :: 0 <= i < |r| ==> IsDefined(r[i])
    ensures forall t :: IsDefined(t) ==> t in r
    ensures forall i, j :: 0 <= i < j < |r| ==> r[i].value < r[j].value
    ensures r[0] == System
  {
    EnumerationValues
  }

  function GetString(t: Theme): (r: string)
    ensures r == "" <==> !IsDefined(t)
  {
    match t.value
    case 0 => "System"
    case 1 => "Light"
    case 2 => "Dark"
    case _ => ""
  }

  /** Exact, case-sensitive match; failure leaves code 0 (System). */
  function TryParse(value: Option<string>): (p: Parsed<Theme>)
    ensures p.success ==> IsDefined(p.result) && value == Some(GetString(p.result))
    ensures !p.success ==> p.result == System
  {
    match value
    case None => Parsed(false, Theme(0))
    case Some(s) =>
      match s
      case "System" => Parsed(true, System)
      case "Light" => Parsed(true, Light)
      case "Dark" => Parsed(true, Dark)
      case _ => Parsed(false, Theme(0))
  }

  lemma ParseRoundTrip(t: Theme)
    requires IsDefined(t)
    ensures TryParse(Some(GetString(t))) == Parsed(true, t)
  {
  }

  lemma ClosedEnumLaws()
    ensures ClosedEnum(GetValues(), GetString, TryParse)
  {
    forall i | 0 <= i < |GetValues()|
      ensures TryParse(Some(GetString(GetValues()[i]))) == Parsed(true, GetValues()[i])
    {
      ParseRoundTrip(GetValues()[i]);
    }
  }
}
