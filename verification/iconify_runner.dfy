/** Iconify's `Runner`: the animated character and the number of sprites one
    loop of its animation has in the project resources.
 */
module IconifyRunner {
  import opened Common

  datatype Runner = Runner(value: uint32)

  const Cat: Runner := Runner(0)
  const Bird: Runner := Runner(1)
  const Cloud: Runner := Runner(2)
  const Flame: Runner := Runner(3)
  const Eye: Runner := Runner(4)
  const YinYang: Runner := Runner(5)

  const EnumerationValues: seq<Runner> := [Cat, Bird, Cloud, Flame, Eye, YinYang]

  predicate IsDefined(r: Runner) {
    r in EnumerationValues
  }

  function GetValues(): (r: seq<Runner>)
    ensures |r| == 6
    ensures Distinct(r)
    ensures forall i :: 0 <= i < |r| ==> IsDefined(r[i])
    ensures forall t :: IsDefined(t) ==> t in r
    ensures forall i, j :: 0 <= i < j < |r| ==> r[i].value < r[j].value
    ensures r[0] == Cat
  {
    EnumerationValues
  }

  /** Sprites per loop; 0 for an unlisted code, which therefore loads nothing. */
  function GetFrameNumber(r: Runner): (n: int)
    ensures n > 0 <==> IsDefined(r)
    ensures n >= 0
  {
    match r.value
    case 0 => 5
    case 1 => 6
    case 2 => 24
    case 3 => 16
    case 4 => 35
    case 5 => 8
    case _ => 0
  }

  function GetString(r: Runner): (s: string)
    ensures s == "" <==> !IsDefined(r)
  {
    match r.value
    case 0 => "Cat"
    case 1 => "Bird"
    case 2 => "Cloud"
    case 3 => "Flame"
    case 4 => "Eye"
    case 5 => "YinYang"
    case _ => ""
  }

  /** Exact, case-sensitive match; failure leaves the default code 0 (Cat). */
  function TryParse(value: Option<string>): (p: Parsed<Runner>)
    ensures p.success ==> IsDefined(p.result) && value == Some(GetString(p.result))
    ensures !p.success ==> p.result == Cat
  {
    match value
    case None => Parsed(false, Runner(0))
    case Some(s) =>
      match s
      case "Cat" => Parsed(true, Cat)
      case "Bird" => Parsed(true, Bird)
      case "Cloud" => Parsed(true, Cloud)
      case "Flame" => Parsed(true, Flame)
      case "Eye" => Parsed(true, Eye)
      case "YinYang" => Parsed(true, YinYang)
      case _ => Parsed(false, Runner(0))
  }

  lemma FrameNumberTable()
    ensures GetFrameNumber(Cat) == 5 && GetFrameNumber(Bird) == 6 && GetFrameNumber(Cloud) == 24
    ensures GetFrameNumber(Flame) == 16 && GetFrameNumber(Eye) == 35 && GetFrameNumber(YinYang) == 8
  {
  }

  lemma ParseRoundTrip(r: Runner)
    requires IsDefined(r)
    ensures TryParse(Some(GetString(r))) == Parsed(true, r)
  {
  }

  lemma GetStringInjective(r: Runner, u: Runner)
    requires IsDefined(r) && IsDefined(u)
    requires GetString(r) == GetString(u)
    ensures r == u
  {
  }

  lemma ClosedEnumLaws()
    ensures ClosedEnum(GetValues(), GetString, TryParse)
  {
    forall i | 0 <= i < |GetValues()|
      ensures TryParse(Some(GetString(GetValues()[i]))) == Parsed(true, GetValues()[i])
    {
      ParseRoundTrip(GetValues()[i]);
    }
  }
}
