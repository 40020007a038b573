/** RunCat365Lite's `Runner`: the animated character and its sprite count. */
module LiteRunner {
  import opened Common

  datatype Runner = Runner(value: uint32)

  const Cat: Runner := Runner(0)
  const Parrot: Runner := Runner(1)
  const Horse: Runner := Runner(2)

  const EnumerationValues: seq<Runner> := [Cat, Parrot, Horse]

  predicate IsDefined(r: Runner) {
    r in EnumerationValues
  }

  function GetValues(): (r: seq<Runner>)
    ensures |r| == 3
    ensures Distinct(r)
    ensures forall i :: 0 <= i < |r| ==> IsDefined(r[i])
    ensures forall t :: IsDefined(t) ==> t in r
    ensures forall i, j :: 0 <= i < j < |r| ==> r[i].value < r[j].value
    ensures r[0] == Cat
  {
    EnumerationValues
  }

  /** Sprites per loop; 0 for an unlisted code. */
  function GetFrameNumber(r: Runner): (n: int)
    ensures n > 0 <==> IsDefined(r)
    ensures n >= 0
  {
    match r.value
    case 0 => 5
    case 1 => 10
    case 2 => 14
    case _ => 0
  }

  function GetString(r: Runner): (s: string)
    ensures s == "" <==> !IsDefined(r)
  {
    match r.value
    case 0 => "Cat"
    case 1 => "Parrot"
    case 2 => "Horse"
    case _ => ""
  }

  /** Exact, case-sensitive match; failure leaves code 0 (Cat). */
  function TryParse(value: Option<string>): (p: Parsed<Runner>)
    ensures p.success ==> IsDefined(p.result) && value == Some(GetString(p.result))
    ensures !p.success ==> p.result == Cat
  {
    match value
    case None => Parsed(false, Runner(0))
    case Some(s) =>
      match s
      case "Cat" => Parsed(true, Cat)
      case "Parrot" => Parsed(true, Parrot)
      case "Horse" => Parsed(true, Horse)
      case _ => Parsed(false, Runner(0))
  }

  lemma FrameNumberTable()
    ensures GetFrameNumber(Cat) == 5 && GetFrameNumber(Parrot) == 10 && GetFrameNumber(Horse) == 14
  {
  }

  lemma ParseRoundTrip(r: Runner)
    requires IsDefined(r)
    ensures TryParse(Some(GetString(r))) == Parsed(true, r)
  {
  }

  lemma ClosedEnumLaws()
    ensures ClosedEnum(GetValues(), GetString, TryParse)
  {
    forall i | 0 <= i < |GetValues()|
      ensures TryParse(Some(GetString(GetValues()[i]))) == Parsed(true, GetValues()[i])
    {
      ParseRoundTrip(GetValues()[i]);
    }
  }
}
