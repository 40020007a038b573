/** Iconify's `Theme`: the colour selection. Code 0 follows the system, codes
    1..3 are neutral tones and codes 10..19 (with Gray, code 2, counted among
    them) are accent hues carrying a fixed opaque RGB colour. Like the C#
    record struct, a `Theme` may hold any 32-bit code, listed or not.
 */
module IconifyTheme {
  import opened Common
  import opened Drawing

  datatype Theme = Theme(value: uint32)

  const System: Theme := Theme(0)
  const White: Theme := Theme(1)
  const Gray: Theme := Theme(2)
  const Black: Theme := Theme(3)
  const Red: Theme := Theme(10)
  const Orange: Theme := Theme(11)
  const Yellow: Theme := Theme(12)
  const Lime: Theme := Theme(13)
  const Green: Theme := Theme(14)
  const Teal: Theme := Theme(15)
  const Cyan: Theme := Theme(16)
  const Blue: Theme := Theme(17)
  const Purple: Theme := Theme(18)
  const Magenta: Theme := Theme(19)

  /** The member table, in declaration order. */
  const EnumerationValues: seq<Theme> :=
    [System, White, Gray, Black, Red, Orange, Yellow, Lime, Green, Teal, Cyan, Blue, Purple, Magenta]

  predicate IsDefined(t: Theme) {
    t in EnumerationValues
  }

  function GetValues(): (r: seq<Theme>)
    ensures |r| == 14
    ensures Distinct(r)
    ensures forall i :: 0 <= i < |r| ==> IsDefined(r[i])
    ensures forall t :: IsDefined(t) ==> t in r
    ensures forall i, j :: 0 <= i < j < |r| ==> r[i].value < r[j].value
    ensures r[0] == System
  {
    EnumerationValues
  }

  /** The accent themes are Gray and the hues coded 10..19. */
  predicate IsAccentTheme(t: Theme): (b: bool)
    ensures b <==> t.value == 2 || 10 <= t.value <= 19
  {
    t == Gray || t == Red || t == Orange || t == Yellow || t == Lime || t == Green
    || t == Teal || t == Cyan || t == Blue || t == Purple || t == Magenta
  }

  /** The accent colour of a theme, or null for System, White, Black and
      every unlisted code. */
  function GetAccentColor(t: Theme): (r: Option<Color>)
    ensures r.Some? <==> IsAccentTheme(t)
    ensures r.Some? ==> r.value.a == 255
  {
    match t.value
    case 2 => Some(FromArgb(255, 107, 114, 128))
    case 10 => Some(FromArgb(255, 239, 68, 68))
    case 11 => Some(FromArgb(255, 249, 115, 22))
    case 12 => Some(FromArgb(255, 234, 179, 8))
    case 13 => Some(FromArgb(255, 132, 204, 22))
    case 14 => Some(FromArgb(255, 34, 197, 94))
    case 15 => Some(FromArgb(255, 20, 184, 166))
    case 16 => Some(FromArgb(255, 0, 199, 252))
    case 17 => Some(FromArgb(255, 59, 130, 246))
    case 18 => Some(FromArgb(255, 139, 92, 246))
    case 19 => Some(FromArgb(255, 217, 70, 239))
    case _ => None
  }

  /** The neutral sprite set a theme is drawn from: the system theme for
      System, White under every accent hue, and the theme itself otherwise. */
  function ResolveBaseTheme(t: Theme, systemTheme: Theme): (r: Theme)
    ensures t == System ==> r == systemTheme
    ensures t != System ==> !IsAccentTheme(r) && r != System
    ensures IsAccentTheme(t) ==> r == White
    ensures t != System && !IsAccentTheme(t) ==> r == t
  {
    if t == System then systemTheme
    else if IsAccentTheme(t) then White
    else t
  }

  function GetString(t: Theme): (r: string)
    ensures r == "" <==> !IsDefined(t)
  {
    match t.value
    case 0 => "System"
    case 1 => "White"
    case 2 => "Gray"
    case 3 => "Black"
    case 10 => "Red"
    case 11 => "Orange"
    case 12 => "Yellow"
    case 13 => "Lime"
    case 14 => "Green"
    case 15 => "Teal"
    case 16 => "Cyan"
    case 17 => "Blue"
    case 18 => "Purple"
    case 19 => "Magenta"
    case _ => ""
  }

  /** Case-sensitive exact match against the fourteen names; null and every
      other string fail and leave the default code 0 (System). */
  function TryParse(value: Option<string>): (p: Parsed<Theme>)
    ensures p.success ==> IsDefined(p.result) && value == Some(GetString(p.result))
    ensures !p.success ==> p.result == System
  {
    match value
    case None => Parsed(false, Theme(0))
    case Some(s) =>
      match s
      case "System" => Parsed(true, System)
      case "White" => Parsed(true, White)
      case "Gray" => Parsed(true, Gray)
      case "Black" => Parsed(true, Black)
      case "Red" => Parsed(true, Red)
      case "Orange" => Parsed(true, Orange)
      case "Yellow" => Parsed(true, Yellow)
      case "Lime" => Parsed(true, Lime)
      case "Green" => Parsed(true, Green)
      case "Teal" => Parsed(true, Teal)
      case "Cyan" => Parsed(true, Cyan)
      case "Blue" => Parsed(true, Blue)
      case "Purple" => Parsed(true, Purple)
      case "Magenta" => Parsed(true, Magenta)
      case _ => Parsed(false, Theme(0))
  }

  /** Every listed theme survives serialisation. */
  lemma ParseRoundTrip(t: Theme)
    requires IsDefined(t)
    ensures TryParse(Some(GetString(t))) == Parsed(true, t)
  {
  }

  lemma GetStringInjective(t: Theme, u: Theme)
    requires IsDefined(t) && IsDefined(u)
    requires GetString(t) == GetString(u)
    ensures t == u
  {
  }

  /** Exactly the accent hues are listed themes other than System, White and Black. */
  lemma AccentThemesAreListed(t: Theme)
    ensures IsAccentTheme(t) <==> IsDefined(t) && t != System && t != White && t != Black
  {
  }

  /** The accent palette. */
  lemma AccentColorTable()
    ensures GetAccentColor(Gray) == Some(Color(255, 107, 114, 128))
    ensures GetAccentColor(Red) == Some(Color(255, 239, 68, 68))
    ensures GetAccentColor(Orange) == Some(Color(255, 249, 115, 22))
    ensures GetAccentColor(Yellow) == Some(Color(255, 234, 179, 8))
    ensures GetAccentColor(Lime) == Some(Color(255, 132, 204, 22))
    ensures GetAccentColor(Green) == Some(Color(255, 34, 197, 94))
    ensures GetAccentColor(Teal) == Some(Color(255, 20, 184, 166))
    ensures GetAccentColor(Cyan) == Some(Color(255, 0, 199, 252))
    ensures GetAccentColor(Blue) == Some(Color(255, 59, 130, 246))
    ensures GetAccentColor(Purple) == Some(Color(255, 139, 92, 246))
    ensures GetAccentColor(Magenta) == Some(Color(255, 217, 70, 239))
    ensures GetAccentColor(System) == None && GetAccentColor(White) == None && GetAccentColor(Black) == None
  {
  }

  /** Resolving twice changes nothing once the system theme is not itself an accent. */
  lemma ResolveBaseThemeIdempotent(t: Theme, systemTheme: Theme)
    requires !IsAccentTheme(systemTheme)
    ensures ResolveBaseTheme(ResolveBaseTheme(t, systemTheme), systemTheme) == ResolveBaseTheme(t, systemTheme)
  {
  }

  lemma ClosedEnumLaws()
    ensures ClosedEnum(GetValues(), GetString, TryParse)
  {
    forall i | 0 <= i < |GetValues()|
      ensures TryParse(Some(GetString(GetValues()[i]))) == Parsed(true, GetValues()[i])
    {
      ParseRoundTrip(GetValues()[i]);
    }
  }
}
