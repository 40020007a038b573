/** RunCat365Lite's `ContextMenuManager`, without its widgets: building the
    frame list from the theme-prefixed resources, the unconditional
    replacement, the show-then-increment animation tick, disposal, and the
    click handler.
 */
module LiteContextMenu {
  import opened Common
  import opened Drawing
  import opened LiteTheme
  import LiteRunner
  import LiteFpsMaxLimit
  import opened FrameBuild
  import opened FrameStore
  import opened LiteMenuItem

  /** The resource prefix: the system theme's name under `System`, the manual theme's otherwise. */
  function Prefix(systemTheme: Theme, manualTheme: Theme): (p: string)
    ensures manualTheme == System ==> p == GetString(systemTheme)
    ensures manualTheme != System ==> p == GetString(manualTheme)
  {
    GetString(if manualTheme == System then systemTheme else manualTheme)
  }

  /** The resource names `"{prefix}_{runner}_{i}".ToLower()` for i below the
      frame number: all lower case, and no two frames share a name. */
  function AssetNames(systemTheme: Theme, manualTheme: Theme, runner: LiteRunner.Runner): (names: seq<string>)
    ensures |names| == LiteRunner.GetFrameNumber(runner)
    ensures forall i, k :: 0 <= i < |names| && 0 <= k < |names[i]| ==> !IsAsciiUpper(names[i][k])
    ensures forall i, j :: 0 <= i < j < |names| ==> names[i] != names[j]
  {
    var stem := Prefix(systemTheme, manualTheme) + "_" + LiteRunner.GetString(runner) + "_";
    var names := seq(LiteRunner.GetFrameNumber(runner), i requires 0 <= i => ToLower(stem + NatToString(i)));
    LowerIndexedNames(stem, names);
    names
  }

  /** The list the loop of `SetIcons` builds: the found resources themselves,
      in index order, allocated from `first`. */
  function BuildIcons(systemTheme: Theme, manualTheme: Theme, runner: LiteRunner.Runner, lookup: string -> Option<Bitmap>, first: nat): (list: seq<Icon>)
    ensures |list| <= LiteRunner.GetFrameNumber(runner)
    ensures FreshFrom(list, first)
    ensures var found := Collect(AssetNames(systemTheme, manualTheme, runner), lookup);
      |list| == |found| && forall k :: 0 <= k < |list| ==> list[k].image == found[k]
  {
    Allocate(Collect(AssetNames(systemTheme, manualTheme, runner), lookup), first)
  }

  /** `SetIcons`: always disposes the old icons, installs the new list (even
      an empty one) and resets the cursor. */
  function SetIcons(s: Store, systemTheme: Theme, manualTheme: Theme, runner: LiteRunner.Runner, lookup: string -> Option<Bitmap>): (r: Store)
    ensures r.icons == BuildIcons(systemTheme, manualTheme, runner, lookup, s.nextHandle)
    ensures r.cursor == 0
    ensures forall i :: 0 <= i < |s.icons| ==> s.icons[i].handle in r.disposed
    ensures Valid(s) ==> Valid(r)
  {
    Replace(s, BuildIcons(systemTheme, manualTheme, runner, lookup, s.nextHandle))
  }

  /** `AdvanceFrame`: with no icons nothing happens; otherwise an out-of-range
      cursor is reset to 0, the icon at the cursor is shown, and only then
      does the cursor move on, wrapping around. */
  function AdvanceFrame(s: Store): (t: Tick)
    ensures |s.icons| == 0 ==> t == Tick(s, None)
    ensures |s.icons| > 0 ==>
      var c := if s.cursor < |s.icons| then s.cursor else 0;
      && t.shown == Some(s.icons[c])
      && t.store == s.(cursor := Rem(c + 1, |s.icons|))
      && t.store.cursor < |s.icons|
    ensures Valid(s) ==> Valid(t.store)
    ensures Valid(s) && t.shown.Some? ==> t.shown.value.handle !in s.disposed
  {
    if |s.icons| == 0 then Tick(s, None)
    else
      var c := if |s.icons| <= s.cursor then 0 else s.cursor;
      Tick(s.(cursor := Rem(c + 1, |s.icons|)), Some(s.icons[c]))
  }

  /** The icons shown by `k` consecutive ticks. */
  function Shows(s: Store, k: nat): (r: seq<Option<Icon>>)
    ensures |r| == k
    decreases k
  {
    if k == 0 then [] else var t := AdvanceFrame(s); [t.shown] + Shows(t.store, k - 1)
  }

  /** The j-th of a run of ticks shows the icon j increments past the cursor. */
  lemma {:induction false} ShowsRotate(s: Store, k: nat)
    requires s.cursor < |s.icons|
    ensures forall j :: 0 <= j < k ==> Shows(s, k)[j] == Some(s.icons[Steps(s.cursor, j, |s.icons|)])
    decreases k
  {
    if k > 0 {
      var t := AdvanceFrame(s);
      ShowsRotate(t.store, k - 1);
    }
  }

  /** From a reset cursor, L ticks show frames 0, 1, .., L-1, each once, and the
      next tick shows frame 0 again. */
  lemma CycleFromReset(r: Store)
    requires 0 < |r.icons| && r.cursor == 0
    ensures var L := |r.icons|;
      && (forall j :: 0 <= j < L ==> Shows(r, L + 1)[j] == Some(r.icons[j]))
      && Shows(r, L + 1)[L] == Some(r.icons[0])
  {
    var L := |r.icons|;
    var shows := Shows(r, L + 1);
    ShowsRotate(r, L + 1);
    forall j | 0 <= j < L
      ensures shows[j] == Some(r.icons[j])
    {
      assert shows[j] == Some(r.icons[Steps(0, j, L)]);
      StepsFromZero(j, L);
    }
    assert shows[L] == Some(r.icons[Steps(0, L, L)]);
    StepsFromZero(L, L);
  }

  /** After any non-empty `SetIcons` the cycle starts at frame 0. */
  lemma CycleAfterSetIcons(s: Store, systemTheme: Theme, manualTheme: Theme, runner: LiteRunner.Runner, lookup: string -> Option<Bitmap>)
    ensures var r := SetIcons(s, systemTheme, manualTheme, runner, lookup);
      var L := |r.icons|;
      0 < |BuildIcons(systemTheme, manualTheme, runner, lookup, s.nextHandle)| ==>
        && (forall j :: 0 <= j < L ==> Shows(r, L + 1)[j] == Some(r.icons[j]))
        && Shows(r, L + 1)[L] == Some(r.icons[0])
  {
    if 0 < |BuildIcons(systemTheme, manualTheme, runner, lookup, s.nextHandle)| {
      CycleFromReset(SetIcons(s, systemTheme, manualTheme, runner, lookup));
    }
  }

  /** An empty build still replaces: the old icons are gone and ticks show nothing. */
  lemma EmptyBuildClears(s: Store, systemTheme: Theme, manualTheme: Theme, runner: LiteRunner.Runner, lookup: string -> Option<Bitmap>, k: nat)
    ensures var r := SetIcons(s, systemTheme, manualTheme, runner, lookup);
      |BuildIcons(systemTheme, manualTheme, runner, lookup, s.nextHandle)| == 0 ==>
        r.icons == [] && forall j :: 0 <= j < k ==> Shows(r, k)[j] == None
  {
    var r := SetIcons(s, systemTheme, manualTheme, runner, lookup);
    if |BuildIcons(systemTheme, manualTheme, runner, lookup, s.nextHandle)| == 0 {
      EmptyShowsNothing(r, k);
    }
  }

  lemma {:induction false} EmptyShowsNothing(r: Store, k: nat)
    requires r.icons == []
    ensures forall j :: 0 <= j < k ==> Shows(r, k)[j] == None
    decreases k
  {
    if k > 0 {
      EmptyShowsNothing(r, k - 1);
    }
  }

  /** `HandleMenuItemSelection`: a null sender changes nothing; otherwise the
      clicked entry becomes the only checked one and its text, as it is, is
      handed to the parse delegate. */
  function HandleMenuItemSelection<T>(items: seq<MenuItem>, sender: Option<nat>, tryParse: Option<string> -> Parsed<T>): (r: Selection<T>)
    requires sender.Some? ==> sender.value < |items|
    ensures sender.None? ==> r == Selection(items, None)
    ensures |r.items| == |items|
    ensures forall i :: 0 <= i < |items| ==> r.items[i].text == items[i].text
    ensures sender.Some? ==> forall i :: 0 <= i < |items| ==> (r.items[i].checked <==> i == sender.value)
    ensures sender.Some? ==>
      && (r.chosen.Some? <==> tryParse(items[sender.value].text).success)
      && (r.chosen.Some? ==> r.chosen.value == tryParse(items[sender.value].text).result)
  {
    match sender
    case None => Selection(items, None)
    case Some(k) =>
      var checkedItems := seq(|items|, i requires 0 <= i < |items| => items[i].(checked := i == k));
      var parsed := tryParse(items[k].text);
      Selection(checkedItems, if parsed.success then Some(parsed.result) else None)
  }

  /** Clicking the k-th generated entry assigns the k-th value and leaves only
      that entry checked, whenever the k-th name parses back to the k-th value
      and has no case boundary, so that the label is the name itself. */
  lemma ClickAssignsValue<T(!new)>(values: seq<T>, name: T -> string, tryParse: Option<string> -> Parsed<T>, selection: T, k: nat)
    requires k < |values|
    requires tryParse(Some(name(values[k]))) == Parsed(true, values[k])
    requires Transitions(name(values[k])) == 0
    ensures var items := SetupSubMenusFromEnum(values, name, selection);
      var r := HandleMenuItemSelection(items, Some(k), tryParse);
      && r.chosen == Some(values[k])
      && forall i :: 0 <= i < |items| ==> (r.items[i].checked <==> i == k)
  {
    TitleCaseIdentityIff(name(values[k]));
  }

  lemma ThemeMenuClick(selection: Theme, k: nat)
    requires k < |LiteTheme.GetValues()|
    ensures var items := SetupSubMenusFromEnum(LiteTheme.GetValues(), LiteTheme.GetString, selection);
      HandleMenuItemSelection(items, Some(k), LiteTheme.TryParse).chosen == Some(LiteTheme.GetValues()[k])
  {
    LiteTheme.ParseRoundTrip(LiteTheme.GetValues()[k]);
    ClickAssignsValue(LiteTheme.GetValues(), LiteTheme.GetString, LiteTheme.TryParse, selection, k);
  }

  lemma RunnerMenuClick(selection: LiteRunner.Runner, k: nat)
    requires k < |LiteRunner.GetValues()|
    ensures var items := SetupSubMenusFromEnum(LiteRunner.GetValues(), LiteRunner.GetString, selection);
      HandleMenuItemSelection(items, Some(k), LiteRunner.TryParse).chosen == Some(LiteRunner.GetValues()[k])
  {
    LiteRunner.ParseRoundTrip(LiteRunner.GetValues()[k]);
    ClickAssignsValue(LiteRunner.GetValues(), LiteRunner.GetString, LiteRunner.TryParse, selection, k);
  }

  lemma FpsMaxLimitMenuClick(selection: LiteFpsMaxLimit.FpsMaxLimit, k: nat)
    requires k < |LiteFpsMaxLimit.GetValues()|
    ensures var items := SetupSubMenusFromEnum(LiteFpsMaxLimit.GetValues(), LiteFpsMaxLimit.GetString, selection);
      HandleMenuItemSelection(items, Some(k), LiteFpsMaxLimit.TryParse).chosen == Some(LiteFpsMaxLimit.GetValues()[k])
  {
    LiteFpsMaxLimit.ParseRoundTrip(LiteFpsMaxLimit.GetValues()[k]);
    ClickAssignsValue(LiteFpsMaxLimit.GetValues(), LiteFpsMaxLimit.GetString, LiteFpsMaxLimit.TryParse, selection, k);
  }
}
