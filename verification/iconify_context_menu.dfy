/** Iconify's `ContextMenuManager`, without its widgets: building the frame
    list for a (system theme, theme, runner) triple, the guarded replacement
    that ignores an empty build, the pre-incrementing animation tick,
    disposal, and the click handler that maps a menu label back to a value.
 */
module IconifyContextMenu {
  import opened Common
  import opened Drawing
  import opened IconifyTheme
  import IconifyRunner
  import IconifyRunnerSpeed
  import opened IconColorizer
  import opened FrameBuild
  import opened FrameStore
  import opened LiteMenuItem

  /** `System` follows the system theme; any other selection stands for itself. */
  function EffectiveTheme(systemTheme: Theme, theme: Theme): (t: Theme)
    ensures theme == System ==> t == systemTheme
    ensures theme != System ==> t == theme
  {
    if theme == System then systemTheme else theme
  }

  /** The resource names `"{runner}_{i}".ToLower()` for i below the frame
      number: all lower case, and no two frames share a name. */
  function AssetNames(runner: IconifyRunner.Runner): (names: seq<string>)
    ensures |names| == IconifyRunner.GetFrameNumber(runner)
    ensures forall i, k :: 0 <= i < |names| && 0 <= k < |names[i]| ==> !IsAsciiUpper(names[i][k])
    ensures forall i, j :: 0 <= i < j < |names| ==> names[i] != names[j]
  {
    var stem := IconifyRunner.GetString(runner) + "_";
    var names := seq(IconifyRunner.GetFrameNumber(runner), i requires 0 <= i => ToLower(stem + NatToString(i)));
    LowerIndexedNames(stem, names);
    names
  }

  /** A frame's content: tinted by the accent when there is one, otherwise a
      clone of the resource. */
  function Dress(image: Bitmap, accent: Option<Color>): Bitmap {
    if accent.Some? then TintBitmap(image, accent.value) else image
  }

  /** The list the loop of `SetIcons` builds, its icons allocated from `first`. */
  function BuildIcons(systemTheme: Theme, theme: Theme, runner: IconifyRunner.Runner, lookup: string -> Option<Bitmap>, first: nat): (list: seq<Icon>)
    ensures |list| <= IconifyRunner.GetFrameNumber(runner)
    ensures FreshFrom(list, first)
    ensures var accent := GetAccentColor(EffectiveTheme(systemTheme, theme));
      var found := Collect(AssetNames(runner), lookup);
      && |list| == |found|
      && (forall k :: 0 <= k < |list| ==> accent.Some? ==> list[k].image == TintBitmap(found[k], accent.value))
      && (forall k :: 0 <= k < |list| ==> accent.None? ==> list[k].image == found[k])
  {
    var accent := GetAccentColor(EffectiveTheme(systemTheme, theme));
    var found := Collect(AssetNames(runner), lookup);
    Allocate(seq(|found|, k requires 0 <= k < |found| => Dress(found[k], accent)), first)
  }

  /** `SetIcons`: an empty build changes nothing; otherwise the old icons are
      disposed, the new list installed and the cursor reset. */
  function SetIcons(s: Store, systemTheme: Theme, theme: Theme, runner: IconifyRunner.Runner, lookup: string -> Option<Bitmap>): (r: Store)
    ensures var list := BuildIcons(systemTheme, theme, runner, lookup, s.nextHandle);
      && (|list| == 0 ==> r == s)
      && (|list| > 0 ==> r.icons == list && r.cursor == 0)
      && (|list| > 0 ==> forall i :: 0 <= i < |s.icons| ==> s.icons[i].handle in r.disposed)
    ensures Valid(s) ==> Valid(r)
  {
    var list := BuildIcons(systemTheme, theme, runner, lookup, s.nextHandle);
    if |list| == 0 then s else Replace(s, list)
  }

  /** `AdvanceFrame`: with no icons nothing happens; otherwise the cursor moves
      on first, wrapping around, and the icon it then points at is shown. */
  function AdvanceFrame(s: Store): (t: Tick)
    ensures |s.icons| == 0 ==> t == Tick(s, None)
    ensures |s.icons| > 0 ==>
      && t.store == s.(cursor := Rem(s.cursor + 1, |s.icons|))
      && t.shown == Some(s.icons[t.store.cursor])
    ensures Valid(s) ==> Valid(t.store)
    ensures Valid(s) && t.shown.Some? ==> t.shown.value.handle !in s.disposed
  {
    if |s.icons| == 0 then Tick(s, None)
    else
      var c := Rem(s.cursor + 1, |s.icons|);
      Tick(s.(cursor := c), Some(s.icons[c]))
  }

  /** The icons shown by `k` consecutive ticks. */
  function Shows(s: Store, k: nat): (r: seq<Option<Icon>>)
    ensures |r| == k
    decreases k
  {
    if k == 0 then [] else var t := AdvanceFrame(s); [t.shown] + Shows(t.store, k - 1)
  }

  /** The j-th of a run of ticks shows the icon j + 1 increments past the cursor. */
  lemma {:induction false} ShowsRotate(s: Store, k: nat)
    requires 0 < |s.icons|
    ensures forall j :: 0 <= j < k ==> Shows(s, k)[j] == Some(s.icons[Steps(s.cursor, j + 1, |s.icons|)])
    decreases k
  {
    if k > 0 {
      var t := AdvanceFrame(s);
      ShowsRotate(t.store, k - 1);
    }
  }

  /** From a reset cursor, L ticks show frames 1, 2, .., L-1 and then 0, each
      once, and the next tick starts over. */
  lemma CycleFromReset(r: Store)
    requires 0 < |r.icons| && r.cursor == 0
    ensures var L := |r.icons|;
      && (forall j :: 0 < j < L ==> Shows(r, L + 1)[j - 1] == Some(r.icons[j]))
      && Shows(r, L + 1)[L - 1] == Some(r.icons[0])
      && Shows(r, L + 1)[L] == Shows(r, L + 1)[0]
  {
    CycleVisitsInOrder(r);
    CycleWraps(r);
  }

  lemma CycleVisitsInOrder(r: Store)
    requires 0 < |r.icons| && r.cursor == 0
    ensures forall j :: 0 < j < |r.icons| ==> Shows(r, |r.icons| + 1)[j - 1] == Some(r.icons[j])
  {
    var L := |r.icons|;
    var shows := Shows(r, L + 1);
    ShowsRotate(r, L + 1);
    forall j | 0 < j < L
      ensures shows[j - 1] == Some(r.icons[j])
    {
      assert shows[j - 1] == Some(r.icons[Steps(0, j, L)]);
      StepsFromZero(j, L);
    }
  }

  lemma CycleWraps(r: Store)
    requires 0 < |r.icons| && r.cursor == 0
    ensures Shows(r, |r.icons| + 1)[|r.icons| - 1] == Some(r.icons[0])
    ensures Shows(r, |r.icons| + 1)[|r.icons|] == Shows(r, |r.icons| + 1)[0]
  {
    var L := |r.icons|;
    var shows := Shows(r, L + 1);
    ShowsRotate(r, L + 1);
    assert shows[L - 1] == Some(r.icons[Steps(0, L, L)]);
    StepsFromZero(L, L);
    assert shows[L] == Some(r.icons[Steps(0, L + 1, L)]);
    assert shows[0] == Some(r.icons[Steps(0, 1, L)]);
    StepsSplit(0, L, 1, L);
  }

  /** The cycle restarts after every non-empty `SetIcons`. */
  lemma CycleAfterSetIcons(s: Store, systemTheme: Theme, theme: Theme, runner: IconifyRunner.Runner, lookup: string -> Option<Bitmap>)
    ensures var r := SetIcons(s, systemTheme, theme, runner, lookup);
      var L := |r.icons|;
      0 < |BuildIcons(systemTheme, theme, runner, lookup, s.nextHandle)| ==>
        && 0 < L
        && (forall j :: 0 < j < L ==> Shows(r, L + 1)[j - 1] == Some(r.icons[j]))
        && Shows(r, L + 1)[L - 1] == Some(r.icons[0])
        && Shows(r, L + 1)[L] == Shows(r, L + 1)[0]
  {
    if 0 < |BuildIcons(systemTheme, theme, runner, lookup, s.nextHandle)| {
      CycleFromReset(SetIcons(s, systemTheme, theme, runner, lookup));
    }
  }

  /** An empty build keeps the running cycle: the next ticks are those of the old state. */
  lemma EmptyBuildKeepsCycle(s: Store, systemTheme: Theme, theme: Theme, runner: IconifyRunner.Runner, lookup: string -> Option<Bitmap>, k: nat)
    requires |BuildIcons(systemTheme, theme, runner, lookup, s.nextHandle)| == 0
    ensures Shows(SetIcons(s, systemTheme, theme, runner, lookup), k) == Shows(s, k)
  {
  }

  /** The regular expression `(?<=[a-z])( ([A-Z]))` matches at the start of `s`
      when the character before `s` is in `[a-z]`. */
  predicate SpacedBoundaryAt(s: string, i: int)
    requires 0 < i && i + 1 < |s|
  {
    IsAsciiLower(s[i - 1]) && s[i] == ' ' && IsAsciiUpper(s[i + 1])
  }

  predicate NoSpacedBoundary(s: string) {
    forall i :: 0 < i && i + 1 < |s| ==> !SpacedBoundaryAt(s, i)
  }

  /** The replacement of that expression with `"$2"`, scanning left to right:
      each space between a lower- and an upper-case letter is dropped. */
  function PascalFrom(afterLower: bool, s: string): (r: string)
    ensures |r| <= |s|
    decreases |s|
  {
    if |s| == 0 then ""
    else if afterLower && s[0] == ' ' && 1 < |s| && IsAsciiUpper(s[1]) then [s[1]] + PascalFrom(false, s[2..])
    else [s[0]] + PascalFrom(IsAsciiLower(s[0]), s[1..])
  }

  /** Position by position: character `i` of `s` is copied unless it is a
      space between a lower- and an upper-case letter. */
  function PascalAt(s: string, i: nat): string
    decreases |s| - i
  {
    if i >= |s| then ""
    else (if 0 < i && i + 1 < |s| && SpacedBoundaryAt(s, i) then "" else [s[i]]) + PascalAt(s, i + 1)
  }

  /** `ToPascalCase`: "Yin Yang" becomes "YinYang"; exactly the spaces between
      a lower- and an upper-case letter are removed. */
  function ToPascalCase(name: string): (r: string)
    ensures r == PascalAt(name, 0)
    ensures |r| <= |name|
  {
    PascalFromIsPascalAt(name, 0);
    assert name[0..] == name;
    PascalFrom(false, name)
  }

  /** The left-to-right scan agrees with the positionwise definition on every
      suffix: two such spaces are never adjacent, so no match hides another. */
  lemma {:induction false} PascalFromIsPascalAt(s: string, i: nat)
    requires i <= |s|
    ensures PascalFrom(0 < i && IsAsciiLower(s[i - 1]), s[i..]) == PascalAt(s, i)
    decreases |s| - i
  {
    if i < |s| {
      var t := s[i..];
      assert t[0] == s[i];
      if 0 < i && IsAsciiLower(s[i - 1]) && s[i] == ' ' && i + 1 < |s| && IsAsciiUpper(s[i + 1]) {
        assert t[1] == s[i + 1];
        assert t[2..] == s[i + 2..];
        assert PascalAt(s, i + 1) == [s[i + 1]] + PascalAt(s, i + 2);
        PascalFromIsPascalAt(s, i + 2);
      } else {
        assert t[1..] == s[i + 1..];
        PascalFromIsPascalAt(s, i + 1);
      }
    }
  }

  /** Text without a space between a lower- and an upper-case letter is left alone. */
  lemma PascalCaseIdentity(name: string)
    requires NoSpacedBoundary(name)
    ensures ToPascalCase(name) == name
  {
    PascalFromIdentity(false, name);
  }

  lemma {:induction false} PascalFromIdentity(afterLower: bool, s: string)
    requires !(afterLower && 1 < |s| && s[0] == ' ' && IsAsciiUpper(s[1]))
    requires NoSpacedBoundary(s)
    ensures PascalFrom(afterLower, s) == s
    decreases |s|
  {
    if |s| > 0 {
      var t := s[1..];
      assert NoSpacedBoundary(t) by {
        forall i | 0 < i && i + 1 < |t|
          ensures !SpacedBoundaryAt(t, i)
        {
          assert !SpacedBoundaryAt(s, i + 1);
        }
      }
      if 2 < |s| {
        assert !SpacedBoundaryAt(s, 1);
      }
      PascalFromIdentity(IsAsciiLower(s[0]), t);
      assert [s[0]] + t == s;
    }
  }

  /** Dropping the spaces undoes inserting them, for every left context. */
  lemma {:induction false} PascalUndoesTitleFrom(afterLower: bool, s: string)
    requires !(afterLower && 1 < |s| && s[0] == ' ' && IsAsciiUpper(s[1]))
    requires NoSpacedBoundary(s)
    ensures PascalFrom(afterLower, TitleFrom(afterLower, s)) == s
    decreases |s|
  {
    if |s| > 0 {
      var t := s[1..];
      assert NoSpacedBoundary(t) by {
        forall i | 0 < i && i + 1 < |t|
          ensures !SpacedBoundaryAt(t, i)
        {
          assert !SpacedBoundaryAt(s, i + 1);
        }
      }
      if afterLower && IsAsciiUpper(s[0]) {
        var rest := TitleFrom(false, t);
        assert TitleFrom(afterLower, s) == [' ', s[0]] + rest;
        assert ([' ', s[0]] + rest)[2..] == rest;
        PascalUndoesTitleFrom(false, t);
        assert [s[0]] + t == s;
      } else {
        var rest := TitleFrom(IsAsciiLower(s[0]), t);
        assert TitleFrom(afterLower, s) == [s[0]] + rest;
        if 0 < |t| {
          TitleFromHead(IsAsciiLower(s[0]), t);
        }
        if 2 < |s| {
          assert !SpacedBoundaryAt(s, 1);
        }
        assert ([s[0]] + rest)[1..] == rest;
        PascalUndoesTitleFrom(IsAsciiLower(s[0]), t);
        assert [s[0]] + t == s;
      }
    }
  }

  /** The click handler's `ToPascalCase` inverts the menu's `ToTitleCase` on
      every name without a space between a lower- and an upper-case letter. */
  lemma PascalUndoesTitle(name: string)
    requires NoSpacedBoundary(name)
    ensures ToPascalCase(ToTitleCase(name)) == name
  {
    PascalUndoesTitleFrom(false, name);
  }

  lemma NoSpaceNoBoundary(name: string)
    requires forall i :: 0 <= i < |name| ==> name[i] != ' '
    ensures NoSpacedBoundary(name)
  {
  }

  /** `HandleMenuItemSelection`: a sender that is not a menu item (`None`)
      changes nothing; otherwise the clicked entry becomes the only checked
      one and its label, converted back by `ToPascalCase`, is parsed. */
  function HandleMenuItemSelection<T>(items: seq<MenuItem>, sender: Option<nat>, tryParse: Option<string> -> Parsed<T>): (r: Selection<T>)
    requires sender.Some? ==> sender.value < |items|
    ensures sender.None? ==> r == Selection(items, None)
    ensures |r.items| == |items|
    ensures forall i :: 0 <= i < |items| ==> r.items[i].text == items[i].text
    ensures sender.Some? ==> forall i :: 0 <= i < |items| ==> (r.items[i].checked <==> i == sender.value)
    ensures sender.Some? ==>
      var text := items[sender.value].text;
      && (r.chosen.Some? <==> text.Some? && tryParse(Some(ToPascalCase(text.value))).success)
      && (r.chosen.Some? ==> r.chosen.value == tryParse(Some(ToPascalCase(text.value))).result)
  {
    match sender
    case None => Selection(items, None)
    case Some(k) =>
      var checkedItems := seq(|items|, i requires 0 <= i < |items| => items[i].(checked := i == k));
      var text := items[k].text;
      if text.Some? && tryParse(Some(ToPascalCase(text.value))).success
      then Selection(checkedItems, Some(tryParse(Some(ToPascalCase(text.value))).result))
      else Selection(checkedItems, None)
  }

  /** Clicking the k-th generated entry assigns the k-th value and leaves only
      that entry checked, whenever the k-th name parses back to the k-th value
      and has no space between a lower- and an upper-case letter. */
  lemma ClickAssignsValue<T(!new)>(values: seq<T>, name: T -> string, tryParse: Option<string> -> Parsed<T>, selection: T, k: nat)
    requires k < |values|
    requires tryParse(Some(name(values[k]))) == Parsed(true, values[k])
    requires NoSpacedBoundary(name(values[k]))
    ensures var items := SetupSubMenusFromEnum(values, name, selection);
      var r := HandleMenuItemSelection(items, Some(k), tryParse);
      && r.chosen == Some(values[k])
      && forall i :: 0 <= i < |items| ==> (r.items[i].checked <==> i == k)
  {
    PascalUndoesTitle(name(values[k]));
  }

  lemma ThemeMenuClick(selection: Theme, k: nat)
    requires k < |IconifyTheme.GetValues()|
    ensures var items := SetupSubMenusFromEnum(IconifyTheme.GetValues(), IconifyTheme.GetString, selection);
      HandleMenuItemSelection(items, Some(k), IconifyTheme.TryParse).chosen == Some(IconifyTheme.GetValues()[k])
  {
    IconifyTheme.ParseRoundTrip(IconifyTheme.GetValues()[k]);
    NoSpaceNoBoundary(IconifyTheme.GetString(IconifyTheme.GetValues()[k]));
    ClickAssignsValue(IconifyTheme.GetValues(), IconifyTheme.GetString, IconifyTheme.TryParse, selection, k);
  }

  lemma RunnerMenuClick(selection: IconifyRunner.Runner, k: nat)
    requires k < |IconifyRunner.GetValues()|
    ensures var items := SetupSubMenusFromEnum(IconifyRunner.GetValues(), IconifyRunner.GetString, selection);
      HandleMenuItemSelection(items, Some(k), IconifyRunner.TryParse).chosen == Some(IconifyRunner.GetValues()[k])
  {
    IconifyRunner.ParseRoundTrip(IconifyRunner.GetValues()[k]);
    NoSpaceNoBoundary(IconifyRunner.GetString(IconifyRunner.GetValues()[k]));
    ClickAssignsValue(IconifyRunner.GetValues(), IconifyRunner.GetString, IconifyRunner.TryParse, selection, k);
  }

  lemma SpeedMenuClick(selection: IconifyRunnerSpeed.RunnerSpeed, k: nat)
    requires k < |IconifyRunnerSpeed.GetValues()|
    ensures var items := SetupSubMenusFromEnum(IconifyRunnerSpeed.GetValues(), IconifyRunnerSpeed.GetString, selection);
      HandleMenuItemSelection(items, Some(k), IconifyRunnerSpeed.TryParse).chosen == Some(IconifyRunnerSpeed.GetValues()[k])
  {
    IconifyRunnerSpeed.ParseRoundTrip(IconifyRunnerSpeed.GetValues()[k]);
    NoSpaceNoBoundary(IconifyRunnerSpeed.GetString(IconifyRunnerSpeed.GetValues()[k]));
    ClickAssignsValue(IconifyRunnerSpeed.GetValues(), IconifyRunnerSpeed.GetString, IconifyRunnerSpeed.TryParse, selection, k);
  }
}
