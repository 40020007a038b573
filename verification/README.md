# Tray-icon animator core (Iconify and RunCat365 Lite)

This project models the core of two Windows tray applications that animate a
small character in the notification area: Iconify and RunCat365 Lite. The core is:

- the closed enumerations, which are record structs over a `uint` code: the
  runner (character), the theme, the speed and the frame-rate cap. Each has
  its frame counts, delays, intervals and accent colours, its `GetString`
  names, and a `TryParse` that falls back to code 0;
- Iconify's theme logic: which themes are accents and what colour each one
  carries, and how a theme resolves to a base tone;
- Iconify's luminance-weighted tint of a bitmap, pixel by pixel;
- the frame store each `ContextMenuManager` owns: building the frame list
  from resource lookups, replacing it and disposing the old icons, the
  animation tick with its wrap-around cursor, and teardown. The two variants
  differ here. Iconify ignores an empty build and increments the cursor
  before it shows a frame. Lite always replaces the list and shows a frame
  before it increments;
- the menu labels: `ToTitleCase` inserts a space at each lower-to-upper case
  boundary, and Iconify's `ToPascalCase` removes it again. Also modelled are
  the generation of one checkable entry per enumeration value and the click
  handler that marks one entry as checked and parses its label back into a value.

Resource lookup is a parameter (`lookup: string -> Option<Bitmap>`). So is
the system theme. An icon is a handle plus its image. The store records the
handles of disposed icons, which lets the model state that every icon it
replaces is disposed and that no tick shows a disposed icon. Every store
operation runs under the manager's lock in the source. Each one is therefore
modelled as one atomic step on an immutable `Store` value.

Three details of the source that are easy to misread:

- The tint truncates each channel toward zero with the C# `(int)` cast. It
  does not round.
- Lite's `SetIcons` installs an empty build as well and clears the frames.
  Only Iconify keeps the previous list when the build is empty.
- Lite's tick shows the frame at the cursor and then increments. So the first
  tick after a reset shows frame 0. Iconify increments first, so its first
  tick after a reset shows frame 1.

## Model

| member | source | states |
|---|---|---|
| IconifyTheme.GetValues | Iconify/Theme.cs:146-149 | the member table lists exactly the 14 defined themes, each once, in ascending code order, System first |
| IconifyTheme.GetAccentColor | Iconify/Theme.cs:68-85 | a colour is returned exactly for the accent themes (Gray and Red..Magenta), and it is always opaque |
| IconifyTheme.ResolveBaseTheme | Iconify/Theme.cs:87-93 | System resolves to the system theme, every accent resolves to White, and any other theme resolves to itself; a non-System theme never resolves to an accent or to System |
| IconifyTheme.GetString | Iconify/Theme.cs:95-117 | the name is empty exactly for codes outside the member table |
| IconifyTheme.TryParse | Iconify/Theme.cs:119-144 | a successful parse yields a listed theme whose name is the input; a failed parse (null included) leaves System |
| IconifyTheme.ParseRoundTrip | Iconify/Theme.cs:95-144 | parsing the name of any listed theme succeeds and yields that theme |
| IconifyTheme.GetStringInjective | Iconify/Theme.cs:95-117 | two listed themes with the same name are equal |
| IconifyTheme.IsAccentTheme | Iconify/Theme.cs:60-66 | a theme is an accent exactly when its code is 2 (Gray) or one of 10..19 (Red..Magenta) |
| IconifyTheme.AccentThemesAreListed | Iconify/Theme.cs:40-66 | the accent themes are exactly the listed themes other than System, White and Black |
| IconifyTheme.AccentColorTable | Iconify/Theme.cs:68-85 | the eleven accent colours are the opaque RGB triples of the palette, and System, White and Black have none |
| IconifyTheme.ResolveBaseThemeIdempotent | Iconify/Theme.cs:87-93 | when the system theme is not an accent, resolving an already resolved theme changes nothing |
| IconifyTheme.ClosedEnumLaws | Iconify/Theme.cs:40-149 | Theme obeys the closed-enumeration laws: distinct values with non-empty names, name/parse round trip, and every failed parse defaults to the first value |
| IconifyRunner.GetValues | Iconify/Runner.cs:88-91 | exactly the six defined runners, each once, in ascending code order, Cat first |
| IconifyRunner.GetFrameNumber | Iconify/Runner.cs:42-55 | the frame count is positive exactly for listed runners and 0 otherwise |
| IconifyRunner.GetString | Iconify/Runner.cs:57-69 | the name is empty exactly for unlisted codes |
| IconifyRunner.TryParse | Iconify/Runner.cs:71-86 | success yields a listed runner whose name is the input; failure leaves Cat |
| IconifyRunner.FrameNumberTable | Iconify/Runner.cs:42-55 | the frame counts are Cat 5, Bird 6, Cloud 24, Flame 16, Eye 35 and YinYang 8 |
| IconifyRunner.ParseRoundTrip | Iconify/Runner.cs:57-86 | the name of every listed runner parses back to that runner |
| IconifyRunner.GetStringInjective | Iconify/Runner.cs:57-69 | listed runners with equal names are equal |
| IconifyRunner.ClosedEnumLaws | Iconify/Runner.cs:31-91 | Runner obeys the closed-enumeration laws |
| IconifyRunnerSpeed.GetValues | Iconify/RunnerSpeed.cs:85-88 | exactly the five defined speeds, each once, in ascending code order, X100 first |
| IconifyRunnerSpeed.GetDelay | Iconify/RunnerSpeed.cs:40-54 | the delay is between 1 and 125 ms, and an unlisted code gets the 100% delay of 125 ms |
| IconifyRunnerSpeed.GetString | Iconify/RunnerSpeed.cs:56-67 | the label is empty exactly for unlisted codes |
| IconifyRunnerSpeed.TryParse | Iconify/RunnerSpeed.cs:69-83 | success yields a listed speed whose label is the input; failure leaves X100 |
| IconifyRunnerSpeed.DelayTable | Iconify/RunnerSpeed.cs:40-54 | 1000/8 ms divided by the multiplier and truncated gives 125, 100, 83, 71 and 62 ms |
| IconifyRunnerSpeed.DelayStrictlyDecreasing | Iconify/RunnerSpeed.cs:30-54 | a later speed in the member table waits strictly less than an earlier one |
| IconifyRunnerSpeed.ParseRoundTrip | Iconify/RunnerSpeed.cs:56-83 | every listed speed's label parses back to it |
| IconifyRunnerSpeed.GetStringInjective | Iconify/RunnerSpeed.cs:56-67 | listed speeds with equal labels are equal |
| IconifyRunnerSpeed.ClosedEnumLaws | Iconify/RunnerSpeed.cs:30-88 | RunnerSpeed obeys the closed-enumeration laws |
| IconColorizer.Intensity | Iconify/IconColorizer.cs:60 | the weighted luminance divided by 255 lies in [0, 1] |
| IconColorizer.Scale | Iconify/IconColorizer.cs:62-64 | the truncated product is the floor of channel times intensity and never exceeds the channel, so `FromArgb` accepts it |
| IconColorizer.TintPixel | Iconify/IconColorizer.cs:52-68 | a fully transparent pixel becomes `Color.Transparent`; any other pixel keeps its alpha, and each channel is the floor of the accent channel times the pixel's intensity, so no channel exceeds the accent's |
| IconColorizer.TintRow | Iconify/IconColorizer.cs:50-69 | a row keeps its length, and pixel x of the result is the tint of source pixel x |
| IconColorizer.TintBitmap | Iconify/IconColorizer.cs:44-71 | the result has the source's shape, and pixel (x, y) is the tint of source pixel (x, y) alone |
| IconColorizer.BlackStaysBlack | Iconify/IconColorizer.cs:56-68 | a visible black pixel stays black and keeps its alpha |
| IconColorizer.TintPreservesAlpha | Iconify/IconColorizer.cs:44-71 | every alpha value is kept, and a rectangular source gives a rectangular result |
| LiteTheme.GetValues | RunCat365Lite/Theme.cs:61-64 | exactly the three defined themes, each once, in ascending code order, System first |
| LiteTheme.GetString | RunCat365Lite/Theme.cs:36-45 | the name is empty exactly for unlisted codes |
| LiteTheme.TryParse | RunCat365Lite/Theme.cs:47-59 | success yields a listed theme whose name is the input; failure leaves System |
| LiteTheme.ParseRoundTrip | RunCat365Lite/Theme.cs:36-59 | every listed theme's name parses back to it |
| LiteTheme.ClosedEnumLaws | RunCat365Lite/Theme.cs:28-64 | Lite's Theme obeys the closed-enumeration laws |
| LiteRunner.GetValues | RunCat365Lite/Runner.cs:72 | exactly the three defined runners, each once, in ascending code order, Cat first |
| LiteRunner.GetFrameNumber | RunCat365Lite/Runner.cs:36-45 | the frame count is positive exactly for listed runners and 0 otherwise |
| LiteRunner.GetString | RunCat365Lite/Runner.cs:47-56 | the name is empty exactly for unlisted codes |
| LiteRunner.TryParse | RunCat365Lite/Runner.cs:58-70 | success yields a listed runner whose name is the input; failure leaves Cat |
| LiteRunner.FrameNumberTable | RunCat365Lite/Runner.cs:36-45 | the frame counts are Cat 5, Parrot 10 and Horse 14 |
| LiteRunner.ParseRoundTrip | RunCat365Lite/Runner.cs:47-70 | every listed runner's name parses back to it |
| LiteRunner.ClosedEnumLaws | RunCat365Lite/Runner.cs:28-72 | Lite's Runner obeys the closed-enumeration laws |
| LiteSpeed.GetValues | RunCat365Lite/Speed.cs:85-88 | exactly the five defined speeds, each once, in ascending code order, X050 first |
| LiteSpeed.GetDelay | RunCat365Lite/Speed.cs:40-54 | the delay is between 1 and 250 ms, and an unlisted code gets the 100% delay of 125 ms |
| LiteSpeed.GetString | RunCat365Lite/Speed.cs:56-67 | the label is empty exactly for unlisted codes |
| LiteSpeed.TryParse | RunCat365Lite/Speed.cs:69-83 | success yields a listed speed whose label is the input; failure leaves X050 |
| LiteSpeed.DelayTable | RunCat365Lite/Speed.cs:40-54 | the delays are 250, 166, 125, 83 and 62 ms |
| LiteSpeed.UnknownDelayIsNotDefaultDelay | RunCat365Lite/Speed.cs:47-52 | an unlisted code runs at the 100% delay, which is not the delay of X050, the value a failed parse leaves |
| LiteSpeed.DelayStrictlyDecreasing | RunCat365Lite/Speed.cs:30-54 | a later speed in the member table waits strictly less than an earlier one |
| LiteSpeed.ParseRoundTrip | RunCat365Lite/Speed.cs:56-83 | every listed speed's label parses back to it |
| LiteSpeed.ClosedEnumLaws | RunCat365Lite/Speed.cs:30-88 | Speed obeys the closed-enumeration laws |
| LiteFpsMaxLimit.GetValues | RunCat365Lite/FPSMaxLimit.cs:79 | exactly the four defined limits, each once, in ascending code order, Fps10 first |
| LiteFpsMaxLimit.GetIntervalMs | RunCat365Lite/FPSMaxLimit.cs:38-50 | the interval is between 1 and 200 ms, and an unlisted code gets Fps40's 50 ms |
| LiteFpsMaxLimit.GetString | RunCat365Lite/FPSMaxLimit.cs:52-62 | the name is empty exactly for unlisted codes |
| LiteFpsMaxLimit.TryParse | RunCat365Lite/FPSMaxLimit.cs:64-77 | success yields a listed limit whose name is the input; failure leaves Fps10 |
| LiteFpsMaxLimit.IntervalTable | RunCat365Lite/FPSMaxLimit.cs:38-50 | 50 ms divided by the rate factor and truncated gives 200, 100, 66 and 50 ms |
| LiteFpsMaxLimit.IntervalStrictlyDecreasing | RunCat365Lite/FPSMaxLimit.cs:29-50 | a higher frame-rate cap has a strictly shorter interval |
| LiteFpsMaxLimit.ParseRoundTrip | RunCat365Lite/FPSMaxLimit.cs:52-77 | every listed limit's name parses back to it |
| LiteFpsMaxLimit.ClosedEnumLaws | RunCat365Lite/FPSMaxLimit.cs:29-79 | FpsMaxLimit obeys the closed-enumeration laws |
| LiteMenuItem.TitleFrom | RunCat365Lite/CustomToolStripMenuItem.cs:102-105 | the regular-expression replacement never shortens its input |
| LiteMenuItem.ToTitleCase | RunCat365Lite/CustomToolStripMenuItem.cs:102-105 | the label is the name with a space put in front of each upper-case letter that follows a lower-case one and nowhere else, so it is longer by exactly the number of such boundaries |
| LiteMenuItem.TitleFromIsTitleAt | RunCat365Lite/CustomToolStripMenuItem.cs:102-105 | the left-to-right replacement equals the position-by-position definition on every suffix of the name |
| LiteMenuItem.TitleFromLength | RunCat365Lite/CustomToolStripMenuItem.cs:102-105 | for any left context, one space is inserted per boundary |
| LiteMenuItem.TitleFromIdentity | RunCat365Lite/CustomToolStripMenuItem.cs:102-105 | text with no boundary, including at its left edge, is left unchanged |
| LiteMenuItem.TitleCaseIdentityIff | RunCat365Lite/CustomToolStripMenuItem.cs:102-105 | a name is its own label if and only if it has no case boundary |
| LiteMenuItem.TitleFromHead | RunCat365Lite/CustomToolStripMenuItem.cs:102-105 | the first output character is the inserted space exactly when the replacement matches at the start |
| LiteMenuItem.WithoutSpacesAppend | RunCat365Lite/CustomToolStripMenuItem.cs:102-105 | dropping spaces distributes over concatenation |
| LiteMenuItem.TitleFromOnlyAddsSpaces | RunCat365Lite/CustomToolStripMenuItem.cs:102-105 | for any left context, the replacement adds spaces and changes nothing else |
| LiteMenuItem.TitleCaseOnlyAddsSpaces | RunCat365Lite/CustomToolStripMenuItem.cs:102-105 | the label without its spaces is the name without its spaces, and the label has exactly one extra character per case boundary |
| LiteMenuItem.YinYangLabel | RunCat365Lite/CustomToolStripMenuItem.cs:102-105 | "YinYang" is labelled "Yin Yang" |
| LiteMenuItem.IsSingleLine | RunCat365Lite/CustomToolStripMenuItem.cs:68-71 | the text is single-line exactly when it is null or contains no line feed |
| LiteMenuItem.Flags | RunCat365Lite/CustomToolStripMenuItem.cs:73-76 | padding and vertical centring are always set; the ellipsis is set exactly for single-line text, and word break and text-box control exactly for multi-line text |
| LiteMenuItem.SetupSubMenusFromEnum | RunCat365Lite/CustomToolStripMenuItem.cs:78-100 | one entry per value in order, labelled with the value's title-cased name, and checked exactly when the value is the current selection |
| LiteMenuItem.ExactlyOneChecked | RunCat365Lite/CustomToolStripMenuItem.cs:78-100 | with distinct values, a selection among them checks exactly one entry, and any other selection checks none |
| FrameBuild.Found | Iconify/ContextMenuManager.cs:167-177 | the indices the loop keeps: ascending, every one names an existing resource, and every existing resource's index is among them |
| FrameBuild.Collect | RunCat365Lite/ContextMenuManager.cs:187-193 | one image per found index, in order, each being the resource found under that index's name; never more than the nominal frame count |
| FrameBuild.CollectExtremes | RunCat365Lite/ContextMenuManager.cs:187-193 | with every resource present the list is full length; with none present it is empty |
| FrameBuild.CollectAllMissing | RunCat365Lite/ContextMenuManager.cs:187-193 | when no resource is present the collected list is empty |
| FrameBuild.FullIncreasing | Iconify/ContextMenuManager.cs:167-177 | a strictly increasing list of indices below n that contains every index below n has length n |
| FrameBuild.Allocate | Iconify/ContextMenuManager.cs:173-175 | each kept image becomes a new icon, with handles numbered consecutively in list order |
| FrameStore.InitialValid | Iconify/ContextMenuManager.cs:26-32 | the store before the first `SetIcons` (an empty list and cursor 0, as in both managers' field initialisers; RunCat365Lite/ContextMenuManager.cs:27-31 for Lite) satisfies the store invariant |
| FrameStore.Replace | Iconify/ContextMenuManager.cs:182-189 | the swap installs the new list with the cursor at 0 and disposes every old icon, leaving other disposal records alone; it keeps the invariant given freshly allocated icons |
| FrameStore.Dispose | RunCat365Lite/ContextMenuManager.cs:261-277 | teardown disposes every held icon and empties the list, and the invariant still holds |
| FrameStore.Steps | Iconify/ContextMenuManager.cs:224 | after at least one wrap-around increment, the cursor lies inside the list |
| FrameStore.StepsNoWrap | Iconify/ContextMenuManager.cs:224 | increments that stay below the length do not wrap |
| FrameStore.StepsWrap | Iconify/ContextMenuManager.cs:224 | from cursor c, exactly n - c increments bring it back to 0 |
| FrameStore.StepsSplit | Iconify/ContextMenuManager.cs:224 | a + b increments equal a increments followed by b increments |
| FrameStore.StepsFromZero | Iconify/ContextMenuManager.cs:224 | from 0, j increments give j below the length and 0 at the length |
| IconifyContextMenu.EffectiveTheme | Iconify/ContextMenuManager.cs:161 | System stands for the system theme, and every other theme stands for itself |
| IconifyContextMenu.AssetNames | Iconify/ContextMenuManager.cs:163-169 | one resource name for each index below the runner's frame count; no name holds an upper-case letter and no two frames share a name |
| IconifyContextMenu.BuildIcons | Iconify/ContextMenuManager.cs:157-178 | the list has at most the frame count of fresh icons, one per found resource in index order; each is tinted with the effective theme's accent when there is one, and an untouched copy otherwise |
| IconifyContextMenu.SetIcons | Iconify/ContextMenuManager.cs:157-190 | an empty build leaves the store as it was; otherwise the new list is installed with the cursor at 0 and every old icon disposed; the invariant is kept |
| IconifyContextMenu.AdvanceFrame | Iconify/ContextMenuManager.cs:217-227 | with no icons nothing happens; otherwise the cursor first moves to (cursor + 1) mod count and the icon at the new cursor is shown; the invariant is kept and the icon the tick shows is never a disposed one |
| IconifyContextMenu.Shows | Iconify/ContextMenuManager.cs:217-227 | k ticks show k results |
| IconifyContextMenu.ShowsRotate | Iconify/ContextMenuManager.cs:217-227 | tick j of a run shows the icon j + 1 wrap-around increments past the starting cursor |
| IconifyContextMenu.CycleFromReset | Iconify/ContextMenuManager.cs:217-227 | from a reset cursor, L ticks show frames 1, .., L-1 and then 0, each once, and tick L+1 shows what tick 1 showed |
| IconifyContextMenu.CycleVisitsInOrder | Iconify/ContextMenuManager.cs:217-227 | from a reset cursor, ticks 1 .. L-1 show frames 1 .. L-1 |
| IconifyContextMenu.CycleWraps | Iconify/ContextMenuManager.cs:217-227 | from a reset cursor, tick L shows frame 0 and tick L+1 repeats tick 1 |
| IconifyContextMenu.CycleAfterSetIcons | Iconify/ContextMenuManager.cs:157-227 | after a `SetIcons` whose build is non-empty, the store holds icons and the frames cycle as in CycleFromReset |
| IconifyContextMenu.EmptyBuildKeepsCycle | Iconify/ContextMenuManager.cs:179-180 | after an empty build, every run of ticks shows exactly what it would have shown before |
| IconifyContextMenu.PascalFrom | Iconify/ContextMenuManager.cs:250-251 | removing the spaces never lengthens the text |
| IconifyContextMenu.ToPascalCase | Iconify/ContextMenuManager.cs:139 | the result is the label with exactly the spaces between a lower-case and an upper-case letter removed, every other character kept in order |
| IconifyContextMenu.PascalFromIsPascalAt | Iconify/ContextMenuManager.cs:250-251 | the left-to-right replacement equals the position-by-position removal on every suffix, since two matches never overlap |
| IconifyContextMenu.PascalCaseIdentity | Iconify/ContextMenuManager.cs:250-251 | text without a space between a lower-case and an upper-case letter is unchanged |
| IconifyContextMenu.PascalFromIdentity | Iconify/ContextMenuManager.cs:250-251 | the same for any left context that does not start a match |
| IconifyContextMenu.PascalUndoesTitleFrom | Iconify/ContextMenuManager.cs:250-251 | for any left context, removing the spaces undoes inserting them |
| IconifyContextMenu.PascalUndoesTitle | Iconify/ContextMenuManager.cs:250-251 | `ToPascalCase(ToTitleCase(name)) == name` for every name without a space between a lower-case and an upper-case letter |
| IconifyContextMenu.NoSpaceNoBoundary | Iconify/ContextMenuManager.cs:250-251 | a name without spaces has no such spaced boundary |
| IconifyContextMenu.HandleMenuItemSelection | Iconify/ContextMenuManager.cs:122-140 | a sender that is not a menu item changes nothing; otherwise only the clicked entry is checked, labels are kept, and a value is assigned exactly when the label is non-null and its Pascal-cased form parses, the value being that parse result |
| IconifyContextMenu.ClickAssignsValue | Iconify/ContextMenuManager.cs:122-140 | when the k-th name parses back to the k-th value and has no space between a lower- and an upper-case letter, clicking the k-th generated entry assigns the k-th value and leaves only that entry checked |
| IconifyContextMenu.ThemeMenuClick | Iconify/ContextMenuManager.cs:122-140 | clicking any theme entry assigns that theme |
| IconifyContextMenu.RunnerMenuClick | Iconify/ContextMenuManager.cs:122-140 | clicking any runner entry assigns that runner, YinYang included |
| IconifyContextMenu.SpeedMenuClick | Iconify/ContextMenuManager.cs:122-140 | clicking any speed entry assigns that speed |
| LiteContextMenu.Prefix | RunCat365Lite/ContextMenuManager.cs:182 | the prefix is the system theme's name under System, and the manual theme's name otherwise |
| LiteContextMenu.AssetNames | RunCat365Lite/ContextMenuManager.cs:182-190 | one `prefix_runner_i` name for each index below the frame count; no name holds an upper-case letter and no two frames share a name |
| LiteContextMenu.BuildIcons | RunCat365Lite/ContextMenuManager.cs:180-193 | at most the frame count of fresh icons, which are the found resources themselves in index order |
| LiteContextMenu.SetIcons | RunCat365Lite/ContextMenuManager.cs:180-202 | the old icons are always disposed and the build (even an empty one) installed, with the cursor at 0; the invariant is kept |
| LiteContextMenu.AdvanceFrame | RunCat365Lite/ContextMenuManager.cs:229-238 | with no icons nothing happens; otherwise an out-of-range cursor is treated as 0, the icon at the cursor is shown, and only then does the cursor move on; the cursor ends inside the list and the icon the tick shows is never a disposed one |
| LiteContextMenu.Shows | RunCat365Lite/ContextMenuManager.cs:229-238 | k ticks show k results |
| LiteContextMenu.ShowsRotate | RunCat365Lite/ContextMenuManager.cs:229-238 | tick j of a run shows the icon j wrap-around increments past the starting cursor |
| LiteContextMenu.CycleFromReset | RunCat365Lite/ContextMenuManager.cs:229-238 | from a reset cursor, L ticks show frames 0, .., L-1, each once, and tick L+1 shows frame 0 again |
| LiteContextMenu.CycleAfterSetIcons | RunCat365Lite/ContextMenuManager.cs:180-238 | after a `SetIcons` whose build is non-empty, the frames cycle as in CycleFromReset |
| LiteContextMenu.EmptyBuildClears | RunCat365Lite/ContextMenuManager.cs:195-201 | an empty build removes the old frames, and every later tick shows nothing |
| LiteContextMenu.EmptyShowsNothing | RunCat365Lite/ContextMenuManager.cs:233 | a store with no icons shows nothing on any tick |
| LiteContextMenu.HandleMenuItemSelection | RunCat365Lite/ContextMenuManager.cs:153-171 | a null sender changes nothing; otherwise only the clicked entry is checked, and a value is assigned exactly when the parse delegate accepts the entry's raw text, the value being its result |
| LiteContextMenu.ClickAssignsValue | RunCat365Lite/ContextMenuManager.cs:153-171 | when the k-th name parses back to the k-th value and has no case boundary, clicking the k-th generated entry assigns the k-th value and leaves only that entry checked |
| LiteContextMenu.ThemeMenuClick | RunCat365Lite/ContextMenuManager.cs:153-171 | clicking any theme entry assigns that theme |
| LiteContextMenu.RunnerMenuClick | RunCat365Lite/ContextMenuManager.cs:153-171 | clicking any runner entry assigns that runner |
| LiteContextMenu.FpsMaxLimitMenuClick | RunCat365Lite/ContextMenuManager.cs:153-171 | clicking any frame-rate cap entry assigns that cap |
| Common.Rem | Iconify/ContextMenuManager.cs:224 | the remainder of the cursor increment is below the count, and is the increment itself when that is already below the count |
| Common.RemOfMultiple | RunCat365Lite/ContextMenuManager.cs:236 | subtracting the divisor q times from q * n + r leaves r |
| Common.RemIsMod | RunCat365Lite/ContextMenuManager.cs:236 | the repeated-subtraction remainder equals the `%` of Euclidean division, which is C#'s `%` on non-negative operands |
| Common.ToLower | RunCat365Lite/ContextMenuManager.cs:189 | lower-casing keeps the length, maps every letter to lower case and leaves other characters alone |
| Common.NatToString | RunCat365Lite/ContextMenuManager.cs:189 | the frame index renders as a non-empty string of decimal digits with no leading zero except for 0 itself, which renders as "0" |
| Common.NatToStringValue | RunCat365Lite/ContextMenuManager.cs:189 | reading the rendered digits back as a decimal number gives the frame index |
| Common.NatToStringInjective | RunCat365Lite/ContextMenuManager.cs:189 | different frame indices render differently |
| Common.LowerIndexedNameInjective | RunCat365Lite/ContextMenuManager.cs:189 | a lower-cased stem followed by a frame index determines the index, since lower-casing keeps the digits |
| Common.LowerIndexedNames | RunCat365Lite/ContextMenuManager.cs:186-190 | the names `"{stem}{i}".ToLower()` of one build contain no upper-case letter and are pairwise distinct |

## Left out

- The widgets: `NotifyIcon`, the context-menu strip, thumbnails (`GetRunnerThumbnailBitmap`), balloon tips, the startup toggle, `GetPreferredSize` and the painting code. They are Windows Forms plumbing.
- The application shells, program entry points, settings storage, startup registration and the string tables (`IconifyApp.cs`, `Program.cs`, `LaunchAtStartupManager.cs`, `StartupAppManager.cs`, `ApplicationStrings.cs`, `AppStrings.cs`). They are outside the core.
- The timers that call `AdvanceFrame` and the OS theme-change notification. The system theme is a parameter.
- The locks. Every store operation runs under the manager's lock, so each is one atomic step.
- Native icon handles: `GetHicon`, `DestroyIcon`, `Icon.FromHandle`/`Clone` in `CreateTintedIcon`. An icon is a handle number plus its image, and disposal is recorded as a set of handles. The base resource icons that Iconify tints or clones, and never disposes itself, are not tracked.
- `IconColorizer.Intensity`: computed over the reals, not in IEEE single precision. Truncation may differ from `float` arithmetic in the last unit for some pixels.
- `IconifyRunnerSpeed.GetDelay`, `LiteSpeed.GetDelay`, `LiteFpsMaxLimit.GetIntervalMs`: the `float` quotients are computed over the reals. All listed values divide to the same truncated results.
- `Common.ToLower`: only ASCII letters are lower-cased, not culture-sensitive `string.ToLower`. Every resource name is ASCII.
- `IconifyContextMenu.HandleMenuItemSelection`, `LiteContextMenu.HandleMenuItemSelection`: the sender is the index of the clicked entry among the parent menu's children. `None` stands for a null or non-menu-item sender. Lite's cast exception on a non-menu-item sender is not modelled.
- `LiteMenuItem.SetupSubMenusFromEnum`: the click callback and the thumbnail image of each entry are not modelled. Only the text and check state are. Lite's call sites (RunCat365Lite/ContextMenuManager.cs:51-65, 68-81, 85) pass four arguments, a name delegate, a three-parameter callback, a selection predicate such as `r => getRunner() == r` and a thumbnail, while the definition (RunCat365Lite/CustomToolStripMenuItem.cs:78-99) takes three, a two-parameter callback, a selection value and a thumbnail, and names each entry with `value.GetString()`. The model's `name: T -> string` follows the call sites and its `selection: T` follows the definition. The call sites' predicates all test equality with the current value and their name delegates all call `GetString`, so either reading gives the same labels and check marks.
- Iconify's `CustomToolStripMenuItem.cs` is not part of this model. Iconify's label function is assumed to match RunCat365 Lite's `ToTitleCase`, and Iconify's menus are modelled with Lite's.
- The call sites in the managers' constructors that pass other parse delegates (`Enum.TryParse`, `FPSMaxLimitExtension.TryParse`) or refer to members that Iconify's `Theme` and the Lite enumerations do not define (`GetRate`, `Theme.Dark`, `Theme.Light`). The click lemmas use each enumeration's own `TryParse`.
- Showing `Icons[0]` in the managers' constructors. The model starts from the empty store.
- The icon currently on display in the notification area. After `SetIcons` it can still be one that was just disposed: in Iconify until the next tick, and in Lite indefinitely after an empty build, because Lite's tick returns early with no frames (RunCat365Lite/ContextMenuManager.cs:233). The model only states that no tick shows a disposed icon.
- `LiteContextMenu.BuildIcons`: Lite casts each non-null resource with `(Icon)icon` (RunCat365Lite/ContextMenuManager.cs:190-192), which throws for a resource that is not an icon, whereas Iconify skips such a resource with `is Icon` (Iconify/ContextMenuManager.cs:171). The lookup parameter returns only bitmaps or nothing, so the model treats every non-null Lite resource as an icon and does not model the exception.
- Lite's `Speed` is not used by Lite's `ContextMenuManager`. Its enumeration is modelled on its own.
