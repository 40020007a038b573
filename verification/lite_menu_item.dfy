/** RunCat365Lite's `CustomToolStripMenuItem`: the label of an enumeration
    menu entry (its name with a space inserted at every lower-to-upper case
    boundary), the single- versus multi-line text flags, and the generation of
    one checkable entry per enumeration value.
 */
module LiteMenuItem {
  import opened Common

  /** A menu entry as far as the core sees it: its (nullable) text and check mark. */
  datatype MenuItem = MenuItem(text: Option<string>, checked: bool)

  /** The menu entries after a click handler ran, and the value handed to the setter, if any. */
  datatype Selection<T> = Selection(items: seq<MenuItem>, chosen: Option<T>)

  /** The regular expression `(?<=[a-z])([A-Z])` matches at `c` preceded by `prev`. */
  predicate IsBoundary(prev: char, c: char) {
    IsAsciiLower(prev) && IsAsciiUpper(c)
  }

  /** The number of adjacent pairs of `s` that form a lower-to-upper boundary. */
  function Transitions(s: string): nat {
    if |s| < 2 then 0
    else (if IsBoundary(s[0], s[1]) then 1 else 0) + Transitions(s[1..])
  }

  /** The replacement of the regular expression with `" $1"`, scanning `s`
      left to right; `afterLower` says whether the character just before `s`
      is in `[a-z]`. */
  function TitleFrom(afterLower: bool, s: string): (r: string)
    ensures |r| >= |s|
    decreases |s|
  {
    if |s| == 0 then ""
    else (if afterLower && IsAsciiUpper(s[0]) then [' ', s[0]] else [s[0]]) + TitleFrom(IsAsciiLower(s[0]), s[1..])
  }

  /** Position by position: character `i` of `s` is copied, preceded by a
      space exactly when it is upper case and character `i - 1` is lower case. */
  function TitleAt(s: string, i: nat): string
    decreases |s| - i
  {
    if i >= |s| then ""
    else (if 0 < i && IsBoundary(s[i - 1], s[i]) then " " else "") + [s[i]] + TitleAt(s, i + 1)
  }

  /** `ToTitleCase`: "YinYang" becomes "Yin Yang"; a space goes in front of
      every upper-case letter that follows a lower-case one, and nowhere else. */
  function ToTitleCase(name: string): (r: string)
    ensures r == TitleAt(name, 0)
    ensures |r| == |name| + Transitions(name)
  {
    TitleFromLength(false, name);
    TitleFromIsTitleAt(name, 0);
    assert name[0..] == name;
    TitleFrom(false, name)
  }

  /** The left-to-right scan agrees with the positionwise definition on every suffix. */
  lemma {:induction false} TitleFromIsTitleAt(s: string, i: nat)
    requires i <= |s|
    ensures TitleFrom(0 < i && IsAsciiLower(s[i - 1]), s[i..]) == TitleAt(s, i)
    decreases |s| - i
  {
    if i < |s| {
      assert s[i..][0] == s[i];
      assert s[i..][1..] == s[i + 1..];
      TitleFromIsTitleAt(s, i + 1);
    }
  }

  lemma {:induction false} TitleFromLength(afterLower: bool, s: string)
    ensures |TitleFrom(afterLower, s)| ==
      |s| + (if afterLower && 0 < |s| && IsAsciiUpper(s[0]) then 1 else 0) + Transitions(s)
    decreases |s|
  {
    if |s| > 0 {
      TitleFromLength(IsAsciiLower(s[0]), s[1..]);
    }
  }

  lemma {:induction false} TitleFromIdentity(afterLower: bool, s: string)
    requires !(afterLower && 0 < |s| && IsAsciiUpper(s[0]))
    requires Transitions(s) == 0
    ensures TitleFrom(afterLower, s) == s
    decreases |s|
  {
    if |s| > 0 {
      TitleFromIdentity(IsAsciiLower(s[0]), s[1..]);
      assert [s[0]] + s[1..] == s;
    }
  }

  /** A name is its own label exactly when it has no case boundary
      ("Cat", "100%", "Fps10"). */
  lemma TitleCaseIdentityIff(name: string)
    ensures ToTitleCase(name) == name <==> Transitions(name) == 0
  {
    if Transitions(name) == 0 {
      TitleFromIdentity(false, name);
    }
  }

  lemma TitleFromHead(afterLower: bool, s: string)
    requires 0 < |s|
    ensures TitleFrom(afterLower, s)[0] == if afterLower && IsAsciiUpper(s[0]) then ' ' else s[0]
  {
  }

  /** The characters of `s` other than spaces, in order. */
  function WithoutSpaces(s: string): string {
    if |s| == 0 then "" else (if s[0] == ' ' then "" else [s[0]]) + WithoutSpaces(s[1..])
  }

  lemma {:induction false} WithoutSpacesAppend(a: string, b: string)
    ensures WithoutSpaces(a + b) == WithoutSpaces(a) + WithoutSpaces(b)
    decreases |a|
  {
    if |a| > 0 {
      assert (a + b)[1..] == a[1..] + b;
      WithoutSpacesAppend(a[1..], b);
    } else {
      assert a + b == b;
    }
  }

  lemma {:induction false} TitleFromOnlyAddsSpaces(afterLower: bool, s: string)
    ensures WithoutSpaces(TitleFrom(afterLower, s)) == WithoutSpaces(s)
    decreases |s|
  {
    if |s| > 0 {
      var head := if afterLower && IsAsciiUpper(s[0]) then [' ', s[0]] else [s[0]];
      WithoutSpacesAppend(head, TitleFrom(IsAsciiLower(s[0]), s[1..]));
      TitleFromOnlyAddsSpaces(IsAsciiLower(s[0]), s[1..]);
      assert WithoutSpaces(head) == WithoutSpaces([s[0]]) by {
        if |head| == 2 {
          assert head[1..] == [s[0]];
        }
      }
      assert [s[0]] + s[1..] == s;
      WithoutSpacesAppend([s[0]], s[1..]);
    }
  }

  /** The label differs from the name only by inserted spaces: dropping every
      space from both gives the same text, and the label is longer by exactly
      the number of case boundaries. */
  lemma TitleCaseOnlyAddsSpaces(name: string)
    ensures WithoutSpaces(ToTitleCase(name)) == WithoutSpaces(name)
    ensures |ToTitleCase(name)| == |name| + Transitions(name)
  {
    TitleFromOnlyAddsSpaces(false, name);
  }

  lemma YinYangLabel()
    ensures ToTitleCase("YinYang") == "Yin Yang"
  {
    var s := "YinYang";
    assert TitleFrom(false, s) == [s[0]] + TitleFrom(false, s[1..]);
    assert TitleFrom(false, s[1..]) == [s[1]] + TitleFrom(true, s[2..]);
    assert TitleFrom(true, s[2..]) == [s[2]] + TitleFrom(true, s[3..]);
    assert TitleFrom(true, s[3..]) == [' ', s[3]] + TitleFrom(false, s[4..]);
    assert TitleFrom(false, s[4..]) == [s[4]] + TitleFrom(true, s[5..]);
    assert TitleFrom(true, s[5..]) == [s[5]] + TitleFrom(true, s[6..]);
    assert TitleFrom(true, s[6..]) == [s[6]] + TitleFrom(true, s[7..]);
  }

  /** `IsSingleLine`: the text is null or holds no line feed. */
  function IsSingleLine(item: MenuItem): (b: bool)
    ensures b <==> item.text.None? || forall i :: 0 <= i < |item.text.value| ==> item.text.value[i] != '\n'
  {
    item.text.None? || '\n' !in item.text.value
  }

  datatype TextFormatFlag = LeftAndRightPadding | VerticalCenter | WordBreak | TextBoxControl | EndEllipsis

  const MultiLineTextFlags: set<TextFormatFlag> := {LeftAndRightPadding, VerticalCenter, WordBreak, TextBoxControl}

  const SingleLineTextFlags: set<TextFormatFlag> := {LeftAndRightPadding, VerticalCenter, EndEllipsis}

  /** Single-line text is cut with an ellipsis; multi-line text wraps. */
  function Flags(item: MenuItem): (f: set<TextFormatFlag>)
    ensures LeftAndRightPadding in f && VerticalCenter in f
    ensures EndEllipsis in f <==> IsSingleLine(item)
    ensures WordBreak in f <==> !IsSingleLine(item)
    ensures TextBoxControl in f <==> !IsSingleLine(item)
  {
    if IsSingleLine(item) then SingleLineTextFlags else MultiLineTextFlags
  }

  /** `SetupSubMenusFromEnum`: one entry per value, in order, labelled with the
      title-cased name and checked exactly when it is the current selection. */
  function SetupSubMenusFromEnum<T(==)>(values: seq<T>, name: T -> string, selection: T): (items: seq<MenuItem>)
    ensures |items| == |values|
    ensures forall i :: 0 <= i < |values| ==> items[i].text == Some(ToTitleCase(name(values[i])))
    ensures forall i :: 0 <= i < |values| ==> (items[i].checked <==> values[i] == selection)
  {
    if |values| == 0 then []
    else
      var last := values[|values| - 1];
      SetupSubMenusFromEnum(values[..|values| - 1], name, selection)
        + [MenuItem(Some(ToTitleCase(name(last))), selection == last)]
  }

  /** With distinct values, a selection that is one of them is checked in
      exactly one entry, and any other selection in none. */
  lemma ExactlyOneChecked<T>(values: seq<T>, name: T -> string, selection: T)
    requires Distinct(values)
    ensures var items := SetupSubMenusFromEnum(values, name, selection);
      (selection in values ==> exists k :: 0 <= k < |items| && items[k].checked) &&
      (forall i, j :: 0 <= i < |items| && 0 <= j < |items| && items[i].checked && items[j].checked ==> i == j) &&
      (selection !in values ==> forall i :: 0 <= i < |items| ==> !items[i].checked)
  {
    var items := SetupSubMenusFromEnum(values, name, selection);
    if selection in values {
      var k :| 0 <= k < |values| && values[k] == selection;
      assert items[k].checked;
    }
  }
}
