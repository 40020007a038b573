/** Shared vocabulary of both variants: the 32-bit unsigned code behind every
    closed enumeration, nullable values, the (bool, out result) shape of
    `TryParse`, and the few ASCII string helpers the resource names and menu
    labels are built from.
 */
module Common {

  /** C# `uint`: the code every closed enumeration wraps. */
  newtype uint32 = x: int | 0 <= x < 0x1_0000_0000

  /** A C# nullable: `None` plays the role of `null`. */
  datatype Option<+T> = None | Some(value: T)

  /** The outcome of `static bool TryParse(string? value, out T result)`:
      the returned flag and the value left in the `out` parameter. */
  datatype Parsed<T> = Parsed(success: bool, result: T)

  /** The regular-expression classes `[a-z]` and `[A-Z]`. */
  predicate IsAsciiLower(c: char) {
    'a' <= c <= 'z'
  }

  predicate IsAsciiUpper(c: char) {
    'A' <= c <= 'Z'
  }

  function LowerChar(c: char): char {
    if IsAsciiUpper(c) then (c as int + 32) as char else c
  }

  /** `string.ToLower()` restricted to ASCII letters (every resource name is ASCII). */
  function ToLower(s: string): (r: string)
    ensures |r| == |s|
    ensures forall i :: 0 <= i < |s| ==> r[i] == LowerChar(s[i])
    ensures forall i :: 0 <= i < |s| ==> !IsAsciiUpper(r[i])
  {
    if |s| == 0 then "" else ToLower(s[..|s| - 1]) + [LowerChar(s[|s| - 1])]
  }

  function DigitChar(d: nat): char
    requires d < 10
  {
    ('0' as int + d) as char
  }

  /** Decimal rendering of a non-negative `int` in string interpolation:
      digits only, and a leading zero only for zero itself. */
  function NatToString(n: nat): (r: string)
    ensures 0 < |r|
    ensures forall i :: 0 <= i < |r| ==> '0' <= r[i] <= '9'
    ensures r[0] == '0' <==> n == 0
    ensures n == 0 ==> r == "0"
  {
    if n < 10 then [DigitChar(n)] else NatToString(n / 10) + [DigitChar(n % 10)]
  }

  /** The number a string of decimal digits denotes, most significant first. */
  function DigitsValue(s: string): nat
    requires forall i :: 0 <= i < |s| ==> '0' <= s[i] <= '9'
  {
    if |s| == 0 then 0 else DigitsValue(s[..|s| - 1]) * 10 + (s[|s| - 1] as int - '0' as int)
  }

  /** Reading the rendering back gives the number. */
  lemma {:induction false} NatToStringValue(n: nat)
    ensures DigitsValue(NatToString(n)) == n
    decreases n
  {
    if 10 <= n {
      var prefix := NatToString(n / 10);
      assert (prefix + [DigitChar(n % 10)])[..|prefix|] == prefix;
      NatToStringValue(n / 10);
    }
  }

  /** Different frame indices give different resource-name suffixes. */
  lemma NatToStringInjective(a: nat, b: nat)
    requires NatToString(a) == NatToString(b)
    ensures a == b
  {
    NatToStringValue(a);
    NatToStringValue(b);
  }

  /** Lower-casing a stem followed by a decimal index keeps the index's
      digits, so two such names are equal only when the indices are. */
  lemma LowerIndexedNameInjective(stem: string, a: nat, b: nat)
    requires ToLower(stem + NatToString(a)) == ToLower(stem + NatToString(b))
    ensures a == b
  {
    var x, y := NatToString(a), NatToString(b);
    var u, v := ToLower(stem + x), ToLower(stem + y);
    assert |x| == |y|;
    forall k | 0 <= k < |x|
      ensures x[k] == y[k]
    {
      assert (stem + x)[|stem| + k] == x[k];
      assert (stem + y)[|stem| + k] == y[k];
      assert u[|stem| + k] == LowerChar(x[k]) == x[k];
      assert v[|stem| + k] == LowerChar(y[k]) == y[k];
    }
    assert x == y;
    NatToStringInjective(a, b);
  }

  /** A list whose `i`-th entry is the lower-cased stem followed by `i` has
      no upper-case letter and no repeated entry. */
  lemma LowerIndexedNames(stem: string, names: seq<string>)
    requires forall i :: 0 <= i < |names| ==> names[i] == ToLower(stem + NatToString(i))
    ensures forall i, k :: 0 <= i < |names| && 0 <= k < |names[i]| ==> !IsAsciiUpper(names[i][k])
    ensures forall i, j :: 0 <= i < j < |names| ==> names[i] != names[j]
  {
    forall i, j | 0 <= i < j < |names|
      ensures names[i] != names[j]
    {
      if names[i] == names[j] {
        LowerIndexedNameInjective(stem, i, j);
      }
    }
  }

  /** C# `a % n` for a non-negative `a` and a positive `n`, by repeated
      subtraction. */
  function Rem(a: nat, n: nat): (r: nat)
    requires 0 < n
    ensures r < n
    ensures a < n ==> r == a
    decreases a
  {
    if a < n then a else Rem(a - n, n)
  }

  /** Subtracting n, q times, from q * n + r leaves r. */
  lemma {:induction false} RemOfMultiple(q: nat, r: nat, n: nat)
    requires r < n
    ensures Rem(q * n + r, n) == r
    decreases q
  {
    if 0 < q {
      assert q * n + r - n == (q - 1) * n + r;
      RemOfMultiple(q - 1, r, n);
    }
  }

  /** `Rem` agrees with the remainder of Euclidean division, which is C#'s
      `%` on these operands. */
  lemma RemIsMod(a: nat, n: nat)
    requires 0 < n
    ensures Rem(a, n) == a % n
  {
    assert a == (a / n) * n + a % n;
    RemOfMultiple(a / n, a % n, n);
  }

  /** The codes a closed enumeration lists are pairwise distinct. */
  predicate Distinct<T(==)>(xs: seq<T>) {
    forall i, j :: 0 <= i < j < |xs| ==> xs[i] != xs[j]
  }

  /** The laws every closed enumeration of both variants obeys: its listed
      values are distinct and have non-empty names, the name of every value
      parses back to that value, and the parse is total and default-safe, so
      null and every other string fail with the first value (code 0). */
  ghost predicate ClosedEnum<T(!new)>(values: seq<T>, name: T -> string, parse: Option<string> -> Parsed<T>) {
    && 0 < |values|
    && Distinct(values)
    && (forall i :: 0 <= i < |values| ==> name(values[i]) != "")
    && (forall i :: 0 <= i < |values| ==> parse(Some(name(values[i]))) == Parsed(true, values[i]))
    && parse(None) == Parsed(false, values[0])
    && (forall s :: parse(Some(s)).success ==> parse(Some(s)).result in values && name(parse(Some(s)).result) == s)
    && (forall s :: !parse(Some(s)).success ==> parse(Some(s)).result == values[0])
  }
}
