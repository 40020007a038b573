/** The animation frame store both context-menu managers own: the list of
    icons, the cursor into it, and the bookkeeping of disposed icons. Each
    operation runs under the manager's lock, so a sequence of whole
    operations is a faithful model of every interleaving.
 */
module FrameStore {
  import opened Common
  import opened Drawing

  /** `icons` and `cursor` are the manager's fields; `disposed` holds the
      handles of every icon disposed so far and `nextHandle` the next handle
      the allocator hands out. */
  datatype Store = Store(icons: seq<Icon>, cursor: nat, disposed: set<nat>, nextHandle: nat)

  /** The result of a timer tick: the new state and the icon put on display, if any. */
  datatype Tick = Tick(store: Store, shown: Option<Icon>)

  /** The state after construction, before the first `SetIcons`. */
  const Initial: Store := Store([], 0, {}, 0)

  function Handles(icons: seq<Icon>): set<nat> {
    set i | 0 <= i < |icons| :: icons[i].handle
  }

  /** The store invariant: a non-empty list has the cursor inside it, and the
      store owns live, distinct, allocated icons only. */
  predicate Valid(s: Store) {
    && (0 < |s.icons| ==> s.cursor < |s.icons|)
    && (forall i :: 0 <= i < |s.icons| ==> s.icons[i].handle < s.nextHandle && s.icons[i].handle !in s.disposed)
    && (forall i, j :: 0 <= i < j < |s.icons| ==> s.icons[i].handle != s.icons[j].handle)
    && (forall h :: h in s.disposed ==> h < s.nextHandle)
  }

  /** `list` holds icons just created, numbered consecutively from `first`. */
  predicate FreshFrom(list: seq<Icon>, first: nat) {
    forall k :: 0 <= k < |list| ==> list[k].handle == first + k
  }

  lemma InitialValid()
    ensures Valid(Initial)
  {
  }

  /** The locked swap: dispose every held icon, install `list` (whose icons
      were allocated from `nextHandle` on) and reset the cursor. */
  function Replace(s: Store, list: seq<Icon>): (r: Store)
    ensures r.icons == list && r.cursor == 0
    ensures forall i :: 0 <= i < |s.icons| ==> s.icons[i].handle in r.disposed
    ensures r.disposed - Handles(s.icons) == s.disposed - Handles(s.icons)
    ensures Valid(s) && FreshFrom(list, s.nextHandle) ==> Valid(r)
  {
    Store(list, 0, s.disposed + Handles(s.icons), s.nextHandle + |list|)
  }

  /** `Dispose`: every held icon is disposed and the list cleared; the cursor
      keeps its value, which the invariant then no longer constrains. */
  function Dispose(s: Store): (r: Store)
    ensures r.icons == [] && r.cursor == s.cursor
    ensures forall i :: 0 <= i < |s.icons| ==> s.icons[i].handle in r.disposed
    ensures r.disposed - Handles(s.icons) == s.disposed - Handles(s.icons)
    ensures Valid(s) ==> Valid(r)
  {
    Store([], s.cursor, s.disposed + Handles(s.icons), s.nextHandle)
  }

  /** The cursor after `j` wrap-around increments `(c + 1) % n`. */
  function Steps(c: nat, j: nat, n: nat): (r: nat)
    requires 0 < n
    ensures (0 < j || c < n) ==> r < n
    decreases j
  {
    if j == 0 then c else Steps(Rem(c + 1, n), j - 1, n)
  }

  lemma WrapStep(c: nat, n: nat)
    requires c < n
    ensures Rem(c + 1, n) == if c + 1 < n then c + 1 else 0
  {
  }

  /** Below the length, incrementing does not wrap. */
  lemma {:induction false} StepsNoWrap(c: nat, j: nat, n: nat)
    requires c + j < n
    ensures Steps(c, j, n) == c + j
    decreases j
  {
    if j > 0 {
      WrapStep(c, n);
      StepsNoWrap(c + 1, j - 1, n);
    }
  }

  /** From c, exactly n - c increments bring the cursor back to 0. */
  lemma {:induction false} StepsWrap(c: nat, n: nat)
    requires c < n
    ensures Steps(c, n - c, n) == 0
    decreases n - c
  {
    WrapStep(c, n);
    if c + 1 < n {
      StepsWrap(c + 1, n);
    }
  }

  lemma {:induction false} StepsSplit(c: nat, a: nat, b: nat, n: nat)
    requires 0 < n
    ensures Steps(c, a + b, n) == Steps(Steps(c, a, n), b, n)
    decreases a
  {
    if a > 0 {
      StepsSplit(Rem(c + 1, n), a - 1, b, n);
    }
  }

  /** From a reset cursor the increments visit 0, 1, .., n-1 and then return to 0. */
  lemma StepsFromZero(j: nat, n: nat)
    requires 0 < n && j <= n
    ensures Steps(0, j, n) == if j < n then j else 0
  {
    if j < n {
      StepsNoWrap(0, j, n);
    } else {
      StepsWrap(0, n);
    }
  }
}
