/** The resource-loading loop shared by both variants of `SetIcons`: for
    i = 0 .. frameNumber-1 look the i-th resource name up, skip it when the
    resource is missing, and keep the found ones in ascending order.
 */
module FrameBuild {
  import opened Common
  import opened Drawing

  /** The ascending indices whose resource exists; this is what the loop visits
      without skipping. */
  function Found(names: seq<string>, lookup: string -> Option<Bitmap>): (r: seq<nat>)
    ensures |r| <= |names|
    ensures forall k :: 0 <= k < |r| ==> r[k] < |names| && lookup(names[r[k]]).Some?
    ensures forall i :: 0 <= i < |names| && lookup(names[i]).Some? ==> i in r
    ensures forall k, l :: 0 <= k < l < |r| ==> r[k] < r[l]
  {
    if |names| == 0 then []
    else Found(names[..|names| - 1], lookup) + (if lookup(names[|names| - 1]).Some? then [|names| - 1] else [])
  }

  /** The resources that exist, in index order: one per found index, and
      fewer than the names exactly when some resource is missing. */
  function Collect(names: seq<string>, lookup: string -> Option<Bitmap>): (r: seq<Bitmap>)
    ensures |r| == |Found(names, lookup)| <= |names|
    ensures forall k :: 0 <= k < |r| ==> lookup(names[Found(names, lookup)[k]]) == Some(r[k])
  {
    if |names| == 0 then []
    else
      var prev := Collect(names[..|names| - 1], lookup);
      match lookup(names[|names| - 1])
      case None => prev
      case Some(b) => prev + [b]
  }

  /** All resources present gives a full list; none present gives an empty one. */
  lemma CollectExtremes(names: seq<string>, lookup: string -> Option<Bitmap>)
    ensures (forall i :: 0 <= i < |names| ==> lookup(names[i]).Some?) ==> |Collect(names, lookup)| == |names|
    ensures (forall i :: 0 <= i < |names| ==> lookup(names[i]).None?) ==> Collect(names, lookup) == []
  {
    var f := Found(names, lookup);
    if forall i :: 0 <= i < |names| ==> lookup(names[i]).Some? {
      FullIncreasing(f, |names|);
    }
    if forall i :: 0 <= i < |names| ==> lookup(names[i]).None? {
      CollectAllMissing(names, lookup);
    }
  }

  lemma {:induction false} CollectAllMissing(names: seq<string>, lookup: string -> Option<Bitmap>)
    requires forall i :: 0 <= i < |names| ==> lookup(names[i]).None?
    ensures Collect(names, lookup) == []
  {
    if |names| > 0 {
      CollectAllMissing(names[..|names| - 1], lookup);
    }
  }

  /** A strictly increasing sequence below n that contains every index below n has length n. */
  lemma {:induction false} FullIncreasing(f: seq<nat>, n: nat)
    requires forall k :: 0 <= k < |f| ==> f[k] < n
    requires forall k, l :: 0 <= k < l < |f| ==> f[k] < f[l]
    requires forall i :: 0 <= i < n ==> i in f
    ensures |f| == n
    decreases n
  {
    if n > 0 {
      assert n - 1 in f;
      var last := |f| - 1;
      assert forall m :: 0 <= m < |f| ==> f[m] <= f[last];
      assert f[last] == n - 1;
      var g := f[..last];
      forall i | 0 <= i < n - 1
        ensures i in g
      {
        assert i in f;
        var m :| 0 <= m < |f| && f[m] == i;
        assert g[m] == i;
      }
      FullIncreasing(g, n - 1);
    }
  }

  /** Freshly created icons over the images, numbered from `first` in list order. */
  function Allocate(images: seq<Bitmap>, first: nat): (r: seq<Icon>)
    ensures |r| == |images|
    ensures forall k :: 0 <= k < |r| ==> r[k] == Icon(first + k, images[k])
  {
    seq(|images|, k requires 0 <= k < |images| => Icon(first + k, images[k]))
  }
}
