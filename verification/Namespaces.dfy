/** Where a namespace ends and its bundles begin, on the paths themselves. */
module Namespaces {
  import opened Strings
  import opened Tree
  import opened BundleTree
  import opened Storage
  import opened Wrappers

  /** Nothing but directories, if anything, on the way to the path. */
  ghost predicate WayIsClear(t: Tree, p: Path) {
    forall q :: Above(q, p) && q in t ==> t[q].Dir?
  }

  lemma WayIsClearIff(t: Tree, p: Path)
    requires p != []
    ensures CanMkdirs(t, Parent(p)) <==> WayIsClear(t, p)
  {
    assert p == Parent(p) + [p[|p| - 1]];
    forall q
      ensures Above(q, p) <==> Within(q, Parent(p))
    {
      AboveChild(q, Parent(p), p[|p| - 1]);
    }
  }

  /** The bundle at the leaf, or any directory from there down to the path. */
  ghost predicate BundleFrom(t: Tree, leaf: Path, p: Path) {
    exists a :: Within(leaf, a) && Above(a, p) && LooksLikeBundle(t, a)
  }

  lemma FromLeaf(leaf: Path, p: Path, a: Path)
    requires Within(leaf, p) && Above(a, p)
    ensures Within(leaf, a) <==> |a| >= |leaf|
  {
    AncestorsCompare(leaf, a, p);
  }

  lemma LeafIsOnTheWay(leaf: Path, more: Path)
    ensures Within(leaf, leaf + more)
  {
    assert (leaf + more)[..|leaf|] == leaf;
    if more == [] { assert leaf + more == leaf; }
  }

  /** In an inbox, `inbox/recipient/leaf` is the first directory that can be a bundle. */
  lemma InboxRefusal(t: Tree, r: string, leaf: string, more: Path)
    requires WellFormed(t)
    ensures
      var first: Path := ["inbox", r, leaf];
      var p := first + more;
      && (OpenRefusal(t, p) == Some(Conflict(ShadowChild)) <==>
            BundleFrom(t, first, p) || (p in t && !(IsDir(t, p) && HasChild(t, p))))
      && (OpenRefusal(t, p).None? <==> !BundleFrom(t, first, p) && p !in t && WayIsClear(t, p))
  {
    BlockedFrom(t, ["inbox", r, leaf], more);
  }

  /** In any other namespace, `namespace/leaf` is. */
  lemma NamespaceRefusal(t: Tree, namespace: string, leaf: string, more: Path)
    requires WellFormed(t) && namespace != "inbox"
    ensures
      var first: Path := [namespace, leaf];
      var p := first + more;
      && (OpenRefusal(t, p) == Some(Conflict(ShadowChild)) <==>
            BundleFrom(t, first, p) || (p in t && !(IsDir(t, p) && HasChild(t, p))))
      && (OpenRefusal(t, p).None? <==> !BundleFrom(t, first, p) && p !in t && WayIsClear(t, p))
  {
    BlockedFrom(t, [namespace, leaf], more);
  }

  lemma BlockedFrom(t: Tree, first: Path, more: Path)
    requires first != [] && |first| == NamespaceDepth(first) + 1
    ensures BlockedAbove(t, first + more) <==> BundleFrom(t, first, first + more)
    ensures CanMkdirs(t, Parent(first + more)) <==> WayIsClear(t, first + more)
  {
    var p := first + more;
    WayIsClearIff(t, p);
    LeafIsOnTheWay(first, more);
    forall a | Above(a, p)
      ensures Within(first, a) <==> |a| > NamespaceDepth(p)
    {
      FromLeaf(first, p, a);
    }
  }

  /** A committed bundle refuses every path beneath it, and so does an uncommitted one that holds files only. */
  lemma BundlesRefuse(t: Tree, first: Path, b: Path, more: Path)
    requires WellFormed(t) && more != [] && Within(first, b)
    requires (|first| == 3 && first[0] == "inbox") || (|first| == 2 && first[0] != "inbox")
    requires HasMeta(t, b) || (IsDir(t, b) && HasDirectFile(t, b) && !HasDirectDir(t, b))
    ensures OpenRefusal(t, b + more) == Some(Conflict(ShadowChild))
  {
    AboveChild(b, b, META);
    LeafIsOnTheWay(b, more);
    WithinTransitive(first, b, b + more);
    assert LooksLikeBundle(t, b) && Above(b, b + more);
  }

  /** Files of the namespace itself never block a bundle at its first level. */
  lemma StrayFilesDoNotBlock(t: Tree, first: Path)
    requires WellFormed(t) && first !in t && WayIsClear(t, first)
    requires (|first| == 3 && first[0] == "inbox") || (|first| == 2 && first[0] != "inbox")
    ensures OpenRefusal(t, first).None? && CanOpen(t, first)
  {
    WayIsClearIff(t, first);
  }

  /** At or above that level nothing above is looked at. */
  lemma NamespaceRootsAreNotBlocked(t: Tree, p: Path)
    requires p != [] && (|p| == 1 || (|p| == 2 && p[0] == "inbox"))
    ensures OpenRefusal(t, p).None? <==> p !in t && WayIsClear(t, p)
  {
    WayIsClearIff(t, p);
  }
}
