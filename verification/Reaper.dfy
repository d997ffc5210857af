/** The orphan reaper as the loop that runs it, one namespace after the other. */
module Reaper {
  import opened Tree
  import opened BundleTree
  import opened Storage
  import opened Wrappers

  /** The tree after the directories of `gone` were removed one by one. */
  function RemoveAll(t: Tree, gone: set<Path>, now: int): Tree {
    map q | q in t && !(exists o <- gone :: Within(o, q)) ::
      if exists o <- gone :: Child(q, o) then Dir(now) else t[q]
  }

  /** Nothing listed lies inside something else that is listed. */
  lemma ListedApart(t: Tree, base: Path, a: Path, b: Path)
    requires Listed(t, base, a) && Listed(t, base, b)
    ensures !Above(a, b)
  {
  }

  lemma RemoveOneMore(t: Tree, base: Path, gone: set<Path>, o: Path, now: int)
    requires WellFormed(t) && Listed(t, base, o) && o !in gone && forall g <- gone :: Listed(t, base, g)
    ensures IsDir(RemoveAll(t, gone, now), o)
    ensures Remove(RemoveAll(t, gone, now), o, now) == RemoveAll(t, gone + {o}, now)
  {
    forall g <- gone
      ensures !Within(g, o)
    {
      ListedApart(t, base, g, o);
    }
    var r, one := Remove(RemoveAll(t, gone, now), o, now), RemoveAll(t, gone + {o}, now);
    forall q
      ensures q in r <==> q in one
      ensures q in r ==> r[q] == one[q]
    {
      RemoveOneMoreAt(t, gone, o, now, q);
    }
  }

  lemma RemoveOneMoreAt(t: Tree, gone: set<Path>, o: Path, now: int, q: Path)
    requires o != []
    ensures
      var r, one := Remove(RemoveAll(t, gone, now), o, now), RemoveAll(t, gone + {o}, now);
      (q in r <==> q in one) && (q in r ==> r[q] == one[q])
  {
    assert (exists g <- gone + {o} :: Within(g, q)) <==> (exists g <- gone :: Within(g, q)) || Within(o, q) by {
      assert o in gone + {o};
    }
    assert (exists g <- gone + {o} :: Child(q, g)) <==> (exists g <- gone :: Child(q, g)) || Child(q, o) by {
      assert o in gone + {o};
    }
  }

  lemma AllAgedGone(t: Tree, base: Path, gone: set<Path>, now: int, minAge: int)
    requires forall o :: o in gone <==> AgedOrphan(t, base, o, now, minAge)
    ensures RemoveAll(t, gone, now) == SweepNamespace(t, base, now, minAge)
  {
    forall q
      ensures (exists o <- gone :: Within(o, q)) <==> Swept(t, base, q, now, minAge)
      ensures (exists o <- gone :: Child(q, o)) <==> LosesChild(t, base, q, now, minAge)
    {
      if o :| AgedOrphan(t, base, o, now, minAge) && Within(o, q) { assert o in gone; }
      if o :| AgedOrphan(t, base, o, now, minAge) && Child(q, o) { assert o in gone; }
    }
  }

  method SweepOne(storage: FilesystemBackend, base: Path, minAge: int, now: int)
    requires WellFormed(storage.tree)
    modifies storage`tree
    ensures storage.tree == SweepNamespace(old(storage.tree), base, now, minAge)
  {
    ghost var before := storage.tree;
    var refs := storage.ListBundles(base, true);
    ghost var gone: set<Path> := {};
    assert RemoveAll(before, {}, now) == before;
    var i := 0;
    while i < |refs|
      invariant i <= |refs|
      invariant storage.tree == RemoveAll(before, gone, now)
      invariant forall o :: o in gone <==>
        exists k :: 0 <= k < i && refs[k].path == o && AgedOrphan(before, base, o, now, minAge)
    {
      var ref := refs[i];
      assert RefFor(before, ref) && Reported(before, base, true, ref.path);
      if !ref.hasMeta && now - ref.mtime >= minAge {
        assert AgedOrphan(before, base, ref.path, now, minAge);
        RemoveOneMore(before, base, gone, ref.path, now);
        var found := storage.DeleteBundle(ref.path, now);
        gone := gone + {ref.path};
      }
      i := i + 1;
    }
    forall o | AgedOrphan(before, base, o, now, minAge)
      ensures o in gone
    {
      assert Reported(before, base, true, o);
    }
    AllAgedGone(before, base, gone, now, minAge);
  }

  method Sweep(storage: FilesystemBackend, minAge: int, now: int)
    requires WellFormed(storage.tree)
    modifies storage`tree
    ensures storage.tree == SweepTree(old(storage.tree), now, minAge)
  {
    ghost var before := storage.tree;
    SweepNamespaceFrame(before, INBOX, now, minAge);
    SweepOne(storage, INBOX, minAge, now);
    SweepOne(storage, STORE, minAge, now);
  }
}
