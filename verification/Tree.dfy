/** The directory tree below the backend's `data/` root, and the file operations that change it. */
module Tree {
  import opened Wrappers

  /** Directories and files are addressed by their path segments below the data root. */
  type Path = seq<string>

  /** One row of a bundle's manifest. */
  datatype FileEntry = FileEntry(name: string, size: int)

  /** The parts of a `meta.json` document that decisions depend on. */
  datatype Meta = Meta(bundleId: string, createdAt: string, files: seq<FileEntry>)

  /** File contents: raw bytes, or a serialized manifest (JSON itself is not modelled). */
  datatype Blob = Data(bytes: Bytes) | Json(meta: Meta)

  datatype Node = Dir(mtime: int) | File(blob: Blob)

  type Tree = map<Path, Node>

  predicate IsDir(t: Tree, p: Path) {
    p in t && t[p].Dir?
  }

  predicate IsFile(t: Tree, p: Path) {
    p in t && t[p].File?
  }

  /** `a` is a proper ancestor of `p`. */
  predicate Above(a: Path, p: Path) {
    |a| < |p| && a == p[..|a|]
  }

  predicate Within(a: Path, p: Path) {
    a == p || Above(a, p)
  }

  /** Everything sits in a directory, up to the data root. */
  ghost predicate WellFormed(t: Tree) {
    && IsDir(t, [])
    && (forall p, a :: p in t && Above(a, p) ==> IsDir(t, a))
  }

  function Parent(p: Path): Path
    requires p != []
  {
    p[..|p| - 1]
  }

  lemma AboveTransitive(a: Path, b: Path, c: Path)
    requires Above(a, b) && Within(b, c)
    ensures Above(a, c)
  {
    if b != c { assert c[..|a|] == c[..|b|][..|a|]; }
  }

  lemma WithinTransitive(a: Path, b: Path, c: Path)
    requires Within(a, b) && Within(b, c)
    ensures Within(a, c)
  {
    if a != b { AboveTransitive(a, b, c); }
  }

  /** The ancestors of a path form a chain. */
  lemma AncestorsCompare(a: Path, b: Path, p: Path)
    requires Within(a, p) && Within(b, p)
    ensures Within(a, b) || Above(b, a)
  {
    if |a| <= |b| {
      assert a == p[..|a|] == p[..|b|][..|a|];
    } else {
      assert b == p[..|b|] == p[..|a|][..|b|];
    }
  }

  lemma AboveChild(a: Path, d: Path, n: string)
    ensures Above(a, d + [n]) <==> Within(a, d)
    ensures Parent(d + [n]) == d
  {
    var c := d + [n];
    if Above(a, c) { assert a == c[..|a|] == d[..|a|]; }
    if Within(a, d) { assert c[..|a|] == d[..|a|]; }
  }

  /** Just below `a`, on the way down to `p`. */
  function ChildToward(a: Path, p: Path): (c: Path)
    requires Above(a, p)
    ensures Within(c, p) && |c| == |a| + 1 && c == a + [c[|a|]]
  {
    var c := p[..|a| + 1];
    assert c[..|a|] == a;
    c
  }

  // ---- mkdir(parents=True) -------------------------------------------------

  /** No regular file stands on the way to `p` or at `p`. */
  ghost predicate CanMkdirs(t: Tree, p: Path) {
    forall q :: Within(q, p) && q in t ==> t[q].Dir?
  }

  function PathsTo(p: Path): (s: set<Path>)
    ensures forall q :: q in s <==> Within(q, p)
  {
    var s := set i: nat | i <= |p| :: p[..i];
    assert forall q :: Within(q, p) ==> q == p[..|q|];
    s
  }

  /** Creates the missing directories; the lowest existing one gains a child and a new mtime. */
  function Mkdirs(t: Tree, p: Path, now: int): (r: Tree)
    ensures forall q :: q in r <==> q in t || Within(q, p)
    ensures forall q :: q in t && !Above(q, p) ==> r[q] == t[q]
    ensures forall q :: q in t && t[q].Dir? ==> r[q].Dir?
    ensures forall q :: Within(q, p) && q !in t ==> r[q] == Dir(now)
    ensures p in t && WellFormed(t) ==> r == t
  {
    var r := map q | q in t.Keys + PathsTo(p) ::
               if q !in t || (Above(q, p) && p[..|q| + 1] !in t) then Dir(now) else t[q];
    assert p in t && WellFormed(t) ==> r == t by {
      if p in t && WellFormed(t) {
        forall q | Above(q, p)
          ensures p[..|q| + 1] in t
        {
          var c := ChildToward(q, p);
        }
        assert r.Keys == t.Keys;
      }
    }
    r
  }

  lemma MkdirsFrame(t: Tree, p: Path, now: int)
    requires WellFormed(t) && CanMkdirs(t, p)
    ensures WellFormed(Mkdirs(t, p, now))
    ensures forall q :: IsFile(Mkdirs(t, p, now), q) <==> IsFile(t, q)
    ensures forall q :: IsFile(t, q) ==> Mkdirs(t, p, now)[q] == t[q]
    ensures forall q :: IsDir(Mkdirs(t, p, now), q) <==> IsDir(t, q) || Within(q, p)
  {
    var r := Mkdirs(t, p, now);
    forall q, a | q in r && Above(a, q)
      ensures IsDir(r, a)
    {
      if Within(q, p) { AboveTransitive(a, q, p); }
    }
  }

  // ---- Files ---------------------------------------------------------------

  /** Opening a file for writing truncates it, or adds it to its directory. */
  function PutFile(t: Tree, p: Path, blob: Blob, now: int): Tree
    requires p != []
  {
    if p in t then t[p := File(blob)] else t[Parent(p) := Dir(now)][p := File(blob)]
  }

  lemma PutFileFrame(t: Tree, p: Path, blob: Blob, now: int)
    requires WellFormed(t) && p != [] && IsDir(t, Parent(p)) && !IsDir(t, p)
    ensures WellFormed(PutFile(t, p, blob, now))
    ensures forall q :: IsFile(PutFile(t, p, blob, now), q) <==> IsFile(t, q) || q == p
    ensures forall q :: IsFile(t, q) && q != p ==> PutFile(t, p, blob, now)[q] == t[q]
    ensures forall q :: IsDir(PutFile(t, p, blob, now), q) <==> IsDir(t, q)
    ensures forall q :: q in t && q != p && q != Parent(p) ==> PutFile(t, p, blob, now)[q] == t[q]
  {
    var r := PutFile(t, p, blob, now);
    assert Parent(p) != p;
    forall q, a | q in r && Above(a, q)
      ensures IsDir(r, a)
    {
      if q == p {
        assert p == Parent(p) + [p[|p| - 1]];
        AboveChild(a, Parent(p), p[|p| - 1]);
      }
    }
  }

  /** shutil.rmtree */
  function Remove(t: Tree, p: Path, now: int): Tree
    requires p != []
  {
    map q | q in t && !Within(p, q) :: if q == Parent(p) then Dir(now) else t[q]
  }

  lemma RemoveFrame(t: Tree, p: Path, now: int)
    requires WellFormed(t) && p != [] && p in t
    ensures WellFormed(Remove(t, p, now))
    ensures forall q :: IsFile(Remove(t, p, now), q) <==> IsFile(t, q) && !Within(p, q)
    ensures forall q :: IsFile(Remove(t, p, now), q) ==> Remove(t, p, now)[q] == t[q]
    ensures forall q :: IsDir(Remove(t, p, now), q) <==> IsDir(t, q) && !Within(p, q)
    ensures forall q :: q in t && !Within(p, q) && q != Parent(p) ==> Remove(t, p, now)[q] == t[q]
  {
    var r := Remove(t, p, now);
    assert Above(Parent(p), p);
    forall q, a | q in r && Above(a, q)
      ensures IsDir(r, a)
    {
      if Within(p, a) { WithinTransitive(p, a, q); }
    }
  }

  /** os.rename of one file over another name in the same directory. */
  function Rename(t: Tree, src: Path, dst: Path, now: int): Tree
    requires src != [] && src in t
  {
    (map q | q in t && q != src :: if q == Parent(src) then Dir(now) else t[q])[dst := t[src]]
  }

  lemma RenameFrame(t: Tree, src: Path, dst: Path, now: int)
    requires WellFormed(t) && src != [] && dst != [] && src != dst && Parent(src) == Parent(dst)
    requires IsFile(t, src) && !IsDir(t, dst)
    ensures WellFormed(Rename(t, src, dst, now))
    ensures forall q :: IsFile(Rename(t, src, dst, now), q) <==> (IsFile(t, q) && q != src) || q == dst
    ensures forall q :: IsFile(t, q) && q != src && q != dst ==> Rename(t, src, dst, now)[q] == t[q]
    ensures Rename(t, src, dst, now)[dst] == t[src]
    ensures forall q :: IsDir(Rename(t, src, dst, now), q) <==> IsDir(t, q)
    ensures forall q :: q in t && q != src && q != dst && q != Parent(src) ==> Rename(t, src, dst, now)[q] == t[q]
  {
    var r := Rename(t, src, dst, now);
    assert Above(Parent(src), src);
    assert |Parent(dst)| < |dst|;
    forall q, a | q in r && Above(a, q)
      ensures IsDir(r, a)
    {
      if q == dst {
        assert dst == Parent(dst) + [dst[|dst| - 1]] && src == Parent(src) + [src[|src| - 1]];
        AboveChild(a, Parent(dst), dst[|dst| - 1]);
        AboveChild(a, Parent(src), src[|src| - 1]);
      }
    }
  }
}
