/** The filesystem backend and its bundle writers, as the classes that change the tree. */
module Storage {
  import opened Strings
  import opened Sorting
  import opened Tree
  import opened BundleTree
  import opened Wrappers

  const COPY_CHUNK: nat := 64 * 1024

  datatype ConflictKind = ShadowParent | ShadowChild

  datatype OpenError = Conflict(kind: ConflictKind) | NotADirectory

  datatype WriteError = EmptyName | DuplicateName | OsError

  datatype CommitError = NoFiles | DuplicateNames | FileSetMismatch | SizeMismatch | CommitOsError

  /** Whether the disk takes the data; if not, it fails within `bytes` bytes, or at the latest on closing. */
  datatype Disk = Healthy | FailsAfter(bytes: nat)

  datatype BundleRef = BundleRef(path: Path, hasMeta: bool, mtime: int)

  /** Everything that is not at or below `p` is the same. */
  ghost predicate SameOutside(t: Tree, r: Tree, p: Path) {
    forall q :: !Within(p, q) ==> (q in r <==> q in t) && (q in t ==> r[q] == t[q])
  }

  ghost predicate HasChild(t: Tree, p: Path) {
    exists q :: q in t && Child(p, q)
  }

  /** An ancestor below the namespace root blocks the path. */
  ghost predicate BlockedAbove(t: Tree, p: Path)
    requires p != []
  {
    !NoBundleAbove(t, p)
  }

  /** Some directory strictly below directly holds a file. */
  ghost predicate FilesDeeper(t: Tree, p: Path) {
    exists d :: Above(p, d) && HasDirectFile(t, d)
  }

  /** What an open reports, `None` if it succeeds. */
  ghost function OpenRefusal(t: Tree, p: Path): Option<OpenError>
    requires p != []
  {
    if BlockedAbove(t, p) then Some(Conflict(ShadowChild))
    else if p in t then Some(Conflict(if IsDir(t, p) && HasChild(t, p) then ShadowParent else ShadowChild))
    else if !CanMkdirs(t, Parent(p)) then Some(NotADirectory)
    else None
  }

  function PathKey(ref: BundleRef): string {
    JoinSlash(ref.path)
  }

  /** `files[].name` occurs once each, and was written with the declared size. */
  predicate DeclaredAsWritten(files: seq<FileEntry>, written: map<string, nat>) {
    && files != []
    && (forall i, j :: 0 <= i < j < |files| ==> files[i].name != files[j].name)
    && (set f <- files :: f.name) == written.Keys
    && (forall f <- files :: f.name in written && f.size == written[f.name])
  }

  /** The name leads to a place in the tree: it is relative and does not climb above the data root. */
  predicate InTree(dir: Path, name: string) {
    !Absolute(name) && InRoot(dir, Segments(name))
  }

  /** Why a write is refused; the first reason in this order is the one reported. */
  ghost predicate WriteFault(
      error: WriteError, name: string, written: map<string, nat>, t: Tree, dir: Path, disk: Disk)
  {
    match error
    case EmptyName => name == ""
    case DuplicateName => name != "" && name in written
    case OsError =>
      name != "" && name !in written && (!CanWriteAt(t, dir, Segments(name)) || disk.FailsAfter?)
  }

  /** Why a commit is refused. */
  ghost predicate CommitFault(
      error: CommitError, files: seq<FileEntry>, written: map<string, nat>, t: Tree, dir: Path, disk: Disk)
  {
    match error
    case NoFiles => files == []
    case DuplicateNames => exists i, j :: 0 <= i < j < |files| && files[i].name == files[j].name
    case FileSetMismatch => (set f <- files :: f.name) != written.Keys
    case SizeMismatch => exists f :: f in files && f.name in written && f.size != written[f.name]
    case CommitOsError => DeclaredAsWritten(files, written) && (!CanCommit(t, dir) || disk.FailsAfter?)
  }

  class FilesystemBackend {
    var tree: Tree

    constructor (now: int)
      ensures tree == map[[] := Dir(now)]
    {
      tree := map[[] := Dir(now)];
    }

    /** A directory with a manifest, or with files and no directory. */
    method LooksLikeBundleDir(candidate: Path) returns (looks: bool)
      ensures looks <==> LooksLikeBundle(tree, candidate)
    {
      if !IsDir(tree, candidate) { return false; }
      if HasMeta(tree, candidate) { return true; }
      var children := set q | q in tree && Child(candidate, q);
      ghost var all := children;
      var hasFiles := false;
      while children != {}
        invariant children <= all
        invariant forall q <- all - children :: !IsDir(tree, q)
        invariant hasFiles <==> exists q :: q in all - children && IsFile(tree, q)
        decreases children
      {
        var child :| child in children;
        if IsDir(tree, child) {
          assert HasDirectDir(tree, candidate);
          return false;
        }
        assert IsFile(tree, child);
        hasFiles := true;
        children := children - {child};
      }
      if hasFiles {
        assert HasDirectFile(tree, candidate);
      }
      return hasFiles;
    }

    /** Some directory strictly below `root` that holds a file, if there is one. */
    method FindDescendantBundle(root: Path) returns (found: Option<Path>)
      requires WellFormed(tree)
      ensures found.Some? ==> Above(root, found.value) && HasDirectFile(tree, found.value)
      ensures found.None? ==> forall d :: Above(root, d) ==> !HasDirectFile(tree, d)
    {
      var entries := set q | q in tree && Above(root, q);
      ghost var all := entries;
      while entries != {}
        invariant entries <= all
        invariant forall q <- all - entries :: IsFile(tree, q) ==> Parent(q) == root
        decreases entries
      {
        var entry :| entry in entries;
        var looks := LooksLikeBundleDir(entry);
        if looks {
          if HasMeta(tree, entry) { MetaIsDirectFile(tree, entry); }
          return Some(entry);
        }
        if IsFile(tree, entry) && Parent(entry) != root {
          assert Above(Parent(entry), entry) && Child(Parent(entry), entry);
          AncestorsCompare(root, Parent(entry), entry);
          return Some(Parent(entry));
        }
        entries := entries - {entry};
      }
      assert forall q :: IsFile(tree, q) && Above(root, q) ==> q in all;
      OnlyDirectFiles(tree, root);
      return None;
    }

    /** Walks up to the namespace root, then looks below the path. */
    method CheckBundlePathCollision(dir: Path) returns (conflict: Option<ConflictKind>)
      requires WellFormed(tree) && dir != []
      ensures conflict == Some(ShadowChild) <==> BlockedAbove(tree, dir)
      ensures conflict == Some(ShadowParent) <==>
        BelowNamespaceRoot(dir) && !BlockedAbove(tree, dir) && IsDir(tree, dir) && FilesDeeper(tree, dir)
      ensures conflict == Some(ShadowParent) ==> HasChild(tree, dir)
    {
      var depth := if dir[0] == "inbox" then 2 else 1;
      if |dir| <= depth { return None; }
      var namespaceRoot := dir[..depth];
      var ancestor := Parent(dir);
      while ancestor != namespaceRoot
        invariant Above(ancestor, dir) && depth <= |ancestor|
        invariant forall a :: Above(ancestor, a) && Above(a, dir) ==> !LooksLikeBundle(tree, a)
        decreases |ancestor|
      {
        var looks := LooksLikeBundleDir(ancestor);
        if looks { return Some(ShadowChild); }
        ghost var below := ancestor;
        ancestor := Parent(ancestor);
        forall a | Above(ancestor, a) && Above(a, dir)
          ensures !LooksLikeBundle(tree, a)
        {
          AncestorsCompare(below, a, dir);
        }
      }
      assert NoBundleAbove(tree, dir) by {
        forall a | Above(a, dir) && |a| > depth
          ensures !LooksLikeBundle(tree, a)
        {
          AncestorsCompare(namespaceRoot, a, dir);
        }
      }
      if IsDir(tree, dir) {
        var descendant := FindDescendantBundle(dir);
        if descendant.Some? {
          var f :| IsFile(tree, f) && Child(descendant.value, f);
          ChildIsJustBelow(descendant.value, f);
          AboveTransitive(dir, descendant.value, f);
          var c := ChildToward(dir, f);
          assert Child(dir, c);
          return Some(ShadowParent);
        }
      }
      return None;
    }

    /** Classifies a failed mkdir. */
    method CollisionKind(dir: Path) returns (kind: ConflictKind)
      ensures kind == if IsDir(tree, dir) && HasChild(tree, dir) then ShadowParent else ShadowChild
    {
      var children := set q | q in tree && Child(dir, q);
      assert forall q :: q in children <==> q in tree && Child(dir, q);
      assert children != {} <==> HasChild(tree, dir);
      return if IsDir(tree, dir) && children != {} then ShadowParent else ShadowChild;
    }

    method OpenBundleWrite(path: Path, now: int) returns (r: Result<FilesystemBundleWriter, OpenError>)
      requires WellFormed(tree) && path != []
      modifies this`tree
      ensures r.Ok? <==> CanOpen(old(tree), path)
      ensures r.Ok? ==>
        && fresh(r.value) && r.value.backend == this && r.value.dir == path
        && r.value.written == map[] && !r.value.committed
        && tree == OpenTree(old(tree), path, now)
      ensures r.Err? ==> tree == old(tree) && OpenRefusal(old(tree), path) == Some(r.error)
    {
      var collision := CheckBundlePathCollision(path);
      match collision {
        case Some(ShadowChild) => return Err(Conflict(ShadowChild));
        case Some(ShadowParent) => return Err(Conflict(ShadowParent));
        case None =>
      }
      if !MkdirsPossible(tree, Parent(path)) {
        if path in tree { ParentsOfExisting(tree, path); }
        return Err(NotADirectory);
      }
      ghost var before := tree;
      tree := Mkdirs(tree, Parent(path), now);
      if path in tree {
        ParentsOfExisting(before, path);
        var kind := CollisionKind(path);
        return Err(Conflict(kind));
      }
      tree := Mkdirs(tree, path, now);
      MkdirsTwice(before, path, now);
      var writer := new FilesystemBundleWriter(this, path);
      return Ok(writer);
    }

    method ReadBundleMeta(path: Path) returns (meta: Option<Meta>)
      ensures meta == ReadMeta(tree, path)
    {
      var metaPath := path + [META];
      if !IsFile(tree, metaPath) { return None; }
      match tree[metaPath].blob
      case Data(_) => return None;
      case Json(m) => return Some(m);
    }

    method OpenBundleFileRead(path: Path, name: string) returns (content: Option<Blob>)
      ensures !HasMeta(tree, path) ==> content == None
      ensures InTree(path, name) ==> content == ReadFile(tree, path, Segments(name))
    {
      if !HasMeta(tree, path) || !InTree(path, name) { return None; }
      var parts := Segments(name);
      if exists k :: 0 <= k < |parts| && !IsDir(tree, Position(path, parts[..k])) { return None; }
      var inner := Position(path, parts);
      if !IsFile(tree, inner) { return None; }
      return Some(tree[inner].blob);
    }

    /** Top-down walk that does not descend into what it classifies as a bundle. */
    method ListBundles(base: Path, includeOrphans: bool) returns (refs: seq<BundleRef>)
      requires WellFormed(tree)
      ensures IsListing(tree, base, includeOrphans, refs)
    {
      refs := [];
      if !IsDir(tree, base) {
        assert forall p :: !Listed(tree, base, p);
        return;
      }
      var todo := {base};
      ghost var visited: set<Path> := {};
      while todo != {}
        invariant Frontier(tree, base, todo, visited)
        invariant Collected(tree, base, includeOrphans, visited, refs)
        decreases tree.Keys - visited
      {
        var root :| root in todo;
        var dirs := set q | q in tree && tree[q].Dir? && Child(root, q);
        var files := set q | q in tree && tree[q].File? && Child(root, q);
        FilesMeanDirectFiles(tree, root, files);
        assert todo == (todo - {root}) + {root};
        todo := todo - {root};
        Visit(tree, base, includeOrphans, todo, visited, refs, root, dirs);
        if root == base {
          todo := todo + dirs;
        } else {
          var hasMeta := root + [META] in files;
          var hasFiles := exists q <- files :: q != root + [META];
          if hasMeta {
            refs := refs + [BundleRef(root, true, tree[root].mtime)];
          } else if hasFiles {
            if includeOrphans {
              refs := refs + [BundleRef(root, false, tree[root].mtime)];
            }
          } else {
            todo := todo + dirs;
          }
        }
        visited := visited + {root};
      }
      SortReferences(tree, base, includeOrphans, visited, refs);
      refs := StableSort(refs, PathKey, false);
    }

    /** False stands for FileNotFoundError. */
    method DeleteBundle(path: Path, now: int) returns (found: bool)
      requires path != []
      modifies this`tree
      ensures found <==> IsDir(old(tree), path)
      ensures tree == if found then Remove(old(tree), path, now) else old(tree)
    {
      if !IsDir(tree, path) { return false; }
      tree := Remove(tree, path, now);
      return true;
    }
  }

  class FilesystemBundleWriter {
    const backend: FilesystemBackend
    const dir: Path
    var written: map<string, nat>
    var committed: bool

    constructor (backend: FilesystemBackend, dir: Path)
      ensures this.backend == backend && this.dir == dir && written == map[] && !committed
    {
      this.backend := backend;
      this.dir := dir;
      written := map[];
      committed := false;
    }

    /**
     * Nothing under the bundle directory is promised after an error, all else is as it was,
     * provided that the name stays inside. One that climbs may write elsewhere in the tree; of
     * one that leaves the data root only the bookkeeping is modelled.
     */
    method WriteFile(name: string, source: Bytes, disk: Disk, now: int) returns (r: Result<nat, WriteError>)
      requires WellFormed(backend.tree) && IsDir(backend.tree, dir) && dir != []
      modifies this`written, backend`tree
      ensures r.Ok? ==>
        name != "" && name !in old(written) && r.value == |source| && written == old(written)[name := |source|]
      ensures r.Err? ==> written == old(written)
      ensures InTree(dir, name) ==>
        && (r.Ok? <==>
              && name != "" && name !in old(written) && CanWriteAt(old(backend.tree), dir, Segments(name))
              && disk.Healthy?)
        && (r.Ok? ==> backend.tree == TryWrite(old(backend.tree), dir, Segments(name), Data(source), now))
        && (r.Err? ==> WriteFault(r.error, name, old(written), old(backend.tree), dir, disk))
      ensures WellFormed(backend.tree) && IsDir(backend.tree, dir)
      ensures StaysInside(name) ==> SameOutside(old(backend.tree), backend.tree, dir)
    {
      if name == "" { return Err(EmptyName); }
      if name in written { return Err(DuplicateName); }
      if !InTree(dir, name) {
        if disk.FailsAfter? { return Err(OsError); }
        written := written[name := |source|];
        return Ok(|source|);
      }
      var stored := StoreAt(Segments(name), source, disk, now);
      if !stored { return Err(OsError); }
      written := written[name := |source|];
      return Ok(|source|);
    }

    /** Makes the directories on the way, then copies the source to where the parts lead. */
    method StoreAt(parts: Path, source: Bytes, disk: Disk, now: int) returns (stored: bool)
      requires WellFormed(backend.tree) && IsDir(backend.tree, dir) && InRoot(dir, parts)
      modifies backend`tree
      ensures stored <==> CanWriteAt(old(backend.tree), dir, parts) && disk.Healthy?
      ensures stored ==> backend.tree == TryWrite(old(backend.tree), dir, parts, Data(source), now)
      ensures WellFormed(backend.tree) && IsDir(backend.tree, dir)
      ensures WayOf(parts).up == 0 ==> SameOutside(old(backend.tree), backend.tree, dir)
    {
      if parts == [] { return false; }
      ghost var before := backend.tree;
      PositionStep(dir, parts);
      ClimbsOnly(parts, |parts| - 1);
      var made := MakeParents(parts[..|parts| - 1], now);
      if !made { return false; }
      var target := Position(dir, parts);
      if parts[|parts| - 1] == ".." || IsDir(backend.tree, target) { return false; }
      WriteTarget(before, dir, parts);
      ghost var visited := backend.tree;
      var copied, done := CopyInto(target, source, disk, now);
      FileAfterVisit(before, visited, dir, parts[..|parts| - 1], target, Data(source[..copied]), now);
      if WayOf(parts).up == 0 { WriteInside(before, visited, dir, parts, Data(source[..copied]), now); }
      assert done ==> source[..copied] == source;
      return done;
    }

    /** mkdir(parents=True) on the directory that the parts lead to; it stops at a file. */
    method MakeParents(parts: Path, now: int) returns (ok: bool)
      requires WellFormed(backend.tree) && IsDir(backend.tree, dir) && InRoot(dir, parts)
      modifies backend`tree
      ensures ok <==> CanVisit(old(backend.tree), dir, parts)
      ensures ok ==>
        && backend.tree == VisitTree(old(backend.tree), dir, parts, now)
        && KeepsFiles(old(backend.tree), backend.tree) && GainsDirs(old(backend.tree), backend.tree, dir, parts)
      ensures WellFormed(backend.tree) && IsDir(backend.tree, dir)
      ensures WayOf(parts).up == 0 ==> SameOutside(old(backend.tree), backend.tree, dir)
    {
      ghost var before := backend.tree;
      NoneVisited(before, dir, parts, now);
      var k := 0;
      while k < |parts|
        invariant k <= |parts| && Visiting(before, backend.tree, dir, parts, k, now)
      {
        var made := MakeNext(before, parts, k, now);
        if !made { return false; }
        k := k + 1;
      }
      AllVisited(before, backend.tree, dir, parts, now);
      return true;
    }

    method MakeNext(ghost before: Tree, parts: Path, k: nat, now: int) returns (ok: bool)
      requires WellFormed(before) && IsDir(before, dir) && InRoot(dir, parts)
      requires k < |parts| && Visiting(before, backend.tree, dir, parts, k, now)
      modifies backend`tree
      ensures ok ==> Visiting(before, backend.tree, dir, parts, k + 1, now)
      ensures !ok ==> !CanVisit(before, dir, parts)
      ensures WellFormed(backend.tree) && IsDir(backend.tree, dir)
      ensures WayOf(parts).up == 0 ==> SameOutside(before, backend.tree, dir)
    {
      var next := Position(dir, parts[..k + 1]);
      VisitNext(before, dir, parts, k, now);
      if IsFile(backend.tree, next) { return false; }
      backend.tree := Mkdirs(backend.tree, next, now);
      return true;
    }

    /** Creates or truncates the target, then appends one chunk after the other. */
    method CopyInto(target: Path, source: Bytes, disk: Disk, now: int) returns (copied: nat, done: bool)
      requires target != []
      modifies backend`tree
      ensures copied <= |source| && (done <==> disk.Healthy?) && (done ==> copied == |source|)
      ensures backend.tree == PutFile(old(backend.tree), target, Data(source[..copied]), now)
    {
      backend.tree := PutFile(backend.tree, target, Data([]), now);
      copied := 0;
      while true
        invariant copied <= |source|
        invariant backend.tree == PutFile(old(backend.tree), target, Data(source[..copied]), now)
        decreases |source| - copied
      {
        var chunk := source[copied..if copied + COPY_CHUNK <= |source| then copied + COPY_CHUNK else |source|];
        if chunk == [] { break; }
        if disk.FailsAfter? && disk.bytes < copied + |chunk| { return copied, false; }
        assert source[..copied] + chunk == source[..copied + |chunk|];
        copied := copied + |chunk|;
        backend.tree := backend.tree[target := File(Data(source[..copied]))];
      }
      return copied, disk.Healthy?;
    }

    method Commit(meta: Meta, disk: Disk, now: int) returns (r: Result<(), CommitError>)
      requires WellFormed(backend.tree) && IsDir(backend.tree, dir) && dir != []
      modifies this`committed, backend`tree
      ensures r.Ok? <==>
        DeclaredAsWritten(meta.files, written) && CanCommit(old(backend.tree), dir) && disk.Healthy?
      ensures r.Ok? ==> backend.tree == CommitTree(old(backend.tree), dir, meta, now) && committed
      ensures r.Err? ==>
        committed == old(committed) && CommitFault(r.error, meta.files, written, old(backend.tree), dir, disk)
      ensures WellFormed(backend.tree) && IsDir(backend.tree, dir)
      ensures SameOutside(old(backend.tree), backend.tree, dir)
    {
      var files := meta.files;
      if files == [] { return Err(NoFiles); }
      if exists i, j :: 0 <= i < j < |files| && files[i].name == files[j].name { return Err(DuplicateNames); }
      if (set f <- files :: f.name) != written.Keys { return Err(FileSetMismatch); }
      var i := 0;
      while i < |files|
        invariant i <= |files|
        invariant forall k :: 0 <= k < i ==> files[k].name in written && files[k].size == written[files[k].name]
      {
        assert files[i].name in (set f <- files :: f.name);
        if files[i].size != written[files[i].name] {
          assert files[i] in files;
          return Err(SizeMismatch);
        }
        i := i + 1;
      }
      assert DeclaredAsWritten(files, written);
      var tmp, final := dir + [META_TMP], dir + [META];
      if IsDir(backend.tree, tmp) { return Err(CommitOsError); }
      ghost var before := backend.tree;
      assert Parent(tmp) == dir == Parent(final);
      FileInside(before, dir, tmp, if disk.Healthy? then Json(meta) else Data([]), now);
      backend.tree := PutFile(backend.tree, tmp, if disk.Healthy? then Json(meta) else Data([]), now);
      if disk.FailsAfter? || IsDir(backend.tree, final) { return Err(CommitOsError); }
      CommitFrame(before, dir, meta, now);
      backend.tree := Rename(backend.tree, tmp, final, now);
      RenameInside(before, dir, meta, now);
      committed := true;
      return Ok(());
    }

    method Abort(now: int)
      requires WellFormed(backend.tree) && dir != []
      modifies backend`tree
      ensures backend.tree ==
        if !committed && IsDir(old(backend.tree), dir)
        then Remove(old(backend.tree), dir, now) else old(backend.tree)
    {
      if committed { return; }
      if IsDir(backend.tree, dir) {
        backend.tree := Remove(backend.tree, dir, now);
      }
    }
  }

  // ---- Changes inside one bundle directory ---------------------------------

  lemma NothingToVisit(t: Tree, dir: Path, parts: Path, now: int)
    requires WellFormed(t) && IsDir(t, dir)
    ensures CanVisit(t, dir, parts[..0]) && VisitTree(t, dir, parts[..0], now) == t
    ensures WellFormed(t) && Within(dir, dir)
  {
    assert parts[..0] == [];
    forall k: nat | k <= 0
      ensures !IsFile(t, Position(dir, parts[..0][..k]))
    {
      assert parts[..0][..k] == [] && Position(dir, []) == dir;
    }
  }

  /** The first `k` parts have been followed. */
  ghost predicate Visiting(t: Tree, r: Tree, dir: Path, parts: Path, k: nat, now: int)
    requires k <= |parts|
  {
    && CanVisit(t, dir, parts[..k]) && r == VisitTree(t, dir, parts[..k], now)
    && WellFormed(r) && IsDir(r, dir) && (WayOf(parts).up == 0 ==> SameOutside(t, r, dir))
  }

  lemma NoneVisited(t: Tree, dir: Path, parts: Path, now: int)
    requires WellFormed(t) && IsDir(t, dir)
    ensures Visiting(t, t, dir, parts, 0, now)
  {
    NothingToVisit(t, dir, parts, now);
  }

  lemma AllVisited(t: Tree, r: Tree, dir: Path, parts: Path, now: int)
    requires WellFormed(t) && Visiting(t, r, dir, parts, |parts|, now)
    ensures CanVisit(t, dir, parts) && r == VisitTree(t, dir, parts, now)
    ensures KeepsFiles(t, r) && GainsDirs(t, r, dir, parts) && WellFormed(r) && IsDir(r, dir)
    ensures WayOf(parts).up == 0 ==> SameOutside(t, r, dir)
  {
    assert parts[..|parts|] == parts;
    VisitFrame(t, dir, parts, now);
  }

  lemma VisitNext(t: Tree, dir: Path, parts: Path, k: nat, now: int)
    requires WellFormed(t) && IsDir(t, dir) && InRoot(dir, parts)
    requires k < |parts| && Visiting(t, VisitTree(t, dir, parts[..k], now), dir, parts, k, now)
    ensures
      var r, next := VisitTree(t, dir, parts[..k], now), Position(dir, parts[..k + 1]);
      if IsFile(r, next) then !CanVisit(t, dir, parts) else Visiting(t, Mkdirs(r, next, now), dir, parts, k + 1, now)
  {
    var more := parts[..k + 1];
    VisitFrame(t, dir, parts[..k], now);
    CanVisitNext(t, dir, parts, k);
    if CanVisit(t, dir, more) {
      assert more[..k] == parts[..k];
      VisitedSoFar(t, dir, parts, k + 1, now);
    }
  }

  lemma VisitedSoFar(t: Tree, dir: Path, parts: Path, k: nat, now: int)
    requires WellFormed(t) && IsDir(t, dir) && k <= |parts| && CanVisit(t, dir, parts[..k])
    ensures Visiting(t, VisitTree(t, dir, parts[..k], now), dir, parts, k, now)
  {
    VisitFrame(t, dir, parts[..k], now);
    if WayOf(parts).up == 0 {
      ClimbsOnly(parts, k);
      VisitInside(t, dir, parts[..k], now);
    }
  }

  /** The next directory can be visited unless a file is there; if one is, the whole way is barred. */
  lemma CanVisitNext(t: Tree, dir: Path, parts: Path, k: nat)
    requires k < |parts| && InRoot(dir, parts) && CanVisit(t, dir, parts[..k])
    ensures !IsFile(t, Position(dir, parts[..k + 1])) ==> CanVisit(t, dir, parts[..k + 1])
    ensures IsFile(t, Position(dir, parts[..k + 1])) ==> !CanVisit(t, dir, parts)
  {
    ClimbsOnly(parts, k + 1);
    var more := parts[..k + 1];
    if !IsFile(t, Position(dir, more)) {
      forall j: nat | j <= |more|
        ensures !IsFile(t, Position(dir, more[..j]))
      {
        if j <= k { assert more[..j] == parts[..k][..j]; } else { assert more[..j] == more; }
      }
    }
  }

  lemma {:induction false} VisitInside(t: Tree, dir: Path, parts: Path, now: int)
    requires WellFormed(t) && IsDir(t, dir) && WayOf(parts).up == 0 && CanVisit(t, dir, parts)
    ensures SameOutside(t, VisitTree(t, dir, parts, now), dir)
  {
    if parts == [] {
      NothingToVisit(t, dir, parts, now);
      assert parts[..0] == parts;
    } else {
      var front := parts[..|parts| - 1];
      ClimbsOnly(parts, |parts| - 1);
      CanVisitFront(t, dir, parts);
      VisitInside(t, dir, front, now);
      VisitFrame(t, dir, front, now);
      NextInside(t, VisitTree(t, dir, front, now), dir, parts, now);
    }
  }

  lemma NextInside(t: Tree, m: Tree, dir: Path, parts: Path, now: int)
    requires parts != [] && WayOf(parts).up == 0 && CanVisit(t, dir, parts) && IsDir(t, dir)
    requires WellFormed(m) && SameOutside(t, m, dir) && KeepsFiles(t, m) && GainsDirs(t, m, dir, parts[..|parts| - 1])
    ensures SameOutside(t, Mkdirs(m, Position(dir, parts), now), dir)
  {
    var before, p := Position(dir, parts[..|parts| - 1]), Position(dir, parts);
    InsidePosition(dir, parts);
    PositionStep(dir, parts);
    CanVisitFront(t, dir, parts);
    LastIsVisited(t, m, dir, parts[..|parts| - 1]);
    NextDirectory(m, before, p, now);
    assert IsDir(m, dir);
    MkdirsInside(m, dir, p, now);
  }

  /** The write of a name that stays inside changes nothing outside. */
  lemma WriteInside(t: Tree, m: Tree, dir: Path, parts: Path, blob: Blob, now: int)
    requires WellFormed(t) && IsDir(t, dir) && WayOf(parts).up == 0 && CanWriteAt(t, dir, parts)
    requires WellFormed(m) && SameOutside(t, m, dir) && GainsDirs(t, m, dir, parts[..|parts| - 1])
    ensures Position(dir, parts) != [] && SameOutside(t, PutFile(m, Position(dir, parts), blob, now), dir)
  {
    var target := Position(dir, parts);
    InsidePosition(dir, parts);
    WriteTarget(t, dir, parts);
    assert Visited(dir, parts[..|parts| - 1], dir);
    FileInside(m, dir, target, blob, now);
  }

  lemma InsideBundle(dir: Path, segments: Path)
    ensures Within(dir, dir + segments)
  {
    assert dir + [] == dir;
    assert (dir + segments)[..|dir|] == dir;
  }

  /** Making directories on a path through, or above, an existing directory. */
  lemma MkdirsInside(t: Tree, dir: Path, p: Path, now: int)
    requires WellFormed(t) && IsDir(t, dir) && CanMkdirs(t, p)
    requires Within(dir, p) || Above(p, dir)
    ensures SameOutside(t, Mkdirs(t, p, now), dir) && IsDir(Mkdirs(t, p, now), dir)
  {
    if Above(p, dir) {
      assert p in t;
    } else {
      forall q | Within(q, p) && !Within(dir, q)
        ensures Above(q, dir) && p[..|q| + 1] in t
      {
        AncestorsCompare(q, dir, p);
        assert dir[..|q| + 1] == p[..|q| + 1];
        var c := ChildToward(q, dir);
      }
    }
  }

  lemma FileInside(t: Tree, dir: Path, target: Path, blob: Blob, now: int)
    requires WellFormed(t) && IsDir(t, dir) && Above(dir, target) && IsDir(t, Parent(target)) && !IsDir(t, target)
    ensures WellFormed(PutFile(t, target, blob, now)) && IsDir(PutFile(t, target, blob, now), dir)
    ensures SameOutside(t, PutFile(t, target, blob, now), dir)
  {
    PutFileFrame(t, target, blob, now);
    assert target == Parent(target) + [target[|target| - 1]];
    AboveChild(dir, Parent(target), target[|target| - 1]);
  }

  lemma RenameInside(t: Tree, dir: Path, meta: Meta, now: int)
    requires WellFormed(t) && CanCommit(t, dir)
    ensures SameOutside(t, CommitTree(t, dir, meta, now), dir)
  {
    CommitFrame(t, dir, meta, now);
    var r := CommitTree(t, dir, meta, now);
    InsideBundle(dir, [META]);
    InsideBundle(dir, [META_TMP]);
    forall q | !Within(dir, q)
      ensures (q in r <==> q in t) && (q in t ==> r[q] == t[q])
    {
      assert q in r <==> IsFile(r, q) || IsDir(r, q);
    }
  }

  // ---- The walk ------------------------------------------------------------

  ghost predicate Reported(t: Tree, base: Path, includeOrphans: bool, p: Path) {
    Listed(t, base, p) && (HasMeta(t, p) || includeOrphans)
  }

  predicate RefFor(t: Tree, ref: BundleRef) {
    IsDir(t, ref.path) && ref.hasMeta == HasMeta(t, ref.path) && ref.mtime == t[ref.path].mtime
  }

  ghost predicate Ahead(todo: set<Path>, p: Path) {
    exists r :: r in todo && Within(r, p)
  }

  /** Directories still to enter are separate, and everything to be listed is visited or below one. */
  ghost predicate Frontier(t: Tree, base: Path, todo: set<Path>, visited: set<Path>) {
    && visited <= t.Keys
    && (forall r <- todo :: r == base || Reached(t, base, r))
    && (base in todo ==> visited == {} && todo == {base})
    && (forall v, r :: v in visited && r in todo ==> !Within(r, v))
    && (forall r, u :: r in todo && u in todo ==> !Above(r, u))
    && (forall p :: Listed(t, base, p) ==> p in visited || Ahead(todo, p))
  }

  ghost predicate Collected(
      t: Tree, base: Path, includeOrphans: bool, visited: set<Path>, refs: seq<BundleRef>) {
    && (forall i :: 0 <= i < |refs| ==>
          RefFor(t, refs[i]) && refs[i].path in visited && Reported(t, base, includeOrphans, refs[i].path))
    && (forall p :: p in visited && Reported(t, base, includeOrphans, p) ==>
          exists i :: 0 <= i < |refs| && refs[i].path == p)
    && (forall i, j :: 0 <= i < j < |refs| ==> refs[i].path != refs[j].path)
  }

  /** Every reported directory once, in the order of its path's text, with its facts. */
  ghost predicate IsListing(t: Tree, base: Path, includeOrphans: bool, refs: seq<BundleRef>) {
    && (forall i :: 0 <= i < |refs| ==> RefFor(t, refs[i]) && Reported(t, base, includeOrphans, refs[i].path))
    && (forall p :: Reported(t, base, includeOrphans, p) ==> exists i :: 0 <= i < |refs| && refs[i].path == p)
    && (forall i, j :: 0 <= i < j < |refs| ==> refs[i].path != refs[j].path)
    && Sorted(refs, PathKey, false)
  }

  ghost predicate Refers(refs: seq<BundleRef>, p: Path) {
    exists i :: 0 <= i < |refs| && refs[i].path == p
  }

  /** What a listing is, told of its references: whom it names, what it says of them, and in which order. */
  lemma ListingSays(t: Tree, base: Path, includeOrphans: bool, refs: seq<BundleRef>)
    requires IsListing(t, base, includeOrphans, refs)
    ensures forall p :: Refers(refs, p) <==>
      Listed(t, base, p) && (includeOrphans || IsFile(t, p + ["meta.json"]))
    ensures forall i :: 0 <= i < |refs| ==>
      && IsDir(t, refs[i].path) && refs[i].mtime == t[refs[i].path].mtime
      && (refs[i].hasMeta <==> IsFile(t, refs[i].path + ["meta.json"]))
    ensures forall i, j :: 0 <= i < j < |refs| ==>
      refs[i].path != refs[j].path && LessEq(JoinSlash(refs[i].path), JoinSlash(refs[j].path))
  {
    forall p
      ensures Refers(refs, p) <==> Reported(t, base, includeOrphans, p)
      ensures Reported(t, base, includeOrphans, p) <==> Listed(t, base, p) && (includeOrphans || HasMeta(t, p))
    {
    }
    assert META == "meta.json";
    forall i, j | 0 <= i < j < |refs|
      ensures LessEq(JoinSlash(refs[i].path), JoinSlash(refs[j].path))
    {
      assert Before(PathKey(refs[i]), PathKey(refs[j]), false);
    }
  }

  lemma CollectOne(
      t: Tree, base: Path, includeOrphans: bool, visited: set<Path>, refs: seq<BundleRef>, root: Path)
    requires Collected(t, base, includeOrphans, visited, refs) && root !in visited
    ensures !Reported(t, base, includeOrphans, root) ==>
      Collected(t, base, includeOrphans, visited + {root}, refs)
    ensures Reported(t, base, includeOrphans, root) ==>
      Collected(t, base, includeOrphans, visited + {root},
                refs + [BundleRef(root, HasMeta(t, root), t[root].mtime)])
  {
    if Reported(t, base, includeOrphans, root) {
      var more := refs + [BundleRef(root, HasMeta(t, root), t[root].mtime)];
      assert more[|refs|].path == root;
      forall p | p in visited + {root} && Reported(t, base, includeOrphans, p)
        ensures exists i :: 0 <= i < |more| && more[i].path == p
      {
        if p != root {
          var i :| 0 <= i < |refs| && refs[i].path == p;
          assert more[i].path == p;
        }
      }
    }
  }

  lemma FilesMeanDirectFiles(t: Tree, root: Path, files: set<Path>)
    requires forall q :: q in files <==> IsFile(t, q) && Child(root, q)
    ensures files != {} <==> HasDirectFile(t, root)
    ensures root + [META] in files <==> HasMeta(t, root)
  {
    assert Child(root, root + [META]);
  }

  /** Replacing a directory that holds no file by its subdirectories. */
  lemma Descend(t: Tree, base: Path, rest: set<Path>, visited: set<Path>, root: Path, dirs: set<Path>)
    requires WellFormed(t) && IsDir(t, base) && root !in rest && Frontier(t, base, rest + {root}, visited)
    requires root == base || !HasDirectFile(t, root)
    requires forall q :: q in dirs <==> IsDir(t, q) && Child(root, q)
    ensures Frontier(t, base, rest + dirs, visited + {root})
  {
    assert root in rest + {root};
    forall d | d in dirs
      ensures Reached(t, base, d) && Above(root, d) && !Within(d, root)
    {
      NextLevelReached(t, base, root, d);
    }
    forall v, r | v in visited + {root} && r in rest + dirs
      ensures !Within(r, v)
    {
      if v != root && r in dirs && Within(r, v) { WithinTransitive(root, r, v); }
    }
    forall r, u | r in rest + dirs && u in rest + dirs
      ensures !Above(r, u)
    {
      SiblingsApart(rest, root, dirs, r, u);
    }
    forall p | Listed(t, base, p) && p !in visited + {root}
      ensures Ahead(rest + dirs, p)
    {
      var r :| r in rest + {root} && Within(r, p);
      if r == root {
        var c := ChildToward(root, p);
        assert Child(root, c) && IsDir(t, c);
      }
    }
  }

  lemma NextLevelReached(t: Tree, base: Path, root: Path, d: Path)
    requires IsDir(t, d) && Child(root, d)
    requires root == base || (Reached(t, base, root) && !HasDirectFile(t, root))
    ensures Reached(t, base, d) && Above(root, d)
  {
    ChildIsJustBelow(root, d);
    if root != base { AboveTransitive(base, root, d); }
    forall q | Above(base, q) && Above(q, d)
      ensures !HasDirectFile(t, q)
    {
      AboveChild(q, root, d[|root|]);
    }
  }

  lemma SiblingsApart(rest: set<Path>, root: Path, dirs: set<Path>, r: Path, u: Path)
    requires forall r, u :: r in rest + {root} && u in rest + {root} ==> !Above(r, u)
    requires root !in rest && forall d <- dirs :: Child(root, d)
    requires r in rest + dirs && u in rest + dirs
    ensures !Above(r, u)
  {
    assert root in rest + {root};
    ChildIsJustBelow(root, u);
    ChildIsJustBelow(root, r);
    if u in dirs {
      AboveChild(r, root, u[|root|]);
    } else if r in dirs && Above(r, u) {
      AboveTransitive(root, r, u);
    }
  }

  /** A directory that holds a file hides everything beneath it. */
  lemma Prune(t: Tree, base: Path, rest: set<Path>, visited: set<Path>, root: Path)
    requires root != base && root !in rest && Frontier(t, base, rest + {root}, visited) && HasDirectFile(t, root)
    ensures Frontier(t, base, rest, visited + {root})
  {
    assert root in rest + {root};
    forall p | Listed(t, base, p) && p !in visited + {root}
      ensures Ahead(rest, p)
    {
      var r :| r in rest + {root} && Within(r, p);
      assert Above(base, root);
      assert r in rest;
    }
    forall r | r in rest
      ensures !Within(r, root)
    {
      assert r in rest + {root};
    }
  }

  /** One directory of the walk: what is to be entered next, and what is reported. */
  lemma Visit(
      t: Tree, base: Path, includeOrphans: bool, rest: set<Path>, visited: set<Path>, refs: seq<BundleRef>,
      root: Path, dirs: set<Path>)
    requires WellFormed(t) && IsDir(t, base) && root !in rest && Frontier(t, base, rest + {root}, visited)
    requires Collected(t, base, includeOrphans, visited, refs)
    requires forall q :: q in dirs <==> IsDir(t, q) && Child(root, q)
    ensures IsDir(t, root) && root !in visited
    ensures
      Frontier(t, base, if root != base && HasDirectFile(t, root) then rest else rest + dirs, visited + {root})
    ensures
      Collected(t, base, includeOrphans, visited + {root},
                if root != base && (HasMeta(t, root) || (HasDirectFile(t, root) && includeOrphans))
                then refs + [BundleRef(root, HasMeta(t, root), t[root].mtime)] else refs)
  {
    assert root in rest + {root};
    assert Within(root, root);
    if root != base && HasDirectFile(t, root) {
      Prune(t, base, rest, visited, root);
    } else {
      Descend(t, base, rest, visited, root, dirs);
    }
    CollectOne(t, base, includeOrphans, visited, refs, root);
  }

  /** The same references in sorted order are the listing. */
  lemma Rearranged(
      t: Tree, base: Path, includeOrphans: bool, visited: set<Path>, refs: seq<BundleRef>, r: seq<BundleRef>)
    requires Collected(t, base, includeOrphans, visited, refs)
    requires forall p :: Listed(t, base, p) ==> p in visited
    requires multiset(refs) == multiset(r) && Sorted(r, PathKey, false)
    ensures IsListing(t, base, includeOrphans, r)
  {
    SameItems(refs, r);
    forall i | 0 <= i < |r|
      ensures RefFor(t, r[i]) && Reported(t, base, includeOrphans, r[i].path)
    {
      SameItems(r, refs);
      var j :| 0 <= j < |refs| && refs[j] == r[i];
    }
    forall p | Reported(t, base, includeOrphans, p)
      ensures exists i :: 0 <= i < |r| && r[i].path == p
    {
      var j :| 0 <= j < |refs| && refs[j].path == p;
      var i :| 0 <= i < |r| && r[i] == refs[j];
    }
    StillApart(refs, r);
  }

  lemma StillApart(refs: seq<BundleRef>, r: seq<BundleRef>)
    requires forall i, j :: 0 <= i < j < |refs| ==> refs[i].path != refs[j].path
    requires multiset(refs) == multiset(r)
    ensures forall i, j :: 0 <= i < j < |r| ==> r[i].path != r[j].path
  {
    DistinctPermutation(refs, r);
    SameItems(r, refs);
    forall i, j | 0 <= i < j < |r|
      ensures r[i].path != r[j].path
    {
      var k :| 0 <= k < |refs| && refs[k] == r[i];
      var l :| 0 <= l < |refs| && refs[l] == r[j];
      assert r[i] != r[j];
    }
  }

  lemma SortReferences(t: Tree, base: Path, includeOrphans: bool, visited: set<Path>, refs: seq<BundleRef>)
    requires Collected(t, base, includeOrphans, visited, refs)
    requires forall p :: Listed(t, base, p) ==> p in visited
    ensures IsListing(t, base, includeOrphans, StableSort(refs, PathKey, false))
  {
    StableSortSorted(refs, PathKey, false);
    StableSortKeepsItems(refs, PathKey, false);
    Rearranged(t, base, includeOrphans, visited, refs, StableSort(refs, PathKey, false));
  }

  // ---- Facts the methods use -----------------------------------------------

  predicate MkdirsPossible(t: Tree, p: Path): (possible: bool)
    ensures possible <==> CanMkdirs(t, p)
  {
    forall q <- PathsTo(p) :: q in t ==> t[q].Dir?
  }

  lemma ParentsOfExisting(t: Tree, p: Path)
    requires WellFormed(t) && p != [] && p in t
    ensures CanMkdirs(t, Parent(p)) && forall now :: Mkdirs(t, Parent(p), now) == t
  {
    forall q | Within(q, Parent(p))
      ensures IsDir(t, q)
    {
      assert p == Parent(p) + [p[|p| - 1]];
      AboveChild(q, Parent(p), p[|p| - 1]);
    }
    assert Within(Parent(p), Parent(p));
  }

  /** mkdir of the parents and then of the directory itself. */
  lemma MkdirsTwice(t: Tree, p: Path, now: int)
    requires WellFormed(t) && p != [] && p !in t && CanMkdirs(t, Parent(p))
    ensures Mkdirs(Mkdirs(t, Parent(p), now), p, now) == Mkdirs(t, p, now)
  {
    var r, one := Mkdirs(Mkdirs(t, Parent(p), now), p, now), Mkdirs(t, p, now);
    forall q
      ensures Within(q, p) <==> Within(q, Parent(p)) || q == p
      ensures q in r <==> q in one
      ensures q in r ==> r[q] == one[q]
    {
      MkdirsTwiceAt(t, p, now, q);
    }
  }

  lemma MkdirsTwiceAt(t: Tree, p: Path, now: int, q: Path)
    requires WellFormed(t) && p != [] && p !in t && CanMkdirs(t, Parent(p))
    ensures
      var r, one := Mkdirs(Mkdirs(t, Parent(p), now), p, now), Mkdirs(t, p, now);
      && (Within(q, p) <==> Within(q, Parent(p)) || q == p)
      && (q in r <==> q in one)
      && (q in r ==> r[q] == one[q])
  {
    assert p == Parent(p) + [p[|p| - 1]];
    AboveChild(q, Parent(p), p[|p| - 1]);
    if Above(q, Parent(p)) {
      assert p[..|q| + 1] == Parent(p)[..|q| + 1];
      assert Within(p[..|q| + 1], Parent(p));
    } else if q == Parent(p) {
      assert p[..|q| + 1] == p;
    }
  }

  lemma OnlyDirectFiles(t: Tree, root: Path)
    requires forall q :: IsFile(t, q) && Above(root, q) ==> Parent(q) == root
    ensures forall d :: Above(root, d) ==> !HasDirectFile(t, d)
  {
    forall d, q | Above(root, d) && Child(d, q)
      ensures Above(root, q) && Parent(q) != root
    {
      ChildIsJustBelow(d, q);
      AboveTransitive(root, d, q);
    }
  }
}
