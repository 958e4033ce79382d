/** robofleet/vault.py: materialising the shipped assets without overwriting, and the paged rebuild loops. */
module VaultAssets {

  type Path = seq<string>
  type Bytes = seq<int>

  /** A packaged directory tree. */
  datatype Tree = FileEntry(name: string, content: Bytes) | DirEntry(name: string, entries: seq<Tree>)

  datatype Disk = Disk(files: map<Path, Bytes>, dirs: set<Path>)

  predicate Exists(d: Disk, p: Path) {
    p in d.files || p in d.dirs
  }

  /** Some directory on the way to `p` is a file, so that creating the parents raises. */
  predicate Blocked(d: Disk, p: Path) {
    exists k | 0 < k < |p| :: p[..k] in d.files
  }

  function Parents(p: Path): set<Path> {
    set k | 0 < k < |p| :: p[..k]
  }

  datatype Result = Done(disk: Disk) | Raised(disk: Disk)

  /** One file: left alone if anything exists there, else written with its parent directories. */
  function Put(d: Disk, p: Path, content: Bytes): Result {
    if Exists(d, p) then Done(d)
    else if Blocked(d, p) then Raised(d)
    else Done(Disk(d.files[p := content], d.dirs + Parents(p)))
  }

  function PutAll(d: Disk, shipped: seq<(Path, Bytes)>): Result
    decreases |shipped|
  {
    if shipped == [] then Done(d)
    else
      var r := Put(d, shipped[0].0, shipped[0].1);
      if r.Raised? then r else PutAll(r.disk, shipped[1..])
  }

  /** The files of a tree with the paths they are copied to, in the order of the walk. */
  function Shipped(entries: seq<Tree>, dest: Path): seq<(Path, Bytes)> {
    if entries == [] then []
    else
      var target := dest + [entries[0].name];
      (match entries[0]
       case FileEntry(_, content) => [(target, content)]
       case DirEntry(_, inner) => Shipped(inner, target)) + Shipped(entries[1..], dest)
  }

  lemma {:induction false} PutAllAppend(d: Disk, a: seq<(Path, Bytes)>, b: seq<(Path, Bytes)>)
    ensures PutAll(d, a + b) == (var r := PutAll(d, a); if r.Raised? then r else PutAll(r.disk, b))
    decreases |a|
  {
    hide Put;
    if a == [] {
      assert a + b == b;
    } else {
      assert (a + b)[0] == a[0] && (a + b)[1..] == a[1..] + b;
      var r := Put(d, a[0].0, a[0].1);
      if r.Done? {
        PutAllAppend(r.disk, a[1..], b);
      }
    }
  }

  lemma ShippedStep(entries: seq<Tree>, i: nat, dest: Path)
    requires i < |entries|
    ensures var target := dest + [entries[i].name];
            Shipped(entries[i..], dest) ==
            (match entries[i]
             case FileEntry(_, content) => [(target, content)]
             case DirEntry(_, inner) => Shipped(inner, target)) + Shipped(entries[i + 1..], dest)
  {
    assert entries[i..][1..] == entries[i + 1..];
  }

  lemma NothingShipped(d: Disk, entries: seq<Tree>, dest: Path)
    requires entries == []
    ensures PutAll(d, Shipped(entries, dest)) == Done(d)
  {
  }

  class Vault {
    var disk: Disk

    /** `_copy_tree` */
    method CopyTree(entries: seq<Tree>, dest: Path) returns (raised: bool)
      modifies this
      ensures var r := PutAll(old(disk), Shipped(entries, dest)); disk == r.disk && raised == r.Raised?
      decreases entries
    {
      hide Put, PutAll, Shipped;
      var i := 0;
      assert entries[0..] == entries;
      while i < |entries|
        invariant 0 <= i <= |entries|
        invariant PutAll(old(disk), Shipped(entries, dest)) == PutAll(disk, Shipped(entries[i..], dest))
      {
        var entry := entries[i];
        var target := dest + [entry.name];
        ghost var rest := Shipped(entries[i + 1..], dest);
        ShippedStep(entries, i, dest);
        assert entries[i] in entries;
        ghost var before := disk;
        match entry {
          case DirEntry(_, inner) =>
            raised := CopyTree(inner, target);
            PutAllAppend(before, Shipped(inner, target), rest);
          case FileEntry(_, content) =>
            raised := PutFile(target, content);
            PutOne(before, target, content);
            PutAllAppend(before, [(target, content)], rest);
        }
        if raised {
          return;
        }
        i := i + 1;
      }
      NothingShipped(disk, entries[i..], dest);
      raised := false;
    }

    method PutFile(target: Path, content: Bytes) returns (raised: bool)
      modifies this
      ensures var r := Put(old(disk), target, content); disk == r.disk && raised == r.Raised?
    {
      if Exists(disk, target) {
        return false;
      }
      if Blocked(disk, target) {
        return true;
      }
      disk := Disk(disk.files[target := content], disk.dirs + Parents(target));
      return false;
    }

    /** `ensure_vault_assets`: the two packaged trees, one after the other. */
    method EnsureVaultAssets(obsidian: seq<Tree>, meta: seq<Tree>, root: Path) returns (raised: bool)
      modifies this
      ensures var r := PutAll(old(disk), Assets(obsidian, meta, root)); disk == r.disk && raised == r.Raised?
    {
      PutAllAppend(disk, Shipped(obsidian, root + [".obsidian"]), Shipped(meta, root + ["RoboFleet", "_meta"]));
      raised := CopyTree(obsidian, root + [".obsidian"]);
      if !raised {
        raised := CopyTree(meta, root + ["RoboFleet", "_meta"]);
      }
    }
  }

  lemma PutOne(d: Disk, p: Path, content: Bytes)
    ensures PutAll(d, [(p, content)]) == Put(d, p, content)
  {
    hide Put;
    var r := Put(d, p, content);
    assert [(p, content)][1..] == [];
    assert r.Done? ==> PutAll(r.disk, []) == Done(r.disk);
  }

  function Assets(obsidian: seq<Tree>, meta: seq<Tree>, root: Path): seq<(Path, Bytes)> {
    Shipped(obsidian, root + [".obsidian"]) + Shipped(meta, root + ["RoboFleet", "_meta"])
  }

  // ---- The shipped paths do not get in each other's way ----

  /** No name occurs twice in a directory. */
  predicate DistinctNames(entries: seq<Tree>) {
    && (forall i, j | 0 <= i < j < |entries| :: entries[i].name != entries[j].name)
    && (forall i | 0 <= i < |entries| && entries[i].DirEntry? :: DistinctNames(entries[i].entries))
  }

  /** No path of the list equals another or leads through one. */
  predicate Apart(shipped: seq<(Path, Bytes)>) {
    forall i, j | 0 <= i < |shipped| && 0 <= j < |shipped| && i != j :: !(shipped[i].0 <= shipped[j].0)
  }

  lemma {:induction false} ShippedBelow(entries: seq<Tree>, dest: Path)
    ensures forall s | s in Shipped(entries, dest) ::
              |s.0| > |dest| && dest <= s.0 && exists i :: 0 <= i < |entries| && entries[i].name == s.0[|dest|]
    decreases entries
  {
    if entries != [] {
      ShippedBelow(entries[1..], dest);
      var target := dest + [entries[0].name];
      if entries[0].DirEntry? {
        ShippedBelow(entries[0].entries, target);
      }
      forall s | s in Shipped(entries, dest)
        ensures |s.0| > |dest| && dest <= s.0 && exists i :: 0 <= i < |entries| && entries[i].name == s.0[|dest|]
      {
        if s in Shipped(entries[1..], dest) {
          var i :| 0 <= i < |entries[1..]| && entries[1..][i].name == s.0[|dest|];
          assert entries[i + 1].name == s.0[|dest|];
        } else {
          assert target <= s.0;
          assert s.0[|dest|] == entries[0].name;
        }
      }
    }
  }

  lemma ApartJoin(a: seq<(Path, Bytes)>, b: seq<(Path, Bytes)>, n: nat)
    requires Apart(a) && Apart(b)
    requires forall s, t | s in a && t in b :: |s.0| > n && |t.0| > n && s.0[n] != t.0[n]
    ensures Apart(a + b)
  {
    var all := a + b;
    forall i, j | 0 <= i < |all| && 0 <= j < |all| && i != j
      ensures !(all[i].0 <= all[j].0)
    {
      if i < |a| <= j {
        assert all[i] in a && all[j] in b;
      } else if j < |a| <= i {
        assert all[j] in a && all[i] in b;
      }
    }
  }

  /** The files of a tree with distinct names are apart. */
  lemma {:induction false} ShippedApart(entries: seq<Tree>, dest: Path)
    requires DistinctNames(entries)
    ensures Apart(Shipped(entries, dest))
    decreases entries
  {
    if entries != [] {
      var target := dest + [entries[0].name];
      var rest := entries[1..];
      assert DistinctNames(rest) by {
        assert forall i | 0 <= i < |rest| :: rest[i] == entries[i + 1];
      }
      ShippedApart(rest, dest);
      ShippedBelow(rest, dest);
      var head := match entries[0] { case FileEntry(_, c) => [(target, c)] case DirEntry(_, inner) => Shipped(inner, target) };
      if entries[0].DirEntry? {
        ShippedApart(entries[0].entries, target);
        ShippedBelow(entries[0].entries, target);
      }
      assert forall s | s in head :: target <= s.0;
      forall s, t | s in head && t in Shipped(rest, dest)
        ensures |s.0| > |dest| && |t.0| > |dest| && s.0[|dest|] != t.0[|dest|]
      {
        var i :| 0 <= i < |rest| && rest[i].name == t.0[|dest|];
        assert entries[i + 1] == rest[i];
      }
      ApartJoin(head, Shipped(rest, dest), |dest|);
    }
  }

  /** So are the assets of both packaged trees. */
  lemma AssetsApart(obsidian: seq<Tree>, meta: seq<Tree>, root: Path)
    requires DistinctNames(obsidian) && DistinctNames(meta)
    ensures Apart(Assets(obsidian, meta, root))
  {
    hide DistinctNames;
    var a, b := root + [".obsidian"], root + ["RoboFleet", "_meta"];
    ShippedApart(obsidian, a);
    ShippedApart(meta, b);
    ShippedBelow(obsidian, a);
    ShippedBelow(meta, b);
    assert a[|root|] == ".obsidian" && b[|root|] == "RoboFleet" && ".obsidian"[0] == '.' && "RoboFleet"[0] == 'R';
    ApartJoin(Shipped(obsidian, a), Shipped(meta, b), |root|);
  }

  // ---- What the merge does to the disk ----

  /** Whatever happens, no file that existed is changed or removed, and no directory is removed. */
  lemma {:induction false} NothingIsOverwritten(d: Disk, shipped: seq<(Path, Bytes)>)
    ensures var e := PutAll(d, shipped).disk;
            && (forall p | p in d.files :: p in e.files && e.files[p] == d.files[p])
            && d.dirs <= e.dirs
    decreases |shipped|
  {
    if shipped != [] {
      var r := Put(d, shipped[0].0, shipped[0].1);
      if r.Done? {
        NothingIsOverwritten(r.disk, shipped[1..]);
      }
    }
  }

  predicate ShipsPath(shipped: seq<(Path, Bytes)>, p: Path) {
    exists i | 0 <= i < |shipped| :: shipped[i].0 == p
  }

  /** Writing one file leaves the fate of the files still to come as it was. */
  lemma PutLeavesOthers(d: Disk, p: Path, content: Bytes, q: Path)
    requires !(p <= q) && !(q <= p)
    ensures var e := Put(d, p, content).disk;
            (Exists(e, q) <==> Exists(d, q)) && (Blocked(e, q) <==> Blocked(d, q))
  {
    var e := Put(d, p, content).disk;
    assert forall k | 0 < k < |p| :: p[..k] <= p;
    assert forall k | 0 < k < |q| :: q[..k] != p;
  }

  /** The merge succeeds exactly when no missing file would have to go below an existing file. */
  lemma {:induction false} SucceedsIffUnblocked(d: Disk, shipped: seq<(Path, Bytes)>)
    requires Apart(shipped)
    ensures PutAll(d, shipped).Done? <==>
            forall i | 0 <= i < |shipped| :: Exists(d, shipped[i].0) || !Blocked(d, shipped[i].0)
    decreases |shipped|
  {
    hide Exists, Blocked, Parents;
    if shipped != [] {
      var p, rest := shipped[0].0, shipped[1..];
      var r := Put(d, p, shipped[0].1);
      assert forall i | 0 <= i < |rest| :: rest[i] == shipped[i + 1];
      if r.Done? {
        SucceedsIffUnblocked(r.disk, rest);
        forall i | 0 < i < |shipped|
          ensures Exists(r.disk, shipped[i].0) <==> Exists(d, shipped[i].0)
          ensures Blocked(r.disk, shipped[i].0) <==> Blocked(d, shipped[i].0)
        {
          PutLeavesOthers(d, p, shipped[0].1, shipped[i].0);
        }
      }
    }
  }

  /** After a successful merge the files are the old ones plus exactly the shipped files at paths where nothing existed. */
  lemma {:induction false} AddsExactlyTheMissing(d: Disk, shipped: seq<(Path, Bytes)>)
    requires Apart(shipped) && PutAll(d, shipped).Done?
    ensures var e := PutAll(d, shipped).disk;
            && (forall p :: p in e.files <==> p in d.files || (ShipsPath(shipped, p) && !Exists(d, p)))
            && (forall i | 0 <= i < |shipped| && !Exists(d, shipped[i].0) :: e.files[shipped[i].0] == shipped[i].1)
    decreases |shipped|
  {
    hide Blocked, Parents;
    if shipped != [] {
      var p, content, rest := shipped[0].0, shipped[0].1, shipped[1..];
      var r := Put(d, p, content);
      AddsExactlyTheMissing(r.disk, rest);
      NothingIsOverwritten(r.disk, rest);
      assert forall i | 0 <= i < |rest| :: rest[i] == shipped[i + 1];
      forall i | 0 < i < |shipped|
        ensures Exists(r.disk, shipped[i].0) <==> Exists(d, shipped[i].0)
      {
        PutLeavesOthers(d, p, content, shipped[i].0);
      }
      forall q
        ensures ShipsPath(shipped, q) <==> q == p || ShipsPath(rest, q)
      {
        if i :| 0 <= i < |shipped| && shipped[i].0 == q {
          assert i > 0 ==> rest[i - 1].0 == q;
        }
      }
    }
  }

  lemma {:induction false} AllThere(d: Disk, shipped: seq<(Path, Bytes)>)
    requires forall i | 0 <= i < |shipped| :: Exists(d, shipped[i].0)
    ensures PutAll(d, shipped) == Done(d)
  {
    hide Exists;
    if shipped != [] {
      AllThere(d, shipped[1..]);
    }
  }

  /** Repeating a successful merge changes nothing. */
  lemma MergeIsIdempotent(d: Disk, shipped: seq<(Path, Bytes)>)
    requires Apart(shipped) && PutAll(d, shipped).Done?
    ensures PutAll(PutAll(d, shipped).disk, shipped) == Done(PutAll(d, shipped).disk)
  {
    var e := PutAll(d, shipped).disk;
    AddsExactlyTheMissing(d, shipped);
    NothingIsOverwritten(d, shipped);
    forall i | 0 <= i < |shipped|
      ensures Exists(e, shipped[i].0)
    {
      assert ShipsPath(shipped, shipped[i].0);
    }
    AllThere(e, shipped);
  }

  // ---- What is shipped, and where it ends up ----

  /** The tree holds this content at this path, found by walking down its names. */
  ghost predicate Holds(entries: seq<Tree>, path: Path, content: Bytes)
    decreases entries
  {
    path != [] && exists i | 0 <= i < |entries| ::
      && entries[i].name == path[0]
      && (|| (entries[i].FileEntry? && |path| == 1 && entries[i].content == content)
          || (entries[i].DirEntry? && Holds(entries[i].entries, path[1..], content)))
  }

  lemma HoldsCons(entries: seq<Tree>, path: Path, content: Bytes)
    requires entries != []
    ensures Holds(entries, path, content) <==> Holds(entries[..1], path, content) || Holds(entries[1..], path, content)
  {
    var head, rest := entries[..1], entries[1..];
    assert forall i | 0 <= i < |rest| :: rest[i] == entries[i + 1];
    assert forall i | 0 < i < |entries| :: entries[i] == rest[i - 1];
    assert head[0] == entries[0];
  }

  lemma HoldsOne(entry: Tree, path: Path, content: Bytes)
    ensures Holds([entry], path, content) <==>
            && path != [] && entry.name == path[0]
            && (|| (entry.FileEntry? && |path| == 1 && entry.content == content)
                || (entry.DirEntry? && Holds(entry.entries, path[1..], content)))
  {
    assert [entry][0] == entry;
  }

  /** Everything the tree holds is shipped, at its path below the destination, and nothing else is. */
  lemma {:induction false} ShippedExactly(entries: seq<Tree>, dest: Path)
    ensures forall p, content :: (p, content) in Shipped(entries, dest) <==> dest <= p && Holds(entries, p[|dest|..], content)
    decreases entries
  {
    hide Holds;
    if entries == [] {
      NothingHeld();
    } else {
      var entry, rest := entries[0], entries[1..];
      var target := dest + [entry.name];
      ShippedExactly(rest, dest);
      if entry.DirEntry? {
        ShippedExactly(entry.entries, target);
      }
      assert entries[..1] == [entry];
      forall p, content
        ensures (p, content) in Shipped(entries, dest) <==> dest <= p && Holds(entries, p[|dest|..], content)
      {
        if dest <= p {
          HoldsCons(entries, p[|dest|..], content);
          HoldsOne(entry, p[|dest|..], content);
          BelowTarget(dest, entry.name, p);
        } else {
          assert !(target <= p) by {
            assert target <= p ==> dest <= p;
          }
        }
      }
    }
  }

  lemma NothingHeld()
    ensures forall path, content :: !Holds([], path, content)
  {
  }

  lemma BelowTarget(dest: Path, name: string, p: Path)
    requires dest <= p
    ensures var target := dest + [name];
            && (target <= p <==> p[|dest|..] != [] && p[|dest|..][0] == name)
            && (target <= p ==> p[|target|..] == p[|dest|..][1..])
            && (p == target <==> p[|dest|..] == [name])
  {
    assert p == dest + p[|dest|..];
  }

  /**
   The assets after a successful merge, end to end: what the first tree holds is below `.obsidian` and what the second
   holds below `RoboFleet/_meta`, with its content unless something was there before.
   */
  lemma AssetsMaterialised(d: Disk, obsidian: seq<Tree>, meta: seq<Tree>, root: Path, path: Path, content: Bytes)
    requires DistinctNames(obsidian) && DistinctNames(meta)
    requires PutAll(d, Assets(obsidian, meta, root)).Done?
    ensures var e := PutAll(d, Assets(obsidian, meta, root)).disk;
            && (Holds(obsidian, path, content) ==> Arrives(d, e, root + [".obsidian"] + path, content))
            && (Holds(meta, path, content) ==> Arrives(d, e, root + ["RoboFleet", "_meta"] + path, content))
  {
    hide DistinctNames, PutAll, Holds, Arrives;
    var a, b := root + [".obsidian"], root + ["RoboFleet", "_meta"];
    AssetsApart(obsidian, meta, root);
    ShippedExactly(obsidian, a);
    ShippedExactly(meta, b);
    assert (a + path)[|a|..] == path && (b + path)[|b|..] == path;
    if Holds(obsidian, path, content) {
      assert (a + path, content) in Shipped(obsidian, a);
      ShippedArrives(d, Assets(obsidian, meta, root), a + path, content);
    }
    if Holds(meta, path, content) {
      assert (b + path, content) in Shipped(meta, b);
      ShippedArrives(d, Assets(obsidian, meta, root), b + path, content);
    }
  }

  /** The file is there afterwards, with this content, unless something stood in its place before. */
  predicate Arrives(d: Disk, e: Disk, p: Path, content: Bytes) {
    !Exists(d, p) ==> p in e.files && e.files[p] == content
  }

  lemma ShippedArrives(d: Disk, shipped: seq<(Path, Bytes)>, p: Path, content: Bytes)
    requires Apart(shipped) && PutAll(d, shipped).Done? && (p, content) in shipped
    ensures Arrives(d, PutAll(d, shipped).disk, p, content)
  {
    hide PutAll, Apart;
    AddsExactlyTheMissing(d, shipped);
    var i :| 0 <= i < |shipped| && shipped[i] == (p, content);
    assert ShipsPath(shipped, p);
  }

  // ---- The disk stays a tree ----

  /** Files lie in directories that exist, and no path is both a file and a directory. */
  predicate Sane(d: Disk) {
    && (forall p | p in d.files :: Parents(p) <= d.dirs && p !in d.dirs)
    && (forall p | p in d.dirs :: Parents(p) <= d.dirs)
  }

  lemma ParentsNest(p: Path, q: Path)
    requires q in Parents(p)
    ensures Parents(q) <= Parents(p) && p !in Parents(q) && q != p
  {
    var k :| 0 < k < |p| && q == p[..k];
    assert forall j | 0 < j < |q| :: q[..j] == p[..j];
  }

  lemma PutKeepsSane(d: Disk, p: Path, content: Bytes)
    requires Sane(d)
    ensures Sane(Put(d, p, content).disk)
  {
    var r := Put(d, p, content);
    if r.disk != d {
      var e := r.disk;
      hide Parents;
      assert forall q | q in Parents(p) :: q !in d.files by {
        UnblockedParents(d, p);
      }
      forall q | q in Parents(p)
        ensures Parents(q) <= e.dirs && q != p
      {
        ParentsNest(p, q);
      }
    }
  }

  lemma UnblockedParents(d: Disk, p: Path)
    ensures !Blocked(d, p) <==> forall q | q in Parents(p) :: q !in d.files
  {
  }

  /** A successful merge creates exactly the directories on the way to the files that were missing. */
  lemma {:induction false} DirsExactly(d: Disk, shipped: seq<(Path, Bytes)>)
    requires Apart(shipped) && PutAll(d, shipped).Done?
    ensures forall q :: q in PutAll(d, shipped).disk.dirs <==>
              q in d.dirs || exists i | 0 <= i < |shipped| :: !Exists(d, shipped[i].0) && q in Parents(shipped[i].0)
    decreases |shipped|
  {
    hide Blocked, Parents;
    if shipped != [] {
      var p, content, rest := shipped[0].0, shipped[0].1, shipped[1..];
      var e := Put(d, p, content).disk;
      DirsExactly(e, rest);
      assert forall i | 0 <= i < |rest| :: rest[i] == shipped[i + 1];
      forall i | 0 < i < |shipped|
        ensures Exists(e, shipped[i].0) <==> Exists(d, shipped[i].0)
      {
        PutLeavesOthers(d, p, content, shipped[i].0);
      }
      forall q
        ensures (exists i | 0 <= i < |shipped| :: !Exists(d, shipped[i].0) && q in Parents(shipped[i].0)) <==>
                || (!Exists(d, p) && q in Parents(p))
                || (exists i | 0 <= i < |rest| :: !Exists(e, rest[i].0) && q in Parents(rest[i].0))
      {
        if i :| 0 <= i < |shipped| && !Exists(d, shipped[i].0) && q in Parents(shipped[i].0) {
          assert i > 0 ==> !Exists(e, rest[i - 1].0) && q in Parents(rest[i - 1].0);
        }
        if i :| 0 <= i < |rest| && !Exists(e, rest[i].0) && q in Parents(rest[i].0) {
          assert !Exists(d, shipped[i + 1].0) && q in Parents(shipped[i + 1].0);
        }
      }
    }
  }

  /** The merge keeps the disk a tree, also when it raises half way. */
  lemma {:induction false} MergeKeepsSane(d: Disk, shipped: seq<(Path, Bytes)>)
    requires Sane(d)
    ensures Sane(PutAll(d, shipped).disk)
    decreases |shipped|
  {
    hide Sane, Put;
    if shipped != [] {
      PutKeepsSane(d, shipped[0].0, shipped[0].1);
      var r := Put(d, shipped[0].0, shipped[0].1);
      if r.Done? {
        MergeKeepsSane(r.disk, shipped[1..]);
      }
    }
  }

  // ---- Paged rebuild ----

  const PAGE_LIMIT := 100

  /** How many rows the service returns from an offset: at least one while rows remain, never more than the limit. */
  type PageSize = nat -> nat

  function Page<T>(rows: seq<T>, offset: nat, size: PageSize): seq<T> {
    if offset >= |rows| then []
    else
      var left := |rows| - offset;
      var most := if left < PAGE_LIMIT then left else PAGE_LIMIT;
      rows[offset..offset + if size(offset) == 0 || size(offset) > most then most else size(offset)]
  }

  lemma PageNext<T>(rows: seq<T>, offset: nat, size: PageSize)
    requires offset <= |rows|
    ensures var page := Page(rows, offset, size);
            && (page == [] <==> offset == |rows|)
            && offset + |page| <= |rows| && rows[..offset] + page == rows[..offset + |page|]
  {
  }

  class Writer<T> {
    var written: seq<T>

    /** The offset loop: every row of a stable list is written once, in order, however the service cuts its pages. */
    method Rebuild(rows: seq<T>, size: PageSize)
      modifies this
      ensures written == old(written) + rows
    {
      hide Page;
      var offset := 0;
      while true
        invariant offset <= |rows|
        invariant written == old(written) + rows[..offset]
        decreases |rows| - offset
      {
        PageNext(rows, offset, size);
        var page := Page(rows, offset, size);
        if page == [] {
          break;
        }
        ghost var start := written;
        var i := 0;
        while i < |page|
          invariant 0 <= i <= |page|
          invariant written == start + page[..i]
        {
          assert page[..i + 1] == page[..i] + [page[i]];
          written := written + [page[i]];
          i := i + 1;
        }
        assert page[..i] == page;
        offset := offset + |page|;
      }
      assert rows[..offset] == rows;
    }
  }
}
