/** robofleet/config.py `_vault_dirs_overlap` and `_validate_vault_kb_dirs`: ingest folders apart from reserved ones. */
module VaultDirs {
  import opened Text

  /** `s.strip("/")` */
  function StripSlashes(s: string): string {
    StripEnd(StripStart(s, '/'), '/')
  }

  /** `_vault_dirs_overlap`, on the strings. */
  predicate DirsOverlap(a: string, b: string) {
    var x, y := StripSlashes(a), StripSlashes(b);
    x == y || y + "/" <= x || x + "/" <= y
  }

  /** The components of a vault-relative path. */
  function Components(path: string): seq<string> {
    SplitOn(path, '/')
  }

  /** A vault-relative directory in normal form: every component names something. */
  predicate NormalDir(d: string) {
    forall c | c in Components(d) :: c != "" && c != "." && c != ".."
  }

  /** `p` is the directory at `at` or lies in it, at any depth. */
  predicate Within(p: seq<string>, at: seq<string>) {
    at <= p
  }

  predicate Under(p: seq<string>, d: string) {
    Within(p, Components(d))
  }

  lemma NormalDirEnds(d: string)
    requires NormalDir(d)
    ensures d != "" && d[0] != '/' && d[|d| - 1] != '/' && StripSlashes(d) == d
  {
    var n := IndexOf(d, '/');
    var cs := Components(d);
    assert cs[0] == d[..n] && cs[0] in cs;
    if d[|d| - 1] == '/' {
      LastSlash(d);
    }
  }

  lemma SplitEmpty()
    ensures SplitOn("", '/') == [""]
  {
    IndexOfIs("", '/', 0);
  }

  lemma LastSlash(d: string)
    requires d != "" && d[|d| - 1] == '/'
    ensures "" in SplitOn(d, '/')
  {
    hide SplitOn;
    var p := d[..|d| - 1];
    assert d == p + ['/'] + "";
    SplitAppend(p, '/', "");
    SplitEmpty();
    assert (SplitOn(p, '/') + [""])[|SplitOn(p, '/')|] == "";
  }

  /** A string followed by a slash begins another exactly when its components properly begin the other's. */
  lemma {:induction false} SlashPrefix(a: string, b: string)
    ensures a + "/" <= b <==> Components(a) < Components(b)
    decreases |a|
  {
    if a + "/" <= b {
      var rest := b[|a| + 1..];
      assert b == a + ['/'] + rest;
      SplitAppend(a, '/', rest);
    }
    if Components(a) < Components(b) {
      JoinPrefix(Components(a), Components(b));
      JoinSplit(a, '/');
      JoinSplit(b, '/');
    }
  }

  lemma {:induction false} JoinPrefix(a: seq<string>, b: seq<string>)
    requires a != [] && a < b
    ensures JoinWith(a, '/') + "/" <= JoinWith(b, '/')
  {
    if |a| > 1 {
      assert a[1..] < b[1..];
      JoinPrefix(a[1..], b[1..]);
      assert a[0] == b[0];
    }
  }

  lemma SameComponents(a: string, b: string)
    requires Components(a) == Components(b)
    ensures a == b
  {
    JoinSplit(a, '/');
    JoinSplit(b, '/');
  }

  /** The string test says exactly that one component list begins the other. */
  lemma OverlapIsNesting(a: string, b: string)
    requires NormalDir(a) && NormalDir(b)
    ensures DirsOverlap(a, b) <==> Components(a) <= Components(b) || Components(b) <= Components(a)
  {
    hide StripSlashes, SplitOn;
    NormalDirEnds(a);
    NormalDirEnds(b);
    SlashPrefix(a, b);
    SlashPrefix(b, a);
    if Components(a) == Components(b) {
      SameComponents(a, b);
    }
  }

  /** Two directories that overlap share a path, namely the deeper of the two, and two that do not share none. */
  lemma OverlapIffCommonPath(a: string, b: string)
    requires NormalDir(a) && NormalDir(b)
    ensures DirsOverlap(a, b) <==> exists p: seq<string> :: Under(p, a) && Under(p, b)
  {
    hide DirsOverlap, Components, NormalDir;
    OverlapIsNesting(a, b);
    if Components(a) <= Components(b) {
      assert Under(Components(b), a) && Under(Components(b), b);
    }
    if Components(b) <= Components(a) {
      assert Under(Components(a), a) && Under(Components(a), b);
    }
    if p: seq<string> :| Under(p, a) && Under(p, b) {
      var x, y := Components(a), Components(b);
      assert x == p[..|x|] && y == p[..|y|];
    }
  }

  // ---- The validator ----

  /** `posixpath.normpath` for a relative path without `..`: empty and `.` components go. */
  function KeptComponents(parts: seq<string>): seq<string> {
    if parts == [] then []
    else (if parts[0] == "" || parts[0] == "." then [] else [parts[0]]) + KeptComponents(parts[1..])
  }

  function NormPath(path: string): string {
    var kept := KeptComponents(SplitOn(path, '/'));
    if kept == [] then "." else JoinWith(kept, '/')
  }

  datatype Problem = NotRelative(entry: string) | VaultRoot(entry: string) | Overlaps(entry: string, reserved: string)
  datatype Verdict = Accepted | Rejected(problem: Problem)

  /** The projection folders and the intake inbox. */
  function Reserved(intakeDir: string): seq<string> {
    ["RoboFleet/Tasks", "RoboFleet/Journals", "RoboFleet/A2A", "RoboFleet/Agents", "RoboFleet/Archive",
     "RoboFleet/Reports", "RoboFleet/_meta", ".obsidian", intakeDir]
  }

  /** The first reserved folder that the normalised folder overlaps. */
  function FirstOverlap(entry: string, normalized: string, reserved: seq<string>): Verdict {
    if reserved == [] then Accepted
    else if DirsOverlap(normalized, reserved[0]) then Rejected(Overlaps(entry, reserved[0]))
    else FirstOverlap(entry, normalized, reserved[1..])
  }

  function CheckEntry(entry: string, reserved: seq<string>): Verdict {
    if entry == "" then Accepted
    else if "/" <= entry || ".." in SplitOn(entry, '/') then Rejected(NotRelative(entry))
    else if NormPath(entry) == "." then Rejected(VaultRoot(entry))
    else FirstOverlap(entry, NormPath(entry), reserved)
  }

  function CheckEntries(entries: seq<string>, reserved: seq<string>): Verdict {
    if entries == [] then Accepted
    else if CheckEntry(Strip(entries[0]), reserved).Rejected? then CheckEntry(Strip(entries[0]), reserved)
    else CheckEntries(entries[1..], reserved)
  }

  /** Checks the comma-separated ingest folders in order; the first problem raises, and none when the feature is off. */
  method ValidateKbDirs(enabled: bool, kbDirs: string, intakeDir: string) returns (v: Verdict)
    ensures v == if enabled then CheckEntries(SplitOn(kbDirs, ','), Reserved(intakeDir)) else Accepted
  {
    hide NormPath, DirsOverlap, Strip;
    if !enabled {
      return Accepted;
    }
    var reserved := Reserved(intakeDir);
    var entries := SplitOn(kbDirs, ',');
    assert entries[0..] == entries;
    var i := 0;
    while i < |entries|
      invariant 0 <= i <= |entries|
      invariant CheckEntries(entries, reserved) == CheckEntries(entries[i..], reserved)
    {
      var kbDir := Strip(entries[i]);
      assert entries[i..][1..] == entries[i + 1..];
      if kbDir != "" {
        if "/" <= kbDir || ".." in SplitOn(kbDir, '/') {
          return Rejected(NotRelative(kbDir));
        }
        var normalized := NormPath(kbDir);
        if normalized == "." {
          return Rejected(VaultRoot(kbDir));
        }
        var j := 0;
        assert reserved[0..] == reserved;
        while j < |reserved|
          invariant 0 <= j <= |reserved|
          invariant CheckEntry(kbDir, reserved) == FirstOverlap(kbDir, normalized, reserved[j..])
        {
          assert reserved[j..][1..] == reserved[j + 1..];
          if DirsOverlap(normalized, reserved[j]) {
            return Rejected(Overlaps(kbDir, reserved[j]));
          }
          j := j + 1;
        }
      }
      i := i + 1;
    }
    return Accepted;
  }

  predicate EntryOk(entry: string, reserved: seq<string>) {
    entry == "" ||
    (&& !("/" <= entry) && ".." !in SplitOn(entry, '/') && NormPath(entry) != "."
     && forall r | r in reserved :: !DirsOverlap(NormPath(entry), r))
  }

  lemma {:induction false} FirstOverlapFinds(entry: string, d: string, reserved: seq<string>)
    ensures FirstOverlap(entry, d, reserved).Accepted? <==> forall r | r in reserved :: !DirsOverlap(d, r)
  {
    hide DirsOverlap;
    if reserved != [] {
      FirstOverlapFinds(entry, d, reserved[1..]);
    }
  }

  /** A configuration is accepted exactly when each of its entries is. */
  lemma {:induction false} AcceptedIffEntriesOk(entries: seq<string>, reserved: seq<string>)
    ensures CheckEntries(entries, reserved).Accepted? <==> forall e | e in entries :: EntryOk(Strip(e), reserved)
  {
    hide DirsOverlap, NormPath, Strip, SplitOn;
    if entries != [] {
      var e := Strip(entries[0]);
      FirstOverlapFinds(e, NormPath(e), reserved);
      AcceptedIffEntriesOk(entries[1..], reserved);
      assert entries[0] in entries;
    }
  }

  /** The problem describes the entry: not relative, else the root itself, else the first reserved folder it overlaps. */
  ghost predicate Describes(problem: Problem, e: string, reserved: seq<string>) {
    var relative := !("/" <= e) && ".." !in SplitOn(e, '/');
    problem.entry == e &&
    match problem
    case NotRelative(_) => !relative
    case VaultRoot(_) => relative && NormPath(e) == "."
    case Overlaps(_, r) =>
      && relative && NormPath(e) != "."
      && exists j | 0 <= j < |reserved| ::
           reserved[j] == r && DirsOverlap(NormPath(e), r) && forall i | 0 <= i < j :: !DirsOverlap(NormPath(e), reserved[i])
  }

  lemma {:induction false} OverlapDescribes(e: string, d: string, reserved: seq<string>)
    requires FirstOverlap(e, d, reserved).Rejected?
    ensures FirstOverlap(e, d, reserved).problem.Overlaps? && FirstOverlap(e, d, reserved).problem.entry == e
    ensures exists j | 0 <= j < |reserved| ::
              && reserved[j] == FirstOverlap(e, d, reserved).problem.reserved && DirsOverlap(d, reserved[j])
              && forall i | 0 <= i < j :: !DirsOverlap(d, reserved[i])
  {
    hide DirsOverlap;
    if DirsOverlap(d, reserved[0]) {
      assert reserved[0] == FirstOverlap(e, d, reserved).problem.reserved;
    } else {
      var rest := reserved[1..];
      OverlapDescribes(e, d, rest);
      var j :| 0 <= j < |rest| && rest[j] == FirstOverlap(e, d, rest).problem.reserved && DirsOverlap(d, rest[j])
               && forall i | 0 <= i < j :: !DirsOverlap(d, rest[i]);
      assert reserved[j + 1] == rest[j];
      assert forall i | 0 < i < j + 1 :: reserved[i] == rest[i - 1];
    }
  }

  /** A rejection reports the first entry that is not sound, and describes it. */
  lemma {:induction false} ProblemExactly(entries: seq<string>, reserved: seq<string>)
    requires CheckEntries(entries, reserved).Rejected?
    ensures exists i | 0 <= i < |entries| ::
              && Describes(CheckEntries(entries, reserved).problem, Strip(entries[i]), reserved)
              && forall j | 0 <= j < i :: EntryOk(Strip(entries[j]), reserved)
  {
    hide DirsOverlap, NormPath, Strip, SplitOn, FirstOverlap, EntryOk, Describes;
    var e := Strip(entries[0]);
    EntryVerdict(e, reserved);
    if CheckEntry(e, reserved).Rejected? {
      assert Describes(CheckEntries(entries, reserved).problem, Strip(entries[0]), reserved);
    } else {
      var rest := entries[1..];
      ProblemExactly(rest, reserved);
      var i :| 0 <= i < |rest| && Describes(CheckEntries(rest, reserved).problem, Strip(rest[i]), reserved)
               && forall j | 0 <= j < i :: EntryOk(Strip(rest[j]), reserved);
      assert entries[i + 1] == rest[i];
      assert forall j | 0 < j < i + 1 :: entries[j] == rest[j - 1];
    }
  }

  lemma EntryVerdict(e: string, reserved: seq<string>)
    ensures CheckEntry(e, reserved).Accepted? <==> EntryOk(e, reserved)
    ensures CheckEntry(e, reserved).Rejected? ==> Describes(CheckEntry(e, reserved).problem, e, reserved)
  {
    hide DirsOverlap, NormPath, SplitOn, FirstOverlap;
    FirstOverlapFinds(e, NormPath(e), reserved);
    if FirstOverlap(e, NormPath(e), reserved).Rejected? {
      OverlapDescribes(e, NormPath(e), reserved);
    }
  }

  lemma TwoLevels(a: string, b: string)
    requires '/' !in a && '/' !in b && a !in ["", ".", ".."] && b !in ["", ".", ".."]
    ensures NormalDir(a + "/" + b) && NormalDir(b)
  {
    SplitAppendLast(a, '/', b);
    IndexOfIs(b, '/', |b|);
  }

  /** The fixed reserved folders are in normal form. */
  lemma ReservedAreNormal(intakeDir: string)
    requires NormalDir(intakeDir)
    ensures forall r | r in Reserved(intakeDir) :: NormalDir(r)
  {
    hide NormalDir;
    var a := "RoboFleet";
    assert '/' !in a && a !in ["", ".", ".."];
    TwoLevels(a, "Tasks");
    TwoLevels(a, "Journals");
    TwoLevels(a, "A2A");
    TwoLevels(a, "Agents");
    TwoLevels(a, "Archive");
    TwoLevels(a, "Reports");
    TwoLevels(a, "_meta");
    TwoLevels(a, ".obsidian");
    assert "RoboFleet/Tasks" == a + "/" + "Tasks";
    assert "RoboFleet/Journals" == a + "/" + "Journals";
    assert "RoboFleet/A2A" == a + "/" + "A2A";
    assert "RoboFleet/Agents" == a + "/" + "Agents";
    assert "RoboFleet/Archive" == a + "/" + "Archive";
    assert "RoboFleet/Reports" == a + "/" + "Reports";
    assert "RoboFleet/_meta" == a + "/" + "_meta";
  }

  lemma {:induction false} KeptAreNames(parts: seq<string>)
    requires forall p | p in parts :: '/' !in p
    ensures forall c | c in KeptComponents(parts) :: c != "" && c != "." && '/' !in c && c in parts
  {
    if parts != [] {
      KeptAreNames(parts[1..]);
    }
  }

  /** Normalising keeps exactly the components that name something, in order; it yields the root when none does. */
  lemma NormPathComponents(path: string)
    requires ".." !in Components(path)
    ensures NormPath(path) == "." <==> KeptComponents(Components(path)) == []
    ensures NormPath(path) != "." ==>
              NormalDir(NormPath(path)) && Components(NormPath(path)) == KeptComponents(Components(path))
  {
    var kept := KeptComponents(SplitOn(path, '/'));
    SplitParts(path, '/');
    KeptAreNames(SplitOn(path, '/'));
    if kept != [] {
      SplitJoin(kept, '/');
      IndexOfIs(".", '/', 1);
      assert SplitOn(".", '/') == ["."];
      assert kept[0] in kept;
    }
  }

  predicate Nest(a: seq<string>, b: seq<string>) {
    a <= b || b <= a
  }

  /** The string test against any folder name: it compares the components as they are spelt. */
  lemma OverlapAsSpelt(d: string, r: string)
    requires NormalDir(d)
    ensures DirsOverlap(d, r) <==> Nest(Components(d), Components(StripSlashes(r)))
  {
    hide StripSlashes, SplitOn;
    var s := StripSlashes(r);
    NormalDirEnds(d);
    SlashPrefix(d, s);
    SlashPrefix(s, d);
    if Components(d) == Components(s) {
      SameComponents(d, s);
    }
  }

  // ---- Reserved folders that are not in normal form ----

  predicate IsName(c: string) {
    c != "" && c != "." && c != ".." && '/' !in c
  }

  predicate AllNames(parts: seq<string>) {
    forall c | c in parts :: IsName(c)
  }

  /** Where a path leads from a directory given by its names from the file system's root; `..` at the root stays there. */
  function Walk(at: seq<string>, parts: seq<string>): seq<string>
    decreases |parts|
  {
    if parts == [] then at
    else if parts[0] == "" || parts[0] == "." then Walk(at, parts[1..])
    else if parts[0] == ".." then Walk(if at == [] then [] else at[..|at| - 1], parts[1..])
    else Walk(at + [parts[0]], parts[1..])
  }

  /** The directory that joining a configured folder to the vault's root names: an absolute one replaces the root. */
  function Location(root: seq<string>, r: string): seq<string> {
    Walk(if "/" <= r then [] else root, Components(r))
  }

  lemma {:induction false} WalkNames(at: seq<string>, parts: seq<string>)
    requires AllNames(at) && forall c | c in parts :: '/' !in c
    ensures AllNames(Walk(at, parts))
    decreases |parts|
  {
    if parts != [] {
      assert parts[0] in parts && forall c | c in parts[1..] :: c in parts;
      if parts[0] == "" || parts[0] == "." {
        WalkNames(at, parts[1..]);
      } else if parts[0] == ".." {
        WalkNames(if at == [] then [] else at[..|at| - 1], parts[1..]);
      } else {
        WalkNames(at + [parts[0]], parts[1..]);
      }
    }
  }

  lemma {:induction false} WalkDown(at: seq<string>, parts: seq<string>)
    requires AllNames(parts)
    ensures Walk(at, parts) == at + parts
    decreases |parts|
  {
    if parts != [] {
      assert parts[0] in parts && forall c | c in parts[1..] :: c in parts;
      WalkDown(at + [parts[0]], parts[1..]);
    }
  }

  lemma {:induction false} WalkAppend(at: seq<string>, a: seq<string>, b: seq<string>)
    ensures Walk(at, a + b) == Walk(Walk(at, a), b)
    decreases |a|
  {
    if a == [] {
      assert a + b == b;
    } else {
      assert (a + b)[1..] == a[1..] + b;
      if a[0] == "" || a[0] == "." {
        WalkAppend(at, a[1..], b);
      } else if a[0] == ".." {
        WalkAppend(if at == [] then [] else at[..|at| - 1], a[1..], b);
      } else {
        WalkAppend(at + [a[0]], a[1..], b);
      }
    }
  }

  /** Outer slashes only add empty components. */
  lemma {:induction false} LeftSlashesLeadNowhere(at: seq<string>, s: string)
    ensures Walk(at, Components(StripStart(s, '/'))) == Walk(at, Components(s))
  {
    if s != "" && s[0] == '/' {
      LeftSlashesLeadNowhere(at, s[1..]);
      SplitAppendLast("", '/', s[1..]);
      assert s == "" + ['/'] + s[1..];
      assert ([""] + SplitOn(s[1..], '/'))[1..] == SplitOn(s[1..], '/');
    }
  }

  lemma {:induction false} RightSlashesLeadNowhere(at: seq<string>, s: string)
    ensures Walk(at, Components(StripEnd(s, '/'))) == Walk(at, Components(s))
  {
    hide Walk, SplitOn;
    if s != "" && s[|s| - 1] == '/' {
      var p := s[..|s| - 1];
      RightSlashesLeadNowhere(at, p);
      assert s == p + ['/'] + "";
      SplitAppend(p, '/', "");
      SplitEmpty();
      WalkAppend(at, SplitOn(p, '/'), [""]);
      EmptyLeadsNowhere(Walk(at, SplitOn(p, '/')));
    }
  }

  lemma EmptyLeadsNowhere(at: seq<string>)
    ensures Walk(at, [""]) == at
  {
  }

  lemma NormalIsNames(d: string)
    ensures NormalDir(d) <==> AllNames(Components(d))
  {
    SplitParts(d, '/');
  }

  /** The folder of given names. */
  lemma FolderOf(names: seq<string>) returns (d: string)
    requires names != [] && AllNames(names)
    ensures NormalDir(d) && Components(d) == names
  {
    d := JoinWith(names, '/');
    SplitJoin(names, '/');
  }

  /** The string test and the folders' places on disk agree about every ingest folder. */
  ghost predicate JudgedRightly(root: seq<string>, r: string) {
    forall d | NormalDir(d) :: DirsOverlap(d, r) <==> Nest(root + Components(d), Location(root, r))
  }

  /** Lists of names that nest with exactly the same non-empty lists of names. */
  ghost predicate NestAlike(s: seq<string>, k: seq<string>) {
    forall names | names != [] && AllNames(names) :: Nest(names, s) <==> Nest(names, k)
  }

  /** A list that nests with two ways on from `k` does not reach beyond `k`. */
  lemma NotBeyond(s: seq<string>, k: seq<string>)
    requires Nest(k + ["x"], s) && Nest(k + ["y"], s)
    ensures s <= k
  {
    NamesXY();
    var kx, ky := k + ["x"], k + ["y"];
    assert kx[|k|] == "x" && ky[|k|] == "y" && kx[..|k|] == k;
  }

  /** A list that stops short of `k` nests with names that `k` does not. */
  lemma TellsApart(s: seq<string>, k: seq<string>) returns (z: seq<string>)
    requires AllNames(k) && s < k
    ensures z != [] && AllNames(z) && Nest(z, s) && !Nest(z, k)
  {
    NamesXY();
    z := s + [if k[|s|] == "x" then "y" else "x"];
    assert forall c | c in s :: c in k;
    assert z[|s|] != k[|s|];
  }

  /** Only the same list nests alike. */
  lemma NestAlikeIsEqual(s: seq<string>, k: seq<string>)
    requires AllNames(k) && NestAlike(s, k)
    ensures s == k
  {
    NamesXY();
    var kx, ky := k + ["x"], k + ["y"];
    assert AllNames(kx) && AllNames(ky) && Nest(kx, k) && Nest(ky, k);
    NotBeyond(s, k);
    if s != k {
      var z := TellsApart(s, k);
    }
  }

  lemma NamesXY()
    ensures IsName("x") && IsName("y") && "x" != "y"
  {
    assert "x"[0] == 'x' && "y"[0] == 'y';
  }

  lemma AgreeOnNames(root: seq<string>, r: string)
    ensures JudgedRightly(root, r) <==>
            forall names | names != [] && AllNames(names) ::
              Nest(names, Components(StripSlashes(r))) <==> Nest(root + names, Location(root, r))
  {
    hide DirsOverlap, Nest, NormalDir, Components, StripSlashes, Location, AllNames;
    var s := Components(StripSlashes(r));
    if JudgedRightly(root, r) {
      forall names | names != [] && AllNames(names)
        ensures Nest(names, s) <==> Nest(root + names, Location(root, r))
      {
        var d := FolderOf(names);
        OverlapAsSpelt(d, r);
      }
    }
    if forall names | names != [] && AllNames(names) :: Nest(names, s) <==> Nest(root + names, Location(root, r)) {
      forall d | NormalDir(d)
        ensures DirsOverlap(d, r) <==> Nest(root + Components(d), Location(root, r))
      {
        NormalIsNames(d);
        OverlapAsSpelt(d, r);
        ComponentsNonempty(d);
      }
    }
  }

  lemma ComponentsNonempty(d: string)
    ensures Components(d) != []
  {
  }

  lemma NestShifts(root: seq<string>, a: seq<string>, k: seq<string>)
    ensures Nest(root + a, root + k) <==> Nest(a, k)
  {
    var x, y := root + a, root + k;
    assert a == x[|root|..] && k == y[|root|..];
  }

  /** What nests with something in the vault lies in it or above it, and what lies above it nests with everything in it. */
  lemma NestOutside(root: seq<string>, names: seq<string>, l: seq<string>)
    ensures Nest(root + names, l) ==> root <= l || l <= root
    ensures l <= root ==> Nest(root + names, l)
  {
    var x := root + names;
    assert root == x[..|root|];
    assert x <= l ==> root <= l;
    if l <= x {
      assert if |l| <= |root| then root[..|l|] == x[..|l|] else l[..|root|] == x[..|root|];
    }
  }

  /** The reserved folder lies elsewhere, neither in the vault nor above it, and its spelling shows it. */
  predicate ShownAside(root: seq<string>, r: string) {
    !Nest(root, Location(root, r)) && !IsName(Components(StripSlashes(r))[0])
  }

  /**
   The test judges a reserved folder rightly, against every ingest folder, exactly when its spelling without outer
   slashes lists the names that lead to it from the vault's root, or begins with a dot component and leads aside. The
   fixed folders are of the first kind; the intake folder is compared as it is configured.
   */
  lemma JudgedRightlyIff(root: seq<string>, r: string)
    requires AllNames(root)
    ensures JudgedRightly(root, r) <==>
            Location(root, r) == root + Components(StripSlashes(r)) || ShownAside(root, r)
  {
    hide Components, StripSlashes, Location, AllNames, Nest, JudgedRightly;
    var s, l := Components(StripSlashes(r)), Location(root, r);
    ComponentsNonempty(StripSlashes(r));
    AgreeOnNames(root, r);
    LocationNames(root, r);
    if root <= l {
      var k := l[|root|..];
      assert l == root + k;
      InsideTheVault(root, s, k);
    } else {
      OutsideTheVault(root, s, l);
    }
  }

  lemma LocationNames(root: seq<string>, r: string)
    requires AllNames(root)
    ensures AllNames(Location(root, r))
  {
    SplitParts(r, '/');
    WalkNames(if "/" <= r then [] else root, Components(r));
  }

  lemma InsideTheVault(root: seq<string>, s: seq<string>, k: seq<string>)
    requires s != [] && AllNames(root + k)
    ensures (forall names | names != [] && AllNames(names) :: Nest(names, s) <==> Nest(root + names, root + k)) <==> s == k
    ensures root + k == root + s <==> s == k
    ensures Nest(root, root + k)
  {
    hide IsName;
    assert forall c | c in k :: c in root + k;
    assert k == (root + k)[|root|..] && s == (root + s)[|root|..];
    forall names
      ensures Nest(root + names, root + k) <==> Nest(names, k)
    {
      NestShifts(root, names, k);
    }
    if forall names | names != [] && AllNames(names) :: Nest(names, s) <==> Nest(root + names, root + k) {
      NestAlikeIsEqual(s, k);
    }
  }

  lemma OutsideTheVault(root: seq<string>, s: seq<string>, l: seq<string>)
    requires s != [] && !(root <= l)
    ensures (forall names | names != [] && AllNames(names) :: Nest(names, s) <==> Nest(root + names, l))
       <==> !Nest(root, l) && !IsName(s[0])
    ensures l != root + s
  {
    NamesXY();
    forall names
      ensures Nest(root + names, l) <==> l <= root
    {
      NestOutside(root, names, l);
    }
    var first := [s[0]];
    assert first <= s && (IsName(s[0]) ==> AllNames(first));
    var other := [if s[0] == "x" then "y" else "x"];
    assert AllNames(other) && other[0] != s[0];
    forall names | names != [] && AllNames(names) && Nest(names, s)
      ensures IsName(s[0])
    {
      assert names[0] == s[0] && names[0] in names;
    }
    assert root <= root + s;
  }

  /** A relative folder in normal form is judged rightly wherever the vault is, and so with slashes after it. */
  lemma NormalIsJudgedRightly(root: seq<string>, r: string)
    requires AllNames(root) && NormalDir(StripSlashes(r)) && !("/" <= r)
    ensures JudgedRightly(root, r)
  {
    hide JudgedRightly, StripStart, StripEnd, NormalDir, AllNames, SplitOn;
    LeftSlashesLeadNowhere(root, r);
    RightSlashesLeadNowhere(root, StripStart(r, '/'));
    NormalIsNames(StripSlashes(r));
    WalkDown(root, Components(StripSlashes(r)));
    JudgedRightlyIff(root, r);
  }

  lemma DottedSpelling(d: string)
    requires IsName(d)
    ensures Components(d) == [d] && NormalDir(d) && Components("./" + d) == [".", d]
    ensures StripSlashes("./" + d) == "./" + d && !("/" <= "./" + d)
  {
    hide SplitOn;
    SplitWhole(d, '/');
    assert "./" + d == "." + ['/'] + d;
    SplitAppendLast(".", '/', d);
    StripSlashesFixed("./" + d);
  }

  lemma StripSlashesFixed(s: string)
    requires s != "" && s[0] != '/' && s[|s| - 1] != '/'
    ensures StripSlashes(s) == s
  {
  }

  /** An intake folder spelt with a leading dot is the same place, but does not overlap as a string. */
  lemma DottedIntakeIsMissed(root: seq<string>, d: string)
    requires IsName(d)
    ensures !DirsOverlap(d, "./" + d)
    ensures Location(root, "./" + d) == root + Components(d)
  {
    DottedSpelling(d);
    hide StripSlashes, SplitOn, NormalDir, DirsOverlap;
    OverlapAsSpelt(d, "./" + d);
    WalkInbox(root, d);
    assert [".", d][0] == "." && [d][0] == d;
  }

  lemma WalkInbox(root: seq<string>, d: string)
    requires IsName(d)
    ensures Walk(root, [".", d]) == root + [d]
  {
    assert [".", d][1..] == [d];
    assert [d][1..] == [];
    assert Walk(root + [d], []) == root + [d];
  }

  lemma NestIffCommonPath(a: seq<string>, b: seq<string>)
    ensures Nest(a, b) <==> exists p :: Within(p, a) && Within(p, b)
  {
    if a <= b {
      assert Within(b, a) && Within(b, b);
    }
    if b <= a {
      assert Within(a, a) && Within(a, b);
    }
    if p :| Within(p, a) && Within(p, b) {
      assert a == p[..|a|] && b == p[..|b|];
    }
  }

  /** The place of an entry that the validator lets through. */
  function PlaceOf(root: seq<string>, entry: string): seq<string> {
    root + KeptComponents(Components(entry))
  }

  /** An entry that names a folder in the vault, below its root and without climbing. */
  predicate ProperEntry(entry: string) {
    !("/" <= entry) && ".." !in Components(entry) && KeptComponents(Components(entry)) != []
  }

  /** Nothing on disk lies both under the entry's folder and under a reserved one. */
  ghost predicate KeepsApart(root: seq<string>, entry: string, reserved: seq<string>) {
    forall r, p | r in reserved :: !(Within(p, PlaceOf(root, entry)) && Within(p, Location(root, r)))
  }

  /**
   What the validator decides about one entry, where the reserved folders are judged rightly: the entry names a folder
   in the vault, and keeps apart from every reserved one.
   */
  lemma EntryOkIffApart(root: seq<string>, entry: string, reserved: seq<string>)
    requires entry != "" && AllNames(root) && forall r | r in reserved :: JudgedRightly(root, r)
    ensures EntryOk(entry, reserved) <==> ProperEntry(entry) && KeepsApart(root, entry, reserved)
  {
    if ".." !in Components(entry) {
      NormPathComponents(entry);
      hide NormalDir, DirsOverlap, KeptComponents, NormPath, Location, Nest, Within;
      var d := NormPath(entry);
      if d != "." {
        forall r | r in reserved
          ensures DirsOverlap(d, r) <==> exists p :: Within(p, PlaceOf(root, entry)) && Within(p, Location(root, r))
        {
          NestIffCommonPath(root + Components(d), Location(root, r));
        }
      }
    }
  }

  /** The fixed reserved folders always are; so the whole check is sound wherever the intake folder is. */
  lemma ReservedJudgedRightly(root: seq<string>, intakeDir: string)
    requires AllNames(root)
    ensures (forall r | r in Reserved(intakeDir) :: JudgedRightly(root, r)) <==> JudgedRightly(root, intakeDir)
  {
    hide JudgedRightly;
    var normal := "x";
    NamesXY();
    IndexOfIs(normal, '/', 1);
    assert SplitOn(normal, '/') == [normal];
    ReservedAreNormal(normal);
    assert intakeDir == Reserved(intakeDir)[8];
    forall r | r in Reserved(intakeDir) && r != intakeDir
      ensures JudgedRightly(root, r)
    {
      assert r in Reserved(normal);
      NormalDirEnds(r);
      NormalIsJudgedRightly(root, r);
    }
  }

  /**
   The validator end to end: with the intake folder judged rightly, a setting is accepted exactly when each of its
   non-empty entries names a folder in the vault that keeps apart from every reserved one.
   */
  lemma AcceptedIffApart(root: seq<string>, kbDirs: string, intakeDir: string)
    requires AllNames(root) && JudgedRightly(root, intakeDir)
    ensures CheckEntries(SplitOn(kbDirs, ','), Reserved(intakeDir)).Accepted? <==>
            forall e | e in SplitOn(kbDirs, ',') && Strip(e) != "" ::
              ProperEntry(Strip(e)) && KeepsApart(root, Strip(e), Reserved(intakeDir))
  {
    hide JudgedRightly, AllNames, SplitOn, Strip, Reserved, CheckEntries, EntryOk, ProperEntry, KeepsApart;
    var reserved := Reserved(intakeDir);
    ReservedJudgedRightly(root, intakeDir);
    AcceptedIffEntriesOk(SplitOn(kbDirs, ','), reserved);
    forall e | e in SplitOn(kbDirs, ',')
      ensures EntryOk(Strip(e), reserved) <==>
              Strip(e) == "" || (ProperEntry(Strip(e)) && KeepsApart(root, Strip(e), reserved))
    {
      EntryApart(root, Strip(e), reserved);
    }
  }

  /** An accepted entry neither lies in nor holds a folder the vault keeps for itself. */
  lemma OwnFoldersAreSpared(kbDirs: string, intakeDir: string, e: string, folder: string)
    requires CheckEntries(SplitOn(kbDirs, ','), Reserved(intakeDir)).Accepted?
    requires e in SplitOn(kbDirs, ',') && Strip(e) != ""
    requires folder in ["Tasks", "Journals", "A2A", "Agents", "Archive", "Reports", "_meta"]
    ensures var names := KeptComponents(Components(Strip(e)));
            !Nest(names, ["RoboFleet", folder]) && !Nest(names, [".obsidian"])
  {
    hide CheckEntries, Strip, SplitOn, EntryOk, KeptComponents;
    AcceptedIffEntriesOk(SplitOn(kbDirs, ','), Reserved(intakeDir));
    OwnFolderIsReserved(intakeDir, folder);
    EntryAvoids(Strip(e), Reserved(intakeDir), "RoboFleet/" + folder);
    EntryAvoids(Strip(e), Reserved(intakeDir), ".obsidian");
  }

  lemma EntryAvoids(entry: string, reserved: seq<string>, r: string)
    requires entry != "" && EntryOk(entry, reserved) && r in reserved && NormalDir(r)
    ensures !Nest(KeptComponents(Components(entry)), Components(r))
  {
    hide DirsOverlap, SplitOn, KeptComponents, NormPath;
    NormPathComponents(entry);
    OverlapIsNesting(NormPath(entry), r);
  }

  lemma OwnFolderIsReserved(intakeDir: string, folder: string)
    requires folder in ["Tasks", "Journals", "A2A", "Agents", "Archive", "Reports", "_meta"]
    ensures "RoboFleet/" + folder in Reserved(intakeDir) && ".obsidian" in Reserved(intakeDir)
    ensures NormalDir("RoboFleet/" + folder) && Components("RoboFleet/" + folder) == ["RoboFleet", folder]
    ensures NormalDir(".obsidian") && Components(".obsidian") == [".obsidian"]
  {
    hide SplitOn, NormalDir, Reserved;
    OwnFolderIsListed(intakeDir, folder);
    PlainFolder(folder);
    BothLevels(folder);
  }

  lemma BothLevels(folder: string)
    requires '/' !in folder && folder !in ["", ".", ".."]
    ensures NormalDir("RoboFleet/" + folder) && Components("RoboFleet/" + folder) == ["RoboFleet", folder]
    ensures NormalDir(".obsidian") && Components(".obsidian") == [".obsidian"]
  {
    hide SplitOn, NormalDir;
    var a, o := "RoboFleet", ".obsidian";
    assert '/' !in a && a !in ["", ".", ".."] && '/' !in o && o !in ["", ".", ".."];
    assert a + "/" + folder == "RoboFleet/" + folder;
    TwoLevels(a, folder);
    TwoLevels(a, o);
    SplitAppendLast(a, '/', folder);
    SplitWhole(folder, '/');
    SplitWhole(o, '/');
  }

  lemma OwnFolderIsListed(intakeDir: string, folder: string)
    requires folder in ["Tasks", "Journals", "A2A", "Agents", "Archive", "Reports", "_meta"]
    ensures "RoboFleet/" + folder in Reserved(intakeDir) && ".obsidian" in Reserved(intakeDir)
  {
    assert "RoboFleet/" + "Tasks" == "RoboFleet/Tasks" && "RoboFleet/" + "Journals" == "RoboFleet/Journals";
    assert "RoboFleet/" + "A2A" == "RoboFleet/A2A" && "RoboFleet/" + "Agents" == "RoboFleet/Agents";
    assert "RoboFleet/" + "Archive" == "RoboFleet/Archive" && "RoboFleet/" + "Reports" == "RoboFleet/Reports";
    assert "RoboFleet/" + "_meta" == "RoboFleet/_meta";
  }

  lemma PlainFolder(folder: string)
    requires folder in ["Tasks", "Journals", "A2A", "Agents", "Archive", "Reports", "_meta"]
    ensures '/' !in folder && folder !in ["", ".", ".."]
  {
  }

  lemma EntryApart(root: seq<string>, entry: string, reserved: seq<string>)
    requires AllNames(root) && forall r | r in reserved :: JudgedRightly(root, r)
    ensures EntryOk(entry, reserved) <==> entry == "" || (ProperEntry(entry) && KeepsApart(root, entry, reserved))
  {
    hide JudgedRightly, AllNames, ProperEntry, KeepsApart;
    if entry != "" {
      EntryOkIffApart(root, entry, reserved);
    }
  }

  lemma FirstOfTwo(a: string, b: string)
    requires '/' !in a
    ensures Components(a + "/" + b)[0] == a
  {
    SplitAppendLast(a, '/', b);
  }

  /** Every fixed reserved folder is in the projection's own folder, or is the editor's. */
  lemma FixedFolders(intakeDir: string, r: string)
    requires r in Reserved(intakeDir) && r != intakeDir
    ensures Components(r)[0] in ["RoboFleet", ".obsidian"]
  {
    hide SplitOn;
    var a := "RoboFleet";
    assert '/' !in a && '/' !in ".obsidian";
    SplitWhole(".obsidian", '/');
    FirstOfTwo(a, "Tasks");
    FirstOfTwo(a, "Journals");
    FirstOfTwo(a, "A2A");
    FirstOfTwo(a, "Agents");
    FirstOfTwo(a, "Archive");
    FirstOfTwo(a, "Reports");
    FirstOfTwo(a, "_meta");
    assert "RoboFleet/Tasks" == a + "/" + "Tasks";
    assert "RoboFleet/Journals" == a + "/" + "Journals";
    assert "RoboFleet/A2A" == a + "/" + "A2A";
    assert "RoboFleet/Agents" == a + "/" + "Agents";
    assert "RoboFleet/Archive" == a + "/" + "Archive";
    assert "RoboFleet/Reports" == a + "/" + "Reports";
    assert "RoboFleet/_meta" == a + "/" + "_meta";
  }

  /**
   The validator accepts the intake folder itself for ingest when the setting spells it with a leading dot, whatever
   its name.
   */
  lemma DottedIntakeIsAccepted(root: seq<string>, d: string)
    requires IsName(d) && Stripped(d) && ',' !in d && d !in ["RoboFleet", ".obsidian"]
    ensures CheckEntries(SplitOn(d, ','), Reserved("./" + d)).Accepted?
    ensures PlaceOf(root, d) == Location(root, "./" + d)
  {
    hide SplitOn, Reserved, CheckEntries, DirsOverlap, Location, Stripped, Strip, EntryOk, IsName, KeptComponents;
    DottedSpelling(d);
    NameEntry(d);
    DottedIntakeIsMissed(root, d);
    NameIsOk(root, d);
    AcceptedIffEntriesOk([d], Reserved("./" + d));
  }

  lemma NameIsOk(root: seq<string>, d: string)
    requires IsName(d) && Stripped(d) && ',' !in d && d !in ["RoboFleet", ".obsidian"]
    ensures EntryOk(d, Reserved("./" + d))
  {
    NameEntry(d);
    NoSlashFirst(d);
    DottedIntakeIsMissed(root, d);
    hide SplitOn, Reserved, DirsOverlap, Location, NormPath, NormalDir, Stripped, Strip, KeptComponents;
    forall r | r in Reserved("./" + d)
      ensures !DirsOverlap(d, r)
    {
      if r != "./" + d {
        NameIsElsewhere(d, "./" + d, r);
      }
    }
  }

  lemma NoSlashFirst(d: string)
    requires IsName(d)
    ensures !("/" <= d)
  {
    assert d[0] in d;
  }

  lemma NameEntry(d: string)
    requires IsName(d) && Stripped(d) && ',' !in d
    ensures SplitOn(d, ',') == [d] && SplitOn(d, '/') == [d] && Strip(d) == d
    ensures NormPath(d) == d && KeptComponents([d]) == [d]
  {
    hide SplitOn, Strip;
    SplitWhole(d, ',');
    SplitWhole(d, '/');
    TrimFixed(d);
    assert [d][1..] == [];
    assert KeptComponents([d]) == [d] + [];
  }

  lemma NameIsElsewhere(d: string, intakeDir: string, r: string)
    requires IsName(d) && d !in ["RoboFleet", ".obsidian"] && r in Reserved(intakeDir) && r != intakeDir
    ensures !DirsOverlap(d, r)
  {
    DottedSpelling(d);
    hide SplitOn, StripSlashes, Reserved, NormalDir, DirsOverlap;
    ReservedIsNormal(intakeDir, r, d);
    FixedFolders(intakeDir, r);
    OverlapIsNesting(d, r);
    assert Components(d)[0] != Components(r)[0];
  }

  lemma ReservedIsNormal(intakeDir: string, r: string, normal: string)
    requires r in Reserved(intakeDir) && r != intakeDir && NormalDir(normal)
    ensures NormalDir(r)
  {
    hide NormalDir;
    ReservedAreNormal(normal);
    assert r in Reserved(normal);
  }
}
