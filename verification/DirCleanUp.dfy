/** Finding the directories that a deletion leaves empty: internal/io/io.go. */
module DirCleanUp {

  /** A clean absolute path. */
  datatype Path = Root | In(dir: Path, name: string)

  /** filepath.Dir, which stays at the root. */
  function Dir(p: Path): Path {
    if p.Root? then Root else p.dir
  }

  function Depth(p: Path): nat {
    if p.Root? then 0 else 1 + Depth(p.dir)
  }

  predicate IsAbove(q: Path, p: Path) {
    p.In? && (q == p.dir || IsAbove(q, p.dir))
  }

  /** All directories, with the names in them. */
  type FileSystem = map<Path, seq<string>>

  ghost predicate WellFormed(fs: FileSystem) {
    forall p :: p in fs && p.In? ==> p.dir in fs && p.name in fs[p.dir]
  }

  datatype Result = Paths(dirs: seq<Path>) | NotADirectory(at: Path)

  // ----- Preserved directories -----

  /** A path keeps itself and, except for the root, what is above it. */
  predicate KeptFor(p: Path, q: Path) {
    q == p || (q.In? && IsAbove(q, p))
  }

  ghost predicate IsKept(preserve: seq<Path>, q: Path) {
    exists i :: 0 <= i < |preserve| && KeptFor(preserve[i], q)
  }

  ghost predicate IsClosed(kept: set<Path>) {
    forall q :: q in kept && q.In? && q.dir.In? ==> q.dir in kept
  }

  lemma {:induction false} ClosedKeepsAbove(kept: set<Path>, p: Path, q: Path)
    requires IsClosed(kept) && p in kept && KeptFor(p, q)
    ensures q in kept
  {
    if q != p {
      if p.dir != q {
        assert IsAbove(q, p.dir);
      }
      ClosedKeepsAbove(kept, p.dir, q);
    }
  }

  method PreserveDirs(preserve: seq<Path>) returns (kept: set<Path>)
    ensures forall q :: q in kept <==> IsKept(preserve, q)
  {
    kept := {};
    for i := 0 to |preserve|
      invariant IsClosed(kept)
      invariant forall q :: q in kept <==> IsKept(preserve[..i], q)
    {
      KeptByOneMore(preserve, i);
      kept := AddUpwards(kept, preserve[i]);
    }
    assert preserve[..|preserve|] == preserve;
  }

  lemma KeptByOneMore(preserve: seq<Path>, i: nat)
    requires i < |preserve|
    ensures forall q :: IsKept(preserve[..i + 1], q) <==> IsKept(preserve[..i], q) || KeptFor(preserve[i], q)
  {
    forall q
      ensures IsKept(preserve[..i + 1], q) <==> IsKept(preserve[..i], q) || KeptFor(preserve[i], q)
    {
      if IsKept(preserve[..i], q) {
        var j :| 0 <= j < i && KeptFor(preserve[..i][j], q);
        assert KeptFor(preserve[..i + 1][j], q);
      }
      if KeptFor(preserve[i], q) {
        assert KeptFor(preserve[..i + 1][i], q);
      }
      if IsKept(preserve[..i + 1], q) && !KeptFor(preserve[i], q) {
        var j :| 0 <= j < i + 1 && KeptFor(preserve[..i + 1][j], q);
        assert KeptFor(preserve[..i][j], q);
      }
    }
  }

  /** The walk from one path upwards stops below the root, or where an earlier walk has been. */
  method AddUpwards(before: set<Path>, path: Path) returns (kept: set<Path>)
    requires IsClosed(before)
    ensures IsClosed(kept)
    ensures forall q :: q in kept <==> q in before || KeptFor(path, q)
  {
    var p := path;
    kept := before;
    while true
      invariant before <= kept
      invariant forall q :: q in before || KeptFor(path, q) <==> q in kept || KeptFor(p, q)
      invariant forall q :: q in kept && q !in before ==> Depth(q) > Depth(p)
      decreases Depth(p)
    {
      kept := kept + {p};
      StepUp(p);
      p := Dir(p);
      if p == Root {
        break;
      }
      if p in kept {
        forall q | KeptFor(p, q)
          ensures q in kept
        {
          ClosedKeepsAbove(before, p, q);
        }
        break;
      }
    }
    UnionIsClosed(before, path, kept);
  }

  lemma StepUp(p: Path)
    ensures forall q :: KeptFor(p, q) <==> q == p || (Dir(p).In? && KeptFor(Dir(p), q))
  {
    forall q
      ensures KeptFor(p, q) <==> q == p || (Dir(p).In? && KeptFor(Dir(p), q))
    {
      if p.In? && p.dir.Root? {
        assert !IsAbove(q, p.dir);
      }
    }
  }

  lemma UnionIsClosed(before: set<Path>, path: Path, kept: set<Path>)
    requires IsClosed(before) && forall q :: q in kept <==> q in before || KeptFor(path, q)
    ensures IsClosed(kept)
  {
    forall q | q in kept && q.In? && q.dir.In?
      ensures q.dir in kept
    {
      if KeptFor(path, q) && q != path {
        AboveAbove(q, path);
      }
    }
  }

  lemma {:induction false} AboveAbove(q: Path, p: Path)
    requires q.In? && IsAbove(q, p)
    ensures IsAbove(q.dir, p)
  {
    if q != p.dir {
      AboveAbove(q, p.dir);
    }
  }

  // ----- The chain of directories -----

  /** The directory to look at after these. */
  function Next(target: Path, dirs: seq<Path>): Path {
    Dir(if dirs == [] then target else dirs[|dirs| - 1])
  }

  /** Nothing is in d but the target and directories that are gone before it. */
  ghost predicate EmptyAfter(fs: FileSystem, target: Path, dirs: seq<Path>, d: Path)
    requires d in fs
  {
    forall i :: 0 <= i < |fs[d]| ==> In(d, fs[d][i]) == target || In(d, fs[d][i]) in dirs
  }

  ghost predicate CanFollow(fs: FileSystem, target: Path, preserve: seq<Path>, dirs: seq<Path>, d: Path) {
    && d == Next(target, dirs) && d !in dirs
    && !IsKept(preserve, d) && d in fs && EmptyAfter(fs, target, dirs, d)
  }

  ghost predicate IsCleanUp(fs: FileSystem, target: Path, preserve: seq<Path>, dirs: seq<Path>) {
    dirs != [] ==>
      var n := |dirs| - 1;
      IsCleanUp(fs, target, preserve, dirs[..n]) && CanFollow(fs, target, preserve, dirs[..n], dirs[n])
  }

  /** Nothing can be added. */
  ghost predicate IsComplete(fs: FileSystem, target: Path, preserve: seq<Path>, dirs: seq<Path>) {
    IsCleanUp(fs, target, preserve, dirs) && forall d :: !CanFollow(fs, target, preserve, dirs, d)
  }

  /** What the search takes for an empty directory: it has skipped all entries. */
  ghost predicate AllSkipped(fs: FileSystem, target: Path, dirs: seq<Path>, d: Path)
    requires d in fs
  {
    forall i :: 0 <= i < |fs[d]| ==> IsSkipped(fs, target, dirs, In(d, fs[d][i]))
  }

  predicate IsSkipped(fs: FileSystem, target: Path, dirs: seq<Path>, entry: Path) {
    entry == target || (entry in fs && dirs != [] && dirs[|dirs| - 1] == entry)
  }

  /** The target is all there is below a root that is not preserved. */
  ghost predicate IsStuck(fs: FileSystem, target: Path, preserve: seq<Path>) {
    && Dir(target) == Root && Root !in preserve && Root in fs
    && forall i :: 0 <= i < |fs[Root]| ==> In(Root, fs[Root][i]) == target
  }

  /** The chain goes up: it has been below where it goes next, unless that is the root. */
  lemma {:induction false} ChainGoesUp(fs: FileSystem, target: Path, preserve: seq<Path>, dirs: seq<Path>)
    requires IsCleanUp(fs, target, preserve, dirs)
    ensures forall i :: 0 <= i < |dirs| ==> dirs[i] in fs
    ensures forall i :: 0 <= i < |dirs| ==> Next(target, dirs) == Root || Depth(dirs[i]) > Depth(Next(target, dirs))
    ensures forall i :: 0 <= i < |dirs| - 1 ==> dirs[i].In? && dirs[i + 1] == dirs[i].dir
    ensures target.In? ==> forall i :: 0 <= i < |dirs| ==> Depth(dirs[i]) < Depth(target)
    decreases |dirs|
  {
    if dirs != [] {
      var n := |dirs| - 1;
      ChainGoesUp(fs, target, preserve, dirs[..n]);
      assert forall i :: 0 <= i < n ==> dirs[..n][i] == dirs[i];
      assert n > 0 ==> dirs[n - 1] in dirs[..n];
    }
  }

  /** The search skips all entries exactly if the directory can follow. */
  lemma SkippedIsGone(fs: FileSystem, target: Path, preserve: seq<Path>, dirs: seq<Path>)
    requires WellFormed(fs) && !IsStuck(fs, target, preserve)
    requires IsCleanUp(fs, target, preserve, dirs)
    requires !IsKept(preserve, Next(target, dirs)) && Next(target, dirs) in fs
    ensures AllSkipped(fs, target, dirs, Next(target, dirs)) <==>
            CanFollow(fs, target, preserve, dirs, Next(target, dirs))
  {
    var d := Next(target, dirs);
    ChainGoesUp(fs, target, preserve, dirs);
    if d in dirs {
      NotTwice(fs, target, preserve, dirs);
    } else {
      forall j | 0 <= j < |dirs| - 1
        ensures dirs[j].dir in dirs
      {
        assert dirs[j + 1] == dirs[j].dir;
      }
    }
  }

  /** The search does not go on at the root. */
  lemma NotTwice(fs: FileSystem, target: Path, preserve: seq<Path>, dirs: seq<Path>)
    requires WellFormed(fs) && !IsStuck(fs, target, preserve)
    requires IsCleanUp(fs, target, preserve, dirs) && Next(target, dirs) in dirs
    ensures Next(target, dirs) == Root && Root in fs && !AllSkipped(fs, target, dirs, Root)
  {
    ChainGoesUp(fs, target, preserve, dirs);
    var n := |dirs| - 1;
    var j :| 0 <= j <= n && dirs[j] == Root;
    assert j == n;
    assert CanFollow(fs, target, preserve, dirs[..n], dirs[n]);
    if n == 0 {
      RootAlone(fs, target, preserve);
    } else {
      var child := dirs[n - 1];
      assert child in fs && child.name in fs[Root];
      var i :| 0 <= i < |fs[Root]| && fs[Root][i] == child.name;
      assert !IsSkipped(fs, target, dirs, In(Root, fs[Root][i]));
    }
  }

  /** The root is only kept if it is itself preserved. */
  lemma RootKept(preserve: seq<Path>)
    ensures IsKept(preserve, Root) <==> Root in preserve
  {
    assert forall i :: 0 <= i < |preserve| ==> (KeptFor(preserve[i], Root) <==> preserve[i] == Root);
  }

  lemma RootAlone(fs: FileSystem, target: Path, preserve: seq<Path>)
    requires CanFollow(fs, target, preserve, [], Root)
    ensures IsStuck(fs, target, preserve)
  {
    RootKept(preserve);
  }

  lemma OneFound(fs: FileSystem, target: Path, preserve: seq<Path>, dirs: seq<Path>, d: Path)
    requires IsCleanUp(fs, target, preserve, dirs) && CanFollow(fs, target, preserve, dirs, d)
    ensures IsCleanUp(fs, target, preserve, dirs + [d])
  {
    assert (dirs + [d])[..|dirs|] == dirs;
  }

  method DirCleanUpPaths(fs: FileSystem, target: Path, preserve: seq<Path>) returns (r: Result)
    requires WellFormed(fs) && !IsStuck(fs, target, preserve)
    ensures r.Paths? ==> IsComplete(fs, target, preserve, r.dirs)
    ensures r.NotADirectory? ==> exists dirs :: IsCleanUp(fs, target, preserve, dirs) &&
                                                r.at == Next(target, dirs) && !IsKept(preserve, r.at) && r.at !in fs
  {
    var kept := PreserveDirs(preserve);
    var dirs: seq<Path> := [];
    var dir := Dir(target);
    while dir !in kept
      invariant IsCleanUp(fs, target, preserve, dirs) && dir == Next(target, dirs)
      decreases Depth(dir), dir !in dirs
    {
      if dir !in fs {
        return NotADirectory(dir);
      }
      var empty := IsEmpty(fs, target, dirs, dir);
      SkippedIsGone(fs, target, preserve, dirs);
      if !empty {
        break;
      }
      OneFound(fs, target, preserve, dirs, dir);
      dirs := dirs + [dir];
      dir := Dir(dir);
    }
    r := Paths(dirs);
  }

  /** Whether the listing of a directory holds nothing that counts. */
  method IsEmpty(fs: FileSystem, target: Path, dirs: seq<Path>, dir: Path) returns (empty: bool)
    requires dir in fs
    ensures empty <==> AllSkipped(fs, target, dirs, dir)
  {
    empty := true;
    var files := fs[dir];
    for i := 0 to |files|
      invariant forall j :: 0 <= j < i ==> IsSkipped(fs, target, dirs, In(dir, files[j]))
    {
      var abs := In(dir, files[i]);
      if abs == target {
        continue;
      }
      if abs in fs && |dirs| > 0 && dirs[|dirs| - 1] == abs {
        continue;
      }
      return false;
    }
  }

  // ----- When the search ends -----

  /** A turn of the search leads to another. */
  ghost predicate GoesOn(fs: FileSystem, target: Path, preserve: seq<Path>, dirs: seq<Path>, dir: Path) {
    !IsKept(preserve, dir) && dir in fs && AllSkipped(fs, target, dirs, dir)
  }

  /** The search, with these directories found and dir to look at, is still running after n turns. */
  ghost predicate RunsFor(fs: FileSystem, target: Path, preserve: seq<Path>, dirs: seq<Path>, dir: Path, n: nat)
    decreases n
  {
    n == 0 ||
    (GoesOn(fs, target, preserve, dirs, dir) && RunsFor(fs, target, preserve, dirs + [dir], Dir(dir), n - 1))
  }

  lemma {:induction false} RunsAtRoot(fs: FileSystem, target: Path, preserve: seq<Path>, dirs: seq<Path>, n: nat)
    requires IsStuck(fs, target, preserve)
    ensures RunsFor(fs, target, preserve, dirs, Root, n)
    decreases n
  {
    if n > 0 {
      RootKept(preserve);
      RunsAtRoot(fs, target, preserve, dirs + [Root], n - 1);
    }
  }

  /** Every turn goes up, or, at the root, comes to a directory that has been found. */
  function TurnsLeft(dirs: seq<Path>, dir: Path): nat {
    Depth(dir) + if dir in dirs then 0 else 1
  }

  lemma {:induction false} RunsOut(fs: FileSystem, target: Path, preserve: seq<Path>, dirs: seq<Path>, n: nat)
    requires WellFormed(fs) && !IsStuck(fs, target, preserve) && IsCleanUp(fs, target, preserve, dirs)
    requires n > TurnsLeft(dirs, Next(target, dirs))
    ensures !RunsFor(fs, target, preserve, dirs, Next(target, dirs), n)
    decreases n
  {
    var dir := Next(target, dirs);
    if GoesOn(fs, target, preserve, dirs, dir) {
      TurnGoesUp(fs, target, preserve, dirs);
      RunsOut(fs, target, preserve, dirs + [dir], n - 1);
    }
  }

  lemma TurnGoesUp(fs: FileSystem, target: Path, preserve: seq<Path>, dirs: seq<Path>)
    requires WellFormed(fs) && !IsStuck(fs, target, preserve) && IsCleanUp(fs, target, preserve, dirs)
    requires GoesOn(fs, target, preserve, dirs, Next(target, dirs))
    ensures var dir := Next(target, dirs);
      && IsCleanUp(fs, target, preserve, dirs + [dir]) && Next(target, dirs + [dir]) == Dir(dir)
      && TurnsLeft(dirs + [dir], Dir(dir)) < TurnsLeft(dirs, dir)
  {
    SkippedIsGone(fs, target, preserve, dirs);
    OneFound(fs, target, preserve, dirs, Next(target, dirs));
  }

  /** The search runs forever exactly if the target is the only entry of a root that is not preserved. */
  lemma RunsForeverIffStuck(fs: FileSystem, target: Path, preserve: seq<Path>)
    requires WellFormed(fs)
    ensures (forall n :: RunsFor(fs, target, preserve, [], Dir(target), n)) <==> IsStuck(fs, target, preserve)
  {
    if IsStuck(fs, target, preserve) {
      forall n
        ensures RunsFor(fs, target, preserve, [], Dir(target), n)
      {
        RunsAtRoot(fs, target, preserve, [], n);
      }
    } else {
      RunsOut(fs, target, preserve, [], Depth(Dir(target)) + 2);
    }
  }

  /** For example with nothing but /t on disk, and nothing preserved. */
  lemma LoneFileIsStuck()
    ensures var fs: FileSystem := map[Root := ["t"]];
      WellFormed(fs) && IsStuck(fs, In(Root, "t"), [])
  {
  }

  // ----- What the answer means -----

  /** There is only one complete chain. */
  lemma CompleteIsUnique(fs: FileSystem, target: Path, preserve: seq<Path>, a: seq<Path>, b: seq<Path>)
    requires IsComplete(fs, target, preserve, a) && IsComplete(fs, target, preserve, b)
    ensures a == b
  {
    CompleteIsLongest(fs, target, preserve, a, b);
    CompleteIsLongest(fs, target, preserve, b, a);
  }

  lemma {:induction false} CompleteIsLongest(fs: FileSystem, target: Path, preserve: seq<Path>, a: seq<Path>,
      b: seq<Path>)
    requires IsComplete(fs, target, preserve, a) && IsCleanUp(fs, target, preserve, b)
    ensures b <= a
    decreases |b|
  {
    if b != [] {
      var n := |b| - 1;
      CompleteIsLongest(fs, target, preserve, a, b[..n]);
      assert a[..n] == b[..n] && a[..|a|] == a && b == b[..n] + [b[n]];
      if n < |a| {
        FollowsPart(fs, target, preserve, a, n);
      }
    }
  }

  lemma {:induction false} FollowsPart(fs: FileSystem, target: Path, preserve: seq<Path>, dirs: seq<Path>, i: nat)
    requires IsCleanUp(fs, target, preserve, dirs) && i < |dirs|
    ensures CanFollow(fs, target, preserve, dirs[..i], dirs[i])
    decreases |dirs|
  {
    var n := |dirs| - 1;
    if i < n {
      FollowsPart(fs, target, preserve, dirs[..n], i);
      assert dirs[..n][..i] == dirs[..i];
    }
  }

  /** os.Remove of a path: it leaves the listing it is in. */
  function Removed(fs: FileSystem, p: Path): FileSystem {
    var rest := fs - {p};
    if p.In? && p.dir in rest then rest[p.dir := Without(rest[p.dir], p.name)] else rest
  }

  function Without(names: seq<string>, name: string): seq<string> {
    if names == [] then []
    else (if names[0] == name then [] else [names[0]]) + Without(names[1..], name)
  }

  function AllRemoved(fs: FileSystem, target: Path, dirs: seq<Path>): FileSystem {
    if dirs == [] then Removed(fs, target)
    else Removed(AllRemoved(fs, target, dirs[..|dirs| - 1]), dirs[|dirs| - 1])
  }

  lemma {:induction false} WithoutHas(names: seq<string>, name: string, other: string)
    ensures other in Without(names, name) <==> other in names && other != name
  {
    if names != [] {
      WithoutHas(names[1..], name, other);
    }
  }

  lemma {:induction false} StillListed(fs: FileSystem, target: Path, dirs: seq<Path>, d: Path, name: string)
    requires d in fs && d != target && d !in dirs
    ensures var left := AllRemoved(fs, target, dirs);
      d in left && (name in left[d] <==> name in fs[d] && In(d, name) != target && In(d, name) !in dirs)
  {
    var n := |dirs| - 1;
    if dirs != [] {
      StillListed(fs, target, dirs[..n], d, name);
      assert dirs == dirs[..n] + [dirs[n]];
    }
    var left := if dirs == [] then fs else AllRemoved(fs, target, dirs[..n]);
    var p := if dirs == [] then target else dirs[n];
    if p.In? && p.dir == d {
      WithoutHas(left[d], p.name, name);
    }
  }

  /** Deleting the target and then the directories in order, each is empty when its turn comes. */
  lemma RemovalsSucceed(fs: FileSystem, target: Path, preserve: seq<Path>, dirs: seq<Path>, i: nat)
    requires IsCleanUp(fs, target, preserve, dirs) && i < |dirs| && target.In?
    ensures var left := AllRemoved(fs, target, dirs[..i]);
      dirs[i] in left && left[dirs[i]] == []
  {
    FollowsPart(fs, target, preserve, dirs, i);
    ChainGoesUp(fs, target, preserve, dirs);
    var left := AllRemoved(fs, target, dirs[..i]);
    var d := dirs[i];
    StillListed(fs, target, dirs[..i], d, "");
    assert left[d] == [] || left[d][0] in left[d];
    forall name
      ensures name !in left[d]
    {
      StillListed(fs, target, dirs[..i], d, name);
    }
  }

  /** Neither a preserved path nor, but for the root, a directory above one is found. */
  lemma PreservedStay(fs: FileSystem, target: Path, preserve: seq<Path>, dirs: seq<Path>, d: Path, p: Path)
    requires IsCleanUp(fs, target, preserve, dirs) && d in dirs && p in preserve
    ensures d != p && (IsAbove(d, p) ==> d == Root)
  {
    var i :| 0 <= i < |dirs| && dirs[i] == d;
    FollowsPart(fs, target, preserve, dirs, i);
    var j :| 0 <= j < |preserve| && preserve[j] == p;
    assert !KeptFor(preserve[j], d);
  }

  /** Nor is the root, when some preserved path is above the target. */
  lemma RootStays(fs: FileSystem, target: Path, preserve: seq<Path>, dirs: seq<Path>, p: Path)
    requires IsCleanUp(fs, target, preserve, dirs) && p in preserve && IsAbove(p, target)
    ensures Root !in dirs && !IsStuck(fs, target, preserve)
  {
    ChainHasAllBelow(fs, target, preserve, dirs, p);
    if p in dirs {
      PreservedStay(fs, target, preserve, dirs, p, p);
    }
  }

  /** A chain that has not come to p, which is above the target, is below p. */
  lemma {:induction false} ChainHasAllBelow(fs: FileSystem, target: Path, preserve: seq<Path>, dirs: seq<Path>, p: Path)
    requires IsCleanUp(fs, target, preserve, dirs) && IsAbove(p, target)
    ensures p in dirs || (Root !in dirs && IsAbove(p, if dirs == [] then target else dirs[|dirs| - 1]))
    decreases |dirs|
  {
    if dirs != [] {
      var n := |dirs| - 1;
      ChainHasAllBelow(fs, target, preserve, dirs[..n], p);
      assert dirs == dirs[..n] + [dirs[n]];
    }
  }

  /** On the way up to the root there is nothing but the way itself, and nothing is kept. */
  ghost predicate IsClear(fs: FileSystem, preserve: seq<Path>, p: Path) {
    p.In? ==>
      && p.dir in fs && !IsKept(preserve, p.dir)
      && (forall i :: 0 <= i < |fs[p.dir]| ==> In(p.dir, fs[p.dir][i]) == p)
      && IsClear(fs, preserve, p.dir)
  }

  /** The root is found exactly if the way up to it is clear. */
  lemma RootFoundIffClear(fs: FileSystem, target: Path, preserve: seq<Path>, dirs: seq<Path>)
    requires target.In? && IsComplete(fs, target, preserve, dirs)
    ensures Root in dirs <==> IsClear(fs, preserve, target)
  {
    if IsClear(fs, preserve, target) {
      if Root !in dirs {
        ClearFollows(fs, target, preserve, dirs);
      }
    }
    if Root in dirs {
      FoundIsClear(fs, target, preserve, dirs, 0);
      assert dirs[..0] == [];
    }
  }

  function LastOf(target: Path, dirs: seq<Path>): Path {
    if dirs == [] then target else dirs[|dirs| - 1]
  }

  /** While the root has not been found, the way from the last directory on is clear as well. */
  lemma {:induction false} ClearAbove(fs: FileSystem, target: Path, preserve: seq<Path>, dirs: seq<Path>)
    requires IsCleanUp(fs, target, preserve, dirs) && IsClear(fs, preserve, target)
    ensures IsClear(fs, preserve, LastOf(target, dirs))
    decreases |dirs|
  {
    if dirs != [] {
      ClearAbove(fs, target, preserve, dirs[..|dirs| - 1]);
    }
  }

  lemma ClearFollows(fs: FileSystem, target: Path, preserve: seq<Path>, dirs: seq<Path>)
    requires target.In? && IsCleanUp(fs, target, preserve, dirs) && IsClear(fs, preserve, target) && Root !in dirs
    ensures CanFollow(fs, target, preserve, dirs, Next(target, dirs))
  {
    ClearAbove(fs, target, preserve, dirs);
    ChainGoesUp(fs, target, preserve, dirs);
    assert LastOf(target, dirs).In?;
  }

  /** From the root down, each directory found has nothing in it but the one found before. */
  lemma {:induction false} FoundIsClear(fs: FileSystem, target: Path, preserve: seq<Path>, dirs: seq<Path>, i: nat)
    requires target.In? && IsCleanUp(fs, target, preserve, dirs) && Root in dirs && i <= |dirs|
    ensures IsClear(fs, preserve, LastOf(target, dirs[..i]))
    decreases |dirs| - i
  {
    ChainGoesUp(fs, target, preserve, dirs);
    if i < |dirs| {
      FollowsPart(fs, target, preserve, dirs, i);
      FoundIsClear(fs, target, preserve, dirs, i + 1);
      assert dirs[..i + 1][i] == dirs[i];
      OnlyTheWay(fs, target, preserve, dirs, i);
    } else {
      assert dirs[..i] == dirs;
      var j :| 0 <= j < |dirs| && dirs[j] == Root;
    }
  }

  lemma OnlyTheWay(fs: FileSystem, target: Path, preserve: seq<Path>, dirs: seq<Path>, i: nat)
    requires target.In? && IsCleanUp(fs, target, preserve, dirs) && i < |dirs|
    ensures CanFollow(fs, target, preserve, dirs[..i], dirs[i])
    ensures forall k :: 0 <= k < |fs[dirs[i]]| ==> In(dirs[i], fs[dirs[i]][k]) == LastOf(target, dirs[..i])
  {
    ChainGoesUp(fs, target, preserve, dirs);
    FollowsPart(fs, target, preserve, dirs, i);
    FollowsPart(fs, target, preserve, dirs, 0);
    assert dirs[..0] == [] && dirs[0] == target.dir;
    forall j | 0 <= j < i - 1
      ensures dirs[j].dir in dirs[..i]
    {
      assert dirs[j].dir == dirs[..i][j + 1];
    }
    assert i > 0 ==> dirs[0] == dirs[..i][0];
    assert forall j :: 0 <= j < i ==> dirs[..i][j] == dirs[j];
  }

  lemma {:induction false} RootAbove(p: Path)
    requires p.In?
    ensures IsAbove(Root, p)
  {
    if p.dir.In? {
      RootAbove(p.dir);
    }
  }

  /** A directory above a preserved path is found exactly if the way to the root is clear and anything is preserved. */
  lemma AbovePreservedIffClear(fs: FileSystem, target: Path, preserve: seq<Path>, dirs: seq<Path>)
    requires target.In? && IsComplete(fs, target, preserve, dirs)
    ensures (exists d, p :: d in dirs && p in preserve && IsAbove(d, p)) <==>
            preserve != [] && IsClear(fs, preserve, target)
  {
    RootFoundIffClear(fs, target, preserve, dirs);
    forall d, p | d in dirs && p in preserve && IsAbove(d, p)
      ensures Root in dirs
    {
      PreservedStay(fs, target, preserve, dirs, d, p);
    }
    if preserve != [] && Root in dirs {
      var p := preserve[0];
      if p == Root {
        PreservedStay(fs, target, preserve, dirs, Root, p);
      } else {
        RootAbove(p);
        assert p in preserve;
      }
    }
  }

  /** With nothing but /a/t on disk and /x preserved, the root is found, which is above /x. */
  lemma RootIsFoundAboveX()
    ensures var fs: FileSystem := map[Root := ["a"], In(Root, "a") := ["t"]];
      var target, preserve := In(In(Root, "a"), "t"), [In(Root, "x")];
      && WellFormed(fs) && !IsStuck(fs, target, preserve)
      && IsComplete(fs, target, preserve, [In(Root, "a"), Root]) && IsAbove(Root, preserve[0])
  {
    var fs: FileSystem := map[Root := ["a"], In(Root, "a") := ["t"]];
    var target, preserve, a := In(In(Root, "a"), "t"), [In(Root, "x")], In(Root, "a");
    RootKept(preserve);
    assert KeptFor(preserve[0], a) == false;
    assert [a, Root][..1] == [a] && [a][..0] == [];
    assert CanFollow(fs, target, preserve, [], a);
    assert CanFollow(fs, target, preserve, [a], Root);
  }
}
