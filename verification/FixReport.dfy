/** Book-keeping about applied fixes and conflicts: pkg/fixer/report.go. */
module FixReport {
  import opened MapTotals

  type Path = string

  /** A fix of one file; the root is the project root it belongs to. */
  datatype FixResult = FixResult(title: string, root: Path, contents: string, rename: RenameRequest)

  datatype RenameRequest = Stay | Move(from: Path, to: Path)

  type FixLists = map<Path, seq<FixResult>>

  /** Per root and new path, the old paths that could not be moved there. */
  type Conflicts = map<Path, map<Path, seq<Path>>>

  datatype Books = Books(
    fileFixes: FixLists,
    movedFiles: map<Path, seq<Path>>,
    manyToOne: Conflicts,
    sourceFile: Conflicts,
    totalFixes: nat)

  const EMPTY_BOOKS := Books(map[], map[], map[], map[], 0)

  function ListAt<V>(m: map<Path, seq<V>>, path: Path): seq<V> {
    if path in m then m[path] else []
  }

  function Appended<V>(m: map<Path, seq<V>>, path: Path, v: V): map<Path, seq<V>> {
    m[path := ListAt(m, path) + [v]]
  }

  function WithConflict(c: Conflicts, root: Path, newPath: Path, oldPath: Path): Conflicts {
    c[root := Appended(if root in c then c[root] else map[], newPath, oldPath)]
  }

  function AfterAdd(b: Books, file: Path, fix: FixResult): Books {
    b.(fileFixes := Appended(b.fileFixes, file, fix), totalFixes := b.totalFixes + 1)
  }

  function AfterMerge(b: Books, path1: Path, path2: Path): Books {
    b.(fileFixes := b.fileFixes[path1 := ListAt(b.fileFixes, path1) + ListAt(b.fileFixes, path2)] - {path2})
  }

  /** The old paths registered for a root and a new path. */
  function OldPathsAt(c: Conflicts, root: Path, newPath: Path): seq<Path> {
    if root in c then ListAt(c[root], newPath) else []
  }

  class Report {
    var fileFixes: FixLists
    var movedFiles: map<Path, seq<Path>>
    var conflictsManyToOne: Conflicts
    var conflictsSourceFile: Conflicts
    var totalFixes: nat

    ghost function State(): Books
      reads this
    {
      Books(fileFixes, movedFiles, conflictsManyToOne, conflictsSourceFile, totalFixes)
    }

    constructor ()
      ensures State() == EMPTY_BOOKS
    {
      fileFixes, movedFiles, conflictsManyToOne, conflictsSourceFile, totalFixes := map[], map[], map[], map[], 0;
    }

    method AddFileFix(file: Path, fix: FixResult)
      modifies this
      ensures State() == AfterAdd(old(State()), file, fix)
      ensures totalFixes == old(totalFixes) + 1
      ensures forall p :: ListAt(fileFixes, p) == old(ListAt(fileFixes, p)) + if p == file then [fix] else []
    {
      fileFixes := fileFixes[file := ListAt(fileFixes, file) + [fix]];
      totalFixes := totalFixes + 1;
    }

    method MergeFixes(path1: Path, path2: Path)
      modifies this
      ensures State() == AfterMerge(old(State()), path1, path2)
      ensures totalFixes == old(totalFixes) && path2 !in fileFixes
      ensures path1 != path2 ==> ListAt(fileFixes, path1) == old(ListAt(fileFixes, path1) + ListAt(fileFixes, path2))
      ensures forall p :: p != path1 && p != path2 ==> ListAt(fileFixes, p) == old(ListAt(fileFixes, p))
    {
      fileFixes := fileFixes[path1 := ListAt(fileFixes, path1) + ListAt(fileFixes, path2)];
      fileFixes := fileFixes - {path2};
    }

    method RegisterOldPathForFile(newPath: Path, oldPath: Path)
      modifies this
      ensures State() == old(State()).(movedFiles := Appended(old(movedFiles), newPath, oldPath))
      ensures forall p :: ListAt(movedFiles, p) == old(ListAt(movedFiles, p)) + if p == newPath then [oldPath] else []
    {
      movedFiles := movedFiles[newPath := ListAt(movedFiles, newPath) + [oldPath]];
    }

    method RegisterConflictManyToOne(root: Path, newPath: Path, oldPath: Path)
      modifies this
      ensures State() == old(State()).(manyToOne := WithConflict(old(conflictsManyToOne), root, newPath, oldPath))
      ensures forall r, p :: OldPathsAt(conflictsManyToOne, r, p) ==
                             old(OldPathsAt(conflictsManyToOne, r, p)) +
                             if r == root && p == newPath then [oldPath] else []
    {
      if root !in conflictsManyToOne {
        conflictsManyToOne := conflictsManyToOne[root := map[]];
      }
      if newPath !in conflictsManyToOne[root] {
        conflictsManyToOne := conflictsManyToOne[root := conflictsManyToOne[root][newPath := []]];
      }
      var list := conflictsManyToOne[root][newPath];
      conflictsManyToOne := conflictsManyToOne[root := conflictsManyToOne[root][newPath := list + [oldPath]]];
      assert conflictsManyToOne[root] == WithConflict(old(conflictsManyToOne), root, newPath, oldPath)[root];
      assert conflictsManyToOne == WithConflict(old(conflictsManyToOne), root, newPath, oldPath);
    }

    method RegisterConflictSourceFile(root: Path, newPath: Path, oldPath: Path)
      modifies this
      ensures State() == old(State()).(sourceFile := WithConflict(old(conflictsSourceFile), root, newPath, oldPath))
      ensures forall r, p :: OldPathsAt(conflictsSourceFile, r, p) ==
                             old(OldPathsAt(conflictsSourceFile, r, p)) +
                             if r == root && p == newPath then [oldPath] else []
    {
      if root !in conflictsSourceFile {
        conflictsSourceFile := conflictsSourceFile[root := map[]];
      }
      if newPath !in conflictsSourceFile[root] {
        conflictsSourceFile := conflictsSourceFile[root := conflictsSourceFile[root][newPath := []]];
      }
      var list := conflictsSourceFile[root][newPath];
      conflictsSourceFile := conflictsSourceFile[root := conflictsSourceFile[root][newPath := list + [oldPath]]];
      assert conflictsSourceFile[root] == WithConflict(old(conflictsSourceFile), root, newPath, oldPath)[root];
      assert conflictsSourceFile == WithConflict(old(conflictsSourceFile), root, newPath, oldPath);
    }

    method HasConflicts() returns (r: bool)
      ensures r == AnyConflicts(State())
    {
      r := |conflictsManyToOne| > 0 || |conflictsSourceFile| > 0;
    }
  }

  predicate AnyConflicts(b: Books) {
    b.manyToOne != map[] || b.sourceFile != map[]
  }

  // ----- Counting -----

  function Length<V>(s: seq<V>): nat {
    |s|
  }

  /** All fixes listed for any file. */
  ghost function ListedFixes(fixes: FixLists): nat {
    Total(fixes, Length)
  }

  ghost function PathConflicts(c: map<Path, seq<Path>>): nat {
    Total(c, Length)
  }

  /** All old paths registered for any root and new path. */
  ghost function CountConflicts(c: Conflicts): nat {
    Total(c, PathConflicts)
  }

  ghost function TotalConflicts(b: Books): nat {
    CountConflicts(b.manyToOne) + CountConflicts(b.sourceFile)
  }

  /** The counter agrees with the lists. */
  ghost predicate Balanced(b: Books) {
    b.totalFixes == ListedFixes(b.fileFixes)
  }

  lemma ListedAfterAppend<V>(m: map<Path, seq<V>>, path: Path, v: V)
    ensures Total(Appended(m, path, v), Length) == Total(m, Length) + 1
  {
    TotalUpdate(m, Length, path, ListAt(m, path) + [v]);
  }

  lemma AddKeepsBalance(b: Books, file: Path, fix: FixResult)
    requires Balanced(b)
    ensures Balanced(AfterAdd(b, file, fix))
  {
    ListedAfterAppend(b.fileFixes, file, fix);
  }

  /** Merging keeps all fixes, unless a path with fixes is merged with itself: those are lost. */
  lemma MergeKeepsFixes(b: Books, path1: Path, path2: Path)
    ensures ListedFixes(AfterMerge(b, path1, path2).fileFixes) ==
            ListedFixes(b.fileFixes) - if path1 == path2 then |ListAt(b.fileFixes, path1)| else 0
  {
    var m := b.fileFixes;
    var list := ListAt(m, path1) + ListAt(m, path2);
    TotalUpdate(m, Length, path1, list);
    TotalRemove(m[path1 := list], Length, path2);
  }

  lemma ConflictCounted(c: Conflicts, root: Path, newPath: Path, oldPath: Path)
    ensures CountConflicts(WithConflict(c, root, newPath, oldPath)) == CountConflicts(c) + 1
  {
    var inner := if root in c then c[root] else map[];
    ListedAfterAppend(inner, newPath, oldPath);
    TotalUpdate(c, PathConflicts, root, Appended(inner, newPath, oldPath));
    assert PathConflicts(map[]) == 0;
  }

  /** Every registered root has a conflict. */
  ghost predicate NoEmptyConflicts(c: Conflicts) {
    forall root :: root in c ==> PathConflicts(c[root]) > 0
  }

  lemma ConflictsMeanCount(c: Conflicts)
    requires NoEmptyConflicts(c)
    ensures c != map[] <==> CountConflicts(c) > 0
  {
    if c != map[] {
      var root :| root in c;
      TotalSplit(c, PathConflicts, root);
    }
  }
}
