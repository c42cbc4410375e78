/** The files a fix run works on, and what is written back to disk afterwards:
    pkg/fixer/fileprovider/inmem.go and cmd/fix.go. */
module FileProvider {
  import opened MapTotals

  type Path = string
  type Files = map<Path, string>

  datatype Lookup = Found(content: string) | NotFound

  datatype RenameResult = Renamed | Missing | Conflict

  /** The state of a provider: the files, and the paths to write and to remove. */
  datatype Journal = Journal(files: Files, modified: set<Path>, deleted: set<Path>)

  function Start(files: Files): Journal {
    Journal(files, {}, {})
  }

  function AfterPut(j: Journal, file: Path, content: string): Journal {
    j.(files := j.files[file := content], modified := j.modified + {file})
  }

  function AfterDelete(j: Journal, file: Path): Journal {
    Journal(j.files - {file}, j.modified - {file}, j.deleted + {file})
  }

  function RenameOutcome(j: Journal, from: Path, to: Path): RenameResult {
    if from !in j.files then Missing else if to in j.files then Conflict else Renamed
  }

  function AfterRename(j: Journal, from: Path, to: Path): Journal {
    if RenameOutcome(j, from, to).Renamed? then AfterDelete(AfterPut(j, to, j.files[from]), from) else j
  }

  class InMemoryFileProvider {
    var files: Files
    var modified: set<Path>
    var deleted: set<Path>

    ghost function State(): Journal
      reads this
    {
      Journal(files, modified, deleted)
    }

    constructor (files: Files)
      ensures State() == Start(files)
      ensures this.files == files && modified == {} && deleted == {}
    {
      this.files, modified, deleted := files, {}, {};
    }

    method Get(file: Path) returns (r: Lookup)
      ensures r == if file in files then Found(files[file]) else NotFound
    {
      r := if file in files then Found(files[file]) else NotFound;
    }

    method Put(file: Path, content: string)
      modifies this
      ensures State() == AfterPut(old(State()), file, content)
      ensures files == old(files)[file := content]
      ensures modified == old(modified) + {file} && deleted == old(deleted)
    {
      files := files[file := content];
      modified := modified + {file};
    }

    method Delete(file: Path)
      modifies this
      ensures State() == AfterDelete(old(State()), file)
      ensures files == old(files) - {file}
      ensures modified == old(modified) - {file} && deleted == old(deleted) + {file}
    {
      deleted := deleted + {file};
      modified := modified - {file};
      files := files - {file};
    }

    method Rename(from: Path, to: Path) returns (r: RenameResult)
      modifies this
      ensures r == RenameOutcome(old(State()), from, to)
      ensures State() == AfterRename(old(State()), from, to)
      ensures r.Missing? <==> from !in old(files)
      ensures r.Conflict? <==> from in old(files) && to in old(files)
      ensures !r.Renamed? ==> files == old(files) && modified == old(modified) && deleted == old(deleted)
      ensures r.Renamed? ==>
        && files == old(files)[to := old(files)[from]] - {from}
        && modified == old(modified) + {to} - {from} && deleted == old(deleted) + {from}
    {
      if from !in files {
        return Missing;
      }
      if to in files {
        return Conflict;
      }
      Put(to, files[from]);
      Delete(from);
      return Renamed;
    }
  }

  // ----- Runs -----

  datatype Op = Put(file: Path, content: string) | Rename(from: Path, to: Path) | Delete(gone: Path)

  function Apply(j: Journal, op: Op): Journal {
    match op
    case Put(file, content) => AfterPut(j, file, content)
    case Rename(from, to) => AfterRename(j, from, to)
    case Delete(gone) => AfterDelete(j, gone)
  }

  function Run(j: Journal, ops: seq<Op>): Journal {
    if ops == [] then j else Apply(Run(j, ops[..|ops| - 1]), ops[|ops| - 1])
  }

  predicate Touches(op: Op, p: Path) {
    match op
    case Put(file, _) => p == file
    case Rename(from, to) => p == from || p == to
    case Delete(gone) => p == gone
  }

  /** Operations on other paths leave the content of a path, or its absence, alone. */
  lemma {:induction false} UntouchedStays(j: Journal, ops: seq<Op>, p: Path)
    requires forall i :: 0 <= i < |ops| ==> !Touches(ops[i], p)
    ensures p in Run(j, ops).files <==> p in j.files
    ensures p in j.files ==> Run(j, ops).files[p] == j.files[p]
  {
    if ops != [] {
      UntouchedStays(j, ops[..|ops| - 1], p);
    }
  }

  lemma {:induction false} RunInSteps(j: Journal, ops: seq<Op>, i: nat)
    requires i <= |ops|
    ensures Run(j, ops) == Run(Run(j, ops[..i]), ops[i..])
    decreases |ops| - i
  {
    if i == |ops| {
      assert ops[..i] == ops;
    } else {
      var n := |ops| - 1;
      RunInSteps(j, ops[..n], i);
      assert ops[..n][..i] == ops[..i] && ops[..n][i..] == ops[i..][..n - i];
    }
  }

  /** What a path holds after a run is what the last operation on it has left there: what was put, nothing, or what the
      path it was renamed from held before. */
  lemma LastOperationCounts(j: Journal, ops: seq<Op>, i: nat, p: Path)
    requires i < |ops| && Touches(ops[i], p) && forall k :: i < k < |ops| ==> !Touches(ops[k], p)
    ensures var before, files := Run(j, ops[..i]).files, Run(j, ops).files;
      match ops[i]
      case Put(_, content) => p in files && files[p] == content
      case Delete(_) => p !in files
      case Rename(from, to) =>
        if from in before && to !in before then
          if p == from then p !in files else p in files && files[p] == before[from]
        else
          (p in files <==> p in before) && (p in before ==> files[p] == before[p])
  {
    RunInSteps(j, ops, i + 1);
    assert ops[..i + 1][..i] == ops[..i] && ops[..i + 1][i] == ops[i];
    UntouchedStays(Run(j, ops[..i + 1]), ops[i + 1..], p);
  }

  /** The journal describes how the files got here from the files it started with. */
  ghost predicate Tracks(files0: Files, j: Journal) {
    && j.modified <= j.files.Keys
    && files0.Keys <= j.files.Keys + j.deleted
    && forall p :: p in j.files && p !in j.modified ==> p !in j.deleted && p in files0 && files0[p] == j.files[p]
  }

  lemma {:induction false} RunTracks(files0: Files, ops: seq<Op>)
    ensures Tracks(files0, Run(Start(files0), ops))
  {
    if ops != [] {
      RunTracks(files0, ops[..|ops| - 1]);
    }
  }

  /** The disk after removing every deleted path, whether it is there or not, and writing every modified file. */
  ghost function Replay(disk: Files, j: Journal): Files
    requires j.modified <= j.files.Keys
  {
    disk - j.deleted + map p | p in j.modified :: j.files[p]
  }

  /** Replaying a tracked journal onto a disk that holds the files it started with leaves exactly the
      provider's files, besides files of the disk that the provider never had and never deleted. */
  lemma ReplayOfTracked(disk: Files, files0: Files, j: Journal)
    requires files0.Items <= disk.Items && Tracks(files0, j)
    ensures Replay(disk, j) == disk - files0.Keys - j.deleted + j.files
  {
    forall p | p in files0
      ensures p in disk && disk[p] == files0[p]
    {
      assert (p, files0[p]) in files0.Items;
    }
  }

  /** Whatever was put, renamed and deleted, in whatever order. */
  lemma {:induction false} ReplayIsExact(disk: Files, ops: seq<Op>)
    ensures var j := Run(Start(disk), ops); j.modified <= j.files.Keys && Replay(disk, j) == j.files
  {
    RunTracks(disk, ops);
    ReplayOfTracked(disk, disk, Run(Start(disk), ops));
  }

  // ----- The disk -----

  class Disk {
    var content: Files

    /** os.Remove: an absent path is an error. */
    method Remove(file: Path) returns (ok: bool)
      modifies this
      ensures ok <==> file in old(content)
      ensures content == old(content) - {file}
    {
      ok := file in content;
      content := content - {file};
    }

    method WriteFile(file: Path, text: string)
      modifies this
      ensures content == old(content)[file := text]
    {
      content := content[file := text];
    }
  }

  method RemoveDeleted(deleted: set<Path>, disk: Disk) returns (ok: bool)
    modifies disk
    ensures ok <==> deleted <= old(disk.content).Keys
    ensures ok ==> disk.content == old(disk.content) - deleted
  {
    var todo := deleted;
    while todo != {}
      invariant todo <= deleted
      invariant deleted - todo <= old(disk.content).Keys
      invariant disk.content == old(disk.content) - (deleted - todo)
      decreases todo
    {
      var file :| file in todo;
      var removed := disk.Remove(file);
      if !removed {
        return false;
      }
      todo := todo - {file};
    }
    return true;
  }

  method WriteModified(provider: InMemoryFileProvider, disk: Disk)
    requires provider.modified <= provider.files.Keys
    modifies disk
    ensures disk.content == old(disk.content) + map p | p in provider.modified :: provider.files[p]
  {
    var todo := provider.modified;
    while todo != {}
      invariant todo <= provider.modified
      invariant disk.content == old(disk.content) + map p | p in provider.modified - todo :: provider.files[p]
      decreases todo
    {
      var file :| file in todo;
      var r := provider.Get(file);
      disk.WriteFile(file, r.content);
      todo := todo - {file};
    }
  }

  /** Removes and writes in any order. It fails when, and only when, some deleted path is not on disk. */
  method WriteBack(provider: InMemoryFileProvider, disk: Disk) returns (ok: bool)
    requires provider.modified <= provider.files.Keys
    modifies disk
    ensures ok <==> provider.deleted <= old(disk.content).Keys
    ensures ok ==> disk.content == Replay(old(disk.content), provider.State())
  {
    ok := RemoveDeleted(provider.deleted, disk);
    if ok {
      WriteModified(provider, disk);
    }
  }

  /** Renaming a file twice leaves a deleted path that never was on disk, and so the write-back fails. */
  lemma TwoRenamesCannotBeWrittenBack(content: string)
    ensures var disk: Files := map["a.rego" := content];
      !(Run(Start(disk), [Rename("a.rego", "b.rego"), Rename("b.rego", "c.rego")]).deleted <= disk.Keys)
  {
    var disk: Files := map["a.rego" := content];
    var first, second := Rename("a.rego", "b.rego"), Rename("b.rego", "c.rego");
    assert [first, second][..1] == [first] && [first][..0] == [];
    assert Run(Start(disk), [first]) == AfterRename(Start(disk), "a.rego", "b.rego");
    assert "b.rego" in Run(Start(disk), [first, second]).deleted;
  }
}
