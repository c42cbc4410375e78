/** One step of the fix loop, and its renames: pkg/fixer/fixer.go, with the end of a run in cmd/fix.go. */
module Fixer {
  import opened MapTotals
  import FP = FileProvider
  import opened FixReport
  import opened Decimal
  import Rename

  datatype OnConflict = ErrorOut | RenameAway | Unsupported

  datatype Violation = Violation(title: string, file: Path, location: int)

  datatype FixOutcome = Failed | Results(results: seq<FixResult>)

  /** A registered fix: what it makes of a violation in a file with some content. */
  datatype Fix = Fix(name: string, run: (Path, string, Violation) -> FixOutcome)

  // ----- Renaming -----

  /** A fix filed under its new path, together with what was filed under the old one. */
  function Filed(b: Books, to: Path, from: Path, fix: FixResult): Books {
    var merged := AfterMerge(AfterAdd(b, to, fix), to, from);
    merged.(movedFiles := Appended(merged.movedFiles, to, from))
  }

  function WithConflictRegistered(b: Books, starting: set<Path>, root: Path, to: Path, from: Path): Books {
    if to in starting then b.(sourceFile := WithConflict(b.sourceFile, root, to, from))
    else b.(manyToOne := WithConflict(b.manyToOne, root, to, from))
  }

  /** The conflicting file is dropped, and the conflict is on record. */
  ghost predicate Conflicted(starting: set<Path>, fix: FixResult, j: FP.Journal, b: Books, j': FP.Journal, b': Books) {
    && fix.rename.Move?
    && var Move(from, to) := fix.rename;
    && from in j.files && to in j.files
    && j' == FP.AfterDelete(j, from)
    && b' == Filed(WithConflictRegistered(b, starting, fix.root, to, from), to, from, fix)
  }

  /** The file is moved to a free path, and the fix names that path. */
  ghost predicate Moved(fix: FixResult, final: Path, j: FP.Journal, b: Books, j': FP.Journal, b': Books) {
    && fix.rename.Move?
    && var from := fix.rename.from;
    && from in j.files && final !in j.files
    && j' == FP.AfterRename(j, from, final)
    && b' == Filed(b, final, from, fix.(rename := Move(from, final)))
  }

  /** The fixes filed under one path and the old paths on record for it. */
  ghost predicate FiledUnder(b: Books, b': Books, to: Path, from: Path, fix: FixResult) {
    && b'.totalFixes == b.totalFixes + 1
    && (to != from ==> ListAt(b'.fileFixes, to) == ListAt(b.fileFixes, to) + [fix] + ListAt(b.fileFixes, from))
    && from !in b'.fileFixes
    && (forall p :: p != to && p != from ==> ListAt(b'.fileFixes, p) == ListAt(b.fileFixes, p))
    && (forall p :: ListAt(b'.movedFiles, p) == ListAt(b.movedFiles, p) + if p == to then [from] else [])
  }

  lemma FilingMeans(b: Books, to: Path, from: Path, fix: FixResult)
    ensures FiledUnder(b, Filed(b, to, from, fix), to, from, fix)
    ensures Filed(b, to, from, fix).manyToOne == b.manyToOne && Filed(b, to, from, fix).sourceFile == b.sourceFile
  {
  }

  /** c' has one old path more, under the root and the new path of a fix. */
  ghost predicate OneMoreConflict(c: Conflicts, c': Conflicts, root: Path, to: Path, from: Path) {
    forall r, p :: OldPathsAt(c', r, p) == OldPathsAt(c, r, p) + if r == root && p == to then [from] else []
  }

  /** What a recorded conflict leaves: the file is gone, and its path is in the register for its kind. */
  lemma ConflictedMeans(starting: set<Path>, fix: FixResult, j: FP.Journal, b: Books, j': FP.Journal, b': Books)
    requires Conflicted(starting, fix, j, b, j', b')
    ensures var Move(from, to) := fix.rename;
      && j'.files == j.files - {from}
      && j'.modified == j.modified - {from} && j'.deleted == j.deleted + {from}
      && FiledUnder(b, b', to, from, fix)
      && (if to in starting then OneMoreConflict(b.sourceFile, b'.sourceFile, fix.root, to, from)
          else OneMoreConflict(b.manyToOne, b'.manyToOne, fix.root, to, from))
      && (if to in starting then b'.manyToOne == b.manyToOne else b'.sourceFile == b.sourceFile)
  {
    var Move(from, to) := fix.rename;
    var registered := WithConflictRegistered(b, starting, fix.root, to, from);
    RegisteringMeans(b, starting, fix.root, to, from);
    FilingMeans(registered, to, from, fix);
    assert b' == Filed(registered, to, from, fix);
  }

  lemma ConflictAdded(c: Conflicts, root: Path, to: Path, from: Path)
    ensures OneMoreConflict(c, WithConflict(c, root, to, from), root, to, from)
  {
  }

  lemma RegisteringMeans(b: Books, starting: set<Path>, root: Path, to: Path, from: Path)
    ensures var b' := WithConflictRegistered(b, starting, root, to, from);
      && b'.fileFixes == b.fileFixes && b'.movedFiles == b.movedFiles && b'.totalFixes == b.totalFixes
      && (if to in starting
          then b'.manyToOne == b.manyToOne && OneMoreConflict(b.sourceFile, b'.sourceFile, root, to, from)
          else b'.sourceFile == b.sourceFile && OneMoreConflict(b.manyToOne, b'.manyToOne, root, to, from))
  {
    ConflictAdded(b.sourceFile, root, to, from);
    ConflictAdded(b.manyToOne, root, to, from);
  }

  /** What a move leaves: the content under the new path, with the fix that names it. */
  lemma MovedMeans(fix: FixResult, final: Path, j: FP.Journal, b: Books, j': FP.Journal, b': Books)
    requires Moved(fix, final, j, b, j', b')
    ensures var from := fix.rename.from;
      && from in j.files && final !in j.files
      && j'.files == j.files[final := j.files[from]] - {from}
      && j'.modified == j.modified + {final} - {from} && j'.deleted == j.deleted + {from}
      && FiledUnder(b, b', final, from, FixResult(fix.title, fix.root, fix.contents, Move(from, final)))
      && b'.manyToOne == b.manyToOne && b'.sourceFile == b.sourceFile
  {
    FilingMeans(b, final, fix.rename.from, fix.(rename := Move(fix.rename.from, final)));
  }

  method FileUnder(report: Report, to: Path, from: Path, fix: FixResult)
    modifies report
    ensures report.State() == Filed(old(report.State()), to, from, fix)
  {
    report.AddFileFix(to, fix);
    report.MergeFixes(to, from);
    report.RegisterOldPathForFile(to, from);
  }

  method RecordConflict(provider: FP.InMemoryFileProvider, report: Report, starting: set<Path>, fix: FixResult)
    requires fix.rename.Move? && fix.rename.from in provider.files && fix.rename.to in provider.files
    modifies provider, report
    ensures Conflicted(starting, fix, old(provider.State()), old(report.State()), provider.State(), report.State())
  {
    var Move(from, to) := fix.rename;
    provider.Delete(from);
    if to in starting {
      report.RegisterConflictSourceFile(fix.root, to, from);
    } else {
      report.RegisterConflictManyToOne(fix.root, to, from);
    }
    FileUnder(report, to, from, fix);
  }

  /** All names tried in n conflicts are taken. */
  ghost predicate AllTaken(atoi: string -> int, files: FP.Files, path: Path, n: nat) {
    forall m: nat :: m < n ==> Rename.Candidate(atoi, path, m) in files
  }

  /** The candidate names of a path. */
  ghost predicate AreCandidates(atoi: string -> int, path: Path, names: nat -> Path) {
    forall n: nat {:trigger Rename.Candidate(atoi, path, n)} :: names(n) == Rename.Candidate(atoi, path, n)
  }

  /** Where the loop stands: n names were taken, the next one is to be tried, and names still to come can only be taken
      if they have not been tried. */
  ghost predicate Trying(names: nat -> Path, files: FP.Files, to: Path, n: nat, untried: set<Path>) {
    && to == names(n)
    && (forall m: nat :: m < n ==> names(m) in files)
    && (forall m: nat :: n <= m && names(m) in files ==> names(m) in untried)
  }

  method NextCandidate(atoi: string -> int, ghost path: Path, to: Path, ghost tries: nat, ghost names: nat -> Path,
      ghost files: FP.Files, ghost untried: set<Path>) returns (next: Path)
    requires IsConversion(atoi) && AreCandidates(atoi, path, names)
    requires Trying(names, files, to, tries, untried) && to in files
    ensures to in untried
    ensures Trying(names, files, next, tries + 1, untried - {to})
  {
    NextName(atoi, path, names, tries);
    LaterNamesDiffer(atoi, path, names, tries);
    next := Rename.RenameCandidate(atoi, to);
  }

  lemma NextName(atoi: string -> int, path: Path, names: nat -> Path, n: nat)
    requires AreCandidates(atoi, path, names)
    ensures names(n + 1) == Rename.RenameCandidate(atoi, names(n))
  {
    assert names(n) == Rename.Candidate(atoi, path, n);
    assert names(n + 1) == Rename.Candidate(atoi, path, n + 1);
  }

  lemma LaterNamesDiffer(atoi: string -> int, path: Path, names: nat -> Path, n: nat)
    requires IsConversion(atoi) && AreCandidates(atoi, path, names)
    ensures forall m: nat :: m > n ==> names(m) != names(n)
  {
    forall m: nat | m > n
      ensures names(m) != names(n)
    {
      Rename.CandidatesDiffer(atoi, path, n, m);
    }
  }

  method TryName(provider: FP.InMemoryFileProvider, from: Path, to: Path) returns (r: FP.RenameResult)
    modifies provider
    ensures r == FP.RenameOutcome(old(provider.State()), from, to)
    ensures provider.State() == FP.AfterRename(old(provider.State()), from, to)
  {
    r := provider.Rename(from, to);
  }

  /** The fix names the path that the file was moved to. */
  method FileMove(report: Report, to: Path, fix: FixResult)
    requires fix.rename.Move?
    modifies report
    ensures report.State() == Filed(old(report.State()), to, fix.rename.from, fix.(rename := Move(fix.rename.from, to)))
  {
    var from := fix.rename.from;
    FileUnder(report, to, from, if to != fix.rename.to then fix.(rename := Move(from, to)) else fix);
  }

  datatype Verdict = TryNext | Placed | Recorded | Refused

  /** What happens when the name is taken. */
  method MeetConflict(atoi: string -> int, provider: FP.InMemoryFileProvider, report: Report, starting: set<Path>,
      mode: OnConflict, fix: FixResult, to: Path, ghost tries: nat, ghost names: nat -> Path, ghost untried: set<Path>)
      returns (verdict: Verdict, next: Path)
    requires IsConversion(atoi) && fix.rename.Move? && fix.rename.from in provider.files && to in provider.files
    requires AreCandidates(atoi, fix.rename.to, names) && Trying(names, provider.files, to, tries, untried)
    requires mode.ErrorOut? ==> to == fix.rename.to
    modifies provider, report
    ensures verdict == match mode case ErrorOut => Recorded case RenameAway => TryNext case Unsupported => Refused
    ensures verdict.Recorded? ==>
      Conflicted(starting, fix, old(provider.State()), old(report.State()), provider.State(), report.State())
    ensures !verdict.Recorded? ==> provider.State() == old(provider.State()) && report.State() == old(report.State())
    ensures verdict.TryNext? ==>
      to in untried && Trying(names, old(provider.files), next, tries + 1, untried - {to})
  {
    next := to;
    match mode {
      case ErrorOut =>
        RecordConflict(provider, report, starting, fix);
        verdict := Recorded;
      case RenameAway =>
        next := NextCandidate(atoi, fix.rename.to, to, tries, names, provider.files, untried);
        verdict := TryNext;
      case Unsupported =>
        verdict := Refused;
    }
  }

  /** Tries one name after the other, until the file has been moved or nothing more can be done. */
  method TryNames(atoi: string -> int, provider: FP.InMemoryFileProvider, report: Report, starting: set<Path>,
      mode: OnConflict, fix: FixResult, ghost names: nat -> Path)
      returns (verdict: Verdict, to: Path, ghost tries: nat)
    requires IsConversion(atoi) && fix.rename.Move?
    requires AreCandidates(atoi, fix.rename.to, names) && names(0) == fix.rename.to
    modifies provider, report
    ensures !verdict.TryNext? && (tries > 0 ==> mode.RenameAway?)
    ensures verdict.Refused? ==>
      && provider.State() == old(provider.State()) && report.State() == old(report.State())
      && (fix.rename.from !in old(provider.files) || (fix.rename.to in old(provider.files) && mode.Unsupported?))
    ensures verdict.Recorded? ==>
      && mode.ErrorOut?
      && Conflicted(starting, fix, old(provider.State()), old(report.State()), provider.State(), report.State())
    ensures verdict.Placed? ==>
      && fix.rename.from in old(provider.files) && to !in old(provider.files)
      && provider.State() == FP.AfterRename(old(provider.State()), fix.rename.from, to)
      && report.State() == old(report.State())
      && to == names(tries) && (forall m: nat :: m < tries ==> names(m) in old(provider.files))
      && (fix.rename.to in old(provider.files) ==> mode.RenameAway?)
  {
    var from := fix.rename.from;
    to := fix.rename.to;
    ghost var taken := provider.files;
    ghost var untried := taken.Keys;
    tries := 0;
    while true
      invariant provider.State() == old(provider.State()) && report.State() == old(report.State())
      invariant Trying(names, taken, to, tries, untried)
      invariant tries > 0 ==> mode.RenameAway? && from in taken && fix.rename.to in taken
      invariant tries == 0 ==> to == fix.rename.to
      decreases untried
    {
      var r := TryName(provider, from, to);
      if r.Renamed? {
        return Placed, to, tries;
      }
      if r.Missing? {
        return Refused, to, tries;
      }
      ghost var tried := to;
      verdict, to := MeetConflict(atoi, provider, report, starting, mode, fix, to, tries, names, untried);
      if !verdict.TryNext? {
        return;
      }
      untried := untried - {tried};
      tries := tries + 1;
    }
  }

  /** Moves a file. Conflicts are recorded, or evaded under the first free candidate name. */
  method HandleRename(atoi: string -> int, provider: FP.InMemoryFileProvider, report: Report, starting: set<Path>,
      mode: OnConflict, fix: FixResult) returns (ok: bool, ghost tries: nat)
    requires IsConversion(atoi) && fix.rename.Move?
    modifies provider, report
    ensures ok <==> fix.rename.from in old(provider.files)
                    && (fix.rename.to in old(provider.files) ==> !mode.Unsupported?)
    ensures !ok ==> provider.State() == old(provider.State()) && report.State() == old(report.State())
    ensures tries > 0 ==> mode.RenameAway?
    ensures ok && mode.ErrorOut? && fix.rename.to in old(provider.files) ==>
      Conflicted(starting, fix, old(provider.State()), old(report.State()), provider.State(), report.State())
    ensures ok && !(mode.ErrorOut? && fix.rename.to in old(provider.files)) ==>
      && Moved(fix, Rename.Candidate(atoi, fix.rename.to, tries),
               old(provider.State()), old(report.State()), provider.State(), report.State())
      && AllTaken(atoi, old(provider.files), fix.rename.to, tries)
  {
    ghost var path := fix.rename.to;
    ghost var names := (n: nat) => Rename.Candidate(atoi, path, n);
    var verdict, to;
    verdict, to, tries := TryNames(atoi, provider, report, starting, mode, fix, names);
    if verdict.Placed? {
      FileMove(report, to, fix);
    }
    ok := !verdict.Refused?;
  }

  // ----- Choosing a fix -----

  datatype Selection = Chosen(file: Path, fix: FixResult) | NothingToFix | Broken

  /** The first registered fix with a violation that it can do something about, from fix f and violation v on. */
  function Select(fixes: seq<Fix>, violations: seq<Violation>, files: FP.Files, f: nat, v: nat): Selection
    requires f <= |fixes| && v <= |violations|
    decreases |fixes| - f, |violations| - v
  {
    if f == |fixes| then NothingToFix
    else if v == |violations| then Select(fixes, violations, files, f + 1, 0)
    else if violations[v].title != fixes[f].name then Select(fixes, violations, files, f, v + 1)
    else if violations[v].file !in files then Broken
    else
      match fixes[f].run(violations[v].file, files[violations[v].file], violations[v])
      case Failed => Broken
      case Results(results) =>
        if results == [] then Select(fixes, violations, files, f, v + 1)
        else Chosen(violations[v].file, results[0])
  }

  /** The f-th fix has nothing to do about the v-th violation. */
  predicate IsPassed(fixes: seq<Fix>, violations: seq<Violation>, files: FP.Files, f: nat, v: nat)
    requires f < |fixes| && v < |violations|
  {
    var violation := violations[v];
    violation.title != fixes[f].name
    || (violation.file in files && fixes[f].run(violation.file, files[violation.file], violation) == Results([]))
  }

  /** All pairs before (f, v), fix by fix, have been passed. */
  ghost predicate AllPassed(fixes: seq<Fix>, violations: seq<Violation>, files: FP.Files, f: nat, v: nat)
    requires f <= |fixes|
  {
    && (forall g, w :: 0 <= g < f && 0 <= w < |violations| ==> IsPassed(fixes, violations, files, g, w))
    && (f < |fixes| ==> forall w :: 0 <= w < v && w < |violations| ==> IsPassed(fixes, violations, files, f, w))
  }

  /** The fixed violation is the first that is not passed, for the first fix that has one; its first result counts. */
  ghost predicate IsFirstHit(fixes: seq<Fix>, violations: seq<Violation>, files: FP.Files, f: nat, v: nat,
      selection: Selection) {
    && f < |fixes| && v < |violations|
    && AllPassed(fixes, violations, files, f, v) && !IsPassed(fixes, violations, files, f, v)
    && var violation := violations[v];
      if violation.file !in files || fixes[f].run(violation.file, files[violation.file], violation).Failed? then
        selection == Broken
      else
        selection == Chosen(violation.file, fixes[f].run(violation.file, files[violation.file], violation).results[0])
  }

  lemma {:induction false} SelectFrom(fixes: seq<Fix>, violations: seq<Violation>, files: FP.Files, f: nat, v: nat)
    requires f <= |fixes| && v <= |violations| && AllPassed(fixes, violations, files, f, v)
    ensures var selection := Select(fixes, violations, files, f, v);
      if selection.NothingToFix? then AllPassed(fixes, violations, files, |fixes|, 0)
      else exists g, w :: IsFirstHit(fixes, violations, files, g, w, selection)
    decreases |fixes| - f, |violations| - v
  {
    if f < |fixes| {
      if v == |violations| {
        SelectFrom(fixes, violations, files, f + 1, 0);
      } else if IsPassed(fixes, violations, files, f, v) {
        SelectFrom(fixes, violations, files, f, v + 1);
      } else {
        assert IsFirstHit(fixes, violations, files, f, v, Select(fixes, violations, files, f, v));
      }
    }
  }

  /** Which fix is chosen, for which file, and when nothing is. */
  lemma SelectMeans(fixes: seq<Fix>, violations: seq<Violation>, files: FP.Files)
    ensures var selection := Select(fixes, violations, files, 0, 0);
      if selection.NothingToFix? then AllPassed(fixes, violations, files, |fixes|, 0)
      else exists f, v :: IsFirstHit(fixes, violations, files, f, v, selection)
  {
    SelectFrom(fixes, violations, files, 0, 0);
  }

  datatype StepResult = FixMade | NoFixMade | StepError

  /** What a step did: nothing, a new content, a file dropped because of a conflict, or a file moved. */
  datatype Change =
    | Unchanged
    | Edited(file: Path, fix: FixResult)
    | Dropped(fix: FixResult)
    | MovedTo(fix: FixResult, final: Path)

  ghost predicate Changes(starting: set<Path>, change: Change, j: FP.Journal, b: Books, j': FP.Journal, b': Books) {
    match change
    case Unchanged => j' == j && b' == b
    case Edited(file, fix) =>
      file in j.files && j' == FP.AfterPut(j, file, fix.contents) && b' == AfterAdd(b, file, fix)
    case Dropped(fix) => Conflicted(starting, fix, j, b, j', b')
    case MovedTo(fix, final) => Moved(fix, final, j, b, j', b')
  }

  /** The change that the chosen fix asks for. */
  ghost predicate Carries(change: Change, selection: Selection, mode: OnConflict) {
    match selection
    case Chosen(file, fix) =>
      (match fix.rename
       case Stay => change == Edited(file, fix)
       case Move(_, to) =>
         || change.Unchanged?
         || (mode.ErrorOut? && change == Dropped(fix))
         || (change.MovedTo? && change.fix == fix && (!mode.RenameAway? ==> change.final == to)))
    case _ => change.Unchanged?
  }

  method ApplyFix(atoi: string -> int, file: Path, fix: FixResult, provider: FP.InMemoryFileProvider, report: Report,
      starting: set<Path>, mode: OnConflict) returns (ok: bool, ghost change: Change)
    requires IsConversion(atoi) && file in provider.files
    modifies provider, report
    ensures Changes(starting, change, old(provider.State()), old(report.State()), provider.State(), report.State())
    ensures Carries(change, Chosen(file, fix), mode)
    ensures ok <==> !change.Unchanged?
    ensures fix.rename.Stay? ==>
      && ok && provider.files == old(provider.files)[file := fix.contents]
      && provider.modified == old(provider.modified) + {file} && provider.deleted == old(provider.deleted)
      && ListAt(report.fileFixes, file) == old(ListAt(report.fileFixes, file)) + [fix]
  {
    change := Unchanged;
    ok := true;
    if fix.rename.Move? {
      ghost var dropped := mode.ErrorOut? && fix.rename.to in provider.files;
      ghost var tries;
      ok, tries := HandleRename(atoi, provider, report, starting, mode, fix);
      if ok {
        change := if dropped then Dropped(fix) else MovedTo(fix, Rename.Candidate(atoi, fix.rename.to, tries));
      }
    } else {
      provider.Put(file, fix.contents);
      report.AddFileFix(file, fix);
      change := Edited(file, fix);
    }
  }

  /** Applies the chosen fix, if there is one. */
  method ApplyOneFix(atoi: string -> int, fixes: seq<Fix>, violations: seq<Violation>,
      provider: FP.InMemoryFileProvider, report: Report, starting: set<Path>, mode: OnConflict)
    returns (r: StepResult, ghost change: Change)
    requires IsConversion(atoi)
    modifies provider, report
    ensures Changes(starting, change, old(provider.State()), old(report.State()), provider.State(), report.State())
    ensures Carries(change, Select(fixes, violations, old(provider.files), 0, 0), mode)
    ensures r.FixMade? <==> !change.Unchanged?
    ensures r.NoFixMade? <==> Select(fixes, violations, old(provider.files), 0, 0).NothingToFix?
    ensures var selection := Select(fixes, violations, old(provider.files), 0, 0);
      selection.Chosen? && selection.fix.rename.Stay? ==>
        && r.FixMade? && provider.files == old(provider.files)[selection.file := selection.fix.contents]
        && provider.modified == old(provider.modified) + {selection.file} && provider.deleted == old(provider.deleted)
        && ListAt(report.fileFixes, selection.file) == old(ListAt(report.fileFixes, selection.file)) + [selection.fix]
  {
    ghost var files := provider.files;
    change := Unchanged;
    var f := 0;
    while f < |fixes|
      invariant f <= |fixes|
      invariant provider.State() == old(provider.State()) && report.State() == old(report.State())
      invariant Select(fixes, violations, files, f, 0) == Select(fixes, violations, files, 0, 0)
    {
      var v := 0;
      while v < |violations|
        invariant v <= |violations|
        invariant provider.State() == old(provider.State()) && report.State() == old(report.State())
        invariant Select(fixes, violations, files, f, v) == Select(fixes, violations, files, 0, 0)
      {
        var violation := violations[v];
        v := v + 1;
        if violation.title != fixes[f].name {
          continue;
        }
        var file := violation.file;
        var content := provider.Get(file);
        if content.NotFound? {
          return StepError, Unchanged;
        }
        var outcome := fixes[f].run(file, content.content, violation);
        if outcome.Failed? {
          return StepError, Unchanged;
        }
        if |outcome.results| == 0 {
          continue;
        }
        var ok;
        ok, change := ApplyFix(atoi, file, outcome.results[0], provider, report, starting, mode);
        return if ok then FixMade else StepError, change;
      }
      f := f + 1;
    }
    return NoFixMade, Unchanged;
  }

  // ----- What every step keeps -----

  ghost predicate WellKept(b: Books) {
    NoEmptyConflicts(b.manyToOne) && NoEmptyConflicts(b.sourceFile)
  }

  lemma RegisteringCounts(c: Conflicts, root: Path, to: Path, from: Path)
    requires NoEmptyConflicts(c)
    ensures NoEmptyConflicts(WithConflict(c, root, to, from))
    ensures CountConflicts(WithConflict(c, root, to, from)) == CountConflicts(c) + 1
  {
    ConflictCounted(c, root, to, from);
    ListedAfterAppend(if root in c then c[root] else map[], to, from);
  }

  /** Files and registered conflicts together stay as many as they were: a file is either kept or on record. */
  lemma StepConserves(starting: set<Path>, change: Change, j: FP.Journal, b: Books, j': FP.Journal, b': Books)
    requires WellKept(b) && Changes(starting, change, j, b, j', b')
    ensures WellKept(b')
    ensures |j'.files| + TotalConflicts(b') == |j.files| + TotalConflicts(b)
  {
    match change
    case Unchanged =>
    case Edited(file, fix) =>
      assert j'.files.Keys == j.files.Keys;
      assert |j'.files.Keys| == |j.files.Keys|;
    case Dropped(fix) =>
      DropConserves(starting, fix, j, b, j', b');
    case MovedTo(fix, final) =>
      ValuesMoved(j.files, fix.rename.from, final);
      assert j'.files == j.files[final := j.files[fix.rename.from]] - {fix.rename.from};
  }

  lemma DropConserves(starting: set<Path>, fix: FixResult, j: FP.Journal, b: Books, j': FP.Journal, b': Books)
    requires WellKept(b) && Conflicted(starting, fix, j, b, j', b')
    ensures WellKept(b') && |j'.files| == |j.files| - 1 && TotalConflicts(b') == TotalConflicts(b) + 1
  {
    var Move(from, to) := fix.rename;
    assert j'.files.Keys == j.files.Keys - {from};
    assert |j'.files.Keys| == |j.files.Keys| - 1;
    RegisteringCounts(if to in starting then b.sourceFile else b.manyToOne, fix.root, to, from);
  }

  /** A run of steps, from a provider that has just been filled and an empty report. */
  ghost predicate IsRun(starting: set<Path>, files: FP.Files, run: seq<(FP.Journal, Books)>, changes: seq<Change>) {
    && |run| == |changes| + 1 && run[0] == (FP.Start(files), EMPTY_BOOKS)
    && forall i, k :: 0 <= i < |changes| && k == i + 1 ==>
         Changes(starting, changes[i], run[i].0, run[i].1, run[k].0, run[k].1)
  }

  /** After any run: what is missing is exactly what is registered, so files are missing only if the report
      has conflicts, in which case nothing is written to disk. */
  lemma {:induction false} RunConserves(starting: set<Path>, files: FP.Files, run: seq<(FP.Journal, Books)>,
      changes: seq<Change>, i: nat)
    requires IsRun(starting, files, run, changes) && i < |run|
    ensures WellKept(run[i].1)
    ensures |run[i].0.files| + TotalConflicts(run[i].1) == |files|
    ensures |run[i].0.files| < |files| <==> AnyConflicts(run[i].1)
  {
    if i > 0 {
      RunConserves(starting, files, run, changes, i - 1);
      StepConserves(starting, changes[i - 1], run[i - 1].0, run[i - 1].1, run[i].0, run[i].1);
    }
    ConflictsMeanCount(run[i].1.manyToOne);
    ConflictsMeanCount(run[i].1.sourceFile);
  }

  /** The journal of a run is complete: replayed, it turns the disk the files came from into the fixed files. */
  lemma {:induction false} RunIsWrittenBack(starting: set<Path>, files: FP.Files, run: seq<(FP.Journal, Books)>,
      changes: seq<Change>, i: nat, disk: FP.Files)
    requires IsRun(starting, files, run, changes) && i < |run|
    requires files.Items <= disk.Items
    ensures var j := run[i].0;
      && FP.Tracks(files, j)
      && FP.Replay(disk, j) == disk - files.Keys - j.deleted + j.files
  {
    if i > 0 {
      RunIsWrittenBack(starting, files, run, changes, i - 1, disk);
      assert Changes(starting, changes[i - 1], run[i - 1].0, run[i - 1].1, run[i].0, run[i].1);
    }
    FP.ReplayOfTracked(disk, files, run[i].0);
  }

  /** A rename without a recorded conflict keeps all contents. */
  lemma MoveKeepsContents(fix: FixResult, final: Path, j: FP.Journal, b: Books, j': FP.Journal, b': Books)
    requires Moved(fix, final, j, b, j', b')
    ensures SameValues(j.files, j'.files)
  {
    ValuesMoved(j.files, fix.rename.from, final);
  }

  lemma FiledBalance(b: Books, to: Path, from: Path, fix: FixResult)
    requires Balanced(b)
    ensures Balanced(Filed(b, to, from, fix)) <==> to != from
  {
    AddKeepsBalance(b, to, fix);
    MergeKeepsFixes(AfterAdd(b, to, fix), to, from);
  }

  /** The counter agrees with the lists after a move; after a recorded conflict it does unless the file was to be
      moved onto itself, whose fixes are then dropped. */
  lemma RenameBalance(starting: set<Path>, fix: FixResult, final: Path, j: FP.Journal, b: Books, j': FP.Journal,
      b': Books)
    requires Balanced(b)
    ensures Moved(fix, final, j, b, j', b') ==> Balanced(b')
    ensures Conflicted(starting, fix, j, b, j', b') ==> (Balanced(b') <==> fix.rename.from != fix.rename.to)
  {
    if Moved(fix, final, j, b, j', b') {
      FiledBalance(b, final, fix.rename.from, fix.(rename := Move(fix.rename.from, final)));
    }
    if Conflicted(starting, fix, j, b, j', b') {
      var Move(from, to) := fix.rename;
      FiledBalance(WithConflictRegistered(b, starting, fix.root, to, from), to, from, fix);
    }
  }

  /** A conflict of a file with itself: it was to be moved to where it is. */
  predicate DropsOntoItself(change: Change) {
    change.Dropped? && change.fix.rename.Move? && change.fix.rename.from == change.fix.rename.to
  }

  /** How much the counter exceeds the lists: it never falls, and rises exactly when a file is dropped onto itself. */
  ghost function Deficit(b: Books): int {
    b.totalFixes - ListedFixes(b.fileFixes)
  }

  lemma FiledDeficit(b: Books, to: Path, from: Path, fix: FixResult)
    ensures Deficit(Filed(b, to, from, fix)) == Deficit(b) + if to == from then |ListAt(b.fileFixes, to)| + 1 else 0
  {
    ListedAfterAppend(b.fileFixes, to, fix);
    MergeKeepsFixes(AfterAdd(b, to, fix), to, from);
  }

  lemma StepDeficit(starting: set<Path>, change: Change, j: FP.Journal, b: Books, j': FP.Journal, b': Books)
    requires Changes(starting, change, j, b, j', b')
    ensures if DropsOntoItself(change) then Deficit(b') > Deficit(b) else Deficit(b') == Deficit(b)
  {
    match change
    case Unchanged =>
    case Edited(file, fix) =>
      ListedAfterAppend(b.fileFixes, file, fix);
    case Dropped(fix) =>
      var Move(from, to) := fix.rename;
      FiledDeficit(WithConflictRegistered(b, starting, fix.root, to, from), to, from, fix);
    case MovedTo(fix, final) =>
      FiledDeficit(b, final, fix.rename.from, fix.(rename := Move(fix.rename.from, final)));
  }

  /** After any run the counter agrees with the lists exactly if no step has dropped a file onto itself. */
  lemma {:induction false} RunBalance(starting: set<Path>, files: FP.Files, run: seq<(FP.Journal, Books)>,
      changes: seq<Change>, i: nat)
    requires IsRun(starting, files, run, changes) && i < |run|
    ensures Deficit(run[i].1) >= 0
    ensures Balanced(run[i].1) <==> forall m :: 0 <= m < i ==> !DropsOntoItself(changes[m])
  {
    if i > 0 {
      RunBalance(starting, files, run, changes, i - 1);
      StepDeficit(starting, changes[i - 1], run[i - 1].0, run[i - 1].1, run[i].0, run[i].1);
    }
  }

  // ----- What a run deletes -----

  /** The path that a change takes away. */
  function Removes(change: Change): set<Path> {
    match change
    case Dropped(fix) => if fix.rename.Move? then {fix.rename.from} else {}
    case MovedTo(fix, _) => if fix.rename.Move? then {fix.rename.from} else {}
    case _ => {}
  }

  lemma {:induction false} RunDeletes(starting: set<Path>, files: FP.Files, run: seq<(FP.Journal, Books)>,
      changes: seq<Change>, i: nat, p: Path)
    requires IsRun(starting, files, run, changes) && i < |run|
    ensures p in run[i].0.deleted <==> exists m :: 0 <= m < i && p in Removes(changes[m])
  {
    if i > 0 {
      RunDeletes(starting, files, run, changes, i - 1, p);
      assert Changes(starting, changes[i - 1], run[i - 1].0, run[i - 1].1, run[i].0, run[i].1);
      assert p in run[i].0.deleted <==> p in run[i - 1].0.deleted || p in Removes(changes[i - 1]);
    }
  }

  /** Every path that the files have after a run was there from the start, or an earlier step has moved a file to it. */
  lemma {:induction false} FilesWereMoved(starting: set<Path>, files: FP.Files, run: seq<(FP.Journal, Books)>,
      changes: seq<Change>, i: nat, p: Path)
    requires IsRun(starting, files, run, changes) && i < |run| && p in run[i].0.files
    ensures p in files || exists m :: 0 <= m < i && MovesTo(changes[m], p)
  {
    if i > 0 {
      assert Changes(starting, changes[i - 1], run[i - 1].0, run[i - 1].1, run[i].0, run[i].1);
      if p in run[i - 1].0.files {
        FilesWereMoved(starting, files, run, changes, i - 1, p);
      } else {
        assert MovesTo(changes[i - 1], p);
      }
    }
  }

  predicate MovesTo(change: Change, p: Path) {
    change.MovedTo? && change.final == p
  }

  /** A step moves a file to a path that the disk does not have, and a later step takes it away from there. */
  ghost predicate MovesOn(changes: seq<Change>, i: nat, disk: FP.Files) {
    exists m, n, p :: 0 <= m < n < i && i <= |changes| &&
                      MovesTo(changes[m], p) && p in Removes(changes[n]) && p !in disk
  }

  /** The journal of a run can be written back, to a disk that holds the files it started from, exactly if no file
      is moved to a path that is not on disk and away from there again. */
  lemma RunCanBeWrittenBack(starting: set<Path>, files: FP.Files, run: seq<(FP.Journal, Books)>, changes: seq<Change>,
      i: nat, disk: FP.Files)
    requires IsRun(starting, files, run, changes) && i < |run| && files.Keys <= disk.Keys
    ensures run[i].0.deleted <= disk.Keys <==> !MovesOn(changes, i, disk)
  {
    forall p | p in run[i].0.deleted && p !in disk
      ensures MovesOn(changes, i, disk)
    {
      RunDeletes(starting, files, run, changes, i, p);
      var n :| 0 <= n < i && p in Removes(changes[n]);
      assert Changes(starting, changes[n], run[n].0, run[n].1, run[n + 1].0, run[n + 1].1);
      FilesWereMoved(starting, files, run, changes, n, p);
      var m :| 0 <= m < n && MovesTo(changes[m], p);
    }
    forall m, n, p | 0 <= m < n < i && MovesTo(changes[m], p) && p in Removes(changes[n]) && p !in disk
      ensures p in run[i].0.deleted
    {
      RunDeletes(starting, files, run, changes, i, p);
    }
  }

  // ----- The end of a run -----

  datatype Finish = Written | DryRun | ConflictsReported | WriteFailed

  /** Conflicts keep everything off the disk. Otherwise the journal is replayed. */
  method FinishRun(provider: FP.InMemoryFileProvider, report: Report, disk: FP.Disk, dryRun: bool) returns (r: Finish)
    requires provider.modified <= provider.files.Keys
    modifies disk
    ensures r.ConflictsReported? <==> AnyConflicts(report.State())
    ensures r.DryRun? <==> !AnyConflicts(report.State()) && dryRun
    ensures r.ConflictsReported? || r.DryRun? ==> disk.content == old(disk.content)
    ensures r.WriteFailed? ==> !(provider.deleted <= old(disk.content).Keys)
    ensures r.Written? ==> disk.content == FP.Replay(old(disk.content), provider.State())
  {
    var conflicts := report.HasConflicts();
    if conflicts {
      return ConflictsReported;
    }
    if dryRun {
      return DryRun;
    }
    var ok := FP.WriteBack(provider, disk);
    return if ok then Written else WriteFailed;
  }
}
