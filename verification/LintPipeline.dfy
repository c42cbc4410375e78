/** How changes trigger lint runs in the language server: writers post to a bounded channel, a collector
    coalesces the posts into a slot for one piece of work, and a single runner lints
    (internal/lsp/server.go and internal/lsp/lint.go). */
module LintPipeline {
  import opened MapTotals

  type Uri = string
  type Contents = map<Uri, string>

  /** What tells writers that are under way apart. */
  type Name = string

  datatype Option<T> = None | Some(value: T)

  /** The capacity of the lintJobs channel. */
  const CAPACITY := 10

  /** A writer that has changed something: the parse of a file, then the post, are still to come. */
  datatype Writer = Wrote(uri: Uri) | Ready

  datatype Collector = Listening | Holding

  /** The runner reads the configuration, then the files, then the modules, then lints. */
  datatype Runner = Waiting | Woken | HasConfig | HasFiles | Linting

  /** What one lint run works on. */
  datatype Snapshot = Snapshot(config: string, files: Contents, modules: Contents)

  /** Beside the queues: the files and modules changed without a post since their last snapshot, the changes with
      a post made and seen, and the numbers of posts, of posts that found the slot full, and of runs. */
  datatype State = State(
    config: string, files: Contents, modules: Contents,
    writers: map<Name, Writer>, jobs: nat, collector: Collector, slot: bool, runner: Runner,
    seen: Snapshot,
    quietFiles: set<Uri>, quietModules: set<Uri>,
    edits: nat, seenEdits: nat, parses: nat, seenParses: nat,
    posts: nat, coalesced: nat, runs: nat)

  datatype Step =
    | Write(id: Name, uri: Uri, text: string)
    | Configure(id: Name, newConfig: string)
    | Tick(id: Name)
    | ChangeQuietly(uri: Uri, newText: Option<string>, newModule: Option<string>)
    | Parse(id: Name, uri: Uri, parsed: Option<string>)
    | Post(id: Name)
    | Collect
    | Push
    | Wake
    | ReadConfig
    | ReadFiles
    | ReadModules
    | Finish

  function Initial(config: string): State {
    State(config, map[], map[], map[], 0, Listening, false, Waiting,
          Snapshot(config, map[], map[]), {}, {}, 0, 0, 0, 0, 0, 0, 0)
  }

  predicate Enabled(s: State, step: Step) {
    match step
    case Write(id, _, _) => id !in s.writers
    case Configure(id, _) => id !in s.writers
    case Tick(id) => id !in s.writers
    case ChangeQuietly(_, _, _) => true
    case Parse(id, uri, _) => id in s.writers && s.writers[id] == Wrote(uri)
    case Post(id) => id in s.writers && s.writers[id].Ready? && s.jobs < CAPACITY
    case Collect => s.collector.Listening? && s.jobs > 0
    case Push => s.collector.Holding?
    case Wake => s.runner.Waiting? && s.slot
    case ReadConfig => s.runner.Woken?
    case ReadFiles => s.runner.HasConfig?
    case ReadModules => s.runner.HasFiles?
    case Finish => s.runner.Linting?
  }

  function Updated(m: Contents, uri: Uri, v: Option<string>): Contents {
    match v case Some(text) => m[uri := text] case None => m - {uri}
  }

  function Next(s: State, step: Step): State
    requires Enabled(s, step)
  {
    match step
    case Write(id, uri, text) =>
      s.(files := s.files[uri := text], writers := s.writers[id := Wrote(uri)], edits := s.edits + 1)
    case Configure(id, config) => s.(config := config, writers := s.writers[id := Ready])
    case Tick(id) => s.(writers := s.writers[id := Ready])
    case ChangeQuietly(uri, text, mod) =>
      s.(files := Updated(s.files, uri, text), modules := Updated(s.modules, uri, mod),
         quietFiles := s.quietFiles + {uri}, quietModules := s.quietModules + {uri})
    case Parse(id, uri, parsed) =>
      s.(modules := if parsed.Some? then s.modules[uri := parsed.value] else s.modules,
         writers := s.writers[id := Ready], parses := s.parses + 1)
    case Post(id) => s.(writers := s.writers - {id}, jobs := s.jobs + 1, posts := s.posts + 1)
    case Collect => s.(jobs := s.jobs - 1, collector := Holding)
    case Push =>
      // a non-blocking send: when the slot is taken, the post coalesces with it
      if s.slot then s.(collector := Listening, coalesced := s.coalesced + 1)
      else s.(collector := Listening, slot := true)
    case Wake => s.(slot := false, runner := Woken, runs := s.runs + 1)
    case ReadConfig => s.(runner := HasConfig, seen := s.seen.(config := s.config))
    case ReadFiles =>
      s.(runner := HasFiles, seen := s.seen.(files := s.files), quietFiles := {}, seenEdits := s.edits)
    case ReadModules =>
      s.(runner := Linting, seen := s.seen.(modules := s.modules), quietModules := {}, seenParses := s.parses)
    case Finish => s.(runner := Waiting)
  }

  /** The state after all steps, each of which must be enabled. */
  ghost predicate Leads(s: State, steps: seq<Step>, s': State) {
    if steps == [] then s' == s
    else
      var init, last := steps[..|steps| - 1], steps[|steps| - 1];
      exists mid :: Leads(s, init, mid) && Enabled(mid, last) && s' == Next(mid, last)
  }

  ghost predicate Reachable(s: State) {
    exists config, steps :: Leads(Initial(config), steps, s)
  }

  // ----- Safety -----

  /** A post that the runner has not answered by waking up is on its way somewhere. */
  predicate OnTheWay(s: State) {
    s.writers != map[] || s.jobs > 0 || s.collector.Holding? || s.slot
  }

  function At(m: Contents, uri: Uri): Option<string> {
    if uri in m then Some(m[uri]) else None
  }

  ghost predicate AgreeExcept(m: Contents, m': Contents, except: set<Uri>) {
    forall uri :: uri !in except ==> At(m, uri) == At(m', uri)
  }

  predicate AwaitsFiles(r: Runner) {
    r.Woken? || r.HasConfig?
  }

  predicate AwaitsModules(r: Runner) {
    AwaitsFiles(r) || r.HasFiles?
  }

  /** Whatever the runner has not seen, it is still going to see. */
  ghost predicate NothingLost(s: State) {
    && (s.seen.config == s.config || OnTheWay(s) || s.runner.Woken?)
    && ((AgreeExcept(s.files, s.seen.files, s.quietFiles) && s.seenEdits == s.edits)
        || OnTheWay(s) || AwaitsFiles(s.runner))
    && ((AgreeExcept(s.modules, s.seen.modules, s.quietModules) && s.seenParses == s.parses)
        || OnTheWay(s) || AwaitsModules(s.runner))
  }

  function One(b: bool): nat {
    if b then 1 else 0
  }

  /** Every post is queued, held, in the slot, coalesced or answered by a run. */
  predicate PostsAccounted(s: State) {
    && s.jobs <= CAPACITY
    && s.posts == s.jobs + One(s.collector.Holding?) + One(s.slot) + s.coalesced + s.runs
  }

  lemma StepKeepsInvariant(s: State, step: Step)
    requires NothingLost(s) && PostsAccounted(s) && Enabled(s, step)
    ensures NothingLost(Next(s, step)) && PostsAccounted(Next(s, step))
  {
    var s' := Next(s, step);
    match step
    case Write(id, _, _) => assert id in s'.writers;
    case Configure(id, _) => assert id in s'.writers;
    case Tick(id) => assert id in s'.writers;
    case Parse(id, _, _) => assert id in s'.writers;
    case Post(_) =>
    case ChangeQuietly(_, _, _) =>
    case Collect =>
    case Push =>
    case Wake =>
    case ReadConfig =>
    case ReadFiles =>
    case ReadModules =>
    case Finish =>
  }

  lemma {:induction false} RunKeepsInvariant(config: string, steps: seq<Step>, s: State)
    requires Leads(Initial(config), steps, s)
    ensures NothingLost(s) && PostsAccounted(s)
  {
    if steps != [] {
      var init, last := steps[..|steps| - 1], steps[|steps| - 1];
      var mid :| Leads(Initial(config), init, mid) && Enabled(mid, last) && s == Next(mid, last);
      RunKeepsInvariant(config, init, mid);
      StepKeepsInvariant(mid, last);
    }
  }

  /** No writer between its change and its post, empty queues, and everybody idle. */
  predicate Quiet(s: State) {
    !OnTheWay(s) && s.runner.Waiting?
  }

  /** No lint is lost: once everything is quiet, the last run saw the current configuration, and it read files and
      modules after the last change of each that posts a trigger. */
  lemma NoLostLint(s: State)
    requires Reachable(s) && Quiet(s)
    ensures s.seen.config == s.config
    ensures s.seenEdits == s.edits && AgreeExcept(s.files, s.seen.files, s.quietFiles)
    ensures s.seenParses == s.parses && AgreeExcept(s.modules, s.seen.modules, s.quietModules)
  {
    var config, steps :| Leads(Initial(config), steps, s);
    RunKeepsInvariant(config, steps, s);
  }

  /** There are never more runs than posts. */
  lemma RunsBoundedByPosts(s: State)
    requires Reachable(s)
    ensures s.runs + s.coalesced <= s.posts
    ensures Quiet(s) ==> s.runs + s.coalesced == s.posts
  {
    var config, steps :| Leads(Initial(config), steps, s);
    RunKeepsInvariant(config, steps, s);
  }

  // ----- What is linted -----

  predicate ChangesFile(step: Step, uri: Uri) {
    (step.Write? || step.ChangeQuietly?) && step.uri == uri
  }

  predicate ChangesModule(step: Step, uri: Uri) {
    ((step.Parse? && step.parsed.Some?) || step.ChangeQuietly?) && step.uri == uri
  }

  /** A file holds a text, which the runner has seen or is going to see. */
  ghost predicate FileComesThrough(s: State, uri: Uri, text: string) {
    && uri in s.files && s.files[uri] == text
    && ((uri in s.seen.files && s.seen.files[uri] == text) || OnTheWay(s) || AwaitsFiles(s.runner))
  }

  ghost predicate ModuleComesThrough(s: State, uri: Uri, syntax: string) {
    && uri in s.modules && s.modules[uri] == syntax
    && ((uri in s.seen.modules && s.seen.modules[uri] == syntax) || OnTheWay(s) || AwaitsModules(s.runner))
  }

  ghost predicate ConfigComesThrough(s: State, config: string) {
    s.config == config && (s.seen.config == config || OnTheWay(s) || s.runner.Woken?)
  }

  lemma OnTheWayStays(s: State, step: Step)
    requires Enabled(s, step) && OnTheWay(s)
    ensures OnTheWay(Next(s, step)) || Next(s, step).runner.Woken?
  {
    var s' := Next(s, step);
    match step
    case Write(id, _, _) => assert id in s'.writers;
    case Configure(id, _) => assert id in s'.writers;
    case Tick(id) => assert id in s'.writers;
    case Parse(id, _, _) => assert id in s'.writers;
    case _ =>
  }

  lemma StepKeepsFile(s: State, step: Step, uri: Uri, text: string)
    requires Enabled(s, step) && FileComesThrough(s, uri, text) && !ChangesFile(step, uri)
    ensures FileComesThrough(Next(s, step), uri, text)
  {
    if OnTheWay(s) {
      OnTheWayStays(s, step);
    }
  }

  lemma StepKeepsModule(s: State, step: Step, uri: Uri, syntax: string)
    requires Enabled(s, step) && ModuleComesThrough(s, uri, syntax) && !ChangesModule(step, uri)
    ensures ModuleComesThrough(Next(s, step), uri, syntax)
  {
    if OnTheWay(s) {
      OnTheWayStays(s, step);
    }
  }

  lemma StepKeepsConfig(s: State, step: Step, config: string)
    requires Enabled(s, step) && ConfigComesThrough(s, config) && !step.Configure?
    ensures ConfigComesThrough(Next(s, step), config)
  {
    if OnTheWay(s) {
      OnTheWayStays(s, step);
    }
  }

  lemma {:induction false} FileStays(s: State, more: seq<Step>, s': State, uri: Uri, text: string)
    requires Leads(s, more, s') && FileComesThrough(s, uri, text)
    requires forall i :: 0 <= i < |more| ==> !ChangesFile(more[i], uri)
    ensures FileComesThrough(s', uri, text)
  {
    if more != [] {
      var init, last := more[..|more| - 1], more[|more| - 1];
      var mid :| Leads(s, init, mid) && Enabled(mid, last) && s' == Next(mid, last);
      FileStays(s, init, mid, uri, text);
      StepKeepsFile(mid, last, uri, text);
    }
  }

  lemma {:induction false} ModuleStays(s: State, more: seq<Step>, s': State, uri: Uri, syntax: string)
    requires Leads(s, more, s') && ModuleComesThrough(s, uri, syntax)
    requires forall i :: 0 <= i < |more| ==> !ChangesModule(more[i], uri)
    ensures ModuleComesThrough(s', uri, syntax)
  {
    if more != [] {
      var init, last := more[..|more| - 1], more[|more| - 1];
      var mid :| Leads(s, init, mid) && Enabled(mid, last) && s' == Next(mid, last);
      ModuleStays(s, init, mid, uri, syntax);
      StepKeepsModule(mid, last, uri, syntax);
    }
  }

  lemma {:induction false} ConfigStays(s: State, more: seq<Step>, s': State, config: string)
    requires Leads(s, more, s') && ConfigComesThrough(s, config)
    requires forall i :: 0 <= i < |more| ==> !more[i].Configure?
    ensures ConfigComesThrough(s', config)
  {
    if more != [] {
      var init, last := more[..|more| - 1], more[|more| - 1];
      var mid :| Leads(s, init, mid) && Enabled(mid, last) && s' == Next(mid, last);
      ConfigStays(s, init, mid, config);
      StepKeepsConfig(mid, last, config);
    }
  }

  /** The state in which the i-th step is taken. */
  lemma {:induction false} StateBefore(s: State, steps: seq<Step>, s': State, i: nat) returns (mid: State)
    requires Leads(s, steps, s') && i < |steps|
    ensures Leads(s, steps[..i], mid) && Enabled(mid, steps[i]) && Leads(Next(mid, steps[i]), steps[i + 1..], s')
    decreases |steps|
  {
    var init, last := steps[..|steps| - 1], steps[|steps| - 1];
    var before :| Leads(s, init, before) && Enabled(before, last) && s' == Next(before, last);
    if i == |steps| - 1 {
      mid := before;
      assert steps[i + 1..] == [];
    } else {
      mid := StateBefore(s, init, before, i);
      assert init[..i] == steps[..i];
      var rest := steps[i + 1..];
      assert rest[..|rest| - 1] == init[i + 1..] && rest[|rest| - 1] == last;
    }
  }

  /** After a write that no later step has overwritten, the file has the text that was written, and once everything is
      quiet that text has been linted. */
  lemma LastWriteIsLinted(config: string, steps: seq<Step>, s: State, i: nat, uri: Uri)
    requires Leads(Initial(config), steps, s)
    requires i < |steps| && steps[i].Write? && steps[i].uri == uri
    requires forall k :: i < k < |steps| ==> !ChangesFile(steps[k], uri)
    ensures uri in s.files && s.files[uri] == steps[i].text
    ensures Quiet(s) ==> uri in s.seen.files && s.seen.files[uri] == steps[i].text
  {
    var mid := StateBefore(Initial(config), steps, s, i);
    assert steps[i].id in Next(mid, steps[i]).writers;
    FileStays(Next(mid, steps[i]), steps[i + 1..], s, uri, steps[i].text);
  }

  /** The same for the module that the last successful parse of a file has given. */
  lemma LastModuleIsLinted(config: string, steps: seq<Step>, s: State, i: nat, uri: Uri)
    requires Leads(Initial(config), steps, s)
    requires i < |steps| && steps[i].Parse? && steps[i].uri == uri && steps[i].parsed.Some?
    requires forall k :: i < k < |steps| ==> !ChangesModule(steps[k], uri)
    ensures uri in s.modules && s.modules[uri] == steps[i].parsed.value
    ensures Quiet(s) ==> uri in s.seen.modules && s.seen.modules[uri] == steps[i].parsed.value
  {
    var mid := StateBefore(Initial(config), steps, s, i);
    assert steps[i].id in Next(mid, steps[i]).writers;
    ModuleStays(Next(mid, steps[i]), steps[i + 1..], s, uri, steps[i].parsed.value);
  }

  /** The same for the last configuration. */
  lemma LastConfigIsLinted(config: string, steps: seq<Step>, s: State, i: nat)
    requires Leads(Initial(config), steps, s)
    requires i < |steps| && steps[i].Configure? && forall k :: i < k < |steps| ==> !steps[k].Configure?
    ensures s.config == steps[i].newConfig
    ensures Quiet(s) ==> s.seen.config == steps[i].newConfig
  {
    var mid := StateBefore(Initial(config), steps, s, i);
    assert steps[i].id in Next(mid, steps[i]).writers;
    ConfigStays(Next(mid, steps[i]), steps[i + 1..], s, steps[i].newConfig);
  }

  lemma StepKeepsOthers(s: State, step: Step, uri: Uri)
    requires Enabled(s, step)
    ensures !ChangesFile(step, uri) ==> At(Next(s, step).files, uri) == At(s.files, uri)
    ensures !ChangesModule(step, uri) ==> At(Next(s, step).modules, uri) == At(s.modules, uri)
  {
  }

  lemma {:induction false} UnchangedStays(s: State, more: seq<Step>, s': State, uri: Uri)
    requires Leads(s, more, s')
    ensures (forall i :: 0 <= i < |more| ==> !ChangesFile(more[i], uri)) ==> At(s'.files, uri) == At(s.files, uri)
    ensures (forall i :: 0 <= i < |more| ==> !ChangesModule(more[i], uri)) ==> At(s'.modules, uri) == At(s.modules, uri)
  {
    if more != [] {
      var init, last := more[..|more| - 1], more[|more| - 1];
      var mid :| Leads(s, init, mid) && Enabled(mid, last) && s' == Next(mid, last);
      UnchangedStays(s, init, mid, uri);
      assert forall i :: 0 <= i < |init| ==> init[i] == more[i];
      StepKeepsOthers(mid, last, uri);
    }
  }

  /** After a change without a post, too, the file and the module are what the change has made of them, until they are
      changed again. */
  lemma LastQuietChangeStays(config: string, steps: seq<Step>, s: State, i: nat, uri: Uri)
    requires Leads(Initial(config), steps, s) && i < |steps| && steps[i].ChangeQuietly? && steps[i].uri == uri
    ensures (forall k :: i < k < |steps| ==> !ChangesFile(steps[k], uri)) ==> At(s.files, uri) == steps[i].newText
    ensures (forall k :: i < k < |steps| ==> !ChangesModule(steps[k], uri)) ==> At(s.modules, uri) == steps[i].newModule
  {
    var mid := StateBefore(Initial(config), steps, s, i);
    var rest := steps[i + 1..];
    UnchangedStays(Next(mid, steps[i]), rest, s, uri);
    assert forall k :: 0 <= k < |rest| ==> rest[k] == steps[i + 1 + k];
  }

  /** A step that the writer id takes. */
  predicate IsOf(step: Step, id: Name) {
    (step.Write? || step.Configure? || step.Tick? || step.Parse? || step.Post?) && step.id == id
  }

  lemma StepKeepsWriter(s: State, step: Step, id: Name)
    requires Enabled(s, step) && id in s.writers && !IsOf(step, id)
    ensures id in Next(s, step).writers && Next(s, step).writers[id] == s.writers[id]
  {
  }

  lemma {:induction false} WriterHasWritten(config: string, steps: seq<Step>, s: State, i: nat, id: Name)
    requires Leads(Initial(config), steps, s)
    requires i < |steps| && steps[i].Write? && steps[i].id == id
    requires forall k :: i < k < |steps| ==> !IsOf(steps[k], id)
    ensures id in s.writers && s.writers[id] == Wrote(steps[i].uri)
    decreases |steps|
  {
    var init, last := steps[..|steps| - 1], steps[|steps| - 1];
    var mid :| Leads(Initial(config), init, mid) && Enabled(mid, last) && s == Next(mid, last);
    if i < |steps| - 1 {
      WriterHasWritten(config, init, mid, i, id);
      StepKeepsWriter(mid, last, id);
    }
  }

  /** A writer goes on to parse the file that it has written, and no other, before it posts. */
  lemma WriterParsesItsFile(config: string, steps: seq<Step>, s: State, i: nat, id: Name)
    requires Leads(Initial(config), steps, s)
    requires i < |steps| && steps[i].Write? && steps[i].id == id
    requires forall k :: i < k < |steps| ==> !IsOf(steps[k], id)
    ensures forall uri, parsed :: Enabled(s, Parse(id, uri, parsed)) <==> uri == steps[i].uri
    ensures !Enabled(s, Post(id))
  {
    WriterHasWritten(config, steps, s, i, id);
  }

  // ----- Progress -----

  /** The steps of the pipeline itself, as opposed to new changes. */
  predicate IsInternal(step: Step) {
    !(step.Write? || step.Configure? || step.Tick? || step.ChangeQuietly?)
  }

  function WriterWeight(w: Writer): nat {
    if w.Wrote? then 9 else 8
  }

  function RunnerWeight(r: Runner): nat {
    match r case Woken => 4 case HasConfig => 3 case HasFiles => 2 case Linting => 1 case Waiting => 0
  }

  /** A bound on the internal steps that are left. */
  ghost function Remaining(s: State): nat {
    Total(s.writers, WriterWeight) + 7 * s.jobs + 6 * One(s.collector.Holding?) + 5 * One(s.slot)
    + RunnerWeight(s.runner)
  }

  lemma InternalStepsRunOut(s: State, step: Step)
    requires Enabled(s, step) && IsInternal(step)
    ensures Remaining(Next(s, step)) < Remaining(s)
  {
    match step
    case Parse(id, _, _) => TotalUpdate(s.writers, WriterWeight, id, Ready);
    case Post(id) => TotalRemove(s.writers, WriterWeight, id);
    case _ =>
  }

  /** Something can always go on until everything is quiet: writers blocked on a full channel get their turn, and
      the collector never waits for the runner. */
  lemma NeverStuck(s: State)
    requires !Quiet(s)
    ensures exists step :: IsInternal(step) && Enabled(s, step)
    ensures s.collector.Holding? ==> Enabled(s, Push)
  {
    var step :=
      if s.collector.Holding? then Push
      else if s.jobs > 0 then Collect
      else if s.runner.Woken? then ReadConfig
      else if s.runner.HasConfig? then ReadFiles
      else if s.runner.HasFiles? then ReadModules
      else if s.runner.Linting? then Finish
      else if s.slot then Wake
      else
        var id :| id in s.writers;
        if s.writers[id].Wrote? then Parse(id, s.writers[id].uri, None) else Post(id);
    assert IsInternal(step) && Enabled(s, step);
  }

  /** Steps of the pipeline itself use up what remains, and change nothing that is linted. */
  lemma {:induction false} InternalRunsAreShort(s: State, more: seq<Step>, s': State)
    requires Leads(s, more, s') && forall i :: 0 <= i < |more| ==> IsInternal(more[i])
    ensures |more| + Remaining(s') <= Remaining(s)
    ensures s'.edits == s.edits && s'.config == s.config && s'.files == s.files
  {
    if more != [] {
      var init, last := more[..|more| - 1], more[|more| - 1];
      var mid :| Leads(s, init, mid) && Enabled(mid, last) && s' == Next(mid, last);
      InternalRunsAreShort(s, init, mid);
      InternalStepsRunOut(mid, last);
    }
  }

  /** When no further change is made, every way of going on ends after boundedly many steps, quiet and with all
      changes seen. */
  lemma Settles(s: State, more: seq<Step>, s': State)
    requires Reachable(s) && Leads(s, more, s') && forall i :: 0 <= i < |more| ==> IsInternal(more[i])
    ensures |more| <= Remaining(s)
    ensures !Quiet(s') ==> exists step :: IsInternal(step) && Enabled(s', step)
    ensures Quiet(s') ==>
      && s'.seen.config == s.config
      && s'.seenEdits == s.edits && AgreeExcept(s.files, s'.seen.files, s'.quietFiles)
      && s'.seenParses == s'.parses && AgreeExcept(s'.modules, s'.seen.modules, s'.quietModules)
  {
    InternalRunsAreShort(s, more, s');
    var config, steps :| Leads(Initial(config), steps, s);
    LeadsOn(Initial(config), steps, s, more, s');
    if Quiet(s') {
      NoLostLint(s');
    } else {
      NeverStuck(s');
    }
  }

  lemma {:induction false} LeadsOn(s: State, steps: seq<Step>, mid: State, more: seq<Step>, s': State)
    requires Leads(s, steps, mid) && Leads(mid, more, s')
    ensures Leads(s, steps + more, s')
  {
    if more == [] {
      assert steps + more == steps;
    } else {
      var init, last := more[..|more| - 1], more[|more| - 1];
      var before :| Leads(mid, init, before) && Enabled(before, last) && s' == Next(before, last);
      LeadsOn(s, steps, mid, init, before);
      assert (steps + more)[..|steps + more| - 1] == steps + init;
    }
  }
}
