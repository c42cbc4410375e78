/** The language server's per-file caches (internal/lsp/cache/cache.go), and how a new configuration moves files
    between the regular and the ignored part (loadConfig in internal/lsp/server.go). */
module LspCache {

  type Uri = string

  datatype Option<T> = None | Some(value: T)

  /** What a parse of a file yields: a module, or errors. */
  datatype ParseOutcome = Parsed(syntax: string) | ParseErrors(errors: seq<string>)

  datatype Contents = Contents(
    files: map<Uri, string>,
    ignored: map<Uri, string>,
    modules: map<Uri, string>,
    diagnostics: map<Uri, seq<string>>,
    parseErrors: map<Uri, seq<string>>,
    lineCounts: map<Uri, nat>)

  function Without(c: Contents, uri: Uri): Contents {
    Contents(c.files - {uri}, c.ignored - {uri}, c.modules - {uri}, c.diagnostics - {uri},
             c.parseErrors - {uri}, c.lineCounts - {uri})
  }

  class Cache {
    var fileContents: map<Uri, string>
    var ignoredFileContents: map<Uri, string>
    var modules: map<Uri, string>
    var diagnosticsFile: map<Uri, seq<string>>
    var diagnosticsParseErrors: map<Uri, seq<string>>
    var successfulParseLineCounts: map<Uri, nat>

    ghost function State(): Contents
      reads this
    {
      Contents(fileContents, ignoredFileContents, modules, diagnosticsFile, diagnosticsParseErrors,
               successfulParseLineCounts)
    }

    constructor ()
      ensures State() == Contents(map[], map[], map[], map[], map[], map[])
    {
      fileContents, ignoredFileContents, modules := map[], map[], map[];
      diagnosticsFile, diagnosticsParseErrors, successfulParseLineCounts := map[], map[], map[];
    }

    /** Removes everything known about a file, its ignored contents too. */
    method Delete(uri: Uri)
      modifies this
      ensures State() == Without(old(State()), uri)
      ensures fileContents == old(fileContents) - {uri} && ignoredFileContents == old(ignoredFileContents) - {uri}
      ensures modules == old(modules) - {uri} && diagnosticsFile == old(diagnosticsFile) - {uri}
      ensures diagnosticsParseErrors == old(diagnosticsParseErrors) - {uri}
      ensures successfulParseLineCounts == old(successfulParseLineCounts) - {uri}
    {
      fileContents := fileContents - {uri};
      ignoredFileContents := ignoredFileContents - {uri};
      modules := modules - {uri};
      diagnosticsFile := diagnosticsFile - {uri};
      diagnosticsParseErrors := diagnosticsParseErrors - {uri};
      successfulParseLineCounts := successfulParseLineCounts - {uri};
    }

    method UpdateParse(uri: Uri, outcome: ParseOutcome, numLines: nat)
      modifies this`modules, this`diagnosticsParseErrors, this`successfulParseLineCounts
      ensures State() == AfterParse(old(State()), uri, outcome, numLines)
      ensures outcome.Parsed? ==>
        && modules == old(modules)[uri := outcome.syntax]
        && diagnosticsParseErrors == old(diagnosticsParseErrors)[uri := []]
        && successfulParseLineCounts == old(successfulParseLineCounts)[uri := numLines]
      ensures outcome.ParseErrors? ==>
        && modules == old(modules) && successfulParseLineCounts == old(successfulParseLineCounts)
        && diagnosticsParseErrors == old(diagnosticsParseErrors)[uri := outcome.errors]
    {
      match outcome
      case Parsed(syntax) =>
        diagnosticsParseErrors := diagnosticsParseErrors[uri := []];
        modules := modules[uri := syntax];
        successfulParseLineCounts := successfulParseLineCounts[uri := numLines];
      case ParseErrors(errors) =>
        diagnosticsParseErrors := diagnosticsParseErrors[uri := errors];
    }
  }

  function AfterParse(c: Contents, uri: Uri, outcome: ParseOutcome, numLines: nat): Contents {
    match outcome
    case Parsed(syntax) =>
      c.(parseErrors := c.parseErrors[uri := []], modules := c.modules[uri := syntax],
         lineCounts := c.lineCounts[uri := numLines])
    case ParseErrors(errors) => c.(parseErrors := c.parseErrors[uri := errors])
  }

  // ----- One file -----

  /** What is derived from the content of a file. */
  datatype Derived = Derived(
    syntax: Option<string>,
    diagnostics: Option<seq<string>>,
    parseErrors: Option<seq<string>>,
    lineCount: Option<nat>)

  const NOTHING := Derived(None, None, None, None)

  /** All that is known about one file. */
  datatype Entry = Entry(regular: Option<string>, ignored: Option<string>, derived: Derived)

  function At<V>(m: map<Uri, V>, uri: Uri): Option<V> {
    if uri in m then Some(m[uri]) else None
  }

  function EntryOf(c: Contents, uri: Uri): Entry {
    Entry(At(c.files, uri), At(c.ignored, uri),
          Derived(At(c.modules, uri), At(c.diagnostics, uri), At(c.parseErrors, uri), At(c.lineCounts, uri)))
  }

  /** A regular file that is ignored now becomes an ignored one, and all else about it is dropped. */
  function MovedToIgnored(e: Entry, ignore: bool): Entry {
    if ignore && e.regular.Some? then Entry(None, e.regular, NOTHING) else e
  }

  function ParsedAs(d: Derived, outcome: ParseOutcome, numLines: nat): Derived {
    match outcome
    case Parsed(syntax) => Derived(Some(syntax), d.diagnostics, Some([]), Some(numLines))
    case ParseErrors(errors) => d.(parseErrors := Some(errors))
  }

  /** How a text is parsed, and how many lines it has. */
  datatype Parser = Parser(parse: (Uri, string) -> ParseOutcome, numLines: string -> nat)

  /** An ignored file that is not ignored any more becomes a regular one, unless there is a regular copy. */
  function MovedBack(e: Entry, uri: Uri, ignore: bool, p: Parser): Entry {
    if ignore || e.ignored.None? then e
    else if e.regular.Some? then e.(ignored := None)
    else
      var text := e.ignored.value;
      Entry(e.ignored, None, ParsedAs(e.derived, p.parse(uri, text), p.numLines(text)))
  }

  /** The content of a file, wherever it is kept; the regular copy wins. */
  function ContentOf(e: Entry): Option<string> {
    if e.regular.Some? then e.regular else e.ignored
  }

  // ----- Loading a configuration -----

  /** One turn of the first loop, for a file that is ignored now. */
  method MoveOneIgnored(cache: Cache, uri: Uri)
    modifies cache
    ensures EntryOf(cache.State(), uri) == MovedToIgnored(EntryOf(old(cache.State()), uri), true)
    ensures forall other :: other != uri ==> EntryOf(cache.State(), other) == EntryOf(old(cache.State()), other)
  {
    if uri in cache.fileContents {
      var contents := cache.fileContents[uri];
      cache.Delete(uri);
      cache.ignoredFileContents := cache.ignoredFileContents[uri := contents];
    }
  }

  method MoveIgnored(cache: Cache, ignore: Uri -> bool)
    modifies cache
    ensures forall uri :: EntryOf(cache.State(), uri) == MovedToIgnored(EntryOf(old(cache.State()), uri), ignore(uri))
  {
    ghost var before := cache.State();
    var todo := cache.fileContents.Keys;
    while todo != {}
      invariant todo <= before.files.Keys
      invariant forall uri :: EntryOf(cache.State(), uri) ==
                  if uri in todo then EntryOf(before, uri) else MovedToIgnored(EntryOf(before, uri), ignore(uri))
      decreases todo
    {
      var uri :| uri in todo;
      assert EntryOf(cache.State(), uri) == EntryOf(before, uri);
      todo := todo - {uri};
      if ignore(uri) {
        MoveOneIgnored(cache, uri);
      }
    }
  }

  /** One turn of the second loop, for a file that is not ignored any more. */
  method MoveOneBack(cache: Cache, uri: Uri, text: string, p: Parser)
    requires uri in cache.ignoredFileContents && cache.ignoredFileContents[uri] == text
    modifies cache
    ensures EntryOf(cache.State(), uri) == MovedBack(EntryOf(old(cache.State()), uri), uri, false, p)
    ensures forall other :: other != uri ==> EntryOf(cache.State(), other) == EntryOf(old(cache.State()), other)
  {
    if uri !in cache.fileContents {
      cache.fileContents := cache.fileContents[uri := text];
      cache.UpdateParse(uri, p.parse(uri, text), p.numLines(text));
    }
    cache.ignoredFileContents := cache.ignoredFileContents - {uri};
  }

  method MoveBack(cache: Cache, ignore: Uri -> bool, p: Parser)
    modifies cache
    ensures forall uri ::
      EntryOf(cache.State(), uri) == MovedBack(EntryOf(old(cache.State()), uri), uri, ignore(uri), p)
  {
    ghost var before := cache.State();
    var ignored := cache.ignoredFileContents;
    var todo := ignored.Keys;
    while todo != {}
      invariant todo <= ignored.Keys
      invariant forall uri :: EntryOf(cache.State(), uri) ==
                  if uri in todo then EntryOf(before, uri) else MovedBack(EntryOf(before, uri), uri, ignore(uri), p)
      decreases todo
    {
      var uri :| uri in todo;
      assert EntryOf(cache.State(), uri) == EntryOf(before, uri);
      todo := todo - {uri};
      if !ignore(uri) {
        MoveOneBack(cache, uri, ignored[uri], p);
      }
    }
  }

  /** Loads a configuration, whose capabilities may not be found. */
  method LoadConfig(cache: Cache, ignore: Uri -> bool, capabilitiesFound: bool, p: Parser)
    modifies cache
    ensures !capabilitiesFound ==> cache.State() == old(cache.State())
    ensures capabilitiesFound ==> forall uri ::
      EntryOf(cache.State(), uri) ==
      MovedBack(MovedToIgnored(EntryOf(old(cache.State()), uri), ignore(uri)), uri, ignore(uri), p)
    ensures capabilitiesFound ==> Partitioned(cache.State(), ignore)
    ensures SameContents(old(cache.State()), cache.State())
  {
    if !capabilitiesFound {
      return;
    }
    ghost var before := cache.State();
    MoveIgnored(cache, ignore);
    MoveBack(cache, ignore, p);
    forall uri
      ensures EntryOf(cache.State(), uri) ==
              MovedBack(MovedToIgnored(EntryOf(before, uri), ignore(uri)), uri, ignore(uri), p)
    {
    }
    LoadingPartitions(before, cache.State(), ignore, p);
  }

  /** Every file is in the part where the configuration wants it, and in no other. */
  ghost predicate Partitioned(c: Contents, ignore: Uri -> bool) {
    forall uri :: if ignore(uri) then uri !in c.files else uri !in c.ignored
  }

  ghost predicate SameContents(c: Contents, c': Contents) {
    forall uri :: ContentOf(EntryOf(c, uri)) == ContentOf(EntryOf(c', uri))
  }

  /** A file that the configuration ignores now: its content is kept apart, and nothing else is known about it. */
  ghost predicate IsSetAside(c: Contents, c': Contents, uri: Uri)
    requires uri in c.files
  {
    && uri !in c'.files && uri in c'.ignored && c'.ignored[uri] == c.files[uri]
    && uri !in c'.modules && uri !in c'.diagnostics && uri !in c'.parseErrors && uri !in c'.lineCounts
  }

  /** A file that it does not ignore any more: its content is back, with what parsing it gives. */
  ghost predicate IsBroughtBack(c: Contents, c': Contents, uri: Uri, p: Parser)
    requires uri in c.ignored
  {
    && uri in c'.files && c'.files[uri] == c.ignored[uri] && uri !in c'.ignored
    && At(c'.diagnostics, uri) == At(c.diagnostics, uri)
    && match p.parse(uri, c.ignored[uri])
       case Parsed(syntax) =>
         && At(c'.modules, uri) == Some(syntax) && At(c'.parseErrors, uri) == Some([])
         && At(c'.lineCounts, uri) == Some(p.numLines(c.ignored[uri]))
       case ParseErrors(errors) =>
         && At(c'.parseErrors, uri) == Some(errors)
         && At(c'.modules, uri) == At(c.modules, uri) && At(c'.lineCounts, uri) == At(c.lineCounts, uri)
  }

  /** What loading a configuration does to each file. */
  lemma LoadingMoves(c: Contents, c': Contents, ignore: Uri -> bool, p: Parser, uri: Uri)
    requires forall uri ::
      EntryOf(c', uri) == MovedBack(MovedToIgnored(EntryOf(c, uri), ignore(uri)), uri, ignore(uri), p)
    ensures ignore(uri) && uri in c.files ==> IsSetAside(c, c', uri)
    ensures ignore(uri) && uri !in c.files ==> EntryOf(c', uri) == EntryOf(c, uri)
    ensures !ignore(uri) && uri in c.ignored && uri !in c.files ==> IsBroughtBack(c, c', uri, p)
    ensures !ignore(uri) && uri in c.ignored && uri in c.files ==>
      uri !in c'.ignored && At(c'.files, uri) == At(c.files, uri) && EntryOf(c', uri).derived == EntryOf(c, uri).derived
    ensures !ignore(uri) && uri !in c.ignored ==> EntryOf(c', uri) == EntryOf(c, uri)
  {
    var e, e' := EntryOf(c, uri), EntryOf(c', uri);
    assert e' == MovedBack(MovedToIgnored(e, ignore(uri)), uri, ignore(uri), p);
    assert e.regular == At(c.files, uri) && e.ignored == At(c.ignored, uri);
    assert e'.regular == At(c'.files, uri) && e'.ignored == At(c'.ignored, uri);
  }

  lemma LoadingPartitions(c: Contents, c': Contents, ignore: Uri -> bool, p: Parser)
    requires forall uri ::
      EntryOf(c', uri) == MovedBack(MovedToIgnored(EntryOf(c, uri), ignore(uri)), uri, ignore(uri), p)
    ensures Partitioned(c', ignore) && SameContents(c, c')
    ensures c'.files.Keys + c'.ignored.Keys == c.files.Keys + c.ignored.Keys
  {
    forall uri
      ensures if ignore(uri) then uri !in c'.files else uri !in c'.ignored
      ensures ContentOf(EntryOf(c, uri)) == ContentOf(EntryOf(c', uri))
      ensures uri in c'.files.Keys + c'.ignored.Keys <==> uri in c.files.Keys + c.ignored.Keys
    {
      assert EntryOf(c', uri) == MovedBack(MovedToIgnored(EntryOf(c, uri), ignore(uri)), uri, ignore(uri), p);
      var e, e' := EntryOf(c, uri), EntryOf(c', uri);
      assert (e'.regular.Some? <==> uri in c'.files) && (e'.ignored.Some? <==> uri in c'.ignored);
    }
  }

  /** Where every file ends up is determined: partitioned states with the same contents hold the same files. */
  lemma PartitionIsUnique(c: Contents, c': Contents, ignore: Uri -> bool)
    requires Partitioned(c, ignore) && Partitioned(c', ignore) && SameContents(c, c')
    ensures c.files == c'.files && c.ignored == c'.ignored
  {
    forall uri
      ensures At(c.files, uri) == At(c'.files, uri) && At(c.ignored, uri) == At(c'.ignored, uri)
    {
      assert ContentOf(EntryOf(c, uri)) == ContentOf(EntryOf(c', uri));
    }
    SameLookups(c.files, c'.files);
    SameLookups(c.ignored, c'.ignored);
  }

  lemma SameLookups<V>(m: map<Uri, V>, m': map<Uri, V>)
    requires forall uri :: At(m, uri) == At(m', uri)
    ensures m == m'
  {
    forall uri
      ensures uri in m <==> uri in m'
      ensures uri in m && uri in m' ==> m[uri] == m'[uri]
    {
      assert At(m, uri) == At(m', uri);
    }
  }
}
