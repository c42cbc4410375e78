/** Slash-separated paths, as package path/filepath treats them on Unix. */
module Paths {

  /** The parts between the separators; one more than there are separators. */
  function Components(path: string): (parts: seq<string>)
    ensures parts != []
    ensures forall i :: 0 <= i < |parts| ==> '/' !in parts[i]
  {
    if path == "" then [""]
    else
      var parts := Components(path[..|path| - 1]);
      var last := path[|path| - 1];
      if last == '/' then parts + [""]
      else parts[..|parts| - 1] + [parts[|parts| - 1] + [last]]
  }

  /** One component on top of a cleaned path. */
  function CleanStep(rooted: bool, stack: seq<string>, part: string): seq<string> {
    if part == "" || part == "." then stack
    else if part == ".." then
      if stack != [] && stack[|stack| - 1] != ".." then stack[..|stack| - 1]
      else if rooted then stack
      else stack + [part]
    else stack + [part]
  }

  function CleanParts(rooted: bool, parts: seq<string>): seq<string> {
    if parts == [] then []
    else CleanStep(rooted, CleanParts(rooted, parts[..|parts| - 1]), parts[|parts| - 1])
  }

  predicate IsRooted(path: string) {
    path != "" && path[0] == '/'
  }

  /** The parts, each followed by a separator. */
  function Terminated(parts: seq<string>): string {
    if parts == [] then "" else Terminated(parts[..|parts| - 1]) + parts[|parts| - 1] + "/"
  }

  function JoinParts(parts: seq<string>): string {
    if parts == [] then "" else Terminated(parts[..|parts| - 1]) + parts[|parts| - 1]
  }

  /** filepath.Clean. */
  function Clean(path: string): string {
    var body := JoinParts(CleanParts(IsRooted(path), Components(path)));
    if IsRooted(path) then "/" + body
    else if body == "" then "."
    else body
  }

  /** filepath.Join of a directory and a name. */
  function Join(dir: string, name: string): string {
    if dir == "" then Clean(name) else Clean(dir + "/" + name)
  }

  function LastIndex(path: string, c: char): (i: int)
    ensures -1 <= i < |path|
    ensures i >= 0 ==> path[i] == c
    ensures forall j :: i < j < |path| ==> path[j] != c
  {
    LastIndexBefore(path, c, |path|)
  }

  function LastIndexBefore(path: string, c: char, n: nat): (i: int)
    requires n <= |path| && forall j :: n <= j < |path| ==> path[j] != c
    ensures -1 <= i < n
    ensures i >= 0 ==> path[i] == c
    ensures forall j :: i < j < |path| ==> path[j] != c
  {
    if n == 0 then -1
    else if path[n - 1] == c then n - 1
    else LastIndexBefore(path, c, n - 1)
  }

  /** filepath.Split: everything up to and including the last separator, and the rest. */
  function DirOf(path: string): string {
    path[..LastIndex(path, '/') + 1]
  }

  function BaseOf(path: string): string {
    path[LastIndex(path, '/') + 1..]
  }

  lemma LastIndexUnique(s: string, t: string, c: char)
    requires c !in t && (s == "" || s[|s| - 1] == c)
    ensures LastIndex(s + t, c) == |s| - 1
  {
    assert forall j :: |s| <= j < |s + t| ==> (s + t)[j] == t[j - |s|] && (s + t)[j] in t;
    assert s != "" ==> (s + t)[|s| - 1] == c;
  }

  lemma SplitAgain(dir: string, name: string)
    requires '/' !in name && (dir == "" || dir[|dir| - 1] == '/')
    ensures DirOf(dir + name) == dir && BaseOf(dir + name) == name
  {
    LastIndexUnique(dir, name, '/');
  }

  /** A directory in the form that Clean leaves it in: empty, or ending in a separator. */
  function CleanDir(dir: string): (clean: string)
    ensures clean == "" || clean[|clean| - 1] == '/'
  {
    var body := Terminated(CleanParts(IsRooted(dir), Components(dir)));
    if IsRooted(dir) then "/" + body else body
  }

  lemma {:induction false} ComponentsAppend(path: string, name: string)
    requires '/' !in name
    ensures Components(path + "/" + name) == Components(path) + [name]
  {
    if name == "" {
      assert path + "/" + name == path + "/";
      assert (path + "/")[..|path|] == path;
    } else {
      var whole, init := path + "/" + name, name[..|name| - 1];
      assert whole[..|whole| - 1] == path + "/" + init;
      ComponentsAppend(path, init);
      assert init + [name[|name| - 1]] == name;
    }
  }

  lemma CleanPartsAppend(rooted: bool, parts: seq<string>, part: string)
    ensures CleanParts(rooted, parts + [part]) == CleanStep(rooted, CleanParts(rooted, parts), part)
  {
    assert (parts + [part])[..|parts|] == parts;
  }

  /** A name that is an ordinary component. */
  predicate IsName(name: string) {
    name != "" && name != "." && name != ".." && '/' !in name
  }

  lemma {:induction false} ComponentsOfName(name: string)
    requires '/' !in name
    ensures Components(name) == [name]
  {
    if name != "" {
      ComponentsOfName(name[..|name| - 1]);
      assert name[..|name| - 1] + [name[|name| - 1]] == name;
    }
  }

  lemma CleanPartsWithName(rooted: bool, parts: seq<string>, name: string)
    requires IsName(name)
    ensures JoinParts(CleanParts(rooted, parts + [name])) == Terminated(CleanParts(rooted, parts)) + name
  {
    CleanPartsAppend(rooted, parts, name);
    var stack := CleanParts(rooted, parts);
    assert (stack + [name])[..|stack|] == stack;
  }

  /** Joining keeps the name and cleans the directory. */
  lemma JoinIsCleanDir(dir: string, name: string)
    requires IsName(name)
    ensures Join(dir, name) == CleanDir(dir) + name
  {
    var parts := if dir == "" then [] else Components(dir);
    CleanPartsWithName(IsRooted(dir), parts, name);
    var stack := Terminated(CleanParts(IsRooted(dir), parts));
    if dir == "" {
      ComponentsOfName(name);
      assert [] + [name] == [name];
      CleanPartsAppend(false, [], "");
      assert [] + [""] == [""];
    } else {
      ComponentsAppend(dir, name);
      assert IsRooted(dir + "/" + name) == IsRooted(dir);
      Associative("/", stack, name);
    }
  }

  // ----- Cleaning twice -----

  /** What CleanParts leaves: ordinary names, after parent references that only a relative path has. */
  predicate IsClean(rooted: bool, parts: seq<string>) {
    parts == [] ||
    var last := parts[|parts| - 1];
    && IsClean(rooted, parts[..|parts| - 1])
    && last != "" && last != "." && '/' !in last
    && (last == ".." ==> !rooted && forall i :: 0 <= i < |parts| ==> parts[i] == "..")
  }

  lemma {:induction false} CleanPartsIsClean(rooted: bool, parts: seq<string>)
    requires forall i :: 0 <= i < |parts| ==> '/' !in parts[i]
    ensures IsClean(rooted, CleanParts(rooted, parts))
  {
    if parts != [] {
      var stack, part := CleanParts(rooted, parts[..|parts| - 1]), parts[|parts| - 1];
      CleanPartsIsClean(rooted, parts[..|parts| - 1]);
      assert (stack + [part])[..|stack|] == stack;
    }
  }

  lemma {:induction false} CleanPartsOfClean(rooted: bool, parts: seq<string>)
    requires IsClean(rooted, parts)
    ensures CleanParts(rooted, parts) == parts
  {
    if parts != [] {
      CleanPartsOfClean(rooted, parts[..|parts| - 1]);
      assert parts == parts[..|parts| - 1] + [parts[|parts| - 1]];
    }
  }

  lemma {:induction false} ComponentsGrow(path: string, lead: seq<string>, tail: string, name: string)
    requires '/' !in name && Components(path) == lead + [tail]
    ensures Components(path + name) == lead + [tail + name]
  {
    if name == "" {
      assert path + name == path && tail + name == tail;
    } else {
      var init, c := name[..|name| - 1], name[|name| - 1];
      ComponentsGrow(path, lead, tail, init);
      assert path + name == path + init + [c];
      assert (path + init + [c])[..|path + init|] == path + init;
      assert (lead + [tail + init])[..|lead|] == lead;
      assert (tail + init) + [c] == tail + name;
    }
  }

  lemma {:induction false} ComponentsOfTerminated(prefix: string, lead: seq<string>, parts: seq<string>)
    requires Components(prefix) == lead + [""]
    requires forall i :: 0 <= i < |parts| ==> '/' !in parts[i]
    ensures Components(prefix + Terminated(parts)) == lead + parts + [""]
  {
    if parts == [] {
      assert prefix + "" == prefix;
      assert lead + [] == lead;
    } else {
      var init, last := parts[..|parts| - 1], parts[|parts| - 1];
      var before := prefix + Terminated(init);
      ComponentsOfTerminated(prefix, lead, init);
      assert Components(before + last) == lead + parts by {
        ComponentsGrow(before, lead + init, "", last);
        assert "" + last == last;
        assert lead + init + [last] == lead + parts;
      }
      TerminatedStep(prefix, parts);
      ComponentsTerminate(before + last);
    }
  }

  lemma TerminatedStep(prefix: string, parts: seq<string>)
    requires parts != []
    ensures prefix + Terminated(parts) == prefix + Terminated(parts[..|parts| - 1]) + parts[|parts| - 1] + "/"
  {
    var init, last := Terminated(parts[..|parts| - 1]), parts[|parts| - 1];
    Associative(prefix, init, last);
    Associative(prefix, init + last, "/");
  }

  lemma Associative(s: string, t: string, u: string)
    ensures s + (t + u) == s + t + u
  {
  }

  lemma ComponentsTerminate(path: string)
    ensures Components(path + "/") == Components(path) + [""]
  {
    assert (path + "/")[..|path|] == path;
  }

  lemma {:induction false} CleanPartsSkipEmpty(rooted: bool, parts: seq<string>)
    ensures CleanParts(rooted, [""] + parts) == CleanParts(rooted, parts)
  {
    if parts == [] {
      assert [""][..0] == [];
      assert [""] + parts == [""];
    } else {
      CleanPartsSkipEmpty(rooted, parts[..|parts| - 1]);
      assert ([""] + parts)[..|parts|] == [""] + parts[..|parts| - 1];
    }
  }

  lemma CleanDirRooted(clean: string, parts: seq<string>)
    requires IsClean(true, parts) && clean == "/" + Terminated(parts)
    ensures CleanDir(clean) == clean
  {
    NamesOfClean(true, parts);
    ComponentsTerminate("");
    assert "" + "/" == "/";
    ComponentsOfTerminated("/", [""], parts);
    assert [""] + parts + [""] == [""] + (parts + [""]);
    CleanPartsSkipEmpty(true, parts + [""]);
    CleanPartsAppend(true, parts, "");
    CleanPartsOfClean(true, parts);
  }

  lemma ComponentsOfRelative(parts: seq<string>)
    requires forall i :: 0 <= i < |parts| ==> '/' !in parts[i]
    ensures Components(Terminated(parts)) == parts + [""]
  {
    NothingInFront("", Terminated(parts));
    NothingInFront([], parts);
    NothingInFront([], [""]);
    ComponentsOfTerminated("", [], parts);
  }

  lemma NothingInFront<T>(none: seq<T>, s: seq<T>)
    requires none == []
    ensures none + s == s
  {
  }

  lemma CleanDirRelative(clean: string, parts: seq<string>)
    requires IsClean(false, parts) && clean == Terminated(parts)
    ensures CleanDir(clean) == clean
  {
    NamesOfClean(false, parts);
    ComponentsOfRelative(parts);
    CleanPartsAppend(false, parts, "");
    CleanPartsOfClean(false, parts);
    if parts != [] {
      StartsWithName(parts);
    }
  }

  /** A cleaned directory stays as it is. */
  lemma CleanDirTwice(dir: string)
    ensures CleanDir(CleanDir(dir)) == CleanDir(dir)
  {
    var parts := CleanParts(IsRooted(dir), Components(dir));
    CleanPartsIsClean(IsRooted(dir), Components(dir));
    if IsRooted(dir) {
      CleanDirRooted(CleanDir(dir), parts);
    } else {
      CleanDirRelative(CleanDir(dir), parts);
    }
  }

  lemma {:induction false} NamesOfClean(rooted: bool, parts: seq<string>)
    requires IsClean(rooted, parts)
    ensures forall i :: 0 <= i < |parts| ==> parts[i] != "" && '/' !in parts[i]
  {
    if parts != [] {
      NamesOfClean(rooted, parts[..|parts| - 1]);
      assert parts == parts[..|parts| - 1] + [parts[|parts| - 1]];
    }
  }

  lemma {:induction false} StartsWithName(parts: seq<string>)
    requires parts != [] && parts[0] != "" && '/' !in parts[0]
    ensures Terminated(parts) != "" && Terminated(parts)[0] == parts[0][0]
  {
    if |parts| > 1 {
      StartsWithName(parts[..|parts| - 1]);
    } else {
      assert parts[..0] == [];
    }
  }

  // ----- What cleaning does -----

  /** A cleaned directory with one part more. */
  function Extended(clean: string, part: string): string
    requires clean == "" || clean[|clean| - 1] == '/'
  {
    if part == "" || part == "." then clean
    else if part != ".." then clean + part + "/"
    else if clean == "/" then clean
    else if clean == "" || BaseOf(clean[..|clean| - 1]) == ".." then clean + "../"
    else DirOf(clean[..|clean| - 1])
  }

  /** What a directory is cleaned to, part by part: empty parts and dots go, a parent reference takes back the part
      before, stays in front of a relative path, and leads nowhere from the root; all else stays. */
  lemma CleaningMeans(dir: string, part: string)
    requires '/' !in part && if dir == "" then part != "" else dir[|dir| - 1] == '/'
    ensures CleanDir("") == "" && CleanDir("/") == "/"
    ensures CleanDir(dir + part + "/") == Extended(CleanDir(dir), part)
  {
    CleanRoots();
    PartsOfLonger(dir, part);
    CleanDirIs(dir);
    CleanDirIs(dir + part + "/");
    CleanPartsIsClean(IsRooted(dir), Components(dir));
    StepText(IsRooted(dir), CleanParts(IsRooted(dir), Components(dir)), part);
  }

  lemma CleanDirIs(dir: string)
    ensures CleanDir(dir) == Prefixed(IsRooted(dir), CleanParts(IsRooted(dir), Components(dir)))
  {
    var body := Terminated(CleanParts(IsRooted(dir), Components(dir)));
    assert "" + body == body;
  }

  lemma CleanRoots()
    ensures CleanDir("") == "" && CleanDir("/") == "/"
  {
    CleanPartsAppend(false, [], "");
    CleanPartsAppend(true, [], "");
    CleanPartsAppend(true, [""], "");
    ComponentsTerminate("");
    assert "" + "/" == "/" && [] + [""] == [""];
  }

  /** The last component of a directory is empty, and gives way to the part. */
  lemma PartsOfLonger(dir: string, part: string)
    requires '/' !in part && if dir == "" then part != "" else dir[|dir| - 1] == '/'
    ensures IsRooted(dir + part + "/") == IsRooted(dir)
    ensures var rooted := IsRooted(dir);
      CleanParts(rooted, Components(dir + part + "/")) == CleanStep(rooted, CleanParts(rooted, Components(dir)), part)
  {
    var lead := if dir == "" then [] else Components(dir[..|dir| - 1]);
    assert Components(dir) == lead + [""] by {
      if dir == "" {
        assert [] + [""] == [""];
      } else {
        ComponentsTerminate(dir[..|dir| - 1]);
        assert dir[..|dir| - 1] + "/" == dir;
      }
    }
    ComponentsGrow(dir, lead, "", part);
    assert "" + part == part;
    ComponentsTerminate(dir + part);
    LastParts(IsRooted(dir), lead, part);
  }

  lemma LastParts(rooted: bool, lead: seq<string>, part: string)
    ensures CleanParts(rooted, lead + [part] + [""]) == CleanStep(rooted, CleanParts(rooted, lead + [""]), part)
  {
    CleanPartsAppend(rooted, lead + [part], "");
    CleanPartsAppend(rooted, lead, part);
    CleanPartsAppend(rooted, lead, "");
  }

  function Prefixed(rooted: bool, parts: seq<string>): (r: string)
    ensures r == "" || r[|r| - 1] == '/'
  {
    (if rooted then "/" else "") + Terminated(parts)
  }

  lemma StepText(rooted: bool, stack: seq<string>, part: string)
    requires IsClean(rooted, stack) && '/' !in part
    ensures Prefixed(rooted, CleanStep(rooted, stack, part)) == Extended(Prefixed(rooted, stack), part)
  {
    Pushed(rooted, stack, part);
    if stack == [] {
      NothingCleaned(rooted);
    } else {
      LastPart(rooted, stack);
      LastOfClean(rooted, stack);
      StepOnSome(rooted, stack, part, Prefixed(rooted, stack));
    }
  }

  lemma NothingCleaned(rooted: bool)
    ensures Prefixed(rooted, []) == if rooted then "/" else ""
  {
  }

  lemma LastOfClean(rooted: bool, stack: seq<string>)
    requires IsClean(rooted, stack) && stack != []
    ensures stack[|stack| - 1] == ".." ==> !rooted
  {
  }

  lemma StepOnSome(rooted: bool, stack: seq<string>, part: string, clean: string)
    requires stack != [] && (stack[|stack| - 1] == ".." ==> !rooted)
    requires |clean| > 1 && clean[|clean| - 1] == '/' && clean == Prefixed(rooted, stack)
    requires BaseOf(clean[..|clean| - 1]) == stack[|stack| - 1]
    requires DirOf(clean[..|clean| - 1]) == Prefixed(rooted, stack[..|stack| - 1])
    requires Prefixed(rooted, stack + [part]) == clean + part + "/"
    ensures Prefixed(rooted, CleanStep(rooted, stack, part)) == Extended(clean, part)
  {
    if part == ".." {
      assert clean + part + "/" == clean + "../";
    }
  }

  lemma Pushed(rooted: bool, stack: seq<string>, part: string)
    ensures Prefixed(rooted, stack + [part]) == Prefixed(rooted, stack) + part + "/"
  {
    TerminatedStep(if rooted then "/" else "", stack + [part]);
    assert (stack + [part])[..|stack|] == stack;
  }

  lemma LastPart(rooted: bool, stack: seq<string>)
    requires IsClean(rooted, stack) && stack != []
    ensures var clean := Prefixed(rooted, stack);
      && |clean| > 1 && BaseOf(clean[..|clean| - 1]) == stack[|stack| - 1]
      && DirOf(clean[..|clean| - 1]) == Prefixed(rooted, stack[..|stack| - 1])
  {
    var before, last := Prefixed(rooted, stack[..|stack| - 1]), stack[|stack| - 1];
    assert stack[..|stack| - 1] + [last] == stack;
    Pushed(rooted, stack[..|stack| - 1], last);
    var clean := Prefixed(rooted, stack);
    assert clean[..|clean| - 1] == before + last;
    SplitAgain(before, last);
  }
}
