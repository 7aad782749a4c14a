/** generateComponent: prompt for the options, create the component's
    directory `<cwd>/components/<name>` and write into it the component, the
    CSS module when asked for, and the test, stopping at the first failure.

    The file system is a set of directories and a map from file paths to
    contents, plus the set of paths the process may not create or write.
    Paths are joined with '/' and are not normalised. */
module Generator {
  import opened Text
  import opened Render

  datatype Option<T> = None | Some(value: T)

  /** The answers of the four prompts. */
  datatype Options = Options(name: string, useHooks: bool, useCSSModule: bool, props: string)

  /** What the name prompt's `validate` callback answers: `true`, or the
      message the prompt shows before asking again. */
  datatype Verdict = Accepted | Rejected(message: string)

  /** The `validate` callback of the name prompt: a name is accepted when it
      holds a non-whitespace character; otherwise the prompt shows the
      message and asks again. The accepted name is used untrimmed. */
  function ValidateName(input: string): (r: Verdict)
    ensures r.Accepted? <==> !AllWhitespace(input)
    ensures r.Rejected? ==> r.message == "Component name is required"
  {
    TrimEmptyIff(input);
    if Trim(input) != "" then Accepted else Rejected("Component name is required")
  }

  // ---------------------------------------------------------------------
  // The file system

  datatype Disk = Disk(dirs: set<string>, files: map<string, string>)

  datatype IoError =
    | NotADirectory(path: string)  // a directory mkdir needs is a file
    | IsADirectory(path: string)   // writeFile on a directory
    | NoEntry(path: string)        // writeFile into a directory that does not exist
    | Denied(path: string)         // the path may not be created or written

  /** The effect of writeFile: the new disk, or the error it raises, which
      leaves the disk as it was. */
  datatype Effect = Done(disk: Disk) | Error(error: IoError)

  /** The effect of mkdir: the disk afterwards, which keeps the directories
      created before a failure, and the error, if any. */
  datatype MkdirResult = MkdirResult(disk: Disk, error: Option<IoError>)

  function Elements(s: seq<string>): set<string> {
    set q | q in s
  }

  /** The ancestors of `p` that end just before a '/' at index `i` or later,
      shortest first. */
  function AncestorsFrom(p: string, i: nat): seq<string>
    decreases |p| - i
  {
    if i >= |p| then []
    else (if 0 < i && p[i] == '/' then [p[..i]] else []) + AncestorsFrom(p, i + 1)
  }

  /** The directories `mkdir(p, { recursive: true })` needs, parents first:
      every ancestor of `p`, then `p` itself. */
  function MkdirChain(p: string): seq<string> {
    AncestorsFrom(p, 0) + [p]
  }

  function MkdirTargets(p: string): set<string> {
    Elements(MkdirChain(p))
  }

  /** `q` stops a recursive mkdir: it is a file, or it does not exist and
      may not be created. */
  predicate Blocks(d: Disk, denied: set<string>, q: string) {
    q in d.files || (q !in d.dirs && q in denied)
  }

  /** Recursive mkdir of `p` over the directories of `chain` that are still
      to be visited, one at a time: an existing directory is passed over, a
      missing one is created, and the first one that blocks ends the call
      with an error, keeping the directories created before it. */
  function MkdirSteps(d: Disk, denied: set<string>, p: string, chain: seq<string>): MkdirResult
    decreases |chain|
  {
    if chain == [] then MkdirResult(d, None)
    else if chain[0] in d.files then MkdirResult(d, Some(NotADirectory(p)))
    else if chain[0] !in d.dirs && chain[0] in denied then MkdirResult(d, Some(Denied(p)))
    else MkdirSteps(Disk(d.dirs + {chain[0]}, d.files), denied, p, chain[1..])
  }

  /** `mkdir(p, { recursive: true })`. */
  function MkdirEffect(d: Disk, denied: set<string>, p: string): MkdirResult {
    MkdirSteps(d, denied, p, MkdirChain(p))
  }

  /** The number of directories at the front of `chain` that do not block
      mkdir: the index of the first one that does, or the length. */
  function Unblocked(d: Disk, denied: set<string>, chain: seq<string>): (k: nat)
    ensures k <= |chain|
    ensures forall i | 0 <= i < k :: !Blocks(d, denied, chain[i])
    ensures k < |chain| ==> Blocks(d, denied, chain[k])
    decreases |chain|
  {
    if chain == [] || Blocks(d, denied, chain[0]) then 0
    else
      var k := 1 + Unblocked(d, denied, chain[1..]);
      assert forall i | 1 <= i < k :: chain[i] == chain[1..][i - 1];
      k
  }

  /** The directory `p` is in: the text before its last '/'. */
  function Parent(p: string): string
    decreases |p|
  {
    if p == [] then []
    else if p[|p| - 1] == '/' then p[..|p| - 1]
    else Parent(p[..|p| - 1])
  }

  /** A file can be written at `p` when the directory it goes into exists,
      and `p` is no directory and is not denied. */
  predicate Writable(d: Disk, denied: set<string>, p: string) {
    Parent(p) in d.dirs && p !in d.dirs && p !in denied
  }

  /** The error `writeFile(p, …)` raises when `p` is not writable. */
  function WriteError(d: Disk, p: string): IoError {
    if Parent(p) !in d.dirs then NoEntry(p)
    else if p in d.dirs then IsADirectory(p)
    else Denied(p)
  }

  /** `writeFile(p, content)`: it creates or replaces the file at `p`, and
      fails when the directory of `p` does not exist, when `p` is a
      directory, or when `p` may not be written. */
  function WriteFileEffect(d: Disk, denied: set<string>, p: string, content: string): Effect {
    if Parent(p) !in d.dirs then Error(NoEntry(p))
    else if p in d.dirs then Error(IsADirectory(p))
    else if p in denied then Error(Denied(p))
    else Done(Disk(d.dirs, d.files[p := content]))
  }

  // ---------------------------------------------------------------------
  // The plan of writes

  /** `path.join(process.cwd(), "components", name)`. */
  function ComponentDir(cwd: string, name: string): string {
    cwd + "/components/" + name
  }

  function ComponentFile(dir: string, name: string): string {
    dir + "/" + name + ".tsx"
  }

  function StylesheetFile(dir: string, name: string): string {
    dir + "/" + name + ".module.css"
  }

  function TestFile(dir: string, name: string): string {
    dir + "/" + name + ".test.tsx"
  }

  datatype Write = Write(path: string, content: string)

  /** The texts of the three files. */
  datatype Contents = Contents(component: string, stylesheet: string, test: string)

  /** The three renderers applied to the answers. */
  function Rendered(opts: Options): Contents {
    Contents(GenerateComponentContent(opts.name, opts.useHooks, opts.useCSSModule, opts.props),
             GenerateCSSContent(), GenerateTestContent(opts.name))
  }

  /** The paths generateComponent writes into `dir`, in order: the
      component, the stylesheet when a CSS module is wanted, and the test. */
  function PlanPaths(dir: string, name: string, useCSSModule: bool): seq<string> {
    [ComponentFile(dir, name)]
    + (if useCSSModule then [StylesheetFile(dir, name)] else [])
    + [TestFile(dir, name)]
  }

  /** The texts of the planned files, in the same order. */
  function PlanTexts(useCSSModule: bool, c: Contents): seq<string> {
    [c.component] + (if useCSSModule then [c.stylesheet] else []) + [c.test]
  }

  /** The writes of generateComponent: each planned path with its text. */
  function Plan(dir: string, name: string, useCSSModule: bool, c: Contents): (ws: seq<Write>)
    ensures |ws| == (if useCSSModule then 3 else 2)
  {
    var paths, texts := PlanPaths(dir, name, useCSSModule), PlanTexts(useCSSModule, c);
    seq(|paths|, i requires 0 <= i < |paths| => Write(paths[i], texts[i]))
  }

  predicate DistinctPaths(ws: seq<Write>) {
    forall i, j | 0 <= i < j < |ws| :: ws[i].path != ws[j].path
  }

  function Paths(ws: seq<Write>): (r: seq<string>)
    ensures |r| == |ws| && forall i | 0 <= i < |ws| :: r[i] == ws[i].path
  {
    seq(|ws|, i requires 0 <= i < |ws| => ws[i].path)
  }

  /** The files after the writes `ws`, applied in order, to `files`. */
  function Overlay(files: map<string, string>, ws: seq<Write>): map<string, string>
    decreases |ws|
  {
    if ws == [] then files else Overlay(files[ws[0].path := ws[0].content], ws[1..])
  }

  /** What a run leaves behind: the disk, the paths written, in order, and
      whether it succeeded. */
  datatype Report = Report(disk: Disk, written: seq<string>, outcome: Outcome)

  datatype Outcome = Generated | Failed(error: IoError)

  /** The writes `ws`, one after the other, stopping at the first that fails. */
  function Perform(d: Disk, denied: set<string>, ws: seq<Write>): Report
    decreases |ws|
  {
    if ws == [] then Report(d, [], Generated)
    else match WriteFileEffect(d, denied, ws[0].path, ws[0].content)
      case Error(e) => Report(d, [], Failed(e))
      case Done(next) =>
        var rest := Perform(next, denied, ws[1..]);
        Report(rest.disk, [ws[0].path] + rest.written, rest.outcome)
  }

  /** The body of generateComponent after the prompts, as a function of the
      disk before: the `try` block, whose first failure ends the run. */
  function Run(d: Disk, denied: set<string>, cwd: string, opts: Options): Report {
    RunWith(d, denied, ComponentDir(cwd, opts.name), opts.name, opts.useCSSModule, Rendered(opts))
  }

  /** The run for given file texts: create `dir`, then write the plan. */
  function RunWith(d: Disk, denied: set<string>, dir: string, name: string, useCSSModule: bool, c: Contents): Report {
    var made := MkdirEffect(d, denied, dir);
    if made.error.Some? then Report(made.disk, [], Failed(made.error.value))
    else Perform(made.disk, denied, Plan(dir, name, useCSSModule, c))
  }

  // ---------------------------------------------------------------------
  // The generator over a mutable file system

  class FileSystem {
    var dirs: set<string>
    var files: map<string, string>
    const denied: set<string>

    constructor (dirs0: set<string>, files0: map<string, string>, denied0: set<string>)
      ensures dirs == dirs0 && files == files0 && denied == denied0
    {
      dirs, files, denied := dirs0, files0, denied0;
    }

    function Snapshot(): Disk
      reads this
    {
      Disk(dirs, files)
    }

    /** Recursive mkdir, one directory at a time, parents first. */
    method Mkdir(p: string) returns (err: Option<IoError>)
      modifies this
      ensures var r := MkdirEffect(old(Snapshot()), denied, p);
        Snapshot() == r.disk && err == r.error
    {
      var chain := MkdirChain(p);
      var i := 0;
      while i < |chain|
        invariant 0 <= i <= |chain|
        invariant MkdirSteps(Snapshot(), denied, p, chain[i..]) == MkdirEffect(old(Snapshot()), denied, p)
      {
        var q := chain[i];
        assert chain[i..][0] == q && chain[i..][1..] == chain[i + 1..];
        if q in files {
          return Some(NotADirectory(p));
        }
        if q !in dirs && q in denied {
          return Some(Denied(p));
        }
        dirs := dirs + {q};
        i := i + 1;
      }
      return None;
    }

    method WriteFile(p: string, content: string) returns (err: Option<IoError>)
      modifies this
      ensures var e := WriteFileEffect(old(Snapshot()), denied, p, content);
        && (e.Done? ==> err == None && Snapshot() == e.disk)
        && (e.Error? ==> err == Some(e.error) && Snapshot() == old(Snapshot()))
    {
      match WriteFileEffect(Snapshot(), denied, p, content)
      case Done(d) =>
        files := d.files;
        err := None;
      case Error(e) =>
        err := Some(e);
    }
  }

  /** generateComponent after the prompts: the disk it leaves and its
      outcome are those of Run. The three texts are rendered up front;
      rendering is pure, so this does not change what is written. */
  method GenerateComponent(fs: FileSystem, cwd: string, answers: Options) returns (outcome: Outcome)
    requires ValidateName(answers.name).Accepted?
    modifies fs
    ensures var r := Run(old(fs.Snapshot()), fs.denied, cwd, answers);
      fs.Snapshot() == r.disk && outcome == r.outcome
  {
    var name := answers.name;
    outcome := WriteComponent(fs, ComponentDir(cwd, name), name, answers.useCSSModule, Rendered(answers));
  }

  /** The `try` block: create the directory, then write the component, the
      stylesheet when wanted, and the test; the first failure ends it. */
  method WriteComponent(fs: FileSystem, dir: string, name: string, useCSSModule: bool, c: Contents)
    returns (outcome: Outcome)
    modifies fs
    ensures var r := RunWith(old(fs.Snapshot()), fs.denied, dir, name, useCSSModule, c);
      fs.Snapshot() == r.disk && outcome == r.outcome
  {
    ghost var before := fs.Snapshot();
    var err := fs.Mkdir(dir);
    if err.Some? {
      return Failed(err.value);
    }
    ghost var made := fs.Snapshot();
    var test := Write(TestFile(dir, name), c.test);
    ghost var rest := (if useCSSModule then [Write(StylesheetFile(dir, name), c.stylesheet)] else []) + [test];
    PlanParts(dir, name, useCSSModule, c, rest);
    err := fs.WriteFile(ComponentFile(dir, name), c.component);
    if err.Some? {
      PerformFails(made, fs.denied, Write(ComponentFile(dir, name), c.component), rest, err.value);
      return Failed(err.value);
    }
    PerformContinues(made, fs.denied, Write(ComponentFile(dir, name), c.component), rest, fs.Snapshot());

    if useCSSModule {
      ghost var at := fs.Snapshot();
      err := fs.WriteFile(StylesheetFile(dir, name), c.stylesheet);
      if err.Some? {
        PerformFails(at, fs.denied, Write(StylesheetFile(dir, name), c.stylesheet), [test], err.value);
        return Failed(err.value);
      }
      PerformContinues(at, fs.denied, Write(StylesheetFile(dir, name), c.stylesheet), [test], fs.Snapshot());
    }

    ghost var at := fs.Snapshot();
    err := fs.WriteFile(test.path, test.content);
    if err.Some? {
      PerformFails(at, fs.denied, test, [], err.value);
      return Failed(err.value);
    }
    PerformContinues(at, fs.denied, test, [], fs.Snapshot());
    return Generated;
  }

  lemma PlanParts(dir: string, name: string, useCSSModule: bool, c: Contents, rest: seq<Write>)
    requires rest == (if useCSSModule then [Write(StylesheetFile(dir, name), c.stylesheet)] else [])
      + [Write(TestFile(dir, name), c.test)]
    ensures Plan(dir, name, useCSSModule, c) == [Write(ComponentFile(dir, name), c.component)] + rest
  {
  }

  lemma PerformFails(d: Disk, denied: set<string>, w: Write, ws: seq<Write>, e: IoError)
    requires WriteFileEffect(d, denied, w.path, w.content) == Error(e)
    ensures Perform(d, denied, [w] + ws) == Report(d, [], Failed(e))
  {
  }

  lemma PerformContinues(d: Disk, denied: set<string>, w: Write, ws: seq<Write>, next: Disk)
    requires WriteFileEffect(d, denied, w.path, w.content) == Done(next)
    ensures Perform(d, denied, [w] + ws).disk == Perform(next, denied, ws).disk
    ensures Perform(d, denied, [w] + ws).outcome == Perform(next, denied, ws).outcome
  {
    assert ([w] + ws)[1..] == ws;
  }

  // ---------------------------------------------------------------------
  // The file-system calls

  /** The ancestors from index `i` on are prefixes of `p` no shorter than
      `i` and shorter than `p`. */
  lemma {:induction false} AncestorsArePrefixes(p: string, i: nat)
    ensures forall j | 0 <= j < |AncestorsFrom(p, i)| ::
      i <= |AncestorsFrom(p, i)[j]| < |p| && AncestorsFrom(p, i)[j] == p[..|AncestorsFrom(p, i)[j]|]
    decreases |p| - i
  {
    var a := AncestorsFrom(p, i);
    if i < |p| {
      AncestorsArePrefixes(p, i + 1);
      var rest := AncestorsFrom(p, i + 1);
      if 0 < i && p[i] == '/' {
        assert a == [p[..i]] + rest;
        forall j | 0 <= j < |a| ensures i <= |a[j]| < |p| && a[j] == p[..|a[j]|] {
          if j > 0 { assert a[j] == rest[j - 1]; }
        }
      } else {
        assert a == rest;
      }
    }
  }

  /** The ancestors from index `i` on come in increasing length. */
  lemma {:induction false} AncestorsAscend(p: string, i: nat)
    ensures forall j, k | 0 <= j < k < |AncestorsFrom(p, i)| :: |AncestorsFrom(p, i)[j]| < |AncestorsFrom(p, i)[k]|
    decreases |p| - i
  {
    var a := AncestorsFrom(p, i);
    if i < |p| {
      AncestorsAscend(p, i + 1);
      AncestorsArePrefixes(p, i + 1);
      var rest := AncestorsFrom(p, i + 1);
      if 0 < i && p[i] == '/' {
        assert a == [p[..i]] + rest;
        forall j, k | 0 <= j < k < |a| ensures |a[j]| < |a[k]| {
          assert a[k] == rest[k - 1];
          if j == 0 {
            assert |a[0]| == i && i + 1 <= |rest[k - 1]|;
          } else {
            assert a[j] == rest[j - 1] && |rest[j - 1]| < |rest[k - 1]|;
          }
        }
      } else {
        assert a == rest;
      }
    }
  }

  /** mkdir visits the ancestors of `p` parents first and ends with `p`:
      each directory in the chain is a prefix of `p`, and each is shorter
      than every one after it. */
  lemma MkdirChainParentsFirst(p: string)
    ensures var c := MkdirChain(p);
      && c[|c| - 1] == p
      && (forall j | 0 <= j < |c| :: IsPrefix(c[j], p))
      && (forall j, k | 0 <= j < k < |c| :: |c[j]| < |c[k]|)
  {
    AncestorsArePrefixes(p, 0);
    AncestorsAscend(p, 0);
    var a, c := AncestorsFrom(p, 0), MkdirChain(p);
    assert c == a + [p];
    forall j | 0 <= j < |c| ensures IsPrefix(c[j], p) {
      if j < |a| { assert c[j] == a[j]; } else { assert c[j] == p == p[..|p|]; }
    }
    forall j, k | 0 <= j < k < |c| ensures |c[j]| < |c[k]| {
      assert c[j] == a[j];
      if k < |a| { assert c[k] == a[k]; }
    }
  }

  /** The ancestors from index `i` on are exactly the prefixes of `p` that
      end just before a '/' at index `i` or later, other than at index 0. */
  lemma {:induction false} AncestorsExactly(p: string, i: nat, q: string)
    ensures q in AncestorsFrom(p, i) <==> exists j | i <= j < |p| && 0 < j && p[j] == '/' :: q == p[..j]
    decreases |p| - i
  {
    if i < |p| {
      AncestorsExactly(p, i + 1, q);
      var head := if 0 < i && p[i] == '/' then [p[..i]] else [];
      assert AncestorsFrom(p, i) == head + AncestorsFrom(p, i + 1);
      if exists j | i <= j < |p| && 0 < j && p[j] == '/' :: q == p[..j] {
        var j :| i <= j < |p| && 0 < j && p[j] == '/' && q == p[..j];
        if j == i {
          assert q in head;
        }
      }
    }
  }

  /** mkdir creates exactly `p` and its ancestors: every prefix of `p` that
      ends just before a '/', except the empty one before a leading '/'. */
  lemma MkdirTargetsExactly(p: string, q: string)
    ensures q in MkdirTargets(p) <==> q == p || exists j | 0 < j < |p| && p[j] == '/' :: q == p[..j]
  {
    AncestorsExactly(p, 0, q);
    assert q in MkdirChain(p) <==> q in AncestorsFrom(p, 0) || q == p;
  }

  /** The directories mkdir creates are `p` and prefixes of `p`. */
  lemma MkdirTargetsArePrefixes(p: string)
    ensures p in MkdirTargets(p)
    ensures forall q | q in MkdirTargets(p) :: IsPrefix(q, p)
  {
    MkdirChainParentsFirst(p);
    var c := MkdirChain(p);
    assert c[|c| - 1] == p;
    forall q | q in MkdirTargets(p) ensures IsPrefix(q, p) {
      var j :| 0 <= j < |c| && c[j] == q;
    }
  }

  /** Creating a directory that does not block changes no other
      directory's verdict. */
  lemma UnblockedAfterCreating(d: Disk, denied: set<string>, q: string, chain: seq<string>)
    requires !Blocks(d, denied, q)
    ensures Unblocked(Disk(d.dirs + {q}, d.files), denied, chain) == Unblocked(d, denied, chain)
    decreases |chain|
  {
    if chain != [] {
      UnblockedAfterCreating(d, denied, q, chain[1..]);
    }
  }

  /** Recursive mkdir creates the directories of the chain up to the first
      one that blocks, and stops there with the error for that one: a
      failure keeps the parents already created. Without a blocking
      directory it creates every missing one. */
  lemma {:induction false} MkdirStopsAtFirstBlocked(d: Disk, denied: set<string>, p: string, chain: seq<string>)
    ensures var r := MkdirSteps(d, denied, p, chain); var k := Unblocked(d, denied, chain);
      && r.disk == Disk(d.dirs + Elements(chain[..k]), d.files)
      && (r.error.None? <==> k == |chain|)
      && (k < |chain| ==> r.error == Some(if chain[k] in d.files then NotADirectory(p) else Denied(p)))
    decreases |chain|
  {
    if chain == [] || Blocks(d, denied, chain[0]) {
      assert chain[..0] == [] && Elements([]) == {};
    } else {
      var q, rest := chain[0], chain[1..];
      var next := Disk(d.dirs + {q}, d.files);
      MkdirStopsAtFirstBlocked(next, denied, p, rest);
      UnblockedAfterCreating(d, denied, q, rest);
      var k := Unblocked(d, denied, chain);
      assert k == 1 + Unblocked(next, denied, rest);
      assert MkdirSteps(d, denied, p, chain) == MkdirSteps(next, denied, p, rest);
      assert chain[..k] == [q] + rest[..k - 1];
      assert Elements(chain[..k]) == {q} + Elements(rest[..k - 1]);
      if k < |chain| {
        assert chain[k] == rest[k - 1];
      }
    }
  }

  /** mkdir succeeds exactly when no directory it needs blocks; it then
      adds them all. A failure leaves the files alone, keeps some of the
      needed directories, and reports the requested path. */
  lemma MkdirSucceedsIff(d: Disk, denied: set<string>, p: string)
    ensures var r := MkdirEffect(d, denied, p);
      && (r.error.None? <==> forall q | q in MkdirTargets(p) :: !Blocks(d, denied, q))
      && (r.error.None? ==> r.disk == Disk(d.dirs + MkdirTargets(p), d.files))
      && (r.error.Some? ==>
            && r.disk.files == d.files && d.dirs <= r.disk.dirs <= d.dirs + MkdirTargets(p)
            && (r.error.value == NotADirectory(p) || r.error.value == Denied(p)))
  {
    var c := MkdirChain(p);
    var k := Unblocked(d, denied, c);
    MkdirStopsAtFirstBlocked(d, denied, p, c);
    assert Elements(c[..k]) <= Elements(c);
    if k == |c| {
      assert c[..k] == c;
    } else {
      assert c[k] in MkdirTargets(p);
    }
  }

  /** writeFile succeeds exactly when the path is writable; it then sets
      that file and no other. */
  lemma WriteFileSucceedsIff(d: Disk, denied: set<string>, p: string, content: string)
    ensures var e := WriteFileEffect(d, denied, p, content);
      && (e.Done? <==> Writable(d, denied, p))
      && (e.Done? ==> e.disk.dirs == d.dirs && e.disk.files.Keys == d.files.Keys + {p} && e.disk.files[p] == content)
      && (e.Done? ==> forall q | q in d.files && q != p :: e.disk.files[q] == d.files[q])
      && (e.Error? ==> e.error == WriteError(d, p))
  {
  }

  /** The directory of `a + "/" + s`, for an `s` without '/', is `a`. */
  lemma {:induction false} ParentOfChild(a: string, s: string)
    requires '/' !in s
    ensures Parent(a + "/" + s) == a
    decreases |s|
  {
    var p := a + "/" + s;
    if s == [] {
      assert p[..|p| - 1] == a;
    } else {
      var s' := s[..|s| - 1];
      assert p[|p| - 1] == s[|s| - 1];
      assert p[..|p| - 1] == a + "/" + s';
      ParentOfChild(a, s');
    }
  }

  /** A path with a '/' at index `j` has a directory at least `j` long. */
  lemma {:induction false} ParentPastSlash(p: string, j: nat)
    requires j < |p| && p[j] == '/'
    ensures |Parent(p)| >= j
    decreases |p|
  {
    if p[|p| - 1] != '/' {
      ParentPastSlash(p[..|p| - 1], j);
    }
  }

  // ---------------------------------------------------------------------
  // Writes in sequence

  /** Writes stop at the first failure: the paths written are a prefix of
      the plan, every one of them was writable, the files are the old ones
      overlaid with exactly those writes, and the run fails exactly when a
      write was left out, with the error of the first unwritable path. */
  lemma {:induction false} PerformStopsAtFirstFailure(d: Disk, denied: set<string>, ws: seq<Write>)
    ensures var r := Perform(d, denied, ws); var k := |r.written|;
      && k <= |ws|
      && r.written == Paths(ws[..k])
      && r.disk == Disk(d.dirs, Overlay(d.files, ws[..k]))
      && (forall i | 0 <= i < k :: Writable(d, denied, ws[i].path))
      && (r.outcome == Generated <==> k == |ws|)
      && (k < |ws| ==> !Writable(d, denied, ws[k].path) && r.outcome == Failed(WriteError(d, ws[k].path)))
    decreases |ws|
  {
    if ws != [] {
      var w := ws[0];
      match WriteFileEffect(d, denied, w.path, w.content)
      case Error(e) =>
        assert ws[..0] == [];
      case Done(next) =>
        PerformStopsAtFirstFailure(next, denied, ws[1..]);
        var k := |Perform(next, denied, ws[1..]).written| + 1;
        assert ws[..k][1..] == ws[1..][..k - 1];
        assert ws[..k][0] == w;
        assert Paths(ws[..k]) == [w.path] + Paths(ws[1..][..k - 1]);
        forall i | 0 <= i < k ensures Writable(d, denied, ws[i].path) {
          if i > 0 { assert ws[i] == ws[1..][i - 1]; }
        }
        if k < |ws| { assert ws[k] == ws[1..][k - 1]; }
    }
  }

  /** The writes all succeed exactly when every path is writable. */
  lemma PerformSucceedsIff(d: Disk, denied: set<string>, ws: seq<Write>)
    ensures Perform(d, denied, ws).outcome == Generated <==> forall i | 0 <= i < |ws| :: Writable(d, denied, ws[i].path)
  {
    PerformStopsAtFirstFailure(d, denied, ws);
  }

  /** After the writes `ws`, a path names a file exactly when it did before
      or one of the writes is to it; a file no write touches keeps its text;
      and with distinct paths every file written holds what was written. */
  lemma {:induction false} OverlayAt(files: map<string, string>, ws: seq<Write>, p: string)
    ensures p in Overlay(files, ws) <==> p in files || p in Paths(ws)
    ensures p !in Paths(ws) && p in files ==> Overlay(files, ws)[p] == files[p]
    ensures DistinctPaths(ws) ==> forall i | 0 <= i < |ws| && ws[i].path == p :: Overlay(files, ws)[p] == ws[i].content
    decreases |ws|
  {
    if ws != [] {
      var w := ws[0];
      var next := files[w.path := w.content];
      OverlayAt(next, ws[1..], p);
      assert Paths(ws) == [w.path] + Paths(ws[1..]);
      if DistinctPaths(ws) {
        assert DistinctPaths(ws[1..]) by {
          forall i, j | 0 <= i < j < |ws[1..]| ensures ws[1..][i].path != ws[1..][j].path {
            assert ws[1..][i] == ws[i + 1] && ws[1..][j] == ws[j + 1];
          }
        }
        forall i | 0 <= i < |ws| && ws[i].path == p ensures Overlay(files, ws)[p] == ws[i].content {
          if i == 0 {
            forall j | 0 <= j < |ws[1..]| ensures Paths(ws[1..])[j] != p {
              assert ws[1..][j] == ws[j + 1];
            }
          } else {
            assert ws[i] == ws[1..][i - 1];
          }
        }
      }
    }
  }

  /** With distinct paths, doing the same writes again changes nothing. */
  lemma OverlayIdempotent(files: map<string, string>, ws: seq<Write>)
    requires DistinctPaths(ws)
    ensures Overlay(Overlay(files, ws), ws) == Overlay(files, ws)
  {
    var once := Overlay(files, ws);
    var twice := Overlay(once, ws);
    forall p ensures (p in twice <==> p in once) && (p in once ==> twice[p] == once[p]) {
      OverlayAt(files, ws, p);
      OverlayAt(once, ws, p);
      if p in Paths(ws) {
        var i :| 0 <= i < |ws| && Paths(ws)[i] == p;
      }
    }
    assert twice.Keys == once.Keys;
  }

  // ---------------------------------------------------------------------
  // The plan

  /** The plan writes the planned paths, in order, each file once. */
  lemma PlanFacts(dir: string, name: string, useCSSModule: bool, c: Contents)
    ensures Paths(Plan(dir, name, useCSSModule, c)) == PlanPaths(dir, name, useCSSModule)
    ensures DistinctPaths(Plan(dir, name, useCSSModule, c))
  {
    var ws := Plan(dir, name, useCSSModule, c);
    var n := |dir| + |name|;
    assert |ws[0].path| == n + 5 && |ws[|ws| - 1].path| == n + 10;
    assert useCSSModule ==> |ws[1].path| == n + 12;
  }

  /** The planned files lie directly inside `dir`, so none of them is one
      of the directories mkdir creates for `dir`. */
  lemma PlanInsideDir(dir: string, name: string, useCSSModule: bool)
    ensures forall p | p in PlanPaths(dir, name, useCSSModule) :: IsPrefix(dir + "/", p) && p !in MkdirTargets(dir)
  {
    MkdirTargetsArePrefixes(dir);
    forall p | p in PlanPaths(dir, name, useCSSModule) ensures IsPrefix(dir + "/", p) && p !in MkdirTargets(dir) {
      assert p[..|dir| + 1] == dir + "/";
    }
  }

  /** The directory a file `dir/<name><ext>` goes into: `dir` itself for
      a name without '/', and a longer path under it, which mkdir of `dir`
      does not create, for a name with one. */
  lemma FileParent(dir: string, name: string, ext: string)
    requires '/' !in ext
    ensures '/' !in name ==> Parent(dir + "/" + name + ext) == dir
    ensures '/' in name ==> |Parent(dir + "/" + name + ext)| > |dir|
  {
    var p := dir + "/" + name + ext;
    if '/' !in name {
      assert p == dir + "/" + (name + ext);
      ParentOfChild(dir, name + ext);
    } else {
      var m :| 0 <= m < |name| && name[m] == '/';
      assert p[|dir| + 1 + m] == '/';
      ParentPastSlash(p, |dir| + 1 + m);
    }
  }

  /** The planned files go into `dir` when the name has no '/'; otherwise
      into a subdirectory of `dir`. */
  lemma PlannedParents(dir: string, name: string, useCSSModule: bool)
    ensures '/' !in name ==> forall p | p in PlanPaths(dir, name, useCSSModule) :: Parent(p) == dir
    ensures '/' in name ==> forall p | p in PlanPaths(dir, name, useCSSModule) :: |Parent(p)| > |dir|
  {
    FileParent(dir, name, ".tsx");
    FileParent(dir, name, ".module.css");
    FileParent(dir, name, ".test.tsx");
  }

  // ---------------------------------------------------------------------
  // Runs

  /** Once mkdir has succeeded, a planned path is writable exactly when it
      is no directory and is not denied, and its directory is `dir` or
      existed before: mkdir adds no planned file and no subdirectory of
      `dir`. */
  lemma WritableAfterMkdir(d: Disk, denied: set<string>, dir: string, name: string, useCSSModule: bool)
    requires MkdirEffect(d, denied, dir).error.None?
    ensures forall p | p in PlanPaths(dir, name, useCSSModule) ::
      Writable(MkdirEffect(d, denied, dir).disk, denied, p)
        == (p !in d.dirs && p !in denied && (Parent(p) == dir || Parent(p) in d.dirs))
  {
    MkdirSucceedsIff(d, denied, dir);
    MkdirTargetsArePrefixes(dir);
    PlanInsideDir(dir, name, useCSSModule);
    PlannedParents(dir, name, useCSSModule);
  }

  /** A run succeeds exactly when mkdir succeeds and every planned file is
      writable on the disk mkdir leaves. */
  lemma RunSucceedsIff(d: Disk, denied: set<string>, dir: string, name: string, useCSSModule: bool, c: Contents)
    ensures var made := MkdirEffect(d, denied, dir);
      (RunWith(d, denied, dir, name, useCSSModule, c).outcome == Generated)
        <==> (made.error.None? && forall p | p in PlanPaths(dir, name, useCSSModule) :: Writable(made.disk, denied, p))
  {
    var made := MkdirEffect(d, denied, dir);
    if made.error.None? {
      var ws := Plan(dir, name, useCSSModule, c);
      PerformSucceedsIff(made.disk, denied, ws);
      PlanFacts(dir, name, useCSSModule, c);
      assert forall i | 0 <= i < |ws| :: ws[i].path == PlanPaths(dir, name, useCSSModule)[i];
    }
  }

  /** For a name without '/', a run succeeds exactly when no directory
      mkdir needs blocks it and no planned file is a directory or denied. */
  lemma PlainNameRunSucceedsIff(d: Disk, denied: set<string>, dir: string, name: string, useCSSModule: bool, c: Contents)
    requires '/' !in name
    ensures RunWith(d, denied, dir, name, useCSSModule, c).outcome == Generated
      <==> && (forall q | q in MkdirTargets(dir) :: !Blocks(d, denied, q))
           && (forall p | p in PlanPaths(dir, name, useCSSModule) :: p !in d.dirs && p !in denied)
  {
    RunSucceedsIff(d, denied, dir, name, useCSSModule, c);
    MkdirSucceedsIff(d, denied, dir);
    PlannedParents(dir, name, useCSSModule);
    if MkdirEffect(d, denied, dir).error.None? {
      WritableAfterMkdir(d, denied, dir, name, useCSSModule);
    }
  }

  /** A name with '/' puts the files into a subdirectory of `dir` that mkdir
      does not create: unless it exists already, no file is written and the
      run fails, on the component file when mkdir itself succeeded. */
  lemma NestedNameNeedsSubdirectory(d: Disk, denied: set<string>, dir: string, name: string, useCSSModule: bool, c: Contents)
    requires '/' in name && Parent(ComponentFile(dir, name)) !in d.dirs
    ensures var r := RunWith(d, denied, dir, name, useCSSModule, c);
      && r.written == [] && r.outcome.Failed?
      && (MkdirEffect(d, denied, dir).error.None? ==> r.outcome == Failed(NoEntry(ComponentFile(dir, name))))
  {
    var made := MkdirEffect(d, denied, dir);
    if made.error.None? {
      var f := ComponentFile(dir, name);
      MkdirSucceedsIff(d, denied, dir);
      MkdirTargetsArePrefixes(dir);
      FileParent(dir, name, ".tsx");
      assert Parent(f) !in made.disk.dirs;
      assert Plan(dir, name, useCSSModule, c)[0] == Write(f, c.component);
    }
  }

  /** After a successful run, every planned path was written, the
      directories needed for `dir` exist, and the files are the old ones
      overlaid with the plan. */
  lemma RunOnSuccess(d: Disk, denied: set<string>, dir: string, name: string, useCSSModule: bool, c: Contents)
    ensures var r := RunWith(d, denied, dir, name, useCSSModule, c);
      r.outcome == Generated ==>
        && r.written == PlanPaths(dir, name, useCSSModule)
        && r.disk.dirs == d.dirs + MkdirTargets(dir)
        && r.disk.files == Overlay(d.files, Plan(dir, name, useCSSModule, c))
  {
    var made := MkdirEffect(d, denied, dir);
    if made.error.None? {
      var ws := Plan(dir, name, useCSSModule, c);
      MkdirSucceedsIff(d, denied, dir);
      PerformStopsAtFirstFailure(made.disk, denied, ws);
      PlanFacts(dir, name, useCSSModule, c);
      assert ws[..|ws|] == ws;
    }
  }

  /** After a successful run the files are the old ones plus the planned
      ones, and each planned file holds its text. */
  lemma RunSuccessFiles(d: Disk, denied: set<string>, dir: string, name: string, useCSSModule: bool, c: Contents)
    ensures var r := RunWith(d, denied, dir, name, useCSSModule, c);
      r.outcome == Generated ==>
        && (forall p :: p in r.disk.files <==> p in d.files || p in PlanPaths(dir, name, useCSSModule))
        && r.disk.files[ComponentFile(dir, name)] == c.component
        && r.disk.files[TestFile(dir, name)] == c.test
        && (useCSSModule ==> r.disk.files[StylesheetFile(dir, name)] == c.stylesheet)
  {
    var r := RunWith(d, denied, dir, name, useCSSModule, c);
    if r.outcome == Generated {
      var ws := Plan(dir, name, useCSSModule, c);
      RunOnSuccess(d, denied, dir, name, useCSSModule, c);
      PlanFacts(dir, name, useCSSModule, c);
      forall p ensures p in r.disk.files <==> p in d.files || p in PlanPaths(dir, name, useCSSModule) {
        OverlayAt(d.files, ws, p);
      }
      OverlayAt(d.files, ws, ComponentFile(dir, name));
      assert ws[0].path == ComponentFile(dir, name);
      OverlayAt(d.files, ws, TestFile(dir, name));
      assert ws[|ws| - 1].path == TestFile(dir, name);
      if useCSSModule {
        OverlayAt(d.files, ws, StylesheetFile(dir, name));
        assert ws[1].path == StylesheetFile(dir, name);
      }
    }
  }

  /** Whatever the outcome, a run touches no file outside the plan, and it
      adds no directory other than those mkdir needs for `dir`. */
  lemma RunLeavesOtherFiles(d: Disk, denied: set<string>, dir: string, name: string, useCSSModule: bool, c: Contents)
    ensures var r := RunWith(d, denied, dir, name, useCSSModule, c);
      && d.dirs <= r.disk.dirs <= d.dirs + MkdirTargets(dir)
      && forall p | p !in PlanPaths(dir, name, useCSSModule) ::
           (p in r.disk.files <==> p in d.files) && (p in d.files ==> r.disk.files[p] == d.files[p])
  {
    var r := RunWith(d, denied, dir, name, useCSSModule, c);
    var made := MkdirEffect(d, denied, dir);
    MkdirSucceedsIff(d, denied, dir);
    if made.error.None? {
      var ws := Plan(dir, name, useCSSModule, c);
      PerformStopsAtFirstFailure(made.disk, denied, ws);
      PlanFacts(dir, name, useCSSModule, c);
      var k := |r.written|;
      forall p | p !in PlanPaths(dir, name, useCSSModule)
        ensures (p in r.disk.files <==> p in d.files) && (p in d.files ==> r.disk.files[p] == d.files[p])
      {
        OverlayAt(d.files, ws[..k], p);
        assert p !in Paths(ws[..k]) by {
          forall i | 0 <= i < k ensures Paths(ws[..k])[i] != p {
            assert Paths(ws[..k])[i] == Paths(ws)[i];
          }
        }
      }
    }
  }

  /** A failed run is not rolled back. A failed mkdir writes no file and
      keeps the directories it created before the one that blocked it;
      after a successful mkdir the files written before the first
      unwritable planned path stay, and the error names that path. */
  lemma RunFailureKeepsEarlierWrites(d: Disk, denied: set<string>, dir: string, name: string, useCSSModule: bool, c: Contents)
    ensures var made := MkdirEffect(d, denied, dir);
      var r := RunWith(d, denied, dir, name, useCSSModule, c);
      var chain := MkdirChain(dir);
      var paths := PlanPaths(dir, name, useCSSModule);
      var k := |r.written|;
      && (made.error.Some? ==>
            && r.written == [] && r.outcome == Failed(made.error.value) && r.disk.files == d.files
            && r.disk.dirs == d.dirs + Elements(chain[..Unblocked(d, denied, chain)])
            && Unblocked(d, denied, chain) < |chain|)
      && (made.error.None? && r.outcome.Failed? ==>
            && k < |paths| && r.written == paths[..k]
            && (forall i | 0 <= i < k :: Writable(made.disk, denied, paths[i]))
            && !Writable(made.disk, denied, paths[k]) && r.outcome.error == WriteError(made.disk, paths[k])
            && r.disk.files == Overlay(d.files, Plan(dir, name, useCSSModule, c)[..k]))
  {
    var made := MkdirEffect(d, denied, dir);
    var r := RunWith(d, denied, dir, name, useCSSModule, c);
    MkdirStopsAtFirstBlocked(d, denied, dir, MkdirChain(dir));
    if made.error.None? && r.outcome.Failed? {
      var ws := Plan(dir, name, useCSSModule, c);
      var paths := PlanPaths(dir, name, useCSSModule);
      MkdirSucceedsIff(d, denied, dir);
      PerformStopsAtFirstFailure(made.disk, denied, ws);
      PlanFacts(dir, name, useCSSModule, c);
      var k := |r.written|;
      assert Paths(ws[..k]) == paths[..k];
      assert forall i | 0 <= i < k :: paths[i] == ws[i].path;
      assert paths[k] == ws[k].path;
    }
  }

  /** Running the generator again after a success, with the same answers,
      succeeds and leaves the disk as it was: mkdir finds the directories and
      each file is rewritten with the text it already holds. */
  lemma RunTwice(d: Disk, denied: set<string>, dir: string, name: string, useCSSModule: bool, c: Contents)
    ensures var r := RunWith(d, denied, dir, name, useCSSModule, c);
      r.outcome == Generated ==>
        RunWith(r.disk, denied, dir, name, useCSSModule, c) == Report(r.disk, PlanPaths(dir, name, useCSSModule), Generated)
  {
    var r := RunWith(d, denied, dir, name, useCSSModule, c);
    if r.outcome == Generated {
      var ws := Plan(dir, name, useCSSModule, c);
      var paths := PlanPaths(dir, name, useCSSModule);
      var made := MkdirEffect(d, denied, dir);
      RunSucceedsIff(d, denied, dir, name, useCSSModule, c);
      RunOnSuccess(d, denied, dir, name, useCSSModule, c);
      RunSuccessFiles(d, denied, dir, name, useCSSModule, c);
      MkdirSucceedsIff(d, denied, dir);
      MkdirSucceedsIff(r.disk, denied, dir);
      PlanInsideDir(dir, name, useCSSModule);
      assert MkdirEffect(r.disk, denied, dir) == MkdirResult(r.disk, None) by {
        assert forall q | q in MkdirTargets(dir) :: !Blocks(r.disk, denied, q);
        assert r.disk.dirs + MkdirTargets(dir) == r.disk.dirs;
      }
      PlanFacts(dir, name, useCSSModule, c);
      PerformStopsAtFirstFailure(r.disk, denied, ws);
      PerformSucceedsIff(r.disk, denied, ws);
      forall i | 0 <= i < |ws| ensures Writable(r.disk, denied, ws[i].path) {
        assert ws[i].path == paths[i] && paths[i] in paths;
        assert Writable(made.disk, denied, paths[i]);
      }
      assert ws[..|ws|] == ws;
      OverlayIdempotent(d.files, ws);
    }
  }

  // ---------------------------------------------------------------------
  // What a successful generateComponent leaves behind

  /** After success, `<name>.tsx` and `<name>.test.tsx` hold the rendered
      component and test, and `<name>.module.css` holds the stylesheet when a
      CSS module was asked for; it exists afterwards exactly when it was
      asked for or was there before. */
  lemma GeneratedFiles(d: Disk, denied: set<string>, cwd: string, opts: Options)
    ensures var dir := ComponentDir(cwd, opts.name);
      var r := Run(d, denied, cwd, opts);
      r.outcome == Generated ==>
        && ComponentFile(dir, opts.name) in r.disk.files && TestFile(dir, opts.name) in r.disk.files
        && r.disk.files[ComponentFile(dir, opts.name)]
             == GenerateComponentContent(opts.name, opts.useHooks, opts.useCSSModule, opts.props)
        && r.disk.files[TestFile(dir, opts.name)] == GenerateTestContent(opts.name)
        && (var sf := StylesheetFile(dir, opts.name); sf in r.disk.files <==> opts.useCSSModule || sf in d.files)
        && (opts.useCSSModule ==> r.disk.files[StylesheetFile(dir, opts.name)] == GenerateCSSContent())
  {
    var dir := ComponentDir(cwd, opts.name);
    RunSuccessFiles(d, denied, dir, opts.name, opts.useCSSModule, Rendered(opts));
    StylesheetPlannedIff(dir, opts.name, opts.useCSSModule);
  }

  /** The stylesheet is planned exactly when a CSS module is wanted; the
      component and the test always are. */
  lemma StylesheetPlannedIff(dir: string, name: string, useCSSModule: bool)
    ensures ComponentFile(dir, name) in PlanPaths(dir, name, useCSSModule)
    ensures TestFile(dir, name) in PlanPaths(dir, name, useCSSModule)
    ensures StylesheetFile(dir, name) in PlanPaths(dir, name, useCSSModule) <==> useCSSModule
  {
    var sf := StylesheetFile(dir, name);
    assert |sf| != |ComponentFile(dir, name)| && |sf| != |TestFile(dir, name)|;
  }

  /** After success the files refer to each other consistently: the test
      imports the component from its sibling module and looks up the
      heading the component renders, and with a CSS module
      the component imports the sibling stylesheet, which exists and
      defines the class the component uses. For a name without '/' the
      files are siblings indeed: all of them are in `dir`. */
  lemma GeneratedFilesAgree(d: Disk, denied: set<string>, cwd: string, opts: Options)
    ensures var dir := ComponentDir(cwd, opts.name);
      var name := opts.name;
      var files := Run(d, denied, cwd, opts).disk.files;
      Run(d, denied, cwd, opts).outcome == Generated ==>
        && ComponentFile(dir, name) in files && TestFile(dir, name) in files
        && Contains(files[TestFile(dir, name)], "import " + name + " from './" + name + "';")
        && Contains(files[TestFile(dir, name)], "screen.getByText('" + name + " Component')")
        && Contains(files[ComponentFile(dir, name)], "<h1>" + name + " Component</h1>")
        && (opts.useCSSModule ==>
              && StylesheetFile(dir, name) in files
              && Contains(files[ComponentFile(dir, name)], "import styles from './" + name + ".module.css';")
              && Contains(files[ComponentFile(dir, name)], "className={styles.container}")
              && IsPrefix(".container {\n", files[StylesheetFile(dir, name)]))
        && ('/' !in name ==>
              && Parent(ComponentFile(dir, name)) == dir && Parent(TestFile(dir, name)) == dir
              && Parent(StylesheetFile(dir, name)) == dir)
  {
    var dir := ComponentDir(cwd, opts.name);
    FileParent(dir, opts.name, ".tsx");
    FileParent(dir, opts.name, ".module.css");
    FileParent(dir, opts.name, ".test.tsx");
    GeneratedFiles(d, denied, cwd, opts);
    RunSuccessFiles(d, denied, dir, opts.name, opts.useCSSModule, Rendered(opts));
    TestImportsComponent(opts.name);
    TestChecksHeading(opts.name, opts.useHooks, opts.useCSSModule, opts.props);
    if opts.useCSSModule {
      ComponentImportsStylesheet(opts.name, opts.useHooks, opts.useCSSModule, opts.props);
      StylesheetDefinesUsedClass(opts.name, opts.useHooks, opts.useCSSModule, opts.props);
    }
  }
}
