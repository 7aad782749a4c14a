# next-comp-cli component generator, modelled in Dafny

The tool asks four questions: the component name, whether to use React hooks, whether to use a
CSS module, and a comma-separated list of props. It then creates `<cwd>/components/<name>` and
writes up to three files there:

- `<name>.tsx`, a function component with a `<name>Props` interface;
- `<name>.module.css`, only when a CSS module is wanted;
- `<name>.test.tsx`, a test that renders the component and looks for its heading.

The model has three modules.

- `Text` (`text.dfy`) covers the JavaScript string operations the generator relies on:
  `String.prototype.trim`, `split` on one character, `join`, and the lines of a text.
  - `trim` uses the ECMAScript whitespace and line-terminator code points.
  - `"".split(",")` is `[""]`, as in JavaScript.
- `Render` (`render.dfy`) holds the three pure renderers. Each template literal is written as
  its list of lines, each followed by `"\n"`, so the texts match the source character for
  character:
  - the blank lines left by an unused hooks or CSS import;
  - the one-space indent that the `"\n "` join separator gives every prop after the first;
  - the final newline.
- `Generator` (`generator.dfy`) covers the driver:
  - `ValidateName` is the name prompt's `validate` callback.
  - A `FileSystem` class holds a set of directories and a map from file paths to contents. It
    also has a fixed set of paths the process may not create or write. Its `Mkdir` and
    `WriteFile` methods apply the pure effects `MkdirEffect` and `WriteFileEffect`.
  - `Mkdir` is recursive: it creates the missing ancestors of the directory parent first, then
    the directory itself. On a failure it stops, and the directories it has already created
    stay.
  - `WriteFile` fails when the directory the file goes into does not exist. This matters for
    a name containing `/`: the files then go into a subdirectory of the component directory,
    which mkdir does not create.
  - The `GenerateComponent` method is proved to leave the disk, and return the outcome, that
    the pure function `Run` gives for the disk before. `Run` creates the directory, then
    performs the planned writes in order, stopping at the first failure.
  - The lemmas about `Run` state when a run succeeds and what it leaves behind. A run leaves
    other files alone, does not undo earlier writes when a later one fails, and, after a success,
    changes nothing when repeated.

Some behaviour of the code differs from what it evidently means to do. The model follows the
code.

- **Empty props.** The template falls back with `propTypes || "// Define your props here"`
  (generate-component.ts:104), which is meant to show the placeholder comment when no props are
  given. But `"".split(",")` gives one empty piece, so the rendered prop types are `";"`. The
  entries always end with `;`, so the `||` never falls back and the placeholder is
  unreachable (`Render.PlaceholderUnreachable`, `Render.EmptyProps`).
- **Trailing comma.** A trailing comma adds an entry made of `;` alone
  (`Render.TrailingComma`).
- **Untrimmed name.** The name is only checked with `trim()`; the untrimmed answer is used in
  paths and texts.

## Model

| member | source | states |
|---|---|---|
| `Text.Trim` | generate-component.ts:95 | the result is the slice of the input between its leading and trailing whitespace: it neither starts nor ends with whitespace, and everything dropped is whitespace |
| `Text.TrimEmptyIff` | generate-component.ts:19 | a string trims to `""` exactly when all of its characters are whitespace |
| `Text.TrimIdempotent` | generate-component.ts:95 | trimming twice is trimming once |
| `Text.Split` | generate-component.ts:94 | `split` gives one piece more than there are separators, and no piece contains the separator |
| `Text.Join` | generate-component.ts:97 | `join`: the parts with the separator between each two; its partner lemmas are `Text.JoinSplit` and `Text.SplitJoin` |
| `Text.JoinSplit` | generate-component.ts:93-97 | joining the pieces of a split with the separator gives back the input |
| `Text.SplitJoin` | generate-component.ts:93-97 | splitting a join of separator-free parts gives back the parts |
| `Text.SplitAround` | generate-component.ts:94 | splitting around one separator is splitting each side and concatenating |
| `Text.LinesOfUnlines` | generate-component.ts:99-118 | the lines of newline-terminated lines followed by a text are those lines followed by the lines of the text |
| `Text.LinesAround` | generate-component.ts:99-118 | a template whose lines around one slot are newline-free has exactly those lines, plus the lines of the slot's text |
| `Text.UnlinesEnds` | generate-component.ts:99-118 | a text of terminated lines starts with its first line and ends with its last line, each followed by a newline |
| `Text.ContainsLine` | generate-component.ts:99-118 | a text contains whatever one of its lines contains |
| `Render.PropEntries` | generate-component.ts:93-96 | there is one prop entry per comma-separated piece, so one more than the number of commas |
| `Render.PropTypes` | generate-component.ts:93-97 | the prop entries joined with `"\n "`; its properties are stated by `Render.LinesOfJoin` and `Render.PropTypesTerminated` |
| `Render.PropBlock` | generate-component.ts:104 | `propTypes \|\| "// Define your props here"`: the prop types unless they are empty, then the placeholder; `Render.PlaceholderUnreachable` shows the fallback never applies |
| `Render.HooksImport` | generate-component.ts:88 | the hooks import line is non-empty exactly when hooks are wanted |
| `Render.CssImport` | generate-component.ts:89-91 | the CSS import line is non-empty exactly when a CSS module is wanted |
| `Render.StateDeclaration` | generate-component.ts:108 | the `useState` declaration is non-empty exactly when hooks are wanted |
| `Render.ClassNameAttribute` | generate-component.ts:111 | the root element's class attribute is non-empty exactly when a CSS module is wanted |
| `Render.PropEntriesOfFields` | generate-component.ts:93-96 | for props written as comma-free fields joined by commas, the entries are those fields in order, duplicates kept, each trimmed and followed by `;` |
| `Render.PropEntriesCoverInput` | generate-component.ts:93-96 | the entries are the trimmed, terminated pieces of the input, and the pieces joined with commas give back the input |
| `Render.TrailingComma` | generate-component.ts:93-96 | a trailing comma adds one entry made of `;` alone |
| `Render.EmptyProps` | generate-component.ts:93-97 | an empty answer gives the single entry `;`, and the prop types are `;` |
| `Render.PropTypesTerminated` | generate-component.ts:93-97 | the joined prop types always end with `;` |
| `Render.PlaceholderUnreachable` | generate-component.ts:104 | the `\|\|` fallback never applies: the prop block is always the prop types |
| `Render.EntriesOnOneLine` | generate-component.ts:93-96 | the entries of a newline-free answer are newline-free |
| `Render.LinesOfJoin` | generate-component.ts:97 | newline-free entries joined with `"\n "` come out one per line: the first after the template's indent, each later one after one space |
| `Render.GenerateComponentContent` | generate-component.ts:82-119 | the component text always starts with the React import line and ends with `export default <name>;` and a newline |
| `Render.TemplateLines` | generate-component.ts:99-118 | with newline-free pieces, every template line is one output line except the prop line, which contributes the lines of its text |
| `Render.ComponentLines` | generate-component.ts:88-118 | the lines of the component text: the five head lines, then one line per prop entry, then the thirteen body lines, then the empty line after the final newline |
| `Render.ComponentPropLines` | generate-component.ts:93-104 | output line 5 is the first entry behind two spaces; each later entry is on the next line behind one space |
| `Render.ImportsAgreeWithUses` | generate-component.ts:88-111 | the hooks import line and the `useState` line are non-blank exactly when hooks are wanted; the CSS import line and the root's class attribute are present exactly when a CSS module is wanted |
| `Render.PiecesOnOneLine` | generate-component.ts:88-111 | the interpolated imports, state line and class attribute hold no newline when the name holds none |
| `Render.ComponentAlwaysDeclares` | generate-component.ts:103-112 | whatever the options, the component declares `<name>Props`, declares the component `<name>` and renders `<h1><name> Component</h1>` |
| `Render.GenerateCSSContent` | generate-component.ts:121-126 | the stylesheet starts with the rule line `.container {` and ends with `}` and a newline |
| `Render.GenerateTestContent` | generate-component.ts:128-140 | the test starts with the React import line and ends with `});` and a newline |
| `Render.TestImportsComponent` | generate-component.ts:131 | the test imports `<name>` from `./<name>`, which is its sibling module for a name without `/` |
| `Render.TestChecksHeading` | generate-component.ts:112-136 | the test queries `<name> Component`, the heading text that the component renders in `<h1>` |
| `Render.TestQueriesHeading` | generate-component.ts:136 | the test calls `screen.getByText('<name> Component')` |
| `Render.StylesheetDefinesUsedClass` | generate-component.ts:111-122 | with a CSS module, the component uses `className={styles.container}`, and the stylesheet opens with the rule for `.container` |
| `Render.ComponentImportsStylesheet` | generate-component.ts:89-91 | with a CSS module, the component imports `./<name>.module.css` |
| `Generator.ValidateName` | generate-component.ts:18-19 | a name is `Accepted` exactly when it has a non-whitespace character; otherwise it is `Rejected` with the message "Component name is required" |
| `Generator.ComponentDir` | generate-component.ts:43 | `<cwd>/components/<name>`; what mkdir makes of it is stated by `Generator.MkdirTargetsExactly` |
| `Generator.ComponentFile` | generate-component.ts:56 | `<dir>/<name>.tsx`; with the other two file paths, placed by `Generator.PlannedParents` and `Generator.PlanInsideDir` |
| `Generator.StylesheetFile` | generate-component.ts:64 | `<dir>/<name>.module.css` |
| `Generator.TestFile` | generate-component.ts:72 | `<dir>/<name>.test.tsx` |
| `Generator.Rendered` | generate-component.ts:49-70 | the three texts, each from its renderer applied to the answers; what the written files then hold is stated by `Generator.GeneratedFiles` |
| `Generator.PlanPaths` | generate-component.ts:55-74 | the component path, the stylesheet path when a CSS module is wanted, and the test path, in that order; stated by `Generator.PlanFacts` and `Generator.StylesheetPlannedIff` |
| `Generator.Plan` | generate-component.ts:55-74 | each planned path with its text; the plan has three writes with a CSS module and two without |
| `Generator.MkdirSteps` | generate-component.ts:46 | the directories of the chain created one by one until one is a file or a denied missing one; stated by `Generator.MkdirStopsAtFirstBlocked` |
| `Generator.MkdirEffect` | generate-component.ts:46 | `MkdirSteps` over `p`'s ancestors and `p`; stated by `Generator.MkdirSucceedsIff` |
| `Generator.WriteFileEffect` | generate-component.ts:55-58 | the new disk or the error of one writeFile; stated by `Generator.WriteFileSucceedsIff` |
| `Generator.Perform` | generate-component.ts:55-76 | the writes one after another, stopping at the first error; stated by `Generator.PerformStopsAtFirstFailure` |
| `Generator.RunWith` | generate-component.ts:45-79 | mkdir, then the plan unless mkdir failed; stated by the `Generator.Run…` lemmas |
| `Generator.Run` | generate-component.ts:42-79 | `RunWith` on the component directory and the rendered texts; stated by `Generator.GeneratedFiles` and `Generator.GeneratedFilesAgree` |
| `Generator.FileSystem.Mkdir` | generate-component.ts:46 | a loop over the needed directories, parents first; the new disk and the returned error are those of `MkdirEffect` on the old disk |
| `Generator.FileSystem.WriteFile` | generate-component.ts:55-58 | the new disk and the returned error are those of `WriteFileEffect` on the old disk |
| `Generator.GenerateComponent` | generate-component.ts:42-79 | the disk afterwards and the outcome are those of `Run` on the disk before |
| `Generator.WriteComponent` | generate-component.ts:45-79 | mkdir, then the component, the stylesheet when wanted and the test, stopping at the first failure; this is exactly the `RunWith` function |
| `Generator.MkdirTargetsExactly` | generate-component.ts:46 | recursive mkdir of `p` creates exactly `p` and every ancestor of `p`: each prefix that ends just before a `/`, other than the empty one |
| `Generator.MkdirChainParentsFirst` | generate-component.ts:46 | recursive mkdir visits prefixes of the directory, each shorter than the next, and ends with the directory itself |
| `Generator.MkdirStopsAtFirstBlocked` | generate-component.ts:46 | mkdir creates the needed directories up to the first one that is a file or a denied missing one, keeps those it created, and fails there with `NotADirectory` or `Denied`; it succeeds exactly when none blocks |
| `Generator.MkdirSucceedsIff` | generate-component.ts:46 | recursive mkdir succeeds exactly when no needed directory is a file and no missing one is denied; it then adds them all; a failure leaves the files alone and adds only some of the needed directories |
| `Generator.MkdirTargetsArePrefixes` | generate-component.ts:46 | mkdir creates the directory and some of its prefixes |
| `Generator.WriteFileSucceedsIff` | generate-component.ts:55-58 | writeFile succeeds exactly when the directory it goes into exists and the path is no directory and is not denied; it then sets that file and keeps every other file; otherwise it fails with `NoEntry`, `IsADirectory` or `Denied`, in that order |
| `Generator.ParentOfChild` | generate-component.ts:55-72 | the directory of `<dir>/<s>`, for an `s` without `/`, is `<dir>` |
| `Generator.PlannedParents` | generate-component.ts:43-72 | for a name without `/` every planned file goes into the component directory; for a name with `/`, into a longer path below it |
| `Generator.PerformStopsAtFirstFailure` | generate-component.ts:45-79 | the written paths are a prefix of the plan and were all writable; the files are the old ones overlaid with exactly those writes; the run fails exactly when a write is left out, with the error of the first unwritable path |
| `Generator.PerformSucceedsIff` | generate-component.ts:45-79 | the writes all succeed exactly when every path is writable |
| `Generator.OverlayAt` | generate-component.ts:55-74 | after the writes a path is a file exactly when it was one before or was written; an untouched file keeps its text; with distinct paths each written file holds its text |
| `Generator.OverlayIdempotent` | generate-component.ts:55-74 | repeating writes to distinct paths changes nothing |
| `Generator.PlanFacts` | generate-component.ts:55-74 | the plan writes the planned paths in order (`.tsx`, then `.module.css` if wanted, then `.test.tsx`), each once |
| `Generator.PlanInsideDir` | generate-component.ts:43-72 | every planned path starts with the component directory and `/`, and none is one of the directories mkdir creates |
| `Generator.StylesheetPlannedIff` | generate-component.ts:61-67 | the stylesheet is planned exactly when a CSS module is wanted; the component and the test always are |
| `Generator.WritableAfterMkdir` | generate-component.ts:46-58 | after a successful mkdir a planned file can be written exactly when it is no directory, is not denied, and goes into the component directory or into a directory that existed before |
| `Generator.RunSucceedsIff` | generate-component.ts:45-79 | a run succeeds exactly when mkdir succeeds and every planned file is writable on the disk mkdir leaves |
| `Generator.PlainNameRunSucceedsIff` | generate-component.ts:45-79 | for a name without `/`, a run succeeds exactly when no directory mkdir needs blocks it and no planned file is a directory or denied |
| `Generator.NestedNameNeedsSubdirectory` | generate-component.ts:43-58 | for a name with `/` whose subdirectory does not exist, nothing is written and the run fails, with `NoEntry` on the component file when mkdir succeeded |
| `Generator.RunOnSuccess` | generate-component.ts:45-76 | after success every planned path was written, in order; the directories for the component exist; the files are the old ones overlaid with the plan |
| `Generator.RunSuccessFiles` | generate-component.ts:45-76 | after success the files are the old ones plus the planned ones, and each planned file holds its text |
| `Generator.RunLeavesOtherFiles` | generate-component.ts:42-79 | whatever the outcome, no file outside the plan is created, removed or changed, and only directories that mkdir needs are added |
| `Generator.RunFailureKeepsEarlierWrites` | generate-component.ts:45-79 | a failed run is not rolled back: a failed mkdir writes no file and keeps the directories it created before the blocking one; after a successful mkdir the files written before the first unwritable planned path stay, and the error names that path |
| `Generator.RunTwice` | generate-component.ts:42-79 | after a success, running again with the same answers succeeds, writes the same paths and leaves the disk unchanged |
| `Generator.GeneratedFiles` | generate-component.ts:49-74 | after success `<name>.tsx` and `<name>.test.tsx` hold the rendered component and test, and `<name>.module.css` holds the stylesheet when wanted; that file exists afterwards exactly when it was wanted or already existed |
| `Generator.GeneratedFilesAgree` | generate-component.ts:43-136 | after success the test imports `./<name>` and queries the heading the component renders; with a CSS module, the component imports `./<name>.module.css`, which exists and defines the class the component uses; for a name without `/` all three files are in the component directory, so these imports name the files written |

## Left out

- The interactive prompts (inquirer) are not modelled. Their answers are the `Options` parameter. The prompts' defaults (hooks off, CSS module on, no props) belong to the prompt library and are not modelled.
- The name prompt's retry loop is not modelled. Only its `validate` callback is, as `ValidateName`. `GenerateComponent` requires an accepted name, which the prompt guarantees.
- `process.cwd()` is not modelled; it is the `cwd` parameter.
- `path.join` is not modelled: paths are joined with `/`, with no normalisation of `.`, `..` or repeated separators. The directory of a path without `/` is taken to be `""`.
- Only four file-system errors are modelled: a needed directory is a file (`NotADirectory`), the target is a directory (`IsADirectory`), the directory a file goes into does not exist (`NoEntry`), and the path is denied (`Denied`).
  - Node's distinction between `EEXIST` and `ENOTDIR` is not modelled.
  - A write whose directory is missing because some ancestor is a file raises `ENOTDIR` in Node; the model reports `NoEntry` for it too.
  - A failed mkdir reports the requested directory, not the ancestor that blocked it.
  - Disk-full and other I/O errors are not modelled.
- `async`/`await` is not modelled. The calls are awaited one after another, so the model runs them in sequence. Concurrent changes to the disk by other processes are not modelled.
- For a name with `/`, such as `a/b`, the files go into `<dir>/a`, where the imports `./a/b` and `./a/b.module.css` name `<dir>/a/a/b…`, not the files written. The model states the import texts, not how TypeScript resolves them, and `Generator.GeneratedFilesAgree` proves the files are siblings only for names without `/`.
- The console messages (`console.log` on success, `console.error` with the error) are not modelled. `Outcome` is `Generated` or `Failed(error)`.
- `cli.ts` (the command-line entry point that calls `generateComponent`) is not part of this model.
- Generator.GenerateComponent: renders the three texts before creating the directory, rather than each one just before its write. Rendering is pure, so the disk and the outcome are unaffected.
- Render.ComponentLines: requires a name and props without newlines. The prompts deliver one-line answers; for multi-line answers only the whole text is modelled, not its line layout. The same applies to Render.ComponentPropLines, Render.ImportsAgreeWithUses, Render.PiecesOnOneLine, Render.EntriesOnOneLine and Render.TemplateLines.
- Text.Trim: characters are Dafny `char`s. JavaScript strings are UTF-16, so whitespace outside the Basic Multilingual Plane is not considered (there is none in ECMAScript's set).
