# Slide clone: dependency resolver and clone loop

This project models the core of a command-line tool that copies selected
slides out of an HTML presentation. The presentation is laid out by
convention:

- markup in `app/<slide>.html`;
- shared templates in `app/templates/<name>.html`;
- controllers in `app/controllers/<name>.js`;
- other assets in subdirectories of `app` such as `app/styles/<slide>.css`.

The tool has three parts, all in `utils/actions.js`:

1. **Input validation.** `checkAvailabilitySlides` keeps the space-separated
   slide ids the user typed that exist in the presentation.
   `checkDestinationPath` accepts a destination that was entered, exists and
   is absolute.
2. **Dependency resolution.** `getDependencies` walks the directory it is
   given depth-first (`app` in the script, index.js:27), so only entries
   under `app` are recorded. For each entry whose name (up to the first `.`) is a
   requested slide id, it records the key `"<slide>: <label>"`. The label is
   the name of the directory being walked. In `app` the label is `html`, and
   the slide's templates and controllers are also recorded as
   `templatesN` / `controllersN`. To find them, `getTemplates`,
   `getTemplateHtml` and `getControllers` read the `rv-template` names and
   `rv-controller` values of the slide and its templates.
3. **Cloning.** `getClone` copies every recorded path to the same relative
   path under the destination. It keeps a log of the keys copied, a count,
   and a list of the paths that failed.

Modelling choices:

- The filesystem is a tree: `Entry = File(name, markup) | Dir(name, children)`.
  Paths are sequences of segments.
- A file's markup is abstracted to the two name lists that the HTML parser
  would extract, in document order. Markup concatenation is concatenation of
  those lists.
- JavaScript objects are insertion-ordered association lists
  (`OrderedMaps`). Assigning to an existing key keeps its position, as in
  JavaScript.
- Operations that loop and update variables are methods whose loops are
  proved against recursive specification functions:
  - `GetDependencies` and `ScanDirectory` against `Scan`/`Dependencies`;
  - `GetTemplates`, `GetControllers` and `GetTemplateHtml` against
    `TemplatePaths`, `ControllerPaths` and `ReadTemplates`;
  - `GetClone` against `Succeeded`/`Failed`/`Copies`;
  - `CheckAvailabilitySlides` against `Available`.

  The properties are proved about those functions.
- `checkFileName` and `checkDestinationPath` are pure functions.
- A `readFileSync` that throws, on a template or markup that is missing or is
  a directory, ends the whole resolution. It is modelled as the outcome
  `Thrown(path)`.
- Copy outcomes are inputs:
  - `present` is the set of relative paths that exist;
  - `copyErrors` is the set of paths whose copy rejects.

Modules: `Wrappers`, `FileTree`, `OrderedMaps`, `Text`, `Lists`, `Discovery`,
`Resolver`, `ResolverProperties`, `Cloner`, `Selection`, `Scenarios`.

## Model

| member | source | states |
|---|---|---|
| Selection.Available | utils/actions.js:85-90 | the typed tokens filtered in order by "is a slide of the presentation": a token is kept exactly when it is typed and a slide |
| Selection.AvailableKeepsRepeats | utils/actions.js:85-90 | a valid id typed n times is kept n times; an invalid id is never kept |
| Lists.WithoutCounts | utils/actions.js:88 | filtering keeps every occurrence of a kept element and none of an excluded one |
| Selection.AvailableKeepsOrder | utils/actions.js:85-90 | the kept ids come in the order they were typed |
| Selection.CheckAvailabilitySlides | utils/actions.js:79-92 | an empty answer yields nothing; otherwise the valid space-separated ids in input order, or nothing when none is valid |
| Selection.IsAbsolute | utils/actions.js:102 | `path.isAbsolute` on POSIX: the path starts with `/` (definition, used by `CheckDestinationPath`) |
| Selection.CheckDestinationPath | utils/actions.js:95-106 | accepted exactly when entered, existing and absolute, returning the path; otherwise exactly one of "not entered", "does not exist", "not absolute", checked in that order |
| Text.Split | utils/actions.js:83 | `split` yields at least one piece; no piece holds the separator; the first piece is the prefix up to the first separator |
| Text.JoinSplit | utils/actions.js:83 | joining the pieces of a split with the separator gives back the input |
| Text.SplitJoin | utils/actions.js:83 | splitting a join of separator-free pieces gives back the pieces |
| Text.SplitPrefix | utils/actions.js:149 | a separator-free head followed by the separator is split off as the first piece |
| Resolver.FindSlide | utils/actions.js:150 | `find` succeeds exactly when the name is a requested id, and returns that name |
| FileTree.Last | utils/actions.js:128 | `thisDir.split(path.sep).pop()`: the last segment of the scanned directory, `""` for the empty path (definition, used by `Record` and `LabelKey`) |
| Resolver.Matched | utils/actions.js:123-127 | JavaScript truthiness of `checkFileName`'s result: `undefined` and the empty id are no match (definition, used by `Step`) |
| Resolver.CheckFileName | utils/actions.js:148-151 | a slide id is returned exactly when the text before the first `.` of the entry name is a requested id; it is then that prefix of the name, free of `.` |
| Resolver.IndexedKey | utils/actions.js:136 | the key `"<slide>: <kind><j+1>"`: it belongs to the slide and its category extends the kind by a non-empty index |
| Text.NatToStringInjective | utils/actions.js:136 | distinct 1-based indices render to distinct key suffixes |
| Text.ParseRendered | utils/actions.js:136 | the rendered decimal index reads back as the index |
| Lists.Without | utils/actions.js:176 | the filter keeps exactly the elements not excluded |
| Lists.Dedup | utils/actions.js:178-181 | collapsing repeats keeps every element once and nothing else |
| Lists.DedupFirstSeen | utils/actions.js:178-181 | collapsed elements come in order of their first appearance |
| Lists.WithoutKeepsOrder | utils/actions.js:176 | filtering keeps the relative order of what remains |
| OrderedMaps.Get | utils/actions.js:134-136 | a key has a value exactly when it is among the object's keys |
| OrderedMaps.Put | utils/actions.js:136 | after assignment the key maps to the new value and every other key keeps its value |
| OrderedMaps.PutKeys | utils/actions.js:136 | assignment keeps the key order and appends a key that was new |
| OrderedMaps.PutNew | utils/actions.js:140 | assigning a new key appends one property at the end |
| OrderedMaps.PutKeepsKeysUnique | utils/actions.js:140 | assignment never duplicates a key |
| OrderedMaps.AssignKeepsKeysUnique | utils/actions.js:124 | `Object.assign` of a subdirectory's result never duplicates a key |
| OrderedMaps.Assign | utils/actions.js:124 | `Object.assign` holds exactly the keys of both objects and only their properties |
| OrderedMaps.AssignGet | utils/actions.js:124 | after `Object.assign` a key of the source object has the source's value, every other key keeps the target's value |
| OrderedMaps.PutFollows | utils/actions.js:178-181 | assigning `name -> path(name)` keeps every value equal to the path of its key |
| FileTree.FindChild | utils/actions.js:113 | a child of that name is found when one exists, and no child has the name when none is found |
| FileTree.LookupChild | utils/actions.js:117 | in a tree whose directories have distinct names, `thisDir/<entry>` names the listed entry |
| Discovery.TemplateNames | utils/actions.js:172-181 | the names kept by `getTemplates` have no repeats and are exactly the found names other than `layout` and `common-components` |
| Discovery.TemplatePaths | utils/actions.js:172-181 | the values of `templatesObj`: `thisDir/templates/<n>.html` for each kept name in first-seen order (definition; pinned down by `TemplatePathsExactly` and `TemplateNamesFirstSeen`) |
| Discovery.TemplatePathsExactly | utils/actions.js:168-183 | `thisDir/templates/<n>.html` is produced exactly when `n` is found in the markup and is neither `layout` nor `common-components` |
| Discovery.TemplateNamesFirstSeen | utils/actions.js:176-181 | template names come once each, only names found, in order of first appearance |
| Discovery.GetTemplates | utils/actions.js:168-183 | the values of the filled object are the template paths of the first-seen, non-common names |
| Discovery.ReadFile | utils/actions.js:164-166 | `readFileSync` of a markup file: the markup of a file, nothing for a missing path or a directory (definition) |
| Discovery.ReadTemplates | utils/actions.js:185-189 | the markup of every template appended in order, stopping at the first that cannot be read (definition; pinned down by `ReadTemplatesOk` and `ReadTemplatesControllers`) |
| Discovery.ReadTemplatesOk | utils/actions.js:185-189 | reading the templates succeeds exactly when every one is a readable file; otherwise it fails on one of them |
| Discovery.ReadTemplatesControllers | utils/actions.js:185-189 | the concatenated markup holds exactly the controllers already read plus those of every template |
| Discovery.GetTemplateHtml | utils/actions.js:185-189 | the loop's concatenation is the read-all of the template list, failing on the first unreadable one |
| Discovery.ControllerNames | utils/actions.js:194-203 | the names kept by `getControllers` have no repeats and are exactly the found names other than the slide id |
| Discovery.ControllerPaths | utils/actions.js:194-203 | the values of `controllersObj`: `thisDir/controllers/<c>.js` for each kept name in first-seen order (definition; pinned down by `ControllerPathsExactly` and `ControllerNamesFirstSeen`) |
| Discovery.ControllerPathsExactly | utils/actions.js:191-205 | `thisDir/controllers/<c>.js` is produced exactly when `c` is found and differs from the slide id |
| Discovery.ControllerNamesFirstSeen | utils/actions.js:196-203 | controller names come once each, only names found, in order of first appearance |
| Discovery.GetControllers | utils/actions.js:191-205 | the values of the filled object are the controller paths of the slide's and templates' controllers, minus the slide's own |
| Discovery.Discover | utils/actions.js:153-162 | `getTemplatesAndControllers`: read the slide, take its template paths, read them, take the controller paths of slide plus templates (definition; pinned down by `DiscoverOutcome`) |
| Discovery.DiscoverOutcome | utils/actions.js:153-162 | a successful discovery read the slide, lists its template paths (all readable), and lists a controller path exactly for each controller of the slide or of a template, other than the slide id |
| Discovery.DiscoverSucceeds | utils/actions.js:153-166 | discovery succeeds exactly when the slide and every one of its template paths are readable files; a failure names a path that cannot be read |
| Discovery.GetTemplatesAndControllers | utils/actions.js:153-166 | the method chains the three steps into the discovery outcome, failing when a markup file cannot be read |
| Resolver.PutEach | utils/actions.js:134-138 | indexed assignment adds only keys of that slide and kind, leaves other keys alone, and stores only given paths |
| Resolver.Record | utils/actions.js:127-140 | what a matched entry adds: its path under `"<slide>: <label>"`, and in `app` first its templates and controllers under indexed keys (definition; pinned down by `RecordBindings`) |
| Resolver.Step | utils/actions.js:116-141 | the `forEach` body: a non-matching directory is walked and merged with `Object.assign`, a matched entry is recorded, anything else adds nothing (definition; pinned down by `ScanRecordsEntry`, `MatchedDirNotDescended`, `MatchedOutsideApp`) |
| Resolver.Scan | utils/actions.js:113-143 | the entries of a listing processed in order, a read error ending the walk (definition; pinned down by the `ResolverProperties` lemmas) |
| Resolver.AddIndexed | utils/actions.js:135-137 | the `forEach` loop performs the indexed assignments in order |
| Resolver.Dependencies | utils/actions.js:109-145 | the result is absent exactly when `thisDir` does not exist |
| Resolver.ScanDirectory | utils/actions.js:113-143 | the `forEach` over the listing computes the depth-first scan |
| Resolver.GetDependencies | utils/actions.js:109-145 | the method computes the resolution: absent, thrown or the dependency object |
| ResolverProperties.DependenciesRequested | utils/actions.js:121-141 | every key names a requested, non-empty slide id, so an unrequested slide contributes no key |
| ResolverProperties.ScanKeepsKeys | utils/actions.js:116-142 | the walk never loses a key already recorded |
| ResolverProperties.ScanRecordsEntry | utils/actions.js:123-141 | a matching entry is recorded under `"<id>: <label>"` (`html` in `app`); a non-matching directory is walked and all its keys merged in |
| ResolverProperties.ScanWithoutMatches | utils/actions.js:116-126 | a listing with no match at any depth adds nothing |
| ResolverProperties.MatchedDirIsLeaf | utils/actions.js:123-125 | a directory whose name matches a requested id is recorded without looking at its contents: any two contents give the same outcome |
| ResolverProperties.MatchedDirNotDescended | utils/actions.js:116-126 | replacing the contents of a matched directory anywhere in a listing leaves the walk's outcome unchanged |
| ResolverProperties.MatchedOutsideApp | utils/actions.js:127-140 | outside `app` a matched entry adds exactly its label key, mapped to its own path |
| ResolverProperties.PutEachBindings | utils/actions.js:135-137 | the j-th discovered path ends up under key `<kind><j+1>` |
| ResolverProperties.RecordBindings | utils/actions.js:128-140 | the matched entry's own path is stored under the label key; in `app` every template and controller is stored under its 1-based indexed key; other slides' keys are untouched |
| ResolverProperties.DependenciesLocated | utils/actions.js:109-145 | every recorded path exists in the tree, except those under a `controllersN` key, whose paths are built by convention and never checked |
| ResolverProperties.ScanUnique | utils/actions.js:116-142 | a successful walk of a listing, started from a map without repeated keys, leaves no repeated key |
| ResolverProperties.DependenciesUnique | utils/actions.js:109-145 | the dependency object of a resolved walk has no repeated key, as a JavaScript object cannot, so the clone loop visits each key once |
| Scenarios.IntroResolves | utils/actions.js:109-145 | in a presentation whose `app` holds `intro.html`, `templates/hero.html` and `controllers/navCtrl.js`, requesting `intro` yields `templates1`, `controllers1` and `html`, in that order |
| Scenarios.UnknownIdsResolveEmpty | utils/actions.js:109-145 | requesting ids that name nothing yields an empty but defined object |
| Scenarios.TemplatesKeepDocumentOrder | utils/actions.js:168-183 | repeated and common template names are collapsed or dropped, keeping document order |
| Cloner.Succeeded | utils/actions.js:213-230 | the keys of the entries that are copied, in iteration order, at most one per entry (specification of `log`) |
| Cloner.Failed | utils/actions.js:213-230 | the paths of the entries that are missing or fail to copy, in iteration order, at most one per entry (specification of `fails`) |
| Cloner.Copies | utils/actions.js:215-223 | the copies issued, one per existing source, at most one per entry (specification of the `fse.copy` calls) |
| Cloner.GetClone | utils/actions.js:208-232 | undefined dependencies give "not found"; otherwise every entry is visited in order; a copied one is logged by key (`countOk` = log length), a missing or failed one goes to `fails`, and a copy is issued for every existing source |
| Cloner.CloneAccountsForEveryEntry | utils/actions.js:213-230 | the loop never aborts: logged plus failed entries number exactly the entries |
| Cloner.CloneSortsEntries | utils/actions.js:218-229 | each entry is logged when copied and goes to `fails` otherwise |
| Cloner.CloneRecordsOnlyEntries | utils/actions.js:218-229 | only keys of copied entries are logged and only paths of uncopied entries fail |
| Cloner.CloneAllSucceed | utils/actions.js:213-230 | when every copy succeeds, the log is the key order of the object and nothing fails |
| Cloner.CopiesShareRelativePath | utils/actions.js:215-223 | each copy goes from the presentation to the destination under the same relative path, and that path exists in the presentation |
| Cloner.CopiesCount | utils/actions.js:218-223 | exactly one copy is issued per entry whose source exists |
| Cloner.CloneAsWritten | utils/actions.js:213-230 | the loop as written, with `fails++` on a copy error, never visits past the end |
| Cloner.CloneAsWrittenFrom | utils/actions.js:213-230 | from any entry on, the written loop throws exactly when a missing source follows the point where `fails` became a number, stops at the first such missing source, has logged what the intended loop logs up to there, and leaves `fails` a number exactly when a copy it passed was rejected |
| Cloner.CloneAsWrittenOutcome | utils/actions.js:213-230 | for every input, the written loop throws exactly when a missing source comes after a rejected copy, and then at the first such missing source; otherwise it visits every entry and its log equals the intended `Succeeded`; `fails` ends up a number exactly when a copy the loop passed was rejected |
| Cloner.FailsCounterBreaksLoop | utils/actions.js:228 | a copy error followed by a missing source makes the written loop throw at the second entry, leaving the third uncopied, where the intended loop copies it |

## Left out

- Interactive prompting, its answers and the module-level list of selected slides (`getAnswers`, `getSelectedSlides`, utils/actions.js:10-76) are UI plumbing; the selected ids and the root directory are parameters.
- Loading `structure.json` (utils/actions.js:13) is left out; the presentation's slide ids are a parameter of `CheckAvailabilitySlides`.
- Console and chalk output, `printSlidesList` and `getLogging` (utils/actions.js:45-49, 234-245) are left out; the `console.log` results returned as "undefined" sentinels are `None` / error values.
- The command-line entry point index.js is not part of this model; it only chains `getDependencies(..., 'app')` and `getClone`.
- HTML parsing (cheerio) is replaced by the name lists a file's markup carries, in document order.
- fs-extra I/O (`pathExistsSync`, `readdirSync`, `statSync`, `readFileSync`, `copy`) is abstracted to a tree of entries, a set of existing paths and a set of failing copies; file contents other than the extracted names are not modelled.
- `path.normalize`, `path.sep` and string paths are abstracted to segment sequences; `..`, `.` and repeated separators are not modelled.
- `async`/`await`: the clone loop awaits each copy, so it is modelled as sequential.
- JavaScript's ordering of integer-like property names (which come first in an object) is not modelled; names are assumed non-numeric.
- Keys are modelled as the pair (slide, label) rather than the rendered string `"<slide>: <label>"`; two pairs render alike only when a slide id contains `": "`, which the model does not reproduce.
- Selection.CheckDestinationPath: `path.isAbsolute` is modelled for POSIX paths only (a leading `/`), not for Windows drive letters.
- OrderedMaps.Get: states when a value exists but not which binding supplies it; the value is pinned down by the lemmas about `Put`, `Assign` and `PutEach`.
- "Dependencies not found" (utils/actions.js:209) is printed only for an `undefined` dependency object, that is when the scanned directory does not exist; when nothing matches, `getDependencies` returns `{}`, which is truthy, and `getClone` runs its loop over no entries (`UnknownIdsResolveEmpty`).
- A template or markup file that cannot be read is not skipped: `readFileSync` (utils/actions.js:165, 187) throws and ends the whole resolution, modelled as `Thrown`.
- A template or controller name containing `/` (for example `rv-template name="shared/header"`) is kept as one path segment `shared/header.html`; the script's string path reaches `app/templates/shared/header.html` (utils/actions.js:180, 187, 201), while the model finds no such file and ends in `Thrown`. Names are assumed free of `/`.
- Controller paths recorded under `controllersN` keys are built by convention and never checked for existence before cloning (`Located` exempts exactly those keys); a missing controller shows up as a clone failure.
- Cloner.GetClone: models a copy error as appending the path to `fails` (the evidently intended behaviour) rather than the `fails++` of line 228; the as-written loop is `CloneAsWritten`.

## Findings

| source | as written | input that shows it | evidently intended | confidence | as-written member | corrected member |
|---|---|---|---|---|---|---|
| utils/actions.js:228 | a rejected copy runs `fails++` on the `fails` array, turning it into a number; a later missing source then calls `fails.push` on that number, which throws and aborts the loop; even with no later missing source, `getLogging` then prints `fails.length` as undefined (:243) and `fails.forEach` throws (:244) | entries `app/intro.html` (exists, copy fails), `app/styles/intro.css` (missing), `app/scripts/intro.js` (exists): the loop throws at `styles` and never copies `scripts` | append the failed path to `fails` and go on with the next entry | not executed | Cloner.FailsCounterBreaksLoop | Cloner.GetClone |
