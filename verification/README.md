# Package scripts explorer — a Dafny model

The extension shows a tree view of every `scripts` entry in every
`package.json` of the open workspace. Users can pin scripts as favourites,
recently run scripts are listed, and clicking a script runs `npm run` in a new
terminal with the name recovered from the item's label. This project models the part of `src/extension.ts` that
decides what the tree shows and how the two persisted lists change:

- **Script identifiers** (`ids.dfy`, module `ScriptIds`). An identifier is
  `<manifest path>::<script name>`. It is the only key joining the scripts
  found by a scan with the stored favourites and recents.
- **The store** (`store.dfy`, module `Store`). The add-favourite and
  remove-favourite commands, and the update of the recents list when a script
  runs: move to front, deduplicate, keep five.
- **The manifest scan** (`scanner.dfy`, module `Scanner`). A depth-first walk
  over an abstract directory tree. It collects files named `package.json` and
  never enters `node_modules` or `.git`. Unreadable directories yield nothing.
- **The tree** (`tree.dfy`, module `ScriptTree`). Script items built from the
  scanned manifests, the Favourites and Recents sections, the root level
  (Favourites, Recents, one heading per manifest) and the children of a
  manifest heading.
- **The run-script command** (`executor.dfy`, module `Executor`). The script
  name is recovered from the item's label with the pattern `.*:\s(.+)$`. The
  model covers the terminal name, the command line sent and the recents
  update.
- **A worked scenario** (`scenarios.dfy`, module `Scenarios`). Two packages
  plus a `node_modules` directory. The model computes the initial tree, then
  the tree after pinning one script and running another while a stale recent
  identifier is still stored.

Shared sequence helpers are in `seqs.dfy` (module `Seqs`): `Option`,
`NoDuplicates`, `IsSubsequence`, and `RemoveAll`, which models the
`filter(id => id !== x)` idiom.

The persisted global state is modelled as the two lists themselves, and each
command is a function from the old list to the new one. Reading and parsing
a manifest is folded into the scanned tree: every file carries the outcome of
reading it (`Unparsable`, `NoScripts`, or its `scripts` entries in object
order). The workspace folder is an `Option<string>`. The extension tests it for
truthiness (src/extension.ts:73, 324), so an empty path counts as no workspace (`HasWorkspace`). Paths
are the root and the segments below it, joined with `/`.

## Model

| member | source | states |
|---|---|---|
| ScriptIds.ScriptId | src/extension.ts:22 | The identifier is the path, then `::`, then the name, with exactly those lengths. |
| ScriptIds.SplitScriptId | src/extension.ts:22 | Splitting at the first `::` gives a pair whose identifier is the input and whose path is separator-free; `None` only when the input has no `::`. |
| ScriptIds.SplitJoinRoundTrip | src/extension.ts:22 | For a path with no `::` and no trailing `:`, splitting the identifier gives back exactly (path, name). |
| ScriptIds.ScriptIdInjective | src/extension.ts:146 | Two scripts in separator-free manifest paths share an identifier only if they have the same path and the same name. |
| ScriptIds.SamePathScriptIdInjective | src/extension.ts:146 | Within one manifest, distinct script names give distinct identifiers, whatever the path. |
| ScriptIds.TrailingColonCollides | src/extension.ts:22 | Without that condition the format is ambiguous: `a:` + `b` and `a` + `:b` give the same identifier. |
| Seqs.RemoveAll | src/extension.ts:306 | Filtering out one identifier leaves no copy of it, keeps every other element and its count, keeps relative order, and changes nothing when the identifier is absent. |
| Seqs.RemoveAllConcat | src/extension.ts:306 | Filtering distributes over concatenation. |
| Seqs.RemoveAllNoDuplicates | src/extension.ts:306 | Filtering keeps a duplicate-free list duplicate-free. |
| Store.AddFavourite | src/extension.ts:295-298 | After adding, the identifier is present. If it was present the list is unchanged; otherwise it is appended at the end with the old list kept as a prefix. The members are exactly the old ones plus the identifier. |
| Store.RemoveFavourite | src/extension.ts:305-307 | After removing, the identifier is absent, every other favourite stays in its relative order, and removing an absent identifier changes nothing. |
| Store.AddRemoveRoundTrip | src/extension.ts:295-307 | Removing a favourite that was just added (and was not there before) gives back the original list. |
| Store.FavouriteCommandsIdempotent | src/extension.ts:295-307 | Adding twice equals adding once; removing twice equals removing once. |
| Store.FavouritesStayDuplicateFree | src/extension.ts:295-307 | Both favourite commands keep a duplicate-free list duplicate-free. |
| Store.RecordExecution | src/extension.ts:336-340 | The new recents list has between 1 and 5 entries. The run identifier is first and occurs once. The remaining entries are the old list with that identifier removed, cut to fit. |
| Store.RecordExecutionIdempotent | src/extension.ts:336-340 | Running the same script twice in a row leaves the same recents as running it once. |
| Store.RecordExecutionKeepsOrder | src/extension.ts:337-339 | The entries behind the front one are a subsequence of the previous recents. |
| Store.RecordExecutionStaysDuplicateFree | src/extension.ts:336-340 | A duplicate-free recents list stays duplicate-free. |
| Store.RecordAll | src/extension.ts:336-340 | After a series of runs, the last script run is first and the list has at most 5 entries; no runs leave the list as it was. |
| Store.RerunMovesToFront | src/extension.ts:336-340 | Running `test`, `build`, then `test` again leaves the recents `[test, build]`. |
| Scanner.ScanNode | src/extension.ts:258-266 | Every manifest found below an entry lies below the entry's parent, has the entry's name as its next segment, ends in `package.json` and passes through no skipped directory. |
| Scanner.ScanEntries | src/extension.ts:257-266 | The same holds for every manifest found in a listing. |
| Scanner.Scan | src/extension.ts:252-273 | Every path the scan returns ends in `package.json` and contains no `node_modules` or `.git` segment. |
| Scanner.ScanNodeComplete | src/extension.ts:261-264 | A manifest is found below an entry exactly when a path of entered directories leads from that entry to a file named `package.json`. |
| Scanner.ScanEntriesComplete | src/extension.ts:258-266 | A manifest is found in a listing exactly when it is reachable from one of the listing's entries. |
| Scanner.ScanComplete | src/extension.ts:252-273 | The scan result holds exactly the manifests reachable from a readable root. |
| Scanner.ScanEntriesAppend | src/extension.ts:258-266 | Depth-first listing order: the manifests under earlier entries come before those under later ones. |
| Scanner.ScanDirAppend | src/extension.ts:261-262 | A directory entry contributes the walk of its own listing at its own position: the walk of a directory listing `a + b` is the walk of `a` followed by the walk of `b`. |
| Scanner.ScanEntriesOne | src/extension.ts:258-266 | A listing of one entry is walked as that entry. |
| Scanner.ScanEntriesHeads | src/extension.ts:259 | Every manifest found in a listing has one of the listing's entry names as its next path segment. |
| Scanner.ScanNoDuplicates | src/extension.ts:252-273 | When every directory lists distinct names, the scan returns each manifest once. |
| ScriptTree.PathOfIsRootAndRelative | src/extension.ts:168-169 | A heading's absolute path is the root, `/`, then the relative path shown as its label. |
| ScriptTree.ScriptsOf | src/extension.ts:145-154 | One script item per `scripts` entry, in entry order, with that name, command and path. Its identifier is the path-name identifier, and it is marked favourite exactly when that identifier is a favourite. |
| ScriptTree.ManifestIdsDistinct | src/extension.ts:145-146 | Distinct script names in one manifest give distinct identifiers. |
| ScriptTree.AllScripts | src/extension.ts:137-159 | Every script item is marked favourite exactly when its identifier is a favourite, and its path is the path of a scanned manifest. |
| ScriptTree.AllScriptsAppend | src/extension.ts:140-157 | The flat script list follows the scan order of the manifests. |
| ScriptTree.AllScriptsOne | src/extension.ts:140-157 | With one manifest scanned, the flat list is exactly that manifest's script items. Together with AllScriptsAppend this fixes the list for every scan. |
| ScriptTree.AllScriptsMembers | src/extension.ts:137-159 | A script item is in the flat list exactly when some scanned manifest declares it; nothing else is listed. |
| ScriptTree.FavouriteItems | src/extension.ts:117-121 | The Favourites section holds only scripts whose identifier is a favourite, each marked favourite. Every current script with a favourite identifier appears in it. |
| ScriptTree.FavouriteItemsInScanOrder | src/extension.ts:118-120 | For correctly tagged scripts, the section is a subsequence of the scripts in scan order and holds exactly the favourite ones. |
| ScriptTree.FindIndex | src/extension.ts:131 | Returns the first index holding the identifier, or `None` when no script has it. |
| ScriptTree.FindScript | src/extension.ts:131 | Returns the first script with the identifier, and `None` exactly when no script has it. |
| ScriptTree.RecentItems | src/extension.ts:123-135 | The Recents section follows the order of the recents list. It skips favourites and identifiers that name no current script, and keeps every other recent identifier that names a current script. |
| ScriptTree.RecentStepSound | src/extension.ts:128-134 | One step of the recents walk keeps only current, non-favourite scripts and keeps recents order. |
| ScriptTree.RecentStepComplete | src/extension.ts:128-134 | One step of the recents walk keeps every non-favourite recent identifier that names a current script. |
| ScriptTree.FileHeadings | src/extension.ts:163-172 | One heading per scanned manifest, in scan order. Each carries the relative path as its label and the absolute path. |
| ScriptTree.Section | src/extension.ts:81-89 | A non-empty section is its heading followed by its leaves; an empty section adds nothing. |
| ScriptTree.RootItems | src/extension.ts:79-91 | The root level is exactly the Favourites section (its heading and leaves) first, then the Recents section, then the manifest headings; the headings are its only file headings. |
| ScriptTree.Children | src/extension.ts:72-91 | With no workspace the root is empty. Otherwise it is the Favourites section built from the current scripts, then the Recents section, then one heading per scanned manifest in scan order. It shows a Favourites heading exactly when some current script is a favourite, and a Recents heading exactly when some non-favourite recent identifier names a current script. |
| ScriptTree.ItemChildren | src/extension.ts:92-99 | A manifest heading's children are one leaf per `scripts` entry of its file, with the path-name identifier and the favourite mark. Section headings, leaves, unparsable files and a missing workspace give none. |
| ScriptTree.HeadingChildren | src/extension.ts:177-199 | The children of the k-th root heading are the leaves of the script items its manifest contributes to the flat list. |
| ScriptTree.ManifestScriptsInAllScripts | src/extension.ts:137-159 | Every script item listed under a manifest heading is also in the flat list that the sections draw from. |
| ScriptTree.RootItemsSections | src/extension.ts:79-91 | The root level has each section heading exactly when that section is non-empty, and its file headings are exactly the manifest headings. |
| ScriptTree.FavouritesShown | src/extension.ts:80-84 | The Favourites section is non-empty exactly when some current script has a favourite identifier. |
| ScriptTree.RecentsShown | src/extension.ts:85-89 | The Recents section is non-empty exactly when some non-favourite recent identifier names a current script. |
| ScriptTree.SectionLabels | src/extension.ts:82 | A section's only heading is its own, at its front. |
| Executor.LastNameSplit | src/extension.ts:329 | Finds the last place below the bound where `:` and a white-space character leave a non-empty rest, or reports that there is none. |
| Executor.NameFromLabel | src/extension.ts:329-330 | With no colon-whitespace split the whole label is the name. Otherwise the name is the text after the last such split. In both cases it is a suffix of the label. |
| Executor.RunScriptAsWritten | src/extension.ts:323-342 | With no workspace nothing runs and nothing is recorded. Otherwise the name recovered from the label is launched and the item's identifier is recorded. |
| Executor.AsWrittenRunsWrongScript | src/extension.ts:329-334 | A script named `deploy: prod` is launched as `npm run prod`, not under its own name. |
| Executor.RunScript | src/extension.ts:323-342 | With no workspace nothing runs. Otherwise the item's own name is launched in a terminal named after it, and the recents are updated by the move-to-front rule. |
| Executor.RunScriptAgreesWithoutSplit | src/extension.ts:329-330 | For names with no colon followed by white space, the as-written and the corrected command behave the same. |
| Executor.RunScriptTwice | src/extension.ts:336-340 | Running the same script twice leaves the recents as running it once. |
| Scenarios.ScanSkipsDependencies | src/extension.ts:261 | Nothing below `node_modules` is found. |
| Scenarios.ScanFindsBothPackages | src/extension.ts:252-273 | The two-package workspace scans to its two manifests, in listing order. |
| Scenarios.InitialTree | src/extension.ts:72-91 | With nothing pinned or run, the root shows just the two manifest headings. |
| Scenarios.NoFavourites | src/extension.ts:117-121 | With no favourites the Favourites section is empty. |
| Scenarios.ScenarioFavourites | src/extension.ts:117-121 | Pinning `build` makes the Favourites section `build` alone. |
| Scenarios.ScenarioRecents | src/extension.ts:123-135 | A recent identifier whose manifest is gone is dropped silently, and `test` is kept. |
| Scenarios.FavouriteAndRecentTree | src/extension.ts:72-91 | After pinning `build` and running `test`, the root is: Favourites heading, `build`, Recents heading, `test`, then the two manifest headings. |

## Left out

- User-interface objects are not modelled: tree-item icons, tooltips, descriptions, context values, collapsible states, the click command, the change event and `refresh`, command and view registration, and the file-system watcher on `**/package.json` that triggers a refresh (src/extension.ts:344-353). They do not affect what the tree lists.
- The refresh command (src/extension.ts:316-318) only fires the change event. The model recomputes the tree from its inputs on every query, so there is nothing to refresh.
- The global-state store is modelled as the two lists. A missing key is the empty list. The write is not awaited by the extension (src/extension.ts:113-115); the model ignores timing.
- Asynchrony is not modelled. Each query is computed from one snapshot of the file system and the lists.
- Reading and JSON-parsing a manifest are not modelled as operations. Each file carries the outcome as a `Content` value. A falsy `scripts` value is `NoScripts`. A truthy non-object `scripts` value and non-string command values are not modelled; the model takes the entries as (name, command) string pairs.
- Path handling is simplified. Paths are the root and the segments below it, joined with `/`. Platform separators and the normalisation done by the path-join and path-relative calls are not modelled.
- Terminal creation and the shell are not modelled. The run command yields a `Launch` value: the terminal name and the line sent. Shell quoting of names that contain white space is not modelled; both versions send the name unquoted.
- Error messages, information messages and console logging on read and parse errors are not modelled. Only their effect is: nothing is shown or recorded.
- The older flat listing, `getPackageScripts` (src/extension.ts:204-247), is not modelled. No code path calls it.
- ScriptTree.ItemChildren takes what reading the heading's file yields now as a parameter. The extension reads the file again by path (src/extension.ts:177-199), so it can disagree with the scan if the file changed in between.
- Executor.NameFromLabel agrees with the pattern `.*:\s(.+)$` only for labels with no line terminator. With a line terminator, ECMAScript's `.` and `$` change which split is found; the model does not cover that case.

## Findings

| source | as written | input that shows it | evidently intended | confidence | as-written member | corrected member |
|---|---|---|---|---|---|---|
| src/extension.ts:329-330 | The script name is recovered from the item's label with `.*:\s(.+)$`. That pattern was written for an older `<folder>: <name>` label, but the label is now the bare script name. | A script named `deploy: prod` is launched as `npm run prod`, in a terminal `Run: prod`, while `deploy: prod` is recorded as run. | Run the item's own script name. | not executed; high that the name is changed, medium that the change is unintended | Executor.AsWrittenRunsWrongScript | Executor.RunScript |
