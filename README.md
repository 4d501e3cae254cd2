# Virtual file system of a browser code editor

This is a model of the file explorer of a single-page code editor. The
whole project is one flat map `fileTree` from a path string to the file's
content. A key ending in `/` is a folder placeholder holding `""`. A second
global, `activeFilePath`, names the selected entry.

The model has five modules:

- `Paths`: the JavaScript string operations the explorer relies on. These
  are `split`, `join`, `lastIndexOf`, `startsWith`, `endsWith`, the
  trailing-slash `replace` and ASCII `toLowerCase`. The module also has
  the path arithmetic of `addFile`, `addFolder` and `renameItem`.
- `FileTypes`: `getLanguage` and `getFileIcon`, which classify a file by
  its lower-cased text after the last `.`.
- `FileStore`: the class `Project`, whose fields are `fileTree` (a map)
  and `activeFilePath`. Its methods are `addFile`, `addFolder`,
  `deleteFile`, `deleteFolder`, `renameItem`, and the bookkeeping half of
  `loadFileContent`. The `forEach` loops of `deleteFolder` and
  `renameItem` are kept as loops that visit the keys in an unspecified
  order.
- `Explorer`: `buildTree`, written as nested loops that walk a current
  node down the tree. There are lemmas about the tree it builds. The
  module also has the ancestor walk (a `while` loop) that opens the folders
  above the selected entry.
- `Scenarios`: small concrete runs of the operations. They exhibit the
  behaviours the code has as written:
  - a file rename joins the parent to the new name without a `/`;
  - prefix tests are raw character tests, so renaming `a.js` also renames
    `a.js.bak`;
  - the rename conflict check only looks for the exact new key, so a
    folder rename can merge two keys into one.

The answers of the browser's `prompt` and `confirm` are parameters. A
cancelled prompt (`null`) and the empty string are both falsy in the
source, and both are modelled as `""`. The `alert` on a name clash is the
outcome `NameConflict`.

A JavaScript tree node is an object whose children sit under keys: the
child's name, followed by `/` for a folder. The model stores the whole tree
as one map. An *address* is the sequence of child keys that leads from the
root to a node. The map sends each address to the node's `type`, `name`
and `fullPath`. The `children` of a folder are the addresses one key
longer.

## Model

| member | source | states |
|---|---|---|
| Paths.StartsWith | script.js:391 | `startsWith` is a raw character prefix test: the prefix is no longer than the string and equals its first characters |
| Paths.IsFolder | script.js:406 | `endsWith("/")`: the path is non-empty and its last character is `/` |
| Paths.Join | script.js:209-210 | `join` puts the separator between consecutive parts; `Paths.Split` and `Paths.SplitJoin` show it is the inverse of `split` |
| Paths.LowerChar | script.js:153 | an ASCII capital becomes the lower-case letter at the same distance from `a`; every other character is unchanged |
| Paths.ToLower | script.js:153 | `toLowerCase` keeps the length and lower-cases every character on its own |
| Paths.LastIndexOf | script.js:285 | returns -1 or an index holding the character, and no later index holds it |
| Paths.Split | script.js:198 | `split` yields at least one part, no part contains the separator, and joining the parts gives the string back |
| Paths.SplitJoin | script.js:198 | splitting the join of separator-free parts gives the parts back |
| Paths.SplitLast | script.js:153 | the part `pop()` returns is the text after the last separator |
| Paths.SplitAtLast | script.js:405 | the split is the split of the text before the last separator, plus the text after it |
| Paths.NonEmpty | script.js:198 | `filter((p) => p.length > 0)` keeps exactly the non-empty parts |
| Paths.NonEmptyKeepsAll | script.js:198 | the filter removes nothing when no part is empty |
| Paths.NonEmptyAppend | script.js:198 | the filter distributes over concatenation |
| Paths.Segments | script.js:198 | the segments of a path are non-empty and contain no `/` |
| Paths.SegmentsOfWellFormed | script.js:198 | for a path with no empty segment, the segments joined by `/`, plus `/` for a folder, are the path |
| Paths.Extension | script.js:153 | the extension is the lower-cased text after the last `.` (the whole name when there is none) and contains no `.` |
| Paths.StripTrailingSlash | script.js:339 | `replace(/\/$/, "")` removes exactly one trailing `/` when present and otherwise changes nothing |
| Paths.ParentForNewFile | script.js:324-336 | the parent chosen from the selection is a prefix of it and is empty or a folder; a folder is its own parent; otherwise nothing after the parent contains `/` |
| Paths.NewFilePath | script.js:338-340 | the new key is the name at the root, `parent + name` for a folder parent, and `parent + "/" + name` otherwise |
| Paths.NewFolderPath | script.js:356-358 | the new folder key ends with `/` and is the new-file key of the same name plus `/` |
| Paths.NewFileParentRoundTrip | script.js:324-340 | a file created in a folder, once selected, picks that same folder as the parent for the next new file |
| Paths.RenameOldName | script.js:405-407 | the name the prompt offers is the last segment of a file path, or the segment before the trailing `/` of a folder |
| Paths.FolderSplit | script.js:405-406 | a folder path splits into the parts of its text before the `/`, plus one empty part |
| Paths.JoinInit | script.js:408-411 | the joined parts before the last are the text before the last separator, and empty when there is none |
| Paths.RenameParent | script.js:408-411 | `parentPath` ends with `/` for a nested folder, and is the text before the last `/` with no `/` for a file |
| Paths.FolderParent | script.js:408-411 | the folder branch of `parentPath` is the text up to and including the `/` before the folder's name |
| Paths.RenameTarget | script.js:406-417 | a folder is renamed to a folder path with its last segment replaced; a file's new path is the text before its last `/`, without that `/`, followed by the new name |
| FileTypes.GetLanguage | script.js:143-155 | the language is the mapped one for a known extension and "plaintext" exactly for an unknown one |
| FileTypes.LanguageFor | script.js:143-154 | the table lookup with the "plaintext" fallback, which no extension maps to |
| FileTypes.GetFileIcon | script.js:300-318 | the default icon is returned exactly for the extensions the switch does not list |
| FileTypes.IconFor | script.js:302-317 | `js`, `html`, `css`, `json`, `py` and `md` get the icons `ri-javascript-fill`, `ri-html5-fill`, `ri-css3-fill`, `ri-json-fill`, `ri-file-code-fill` and `ri-markdown-fill`; every other extension gets the default `ri-file-line` |
| FileTypes.IconMatchesLanguage | script.js:143-155 | a file gets the default icon exactly when it gets no language |
| FileTypes.ToLowerIdempotent | script.js:153 | lower-casing twice is lower-casing once |
| FileTypes.LastDotOfLower | script.js:153 | lower-casing does not move the last `.` |
| FileTypes.CaseInsensitive | script.js:153 | the extension, the language and the icon of a name equal those of its lower-cased form |
| FileTypes.ExtensionAfterLastDot | script.js:153 | whatever the stem, the extension is the lower-cased text after the final `.` |
| FileTypes.UpperCaseJs | script.js:153-154 | any name ending in `.JS` is JavaScript with the JavaScript icon |
| FileTypes.NoDotName | script.js:153 | a name without `.` is its own extension |
| FileStore.FileParent | script.js:323-337 | an explicit folder wins; otherwise the parent is a prefix of the selection that is empty or a folder: a selected folder itself, or else the selection up to its last `/`, so no `/` follows the parent |
| FileStore.AnyKeyStartsWith | script.js:359-361 | `some((key) => key.startsWith(fullPath))`: some key of the store has the path as a raw prefix |
| FileStore.RenameOutcome | script.js:413-422 | the rename is cancelled exactly when the new name is empty or equals the offered name; a conflict means the new path is another existing key; otherwise it goes ahead |
| FileStore.Moved | script.js:426-431 | a key that starts with the old path keeps its suffix under the new path; any other key stays |
| FileStore.Project.constructor | script.js:947-957 | the store and selection loaded at start-up are the given ones |
| FileStore.Project.Open | script.js:157-173 | an empty or folder path is always selected, a file path only when it is a key; the store is unchanged |
| FileStore.Project.AddFile | script.js:320-351 | an empty name cancels; an existing key is a conflict; otherwise exactly that key is added with `""` and selected; the store and selection are unchanged in the other cases |
| FileStore.Project.AddFolder | script.js:353-370 | an empty name cancels; any key starting with the folder path is a conflict; otherwise exactly the folder key is added with `""`; the selection never changes |
| FileStore.Project.DeleteFile | script.js:372-382 | once confirmed, only the key is removed, and the selection is cleared exactly when it was that key; declined, nothing changes |
| FileStore.Project.DeleteFolder | script.js:384-402 | once confirmed, no remaining key starts with the path, every other key keeps its content, and a selection inside the path is cleared |
| FileStore.Project.Rename | script.js:404-443 | the outcome is cancel (empty or unchanged name), conflict (the new path is another key) or applied; applied, every key is moved by prefix replacement with its content and the selection likewise; otherwise nothing changes |
| FileStore.Project.MoveEntries | script.js:424-438 | the store becomes the renamed store and the selection is moved by the same prefix replacement |
| FileStore.RenameKeys | script.js:424-432 | the loop's map holds exactly the moved keys, each entry holds the content of a key moved onto it, and a key nothing else is moved onto keeps its content |
| FileStore.RenameStep | script.js:425-431 | one iteration of the copy loop preserves that relation |
| FileStore.RenameKeepsSelection | script.js:434-438 | renaming a non-empty path keeps the selection pointing at a key, a folder path or nothing |
| FileStore.NoMerge | script.js:424-432 | when no two keys are moved onto the same key, the new store is exactly the old one with every key moved |
| FileStore.FreshTargetNoMerge | script.js:419-432 | no merge happens when no unmoved key starts with the new path, a condition the exact-key check does not ensure |
| FileStore.AddThenDeleteFile | script.js:320-382 | deleting the file just added restores the store and clears the selection |
| FileStore.AddThenDeleteFolder | script.js:353-402 | deleting the folder just added restores the store |
| Explorer.NodeKeys | script.js:198-203 | a path has one child key per segment |
| Explorer.KeysOf | script.js:202-203 | every segment but the last is keyed with `/`, and the last one too exactly when the path ends with `/` |
| Explorer.NodeFor | script.js:206-212 | a node's full path is its keys written out |
| Explorer.PathAddresses | script.js:201-218 | the nodes one path contributes are the non-empty prefixes of its keys |
| Explorer.Addresses | script.js:197-219 | every node the tree holds has a non-empty address |
| Explorer.JoinedSegments | script.js:209-210 | the stored `fullPath` of segment `i` is the joined segments up to it, plus `/` for a folder, which is its keys written out |
| Explorer.CreatedNode | script.js:202-212 | the node literal built for a segment is the node its address determines |
| Explorer.BuildTree | script.js:195-221 | the tree holds one node for each prefix of each path's keys, and each node has the type, name and full path its address determines |
| Explorer.AddPath | script.js:197-218 | one path adds exactly the prefixes of its keys, keeping every node consistent |
| Explorer.AddParts | script.js:199-218 | the walk down one path's segments adds its key prefixes and reuses existing nodes |
| Explorer.VisitPart | script.js:201-217 | a missing node is created, an existing one is reused unchanged, and the walk descends into folders |
| Explorer.MakeNode | script.js:206-212 | the object literal matches the node its address determines |
| Explorer.ParentIsFolder | script.js:215-216 | every node below the top level hangs under a node of the tree that is a folder |
| Explorer.InnerKeyIsFolder | script.js:202 | a segment that is not the last is a folder |
| Explorer.FileIsLeaf | script.js:211 | nothing lies below a file node |
| Explorer.PathOf | script.js:197 | every node comes from one of the listed paths |
| Explorer.AddressOfPath | script.js:197-218 | every prefix of the keys of a listed path is a node |
| Explorer.KeyIsShown | script.js:193-221 | every key with no empty segment has a node whose full path is that key, a folder exactly when the key ends with `/` |
| Explorer.WellFormedKeys | script.js:198-210 | the keys of a path with no empty segment, written out, are the path |
| Explorer.WholeKeys | script.js:202-210 | all the keys of a run of segments, written out, are the joined segments plus `/` for a folder |
| Explorer.OrderIrrelevant | script.js:193 | the nodes do not depend on the order of the key list, so the `sort()` only orders siblings |
| Explorer.JoinPrefix | script.js:210 | a shorter join, plus `/`, begins a longer one |
| Explorer.AncestorsShown | script.js:283-295 | every node on the way to a key is a folder whose full path is a `/`-ended prefix of the key |
| Explorer.JoinBeginsKey | script.js:198 | a path with no empty segment begins with its joined segments |
| Explorer.InnerKeysPrefix | script.js:209-210 | the full path of an inner node ends with `/` and begins the joined segments |
| Explorer.ExpandAncestors | script.js:283-295 | the walk collects `/`-ended prefixes of the active path, every one of them ending at one of its `/`, longest first |
| Scenarios.AddTwice | script.js:320-351 | adding `src/a.js` twice succeeds once and is refused the second time |
| Scenarios.RenameFolder | script.js:404-443 | renaming `src/` to `lib` moves both files with their contents, and the selection with them |
| Scenarios.SrcToLibMoved | script.js:424-432 | the renamed store of that run |
| Scenarios.DeleteActive | script.js:372-382 | deleting the selected file empties the store and the selection |
| Scenarios.MergingRename | script.js:419-432 | renaming `a/` to `b` while `b/x` exists goes ahead and leaves one key `b/x` holding one of the two contents |
| Scenarios.AToBMerged | script.js:424-432 | the merged store of that run |
| Scenarios.NestedFileRename | script.js:408-416 | renaming `src/a.js` to `b.js` yields the key `srcb.js`, and the selection follows |
| Scenarios.NestedTarget | script.js:405-419 | the new path of that rename is `srcb.js` and the rename goes ahead |
| Scenarios.NestedMoved | script.js:424-432 | the renamed store of that run |
| Scenarios.PrefixRename | script.js:426-431 | renaming the file `a.js` to `b.js` also renames `a.js.bak` to `b.js.bak` |
| Scenarios.PrefixMoved | script.js:424-432 | the renamed store of that run |
| Scenarios.TopFolderRename | script.js:405-419 | a top-level folder renamed to a new name that is not a key goes ahead, onto `newName/` |
| Scenarios.TopFileRename | script.js:405-419 | a top-level file renamed to a new name that is not a key goes ahead, onto that name |
| Scenarios.TopFolder | script.js:405-417 | the name offered for `name/` is `name`, and its rename target is `newName/` |
| Scenarios.TopFile | script.js:405-416 | the name offered for a top-level file is its name, and its rename target is the new name |
| Scenarios.RenamedTwo | script.js:424-432 | a store of two keys moved onto two different keys holds exactly those, with their contents |
| Scenarios.RenamedOne | script.js:424-432 | a store of one key holds exactly its moved key, with its content |
| Scenarios.NoSlash | script.js:285 | a name without `/` has no last `/` |

## Left out

- IndexedDB persistence (`saveToDB` and the start-up load) is asynchronous browser storage. The initial store is a constructor parameter.
- The Monaco editor is a foreign widget: loading content into it, setting its language, and writing edits back into `fileTree`. `loadFileContent` is modelled only for what it does to `activeFilePath` (`FileStore.Project.Open`).
- FileStore.Project.Open: the contract says the store is unchanged, but the editor's change listener writes `fileTree[activeFilePath]` (script.js:125-129). If the listener fires for the `setValue` calls in `loadFileContent` (script.js:159, 172), the store does change. In the file branch `setValue` runs before `activeFilePath` is updated (script.js:172-173), so the previously selected file would get the new file's text. In the folder branch, the placeholder text would be written under a selected folder key. The model leaves this out because it depends on when the widget fires its events.
- `renderTree`, the context menu and the highlighting of elements are DOM rendering. The ancestor walk is modelled as the list of folder paths it looks up, not as the elements it opens.
- Explorer.ExpandAncestors: the source walks only when `activeFilePath` is non-empty and its element is found (script.js:277-282). The model walks every time. For the empty path the walk finds nothing either, so the difference is only the DOM lookup, which is not modelled.
- FileStore.FileParent: `addFile` reads the selected entry from the DOM element marked active (script.js:325-327), and the model uses `activeFilePath` instead. The two differ when the selection is a folder: `loadFileContent` on a folder path removes every mark (script.js:165-167), and `addFile` and `renameItem` end by calling it. From the toolbar the source then finds no marked element and creates the file at the root, while the model creates it inside the selected folder. For example, adding `x/` at the root and then `a.js` gives `a.js` in the source and `x/a.js` in the model.
- The console, `runCode`, import/export of folders, and panel layout are UI and I/O.
- Sibling order: the model's tree is a map from addresses. Object key order, and the order `sort()` gives to siblings, are not modelled. `Explorer.OrderIrrelevant` shows the set of nodes does not depend on that order.
- Keys that collide with properties of `Object.prototype` are not modelled. For example, `languageMap["constructor"]` is truthy, and so is `currentNode["constructor"]` in `buildTree`. The model treats every lookup as an own-property lookup.
- `toLowerCase` is modelled on ASCII letters only. The six known extensions are ASCII, but the model does not cover non-ASCII case mappings.
- `FileStore.Project.Rename`: when several keys are moved onto one key, the contract does not say which content survives. That depends on the iteration order of `Object.keys`, which the model leaves unspecified.
- `FileStore.Project.Rename`: the selection is shown to stay valid only for a non-empty old path. The explorer offers renaming only for entries it shows, and their paths are never empty.
- `FileStore.Project.DeleteFolder`: the source deletes the collected keys one at a time. The model states the resulting store, not the order of deletion.
