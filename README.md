# XNote core, modelled in Dafny

XNote is a desktop Markdown notes application: a React front end over a Tauri
(Rust) backend. This project models, and proves properties of, the parts of
XNote that hold real logic:

- the in-memory mock file system the front end falls back on (a forest of file
  nodes plus a path-to-content table: create, delete, move, copy, line search);
- the Markdown preview transform (code placeholders, `<font>` to sanitised
  `<span>`, angle-bracket escaping, code restore);
- the Mermaid diagram helpers (leading `%%{init: …}%%` directives, key upsert,
  directive rebuilding, the 40-entry SVG cache, zoom clamping, the render
  sequence guard);
- the path helpers of the editor and `getDepthFromRootPath`, and the 32-bit
  FNV-1a `hashString`;
- the pure logic of the Rust backend: `trim_wrapping`,
  `extract_candidate_paths`, `normalize_ref_path`, the `CleanTaskController`
  job/cancel state machine, the unused-image scan, `delete_files`, the
  `get_files` listing and `sort_nodes`, `search_text` and `create_note`;
- the store: `sortFiles`, the rename target, config save and load, and which
  actions persist;
- shortcut strings: build, parse, format and match;
- the tree views: sidebar flattening, duplicate and rename naming, the folder
  depth guard, ancestor expansion, the dashboard listing and Back, the
  move-target filter, the card view's note collection;
- the search dialog: `escapeRegExp`, highlight segmentation, the active index;
- the LLM client: request dispatch, chat and image endpoint URLs, the image
  prompt, and the streaming accumulation;
- two small UI state machines: the terminal session list and the
  clean-unused-images progress bar.

Each file is one module (two for `mermaid.dfy` and `svgcache.dfy`); `common.dfy`
and `strings.dfy` hold shared generic lemmas and string helpers. Code that
changes state in the original (the mock adapter, the stores and dialogs, the
SVG cache, the clean task controller, the accumulating loops) is a class or a
method with a loop, proved against a specification function; pure code is
functions and lemmas. The file system, the clock, the network, UUIDs and the
backend's answers are parameters of the model.

## Model

| member | source | states |
|---|---|---|
| App.DeletedLog | src/App.tsx:118-125 | the log line starts `Clean: deleted ` and ends with ` / ` and the total |
| App.DeletedLogDistinct | src/App.tsx:118-125 | the deletion log line names both counts, so different outcomes give different lines |
| App.FillPercent | src/App.tsx:350-355 | the bar's fill lies in [0, 100] and is the share done, clamped at 0 and 100 |
| App.ResizedWidth | src/App.tsx:40-50 | the width changes only while resizing, only to a mouse position strictly between 160 and 600, and always takes such a position |
| App.WidthStaysInBounds | src/App.tsx:40-50 | a width inside the bounds stays inside them whatever the mouse does |
| App.InitWorkspace | src/App.tsx:160-194 | outside the host the mock workspace is loaded with no error; any failure loads the mock workspace; an empty default path in the host loads nothing |
| App.InitFallback | src/App.tsx:159-197 | the permission flag is raised exactly for a failure mentioning `PERMISSION_DENIED`; every failure is recorded and falls back to the mock workspace; nothing is loaded only for an empty default path |
| App.CleanBar.Status | src/App.tsx:349 | the bar shows the log line when there is one, else the progress message |
| App.CleanBar.constructor | src/App.tsx:15-21 | nothing on view and nothing running |
| App.CleanBar.StartScan | src/App.tsx:79-87 | the last results are cleared and a running bar shows `Starting…` |
| App.CleanBar.OnProgress | src/App.tsx:88-103 | a payload replaces the progress and shows the bar, which runs on unless the phase is final; no payload changes nothing |
| App.CleanBar.OnResult | src/App.tsx:104-113 | the images are stored; some open the dialog, none log `no unused images found` |
| App.CleanBar.OnLog | src/App.tsx:114-117 | a non-empty message replaces the log line |
| App.CleanBar.ConfirmDelete | src/App.tsx:316-322 | the bar runs at `Deleting…` over the images found; the list is cleared once the host accepts |
| App.CleanBar.OnDeleteResult | src/App.tsx:118-125 | the deletion is logged with both counts and the job stops with the bar on view |
| App.CleanBar.BarButton | src/App.tsx:362-377 | a running job logs `cancelling…`; otherwise the bar is dismissed and cleared |
| FileTree.NamesAppend | src/utils/fs-adapter.ts:253-258 | the names of two forests side by side are the names of the first followed by those of the second |
| FileTree.PathsAppend | src/utils/fs-adapter.ts:141-145 | the pre-order paths of two forests side by side are those of the first followed by those of the second |
| FileTree.Find | src/utils/fs-adapter.ts:226-235 | the pre-order search finds a node exactly when the path occurs in the tree, and what it finds has that path |
| FileTree.Detach | src/utils/fs-adapter.ts:158-180 | `findNode` plus `splice` succeeds exactly when the path occurs; the detached node has that path, and the paths lost are exactly its subtree's |
| FileTree.DetachTakesFound | src/utils/fs-adapter.ts:158-170 | the node a move detaches is the node the copy's search finds |
| FileTree.AppendUnderAddsPaths | src/utils/fs-adapter.ts:210-212 | pushing a node into a found folder's children adds exactly the node's paths and loses none |
| FileTree.AppendUnderFollowsFind | src/utils/fs-adapter.ts:210-216 | the node is placed exactly when the search finds the folder with a child list, and reported not found exactly when the search fails |
| FileTree.Insert | src-tauri/src/lib.rs:248-256 | inserting into a level-sorted list keeps it sorted (folders first, then names) and adds exactly the one node |
| FileTree.SortLevel | src-tauri/src/lib.rs:248-256 | `sort_nodes` orders one level (folders first, then names ascending) and is a permutation |
| FileTree.PreorderPaths | src/components/CardView.tsx:17-25 | the flattened list of nodes carries exactly the pre-order list of paths |
| PathUtil.NormalizePath | src/utils/path.ts:1 | the result is a prefix of the input without a trailing `/`, and only `/` characters were removed |
| PathUtil.DepthFromRoot | src/utils/path.ts:3-13 | `null` exactly when the root's segments are not a prefix of the target's; otherwise the non-negative difference of segment counts |
| PathUtil.DepthOfRootIsZero | src/utils/path.ts:3-13 | a root lies at depth 0 below itself |
| PathUtil.RepeatedSlashIgnored | src/utils/path.ts:6-7 | a doubled `/` adds no segment once empty segments are filtered |
| PathUtil.TrailingSlashesIgnored | src/utils/path.ts:1-7 | stripping trailing slashes before splitting changes no segment |
| PathUtil.DepthIgnoresTrailingSlash | src/utils/path.ts:4-5 | a trailing `/` on either argument leaves the depth unchanged |
| PathUtil.SlashSegments | src/utils/path.ts:1-7 | one more `/` at the end leaves the segments unchanged |
| PathUtil.DepthOfChild | src/utils/path.ts:3-13 | a child one segment below a folder lies one level deeper |
| MermaidDirective.LeadSpec | src/components/MermaidDiagram.tsx:277-278 | the leading-white-space length covers only white space and stops at the first other character |
| MermaidDirective.LeadIs | src/components/MermaidDiagram.tsx:277-278 | any length that covers white space and stops at a non-space character is the leading length |
| MermaidDirective.LeadAtLeast | src/components/MermaidDiagram.tsx:277-278 | text starting with `k` white-space characters has at least `k` of them leading |
| MermaidDirective.LeadPrefix | src/components/MermaidDiagram.tsx:277-278 | leading white space stays leading whatever follows it |
| MermaidDirective.DirectiveEnd | src/components/MermaidDiagram.tsx:278-281 | a closer position exists exactly when the text after its leading white space starts with `%%{init:` and `}%%` occurs after it; the closer lies past the opener |
| MermaidDirective.Stripped | src/components/MermaidDiagram.tsx:274-284 | the stripped text never starts with a complete directive |
| MermaidDirective.StrippedKeeps | src/components/MermaidDiagram.tsx:274-284 | stripping keeps the leading white space, never lengthens the text, and what follows the result's leading white space is a suffix of the input |
| MermaidDirective.StripOnce | src/components/MermaidDiagram.tsx:280-282 | cutting one directive shortens the text, keeps its lead and strips to the same result |
| MermaidDirective.CutKeeps | src/components/MermaidDiagram.tsx:282 | a cut keeps everything before the directive and the tail after its closer |
| MermaidDirective.StripLeadingInitDirectives | src/components/MermaidDiagram.tsx:274-284 | the loop returns the stripped text |
| MermaidDirective.SpellingLen | src/components/MermaidDiagram.tsx:288 | a key spelling `"key"`, `'key'` or `key` found is non-empty and inside the text |
| MermaidDirective.ValueRun | src/components/MermaidDiagram.tsx:288 | the `[^,}]` run never passes the end of the text |
| MermaidDirective.EntryAt | src/components/MermaidDiagram.tsx:288 | an entry match has a non-empty key spelling followed by a non-empty value within the text |
| MermaidDirective.MatchAt | src/components/MermaidDiagram.tsx:288-289 | a match at `i` starts at `i` and has a key end strictly before its value end |
| MermaidDirective.EntryHit | src/components/MermaidDiagram.tsx:288-289 | an entry after the anchor group is a well-ordered match starting at `i` |
| MermaidDirective.MatchAtParts | src/components/MermaidDiagram.tsx:288-289 | a match is an anchor, its leading white space, and an entry |
| MermaidDirective.MatchAtFrom | src/components/MermaidDiagram.tsx:288-289 | an anchor, white space and an entry make a match (converse of MatchAtParts) |
| MermaidDirective.FindEntry | src/components/MermaidDiagram.tsx:291-292 | the search result lies at or after the start position |
| MermaidDirective.FindEntryHit | src/components/MermaidDiagram.tsx:291-292 | what the search returns is a match at its position |
| MermaidDirective.FindEntryFinds | src/components/MermaidDiagram.tsx:291-292 | a match anywhere after the start is never missed |
| MermaidDirective.SpellingPrefix | src/components/MermaidDiagram.tsx:288 | the key spelling depends only on the characters it spans |
| MermaidDirective.EntryAfterColon | src/components/MermaidDiagram.tsx:293 | a key spelling followed by `: ` is an entry |
| MermaidDirective.QuotedEntry | src/components/MermaidDiagram.tsx:300 | the inserted `"key": value` is itself an entry for the key |
| MermaidDirective.ReplaceKeepsMatch | src/components/MermaidDiagram.tsx:293 | after the value is replaced the pattern still matches at the same place |
| MermaidDirective.ReplaceKeepsParts | src/components/MermaidDiagram.tsx:293 | the replacement keeps the anchor, the white space and the key spelling, and an entry follows |
| MermaidDirective.SpellingStartsSolid | src/components/MermaidDiagram.tsx:288 | a key spelling never starts with white space |
| MermaidDirective.InsertMakesEntry | src/components/MermaidDiagram.tsx:296-303 | inserting into a brace-wrapped text leaves an entry the first pattern finds |
| MermaidDirective.EmptyGetsEntry | src/components/MermaidDiagram.tsx:299-301 | an entry inserted into an empty object is found |
| MermaidDirective.OtherGetsEntry | src/components/MermaidDiagram.tsx:300-301 | an entry inserted after `, ` is found |
| MermaidDirective.InsertIntoEmpty | src/components/MermaidDiagram.tsx:298-301 | in an empty object the white space after `{` runs up to the inserted quote |
| MermaidDirective.InsertAfterEntries | src/components/MermaidDiagram.tsx:300-301 | after existing entries one space leads from the comma to the quote |
| MermaidDirective.SpellingContainsKey | src/components/MermaidDiagram.tsx:288 | every key spelling contains the key, bare or after a quote |
| MermaidDirective.MatchHasKey | src/components/MermaidDiagram.tsx:288-289 | a match implies the key occurs in the text |
| MermaidDirective.AbsentNotFound | src/components/MermaidDiagram.tsx:291-295 | neither pattern finds a key that does not occur |
| MermaidDirective.UpsertAbsent | src/components/MermaidDiagram.tsx:286-304 | an absent key takes the insertion branch |
| MermaidDirective.UpsertNewKey | src/components/MermaidDiagram.tsx:296-303 | an absent key goes before the final brace of a `{…}` text, after `, ` unless the object is empty |
| MermaidDirective.InsertIntoTrimmed | src/components/MermaidDiagram.tsx:296-303 | the insertion branch on a trimmed `{…}` text puts the piece before the final brace |
| MermaidDirective.UpsertPresent | src/components/MermaidDiagram.tsx:286-304 | after an upsert the key is present exactly when it was or the trimmed text is brace-wrapped; otherwise the text is unchanged |
| MermaidInit.InitConfig | src/components/MermaidDiagram.tsx:307-308 | the starting configuration is never empty |
| MermaidInit.StringValued | src/components/MermaidDiagram.tsx:309-310 | the overrides kept all have string values and come from the input |
| MermaidInit.SkipsNonStrings | src/components/MermaidDiagram.tsx:309-312 | overrides whose value is not a string change nothing |
| MermaidInit.Directive | src/components/MermaidDiagram.tsx:306-314 | a built directive opens with `%%{init: ` and closes with `}%%` |
| MermaidInit.BuildInitDirective | src/components/MermaidDiagram.tsx:306-314 | the loop returns `%%{init: …}%%` around the configuration with every string override upserted in order |
| MermaidInit.DisplayConfigFromEmpty | src/components/MermaidDiagram.tsx:88-94 | from an empty configuration the display overrides give exactly `{"look": "handDrawn", "handDrawnSeed": 1}` |
| MermaidInit.LookIntoEmpty | src/components/MermaidDiagram.tsx:91 | `look` goes into the empty object |
| MermaidInit.SeedAfterLook | src/components/MermaidDiagram.tsx:92 | `handDrawnSeed` goes after the `look` entry |
| MermaidRewrite.NormalizeCode | src/components/MermaidDiagram.tsx:51 | one final line feed is dropped and nothing else changes |
| MermaidRewrite.BuildCodeWithInitOverrides | src/components/MermaidDiagram.tsx:316-329 | the result is the rewrite: a fresh directive before the unchanged source, or the existing directive rebuilt from its configuration (slice corrected to end before `}%%`) |
| MermaidRewrite.ReplaceDirective | src/components/MermaidDiagram.tsx:327-329 | with a complete leading directive, the lead is kept, the directive is rebuilt and the rest loses leading directives and white space |
| MermaidRewrite.RewriteWithoutDirective | src/components/MermaidDiagram.tsx:318-325 | without a complete leading directive the result is a directive from `{}`, a line feed and the source unchanged, for either slice |
| MermaidRewrite.CodeForRenderFresh | src/components/MermaidDiagram.tsx:96-105 | a source without a directive gets exactly `{"look": "handDrawn", "handDrawnSeed": 1}` before it |
| MermaidRewrite.CodeForRender | src/components/MermaidDiagram.tsx:52-110 | the code handed to the renderer always opens with a complete directive (built with the corrected slice) |
| MermaidRewrite.Rewrite | src/components/MermaidDiagram.tsx:316-329 | the corrected rewrite always opens, after white space, with a complete directive |
| MermaidRewrite.RewriteAsWritten | src/components/MermaidDiagram.tsx:316-329 | the rewrite as written, with the slice keeping `}`, also always opens with a complete directive |
| MermaidRewrite.SpacedEmptyConfigs | src/components/MermaidDiagram.tsx:307 | ` {}` trims to `{}` and ` {}}` reads as `{}}` |
| MermaidRewrite.RewriteHasDirective | src/components/MermaidDiagram.tsx:316-329 | every rewrite opens, after white space, with a complete directive |
| MermaidRewrite.RewriteSome | src/components/MermaidDiagram.tsx:327-329 | the shape of the rewrite of a text whose directive closes at `end` |
| MermaidRewrite.FollowedByDirective | src/components/MermaidDiagram.tsx:313 | white space, a built directive and a line feed make a text that starts with a complete directive |
| MermaidRewrite.DirectiveOpensText | src/components/MermaidDiagram.tsx:278-281 | a text that starts with white space and a directive is recognised as directive-led |
| MermaidRewrite.DirectiveAfterConfig | src/components/MermaidDiagram.tsx:322 | for `%%{init: cfg}%%` with no `}%%` in `cfg`, the closer is found right after `cfg` |
| MermaidRewrite.TrimAfterSpace | src/components/MermaidDiagram.tsx:307 | trimming ` cfg` gives back `cfg` |
| MermaidRewrite.ConfigPieces | src/components/MermaidDiagram.tsx:322-328 | the pieces the rewrite cuts from `%%{init: cfg}%%` + rest: both slices and the rest |
| MermaidRewrite.AsWrittenKeepsCloser | src/components/MermaidDiagram.tsx:327 | as written, the configuration read back is `cfg` followed by the directive's own `}` |
| MermaidRewrite.ConfigRoundTrip | src/components/MermaidDiagram.tsx:327 | with the slice ending before `}%%`, the configuration read back is `cfg` itself and the new directive is built from it |
| MermaidRewrite.ConfigDirective | src/components/MermaidDiagram.tsx:307-313 | the directive built depends only on the trimmed configuration |
| MermaidRewrite.EmptyDirectiveReread | src/components/MermaidDiagram.tsx:107 | rereading `%%{init: {}}%%`: as written the display overrides yield the malformed `{}, "look": …}`; corrected they yield the two entries |
| MermaidRewrite.EmptyDirectiveConfigs | src/components/MermaidDiagram.tsx:107 | the two configuration texts read from `%%{init: {}}%%`: `{}` corrected, `{}}` as written |
| MermaidRewrite.DisplayConfigAfterCloser | src/components/MermaidDiagram.tsx:88-94 | the display overrides applied to `{}}` give `{}, "look": "handDrawn", "handDrawnSeed": 1}` |
| MermaidRewrite.LookBeforeCloser | src/components/MermaidDiagram.tsx:91 | `look` upserted into `{}}` goes after `, ` before the last brace |
| MermaidRewrite.SeedBeforeCloser | src/components/MermaidDiagram.tsx:92 | `handDrawnSeed` upserted next goes after the `look` entry |
| MermaidView.ClampScale | src/components/MermaidDiagram.tsx:130 | the scale lies in [0.5, 3]; a scale inside is kept, one below or above goes to the nearer bound |
| MermaidView.ClampScaleIdempotent | src/components/MermaidDiagram.tsx:130 | clamping twice is clamping once |
| MermaidView.ClampScaleMonotone | src/components/MermaidDiagram.tsx:130 | clamping keeps the order of scales |
| MermaidView.DiagramState.constructor | src/components/MermaidDiagram.tsx:29-41 | the first picture is the cached one for the key, or empty; no error, no run, scale 1 and no translation |
| MermaidView.DiagramState.AdoptCached | src/components/MermaidDiagram.tsx:112-118 | a non-empty cached picture is shown unless one already is, and marks the diagram rendered; otherwise nothing changes |
| MermaidView.DiagramState.StartRender | src/components/MermaidDiagram.tsx:565-569 | the new run takes the next number, the previous run is cancelled, and rendering starts |
| MermaidView.DiagramState.Unmount | src/components/MermaidDiagram.tsx:596-599 | the cleanup cancels the latest run |
| MermaidView.DiagramState.Complete | src/components/MermaidDiagram.tsx:578-592 | a cancelled run changes nothing; a live success shows and caches the picture and resets the view; a live failure records the error and keeps the last picture |
| MermaidView.DiagramState.ShowPicture | src/components/MermaidDiagram.tsx:581-586 | the picture is shown, cached under the key with eviction, the error cleared and the view reset |
| MermaidView.DiagramState.ResetView | src/components/MermaidDiagram.tsx:155-158 | scale 1 and no translation; nothing else changes |
| MermaidView.DiagramState.ZoomAt | src/components/MermaidDiagram.tsx:132-153 | the scale becomes the clamped value; with the viewport mounted, the diagram point under the cursor stays put |
| MermaidView.LiveRunIsLatest | src/components/MermaidDiagram.tsx:566-568 | a run that is not cancelled is the latest one |
| MermaidView.AnchorKept | src/components/MermaidDiagram.tsx:147-151 | the translation formula keeps the anchored diagram coordinate |
| MermaidView.LiveSuccessShown | src/components/MermaidDiagram.tsx:673-698 | after a live success the diagram shows without the rendering badge or error banner |
| MermaidView.NothingRenderedShown | src/components/MermaidDiagram.tsx:650-671 | before any picture, an error shows the error card and otherwise the placeholder shows |
| PositionSort.Insert | src/components/MermaidDiagram.tsx:21 | inserting a position keeps the positions in range and adds exactly that one |
| PositionSort.InsertSorted | src/components/MermaidDiagram.tsx:21 | inserting a new position into a time-sorted order keeps it sorted |
| PositionSort.SortPositions | src/components/MermaidDiagram.tsx:21 | the sort yields `n` positions, all in range |
| PositionSort.SortPositionsHas | src/components/MermaidDiagram.tsx:21 | the sorted order holds exactly the positions below `n` |
| PositionSort.SortPositionsSpec | src/components/MermaidDiagram.tsx:21 | the stable sort by time is sorted and a permutation of the positions |
| PositionSort.SortPositionsSorted | src/components/MermaidDiagram.tsx:21 | the sort is ordered by time, equal times in map order |
| PositionSort.SortedDistinct | src/components/MermaidDiagram.tsx:21 | a sorted order names each position once |
| SvgCache.IndexOfKey | src/components/MermaidDiagram.tsx:16 | the index found holds the key, and -1 means no entry has it |
| SvgCache.Lookup | src/components/MermaidDiagram.tsx:29 | a picture is found exactly when the key is in the map, and it is that entry's picture |
| SvgCache.MapSet | src/components/MermaidDiagram.tsx:19 | the new entry is in the map, every other entry is kept, nothing else is added, and keys stay distinct |
| SvgCache.MapDelete | src/components/MermaidDiagram.tsx:23 | what remains were entries and none has the deleted key |
| SvgCache.EvictsOldestFirst | src/components/MermaidDiagram.tsx:20-24 | every evicted entry is older than every kept one, or as old and earlier in the map |
| SvgCache.EvictBound | src/components/MermaidDiagram.tsx:20-24 | after eviction at most 40 entries remain, exactly 40 when there were more |
| SvgCache.EvictKeepsEntries | src/components/MermaidDiagram.tsx:20-24 | the kept entries are unchanged entries of the map |
| SvgCache.Cache.constructor | src/components/MermaidDiagram.tsx:16 | the cache starts empty |
| SvgCache.Cache.Save | src/components/MermaidDiagram.tsx:18-25 | the entry is set and the oldest evicted, leaving at most 40 entries |
| SvgCache.EvictOldest | src/components/MermaidDiagram.tsx:21-24 | the deletion loop over the sorted entries computes the eviction |
| SvgCache.EvictStep | src/components/MermaidDiagram.tsx:22-23 | one round of the loop deletes the next position of the sorted order |
| SvgCache.KeepNone | src/components/MermaidDiagram.tsx:20 | with nothing to evict the map is unchanged |
| SvgCache.KeepDistinct | src/components/MermaidDiagram.tsx:23 | deleting keeps keys distinct |
| MockFs.Without | src/utils/fs-adapter.ts:150 | dropping a key from the key order keeps exactly the other keys and keeps them distinct |
| MockFs.ContentTable.Set | src/utils/fs-adapter.ts:69 | `MOCK_CONTENT[path] = v` maps the key to the value, keeps the key order when the key existed, and keeps the table well formed |
| MockFs.ContentTable.Delete | src/utils/fs-adapter.ts:150 | `delete MOCK_CONTENT[path]` removes exactly that key and keeps the table well formed |
| MockFs.IndexOfPath | src/utils/fs-adapter.ts:136 | `findIndex` returns the first position at this level whose path matches, or the length when there is none |
| MockFs.LineHitsSound | src/utils/fs-adapter.ts:293-300 | every hit from the first `n` lines carries the entry's path and name, a 1-based line number within range, that line as preview, and the line matches |
| MockFs.TableHitsSound | src/utils/fs-adapter.ts:290-304 | every hit gathered over the first `k` keys belongs to a `.md`/`.txt` entry and names a matching line of it |
| MockFs.SearchResultSound | src/utils/fs-adapter.ts:285-306 | a blank query finds nothing, at most 50 hits come back, and each hit is a line that contains the lower-cased trimmed query |
| MockFs.RemovePathSpec | src/utils/fs-adapter.ts:135-147 | `removeNode` succeeds exactly when the path is in the tree; it takes out a node with that path and the paths lost are exactly that node's subtree |
| MockFs.RemoveInChildrenSpec | src/utils/fs-adapter.ts:141-146 | the recursive descent of `removeNode` below a level without a match: same guarantee as `RemovePathSpec` |
| MockFs.AddTopLevelAddsPaths | src/utils/fs-adapter.ts:88-98 | placing a new node by the `parentPath === '/mock'` rule, the one-level `find`, or the root fallback loses no path and adds exactly the node's paths |
| MockFs.PlaceAddsPaths | src/utils/fs-adapter.ts:207-217 | placing a node under the target folder (found at any depth) or at the root loses no path and adds exactly the node's paths |
| MockFs.RelocateSpec | src/utils/fs-adapter.ts:183-197 | `updatePath` pairs every old path of the subtree, in pre-order, with its new path; names are kept; every new path is the target or lies below it |
| MockFs.RelocateAllSpec | src/utils/fs-adapter.ts:190-195 | the same for the children re-rooted under a new parent path: each new path lies below `parent/` |
| MockFs.ClonePathsAsRelocate | src/utils/fs-adapter.ts:241-260 | a deep copy puts its nodes exactly at the paths a move to the same target would use |
| MockFs.CloneAllPathsAsRelocate | src/utils/fs-adapter.ts:253-258 | the same for a list of children |
| MockFs.CloneNamedAfterPath | src/utils/fs-adapter.ts:242-247 | every node of a copy is named after the last segment of its new path, or `copy` |
| MockFs.CloneAllNamedAfterPath | src/utils/fs-adapter.ts:254-257 | the same for a list of children |
| MockFs.MoveContentEffect | src/utils/fs-adapter.ts:186-189 | with distinct old and new paths, moving content carries each defined old entry to its new path, leaves no old path defined, and touches no other key |
| MockFs.CopyContentEffect | src/utils/fs-adapter.ts:249-251 | with distinct new paths that are not old paths, copying gives each new path its source's entry and keeps every existing entry |
| MockFs.MoveOntoItselfDropsContent | src/utils/fs-adapter.ts:186-189 | moving a note onto its own path writes the entry and then deletes it, so its content is gone |
| MockFs.MoveContentValid | src/utils/fs-adapter.ts:183-196 | the content moves keep the table well formed |
| MockFs.CopyContentValid | src/utils/fs-adapter.ts:241-260 | the content copies keep the table well formed |
| MockFs.LastSegmentOr | src/utils/fs-adapter.ts:76 | `path.split('/').pop() \|\| fallback` is the fallback or a non-empty last segment without `/` that ends the path |
| MockFs.InitialContent | src/utils/fs-adapter.ts:50-54 | the three mock notes form a well-formed table |
| MockFs.MoveKeepsCount | src/utils/fs-adapter.ts:172-217 | a successful move keeps the number of nodes and the target path is in the tree afterwards |
| MockFs.CopyAddsCount | src/utils/fs-adapter.ts:237-275 | a copy keeps every old path, adds as many nodes as the source subtree has, and the target path is in the tree |
| MockFs.TableHitsStep | src/utils/fs-adapter.ts:290-291 | one more key adds that entry's hits when it is a `.md`/`.txt` entry, and nothing otherwise |
| MockFs.EarlyStop | src/utils/fs-adapter.ts:301 | the hits gathered when the search returns early are a prefix of the full hit list |
| MockFs.ScanLines | src/utils/fs-adapter.ts:292-303 | the inner loop appends the entry's hits in line order and stops exactly when 50 hits are held |
| MockFs.CappedPrefix | src/utils/fs-adapter.ts:301 | stopping at 50 hits returns exactly the first 50 hits of the full list |
| MockFs.ScanTable | src/utils/fs-adapter.ts:289-305 | the outer loop returns the full hit list cut at 50 |
| MockFs.MockAdapter.constructor | src/utils/fs-adapter.ts:16-54 | the adapter starts with the mock tree and the mock contents |
| MockFs.MockAdapter.ReadDir | src/utils/fs-adapter.ts:57-60 | `readDir` returns the whole tree whatever the path |
| MockFs.MockAdapter.ReadFile | src/utils/fs-adapter.ts:62-65 | `readFile` returns the stored text, or '' when there is none |
| MockFs.MockAdapter.WriteFile | src/utils/fs-adapter.ts:67-71 | `writeFile` sets the content and leaves the tree alone |
| MockFs.MockAdapter.CreateDir | src/utils/fs-adapter.ts:73-100 | `createDir` adds one empty folder named after the last segment (or `New Folder`) by the placement rule; contents unchanged; returns the path |
| MockFs.MockAdapter.CreateFile | src/utils/fs-adapter.ts:102-129 | `createFile` adds one note named after the last segment (or `New Note.md`) by the placement rule and sets its content to '' |
| MockFs.MockAdapter.DeleteFile | src/utils/fs-adapter.ts:131-152 | `deleteFile` removes the first node with the path, subtree included, deletes only that path's content, and changes no tree when the path is absent |
| MockFs.MockAdapter.MoveFile | src/utils/fs-adapter.ts:154-220 | `moveFile` rejects a missing source with `Source not found`; otherwise it detaches the node, re-roots it at the target with its content, places it, and keeps the node count |
| MockFs.MockAdapter.CopyFile | src/utils/fs-adapter.ts:222-278 | `copyFile` rejects a missing source; otherwise it places a renamed deep copy with copied content, keeping every old path |
| MockFs.MockAdapter.SaveImage | src/utils/fs-adapter.ts:280-283 | the mock `saveImage` always names `mock_image.png` |
| MockFs.MockAdapter.SearchText | src/utils/fs-adapter.ts:285-306 | `searchText` returns exactly the specified hit list, whose soundness and cap `SearchResultSound` states |
| EditorPaths.Utf16Append | src/components/Editor.tsx:26-27 | the UTF-16 code units of joined text are those of each part in turn |
| EditorPaths.FnvFromAppend | src/components/Editor.tsx:25-29 | hashing joined code units continues the hash of the first part over the second |
| EditorPaths.FnvConcat | src/components/Editor.tsx:24-31 | the hash of joined text continues the hash of its first part |
| EditorPaths.ToHex | src/components/Editor.tsx:30 | `toString(16)` gives at least one hexadecimal digit and nothing else |
| EditorPaths.HexRoundTrip | src/components/Editor.tsx:30 | reading the hexadecimal string back gives the number |
| EditorPaths.HexNoLeadingZero | src/components/Editor.tsx:30 | the string starts with `0` exactly for zero |
| EditorPaths.HexLength | src/components/Editor.tsx:30 | a number below 16^k needs at most k digits |
| EditorPaths.HashString | src/components/Editor.tsx:24-31 | the loop (xor each code unit, multiply by 16777619 modulo 2^32, from 2166136261) returns the unsigned hash in 1 to 8 hexadecimal digits that read back as the hash |
| EditorPaths.EmptyHash | src/components/Editor.tsx:24-31 | the empty text hashes to `811c9dc5` |
| EditorPaths.SplitSeps | src/components/Editor.tsx:146 | splitting on `/` and `\` leaves pieces without separators |
| EditorPaths.PathParts | src/components/Editor.tsx:146 | `getPathParts` yields non-empty pieces without separators |
| EditorPaths.SplitSepsConcat | src/components/Editor.tsx:146 | splitting at a separator splits each side separately |
| EditorPaths.PartsOfJoin | src/components/Editor.tsx:146-153 | splitting the `/`-join of plain pieces gives the pieces back |
| EditorPaths.PartsAfterSlash | src/components/Editor.tsx:146 | a leading `/` adds no piece |
| EditorPaths.JoinedPartsNotRooted | src/components/Editor.tsx:151-153 | a join of pieces never starts with `/` |
| EditorPaths.Dirname | src/components/Editor.tsx:148-154 | `getDirname` is rooted exactly when its argument is |
| EditorPaths.Basename | src/components/Editor.tsx:156-159 | `getBasename` is empty exactly when the path has no piece, and holds no separator |
| EditorPaths.DirnameBasename | src/components/Editor.tsx:148-159 | the folder's pieces followed by the base name are the path's pieces |
| EditorPaths.NormalizeJoin | src/components/Editor.tsx:161-175 | the loop over the relative pieces (skip `.`, pop on `..`, push otherwise) builds the specified path, rooted exactly when the base is |
| EditorPaths.ResolveKeepsParts | src/components/Editor.tsx:165-173 | resolving keeps every piece non-empty and separator-free, and never lets `.` or `..` in |
| EditorPaths.JoinedPathRooting | src/components/Editor.tsx:162-174 | the joined path is rooted exactly when the base is |
| EditorPaths.JoinedPathSegments | src/components/Editor.tsx:161-175 | the joined path's pieces are the base's pieces resolved against the relative ones |
| EditorPaths.ResolveAppend | src/components/Editor.tsx:166-173 | resolving two runs of pieces is resolving one after the other |
| EditorPaths.ParentUndoesChild | src/components/Editor.tsx:168-170 | `..` undoes one plain piece, and does nothing at the top |
| EditorPaths.StripExtension | src/components/Editor.tsx:179 | `replace(/\.[^/.]+$/, '')` keeps a prefix, removing at most the last `.` and a non-empty tail without `.` |
| EditorPaths.AssetStem | src/components/Editor.tsx:178-179 | the stem is never empty: the base name without its extension, or `note` |
| EditorPaths.MarkdownAssetDirSpec | src/components/Editor.tsx:177-183 | the relative folder is `/.xnote_assets/` and the stem; the absolute folder is the workspace followed by it |
| EditorPaths.MimeOfLower | src/components/Editor.tsx:185-194 | the type is not `application/octet-stream` exactly when the lower-cased path ends with a known image extension |
| EditorPaths.MimeIgnoresCase | src/components/Editor.tsx:186 | upper-casing the path does not change the type |
| EditorPaths.DropSlashes | src/components/Editor.tsx:219 | removing a leading run leaves a suffix without a leading `/` |
| EditorPaths.ImageAbsPath | src/components/Editor.tsx:211-221 | no file path for an empty or remote source or without a note; an asset path is joined to the workspace (none without one); an absolute path is kept |
| EditorPaths.RelativeImageRooting | src/components/Editor.tsx:218-220 | a relative source is resolved against the note's folder, rooted exactly when the note's path is |
| EditorPaths.PastedImageResolves | src/components/Editor.tsx:109-125 | the link a pasted image inserts resolves back to the file the image was saved to |
| EditorPaths.NotRemote | src/components/Editor.tsx:203 | a source starting with `/` is never taken for a remote one |
| EditorPaths.DiagramKeysDistinct | src/components/Editor.tsx:284-285 | two diagrams of one render get different keys, whatever their code |
| EditorPaths.BlockCounter.constructor | src/components/Editor.tsx:41 | the counter starts at 0 |
| EditorPaths.BlockCounter.Reset | src/components/Editor.tsx:453 | each render resets the counter to 0 |
| EditorPaths.BlockCounter.KeyFor | src/components/Editor.tsx:283-285 | each diagram takes the next index, and its key is the file, the index and the hash of its code |
| Markdown.EscapeAngleBrackets | src/utils/markdownExtensions.ts:1 | no `<` or `>` is left, and the double quotes are kept, as many as before |
| Markdown.EscapeAppend | src/utils/markdownExtensions.ts:1 | escaping joined text escapes each part |
| Markdown.EscapeIdentity | src/utils/markdownExtensions.ts:1 | text without angle brackets is unchanged |
| Markdown.StripQuotes | src/utils/markdownExtensions.ts:3-9 | the result is made of the input's characters; an unquoted trimmed value is returned as trimmed |
| Markdown.StripQuotesOfQuoted | src/utils/markdownExtensions.ts:5-6 | a value wrapped in a matching pair of `"` or `'` loses exactly the pair |
| Markdown.SkipSpaces | src/utils/markdownExtensions.ts:12 | `\s*` stops at the first non-space |
| Markdown.ClosingQuote | src/utils/markdownExtensions.ts:12 | the lazy `".*?"` ends at the first matching quote, with no line terminator before it |
| Markdown.BareEnd | src/utils/markdownExtensions.ts:12 | `[^\s>]+` stops at the first space or `>` |
| Markdown.ValueEnd | src/utils/markdownExtensions.ts:12 | a value found is non-empty |
| Markdown.PickAttrAbsent | src/utils/markdownExtensions.ts:11-15 | `pickAttr` returns `null` exactly when the pattern matches at no position |
| Markdown.PickAttrLeftmost | src/utils/markdownExtensions.ts:11-15 | a value returned comes from the leftmost position where the pattern matches, with its quotes stripped |
| Markdown.PickAttrFirst | src/utils/markdownExtensions.ts:11-15 | conversely, the leftmost match decides the value |
| Markdown.PickAttrOfQuoted | src/utils/markdownExtensions.ts:11-15 | `name="v"` gives `v` |
| Markdown.AttrAtOfQuoted | src/utils/markdownExtensions.ts:12 | at the start of `name="v"` the pattern captures `"v"` |
| Markdown.ClosingQuoteOfPlain | src/utils/markdownExtensions.ts:12 | after a quote-free value the closing quote is the next character |
| Markdown.PickAttrMatchesInsideWords | src/utils/markdownExtensions.ts:12 | the pattern has no word boundary: `bgcolor=red` yields `red` for `color` |
| Markdown.DigitsEnd | src/utils/markdownExtensions.ts:21-22 | `\d` runs stop at the first non-digit |
| Markdown.Component | src/utils/markdownExtensions.ts:21-22 | one `\s*\d{1,3}\s*` component covers only digits and spaces |
| Markdown.Components | src/utils/markdownExtensions.ts:21-22 | comma-separated components cover only digits, spaces and commas |
| Markdown.SanitizeColor | src/utils/markdownExtensions.ts:17-24 | an accepted colour is the trimmed, non-empty input made only of letters, digits, `#`, `(`, `)`, `,`, `.` and spaces |
| Markdown.RgbChars | src/utils/markdownExtensions.ts:21-22 | an `rgb(…)`/`rgba(…)` value is made of those characters only |
| Markdown.ScriptIsNotAColor | src/utils/markdownExtensions.ts:17-24 | `javascript:alert(1)` is refused |
| Markdown.ParseIntOfNatToString | src/utils/markdownExtensions.ts:27 | `parseInt` reads back a written number |
| Markdown.HtmlSizePx | src/utils/markdownExtensions.ts:28-29 | sizes 1 to 7 map to 10, 13, 16, 18, 24, 32, 48 px and nothing else maps |
| Markdown.FontSizeFromHtml | src/utils/markdownExtensions.ts:26-30 | a size is given exactly for a leading integer from 1 to 7, and is one of the seven pixel sizes |
| Markdown.FontSizeOfNumber | src/utils/markdownExtensions.ts:26-30 | a written number maps as the table says |
| Markdown.DropUnsafe | src/utils/markdownExtensions.ts:33 | no `<`, `>`, `"` or `'` is left |
| Markdown.SanitizeFontFamily | src/utils/markdownExtensions.ts:32-37 | `null` exactly when nothing is left after dropping those characters and trimming; otherwise 1 to 100 safe characters from the start of what is left |
| Markdown.BuildFontSpan | src/utils/markdownExtensions.ts:39-55 | a built span opens with `<span` and closes with `</span>` |
| Markdown.FontSpanCounts | src/utils/markdownExtensions.ts:39-55 | a font span starts with `<span`, ends with `</span>`, has exactly two `<` and two `>`, and adds two quotes exactly when it has a style |
| Markdown.SpanCounts | src/utils/markdownExtensions.ts:54 | the span's shell adds two `<`, two `>` and no quote |
| Markdown.JoinSafe | src/utils/markdownExtensions.ts:53 | joining safe declarations with `;` is safe |
| Markdown.StyleAttrSafe | src/utils/markdownExtensions.ts:48-53 | the style attribute has no angle bracket, and two quotes exactly when there is a declaration |
| Markdown.StylePartsSafe | src/utils/markdownExtensions.ts:48-51 | each declaration built from sanitized values is safe |
| Markdown.QuotedStyleCounts | src/utils/markdownExtensions.ts:53 | ` style="…"` around safe declarations has no angle bracket and exactly two quotes |
| Markdown.CodeRunEnd | src/utils/markdownExtensions.ts:68 | an inline code run stops at a backtick or a line break |
| Markdown.TagRunEnd | src/utils/markdownExtensions.ts:78 | `[^>]*` stops at the first `>` |
| Markdown.MatchLen | src/utils/markdownExtensions.ts:63-92 | a match found by any of the five patterns is non-empty and fits in the text |
| Markdown.Scan | src/utils/markdownExtensions.ts:63-92 | a global replace splits the text into plain and matched chunks, ending with a plain one |
| Markdown.ScanFlatten | src/utils/markdownExtensions.ts:63-92 | the chunks put back together give the text |
| Markdown.ChunksFlatten | src/utils/markdownExtensions.ts:63-92 | the same from the start of the text |
| Markdown.Tokenize | src/utils/markdownExtensions.ts:63-72 | replacing matches only appends to the side table |
| Markdown.MatchStartsWithLead | src/utils/markdownExtensions.ts:63-92 | every pattern's match starts with its leading character |
| Markdown.ScanWithoutLead | src/utils/markdownExtensions.ts:63-92 | text without the leading character is one plain chunk |
| Markdown.ChunksWithoutLead | src/utils/markdownExtensions.ts:63-92 | the same from the start of the text |
| Markdown.ScanPassesOver | src/utils/markdownExtensions.ts:63-92 | text without the leading character is carried over into the next plain chunk |
| Markdown.ChunkCharsFromText | src/utils/markdownExtensions.ts:63-92 | every character of a chunk comes from the text |
| Markdown.RefIndexOfPlaceholder | src/utils/markdownExtensions.ts:92 | the index read from `@@XNOTE_CODE_n@@` is `n` |
| Markdown.RefLenOfPlaceholder | src/utils/markdownExtensions.ts:92 | the placeholder matches exactly its own length |
| Markdown.RestoredPlaceholder | src/utils/markdownExtensions.ts:92-95 | a placeholder is replaced by its token, or by '' when there is none |
| Markdown.RestoreScanPending | src/utils/markdownExtensions.ts:92-95 | restoring plain text before a placeholder keeps it as it is |
| Markdown.RestoredPlain | src/utils/markdownExtensions.ts:92-95 | text without `@` is kept as it is |
| Markdown.TokenizeThenRestore | src/utils/markdownExtensions.ts:62-95 | for text without `@`, restoring the code placeholders gives back the chunks |
| Markdown.CodeRoundTrip | src/utils/markdownExtensions.ts:62-95 | each code pass followed by the restore pass gives back text without `@` unchanged |
| Markdown.TagSafeAppend | src/utils/markdownExtensions.ts:84-90 | joining two texts whose tags are only spans keeps that property |
| Markdown.TagSafeWithoutAngle | src/utils/markdownExtensions.ts:84 | text without `<` has no tag |
| Markdown.FontSpanTagSafe | src/utils/markdownExtensions.ts:39-55 | a font span introduces no tag other than the span itself |
| Markdown.RenderFontSafe | src/utils/markdownExtensions.ts:86-90 | replacing one font placeholder yields only span tags and balanced brackets |
| Markdown.RenderFontsSafe | src/utils/markdownExtensions.ts:86-90 | replacing every font placeholder yields only span tags and balanced brackets |
| Markdown.RenderedIsTagSafe | src/utils/markdownExtensions.ts:74-90 | whatever the note, before code is restored the preview holds no tag but `<span>` and as many `<` as `>` |
| Markdown.PrepareMarkdownForPreview | src/utils/markdownExtensions.ts:57-96 | a note without backticks, angle brackets or `@` is previewed unchanged |
| Markdown.PlainTextUnchanged | src/utils/markdownExtensions.ts:57-96 | such a note passes each step unchanged: nothing is hidden as code, no span or escape is added, nothing is restored |
| Store.SortEachKidsSorted | src/store/index.ts:158-163 | after the `map` step every child list below the top level is sorted |
| Store.SortFiles | src/store/index.ts:152-164 | the top level comes out sorted, folders first then by name, with as many nodes as went in |
| Store.SortFilesSorted | src/store/index.ts:152-164 | `sortFiles` leaves every level of the tree sorted: folders first, then names ascending |
| Store.InsertSplits | src/store/index.ts:153-157 | inserting into a sorted level puts the node at one position and shifts nothing else |
| Store.InsertPaths | src/store/index.ts:153-157 | inserting a node adds exactly its subtree's paths |
| Store.SortLevelPaths | src/store/index.ts:153-157 | sorting one level keeps exactly the same paths, with their counts |
| Store.SortEachPaths | src/store/index.ts:158-163 | sorting below each node keeps exactly the same paths |
| Store.SortFilesPaths | src/store/index.ts:152-164 | `sortFiles` keeps exactly the tree's paths, with their counts |
| Store.SortFilesKeeps | src/store/index.ts:152-164 | `sortFiles` keeps the number of nodes and loses no path |
| Store.InsertHeads | src/store/index.ts:153-157 | inserting a node adds exactly its own name, path and kind at that level |
| Store.SortEachHeads | src/store/index.ts:158-163 | sorting below each node leaves the top level's names, paths and kinds in place |
| Store.SortLevelHeads | src/store/index.ts:153-157 | sorting a level is a permutation of its nodes' names, paths and kinds |
| Store.SortFilesSameLevel | src/store/index.ts:152-164 | the top level after `sortFiles` holds the same nodes, only reordered |
| Store.RenameTarget | src/store/index.ts:217-218 | the new path ends with `/` and the new name |
| Store.RenameKeepsParent | src/store/index.ts:217-218 | renaming keeps the item in its folder |
| Store.LastSlashAt | src/store/index.ts:217 | the last `/` of `dir/name` is the one after `dir` when the name holds none |
| Store.RenameTwice | src/store/index.ts:217-218 | renaming twice is renaming once to the second name |
| Store.ConfigOf | src/store/index.ts:127-140 | the saved configuration always has a `shortcuts` object and never writes the legacy `close` key |
| Store.LoadAfterSave | src/store/index.ts:104-140 | loading what was saved restores every setting |
| Store.LoadEmpty | src/store/index.ts:111-117 | an empty configuration loads the defaults: 256, `split`, `Cmd+G`, `Cmd+W`, `zinc` |
| Store.LoadFieldwise | src/store/index.ts:111-117 | each field is taken from the configuration when present and defaulted otherwise |
| Store.LegacyClose | src/store/index.ts:116 | `closeEditor` takes precedence over the legacy `close` key |
| Store.AppStore.constructor | src/store/index.ts:60-72 | the store starts empty with the default settings |
| Store.AppStore.SaveConfig | src/store/index.ts:127-146 | inside the host the configuration file becomes the current settings; nothing else changes |
| Store.AppStore.LoadConfig | src/store/index.ts:104-125 | inside the host a readable configuration replaces the settings and applies the theme; otherwise nothing changes |
| Store.AppStore.SetEditorMode | src/store/index.ts:77-80 | sets the mode and saves |
| Store.AppStore.SetSidebarWidth | src/store/index.ts:83-86 | sets the width and saves |
| Store.AppStore.SetSearchShortcut | src/store/index.ts:88-91 | sets the shortcut and saves |
| Store.AppStore.SetCloseEditorShortcut | src/store/index.ts:92-95 | sets the shortcut and saves |
| Store.AppStore.SetTheme | src/store/index.ts:96-100 | sets and applies the theme and saves |
| Store.AppStore.SetViewMode | src/store/index.ts:81 | sets the view mode only |
| Store.AppStore.SetViewPath | src/store/index.ts:82 | sets the folder on view only |
| Store.AppStore.SetSelectedFile | src/store/index.ts:76 | sets the selection only |
| Store.AppStore.SetSearchJump | src/store/index.ts:87 | sets the pending jump only |
| Store.AppStore.PushNotice | src/store/index.ts:101 | replaces the notice, stamped with the given time |
| Store.AppStore.ClearNotice | src/store/index.ts:102 | removes the notice |
| Store.AppStore.LoadFiles | src/store/index.ts:148-192 | the mock tree (for `/mock` or outside the host) or the host's listing becomes the sorted file list and the current path; a failed listing changes nothing |
| Store.AppStore.MoveFile | src/store/index.ts:194-211 | in mock mode the move succeeds exactly when the source exists, and the reloaded tree is sorted, holds the target and as many nodes as before; otherwise the host decides |
| Store.AppStore.RenameFile | src/store/index.ts:213-234 | a rename is a move to the same folder under the new name; in mock mode it succeeds exactly when the path exists |
| Store.AppStore.DeleteFile | src/store/index.ts:236-254 | in mock mode the delete always succeeds, removes the path's content and loses no other path's count; otherwise the host decides |
| Store.AppStore.CopyFile | src/store/index.ts:256-273 | in mock mode the copy succeeds exactly when the source exists and keeps every old path; otherwise the host decides |
| Sidebar.FlattenFiles | src/components/Sidebar.tsx:211-220 | at least one row per node, none above the starting level |
| Sidebar.NestedHead | src/components/Sidebar.tsx:214-216 | a row followed by rows one level deeper keeps the list properly nested |
| Sidebar.NestedConcat | src/components/Sidebar.tsx:213-218 | two properly nested lists side by side stay nested |
| Sidebar.FlattenNested | src/components/Sidebar.tsx:211-220 | the flat list never jumps more than one level deeper from one row to the next, and starts at the given level |
| Sidebar.FlattenCollapsed | src/components/Sidebar.tsx:211-220 | with no folder open the rows are exactly the nodes, in order, at the given level |
| Sidebar.FlattenAllOpen | src/components/Sidebar.tsx:211-220 | with every folder open the rows carry exactly the tree's pre-order paths |
| Sidebar.FlattenFromTree | src/components/Sidebar.tsx:211-220 | every row shows a node of the tree |
| Sidebar.DuplicateName | src/components/Sidebar.tsx:324-335 | a name without `.` becomes `name_copy` |
| Sidebar.DuplicateAtLastDot | src/components/Sidebar.tsx:324-335 | `_copy` goes before the last extension, or at the end when the name ends with `.` |
| Sidebar.DuplicateNameLonger | src/components/Sidebar.tsx:324-335 | the duplicate's name is always longer than the original's |
| Sidebar.Duplicate | src/components/Sidebar.tsx:317-342 | only notes are duplicated |
| Sidebar.DuplicateBeside | src/components/Sidebar.tsx:336-342 | the copy goes to the note's own folder under the new name, never onto the note itself |
| Sidebar.RenameOntoItself | src/components/Sidebar.tsx:375-384 | typing the note's name without `.md` passes the equality check and renames the note to its own name |
| Sidebar.RenameOntoItselfErasesNote | src/components/Sidebar.tsx:375-387 | in the mock workspace that rename moves the note onto its own path, which deletes its content |
| Sidebar.RenameName | src/components/Sidebar.tsx:373-384 | a blank input or the current name submits nothing; a submitted name is non-empty and starts with the trimmed input, is exactly it for a folder, and ends with `.md` for a note |
| Sidebar.RenameNameChecked | src/components/Sidebar.tsx:375-384 | the corrected rename compares after adding `.md`: a name it accepts is non-empty, differs from the current one and ends with `.md` for a note |
| Sidebar.RenameCheckedAgrees | src/components/Sidebar.tsx:375-384 | the corrected rename agrees with the written one except that it refuses the rename onto the same name |
| Sidebar.FolderLevels | src/components/Sidebar.tsx:255-274 | a folder may be created at the root and one level below, not two levels below, and anywhere outside the workspace |
| Sidebar.Ancestors | src/components/Sidebar.tsx:169-174 | one key per segment |
| Sidebar.TrimLeadingSlashes | src/components/Sidebar.tsx:166 | `replace(/^\/+/, '')` leaves no leading `/` |
| Sidebar.AllTrueSnoc | src/components/Sidebar.tsx:171-174 | one more key marks one more folder open |
| Sidebar.SyncExpanded | src/components/Sidebar.tsx:157-177 | the effect adds exactly the computed keys, all open, to the expansion map |
| Sidebar.AncestorsAt | src/components/Sidebar.tsx:169-174 | the `k`-th key is the root followed by the first `k + 1` segments |
| Sidebar.AccPrefix | src/components/Sidebar.tsx:172 | each accumulated key is a prefix of every later one |
| Sidebar.AccJoin | src/components/Sidebar.tsx:169-173 | the accumulated key is the root, `/`, and the segments joined by `/` |
| Sidebar.RevealRel | src/components/Sidebar.tsx:158-175 | for a view path inside the root, the keys opened are the ancestors along the relative path |
| Sidebar.JoinedParts | src/components/Sidebar.tsx:168 | splitting a `/`-joined list of plain segments gives the segments back |
| Sidebar.AncestorsJoined | src/components/Sidebar.tsx:169-174 | every key opened is a prefix of the full path |
| Sidebar.RevealOpensChain | src/components/Sidebar.tsx:157-177 | navigating to a folder opens every folder on the way to it, ending with the folder itself |
| Sidebar.RevealOutside | src/components/Sidebar.tsx:162-164 | a view path outside the root opens only itself |
| Sidebar.OnKeyDown | src/components/Sidebar.tsx:131-148 | only a selected note is closed, showing the folder that closing computes; search opens only when the close shortcut does not match |
| Sidebar.CloseViewPath | src/components/Sidebar.tsx:135-139 | the folder shown is a non-empty prefix of the note's path or the workspace; nothing is shown only without a workspace and without a separator past the first character |
| Sidebar.CloseFirst | src/components/Sidebar.tsx:131-148 | the close shortcut takes precedence over search, and does nothing without a selected note |
| Sidebar.CloseShowsFolder | src/components/Sidebar.tsx:133-141 | closing a note shows its folder in the card view |
| Shortcuts.NormalizeMainKey | src/components/Sidebar.tsx:96-102 | `normalizeMainKey`: empty stays empty; one character is upper-cased; an `Arrow…` key loses the `Arrow` prefix; any other name gets its first letter upper-cased |
| Shortcuts.NormalizeIdempotent | src/components/SettingsModal.tsx:18-24 | for the key names a browser reports, normalizing twice gives what normalizing once gives, so a recorded shortcut matches its own key |
| Shortcuts.NormalizeNotIdempotentInGeneral | src/components/SettingsModal.tsx:18-24 | for an arbitrary string it is not: `Arrowup` normalizes to `up` and then to `Up` |
| Shortcuts.Symbol | src/components/SettingsModal.tsx:8-13 | a non-empty part never shows as nothing |
| Shortcuts.ModifierNames | src/components/SettingsModal.tsx:8-12 | `Cmd`, `Ctrl`, `Alt`, `Shift` are recognised ignoring case and shown as ⌘ ⌃ ⌥ ⇧ |
| Shortcuts.FormatShortcutSymbols | src/components/Sidebar.tsx:82-94 | the loop builds exactly the symbol string of the non-empty `+`-separated parts |
| Shortcuts.ParseShortcut | src/components/Sidebar.tsx:104-114 | the loop builds exactly the modifier set and the last non-modifier part, normalized |
| Shortcuts.MatchesIff | src/components/Sidebar.tsx:118-129 | an event matches exactly when the shortcut has a main key equal to the event's, at least one modifier, and every modifier it names is held |
| Shortcuts.ExtraModifiersAllowed | src/components/Sidebar.tsx:122-127 | holding more modifiers than the shortcut names still matches |
| Shortcuts.BuildShortcut | src/components/SettingsModal.tsx:26-35 | nothing is recorded exactly when the key is empty or is itself a modifier key |
| Shortcuts.BuiltParts | src/components/SettingsModal.tsx:26-35 | a recorded shortcut splits back into the held modifiers in the order Cmd, Ctrl, Alt, Shift, then the key |
| Shortcuts.ModsOfHeld | src/components/SettingsModal.tsx:27-31 | the modifier names recorded parse back to the set of modifiers held |
| Shortcuts.ParseBuilt | src/components/SettingsModal.tsx:26-35 | parsing a recorded shortcut gives the held modifiers and the key normalized once more |
| Shortcuts.RecordedMatches | src/components/SettingsModal.tsx:26-35 | pressing the same keys again matches the shortcut just recorded |
| Shortcuts.MatchesHeld | src/components/Sidebar.tsx:118-129 | a shortcut whose modifiers are exactly those held and whose key is the event's matches |
| Shortcuts.PlusKeyLost | src/components/SettingsModal.tsx:26-35 | Cmd and `+` records `Cmd++`, whose `+` key disappears in the split, so it matches no event |
| Shortcuts.FormatBuilt | src/components/SettingsModal.tsx:71-74 | a recorded shortcut is shown as the symbols of the held modifiers followed by the key |
| Shortcuts.ModSymbols | src/components/SettingsModal.tsx:27-31 | the held modifiers show as ⌘ ⌃ ⌥ ⇧ in that order |
| Shortcuts.SaveChoice | src/components/SettingsModal.tsx:200 | the saved values are never empty |
| Shortcuts.SaveChoiceDefaults | src/components/SettingsModal.tsx:200 | an empty field saves `Cmd+G`, `Cmd+W` or `zinc`; a non-empty shortcut is saved as it is |
| Shortcuts.SettingsForm.constructor | src/components/SettingsModal.tsx:53-57 | the form starts with the search shortcut or `Cmd+G`, `Cmd+W` for close, no recording, and the theme or `zinc` |
| Shortcuts.SettingsForm.Open | src/components/SettingsModal.tsx:61-69 | opening reloads the three values with their defaults and stops recording |
| Shortcuts.SettingsForm.StartRecording | src/components/SettingsModal.tsx:139-140 | focusing the search field starts recording it |
| Shortcuts.SettingsForm.StartRecordingClose | src/components/SettingsModal.tsx:158-159 | focusing the close field starts recording it |
| Shortcuts.SettingsForm.KeyDown | src/components/SettingsModal.tsx:81-105 | a key press while recording stores the built shortcut and stops recording, unless nothing could be built; the theme is untouched |
| Shortcuts.SettingsForm.ChooseTheme | src/components/SettingsModal.tsx:177 | choosing a theme changes only the theme |
| CardView.NotesOfAppend | src/components/CardView.tsx:18-21 | the notes of two lists side by side are the notes of each, in order |
| CardView.TraverseStep | src/components/CardView.tsx:18-25 | one more top-level node adds its own note (if it is one) and then the notes below it |
| CardView.Traverse | src/components/CardView.tsx:17-26 | the recursive `traverse` appends every note of the forest to `notes`, in pre-order |
| CardView.CollectNotes | src/components/CardView.tsx:15-29 | `allNotes` is exactly the pre-order list of the tree's notes |
| CardView.NotesOfIff | src/components/CardView.tsx:19-21 | a node is kept exactly when it is listed and is not a folder |
| CardView.AllNotesExactly | src/components/CardView.tsx:15-29 | the cards are exactly the notes anywhere in the tree, and each card's path is a path of the tree |
| CardView.NoteChildrenFollow | src/components/CardView.tsx:19-24 | a note is listed before whatever is below it and before its later siblings |
| CardView.OpenNote | src/components/CardView.tsx:31-34 | clicking a card selects that note and switches to the tree view, changing nothing else |
| Dashboard.FirstWithPath | src/components/Dashboard.tsx:48-57 | the first node of a list with the path, and none exactly when no node has it |
| Dashboard.FirstWithPathAppend | src/components/Dashboard.tsx:49-56 | searching two lists side by side finds the first list's match before the second's |
| Dashboard.FindNodeByPathIsFirst | src/components/Dashboard.tsx:48-57 | `findNodeByPath` returns the first node with the path in pre-order |
| Dashboard.DisplayFiles | src/components/Dashboard.tsx:44-61 | the welcome screen shows exactly without a workspace; below the root the tiles are none or the children of a node with the viewed path |
| Dashboard.DisplayCases | src/components/Dashboard.tsx:44-61 | the welcome screen shows exactly when there is no workspace; the workspace root shows every top-level node; a folder not in the tree shows nothing |
| Dashboard.DisplayFirstMatch | src/components/Dashboard.tsx:59-61 | a folder on view shows the children of the first node with its path |
| Dashboard.BackTarget | src/components/Dashboard.tsx:81-85 | Back goes to a prefix of the viewed path other than the workspace, or to the workspace when the viewed path starts with it |
| Dashboard.BackToParent | src/components/Dashboard.tsx:81-85 | `Back` goes to the parent folder, or to the workspace root when the parent is the root |
| Dashboard.BackUndoesOpen | src/components/Dashboard.tsx:63-85 | after opening a child folder, `Back` shows what the parent showed |
| Dashboard.Navigate | src/components/Dashboard.tsx:63-69 | a folder tile sets the folder on view; a note tile selects the note; nothing else changes |
| MoveToModal.FolderTreeRows | src/components/MoveToModal.tsx:25-61 | every row drawn is a folder of the tree at the given level or deeper, and is disabled exactly when its path starts with the source's path |
| MoveToModal.Folders | src/components/MoveToModal.tsx:26 | `nodes.filter(n => n.is_dir)` keeps exactly the folders |
| MoveToModal.FolderTreeCollapsed | src/components/MoveToModal.tsx:25-57 | with nothing expanded the rows are exactly the top-level folders, in order, at level 0 |
| MoveToModal.RefusedTargets | src/components/MoveToModal.tsx:28-30 | the source itself and everything below it are disabled |
| MoveToModal.SiblingRefused | src/components/MoveToModal.tsx:28 | the string-prefix test also disables a sibling whose name extends the source's (`/a/bc` for `/a/b`) |
| MoveToModal.Click | src/components/MoveToModal.tsx:41 | clicking a disabled row keeps the selection; clicking any other row selects its path |
| MoveToModal.ClickRoot | src/components/MoveToModal.tsx:77 | clicking the root row selects the workspace root |
| MoveToModal.MoveTarget | src/components/MoveToModal.tsx:96-97 | `Move` fires exactly when a non-empty target is selected, and with that target |
| MoveToModal.NeverMovesIntoRefused | src/components/MoveToModal.tsx:16-97 | starting with no selection or one the source does not refuse, whatever folder rows are clicked, the move target never starts with the source's path |
| MoveToModal.StaleSelectionMoves | src/components/MoveToModal.tsx:16-19 | the selection kept from moving `/x` (the folder `/a/b`) is handed on by Move when the dialog next opens for `/a`, which refuses it |
| MoveToModal.Reopen | src/components/MoveToModal.tsx:16 | the corrected opening starts with no selection |
| MoveToModal.ReopenedNeverMovesIntoRefused | src/components/MoveToModal.tsx:16-97 | with the selection cleared on opening, whatever was chosen before and whatever rows are clicked, Move never hands on a refused folder |
| MoveToModal.ClickAllSafe | src/components/MoveToModal.tsx:41 | a safe selection stays safe through any run of folder-row clicks |
| SearchModal.EscapeRegExp | src/components/SearchModal.tsx:13 | the escaped text is never shorter and holds the query's characters plus a backslash exactly when the query has a special character |
| SearchModal.EscapeRegExpLiteral | src/components/SearchModal.tsx:13 | the escaped query, read back as a regular-expression literal, is the query itself: the search matches the text typed and nothing else |
| SearchModal.EscapeRegExpOne | src/components/SearchModal.tsx:13 | each of `.*+?^${}()\|[]\` gets one backslash in front; any other character is kept as it is |
| SearchModal.SameIgnoringCaseLower | src/components/SearchModal.tsx:19 | the `i` flag compares two strings equal exactly when their lower-cased forms are equal |
| SearchModal.NextMatch | src/components/SearchModal.tsx:19-22 | a match found is at or after the starting point, fits in the text and matches ignoring case |
| SearchModal.NextMatchFirst | src/components/SearchModal.tsx:22 | `matchAll` finds the leftmost match: no position between the start and the match found (or the end) matches |
| SearchModal.Finder | src/components/SearchModal.tsx:19-22 | the global regular expression, as a function from a start position to the next match, only ever returns in-range matches |
| SearchModal.SegmentsAt | src/components/SearchModal.tsx:22-29 | at a match, the parts are the plain text before it, the marked match, then the parts after it |
| SearchModal.CutTexts | src/components/SearchModal.tsx:20-30 | whatever matches are found, the parts put back together give the text from the start point on |
| SearchModal.SegmentsTexts | src/components/SearchModal.tsx:20-30 | the highlighted parts put back together give the whole text: nothing is lost or repeated |
| SearchModal.PlacedMatch | src/components/SearchModal.tsx:27-28 | a marked part at a match followed by well-placed parts is well placed |
| SearchModal.PlacedPlain | src/components/SearchModal.tsx:24-26 | a non-empty unmarked stretch holding no match, followed by well-placed parts, is well placed |
| SearchModal.FinderFirst | src/components/SearchModal.tsx:19-22 | the finder always returns the leftmost match from its start point |
| SearchModal.PlacedTail | src/components/SearchModal.tsx:30 | the tail after the last match, when non-empty, is one unmarked part holding no match |
| SearchModal.CutPlaced | src/components/SearchModal.tsx:20-30 | with a leftmost finder the parts mark exactly the successive leftmost matches and nothing in between |
| SearchModal.SegmentsPlaced | src/components/SearchModal.tsx:20-30 | the highlighted parts mark exactly the successive leftmost matches |
| SearchModal.SegmentsPieces | src/components/SearchModal.tsx:24-30 | every marked part equals the query ignoring case, and no unmarked part is empty |
| SearchModal.BlankQueryPlain | src/components/SearchModal.tsx:16-17 | a blank query shows the text as one unmarked part |
| SearchModal.CutStep | src/components/SearchModal.tsx:22-29 | one turn of the loop over matches adds the plain text and the match and moves past the match |
| SearchModal.CutAtMatches | src/components/SearchModal.tsx:20-30 | the loop over the matches builds exactly the specified list of parts |
| SearchModal.HighlightParts | src/components/SearchModal.tsx:15-30 | `HighlightText` builds exactly the specified parts, whose properties the lemmas above state |
| SearchModal.SearchDialog.constructor | src/components/SearchModal.tsx:55-58 | the modal starts with an empty query, no hits, not searching, first row active |
| SearchModal.SearchDialog.Open | src/components/SearchModal.tsx:61-67 | opening clears the query and the hits and activates the first row |
| SearchModal.SearchDialog.SetQuery | src/components/SearchModal.tsx:81-87 | typing sets the query; a blank query clears the hits at once |
| SearchModal.SearchDialog.StartSearch | src/components/SearchModal.tsx:89-90 | the debounced search marks the modal as searching and changes nothing else |
| SearchModal.SearchDialog.FinishSearch | src/components/SearchModal.tsx:91-106 | the search's answer becomes the hits with the first row active; a failure empties the hits; searching ends either way |
| SearchModal.SearchDialog.KeyDown | src/components/SearchModal.tsx:112-127 | arrows move the active row within `[0, hits - 1]` (down on no hits gives -1), Enter jumps to the active hit when there is one, Escape closes; an in-range active row stays in range |
| SearchModal.SearchDialog.EmptyText | src/components/SearchModal.tsx:129-134 | the placeholder is empty exactly when there is a non-blank query, no search under way, and hits |
| SearchModal.ArrowBounds | src/components/SearchModal.tsx:116-120 | `min(i + 1, n - 1)` and `max(i - 1, 0)` keep an index in `[0, n)`; down on no hits gives -1 |
| BackendFs.JoinPath | src-tauri/src/lib.rs:327 | the joined path ends with the relative part |
| BackendFs.Extension | src-tauri/src/lib.rs:518-522 | the extension holds no `.`, ends the name, and follows a `.` that is not the name's first character |
| BackendFs.ListingWellListed | src-tauri/src/lib.rs:258-305 | every listed node is a visible directory or a `.md`/`.uml`/`.puml` file; directories carry children, sorted, and read only below depth 3 |
| BackendFs.ListingNames | src-tauri/src/lib.rs:262-301 | the listing holds exactly the kept entries, by name and in order |
| BackendFs.ReadChildren | src-tauri/src/lib.rs:258-305 | the loop over the entries returns the listing |
| BackendFs.ReadEntry | src-tauri/src/lib.rs:274-300 | a kept entry becomes its node: a file as it is, a directory below depth 3 with its own listing sorted, one at the limit with no children |
| BackendFs.ListingStep | src-tauri/src/lib.rs:262-302 | one round of the loop adds the entry's node when it is listed |
| BackendFs.GetFiles | src-tauri/src/lib.rs:234-312 | a missing workspace is an error; otherwise the top level, read at depth 1, sorted directories first then by name, and a permutation of the listing |
| BackendFs.Stem | src-tauri/src/lib.rs:329 | the stem starts the name; with an extension the name is stem, `.` and extension, otherwise the stem is the name |
| BackendFs.CreateNote | src-tauri/src/lib.rs:325-347 | a created note did not exist; the only other failure than `File already exists` is the write's own |
| BackendFs.NoteFileName | src-tauri/src/lib.rs:328-330 | the note's name ends in `.md`, `.uml` or `.puml` |
| BackendFs.NoteFileNameIdempotent | src-tauri/src/lib.rs:328-330 | naming a note twice names it once |
| BackendFs.NoteFileNameKeeps | src-tauri/src/lib.rs:328-330 | a note or diagram name is kept; any other loses only its extension and gains `.md` |
| BackendFs.DirPrefix | src-tauri/src/lib.rs:327 | the prefix ends with `/` (or is empty) and joining any part puts it in front |
| BackendFs.LastComponent | src-tauri/src/lib.rs:327-329 | the last component of the joined path is the file name |
| BackendFs.WithMdPlain | src-tauri/src/lib.rs:329 | `with_extension("md")` changes only the file name's extension |
| BackendFs.CreateNotePlacement | src-tauri/src/lib.rs:325-347 | `create_note` works on the directory joined with the note's name, fails on an existing path or a write error and otherwise returns that path |
| BackendFs.CreatedPath | src-tauri/src/lib.rs:327-330 | the path written is the directory prefix followed by the note's name |
| BackendFs.ThreeEndings | src-tauri/src/lib.rs:245 | a path keeps the note or diagram ending of its last part |
| BackendFs.WalkRoot | src-tauri/src/lib.rs:504 | the walk starts with the root directory itself |
| BackendFs.MaxHits | src-tauri/src/lib.rs:501 | the limit defaults to 50 and is capped at 200 |
| BackendFs.HitsPerVisit | src-tauri/src/lib.rs:504-551 | one list of hits per visited entry |
| BackendFs.Take | src-tauri/src/lib.rs:505-507 | at most `n` elements, the first ones |
| BackendFs.Search | src-tauri/src/lib.rs:494-554 | a blank query finds nothing, and never more than `max_hits` hits |
| BackendFs.LineHitsGenuine | src-tauri/src/lib.rs:538-550 | each hit names the file, a 1-based line number and that line, which contains the query ignoring case |
| BackendFs.FileHitsGenuine | src-tauri/src/lib.rs:509-550 | every hit of one file is a genuine matching line |
| BackendFs.SearchGenuine | src-tauri/src/lib.rs:494-554 | every hit of the search is a matching line of a searched file, at its number |
| BackendFs.TakeAppend | src-tauri/src/lib.rs:505-507 | cutting a prefix first changes nothing about the cut of the whole |
| BackendFs.TakeFull | src-tauri/src/lib.rs:505-507 | once the cut is full, more elements change nothing |
| BackendFs.CutStays | src-tauri/src/lib.rs:505-507 | once `max_hits` is reached the later files change nothing |
| BackendFs.LineHitsPrefix | src-tauri/src/lib.rs:538-550 | the hits of fewer lines start the hits of more |
| BackendFs.LineCutStays | src-tauri/src/lib.rs:539-541 | once `max_hits` is reached within a file its later lines change nothing |
| BackendFs.SearchText | src-tauri/src/lib.rs:494-554 | the walk with its early stops returns the search result |
| BackendFs.CollectHits | src-tauri/src/lib.rs:503-552 | the loop over the walk, stopping once `max_hits` are found, returns the first `max_hits` hits of the files in walk order |
| BackendFs.VisitEntry | src-tauri/src/lib.rs:509-550 | directories, other kinds and unreadable files add nothing; a text file adds its matching lines up to the limit |
| BackendFs.ScanLines | src-tauri/src/lib.rs:538-550 | the line loop with its early stop adds the file's matching lines up to the limit |
| BackendFs.LineHitsHas | src-tauri/src/lib.rs:542-548 | every matching line is among the hits |
| BackendFs.SearchComplete | src-tauri/src/lib.rs:494-554 | when the search stops short of `max_hits`, every matching line of every searched file was found |
| BackendRefs.TrimWrappingAsWritten | src-tauri/src/lib.rs:635-641 | as written, unwrapping panics exactly on a lone `"` or `'`, and otherwise agrees with the corrected version |
| BackendRefs.TrimWrapping | src-tauri/src/lib.rs:635-641 | the result has no leading or trailing white space |
| BackendRefs.TrimWrappingAvoids | src-tauri/src/lib.rs:635-641 | unwrapping adds no character |
| BackendRefs.UnwrapOnce | src-tauri/src/lib.rs:637-640 | exactly one `<>`, `""` or `''` pair is removed, with the white space inside it |
| BackendRefs.UnwrapTrimmed | src-tauri/src/lib.rs:637-640 | a trimmed wrapped value loses its two ends and is trimmed again |
| BackendRefs.PlainUnchanged | src-tauri/src/lib.rs:635-641 | a trimmed value that is not wrapped passes unchanged |
| BackendRefs.TakeToken | src-tauri/src/lib.rs:653 | the token starts the text, holds no white space and stops at white space or the end |
| BackendRefs.FirstToken | src-tauri/src/lib.rs:653 | a token found is non-empty and holds no white space |
| BackendRefs.FirstTokenNone | src-tauri/src/lib.rs:653 | there is no token exactly when the text is all white space |
| BackendRefs.BlankTrimsEmpty | src-tauri/src/lib.rs:635-641 | white space alone unwraps to nothing |
| BackendRefs.Value | src-tauri/src/lib.rs:652-654 | a step's candidate is trimmed |
| BackendRefs.Unwrapped | src-tauri/src/lib.rs:655-657 | the candidates kept are non-empty and trimmed |
| BackendRefs.UnwrappedConcat | src-tauri/src/lib.rs:643-696 | the candidates of two runs of steps are those of each in turn |
| BackendRefs.LinkScan | src-tauri/src/lib.rs:649-660 | a `](…)` found moves the scan past its `)` and not past the end |
| BackendRefs.SkipSpace | src-tauri/src/lib.rs:673 | the position is at or after the start, at the end or at a non-space character |
| BackendRefs.SkipSpaceTrims | src-tauri/src/lib.rs:672-673 | the text from that position is the trimmed-start rest |
| BackendRefs.SrcScan | src-tauri/src/lib.rs:667-692 | each `src=` found moves the scan forward; a quoted value keeps it within the text |
| BackendRefs.CandidatePaths | src-tauri/src/lib.rs:643-696 | every candidate is non-empty and trimmed |
| BackendRefs.ExtractCandidatePaths | src-tauri/src/lib.rs:643-696 | the two loops return the link values, then the `src=` values |
| BackendRefs.ScanLinks | src-tauri/src/lib.rs:647-663 | the first loop returns the unwrapped, non-empty link targets in order |
| BackendRefs.ScanSrcs | src-tauri/src/lib.rs:665-693 | the second loop returns the unwrapped, non-empty `src=` values in order |
| BackendRefs.Items | src-tauri/src/lib.rs:643-696 | one step as written per value found, in order |
| BackendRefs.SrcsAgree | src-tauri/src/lib.rs:665-693 | without a panic the `src=` loop as written finds what the corrected one finds |
| BackendRefs.UnwrapOkNoPanic | src-tauri/src/lib.rs:654 | steps that unwrap without panicking contain no panic |
| BackendRefs.UnwrapItemsAgree | src-tauri/src/lib.rs:654 | where unwrapping as written does not panic it gives the corrected values |
| BackendRefs.ConcatAgrees | src-tauri/src/lib.rs:643-696 | panic-free link steps followed by the `src=` steps unwrap to the corrected values |
| BackendRefs.UnwrapAsWritten | src-tauri/src/lib.rs:654-690 | when no step panics, every value pushed is non-empty and has no white space at either end |
| BackendRefs.CandidatePathsAsWritten | src-tauri/src/lib.rs:643-696 | `extract_candidate_paths` as written, when it does not panic, returns only non-empty values without surrounding white space |
| BackendRefs.AsWrittenAgrees | src-tauri/src/lib.rs:643-696 | wherever the code as written does not panic it finds exactly the corrected candidates |
| BackendRefs.NoLinks | src-tauri/src/lib.rs:648-663 | text without `]` has no links |
| BackendRefs.NoSrcs | src-tauri/src/lib.rs:665-693 | lower-cased text without `s` has no `src=` value, as written or corrected |
| BackendRefs.LoneQuoteLinks | src-tauri/src/lib.rs:649-660 | `[a](")` holds one link whose target is a lone `"` |
| BackendRefs.LoneQuoteToken | src-tauri/src/lib.rs:637-638 | a lone `"` makes `trim_wrapping` panic; corrected it is empty |
| BackendRefs.FirstStepPanics | src-tauri/src/lib.rs:654 | a panicking first step ends the scan in a panic |
| BackendRefs.PanicAfterStep | src-tauri/src/lib.rs:654 | a panic after a surviving step still ends the scan in a panic |
| BackendRefs.CandidatesFrom | src-tauri/src/lib.rs:643-696 | with the links and `src=` steps known, what the scan as written and corrected return |
| BackendRefs.LoneQuotePanics | src-tauri/src/lib.rs:635-641 | `[a](")` panics as written; the corrected scan finds nothing |
| BackendRefs.ShortSrcScan | src-tauri/src/lib.rs:685-692 | in `<img src=a>` the `src=` takes `a>` and the scan as written then resumes past the end |
| BackendRefs.ShortSrcPlain | src-tauri/src/lib.rs:666 | `<img src=a>` is already lower case and has no link |
| BackendRefs.ShortSrcValue | src-tauri/src/lib.rs:686-687 | `a>` is its own token and is not wrapped |
| BackendRefs.ShortSrcPanics | src-tauri/src/lib.rs:692 | `<img src=a>` panics as written at `lower[j..]`; the corrected scan finds `a>` |
| BackendRefs.BlankSrcPanics | src-tauri/src/lib.rs:674-676 | `src= ` panics as written on the empty rest; the corrected scan finds nothing |
| BackendRefs.BeforeChar | src-tauri/src/lib.rs:715 | the part before the first `c` starts the text, holds no `c` and ends at one or at the end |
| BackendRefs.TrimLeadingSlashes | src-tauri/src/lib.rs:719 | the result does not start with `/` |
| BackendRefs.CleanRef | src-tauri/src/lib.rs:715-716 | the cleaned reference holds no `#` and no `?` |
| BackendRefs.NormalizeRefPath | src-tauri/src/lib.rs:698-726 | nothing for a blank or external reference; a `/`-rooted one joins the workspace root, any other the note's directory (or the root) |
| BackendRefs.NormalizeRefPathAsWritten | src-tauri/src/lib.rs:698-726 | as written, a panic happens only on a non-blank, non-external reference, and any other outcome is the corrected resolution |
| BackendRefs.QuoteQueryPanics | src-tauri/src/lib.rs:715-716 | the target `"?x.png` passes the image filter and cleans to a lone `"`: as written the resolution panics, corrected it is the note's directory |
| BackendRefs.ResolvedRefPlacement | src-tauri/src/lib.rs:698-726 | a resolved reference lies under its base and carries no fragment or query after it |
| BackendClean.ReplaySnoc | src-tauri/src/lib.rs:586-609 | replaying one more request applies it to the state the earlier ones left |
| BackendClean.CleanTaskController.constructor | src-tauri/src/lib.rs:586-588 | the controller starts with job 0, no cancel request and no history |
| BackendClean.CleanTaskController.StartNewJob | src-tauri/src/lib.rs:590-595 | the job number goes up by one and is returned, and the cancel flag is cleared |
| BackendClean.CleanTaskController.RequestCancel | src-tauri/src/lib.rs:597-604 | accepted exactly when a job has started; an accepted request sets the flag; the job number is kept |
| BackendClean.ReplayCountsStarts | src-tauri/src/lib.rs:590-595 | the job number is the number of jobs started |
| BackendClean.JobCancelledIff | src-tauri/src/lib.rs:606-609 | a job reads as cancelled exactly when a cancel request came after its start and no later job started; a later job moves the number on |
| BackendClean.ImagePathsIff | src-tauri/src/lib.rs:776-788 | the image paths are exactly the paths of the walk's image files |
| BackendClean.TextPathsIff | src-tauri/src/lib.rs:825-837 | the text paths are exactly the paths of the walk's text files |
| BackendClean.DedupSpec | src-tauri/src/lib.rs:790-794 | each path is kept once, and nothing else is kept |
| BackendClean.RefOf | src-tauri/src/lib.rs:866-884 | one candidate refers to at most one path |
| BackendClean.GatherIff | src-tauri/src/lib.rs:865-885 | a path is gathered exactly when some candidate refers to it |
| BackendClean.Unused | src-tauri/src/lib.rs:890-893 | the unused images are no more than the images |
| BackendClean.NoStopYet | src-tauri/src/lib.rs:760-764 | a check that does not report cancellation extends the run of checks that did not |
| BackendClean.UnusedImages | src-tauri/src/lib.rs:728-899 | with the corrected reference scan (see Findings), an error exactly for a missing workspace, with the message `Workspace path does not exist` |
| BackendClean.UnusedMembers | src-tauri/src/lib.rs:890-893 | the filter keeps exactly the images not referenced, each once when the images were distinct |
| BackendClean.UnusedAppend | src-tauri/src/lib.rs:890-893 | the filter keeps the images' order |
| BackendClean.RefOfIff | src-tauri/src/lib.rs:866-884 | a candidate refers to a path exactly when it passes the URL and image filters and resolves to it |
| BackendClean.RefsOfIff | src-tauri/src/lib.rs:865-885 | a note's references are those of its candidates |
| BackendClean.ReferencedIff | src-tauri/src/lib.rs:845-886 | a path is referenced exactly when some readable text file has a candidate that refers to it |
| BackendClean.ExternalNeverCounts | src-tauri/src/lib.rs:866-869 | a candidate containing `://` never counts |
| BackendClean.UnusedImagesMembers | src-tauri/src/lib.rs:728-899 | without cancellation the result lists each walked image once, exactly those no text file outside the assets folders refers to |
| BackendClean.CollectImages | src-tauri/src/lib.rs:737-795 | the image walk stops exactly when a check reports cancellation; otherwise it keeps each image path once in walk order |
| BackendClean.KeepImage | src-tauri/src/lib.rs:776-794 | an image file not seen yet is appended, and the set keeps matching the list |
| BackendClean.ImageStep | src-tauri/src/lib.rs:776-794 | one entry of the walk extends the deduplicated image list as the loop does |
| BackendClean.CollectTextFiles | src-tauri/src/lib.rs:800-838 | the text walk stops exactly on cancellation; otherwise it keeps every text file |
| BackendClean.AddReferences | src-tauri/src/lib.rs:865-885 | the references of one note's candidates are added |
| BackendClean.AddReference | src-tauri/src/lib.rs:866-884 | one candidate adds its resolved path when it passes the filters |
| BackendClean.ScanReferences | src-tauri/src/lib.rs:843-886 | the reference scan stops exactly on cancellation; otherwise it returns every reference of the readable text files |
| BackendClean.ComputeUnusedImages | src-tauri/src/lib.rs:728-899 | the three phases compute the unused images |
| BackendClean.FindUnusedImages | src-tauri/src/lib.rs:902-906 | a new job is started and the scan's result is returned |
| BackendClean.DeletionSafe | src-tauri/src/lib.rs:930-962 | the count is the number of files removed, each removed file lies under the root among the paths and did not fail, and other files stay |
| BackendClean.DeletionStep | src-tauri/src/lib.rs:948-955 | one path keeps the deletion's account |
| BackendClean.DeleteFiles | src-tauri/src/lib.rs:924-975 | a new job is started and the loop, stopped at the first cancellation, returns the deletion's count and remaining files |
| Llm.Dispatch | src/utils/llm.ts:4-19 | an image model is always routed to image generation, and the only error is `Provider <provider> not supported` |
| Llm.DispatchCases | src/utils/llm.ts:4-19 | image models generate images; other models chat exactly for the `openai` and `custom` providers; any other provider is an error naming it |
| Llm.IndexOfFirst | src/utils/llm.ts:60 | an occurrence at some position means `includes` holds |
| Llm.StripSuffix | src/utils/llm.ts:42-43 | the suffix is removed once when the text ends with it, and the text is otherwise unchanged |
| Llm.SuffixesDiffer | src/utils/llm.ts:136 | two suffixes that differ at one place cannot both end a text |
| Llm.StripSlashOnce | src/utils/llm.ts:130 | stripping one slash from a path not ending in two leaves none at the end |
| Llm.ChatPath | src/utils/llm.ts:130-138 | the path loses at most one trailing slash and gains nothing or exactly `/chat/completions` |
| Llm.ChatPathEndpoint | src/utils/llm.ts:130-138 | the chat path always names an endpoint, and is the slash-stripped path either as it is or with `/chat/completions` appended |
| Llm.CompletedStable | src/utils/llm.ts:130-138 | a completed path is left as it is |
| Llm.ChatPathStable | src/utils/llm.ts:130-138 | completing a chat path twice changes nothing unless it ends in `//` |
| Llm.ChatUrl | src/utils/llm.ts:126-141 | without `?` the URL is the completed path; with one it starts with the completed path before the first `?`, then `?` |
| Llm.ChatUrlNoQuery | src/utils/llm.ts:126-141 | a URL without `?` gets the completed path |
| Llm.ChatUrlQuery | src/utils/llm.ts:126-141 | the query after the first `?` is kept and anything after a second `?` is dropped |
| Llm.ImageUrl | src/utils/llm.ts:37-45 | the image URL always ends in `/images/generations` |
| Llm.ImageUrlStable | src/utils/llm.ts:37-45 | completing an image URL twice changes nothing |
| Llm.ChatPathAppends | src/utils/llm.ts:136-138 | a path naming no endpoint and without a trailing slash gets `/chat/completions` |
| Llm.VersionedChat | src/utils/llm.ts:126-141 | a `/v1` base gets `/v1/chat/completions` |
| Llm.VersionedImage | src/utils/llm.ts:38-39 | a `/v1` base gets `/v1/images/generations` |
| Llm.ImageFromChatEndpoint | src/utils/llm.ts:40-44 | a chat endpoint reaches the same image endpoint as the bare base |
| Llm.Reverse | src/utils/llm.ts:27 | the reversal has the same length and element `i` is element `n-1-i` |
| Llm.FindUser | src/utils/llm.ts:27 | a message found is one of the messages and is the user's |
| Llm.FindUserFirst | src/utils/llm.ts:27 | no user message is found exactly when there is none |
| Llm.FindUserAt | src/utils/llm.ts:27 | the user message found is at the first index holding one |
| Llm.ImagePrompt | src/utils/llm.ts:27-31 | the prompt is the content of some user message; failing, the error is `No user message found for image prompt` |
| Llm.ImagePromptMissing | src/utils/llm.ts:27-30 | the prompt is an error exactly when no message is the user's |
| Llm.ImagePromptIsLastUser | src/utils/llm.ts:27-31 | the prompt is the content of the last user message |
| Llm.BuildImageRequest | src/utils/llm.ts:21-86 | a request goes to the completed image URL with `Bearer` and the trimmed key; the only failure is the missing prompt |
| Llm.ImageRequestShape | src/utils/llm.ts:21-86 | the request fails exactly without a prompt; otherwise it goes to the image endpoint with that prompt and the trimmed model, in Volcengine's shape exactly for a `volces.com` URL |
| Llm.BuildChatBody | src/utils/llm.ts:151-155 | the body carries the model, the messages unchanged, and `stream` exactly when updates are wanted |
| Llm.LineDelta | src/utils/llm.ts:184-196 | a delta comes only from a `data: ` line and is what the parser reads after those six characters; blank lines and `data: [DONE]` carry none |
| Llm.Carried | src/utils/llm.ts:188-196 | one line adds at most one delta |
| Llm.Cumulative | src/utils/llm.ts:192-193 | one update per delta |
| Llm.DeltasSnoc | src/utils/llm.ts:184-198 | one more line adds its delta, if any |
| Llm.ChunkLinesTake | src/utils/llm.ts:181-182 | one more chunk adds its own split lines |
| Llm.CumulativeSnoc | src/utils/llm.ts:192-193 | one more delta extends the content and adds one update |
| Llm.CumulativeGrows | src/utils/llm.ts:192-193 | each update extends the previous one and the last is the whole answer |
| Llm.SkippedLines | src/utils/llm.ts:185-186 | blank lines and `data: [DONE]` carry nothing |
| Llm.ReadLines | src/utils/llm.ts:184-198 | the line loop extends the content and the updates by the lines' deltas |
| Llm.ReadStream | src/utils/llm.ts:177-200 | as written, the content and updates are those of the lines of each chunk split on its own |
| Llm.PendingStep | src/utils/llm.ts:181-182 | a chunk completes the pending line and leaves a new pending piece |
| Llm.PendingLast | src/utils/llm.ts:182 | the complete lines and the pending piece make up the split |
| Llm.ConcatTake | src/utils/llm.ts:181 | one more chunk joined |
| Llm.ReadStreamBuffered | src/utils/llm.ts:177-200 | with a carry-over buffer, the content and updates are those of the whole stream's lines |
| Llm.DataLine | src/utils/llm.ts:188-190 | a `data: <payload>` line hands its payload to the parser |
| Llm.OtherLine | src/utils/llm.ts:188 | a line too short for `data: ` carries nothing |
| Llm.CutLineSetup | src/utils/llm.ts:181-182 | the chunks `data: ab` and `c` plus a line break give three lines as written and one whole line buffered |
| Llm.CutLineAsWritten | src/utils/llm.ts:184-198 | as written none of the three lines carries a delta |
| Llm.CutLineBuffered | src/utils/llm.ts:184-198 | buffered, the whole line carries its delta |
| Llm.CutLineLost | src/utils/llm.ts:177-198 | a `data:` line cut between chunks is lost as written and read whole when buffered |
| TerminalPanel.Ids | src/components/TerminalPanel.tsx:11-14 | one identifier per session, in order |
| TerminalPanel.Without | src/components/TerminalPanel.tsx:136 | the filter never adds sessions |
| TerminalPanel.WithoutKeeps | src/components/TerminalPanel.tsx:136 | the filter keeps exactly the sessions with another identifier |
| TerminalPanel.ResolveCwd | src/components/TerminalPanel.tsx:25-31 | any folder other than the one on view is a proper prefix of the selected note's path ending just before a `/` |
| TerminalPanel.Title | src/components/TerminalPanel.tsx:39 | a title reads `Local (` … `)` |
| TerminalPanel.CwdOfNote | src/components/TerminalPanel.tsx:25-31 | a selected note starts the shell in its own folder |
| TerminalPanel.CwdBounds | src/components/TerminalPanel.tsx:25-31 | the shell starts in the folder on view or in a proper prefix of the note's path that ends just before a `/` |
| TerminalPanel.Panel.constructor | src/components/TerminalPanel.tsx:18-23 | no sessions, none on view, nothing created automatically yet |
| TerminalPanel.Panel.CreateSession | src/components/TerminalPanel.tsx:34-44 | once the host starts the shell, a tab titled `Local (n+1)` is appended and shown; on failure nothing changes |
| TerminalPanel.Panel.AutoCreate | src/components/TerminalPanel.tsx:47-53 | the first session is created once, only when the panel is open and empty; it becomes the one on view, and when the host refuses it the panel stays empty with its view unchanged; otherwise nothing changes |
| TerminalPanel.Panel.CloseSession | src/components/TerminalPanel.tsx:123-149 | once the host closes the shell the tab goes; if it was on view the last remaining tab (or none) is shown; on failure nothing changes |
| TerminalPanel.Panel.CloseActive | src/components/TerminalPanel.tsx:151-158 | the close-active event closes the tab on view, after which no tab has its identifier and the last remaining tab (or none) is on view; with none on view or when the host refuses, nothing changes; the auto-create flag is kept |
| TerminalPanel.WithoutDrops | src/components/TerminalPanel.tsx:136 | after the filter no tab carries the identifier |
| TerminalPanel.TitlesRepeat | src/components/TerminalPanel.tsx:39 | closing the first of two tabs and opening another gives two tabs with the same title |
| TerminalPanel.InIds | src/components/TerminalPanel.tsx:60 | a listed session's identifier is among the identifiers |

## Left out

- File system, network and host calls: `fs` reads and writes, WalkDir, the PTY and its reader thread, the clipboard, SVG rasterisation and menu setup are not modelled; directory trees, file contents, backend answers and chunks of a response stream are inputs of the model.
- Concurrency in the backend: the mutex and once-cell around the clean task, `spawn_blocking` and `run_on_main_thread` are left out; the clean task controller is a sequential class.
- Events emitted by the backend (`clean-unused-images-progress`, `clean-unused-images-log`) and the `last_modified` timestamps of `get_files` are left out; they carry no logic of their own.
- Empty parent directories that `delete_files` removes after deleting files are left out: that step only touches the host file system.
- Browser APIs in the diagram pipeline: the mermaid library and its `render`, SVG normalisation by DOMParser and XMLSerializer, image inlining, PNG export and every clipboard path of `copyAsImage` are left out; the rendered SVG is an input.
- Timers and rendering: the autosave, re-render and search debounces, React effects and JSX, Monaco and xterm (including terminal resize) are left out.
- LLMPanel.tsx and the chat-input actions called from Editor.tsx are left out: they depend on store actions the store does not define.
- ContextMenu.tsx, InputModal.tsx, ConfirmModal.tsx, Notice.tsx, CleanUnusedImagesModal.tsx, tailwind.config.js and openExternalUrl.ts hold presentation only and are not part of this model.
- Other backend commands of lib.rs (get_default_workspace, get_config, save_config, read_file, save_file, create_folder, save_image, read_file_base64, move_path, delete_path, copy_file, the clipboard commands and the terminal commands) only forward to the host and are not part of this model.
- Store.SortFilesSorted: orders names by code-point order, where the front end uses `localeCompare`; locale collation is not modelled. The backend's `sort_nodes` compares bytes, which is what FileTree.SortLevel does.
- SearchModal.SameIgnoringCaseLower: case-insensitive matching folds ASCII letters only; JavaScript's Unicode case folding is not modelled. The same holds for MockFs.MockAdapter.SearchText, BackendFs.SearchText and the lower-casing in BackendRefs.NormalizeRefPath and EditorPaths.MimeOfLower.
- BackendRefs.ExtractCandidatePaths: byte offsets are modelled as character offsets, which agree for ASCII text only.
- BackendClean.UnusedImages: `fs::canonicalize` is taken to be the identity on the paths of the walk, so symbolic links and `..` components are not resolved.
- BackendClean.UnusedImages: the scan uses the corrected `trim_wrapping`, `extract_candidate_paths` and `normalize_ref_path` (BackendRefs.CandidatePaths and BackendRefs.NormalizeRefPath); on a note that makes the code as written panic (see Findings) the program ends the scan with a panic, which the model does not reproduce.
- BackendClean.UnusedImagesMembers: stated for the corrected reference scan, as for BackendClean.UnusedImages.
- BackendClean.ScanReferences: the loop collects references through the corrected BackendRefs.CandidatePaths and BackendRefs.NormalizeRefPath, not through the panicking versions.
- BackendClean.ComputeUnusedImages: computes the corrected scan; the panics of the as-written reference helpers are modelled only by BackendRefs.CandidatePathsAsWritten and BackendRefs.NormalizeRefPathAsWritten.
- BackendClean.FindUnusedImages: returns the corrected scan's result, as for BackendClean.ComputeUnusedImages.
- BackendRefs.NormalizeRefPath: the corrected resolution, taking a reference that cleans to a lone quote as empty; the code as written panics there (BackendRefs.NormalizeRefPathAsWritten).
- BackendClean.DeleteFiles: the root check compares paths as given, with `canonicalize` taken to be the identity; a path whose canonical form differs from its spelling is not modelled.
- MermaidRewrite.BuildCodeWithInitOverrides: uses the corrected configuration slice, which ends before `}%%`; the code as written slices to `end + 1` (src/components/MermaidDiagram.tsx:327) and keeps the `}`, which MermaidRewrite.RewriteAsWritten models (see Findings).
- MermaidRewrite.ReplaceDirective: the branch of MermaidRewrite.BuildCodeWithInitOverrides, with the same corrected slice.
- MermaidRewrite.CodeForRender: uses the corrected slice as well; `codeForRender` as written slices to `end + 1` at src/components/MermaidDiagram.tsx:107, the same defect.
- Shortcuts.NormalizeMainKey: upper-cases ASCII letters only; JavaScript's `toUpperCase` also maps other letters (`é` to `É`) and can lengthen a string (`ß` to `SS`).
- Shortcuts.ParseShortcut: lower-cases and upper-cases ASCII letters only, as for Shortcuts.NormalizeMainKey.
- Markdown.SanitizeFontFamily: caps the name at 100 characters; the code caps at 100 UTF-16 code units, which differ for characters outside the Basic Multilingual Plane.
- MermaidView.ClampScale: scales are exact reals, not IEEE doubles; the zoom anchor translation is modelled only for the no-op guard and the fixed anchor.
- App.FillPercent: the progress percentage is an exact real quotient; floating-point rounding and the CSS width string are not modelled.
- Llm.ReadStream: `JSON.parse` of a `data:` line and the shape of its answer are one abstract parameter `parse`; the `fetch` transport, headers and error bodies are left out.
- Llm.ImageRequestShape: the request bodies are modelled as the fields the code sets; JSON serialisation is not modelled.
- Markdown.CodeRoundTrip: the round trip is proved for one placeholder pass at a time on text without `@`; that the whole preview gives back every code block is not claimed, since it fails for a fence inside an inline span (see below).
- EditorPaths.HashString: the input is its sequence of UTF-16 code units; decoding a string into code units is not modelled.

## Behaviours of note

These are proved about the code as written and kept as it is:

- `search_text` skips a hidden directory entry but still descends into it, so hidden directories are searched (BackendFs.SearchText uses an unpruned walk).
- Ancestor expansion in the sidebar compares paths as string prefixes (Sidebar.RevealOpensChain, Sidebar.RevealOutside).
- The move dialog disables a sibling whose path merely starts with the source path, such as `/a/bc` when moving `/a/b` (MoveToModal.SiblingRefused).
- Recording the `+` key gives `Cmd++`, which parses back to an empty main key and never matches (Shortcuts.PlusKeyLost).
- `normalizeMainKey` is not idempotent: `Arrowup` becomes `up`, which becomes `Up` (Shortcuts.NormalizeNotIdempotentInGeneral).
- ArrowDown with no hits sets the active index to -1 (SearchModal.ArrowBounds).
- A chat URL keeps only the text between its first and second `?` as the query (Llm.ChatUrlQuery), and the chat path is stable only for base paths that do not end in `//` (Llm.ChatPathStable).
- Terminal titles are numbered from the current count, so closing a session can make two sessions share a title (TerminalPanel.TitlesRepeat).
- A fenced block written inside an inline code span, as in `` `a ```x``` b` ``, is not restored: the fence's placeholder is swapped out again with the inline span, and the single restoring pass brings back only the outer one.

## Findings

| source | as written | input that shows it | evidently intended | confidence | as-written member | corrected member |
|---|---|---|---|---|---|---|
| src/components/MermaidDiagram.tsx:327 | the config slice runs from after `%%{init:` to the end index + 1, so it keeps the `}` of `}%%` | `%%{init: {}}%%` followed by a diagram; the display overrides give the config `{}, "look": "handDrawn", "handDrawnSeed": 1}` | the config is the text between `%%{init:` and `}%%`, giving `{"look": "handDrawn", "handDrawnSeed": 1}` | high, not executed | MermaidRewrite.AsWrittenKeepsCloser, MermaidRewrite.EmptyDirectiveReread, MermaidRewrite.RewriteAsWritten | MermaidRewrite.ConfigRoundTrip, MermaidRewrite.Rewrite, MermaidRewrite.BuildCodeWithInitOverrides, MermaidRewrite.ReplaceDirective, MermaidRewrite.CodeForRender |
| src-tauri/src/lib.rs:635-641 | a trimmed value that is a single `"` or `'` starts and ends with the quote, and `s[1..0]` panics | the Markdown link `[a](")` | a lone quote is not a wrapped value and is left as it is or skipped | high, not executed | BackendRefs.LoneQuotePanics | BackendRefs.TrimWrapping, BackendRefs.AsWrittenAgrees |
| src-tauri/src/lib.rs:715-716 | the cleaned reference goes through `trim_wrapping`, and a reference whose part before `?` or `#` is a single `"` panics there | the Markdown link `[a]("?x.png)`, whose target ends in `.png` and so is resolved | a reference that cleans to a lone quote is taken as empty or skipped | high, not executed | BackendRefs.NormalizeRefPathAsWritten, BackendRefs.QuoteQueryPanics | BackendRefs.NormalizeRefPath, BackendRefs.ResolvedRefPlacement |
| src-tauri/src/lib.rs:685-692 | after an unquoted `src=` value the scan resumes at `at + 4`, which can lie past the end of the text, and `lower[j..]` panics | `<img src=a>` | the scan stops at the end of the text and reports `a>` | high, not executed | BackendRefs.ShortSrcPanics | BackendRefs.ExtractCandidatePaths |
| src-tauri/src/lib.rs:672-676 | after `src=` and white space the rest may be empty, and `rest[1..]` panics | `src= ` | an empty value yields no candidate | high, not executed | BackendRefs.BlankSrcPanics | BackendRefs.CandidatePaths |
| src/components/Sidebar.tsx:375-384 | the no-op test compares the typed name before `.md` is appended, so the rename can target the note itself; the mock move then deletes the note's content | renaming `a.md` to `a` | a rename whose final name equals the current name does nothing | high, not executed | Sidebar.RenameOntoItself, Sidebar.RenameOntoItselfErasesNote | Sidebar.RenameNameChecked, Sidebar.RenameCheckedAgrees |
| src/components/MoveToModal.tsx:16-19 | the selected target is component state that survives closing, since the dialog stays mounted (src/components/Sidebar.tsx:525-532) and only returns nothing while closed; a later opening starts with the old selection, even one it refuses | choose `/a/b` while moving `/x`, cancel, then open the dialog to move `/a` and press Move | each opening starts with no selection, so only folders that opening allows can be handed on | medium, not executed | MoveToModal.StaleSelectionMoves | MoveToModal.Reopen, MoveToModal.ReopenedNeverMovesIntoRefused |
| src/utils/llm.ts:177-198 | every network chunk is split into lines on its own, so a `data:` line cut between two chunks is read as two broken lines and its delta is lost | chunks `data: ab` and `c` + newline, where `abc` parses to the delta `abc` | lines are split across chunk boundaries, giving `abc` | medium, not executed | Llm.ReadStream, Llm.CutLineLost | Llm.ReadStreamBuffered |
