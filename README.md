# Technology detection for a repository analyser

This project is a Dafny model of the part of a repository analyser that decides which
frameworks, languages, libraries and tools a Git repository uses. It also models the pure
helpers of the analysis route that summarise the repository's structure.

The detector (`FrameworkDetector`) takes a snapshot made of the repository's file paths
and its optional parsed `package.json`. It evaluates a fixed catalog of 25 detection rules
in catalog order. Each rule declares three fixed weights:

- +40 when a declared file name occurs in some path;
- +50 when a declared key has a truthy entry in the merged `dependencies` and
  `devDependencies`;
- +30 when some path matches one of the rule's extension patterns.

Of these, only +50 and +30 are ever added. The +40 weight never applies in the code as
written, for the reason given below.

A rule with a zero total is dropped. Otherwise it is reported with its name, its type, the
total capped at 100, and evidence strings. The results are sorted by confidence, highest
first, with a stable sort. The filtered views (frameworks, languages, libraries) and the
primary framework are computed from that list.

The route helpers modelled are:

- the file list taken from a Git tree listing (the paths of the blob entries);
- `analyzeStructure`, with its three substring flags;
- `getDirectories`, the sorted distinct top-level directories;
- `getFileTypes`, the extension histogram;
- the `requirements.txt` line filter;
- the `package.json` summary of the response.

The model follows the code as written. The callback of the file-name filter
(`src/lib/framework-detector.ts:249-251`) has a block body without `return`, so it always
yields `undefined` and the filter keeps nothing. The +40 weight therefore never applies:

- reachable confidences are 30, 50 and 80;
- Django, Flask, FastAPI and Spring Boot, which have only file names, are never reported.

Consequently no input yields Flask at 40, Python at 70, or Spring Boot at 40 for a
repository holding only `pom.xml`: `RuleProperties.UndetectableFrameworks` proves the
file-only frameworks are never reported, and `RuleProperties.RuleEntry` proves every reported
confidence is 30, 50 or 80. `RuleProperties.DeadFileSignalMissesDjango` exhibits one input
where a working file-name filter would report Django and this code does not.

The `version` field of a detected entry is never set. The first matching dependency's version
string appears only as the evidence text `Version: v`, which `RuleProperties.RuleEntry` states
as `version == None` for every reported entry.

Modules:

- `Wrappers`: `Option`.
- `Strings`: the JavaScript string operations used, on `seq<char>`: `includes`, `endsWith`,
  `split` on one character, `trim`, the default `sort()` order, and decimal rendering.
- `Manifest`: the parsed `package.json` and the merged dependency map.
- `Rules`: the catalog, the three signals and `checkRule` as functions.
- `RuleProperties`: lemmas about the signals and the per-rule results.
- `Ranking`: the stable sort, the views and the primary framework, and an in-place insertion
  sort proved equal to the sort function.
- `Detector`: the `FrameworkDetector` class with its two fields and its methods.
- `RepositoryStructure`: the route helpers.

## Model

| member | source | states |
|---|---|---|
| `Strings.ContainsIff` | src/app/api/analyze/repository/route.ts:162 | the left-to-right scan that models `includes` succeeds exactly when the substring occurs at some offset |
| `Strings.Split` | src/app/api/analyze/repository/route.ts:182 | `split` on one character returns at least one piece, no piece holds the separator, and joining the pieces with the separator gives back the input |
| `Strings.SplitFirst` | src/app/api/analyze/repository/route.ts:182-184 | there is more than one piece exactly when the separator occurs; the first piece is the text before the first separator |
| `Strings.SplitLast` | src/app/api/analyze/repository/route.ts:194 | the last piece (what `pop()` returns) is the text after the last separator, or the whole string when there is none |
| `Strings.SplitLastEmpty` | src/app/api/analyze/repository/route.ts:194 | the last piece is empty exactly when the string is empty or ends with the separator |
| `Strings.LessIrreflexive` | src/app/api/analyze/repository/route.ts:188 | no string sorts before itself |
| `Strings.LessTransitive` | src/app/api/analyze/repository/route.ts:188 | the string order of `sort()` is transitive |
| `Strings.LessTotal` | src/app/api/analyze/repository/route.ts:188 | any two different strings are ordered one way or the other |
| `Strings.LeastExists` | src/app/api/analyze/repository/route.ts:188 | every non-empty set of directory names has a least element, so listing the set in order always progresses |
| `Strings.AscendingUnique` | src/app/api/analyze/repository/route.ts:188 | two strictly ascending lists with the same members are the same list, so the sorted listing of a set is unique |
| `Strings.TrimStartEmpty` | src/app/api/analyze/repository/route.ts:154 | removing leading whitespace leaves nothing exactly when the line is all whitespace, and otherwise leaves a line starting with a visible character |
| `Strings.TrimEndEmpty` | src/app/api/analyze/repository/route.ts:154 | removing trailing whitespace from a line that starts with a visible character never empties it |
| `Strings.TrimEmptyIffBlank` | src/app/api/analyze/repository/route.ts:154 | `trim()` gives the empty (falsy) string exactly when every character is whitespace |
| `Strings.NatToString` | src/lib/framework-detector.ts:281 | the rendering of a count is a non-empty string of decimal digits |
| `Strings.NatToStringRoundTrip` | src/lib/framework-detector.ts:281 | the rendered count reads back as the same number |
| `Manifest.Entries` | src/lib/framework-detector.ts:259-262 | definition of spreading a dependency object (nothing when it is missing); specified by `Manifest.MergedDependencies` |
| `Manifest.MergedDependencies` | src/lib/framework-detector.ts:259-262 | the merged map has exactly the runtime and development names; a development entry wins, and a runtime entry survives only when there is no development entry of that name |
| `Rules.JoinComma` | src/lib/framework-detector.ts:267 | definition of `join(", ")`; specified by `Rules.JoinCommaLayout` |
| `Rules.JoinCommaLayout` | src/lib/framework-detector.ts:267 | the joined text holds the items in order, each at its offset, with `", "` between consecutive items and nothing after the last |
| `Rules.Render` | src/lib/framework-detector.ts:254-281 | definition of the four evidence texts; specified by `Rules.RenderFoundKeys` and `Rules.RenderMatchCount` |
| `Rules.RenderFoundKeys` | src/lib/framework-detector.ts:267 | the found-keys evidence reads "Found in package.json: " then the keys in rule order, separated by `", "` |
| `Rules.RenderMatchCount` | src/lib/framework-detector.ts:281 | the match-count evidence reads "Found N matching files", and N reads back as the number of matching paths |
| `Rules.FoundFilesAsWritten` | src/lib/framework-detector.ts:248-251 | the file-name filter as written keeps no file name, whatever the paths are |
| `Rules.IntendedFoundFiles` | src/lib/framework-detector.ts:248-251 | the filter as its callback means it keeps exactly the declared names that some path contains |
| `Rules.FoundKeysIn` | src/lib/framework-detector.ts:264 | exactly the listed keys whose merged entry is truthy (present and non-empty) are found, and no more than were listed; their order is stated by `RuleProperties.FoundKeysInAppend` |
| `Rules.MatchingFiles` | src/lib/framework-detector.ts:275-278 | each path occurrence that matches some pattern is kept once, however many patterns it matches, and no other path is kept |
| `Rules.DetectionRules` | src/lib/framework-detector.ts:19-224 | definition: the 25 rules in catalog order; specified by `RuleProperties.UndetectableFrameworks` and `Detector.DetectedEntries` |
| `Rules.FileSignal` | src/lib/framework-detector.ts:248-256 | definition of the file-name signal; specified by `RuleProperties.FileSignalNeverFires` |
| `Rules.ManifestSignal` | src/lib/framework-detector.ts:258-273 | definition of the manifest signal; specified by `RuleProperties.ManifestSignalSpec`, `RuleProperties.ManifestEvidence` and `RuleProperties.DevDependencyWins` |
| `Rules.PatternSignal` | src/lib/framework-detector.ts:275-283 | definition of the path-pattern signal; specified by `RuleProperties.PatternSignalSpec` |
| `Rules.RuleResult` | src/lib/framework-detector.ts:245-293 | definition of `checkRule`; specified by `RuleProperties.RuleFires`, `RuleProperties.RuleEntry` and `RuleProperties.RuleEvidence`, and met by `Detector.FrameworkDetector.CheckRule` |
| `Rules.Outcomes` | src/lib/framework-detector.ts:234-240 | definition of each rule's outcome in catalog order; specified by `RuleProperties.CollectAppend` and `RuleProperties.CollectMembers` |
| `Rules.Collect` | src/lib/framework-detector.ts:234-240 | definition of the list `detect()` pushes; specified by `RuleProperties.CollectMembers`, `RuleProperties.CollectAppend` and `RuleProperties.CollectNothing` |
| `Rules.Present` | src/lib/framework-detector.ts:236-239 | the pushed results are never more than the rules evaluated |
| `RuleProperties.FileSignalNeverFires` | src/lib/framework-detector.ts:248-256 | the file-name signal adds nothing and pushes no evidence, whatever the paths are |
| `RuleProperties.DeadFileSignalMissesDjango` | src/lib/framework-detector.ts:86-93 | with the path `manage.py`, the intended filter would find Django's marker, but Django is not reported |
| `RuleProperties.FoundKeysInAppend` | src/lib/framework-detector.ts:264 | the found keys keep the rule's order: finding over two consecutive key lists gives the first list's found keys followed by the second's |
| `RuleProperties.FoundKeysFirst` | src/lib/framework-detector.ts:264-269 | the first found key is the first listed key with a truthy entry |
| `RuleProperties.ManifestSignalSpec` | src/lib/framework-detector.ts:258-273 | the manifest signal adds 0 or 50; 50 exactly when there is a manifest, the rule lists keys, and some listed key has a truthy merged entry; no evidence at 0 |
| `RuleProperties.ManifestEvidence` | src/lib/framework-detector.ts:265-272 | when it fires, the evidence is the found keys in rule order, then "Version: v" with the first found key's value, which is always present |
| `RuleProperties.DevDependencyWins` | src/lib/framework-detector.ts:259-264 | a name listed in `devDependencies` counts as found exactly when its development entry is non-empty, whatever the runtime entry is |
| `RuleProperties.EmptyDevEntryHidesRuntimeVersion` | src/lib/framework-detector.ts:259-264 | `next` at "14.0.0" at runtime with an empty development entry does not fire the Next.js manifest signal |
| `RuleProperties.PatternSignalSpec` | src/lib/framework-detector.ts:275-283 | the pattern signal adds 0 or 30; 30 exactly when the rule has patterns and some path ends in one of their suffixes; its evidence is the number of matching paths |
| `RuleProperties.RuleFires` | src/lib/framework-detector.ts:284-286 | a rule is reported exactly when its manifest signal or its pattern signal fires |
| `RuleProperties.RuleEntry` | src/lib/framework-detector.ts:287-292 | a reported entry has the rule's name and type, no version, and confidence equal to the sum of the live signals: 30, 50 or 80, within (0, 100] |
| `RuleProperties.RuleEvidence` | src/lib/framework-detector.ts:245-292 | a reported entry's evidence is the manifest evidence followed by the match count, and is never empty |
| `RuleProperties.FileOnlyRuleNeverDetected` | src/lib/framework-detector.ts:248-256 | a rule with no keys (or an empty key list) and no patterns is never reported |
| `RuleProperties.UndetectableFrameworks` | src/lib/framework-detector.ts:86-117 | Django, Flask, FastAPI and Spring Boot are never reported, whatever the snapshot |
| `RuleProperties.PresentMembers` | src/lib/framework-detector.ts:236-239 | an entry is pushed exactly when some rule's result is that entry |
| `RuleProperties.PresentAppend` | src/lib/framework-detector.ts:235-240 | pushing keeps order: the results of two runs of rules are the first run's results followed by the second's |
| `RuleProperties.PresentNone` | src/lib/framework-detector.ts:237-239 | when no rule returns a result, nothing is pushed |
| `RuleProperties.CollectMembers` | src/lib/framework-detector.ts:234-240 | the collected list holds exactly the results of the rules that fire |
| `RuleProperties.CollectNothing` | src/lib/framework-detector.ts:234-243 | no paths and no manifest: no rule fires |
| `RuleProperties.MapAppend` | src/lib/framework-detector.ts:235-240 | evaluating rules one by one keeps order across a concatenation of rule lists |
| `RuleProperties.CollectAppend` | src/lib/framework-detector.ts:234-240 | the results of two consecutive runs of rules are the first run's results followed by the second's |
| `Ranking.InsertByConfidence` | src/lib/framework-detector.ts:242 | definition of one step of the stable sort; specified by `Ranking.InsertPermutes`, `Ranking.InsertSorted`, `Ranking.InsertStable` and `Ranking.InsertSplit` |
| `Ranking.SortByConfidence` | src/lib/framework-detector.ts:242 | definition of the stable sort by confidence; specified by `Ranking.SortPermutes`, `Ranking.SortSorts` and `Ranking.SortStable`, and met by `Ranking.SortInPlace` |
| `Ranking.DetectAll` | src/lib/framework-detector.ts:234-243 | definition of `detect()`; specified by `Detector.FrameworkDetector.Detect`, `Detector.DetectedEntries` and `Detector.EmptySnapshot` |
| `Ranking.OfKind` | src/lib/framework-detector.ts:295-305 | a view is never longer than the list it filters; with `Ranking.OfKindMembers`, `Ranking.OfKindAppend` and `Ranking.OfKindSorted` it holds each entry of its type once, in order |
| `Ranking.PrimaryFramework` | src/lib/framework-detector.ts:307-310 | definition of `getPrimaryFramework()`; specified by `Ranking.PrimaryFrameworkAbsent` and `Ranking.PrimaryFrameworkHighest` |
| `Ranking.WithConfidence` | src/lib/framework-detector.ts:242 | the entries of one confidence are never more than the list; with `Ranking.WithConfidenceMembers` and `Ranking.WithConfidenceAppend` they are that confidence's entries in order, the groups in which `Ranking.SortStable` states stability |
| `Ranking.WithConfidenceMembers` | src/lib/framework-detector.ts:242 | the entries of one confidence are exactly the entries with that confidence |
| `Ranking.WithConfidenceAppend` | src/lib/framework-detector.ts:242 | taking the entries of one confidence keeps their order across a concatenation |
| `Ranking.InsertPermutes` | src/lib/framework-detector.ts:242 | inserting an entry keeps every entry, as a multiset |
| `Ranking.InsertSorted` | src/lib/framework-detector.ts:242 | inserting into a list sorted by confidence, highest first, keeps it sorted |
| `Ranking.InsertStable` | src/lib/framework-detector.ts:242 | an inserted entry goes after the entries of equal confidence already there, and the other confidences' entries keep their order |
| `Ranking.SortPermutes` | src/lib/framework-detector.ts:242 | the sort returns a permutation of its input |
| `Ranking.SortSorts` | src/lib/framework-detector.ts:242 | the sort returns the entries highest confidence first |
| `Ranking.SortStable` | src/lib/framework-detector.ts:242 | entries of equal confidence keep their input (catalog) order |
| `Ranking.OfKindMembers` | src/lib/framework-detector.ts:295-305 | a view holds exactly the entries of its type |
| `Ranking.OfKindAppend` | src/lib/framework-detector.ts:295-305 | a view keeps relative order |
| `Ranking.OfKindSorted` | src/lib/framework-detector.ts:295-305 | a view of a sorted list is sorted |
| `Ranking.PrimaryFrameworkAbsent` | src/lib/framework-detector.ts:307-310 | the primary framework is absent exactly when no framework is in the list |
| `Ranking.PrimaryFrameworkHighest` | src/lib/framework-detector.ts:307-310 | over a sorted list, the primary framework is a listed framework with the highest confidence among the frameworks |
| `Ranking.InsertSplit` | src/lib/framework-detector.ts:242 | the sorted insertion puts the entry after the last entry of at least its confidence and before the trailing run of lower-confidence entries |
| `Ranking.InsertBackward` | src/lib/framework-detector.ts:242 | one round of the in-place sort leaves the first i + 1 cells as the stable insertion of cell i into the first i, and the cells after them unchanged |
| `Ranking.SortInPlace` | src/lib/framework-detector.ts:242 | the in-place insertion sort leaves the array as the stable sort of its old contents |
| `Detector.FrameworkDetector.constructor` | src/lib/framework-detector.ts:229-232 | the detector holds the given paths and manifest |
| `Detector.FrameworkDetector.CheckRule` | src/lib/framework-detector.ts:245-293 | accumulating the weights and evidence step by step gives the rule's result as specified by the signals |
| `Detector.FrameworkDetector.Detect` | src/lib/framework-detector.ts:234-243 | the result is the fired rules' results, sorted highest confidence first with ties in catalog order; it is sorted and a permutation of the collected results |
| `Detector.FrameworkDetector.GetFrameworks` | src/lib/framework-detector.ts:295-297 | the detected frameworks in detection order, sorted by confidence |
| `Detector.FrameworkDetector.GetLanguages` | src/lib/framework-detector.ts:299-301 | the detected languages in detection order, sorted by confidence |
| `Detector.FrameworkDetector.GetLibraries` | src/lib/framework-detector.ts:303-305 | the detected libraries in detection order, sorted by confidence |
| `Detector.FrameworkDetector.GetPrimaryFramework` | src/lib/framework-detector.ts:307-310 | absent exactly when no framework rule fires; otherwise a fired framework of highest confidence |
| `Detector.MultisetSameMembers` | src/lib/framework-detector.ts:242 | sorting changes no membership: lists with the same multiset have the same members |
| `Detector.DetectedEntries` | src/lib/framework-detector.ts:19-224 | every detected entry comes from a catalog rule of that name and type, has no version, and has confidence 30, 50 or 80 |
| `Detector.EmptySnapshot` | src/lib/framework-detector.ts:234-243 | no paths and no manifest: nothing is detected and there is no primary framework |
| `Detector.ViewsByType` | src/lib/framework-detector.ts:295-305 | a detected entry is in the view of its own type and in no other, so tools are in none |
| `RepositoryStructure.BlobPaths` | src/app/api/analyze/repository/route.ts:75-77 | the file list is no longer than the tree listing |
| `RepositoryStructure.BlobPathsMembers` | src/app/api/analyze/repository/route.ts:75-77 | the file list holds exactly the paths of the entries of type "blob" |
| `RepositoryStructure.BlobPathsAppend` | src/app/api/analyze/repository/route.ts:75-77 | the file list keeps the tree's order |
| `RepositoryStructure.BlobPathsAllBlobs` | src/app/api/analyze/repository/route.ts:75-77 | a listing of blobs only yields every path in order, so `totalFiles` (`files.length`, line 136) is the listing's size |
| `RepositoryStructure.TopDirectories` | src/app/api/analyze/repository/route.ts:179-186 | definition of the collected top-level directories; specified by `RepositoryStructure.TopDirectoriesMembers` |
| `RepositoryStructure.TopDirectoriesMembers` | src/app/api/analyze/repository/route.ts:181-185 | a directory is collected exactly when some path holds a `/` and that directory is the text before its first `/`; root-level paths add nothing |
| `RepositoryStructure.PrefixBeforeSeparator` | src/app/api/analyze/repository/route.ts:182-184 | two prefixes of a path that both end at a `/` and hold none are equal |
| `RepositoryStructure.GetDirectories` | src/app/api/analyze/repository/route.ts:179-189 | the result is strictly ascending (sorted, no duplicates) and holds exactly the collected top-level directories |
| `RepositoryStructure.DirectoriesIgnoreOrder` | src/app/api/analyze/repository/route.ts:179-189 | the directory list depends only on which paths are present, not on their order or repetition |
| `RepositoryStructure.Extension` | src/app/api/analyze/repository/route.ts:194 | definition of the key of one path; specified by `RepositoryStructure.ExtensionSpec` and `RepositoryStructure.ExtensionKeyShared` |
| `RepositoryStructure.Histogram` | src/app/api/analyze/repository/route.ts:191-198 | definition of the extension histogram; specified by `RepositoryStructure.HistogramKeys`, `RepositoryStructure.HistogramCounts` and `RepositoryStructure.HistogramTotal`, and met by `RepositoryStructure.GetFileTypes` |
| `RepositoryStructure.ExtensionSpec` | src/app/api/analyze/repository/route.ts:194 | a path is keyed by the non-empty text after its last `.` (the whole path when it has none); an empty path or one ending in `.` is keyed "no-extension" |
| `RepositoryStructure.ExtensionKeyShared` | src/app/api/analyze/repository/route.ts:194 | a path named `no-extension` and a path ending in `.` share one counter |
| `RepositoryStructure.Extensions` | src/app/api/analyze/repository/route.ts:193-194 | there is one key per path |
| `RepositoryStructure.GetFileTypes` | src/app/api/analyze/repository/route.ts:191-198 | bumping one counter per path gives the histogram of the paths' keys |
| `RepositoryStructure.HistogramPrefixStep` | src/app/api/analyze/repository/route.ts:195 | counting one more path bumps its key's counter, starting from 0 |
| `RepositoryStructure.HistogramKeys` | src/app/api/analyze/repository/route.ts:191-198 | the histogram's keys are exactly the paths' keys |
| `RepositoryStructure.HistogramCounts` | src/app/api/analyze/repository/route.ts:191-198 | each count is the number of paths with that key, and is at least 1 |
| `RepositoryStructure.TotalRemove` | src/app/api/analyze/repository/route.ts:191-198 | the sum of the counts can start from any key |
| `RepositoryStructure.HistogramTotal` | src/app/api/analyze/repository/route.ts:191-198 | the counts add up to the number of paths |
| `RepositoryStructure.AnalyzeStructure` | src/app/api/analyze/repository/route.ts:160-177 | `hasDockerFile`, `hasCL` and `hasTests` hold exactly when some path contains one of their case-sensitive substrings; the directories and file types are those of `getDirectories` and `getFileTypes` |
| `RepositoryStructure.AnyContainsOneOfThree` | src/app/api/analyze/repository/route.ts:163-171 | testing a path against a list of three substrings is the three-way `||` of the callbacks |
| `RepositoryStructure.ContainsPiece` | src/app/api/analyze/repository/route.ts:170 | a path that contains a string contains every piece of it |
| `RepositoryStructure.TestsFlagRedundancy` | src/app/api/analyze/repository/route.ts:169-171 | the "__tests__" alternative never changes `hasTests`, because such a path already contains "test" |
| `RepositoryStructure.NonBlankLines` | src/app/api/analyze/repository/route.ts:154 | filtering never adds lines |
| `RepositoryStructure.NonBlankLinesMembers` | src/app/api/analyze/repository/route.ts:154 | the kept lines are exactly the lines that are not all whitespace |
| `RepositoryStructure.NonBlankLinesAppend` | src/app/api/analyze/repository/route.ts:154 | filtering keeps the lines' order |
| `RepositoryStructure.RequirementLines` | src/app/api/analyze/repository/route.ts:153-155 | definition of the `requirementsTxt` field; specified by `RepositoryStructure.RequirementLinesSpec` |
| `RepositoryStructure.RequirementLinesSpec` | src/app/api/analyze/repository/route.ts:153-155 | the field is null exactly when there is no text or the text is empty; otherwise it holds exactly the non-blank lines of the text, untrimmed, none containing a line break |
| `RepositoryStructure.KeysOf` | src/app/api/analyze/repository/route.ts:149-150 | definition of `Object.keys` of a dependency object (none when it is missing); specified by `RepositoryStructure.SummaryLists` |
| `RepositoryStructure.Summarize` | src/app/api/analyze/repository/route.ts:144-152 | definition of the `packageJson` summary; specified by `RepositoryStructure.SummaryLists` |
| `RepositoryStructure.SummaryLists` | src/app/api/analyze/repository/route.ts:144-152 | the summary is null exactly without a manifest; otherwise it copies name, version and scripts, and lists each dependency name of both fields exactly once |

## Left out

- The `POST` handler and the fetching part of `analyzeTree` (`src/app/api/analyze/repository/route.ts:6-66,78-123`) are network I/O, session lookup and base64/JSON decoding. The model takes the tree listing, the parsed `package.json` and the `requirements.txt` text as inputs instead. As written, lines 79 and 103 of that file call `files.include`, which arrays do not have, so `analyzeTree` throws a `TypeError` at line 79 and the route answers with status 500 before `totalFiles`, `structure`, the `packageJson` summary or `requirementsTxt` are computed. The helpers here model what lines 125-157 would compute once that call is corrected to `includes`.
- The response assembly (`src/app/api/analyze/repository/route.ts:129-157`) is left out beyond the pieces modelled. It only places the modelled values into a JSON object.
- The key order of the `getFileTypes` object (`src/app/api/analyze/repository/route.ts:191-198`) is not modelled. A JavaScript object keeps its keys in insertion order, but the histogram is a `map<string, nat>`, which has no order. The user interface breaks ties between equal counts by that order (`src/components/repository-analyzer.tsx:329-331`).
- The `priority` and `icon` fields of a rule are not modelled, because nothing reads them.
- Regular expressions are not modelled in general. Every pattern in the catalog is an end-anchored extension, modelled as a suffix test.
- Only string values of `dependencies` and `devDependencies` are modelled. A non-string JSON value, with its own truthiness, is not.
- JavaScript object-prototype keys are not modelled. Lookups such as `deps["constructor"]` or `types["__proto__"]` are plain map lookups in the model.
- The default `sort()` compares UTF-16 code units. The model orders strings by Dafny characters (code points), which differs only for characters outside the Basic Multilingual Plane.
- `JSON.parse` results other than an object (a top-level `null`, number or array) are not modelled. A manifest is either absent or an object.
- The UI components, the authentication options and the database schema are not part of this model. They hold presentation and library wiring only.
- `Rules.Present`: its contract bounds only the length. Membership and order are stated by `RuleProperties.PresentMembers` and `RuleProperties.PresentAppend`.
