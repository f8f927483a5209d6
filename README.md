# UnityShaderStripper, modelled in Dafny

UnityShaderStripper is a Unity editor plugin that removes shader variants from a build. For every shader pass the editor compiles, a build hook runs an ordered chain of strippers over the list of compiled variants. Each stripper removes the variants it matches from the list, and the hook keeps counters and name logs.

This project models:

- the build hook (`ShaderStripperUtility`);
- the whitelist stripper, which keeps only the variants recorded in ShaderVariantCollection assets (`ShaderStripperVariantCollection`);
- the line reader for the collections' serialized text (`YamlHelper`);
- the platform stripper and the path stripper, in both their editor and runtime copies.

Files, one module each:

| file | module | models |
|---|---|---|
| `shader_types.dfy` | `ShaderTypes` | shaders, compiled variants, and the in-place variant list (`IList<ShaderCompilerData>`) |
| `sequences.dfy` | `Sequences` | subsequences, `List.Remove`, distinct elements |
| `yaml_helper.dfy` | `YamlHelper` | `Editor/YamlHelper.cs` |
| `variant_collection.dfy` | `VariantCollection` | `Editor/ShaderStripperVariantCollection.cs` |
| `stripper_utility.dfy` | `StripperUtility` | `Editor/ShaderStripperUtility.cs` |
| `platform_stripper.dfy` | `PlatformStripper` | `Editor/ShaderStripperPlatform.cs`, `Runtime/ShaderStripperPlatform.cs` |
| `path_stripper.dfy` | `PathStripper` | `Editor/ShaderStripperPath.cs`, `Runtime/ShaderStripperPath.cs` |

How the model is built:

- Loops and code that mutates state become methods: the YAML scanners, the keyword match, the backward removal walk, the stripper loop, and the log loops. Each method is proved against a function or an `ensures` that states its result.
- The classes keep their fields: the whitelist stripper (`VariantCollectionStripper`), the build hook (`StripperUtility`), editor preferences (`EditorPrefs`), and the variant list (`VariantList`).
- `VariantCollectionStripper.StripCustom` promises that the new variant list is `Strip(State(), shader, pass, old list)`. The lemmas about `Strip` then state:
  - it fails open;
  - it leaves ignored shaders alone;
  - it keeps exactly the variants whose filtered keyword multiset equals a collected one, in order;
  - it clears missing passes;
  - it clears missing shaders unless they are `Hidden/` and Hidden shaders are spared.
- `StripperUtility.OnProcessShader` promises that the list becomes `Chain(...)`, the result of running the active strippers over it. The lemmas about `Chain` say that it only removes variants, and that it calls every active stripper in order until the list is empty. `ChainStopsOnceEmpty` shows that no stripper runs after one has emptied the list. `RunStrippers` and `OnProcessShader` return the strippers they called and the list each call left as ghost results, equal to `Chain`'s.

The code has these quirks, and the model keeps them:

- The value index is found by searching for `key:` and then skipping `|key| + 2` characters, so a space is assumed after the colon. It is not found by searching for `key: `.
- The list reader stops at the first comma rather than at the end of the line.
- The list reader applies its exclude list only to the token left over at the end of the line. See Findings.

## Model

| member | source | states |
|---|---|---|
| `ShaderTypes.VariantList.RemoveAt` | Editor/ShaderStripperVariantCollection.cs:208 | removes exactly the element at index i, and the others close up in order |
| `ShaderTypes.VariantList.Clear` | Editor/ShaderStripperVariantCollection.cs:214 | the list becomes empty |
| `Sequences.RemoveFirst` | Editor/ShaderStripperVariantCollection.cs:195 | `List.Remove`: if x is present, one occurrence leaves the multiset and the length drops by one; otherwise the list is unchanged |
| `YamlHelper.ShaderVariantsEqual` | Editor/YamlHelper.cs:9-25 | the loop computes `VariantsEqual`: false for another shader or pass, for differing null-ness or for differing counts; a null-reference error when both keyword arrays are null; otherwise whether every keyword of b occurs in a |
| `YamlHelper.VariantsEqualOfPermutation` | Editor/YamlHelper.cs:11-24 | two keyword lists that are permutations of each other compare equal |
| `YamlHelper.VariantsEqualIgnoresOrder` | Editor/YamlHelper.cs:11-24 | permuting either keyword list never changes the answer |
| `YamlHelper.VariantsEqualExactWithoutDuplicates` | Editor/YamlHelper.cs:11-24 | without duplicate keywords, the test is exactly multiset equality, in both directions |
| `YamlHelper.VariantsEqualNotSymmetric` | Editor/YamlHelper.cs:14-23 | with a duplicate, [A, B] accepts [A, A] but [A, A] rejects [A, B] |
| `YamlHelper.GetYamlIndent` | Editor/YamlHelper.cs:27-34 | the index of the first character that is neither a space nor a dash; 0 when there is none |
| `YamlHelper.IsYamlLineNewEntry` | Editor/YamlHelper.cs:35-45 | true iff the line is zero or more spaces followed by a dash |
| `YamlHelper.IndexOfFromFindsFirst` | Editor/YamlHelper.cs:49 | ordinal `IndexOf` finds the first occurrence at or after the start, and -1 means there is none |
| `YamlHelper.GetIndexOfYamlValue` | Editor/YamlHelper.cs:47-56 | the value index is -1 or at least the key's length plus 2 |
| `YamlHelper.IndexOfYamlValueLocatesKey` | Editor/YamlHelper.cs:47-56 | -1 iff `key:` does not occur; otherwise `key:` first occurs at the value index minus the key's length plus 2 |
| `YamlHelper.IndexOfYamlValuePastEnd` | Editor/YamlHelper.cs:53 | `key:` at the very end of a line puts the value index at the line's length plus 1 |
| `YamlHelper.YamlLineHasKey` | Editor/YamlHelper.cs:58-61 | a line has the key iff `key:` occurs in it |
| `YamlHelper.ValueFromYaml` | Editor/YamlHelper.cs:63-79 | "" without the key; otherwise the longest delimiter-free prefix of the text from the value index |
| `YamlHelper.GetValueFromYaml` | Editor/YamlHelper.cs:63-79 | the scan loop returns `ValueFromYaml` |
| `YamlHelper.TokenLengthUnique` | Editor/YamlHelper.cs:72-77 | the scalar's length is the only cut point before the first delimiter |
| `YamlHelper.GetValuesFromYaml` | Editor/YamlHelper.cs:81-128 | the loop returns `ValuesFromYaml`: an error without the key; otherwise the text up to the first comma, split on spaces, with the trailing token dropped when it is empty or excluded and no comma ended the text |
| `YamlHelper.ScanValues` | Editor/YamlHelper.cs:88-117 | the scan stops at the first comma after the value index, and the closed tokens plus the open one are the space-split of the text scanned |
| `YamlHelper.SplitJoin` | Editor/YamlHelper.cs:101-116 | splitting after joining delimiter-free tokens gives the tokens back |
| `YamlHelper.JoinSplit` | Editor/YamlHelper.cs:101-116 | joining the tokens of a split gives the text back |
| `YamlHelper.SplitAround` | Editor/YamlHelper.cs:101-116 | a delimiter splits the text into the tokens of either side |
| `YamlHelper.EmptyTokenBetweenDelimiters` | Editor/YamlHelper.cs:101-116 | two spaces in a row produce an empty token |
| `YamlHelper.SplitNoDelimiter` | Editor/YamlHelper.cs:101-116 | no token holds the delimiter |
| `YamlHelper.SplitCharsFromInput` | Editor/YamlHelper.cs:101-116 | every character of every token comes from the text |
| `YamlHelper.ValuesFailIffKeyAbsent` | Editor/YamlHelper.cs:83-87 | the list reader fails exactly when the line lacks `key:` |
| `YamlHelper.ValuesHaveNoDelimiters` | Editor/YamlHelper.cs:90-117 | no token returned holds a space or a comma |
| `YamlHelper.ValuesReassemble` | Editor/YamlHelper.cs:88-127 | joining all the tokens by spaces gives the text up to the first comma; the result is all tokens, or all but an empty or excluded trailing one when no comma ended the text |
| `YamlHelper.ExcludeFiltersOnlyTrailingToken` | Editor/YamlHelper.cs:107-126 | `keywords: A B` with A and B excluded gives [A] |
| `YamlHelper.CorrectedValuesFailLikeCode` | Editor/YamlHelper.cs:83-87 | the corrected reader fails on the same lines as the code |
| `YamlHelper.CorrectedValuesSkipExcluded` | Editor/YamlHelper.cs:107-126 | the corrected reader returns exactly the split tokens that are not excluded, minus an empty trailing token when no comma ended the text |
| `YamlHelper.CorrectedAgreesWithoutExcludes` | Editor/YamlHelper.cs:119-126 | with nothing excluded, the corrected reader and the code agree |
| `YamlHelper.CorrectedExcludesEveryToken` | Editor/YamlHelper.cs:107-126 | `keywords: A B` with A and B excluded gives [] |
| `VariantCollection.ExcludeListContents` | Editor/ShaderStripperVariantCollection.cs:54-60 | the exclude list holds the three VR keywords when VR variants are allowed, then `INSTANCING_ON` when instanced variants are allowed, and nothing else |
| `VariantCollection.DropExcluded` | Editor/ShaderStripperVariantCollection.cs:159-171 | filtering never lengthens the keyword list |
| `VariantCollection.DropExcludedAppend` | Editor/ShaderStripperVariantCollection.cs:159-171 | filtering distributes over concatenation |
| `VariantCollection.DropExcludedMembership` | Editor/ShaderStripperVariantCollection.cs:159-171 | a keyword survives filtering iff it was present and is not excluded |
| `VariantCollection.DropExcludedMultiplicity` | Editor/ShaderStripperVariantCollection.cs:159-171 | a keyword that is not excluded keeps its multiplicity; an excluded one ends with none |
| `VariantCollection.OrdinalTotal` | Editor/ShaderStripperVariantCollection.cs:193 | `string.CompareOrdinal` orders any two strings |
| `VariantCollection.InsertOrdinal` | Editor/ShaderStripperVariantCollection.cs:193 | insertion adds exactly x and keeps a sorted list sorted |
| `VariantCollection.SortOrdinal` | Editor/ShaderStripperVariantCollection.cs:191-193 | the sorted list is an ordinal-sorted permutation of the collected keywords |
| `VariantCollection.KeywordCountMismatchNeverMatches` | Editor/ShaderStripperVariantCollection.cs:182 | lists of different lengths never hold the same keywords |
| `VariantCollection.FilterExcluded` | Editor/ShaderStripperVariantCollection.cs:155-171 | the kept keywords are `DropExcluded` of the variant's keywords |
| `VariantCollection.KeywordsMatch` | Editor/ShaderStripperVariantCollection.cs:178-202 | the match succeeds iff the requested and collected keywords are equal as multisets |
| `VariantCollection.RemoveEach` | Editor/ShaderStripperVariantCollection.cs:194-202 | for equal lengths, removing each collected keyword leaves nothing iff the multisets are equal |
| `VariantCollection.AnyCollectedMatches` | Editor/ShaderStripperVariantCollection.cs:176-203 | true iff some collected variant of the pass has the same keyword multiset |
| `VariantCollection.VariantMatches` | Editor/ShaderStripperVariantCollection.cs:155-203 | the per-variant test is `MatchesCollected` of its filtered keywords |
| `VariantCollection.KeepMatching` | Editor/ShaderStripperVariantCollection.cs:151-210 | the backward walk leaves exactly `Survivors` of the old list |
| `VariantCollection.SurvivorsAreMatchingSubsequence` | Editor/ShaderStripperVariantCollection.cs:151-210 | the survivors are a subsequence of the variants, and a variant is among them iff it matches a collected variant |
| `VariantCollection.ExcludedKeywordIsTransparent` | Editor/ShaderStripperVariantCollection.cs:162-167 | adding an excluded keyword to a variant never changes whether it survives |
| `VariantCollection.KeywordOrderIsIrrelevant` | Editor/ShaderStripperVariantCollection.cs:176-203 | a variant's keyword order never changes whether it survives |
| `VariantCollection.StripFailsOpen` | Editor/ShaderStripperVariantCollection.cs:109 | without a usable whitelist, nothing is stripped |
| `VariantCollection.StripLeavesIgnoredAlone` | Editor/ShaderStripperVariantCollection.cs:111-141 | built-in shaders, ignored names and passes, and no-keyword shaders (by file id for the built-in GUID, else by GUID) are untouched |
| `VariantCollection.StripFoundPassKeepsExactlyMatches` | Editor/ShaderStripperVariantCollection.cs:145-210 | for a collected pass, the result is the in-order subsequence of exactly the matching variants |
| `VariantCollection.StripMissingPassClears` | Editor/ShaderStripperVariantCollection.cs:211-215 | a collected shader without the pass loses every variant |
| `VariantCollection.StripMissingShader` | Editor/ShaderStripperVariantCollection.cs:216-223 | an uncollected shader loses every variant, unless it is `Hidden/` and Hidden shaders are spared |
| `VariantCollection.StripOnlyRemoves` | Editor/ShaderStripperVariantCollection.cs:107-226 | the result is always a subsequence of the input |
| `VariantCollection.ScenarioKeepsReordered` | Editor/ShaderStripperVariantCollection.cs:145-210 | when {A, B} is collected for pass 0, the variant (B, A) of pass 0 is kept |
| `VariantCollection.ScenarioStripsPartial` | Editor/ShaderStripperVariantCollection.cs:180-206 | the variant {A} of the same pass is stripped |
| `VariantCollection.ScenarioStripsOtherPass` | Editor/ShaderStripperVariantCollection.cs:211-215 | every variant of pass 1 is stripped |
| `VariantCollection.ScenarioStripsUncollectedShader` | Editor/ShaderStripperVariantCollection.cs:216-223 | every variant of another shader that is not `Hidden/` is stripped |
| `VariantCollection.ExcludeBuffer.constructor` | Editor/ShaderStripperVariantCollection.cs:41 | the shared exclude list starts empty |
| `VariantCollection.VariantCollectionStripper.constructor` | Editor/ShaderStripperVariantCollection.cs:15-42 | stores the serialized settings; starts with no lists, an empty catalog, and not valid |
| `VariantCollection.VariantCollectionStripper.Initialize` | Editor/ShaderStripperVariantCollection.cs:47-100 | the shared exclude list becomes `ExcludeList` of the two options; the catalog and the no-keyword lists are stored; valid iff the catalog is non-null and non-empty |
| `VariantCollection.VariantCollectionStripper.StripCustom` | Editor/ShaderStripperVariantCollection.cs:107-226 | always returns true; the variant list becomes `Strip` of the stripper's state and the old list |
| `StripperUtility.EnabledSettingIsStable` | Editor/ShaderStripperUtility.cs:42-53 | after GetEnabled the flag is stored, no other key changes, and asking again changes nothing |
| `StripperUtility.GetEnabled` | Editor/ShaderStripperUtility.cs:42-53 | returns the stored flag, or stores and returns true when there is none |
| `StripperUtility.InsertByOrder` | Editor/ShaderStripperUtility.cs:69 | insertion adds exactly x |
| `StripperUtility.SortByOrder` | Editor/ShaderStripperUtility.cs:69 | the sort is a permutation |
| `StripperUtility.InsertByOrderSorted` | Editor/ShaderStripperUtility.cs:69 | insertion keeps an ordered list ordered |
| `StripperUtility.SortByOrderSorted` | Editor/ShaderStripperUtility.cs:69 | `OrderBy` returns a permutation sorted by `_order` |
| `StripperUtility.InsertByOrderStable` | Editor/ShaderStripperUtility.cs:69 | insertion keeps the relative order of strippers sharing an order |
| `StripperUtility.SortByOrderIsStable` | Editor/ShaderStripperUtility.cs:69 | `OrderBy` is stable: strippers with equal `_order` keep their list order |
| `StripperUtility.SortByOrderOfSorted` | Editor/ShaderStripperUtility.cs:69 | a list already in order is returned unchanged |
| `StripperUtility.Renumbered` | Editor/ShaderStripperUtility.cs:71-76 | renumbering keeps the length |
| `StripperUtility.RenumberedProperties` | Editor/ShaderStripperUtility.cs:71-76 | each stripper's order becomes its position; every other field is kept; the result is ordered |
| `StripperUtility.SortedSettingsIdempotent` | Editor/ShaderStripperUtility.cs:67-77 | a second SortSettings changes nothing |
| `StripperUtility.KeepIsSubsequence` | Editor/ShaderStripperUtility.cs:200 | one stripper only removes variants |
| `StripperUtility.ChainIsSubsequence` | Editor/ShaderStripperUtility.cs:196-202 | the chain only removes variants and keeps the rest in order |
| `StripperUtility.ChainInvokesActiveInOrder` | Editor/ShaderStripperUtility.cs:196-202 | the strippers called are a prefix of the active ones, in order; all of them when variants remain; fewer only when the list became empty |
| `StripperUtility.ChainStopsOnceEmpty` | Editor/ShaderStripperUtility.cs:196-202 | each call's result is recorded; every call but the last leaves variants, so no stripper runs after the list becomes empty; the final list is what the last call left, or the input when none ran |
| `StripperUtility.ChainEachCallStripsPrevious` | Editor/ShaderStripperUtility.cs:196-202 | the first call strips the input, and each later call strips exactly the list the previous call left |
| `StripperUtility.ChainOnlyRemoves` | Editor/ShaderStripperUtility.cs:196-202 | the chain never lengthens the list or adds a variant |
| `StripperUtility.RunStrippers` | Editor/ShaderStripperUtility.cs:196-202 | the loop, with its `continue` and `break`, leaves `Chain` of the old list; the strippers it called and the list each call left are `Chain`'s, so by `ChainStopsOnceEmpty` it stops once a call empties the list |
| `StripperUtility.AddAllAbsentAppend` | Editor/ShaderStripperUtility.cs:175-178 | adding two batches of names is adding them one after the other |
| `StripperUtility.AddAllAbsentProperties` | Editor/ShaderStripperUtility.cs:175-178 | the log only grows at its end, gains no duplicates, and holds exactly the old and the new names |
| `StripperUtility.FlattenMembers` | Editor/ShaderStripperUtility.cs:170-192 | a name is among the flattened names iff some variant has it |
| `StripperUtility.FlattenOfMembers` | Editor/ShaderStripperUtility.cs:236-256 | the names of surviving variants are among the names of all the variants |
| `StripperUtility.RecordNames` | Editor/ShaderStripperUtility.cs:170-192 | the nested loops add every name of every variant that the log lacks, in order |
| `StripperUtility.RecordVariantNames` | Editor/ShaderStripperUtility.cs:172-179 | the inner loop adds one variant's names |
| `StripperUtility.DifferenceProperties` | Editor/ShaderStripperUtility.cs:123-139 | the stripped names are the names of all that kept lacks; they have no duplicates when all has none |
| `StripperUtility.StrippedNames` | Editor/ShaderStripperUtility.cs:123-139 | the loop computes `Difference` |
| `StripperUtility.StrippedAndKeptPartitionAll` | Editor/ShaderStripperUtility.cs:123-139 | when kept lies within all, the kept and stripped names split all with no overlap |
| `StripperUtility.KeptLinesShape` | Editor/ShaderStripperUtility.cs:204-234 | per call, nothing is logged without survivors; otherwise one pass line, then with deep logs one detail line per survivor in order |
| `StripperUtility.RecordKeptNames` | Editor/ShaderStripperUtility.cs:236-256 | both kept-name logs gain the survivors' names |
| `StripperUtility.KeptLogStaysInsideSeenLog` | Editor/ShaderStripperUtility.cs:168-256 | every kept name stays among the seen names across one OnProcessShader |
| `StripperUtility.StripperUtility.constructor` | Editor/ShaderStripperUtility.cs:23-35 | empty logs, zero counts, disabled |
| `StripperUtility.StripperUtility.SortSettings` | Editor/ShaderStripperUtility.cs:67-77 | the strippers become `SortedSettings` of the old ones; nothing else changes |
| `StripperUtility.StripperUtility.OnPreprocessBuild` | Editor/ShaderStripperUtility.cs:78-109 | reads the log path and the flag; when enabled, the kept log restarts with its header and the strippers are the found ones, sorted and renumbered |
| `StripperUtility.StripperUtility.RecordSeen` | Editor/ShaderStripperUtility.cs:164-193 | the raw count grows by the list length; with deep logs, the all-names logs gain the variants' names and still hold no name twice |
| `StripperUtility.StripperUtility.RecordKept` | Editor/ShaderStripperUtility.cs:204-256 | with survivors, the kept count grows by their number, their lines are logged, and with deep logs the kept-name logs gain their names; the invariant is kept: kept count at most the raw count, kept names among all names, and no name log holding a name twice |
| `StripperUtility.StripperUtility.OnProcessShader` | Editor/ShaderStripperUtility.cs:161-260 | does nothing when disabled; otherwise the list becomes `Chain` of the old list, the strippers called and the lists they left are `Chain`'s, so none runs after the list is empty, and the counters and logs advance as stated; the invariant is preserved: kept count at most the raw count, kept names among all names, and no duplicate in any name log, so it holds after any sequence of calls |
| `StripperUtility.StripperUtility.Report` | Editor/ShaderStripperUtility.cs:117-146 | the summary reports the kept count, the raw count minus the kept count, the logs, and the names never kept |
| `StripperUtility.StripperUtility.OnPostprocessBuild` | Editor/ShaderStripperUtility.cs:111-158 | when enabled, reports and then clears the kept log, kept count and name logs; the raw count is not reset |
| `PlatformStripper.MatchVariant` | Editor/ShaderStripperPlatform.cs:20-23 | a blacklist matches exactly the listed platforms, and a whitelist exactly the unlisted ones |
| `PlatformStripper.ModesAreComplementary` | Runtime/ShaderStripperPlatform.cs:25-28 | switching between whitelist and blacklist inverts every answer |
| `PlatformStripper.MatchDependsOnPlatformSetOnly` | Editor/ShaderStripperPlatform.cs:21 | only the variant's platform and the set of listed platforms decide |
| `PlatformStripper.EmptyPlatformList` | Runtime/ShaderStripperPlatform.cs:26-27 | with no platforms listed, a blacklist matches nothing and a whitelist matches everything |
| `PathStripper.MatchShader` | Editor/ShaderStripperPath.cs:17-24 | the loop returns the as-written answer |
| `PathStripper.MatchShaderIgnoresBlacklist` | Runtime/ShaderStripperPath.cs:20-27 | as written, a shader matches iff its asset path is non-empty, whatever the blacklist holds |
| `PathStripper.UnlistedPathMatches` | Editor/ShaderStripperPath.cs:23 | a path that no pattern accepts still matches |
| `PathStripper.MatchShaderCorrected` | Editor/ShaderStripperPath.cs:17-24 | the loop with `return false` after it returns the intended answer |
| `PathStripper.MatchShaderIntendedProperties` | Runtime/ShaderStripperPath.cs:20-27 | the corrected matcher never matches built-in shaders, matches every accepted path, matches nothing with an empty blacklist, and differs from the code exactly on non-empty paths that no pattern accepts |

## Left out

- ShaderStripperUtility.ParseShaderVariantCollections is not part of this model. Initialize takes the catalog it would return (None for null) and the two no-keyword lists it fills in as inputs.
- ShaderStripperBase is not part of this model, so these are abstracted:
  - `Strip` is a keep mask chosen by the given `StripEffect`;
  - `StringMatch.Evaluate` is a predicate on strings;
  - `GetKeywordName` is the identity, because variants carry keyword names.
- The platform and path strippers' MatchVariant and MatchShader are modelled as the answers they return. How ShaderStripperBase turns a match into a removal is not part of this model.
- Unity calls are parameters or fields:
  - `AssetDatabase.GetAssetPath` and `TryGetGUIDAndLocalFileIdentifier` are given as fields of `Shader`, and a failed lookup is not modelled;
  - `AssetDatabase.FindAssets` and loading are the `found` list of OnPreprocessBuild;
  - `SerializedObject` is the `order` field of `Stripper`.
- Each active stripper's `Initialize`, and `ShaderStripperBase.OnPreBuild` and `OnPostBuild`, are calls into code not shown. Writing the log files is left out too: OnPostprocessBuild returns the summary it would hand over.
- Debug logging, the `LogMessage` and `LogRemoval` text, the format of the log lines, and the stopwatches are left out. Elapsed times are not modelled.
- Platform keywords are compared by name: `BuiltinShaderDefine` values and their names are one list here, so `_allPlatformKeywords` and `_allPlatformKeywordNames` collapse into one log. The same holds for the kept lists.
- The graphics tier and shader requirements on a kept-variant detail line are not modelled. The line carries the variant record.
- `StripperUtility.RecordKept`: the per-variant deep-log loop is modelled as whole-list appends, first the detail lines and then the names. The resulting state is the same as the interleaved loop.
- The setting fields are static in the source; here they are fields of one object. `_deepLogs` is set outside the file shown, so the model takes it as a constructor argument. The exclude list shared by all whitelist strippers is one shared `ExcludeBuffer` object.
- `IList.Count` and `EditorPrefs.GetString` are library calls. `VariantList.Count` and `EditorPrefs.GetString` stand in for them and are not model members.
- StripperUtility.StripperUtility.OnProcessShader: `rawCount` and `keptCount` are unbounded naturals. The source's `_rawCount` and `_keptCount` are 32-bit `int`s (Editor/ShaderStripperUtility.cs:30), and `_rawCount` is never reset between builds (:164), so it can wrap past 2^31-1. The invariant `keptCount <= rawCount`, and the non-negative stripped count in `Report`, hold only while no wrap-around occurs.
- YamlHelper: Dafny strings are indexed by Unicode scalar value, while C# strings are indexed by UTF-16 code unit. The `+ 2` skip in GetIndexOfYamlValue, and every index and length in the YAML readers, agree with the source only on text within the Basic Multilingual Plane.
- VariantCollection.IsHidden: `shader.name.StartsWith("Hidden/")` (Editor/ShaderStripperVariantCollection.cs:219) compares under the current culture in .NET. The model uses an ordinal prefix test, which can differ for culture-specific characters.
- Null lists are not modelled, apart from keyword arrays in ShaderVariantsEqual and the catalog in Initialize.
- The GUI, the merge and material tools, and the config are outside the modelled core.

## Findings

| source | as written | input that shows it | evidently intended | confidence | as-written member | corrected member |
|---|---|---|---|---|---|---|
| Editor/ShaderStripperPath.cs:23 | after the blacklist loop, MatchShader returns true, and the Runtime copy does the same at Runtime/ShaderStripperPath.cs:26 | asset path `Assets/Water.shader` with a blacklist whose only pattern accepts nothing: matches | return false, so that only blacklisted paths match | high; not executed | `PathStripper.UnlistedPathMatches` | `PathStripper.MatchShaderCorrected` |
| Editor/YamlHelper.cs:107-126 | GetValuesFromYaml tests `exclude` only for the token left over at the end of the line; tokens closed by a space or a comma are always added | line `keywords: A B`, key `keywords`, exclude [A, B]: returns [A] | every excluded token is dropped | medium; not executed | `YamlHelper.ExcludeFiltersOnlyTrailingToken` | `YamlHelper.CorrectedValuesSkipExcluded` |
