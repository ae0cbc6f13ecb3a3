# Folder matching and relocation engine, in Dafny

This project models the core of a mod manager that sorts downloaded mod folders into a
game's character folders. For every source folder the matcher picks a destination in up
to three tiers:

1. a direct match of the normalised name (confidence 100);
2. a match found inside the folder's contents (confidence 95);
3. a fuzzy match over fixed-width crops of the name (its similarity score), or
   "Not Found" with confidence 0.

Each result is then put in a HIGH, MEDIUM or LOW confidence band. The relocation step:

- marks each source folder as disabled by giving its name the "DISABLED " prefix;
- moves the folder into `<destination root>/<matched name>/`;
- reports every folder as moved, failed or duplicate.

The settings dialog checks the extension list and the confidence thresholds,
de-duplicates aliases and guards the rows added to its alias and destination tables.

Modules:

- `PyStr` (`pystr.dfy`): the Python `str` operations the code uses (`lower`, `strip`,
  `replace`, `split`, `join`, `title`, `in`, `isdigit`), and a first-index search.
- `Paths` (`paths.dfy`): POSIX `os.path.join`, `basename` and `dirname`.
- `Normalizer` (`normalizer.dfy`): `normalize_folders` and `apply_aliases`.
- `Matcher` (`matcher.dfy`): `partial_match`, the three tiers, `crop_text_to_length`
  and `get_matching_weight`.
- `Categorizer` (`categorizer.dfy`): `MatchResult` and `process_match_to_categorized`.
- `FileSystem` (`filesystem.dfy`): the file system as a set of directory paths and a
  set of file paths. A `Disk` class holds them, and its methods are the wrappers of
  `modules/utils/folder_utils.py`.
- `FolderManagement` (`folder_management.dfy`):
  - the source-folder listing;
  - the destination lookup;
  - the disable pass (`add_prefix_disabled_folders`);
  - the move pass (`process_folder`).
- `Settings` (`settings.dfy`): `validate_extensions`, the threshold checks and alias
  de-duplication of `save_combined_settings`, and the add-row guards. It also has a
  `SettingsForm` class whose fields are the two tables and the four entry fields.

Foreign and I/O calls are parameters:

- `unidecode` is a function `translit` in `MatchConfig`.
- `fuzz.ratio` is a function `ratio` returning a `Score`, a real in [0, 100].
- `os.walk` below a source folder is a function `tree` from the path to a list of
  entries. Each entry gives the depth it was listed at, its name, and whether it is a
  directory.
- `os.listdir` is a `listing` argument, `None` when the call fails.
- Whether `os.rename` and `shutil.move` succeed is decided by an oracle `Os`, after the
  refusals the model states itself (a missing source, a target that already exists).

Python dictionaries are sequences of key/value pairs in insertion order. Assigning to an
existing key keeps its position and replaces its value.

Behaviours of the code worth noting; the model follows the code:

- The disable pass renames the source folders being moved. It does not rename folders
  already sitting in the destination.
- Only "DISABLED_", "DISABLED-" and a case-insensitive "disabled " are recognised as
  existing prefixes, so "disabled_x" becomes "DISABLED disabled_x"
  (`FolderManagement.DisabledNameLowerUnderscore`).
- Crops have width `len(destination) + 1`. A name exactly as long as a destination
  therefore gives that destination no crop, and its fuzzy score is 0.
- Tier 1 runs only when the raw basename is at least as long as the shortest
  destination name.
- `process_folder` zips `None` when the disable pass stops. Python raises at that point;
  the model returns `None`.
- `process_match_to_categorized` returns an empty dict (`{}`) on its early exits and a
  list otherwise. The model returns an empty sequence in both cases.
- `shutil.move` moves into an existing destination directory (`dst/basename(src)`) and
  refuses when that path exists. A directory never replaces a file: `os.rename` raises,
  and so does the copy fallback. When source and destination are the same directory, the
  disk is left as it is. `FileSystem.MoveStep` and `FileSystem.RenameStep` model these
  cases.
- A name whose only dots lead it, such as ".gitignore", has no extension for
  `os.path.splitext` (`Matcher.SplitextRoot`).
- The file test treats a missing or empty `'extensions'` entry as the one extension `""`.
  Every file name ends with it, so every file is checked (`Matcher.EmptyExtensionsListAll`).

## Model

| member | source | states |
|---|---|---|
| Normalizer.NormalizeFolders | modules/folder_matching.py:315-335 | the result is one entry keyed by the input path. It keeps the raw basename, and its name is the basename transliterated, lower-cased, stripped, cleared of each lower-cased skip word in list order, cleared of digits when asked (unless all digits), with `_`/`-` turned into spaces, whitespace collapsed, then title-cased. That name has no `_` or `-` and is single-spaced with no space at either end |
| Normalizer.NormalizeNameShape | modules/folder_matching.py:320-333 | the normalised name has no `_` or `-`, and its words are separated by single spaces with none at either end. When digits are dropped and the skip-word result is not all digits, it has no digit |
| Normalizer.NormalizeNameIdempotent | modules/folder_matching.py:315-335 | normalising a normalised name again gives it back, whenever the transliteration, the skip words and the digit rule leave that name alone |
| Normalizer.TidyOfTitled | modules/folder_matching.py:330-333 | the separator, collapse and title steps give back a title-cased, single-spaced name without `_` or `-` after it is lower-cased |
| PyStr.CollapseOfWellSpaced | modules/folder_matching.py:332 | `" ".join(s.split())` leaves a single-spaced string with no space at either end unchanged |
| PyStr.TitleLowerTitle | modules/folder_matching.py:333 | title-casing a lower-cased title-cased string gives the same string |
| Normalizer.ApplyAliases | modules/folder_matching.py:337-355 | an empty alias table returns the map unchanged. Otherwise every entry keeps its path and original name, and its normalised name becomes the target of the first alias key (in table order) found in it ignoring case, or stays as it is |
| Normalizer.FirstAliasIsFirstMatch | modules/folder_matching.py:346-351 | no alias is found exactly when no key occurs in the lower-cased name. A found alias is the value of the first key that does occur, with no earlier key occurring |
| Normalizer.ResolveAliasNoMatch | modules/folder_matching.py:352-353 | when no alias key occurs in the name, the name is kept |
| Matcher.PartialMatchOne | modules/folder_matching.py:358-368 | against one destination, the match holds exactly when the squashed source (spaces removed, lower-cased) is at least as long as the squashed destination and contains it |
| Matcher.FindFolderNameMatch | modules/folder_matching.py:136-153 | the basename is normalised and its aliases applied. The destination returned is the first that this name partially matches, and `None` is returned exactly when it matches none |
| Matcher.FirstPartialMatch | modules/folder_matching.py:149-153 | the destination returned is the first one the name partially matches. `None` is returned exactly when it matches none |
| Matcher.FolderInSubfoldersExists | modules/folder_matching.py:184-216 | the sub-folder test holds exactly when some directory entry at depth at most 5 equals the destination ignoring case, or whose resolved name does, or whose resolved name partially matches it |
| Matcher.FileInSubfoldersExists | modules/folder_matching.py:218-257 | the file test holds exactly when the extension table is non-empty and some file at depth at most 5 ends with a listed extension and either has the destination in its root name, ignoring case, or has a resolved name that partially matches it |
| Matcher.EmptyExtensionsListAll | modules/folder_matching.py:227-238 | with no `'extensions'` entry, or an empty one, the list of extensions is `[""]` and every file name passes the extension test |
| Matcher.LastDot | modules/folder_matching.py:242 | the position of the last '.' in the name, with no '.' after it. `None` exactly when the name has no '.' |
| Matcher.SplitextRoot | modules/folder_matching.py:242 | `os.path.splitext(f)[0]` is a prefix of the name. It is shorter exactly when some '.' follows a character other than '.'; then it ends just before the last '.' and still holds a non-dot character. A name such as ".gitignore" or "..x" is kept whole |
| Matcher.FindContentMatch | modules/folder_matching.py:156-182 | the destination returned is the first whose sub-folder test or file test holds. `None` is returned exactly when none has a hit |
| Matcher.CropText | modules/folder_matching.py:310-312 | the result holds max(0, len−k+1) crops, and the i-th is text[i..i+k) of length k |
| Matcher.MaxRatio | modules/folder_matching.py:277-281 | no crop's ratio exceeds the result. Without crops the result is 0; otherwise some crop reaches it |
| Matcher.LongDestinationScoresZero | modules/folder_matching.py:276 | a destination at least as long as the name has no crop and scores 0 |
| Matcher.CropScanIsMax | modules/folder_matching.py:277-281 | scanning one destination's crops with a strict `>` amounts to comparing their maximum once |
| Matcher.ScanBestIsMax | modules/folder_matching.py:272-281 | the kept score is at least every destination's score. No destination is kept exactly when that score is 0 |
| Matcher.ScanBestKeepsFirst | modules/folder_matching.py:275-281 | the kept destination is the first to reach the kept score, and every earlier destination scores strictly less |
| Matcher.FuzzyBestIsFirstMax | modules/folder_matching.py:259-286 | the fuzzy tier's score is the maximum over all destinations and crops. On ties the earliest destination wins, and no destination is kept exactly when the maximum is 0 |
| Matcher.ScanCrops | modules/folder_matching.py:277-281 | the inner loop leaves the best pair as one comparison with the maximum crop ratio would |
| Matcher.ScanDestinations | modules/folder_matching.py:272-281 | the nested loops leave the best destination and score of the left-to-right scan |
| Matcher.FindFuzzyMatch | modules/folder_matching.py:259-286 | the result is the kept destination, or "Not Found", together with the best score for the resolved basename |
| Matcher.MinLength | modules/folder_matching.py:113 | the result is the shortest destination length: no longer than any destination, and equal to one |
| Matcher.MatchSource | modules/folder_matching.py:108-132 | the tuple for one source is the one its tiers decide (tier-gating lemma below) |
| Matcher.GetMatchingWeight | modules/folder_matching.py:93-134 | one tuple per source path, in input order, each the one its tiers decide |
| Matcher.MatchOneTiers | modules/folder_matching.py:113-132 | every tuple keeps its source path and has one of four shapes:<br>• (the first destination the resolved name partially matches, 100, direct), only when the basename is at least the shortest destination length;<br>• (the first destination with a content hit, 95, content), only when tier 1 found nothing;<br>• (the fuzzy tier's kept destination, its positive best score, fuzzy), only when tiers 1 and 2 found nothing; no destination's fuzzy score exceeds it;<br>• ("Not Found", 0, no match), only when tiers 1 and 2 found nothing and every destination's fuzzy score is 0 |
| Matcher.ShortNameSkipsTierOne | modules/folder_matching.py:113-114 | a basename shorter than every destination never gets a direct match |
| Categorizer.Get | modules/folder_matching.py:31-32 | a missing threshold key reads as the default and a present key as its value |
| Categorizer.Categorize | modules/folder_matching.py:74-79 | HIGH iff confidence ≥ high. MEDIUM iff medium ≤ confidence < high. LOW iff the confidence is below both |
| Categorizer.Categorized | modules/folder_matching.py:82-88 | the result copies the path, destination, confidence and reason of its tuple, and its category depends on the confidence alone |
| Categorizer.CategorizeAll | modules/folder_matching.py:70-91 | one result per tuple, in order, each the categorised tuple |
| Categorizer.ProcessMatchToCategorized | modules/folder_matching.py:18-91 | the result is empty when the source root is empty, the source list is empty or the destination listing is empty. Otherwise there is one result per source folder, in order: the categorised tier tuple under the HIGH_CONFIDENCE and MEDIUM_CONFIDENCE thresholds (0 when missing) |
| Categorizer.CategorizeMonotone | modules/folder_matching.py:74-79 | a higher confidence never gets a lower band |
| Categorizer.MediumNeedsOrderedThresholds | modules/folder_matching.py:74-77 | MEDIUM occurs only when the medium threshold is below the high one |
| Categorizer.MissingThresholdsAllHigh | modules/folder_matching.py:31-32 | with no thresholds configured every result is HIGH |
| Categorizer.TierBands | modules/folder_matching.py:74-79 | direct and content matches are HIGH under any high threshold up to 95. A no-match result is LOW whenever both thresholds are positive |
| FileSystem.RenameStep | modules/utils/folder_utils.py:36-48 | a rename succeeds iff the old path is a directory, the new path is not a file, and the OS allows it. Then the directory is at the new path, the old path is gone and nothing else changes; otherwise nothing changes |
| FileSystem.MoveStep | modules/utils/folder_utils.py:21-34 | a move refuses a source that is not a directory. A move of a directory onto itself changes nothing and reports what the OS reports. Into another existing directory it targets `dst/basename(src)`, and otherwise `dst` itself. It refuses when that target already exists, as a directory or as a file. On success the directory is at the target and nothing else changes; on failure nothing changes |
| FileSystem.FoldersInMembers | modules/utils/folder_utils.py:11-19 | a name is listed exactly when `os.listdir` returned it and it names a directory under the path. A failed listing gives no names |
| FileSystem.Disk.CheckDirectoryExists | modules/utils/folder_utils.py:5-9 | false for a non-string, otherwise whether the path is a directory |
| FileSystem.Disk.PathExists | modules/folder_management.py:97 | whether the path is a directory or a file |
| FileSystem.Disk.RenameFolder | modules/utils/folder_utils.py:36-48 | the result and the new state are those of `RenameStep` |
| FileSystem.Disk.MoveFolder | modules/utils/folder_utils.py:21-34 | the result and the new state are those of `MoveStep` |
| FileSystem.Disk.ListFoldersInDirectory | modules/utils/folder_utils.py:11-19 | the names `os.listdir` returned, in order, that name directories |
| FolderManagement.SourceFolders | modules/folder_management.py:36-39 | every kept pair is (name, join(root, name)) with a name ending neither ".extracted" nor ".temp" |
| FolderManagement.SourceFoldersMembers | modules/folder_management.py:22-41 | a name is offered exactly when it was listed and is not excluded |
| FolderManagement.ListAvailableGameFolders | modules/folder_management.py:11-19 | `None` exactly for a non-string root, otherwise the directories listed under it |
| FolderManagement.ListAvailableSourceFolders | modules/folder_management.py:22-41 | `None` exactly for a non-string argument, otherwise the (name, path) pairs of the listed directories, in order, without the excluded names |
| FolderManagement.CheckAndDetermineDestinationFolder | modules/folder_management.py:59-75 | a value is returned only for the first key equal to the name ignoring case, and only when it is not "Not Set". `None` comes exactly when no key matches or the first matching key maps to "Not Set" |
| FolderManagement.DisabledNamePrefixed | modules/folder_management.py:119-130 | every computed name starts with "DISABLED " |
| FolderManagement.DisabledNameFixedPoint | modules/folder_management.py:119-122 | a name is kept exactly when it already starts with "DISABLED " |
| FolderManagement.DisabledNameIdempotent | modules/folder_management.py:119-130 | applying the rule to its own output changes nothing |
| FolderManagement.DisabledNameNoDoublePrefix | modules/folder_management.py:119-130 | the result starts with "DISABLED DISABLED " only when the name did, or did after its first nine characters |
| FolderManagement.DisabledNameKeepsRest | modules/folder_management.py:123-130 | a recognised prefix is replaced and the rest kept (name[9:]). Any other name is kept whole after the new prefix |
| FolderManagement.DisabledNameLowerUnderscore | modules/folder_management.py:127-130 | "disabled_x" is not recognised and becomes "DISABLED disabled_x" |
| FolderManagement.DisabledPathShape | modules/folder_management.py:133 | the new path has the same parent and the disabled name as its basename |
| FolderManagement.DisableStep | modules/folder_management.py:109-140 | the step stops exactly at a path that is not a directory. It keeps a "DISABLED " path as it is. Any other directory is renamed to its disabled path: the disk becomes the rename's outcome, and the step yields the disabled path when the rename succeeds and the old path when it fails |
| FolderManagement.DisablePassStops | modules/folder_management.py:108-113 | once the pass has stopped, later paths change nothing |
| FolderManagement.DisablePassStopsAt | modules/folder_management.py:108-113 | the pass returns `None` at the first path that is not a directory when reached, and the renames before it stay done |
| FolderManagement.DisablePassShape | modules/folder_management.py:116-142 | a completed pass gives one path per source, in order, each the source itself or its disabled path |
| FolderManagement.DisablePassKeeps | modules/folder_management.py:105-142 | a directory the pass does not visit, and that lies inside none of the visited folders, is still in place |
| FolderManagement.DisablePassCompletes | modules/folder_management.py:105-142 | distinct sources that are all directories, none inside another, never stop the pass |
| FolderManagement.DisablePassRenamesAll | modules/folder_management.py:105-142 | when the sources are distinct directories, none inside another and none already named "DISABLED …", and the OS allows each rename onto a path that is not a file, the pass returns every source's disabled path in order. Each of those paths is then a directory, and the files are unchanged |
| FolderManagement.DisabledSourceKeepsName | modules/folder_management.py:119-122 | a folder already named "DISABLED …" is passed on unchanged and the disk is untouched |
| FolderManagement.AddPrefixDisabledFolders | modules/folder_management.py:105-142 | the result and the new disk state are those of the pass above |
| FolderManagement.SourcePaths | modules/folder_management.py:80 | the source paths of the results, in order |
| FolderManagement.DestinationNames | modules/folder_management.py:81 | the destination names of the results, in order |
| FolderManagement.MoveOne | modules/folder_management.py:89-91 | the record goes from the source to its full destination `root/name/basename(source)` |
| FolderManagement.MoveOneSpec | modules/folder_management.py:90-101 | the item is moved iff the move succeeds, and a duplicate iff the move fails while the target exists; otherwise it failed. Only a move changes the disk |
| FolderManagement.MovePass | modules/folder_management.py:89-101 | one record per pair, in order, each from its source to its full destination |
| FolderManagement.MoveEntry | modules/folder_management.py:90-101 | one iteration yields the record and disk of `MoveOne` |
| FolderManagement.SummarizeLast | modules/folder_management.py:93-100 | each record appends its pair to the list of its kind only |
| FolderManagement.MoveAll | modules/folder_management.py:87-102 | the summary and disk are those of the move pass over the pairs |
| FolderManagement.ProcessFolder | modules/folder_management.py:78-102 | the disable pass, then the move pass over its output zipped with the destination names. `None` when the disable pass stops |
| FolderManagement.SummaryPartition | modules/folder_management.py:87-102 | the moved, failed and duplicate lists together have one entry per record |
| FolderManagement.PairsMembers | modules/folder_management.py:93-100 | a pair is in a kind's list exactly when some record of that kind carries it |
| FolderManagement.ProcessFolderAccounts | modules/folder_management.py:78-102 | in a completed run the moved, failed and duplicate lists together hold one entry per selected folder. Every recorded pair goes from the folder's path, or its disabled path, to its own name inside the matched destination |
| FolderManagement.KindIndicesSpec | modules/folder_management.py:87-102 | a kind's list is the records of that kind, taken at strictly increasing record positions, and every record of that kind is among them |
| FolderManagement.ProcessFolderRun | modules/folder_management.py:78-102 | in a completed run there is one record per selected folder, in order. Each record goes from the folder's path, or its disabled path, to its own name inside the matched destination, and the summary is built from these records |
| FolderManagement.ProcessFolderOrder | modules/folder_management.py:78-102 | in a completed run each of the moved, failed and duplicate lists follows the order of the selected folders: its k-th entry belongs to the folder at a strictly increasing position, every folder of that kind appears, and the entry goes from that folder's path or disabled path to its own name inside the matched destination |
| FolderManagement.ProcessFolderCompletes | modules/folder_management.py:84-89 | distinct sources that are all directories, none inside another, give a summary |
| Settings.NonEmptyStripped | modules/settings_ui.py:677 | at most one piece per input piece, and none of them empty |
| Settings.CheckExtensions | modules/settings_ui.py:683-687 | success iff every extension is valid, with an empty message. On failure the message names the first invalid extension |
| Settings.ValidateExtensions | modules/settings_ui.py:671-687 | an empty text is rejected, and so is a list left with no pieces, each with its message. Otherwise the text is accepted iff every stripped piece is '.' followed by one or more ASCII letters or digits. A rejection names the first offending piece, and acceptance returns an empty message |
| Settings.NatToStr | modules/settings_ui.py:572-573 | `str` of a natural number is a non-empty string of digits |
| Settings.NatToStrValue | modules/settings_ui.py:572-573 | those digits form valid digit groups whose value is the number |
| Settings.ParseIntToStr | modules/settings_ui.py:572-573 | `int(str(n)) == n`: a threshold saved as text reads back unchanged |
| Settings.ValidateThresholds | modules/settings_ui.py:556-577 | the thresholds are accepted iff both texts parse as integers in 1..100 and high > medium. Each rejection message comes exactly under its own condition, checked in this order: "valid numbers" iff a text does not parse; the high-range message iff both parse and high is outside 1..100; the medium-range message iff high is in range and medium is not; the order message iff both are in range and high ≤ medium |
| Settings.AcceptedThresholdsBands | modules/settings_ui.py:560-570 | under accepted thresholds all three bands are reachable |
| Settings.Assign | modules/settings_ui.py:605 | after `d[k] = v`, k maps to v and every other key is unchanged. Keys stay distinct, a new key is appended at the end, and the key set gains exactly k |
| Settings.IndexOfKey | modules/settings_ui.py:605 | the position of a key is the first with that key. There is none exactly when the key is absent |
| Settings.Lookup | modules/settings_ui.py:605 | a value is found exactly when the key is present, and it is that key's value |
| Settings.Fold | modules/settings_ui.py:601-605 | a dict built row by row has distinct keys |
| Settings.FoldLookup | modules/settings_ui.py:603-605 | looking a key up in the built dict gives the value of the last row stored under it |
| Settings.FoldKeys | modules/settings_ui.py:601-605 | the built dict has a key exactly when some row is stored under it |
| Settings.FoldDistinctRows | modules/settings_ui.py:601 | rows with distinct aliases form the dict unchanged |
| Settings.UniqueAliasesKeys | modules/settings_ui.py:600-605 | the saved alias dict has only lower-case keys, no key twice, and a key for every alias row |
| Settings.UniqueAliasesLaterRowWins | modules/settings_ui.py:603-605 | for aliases differing only in case, the target kept is the later row's |
| Settings.AddRowSpec | modules/settings_ui.py:512-528 | a row is added iff both stripped fields are non-blank and the first is not already a row's first column. It is appended exactly once at the end. A blank field and a duplicate each give their own warning, and a rejected row leaves the table as it is |
| Settings.AddRowKeepsDistinct | modules/settings_ui.py:512-528 | rows added through the guard never repeat a first column |
| Settings.GuardRow | modules/settings_ui.py:512-528 | the warning and the table are those of the add-row guard, and a warning leaves the table as it was |
| Settings.SettingsForm.AddNewAlias | modules/settings_ui.py:512-528 | the alias table and the warning are those of the guard. On success both alias entries are cleared; on a warning they are kept, and nothing else changes |
| Settings.SettingsForm.AddNewDestination | modules/settings_ui.py:278-294 | the destination table and the warning are those of the guard. On success both destination entries are cleared; on a warning they are kept, and nothing else changes |
| Settings.SettingsForm.UniqueAliases | modules/settings_ui.py:600-605 | the alias dict saved is the rows as a dict, then re-keyed by the lower-cased alias |

## Left out

- Character classes, `str.lower`, `str.title`, `str.isdigit` and `str.strip` are ASCII-only. Non-ASCII letters, digits and whitespace are treated as other characters. Names reach them after `unidecode`, so the normalised path is ASCII whenever the stand-in is.
- `ParseInt` accepts ASCII input only. Python's `int()` also accepts non-ASCII digits and whitespace.
- Paths use '/' as the only separator. Windows drive letters and `\` are not modelled.
- A rename or move tracks only the moved directory's own path, not the paths beneath it. Files are never touched by the modelled operations. For this reason `FolderManagement.DisablePassKeeps`, `FolderManagement.DisablePassCompletes` and `FolderManagement.ProcessFolderCompletes` require that no source folder lies inside another. When one does, renaming the outer folder carries the inner one away, and the model does not capture that.
- Of `shutil.move`'s special cases, only a directory moved onto itself (`src == dst`) and a target that already exists are modelled. The model does not recognise a same-file move through symbolic links or a case-insensitive file system, and does not model the copy fallback across devices. These outcomes rest on the `Os` oracle alone.
- `os.listdir`, `os.walk`, `os.rename`, `shutil.move`, `unidecode` and `fuzz.ratio` are parameters. The walk is a given list that is not tied to the `Disk` state, and how its depths are computed from `os.sep` counts is not modelled.
- `get_best_fuzzy_match` is not modelled, because nothing calls it; it repeats the fuzzy tier.
- `browse_for_source_folder` and every Tk widget, messagebox and log message are left out. The warnings of the add-row guards are returned as values.
- Of `save_combined_settings`, only the threshold, extension and alias blocks are modelled. The XXMI path check, the destination-path checks, the ignore-numbers check, directory creation and the JSON write are not.
- The extension normalisation when settings are loaded (`modules/utils/config_utils.py`) is not part of this model.
- The skip-word list is a parameter. `main.py` reads it under the key `'skipworld'`, while the settings save it as `'skipword'`.
- The merging of tier summaries with `dict.update` in `modules/ui_functions.py` is not part of this model, so a later summary overwriting an earlier one is not captured.
- Settings.UniqueAliasesLaterRowWins: proved only for rows whose aliases are pairwise distinct. When two rows share an alias exactly, the first dict comprehension keeps the first row's position with the later row's target, and the claim is not stated for that case.
