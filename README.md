# Day merger for camera recordings, modelled in Dafny

The program merges the recordings of a home-security camera into one video per
day. Its input is a directory of cameras. Each camera directory holds hourly
directories named `YYYYMMDDHH`, and in some camera generations one more level of
nesting. The program does the following:

- groups the sub-directories of a directory into days by the first eight
  characters of their stem;
- leaves out today, which the camera is still writing;
- descends one level when a day has no clips at its own level;
- orders a day's clips by the number after the last `_` of their stem;
- writes a `file <path>` play-list for the day and hands it to the
  concatenation engine;
- deletes the directories the play-list drew from, then deletes the play-list.

The model works on a read-only snapshot of the recording tree:
`Node = File(name) | Dir(name, children)`. Child order stands for directory
listing order. An `Entry` pairs a node with its absolute path, which stands for
`resolve()`. The output directory `out` likewise stands for the absolute,
normalised path of `--outdir`, so that two strings name the same file exactly
when they are equal. A run's effects on the file system are recorded as a log of events:

- `EnsureDir`, for a directory that is created unless it exists;
- `WriteText`;
- `Concat`, the engine call;
- `RemoveTree`;
- `RemoveFile`.

`Path.exists()` is answered from the set of paths present at the start, minus
everything a `RemoveTree` logged so far has removed. An uncaught exception ends
the run with a `Failure`, and the events logged before it are kept.

Modules:

- `Seqs` (`seqs.dfy`): generic sequence helpers: an `Option` type, the first
  element failing a test, and `map` over a sequence.
- `Names` (`names.dfy`): the Python built-ins the program relies on:
  - `str.strip`, `str.replace` and `split("_")[-1]`;
  - `int()`, with the white space and sign it accepts (a narrower set of
    white space than `str.strip`'s);
  - `PurePath.stem`, and the day key `stem[:8]`.
- `Tree` (`tree.dfy`): the snapshot, `Path / name`, `.parent`,
  `glob("*.mp4")`, `has_subdirectories`.
- `DayDict` (`day_dict.dfy`): `date_dict`, an insertion-ordered dictionary,
  modelled as a sequence of (key, nodes) pairs. It includes the loop that fills
  it, the compatibility path and the removal of today.
- `ClipOrder` (`clip_order.dfy`): the sort of line 100. It is a stable sort on
  the integer key. A key that `int()` rejects makes the run fail.
- `PlayList` (`play_list.dfy`): the play-list text as written on lines 101 and
  109, and as read back on lines 29-32.
- `Planner` (`planner.dfy`): `merge_dirs`, `merge_videos` and `startup`.
  - Methods follow the source loop by loop. Each threads the event log through
    and is proved equal to a function of the inputs: `MergeDirsSpec`,
    `DaySpec`, `MergeVideosSpec`, `Sweep` and `StartupSpec`.
  - `DaySpec`, `DaysSpec`, `WalkSpec` and `StartupSpec` are such reference
    functions. They have no contracts of their own; their properties are the
    lemmas about them.
  - The properties of the run are proved about those functions.

The source is `main.py`. Two points of it shape the model:

- **The recursion test uses the bucket's last node.** The test of line 94
  reads `d`, the variable left over from the loop of lines 87-89, that is, the
  last node of the bucket. `PlanDay` tests that node.
- **A file input still gets its output directory.** `output_dir` is created
  (lines 57-59) before the `is_file()` check (lines 66-68), so a file input
  still logs `EnsureDir`.

## Model

| member | source | states |
|---|---|---|
| Names.StripLeft | main.py:32 | `lstrip` (and the leading white space `int()` skips): the result is a suffix of the input, everything cut off is white space of the chosen kind, and the result does not start with such white space |
| Names.StripRight | main.py:32 | `rstrip` (and the trailing white space `int()` skips): the result is a prefix of the input, everything cut off is white space of the chosen kind, and the result does not end with such white space |
| Names.StripBare | main.py:32 | a line with no white space at either end is unchanged by `strip()`, and so is the same line followed by `\n` once stripped |
| Names.RemovePrefix | main.py:32 | `("file " + q).replace("file ", "")` is `q` when `q` holds no `file ` |
| Names.RemoveAll | main.py:32 | `replace("file ", "")` never lengthens the line |
| Names.RemoveAllAbsent | main.py:32 | a string without the pattern is left unchanged by the replacement |
| Names.LastIndexOf | main.py:77 | the index holds the character and no later index does; -1 means absent |
| Names.Stem | main.py:77 | `stem` differs from the name exactly when the name's last dot is neither its first nor its last character, and is then the prefix before that dot |
| Names.DayKey | main.py:77 | `stem[:8]` is a prefix of the stem, of length 8 when the stem is at least that long, and otherwise the whole stem |
| Names.LastSegment | main.py:100 | `split("_")[-1]` is a suffix without `_`, preceded by `_` unless it is the whole string |
| Names.ParseIntAccepts | main.py:100 | `int()` succeeds exactly when the text, with the white space `int()` skips removed from both ends, is one optional sign followed by at least one digit |
| Names.IntSkipsSpace | main.py:100 | `int(" " + t + "\n") == int(t)`: ordinary white space around the text is skipped |
| Names.IntKeepsSeparator | main.py:100 | a text starting with one of the separators `\x1c`..`\x1f` is rejected by `int()`, although `strip()` drops that separator |
| Names.Decimal | main.py:100 | `str(n)` is non-empty, all digits, and has no leading zero |
| Names.DecimalValue | main.py:100 | the digits of `str(n)` have value `n` |
| Names.StripNoSpace | main.py:32 | text with no white space at either end is unchanged by `strip()` and by the strip of `int()` |
| Names.ParseDigits | main.py:100 | `int()` reads a string of digits as its value, and the same digits after `-` as the negated value |
| Names.ParseDecimal | main.py:100 | `int(str(n)) == n` and `int("-" + str(n)) == -n` |
| Tree.ParentOfJoin | main.py:33 | `(base / name).parent == base` for a one-component name |
| Tree.ChildParent | main.py:70 | the `.parent` of a listed child's path is the directory it was listed from |
| Tree.ClipParent | main.py:86-89 | the `.parent` of every clip of a day is one of the nodes of its bucket |
| Tree.ClipOfNode | main.py:86-89 | a `*.mp4` child of a node of the bucket is a clip of the day, and its `.parent` is that node |
| Tree.Mp4Children | main.py:88 | `glob("*.mp4")` yields exactly the children whose name ends in `.mp4`, and nothing for a file |
| Tree.Mp4Among | main.py:88 | the matching entries are exactly the children whose name ends in `.mp4` |
| Tree.Clips | main.py:86-89 | a clip of the day is a `*.mp4` child of some node of its bucket, and every such child is a clip |
| Tree.HasSubdirectories | main.py:42-44 | true exactly when the node is a directory with a sub-directory among its children |
| Tree.AnyDir | main.py:43-44 | true exactly when some listed child is a directory |
| DayDict.Keys | main.py:61 | the keys of the dictionary, position by position |
| DayDict.Without | main.py:82-83 | the key list without `t` holds every other key and not `t` |
| DayDict.AssignKeys | main.py:73 | `d[k] = v`: a new key goes last and an old one keeps its place; keys stay distinct |
| DayDict.AssignGet | main.py:73 | after `d[k] = v`, `k` maps to `v` and every other key to what it mapped to before |
| DayDict.AppendTo | main.py:78-80 | `d[k].append(x)` after seeding `k` with `[]`: `k`'s list grows by `x`; other keys are unchanged; keys stay distinct |
| DayDict.Remove | main.py:82-83 | `pop(k)` leaves every other key's nodes unchanged |
| DayDict.RemoveKeys | main.py:82-83 | with distinct keys, `pop(k)` removes `k` and only `k` from the keys and keeps them distinct |
| DayDict.BuildBuckets | main.py:61-83 | the in-place loop, its `break` at the first stray file, and the pop of today build the dictionary `Group` describes |
| DayDict.ScanDistinct | main.py:70-80 | the scan never repeats a key |
| DayDict.ScanGet | main.py:75-80 | without a stray file, each directory goes to the bucket of its own day key, in listing order |
| DayDict.ScanKeys | main.py:75-80 | without a stray file, keys appear in order of first appearance |
| DayDict.ScanStops | main.py:71-74 | the first stray file assigns `[in_dir]` to `date_name` and ends the scan; later children are never looked at |
| DayDict.SeedThenDrop | main.py:63-64 | seeding today's key first and dropping it later leaves the other keys in first-appearance order |
| DayDict.Scanned | main.py:63-80 | after the scan, the keys are distinct and today's key is still present |
| DayDict.TodayExcluded | main.py:63-64 | no bucket is keyed by today, whatever the directory holds and even when `date_name` is today |
| DayDict.ScanKeepsKey | main.py:70-80 | the scan never loses a key |
| DayDict.GroupByDay | main.py:75-80 | without a stray file: keys are first appearances of the sub-directories' day keys, minus today; each bucket is exactly the sub-directories with that key, in listing order |
| DayDict.GroupCompat | main.py:70-74 | with a stray file: earlier directories stay bucketed by day; `date_name` gets `[in_dir]`, in place of any earlier bucket; later children are never bucketed; today is still left out |
| DayDict.DirsAppend | main.py:75-80 | the bucket of a day over a listing split in two is the bucket over the first part followed by the bucket over the second |
| DayDict.FilesOnlyGroup | main.py:61-83 | a directory of files only has no bucket, except `[in_dir]` under `date_name` when one file is stray and `date_name` is not today |
| DayDict.GroupSourced | main.py:70-83 | every bucket left is non-empty and holds only `in_dir` or its children |
| DayDict.GroupExample | main.py:75-80 | three hour directories such as `2021051001`, `2021051002`, `2021051101` give two buckets in listing order: the shared day with the first two, then the other day with the third |
| DayDict.DayKeyOfHour | main.py:77 | an hour directory `YYYYMMDDHH` has day key `YYYYMMDD` |
| Seqs.FirstFailing | main.py:100 | the index of the first clip whose key raises, or -1 when every key exists |
| ClipOrder.Insert | main.py:100 | inserting keeps every element |
| ClipOrder.SortBy | main.py:100 | the sort is a permutation |
| ClipOrder.SortAscending | main.py:100 | the sort yields non-decreasing keys |
| ClipOrder.SortStable | main.py:100 | the sort is stable: elements with equal keys keep their relative order |
| ClipOrder.OrderClips | main.py:100 | raises exactly when some clip's key is not an integer; otherwise a permutation, in non-decreasing key order, stable |
| ClipOrder.NumberedName | main.py:100 | a clip `<prefix>_<n>.mp4` has key `n` |
| ClipOrder.OrderExample | main.py:100 | `a_1`, `a_10`, `a_2` sort to `a_1`, `a_2`, `a_10` |
| PlayList.Slashes | main.py:101 | `replace("\\", "/")`, character by character |
| PlayList.SlashesIdentity | main.py:101 | a path without `\` is written unchanged |
| PlayList.ReadBackLine | main.py:29-32 | a line written for a path (line 101), with or without its line break, is parsed back by lines 29-32 into the slashed path |
| PlayList.LinesOf | main.py:101 | one line per clip, in clip order |
| PlayList.IndexOf | main.py:30 | the first line break, or -1 when there is none |
| PlayList.ListedPaths | main.py:29-32 | one parsed path per line read back |
| PlayList.TranslateIdentity | main.py:29-30 | text without `\r` reads back unchanged |
| PlayList.ParseWrittenLine | main.py:32 | stripping a written line and removing `file ` gives back its path, with or without the line break |
| PlayList.FormatNoCR | main.py:109 | the play-list holds no `\r` when no path does |
| PlayList.RoundTrip | main.py:29-32 | reading back the written play-list gives exactly the slashed clip paths, in order |
| PlayList.SplitFirst | main.py:30 | `readlines` splits off a first line that has no break |
| PlayList.Terminated | main.py:30 | as many lines as were joined |
| PlayList.TerminatedAt | main.py:30 | every line but the last keeps its break |
| PlayList.SplitJoin | main.py:30 | `readlines` of `"\n".join(lines)` gives the lines back, each but the last with its break |
| PlayList.SplitFormat | main.py:29-32 | every line read back parses to the path written into it |
| Planner.ClipPaths | main.py:101 | the resolved clip paths, position by position |
| Planner.OutputNames | main.py:107-110 | the play-list and the merge target are distinct, the play-list is never a clip, and the target is an `.mp4` |
| Planner.OutputParents | main.py:103-110 | the play-list and the merge target both lie in the day's output directory |
| Planner.RemovedGrows | main.py:36 | once removed, a path stays removed |
| Planner.SweepSound | main.py:31-36 | the cleanup only ever removes trees, and only listed parents |
| Planner.SweepComplete | main.py:34-36 | every listed parent that exists when the cleanup starts is gone afterwards |
| Planner.NoTreeRemoved | main.py:36 | events other than `rmtree` remove nothing: a path is removed after them exactly when it was before |
| Planner.CleanupScope | main.py:29-39 | with a play-list written from `paths`, the cleanup removes only the parents of those paths, and removes every one that exists |
| Planner.ParentsOfPlayList | main.py:29-33 | the parents read back from a play-list are those of the clips written into it |
| Planner.PlanDay | main.py:94-96 | the only node a day descends into is the last of its bucket, and never the directory being merged |
| Planner.RecursionRule | main.py:92-99 | a day descends exactly when it has no clips and its last node has a sub-directory and is not `in_dir`; it loops back on `in_dir` exactly when that node is `in_dir`; a day without clips is never merged |
| Planner.MergePlan | main.py:100-110 | a day with clips is merged exactly when every clip is numbered, into `{day}_video_list.txt` and `{day}.mp4` of its output directory, with the clips as a non-decreasing permutation; otherwise it fails on an unnumbered clip |
| Planner.ClipPlan | main.py:100-110 | a day with clips is either merged or fails; it never descends or is skipped |
| Planner.MergeDirsSpec | main.py:57-68 | the first effect is creating `output_dir`; a file input stops there, with no bucketing and no merge |
| Planner.MergeDirsIdle | main.py:57-99 | a camera directory of files only, none a clip, creates the output directory and does nothing else |
| Planner.EmptyDayEvents | main.py:94-99 | a day without clips writes no play-list and merges nothing itself: when its last node has a sub-directory and is not `in_dir`, it is exactly the recursive call on that node with the same `date_name` and `parent_path := day`; otherwise it logs nothing, and fails with `EndlessRecursion` exactly when that node is `in_dir` with a sub-directory |
| Planner.MergeDayEvents | main.py:103-110 | a merged day logs its output directory, one play-list, one engine call on it, then only tree removals; then either the removal of the play-list, when no removed tree held it, or the failure on the play-list and nothing more (which trees go is `DaySweepOwnNodes`) |
| Planner.DaySweepOwnNodes | main.py:86-110 | a merged day removes no tree but the nodes of its own bucket, and removes every node of the bucket that holds a clip and still exists when the day starts |
| Planner.MergeEventsShape | main.py:104-110 | the effects of lines 104-110, in order: first the output directory, the play-list and the engine call on it; then tree removals only; then the removal of the play-list, or instead the failure of the `os.remove` of line 39, which raises exactly when one of those removed trees held the play-list |
| Planner.MergeEventsSplit | main.py:29-39 | the events of lines 104-110 are the three opening events, then exactly the cleanup sweep, then the removal of the play-list exactly when the sweep did not already remove it |
| Planner.MergeSweepScope | main.py:29-36 | the trees a merge removes are parents of the clips written into its play-list, and every such parent that existed before the merge is gone afterwards |
| Planner.RemovedAt | main.py:36 | a path is gone exactly when some logged `rmtree` covers it |
| Planner.PlayListSwept | main.py:29-39 | a play-list lying inside the still existing directory of its first clip is removed with that directory, and line 39 then raises |
| Planner.DaysAdvance | main.py:85-110 | after one day, either the run stops with the whole outcome of the loop, or what the remaining days log completes it |
| Planner.DayMerges | main.py:101-110 | a day whose plan is a merge logs exactly the events of lines 104-110 and fails exactly when `merge_videos` does |
| Planner.Visited | main.py:115 | the children handed to `merge_dirs` are exactly those not named `.DS_Store` or `@eaDir` |
| Planner.WalkFilter | main.py:114-117 | ignored children contribute nothing: the walk over all children equals the walk over the visited ones |
| Planner.CollectVideos | main.py:86-89 | the `extend` loop collects exactly `Clips` of the bucket |
| Planner.MergeVideos | main.py:17-39 | the engine call and the cleanup loop, then the removal of the play-list, or the failure of line 39 when the cleanup already removed it, as `MergeVideosSpec` says |
| Planner.Cleanup | main.py:31-36 | the loop over the lines read back logs exactly `Sweep` of their parents |
| Planner.MergeDay | main.py:85-110 | one day of the loop logs exactly `DaySpec` and fails exactly when it does |
| Planner.MergeClips | main.py:100-110 | the sort, then either the merge events of the sorted clips and their outcome, or no event and the failure on the first unnumbered clip, as `ClipPlan` says |
| Planner.WriteAndMerge | main.py:104-110 | output directory, play-list, then `merge_videos`, appended to the log, failing exactly when `merge_videos` does |
| Planner.MergeDirs | main.py:47-110 | `merge_dirs` logs exactly `MergeDirsSpec` and fails exactly when it does |
| Planner.MergeDays | main.py:85-110 | the loop over the days logs exactly `DaysSpec` of the buckets and stops at the first failure |
| Planner.Startup | main.py:113-117 | `startup` logs exactly `StartupSpec`: `merge_dirs(item, out, item.name, "")` for each visited child, stopping at the first failure |

## Left out

- The engine command line and its platform and codec branches (lines 22-27) are out of scope. `Concat(list, target)` stands for "the engine was run on this play-list". Whether the engine succeeds is not inspected, as in the source.
- Argument parsing (lines 11-14, 120-122) and all logging are out of scope.
- `datetime.now()` (line 63) is not read: today's key is a parameter, and the model uses one value of it for the whole run. The source reads the clock again in every `merge_dirs` call, recursive ones included, so a run that crosses midnight can use two different keys for today; that is not modelled.
- The run does not change the file system; it logs events instead.
  - `exists()` answers from the starting set of paths minus the removed trees, so a path the run itself created (an output directory or a play-list) is not seen as existing by the cleanup.
  - Later days and later cameras are planned on the starting snapshot. A `rmtree` that removes a directory before it is listed or globbed is not reflected. In particular, the compatibility bucket's cleanup runs `rmtree(in_dir)`, which removes every child of `in_dir`, including the children listed after the stray file that the scan never visited. A `FileNotFoundError` that `iterdir` or `listdir` would then raise is not modelled either.
- Planner.MergeDirs: on the compatibility path, a bucket `[in_dir]` whose `in_dir` has no clips but a sub-directory in the snapshot makes the model stop the whole run with `EndlessRecursion`, logging nothing for that day. The source decides at line 94 on the live tree, and differs in two cases. If earlier days have already removed every sub-directory of `in_dir`, the source skips the day and goes on with the remaining days and cameras, which the model does not log. Otherwise the source calls `merge_dirs(in_dir, out, date_name, ds_date)` again and again until Python raises `RecursionError`; each call first creates its output directory (line 59) and scans `in_dir` again (lines 70-110), and the model logs none of the events of those calls.
- `rmtree` (line 36, `ignore_errors=True`) is assumed to remove the whole tree. A partial failure, which `ignore_errors=True` swallows silently, is not modelled; after one, the play-list may survive and line 39 may then not raise.
- A relative `--outdir` (the default is `./`) is not modelled: `out` stands for the absolute, normalised output directory. Paths are compared as strings, so with a relative `out` the play-list path (relative) and a removed clip directory (absolute, from `resolve()`) would not be recognised as the same file. The model would then miss a play-list that the `rmtree` of line 36 removes, and with it the `FileNotFoundError` of line 39.
- Entries that are neither a regular file nor a directory (FIFOs, sockets, broken symbolic links) are skipped by lines 71-80, since both `is_file()` and `is_dir()` are false for them. The two kinds of `Node` cannot express such entries, so the model's snapshots never contain them.
- Planner.DaySweepOwnNodes: stated for well-formed paths only: directory paths without a trailing `/`, child names of one component, and clip paths without `\`, white space at the end or line breaks. Other paths are not covered by this lemma, though the rest of the model handles them.
- `resolve(strict=True)` is the entry's stored absolute path. Symbolic links and the error for a missing clip are not modelled.
- `glob("*.mp4")` is modelled as a case-sensitive suffix match on the direct children (POSIX pathlib). Windows' case-insensitive matching is not modelled. A directory named `x.mp4` is matched, as in the source.
- `int()` is modelled for ASCII digits and the white space it skips (`IsIntSpace`): ASCII space, `\t`..`\r`, and the non-ASCII white space of `str.isspace`. Unlike `str.strip`, it does not skip the separators `\x1c`..`\x1f`. Non-ASCII Unicode digits and underscores between digits, which `int()` also accepts, are not modelled.
- Paths are assumed to use `/` separators without repeated or trailing separators. The f-string path of line 103 with an empty `parent_path` yields a trailing `/`, which pathlib drops, and `JoinPath` models the result. Other normalisations (`.`, `..`) are not modelled.
- The play-list is parsed from the text that was written rather than re-read from disk. The file's encoding (UTF-8 written, locale default read) is not modelled.
- `merge_dirs` does not skip directories named `.DS_Store` or `@eaDir`; the model does not either. Only `startup` and the stray-file test of line 71 look at those names.
