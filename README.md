# Notetaker: title formatting, transcript selection and the folder renamer

Notetaker turns folders of lecture transcripts into Obsidian notes. Two
scripts carry its logic, and this project models that logic and proves it:

- main.py cleans each transcript's text. It turns a transcript's file name
  such as `01_document.en.txt` into a note title (`1. Document`). It works out
  where the note goes in the vault, and it picks the `.en.txt` files out of a
  walk of the base folder.
- rename.py renames every directory below a folder to a readable title, for
  example `02_intro-to-topic` to `2. Intro To Topic`. It goes bottom-up, so a
  directory is renamed only after everything inside it. It skips names that
  are already formatted and logs every rename and every failure.

The modules are:

- `Wrappers` (wrappers.dfy): the `Option` type.
- `PyStr` (pystr.dfy): the Python `str` operations the scripts use, over ASCII.
  These are `isspace`/`strip`, `title`, one-character `replace`,
  `replace(pat, "")` and `endswith`.
- `TitlePattern` (title_pattern.dfy): `re.match(r"(\d+)_([a-zA-Z0-9\-]+)", …)`
  as an explicit scan, `str(int(…))` on the digit group, and the
  `"<number>. <Title>"` string that both `format_title` functions build.
- `Notes` (notes.dfy): main.py.
  - `clean_text` and `format_title` are functions.
  - The path derivation of `process_txt_to_md` is a function on paths given
    as lists of segments.
  - `process_folder_recursive` is a method with nested loops, proved against
    a function of the walk it is given and of which calls raise.
- `Renamer` (renamer.dfy): rename.py.
  - `format_title` is a function.
  - The file system is the class `FileSystem`, which holds a directory tree.
    Its `Rename` method succeeds or raises and changes nothing.
  - `rename_folders` is the method `RenameFolders`. It is a recursive
    bottom-up walk whose inner loop calls `Rename`, and it is proved against
    the function `RenameAll` (the final tree) and `WalkLog` (the printed lines).
- `Examples` (examples.dfy): sample names, including `01_document.en.txt` from
  the comment at main.py:19, worked through both `format_title` functions.

A directory lists its subdirectories as an ordered sequence of named entries,
not a map. `os.walk` hands the loop the listing in the order the operating
system returns it. When two names format to the same title, which rename
wins depends on that order. With a sequence, the outcome is a function of
the tree.

After a rename, the operating system may list a directory in another order
than before, by name or by a hash of the name. The first run cannot see this,
since `os.walk` reads each listing before anything in it is renamed. For a second run,
`Renamer.SecondRunInAnyOrder`, `Renamer.SecondRunSkipsInAnyOrder` and
`Renamer.RenameFoldersRerun` take the renamed tree listed in any order, stated
as `Relisted(RenameAll(format, d), e)`.

Each directory carries a `locked` flag. It stands for whatever makes the
operating system refuse to move that directory.

## Model

| member | source | states |
|---|---|---|
| PyStr.Strip | main.py:14 | `strip()` returns a slice of its input that neither starts nor ends with whitespace, and everything cut off on either side is whitespace |
| PyStr.TitleAfter | main.py:25 | CPython's `title()` loop, which upper-cases a character not preceded by a cased one and lower-cases the rest; it keeps the length |
| PyStr.Title | rename.py:11 | `title()` position by position: each character is upper-cased at the start or after a non-letter, and lower-cased after a letter; it keeps the length |
| PyStr.StripOfTrimmed | main.py:14 | stripping a string that does not start or end with whitespace returns it unchanged |
| PyStr.TitleIsScan | main.py:25 | the position-by-position `title()` equals the left-to-right scan CPython runs, cased after a letter and capitalised otherwise |
| PyStr.TitleKeepsClasses | rename.py:11 | title-casing keeps each character a letter, a digit or neither, and leaves every non-letter as it is |
| PyStr.TitleIdempotent | rename.py:11 | title-casing an already title-cased string changes nothing |
| PyStr.TitleWithoutLetters | rename.py:12 | title-casing a string with no letters (the `"<number>. "` head) changes nothing |
| PyStr.TitleSplits | rename.py:12 | after a non-letter, title-casing the two halves of a string separately gives the same result as title-casing the whole |
| PyStr.ReplaceChar | rename.py:11 | `replace("-", " ")` keeps the length and swaps exactly the characters equal to the one replaced |
| PyStr.RemoveAll | main.py:21 | `replace(pat, "")` scans left to right and drops each non-overlapping occurrence; it never lengthens the string |
| PyStr.EndsWith | main.py:81 | `endswith(suffix)`: the string is at least as long as the suffix and its last characters are the suffix |
| PyStr.RemoveAllOfFree | main.py:21 | `replace(".en.txt", "")` on a name without `.en.txt` returns the name |
| PyStr.RemoveAllOfAppended | main.py:21 | removing a borderless pattern from `<string><pattern>` is removing it from the string alone, whatever the string holds |
| PyStr.RemoveAllOfSuffix | main.py:21 | removing a borderless pattern from `<stem><pattern>`, where the stem does not contain the pattern, gives back exactly the stem |
| TitlePattern.MatchesAreBounded | rename.py:8 | any way the pattern can match uses the whole leading digit run as group 1 and ends no later than the longest slug run |
| TitlePattern.Match | rename.py:8 | the match exists exactly when the pattern matches some prefix of the name; group 1 is then the whole digit run and group 2 the longest slug after `_` |
| TitlePattern.MatchAt | main.py:22 | a match given by its boundaries, whose slug the next character does not continue, is the one `re.match` returns |
| TitlePattern.Decimal | rename.py:10 | `str(n)` is a canonical numeral (digits, no leading zero) whose value is `n` |
| TitlePattern.DecimalOfCanonical | rename.py:10 | `str(int(c))` gives back every canonical numeral `c` |
| TitlePattern.NumberDropsLeadingZeros | main.py:24 | `str(int(ds))` is the digit string with its leading zeros dropped, keeping one `0` when all digits are zero |
| TitlePattern.NumberedTitle | rename.py:10-12 | `f"{number}. {title}"`: the number without leading zeros, `. `, then the slug with hyphens as spaces, title-cased |
| Notes.JoinLines | main.py:15 | the `re.sub` of lone newlines as a scan that remembers whether a newline came just before; it keeps the length |
| Notes.CleanText | main.py:13-16 | `clean_text`: the stripped text with lone newlines joined; its meaning is stated by the three lemmas below |
| Notes.CleanTextAt | main.py:15 | after the strip, `clean_text` maps characters one for one: a newline with no newline beside it becomes a space, and every other character stays |
| Notes.CleanTextTrimmed | main.py:14-15 | the cleaned text neither starts nor ends with whitespace |
| Notes.CleanTextIdempotent | main.py:13-16 | cleaning cleaned text changes nothing |
| Notes.FormatTitle | main.py:20-27 | main.py's `format_title`: drop `.en.txt`, then the numbered title when the pattern matches and `title()` of the name otherwise; its meaning is stated by the lemmas below |
| Notes.FormatTitleNumbered | main.py:21-26 | a numbered name (after `.en.txt` removal) becomes `<number without leading zeros>. <slug, hyphens as spaces, title-cased>`, and whatever follows the slug run is dropped |
| Notes.FormatTitleFallback | main.py:27 | an unnumbered name is only title-cased: it keeps its length, and its hyphens stay exactly where they were |
| Notes.EnTxtIsBorderless | main.py:21 | no proper suffix of `.en.txt` is also a prefix of it, so an occurrence cannot straddle the end of a stem |
| Notes.FormatTitleIgnoresSuffix | main.py:21 | the title of `<stem>.en.txt` is the title of `<stem>`, whatever the stem holds |
| Notes.DotlessKeepsName | main.py:21 | a name without a dot holds no `.en.txt`, so the removal leaves it as it is |
| Notes.Destination | main.py:54-59 | the note path lies under the vault, keeps the transcript's directories relative to the base folder, and is named `<format_title of base name>.md` |
| Notes.DestinationOfTranscript | main.py:54-59 | when the stem holds no `.en.txt`, `<base>/<dir>/<stem>.en.txt` goes to `<vault>/<dir>/<title of stem>.md`. The suffix is removed at main.py:56 and again at main.py:21, so a stem holding `.en.txt` loses that too |
| Notes.IsTranscript | main.py:81 | a file is picked exactly when its name ends in `.en.txt` |
| Notes.FileCalls | main.py:80-82 | the full paths of one walk step's `.en.txt` files, in listing order |
| Notes.WalkCalls | main.py:79-83 | the full paths of every step's `.en.txt` files, step after step |
| Notes.UpToFailure | main.py:78-83 | the calls made before an uncaught exception: a prefix of the planned calls in which no call but the last raises; a shorter list ends with the raising call, and with no raising call every call is made |
| Notes.UpToFailureStops | main.py:83 | once a call raises, nothing after it is called |
| Notes.WalkCallsAround | main.py:79-83 | the planned calls split around the `i`-th file of the `k`-th step: the earlier steps, the earlier files of that step, that file, then the rest |
| Notes.ProcessFolder | main.py:78-83 | the loop over the walk hands `process_txt_to_md` the paths `WalkCalls` lists, in order, and stops at the first call that raises, since nothing catches it |
| Notes.FileCallsSelect | main.py:80-82 | a path is among one step's calls exactly when it is the root joined with one of that step's `.en.txt` files |
| Notes.WalkCallsSound | main.py:79-83 | every path handed on is the full path of a `.en.txt` file of some walk step |
| Notes.WalkCallsComplete | main.py:79-83 | every `.en.txt` file of every walk step is handed on under its full path |
| Notes.WalkCallsSelect | main.py:79-83 | a path is handed on if and only if it is the full path of a file that ends in `.en.txt` |
| Notes.WalkCallsHaveDestinations | main.py:54 | every path handed on lies strictly below the base folder, so it has a note path |
| Renamer.FormatTitle | rename.py:7-13 | rename.py's `format_title`: the numbered title when the pattern matches, else the name with hyphens as spaces, title-cased; its meaning is stated by the lemmas below |
| Renamer.FormatTitleNumbered | rename.py:8-12 | a numbered name becomes `<number without leading zeros>. <slug, hyphens as spaces, title-cased>`, and whatever follows the slug run is dropped |
| Renamer.FormatTitleFallback | rename.py:13 | an unnumbered name has its hyphens turned into spaces and is title-cased; it keeps its length and has no hyphen left |
| Renamer.HyphenFreeTitle | rename.py:13 | title-casing a hyphen-free string leaves it hyphen-free |
| Renamer.FormattedHasNoHyphen | rename.py:11-13 | no formatted name contains a hyphen |
| Renamer.DigitRunIs | rename.py:8 | a digit run that the next character does not continue is the one the pattern's `\d+` takes |
| Renamer.AcceptsCarriesOver | rename.py:13 | if the fallback's output matched the pattern, the original name would have matched too |
| Renamer.FormattedDoesNotMatch | rename.py:8-13 | a formatted name never matches the numbered pattern |
| Renamer.FormatTitleIdempotent | rename.py:7-13 | formatting a formatted name returns it unchanged, so the walk's "already formatted" skip applies to every renamed directory |
| Renamer.Names | rename.py:19 | the listing's names, one per entry, in order |
| Renamer.HoldsNames | rename.py:26 | the listing holds an entry of a given name exactly when that name is among its names |
| Renamer.Find | rename.py:20 | looking a name up in a listing gives the first entry of that name, or none when no entry has it |
| Renamer.FindDistinct | rename.py:20 | in a listing with distinct names, looking up the `k`-th name gives `k` |
| Renamer.LookupAppend | rename.py:20 | looking up `p + q` is looking up `q` in the directory at `p` |
| Renamer.LookupGraft | rename.py:26 | after a directory is replaced at `p`, the paths below `p` lead into the new directory |
| Renamer.GraftGraft | rename.py:26 | replacing inside a directory that was just replaced is one replacement at the outer path |
| Renamer.GraftSelf | rename.py:26 | putting back the directory found at `p` changes nothing |
| Renamer.WfLookup | rename.py:20 | every directory of a well-formed tree is well formed |
| Renamer.WfGraft | rename.py:26 | replacing a directory by a well-formed one keeps the tree well formed |
| Renamer.RenameNotFound | rename.py:26 | `os.rename` fails as "not found" exactly when nothing is at the source path |
| Renamer.RenameOp | rename.py:26 | `os.rename(parent/name, parent/newName)`: "not found" when the source is missing; no change when the name stays; refused for a locked directory, or when the new name is taken; otherwise the entry takes the new name in its place in the listing |
| Renamer.RenamedListing | rename.py:26 | giving an entry a name the listing does not hold keeps the names distinct, drops the old name, and finds the entry under the new one |
| Renamer.RenameEntry | rename.py:26 | after such a rename, the directory is at the new path and nothing is at the old one; the tree keeps its shape and stays well formed |
| Renamer.RenameOpEffect | rename.py:26 | when `os.rename` succeeds, the directory and all it holds move from `parent/name` to `parent/newName`, nothing stays at the old path, and the shape is kept |
| Renamer.GraftKeepsShape | rename.py:26 | replacing a directory by one of the same shape keeps the shape of the tree |
| Renamer.FileSystem.Rename | rename.py:25-29 | the tree becomes `RenameOp`'s new tree on success; on failure the reason is returned and the tree is unchanged |
| Renamer.StepOutcome | rename.py:21-29 | the fate of one name: a skip when formatting changes nothing, a failure when the directory may not move or the formatted name is taken, and otherwise a move to the formatted name |
| Renamer.Step | rename.py:20-31 | handling one entry changes at most that entry's name, keeps its directory, and leaves every other entry of the listing as it was |
| Renamer.Pass | rename.py:19-31 | after the inner loop's first `j` turns, every entry keeps its directory and place, and the entries not yet handled keep their names |
| Renamer.PassLog | rename.py:19-31 | the lines the inner loop prints, one per name, in listing order |
| Renamer.Processed | rename.py:18 | the listing with every subtree already handled: same length, same names |
| Renamer.RenameAll | rename.py:17-31 | the tree `rename_folders` leaves: all subtrees first, then the inner loop over the listing |
| Renamer.WalkLog | rename.py:18-31 | the lines `rename_folders` prints: the subtrees' lines in listing order, then the listing's own |
| Renamer.PartialNames | rename.py:18-19 | walking the subtrees first keeps every name of the parent's listing, so the names the loop reads are still there |
| Renamer.PartialEnds | rename.py:18 | before the subtrees are walked, the listing is as read; after, every subtree is handled |
| Renamer.SubtreeLogsStep | rename.py:18 | the log of the first `i + 1` subtrees is the log of the first `i` followed by the walk of the next one |
| Renamer.ChildStep | rename.py:18-20 | because the walk is bottom-up, the `i`-th subdirectory is still at its original path when its subtree is handled there, and handling it advances the parent's listing by one |
| Renamer.PassStep | rename.py:20-31 | one turn of the loop body: an unchanged name keeps the tree and logs a skip; otherwise the rename either moves to the next listing and logs it, or fails, keeps the listing and logs the reason |
| Renamer.FileSystem.RenameFolders | rename.py:17-31 | `rename_folders` leaves the tree `RenameAll(FormatTitle, tree)` and prints exactly `WalkLog(FormatTitle, tree, [])` |
| Renamer.FileSystem.Walk | rename.py:18-19 | the walk below `at` replaces the subtree there by its renamed form and produces that subtree's log |
| Renamer.FileSystem.WalkSubtrees | rename.py:18 | walking a directory's subdirectories in listing order handles each subtree in place and concatenates their logs |
| Renamer.FileSystem.WalkChild | rename.py:18 | walking one subdirectory advances the handled prefix of the listing by one and appends that subtree's log |
| Renamer.FileSystem.RenameListing | rename.py:19-31 | the inner loop over a listing leaves it as `Pass` says and logs exactly `PassLog` |
| Renamer.FileSystem.RenameOne | rename.py:20-31 | the loop body for one name leaves the listing one step further and returns the line the script prints |
| Renamer.RenameAllKeepsShape | rename.py:17-31 | renaming keeps the tree's shape: the same directories, nested the same way |
| Renamer.PassOfSettled | rename.py:24 | a listing whose names are all formatted is left as it is |
| Renamer.SettledIsFixpoint | rename.py:24 | `rename_folders` leaves a tree whose names are all formatted exactly as it is |
| Renamer.SettledLogSkips | rename.py:30-31 | on such a tree, every line printed is a skip |
| Renamer.SettledSubtreesSkip | rename.py:30-31 | on such a tree, the subtrees' lines are all skips |
| Renamer.SettledPassSkips | rename.py:30-31 | on such a listing, the inner loop's lines are all skips |
| Renamer.PassUnobstructed | rename.py:19-26 | on a listing where no rename is refused, every entry handled so far carries its formatted name |
| Renamer.NotTaken | rename.py:26 | in such a listing, the formatted name of the next entry is held by no entry, so its rename succeeds |
| Renamer.UnobstructedRenamesAll | rename.py:17-31 | where no rename is refused, every directory of the tree ends up under its formatted name |
| Renamer.FormatNamesSettled | rename.py:24 | with an idempotent formatter, a tree whose names are all formatted has nothing left to format |
| Renamer.StepOfStuck | rename.py:24-29 | when every name of a listing is formatted, locked, or has its formatted name held by a formatted sibling, no turn of the loop body moves anything |
| Renamer.PassOfStuck | rename.py:19-29 | such a listing is left as it is |
| Renamer.PassLogOfStuck | rename.py:19-31 | on such a listing, the inner loop logs no rename |
| Renamer.StepKeeps | rename.py:20-29 | with an idempotent formatter, one turn of the loop body leaves every entry handled so far, and the one it handles, with no rename left to make |
| Renamer.PassKeeps | rename.py:19-29 | after the inner loop, every entry is formatted, locked, or blocked by a formatted sibling |
| Renamer.ProcessedOfRenamed | rename.py:18 | walking the subtrees of a renamed tree again changes none of them |
| Renamer.RenameAllIdempotent | rename.py:17-31 | for any idempotent formatter and on every tree, a second run of `rename_folders` changes nothing |
| Renamer.SecondRunMovesNothing | rename.py:17-31 | for any idempotent formatter and on every tree, a second run prints no rename line |
| Renamer.SubtreesMoveNothing | rename.py:18-27 | the subtrees' lines hold no rename when no child's walk has one |
| Renamer.SecondRunSkips | rename.py:17-31 | for an idempotent formatter, where no rename is refused, every line of a second run is a skip |
| Renamer.RenameFoldersIdempotent | rename.py:7-31 | with rename.py's `format_title`, on every tree, a second run changes nothing and renames nothing |
| Renamer.RenameFoldersTwice | rename.py:7-31 | with rename.py's `format_title`, where no rename is refused, every directory ends up formatted, and a second run changes nothing and prints only skips |
| Renamer.RelistedSelf | rename.py:18 | every tree is a relisting of itself, so the order the model keeps is one of the orders covered |
| Renamer.PermutedIsRelisted | rename.py:18 | a directory whose entries are listed in another order is a relisting of it |
| Renamer.ProcessedOfStuck | rename.py:18 | on a tree whose listings are all stuck, walking the subtrees changes none of them |
| Renamer.StuckIsFixpoint | rename.py:17-31 | `rename_folders` leaves a tree whose listings are all stuck exactly as it is |
| Renamer.StuckLogMovesNothing | rename.py:17-31 | on such a tree, `rename_folders` prints no rename line |
| Renamer.RenamedIsStuck | rename.py:17-31 | with an idempotent formatter, every listing of a renamed tree is stuck |
| Renamer.StuckRelisted | rename.py:18-29 | being stuck does not depend on listing order: every relisting of a stuck tree is stuck |
| Renamer.SettledRelisted | rename.py:24 | having only formatted names does not depend on listing order |
| Renamer.SecondRunInAnyOrder | rename.py:17-31 | for any idempotent formatter, on every tree, a second run over the renamed tree listed in any order changes nothing and prints no rename |
| Renamer.SecondRunSkipsInAnyOrder | rename.py:17-31 | where no rename was refused, a second run over the renamed tree listed in any order prints only skips |
| Renamer.RenameFoldersRerun | rename.py:7-31 | with rename.py's `format_title`, a second run over the renamed tree listed in any order changes nothing and renames nothing; where no rename was refused, it only skips |
| Renamer.WithinLift | rename.py:20 | a line about a path inside a subdirectory is about a path inside its parent |
| Renamer.PathLift | rename.py:20 | a path that exists inside a subdirectory exists inside its parent, under the subdirectory's name |
| Renamer.LinesLift | rename.py:18-31 | every line of a subtree's log is about a directory of the parent tree |
| Renamer.ListedWithin | rename.py:20 | a line about a listed entry is about a directory of the tree |
| Renamer.StepMessageLine | rename.py:20-31 | each line the loop body prints is about the entry's own path and agrees with `format_title` |
| Renamer.PassLogLines | rename.py:19-31 | the inner loop's log has a property line by line when each turn's line has it |
| Renamer.PassLogFaithful | rename.py:19-31 | each line of one directory's pass agrees with `format_title` and is about a directory listed there |
| Renamer.SubtreeLogsFaithful | rename.py:18-31 | each line from the subtrees walked so far agrees with `format_title` and is about a directory of the tree |
| Renamer.ChildLinesFaithful | rename.py:18-31 | each line of one subdirectory's walk agrees with `format_title` and is about a directory of the parent tree |
| Renamer.WalkLogFaithful | rename.py:18-31 | every line of the walk's log agrees with `format_title` and names a directory of the tree the walk started from |
| Renamer.RenameFoldersLog | rename.py:18-31 | every line printed names a directory that existed under that path when the walk started; a rename changes only the last component, to its formatted name; a skip is for a formatted name; no failure is "not found" |
| Examples.RenameIntroExample | rename.py:7-12 | `02_intro-to-topic` becomes `2. Intro To Topic` |
| Examples.RenameNotesExample | rename.py:13 | `notes` becomes `Notes` |
| Examples.RenameBareNumberExample | rename.py:8 | `07` has no `_` and slug, so it falls back and stays `07` |
| Examples.RenameTruncatedExample | rename.py:8-12 | `07_x y` matches with slug `x`, and the rest is dropped: `7. X` |
| Examples.NotesDocumentExample | main.py:20-26 | `01_document.en.txt` becomes `1. Document` |
| Examples.NotesHyphenatedExample | main.py:27 | `my-notes.en.txt` becomes `My-Notes`: main.py's fallback keeps hyphens |

Two edge cases of the code:

- rename.py's `format_title` falls back when there is nothing after the
  underscore, as in `07` or `07_`. It does not fall back for `07_x y`: there
  `re.match` stops the slug at the space and gives `7. X`.
- main.py's fallback keeps hyphens (`filename.title()`, main.py:27). Only
  rename.py's fallback turns them into spaces.

## Left out

- `generate_summary` and the OpenAI client (main.py:3-9, 32-49) call a network API, so they are not modelled.
- Reading and writing the transcript and the note, `os.makedirs` and the `print` after saving (main.py:62-74) are file I/O, so they are not modelled. `Notes.Destination` states only where the note goes.
- rename.py's `print` calls (rename.py:27-31) are modelled as a returned log of `Message` values, not as text on a stream.
- `os.walk` itself for main.py is not modelled. `Notes.ProcessFolder` takes the walk's `(root, files)` steps as a parameter, whatever order the operating system lists them in.
- Why `process_txt_to_md` raises (a missing file, a network error, a full disk) is not modelled. `Notes.ProcessFolder` takes the set of paths whose call raises as a parameter `fails`.
- config.py holds only constant settings, and the entry points (main.py:87-88, rename.py:35-36) only pass it in. Base folder and vault are parameters instead.
- Unicode is not modelled: `\d`, `str.title()` and case only cover ASCII. `strip()` does use Python's whole whitespace set.
- `os.path.relpath`, `os.path.split`, `os.path.join` and separators are not modelled. Paths are lists of segments, and the transcript is assumed to lie below the base folder (`Notes.Destination` requires it).
- `os.rename` onto an existing name depends on the platform. POSIX replaces an empty directory, and Windows refuses. The model always fails with `TargetExists` and changes nothing, and it checks permission first.
- Other reasons `os.rename` can raise are covered by the `locked` flag. These include permission, a directory in use, cross-device moves and invalid names. Symbolic links, case-insensitive file systems and changes made by other processes during the walk are not modelled.
- Files inside the renamed folders are not in the tree: `rename_folders` renames only directories. A file can still block a rename, as the `Renamer.RenameOp` line below says.
- `Renamer.RenameOp`: a regular file that already holds the formatted name in the same folder makes `os.rename` raise. The model does not see the file and renames the directory.
- `Renamer.FileSystem.RenameFolders`: `os.walk` is called without `onerror`, so a subdirectory it cannot list is silently not walked (its subfolders keep their names), while its parent still renames it. The model can list every directory.
- `Renamer.SecondRunSkips`: "a second run prints only skips" is proved only where no rename is refused (`TreeUnobstructed`). A refused rename is tried again and fails again. That the second run changes nothing and renames nothing holds on every tree (`Renamer.SecondRunInAnyOrder`). Also, the second run here lists each renamed directory in the order the model keeps. `Renamer.SecondRunSkipsInAnyOrder` allows any order.
- `Renamer.RenameFoldersTwice`: proved only under the same `TreeUnobstructed` condition, for the same reason. It also lists the second run in the order the model keeps. `Renamer.RenameFoldersRerun` allows any order, and without the condition it proves that nothing changes.
- `Renamer.RenameAllIdempotent`: the second run lists each renamed directory in the order the model keeps. `Renamer.SecondRunInAnyOrder` states it for any order.
- `Renamer.SecondRunMovesNothing`: the same listing order as `Renamer.RenameAllIdempotent`. `Renamer.SecondRunInAnyOrder` states it for any order.
- `Renamer.RenameFoldersIdempotent`: the same listing order. `Renamer.RenameFoldersRerun` states it for any order.
- `Renamer.UnobstructedRenamesAll`: "every name ends up formatted" is proved only under `TreeUnobstructed`. Otherwise the rename is refused and the line logs why (`Renamer.RenameFoldersLog`).
