# IR colour guide build and release scripts, modelled in Dafny

The repository keeps its colour palettes in `palettes.yml`. `scripts/build.py`
turns that list into two generated artefacts:

- a Tableau `Preferences.tps` file, an XML-like document;
- an R script that assigns one named vector `c(...)` per palette.

`scripts/version.py` is the release helper. It checks that the work is on a
clean `main` branch, bumps the version with `poetry version <kind>`, rewrites
`__version__` in `scripts/__init__.py`, then commits and tags.

This project models both scripts as pure Dafny definitions.

- **Palettes.** A palette is a record whose fields may be missing. The
  accessors apply the scripts' `.get` defaults.
- **Emitters.** They are functions from a palette list to a list of lines,
  and the file text is those lines joined. `generate_tableau_preferences`
  and `generate_r_script` are also written as methods that build the list
  the way the scripts do. They start from the fixed opening lines, append
  each palette's lines in turn, and the Tableau one then adds the closing
  tags. Loop invariants prove each method equal to its function.
- **Release helper.** It is a function of the command outputs, which are
  supplied as a `Repo` record. A run yields the list of commands executed,
  the new `__init__.py` text (if the file was rewritten) and the result.
- **String operations.** Python's `lower`, `capitalize`, `isalnum`,
  `isspace`, `strip`, `split(sep)`, `join` and `replace` are modelled in
  module `Text` with ASCII semantics.

Modules:

| module | file | models |
|---|---|---|
| `Results` | results.dfy | `Option` for missing keys, `Result` for raised errors |
| `Text` | text.dfy | the Python string operations above |
| `Palettes` | palettes.dfy | palette records, `.get` defaults, the `load_palettes` schema gate |
| `Tableau` | tableau.dfy | `get_tableau_type`, `generate_tableau_preferences` |
| `RScript` | rscript.dfy | `sanitize_variable_name`, `format_r_type`, `generate_r_script` |
| `Version` | version.dfy | `get_version`, `get_branch`, `is_clean_main_branch`, `check_branch`, `update_init_py_version`, `git_add_commit_version_tag`, `bump_version` |

`format_r_type` is documented as returning a "capitalized type string". The
model follows its code, `str.capitalize`, which also lower-cases every
character after the first. So `FormatRType("sEQUENTIAL")` is `"Sequential"`,
not `"SEQUENTIAL"`.

## Model

| member | source | states |
|---|---|---|
| Palettes.LoadPalettes | scripts/build.py:34-37 | the schema error is raised exactly when the document is empty or has no `palettes` key; otherwise the bound value is returned unchanged |
| Palettes.EmptyPaletteListAccepted | scripts/build.py:34-37 | every document whose `palettes` list is empty passes the gate, whatever other keys it holds, because only the whole document is tested for emptiness |
| Palettes.LoadErrorMessage | scripts/build.py:35 | the schema error's message quotes the missing key, `'palettes'` |
| Palettes.MissingFieldDefaults | scripts/build.py:78-95 | for every palette and colour, a missing field reads as its default (name `""`, type `"categorical"`, description `""`, no colours, key and value `""`) and a present field reads as its value |
| Palettes.HeaderNotesSingleLine | scripts/build.py:69-75 | the three provenance notes shared by both generated files hold no line feed |
| Tableau.GetTableauType | scripts/build.py:50-55 | the mapping is total and lands in the three Tableau types; it gives `ordered-sequential` exactly for `sequential`, `ordered-diverging` exactly for `diverging`, and `regular` for every other input |
| Tableau.DocumentLines | scripts/build.py:66-102 | the line list starts with the 3 wrapper lines and 3 header comments and ends with the 2 closing tags; an empty palette list gives exactly those 8 lines |
| Tableau.PreferencesText | scripts/build.py:106 | the file text ends with a line feed |
| Tableau.GenerateTableauPreferences | scripts/build.py:66-102 | starting from the prolog, the loop appends every palette's block in list order, and the epilog follows |
| Tableau.AppendColors | scripts/build.py:93-98 | the colour loop appends each colour's lines in list order |
| Tableau.PaletteBlockShape | scripts/build.py:77-100 | a block is one opener naming the palette and its mapped type, a description comment exactly when the description is non-empty, the colour lines, and one closer; its length counts one line per colour plus one per non-empty key |
| Tableau.ColorEntryShape | scripts/build.py:93-98 | a colour gives a key comment only when its key is non-empty, then exactly one `<color>` element holding the value verbatim |
| Tableau.EntriesLength | scripts/build.py:93-98 | the colour lines number the colours plus the colours with a non-empty key |
| Tableau.PaletteOrderPreserved | scripts/build.py:77-100 | the body of a concatenated palette list is the concatenation of the bodies |
| Tableau.ColorElementRoundTrip | scripts/build.py:98 | reading a `<color>` element back gives the value written into it |
| Tableau.ColorValuesInOrder | scripts/build.py:66-102 | reading every `<color>` line of the document back gives each palette's colour values, palettes in list order and colours in list order, with no other line mistaken for one |
| Tableau.PaletteHeadsInOrder | scripts/build.py:77-86 | the document holds exactly one `<color-palette>` opener per palette, in list order, each naming the palette and its mapped type |
| Tableau.DocumentSingleLine | scripts/build.py:66-102 | when no palette field holds a line feed, no line of the document does |
| Tableau.PreferencesTextLines | scripts/build.py:105-106 | when no field holds a line feed, splitting the written text at line feeds gives the line list followed by one empty piece, i.e. exactly one trailing line feed |
| RScript.SanitizeVariableName | scripts/build.py:120-123 | the identifier is the per-character image of the name: letters, digits and `_` kept with letters lower-cased, each space becomes one `_`, everything else is dropped; every output character is lower-case, a digit or `_`; the output is never longer; the number of underscores equals the spaces plus the underscores of the input |
| RScript.SanitizeConcat | scripts/build.py:120-123 | sanitizing distributes over concatenation, so the filter works character by character |
| RScript.SanitizeFixedPoint | scripts/build.py:120-123 | a name made only of lower-case letters, digits and `_` is returned unchanged |
| RScript.SanitizeIdempotent | scripts/build.py:120-123 | sanitizing twice is the same as sanitizing once |
| RScript.FormatRType | scripts/build.py:136 | the label has the input's length, and the empty type gives the empty label; its first character is not lower-case and agrees with the input's up to case; no later character is upper-case; it differs from the input in letter case only |
| RScript.ScriptLines | scripts/build.py:147-175 | the line list starts with the 4 header lines; an empty palette list gives just those |
| RScript.GenerateRScript | scripts/build.py:147-175 | starting from the header, the loop appends every palette's block in list order |
| RScript.AppendColors | scripts/build.py:167-172 | the index-based colour loop produces the colour lines of the block |
| RScript.EntryLinesIndexed | scripts/build.py:167-172 | colour line i is the key and value of colour i, followed by a comma exactly when i is not the last index |
| RScript.CommaRule | scripts/build.py:170-172 | colour line i ends with a comma if and only if i < number of colours - 1, so the last colour never carries one |
| RScript.PaletteBlockShape | scripts/build.py:160-175 | a block is the assignment line for `color_values_` plus the sanitized name, the type comment, the description comment (also when empty), one line per colour in order, `)` and an empty line |
| RScript.PaletteOrderPreserved | scripts/build.py:154-175 | the blocks of a concatenated palette list are the concatenation of the blocks |
| RScript.EntryLinesInOrder | scripts/build.py:154-175 | the colour lines found in the script are every palette's colour lines, palettes in list order, with no header, assignment or comment line mistaken for one |
| RScript.ScriptText | scripts/build.py:178-179 | the lines are joined by line feeds with none appended, yet the text ends with exactly one line feed, because the list ends with an empty line |
| RScript.ScriptLinesEnd | scripts/build.py:147-175 | the line list ends with an empty line, preceded by a non-empty line without a line feed: the last palette's `)`, or the last header note when there are no palettes |
| RScript.ScriptTextLines | scripts/build.py:178-179 | when no field holds a line feed, splitting the written text at line feeds gives back exactly the line list, so no line feed is added at the end |
| Version.GetVersion | scripts/version.py:20-23 | the read fails exactly when the output holds no space; otherwise the token holds no space and has no surrounding whitespace |
| Version.PoetryOutputVersion | scripts/version.py:23 | an output made of a space-free name, a space, the version and any trailing whitespace (a line feed, or none at all) reads as `<version>` |
| Version.GetBranch | scripts/version.py:34 | the branch is the output with whitespace, and only whitespace, cut from both ends; it neither starts nor ends with whitespace |
| Version.BranchLine | scripts/version.py:34 | a branch name printed on its own line reads back as itself |
| Version.IsCleanMainBranch | scripts/version.py:93-96 | the tree is clean if and only if the stripped status output is exactly `## main...origin/main` |
| Version.CleanStatusIsClean | scripts/version.py:93-96 | the clean status line followed by a line feed is clean |
| Version.ChangedFileIsDirty | scripts/version.py:93-96 | any further status line after the branch line makes the tree unclean |
| Version.CheckBranch | scripts/version.py:108-120 | the gate passes if and only if the branch is `main` and the tree is clean; off `main` the error names the branch whatever the status; on `main` with changes the error is the unclean-tree one |
| Version.CheckBranchRun | scripts/version.py:108-120 | the branch command runs first, and the status command runs only when the branch is `main`; the outcome is the gate's decision unless a command fails, and a failed command is the last one run |
| Version.Message | scripts/version.py:110-134 | the three errors the script raises itself have messages, and the not-on-`main` message gives its branch back |
| Version.BranchMessageRoundTrip | scripts/version.py:110-114 | the not-on-`main` message contains the offending branch name, which can be read back from it |
| Version.CompletionMessage | scripts/version.py:148-153 | the closing message begins `Bumped version to ` followed by the new version |
| Version.UpdateInitPyVersion | scripts/version.py:53-55 | every non-overlapping occurrence of `__version__ = "<current>"`, scanned left to right, becomes `__version__ = "<new>"` and the text between occurrences is kept; without an occurrence, or when the versions are equal, the text is unchanged |
| Version.RewritesTheAssignment | scripts/version.py:53-55 | a file holding the assignment once gets exactly that text rewritten, and everything before and after it is unchanged |
| Version.CommitAndTagRoundTrip | scripts/version.py:71-75 | the commit message is `Bump version to <v>` and the tag is `v<v>`; both give `<v>` back, so distinct versions get distinct tags |
| Version.GitAddCommitTag | scripts/version.py:69-75 | the commands run are a prefix of: add `scripts/__init__.py`, add `pyproject.toml`, commit, tag; all four run exactly when none fails, and a failure stops the rest |
| Version.GetVersionRun | scripts/version.py:20-23 | `poetry version` is run, and its output is read only if it succeeds |
| Version.OnlyLaterCommandsMutate | scripts/version.py:133-146 | the first three commands of a bump only read, and the fourth (`poetry version <kind>`) is the first to change anything |
| Version.BumpVersion | scripts/version.py:133-154 | a kind outside major/minor/patch is rejected before any command runs; the commands run are always a prefix of the bump order; the run succeeds if and only if the kind is valid, the gate passes, both versions can be read and no command fails, and then it ran all nine commands and returns the closing message for the new version; `__init__.py` is rewritten exactly when more than five commands ran, with the two versions read; no changing command runs unless the gate passed and the current version was read; a failing command is the last one run; a branch or tree error stops after one or two commands; every failing run is tied to its cause: a branch error names a branch other than `main`, an unclean-tree error comes only from a status that is not clean, a malformed-version error only from an output that cannot be read, and a failed command is the first one that fails, so no later command runs; more than one command runs only on `main`, and more than two only once the gate has passed |
| Version.ReleaseRun | scripts/version.py:137-154 | after the gate, the same guarantees hold for the version reads, the bump, the rewrite and the git steps, and a malformed-version error reports an output that cannot be read |
| Version.BumpAndReadRun | scripts/version.py:137-141 | the current version is read, then `poetry version <kind>` runs, then the new version is read; both versions are returned exactly when both outputs can be read and no command fails; `poetry version <kind>` runs only after the current version was read; an unreadable output stops the run right after the read that produced it; the output reported as malformed is one that cannot be read |
| Version.PublishRun | scripts/version.py:143-154 | `__init__.py` is rewritten from the current to the new version; the git commands run are a prefix of add, add, commit, tag; the closing message for the new version is returned exactly when none fails |
| Text.Strip | scripts/version.py:34 | the result is a slice of the input with only whitespace cut from both ends, and it neither starts nor ends with whitespace |
| Text.StripSurrounded | scripts/version.py:34 | stripping text that sits between runs of whitespace gives that text back |
| Text.Split | scripts/version.py:23 | the pieces joined with the separator give the input back, and no piece holds the separator, so the text is cut at every occurrence |
| Text.JoinLength | scripts/build.py:179 | `"\n".join(lines)` holds the characters of every line plus one separator between each two neighbours, and joining no lines gives the empty text |
| Text.SplitJoin | scripts/version.py:93 | splitting lines joined at a one-character separator that none of them holds gives the lines back |
| Text.SplitOneCharCount | scripts/version.py:93-94 | a text splits into two or more pieces at a one-character separator exactly when it holds that separator |
| Text.Replace | scripts/version.py:53-55 | the result equals the pieces between occurrences, rejoined with the replacement |
| Text.ReplaceAfter | scripts/version.py:53-55 | the first occurrence is rewritten and the text before it kept |
| Text.Lower | scripts/build.py:120 | the result keeps the length and lower-cases every character |
| Text.Capitalize | scripts/build.py:136 | the first character is upper-cased and every later one lower-cased |
| Text.CapitalizeIdempotent | scripts/build.py:136 | capitalizing twice is capitalizing once |

## Left out

- Reading `palettes.yml` and writing `Preferences.tps`, the R script and `scripts/__init__.py`. This is file I/O: the model takes the parsed document and the file text as values and returns the text to write.
- YAML parsing and the re-raising of not-found and parse errors (scripts/build.py:26-32). The parser is an external library; its result is the abstract `Document`.
- Top-level YAML values other than a mapping or nothing, such as a list or a scalar. `Node.OtherValue` stands for any `palettes` value that is not a palette list; it is passed through but never emitted.
- Explicit YAML `null` or non-string field values. `Option` models only an absent key, where `.get` yields its default; a present `null` would be formatted by Python as `None`.
- Non-ASCII text. `lower`, `capitalize`, `isalnum` and `isspace` follow their ASCII behaviour only; Python's Unicode case mappings and letter classes are not modelled.
- `run_prettier`, `main` and every `print`. These are process and console plumbing. The closing message of `bump_version` is returned instead of printed.
- `scripts/formatter.py`, `scripts/linter.py` and `scripts/test.py`. They are fixed command lists with no decisions.
- `major`, `minor` and `patch` (scripts/version.py:157-178). Each only calls `bump_version` with its own kind, i.e. `BumpVersion("major", repo)` and so on.
- The text of errors raised by Python or `subprocess` (`IndexError`, `CalledProcessError`). `Version.Message` gives `None` for them.
- Version.BumpVersion: a command that exits non-zero is modelled as having no effect, and at most one failure position is modelled. Partial effects of a failing `git commit` and failures of the file reads and writes are not modelled.
- Version.GetVersion: its contract states the shape of the token, not its position in the output. The position is stated by `Version.PoetryOutputVersion` for the output format `poetry version` prints.
