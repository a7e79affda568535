# Run store of dust, in Dafny

This project models the run store of dust (`src/run.rs`): how a pipeline run is
persisted under a workspace and read back.

- **Run contents.** A run has an identifier, a `RunConfig` and a trace. The
  `RunConfig` holds the start time, the app hash and the per-block configuration.
  The trace holds, per executed block, the block's type and name and, per input,
  the vector of `BlockExecution`s of its branches.
- **`Run::store`** writes the run once, below `<root>/.runs/<run_id>`:
  - `config.json` holds the serialised configuration;
  - each trace entry `i` gets a directory `<i>-<type>_<name>`;
  - inside it, each input `j` gets a file `<j>.json` holding the serialised
    branch vector.
- **The read side.**
  - `RunConfig::load` reads a configuration back.
  - `Run::load` rebuilds a run with that configuration and an empty trace.
  - `cmd_list` loads every run under `.runs` and lists the runs latest start time
    first.

The disk is a map from paths to nodes:
- a path is a sequence of components;
- a node is a directory or a file holding a JSON value.

A `FileSystem` object owns that map. Its methods update the map in place:
- `CreateDirAll` models `create_dir_all`;
- `WriteFile` models `File::create`, then `write_all`, then `flush`.

`Run.Store` runs the same steps, in the same order and with the same nested loops,
as `Run::store`. Its contract states the whole new disk: the old disk plus
`Layout(root)`. The lemmas characterise that layout:
- exactly one directory per trace entry;
- exactly one file per input, with its contents;
- nothing outside the run directory;
- reading the configuration back returns the stored configuration;
- a second store of the same run identifier is refused.

Block directory names are real strings: the decimal index, then `-`, the type
text, `_` and the name. Two entries never share a directory, even with the same
type and name, because the leading decimal number of a name gives back its
index (`Decimal.LeadingNumberOf`).

`cmd_list` becomes:
- a loop over the entries of `.runs`, in the order `read_dir` yields them. That
  order is not specified, so it is an argument, `entries`, holding each entry
  once;
- a stable sort by start time, latest first.

`LoadEach` states what the loop gathers for a given order: the directories in
visiting order with their configurations, or the error of the first directory
that fails to load. The contract of `ListRuns` states five things:
- the result holds exactly the run directories, each paired with the
  configuration it loads;
- the result is ordered latest first;
- the result is the stable sort of what `LoadEach` gathers, so runs with the
  same start time keep `read_dir`'s order;
- listing fails exactly when some run directory fails to load;
- on failure, the error is that of the first failing directory in `read_dir`'s
  order.

`Listing.StableSortUnique` shows these facts determine the result, so it agrees
with whatever stable algorithm `sort_by` uses.

Two behaviours of the code are worth spelling out:
- `store` does not create `.runs`. It requires an existing `.runs` directory
  (src/run.rs:77), and so does the model.
- The `assert!`s on two conditions stop the process when they fail: `.runs` must
  be a directory, and the run directory must not exist yet (src/run.rs:27 and
  src/run.rs:77-79). Here they are the error results `RunsDirMissing` and
  `RunExists`, and nothing is written in either case.

Files:
- `wrappers.dfy`: `Option`, `Result`, `Outcome`.
- `decimal.dfy`: decimal rendering of indices, and reading a leading decimal back.
- `json.dfy`: JSON values.
- `fs.dfy`: the disk and the `FileSystem` class.
- `runs.dfy`: `RunConfig`, `Run`, the on-disk layout and its properties.
- `listing.dfy`: `cmd_list`.

## Model

| member | source | states |
|---|---|---|
| `Decimal.Digits` | src/run.rs:95 | The decimal text of an index has at least one character and only digits, and starts with `0` only for index 0. |
| `Decimal.ParseDigits` | src/run.rs:95 | Reading the decimal text of `n` back gives `n`. |
| `Decimal.TakeDigits` | src/run.rs:95 | Returns the longest run of digits at the front of a string: a prefix made of digits, followed by a non-digit or by nothing. |
| `Decimal.TakeDigitsOfDigitsThen` | src/run.rs:95 | Digits followed by a non-digit: the digit prefix is exactly those digits. |
| `Decimal.LeadingNumberOf` | src/run.rs:95 | The number at the front of `<n>` followed by a separator is `n`. |
| `Decimal.DigitsInjective` | src/run.rs:95 | Different indices have different decimal texts. |
| `Fs.FileSystem.CreateDirAll` | src/run.rs:82 | `create_dir_all` succeeds iff no prefix of the path is a file. On success it adds exactly the missing directories on the path and keeps the tree well formed. On failure nothing changes. |
| `Fs.FileSystem.WriteFile` | src/run.rs:87-90 | Creating and writing a file succeeds iff the parent is a directory and the path is not a directory. On success exactly that path changes, to a file holding the data. On failure nothing changes. |
| `Fs.NoOrphans` | src/run.rs:79-82 | In a well-formed tree nothing lies below a missing path, so a fresh run directory has nothing below it. |
| `Fs.CreateChildDir` | src/run.rs:82 | Creating a missing directory whose parent exists adds that one directory and meets no file on the way. |
| `Fs.ChildNamesMember` | src/run.rs:137 | `read_dir` lists name `x` iff `dir/x` exists. |
| `Fs.SubdirNamesMember` | src/run.rs:143 | `x` is among the subdirectory names iff `dir/x` is a directory. |
| `Runs.BlockDirIndex` | src/run.rs:94-95 | The number at the front of a block directory name is its trace index. |
| `Runs.BlockDirNameStartsWithDigit` | src/run.rs:94-95 | A block directory name starts with a digit. |
| `Runs.BlockDirNotConfig` | src/run.rs:84 | No block directory is named `config.json`. |
| `Runs.BlockDirNamesDistinct` | src/run.rs:93-95 | Entries with different indices get different directory names, even when their type and name coincide. |
| `Runs.InputFileIndex` | src/run.rs:99 | The number at the front of `<j>.json` is `j`. |
| `Runs.InputFileNamesDistinct` | src/run.rs:99 | Different inputs get different file names. |
| `Runs.ExecutionRoundTrip` | src/run.rs:102 | Deserialising a serialised `BlockExecution` gives it back, except that a value that is itself `null` comes back as no value. |
| `Runs.NullValueIndistinct` | src/run.rs:102 | A `null` value and no value are different executions but are written alike. |
| `Runs.ExecutionsRoundTrip` | src/run.rs:102 | Deserialising a serialised branch vector gives the same number of executions, each one back as written, with `null` values read as no value. So a vector without `null` values comes back unchanged. |
| `Runs.RunConfig.ConfigForBlock` | src/run.rs:19-21 | Returns a value iff `name` is a key of `blocks`, and then the value stored under it. Absence is `None`, not an error. |
| `Runs.RunConfig.Load` | src/run.rs:23-40 | Fails with `RunsDirMissing` when `.runs` is not a directory. Fails with `RunNotFound(run_id)` when the run directory is absent. Otherwise fails only with `Io` or `Malformed` on `config.json`. Succeeds iff `config.json` is a file holding a serialised configuration, and returns that configuration. |
| `Runs.ConfigJsonRoundTrip` | src/run.rs:88 | Deserialising the serialised configuration gives it back. |
| `Runs.Run.New` | src/run.rs:61-67 | A new run has the given identifier and configuration and an empty trace. |
| `Runs.Run.Store` | src/run.rs:73-114 | Refuses with `RunsDirMissing` when `.runs` is not a directory, and with `RunExists` when the run directory already exists, writing nothing in either case. Otherwise succeeds, and the disk becomes the old disk plus `Layout(root)`, still well formed. |
| `Runs.Run.StoreBlock` | src/run.rs:93-107 | One pass of the trace loop adds the directory of entry `i` and one file per input of it, and nothing else. |
| `Runs.Run.Load` | src/run.rs:116-124 | Succeeds iff `RunConfig::load` succeeds. On success it returns the given identifier, the loaded configuration and an empty trace. On failure it returns the same error. |
| `Runs.StoreBlockDirStep` | src/run.rs:94-97 | Before the block directory is created, its parent run directory exists and the block directory does not. |
| `Runs.StoreInputFileStep` | src/run.rs:98-105 | Before an input file is written, its block directory exists and the file does not. |
| `Runs.InputFilesShape` | src/run.rs:98-106 | Every stored input file is `<dir>/<j>.json` for some input `j` written so far, holding that input's branch vector. |
| `Runs.InputFilesHas` | src/run.rs:98-106 | The file of every input written so far is present with its branch vector. |
| `Runs.InputFilesLacks` | src/run.rs:98-106 | Files of inputs not yet written are absent. |
| `Runs.InputFilesUnder` | src/run.rs:98-99 | Input files lie directly in their block directory. |
| `Runs.BlockEntriesShape` | src/run.rs:93-106 | What is stored for one entry is its directory or one of its input files. |
| `Runs.BlocksUpToShape` | src/run.rs:93-107 | Everything stored for the first `k` entries was stored, unchanged, for one entry `i < k`. |
| `Runs.BlockEntriesUnder` | src/run.rs:93-106 | Everything stored for entry `i` lies inside entry `i`'s directory. |
| `Runs.BlocksUpToLacks` | src/run.rs:93-107 | Nothing inside the directory of an entry not yet stored exists among the stored entries. |
| `Runs.BlocksUpToHas` | src/run.rs:93-107 | What was stored for an entry survives, unchanged, the storing of later entries. |
| `Runs.BlocksUpToPath` | src/run.rs:93-107 | A stored block path lies one or two levels below the run directory, under a name that starts with a digit. |
| `Runs.BlocksUpToUnder` | src/run.rs:93-107 | The same, for every stored block path. |
| `Runs.NothingBelowMissing` | src/run.rs:78-79 | Nothing lies below a run directory that does not exist. |
| `Runs.LayoutSound` | src/run.rs:73-114 | Every path the store adds holds what `StoredAt` decodes from the path: the run directory, `config.json`, a block directory, or an input file with its branch vector. |
| `Runs.LayoutComplete` | src/run.rs:73-114 | Every path `StoredAt` decodes is added by the store. |
| `Runs.LayoutHasBlockDir` | src/run.rs:93-97 | Every trace entry `i` has its directory `<i>-<type>_<name>`. |
| `Runs.LayoutHasInputFile` | src/run.rs:98-106 | Every input `j` of entry `i` has its file `<j>.json`, holding that input's serialised branch vector. |
| `Runs.LayoutConfined` | src/run.rs:78-107 | Everything the store adds lies in the run directory. Every path outside it keeps its presence and contents. |
| `Runs.StoreThenLoad` | src/run.rs:84-91 | After a store, `RunConfig::load` returns the stored configuration (`config()`), and `Run::load` returns the run with that configuration and an empty trace. |
| `Runs.StoredRunIsWriteOnce` | src/run.rs:77-79 | After a store, `.runs` is still a directory and the run directory exists, so a second store with the same identifier is refused. |
| `Runs.BlockDirNamesCount` | src/run.rs:93-95 | `k` trace entries have `k` distinct directory names. |
| `Runs.InputFileNamesCount` | src/run.rs:98-99 | `n` inputs have `n` distinct file names. |
| `Runs.BlockDirCount` | src/run.rs:93-97 | The subdirectories of a stored run are exactly the block directories of its trace, one per entry. A run whose trace stops after two blocks has two. |
| `Runs.InputFileCount` | src/run.rs:98-106 | The files in the directory of entry `i` are exactly `<j>.json` for each input `j`, one per input. |
| `Runs.NamesInFreshRunDir` | src/run.rs:78-107 | On a well-formed disk without the run directory, the subdirectories and files inside the run directory after the store are exactly those of the layout. |
| `Runs.StoredBlockDirCount` | src/run.rs:78-97 | After a store on a well-formed disk, the run directory holds exactly the block directories of the trace, one per entry. |
| `Runs.StoredInputFileCount` | src/run.rs:78-106 | After a store on a well-formed disk, the directory of entry `i` holds exactly one `<j>.json` per input. |
| `Listing.StartedAtCons` | src/run.rs:150 | Runs started at `t` in `x` followed by a list: `x` itself if it started at `t`, then the runs of the list. |
| `Listing.Insert` | src/run.rs:150 | Insertion adds exactly the one run (as multisets). |
| `Listing.SortMostRecentFirst` | src/run.rs:150 | The sort is a permutation of its input. |
| `Listing.InsertSorted` | src/run.rs:150 | Inserting into a latest-first list keeps it latest first. |
| `Listing.SortSorted` | src/run.rs:150 | The sort lists runs latest start time first. |
| `Listing.InsertStable` | src/run.rs:150 | Insertion keeps the inserted run ahead of the runs with the same start time that it preceded. |
| `Listing.SortStable` | src/run.rs:150 | The sort is stable: for every start time, the runs with that start time keep their order. |
| `Listing.StartedAtMembers` | src/run.rs:150 | The runs picked for a start time are runs of the list with that start time. |
| `Listing.StartedAtOfFirst` | src/run.rs:150 | A non-empty list has runs at the start time of its first run. |
| `Listing.FirstIsLatest` | src/run.rs:150 | In a latest-first list, the first run started no earlier than any other. |
| `Listing.StableSortUnique` | src/run.rs:150 | Two latest-first lists that keep the same order among runs of every start time are equal, so the stable sort has one possible result. |
| `Listing.SortKeepsIds` | src/run.rs:150 | Sorting keeps the length and the set of run identifiers. |
| `Listing.CollectAdd` | src/run.rs:143-146 | Pushing a new run whose configuration loads extends what is collected by that run. |
| `Listing.LoadEachErrorStays` | src/run.rs:140-148 | Once the entries visited so far fail, visiting more entries fails with the same error. |
| `Listing.LoadEachFirstError` | src/run.rs:140-148 | A failed listing reports the error of the first directory, in visiting order, whose configuration does not load. Every directory before it loads. |
| `Listing.LoadEachCollects` | src/run.rs:140-148 | Visiting distinct entries succeeds iff every directory among them loads. On success it gathers one run per directory, with distinct identifiers, each with the configuration it loads. On failure the error is that of one of those directories. |
| `Listing.DirsAmongAreRunIds` | src/run.rs:137-143 | When the entries are those `read_dir` lists, the directories among them are exactly the run directories. |
| `Listing.LoadEachRunIds` | src/run.rs:137-148 | The same facts as `LoadEachCollects`, stated for the run directories of `.runs`. |
| `Listing.CollectRuns` | src/run.rs:137-148 | The loop gathers exactly what `LoadEach` gives for the order `read_dir` yields. It succeeds iff every subdirectory of `.runs` loads, and on failure the error is that of a subdirectory that fails to load. On success it returns one pair per subdirectory, with distinct identifiers, each with the configuration it loads. |
| `Listing.ListRuns` | src/run.rs:133-150 | Fails with an I/O error on `.runs` when `.runs` is not a directory. Otherwise it fails iff `LoadEach` fails, with the error of the first failing directory in `read_dir`'s order. On success it returns the stable latest-first sort of what `LoadEach` gathers: exactly the run directories with their configurations, latest start time first, with runs of equal start time in `read_dir`'s order. |

## Left out

- Async I/O and the real filesystem: the disk is an abstract map and every call
  completes at once. The order in which `read_dir` yields entries is an argument
  of `ListRuns`. Failures of `read_dir` entries (`entry?`), non-UTF-8 file
  names (the `unwrap`s at src/run.rs:144) and symbolic links are not modelled.
- `utils::init_check`: the workspace root is a parameter (`root`).
- `utils::new_id`: the run identifier is an argument of `Run.New`. Its
  uniqueness is the caller's. Identifiers and block names are taken to be
  single path components, without separators.
- Logging (`utils::action`, `utils::done`, `utils::info`) and
  `utils::utc_date_from`: `ListRuns` returns the listing instead of printing it.
- serde_json text: files hold JSON values, not their text.
  - Serialisation and parsing are modelled on the value tree: `ToJson`/`FromJson`
    for `RunConfig`, and `ExecutionsToJson`/`ExecutionsFromJson` for branch
    vectors. Parsing accepts serde's object form, ignoring unknown keys, and its
    array form.
  - Floating-point numbers are not modelled; JSON numbers are integers.
- `BlockType` is represented by the text `to_string` gives it. `BlockExecution`
  is defined in `src/app.rs`, which is not part of this model. Its shape (an
  optional value and an optional error, both absent for a skipped branch) is
  taken from the comment at src/run.rs:52-54.
- `Run::config` is the accessor `Run.Config`, used in the contract of
  `StoreThenLoad`. It has no contract of its own beyond returning the field.
- `cmd_inspect` (src/run.rs:127-131) only calls `Run::load`, which is modelled.
- I/O failures in the middle of `store` (disk full, permissions) are not
  modelled. Every step of `Run.Store` succeeds once its two checks pass, and the
  contract proves that each step's own precondition holds. A partially written
  run is therefore not represented.
- Concurrent `store` calls and the check-then-create race between them.
- `Vec::sort_by` is modelled by a stable insertion sort. `StableSortUnique`
  shows that any stable sort gives the same result.
