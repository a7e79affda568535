/**
 * The run store: a run's configuration, its trace of block executions, and the
 * way a run is written to and read back from the `.runs` directory of a workspace.
 *
 * On disk a stored run looks like
 *   <root>/.runs/<run_id>/config.json
 *   <root>/.runs/<run_id>/<block_index>-<block_type>_<block_name>/<input_index>.json
 */
module Runs {
  import opened Wrappers
  import opened Json
  import opened Decimal
  import opened Fs

  newtype u64 = x: int | 0 <= x < 0x1_0000_0000_0000_0000

  /** Why loading or storing a run fails. */
  datatype Error =
    | RunsDirMissing           // `.runs` is not a directory (an assertion, that is a panic, in the source)
    | RunExists(runId: string) // the run directory already exists when storing (an assertion as well)
    | RunNotFound(runId: string)
    | Io(path: Path)           // a filesystem call failed on `path`
    | Malformed(path: Path)    // the file at `path` does not hold a serialised RunConfig

  /** The result of executing one block on one input and one branch: an output, an error, or neither (skipped). */
  datatype BlockExecution = BlockExecution(value: Option<Json>, error: Option<string>)

  /** A block of the pipeline: the text of its type and its name. */
  datatype BlockKey = BlockKey(blockType: string, name: string)

  /** One trace entry: a block and, per input, the executions of its branches. */
  type Trace = (BlockKey, seq<seq<BlockExecution>>)

  // ---------------------------------------------------------------------------
  // Paths

  const RunsDirName := ".runs"
  const ConfigFileName := "config.json"

  function RunsDir(root: Path): Path {
    root + [RunsDirName]
  }

  function RunDir(root: Path, runId: string): Path {
    RunsDir(root) + [runId]
  }

  function ConfigPath(root: Path, runId: string): Path {
    RunDir(root, runId) + [ConfigFileName]
  }

  /** `<block_index>-<block_type>_<block_name>`. */
  function BlockDirName(index: nat, block: BlockKey): string {
    Digits(index) + ("-" + block.blockType + "_" + block.name)
  }

  /** `<input_index>.json`. */
  function InputFileName(index: nat): string {
    Digits(index) + ".json"
  }

  predicate StartsWithDigit(s: string) {
    s != [] && IsDigit(s[0])
  }

  /** The block index a block directory name starts with. */
  lemma BlockDirIndex(index: nat, block: BlockKey)
    ensures LeadingNumber(BlockDirName(index, block)) == index
  {
    LeadingNumberOf(index, "-" + block.blockType + "_" + block.name);
  }

  /** A block directory name starts with a digit. */
  lemma BlockDirNameStartsWithDigit(index: nat, block: BlockKey)
    ensures StartsWithDigit(BlockDirName(index, block))
  {
    assert BlockDirName(index, block)[0] == Digits(index)[0];
  }

  /** No block directory is named `config.json`. */
  lemma BlockDirNotConfig(index: nat, block: BlockKey)
    ensures BlockDirName(index, block) != ConfigFileName
  {
    BlockDirNameStartsWithDigit(index, block);
    assert !StartsWithDigit(ConfigFileName);
  }

  /** The input index an input file name starts with. */
  lemma InputFileIndex(index: nat)
    ensures LeadingNumber(InputFileName(index)) == index
  {
    LeadingNumberOf(index, ".json");
  }

  /**
   * Block directories of different trace entries never collide, even when both
   * entries have the same block type and name.
   */
  lemma BlockDirNamesDistinct(i: nat, j: nat, a: BlockKey, b: BlockKey)
    requires i != j
    ensures BlockDirName(i, a) != BlockDirName(j, b)
  {
    BlockDirIndex(i, a);
    BlockDirIndex(j, b);
  }

  /** Input files of different inputs never collide. */
  lemma InputFileNamesDistinct(i: nat, j: nat)
    requires i != j
    ensures InputFileName(i) != InputFileName(j)
  {
    InputFileIndex(i);
    InputFileIndex(j);
  }

  // ---------------------------------------------------------------------------
  // Serialisation (the serde derivations, on the JSON tree)

  function ExecutionToJson(e: BlockExecution): Json {
    Obj(map[
      "value" := (if e.value.Some? then e.value.value else Null),
      "error" := (if e.error.Some? then Str(e.error.value) else Null)])
  }

  /** A branch vector is serialised as a JSON array, one element per branch. */
  function ExecutionsToJson(es: seq<BlockExecution>): (j: Json)
    ensures j.Arr? && |j.items| == |es|
    ensures forall k :: 0 <= k < |es| ==> j.items[k] == ExecutionToJson(es[k])
  {
    Arr(seq(|es|, k requires 0 <= k < |es| => ExecutionToJson(es[k])))
  }

  /**
   * Deserialisation of a `BlockExecution`: an object (a missing field reads as `null`,
   * other keys are ignored) or an array of the two field values. `null` is `None`;
   * an error must be a string.
   */
  function ExecutionFromJson(j: Json): Option<BlockExecution> {
    match j
    case Obj(f) =>
      ExecutionFromFields(if "value" in f then f["value"] else Null, if "error" in f then f["error"] else Null)
    case Arr(items) =>
      if |items| == 2 then ExecutionFromFields(items[0], items[1]) else None
    case _ => None
  }

  function ExecutionFromFields(value: Json, error: Json): Option<BlockExecution> {
    var v := if value.Null? then None else Some(value);
    match error
    case Null => Some(BlockExecution(v, None))
    case Str(s) => Some(BlockExecution(v, Some(s)))
    case _ => None
  }

  /** Deserialisation of a branch vector: an array whose every element is a `BlockExecution`. */
  function ExecutionsFromJson(j: Json): Option<seq<BlockExecution>> {
    if j.Arr? then ExecutionsFromItems(j.items) else None
  }

  function ExecutionsFromItems(items: seq<Json>): Option<seq<BlockExecution>> {
    if items == [] then Some([])
    else
      match (ExecutionFromJson(items[0]), ExecutionsFromItems(items[1..]))
      case (Some(e), Some(es)) => Some([e] + es)
      case _ => None
  }

  /** A branch whose value is the JSON `null` is read back as one without a value. */
  function NullValueAsNone(e: BlockExecution): BlockExecution {
    if e.value == Some(Null) then e.(value := None) else e
  }

  /**
   * Deserialising a serialised execution gives it back, except that a value that is
   * itself `null` comes back as no value: both are written as `null`.
   */
  lemma ExecutionRoundTrip(e: BlockExecution)
    ensures ExecutionFromJson(ExecutionToJson(e)) == Some(NullValueAsNone(e))
    ensures e.value != Some(Null) ==> ExecutionFromJson(ExecutionToJson(e)) == Some(e)
  {
    var f := ExecutionToJson(e).fields;
    assert "value" in f && "error" in f;
  }

  /** The two executions that differ only in a `null` value against no value are written alike. */
  lemma NullValueIndistinct(error: Option<string>)
    ensures ExecutionToJson(BlockExecution(Some(Null), error)) == ExecutionToJson(BlockExecution(None, error))
    ensures BlockExecution(Some(Null), error) != BlockExecution(None, error)
  {
  }

  /**
   * Deserialising a serialised branch vector gives it back, element by element, with
   * `null` values read back as no value.
   */
  lemma {:induction false} ExecutionsRoundTrip(es: seq<BlockExecution>)
    ensures ExecutionsFromJson(ExecutionsToJson(es)).Some?
    ensures var back := ExecutionsFromJson(ExecutionsToJson(es)).value;
            |back| == |es| && forall k :: 0 <= k < |es| ==> back[k] == NullValueAsNone(es[k])
    ensures (forall k :: 0 <= k < |es| ==> es[k].value != Some(Null)) ==>
              ExecutionsFromJson(ExecutionsToJson(es)) == Some(es)
  {
    if es != [] {
      ExecutionsRoundTrip(es[1..]);
      ExecutionRoundTrip(es[0]);
      assert ExecutionsToJson(es).items[1..] == ExecutionsToJson(es[1..]).items;
      assert es == [es[0]] + es[1..];
    }
  }

  datatype RunConfig = RunConfig(startTime: u64, appHash: string, blocks: map<string, Json>)
  {
    /** The configuration of block `name`, if it has one; absence is not an error. */
    function ConfigForBlock(name: string): (r: Option<Json>)
      ensures r.Some? <==> name in blocks
      ensures r.Some? ==> r.value == blocks[name]
    {
      if name in blocks then Some(blocks[name]) else None
    }

    function ToJson(): Json {
      Obj(map[
        "start_time" := Num(startTime as int),
        "app_hash" := Str(appHash),
        "blocks" := Obj(blocks)])
    }

    /**
     * Deserialisation: an object with the three fields (other keys are ignored), or
     * an array of the three field values in declaration order; `start_time` must be
     * an integer that fits in 64 unsigned bits.
     */
    static function FromJson(j: Json): Option<RunConfig> {
      match j
      case Obj(f) =>
        if "start_time" in f && "app_hash" in f && "blocks" in f
        then FromFields(f["start_time"], f["app_hash"], f["blocks"])
        else None
      case Arr(items) =>
        if |items| == 3 then FromFields(items[0], items[1], items[2]) else None
      case _ => None
    }

    static function FromFields(startTime: Json, appHash: Json, blocks: Json): Option<RunConfig> {
      if startTime.Num? && 0 <= startTime.n < 0x1_0000_0000_0000_0000 && appHash.Str? && blocks.Obj?
      then Some(RunConfig(startTime.n as u64, appHash.s, blocks.fields))
      else None
    }

    /**
     * `RunConfig::load`: reads `.runs/<run_id>/config.json` under `root`.
     * Fails when `.runs` is not a directory, when the run directory does not exist
     * (naming the run), when `config.json` cannot be read as a file, and when it does
     * not hold a serialised RunConfig.
     */
    static function Load(disk: Tree, root: Path, runId: string): (r: Result<RunConfig, Error>)
      ensures !IsDir(disk, RunsDir(root)) ==> r == Err(RunsDirMissing)
      ensures IsDir(disk, RunsDir(root)) && RunDir(root, runId) !in disk ==> r == Err(RunNotFound(runId))
      ensures IsDir(disk, RunsDir(root)) && RunDir(root, runId) in disk && r.Err? ==>
                r.error in {Io(ConfigPath(root, runId)), Malformed(ConfigPath(root, runId))}
      ensures r.Ok? <==>
                && IsDir(disk, RunsDir(root)) && RunDir(root, runId) in disk
                && ConfigPath(root, runId) in disk && disk[ConfigPath(root, runId)].File?
                && FromJson(disk[ConfigPath(root, runId)].data).Some?
      ensures r.Ok? ==> FromJson(disk[ConfigPath(root, runId)].data) == Some(r.value)
    {
      if !IsDir(disk, RunsDir(root)) then Err(RunsDirMissing)
      else if RunDir(root, runId) !in disk then Err(RunNotFound(runId))
      else
        var path := ConfigPath(root, runId);
        if path !in disk || !disk[path].File? then Err(Io(path))
        else
          match FromJson(disk[path].data)
          case Some(config) => Ok(config)
          case None => Err(Malformed(path))
    }
  }

  /** Deserialising a serialised configuration gives it back. */
  lemma ConfigJsonRoundTrip(c: RunConfig)
    ensures RunConfig.FromJson(c.ToJson()) == Some(c)
  {
    var f := c.ToJson().fields;
    assert "start_time" in f && "app_hash" in f && "blocks" in f;
  }

  // ---------------------------------------------------------------------------
  // The on-disk layout of a stored run

  /** The files of the first `n` inputs of a block directory. */
  function InputFiles(dir: Path, inputs: seq<seq<BlockExecution>>, n: nat): Tree
    requires n <= |inputs|
  {
    if n == 0 then map[]
    else InputFiles(dir, inputs, n - 1)[dir + [InputFileName(n - 1)] := File(ExecutionsToJson(inputs[n - 1]))]
  }

  function BlockDir(runDir: Path, index: nat, block: BlockKey): Path {
    runDir + [BlockDirName(index, block)]
  }

  /** The directory of trace entry `index` and the files of its first `n` inputs. */
  function BlockEntries(runDir: Path, index: nat, trace: Trace, n: nat): Tree
    requires n <= |trace.1|
  {
    map[BlockDir(runDir, index, trace.0) := Dir] + InputFiles(BlockDir(runDir, index, trace.0), trace.1, n)
  }

  /** Everything stored for the first `k` trace entries. */
  function BlocksUpTo(runDir: Path, traces: seq<Trace>, k: nat): Tree
    requires k <= |traces|
  {
    if k == 0 then map[]
    else BlocksUpTo(runDir, traces, k - 1) + BlockEntries(runDir, k - 1, traces[k - 1], |traces[k - 1].1|)
  }

  /** The run directory and its `config.json`. */
  function Header(root: Path, runId: string, config: RunConfig): Tree {
    map[RunDir(root, runId) := Dir, ConfigPath(root, runId) := File(config.ToJson())]
  }

  /** Every input file lies directly in `dir`; `j` is the input it belongs to. */
  lemma {:induction false} InputFilesShape(dir: Path, inputs: seq<seq<BlockExecution>>, n: nat, p: Path) returns (j: nat)
    requires n <= |inputs|
    requires p in InputFiles(dir, inputs, n)
    ensures j < n && p == dir + [InputFileName(j)]
    ensures InputFiles(dir, inputs, n)[p] == File(ExecutionsToJson(inputs[j]))
  {
    if p == dir + [InputFileName(n - 1)] {
      j := n - 1;
    } else {
      j := InputFilesShape(dir, inputs, n - 1, p);
    }
  }

  /** Input file `j < n` is among the first `n` input files, holding the branch vector of input `j`. */
  lemma {:induction false} InputFilesHas(dir: Path, inputs: seq<seq<BlockExecution>>, n: nat, j: nat)
    requires j < n <= |inputs|
    ensures dir + [InputFileName(j)] in InputFiles(dir, inputs, n)
    ensures InputFiles(dir, inputs, n)[dir + [InputFileName(j)]] == File(ExecutionsToJson(inputs[j]))
  {
    if j < n - 1 {
      InputFilesHas(dir, inputs, n - 1, j);
      InputFileNamesDistinct(j, n - 1);
      assert (dir + [InputFileName(j)])[|dir|] != (dir + [InputFileName(n - 1)])[|dir|];
    }
  }

  /** The file of input `m` is not among the first `n <= m` input files. */
  lemma {:induction false} InputFilesLacks(dir: Path, inputs: seq<seq<BlockExecution>>, n: nat, m: nat)
    requires n <= m && n <= |inputs|
    ensures dir + [InputFileName(m)] !in InputFiles(dir, inputs, n)
  {
    if n > 0 {
      InputFilesLacks(dir, inputs, n - 1, m);
      InputFileNamesDistinct(n - 1, m);
      assert (dir + [InputFileName(m)])[|dir|] != (dir + [InputFileName(n - 1)])[|dir|];
    }
  }

  /** What is stored for one block: its directory, or the file of one of its first `n` inputs. */
  lemma BlockEntriesShape(runDir: Path, index: nat, trace: Trace, n: nat, p: Path) returns (j: nat)
    requires n <= |trace.1|
    requires p in BlockEntries(runDir, index, trace, n)
    ensures var dir := BlockDir(runDir, index, trace.0);
            || (p == dir && BlockEntries(runDir, index, trace, n)[p] == Dir)
            || (j < n && p == dir + [InputFileName(j)] &&
                BlockEntries(runDir, index, trace, n)[p] == File(ExecutionsToJson(trace.1[j])))
  {
    var dir := BlockDir(runDir, index, trace.0);
    if p in InputFiles(dir, trace.1, n) {
      j := InputFilesShape(dir, trace.1, n, p);
    } else {
      j := 0;
    }
  }

  /** Everything stored for the first `k` entries is stored for one entry `i < k`, with the same contents. */
  lemma {:induction false} BlocksUpToShape(runDir: Path, traces: seq<Trace>, k: nat, p: Path) returns (i: nat)
    requires k <= |traces|
    requires p in BlocksUpTo(runDir, traces, k)
    ensures i < k && p in BlockEntries(runDir, i, traces[i], |traces[i].1|)
    ensures BlocksUpTo(runDir, traces, k)[p] == BlockEntries(runDir, i, traces[i], |traces[i].1|)[p]
  {
    if p in BlockEntries(runDir, k - 1, traces[k - 1], |traces[k - 1].1|) {
      i := k - 1;
    } else {
      i := BlocksUpToShape(runDir, traces, k - 1, p);
    }
  }

  /** All paths stored for entry `i` lie in the directory of entry `i`, at most one level down. */
  lemma BlockEntriesUnder(runDir: Path, i: nat, trace: Trace)
    ensures forall q :: q in BlockEntries(runDir, i, trace, |trace.1|) ==>
              |runDir| < |q| <= |runDir| + 2 && q[..|runDir| + 1] == BlockDir(runDir, i, trace.0)
  {
    forall q | q in BlockEntries(runDir, i, trace, |trace.1|)
      ensures |runDir| < |q| <= |runDir| + 2 && q[..|runDir| + 1] == BlockDir(runDir, i, trace.0)
    {
      var j := BlockEntriesShape(runDir, i, trace, |trace.1|, q);
    }
  }

  /** Nothing in the directory of an entry `m >= k` is stored among the first `k` entries. */
  lemma {:induction false} BlocksUpToLacks(runDir: Path, traces: seq<Trace>, k: nat, m: nat, block: BlockKey, q: Path)
    requires k <= m && k <= |traces|
    requires |runDir| < |q| && q[..|runDir| + 1] == BlockDir(runDir, m, block)
    ensures q !in BlocksUpTo(runDir, traces, k)
  {
    if k > 0 {
      BlocksUpToLacks(runDir, traces, k - 1, m, block, q);
      BlockEntriesUnder(runDir, k - 1, traces[k - 1]);
      BlockDirNamesDistinct(k - 1, m, traces[k - 1].0, block);
      assert BlockDir(runDir, k - 1, traces[k - 1].0)[|runDir|] != BlockDir(runDir, m, block)[|runDir|];
    }
  }

  /** What is stored for entry `i < k` is stored, unchanged, among the first `k` entries' paths. */
  lemma {:induction false} BlocksUpToHas(runDir: Path, traces: seq<Trace>, k: nat, i: nat, p: Path)
    requires i < k <= |traces|
    requires p in BlockEntries(runDir, i, traces[i], |traces[i].1|)
    ensures p in BlocksUpTo(runDir, traces, k)
    ensures BlocksUpTo(runDir, traces, k)[p] == BlockEntries(runDir, i, traces[i], |traces[i].1|)[p]
  {
    if i < k - 1 {
      BlocksUpToHas(runDir, traces, k - 1, i, p);
      BlockEntriesUnder(runDir, i, traces[i]);
      BlockEntriesUnder(runDir, k - 1, traces[k - 1]);
      BlockDirNamesDistinct(i, k - 1, traces[i].0, traces[k - 1].0);
      assert BlockDir(runDir, i, traces[i].0)[|runDir|] != BlockDir(runDir, k - 1, traces[k - 1].0)[|runDir|];
    }
  }

  /** A path stored for the trace lies one or two levels below the run directory, under a numbered name. */
  lemma BlocksUpToPath(runDir: Path, traces: seq<Trace>, k: nat, p: Path)
    requires k <= |traces|
    requires p in BlocksUpTo(runDir, traces, k)
    ensures |runDir| < |p| <= |runDir| + 2 && p[..|runDir|] == runDir && StartsWithDigit(p[|runDir|])
  {
    var i := BlocksUpToShape(runDir, traces, k, p);
    var dir := BlockDir(runDir, i, traces[i].0);
    var n := |runDir|;
    assert |runDir| < |p| <= |runDir| + 2 && p[..n + 1] == dir by {
      BlockEntriesUnder(runDir, i, traces[i]);
    }
    assert p[..n] == runDir by {
      assert p[..n] == p[..n + 1][..n];
    }
    BlockDirNameStartsWithDigit(i, traces[i].0);
    assert p[n] == dir[n];
  }

  /** All paths stored for the trace lie one or two levels below the run directory, under numbered names. */
  lemma BlocksUpToUnder(runDir: Path, traces: seq<Trace>, k: nat)
    requires k <= |traces|
    ensures forall p :: p in BlocksUpTo(runDir, traces, k) ==>
              |runDir| < |p| <= |runDir| + 2 && p[..|runDir|] == runDir && StartsWithDigit(p[|runDir|])
  {
    forall p | p in BlocksUpTo(runDir, traces, k)
      ensures |runDir| < |p| <= |runDir| + 2 && p[..|runDir|] == runDir && StartsWithDigit(p[|runDir|])
    {
      BlocksUpToPath(runDir, traces, k, p);
    }
  }

  /** All input files among the first `n` lie directly in `dir`. */
  lemma InputFilesUnder(dir: Path, inputs: seq<seq<BlockExecution>>, n: nat)
    requires n <= |inputs|
    ensures forall p :: p in InputFiles(dir, inputs, n) ==> |p| == |dir| + 1
  {
    forall p | p in InputFiles(dir, inputs, n)
      ensures |p| == |dir| + 1
    {
      var j := InputFilesShape(dir, inputs, n, p);
    }
  }

  lemma UnionUpdate<K, V>(a: map<K, V>, b: map<K, V>, k: K, v: V)
    ensures (a + b)[k := v] == a + b[k := v]
  {
  }

  lemma UpdateAsUnion<K, V>(t: map<K, V>, k: K, v: V)
    ensures t[k := v] == t + map[k := v]
  {
  }

  lemma UnionAssociative<K, V>(a: map<K, V>, b: map<K, V>, c: map<K, V>)
    ensures (a + b) + c == a + (b + c)
  {
  }

  /** `p` lies in the directory `dir` or below it. */
  predicate Below(dir: Path, p: Path) {
    dir <= p
  }

  /** In a tree, nothing lies below a directory that does not exist. */
  lemma NothingBelowMissing(t: Tree, dir: Path)
    requires WellFormed(t) && dir !in t
    ensures forall p :: Below(dir, p) ==> p !in t
  {
    forall p | Below(dir, p)
      ensures p !in t
    {
      NoOrphans(t, dir, p);
    }
  }

  /**
   * Before the directory of entry `i` is created: the run directory exists and the
   * block directory does not, so creating it adds the block directory alone.
   */
  lemma StoreBlockDirStep(t0: Tree, root: Path, runId: string, config: RunConfig, traces: seq<Trace>, i: nat)
    requires forall p :: Below(RunDir(root, runId), p) ==> p !in t0
    requires i < |traces|
    ensures var runDir := RunDir(root, runId);
            var t := t0 + Header(root, runId, config) + BlocksUpTo(runDir, traces, i);
            var q := BlockDir(runDir, i, traces[i].0);
            && IsDir(t, runDir) && q !in t && q != [] && Parent(q) == runDir
            && t[q := Dir] == t + BlockEntries(runDir, i, traces[i], 0)
  {
    var runDir := RunDir(root, runId);
    var header := Header(root, runId, config);
    var blocks := BlocksUpTo(runDir, traces, i);
    var q := BlockDir(runDir, i, traces[i].0);
    assert q !in t0 by {
      assert Below(runDir, q);
    }
    assert q !in header by {
      BlockDirNotConfig(i, traces[i].0);
      assert q[|runDir|] == BlockDirName(i, traces[i].0);
    }
    assert q !in blocks by {
      assert q[..|runDir| + 1] == q;
      BlocksUpToLacks(runDir, traces, i, i, traces[i].0, q);
    }
    assert runDir !in blocks by {
      BlocksUpToUnder(runDir, traces, i);
    }
    assert Parent(q) == runDir;
    assert BlockEntries(runDir, i, traces[i], 0) == map[q := Dir];
    UpdateAsUnion(t0 + header + blocks, q, Dir);
    assert IsDir(t0 + header + blocks, runDir) by {
      assert runDir in header;
    }
  }

  /**
   * Before input file `j` of entry `i` is written: its block directory exists and the
   * file does not, so writing it adds that file alone.
   */
  lemma StoreInputFileStep(t0: Tree, root: Path, runId: string, config: RunConfig, traces: seq<Trace>, i: nat, j: nat)
    requires forall p :: Below(RunDir(root, runId), p) ==> p !in t0
    requires i < |traces| && j < |traces[i].1|
    ensures var runDir := RunDir(root, runId);
            var before := t0 + Header(root, runId, config) + BlocksUpTo(runDir, traces, i);
            var t := before + BlockEntries(runDir, i, traces[i], j);
            var dir := BlockDir(runDir, i, traces[i].0);
            var q := dir + [InputFileName(j)];
            && IsDir(t, dir) && !IsDir(t, q) && q != [] && Parent(q) == dir
            && t[q := File(ExecutionsToJson(traces[i].1[j]))] == before + BlockEntries(runDir, i, traces[i], j + 1)
  {
    var runDir := RunDir(root, runId);
    var dir := BlockDir(runDir, i, traces[i].0);
    var q := dir + [InputFileName(j)];
    var header := Header(root, runId, config);
    var blocks := BlocksUpTo(runDir, traces, i);
    var files := InputFiles(dir, traces[i].1, j);
    var before := t0 + header + blocks;
    assert q !in t0 by {
      assert Below(runDir, q);
    }
    assert q !in blocks by {
      assert q[..|runDir| + 1] == dir;
      BlocksUpToLacks(runDir, traces, i, i, traces[i].0, q);
    }
    assert q !in files && dir !in files by {
      InputFilesLacks(dir, traces[i].1, j, j);
      InputFilesUnder(dir, traces[i].1, j);
    }
    assert q !in header && q != dir;
    assert Parent(q) == dir;
    var v := File(ExecutionsToJson(traces[i].1[j]));
    UnionUpdate(map[dir := Dir], files, q, v);
    UnionUpdate(before, map[dir := Dir] + files, q, v);
  }

  datatype Run = Run(runId: string, config: RunConfig, traces: seq<Trace>)
  {
    /** `Run::new`: a run with the given identifier and configuration and no trace yet. */
    static function New(config: RunConfig, runId: string): (r: Run)
      ensures r.runId == runId && r.config == config && r.traces == []
    {
      Run(runId, config, [])
    }

    function Config(): RunConfig {
      config
    }

    /** Everything `Store` adds to the disk. */
    function Layout(root: Path): Tree {
      Header(root, runId, config) + BlocksUpTo(RunDir(root, runId), traces, |traces|)
    }

    /**
     * `Run::store`: writes the run below `<root>/.runs/<run_id>`. The run directory
     * must not exist yet (runs are written once): if it does, or if `.runs` is not a
     * directory, nothing is written. Otherwise the disk gains exactly `Layout(root)`:
     * the run directory, `config.json`, and per trace entry its block directory and one
     * file per input.
     */
    method Store(fs: FileSystem, root: Path) returns (r: Outcome<Error>)
      requires fs.Valid()
      modifies fs
      ensures fs.Valid()
      ensures !IsDir(old(fs.tree), RunsDir(root)) ==> r == Fail(RunsDirMissing) && fs.tree == old(fs.tree)
      ensures IsDir(old(fs.tree), RunsDir(root)) && RunDir(root, runId) in old(fs.tree) ==>
                r == Fail(RunExists(runId)) && fs.tree == old(fs.tree)
      ensures IsDir(old(fs.tree), RunsDir(root)) && RunDir(root, runId) !in old(fs.tree) ==>
                r == Pass && fs.tree == old(fs.tree) + Layout(root)
    {
      var runsDir := RunsDir(root);
      if !IsDir(fs.tree, runsDir) {
        return Fail(RunsDirMissing);
      }
      var runDir := runsDir + [runId];
      if runDir in fs.tree {
        return Fail(RunExists(runId));
      }
      ghost var t0 := fs.tree;
      NothingBelowMissing(t0, runDir);
      CreateChildDir(fs.tree, runDir);
      var created := fs.CreateDirAll(runDir);
      assert created.Pass?;
      var configPath := runDir + [ConfigFileName];
      var written := fs.WriteFile(configPath, config.ToJson());
      assert written.Pass?;
      ghost var base := t0 + Header(root, runId, config);
      assert fs.tree == base;
      var i := 0;
      while i < |traces|
        invariant 0 <= i <= |traces|
        invariant fs.Valid()
        invariant fs.tree == base + BlocksUpTo(runDir, traces, i)
      {
        StoreBlock(fs, root, i, t0);
        i := i + 1;
      }
      UnionAssociative(t0, Header(root, runId, config), BlocksUpTo(runDir, traces, |traces|));
      r := Pass;
    }

    /**
     * One iteration of the loop over the trace in `Run::store`: creates the directory
     * of entry `i` and writes one file per input of that entry.
     */
    method StoreBlock(fs: FileSystem, root: Path, i: nat, ghost t0: Tree)
      requires i < |traces|
      requires fs.Valid()
      requires forall p :: Below(RunDir(root, runId), p) ==> p !in t0
      requires fs.tree == t0 + Header(root, runId, config) + BlocksUpTo(RunDir(root, runId), traces, i)
      modifies fs
      ensures fs.Valid()
      ensures fs.tree == t0 + Header(root, runId, config) + BlocksUpTo(RunDir(root, runId), traces, i + 1)
    {
      var runDir := RunDir(root, runId);
      ghost var before := fs.tree;
      var (block, inputs) := traces[i];
      var blockDir := runDir + [BlockDirName(i, block)];
      StoreBlockDirStep(t0, root, runId, config, traces, i);
      CreateChildDir(fs.tree, blockDir);
      var created := fs.CreateDirAll(blockDir);
      assert created.Pass?;
      var j := 0;
      while j < |inputs|
        invariant 0 <= j <= |inputs|
        invariant fs.Valid()
        invariant fs.tree == before + BlockEntries(runDir, i, traces[i], j)
      {
        StoreInputFileStep(t0, root, runId, config, traces, i, j);
        var written := fs.WriteFile(blockDir + [InputFileName(j)], ExecutionsToJson(inputs[j]));
        assert written.Pass?;
        j := j + 1;
      }
      UnionAssociative(t0 + Header(root, runId, config), BlocksUpTo(runDir, traces, i), BlockEntries(runDir, i, traces[i], |inputs|));
    }

    /**
     * `Run::load`: the run's configuration read back from disk, with an empty trace.
     * Fails exactly when `RunConfig::load` fails, with the same error.
     */
    static function Load(disk: Tree, root: Path, runId: string): (r: Result<Run, Error>)
      ensures r.Ok? <==> RunConfig.Load(disk, root, runId).Ok?
      ensures r.Ok? ==> r.value == Run(runId, RunConfig.Load(disk, root, runId).value, [])
      ensures r.Err? ==> r.error == RunConfig.Load(disk, root, runId).error
    {
      match RunConfig.Load(disk, root, runId)
      case Ok(config) => Ok(Run(runId, config, []))
      case Err(e) => Err(e)
    }
  }

  // ---------------------------------------------------------------------------
  // Properties of a stored run

  /**
   * What a stored run holds at `p`, read off the path itself: the run directory,
   * `config.json`, the directory `<i>-<type>_<name>` of trace entry `i`, and the file
   * `<j>.json` inside it for input `j` of that entry.
   */
  function StoredAt(root: Path, run: Run, p: Path): Option<Node> {
    var runDir := RunDir(root, run.runId);
    var n := |runDir|;
    if p == runDir then Some(Dir)
    else if p == ConfigPath(root, run.runId) then Some(File(run.config.ToJson()))
    else if !(Below(runDir, p) && n < |p| <= n + 2) then None
    else
      var i := LeadingNumber(p[n]);
      if !(i < |run.traces| && p[n] == BlockDirName(i, run.traces[i].0)) then None
      else if |p| == n + 1 then Some(Dir)
      else
        var inputs := run.traces[i].1;
        var j := LeadingNumber(p[n + 1]);
        if j < |inputs| && p[n + 1] == InputFileName(j) then Some(File(ExecutionsToJson(inputs[j])))
        else None
  }

  /** Everything `Store` adds is what `StoredAt` reads off its path. */
  lemma LayoutSound(root: Path, run: Run, p: Path)
    requires p in run.Layout(root)
    ensures StoredAt(root, run, p) == Some(run.Layout(root)[p])
  {
    var runDir := RunDir(root, run.runId);
    var n := |runDir|;
    var traces := run.traces;
    if p in BlocksUpTo(runDir, traces, |traces|) {
      var i := BlocksUpToShape(runDir, traces, |traces|, p);
      var j := BlockEntriesShape(runDir, i, traces[i], |traces[i].1|, p);
      var dir := BlockDir(runDir, i, traces[i].0);
      assert p[..n] == runDir && p[n] == BlockDirName(i, traces[i].0) by {
        assert p[..n + 1] == dir;
      }
      assert p != ConfigPath(root, run.runId) by {
        BlockDirNameStartsWithDigit(i, traces[i].0);
        assert !StartsWithDigit(ConfigFileName);
      }
      BlockDirIndex(i, traces[i].0);
      if p != dir {
        InputFileIndex(j);
        assert p[n + 1] == InputFileName(j);
      }
    }
  }

  /** Everything `StoredAt` describes is added by `Store`. */
  lemma LayoutComplete(root: Path, run: Run, p: Path)
    requires StoredAt(root, run, p).Some?
    ensures p in run.Layout(root)
  {
    var runDir := RunDir(root, run.runId);
    var n := |runDir|;
    var traces := run.traces;
    if p != runDir && p != ConfigPath(root, run.runId) {
      var i := LeadingNumber(p[n]);
      var dir := BlockDir(runDir, i, traces[i].0);
      assert p[..n + 1] == dir;
      if |p| == n + 1 {
        assert p == dir;
      } else {
        var j := LeadingNumber(p[n + 1]);
        assert p == dir + [InputFileName(j)];
        InputFilesHas(dir, traces[i].1, |traces[i].1|, j);
      }
      BlocksUpToHas(runDir, traces, |traces|, i, p);
    }
  }

  /** For every trace entry `i`, the stored run has the directory `<i>-<type>_<name>`. */
  lemma LayoutHasBlockDir(root: Path, run: Run, i: nat)
    requires i < |run.traces|
    ensures var dir := BlockDir(RunDir(root, run.runId), i, run.traces[i].0);
            dir in run.Layout(root) && run.Layout(root)[dir] == Dir
  {
    var runDir := RunDir(root, run.runId);
    var dir := BlockDir(runDir, i, run.traces[i].0);
    InputFilesUnder(dir, run.traces[i].1, |run.traces[i].1|);
    BlocksUpToHas(runDir, run.traces, |run.traces|, i, dir);
  }

  /** For every input `j` of trace entry `i`, the stored run has `<i>-<type>_<name>/<j>.json` holding that input's branch vector. */
  lemma LayoutHasInputFile(root: Path, run: Run, i: nat, j: nat)
    requires i < |run.traces| && j < |run.traces[i].1|
    ensures var file := BlockDir(RunDir(root, run.runId), i, run.traces[i].0) + [InputFileName(j)];
            file in run.Layout(root) && run.Layout(root)[file] == File(ExecutionsToJson(run.traces[i].1[j]))
  {
    var runDir := RunDir(root, run.runId);
    var dir := BlockDir(runDir, i, run.traces[i].0);
    InputFilesHas(dir, run.traces[i].1, |run.traces[i].1|, j);
    BlocksUpToHas(runDir, run.traces, |run.traces|, i, dir + [InputFileName(j)]);
  }

  /** Everything a stored run adds lies in its run directory; nothing outside it is touched. */
  lemma LayoutConfined(disk: Tree, root: Path, run: Run)
    ensures forall p :: p in run.Layout(root) ==> Below(RunDir(root, run.runId), p)
    ensures forall p :: !Below(RunDir(root, run.runId), p) ==>
              (p in disk + run.Layout(root) <==> p in disk) &&
              (p in disk ==> (disk + run.Layout(root))[p] == disk[p])
  {
    BlocksUpToUnder(RunDir(root, run.runId), run.traces, |run.traces|);
  }

  /**
   * Round trip: once a run is stored, `RunConfig::load` reads back its configuration
   * and `Run::load` gives the run with that configuration and an empty trace.
   */
  lemma StoreThenLoad(disk: Tree, root: Path, run: Run)
    requires IsDir(disk, RunsDir(root))
    ensures RunConfig.Load(disk + run.Layout(root), root, run.runId) == Ok(run.Config())
    ensures Run.Load(disk + run.Layout(root), root, run.runId) == Ok(Run.New(run.Config(), run.runId))
  {
    var runDir := RunDir(root, run.runId);
    var layout := run.Layout(root);
    assert RunsDir(root) !in layout by {
      LayoutConfined(disk, root, run);
      assert !Below(runDir, RunsDir(root));
    }
    LayoutSound(root, run, runDir);
    LayoutSound(root, run, ConfigPath(root, run.runId));
    ConfigJsonRoundTrip(run.config);
  }

  /**
   * Runs are written once: after a run is stored, `.runs` is still a directory and the
   * run directory exists, so storing a run with the same identifier again fails with
   * `RunExists` and changes nothing.
   */
  lemma StoredRunIsWriteOnce(disk: Tree, root: Path, run: Run)
    requires IsDir(disk, RunsDir(root))
    ensures IsDir(disk + run.Layout(root), RunsDir(root))
    ensures RunDir(root, run.runId) in disk + run.Layout(root)
  {
    var runDir := RunDir(root, run.runId);
    assert RunsDir(root) !in run.Layout(root) by {
      LayoutConfined(disk, root, run);
      assert !Below(runDir, RunsDir(root));
    }
    LayoutSound(root, run, runDir);
    assert runDir in Header(root, run.runId, run.config);
  }

  function BlockDirNames(traces: seq<Trace>, k: nat): set<string>
    requires k <= |traces|
  {
    set i | 0 <= i < k :: BlockDirName(i, traces[i].0)
  }

  function InputFileNames(n: nat): set<string> {
    set j | 0 <= j < n :: InputFileName(j)
  }

  lemma {:induction false} BlockDirNamesCount(traces: seq<Trace>, k: nat)
    requires k <= |traces|
    ensures |BlockDirNames(traces, k)| == k
  {
    if k > 0 {
      var name := BlockDirName(k - 1, traces[k - 1].0);
      var before := BlockDirNames(traces, k - 1);
      BlockDirNamesCount(traces, k - 1);
      assert name !in before by {
        forall i | 0 <= i < k - 1
          ensures BlockDirName(i, traces[i].0) != name
        {
          BlockDirNamesDistinct(i, k - 1, traces[i].0, traces[k - 1].0);
        }
      }
      assert BlockDirNames(traces, k) == before + {name};
    }
  }

  lemma {:induction false} InputFileNamesCount(n: nat)
    ensures |InputFileNames(n)| == n
  {
    if n > 0 {
      var name := InputFileName(n - 1);
      var before := InputFileNames(n - 1);
      InputFileNamesCount(n - 1);
      assert name !in before by {
        forall j | 0 <= j < n - 1
          ensures InputFileName(j) != name
        {
          InputFileNamesDistinct(j, n - 1);
        }
      }
      assert InputFileNames(n) == before + {name};
    }
  }

  /**
   * A stored run has exactly one block directory per trace entry: a run whose trace
   * stops after two blocks has two block directories.
   */
  lemma BlockDirCount(root: Path, run: Run)
    ensures SubdirNames(run.Layout(root), RunDir(root, run.runId)) == BlockDirNames(run.traces, |run.traces|)
    ensures |SubdirNames(run.Layout(root), RunDir(root, run.runId))| == |run.traces|
  {
    var runDir := RunDir(root, run.runId);
    var layout := run.Layout(root);
    forall name | name in SubdirNames(layout, runDir)
      ensures name in BlockDirNames(run.traces, |run.traces|)
    {
      var p :| p in layout && |p| == |runDir| + 1 && runDir <= p && layout[p].Dir? && p[|runDir|] == name;
      LayoutSound(root, run, p);
      var i := LeadingNumber(name);
      assert i < |run.traces| && name == BlockDirName(i, run.traces[i].0);
    }
    forall name | name in BlockDirNames(run.traces, |run.traces|)
      ensures name in SubdirNames(layout, runDir)
    {
      var i :| 0 <= i < |run.traces| && name == BlockDirName(i, run.traces[i].0);
      LayoutHasBlockDir(root, run, i);
      assert (runDir + [name])[|runDir|] == name;
    }
    BlockDirNamesCount(run.traces, |run.traces|);
  }

  /** The directory of trace entry `i` holds exactly one file `<j>.json` per input `j`. */
  lemma InputFileCount(root: Path, run: Run, i: nat)
    requires i < |run.traces|
    ensures var dir := BlockDir(RunDir(root, run.runId), i, run.traces[i].0);
            && FileNames(run.Layout(root), dir) == InputFileNames(|run.traces[i].1|)
            && |FileNames(run.Layout(root), dir)| == |run.traces[i].1|
  {
    var runDir := RunDir(root, run.runId);
    var n := |runDir|;
    var dir := BlockDir(runDir, i, run.traces[i].0);
    var layout := run.Layout(root);
    var inputs := run.traces[i].1;
    forall name | name in FileNames(layout, dir)
      ensures name in InputFileNames(|inputs|)
    {
      var p :| p in layout && |p| == |dir| + 1 && dir <= p && layout[p].File? && p[|dir|] == name;
      assert p[..n] == runDir && p[n] == BlockDirName(i, run.traces[i].0) by {
        assert p[..n + 1] == dir;
      }
      BlockDirIndex(i, run.traces[i].0);
      LayoutSound(root, run, p);
      var j := LeadingNumber(name);
      assert j < |inputs| && name == InputFileName(j);
    }
    forall name | name in InputFileNames(|inputs|)
      ensures name in FileNames(layout, dir)
    {
      var j :| 0 <= j < |inputs| && name == InputFileName(j);
      LayoutHasInputFile(root, run, i, j);
      assert (dir + [name])[|dir|] == name;
    }
    InputFileNamesCount(|inputs|);
  }
  /**
   * On a disk that `Store` fills: the names directly inside a new run directory are
   * exactly those of the stored layout, since nothing was below the run directory before.
   */
  lemma NamesInFreshRunDir(disk: Tree, root: Path, run: Run, dir: Path)
    requires WellFormed(disk) && RunDir(root, run.runId) !in disk
    requires RunDir(root, run.runId) <= dir
    ensures SubdirNames(disk + run.Layout(root), dir) == SubdirNames(run.Layout(root), dir)
    ensures FileNames(disk + run.Layout(root), dir) == FileNames(run.Layout(root), dir)
  {
    var runDir := RunDir(root, run.runId);
    var after := disk + run.Layout(root);
    NothingBelowMissing(disk, runDir);
    forall p | |p| == |dir| + 1 && dir <= p
      ensures p !in disk
    {
      assert Below(runDir, p);
    }
  }

  /** After `Store`, the run directory on disk holds exactly one block directory per trace entry. */
  lemma StoredBlockDirCount(disk: Tree, root: Path, run: Run)
    requires WellFormed(disk) && RunDir(root, run.runId) !in disk
    ensures SubdirNames(disk + run.Layout(root), RunDir(root, run.runId)) == BlockDirNames(run.traces, |run.traces|)
    ensures |SubdirNames(disk + run.Layout(root), RunDir(root, run.runId))| == |run.traces|
  {
    NamesInFreshRunDir(disk, root, run, RunDir(root, run.runId));
    BlockDirCount(root, run);
  }

  /** After `Store`, the directory of trace entry `i` on disk holds exactly one `<j>.json` per input. */
  lemma StoredInputFileCount(disk: Tree, root: Path, run: Run, i: nat)
    requires WellFormed(disk) && RunDir(root, run.runId) !in disk
    requires i < |run.traces|
    ensures var dir := BlockDir(RunDir(root, run.runId), i, run.traces[i].0);
            && FileNames(disk + run.Layout(root), dir) == InputFileNames(|run.traces[i].1|)
            && |FileNames(disk + run.Layout(root), dir)| == |run.traces[i].1|
  {
    NamesInFreshRunDir(disk, root, run, BlockDir(RunDir(root, run.runId), i, run.traces[i].0));
    InputFileCount(root, run, i);
  }
}
