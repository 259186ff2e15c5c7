/** `StockDataManager` (managers/stock_data_manager.py): the incremental fetch planner, the
    per-symbol download-merge-write pipeline and the batch loop over symbols. The CSV reader and
    writer become a store of series keyed by path, the downloader a function parameter, and
    `datetime.now()` the day number `today`. */
module StockDataManager {
  import opened Wrappers
  import opened Bars
  import opened Merge
  import opened Config
  import opened Seqs

  /** The bootstrap look-back: `timedelta(days=10 * 365)`. */
  const BootstrapDays: int := 10 * 365

  /** A file-system path as its list of segments; `/` appends one segment. */
  datatype Path = Path(segments: seq<string>)

  /** `_get_filepath`: the file `<symbol>.csv` directly inside the data directory. */
  function FilePath(dataDir: Path, symbol: string): (p: Path)
    ensures |p.segments| == |dataDir.segments| + 1
    ensures p.segments[..|dataDir.segments|] == dataDir.segments
    ensures p.segments[|dataDir.segments|] == symbol + ".csv"
  {
    Path(dataDir.segments + [symbol + ".csv"])
  }

  /** A symbol without `/`: `data_dir / f"{symbol}.csv"` then adds exactly one segment, never
      `.` or empty, so pathlib's joining and normalising agree with `FilePath`. */
  predicate PlainSymbol(symbol: string)
  {
    forall k :: 0 <= k < |symbol| ==> symbol[k] != '/'
  }

  /** Distinct symbols without `/` are stored in distinct files. */
  lemma FilePathInjective(dataDir: Path, a: string, b: string)
    requires PlainSymbol(a) && PlainSymbol(b)
    ensures FilePath(dataDir, a) == FilePath(dataDir, b) ==> a == b
  {
    if FilePath(dataDir, a) == FilePath(dataDir, b) {
      var n := |dataDir.segments|;
      assert a + ".csv" == FilePath(dataDir, a).segments[n];
      assert b + ".csv" == FilePath(dataDir, b).segments[n];
      assert a == (a + ".csv")[..|a|];
      assert b == (b + ".csv")[..|b|];
    }
  }

  /** `existing_data.index.max()`: the latest date of a non-empty series. */
  function MaxDate(s: Series): (d: Day)
    requires |s| > 0
    ensures d in Dates(s)
    ensures forall b :: b in s ==> b.date <= d
  {
    if |s| == 1 then
      assert s[0] in s;
      s[0].date
    else
      var m := MaxDate(s[1..]);
      DatesSplit(s);
      assert forall b :: b in s ==> b == s[0] || b in s[1..];
      if s[0].date >= m then s[0].date else m
  }

  /** `_calculate_start_date`: the first day still to download. With nothing cached it is ten
      years before today; otherwise it is the day after the latest cached day, so the request
      starts strictly after every cached bar and skips no day. */
  function StartDate(existing: Option<Series>, today: Day): (start: Day)
    ensures existing.None? || |existing.value| == 0 ==> start == today - BootstrapDays
    ensures existing.Some? && |existing.value| > 0 ==>
              (forall b :: b in existing.value ==> b.date < start) && start - 1 in Dates(existing.value)
  {
    match existing
    case None => today - BootstrapDays
    case Some(s) => if |s| == 0 then today - BootstrapDays else MaxDate(s) + 1
  }

  /** The files on disk: one series per path. */
  type Store = map<Path, Series>

  /** `CSVReader.read`: the cached series, or `None` when the file does not exist. */
  function Read(store: Store, path: Path): Option<Series>
  {
    if path in store then Some(store[path]) else None
  }

  /** A manager: its data directory, its merge strategy, and the two collaborators that reach
      outside the model. `download` is `None` where the downloader raises; `writeFails` says
      where `CSVWriter.write` raises. */
  datatype Manager = Manager(
    dataDir: Path,
    policy: MergePolicy,
    download: StockConfig -> Option<Series>,
    writeFails: Path -> bool)

  /** Why `download_and_save` raised. `LastDateUndefined` is `NaT.strftime` failing on a cached
      file that holds no rows. */
  datatype Failure = LastDateUndefined | DownloadFailed | MergeFailed(error: MergeError) | WriteFailed

  /** What `download_and_save` does once the cached series is known: what it asks of the
      downloader, what it hands to the writer, and what it returns or raises. */
  datatype Step = Step(request: Option<StockConfig>, write: Option<Series>, outcome: Result<Series, Failure>)

  /** Lines 50-75 of `download_and_save`, given the series the reader produced (`None` when
      there is no file, or when `force_full` skips the reader; the source's own `force_full`
      tests at lines 52 and 67 then agree with the `existing` tests) and the symbol's file. */
  function Refresh(m: Manager, path: Path, symbol: string, existing: Option<Series>, today: Day): (step: Step)
    // A cache that already reaches today is returned as it is: no download, no write.
    ensures existing.Some? && |existing.value| > 0 && (exists b :: b in existing.value && b.date >= today) ==>
              step == Step(None, None, Ok(existing.value))
    // A cached file without rows makes the call raise before anything is downloaded.
    ensures existing == Some([]) ==> step == Step(None, None, Err(LastDateUndefined))
    // Otherwise a download is requested, for the symbol, from the planned start date to today.
    ensures (existing.None? || (|existing.value| > 0 && forall b :: b in existing.value ==> b.date < today)) ==>
              step.request.Some?
    ensures step.request.Some? ==>
              var r := step.request.value;
              && r.symbol == symbol && r.endDate == today && r.interval == DefaultInterval && r.startDate.Some?
              && (existing.None? ==> r.startDate.value == today - BootstrapDays)
              && (existing.Some? ==> forall b :: b in existing.value ==> b.date < r.startDate.value)
              && r.startDate == Some(StartDate(existing, today))
    // A failed download raises; an empty one returns the cached series, or the empty download.
    // Neither writes.
    ensures step.request.Some? && m.download(step.request.value).None? ==>
              step.outcome == Err(DownloadFailed) && step.write.None?
    ensures step.request.Some? && m.download(step.request.value) == Some([]) ==>
              step.write.None? && step.outcome == Ok(match existing case Some(s) => s case None => [])
    // A write happens only after a non-empty download; what is written is what is returned:
    // the merge of cache and download when the cache holds rows, else the download itself.
    ensures step.write.Some? ==>
              && step.request.Some?
              && var d := m.download(step.request.value);
                 && d.Some? && |d.value| > 0
                 && step.write.value ==
                      (match existing
                       case Some(s) => if |s| > 0 then AppendMerge(s, d.value) else d.value
                       case None => d.value)
    ensures step.write.Some? && step.outcome.Ok? ==> step.outcome.value == step.write.value
    ensures step.write.Some? && step.outcome.Err? ==> m.writeFails(path)
    // After a non-empty download: a merge the update strategy cannot do raises without a
    // write; otherwise the merge (or the download alone) is written to the symbol's file and
    // returned, unless the write raises.
    ensures step.request.Some? && m.download(step.request.value).Some? && |m.download(step.request.value).value| > 0 ==>
              var d := m.download(step.request.value).value;
              var cached := existing.Some? && |existing.value| > 0;
              if cached && m.policy == UpdatePolicy && UpdateRaises(existing.value, d) then
                step.write.None? && step.outcome == Err(MergeFailed(DuplicateLabels))
              else
                && step.write == Some(if cached then AppendMerge(existing.value, d) else d)
                && step.outcome == (if m.writeFails(path) then Err(WriteFailed) else Ok(step.write.value))
  {
    var start := StartDate(existing, today);
    if existing.Some? && |existing.value| == 0 then
      Step(None, None, Err(LastDateUndefined))
    else if existing.Some? && MaxDate(existing.value) >= today then
      Step(None, None, Ok(existing.value))
    else
      var request := NewStockConfig(symbol, Some(start), None, None, today);
      match m.download(request)
      case None => Step(Some(request), None, Err(DownloadFailed))
      case Some(incoming) =>
        if |incoming| == 0 then
          Step(Some(request), None, Ok(if existing.Some? then existing.value else incoming))
        else
          var merged := if existing.Some? && |existing.value| > 0
                        then MergeWith(m.policy, existing.value, incoming)
                        else Ok(incoming);
          match merged
          case Err(e) => Step(Some(request), None, Err(MergeFailed(e)))
          case Ok(final) =>
            if m.writeFails(path) then Step(Some(request), Some(final), Err(WriteFailed))
            else Step(Some(request), Some(final), Ok(final))
  }

  /** A finished `download_and_save` call: whether the reader was consulted, the steps after it,
      and the files afterwards. */
  datatype Run = Run(readFile: bool, step: Step, store: Store)

  /** The series `download_and_save` starts from: nothing under `force_full`, else the file. */
  function Cached(m: Manager, store: Store, symbol: string, forceFull: bool): Option<Series>
  {
    if forceFull then None else Read(store, FilePath(m.dataDir, symbol))
  }

  /** `download_and_save(symbol, force_full)`: the reader is consulted exactly when the cache is
      not bypassed, and the files change only by a successful write of the returned series to
      the symbol's own file. */
  function DownloadAndSave(m: Manager, store: Store, symbol: string, forceFull: bool, today: Day): (run: Run)
    ensures run.readFile == !forceFull
    ensures run.step == Refresh(m, FilePath(m.dataDir, symbol), symbol, Cached(m, store, symbol, forceFull), today)
    ensures run.step.outcome.Ok? && run.step.write.Some? ==>
              run.store == store[FilePath(m.dataDir, symbol) := run.step.outcome.value]
    ensures run.step.outcome.Err? || run.step.write.None? ==> run.store == store
  {
    var path := FilePath(m.dataDir, symbol);
    var step := Refresh(m, path, symbol, Cached(m, store, symbol, forceFull), today);
    var written := step.outcome.Ok? && step.write.Some?;
    Run(!forceFull, step, if written then store[path := step.outcome.value] else store)
  }

  /** What `download_and_save` returns or raises is decided by the symbol's own file alone. */
  lemma DownloadAndSaveFrame(m: Manager, store1: Store, store2: Store, symbol: string, forceFull: bool, today: Day)
    requires Read(store1, FilePath(m.dataDir, symbol)) == Read(store2, FilePath(m.dataDir, symbol))
    ensures DownloadAndSave(m, store1, symbol, forceFull, today).step
            == DownloadAndSave(m, store2, symbol, forceFull, today).step
  {
    assert Cached(m, store1, symbol, forceFull) == Cached(m, store2, symbol, forceFull);
  }

  /** With `force_full` the cached file is never read: what the call returns or raises is the
      same whatever the files hold, and it is the result of a fresh full download. */
  lemma ForceFullIgnoresFiles(m: Manager, store1: Store, store2: Store, symbol: string, today: Day)
    ensures DownloadAndSave(m, store1, symbol, true, today).step
            == DownloadAndSave(m, store2, symbol, true, today).step
            == Refresh(m, FilePath(m.dataDir, symbol), symbol, None, today)
  {
    assert Cached(m, store1, symbol, true) == Cached(m, store2, symbol, true) == None;
  }

  /** What `download_multiple` leaves behind: the dict of per-symbol results (a failed symbol
      maps to `None`) and the files afterwards. */
  datatype Batch = Batch(results: map<string, Option<Series>>, store: Store)

  /** `download_multiple(symbols, force_full)`: every symbol in turn, each call's raise caught
      and recorded as `None`. A symbol listed twice is processed twice; the dict keeps the
      later result. */
  function DownloadMultiple(m: Manager, store: Store, symbols: seq<string>, forceFull: bool, today: Day): (b: Batch)
    ensures b.results.Keys == set s | s in symbols
    decreases |symbols|
  {
    if |symbols| == 0 then Batch(map[], store)
    else
      var earlier := symbols[..|symbols| - 1];
      var symbol := symbols[|symbols| - 1];
      assert symbols == earlier + [symbol];
      var prev := DownloadMultiple(m, store, earlier, forceFull, today);
      var run := DownloadAndSave(m, prev.store, symbol, forceFull, today);
      Batch(prev.results[symbol := ToOption(run.step.outcome)], run.store)
  }

  /** No file outside the listed symbols' own files is changed by a batch. */
  lemma {:induction false} DownloadMultipleFrame(m: Manager, store: Store, symbols: seq<string>,
                                                 forceFull: bool, today: Day, p: Path)
    requires forall s :: s in symbols ==> p != FilePath(m.dataDir, s)
    ensures Read(DownloadMultiple(m, store, symbols, forceFull, today).store, p) == Read(store, p)
    decreases |symbols|
  {
    if |symbols| > 0 {
      var earlier := symbols[..|symbols| - 1];
      assert forall s :: s in earlier ==> s in symbols;
      DownloadMultipleFrame(m, store, earlier, forceFull, today, p);
    }
  }

  /** Which call a symbol's entry records: the one of its last occurrence, made on the files
      the symbols before it left behind. A symbol listed twice keeps its later call's result,
      whether that call returned or raised. */
  lemma {:induction false} DownloadMultipleLastCall(m: Manager, store: Store, symbols: seq<string>,
                                                    forceFull: bool, today: Day, j: int)
    requires 0 <= j < |symbols|
    requires forall k :: j < k < |symbols| ==> symbols[k] != symbols[j]
    ensures DownloadMultiple(m, store, symbols, forceFull, today).results[symbols[j]]
            == ToOption(DownloadAndSave(m, DownloadMultiple(m, store, symbols[..j], forceFull, today).store,
                                        symbols[j], forceFull, today).step.outcome)
    decreases |symbols|, 1
  {
    if j == |symbols| - 1 {
      LastCallOfLast(m, store, symbols, forceFull, today);
    } else {
      LastCallBeforeLast(m, store, symbols, forceFull, today, j);
    }
  }

  /** `DownloadMultipleLastCall` for a symbol before the last one, from the same fact about
      the batch without its last symbol. */
  lemma {:induction false} LastCallBeforeLast(m: Manager, store: Store, symbols: seq<string>,
                                              forceFull: bool, today: Day, j: int)
    requires 0 <= j < |symbols| - 1
    requires forall k :: j < k < |symbols| ==> symbols[k] != symbols[j]
    ensures DownloadMultiple(m, store, symbols, forceFull, today).results[symbols[j]]
            == ToOption(DownloadAndSave(m, DownloadMultiple(m, store, symbols[..j], forceFull, today).store,
                                        symbols[j], forceFull, today).step.outcome)
    decreases |symbols|, 0
  {
    PrefixKeepsLastOccurrence(symbols, j);
    DownloadMultipleLastCall(m, store, symbols[..|symbols| - 1], forceFull, today, j);
    LastCallOfEarlier(m, store, symbols, forceFull, today, j);
  }

  /** The step of `DownloadMultipleLastCall` for a symbol before the last one. */
  lemma LastCallOfEarlier(m: Manager, store: Store, symbols: seq<string>, forceFull: bool, today: Day, j: int)
    requires 0 <= j < |symbols| - 1
    requires forall k :: j < k < |symbols| ==> symbols[k] != symbols[j]
    requires var earlier := symbols[..|symbols| - 1];
             DownloadMultiple(m, store, earlier, forceFull, today).results[earlier[j]]
             == ToOption(DownloadAndSave(m, DownloadMultiple(m, store, earlier[..j], forceFull, today).store,
                                         earlier[j], forceFull, today).step.outcome)
    ensures DownloadMultiple(m, store, symbols, forceFull, today).results[symbols[j]]
            == ToOption(DownloadAndSave(m, DownloadMultiple(m, store, symbols[..j], forceFull, today).store,
                                        symbols[j], forceFull, today).step.outcome)
  {
    PrefixKeepsLastOccurrence(symbols, j);
    LaterSymbolKeepsEntry(m, store, symbols, forceFull, today, j);
  }

  /** The last symbol's entry is its own call, made on the files the others left behind. */
  lemma LastCallOfLast(m: Manager, store: Store, symbols: seq<string>, forceFull: bool, today: Day)
    requires |symbols| > 0
    ensures DownloadMultiple(m, store, symbols, forceFull, today).results[symbols[|symbols| - 1]]
            == ToOption(DownloadAndSave(m, DownloadMultiple(m, store, symbols[..|symbols| - 1], forceFull, today).store,
                                        symbols[|symbols| - 1], forceFull, today).step.outcome)
  {
  }

  /** Dropping the last symbol keeps an earlier last occurrence the last one, at the same
      place and with the same symbols before it. */
  lemma PrefixKeepsLastOccurrence(symbols: seq<string>, j: int)
    requires 0 <= j < |symbols| - 1
    requires forall k :: j < k < |symbols| ==> symbols[k] != symbols[j]
    ensures var earlier := symbols[..|symbols| - 1];
            && earlier[..j] == symbols[..j] && earlier[j] == symbols[j]
            && (forall k :: j < k < |earlier| ==> earlier[k] != earlier[j])
            && symbols[j] != symbols[|symbols| - 1]
  {
  }

  /** Per-symbol isolation: a symbol listed once, in a batch where no symbol holds a `/` (so
      no other symbol shares its file), gets exactly what processing it alone would have
      given. Earlier symbols only ever write their own files, so neither their successes nor
      their failures reach it, and repeats of other symbols do not matter. */
  lemma DownloadMultipleIsolation(m: Manager, store: Store, symbols: seq<string>,
                                  forceFull: bool, today: Day, i: int)
    requires 0 <= i < |symbols|
    requires forall k :: 0 <= k < |symbols| && k != i ==> symbols[k] != symbols[i]
    requires forall k :: 0 <= k < |symbols| ==> PlainSymbol(symbols[k])
    ensures DownloadMultiple(m, store, symbols, forceFull, today).results[symbols[i]]
            == ToOption(DownloadAndSave(m, store, symbols[i], forceFull, today).step.outcome)
  {
    DownloadMultipleLastCall(m, store, symbols, forceFull, today, i);
    var earlier := symbols[..i];
    var path := FilePath(m.dataDir, symbols[i]);
    forall s | s in earlier
      ensures path != FilePath(m.dataDir, s)
    {
      var k :| 0 <= k < i && earlier[k] == s;
      assert symbols[k] == s;
      FilePathInjective(m.dataDir, symbols[i], s);
    }
    DownloadMultipleFrame(m, store, earlier, forceFull, today, path);
    DownloadAndSaveFrame(m, DownloadMultiple(m, store, earlier, forceFull, today).store, store, symbols[i], forceFull, today);
  }

  /** Processing the last symbol of a batch leaves the entry of a different earlier symbol as
      it was. */
  lemma LaterSymbolKeepsEntry(m: Manager, store: Store, symbols: seq<string>, forceFull: bool, today: Day, i: int)
    requires 0 <= i < |symbols| - 1 && symbols[i] != symbols[|symbols| - 1]
    ensures symbols[i] in DownloadMultiple(m, store, symbols[..|symbols| - 1], forceFull, today).results
    ensures DownloadMultiple(m, store, symbols, forceFull, today).results[symbols[i]]
            == DownloadMultiple(m, store, symbols[..|symbols| - 1], forceFull, today).results[symbols[i]]
  {
    assert symbols[..|symbols| - 1][i] == symbols[i];
  }
}
