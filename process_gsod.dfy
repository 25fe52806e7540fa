/** The batch converter of `ingestion/process_gsod.py`: which raw files are
    picked, how a station id, a local path and a remote key are derived from
    a file name, and what happens to each file (skip, save, upload).

    Everything the script does through pandas, pyarrow, boto3 and the file
    system is an oracle in `Io`: reading a CSV either gives a raw table or
    raises, creating the output directory and writing the Parquet file
    either succeed or fail, an upload either succeeds or fails. */
module ProcessGsod {
  import opened Wrappers
  import opened PyStr
  import PyPath
  import opened Sorting
  import opened CleanConvert

  const RawDir: string := "data/raw/2025"
  const ProcessedDir: string := "data/processed/2025"
  /** At most this many files are processed in one run. */
  const MaxFiles: nat := 400
  const CsvSuffix: string := ".csv"
  const ParquetSuffix: string := ".parquet"
  const KeyPrefix: string := "processed/2025/"

  // ----- Choosing the input files (main) -----

  /** The directory entries that end in ".csv", in listing order. */
  function CsvNames(entries: seq<string>): (names: seq<string>)
    ensures forall f :: multiset(names)[f] == if EndsWith(f, CsvSuffix) then multiset(entries)[f] else 0
  {
    if entries == [] then []
    else
      assert entries == [entries[0]] + entries[1..];
      (if EndsWith(entries[0], CsvSuffix) then [entries[0]] else []) + CsvNames(entries[1..])
  }

  /** `[os.path.join(dir, f) for f in names]` */
  function JoinAll(dir: string, names: seq<string>): seq<string> {
    seq(|names|, i requires 0 <= i < |names| => PyPath.Join(dir, names[i]))
  }

  /** `all_files`: the sorted paths of the CSV entries. */
  function AllFiles(entries: seq<string>): seq<string> {
    Sort(JoinAll(RawDir, CsvNames(entries)))
  }

  lemma AllFilesCount(entries: seq<string>)
    ensures |AllFiles(entries)| == |CsvNames(entries)|
  {
    var paths := JoinAll(RawDir, CsvNames(entries));
    assert |AllFiles(entries)| == |multiset(AllFiles(entries))| == |multiset(paths)| == |paths|;
  }

  /** The slice `s[:n]`. */
  function Take<T>(s: seq<T>, n: nat): (r: seq<T>)
    ensures |r| == (if |s| < n then |s| else n)
    ensures r <= s
  {
    if |s| <= n then s else s[..n]
  }

  /** `limited_files`: the first MaxFiles of the sorted paths. */
  function SelectFiles(entries: seq<string>): seq<string> {
    Take(AllFiles(entries), MaxFiles)
  }

  lemma JoinEndsWith(dir: string, name: string, suffix: string)
    requires EndsWith(name, suffix)
    ensures EndsWith(PyPath.Join(dir, name), suffix)
  {
    if |name| > 0 && name[0] == '/' {
    } else if dir == [] || dir[|dir| - 1] == '/' {
      EndsWithAppend(dir, name, suffix);
    } else {
      EndsWithAppend(dir + "/", name, suffix);
      assert dir + "/" + name == (dir + "/") + name;
    }
  }

  /** The selected files: min(MaxFiles, number of CSV entries) of them, each
      ending in ".csv", sorted, and a prefix of all the sorted CSV paths. */
  lemma SelectFilesSpec(entries: seq<string>)
    ensures var n := |CsvNames(entries)|;
            |SelectFiles(entries)| == if n < MaxFiles then n else MaxFiles
    ensures forall p :: p in SelectFiles(entries) ==> EndsWith(p, CsvSuffix)
    ensures Sorted(SelectFiles(entries))
    ensures SelectFiles(entries) <= AllFiles(entries)
  {
    var names := CsvNames(entries);
    var paths := JoinAll(RawDir, names);
    var all := AllFiles(entries);
    AllFilesCount(entries);
    var sel := SelectFiles(entries);
    forall p | p in sel ensures EndsWith(p, CsvSuffix) {
      assert p in multiset(all);
      assert p in multiset(paths);
      var i :| 0 <= i < |paths| && paths[i] == p;
      assert names[i] in multiset(names);
      JoinEndsWith(RawDir, names[i], CsvSuffix);
    }
    forall i, j | 0 <= i < j < |sel| ensures Below(sel[i], sel[j]) {
      assert sel[i] == all[i] && sel[j] == all[j];
    }
  }

  lemma JoinAllAppend(dir: string, a: seq<string>, b: seq<string>)
    ensures JoinAll(dir, a + b) == JoinAll(dir, a) + JoinAll(dir, b)
  {
  }

  /** Joining a permutation of names gives a permutation of paths. */
  lemma {:induction false} JoinAllPermutation(dir: string, a: seq<string>, b: seq<string>)
    requires multiset(a) == multiset(b)
    ensures multiset(JoinAll(dir, a)) == multiset(JoinAll(dir, b))
    decreases |a|
  {
    assert |b| == |multiset(b)| == |multiset(a)| == |a|;
    if a != [] {
      assert a[0] in multiset(b);
      var j :| 0 <= j < |b| && b[j] == a[0];
      var rest := b[..j] + b[j + 1..];
      assert b == b[..j] + [b[j]] + b[j + 1..];
      assert a == [a[0]] + a[1..];
      assert multiset(rest) == multiset(b) - multiset{a[0]};
      assert multiset(a[1..]) == multiset(a) - multiset{a[0]};
      JoinAllPermutation(dir, a[1..], rest);
      JoinAllAppend(dir, [a[0]], a[1..]);
      JoinAllAppend(dir, b[..j], [b[j]]);
      JoinAllAppend(dir, b[..j] + [b[j]], b[j + 1..]);
      JoinAllAppend(dir, b[..j], b[j + 1..]);
    }
  }

  /** The choice of files and their order do not depend on the order in
      which the directory lists its entries. */
  lemma SelectFilesDeterministic(entries1: seq<string>, entries2: seq<string>)
    requires multiset(entries1) == multiset(entries2)
    ensures SelectFiles(entries1) == SelectFiles(entries2)
  {
    var n1, n2 := CsvNames(entries1), CsvNames(entries2);
    assert multiset(n1) == multiset(n2);
    JoinAllPermutation(RawDir, n1, n2);
    SortPermutation(JoinAll(RawDir, n1), JoinAll(RawDir, n2));
  }

  /** Each selected path is the raw directory joined with one of the CSV
      entries, so its base name is that entry. */
  lemma SelectedFileNames(entries: seq<string>)
    requires forall e :: e in entries ==> '/' !in e
    ensures forall p :: p in SelectFiles(entries) ==>
              var f := PyPath.Basename(p);
              f in entries && EndsWith(f, CsvSuffix) && p == PyPath.Join(RawDir, f)
  {
    var names := CsvNames(entries);
    var paths := JoinAll(RawDir, names);
    forall p | p in SelectFiles(entries)
      ensures var f := PyPath.Basename(p);
              f in entries && EndsWith(f, CsvSuffix) && p == PyPath.Join(RawDir, f)
    {
      assert p in multiset(AllFiles(entries));
      assert p in multiset(paths);
      var i :| 0 <= i < |paths| && paths[i] == p;
      assert names[i] in multiset(names);
      assert names[i] in multiset(entries);
      PyPath.BasenameOfJoin(RawDir, names[i]);
    }
  }

  /** An entry without '/' is joined under the raw directory. */
  lemma JoinUnderRawDir(name: string)
    requires '/' !in name
    ensures PyPath.Join(RawDir, name) == (RawDir + "/") + name
  {
    if name != [] {
      assert name[0] in name;
    }
    assert RawDir[|RawDir| - 1] == '5';
  }

  /** Sorting the paths is sorting the names: the selection is the first
      MaxFiles CSV entries in name order, each joined to the raw directory. */
  lemma SelectFilesByName(entries: seq<string>)
    requires forall e :: e in entries ==> '/' !in e
    ensures SelectFiles(entries) == JoinAll(RawDir, Take(Sort(CsvNames(entries)), MaxFiles))
  {
    var names := CsvNames(entries);
    var byName := Sort(names);
    var paths := JoinAll(RawDir, byName);
    var prefix := RawDir + "/";
    forall k | 0 <= k < |byName|
      ensures paths[k] == prefix + byName[k]
    {
      assert byName[k] in multiset(names);
      assert byName[k] in multiset(entries);
      JoinUnderRawDir(byName[k]);
    }
    forall i, j | 0 <= i < j < |paths|
      ensures Below(paths[i], paths[j])
    {
      BelowPrefix(prefix, byName[i], byName[j]);
    }
    JoinAllPermutation(RawDir, byName, names);
    SortedUnique(AllFiles(entries), paths);
    var sel := Take(byName, MaxFiles);
    assert Take(paths, MaxFiles) == JoinAll(RawDir, sel);
  }

  // ----- Station id, local path and remote key -----

  /** `os.path.basename(file_path).replace(".csv", "")` */
  function StationId(filePath: string): string {
    Replace(PyPath.Basename(filePath), CsvSuffix, [])
  }

  /** `os.path.join(PROCESSED_DIR, f"{station_id}.parquet")` */
  function LocalPath(stationId: string): string {
    PyPath.Join(ProcessedDir, stationId + ParquetSuffix)
  }

  /** A station id without '/' is saved directly inside the processed directory. */
  lemma LocalPathInside(stationId: string)
    requires '/' !in stationId
    ensures LocalPath(stationId) == ProcessedDir + "/" + stationId + ParquetSuffix
  {
    var name := stationId + ParquetSuffix;
    assert name[0] != '/' by {
      if stationId != [] {
        assert stationId[0] in stationId;
      }
    }
    assert ProcessedDir != [] && ProcessedDir[|ProcessedDir| - 1] == '5';
  }

  /** `f"processed/2025/{station_id}.parquet"` */
  function S3Key(stationId: string): string {
    KeyPrefix + stationId + ParquetSuffix
  }

  /** A trailing ".csv" is always removed, and does not change how the rest
      is scanned: ".csv" has no proper prefix that is also its suffix. */
  lemma {:induction false} RemoveCsvSuffix(a: string)
    ensures Replace(a + CsvSuffix, CsvSuffix, []) == Replace(a, CsvSuffix, [])
    decreases |a|
  {
    var s := a + CsvSuffix;
    if a == [] {
      assert s[..4] == CsvSuffix && s[4..] == [];
    } else if |a| < 4 {
      assert s[..4] != CsvSuffix by {
        if |a| == 1 { assert s[1] == '.'; }
        else if |a| == 2 { assert s[2] == '.'; }
        else { assert s[3] == '.'; }
      }
      assert s[1..] == a[1..] + CsvSuffix;
      RemoveCsvSuffix(a[1..]);
    } else if a[..4] == CsvSuffix {
      assert s[..4] == a[..4];
      assert s[4..] == a[4..] + CsvSuffix;
      RemoveCsvSuffix(a[4..]);
    } else {
      assert s[..4] == a[..4];
      assert s[1..] == a[1..] + CsvSuffix;
      RemoveCsvSuffix(a[1..]);
    }
  }

  /** For a file named `stem + ".csv"` whose stem holds no ".csv", the
      station id is the stem. */
  lemma StationIdOfCsvName(dir: string, stem: string)
    requires '/' !in stem && !Contains(stem, CsvSuffix)
    ensures StationId(PyPath.Join(dir, stem + CsvSuffix)) == stem
  {
    PyPath.BasenameOfJoin(dir, stem + CsvSuffix);
    RemoveCsvSuffix(stem);
    ReplaceWithoutMatch(stem, CsvSuffix, []);
  }

  /** The scan passes over a stretch without '.', since every ".csv" starts
      with one. */
  lemma RemoveAfterDotFree(x: string, t: string)
    requires '.' !in x
    ensures Replace(x + t, CsvSuffix, []) == x + Replace(t, CsvSuffix, [])
  {
    PyStr.ReplaceAfterFree(x, t, CsvSuffix, []);
  }

  /** A leading ".csv" is removed and the scan resumes right after it. */
  lemma RemoveLeadingCsv(t: string)
    ensures Replace(CsvSuffix + t, CsvSuffix, []) == Replace(t, CsvSuffix, [])
  {
    PyStr.ReplaceLeading(t, CsvSuffix, []);
  }

  /** An entry of the raw directory without '/' gets the entry with ".csv"
      removed as its station id. */
  lemma StationIdInRawDir(name: string)
    requires '/' !in name
    ensures StationId(PyPath.Join(RawDir, name)) == Replace(name, CsvSuffix, [])
  {
    PyPath.BasenameOfJoin(RawDir, name);
  }

  /** Every ".csv" in the name is removed, not only the extension:
      `x.csvy.csv` gives `xy`. */
  lemma StationIdRemovesEveryOccurrence(x: string, y: string)
    requires '.' !in x && '.' !in y && '/' !in x && '/' !in y
    ensures StationId(PyPath.Join(RawDir, x + CsvSuffix + y + CsvSuffix)) == x + y
  {
    var name := x + CsvSuffix + y + CsvSuffix;
    assert '/' !in name;
    StationIdInRawDir(name);
    PyStr.RemoveEach(x, y, CsvSuffix);
  }

  /** Two different files can get the same station id, hence the same
      local path and remote key, so the later one overwrites the earlier:
      `x.csv` and `x.csv.csv` both give `x`. */
  lemma StationIdCollision(x: string)
    requires '.' !in x && '/' !in x
    ensures StationId(PyPath.Join(RawDir, x + CsvSuffix)) == x
    ensures StationId(PyPath.Join(RawDir, x + CsvSuffix + CsvSuffix)) == x
  {
    assert '/' !in x + CsvSuffix && '/' !in x + CsvSuffix + CsvSuffix;
    PyPath.BasenameOfJoin(RawDir, x + CsvSuffix);
    PyPath.BasenameOfJoin(RawDir, x + CsvSuffix + CsvSuffix);
    RemoveCsvSuffix(x + CsvSuffix);
    RemoveCsvSuffix(x);
    RemoveAfterDotFree(x, []);
    assert x + [] == x;
  }

  /** Removed occurrences are not rescanned: `.c.csvsv.csv` gives `.csv`. */
  lemma StationIdNoRescan()
    ensures StationId(PyPath.Join(RawDir, ".c.csvsv.csv")) == CsvSuffix
  {
    var stem := ".c.csvsv";
    var name := stem + CsvSuffix;
    assert name == ".c.csvsv.csv";
    StationIdInRawDir(name);
    RemoveCsvSuffix(stem);
    RemovalLeavesCsv();
  }

  /** Removing the one ".csv" of ".c.csvsv" joins ".c" and "sv" into ".csv". */
  lemma RemovalLeavesCsv()
    ensures Replace(".c.csvsv", CsvSuffix, []) == CsvSuffix
  {
    var s, c, sv := ".c.csvsv", "c", "sv";
    var t := CsvSuffix + sv;
    assert Replace(s, CsvSuffix, []) == ['.'] + Replace(c + t, CsvSuffix, []) by {
      assert s[..4] != CsvSuffix by { assert s[2] == '.' && CsvSuffix[2] == 's'; }
      assert s[1..] == c + t;
    }
    assert Replace(c + t, CsvSuffix, []) == c + sv by {
      RemoveAfterDotFree(c, t);
      RemoveLeadingCsv(sv);
      RemoveAfterDotFree(sv, []);
      assert sv + [] == sv;
    }
    assert ['.'] + (c + sv) == CsvSuffix;
  }

  /** For a directory entry without '/', the station id is the entry with
      ".csv" removed, has no '/' either, and the local path is the
      processed directory, '/', the id and ".parquet". */
  lemma StationPaths(name: string)
    requires '/' !in name
    ensures StationId(PyPath.Join(RawDir, name)) == Replace(name, CsvSuffix, [])
    ensures '/' !in StationId(PyPath.Join(RawDir, name))
    ensures var sid := StationId(PyPath.Join(RawDir, name));
            LocalPath(sid) == ProcessedDir + "/" + sid + ParquetSuffix
  {
    PyPath.BasenameOfJoin(RawDir, name);
    ReplaceKeepsOut(name, CsvSuffix, [], '/');
    var sid := Replace(name, CsvSuffix, []);
    assert sid == [] || sid[0] in sid;
    assert (sid + ParquetSuffix)[0] != '/';
  }

  // ----- Processing one file (process_station_file) -----

  /** `save_parquet`: `os.makedirs` sits outside the try and its failure
      raises; a failed `to_parquet` is caught and gives None. */
  datatype SaveResult = Raised | Returned(path: Option<string>)

  function SaveParquet(stationId: string, makedirsOk: bool, writeOk: bool): (r: SaveResult)
    ensures r.Raised? <==> !makedirsOk
    ensures r.Returned? && r.path.Some? <==> makedirsOk && writeOk
    ensures r.Returned? && r.path.Some? ==> r.path.value == LocalPath(stationId) && r.path.value != []
  {
    if !makedirsOk then Raised
    else if writeOk then Returned(Some(LocalPath(stationId)))
    else Returned(None)
  }

  /** The outside world as seen by one run: what `pd.read_csv` gives for a
      path (None: it raised), the two parsers, and whether creating the
      output directory, writing a station's Parquet file and uploading a key
      succeed. */
  datatype Io<D, N> = Io(
    readCsv: string -> Option<RawTable>,
    parseDate: string -> Option<D>,
    parseNum: string -> Option<N>,
    makedirsOk: string -> bool,
    writeOk: string -> bool,
    uploadOk: string -> bool)

  /** What became of one file. `upload_to_s3` catches its own failure, so an
      attempted upload ends the file's processing either way. */
  datatype Outcome =
    | ReadFailed(stationId: string)
    | SkippedEmpty(stationId: string)
    | SaveRaised(stationId: string)
    | SaveFailed(stationId: string)
    | UploadTried(stationId: string, localPath: string, key: string, uploaded: bool)

  /** The outcome `process_station_file(file_path)` reaches. */
  function FileOutcome<D, N>(filePath: string, io: Io<D, N>): Outcome
  {
    var stationId := StationId(filePath);
    match io.readCsv(filePath)
    case None => ReadFailed(stationId)
    case Some(raw) =>
      if CleanAndConvert(raw, stationId, io.parseDate, io.parseNum).IsEmpty() then SkippedEmpty(stationId)
      else
        match SaveParquet(stationId, io.makedirsOk(stationId), io.writeOk(stationId))
        case Raised => SaveRaised(stationId)
        case Returned(None) => SaveFailed(stationId)
        case Returned(Some(path)) => UploadTried(stationId, path, S3Key(stationId), io.uploadOk(S3Key(stationId)))
  }

  /** Which outcome a file reaches, and under which conditions: a file
      that cannot be read, a table that is empty after cleaning, a save that
      raises or returns None, and otherwise an upload of the saved file
      under its key. */
  lemma FileOutcomeCases<D, N>(filePath: string, io: Io<D, N>)
    ensures var o := FileOutcome(filePath, io);
            o.stationId == StationId(filePath)
    ensures var o := FileOutcome(filePath, io);
            o.ReadFailed? <==> io.readCsv(filePath).None?
    ensures var o := FileOutcome(filePath, io);
            o.SkippedEmpty? <==>
              io.readCsv(filePath).Some? &&
              CleanAndConvert(io.readCsv(filePath).value, StationId(filePath), io.parseDate, io.parseNum).IsEmpty()
    ensures var o := FileOutcome(filePath, io);
            o.UploadTried? <==>
              io.readCsv(filePath).Some? &&
              !CleanAndConvert(io.readCsv(filePath).value, StationId(filePath), io.parseDate, io.parseNum).IsEmpty() &&
              io.makedirsOk(StationId(filePath)) && io.writeOk(StationId(filePath))
    ensures var o := FileOutcome(filePath, io);
            o.UploadTried? ==>
              o.localPath == LocalPath(StationId(filePath)) && o.key == S3Key(StationId(filePath)) &&
              o.uploaded == io.uploadOk(S3Key(StationId(filePath)))
  {
  }

  /** A file missing one of the four columns is skipped: nothing is saved
      and nothing is uploaded. */
  lemma MissingColumnSkipped<D, N>(filePath: string, io: Io<D, N>, raw: RawTable)
    requires io.readCsv(filePath) == Some(raw) && !HasRequiredColumns(raw)
    ensures FileOutcome(filePath, io) == SkippedEmpty(StationId(filePath))
  {
  }

  /** `process_station_file(file_path)`: every failure ends in an outcome,
      none escapes to the caller. */
  method ProcessStationFile<D, N>(filePath: string, io: Io<D, N>) returns (outcome: Outcome)
    ensures outcome == FileOutcome(filePath, io)
  {
    var stationId := StationId(filePath);
    var df := io.readCsv(filePath);
    if df.None? {
      return ReadFailed(stationId);
    }
    var cleaned := CleanAndConvert(df.value, stationId, io.parseDate, io.parseNum);
    if cleaned.IsEmpty() {
      return SkippedEmpty(stationId);
    }
    var localParquet := SaveParquet(stationId, io.makedirsOk(stationId), io.writeOk(stationId));
    if localParquet.Raised? {
      return SaveRaised(stationId);
    }
    if localParquet.path.None? {
      return SaveFailed(stationId);
    }
    var key := S3Key(stationId);
    outcome := UploadTried(stationId, localParquet.path.value, key, io.uploadOk(key));
  }

  // ----- The batch (main) -----

  /** What a run reports: the raw directory was missing, listing it raised
      (the exception leaves `main`), or how many CSV files were found and
      the outcome of each processed file, in order. */
  datatype Report = RawDirMissing | ListingRaised | Finished(found: nat, trace: seq<Outcome>)

  /** `[f(x) for x in xs]`, built from the back as a loop appends. */
  function MapSeq<A, B>(f: A -> B, xs: seq<A>): seq<B>
    decreases |xs|
  {
    if xs == [] then [] else MapSeq(f, xs[..|xs| - 1]) + [f(xs[|xs| - 1])]
  }

  lemma {:induction false} MapSeqIndex<A, B>(f: A -> B, xs: seq<A>)
    ensures |MapSeq(f, xs)| == |xs|
    ensures forall k :: 0 <= k < |xs| ==> MapSeq(f, xs)[k] == f(xs[k])
    decreases |xs|
  {
    if xs != [] {
      var front := xs[..|xs| - 1];
      MapSeqIndex(f, front);
      assert forall k :: 0 <= k < |front| ==> front[k] == xs[k];
    }
  }

  /** The outcomes of a list of files, each processed on its own: what
      happened to earlier files has no effect on a file's outcome. */
  function Outcomes<D, N>(files: seq<string>, io: Io<D, N>): seq<Outcome> {
    MapSeq((f: string) => FileOutcome(f, io), files)
  }

  /** The `for` loop of `main`: each file once, in list order; a file's
      failure is absorbed in its outcome and the loop goes on. */
  method ProcessFiles<D, N>(files: seq<string>, io: Io<D, N>) returns (trace: seq<Outcome>)
    ensures trace == Outcomes(files, io)
  {
    trace := [];
    for i := 0 to |files|
      invariant trace == Outcomes(files[..i], io)
    {
      var outcome := ProcessStationFile(files[i], io);
      assert files[..i + 1][..i] == files[..i];
      trace := trace + [outcome];
    }
    assert files[..|files|] == files;
  }

  /** `main()`, given whether the raw directory exists and what listing it
      gives: its entries, or None when `os.listdir` raises. */
  method ProcessAll<D, N>(rawDirExists: bool, listing: Option<seq<string>>, io: Io<D, N>) returns (report: Report)
    ensures report.RawDirMissing? <==> !rawDirExists
    ensures report.ListingRaised? <==> rawDirExists && listing.None?
    ensures report.Finished? ==> listing.Some? && report.found == |CsvNames(listing.value)|
    ensures report.Finished? ==> |report.trace| == |SelectFiles(listing.value)|
    ensures report.Finished? ==> forall i :: 0 <= i < |report.trace| ==>
              report.trace[i] == FileOutcome(SelectFiles(listing.value)[i], io)
  {
    if !rawDirExists {
      return RawDirMissing;
    }
    if listing.None? {
      return ListingRaised;
    }
    var allFiles := AllFiles(listing.value);
    var limitedFiles := Take(allFiles, MaxFiles);
    AllFilesCount(listing.value);
    var trace := ProcessFiles(limitedFiles, io);
    MapSeqIndex((f: string) => FileOutcome(f, io), limitedFiles);
    report := Finished(|allFiles|, trace);
  }

  // ----- Two end-to-end cases -----

  /** A file whose table is not empty and whose Parquet file is written
      is uploaded under its key. */
  lemma SavedFileUploaded<D, N>(filePath: string, io: Io<D, N>)
    requires io.readCsv(filePath).Some?
    requires !CleanAndConvert(io.readCsv(filePath).value, StationId(filePath), io.parseDate, io.parseNum).IsEmpty()
    requires io.makedirsOk(StationId(filePath)) && io.writeOk(StationId(filePath))
    ensures var sid := StationId(filePath);
            FileOutcome(filePath, io) == UploadTried(sid, LocalPath(sid), S3Key(sid), io.uploadOk(S3Key(sid)))
  {
  }

  /** A raw table with the four columns and one row. */
  function OneRowTable(date: string, temp: string, hi: string, lo: string): RawTable {
    RawTable(["DATE", "TEMP", "MAX", "MIN"], [map["DATE" := date, "TEMP" := temp, "MAX" := hi, "MIN" := lo]])
  }

  /** Its row becomes one record with the parsed date and readings. */
  lemma OneRowConverted<D, N>(raw: RawTable, stationId: string, parseDate: string -> Option<D>, parseNum: string -> Option<N>,
                              date: string, temp: string, hi: string, lo: string, d: D, t: N, h: N, l: N)
    requires raw == OneRowTable(date, temp, hi, lo)
    requires parseDate(date) == Some(d)
    requires parseNum(temp) == Some(t) && parseNum(hi) == Some(h) && parseNum(lo) == Some(l)
    ensures CleanAndConvert(raw, stationId, parseDate, parseNum).rows == [Record(d, Some(t), Some(h), Some(l), stationId)]
    ensures !CleanAndConvert(raw, stationId, parseDate, parseNum).IsEmpty()
  {
    var row := raw.rows[0];
    assert row["DATE"] == date && row["TEMP"] == temp && row["MAX"] == hi && row["MIN"] == lo;
    var r := Record(d, Some(t), Some(h), Some(l), stationId);
    assert ConvertRow(row, stationId, parseDate, parseNum) == Some(r);
    assert ConvertRows(raw.rows, stationId, parseDate, parseNum) == [r] by {
      assert raw.rows[1..] == [];
    }
    assert HasRequiredColumns(raw) by {
      assert raw.columns == RequiredColumns;
    }
  }

  /** A file `<stem>.csv` (for instance `ABC123.csv`) with one row whose date
      and readings parse is saved as `data/processed/2025/<stem>.parquet` and
      uploaded as `processed/2025/<stem>.parquet`. */
  lemma OneGoodRowUploaded<D, N>(io: Io<D, N>, stem: string, date: string, temp: string, hi: string, lo: string,
                                 d: D, t: N, h: N, l: N)
    requires '.' !in stem && '/' !in stem
    requires io.readCsv(PyPath.Join(RawDir, stem + CsvSuffix)) == Some(OneRowTable(date, temp, hi, lo))
    requires io.parseDate(date) == Some(d)
    requires io.parseNum(temp) == Some(t) && io.parseNum(hi) == Some(h) && io.parseNum(lo) == Some(l)
    requires io.makedirsOk(stem) && io.writeOk(stem)
    ensures FileOutcome(PyPath.Join(RawDir, stem + CsvSuffix), io) ==
            UploadTried(stem, ProcessedDir + "/" + stem + ParquetSuffix, KeyPrefix + stem + ParquetSuffix,
                        io.uploadOk(KeyPrefix + stem + ParquetSuffix))
  {
    var path := PyPath.Join(RawDir, stem + CsvSuffix);
    StationIdCollision(stem);
    assert StationId(path) == stem;
    var raw := io.readCsv(path).value;
    OneRowConverted(raw, stem, io.parseDate, io.parseNum, date, temp, hi, lo, d, t, h, l);
    SavedFileUploaded(path, io);
    LocalPathInside(stem);
  }

  /** A file whose only row has the date "N/A" is skipped. */
  lemma UnparseableDateSkipped<D, N>(io: Io<D, N>, path: string, row: Row)
    requires io.readCsv(path) == Some(RawTable(["DATE", "TEMP", "MAX", "MIN"], [row]))
    requires "DATE" in row && row["DATE"] == "N/A" && io.parseDate("N/A") == None
    ensures FileOutcome(path, io) == SkippedEmpty(StationId(path))
  {
    var raw := io.readCsv(path).value;
    assert raw.rows[1..] == [];
    assert Cell(io.parseDate, row, "DATE") == None;
    assert ConvertRows(raw.rows, StationId(path), io.parseDate, io.parseNum) == [];
  }
}
