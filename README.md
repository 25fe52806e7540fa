# GSOD station file converter, modelled in Dafny

This project models the batch converter `ingestion/process_gsod.py`. The
converter turns per-station daily weather CSV files (GSOD) into Parquet files
and uploads them to S3. The model covers the converter's own logic:

- **Record normalisation** (`clean_and_convert`). It keeps the columns `DATE`,
  `TEMP`, `MAX` and `MIN` as `date`, `temp`, `max_temp` and `min_temp`. It
  parses them leniently and drops the rows whose date is missing. It adds a
  constant `station_id` column. Any failure yields the empty table.
- **Input selection** (`main`). The `.csv` entries of the raw directory are
  joined to the directory, sorted, and cut to the first 400.
- **Name derivation.** The station id is the base name with every `.csv`
  removed (Python's `str.replace`). The local Parquet path and the S3 key are
  fixed functions of it.
- **Per-file dispatch** (`process_station_file`). An empty table is skipped.
  Otherwise the table is saved, and it is uploaded only when the save
  returned a path. No failure escapes to the batch loop.
- **The batch loop.** Each selected file is processed once, in sorted order.
  A missing raw directory, or a listing that raises, stops the run before any
  file is processed.

Files:

- `wrappers.dfy`: `Option`, the model's missing-value marker.
- `pystr.dfy`: Python's `str.endswith`, `in`, `replace`, `split` and `join`.
  `replace` is proved equal to `join` after `split`.
- `pypath.dfy`: POSIX `os.path.join` and `os.path.basename`.
- `sorting.dfy`: Python's string order, lexicographic by code point.
  `sorted` is modelled by insertion sort. Sorted permutations are proved
  unique, so any sorting algorithm gives the same list.
- `clean_convert.dfy`: `clean_and_convert`.
- `process_gsod.dfy`: file selection, station id and paths, `save_parquet`,
  `process_station_file` and `main`.

The outside world is a value of type `ProcessGsod.Io`. It says what
`pd.read_csv` gives for a path, or that it raised. It holds the date and
number parsers, each returning `None` on failure. It also says whether
`os.makedirs`, the Parquet write and the S3 upload succeed. The existence of
the raw directory and its listing (or the failure of `os.listdir`) are
parameters of `ProcessAll`.
Temperatures and dates are opaque type parameters `N` and `D`.

Three points where the code does something other than what one might
expect; the model follows the code:

- The station id is not simply the file name without its extension. The code
  removes every occurrence of `.csv`, scanning left to right without overlap
  and without rescanning. So `a.csvb.csv` gives `ab`, and `.c.csvsv.csv` gives
  `.csv`. Two files such as `a.csv` and `a.csv.csv` get the same id, and
  therefore the same local path and S3 key (`StationIdCollision`); if the
  later file is also saved, it overwrites the earlier one's output. For names whose stem contains no `.csv`,
  the id is the stem (`StationIdOfCsvName`).
- A missing column is not returned as an error of its own: `clean_and_convert`
  logs it (line 55) and returns the same empty table as a file with no valid
  rows, so the file is skipped.
- `os.makedirs` sits outside the `try` of `save_parquet`. Its failure is
  therefore caught only by `process_station_file`. The model keeps it apart
  from a failed write (`SaveRaised` versus `SaveFailed`).

## Model

| member | source | states |
|---|---|---|
| `PyStr.ReplaceIsSplitJoin` | ingestion/process_gsod.py:81 | `s.replace(p, r)` equals `r.join(s.split(p))`: the replacement goes exactly where `split` cuts |
| `PyStr.SplitPiecesFree` | ingestion/process_gsod.py:81 | no piece of `s.split(sep)` contains `sep`: every occurrence is cut, so, with `ReplaceIsSplitJoin`, every occurrence is replaced and none survives inside a piece |
| `PyStr.SplitJoin` | ingestion/process_gsod.py:81 | joining the pieces of `s.split(sep)` with `sep` gives back `s` |
| `PyStr.ReplaceWithoutMatch` | ingestion/process_gsod.py:81 | a string that does not contain the pattern is left unchanged by the replacement |
| `PyStr.ReplaceAfterFree` | ingestion/process_gsod.py:81 | a stretch holding no first character of the pattern is copied unchanged, and the scan of what follows goes on as if the stretch were not there |
| `PyStr.RemoveEach` | ingestion/process_gsod.py:81 | removing the pattern from `x`, pattern, `y`, pattern gives `x` then `y` when neither stretch holds the pattern's first character: every occurrence goes, not only the last |
| `PyStr.ReplaceKeepsOut` | ingestion/process_gsod.py:81 | the replacement introduces no character absent from the input and the replacement text (no '/' enters a station id) |
| `PyPath.Basename` | ingestion/process_gsod.py:80 | the result is the suffix after the last '/', contains no '/', and is preceded by '/' unless it is the whole path |
| `PyPath.BasenameOfJoin` | ingestion/process_gsod.py:80 | the base name of `join(dir, name)` is `name` for a name without '/' |
| `Sorting.BelowTotal` | ingestion/process_gsod.py:105-107 | any two strings are ordered one way or the other |
| `Sorting.BelowAntisymmetric` | ingestion/process_gsod.py:105-107 | strings ordered both ways are equal |
| `Sorting.BelowTransitive` | ingestion/process_gsod.py:105-107 | the string order is transitive |
| `Sorting.BelowPrefix` | ingestion/process_gsod.py:105-107 | a common directory prefix does not change the order of two paths |
| `Sorting.Sort` | ingestion/process_gsod.py:105-107 | `sorted` returns a sorted permutation of its input |
| `Sorting.SortedUnique` | ingestion/process_gsod.py:105-107 | two sorted lists with the same elements are equal |
| `Sorting.SortPermutation` | ingestion/process_gsod.py:105-107 | `sorted` gives the same list for any ordering of its input |
| `CleanConvert.CleanAndConvert` | ingestion/process_gsod.py:40-56 | the columns are exactly `date, temp, max_temp, min_temp, station_id` when the four input columns exist, and otherwise the table is empty with no columns; every row carries the given station id |
| `CleanConvert.KeptIndices` | ingestion/process_gsod.py:50 | the reference filter: increasing indices, each in range, holding exactly the rows whose date parses |
| `CleanConvert.ConvertRowsAppend` | ingestion/process_gsod.py:45-51 | converting a concatenation gives the concatenation of the conversions |
| `CleanConvert.ConvertRowsKept` | ingestion/process_gsod.py:45-51 | the converted rows are, in order, the conversions of the rows listed by the reference filter |
| `CleanConvert.CleanAndConvertRows` | ingestion/process_gsod.py:42-53 | the output rows are exactly the input rows whose date parses, in their original order, each at most once |
| `CleanConvert.RowWithDateKept` | ingestion/process_gsod.py:45-51 | a row with a parseable date is kept; a reading that fails to parse is missing, and the others keep their parsed values |
| `CleanConvert.CleanAndConvertEmpty` | ingestion/process_gsod.py:42-56 | the result is empty exactly when a required column is absent or no row's date parses |
| `ProcessGsod.CsvNames` | ingestion/process_gsod.py:106 | each entry ending in `.csv` is kept as often as it is listed, and no other entry is kept |
| `ProcessGsod.Take` | ingestion/process_gsod.py:109 | the slice `[:n]` is a prefix of length `min(n, len)` |
| `ProcessGsod.AllFilesCount` | ingestion/process_gsod.py:105-107 | the sorted list holds one path per `.csv` entry |
| `ProcessGsod.SelectFilesSpec` | ingestion/process_gsod.py:105-109 | the selected list has `min(400, number of .csv entries)` paths, each ending in `.csv`; it is sorted and is a prefix of all sorted `.csv` paths |
| `ProcessGsod.JoinAllPermutation` | ingestion/process_gsod.py:106 | joining a permutation of names gives a permutation of the paths |
| `ProcessGsod.JoinUnderRawDir` | ingestion/process_gsod.py:106 | an entry without '/' is joined as `data/raw/2025/` followed by the entry |
| `ProcessGsod.SelectFilesByName` | ingestion/process_gsod.py:105-109 | when no entry contains '/', the selection is the first 400 `.csv` entries in name order, each joined to the raw directory: sorting the paths sorts the names |
| `ProcessGsod.SelectFilesDeterministic` | ingestion/process_gsod.py:105-109 | the selection does not depend on the order of the directory listing |
| `ProcessGsod.SelectedFileNames` | ingestion/process_gsod.py:106 | each selected path is the raw directory joined with a listed `.csv` entry, whose base name is that entry |
| `ProcessGsod.RemoveCsvSuffix` | ingestion/process_gsod.py:81 | a trailing `.csv` is always removed and does not change the result for the rest of the name |
| `ProcessGsod.StationIdOfCsvName` | ingestion/process_gsod.py:80-81 | the id of `stem.csv` is `stem` when the stem contains no `.csv` |
| `ProcessGsod.StationIdInRawDir` | ingestion/process_gsod.py:80-81 | the id of a raw-directory entry without '/' is the entry with `.csv` removed |
| `ProcessGsod.StationIdRemovesEveryOccurrence` | ingestion/process_gsod.py:81 | for `x` and `y` without '.' or '/', the id of `x.csvy.csv` is `xy` (so `a.csvb.csv` gives `ab`): every occurrence is removed, not only the extension |
| `ProcessGsod.StationIdNoRescan` | ingestion/process_gsod.py:81 | the id of `.c.csvsv.csv` is `.csv`: removed text is not rescanned |
| `ProcessGsod.StationIdCollision` | ingestion/process_gsod.py:81 | for `x` without '.' or '/', `x.csv` and `x.csv.csv` both get the id `x`, so they share a local path and a key |
| `ProcessGsod.LocalPathInside` | ingestion/process_gsod.py:61 | a station id without '/' is saved at `data/processed/2025/<id>.parquet`, inside the processed directory |
| `ProcessGsod.StationPaths` | ingestion/process_gsod.py:61 | for a listed entry, the id is the entry with `.csv` removed and contains no '/'; the local path is `data/processed/2025/<id>.parquet` |
| `ProcessGsod.SaveParquet` | ingestion/process_gsod.py:59-68 | it raises exactly when creating the directory fails; it returns a path exactly when the write also succeeds; that path is the non-empty local path of the station |
| `ProcessGsod.FileOutcomeCases` | ingestion/process_gsod.py:79-97 | the outcome names the file's station id. A read failure gives `ReadFailed`. An empty table gives `SkippedEmpty`. An upload is attempted exactly when the read succeeded, the table is not empty and the save returned a path, and then under the local path and the key `processed/2025/<id>.parquet` |
| `ProcessGsod.MissingColumnSkipped` | ingestion/process_gsod.py:88-90 | a file missing a required column is skipped: no save, no upload |
| `ProcessGsod.SavedFileUploaded` | ingestion/process_gsod.py:92-95 | a non-empty table that is saved is uploaded under the station's key |
| `ProcessGsod.ProcessStationFile` | ingestion/process_gsod.py:79-97 | the method reaches the outcome `FileOutcome` specifies, and no failure escapes it |
| `ProcessGsod.MapSeqIndex` | ingestion/process_gsod.py:112-113 | the list of outcomes has one entry per file, and the k-th entry is the outcome of the k-th file alone |
| `ProcessGsod.ProcessFiles` | ingestion/process_gsod.py:112-113 | the loop yields `Outcomes(files)`: one outcome per file, in list order, each that file's `FileOutcome`; no failure of one file stops the loop |
| `ProcessGsod.ProcessAll` | ingestion/process_gsod.py:100-115 | a missing raw directory processes nothing, and a listing that raises ends the run; otherwise it reports the number of `.csv` files found, and the trace holds one outcome per selected file, in selection order |
| `ProcessGsod.OneGoodRowUploaded` | ingestion/process_gsod.py:79-97 | for a stem without '.' or '/', a file `<stem>.csv` (such as `ABC123.csv`) with one row whose date and readings parse, and whose save succeeds, is saved as `data/processed/2025/<stem>.parquet` and uploaded as `processed/2025/<stem>.parquet` |
| `ProcessGsod.OneRowConverted` | ingestion/process_gsod.py:40-53 | a table with the four columns and one row whose date and readings parse becomes one record with those values and the station id, so it is not empty |
| `ProcessGsod.UnparseableDateSkipped` | ingestion/process_gsod.py:88-90 | a file whose only row has the date `N/A` is skipped |

## Left out

- Parsing inside pandas: `read_csv`, `to_datetime` and `to_numeric` are oracles and parameters. `to_datetime` infers one date format for the whole column. The model parses each cell on its own.
- Dates and temperatures are opaque types. No floating-point arithmetic is modelled.
- Parquet serialisation (`to_parquet`) and `os.makedirs`: only their success or failure is modelled.
- The S3 client, the bucket name and credentials: an upload is modelled only as an attempt under a key with an outcome. Its result is swallowed by `upload_to_s3`.
- Everything done when the module is imported (lines 10-37): `load_dotenv`, environment variables, the logging setup and the S3 client, and every log message. The model starts at `main`. A failure during that setup stops the script before any file is processed and is not modelled: for example `logging.FileHandler("logs/gsod_processing.log")` opens its file at once and raises when the `logs/` directory is missing.
- `os.listdir` and `os.path.exists`: the listing and the existence flag are inputs. A listing that raises is reported as `ListingRaised`; in the program that exception leaves `main` uncaught.
- ProcessGsod.Io: every oracle is a fixed function of its argument for the whole run. What processing one file does to the disk or the bucket cannot change a later file's outcome in the model, so a disk that fills up or a network that fails part-way through the run is not expressed. For two colliding files such as `x.csv` and `x.csv.csv`, the second save and upload get the same results as the first, and the second file overwriting the first is not represented.
- CleanConvert.CleanAndConvert: a missing column is the only failure modelled inside it. No other pandas exception inside it is modelled.
- Rows are maps from column name to text. A cell absent from the map is an empty (NaN) cell.
- File names are Dafny strings, sequences of Unicode scalar values. A name that `os.listdir` decodes with surrogate escapes (an undecodable byte becomes a lone surrogate such as U+DCFF) cannot be represented, so such entries lie outside the domain of `CsvNames`, `Sort` and `StationId`.
- Overwriting files and objects across runs, and what a later run sees, is not modelled. The model covers one run.
