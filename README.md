# base64-image-decoder, modelled in Dafny

`decoder.py` converts a folder of JSON documents into image files. Each
document carries an `annotated_image` object with a base64 payload and
optional `filename` and `mime` hints, and may carry a `job_id`. For every
`*.json` file, in ascending order of name, the program does four things:

- It extracts an `ImageRecord`. A missing optional field takes its default.
- It infers the extension. A fixed MIME table is tried first, then the filename's suffix, then `.bin`.
- It builds the output name `<stem><ext>`. When the stem is empty, the job id stands in for it.
- It creates the output directory, decodes the payload and writes the bytes.

`convert_single_json` catches and skips these failures:

- a read or parse failure (`OSError`, `json.JSONDecodeError`);
- a missing key (`KeyError`);
- a decoding or writing failure (`OSError`, `ValueError`, `binascii.Error`).

The code lets every other exception escape. Each of the following raises
one that is not caught, and the batch ends at that file:

- loading the file raises something other than `OSError` or `JSONDecodeError`:
  - `UnicodeDecodeError` for bytes that are not UTF-8 (it is a `ValueError`, not a `JSONDecodeError`);
  - `ValueError` for an integer literal longer than the interpreter's digit limit (4300 digits by default);
  - `RecursionError` for a document nested too deeply;
- a document or an `annotated_image` that is not an object;
- once the output directory exists or mkdir has succeeded, a filename that is not a string;
- in that same case, a true MIME value that is not a string;
- in that same case, a payload that is not a string.

When mkdir fails first, that `OSError` is caught and the file is merely skipped.

So per-file isolation holds only for the caught kinds. The model follows
the code. `Facts.CrashCauses` pins down exactly the escaping cases that
come from loading, extraction, naming and decoding, on the assumption that
`print` never raises (see "## Left out").

Module layout:

- `Wrappers`: `Option`, and `Py`, a value or a raised exception.
- `PyJson`: loaded JSON values, Python truthiness and `dict.get`.
- `Runtime`: `base64.b64decode` and `str()` on loaded values. The library part that is not defined here is a `Lib` parameter.
- `Paths`: `PurePath.name`, `.suffix` and `.stem` for POSIX paths.
- `Record`: `ImageRecord.from_json_payload`.
- `Naming`: `guess_extension`, and the file name `build_output_path` composes.
- `Listing`: `sorted(input_dir.glob("*.json"))` over a directory listing.
- `Convert`:
  - the output directory as a class `OutputDir` whose fields (`present`, `files`) the methods `DecodeToFile`, `ConvertSingleJson` and `ConvertFolder` update in place;
  - each method is proved against a specification function (`DecodeToFileSpec`, `ConvertSingleJsonSpec`, `ConvertFolderSpec`/`RunBatch`).
- `Facts`: lemmas about those specification functions.

A file system fault is an input. Each entry carries `Io(mkdirFails,
writeFails)` and a `Content`: a parsed document, a caught read/parse
failure, or a load that raises an exception `convert_single_json` does not
catch (`LoadRaises`).

## Model

| member | source | states |
|---|---|---|
| Record.FromJsonPayload | decoder.py:18-26 | A record is built iff the document is an object whose `annotated_image` is an object holding `base64`. KeyError is raised iff the document is an object and one of those keys is missing, and it names `annotated_image` before `base64`. Any other shape raises TypeError/AttributeError. The payload field is `annotated_image.base64` as stored. |
| Record.ExtractionFields | decoder.py:21-26 | Each optional field takes its default ("unknown_job", "image", "application/octet-stream") only when its key is absent. A present value, null included, is kept as is. |
| Runtime.B64Decode | decoder.py:54 | A non-string payload is a TypeError. A string with a non-ASCII character is a ValueError. An ASCII string decodes to exactly the library's bytes, or fails with `binascii.Error`. |
| Paths.Name | decoder.py:41 | `Path(filename).name` is the last component after empty and "." components are dropped. It holds no '/', is never ".", and is empty iff the path has no component. |
| Paths.NameIsLastPiece | decoder.py:41 | A non-empty name is a '/'-separated piece of the path that only empty and "." pieces follow. |
| Paths.Suffix | decoder.py:41-42 | `.suffix` is empty, or a '.' followed by dot-free text that ends the name. It is empty exactly when the name ends in '.' or has no '.' after its first character. |
| Paths.Stem | decoder.py:46 | `.stem` followed by `.suffix` gives back the name. The stem is empty only for an empty name, and it has no '/' when the name has none. |
| Naming.GuessExtension | decoder.py:28-42 | The result is the table entry for the lower-cased MIME type on a hit. On a miss it is the filename's suffix, or ".bin" when there is none. It always starts with '.', is at least two characters and has no '/'. It raises iff the MIME value is true but not a string, or on a table miss when the filename is not a string. |
| Runtime.Digits | decoder.py:46-48 | The decimal text of an integer job id used as a fallback stem reads back as that number, and has no leading zero. |
| Naming.BuildOutputName | decoder.py:44-48 | A name is returned iff the filename is a string and the extension is found. The name is the stem followed by the extension. The stem is the filename's stem, or `str(job_id)` when that is empty. With a non-empty stem, the name has no '/'. |
| Facts.ExtensionCaseInsensitive | decoder.py:29-39 | Two MIME strings equal up to case that hit the table give the same extension, whatever the filenames. |
| Facts.ExtensionTotal | decoder.py:28-42 | With a null or string MIME value and a string filename, `guess_extension` never raises. |
| Facts.DefaultRecordName | decoder.py:22-42 | A document holding only `annotated_image.base64` yields extension ".bin" and output name "image.bin". |
| Facts.OutputNameIgnoresPayload | decoder.py:44-48 | The output name does not depend on the base64 payload. |
| Convert.OutputDir.Mkdir | decoder.py:51 | `mkdir(exist_ok=True)` succeeds on an existing directory. Otherwise it succeeds unless the file system refuses, and on success the directory exists with its files unchanged. |
| Convert.OutputDir.WriteBytes | decoder.py:56 | A write into an existing directory that the file system allows stores exactly the given bytes under the name. Any other write changes nothing. |
| Convert.OutputDir.DecodeToFile | decoder.py:50-57 | The new directory state and the result match `DecodeToFileSpec`: mkdir, then naming, then decoding, then the write. |
| Facts.DecodeToFileEffect | decoder.py:50-57 | A returned path means the name was built, the payload decoded, and exactly those bytes are stored under that name. Otherwise no file changes. The directory exists afterwards iff it existed or mkdir succeeded. |
| Facts.DecodeFailureLeavesDirectory | decoder.py:51-54 | An undecodable payload writes no file but leaves the output directory created, because mkdir comes first. |
| Convert.OutputDir.ConvertSingleJson | decoder.py:59-80 | The new directory state and the outcome match `ConvertSingleJsonSpec`: a read/parse failure, a missing key, a decode/IO failure, a success with its path, or an escaping exception. |
| Facts.SingleFileEffect | decoder.py:59-80 | Only a success writes, and it writes the planned bytes under the planned name. A read/parse failure or a missing key leaves the directory as it was. A missing directory never gains files. |
| Facts.PlanSucceeds | decoder.py:73-80 | A file whose record is extracted, named and decoded is written and reported as a success whenever the file system allows it. |
| Facts.MissingKeyNamed | decoder.py:67-71 | A missing `annotated_image` or `base64` is reported with that key's name and changes nothing. |
| Facts.NameRaises | decoder.py:41-46 | Building the output name raises exactly when the filename is not a string or the MIME value is true but not a string. |
| Facts.DecodeToFileRaises | decoder.py:50-54 | `decode_to_file` raises an exception its caller does not catch exactly when mkdir succeeds and then the filename, the MIME value or the payload has the wrong type. |
| Facts.CrashCauses | decoder.py:59-80 | Assuming `print` never raises, the exception escapes exactly in these cases: a load that raises something other than `OSError`/`JSONDecodeError` (not UTF-8, an over-long integer literal, too deep nesting); a non-object document or `annotated_image`; or, after mkdir, a non-string filename, a true non-string MIME value, or a non-string payload. |
| Listing.FilterJson | decoder.py:87 | The matching entries are exactly the listed entries whose names end in ".json", each as often as listed. |
| Listing.SortByName | decoder.py:87 | Sorting keeps the same entries, each as often. |
| Listing.SortByNameSorted | decoder.py:87 | The sorted entries are in ascending code-point order of name. |
| Listing.JsonFiles | decoder.py:87 | `sorted(glob("*.json"))` is ascending by name and holds exactly the "*.json" entries of the listing, each as often as listed. |
| Listing.JsonFilesOrderIndependent | decoder.py:87 | In a directory where a name determines the entry, two listings of the same entries yield the same files in the same order. |
| Facts.ListedOutOfOrder | decoder.py:87 | "1.json" is converted before "2.json" even when the directory lists "2.json" first. |
| Convert.OutputDir.ConvertFolder | decoder.py:83-98 | The final directory state and the outcomes match `ConvertFolderSpec`, which converts the sorted "*.json" files in order and stops after an escaping exception. The loop invariant keeps the work done plus the work left equal to the whole batch. |
| Facts.NoJsonFilesNoEffect | decoder.py:89-91 | With no "*.json" entry, nothing is converted and the output directory is not created. |
| Facts.ListingOrderIrrelevant | decoder.py:83-98 | The effect of a folder conversion does not depend on the order in which the directory is listed. |
| Facts.RunBatchShape | decoder.py:97-98 | At most one outcome per file. No outcome before the last is an escaping exception. The batch stops short of the last file only after one. |
| Facts.RunBatchOutcomes | decoder.py:97-98 | Each file's outcome is what converting it gives in the state left by the files before it. |
| Facts.RunBatchWrites | decoder.py:56 | The final files are the original files with the successful writes applied in batch order. |
| Facts.LastWriteWins | decoder.py:56 | When several writes share a name, the last one decides the bytes stored under it. |
| Facts.Untouched | decoder.py:56 | A name that no write targets keeps its bytes, or stays absent. |
| Facts.WritesDecide | decoder.py:56 | After a sequence of writes, a name holds the bytes of the last write to it, or what it held before when no write targets it. |
| Facts.BatchLastWriteWins | decoder.py:56 | In a batch, when several successful files produce the same output name, the last of them decides the bytes stored under it; a name that no success writes keeps its earlier bytes or stays absent. |
| Facts.RunBatchConsistent | decoder.py:51 | An output directory that does not exist holds no files, before and after a batch. |

## Left out

- JSON parsing and file reading are not modelled. An entry carries its parsed document, or the fact that loading failed with a caught exception (`OSError`, `JSONDecodeError`), or with one that is not caught (`LoadRaises`).
- JSON numbers are integers. Floats, and `str()` of a float in a fallback name, are not modelled.
- Runtime.B64Decode: the decoding itself is a library parameter (`Lib.b64decode`), so no round trip with an encoder is stated. Only the type and ASCII checks that `b64decode` makes before decoding are spelled out.
- `str()` of a JSON array or object (a job id used as a fallback stem) is a library parameter (`Lib.containerStr`). Its text depends on dict insertion order and repr quoting.
- Python's `str.lower()` is modelled on ASCII only. That decides a table hit exactly as Python does. Every key is ASCII. The only non-ASCII character that lowers to a single ASCII one is KELVIN SIGN, which lowers to 'k', and no key contains 'k'.
- Lone surrogates, which a JSON string may hold, are not representable as Dafny characters.
- `expanduser().resolve()` is left out. The output directory is one already resolved directory, and a file is keyed by the name joined to it. The model does not resolve a fallback stem (a job id) containing '/' or "..", which would name a file elsewhere.
- Convert.OutputDir.ConvertFolder and Facts.RunBatchOutcomes assume that the output directory is not the input directory. Every input file's content is fixed before the batch starts. When the two directories are the same, a write to a "*.json" name replaces a file that a later turn of the loop then reads, and the model does not capture this.
- `Paths.Suffix` and `Paths.Stem` follow pathlib as of Python 3.12 and 3.13, where a name ending in '.' has no suffix. Python 3.14 counts a single trailing '.' as a suffix. With that rule, "photo." and a MIME type outside the table would give the extension "." rather than ".bin".
- Windows path rules (drive letters, '\\' separators) are left out. `Paths` follows POSIX pathlib.
- A failed `write_bytes` is modelled as changing nothing. A partially written or truncated file is not modelled.
- Facts.CrashCauses: the model assumes `print` never raises. In the source, a `print` that raises ends the batch. This happens in the `except` handlers at decoder.py:64, :70 and :76, and in the success line at decoder.py:79. Two causes are `BrokenPipeError` once stdout is a closed pipe, and `UnicodeEncodeError` for a file name holding surrogate-escaped bytes on a strict UTF-8 stdout. At decoder.py:79 the crash comes after the file has been written, where the model reports `Ok` and goes on to the next file.
- Console output (`print` lines) is not modelled. Each file's outcome stands in for its log line.
- The command line (`build_arg_parser`, `main`) is not modelled. It only parses two paths and calls `convert_folder`.
- `glob` is matched by name only. A directory named "x.json" is an entry whose reading fails, as `open` on it raises `IsADirectoryError`.
