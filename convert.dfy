/** Writing one record, converting one JSON file, and the batch over a
    folder (decoder.py, `decode_to_file`, `convert_single_json` and
    `convert_folder`). The output directory is an already resolved path;
    its state is whether it exists and the bytes of the files in it, keyed
    by the name `build_output_path` joins to it. */
module Convert {
  import opened Wrappers
  import opened Runtime
  import opened Record
  import opened Naming
  import opened Listing

  /** The output directory's state. */
  datatype Dir = Dir(present: bool, files: map<string, seq<bv8>>)

  /** A missing directory holds no files. */
  predicate Consistent(d: Dir) {
    d.present || d.files == map[]
  }

  /** What `decode_to_file` does: returns the path it wrote, raises an
      exception that `convert_single_json` catches (OSError from mkdir or
      write_bytes, ValueError or binascii.Error from b64decode), or raises
      one it does not catch (TypeError or AttributeError). */
  datatype WriteResult = Wrote(path: string) | Failed | Raised

  datatype Write = Write(dir: Dir, result: WriteResult)

  /** The outcome of one input file; the console line it prints is not
      modelled. `Crash` is an exception leaving `convert_single_json`. */
  datatype Outcome =
    | Ok(path: string)
    | ParseFail
    | MissingKey(key: string)
    | DecodeFail
    | Crash

  datatype Step = Step(dir: Dir, outcome: Outcome)

  datatype Batch = Batch(dir: Dir, outcomes: seq<Outcome>)

  /** `decode_to_file` on a state: mkdir first, then the name, then the
      decoding, then the write. */
  function DecodeToFileSpec(d: Dir, lib: Lib, rec: ImageRecord, io: Io): Write {
    if !d.present && io.mkdirFails then Write(d, Failed)
    else
      var made := d.(present := true);
      match BuildOutputName(lib, rec)
      case Raises => Write(made, Raised)
      case Returns(name) =>
        match B64Decode(lib, rec.base64Data)
        case NotBytesLike => Write(made, Raised)
        case Invalid => Write(made, Failed)
        case Bytes(data) =>
          if io.writeFails then Write(made, Failed)
          else Write(made.(files := made.files[name := data]), Wrote(name))
  }

  /** `convert_single_json` on a state. */
  function ConvertSingleJsonSpec(d: Dir, lib: Lib, e: Entry): Step {
    match e.content
    case Unreadable => Step(d, ParseFail)
    case LoadRaises => Step(d, Crash)
    case Parsed(payload) =>
      match FromJsonPayload(payload)
      case KeyError(key) => Step(d, MissingKey(key))
      case NotADict => Step(d, Crash)
      case Extracted(rec) =>
        var w := DecodeToFileSpec(d, lib, rec, e.io);
        Step(w.dir, match w.result
                    case Wrote(path) => Ok(path)
                    case Failed => DecodeFail
                    case Raised => Crash)
  }

  /** The loop of `convert_folder` over `files`, in order; an escaping
      exception ends the run at the file that raised it. */
  function RunBatch(d: Dir, lib: Lib, files: seq<Entry>): Batch
    decreases |files|
  {
    if files == [] then Batch(d, [])
    else
      var step := ConvertSingleJsonSpec(d, lib, files[0]);
      if step.outcome.Crash? then Batch(step.dir, [Crash])
      else
        var rest := RunBatch(step.dir, lib, files[1..]);
        Batch(rest.dir, [step.outcome] + rest.outcomes)
  }

  /** A batch that continues after the outcomes `done`. */
  function Resume(done: seq<Outcome>, rest: Batch): Batch {
    Batch(rest.dir, done + rest.outcomes)
  }

  lemma ResumeAfter(done: seq<Outcome>, o: Outcome, rest: Batch)
    ensures Resume(done, Resume([o], rest)) == Resume(done + [o], rest)
  {
    assert done + ([o] + rest.outcomes) == (done + [o]) + rest.outcomes;
  }

  /** One step of the batch, given what converting its first file gives. */
  lemma RunBatchStep(d: Dir, lib: Lib, files: seq<Entry>, s: Step)
    requires files != [] && ConvertSingleJsonSpec(d, lib, files[0]) == s
    ensures RunBatch(d, lib, files) ==
      if s.outcome.Crash? then Batch(s.dir, [Crash]) else Resume([s.outcome], RunBatch(s.dir, lib, files[1..]))
  {
  }

  /** `convert_folder` on a state, given the input directory's entries in
      the order the file system lists them. */
  function ConvertFolderSpec(d: Dir, lib: Lib, listing: seq<Entry>): Batch {
    var jsonFiles := JsonFiles(listing);
    if jsonFiles == [] then Batch(d, []) else RunBatch(d, lib, jsonFiles)
  }

  /** The output directory, which the conversion updates in place. */
  class OutputDir {
    var present: bool
    var files: map<string, seq<bv8>>

    function State(): Dir
      reads this
    {
      Dir(present, files)
    }

    constructor (d: Dir)
      requires Consistent(d)
      ensures State() == d
    {
      present, files := d.present, d.files;
    }

    /** `output_dir.mkdir(parents=True, exist_ok=True)`. */
    method Mkdir(fails: bool) returns (ok: bool)
      modifies this
      ensures ok == (old(present) || !fails)
      ensures State() == if ok then old(State()).(present := true) else old(State())
    {
      ok := present || !fails;
      if ok {
        present := true;
      }
    }

    /** `path.write_bytes(data)` for `name` in this directory. */
    method WriteBytes(name: string, data: seq<bv8>, fails: bool) returns (ok: bool)
      modifies this
      ensures ok == (present && !fails)
      ensures State() == if ok then old(State()).(files := old(files)[name := data]) else old(State())
    {
      ok := present && !fails;
      if ok {
        files := files[name := data];
      }
    }

    method DecodeToFile(lib: Lib, rec: ImageRecord, io: Io) returns (r: WriteResult)
      modifies this
      ensures Write(State(), r) == DecodeToFileSpec(old(State()), lib, rec, io)
    {
      var made := Mkdir(io.mkdirFails);
      if !made {
        return Failed;
      }
      var name := BuildOutputName(lib, rec);
      if name.Raises? {
        return Raised;
      }
      var decoded := B64Decode(lib, rec.base64Data);
      match decoded {
        case NotBytesLike =>
          r := Raised;
        case Invalid =>
          r := Failed;
        case Bytes(data) =>
          var written := WriteBytes(name.value, data, io.writeFails);
          r := if written then Wrote(name.value) else Failed;
      }
    }

    method ConvertSingleJson(lib: Lib, e: Entry) returns (o: Outcome)
      modifies this
      ensures Step(State(), o) == ConvertSingleJsonSpec(old(State()), lib, e)
    {
      match e.content {
        case Unreadable =>
          return ParseFail;
        case LoadRaises =>
          return Crash;
        case Parsed(payload) =>
          var extraction := FromJsonPayload(payload);
          match extraction {
            case KeyError(key) =>
              return MissingKey(key);
            case NotADict =>
              return Crash;
            case Extracted(rec) =>
              var w := DecodeToFile(lib, rec, e.io);
              o := match w
                   case Wrote(path) => Ok(path)
                   case Failed => DecodeFail
                   case Raised => Crash;
          }
      }
    }

    /** Converts every "*.json" entry in ascending order of name, and
      returns the outcome of each file it reached. */
    method ConvertFolder(lib: Lib, listing: seq<Entry>) returns (outcomes: seq<Outcome>)
      modifies this
      ensures Batch(State(), outcomes) == ConvertFolderSpec(old(State()), lib, listing)
    {
      var jsonFiles := JsonFiles(listing);
      outcomes := [];
      if jsonFiles == [] {
        return;
      }
      ghost var whole := RunBatch(State(), lib, jsonFiles);
      var i := 0;
      while i < |jsonFiles|
        invariant 0 <= i <= |jsonFiles|
        invariant whole == Resume(outcomes, RunBatch(State(), lib, jsonFiles[i..]))
      {
        ghost var before, done := State(), outcomes;
        var o := ConvertSingleJson(lib, jsonFiles[i]);
        RunBatchStep(before, lib, jsonFiles[i..], Step(State(), o));
        outcomes := outcomes + [o];
        if o.Crash? {
          return;
        }
        assert jsonFiles[i..][1..] == jsonFiles[i + 1..];
        ResumeAfter(done, o, RunBatch(State(), lib, jsonFiles[i + 1..]));
        i := i + 1;
      }
      assert jsonFiles[i..] == [];
    }
  }
}
