/** What the conversion promises, stated over the specification
    functions of module Convert. */
module Facts {
  import opened Wrappers
  import opened PyJson
  import opened Runtime
  import opened Paths
  import opened Record
  import opened Naming
  import opened Listing
  import opened Convert

  // ---- Naming ----

  /** A table hit decides the extension whatever the filename, and the
      MIME type is matched without regard to case. */
  lemma ExtensionCaseInsensitive(a: ImageRecord, b: ImageRecord)
    requires a.mime.JStr? && b.mime.JStr? && AsciiLower(a.mime.s) == AsciiLower(b.mime.s)
    requires AsciiLower(a.mime.s) in MimeToExt
    ensures GuessExtension(a) == GuessExtension(b) == Returns(MimeToExt[AsciiLower(a.mime.s)])
  {
    assert a.mime.s != "" && b.mime.s != "";
    assert MimeKey(a.mime) == MimeKey(b.mime) == Returns(AsciiLower(a.mime.s));
  }

  /** With a null or string MIME type and a string filename the extension
      is always found: it never raises. */
  lemma ExtensionTotal(rec: ImageRecord)
    requires rec.mime.JNull? || rec.mime.JStr?
    requires rec.filename.JStr?
    ensures GuessExtension(rec).Returns?
  {
  }

  /** "image" has no '/', no '.' and no suffix. */
  lemma ImageNameParts()
    ensures Name("image") == "image" && Suffix("image") == "" && Stem("image") == "image"
  {
    assert RFind("image", '/') == -1;
    assert Split("image") == ["image"];
    assert Keep(["image"]) == ["image"];
    assert RFind("image", '.') == -1;
  }

  /** The record made from a document with only "base64" gets ".bin" and
      the name "image.bin". */
  lemma DefaultRecordName(lib: Lib, base64: Json)
    ensures
      var rec := FromJsonPayload(JObj(map["annotated_image" := JObj(map["base64" := base64])])).record;
      GuessExtension(rec) == Returns(".bin") && BuildOutputName(lib, rec) == Returns("image.bin")
  {
    var rec := FromJsonPayload(JObj(map["annotated_image" := JObj(map["base64" := base64])])).record;
    assert rec.mime == JStr("application/octet-stream") && rec.filename == JStr("image");
    assert |AsciiLower(rec.mime.s)| == 24;
    assert MimeKey(rec.mime).value !in MimeToExt;
    ImageNameParts();
    assert GuessExtension(rec) == Returns(".bin");
    assert StemText(lib, rec) == "image";
    assert "image" + ".bin" == "image.bin";
  }

  /** The output name depends on the filename, the MIME type and the job
      id only, never on the payload. */
  lemma OutputNameIgnoresPayload(lib: Lib, a: ImageRecord, b: ImageRecord)
    requires a.(base64Data := b.base64Data) == b
    ensures BuildOutputName(lib, a) == BuildOutputName(lib, b)
  {
  }

  // ---- One file ----

  /** The name and bytes a file would write if the file system let it:
      the record was extracted, named and decoded. */
  function Plan(lib: Lib, e: Entry): Option<(string, seq<bv8>)> {
    match e.content
    case Parsed(payload) =>
      (match FromJsonPayload(payload)
       case Extracted(rec) =>
         (match BuildOutputName(lib, rec)
          case Returns(name) =>
            (match B64Decode(lib, rec.base64Data)
             case Bytes(data) => Some((name, data))
             case _ => None)
          case Raises => None)
       case _ => None)
    case _ => None
  }

  /** Only a success writes, and it writes exactly the planned bytes under
      the planned name; a read/parse failure or a missing key leaves the
      directory untouched; every other failure leaves its files as they
      were. A missing directory never gains files. */
  lemma SingleFileEffect(d: Dir, lib: Lib, e: Entry)
    ensures
      var s := ConvertSingleJsonSpec(d, lib, e);
      && (s.outcome.Ok? ==>
            && Plan(lib, e).Some?
            && Plan(lib, e).value.0 == s.outcome.path
            && s.dir == Dir(true, d.files[s.outcome.path := Plan(lib, e).value.1]))
      && (!s.outcome.Ok? ==> s.dir.files == d.files)
      && (s.outcome.ParseFail? || s.outcome.MissingKey? ==> s.dir == d)
      && (Consistent(d) ==> Consistent(s.dir))
  {
    match e.content {
      case Unreadable =>
      case LoadRaises =>
      case Parsed(payload) =>
        match FromJsonPayload(payload) {
          case KeyError(key) =>
          case NotADict =>
          case Extracted(rec) =>
            DecodeToFileEffect(d, lib, rec, e.io);
        }
    }
  }

  /** `decode_to_file` writes only when it returns a path, and then the
      decoded payload under the record's output name. */
  lemma DecodeToFileEffect(d: Dir, lib: Lib, rec: ImageRecord, io: Io)
    ensures
      var w := DecodeToFileSpec(d, lib, rec, io);
      && (w.result.Wrote? ==>
            && BuildOutputName(lib, rec) == Returns(w.result.path)
            && B64Decode(lib, rec.base64Data).Bytes?
            && w.dir == Dir(true, d.files[w.result.path := B64Decode(lib, rec.base64Data).data]))
      && (!w.result.Wrote? ==> w.dir.files == d.files)
      && w.dir.present == (d.present || !io.mkdirFails)
  {
    if d.present || !io.mkdirFails {
      match BuildOutputName(lib, rec) {
        case Raises =>
        case Returns(name) =>
          match B64Decode(lib, rec.base64Data) {
            case NotBytesLike =>
            case Invalid =>
            case Bytes(data) =>
          }
      }
    }
  }

  /** A payload that does not decode leaves no file, yet the directory has
      been created, since mkdir runs before b64decode. */
  lemma DecodeFailureLeavesDirectory(d: Dir, lib: Lib, e: Entry)
    requires e.content.Parsed? && FromJsonPayload(e.content.payload).Extracted?
    requires BuildOutputName(lib, FromJsonPayload(e.content.payload).record).Returns?
    requires B64Decode(lib, FromJsonPayload(e.content.payload).record.base64Data).Invalid?
    requires d.present || !e.io.mkdirFails
    ensures ConvertSingleJsonSpec(d, lib, e) == Step(d.(present := true), DecodeFail)
  {
  }

  /** The missing key is named, and nothing else happens. */
  lemma MissingKeyNamed(d: Dir, lib: Lib, e: Entry)
    requires e.content.Parsed? && e.content.payload.JObj?
    requires "annotated_image" !in e.content.payload.fields ||
             (e.content.payload.fields["annotated_image"].JObj? &&
              "base64" !in e.content.payload.fields["annotated_image"].fields)
    ensures ConvertSingleJsonSpec(d, lib, e) ==
      Step(d, MissingKey(if "annotated_image" !in e.content.payload.fields then "annotated_image" else "base64"))
  {
  }

  /** Building the output name raises exactly for a non-str filename or a
      true MIME value that is not a str. */
  lemma NameRaises(lib: Lib, rec: ImageRecord)
    ensures BuildOutputName(lib, rec).Raises? <==>
      !rec.filename.JStr? || (Truthy(rec.mime) && !rec.mime.JStr?)
  {
  }

  /** `decode_to_file` raises an exception its caller does not catch
      exactly when mkdir succeeds and then the name or the payload has the
      wrong type. */
  lemma DecodeToFileRaises(d: Dir, lib: Lib, rec: ImageRecord, io: Io)
    ensures DecodeToFileSpec(d, lib, rec, io).result.Raised? <==>
      && (d.present || !io.mkdirFails)
      && (!rec.filename.JStr? || (Truthy(rec.mime) && !rec.mime.JStr?) || !rec.base64Data.JStr?)
  {
    NameRaises(lib, rec);
  }

  /** Not every failure is isolated. Assuming `print` never raises,
      exactly these escape `convert_single_json`: a load that raises an
      exception other than OSError or JSONDecodeError; a document or an
      "annotated_image" that is not an object; and, once the directory is
      made, a filename that is not a string, a true MIME value that is not
      a string, or a payload that is not a string. */
  lemma CrashCauses(d: Dir, lib: Lib, e: Entry)
    ensures ConvertSingleJsonSpec(d, lib, e).outcome.Crash? <==>
      || e.content.LoadRaises?
      || (e.content.Parsed? && FromJsonPayload(e.content.payload).NotADict?)
      || (&& e.content.Parsed?
          && FromJsonPayload(e.content.payload).Extracted?
          && (d.present || !e.io.mkdirFails)
          && var rec := FromJsonPayload(e.content.payload).record;
             || !rec.filename.JStr?
             || (Truthy(rec.mime) && !rec.mime.JStr?)
             || !rec.base64Data.JStr?)
  {
    if e.content.Parsed? && FromJsonPayload(e.content.payload).Extracted? {
      DecodeToFileRaises(d, lib, FromJsonPayload(e.content.payload).record, e.io);
    }
  }

  // ---- The batch ----

  /** The writes of the files that succeeded, in order. */
  function Committed(lib: Lib, files: seq<Entry>, outcomes: seq<Outcome>): seq<(string, seq<bv8>)>
    decreases |outcomes|
  {
    if outcomes == [] || files == [] then []
    else
      (if outcomes[0].Ok? && Plan(lib, files[0]).Some? then [Plan(lib, files[0]).value] else [])
      + Committed(lib, files[1..], outcomes[1..])
  }

  /** Writes applied left to right: a later write to a name replaces an
      earlier one. */
  function ApplyWrites(m: map<string, seq<bv8>>, writes: seq<(string, seq<bv8>)>): map<string, seq<bv8>>
    decreases |writes|
  {
    if writes == [] then m else ApplyWrites(m[writes[0].0 := writes[0].1], writes[1..])
  }

  /** The last write to a name decides its bytes. */
  lemma {:induction false} LastWriteWins(m: map<string, seq<bv8>>, writes: seq<(string, seq<bv8>)>, j: nat)
    requires j < |writes|
    requires forall i | j < i < |writes| :: writes[i].0 != writes[j].0
    ensures writes[j].0 in ApplyWrites(m, writes)
    ensures ApplyWrites(m, writes)[writes[j].0] == writes[j].1
    decreases |writes|
  {
    if j == 0 {
      Untouched(m[writes[0].0 := writes[0].1], writes[1..], writes[0].0);
    } else {
      LastWriteWins(m[writes[0].0 := writes[0].1], writes[1..], j - 1);
    }
  }

  /** A name nobody writes keeps what it had, or stays absent. */
  lemma {:induction false} Untouched(m: map<string, seq<bv8>>, writes: seq<(string, seq<bv8>)>, name: string)
    requires forall i | 0 <= i < |writes| :: writes[i].0 != name
    ensures name in ApplyWrites(m, writes) <==> name in m
    ensures name in m ==> ApplyWrites(m, writes)[name] == m[name]
    decreases |writes|
  {
    if writes != [] {
      Untouched(m[writes[0].0 := writes[0].1], writes[1..], name);
    }
  }

  /** The batch runs until an escaping exception: no outcome before the
      last is a crash, and it stops short of the end only on a crash. */
  lemma {:induction false} RunBatchShape(d: Dir, lib: Lib, files: seq<Entry>)
    ensures
      var os := RunBatch(d, lib, files).outcomes;
      && |os| <= |files|
      && (forall i | 0 <= i < |os| - 1 :: !os[i].Crash?)
      && (|os| < |files| ==> |os| > 0 && os[|os| - 1].Crash?)
    decreases |files|
  {
    if files != [] {
      var step := ConvertSingleJsonSpec(d, lib, files[0]);
      if !step.outcome.Crash? {
        var rest := RunBatch(step.dir, lib, files[1..]);
        RunBatchShape(step.dir, lib, files[1..]);
        var os := [step.outcome] + rest.outcomes;
        assert RunBatch(d, lib, files).outcomes == os;
        assert forall i | 1 <= i < |os| :: os[i] == rest.outcomes[i - 1];
      }
    }
  }

  /** Each outcome is the one its file gets in the state the files before
      it left behind. */
  lemma {:induction false} RunBatchOutcomes(d: Dir, lib: Lib, files: seq<Entry>, i: nat)
    requires i < |RunBatch(d, lib, files).outcomes|
    ensures i < |files|
    ensures RunBatch(d, lib, files).outcomes[i] ==
      ConvertSingleJsonSpec(RunBatch(d, lib, files[..i]).dir, lib, files[i]).outcome
    decreases i
  {
    RunBatchShape(d, lib, files);
    var step := ConvertSingleJsonSpec(d, lib, files[0]);
    if i == 0 {
      assert files[..0] == [];
    } else {
      var rest := RunBatch(step.dir, lib, files[1..]);
      assert !step.outcome.Crash?;
      assert RunBatch(d, lib, files).outcomes == [step.outcome] + rest.outcomes;
      RunBatchOutcomes(step.dir, lib, files[1..], i - 1);
      var prefix := files[..i];
      assert prefix[0] == files[0] && prefix[1..] == files[1..][..i - 1];
      assert RunBatch(d, lib, prefix).dir == RunBatch(step.dir, lib, files[1..][..i - 1]).dir;
      assert files[1..][i - 1] == files[i];
    }
  }

  /** The final files are the successful writes folded left to right over
      the files the batch started with. */
  lemma {:induction false} RunBatchWrites(d: Dir, lib: Lib, files: seq<Entry>)
    ensures
      var b := RunBatch(d, lib, files);
      b.dir.files == ApplyWrites(d.files, Committed(lib, files, b.outcomes))
    decreases |files|
  {
    if files != [] {
      var step := ConvertSingleJsonSpec(d, lib, files[0]);
      SingleFileEffect(d, lib, files[0]);
      if !step.outcome.Crash? {
        var rest := RunBatch(step.dir, lib, files[1..]);
        RunBatchWrites(step.dir, lib, files[1..]);
        var os := [step.outcome] + rest.outcomes;
        assert os[0] == step.outcome && os[1..] == rest.outcomes;
        var tail := Committed(lib, files[1..], rest.outcomes);
        if step.outcome.Ok? {
          var w := Plan(lib, files[0]).value;
          assert Committed(lib, files, os) == [w] + tail;
          assert ([w] + tail)[1..] == tail;
        } else {
          assert Committed(lib, files, os) == tail;
        }
      }
    }
  }

  /** What a sequence of writes leaves under one name: the last write to
      it, or what was there before when none writes it. */
  predicate Decides(m0: map<string, seq<bv8>>, w: seq<(string, seq<bv8>)>, m: map<string, seq<bv8>>, name: string) {
    && (forall j | 0 <= j < |w| && w[j].0 == name && (forall i | j < i < |w| :: w[i].0 != name) ::
          name in m && m[name] == w[j].1)
    && ((forall i | 0 <= i < |w| :: w[i].0 != name) ==>
          (name in m <==> name in m0) && (name in m0 ==> m[name] == m0[name]))
  }

  lemma WritesDecide(m0: map<string, seq<bv8>>, w: seq<(string, seq<bv8>)>, name: string)
    ensures Decides(m0, w, ApplyWrites(m0, w), name)
  {
    forall j | 0 <= j < |w| && w[j].0 == name && (forall i | j < i < |w| :: w[i].0 != name)
      ensures name in ApplyWrites(m0, w) && ApplyWrites(m0, w)[name] == w[j].1
    {
      LastWriteWins(m0, w, j);
    }
    if forall i | 0 <= i < |w| :: w[i].0 != name {
      Untouched(m0, w, name);
    }
  }

  /** Name collisions in a batch: of the successful writes, the last one
      to a name decides what the output directory holds under it, and a
      name no success writes keeps what it had. */
  lemma BatchLastWriteWins(d: Dir, lib: Lib, files: seq<Entry>, name: string)
    ensures
      var b := RunBatch(d, lib, files);
      Decides(d.files, Committed(lib, files, b.outcomes), b.dir.files, name)
  {
    RunBatchWrites(d, lib, files);
    var b := RunBatch(d, lib, files);
    WritesDecide(d.files, Committed(lib, files, b.outcomes), name);
  }

  /** A missing directory stays empty through a batch. */
  lemma {:induction false} RunBatchConsistent(d: Dir, lib: Lib, files: seq<Entry>)
    requires Consistent(d)
    ensures Consistent(RunBatch(d, lib, files).dir)
    decreases |files|
  {
    if files != [] {
      var step := ConvertSingleJsonSpec(d, lib, files[0]);
      SingleFileEffect(d, lib, files[0]);
      if !step.outcome.Crash? {
        RunBatchConsistent(step.dir, lib, files[1..]);
      }
    }
  }

  /** With no "*.json" entry nothing is converted and the output directory
      is not created. */
  lemma NoJsonFilesNoEffect(d: Dir, lib: Lib, listing: seq<Entry>)
    requires forall e | e in listing :: !IsJsonName(e.name)
    ensures ConvertFolderSpec(d, lib, listing) == Batch(d, [])
  {
  }

  /** The effect of a folder does not depend on the order in which the
      file system lists it. */
  lemma ListingOrderIrrelevant(d: Dir, lib: Lib, l1: seq<Entry>, l2: seq<Entry>)
    requires multiset(l1) == multiset(l2) && NamesUnique(multiset(l1))
    ensures ConvertFolderSpec(d, lib, l1) == ConvertFolderSpec(d, lib, l2)
  {
    JsonFilesOrderIndependent(l1, l2);
  }

  /** Conversely, a file whose record is extracted, named and decoded is
      written when the file system lets it. */
  lemma PlanSucceeds(d: Dir, lib: Lib, e: Entry)
    requires Plan(lib, e).Some? && !e.io.writeFails && (d.present || !e.io.mkdirFails)
    ensures ConvertSingleJsonSpec(d, lib, e) ==
      Step(Dir(true, d.files[Plan(lib, e).value.0 := Plan(lib, e).value.1]), Ok(Plan(lib, e).value.0))
  {
    var rec := FromJsonPayload(e.content.payload).record;
    assert BuildOutputName(lib, rec).Returns? && B64Decode(lib, rec.base64Data).Bytes?;
  }

  /** "2.json", listed first, is converted after "1.json". */
  lemma ListedOutOfOrder(e1: Entry, e2: Entry)
    requires e1.name == "1.json" && e2.name == "2.json"
    ensures JsonFiles([e2, e1]) == [e1, e2]
  {
    assert IsJsonName(e1.name) && IsJsonName(e2.name);
    assert FilterJson([e2, e1]) == [e2, e1];
    assert !Le(e2.name, e1.name);
  }
}
