/** Extension inference and output-name construction
    (decoder.py, `guess_extension` and `build_output_path`). */
module Naming {
  import opened Wrappers
  import opened PyJson
  import opened Runtime
  import opened Paths
  import opened Record

  /** The fixed MIME table of `guess_extension`. */
  const MimeToExt: map<string, string> := map[
    "image/jpeg" := ".jpg",
    "image/jpg" := ".jpg",
    "image/png" := ".png",
    "image/webp" := ".webp"]

  function LowerChar(c: char): char {
    if 'A' <= c <= 'Z' then (c as int + 32) as char else c
  }

  /** ASCII lower-casing. The table's keys are ASCII, so this decides a
      table hit exactly as Python's `str.lower` does. */
  function AsciiLower(s: string): (r: string)
    ensures |r| == |s|
  {
    seq(|s|, i requires 0 <= i < |s| => LowerChar(s[i]))
  }

  /** `(self.mime or "").lower()`: a false value stands for "", a true
      value that is not a str has no `.lower` and raises AttributeError. */
  function MimeKey(mime: Json): Py<string> {
    if !Truthy(mime) then Returns("")
    else if mime.JStr? then Returns(AsciiLower(mime.s))
    else Raises
  }

  /** `guess_extension`: the table's extension for the lower-cased MIME
      type, else the filename's suffix, else ".bin". `Path(filename)` is
      only built on a table miss, and raises TypeError for a non-str. */
  function GuessExtension(rec: ImageRecord): (r: Py<string>)
    ensures r.Returns? ==> |r.value| >= 2 && r.value[0] == '.' && '/' !in r.value
    ensures r.Raises? <==>
      MimeKey(rec.mime).Raises? ||
      (MimeKey(rec.mime).value !in MimeToExt && !rec.filename.JStr?)
    ensures MimeKey(rec.mime).Returns? && MimeKey(rec.mime).value in MimeToExt ==>
      r == Returns(MimeToExt[MimeKey(rec.mime).value])
    ensures MimeKey(rec.mime).Returns? && MimeKey(rec.mime).value !in MimeToExt && rec.filename.JStr? ==>
      var sfx := Suffix(Name(rec.filename.s));
      r == Returns(if sfx != "" then sfx else ".bin")
  {
    match MimeKey(rec.mime)
    case Raises => Raises
    case Returns(key) =>
      if key in MimeToExt then Returns(MimeToExt[key])
      else if !rec.filename.JStr? then Raises
      else
        var sfx := Suffix(Name(rec.filename.s));
        Returns(if sfx != "" then sfx else ".bin")
  }

  /** The text before the extension: the filename's stem, or `str(job_id)`
      when that stem is empty (`Path(self.filename).stem or self.job_id`). */
  function StemText(lib: Lib, rec: ImageRecord): string
    requires rec.filename.JStr?
  {
    var stem := Stem(Name(rec.filename.s));
    if stem != "" then stem else Str(lib, rec.jobId)
  }

  /** The file name `build_output_path` puts under the output directory:
      `f"{stem}{ext}"`. `Path(self.filename)` raises TypeError for a
      non-str filename before the extension is guessed. */
  function BuildOutputName(lib: Lib, rec: ImageRecord): (r: Py<string>)
    ensures r.Returns? <==> rec.filename.JStr? && GuessExtension(rec).Returns?
    ensures r.Returns? ==>
      var ext, stem := GuessExtension(rec).value, Stem(Name(rec.filename.s));
      && |ext| <= |r.value|
      && r.value[|r.value| - |ext|..] == ext
      && (stem != "" ==> r.value[..|r.value| - |ext|] == stem && '/' !in r.value)
      && (stem == "" ==> r.value[..|r.value| - |ext|] == Str(lib, rec.jobId))
  {
    if !rec.filename.JStr? then Raises
    else
      match GuessExtension(rec)
      case Raises => Raises
      case Returns(ext) =>
        var text := StemText(lib, rec);
        assert (text + ext)[..|text|] == text;
        assert '/' !in text && '/' !in ext ==> '/' !in text + ext;
        Returns(text + ext)
  }
}
