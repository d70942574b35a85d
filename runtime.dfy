/** The parts of the Python runtime that decoder.py calls and that this
    model takes as given, plus the ones it spells out. */
module Runtime {
  import opened Wrappers
  import opened PyJson

  /** Library behaviour the model does not define.
      `b64decode` is `base64.b64decode` on an ASCII string: the decoded
      bytes, or None where it raises `binascii.Error`.
      `containerStr` is `str()` of a JSON array or object, whose text
      depends on dict insertion order and repr quoting. */
  datatype Lib = Lib(
    b64decode: string -> Option<seq<bv8>>,
    containerStr: Json -> string)

  /** What `base64.b64decode(v)` does with a loaded JSON value. */
  datatype Decoded =
    | Bytes(data: seq<bv8>)  // the decoded bytes
    | Invalid                // ValueError or binascii.Error: caught by the caller
    | NotBytesLike           // TypeError: not a str, escapes the caller

  predicate IsAscii(s: string) {
    forall i | 0 <= i < |s| :: s[i] as int < 128
  }

  /** `base64.b64decode(v)`: a str holding a non-ASCII character is refused
      with a ValueError before any decoding; any other type is a TypeError. */
  function B64Decode(lib: Lib, v: Json): (r: Decoded)
    ensures r.NotBytesLike? <==> !v.JStr?
    ensures r.Bytes? ==> IsAscii(v.s) && lib.b64decode(v.s) == Some(r.data)
    ensures r.Invalid? ==> !IsAscii(v.s) || lib.b64decode(v.s) == None
  {
    match v
    case JStr(s) =>
      if !IsAscii(s) then Invalid
      else (match lib.b64decode(s)
            case Some(data) => Bytes(data)
            case None => Invalid)
    case _ => NotBytesLike
  }

  predicate AllDigits(s: string) {
    forall i | 0 <= i < |s| :: '0' <= s[i] <= '9'
  }

  /** The number a string of decimal digits denotes. */
  function Value(s: string): nat
    requires AllDigits(s)
  {
    if s == [] then 0 else 10 * Value(s[..|s| - 1]) + (s[|s| - 1] as int - '0' as int)
  }

  lemma {:induction false} ValueAppend(a: string, b: string)
    requires AllDigits(a) && AllDigits(b) && |b| == 1
    ensures AllDigits(a + b) && Value(a + b) == 10 * Value(a) + Value(b)
  {
    assert (a + b)[..|a + b| - 1] == a;
    assert b[..0] == [];
  }

  /** Decimal digits of a natural number: they read back as the number,
      and only zero itself starts with '0'. */
  function Digits(n: nat): (r: string)
    ensures |r| >= 1 && AllDigits(r)
    ensures Value(r) == n
    ensures r[0] == '0' ==> n == 0
  {
    if n < 10 then
      var r := [('0' as int + n) as char];
      assert r[..0] == [];
      r
    else
      var hi, lo := Digits(n / 10), Digits(n % 10);
      ValueAppend(hi, lo);
      hi + lo
  }

  /** `str(v)`, as an f-string formats a loaded JSON value. */
  function Str(lib: Lib, v: Json): string {
    match v
    case JStr(s) => s
    case JNull => "None"
    case JBool(b) => if b then "True" else "False"
    case JNum(n) => if n < 0 then "-" + Digits(-n) else Digits(n)
    case _ => lib.containerStr(v)
  }
}
