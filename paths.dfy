/** The few pieces of pathlib that decoder.py relies on, for POSIX paths:
    `PurePath.name`, `.suffix` and `.stem`. */
module Paths {

  /** `s.rfind(c)`: the index of the last occurrence of `c`, or -1. */
  function RFind(s: string, c: char): (i: int)
    ensures -1 <= i < |s|
    ensures i >= 0 ==> s[i] == c
    ensures forall j | i < j < |s| :: s[j] != c
  {
    if |s| == 0 then -1
    else if s[|s| - 1] == c then |s| - 1
    else RFind(s[..|s| - 1], c)
  }

  /** Pieces joined back with '/' between them. */
  function Join(pieces: seq<string>): string
    requires |pieces| >= 1
  {
    if |pieces| == 1 then pieces[0]
    else Join(pieces[..|pieces| - 1]) + "/" + pieces[|pieces| - 1]
  }

  /** `s.split("/")`: the text between separators, empty pieces included. */
  function Split(s: string): (pieces: seq<string>)
    ensures |pieces| >= 1
    ensures forall i | 0 <= i < |pieces| :: '/' !in pieces[i]
    ensures Join(pieces) == s
  {
    var k := RFind(s, '/');
    if k < 0 then [s]
    else
      var init, last := Split(s[..k]), s[k + 1..];
      assert (init + [last])[..|init|] == init;
      assert s == s[..k] + "/" + last;
      init + [last]
  }

  /** The pieces pathlib keeps when it parses a path: empty pieces (from a
      leading, repeated or trailing '/') and "." are dropped. */
  function Keep(pieces: seq<string>): (kept: seq<string>)
    requires forall i | 0 <= i < |pieces| :: '/' !in pieces[i]
    ensures forall i | 0 <= i < |kept| :: kept[i] != "" && kept[i] != "." && '/' !in kept[i]
    ensures forall x :: x in kept <==> x in pieces && x != "" && x != "."
  {
    if pieces == [] then []
    else
      var rest := Keep(pieces[1..]);
      if pieces[0] == "" || pieces[0] == "." then rest else [pieces[0]] + rest
  }

  /** The last piece kept is a piece that only dropped pieces follow. */
  lemma {:induction false} KeepLast(pieces: seq<string>) returns (k: nat)
    requires forall i | 0 <= i < |pieces| :: '/' !in pieces[i]
    requires Keep(pieces) != []
    ensures k < |pieces| && pieces[k] == Keep(pieces)[|Keep(pieces)| - 1]
    ensures forall j | k < j < |pieces| :: pieces[j] == "" || pieces[j] == "."
  {
    var tail := pieces[1..];
    var rest := Keep(tail);
    if rest != [] {
      var k' := KeepLast(tail);
      k := k' + 1;
      assert forall j | k < j < |pieces| :: pieces[j] == tail[j - 1];
    } else {
      k := 0;
      assert forall j | 0 < j < |pieces| :: pieces[j] in tail;
    }
  }

  /** The components of a POSIX path, as `PurePath.parts` without the root. */
  function Parts(p: string): seq<string> {
    Keep(Split(p))
  }

  /** `PurePath(p).name`: the last component, or "" when there is none. */
  function Name(p: string): (n: string)
    ensures '/' !in n && n != "."
    ensures n == "" <==> Parts(p) == []
    ensures n != "" ==> n == Parts(p)[|Parts(p)| - 1]
  {
    var parts := Parts(p);
    if parts == [] then "" else parts[|parts| - 1]
  }

  /** A non-empty name is a '/'-separated piece of the path that only
      empty and "." pieces follow. */
  lemma NameIsLastPiece(p: string)
    requires Name(p) != ""
    ensures exists k | 0 <= k < |Split(p)| ::
      Split(p)[k] == Name(p) && forall j | k < j < |Split(p)| :: Split(p)[j] == "" || Split(p)[j] == "."
  {
    var k := KeepLast(Split(p));
    assert Split(p)[k] == Name(p);
  }

  /** `PurePath.suffix` of a path whose name is `name`: the text from the
      last '.', when that dot is neither the first nor the last character
      of the name; otherwise "". */
  function Suffix(name: string): (x: string)
    ensures x == "" || (|x| >= 2 && x[0] == '.' && '.' !in x[1..])
    ensures |x| <= |name| && x == name[|name| - |x|..]
    ensures '/' !in name ==> '/' !in x
    ensures x == "" <==> (|name| > 0 && name[|name| - 1] == '.') || (forall j | 0 < j < |name| :: name[j] != '.')
  {
    var i := RFind(name, '.');
    if 0 < i < |name| - 1 then
      assert forall j | 0 <= j < |name| - i :: name[i..][j] == name[i + j];
      name[i..]
    else ""
  }

  /** `PurePath.stem` of a path whose name is `name`: the name without its
      suffix. */
  function Stem(name: string): (s: string)
    ensures s + Suffix(name) == name
    ensures s == "" <==> name == ""
    ensures '/' !in name ==> '/' !in s
  {
    var i := RFind(name, '.');
    if 0 < i < |name| - 1 then
      assert forall j | 0 <= j < i :: name[..i][j] == name[j];
      name[..i]
    else name
  }
}
