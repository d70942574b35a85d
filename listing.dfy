/** The input directory as `convert_folder` sees it, and the ordered list
    of files it converts: `sorted(input_dir.glob("*.json"))`. */
module Listing {
  import opened PyJson

  /** How the file system answers the two writes decode_to_file makes for
      one input file: `mkdir` raising OSError (only possible while the
      directory is missing), and `write_bytes` raising OSError or
      ValueError. */
  datatype Io = Io(mkdirFails: bool, writeFails: bool)

  /** What opening the file as UTF-8 text and `json.load` give.
      `LoadRaises` is any exception that the `except` clause around the
      load does not name, so that it escapes `convert_single_json`:
      UnicodeDecodeError for bytes that are not UTF-8, ValueError for an
      integer literal over the interpreter's digit limit (4300 digits by
      default), and RecursionError for a document nested too deeply. */
  datatype Content =
    | Parsed(payload: Json)
    | Unreadable  // OSError or json.JSONDecodeError: caught
    | LoadRaises  // any other exception from open, read or json.load: not caught

  /** One entry of the input directory. */
  datatype Entry = Entry(name: string, content: Content, io: Io)

  /** The glob pattern "*.json": any name that ends in ".json". */
  predicate IsJsonName(name: string) {
    |name| >= 5 && name[|name| - 5..] == ".json"
  }

  /** Python's `a <= b` on str: code-point lexicographic order. Paths that
      share a parent compare as their names do. */
  predicate Le(a: string, b: string) {
    a == [] || (b != [] && (a[0] < b[0] || (a[0] == b[0] && Le(a[1..], b[1..]))))
  }

  lemma {:induction false} LeTotal(a: string, b: string)
    ensures Le(a, b) || Le(b, a)
  {
    if a != [] && b != [] && a[0] == b[0] {
      LeTotal(a[1..], b[1..]);
    }
  }

  lemma {:induction false} LeReflexive(a: string)
    ensures Le(a, a)
  {
    if a != [] {
      LeReflexive(a[1..]);
    }
  }

  lemma {:induction false} LeTrans(a: string, b: string, c: string)
    requires Le(a, b) && Le(b, c)
    ensures Le(a, c)
  {
    if a != [] && b != [] && c != [] && a[0] == b[0] == c[0] {
      LeTrans(a[1..], b[1..], c[1..]);
    }
  }

  lemma {:induction false} LeAntisymmetric(a: string, b: string)
    requires Le(a, b) && Le(b, a)
    ensures a == b
  {
    if a != [] && b != [] {
      LeAntisymmetric(a[1..], b[1..]);
      assert a == [a[0]] + a[1..] && b == [b[0]] + b[1..];
    }
  }

  predicate SortedByName(s: seq<Entry>) {
    forall i, j | 0 <= i < j < |s| :: Le(s[i].name, s[j].name)
  }

  /** The entries whose names match "*.json", in listing order. */
  function FilterJson(listing: seq<Entry>): (r: seq<Entry>)
    ensures forall e :: e in r <==> e in listing && IsJsonName(e.name)
    ensures forall e :: multiset(r)[e] == if IsJsonName(e.name) then multiset(listing)[e] else 0
  {
    if listing == [] then []
    else
      var rest := FilterJson(listing[1..]);
      assert listing == [listing[0]] + listing[1..];
      if IsJsonName(listing[0].name) then [listing[0]] + rest else rest
  }

  function Insert(e: Entry, s: seq<Entry>): (r: seq<Entry>)
    ensures multiset(r) == multiset(s) + multiset{e}
  {
    if s == [] || Le(e.name, s[0].name) then [e] + s
    else
      assert s == [s[0]] + s[1..];
      [s[0]] + Insert(e, s[1..])
  }

  lemma {:induction false} InsertSorted(e: Entry, s: seq<Entry>)
    requires SortedByName(s)
    ensures SortedByName(Insert(e, s))
  {
    if s == [] || Le(e.name, s[0].name) {
      forall j | 1 <= j < |s| ensures Le(e.name, s[j].name) {
        LeTrans(e.name, s[0].name, s[j].name);
      }
      assert forall j | 1 <= j < |s| + 1 :: ([e] + s)[j] == s[j - 1];
    } else {
      LeTotal(e.name, s[0].name);
      InsertSorted(e, s[1..]);
      var r := Insert(e, s[1..]);
      forall x: Entry | x in multiset(r) ensures Le(s[0].name, x.name) {
        assert x in multiset(s[1..]) + multiset{e};
      }
    }
  }

  /** Sorting by name (an insertion sort standing in for `sorted`). */
  function SortByName(s: seq<Entry>): (r: seq<Entry>)
    ensures multiset(r) == multiset(s)
  {
    if s == [] then []
    else
      assert s == [s[0]] + s[1..];
      Insert(s[0], SortByName(s[1..]))
  }

  lemma {:induction false} SortByNameSorted(s: seq<Entry>)
    ensures SortedByName(SortByName(s))
  {
    if s != [] {
      SortByNameSorted(s[1..]);
      InsertSorted(s[0], SortByName(s[1..]));
    }
  }

  /** `sorted(input_dir.glob("*.json"))`: exactly the entries named
      "*.json", each as often as listed, in ascending order of name. */
  function JsonFiles(listing: seq<Entry>): (r: seq<Entry>)
    ensures SortedByName(r)
    ensures multiset(r) == multiset(FilterJson(listing))
    ensures forall e :: e in r <==> e in listing && IsJsonName(e.name)
  {
    var matching := FilterJson(listing);
    SortByNameSorted(matching);
    assert forall e :: e in SortByName(matching) <==> e in multiset(matching);
    SortByName(matching)
  }

  /** Entries of a directory: a name determines the entry. */
  predicate NamesUnique(m: multiset<Entry>) {
    forall x, y | x in m && y in m && x.name == y.name :: x == y
  }

  /** Two ascending sequences holding the same entries, where a name
      determines the entry, start with the same entry. */
  lemma SortedSameHead(a: seq<Entry>, b: seq<Entry>)
    requires a != [] && SortedByName(a) && SortedByName(b)
    requires multiset(a) == multiset(b) && NamesUnique(multiset(a))
    ensures b != [] && a[0] == b[0]
  {
    assert a[0] in multiset(b) && a[0] in b;
    var i :| 0 <= i < |b| && b[i] == a[0];
    assert b[0] in multiset(a) && b[0] in a;
    var j :| 0 <= j < |a| && a[j] == b[0];
    LeReflexive(a[0].name);
    assert Le(b[0].name, a[0].name) by {
      if i > 0 {} else {}
    }
    assert Le(a[0].name, b[0].name) by {
      if j > 0 {} else {}
    }
    LeAntisymmetric(a[0].name, b[0].name);
  }

  lemma TailMultiset(a: seq<Entry>)
    requires a != []
    ensures multiset(a[1..]) == multiset(a) - multiset{a[0]}
  {
    assert a == [a[0]] + a[1..];
  }

  lemma TailSorted(a: seq<Entry>)
    requires a != [] && SortedByName(a)
    ensures SortedByName(a[1..])
  {
    forall i, j | 0 <= i < j < |a| - 1 ensures Le(a[1..][i].name, a[1..][j].name) {
      assert a[1..][i] == a[i + 1] && a[1..][j] == a[j + 1];
    }
  }

  lemma NamesUniqueSub(m1: multiset<Entry>, m2: multiset<Entry>)
    requires m1 <= m2 && NamesUnique(m2)
    ensures NamesUnique(m1)
  {
  }

  /** Two ascending sequences holding the same entries, where a name
      determines the entry, are the same sequence. */
  lemma {:induction false} SortedUnique(a: seq<Entry>, b: seq<Entry>)
    requires SortedByName(a) && SortedByName(b)
    requires multiset(a) == multiset(b) && NamesUnique(multiset(a))
    ensures a == b
    decreases |a|
  {
    if a == [] {
      assert |b| == |multiset(b)| == 0;
    } else {
      SortedSameHead(a, b);
      assert a == [a[0]] + a[1..] && b == [b[0]] + b[1..];
      var ta, tb := a[1..], b[1..];
      TailMultiset(a);
      TailMultiset(b);
      NamesUniqueSub(multiset(ta), multiset(a));
      TailSorted(a);
      TailSorted(b);
      SortedUnique(ta, tb);
    }
  }

  lemma FilterJsonSameEntries(l1: seq<Entry>, l2: seq<Entry>)
    requires multiset(l1) == multiset(l2)
    ensures multiset(FilterJson(l1)) == multiset(FilterJson(l2))
  {
    var f1, f2 := FilterJson(l1), FilterJson(l2);
    forall e ensures multiset(f1)[e] == multiset(f2)[e] {
    }
  }

  lemma FilterJsonSub(l: seq<Entry>)
    ensures multiset(FilterJson(l)) <= multiset(l)
  {
    var f := FilterJson(l);
    forall e ensures multiset(f)[e] <= multiset(l)[e] {
    }
  }

  /** The files converted, and their order, do not depend on the order in
      which the file system lists the directory. */
  lemma JsonFilesOrderIndependent(l1: seq<Entry>, l2: seq<Entry>)
    requires multiset(l1) == multiset(l2) && NamesUnique(multiset(l1))
    ensures JsonFiles(l1) == JsonFiles(l2)
  {
    var a, b := JsonFiles(l1), JsonFiles(l2);
    FilterJsonSameEntries(l1, l2);
    FilterJsonSub(l1);
    NamesUniqueSub(multiset(a), multiset(l1));
    SortedUnique(a, b);
  }
}
