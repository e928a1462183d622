/** Path and name helpers, and the in-place slice utilities used when a collection is
    reloaded (utils/file.go). Strings are byte strings, seen as sequences of characters. */
module Files {
  import opened Types

  // ---------------------------------------------------------------------------------
  // String helpers standing for the Go library calls the source uses

  /** `strings.TrimRight(s, "/")`: drop every trailing '/'. */
  function TrimRightSlash(s: string): (r: string)
    ensures |r| <= |s| && r == s[..|r|]
    ensures r != [] ==> r[|r| - 1] != '/'
    ensures forall k :: |r| <= k < |s| ==> s[k] == '/'
  {
    if s != [] && s[|s| - 1] == '/' then TrimRightSlash(s[..|s| - 1]) else s
  }

  /** `strings.LastIndex(s, string(c))`, or -1 when `c` does not occur. */
  function LastIndex(s: string, c: char): (r: int)
    ensures -1 <= r < |s|
    ensures r == -1 <==> c !in s
    ensures r >= 0 ==> s[r] == c && c !in s[r + 1..]
  {
    if s == [] then -1
    else if s[|s| - 1] == c then |s| - 1
    else
      var r := LastIndex(s[..|s| - 1], c);
      LastSplit(s, r);
      r
  }

  /** A non-empty string is its front and its last character, and so is every suffix. */
  lemma LastSplit(s: string, r: int)
    requires s != [] && -1 <= r < |s| - 1
    ensures s == s[..|s| - 1] + [s[|s| - 1]]
    ensures s[r + 1..] == s[..|s| - 1][r + 1..] + [s[|s| - 1]]
  {
  }

  /** Go's `<` on strings: byte-wise lexicographic order. */
  predicate LexLess(a: string, b: string)
  {
    if a == [] then b != []
    else if b == [] then false
    else if a[0] != b[0] then a[0] < b[0]
    else LexLess(a[1..], b[1..])
  }

  // ---------------------------------------------------------------------------------
  // ParsePath, RemoveLastSlash, Dir, Base, Ext

  /** `ParsePath`: strip trailing '/' and make sure the path is absolute. */
  function ParsePath(path: string): (r: string)
    ensures r != [] && r[0] == '/'
    ensures r[|r| - 1] == '/' ==> r == "/"
    ensures r == TrimRightSlash(path) || r == "/" + TrimRightSlash(path)
  {
    var trimmed := TrimRightSlash(path);
    if |trimmed| > 0 && trimmed[0] == '/' then trimmed else "/" + trimmed
  }

  lemma ParsePathIdempotent(path: string)
    ensures ParsePath(ParsePath(path)) == ParsePath(path)
  {
    var p := ParsePath(path);
    if p == "/" {
      assert TrimRightSlash(p) == TrimRightSlash(p[..0]) == [];
    } else {
      assert TrimRightSlash(p) == p;
    }
  }

  /** `RemoveLastSlash`: one trailing '/' is removed from strings longer than one. */
  function RemoveLastSlash(path: string): (r: string)
    ensures |path| <= 1 ==> r == path
    ensures |path| > 1 && path[|path| - 1] == '/' ==> r == path[..|path| - 1]
    ensures |path| > 1 && path[|path| - 1] != '/' ==> r == path
  {
    if |path| > 1 && path[|path| - 1] == '/' then path[..|path| - 1] else path
  }

  /** `Dir`: the part before the last '/'; "/" when that is the first character; the whole
      input when there is none. */
  function Dir(path: string): (r: string)
    ensures '/' !in path ==> r == path
    ensures '/' in path && LastIndex(path, '/') == 0 ==> r == "/"
    ensures '/' in path && LastIndex(path, '/') > 0 ==> r == path[..LastIndex(path, '/')]
  {
    var idx := LastIndex(path, '/');
    if idx == 0 then "/" else if idx == -1 then path else path[..idx]
  }

  /** `Base`: the part after the last '/', or the whole input when there is none. */
  function Base(path: string): (r: string)
    ensures '/' !in r
    ensures |r| <= |path| && r == path[|path| - |r|..]
    ensures '/' !in path ==> r == path
    ensures '/' in path ==> path[|path| - |r| - 1] == '/'
  {
    var idx := LastIndex(path, '/');
    if idx == -1 then path else path[idx + 1..]
  }

  /** When the last '/' is not the first character, `Dir` and `Base` split the path there. */
  lemma DirBaseJoin(path: string)
    requires '/' in path && LastIndex(path, '/') > 0
    ensures Dir(path) + "/" + Base(path) == path
  {
    var idx := LastIndex(path, '/');
    assert Base(path) == path[idx + 1..];
    SplitAt(path, idx);
  }

  /** A string is its part before position `i`, the character at `i` and the part after. */
  lemma SplitAt(s: string, i: nat)
    requires i < |s|
    ensures s[..i] + [s[i]] + s[i + 1..] == s
  {
    assert forall k :: 0 <= k < |s| ==> (s[..i] + [s[i]] + s[i + 1..])[k] == s[k];
  }

  /** `path.Ext(name)`: scanning back from the end, stop at the first '/' (no extension) or
      at the first '.' (the extension is what follows it). */
  function ExtScan(s: string): (r: Option<string>)
    ensures r.Some? ==> '.' !in r.value && '/' !in r.value
    ensures r.Some? ==> |r.value| < |s| && s[|s| - |r.value| - 1] == '.' && r.value == s[|s| - |r.value|..]
  {
    if s == [] || s[|s| - 1] == '/' then None
    else if s[|s| - 1] == '.' then Some([])
    else
      var front := s[..|s| - 1];
      match ExtScan(front)
      case None => None
      case Some(e) =>
        assert s[|s| - |e| - 2..] == front[|front| - |e| - 1..] + [s[|s| - 1]];
        Some(e + [s[|s| - 1]])
  }

  /** `Ext`: the extension of the final path element, without its leading '.'. */
  function Ext(name: string): (r: string)
    ensures '.' !in r && '/' !in r
    ensures |r| <= |name| && r == name[|name| - |r|..]
  {
    match ExtScan(name)
    case None => []
    case Some(e) => e
  }

  /** Appending `.ext` to any stem gives back `ext` as the extension. */
  lemma ExtOfJoin(stem: string, ext: string)
    requires '.' !in ext && '/' !in ext
    ensures Ext(stem + "." + ext) == ext
  {
    ExtScanAfterDot(stem + ".", ext);
  }

  /** Scanning back over characters that are neither '.' nor '/' up to a '.' yields them. */
  lemma {:induction false} ExtScanAfterDot(prefix: string, ext: string)
    requires |prefix| > 0 && prefix[|prefix| - 1] == '.'
    requires '.' !in ext && '/' !in ext
    ensures ExtScan(prefix + ext) == Some(ext)
  {
    if ext == [] {
      assert prefix + ext == prefix;
    } else {
      var front := ext[..|ext| - 1];
      var c := ext[|ext| - 1];
      assert ext == front + [c];
      assert prefix + ext == (prefix + front) + [c];
      assert (prefix + ext)[..|prefix + ext| - 1] == prefix + front;
      ExtScanAfterDot(prefix, front);
    }
  }

  /** A final path element without '.' has no extension. */
  lemma ExtWithoutDot(name: string)
    requires '.' !in Base(name)
    ensures Ext(name) == []
  {
    DotOfExtInBase(name);
  }

  /** No character of a slash-free suffix is a '/'. */
  lemma NoSlashAfter(s: string, q: nat)
    requires q <= |s| && '/' !in s[q..]
    ensures forall k :: q <= k < |s| ==> s[k] != '/'
  {
    forall k | q <= k < |s|
      ensures s[k] != '/'
    {
      assert s[k] == s[q..][k - q];
    }
  }

  /** The '.' that starts an extension lies in the final path element. */
  lemma DotOfExtInBase(name: string)
    ensures ExtScan(name).Some? ==> '.' in Base(name)
  {
    if ExtScan(name).Some? {
      var e := ExtScan(name).value;
      var p := |name| - |e| - 1;
      var idx := LastIndex(name, '/');
      if idx >= 0 {
        NoSlashAfter(name, p + 1);
        assert Base(name) == name[idx + 1..];
        assert Base(name)[p - idx - 1] == name[p];
      } else {
        assert Base(name)[p] == name[p];
      }
    }
  }

  // ---------------------------------------------------------------------------------
  // Decimal numbers: `strconv.ParseUint(s, 10, 64)` and `%d`

  predicate IsDigit(c: char) { '0' <= c <= '9' }

  function DigitsValue(s: string): nat
    requires forall k :: 0 <= k < |s| ==> IsDigit(s[k])
  {
    if s == [] then 0
    else
      assert IsDigit(s[|s| - 1]);
      DigitsValue(s[..|s| - 1]) * 10 + (s[|s| - 1] as int - '0' as int)
  }

  /** `strconv.ParseUint(s, 10, 64)`: a non-empty run of decimal digits whose value fits in
      64 bits; anything else is an error. */
  function ParseUint(s: string): (r: Option<nat>)
    ensures r.Some? ==> s != [] && r.value < TwoTo64
    ensures r.Some? ==> forall k :: 0 <= k < |s| ==> IsDigit(s[k])
  {
    if s != [] && (forall k :: 0 <= k < |s| ==> IsDigit(s[k])) && DigitsValue(s) < TwoTo64 then
      Some(DigitsValue(s))
    else
      None
  }

  /** `fmt.Sprintf("%d", n)` for a non-negative `n`. */
  function DecimalString(n: nat): (r: string)
    ensures r != [] && forall k :: 0 <= k < |r| ==> IsDigit(r[k])
  {
    var d := [('0' as int + n % 10) as char];
    if n < 10 then d else DecimalString(n / 10) + d
  }

  lemma {:induction false} DecimalStringValue(n: nat)
    ensures DigitsValue(DecimalString(n)) == n
  {
    var s := DecimalString(n);
    if n >= 10 {
      DecimalStringValue(n / 10);
      assert s[..|s| - 1] == DecimalString(n / 10);
    }
  }

  /** Printing a `uint64` in decimal and parsing it back is the identity. */
  lemma ParseDecimalString(n: nat)
    requires n < TwoTo64
    ensures ParseUint(DecimalString(n)) == Some(n)
  {
    DecimalStringValue(n);
  }

  // ---------------------------------------------------------------------------------
  // Directory entries of a collection directory

  /** An `os.DirEntry`: only its name and whether it is a directory matter here. */
  datatype DirEntry = DirEntry(name: string, isDir: bool)

  function CountChar(s: string, c: char): nat
  {
    if s == [] then 0 else CountChar(s[..|s| - 1], c) + (if s[|s| - 1] == c then 1 else 0)
  }

  lemma {:induction false} CountCharConcat(a: string, b: string, c: char)
    ensures CountChar(a + b, c) == CountChar(a, c) + CountChar(b, c)
  {
    if b != [] {
      assert (a + b)[..|a + b| - 1] == a + b[..|b| - 1];
      CountCharConcat(a, b[..|b| - 1], c);
    } else {
      assert a + b == a;
    }
  }

  lemma {:induction false} CountCharAbsent(s: string, c: char)
    requires c !in s
    ensures CountChar(s, c) == 0
  {
    if s != [] {
      CountCharAbsent(s[..|s| - 1], c);
    }
  }

  /** A name of the form `<prefix>_<suffix>` with no other '_' has exactly two parts. */
  lemma PartCountOfPair(prefix: string, suffix: string)
    requires '_' !in prefix && '_' !in suffix
    ensures PartCount(prefix + "_" + suffix) == 2
  {
    CountCharConcat(prefix, "_", '_');
    CountCharConcat(prefix + "_", suffix, '_');
    CountCharAbsent(prefix, '_');
    CountCharAbsent(suffix, '_');
  }

  /** `len(strings.Split(name, "_"))`. */
  function PartCount(name: string): nat
  {
    CountChar(name, '_') + 1
  }

  /** What `FilterValidSegmentDirs` means to keep: directories named `<word>_<word>`. */
  predicate IsSegmentDir(e: DirEntry)
  {
    e.isDir && PartCount(e.name) == 2
  }

  /** The array after `RemoveIndex(s, i)`: the elements after `i` moved down by one, the last
      element left in place (the backing array of the caller's slice). */
  function Shifted(s: seq<DirEntry>, i: nat): (r: seq<DirEntry>)
    requires i < |s|
    ensures |r| == |s|
  {
    s[..i] + s[i + 1..] + [s[|s| - 1]]
  }

  /** `RemoveIndex(s, i) = append(s[:i], s[i+1:]...)`: returns `s` without element `i`, and
      overwrites the shared backing array in place. */
  method RemoveIndex(a: array<DirEntry>, index: int) returns (r: seq<DirEntry>)
    requires 0 <= index < a.Length
    modifies a
    ensures a[..] == Shifted(old(a[..]), index)
    ensures r == old(a[..index]) + old(a[index + 1..])
    ensures |r| == a.Length - 1
  {
    forall m | index <= m < a.Length - 1 {
      a[m] := a[m + 1];
    }
    assert a[..] == old(a[..index]) + old(a[index + 1..]) + [old(a[a.Length - 1])];
    r := a[..a.Length - 1];
  }

  /** One iteration of `FilterValidSegmentDirs` at position `i`: shift out a non-directory,
      then shift out whatever is at `i` if its name is not `<word>_<word>`. */
  function FilterStep(s: seq<DirEntry>, i: nat): (r: seq<DirEntry>)
    requires i < |s|
    ensures |r| == |s|
  {
    var s1 := if !s[i].isDir then Shifted(s, i) else s;
    if PartCount(s1[i].name) != 2 then Shifted(s1, i) else s1
  }

  /** The effect of `FilterValidSegmentDirs` from position `i` on, step for step. */
  function FilterAsWritten(s: seq<DirEntry>, i: nat): (r: seq<DirEntry>)
    ensures |r| == |s|
    decreases |s| - i
  {
    if i >= |s| then s else FilterAsWritten(FilterStep(s, i), i + 1)
  }

  /** `FilterValidSegmentDirs` as written: it calls `RemoveIndex` but drops its result, so the
      caller's slice keeps its length and the entries are only shifted in place. */
  method FilterValidSegmentDirs(a: array<DirEntry>)
    modifies a
    ensures a[..] == FilterAsWritten(old(a[..]), 0)
  {
    ghost var start := a[..];
    var i := 0;
    while i < a.Length
      invariant 0 <= i <= a.Length
      invariant FilterAsWritten(a[..], i) == FilterAsWritten(start, 0)
    {
      ghost var s0 := a[..];
      if !a[i].isDir {
        var _ := RemoveIndex(a, i);
      }
      ghost var s1 := a[..];
      assert s1 == if !s0[i].isDir then Shifted(s0, i) else s0;
      if PartCount(a[i].name) != 2 {
        var _ := RemoveIndex(a, i);
      }
      assert a[..] == if PartCount(s1[i].name) != 2 then Shifted(s1, i) else s1;
      assert a[..] == FilterStep(s0, i);
      i := i + 1;
    }
  }

  /** A plain file after a segment directory survives the filter. */
  lemma FilterAsWrittenKeepsFile()
    ensures var s := [DirEntry("segment_0", true), DirEntry("config", false)];
            FilterAsWritten(s, 0) == s && !IsSegmentDir(FilterAsWritten(s, 0)[1])
  {
    var s := [DirEntry("segment_0", true), DirEntry("config", false)];
    PartCountOfPair("segment", "0");
    assert "segment" + "_" + "0" == "segment_0";
    CountCharAbsent("config", '_');
    assert Shifted(s, 1) == s;
  }

  /** A plain file before a segment directory makes that directory appear twice. */
  lemma FilterAsWrittenDuplicates()
    ensures var s := [DirEntry("config", false), DirEntry("segment_0", true)];
            FilterAsWritten(s, 0) == [DirEntry("segment_0", true), DirEntry("segment_0", true)]
  {
    var s := [DirEntry("config", false), DirEntry("segment_0", true)];
    var t := [DirEntry("segment_0", true), DirEntry("segment_0", true)];
    PartCountOfPair("segment", "0");
    assert "segment" + "_" + "0" == "segment_0";
    assert Shifted(s, 0) == t;
  }

  /** The entries that the filter is meant to keep, in their original order. */
  function ValidSegmentDirs(s: seq<DirEntry>): (r: seq<DirEntry>)
    ensures |r| <= |s|
    ensures forall k :: 0 <= k < |r| ==> IsSegmentDir(r[k])
  {
    if s == [] then []
    else ValidSegmentDirs(s[..|s| - 1]) + if IsSegmentDir(s[|s| - 1]) then [s[|s| - 1]] else []
  }

  /** Every valid entry is kept as many times as it occurs, and nothing else is kept. */
  lemma {:induction false} ValidSegmentDirsCount(s: seq<DirEntry>, e: DirEntry)
    ensures multiset(ValidSegmentDirs(s))[e] == if IsSegmentDir(e) then multiset(s)[e] else 0
  {
    if s != [] {
      var front := s[..|s| - 1];
      assert s == front + [s[|s| - 1]];
      ValidSegmentDirsCount(front, e);
    }
  }

  lemma {:induction false} ValidSegmentDirsOfValid(s: seq<DirEntry>)
    requires forall k :: 0 <= k < |s| ==> IsSegmentDir(s[k])
    ensures ValidSegmentDirs(s) == s
  {
    if s != [] {
      ValidSegmentDirsOfValid(s[..|s| - 1]);
    }
  }

  /** The corrected filter: compact the valid entries to the front in order and return how
      many there are, so that the caller can reslice. */
  method CompactValidSegmentDirs(a: array<DirEntry>) returns (n: int)
    modifies a
    ensures 0 <= n <= a.Length
    ensures a[..n] == ValidSegmentDirs(old(a[..]))
  {
    ghost var s0 := a[..];
    n := 0;
    var i := 0;
    while i < a.Length
      invariant 0 <= n <= i <= a.Length == |s0|
      invariant a[..n] == ValidSegmentDirs(s0[..i])
      invariant forall k :: i <= k < a.Length ==> a[k] == s0[k]
    {
      ValidSegmentDirsSnoc(s0, i);
      if IsSegmentDir(a[i]) {
        ghost var kept := a[..n];
        a[n] := a[i];
        assert a[..n] == kept;
        assert a[..n + 1] == a[..n] + [a[n]];
        n := n + 1;
      }
      i := i + 1;
    }
    assert s0[..i] == s0;
  }

  lemma ValidSegmentDirsSnoc(s: seq<DirEntry>, i: nat)
    requires i < |s|
    ensures ValidSegmentDirs(s[..i + 1]) ==
              ValidSegmentDirs(s[..i]) + if IsSegmentDir(s[i]) then [s[i]] else []
  {
    assert s[..i + 1][..i] == s[..i];
  }

  // ---------------------------------------------------------------------------------
  // SortFileNameAscend

  /** The number after the last '_' of the name (the whole name when there is none). */
  function NumberKey(e: DirEntry): Option<nat>
  {
    ParseUint(e.name[LastIndex(e.name, '_') + 1..])
  }

  /** The `sort.Slice` comparator: numeric when both suffixes parse, by name otherwise. */
  predicate NameLess(x: DirEntry, y: DirEntry)
  {
    if NumberKey(x).Some? && NumberKey(y).Some? then NumberKey(x).value < NumberKey(y).value
    else LexLess(x.name, y.name)
  }

  /** The number of a numbered entry (0 for the others, which it is never asked about). */
  function SortKey(e: DirEntry): int
  {
    if NumberKey(e).Some? then NumberKey(e).value else 0
  }

  predicate AllNumbered(s: seq<DirEntry>)
  {
    forall k :: 0 <= k < |s| ==> NumberKey(s[k]).Some?
  }

  predicate AscendingByNumber(s: seq<DirEntry>)
    requires AllNumbered(s)
  {
    forall p, q :: 0 <= p < q < |s| ==> NumberKey(s[p]).value <= NumberKey(s[q]).value
  }

  /** `SortFileNameAscend`: an in-place sort with the comparator above. The result is a
      permutation of the input; when every name ends in a number it is ascending by that
      number. (`sort.Slice` is an unspecified algorithm; an insertion sort stands for it.) */
  method SortFileNameAscend(a: array<DirEntry>)
    modifies a
    ensures multiset(a[..]) == multiset(old(a[..]))
    ensures AllNumbered(old(a[..])) ==> AllNumbered(a[..]) && AscendingByNumber(a[..])
  {
    ghost var elems := set k | 0 <= k < a.Length :: a[k];
    ghost var numbered := AllNumbered(a[..]);
    if numbered {
      forall x, y | x in elems && y in elems
        ensures NameLess(x, y) <==> SortKey(x) < SortKey(y)
      {
      }
    }
    InsertionSort(a, NameLess, SortKey, elems, numbered);
    if numbered {
      forall k | 0 <= k < a.Length
        ensures NumberKey(a[k]).Some? && NumberKey(a[k]).value == SortKey(a[k])
      {
        assert a[k] in elems;
      }
    }
  }

  /** Keys ascending along the first `n` positions. */
  ghost predicate SortedBy<T>(s: seq<T>, key: T -> int, n: int)
  {
    forall p, q :: 0 <= p < q < n && q < |s| ==> key(s[p]) <= key(s[q])
  }

  /** An insertion sort with comparator `less`. When `less` agrees with a key order on all the
      elements (`ranked`), the result is ascending by that key; it is always a permutation. */
  method InsertionSort<T>(a: array<T>, less: (T, T) -> bool, ghost key: T -> int, ghost elems: set<T>,
                          ghost ranked: bool)
    requires forall k :: 0 <= k < a.Length ==> a[k] in elems
    requires ranked ==> forall x, y {:trigger less(x, y)} :: x in elems && y in elems ==> (less(x, y) <==> key(x) < key(y))
    modifies a
    ensures multiset(a[..]) == multiset(old(a[..]))
    ensures forall k :: 0 <= k < a.Length ==> a[k] in elems
    ensures ranked ==> SortedBy(a[..], key, a.Length)
  {
    var i := 1;
    while i < a.Length
      invariant 1 <= i
      invariant a.Length > 0 ==> i <= a.Length
      invariant multiset(a[..]) == multiset(old(a[..]))
      invariant forall k :: 0 <= k < a.Length ==> a[k] in elems
      invariant ranked ==> SortedBy(a[..], key, i)
    {
      InsertLast(a, i, less, key, elems, ranked);
      i := i + 1;
    }
  }

  /** One pass of the insertion sort: move `a[i]` down past the elements it is less than. */
  method InsertLast<T>(a: array<T>, i: int, less: (T, T) -> bool, ghost key: T -> int, ghost elems: set<T>,
                       ghost ranked: bool)
    requires 0 < i < a.Length
    requires forall k :: 0 <= k < a.Length ==> a[k] in elems
    requires ranked ==> forall x, y {:trigger less(x, y)} :: x in elems && y in elems ==> (less(x, y) <==> key(x) < key(y))
    requires ranked ==> SortedBy(a[..], key, i)
    modifies a
    ensures a[..] == InsertDown(old(a[..]), i, less)
    ensures multiset(a[..]) == multiset(old(a[..]))
    ensures forall k :: 0 <= k < a.Length ==> a[k] in elems
    ensures ranked ==> SortedBy(a[..], key, i + 1)
  {
    ghost var s0 := a[..];
    if ranked {
      GapSortedStart(s0, key, i);
    }
    InsertDownKeeps(s0, multiset(s0), less, elems, key, ranked, i, i);
    var j := i;
    while j > 0 && less(a[j], a[j - 1])
      invariant 0 <= j <= i < a.Length
      invariant InsertDown(a[..], j, less) == InsertDown(s0, i, less)
    {
      ghost var before := a[..];
      assert InsertDown(before, j, less) == InsertDown(before[j - 1 := before[j]][j := before[j - 1]], j - 1, less);
      Swap(a, j - 1, j);
      j := j - 1;
    }
    assert InsertDown(a[..], j, less) == a[..];
  }

  /** What one pass leaves: the element at `j` swapped down while it is less than the one
      before it. */
  function InsertDown<T>(s: seq<T>, j: nat, less: (T, T) -> bool): (r: seq<T>)
    requires j < |s|
    ensures |r| == |s|
    decreases j
  {
    if j > 0 && less(s[j], s[j - 1]) then InsertDown(s[j - 1 := s[j]][j := s[j - 1]], j - 1, less) else s
  }

  /** A pass keeps the loop invariant to its end, where the prefix is sorted. */
  lemma {:induction false} InsertDownKeeps<T>(s: seq<T>, orig: multiset<T>, less: (T, T) -> bool, elems: set<T>,
                                              key: T -> int, ranked: bool, i: int, j: nat)
    requires InsertInv(s, orig, elems, key, ranked, i, j)
    requires ranked ==> forall x, y {:trigger less(x, y)} :: x in elems && y in elems ==> (less(x, y) <==> key(x) < key(y))
    ensures multiset(InsertDown(s, j, less)) == orig
    ensures forall k :: 0 <= k < |s| ==> InsertDown(s, j, less)[k] in elems
    ensures ranked ==> SortedBy(InsertDown(s, j, less), key, i + 1)
    decreases j
  {
    if j > 0 && less(s[j], s[j - 1]) {
      InsertInvStep(s, orig, less, elems, key, ranked, i, j);
      InsertDownKeeps(s[j - 1 := s[j]][j := s[j - 1]], orig, less, elems, key, ranked, i, j - 1);
    } else {
      InsertInvDone(s, orig, less, elems, key, ranked, i, j);
    }
  }

  /** The loop invariant of `InsertLast`, on the array's contents. */
  ghost predicate InsertInv<T>(s: seq<T>, orig: multiset<T>, elems: set<T>, key: T -> int, ranked: bool,
                               i: int, j: int)
  {
    && 0 <= j <= i < |s|
    && multiset(s) == orig
    && (forall k :: 0 <= k < |s| ==> s[k] in elems)
    && (ranked ==> GapSorted(s, key, i, j))
  }

  lemma InsertInvStep<T>(s: seq<T>, orig: multiset<T>, less: (T, T) -> bool, elems: set<T>, key: T -> int,
                         ranked: bool, i: int, j: int)
    requires InsertInv(s, orig, elems, key, ranked, i, j) && 0 < j && less(s[j], s[j - 1])
    requires ranked ==> forall x, y {:trigger less(x, y)} :: x in elems && y in elems ==> (less(x, y) <==> key(x) < key(y))
    ensures InsertInv(s[j - 1 := s[j]][j := s[j - 1]], orig, elems, key, ranked, i, j - 1)
  {
    var t := s[j - 1 := s[j]][j := s[j - 1]];
    assert ranked ==> GapSorted(t, key, i, j - 1) by {
      if ranked {
        assert s[j] in elems && s[j - 1] in elems;
        GapSortedStep(s, key, i, j);
      }
    }
    assert multiset(t) == orig by {
      SwapMultiset(s, j - 1, j);
    }
    assert forall k :: 0 <= k < |t| ==> t[k] in elems by {
      assert forall k :: 0 <= k < |t| ==> t[k] == s[j] || t[k] == s[k] || t[k] == s[j - 1];
    }
  }

  lemma InsertInvDone<T>(s: seq<T>, orig: multiset<T>, less: (T, T) -> bool, elems: set<T>, key: T -> int,
                         ranked: bool, i: int, j: int)
    requires InsertInv(s, orig, elems, key, ranked, i, j) && !(j > 0 && less(s[j], s[j - 1]))
    requires ranked ==> forall x, y {:trigger less(x, y)} :: x in elems && y in elems ==> (less(x, y) <==> key(x) < key(y))
    ensures ranked ==> SortedBy(s, key, i + 1)
  {
    if ranked {
      if j > 0 {
        assert s[j] in elems && s[j - 1] in elems;
      }
      GapSortedDone(s, key, i, j);
    }
  }

  lemma SwapMultiset<T>(s: seq<T>, p: int, q: int)
    requires 0 <= p < |s| && 0 <= q < |s|
    ensures multiset(s[p := s[q]][q := s[p]]) == multiset(s)
  {
  }

  /** The first `i + 1` elements are ascending except that the one at `j` may be out of place,
      and it is no larger than those after it. */
  ghost predicate GapSorted<T>(s: seq<T>, key: T -> int, i: int, j: int)
  {
    && 0 <= j <= i < |s|
    && (forall p, q :: 0 <= p < q <= i && p != j && q != j ==> key(s[p]) <= key(s[q]))
    && (forall q :: j < q <= i ==> key(s[j]) <= key(s[q]))
  }

  lemma GapSortedStart<T>(s: seq<T>, key: T -> int, i: int)
    requires 0 <= i < |s| && SortedBy(s, key, i)
    ensures GapSorted(s, key, i, i)
  {
  }

  lemma GapSortedStep<T>(s: seq<T>, key: T -> int, i: int, j: int)
    requires 0 < j && GapSorted(s, key, i, j) && key(s[j]) < key(s[j - 1])
    ensures GapSorted(s[j - 1 := s[j]][j := s[j - 1]], key, i, j - 1)
  {
  }

  lemma GapSortedDone<T>(s: seq<T>, key: T -> int, i: int, j: int)
    requires GapSorted(s, key, i, j) && (j == 0 || key(s[j - 1]) <= key(s[j]))
    ensures SortedBy(s, key, i + 1)
  {
  }

  /** Exchange two elements of the array. */
  method Swap<T>(a: array<T>, i: int, j: int)
    requires 0 <= i < a.Length && 0 <= j < a.Length
    modifies a
    ensures a[..] == old(a[..])[i := old(a[..])[j]][j := old(a[..])[i]]
  {
    a[i], a[j] := a[j], a[i];
  }
}
