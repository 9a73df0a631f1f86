/**
 * The capsule sparsifier used to shrink the test capsules: every byte of a
 * capsule is zeroed except the regions the parsers read (the capsule
 * header, the BIOS version block, the EC image, every PD image and the
 * retimer parameters), so the file keeps its length and its layout.
 *
 * Python's `bytes.find(needle, start)` is `Common.FindFrom`; the output
 * `bytearray` is an array the method fills in place.
 */
module Sparsify {
  import opened Common
  import Text
  import opened CapsuleContent

  /** A preserved region: where it starts, how long it is, and its label. */
  datatype Region = Region(offset: nat, length: nat, desc: string)

  const HEADER_LEN: nat := 64
  const BVDT_LEN: nat := 128
  /** The EC marker, the 9 bytes after it and the 128 KiB EC binary. */
  const EC_REGION_LEN: nat := 16 + 9 + 131072
  const CCG8_SIZE: nat := 262144
  const CCG6_SIZE: nat := 65536
  const CCG5_SIZE: nat := 32768
  const RETIMER_LEN: nat := 64


  // ---------------------------------------------------------------------
  // find_all

  /**
   * The occurrences `find_all` collects from `pos` on: the first one, then
   * the rest searched from just past it.
   */
  function AllFrom(data: seq<u8>, needle: seq<u8>, pos: nat): seq<nat>
    requires |needle| > 0
    decreases |data| + 1 - pos
  {
    match FindFrom(data, needle, pos)
    case None => []
    case Some(found) => [found] + AllFrom(data, needle, found + |needle|)
  }

  /** Every occurrence `find_all` reports is a real one, at or after the start. */
  lemma {:induction false} AllFromOccur(data: seq<u8>, needle: seq<u8>, pos: nat)
    requires |needle| > 0
    ensures forall i :: 0 <= i < |AllFrom(data, needle, pos)| ==>
      pos <= AllFrom(data, needle, pos)[i] && OccursAt(data, needle, AllFrom(data, needle, pos)[i])
    decreases |data| + 1 - pos
  {
    match FindFrom(data, needle, pos)
    case None =>
    case Some(found) =>
      var rest := AllFrom(data, needle, found + |needle|);
      AllFromOccur(data, needle, found + |needle|);
      assert AllFrom(data, needle, pos) == [found] + rest;
  }

  /** The occurrences are increasing and do not overlap: each starts at least a needle past every earlier one. */
  lemma {:induction false} AllFromSpaced(data: seq<u8>, needle: seq<u8>, pos: nat)
    requires |needle| > 0
    ensures forall i, j :: 0 <= i < j < |AllFrom(data, needle, pos)| ==>
      AllFrom(data, needle, pos)[i] + |needle| <= AllFrom(data, needle, pos)[j]
    decreases |data| + 1 - pos
  {
    match FindFrom(data, needle, pos)
    case None =>
    case Some(found) =>
      var rest := AllFrom(data, needle, found + |needle|);
      AllFromSpaced(data, needle, found + |needle|);
      AllFromOccur(data, needle, found + |needle|);
      var r := AllFrom(data, needle, pos);
      assert r == [found] + rest;
      forall i, j | 0 <= i < j < |r|
        ensures r[i] + |needle| <= r[j]
      {
        assert r[j] == rest[j - 1];
        if i > 0 {
          assert r[i] == rest[i - 1];
        }
      }
  }

  /**
   * Nothing is missed: every occurrence at or after the start is either
   * reported or overlaps one that is.
   */
  lemma {:induction false} AllFromComplete(data: seq<u8>, needle: seq<u8>, pos: nat, j: nat)
    requires |needle| > 0 && pos <= j && OccursAt(data, needle, j)
    ensures exists i ::
      (0 <= i < |AllFrom(data, needle, pos)| && AllFrom(data, needle, pos)[i] <= j < AllFrom(data, needle, pos)[i] + |needle|)
    decreases |data| + 1 - pos
  {
    var r := AllFrom(data, needle, pos);
    match FindFrom(data, needle, pos)
    case None =>
      assert false;
    case Some(found) =>
      if j < found + |needle| {
        assert r[0] == found;
      } else {
        AllFromComplete(data, needle, found + |needle|, j);
        var rest := AllFrom(data, needle, found + |needle|);
        var i :| 0 <= i < |rest| && rest[i] <= j < rest[i] + |needle|;
        assert r[i + 1] == rest[i];
      }
  }

  /**
   * `find_all`: repeatedly search from `pos` and resume just past each hit.
   * The needle must not be empty: with an empty needle the search finds
   * `pos` itself forever.
   */
  method FindAll(data: seq<u8>, needle: seq<u8>) returns (results: seq<nat>)
    requires |needle| > 0
    ensures results == AllFrom(data, needle, 0)
    ensures forall i :: 0 <= i < |results| ==> OccursAt(data, needle, results[i])
  {
    results := [];
    var pos := 0;
    while true
      invariant results + AllFrom(data, needle, pos) == AllFrom(data, needle, 0)
      decreases |data| + 1 - pos
    {
      var found := FindFrom(data, needle, pos);
      if found.None? {
        break;
      }
      results := results + [found.value];
      pos := found.value + |needle|;
    }
    AllFromOccur(data, needle, 0);
  }

  // ---------------------------------------------------------------------
  // Preserved regions

  /** `enumerate(offsets, 1)`: one region per offset, described as `"<tag> <i>"` from 1. */
  function Numbered(offsets: seq<nat>, length: nat, tag: string, first: nat): (r: seq<Region>)
    ensures |r| == |offsets|
    ensures forall i :: 0 <= i < |r| ==> r[i].offset == offsets[i] && r[i].length == length
  {
    if offsets == [] then []
    else [Region(offsets[0], length, tag + " " + Text.FormatDec(first))] + Numbered(offsets[1..], length, tag, first + 1)
  }

  /** The region for the first occurrence of a marker, if any. */
  function Marker(data: seq<u8>, needle: seq<u8>, length: nat, desc: string): (r: seq<Region>)
    requires |needle| > 0
    ensures |r| <= 1 && (r != [] <==> Find(data, needle).Some?)
    ensures r != [] ==> r[0].offset == Find(data, needle).value && r[0].length == length
  {
    match Find(data, needle)
    case None => []
    case Some(at) => [Region(at, length, desc)]
  }

  /** The header, "$BVDT" and EC regions, appended first. */
  function MarkerRegions(data: seq<u8>): seq<Region>
  {
    [Region(0, HEADER_LEN, "Capsule header")]
    + Marker(data, BVDT_NEEDLE, BVDT_LEN, "$BVDT (BIOS version)")
    + Marker(data, EC_NEEDLE, EC_REGION_LEN, "$_IFLASH_EC_IMG_ + EC")
  }

  /** Every CCG8, then every CCG6, then every CCG5 image. */
  function PdRegions(data: seq<u8>): seq<Region>
  {
    Numbered(AllFrom(data, CCG8_NEEDLE, 0), CCG8_SIZE, "CCG8 PD", 1)
    + Numbered(AllFrom(data, CCG6_NEEDLE, 0), CCG6_SIZE, "CCG6 PD", 1)
    + Numbered(AllFrom(data, CCG5_NEEDLE, 0), CCG5_SIZE, "CCG5 PD", 1)
  }

  /** The regions in the order `sparsify_capsule` appends them, before sorting. */
  function Candidates(data: seq<u8>): seq<Region>
  {
    MarkerRegions(data) + PdRegions(data) + Marker(data, RETIMER_NEEDLE, RETIMER_LEN, "$_RETIMER_PARAM_")
  }

  predicate SortedByOffset(rs: seq<Region>)
  {
    forall i, j :: 0 <= i < j < |rs| ==> rs[i].offset <= rs[j].offset
  }

  /** Insert after every region whose offset is not larger, which keeps equal offsets in order. */
  function Insert(x: Region, rs: seq<Region>): (r: seq<Region>)
    ensures multiset(r) == multiset(rs) + multiset{x}
  {
    if rs == [] then [x]
    else if x.offset < rs[0].offset then
      [x] + rs
    else
      assert rs == [rs[0]] + rs[1..];
      [rs[0]] + Insert(x, rs[1..])
  }

  /** Every region of `Insert(x, rs)` starts at or after a bound that x and all of rs respect. */
  lemma {:induction false} InsertBound(x: Region, rs: seq<Region>, b: nat)
    requires x.offset >= b && forall k :: 0 <= k < |rs| ==> rs[k].offset >= b
    ensures forall k :: 0 <= k < |Insert(x, rs)| ==> Insert(x, rs)[k].offset >= b
  {
    if rs != [] && x.offset >= rs[0].offset {
      InsertBound(x, rs[1..], b);
    }
  }

  /** Inserting into a sorted list keeps it sorted. */
  lemma {:induction false} InsertSorted(x: Region, rs: seq<Region>)
    requires SortedByOffset(rs)
    ensures SortedByOffset(Insert(x, rs))
  {
    if rs != [] && x.offset >= rs[0].offset {
      InsertSorted(x, rs[1..]);
      InsertBound(x, rs[1..], rs[0].offset);
      var r := Insert(x, rs);
      assert r == [rs[0]] + Insert(x, rs[1..]);
    }
  }

  /** `preserved.sort(key=lambda x: x[0])`: a stable sort by offset. */
  function SortByOffset(rs: seq<Region>): (r: seq<Region>)
    ensures multiset(r) == multiset(rs)
  {
    if rs == [] then []
    else
      assert rs == rs[..|rs| - 1] + [rs[|rs| - 1]];
      Insert(rs[|rs| - 1], SortByOffset(rs[..|rs| - 1]))
  }

  /** The sort orders the regions by offset. */
  lemma {:induction false} SortByOffsetSorted(rs: seq<Region>)
    ensures SortedByOffset(SortByOffset(rs))
  {
    if rs != [] {
      SortByOffsetSorted(rs[..|rs| - 1]);
      InsertSorted(rs[|rs| - 1], SortByOffset(rs[..|rs| - 1]));
    }
  }

  // ---------------------------------------------------------------------
  // The sparse copy

  /** Byte k lies in region g, clipped to the data's end. */
  predicate InRegion(g: Region, n: nat, k: nat)
  {
    g.offset <= k < Min(g.offset + g.length, n)
  }

  /** Byte k lies in one of the regions. */
  predicate Covered(rs: seq<Region>, n: nat, k: nat)
  {
    exists g :: g in rs && InRegion(g, n, k)
  }

  /** The region list `sparsify_capsule` builds, appended marker by marker. */
  method CollectRegions(data: seq<u8>) returns (preserved: seq<Region>)
    ensures preserved == Candidates(data)
  {
    preserved := [];
    preserved := preserved + [Region(0, HEADER_LEN, "Capsule header")];
    var bvdt := Find(data, BVDT_NEEDLE);
    if bvdt.Some? {
      preserved := preserved + [Region(bvdt.value, BVDT_LEN, "$BVDT (BIOS version)")];
    }
    var ecMarker := Find(data, EC_NEEDLE);
    if ecMarker.Some? {
      preserved := preserved + [Region(ecMarker.value, EC_REGION_LEN, "$_IFLASH_EC_IMG_ + EC")];
    }
    assert preserved == MarkerRegions(data);
    var ccg8 := FindAll(data, CCG8_NEEDLE);
    var ccg6 := FindAll(data, CCG6_NEEDLE);
    var ccg5 := FindAll(data, CCG5_NEEDLE);
    var pd := Numbered(ccg8, CCG8_SIZE, "CCG8 PD", 1);
    pd := pd + Numbered(ccg6, CCG6_SIZE, "CCG6 PD", 1);
    pd := pd + Numbered(ccg5, CCG5_SIZE, "CCG5 PD", 1);
    preserved := preserved + pd;
    var retimer := Find(data, RETIMER_NEEDLE);
    if retimer.Some? {
      preserved := preserved + [Region(retimer.value, RETIMER_LEN, "$_RETIMER_PARAM_")];
    }
  }

  /**
   * The copy loop: a zeroed buffer of the data's length into which each
   * region, clipped to the end of the data, is copied from the input.
   */
  method CopyRegions(data: seq<u8>, preserved: seq<Region>) returns (result: array<u8>)
    ensures fresh(result)
    ensures result.Length == |data|
    ensures forall k :: 0 <= k < |data| ==> result[k] == if Covered(preserved, |data|, k) then data[k] else 0
  {
    result := new u8[|data|](_ => 0);
    var i := 0;
    while i < |preserved|
      invariant i <= |preserved|
      invariant forall k :: 0 <= k < |data| ==> result[k] == if Covered(preserved[..i], |data|, k) then data[k] else 0
    {
      var g := preserved[i];
      var end := Min(g.offset + g.length, |data|);
      forall k | g.offset <= k < end {
        result[k] := data[k];
      }
      CoveredStep(preserved, i, |data|);
      i := i + 1;
    }
    assert preserved[..i] == preserved;
  }

  /**
   * `sparsify_capsule`: the candidate regions sorted by offset, and the
   * data with every byte outside them zeroed.
   */
  method SparsifyCapsule(data: seq<u8>) returns (result: array<u8>, preserved: seq<Region>)
    ensures fresh(result)
    ensures result.Length == |data|
    ensures forall k :: 0 <= k < |data| ==> result[k] == if Covered(preserved, |data|, k) then data[k] else 0
    ensures SortedByOffset(preserved) && multiset(preserved) == multiset(Candidates(data))
  {
    preserved := CollectRegions(data);
    SortByOffsetSorted(preserved);
    preserved := SortByOffset(preserved);
    result := CopyRegions(data, preserved);
  }

  lemma CoveredStep(rs: seq<Region>, i: nat, n: nat)
    requires i < |rs|
    ensures forall k :: Covered(rs[..i + 1], n, k) <==> Covered(rs[..i], n, k) || InRegion(rs[i], n, k)
  {
    assert rs[..i + 1] == rs[..i] + [rs[i]];
  }

  /** An element of the last of three middle parts is an element of the whole. */
  lemma InLastOfThree<T>(m: seq<T>, a: seq<T>, b: seq<T>, c: seq<T>, r: seq<T>, x: T)
    requires x in c
    ensures x in m + (a + b + c) + r
  {
  }

  /** A candidate region is kept wherever it lies inside the data. */
  lemma CandidatePreserved(data: seq<u8>, preserved: seq<Region>, g: Region, k: nat)
    requires multiset(preserved) == multiset(Candidates(data))
    requires g in Candidates(data) && InRegion(g, |data|, k)
    ensures Covered(preserved, |data|, k)
  {
    assert g in multiset(Candidates(data));
    assert g in preserved;
  }

  /** The first 64 bytes (or the whole file if shorter) are always kept. */
  lemma HeaderPreserved(data: seq<u8>, preserved: seq<Region>, k: nat)
    requires multiset(preserved) == multiset(Candidates(data))
    requires k < Min(HEADER_LEN, |data|)
    ensures Covered(preserved, |data|, k)
  {
    var g := Region(0, HEADER_LEN, "Capsule header");
    assert MarkerRegions(data)[0] == g;
    CandidatePreserved(data, preserved, g, k);
  }

  /** Every CCG5 image found is kept in full, as far as the data reaches. */
  lemma Ccg5Preserved(data: seq<u8>, preserved: seq<Region>, i: nat, k: nat)
    requires multiset(preserved) == multiset(Candidates(data))
    requires i < |AllFrom(data, CCG5_NEEDLE, 0)|
    requires AllFrom(data, CCG5_NEEDLE, 0)[i] <= k < Min(AllFrom(data, CCG5_NEEDLE, 0)[i] + CCG5_SIZE, |data|)
    ensures Covered(preserved, |data|, k)
  {
    var ns := Numbered(AllFrom(data, CCG5_NEEDLE, 0), CCG5_SIZE, "CCG5 PD", 1);
    assert ns[i].offset == AllFrom(data, CCG5_NEEDLE, 0)[i] && ns[i].length == CCG5_SIZE;
    ListedKept(preserved, MarkerRegions(data), Numbered(AllFrom(data, CCG8_NEEDLE, 0), CCG8_SIZE, "CCG8 PD", 1),
      Numbered(AllFrom(data, CCG6_NEEDLE, 0), CCG6_SIZE, "CCG6 PD", 1), ns,
      Marker(data, RETIMER_NEEDLE, RETIMER_LEN, "$_RETIMER_PARAM_"), i, |data|, k);
  }

  /** A region listed among the candidates, in the last group of PD images, is kept. */
  lemma ListedKept(preserved: seq<Region>, m: seq<Region>, a: seq<Region>, b: seq<Region>, ns: seq<Region>,
                   r: seq<Region>, i: nat, n: nat, k: nat)
    requires multiset(preserved) == multiset(m + (a + b + ns) + r)
    requires i < |ns| && InRegion(ns[i], n, k)
    ensures Covered(preserved, n, k)
  {
    InLastOfThree(m, a, b, ns, r, ns[i]);
    assert ns[i] in multiset(m + (a + b + ns) + r);
    assert ns[i] in preserved;
  }

  // ---------------------------------------------------------------------
  // Output path

  /**
   * `os.path.splitext` with '/' as separator: the extension starts at the
   * last '.' of the last path component, unless that component is only
   * dots up to it (a leading-dot name such as ".cap" has no extension).
   */
  function SplitExt(p: string): (r: (string, string))
    ensures r.0 + r.1 == p
    ensures r.1 == [] || (r.1[0] == '.' && '/' !in r.1 && '.' !in r.1[1..])
  {
    var sepIndex := LastIndexOf(p, '/');
    var dotIndex := LastIndexOf(p, '.');
    if dotIndex > sepIndex && exists i :: sepIndex + 1 <= i < dotIndex && p[i] != '.' then
      (p[..dotIndex], p[dotIndex..])
    else
      (p, [])
  }

  /** Index of the last `c` in `s`, or -1. */
  function LastIndexOf(s: string, c: char): (r: int)
    ensures -1 <= r < |s| && (r >= 0 ==> s[r] == c)
    ensures forall j :: r < j < |s| ==> s[j] != c
  {
    if s == [] then -1
    else if s[|s| - 1] == c then |s| - 1
    else LastIndexOf(s[..|s| - 1], c)
  }

  /** The default output path of `process_file`: `base + ".sparse" + ext`. */
  function DefaultOutputPath(input: string): (r: string)
  {
    var (base, ext) := SplitExt(input);
    base + ".sparse" + ext
  }

  /**
   * The default output path is never the input path: ".sparse" goes in
   * just before the extension, so "input.cap" becomes "input.sparse.cap".
   */
  lemma DefaultOutputPathInserts(input: string)
    ensures |DefaultOutputPath(input)| == |input| + 7 && DefaultOutputPath(input) != input
    ensures DefaultOutputPath("input.cap") == "input.sparse.cap"
  {
    var (base, ext) := SplitExt(input);
    assert |DefaultOutputPath(input)| == |base| + 7 + |ext|;
    SplitExtExample();
  }

  /** "input.cap" splits at its only dot. */
  lemma SplitExtExample()
    ensures SplitExt("input.cap") == ("input", ".cap")
  {
    var p := "input.cap";
    var slash := LastIndexOf(p, '/');
    assert p == ['i', 'n', 'p', 'u', 't', '.', 'c', 'a', 'p'];
    assert slash == -1 by {
      if slash >= 0 {
        assert false;
      }
    }
    var dot := LastIndexOf(p, '.');
    assert dot == 5 by {
      assert p[5] == '.';
      if dot != 5 {
        assert false;
      }
    }
    assert slash + 1 <= 0 < dot && p[0] != '.';
    assert p[..5] == "input" && p[5..] == ".cap";
    assert SplitExt(p) == ("input", ".cap");
  }
}
