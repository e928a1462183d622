/** A collection (core/collection.go): an ordered list of segments of which only the last one
    takes inserts, the fan-out of document operations over the segments, and the sequential
    merge of per-segment search results. */
module Collections {
  import opened Types
  import opened CoreTypes
  import VecId
  import Vecs
  import Files
  import Engine
  import opened MetadataTable
  import Segments

  // ---------------------------------------------------------------------------------
  // Segment directories

  /** `fmt.Sprintf("segment_%d", id)`. */
  function SegmentDirName(id: nat): string
  {
    "segment_" + Files.DecimalString(id)
  }

  /** `utils.Join(collectionWorkDir, SegmentDirName(id))`, without `path.Join`'s cleaning. */
  function SegmentWorkDir(collectionWorkDir: string, id: nat): string
  {
    collectionWorkDir + "/" + SegmentDirName(id)
  }

  /** The directory a new segment gets is one that reloading keeps, and the number reloading
      reads back from its name is the segment id. */
  lemma SegmentDirNameParses(id: nat)
    requires id < TwoTo64
    ensures Files.IsSegmentDir(Files.DirEntry(SegmentDirName(id), true))
    ensures Files.NumberKey(Files.DirEntry(SegmentDirName(id), true)) == Some(id)
  {
    var digits := Files.DecimalString(id);
    var name := SegmentDirName(id);
    assert forall k :: 0 <= k < |digits| ==> digits[k] != '_' by {
      forall k | 0 <= k < |digits| ensures digits[k] != '_' { assert Files.IsDigit(digits[k]); }
    }
    Files.PartCountOfPair("segment", digits);
    assert name == "segment" + "_" + digits;
    assert forall k :: 0 <= k < |name| && k != 7 ==> name[k] != '_' by {
      forall k | 0 <= k < |name| && k != 7 ensures name[k] != '_' {
        if k > 7 {
          assert name[k] == digits[k - 8];
        }
      }
    }
    assert name[7] == '_';
    var li := Files.LastIndex(name, '_');
    assert li == 7;
    assert name[li + 1..] == digits;
    Files.ParseDecimalString(id);
  }

  // ---------------------------------------------------------------------------------
  // Finding a segment by its id

  /** The position of the first segment with id `id`: the linear search of the lookup. */
  function FindIndex(ids: seq<nat>, id: nat): (r: Option<nat>)
    ensures r.Some? ==> r.value < |ids| && ids[r.value] == id
    ensures r.None? ==> id !in ids
  {
    if ids == [] then None
    else if ids[0] == id then Some(0)
    else
      match FindIndex(ids[1..], id)
      case None => None
      case Some(k) => Some(k + 1)
  }

  predicate Increasing(ids: seq<nat>)
  {
    forall p, q :: 0 <= p < q < |ids| ==> ids[p] < ids[q]
  }

  /** `GetSegmentBySegmentId` as written: when the last id is `len + 1` it takes the id for a
      position (and Go panics when that position is out of range). */
  function LookupAsWritten(ids: seq<nat>, id: nat): (r: Option<nat>)
    requires ids != [] && (ids[|ids| - 1] == |ids| + 1 ==> id < |ids|)
    ensures r.Some? ==> r.value < |ids|
  {
    if ids[|ids| - 1] == |ids| + 1 then Some(id) else FindIndex(ids, id)
  }

  /** With ids 0, 2, 4 (segments 1 and 3 missing) the fast path is taken, and the lookup of
      segment 2 returns the segment at position 2, whose id is 4. */
  lemma LookupAsWrittenWrongSegment()
    ensures LookupAsWritten([0, 2, 4], 2) == Some(2)
    ensures [0, 2, 4][2] == 4
    ensures FindIndex([0, 2, 4], 2) == Some(1)
  {
    assert [0, 2, 4][1..] == [2, 4];
  }

  /** The intended lookup: a position stands for an id only when the ids are exactly
      `0 .. len - 1`, which the last id being `len - 1` tells for increasing ids. */
  function Lookup(ids: seq<nat>, id: nat): (r: Option<nat>)
    requires ids != []
  {
    if ids[|ids| - 1] == |ids| - 1 && id < |ids| then Some(id) else FindIndex(ids, id)
  }

  /** For increasing ids the fast path agrees with the linear search. */
  lemma LookupCorrect(ids: seq<nat>, id: nat)
    requires ids != [] && Increasing(ids)
    ensures Lookup(ids, id) == FindIndex(ids, id)
  {
    var n := |ids|;
    if ids[n - 1] == n - 1 && id < n {
      IncreasingGap(ids, 0, id);
      IncreasingGap(ids, id, n - 1);
      assert ids[id] == id;
      var f := FindIndex(ids, id);
      assert f.Some? && ids[f.value] == ids[id];
    }
  }

  /** Increasing naturals grow by at least one per position. */
  lemma {:induction false} IncreasingGap(ids: seq<nat>, p: nat, q: nat)
    requires Increasing(ids) && p <= q < |ids|
    ensures ids[q] - ids[p] >= q - p
  {
    if p < q {
      IncreasingGap(ids, p, q - 1);
      assert ids[q - 1] < ids[q];
    }
  }

  // ---------------------------------------------------------------------------------
  // Views of the segment list

  /** The ids of a list of segments. */
  function SegmentIds(segs: seq<Segments.Segment>): (r: seq<nat>)
    ensures |r| == |segs|
    ensures forall i :: 0 <= i < |segs| ==> r[i] == segs[i].segmentId
  {
    seq(|segs|, i requires 0 <= i < |segs| => segs[i].segmentId)
  }

  /** The document tables of a list of segments. */
  ghost function TablesOf(segs: seq<Segments.Segment>): (r: seq<seq<Slot>>)
    reads set s | s in segs :: s.table
    ensures |r| == |segs|
    ensures forall i :: 0 <= i < |segs| ==> r[i] == segs[i].table.metadata
  {
    if segs == [] then [] else TablesOf(segs[..|segs| - 1]) + [segs[|segs| - 1].table.metadata]
  }

  /** The sealed segments, in list order. */
  function SealedOf(segs: seq<Segments.Segment>): (r: seq<Segments.Segment>)
    reads segs
    ensures |r| <= |segs|
    ensures forall t :: 0 <= t < |r| ==> r[t] in segs && r[t].sealed
    ensures forall i :: 0 <= i < |segs| && segs[i].sealed ==> segs[i] in r
  {
    if segs == [] then []
    else
      var last := segs[|segs| - 1];
      SealedOf(segs[..|segs| - 1]) + if last.sealed then [last] else []
  }

  /** Every segment except the last one is sealed. */
  ghost predicate AllButLastSealed(segs: seq<Segments.Segment>)
    reads segs
  {
    forall i :: 0 <= i < |segs| - 1 ==> segs[i].sealed
  }

  /** A segment added after all the others are sealed is the only one that may be unsealed. */
  lemma AllSealedSnoc(segs: seq<Segments.Segment>, seg: Segments.Segment)
    requires forall i :: 0 <= i < |segs| ==> segs[i].sealed
    ensures AllButLastSealed(segs + [seg])
  {
    assert forall i :: 0 <= i < |segs| ==> (segs + [seg])[i] == segs[i];
  }

  /** When only the last segment may be unsealed, the sealed ones are all but the last, and the
      last too when it is sealed. */
  lemma SealedOfAllButLast(segs: seq<Segments.Segment>)
    requires segs != [] && AllButLastSealed(segs)
    ensures SealedOf(segs) == segs[..|segs| - 1] + if segs[|segs| - 1].sealed then [segs[|segs| - 1]] else []
  {
    SealedOfAllSealed(segs[..|segs| - 1]);
  }

  lemma {:induction false} SealedOfAllSealed(segs: seq<Segments.Segment>)
    requires forall i :: 0 <= i < |segs| ==> segs[i].sealed
    ensures SealedOf(segs) == segs
  {
    if segs != [] {
      SealedOfAllSealed(segs[..|segs| - 1]);
    }
  }

  /** What `IsSearchable` answers for a segment whose engine reports `raw`. */
  predicate SearchableState(seg: Segments.Segment, raw: Engine.RawStats)
    reads seg
  {
    seg.index != null && raw.indexSize > 0 && (raw.status == 3 || raw.status == 4 || raw.status == 6)
  }

  /** The searchable segments, in list order; `raws[i]` is what segment `i`'s engine reports. */
  function SearchableOf(segs: seq<Segments.Segment>, raws: seq<Engine.RawStats>): (r: seq<Segments.Segment>)
    requires |raws| == |segs|
    reads segs
    ensures |r| <= |segs|
    ensures forall t :: 0 <= t < |r| ==> r[t] in segs
    ensures forall i :: 0 <= i < |segs| && SearchableState(segs[i], raws[i]) ==> segs[i] in r
  {
    if segs == [] then []
    else
      var n := |segs|;
      SearchableOf(segs[..n - 1], raws[..n - 1]) + if SearchableState(segs[n - 1], raws[n - 1]) then [segs[n - 1]] else []
  }

  // ---------------------------------------------------------------------------------
  // Fan-out of document operations over the tables of the segments

  /** The number of tables holding a live record with `vqid`: what deleting it reports. */
  function DeletedCount(ts: seq<seq<Slot>>, vqid: string): (r: nat)
    ensures r <= |ts|
  {
    if ts == [] then 0
    else (if FirstLive(ts[0], vqid).Some? then 1 else 0) + DeletedCount(ts[1..], vqid)
  }

  /** The number of live records with `vqid` over all tables: what updating it reports. */
  function UpdatedCount(ts: seq<seq<Slot>>, vqid: string): nat
  {
    if ts == [] then 0 else CountLive(ts[0], vqid) + UpdatedCount(ts[1..], vqid)
  }

  lemma DeletedCountStep(ts: seq<seq<Slot>>, k: nat, vqid: string)
    requires k < |ts|
    ensures DeletedCount(ts[k..], vqid) == (if FirstLive(ts[k], vqid).Some? then 1 else 0) + DeletedCount(ts[k + 1..], vqid)
  {
    assert ts[k..][1..] == ts[k + 1..];
  }

  lemma UpdatedCountStep(ts: seq<seq<Slot>>, k: nat, vqid: string)
    requires k < |ts|
    ensures UpdatedCount(ts[k..], vqid) == CountLive(ts[k], vqid) + UpdatedCount(ts[k + 1..], vqid)
  {
    assert ts[k..][1..] == ts[k + 1..];
  }

  /** A table counts for a delete only when it has a live match, which it counts for an update
      too, so a delete never reports more than an update would. */
  lemma {:induction false} DeletedAtMostUpdated(ts: seq<seq<Slot>>, vqid: string)
    ensures DeletedCount(ts, vqid) <= UpdatedCount(ts, vqid)
    ensures DeletedCount(ts, vqid) == 0 <==> UpdatedCount(ts, vqid) == 0
  {
    if ts != [] {
      CountLivePositive(ts[0], vqid);
      DeletedAtMostUpdated(ts[1..], vqid);
    }
  }

  /** The update count is the count over all the tables laid end to end. */
  lemma {:induction false} UpdatedCountFlatten(ts: seq<seq<Slot>>, vqid: string)
    ensures UpdatedCount(ts, vqid) == CountLive(Vecs.Flatten(ts), vqid)
  {
    if ts != [] {
      UpdatedCountFlatten(ts[1..], vqid);
      assert ts == [ts[0]] + ts[1..];
      Vecs.FlattenConcat([ts[0]], ts[1..]);
      assert Vecs.Flatten([ts[0]]) == ts[0] by {
        assert [ts[0]][..0] == [];
      }
      CountLiveConcat(ts[0], Vecs.Flatten(ts[1..]), vqid);
    }
  }

  lemma {:induction false} CountLiveConcat(a: seq<Slot>, b: seq<Slot>, vqid: string)
    ensures CountLive(a + b, vqid) == CountLive(a, vqid) + CountLive(b, vqid)
  {
    if b != [] {
      CountLiveConcat(a, b[..|b| - 1], vqid);
      assert (a + b)[..|a + b| - 1] == a + b[..|b| - 1];
    } else {
      assert a + b == a;
    }
  }

  /** What one segment contributes to a metadata lookup: all live matches, or the first one. */
  function SegmentMatches(t: seq<Slot>, vqid: string, checkDuplicate: bool): seq<Metadata>
  {
    if checkDuplicate then LiveMatches(t, vqid)
    else
      match FirstLive(t, vqid)
      case None => []
      case Some(i) => [t[i].value]
  }

  /** Records of one segment labelled with its id. */
  function Labelled(ms: seq<Metadata>, segmentId: nat): (r: seq<DocumentMetadataResult>)
    ensures |r| == |ms|
    ensures forall k :: 0 <= k < |ms| ==> r[k] == DocumentMetadataResult(ms[k].vqid, ms[k].data, segmentId)
  {
    seq(|ms|, k requires 0 <= k < |ms| => DocumentMetadataResult(ms[k].vqid, ms[k].data, segmentId))
  }

  /** The metadata lookup over the segments: every segment's matches in turn, stopping after the
      first segment that has one unless duplicates are asked for. */
  function Gathered(ids: seq<nat>, ts: seq<seq<Slot>>, vqid: string, checkDuplicate: bool): seq<DocumentMetadataResult>
    requires |ids| == |ts|
  {
    if ts == [] then []
    else
      var found := SegmentMatches(ts[0], vqid, checkDuplicate);
      if found == [] then Gathered(ids[1..], ts[1..], vqid, checkDuplicate)
      else if checkDuplicate then Labelled(found, ids[0]) + Gathered(ids[1..], ts[1..], vqid, checkDuplicate)
      else Labelled(found, ids[0])
  }

  /** One step of `Gathered` from position `k` on. */
  lemma GatheredStep(ids: seq<nat>, ts: seq<seq<Slot>>, vqid: string, checkDuplicate: bool, k: nat)
    requires |ids| == |ts| && k < |ts|
    ensures var found := SegmentMatches(ts[k], vqid, checkDuplicate);
            Gathered(ids[k..], ts[k..], vqid, checkDuplicate) ==
              if found == [] then Gathered(ids[k + 1..], ts[k + 1..], vqid, checkDuplicate)
              else if checkDuplicate then Labelled(found, ids[k]) + Gathered(ids[k + 1..], ts[k + 1..], vqid, checkDuplicate)
              else Labelled(found, ids[k])
  {
    assert ids[k..][1..] == ids[k + 1..] && ts[k..][1..] == ts[k + 1..];
  }

  /** With duplicates asked for, the lookup returns one result per live match: as many as an
      update of the same vqid counts. */
  lemma {:induction false} GatheredAll(ids: seq<nat>, ts: seq<seq<Slot>>, vqid: string)
    requires |ids| == |ts|
    ensures |Gathered(ids, ts, vqid, true)| == UpdatedCount(ts, vqid)
    ensures forall k :: 0 <= k < |Gathered(ids, ts, vqid, true)| ==> Gathered(ids, ts, vqid, true)[k].vqid == vqid
  {
    if ts != [] {
      GatheredAll(ids[1..], ts[1..], vqid);
    }
  }

  /** Without duplicates, the lookup returns at most one result, and one exactly when some
      segment holds a live match. */
  lemma {:induction false} GatheredFirst(ids: seq<nat>, ts: seq<seq<Slot>>, vqid: string)
    requires |ids| == |ts|
    ensures |Gathered(ids, ts, vqid, false)| <= 1
    ensures Gathered(ids, ts, vqid, false) != [] <==> exists k :: 0 <= k < |ts| && FirstLive(ts[k], vqid).Some?
    ensures Gathered(ids, ts, vqid, false) != [] ==> Gathered(ids, ts, vqid, false)[0].vqid == vqid
  {
    if ts != [] {
      GatheredFirst(ids[1..], ts[1..], vqid);
      if exists k :: 0 <= k < |ts[1..]| && FirstLive(ts[1..][k], vqid).Some? {
        var k :| 0 <= k < |ts[1..]| && FirstLive(ts[1..][k], vqid).Some?;
        assert FirstLive(ts[k + 1], vqid).Some?;
      }
      if exists k :: 0 <= k < |ts| && FirstLive(ts[k], vqid).Some? {
        var k :| 0 <= k < |ts| && FirstLive(ts[k], vqid).Some?;
        if k > 0 {
          assert FirstLive(ts[1..][k - 1], vqid).Some?;
        }
      }
    }
  }

  // ---------------------------------------------------------------------------------
  // Statistics

  function SumIndexSize(ss: seq<SegmentStatistics>): int
  {
    if ss == [] then 0 else SumIndexSize(ss[..|ss| - 1]) + ss[|ss| - 1].indexStatistics.indexSize
  }

  function SumVectorCount(ss: seq<SegmentStatistics>): int
  {
    if ss == [] then 0 else SumVectorCount(ss[..|ss| - 1]) + ss[|ss| - 1].vectorCount
  }

  function SumDocCount(ss: seq<SegmentStatistics>): int
  {
    if ss == [] then 0 else SumDocCount(ss[..|ss| - 1]) + ss[|ss| - 1].docCount
  }

  /** The loop of `Collection.Statistics`: each segment's statistics in list order, and the
      three running totals. */
  method SegmentsStatistics(segs: seq<Segments.Segment>, raws: seq<Engine.RawStats>)
    returns (stats: seq<SegmentStatistics>, totalIndexSize: int, vectorCount: int, docCount: int)
    requires |raws| == |segs|
    requires forall i :: 0 <= i < |segs| ==> segs[i].index != null
    ensures |stats| == |segs|
    ensures forall i :: 0 <= i < |segs| ==>
              stats[i] == SegmentStatistics(segs[i].segmentId, segs[i].sealed, segs[i].dim,
                                            Engine.Statistics(raws[i]), raws[i].vidSize,
                                            |segs[i].table.metadata|)
    ensures totalIndexSize == SumIndexSize(stats)
    ensures vectorCount == SumVectorCount(stats) && docCount == SumDocCount(stats)
  {
    stats, totalIndexSize, vectorCount, docCount := [], 0, 0, 0;
    var k := 0;
    while k < |segs|
      invariant 0 <= k <= |segs| && |stats| == k
      invariant forall i :: 0 <= i < k ==>
                  stats[i] == SegmentStatistics(segs[i].segmentId, segs[i].sealed, segs[i].dim,
                                                Engine.Statistics(raws[i]), raws[i].vidSize,
                                                |segs[i].table.metadata|)
      invariant totalIndexSize == SumIndexSize(stats)
      invariant vectorCount == SumVectorCount(stats) && docCount == SumDocCount(stats)
    {
      var segmentStatistics := segs[k].Statistics(raws[k]);
      var s := segmentStatistics.value;
      SumsSnoc(stats, s);
      stats := stats + [s];
      totalIndexSize := totalIndexSize + s.indexStatistics.indexSize;
      vectorCount := vectorCount + s.vectorCount;
      docCount := docCount + s.docCount;
      k := k + 1;
    }
  }

  /** Appending one segment's statistics adds its figures to each sum. */
  lemma SumsSnoc(ss: seq<SegmentStatistics>, x: SegmentStatistics)
    ensures SumIndexSize(ss + [x]) == SumIndexSize(ss) + x.indexStatistics.indexSize
    ensures SumVectorCount(ss + [x]) == SumVectorCount(ss) + x.vectorCount
    ensures SumDocCount(ss + [x]) == SumDocCount(ss) + x.docCount
  {
    assert (ss + [x])[..|ss|] == ss;
  }

  /** The document count of a collection is the number of slots of its tables, tombstones
      included. */
  lemma {:induction false} DocCountIsSlots(ss: seq<SegmentStatistics>, ts: seq<seq<Slot>>)
    requires |ss| == |ts| && forall i :: 0 <= i < |ss| ==> ss[i].docCount == |ts[i]|
    ensures SumDocCount(ss) == TotalLength(ts)
  {
    if ss != [] {
      DocCountIsSlots(ss[..|ss| - 1], ts[..|ts| - 1]);
    }
  }

  /** What `Collection.Statistics` reports for `col` when its segments' engines report `raws`:
      one record per segment in list order, their number, and the sums of their figures. */
  /** What a collection's statistics read: the collection, its segments and their tables. */
  ghost function StatsFootprint(col: Collection): set<object>
    reads col
  {
    {col as object} + (set s | s in col.segments :: s as object) + (set s | s in col.segments :: s.table as object)
  }

  ghost predicate StatsOf(col: Collection, raws: seq<Engine.RawStats>, r: CollectionStatistics)
    reads StatsFootprint(col)
  {
    && |raws| == |col.segments|
    && r.collectionName == col.name && r.segmentCount == |col.segments| && |r.segments| == |col.segments|
    && (forall i :: 0 <= i < |col.segments| ==>
          r.segments[i] == SegmentStatistics(col.segments[i].segmentId, col.segments[i].sealed, col.segments[i].dim,
                                             Engine.Statistics(raws[i]), raws[i].vidSize,
                                             |col.segments[i].table.metadata|))
    && r.totalIndexSize == SumIndexSize(r.segments)
    && r.vectorCount == SumVectorCount(r.segments) && r.docCount == SumDocCount(r.segments)
  }

  /** A collection's reported document count is the number of slots of its segments' tables,
      tombstones included. */
  lemma StatsDocCount(col: Collection, raws: seq<Engine.RawStats>, r: CollectionStatistics)
    requires StatsOf(col, raws, r)
    ensures r.docCount == TotalLength(TablesOf(col.segments))
  {
    DocCountIsSlots(r.segments, TablesOf(col.segments));
  }

  // ---------------------------------------------------------------------------------
  // Merging search results

  /** Hits sorted by score, best first. */
  predicate SortedDesc(s: seq<Engine.VidScore>)
  {
    forall p, q :: 0 <= p < q < |s| ==> s[p].score >= s[q].score
  }

  /** Results sorted by score, best first. */
  predicate ResultsDesc(s: seq<SearchResult>)
  {
    forall p, q :: 0 <= p < q < |s| ==> s[p].score >= s[q].score
  }

  /** Query `i`'s hits from every segment's result list. */
  function Column(temp: seq<seq<seq<Engine.VidScore>>>, i: nat): (r: seq<seq<Engine.VidScore>>)
    requires forall j :: 0 <= j < |temp| ==> i < |temp[j]|
    ensures |r| == |temp|
    ensures forall j :: 0 <= j < |temp| ==> r[j] == temp[j][i]
  {
    seq(|temp|, j requires 0 <= j < |temp| => temp[j][i])
  }

  /** How many hits a query keeps: `topK` when `0 < topK < n`, all `n` otherwise. */
  function Kept(topK: int, n: nat): (r: nat)
    ensures r <= n
  {
    if 0 < topK < n then topK else n
  }

  /** `row` is what the merge keeps of `all`: `Kept` of its hits, best first, none of those
      left out scoring higher than one kept. */
  predicate IsTopK(all: seq<Engine.VidScore>, topK: int, row: seq<Engine.VidScore>)
  {
    && |row| == Kept(topK, |all|)
    && SortedDesc(row)
    && multiset(row) <= multiset(all)
    && forall x, y :: x in multiset(all) - multiset(row) && y in row ==> x.score <= y.score
  }

  /** Without truncation the merge keeps every hit. */
  lemma TopKKeepsAll(all: seq<Engine.VidScore>, topK: int, row: seq<Engine.VidScore>)
    requires IsTopK(all, topK, row) && !(0 < topK < |all|)
    ensures multiset(row) == multiset(all)
  {
    var d := multiset(all) - multiset(row);
    assert multiset(all) == multiset(row) + d;
    assert |d| == 0;
  }

  /** The prefix of a sorted list holds its best entries. */
  lemma TopOfSorted(s: seq<Engine.VidScore>, n: nat)
    requires SortedDesc(s) && n <= |s|
    ensures forall x, y :: x in multiset(s) - multiset(s[..n]) && y in s[..n] ==> x.score <= y.score
  {
    assert s == s[..n] + s[n..];
    assert multiset(s) - multiset(s[..n]) == multiset(s[n..]);
    forall x, y | x in multiset(s) - multiset(s[..n]) && y in s[..n]
      ensures x.score <= y.score
    {
      assert x in s[n..];
      var q :| n <= q < |s| && s[q] == x;
      var p :| 0 <= p < n && s[p] == y;
    }
  }

  /** The first `Kept` hits of a best-first ordering of `all` are its top hits. */
  lemma SortedPrefixIsTopK(all: seq<Engine.VidScore>, s: seq<Engine.VidScore>, topK: int, n: nat)
    requires SortedDesc(s) && multiset(s) == multiset(all) && n == Kept(topK, |s|)
    ensures IsTopK(all, topK, s[..n])
  {
    assert |s| == |multiset(s)| == |all|;
    TopOfSorted(s, n);
    PrefixSubMultiset(s, n);
  }

  lemma PrefixSubMultiset<T>(s: seq<T>, n: nat)
    requires n <= |s|
    ensures multiset(s[..n]) <= multiset(s)
  {
    assert s == s[..n] + s[n..];
  }

  /** Sort hits by score, best first, in place (`sort.Slice` whose comparator is `>` on
      scores; an insertion sort stands for its unspecified algorithm). */
  method SortByScoreDesc(a: array<Engine.VidScore>)
    modifies a
    ensures multiset(a[..]) == multiset(old(a[..]))
    ensures SortedDesc(a[..])
  {
    ghost var elems := set k | 0 <= k < a.Length :: a[k];
    Files.InsertionSort(a, (x: Engine.VidScore, y: Engine.VidScore) => x.score > y.score,
                        (v: Engine.VidScore) => -v.score, elems, true);
  }

  /** The hits of query `i` from every segment, segment by segment. */
  method GatherColumn(temp: seq<seq<seq<Engine.VidScore>>>, i: nat) returns (merged: seq<Engine.VidScore>)
    requires forall j :: 0 <= j < |temp| ==> i < |temp[j]|
    ensures merged == Vecs.Flatten(Column(temp, i))
  {
    merged := [];
    var j := 0;
    while j < |temp|
      invariant 0 <= j <= |temp|
      invariant merged == Vecs.Flatten(Column(temp[..j], i))
    {
      assert Column(temp[..j + 1], i)[..j] == Column(temp[..j], i);
      merged := merged + temp[j][i];
      j := j + 1;
    }
    assert temp[..|temp|] == temp;
  }

  /** The merge of query `i`: its hits from all segments appended, sorted and cut to `topK`. */
  method MergeRow(temp: seq<seq<seq<Engine.VidScore>>>, i: nat, topK: int) returns (row: seq<Engine.VidScore>)
    requires forall j :: 0 <= j < |temp| ==> i < |temp[j]|
    ensures IsTopK(Vecs.Flatten(Column(temp, i)), topK, row)
  {
    var merged := GatherColumn(temp, i);
    var a := new Engine.VidScore[|merged|](k requires 0 <= k < |merged| => merged[k]);
    assert a[..] == merged;
    SortByScoreDesc(a);
    var n := Kept(topK, a.Length);
    row := a[..n];
    SortedPrefixIsTopK(merged, a[..], topK, n);
  }

  /** What the merge needs of a hit: a valid `int64` id that decodes to a non-negative slot,
      from a segment of the collection. */
  predicate HitValid(ids: seq<nat>, h: Engine.VidScore)
  {
    IsInt64(h.vid) && VecId.DecodeVectorId(h.vid).0 >= 0 && h.from in ids
  }

  predicate HitsValid(ids: seq<nat>, hits: seq<Engine.VidScore>)
  {
    forall t :: 0 <= t < |hits| ==> HitValid(ids, hits[t])
  }

  lemma {:induction false} FlattenHitsValid(ids: seq<nat>, rows: seq<seq<Engine.VidScore>>)
    requires forall j :: 0 <= j < |rows| ==> HitsValid(ids, rows[j])
    ensures HitsValid(ids, Vecs.Flatten(rows))
  {
    if rows != [] {
      FlattenHitsValid(ids, rows[..|rows| - 1]);
      assert HitsValid(ids, rows[|rows| - 1]);
    }
  }

  /** The hits the merge keeps come from the segments' lists, so they are valid too. */
  lemma TopKHitsValid(ids: seq<nat>, temp: seq<seq<seq<Engine.VidScore>>>, i: nat, topK: int, row: seq<Engine.VidScore>)
    requires forall j :: 0 <= j < |temp| ==> i < |temp[j]| && HitsValid(ids, temp[j][i])
    requires IsTopK(Vecs.Flatten(Column(temp, i)), topK, row)
    ensures HitsValid(ids, row)
  {
    var all := Vecs.Flatten(Column(temp, i));
    FlattenHitsValid(ids, Column(temp, i));
    forall t | 0 <= t < |row|
      ensures HitValid(ids, row[t])
    {
      assert row[t] in multiset(row);
      assert row[t] in all;
    }
  }

  /** The slot a hit points to: the slot its vector id decodes to, in the table of the segment
      the hit came from (nothing past the end of the table). */
  function HitSlot(ids: seq<nat>, ts: seq<seq<Slot>>, h: Engine.VidScore): Slot
    requires |ids| == |ts| && HitValid(ids, h)
  {
    var i := FindIndex(ids, h.from).value;
    var docId := VecId.DecodeVectorId(h.vid).0;
    if docId < |ts[i]| then ts[i][docId] else None
  }

  /** The search result of a hit: none for a deleted document or metadata that does not parse
      (`parses` stands for `json.Unmarshal` succeeding). */
  function ResolveHit(ids: seq<nat>, ts: seq<seq<Slot>>, h: Engine.VidScore, parses: Bytes -> bool): (r: Option<SearchResult>)
    requires |ids| == |ts| && HitValid(ids, h)
    ensures r.Some? ==> r.value.score == h.score && r.value.tag == VecId.DecodeVectorId(h.vid).1
    ensures r.Some? <==> HitSlot(ids, ts, h).Some? && parses(HitSlot(ids, ts, h).value.data)
  {
    var slot := HitSlot(ids, ts, h);
    if slot.None? || !parses(slot.value.data) then None
    else Some(SearchResult(slot.value.vqid, h.score, slot.value.data, VecId.DecodeVectorId(h.vid).1))
  }

  /** The search results of a list of hits, in hit order. */
  function Resolve(ids: seq<nat>, ts: seq<seq<Slot>>, hits: seq<Engine.VidScore>, parses: Bytes -> bool): (r: seq<SearchResult>)
    requires |ids| == |ts| && HitsValid(ids, hits)
    ensures |r| <= |hits|
  {
    if hits == [] then []
    else
      var n := |hits|;
      var h := ResolveHit(ids, ts, hits[n - 1], parses);
      Resolve(ids, ts, hits[..n - 1], parses) + if h.Some? then [h.value] else []
  }

  /** Dropping deleted documents keeps the order: hits best first give results best first, none
      better than the first hit nor worse than the last. */
  lemma {:induction false} ResolveSorted(ids: seq<nat>, ts: seq<seq<Slot>>, hits: seq<Engine.VidScore>, parses: Bytes -> bool)
    requires |ids| == |ts| && HitsValid(ids, hits) && SortedDesc(hits)
    ensures ResultsDesc(Resolve(ids, ts, hits, parses))
    ensures hits != [] ==> forall t :: 0 <= t < |Resolve(ids, ts, hits, parses)| ==>
              hits[0].score >= Resolve(ids, ts, hits, parses)[t].score >= hits[|hits| - 1].score
  {
    if hits != [] {
      var n := |hits|;
      var front := hits[..n - 1];
      ResolveLast(ids, ts, hits, parses, front, hits[n - 1]);
      ResolveSorted(ids, ts, front, parses);
      if n > 1 {
        assert front[0] == hits[0] && front[n - 2] == hits[n - 2];
      }
    }
  }

  /** When every hit's document is live and parses, each hit gives exactly its result. */
  lemma {:induction false} ResolveAllLive(ids: seq<nat>, ts: seq<seq<Slot>>, hits: seq<Engine.VidScore>, parses: Bytes -> bool)
    requires |ids| == |ts| && HitsValid(ids, hits)
    requires forall t :: 0 <= t < |hits| ==> HitSlot(ids, ts, hits[t]).Some? && parses(HitSlot(ids, ts, hits[t]).value.data)
    ensures |Resolve(ids, ts, hits, parses)| == |hits|
    ensures forall t :: 0 <= t < |hits| ==> Resolve(ids, ts, hits, parses)[t] == ResolveHit(ids, ts, hits[t], parses).value
  {
    if hits != [] {
      var front := hits[..|hits| - 1];
      var last := hits[|hits| - 1];
      ResolveLast(ids, ts, hits, parses, front, last);
      ResolveAllLive(ids, ts, front, parses);
      var r := Resolve(ids, ts, hits, parses);
      var rf := Resolve(ids, ts, front, parses);
      assert ResolveHit(ids, ts, last, parses).Some?;
      forall t | 0 <= t < |hits|
        ensures r[t] == ResolveHit(ids, ts, hits[t], parses).value
      {
        if t < |front| {
          assert r[t] == rf[t] && front[t] == hits[t];
        }
      }
    }
  }

  /** The last hit's result, if any, comes after the results of the others. */
  lemma ResolveLast(ids: seq<nat>, ts: seq<seq<Slot>>, hits: seq<Engine.VidScore>, parses: Bytes -> bool,
                    front: seq<Engine.VidScore>, last: Engine.VidScore)
    requires |ids| == |ts| && HitsValid(ids, hits) && hits != []
    requires front == hits[..|hits| - 1] && last == hits[|hits| - 1]
    ensures HitsValid(ids, front) && HitValid(ids, last)
    ensures Resolve(ids, ts, hits, parses) == Resolve(ids, ts, front, parses) +
              if ResolveHit(ids, ts, last, parses).Some? then [ResolveHit(ids, ts, last, parses).value] else []
  {
    assert forall t :: 0 <= t < |front| ==> front[t] == hits[t];
  }

  /** When no hit's document is live, the query has no results. */
  lemma {:induction false} ResolveNoneLive(ids: seq<nat>, ts: seq<seq<Slot>>, hits: seq<Engine.VidScore>, parses: Bytes -> bool)
    requires |ids| == |ts| && HitsValid(ids, hits)
    requires forall t :: 0 <= t < |hits| ==> HitSlot(ids, ts, hits[t]).None?
    ensures Resolve(ids, ts, hits, parses) == []
  {
    if hits != [] {
      var front := hits[..|hits| - 1];
      ResolveLast(ids, ts, hits, parses, front, hits[|hits| - 1]);
      ResolveNoneLive(ids, ts, front, parses);
    }
  }

  /** Resolving the first `t + 1` hits is resolving the first `t` and then hit `t`. */
  lemma ResolvePrefix(ids: seq<nat>, ts: seq<seq<Slot>>, hits: seq<Engine.VidScore>, parses: Bytes -> bool, t: nat)
    requires |ids| == |ts| && HitsValid(ids, hits) && t <= |hits|
    ensures HitsValid(ids, hits[..t]) && hits[..|hits|] == hits
    ensures t < |hits| ==> (HitsValid(ids, hits[..t + 1]) &&
              Resolve(ids, ts, hits[..t + 1], parses) == Resolve(ids, ts, hits[..t], parses) +
                if ResolveHit(ids, ts, hits[t], parses).Some? then [ResolveHit(ids, ts, hits[t], parses).value] else [])
  {
    assert forall k :: 0 <= k < t ==> hits[..t][k] == hits[k];
    if t < |hits| {
      ResolveLast(ids, ts, hits[..t + 1], parses, hits[..t], hits[t]);
    }
  }

  /** One more query's results, resolved in order. */
  lemma ResolvedSnoc(ids: seq<nat>, ts: seq<seq<Slot>>, rows: seq<seq<Engine.VidScore>>, parses: Bytes -> bool,
                     results: seq<seq<SearchResult>>, res: seq<SearchResult>)
    requires |ids| == |ts| && |results| < |rows|
    requires forall k :: 0 <= k < |rows| ==> HitsValid(ids, rows[k])
    requires forall k :: 0 <= k < |results| ==> results[k] == Resolve(ids, ts, rows[k], parses)
    requires res == Resolve(ids, ts, rows[|results|], parses)
    ensures forall k :: 0 <= k < |results| + 1 ==> (results + [res])[k] == Resolve(ids, ts, rows[k], parses)
  {
  }

  // ---------------------------------------------------------------------------------
  // The collection

  /** The tables of distinct segments are distinct objects. */
  predicate DistinctTables(segs: seq<Segments.Segment>)
  {
    forall p, q :: 0 <= p < q < |segs| ==> segs[p].table != segs[q].table
  }

  /** The delete fan-out: each segment in turn tombstones its first live record with `vqid`. */
  method DeleteInAll(segs: seq<Segments.Segment>, vqid: string) returns (deletedCount: int)
    requires DistinctTables(segs)
    modifies set s | s in segs :: s.table
    ensures deletedCount == DeletedCount(old(TablesOf(segs)), vqid)
    ensures forall i :: 0 <= i < |segs| ==>
              segs[i].table.metadata == DeleteFirst(old(segs[i].table.metadata), vqid)
  {
    ghost var before := TablesOf(segs);
    deletedCount := 0;
    var k := 0;
    while k < |segs|
      invariant 0 <= k <= |segs| == |before|
      invariant deletedCount + DeletedCount(before[k..], vqid) == DeletedCount(before, vqid)
      invariant forall i :: 0 <= i < k ==> segs[i].table.metadata == DeleteFirst(before[i], vqid)
      invariant forall i :: k <= i < |segs| ==> segs[i].table.metadata == before[i]
    {
      DeletedCountStep(before, k, vqid);
      var deleted := segs[k].DeleteDocument(vqid);
      deletedCount := deletedCount + if deleted then 1 else 0;
      k := k + 1;
    }
  }

  /** The update fan-out: each segment in turn updates its live records with the vqid. */
  method UpdateInAll(segs: seq<Segments.Segment>, doc: UpdateDocumentMetadataRequest) returns (updatedCount: int)
    requires DistinctTables(segs)
    modifies set s | s in segs :: s.table
    ensures updatedCount == UpdatedCount(old(TablesOf(segs)), doc.vqid)
    ensures forall i :: 0 <= i < |segs| ==>
              segs[i].table.metadata == UpdateData(old(segs[i].table.metadata), doc.vqid, doc.metadata)
  {
    ghost var before := TablesOf(segs);
    updatedCount := 0;
    var k := 0;
    while k < |segs|
      invariant 0 <= k <= |segs| == |before|
      invariant updatedCount + UpdatedCount(before[k..], doc.vqid) == UpdatedCount(before, doc.vqid)
      invariant forall i :: 0 <= i < k ==>
                  segs[i].table.metadata == UpdateData(before[i], doc.vqid, doc.metadata)
      invariant forall i :: k <= i < |segs| ==> segs[i].table.metadata == before[i]
    {
      UpdatedCountStep(before, k, doc.vqid);
      var segmentUpdatedCount := segs[k].UpdateDocumentMetadata(doc);
      updatedCount := updatedCount + segmentUpdatedCount;
      k := k + 1;
    }
  }

  /** The loop of `Collection.GetDocumentMetadata` over `segs`, whose ids and tables are `ids`
      and `ts`. */
  method GatherMatches(segs: seq<Segments.Segment>, vqid: string, checkDuplicate: bool,
                       ghost ids: seq<nat>, ghost ts: seq<seq<Slot>>)
    returns (docMetadataList: seq<DocumentMetadataResult>)
    requires |ids| == |ts| == |segs|
    requires forall i :: 0 <= i < |segs| ==> ids[i] == segs[i].segmentId && ts[i] == segs[i].table.metadata
    ensures docMetadataList == Gathered(ids, ts, vqid, checkDuplicate)
  {
    docMetadataList := [];
    var k := 0;
    while k < |segs|
      invariant 0 <= k <= |segs|
      invariant !checkDuplicate ==> docMetadataList == []
      invariant Gathered(ids, ts, vqid, checkDuplicate) == docMetadataList + Gathered(ids[k..], ts[k..], vqid, checkDuplicate)
    {
      GatheredStep(ids, ts, vqid, checkDuplicate, k);
      ghost var rest := Gathered(ids[k + 1..], ts[k + 1..], vqid, checkDuplicate);
      var seg := segs[k];
      var segmentDocMetadataList := seg.GetDocumentMetadata(vqid, checkDuplicate);
      assert segmentDocMetadataList == SegmentMatches(ts[k], vqid, checkDuplicate);
      if |segmentDocMetadataList| == 0 {
        assert Gathered(ids[k..], ts[k..], vqid, checkDuplicate) == rest;
        k := k + 1;
        continue;
      }
      var labelled := Labelled(segmentDocMetadataList, seg.segmentId);
      ghost var before := docMetadataList;
      docMetadataList := docMetadataList + labelled;
      if !checkDuplicate {
        assert Gathered(ids[k..], ts[k..], vqid, checkDuplicate) == labelled;
        return;
      }
      assert Gathered(ids[k..], ts[k..], vqid, checkDuplicate) == labelled + rest;
      assert before + (labelled + rest) == docMetadataList + rest;
      k := k + 1;
    }
  }

  /** `Collection`. */
  class Collection {
    const name: string
    var segments: seq<Segments.Segment>
    const indexType: string
    /** The id the next segment gets: a `uint64`. */
    var maxSegmentId: nat
    const workDir: string
    var dim: int

    /** Every segment is consistent with its index, ids increase along the list and no two
        segments share a table. */
    ghost predicate Ordered()
      reads this, segments
    {
      && (forall i :: 0 <= i < |segments| ==> segments[i].Valid())
      && Increasing(SegmentIds(segments))
      && DistinctTables(segments)
    }

    /** ... and every id is below the id the next segment gets. */
    ghost predicate Valid()
      reads this, segments
    {
      && Ordered()
      && maxSegmentId < TwoTo64
      && forall i :: 0 <= i < |segments| ==> segments[i].segmentId < maxSegmentId
    }

    /** The collection `NewCollection` builds: no segments yet, the next id 0. */
    constructor (name: string, workDir: string, dim: int)
      ensures Valid()
      ensures this.name == name && this.workDir == workDir && this.dim == dim
      ensures segments == [] && maxSegmentId == 0 && indexType == "ScaNN"
    {
      this.name := name;
      this.workDir := workDir;
      this.dim := dim;
      indexType := "ScaNN";
      maxSegmentId := 0;
      segments := [];
    }

    /** The effect of `AddNewSegment` answering `seg`. */
    twostate predicate AddedSegment(initOk: bool, new seg: Segments.Segment?)
      reads this, seg
    {
      && dim == old(dim)
      && (seg == null <==> dim > 0 && !initOk)
      && (seg == null ==> segments == old(segments) && maxSegmentId == old(maxSegmentId))
      && (seg != null ==>
            && fresh(seg) && fresh(seg.table) && segments == old(segments) + [seg]
            && seg.segmentId == old(maxSegmentId) && seg.workDir == SegmentWorkDir(workDir, old(maxSegmentId))
            && seg.dim == dim && !seg.sealed && !seg.hasNewIndex
            && (seg.index != null <==> dim > 0)
            && maxSegmentId == (old(maxSegmentId) + 1) % TwoTo64)
    }

    /** `AddNewSegment`: a new segment with id `MaxSegmentId` in its own directory goes to the end
        of the list and the next id is one more (a `uint64` increment). When the segment cannot
        be created (`initOk` false for its index) nothing changes. */
    method AddNewSegment(initOk: bool) returns (seg: Segments.Segment?)
      requires Valid()
      modifies this
      ensures AddedSegment(initOk, seg)
      ensures seg == null || old(maxSegmentId) < VecId.MaxUint64 ==> Valid()
    {
      var segmentWorkDir := SegmentWorkDir(workDir, maxSegmentId);
      var newSegment := Segments.Segment.NewSegment(maxSegmentId, segmentWorkDir, dim, initOk);
      if newSegment == null {
        return null;
      }
      segments := segments + [newSegment];
      maxSegmentId := (maxSegmentId + 1) % TwoTo64;
      return newSegment;
    }

    /** `GetInsertableSegment`: a first segment when there is none; nothing when the last
        segment's statistics fail (it has no index); when the last segment holds `maxSize`
        vectors or more (its engine reports `raw`), seal it and add a new one; otherwise the last
        segment, with nothing changed. */
    method GetInsertableSegment(raw: Engine.RawStats, maxSize: int, initOk: bool) returns (seg: Segments.Segment?)
      requires Valid()
      modifies this, if segments == [] then {} else {segments[|segments| - 1]}
      ensures old(segments) == [] ==> AddedSegment(initOk, seg)
      ensures old(segments) != [] ==>
                var last := old(segments)[|old(segments)| - 1];
                && last.index == old(last.index) && last.hasNewIndex == old(last.hasNewIndex)
                && (last.index == null ==> seg == null && unchanged(this) && last.sealed == old(last.sealed))
                && (last.index != null && raw.vidSize >= maxSize ==> last.sealed && AddedSegment(initOk, seg))
                && (last.index != null && raw.vidSize < maxSize ==>
                      seg == last && unchanged(this) && last.sealed == old(last.sealed))
      ensures AllButLastSealed(old(segments)) ==> AllButLastSealed(segments)
      ensures seg == null || old(maxSegmentId) < VecId.MaxUint64 ==> Valid()
    {
      if |segments| == 0 {
        seg := AddNewSegment(initOk);
        return;
      }
      var lastSegment := segments[|segments| - 1];
      var lastSegmentStat := lastSegment.Statistics(raw);
      if lastSegmentStat.Failure? {
        return null;
      }
      if lastSegmentStat.value.vectorCount >= maxSize {
        seg := SealAndAdd(initOk);
        return;
      }
      return lastSegment;
    }

    /** The full-segment case of `GetInsertableSegment`: seal the last segment, then add a new
        one. */
    method SealAndAdd(initOk: bool) returns (seg: Segments.Segment?)
      requires Valid() && segments != []
      modifies this, segments[|segments| - 1]
      ensures var last := old(segments)[|old(segments)| - 1];
              && last.sealed && last.index == old(last.index) && last.hasNewIndex == old(last.hasNewIndex)
              && AddedSegment(initOk, seg)
      ensures AllButLastSealed(old(segments)) ==> AllButLastSealed(segments)
      ensures seg == null || old(maxSegmentId) < VecId.MaxUint64 ==> Valid()
    {
      var lastSegment := segments[|segments| - 1];
      lastSegment.SealIndex();
      label sealed:
      assert unchanged(this) && Valid();
      ghost var before := segments;
      assert AllButLastSealed(old(segments)) ==> forall i :: 0 <= i < |before| ==> before[i].sealed;
      seg := AddNewSegment(initOk);
      assert AddedSegment@sealed(initOk, seg);
      if seg != null && AllButLastSealed(old(segments)) {
        AllSealedSnoc(before, seg);
      }
    }

    /** `GetSealedSegments`. */
    method GetSealedSegments() returns (r: seq<Segments.Segment>)
      ensures r == SealedOf(segments)
    {
      r := [];
      var k := 0;
      while k < |segments|
        invariant 0 <= k <= |segments|
        invariant r == SealedOf(segments[..k])
      {
        assert segments[..k + 1][..k] == segments[..k];
        if segments[k].sealed {
          r := r + [segments[k]];
        }
        k := k + 1;
      }
      assert segments[..k] == segments;
    }

    /** `GetSearchableSegments`; `raws[i]` is what segment `i`'s engine reports. */
    method GetSearchableSegments(raws: seq<Engine.RawStats>) returns (r: seq<Segments.Segment>)
      requires |raws| == |segments|
      ensures r == SearchableOf(segments, raws)
    {
      r := [];
      var k := 0;
      while k < |segments|
        invariant 0 <= k <= |segments|
        invariant r == SearchableOf(segments[..k], raws[..k])
      {
        SearchableOfSnoc(segments, raws, k);
        var searchable := segments[k].IsSearchable(raws[k]);
        if searchable {
          r := r + [segments[k]];
        }
        k := k + 1;
      }
      SearchableOfSnoc(segments, raws, k);
    }

    /** `GetSegmentBySegmentId`, with the fast path corrected (`Lookup`): the segment with that
        id, or none. Go indexes the last segment first, so the list must not be empty. */
    method GetSegmentBySegmentId(segmentId: nat) returns (seg: Segments.Segment?)
      requires Valid() && segments != []
      ensures FindIndex(SegmentIds(segments), segmentId).None? ==> seg == null
      ensures FindIndex(SegmentIds(segments), segmentId).Some? ==>
                seg == segments[FindIndex(SegmentIds(segments), segmentId).value]
    {
      LookupCorrect(SegmentIds(segments), segmentId);
      var lastSegment := segments[|segments| - 1];
      if lastSegment.segmentId == |segments| - 1 && segmentId < |segments| {
        return segments[segmentId];
      }
      seg := FindSegment(segments, segmentId);
    }

    /** `DeleteDocument`: every segment tombstones its first live record with `vqid`; the count
        is the number of segments that had one. */
    method DeleteDocument(vqid: string) returns (deletedCount: int)
      requires Valid()
      modifies set s | s in segments :: s.table
      ensures deletedCount == DeletedCount(old(TablesOf(segments)), vqid)
      ensures forall i :: 0 <= i < |segments| ==>
                segments[i].table.metadata == DeleteFirst(old(segments[i].table.metadata), vqid)
    {
      deletedCount := DeleteInAll(segments, vqid);
    }

    /** `UpdateDocumentMetadata`: every segment updates its live records with the vqid; the count
        is the sum of the segments' counts. */
    method UpdateDocumentMetadata(doc: UpdateDocumentMetadataRequest) returns (updatedCount: int)
      requires Valid()
      modifies set s | s in segments :: s.table
      ensures updatedCount == UpdatedCount(old(TablesOf(segments)), doc.vqid)
      ensures forall i :: 0 <= i < |segments| ==>
                segments[i].table.metadata == UpdateData(old(segments[i].table.metadata), doc.vqid, doc.metadata)
    {
      updatedCount := UpdateInAll(segments, doc);
    }

    /** `GetDocumentMetadata`: the matches of every segment labelled with its id, stopping at the
        first segment with a match unless duplicates are asked for. */
    method GetDocumentMetadata(vqid: string, checkDuplicate: bool) returns (docMetadataList: seq<DocumentMetadataResult>)
      ensures docMetadataList == Gathered(SegmentIds(segments), TablesOf(segments), vqid, checkDuplicate)
    {
      docMetadataList := GatherMatches(segments, vqid, checkDuplicate, SegmentIds(segments), TablesOf(segments));
    }

    /** `Statistics`: every segment's statistics (Go dereferences them, so every segment must
        have an index), their number and the sums of their index sizes, vector counts and
        document counts; `raws[i]` is what segment `i`'s engine reports. */
    method Statistics(raws: seq<Engine.RawStats>) returns (r: CollectionStatistics)
      requires |raws| == |segments|
      requires forall i :: 0 <= i < |segments| ==> segments[i].index != null
      ensures r.collectionName == name && r.segmentCount == |segments| && |r.segments| == |segments|
      ensures forall i :: 0 <= i < |segments| ==>
                r.segments[i] == SegmentStatistics(segments[i].segmentId, segments[i].sealed, segments[i].dim,
                                                   Engine.Statistics(raws[i]), raws[i].vidSize,
                                                   |segments[i].table.metadata|)
      ensures r.totalIndexSize == SumIndexSize(r.segments)
      ensures r.vectorCount == SumVectorCount(r.segments) && r.docCount == SumDocCount(r.segments)
      ensures StatsOf(this, raws, r)
    {
      var stats, totalIndexSize, vectorCount, docCount := SegmentsStatistics(segments, raws);
      return CollectionStatistics(name, stats, |segments|, totalIndexSize, vectorCount, docCount);
    }

    /** The restore at the end of `Load`: with segments loaded, the next id is one past the last
        segment's (a `uint64` increment) and the dimension is the first segment's. Loaded segments
        come in ascending id order, and then the collection is consistent again. */
    method RestoreMaxSegmentId()
      modifies this
      ensures segments == old(segments)
      ensures segments == [] ==> maxSegmentId == old(maxSegmentId) && dim == old(dim)
      ensures segments != [] ==>
                maxSegmentId == (segments[|segments| - 1].segmentId + 1) % TwoTo64 && dim == segments[0].dim
      ensures old(Ordered()) && segments != [] && segments[|segments| - 1].segmentId < VecId.MaxUint64 ==> Valid()
    {
      if |segments| > 0 {
        maxSegmentId := (segments[|segments| - 1].segmentId + 1) % TwoTo64;
        dim := segments[0].dim;
        if Ordered() && segments[|segments| - 1].segmentId < VecId.MaxUint64 {
          ghost var ids := SegmentIds(segments);
          forall i | 0 <= i < |segments|
            ensures segments[i].segmentId < maxSegmentId
          {
            if i < |segments| - 1 {
              assert ids[i] < ids[|segments| - 1];
            }
          }
        }
      }
    }

    /** The sequential merge of `Search`, once every searchable segment has answered:
        `temp[j]` is segment `j`'s list of per-query hits, in the order the answers arrived.
        Each query's hits from all segments are merged and cut to `topK` (the kept hits are
        returned as `merged`), then hits whose document is deleted or whose metadata does not
        parse are dropped. `queryLen` is the number of floats in the queries. */
    method MergeSearchResults(raws: seq<Engine.RawStats>, temp: seq<seq<seq<Engine.VidScore>>>, queryLen: nat,
                              topK: int, parses: Bytes -> bool)
      returns (r: Result<seq<seq<SearchResult>>, string>, ghost merged: seq<seq<Engine.VidScore>>)
      requires Valid() && |raws| == |segments|
      requires temp != [] && temp[0] != [] ==> dim > 0 && |temp[0]| <= queryLen / dim
      requires forall j :: 0 <= j < |temp| ==> |temp[0]| <= |temp[j]|
      requires forall j, i :: 0 <= j < |temp| && 0 <= i < |temp[j]| ==> HitsValid(SegmentIds(segments), temp[j][i])
      ensures r.Failure? <==> |SearchableOf(segments, raws)| < 1 || temp == [] || temp[0] == []
      ensures r.Success? ==> |r.value| == |merged| == queryLen / dim
      ensures r.Success? ==> forall i :: 0 <= i < |merged| ==>
                && (i < |temp[0]| ==> IsTopK(Vecs.Flatten(Column(temp, i)), topK, merged[i]))
                && (i >= |temp[0]| ==> merged[i] == [])
                && HitsValid(SegmentIds(segments), merged[i])
                && r.value[i] == Resolve(SegmentIds(segments), TablesOf(segments), merged[i], parses)
    {
      ghost var ids := SegmentIds(segments);
      var searchableSegments := GetSearchableSegments(raws);
      if |searchableSegments| < 1 || |temp| == 0 || |temp[0]| == 0 {
        return Failure("index current unavailable"), [];
      }
      var nq := queryLen / dim;
      var vecScoreResults := MergeRows(temp, nq, topK);
      forall i | 0 <= i < nq
        ensures HitsValid(ids, vecScoreResults[i])
      {
        if i < |temp[0]| {
          TopKHitsValid(ids, temp, i, topK, vecScoreResults[i]);
        }
      }
      merged := vecScoreResults;
      var results := ResolveRows(vecScoreResults, parses);
      return Success(results), merged;
    }

    /** The conversion of the kept hits into search results, query by query. */
    method ResolveRows(rows: seq<seq<Engine.VidScore>>, parses: Bytes -> bool) returns (results: seq<seq<SearchResult>>)
      requires Valid() && forall i :: 0 <= i < |rows| ==> HitsValid(SegmentIds(segments), rows[i])
      ensures |results| == |rows|
      ensures forall i :: 0 <= i < |rows| ==> results[i] == Resolve(SegmentIds(segments), TablesOf(segments), rows[i], parses)
    {
      ghost var ids := SegmentIds(segments);
      ghost var ts := TablesOf(segments);
      results := [];
      var i := 0;
      while i < |rows|
        invariant 0 <= i <= |rows| && |results| == i
        invariant forall k :: 0 <= k < i ==> results[k] == Resolve(ids, ts, rows[k], parses)
      {
        var res := ResolveRow(rows[i], parses);
        ResolvedSnoc(ids, ts, rows, parses, results, res);
        results := results + [res];
        i := i + 1;
      }
    }

    /** The conversion of one query's kept hits into search results: look up the segment and the
        slot of each hit, skip deleted documents and metadata that does not parse. */
    method ResolveRow(hits: seq<Engine.VidScore>, parses: Bytes -> bool) returns (res: seq<SearchResult>)
      requires Valid() && HitsValid(SegmentIds(segments), hits)
      ensures res == Resolve(SegmentIds(segments), TablesOf(segments), hits, parses)
    {
      ghost var ids := SegmentIds(segments);
      ghost var ts := TablesOf(segments);
      res := [];
      var t := 0;
      while t < |hits|
        invariant 0 <= t <= |hits|
        invariant HitsValid(ids, hits[..t])
        invariant res == Resolve(ids, ts, hits[..t], parses)
      {
        var vecScore := hits[t];
        ResolvePrefix(ids, ts, hits, parses, t);
        var hit := HitResult(vecScore, parses);
        if hit.Some? {
          res := res + [hit.value];
        }
        t := t + 1;
      }
      ResolvePrefix(ids, ts, hits, parses, t);
    }

    /** One hit's search result: nothing for a deleted document or metadata that does not parse. */
    method HitResult(vecScore: Engine.VidScore, parses: Bytes -> bool) returns (r: Option<SearchResult>)
      requires Valid() && HitValid(SegmentIds(segments), vecScore)
      ensures r == ResolveHit(SegmentIds(segments), TablesOf(segments), vecScore, parses)
    {
      var document, extra := HitDocument(vecScore);
      if document.None? || !parses(document.value.data) {
        return None;
      }
      return Some(SearchResult(document.value.vqid, vecScore.score, document.value.data, extra));
    }

    /** The slot a hit points to and the hit's tag: the segment it came from, then the slot its
        vector id decodes to. */
    method HitDocument(vecScore: Engine.VidScore) returns (document: Slot, extra: int)
      requires Valid() && HitValid(SegmentIds(segments), vecScore)
      ensures document == HitSlot(SegmentIds(segments), TablesOf(segments), vecScore)
      ensures extra == VecId.DecodeVectorId(vecScore.vid).1
    {
      ghost var idx := FindIndex(SegmentIds(segments), vecScore.from).value;
      var seg := GetSegmentBySegmentId(vecScore.from);
      assert seg == segments[idx];
      var docId;
      docId, extra := VecId.DecodeVectorId(vecScore.vid).0, VecId.DecodeVectorId(vecScore.vid).1;
      document := seg.table.GetByid(docId);
      assert TablesOf(segments)[idx] == seg.table.metadata;
    }
  }

  /** The merge loop of `Search`: a row per query, the first `|temp[0]|` of them merged from the
      segments' lists, the others left empty. */
  method MergeRows(temp: seq<seq<seq<Engine.VidScore>>>, nq: nat, topK: int) returns (rows: seq<seq<Engine.VidScore>>)
    requires temp != [] && |temp[0]| <= nq
    requires forall j :: 0 <= j < |temp| ==> |temp[0]| <= |temp[j]|
    ensures |rows| == nq
    ensures forall i :: 0 <= i < |temp[0]| ==> IsTopK(Vecs.Flatten(Column(temp, i)), topK, rows[i])
    ensures forall i :: |temp[0]| <= i < nq ==> rows[i] == []
  {
    rows := seq(nq, _ => []);
    var i := 0;
    while i < |temp[0]|
      invariant 0 <= i <= |temp[0]| && |rows| == nq
      invariant forall k :: 0 <= k < i ==> IsTopK(Vecs.Flatten(Column(temp, k)), topK, rows[k])
      invariant forall k :: i <= k < nq ==> rows[k] == []
    {
      var row := MergeRow(temp, i, topK);
      rows := rows[i := row];
      i := i + 1;
    }
  }

  /** The linear scan of `GetSegmentBySegmentId`: the first segment with the id, or none. */
  method FindSegment(segs: seq<Segments.Segment>, segmentId: nat) returns (seg: Segments.Segment?)
    ensures FindIndex(SegmentIds(segs), segmentId).None? ==> seg == null
    ensures FindIndex(SegmentIds(segs), segmentId).Some? ==>
              seg == segs[FindIndex(SegmentIds(segs), segmentId).value]
  {
    ghost var ids := SegmentIds(segs);
    var k := 0;
    while k < |segs|
      invariant 0 <= k <= |segs|
      invariant forall j :: 0 <= j < k ==> ids[j] != segmentId
    {
      if segs[k].segmentId == segmentId {
        FindIndexFirst(ids, segmentId, k);
        return segs[k];
      }
      k := k + 1;
    }
    return null;
  }

  /** The searchable segments of the first `k + 1` are those of the first `k` and maybe segment `k`. */
  lemma SearchableOfSnoc(segs: seq<Segments.Segment>, raws: seq<Engine.RawStats>, k: nat)
    requires |raws| == |segs| && k <= |segs|
    ensures segs[..|segs|] == segs && raws[..|raws|] == raws
    ensures k < |segs| ==> (SearchableOf(segs[..k + 1], raws[..k + 1]) == SearchableOf(segs[..k], raws[..k]) +
              if SearchableState(segs[k], raws[k]) then [segs[k]] else [])
  {
    if k < |segs| {
      assert segs[..k + 1][..k] == segs[..k];
      assert raws[..k + 1][..k] == raws[..k];
    }
  }

  /** A position holding `id` before which no position holds it is the first one. */
  lemma {:induction false} FindIndexFirst(ids: seq<nat>, id: nat, k: nat)
    requires k < |ids| && ids[k] == id && forall j :: 0 <= j < k ==> ids[j] != id
    ensures FindIndex(ids, id) == Some(k)
  {
    if k > 0 {
      FindIndexFirst(ids[1..], id, k - 1);
    }
  }

}
