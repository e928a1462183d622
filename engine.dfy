/** The Go wrapper around the C ScaNN vector index (engine/go-scann/scann_index.go).
    The engine itself is foreign code: the wrapper keeps a handle that is either live or
    released, and what the engine holds is recorded as ghost state (the (vid, vector) pairs
    it was given, how often it was trained and released). What the engine answers -- its
    return codes, its statistics record and the result slots it fills in a search -- comes
    in as method parameters. Scores are integers: the wrapper only compares them with 0. */
module Engine {
  import opened Types
  import Vecs

  // ---------------------------------------------------------------------------------
  // Index states and statistics

  const IndexStateNone := "INDEX_STATE_NONE"
  const IndexStateNoInit := "INDEX_STATE_NOINIT"
  const IndexStateNoIndex := "INDEX_STATE_NOINDEX"
  const IndexStateReady := "INDEX_STATE_READY"
  const IndexStateAdd := "INDEX_STATE_ADD"
  const IndexStateTrain := "INDEX_STATE_TRAIN"
  const IndexStateDump := "INDEX_STATE_DUMP"
  const IndexStateUnknown := "INDEX_STATE_UNKNOWN"

  /** The states in which an index answers searches. */
  const SearchableStateSlice: seq<string> := [IndexStateReady, IndexStateAdd, IndexStateDump]

  /** The C enum `index_state_t` in declaration order: NONE is 0, DUMP is 6. */
  const KnownStates: seq<string> :=
    [IndexStateNone, IndexStateNoInit, IndexStateNoIndex, IndexStateReady, IndexStateAdd,
     IndexStateTrain, IndexStateDump]

  /** `CIndexStateMap` with its fallback: a known code maps to its name, any other code to
      INDEX_STATE_UNKNOWN. */
  function StateName(code: int): (r: string)
    ensures 0 <= code < |KnownStates| ==> r == KnownStates[code]
    ensures !(0 <= code < |KnownStates|) ==> r == IndexStateUnknown
  {
    if 0 <= code < |KnownStates| then KnownStates[code] else IndexStateUnknown
  }

  /** The code of a state name, the inverse of `StateName` on the known codes. */
  function StateCode(name: string): (r: Option<int>)
    ensures r.Some? ==> 0 <= r.value < |KnownStates| && KnownStates[r.value] == name
    ensures r.None? ==> name !in KnownStates
  {
    if name == IndexStateNone then Some(0)
    else if name == IndexStateNoInit then Some(1)
    else if name == IndexStateNoIndex then Some(2)
    else if name == IndexStateReady then Some(3)
    else if name == IndexStateAdd then Some(4)
    else if name == IndexStateTrain then Some(5)
    else if name == IndexStateDump then Some(6)
    else None
  }

  /** Distinct codes get distinct names, and only unknown codes get INDEX_STATE_UNKNOWN. */
  lemma StateNameInverse(code: int)
    ensures StateName(code) == IndexStateUnknown <==> !(0 <= code < |KnownStates|)
    ensures 0 <= code < |KnownStates| ==> StateCode(StateName(code)) == Some(code)
  {
  }

  /** The searchable states are the codes READY (3), ADD (4) and DUMP (6). */
  lemma SearchableStates(code: int)
    ensures StateName(code) in SearchableStateSlice <==> code == 3 || code == 4 || code == 6
  {
  }

  /** `index_stats_t` as the engine returns it. */
  datatype RawStats = RawStats(
    datasetSize: int, vidSize: int, indexSize: int, bruteThreshold: int,
    nlist: int, dim: int, isBrute: int, status: int)

  /** `IndexStatistics`. */
  datatype IndexStatistics = IndexStatistics(
    datasetSize: int, vidSize: int, indexSize: int, nlist: int, vecDim: int,
    bruteThreshold: int, isBrute: bool, status: string)

  /** `Statistics`: the engine's record with the brute-force flag read as a boolean and the
      state code replaced by its name. */
  function Statistics(raw: RawStats): (r: IndexStatistics)
    ensures r.isBrute <==> raw.isBrute == 1
    ensures StateCode(r.status) == (if 0 <= raw.status < |KnownStates| then Some(raw.status) else None)
    ensures r.status == IndexStateUnknown <==> StateCode(r.status).None?
    ensures r.datasetSize == raw.datasetSize && r.indexSize == raw.indexSize && r.vidSize == raw.vidSize
    ensures r.nlist == raw.nlist && r.vecDim == raw.dim && r.bruteThreshold == raw.bruteThreshold
  {
    IndexStatistics(raw.datasetSize, raw.vidSize, raw.indexSize, raw.nlist, raw.dim,
                    raw.bruteThreshold, raw.isBrute == 1, StateName(raw.status))
  }

  // ---------------------------------------------------------------------------------
  // Search results

  /** One `result_search_t` slot written by the engine. */
  datatype SearchSlot = SearchSlot(vid: int, score: int)

  /** `VidScore`: a hit tagged with the id of the index that produced it. */
  datatype VidScore = VidScore(vid: int, score: int, from: nat)

  /** The number of leading slots with a non-negative score. */
  function FirstNegative(slots: seq<SearchSlot>): (r: nat)
    ensures r <= |slots|
    ensures forall t :: 0 <= t < r ==> slots[t].score >= 0
    ensures r < |slots| ==> slots[r].score < 0
  {
    if slots == [] || slots[0].score < 0 then 0 else 1 + FirstNegative(slots[1..])
  }

  /** The slots turned into hits of index `from`. */
  function Tag(slots: seq<SearchSlot>, from: nat): (r: seq<VidScore>)
    ensures |r| == |slots|
  {
    seq(|slots|, t requires 0 <= t < |slots| => VidScore(slots[t].vid, slots[t].score, from))
  }

  /** The hits of one query: its block of slots up to the first negative score. */
  function Row(block: seq<SearchSlot>, from: nat): seq<VidScore>
  {
    Tag(block[..FirstNegative(block)], from)
  }

  /** A row is the longest prefix of its block with non-negative scores, each slot tagged
      with the index it came from. */
  lemma RowIsNonNegativePrefix(block: seq<SearchSlot>, from: nat)
    ensures var r := Row(block, from);
            && |r| <= |block|
            && (forall t :: 0 <= t < |r| ==> r[t] == VidScore(block[t].vid, block[t].score, from))
            && (forall t :: 0 <= t < |r| ==> r[t].score >= 0)
            && (|r| < |block| ==> block[|r|].score < 0)
  {
  }

  /** The hits of `nq` queries whose results fill `k` slots each. */
  function UnpackRows(slots: seq<SearchSlot>, nq: nat, k: nat, from: nat): (r: seq<seq<VidScore>>)
    requires |slots| == nq * k
    ensures |r| == nq
  {
    if nq == 0 then []
    else
      assert nq * k == (nq - 1) * k + k;
      UnpackRows(slots[..(nq - 1) * k], nq - 1, k, from) + [Row(slots[(nq - 1) * k..], from)]
  }

  /** Unpacking `n + 1` blocks is unpacking the first `n` and reading the last. */
  lemma UnpackRowsSnoc(slots: seq<SearchSlot>, n: nat, k: nat, from: nat)
    requires |slots| == n * k + k
    ensures (n + 1) * k == |slots|
    ensures UnpackRows(slots, n + 1, k, from) == UnpackRows(slots[..n * k], n, k, from) + [Row(slots[n * k..], from)]
  {
    Vecs.MulSucc(n, k);
  }

  /** Row `i` of the unpacked result is taken from slots `i*k .. i*k+k-1` alone. */
  lemma {:induction false} UnpackRowsIndex(slots: seq<SearchSlot>, nq: nat, k: nat, from: nat, i: nat)
    requires |slots| == nq * k && i < nq
    ensures i * k + k <= |slots|
    ensures UnpackRows(slots, nq, k, from)[i] == Row(slots[i * k..i * k + k], from)
  {
    RowBounds(i, nq, k);
    var last := (nq - 1) * k;
    if i < nq - 1 {
      UnpackRowsIndex(slots[..last], nq - 1, k, from, i);
      SliceOfPrefix(slots, last, i * k, i * k + k);
    } else {
      assert slots[i * k..i * k + k] == slots[last..];
    }
  }

  /** Every query gets at most `k` hits, all with non-negative scores and all tagged with the
      index that produced them. */
  lemma UnpackRowsBounded(slots: seq<SearchSlot>, nq: nat, k: nat, from: nat, i: nat)
    requires |slots| == nq * k && i < nq
    ensures var row := UnpackRows(slots, nq, k, from)[i];
            |row| <= k && forall t :: 0 <= t < |row| ==> row[t].from == from && row[t].score >= 0
  {
    UnpackRowsIndex(slots, nq, k, from, i);
    RowIsNonNegativePrefix(slots[i * k..i * k + k], from);
  }

  /** Where the block of query `i` lies among `n` blocks of `k` slots. */
  lemma RowBounds(i: nat, n: nat, k: nat)
    requires i < n
    ensures 0 <= i * k && 0 <= (n - 1) * k && (n - 1) * k + k == n * k
    ensures i * k + k <= n * k
    ensures i < n - 1 ==> i * k + k <= (n - 1) * k
  {
    Vecs.MulSucc(i, k);
    Vecs.MulSucc(n - 1, k);
    Vecs.MulMonotone(i + 1, n, k);
    if i < n - 1 {
      Vecs.MulMonotone(i + 1, n - 1, k);
    }
  }

  lemma SliceOfPrefix<T>(s: seq<T>, n: nat, lo: nat, hi: nat)
    requires lo <= hi <= n <= |s|
    ensures s[..n][lo..hi] == s[lo..hi]
  {
  }

  // ---------------------------------------------------------------------------------
  // Vectors handed to the engine

  /** The (vid, vector) pairs that a flat buffer of `|vids|` vectors of `dim` elements holds. */
  function Pairs(vids: seq<int>, flat: seq<Float32>, dim: nat): (r: seq<(int, seq<Float32>)>)
    requires |flat| == |vids| * dim
    ensures |r| == |vids|
    ensures forall t :: 0 <= t < |r| ==> r[t].0 == vids[t] && |r[t].1| == dim
  {
    if vids == [] then []
    else
      var n := |vids|;
      assert n * dim == (n - 1) * dim + dim;
      Pairs(vids[..n - 1], flat[..(n - 1) * dim], dim) + [(vids[n - 1], flat[(n - 1) * dim..])]
  }

  /** When every row has `dim` elements and there is one vid per row, the engine receives
      each row paired with its own vid. */
  lemma {:induction false} PairsOfUniformRows(vids: seq<int>, rows: seq<seq<Float32>>, dim: nat)
    requires |rows| == |vids|
    requires forall t :: 0 <= t < |rows| ==> |rows[t]| == dim
    ensures |Vecs.Flatten(rows)| == |vids| * dim
    ensures forall t :: 0 <= t < |vids| ==> Pairs(vids, Vecs.Flatten(rows), dim)[t] == (vids[t], rows[t])
  {
    Vecs.FlattenUniformLength(rows, dim);
    if vids != [] {
      var n := |vids|;
      var front := rows[..n - 1];
      PairsOfUniformRows(vids[..n - 1], front, dim);
      Vecs.FlattenUniformLength(front, dim);
      assert n * dim == (n - 1) * dim + dim;
      assert Vecs.Flatten(rows) == Vecs.Flatten(front) + rows[n - 1];
      assert Vecs.Flatten(rows)[..(n - 1) * dim] == Vecs.Flatten(front);
      assert Vecs.Flatten(rows)[(n - 1) * dim..] == rows[n - 1];
    }
  }

  /** `AddWithIDs` reaches the engine with an empty buffer -- and Go's `&slice[0]` panics --
      exactly when the length check passes with no vids or with a zero dimension (then the
      flattened buffer is empty). */
  predicate AddSafe(vectors: seq<seq<Float32>>, vids: seq<int>, dim: int)
  {
    TotalLength(vectors) == |vids| * dim ==> vids != [] && dim > 0
  }

  /** The pairs the engine takes in from one `AddWithIDs` call: none when the length check or
      the engine refuses them. */
  function Accepted(vectors: seq<seq<Float32>>, vids: seq<int>, dim: int, engineCode: int): (r: seq<(int, seq<Float32>)>)
    requires dim >= 0
    ensures r != [] ==> |r| == |vids| && engineCode == 0 && TotalLength(vectors) == |vids| * dim
  {
    if TotalLength(vectors) == |vids| * dim && engineCode == 0 then
      Vecs.FlattenLength(vectors);
      Pairs(vids, Vecs.Flatten(vectors), dim)
    else []
  }

  // ---------------------------------------------------------------------------------
  // The index wrapper

  /** The inner loop of `Search`: read the `k` slots of one query from `lo` on, stopping at
      the first negative score. */
  method ReadRow(slots: seq<SearchSlot>, lo: nat, k: nat, from: nat) returns (row: seq<VidScore>)
    requires lo + k <= |slots|
    ensures row == Row(slots[lo..lo + k], from)
  {
    ghost var block := slots[lo..lo + k];
    row := [];
    var j := 0;
    while j < k
      invariant 0 <= j <= k
      invariant forall t :: 0 <= t < j ==> block[t].score >= 0
      invariant row == Tag(block[..j], from)
    {
      assert slots[lo + j] == block[j];
      if slots[lo + j].score < 0 {
        break;
      }
      row := row + [VidScore(slots[lo + j].vid, slots[lo + j].score, from)];
      j := j + 1;
    }
    assert FirstNegative(block) == j;
  }

  /** `ScaNNIndex`: `live` stands for a non-nil engine handle. */
  class ScaNNIndex {
    var live: bool
    const dim: int
    const workDir: string
    const indexId: nat
    /** The (vid, vector) pairs the engine accepted. */
    ghost var entries: seq<(int, seq<Float32>)>
    /** How often the engine was asked to train. */
    ghost var trainings: nat
    /** How often the engine handle was released. */
    ghost var releases: nat

    /** A wrapper around a freshly initialised engine. */
    constructor (workDir: string, dim: int, indexId: nat)
      ensures live && this.dim == dim && this.workDir == workDir && this.indexId == indexId
      ensures entries == [] && trainings == 0 && releases == 0
    {
      live := true;
      this.dim := dim;
      this.workDir := workDir;
      this.indexId := indexId;
      entries := [];
      trainings := 0;
      releases := 0;
    }

    /** `NewScaNNIndex`: `initOk` is whether the engine's initialisation returned a handle. */
    static method NewScaNNIndex(workDir: string, dim: int, indexId: nat, initOk: bool) returns (r: ScaNNIndex?)
      ensures initOk <==> r != null
      ensures r != null ==> fresh(r) && r.live && r.dim == dim && r.workDir == workDir && r.indexId == indexId
      ensures r != null ==> r.entries == [] && r.trainings == 0 && r.releases == 0
    {
      if !initOk {
        return null;
      }
      r := new ScaNNIndex(workDir, dim, indexId);
    }

    /** `Destroy`: drop the handle and release the engine if there was one. A second call
        finds no handle and does nothing. */
    method Destroy()
      modifies this
      ensures !live
      ensures releases == old(releases) + (if old(live) then 1 else 0)
      ensures entries == old(entries) && trainings == old(trainings)
    {
      var wasLive := live;
      live := false;
      if !wasLive {
        return;
      }
      releases := releases + 1;
    }

    /** `Search`: `xq` holds the queries back to back; the engine fills `k` slots per query
        (`slots`) and answers `engineCode`. The nprobe and reorder parameters only go to the
        engine. */
    method Search(xq: seq<Float32>, k: int, nprobe: int, reorder: int, engineCode: int, slots: seq<SearchSlot>)
      returns (r: Result<seq<seq<VidScore>>, string>)
      requires live ==> dim > 0
      requires live && |xq| / dim >= 1 ==> k > 0 && |slots| == |xq| / dim * k
      ensures !live ==> r == Failure("index not initialized")
      ensures live && |xq| / dim < 1 ==> r == Failure("invalid xq size")
      ensures live && |xq| / dim >= 1 && engineCode != 0 ==> r == Failure("search failed")
      ensures live && |xq| / dim >= 1 && engineCode == 0 ==>
                r == Success(UnpackRows(slots, |xq| / dim, k, indexId))
    {
      if !live {
        return Failure("index not initialized");
      }
      var nq := |xq| / dim;
      if nq < 1 {
        return Failure("invalid xq size");
      }
      if engineCode != 0 {
        return Failure("search failed");
      }
      var res: seq<seq<VidScore>> := [];
      var i, lo := 0, 0;
      while i < nq
        invariant 0 <= i <= nq && lo == i * k && lo <= |slots|
        invariant res == UnpackRows(slots[..lo], i, k, indexId)
      {
        RowBounds(i, nq, k);
        Vecs.MulSucc(i, k);
        var row := ReadRow(slots, lo, k, indexId);
        UnpackRowsSnoc(slots[..lo + k], i, k, indexId);
        assert slots[..lo + k][..lo] == slots[..lo];
        assert slots[..lo + k][lo..] == slots[lo..lo + k];
        res := res + [row];
        i, lo := i + 1, lo + k;
      }
      assert slots[..lo] == slots;
      return Success(res);
    }

    /** `AddWithIDs`: flatten the vectors and hand them to the engine with their vids,
        unless the flattened length is not `|vids| * dim`. The engine answers `engineCode`. */
    method AddWithIDs(vectors: seq<seq<Float32>>, vids: seq<int>, engineCode: int) returns (ok: bool)
      requires dim >= 0
      requires AddSafe(vectors, vids, dim)
      modifies this
      ensures ok <==> TotalLength(vectors) == |vids| * dim && engineCode == 0
      ensures entries == old(entries) + Accepted(vectors, vids, dim, engineCode)
      ensures live == old(live) && trainings == old(trainings) && releases == old(releases)
    {
      var flattened := Vecs.FlattenFloat32Slice(vectors);
      var nb := |vids|;
      if |flattened| != nb * dim {
        return false;
      }
      if engineCode != 0 {
        return false;
      }
      entries := entries + Pairs(vids, flattened, dim);
      return true;
    }

    /** `Train`: refuse before calling the engine when it holds no data or when everything
        it holds is already indexed; otherwise the engine trains and answers `engineCode`.
        `raw` is the engine's statistics record at that moment. */
    method Train(numThreads: int, raw: RawStats, engineCode: int) returns (err: Option<string>)
      modifies this
      ensures var s := Statistics(raw);
              trainings == old(trainings) + (if s.datasetSize != 0 && s.datasetSize != s.indexSize then 1 else 0)
      ensures raw.datasetSize == 0 ==> err == Some("train failed, dataset size is 0")
      ensures raw.datasetSize != 0 && raw.datasetSize == raw.indexSize ==>
                err == Some("train failed, dataset size is equal to index size")
      ensures err.None? <==> raw.datasetSize != 0 && raw.datasetSize != raw.indexSize && engineCode == 0
      ensures live == old(live) && entries == old(entries) && releases == old(releases)
    {
      var statistics := Statistics(raw);
      if statistics.datasetSize == 0 {
        return Some("train failed, dataset size is 0");
      }
      if statistics.datasetSize == statistics.indexSize {
        return Some("train failed, dataset size is equal to index size");
      }
      trainings := trainings + 1;
      if engineCode != 0 {
        return Some("train failed");
      }
      return None;
    }
  }
}
