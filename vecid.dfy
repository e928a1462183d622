/** Packing of a document slot and a per-vector tag into one `int64` vector id
    (utils/vecid.go), with Go's 64-bit two's-complement shift semantics. */
module VecId {
  import opened Types

  const MaxUint32: int := 0xFFFF_FFFF
  const MaxUint64: int := TwoTo64 - 1

  /** `(docId << 32) + extra` on `int64`, rejected when either part exceeds `MaxUint32`.
      Negative parts pass the check, and a `docId` of 2^31 or more passes it but wraps. */
  function EncodeVectorId(docId: int, extra: int): (r: Result<int, string>)
    requires IsInt64(docId) && IsInt64(extra)
    ensures r.Failure? <==> docId > MaxUint32 || extra > MaxUint32
    ensures r.Success? ==> IsInt64(r.value)
    ensures r.Success? ==> (r.value - (docId * TwoTo32 + extra)) % TwoTo64 == 0
  {
    if docId > MaxUint32 || extra > MaxUint32 then
      Failure("docId or extra is too large")
    else
      var shifted := Wrap64(docId * TwoTo32);
      assert (shifted + extra - Wrap64(shifted + extra)) % TwoTo64 == 0;
      Success(Wrap64(shifted + extra))
  }

  /** `(vid >> 32, vid & 0xFFFFFFFF)`: an arithmetic shift and the low 32 bits. */
  function DecodeVectorId(vid: int): (r: (int, int))
    requires IsInt64(vid)
    ensures -TwoTo31 <= r.0 < TwoTo31
    ensures 0 <= r.1 < TwoTo32
    ensures r.0 * TwoTo32 + r.1 == vid
  {
    (vid / TwoTo32, vid % TwoTo32)
  }

  /** On the domain where nothing wraps, encoding is `docId * 2^32 + extra`, non-negative,
      and decoding gives back both parts. */
  lemma RoundTrip(docId: int, extra: int)
    requires 0 <= docId < TwoTo31 && 0 <= extra <= MaxUint32
    ensures 0 <= docId * TwoTo32 + extra < TwoTo63
    ensures EncodeVectorId(docId, extra) == Success(docId * TwoTo32 + extra)
    ensures DecodeVectorId(docId * TwoTo32 + extra) == (docId, extra)
  {
    var v := docId * TwoTo32 + extra;
    assert 0 <= v < TwoTo63;
    var d := DecodeVectorId(v);
    assert d.0 * TwoTo32 + d.1 == docId * TwoTo32 + extra;
  }

  /** Every `int64` is the encoding of its own decoding. */
  lemma EncodeDecode(vid: int)
    requires IsInt64(vid)
    ensures EncodeVectorId(DecodeVectorId(vid).0, DecodeVectorId(vid).1) == Success(vid)
  {
    var d := DecodeVectorId(vid);
    assert d.0 * TwoTo32 + d.1 == vid;
  }

  /** Distinct (slot, tag) pairs in the round-trip domain get distinct vector ids. */
  lemma EncodeInjective(d1: int, e1: int, d2: int, e2: int)
    requires 0 <= d1 < TwoTo31 && 0 <= e1 <= MaxUint32
    requires 0 <= d2 < TwoTo31 && 0 <= e2 <= MaxUint32
    requires EncodeVectorId(d1, e1) == EncodeVectorId(d2, e2)
    ensures d1 == d2 && e1 == e2
  {
    RoundTrip(d1, e1);
    RoundTrip(d2, e2);
  }

  /** A slot in [2^31, 2^32) passes the range check, but the shift overflows: the id is
      negative and decodes to a different slot. */
  lemma EncodeWrapsAboveInt31(docId: int, extra: int)
    requires TwoTo31 <= docId <= MaxUint32 && 0 <= extra <= MaxUint32
    ensures EncodeVectorId(docId, extra).Success?
    ensures EncodeVectorId(docId, extra).value == docId * TwoTo32 + extra - TwoTo64 < 0
    ensures DecodeVectorId(EncodeVectorId(docId, extra).value).0 == docId - TwoTo32 != docId
  {
    var v := docId * TwoTo32 + extra - TwoTo64;
    assert IsInt64(v);
    var r := EncodeVectorId(docId, extra).value;
    assert (r - v) % TwoTo64 == 0;
    var d := DecodeVectorId(v);
    assert d.0 * TwoTo32 + d.1 == (docId - TwoTo32) * TwoTo32 + extra;
  }

  /** The successor of a `uint64` request id, wrapping as `atomic.AddUint64` does. */
  function NextReqId(id: int): (r: int)
    requires IsUint64(id)
    ensures IsUint64(r)
    ensures id < MaxUint64 ==> r == id + 1 && r > id
    ensures id == MaxUint64 ==> r == 0
  {
    (id + 1) % TwoTo64
  }

  /** The `reqid` closure: a counter seeded from the clock, bumped and returned on each call. */
  class ReqIdCounter {
    var id: int

    /** `seed` stands for `uint64(time.Now().UnixNano())`. */
    constructor (seed: int)
      requires IsUint64(seed)
      ensures id == seed
    {
      id := seed;
    }

    method Next() returns (r: int)
      requires IsUint64(id)
      modifies this
      ensures id == NextReqId(old(id)) && r == id
      ensures old(id) < MaxUint64 ==> r == old(id) + 1
    {
      id := (id + 1) % TwoTo64;
      r := id;
    }
  }

  /** Two successive calls return strictly increasing ids, unless the counter wraps. */
  lemma {:induction false} ReqIdsIncrease(seed: int, calls: nat)
    requires IsUint64(seed) && seed + calls <= MaxUint64
    ensures IteratedReqId(seed, calls) == seed + calls
  {
    if calls > 0 {
      ReqIdsIncrease(seed, calls - 1);
    }
  }

  /** The counter's value after `calls` calls to `Next`. */
  function IteratedReqId(seed: int, calls: nat): (r: int)
    requires IsUint64(seed)
    ensures IsUint64(r)
  {
    if calls == 0 then seed else NextReqId(IteratedReqId(seed, calls - 1))
  }
}
