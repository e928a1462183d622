/** The per-segment document table (core/segment_metadata.go): an append-only list of
    slots, each holding a document record or, once the document is deleted, a tombstone.
    The slot number of a document is its document id inside the segment. */
module MetadataTable {
  import opened Types
  import opened CoreTypes

  type Slot = Option<Metadata>

  /** A slot that holds a live record with the given vqid. */
  predicate IsLiveMatch(slot: Slot, vqid: string)
  {
    slot.Some? && slot.value.vqid == vqid
  }

  /** The lowest slot holding a live record with `vqid`. */
  function FirstLive(s: seq<Slot>, vqid: string): (r: Option<nat>)
    ensures r.Some? ==> r.value < |s| && IsLiveMatch(s[r.value], vqid)
    ensures r.Some? ==> forall j :: 0 <= j < r.value ==> !IsLiveMatch(s[j], vqid)
    ensures r.None? ==> forall j :: 0 <= j < |s| ==> !IsLiveMatch(s[j], vqid)
  {
    if s == [] then None
    else if IsLiveMatch(s[0], vqid) then Some(0)
    else
      match FirstLive(s[1..], vqid)
      case None => None
      case Some(i) => Some(i + 1)
  }

  /** The number of slots holding a live record with `vqid`. */
  function CountLive(s: seq<Slot>, vqid: string): (r: nat)
    ensures r <= |s|
  {
    if s == [] then 0
    else CountLive(s[..|s| - 1], vqid) + if IsLiveMatch(s[|s| - 1], vqid) then 1 else 0
  }

  /** The live records with `vqid`, in slot order. */
  function LiveMatches(s: seq<Slot>, vqid: string): (r: seq<Metadata>)
    ensures |r| == CountLive(s, vqid)
    ensures forall t :: 0 <= t < |r| ==> r[t].vqid == vqid && Some(r[t]) in s
  {
    if s == [] then []
    else LiveMatches(s[..|s| - 1], vqid) + if IsLiveMatch(s[|s| - 1], vqid) then [s[|s| - 1].value] else []
  }

  /** What `Update` leaves: every live record with `vqid` carries `data`, all else as it was. */
  function UpdateData(s: seq<Slot>, vqid: string, data: Bytes): (r: seq<Slot>)
    ensures |r| == |s|
    ensures forall i :: 0 <= i < |s| ==> (r[i].None? <==> s[i].None?)
    ensures forall i :: 0 <= i < |s| && s[i].Some? ==> r[i].value.vqid == s[i].value.vqid
    ensures forall i :: 0 <= i < |s| && !IsLiveMatch(s[i], vqid) ==> r[i] == s[i]
    ensures forall i :: 0 <= i < |s| && IsLiveMatch(s[i], vqid) ==> r[i].value.data == data
  {
    seq(|s|, i requires 0 <= i < |s| => if IsLiveMatch(s[i], vqid) then Some(Metadata(vqid, data)) else s[i])
  }

  /** What `DeleteByVqid` leaves: the first live record with `vqid` made a tombstone. */
  function DeleteFirst(s: seq<Slot>, vqid: string): (r: seq<Slot>)
    ensures |r| == |s|
    ensures FirstLive(s, vqid).None? ==> r == s
    ensures FirstLive(s, vqid).Some? ==> r == s[FirstLive(s, vqid).value := None]
  {
    match FirstLive(s, vqid)
    case None => s
    case Some(i) => s[i := None]
  }

  /** There is a live match exactly when the count is positive. */
  lemma {:induction false} CountLivePositive(s: seq<Slot>, vqid: string)
    ensures CountLive(s, vqid) > 0 <==> FirstLive(s, vqid).Some?
  {
    if s != [] {
      var front := s[..|s| - 1];
      CountLivePositive(front, vqid);
      if FirstLive(front, vqid).Some? {
        var i := FirstLive(front, vqid).value;
        assert IsLiveMatch(s[i], vqid);
      } else if FirstLive(s, vqid).Some? {
        assert FirstLive(s, vqid).value == |s| - 1;
      }
    }
  }

  /** Deleting removes exactly one live match, and only when there is one. */
  lemma {:induction false} DeleteFirstCount(s: seq<Slot>, vqid: string)
    ensures CountLive(DeleteFirst(s, vqid), vqid) ==
              if CountLive(s, vqid) > 0 then CountLive(s, vqid) - 1 else 0
  {
    CountLivePositive(s, vqid);
    if FirstLive(s, vqid).Some? {
      CountAfterTombstone(s, FirstLive(s, vqid).value, vqid);
    }
  }

  lemma {:induction false} CountAfterTombstone(s: seq<Slot>, i: nat, vqid: string)
    requires i < |s| && IsLiveMatch(s[i], vqid)
    ensures CountLive(s[i := None], vqid) == CountLive(s, vqid) - 1
  {
    var n := |s|;
    var t := s[i := None];
    if i < n - 1 {
      assert t[..n - 1] == s[..n - 1][i := None];
      CountAfterTombstone(s[..n - 1], i, vqid);
    } else {
      assert t[..n - 1] == s[..n - 1];
    }
  }

  /** A tombstone never turns back into a record: both writes keep every tombstone. */
  lemma NoRevival(s: seq<Slot>, vqid: string, other: string, data: Bytes, i: nat)
    requires i < |s| && s[i].None?
    ensures DeleteFirst(s, vqid)[i].None?
    ensures UpdateData(s, other, data)[i].None?
  {
  }

  /** After `Update`, the record a lookup finds is the same slot, now carrying the new data. */
  lemma UpdateThenLookup(s: seq<Slot>, vqid: string, data: Bytes)
    ensures FirstLive(UpdateData(s, vqid, data), vqid) == FirstLive(s, vqid)
    ensures FirstLive(s, vqid).Some? ==>
              UpdateData(s, vqid, data)[FirstLive(s, vqid).value] == Some(Metadata(vqid, data))
  {
    var r := UpdateData(s, vqid, data);
    assert forall j :: 0 <= j < |s| ==> (IsLiveMatch(r[j], vqid) <==> IsLiveMatch(s[j], vqid));
    FirstLiveSame(s, r, vqid);
  }

  lemma {:induction false} FirstLiveSame(s: seq<Slot>, r: seq<Slot>, vqid: string)
    requires |s| == |r|
    requires forall j :: 0 <= j < |s| ==> (IsLiveMatch(r[j], vqid) <==> IsLiveMatch(s[j], vqid))
    ensures FirstLive(r, vqid) == FirstLive(s, vqid)
  {
    if s != [] {
      FirstLiveSame(s[1..], r[1..], vqid);
    }
  }

  /** After `DeleteByVqid`, a lookup of the same vqid finds a later slot, if any. */
  lemma DeleteThenLookup(s: seq<Slot>, vqid: string)
    requires FirstLive(s, vqid).Some?
    ensures var after := FirstLive(DeleteFirst(s, vqid), vqid);
            after.None? || after.value > FirstLive(s, vqid).value
  {
    var i := FirstLive(s, vqid).value;
    var t := DeleteFirst(s, vqid);
    if FirstLive(t, vqid).Some? {
      var j := FirstLive(t, vqid).value;
      assert j != i;
    }
  }

  /** The first of the live matches is the record in the first matching slot. */
  lemma {:induction false} LiveMatchesFirst(s: seq<Slot>, vqid: string)
    ensures LiveMatches(s, vqid) != [] <==> FirstLive(s, vqid).Some?
    ensures FirstLive(s, vqid).Some? ==> LiveMatches(s, vqid)[0] == s[FirstLive(s, vqid).value].value
  {
    CountLivePositive(s, vqid);
    if s != [] {
      var front := s[..|s| - 1];
      LiveMatchesFirst(front, vqid);
      if FirstLive(front, vqid).Some? {
        var i := FirstLive(front, vqid).value;
        assert IsLiveMatch(s[i], vqid);
        assert FirstLive(s, vqid) == Some(i);
      } else if FirstLive(s, vqid).Some? {
        assert FirstLive(s, vqid).value == |s| - 1;
        CountLivePositive(front, vqid);
      }
    }
  }

  /** `SegmentMetadata`. */
  class SegmentMetadata {
    var metadata: seq<Slot>

    /** `NewSegmentMetadata`: an empty table. */
    constructor ()
      ensures metadata == []
    {
      metadata := [];
    }

    /** `Add`: the record takes the next slot; earlier slots are untouched. */
    method Add(m: Metadata)
      modifies this
      ensures metadata == old(metadata) + [Some(m)]
    {
      metadata := metadata + [Some(m)];
    }

    /** `GetByid`: the slot `id` (possibly a tombstone), or nothing past the end. */
    method GetByid(id: int) returns (r: Slot)
      requires id >= 0
      ensures id >= |metadata| ==> r.None?
      ensures id < |metadata| ==> r == metadata[id]
    {
      if id >= |metadata| {
        return None;
      }
      return metadata[id];
    }

    /** `Size`: the number of slots, tombstones included. */
    method Size() returns (n: int)
      ensures n == |metadata|
    {
      return |metadata|;
    }

    /** `DeleteByVqid`: tombstone the first live record with `vqid`; report whether there
        was one. */
    method DeleteByVqid(vqid: string) returns (found: bool)
      modifies this
      ensures found <==> FirstLive(old(metadata), vqid).Some?
      ensures metadata == DeleteFirst(old(metadata), vqid)
    {
      var i := 0;
      while i < |metadata|
        invariant 0 <= i <= |metadata|
        invariant metadata == old(metadata)
        invariant forall j :: 0 <= j < i ==> !IsLiveMatch(metadata[j], vqid)
      {
        if metadata[i].None? {
          i := i + 1;
          continue;
        }
        if metadata[i].value.vqid == vqid {
          assert FirstLive(metadata, vqid) == Some(i);
          metadata := metadata[i := None];
          return true;
        }
        i := i + 1;
      }
      return false;
    }

    /** `Update`: give every live record with `vqid` the new data; return how many there were. */
    method Update(vqid: string, data: Bytes) returns (count: int)
      modifies this
      ensures count == CountLive(old(metadata), vqid)
      ensures metadata == UpdateData(old(metadata), vqid, data)
    {
      count := 0;
      var i := 0;
      while i < |metadata|
        invariant 0 <= i <= |metadata| == |old(metadata)|
        invariant count == CountLive(old(metadata)[..i], vqid)
        invariant forall j :: 0 <= j < i ==> metadata[j] == UpdateData(old(metadata), vqid, data)[j]
        invariant forall j :: i <= j < |metadata| ==> metadata[j] == old(metadata)[j]
      {
        assert old(metadata)[..i + 1][..i] == old(metadata)[..i];
        if metadata[i].None? {
          i := i + 1;
          continue;
        }
        if metadata[i].value.vqid == vqid {
          metadata := metadata[i := Some(Metadata(metadata[i].value.vqid, data))];
          count := count + 1;
        }
        i := i + 1;
      }
      assert old(metadata)[..i] == old(metadata);
    }

    /** `GetByVqid`: the first live record with `vqid`, the one `DeleteByVqid` would remove. */
    method GetByVqid(vqid: string) returns (r: Option<Metadata>)
      ensures FirstLive(metadata, vqid).None? ==> r.None?
      ensures FirstLive(metadata, vqid).Some? ==> r == metadata[FirstLive(metadata, vqid).value]
    {
      var i := 0;
      while i < |metadata|
        invariant 0 <= i <= |metadata|
        invariant forall j :: 0 <= j < i ==> !IsLiveMatch(metadata[j], vqid)
      {
        if metadata[i].None? {
          i := i + 1;
          continue;
        }
        if metadata[i].value.vqid == vqid {
          assert FirstLive(metadata, vqid) == Some(i);
          return metadata[i];
        }
        i := i + 1;
      }
      return None;
    }
  }
}
