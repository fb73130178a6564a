/**
 Evidence of a decision's order updates: records packed greedily, in order, into payloads of at most
 64 KiB. A record's encoded size is a parameter.
 */
module Evidence {
  import opened Wrappers

  const MAX_EVIDENCE_PAYLOAD_BYTES: nat := 65_536

  /** Bytes of a list's length prefix in the variable-width encoding. */
  function PrefixBytes(count: nat): (n: nat)
    ensures 1 <= n <= 9
  {
    if count < 251 then 1
    else if count <= 0xFFFF then 3
    else if count <= 0xFFFF_FFFF then 5
    else 9
  }

  ghost function Pow256(n: nat): nat {
    if n == 0 then 1 else 256 * Pow256(n - 1)
  }

  /** A count below 251 is its own prefix; any other follows a marker, in the narrowest integer of two, four
      or eight bytes that holds it. */
  lemma PrefixHoldsCount(count: nat)
    requires 251 <= count < 0x1_0000_0000_0000_0000
    ensures PrefixBytes(count) - 1 in {2, 4, 8} && count < Pow256(PrefixBytes(count) - 1)
    ensures forall width :: width in {2, 4, 8} && count < Pow256(width) ==> PrefixBytes(count) - 1 <= width
    ensures forall small: nat :: small < 251 ==> PrefixBytes(small) == 1
  {
    assert Pow256(2) == 0x1_0000;
    assert Pow256(4) == 256 * Pow256(3) == 0x1_0000_0000;
    assert Pow256(8) == 256 * Pow256(7) && Pow256(7) == 256 * Pow256(6) && Pow256(6) == 256 * Pow256(5)
        && Pow256(5) == 256 * Pow256(4);
  }

  ghost function TotalBytes<R>(records: seq<R>, size: R -> nat): nat {
    if records == [] then 0 else TotalBytes(records[..|records| - 1], size) + size(records[|records| - 1])
  }

  ghost function PayloadBytes<R>(chunk: seq<R>, size: R -> nat): nat {
    PrefixBytes(|chunk|) + TotalBytes(chunk, size)
  }

  ghost function Concatenated<R>(chunks: seq<seq<R>>): seq<R> {
    if chunks == [] then [] else Concatenated(chunks[..|chunks| - 1]) + chunks[|chunks| - 1]
  }

  /** A chunk holds something and fits its payload. */
  ghost predicate ValidChunk<R>(chunk: seq<R>, size: R -> nat) {
    chunk != [] && PayloadBytes(chunk, size) <= MAX_EVIDENCE_PAYLOAD_BYTES
  }

  /** Whether `record` could have gone into `chunk`, with room for any length prefix. */
  ghost predicate HasRoom<R>(chunk: seq<R>, record: R, size: R -> nat) {
    TotalBytes(chunk, size) + size(record) + 9 <= MAX_EVIDENCE_PAYLOAD_BYTES
  }

  /** No chunk had room for the first record of the next. */
  ghost predicate Packed<R>(chunks: seq<seq<R>>, size: R -> nat) {
    forall i :: 0 < i < |chunks| ==> chunks[i] != [] && !HasRoom(chunks[i - 1], chunks[i][0], size)
  }

  /** Whether a record fits a payload of its own. */
  predicate FitsAlone<R>(record: R, size: R -> nat) {
    1 + size(record) <= MAX_EVIDENCE_PAYLOAD_BYTES
  }

  lemma OneChunkMore<R>(chunks: seq<seq<R>>, chunk: seq<R>)
    ensures Concatenated(chunks + [chunk]) == Concatenated(chunks) + chunk
  {
    assert (chunks + [chunk])[..|chunks|] == chunks;
  }

  lemma OneRecordMore<R>(chunk: seq<R>, record: R, size: R -> nat)
    ensures TotalBytes(chunk + [record], size) == TotalBytes(chunk, size) + size(record)
  {
    assert (chunk + [record])[..|chunk|] == chunk;
  }

  lemma NoRoom<R>(chunk: seq<R>, record: R, size: R -> nat)
    ensures HasRoom(chunk, record, size) <==> TotalBytes(chunk, size) + size(record) + 9 <= MAX_EVIDENCE_PAYLOAD_BYTES
  {
  }

  /** A chunk in progress: one record, or several with the prefix's allowance to spare. */
  ghost predicate InProgress<R>(chunk: seq<R>, size: R -> nat) {
    |chunk| > 1 ==> TotalBytes(chunk, size) + 9 <= MAX_EVIDENCE_PAYLOAD_BYTES
  }

  lemma ChunkFits<R>(chunk: seq<R>, size: R -> nat)
    requires chunk != [] && InProgress(chunk, size)
    ensures |chunk| == 1 ==> (ValidChunk(chunk, size) <==> FitsAlone(chunk[0], size))
    ensures |chunk| > 1 ==> ValidChunk(chunk, size)
    ensures |chunk| > 1 ==> forall i :: 0 <= i < |chunk| ==> FitsAlone(chunk[i], size)
  {
    if |chunk| == 1 {
      assert chunk == [] + [chunk[0]];
      OneRecordMore([], chunk[0], size);
    } else {
      forall i | 0 <= i < |chunk|
        ensures size(chunk[i]) <= TotalBytes(chunk, size)
      {
        PartOfTotal(chunk, size, i);
      }
    }
  }

  lemma {:induction false} PartOfTotal<R>(chunk: seq<R>, size: R -> nat, i: nat)
    requires i < |chunk|
    ensures size(chunk[i]) <= TotalBytes(chunk, size)
  {
    if i < |chunk| - 1 {
      PartOfTotal(chunk[..|chunk| - 1], size, i);
    }
  }

  /** A chunk's payload, refused past the bound. */
  method Encoded<R>(chunk: seq<R>, size: R -> nat) returns (ok: bool)
    requires chunk != []
    ensures ok <==> ValidChunk(chunk, size)
  {
    var bytes := 0;
    for i := 0 to |chunk|
      invariant bytes == TotalBytes(chunk[..i], size)
    {
      assert chunk[..i + 1][..i] == chunk[..i];
      bytes := bytes + size(chunk[i]);
    }
    assert chunk[..|chunk|] == chunk;
    ok := PrefixBytes(|chunk|) + bytes <= MAX_EVIDENCE_PAYLOAD_BYTES;
  }

  lemma NextChunkIsPacked<R>(evidence: seq<seq<R>>, chunk: seq<R>, record: R, size: R -> nat)
    requires chunk != [] && Packed(evidence + [chunk], size) && !HasRoom(chunk, record, size)
    ensures Packed(evidence + [chunk] + [[record]], size)
  {
    hide HasRoom;
    var before, after := evidence + [chunk], evidence + [chunk] + [[record]];
    assert forall i :: 0 <= i < |before| ==> after[i] == before[i];
  }

  lemma LargerChunkIsPacked<R>(evidence: seq<seq<R>>, chunk: seq<R>, record: R, size: R -> nat)
    requires evidence != [] ==> chunk != []
    requires Packed(if chunk == [] then evidence else evidence + [chunk], size)
    ensures Packed(evidence + [chunk + [record]], size)
  {
    hide HasRoom;
    var after := evidence + [chunk + [record]];
    if chunk != [] {
      var before := evidence + [chunk];
      assert forall i :: 0 <= i < |evidence| ==> after[i] == before[i];
      assert after[|evidence|][0] == before[|evidence|][0];
    }
  }

  // ---------------------------------------------------------------------------------------
  // Packing
  // ---------------------------------------------------------------------------------------

  /** The first `n` records packed into `evidence` and the chunk in progress. */
  ghost predicate PackedSoFar<R>(records: seq<R>, n: nat, evidence: seq<seq<R>>, chunk: seq<R>, size: R -> nat)
    requires n <= |records|
  {
    && Concatenated(evidence) + chunk == records[..n]
    && InProgress(chunk, size) && (evidence != [] ==> chunk != [])
    && Packed(if chunk == [] then evidence else evidence + [chunk], size)
    && (forall i :: 0 <= i < |evidence| ==> ValidChunk(evidence[i], size))
    && (forall i :: 0 <= i < n - |chunk| ==> FitsAlone(records[i], size))
  }

  lemma {:induction false} ChunkGrows<R>(records: seq<R>, n: nat, evidence: seq<seq<R>>, chunk: seq<R>, size: R -> nat)
    requires n < |records| && PackedSoFar(records, n, evidence, chunk, size)
    requires chunk == [] || HasRoom(chunk, records[n], size)
    ensures PackedSoFar(records, n + 1, evidence, chunk + [records[n]], size)
  {
    hide ValidChunk, FitsAlone, Packed;
    assert records[..n + 1] == records[..n] + [records[n]];
    OneRecordMore(chunk, records[n], size);
    LargerChunkIsPacked(evidence, chunk, records[n], size);
  }

  /** The records of the chunk in progress. */
  lemma ChunkIsLatest<R>(records: seq<R>, n: nat, evidence: seq<seq<R>>, chunk: seq<R>)
    requires n <= |records| && Concatenated(evidence) + chunk == records[..n]
    ensures |chunk| <= n && forall k :: 0 <= k < |chunk| ==> chunk[k] == records[n - |chunk| + k]
  {
    var before := Concatenated(evidence);
    assert forall k :: 0 <= k < |chunk| ==> (before + chunk)[|before| + k] == chunk[k];
  }

  lemma {:induction false} RecordsFit<R>(records: seq<R>, n: nat, evidence: seq<seq<R>>, chunk: seq<R>, size: R -> nat)
    requires n <= |records| && PackedSoFar(records, n, evidence, chunk, size)
    requires chunk != [] && ValidChunk(chunk, size)
    ensures forall i :: 0 <= i < n ==> FitsAlone(records[i], size)
  {
    ChunkFits(chunk, size);
    ChunkIsLatest(records, n, evidence, chunk);
    hide ValidChunk, FitsAlone, Packed, Concatenated;
    forall i | 0 <= i < n
      ensures FitsAlone(records[i], size)
    {
      if i >= n - |chunk| {
        assert records[i] == chunk[i - (n - |chunk|)];
      }
    }
  }

  lemma ChunkCloses<R>(records: seq<R>, n: nat, evidence: seq<seq<R>>, chunk: seq<R>, size: R -> nat)
    requires n <= |records| && PackedSoFar(records, n, evidence, chunk, size)
    requires chunk != [] && ValidChunk(chunk, size)
    ensures Concatenated(evidence + [chunk]) == records[..n] && Packed(evidence + [chunk], size)
    ensures forall i :: 0 <= i <= |evidence| ==> ValidChunk((evidence + [chunk])[i], size)
  {
    hide Packed, ValidChunk, FitsAlone, Concatenated, InProgress;
    OneChunkMore(evidence, chunk);
  }

  lemma {:induction false} NextChunkBegins<R>(
      records: seq<R>, n: nat, evidence: seq<seq<R>>, chunk: seq<R>, size: R -> nat)
    requires n < |records| && PackedSoFar(records, n, evidence, chunk, size)
    requires chunk != [] && ValidChunk(chunk, size) && !HasRoom(chunk, records[n], size)
    ensures PackedSoFar(records, n + 1, evidence + [chunk], [records[n]], size)
  {
    RecordsFit(records, n, evidence, chunk, size);
    ChunkCloses(records, n, evidence, chunk, size);
    NextChunkIsPacked(evidence, chunk, records[n], size);
    hide PackedSoFar, ValidChunk, FitsAlone, Packed, Concatenated, HasRoom, InProgress;
    Begun(records, n, evidence + [chunk], size);
  }

  lemma {:induction false} Begun<R>(records: seq<R>, n: nat, closed: seq<seq<R>>, size: R -> nat)
    requires n < |records| && Concatenated(closed) == records[..n]
    requires Packed(closed + [[records[n]]], size)
    requires forall i :: 0 <= i < |closed| ==> ValidChunk(closed[i], size)
    requires forall i :: 0 <= i < n ==> FitsAlone(records[i], size)
    ensures PackedSoFar(records, n + 1, closed, [records[n]], size)
  {
    hide Packed, ValidChunk, FitsAlone, Concatenated;
    assert records[..n + 1] == records[..n] + [records[n]];
  }

  lemma ChunkTooLarge<R>(records: seq<R>, n: nat, evidence: seq<seq<R>>, chunk: seq<R>, size: R -> nat)
    requires n <= |records| && PackedSoFar(records, n, evidence, chunk, size)
    requires chunk != [] && !ValidChunk(chunk, size)
    ensures exists i :: 0 <= i < |records| && !FitsAlone(records[i], size)
  {
    ChunkFits(chunk, size);
    ChunkIsLatest(records, n, evidence, chunk);
    assert !FitsAlone(records[n - 1], size);
  }

  /** Packs the records: all of them, in order, exactly when each fits a payload of its own. */
  method OrderUpdateEvidence<R>(records: seq<R>, size: R -> nat) returns (r: Option<seq<seq<R>>>)
    ensures r.Some? <==> forall i :: 0 <= i < |records| ==> FitsAlone(records[i], size)
    ensures r.Some? ==>
      && Concatenated(r.value) == records
      && Packed(r.value, size)
      && forall i :: 0 <= i < |r.value| ==> ValidChunk(r.value[i], size)
  {
    hide ValidChunk, FitsAlone, Packed, InProgress, PackedSoFar, Concatenated, TotalBytes, HasRoom;
    var evidence: seq<seq<R>> := [];
    var chunk: seq<R> := [];
    var chunkBytes := 0;
    NothingIsPacked(records, size);
    for n := 0 to |records|
      invariant PackedSoFar(records, n, evidence, chunk, size)
      invariant chunkBytes == TotalBytes(chunk, size)
    {
      var bytes := size(records[n]);
      if chunk != [] && chunkBytes + bytes + 9 > MAX_EVIDENCE_PAYLOAD_BYTES {
        var ok := Encoded(chunk, size);
        if !ok {
          ChunkTooLarge(records, n, evidence, chunk, size);
          return None;
        }
        NoRoom(chunk, records[n], size);
        NextChunkBegins(records, n, evidence, chunk, size);
        OneRecordMore([], records[n], size);
        assert [] + [records[n]] == [records[n]];
        evidence := evidence + [chunk];
        chunk := [];
        chunkBytes := 0;
      } else {
        NoRoom(chunk, records[n], size);
        ChunkGrows(records, n, evidence, chunk, size);
        OneRecordMore(chunk, records[n], size);
      }
      chunk := chunk + [records[n]];
      chunkBytes := chunkBytes + bytes;
    }
    assert records[..|records|] == records;
    if chunk == [] {
      NothingWasPacked(records, evidence, size);
    } else {
      var ok := Encoded(chunk, size);
      if !ok {
        ChunkTooLarge(records, |records|, evidence, chunk, size);
        return None;
      }
      RecordsFit(records, |records|, evidence, chunk, size);
      ChunkCloses(records, |records|, evidence, chunk, size);
      evidence := evidence + [chunk];
    }
    return Some(evidence);
  }

  lemma NothingIsPacked<R>(records: seq<R>, size: R -> nat)
    ensures PackedSoFar(records, 0, [], [], size) && TotalBytes([], size) == 0
  {
  }

  /** Without a chunk in progress there were no records. */
  lemma NothingWasPacked<R>(records: seq<R>, evidence: seq<seq<R>>, size: R -> nat)
    requires PackedSoFar(records, |records|, evidence, [], size)
    ensures records == [] && evidence == [] && Concatenated(evidence) == records && Packed(evidence, size)
  {
    assert records[..|records|] == records;
  }
}
