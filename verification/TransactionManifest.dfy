/** The version-range check of a transaction backup manifest, with 64-bit arithmetic that wraps as
    the release build does. */
module TransactionManifest {
  import opened Common

  datatype Chunk = Chunk(first: u64, last: u64)
  datatype Backup = Backup(first: u64, last: u64, chunks: seq<Chunk>)

  datatype Verdict =
    | Accepted
    | BadRange
    | NoChunks
    | NotContinuous(expected: u64, actual: u64)
    | BadChunk(chunk: Chunk)
    | LastMismatch(found: u64)

  /** `v + 1`, wrapping. */
  function Succ(v: u64): u64 { if v == U64_MAX then 0 else v + 1 }

  /** `v - 1`, wrapping. */
  function Pred(v: u64): u64 { if v == 0 then U64_MAX else v - 1 }

  /** Each chunk is a range, starts right after the previous one, and the ends meet the manifest's. */
  predicate Linked(m: Backup) {
    && m.first <= m.last
    && |m.chunks| > 0
    && m.chunks[0].first == m.first
    && m.chunks[|m.chunks| - 1].last == m.last
    && (forall i :: 0 <= i < |m.chunks| ==> m.chunks[i].first <= m.chunks[i].last)
    && (forall i :: 0 < i < |m.chunks| ==> m.chunks[i].first == Succ(m.chunks[i - 1].last))
  }

  /** The version the chunk at `i` has to start with. */
  function Expected(m: Backup, i: nat): u64
    requires i <= |m.chunks|
  {
    if i == 0 then m.first else Succ(m.chunks[i - 1].last)
  }

  /** The chunks before `i` are all in order. */
  predicate LinkedUpTo(m: Backup, i: nat) {
    i <= |m.chunks| && forall j :: 0 <= j < i ==> Expected(m, j) == m.chunks[j].first <= m.chunks[j].last
  }

  /** Where and how the chunk at `i` is the first one out of order. */
  predicate BreaksAt(m: Backup, i: nat, r: Verdict) {
    && i < |m.chunks| && LinkedUpTo(m, i)
    && var c := m.chunks[i];
       if c.first != Expected(m, i) then r == NotContinuous(Expected(m, i), c.first)
       else c.last < c.first && r == BadChunk(c)
  }

  /** The verdict names the first chunk out of order. */
  ghost predicate Broken(m: Backup, r: Verdict) {
    exists i: nat :: BreaksAt(m, i, r)
  }

  lemma LinkedStep(m: Backup, i: nat)
    requires i < |m.chunks| && LinkedUpTo(m, i) && m.chunks[i].first == Expected(m, i) <= m.chunks[i].last
    ensures LinkedUpTo(m, i + 1)
  {
  }

  /** What is left to check once the loop has gone through. */
  lemma LinkedIffEnds(m: Backup)
    requires m.first <= m.last && |m.chunks| > 0
    ensures Linked(m) <==> LinkedUpTo(m, |m.chunks|) && m.chunks[|m.chunks| - 1].last == m.last
  {
    var n := |m.chunks|;
    if LinkedUpTo(m, n) && m.chunks[n - 1].last == m.last {
      assert Expected(m, 0) == m.chunks[0].first;
      forall i | 0 < i < n
        ensures m.chunks[i].first == Succ(m.chunks[i - 1].last)
      {
        assert Expected(m, i) == m.chunks[i].first;
      }
      assert Linked(m);
    }
  }

  lemma BrokenIsNotLinked(m: Backup, i: nat, r: Verdict)
    requires BreaksAt(m, i, r) && m.first <= m.last
    ensures !Linked(m) && Broken(m, r)
  {
    LinkedIffEnds(m);
  }

  /** The loop over the chunks: `None` when all are in order. */
  method Walk(m: Backup) returns (r: Option<Verdict>, nextVersion: u64)
    requires m.first <= m.last
    ensures r.None? ==> LinkedUpTo(m, |m.chunks|) && nextVersion == Expected(m, |m.chunks|)
    ensures r.Some? ==> (r.value.NotContinuous? || r.value.BadChunk?) && Broken(m, r.value) && !Linked(m)
  {
    nextVersion := m.first;
    for i := 0 to |m.chunks|
      invariant nextVersion == Expected(m, i)
      invariant LinkedUpTo(m, i)
    {
      var chunk := m.chunks[i];
      if chunk.first != nextVersion {
        r := Some(NotContinuous(nextVersion, chunk.first));
        BrokenIsNotLinked(m, i, r.value);
        return;
      }
      if chunk.last < chunk.first {
        r := Some(BadChunk(chunk));
        BrokenIsNotLinked(m, i, r.value);
        return;
      }
      LinkedStep(m, i);
      nextVersion := Succ(chunk.last);
    }
    r := None;
  }

  method Verify(m: Backup) returns (r: Verdict)
    ensures r.Accepted? <==> Linked(m)
    ensures r.BadRange? <==> m.first > m.last
    ensures r.NoChunks? <==> m.first <= m.last && m.chunks == []
    ensures r.NotContinuous? || r.BadChunk? ==> Broken(m, r)
    ensures r.LastMismatch? ==> LinkedUpTo(m, |m.chunks|) && m.chunks[|m.chunks| - 1].last == r.found != m.last
  {
    if m.first > m.last { return BadRange; }
    if m.chunks == [] { return NoChunks; }
    var broken, nextVersion := Walk(m);
    if broken.Some? { return broken.value; }
    var found := Pred(nextVersion);
    LinkedIffEnds(m);
    r := if found != m.last then LastMismatch(found) else Accepted;
  }

  // ----- What a manifest is meant to say -----

  predicate InChunk(m: Backup, i: nat, v: int)
  {
    i < |m.chunks| && m.chunks[i].first <= v <= m.chunks[i].last
  }

  ghost predicate InSomeChunk(m: Backup, v: int) {
    exists i: nat :: InChunk(m, i, v)
  }

  /** Every version of the range is in a chunk. */
  ghost predicate Covered(m: Backup) {
    forall v :: m.first <= v <= m.last ==> InSomeChunk(m, v)
  }

  /** No version is in two chunks. */
  ghost predicate Disjoint(m: Backup) {
    forall i: nat, j: nat, v :: InChunk(m, i, v) && InChunk(m, j, v) ==> i == j
  }

  ghost predicate Increasing(m: Backup) {
    forall i, j :: 0 <= i < j < |m.chunks| ==> m.chunks[i].first < m.chunks[j].first
  }

  ghost predicate Inside(m: Backup) {
    forall i :: 0 <= i < |m.chunks| ==> m.first <= m.chunks[i].first <= m.chunks[i].last <= m.last
  }

  /** There is a chunk, and the chunks split the range into consecutive pieces. */
  ghost predicate Partition(m: Backup) {
    |m.chunks| > 0 && Covered(m) && Disjoint(m) && Increasing(m) && Inside(m)
  }

  /** No chunk but the last ends at the largest version. */
  predicate NoEarlyMaximum(m: Backup) {
    forall i :: 0 <= i < |m.chunks| - 1 ==> m.chunks[i].last < U64_MAX
  }

  lemma {:induction false} LinkedOrder(m: Backup, i: nat, j: nat)
    requires Linked(m) && NoEarlyMaximum(m) && i < j < |m.chunks|
    ensures m.chunks[i].last < m.chunks[j].first
    decreases j
  {
    if i < j - 1 {
      LinkedOrder(m, i, j - 1);
    }
  }

  lemma LinkedInside(m: Backup)
    requires Linked(m) && NoEarlyMaximum(m)
    ensures Increasing(m) && Disjoint(m) && Inside(m)
  {
    var n := |m.chunks|;
    forall i, j | 0 <= i < j < n
      ensures m.chunks[i].last < m.chunks[j].first
    {
      LinkedOrder(m, i, j);
    }
    forall i | 0 <= i < n
      ensures m.first <= m.chunks[i].first <= m.chunks[i].last <= m.last
    {
      if i > 0 { LinkedOrder(m, 0, i); }
      if i < n - 1 { LinkedOrder(m, i, n - 1); }
    }
  }

  lemma {:induction false} LinkedCovers(m: Backup, k: nat, v: int) returns (i: nat)
    requires Linked(m) && NoEarlyMaximum(m) && k < |m.chunks|
    requires m.chunks[0].first <= v <= m.chunks[k].last
    ensures InChunk(m, i, v)
    decreases k
  {
    if m.chunks[k].first <= v {
      i := k;
    } else {
      i := LinkedCovers(m, k - 1, v);
    }
  }

  lemma PartitionNeighbours(m: Backup, i: nat)
    requires Partition(m) && 0 < i < |m.chunks|
    ensures m.chunks[i].first == m.chunks[i - 1].last + 1
  {
    var a, b := m.chunks[i - 1], m.chunks[i];
    assert a.first < b.first;
    if b.first <= a.last {
      assert InChunk(m, i - 1, b.first) && InChunk(m, i, b.first);
    }
    assert a.last < b.first <= m.last;
    var v := a.last + 1;
    assert InSomeChunk(m, v);
    var j: nat :| InChunk(m, j, v);
    if j < i - 1 {
      assert InChunk(m, j, a.first) && InChunk(m, i - 1, a.first);
    }
  }

  lemma PartitionEnds(m: Backup)
    requires Partition(m)
    ensures m.chunks[0].first == m.first && m.chunks[|m.chunks| - 1].last == m.last
  {
    assert m.first <= m.chunks[0].first <= m.chunks[0].last <= m.last;
    assert InSomeChunk(m, m.first) && InSomeChunk(m, m.last);
    var i: nat :| InChunk(m, i, m.first);
    var j: nat :| InChunk(m, j, m.last);
    var n := |m.chunks|;
    if j < n - 1 {
      assert m.chunks[j].first < m.chunks[n - 1].first;
      assert InChunk(m, j, m.chunks[n - 1].first) && InChunk(m, n - 1, m.chunks[n - 1].first);
    }
  }

  /** On every manifest: the check plus the absence of an early maximum is exactly the meaning. */
  lemma LinkedIffPartition(m: Backup)
    ensures Partition(m) <==> Linked(m) && NoEarlyMaximum(m)
  {
    if Linked(m) && NoEarlyMaximum(m) {
      LinkedInside(m);
      forall v | m.first <= v <= m.last
        ensures InSomeChunk(m, v)
      {
        var i := LinkedCovers(m, |m.chunks| - 1, v);
      }
    }
    if Partition(m) {
      PartitionEnds(m);
      forall i | 0 < i < |m.chunks|
        ensures m.chunks[i].first == m.chunks[i - 1].last + 1
      {
        PartitionNeighbours(m, i);
      }
      forall i | 0 <= i < |m.chunks| - 1
        ensures m.chunks[i].last < U64_MAX
      {
        assert m.chunks[i + 1].first == m.chunks[i + 1 - 1].last + 1;
      }
    }
  }

  /** The wrapped sum lets the check accept manifests that are no partition at all: a chunk running
      to the largest version followed by one starting again at zero. */
  lemma WrapAroundAccepted(first: u64, last: u64)
    requires first <= last
    ensures var m := Backup(first, last, [Chunk(first, U64_MAX), Chunk(0, last)]);
            Linked(m) && !Partition(m)
  {
    var m := Backup(first, last, [Chunk(first, U64_MAX), Chunk(0, last)]);
    assert m.chunks[0].last == U64_MAX;
    LinkedIffPartition(m);
  }

  // ----- Sizes -----

  function Size(c: Chunk): int { c.last - c.first + 1 }

  function TotalSize(chunks: seq<Chunk>): int {
    if chunks == [] then 0 else TotalSize(chunks[..|chunks| - 1]) + Size(chunks[|chunks| - 1])
  }

  lemma {:induction false} SizesUpTo(m: Backup, k: nat)
    requires Partition(m) && k < |m.chunks|
    ensures TotalSize(m.chunks[..k + 1]) == m.chunks[k].last - m.first + 1
  {
    var front := m.chunks[..k + 1];
    assert front[..k] == m.chunks[..k];
    PartitionEnds(m);
    if k == 0 {
      assert front[..0] == [];
    } else {
      SizesUpTo(m, k - 1);
      PartitionNeighbours(m, k);
    }
  }

  /** The chunks hold exactly as many versions as the range. */
  lemma SizesAddUp(m: Backup)
    requires Partition(m)
    ensures TotalSize(m.chunks) == m.last - m.first + 1
  {
    SizesUpTo(m, |m.chunks| - 1);
    PartitionEnds(m);
    assert m.chunks[..|m.chunks|] == m.chunks;
  }
}
