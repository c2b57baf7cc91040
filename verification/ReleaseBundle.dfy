/** The release builder's script author: it writes a package into a governance script, splitting the
    metadata into chunks that the script joins again. */
module ReleaseBundle {
  import opened Common
  import opened MoveScript

  // Half of the largest 16-bit value: Move constants are limited to 64k.
  const CHUNK_SIZE: nat := 32767
  const BYTES_PER_LINE: nat := 20

  datatype ReleasePackage = ReleasePackage(metadata: seq<byte>, code: seq<seq<byte>>)

  // ----- Metadata chunks -----

  function Chunks(metadata: seq<byte>): (cs: seq<seq<byte>>)
    ensures |cs| > 0
    decreases |metadata|
  {
    if |metadata| < CHUNK_SIZE then [metadata]
    else [metadata[..CHUNK_SIZE]] + Chunks(metadata[CHUNK_SIZE..])
  }

  function Flatten(cs: seq<seq<byte>>): seq<byte> {
    if cs == [] then [] else Flatten(cs[..|cs| - 1]) + cs[|cs| - 1]
  }

  lemma {:induction false} FlattenCons(c: seq<byte>, cs: seq<seq<byte>>)
    ensures Flatten([c] + cs) == c + Flatten(cs)
  {
    var all := [c] + cs;
    if cs == [] {
      assert all[..0] == [];
      assert c + Flatten(cs) == c;
    } else {
      FlattenCons(c, cs[..|cs| - 1]);
      assert all[..|all| - 1] == [c] + cs[..|cs| - 1];
      Assoc(c, Flatten(cs[..|cs| - 1]), cs[|cs| - 1]);
    }
  }

  /** There are `len / 32767 + 1` chunks, none above the limit, the last strictly below it, and
      joined in order they are the metadata. */
  lemma {:induction false} ChunksExact(metadata: seq<byte>)
    ensures var cs := Chunks(metadata);
            && |cs| == |metadata| / 32767 + 1
            && (forall i :: 0 <= i < |cs| ==> |cs[i]| <= 32767)
            && |cs[|cs| - 1]| < 32767
            && Flatten(cs) == metadata
    decreases |metadata|
  {
    if |metadata| < CHUNK_SIZE {
      assert Chunks(metadata)[..0] == [];
      assert Flatten([]) + metadata == metadata;
    } else {
      var rest := metadata[CHUNK_SIZE..];
      ChunksExact(rest);
      FlattenCons(metadata[..CHUNK_SIZE], Chunks(rest));
      assert metadata == metadata[..CHUNK_SIZE] + rest;
    }
  }

  // ----- The intended statements -----

  function CodeStmts(code: seq<seq<byte>>): Script {
    if code == [] then []
    else
      var n := |code| - 1;
      CodeStmts(code[..n]) + [LetCode(n, code[n])] + [PushCode(n)]
  }

  function MetadataLets(cs: seq<seq<byte>>): Script {
    if cs == [] then [] else MetadataLets(cs[..|cs| - 1]) + [LetMetadata(|cs|, cs[|cs| - 1])]
  }

  function Appends(n: nat): Script {
    if n < 2 then [] else Appends(n - 1) + [AppendMetadata(n)]
  }

  /** Modules are numbered from zero, metadata chunks from one, and all chunks after the first one are
      appended in order. */
  lemma Numbering(code: seq<seq<byte>>, x: seq<byte>, n: nat)
    ensures CodeStmts([]) == [] && CodeStmts(code + [x]) == CodeStmts(code) + [LetCode(|code|, x)] + [PushCode(|code|)]
    ensures MetadataLets([]) == [] && MetadataLets(code + [x]) == MetadataLets(code) + [LetMetadata(|code| + 1, x)]
    ensures Appends(1) == [] && Appends(n + 2) == Appends(n + 1) + [AppendMetadata(n + 2)]
  {
    assert (code + [x])[..|code|] == code;
  }

  /** Everything between the resolve call and the last statement. */
  function Middle(package: ReleasePackage): Script {
    var cs := Chunks(package.metadata);
    [EmptyCode] + CodeStmts(package.code) + MetadataLets(cs) + Appends(|cs|) + [Publish]
  }

  function Body(package: ReleasePackage, account: nat, next: seq<byte>): Script {
    [Resolve(account, next)] + Middle(package)
  }

  lemma {:induction false} CodeStmtsPrintable(code: seq<seq<byte>>)
    ensures AllPrintable(CodeStmts(code))
  {
    if code == [] {
    } else {
      CodeStmtsPrintable(code[..|code| - 1]);
    }
  }

  lemma {:induction false} MetadataLetsPrintable(cs: seq<seq<byte>>)
    ensures AllPrintable(MetadataLets(cs))
  {
    if cs == [] {
    } else {
      MetadataLetsPrintable(cs[..|cs| - 1]);
    }
  }

  lemma {:induction false} AppendsPrintable(n: nat)
    ensures AllPrintable(Appends(n))
  {
    if n < 2 {
    } else {
      AppendsPrintable(n - 1);
    }
  }

  lemma MiddlePrintable(package: ReleasePackage)
    ensures AllPrintable(Middle(package))
  {
    CodeStmtsPrintable(package.code);
    MetadataLetsPrintable(Chunks(package.metadata));
    AppendsPrintable(|Chunks(package.metadata)|);
  }

  // ----- Running the statements -----

  lemma RunSnoc(ss: Script, s: Stmt, m: Machine)
    requires Run(ss, m).Some?
    ensures Run(ss + [s], m) == Step(s, Run(ss, m).value)
  {
    RunConcat(ss, [s], m);
    assert ([s])[1..] == [];
  }

  lemma {:induction false} CodePhase(code: seq<seq<byte>>, m: Machine)
    requires m.code == Some([]) && m.codeChunks == map[]
    ensures Run(CodeStmts(code), m) == Some(m.(code := Some(code)))
  {
    if code == [] {
    } else {
      var n := |code| - 1;
      var init := CodeStmts(code[..n]);
      CodePhase(code[..n], m);
      RunSnoc(init, LetCode(n, code[n]), m);
      RunSnoc(init + [LetCode(n, code[n])], PushCode(n), m);
      assert code[..n] + [code[n]] == code;
      assert (map[n := code[n]]) - {n} == map[];
    }
  }

  /** Chunk variables are numbered from one. */
  function ChunkAt(cs: seq<seq<byte>>, i: nat): seq<byte>
    requires 1 <= i <= |cs|
  {
    cs[i - 1]
  }

  function ChunkMap(cs: seq<seq<byte>>): map<nat, seq<byte>> {
    map i: nat | 1 <= i <= |cs| :: ChunkAt(cs, i)
  }

  lemma {:induction false} LetsPhase(cs: seq<seq<byte>>, m: Machine)
    requires m.metadataChunks == map[]
    ensures Run(MetadataLets(cs), m) == Some(m.(metadataChunks := ChunkMap(cs)))
  {
    if cs == [] {
      assert ChunkMap(cs) == map[];
    } else {
      var n := |cs| - 1;
      LetsPhase(cs[..n], m);
      RunSnoc(MetadataLets(cs[..n]), LetMetadata(|cs|, cs[n]), m);
      assert ChunkMap(cs) == ChunkMap(cs[..n])[|cs| := cs[n]];
    }
  }

  function JoinedAt(cs: seq<seq<byte>>, k: nat, i: nat): seq<byte>
    requires k <= |cs| && 1 <= i <= |cs|
  {
    if i == 1 then Flatten(cs[..k]) else cs[i - 1]
  }

  /** The chunk variables once the first `k` chunks are joined in the first one. */
  function JoinedMap(cs: seq<seq<byte>>, k: nat): map<nat, seq<byte>>
    requires 1 <= k <= |cs|
  {
    map i: nat | 1 <= i <= |cs| && (i == 1 || k < i) :: JoinedAt(cs, k, i)
  }

  lemma {:induction false} AppendsPhase(cs: seq<seq<byte>>, k: nat, m: Machine)
    requires 1 <= k <= |cs| && m.metadataChunks == ChunkMap(cs)
    ensures Run(Appends(k), m) == Some(m.(metadataChunks := JoinedMap(cs, k)))
  {
    if k == 1 {
      assert cs[..1][..0] == [] && Flatten(cs[..1]) == [] + cs[0] == cs[0];
      assert JoinedMap(cs, 1) == ChunkMap(cs);
    } else {
      AppendsPhase(cs, k - 1, m);
      RunSnoc(Appends(k - 1), AppendMetadata(k), m);
      var before := JoinedMap(cs, k - 1);
      assert cs[..k][..k - 1] == cs[..k - 1];
      assert Flatten(cs[..k]) == before[1] + before[k];
      assert JoinedMap(cs, k) == (before - {k})[1 := before[1] + before[k]];
    }
  }

  /** Running the script publishes exactly the package, passes on the next hash and records the commit. */
  lemma BodyRuns(package: ReleasePackage, account: nat, next: seq<byte>, commit: seq<byte>)
    ensures var r := Run(Body(package, account, next) + [SetGit(commit)], FRESH);
            && r.Some?
            && r.value.signer == Some(account)
            && r.value.resolved == Some(next)
            && r.value.published == Some((package.metadata, package.code))
            && r.value.commit == Some(commit)
  {
    var cs := Chunks(package.metadata);
    ChunksExact(package.metadata);
    var s0: Script := [Resolve(account, next)];
    var s1 := s0 + [EmptyCode];
    var s2 := s1 + CodeStmts(package.code);
    var s3 := s2 + MetadataLets(cs);
    var s4 := s3 + Appends(|cs|);
    var s5 := s4 + [Publish];
    assert Body(package, account, next) == s5;
    assert s0 == [] + s0;
    RunSnoc([], s0[0], FRESH);
    RunSnoc(s0, EmptyCode, FRESH);
    var m1 := Run(s1, FRESH).value;
    CodePhase(package.code, m1);
    RunConcat(s1, CodeStmts(package.code), FRESH);
    var m2 := Run(s2, FRESH).value;
    LetsPhase(cs, m2);
    RunConcat(s2, MetadataLets(cs), FRESH);
    var m3 := Run(s3, FRESH).value;
    AppendsPhase(cs, |cs|, m3);
    RunConcat(s3, Appends(|cs|), FRESH);
    assert cs[..|cs|] == cs;
    RunSnoc(s4, Publish, FRESH);
    RunSnoc(s5, SetGit(commit), FRESH);
  }
}
