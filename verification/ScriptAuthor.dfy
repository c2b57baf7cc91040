/** The script author as it runs: loops that emit text and drain the metadata chunk by chunk. */
module ScriptAuthor {
  import opened Common
  import opened Hex
  import opened MoveText
  import opened MoveScript
  import opened ReleaseBundle

  /** The bytes of the text `vector::empty<u8>()`, which the author treats specially. */
  const SENTINEL: seq<byte> := [118, 101, 99, 116, 111, 114, 58, 58, 101, 109, 112, 116, 121, 60, 117, 56, 62, 40, 41]

  /** Collects emitted text; indentation only adds white space and is not recorded. */
  class CodeWriter {
    var text: string

    constructor ()
      ensures text == ""
    {
      text := "";
    }

    method Emit(s: string)
      requires Joins(text, s)
      modifies this
      ensures Squeeze(text) == Squeeze(old(text)) + Squeeze(s)
      ensures EndsInMark(s) ==> Closed(text)
      ensures s != "" && !EndsInSpace(s) ==> !EndsInSpace(text)
    {
      text := text + s;
      SqueezeConcat(old(text), s);
      if EndsInMark(s) { SqueezeLast(text); }
    }

    /** Between punctuation and anything else, white space leaves no visible trace. */
    method EmitSpace(c: char)
      requires IsSpace(c)
      modifies this
      ensures Squeeze(text) == Squeeze(old(text))
      ensures EndsInSpace(text)
    {
      text := text + [c];
      SqueezeSpace(old(text), c);
    }

    method EmitWord(s: string)
      requires NoSpace(s) && Joins(text, s)
      modifies this
      ensures Squeeze(text) == Squeeze(old(text)) + s
      ensures EndsInMark(s) ==> Closed(text)
      ensures s != "" ==> !EndsInSpace(text)
    {
      Emit(s);
      SqueezeWord(s);
    }

    /** The word `let`, a space that counts, and the text after it. */
    method EmitLet(s: string)
      requires Closed(text) && s != "" && Tight(s[0]) && !EndsInSpace(s)
      modifies this
      ensures Squeeze(text) == Squeeze(old(text)) + LET + Squeeze(s)
      ensures EndsInMark(s) ==> Closed(text)
      ensures !EndsInSpace(text)
    {
      EmitWord("let");
      ghost var ink := Squeeze(text);
      EmitSpace(' ');
      ghost var before := text;
      text := text + s;
      SqueezeGap(before, s);
      assert ink + " " == Squeeze(old(text)) + LET;
      if EndsInMark(s) { SqueezeLast(text); }
    }
  }

  // ----- Addresses -----

  /** An account as the author prints it: all its hexadecimal digits, without `0x`. */
  function Printed(a: Account): string { HexText(a) }

  /** Digits read as decimal are worth less than as hexadecimal, but for a single digit after zeros. */
  lemma {:induction false} DecimalBelowHex(s: seq<byte>)
    requires AllHex(s) && AllDigits(Chars(s))
    ensures NatOf(Chars(s)) <= HexNat(s)
    ensures NatOf(Chars(s)) == HexNat(s) <==> HexNat(s) < 10
  {
    if s == [] {
    } else {
      var init, c := s[..|s| - 1], s[|s| - 1];
      assert Chars(s)[..|s| - 1] == Chars(init);
      DecimalBelowHex(init);
      assert DigitValue(Chars(s)[|s| - 1]) == HexValue(c).value;
    }
  }

  lemma {:induction false} SmallIsDigits(s: seq<byte>)
    requires AllHex(s) && HexNat(s) < 10
    ensures AllDigits(Chars(s))
  {
    if s == [] {
    } else {
      var init, c := s[..|s| - 1], s[|s| - 1];
      SmallIsDigits(init);
      assert Chars(s) == Chars(init) + [c as char];
    }
  }

  /** The printed address, read as the decimal number it looks like, names its own account exactly for
      the accounts below ten; others are not numbers at all, or name another account. */
  lemma PrintedNames(a: Account)
    ensures AllDigits(Printed(a)) && NatOf(Printed(a)) == BeValue(a) <==> BeValue(a) < 10
  {
    HexEncodeValue(a);
    var s := HexEncode(a);
    if AllDigits(Printed(a)) { DecimalBelowHex(s); }
    if HexNat(s) < 10 { SmallIsDigits(s); }
  }

  lemma CoreAddressNamed()
    ensures AllDigits(Printed(CORE_ADDRESS)) && NatOf(Printed(CORE_ADDRESS)) == 1
  {
    var zeros := CORE_ADDRESS[..31];
    BeValueOfZeros(zeros);
    BeValueSnoc(zeros, 1);
    assert CORE_ADDRESS == zeros + [1];
    PrintedNames(CORE_ADDRESS);
  }

  // ----- Byte vectors -----

  method EmitItem(w: CodeWriter, ghost done: seq<byte>, b: byte, ghost start: string)
    requires Closed(w.text) && Squeeze(w.text) == start + Items(done)
    modifies w
    ensures Closed(w.text) && Squeeze(w.text) == start + Items(done + [b])
  {
    w.EmitWord(Decimal(b));
    w.EmitWord("u8,");
    ItemParts(start, done, b);
  }

  lemma ItemParts(start: string, done: seq<byte>, b: byte)
    ensures start + Items(done) + Decimal(b) + "u8," == start + Items(done + [b])
  {
    ItemsConcat(done, [b]);
    ItemsOfOne(b);
    Assoc(start + Items(done), Decimal(b), "u8,");
    Assoc(start, Items(done), Decimal(b) + "u8,");
  }

  /** Writes a vector literal, breaking the line before every twentieth byte. */
  method GenerateBlob(w: CodeWriter, data: seq<byte>)
    requires Closed(w.text)
    modifies w
    ensures Closed(w.text) && Squeeze(w.text) == Squeeze(old(w.text)) + VectorInk(data)
  {
    w.Emit(VECTOR);
    w.EmitWord("[");
    EmitLines(w, data);
    w.EmitWord("]");
    VectorParts(Squeeze(old(w.text)), data);
  }

  /** The elements, in lines of their own. */
  method EmitLines(w: CodeWriter, data: seq<byte>)
    requires Closed(w.text)
    modifies w
    ensures Closed(w.text) && Squeeze(w.text) == Squeeze(old(w.text)) + Items(data)
  {
    w.EmitSpace('\n');
    ghost var start := Squeeze(w.text);
    for i := 0 to |data|
      invariant Closed(w.text) && Squeeze(w.text) == start + Items(data[..i])
    {
      if (i + 1) % BYTES_PER_LINE == 0 {
        w.EmitSpace('\n');
      }
      EmitItem(w, data[..i], data[i], start);
      assert data[..i + 1] == data[..i] + [data[i]];
    }
    assert data[..|data|] == data;
    w.EmitSpace('\n');
  }

  lemma VectorParts(start: string, data: seq<byte>)
    ensures start + Squeeze(VECTOR) + "[" + Items(data) + "]" == start + VectorInk(data)
  {
    Assoc(start + Squeeze(VECTOR) + "[", Items(data), "]");
    Assoc(start + Squeeze(VECTOR), "[", Items(data) + "]");
    Assoc(start, Squeeze(VECTOR), "[" + (Items(data) + "]"));
  }

  // ----- The resolve call -----

  /** The next-hash argument: a hash equal to the sentinel is replaced by its meaning. */
  function ArgumentInk(next: seq<byte>): string {
    if next == SENTINEL then EmptyHashInk() else HashInk(next)
  }

  function Meant(next: seq<byte>): seq<byte> {
    if next == SENTINEL then [] else next
  }

  method EmitResolveCall(w: CodeWriter)
    requires Closed(w.text)
    modifies w
    ensures Closed(w.text)
    ensures Squeeze(w.text) == Squeeze(old(w.text)) + LET + Squeeze(SIGNER) + Squeeze(RESOLVE)
  {
    w.EmitLet(SIGNER);
    w.EmitSpace(' ');
    w.Emit(RESOLVE);
  }

  lemma PrintedWord(a: Account)
    ensures Printed(a) != "" && AllHexChars(Printed(a)) && NoSpace(Printed(a))
  {
    HexTextExact(a);
    assert forall c :: IsHexChar(c) ==> !IsSpace(c);
  }

  method EmitArguments(w: CodeWriter, address: Account, separator: char)
    requires Closed(w.text) && IsSpace(separator)
    modifies w
    ensures Closed(w.text)
    ensures Squeeze(w.text) == Squeeze(old(w.text)) + Squeeze(PROPOSAL_ID) + "@" + Printed(address) + ","
  {
    w.EmitSpace(separator);
    w.Emit(PROPOSAL_ID);
    w.EmitSpace(separator);
    EmitAddress(w, address);
    w.EmitSpace(separator);
  }

  method EmitAddress(w: CodeWriter, address: Account)
    modifies w
    ensures Closed(w.text)
    ensures Squeeze(w.text) == Squeeze(old(w.text)) + "@" + Printed(address) + ","
  {
    PrintedWord(address);
    w.EmitWord("@");
    w.EmitWord(Printed(address));
    w.EmitWord(",");
  }

  method EmitResolveHead(w: CodeWriter, address: Account, separator: char)
    requires Closed(w.text) && IsSpace(separator)
    modifies w
    ensures Closed(w.text)
    ensures Squeeze(w.text) == Squeeze(old(w.text)) + LET + Squeeze(SIGNER) + Squeeze(RESOLVE)
                               + Squeeze(PROPOSAL_ID) + "@" + Printed(address) + ","
  {
    EmitResolveCall(w);
    EmitArguments(w, address, separator);
  }

  method EmitItems(w: CodeWriter, data: seq<byte>)
    requires Closed(w.text)
    modifies w
    ensures Closed(w.text) && Squeeze(w.text) == Squeeze(old(w.text)) + Items(data)
  {
    ghost var start := Squeeze(w.text);
    for i := 0 to |data|
      invariant Closed(w.text) && Squeeze(w.text) == start + Items(data[..i])
    {
      EmitItem(w, data[..i], data[i], start);
      assert data[..i + 1] == data[..i] + [data[i]];
    }
    assert data[..|data|] == data;
  }

  /** The call with the sentinel: all on one line. */
  method EmitEmptyResolve(w: CodeWriter, address: Account)
    requires Closed(w.text)
    modifies w
    ensures Closed(w.text) && Squeeze(w.text) == Squeeze(old(w.text)) + ResolveInk(Printed(address), EmptyHashInk())
  {
    EmitResolveHead(w, address, ' ');
    w.Emit(VECTOR);
    w.Emit(EMPTY_CALL);
    w.EmitSpace('\n');
    ResolveParts(Squeeze(old(w.text)), Printed(address), Squeeze(VECTOR), Squeeze(EMPTY_CALL));
  }

  method EmitHashResolve(w: CodeWriter, address: Account, next: seq<byte>)
    requires Closed(w.text)
    modifies w
    ensures Closed(w.text) && Squeeze(w.text) == Squeeze(old(w.text)) + ResolveInk(Printed(address), HashInk(next))
  {
    EmitResolveHead(w, address, '\n');
    EmitVectorOnOneLine(w, next);
    w.Emit(CLOSE_RESOLVE);
    w.EmitSpace('\n');
    ResolveParts(Squeeze(old(w.text)), Printed(address), VectorInk(next), Squeeze(CLOSE_RESOLVE));
  }

  method GenerateNextExecutionHash(w: CodeWriter, address: Account, next: seq<byte>)
    requires Closed(w.text)
    modifies w
    ensures Closed(w.text) && Squeeze(w.text) == Squeeze(old(w.text)) + ResolveInk(Printed(address), ArgumentInk(next))
  {
    if next == SENTINEL {
      EmitEmptyResolve(w, address);
    } else {
      EmitHashResolve(w, address, next);
    }
  }

  method EmitVectorOnOneLine(w: CodeWriter, data: seq<byte>)
    requires Closed(w.text)
    modifies w
    ensures Closed(w.text) && Squeeze(w.text) == Squeeze(old(w.text)) + VectorInk(data)
  {
    ghost var start := Squeeze(w.text);
    w.Emit(VECTOR);
    w.EmitWord("[");
    EmitItems(w, data);
    w.EmitWord("]");
    VectorParts(start, data);
  }

  lemma ResolveParts(start: string, address: string, hash: string, close: string)
    ensures start + LET + Squeeze(SIGNER) + Squeeze(RESOLVE) + Squeeze(PROPOSAL_ID) + "@" + address + "," + hash + close
         == start + (LET + (Squeeze(SIGNER) + (Squeeze(RESOLVE) + (Squeeze(PROPOSAL_ID)
                     + ("@" + (address + ("," + (hash + close))))))))
  {
    var s1 := start + LET;
    var s2 := s1 + Squeeze(SIGNER);
    var s3 := s2 + Squeeze(RESOLVE);
    var s4 := s3 + Squeeze(PROPOSAL_ID);
    var s5 := s4 + "@";
    var s6 := s5 + address;
    var t6 := "," + (hash + close);
    var t5 := address + t6;
    var t4 := "@" + t5;
    var t3 := Squeeze(PROPOSAL_ID) + t4;
    var t2 := Squeeze(RESOLVE) + t3;
    var t1 := Squeeze(SIGNER) + t2;
    Assoc(s6 + ",", hash, close);
    Assoc(s6, ",", hash + close);
    Assoc(s5, address, t6);
    Assoc(s4, "@", t5);
    Assoc(s3, Squeeze(PROPOSAL_ID), t4);
    Assoc(s2, Squeeze(RESOLVE), t3);
    Assoc(s1, Squeeze(SIGNER), t2);
    Assoc(start, LET, t1);
  }

  // ----- The other statements -----

  /** An index, ` = `, a vector literal and a semicolon. */
  method EmitBinding(w: CodeWriter, i: nat, data: seq<byte>)
    requires !EndsInSpace(w.text)
    modifies w
    ensures Closed(w.text)
    ensures Squeeze(w.text) == Squeeze(old(w.text)) + (Decimal(i) + ("=" + (VectorInk(data) + Squeeze(SEMICOLON))))
  {
    ghost var start := Squeeze(w.text);
    w.EmitWord(Decimal(i));
    w.EmitSpace(' ');
    w.EmitWord("=");
    w.EmitSpace(' ');
    GenerateBlob(w, data);
    w.Emit(SEMICOLON);
    w.EmitSpace('\n');
    Assoc(start + Decimal(i) + "=", VectorInk(data), Squeeze(SEMICOLON));
    Assoc(start + Decimal(i), "=", VectorInk(data) + Squeeze(SEMICOLON));
    Assoc(start, Decimal(i), "=" + (VectorInk(data) + Squeeze(SEMICOLON)));
  }

  method EmitLetCode(w: CodeWriter, i: nat, data: seq<byte>)
    requires Closed(w.text)
    modifies w
    ensures Closed(w.text) && Squeeze(w.text) == Squeeze(old(w.text)) + Ink(LetCode(i, data))
  {
    ghost var start := Squeeze(w.text);
    w.EmitLet(CODE);
    w.Emit(CHUNK);
    EmitBinding(w, i, data);
    ghost var binding := Decimal(i) + ("=" + (VectorInk(data) + Squeeze(SEMICOLON)));
    Assoc(start + LET + Squeeze(CODE), Squeeze(CHUNK), binding);
    Assoc(start + LET, Squeeze(CODE), Squeeze(CHUNK) + binding);
    Assoc(start, LET, Squeeze(CODE) + (Squeeze(CHUNK) + binding));
  }

  method EmitLetMetadata(w: CodeWriter, i: nat, data: seq<byte>)
    requires Closed(w.text)
    modifies w
    ensures Closed(w.text) && Squeeze(w.text) == Squeeze(old(w.text)) + Ink(LetMetadata(i, data))
  {
    ghost var start := Squeeze(w.text);
    w.EmitLet(METADATA_CHUNK);
    EmitBinding(w, i, data);
    ghost var binding := Decimal(i) + ("=" + (VectorInk(data) + Squeeze(SEMICOLON)));
    Assoc(start + LET, Squeeze(METADATA_CHUNK), binding);
    Assoc(start, LET, Squeeze(METADATA_CHUNK) + binding);
  }

  method EmitVectorCallHead(w: CodeWriter, call: string)
    requires Closed(w.text) && call != "" && !EndsInSpace(call)
    modifies w
    ensures !EndsInSpace(w.text)
    ensures Squeeze(w.text) == Squeeze(old(w.text)) + Squeeze(VE) + Squeeze(CTOR) + Squeeze(call)
  {
    w.Emit(VE);
    w.Emit(CTOR);
    w.Emit(call);
  }

  method EmitVectorCall(w: CodeWriter, call: string, i: nat)
    requires Closed(w.text) && call != "" && !EndsInSpace(call)
    modifies w
    ensures Closed(w.text)
    ensures Squeeze(w.text) == Squeeze(old(w.text))
                               + (Squeeze(VE) + (Squeeze(CTOR) + (Squeeze(call) + (Decimal(i) + Squeeze(CLOSE_CALL)))))
  {
    ghost var start := Squeeze(w.text);
    EmitVectorCallHead(w, call);
    w.EmitWord(Decimal(i));
    w.Emit(CLOSE_CALL);
    w.EmitSpace('\n');
    VectorCallParts(start, call, i);
  }

  lemma VectorCallParts(start: string, call: string, i: nat)
    ensures start + Squeeze(VE) + Squeeze(CTOR) + Squeeze(call) + Decimal(i) + Squeeze(CLOSE_CALL)
         == start + (Squeeze(VE) + (Squeeze(CTOR) + (Squeeze(call) + (Decimal(i) + Squeeze(CLOSE_CALL)))))
  {
    var arg := Decimal(i) + Squeeze(CLOSE_CALL);
    Assoc(start + Squeeze(VE) + Squeeze(CTOR) + Squeeze(call), Decimal(i), Squeeze(CLOSE_CALL));
    Assoc(start + Squeeze(VE) + Squeeze(CTOR), Squeeze(call), arg);
    Assoc(start + Squeeze(VE), Squeeze(CTOR), Squeeze(call) + arg);
    Assoc(start, Squeeze(VE), Squeeze(CTOR) + (Squeeze(call) + arg));
  }

  /** Since `start`, the visible text is that of the given statements. */
  ghost predicate Written(w: CodeWriter, start: string, ss: Script)
    reads w
  {
    Closed(w.text) && Squeeze(w.text) == start + InkAll(ss)
  }

  method EmitCodeChunk(w: CodeWriter, i: nat, data: seq<byte>, ghost start: string, ghost before: Script)
    requires Written(w, start, before)
    modifies w
    ensures var after := before + [LetCode(i, data)] + [PushCode(i)];
            Written(w, start, after)
  {
    EmitLetCode(w, i, data);
    Extend(start, before, LetCode(i, data));
    EmitVectorCall(w, PUSH_BACK, i);
    Extend(start, before + [LetCode(i, data)], PushCode(i));
  }

  lemma CodeStmtsStep(before: Script, code: seq<seq<byte>>, i: nat)
    requires i < |code|
    ensures before + CodeStmts(code[..i]) + [LetCode(i, code[i])] + [PushCode(i)] == before + CodeStmts(code[..i + 1])
  {
    assert code[..i + 1][..i] == code[..i];
    Assoc(before + CodeStmts(code[..i]), [LetCode(i, code[i])], [PushCode(i)]);
    Assoc(before, CodeStmts(code[..i]), [LetCode(i, code[i])] + [PushCode(i)]);
    Assoc(CodeStmts(code[..i]), [LetCode(i, code[i])], [PushCode(i)]);
  }

  method EmitCode(w: CodeWriter, code: seq<seq<byte>>, ghost start: string, ghost before: Script)
    requires Written(w, start, before)
    modifies w
    ensures Written(w, start, before + CodeStmts(code))
  {
    assert before + [] == before;
    assert code[..0] == [];
    for i := 0 to |code|
      invariant Written(w, start, before + CodeStmts(code[..i]))
    {
      EmitCodeChunk(w, i, code[i], start, before + CodeStmts(code[..i]));
      CodeStmtsStep(before, code, i);
    }
    assert code[..|code|] == code;
  }

  lemma Extend(start: string, ss: Script, s: Stmt)
    ensures start + InkAll(ss) + Ink(s) == start + InkAll(ss + [s])
  {
    JoinedSnoc(Ink, ss, s);
    Assoc(start, InkAll(ss), Ink(s));
  }

  /** The k-th piece of the metadata; the last one is what is left. */
  function Piece(metadata: seq<byte>, k: nat): seq<byte>
    requires CHUNK_SIZE * k <= |metadata|
  {
    if CHUNK_SIZE * (k + 1) <= |metadata| then metadata[CHUNK_SIZE * k..CHUNK_SIZE * (k + 1)]
    else metadata[CHUNK_SIZE * k..]
  }

  lemma PieceOfRest(metadata: seq<byte>, k: nat)
    requires k > 0 && CHUNK_SIZE * k <= |metadata|
    ensures CHUNK_SIZE * (k - 1) <= |metadata[CHUNK_SIZE..]|
    ensures Piece(metadata, k) == Piece(metadata[CHUNK_SIZE..], k - 1)
  {
  }

  lemma {:induction false} ChunkIsPiece(metadata: seq<byte>, k: nat)
    requires CHUNK_SIZE * k <= |metadata|
    ensures k < |Chunks(metadata)| && Chunks(metadata)[k] == Piece(metadata, k)
    decreases k
  {
    if k == 0 {
    } else {
      PieceOfRest(metadata, k);
      ChunkIsPiece(metadata[CHUNK_SIZE..], k - 1);
    }
  }

  method EmitMetadataChunk(w: CodeWriter, i: nat, data: seq<byte>, ghost start: string, ghost before: Script)
    requires Written(w, start, before)
    modifies w
    ensures var after := before + [LetMetadata(i, data)];
            Written(w, start, after)
  {
    EmitLetMetadata(w, i, data);
    Extend(start, before, LetMetadata(i, data));
  }

  lemma MetadataLetsStep(before: Script, cs: seq<seq<byte>>, i: nat)
    requires i < |cs|
    ensures before + MetadataLets(cs[..i]) + [LetMetadata(i + 1, cs[i])] == before + MetadataLets(cs[..i + 1])
  {
    assert cs[..i + 1][..i] == cs[..i];
    Assoc(before, MetadataLets(cs[..i]), [LetMetadata(i + 1, cs[i])]);
  }

  /** A piece is a full chunk from the front of what is left, or all of it. */
  lemma PieceIsFront(metadata: seq<byte>, k: nat)
    requires CHUNK_SIZE * k <= |metadata|
    ensures var left := metadata[CHUNK_SIZE * k..];
            Piece(metadata, k) == if CHUNK_SIZE <= |left| then left[..CHUNK_SIZE] else left
  {
  }

  lemma LastPiece(n: nat, i: nat)
    ensures i < n / CHUNK_SIZE + 1 <==> CHUNK_SIZE * i <= n
  {
  }

  /** `drain(0..n)` on what is left of the metadata: always in range, and always the next chunk. */
  method DrainChunk(ghost metadata: seq<byte>, remaining: seq<byte>, i: nat, count: nat)
    returns (chunk: seq<byte>, rest: seq<byte>)
    requires count == |metadata| / CHUNK_SIZE + 1 && 1 <= i <= count
    requires CHUNK_SIZE * (i - 1) <= |metadata| && remaining == metadata[CHUNK_SIZE * (i - 1)..]
    ensures count == |Chunks(metadata)| && chunk == Chunks(metadata)[i - 1]
    ensures i < count ==> CHUNK_SIZE * i <= |metadata| && rest == metadata[CHUNK_SIZE * i..]
    ensures remaining == chunk + rest
  {
    DrainFront(metadata, i, count);
    DrainRest(metadata, i, count);
    var toDrain := if i == count then |remaining| else CHUNK_SIZE;
    chunk, rest := remaining[..toDrain], remaining[toDrain..];
  }

  lemma DrainFront(metadata: seq<byte>, i: nat, count: nat)
    requires count == |metadata| / CHUNK_SIZE + 1 && 1 <= i <= count && CHUNK_SIZE * (i - 1) <= |metadata|
    ensures var left := metadata[CHUNK_SIZE * (i - 1)..];
            var n := if i == count then |left| else CHUNK_SIZE;
            n <= |left| && count == |Chunks(metadata)| && left[..n] == Chunks(metadata)[i - 1]
  {
    ChunksExact(metadata);
    ChunkIsPiece(metadata, i - 1);
    PieceIsFront(metadata, i - 1);
    LastPiece(|metadata|, i);
    var left := metadata[CHUNK_SIZE * (i - 1)..];
    assert left[..|left|] == left;
  }

  lemma DrainRest(metadata: seq<byte>, i: nat, count: nat)
    requires count == |metadata| / CHUNK_SIZE + 1 && 1 <= i <= count && CHUNK_SIZE * (i - 1) <= |metadata|
    ensures i < count ==>
              && CHUNK_SIZE * i <= |metadata|
              && metadata[CHUNK_SIZE * (i - 1)..][CHUNK_SIZE..] == metadata[CHUNK_SIZE * i..]
  {
    if i < count {
      LastPiece(|metadata|, i);
      assert CHUNK_SIZE * i == CHUNK_SIZE * (i - 1) + CHUNK_SIZE;
    }
  }

  /** Drains the metadata front to back, one binding per chunk. */
  method EmitMetadata(w: CodeWriter, metadata: seq<byte>, ghost start: string, ghost before: Script)
    returns (count: nat)
    requires Written(w, start, before)
    modifies w
    ensures count == |Chunks(metadata)|
    ensures var after := before + MetadataLets(Chunks(metadata));
            Written(w, start, after)
  {
    ghost var cs := Chunks(metadata);
    ChunksExact(metadata);
    var remaining := metadata;
    count := |metadata| / CHUNK_SIZE + 1;
    assert before + [] == before;
    assert cs[..0] == [];
    for i := 1 to count + 1
      invariant i <= count ==> CHUNK_SIZE * (i - 1) <= |metadata| && remaining == metadata[CHUNK_SIZE * (i - 1)..]
      invariant Written(w, start, before + MetadataLets(cs[..i - 1]))
    {
      var chunk;
      chunk, remaining := DrainChunk(metadata, remaining, i, count);
      EmitMetadataChunk(w, i, chunk, start, before + MetadataLets(cs[..i - 1]));
      MetadataLetsStep(before, cs, i - 1);
    }
    assert cs[..count] == cs;
  }

  method EmitAppend(w: CodeWriter, i: nat, ghost start: string, ghost before: Script)
    requires Written(w, start, before)
    modifies w
    ensures Written(w, start, before + [AppendMetadata(i)])
  {
    EmitVectorCall(w, APPEND, i);
    Extend(start, before, AppendMetadata(i));
  }

  method EmitAppends(w: CodeWriter, count: nat, ghost start: string, ghost before: Script)
    requires count > 0 && Written(w, start, before)
    modifies w
    ensures Written(w, start, before + Appends(count))
  {
    assert before + [] == before;
    for i := 2 to count + 1
      invariant Written(w, start, before + Appends(i - 1))
    {
      EmitAppend(w, i, start, before + Appends(i - 1));
      Assoc(before, Appends(i - 1), [AppendMetadata(i)]);
    }
  }

  method EmitGit(w: CodeWriter, git: string)
    requires Closed(w.text)
    modifies w
    ensures Squeeze(w.text) == Squeeze(old(w.text)) + GitInk(git)
  {
    ghost var start := Squeeze(w.text);
    w.Emit(VE);
    w.Emit(SET_GIT);
    w.Emit("\"" + git + "\"");
    EmitEnd(w);
    GitParts(start, QuotedInk(git));
  }

  method EmitEnd(w: CodeWriter)
    modifies w
    ensures Squeeze(w.text) == Squeeze(old(w.text)) + ")" + "}" + "}"
  {
    w.EmitWord(")");
    w.EmitSpace('\n');
    w.EmitWord("}");
    w.EmitSpace('\n');
    w.EmitWord("}");
    w.EmitSpace('\n');
  }

  lemma GitParts(start: string, q: string)
    ensures start + Squeeze(VE) + Squeeze(SET_GIT) + q + ")" + "}" + "}"
         == start + (Squeeze(VE) + (Squeeze(SET_GIT) + (q + END)))
  {
    var s3 := start + Squeeze(VE) + Squeeze(SET_GIT) + q;
    Assoc(s3, ")", "}");
    Assoc(s3, ")" + "}", "}");
    assert ")" + "}" + "}" == END;
    Assoc(start + Squeeze(VE) + Squeeze(SET_GIT), q, END);
    Assoc(start + Squeeze(VE), Squeeze(SET_GIT), q + END);
    Assoc(start, Squeeze(VE), Squeeze(SET_GIT) + (q + END));
  }

  // ----- The whole script -----

  function MiddleInk(package: ReleasePackage): string { InkAll(Middle(package)) }

  function FirstInk(address: Account, next: seq<byte>): string {
    ResolveInk(Printed(address), ArgumentInk(next))
  }

  /** The visible text of the whole script. */
  function AuthoredInk(package: ReleasePackage, address: Account, next: seq<byte>, git: string): string {
    OpeningInk() + (FirstInk(address, next) + (MiddleInk(package) + GitInk(git)))
  }

  /** The whole script in the author's own words. */
  lemma AuthoredText(package: ReleasePackage, address: Account, next: seq<byte>, git: string)
    ensures AuthoredInk(package, address, next, git) ==
            Squeeze("script {\nuse std::vector;\nuse diem_framework::diem_governance;\nuse diem_framework::code" + ";")
            + Squeeze("use diem_framework::version;\n\nfun main(proposal_id: u64)" + "{")
            + ("let " + (Squeeze("framework_signer =") + (Squeeze("diem_governance::resolve_multi_step_proposal" + "(")
                         + (Squeeze("proposal_id,") + ("@" + (HexText(address) + ("," + ArgumentInk(next)))))))
               + (InkAll([EmptyCode] + CodeStmts(package.code) + MetadataLets(Chunks(package.metadata))
                         + Appends(|Chunks(package.metadata)|) + [Publish])
                  + (Squeeze("ve") + (Squeeze("rsion::upgrade_set_git(&framework_signer, " + "x")
                                      + (QuotedInk(git) + ")}}")))))
    ensures ArgumentInk(next) ==
            if Chars(next) == "vector::empty<u8>()" then Squeeze("vector") + Squeeze("::empty<u8>());")
            else VectorInk(next) + Squeeze(",\n);")
  {
    FrameTexts(Printed(address), ArgumentInk(next), next, git);
    SentinelText(next);
  }

  lemma SentinelText(next: seq<byte>)
    ensures next == SENTINEL <==> Chars(next) == "vector::empty<u8>()"
  {
    assert Chars(SENTINEL) == "vector::empty<u8>()";
    if Chars(next) == Chars(SENTINEL) {
      assert |next| == |SENTINEL|;
      forall i | 0 <= i < |next|
        ensures next[i] == SENTINEL[i]
      {
        assert Chars(next)[i] == Chars(SENTINEL)[i];
      }
    }
  }

  /** When the script should compile: the printed address must have decimal digits only, and the
      commit must be a hexadecimal literal. */
  predicate Compilable(address: Account, git: string) {
    AllDigits(Printed(address)) && IsHexLiteral(git)
  }

  /** What the script should compile to. */
  function Compiled(package: ReleasePackage, address: Account, next: seq<byte>, git: string): Option<Script> {
    if Compilable(address, git)
    then Some(Body(package, NatOf(Printed(address)), Meant(next)) + [SetGit(HexBytes(git))])
    else None
  }

  method EmitEmptyCode(w: CodeWriter)
    requires Closed(w.text)
    modifies w
    ensures Written(w, Squeeze(old(w.text)), [EmptyCode])
  {
    ghost var start := Squeeze(w.text);
    w.EmitLet(CODE);
    w.EmitSpace(' ');
    w.Emit(EMPTY_VECTOR);
    w.EmitSpace('\n');
    EmptyCodeText(start);
  }

  method EmitPublish(w: CodeWriter, ghost start: string, ghost before: Script)
    requires Written(w, start, before)
    modifies w
    ensures Written(w, start, before + [Publish])
  {
    w.Emit(CODE_MODULE);
    w.Emit(PUBLISH);
    w.EmitSpace('\n');
    Assoc(start + InkAll(before), Squeeze(CODE_MODULE), Squeeze(PUBLISH));
    Extend(start, before, Publish);
  }

  method EmitMiddle(w: CodeWriter, package: ReleasePackage)
    requires Closed(w.text)
    modifies w
    ensures Closed(w.text) && Squeeze(w.text) == Squeeze(old(w.text)) + MiddleInk(package)
  {
    ghost var start := Squeeze(w.text);
    EmitEmptyCode(w);
    ghost var s1: Script := [EmptyCode];
    EmitCode(w, package.code, start, s1);
    ghost var s2 := s1 + CodeStmts(package.code);
    var count := EmitMetadata(w, package.metadata, start, s2);
    ghost var s3 := s2 + MetadataLets(Chunks(package.metadata));
    EmitAppends(w, count, start, s3);
    EmitPublish(w, start, s3 + Appends(count));
  }

  method EmitOpening(w: CodeWriter)
    requires w.text == ""
    modifies w
    ensures Closed(w.text) && Squeeze(w.text) == OpeningInk()
  {
    w.Emit(OPEN_SCRIPT);
    w.EmitSpace('\n');
    w.Emit(OPEN_MAIN);
    w.EmitSpace('\n');
  }

  method EmitScript(w: CodeWriter, package: ReleasePackage, address: Account, next: seq<byte>, git: string)
    requires w.text == ""
    modifies w
    ensures Squeeze(w.text) == AuthoredInk(package, address, next, git)
  {
    EmitOpening(w);
    GenerateNextExecutionHash(w, address, next);
    EmitMiddle(w, package);
    EmitGit(w, git);
    AuthoredParts(package, address, next, git);
  }

  /** `libra_author_script_file`, from the opening of the script on. */
  method AuthorScript(package: ReleasePackage, address: Account, next: seq<byte>, git: string) returns (text: string)
    ensures Squeeze(text) == AuthoredInk(package, address, next, git)
    ensures ReadScript(text) == Compiled(package, address, next, git)
  {
    var w := new CodeWriter();
    EmitScript(w, package, address, next, git);
    text := w.text;
    AuthoredScriptReads(text, package, address, next, git);
  }

  lemma EmptyCodeText(start: string)
    ensures start + LET + Squeeze(CODE) + Squeeze(EMPTY_VECTOR) == start + InkAll([EmptyCode])
  {
    assert ([EmptyCode])[1..] == [];
    assert InkAll([EmptyCode]) == Ink(EmptyCode) + "" == Ink(EmptyCode);
    Assoc(start + LET, Squeeze(CODE), Squeeze(EMPTY_VECTOR));
    Assoc(start, LET, Squeeze(CODE) + Squeeze(EMPTY_VECTOR));
  }

  lemma AuthoredParts(package: ReleasePackage, address: Account, next: seq<byte>, git: string)
    ensures OpeningInk() + FirstInk(address, next) + MiddleInk(package) + GitInk(git)
         == AuthoredInk(package, address, next, git)
  {
    Assoc(OpeningInk() + FirstInk(address, next), MiddleInk(package), GitInk(git));
    Assoc(OpeningInk(), FirstInk(address, next), MiddleInk(package) + GitInk(git));
  }

  // ----- The script means what the package says -----

  /** The first statement, as read: only decimal digits make an address. */
  function FirstRead(address: Account, next: seq<byte>, rest: string): Option<(Stmt, string)> {
    if AllDigits(Printed(address)) then Some((Resolve(NatOf(Printed(address)), Meant(next)), rest)) else None
  }

  lemma ReadFirst(address: Account, next: seq<byte>, rest: string)
    ensures ReadStmt(FirstInk(address, next) + rest) == FirstRead(address, next, rest)
  {
    PrintedWord(address);
    ReadArgument(next, rest);
    ReadResolveExact(Printed(address), ArgumentInk(next), Meant(next), rest);
  }

  lemma ReadArgument(next: seq<byte>, rest: string)
    ensures ReadNextHash(ArgumentInk(next) + rest) == Some((Meant(next), rest))
  {
    if next == SENTINEL {
      ReadEmptyHash(rest);
    } else {
      ReadNextHashInverts(next, rest);
    }
  }

  /** Any layout of the authored text is read as the intended statements, or not at all when the
      address or the commit rules that out. */
  lemma AuthoredScriptReads(text: string, package: ReleasePackage, address: Account, next: seq<byte>, git: string)
    ensures Squeeze(text) == AuthoredInk(package, address, next, git) ==>
              ReadScript(text) == Compiled(package, address, next, git)
  {
    AfterPrefix(OpeningInk(), FirstInk(address, next) + (MiddleInk(package) + GitInk(git)));
    ReadFirst(address, next, MiddleInk(package) + GitInk(git));
    ReadStmtReadsInk();
    ReadBodyWith(ReadStmt, package, address, next, git);
  }

  lemma ReadBodyWith(read: StmtReader, package: ReleasePackage, address: Account, next: seq<byte>, git: string)
    requires ReadsInk(read)
    requires var rest := MiddleInk(package) + GitInk(git);
             read(FirstInk(address, next) + rest) == FirstRead(address, next, rest)
    ensures ReadAllWith(read, FirstInk(address, next) + (MiddleInk(package) + GitInk(git))) ==
            Compiled(package, address, next, git)
  {
    var rest := MiddleInk(package) + GitInk(git);
    FirstStarts(address, next, rest);
    MiddlePrintable(package);
    ReadAllExact(read, Middle(package), git);
    if AllDigits(Printed(address)) {
      var first := Resolve(NatOf(Printed(address)), Meant(next));
      ReadAllCons(read, FirstInk(address, next), first, rest);
      if IsHexLiteral(git) {
        Assoc([first], Middle(package), [SetGit(HexBytes(git))]);
      }
    }
  }

  lemma FirstStarts(address: Account, next: seq<byte>, rest: string)
    ensures FirstInk(address, next) != "" && !AtLast(FirstInk(address, next) + rest)
  {
    SqueezeHead(VE);
    assert (FirstInk(address, next) + rest)[0] == 'l';
  }

  /** The main result: any layout of the author's text compiles exactly when the printed address has
      decimal digits only and the commit is a hexadecimal literal. What it compiles to, run, publishes
      exactly the package's metadata and code, records the commit, hands on the next hash unless that
      is the sentinel text, and acts for the account it was written for only if that is below ten. */
  lemma AuthoredScriptPublishes(text: string, package: ReleasePackage, address: Account, next: seq<byte>, git: string)
    ensures Squeeze(text) == AuthoredInk(package, address, next, git) ==>
              && (ReadScript(text).Some? <==> Compilable(address, git))
              && (ReadScript(text).Some? ==>
                    var r := Run(ReadScript(text).value, FRESH);
                    && r.Some?
                    && r.value.published == Some((package.metadata, package.code))
                    && (r.value.signer == Some(BeValue(address)) <==> BeValue(address) < 10)
                    && (r.value.resolved == Some(next) <==> next != SENTINEL)
                    && r.value.commit == Some(HexBytes(git)))
  {
    AuthoredScriptReads(text, package, address, next, git);
    if Compilable(address, git) {
      PrintedNames(address);
      BodyRuns(package, NatOf(Printed(address)), Meant(next), HexBytes(git));
    }
  }

  /** The fallback commit `none` is no hexadecimal literal, so no layout of such a script compiles. */
  lemma NoCommitDoesNotCompile(text: string, package: ReleasePackage, address: Account, next: seq<byte>)
    ensures Squeeze(text) == AuthoredInk(package, address, next, NO_COMMIT) ==> ReadScript(text) == None
  {
    NoneIsNotHex();
    AuthoredScriptReads(text, package, address, next, NO_COMMIT);
  }

  const NO_COMMIT := "none"

  lemma NoneIsNotHex()
    ensures !IsHexLiteral(NO_COMMIT)
  {
    assert !IsHexChar(NO_COMMIT[0]);
  }
}
