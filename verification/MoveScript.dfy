/** The straight-line governance scripts the release builder generates: their statements, their
    text, a reader that ignores the layout, and what running them does. Literal text is cut into
    fragments where two statements first differ, so that the reader decides on one character. */
module MoveScript {
  import opened Common
  import opened Hex
  import opened MoveText

  datatype Stmt =
    | Resolve(account: nat, nextHash: seq<byte>)
    | EmptyCode
    | LetCode(index: nat, bytes: seq<byte>)
    | PushCode(index: nat)
    | LetMetadata(index: nat, bytes: seq<byte>)
    | AppendMetadata(index: nat)
    | Publish
    | SetGit(commit: seq<byte>)

  type Script = seq<Stmt>

  /** Statements between the first one, which has a text of its own, and the last one. */
  predicate Printable(s: Stmt) {
    !s.Resolve? && !s.SetGit?
  }

  predicate AllPrintable(ss: Script) {
    forall i :: 0 <= i < |ss| ==> Printable(ss[i])
  }

  // ----- Text fragments -----

  const OPEN_SCRIPT :=
    "script {\nuse std::vector;\nuse diem_framework::diem_governance;\nuse diem_framework::code" + ";"
  const OPEN_MAIN := "use diem_framework::version;\n\nfun main(proposal_id: u64)" + "{"
  const LET := "let "
  const SIGNER := "framework_signer ="
  const RESOLVE := "diem_governance::resolve_multi_step_proposal" + "("
  const PROPOSAL_ID := "proposal_id,"
  const VECTOR := "vector"
  const CLOSE_RESOLVE := ",\n);"
  const EMPTY_CALL := "::empty<u8>());"
  const CODE := "code"
  const EMPTY_VECTOR := "= vector::empty();"
  const CHUNK := "_chunk"
  const METADATA_CHUNK := "metadata_chunk"
  const SEMICOLON := ";"
  const VE := "ve"
  const CTOR := "ctor::"
  const PUSH_BACK := "push_back(&mut code, " + "code_chunk"
  const APPEND := "append(&mut metadata_chunk1, " + "metadata_chunk"
  const CLOSE_CALL := ");"
  const CODE_MODULE := "code::"
  const PUBLISH := "publish_package_txn(&framework_signer, metadata_chunk1, code" + ");"
  const SET_GIT := "rsion::upgrade_set_git(&framework_signer, " + "x"
  const END := ")}}"

  /** The visible part of a vector literal. */
  function VectorInk(bs: seq<byte>): string {
    Squeeze(VECTOR) + ("[" + (Items(bs) + "]"))
  }

  /** The visible part of a statement other than the first and the last, which are written by
      `ResolveInk` and `GitInk`. */
  function Ink(s: Stmt): string {
    match s
    case Resolve(_, _) => ""
    case SetGit(_) => ""
    case EmptyCode => LET + (Squeeze(CODE) + Squeeze(EMPTY_VECTOR))
    case LetCode(i, bs) =>
      LET + (Squeeze(CODE) + (Squeeze(CHUNK) + (Decimal(i) + ("=" + (VectorInk(bs) + Squeeze(SEMICOLON))))))
    case PushCode(i) => Squeeze(VE) + (Squeeze(CTOR) + (Squeeze(PUSH_BACK) + (Decimal(i) + Squeeze(CLOSE_CALL))))
    case LetMetadata(i, bs) =>
      LET + (Squeeze(METADATA_CHUNK) + (Decimal(i) + ("=" + (VectorInk(bs) + Squeeze(SEMICOLON)))))
    case AppendMetadata(i) => Squeeze(VE) + (Squeeze(CTOR) + (Squeeze(APPEND) + (Decimal(i) + Squeeze(CLOSE_CALL))))
    case Publish => Squeeze(CODE_MODULE) + Squeeze(PUBLISH)
  }

  /** The resolve call, for a printed address and a next hash with what closes the call. */
  function ResolveInk(address: string, hash: string): string {
    LET + (Squeeze(SIGNER) + (Squeeze(RESOLVE) + (Squeeze(PROPOSAL_ID) + ("@" + (address + ("," + hash))))))
  }

  /** A next hash as a vector literal. */
  function HashInk(next: seq<byte>): string { VectorInk(next) + Squeeze(CLOSE_RESOLVE) }

  /** The other spelling of an empty next hash. */
  function EmptyHashInk(): string { Squeeze(VECTOR) + Squeeze(EMPTY_CALL) }

  function Joined(ink: Stmt -> string, ss: Script): string {
    if ss == [] then "" else ink(ss[0]) + Joined(ink, ss[1..])
  }

  function InkAll(ss: Script): string {
    Joined(Ink, ss)
  }

  function GitInk(git: string): string {
    Squeeze(VE) + (Squeeze(SET_GIT) + (QuotedInk(git) + END))
  }

  function OpeningInk(): string {
    Squeeze(OPEN_SCRIPT) + Squeeze(OPEN_MAIN)
  }

  /** The words of the generated script, as the author writes them. */
  lemma StatementTexts(i: nat, bs: seq<byte>)
    ensures VectorInk(bs) == Squeeze("vector") + ("[" + (Items(bs) + "]"))
    ensures Ink(EmptyCode) == "let " + (Squeeze("code") + Squeeze("= vector::empty();"))
    ensures Ink(LetCode(i, bs)) ==
            "let " + (Squeeze("code") + (Squeeze("_chunk") + (Decimal(i) + ("=" + (VectorInk(bs) + Squeeze(";"))))))
    ensures Ink(PushCode(i)) ==
            Squeeze("ve") + (Squeeze("ctor::") + (Squeeze("push_back(&mut code, " + "code_chunk")
                             + (Decimal(i) + Squeeze(");"))))
    ensures Ink(LetMetadata(i, bs)) ==
            "let " + (Squeeze("metadata_chunk") + (Decimal(i) + ("=" + (VectorInk(bs) + Squeeze(";")))))
    ensures Ink(AppendMetadata(i)) ==
            Squeeze("ve") + (Squeeze("ctor::") + (Squeeze("append(&mut metadata_chunk1, " + "metadata_chunk")
                             + (Decimal(i) + Squeeze(");"))))
    ensures Ink(Publish) ==
            Squeeze("code::") + Squeeze("publish_package_txn(&framework_signer, metadata_chunk1, code" + ");")
  {
  }

  /** The words around the statements, and those of the first and the last one. */
  lemma FrameTexts(address: string, hash: string, next: seq<byte>, git: string)
    ensures OpeningInk() ==
            Squeeze("script {\nuse std::vector;\nuse diem_framework::diem_governance;\nuse diem_framework::code" + ";")
            + Squeeze("use diem_framework::version;\n\nfun main(proposal_id: u64)" + "{")
    ensures ResolveInk(address, hash) ==
            "let " + (Squeeze("framework_signer =") + (Squeeze("diem_governance::resolve_multi_step_proposal" + "(")
                      + (Squeeze("proposal_id,") + ("@" + (address + ("," + hash))))))
    ensures HashInk(next) == VectorInk(next) + Squeeze(",\n);")
    ensures EmptyHashInk() == Squeeze("vector") + Squeeze("::empty<u8>());")
    ensures GitInk(git) ==
            Squeeze("ve") + (Squeeze("rsion::upgrade_set_git(&framework_signer, " + "x") + (QuotedInk(git) + ")}}"))
  {
  }

  // ----- Reading -----

  function ReadVector(s: string): Option<(seq<byte>, string)> {
    var r :- After(s, Squeeze(VECTOR));
    var items :- After(r, "[");
    ReadItems(items)
  }

  function ReadNextHash(s: string): Option<(seq<byte>, string)> {
    var r :- After(s, Squeeze(VECTOR));
    if r != "" && r[0] == ':' then
      var rest :- After(r, Squeeze(EMPTY_CALL));
      Some(([], rest))
    else
      var (hash, close) :- ReadVector(s);
      var rest :- After(close, Squeeze(CLOSE_RESOLVE));
      Some((hash, rest))
  }

  /** The address after `@` has no `0x` and so is a decimal number. */
  function ReadResolve(s: string): Option<(Stmt, string)> {
    var call :- After(s, Squeeze(SIGNER));
    var id :- After(call, Squeeze(RESOLVE));
    var at :- After(id, Squeeze(PROPOSAL_ID));
    var address :- After(at, "@");
    ReadArguments(address)
  }

  function ReadArguments(s: string): Option<(Stmt, string)> {
    var (account, comma) :- ReadNat(s);
    var hash :- After(comma, ",");
    var (next, rest) :- ReadNextHash(hash);
    Some((Resolve(account, next), rest))
  }

  /** An index, `=`, a vector literal and a semicolon. */
  function ReadBinding(s: string): Option<(nat, seq<byte>, string)> {
    var (i, eq) :- ReadNat(s);
    var literal :- After(eq, "=");
    var (bs, close) :- ReadVector(literal);
    var rest :- After(close, Squeeze(SEMICOLON));
    Some((i, bs, rest))
  }

  function ReadLet(s: string): Option<(Stmt, string)> {
    if s == "" then None
    else if s[0] == 'f' then ReadResolve(s)
    else if s[0] == 'm' then
      var r :- After(s, Squeeze(METADATA_CHUNK));
      var (i, bs, rest) :- ReadBinding(r);
      Some((LetMetadata(i, bs), rest))
    else
      var r :- After(s, Squeeze(CODE));
      ReadCode(r)
  }

  /** What follows `code`: the number of a chunk, or the empty vector. */
  function ReadCode(r: string): Option<(Stmt, string)> {
    if r != "" && r[0] == '_' then
      var b :- After(r, Squeeze(CHUNK));
      var (i, bs, rest) :- ReadBinding(b);
      Some((LetCode(i, bs), rest))
    else
      var rest :- After(r, Squeeze(EMPTY_VECTOR));
      Some((EmptyCode, rest))
  }

  function ReadIndexArgument(s: string): Option<(nat, string)> {
    var (i, close) :- ReadNat(s);
    var rest :- After(close, Squeeze(CLOSE_CALL));
    Some((i, rest))
  }

  function ReadVectorCall(s: string): Option<(Stmt, string)> {
    if s != "" && s[0] == 'p' then
      var r :- After(s, Squeeze(PUSH_BACK));
      var (i, rest) :- ReadIndexArgument(r);
      Some((PushCode(i), rest))
    else
      var r :- After(s, Squeeze(APPEND));
      var (i, rest) :- ReadIndexArgument(r);
      Some((AppendMetadata(i), rest))
  }

  function ReadStmt(s: string): Option<(Stmt, string)> {
    if s == "" then None
    else if s[0] == 'l' then
      var r :- After(s, LET);
      ReadLet(r)
    else if s[0] == 'v' then
      var ve :- After(s, Squeeze(VE));
      var r :- After(ve, Squeeze(CTOR));
      ReadVectorCall(r)
    else
      var call :- After(s, Squeeze(CODE_MODULE));
      var rest :- After(call, Squeeze(PUBLISH));
      Some((Publish, rest))
  }

  /** The last statement, with its literal between quotation marks, and the closing braces. */
  function ReadGit(s: string): Option<Stmt> {
    var r :- After(s, Squeeze(SET_GIT));
    ReadCommit(r)
  }

  function ReadCommit(r: string): Option<Stmt> {
    var n := |r| - |END|;
    if n >= 2 && r[n..] == END && r[0] == '"' && r[n - 1] == '"' && IsHexLiteral(r[1..n - 1])
    then Some(SetGit(HexBytes(r[1..n - 1])))
    else None
  }

  type StmtReader = string -> Option<(Stmt, string)>

  /** Whether the closing statement is next. */
  predicate AtLast(s: string) {
    var last := After(s, Squeeze(VE));
    last.Some? && last.value != "" && last.value[0] == 'r'
  }

  /** Reads statement after statement, then the closing one. */
  function ReadAllWith(read: StmtReader, s: string): Option<Script>
    decreases |s|
  {
    if AtLast(s) then
      var last :- After(s, Squeeze(VE));
      var git :- ReadGit(last);
      Some([git])
    else
      var (stmt, rest) :- read(s);
      if |rest| >= |s| then None
      else
        var others :- ReadAllWith(read, rest);
        Some([stmt] + others)
  }

  function ReadStmts(s: string): Option<Script> {
    ReadAllWith(ReadStmt, s)
  }

  /** Compiles a script text, whatever its layout; `None` is a compilation error. */
  function ReadScript(text: string): Option<Script> {
    var body :- After(Squeeze(text), OpeningInk());
    ReadStmts(body)
  }

  // ----- Reading undoes writing -----

  lemma ReadVectorInverts(bs: seq<byte>, rest: string)
    ensures ReadVector(VectorInk(bs) + rest) == Some((bs, rest))
  {
    var items := Items(bs) + ("]" + rest);
    assert VectorInk(bs) + rest == Squeeze(VECTOR) + ("[" + items);
    AfterPrefix(Squeeze(VECTOR), "[" + items);
    AfterPrefix("[", items);
    ReadItemsInvertsItems(bs, rest);
  }

  lemma ReadNextHashInverts(next: seq<byte>, rest: string)
    ensures ReadNextHash(HashInk(next) + rest) == Some((next, rest))
  {
    var close := Squeeze(CLOSE_RESOLVE) + rest;
    var r := "[" + (Items(next) + "]") + close;
    Assoc(VectorInk(next), Squeeze(CLOSE_RESOLVE), rest);
    Assoc(Squeeze(VECTOR), "[" + (Items(next) + "]"), close);
    AfterPrefix(Squeeze(VECTOR), r);
    assert r[0] == '[';
    ReadVectorInverts(next, close);
    AfterPrefix(Squeeze(CLOSE_RESOLVE), rest);
  }

  lemma ReadEmptyHash(rest: string)
    ensures ReadNextHash(EmptyHashInk() + rest) == Some(([], rest))
  {
    Assoc(Squeeze(VECTOR), Squeeze(EMPTY_CALL), rest);
    AfterPrefix(Squeeze(VECTOR), Squeeze(EMPTY_CALL) + rest);
    SqueezeHead(EMPTY_CALL);
    AfterPrefix(Squeeze(EMPTY_CALL), rest);
  }

  lemma ReadStmtLet(r: string)
    ensures ReadStmt(LET + r) == ReadLet(r)
  {
    AfterPrefix(LET, r);
  }

  lemma ReadStmtVector(r: string)
    ensures ReadStmt(Squeeze(VE) + (Squeeze(CTOR) + r)) == ReadVectorCall(r)
  {
    SqueezeHead(VE);
    AfterPrefix(Squeeze(VE), Squeeze(CTOR) + r);
    AfterPrefix(Squeeze(CTOR), r);
  }

  /** A `let` that runs into the next word is not read. */
  lemma LetNeedsSpace(r: string)
    requires r == "" || r[0] != ' '
    ensures ReadStmt("let" + r) == None
  {
    NotAfter("let" + r, LET, 3);
  }

  lemma NotAfter(s: string, prefix: string, i: nat)
    requires i < |prefix| && (i >= |s| || s[i] != prefix[i])
    ensures After(s, prefix) == None
  {
  }

  /** The arguments are read exactly when the address is all decimal digits. */
  lemma ReadArgumentsExact(address: string, hash: string, next: seq<byte>, rest: string)
    requires address != "" && AllHexChars(address) && ReadNextHash(hash) == Some((next, rest))
    ensures ReadArguments(address + ("," + hash)) ==
            if AllDigits(address) then Some((Resolve(NatOf(address), next), rest)) else None
  {
    var comma := "," + hash;
    if AllDigits(address) {
      ReadNatOf(address, comma);
      AfterPrefix(",", hash);
    } else {
      var n := DigitRun(address + comma);
      DigitRunStops(address, comma);
      NotAfter((address + comma)[n..], ",", 0);
    }
  }

  lemma ReadResolveInverts(arguments: string)
    ensures ReadLet(Squeeze(SIGNER) + (Squeeze(RESOLVE) + (Squeeze(PROPOSAL_ID) + ("@" + arguments))))
         == ReadArguments(arguments)
  {
    var at := "@" + arguments;
    var id := Squeeze(PROPOSAL_ID) + at;
    var call := Squeeze(RESOLVE) + id;
    SqueezeHead(SIGNER);
    AfterPrefix(Squeeze(SIGNER), call);
    AfterPrefix(Squeeze(RESOLVE), id);
    AfterPrefix(Squeeze(PROPOSAL_ID), at);
    AfterPrefix("@", arguments);
  }

  /** The resolve call is read exactly when its address is printed with decimal digits only, and then
      names the account with that decimal number. */
  lemma ReadResolveExact(address: string, hash: string, next: seq<byte>, rest: string)
    requires address != "" && AllHexChars(address) && ReadNextHash(hash + rest) == Some((next, rest))
    ensures ReadStmt(ResolveInk(address, hash) + rest) ==
            if AllDigits(address) then Some((Resolve(NatOf(address), next), rest)) else None
  {
    var arguments := address + ("," + (hash + rest));
    var r := Squeeze(SIGNER) + (Squeeze(RESOLVE) + (Squeeze(PROPOSAL_ID) + ("@" + arguments)));
    ReadArgumentsExact(address, hash + rest, next, rest);
    ReadResolveInverts(arguments);
    ReadStmtLet(r);
    Right7(LET, Squeeze(SIGNER), Squeeze(RESOLVE), Squeeze(PROPOSAL_ID), "@", address, "," + hash, rest);
    Assoc(",", hash, rest);
  }

  lemma ReadBindingInverts(i: nat, bs: seq<byte>, rest: string)
    ensures ReadBinding(Decimal(i) + ("=" + (VectorInk(bs) + (Squeeze(SEMICOLON) + rest)))) == Some((i, bs, rest))
  {
    var close := Squeeze(SEMICOLON) + rest;
    var literal := VectorInk(bs) + close;
    ReadNatInvertsDecimal(i, "=" + literal);
    AfterPrefix("=", literal);
    ReadVectorInverts(bs, close);
    AfterPrefix(Squeeze(SEMICOLON), rest);
  }

  lemma ReadLetOfCode(r: string)
    ensures ReadLet(Squeeze(CODE) + r) == ReadCode(r)
  {
    SqueezeHead(CODE);
    AfterPrefix(Squeeze(CODE), r);
  }

  lemma ReadLetCode(b: string, i: nat, bs: seq<byte>, rest: string)
    requires ReadBinding(b) == Some((i, bs, rest))
    ensures ReadLet(Squeeze(CODE) + (Squeeze(CHUNK) + b)) == Some((LetCode(i, bs), rest))
  {
    ReadLetOfCode(Squeeze(CHUNK) + b);
    SqueezeHead(CHUNK);
    AfterPrefix(Squeeze(CHUNK), b);
  }

  lemma ReadLetMetadata(b: string, i: nat, bs: seq<byte>, rest: string)
    requires ReadBinding(b) == Some((i, bs, rest))
    ensures ReadLet(Squeeze(METADATA_CHUNK) + b) == Some((LetMetadata(i, bs), rest))
  {
    SqueezeHead(METADATA_CHUNK);
    AfterPrefix(Squeeze(METADATA_CHUNK), b);
  }

  lemma ReadEmptyCode(rest: string)
    ensures ReadLet(Squeeze(CODE) + (Squeeze(EMPTY_VECTOR) + rest)) == Some((EmptyCode, rest))
  {
    ReadLetOfCode(Squeeze(EMPTY_VECTOR) + rest);
    SqueezeHead(EMPTY_VECTOR);
    AfterPrefix(Squeeze(EMPTY_VECTOR), rest);
  }

  lemma ReadIndexInverts(i: nat, rest: string)
    ensures ReadIndexArgument(Decimal(i) + (Squeeze(CLOSE_CALL) + rest)) == Some((i, rest))
  {
    SqueezeHead(CLOSE_CALL);
    ReadNatInvertsDecimal(i, Squeeze(CLOSE_CALL) + rest);
    AfterPrefix(Squeeze(CLOSE_CALL), rest);
  }

  lemma ReadVectorCalls(i: nat, rest: string)
    ensures var arg := Decimal(i) + (Squeeze(CLOSE_CALL) + rest);
            && ReadVectorCall(Squeeze(PUSH_BACK) + arg) == Some((PushCode(i), rest))
            && ReadVectorCall(Squeeze(APPEND) + arg) == Some((AppendMetadata(i), rest))
  {
    var arg := Decimal(i) + (Squeeze(CLOSE_CALL) + rest);
    ReadIndexInverts(i, rest);
    SqueezeHead(PUSH_BACK);
    AfterPrefix(Squeeze(PUSH_BACK), arg);
    SqueezeHead(APPEND);
    AfterPrefix(Squeeze(APPEND), arg);
  }

  lemma ReadPublish(rest: string)
    ensures ReadStmt(Squeeze(CODE_MODULE) + (Squeeze(PUBLISH) + rest)) == Some((Publish, rest))
  {
    SqueezeHead(CODE_MODULE);
    AfterPrefix(Squeeze(CODE_MODULE), Squeeze(PUBLISH) + rest);
    AfterPrefix(Squeeze(PUBLISH), rest);
  }

  lemma Right3(a: string, b: string, c: string, r: string)
    ensures a + (b + c) + r == a + (b + (c + r))
  {
    Assoc(a, b + c, r);
    Assoc(b, c, r);
  }

  lemma Right5(a: string, b: string, c: string, d: string, e: string, r: string)
    ensures a + (b + (c + (d + e))) + r == a + (b + (c + (d + (e + r))))
  {
    Right3(a, b, c + (d + e), r);
    Right3(c, d, e, r);
  }

  lemma Right7(a: string, b: string, c: string, d: string, e: string, f: string, g: string, r: string)
    ensures a + (b + (c + (d + (e + (f + g))))) + r == a + (b + (c + (d + (e + (f + (g + r))))))
  {
    Right5(a, b, c, d, e + (f + g), r);
    Right3(e, f, g, r);
  }

  /** Every statement is read back from its visible text, whatever follows. */
  lemma ReadStmtInverts(s: Stmt, rest: string)
    requires Printable(s)
    ensures ReadStmt(Ink(s) + rest) == Some((s, rest))
  {
    match s
    case EmptyCode =>
      var r := Squeeze(CODE) + (Squeeze(EMPTY_VECTOR) + rest);
      ReadEmptyCode(rest);
      ReadStmtLet(r);
      Right3(LET, Squeeze(CODE), Squeeze(EMPTY_VECTOR), rest);
    case LetCode(i, bs) =>
      var b := Decimal(i) + ("=" + (VectorInk(bs) + (Squeeze(SEMICOLON) + rest)));
      var r := Squeeze(CODE) + (Squeeze(CHUNK) + b);
      ReadBindingInverts(i, bs, rest);
      ReadLetCode(b, i, bs, rest);
      ReadStmtLet(r);
      Right7(LET, Squeeze(CODE), Squeeze(CHUNK), Decimal(i), "=", VectorInk(bs), Squeeze(SEMICOLON), rest);
    case PushCode(i) =>
      var r := Squeeze(PUSH_BACK) + (Decimal(i) + (Squeeze(CLOSE_CALL) + rest));
      ReadVectorCalls(i, rest);
      ReadStmtVector(r);
      Right5(Squeeze(VE), Squeeze(CTOR), Squeeze(PUSH_BACK), Decimal(i), Squeeze(CLOSE_CALL), rest);
    case LetMetadata(i, bs) =>
      var b := Decimal(i) + ("=" + (VectorInk(bs) + (Squeeze(SEMICOLON) + rest)));
      var r := Squeeze(METADATA_CHUNK) + b;
      ReadBindingInverts(i, bs, rest);
      ReadLetMetadata(b, i, bs, rest);
      ReadStmtLet(r);
      Right5(LET, Squeeze(METADATA_CHUNK), Decimal(i), "=", VectorInk(bs) + Squeeze(SEMICOLON), rest);
      Assoc(VectorInk(bs), Squeeze(SEMICOLON), rest);
    case AppendMetadata(i) =>
      var r := Squeeze(APPEND) + (Decimal(i) + (Squeeze(CLOSE_CALL) + rest));
      ReadVectorCalls(i, rest);
      ReadStmtVector(r);
      Right5(Squeeze(VE), Squeeze(CTOR), Squeeze(APPEND), Decimal(i), Squeeze(CLOSE_CALL), rest);
    case Publish =>
      ReadPublish(rest);
      Assoc(Squeeze(CODE_MODULE), Squeeze(PUBLISH), rest);
  }

  /** The reader does not mistake a statement for the closing one. */
  lemma NotTheLast(s: Stmt, rest: string)
    requires Printable(s)
    ensures Ink(s) != "" && !AtLast(Ink(s) + rest)
  {
    if s.PushCode? {
      VectorCallIsNotTheLast(PUSH_BACK, s.index, rest);
    } else if s.AppendMetadata? {
      VectorCallIsNotTheLast(APPEND, s.index, rest);
    } else {
      FirstCharacter(s, rest);
      SqueezeHead(VE);
    }
  }

  lemma FirstCharacter(s: Stmt, rest: string)
    requires Printable(s) && !s.PushCode? && !s.AppendMetadata?
    ensures Ink(s) != "" && (Ink(s) + rest)[0] == if s.Publish? then 'c' else 'l'
  {
    SqueezeHead(CODE_MODULE);
  }

  lemma VectorCallIsNotTheLast(call: string, i: nat, rest: string)
    ensures var ink := Squeeze(VE) + (Squeeze(CTOR) + (Squeeze(call) + (Decimal(i) + Squeeze(CLOSE_CALL))));
            var last := After(ink + rest, Squeeze(VE));
            ink != "" && last.Some? && last.value != "" && last.value[0] == 'c'
  {
    var tail := Squeeze(call) + (Decimal(i) + Squeeze(CLOSE_CALL));
    Right3(Squeeze(VE), Squeeze(CTOR), tail, rest);
    AfterPrefix(Squeeze(VE), Squeeze(CTOR) + (tail + rest));
    SqueezeHead(CTOR);
  }

  lemma ReadCommitOf(q: string)
    requires |q| >= 2 && q[0] == '"' && q[|q| - 1] == '"'
    ensures var literal := q[1..|q| - 1];
            ReadCommit(q + END) == if IsHexLiteral(literal) then Some(SetGit(HexBytes(literal))) else None
  {
    var r := q + END;
    assert |r| - |END| == |q| && r[|q|..] == END && r[1..|q| - 1] == q[1..|q| - 1];
  }

  lemma ReadCommitExact(git: string)
    ensures ReadCommit(QuotedInk(git) + END) == if IsHexLiteral(git) then Some(SetGit(HexBytes(git))) else None
  {
    QuotedInkExact(git);
    ReadCommitOf(QuotedInk(git));
  }

  /** The closing statement is read exactly when its commit is a hexadecimal literal. */
  lemma ReadGitExact(read: StmtReader, git: string)
    ensures ReadAllWith(read, GitInk(git)) == if IsHexLiteral(git) then Some([SetGit(HexBytes(git))]) else None
  {
    var r := QuotedInk(git) + END;
    AfterPrefix(Squeeze(VE), Squeeze(SET_GIT) + r);
    SqueezeHead(SET_GIT);
    AfterPrefix(Squeeze(SET_GIT), r);
    ReadCommitExact(git);
    ReadAllLast(read, GitInk(git), Squeeze(SET_GIT) + r);
  }

  lemma ReadAllLast(read: StmtReader, s: string, last: string)
    requires After(s, Squeeze(VE)) == Some(last) && last != "" && last[0] == 'r'
    ensures ReadAllWith(read, s) == if ReadGit(last).Some? then Some([ReadGit(last).value]) else None
  {
  }

  /** Reading one statement in front of others. */
  lemma ReadAllCons(read: StmtReader, first: string, stmt: Stmt, rest: string)
    requires first != "" && read(first + rest) == Some((stmt, rest)) && !AtLast(first + rest)
    ensures ReadAllWith(read, first + rest) ==
            if ReadAllWith(read, rest).Some? then Some([stmt] + ReadAllWith(read, rest).value) else None
  {
  }

  /** A reader that undoes the text of single statements. */
  ghost predicate ReadsInk(read: StmtReader) {
    forall s, rest :: Printable(s) ==> read(Ink(s) + rest) == Some((s, rest))
  }

  lemma {:induction false} ReadAllExact(read: StmtReader, ss: Script, git: string)
    requires ReadsInk(read) && AllPrintable(ss)
    ensures ReadAllWith(read, InkAll(ss) + GitInk(git)) ==
            if IsHexLiteral(git) then Some(ss + [SetGit(HexBytes(git))]) else None
  {
    if ss == [] {
      assert InkAll(ss) + GitInk(git) == GitInk(git);
      ReadGitExact(read, git);
      if IsHexLiteral(git) {
        assert ss + [SetGit(HexBytes(git))] == [SetGit(HexBytes(git))];
      }
    } else {
      var rest := InkAll(ss[1..]) + GitInk(git);
      Assoc(Ink(ss[0]), InkAll(ss[1..]), GitInk(git));
      NotTheLast(ss[0], rest);
      ReadAllCons(read, Ink(ss[0]), ss[0], rest);
      ReadAllExact(read, ss[1..], git);
      if IsHexLiteral(git) {
        Assoc([ss[0]], ss[1..], [SetGit(HexBytes(git))]);
        assert ss == [ss[0]] + ss[1..];
      }
    }
  }

  lemma ReadStmtReadsInk()
    ensures ReadsInk(ReadStmt)
  {
    forall s, rest | Printable(s)
      ensures ReadStmt(Ink(s) + rest) == Some((s, rest))
    {
      ReadStmtInverts(s, rest);
    }
  }

  lemma {:induction false} JoinedSnoc(ink: Stmt -> string, ss: Script, s: Stmt)
    ensures Joined(ink, ss + [s]) == Joined(ink, ss) + ink(s)
  {
    if ss == [] {
      assert ss + [s] == [s] && ([s])[1..] == [];
      assert ink(s) + "" == ink(s);
    } else {
      JoinedSnoc(ink, ss[1..], s);
      assert (ss + [s])[0] == ss[0] && (ss + [s])[1..] == ss[1..] + [s];
      Assoc(ink(ss[0]), Joined(ink, ss[1..]), ink(s));
    }
  }

  // ----- Running -----

  datatype Machine = Machine(
    signer: Option<nat>,
    resolved: Option<seq<byte>>,
    code: Option<seq<seq<byte>>>,
    codeChunks: map<nat, seq<byte>>,
    metadataChunks: map<nat, seq<byte>>,
    published: Option<(seq<byte>, seq<seq<byte>>)>,
    commit: Option<seq<byte>>)

  const FRESH: Machine := Machine(None, None, None, map[], map[], None, None)

  /** One statement; `None` when it uses a variable that is not there. A pushed, appended or
      published value is moved out of its variable. */
  function Step(s: Stmt, m: Machine): Option<Machine> {
    match s
    case Resolve(account, next) =>
      if m.signer.Some? then None else Some(m.(signer := Some(account), resolved := Some(next)))
    case EmptyCode => Some(m.(code := Some([])))
    case LetCode(i, bs) => Some(m.(codeChunks := m.codeChunks[i := bs]))
    case PushCode(i) =>
      if m.code.None? || i !in m.codeChunks then None
      else Some(m.(code := Some(m.code.value + [m.codeChunks[i]]), codeChunks := m.codeChunks - {i}))
    case LetMetadata(i, bs) => Some(m.(metadataChunks := m.metadataChunks[i := bs]))
    case AppendMetadata(i) =>
      if 1 !in m.metadataChunks || i == 1 || i !in m.metadataChunks then None
      else Some(m.(metadataChunks := (m.metadataChunks - {i})[1 := m.metadataChunks[1] + m.metadataChunks[i]]))
    case Publish =>
      if m.signer.None? || m.code.None? || 1 !in m.metadataChunks || m.published.Some? then None
      else Some(m.(published := Some((m.metadataChunks[1], m.code.value)), code := None,
                   metadataChunks := m.metadataChunks - {1}))
    case SetGit(commit) =>
      if m.signer.None? then None else Some(m.(commit := Some(commit)))
  }

  /** What the statements that move values do. */
  lemma StepEffects(m: Machine, i: nat, bs: seq<byte>)
    ensures Step(LetCode(i, bs), m).Some? && Step(LetCode(i, bs), m).value.codeChunks == m.codeChunks[i := bs]
    ensures Step(LetMetadata(i, bs), m).Some?
    ensures Step(LetMetadata(i, bs), m).value.metadataChunks == m.metadataChunks[i := bs]
    ensures m.code.Some? && i in m.codeChunks ==>
              Step(PushCode(i), m).Some? && Step(PushCode(i), m).value.code == Some(m.code.value + [m.codeChunks[i]])
    ensures i != 1 && 1 in m.metadataChunks && i in m.metadataChunks ==>
              && Step(AppendMetadata(i), m).Some?
              && 1 in Step(AppendMetadata(i), m).value.metadataChunks
              && Step(AppendMetadata(i), m).value.metadataChunks[1] == m.metadataChunks[1] + m.metadataChunks[i]
    ensures Step(Publish, m).Some? ==>
              && m.signer.Some? && 1 in m.metadataChunks && m.code.Some?
              && Step(Publish, m).value.published == Some((m.metadataChunks[1], m.code.value))
  {
  }

  function Run(ss: Script, m: Machine): Option<Machine> {
    if ss == [] then Some(m)
    else
      var next :- Step(ss[0], m);
      Run(ss[1..], next)
  }

  lemma {:induction false} RunConcat(a: Script, b: Script, m: Machine)
    requires Run(a, m).Some?
    ensures Run(a + b, m) == Run(b, Run(a, m).value)
  {
    if a == [] {
      assert a + b == b;
    } else {
      RunConcat(a[1..], b, Step(a[0], m).value);
      assert (a + b)[0] == a[0] && (a + b)[1..] == a[1..] + b;
    }
  }
}
