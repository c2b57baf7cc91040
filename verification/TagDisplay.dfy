/** The printed form of type and struct tags, and the proof that it can be read in only one way. */
module TagDisplay {
  import opened Common
  import opened TypeTags
  import opened Hex
  import opened LegacyAddress

  /** ASCII literals as bytes. */
  function Text(s: string): (bs: seq<byte>)
    requires forall i :: 0 <= i < |s| ==> s[i] as int < 0x80
    ensures |bs| == |s|
    ensures forall i :: 0 <= i < |s| ==> bs[i] == s[i] as int
  {
    seq(|s|, i requires 0 <= i < |s| => s[i] as int)
  }

  function Show(t: TypeTag): seq<byte>
    decreases t
  {
    match t
    case Struct(s) => ShowStruct(s)
    case Vector(e) => Text("vector<") + (Show(e) + Text(">"))
    case U8 => Text("u8")
    case U64 => Text("u64")
    case U128 => Text("u128")
    case Address => Text("address")
    case Signer => Text("signer")
    case Bool => Text("bool")
  }

  function ShowPath(s: StructTag): seq<byte> {
    Text("0x") + (ShortStrLossless(s.address) + (Text("::") + (s.moduleName + (Text("::") + s.name))))
  }

  function ShowStruct(s: StructTag): seq<byte>
    decreases s
  {
    ShowPath(s) + ShowParams(s.typeParams)
  }

  function ShowParams(ts: seq<TypeTag>): seq<byte>
    decreases ts, 1
  {
    if ts == [] then [] else Text("<") + (Show(ts[0]) + ShowTail(ts[1..]))
  }

  /** The parameters after the first one, and the closing bracket. */
  function ShowTail(ts: seq<TypeTag>): seq<byte>
    decreases ts, 0
  {
    if ts == [] then Text(">") else Text(", ") + (Show(ts[0]) + ShowTail(ts[1..]))
  }

  lemma TailStep(b: seq<byte>, ts: seq<TypeTag>, i: nat)
    requires i < |ts|
    ensures b + Text(", ") + Show(ts[i]) + ShowTail(ts[i + 1..]) == b + ShowTail(ts[i..])
  {
    assert ts[i..][0] == ts[i] && ts[i..][1..] == ts[i + 1..];
    Assoc(b + Text(", "), Show(ts[i]), ShowTail(ts[i + 1..]));
    Assoc(b, Text(", "), Show(ts[i]) + ShowTail(ts[i + 1..]));
  }

  lemma VectorText(b: seq<byte>, e: TypeTag)
    ensures b + Text("vector<") + Show(e) + Text(">") == b + Show(Vector(e))
  {
    Assoc(b + Text("vector<"), Show(e), Text(">"));
    Assoc(b, Text("vector<"), Show(e) + Text(">"));
  }

  // ----- The formatter as written -----

  class Formatter {
    var buffer: seq<byte>

    constructor ()
      ensures buffer == []
    {
      buffer := [];
    }

    method WriteType(t: TypeTag)
      modifies this
      ensures buffer == old(buffer) + Show(t)
      decreases t, 0
    {
      match t
      case Struct(s) => WriteStruct(s);
      case Vector(e) =>
        buffer := buffer + Text("vector<");
        WriteType(e);
        buffer := buffer + Text(">");
        VectorText(old(buffer), e);
      case _ =>
        buffer := buffer + Show(t);
    }

    method WriteStruct(s: StructTag)
      modifies this
      ensures buffer == old(buffer) + ShowStruct(s)
      decreases s
    {
      buffer := buffer + ShowPath(s);
      WriteParams(s.typeParams);
    }

    method WriteNext(t: TypeTag)
      modifies this
      ensures buffer == old(buffer) + Text(", ") + Show(t)
      decreases t, 1
    {
      buffer := buffer + Text(", ");
      WriteType(t);
    }

    method WriteParams(ts: seq<TypeTag>)
      modifies this
      ensures buffer == old(buffer) + ShowParams(ts)
      decreases ts
    {
      if |ts| > 0 {
        ghost var target := old(buffer) + ShowParams(ts);
        buffer := buffer + Text("<");
        WriteType(ts[0]);
        Assoc(old(buffer) + Text("<"), Show(ts[0]), ShowTail(ts[1..]));
        Assoc(old(buffer), Text("<"), Show(ts[0]) + ShowTail(ts[1..]));
        for i := 1 to |ts|
          invariant buffer + ShowTail(ts[i..]) == target
        {
          ghost var b := buffer;
          WriteNext(ts[i]);
          TailStep(b, ts, i);
        }
        assert ShowTail(ts[|ts|..]) == Text(">");
        buffer := buffer + Text(">");
      }
    }
  }

  lemma PathShape(s: StructTag)
    ensures ShowPath(s) == Text("0x") + ShortStrLossless(s.address) + Text("::") + s.moduleName + Text("::") + s.name
  {
    var x, c := Text("0x") + ShortStrLossless(s.address), Text("::");
    Assoc(x + c + s.moduleName, c, s.name);
    Assoc(x + c, s.moduleName, c + s.name);
    Assoc(x, c, s.moduleName + (c + s.name));
    Assoc(Text("0x"), ShortStrLossless(s.address), c + (s.moduleName + (c + s.name)));
  }

  /** How every tag other than a struct prints. */
  lemma DisplayTexts(e: TypeTag)
    ensures Show(Bool) == Text("bool") && Show(U8) == Text("u8")
    ensures Show(U64) == Text("u64") && Show(U128) == Text("u128")
    ensures Show(TypeTag.Address) == Text("address") && Show(Signer) == Text("signer")
    ensures Show(Vector(e)) == Text("vector<") + (Show(e) + Text(">"))
  {
  }

  /** The printed parameters with commas between them. */
  function CommaSeparated(ts: seq<TypeTag>): seq<byte> {
    if ts == [] then []
    else if |ts| == 1 then Show(ts[0])
    else CommaSeparated(ts[..|ts| - 1]) + Text(", ") + Show(ts[|ts| - 1])
  }

  /** The two ways of going through the parameters agree: first and others, or one more at the end. */
  lemma {:induction false} CommaSeparatedTail(ts: seq<TypeTag>, i: nat)
    requires 1 <= i <= |ts|
    ensures CommaSeparated(ts) + Text(">") == CommaSeparated(ts[..i]) + ShowTail(ts[i..])
    decreases |ts| - i
  {
    if i == |ts| {
      assert ts[..i] == ts;
    } else {
      CommaSeparatedTail(ts, i + 1);
      assert ts[..i + 1][..i] == ts[..i];
      TailStep(CommaSeparated(ts[..i]), ts, i);
    }
  }

  /** How any struct prints: its path, and after it any parameters in brackets with commas between. */
  lemma DisplayShape(s: StructTag)
    ensures ShowStruct(s) ==
            Text("0x") + ShortStrLossless(s.address) + Text("::") + s.moduleName + Text("::") + s.name
            + if s.typeParams == [] then [] else Text("<") + (CommaSeparated(s.typeParams) + Text(">"))
  {
    PathShape(s);
    var ts := s.typeParams;
    if ts != [] {
      CommaSeparatedTail(ts, 1);
      assert ts[..1] == [ts[0]];
    }
  }

  // ----- Tokens -----

  /** Anything but the colon, the comma and the two brackets. */
  predicate PlainChar(c: byte) {
    c != 58 && c != 44 && c != 60 && c != 62
  }

  predicate Word(s: seq<byte>) {
    forall i :: 0 <= i < |s| ==> PlainChar(s[i])
  }

  predicate StartsOutside(s: seq<byte>) {
    s == [] || !PlainChar(s[0])
  }

  /** What may follow a complete tag: nothing, a comma or a closing bracket. */
  predicate Closed(s: seq<byte>) {
    s == [] || s[0] == 44 || s[0] == 62
  }

  predicate Plain(t: TypeTag)
    decreases t
  {
    match t
    case Vector(e) => Plain(e)
    case Struct(s) => PlainStruct(s)
    case _ => true
  }

  predicate PlainStruct(s: StructTag)
    decreases s
  {
    Word(s.moduleName) && Word(s.name) && PlainAll(s.typeParams)
  }

  predicate PlainAll(ts: seq<TypeTag>)
    decreases ts
  {
    ts == [] || (Plain(ts[0]) && PlainAll(ts[1..]))
  }

  /** Length of the longest run of word characters in front. */
  function WordLength(s: seq<byte>): nat {
    if StartsOutside(s) then 0 else 1 + WordLength(s[1..])
  }

  lemma {:induction false} WordLengthOfToken(a: seq<byte>, x: seq<byte>)
    requires Word(a) && StartsOutside(x)
    ensures WordLength(a + x) == |a|
  {
    if a == [] {
      assert a + x == x;
    } else {
      WordLengthOfToken(a[1..], x);
      assert (a + x)[1..] == a[1..] + x;
    }
  }

  lemma WordUnique(a: seq<byte>, x: seq<byte>, a': seq<byte>, x': seq<byte>)
    requires Word(a) && Word(a') && StartsOutside(x) && StartsOutside(x')
    requires a + x == a' + x'
    ensures a == a' && x == x'
  {
    WordLengthOfToken(a, x);
    WordLengthOfToken(a', x');
    SamePrefix(a, x, a', x');
  }

  lemma SamePrefix<T>(a: seq<T>, x: seq<T>, a': seq<T>, x': seq<T>)
    requires |a| == |a'| && a + x == a' + x'
    ensures a == a' && x == x'
  {
    assert a == (a + x)[..|a|] && a' == (a' + x')[..|a|];
    assert x == (a + x)[|a|..] && x' == (a' + x')[|a|..];
  }

  // ----- Unique readability -----

  /** The first two characters already tell which kind of tag follows. */
  function Lead(t: TypeTag): (byte, byte) {
    match t
    case Struct(_) => (48, 120)
    case Vector(_) => (118, 101)
    case U8 => (117, 56)
    case U64 => (117, 54)
    case U128 => (117, 49)
    case Address => (97, 100)
    case Signer => (115, 105)
    case Bool => (98, 111)
  }

  lemma ShowStartsWithLead(t: TypeTag, r: seq<byte>)
    ensures var s := Show(t) + r;
            |s| >= 2 && (s[0], s[1]) == Lead(t)
  {
    match t
    case Struct(s) => StructLead(s, r);
    case Vector(e) => VectorLead(e, r);
    case _ => PrimitiveLead(t);
  }

  lemma StructLead(s: StructTag, r: seq<byte>)
    ensures var text := ShowStruct(s) + r;
            |text| >= 2 && text[0] == 48 && text[1] == 120
  {
    assert |ShowPath(s)| >= 2 && ShowPath(s)[0] == 48 && ShowPath(s)[1] == 120;
  }

  lemma VectorLead(e: TypeTag, r: seq<byte>)
    ensures var text := Show(Vector(e)) + r;
            |text| >= 2 && text[0] == 118 && text[1] == 101
  {
    assert Text("vector<")[0] == 118 && Text("vector<")[1] == 101;
    assert Show(Vector(e)) == Text("vector<") + (Show(e) + Text(">"));
  }

  lemma PrimitiveLead(t: TypeTag)
    requires !t.Struct? && !t.Vector?
    ensures |Show(t)| >= 2 && (Show(t)[0], Show(t)[1]) == Lead(t)
  {
  }

  lemma {:induction false} ShowUnique(t: TypeTag, r: seq<byte>, t': TypeTag, r': seq<byte>)
    requires Plain(t) && Plain(t') && Closed(r) && Closed(r')
    requires Show(t) + r == Show(t') + r'
    ensures t == t' && r == r'
    decreases t
  {
    ShowStartsWithLead(t, r);
    ShowStartsWithLead(t', r');
    assert Lead(t) == Lead(t');
    match t
    case Struct(s) =>
      ShowStructUnique(s, r, t'.tag, r');
    case Vector(e) =>
      var v, x, x' := Text("vector<"), Show(e) + Text(">"), Show(t'.elem) + Text(">");
      Assoc(v, x, r);
      Assoc(v, x', r');
      SamePrefix(v, x + r, v, x' + r');
      Assoc(Show(e), Text(">"), r);
      Assoc(Show(t'.elem), Text(">"), r');
      ShowUnique(e, Text(">") + r, t'.elem, Text(">") + r');
      SamePrefix(Text(">"), r, Text(">"), r');
    case _ =>
      SamePrefix(Show(t), r, Show(t'), r');
  }

  lemma {:induction false} ShowStructUnique(s: StructTag, r: seq<byte>, s': StructTag, r': seq<byte>)
    requires PlainStruct(s) && PlainStruct(s') && Closed(r) && Closed(r')
    requires ShowStruct(s) + r == ShowStruct(s') + r'
    ensures s == s' && r == r'
    decreases s
  {
    var p, p' := ShowParams(s.typeParams) + r, ShowParams(s'.typeParams) + r';
    Assoc(ShowPath(s), ShowParams(s.typeParams), r);
    Assoc(ShowPath(s'), ShowParams(s'.typeParams), r');
    ParamsStartOutside(s.typeParams, r);
    ParamsStartOutside(s'.typeParams, r');
    PathUnique(s, p, s', p');
    ShowParamsUnique(s.typeParams, r, s'.typeParams, r');
  }

  lemma ParamsStartOutside(ts: seq<TypeTag>, r: seq<byte>)
    requires Closed(r)
    ensures StartsOutside(ShowParams(ts) + r)
  {
    if ts == [] { assert ShowParams(ts) + r == r; }
  }

  lemma ShortStrIsWord(a: Address)
    ensures Word(ShortStrLossless(a))
  {
    ShortStrValue(a);
    assert forall c: byte :: HexValue(c).Some? ==> PlainChar(c);
  }

  lemma PathUnique(s: StructTag, p: seq<byte>, s': StructTag, p': seq<byte>)
    requires Word(s.moduleName) && Word(s.name) && Word(s'.moduleName) && Word(s'.name)
    requires StartsOutside(p) && StartsOutside(p')
    requires ShowPath(s) + p == ShowPath(s') + p'
    ensures s.address == s'.address && s.moduleName == s'.moduleName && s.name == s'.name && p == p'
  {
    ShortStrIsWord(s.address);
    ShortStrIsWord(s'.address);
    PathParts(s, p);
    PathParts(s', p');
    var colons := Text("::");
    SamePrefix(Text("0x"), AfterX(s, p), Text("0x"), AfterX(s', p'));
    WordUnique(ShortStrLossless(s.address), colons + AfterAddress(s, p),
               ShortStrLossless(s'.address), colons + AfterAddress(s', p'));
    SamePrefix(colons, AfterAddress(s, p), colons, AfterAddress(s', p'));
    WordUnique(s.moduleName, colons + (s.name + p), s'.moduleName, colons + (s'.name + p'));
    SamePrefix(colons, s.name + p, colons, s'.name + p');
    WordUnique(s.name, p, s'.name, p');
    ShortStrInjective(s.address, s'.address);
  }

  function AfterAddress(s: StructTag, p: seq<byte>): seq<byte> {
    s.moduleName + (Text("::") + (s.name + p))
  }

  function AfterX(s: StructTag, p: seq<byte>): seq<byte> {
    ShortStrLossless(s.address) + (Text("::") + AfterAddress(s, p))
  }

  lemma PathParts(s: StructTag, p: seq<byte>)
    ensures ShowPath(s) + p == Text("0x") + AfterX(s, p)
  {
    var c := Text("::");
    var n := c + s.name;
    var m := s.moduleName + n;
    var a := ShortStrLossless(s.address) + (c + m);
    Assoc(Text("0x"), a, p);
    Assoc(ShortStrLossless(s.address), c + m, p);
    Assoc(c, m, p);
    Assoc(s.moduleName, n, p);
    Assoc(c, s.name, p);
  }

  lemma {:induction false} ShowParamsUnique(ts: seq<TypeTag>, r: seq<byte>, ts': seq<TypeTag>, r': seq<byte>)
    requires PlainAll(ts) && PlainAll(ts') && Closed(r) && Closed(r')
    requires ShowParams(ts) + r == ShowParams(ts') + r'
    ensures ts == ts' && r == r'
    decreases ts, 1
  {
    assert ts != [] ==> (ShowParams(ts) + r)[0] == 60;
    assert ts' != [] ==> (ShowParams(ts') + r')[0] == 60;
    assert ts == [] ==> ShowParams(ts) + r == r;
    assert ts' == [] ==> ShowParams(ts') + r' == r';
    if ts != [] {
      ShowListUnique(Text("<"), ts, r, ts', r');
    }
  }

  lemma {:induction false} ShowTailUnique(ts: seq<TypeTag>, r: seq<byte>, ts': seq<TypeTag>, r': seq<byte>)
    requires PlainAll(ts) && PlainAll(ts')
    requires ShowTail(ts) + r == ShowTail(ts') + r'
    ensures ts == ts' && r == r'
    decreases ts, 1
  {
    assert (ShowTail(ts) + r)[0] == if ts == [] then 62 else 44;
    assert (ShowTail(ts') + r')[0] == if ts' == [] then 62 else 44;
    if ts == [] {
      SamePrefix(Text(">"), r, Text(">"), r');
    } else {
      ShowListUnique(Text(", "), ts, r, ts', r');
    }
  }

  lemma {:induction false} ShowListUnique(open: seq<byte>, ts: seq<TypeTag>, r: seq<byte>,
                                          ts': seq<TypeTag>, r': seq<byte>)
    requires ts != [] && ts' != [] && PlainAll(ts) && PlainAll(ts')
    requires open + (Show(ts[0]) + ShowTail(ts[1..])) + r == open + (Show(ts'[0]) + ShowTail(ts'[1..])) + r'
    ensures ts == ts' && r == r'
    decreases ts, 0
  {
    var a, b := Show(ts[0]), ShowTail(ts[1..]);
    var a', b' := Show(ts'[0]), ShowTail(ts'[1..]);
    Assoc(open, a + b, r);
    Assoc(open, a' + b', r');
    SamePrefix(open, a + b + r, open, a' + b' + r');
    Assoc(a, b, r);
    Assoc(a', b', r');
    ShowUnique(ts[0], b + r, ts'[0], b' + r');
    ShowTailUnique(ts[1..], r, ts'[1..], r');
    assert ts == [ts[0]] + ts[1..] && ts' == [ts'[0]] + ts'[1..];
  }

  /** Two tags that print alike are equal, at any nesting and arity, when no name holds a colon, a
      comma or a bracket. */
  lemma DisplayInjective(t: TypeTag, t': TypeTag)
    requires Plain(t) && Plain(t') && Show(t) == Show(t')
    ensures t == t'
  {
    assert Show(t) + [] == Show(t') + [];
    ShowUnique(t, [], t', []);
  }

  /** No kind of separator can be allowed in names. With colons, a module and a struct name can be
      divided in two ways. */
  lemma SeparatorInNameIsAmbiguous(a: Address, m: Identifier, mid: Identifier, n: Identifier,
                                   left: Identifier, right: Identifier)
    requires left == m + (Text("::") + mid) && right == mid + (Text("::") + n)
    ensures Show(Struct(StructTag(a, left, n, []))) == Show(Struct(StructTag(a, m, right, [])))
    ensures StructTag(a, left, n, []) != StructTag(a, m, right, [])
  {
    var c := Text("::");
    assert left + (c + n) == m + (c + right);
    assert |left| > |m|;
  }

  lemma ShowOne(a: Address, m: Identifier, n: Identifier, ts: seq<TypeTag>)
    ensures Show(Struct(StructTag(a, m, n, ts))) == ShowPath(StructTag(a, m, [], [])) + (n + ShowParams(ts))
  {
    var x, c, p := ShortStrLossless(a), Text("::"), ShowParams(ts);
    assert c + [] == c;
    var front := Text("0x") + (x + (c + (m + c)));
    assert ShowPath(StructTag(a, m, n, ts)) == front + n by {
      Assoc(m, c, n);
      Assoc(c, m + c, n);
      Assoc(x, c + (m + c), n);
      Assoc(Text("0x"), x + (c + (m + c)), n);
    }
    Assoc(front, n, p);
  }

  /** With brackets, a name can spell out a parameter. */
  lemma BracketInNameIsAmbiguous(a: Address, m: Identifier, n: Identifier, t: TypeTag, spelled: Identifier)
    requires spelled == n + ShowParams([t])
    ensures Show(Struct(StructTag(a, m, spelled, []))) == Show(Struct(StructTag(a, m, n, [t])))
  {
    ShowOne(a, m, spelled, []);
    ShowOne(a, m, n, [t]);
    assert spelled + [] == spelled;
  }

  /** With commas, the name of a parameter can spell out the next one. */
  lemma CommaInNameIsAmbiguous(a: Address, m: Identifier, n: Identifier, t: TypeTag, spelled: Identifier)
    requires spelled == n + (Text(", ") + Show(t))
    ensures ShowParams([Struct(StructTag(a, m, spelled, []))]) == ShowParams([Struct(StructTag(a, m, n, [])), t])
  {
    var one, two := Struct(StructTag(a, m, spelled, [])), Struct(StructTag(a, m, n, []));
    ShowOne(a, m, spelled, []);
    ShowOne(a, m, n, []);
    var front := ShowPath(StructTag(a, m, [], []));
    assert n + [] == n && spelled + [] == spelled;
    assert Show(one) == Show(two) + (Text(", ") + Show(t)) by {
      Assoc(front, n, Text(", ") + Show(t));
    }
    assert ([one])[1..] == [] && ([two, t])[1..] == [t] && ([t])[1..] == [];
    Assoc(Show(two), Text(", ") + Show(t), Text(">"));
    Assoc(Text(", "), Show(t), Text(">"));
    assert ShowTail([t]) == Text(", ") + (Show(t) + ShowTail([t][1..]));
  }
}
