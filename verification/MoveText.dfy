/** Text of generated Move code: white space, decimal numbers and byte-vector literals, and how they
    are read back. */
module MoveText {
  import opened Common
  import opened Hex

  // ----- White space -----

  predicate IsSpace(c: char) { c == ' ' || c == '\n' }

  /** Characters next to which white space counts: those of words and numbers, and the quotation mark
      of a byte-string literal. */
  predicate Tight(c: char) {
    '0' <= c <= '9' || 'a' <= c <= 'z' || 'A' <= c <= 'Z' || c == '_' || c == '"'
  }

  /** Punctuation: white space around it does not count. */
  predicate Mark(c: char) { !IsSpace(c) && !Tight(c) }

  predicate EndsInSpace(s: string) { s != "" && IsSpace(s[|s| - 1]) }

  predicate EndsInMark(s: string) { s != "" && Mark(s[|s| - 1]) }

  /** Whether a space is kept between the visible text `ink` of `s` and the character after `s`. */
  predicate Parted(s: string, ink: string, c: char) {
    EndsInSpace(s) && ink != "" && Tight(ink[|ink| - 1]) && Tight(c)
  }

  /** The visible text: white space is dropped, but for one space between two tight characters. So
      words neither run together nor fall apart, and a quoted literal keeps its spaces. */
  function Squeeze(s: string): string {
    if s == "" then "" else Grown(s[..|s| - 1], Squeeze(s[..|s| - 1]), s[|s| - 1])
  }

  /** The visible text of `s` and one more character, given that of `s`. */
  function Grown(s: string, ink: string, c: char): string {
    if IsSpace(c) then ink else ink + ((if Parted(s, ink, c) then " " else "") + [c])
  }

  /** The visible text ends in punctuation or has not begun. */
  predicate Closed(s: string) {
    Squeeze(s) == "" || !Tight(Squeeze(s)[|Squeeze(s)| - 1])
  }

  /** The two texts can be squeezed separately: the first one is closed, or the second one starts
      with punctuation or directly continues a word. */
  predicate Joins(a: string, b: string) {
    Closed(a) || (b != "" && !IsSpace(b[0]) && (!Tight(b[0]) || !EndsInSpace(a)))
  }

  predicate NoSpace(s: string) {
    forall i :: 0 <= i < |s| ==> !IsSpace(s[i])
  }

  /** A leading visible character stays in front. */
  lemma {:induction false} SqueezeHead(s: string)
    requires s != "" && !IsSpace(s[0])
    ensures Squeeze(s) != "" && Squeeze(s)[0] == s[0]
  {
    if |s| == 1 {
      assert s[..0] == "";
    } else {
      SqueezeHead(s[..|s| - 1]);
    }
  }

  lemma SqueezeLast(s: string)
    requires s != "" && !IsSpace(s[|s| - 1])
    ensures Squeeze(s) != "" && Squeeze(s)[|Squeeze(s)| - 1] == s[|s| - 1]
  {
  }

  lemma SqueezeSnoc(s: string, c: char)
    ensures Squeeze(s + [c]) == Grown(s, Squeeze(s), c)
  {
    assert (s + [c])[..|s|] == s;
  }

  lemma GrownAfter(front: string, s: string, ink: string, s': string, c: char)
    requires Parted(s', front + ink, c) <==> Parted(s, ink, c)
    ensures Grown(s', front + ink, c) == front + Grown(s, ink, c)
  {
    Assoc(front, ink, (if Parted(s, ink, c) then " " else "") + [c]);
  }

  lemma {:induction false} SqueezeConcat(a: string, b: string)
    requires Joins(a, b)
    ensures Squeeze(a + b) == Squeeze(a) + Squeeze(b)
    decreases |b|, 1
  {
    if b == "" {
      assert a + b == a;
    } else {
      var init, c := b[..|b| - 1], b[|b| - 1];
      JoinsFront(a, b);
      assert a + b == a + init + [c];
      SqueezeSnoc(a + init, c);
      GrownAfter(Squeeze(a), init, Squeeze(init), a + init, c);
    }
  }

  /** The step of the induction: all but the last character, and where that one goes. */
  lemma {:induction false} JoinsFront(a: string, b: string)
    requires Joins(a, b) && b != ""
    ensures var init, c := b[..|b| - 1], b[|b| - 1];
            && Squeeze(a + init) == Squeeze(a) + Squeeze(init)
            && (Parted(a + init, Squeeze(a) + Squeeze(init), c) <==> Parted(init, Squeeze(init), c))
    decreases |b|, 0
  {
    var init := b[..|b| - 1];
    if init == "" {
      assert a + init == a;
    } else {
      SqueezeConcat(a, init);
      if !IsSpace(init[0]) { SqueezeHead(init); }
    }
  }

  /** A word after white space after a word: one space remains. */
  lemma {:induction false} SqueezeGap(a: string, b: string)
    requires EndsInSpace(a) && !Closed(a) && b != "" && Tight(b[0])
    ensures Squeeze(a + b) == Squeeze(a) + " " + Squeeze(b)
  {
    var init, c := b[..|b| - 1], b[|b| - 1];
    assert a + b == a + init + [c];
    SqueezeSnoc(a + init, c);
    if init == "" {
      assert a + init == a;
      Assoc(Squeeze(a), " ", [c]);
      SqueezeSnoc("", c);
    } else {
      SqueezeGap(a, init);
      SqueezeHead(init);
      GrownAfter(Squeeze(a) + " ", init, Squeeze(init), a + init, c);
    }
  }

  lemma {:induction false} SqueezeWord(s: string)
    requires NoSpace(s)
    ensures Squeeze(s) == s
  {
    if s == "" {
    } else {
      SqueezeWord(s[..|s| - 1]);
      assert s == s[..|s| - 1] + [s[|s| - 1]];
    }
  }

  lemma SqueezeSpace(s: string, c: char)
    requires IsSpace(c)
    ensures Squeeze(s + [c]) == Squeeze(s)
  {
    assert (s + [c])[..|s|] == s;
  }

  /** What white space is worth: between two words it is one space, next to punctuation nothing. */
  lemma SpaceBetween(a: string, gap: string, b: string)
    requires a != "" && b != "" && gap != "" && NoSpace(a) && NoSpace(b)
    requires forall i :: 0 <= i < |gap| ==> IsSpace(gap[i])
    ensures Squeeze(a + gap + b) == if Tight(a[|a| - 1]) && Tight(b[0]) then a + " " + b else a + b
  {
    SqueezeWord(a);
    SqueezeSpaces(a, gap);
    assert EndsInSpace(a + gap);
    WordAfter(a + gap, a, b);
  }

  lemma WordAfter(front: string, ink: string, b: string)
    requires Squeeze(front) == ink != "" && EndsInSpace(front) && b != "" && NoSpace(b)
    ensures Squeeze(front + b) == if Tight(ink[|ink| - 1]) && Tight(b[0]) then ink + " " + b else ink + b
  {
    SqueezeWord(b);
    if Tight(ink[|ink| - 1]) && Tight(b[0]) {
      SqueezeGap(front, b);
    } else {
      SqueezeConcat(front, b);
    }
  }

  lemma {:induction false} SqueezeSpaces(a: string, gap: string)
    requires forall i :: 0 <= i < |gap| ==> IsSpace(gap[i])
    ensures Squeeze(a + gap) == Squeeze(a)
  {
    if gap == "" {
      assert a + gap == a;
    } else {
      var init, c := gap[..|gap| - 1], gap[|gap| - 1];
      assert gap == init + [c];
      Assoc(a, init, [c]);
      SqueezeSpace(a + init, c);
      SqueezeSpaces(a, init);
    }
  }

  // ----- Quoted literals -----

  function QuotedInk(s: string): string {
    Squeeze("\"" + s + "\"")
  }

  /** The character at `i`, after the opening quotation mark, is not hexadecimal. */
  predicate ShowsAt(ink: string, i: nat) {
    1 <= i < |ink| && !IsHexChar(ink[i])
  }

  /** Such a character shows, or will once the text goes on with a tight one. */
  ghost predicate Spoiled(s: string) {
    var ink := Squeeze(s);
    (exists i: nat :: ShowsAt(ink, i)) || (EndsInSpace(s) && ink != "" && Tight(ink[|ink| - 1]))
  }

  /** Once spoiled, a text stays so, and shows it before the next visible tight character. */
  lemma SpoiledStays(s: string, c: char) returns (i: nat)
    requires Spoiled(s) && Squeeze(s) != ""
    ensures Spoiled(s + [c])
    ensures Tight(c) ==> ShowsAt(Squeeze(s + [c]), i) && i < |Squeeze(s + [c])| - 1
  {
    var ink := Squeeze(s);
    SqueezeSnoc(s, c);
    var grown := Squeeze(s + [c]);
    if j: nat :| ShowsAt(ink, j) {
      i := j;
      assert ShowsAt(grown, i);
    } else {
      i := |ink|;
      assert IsSpace(c) || ShowsAt(grown, i);
    }
  }

  /** Any character that is not hexadecimal spoils what follows the opening mark. */
  lemma {:induction false} OpenedInk(s: string)
    requires !AllHexChars(s)
    ensures Squeeze("\"" + s) != "" && Spoiled("\"" + s)
  {
    var init, c := s[..|s| - 1], s[|s| - 1];
    var front := "\"" + init;
    assert s == init + [c] && "\"" + s == front + [c];
    SqueezeHead("\"" + s);
    SqueezeHead(front);
    if AllHexChars(init) {
      SpoiledBy(init, c);
    } else {
      OpenedInk(init);
      var i := SpoiledStays(front, c);
    }
  }

  lemma SpoiledBy(init: string, c: char)
    requires AllHexChars(init) && !IsHexChar(c)
    ensures Spoiled("\"" + init + [c])
  {
    var front := "\"" + init;
    SqueezeWord(front);
    SqueezeSnoc(front, c);
    if IsSpace(c) {
      assert Squeeze(front + [c]) == front && Tight(front[|front| - 1]);
    } else {
      assert Squeeze(front + [c]) == front + [c];
      assert ShowsAt(Squeeze(front + [c]), |front|);
    }
  }

  /** Between its marks, a text is seen to be hexadecimal exactly when it is, and then shows unchanged:
      no white space goes unnoticed. */
  lemma QuotedInkExact(s: string)
    ensures |QuotedInk(s)| >= 2 && QuotedInk(s)[0] == '"' && QuotedInk(s)[|QuotedInk(s)| - 1] == '"'
    ensures AllHexChars(QuotedInk(s)[1..|QuotedInk(s)| - 1]) <==> AllHexChars(s)
    ensures AllHexChars(s) ==> QuotedInk(s)[1..|QuotedInk(s)| - 1] == s
  {
    var front := "\"" + s;
    var q := QuotedInk(s);
    assert q == Squeeze(front + ['"']);
    SqueezeHead(front + ['"']);
    SqueezeLast(front + ['"']);
    if AllHexChars(s) {
      SqueezeWord(front + ['"']);
      assert q[1..|q| - 1] == s;
    } else {
      OpenedInk(s);
      var i := SpoiledStays(front, '"');
      assert q[1..|q| - 1][i - 1] == q[i];
    }
  }

  // ----- Decimal numbers -----

  predicate IsDigit(c: char) { '0' <= c <= '9' }

  function Digit(n: nat): (c: char)
    requires n < 10
    ensures IsDigit(c) && DigitValue(c) == n
  {
    '0' + n as char
  }

  function DigitValue(c: char): nat
    requires IsDigit(c)
  {
    c as int - '0' as int
  }

  predicate AllDigits(s: string) {
    forall i :: 0 <= i < |s| ==> IsDigit(s[i])
  }

  function Decimal(n: nat): (s: string)
    ensures s != "" && AllDigits(s)
  {
    if n < 10 then [Digit(n)] else Decimal(n / 10) + [Digit(n % 10)]
  }

  function NatOf(s: string): nat
    requires AllDigits(s)
  {
    if s == "" then 0 else 10 * NatOf(s[..|s| - 1]) + DigitValue(s[|s| - 1])
  }

  lemma {:induction false} NatOfDecimal(n: nat)
    ensures NatOf(Decimal(n)) == n
  {
    var s := Decimal(n);
    if n < 10 {
      assert s[..0] == "";
    } else {
      NatOfDecimal(n / 10);
      assert s[..|s| - 1] == Decimal(n / 10);
    }
  }

  lemma KnownDecimals()
    ensures Decimal(0) == "0" && Decimal(120) == "120" && Decimal(255) == "255"
  {
    assert Decimal(1) == "1" && Decimal(2) == "2";
    assert Decimal(12) == "12" && Decimal(25) == "25";
  }

  /** How many digits stand in front. */
  function DigitRun(s: string): (n: nat)
    ensures n <= |s| && AllDigits(s[..n])
  {
    if s == "" || !IsDigit(s[0]) then 0 else 1 + DigitRun(s[1..])
  }

  lemma {:induction false} DigitRunOf(d: string, rest: string)
    requires AllDigits(d) && (rest == "" || !IsDigit(rest[0]))
    ensures DigitRun(d + rest) == |d|
  {
    if d == "" {
      assert d + rest == rest;
    } else {
      DigitRunOf(d[1..], rest);
      assert (d + rest)[1..] == d[1..] + rest;
    }
  }

  function ReadNat(s: string): Option<(nat, string)> {
    var n := DigitRun(s);
    if n == 0 then None else Some((NatOf(s[..n]), s[n..]))
  }

  lemma ReadNatOf(d: string, rest: string)
    requires d != "" && AllDigits(d) && rest != "" && !IsDigit(rest[0])
    ensures ReadNat(d + rest) == Some((NatOf(d), rest))
  {
    DigitRunOf(d, rest);
    assert (d + rest)[..|d|] == d && (d + rest)[|d|..] == rest;
  }

  lemma ReadNatInvertsDecimal(n: nat, rest: string)
    requires rest != "" && !IsDigit(rest[0])
    ensures ReadNat(Decimal(n) + rest) == Some((n, rest))
  {
    ReadNatOf(Decimal(n), rest);
    NatOfDecimal(n);
  }

  /** A text that is not all digits stops the number at a character of its own. */
  lemma {:induction false} DigitRunStops(d: string, rest: string)
    requires !AllDigits(d)
    ensures var n := DigitRun(d + rest);
            n < |d| && !IsDigit(d[n])
  {
    assert (d + rest)[0] == d[0];
    if IsDigit(d[0]) {
      assert (d + rest)[1..] == d[1..] + rest;
      assert !AllDigits(d[1..]) by {
        var i :| 0 <= i < |d| && !IsDigit(d[i]);
        assert d[1..][i - 1] == d[i];
      }
      DigitRunStops(d[1..], rest);
    }
  }

  // ----- Byte vectors -----

  /** The elements of a vector literal: each byte in decimal, then `u8,`. */
  function Items(bs: seq<byte>): string {
    if bs == [] then "" else Decimal(bs[0]) + ("u8," + Items(bs[1..]))
  }

  function After(s: string, prefix: string): Option<string> {
    if prefix <= s then Some(s[|prefix|..]) else None
  }

  lemma AfterPrefix(prefix: string, rest: string)
    ensures After(prefix + rest, prefix) == Some(rest)
  {
  }

  /** Reads elements up to and including the closing bracket. */
  function ReadItems(s: string): Option<(seq<byte>, string)>
    decreases |s|
  {
    if s == "" then None
    else if s[0] == ']' then Some(([], s[1..]))
    else
      var (n, unit) :- ReadNat(s);
      if n > 255 || |unit| > |s| then None
      else
        var rest :- After(unit, "u8,");
        if |rest| >= |s| then None
        else
          var (others, tail) :- ReadItems(rest);
          Some(([n] + others, tail))
  }

  lemma ReadItemsStep(b: byte, rest: string)
    ensures ReadItems(Decimal(b) + ("u8," + rest)) ==
            if ReadItems(rest).Some? then Some(([b] + ReadItems(rest).value.0, ReadItems(rest).value.1)) else None
  {
    var s := Decimal(b) + ("u8," + rest);
    ReadNatInvertsDecimal(b, "u8," + rest);
    AfterPrefix("u8,", rest);
    assert s[0] == Decimal(b)[0];
  }

  /** Every byte string is read back from the elements of its literal. */
  lemma {:induction false} ReadItemsInvertsItems(bs: seq<byte>, rest: string)
    ensures ReadItems(Items(bs) + ("]" + rest)) == Some((bs, rest))
  {
    var close := "]" + rest;
    if bs == [] {
      assert Items(bs) + close == close;
      assert close[1..] == rest;
    } else {
      var tail := Items(bs[1..]) + close;
      Assoc(Decimal(bs[0]), "u8," + Items(bs[1..]), close);
      Assoc("u8,", Items(bs[1..]), close);
      ReadItemsInvertsItems(bs[1..], rest);
      ReadItemsStep(bs[0], tail);
      assert bs == [bs[0]] + bs[1..];
    }
  }

  lemma {:induction false} ItemsConcat(a: seq<byte>, b: seq<byte>)
    ensures Items(a + b) == Items(a) + Items(b)
  {
    if a == [] {
      assert a + b == b;
    } else {
      ItemsConcat(a[1..], b);
      assert (a + b)[1..] == a[1..] + b;
      Assoc(Decimal(a[0]), "u8," + Items(a[1..]), Items(b));
      Assoc("u8,", Items(a[1..]), Items(b));
    }
  }

  /** What the elements of a vector literal look like. */
  lemma KnownItems()
    ensures Items([120, 255]) == "120u8," + "255u8,"
  {
    KnownDecimals();
    ItemsOfOne(120);
    ItemsOfOne(255);
    ItemsConcat([120], [255]);
    assert [120] + [255] == [120, 255];
    assert "120" + "u8," == "120u8," && "255" + "u8," == "255u8,";
  }

  lemma ItemsOfOne(b: byte)
    ensures Items([b]) == Decimal(b) + "u8,"
  {
    assert ([b])[1..] == [];
    assert "u8," + "" == "u8,";
  }
}
