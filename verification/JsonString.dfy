// JSON string escaping and the reader that takes it back.

module JsonString {
  import opened Common

  const QUOTE: byte := 0x22
  const BACKSLASH: byte := 0x5C

  // ---------- escaping ----------

  // A lower-case hexadecimal digit.
  function HexDigit(n: nat): byte
    requires n < 16
  {
    if n < 10 then 0x30 + n else 0x61 + n - 10
  }

  function EscapeByte(b: byte): seq<byte> {
    match b
    case 0x22 => [BACKSLASH, QUOTE]
    case 0x5C => [BACKSLASH, BACKSLASH]
    case 0x08 => [BACKSLASH, 0x62]
    case 0x0C => [BACKSLASH, 0x66]
    case 0x0A => [BACKSLASH, 0x6E]
    case 0x0D => [BACKSLASH, 0x72]
    case 0x09 => [BACKSLASH, 0x74]
    case _ =>
      if b < 0x20 then [BACKSLASH, 0x75, 0x30, 0x30, HexDigit(b / 16), HexDigit(b % 16)] else [b]
  }

  function Escape(s: seq<byte>): seq<byte> {
    if s == [] then [] else EscapeByte(s[0]) + Escape(s[1..])
  }

  lemma EscapeCons(b: byte, s: seq<byte>)
    ensures Escape([b] + s) == EscapeByte(b) + Escape(s)
  {
    hide EscapeByte;
    assert ([b] + s)[1..] == s;
  }

  lemma {:induction false} EscapeConcat(a: seq<byte>, b: seq<byte>)
    ensures Escape(a + b) == Escape(a) + Escape(b)
  {
    hide EscapeByte, Escape;
    if a == [] {
      EscapeEmpty();
      assert a + b == b;
    } else {
      EscapeConcat(a[1..], b);
      EscapeCons(a[0], a[1..] + b);
      EscapeCons(a[0], a[1..]);
      assert [a[0]] + a[1..] == a && [a[0]] + (a[1..] + b) == a + b;
    }
  }

  method JsonEscape(value: seq<byte>) returns (out: seq<byte>)
    ensures out == Escape(value)
  {
    hide EscapeByte, Escape;
    out := [];
    EscapeEmpty();
    for i := 0 to |value|
      invariant out == Escape(value[..i])
    {
      var b := value[i];
      EscapeLast(value[..i], b);
      assert value[..i + 1] == value[..i] + [b];
      var piece := PieceFor(b);
      out := out + piece;
    }
    assert value[..|value|] == value;
  }

  lemma EscapeEmpty()
    ensures Escape([]) == []
  {
  }

  lemma EscapeLast(s: seq<byte>, b: byte)
    ensures Escape(s + [b]) == Escape(s) + EscapeByte(b)
  {
    hide EscapeByte;
    EscapeConcat(s, [b]);
    assert Escape([b]) == EscapeByte(b) + Escape([]);
  }

  // What the loop body writes for one byte.
  method PieceFor(b: byte) returns (piece: seq<byte>)
    ensures piece == EscapeByte(b)
  {
    match b {
      case 0x22 => piece := [BACKSLASH, QUOTE];
      case 0x5C => piece := [BACKSLASH, BACKSLASH];
      case 0x08 => piece := [BACKSLASH, 0x62];
      case 0x0C => piece := [BACKSLASH, 0x66];
      case 0x0A => piece := [BACKSLASH, 0x6E];
      case 0x0D => piece := [BACKSLASH, 0x72];
      case 0x09 => piece := [BACKSLASH, 0x74];
      case _ =>
        if b < 0x20 {
          piece := [BACKSLASH, 0x75] + Hex4(b);
        } else {
          piece := [b];
        }
    }
  }

  // Four digits, filled with zeros.
  function Hex4(n: nat): (digits: seq<byte>)
    requires n < 0x1_0000
    ensures |digits| == 4
  {
    [HexDigit(n / 0x1000), HexDigit(n / 0x100 % 16), HexDigit(n / 16 % 16), HexDigit(n % 16)]
  }

  // ---------- a reader of JSON strings (section 7 of RFC 8259) ----------

  function HexValue(b: byte): (v: Option<nat>)
    ensures v.Some? ==> v.value < 16
  {
    if 0x30 <= b <= 0x39 then Some(b - 0x30)
    else if 0x61 <= b <= 0x66 then Some(b - 0x61 + 10)
    else if 0x41 <= b <= 0x46 then Some(b - 0x41 + 10)
    else None
  }

  // The number that the first four bytes write in hexadecimal, either case.
  function ReadHex4(text: seq<byte>): (n: Option<nat>)
    ensures n.Some? ==> |text| >= 4 && n.value < 0x1_0000
  {
    hide HexValue;
    if |text| < 4 then None
    else
      match (HexValue(text[0]), HexValue(text[1]), HexValue(text[2]), HexValue(text[3]))
      case (Some(a), Some(b), Some(c), Some(d)) => Some(((a * 16 + b) * 16 + c) * 16 + d)
      case _ => None
  }

  // A character outside the surrogates as UTF-8.
  function Utf8(code: nat): seq<byte>
    requires code < 0x11_0000
  {
    if code < 0x80 then [code]
    else if code < 0x800 then [0xC0 + code / 0x40, 0x80 + code % 0x40]
    else if code < 0x1_0000 then [0xE0 + code / 0x1000, 0x80 + code / 0x40 % 0x40, 0x80 + code % 0x40]
    else [0xF0 + code / 0x4_0000, 0x80 + code / 0x1000 % 0x40, 0x80 + code / 0x40 % 0x40, 0x80 + code % 0x40]
  }

  // A piece of a string: the bytes it stands for and how much text it takes.
  datatype Piece = Piece(bytes: seq<byte>, length: nat)

  // The character behind \u; characters beyond four digits come as two escapes.
  function ReadUnicode(text: seq<byte>): (p: Option<Piece>)
    requires |text| >= 2
    ensures p.Some? ==> 0 < p.value.length <= |text|
  {
    var high := ReadHex4(text[2..]);
    if high.None? then None
    else if high.value < 0xD800 || high.value >= 0xE000 then Some(Piece(Utf8(high.value), 6))
    else if high.value >= 0xDC00 || |text| < 12 || text[6] != BACKSLASH || text[7] != 0x75 then None
    else
      var low := ReadHex4(text[8..]);
      if low.None? || low.value < 0xDC00 || low.value >= 0xE000 then None
      else Some(Piece(Utf8(0x1_0000 + (high.value - 0xD800) * 0x400 + (low.value - 0xDC00)), 12))
  }

  // One character of a string, escaped or not; control bytes may not stand for themselves.
  function ReadPiece(text: seq<byte>): (p: Option<Piece>)
    requires text != []
    ensures p.Some? ==> 0 < p.value.length <= |text|
  {
    if text[0] != BACKSLASH then (if text[0] < 0x20 then None else Some(Piece([text[0]], 1)))
    else if |text| < 2 then None
    else
      match text[1]
      case 0x22 => Some(Piece([QUOTE], 2))
      case 0x5C => Some(Piece([BACKSLASH], 2))
      case 0x2F => Some(Piece([0x2F], 2))
      case 0x62 => Some(Piece([0x08], 2))
      case 0x66 => Some(Piece([0x0C], 2))
      case 0x6E => Some(Piece([0x0A], 2))
      case 0x72 => Some(Piece([0x0D], 2))
      case 0x74 => Some(Piece([0x09], 2))
      case 0x75 => ReadUnicode(text)
      case _ => None
  }

  // The value of a string and the text behind its closing quote.
  datatype Scanned = Scanned(value: seq<byte>, rest: seq<byte>)

  // What follows an opening quote.
  function ReadChars(text: seq<byte>): Option<Scanned>
    decreases |text|
  {
    if text == [] then None
    else if text[0] == QUOTE then Some(Scanned([], text[1..]))
    else
      match ReadPiece(text)
      case None => None
      case Some(p) =>
        match ReadChars(text[p.length..])
        case None => None
        case Some(s) => Some(Scanned(p.bytes + s.value, s.rest))
  }

  function ReadString(text: seq<byte>): Option<Scanned> {
    if text == [] || text[0] != QUOTE then None else ReadChars(text[1..])
  }

  // ---------- the reader takes back what was written ----------

  lemma HexDigitReadsBack(n: nat)
    requires n < 16
    ensures HexValue(HexDigit(n)) == Some(n)
  {
  }

  lemma ControlReadsBack(b: byte, text: seq<byte>)
    requires b < 0x20
    ensures ReadUnicode([BACKSLASH, 0x75, 0x30, 0x30, HexDigit(b / 16), HexDigit(b % 16)] + text) == Some(Piece([b], 6))
  {
    hide HexDigit, HexValue;
    HexDigitReadsBack(b / 16);
    HexDigitReadsBack(b % 16);
    ZeroDigit();
    var all := [BACKSLASH, 0x75, 0x30, 0x30, HexDigit(b / 16), HexDigit(b % 16)] + text;
    assert all[2..][..4] == [0x30, 0x30, HexDigit(b / 16), HexDigit(b % 16)];
    assert ReadHex4(all[2..]) == Some(b);
  }

  lemma ZeroDigit()
    ensures HexValue(0x30) == Some(0)
  {
  }

  // Whatever follows, the escape of a byte is read as that byte and no further.
  lemma ByteReadsBack(b: byte, text: seq<byte>)
    ensures EscapeByte(b) != [] && (EscapeByte(b) + text)[0] != QUOTE
    ensures ReadPiece(EscapeByte(b) + text) == Some(Piece([b], |EscapeByte(b)|))
  {
    hide ReadUnicode;
    var all := EscapeByte(b) + text;
    if b < 0x20 && b != 0x08 && b != 0x0C && b != 0x0A && b != 0x0D && b != 0x09 {
      ControlReadsBack(b, text);
    }
  }

  lemma ReadCharsOn(text: seq<byte>, p: Piece, s: Scanned)
    requires text != [] && text[0] != QUOTE && ReadPiece(text) == Some(p)
    requires ReadChars(text[p.length..]) == Some(s)
    ensures ReadChars(text) == Some(Scanned(p.bytes + s.value, s.rest))
  {
    hide ReadPiece;
  }

  lemma EscapeOn(s: seq<byte>, tail: seq<byte>)
    requires s != []
    ensures Escape(s) + tail == EscapeByte(s[0]) + (Escape(s[1..]) + tail)
  {
    hide EscapeByte;
  }

  lemma ReadCharsEnd(text: seq<byte>)
    ensures ReadChars(Escape([]) + ([QUOTE] + text)) == Some(Scanned([], text))
  {
    var all := Escape([]) + ([QUOTE] + text);
    assert all == [QUOTE] + text && all[1..] == text;
  }

  lemma {:induction false} CharsReadBack(s: seq<byte>, text: seq<byte>)
    ensures ReadChars(Escape(s) + ([QUOTE] + text)) == Some(Scanned(s, text))
    decreases |s|
  {
    hide EscapeByte, ReadPiece, ReadChars, Escape;
    var tail := [QUOTE] + text;
    if s == [] {
      ReadCharsEnd(text);
    } else {
      CharsReadBack(s[1..], text);
      var rest := Escape(s[1..]) + tail;
      var all := EscapeByte(s[0]) + rest;
      EscapeOn(s, tail);
      ByteReadsBack(s[0], rest);
      assert all[|EscapeByte(s[0])|..] == rest;
      ReadCharsOn(all, Piece([s[0]], |EscapeByte(s[0])|), Scanned(s[1..], text));
      assert [s[0]] + s[1..] == s;
    }
  }

  // A value between quotes, as the renderer writes it.
  function Quoted(s: seq<byte>): seq<byte> {
    [QUOTE] + Escape(s) + [QUOTE]
  }

  // Any bytes, in any context: the string read is the string written, and reading stops
  // right behind its closing quote.
  lemma StringReadsBack(s: seq<byte>, text: seq<byte>)
    ensures ReadString(Quoted(s) + text) == Some(Scanned(s, text))
  {
    hide Escape, ReadChars;
    CharsReadBack(s, text);
    assert (Quoted(s) + text)[1..] == Escape(s) + ([QUOTE] + text);
  }

  // Two texts that begin with quoted values are alike only if the values and the rests are.
  lemma QuotedIsUnambiguous(a: seq<byte>, b: seq<byte>, x: seq<byte>, y: seq<byte>)
    requires Quoted(a) + x == Quoted(b) + y
    ensures a == b && x == y
  {
    hide Quoted, ReadString;
    StringReadsBack(a, x);
    StringReadsBack(b, y);
  }

  // The mnemonic and operands members of an instruction record.
  function InstructionMembers(mnemonic: seq<byte>, operands: seq<byte>, between: seq<byte>): seq<byte> {
    Quoted(mnemonic) + (between + Quoted(operands))
  }

  // Both values come back whatever they contain; the first cannot spill into the second.
  lemma MembersReadBack(mnemonic: seq<byte>, operands: seq<byte>, between: seq<byte>, text: seq<byte>)
    ensures var r := ReadString(InstructionMembers(mnemonic, operands, between) + text);
      && r.Some? && r.value.value == mnemonic && between <= r.value.rest
      && ReadString(r.value.rest[|between|..]) == Some(Scanned(operands, text))
  {
    hide Quoted, ReadString;
    var rest := between + Quoted(operands) + text;
    assert InstructionMembers(mnemonic, operands, between) + text == Quoted(mnemonic) + rest;
    StringReadsBack(mnemonic, rest);
    assert rest[|between|..] == Quoted(operands) + text;
    StringReadsBack(operands, text);
  }

  // ---------- no shorter text is read as the same value ----------

  predicate UpperCaseHex(b: byte) {
    0x41 <= b <= 0x46
  }

  lemma OneLowerCaseDigit(b: byte, n: nat)
    requires HexValue(b) == Some(n) && !UpperCaseHex(b)
    ensures n < 16 && b == HexDigit(n)
  {
  }

  // Four digits that write a control byte.
  lemma ControlDigits(text: seq<byte>, b: byte)
    requires ReadHex4(text) == Some(b) && b < 0x20
    requires |text| == 4 && forall i | 0 <= i < 4 :: !UpperCaseHex(text[i])
    ensures text == [0x30, 0x30, HexDigit(b / 16), HexDigit(b % 16)]
  {
    var w, x := HexValue(text[0]), HexValue(text[1]);
    var y, z := HexValue(text[2]), HexValue(text[3]);
    assert w.Some? && x.Some? && y.Some? && z.Some?;
    assert ((w.value * 16 + x.value) * 16 + y.value) * 16 + z.value == b;
    assert w.value == 0 && x.value == 0 && y.value == b / 16 && z.value == b % 16;
    hide HexValue, ReadHex4, HexDigit;
    OneLowerCaseDigit(text[0], 0);
    OneLowerCaseDigit(text[1], 0);
    OneLowerCaseDigit(text[2], b / 16);
    OneLowerCaseDigit(text[3], b % 16);
    ZeroHex();
  }

  lemma ZeroHex()
    ensures HexDigit(0) == 0x30
  {
  }

  // The escape of a byte is the shortest text that is read as it, and the only one of its
  // length that has no upper-case digit.
  lemma EscapeIsShortest(b: byte, text: seq<byte>)
    requires text != [] && text[0] != QUOTE && ReadPiece(text) == Some(Piece([b], |text|))
    ensures |EscapeByte(b)| <= |text|
    ensures |EscapeByte(b)| == |text| && (forall i | 2 <= i < |text| :: !UpperCaseHex(text[i])) ==> text == EscapeByte(b)
  {
    hide ReadUnicode, HexDigit;
    if |text| >= 2 && text[0] == BACKSLASH && text[1] == 0x75 {
      UnicodeByte(b, text);
      if |EscapeByte(b)| == |text| && forall i | 2 <= i < |text| :: !UpperCaseHex(text[i]) {
        ControlDigits(text[2..], b);
        assert text == text[..2] + text[2..];
      }
    }
  }

  // A byte written with \u is an ASCII one, and takes six bytes.
  lemma UnicodeByte(b: byte, text: seq<byte>)
    requires |text| >= 2 && text[0] == BACKSLASH && text[1] == 0x75 && ReadPiece(text) == Some(Piece([b], |text|))
    ensures |text| == 6 && ReadHex4(text[2..]) == Some(b)
  {
    hide ReadHex4;
  }

  // The escape of what a piece stands for is no longer than the piece.
  lemma PieceIsNoShorter(text: seq<byte>)
    requires text != [] && text[0] != QUOTE && ReadPiece(text).Some?
    ensures var p := ReadPiece(text).value; |Escape(p.bytes)| <= p.length
  {
    hide ReadUnicode, Escape;
    var p := ReadPiece(text).value;
    if text[0] == BACKSLASH && text[1] == 0x75 {
      UnicodeIsNoShorter(text);
    } else {
      EscapeOne(p.bytes[0]);
    }
  }

  lemma EscapeOne(b: byte)
    ensures Escape([b]) == EscapeByte(b) && |EscapeByte(b)| <= 6
    ensures b >= 0x80 ==> |EscapeByte(b)| == 1
  {
    hide Escape;
    EscapeCons(b, []);
    assert [b] + [] == [b];
    EscapeEmpty();
  }

  lemma UnicodeIsNoShorter(text: seq<byte>)
    requires |text| >= 2 && ReadUnicode(text).Some?
    ensures var p := ReadUnicode(text).value; |Escape(p.bytes)| <= p.length
  {
    hide ReadHex4, EscapeByte, Escape;
    var p := ReadUnicode(text).value;
    Utf8IsShort(text);
    if |p.bytes| == 1 {
      EscapeOne(p.bytes[0]);
    } else {
      EscapeHigh(p.bytes);
    }
  }

  lemma Utf8IsShort(text: seq<byte>)
    requires |text| >= 2 && ReadUnicode(text).Some?
    ensures var p := ReadUnicode(text).value;
      p.length >= 6 && 1 <= |p.bytes| <= 4 && (|p.bytes| > 1 ==> forall i | 0 <= i < |p.bytes| :: p.bytes[i] >= 0x80)
  {
    hide ReadHex4;
  }

  // Bytes from 0x80 on stand for themselves.
  lemma {:induction false} EscapeHigh(s: seq<byte>)
    requires forall i | 0 <= i < |s| :: s[i] >= 0x80
    ensures |Escape(s)| == |s|
  {
    hide Escape, EscapeByte;
    if s == [] {
      EscapeEmpty();
    } else {
      EscapeHigh(s[1..]);
      EscapeCons(s[0], s[1..]);
      EscapeOne(s[0]);
      assert [s[0]] + s[1..] == s;
    }
  }

  lemma {:induction false} CharsAreNoShorter(text: seq<byte>)
    requires ReadChars(text).Some?
    ensures var s := ReadChars(text).value; |Escape(s.value)| + 1 + |s.rest| <= |text|
    decreases |text|
  {
    hide ReadPiece, Escape;
    if text[0] == QUOTE {
      EscapeEmpty();
    } else {
      var p := ReadPiece(text).value;
      CharsAreNoShorter(text[p.length..]);
      PieceIsNoShorter(text);
      EscapeConcat(p.bytes, ReadChars(text[p.length..]).value.value);
    }
  }

  // No JSON string of the value is shorter than the one that is written.
  lemma QuotedIsShortest(s: seq<byte>, text: seq<byte>)
    requires ReadString(text) == Some(Scanned(s, []))
    ensures |Quoted(s)| <= |text|
  {
    hide Escape;
    CharsAreNoShorter(text[1..]);
  }
}
