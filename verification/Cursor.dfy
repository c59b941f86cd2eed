// The bounds-checked cursor over a DWARF section: what each read returns and where it
// leaves the cursor, as functions, and the object that performs the reads.

module Cursors {
  import opened Arithmetic
  import opened Common

  // A vector never fills the whole address space.
  type Bytes = s: seq<byte> | |s| < 0xFFFF_FFFF_FFFF_FFFF

  const TWO63: int := 0x8000_0000_0000_0000

  // Position and sticky error flag.
  datatype Cur = Cur(pos: uint64, error: bool)

  function Pow2(n: nat): (p: nat)
    ensures p > 0
  {
    if n == 0 then 1 else 2 * Pow2(n - 1)
  }

  function ReadU8(bytes: Bytes, c: Cur): (r: (byte, Cur))
    ensures c.pos <= r.1.pos <= c.pos + 1
    ensures c.error ==> r.1.error
    ensures !r.1.error ==> r.1.pos == c.pos + 1 <= |bytes|
  {
    if c.pos < |bytes| then (bytes[c.pos], Cur(c.pos + 1, c.error)) else (0, Cur(c.pos, true))
  }

  // `count` bytes, least significant first.
  function ReadLittle(bytes: Bytes, c: Cur, count: nat): (r: (nat, Cur))
    ensures r.0 < Pow256(count)
    ensures c.pos <= r.1.pos <= c.pos + count
    ensures c.error ==> r.1.error
    ensures !r.1.error ==> r.1.pos == c.pos + count
    decreases count
  {
    if count == 0 then (0, c)
    else
      var (low, c1) := ReadU8(bytes, c);
      var (high, c2) := ReadLittle(bytes, c1, count - 1);
      (low + 256 * high, c2)
  }

  // `count` bytes, most significant first, after those accumulated in `high`.
  function ReadBig(bytes: Bytes, c: Cur, count: nat): (r: (nat, Cur))
    ensures r.0 < Pow256(count)
    ensures c.pos <= r.1.pos <= c.pos + count
    ensures c.error ==> r.1.error
    ensures !r.1.error ==> r.1.pos == c.pos + count
    decreases count
  {
    if count == 0 then (0, c)
    else
      var (high, c1) := ReadBig(bytes, c, count - 1);
      var (low, c2) := ReadU8(bytes, c1);
      (256 * high + low, c2)
  }

  function ReadUint(bytes: Bytes, c: Cur, count: nat, bigEndian: bool): (r: (nat, Cur))
    ensures r.0 < Pow256(count)
    ensures c.pos <= r.1.pos <= c.pos + count
    ensures c.error ==> r.1.error
    ensures !r.1.error ==> r.1.pos == c.pos + count
  {
    if bigEndian then ReadBig(bytes, c, count) else ReadLittle(bytes, c, count)
  }

  lemma Pow2Plus7(n: nat)
    ensures Pow2(n + 7) == 128 * Pow2(n)
  {
    assert Pow2(n + 7) == 2 * Pow2(n + 6) == 4 * Pow2(n + 5) == 8 * Pow2(n + 4) == 16 * Pow2(n + 3);
    assert Pow2(n + 3) == 2 * Pow2(n + 2) == 4 * Pow2(n + 1) == 8 * Pow2(n);
  }

  lemma {:induction false} Pow2Monotone(m: nat, n: nat)
    requires m <= n
    ensures Pow2(m) <= Pow2(n)
    decreases n - m
  {
    if m < n { Pow2Monotone(m, n - 1); }
  }

  lemma Pow2At63()
    ensures Pow2(63) == TWO63
  {
    assert Pow2(0) == 1;
    hide Pow2;
    Pow2Plus7(0);
    Pow2Plus7(7);
    Pow2Plus7(14);
    assert Pow2(21) == 0x20_0000;
    Pow2Plus7(21);
    Pow2Plus7(28);
    Pow2Plus7(35);
    assert Pow2(42) == 0x400_0000_0000;
    Pow2Plus7(42);
    Pow2Plus7(49);
    Pow2Plus7(56);
  }

  // Seven payload bits placed at `shift` in a 64-bit word that holds only bits below
  // `shift`.  With no bit in common, the bitwise or is a sum; bits past the word are lost.
  function OrShifted(word: uint64, payload: nat, shift: nat): (r: uint64)
    requires payload < 128 && word < Pow2(shift) && shift < 64
    ensures shift + 7 < 64 ==> r == word + payload * Pow2(shift) && r < Pow2(shift + 7)
  {
    OrShiftedBelow(word, payload, shift);
    (word + payload * Pow2(shift)) % TWO64
  }

  lemma OrShiftedBelow(word: uint64, payload: nat, shift: nat)
    requires payload < 128 && word < Pow2(shift) && shift < 64
    ensures shift + 7 < 64 ==> word + payload * Pow2(shift) < Pow2(shift + 7) <= TWO63
  {
    Pow2Plus7(shift);
    MulMonotone(payload, 127, Pow2(shift));
    if shift + 7 < 64 {
      Pow2Monotone(shift + 7, 63);
      Pow2At63();
    }
  }

  // The loop word holds only the bits placed so far.
  predicate Partial(word: uint64, shift: nat) {
    shift <= 70 && (shift < 64 ==> word < Pow2(shift))
  }

  function Accumulated(word: uint64, payload: nat, shift: nat): (r: uint64)
    requires payload < 128 && Partial(word, shift)
    ensures Partial(r, if shift < 64 then shift + 7 else 70)
  {
    if shift < 64 then OrShifted(word, payload, shift) else word
  }

  // An unsigned LEB128 number, from the state of the loop.
  function UlebFrom(bytes: Bytes, c: Cur, word: uint64, shift: nat): (r: (uint64, Cur))
    requires Partial(word, shift)
    ensures c.pos <= r.1.pos && (c.error ==> r.1.error)
    ensures !r.1.error ==> c.pos < r.1.pos <= |bytes|
    decreases 77 - shift
  {
    var (b, c1) := ReadU8(bytes, c);
    var word1 := Accumulated(word, b % 128, shift);
    if b < 128 || c1.error || shift + 7 > 70 then (word1, c1) else UlebFrom(bytes, c1, word1, shift + 7)
  }

  function Uleb(bytes: Bytes, c: Cur): (r: (uint64, Cur))
    ensures c.pos <= r.1.pos && (c.error ==> r.1.error)
    ensures !r.1.error ==> c.pos < r.1.pos <= |bytes|
  {
    UlebFrom(bytes, c, 0, 0)
  }

  // The two's complement reading of a 64-bit word.
  function Signed64(word: uint64): (v: int)
    ensures -TWO63 <= v < TWO63
  {
    if word < TWO63 then word else word - TWO64
  }

  // The word a signed LEB128 number ends with: the sign bit of its last byte is copied
  // into all higher bits, unless the word is full.
  function SignExtended(word: uint64, last: byte, shift: nat): (r: uint64)
    requires shift < 64 ==> word < Pow2(shift)
  {
    if shift < 64 && last % 128 >= 64 then
      Pow2Monotone(shift, 63);
      Pow2At63();
      word + (TWO64 - Pow2(shift))
    else word
  }

  function SlebFrom(bytes: Bytes, c: Cur, word: uint64, shift: nat): (r: (int, Cur))
    requires Partial(word, shift)
    ensures -TWO63 <= r.0 < TWO63
    ensures c.pos <= r.1.pos && (c.error ==> r.1.error)
    ensures !r.1.error ==> c.pos < r.1.pos <= |bytes|
    decreases 77 - shift
  {
    var (b, c1) := ReadU8(bytes, c);
    var word1 := Accumulated(word, b % 128, shift);
    if c1.error || shift + 7 > 70 || b < 128 then (Signed64(SignExtended(word1, b, shift + 7)), c1)
    else SlebFrom(bytes, c1, word1, shift + 7)
  }

  function Sleb(bytes: Bytes, c: Cur): (r: (int, Cur))
    ensures -TWO63 <= r.0 < TWO63
    ensures c.pos <= r.1.pos && (c.error ==> r.1.error)
    ensures !r.1.error ==> c.pos < r.1.pos <= |bytes|
  {
    SlebFrom(bytes, c, 0, 0)
  }

  // The cursor object.
  class Cursor {
    const bytes: Bytes
    const bigEndian: bool
    var pos: uint64
    var failed: bool

    constructor (bytes: Bytes, bigEndian: bool)
      ensures this.bytes == bytes && this.bigEndian == bigEndian && At() == Cur(0, false)
    {
      this.bytes, this.bigEndian := bytes, bigEndian;
      pos, failed := 0, false;
    }

    function At(): Cur
      reads this
    {
      Cur(pos, failed)
    }

    // Away from the last address, so that pos + 1 in the bounds check does not wrap.
    predicate Readable()
      reads this
    {
      pos < U64_MAX
    }

    method Seek(position: uint64)
      modifies this
      ensures At() == Cur(position, old(failed))
    {
      pos := position;
    }

    method U8() returns (b: byte)
      requires Readable()
      modifies this
      ensures Readable()
      ensures (b, At()) == ReadU8(bytes, old(At()))
    {
      if pos + 1 > |bytes| {
        failed := true;
        return 0;
      }
      b := bytes[pos];
      pos := pos + 1;
    }

    method U16() returns (value: uint16)
      requires Readable()
      modifies this
      ensures Readable()
      ensures (value, At()) == ReadUint(bytes, old(At()), 2, bigEndian)
    {
      var a: nat := U8();
      var b: nat := U8();
      value := if bigEndian then a * 256 + b else b * 256 + a;
    }

    method Word(count: nat) returns (value: nat)
      requires Readable()
      modifies this
      ensures Readable()
      ensures (value, At()) == ReadUint(bytes, old(At()), count, bigEndian)
    {
      value := 0;
      ghost var start := At();
      if bigEndian {
        for i := 0 to count
          invariant Readable() && (value, At()) == ReadBig(bytes, start, i)
        {
          var b := U8();
          value := value * 256 + b;
        }
      } else {
        var place: nat := 1;
        for i := 0 to count
          invariant place == Pow256(i)
          invariant Readable() && (value, At()) == ReadLittle(bytes, start, i)
        {
          LittleStep(bytes, start, i);
          var b := U8();
          value := value + b * place;
          place := place * 256;
        }
      }
    }

    method ReadUleb() returns (result: uint64)
      requires Readable()
      modifies this
      ensures Readable()
      ensures (result, At()) == Uleb(bytes, old(At()))
    {
      result := 0;
      var shift: nat := 0;
      while true
        invariant Readable() && Partial(result, shift)
        invariant UlebFrom(bytes, At(), result, shift) == Uleb(bytes, old(At()))
        decreases 77 - shift
      {
        var b := U8();
        result := Accumulated(result, b % 128, shift);
        shift := shift + 7;
        if b < 128 || failed || shift > 70 { break; }
      }
    }

    method ReadSleb() returns (result: int)
      requires Readable()
      modifies this
      ensures Readable()
      ensures (result, At()) == Sleb(bytes, old(At()))
    {
      var word: uint64 := 0;
      var shift: nat := 0;
      var b: byte := 0;
      while true
        invariant Readable() && Partial(word, shift)
        invariant SlebFrom(bytes, At(), word, shift) == Sleb(bytes, old(At()))
        decreases 77 - shift
      {
        b := U8();
        word := Accumulated(word, b % 128, shift);
        shift := shift + 7;
        if failed || shift > 70 || b < 128 { break; }
      }
      result := Signed64(SignExtended(word, b, shift));
    }
  }

  lemma MulAssociates(b: nat, p: nat)
    ensures 256 * (b * p) == b * (256 * p)
  {
  }

  // Reading one more byte at the high end.
  lemma {:induction false} LittleStep(bytes: Bytes, c: Cur, n: nat)
    ensures var (low, c1) := ReadLittle(bytes, c, n);
      var (b, c2) := ReadU8(bytes, c1);
      ReadLittle(bytes, c, n + 1) == (low + b * Pow256(n), c2)
    decreases n
  {
    hide ReadU8;
    if n > 0 {
      var c0 := ReadU8(bytes, c).1;
      assert Pow256(n) == 256 * Pow256(n - 1);
      hide Pow256;
      LittleStep(bytes, c0, n - 1);
      var (rest, c1) := ReadLittle(bytes, c0, n - 1);
      MulAssociates(ReadU8(bytes, c1).0, Pow256(n - 1));
    }
  }
}
