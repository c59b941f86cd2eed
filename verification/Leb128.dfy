// Variable-length integers of section 7.6 of DWARF 5: the standard encoders, and the
// cursor's readers as their inverses.

module Leb128 {
  import opened Arithmetic
  import opened Common
  import opened Slices
  import opened Cursors

  function EncodeUleb(n: nat): (s: seq<byte>)
    ensures |s| > 0
  {
    if n < 128 then [n] else [128 + n % 128] + EncodeUleb(n / 128)
  }

  // The last byte of a signed number is the first whose sign bit is that of what is left.
  predicate FinalSleb(v: int) {
    -64 <= v < 64
  }

  function EncodeSleb(v: int): (s: seq<byte>)
    ensures |s| > 0
    decreases if v < 0 then -v else v
  {
    if FinalSleb(v) then [v % 128] else [128 + v % 128] + EncodeSleb(v / 128)
  }

  // Multiplying by a power of two keeps a number that is not zero out of the bits below.
  lemma FitsBelow(n: nat, shift: nat, bits: nat)
    requires n > 0 && n * Pow2(shift) < Pow2(bits)
    ensures shift < bits
  {
    if shift >= bits {
      Pow2Monotone(bits, shift);
      MulMonotone(1, n, Pow2(shift));
      assert false;
    }
  }

  lemma Pow2At64()
    ensures Pow2(64) == TWO64
  {
    Pow2At63();
  }

  // Splitting off the lowest seven bits.
  lemma SplitSeven(v: int, m: nat)
    ensures v * m == (v % 128) * m + (v / 128) * (128 * m)
  {
    assert v == v % 128 + (v / 128) * 128;
    assert v * m == (v % 128) * m + ((v / 128) * 128) * m;
    assert ((v / 128) * 128) * m == (v / 128) * (128 * m);
  }

  lemma UlebStep(word: uint64, shift: nat, n: nat)
    requires shift < 64 && word < Pow2(shift) && word + n * Pow2(shift) < TWO64
    ensures n < 128 ==> Accumulated(word, n, shift) == word + n * Pow2(shift)
    ensures n >= 128 ==>
      && shift + 7 < 64
      && Accumulated(word, n % 128, shift) + (n / 128) * Pow2(shift + 7) == word + n * Pow2(shift)
  {
    hide Pow2, Accumulated;
    if n < 128 {
      AccumulatedFits(word, n, shift);
    } else {
      var m := Pow2(shift);
      SplitSeven(n, m);
      Pow2Plus7(shift);
      MulMonotone(0, n / 128, 128 * m);
      MulMonotone(0, n % 128, m);
      AccumulatedFits(word, n % 128, shift);
      Pow2At64();
      FitsBelow(n / 128, shift + 7, 64);
    }
  }

  lemma AccumulatedFits(word: uint64, payload: nat, shift: nat)
    requires shift < 64 && word < Pow2(shift) && payload < 128 && word + payload * Pow2(shift) < TWO64
    ensures Accumulated(word, payload, shift) == word + payload * Pow2(shift)
  {
    hide Pow2;
  }

  // One turn of the reader's loop.
  lemma UlebTurn(bytes: Bytes, pos: nat, word: uint64, shift: nat)
    requires pos < |bytes| && shift <= 63 && Partial(word, shift)
    ensures var b, word1 := bytes[pos], Accumulated(word, bytes[pos] % 128, shift);
      UlebFrom(bytes, Cur(pos, false), word, shift)
      == if b < 128 then (word1, Cur(pos + 1, false)) else UlebFrom(bytes, Cur(pos + 1, false), word1, shift + 7)
  {
    hide Accumulated, Pow2;
  }

  lemma {:induction false} UlebFromInverts(bytes: Bytes, pos: nat, word: uint64, shift: nat, n: nat)
    requires At(bytes, pos, EncodeUleb(n))
    requires shift < 64 && word < Pow2(shift) && word + n * Pow2(shift) < TWO64
    ensures UlebFrom(bytes, Cur(pos, false), word, shift)
         == (word + n * Pow2(shift), Cur(pos + |EncodeUleb(n)|, false))
    decreases n
  {
    hide Accumulated, Pow2, UlebFrom;
    AtFirst(bytes, pos, EncodeUleb(n));
    UlebTurn(bytes, pos, word, shift);
    UlebStep(word, shift, n);
    if n >= 128 {
      AtConcat(bytes, pos, [128 + n % 128], EncodeUleb(n / 128));
      UlebFromInverts(bytes, pos + 1, Accumulated(word, n % 128, shift), shift + 7, n / 128);
    }
  }

  // Reading an unsigned number back gives that number and stops at its end.
  lemma UlebInverts(bytes: Bytes, pos: nat, n: uint64)
    requires At(bytes, pos, EncodeUleb(n))
    ensures Uleb(bytes, Cur(pos, false)) == (n, Cur(pos + |EncodeUleb(n)|, false))
  {
    UlebFromInverts(bytes, pos, 0, 0, n);
  }

  // The word so far and the signed number still to come stay inside 64 bits.
  predicate SignedRoom(word: uint64, shift: nat, v: int) {
    && shift < 64 && shift % 7 == 0 && word < Pow2(shift)
    && -TWO63 <= v * Pow2(shift) && word + v * Pow2(shift) < TWO63
  }

  // The last byte: its sign bit fills the rest of the word, which at shift 63 is only the
  // top bit itself.
  lemma FinalByte(word: uint64, shift: nat, v: int)
    requires FinalSleb(v) && SignedRoom(word, shift, v)
    ensures Signed64(SignExtended(Accumulated(word, v % 128, shift), v % 128, shift + 7)) == word + v * Pow2(shift)
  {
    hide Signed64, SignExtended, Accumulated, Pow2, FinalSleb, SignedRoom;
    if shift == 63 {
      FinalByteTop(word, v);
    } else {
      RoomInside(word, shift, v);
      FinalByteInside(word, shift, v);
    }
  }

  lemma RoomInside(word: uint64, shift: nat, v: int)
    requires SignedRoom(word, shift, v) && shift != 63
    ensures shift < 57 && word < Pow2(shift) && -TWO63 <= v * Pow2(shift)
  {
    hide Pow2;
  }

  lemma FinalByteTop(word: uint64, v: int)
    requires FinalSleb(v) && SignedRoom(word, 63, v)
    ensures Signed64(SignExtended(Accumulated(word, v % 128, 63), v % 128, 70)) == word + v * Pow2(63)
  {
    Pow2At63();
    hide Pow2;
    assert v == 0 || v == -1;
    if v == -1 {
      assert v % 128 == 127;
      assert Accumulated(word, 127, 63) == (word + 127 * TWO63) % TWO64 == word + TWO63;
    }
  }

  lemma FinalByteInside(word: uint64, shift: nat, v: int)
    requires FinalSleb(v) && shift < 57 && word < Pow2(shift) && -TWO63 <= v * Pow2(shift)
    ensures Signed64(SignExtended(Accumulated(word, v % 128, shift), v % 128, shift + 7)) == word + v * Pow2(shift)
  {
    hide Pow2, Accumulated, Signed64, SignExtended, FinalSleb;
    var m, b := Pow2(shift), v % 128;
    Pow2Plus7(shift);
    AccumulatedInside(word, b, shift);
    PayloadOf(v, m);
    FinalWord(word, m, b * m, v * m, shift + 7, b);
  }

  lemma PayloadOf(v: int, m: nat)
    requires FinalSleb(v)
    ensures v >= 0 ==> v % 128 == v < 64 && (v % 128) * m == v * m
    ensures v < 0 ==> 64 <= v % 128 == v + 128 && (v % 128) * m == v * m + 128 * m && v * m <= -1 * m
  {
    if v < 0 {
      assert v % 128 == v + 128;
      Distribute(v, 128, m);
      MulMonotone(v, -1, m);
    } else {
      assert v % 128 == v;
    }
  }

  // Setting the bits above a payload with its sign bit set gives its two's complement.
  lemma FinalWord(word: uint64, m: nat, payload: nat, t: int, shift: nat, b: byte)
    requires word < m && shift < 64 && b < 128 && Pow2(shift) == 128 * m <= TWO63 && word + payload < 128 * m
    requires if b < 64 then payload == t else payload == t + 128 * m && t <= -1 * m && -TWO63 <= t
    ensures Signed64(SignExtended(word + payload, b, shift)) == word + t
  {
    hide Pow2;
  }

  lemma AccumulatedInside(word: uint64, payload: nat, shift: nat)
    requires payload < 128 && shift < 57 && word < Pow2(shift)
    ensures Accumulated(word, payload, shift) == word + payload * Pow2(shift) < Pow2(shift + 7) <= TWO63
  {
    OrShiftedBelow(word, payload, shift);
    hide Pow2;
  }

  lemma MoreBytes(word: uint64, shift: nat, v: int)
    requires !FinalSleb(v) && SignedRoom(word, shift, v)
    ensures shift < 63
    ensures Accumulated(word, v % 128, shift) + (v / 128) * Pow2(shift + 7) == word + v * Pow2(shift)
    ensures SignedRoom(Accumulated(word, v % 128, shift), shift + 7, v / 128)
  {
    var m := Pow2(shift);
    SplitSeven(v, m);
    Pow2Plus7(shift);
    RoomBelow63(word, shift, v);
    Pow2Sum(shift + 7, 56 - shift);
    Pow2At63();
    hide Pow2;
    MulMonotone(0, v % 128, m);
    MulMonotone(v % 128, 127, m);
    NotBelow(v, m, Pow2(56 - shift));
  }

  lemma RoomBelow63(word: uint64, shift: nat, v: int)
    requires !FinalSleb(v) && SignedRoom(word, shift, v)
    ensures shift < 63
  {
    Pow2At63();
    hide Pow2;
  }

  lemma {:induction false} Pow2Sum(a: nat, b: nat)
    ensures Pow2(a + b) == Pow2(a) * Pow2(b)
  {
    if a > 0 { Pow2Sum(a - 1, b); }
  }

  // Taking the low seven bits away rounds down, but not past the lower limit, which is a
  // multiple of 128 * m.
  lemma NotBelow(v: int, m: nat, q: nat)
    requires 0 < m && (128 * m) * q == TWO63 && -TWO63 <= v * m
    ensures -TWO63 <= (v / 128) * (128 * m)
  {
    assert (-128 * q - 1) * m == -TWO63 - m;
    if v < -128 * q {
      MulMonotone(v, -128 * q - 1, m);
      assert false;
    }
    MulMonotone(0 - q, v / 128, 128 * m);
    assert (0 - q) * (128 * m) == -TWO63;
  }

  // One turn of the reader's loop.
  lemma SlebTurn(bytes: Bytes, pos: nat, word: uint64, shift: nat)
    requires pos < |bytes| && shift <= 63 && Partial(word, shift)
    ensures var b, word1 := bytes[pos], Accumulated(word, bytes[pos] % 128, shift);
      SlebFrom(bytes, Cur(pos, false), word, shift)
      == if b < 128 then (Signed64(SignExtended(word1, b, shift + 7)), Cur(pos + 1, false))
         else SlebFrom(bytes, Cur(pos + 1, false), word1, shift + 7)
  {
    hide Accumulated, SignExtended, Signed64, Pow2;
  }

  // The first byte of a signed number, and what follows it.
  lemma SlebParts(bytes: Bytes, pos: nat, v: int)
    requires At(bytes, pos, EncodeSleb(v))
    ensures pos < |bytes|
    ensures FinalSleb(v) ==> bytes[pos] == v % 128 && |EncodeSleb(v)| == 1
    ensures !FinalSleb(v) ==>
      && bytes[pos] == 128 + v % 128 && At(bytes, pos + 1, EncodeSleb(v / 128))
      && |EncodeSleb(v)| == 1 + |EncodeSleb(v / 128)|
  {
    AtFirst(bytes, pos, EncodeSleb(v));
    if !FinalSleb(v) {
      AtConcat(bytes, pos, [128 + v % 128], EncodeSleb(v / 128));
    }
  }

  lemma RoomIsPartial(word: uint64, shift: nat, v: int)
    requires SignedRoom(word, shift, v)
    ensures shift <= 63 && Partial(word, shift)
  {
    hide Pow2;
  }

  lemma QuotientShrinks(v: int)
    requires !FinalSleb(v)
    ensures -v < v / 128 < v || v < v / 128 < -v
  {
  }

  lemma {:induction false} SlebFromInverts(bytes: Bytes, pos: nat, word: uint64, shift: nat, v: int)
    requires At(bytes, pos, EncodeSleb(v)) && SignedRoom(word, shift, v)
    ensures shift <= 63 && Partial(word, shift)
    ensures SlebFrom(bytes, Cur(pos, false), word, shift)
         == (word + v * Pow2(shift), Cur(pos + |EncodeSleb(v)|, false))
    decreases if v < 0 then -v else v
  {
    hide Pow2, SlebFrom, SignExtended, Accumulated, Signed64, SignedRoom, EncodeSleb, FinalSleb, At, Partial;
    RoomIsPartial(word, shift, v);
    SlebParts(bytes, pos, v);
    SlebTurn(bytes, pos, word, shift);
    if FinalSleb(v) {
      FinalByte(word, shift, v);
    } else {
      MoreBytes(word, shift, v);
      QuotientShrinks(v);
      SlebFromInverts(bytes, pos + 1, Accumulated(word, v % 128, shift), shift + 7, v / 128);
    }
  }

  lemma SlebInverts(bytes: Bytes, pos: nat, v: int)
    requires -TWO63 <= v < TWO63 && At(bytes, pos, EncodeSleb(v))
    ensures Sleb(bytes, Cur(pos, false)) == (v, Cur(pos + |EncodeSleb(v)|, false))
  {
    SlebFromInverts(bytes, pos, 0, 0, v);
  }

  // On any bytes the readers stop after at most eleven of them.
  lemma {:induction false} UlebStops(bytes: Bytes, c: Cur, word: uint64, shift: nat)
    requires Partial(word, shift) && shift % 7 == 0
    ensures 7 * (UlebFrom(bytes, c, word, shift).1.pos - c.pos) <= 77 - shift
    decreases 77 - shift
  {
    hide Accumulated;
    var (b, c1) := ReadU8(bytes, c);
    if !(b < 128 || c1.error || shift + 7 > 70) {
      UlebStops(bytes, c1, Accumulated(word, b % 128, shift), shift + 7);
    }
  }

  lemma {:induction false} SlebStops(bytes: Bytes, c: Cur, word: uint64, shift: nat)
    requires Partial(word, shift) && shift % 7 == 0
    ensures 7 * (SlebFrom(bytes, c, word, shift).1.pos - c.pos) <= 77 - shift
    decreases 77 - shift
  {
    hide Accumulated, SignExtended, Signed64;
    var (b, c1) := ReadU8(bytes, c);
    if !(b < 128 || c1.error || shift + 7 > 70) {
      SlebStops(bytes, c1, Accumulated(word, b % 128, shift), shift + 7);
    }
  }

  lemma AtMostElevenReads(bytes: Bytes, c: Cur)
    ensures Uleb(bytes, c).1.pos <= c.pos + 11 && Sleb(bytes, c).1.pos <= c.pos + 11
  {
    UlebStops(bytes, c, 0, 0);
    SlebStops(bytes, c, 0, 0);
  }
}
