// Bounds checks and number reads over an ELF image.

module ElfReader {
  import opened Arithmetic
  import opened Common
  import opened Slices

  datatype ErrorCode = MalformedInput | UnsupportedFormat

  datatype Result<+T> = Ok(value: T) | Err(error: ErrorCode) {
    predicate IsFailure() {
      Err?
    }

    function PropagateFailure<U>(): Result<U>
      requires Err?
    {
      Err(error)
    }

    function Extract(): T
      requires Ok?
    {
      value
    }
  }

  // An image never fills half of the address space.
  type Image = s: seq<byte> | |s| < 0x8000_0000_0000_0000

  // ---------- checked ranges ----------

  // The sum, unless it leaves 64 bits; the test itself stays inside them.
  function CheckedAdd(lhs: uint64, rhs: uint64): (sum: Option<uint64>)
    ensures sum == if lhs + rhs < TWO64 then Some(lhs + rhs) else None
  {
    if lhs > U64_MAX - rhs then None else Some(lhs + rhs)
  }

  predicate RangeWithin(offset: uint64, size: uint64, imageSize: uint64)
    ensures RangeWithin(offset, size, imageSize) <==> offset + size <= imageSize
  {
    var end := CheckedAdd(offset, size);
    end.Some? && end.value <= imageSize
  }

  // Unsigned 64-bit product.
  function Mul64(a: uint64, b: uint64): uint64 {
    (a * b) % TWO64
  }

  lemma ProductKept(a: uint64, b: uint64)
    ensures a * b < TWO64 ==> Mul64(a, b) == a * b
    ensures a * b >= TWO64 ==> Mul64(a, b) < a * b
  {
  }

  // Dividing the product back finds every overflow, and only overflows.
  lemma DivisionFindsOverflow(count: uint64, size: uint64)
    requires count > 0
    ensures Mul64(count, size) / count == size <==> count * size < TWO64
  {
    ProductKept(count, size);
    var kept := Mul64(count, size);
    hide Mul64;
    if count * size < TWO64 {
      DivModUnique(kept, size, 0, count);
    } else {
    }
  }

  // ---------- numbers ----------

  datatype Endianness = Little | Big

  function LittleEndian(s: seq<byte>): (n: nat)
    ensures n < Pow256(|s|)
  {
    if s == [] then 0 else s[0] + 256 * LittleEndian(s[1..])
  }

  function BigEndian(s: seq<byte>): (n: nat)
    ensures n < Pow256(|s|)
  {
    if s == [] then 0 else 256 * BigEndian(s[..|s| - 1]) + s[|s| - 1]
  }

  function Reversed(s: seq<byte>): (r: seq<byte>)
    ensures |r| == |s| && forall i | 0 <= i < |s| :: r[i] == s[|s| - 1 - i]
  {
    seq(|s|, i requires 0 <= i < |s| => s[|s| - 1 - i])
  }

  // The two byte orders mirror each other.
  lemma {:induction false} BigIsReversedLittle(s: seq<byte>)
    ensures BigEndian(s) == LittleEndian(Reversed(s))
    decreases |s|
  {
    if s != [] {
      BigIsReversedLittle(s[..|s| - 1]);
      assert Reversed(s)[1..] == Reversed(s[..|s| - 1]);
    }
  }

  datatype Reader = Reader(bytes: Image, endianness: Endianness) {

    function Number(offset: uint64, size: uint64): (r: Result<nat>)
      ensures r.Ok? <==> offset + size <= |bytes|
      ensures r.Ok? ==> r.value < Pow256(size)
      ensures r.Err? ==> r.error == MalformedInput
    {
      if !RangeWithin(offset, size, |bytes|) then Err(MalformedInput)
      else
        var s := bytes[offset..offset + size];
        Ok(if endianness.Little? then LittleEndian(s) else BigEndian(s))
    }

    function U8(offset: uint64): (r: Result<byte>)
      ensures r.Ok? <==> offset + 1 <= |bytes|
      ensures r.Ok? ==> r.value == bytes[offset]
    {
      if !RangeWithin(offset, 1, |bytes|) then Err(MalformedInput) else Ok(bytes[offset])
    }

    function U16(offset: uint64): (r: Result<uint16>)
      ensures r.Ok? <==> offset + 2 <= |bytes|
    {
      WordSizes();
      Number(offset, 2)
    }

    function U32(offset: uint64): (r: Result<uint32>)
      ensures r.Ok? <==> offset + 4 <= |bytes|
    {
      WordSizes();
      Number(offset, 4)
    }

    function U64(offset: uint64): (r: Result<uint64>)
      ensures r.Ok? <==> offset + 8 <= |bytes|
    {
      WordSizes();
      Number(offset, 8)
    }

    function I32(offset: uint64): (r: Result<int>)
      ensures r.Ok? <==> offset + 4 <= |bytes|
      ensures r.Ok? ==> -0x8000_0000 <= r.value < 0x8000_0000 && (r.value - U32(offset).value) % TWO32 == 0
    {
      var n :- U32(offset);
      Ok(if n < 0x8000_0000 then n else n - TWO32)
    }

    function I64(offset: uint64): (r: Result<int>)
      ensures r.Ok? <==> offset + 8 <= |bytes|
      ensures r.Ok? ==>
        -0x8000_0000_0000_0000 <= r.value < 0x8000_0000_0000_0000 && (r.value - U64(offset).value) % TWO64 == 0
    {
      var n :- U64(offset);
      Ok(if n < 0x8000_0000_0000_0000 then n else n - TWO64)
    }
  }

  // ---------- strings ----------

  // The first zero byte at or after p, or the end.
  function ZeroFrom(table: seq<byte>, p: nat): (q: nat)
    requires p <= |table|
    ensures p <= q <= |table|
    ensures q < |table| ==> table[q] == 0
    ensures forall i | p <= i < q :: table[i] != 0
    decreases |table| - p
  {
    if p == |table| || table[p] == 0 then p else ZeroFrom(table, p + 1)
  }

  // The name at an offset: none at offset zero, otherwise the bytes up to the next zero.
  function NameOf(table: seq<byte>, offset: uint32): Result<seq<byte>> {
    if offset == 0 then Ok([])
    else if offset >= |table| || ZeroFrom(table, offset) == |table| then Err(MalformedInput)
    else Ok(table[offset..ZeroFrom(table, offset)])
  }

  // Offset zero names nothing.  Elsewhere a name is refused only for want of a terminator,
  // and is the bytes before the first one.
  lemma NameEndsAtFirstZero(table: seq<byte>, offset: uint32)
    ensures offset == 0 ==> NameOf(table, offset) == Ok([])
    ensures offset > 0 ==>
      (NameOf(table, offset).Ok? <==> exists end :: offset <= end < |table| && table[end] == 0)
    ensures offset > 0 && NameOf(table, offset).Ok? ==>
      var name := NameOf(table, offset).value;
      0 !in name && At(table, offset, name + [0])
  {
    if offset < |table| {
      var end := ZeroFrom(table, offset);
      if end < |table| {
        assert table[offset..end + 1] == table[offset..end] + [0];
      }
    }
  }

  method StringFromTable(table: seq<byte>, offset: uint32) returns (r: Result<seq<byte>>)
    ensures r == NameOf(table, offset)
  {
    if offset == 0 {
      return Ok([]);
    }
    if offset >= |table| {
      return Err(MalformedInput);
    }
    var end: nat := offset;
    while end < |table| && table[end] != 0
      invariant offset <= end <= |table|
      invariant ZeroFrom(table, end) == ZeroFrom(table, offset)
    {
      end := end + 1;
    }
    if end == |table| {
      return Err(MalformedInput);
    }
    return Ok(table[offset..end]);
  }
}
