/**
 The variable length numbers of section 7.6 of DWARF Version 3, as ExceptionDemo.cpp
 reads them: into 64-bit words, but shifting 32-bit ints, so that not every number that
 can be written is read back.
 */
module Leb128 {
  import opened Wrappers

  /** A number read, and the position after it. */
  datatype Decoded = Decoded(value: int, next: nat)

  /** A 64-bit word as the two's complement number it stands for, and back. */
  function Signed64(x: int): int { (x + 0x8000_0000_0000_0000) % 0x1_0000_0000_0000_0000 - 0x8000_0000_0000_0000 }

  /** What becomes of the low 32 bits of `x` when an int is converted to uintptr_t. */
  function FromInt(x: nat): nat {
    var y := x % 0x1_0000_0000;
    if y < 0x8000_0000 then y else y + 0xFFFF_FFFF_0000_0000
  }

  function Pow128(n: nat): (p: nat)
    ensures p > 0
  {
    if n == 0 then 1 else 128 * Pow128(n - 1)
  }

  // ------------------------------------------------------------ what is written

  function EncodeU(v: nat): (bs: seq<byte>)
    ensures bs != []
  {
    if v < 128 then [v] else [128 + v % 128] + EncodeU(v / 128)
  }

  function EncodeS(v: int): (bs: seq<byte>)
    ensures bs != []
    decreases if v < 0 then -v else v
  {
    if -64 <= v < 64 then [v % 128] else [128 + v % 128] + EncodeS(v / 128)
  }

  /** What JITCodeEmitter writes for a number. */
  method EmitULEB128Bytes(v: nat) returns (bs: seq<byte>)
    ensures bs == EncodeU(v)
  {
    bs := [];
    var value, more := v, true;
    while more
      invariant if more then bs + EncodeU(value) == EncodeU(v) else bs == EncodeU(v)
      decreases more, value
    {
      var b := value % 128;
      value := value / 128;
      more := value != 0;
      bs := bs + [if more then 128 + b else b];
    }
  }

  /** What both loops over signed numbers test: whether a group is not yet the last one. */
  lemma MoreGroups(value: int, sign: int)
    requires sign == if value < 0 then -1 else 0
    ensures (value / 128 != sign || (value % 128 >= 64) != (sign == -1)) <==> !(-64 <= value < 64)
    ensures value / 128 < 0 <==> value < 0
  {
  }

  lemma EncodeStep(value: int)
    ensures EncodeS(value) == if -64 <= value < 64 then [value % 128] else [128 + value % 128] + EncodeS(value / 128)
  {
  }

  /** Signed, until what is left is the sign and the sign bit of the last group agrees. */
  method EmitSLEB128Bytes(v: int) returns (bs: seq<byte>)
    ensures bs == EncodeS(v)
  {
    hide EncodeS;
    bs := [];
    var value, more := v, true;
    var sign := if v < 0 then -1 else 0;
    while more
      invariant if more then bs + EncodeS(value) == EncodeS(v) else bs == EncodeS(v)
      invariant value < 0 <==> v < 0
      decreases more, if value < 0 then -value else value
    {
      var b := value % 128;
      var rest := value / 128;
      more := rest != sign || (b >= 64) != (sign == -1);
      MoreGroups(value, sign);
      EncodeStep(value);
      bs := bs + [if more then 128 + b else b];
      value := rest;
    }
  }

  /** And what MCAsmInfo says that takes. */
  method GetSLEB128Size(v: int) returns (size: nat)
    ensures size == |EncodeS(v)|
  {
    hide EncodeS;
    size := 0;
    var value, more := v, true;
    var sign := if v < 0 then -1 else 0;
    while more
      invariant if more then size + |EncodeS(value)| == |EncodeS(v)| else size == |EncodeS(v)|
      invariant value < 0 <==> v < 0
      decreases more, if value < 0 then -value else value
    {
      var b := value % 128;
      var rest := value / 128;
      more := rest != sign || (b >= 64) != (sign == -1);
      MoreGroups(value, sign);
      EncodeStep(value);
      size := size + 1;
      value := rest;
    }
  }

  ghost predicate At(mem: seq<byte>, pos: nat, bs: seq<byte>) {
    pos + |bs| <= |mem| && mem[pos..pos + |bs|] == bs
  }

  // --------------------------------------------------------------- what is read

  /** Bytes up to and including the first without the continuation bit; 0 if it is not
      among the first `limit` bytes. */
  function Length(mem: seq<byte>, pos: nat, limit: nat): (n: nat)
    ensures n <= limit && (n > 0 ==> pos + n <= |mem|)
    decreases limit
  {
    if limit == 0 || pos >= |mem| then 0
    else if mem[pos] < 128 then 1
    else
      var n := Length(mem, pos + 1, limit - 1);
      if n == 0 then 0 else n + 1
  }

  lemma {:induction false} LengthBytes(mem: seq<byte>, pos: nat, limit: nat)
    ensures var n := Length(mem, pos, limit);
      n > 0 ==> mem[pos + n - 1] < 128 && forall k | pos <= k < pos + n - 1 :: mem[k] >= 128
    decreases limit
  {
    if limit > 0 && pos < |mem| && mem[pos] >= 128 {
      LengthBytes(mem, pos + 1, limit - 1);
    }
  }

  /** The number made of the low seven bits of `n` bytes, least significant first. */
  function Groups(mem: seq<byte>, pos: nat, n: nat): (v: nat)
    requires pos + n <= |mem|
    decreases n
  {
    if n == 0 then 0 else mem[pos] % 128 + 128 * Groups(mem, pos + 1, n - 1)
  }

  lemma {:induction false} GroupsBound(mem: seq<byte>, pos: nat, n: nat)
    requires pos + n <= |mem|
    ensures Groups(mem, pos, n) < Pow128(n)
    decreases n
  {
    if n > 0 {
      GroupsBound(mem, pos + 1, n - 1);
    }
  }

  /** An unsigned number is read from at most five bytes: a sixth would be shifted by
      more than the width of an int. */
  function ReadU(mem: seq<byte>, pos: nat): (r: Option<Decoded>)
    ensures r.Some? ==> pos < r.value.next <= |mem| && 0 <= r.value.value < 0x1_0000_0000_0000_0000
  {
    var n := Length(mem, pos, 5);
    if n == 0 then None else Some(Decoded(FromInt(Groups(mem, pos, n)), pos + n))
  }

  /** A signed one likewise; a negative number from at most four, for the same reason. */
  function ReadS(mem: seq<byte>, pos: nat): (r: Option<Decoded>)
    ensures r.Some? ==> pos < r.value.next <= |mem|
  {
    var n := Length(mem, pos, 5);
    if n == 0 then None
    else
      var x := Groups(mem, pos, n);
      if mem[pos + n - 1] % 128 < 64 then Some(Decoded(Signed64(FromInt(x)), pos + n))
      else if n < 5 then Some(Decoded(x - Pow128(n), pos + n))
      else None
  }

  // ----------------------------------------------------------------- the readers

  lemma {:induction false} GroupsLast(mem: seq<byte>, pos: nat, n: nat)
    requires pos + n < |mem|
    ensures Groups(mem, pos, n + 1) == Groups(mem, pos, n) + Pow128(n) * (mem[pos + n] % 128)
    decreases n
  {
    if n > 0 {
      GroupsLast(mem, pos + 1, n - 1);
      Scaled(Groups(mem, pos + 1, n - 1), Pow128(n - 1), mem[pos + n] % 128);
    }
  }

  lemma Scaled(x: nat, p: nat, g: nat)
    ensures 128 * (x + p * g) == 128 * x + (128 * p) * g
  {
  }

  /** The shift distances that occur. */
  lemma Powers()
    ensures Pow128(1) == 128 && Pow128(2) == 0x4000 && Pow128(3) == 0x20_0000 && Pow128(4) == 0x1000_0000
    ensures Pow128(5) == 0x8_0000_0000
  {
    assert Pow128(2) == 128 * Pow128(1);
    assert Pow128(3) == 128 * Pow128(2);
    assert Pow128(5) == 128 * Pow128(4);
  }

  /** Seven bits shifted left by 7 * n as an int, and converted to a word. */
  function Shifted(g: nat, n: nat): nat {
    FromInt(Pow128(n) * g)
  }

  lemma HighGroup(lo: nat, g: nat)
    requires lo < 0x1000_0000 && g < 128
    ensures FromInt(lo) + FromInt(0x1000_0000 * g) == FromInt(lo + 0x1000_0000 * g)
  {
    var q, r := g / 16, g % 16;
    assert 0x1000_0000 * g == 0x1_0000_0000 * q + 0x1000_0000 * r;
    Low32(q, 0x1000_0000 * r);
    Low32(q, lo + 0x1000_0000 * r);
  }

  lemma Low32(q: nat, y: nat)
    requires y < 0x1_0000_0000
    ensures (0x1_0000_0000 * q + y) % 0x1_0000_0000 == y
  {
  }

  lemma LowGroup(lo: nat, x: nat)
    requires lo + x < 0x8000_0000
    ensures FromInt(lo) + FromInt(x) == FromInt(lo + x)
  {
  }

  /** Adding a shifted group, converted like an int, to a smaller number. */
  lemma AddGroup(lo: nat, g: nat, n: nat)
    requires n < 5 && lo < Pow128(n) && g < 128
    ensures FromInt(lo) + FromInt(Pow128(n) * g) == FromInt(lo + Pow128(n) * g)
  {
    hide FromInt;
    Powers();
    if n == 4 {
      HighGroup(lo, g);
    } else if n == 3 {
      LowGroup(lo, 0x20_0000 * g);
    } else if n == 2 {
      LowGroup(lo, 0x4000 * g);
    } else if n == 1 {
      LowGroup(lo, 128 * g);
    } else {
      LowGroup(lo, g);
    }
  }

  /** One more byte read: `word` then holds the number made of `n + 1` groups. */
  lemma NextGroup(mem: seq<byte>, pos: nat, n: nat)
    requires pos + n < |mem| && n < 5
    ensures FromInt(Groups(mem, pos, n)) + Shifted(mem[pos + n] % 128, n) == FromInt(Groups(mem, pos, n + 1))
  {
    GroupsLast(mem, pos, n);
    GroupsBound(mem, pos, n);
    AddGroup(Groups(mem, pos, n), mem[pos + n] % 128, n);
  }

  /** The loop both readers share.  The shift distance is seven times `count`; the bits
      set in a step are above all bits set before, so that adding is setting them. */
  method ReadGroups(mem: seq<byte>, pos: nat) returns (word: nat, last: byte, count: nat)
    requires Length(mem, pos, 5) > 0
    ensures count == Length(mem, pos, 5) && last == mem[pos + count - 1]
    ensures word == FromInt(Groups(mem, pos, count))
  {
    ghost var n := Length(mem, pos, 5);
    LengthBytes(mem, pos, 5);
    word, count, last := 0, 0, 128;
    while last >= 128
      invariant count <= n && (last >= 128 <==> count < n) && (count > 0 ==> last == mem[pos + count - 1])
      invariant word == FromInt(Groups(mem, pos, count))
      decreases n - count
    {
      last := mem[pos + count];
      NextGroup(mem, pos, count);
      word := word + Shifted(last % 128, count);
      count := count + 1;
    }
  }

  method ReadULEB128(mem: seq<byte>, pos: nat) returns (result: nat, p: nat)
    requires ReadU(mem, pos).Some?
    ensures ReadU(mem, pos) == Some(Decoded(result, p))
  {
    var last, count;
    result, last, count := ReadGroups(mem, pos);
    p := pos + count;
  }

  lemma SmallGroups(mem: seq<byte>, pos: nat, n: nat)
    requires pos + n <= |mem| && n <= 4
    ensures FromInt(Groups(mem, pos, n)) == Groups(mem, pos, n)
    ensures Groups(mem, pos, n) < Pow128(n) <= 0x1000_0000
  {
    Powers();
    GroupsBound(mem, pos, n);
    assert n == 0 || n == 1 || n == 2 || n == 3 || n == 4;
  }

  lemma SignBits(x: nat, n: nat)
    requires n <= 4 && x < Pow128(n) <= 0x1000_0000
    ensures Signed64(x + (0x1_0000_0000_0000_0000 - Pow128(n))) == x - Pow128(n)
  {
  }

  method ReadSLEB128(mem: seq<byte>, pos: nat) returns (result: int, p: nat)
    requires ReadS(mem, pos).Some?
    ensures ReadS(mem, pos) == Some(Decoded(result, p))
  {
    var word, last, count := ReadGroups(mem, pos);
    p := pos + count;
    if last % 128 >= 64 {
      SmallGroups(mem, pos, count);
      SignBits(word, count);
      word := word + (0x1_0000_0000_0000_0000 - Pow128(count));
    }
    result := Signed64(word);
  }

  // ----------------------------------------------------------------- round trips

  lemma AtRest(mem: seq<byte>, pos: nat, b: byte, bs: seq<byte>)
    requires At(mem, pos, [b] + bs)
    ensures mem[pos] == b && At(mem, pos + 1, bs)
  {
    assert mem[pos] == mem[pos..pos + 1 + |bs|][0];
    assert mem[pos + 1..pos + 1 + |bs|] == mem[pos..pos + 1 + |bs|][1..];
  }

  lemma {:induction false} EncodedU(mem: seq<byte>, pos: nat, v: nat, limit: nat)
    requires At(mem, pos, EncodeU(v)) && |EncodeU(v)| <= limit
    ensures Length(mem, pos, limit) == |EncodeU(v)| && Groups(mem, pos, |EncodeU(v)|) == v
    decreases v
  {
    if v < 128 {
      assert mem[pos] == mem[pos..pos + 1][0];
    } else {
      AtRest(mem, pos, 128 + v % 128, EncodeU(v / 128));
      EncodedU(mem, pos + 1, v / 128, limit - 1);
    }
  }

  lemma {:induction false} LengthU(v: nat, n: nat)
    requires n > 0
    ensures |EncodeU(v)| <= n <==> v < Pow128(n)
    decreases n
  {
    if n > 1 && v >= 128 {
      LengthU(v / 128, n - 1);
    } else if n == 1 {
      assert Pow128(1) == 128 * Pow128(0);
    }
  }

  lemma {:induction false} TooLongU(mem: seq<byte>, pos: nat, v: nat, limit: nat)
    requires At(mem, pos, EncodeU(v)) && |EncodeU(v)| > limit
    ensures Length(mem, pos, limit) == 0
    decreases v
  {
    if v >= 128 {
      AtRest(mem, pos, 128 + v % 128, EncodeU(v / 128));
      if limit > 0 { TooLongU(mem, pos + 1, v / 128, limit - 1); }
    }
  }

  /** An unsigned number, written anywhere in a longer buffer, is read back, and exactly its
      bytes are consumed, if and only if it is below 2^31.  Up to 2^35 its bytes are consumed,
      and the low 32 bits are read as those of an int. */
  lemma RoundTripU(mem: seq<byte>, pos: nat, v: nat)
    requires At(mem, pos, EncodeU(v))
    ensures ReadU(mem, pos) == Some(Decoded(v, pos + |EncodeU(v)|)) <==> v < 0x8000_0000
    ensures if v < 0x8_0000_0000 then ReadU(mem, pos) == Some(Decoded(FromInt(v), pos + |EncodeU(v)|))
            else ReadU(mem, pos).None?
  {
    Powers();
    LengthU(v, 5);
    if |EncodeU(v)| <= 5 { EncodedU(mem, pos, v, 5); } else { TooLongU(mem, pos, v, 5); }
  }

  /** One more byte in front of a signed number. */
  lemma SignedNext(mem: seq<byte>, pos: nat, w: int, low: nat, n: nat)
    requires pos + 1 + n <= |mem| && low < 128 && mem[pos] == 128 + low
    requires Groups(mem, pos + 1, n) - (if w < 0 then Pow128(n) else 0) == w
    ensures Groups(mem, pos, n + 1) - (if w < 0 then Pow128(n + 1) else 0) == low + 128 * w
  {
    assert Pow128(n + 1) == 128 * Pow128(n);
  }

  lemma {:induction false} EncodedS(mem: seq<byte>, pos: nat, v: int, limit: nat)
    requires At(mem, pos, EncodeS(v)) && |EncodeS(v)| <= limit
    ensures var n := |EncodeS(v)|;
      && Length(mem, pos, limit) == n
      && (mem[pos + n - 1] % 128 >= 64 <==> v < 0)
      && Groups(mem, pos, n) - (if v < 0 then Pow128(n) else 0) == v
    decreases if v < 0 then -v else v
  {
    if -64 <= v < 64 {
      assert mem[pos] == mem[pos..pos + 1][0];
      assert Pow128(1) == 128 * Pow128(0);
    } else {
      var n := |EncodeS(v / 128)|;
      assert EncodeS(v) == [128 + v % 128] + EncodeS(v / 128);
      AtRest(mem, pos, 128 + v % 128, EncodeS(v / 128));
      EncodedS(mem, pos + 1, v / 128, limit - 1);
      SignedNext(mem, pos, v / 128, v % 128, n);
      hide EncodeS, At, Groups, Pow128;
      assert Length(mem, pos, limit) == n + 1;
      assert v == v % 128 + 128 * (v / 128);
    }
  }

  lemma {:induction false} LengthS(v: int, n: nat)
    requires n > 0
    ensures |EncodeS(v)| <= n <==> -64 * Pow128(n - 1) <= v < 64 * Pow128(n - 1)
    decreases n
  {
    if n > 1 && !(-64 <= v < 64) {
      LengthS(v / 128, n - 1);
    }
  }

  lemma SignedWord(x: nat)
    ensures x < 0x8000_0000 ==> Signed64(FromInt(x)) == x
    ensures 0x8000_0000 <= x < 0x4_0000_0000 ==> Signed64(FromInt(x)) != x
  {
  }

  lemma {:induction false} TooLongS(mem: seq<byte>, pos: nat, v: int, limit: nat)
    requires At(mem, pos, EncodeS(v)) && |EncodeS(v)| > limit
    ensures Length(mem, pos, limit) == 0
    decreases if v < 0 then -v else v
  {
    if !(-64 <= v < 64) {
      AtRest(mem, pos, 128 + v % 128, EncodeS(v / 128));
      if limit > 0 { TooLongS(mem, pos + 1, v / 128, limit - 1); }
    }
  }

  /** A signed number is read back if and only if it lies between -2^27 and 2^31: positive
      ones gain from the fifth byte, negative ones do not. */
  lemma RoundTripS(mem: seq<byte>, pos: nat, v: int)
    requires At(mem, pos, EncodeS(v))
    ensures ReadS(mem, pos) == Some(Decoded(v, pos + |EncodeS(v)|)) <==> -0x800_0000 <= v < 0x8000_0000
  {
    hide EncodeS, Groups, Signed64;
    Powers();
    LengthS(v, 5);
    LengthS(v, 4);
    if |EncodeS(v)| <= 5 {
      EncodedS(mem, pos, v, 5);
      if v >= 0 { SignedWord(v); }
    } else {
      TooLongS(mem, pos, v, 5);
    }
  }

  // --------------------------------------------------------------- bits

  /** An int as uintptr_t, bit by bit: the sign is copied up. */
  function Widened(x: bv32): bv64 {
    (x as bv64) | (if x & 0x8000_0000 != 0 then 0xFFFF_FFFF_0000_0000 else 0)
  }

  /** FromInt in the arithmetic of 64-bit words. */
  function FromIntWord(x: bv64): bv64 {
    var y := x & 0xFFFF_FFFF;
    if y < 0x8000_0000 then y else y + 0xFFFF_FFFF_0000_0000
  }

  /** `x << 7 * n` on ints, and the power of two it multiplies by. */
  function ShiftedInt(x: bv32, n: nat): bv32
    requires n < 5
  {
    if n == 0 then x else if n == 1 then x << 7 else if n == 2 then x << 14 else if n == 3 then x << 21 else x << 28
  }

  function PowWord(n: nat): bv64
    requires n < 5
  {
    if n == 0 then 1 else if n == 1 then 0x80 else if n == 2 then 0x4000 else if n == 3 then 0x20_0000 else 0x1000_0000
  }

  function Times(p: bv64, g: bv32): bv64 {
    p * (g as bv64)
  }

  /** Setting bits adds them, and does not overflow. */
  predicate Sums(lo: bv64, hi: bv64) {
    lo | hi == lo + hi && lo <= lo + hi
  }

  lemma Group0(lo: bv64, g: bv32)
    requires lo < 1 && g < 128
    ensures Sums(lo, Widened(g)) && Widened(g) == FromIntWord(Times(1, g))
  {
  }

  lemma Group1(lo: bv64, g: bv32)
    requires lo < 0x80 && g < 128
    ensures Sums(lo, Widened(g << 7)) && Widened(g << 7) == FromIntWord(Times(0x80, g))
  {
  }

  lemma Group2(lo: bv64, g: bv32)
    requires lo < 0x4000 && g < 128
    ensures Sums(lo, Widened(g << 14)) && Widened(g << 14) == FromIntWord(Times(0x4000, g))
  {
  }

  lemma Group3(lo: bv64, g: bv32)
    requires lo < 0x20_0000 && g < 128
    ensures Sums(lo, Widened(g << 21)) && Widened(g << 21) == FromIntWord(Times(0x20_0000, g))
  {
  }

  lemma Group4(lo: bv64, g: bv32)
    requires lo < 0x1000_0000 && g < 128
    ensures Sums(lo, Widened(g << 28)) && Widened(g << 28) == FromIntWord(Times(0x1000_0000, g))
  {
  }

  /** The readers' `result |= (byte & 0x7f) << shift`: whatever bits of the fifth group fall
      out of the int or are copied up as its sign, no bit of it is set already, so that setting
      its bits adds it; and as a number it is `Shifted`. */
  lemma OrIsSum(lo: bv64, g: bv32, n: nat)
    requires n < 5 && g < 128 && lo < PowWord(n)
    ensures Sums(lo, Widened(ShiftedInt(g, n)))
    ensures Widened(ShiftedInt(g, n)) == FromIntWord(Times(PowWord(n), g))
  {
    hide Widened, FromIntWord, Sums, Times;
    if n == 0 { Group0(lo, g); }
    else if n == 1 { Group1(lo, g); }
    else if n == 2 { Group2(lo, g); }
    else if n == 3 { Group3(lo, g); }
    else { Group4(lo, g); }
  }

  /** And their `result |= ~0 << shift`, which copies the sign up. */
  lemma SignIsSum(lo: bv64, n: nat)
    requires 0 < n < 5 && lo < PowWord(n)
    ensures Sums(lo, Widened(ShiftedInt(0xFFFF_FFFF, n)))
    ensures Widened(ShiftedInt(0xFFFF_FFFF, n)) == 0 - PowWord(n)
  {
  }
}
