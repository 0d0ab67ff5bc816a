/** 24.8 fixed-point numbers and their conversions from and to every integer width. */
module FixedPoint {
  import opened Arithmetic
  import opened Base

  /** The primitive integer types that the conversion macros are expanded for. */
  datatype IntType = U8 | I8 | U16 | I16 | U32 | I32 | U64 | I64 | U128 | I128

  function Bits(t: IntType): nat
  {
    match t
    case U8 => 8 case I8 => 8
    case U16 => 16 case I16 => 16
    case U32 => 32 case I32 => 32
    case U64 => 64 case I64 => 64
    case U128 => 128 case I128 => 128
  }

  predicate IsSigned(t: IntType)
  {
    t in {I8, I16, I32, I64, I128}
  }

  /** How many values the type has. */
  function Size(t: IntType): (size: nat)
    ensures size > 0
  {
    match Bits(t)
    case 8 => 0x100
    case 16 => 0x1_0000
    case 32 => 0x1_0000_0000
    case 64 => 0x1_0000_0000_0000_0000
    case _ => 0x1_0000_0000_0000_0000_0000_0000_0000_0000
  }

  function Least(t: IntType): int
  {
    if IsSigned(t) then -(Size(t) / 2) else 0
  }

  function Greatest(t: IntType): int
  {
    Least(t) + Size(t) - 1
  }

  predicate Fits(t: IntType, v: int)
  {
    Least(t) <= v <= Greatest(t)
  }

  /** The value of the type with the same low bits. */
  function Wrap(t: IntType, v: int): (w: int)
    ensures Fits(t, w)
  {
    var low := v % Size(t);
    if low > Greatest(t) then low - Size(t) else low
  }

  /** The ranges of the primitive integer types. */
  lemma Ranges(v: int)
    ensures Fits(U8, v) <==> 0 <= v <= 255
    ensures Fits(I8, v) <==> -128 <= v <= 127
    ensures Fits(U16, v) <==> 0 <= v <= 65535
    ensures Fits(I16, v) <==> -32768 <= v <= 32767
    ensures Fits(U32, v) <==> 0 <= v <= 4294967295
    ensures Fits(I32, v) <==> -2147483648 <= v <= 2147483647
    ensures Fits(U64, v) <==> 0 <= v <= 18446744073709551615
    ensures Fits(I64, v) <==> -9223372036854775808 <= v <= 9223372036854775807
    ensures Fits(U128, v) <==> 0 <= v <= 340282366920938463463374607431768211455
    ensures Fits(I128, v) <==>
            -170141183460469231731687303715884105728 <= v <= 170141183460469231731687303715884105727
  {
  }

  /** The types with an infallible conversion, and those whose conversion can fail. */
  predicate Narrow(t: IntType)
  {
    t in {U8, I8, U16, I16}
  }

  /** `value << 8` in the type's own width: the shift amount is in range, bits shifted out are lost. */
  function ShiftLeft8(t: IntType, v: int): int
  {
    Wrap(t, v * 0x100)
  }

  /** `From`: the inner value of the fixed-point number for a narrow integer. */
  function FromNarrow(t: IntType, v: int): i32
    requires Narrow(t) && Fits(t, v)
  {
    ShiftLeft8(I32, v)
  }

  /** `TryFrom`: `checked_shl(8)` fails only for a shift amount of the type's width or more. */
  function TryFromWide(t: IntType, v: int): Option<i32>
    requires !Narrow(t) && Fits(t, v)
  {
    if 8 >= Bits(t) then None
    else
      var shifted := ShiftLeft8(t, v);
      if Fits(I32, shifted) then Some(shifted) else None
  }

  /** Back to an integer of any type: no fraction bits may be set, and the quotient must fit. */
  function ToInt(t: IntType, inner: i32): Option<int>
  {
    if inner % 0x100 == 0 then
      var quotient := inner / 0x100;
      if Fits(t, quotient) then Some(quotient) else None
    else None
  }

  // ---------- wrapping ----------

  lemma RemainderInRange(v: int, n: int)
    requires n > 0 && -n <= v < n
    ensures v % n == if v < 0 then v + n else v
  {
    assert v / n == if v < 0 then -1 else 0;
  }

  /** Wrapping keeps a value exactly when it fits. */
  lemma WrapFits(t: IntType, v: int)
    ensures Fits(t, v) <==> Wrap(t, v) == v
  {
    if Fits(t, v) {
      RemainderInRange(v, Size(t));
    }
  }

  // ---------- integers to fixed-point numbers ----------

  /** The integers that a 24.8 number can hold. */
  predicate Representable(v: int)
  {
    -0x80_0000 <= v < 0x80_0000
  }

  /** The conversion cannot fail exactly for the types all of whose integers can be held. */
  lemma NarrowExact(t: IntType)
    ensures Narrow(t) <==> forall v :: Fits(t, v) ==> Representable(v)
  {
    assert Fits(t, Greatest(t));
  }

  /** Every narrow integer is represented exactly. */
  lemma FromNarrowExact(t: IntType, v: int)
    requires Narrow(t) && Fits(t, v)
    ensures Representable(v) && FromNarrow(t, v) == 0x100 * v
    ensures ToInt(t, FromNarrow(t, v)) == Some(v)
  {
    WrapFits(I32, v * 0x100);
  }

  /** What a conversion that answers says is right. */
  predicate Faithful(t: IntType, v: int)
    requires !Narrow(t) && Fits(t, v)
  {
    TryFromWide(t, v) == Some(0x100 * v)
  }

  /** What the shift keeps: all but the upper eight bits of the value, read as a number of that many bits,
      signed if the type is. */
  function Kept(t: IntType, v: int): (k: int)
  {
    var size := Size(t) / 0x100;
    var low := v % size;
    if IsSigned(t) && low >= size / 2 then low - size else low
  }

  lemma SizeParts(t: IntType) returns (half: nat)
    requires !Narrow(t)
    ensures half > 0 && Size(t) == 0x200 * half
  {
    half := Size(t) / 0x200;
  }

  /** Shifting multiplies what it keeps. */
  lemma ShiftKeeps(t: IntType, v: int)
    requires !Narrow(t)
    ensures ShiftLeft8(t, v) == 0x100 * Kept(t, v)
  {
    var half := SizeParts(t);
    hide Size, Narrow, IsSigned;
    assert Size(t) / 0x100 == 2 * half && 2 * half / 2 == half;
    ScaledRemainder(v, 2 * half, 0x100);
  }

  /** The conversion succeeds exactly when what is left of the integer without its upper eight bits lies in
      [-2^23, 2^23); and what it returns is right exactly when the integer itself does. */
  lemma TryFromExact(t: IntType, v: int)
    requires !Narrow(t) && Fits(t, v)
    ensures TryFromWide(t, v).Some? <==> Representable(Kept(t, v))
    ensures Faithful(t, v) <==> Representable(v)
  {
    ShiftKeeps(t, v);
    WrapFits(t, 0x100 * v);
  }

  /** A 32-bit signed source never fails: whatever is shifted out is silently lost. */
  lemma I32NeverFails(v: int)
    requires Fits(I32, v)
    ensures TryFromWide(I32, v).Some?
  {
  }

  lemma KeepsNothing(t: IntType, q: int)
    requires !Narrow(t)
    ensures Kept(t, q * (Size(t) / 0x100)) == 0
  {
    var half := SizeParts(t);
    hide Size, Narrow, IsSigned;
    assert Size(t) / 0x100 == 2 * half;
    ProductRemainder(q, 2 * half, 0);
  }

  /** `checked_shl` does not check the value: for every source type there is an integer that converts
      without an error to the wrong number. */
  lemma TryFromUnfaithful(t: IntType) returns (v: int)
    requires !Narrow(t)
    ensures Fits(t, v) && TryFromWide(t, v).Some? && !Faithful(t, v)
  {
    v := if IsSigned(t) then -(Size(t) / 0x100) else Size(t) / 0x100;
    KeepsNothing(t, if IsSigned(t) then -1 else 1);
    ShiftKeeps(t, v);
    hide Kept, ShiftLeft8;
  }

  // ---------- round trips ----------

  /** Integer to fixed-point number and back is the identity on the representable integers. */
  lemma IntRoundTrip(t: IntType, v: int)
    requires !Narrow(t) && Fits(t, v) && Representable(v)
    ensures TryFromWide(t, v).Some? && ToInt(t, TryFromWide(t, v).value) == Some(v)
  {
    TryFromExact(t, v);
  }

  /** Converting to an integer succeeds exactly when the number is a whole one that the type can hold. */
  lemma ToIntExact(t: IntType, inner: i32)
    ensures ToInt(t, inner).Some? <==> exists v: int :: inner == 0x100 * v && Fits(t, v)
    ensures ToInt(t, inner).Some? ==> inner == 0x100 * ToInt(t, inner).value
  {
    if ToInt(t, inner).Some? {
      assert inner == 0x100 * (inner / 0x100);
    }
  }

  /** Fixed-point number to integer and back is the identity wherever the first step succeeds. */
  lemma FixedRoundTrip(t: IntType, inner: i32)
    requires ToInt(t, inner).Some?
    ensures var v := ToInt(t, inner).value;
            && Fits(t, v)
            && if Narrow(t) then FromNarrow(t, v) == inner else TryFromWide(t, v) == Some(inner)
  {
    var v := ToInt(t, inner).value;
    assert inner == 0x100 * v && Representable(v);
    if Narrow(t) {
      FromNarrowExact(t, v);
    } else {
      TryFromExact(t, v);
    }
  }
}
