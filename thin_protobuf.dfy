/**
 * The hand-rolled subset of the Protocol Buffers wire encoding used by
 * templight traces: base-128 varints, field keys, ZigZag for signed values,
 * fixed 8- and 4-byte values, length-delimited byte strings and the
 * forward-compatible skipping of unknown fields.
 *
 * A `StringRef&` cursor that the C++ code advances in place is modelled as a
 * value: every `LoadX` maps the remaining bytes to the decoded value and the
 * bytes that remain after it. Unsigned 64-bit integers are naturals below
 * 2^64; `unsigned int` results are reduced modulo 2^32 explicitly.
 */
module ThinProtobuf {

  import opened Bits

  type byte = x: int | 0 <= x < 256
  type Bytes = seq<byte>

  const TWO_31: nat := 0x8000_0000
  const TWO_32: nat := 0x1_0000_0000
  const TWO_63: nat := 0x8000_0000_0000_0000
  const TWO_64: nat := 0x1_0000_0000_0000_0000
  const ALL_ONES_64: nat := 0xFFFF_FFFF_FFFF_FFFF

  /** A `double` or `float` is kept as its little-endian wire bytes: the model
      never interprets floating-point values. */
  type Fixed64 = s: Bytes | |s| == 8 witness [0, 0, 0, 0, 0, 0, 0, 0]
  type Fixed32 = s: Bytes | |s| == 4 witness [0, 0, 0, 0]

  /** The bit pattern of 0.0 (what a short read returns). */
  const ZERO_DOUBLE: Fixed64 := [0, 0, 0, 0, 0, 0, 0, 0]
  const ZERO_FLOAT: Fixed32 := [0, 0, 0, 0]

  /** `StringRef::drop_front(n)`, clamped at the end of the buffer. */
  function DropFront(buf: Bytes, n: nat): (r: Bytes)
    ensures |r| == if n <= |buf| then |buf| - n else 0
  {
    if n <= |buf| then buf[n..] else []
  }

  /** Regrouping a concatenation, stated once so that proofs need not
      rediscover it element by element. */
  lemma AppendAssoc(a: Bytes, b: Bytes, c: Bytes)
    ensures (a + b) + c == a + (b + c)
  {
  }

  /** `StringRef::slice(start, end)`: both bounds are clamped to the buffer. */
  function Slice(buf: Bytes, start: nat, end: nat): (r: Bytes)
    ensures start <= end <= |buf| ==> r == buf[start..end]
    ensures start >= |buf| ==> r == []
    ensures |r| <= |buf|
  {
    var s := if start <= |buf| then start else |buf|;
    var e := if end < s then s else if end <= |buf| then end else |buf|;
    buf[s..e]
  }

  // ---------------------------------------------------------------------
  // Field keys: (field << 3) | wiretype

  const WIRE_VARINT: nat := 0
  const WIRE_64BIT: nat := 1
  const WIRE_LENGTH_DELIMITED: nat := 2
  const WIRE_32BIT: nat := 5

  /** Field numbers for which the key fits the `unsigned int` of the source. */
  predicate IsFieldNumber(field: nat) { field < 0x2000_0000 }

  function VarIntWire(field: nat): (key: nat)
    requires IsFieldNumber(field)
    ensures key / 8 == field && key % 8 == WIRE_VARINT && key < TWO_32
  {
    field * 8
  }

  function DoubleWire(field: nat): (key: nat)
    requires IsFieldNumber(field)
    ensures key / 8 == field && key % 8 == WIRE_64BIT && key < TWO_32
  {
    field * 8 + 1
  }

  function StringWire(field: nat): (key: nat)
    requires IsFieldNumber(field)
    ensures key / 8 == field && key % 8 == WIRE_LENGTH_DELIMITED && key < TWO_32
  {
    field * 8 + 2
  }

  function FloatWire(field: nat): (key: nat)
    requires IsFieldNumber(field)
    ensures key / 8 == field && key % 8 == WIRE_32BIT && key < TWO_32
  {
    field * 8 + 5
  }

  // ---------------------------------------------------------------------
  // Varints

  /** What `(byte & 0x7F) << shifts` contributes with a 64-bit shift: a group
      that lands above bit 63 is cut off. */
  function Shifted64(group: nat, shifts: nat): (r: nat)
    ensures r < TWO_64
  {
    Shl(group, shifts) % TWO_64
  }

  /** The loop of `loadVarInt` on a non-empty buffer: OR in each 7-bit group
      at `shifts`, continue while bit 7 is set, stop when the buffer runs out.
      This is the decoder with a 64-bit shift; see `VarIntAsWrittenLoop` for
      the shift of an `int` that the source performs. */
  function VarIntLoop(buf: Bytes, shifts: nat, u: nat): (r: (nat, Bytes))
    requires buf != []
    ensures |r.1| < |buf|
    decreases |buf|
  {
    var u' := BitOr(u, Shifted64(buf[0] % 128, shifts));
    if buf[0] >= 128 then
      if |buf| == 1 then (u', []) else VarIntLoop(buf[1..], shifts + 7, u')
    else (u', buf[1..])
  }

  /** `loadVarInt` (64-bit-shift reading): an empty buffer yields 0 and is left as is. */
  function VarInt(buf: Bytes): (r: (nat, Bytes))
    ensures |r.1| <= |buf|
    ensures buf != [] ==> |r.1| < |buf|
  {
    if buf == [] then (0, []) else VarIntLoop(buf, 0, 0)
  }

  /** The number of bytes `loadVarInt` consumes: up to and including the
      first byte whose bit 7 is clear, or the whole buffer if there is none. */
  function VarIntLength(buf: Bytes): (n: nat)
    ensures n <= |buf| && (buf != [] ==> n >= 1)
  {
    if buf == [] then 0
    else if buf[0] < 128 then 1
    else 1 + VarIntLength(buf[1..])
  }

  lemma {:induction false} VarIntLengthShape(buf: Bytes)
    ensures forall i :: 0 <= i < VarIntLength(buf) - 1 ==> buf[i] >= 128
    ensures VarIntLength(buf) < |buf| ==> buf[VarIntLength(buf) - 1] < 128
  {
    if buf != [] && buf[0] >= 128 {
      VarIntLengthShape(buf[1..]);
    }
  }

  lemma {:induction false} VarIntLoopConsumes(buf: Bytes, shifts: nat, u: nat)
    requires buf != []
    ensures VarIntLoop(buf, shifts, u).1 == buf[VarIntLength(buf)..]
    decreases |buf|
  {
    if buf[0] >= 128 && |buf| > 1 {
      VarIntLoopConsumes(buf[1..], shifts + 7, BitOr(u, Shifted64(buf[0] % 128, shifts)));
    }
  }

  /** `loadVarInt` consumes the bytes up to and including the first one with
      bit 7 clear (see `VarIntLengthShape`); if the buffer ends first it is
      emptied. */
  lemma VarIntConsumes(buf: Bytes)
    ensures VarInt(buf).1 == buf[VarIntLength(buf)..]
  {
    if buf != [] {
      VarIntLoopConsumes(buf, 0, 0);
    }
  }

  lemma {:induction false} VarIntLoopBound(buf: Bytes, shifts: nat, u: nat)
    requires buf != [] && u < TWO_64
    ensures VarIntLoop(buf, shifts, u).0 < TWO_64
    decreases |buf|
  {
    Pow2Values();
    BitOrBound(u, Shifted64(buf[0] % 128, shifts), 64);
    if buf[0] >= 128 && |buf| > 1 {
      VarIntLoopBound(buf[1..], shifts + 7, BitOr(u, Shifted64(buf[0] % 128, shifts)));
    }
  }

  /** Every decoded varint fits `std::uint64_t`. */
  lemma VarIntBound(buf: Bytes)
    ensures VarInt(buf).0 < TWO_64
  {
    if buf != [] {
      VarIntLoopBound(buf, 0, 0);
    }
  }

  /** The loop of `loadVarInt` with the corrected 64-bit shift, proved to
      compute `VarInt`; the source's `int` shift is `VarIntAsWritten`. */
  method LoadVarInt(buf: Bytes) returns (u: nat, rest: Bytes)
    ensures (u, rest) == VarInt(buf)
  {
    u, rest := 0, buf;
    if rest == [] {
      return;
    }
    var shifts := 0;
    while rest[0] >= 128
      invariant rest != [] && VarIntLoop(rest, shifts, u) == VarInt(buf)
      decreases |rest|
    {
      u := BitOr(u, Shifted64(rest[0] % 128, shifts));
      rest := rest[1..];
      if rest == [] {
        return;
      }
      shifts := shifts + 7;
    }
    u := BitOr(u, Shifted64(rest[0] % 128, shifts));
    rest := rest[1..];
  }

  /** The bytes `saveVarInt` writes: 7-bit groups, least significant first,
      bit 7 set on every byte but the last. */
  function EncodeVarInt(u: nat): (r: Bytes)
    ensures |r| >= 1
  {
    if u < 128 then [u] else [u % 128 + 128] + EncodeVarInt(u / 128)
  }

  /** Every byte `saveVarInt` writes but the last has its continuation bit
      set, so `loadVarInt` reads exactly that many bytes. */
  lemma {:induction false} EncodeVarIntShape(u: nat)
    ensures EncodeVarInt(u)[|EncodeVarInt(u)| - 1] < 128
    ensures forall i :: 0 <= i < |EncodeVarInt(u)| - 1 ==> EncodeVarInt(u)[i] >= 128
  {
    if u >= 128 {
      EncodeVarIntShape(u / 128);
    }
  }

  /** ...so `loadVarInt` reads exactly the bytes `saveVarInt` wrote. */
  lemma {:induction false} EncodeVarIntLengthRead(u: nat, rest: Bytes)
    ensures VarIntLength(EncodeVarInt(u) + rest) == |EncodeVarInt(u)|
  {
    EncodeVarIntHead(u, rest);
    if u >= 128 {
      EncodeVarIntLengthRead(u / 128, rest);
    }
  }

  lemma {:induction false} EncodeVarIntLength(u: nat, k: nat)
    requires k >= 1 && u < Shl(1, 7 * k)
    ensures |EncodeVarInt(u)| <= k
  {
    if u >= 128 {
      var q := Shl(1, 7 * (k - 1));
      assert Shl(1, 7 * k) == 128 * q by {
        ShlShl(1, 7, 7 * (k - 1));
        Shl7(1);
        ShlScale(1, 128, 7 * (k - 1));
      }
      if k == 1 {
        assert false;
      }
      EncodeVarIntLength(u / 128, k - 1);
    }
  }

  /** A 64-bit value takes at most 10 bytes, the size of the source's buffer. */
  lemma EncodeVarIntAtMost10(u: nat)
    requires u < TWO_64
    ensures |EncodeVarInt(u)| <= 10
  {
    Pow2Values();
    ShlMonotoneShift(1, 64, 70);
    EncodeVarIntLength(u, 10);
  }

  /** A value of at least 128 starts with its low group, bit 7 set. */
  lemma EncodeVarIntSplit(hi: nat, lo: nat)
    requires hi != 0 && lo < 128
    ensures EncodeVarInt(hi * 128 + lo) == [lo + 128] + EncodeVarInt(hi)
  {
  }

  /** One iteration of `saveVarInt`'s loop, on the bytes still to be written. */
  lemma SaveVarIntStep(prefix: Bytes, u: nat, low: nat)
    requires u != 0 && low < 128
    ensures prefix + EncodeVarInt(u * 128 + low)
         == (prefix + [low + 128]) + EncodeVarInt((u / 128) * 128 + u % 128)
  {
    EncodeVarIntSplit(u, low);
  }

  /** `saveVarInt`: fills a 10-byte buffer group by group. */
  method SaveVarInt(u0: nat) returns (out: Bytes)
    requires u0 < TWO_64
    ensures out == EncodeVarInt(u0)
  {
    EncodeVarIntAtMost10(u0);
    var buf := new byte[10];
    var p := 0;
    var u := u0;
    buf[p] := u % 128;
    u := u / 128;
    while u != 0
      invariant 0 <= p < 10 && buf[p] < 128
      invariant EncodeVarInt(u0) == buf[..p] + EncodeVarInt(u * 128 + buf[p])
      decreases u
    {
      var low := buf[p];
      ghost var prefix := buf[..p];
      SaveVarIntStep(prefix, u, low);
      var marked := BitOr(low, 0x80);  // more groups follow
      BitOrHighBit(low);
      buf[p] := marked;
      assert buf[..p + 1] == prefix + [low + 128];
      p := p + 1;
      buf[p] := u % 128;
      u := u / 128;
    }
    out := buf[..p + 1];
  }

  /** One step of decoding what `EncodeVarInt(v)` wrote, with `u` holding the
      groups below `shifts`: the first group lands just above `u` without
      overlapping it, and what is left to add is `v / 128` one group higher. */
  lemma GroupStep(v: nat, u: nat, shifts: nat)
    requires u < Pow2(shifts)
    ensures Shl(v % 128, shifts) <= Shl(v, shifts)
    ensures BitOr(u, Shl(v % 128, shifts)) == u + Shl(v % 128, shifts)
    ensures u + Shl(v % 128, shifts) < Pow2(shifts + 7)
    ensures Shl(v, shifts) == Shl(v % 128, shifts) + Shl(v / 128, shifts + 7)
    ensures v >= 128 ==> Pow2(shifts + 7) <= Shl(v, shifts)
  {
    var g, q := v % 128, v / 128;
    // v == g + 128 * q, and 128 * q is q shifted by 7
    ShlAdd(g, 128 * q, shifts);
    Shl7(q);
    ShlShl(q, 7, shifts);
    // g <= 127, and 127 + 1 is 1 shifted by 7
    ShlMonotone(g, 127, shifts);
    ShlAdd(127, 1, shifts);
    Shl7(1);
    ShlShl(1, 7, shifts);
    BitOrDisjoint(u, g, shifts);
    if v >= 128 {
      ShlMonotone(1, q, shifts + 7);
    }
  }

  lemma EncodeVarIntHeadMore(v: nat, rest: Bytes)
    requires v >= 128
    ensures (EncodeVarInt(v) + rest)[0] == v % 128 + 128
    ensures (EncodeVarInt(v) + rest)[1..] == EncodeVarInt(v / 128) + rest
  {
    assert EncodeVarInt(v) + rest == [v % 128 + 128] + (EncodeVarInt(v / 128) + rest);
  }

  lemma EncodeVarIntHeadLast(v: nat, rest: Bytes)
    requires v < 128
    ensures (EncodeVarInt(v) + rest)[0] == v
    ensures (EncodeVarInt(v) + rest)[1..] == rest
  {
    assert EncodeVarInt(v) + rest == [v] + rest;
  }

  /** The first byte of an encoding and what follows it. */
  lemma EncodeVarIntHead(v: nat, rest: Bytes)
    ensures (EncodeVarInt(v) + rest)[0] % 128 == v % 128
    ensures (EncodeVarInt(v) + rest)[0] >= 128 <==> v >= 128
    ensures v >= 128 ==> (EncodeVarInt(v) + rest)[1..] == EncodeVarInt(v / 128) + rest
    ensures v < 128 ==> (EncodeVarInt(v) + rest)[1..] == rest
  {
    if v >= 128 {
      EncodeVarIntHeadMore(v, rest);
    } else {
      EncodeVarIntHeadLast(v, rest);
    }
  }

  /** Decoding the first byte of an encoding. */
  lemma VarIntLoopEncodeStep(v: nat, rest: Bytes, shifts: nat, u: nat)
    ensures var u1 := BitOr(u, Shifted64(v % 128, shifts));
      VarIntLoop(EncodeVarInt(v) + rest, shifts, u) ==
        if v >= 128 then VarIntLoop(EncodeVarInt(v / 128) + rest, shifts + 7, u1) else (u1, rest)
  {
    EncodeVarIntHead(v, rest);
  }

  lemma {:induction false} VarIntLoopEncode(v: nat, rest: Bytes, shifts: nat, u: nat)
    requires u < Pow2(shifts) && u + Shl(v, shifts) < TWO_64
    ensures VarIntLoop(EncodeVarInt(v) + rest, shifts, u) == (u + Shl(v, shifts), rest)
    decreases v
  {
    var low := Shl(v % 128, shifts);
    GroupStep(v, u, shifts);
    ModSmall(low, TWO_64);
    assert BitOr(u, Shifted64(v % 128, shifts)) == u + low;
    VarIntLoopEncodeStep(v, rest, shifts, u);
    if v >= 128 {
      VarIntLoopEncode(v / 128, rest, shifts + 7, u + low);
    }
  }

  /** Round trip: `loadVarInt` (64-bit shift) returns the value `saveVarInt`
      wrote and stops exactly after its bytes. */
  lemma VarIntRoundTrip(v: nat, rest: Bytes)
    requires v < TWO_64
    ensures VarInt(EncodeVarInt(v) + rest) == (v, rest)
  {
    Pow2Values();
    VarIntLoopEncode(v, rest, 0, 0);
  }

  // ---------------------------------------------------------------------
  // The decoder as the source writes it: `(p_buf.front() & 0x7F) << shifts`
  // shifts an `int`, and `shifts` is a `std::uint8_t`.

  /** The `int`-typed shift, converted to `std::uint64_t` when OR-ed into `u`.
      Overflowing the 32-bit `int` is undefined in C++; the model takes the
      two's-complement wrap of common compilers, and for a shift count of 32
      or more the x86 masking of the count to its low five bits. A negative
      `int` is sign-extended by the conversion. */
  function PromotedShift(group: nat, shifts: nat): (r: nat)
    requires group < 128
    ensures r < TWO_64
  {
    var x := Shl(group, shifts % 32) % TWO_32;
    if x >= TWO_31 then x + (TWO_64 - TWO_32) else x
  }

  function VarIntAsWrittenLoop(buf: Bytes, shifts: nat, u: nat): (r: (nat, Bytes))
    requires buf != [] && shifts < 256
    decreases |buf|
  {
    var u' := BitOr(u, PromotedShift(buf[0] % 128, shifts));
    if buf[0] >= 128 then
      if |buf| == 1 then (u', []) else VarIntAsWrittenLoop(buf[1..], (shifts + 7) % 256, u')
    else (u', buf[1..])
  }

  /** `loadVarInt` exactly as written, with its `int`-typed shift. */
  function VarIntAsWritten(buf: Bytes): (r: (nat, Bytes))
  {
    if buf == [] then (0, []) else VarIntAsWrittenLoop(buf, 0, 0)
  }

  /** Without overflow the `int` shift agrees with the 64-bit one. */
  lemma PromotedShiftSmall(g: nat, shifts: nat)
    requires g < 128 && shifts < 32 && Shl(g, shifts) < TWO_31
    ensures PromotedShift(g, shifts) == Shl(g, shifts)
  {
    ModSmall(shifts, 32);
    ModSmall(Shl(g, shifts), TWO_32);
  }

  lemma ShiftBelow31(k: nat, x: nat)
    requires Pow2(k) <= x < TWO_31
    ensures k < 31
  {
    if k >= 31 {
      ShlMonotoneShift(1, 31, k);
      Pow2Values();
    }
  }

  lemma VarIntAsWrittenLoopEncodeStep(v: nat, rest: Bytes, shifts: nat, u: nat)
    requires shifts < 249
    ensures var u1 := BitOr(u, PromotedShift(v % 128, shifts));
      VarIntAsWrittenLoop(EncodeVarInt(v) + rest, shifts, u) ==
        if v >= 128 then VarIntAsWrittenLoop(EncodeVarInt(v / 128) + rest, shifts + 7, u1)
        else (u1, rest)
  {
    var buf := EncodeVarInt(v) + rest;
    EncodeVarIntHead(v, rest);
    var g := buf[0] % 128;
    assert g == v % 128;
    ModSmall(shifts + 7, 256);
    if v >= 128 {
      assert |buf[1..]| >= 1;
    }
  }

  lemma VarIntAsWrittenLoopEncodeValue(v: nat, rest: Bytes, shifts: nat, u: nat)
    requires shifts < 32 && u < Pow2(shifts) && u + Shl(v, shifts) < TWO_31
    ensures var u1 := u + Shl(v % 128, shifts);
      VarIntAsWrittenLoop(EncodeVarInt(v) + rest, shifts, u) ==
        if v >= 128 then VarIntAsWrittenLoop(EncodeVarInt(v / 128) + rest, shifts + 7, u1)
        else (u1, rest)
  {
    GroupStep(v, u, shifts);
    PromotedShiftSmall(v % 128, shifts);
    VarIntAsWrittenLoopEncodeStep(v, rest, shifts, u);
  }

  lemma {:induction false} VarIntAsWrittenLoopEncode(v: nat, rest: Bytes, shifts: nat, u: nat)
    requires shifts < 32 && u < Pow2(shifts) && u + Shl(v, shifts) < TWO_31
    ensures VarIntAsWrittenLoop(EncodeVarInt(v) + rest, shifts, u) == (u + Shl(v, shifts), rest)
    decreases v
  {
    var low, high := Shl(v % 128, shifts), Shl(v / 128, shifts + 7);
    GroupStep(v, u, shifts);
    assert Shl(v, shifts) == low + high;
    VarIntAsWrittenLoopEncodeValue(v, rest, shifts, u);
    if v >= 128 {
      ShiftBelow31(shifts + 7, u + Shl(v, shifts));
      VarIntAsWrittenLoopEncode(v / 128, rest, shifts + 7, u + low);
    } else {
      assert v / 128 == 0;
      ShlZero(shifts + 7);
      assert high == 0;
    }
  }

  /** Below 2^31 the `int` shift never overflows, so the source's decoder
      inverts `saveVarInt`. */
  lemma VarIntAsWrittenRoundTrip(v: nat, rest: Bytes)
    requires v < TWO_31
    ensures VarIntAsWritten(EncodeVarInt(v) + rest) == (v, rest)
  {
    VarIntAsWrittenLoopEncode(v, rest, 0, 0);
  }

  lemma EncodeVarIntAt2To31()
    ensures EncodeVarInt(TWO_31) == [128, 128, 128, 128, 8]
  {
    assert EncodeVarInt(8) == [8];
    assert EncodeVarInt(0x400) == [128, 8];
    assert EncodeVarInt(0x2_0000) == [128, 128, 8];
    assert EncodeVarInt(0x100_0000) == [128, 128, 128, 8];
  }

  lemma Shl8By28()
    ensures Shl(8, 28) == TWO_31
  {
    Shl7(8);
    ShlShl(8, 7, 21);
    Shl7(0x400);
    ShlShl(0x400, 7, 14);
    Shl7(0x2_0000);
    ShlShl(0x2_0000, 7, 7);
    Shl7(0x100_0000);
  }

  /** A leading zero group with its continuation bit only moves the shift on. */
  lemma AsWrittenZeroGroup(t: Bytes, shifts: nat)
    requires t != [] && shifts + 7 < 256
    ensures VarIntAsWrittenLoop([128] + t, shifts, 0) == VarIntAsWrittenLoop(t, shifts + 7, 0)
  {
    var buf := [128] + t;
    ShlZero(shifts % 32);
    assert PromotedShift(buf[0] % 128, shifts) == 0;
    ModSmall(shifts + 7, 256);
    assert buf[1..] == t;
  }

  lemma AsWrittenLastGroup()
    ensures VarIntAsWrittenLoop([8], 28, 0) == (0xFFFF_FFFF_8000_0000, [])
  {
    var last: Bytes := [8];
    Shl8By28();
    assert PromotedShift(last[0] % 128, 28) == 0xFFFF_FFFF_8000_0000;
    assert last[1..] == [];
  }

  /** 2^31 (for instance a memory usage of 2 GiB) is written as
      80 80 80 80 08; the fifth group, 8 << 28, overflows the `int` and is
      sign-extended, so the source decodes 0xFFFFFFFF80000000. */
  lemma VarIntAsWrittenFailsAt2To31()
    ensures EncodeVarInt(TWO_31) == [128, 128, 128, 128, 8]
    ensures VarIntAsWritten(EncodeVarInt(TWO_31)).0 == 0xFFFF_FFFF_8000_0000
  {
    EncodeVarIntAt2To31();
    AsWrittenLastGroup();
    AsWrittenZeroGroup([8], 21);
    AsWrittenZeroGroup([128, 8], 14);
    AsWrittenZeroGroup([128, 128, 8], 7);
    AsWrittenZeroGroup([128, 128, 128, 8], 0);
    assert [128] + [8] == [128, 8];
    assert [128] + [128, 8] == [128, 128, 8];
    assert [128] + [128, 128, 8] == [128, 128, 128, 8];
    assert [128] + [128, 128, 128, 8] == [128, 128, 128, 128, 8];
  }

  // ---------------------------------------------------------------------
  // Signed values (ZigZag) in 64-bit two's complement.

  /** `std::int64_t` values. */
  predicate IsInt64(i: int) { -(TWO_63 as int) <= i < TWO_63 }

  /** The bit pattern of an `int64_t` as a `uint64_t`. */
  function ToUInt64(i: int): (r: nat)
    ensures r < TWO_64
  {
    i % TWO_64
  }

  /** A `uint64_t` bit pattern read as an `int64_t`. */
  function ToInt64(u: nat): (r: int)
    requires u < TWO_64
    ensures IsInt64(r) && ToUInt64(r) == u
  {
    if u >= TWO_63 then u - TWO_64 else u
  }

  /** `x ^ m` where `m` is either 0 or all ones: XOR with all ones is `~x`. */
  function XorMask(x: nat, allOnes: bool): (r: nat)
    requires x < TWO_64
    ensures r < TWO_64
  {
    if allOnes then ALL_ONES_64 - x else x
  }

  /** `saveSInt`: `(i << 1) ^ (i >> 63)`; the arithmetic shift `i >> 63` is
      all ones exactly when `i` is negative. */
  function ZigZag(i: int): (r: nat)
    requires IsInt64(i)
    ensures r < TWO_64
  {
    XorMask((2 * ToUInt64(i)) % TWO_64, i < 0)
  }

  /** `loadSInt`: `(u >> 1) ^ -(u & 1)`, returned as an `int64_t`. */
  function UnZigZag(u: nat): (r: int)
    requires u < TWO_64
    ensures IsInt64(r)
  {
    ToInt64(XorMask(u / 2, u % 2 == 1))
  }

  /** `loadSInt` inverts `saveSInt`'s ZigZag mapping on every `int64_t`. */
  lemma ZigZagRoundTrip(i: int)
    requires IsInt64(i)
    ensures UnZigZag(ZigZag(i)) == i
    ensures ZigZag(i) == if i >= 0 then 2 * i else -2 * i - 1
  {
    if i < 0 {
      assert ToUInt64(i) == i + TWO_64;
      assert (2 * (i + TWO_64)) % TWO_64 == 2 * i + TWO_64;
    }
  }

  /** ...and every `uint64_t` is the ZigZag image of the value it decodes to. */
  lemma UnZigZagRoundTrip(u: nat)
    requires u < TWO_64
    ensures ZigZag(UnZigZag(u)) == u
  {
    var i := UnZigZag(u);
    if u % 2 == 1 {
      assert i == -(u / 2) - 1;
    } else {
      assert i == u / 2;
    }
    ZigZagRoundTrip(i);
  }

  // ---------------------------------------------------------------------
  // Fixed-size values, strings, skipping.

  /** `loadDouble`: the next 8 bytes, or 0.0 and an emptied buffer when fewer remain. */
  function LoadDouble(buf: Bytes): (r: (Fixed64, Bytes))
    ensures |buf| >= 8 ==> r.0 == buf[..8] && r.1 == buf[8..]
    ensures |buf| < 8 ==> r.0 == ZERO_DOUBLE && r.1 == []
  {
    if |buf| < 8 then (ZERO_DOUBLE, []) else (buf[..8], buf[8..])
  }

  /** `loadFloat`: the next 4 bytes, or 0.0 and an emptied buffer when fewer remain. */
  function LoadFloat(buf: Bytes): (r: (Fixed32, Bytes))
    ensures |buf| >= 4 ==> r.0 == buf[..4] && r.1 == buf[4..]
    ensures |buf| < 4 ==> r.0 == ZERO_FLOAT && r.1 == []
  {
    if |buf| < 4 then (ZERO_FLOAT, []) else (buf[..4], buf[4..])
  }

  /** `loadString`: a varint length (kept as an `unsigned int`), then that many
      bytes; if fewer remain, "" and an emptied buffer. */
  function LoadString(buf: Bytes): (r: (Bytes, Bytes))
    ensures |r.1| <= |buf|
    ensures buf != [] ==> |r.1| < |buf|
  {
    var (n, rest) := VarInt(buf);
    var u := n % TWO_32;
    if |rest| < u then ([], []) else (rest[..u], rest[u..])
  }

  /** `saveString`: the length as an `unsigned int` varint, then that many bytes. */
  function SaveString(s: Bytes): (r: Bytes)
  {
    var u := |s| % TWO_32;
    EncodeVarInt(u) + s[..u]
  }

  lemma ModSmall(x: nat, m: nat)
    requires x < m
    ensures x % m == x
  {
  }

  /** Below 4 GiB the length is written in full, then every byte. */
  lemma SaveStringShape(s: Bytes, rest: Bytes)
    requires |s| < TWO_32
    ensures SaveString(s) + rest == EncodeVarInt(|s|) + (s + rest)
  {
    ModSmall(|s|, TWO_32);
    assert s[..|s|] == s;
  }

  /** `loadString` inverts `saveString` for every string shorter than 4 GiB,
      and stops right after it. */
  lemma StringRoundTrip(s: Bytes, rest: Bytes)
    requires |s| < TWO_32
    ensures LoadString(SaveString(s) + rest) == (s, rest)
  {
    SaveStringShape(s, rest);
    VarIntRoundTrip(|s|, s + rest);
    assert (s + rest)[..|s|] == s;
    assert (s + rest)[|s|..] == rest;
  }

  /** `saveDouble`: the 8 little-endian bytes of the value. */
  function SaveDouble(d: Fixed64): Bytes
  {
    d
  }

  /** `loadDouble` reads back what `saveDouble` wrote and nothing more. */
  lemma DoubleRoundTrip(d: Fixed64, rest: Bytes)
    ensures LoadDouble(SaveDouble(d) + rest) == (d, rest)
  {
    assert (d + rest)[..8] == d;
    assert (d + rest)[8..] == rest;
  }

  /** `saveFloat`: the 4 little-endian bytes of the value. */
  function SaveFloat(f: Fixed32): Bytes
  {
    f
  }

  /** `loadFloat` reads back what `saveFloat` wrote and nothing more. */
  lemma FloatRoundTrip(f: Fixed32, rest: Bytes)
    ensures LoadFloat(SaveFloat(f) + rest) == (f, rest)
  {
    assert (f + rest)[..4] == f;
    assert (f + rest)[4..] == rest;
  }

  /** `loadBool`: false on an empty buffer, otherwise whether the next byte
      is non-zero, consuming it. */
  function LoadBool(buf: Bytes): (r: (bool, Bytes))
    ensures buf == [] ==> r == (false, [])
    ensures buf != [] ==> r == (buf[0] != 0, buf[1..])
  {
    if buf == [] then (false, []) else (buf[0] != 0, buf[1..])
  }

  /** `saveBool`: one byte, 1 or 0. */
  function SaveBool(b: bool): (r: Bytes)
  {
    if b then [1] else [0]
  }

  lemma BoolRoundTrip(b: bool, rest: Bytes)
    ensures LoadBool(SaveBool(b) + rest) == (b, rest)
  {
    assert (SaveBool(b) + rest)[1..] == rest;
  }

  /** `saveSInt`: the ZigZag image as a varint. */
  function SaveSInt(i: int): (r: Bytes)
    requires IsInt64(i)
  {
    EncodeVarInt(ZigZag(i))
  }

  /** `loadSInt`: a varint, ZigZag-decoded. */
  function LoadSInt(buf: Bytes): (r: (int, Bytes))
    ensures IsInt64(r.0) && |r.1| <= |buf|
  {
    var (u, rest) := VarInt(buf);
    VarIntBound(buf);
    (UnZigZag(u), rest)
  }

  /** `loadSInt` inverts `saveSInt` on every `int64_t`, however negative. */
  lemma SIntRoundTrip(i: int, rest: Bytes)
    requires IsInt64(i)
    ensures LoadSInt(SaveSInt(i) + rest) == (i, rest)
  {
    VarIntRoundTrip(ZigZag(i), rest);
    ZigZagRoundTrip(i);
  }

  /** `saveInt`: the two's-complement bit pattern of an `int64_t` as a varint
      (ten bytes for every negative value). */
  function SaveInt(i: int): (r: Bytes)
    requires IsInt64(i)
  {
    EncodeVarInt(ToUInt64(i))
  }

  /** A varint read back from `saveInt` and reinterpreted as `int64_t` is the
      value written; negative values take all ten bytes. */
  lemma IntRoundTrip(i: int, rest: Bytes)
    requires IsInt64(i)
    ensures VarInt(SaveInt(i) + rest) == (ToUInt64(i), rest)
    ensures ToInt64(ToUInt64(i)) == i
    ensures i < 0 ==> |SaveInt(i)| == 10
  {
    VarIntRoundTrip(ToUInt64(i), rest);
    if i < 0 {
      EncodeVarIntAtMost10(ToUInt64(i));
      EncodeVarIntAtLeast10(ToUInt64(i));
    }
  }

  /** What the source's `loadSInt` does read back: below 2^30 in magnitude
      the ZigZag image stays under 2^31, so the `int`-shift decoder inverts
      `saveSInt`. */
  lemma SIntAsWrittenRoundTrip(i: int, rest: Bytes)
    requires -0x4000_0000 <= i < 0x4000_0000
    ensures var (u, r) := VarIntAsWritten(SaveSInt(i) + rest);
            r == rest && u < TWO_64 && UnZigZag(u) == i
  {
    ZigZagRoundTrip(i);
    VarIntAsWrittenRoundTrip(ZigZag(i), rest);
  }

  /** 2^30 is saved as the varint of 2^31, which the source's `loadSInt`
      misreads. */
  lemma SIntAsWrittenFailsAt2To30()
    ensures var u := VarIntAsWritten(SaveSInt(0x4000_0000)).0;
            u < TWO_64 && UnZigZag(u) != 0x4000_0000
  {
    ZigZagRoundTrip(0x4000_0000);
    VarIntAsWrittenFailsAt2To31();
    assert UnZigZag(0xFFFF_FFFF_8000_0000) == 0x7FFF_FFFF_C000_0000;
  }

  /** What the source's `loadVarInt` does read back from `saveInt`: a
      non-negative value below 2^31. */
  lemma IntAsWrittenRoundTrip(i: int, rest: Bytes)
    requires 0 <= i < TWO_31
    ensures VarIntAsWritten(SaveInt(i) + rest) == (i, rest)
  {
    assert ToUInt64(i) == i;
    VarIntAsWrittenRoundTrip(i, rest);
  }

  /** A value of at least 2^(7k) takes more than k groups. */
  lemma {:induction false} EncodeVarIntAtLeast(u: nat, k: nat)
    requires Shl(1, 7 * k) <= u
    ensures |EncodeVarInt(u)| >= k + 1
  {
    if k > 0 {
      ShlShl(1, 7 * (k - 1), 7);
      Shl7(Shl(1, 7 * (k - 1)));
      EncodeVarIntAtLeast(u / 128, k - 1);
    }
  }

  /** Every value at or above 2^63 needs all ten groups. */
  lemma EncodeVarIntAtLeast10(u: nat)
    requires TWO_63 <= u
    ensures |EncodeVarInt(u)| >= 10
  {
    Pow2Values();
    assert Shl(1, 63) == TWO_63;
    EncodeVarIntAtLeast(u, 9);
  }

  /** `skipData`: drop one value of the key's wire type, clamped to what remains;
      an unknown wire type drops nothing. */
  function SkipData(buf: Bytes, wire: nat): (r: Bytes)
    ensures |r| <= |buf|
    ensures wire % 8 !in {0, 1, 2, 5} ==> r == buf
  {
    match wire % 8
    case 0 => VarInt(buf).1
    case 1 => if |buf| < 8 then DropFront(buf, |buf|) else DropFront(buf, 8)
    case 2 =>
      var (n, rest) := VarInt(buf);
      var u := n % TWO_32;
      if |rest| < u then DropFront(rest, |rest|) else DropFront(rest, u)
    case 5 => if |buf| < 4 then DropFront(buf, |buf|) else DropFront(buf, 4)
    case _ => buf
  }

  /** Skipping a value of each known wire type drops exactly that value, so the
      next field of the message is read from the right place. */
  lemma SkipVarIntExact(v: nat, rest: Bytes)
    requires v < TWO_64
    ensures SkipData(EncodeVarInt(v) + rest, WIRE_VARINT) == rest
  {
    VarIntRoundTrip(v, rest);
  }

  lemma SkipFixedExact(d: Fixed64, f: Fixed32, rest: Bytes)
    ensures SkipData(d + rest, WIRE_64BIT) == rest
    ensures SkipData(f + rest, WIRE_32BIT) == rest
  {
    assert (d + rest)[8..] == rest;
    assert (f + rest)[4..] == rest;
  }

  lemma SkipStringExact(s: Bytes, rest: Bytes)
    requires |s| < TWO_32
    ensures SkipData(SaveString(s) + rest, WIRE_LENGTH_DELIMITED) == rest
  {
    var buf, t := SaveString(s) + rest, s + rest;
    SaveStringShape(s, rest);
    VarIntRoundTrip(|s|, t);
    ModSmall(|s|, TWO_32);
    assert WIRE_LENGTH_DELIMITED % 8 == 2;
    assert SkipData(buf, WIRE_LENGTH_DELIMITED) == DropFront(t, |s|);
    assert t[|s|..] == rest;
  }

  // ---------------------------------------------------------------------
  // Whole fields, as the `save*(OS, tag, value)` overloads write them.

  function FieldVarInt(field: nat, u: nat): Bytes
    requires IsFieldNumber(field)
  {
    EncodeVarInt(VarIntWire(field)) + EncodeVarInt(u)
  }

  function FieldString(field: nat, s: Bytes): Bytes
    requires IsFieldNumber(field)
  {
    EncodeVarInt(StringWire(field)) + SaveString(s)
  }

  function FieldDouble(field: nat, d: Fixed64): Bytes
    requires IsFieldNumber(field)
  {
    EncodeVarInt(DoubleWire(field)) + SaveDouble(d)
  }

  /** Reading the key of a field written by `FieldX` gives back its key and
      leaves the value's bytes. */
  lemma KeyRoundTrip(key: nat, rest: Bytes)
    requires key < TWO_32
    ensures VarInt(EncodeVarInt(key) + rest) == (key, rest)
  {
    VarIntRoundTrip(key, rest);
  }

  /** Splitting a buffer at a clamped position, as `startOnBuffer` does with
      `slice(0, n)` and `slice(n, size)`, loses and duplicates nothing. */
  lemma SliceSplit(buf: Bytes, n: nat)
    ensures Slice(buf, 0, n) + Slice(buf, n, |buf|) == buf
    ensures Slice(buf, n, |buf|) == DropFront(buf, n)
  {
  }

  /** How a reader meets a field written by `FieldVarInt`, `FieldString` or
      `FieldDouble`: first the key, then the value, then the following bytes. */
  lemma FieldVarIntRead(field: nat, u: nat, rest: Bytes)
    requires IsFieldNumber(field) && u < TWO_64
    ensures VarInt(FieldVarInt(field, u) + rest) == (VarIntWire(field), EncodeVarInt(u) + rest)
    ensures VarInt(EncodeVarInt(u) + rest) == (u, rest)
  {
    assert FieldVarInt(field, u) + rest == EncodeVarInt(VarIntWire(field)) + (EncodeVarInt(u) + rest);
    KeyRoundTrip(VarIntWire(field), EncodeVarInt(u) + rest);
    VarIntRoundTrip(u, rest);
  }

  /** The same through the source's `int`-shift decoder, which reads a key
      and a value back only below 2^31. */
  lemma FieldVarIntAsWrittenRead(field: nat, u: nat, rest: Bytes)
    requires IsFieldNumber(field) && VarIntWire(field) < TWO_31 && u < TWO_31
    ensures VarIntAsWritten(FieldVarInt(field, u) + rest) == (VarIntWire(field), EncodeVarInt(u) + rest)
    ensures VarIntAsWritten(EncodeVarInt(u) + rest) == (u, rest)
  {
    assert FieldVarInt(field, u) + rest == EncodeVarInt(VarIntWire(field)) + (EncodeVarInt(u) + rest);
    VarIntAsWrittenRoundTrip(VarIntWire(field), EncodeVarInt(u) + rest);
    VarIntAsWrittenRoundTrip(u, rest);
  }

  lemma FieldStringRead(field: nat, s: Bytes, rest: Bytes)
    requires IsFieldNumber(field) && |s| < TWO_32
    ensures VarInt(FieldString(field, s) + rest) == (StringWire(field), SaveString(s) + rest)
    ensures LoadString(SaveString(s) + rest) == (s, rest)
    ensures VarInt(SaveString(s) + rest) == (|s|, s + rest)
  {
    assert FieldString(field, s) + rest == EncodeVarInt(StringWire(field)) + (SaveString(s) + rest);
    KeyRoundTrip(StringWire(field), SaveString(s) + rest);
    StringRoundTrip(s, rest);
    SaveStringShape(s, rest);
    VarIntRoundTrip(|s|, s + rest);
  }

  lemma FieldDoubleRead(field: nat, d: Fixed64, rest: Bytes)
    requires IsFieldNumber(field)
    ensures VarInt(FieldDouble(field, d) + rest) == (DoubleWire(field), d + rest)
    ensures LoadDouble(d + rest) == (d, rest)
  {
    assert FieldDouble(field, d) + rest == EncodeVarInt(DoubleWire(field)) + (d + rest);
    KeyRoundTrip(DoubleWire(field), d + rest);
    DoubleRoundTrip(d, rest);
  }

  /** A length-delimited frame read as the readers read frames: the key, the
      declared size, then exactly the frame's bytes. */
  lemma FrameRead(field: nat, x: Bytes, rest: Bytes)
    requires IsFieldNumber(field) && |x| < TWO_32
    ensures VarInt(FieldString(field, x) + rest) == (StringWire(field), SaveString(x) + rest)
    ensures StringWire(field) % TWO_32 == StringWire(field)
    ensures VarInt(SaveString(x) + rest) == (|x|, x + rest)
    ensures Slice(x + rest, 0, |x|) == x && DropFront(x + rest, |x|) == rest
    ensures Slice(x + rest, |x|, |x + rest|) == rest
  {
    FieldStringRead(field, x, rest);
    ModSmall(StringWire(field), TWO_32);
    assert (x + rest)[..|x|] == x;
    assert (x + rest)[|x|..] == rest;
  }

  /** Size bounds on written fields, for frames that must stay below 4 GiB. */
  lemma FieldSizes(field: nat, u: nat, s: Bytes, d: Fixed64)
    requires IsFieldNumber(field) && u < TWO_64 && |s| < TWO_32
    ensures |FieldVarInt(field, u)| <= 20
    ensures |FieldString(field, s)| <= 20 + |s|
    ensures |FieldDouble(field, d)| <= 18
  {
    EncodeVarIntAtMost10(VarIntWire(field));
    EncodeVarIntAtMost10(StringWire(field));
    EncodeVarIntAtMost10(DoubleWire(field));
    EncodeVarIntAtMost10(u);
    EncodeVarIntAtMost10(|s|);
    SaveStringShape(s, []);
  }

  // ---------------------------------------------------------------------
  // The integer conversions the callers apply to decoded and encoded values.

  /** A C++ `int`. */
  predicate IsInt32(i: int) { -(TWO_31 as int) <= i < TWO_31 }

  /** `int x = u;` for a `uint64_t u`: the low 32 bits read as signed. */
  function ToInt32(u: nat): (r: int)
    ensures IsInt32(r)
  {
    var w := u % TWO_32;
    if w >= TWO_31 then w - TWO_32 else w
  }

  /** An `int` widened to `uint64_t` (sign-extended) and read back into an
      `int` is unchanged. */
  lemma Int32RoundTrip(i: int)
    requires IsInt32(i)
    ensures ToInt32(ToUInt64(i)) == i
  {
    if i < 0 {
      assert ToUInt64(i) == i + TWO_64;
      assert (i + TWO_64) % TWO_32 == i + TWO_32;
    }
  }
}
