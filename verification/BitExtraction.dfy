/** Reading configured bit fields out of a status frame, and the check that admits them. */
module BitExtraction {
  import opened Basics
  import opened Bits

  datatype BitIndex = Single(bit: nat) | Range(start: nat, end: nat)

  datatype Record = Record(kks: string, kind: string, byteIndex: nat, bits: BitIndex, byteOrder: nat)

  /** A float reading is its raw hundredths. */
  datatype Value = UInt(n: nat) | Bool(b: bool) | Hundredths(raw: nat)

  const U32: nat := 0x1_0000_0000
  const U64: nat := 0x1_0000_0000_0000_0000

  /** `record_bounds_error` finds nothing wrong. */
  predicate BoundsOk(r: Record, len: nat) {
    && 1 <= r.byteIndex <= len
    && match r.bits
       case Single(bit) => bit < 8
       case Range(start, end) => start <= end && end - start + 1 <= 32 && r.byteIndex - 1 + end / 8 < len
  }

  /** The frame's bit count in 32 bits. */
  function TotalBits(len: nat): nat { len * 8 % U32 }

  /** One more byte in the 64-bit accumulator. */
  function Accumulate(acc: nat, b: Byte, index: nat, bigEndian: bool): nat {
    if bigEndian then Or(Shl(acc, 8) % U64, b) else Or(acc, Shl(b, 8 * index) % U64)
  }

  function Combine(bytes: Bytes, bigEndian: bool): nat {
    if bytes == [] then 0
    else Accumulate(Combine(bytes[..|bytes| - 1], bigEndian), bytes[|bytes| - 1], |bytes| - 1, bigEndian)
  }

  function MaskOf(n: nat): nat
    requires n <= 32
  {
    if n == 32 then U32 - 1 else Pow2(n) - 1
  }

  /** Bytes touched by a range. */
  function Span(data: Bytes, r: Record): Bytes
    requires r.bits.Range? && BoundsOk(r, |data|)
  {
    data[r.byteIndex - 1 + r.bits.start / 8..r.byteIndex + r.bits.end / 8]
  }

  function Field(data: Bytes, r: Record): nat
    requires r.bits.Range? && BoundsOk(r, |data|)
  {
    And(Shr(Combine(Span(data, r), r.byteOrder == 1), r.bits.start % 8), MaskOf(r.bits.end - r.bits.start + 1)) % U32
  }

  /** The value `parse_status` extracts for a record, if any. */
  function RawValue(data: Bytes, r: Record): Option<nat> {
    if r.byteIndex == 0 || r.byteIndex - 1 >= |data| then None
    else
      match r.bits
      case Single(bit) => if bit >= 8 then None else Some(And(Shr(data[r.byteIndex - 1], bit), 1))
      case Range(start, end) =>
        if start > end || end >= TotalBits(|data|) || r.byteIndex - 1 + end / 8 >= |data| || end - start + 1 > 32 then None
        else Some(Field(data, r))
  }

  function Typed(kind: string, raw: nat): Option<Value> {
    if kind == "uint" then Some(UInt(raw))
    else if kind == "bool" then Some(Bool(raw != 0))
    else if kind == "float" then Some(Hundredths(raw))
    else None
  }

  predicate Supported(kind: string) { kind == "uint" || kind == "bool" || kind == "float" }

  function Reading(data: Bytes, r: Record): Option<Value> {
    if RawValue(data, r).None? then None else Typed(r.kind, RawValue(data, r).value)
  }

  // ------------------------------------------------------- extraction against its check

  /** A record of a supported type yields a value exactly when the bounds check accepts it and, for a
      range, its end is below the frame's bit count as a 32-bit number. */
  lemma ExtractedExactly(data: Bytes, r: Record)
    requires Supported(r.kind)
    ensures Reading(data, r).Some? <==>
            BoundsOk(r, |data|) && (r.bits.Range? ==> r.bits.end < TotalBits(|data|))
  {
  }

  /** Below 2^29 bytes the extra condition never bites: the check is exact. */
  lemma CheckIsExact(data: Bytes, r: Record)
    requires Supported(r.kind) && |data| < 0x2000_0000
    ensures Reading(data, r).Some? <==> BoundsOk(r, |data|)
  {
    ExtractedExactly(data, r);
    if r.bits.Range? && BoundsOk(r, |data|) {
      assert TotalBits(|data|) == 8 * |data|;
      assert r.bits.end < 8 * (r.bits.end / 8 + 1) <= 8 * |data|;
    }
  }

  /** At 2^29 bytes it does: the count wraps to zero and an admitted range is skipped. */
  lemma CheckTooLenientOnHugeFrames(data: Bytes)
    requires |data| == 0x2000_0000
    ensures var r := Record("x", "uint", 1, Range(0, 0), 0);
            BoundsOk(r, |data|) && Reading(data, r) == None
  {
    assert TotalBits(|data|) == 0;
  }

  // ---------------------------------------------------------------------------- packets

  function Sum8(bytes: Bytes): Byte {
    if bytes == [] then 0 else ((Sum8(bytes[..|bytes| - 1]) as int) + (bytes[|bytes| - 1] as int)) % 256
  }

  /** The last byte is the sum of the others. */
  predicate VerifyChecksum(data: Bytes) {
    data != [] && Sum8(data[..|data| - 1]) == data[|data| - 1]
  }

  datatype Packet = Packet(address: Byte, command: Byte, len: Byte, status: Bytes, checksum: Byte)

  function ParseDataPacket(data: Bytes): Option<Packet> {
    if |data| < 4 then None
    else if (data[2] as int) + 2 != |data| - 3 then None
    else if !VerifyChecksum(data) then None
    else Some(Packet(data[0], data[1], data[2], data[3..|data| - 1], data[|data| - 1]))
  }

  /** The sum of some bytes. */
  function Total(bytes: Bytes): nat {
    if bytes == [] then 0 else Total(bytes[..|bytes| - 1]) + bytes[|bytes| - 1]
  }

  lemma {:induction false} Sum8IsTotal(bytes: Bytes)
    ensures Sum8(bytes) == Total(bytes) % 256
    decreases |bytes|
  {
    if bytes != [] { Sum8IsTotal(bytes[..|bytes| - 1]); }
  }

  /** A packet is accepted exactly when it is as long as it says and its last byte is the sum of the rest
      modulo 256; its status area is everything between the length byte and that sum. */
  lemma {:induction false} PacketExactly(data: Bytes)
    ensures ParseDataPacket(data).Some? <==>
            |data| >= 4 && |data| == (data[2] as int) + 5 && Total(data[..|data| - 1]) % 256 == data[|data| - 1] as int
    ensures ParseDataPacket(data).Some? ==>
            var p := ParseDataPacket(data).value;
            data == [p.address, p.command, p.len] + p.status + [p.checksum]
  {
    if data != [] { Sum8IsTotal(data[..|data| - 1]); }
  }

  /** A packet's status area is one byte longer than its length byte says, at most 256 bytes, so on every
      packet that is accepted extraction and bounds check agree. */
  lemma PacketCheckIsExact(data: Bytes, r: Record)
    requires Supported(r.kind) && ParseDataPacket(data).Some?
    ensures var status := ParseDataPacket(data).value.status;
      && |status| == (data[2] as int) + 1 <= 256
      && (Reading(status, r).Some? <==> BoundsOk(r, |status|))
  {
    CheckIsExact(ParseDataPacket(data).value.status, r);
  }

  // ------------------------------------------------------------------ bit-level meaning

  /** One byte more: nothing is shifted out of 64 bits, and the accumulator grows by eight bits. */
  lemma AccumulateBound(acc: nat, b: Byte, n: nat, bigEndian: bool)
    requires n <= 4 && acc < Pow2(8 * n)
    ensures Shl(acc, 8) < U64 && Shl(b, 8 * n) < U64
    ensures Accumulate(acc, b, n, bigEndian) < Pow2(8 * n + 8)
  {
    hide Pow2, Shl, Or;
    Pow2Values();
    ShlBound(acc, 8 * n, 8);
    ShlBound(b, 8, 8 * n);
    Pow2Mono(8, 8 * n + 8);
    Pow2Mono(8 * n, 8 * n + 8);
    Pow2Mono(8 * n + 8, 40);
    if bigEndian {
      OrBound(Shl(acc, 8), b, 8 * n + 8);
    } else {
      OrBound(acc, Shl(b, 8 * n), 8 * n + 8);
    }
  }

  /** The accumulator holds as many bits as it has been fed, so up to five bytes never leave 40 bits. */
  lemma {:induction false} CombineBound(bytes: Bytes, bigEndian: bool)
    requires |bytes| <= 5
    ensures Combine(bytes, bigEndian) < Pow2(8 * |bytes|) <= Pow2(40)
  {
    hide Pow2, Accumulate;
    Pow2Mono(0, 0);
    Pow2Mono(8 * |bytes|, 40);
    if bytes != [] {
      var init, b := bytes[..|bytes| - 1], bytes[|bytes| - 1];
      CombineBound(init, bigEndian);
      AccumulateBound(Combine(init, bigEndian), b, |init|, bigEndian);
    }
  }

  /** Little-endian: bit q of the accumulator is bit q mod 8 of byte q / 8; big-endian: counted from
      the last byte. */
  ghost predicate SpanBit(bytes: Bytes, bigEndian: bool, q: nat) {
    q / 8 < |bytes| && Bit(bytes[if bigEndian then |bytes| - 1 - q / 8 else q / 8], q % 8)
  }

  lemma AccumulateBits(acc: nat, b: Byte, n: nat, bigEndian: bool, q: nat)
    requires n <= 4 && acc < Pow2(8 * n)
    ensures Bit(Accumulate(acc, b, n, bigEndian), q) <==>
            if bigEndian then if q < 8 then Bit(b, q) else Bit(acc, q - 8)
            else if q < 8 * n then Bit(acc, q) else Bit(b, q - 8 * n)
  {
    hide Bit, Shl, Or, Pow2;
    AccumulateBound(acc, b, n, bigEndian);
    Pow2Values();
    if bigEndian {
      BitOr(Shl(acc, 8), b, q);
      BitShl(acc, 8, q);
      if q >= 8 { BitHigh(b, 8, q); }
    } else {
      BitOr(acc, Shl(b, 8 * n), q);
      BitShl(b, 8 * n, q);
      if q >= 8 * n { BitHigh(acc, 8 * n, q); }
    }
  }

  lemma {:induction false} CombineBits(bytes: Bytes, bigEndian: bool, q: nat)
    requires |bytes| <= 5
    ensures Bit(Combine(bytes, bigEndian), q) <==> SpanBit(bytes, bigEndian, q)
    decreases |bytes|
  {
    hide Bit, Accumulate, Pow2;
    if bytes == [] {
      BitZero(q);
    } else {
      var init, b := bytes[..|bytes| - 1], bytes[|bytes| - 1];
      CombineBound(init, bigEndian);
      AccumulateBits(Combine(init, bigEndian), b, |init|, bigEndian, q);
      if bigEndian {
        if q >= 8 { CombineBits(init, bigEndian, q - 8); }
      } else if q < 8 * |init| {
        CombineBits(init, bigEndian, q);
      } else if q >= 8 * |bytes| {
        Pow2Values();
        BitHigh(b, 8, q - 8 * |init|);
      }
    }
  }

  lemma MaskBits(n: nat, j: nat)
    requires n <= 32
    ensures MaskOf(n) < U32 && (Bit(MaskOf(n), j) <==> j < n)
  {
    BitMask(n, j);
    Pow2Values();
    Pow2Mono(n, 32);
    hide Bit, Pow2;
  }

  /** The bit a range's field shows at place `j`. */
  ghost predicate SourceBit(data: Bytes, r: Record, j: nat)
    requires r.bits.Range? && BoundsOk(r, |data|) && j <= r.bits.end - r.bits.start
  {
    var base := r.byteIndex - 1;
    if r.byteOrder == 1 then
      Bit(data[base + r.bits.end / 8 - (r.bits.start % 8 + j) / 8], (r.bits.start % 8 + j) % 8)
    else
      Bit(data[base + (r.bits.start + j) / 8], (r.bits.start + j) % 8)
  }

  lemma SpanIsSource(data: Bytes, r: Record, j: nat)
    requires r.bits.Range? && BoundsOk(r, |data|) && j <= r.bits.end - r.bits.start
    ensures |Span(data, r)| <= 5
    ensures SpanBit(Span(data, r), r.byteOrder == 1, r.bits.start % 8 + j) <==> SourceBit(data, r, j)
  {
    var s, o := r.bits.start, r.bits.start % 8;
    var lo := r.byteIndex - 1 + s / 8;
    assert s + j == 8 * (s / 8) + (o + j);
    assert (s + j) / 8 == s / 8 + (o + j) / 8 && (s + j) % 8 == (o + j) % 8;
    assert forall k :: 0 <= k < |Span(data, r)| ==> Span(data, r)[k] == data[lo + k];
    hide Bit;
  }

  /** THEOREM: a range's value is the number whose bit j is the record's bit start + j counted from
      its own byte (little-endian), or counted from the last byte of the span (big-endian), and no
      further bits. */
  lemma {:induction false} FieldMeaning(data: Bytes, r: Record, j: nat)
    requires r.bits.Range? && BoundsOk(r, |data|)
    ensures Field(data, r) < U32
    ensures Bit(Field(data, r), j) <==> j <= r.bits.end - r.bits.start && SourceBit(data, r, j)
  {
    hide Bit, Shr, And, Combine, MaskOf, Span, SpanBit, SourceBit;
    var n, o := r.bits.end - r.bits.start + 1, r.bits.start % 8;
    var acc := Combine(Span(data, r), r.byteOrder == 1);
    SpanIsSource(data, r, 0);
    MaskBits(n, j);
    AndBound(Shr(acc, o), MaskOf(n));
    BitAnd(Shr(acc, o), MaskOf(n), j);
    BitShr(acc, o, j);
    CombineBits(Span(data, r), r.byteOrder == 1, o + j);
    if j < n { SpanIsSource(data, r, j); }
  }

  /** That meaning fixes the value: no other number has these bits. */
  lemma FieldDetermined(data: Bytes, r: Record, x: nat)
    requires r.bits.Range? && BoundsOk(r, |data|)
    requires forall j: nat :: Bit(x, j) <==> j <= r.bits.end - r.bits.start && SourceBit(data, r, j)
    ensures x == Field(data, r)
  {
    hide Bit, Field, SourceBit;
    forall j: nat ensures Bit(x, j) == Bit(Field(data, r), j) {
      FieldMeaning(data, r, j);
    }
    BitsDetermine(x, Field(data, r));
  }

  /** A single bit reads as 0 or 1. */
  lemma SingleMeaning(b: Byte, bit: nat)
    ensures And(Shr(b, bit), 1) == if Bit(b, bit) then 1 else 0
  {
    var x := Shr(b, bit);
    BitShr(b, bit, 0);
    assert And(x / 2, 0) == 0;
  }

  /** A number as a record's kind shows it. */
  ghost predicate ShownAs(kind: string, x: nat, r: Option<Value>) {
    && (kind == "uint" ==> r == Some(UInt(x)))
    && (kind == "bool" ==> r == Some(Bool(x != 0)))
    && (kind == "float" ==> r == Some(Hundredths(x)))
    && (kind != "uint" && kind != "bool" && kind != "float" ==> r == None)
  }

  /** THEOREM: a single-bit record reads the named bit of its byte. */
  lemma SingleReading(data: Bytes, r: Record)
    requires r.bits.Single? && 1 <= r.byteIndex <= |data| && r.bits.bit < 8
    ensures ShownAs(r.kind, if Bit(data[r.byteIndex - 1], r.bits.bit) then 1 else 0, Reading(data, r))
    ensures r.kind == "bool" ==> Reading(data, r) == Some(Bool(Bit(data[r.byteIndex - 1], r.bits.bit)))
  {
    SingleMeaning(data[r.byteIndex - 1], r.bits.bit);
    hide And, Shr, Bit;
  }

  /** THEOREM: a range reads the number whose bits are the record's bits and no others. */
  lemma RangeReading(data: Bytes, r: Record, x: nat)
    requires r.bits.Range? && BoundsOk(r, |data|) && r.bits.end < TotalBits(|data|)
    requires forall j: nat :: Bit(x, j) <==> j <= r.bits.end - r.bits.start && SourceBit(data, r, j)
    ensures ShownAs(r.kind, x, Reading(data, r))
  {
    FieldDetermined(data, r, x);
    hide Bit, Field, SourceBit;
  }

  // ----------------------------------------------------------------------- the frame

  function Readings(data: Bytes, records: seq<Record>): map<string, Value> {
    if records == [] then map[]
    else
      var init, r := Readings(data, records[..|records| - 1]), records[|records| - 1];
      if Reading(data, r).Some? then init[r.kks := Reading(data, r).value] else init
  }

  /** Each name shows the reading of the last record that has one. */
  lemma {:induction false} ReadingsLastWins(data: Bytes, records: seq<Record>, name: string)
    ensures name in Readings(data, records) <==>
            exists i :: 0 <= i < |records| && records[i].kks == name && Reading(data, records[i]).Some?
    ensures name in Readings(data, records) ==>
            exists i :: 0 <= i < |records| && records[i].kks == name && Reading(data, records[i]) == Some(Readings(data, records)[name])
                        && forall j :: i < j < |records| && records[j].kks == name ==> Reading(data, records[j]).None?
    decreases |records|
  {
    hide Reading;
    if records != [] {
      var n := |records| - 1;
      var init := records[..n];
      ReadingsLastWins(data, init, name);
      assert records == init + [records[n]];
      if name in Readings(data, records) && !(records[n].kks == name && Reading(data, records[n]).Some?) {
        var i :| 0 <= i < |init| && init[i].kks == name && Reading(data, init[i]) == Some(Readings(data, init)[name])
                 && forall j :: i < j < |init| && init[j].kks == name ==> Reading(data, init[j]).None?;
        assert records[i] == init[i];
        assert forall j :: i < j < n ==> records[j] == init[j];
      }
    }
  }

  method CombineSpan(data: Bytes, from: nat, to: nat, bigEndian: bool) returns (acc: nat)
    requires from <= to <= |data|
    ensures acc == Combine(data[from..to], bigEndian)
  {
    acc := 0;
    for i := from to to
      invariant acc == Combine(data[from..i], bigEndian)
    {
      assert data[from..i + 1][..i - from] == data[from..i];
      acc := Accumulate(acc, data[i], i - from, bigEndian);
    }
  }

  method ParseStatus(data: Bytes, records: seq<Record>) returns (results: map<string, Value>)
    ensures results == Readings(data, records)
  {
    results := map[];
    for k := 0 to |records|
      invariant results == Readings(data, records[..k])
    {
      var r := records[k];
      assert records[..k + 1][..k] == records[..k];
      if r.byteIndex == 0 || r.byteIndex - 1 >= |data| { continue; }
      var base := r.byteIndex - 1;
      var raw: nat;
      match r.bits {
        case Single(bit) =>
          if bit >= 8 { continue; }
          raw := And(Shr(data[base], bit), 1);
        case Range(start, end) =>
          if start > end || end >= TotalBits(|data|) { continue; }
          if base + end / 8 >= |data| || end - start + 1 > 32 { continue; }
          var combined := CombineSpan(data, base + start / 8, base + end / 8 + 1, r.byteOrder == 1);
          raw := And(Shr(combined, start % 8), MaskOf(end - start + 1)) % U32;
      }
      var value := Typed(r.kind, raw);
      if value.None? { continue; }
      results := results[r.kks := value.value];
    }
    assert records[..|records|] == records;
  }
}
