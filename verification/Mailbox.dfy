/** The two unit report layouts: which bytes of a payload each field owns. */
module UnitReport {
  import opened Basics
  import opened Points

  datatype Layout = Unit1To9 | Unit9To1

  /** Field names; `Unknown` stands for every text that names no field. */
  datatype Name =
    | NBlock
    | DetectorTemp3 | DetectorTemp6 | Akons | PumpStation
    | SgcState | Gmm1 | PumpStation0
    | Fire(building: nat)
    | Unknown(text: string)

  datatype Kind = Unsigned | Hex | FireState

  datatype Field = Field(name: Name, offset: nat, len: nat, kind: Kind)

  function PayloadLen(l: Layout): nat {
    match l
    case Unit1To9 => 1156
    case Unit9To1 => 105
  }

  function Block(l: Layout): Byte {
    match l
    case Unit1To9 => 1
    case Unit9To1 => 9
  }

  function FireFields(count: nat, offset: nat): seq<Field> {
    seq(count, i requires 0 <= i => Field(Fire(i), offset + i * 5, 5, FireState))
  }

  function Inputs(l: Layout): seq<Field> {
    match l
    case Unit1To9 =>
      [Field(DetectorTemp3, 2, 1, Unsigned), Field(DetectorTemp6, 3, 1, Unsigned),
       Field(Akons, 4, 969, Hex), Field(PumpStation, 973, 8, Hex)] + FireFields(35, 981)
    case Unit9To1 =>
      [Field(SgcState, 2, 5, Hex), Field(Gmm1, 7, 35, Hex), Field(PumpStation0, 42, 8, Hex)] + FireFields(11, 50)
  }

  function Fields(l: Layout): seq<Field> {
    [Field(NBlock, 0, 2, Unsigned)] + Inputs(l)
  }

  function Slice(p: Bytes, f: Field): Bytes
    requires f.offset + f.len <= |p|
  {
    p[f.offset..f.offset + f.len]
  }

  predicate ValidPayload(l: Layout, p: Bytes) {
    |p| == PayloadLen(l) && p[0] == Block(l) && p[1] == 0
  }

  function Template(l: Layout): (p: Bytes)
    ensures ValidPayload(l, p)
  {
    [Block(l), 0] + seq(PayloadLen(l) - 2, _ => 0)
  }

  // ------------------------------------------------------------------------- tiling

  /** The inputs lie end to end from byte 2 to the last byte. */
  lemma {:induction false} InputsTile(l: Layout)
    ensures var fs := Inputs(l);
      && |fs| > 0 && fs[0].offset == 2 && fs[|fs| - 1].offset + fs[|fs| - 1].len == PayloadLen(l)
      && (forall i :: 0 <= i < |fs| - 1 ==> fs[i].offset + fs[i].len == fs[i + 1].offset)
      && (forall i :: 0 <= i < |fs| ==> fs[i].len > 0)
      && (forall i :: 0 <= i < |fs| && fs[i].kind == Unsigned ==> fs[i].len == 1)
      && (forall i :: 0 <= i < |fs| && fs[i].kind == FireState ==> fs[i].len == 5)
  {
    hide Inputs;
    InputsNonempty(l);
    var fs := Inputs(l);
    InputAt(l, 0);
    forall i | 0 <= i < |fs| - 1 ensures fs[i].offset + fs[i].len == fs[i + 1].offset {
      InputAt(l, i);
      InputAt(l, i + 1);
    }
    forall i | 0 <= i < |fs|
      ensures fs[i].len > 0 && (fs[i].kind == Unsigned ==> fs[i].len == 1) && (fs[i].kind == FireState ==> fs[i].len == 5)
    {
      InputAt(l, i);
    }
    InputAt(l, |fs| - 1);
  }

  lemma InputsNonempty(l: Layout)
    ensures |Inputs(l)| > 0
  {
  }

  /** The inputs one by one. */
  lemma InputAt(l: Layout, i: nat)
    requires i < |Inputs(l)|
    ensures match l
      case Unit1To9 =>
        && |Inputs(l)| == 39
        && (i == 0 ==> Inputs(l)[i] == Field(DetectorTemp3, 2, 1, Unsigned))
        && (i == 1 ==> Inputs(l)[i] == Field(DetectorTemp6, 3, 1, Unsigned))
        && (i == 2 ==> Inputs(l)[i] == Field(Akons, 4, 969, Hex))
        && (i == 3 ==> Inputs(l)[i] == Field(PumpStation, 973, 8, Hex))
        && (i >= 4 ==> Inputs(l)[i] == Field(Fire(i - 4), 981 + (i - 4) * 5, 5, FireState))
      case Unit9To1 =>
        && |Inputs(l)| == 14
        && (i == 0 ==> Inputs(l)[i] == Field(SgcState, 2, 5, Hex))
        && (i == 1 ==> Inputs(l)[i] == Field(Gmm1, 7, 35, Hex))
        && (i == 2 ==> Inputs(l)[i] == Field(PumpStation0, 42, 8, Hex))
        && (i >= 3 ==> Inputs(l)[i] == Field(Fire(i - 3), 50 + (i - 3) * 5, 5, FireState))
  {
  }

  /** With the unit identity in front, the fields of a layout tile the whole payload. */
  lemma {:induction false} FieldsTile(l: Layout)
    ensures var fs := Fields(l);
      && fs[0].offset == 0 && fs[|fs| - 1].offset + fs[|fs| - 1].len == PayloadLen(l)
      && (forall i :: 0 <= i < |fs| - 1 ==> fs[i].offset + fs[i].len == fs[i + 1].offset)
  {
    InputsTile(l);
    hide Inputs;
    var fs := Fields(l);
    forall i | 0 <= i < |fs| - 1 ensures fs[i].offset + fs[i].len == fs[i + 1].offset {
      if i > 0 { assert fs[i] == Inputs(l)[i - 1] && fs[i + 1] == Inputs(l)[i - 1 + 1]; }
    }
  }

  lemma NamesDistinct(l: Layout, i: nat, j: nat)
    requires i < j < |Inputs(l)|
    ensures Inputs(l)[i].name != Inputs(l)[j].name && Inputs(l)[i].name != NBlock && Inputs(l)[j].name != NBlock
  {
    hide Inputs;
    InputAt(l, i);
    InputAt(l, j);
  }

  lemma {:induction false} InputsOrdered(l: Layout, i: nat, j: nat)
    requires i < j < |Inputs(l)|
    ensures Inputs(l)[i].offset + Inputs(l)[i].len <= Inputs(l)[j].offset
    decreases j
  {
    InputsTile(l);
    hide Inputs;
    if i < j - 1 {
      InputsOrdered(l, i, j - 1);
    }
  }

  /** Every input lies inside the payload, after the header. */
  lemma InputInside(l: Layout, i: nat)
    requires i < |Inputs(l)|
    ensures 2 <= Inputs(l)[i].offset && Inputs(l)[i].offset + Inputs(l)[i].len <= PayloadLen(l)
  {
    InputsTile(l);
    hide Inputs;
    var last := |Inputs(l)| - 1;
    if 0 < i { InputsOrdered(l, 0, i); }
    if i < last { InputsOrdered(l, i, last); }
  }

  predicate Owns(f: Field, at: nat) {
    f.offset <= at < f.offset + f.len
  }

  /** Each payload byte after the header belongs to exactly one input. */
  lemma ByteHasOneOwner(l: Layout, at: nat) returns (i: nat)
    requires 2 <= at < PayloadLen(l)
    ensures i < |Inputs(l)| && Owns(Inputs(l)[i], at)
    ensures forall j :: 0 <= j < |Inputs(l)| && Owns(Inputs(l)[j], at) ==> j == i
  {
    InputsTile(l);
    i := 0;
    hide Inputs;
    while at >= Inputs(l)[i].offset + Inputs(l)[i].len
      invariant i < |Inputs(l)| && Inputs(l)[i].offset <= at
      decreases |Inputs(l)| - i
    {
      i := i + 1;
    }
    forall j | 0 <= j < |Inputs(l)| && Owns(Inputs(l)[j], at) ensures j == i {
      if j < i { InputsOrdered(l, j, i); }
      if i < j { InputsOrdered(l, i, j); }
    }
  }

  /** A payload is determined by its header and its input slices. */
  lemma SlicesDetermine(l: Layout, p: Bytes, q: Bytes)
    requires ValidPayload(l, p) && ValidPayload(l, q)
    requires forall i :: 0 <= i < |Inputs(l)| ==>
               Inputs(l)[i].offset + Inputs(l)[i].len <= PayloadLen(l) && Slice(p, Inputs(l)[i]) == Slice(q, Inputs(l)[i])
    ensures p == q
  {
    hide Inputs;
    forall at | 2 <= at < |p| ensures p[at] == q[at] {
      var i := ByteHasOneOwner(l, at);
      var f := Inputs(l)[i];
      assert Slice(p, f)[at - f.offset] == Slice(q, f)[at - f.offset];
    }
  }

  // ---------------------------------------------------------------- field encodings

  const FIRE_STATES: seq<Bytes> := [
    [0x0a, 0x85, 0, 6, 0], [1, 0x88, 0, 7, 0], [1, 0xc8, 0, 7, 0], [5, 0x86, 0, 0x0c, 0],
    [5, 0xa6, 0, 0x0c, 0], [6, 0x82, 0, 0x12, 0], [6, 0xc2, 0, 0x12, 0], [9, 0x85, 0, 4, 0]
  ]

  /** The code of the first matching table entry from `i` on, 0 when there is none. */
  function CodeFrom(bytes: Bytes, i: nat): (code: nat)
    requires i <= 8
    ensures code == 0 <==> forall k :: i <= k < 8 ==> FIRE_STATES[k] != bytes
    ensures code != 0 ==> i < code <= 8 && FIRE_STATES[code - 1] == bytes
    decreases 8 - i
  {
    if i == 8 then 0 else if FIRE_STATES[i] == bytes then i + 1 else CodeFrom(bytes, i + 1)
  }

  function FireCode(bytes: Bytes): nat { CodeFrom(bytes, 0) }

  function FireBytes(code: nat): Option<Bytes> {
    if 1 <= code <= 8 then Some(FIRE_STATES[code - 1]) else None
  }

  lemma FireStatesDiffer(i: nat, j: nat)
    requires i < j < 8
    ensures FIRE_STATES[i] != FIRE_STATES[j]
  {
    assert FIRE_STATES[i][1] != FIRE_STATES[j][1] || FIRE_STATES[i][0] != FIRE_STATES[j][0];
  }

  /** The table is a bijection between codes 1..8 and the known byte patterns. */
  lemma FireTableInverse(code: nat, bytes: Bytes)
    ensures FireBytes(code).Some? ==> FireCode(FireBytes(code).value) == code && |FireBytes(code).value| == 5
    ensures FireCode(bytes) != 0 ==> FireBytes(FireCode(bytes)) == Some(bytes)
    ensures FireBytes(code).Some? <==> 1 <= code <= 8
    ensures FireCode(bytes) == 0 <==> bytes !in FIRE_STATES
  {
    if 1 <= code <= 8 {
      var c := FireCode(FIRE_STATES[code - 1]);
      if c < code { FireStatesDiffer(c - 1, code - 1); }
      if code < c { FireStatesDiffer(code - 1, c - 1); }
    }
  }

  /** The pattern of each code. */
  lemma FireCodes()
    ensures FireCode([0x0a, 0x85, 0x00, 0x06, 0x00]) == 1 && FireCode([0x01, 0x88, 0x00, 0x07, 0x00]) == 2
    ensures FireCode([0x01, 0xc8, 0x00, 0x07, 0x00]) == 3 && FireCode([0x05, 0x86, 0x00, 0x0c, 0x00]) == 4
    ensures FireCode([0x05, 0xa6, 0x00, 0x0c, 0x00]) == 5 && FireCode([0x06, 0x82, 0x00, 0x12, 0x00]) == 6
    ensures FireCode([0x06, 0xc2, 0x00, 0x12, 0x00]) == 7 && FireCode([0x09, 0x85, 0x00, 0x04, 0x00]) == 8
  {
    hide FireCode;
    FireTableInverse(1, []);
    FireTableInverse(2, []);
    FireTableInverse(3, []);
    FireTableInverse(4, []);
    FireTableInverse(5, []);
    FireTableInverse(6, []);
    FireTableInverse(7, []);
    FireTableInverse(8, []);
  }

  function HexDigit(n: nat): Byte
    requires n < 16
  {
    if n < 10 then 0x30 + n else 0x41 + (n - 10)
  }

  predicate Ascii(text: Bytes) {
    forall i :: 0 <= i < |text| ==> text[i] < 128
  }

  function HexPair(x: Byte): (text: Bytes)
    ensures |text| == 2 && Ascii(text)
  {
    [HexDigit(x / 16), HexDigit(x % 16)]
  }

  /** Upper-case hexadecimal, two digits a byte. */
  function HexText(bytes: Bytes): (text: Bytes)
    ensures |text| == 2 * |bytes| && Ascii(text)
  {
    if bytes == [] then [] else HexText(bytes[..|bytes| - 1]) + HexPair(bytes[|bytes| - 1])
  }

  method PrintHex(bytes: Bytes) returns (text: Bytes)
    ensures text == HexText(bytes)
  {
    text := [];
    for i := 0 to |bytes|
      invariant text == HexText(bytes[..i])
    {
      assert bytes[..i + 1][..i] == bytes[..i];
      text := text + HexPair(bytes[i]);
    }
    assert bytes[..|bytes|] == bytes;
  }

  function DigitValue(c: Byte): Option<nat> {
    if 0x30 <= c <= 0x39 then Some(c - 0x30)
    else if 0x41 <= c <= 0x46 then Some(c - 0x41 + 10)
    else if 0x61 <= c <= 0x66 then Some(c - 0x61 + 10)
    else None
  }

  /** Two characters as an unsigned radix-16 number; a leading plus sign is allowed, a minus is not. */
  function PairValue(hi: Byte, lo: Byte): (r: Option<Byte>)
    ensures r.Some? ==> DigitValue(lo).Some? && r.value % 16 == DigitValue(lo).value
  {
    if hi == 0x2b then
      if DigitValue(lo).Some? then Some(DigitValue(lo).value) else None
    else if DigitValue(hi).Some? && DigitValue(lo).Some? then
      Some(DigitValue(hi).value * 16 + DigitValue(lo).value)
    else None
  }

  function ParseHex(text: Bytes): (r: Option<Bytes>)
    requires |text| % 2 == 0
    ensures r.Some? ==> 2 * |r.value| == |text|
  {
    if text == [] then Some([])
    else
      var n := |text| - 2;
      var init := ParseHex(text[..n]);
      var last := PairValue(text[n], text[n + 1]);
      if init.Some? && last.Some? then Some(init.value + [last.value]) else None
  }

  lemma PairPrinted(x: Byte)
    ensures PairValue(HexPair(x)[0], HexPair(x)[1]) == Some(x)
  {
  }

  lemma ParsePair(text: Bytes, bytes: Bytes, pair: Bytes, x: Byte)
    requires |text| % 2 == 0 && ParseHex(text) == Some(bytes) && |pair| == 2 && PairValue(pair[0], pair[1]) == Some(x)
    ensures ParseHex(text + pair) == Some(bytes + [x])
  {
    hide PairValue;
    assert (text + pair)[..|text|] == text;
  }

  lemma {:induction false} ParsePrinted(bytes: Bytes)
    ensures ParseHex(HexText(bytes)) == Some(bytes)
  {
    if bytes == [] {
      assert HexText(bytes) == [];
    } else {
      var init, x := bytes[..|bytes| - 1], bytes[|bytes| - 1];
      assert HexText(bytes) == HexText(init) + HexPair(x);
      hide *;
      assert bytes == init + [x];
      ParsePrinted(init);
      PairPrinted(x);
      ParsePair(HexText(init), init, HexPair(x), x);
    }
  }

  /** A hexadecimal digit of either case. */
  ghost predicate Denotes(c: Byte, d: int) {
    (0 <= d < 10 && c as int == 0x30 + d) || (10 <= d < 16 && (c as int == 0x41 + d - 10 || c as int == 0x61 + d - 10))
  }

  /** Two characters stand for a byte: two digits, or a plus sign and one. */
  ghost predicate PairReads(hi: Byte, lo: Byte, x: Byte) {
    Denotes(lo, x % 16) && (Denotes(hi, x / 16) || (hi == 0x2b && x < 16))
  }

  lemma PairIs(hi: Byte, lo: Byte, x: Byte)
    ensures PairValue(hi, lo) == Some(x) <==> PairReads(hi, lo, x)
  {
  }

  lemma {:induction false} ParseHexExactly(text: Bytes, bytes: Bytes)
    requires |text| % 2 == 0
    ensures ParseHex(text) == Some(bytes) <==>
            2 * |bytes| == |text| && forall i :: 0 <= i < |bytes| ==> PairReads(text[2 * i], text[2 * i + 1], bytes[i])
    decreases |text|
  {
    hide PairReads, PairValue;
    if text != [] && 2 * |bytes| == |text| {
      var n := |text| - 2;
      var init, x := bytes[..|bytes| - 1], bytes[|bytes| - 1];
      assert bytes == init + [x];
      ParseHexExactly(text[..n], init);
      PairIs(text[n], text[n + 1], x);
      assert 2 * (|bytes| - 1) == n;
    }
  }

  /** Printed hexadecimal reads back digit by digit, in upper case. */
  lemma {:induction false} HexTextReads(bytes: Bytes, i: nat)
    requires i < |bytes|
    ensures PairReads(HexText(bytes)[2 * i], HexText(bytes)[2 * i + 1], bytes[i])
    ensures HexText(bytes)[2 * i] < 0x61 && HexText(bytes)[2 * i + 1] < 0x61
    ensures HexText(bytes)[2 * i] != 0x2b
    decreases |bytes|
  {
    if i < |bytes| - 1 { HexTextReads(bytes[..|bytes| - 1], i); }
  }

  // ------------------------------------------------------------------------- fields

  /** The bytes a value occupies in a field, if the field takes it. */
  function FieldBytes(f: Field, v: Value): Option<Bytes> {
    match f.kind
    case Unsigned => if v.UInt32Value? && v.n <= 255 then Some([v.n]) else None
    case FireState => if v.UInt32Value? then FireBytes(v.n) else None
    case Hex => if v.TextValue? && |v.utf8| == f.len * 2 && Ascii(v.utf8) then ParseHex(v.utf8) else None
  }

  /** Which values a field takes, and as which bytes: a number up to 255 as one byte, a known fire state by
      its code, a text of two hexadecimal digits for each byte. */
  lemma {:induction false} FieldBytesExactly(f: Field, v: Value, bytes: Bytes)
    ensures FieldBytes(f, v) == Some(bytes) <==>
      (match f.kind
       case Unsigned => v.UInt32Value? && v.n <= 255 && bytes == [v.n]
       case FireState => v.UInt32Value? && 1 <= v.n <= 8 && bytes == FIRE_STATES[v.n - 1]
       case Hex =>
         && v.TextValue? && |v.utf8| == 2 * f.len && Ascii(v.utf8) && |bytes| == f.len
         && forall i :: 0 <= i < |bytes| ==> PairReads(v.utf8[2 * i], v.utf8[2 * i + 1], bytes[i]))
  {
    hide PairReads, ParseHex;
    if f.kind.Hex? && v.TextValue? && |v.utf8| == f.len * 2 { ParseHexExactly(v.utf8, bytes); }
  }

  /** What a receiver reads from each kind of field. */
  lemma {:induction false} FieldValueMeaning(f: Field, bytes: Bytes)
    requires |bytes| == f.len && f.len > 0
    ensures f.kind.Unsigned? && f.len == 1 ==> FieldValue(f, bytes) == UInt32Value(bytes[0])
    ensures f.kind.Unsigned? && f.len == 2 ==> FieldValue(f, bytes) == UInt32Value((bytes[0] as int) + 0x100 * (bytes[1] as int))
    ensures f.kind.FireState? ==>
      var v := FieldValue(f, bytes);
      && v.UInt32Value? && (v.n == 0 <==> bytes !in FIRE_STATES) && (v.n > 0 ==> v.n <= 8 && FIRE_STATES[v.n - 1] == bytes)
    ensures f.kind.Hex? ==>
      var v := FieldValue(f, bytes);
      && v.TextValue? && |v.utf8| == 2 * |bytes|
      && forall i :: 0 <= i < |bytes| ==> PairReads(v.utf8[2 * i], v.utf8[2 * i + 1], bytes[i])
  {
    hide PairReads, HexText;
    FireTableInverse(0, bytes);
    if f.kind.Hex? {
      forall i | 0 <= i < |bytes| ensures PairReads(HexText(bytes)[2 * i], HexText(bytes)[2 * i + 1], bytes[i]) {
        HexTextReads(bytes, i);
      }
    }
  }

  /** The unit identity reads as 1 or 9. */
  lemma IdentityReads(l: Layout, p: Bytes)
    requires ValidPayload(l, p)
    ensures FieldValue(Fields(l)[0], Slice(p, Fields(l)[0])) == UInt32Value(if l == Unit1To9 then 1 else 9)
  {
    hide Inputs;
    assert Slice(p, Fields(l)[0]) == p[0..2];
  }

  lemma FieldBytesFit(l: Layout, i: nat, v: Value)
    requires i < |Inputs(l)|
    ensures FieldBytes(Inputs(l)[i], v).Some? ==> |FieldBytes(Inputs(l)[i], v).value| == Inputs(l)[i].len
  {
    InputsTile(l);
    if v.UInt32Value? { FireTableInverse(v.n, []); }
  }

  /** The value a receiver reads from a field. */
  function FieldValue(f: Field, bytes: Bytes): Value
    requires |bytes| == f.len && f.len > 0
  {
    match f.kind
    case Unsigned => UInt32Value(if |bytes| == 2 then (bytes[0] as int) + 0x100 * (bytes[1] as int) else bytes[0])
    case Hex => TextValue(HexText(bytes))
    case FireState => UInt32Value(FireCode(bytes))
  }

  /** Reading back a field gives its bytes, except a fire slot outside the table. */
  lemma FieldRoundTrip(l: Layout, i: nat, bytes: Bytes)
    requires i < |Inputs(l)| && |bytes| == Inputs(l)[i].len > 0
    ensures var f := Inputs(l)[i];
            if f.kind == FireState && bytes !in FIRE_STATES then FieldBytes(f, FieldValue(f, bytes)) == None
            else FieldBytes(f, FieldValue(f, bytes)) == Some(bytes)
  {
    InputsTile(l);
    hide Inputs;
    match Inputs(l)[i].kind
    case Unsigned => assert bytes == [bytes[0]];
    case Hex => ParsePrinted(bytes);
    case FireState => FireTableInverse(0, bytes);
  }

  /** Position of the input a name denotes; the unit identity is not an input. */
  function Lookup(fs: seq<Field>, name: Name): (r: Option<nat>)
    ensures r.Some? ==> r.value < |fs| && fs[r.value].name == name
    ensures r == None <==> forall i :: 0 <= i < |fs| ==> fs[i].name != name
  {
    if fs == [] then None
    else if fs[0].name == name then Some(0)
    else
      var r := Lookup(fs[1..], name);
      if r.None? then
        assert forall i :: 1 <= i < |fs| ==> fs[i] == fs[1..][i - 1];
        None
      else Some(r.value + 1)
  }

  lemma LookupAt(l: Layout, i: nat)
    requires i < |Inputs(l)|
    ensures Lookup(Inputs(l), Inputs(l)[i].name) == Some(i)
  {
    var k := Lookup(Inputs(l), Inputs(l)[i].name).value;
    if k < i { NamesDistinct(l, k, i); }
    if i < k { NamesDistinct(l, i, k); }
  }

  function Splice(p: Bytes, offset: nat, bytes: Bytes): (q: Bytes)
    requires offset + |bytes| <= |p|
    ensures |q| == |p|
  {
    p[..offset] + bytes + p[offset + |bytes|..]
  }

  /** The bytes a name and a value stand for, or nothing when the write is refused. */
  function InputBytes(l: Layout, name: Name, v: Value): Option<Bytes> {
    match Lookup(Inputs(l), name)
    case None => None
    case Some(i) => FieldBytes(Inputs(l)[i], v)
  }

  function WriteField(l: Layout, name: Name, v: Value, p: Bytes): (r: Option<Bytes>)
    ensures r.Some? <==> ValidPayload(l, p) && InputBytes(l, name, v).Some?
  {
    if !ValidPayload(l, p) || InputBytes(l, name, v).None? then None
    else
      var i := Lookup(Inputs(l), name).value;
      FieldBytesFit(l, i, v);
      InputInside(l, i);
      Some(Splice(p, Inputs(l)[i].offset, InputBytes(l, name, v).value))
  }

  lemma SpliceSlices(p: Bytes, at: nat, bytes: Bytes, f: Field)
    requires at + |bytes| <= |p| && f.offset + f.len <= |p|
    ensures f.offset == at && f.len == |bytes| ==> Slice(Splice(p, at, bytes), f) == bytes
    ensures at + |bytes| <= f.offset || f.offset + f.len <= at ==> Slice(Splice(p, at, bytes), f) == Slice(p, f)
    ensures 2 <= at ==> Splice(p, at, bytes)[0] == p[0] && Splice(p, at, bytes)[1] == p[1]
  {
    var q := Splice(p, at, bytes);
    assert forall k :: 0 <= k < |p| ==> q[k] == if at <= k < at + |bytes| then bytes[k - at] else p[k];
  }

  /** A write replaces its own slice and leaves the header and every other slice alone. */
  lemma {:induction false} WriteLands(l: Layout, name: Name, v: Value, p: Bytes, j: nat)
    requires WriteField(l, name, v, p).Some? && j < |Inputs(l)|
    ensures var f := Inputs(l)[j]; var q := WriteField(l, name, v, p).value;
      && ValidPayload(l, q) && f.offset + f.len <= PayloadLen(l)
      && Slice(q, f) == if f.name == name then InputBytes(l, name, v).value else Slice(p, f)
  {
    hide Inputs, FieldBytes, Splice, Slice, Lookup;
    var i := Lookup(Inputs(l), name).value;
    FieldBytesFit(l, i, v);
    InputInside(l, i);
    InputInside(l, j);
    LookupAt(l, j);
    if i < j { InputsOrdered(l, i, j); }
    if j < i { InputsOrdered(l, j, i); }
    SpliceSlices(p, Inputs(l)[i].offset, InputBytes(l, name, v).value, Inputs(l)[j]);
  }

  // ------------------------------------------------------------------ what a payload holds

  /** Every recorded input can be written. */
  ghost predicate Writable(l: Layout, inputs: map<Name, Value>) {
    forall n :: n in inputs ==> InputBytes(l, n, inputs[n]).Some?
  }

  /** The slice a payload shows for one input: its latest value, or the template's zeros. */
  ghost predicate Shows(l: Layout, p: Bytes, inputs: map<Name, Value>, i: nat)
    requires |p| == PayloadLen(l) && Writable(l, inputs) && i < |Inputs(l)|
  {
    var f := Inputs(l)[i];
    && f.offset + f.len <= |p|
    && Slice(p, f) == if f.name in inputs then InputBytes(l, f.name, inputs[f.name]).value else seq(f.len, _ => 0)
  }

  /** The payload is the template with each field's latest value written in. */
  ghost predicate Holds(l: Layout, p: Bytes, inputs: map<Name, Value>) {
    && ValidPayload(l, p) && Writable(l, inputs)
    && forall i :: 0 <= i < |Inputs(l)| ==> Shows(l, p, inputs, i)
  }

  lemma TemplateHolds(l: Layout)
    ensures Holds(l, Template(l), map[])
  {
    forall i | 0 <= i < |Inputs(l)| ensures Shows(l, Template(l), map[], i) {
      InputInside(l, i);
    }
  }

  /** The field map determines the payload. */
  lemma HoldsUnique(l: Layout, p: Bytes, q: Bytes, inputs: map<Name, Value>)
    requires Holds(l, p, inputs) && Holds(l, q, inputs)
    ensures p == q
  {
    hide Inputs, InputBytes;
    forall i | 0 <= i < |Inputs(l)|
      ensures Inputs(l)[i].offset + Inputs(l)[i].len <= PayloadLen(l) && Slice(p, Inputs(l)[i]) == Slice(q, Inputs(l)[i])
    {
      assert Shows(l, p, inputs, i) && Shows(l, q, inputs, i);
    }
    SlicesDetermine(l, p, q);
  }

  /** Writing a field is updating the field map. */
  lemma WriteKeepsHolds(l: Layout, name: Name, v: Value, p: Bytes, inputs: map<Name, Value>)
    requires Holds(l, p, inputs) && InputBytes(l, name, v).Some?
    ensures WriteField(l, name, v, p).Some? && Holds(l, WriteField(l, name, v, p).value, inputs[name := v])
  {
    hide Inputs, InputBytes, WriteField;
    var q := WriteField(l, name, v, p).value;
    InputsTile(l);
    assert ValidPayload(l, q) by { WriteLands(l, name, v, p, 0); }
    forall i {:trigger Inputs(l)[i]} | 0 <= i < |Inputs(l)| ensures Shows(l, q, inputs[name := v], i) {
      assert Shows(l, p, inputs, i);
      WriteLands(l, name, v, p, i);
    }
  }

  // -------------------------------------------------------------------- runs of writes

  datatype Write = Write(name: Name, value: Value)

  /** A run of writes, stopping at the first refusal. */
  function WriteAll(l: Layout, writes: seq<Write>): Option<Bytes> {
    if writes == [] then Some(Template(l))
    else
      var before := WriteAll(l, writes[..|writes| - 1]);
      var w := writes[|writes| - 1];
      if before.None? then None else WriteField(l, w.name, w.value, before.value)
  }

  /** Last write wins. */
  function Latest(writes: seq<Write>): map<Name, Value> {
    if writes == [] then map[]
    else Latest(writes[..|writes| - 1])[writes[|writes| - 1].name := writes[|writes| - 1].value]
  }

  lemma {:induction false} WriteAllHolds(l: Layout, writes: seq<Write>)
    ensures WriteAll(l, writes).Some? <==> forall i :: 0 <= i < |writes| ==> InputBytes(l, writes[i].name, writes[i].value).Some?
    ensures WriteAll(l, writes).Some? ==> Holds(l, WriteAll(l, writes).value, Latest(writes))
  {
    hide InputBytes, WriteField, Holds;
    if writes == [] {
      TemplateHolds(l);
    } else {
      var init, w := writes[..|writes| - 1], writes[|writes| - 1];
      WriteAllHolds(l, init);
      if WriteAll(l, init).Some? && InputBytes(l, w.name, w.value).Some? {
        WriteKeepsHolds(l, w.name, w.value, WriteAll(l, init).value, Latest(init));
      }
    }
  }

  /** Order is irrelevant: two runs of accepted writes that agree on each field's latest value build
      the same payload. */
  lemma WriteOrderIrrelevant(l: Layout, a: seq<Write>, b: seq<Write>)
    requires WriteAll(l, a).Some? && WriteAll(l, b).Some? && Latest(a) == Latest(b)
    ensures WriteAll(l, a) == WriteAll(l, b)
  {
    hide Holds, WriteAll, Latest;
    WriteAllHolds(l, a);
    WriteAllHolds(l, b);
    HoldsUnique(l, WriteAll(l, a).value, WriteAll(l, b).value, Latest(a));
  }

  /** What the receiver reports for each input. */
  function Decoded(l: Layout, p: Bytes): seq<Write>
    requires ValidPayload(l, p)
  {
    seq(|Inputs(l)|, i requires 0 <= i < |Inputs(l)| =>
      (InputInside(l, i); InputsTile(l); Write(Inputs(l)[i].name, FieldValue(Inputs(l)[i], Slice(p, Inputs(l)[i])))))
  }

  /** The slot of an input as the receiver sees it is a fire pattern outside the table. */
  ghost predicate UnknownFire(l: Layout, p: Bytes, i: nat)
    requires ValidPayload(l, p) && i < |Inputs(l)|
  {
    InputInside(l, i);
    Inputs(l)[i].kind == FireState && Slice(p, Inputs(l)[i]) !in FIRE_STATES
  }

  lemma {:induction false} LatestDecoded(l: Layout, p: Bytes, k: nat, i: nat)
    requires ValidPayload(l, p) && i < k <= |Inputs(l)|
    ensures Decoded(l, p)[i].name in Latest(Decoded(l, p)[..k])
    ensures Latest(Decoded(l, p)[..k])[Decoded(l, p)[i].name] == Decoded(l, p)[i].value
    decreases k
  {
    var d := Decoded(l, p);
    assert d[..k][..k - 1] == d[..k - 1];
    if i < k - 1 {
      LatestDecoded(l, p, k - 1, i);
      NamesDistinct(l, i, k - 1);
    }
  }

  lemma {:induction false} DecodedBytes(l: Layout, p: Bytes, i: nat)
    requires ValidPayload(l, p) && i < |Inputs(l)|
    ensures Inputs(l)[i].offset + Inputs(l)[i].len <= |p| && Decoded(l, p)[i].name == Inputs(l)[i].name
    ensures InputBytes(l, Decoded(l, p)[i].name, Decoded(l, p)[i].value)
         == if UnknownFire(l, p, i) then None else Some(Slice(p, Inputs(l)[i]))
  {
    InputInside(l, i);
    InputsTile(l);
    LookupAt(l, i);
    FieldRoundTrip(l, i, Slice(p, Inputs(l)[i]));
    hide Inputs, FieldBytes, FieldValue, Lookup;
  }

  /** Decoding a snapshot and rewriting every field restores it byte for byte exactly when each of its
      fire slots is a known state; otherwise the rewriting is refused. */
  lemma {:induction false} RewriteRestores(l: Layout, p: Bytes)
    requires ValidPayload(l, p)
    ensures (exists i :: 0 <= i < |Inputs(l)| && UnknownFire(l, p, i)) ==> WriteAll(l, Decoded(l, p)) == None
    ensures (forall i :: 0 <= i < |Inputs(l)| ==> !UnknownFire(l, p, i)) ==> WriteAll(l, Decoded(l, p)) == Some(p)
  {
    hide Inputs, WriteAll, InputBytes, UnknownFire, Decoded, Holds;
    var d := Decoded(l, p);
    WriteAllHolds(l, d);
    DecodedWritable(l, p);
    if WriteAll(l, d).Some? {
      DecodedHeld(l, p, WriteAll(l, d).value);
    }
  }

  lemma {:induction false} DecodedWritable(l: Layout, p: Bytes)
    requires ValidPayload(l, p)
    ensures var d := Decoded(l, p);
      && |d| == |Inputs(l)|
      && forall i :: 0 <= i < |d| ==> (InputBytes(l, d[i].name, d[i].value).Some? <==> !UnknownFire(l, p, i))
  {
    hide Inputs, InputBytes, UnknownFire;
    forall i | 0 <= i < |Inputs(l)|
      ensures InputBytes(l, Decoded(l, p)[i].name, Decoded(l, p)[i].value).Some? <==> !UnknownFire(l, p, i)
    {
      DecodedBytes(l, p, i);
    }
  }

  lemma {:induction false} DecodedHeld(l: Layout, p: Bytes, q: Bytes)
    requires ValidPayload(l, p) && Holds(l, q, Latest(Decoded(l, p)))
    requires forall i :: 0 <= i < |Inputs(l)| ==> !UnknownFire(l, p, i)
    ensures q == p
  {
    hide Inputs, InputBytes, UnknownFire, Latest;
    var d := Decoded(l, p);
    assert d[..|d|] == d;
    forall i | 0 <= i < |Inputs(l)|
      ensures Inputs(l)[i].offset + Inputs(l)[i].len <= PayloadLen(l) && Slice(q, Inputs(l)[i]) == Slice(p, Inputs(l)[i])
    {
      DecodedBytes(l, p, i);
      LatestDecoded(l, p, |d|, i);
      assert Shows(l, q, Latest(d), i);
    }
    SlicesDetermine(l, q, p);
  }
}

/** The outgoing mailbox of one port: a whole snapshot or a set of separately refreshed fields. */
module Mailboxes {
  import opened Basics
  import opened Points
  import opened UnitReport

  datatype Snapshot = Snapshot(bytes: Bytes, supplied: nat)

  datatype Input = Input(value: Value, at: nat)

  /** A submitted JSON scalar, as far as the fields tell them apart. */
  datatype Json = Number(n: nat) | Text(utf8: Bytes) | OtherJson

  const U64_MAX: nat := 0xffff_ffff_ffff_ffff

  function FromJson(f: Field, j: Json): Option<Value> {
    match f.kind
    case Hex => if j.Text? then Some(TextValue(j.utf8)) else None
    case _ => if j.Number? && j.n <= 0xffff_ffff then Some(UInt32Value(j.n)) else None
  }

  function ValuesOf(fields: map<Name, Input>): map<Name, Value> {
    map n | n in fields :: fields[n].value
  }

  predicate AllFresh(fields: map<Name, Input>, now: nat, maxAge: nat) {
    forall n :: n in fields ==> Elapsed(now, fields[n].at) < maxAge
  }

  predicate AllPresent(l: Layout, fields: map<Name, Input>) {
    forall i :: 0 <= i < |Inputs(l)| ==> Inputs(l)[i].name in fields
  }

  /** Numbers go to numeric fields if they have 32 bits, texts to hexadecimal ones, nothing else anywhere. */
  lemma JsonMeaning(f: Field, j: Json, v: Value)
    ensures FromJson(f, j) == Some(v) <==>
      if f.kind.Hex? then j.Text? && v == TextValue(j.utf8) else j.Number? && j.n < 0x1_0000_0000 && v == UInt32Value(j.n)
  {
  }

  /** One requested input is present, well typed and can be written. */
  predicate Acceptable(l: Layout, request: map<Name, Json>, i: nat)
    requires i < |Inputs(l)|
  {
    var f := Inputs(l)[i];
    && f.name in request && FromJson(f, request[f.name]).Some?
    && InputBytes(l, f.name, FromJson(f, request[f.name]).value).Some?
  }

  function NamesUpTo(l: Layout, k: nat): set<Name>
    requires k <= |Inputs(l)|
  {
    set i | 0 <= i < k :: Inputs(l)[i].name
  }

  lemma {:induction false} NamesCount(l: Layout, k: nat)
    requires k <= |Inputs(l)|
    ensures |NamesUpTo(l, k)| == k
  {
    if k > 0 {
      NamesCount(l, k - 1);
      forall i | 0 <= i < k - 1 ensures Inputs(l)[i].name != Inputs(l)[k - 1].name {
        NamesDistinct(l, i, k - 1);
      }
      hide Inputs;
      assert NamesUpTo(l, k) == NamesUpTo(l, k - 1) + {Inputs(l)[k - 1].name};
    }
  }

  /** As many recorded inputs as the layout has means all of them. */
  lemma FullCountIsComplete(l: Layout, fields: map<Name, Input>)
    requires Writable(l, ValuesOf(fields))
    ensures |fields| == |Inputs(l)| <==> AllPresent(l, fields)
  {
    hide Inputs;
    NamesCount(l, |Inputs(l)|);
    var names := NamesUpTo(l, |Inputs(l)|);
    forall n | n in fields.Keys ensures n in names {
      assert InputBytes(l, n, ValuesOf(fields)[n]).Some?;
    }
    SubsetSize(fields.Keys, names);
    if AllPresent(l, fields) {
      assert fields.Keys == names;
    }
  }

  /** What a transmission decision sees of a mailbox. */
  datatype Mail = Mail(layout: Layout, transmits: bool, maxAge: nat,
                       snapshot: Option<Snapshot>, fields: map<Name, Input>, fieldPayload: Bytes)

  /** The field buffer agrees with the field map whenever the map is in use. */
  ghost predicate Consistent(m: Mail) {
    && (m.snapshot.Some? ==> ValidPayload(m.layout, m.snapshot.value.bytes) && m.fields == map[])
    && (m.fields != map[] ==> Holds(m.layout, m.fieldPayload, ValuesOf(m.fields)))
  }

  function Outgoing(m: Mail, now: nat): Option<Bytes> {
    if !m.transmits then None
    else if m.fields != map[] then
      if |m.fields| != |Inputs(m.layout)| || !AllFresh(m.fields, now, m.maxAge) then None else Some(m.fieldPayload)
    else if m.snapshot.Some? && Elapsed(now, m.snapshot.value.supplied) < m.maxAge then Some(m.snapshot.value.bytes)
    else None
  }

  predicate Younger(at: nat, now: nat, maxAge: nat) { maxAge > 0 && now < at + maxAge }

  /** What may go out: a valid payload made of inputs that are all there and all younger than the
      maximum age. */
  ghost predicate FreshAndComplete(m: Mail, now: nat, p: Bytes) {
    && m.transmits && ValidPayload(m.layout, p)
    && if m.fields != map[] then
         && AllPresent(m.layout, m.fields) && Holds(m.layout, p, ValuesOf(m.fields))
         && forall n :: n in m.fields ==> Younger(m.fields[n].at, now, m.maxAge)
       else
         m.snapshot.Some? && Younger(m.snapshot.value.supplied, now, m.maxAge) && p == m.snapshot.value.bytes
  }

  /** A mailbox answers with a payload exactly when it has one that is fresh and complete. */
  lemma {:induction false} OutgoingExactly(m: Mail, now: nat)
    requires Consistent(m)
    ensures Outgoing(m, now).Some? ==> FreshAndComplete(m, now, Outgoing(m, now).value)
    ensures forall p :: FreshAndComplete(m, now, p) ==> Outgoing(m, now) == Some(p)
  {
    hide Inputs, AllPresent, Writable, Shows;
    if m.fields != map[] {
      FullCountIsComplete(m.layout, m.fields);
      forall p | FreshAndComplete(m, now, p) ensures p == m.fieldPayload {
        HoldsUnique(m.layout, p, m.fieldPayload, ValuesOf(m.fields));
      }
    }
  }

  /** Recording and writing an input keep the buffer and the field map in step. */
  lemma {:induction false} RecordKeepsHolds(l: Layout, name: Name, v: Value, now: nat, p: Bytes, fields: map<Name, Input>)
    requires Holds(l, p, ValuesOf(fields)) && InputBytes(l, name, v).Some?
    ensures WriteField(l, name, v, p).Some?
    ensures Holds(l, WriteField(l, name, v, p).value, ValuesOf(fields[name := Input(v, now)]))
  {
    hide Inputs, InputBytes, Holds, WriteField;
    WriteKeepsHolds(l, name, v, p, ValuesOf(fields));
    assert ValuesOf(fields[name := Input(v, now)]) == ValuesOf(fields)[name := v];
  }

  lemma NothingHolds(l: Layout)
    ensures Holds(l, Template(l), ValuesOf(map[]))
  {
    TemplateHolds(l);
    assert ValuesOf(map[]) == map[];
  }

  class Slot {
    const layout: Layout
    const transmits: bool
    const maxAge: nat
    var revision: nat
    var snapshot: Option<Snapshot>
    var fields: map<Name, Input>
    var fieldPayload: Bytes
    var atomicMode: bool

    function View(): Mail
      reads this
    {
      Mail(layout, transmits, maxAge, snapshot, fields, fieldPayload)
    }

    ghost predicate Valid()
      reads this
    {
      && revision <= U64_MAX
      && Consistent(View())
      && (!atomicMode && fieldPayload != [] ==> Holds(layout, fieldPayload, ValuesOf(fields)))
    }

    constructor (layout: Layout, transmits: bool, maxAge: nat)
      ensures Valid() && fields == map[] && snapshot == None && revision == 0 && !atomicMode
      ensures this.layout == layout && this.transmits == transmits && this.maxAge == maxAge
    {
      this.layout, this.transmits, this.maxAge := layout, transmits, maxAge;
      revision, snapshot, fields, fieldPayload, atomicMode := 0, None, map[], [], false;
    }

    /** Compare and set of the whole snapshot. */
    method Submit(expected: nat, payload: Bytes, now: nat) returns (r: Option<nat>)
      requires Valid()
      modifies this
      ensures Valid()
      ensures r.Some? <==> transmits && expected == old(revision) < U64_MAX && ValidPayload(layout, payload)
      ensures r.Some? ==> r.value == revision == old(revision) + 1 && snapshot == Some(Snapshot(payload, now))
                          && fields == map[] && atomicMode
      ensures r.None? ==> unchanged(this)
    {
      if !transmits || expected != revision || !ValidPayload(layout, payload) || revision == U64_MAX { return None; }
      revision := revision + 1;
      snapshot := Some(Snapshot(payload, now));
      fields := map[];
      atomicMode := true;
      r := Some(revision);
    }

    /** The complete field set in one step; a refused request changes nothing. */
    method SubmitFields(expected: nat, request: map<Name, Json>, now: nat) returns (r: Option<nat>)
      requires Valid()
      modifies this
      ensures Valid()
      ensures r.Some? <==>
        && transmits && expected == old(revision) < U64_MAX && |request| == |Inputs(layout)|
        && forall i :: 0 <= i < |Inputs(layout)| ==> Acceptable(layout, request, i)
      ensures r.Some? ==> r.value == revision == old(revision) + 1 && snapshot == None && atomicMode
      ensures r.Some? ==> fields.Keys == NamesUpTo(layout, |Inputs(layout)|)
      ensures r.Some? ==> forall i :: 0 <= i < |Inputs(layout)| ==>
                var f := Inputs(layout)[i];
                f.name in request && f.name in fields && Some(fields[f.name].value) == FromJson(f, request[f.name]) && fields[f.name].at == now
      ensures r.None? ==> unchanged(this)
    {
      hide Inputs, InputBytes, Holds, UnitReport.WriteField;
      if !transmits || expected != revision || |request| != |Inputs(layout)| { return None; }
      var candidate := BuildFields(layout, request, now);
      if candidate.None? || revision == U64_MAX { return None; }
      fields, fieldPayload := candidate.value.0, candidate.value.1;
      snapshot := None;
      atomicMode := true;
      revision := revision + 1;
      r := Some(revision);
    }

    /** One field; it renews its own deadline only, and is refused once a snapshot was submitted whole. */
    method WriteField(name: Name, v: Value, now: nat) returns (ok: bool)
      requires Valid()
      modifies this
      ensures Valid()
      ensures ok <==> transmits && !old(atomicMode) && old(revision) < U64_MAX && InputBytes(layout, name, v).Some?
      ensures ok ==> fields == old(fields)[name := Input(v, now)] && revision == old(revision) + 1 && snapshot == None
      ensures !ok ==> fields == old(fields) && revision == old(revision) && snapshot == old(snapshot)
      ensures atomicMode == old(atomicMode)
    {
      hide Inputs, InputBytes, Holds, UnitReport.WriteField, ValuesOf, Template;
      if !transmits || atomicMode { return false; }
      if fieldPayload == [] {
        fieldPayload := Template(layout);
        EmptyHolds(layout, [], fields);
        NothingHolds(layout);
      }
      if revision == U64_MAX { return false; }
      var written := UnitReport.WriteField(layout, name, v, fieldPayload);
      if InputBytes(layout, name, v).Some? {
        RecordKeepsHolds(layout, name, v, now, fieldPayload, fields);
      }
      if written.None? { return false; }
      fieldPayload := written.value;
      snapshot := None;
      fields := fields[name := Input(v, now)];
      revision := revision + 1;
      ok := true;
    }

    /** What the next transmission carries: only complete and fresh data, and for field inputs exactly
        the template with each field's latest value written in. */
    method Current(now: nat) returns (r: Option<Bytes>)
      requires Valid()
      ensures r == Outgoing(View(), now)
      ensures r.Some? ==> FreshAndComplete(View(), now, r.value)
      ensures r.None? ==> forall p :: !FreshAndComplete(View(), now, p)
    {
      OutgoingExactly(View(), now);
      hide FreshAndComplete;
      if !transmits { return None; }
      if fields != map[] {
        if |fields| != |Inputs(layout)| || !AllFresh(fields, now, maxAge) { return None; }
        return Some(fieldPayload);
      }
      r := if snapshot.Some? && Elapsed(now, snapshot.value.supplied) < maxAge then Some(snapshot.value.bytes) else None;
    }
  }

  /** A buffer that is not even a payload holds no fields. */
  lemma EmptyHolds(l: Layout, p: Bytes, fields: map<Name, Input>)
    requires p == []
    ensures !Holds(l, p, ValuesOf(fields))
  {
  }

  /** The private candidate a complete field request is built into. */
  method BuildFields(l: Layout, request: map<Name, Json>, now: nat) returns (r: Option<(map<Name, Input>, Bytes)>)
    ensures r.Some? <==> forall i :: 0 <= i < |Inputs(l)| ==> Acceptable(l, request, i)
    ensures r.Some? ==> Holds(l, r.value.1, ValuesOf(r.value.0)) && r.value.0.Keys == NamesUpTo(l, |Inputs(l)|)
    ensures r.Some? ==> forall i :: 0 <= i < |Inputs(l)| ==>
              var f := Inputs(l)[i];
              f.name in request && f.name in r.value.0 && FromJson(f, request[f.name]) == Some(r.value.0[f.name].value) && r.value.0[f.name].at == now
  {
    var payload := Template(l);
    var fields: map<Name, Input> := map[];
    NothingHolds(l);
    hide Inputs, InputBytes, Holds, WriteField;
    for i := 0 to |Inputs(l)|
      invariant Holds(l, payload, ValuesOf(fields)) && fields.Keys == NamesUpTo(l, i)
      invariant forall j :: 0 <= j < i ==> Acceptable(l, request, j)
      invariant forall j :: 0 <= j < i ==>
        var f := Inputs(l)[j];
        f.name in request && f.name in fields && FromJson(f, request[f.name]) == Some(fields[f.name].value) && fields[f.name].at == now
    {
      var f := Inputs(l)[i];
      if f.name !in request {
        assert !Acceptable(l, request, i);
        return None;
      }
      var value := FromJson(f, request[f.name]);
      if value.None? {
        assert !Acceptable(l, request, i);
        return None;
      }
      if InputBytes(l, f.name, value.value).Some? {
        RecordKeepsHolds(l, f.name, value.value, now, payload, fields);
      }
      var written := WriteField(l, f.name, value.value, payload);
      if written.None? {
        assert !Acceptable(l, request, i);
        return None;
      }
      payload := written.value;
      fields := fields[f.name := Input(value.value, now)];
      forall j | 0 <= j < i ensures Inputs(l)[j].name != f.name {
        NamesDistinct(l, j, i);
      }
    }
    r := Some((fields, payload));
  }
}
