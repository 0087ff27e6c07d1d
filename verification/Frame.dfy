/** The wire envelope: three little-endian lengths, stored or deflated bytes, CRC32. */
module Frame {
  import opened Basics

  datatype Limits = Limits(frame: nat, payload: nat) {
    predicate Valid() {
      10 <= frame <= 0xffff && 1 <= payload <= 0xffff
    }
  }

  /** Outcome of inflating: all of the output, and whether all input was consumed. */
  datatype Inflated = Broken | Inflated(out: Bytes, whole: bool)

  /** CRC32 and zlib (RFC 1950) enter only through these functions. */
  datatype Codec = Codec(crc: Bytes -> nat, deflate: Bytes -> Bytes, inflate: Bytes -> Inflated)

  /** Inflate undoes deflate, consumes all of it and reports the exact length; a CRC has 32 bits. */
  ghost predicate Sound(c: Codec) {
    && (forall p :: c.inflate(c.deflate(p)) == Inflated(p, true))
    && (forall b :: c.crc(b) < 0x1_0000_0000)
  }

  datatype FrameError = Length | Checksum | Decompression | PayloadLength | BufferLimit

  function U16At(b: Bytes, offset: nat): nat
    requires offset + 2 <= |b|
  {
    (b[offset] as int) + 0x100 * (b[offset + 1] as int)
  }

  function U32At(b: Bytes, offset: nat): nat
    requires offset + 4 <= |b|
  {
    U16At(b, offset) + 0x1_0000 * U16At(b, offset + 2)
  }

  function Le16(n: nat): Bytes
    requires n < 0x1_0000
  {
    [n % 0x100, n / 0x100]
  }

  function Le32(n: nat): Bytes
    requires n < 0x1_0000_0000
  {
    [n % 0x100, n / 0x100 % 0x100, n / 0x1_0000 % 0x100, n / 0x100_0000]
  }

  predicate ValidHeader(b: Bytes, limits: Limits)
    requires |b| >= 6
  {
    10 <= U16At(b, 0) <= limits.frame && U16At(b, 2) <= limits.payload && U16At(b, 4) + 10 == U16At(b, 0)
  }

  /** The bytes stored for a payload: raw when deflating does not shrink it. */
  function Stored(c: Codec, payload: Bytes): Bytes {
    if |c.deflate(payload)| >= |payload| then payload else c.deflate(payload)
  }

  function Header(total: nat, plain: nat, stored: nat): Bytes
    requires total < 0x1_0000 && plain < 0x1_0000 && stored < 0x1_0000
  {
    Le16(total) + Le16(plain) + Le16(stored)
  }

  function Encode(c: Codec, payload: Bytes, limits: Limits): Result<Bytes, FrameError> {
    if !limits.Valid() || |payload| > limits.payload then Err(Length)
    else
      var stored := Stored(c, payload);
      var total := |stored| + 10;
      if total > limits.frame then Err(Length)
      else
        var body := Header(total, |payload|, |stored|) + stored;
        Ok(body + Le32(c.crc(body) % 0x1_0000_0000))
  }

  function Decode(c: Codec, frame: Bytes, limits: Limits): Result<Bytes, FrameError> {
    if !limits.Valid() || |frame| < 10 || !ValidHeader(frame, limits) || U16At(frame, 0) != |frame| then Err(Length)
    else
      var end := |frame| - 4;
      if c.crc(frame[..end]) != U32At(frame, end) then Err(Checksum)
      else if U16At(frame, 2) == end - 6 then Ok(frame[6..end])
      else
        match c.inflate(frame[6..end])
        case Broken => Err(Decompression)
        case Inflated(out, whole) =>
          if |out| != U16At(frame, 2) || !whole then Err(PayloadLength) else Ok(out)
  }

  // ------------------------------------------------------------ what decoding accepts

  /** The number some bytes stand for, the least significant first. */
  function Little(b: Bytes): nat {
    if b == [] then 0 else (b[0] as int) + 0x100 * Little(b[1..])
  }

  /** A frame of the right shape: its limits, its length and its three length fields agree. */
  ghost predicate WellShaped(frame: Bytes, limits: Limits) {
    && 10 <= limits.frame <= 0xffff && 1 <= limits.payload <= 0xffff
    && 10 <= |frame| <= limits.frame
    && Little(frame[0..2]) == |frame| && Little(frame[2..4]) <= limits.payload && Little(frame[4..6]) == |frame| - 10
  }

  /** The checksum at the end is that of everything before it. */
  ghost predicate Checked(c: Codec, frame: Bytes)
    requires |frame| >= 4
  {
    c.crc(frame[..|frame| - 4]) == Little(frame[|frame| - 4..])
  }

  /** A checked frame that carries a payload: as it is when the two lengths agree, else deflated, whole
      and of the announced length. */
  ghost predicate Genuine(c: Codec, frame: Bytes, limits: Limits, payload: Bytes) {
    && WellShaped(frame, limits) && Checked(c, frame) && |payload| == Little(frame[2..4])
    && var stored := frame[6..|frame| - 4];
       if |payload| == |stored| then payload == stored else c.inflate(stored) == Inflated(payload, true)
  }

  lemma LittleReads(b: Bytes, at: nat)
    ensures at + 2 <= |b| ==> U16At(b, at) == Little(b[at..at + 2])
    ensures at + 4 <= |b| ==> U32At(b, at) == Little(b[at..at + 4])
  {
    if at + 2 <= |b| { LittleTwo(b[at..at + 2]); }
    if at + 4 <= |b| {
      var four := b[at..at + 4];
      LittleFour(four);
      assert four[0] == b[at] && four[1] == b[at + 1] && four[2] == b[at + 2] && four[3] == b[at + 3];
    }
    hide Little;
  }

  lemma LittleTwo(b: Bytes)
    requires |b| == 2
    ensures Little(b) == (b[0] as int) + 0x100 * (b[1] as int)
  {
    assert b[1..][0] == b[1] && b[1..][1..] == [];
    assert Little(b[1..]) == b[1] as int;
  }

  lemma LittleFour(b: Bytes)
    requires |b| == 4
    ensures Little(b) == (b[0] as int) + 0x100 * (b[1] as int) + 0x1_0000 * (b[2] as int) + 0x100_0000 * (b[3] as int)
  {
    LittleTwo(b[2..]);
    assert b[1..][0] == b[1] && b[1..][1..] == b[2..];
    assert Little(b[1..]) == (b[1] as int) + 0x100 * Little(b[2..]);
  }

  lemma ShapeReads(frame: Bytes, limits: Limits)
    ensures WellShaped(frame, limits) <==>
            limits.Valid() && |frame| >= 10 && ValidHeader(frame, limits) && U16At(frame, 0) == |frame|
  {
    LittleReads(frame, 0);
    LittleReads(frame, 2);
    LittleReads(frame, 4);
    hide U16At, U32At, Little;
  }

  /** THEOREM: decoding accepts exactly the genuine frames, with the payload they carry. */
  lemma {:induction false} DecodeExactly(c: Codec, frame: Bytes, limits: Limits, payload: Bytes)
    ensures Decode(c, frame, limits) == Ok(payload) <==> Genuine(c, frame, limits, payload)
  {
    hide U16At, U32At, Little, ValidHeader;
    ShapeReads(frame, limits);
    if |frame| >= 10 {
      var end := |frame| - 4;
      LittleReads(frame, 2);
      LittleReads(frame, end);
      assert frame[end..end + 4] == frame[end..];
    }
  }

  /** Each refusal has its own cause. */
  lemma {:induction false} DecodeErrors(c: Codec, frame: Bytes, limits: Limits)
    ensures var r := Decode(c, frame, limits);
      && (r == Err(Length) <==> !WellShaped(frame, limits))
      && (r == Err(Checksum) <==> WellShaped(frame, limits) && !Checked(c, frame))
      && (r == Err(Decompression) <==>
            (&& WellShaped(frame, limits) && Checked(c, frame)
             && Little(frame[2..4]) != |frame| - 10 && c.inflate(frame[6..|frame| - 4]).Broken?))
      && r != Err(BufferLimit)
  {
    hide U16At, U32At, Little, ValidHeader;
    ShapeReads(frame, limits);
    if |frame| >= 10 {
      var end := |frame| - 4;
      LittleReads(frame, 2);
      LittleReads(frame, end);
      assert frame[end..end + 4] == frame[end..];
    }
  }

  // ------------------------------------------------------------------------- encoding

  lemma Le16Reads(n: nat)
    requires n < 0x1_0000
    ensures |Le16(n)| == 2 && U16At(Le16(n), 0) == n
  {
  }

  lemma Le32Reads(n: nat)
    requires n < 0x1_0000_0000
    ensures |Le32(n)| == 4 && U32At(Le32(n), 0) == n
  {
    var lo, hi := n % 0x1_0000, n / 0x1_0000;
    assert n / 0x100 % 0x100 == lo / 0x100 && n % 0x100 == lo % 0x100;
    assert n / 0x100_0000 == hi / 0x100;
  }

  lemma HeaderReads(total: nat, plain: nat, stored: nat)
    requires total < 0x1_0000 && plain < 0x1_0000 && stored < 0x1_0000
    ensures var h := Header(total, plain, stored);
            |h| == 6 && U16At(h, 0) == total && U16At(h, 2) == plain && U16At(h, 4) == stored
  {
    Le16Reads(total);
    Le16Reads(plain);
    Le16Reads(stored);
  }

  /** The parts an encoded frame is made of. */
  lemma {:induction false} EncodeParts(c: Codec, payload: Bytes, limits: Limits) returns (header: Bytes, stored: Bytes, crc: Bytes)
    requires Sound(c) && Encode(c, payload, limits).Ok?
    ensures stored == Stored(c, payload) && |stored| + 10 <= limits.frame && limits.Valid() && |payload| <= limits.payload
    ensures Encode(c, payload, limits).value == header + stored + crc
    ensures |header| == 6 && U16At(header, 0) == |stored| + 10 && U16At(header, 2) == |payload| && U16At(header, 4) == |stored|
    ensures |crc| == 4 && U32At(crc, 0) == c.crc(header + stored)
  {
    stored := Stored(c, payload);
    hide Header, Le32, U16At, U32At, Stored;
    header := Header(|stored| + 10, |payload|, |stored|);
    var sum := c.crc(header + stored);
    crc := Le32(sum);
    HeaderReads(|stored| + 10, |payload|, |stored|);
    Le32Reads(sum);
  }

  /** Encoding always opens with a header its own receiver accepts. */
  lemma {:induction false} EncodeShape(c: Codec, payload: Bytes, limits: Limits)
    requires Sound(c) && Encode(c, payload, limits).Ok?
    ensures var frame := Encode(c, payload, limits).value;
      && 10 <= |frame| <= limits.frame
      && ValidHeader(frame, limits) && U16At(frame, 0) == |frame|
      && U16At(frame, 2) == |payload| && frame[6..|frame| - 4] == Stored(c, payload)
      && c.crc(frame[..|frame| - 4]) == U32At(frame, |frame| - 4)
  {
    hide Encode, U16At, U32At, Stored;
    var header, stored, crc := EncodeParts(c, payload, limits);
    FrameReads(header, stored, crc);
  }

  lemma FrameReads(header: Bytes, stored: Bytes, crc: Bytes)
    requires |header| == 6 && |crc| == 4
    ensures var frame := header + stored + crc; var end := |frame| - 4;
      && U16At(frame, 0) == U16At(header, 0) && U16At(frame, 2) == U16At(header, 2) && U16At(frame, 4) == U16At(header, 4)
      && frame[6..end] == stored && frame[..end] == header + stored && U32At(frame, end) == U32At(crc, 0)
  {
  }

  /** Round trip: a frame this side can send is received as the payload it carries. */
  lemma {:induction false} DecodeEncode(c: Codec, payload: Bytes, limits: Limits)
    requires Sound(c) && Encode(c, payload, limits).Ok?
    ensures Decode(c, Encode(c, payload, limits).value, limits) == Ok(payload)
  {
    EncodeShape(c, payload, limits);
    assert c.inflate(c.deflate(payload)) == Inflated(payload, true);
  }

  /** A payload is sent deflated exactly when that is shorter, in a genuine frame, and is refused exactly
      when it or its frame exceeds the limits. */
  lemma {:induction false} EncodeExactly(c: Codec, payload: Bytes, limits: Limits)
    requires Sound(c)
    ensures var stored := if |c.deflate(payload)| < |payload| then c.deflate(payload) else payload;
            var r := Encode(c, payload, limits);
      && (r.Ok? <==> limits.Valid() && |payload| <= limits.payload && |stored| + 10 <= limits.frame)
      && (r.Err? ==> r.error == Length)
      && (r.Ok? ==> Genuine(c, r.value, limits, payload) && r.value[6..|r.value| - 4] == stored)
  {
    if Encode(c, payload, limits).Ok? {
      EncodeShape(c, payload, limits);
      DecodeEncode(c, payload, limits);
      DecodeExactly(c, Encode(c, payload, limits).value, limits, payload);
    }
    hide Decode, Genuine, Header, Le32, ValidHeader;
  }

  /** With room for the uncompressed worst case every payload in range can be sent. */
  lemma EncodeSucceeds(c: Codec, payload: Bytes, limits: Limits)
    requires limits.Valid() && |payload| <= limits.payload && |payload| + 10 <= limits.frame
    ensures Encode(c, payload, limits).Ok?
  {
  }
}

/** The resynchronising stream decoder. */
module FrameStream {
  import opened Basics
  import opened Frame

  /** What became of a stretch of input. */
  datatype Piece =
    | Accepted(frame: Bytes, payload: Bytes)
    | Skipped(byte: Byte)    // no plausible header here
    | Rejected(byte: Byte)   // a plausible complete frame that failed its checks

  datatype Scanned = Scanned(trace: seq<Piece>, rest: Bytes)

  function Raw(p: Piece): Bytes {
    match p
    case Accepted(frame, _) => frame
    case Skipped(x) => [x]
    case Rejected(x) => [x]
  }

  /** The decoder's next move: wait for more input, or settle a stretch of it. */
  datatype Move = Wait | Take(piece: Piece)

  function Look(c: Codec, limits: Limits, b: Bytes): (m: Move)
    ensures m.Take? ==> 0 < |Raw(m.piece)| <= |b| && b[..|Raw(m.piece)|] == Raw(m.piece)
    ensures m.Take? && m.piece.Accepted? ==> Genuine(c, m.piece.frame, limits, m.piece.payload)
    ensures m.Wait? && limits.Valid() ==> |b| < limits.frame
  {
    if |b| < 6 then Wait
    else if !ValidHeader(b, limits) then Take(Skipped(b[0]))
    else if |b| < U16At(b, 0) then Wait
    else
      var frame := b[..U16At(b, 0)];
      match Decode(c, frame, limits)
      case Ok(p) =>
        DecodeExactly(c, frame, limits, p);
        Take(Accepted(frame, p))
      case Err(_) => Take(Rejected(b[0]))
  }

  function Append(trace: seq<Piece>, s: Scanned): Scanned {
    Scanned(trace + s.trace, s.rest)
  }

  /** What `feed` does with its buffer, from the front. */
  function Scan(c: Codec, limits: Limits, b: Bytes): Scanned
    decreases |b|
  {
    match Look(c, limits, b)
    case Wait => Scanned([], b)
    case Take(p) => Append([p], Scan(c, limits, b[|Raw(p)|..]))
  }

  /** Recovery's next move: it never waits for the rest of a candidate. */
  function Settle(c: Codec, limits: Limits, b: Bytes): (p: Piece)
    requires b != []
    ensures 0 < |Raw(p)| <= |b| && b[..|Raw(p)|] == Raw(p)
    ensures p.Accepted? ==> Genuine(c, p.frame, limits, p.payload)
  {
    if |b| < 10 || !ValidHeader(b, limits) || U16At(b, 0) > |b| then Skipped(b[0])
    else
      var frame := b[..U16At(b, 0)];
      match Decode(c, frame, limits)
      case Ok(p) =>
        DecodeExactly(c, frame, limits, p);
        Accepted(frame, p)
      case Err(_) => Rejected(b[0])
  }

  /** What `recover_expired` does with its buffer. */
  function Recover(c: Codec, limits: Limits, b: Bytes): seq<Piece>
    decreases |b|
  {
    if b == [] then []
    else
      var p := Settle(c, limits, b);
      [p] + Recover(c, limits, b[|Raw(p)|..])
  }

  function Flatten(trace: seq<Piece>): Bytes {
    if trace == [] then [] else Raw(trace[0]) + Flatten(trace[1..])
  }

  function Payloads(trace: seq<Piece>): seq<Bytes> {
    if trace == [] then []
    else if trace[0].Accepted? then [trace[0].payload] + Payloads(trace[1..])
    else Payloads(trace[1..])
  }

  function Rejections(trace: seq<Piece>): nat {
    if trace == [] then 0 else (if trace[0].Rejected? then 1 else 0) + Rejections(trace[1..])
  }

  function Discarded(trace: seq<Piece>): nat {
    if trace == [] then 0 else (if trace[0].Accepted? then 0 else 1) + Discarded(trace[1..])
  }

  function AcceptedBytes(trace: seq<Piece>): nat {
    if trace == [] then 0 else (if trace[0].Accepted? then |trace[0].frame| else 0) + AcceptedBytes(trace[1..])
  }

  ghost predicate Verified(c: Codec, limits: Limits, trace: seq<Piece>) {
    forall p :: p in trace && p.Accepted? ==> Genuine(c, p.frame, limits, p.payload)
  }

  // ------------------------------------------------------ conservation and bound

  lemma {:induction false} FlattenLength(trace: seq<Piece>)
    ensures |Flatten(trace)| == AcceptedBytes(trace) + Discarded(trace)
  {
    if trace != [] {
      FlattenLength(trace[1..]);
    }
  }

  /** Conservation: the pieces tile the input; accepted frames are verified disjoint segments of it,
      in order, and every byte is accepted, discarded or still buffered. */
  lemma {:induction false} ScanTiles(c: Codec, limits: Limits, b: Bytes)
    ensures var s := Scan(c, limits, b);
      && Flatten(s.trace) + s.rest == b
      && Verified(c, limits, s.trace)
      && |b| == AcceptedBytes(s.trace) + Discarded(s.trace) + |s.rest|
    decreases |b|
  {
    hide Look, Genuine, AcceptedBytes, Discarded;
    var s := Scan(c, limits, b);
    match Look(c, limits, b) {
      case Wait =>
      case Take(p) =>
        var n := |Raw(p)|;
        var t := Scan(c, limits, b[n..]);
        ScanTiles(c, limits, b[n..]);
        TileOne(c, limits, p, t, b);
    }
    FlattenLength(s.trace);
  }

  lemma TileOne(c: Codec, limits: Limits, p: Piece, t: Scanned, b: Bytes)
    requires |Raw(p)| <= |b| && b[..|Raw(p)|] == Raw(p)
    requires Flatten(t.trace) + t.rest == b[|Raw(p)|..]
    requires Verified(c, limits, t.trace)
    requires p.Accepted? ==> Genuine(c, p.frame, limits, p.payload)
    ensures var s := Append([p], t); Flatten(s.trace) + s.rest == b && Verified(c, limits, s.trace)
  {
    hide Genuine;
    var s := Append([p], t);
    assert s.trace[1..] == t.trace;
    assert Flatten(s.trace) == Raw(p) + Flatten(t.trace);
    assert b == b[..|Raw(p)|] + b[|Raw(p)|..];
  }

  /** Some segment of the bytes is a genuine frame that carries the payload. */
  ghost predicate Carried(c: Codec, limits: Limits, bytes: Bytes, payload: Bytes) {
    exists i, j :: 0 <= i <= j <= |bytes| && Genuine(c, bytes[i..j], limits, payload)
  }

  /** Every payload a trace delivers was carried by the bytes it covers. */
  lemma {:induction false} DeliveredCarried(c: Codec, limits: Limits, trace: seq<Piece>, bytes: Bytes, rest: Bytes, payload: Bytes)
    requires Verified(c, limits, trace) && Flatten(trace) + rest == bytes && payload in Payloads(trace)
    ensures Carried(c, limits, bytes, payload)
    decreases |trace|
  {
    hide Genuine, Carried;
    var p, tail := trace[0], trace[1..];
    var n := |Raw(p)|;
    assert p in trace;
    assert bytes[..n] == Raw(p) && bytes[n..] == Flatten(tail) + rest;
    hide Flatten;
    if p.Accepted? && p.payload == payload {
      assert bytes[0..n] == p.frame;
      CarriedAt(c, limits, bytes, 0, n, payload);
    } else {
      DeliveredCarried(c, limits, tail, bytes[n..], rest, payload);
      CarriedBehind(c, limits, bytes[..n], bytes[n..], payload);
      assert bytes[..n] + bytes[n..] == bytes;
    }
  }

  lemma CarriedAt(c: Codec, limits: Limits, bytes: Bytes, i: nat, j: nat, payload: Bytes)
    requires i <= j <= |bytes| && Genuine(c, bytes[i..j], limits, payload)
    ensures Carried(c, limits, bytes, payload)
  {
    hide Genuine;
  }

  lemma CarriedBehind(c: Codec, limits: Limits, front: Bytes, bytes: Bytes, payload: Bytes)
    requires Carried(c, limits, bytes, payload)
    ensures Carried(c, limits, front + bytes, payload)
  {
    hide Genuine;
    var i, j :| 0 <= i <= j <= |bytes| && Genuine(c, bytes[i..j], limits, payload);
    var n := |front|;
    assert (front + bytes)[n + i..n + j] == bytes[i..j];
  }

  /** What stays buffered is shorter than one frame. */
  lemma {:induction false} ScanBounded(c: Codec, limits: Limits, b: Bytes)
    requires limits.Valid()
    ensures |Scan(c, limits, b).rest| < limits.frame
    decreases |b|
  {
    match Look(c, limits, b)
    case Wait =>
    case Take(p) => ScanBounded(c, limits, b[|Raw(p)|..]);
  }

  /** Recovery accounts for the whole buffer and publishes nothing unverified. */
  lemma {:induction false} RecoverTiles(c: Codec, limits: Limits, b: Bytes)
    ensures var trace := Recover(c, limits, b);
      && Flatten(trace) == b
      && Verified(c, limits, trace)
      && |b| == AcceptedBytes(trace) + Discarded(trace)
    decreases |b|
  {
    hide Settle, Genuine, AcceptedBytes, Discarded;
    var trace := Recover(c, limits, b);
    if b != [] {
      var p := Settle(c, limits, b);
      var rest := Recover(c, limits, b[|Raw(p)|..]);
      RecoverTiles(c, limits, b[|Raw(p)|..]);
      TileOne(c, limits, p, Scanned(rest, []), b);
    }
    FlattenLength(trace);
  }

  /** A genuine frame at the front is never passed over, and what is passed over is one byte: skipped
      where no plausible header stands, rejected where a complete candidate fails. */
  lemma {:induction false} LookExactly(c: Codec, limits: Limits, b: Bytes, n: nat, payload: Bytes)
    requires n <= |b| && Genuine(c, b[..n], limits, payload)
    ensures Look(c, limits, b) == Take(Accepted(b[..n], payload)) && Settle(c, limits, b) == Accepted(b[..n], payload)
  {
    DecodeExactly(c, b[..n], limits, payload);
    FrontReads(b, n);
    hide Genuine;
  }

  lemma FrontReads(b: Bytes, n: nat)
    requires 6 <= n <= |b|
    ensures U16At(b[..n], 0) == U16At(b, 0) && U16At(b[..n], 2) == U16At(b, 2) && U16At(b[..n], 4) == U16At(b, 4)
  {
  }

  lemma {:induction false} PassedOver(c: Codec, limits: Limits, b: Bytes)
    requires limits.Valid() && |b| >= 6
    ensures var total, plausible := Little(b[0..2]),
                10 <= Little(b[0..2]) <= limits.frame && Little(b[2..4]) <= limits.payload && Little(b[4..6]) + 10 == Little(b[0..2]);
      && (Look(c, limits, b) == Wait <==> plausible && |b| < total)
      && (Look(c, limits, b) == Take(Skipped(b[0])) <==> !plausible)
      && (Look(c, limits, b) == Take(Rejected(b[0])) <==> plausible && |b| >= total && forall p :: !Genuine(c, b[..total], limits, p))
  {
    LittleReads(b, 0);
    LittleReads(b, 2);
    LittleReads(b, 4);
    hide Little, U16At, Decode, Genuine;
    var total := U16At(b, 0);
    if ValidHeader(b, limits) && |b| >= total {
      forall p ensures Decode(c, b[..total], limits) == Ok(p) <==> Genuine(c, b[..total], limits, p) {
        DecodeExactly(c, b[..total], limits, p);
      }
    }
  }

  // ------------------------------------------------------- chunking independence

  /** More input never changes a move already possible. */
  lemma LookStable(c: Codec, limits: Limits, a: Bytes, b: Bytes)
    requires Look(c, limits, a).Take?
    ensures Look(c, limits, a + b) == Look(c, limits, a)
  {
    var w := a + b;
    assert w[..6] == a[..6];
    assert U16At(w, 0) == U16At(a, 0) && U16At(w, 2) == U16At(a, 2) && U16At(w, 4) == U16At(a, 4);
    if ValidHeader(a, limits) {
      assert w[..U16At(a, 0)] == a[..U16At(a, 0)];
    }
  }

  /** Scanning in two portions is scanning the whole. */
  lemma {:induction false} ScanSplit(c: Codec, limits: Limits, a: Bytes, b: Bytes)
    ensures Scan(c, limits, a + b) == Append(Scan(c, limits, a).trace, Scan(c, limits, Scan(c, limits, a).rest + b))
    decreases |a|
  {
    hide Look;
    match Look(c, limits, a)
    case Wait =>
      assert [] + Scan(c, limits, a + b).trace == Scan(c, limits, a + b).trace;
    case Take(p) =>
      var n := |Raw(p)|;
      LookStable(c, limits, a, b);
      ScanTake(c, limits, a, p);
      ScanTake(c, limits, a + b, p);
      ScanSplit(c, limits, a[n..], b);
      SplitOne(c, limits, a, b, n, p);
  }

  lemma {:induction false} SplitOne(c: Codec, limits: Limits, a: Bytes, b: Bytes, n: nat, p: Piece)
    requires n <= |a|
    requires Scan(c, limits, a) == Append([p], Scan(c, limits, a[n..]))
    requires Scan(c, limits, a + b) == Append([p], Scan(c, limits, (a + b)[n..]))
    requires Scan(c, limits, a[n..] + b)
          == Append(Scan(c, limits, a[n..]).trace, Scan(c, limits, Scan(c, limits, a[n..]).rest + b))
    ensures Scan(c, limits, a + b) == Append(Scan(c, limits, a).trace, Scan(c, limits, Scan(c, limits, a).rest + b))
  {
    hide Scan;
    assert (a + b)[n..] == a[n..] + b;
    var t := Scan(c, limits, a[n..]);
    var u := Scan(c, limits, t.rest + b);
    assert [p] + (t.trace + u.trace) == [p] + t.trace + u.trace;
  }

  lemma ScanTake(c: Codec, limits: Limits, b: Bytes, p: Piece)
    requires Look(c, limits, b) == Take(p)
    ensures Scan(c, limits, b) == Append([p], Scan(c, limits, b[|Raw(p)|..]))
  {
    hide Look;
  }

  datatype Fed = Fed(trace: seq<Piece>, buffer: Bytes)

  /** One `feed` call on a chunk within the limit. */
  function FeedOne(c: Codec, limits: Limits, fed: Fed, chunk: Bytes): Fed {
    var s := Scan(c, limits, fed.buffer + chunk);
    Fed(fed.trace + s.trace, s.rest)
  }

  function FeedAll(c: Codec, limits: Limits, chunks: seq<Bytes>): Fed {
    if chunks == [] then Fed([], [])
    else FeedOne(c, limits, FeedAll(c, limits, chunks[..|chunks| - 1]), chunks[|chunks| - 1])
  }

  /** Chunking is irrelevant: any split of a stream leaves the same pieces and the same buffer. */
  lemma {:induction false} FeedAllIsScan(c: Codec, limits: Limits, chunks: seq<Bytes>)
    requires limits.Valid()
    ensures var fed := FeedAll(c, limits, chunks); var s := Scan(c, limits, Concat(chunks));
            fed.trace == s.trace && fed.buffer == s.rest && |fed.buffer| < limits.frame
    decreases |chunks|
  {
    if chunks != [] {
      var init, last := chunks[..|chunks| - 1], chunks[|chunks| - 1];
      FeedAllIsScan(c, limits, init);
      ScanSplit(c, limits, Concat(init), last);
    }
    ScanBounded(c, limits, Concat(chunks));
  }

  /** All payloads can be encoded within the limits. */
  predicate Sendable(c: Codec, limits: Limits, payloads: seq<Bytes>) {
    forall i :: 0 <= i < |payloads| ==> Encode(c, payloads[i], limits).Ok?
  }

  function Encodings(c: Codec, limits: Limits, payloads: seq<Bytes>): Bytes
    requires Sendable(c, limits, payloads)
  {
    if payloads == [] then []
    else Encode(c, payloads[0], limits).value + Encodings(c, limits, payloads[1..])
  }

  /** A clean stream of frames is accepted whole, payload by payload. */
  lemma {:induction false} ScanEncodings(c: Codec, limits: Limits, payloads: seq<Bytes>)
    requires Sound(c) && Sendable(c, limits, payloads)
    ensures var s := Scan(c, limits, Encodings(c, limits, payloads));
            s.rest == [] && Payloads(s.trace) == payloads && Discarded(s.trace) == 0 && Rejections(s.trace) == 0
    decreases |payloads|
  {
    hide Look, Encode, Genuine, Sound, Scan, Payloads, Discarded, Rejections;
    if payloads == [] {
      ShortScan(c, limits, []);
      EmptySummary();
    } else {
      var frame := Encode(c, payloads[0], limits).value;
      var tail := Encodings(c, limits, payloads[1..]);
      ScanEncodings(c, limits, payloads[1..]);
      LookEncoded(c, limits, payloads[0], tail);
      var p := Accepted(frame, payloads[0]);
      ScanTake(c, limits, frame + tail, p);
      assert (frame + tail)[|frame|..] == tail;
      SummaryFront(p, Scan(c, limits, tail).trace);
    }
  }

  lemma SummaryFront(p: Piece, trace: seq<Piece>)
    requires p.Accepted?
    ensures Payloads([p] + trace) == [p.payload] + Payloads(trace)
    ensures Discarded([p] + trace) == Discarded(trace) && Rejections([p] + trace) == Rejections(trace)
  {
    assert ([p] + trace)[1..] == trace;
  }

  lemma {:induction false} LookEncoded(c: Codec, limits: Limits, payload: Bytes, tail: Bytes)
    requires Sound(c) && Encode(c, payload, limits).Ok?
    ensures var frame := Encode(c, payload, limits).value;
            Look(c, limits, frame + tail) == Take(Accepted(frame, payload))
  {
    var frame := Encode(c, payload, limits).value;
    EncodeShape(c, payload, limits);
    DecodeEncode(c, payload, limits);
    hide Encode, Decode;
    assert frame[..U16At(frame, 0)] == frame;
    LookStable(c, limits, frame, tail);
  }

  /** THEOREM: however the encodings of a list of payloads are cut into chunks, the decoder yields
      exactly those payloads in order, rejects and discards nothing and ends with an empty buffer. */
  lemma DeliveryIgnoresChunking(c: Codec, limits: Limits, payloads: seq<Bytes>, chunks: seq<Bytes>)
    requires Sound(c) && limits.Valid() && Sendable(c, limits, payloads)
    requires Concat(chunks) == Encodings(c, limits, payloads)
    ensures var fed := FeedAll(c, limits, chunks);
            Payloads(fed.trace) == payloads && Discarded(fed.trace) == 0 && Rejections(fed.trace) == 0 && fed.buffer == []
  {
    FeedAllIsScan(c, limits, chunks);
    ScanEncodings(c, limits, payloads);
  }

  // ----------------------------------------------------------------- the decoder

  datatype FeedResult = FeedResult(payloads: seq<Bytes>, rejected: nat, discarded: nat)

  function Summary(trace: seq<Piece>): FeedResult {
    FeedResult(Payloads(trace), Rejections(trace), Discarded(trace))
  }

  lemma {:induction false} SummaryAppend(a: seq<Piece>, b: seq<Piece>)
    ensures Payloads(a + b) == Payloads(a) + Payloads(b)
    ensures Rejections(a + b) == Rejections(a) + Rejections(b)
    ensures Discarded(a + b) == Discarded(a) + Discarded(b)
  {
    if a == [] {
      assert a + b == b;
    } else {
      SummaryAppend(a[1..], b);
      assert (a + b)[1..] == a[1..] + b;
    }
  }

  lemma SummaryOne(trace: seq<Piece>, p: Piece)
    ensures Payloads(trace + [p]) == Payloads(trace) + (if p.Accepted? then [p.payload] else [])
    ensures Rejections(trace + [p]) == Rejections(trace) + (if p.Rejected? then 1 else 0)
    ensures Discarded(trace + [p]) == Discarded(trace) + (if p.Accepted? then 0 else 1)
  {
    SummaryAppend(trace, [p]);
    assert [p][1..] == [];
  }

  /** One settled stretch, as the loop in `Feed` accounts for it. */
  lemma Advance(c: Codec, limits: Limits, trace: seq<Piece>, b: Bytes, start: nat, p: Piece)
    requires start <= |b| && Look(c, limits, b[start..]) == Take(p)
    ensures start + |Raw(p)| <= |b|
    ensures Append(trace, Scan(c, limits, b[start..])) == Append(trace + [p], Scan(c, limits, b[start + |Raw(p)|..]))
  {
    ScanTake(c, limits, b[start..], p);
    hide Look, Scan;
    assert b[start..][|Raw(p)|..] == b[start + |Raw(p)|..];
    var t := Scan(c, limits, b[start + |Raw(p)|..]);
    assert trace + ([p] + t.trace) == trace + [p] + t.trace;
  }

  /** One settled stretch of an expired buffer. */
  lemma AdvanceExpired(c: Codec, limits: Limits, trace: seq<Piece>, b: Bytes, start: nat, p: Piece)
    requires start < |b| && p == Settle(c, limits, b[start..])
    ensures start + |Raw(p)| <= |b|
    ensures trace + Recover(c, limits, b[start..]) == trace + [p] + Recover(c, limits, b[start + |Raw(p)|..])
  {
    hide Settle;
    assert b[start..][|Raw(p)|..] == b[start + |Raw(p)|..];
    var t := Recover(c, limits, b[start + |Raw(p)|..]);
    assert Recover(c, limits, b[start..]) == [p] + t;
    hide Recover;
    assert trace + ([p] + t) == trace + [p] + t;
  }

  /** The decision the loop in `Feed` takes on what is left. */
  lemma LookCases(c: Codec, limits: Limits, b: Bytes)
    requires |b| >= 6
    ensures !ValidHeader(b, limits) ==> Look(c, limits, b) == Take(Skipped(b[0]))
    ensures ValidHeader(b, limits) && |b| < U16At(b, 0) ==> Scan(c, limits, b) == Scanned([], b)
    ensures ValidHeader(b, limits) && |b| >= U16At(b, 0) ==>
              var d := Decode(c, b[..U16At(b, 0)], limits);
              Look(c, limits, b) == Take(if d.Ok? then Accepted(b[..U16At(b, 0)], d.value) else Rejected(b[0]))
  {
    hide Decode, ValidHeader, U16At;
  }

  lemma SettleCases(c: Codec, limits: Limits, b: Bytes)
    requires |b| >= 10
    ensures !ValidHeader(b, limits) || |b| < U16At(b, 0) ==> Settle(c, limits, b) == Skipped(b[0])
    ensures ValidHeader(b, limits) && |b| >= U16At(b, 0) ==>
              var d := Decode(c, b[..U16At(b, 0)], limits);
              Settle(c, limits, b) == (if d.Ok? then Accepted(b[..U16At(b, 0)], d.value) else Rejected(b[0]))
  {
    hide Decode, ValidHeader, U16At;
  }

  class FrameDecoder {
    const codec: Codec
    const limits: Limits
    var buffer: Bytes

    ghost predicate Valid()
      reads this
    {
      limits.Valid() && |buffer| < limits.frame
    }

    constructor (codec: Codec, limits: Limits)
      requires limits.Valid()
      ensures Valid() && buffer == [] && this.codec == codec && this.limits == limits
    {
      this.codec, this.limits, buffer := codec, limits, [];
    }

    method Reset()
      requires limits.Valid()
      modifies this`buffer
      ensures Valid() && buffer == []
    {
      buffer := [];
    }

    /** A chunk is refused only for its own length; otherwise the buffer is scanned. */
    method Feed(chunk: Bytes) returns (r: Result<FeedResult, FrameError>)
      requires Valid()
      modifies this`buffer
      ensures Valid()
      ensures r.Err? <==> |chunk| > limits.frame
      ensures r.Err? ==> r.error == BufferLimit && buffer == []
      ensures r.Ok? ==>
                var s := Scan(codec, limits, old(buffer) + chunk);
                buffer == s.rest && r.value == Summary(s.trace)
      ensures r.Ok? ==> forall p :: p in r.value.payloads ==> Carried(codec, limits, old(buffer) + chunk, p)
    {
      hide Look, Scan, Decode, ValidHeader, U16At, Payloads, Rejections, Discarded, Carried, Verified;
      if |chunk| > limits.frame || |buffer| + |chunk| > limits.frame * 2 {
        Reset();
        return Err(BufferLimit);
      }
      buffer := buffer + chunk;
      ghost var whole := Scan(codec, limits, buffer);
      var payloads: seq<Bytes>, rejected: nat, discarded: nat := [], 0, 0;
      var start: nat := 0;
      ghost var trace: seq<Piece> := [];
      assert buffer[0..] == buffer;
      EmptySummary();
      while |buffer| - start >= 6
        invariant start <= |buffer| && buffer == old(buffer) + chunk
        invariant whole == Append(trace, Scan(codec, limits, buffer[start..]))
        invariant FeedResult(payloads, rejected, discarded) == Summary(trace)
      {
        var tail := buffer[start..];
        LookCases(codec, limits, tail);
        if !ValidHeader(tail, limits) {
          Advance(codec, limits, trace, buffer, start, Skipped(tail[0]));
          SummaryOne(trace, Skipped(tail[0]));
          trace := trace + [Skipped(tail[0])];
          start, discarded := start + 1, discarded + 1;
          continue;
        }
        var total := U16At(tail, 0);
        if |tail| < total { break; }
        match Decode(codec, tail[..total], limits) {
          case Ok(payload) =>
            Advance(codec, limits, trace, buffer, start, Accepted(tail[..total], payload));
            SummaryOne(trace, Accepted(tail[..total], payload));
            trace := trace + [Accepted(tail[..total], payload)];
            payloads, start := payloads + [payload], start + total;
          case Err(_) =>
            Advance(codec, limits, trace, buffer, start, Rejected(tail[0]));
            SummaryOne(trace, Rejected(tail[0]));
            trace := trace + [Rejected(tail[0])];
            rejected, start, discarded := rejected + 1, start + 1, discarded + 1;
        }
      }
      ShortScan(codec, limits, buffer[start..]);
      assert Scan(codec, limits, buffer[start..]) == Scanned([], buffer[start..]);
      assert trace + [] == trace;
      ScanBounded(codec, limits, buffer);
      forall p | p in payloads ensures Carried(codec, limits, buffer, p) {
        ScanTiles(codec, limits, buffer);
        DeliveredCarried(codec, limits, trace, buffer, whole.rest, p);
      }
      buffer := buffer[start..];
      r := Ok(FeedResult(payloads, rejected, discarded));
    }

    method RecoverExpired() returns (r: FeedResult)
      requires Valid()
      modifies this`buffer
      ensures Valid() && buffer == []
      ensures r == Summary(Recover(codec, limits, old(buffer)))
      ensures forall p :: p in r.payloads ==> Carried(codec, limits, old(buffer), p)
    {
      hide Settle, Recover, Decode, ValidHeader, U16At, Payloads, Rejections, Discarded, Carried, Verified;
      ghost var whole := Recover(codec, limits, buffer);
      var payloads: seq<Bytes>, rejected: nat, discarded: nat := [], 0, 0;
      var start: nat := 0;
      ghost var trace: seq<Piece> := [];
      assert buffer[0..] == buffer;
      EmptySummary();
      while |buffer| - start >= 10
        invariant start <= |buffer| && buffer == old(buffer)
        invariant whole == trace + Recover(codec, limits, buffer[start..])
        invariant FeedResult(payloads, rejected, discarded) == Summary(trace)
      {
        var tail := buffer[start..];
        ghost var p := Settle(codec, limits, tail);
        SettleCases(codec, limits, tail);
        AdvanceExpired(codec, limits, trace, buffer, start, p);
        SummaryOne(trace, p);
        trace := trace + [p];
        if ValidHeader(tail, limits) {
          var total := U16At(tail, 0);
          if total <= |tail| {
            match Decode(codec, tail[..total], limits) {
              case Ok(payload) =>
                payloads, start := payloads + [payload], start + total;
                continue;
              case Err(_) =>
                rejected := rejected + 1;
            }
          }
        }
        start, discarded := start + 1, discarded + 1;
      }
      ShortTail(codec, limits, buffer[start..]);
      SummaryAppend(trace, Recover(codec, limits, buffer[start..]));
      forall p | p in Payloads(whole) ensures Carried(codec, limits, buffer, p) {
        RecoverTiles(codec, limits, buffer);
        assert Flatten(whole) + [] == buffer;
        DeliveredCarried(codec, limits, whole, buffer, [], p);
      }
      discarded := discarded + (|buffer| - start);
      buffer := [];
      r := FeedResult(payloads, rejected, discarded);
    }
  }

  lemma EmptySummary()
    ensures Summary([]) == FeedResult([], 0, 0)
  {
  }

  /** Fewer bytes than a header wait. */
  lemma ShortScan(c: Codec, limits: Limits, b: Bytes)
    ensures |b| < 6 ==> Scan(c, limits, b) == Scanned([], b)
  {
  }

  /** Fewer bytes than the smallest frame are discarded one by one. */
  lemma {:induction false} ShortTail(c: Codec, limits: Limits, b: Bytes)
    requires |b| < 10
    ensures Summary(Recover(c, limits, b)) == FeedResult([], 0, |b|)
    decreases |b|
  {
    if b != [] {
      ShortTail(c, limits, b[1..]);
      assert Recover(c, limits, b)[1..] == Recover(c, limits, b[1..]);
    }
  }
}
