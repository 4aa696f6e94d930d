/** The TCP wire format (section 3.1 of RFC 793): header layout, parsing, and whole segments with
    their checksum. */
module SegmentFormat {
  import opened Bytes
  import opened Checksums
  import opened Parsing
  import opened Segments

  const HEADER_LENGTH: nat := 20

  function Bit(on: bool, value: nat): nat { if on then value else 0 }

  /** The byte of the six flags. */
  function FlagByte(h: Header): byte
  {
    Bit(h.urg, 32) + Bit(h.ack, 16) + Bit(h.psh, 8) + Bit(h.rst, 4) + Bit(h.syn, 2) + Bit(h.fin, 1)
  }

  predicate HasBit(b: byte, value: nat)
    requires value > 0
  {
    b / value % 2 == 1
  }

  /** The twenty bytes of the header, in order. */
  function Layout(h: Header): (b: seq<byte>)
    ensures |b| == HEADER_LENGTH
  {
    [ h.sport / 0x100, h.sport % 0x100, h.dport / 0x100, h.dport % 0x100,
      h.seqno / 0x100_0000, h.seqno / 0x1_0000 % 0x100, h.seqno / 0x100 % 0x100, h.seqno % 0x100,
      h.ackno / 0x100_0000, h.ackno / 0x1_0000 % 0x100, h.ackno / 0x100 % 0x100, h.ackno % 0x100,
      h.doff * 16 % 0x100, FlagByte(h), h.win / 0x100, h.win % 0x100,
      h.cksum / 0x100, h.cksum % 0x100, h.uptr / 0x100, h.uptr % 0x100 ]
  }

  function Word(b: seq<byte>, i: nat): uint16
    requires i + 2 <= |b|
  {
    0x100 * (b[i] as int) + b[i + 1] as int
  }

  function Long(b: seq<byte>, i: nat): uint32
    requires i + 4 <= |b|
  {
    0x100_0000 * (b[i] as int) + 0x1_0000 * (b[i + 1] as int) + 0x100 * (b[i + 2] as int) + b[i + 3] as int
  }

  /** The header in the first twenty bytes; reserved bits are ignored. */
  function Decode(b: seq<byte>): Header
    requires |b| >= HEADER_LENGTH
  {
    var f := b[13];
    Header(Word(b, 0), Word(b, 2), Long(b, 4), Long(b, 8), b[12] / 16,
           HasBit(f, 32), HasBit(f, 16), HasBit(f, 8), HasBit(f, 4), HasBit(f, 2), HasBit(f, 1),
           Word(b, 14), Word(b, 16), Word(b, 18))
  }

  lemma FlagsDecoded(h: Header)
    ensures var f := FlagByte(h);
            && HasBit(f, 32) == h.urg && HasBit(f, 16) == h.ack && HasBit(f, 8) == h.psh
            && HasBit(f, 4) == h.rst && HasBit(f, 2) == h.syn && HasBit(f, 1) == h.fin
  {
  }

  lemma WordBack(b: seq<byte>, i: nat, v: uint16)
    requires i + 2 <= |b| && b[i] == v / 0x100 && b[i + 1] == v % 0x100
    ensures Word(b, i) == v
  {
  }

  lemma LongBack(b: seq<byte>, i: nat, v: uint32)
    requires i + 4 <= |b| && b[i] == v / 0x100_0000 && b[i + 1] == v / 0x1_0000 % 0x100
    requires b[i + 2] == v / 0x100 % 0x100 && b[i + 3] == v % 0x100
    ensures Long(b, i) == v
  {
    LongDigits(v);
  }

  lemma LongDigits(v: uint32)
    ensures 0x100_0000 * (v / 0x100_0000) + 0x1_0000 * (v / 0x1_0000 % 0x100)
            + 0x100 * (v / 0x100 % 0x100) + v % 0x100 == v
  {
    var hi, lo := v / 0x1_0000, v % 0x1_0000;
    assert v == 0x1_0000 * hi + lo;
    assert hi == 0x100 * (hi / 0x100) + hi % 0x100 && hi / 0x100 == v / 0x100_0000;
    assert lo == 0x100 * (lo / 0x100) + lo % 0x100 && lo % 0x100 == v % 0x100 && lo / 0x100 == v / 0x100 % 0x100;
  }

  lemma OffsetBack(d: nat)
    ensures d * 16 % 0x100 / 16 == d % 16
  {
  }

  lemma LayoutDecoded(h: Header, rest: seq<byte>)
    ensures Decode(Layout(h) + rest) == h.(doff := h.doff % 16)
  {
    var b := Layout(h) + rest;
    assert forall i | 0 <= i < HEADER_LENGTH :: b[i] == Layout(h)[i];
    OffsetBack(h.doff);
    FlagsDecoded(h);
    LongBack(b, 4, h.seqno);
    LongBack(b, 8, h.ackno);
    WordBack(b, 0, h.sport);
    WordBack(b, 2, h.dport);
    WordBack(b, 14, h.win);
    WordBack(b, 16, h.cksum);
    WordBack(b, 18, h.uptr);
  }

  function Zeros(n: nat): (z: seq<byte>)
    ensures |z| == n
  {
    seq(n, _ => 0)
  }

  /** `TCPHeader::serialize`; it throws when the data offset is below the minimum. */
  function SerializeHeader(h: Header): Option<seq<byte>>
  {
    if h.doff < 5 then None else Some(Layout(h) + Zeros(4 * h.doff - HEADER_LENGTH))
  }

  // --- TCPHeader::parse ---

  /** The fields read one after another; after an error they are zero. */
  function ReadHeader(p: Parser): Header
    requires p.Valid()
  {
    var p1 := p.Skip(2);
    var p2 := p1.Skip(2);
    var p3 := p2.Skip(4);
    var p4 := p3.Skip(4);
    var p5 := p4.Skip(1);
    var p6 := p5.Skip(1);
    var p7 := p6.Skip(2);
    var p8 := p7.Skip(2);
    var f := Byte(p5);
    Header(Short(p), Short(p1), Full(p2), Full(p3), Byte(p4) / 16,
           HasBit(f, 32), HasBit(f, 16), HasBit(f, 8), HasBit(f, 4), HasBit(f, 2), HasBit(f, 1),
           Short(p6), Short(p7), Short(p8))
  }

  function Byte(p: Parser): byte
    requires p.Valid()
  {
    assert Pow256(1) == 0x100;
    p.Int(1)
  }

  function Short(p: Parser): uint16
    requires p.Valid()
  {
    assert Pow256(2) == TWO16;
    p.Int(2)
  }

  function Full(p: Parser): uint32
    requires p.Valid()
  {
    assert Pow256(2) == TWO16;
    assert Pow256(4) == TWO32;
    p.Int(4)
  }

  function AfterHeader(p: Parser): (q: Parser)
    requires p.Valid()
    ensures q.Valid()
  {
    p.Skip(2).Skip(2).Skip(4).Skip(4).Skip(1).Skip(1).Skip(2).Skip(2).Skip(2)
  }

  lemma {:induction false} BigEndianShort(d: seq<byte>)
    requires |d| == 2
    ensures BigEndian(d) == 0x100 * (d[0] as int) + d[1] as int
  {
    assert d[..1][..0] == [];
    assert BigEndian(d[..1]) == d[0];
  }

  lemma {:induction false} BigEndianFull(d: seq<byte>)
    requires |d| == 4
    ensures BigEndian(d) == Long(d, 0)
  {
    BigEndianShort(d[..2]);
    assert d[..3][..2] == d[..2] && d[..2][0] == d[0] && d[..2][1] == d[1];
    assert BigEndian(d[..3]) == BigEndian(d[..2]) * 0x100 + d[2];
  }

  /** Whether `n` more bytes can be read. */
  predicate Has(p: Parser, n: nat) { p.Valid() && p.error == NoError && p.at + n <= |p.data| }

  lemma ReadShort(p: Parser)
    requires Has(p, 2)
    ensures p.Skip(2) == p.(at := p.at + 2) && Short(p) == Word(p.data, p.at)
  {
    BigEndianShort(p.data[p.at..p.at + 2]);
  }

  lemma ReadFull(p: Parser)
    requires Has(p, 4)
    ensures p.Skip(4) == p.(at := p.at + 4) && Full(p) == Long(p.data, p.at)
  {
    BigEndianFull(p.data[p.at..p.at + 4]);
  }

  lemma ReadByte(p: Parser)
    requires Has(p, 1)
    ensures p.Skip(1) == p.(at := p.at + 1) && Byte(p) == p.data[p.at]
  {
    var d := p.data[p.at..p.at + 1];
    assert d[..0] == [];
  }

  /** With twenty bytes to read, reading field by field is decoding. */
  lemma ReadIsDecode(p: Parser)
    requires Has(p, HEADER_LENGTH) && p.at == 0
    ensures ReadHeader(p) == Decode(p.data) && AfterHeader(p) == p.(at := HEADER_LENGTH)
  {
    ReadShort(p);
    ReadShort(p.(at := 2));
    ReadFull(p.(at := 4));
    ReadFull(p.(at := 8));
    ReadByte(p.(at := 12));
    ReadByte(p.(at := 13));
    ReadShort(p.(at := 14));
    ReadShort(p.(at := 16));
    ReadShort(p.(at := 18));
  }

  /** With fewer, the parser ends up in error. */
  lemma ReadTooShort(p: Parser)
    requires p.Valid() && p.at == 0 && p.error == NoError && |p.data| < HEADER_LENGTH
    ensures AfterHeader(p).error == PacketTooShort
  {
    var p2 := p.Skip(2).Skip(2);
    var p4 := p2.Skip(4).Skip(4);
    var p6 := p4.Skip(1).Skip(1);
    assert p2.error == NoError ==> p2.at == 4;
    assert p4.error == NoError ==> p4.at == 12;
    assert p6.error == NoError ==> p6.at == 14;
  }

  datatype HeaderParse = HeaderParse(header: Header, result: ParseResult, rest: Parser)

  function ParseHeader(p: Parser): (r: HeaderParse)
    requires p.Valid()
    ensures r.rest.Valid()
  {
    var h, q := ReadHeader(p), AfterHeader(p);
    if h.doff < 5 then HeaderParse(h, HeaderTooShort, q)
    else
      var s := q.Skip(4 * h.doff - HEADER_LENGTH);
      HeaderParse(h, s.error, s)
  }

  /** `TCPHeader::parse` reports exactly the two shortcomings it is asked to look for. */
  lemma HeaderParsed(data: seq<byte>)
    ensures var r := ParseHeader(Parser(data, 0, NoError));
            && (r.result == NoError <==> |data| >= HEADER_LENGTH && 5 <= data[12] / 16 && |data| >= 4 * (data[12] / 16))
            && (|data| >= HEADER_LENGTH ==> (r.result == HeaderTooShort <==> data[12] / 16 < 5))
            && (r.result == NoError ==>
                  r.header == Decode(data) && r.rest == Parser(data, 4 * (data[12] / 16), NoError))
  {
    var p := Parser(data, 0, NoError);
    if |data| >= HEADER_LENGTH {
      ReadIsDecode(p);
    } else {
      ReadTooShort(p);
      var q, h := AfterHeader(p), ReadHeader(p);
      if h.doff >= 5 { assert q.Skip(4 * h.doff - HEADER_LENGTH).error == PacketTooShort; }
    }
  }

  // --- Segments ---

  /** What the checksum is computed over, starting from the pseudo-header's sum; 32 bits wide. */
  function WireSum(data: seq<byte>, pseudo: uint32): uint32 { (pseudo + Sum(data, false)) % TWO32 }

  /** `TCPSegment::parse` into `seg`: the outcome and the new value. A bad checksum leaves `seg` alone.
      The outcome is the parser's error state, not what the header parser returned. */
  function ParseSegment(seg: Segment, data: seq<byte>, pseudo: uint32): (ParseResult, Segment)
  {
    if Checksum(WireSum(data, pseudo)) != 0 then (BadChecksum, seg)
    else Outcome(ParseHeader(Parser(data, 0, NoError)))
  }

  function Outcome(r: HeaderParse): (ParseResult, Segment)
    requires r.rest.Valid()
  {
    (r.rest.error, Segment(r.header, r.rest.Rest()))
  }

  /** A segment is accepted exactly when its checksum holds, a header fits, and the data offset is
      either within the buffer or below the minimum; otherwise the error says which of these fails. */
  lemma AcceptedSegment(seg: Segment, data: seq<byte>, pseudo: uint32)
    ensures ParseSegment(seg, data, pseudo).0 ==
            if Checksum(WireSum(data, pseudo)) != 0 then BadChecksum
            else if |data| < 20 || (data[12] / 16 >= 5 && |data| < 4 * (data[12] / 16)) then PacketTooShort
            else NoError
  {
    if |data| >= HEADER_LENGTH {
      ReadIsDecode(Parser(data, 0, NoError));
    } else {
      HeaderParsed(data);
      ReadTooShort(Parser(data, 0, NoError));
    }
  }

  /** The promise that a data offset below the minimum is an error is kept by the header parser but
      lost by the segment parser: such a segment is accepted, with its options taken for payload. */
  lemma ShortOffsetAccepted(seg: Segment, data: seq<byte>, pseudo: uint32)
    requires Checksum(WireSum(data, pseudo)) == 0 && |data| >= HEADER_LENGTH && data[12] / 16 < 5
    ensures ParseHeader(Parser(data, 0, NoError)).result == HeaderTooShort
    ensures ParseSegment(seg, data, pseudo) == (NoError, Segment(Decode(data), data[HEADER_LENGTH..]))
  {
    ReadIsDecode(Parser(data, 0, NoError));
  }

  /** Such a segment: a header of twenty bytes with data offset zero, and source port 65535 to make
      the checksum good. */
  lemma ShortOffsetExample(seg: Segment)
    ensures var data := [0xff, 0xff] + Zeros(18);
            && ParseHeader(Parser(data, 0, NoError)).result == HeaderTooShort
            && ParseSegment(seg, data, 0).0 == NoError
  {
    var data: seq<byte> := [0xff, 0xff] + Zeros(18);
    PairSum(0xffff);
    ZerosSum(18, false);
    SumChunks([0xff, 0xff], Zeros(18), false);
    assert Sum(data, false) == 0xffff;
    AcceptedSum(0xffff);
    assert data[12] == Zeros(18)[10] == 0;
    ShortOffsetAccepted(seg, data, 0);
  }

  lemma {:induction false} ZerosSum(n: nat, odd: bool)
    ensures Sum(Zeros(n), odd) == 0
    decreases n
  {
    if n > 0 {
      assert Zeros(n)[1..] == Zeros(n - 1);
      ZerosSum(n - 1, !odd);
    }
  }

  /** A segment with a good checksum and then any one byte changed is refused, and leaves the old value alone. */
  lemma CorruptionRefused(into: Segment, data: seq<byte>, pseudo: uint32, i: nat, b: byte)
    requires Checksum(WireSum(data, pseudo)) == 0 && i < |data| && b != data[i]
    ensures ParseSegment(into, data[i := b], pseudo) == (BadChecksum, into)
  {
    OneByteDetected(data, i, b, pseudo);
    BadRefused(into, data[i := b], pseudo);
  }

  lemma {:induction false} BadRefused(into: Segment, data: seq<byte>, pseudo: uint32)
    requires Checksum((pseudo + Sum(data, false)) % TWO32) != 0
    ensures ParseSegment(into, data, pseudo) == (BadChecksum, into)
  {
  }

  function Blank(h: Header): Header { h.(cksum := 0) }

  /** The checksum put into the header: that of the segment with the field blank. */
  function Seal(seg: Segment, pseudo: uint32): Header
    requires seg.header.doff >= 5
  {
    seg.header.(cksum := Checksum(WireSum(SerializeHeader(Blank(seg.header)).value + seg.payload, pseudo)))
  }

  function SerializeSegment(seg: Segment, pseudo: uint32): Option<seq<byte>>
  {
    if seg.header.doff < 5 then None
    else Some(SerializeHeader(Seal(seg, pseudo)).value + seg.payload)
  }

  lemma LayoutParts(h: Header)
    ensures Layout(h)[16..] == [h.cksum / 0x100, h.cksum % 0x100] + Layout(h)[18..]
    ensures Layout(h)[..16] == Layout(Blank(h))[..16] && Layout(h)[18..] == Layout(Blank(h))[18..]
  {
  }

  lemma PairSum(v: uint16)
    ensures Sum([v / 0x100, v % 0x100], false) == v
  {
    var d: seq<byte> := [v / 0x100, v % 0x100];
    assert d[1..] == [v % 0x100] && d[1..][1..] == [];
    assert Sum(d[1..], true) == v % 0x100;
  }

  /** The checksum field adds its own value to the sum. */
  lemma {:induction false} ChecksumField(h: Header, rest: seq<byte>)
    ensures Sum(Layout(h) + rest, false) == Sum(Layout(Blank(h)) + rest, false) + h.cksum
  {
    FieldApart(h, rest);
    FieldApart(Blank(h), rest);
    LayoutParts(h);
    PairSum(h.cksum);
    PairSum(0);
  }

  lemma {:induction false} FieldApart(h: Header, rest: seq<byte>)
    ensures Sum(Layout(h) + rest, false) ==
            Sum(Layout(h)[..16], false) + Sum([h.cksum / 0x100, h.cksum % 0x100], false)
            + Sum(Layout(h)[18..] + rest, false)
  {
    var front, field, back := Layout(h)[..16], [h.cksum / 0x100, h.cksum % 0x100], Layout(h)[18..] + rest;
    LayoutParts(h);
    assert Layout(h) + rest == front + (field + back);
    SumChunks(front, field + back, false);
    SumChunks(field, back, false);
  }

  lemma {:induction false} SealedSum(h: Header, rest: seq<byte>, pseudo: uint32, sum: nat)
    requires sum == pseudo + Sum(Layout(Blank(h)) + rest, false) && h.cksum == Checksum(sum % TWO32)
    ensures Checksum(WireSum(Layout(h) + rest, pseudo)) == 0
  {
    ChecksumField(h, rest);
    SumWraps(sum, h.cksum);
    CompletedSum(sum % TWO32);
  }

  lemma CompletedSum(rest: uint32)
    ensures Checksum((rest + Checksum(rest)) % TWO32) == 0
  {
    ChecksumFits(rest);
    ChecksumCompletes(rest);
  }

  /** A sealed segment passes the checksum, even where the 32-bit sum wraps around. */
  lemma SealHolds(seg: Segment, pseudo: uint32)
    requires seg.header.doff >= 5
    ensures Checksum(WireSum(SerializeSegment(seg, pseudo).value, pseudo)) == 0
  {
    var h, s, z := seg.header, Seal(seg, pseudo), Zeros(4 * seg.header.doff - HEADER_LENGTH);
    assert SerializeHeader(Blank(h)).value + seg.payload == Layout(Blank(h)) + (z + seg.payload);
    assert SerializeSegment(seg, pseudo).value == Layout(s) + (z + seg.payload);
    assert Blank(s) == Blank(h);
    SealedSum(s, z + seg.payload, pseudo, pseudo + Sum(Layout(Blank(h)) + (z + seg.payload), false));
  }

  /** What a segment with a good checksum parses to. */
  lemma ParsedFields(into: Segment, data: seq<byte>, pseudo: uint32)
    requires Checksum(WireSum(data, pseudo)) == 0 && |data| >= HEADER_LENGTH
    ensures ParseSegment(into, data, pseudo).1.header == Decode(data)
    ensures var off := Decode(data).doff;
            5 <= off && 4 * off <= |data| ==>
              ParseSegment(into, data, pseudo) == (NoError, Segment(Decode(data), data[4 * off..]))
  {
    ReadIsDecode(Parser(data, 0, NoError));
  }

  lemma SameBack(s: Header, d: Header, payload: seq<byte>, data: seq<byte>, r: (ParseResult, Segment))
    requires s.doff >= 5 && |data| == 4 * s.doff + |payload| && data[4 * s.doff..] == payload
    requires d == s.(doff := s.doff % 16) == r.1.header
    requires 5 <= d.doff && 4 * d.doff <= |data| ==> r == (NoError, Segment(d, data[4 * d.doff..]))
    ensures r == (NoError, Segment(s, payload)) <==> s.doff <= 15
  {
    if s.doff <= 15 { assert d == s; }
  }

  /** Wire round trip: a serialized segment parses without error into the same fields (the checksum
      field apart) and the same payload, exactly when the data offset fits its four bits. */
  lemma RoundTrip(seg: Segment, pseudo: uint32, into: Segment)
    requires seg.header.doff >= 5
    ensures ParseSegment(into, SerializeSegment(seg, pseudo).value, pseudo)
            == (NoError, seg.(header := Seal(seg, pseudo)))
            <==> seg.header.doff <= 15
  {
    var data := SerializeSegment(seg, pseudo).value;
    var s, z := Seal(seg, pseudo), Zeros(4 * seg.header.doff - HEADER_LENGTH);
    SealHolds(seg, pseudo);
    assert data == Layout(s) + (z + seg.payload);
    LayoutDecoded(s, z + seg.payload);
    ParsedFields(into, data, pseudo);
    assert data[4 * s.doff..] == seg.payload;
    SameBack(s, Decode(data), seg.payload, data, ParseSegment(into, data, pseudo));
  }

  // --- Where each field is ---

  /** The bytes hold the fields of the header, each in its place (section 3.1 of RFC 793). */
  ghost predicate FieldsIn(h: Header, b: seq<byte>)
  {
    && |b| >= 20
    && BigEndian(b[0..2]) == h.sport && BigEndian(b[2..4]) == h.dport
    && BigEndian(b[4..8]) == h.seqno && BigEndian(b[8..12]) == h.ackno
    && b[12] / 16 == h.doff
    && (b[13] / 32 % 2 == 1 <==> h.urg) && (b[13] / 16 % 2 == 1 <==> h.ack) && (b[13] / 8 % 2 == 1 <==> h.psh)
    && (b[13] / 4 % 2 == 1 <==> h.rst) && (b[13] / 2 % 2 == 1 <==> h.syn) && (b[13] % 2 == 1 <==> h.fin)
    && BigEndian(b[14..16]) == h.win && BigEndian(b[16..18]) == h.cksum && BigEndian(b[18..20]) == h.uptr
  }

  lemma ShortAt(b: seq<byte>, i: nat)
    requires i + 2 <= |b|
    ensures BigEndian(b[i..i + 2]) == Word(b, i)
  {
    BigEndianShort(b[i..i + 2]);
  }

  lemma FullAt(b: seq<byte>, i: nat)
    requires i + 4 <= |b|
    ensures BigEndian(b[i..i + 4]) == Long(b, i)
  {
    BigEndianFull(b[i..i + 4]);
  }

  lemma DecodedFields(b: seq<byte>)
    requires |b| >= HEADER_LENGTH
    ensures FieldsIn(Decode(b), b)
  {
    ShortAt(b, 0);
    ShortAt(b, 2);
    FullAt(b, 4);
    FullAt(b, 8);
    ShortAt(b, 14);
    ShortAt(b, 16);
    ShortAt(b, 18);
  }

  /** A serialized header has every field in its place, the data offset cut to four bits; reserved bits
      and options are zero, and it is as long as the data offset says. */
  lemma SerializedFields(h: Header)
    requires h.doff >= 5
    ensures var b := SerializeHeader(h).value;
            && |b| == 4 * h.doff && FieldsIn(h.(doff := h.doff % 16), b)
            && b[12] % 16 == 0 && b[13] < 64 && forall i | 20 <= i < |b| :: b[i] == 0
  {
    var z := Zeros(4 * h.doff - HEADER_LENGTH);
    LayoutDecoded(h, z);
    DecodedFields(Layout(h) + z);
    LayoutRest(h, z, Layout(h) + z);
  }

  lemma LayoutRest(h: Header, z: seq<byte>, b: seq<byte>)
    requires b == Layout(h) + z && forall i | 0 <= i < |z| :: z[i] == 0
    ensures |b| == 20 + |z| && b[12] % 16 == 0 && b[13] < 64 && forall i | 20 <= i < |b| :: b[i] == 0
  {
  }

  /** A segment with a good checksum is parsed to the fields that are in it. */
  lemma ParsedInPlace(into: Segment, data: seq<byte>, pseudo: uint32)
    requires Checksum(WireSum(data, pseudo)) == 0 && |data| >= 20
    ensures FieldsIn(ParseSegment(into, data, pseudo).1.header, data)
  {
    ParsedFields(into, data, pseudo);
    DecodedFields(data);
  }

  /** A SYN/ACK with one byte of payload, byte by byte. */
  const SAMPLE: seq<byte> := [
    0x30, 0x39, 0x00, 0x50, 0x01, 0x02, 0x03, 0x04, 0x0a, 0x0b, 0x0c, 0x0d,
    0x50, 0x12, 0xfa, 0xf0, 0x40, 0x55, 0x00, 0x00, 0x2a ]

  const SAMPLE_HEADER: Header :=
    Header(12345, 80, 0x01020304, 0x0a0b0c0d, 5, false, true, false, false, true, false, 64240, 0x4055, 0)

  lemma {:induction false} PairFirst(d: seq<byte>)
    requires |d| >= 2
    ensures Sum(d, false) == 0x100 * (d[0] as int) + d[1] as int + Sum(d[2..], false)
  {
    assert d[1..][1..] == d[2..];
  }

  /** Twenty-one bytes with this checksum field and sum of the rest. */
  lemma {:induction false} SampleSum(d: seq<byte>, cksum: nat)
    requires |d| == 21 && d[..16] == SAMPLE[..16] && d[18..] == SAMPLE[18..]
    requires cksum == 0x100 * (d[16] as int) + d[17] as int
    ensures Sum(d, false) == 0x1bfa9 + cksum
  {
    assert forall i | 0 <= i < 16 :: d[i] == SAMPLE[..16][i] == SAMPLE[i];
    assert d[18] == SAMPLE[18..][0] && d[19] == SAMPLE[18..][1] && d[20] == SAMPLE[18..][2];
    var e, f := d[8..], d[16..];
    SampleQuarter(d);
    SampleQuarter(e);
    assert e[8..] == f;
    PairFirst(f);
    PairFirst(f[2..]);
    assert f[2..][2..] == [0x2a] && [0x2a][1..] == [];
  }

  /** The first four pairs. */
  lemma {:induction false} SampleQuarter(d: seq<byte>)
    requires |d| >= 8
    ensures Sum(d, false) == 0x100 * (d[0] + d[2] + d[4] + d[6]) + d[1] + d[3] + d[5] + d[7] + Sum(d[8..], false)
  {
    PairFirst(d);
    PairFirst(d[2..]);
    PairFirst(d[4..]);
    PairFirst(d[6..]);
    assert d[2..][2..] == d[4..] && d[4..][2..] == d[6..] && d[6..][2..] == d[8..];
  }

  /** The sample is what the header serializes to, checksum included, and is parsed back. */
  lemma SampleSegment(into: Segment)
    ensures SerializeSegment(Segment(SAMPLE_HEADER.(cksum := 0), [0x2a]), 0) == Some(SAMPLE)
    ensures ParseSegment(into, SAMPLE, 0) == (NoError, Segment(SAMPLE_HEADER, [0x2a]))
  {
    var seg := Segment(SAMPLE_HEADER.(cksum := 0), [0x2a]);
    var blank := Layout(seg.header) + Zeros(0) + [0x2a];
    SampleSum(blank, 0);
    assert Fold(0x1bfa9) == 0xbfaa;
    assert Seal(seg, 0) == SAMPLE_HEADER;
    assert Layout(SAMPLE_HEADER) + Zeros(0) + [0x2a] == SAMPLE;
    RoundTrip(seg, 0, into);
  }
}
