/** Headers and segments as the code reads and writes them, step by step. */
module TCPSegments {
  import opened Bytes
  import opened Checksums
  import opened Parsing
  import opened Segments
  import opened SegmentFormat

  lemma {:induction false} DigitsShort(v: uint16)
    ensures v < Pow256(2) && Digits(v, 2) == [v / 0x100, v % 0x100]
  {
    assert Pow256(2) == TWO16;
    assert Digits(v / 0x100, 1) == [v / 0x100];
  }

  lemma {:induction false} DigitsByte(v: byte)
    ensures v < Pow256(1) && Digits(v, 1) == [v]
  {
    assert Digits(v / 0x100, 0) == [];
  }

  lemma {:induction false} DigitsFull(v: uint32)
    ensures v < Pow256(4)
    ensures Digits(v, 4) == [v / 0x100_0000, v / 0x1_0000 % 0x100, v / 0x100 % 0x100, v % 0x100]
  {
    assert Pow256(2) == TWO16;
    assert Pow256(4) == TWO32;
    var w: nat := v / 0x1_0000;
    DigitsShort(w);
    assert v / 0x100 / 0x100 == w && v / 0x100_0000 == w / 0x100;
    assert Digits(v / 0x100, 3) == Digits(v / 0x100 / 0x100, 2) + [v / 0x100 % 0x100];
  }

  /** `TCPHeader::serialize`; nothing is returned where the code throws. */
  method WriteHeader(h: Header) returns (r: Option<seq<byte>>)
    ensures r == SerializeHeader(h)
  {
    if h.doff < 5 { return None; }
    DigitsShort(h.sport);
    DigitsShort(h.dport);
    DigitsFull(h.seqno);
    DigitsFull(h.ackno);
    var s := UnparseInt([], h.sport, 2);
    s := UnparseInt(s, h.dport, 2);
    s := UnparseInt(s, h.seqno, 4);
    s := UnparseInt(s, h.ackno, 4);
    s := WriteTail(s, h);
    assert s == Layout(h);
    r := Some(s + Zeros(4 * h.doff - |s|));
  }

  method WriteTail(start: seq<byte>, h: Header) returns (s: seq<byte>)
    ensures s == start + [h.doff * 16 % 0x100, FlagByte(h), h.win / 0x100, h.win % 0x100,
                          h.cksum / 0x100, h.cksum % 0x100, h.uptr / 0x100, h.uptr % 0x100]
  {
    DigitsByte(h.doff * 16 % 0x100);
    DigitsByte(FlagByte(h));
    DigitsShort(h.win);
    DigitsShort(h.cksum);
    DigitsShort(h.uptr);
    s := UnparseInt(start, h.doff * 16 % 0x100, 1);
    s := UnparseInt(s, FlagByte(h), 1);
    s := UnparseInt(s, h.win, 2);
    s := UnparseInt(s, h.cksum, 2);
    s := UnparseInt(s, h.uptr, 2);
  }

  /** `TCPHeader::parse`. */
  method ReadHeaderFrom(p: NetParser) returns (h: Header, res: ParseResult)
    requires p.Valid()
    modifies p
    ensures p.Valid() && HeaderParse(h, res, p.View()) == ParseHeader(old(p.View()))
  {
    h := ReadFields(p);
    if h.doff < 5 { return h, HeaderTooShort; }
    p.RemovePrefix(4 * h.doff - HEADER_LENGTH);
    res := p.error;
  }

  method ReadFields(p: NetParser) returns (h: Header)
    requires p.Valid()
    modifies p
    ensures p.Valid() && h == ReadHeader(old(p.View())) && p.View() == AfterHeader(old(p.View()))
  {
    var sport := ReadU16(p);
    var dport := ReadU16(p);
    var seqno := ReadU32(p);
    var ackno := ReadU32(p);
    var offset := ReadU8(p);
    var flags := ReadU8(p);
    var win := ReadU16(p);
    var cksum := ReadU16(p);
    var uptr := ReadU16(p);
    h := Header(sport, dport, seqno, ackno, offset / 16,
                HasBit(flags, 32), HasBit(flags, 16), HasBit(flags, 8),
                HasBit(flags, 4), HasBit(flags, 2), HasBit(flags, 1),
                win, cksum, uptr);
  }

  method ReadU32(p: NetParser) returns (v: uint32)
    requires p.Valid()
    modifies p
    ensures p.Valid() && v == Full(old(p.View())) && p.View() == old(p.View()).Skip(4)
  {
    assert Pow256(2) == TWO16;
    assert Pow256(4) == TWO32;
    v := p.ParseInt(4);
  }

  method ReadU16(p: NetParser) returns (v: uint16)
    requires p.Valid()
    modifies p
    ensures p.Valid() && v == Short(old(p.View())) && p.View() == old(p.View()).Skip(2)
  {
    assert Pow256(2) == TWO16;
    v := p.ParseInt(2);
  }

  method ReadU8(p: NetParser) returns (v: byte)
    requires p.Valid()
    modifies p
    ensures p.Valid() && v == Byte(old(p.View())) && p.View() == old(p.View()).Skip(1)
  {
    assert Pow256(1) == 0x100;
    v := p.ParseInt(1);
  }

  method ChecksumOf(data: seq<byte>, pseudo: uint32) returns (v: uint16)
    ensures v == Checksum(WireSum(data, pseudo))
  {
    var check := new InternetChecksum(pseudo);
    check.Add(data);
    assert check.fed == data;
    v := check.Value();
  }

  class TCPSegment {
    var header: Header
    var payload: seq<byte>

    ghost function View(): Segment
      reads this
    {
      Segment(header, payload)
    }

    constructor ()
      ensures View() == Segment(PLAIN, [])
    {
      header, payload := PLAIN, [];
    }

    method Parse(buffer: seq<byte>, pseudo: uint32) returns (res: ParseResult)
      modifies this
      ensures (res, View()) == ParseSegment(old(View()), buffer, pseudo)
    {
      var sum := ChecksumOf(buffer, pseudo);
      if sum != 0 {
        res := BadChecksum;
      } else {
        res := ParseFrom(buffer);
      }
    }

    method ParseFrom(buffer: seq<byte>) returns (res: ParseResult)
      modifies this
      ensures (res, View()) == Outcome(ParseHeader(Parser(buffer, 0, NoError)))
    {
      var p := new NetParser(buffer);
      var h, ignored := ReadHeaderFrom(p);
      header, payload := h, p.data[p.at..];
      res := p.error;
    }

    method Serialize(pseudo: uint32) returns (r: Option<seq<byte>>)
      ensures r == SerializeSegment(View(), pseudo)
    {
      var headerOut := header.(cksum := 0);
      var bytes := WriteHeader(headerOut);
      if bytes.None? { return None; }
      var check := new InternetChecksum(pseudo);
      check.Add(bytes.value);
      check.Add(payload);
      assert check.fed == bytes.value + payload;
      var value := check.Value();
      headerOut := headerOut.(cksum := value);
      bytes := WriteHeader(headerOut);
      r := Some(bytes.value + payload);
    }

    method LengthInSequenceSpace() returns (n: nat)
      ensures n == View().Length()
    {
      n := |payload| + (if header.syn then 1 else 0) + (if header.fin then 1 else 0);
    }
  }
}
