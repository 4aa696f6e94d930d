/** TCP headers and segments as values. */
module Segments {
  import opened Bytes

  datatype Header = Header(
    sport: uint16, dport: uint16, seqno: uint32, ackno: uint32, doff: byte,
    urg: bool, ack: bool, psh: bool, rst: bool, syn: bool, fin: bool,
    win: uint16, cksum: uint16, uptr: uint16)

  /** A header as it is constructed: no flag set, five words long. */
  const PLAIN: Header := Header(0, 0, 0, 0, 5, false, false, false, false, false, false, 0, 0, 0)

  datatype Segment = Segment(header: Header, payload: seq<byte>)
  {
    /** Payload plus one for SYN and one for FIN. */
    function Length(): nat
    {
      |payload| + (if header.syn then 1 else 0) + (if header.fin then 1 else 0)
    }
  }
}
