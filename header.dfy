/**
 * The fixed 12-octet message header (RFC 1035, section 4.1.1): six
 * big-endian 16-bit words, id, flags, qdcount, ancount, nscount and
 * arcount. Within flags, bit 15 is QR, bits 11-14 are OPCODE and bits 0-3
 * are RCODE.
 *
 * DNSHeader is a mutable object: the server clones a request header and
 * updates the copy in place, and DNSMessage's constructors overwrite the
 * counts of the header they are given. `Header` is that object;
 * `HeaderFields` is its value.
 */
module DnsHeader {
  import opened Wire

  datatype HeaderFields = HeaderFields(id: U16, flags: U16, qdCount: U16, anCount: U16,
                                       nsCount: U16, arCount: U16)

  const HeaderSize := 12

  /** DNSHeader.toBytes: the six words in order, each as two octets high first. */
  function EncodeHeader(h: HeaderFields): (r: seq<Byte>)
    ensures |r| == HeaderSize
  {
    U16Bytes(h.id) + U16Bytes(h.flags) + U16Bytes(h.qdCount) + U16Bytes(h.anCount)
    + U16Bytes(h.nsCount) + U16Bytes(h.arCount)
  }

  /** DNSHeader.fromByteBuffer at cursor `pos`: six getShort calls. */
  function HeaderAt(data: seq<Byte>, pos: nat): (r: Result<(HeaderFields, nat)>)
    ensures r.Success? <==> pos + HeaderSize <= |data|
    ensures r.Success? ==> r.value.1 == pos + HeaderSize
    ensures r.Failure? ==> r.error == BufferUnderflow
  {
    var id :- ReadU16(data, pos);
    var flags :- ReadU16(data, id.1);
    var qd :- ReadU16(data, flags.1);
    var an :- ReadU16(data, qd.1);
    var ns :- ReadU16(data, an.1);
    var ar :- ReadU16(data, ns.1);
    Success((HeaderFields(id.0, flags.0, qd.0, an.0, ns.0, ar.0), ar.1))
  }

  /** Round trip: any header, written anywhere in a buffer, reads back field for field. */
  lemma HeaderRoundTrip(data: seq<Byte>, pos: nat, h: HeaderFields)
    requires IsAt(data, pos, EncodeHeader(h))
    ensures HeaderAt(data, pos) == Success((h, pos + HeaderSize))
  {
    var a, b, c, d, e, f := U16Bytes(h.id), U16Bytes(h.flags), U16Bytes(h.qdCount),
                            U16Bytes(h.anCount), U16Bytes(h.nsCount), U16Bytes(h.arCount);
    assert EncodeHeader(h) == a + (b + (c + (d + (e + f))));
    IsAtSplit(data, pos, a, b + (c + (d + (e + f))));
    IsAtSplit(data, pos + 2, b, c + (d + (e + f)));
    IsAtSplit(data, pos + 4, c, d + (e + f));
    IsAtSplit(data, pos + 6, d, e + f);
    IsAtSplit(data, pos + 8, e, f);
    ReadU16Bytes(data, pos, h.id);
    ReadU16Bytes(data, pos + 2, h.flags);
    ReadU16Bytes(data, pos + 4, h.qdCount);
    ReadU16Bytes(data, pos + 6, h.anCount);
    ReadU16Bytes(data, pos + 8, h.nsCount);
    ReadU16Bytes(data, pos + 10, h.arCount);
  }

  /** `flags | 0x8000`: QR set, the other fifteen bits kept. */
  function WithResponse(f: U16): (r: U16)
    ensures r / 0x8000 == 1 && r % 0x8000 == f % 0x8000
  {
    if f >= 0x8000 then f else f + 0x8000
  }

  lemma WithResponseIdempotent(f: U16)
    ensures WithResponse(WithResponse(f)) == WithResponse(f)
  {
  }

  /**
   * getOpcode: `(flags >> 11) & 0b1111` on the sign-extended short. Whatever
   * the sign, it is bits 11-14 of the word: with QR above and the low
   * eleven bits below, they make up the word again.
   */
  function OpcodeOf(f: U16): (r: int)
    ensures 0 <= r < 16
    ensures f == (f / 0x8000) * 0x8000 + r * 0x800 + f % 0x800
  {
    var shifted := Signed16(f) / 0x800;  // an arithmetic shift is a floor division
    assert shifted % 16 == (f / 0x800) % 16;
    shifted % 16
  }

  /** The RCODE field, bits 0-3. */
  function RCodeOf(f: U16): (r: int)
    ensures 0 <= r < 16 && (f - r) % 16 == 0
  {
    f % 16
  }

  /** setRCode's two steps, `flags &= ~0xF` then `flags |= (short) code`, for 0 <= code <= 15. */
  function WithRCode(f: U16, code: int): (r: U16)
    requires 0 <= code <= 15
    ensures RCodeOf(r) == code && r / 16 == f / 16
  {
    var cleared := f - f % 16;
    cleared + code
  }

  class Header {
    var id: U16
    var flags: U16
    var qdCount: U16
    var anCount: U16
    const nsCount: U16
    const arCount: U16

    /** The six fields as a value. */
    function Fields(): HeaderFields
      reads this
    {
      HeaderFields(id, flags, qdCount, anCount, nsCount, arCount)
    }

    constructor (id: U16, flags: U16, qdCount: U16, anCount: U16, nsCount: U16, arCount: U16)
      ensures Fields() == HeaderFields(id, flags, qdCount, anCount, nsCount, arCount)
    {
      this.id := id;
      this.flags := flags;
      this.qdCount := qdCount;
      this.anCount := anCount;
      this.nsCount := nsCount;
      this.arCount := arCount;
    }

    method SetId(id: U16)
      modifies this
      ensures Fields() == old(Fields()).(id := id)
    {
      this.id := id;
    }

    method SetResponse()
      modifies this
      ensures Fields() == old(Fields()).(flags := WithResponse(old(flags)))
    {
      flags := WithResponse(flags);
    }

    function Opcode(): (r: int)
      reads this
      ensures 0 <= r < 16 && r == flags / 0x800 % 16
    {
      OpcodeOf(flags)
    }

    /** setRCode: an out-of-range code is refused before anything changes. */
    method SetRCode(code: int) returns (outcome: Outcome)
      modifies this
      ensures outcome == (if 0 <= code <= 15 then Pass else Fail(IllegalArgument))
      ensures outcome.Pass? ==> Fields() == old(Fields()).(flags := WithRCode(old(flags), code))
      ensures outcome.Fail? ==> Fields() == old(Fields())
    {
      if code < 0 || code > 15 {
        return Fail(IllegalArgument);
      }
      flags := flags - flags % 16;
      flags := flags + code;
      outcome := Pass;
    }

    method SetQdCount(qdCount: U16)
      modifies this
      ensures Fields() == old(Fields()).(qdCount := qdCount)
    {
      this.qdCount := qdCount;
    }

    method SetAnCount(anCount: U16)
      modifies this
      ensures Fields() == old(Fields()).(anCount := anCount)
    {
      this.anCount := anCount;
    }

    /** clone: a new, independent header with the same fields. */
    method Clone() returns (c: Header)
      ensures fresh(c) && c.Fields() == Fields()
    {
      c := new Header(id, flags, qdCount, anCount, nsCount, arCount);
    }
  }
}
