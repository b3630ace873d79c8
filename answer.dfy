/**
 * An answer resource record (RFC 1035, section 4.1.3): NAME, TYPE, CLASS,
 * a 32-bit TTL, RDLENGTH and then RDLENGTH octets of RDATA.
 */
module DnsAnswer {
  import opened Wire
  import opened DnsName
  import opened RecordData

  /** DNSAnswer's fields; `rdLength` is stored but not consulted when encoding. */
  datatype Answer = Answer(name: Name, atype: U16, aclass: U16, ttl: U32, rdLength: U16, rdata: RData)

  /**
   * DNSAnswer.toBytes. RDLENGTH is the length of rdata.toBytes(), written
   * with writeShort (low 16 bits); rdata text that does not parse raises
   * NumberFormatException, which nothing catches.
   */
  function EncodeAnswer(a: Answer): (r: Result<seq<Byte>>)
    ensures r.Success? <==> Octets(a.rdata).Success?
    ensures r.Failure? ==> r.error == NumberFormat
    ensures r.Success? ==> |r.value| == |Encode(a.name)| + 10 + |Octets(a.rdata).value|
  {
    var rd :- Octets(a.rdata);
    Success(Encode(a.name) + U16Bytes(a.atype) + U16Bytes(a.aclass) + U32Bytes(a.ttl)
            + U16Bytes(Short(|rd|)) + rd)
  }

  /**
   * DNSAnswer.fromByteBuffer at cursor `pos`. RDLENGTH is a Java short:
   * 0x8000 and above are negative and `new byte[rdLength]` fails.
   */
  function AnswerAt(data: seq<Byte>, pos: nat): (r: Result<(Answer, nat)>)
    ensures r.Success? ==> r.value.0.rdLength < 0x8000
    ensures r.Success? ==> r.value.0.rdLength <= r.value.1 <= |data|
                           && r.value.0.rdata == Rendered(data[r.value.1 - r.value.0.rdLength..r.value.1])
  {
    var name :- NameAt(data, pos);
    var atype :- ReadU16(data, name.1);
    var aclass :- ReadU16(data, atype.1);
    var ttl :- ReadU32(data, aclass.1);
    var rdLength :- ReadU16(data, ttl.1);
    if Signed16(rdLength.0) < 0 then Failure(NegativeArraySize)
    else
      var rd :- ReadBytes(data, rdLength.1, rdLength.0);
      assert rd.0 == data[rd.1 - rdLength.0..rd.1];
      Success((Answer(name.0, atype.0, aclass.0, ttl.0, rdLength.0, Rendered(rd.0)), rd.1))
  }

  /** The fixed-width part of a record: TYPE, CLASS, TTL and RDLENGTH. */
  function FixedPart(atype: U16, aclass: U16, ttl: U32, rdLength: U16): (r: seq<Byte>)
    ensures |r| == 10
  {
    U16Bytes(atype) + U16Bytes(aclass) + U32Bytes(ttl) + U16Bytes(rdLength)
  }

  lemma FixedPartAt(data: seq<Byte>, pos: nat, atype: U16, aclass: U16, ttl: U32, rdLength: U16)
    requires IsAt(data, pos, FixedPart(atype, aclass, ttl, rdLength))
    ensures ReadU16(data, pos) == Success((atype, pos + 2))
    ensures ReadU16(data, pos + 2) == Success((aclass, pos + 4))
    ensures ReadU32(data, pos + 4) == Success((ttl, pos + 8))
    ensures ReadU16(data, pos + 8) == Success((rdLength, pos + 10))
  {
    var t, c, l, n := U16Bytes(atype), U16Bytes(aclass), U32Bytes(ttl), U16Bytes(rdLength);
    assert FixedPart(atype, aclass, ttl, rdLength) == t + (c + (l + n));
    IsAtSplit(data, pos, t, c + (l + n));
    IsAtSplit(data, pos + 2, c, l + n);
    IsAtSplit(data, pos + 4, l, n);
    ReadU16Bytes(data, pos, atype);
    ReadU16Bytes(data, pos + 2, aclass);
    ReadU32Bytes(data, pos + 4, ttl);
    ReadU16Bytes(data, pos + 8, rdLength);
  }

  /** A record that survives a round trip: a well-formed name and rdata of 0 to 0x7FFF octets. */
  predicate Transmittable(a: Answer) {
    WellFormed(a.name) && Octets(a.rdata).Success? && |Octets(a.rdata).value| < 0x8000
  }

  /** The record as it reads back: rdLength is the octet count and the text is re-rendered. */
  function Reread(a: Answer): Answer
    requires Octets(a.rdata).Success?
  {
    var rd := Octets(a.rdata).value;
    a.(rdLength := Short(|rd|), rdata := Rendered(rd))
  }

  /** A transmittable record reads back as its rereading, cursor just past it. */
  lemma AnswerReadsBack(data: seq<Byte>, pos: nat, a: Answer, e: seq<Byte>)
    requires Transmittable(a)
    requires EncodeAnswer(a) == Success(e)
    requires IsAt(data, pos, e)
    ensures AnswerAt(data, pos) == Success((Reread(a), pos + |e|))
  {
    var rd := Octets(a.rdata).value;
    assert Short(|rd|) == |rd|;
    AnswerRoundTrip(data, pos, a, rd, e);
  }

  /**
   * Round trip: a record with a well-formed name and rdata of fewer than
   * 0x8000 octets reads back with the same name, type, class, ttl and rdata
   * octets; rdLength becomes the octet count and the text is re-rendered.
   */
  lemma AnswerRoundTrip(data: seq<Byte>, pos: nat, a: Answer, rd: seq<Byte>, e: seq<Byte>)
    requires WellFormed(a.name)
    requires Octets(a.rdata) == Success(rd) && |rd| < 0x8000
    requires EncodeAnswer(a) == Success(e)
    requires IsAt(data, pos, e)
    ensures AnswerAt(data, pos) == Success((a.(rdLength := |rd|, rdata := Rendered(rd)), pos + |e|))
  {
    assert e == Encode(a.name) + (FixedPart(a.atype, a.aclass, a.ttl, |rd|) + rd) by {
      EncodedParts(a, rd);
    }
    LaidOutRecord(data, pos, a, rd, e);
  }

  /** The round trip once the encoding is known to be name, fixed part and rdata. */
  lemma LaidOutRecord(data: seq<Byte>, pos: nat, a: Answer, rd: seq<Byte>, e: seq<Byte>)
    requires WellFormed(a.name) && |rd| < 0x8000
    requires e == Encode(a.name) + (FixedPart(a.atype, a.aclass, a.ttl, |rd|) + rd)
    requires IsAt(data, pos, e)
    ensures AnswerAt(data, pos) == Success((a.(rdLength := |rd|, rdata := Rendered(rd)), pos + |e|))
  {
    hide *;
    var n := Encode(a.name);
    var f := FixedPart(a.atype, a.aclass, a.ttl, |rd|);
    var next := pos + |n|;
    IsAtSplit(data, pos, n, f + rd);
    NameRoundTrip(data, pos, a.name);
    RecordAfterName(data, pos, a.name, next, a.atype, a.aclass, a.ttl, rd);
  }

  /** An encodable record is its name, its fixed part with RDLENGTH = |rd|, then rd. */
  lemma EncodedParts(a: Answer, rd: seq<Byte>)
    requires Octets(a.rdata) == Success(rd) && |rd| < 0x1_0000
    ensures EncodeAnswer(a) == Success(Encode(a.name) + (FixedPart(a.atype, a.aclass, a.ttl, |rd|) + rd))
  {
    assert Short(|rd|) == |rd|;
    Regroup(Encode(a.name), U16Bytes(a.atype), U16Bytes(a.aclass), U32Bytes(a.ttl), U16Bytes(|rd|), rd);
  }

  /** Proof plumbing: regroups the record's concatenation into name, fixed part and RDATA. */
  lemma Regroup(n: seq<Byte>, t: seq<Byte>, c: seq<Byte>, l: seq<Byte>, k: seq<Byte>, rd: seq<Byte>)
    ensures n + t + c + l + k + rd == n + ((t + c + l + k) + rd)
  {
  }

  /** Once the name has been read, the fixed part and the rdata octets follow it. */
  lemma RecordAfterName(data: seq<Byte>, pos: nat, name: Name, next: nat, atype: U16, aclass: U16, ttl: U32,
                        rd: seq<Byte>)
    requires NameAt(data, pos) == Success((name, next))
    requires |rd| < 0x8000
    requires IsAt(data, next, FixedPart(atype, aclass, ttl, |rd|) + rd)
    ensures AnswerAt(data, pos) == Success((Answer(name, atype, aclass, ttl, |rd|, Rendered(rd)), next + 10 + |rd|))
  {
    IsAtSplit(data, next, FixedPart(atype, aclass, ttl, |rd|), rd);
    FixedPartAt(data, next, atype, aclass, ttl, |rd|);
    ReadBytesAt(data, next + 10, rd);
  }

  /** A decoded record with at least one rdata octet encodes to the same octets again. */
  lemma AnswerReencodes(a: Answer, rd: seq<Byte>, e: seq<Byte>)
    requires Octets(a.rdata) == Success(rd) && 1 <= |rd| < 0x8000
    requires EncodeAnswer(a) == Success(e)
    ensures EncodeAnswer(a.(rdLength := |rd|, rdata := Rendered(rd))) == Success(e)
  {
    OctetsRoundTrip(rd);
  }

  /** An RDLENGTH word of 0x8000 or more is a negative length: decoding fails. */
  lemma NegativeRdLength(data: seq<Byte>, pos: nat, rdlAt: nat)
    requires NameAt(data, pos).Success? && rdlAt == NameAt(data, pos).value.1 + 8
    requires rdlAt + 2 <= |data| && data[rdlAt] >= 0x80
    ensures AnswerAt(data, pos) == Failure(NegativeArraySize)
  {
    assert ReadU16(data, rdlAt).value.0 >= 0x8000;
  }
}
