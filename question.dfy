/**
 * A question entry (RFC 1035, section 4.1.2): QNAME, then QTYPE and QCLASS
 * as big-endian 16-bit words.
 */
module DnsQuestion {
  import opened Wire
  import opened DnsName

  datatype Question = Question(name: Name, qtype: U16, qclass: U16)

  /** DNSQuestion.toBytes. */
  function EncodeQuestion(q: Question): (r: seq<Byte>)
    ensures |r| == |Encode(q.name)| + 4
    ensures r[..|Encode(q.name)|] == Encode(q.name)
  {
    Encode(q.name) + U16Bytes(q.qtype) + U16Bytes(q.qclass)
  }

  /** DNSQuestion.fromByteBuffer at cursor `pos`: the name, then two getShort calls. */
  function QuestionAt(data: seq<Byte>, pos: nat): (r: Result<(Question, nat)>)
    ensures r.Success? ==> NameAt(data, pos).Success?
                           && r.value.0.name == NameAt(data, pos).value.0
                           && r.value.1 == NameAt(data, pos).value.1 + 4
  {
    var name :- NameAt(data, pos);
    var qtype :- ReadU16(data, name.1);
    var qclass :- ReadU16(data, qtype.1);
    Success((Question(name.0, qtype.0, qclass.0), qclass.1))
  }

  /** Type and class, two words read from `pos`. */
  lemma TypeClassAt(data: seq<Byte>, pos: nat, qtype: U16, qclass: U16)
    requires IsAt(data, pos, U16Bytes(qtype) + U16Bytes(qclass))
    ensures ReadU16(data, pos) == Success((qtype, pos + 2))
    ensures ReadU16(data, pos + 2) == Success((qclass, pos + 4))
  {
    IsAtSplit(data, pos, U16Bytes(qtype), U16Bytes(qclass));
    ReadU16Bytes(data, pos, qtype);
    ReadU16Bytes(data, pos + 2, qclass);
  }

  /** Round trip: a question with a well-formed name reads back, cursor just past QCLASS. */
  lemma QuestionRoundTrip(data: seq<Byte>, pos: nat, q: Question)
    requires WellFormed(q.name)
    requires IsAt(data, pos, EncodeQuestion(q))
    ensures QuestionAt(data, pos) == Success((q, pos + |EncodeQuestion(q)|))
  {
    hide *;
    var n := Encode(q.name);
    var tc := U16Bytes(q.qtype) + U16Bytes(q.qclass);
    var next := pos + |n|;
    QuestionBytes(q);
    IsAtSplit(data, pos, n, tc);
    NameRoundTrip(data, pos, q.name);
    TypeClassAt(data, next, q.qtype, q.qclass);
    QuestionFromParts(data, pos, q, next);
  }

  /** A question's octets: the name, then type and class. */
  lemma QuestionBytes(q: Question)
    ensures EncodeQuestion(q) == Encode(q.name) + (U16Bytes(q.qtype) + U16Bytes(q.qclass))
  {
  }

  /** A name, then the two words: the question they make up. */
  lemma QuestionFromParts(data: seq<Byte>, pos: nat, q: Question, next: nat)
    requires NameAt(data, pos) == Success((q.name, next))
    requires ReadU16(data, next) == Success((q.qtype, next + 2))
    requires ReadU16(data, next + 2) == Success((q.qclass, next + 4))
    ensures QuestionAt(data, pos) == Success((q, next + 4))
  {
  }

  /**
   * When QNAME is a pointer to an earlier copy of the name, QTYPE and QCLASS
   * are the four octets right after the two-octet pointer.
   */
  lemma QuestionAfterPointer(data: seq<Byte>, p: nat, q: Question)
    requires p + 1 < |data| && IsPointer(data[p])
    requires WellFormed(q.name)
    requires PointerOffset(data[p], data[p + 1]) + |Encode(q.name)| <= p
    requires IsAt(data, PointerOffset(data[p], data[p + 1]), Encode(q.name))
    requires IsAt(data, p + 2, U16Bytes(q.qtype) + U16Bytes(q.qclass))
    ensures QuestionAt(data, p) == Success((q, p + 6))
  {
    FollowPointer(data, p, q.name);
    TypeClassAt(data, p + 2, q.qtype, q.qclass);
  }
}
