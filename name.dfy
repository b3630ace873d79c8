/**
 * Domain names on the wire (RFC 1035, sections 3.1 and 4.1.4): a name is
 * written as length-prefixed labels closed by a zero octet, and read back
 * by following compression pointers (an octet whose two high bits are 11
 * plus the next octet give a 14-bit offset into the message).
 *
 * Labels are kept as octets: the name's text is the UTF-8 form of the
 * Java string, and `.` is the octet 0x2E.
 */
module DnsName {
  import opened Wire
  import opened Text

  const Dot: Byte := 0x2E

  /** RFC 1035, section 2.3.4: labels are 63 octets or less. */
  const MaxLabel := 63

  datatype Name = Name(text: seq<Byte>)

  /** Octets taken by length-prefixed labels: one length octet per label plus its text. */
  function LabelsSize(labels: seq<seq<Byte>>): (r: nat)
    ensures r >= |labels|
  {
    if |labels| == 0 then 0 else |labels[0]| + 1 + LabelsSize(labels[1..])
  }

  /** Each label as its length (writeByte keeps the low 8 bits) followed by its octets. */
  function EncodeLabels(labels: seq<seq<Byte>>): (r: seq<Byte>)
    ensures |r| == LabelsSize(labels)
  {
    if |labels| == 0 then []
    else [LowByte(|labels[0]|)] + labels[0] + EncodeLabels(labels[1..])
  }

  /** The labels DNSName.toBytes writes: none for "", else name.split("\\."). */
  function Labels(n: Name): (r: seq<seq<Byte>>)
    ensures n.text == [] ==> r == []
    ensures Dot !in n.text && n.text != [] ==> r == [n.text]
    ensures NoSep(r, Dot)
    ensures |r| > 0 ==> r[|r| - 1] != []
  {
    if n.text == [] then [] else JavaSplit(n.text, Dot)
  }

  /** DNSName.toBytes: the labels, then the terminating zero octet. */
  function Encode(n: Name): (r: seq<Byte>)
    ensures |r| == LabelsSize(Labels(n)) + 1
    ensures r[|r| - 1] == 0
    ensures n.text == [] ==> r == [0]
  {
    EncodeLabels(Labels(n)) + [0]
  }

  /** DNSName.toBytes as written: a length octet and the text for each label, then the zero octet. */
  method ToBytes(n: Name) returns (r: seq<Byte>)
    ensures r == Encode(n)
  {
    r := [];
    if n.text != [] {
      var labels := JavaSplit(n.text, Dot);
      for i := 0 to |labels|
        invariant r == EncodeLabels(labels[..i])
      {
        EncodeLabelsAppend(labels[..i], [labels[i]]);
        assert labels[..i] + [labels[i]] == labels[..i + 1];
        r := r + ([LowByte(|labels[i]|)] + labels[i]);
      }
      assert labels[..|labels|] == labels;
    }
    r := r + [0];
  }

  /** The encoding of two label lists in a row is the two encodings in a row. */
  lemma {:induction false} EncodeLabelsAppend(a: seq<seq<Byte>>, b: seq<seq<Byte>>)
    ensures EncodeLabels(a + b) == EncodeLabels(a) + EncodeLabels(b)
    decreases |a|
  {
    hide *;
    if |a| > 0 {
      assert (a + b)[0] == a[0] && (a + b)[1..] == a[1..] + b;
      EncodeLabelsAppend(a[1..], b);
      EncodeLabelsCons(a);
      EncodeLabelsCons(a + b);
    } else {
      assert a + b == b;
      EncodeLabelsCons(a);
    }
  }

  /** The first label's length octet and text, then the other labels; nothing for no labels. */
  lemma EncodeLabelsCons(labels: seq<seq<Byte>>)
    ensures |labels| == 0 ==> EncodeLabels(labels) == []
    ensures |labels| > 0 ==> EncodeLabels(labels) == [LowByte(|labels[0]|)] + labels[0] + EncodeLabels(labels[1..])
  {
  }

  /** Every `.`-separated label has 1 to 63 octets; the empty name is the root. */
  predicate WellFormed(n: Name) {
    n.text == [] ||
    var parts := Split(n.text, Dot);
    forall i :: 0 <= i < |parts| ==> 1 <= |parts[i]| <= MaxLabel
  }

  predicate ValidLabels(labels: seq<seq<Byte>>) {
    forall i :: 0 <= i < |labels| ==> 1 <= |labels[i]| <= MaxLabel && Dot !in labels[i]
  }

  /** The two high bits are 11: `(len & 0xC0) == 0xC0`. */
  predicate IsPointer(b: Byte) {
    b >= 0xC0
  }

  /** The 14-bit offset of a pointer: `((len & 0x3F) << 8) | next`. */
  function PointerOffset(hi: Byte, lo: Byte): (r: nat)
    requires IsPointer(hi)
    ensures r < 0x4000
  {
    (hi as int % 0x40) * 0x100 + lo as int
  }

  /**
   * The label loop of DNSName.fromByteBuffer, one length octet per step.
   * `compressed` and `saved` are the Java `isCompressed` and `pos`; every
   * pointer overwrites `saved`, and a name that followed any pointer ends
   * with the cursor at `saved`. `fuel` bounds the number of length octets
   * read; when it runs out the Java loop is going round a pointer cycle.
   */
  function ReadLabels(data: seq<Byte>, position: nat, fuel: nat, compressed: bool, saved: nat,
                      labels: seq<seq<Byte>>): Result<(seq<seq<Byte>>, nat)>
    decreases fuel
  {
    if position >= |data| then Failure(BufferUnderflow)
    else if fuel == 0 then Failure(PointerLoop)
    else
      var len := data[position] as int;
      if len == 0 then Success((labels, if compressed then saved else position + 1))
      else if IsPointer(len) then
        if position + 1 >= |data| then Failure(BufferUnderflow)
        else
          var offset := PointerOffset(len, data[position + 1]);
          if offset > |data| then Failure(IllegalPosition)
          else ReadLabels(data, offset, fuel - 1, true, position + 2, labels)
      else if len >= 0x80 then Failure(NegativeArraySize)  // a negative Java byte
      else if position + 1 + len > |data| then Failure(BufferUnderflow)
      else ReadLabels(data, position + 1 + len, fuel - 1, compressed, saved,
                      labels + [data[position + 1..position + 1 + len]])
  }

  /**
   * What the label loop can end with: the labels collected before it, then
   * labels of 1 to 127 octets; a cursor inside the buffer; or one of the
   * four exceptions a ByteBuffer read or `new byte[len]` raises.
   */
  lemma {:induction false} ReadLabelsShape(data: seq<Byte>, position: nat, fuel: nat, compressed: bool, saved: nat,
                                           labels: seq<seq<Byte>>)
    ensures var r := ReadLabels(data, position, fuel, compressed, saved, labels);
            && (r.Success? ==> |labels| <= |r.value.0| && r.value.0[..|labels|] == labels)
            && (r.Success? ==> forall i :: |labels| <= i < |r.value.0| ==> 1 <= |r.value.0[i]| < 0x80)
            && (r.Success? && (compressed ==> saved <= |data|) ==> r.value.1 <= |data|)
            && (r.Failure? ==> r.error in {BufferUnderflow, IllegalPosition, NegativeArraySize, PointerLoop})
    decreases fuel
  {
    if position < |data| && fuel > 0 {
      var len := data[position] as int;
      if len != 0 && IsPointer(len) && position + 1 < |data| {
        var offset := PointerOffset(len, data[position + 1]);
        if offset <= |data| {
          ReadLabelsShape(data, offset, fuel - 1, true, position + 2, labels);
        }
      } else if len != 0 && len < 0x80 && position + 1 + len <= |data| {
        var l := data[position + 1..position + 1 + len];
        ReadLabelsShape(data, position + 1 + len, fuel - 1, compressed, saved, labels + [l]);
        var r := ReadLabels(data, position + 1 + len, fuel - 1, compressed, saved, labels + [l]);
        if r.Success? {
          assert r.value.0[..|labels|] == (r.value.0[..|labels| + 1])[..|labels|];
        }
      }
    }
  }

  /** DNSName.fromByteBuffer at cursor `pos`: the name and the cursor after it. */
  function NameAt(data: seq<Byte>, pos: nat): (r: Result<(Name, nat)>)
    ensures r.Success? ==> r.value.1 <= |data|
    ensures r.Failure? ==> r.error in {BufferUnderflow, IllegalPosition, NegativeArraySize, PointerLoop}
  {
    ReadLabelsShape(data, pos, |data|, false, 0, []);
    var read :- ReadLabels(data, pos, |data|, false, 0, []);
    Success((Name(Join(read.0, Dot)), read.1))
  }

  /** DNSName.fromByteBuffer, with the ByteBuffer cursor as `start` and the returned position. */
  method Decode(data: seq<Byte>, start: nat) returns (r: Result<(Name, nat)>)
    ensures r == NameAt(data, start)
  {
    var position: nat := start;
    var isCompressed := false;
    var pos: nat := 0;
    var labels: seq<seq<Byte>> := [];
    var steps := 0;
    while true
      invariant steps <= |data|
      invariant ReadLabels(data, position, |data| - steps, isCompressed, pos, labels)
                == ReadLabels(data, start, |data|, false, 0, [])
      decreases |data| - steps
    {
      if position >= |data| {
        return Failure(BufferUnderflow);
      }
      if steps == |data| {
        return Failure(PointerLoop);
      }
      var len := data[position] as int;
      position, steps := position + 1, steps + 1;
      if len == 0 {
        break;
      }
      if IsPointer(len) {
        isCompressed := true;
        if position >= |data| {
          return Failure(BufferUnderflow);
        }
        var offset := PointerOffset(len, data[position]);
        position := position + 1;
        pos := position;
        if offset > |data| {
          return Failure(IllegalPosition);
        }
        position := offset;
      } else if len >= 0x80 {
        return Failure(NegativeArraySize);
      } else {
        if position + len > |data| {
          return Failure(BufferUnderflow);
        }
        labels := labels + [data[position..position + len]];
        position := position + len;
      }
    }
    if isCompressed {
      position := pos;
    }
    r := Success((Name(Join(labels, Dot)), position));
  }

  /** One plain label step: a length octet below 0x80 and that many octets of text. */
  lemma ReadOneLabel(data: seq<Byte>, pos: nat, l: seq<Byte>, fuel: nat, compressed: bool, saved: nat,
                     acc: seq<seq<Byte>>)
    requires 1 <= |l| < 0x80 && fuel > 0
    requires pos < |data| && data[pos] == |l|
    requires IsAt(data, pos + 1, l)
    ensures ReadLabels(data, pos, fuel, compressed, saved, acc)
            == ReadLabels(data, pos + 1 + |l|, fuel - 1, compressed, saved, acc + [l])
  {
  }

  /** The zero octet ends the name; the cursor goes to the last pointer's `saved`, if any. */
  lemma ReadTerminator(data: seq<Byte>, pos: nat, fuel: nat, compressed: bool, saved: nat, acc: seq<seq<Byte>>)
    requires fuel > 0
    requires IsAt(data, pos, [0])
    ensures ReadLabels(data, pos, fuel, compressed, saved, acc)
            == Success((acc, if compressed then saved else pos + 1))
  {
    assert data[pos] == [0][0];
  }

  /** The first label of an encoding: its length octet, its text, then the rest. */
  lemma EncodedHead(data: seq<Byte>, pos: nat, labels: seq<seq<Byte>>)
    requires |labels| > 0 && |labels[0]| < 0x100
    requires IsAt(data, pos, EncodeLabels(labels) + [0])
    ensures pos < |data| && data[pos] == |labels[0]|
    ensures IsAt(data, pos + 1, labels[0])
    ensures IsAt(data, pos + 1 + |labels[0]|, EncodeLabels(labels[1..]) + [0])
  {
    EncodeLabelsHead(labels);
    IsAtHead(data, pos, |labels[0]|, labels[0], EncodeLabels(labels[1..]) + [0]);
  }

  lemma EncodeLabelsHead(labels: seq<seq<Byte>>)
    requires |labels| > 0 && |labels[0]| < 0x100
    ensures EncodeLabels(labels) + [0] == [|labels[0]|] + labels[0] + (EncodeLabels(labels[1..]) + [0])
  {
    assert LowByte(|labels[0]|) == |labels[0]|;
  }

  lemma ValidLabelsTail(labels: seq<seq<Byte>>)
    requires |labels| > 0 && ValidLabels(labels)
    ensures ValidLabels(labels[1..])
  {
    var rest := labels[1..];
    forall i | 0 <= i < |rest| ensures 1 <= |rest[i]| <= MaxLabel && Dot !in rest[i] {
      assert rest[i] == labels[i + 1];
    }
  }

  /** Reading the encoding of valid labels collects exactly those labels. */
  lemma {:induction false} ReadEncodedLabels(data: seq<Byte>, pos: nat, labels: seq<seq<Byte>>, fuel: nat,
                                             compressed: bool, saved: nat, acc: seq<seq<Byte>>)
    requires ValidLabels(labels)
    requires IsAt(data, pos, EncodeLabels(labels) + [0])
    requires fuel > |labels|
    ensures ReadLabels(data, pos, fuel, compressed, saved, acc)
            == Success((acc + labels, if compressed then saved else pos + |EncodeLabels(labels)| + 1))
    decreases labels
  {
    hide ReadLabels;
    if |labels| == 0 {
      assert EncodeLabels(labels) + [0] == [0] && acc + labels == acc;
      ReadTerminator(data, pos, fuel, compressed, saved, acc);
    } else {
      var l := labels[0];
      EncodedHead(data, pos, labels);
      ValidLabelsTail(labels);
      ReadEncodedLabels(data, pos + 1 + |l|, labels[1..], fuel - 1, compressed, saved, acc + [l]);
      ReadFirstLabel(data, pos, labels, fuel, compressed, saved, acc);
    }
  }

  /** The inductive step of ReadEncodedLabels: reading the first label, then the rest. */
  lemma ReadFirstLabel(data: seq<Byte>, pos: nat, labels: seq<seq<Byte>>, fuel: nat,
                       compressed: bool, saved: nat, acc: seq<seq<Byte>>)
    requires |labels| > 0 && 1 <= |labels[0]| <= MaxLabel && fuel > 0
    requires pos < |data| && data[pos] == |labels[0]| && IsAt(data, pos + 1, labels[0])
    requires ReadLabels(data, pos + 1 + |labels[0]|, fuel - 1, compressed, saved, acc + [labels[0]])
             == Success((acc + [labels[0]] + labels[1..],
                         if compressed then saved else pos + 1 + |labels[0]| + |EncodeLabels(labels[1..])| + 1))
    ensures ReadLabels(data, pos, fuel, compressed, saved, acc)
            == Success((acc + labels, if compressed then saved else pos + |EncodeLabels(labels)| + 1))
  {
    hide ReadLabels;
    var l := labels[0];
    ReadOneLabel(data, pos, l, fuel, compressed, saved, acc);
    assert acc + [l] + labels[1..] == acc + labels by {
      assert labels == [l] + labels[1..];
    }
  }

  /** A well-formed name is written as exactly its `.`-separated labels, which join back to it. */
  lemma WellFormedLabels(n: Name)
    requires WellFormed(n)
    ensures ValidLabels(Labels(n))
    ensures Join(Labels(n), Dot) == n.text
  {
    if n.text != [] {
      var parts := Split(n.text, Dot);
      SplitNoSep(n.text, Dot);
      JoinSplit(n.text, Dot);
      assert parts[|parts| - 1] != [];
      assert DropTrailingEmpty(parts) == parts;
    }
  }

  /** The encoding of valid labels, wherever it sits, reads back as their join. */
  lemma LabelsAt(data: seq<Byte>, pos: nat, labels: seq<seq<Byte>>)
    requires ValidLabels(labels)
    requires IsAt(data, pos, EncodeLabels(labels) + [0])
    ensures NameAt(data, pos) == Success((Name(Join(labels, Dot)), pos + |EncodeLabels(labels)| + 1))
  {
    hide *;
    assert [] + labels == labels;
    LabelsFit(data, pos, labels);
    ReadEncodedLabels(data, pos, labels, |data|, false, 0, []);
    NameFromLabels(data, pos, labels, pos + |EncodeLabels(labels)| + 1);
  }

  /** The buffer holds more octets than there are labels: enough steps to read them all. */
  lemma LabelsFit(data: seq<Byte>, pos: nat, labels: seq<seq<Byte>>)
    requires IsAt(data, pos, EncodeLabels(labels) + [0])
    ensures |data| > |labels|
  {
  }

  /** A pointer to the encoding of valid labels before it reads as their join, ending after the pointer. */
  lemma PointerAt(data: seq<Byte>, p: nat, labels: seq<seq<Byte>>)
    requires p + 1 < |data| && IsPointer(data[p])
    requires ValidLabels(labels)
    requires PointerOffset(data[p], data[p + 1]) + |EncodeLabels(labels)| + 1 <= p
    requires IsAt(data, PointerOffset(data[p], data[p + 1]), EncodeLabels(labels) + [0])
    ensures NameAt(data, p) == Success((Name(Join(labels, Dot)), p + 2))
  {
    hide *;
    var offset := PointerOffset(data[p], data[p + 1]);
    ReadPointer(data, p, |data|, false, 0, []);
    ReadEncodedLabels(data, offset, labels, |data| - 1, true, p + 2, []);
    assert [] + labels == labels;
    NameFromLabels(data, p, labels, p + 2);
  }

  lemma NameFromLabels(data: seq<Byte>, pos: nat, labels: seq<seq<Byte>>, end: nat)
    requires ReadLabels(data, pos, |data|, false, 0, []) == Success((labels, end))
    ensures NameAt(data, pos) == Success((Name(Join(labels, Dot)), end))
  {
  }

  /** A pointer step: the loop moves to the offset and remembers the octet after the pointer. */
  lemma ReadPointer(data: seq<Byte>, p: nat, fuel: nat, compressed: bool, saved: nat, acc: seq<seq<Byte>>)
    requires p + 1 < |data| && IsPointer(data[p]) && fuel > 0
    requires PointerOffset(data[p], data[p + 1]) <= |data|
    ensures ReadLabels(data, p, fuel, compressed, saved, acc)
            == ReadLabels(data, PointerOffset(data[p], data[p + 1]), fuel - 1, true, p + 2, acc)
  {
  }

  /**
   * Round trip: a well-formed name encoded anywhere in a buffer reads back
   * as the same name, with the cursor just past its zero octet.
   */
  lemma NameRoundTrip(data: seq<Byte>, pos: nat, n: Name)
    requires WellFormed(n)
    requires IsAt(data, pos, Encode(n))
    ensures NameAt(data, pos) == Success((n, pos + |Encode(n)|))
  {
    hide *;
    EncodeIsLabels(n);
    WellFormedLabels(n);
    LabelsAt(data, pos, Labels(n));
  }

  lemma EncodeIsLabels(n: Name)
    ensures Encode(n) == EncodeLabels(Labels(n)) + [0]
  {
  }

  /**
   * A pointer to an earlier, uncompressed copy of a name reads as that name,
   * and the cursor stops two octets past the pointer's first octet, not
   * inside the region pointed to.
   */
  lemma FollowPointer(data: seq<Byte>, p: nat, n: Name)
    requires p + 1 < |data| && IsPointer(data[p])
    requires WellFormed(n)
    requires PointerOffset(data[p], data[p + 1]) + |Encode(n)| <= p
    requires IsAt(data, PointerOffset(data[p], data[p + 1]), Encode(n))
    ensures NameAt(data, p) == Success((n, p + 2))
  {
    var labels := Labels(n);
    assert ValidLabels(labels) && Join(labels, Dot) == n.text by {
      WellFormedLabels(n);
    }
    assert Encode(n) == EncodeLabels(labels) + [0];
    PointerAt(data, p, labels);
  }
}
