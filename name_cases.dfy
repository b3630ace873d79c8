/**
 * Concrete names on the wire: the encodings and decodings DNSNameTest
 * checks, stated for the model, and what the decoder does when a pointer
 * leads to a name that itself ends in a pointer.
 */
module DnsNameExamples {
  import opened Wire
  import opened Text
  import opened DnsName

  const Example: seq<Byte> := [0x65, 0x78, 0x61, 0x6D, 0x70, 0x6C, 0x65]  // "example"
  const Com: seq<Byte> := [0x63, 0x6F, 0x6D]                              // "com"
  const Www: seq<Byte> := [0x77, 0x77, 0x77]                              // "www"

  /** "example.com" */
  function ExampleCom(): Name {
    Name(Example + [Dot] + Com)
  }

  /** "www.example.com" */
  function WwwExampleCom(): Name {
    Name(Www + [Dot] + Example + [Dot] + Com)
  }

  lemma ExampleComLabels()
    ensures Labels(ExampleCom()) == [Example, Com]
    ensures ValidLabels([Example, Com]) && Join([Example, Com], Dot) == ExampleCom().text
  {
    hide JavaSplit;
    assert Join([Example, Com], Dot) == Example + [Dot] + Com by {
      assert [Example, Com][1..] == [Com];
    }
    assert NoSep([Example, Com], Dot);
    JavaSplitJoin([Example, Com], Dot);
  }

  lemma WwwExampleComLabels()
    ensures Labels(WwwExampleCom()) == [Www, Example, Com]
    ensures ValidLabels([Www, Example, Com]) && Join([Www, Example, Com], Dot) == WwwExampleCom().text
  {
    hide JavaSplit;
    assert Join([Example, Com], Dot) == Example + [Dot] + Com by {
      assert [Example, Com][1..] == [Com];
    }
    assert Join([Www, Example, Com], Dot) == Www + [Dot] + Join([Example, Com], Dot) by {
      assert [Www, Example, Com][1..] == [Example, Com];
    }
    assert Join([Www, Example, Com], Dot) == WwwExampleCom().text;
    assert NoSep([Www, Example, Com], Dot);
    JavaSplitJoin([Www, Example, Com], Dot);
  }

  lemma Sizes()
    ensures |Www| == 3 && |Example| == 7 && |Com| == 3
  {
  }

  /** "example.com" is 7 "example" 3 "com" 0: thirteen octets. */
  lemma ExampleComEncoding()
    ensures Encode(ExampleCom()) == [7] + Example + [3] + Com + [0]
    ensures |Encode(ExampleCom())| == 13
  {
    hide *;
    ExampleComLabels();
    TwoLabels();
    EncodeIsLabels(ExampleCom());
    Sizes();
  }

  /** Those thirteen octets decode to "example.com", the cursor just past them. */
  lemma ExampleComDecoding(data: seq<Byte>)
    requires data == [7] + Example + [3] + Com + [0]
    ensures NameAt(data, 0) == Success((ExampleCom(), 13))
  {
    hide *;
    ExampleComLabels();
    TwoLabels();
    Sizes();
    IsAtWhole(data);
    LabelsAt(data, 0, [Example, Com]);
  }

  lemma TwoLabels()
    ensures EncodeLabels([Example, Com]) == [7] + Example + [3] + Com
  {
    assert [Example, Com][1..] == [Com];
    assert [Com][1..] == [];
  }

  lemma ThreeLabels()
    ensures EncodeLabels([Www, Example, Com]) == [3] + Www + [7] + Example + [3] + Com
  {
    assert [Www, Example, Com][1..] == [Example, Com];
    TwoLabels();
  }

  /** "www.example.com" is 3 "www" 7 "example" 3 "com" 0, and decodes back. */
  lemma WwwExampleComEncoding(e: seq<Byte>)
    requires e == Encode(WwwExampleCom())
    ensures e == [3] + Www + [7] + Example + [3] + Com + [0]
    ensures |e| == 17
    ensures NameAt(e, 0) == Success((WwwExampleCom(), 17))
  {
    hide *;
    WwwExampleComLabels();
    ThreeLabels();
    EncodeIsLabels(WwwExampleCom());
    var labels := [Www, Example, Com];
    assert e == EncodeLabels(labels) + [0];
    Sizes();
    IsAtWhole(e);
    LabelsAt(e, 0, labels);
  }

  /** The root name "" is the single octet 0. */
  lemma RootEncoding()
    ensures Encode(Name([])) == [0]
  {
  }

  /** A 63-octet label is written after the length octet 63. */
  lemma LongLabelEncoding(long: seq<Byte>)
    requires |long| == MaxLabel && Dot !in long
    ensures Encode(Name(long + [Dot] + Com))[0] == 63
  {
    var labels := [long, Com];
    assert Join(labels, Dot) == long + [Dot] + Com by {
      assert labels[1..] == [Com];
    }
    assert NoSep(labels, Dot);
    JavaSplitJoin(labels, Dot);
    assert Labels(Name(long + [Dot] + Com)) == labels;
  }

  /** "example.com", then four other octets, then a pointer to offset 0 at offset 17. */
  function CompressedMessage(): seq<Byte> {
    [7] + Example + [3] + Com + [0] + [0, 1, 0, 1] + [0xC0, 0]
  }

  /** The pointer at 17 decodes to "example.com" and leaves the cursor at 19, just past it. */
  lemma CompressedDecoding(data: seq<Byte>)
    requires data == CompressedMessage()
    ensures NameAt(data, 17) == Success((ExampleCom(), 19))
  {
    hide *;
    CompressedLayout(data);
    ExampleComLabels();
    TwoLabels();
    Sizes();
    PointerAt(data, 17, [Example, Com]);
  }

  lemma CompressedLayout(data: seq<Byte>)
    requires data == CompressedMessage()
    ensures |data| == 19
    ensures IsAt(data, 0, EncodeLabels([Example, Com]) + [0])
    ensures IsPointer(data[17]) && PointerOffset(data[17], data[18]) == 0
  {
    TwoLabels();
  }

  /**
   * "example.com" at 0; "www" and a pointer to 0 at 13; a pointer to 13 at
   * 19. The name at 19 takes two pointers.
   */
  function TwoHopMessage(): seq<Byte> {
    [7] + Example + [3] + Com + [0] + [3] + Www + [0xC0, 0] + [0xC0, 13]
  }

  lemma TwoHopLayout(data: seq<Byte>)
    requires data == TwoHopMessage()
    ensures |data| == 21
    ensures IsAt(data, 0, EncodeLabels([Example, Com]) + [0])
    ensures data[13] == 3 && IsAt(data, 14, Www)
    ensures IsPointer(data[17]) && PointerOffset(data[17], data[18]) == 0
    ensures IsPointer(data[19]) && PointerOffset(data[19], data[20]) == 13
  {
    TwoLabels();
  }

  /**
   * The name at 19 is "www.example.com", but the cursor is left at 19, just
   * past the second pointer (at 17), instead of at 21, past the pointer the
   * record itself holds: each pointer overwrites the saved position.
   */
  lemma TwoHopDecoding(data: seq<Byte>)
    requires data == TwoHopMessage()
    ensures NameAt(data, 19) == Success((WwwExampleCom(), 19))
  {
    hide *;
    TwoHopLayout(data);
    Sizes();
    ReadPointer(data, 19, 21, false, 0, []);
    ReadOneLabel(data, 13, Www, 20, true, 21, []);
    assert [] + [Www] == [Www];
    ReadPointer(data, 17, 19, true, 21, [Www]);
    ExampleComLabels();
    ReadEncodedLabels(data, 0, [Example, Com], 18, true, 19, [Www]);
    WwwExampleComLabels();
    assert [Www] + [Example, Com] == [Www, Example, Com];
    NameFromLabels(data, 19, [Www, Example, Com], 19);
  }
}
