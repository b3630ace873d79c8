/**
 * Resource-record data as the server keeps it: the dotted-decimal text of
 * an IPv4 address (RFC 1035, section 3.4.1: an A record's RDATA is four
 * octets). RData.fromBytes renders octets as text; RData.toBytes parses
 * the text back with Integer.parseInt, one `.`-separated field per octet.
 */
module RecordData {
  import opened Wire
  import opened Text

  datatype RData = RData(text: string)

  const MinInt := -0x8000_0000
  const MaxInt := 0x7FFF_FFFF

  predicate IsDigit(c: char) {
    '0' <= c <= '9'
  }

  predicate AllDigits(s: string) {
    forall i :: 0 <= i < |s| ==> IsDigit(s[i])
  }

  function DigitChar(d: nat): (c: char)
    requires d < 10
    ensures IsDigit(c)
  {
    (0x30 + d) as char
  }

  function DigitValue(c: char): (d: nat)
    requires IsDigit(c)
    ensures d < 10 && DigitChar(d) == c
  {
    c as int - 0x30
  }

  /** Integer.toString of a non-negative value: its decimal digits, no leading zeros. */
  function Decimal(n: nat): (s: string)
    ensures 1 <= |s| && AllDigits(s)
    ensures |s| > 1 ==> s[0] != '0'
    decreases n
  {
    if n < 10 then [DigitChar(n)] else Decimal(n / 10) + [DigitChar(n % 10)]
  }

  /** The value of a string of decimal digits, most significant first. */
  function DigitsValue(s: string): nat
    requires AllDigits(s)
  {
    if |s| == 0 then 0 else DigitsValue(s[..|s| - 1]) * 10 + DigitValue(s[|s| - 1])
  }

  /**
   * Integer.parseInt(s) in base 10: an optional sign, then at least one
   * digit, and a value that fits a Java int; anything else raises
   * NumberFormatException.
   */
  function ParseInt(s: string): (r: Result<int>)
    ensures r.Success? ==> MinInt <= r.value <= MaxInt
    ensures r.Failure? ==> r.error == NumberFormat
    ensures |s| == 0 ==> r.Failure?
  {
    if |s| == 0 then Failure(NumberFormat)
    else
      var digits := if s[0] == '-' || s[0] == '+' then s[1..] else s;
      if |digits| == 0 || !AllDigits(digits) then Failure(NumberFormat)
      else
        var v: int := if s[0] == '-' then 0 - DigitsValue(digits) as int else DigitsValue(digits);
        if v < MinInt || v > MaxInt then Failure(NumberFormat) else Success(v)
  }

  /**
   * The octets written for a list of fields: each field parsed and written
   * with writeByte (low 8 bits kept). A field that does not parse aborts
   * the whole conversion.
   */
  function ParseFields(fields: seq<string>): (r: Result<seq<Byte>>)
    ensures r.Success? <==> forall i :: 0 <= i < |fields| ==> ParseInt(fields[i]).Success?
    ensures r.Failure? ==> r.error == NumberFormat
    ensures r.Success? ==> |r.value| == |fields|
  {
    if |fields| == 0 then Success([])
    else
      var init :- ParseFields(fields[..|fields| - 1]);
      var v :- ParseInt(fields[|fields| - 1]);
      Success(init + [LowByte(v)])
  }

  /** Octet i is field i parsed and cut to its low 8 bits. */
  lemma {:induction false} ParseFieldsValues(fields: seq<string>)
    requires ParseFields(fields).Success?
    ensures forall i :: 0 <= i < |fields| ==> ParseFields(fields).value[i] == LowByte(ParseInt(fields[i]).value)
  {
    if |fields| > 0 {
      ParseFieldsValues(fields[..|fields| - 1]);
    }
  }

  /** What RData.toBytes produces: the fields of data.split("\\."), parsed. */
  function Octets(r: RData): (out: Result<seq<Byte>>)
    ensures out.Failure? ==> out.error == NumberFormat
    ensures r.text == [] ==> out == Failure(NumberFormat)
    ensures '.' !in r.text && r.text != [] ==> out.Success? == ParseInt(r.text).Success?
  {
    ParseFields(JavaSplit(r.text, '.'))
  }

  /** The decimal text of each octet. */
  function Decimals(b: seq<Byte>): (fields: seq<string>)
    ensures |fields| == |b|
  {
    seq(|b|, i requires 0 <= i < |b| => Decimal(b[i]))
  }

  /** What RData.fromBytes produces: the decimal octets joined with `.`. */
  function Rendered(b: seq<Byte>): (r: RData)
    ensures r.text == [] <==> b == []
  {
    if |b| > 0 then
      JoinEmpty(Decimals(b), '.');
      RData(Join(Decimals(b), '.'))
    else RData([])
  }

  /** RData.toBytes. */
  method ToBytes(r: RData) returns (out: Result<seq<Byte>>)
    ensures out == Octets(r)
  {
    var fields := JavaSplit(r.text, '.');
    var bytes: seq<Byte> := [];
    var i := 0;
    while i < |fields|
      invariant 0 <= i <= |fields|
      invariant ParseFields(fields[..i]) == Success(bytes)
    {
      var v := ParseInt(fields[i]);
      if v.Failure? {
        FieldFails(fields, i);
        return Failure(v.error);
      }
      FieldParses(fields, i, bytes);
      bytes := bytes + [LowByte(v.value)];
      i := i + 1;
    }
    assert fields[..i] == fields;
    out := Success(bytes);
  }

  lemma FieldParses(fields: seq<string>, i: nat, bytes: seq<Byte>)
    requires i < |fields| && ParseFields(fields[..i]) == Success(bytes) && ParseInt(fields[i]).Success?
    ensures ParseFields(fields[..i + 1]) == Success(bytes + [LowByte(ParseInt(fields[i]).value)])
  {
    assert fields[..i + 1][..i] == fields[..i];
  }

  lemma FieldFails(fields: seq<string>, i: nat)
    requires i < |fields| && ParseInt(fields[i]).Failure?
    ensures ParseFields(fields) == Failure(NumberFormat)
  {
  }

  /** RData.fromBytes. */
  method FromBytes(b: seq<Byte>) returns (r: RData)
    ensures r == Rendered(b)
  {
    var fields: seq<string> := [];
    var i := 0;
    while i < |b|
      invariant 0 <= i <= |b|
      invariant |fields| == i
      invariant forall k :: 0 <= k < i ==> fields[k] == Decimal(b[k])
    {
      fields := fields + [Decimal(b[i])];
      i := i + 1;
    }
    assert fields == Decimals(b);
    r := RData(Join(fields, '.'));
  }

  /** Reading back the digits of a value gives the value. */
  lemma {:induction false} DecimalValue(n: nat)
    ensures DigitsValue(Decimal(n)) == n
    decreases n
  {
    if n >= 10 {
      DecimalValue(n / 10);
      var s := Decimal(n);
      assert s[..|s| - 1] == Decimal(n / 10);
    }
  }

  /** Integer.parseInt reads Integer.toString back, for every non-negative int. */
  lemma ParseDecimal(n: nat)
    requires n <= MaxInt
    ensures ParseInt(Decimal(n)) == Success(n)
  {
    DecimalValue(n);
    var s := Decimal(n);
    assert s[0] != '-' && s[0] != '+' by {
      assert IsDigit(s[0]);
    }
  }

  /**
   * fromBytes of n octets has exactly n fields once split again, and each
   * parses to its octet, in 0..255.
   */
  lemma RenderedFields(b: seq<Byte>)
    requires |b| >= 1
    ensures JavaSplit(Rendered(b).text, '.') == Decimals(b)
    ensures forall i :: 0 <= i < |b| ==> ParseInt(Decimals(b)[i]) == Success(b[i] as int)
  {
    var fields := Decimals(b);
    forall i | 0 <= i < |fields| ensures '.' !in fields[i] {
      assert AllDigits(fields[i]);
    }
    JavaSplitJoin(fields, '.');
    forall i | 0 <= i < |b| ensures ParseInt(fields[i]) == Success(b[i] as int) {
      ParseDecimal(b[i]);
    }
  }

  /** Round trip: toBytes(fromBytes(b)) == b for every non-empty octet string. */
  lemma OctetsRoundTrip(b: seq<Byte>)
    requires |b| >= 1
    ensures Octets(Rendered(b)) == Success(b)
  {
    hide Rendered, JavaSplit, Decimals, ParseInt, LowByte;
    var fields := Decimals(b);
    RenderedFields(b);
    assert Octets(Rendered(b)) == ParseFields(fields);
    ParseFieldsValues(fields);
    var v := ParseFields(fields).value;
    assert |v| == |fields| == |b|;
    assert forall i :: 0 <= i < |b| ==> v[i] == b[i];
    assert v == b;
  }

  /** fromBytes of no octets is "", which toBytes rejects: parseInt("") fails. */
  lemma EmptyRendered()
    ensures Rendered([]).text == []
    ensures Octets(Rendered([])) == Failure(NumberFormat)
  {
    assert JavaSplit(Rendered([]).text, '.') == [[]];
    assert !ParseInt([]).Success?;
  }

  /** The server's default address: {8, 8, 8, 8} renders as "8.8.8.8". */
  lemma DefaultAddressText()
    ensures Rendered([8, 8, 8, 8]).text == "8.8.8.8"
  {
    var fields := Decimals([8, 8, 8, 8]);
    assert forall i :: 0 <= i < 4 ==> fields[i] == "8";
    assert fields == ["8", "8", "8", "8"];
  }
}
