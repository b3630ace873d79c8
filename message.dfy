/**
 * A whole DNS message (RFC 1035, section 4.1): the header, then qdcount
 * questions, then ancount answer records. The authority and additional
 * sections are never written or read; their counts only travel in the
 * header.
 *
 * DNSMessage holds the very header object it was given, and both of its
 * constructors overwrite that object's counts from the list sizes.
 */
module DnsMessage {
  import opened Wire
  import opened DnsName
  import opened DnsHeader
  import opened DnsQuestion
  import opened DnsAnswer
  import opened RecordData

  /** A message as a value; `answers` is None when the two-argument constructor built it. */
  datatype MessageView = MessageView(header: HeaderFields, questions: seq<Question>, answers: Option<seq<Answer>>)

  /** What the three-argument constructor makes of a header and two lists. */
  function Assembled(h: HeaderFields, questions: seq<Question>, answers: seq<Answer>): (m: MessageView)
    ensures m.questions == questions && m.answers == Some(answers)
    ensures m.header == h.(qdCount := m.header.qdCount, anCount := m.header.anCount)
    ensures m.header.qdCount == |questions| % 0x1_0000 && m.header.anCount == |answers| % 0x1_0000
  {
    MessageView(h.(qdCount := Short(|questions|), anCount := Short(|answers|)), questions, Some(answers))
  }

  /** The questions, each encoded, one after the other in list order. */
  function EncodeQuestions(qs: seq<Question>): (r: seq<Byte>)
    ensures |r| >= 5 * |qs|
    ensures |qs| == 1 ==> r == EncodeQuestion(qs[0])
  {
    if |qs| == 0 then []
    else
      var init := qs[..|qs| - 1];
      assert |qs| == 1 ==> init == [];
      EncodeQuestions(init) + EncodeQuestion(qs[|qs| - 1])
  }

  /** The answers, each encoded, in list order; the first that cannot be encoded fails the lot. */
  function EncodeAnswers(answers: seq<Answer>): (r: Result<seq<Byte>>)
    ensures r.Failure? ==> r.error == NumberFormat
  {
    if |answers| == 0 then Success([])
    else
      var init :- EncodeAnswers(answers[..|answers| - 1]);
      var last :- EncodeAnswer(answers[|answers| - 1]);
      Success(init + last)
  }

  /**
   * DNSMessage.toBytes: header, questions, then answers. The answer section
   * is left out when answers are absent or empty.
   */
  function EncodeMessage(m: MessageView): (r: Result<seq<Byte>>)
    ensures r.Success? ==> |r.value| >= HeaderSize && r.value[..HeaderSize] == EncodeHeader(m.header)
    ensures (m.answers.None? || m.answers.value == [])
            ==> r == Success(EncodeHeader(m.header) + EncodeQuestions(m.questions))
  {
    var front := EncodeHeader(m.header) + EncodeQuestions(m.questions);
    if m.answers.Some? && |m.answers.value| > 0 then
      var answers :- EncodeAnswers(m.answers.value);
      Success(front + answers)
    else Success(front)
  }

  /**
   * How often `for (int i = 0; i < count; i++)` runs when count is a Java
   * short: a word of 0x8000 or more is negative and the loop does not run.
   */
  function Count(x: U16): (n: nat)
    ensures x < 0x8000 ==> n == x
    ensures x >= 0x8000 ==> n == 0
  {
    if Signed16(x) < 0 then 0 else x
  }

  /** `n` more DNSQuestion.fromByteBuffer calls from cursor `pos`, appended to `acc`. */
  function QuestionsFrom(data: seq<Byte>, pos: nat, n: nat, acc: seq<Question>): (r: Result<(seq<Question>, nat)>)
    ensures r.Success? ==> |r.value.0| == |acc| + n
    decreases n
  {
    if n == 0 then Success((acc, pos))
    else
      var q :- QuestionAt(data, pos);
      QuestionsFrom(data, q.1, n - 1, acc + [q.0])
  }

  /** `n` more DNSAnswer.fromByteBuffer calls from cursor `pos`, appended to `acc`. */
  function AnswersFrom(data: seq<Byte>, pos: nat, n: nat, acc: seq<Answer>): (r: Result<(seq<Answer>, nat)>)
    ensures r.Success? ==> |r.value.0| == |acc| + n
    decreases n
  {
    if n == 0 then Success((acc, pos))
    else
      var a :- AnswerAt(data, pos);
      AnswersFrom(data, a.1, n - 1, acc + [a.0])
  }

  /**
   * DNSMessage.fromByteBuffer on a buffer read from its start: the header,
   * then as many questions and answers as its counts say, then the
   * three-argument constructor, which rewrites both counts from the list
   * sizes. The answer list is always present.
   */
  function DecodeMessage(data: seq<Byte>): (r: Result<MessageView>)
    ensures r.Success? ==> HeaderAt(data, 0).Success? && r.value.answers.Some?
    ensures r.Success? ==> |r.value.questions| == Count(HeaderAt(data, 0).value.0.qdCount)
                           && |r.value.answers.value| == Count(HeaderAt(data, 0).value.0.anCount)
    ensures r.Success? ==> r.value.header.qdCount == Short(|r.value.questions|)
                           && r.value.header.anCount == Short(|r.value.answers.value|)
  {
    var h :- HeaderAt(data, 0);
    var qs :- QuestionsFrom(data, h.1, Count(h.0.qdCount), []);
    var answers :- AnswersFrom(data, qs.1, Count(h.0.anCount), []);
    Success(Assembled(h.0, qs.0, answers.0))
  }

  class Message {
    const header: Header
    const questions: seq<Question>
    const answers: Option<seq<Answer>>

    function View(): MessageView
      reads this, header
    {
      MessageView(header.Fields(), questions, answers)
    }

    lemma ViewParts()
      ensures View() == MessageView(header.Fields(), questions, answers)
    {
    }

    /** DNSMessage(header, questions, answers): keeps `header` itself and overwrites both counts. */
    constructor (header: Header, questions: seq<Question>, answers: seq<Answer>)
      modifies header
      ensures this.header == header
      ensures View() == Assembled(old(header.Fields()), questions, answers)
    {
      this.header := header;
      this.questions := questions;
      this.answers := Some(answers);
      new;
      header.SetQdCount(Short(|questions|));
      header.SetAnCount(Short(|answers|));
    }

    /** DNSMessage(header, questions): qdCount overwritten, anCount kept, no answer list. */
    constructor WithoutAnswers(header: Header, questions: seq<Question>)
      modifies header
      ensures this.header == header
      ensures View() == MessageView(old(header.Fields()).(qdCount := Short(|questions|)), questions, None)
    {
      this.header := header;
      this.questions := questions;
      this.answers := None;
      new;
      header.SetQdCount(Short(|questions|));
    }

    /** DNSMessage.toBytes. */
    method ToBytes() returns (r: Result<seq<Byte>>)
      ensures r == EncodeMessage(View())
    {
      hide *;
      ViewParts();
      ghost var m := View();
      var head := EncodeHeader(header.Fields());
      var out := head;
      var i := 0;
      EmptyQuestions(questions[..0], []);
      while i < |questions|
        invariant 0 <= i <= |questions|
        invariant out == head + EncodeQuestions(questions[..i])
      {
        QuestionEncodes(questions, i);
        Associative(head, EncodeQuestions(questions[..i]), EncodeQuestion(questions[i]));
        out := out + EncodeQuestion(questions[i]);
        i := i + 1;
      }
      assert questions[..i] == questions;
      if answers.Some? && |answers.value| > 0 {
        var list := answers.value;
        var j := 0;
        var tail: seq<Byte> := [];
        NoAnswers(list[..0]);
        while j < |list|
          invariant 0 <= j <= |list|
          invariant EncodeAnswers(list[..j]) == Success(tail)
        {
          var e := EncodeAnswer(list[j]);
          if e.Failure? {
            AnswerFails(list, j);
            SectionFails(m);
            return Failure(e.error);
          }
          AnswerEncodes(list, j, tail);
          tail := tail + e.value;
          j := j + 1;
        }
        assert list[..j] == list;
        SectionsJoin(m, out, tail);
        out := out + tail;
      }
      r := Success(out);
    }

    /** DNSMessage.fromByteBuffer on a buffer read from its start. */
    static method FromBytes(data: seq<Byte>) returns (r: Result<Message>)
      ensures r.Success? ==> fresh(r.value) && fresh(r.value.header)
      ensures r.Success? ==> DecodeMessage(data) == Success(r.value.View())
      ensures r.Failure? ==> DecodeMessage(data) == Failure(r.error)
    {
      var read := HeaderAt(data, 0);
      if read.Failure? {
        return Failure(read.error);
      }
      var fields := read.value.0;
      var header := new Header(fields.id, fields.flags, fields.qdCount, fields.anCount,
                               fields.nsCount, fields.arCount);
      var questions := ReadQuestions(data, read.value.1, header.qdCount);
      if questions.Failure? {
        return Failure(questions.error);
      }
      var answers := ReadAnswers(data, questions.value.1, header.anCount);
      if answers.Failure? {
        return Failure(answers.error);
      }
      var m := new Message(header, questions.value.0, answers.value.0);
      r := Success(m);
    }
  }

  /**
   * The question loop of fromByteBuffer, `for (int i = 0; i < qdCount; i++)`
   * with qdCount a Java short: DNSQuestion.fromByteBuffer once per turn.
   */
  method ReadQuestions(data: seq<Byte>, start: nat, qdCount: U16) returns (r: Result<(seq<Question>, nat)>)
    ensures r == QuestionsFrom(data, start, Count(qdCount), [])
  {
    hide *;  // the steps below are the lemmas' business
    var questions: seq<Question> := [];
    var pos := start;
    var i := 0;
    while i < Signed16(qdCount)
      invariant 0 <= i <= Count(qdCount)
      invariant QuestionsFrom(data, pos, Count(qdCount) - i, questions) == QuestionsFrom(data, start, Count(qdCount), [])
    {
      var q := QuestionAt(data, pos);
      if q.Failure? {
        QuestionFails(data, pos, Count(qdCount) - i, questions);
        return Failure(q.error);
      }
      QuestionStep(data, pos, Count(qdCount) - i, questions);
      questions := questions + [q.value.0];
      pos := q.value.1;
      i := i + 1;
    }
    QuestionsDone(data, pos, questions);
    r := Success((questions, pos));
  }

  /** The answer loop of fromByteBuffer: DNSAnswer.fromByteBuffer `anCount` times, as a short. */
  method ReadAnswers(data: seq<Byte>, start: nat, anCount: U16) returns (r: Result<(seq<Answer>, nat)>)
    ensures r == AnswersFrom(data, start, Count(anCount), [])
  {
    hide *;
    var answers: seq<Answer> := [];
    var pos := start;
    var k := 0;
    while k < Signed16(anCount)
      invariant 0 <= k <= Count(anCount)
      invariant AnswersFrom(data, pos, Count(anCount) - k, answers) == AnswersFrom(data, start, Count(anCount), [])
    {
      var a := AnswerAt(data, pos);
      if a.Failure? {
        AnswerReadFails(data, pos, Count(anCount) - k, answers);
        return Failure(a.error);
      }
      AnswerStep(data, pos, Count(anCount) - k, answers);
      answers := answers + [a.value.0];
      pos := a.value.1;
      k := k + 1;
    }
    AnswersDone(data, pos, answers);
    r := Success((answers, pos));
  }

  lemma AnswerEncodes(list: seq<Answer>, j: nat, tail: seq<Byte>)
    requires j < |list| && EncodeAnswers(list[..j]) == Success(tail) && EncodeAnswer(list[j]).Success?
    ensures EncodeAnswers(list[..j + 1]) == Success(tail + EncodeAnswer(list[j]).value)
  {
    hide *;
    var s := list[..j + 1];
    assert s[..j] == list[..j] && s[j] == list[j];
    EncodedSnoc(s, tail, EncodeAnswer(list[j]).value);
  }

  /** One more encodable record appends its octets to the section. */
  lemma EncodedSnoc(s: seq<Answer>, init: seq<Byte>, last: seq<Byte>)
    requires |s| > 0 && EncodeAnswers(s[..|s| - 1]) == Success(init) && EncodeAnswer(s[|s| - 1]) == Success(last)
    ensures EncodeAnswers(s) == Success(init + last)
  {
    hide EncodeAnswer;
  }

  /** One record that cannot be encoded fails the whole answer section. */
  lemma {:induction false} AnswerFails(list: seq<Answer>, j: nat)
    requires j < |list| && EncodeAnswer(list[j]).Failure?
    ensures EncodeAnswers(list) == Failure(NumberFormat)
    decreases |list|
  {
    if j < |list| - 1 {
      var init := list[..|list| - 1];
      assert init[j] == list[j];
      AnswerFails(init, j);
    }
  }

  /** A message with a non-empty answer section encodes as its front part followed by that section. */
  lemma SectionsJoin(m: MessageView, front: seq<Byte>, tail: seq<Byte>)
    requires front == EncodeHeader(m.header) + EncodeQuestions(m.questions)
    requires m.answers.Some? && |m.answers.value| > 0 && EncodeAnswers(m.answers.value) == Success(tail)
    ensures EncodeMessage(m) == Success(front + tail)
  {
  }

  /** A failing answer section fails the whole message. */
  lemma SectionFails(m: MessageView)
    requires m.answers.Some? && EncodeAnswers(m.answers.value) == Failure(NumberFormat)
    ensures EncodeMessage(m) == Failure(NumberFormat)
  {
  }

  /** Proof plumbing: regroups a concatenation in proofs that hide the functions involved. */
  lemma Associative<T>(a: seq<T>, b: seq<T>, c: seq<T>)
    ensures a + b + c == a + (b + c)
  {
  }

  lemma QuestionEncodes(qs: seq<Question>, i: nat)
    requires i < |qs|
    ensures EncodeQuestions(qs[..i + 1]) == EncodeQuestions(qs[..i]) + EncodeQuestion(qs[i])
  {
    assert qs[..i + 1][..i] == qs[..i];
  }

  lemma QuestionsDone(data: seq<Byte>, pos: nat, acc: seq<Question>)
    ensures QuestionsFrom(data, pos, 0, acc) == Success((acc, pos))
  {
  }

  lemma AnswersDone(data: seq<Byte>, pos: nat, acc: seq<Answer>)
    ensures AnswersFrom(data, pos, 0, acc) == Success((acc, pos))
  {
  }

  lemma QuestionStep(data: seq<Byte>, pos: nat, n: nat, acc: seq<Question>)
    requires n > 0 && QuestionAt(data, pos).Success?
    ensures QuestionsFrom(data, pos, n, acc)
            == QuestionsFrom(data, QuestionAt(data, pos).value.1, n - 1, acc + [QuestionAt(data, pos).value.0])
  {
  }

  lemma QuestionFails(data: seq<Byte>, pos: nat, n: nat, acc: seq<Question>)
    requires n > 0 && QuestionAt(data, pos).Failure?
    ensures QuestionsFrom(data, pos, n, acc) == Failure(QuestionAt(data, pos).error)
  {
  }

  lemma AnswerStep(data: seq<Byte>, pos: nat, n: nat, acc: seq<Answer>)
    requires n > 0 && AnswerAt(data, pos).Success?
    ensures AnswersFrom(data, pos, n, acc)
            == AnswersFrom(data, AnswerAt(data, pos).value.1, n - 1, acc + [AnswerAt(data, pos).value.0])
  {
  }

  lemma AnswerReadFails(data: seq<Byte>, pos: nat, n: nat, acc: seq<Answer>)
    requires n > 0 && AnswerAt(data, pos).Failure?
    ensures AnswersFrom(data, pos, n, acc) == Failure(AnswerAt(data, pos).error)
  {
  }

  /** The records of a list as they read back, in order (see DnsAnswer.Reread). */
  function Rereads(answers: seq<Answer>): (r: seq<Answer>)
    requires forall a | a in answers :: Transmittable(a)
    ensures |r| == |answers|
  {
    if |answers| == 0 then []
    else
      assert answers[0] in answers && Transmittable(answers[0]);
      assert forall b | b in answers[1..] :: b in answers;
      [Reread(answers[0])] + Rereads(answers[1..])
  }

  /** The question section seen from its front: the first question, then the rest. */
  lemma {:induction false} EncodeQuestionsCons(qs: seq<Question>)
    requires |qs| > 0
    ensures EncodeQuestions(qs) == EncodeQuestion(qs[0]) + EncodeQuestions(qs[1..])
    decreases |qs|
  {
    hide *;
    QuestionsSnoc(qs);
    var init, rest := qs[..|qs| - 1], qs[1..];
    if |qs| == 1 {
      EmptyQuestions(init, []);
      EmptyQuestions(rest, []);
    } else {
      EncodeQuestionsCons(init);
      QuestionsSnoc(rest);
      assert init[1..] == rest[..|rest| - 1] && init[0] == qs[0] && rest[|rest| - 1] == qs[|qs| - 1];
      Associative(EncodeQuestion(qs[0]), EncodeQuestions(init[1..]), EncodeQuestion(qs[|qs| - 1]));
    }
  }

  lemma QuestionsSnoc(qs: seq<Question>)
    requires |qs| > 0
    ensures EncodeQuestions(qs) == EncodeQuestions(qs[..|qs| - 1]) + EncodeQuestion(qs[|qs| - 1])
  {
  }

  /** The answer section seen from its front: the first record, then the rest. */
  lemma {:induction false} EncodeAnswersCons(answers: seq<Answer>)
    requires |answers| > 0 && EncodeAnswers(answers).Success?
    ensures EncodeAnswer(answers[0]).Success? && EncodeAnswers(answers[1..]).Success?
    ensures EncodeAnswers(answers).value == EncodeAnswer(answers[0]).value + EncodeAnswers(answers[1..]).value
    decreases |answers|
  {
    hide *;
    AnswersSnoc(answers);
    var init, rest := answers[..|answers| - 1], answers[1..];
    if |answers| == 1 {
      EmptyAnswers(init, EncodeAnswers(init).value);
      NoAnswers(rest);
    } else {
      EncodeAnswersCons(init);
      AnswersSnoc(rest);
      assert init[1..] == rest[..|rest| - 1] && init[0] == answers[0] && rest[|rest| - 1] == answers[|answers| - 1];
      Associative(EncodeAnswer(answers[0]).value, EncodeAnswers(init[1..]).value,
                  EncodeAnswer(answers[|answers| - 1]).value);
    }
  }

  /** The last step of EncodeAnswers, when it succeeds. */
  lemma AnswersSnoc(answers: seq<Answer>)
    requires |answers| > 0
    ensures EncodeAnswers(answers).Success? <==>
            EncodeAnswers(answers[..|answers| - 1]).Success? && EncodeAnswer(answers[|answers| - 1]).Success?
    ensures EncodeAnswers(answers).Success? ==>
            EncodeAnswers(answers).value
            == EncodeAnswers(answers[..|answers| - 1]).value + EncodeAnswer(answers[|answers| - 1]).value
  {
  }

  lemma NoAnswers(answers: seq<Answer>)
    requires |answers| == 0
    ensures EncodeAnswers(answers) == Success([])
  {
  }

  /**
   * Round trip of the question section: the encodings of questions with
   * well-formed names, laid out from `pos`, read back as those questions.
   */
  lemma {:induction false} QuestionsRoundTrip(data: seq<Byte>, pos: nat, qs: seq<Question>, acc: seq<Question>)
    requires forall q | q in qs :: WellFormed(q.name)
    requires IsAt(data, pos, EncodeQuestions(qs))
    ensures QuestionsFrom(data, pos, |qs|, acc) == Success((acc + qs, pos + |EncodeQuestions(qs)|))
    decreases |qs|
  {
    hide *;
    if |qs| == 0 {
      QuestionsDone(data, pos, acc);
      EmptyQuestions(qs, acc);
    } else {
      var q, rest := qs[0], qs[1..];
      EncodeQuestionsCons(qs);
      IsAtSplit(data, pos, EncodeQuestion(q), EncodeQuestions(rest));
      QuestionRoundTrip(data, pos, q);
      var next := pos + |EncodeQuestion(q)|;
      assert forall r | r in rest :: r in qs;
      QuestionsRoundTrip(data, next, rest, acc + [q]);
      QuestionStep(data, pos, |qs|, acc);
      assert acc + [q] + rest == acc + qs by {
        assert qs == [q] + rest;
      }
    }
  }

  lemma EmptyQuestions(qs: seq<Question>, acc: seq<Question>)
    requires |qs| == 0
    ensures acc + qs == acc && |EncodeQuestions(qs)| == 0
  {
  }

  /**
   * Round trip of the answer section: the encodings of transmittable
   * records, laid out from `pos`, read back as their rereadings.
   */
  lemma {:induction false} AnswersRoundTrip(data: seq<Byte>, pos: nat, answers: seq<Answer>, e: seq<Byte>,
                                            acc: seq<Answer>)
    requires forall a | a in answers :: Transmittable(a)
    requires EncodeAnswers(answers) == Success(e)
    requires IsAt(data, pos, e)
    ensures AnswersFrom(data, pos, |answers|, acc) == Success((acc + Rereads(answers), pos + |e|))
    decreases |answers|
  {
    hide *;
    if |answers| == 0 {
      EmptyAnswers(answers, e);
      EmptyRereads(answers);
      AnswersDone(data, pos, acc);
      assert acc + Rereads(answers) == acc;
      assert pos + |e| == pos;
    } else {
      var a, rest := answers[0], answers[1..];
      Members(answers);
      EncodeAnswersCons(answers);
      var ea, er := EncodeAnswer(a).value, EncodeAnswers(rest).value;
      IsAtSplit(data, pos, ea, er);
      AnswerReadsBack(data, pos, a, ea);
      var next := pos + |ea|;
      AnswersRoundTrip(data, next, rest, er, acc + [Reread(a)]);
      AnswerStep(data, pos, |answers|, acc);
      RereadsCons(answers);
      assert acc + [Reread(a)] + Rereads(rest) == acc + Rereads(answers);
    }
  }

  lemma EmptyAnswers(answers: seq<Answer>, e: seq<Byte>)
    requires |answers| == 0 && EncodeAnswers(answers) == Success(e)
    ensures e == []
  {
  }

  lemma Members(answers: seq<Answer>)
    requires |answers| > 0 && forall a | a in answers :: Transmittable(a)
    ensures Transmittable(answers[0]) && forall a | a in answers[1..] :: Transmittable(a)
  {
    assert answers[0] in answers;
    assert forall a | a in answers[1..] :: a in answers;
  }

  lemma RereadsCons(answers: seq<Answer>)
    requires |answers| > 0 && forall a | a in answers :: Transmittable(a)
    ensures Transmittable(answers[0]) && Rereads(answers) == [Reread(answers[0])] + Rereads(answers[1..])
  {
    assert answers[0] in answers;
  }

  /** The question section, read starting with no questions. */
  lemma QuestionSection(data: seq<Byte>, pos: nat, qs: seq<Question>)
    requires forall q | q in qs :: WellFormed(q.name)
    requires IsAt(data, pos, EncodeQuestions(qs))
    ensures QuestionsFrom(data, pos, |qs|, []) == Success((qs, pos + |EncodeQuestions(qs)|))
  {
    hide *;
    QuestionsRoundTrip(data, pos, qs, []);
    assert [] + qs == qs;
  }

  /** The answer section, empty or not, starting with no answers. */
  lemma AnswerSection(data: seq<Byte>, p: nat, answers: seq<Answer>, ea: seq<Byte>)
    requires forall a | a in answers :: Transmittable(a)
    requires |answers| == 0 ==> ea == []
    requires |answers| > 0 ==> EncodeAnswers(answers) == Success(ea)
    requires IsAt(data, p, ea)
    ensures AnswersFrom(data, p, |answers|, []) == Success((Rereads(answers), p + |ea|))
  {
    hide *;
    if |answers| > 0 {
      AnswersRoundTrip(data, p, answers, ea, []);
      assert [] + Rereads(answers) == Rereads(answers);
    } else {
      AnswersDone(data, p, []);
      EmptyRereads(answers);
    }
  }

  /** The three sections of a message, laid out one after the other. */
  lemma MessageParts(h: HeaderFields, qs: seq<Question>, answers: seq<Answer>, e: seq<Byte>) returns (ea: seq<Byte>)
    requires EncodeMessage(Assembled(h, qs, answers)) == Success(e)
    ensures e == EncodeHeader(Assembled(h, qs, answers).header) + EncodeQuestions(qs) + ea
    ensures |answers| == 0 ==> ea == []
    ensures |answers| > 0 ==> EncodeAnswers(answers) == Success(ea)
  {
    ea := if |answers| > 0 then EncodeAnswers(answers).value else [];
  }

  /** Three pieces laid out back to back from the start of a buffer. */
  lemma SectionsAt(data: seq<Byte>, a: seq<Byte>, b: seq<Byte>, c: seq<Byte>)
    requires IsAt(data, 0, a + b + c)
    ensures IsAt(data, 0, a) && IsAt(data, |a|, b) && IsAt(data, |a| + |b|, c)
  {
    IsAtSplit(data, 0, a + b, c);
    IsAtSplit(data, 0, a, b);
  }

  /** DNSMessage.fromByteBuffer, once each of its three reads is known. */
  lemma DecodeFromParts(data: seq<Byte>, fields: HeaderFields, qs: seq<Question>, p: nat, answers: seq<Answer>,
                        end: nat)
    requires HeaderAt(data, 0) == Success((fields, HeaderSize))
    requires QuestionsFrom(data, HeaderSize, Count(fields.qdCount), []) == Success((qs, p))
    requires AnswersFrom(data, p, Count(fields.anCount), []) == Success((answers, end))
    ensures DecodeMessage(data) == Success(Assembled(fields, qs, answers))
  {
  }

  /**
   * Round trip of a whole message: a header with up to 0x7FFF questions of
   * well-formed names and up to 0x7FFF transmittable records, encoded at
   * the start of a buffer, reads back as the same header (with the counts
   * set from the lists), the same questions and the records reread.
   */
  lemma MessageRoundTrip(data: seq<Byte>, h: HeaderFields, qs: seq<Question>, answers: seq<Answer>, e: seq<Byte>)
    requires |qs| < 0x8000 && |answers| < 0x8000
    requires forall q | q in qs :: WellFormed(q.name)
    requires forall a | a in answers :: Transmittable(a)
    requires EncodeMessage(Assembled(h, qs, answers)) == Success(e)
    requires IsAt(data, 0, e)
    ensures DecodeMessage(data) == Success(Assembled(h, qs, Rereads(answers)))
  {
    hide *;
    var fields := Assembled(h, qs, answers).header;
    AssembledCounts(h, qs, answers);
    var ea := MessageParts(h, qs, answers, e);
    LaidOutMessage(data, fields, qs, answers, ea);
    SameAssembly(h, fields, qs, answers, Rereads(answers));
  }

  /** The round trip once the message is known to be header, questions and answers in a row. */
  lemma LaidOutMessage(data: seq<Byte>, fields: HeaderFields, qs: seq<Question>, answers: seq<Answer>, ea: seq<Byte>)
    requires Count(fields.qdCount) == |qs| && Count(fields.anCount) == |answers|
    requires forall q | q in qs :: WellFormed(q.name)
    requires forall a | a in answers :: Transmittable(a)
    requires |answers| == 0 ==> ea == []
    requires |answers| > 0 ==> EncodeAnswers(answers) == Success(ea)
    requires IsAt(data, 0, EncodeHeader(fields) + EncodeQuestions(qs) + ea)
    ensures DecodeMessage(data) == Success(Assembled(fields, qs, Rereads(answers)))
  {
    hide *;
    var hd, eq := EncodeHeader(fields), EncodeQuestions(qs);
    SectionsAt(data, hd, eq, ea);
    HeaderRoundTrip(data, 0, fields);
    var p := HeaderSize + |eq|;
    QuestionSection(data, HeaderSize, qs);
    AnswerSection(data, p, answers, ea);
    DecodeFromParts(data, fields, qs, p, Rereads(answers), p + |ea|);
  }

  lemma AssembledCounts(h: HeaderFields, qs: seq<Question>, answers: seq<Answer>)
    requires |qs| < 0x8000 && |answers| < 0x8000
    ensures Count(Assembled(h, qs, answers).header.qdCount) == |qs|
    ensures Count(Assembled(h, qs, answers).header.anCount) == |answers|
  {
  }

  lemma EmptyRereads(answers: seq<Answer>)
    requires |answers| == 0
    ensures Rereads(answers) == []
  {
  }

  /** Assembled overwrites both counts, so only the list sizes matter. */
  lemma SameAssembly(h: HeaderFields, fields: HeaderFields, qs: seq<Question>, answers: seq<Answer>,
                     reread: seq<Answer>)
    requires fields == Assembled(h, qs, answers).header && |reread| == |answers|
    ensures Assembled(fields, qs, reread) == Assembled(h, qs, reread)
  {
  }
}
