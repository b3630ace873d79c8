/**
 * The request logic of DNSServer: every request gets a response that
 * echoes its id and questions, with QR set and RCODE 4 (not implemented)
 * for any opcode but a standard query. Without a resolver each question
 * is answered with an A record for 8.8.8.8; with one, each question is
 * forwarded in a message of its own and the resolver's answers are
 * collected, falling back to the 8.8.8.8 answers when none come back.
 *
 * Sockets are not modelled: what the resolver did with each forwarded
 * query is an `Exchange` given as input, and the ids that Random would
 * draw are given as a sequence.
 */
module DnsServer {
  import opened Wire
  import opened RecordData
  import opened DnsName
  import opened DnsHeader
  import opened DnsQuestion
  import opened DnsAnswer
  import opened DnsMessage

  const DefaultIp: seq<Byte> := [8, 8, 8, 8]
  const DefaultTtl: U32 := 1800
  /** Forwarded ids come from `nextInt(Short.MAX_VALUE)`: 0 to 0x7FFE. */
  const MaxForwardId := 0x7FFF
  /** Every datagram is received into a fresh buffer of this many octets. */
  const BufferSize := 512

  /**
   * What DatagramPacket.getData returns after a receive into a new 512-octet
   * buffer: the datagram, cut to 512 octets, followed by zeros.
   */
  function ReceiveBuffer(datagram: seq<Byte>): (r: seq<Byte>)
    ensures |r| == BufferSize
    ensures |datagram| <= BufferSize ==> IsAt(r, 0, datagram)
    ensures |datagram| >= BufferSize ==> IsAt(datagram, 0, r)
    ensures forall i :: |datagram| <= i < BufferSize ==> r[i] == 0
  {
    if |datagram| >= BufferSize then datagram[..BufferSize]
    else
      var r := datagram + seq(BufferSize - |datagram|, _ => 0);
      assert r[..|datagram|] == datagram;
      r
  }

  /** Bits 4 to 14 of the flags word: everything but QR and RCODE. */
  function MiddleBits(f: U16): int {
    (f % 0x8000) / 16
  }

  /** A flags word is QR, the middle bits and RCODE; the opcode is the top four middle bits. */
  lemma FlagsParts(f: U16)
    ensures 0 <= MiddleBits(f) < 0x800
    ensures f == (f / 0x8000) * 0x8000 + MiddleBits(f) * 16 + RCodeOf(f)
    ensures OpcodeOf(f) == MiddleBits(f) / 0x80
  {
    var op, low := OpcodeOf(f), f % 0x800;
    assert f % 0x8000 == op * 0x800 + low;
    assert low == (low / 16) * 16 + low % 16 && low % 16 == f % 16;
    assert MiddleBits(f) == op * 0x80 + low / 16;
  }

  /** The three parts of a word put together are read back apart. */
  lemma FromParts(f: U16, qr: int, mid: int, rc: int)
    requires 0 <= qr < 2 && 0 <= mid < 0x800 && 0 <= rc < 16
    requires f == qr * 0x8000 + mid * 16 + rc
    ensures f / 0x8000 == qr && MiddleBits(f) == mid && RCodeOf(f) == rc
  {
    assert f % 0x8000 == mid * 16 + rc;
  }

  /** setRCode keeps QR and the middle bits. */
  lemma RCodeParts(f: U16, code: int)
    requires 0 <= code <= 15
    ensures WithRCode(f, code) / 0x8000 == f / 0x8000 && MiddleBits(WithRCode(f, code)) == MiddleBits(f)
  {
    FlagsParts(f);
    FromParts(WithRCode(f, code), f / 0x8000, MiddleBits(f), code);
  }

  /** setResponse sets QR and keeps the middle bits and RCODE. */
  lemma ResponseParts(f: U16)
    ensures MiddleBits(WithResponse(f)) == MiddleBits(f) && RCodeOf(WithResponse(f)) == RCodeOf(f)
  {
    FlagsParts(f);
    FromParts(WithResponse(f), 1, MiddleBits(f), RCodeOf(f));
  }

  /**
   * getResponseHeader as a value: a copy of the request header with QR set
   * and, for a non-zero opcode, RCODE 4; id, opcode, the other flag bits
   * and the four counts are kept.
   */
  function ResponseFields(h: HeaderFields): (r: HeaderFields)
    ensures r == h.(flags := r.flags)
    ensures r.flags / 0x8000 == 1
    ensures MiddleBits(r.flags) == MiddleBits(h.flags)
    ensures OpcodeOf(r.flags) == OpcodeOf(h.flags)
    ensures RCodeOf(r.flags) == if OpcodeOf(h.flags) != 0 then 4 else RCodeOf(h.flags)
  {
    var f := if OpcodeOf(h.flags) != 0 then WithRCode(h.flags, 4) else h.flags;
    var r := h.(flags := WithResponse(f));
    RCodeParts(h.flags, 4);
    ResponseParts(f);
    FlagsParts(h.flags);
    FlagsParts(r.flags);
    r
  }

  /** DNSServer.getResponseHeader: clone, setRCode(4) for a non-zero opcode, setResponse. */
  method GetResponseHeader(request: Message) returns (header: Header)
    ensures fresh(header)
    ensures header.Fields() == ResponseFields(request.header.Fields())
  {
    header := request.header.Clone();
    if header.Opcode() != 0 {
      var _ := header.SetRCode(4);
    }
    header.SetResponse();
  }

  /** The record generateDefaultResponse makes for one question. */
  function DefaultAnswer(q: Question): (a: Answer)
    ensures a.name == q.name && a.atype == q.qtype && a.aclass == q.qclass
    ensures a.ttl == 1800 && a.rdLength == 4
  {
    Answer(q.name, q.qtype, q.qclass, DefaultTtl, Short(|DefaultIp|), Rendered(DefaultIp))
  }

  /** One default record per question, in question order. */
  function DefaultAnswers(qs: seq<Question>): (r: seq<Answer>)
    ensures |r| == |qs|
  {
    if |qs| == 0 then [] else DefaultAnswers(qs[..|qs| - 1]) + [DefaultAnswer(qs[|qs| - 1])]
  }

  /**
   * Default record i answers question i: its name, type and class, TTL 1800,
   * RDLENGTH 4 and the text "8.8.8.8".
   */
  lemma {:induction false} DefaultAnswersEcho(qs: seq<Question>)
    ensures forall i :: 0 <= i < |qs| ==> DefaultAnswers(qs)[i] == DefaultAnswer(qs[i])
    ensures forall i :: 0 <= i < |qs| ==>
              var a := DefaultAnswers(qs)[i];
              a.name == qs[i].name && a.atype == qs[i].qtype && a.aclass == qs[i].qclass
              && a.ttl == 1800 && a.rdLength == 4 && a.rdata.text == "8.8.8.8"
  {
    if |qs| > 0 {
      DefaultAnswersEcho(qs[..|qs| - 1]);
    }
    DefaultAddressText();
  }

  /** DNSServer.generateDefaultResponse. */
  method GenerateDefaultResponse(request: Message) returns (answers: seq<Answer>)
    ensures answers == DefaultAnswers(request.questions)
  {
    var rData := RecordData.FromBytes(DefaultIp);
    var questions := request.questions;
    answers := [];
    for i := 0 to |questions|
      invariant answers == DefaultAnswers(questions[..i])
    {
      assert questions[..i + 1][..i] == questions[..i];
      var q := questions[i];
      answers := answers + [Answer(q.name, q.qtype, q.qclass, DefaultTtl, Short(|DefaultIp|), rData)];
    }
    assert questions[..|questions|] == questions;
  }

  /** A default record encodes: its text parses back to the four octets 8, 8, 8, 8. */
  lemma DefaultAnswerEncodes(q: Question)
    ensures EncodeAnswer(DefaultAnswer(q))
            == Success(Encode(q.name) + U16Bytes(q.qtype) + U16Bytes(q.qclass) + U32Bytes(DefaultTtl)
                       + U16Bytes(4) + DefaultIp)
    ensures WellFormed(q.name) ==> Transmittable(DefaultAnswer(q))
  {
    OctetsRoundTrip(DefaultIp);
  }

  /** The default answer section always encodes. */
  lemma {:induction false} DefaultAnswersEncode(qs: seq<Question>)
    ensures EncodeAnswers(DefaultAnswers(qs)).Success?
  {
    hide *;
    if |qs| > 0 {
      var init := qs[..|qs| - 1];
      DefaultAnswersEncode(init);
      DefaultAnswerEncodes(qs[|qs| - 1]);
      DefaultSnoc(qs);
      AnswersSnoc(DefaultAnswers(qs));
    } else {
      NoDefaults(qs);
      NoAnswers(DefaultAnswers(qs));
    }
  }

  lemma DefaultSnoc(qs: seq<Question>)
    requires |qs| > 0
    ensures DefaultAnswers(qs)[..|qs| - 1] == DefaultAnswers(qs[..|qs| - 1])
    ensures DefaultAnswers(qs)[|qs| - 1] == DefaultAnswer(qs[|qs| - 1])
  {
  }

  lemma NoDefaults(qs: seq<Question>)
    requires |qs| == 0
    ensures DefaultAnswers(qs) == []
  {
  }

  /** What happened to one forwarded query: the resolver's datagram came back, or send or receive failed. */
  datatype Exchange = Reply(datagram: seq<Byte>) | Lost

  /**
   * What forwardToResolver leaves for handleRequest: the answers gathered
   * from every reply, an IOException (caught by handleRequest), or an
   * unchecked exception from decoding a reply (not caught).
   */
  datatype Forwarding = Gathered(answers: seq<Answer>) | Aborted | Crashed(error: Error)

  /** The header of a forwarded query: the request header with a new id and qdCount 1. */
  function ForwardHeader(h: HeaderFields, id: U16): (f: HeaderFields)
    ensures f.id == id && f.qdCount == 1
    ensures f.flags == h.flags && f.anCount == h.anCount && f.nsCount == h.nsCount && f.arCount == h.arCount
  {
    h.(id := id, qdCount := 1)
  }

  /** The datagram sent to the resolver for one question. */
  function QueryBytes(h: HeaderFields, id: U16, q: Question): seq<Byte> {
    EncodeHeader(ForwardHeader(h, id)) + EncodeQuestion(q)
  }

  lemma QueryParts(h: HeaderFields, id: U16, q: Question)
    ensures QueryBytes(h, id, q) == EncodeHeader(ForwardHeader(h, id)) + EncodeQuestion(q)
  {
  }

  /** The question of a query reads back from octet 12 to the end of the datagram. */
  lemma QueryQuestion(h: HeaderFields, id: U16, q: Question)
    requires WellFormed(q.name)
    ensures QuestionAt(QueryBytes(h, id, q), HeaderSize) == Success((q, |QueryBytes(h, id, q)|))
  {
    hide *;
    var hd, e := EncodeHeader(ForwardHeader(h, id)), EncodeQuestion(q);
    QueryParts(h, id, q);
    IsAtWhole(hd + e);
    IsAtSplit(hd + e, 0, hd, e);
    QuestionRoundTrip(hd + e, |hd|, q);
  }

  /** The query is DNSMessage(header, [question]).toBytes() for the forward header. */
  lemma QueryIsMessage(h: HeaderFields, id: U16, q: Question)
    ensures EncodeMessage(MessageView(ForwardHeader(h, id), [q], None)) == Success(QueryBytes(h, id, q))
  {
    assert EncodeQuestions([q]) == EncodeQuestion(q) by {
      assert [q][..0] == [];
    }
  }

  /** The resolver reads the query's header as the forward header: the new id and QDCOUNT 1. */
  lemma QueryHeader(h: HeaderFields, id: U16, q: Question)
    ensures HeaderAt(QueryBytes(h, id, q), 0) == Success((ForwardHeader(h, id), HeaderSize))
  {
    var e := QueryBytes(h, id, q);
    assert IsAt(e, 0, EncodeHeader(ForwardHeader(h, id))) by {
      assert e[..HeaderSize] == EncodeHeader(ForwardHeader(h, id));
    }
    HeaderRoundTrip(e, 0, ForwardHeader(h, id));
  }

  /** The answers a reply contributes, or the way it fails. */
  function ReplyAnswers(x: Exchange): Forwarding {
    match x
    case Lost => Aborted
    case Reply(d) =>
      match DecodeMessage(ReceiveBuffer(d))
      case Failure(e) => Crashed(e)
      case Success(m) => Gathered(m.answers.value)
  }

  /**
   * What one exchange contributes: nothing but an IOException when it is
   * lost, the decoder's exception when the reply does not decode, and
   * otherwise as many records as the reply's ANCOUNT, read as a short.
   */
  lemma ReplyOutcome(x: Exchange)
    ensures ReplyAnswers(x).Aborted? <==> x.Lost?
    ensures ReplyAnswers(x).Crashed? <==> x.Reply? && DecodeMessage(ReceiveBuffer(x.datagram)).Failure?
    ensures ReplyAnswers(x).Crashed? ==> ReplyAnswers(x).error == DecodeMessage(ReceiveBuffer(x.datagram)).error
    ensures ReplyAnswers(x).Gathered? ==>
              |ReplyAnswers(x).answers| == Count(HeaderAt(ReceiveBuffer(x.datagram), 0).value.0.anCount)
  {
  }

  /**
   * The loop of forwardToResolver over the replies, in question order: the
   * answers of all replies one after the other, unless an exchange fails,
   * which ends the loop with that failure.
   */
  function Forwarded(replies: seq<Exchange>): (r: Forwarding)
  {
    if |replies| == 0 then Gathered([])
    else
      var init := Forwarded(replies[..|replies| - 1]);
      if !init.Gathered? then init
      else
        match ReplyAnswers(replies[|replies| - 1])
        case Gathered(more) => Gathered(init.answers + more)
        case failed => failed
  }

  /**
   * A resolver that replies with an encoded message of at most 512 octets
   * contributes that message's answers, as they read back.
   */
  lemma ReplyPassesAnswers(h: HeaderFields, qs: seq<Question>, answers: seq<Answer>, e: seq<Byte>)
    requires |qs| < 0x8000 && |answers| < 0x8000
    requires forall q | q in qs :: WellFormed(q.name)
    requires forall a | a in answers :: Transmittable(a)
    requires EncodeMessage(Assembled(h, qs, answers)) == Success(e) && |e| <= BufferSize
    ensures ReplyAnswers(Reply(e)) == Gathered(Rereads(answers))
  {
    MessageRoundTrip(ReceiveBuffer(e), h, qs, answers, e);
  }

  /**
   * The resolver reads the forwarded query as a one-question message with
   * the new id, provided the request carried no answer count: the query
   * keeps the request's ANCOUNT but no answer records.
   */
  lemma QueryDecodes(h: HeaderFields, id: U16, q: Question)
    requires WellFormed(q.name) && h.anCount == 0
    ensures DecodeMessage(QueryBytes(h, id, q)) == Success(MessageView(ForwardHeader(h, id), [q], Some([])))
  {
    var e := QueryBytes(h, id, q);
    QueryIsMessage(h, id, q);
    assert Assembled(ForwardHeader(h, id), [q], []).header == ForwardHeader(h, id);
    assert EncodeMessage(Assembled(ForwardHeader(h, id), [q], [])) == Success(e);
    assert IsAt(e, 0, e);
    MessageRoundTrip(e, ForwardHeader(h, id), [q], [], e);
    EmptyRereads([]);
  }

  /** Every reply decodes exactly when the loop gathers answers. */
  lemma {:induction false} ForwardedGathers(replies: seq<Exchange>)
    ensures Forwarded(replies).Gathered? <==> forall i :: 0 <= i < |replies| ==> ReplyAnswers(replies[i]).Gathered?
  {
    hide ReplyAnswers;
    if |replies| > 0 {
      var init := replies[..|replies| - 1];
      ForwardedGathers(init);
      assert forall i :: 0 <= i < |init| ==> init[i] == replies[i];
    }
  }

  /**
   * One lost exchange throws away the answers of every question: the loop
   * never returns answers, whatever the other replies were.
   */
  lemma {:induction false} LostAborts(replies: seq<Exchange>, k: nat)
    requires k < |replies| && replies[k].Lost?
    ensures !Forwarded(replies).Gathered?
  {
    ForwardedGathers(replies);
  }

  /** Once the loop has failed on a prefix of the replies, the rest are never looked at. */
  lemma {:induction false} ForwardedStops(replies: seq<Exchange>, k: nat)
    requires k <= |replies| && !Forwarded(replies[..k]).Gathered?
    ensures Forwarded(replies) == Forwarded(replies[..k])
    decreases |replies|
  {
    if k < |replies| {
      var init := replies[..|replies| - 1];
      assert init[..k] == replies[..k];
      ForwardedStops(init, k);
    } else {
      assert replies[..k] == replies;
    }
  }

  /**
   * A loop that gathers no answers stops with the failure of the first
   * exchange that gave none; every exchange before it gave answers.
   */
  lemma {:induction false} ForwardedFailure(replies: seq<Exchange>)
    requires !Forwarded(replies).Gathered?
    ensures exists i :: 0 <= i < |replies| && ReplyAnswers(replies[i]) == Forwarded(replies)
                        && forall j :: 0 <= j < i ==> ReplyAnswers(replies[j]).Gathered?
    decreases |replies|
  {
    hide ReplyAnswers;
    var last := |replies| - 1;
    var init := replies[..last];
    assert forall j :: 0 <= j < last ==> init[j] == replies[j];
    if Forwarded(init).Gathered? {
      ForwardedGathers(init);
      assert ReplyAnswers(replies[last]) == Forwarded(replies);
    } else {
      ForwardedFailure(init);
      var i :| 0 <= i < |init| && ReplyAnswers(init[i]) == Forwarded(init)
               && forall j :: 0 <= j < i ==> ReplyAnswers(init[j]).Gathered?;
      assert ReplyAnswers(replies[i]) == Forwarded(replies);
    }
  }

  /** One more turn of the loop. */
  lemma ForwardedStep(replies: seq<Exchange>, i: nat)
    requires i < |replies|
    ensures Forwarded(replies[..i + 1])
            == (var init := Forwarded(replies[..i]);
                if !init.Gathered? then init
                else match ReplyAnswers(replies[i])
                     case Gathered(more) => Gathered(init.answers + more)
                     case failed => failed)
  {
    assert replies[..i + 1][..i] == replies[..i];
  }

  /**
   * The query forwardToResolver sends for one question: a clone of the
   * request header given the new id, in a two-argument DNSMessage with that
   * question alone.
   */
  method BuildQuery(request: Message, id: U16, q: Question) returns (query: seq<Byte>)
    ensures query == QueryBytes(request.header.Fields(), id, q)
    ensures HeaderAt(query, 0) == Success((ForwardHeader(request.header.Fields(), id), HeaderSize))
  {
    var forwardHeader := request.header.Clone();
    forwardHeader.SetId(id);
    var forwardMessage := new Message.WithoutAnswers(forwardHeader, [q]);
    var queryData := forwardMessage.ToBytes();
    QueryIsMessage(request.header.Fields(), id, q);
    QueryHeader(request.header.Fields(), id, q);
    query := queryData.value;
  }

  /**
   * DNSServer.forwardToResolver: question i is sent with id ids[i], the
   * reply is decoded and its answers appended. Also returns the datagrams
   * sent: one per question up to and including the first failed exchange.
   */
  method ForwardToResolver(request: Message, ids: seq<U16>, replies: seq<Exchange>)
    returns (r: Forwarding, queries: seq<seq<Byte>>)
    requires |ids| == |request.questions| && |replies| == |request.questions|
    requires forall i :: 0 <= i < |ids| ==> ids[i] < MaxForwardId
    ensures r == Forwarded(replies)
    ensures |queries| <= |request.questions|
    ensures forall i :: 0 <= i < |queries| ==>
              queries[i] == QueryBytes(request.header.Fields(), ids[i], request.questions[i])
    ensures forall i :: 0 <= i < |queries| ==>
              HeaderAt(queries[i], 0).Success? && HeaderAt(queries[i], 0).value.0.id < MaxForwardId
              && HeaderAt(queries[i], 0).value.0.qdCount == 1
    ensures r.Gathered? ==> |queries| == |request.questions|
    ensures !r.Gathered? ==> 0 < |queries| && Forwarded(replies[..|queries| - 1]).Gathered?
                             && !Forwarded(replies[..|queries|]).Gathered?
  {
    hide Forwarded, ReplyAnswers, QueryBytes, HeaderAt;
    var questions := request.questions;
    var answers: seq<Answer> := [];
    queries := [];
    ForwardedEmpty(replies);
    var i := 0;
    while i < |questions|
      invariant 0 <= i <= |questions| && |queries| == i
      invariant Forwarded(replies[..i]) == Gathered(answers)
      invariant forall j :: 0 <= j < i ==> queries[j] == QueryBytes(request.header.Fields(), ids[j], questions[j])
      invariant forall j :: 0 <= j < i ==>
                  HeaderAt(queries[j], 0).Success? && HeaderAt(queries[j], 0).value.0.id < MaxForwardId
                  && HeaderAt(queries[j], 0).value.0.qdCount == 1
    {
      var step, query := ForwardOne(request, ids[i], questions[i], replies[i]);
      queries := queries + [query];
      ForwardedStep(replies, i);
      if !step.Gathered? {
        ForwardedStops(replies, i + 1);
        return step, queries;
      }
      answers := answers + step.answers;
      i := i + 1;
    }
    assert replies[..i] == replies;
    r := Gathered(answers);
  }

  /** One turn of the forwardToResolver loop: send the query for `q`, then decode the reply. */
  method ForwardOne(request: Message, id: U16, q: Question, reply: Exchange) returns (r: Forwarding, query: seq<Byte>)
    ensures r == ReplyAnswers(reply)
    ensures query == QueryBytes(request.header.Fields(), id, q)
    ensures HeaderAt(query, 0) == Success((ForwardHeader(request.header.Fields(), id), HeaderSize))
  {
    query := BuildQuery(request, id, q);
    match reply
    case Lost =>
      r := Aborted;
    case Reply(d) =>
      var response := Message.FromBytes(ReceiveBuffer(d));
      if response.Failure? {
        r := Crashed(response.error);
      } else {
        r := Gathered(response.value.answers.value);
      }
  }

  lemma ForwardedEmpty(replies: seq<Exchange>)
    ensures Forwarded(replies[..0]) == Gathered([])
  {
  }

  /**
   * DNSServer.handleRequest as a value: `forwarding` is None without a
   * resolver, else what happened to each forwarded question.
   */
  function Respond(request: MessageView, forwarding: Option<seq<Exchange>>): (r: Result<MessageView>)
    ensures r.Failure? <==> forwarding.Some? && Forwarded(forwarding.value).Crashed?
    ensures r.Success? ==> r.value.questions == request.questions && r.value.answers.Some?
    ensures r.Success? ==> r.value.header == ResponseFields(request.header).(qdCount := Short(|request.questions|),
                                                                            anCount := Short(|r.value.answers.value|))
  {
    var header := ResponseFields(request.header);
    var defaults := DefaultAnswers(request.questions);
    match forwarding
    case None => Success(Assembled(header, request.questions, defaults))
    case Some(replies) =>
      match Forwarded(replies)
      case Crashed(e) => Failure(e)
      case Aborted => Success(Assembled(header, request.questions, defaults))
      case Gathered(answers) =>
        Success(Assembled(header, request.questions, if |answers| == 0 then defaults else answers))
  }

  /** Unfolds Respond case by case for HandleRequest's proof; it states no property of its own. */
  lemma RespondChoice(request: MessageView, forwarding: Option<seq<Exchange>>)
    ensures forwarding.None? ==>
              Respond(request, forwarding)
              == Success(Assembled(ResponseFields(request.header), request.questions, DefaultAnswers(request.questions)))
    ensures forwarding.Some? && Forwarded(forwarding.value).Crashed? ==>
              Respond(request, forwarding) == Failure(Forwarded(forwarding.value).error)
    ensures forwarding.Some? && Forwarded(forwarding.value).Aborted? ==>
              Respond(request, forwarding)
              == Success(Assembled(ResponseFields(request.header), request.questions, DefaultAnswers(request.questions)))
    ensures forwarding.Some? && Forwarded(forwarding.value).Gathered? ==>
              var answers := Forwarded(forwarding.value).answers;
              Respond(request, forwarding)
              == Success(Assembled(ResponseFields(request.header), request.questions,
                                   if |answers| == 0 then DefaultAnswers(request.questions) else answers))
  {
  }

  /**
   * A failed or empty forwarding gives the response the server gives
   * without a resolver.
   */
  lemma Fallback(request: MessageView, replies: seq<Exchange>)
    requires Forwarded(replies) == Aborted || Forwarded(replies) == Gathered([])
    ensures Respond(request, Some(replies)) == Respond(request, None)
  {
  }

  /** Without a resolver there is one 8.8.8.8 record per question. */
  lemma AnswersWithoutResolver(request: MessageView)
    ensures Respond(request, None).Success?
    ensures Respond(request, None).value.answers == Some(DefaultAnswers(request.questions))
    ensures Respond(request, None).value.header.anCount == Short(|request.questions|)
  {
  }

  /** With answers gathered from the resolver, those answers are the response's. */
  lemma AnswersFromResolver(request: MessageView, replies: seq<Exchange>)
    requires Forwarded(replies).Gathered? && |Forwarded(replies).answers| > 0
    ensures Respond(request, Some(replies)).Success?
    ensures Respond(request, Some(replies)).value.answers == Some(Forwarded(replies).answers)
  {
  }

  /** DNSServer.handleRequest; `hasResolver` says whether a resolver address was configured. */
  method HandleRequest(request: Message, hasResolver: bool, ids: seq<U16>, replies: seq<Exchange>)
    returns (r: Result<Message>)
    requires |ids| == |request.questions| && |replies| == |request.questions|
    requires forall i :: 0 <= i < |ids| ==> ids[i] < MaxForwardId
    ensures r.Success? ==> fresh(r.value) && fresh(r.value.header)
    ensures r.Success? ==> Respond(request.View(), if hasResolver then Some(replies) else None)
                           == Success(r.value.View())
    ensures r.Failure? ==> Respond(request.View(), if hasResolver then Some(replies) else None)
                           == Failure(r.error)
  {
    hide Respond, Forwarded, DefaultAnswers;
    RespondChoice(request.View(), if hasResolver then Some(replies) else None);
    var questions := request.questions;
    if hasResolver {
      var answers: seq<Answer> := [];
      var forwarded, _ := ForwardToResolver(request, ids, replies);
      match forwarded {
        case Crashed(e) => return Failure(e);
        case Aborted =>  // the IOException is caught and the list stays empty
        case Gathered(gathered) => answers := gathered;
      }
      if |answers| == 0 {
        answers := GenerateDefaultResponse(request);
      }
      var header := GetResponseHeader(request);
      var response := new Message(header, questions, answers);
      return Success(response);
    }
    var header := GetResponseHeader(request);
    var answers := GenerateDefaultResponse(request);
    var response := new Message(header, questions, answers);
    r := Success(response);
  }

  /**
   * One turn of the server loop in DNSServer.start: the request datagram
   * is received into a 512-octet buffer and decoded, answered, and the
   * response encoded for sending. `start` catches only IOException, so a
   * Failure here is an exception that leaves the loop and stops the server.
   */
  function Serve(datagram: seq<Byte>, forwarding: Option<seq<Exchange>>): (r: Result<seq<Byte>>)
    ensures DecodeMessage(ReceiveBuffer(datagram)).Failure?
            ==> r == Failure(DecodeMessage(ReceiveBuffer(datagram)).error)
    ensures r.Success? ==> DecodeMessage(ReceiveBuffer(datagram)).Success? && |r.value| >= HeaderSize
  {
    var request :- DecodeMessage(ReceiveBuffer(datagram));
    var response :- Respond(request, forwarding);
    EncodeMessage(response)
  }

  /** The response datagram carries the request's id with QR set. */
  lemma ServeHeader(datagram: seq<Byte>, forwarding: Option<seq<Exchange>>)
    requires Serve(datagram, forwarding).Success?
    ensures HeaderAt(Serve(datagram, forwarding).value, 0).Success?
    ensures HeaderAt(Serve(datagram, forwarding).value, 0).value.0.id == HeaderAt(ReceiveBuffer(datagram), 0).value.0.id
    ensures HeaderAt(Serve(datagram, forwarding).value, 0).value.0.flags / 0x8000 == 1
  {
    hide *;
    var data := ReceiveBuffer(datagram);
    ServeSteps(datagram, forwarding);
    var request := DecodeMessage(data).value;
    DecodedId(data);
    HeaderFirst(Respond(request, forwarding).value);
  }

  /** A response datagram means the request decoded and was answered, and the answer was encoded. */
  lemma ServeSteps(datagram: seq<Byte>, forwarding: Option<seq<Exchange>>)
    requires Serve(datagram, forwarding).Success?
    ensures DecodeMessage(ReceiveBuffer(datagram)).Success?
    ensures Respond(DecodeMessage(ReceiveBuffer(datagram)).value, forwarding).Success?
    ensures Serve(datagram, forwarding)
            == EncodeMessage(Respond(DecodeMessage(ReceiveBuffer(datagram)).value, forwarding).value)
  {
    hide Respond, DecodeMessage, EncodeMessage, ReceiveBuffer;
  }

  /** A decoded message keeps the id read from the wire. */
  lemma DecodedId(data: seq<Byte>)
    requires DecodeMessage(data).Success?
    ensures DecodeMessage(data).value.header.id == HeaderAt(data, 0).value.0.id
  {
    hide QuestionsFrom, AnswersFrom, HeaderAt;
  }

  /** An encoded message reads back its own header from octet 0. */
  lemma HeaderFirst(m: MessageView)
    ensures EncodeMessage(m).Success? ==> HeaderAt(EncodeMessage(m).value, 0) == Success((m.header, HeaderSize))
  {
    var e := EncodeMessage(m);
    if e.Success? {
      HeaderRoundTrip(e.value, 0, m.header);
    }
  }

  /** Without a resolver, every request that decodes gets a response datagram. */
  lemma AlwaysAnswered(datagram: seq<Byte>)
    requires DecodeMessage(ReceiveBuffer(datagram)).Success?
    ensures Serve(datagram, None).Success?
  {
    var request := DecodeMessage(ReceiveBuffer(datagram)).value;
    DefaultAnswersEncode(request.questions);
  }

  /**
   * A resolver record with no RDATA octets comes back as the text "", which
   * RData.toBytes cannot parse: the whole response then fails to encode.
   */
  lemma EmptyRDataUnsendable(datagram: seq<Byte>, replies: seq<Exchange>, k: nat)
    requires DecodeMessage(ReceiveBuffer(datagram)).Success?
    requires Forwarded(replies).Gathered? && k < |Forwarded(replies).answers|
    requires Forwarded(replies).answers[k].rdata == Rendered([])
    ensures Serve(datagram, Some(replies)) == Failure(NumberFormat)
  {
    var answers := Forwarded(replies).answers;
    EmptyRendered();
    AnswerFails(answers, k);
  }
}
