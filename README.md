# DNS forwarding server: codec and request logic in Dafny

This project models a small UDP DNS server written in Java and proves
properties of the model. The server reads a request datagram into a
512-octet buffer and decodes it as an RFC 1035 message. It then builds a
response:

- The header is a copy of the request header with QR set. RCODE is 4 (not
  implemented) when the opcode is not a standard query.
- The response repeats the request's questions.
- Without a resolver, each question gets an A record for 8.8.8.8 with TTL
  1800.
- With a resolver, each question is forwarded in a one-question message
  under a fresh id, and the answers of all replies are collected. When
  none come back, the response falls back to the 8.8.8.8 records.

The model covers two parts:

- The wire codec: names with compression pointers, the 12-octet header,
  questions, answer records with dotted-decimal RDATA, and whole messages.
- The request handling in `DNSServer`.

## Layout

| file | module | what it holds |
|---|---|---|
| `wire.dfy` | `Wire` | octets, 16- and 32-bit words, Java `short` conversions, the ByteBuffer reads, `Result`, `Outcome`, `Option` |
| `text.dfy` | `Text` | `String.split` with Java's trailing-empty rule, joining with a separator |
| `name.dfy` | `DnsName` | `DNSName.toBytes` and `fromByteBuffer`, each as a function and as the Java loop |
| `rdata.dfy` | `RecordData` | `Integer.parseInt`, `Integer.toString`, `RData.toBytes` and `fromBytes` |
| `header.dfy` | `DnsHeader` | the header as a value and as the mutable `Header` class; flag-word updates |
| `question.dfy` | `DnsQuestion` | question encode and decode |
| `answer.dfy` | `DnsAnswer` | resource-record encode and decode |
| `message.dfy` | `DnsMessage` | the message value, the `Message` class with its two constructors, `toBytes` and `fromByteBuffer` |
| `server.dfy` | `DnsServer` | response header, default answers, the forwarding loop, `handleRequest`, one turn of the server loop |
| `name_cases.dfy` | `DnsNameExamples` | the concrete names of the unit tests and a two-pointer name |

## How the model is built

- **Cursor.** Every `fromByteBuffer` takes the buffer contents and the
  cursor position. It returns the value read and the new cursor, or the
  runtime exception it would raise. The exceptions are
  `BufferUnderflowException`, `IllegalArgumentException` from
  `position(p)`, `NegativeArraySizeException` and `NumberFormatException`.
- **Java shorts.** Fixed-width fields are integers in range: `Byte`,
  `U16` and `U32`.
  - `Signed16` is the value a Java `short` holds.
  - `Short` is the cast `(short) n`.
  - `Count` is how often `for (i = 0; i < count; i++)` runs when `count`
    is a short. A word of 0x8000 or more runs the loop zero times.
  - An RDLENGTH of 0x8000 or more is a negative array size.
  - A label length octet from 0x80 to 0xBF is a negative Java `byte`, so
    it also fails with a negative array size.
- **Mutable objects.** `DNSHeader` is the class `DnsHeader.Header`, and
  its setters mutate it. `DNSMessage` is the class `DnsMessage.Message`.
  Its constructors overwrite the counts of the header object they are
  given, and `View()` reads the message as a value.
- **Loops.** Each Java loop is a method with a loop, proved against a
  function: `DnsName.ToBytes`, `DnsName.Decode`, `RecordData.ToBytes`/`FromBytes`,
  `Message.ToBytes`, the two loops of `fromByteBuffer`, and the loops of
  `forwardToResolver` and `generateDefaultResponse`.
- **I/O and randomness.** The server's I/O is passed in as parameters.
  - What the resolver did with the forwarded query for question i is
    `replies[i]`: a `Reply` datagram, or `Lost` when a send or receive
    raised `IOException`.
  - The ids `Random.nextInt(Short.MAX_VALUE)` draws are the sequence
    `ids`, each in 0..0x7FFE.
- **Crashes.** An exception that escapes `handleRequest` (for example a
  malformed reply) is the `Failure` of `Respond` and `HandleRequest`.
  `DNSServer.start` catches only `IOException` around its `while (true)`
  loop. So every `Failure` of `Serve`, `Respond` or `HandleRequest` means
  that the exception leaves `start` and the server stops.

Behaviour of the code that the proofs make explicit:

- **The cursor after pointers.** `DNSName.fromByteBuffer` saves the
  cursor at every pointer it follows. A name reached through two pointers
  therefore leaves the cursor after the *second* pointer, not after the
  two octets the record itself holds. RFC 1035, section 4.1.4 intends the
  latter. `DnsNameExamples.TwoHopDecoding` shows the cursor at 19 where
  the record ends at 21. The model keeps the code's behaviour.
- **One lost exchange loses all answers.** A single lost exchange throws
  away the answers already gathered for the other questions, because
  `handleRequest` catches the `IOException` outside the loop
  (`DnsServer.LostAborts`, `DnsServer.Fallback`).
- **Malformed replies are not caught.** A reply that fails to decode is an
  unchecked exception that `handleRequest` does not catch
  (`DnsServer.Respond`).
- **One bad datagram stops the server.** Three unchecked exceptions escape
  the server loop: a malformed request, a malformed resolver reply, and an
  answer with empty RDATA. `start` catches only `IOException`, so each one
  ends the server rather than the current request
  (`DnsServer.Serve`, `DnsServer.EmptyRDataUnsendable`). For example, a
  12-octet request with QDCOUNT 0x7FFF is zero-padded to 512 octets and
  underflows while its questions are read.
- **Empty RDATA breaks the response.** A resolver record with no RDATA
  octets is kept as the text `""`. `RData.toBytes` cannot parse that
  text, so the response cannot be encoded
  (`DnsServer.EmptyRDataUnsendable`).
- **The forwarded query keeps ANCOUNT.** It keeps the request's ANCOUNT
  while carrying no answers. The resolver reads it back only when that
  count is 0 (`DnsServer.QueryDecodes`).

## Model

| member | source | states |
|---|---|---|
| Wire.Short | src/main/java/model/DNSMessage.java:19-20 | `(short) n` is n itself for every n in 0..0xFFFF |
| Wire.Signed16 | src/main/java/model/DNSMessage.java:66 | a short word is negative exactly when it is 0x8000 or more; casting the value back gives the same word |
| Wire.LowByte | src/main/java/model/RData.java:21 | `writeByte` keeps n unchanged for 0..255 |
| Wire.U16Bytes | src/main/java/model/DNSHeader.java:65-70 | `writeShort` gives two octets whose big-endian value is the word |
| Wire.U32Bytes | src/main/java/model/DNSAnswer.java:32 | `writeInt` gives four octets whose big-endian value is the TTL |
| Wire.ReadU16 | src/main/java/model/DNSHeader.java:79 | `getShort` advances the cursor by exactly 2 |
| Wire.ReadU32 | src/main/java/model/DNSAnswer.java:47 | `getInt` advances the cursor by exactly 4 |
| Wire.ReadBytes | src/main/java/model/DNSAnswer.java:49-50 | `get(byte[n])` succeeds iff n octets remain, returns exactly the n octets at the cursor and advances by n |
| Wire.ReadU16Bytes | src/main/java/model/DNSHeader.java:65-79 | a word written with `writeShort` is read back by `getShort` |
| Wire.ReadU32Bytes | src/main/java/model/DNSAnswer.java:32-47 | a TTL written with `writeInt` is read back by `getInt` |
| Text.JavaSplit | src/main/java/model/RData.java:20 | no field holds the separator; a string without a separator comes back whole; the last field of a non-empty string is never empty, because `split` drops trailing empty fields |
| Text.JavaSplitJoin | src/main/java/model/RData.java:20-36 | splitting the join of separator-free fields whose last field is non-empty gives the fields back |
| Text.JoinSplit | src/main/java/model/DNSName.java:14 | joining the pieces of a split with the separator gives the original text |
| Text.SplitJoin | src/main/java/model/DNSName.java:14-18 | splitting a join of separator-free pieces gives the pieces back |
| DnsName.Labels | src/main/java/model/DNSName.java:13-14 | no labels for the empty name; a name without `.` is one label; no label holds `.` and the last label is never empty |
| DnsName.EncodeLabels | src/main/java/model/DNSName.java:14-18 | one length octet plus the label octets per label: the size is the labels' sizes plus one per label |
| DnsName.Encode | src/main/java/model/DNSName.java:11-22 | the labels followed by one 0 octet; the empty name is the single octet 0 |
| DnsName.ToBytes | src/main/java/model/DNSName.java:11-22 | the label loop writes exactly `Encode` of the name |
| DnsName.PointerOffset | src/main/java/model/DNSName.java:31-36 | the pointer's offset is its 14 low bits, below 0x4000 |
| DnsName.Decode | src/main/java/model/DNSName.java:24-50 | the Java loop, with its cursor, `isCompressed` and `pos`, returns exactly what `NameAt` specifies |
| DnsName.NameAt | src/main/java/model/DNSName.java:24-50 | a decoded name leaves the cursor inside the buffer; the only failures are BufferUnderflow, IllegalArgument from `position`, NegativeArraySize and the pointer loop |
| DnsName.ReadLabelsShape | src/main/java/model/DNSName.java:30-44 | the loop only appends labels, each 1 to 127 octets long; the cursor stays inside the buffer; failures are the four listed for `NameAt` |
| DnsName.ReadOneLabel | src/main/java/model/DNSName.java:39-43 | a length octet below 0x80 reads that many octets as the next label |
| DnsName.ReadPointer | src/main/java/model/DNSName.java:31-38 | a pointer continues reading at its offset, saving the cursor just past its two octets |
| DnsName.ReadEncodedLabels | src/main/java/model/DNSName.java:30-48 | reading the encoding of valid labels collects exactly those labels; the cursor ends past the 0 octet, or at the saved position once a pointer was followed |
| DnsName.WellFormedLabels | src/main/java/model/DNSName.java:14 | a name whose labels are 1 to 63 octets splits into valid labels that join back to the name |
| DnsName.LabelsAt | src/main/java/model/DNSName.java:27-49 | decoding the label encoding at any position gives the labels joined with `.`, cursor just past the 0 octet |
| DnsName.NameRoundTrip | src/main/java/model/DNSName.java:11-50 | a well-formed name written anywhere decodes back to itself, cursor just past its encoding |
| DnsName.PointerAt | src/main/java/model/DNSName.java:31-48 | a pointer back to encoded labels decodes to those labels, cursor 2 octets past the pointer |
| DnsName.FollowPointer | src/main/java/model/DNSName.java:31-48 | a pointer back to the encoding of a well-formed name decodes to that name, cursor at pointer + 2 |
| RecordData.ParseInt | src/main/java/model/RData.java:21 | `Integer.parseInt`: an int in the Java range or NumberFormatException; "" always fails |
| RecordData.Decimal | src/main/java/model/RData.java:34 | `Integer.toString` of a non-negative value: at least one digit, no leading zero |
| RecordData.ParseFields | src/main/java/model/RData.java:20-22 | succeeds iff every field parses, with one octet per field; otherwise NumberFormatException |
| RecordData.ParseFieldsValues | src/main/java/model/RData.java:20-22 | octet i is field i parsed and cut to its low 8 bits |
| RecordData.Octets | src/main/java/model/RData.java:17-28 | fails only with NumberFormatException; "" always fails; a text without `.` succeeds exactly when it parses as an int |
| RecordData.Rendered | src/main/java/model/RData.java:30-37 | the text is empty exactly when there are no octets |
| RecordData.ToBytes | src/main/java/model/RData.java:17-28 | the loop over `split(".")` returns `Octets` of the text, failing at the first unparsable field |
| RecordData.FromBytes | src/main/java/model/RData.java:30-37 | the loop returns the decimal text of each octet joined with `.` |
| RecordData.DecimalValue | src/main/java/model/RData.java:34 | the digits `toString` writes have the value written |
| RecordData.ParseDecimal | src/main/java/model/RData.java:21-34 | `parseInt(toString(n)) == n` for every int n ≥ 0 |
| RecordData.RenderedFields | src/main/java/model/RData.java:30-37 | `fromBytes` of n ≥ 1 octets splits into exactly n fields, each parsing to its octet in 0..255 |
| RecordData.OctetsRoundTrip | src/main/java/model/RData.java:17-37 | `fromBytes(b).toBytes() == b` for every non-empty b |
| RecordData.EmptyRendered | src/main/java/model/RData.java:20-36 | `fromBytes` of no octets is "", and `toBytes` of it raises NumberFormatException |
| RecordData.DefaultAddressText | src/main/java/server/DNSServer.java:99-100 | {8,8,8,8} renders as "8.8.8.8" |
| DnsHeader.EncodeHeader | src/main/java/model/DNSHeader.java:62-76 | the header is exactly 12 octets |
| DnsHeader.HeaderAt | src/main/java/model/DNSHeader.java:78-80 | six `getShort` calls: succeeds iff 12 octets remain, cursor + 12; BufferUnderflow otherwise |
| DnsHeader.HeaderRoundTrip | src/main/java/model/DNSHeader.java:62-80 | any header written anywhere reads back field for field, in order |
| DnsHeader.WithResponse | src/main/java/model/DNSHeader.java:30-32 | `flags` or-ed with 0x8000: QR is set and the other 15 bits are kept |
| DnsHeader.WithResponseIdempotent | src/main/java/model/DNSHeader.java:30-32 | setting QR twice is setting it once |
| DnsHeader.OpcodeOf | src/main/java/model/DNSHeader.java:34-36 | `(flags >> 11) & 0xF` on the sign-extended short is bits 11-14, in 0..15, whatever the sign |
| DnsHeader.Header.Opcode | src/main/java/model/DNSHeader.java:34-36 | `getOpcode` is bits 11-14 of the flags word, in 0..15 |
| DnsHeader.RCodeOf | src/main/java/model/DNSHeader.java:38-44 | RCODE is the low four bits |
| DnsHeader.WithRCode | src/main/java/model/DNSHeader.java:42-43 | clearing then or-ing the code: RCODE becomes the code, bits 4-15 are kept |
| DnsHeader.Header.constructor | src/main/java/model/DNSHeader.java:17-24 | the six fields are the arguments |
| DnsHeader.Header.SetId | src/main/java/model/DNSHeader.java:26-28 | only the id changes |
| DnsHeader.Header.SetResponse | src/main/java/model/DNSHeader.java:30-32 | only the flags change, to `WithResponse` of the old flags |
| DnsHeader.Header.SetRCode | src/main/java/model/DNSHeader.java:38-44 | a code outside 0..15 is rejected (IllegalArgumentException) and nothing changes; otherwise only the flags change |
| DnsHeader.Header.SetQdCount | src/main/java/model/DNSHeader.java:50-52 | only qdCount changes |
| DnsHeader.Header.SetAnCount | src/main/java/model/DNSHeader.java:58-60 | only anCount changes |
| DnsHeader.Header.Clone | src/main/java/model/DNSHeader.java:82-89 | a new header object, not the receiver, with equal fields |
| DnsQuestion.EncodeQuestion | src/main/java/model/DNSQuestion.java:11-22 | the name's encoding comes first, and the whole is 4 octets longer than the name's encoding |
| DnsQuestion.QuestionAt | src/main/java/model/DNSQuestion.java:24-26 | the question's name is the decoded name, cursor 4 past the name's end |
| DnsQuestion.TypeClassAt | src/main/java/model/DNSQuestion.java:15-16 | type and class written big-endian are read back in that order |
| DnsQuestion.QuestionRoundTrip | src/main/java/model/DNSQuestion.java:11-26 | a question with a well-formed name reads back whole, cursor just past QCLASS |
| DnsQuestion.QuestionAfterPointer | src/main/java/model/DNSQuestion.java:25 | when QNAME is a pointer, type and class are the 4 octets right after the 2-octet pointer |
| DnsAnswer.EncodeAnswer | src/main/java/model/DNSAnswer.java:26-41 | succeeds iff the RDATA text parses, else NumberFormatException; length is name + 10 + RDATA octets |
| DnsAnswer.AnswerAt | src/main/java/model/DNSAnswer.java:43-52 | a decoded record has RDLENGTH below 0x8000, and its RDATA is the rendering of the RDLENGTH octets before the cursor |
| DnsAnswer.FixedPartAt | src/main/java/model/DNSAnswer.java:30-34 | type, class, TTL and RDLENGTH are read back in order |
| DnsAnswer.EncodedParts | src/main/java/model/DNSAnswer.java:29-35 | the written RDLENGTH is the count of `rdata.toBytes()` octets, not the stored rdLength |
| DnsAnswer.AnswerRoundTrip | src/main/java/model/DNSAnswer.java:26-52 | a record with a well-formed name and fewer than 0x8000 RDATA octets reads back with the same name, type, class, TTL and octets |
| DnsAnswer.AnswerReadsBack | src/main/java/model/DNSAnswer.java:26-52 | the same round trip, stated for any transmittable record |
| DnsAnswer.AnswerReencodes | src/main/java/model/DNSAnswer.java:26-52 | a record read back encodes to the same octets again, so the encoded length is kept |
| DnsAnswer.NegativeRdLength | src/main/java/model/DNSAnswer.java:48-49 | an RDLENGTH word of 0x8000 or more fails with NegativeArraySizeException |
| DnsMessage.Assembled | src/main/java/model/DNSMessage.java:17-23 | keeps both lists and every header field except the counts, which become the list sizes cut to 16 bits |
| DnsMessage.EncodeQuestions | src/main/java/model/DNSMessage.java:48-50 | at least 5 octets per question; one question is that question's encoding |
| DnsMessage.EncodeAnswers | src/main/java/model/DNSMessage.java:52-54 | the only way the answer section fails is NumberFormatException |
| DnsMessage.EncodeMessage | src/main/java/model/DNSMessage.java:43-61 | the header's 12 octets come first; with no answers, or an empty list, the message is the header and questions only |
| DnsMessage.Count | src/main/java/model/DNSMessage.java:66-70 | a count below 0x8000 runs the loop that often; 0x8000 and above runs it zero times |
| DnsMessage.QuestionsFrom | src/main/java/model/DNSMessage.java:66-68 | n successful reads add exactly n questions |
| DnsMessage.AnswersFrom | src/main/java/model/DNSMessage.java:70-72 | n successful reads add exactly n answers |
| DnsMessage.DecodeMessage | src/main/java/model/DNSMessage.java:63-74 | the answer list is always present; the lists have `Count` of the wire counts; the rebuilt header's counts are the list sizes, so a negative count comes back 0 |
| DnsMessage.Message.constructor | src/main/java/model/DNSMessage.java:17-23 | keeps the header object it is given and overwrites its qdCount and anCount with the list sizes |
| DnsMessage.Message.WithoutAnswers | src/main/java/model/DNSMessage.java:25-29 | keeps the header object, sets only qdCount, and leaves answers absent |
| DnsMessage.Message.ToBytes | src/main/java/model/DNSMessage.java:43-61 | the two loops produce exactly `EncodeMessage` of the message |
| DnsMessage.Message.FromBytes | src/main/java/model/DNSMessage.java:63-74 | a new message and header whose value is `DecodeMessage`, or the exception it raises |
| DnsMessage.ReadQuestions | src/main/java/model/DNSMessage.java:65-68 | the question loop reads `Count(qdCount)` questions in order, stopping at the first failure |
| DnsMessage.ReadAnswers | src/main/java/model/DNSMessage.java:69-72 | the answer loop reads `Count(anCount)` answers in order, stopping at the first failure |
| DnsMessage.AnswerFails | src/main/java/model/DNSMessage.java:52-54 | one record whose RDATA does not parse fails the whole message |
| DnsMessage.EncodeQuestionsCons | src/main/java/model/DNSMessage.java:48-50 | the question section is the first question's encoding followed by the rest |
| DnsMessage.QuestionsRoundTrip | src/main/java/model/DNSMessage.java:48-68 | encoded questions with well-formed names read back in order, cursor just past them |
| DnsMessage.AnswersRoundTrip | src/main/java/model/DNSMessage.java:51-72 | encoded transmittable records read back in order as their rereadings, cursor just past them |
| DnsMessage.MessageRoundTrip | src/main/java/model/DNSMessage.java:17-74 | a message built with both lists (fewer than 0x8000 each, well-formed names, transmittable records) decodes to the same header, questions and records |
| DnsMessage.AssembledCounts | src/main/java/model/DNSMessage.java:19-20 | the counts the constructor writes read back as the list sizes |
| DnsServer.ReceiveBuffer | src/main/java/server/DNSServer.java:46-51 | the decoded buffer is 512 octets: the datagram, cut to 512, then zeros |
| DnsServer.FlagsParts | src/main/java/model/DNSHeader.java:34-44 | a flags word is QR, the middle bits and RCODE; the opcode is the top of the middle bits |
| DnsServer.RCodeParts | src/main/java/model/DNSHeader.java:42-43 | `setRCode` keeps QR and the opcode bits |
| DnsServer.ResponseParts | src/main/java/model/DNSHeader.java:30-32 | `setResponse` keeps the middle bits and RCODE |
| DnsServer.ResponseFields | src/main/java/server/DNSServer.java:117-124 | the response header keeps id, counts and opcode, sets QR, and has RCODE 4 exactly when the opcode is not 0, else the request's RCODE |
| DnsServer.GetResponseHeader | src/main/java/server/DNSServer.java:117-124 | a new header whose fields are `ResponseFields` of the request's; the request header is not modified |
| DnsServer.DefaultAnswers | src/main/java/server/DNSServer.java:103-113 | one record per question |
| DnsServer.DefaultAnswer | src/main/java/server/DNSServer.java:104-111 | the record takes the question's name, type and class, TTL 1800 and RDLENGTH 4 |
| DnsServer.DefaultAnswersEcho | src/main/java/server/DNSServer.java:98-115 | record i has question i's name, type and class, TTL 1800, RDLENGTH 4 and text "8.8.8.8" |
| DnsServer.GenerateDefaultResponse | src/main/java/server/DNSServer.java:98-115 | the loop returns exactly `DefaultAnswers` of the request's questions |
| DnsServer.DefaultAnswerEncodes | src/main/java/server/DNSServer.java:104-111 | a default record encodes with RDATA 8, 8, 8, 8, and is transmittable when its name is well formed |
| DnsServer.DefaultAnswersEncode | src/main/java/server/DNSServer.java:98-115 | the default answer section always encodes |
| DnsServer.ForwardHeader | src/main/java/server/DNSServer.java:77-80 | the clone gets the new id and QDCOUNT 1 and keeps flags, ANCOUNT, NSCOUNT and ARCOUNT |
| DnsServer.QueryQuestion | src/main/java/server/DNSServer.java:77-81 | the query's one question, read after its header, is the question forwarded and ends the datagram |
| DnsServer.QueryIsMessage | src/main/java/server/DNSServer.java:77-81 | the forwarded query is `toBytes` of the one-question message under the forward header |
| DnsServer.QueryHeader | src/main/java/server/DNSServer.java:77-81 | the resolver reads the query's header as the request header with the new id and QDCOUNT 1 |
| DnsServer.QueryDecodes | src/main/java/server/DNSServer.java:77-81 | with ANCOUNT 0 in the request, the resolver reads the query as that one question and no answers |
| DnsServer.ReplyOutcome | src/main/java/server/DNSServer.java:86-91 | a lost exchange aborts; a reply crashes exactly when it does not decode, with the decoder's exception; otherwise it yields `Count(ANCOUNT)` records |
| DnsServer.ReplyPassesAnswers | src/main/java/server/DNSServer.java:86-91 | a reply that is an encoded message of at most 512 octets contributes that message's records, as they read back |
| DnsServer.ForwardedGathers | src/main/java/server/DNSServer.java:76-94 | the loop gathers answers iff every exchange succeeds and every reply decodes |
| DnsServer.ForwardedFailure | src/main/java/server/DNSServer.java:76-94 | when the loop does not gather, its outcome is that of some exchange i, and every exchange before i gathered |
| DnsServer.LostAborts | src/main/java/server/DNSServer.java:57-61 | one lost exchange anywhere means no answers at all are gathered |
| DnsServer.ForwardedStops | src/main/java/server/DNSServer.java:76-92 | once an exchange fails, the later replies are never looked at |
| DnsServer.BuildQuery | src/main/java/server/DNSServer.java:77-81 | the cloned, re-identified one-question message encodes to `QueryBytes` |
| DnsServer.ForwardOne | src/main/java/server/DNSServer.java:77-91 | one turn of the loop sends `QueryBytes` and yields the reply's answers or its failure |
| DnsServer.ForwardToResolver | src/main/java/server/DNSServer.java:72-96 | returns `Forwarded` of the replies; sends one query per question up to the first failure, each with its id (below 0x7FFF) and QDCOUNT 1 |
| DnsServer.Respond | src/main/java/server/DNSServer.java:53-70 | fails exactly when a forwarded reply crashes; otherwise echoes the questions, sets both counts from the list sizes, and carries the response header |
| DnsServer.Fallback | src/main/java/server/DNSServer.java:57-65 | a lost exchange, or no gathered answers, gives the same response as having no resolver |
| DnsServer.AnswersWithoutResolver | src/main/java/server/DNSServer.java:69 | without a resolver the answers are the default records and ANCOUNT is the question count |
| DnsServer.AnswersFromResolver | src/main/java/server/DNSServer.java:58-66 | gathered answers, when there are any, are the response's answers |
| DnsServer.HandleRequest | src/main/java/server/DNSServer.java:53-70 | builds a new message and header whose value is `Respond`, or fails with the exception `Respond` names |
| DnsServer.AlwaysAnswered | src/main/java/server/DNSServer.java:35-39 | without a resolver, every request that decodes gets an encodable response |
| DnsServer.Serve | src/main/java/server/DNSServer.java:36-39 | a request that does not decode fails with the decoder's exception, which escapes `start` and stops the server; a response datagram holds at least a header |
| DnsServer.ServeHeader | src/main/java/server/DNSServer.java:36-39 | the response datagram's header carries the request's id and has QR set |
| DnsServer.EmptyRDataUnsendable | src/main/java/model/DNSAnswer.java:49-51 | a gathered record with no RDATA octets makes the response fail to encode with NumberFormatException |
| DnsNameExamples.ExampleComEncoding | src/test/java/model/DNSNameTest.java:18-33 | "example.com" is 7 "example" 3 "com" 0, thirteen octets |
| DnsNameExamples.ExampleComDecoding | src/test/java/model/DNSNameTest.java:35-46 | those octets decode to "example.com" |
| DnsNameExamples.WwwExampleComEncoding | src/test/java/model/DNSNameTest.java:77-93 | "www.example.com" is seventeen octets with lengths 3, 7, 3 at 0, 4, 12 and 0 at 16, and decodes back |
| DnsNameExamples.RootEncoding | src/test/java/model/DNSNameTest.java:97-102 | the root name is the single octet 0 |
| DnsNameExamples.LongLabelEncoding | src/test/java/model/DNSNameTest.java:104-113 | a 63-octet first label is written after the length octet 63 |
| DnsNameExamples.CompressedDecoding | src/test/java/model/DNSNameTest.java:48-75 | the pointer at 17 decodes to "example.com" with the cursor at 19 |
| DnsNameExamples.TwoHopDecoding | src/main/java/model/DNSName.java:36-48 | a name reached through two pointers leaves the cursor past the second pointer |

## Left out

- Sockets are not modelled. These are `DNSServer.start`'s socket, `receiveRequestPacket`, `sendResponse`, and the send and receive in `forwardToResolver`. Each forwarded exchange is an input, `Reply(datagram)` or `Lost`, and `Serve` is one turn of the server loop on a given datagram. A `Failure` of `Serve` is an exception that stops the server.
- The replies are an input independent of the queries. The model does not say which resolver answers which query.
- `java.util.Random` is the `ids` input, each id in 0..0x7FFE.
- Resolver `host:port` parsing and the host lookup are left out, because they are I/O. Only whether a resolver is configured is modelled.
- `Main`, `CommandLineArgs` and `StreamUtils` are not part of this model. Neither is the `IOException` handling of `ByteArrayOutputStream`/`DataOutputStream`, which cannot fail in memory. The encoders are functions.
- UTF-8 conversion is not modelled. Names are octet strings, and `.` is the octet 0x2E.
- `Integer.parseInt` accepts only ASCII digits here. Java also accepts other Unicode decimal digits.
- The Java `ByteBuffer` object is not modelled. Its cursor is the position each decoder returns. `DnsMessage.ReadQuestions` and `DnsMessage.ReadAnswers` are the two loops of `DNSMessage.fromByteBuffer`, written as separate methods.
- `DnsName.NameAt`: a pointer cycle makes the Java loop run forever. The model stops after as many length octets as the buffer holds and reports `PointerLoop`. That no acyclic name needs more steps than that is argued, not proved.
- The getters of `DNSHeader` and `DNSMessage` are not modelled separately. They are field reads and `View()`.
- `DnsMessage.EncodeAnswers` states only its failure kind. Success and the octets are stated through `DnsMessage.AnswerFails`, `DnsMessage.AnswersRoundTrip` and `DnsServer.DefaultAnswersEncode`.
- `DnsMessage.QuestionsFrom` and `DnsMessage.AnswersFrom` state only the list length. Their contents are stated through the round-trip lemmas.
- `DnsServer.DefaultAnswers` states only the count. The contents are `DnsServer.DefaultAnswersEcho`.
