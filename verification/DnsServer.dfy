/** The captive DNS responder's packet code (components/dns_server/dns_server.c) against the message
    format of RFC 1035: names (sections 3.1 and 4.1.4), header (4.1.1), question (4.1.2) and
    resource record (4.1.3). */
module DnsServer {
  import opened Esp

  type Byte = b: nat | b < 256
  type Packet = seq<Byte>

  const HEADER: nat := 12 // sizeof(dns_header_t)
  const ANSWER: nat := 16 // sizeof(dns_answer_t)

  // --- The format ---------------------------------------------------------------------------------

  type Label = seq<Byte>

  predicate IsLabel(l: Label) {
    1 <= |l| <= 63
  }

  predicate IsName(labels: seq<Label>) {
    forall i | 0 <= i < |labels| :: IsLabel(labels[i])
  }

  /** Section 3.1: length-prefixed labels, closed by a zero byte. */
  function EncodeName(labels: seq<Label>): Packet
    requires IsName(labels)
  {
    if labels == [] then [0] else [|labels[0]|] + labels[0] + EncodeName(labels[1..])
  }

  /** A big-endian 16-bit field. */
  function U16(p: Packet, at: nat): nat
    requires at + 2 <= |p|
  {
    (p[at] as nat) * 256 + p[at + 1] as nat
  }

  function U32(p: Packet, at: nat): nat
    requires at + 4 <= |p|
  {
    U16(p, at) * 65536 + U16(p, at + 2)
  }

  datatype Question = Question(name: seq<Label>, qtype: nat, qclass: nat)
  datatype Resource = Resource(name: seq<Label>, rtype: nat, rclass: nat, ttl: nat, data: Packet)
  datatype Message = Message(id: nat, flags: nat, questions: seq<Question>, answers: seq<Resource>)

  datatype Parsed<T> = Parsed(value: T, next: nat)

  /** A name at `at`, with compression: a back reference must go before `start`, where this stretch of
      labels began. */
  function ParseName(p: Packet, start: nat, at: nat): Option<Parsed<seq<Label>>>
    requires start <= at
    decreases start, |p| - at
  {
    if at >= |p| then None
    else if p[at] == 0 then Some(Parsed([], at + 1))
    else if p[at] < 64 then
      var next := at + 1 + p[at];
      if next > |p| then None
      else
        match ParseName(p, start, next)
        case None => None
        case Some(rest) => Some(Parsed([p[at + 1..next]] + rest.value, rest.next))
    else if p[at] < 192 || at + 2 > |p| then None
    else
      var target := U16(p, at) - 49152;
      if target >= start then None
      else
        match ParseName(p, target, target)
        case None => None
        case Some(rest) => Some(Parsed(rest.value, at + 2))
  }

  function ParseQuestion(p: Packet, at: nat): Option<Parsed<Question>> {
    match ParseName(p, at, at)
    case None => None
    case Some(name) =>
      if name.next + 4 > |p| then None
      else Some(Parsed(Question(name.value, U16(p, name.next), U16(p, name.next + 2)), name.next + 4))
  }

  function ParseResource(p: Packet, at: nat): Option<Parsed<Resource>> {
    match ParseName(p, at, at)
    case None => None
    case Some(name) =>
      var n := name.next;
      if n + 10 > |p| then None
      else
        var length := U16(p, n + 8);
        if n + 10 + length > |p| then None
        else Some(Parsed(Resource(name.value, U16(p, n), U16(p, n + 2), U32(p, n + 4), p[n + 10..n + 10 + length]),
          n + 10 + length))
  }

  function ParseQuestions(p: Packet, at: nat, count: nat): Option<Parsed<seq<Question>>>
    decreases count
  {
    if count == 0 then Some(Parsed([], at))
    else
      match ParseQuestion(p, at)
      case None => None
      case Some(q) =>
        match ParseQuestions(p, q.next, count - 1)
        case None => None
        case Some(rest) => Some(Parsed([q.value] + rest.value, rest.next))
  }

  function ParseResources(p: Packet, at: nat, count: nat): Option<Parsed<seq<Resource>>>
    decreases count
  {
    if count == 0 then Some(Parsed([], at))
    else
      match ParseResource(p, at)
      case None => None
      case Some(r) =>
        match ParseResources(p, r.next, count - 1)
        case None => None
        case Some(rest) => Some(Parsed([r.value] + rest.value, rest.next))
  }

  /** A whole message without authority or additional records, and nothing after it. */
  function ParseMessage(p: Packet): Option<Message> {
    if |p| < HEADER || U16(p, 8) != 0 || U16(p, 10) != 0 then None
    else
      match ParseQuestions(p, HEADER, U16(p, 4))
      case None => None
      case Some(questions) =>
        match ParseResources(p, questions.next, U16(p, 6))
        case None => None
        case Some(answers) =>
          if answers.next != |p| then None
          else Some(Message(U16(p, 0), U16(p, 2), questions.value, answers.value))
  }

  // --- The parser -----------------------------------------------------------------------------------

  /** What question_end_offset computes from `at` on. */
  function Scan(p: Packet, at: nat): (e: nat)
    ensures e == 0 || at + 5 <= e <= |p|
    decreases |p| - at
  {
    if at < |p| && p[at] != 0 then
      if p[at] >= 64 || at + 1 + p[at] >= |p| then 0 else Scan(p, at + 1 + p[at])
    else if at + 5 > |p| then 0
    else at + 5
  }

  /** Bytes `at` to e - 4 of the packet encode a name, and four more bytes follow. */
  ghost predicate QuestionEnds(p: Packet, at: nat, labels: seq<Label>, e: nat) {
    IsName(labels) && at + 5 <= e <= |p| && p[at..e - 4] == EncodeName(labels)
  }

  lemma {:induction false} ScanFindsName(p: Packet, at: nat) returns (labels: seq<Label>)
    requires Scan(p, at) != 0
    ensures QuestionEnds(p, at, labels, Scan(p, at))
    decreases |p| - at
  {
    var e := Scan(p, at);
    if p[at] == 0 {
      labels := [];
    } else {
      var next := at + 1 + p[at];
      var rest := ScanFindsName(p, next);
      var l := p[at + 1..next];
      labels := [l] + rest;
      assert labels[1..] == rest;
      assert p[at..e - 4] == [p[at]] + l + p[next..e - 4];
    }
  }

  lemma {:induction false} NameIsFound(p: Packet, at: nat, labels: seq<Label>, e: nat)
    requires QuestionEnds(p, at, labels, e)
    ensures Scan(p, at) == e
    decreases |labels|
  {
    var bytes := p[at..e - 4];
    assert bytes[0] == p[at];
    if labels == [] {
      assert |bytes| == 1;
    } else {
      var l := labels[0];
      var next := at + 1 + |l|;
      var rest := EncodeName(labels[1..]);
      EncodingIsNotEmpty(labels[1..]);
      assert bytes == [|l|] + l + rest;
      assert bytes[1 + |l|..] == rest;
      assert p[next..e - 4] == bytes[1 + |l|..];
      NameIsFound(p, next, labels[1..], e);
    }
  }

  lemma EncodingIsNotEmpty(labels: seq<Label>)
    requires IsName(labels)
    ensures |EncodeName(labels)| >= 1
  {
  }

  /** question_end_offset answers e exactly when bytes 12 to e - 4 encode a list of labels of 1 to
      63 bytes closed by zero and e fits the packet; and 0 exactly when there is no such e. */
  lemma ScanIsExact(p: Packet, e: nat)
    ensures e != 0 ==> (Scan(p, HEADER) == e <==> exists labels :: QuestionEnds(p, HEADER, labels, e))
    ensures Scan(p, HEADER) == 0 <==> forall f: nat, labels :: !QuestionEnds(p, HEADER, labels, f)
  {
    if Scan(p, HEADER) != 0 {
      var labels := ScanFindsName(p, HEADER);
    }
    forall f: nat, labels | QuestionEnds(p, HEADER, labels, f) ensures Scan(p, HEADER) == f {
      NameIsFound(p, HEADER, labels, f);
    }
  }

  /** What follows the question makes no difference. */
  lemma WhateverFollows(p: Packet, q: Packet)
    requires Scan(p, HEADER) != 0 && |q| >= Scan(p, HEADER) && q[..Scan(p, HEADER)] == p[..Scan(p, HEADER)]
    ensures Scan(q, HEADER) == Scan(p, HEADER)
  {
    var e := Scan(p, HEADER);
    var labels := ScanFindsName(p, HEADER);
    assert q[HEADER..e - 4] == q[..e][HEADER..e - 4] == p[..e][HEADER..e - 4] == p[HEADER..e - 4];
    NameIsFound(q, HEADER, labels, e);
  }

  lemma SliceOfSlice(p: Packet, a: nat, b: nat, c: nat, d: nat)
    requires a <= b <= |p| && c <= d <= b - a
    ensures p[a..b][c..d] == p[a + c..a + d]
  {
    var x, y := p[a..b][c..d], p[a + c..a + d];
    assert |x| == |y|;
    assert forall i | 0 <= i < |x| :: x[i] == y[i];
  }

  /** The packet parser finds the same name. */
  lemma {:induction false} EncodedNameParses(p: Packet, start: nat, at: nat, labels: seq<Label>, e: nat)
    requires start <= at && QuestionEnds(p, at, labels, e)
    ensures ParseName(p, start, at) == Some(Parsed(labels, e - 4))
    decreases |labels|
  {
    var bytes := p[at..e - 4];
    assert bytes[0] == p[at];
    if labels == [] {
      assert |bytes| == 1;
    } else {
      var l := labels[0];
      var next := at + 1 + |l|;
      var rest := EncodeName(labels[1..]);
      EncodingIsNotEmpty(labels[1..]);
      assert bytes == [|l|] + l + rest;
      assert bytes[1 + |l|..] == rest;
      assert p[next..e - 4] == bytes[1 + |l|..];
      assert |bytes| >= 1 + |l|;
      assert bytes[1..1 + |l|] == l;
      SliceOfSlice(p, at, e - 4, 1, 1 + |l|);
      EncodedNameParses(p, start, next, labels[1..], e);
      assert labels == [l] + labels[1..];
    }
  }

  // --- The responder --------------------------------------------------------------------------------

  const FLAGS: Packet := [0x81, 0x80]

  /** The header after the id, as the reply has it. */
  const REPLY_COUNTS: Packet := [0, 1, 0, 0, 0, 0]

  function Answer(address: Packet): Packet {
    [0xc0, 0x0c, 0, 1, 0, 1, 0, 0, 0, 60, 0, 4] + address
  }

  /** The end of the question, if build_response answers at all. */
  function AnswersAt(p: Packet, requestLength: nat, capacity: nat): nat
    requires requestLength <= |p|
  {
    if requestLength < HEADER || U16(p, 4) != 1 then 0
    else
      var e := Scan(p[..requestLength], HEADER);
      if e == 0 || e + ANSWER > capacity || U16(p, e - 4) != 1 || U16(p, e - 2) != 1 then 0 else e
  }

  /** The packet buffer after build_response. */
  function Reply(p: Packet, e: nat, address: Packet): Packet
    requires HEADER + 5 <= e && e + ANSWER <= |p| && |address| == 4
  {
    p[..2] + FLAGS + p[4..6] + REPLY_COUNTS + p[HEADER..e] + Answer(address) + p[e + ANSWER..]
  }

  /** question_end_offset */
  method QuestionEndOffset(packet: array<Byte>, length: nat) returns (e: nat)
    requires length <= packet.Length
    ensures e == Scan(packet[..length], HEADER)
  {
    var offset := HEADER;
    while offset < length && packet[offset] != 0
      invariant Scan(packet[..length], offset) == Scan(packet[..length], HEADER)
    {
      var labelLength := packet[offset];
      if labelLength >= 64 || offset + 1 + labelLength >= length {
        return 0;
      }
      offset := offset + 1 + labelLength;
    }
    if offset + 5 > length {
      return 0;
    }
    return offset + 5;
  }

  method Copy(packet: array<Byte>, at: nat, bytes: Packet)
    requires at + |bytes| <= packet.Length
    modifies packet
    ensures packet[..] == old(packet[..at]) + bytes + old(packet[at + |bytes|..])
  {
    forall i | 0 <= i < |bytes| {
      packet[at + i] := bytes[i];
    }
  }

  /** build_response */
  method BuildResponse(packet: array<Byte>, requestLength: nat, capacity: nat, address: Packet) returns (length: nat)
    requires requestLength <= packet.Length && capacity <= packet.Length && |address| == 4
    modifies packet
    ensures var e := AnswersAt(old(packet[..]), requestLength, capacity);
            if e == 0 then length == 0 && packet[..] == old(packet[..])
            else length == e + ANSWER && packet[..] == Reply(old(packet[..]), e, address)
  {
    if requestLength < HEADER || U16(packet[..], 4) != 1 {
      return 0;
    }
    var e := QuestionEndOffset(packet, requestLength);
    if e == 0 || e + ANSWER > capacity {
      return 0;
    }
    if U16(packet[..], e - 4) != 1 || U16(packet[..], e - 2) != 1 {
      return 0;
    }
    WriteReply(packet, e, address);
    return e + ANSWER;
  }

  lemma HeadAndTail(head: Packet, p: Packet, e: nat)
    requires |head| == HEADER && HEADER <= e && e + ANSWER <= |p|
    ensures var q := head + p[HEADER..]; q[..e] == head + p[HEADER..e] && q[e + ANSWER..] == p[e + ANSWER..]
  {
    var q := head + p[HEADER..];
    assert forall i | 0 <= i < HEADER :: q[i] == head[i];
    assert forall i | HEADER <= i < |p| :: q[i] == p[i];
  }

  /** The writes of build_response: flags, counts, answer. */
  method WriteReply(packet: array<Byte>, e: nat, address: Packet)
    requires HEADER + 5 <= e && e + ANSWER <= packet.Length && |address| == 4
    modifies packet
    ensures packet[..] == Reply(old(packet[..]), e, address)
  {
    ghost var p := packet[..];
    WriteHeader(packet);
    ghost var head := p[..2] + FLAGS + p[4..6] + REPLY_COUNTS;
    HeadAndTail(head, p, e);
    Copy(packet, e, Answer(address));
  }

  method WriteHeader(packet: array<Byte>)
    requires HEADER <= packet.Length
    modifies packet
    ensures packet[..] == old(packet[..2]) + FLAGS + old(packet[4..6]) + REPLY_COUNTS + old(packet[HEADER..])
  {
    ghost var p := packet[..];
    Copy(packet, 2, FLAGS);
    ghost var q := packet[..];
    assert q == p[..2] + FLAGS + p[4..];
    Copy(packet, 6, REPLY_COUNTS);
    assert q[..6] == p[..2] + FLAGS + p[4..6] && q[HEADER..] == p[HEADER..];
  }

  // --- What the reply says ----------------------------------------------------------------------------

  /** A request for the address of a name, in the format's own terms. */
  ghost predicate AsksForAddress(request: Packet, labels: seq<Label>, e: nat) {
    && |request| >= HEADER && U16(request, 4) == 1
    && QuestionEnds(request, HEADER, labels, e) && U16(request, e - 4) == 1 && U16(request, e - 2) == 1
  }

  /** It is answered exactly if it is one and the answer fits the buffer. */
  lemma AnsweredExactly(p: Packet, requestLength: nat, capacity: nat, e: nat)
    requires requestLength <= |p| && e != 0
    ensures AnswersAt(p, requestLength, capacity) == e <==>
            (e + ANSWER <= capacity && exists labels :: AsksForAddress(p[..requestLength], labels, e))
  {
    var request := p[..requestLength];
    ScanIsExact(request, e);
    if AnswersAt(p, requestLength, capacity) == e {
      var labels :| QuestionEnds(request, HEADER, labels, e);
      assert AsksForAddress(request, labels, e);
    }
  }

  lemma ReplyHeader(p: Packet, e: nat, address: Packet)
    requires HEADER + 5 <= e && e + ANSWER <= |p| && |address| == 4
    ensures var r := Reply(p, e, address)[..e + ANSWER];
            && |Reply(p, e, address)| == |p| && |r| == e + ANSWER
            && U16(r, 0) == U16(p, 0) && U16(r, 2) == 0x8180 && U16(r, 4) == U16(p, 4)
            && U16(r, 6) == 1 && U16(r, 8) == 0 && U16(r, 10) == 0
            && r[HEADER..e] == p[HEADER..e] && r[e..] == Answer(address)
  {
    var q := Reply(p, e, address);
    assert q[e..e + ANSWER] == Answer(address);
    assert q[HEADER..e] == p[HEADER..e];
  }

  /** The answer is one A record for the name the back reference leads to. */
  lemma AnswerParses(r: Packet, e: nat, labels: seq<Label>, address: Packet)
    requires |r| == e + ANSWER && |address| == 4 && r[e..] == Answer(address)
    requires QuestionEnds(r, HEADER, labels, e)
    ensures ParseResource(r, e) == Some(Parsed(Resource(labels, 1, 1, 60, address), e + ANSWER))
  {
    assert forall i | 0 <= i < ANSWER :: r[e + i] == r[e..][i];
    EncodedNameParses(r, HEADER, HEADER, labels, e);
    assert r[e] == 0xc0 && r[e + 1] == 0x0c;
    assert ParseName(r, e, e) == Some(Parsed(labels, e + 2));
    SliceOfSlice(r, e, e + ANSWER, 12, ANSWER);
    assert r[e..e + ANSWER] == r[e..];
    assert Answer(address)[12..ANSWER] == address;
  }

  lemma OneQuestion(p: Packet, at: nat, q: Question, next: nat)
    requires ParseQuestion(p, at) == Some(Parsed(q, next))
    ensures ParseQuestions(p, at, 1) == Some(Parsed([q], next))
  {
    var none: seq<Question> := [];
    assert ParseQuestions(p, next, 0) == Some(Parsed(none, next));
    assert [q] + none == [q];
  }

  lemma OneResource(p: Packet, at: nat, r: Resource, next: nat)
    requires ParseResource(p, at) == Some(Parsed(r, next))
    ensures ParseResources(p, at, 1) == Some(Parsed([r], next))
  {
    var none: seq<Resource> := [];
    assert ParseResources(p, next, 0) == Some(Parsed(none, next));
    assert [r] + none == [r];
  }

  /** A reply keeps the id and the question bytes, stays within the capacity, leaves everything
      after it alone, and reads as the same question with one A record: that name, class IN, 60
      seconds, the given address. */
  lemma ReplyReparses(p: Packet, requestLength: nat, capacity: nat, address: Packet, labels: seq<Label>, e: nat)
    requires requestLength <= |p| && capacity <= |p| && |address| == 4
    requires AsksForAddress(p[..requestLength], labels, e) && e + ANSWER <= capacity
    ensures AnswersAt(p, requestLength, capacity) == e
    ensures var q := Reply(p, e, address);
            && |q| == |p| && e + ANSWER <= capacity && q[e + ANSWER..] == p[e + ANSWER..]
            && q[..2] == p[..2] && q[HEADER..e] == p[HEADER..e]
            && ParseMessage(q[..e + ANSWER]) ==
               Some(Message(U16(p, 0), 0x8180, [Question(labels, 1, 1)], [Resource(labels, 1, 1, 60, address)]))
  {
    var request := p[..requestLength];
    AnsweredExactly(p, requestLength, capacity, e);
    ReplyHeader(p, e, address);
    var q := Reply(p, e, address);
    var r := q[..e + ANSWER];
    QuestionCarries(request, p, r, labels, e);
    EncodedNameParses(r, HEADER, HEADER, labels, e);
    assert ParseQuestion(r, HEADER) == Some(Parsed(Question(labels, 1, 1), e));
    OneQuestion(r, HEADER, Question(labels, 1, 1), e);
    AnswerParses(r, e, labels, address);
    OneResource(r, e, Resource(labels, 1, 1, 60, address), e + ANSWER);
  }

  lemma QuestionCarries(request: Packet, p: Packet, r: Packet, labels: seq<Label>, e: nat)
    requires AsksForAddress(request, labels, e) && request <= p && e <= |r| && r[HEADER..e] == p[HEADER..e]
    ensures QuestionEnds(r, HEADER, labels, e) && U16(r, e - 4) == 1 && U16(r, e - 2) == 1
  {
    assert forall i | HEADER <= i < e :: r[i] == r[HEADER..e][i - HEADER];
    assert forall i | HEADER <= i < e :: p[i] == p[HEADER..e][i - HEADER];
    assert forall i | HEADER <= i < e :: request[i] == p[i];
    assert r[HEADER..e - 4] == request[HEADER..e - 4];
  }
}
