/** A request and its reply, from the number the request takes to the waiter the reply completes; the same for a
    request that opens a stream, whose answer is parsed with the wrong offset. */
module RequestReply {
  import opened Numbers
  import opened Frames
  import opened Correlations
  import opened Wrappers
  import C = CallbackModel

  /** The request of rank `k`, as its handler gets it. */
  function Asked(k: nat, role: bytes, event: bytes, question: Data): Parsed<Incoming> {
    Receive(SerializeRequest(role, event, Nth(k), MarkDataType(question)))
  }

  /** A request is this question. */
  predicate Is(m: Request, role: bytes, event: bytes, question: Data) {
    m.role == role && m.event == event && RetrieveDataByType(m.dataType, m.data) == Retrieved(question)
  }

  /** Request `k` is registered and has no callback yet. */
  predicate Waiting(st: C.State, k: nat)
    requires k in st.reqs
  {
    st.reqs[k].registered && st.reqs[k].got == []
  }

  /** A reply under the number of request `k`. */
  lemma CompletesOnly(es: seq<C.Event>, k: nat)
    requires C.Legal(C.FRESH, es)
    requires var st := C.Steps(C.FRESH, es); k in st.reqs && st.taken - k < MODULUS
    ensures var st := C.Steps(C.FRESH, es);
            var after := C.Respond(st, Nth(k), C.FromReply);
            && after.reqs.Keys == st.reqs.Keys
            && (forall j :: j in st.reqs && j != k ==> after.reqs[j] == st.reqs[j])
            && after.reqs[k].got == if Waiting(st, k) then [C.FromReply] else st.reqs[k].got
  {
    var st := C.Steps(C.FRESH, es);
    C.SoundSteps(C.FRESH, es);
    C.SoundRespond(st, Nth(k), C.FromReply);
    C.RespondReaches(st, Nth(k), k);
    forall j | j in st.reqs && j != k ensures C.Respond(st, Nth(k), C.FromReply).reqs[j] == st.reqs[j] {
      C.NoMisdelivery(es, k, j);
    }
  }

  // ---- serving an answer ----

  datatype Closing = Nothing | Connection | Unit

  /** What a callback carries: the data of a reply, or the error text of a rejection. */
  datatype Told = Reply(data: Data) | Rejection(text: bytes)

  /** What reading an answer does: the requests once the launched `respond` has run, what is closed, and what the
      callback handed to `respond` carries. */
  datatype Served = Served(st: C.State, closing: Closing, told: Option<Told>)

  /** The payload decides: one that cannot be retrieved closes the connection, a panic closes the unit.
      `isNumber` stands for the texts that parse as a number. */
  function Judge(st: C.State, corr: nat, dataType: byte, data: bytes, error: Option<bytes>, isNumber: bytes -> bool)
      : Served
  {
    match RetrieveDataByType(dataType, data)
    case BoolPanic => Served(st, Unit, None)
    case UnknownType => Served(st, Connection, None)
    case Retrieved(d) =>
      if d.Number? && !isNumber(d.text) then Served(st, Connection, None)
      else Served(C.Respond(st, corr, C.FromReply), Nothing,
                  Some(if error.Some? then Rejection(error.value) else Reply(d)))
  }

  /** An answer, or a frame that cannot be parsed. */
  predicate ForRequester(frame: bytes)
    requires frame != []
  {
    match Receive(frame)
    case Parsed(i) => i.InAnswer? || i.InStreamAnswer?
    case Panicked => true
    case Unspecified => false
  }

  /** The answers in `serveIncMsg`. The error text of a rejection is its payload; that of a rejected stream request is
      the whole body of the frame. */
  function ServeAnswer(st: C.State, frame: bytes, isNumber: bytes -> bool): Served
    requires frame != [] && ForRequester(frame)
  {
    match Receive(frame)
    case Panicked => Served(st, Unit, None)
    case Parsed(InAnswer(rejected, m)) =>
      Judge(st, m.corr, m.dataType, m.data, if rejected then Some(m.data) else None, isNumber)
    case Parsed(InStreamAnswer(rejected, m)) =>
      Judge(st, m.corr, m.dataType, m.data, if rejected then Some(frame[1..]) else None, isNumber)
  }

  /** The answer to a plain request on the wire. */
  function Answer(rejected: bool, corr: nat, answer: Data): bytes {
    SerializeResponse(AnswerType(rejected), corr, MarkDataType(answer))
  }

  /** A payload the requester can make something of. */
  predicate Acceptable(marked: bytes, isNumber: bytes -> bool) {
    && marked != []
    && (marked[0] <= 5)
    && (marked[0] == 2 ==> |marked| >= 2)
    && (marked[0] == 4 ==> isNumber(marked[1..]))
  }

  lemma JudgeIff(st: C.State, corr: nat, marked: bytes, error: Option<bytes>, isNumber: bytes -> bool)
    requires marked != []
    ensures var served := Judge(st, corr, marked[0], marked[1..], error, isNumber);
            && (Acceptable(marked, isNumber) ==>
                  && served.st == C.Respond(st, corr, C.FromReply) && served.closing == Nothing
                  && RetrieveDataByType(marked[0], marked[1..]).Retrieved?
                  && served.told == Some(if error.Some? then Rejection(error.value)
                                         else Reply(RetrieveDataByType(marked[0], marked[1..]).data)))
            && (!Acceptable(marked, isNumber) ==>
                  served.st == st && served.closing != Nothing && served.told == None)
            && (served.closing.Unit? <==> marked == [2])
  {
  }

  lemma ReplyServed(st: C.State, rejected: bool, corr: nat, answer: Data, isNumber: bytes -> bool)
    requires corr <= MAX_CORRELATION
    ensures ForRequester(Answer(rejected, corr, answer))
    ensures ServeAnswer(st, Answer(rejected, corr, answer), isNumber) ==
            if answer.Number? && !isNumber(answer.text) then Served(st, Connection, None)
            else Served(C.Respond(st, corr, C.FromReply), Nothing,
                        Some(if rejected then Rejection(MarkDataType(answer)[1..]) else Reply(answer)))
  {
    AnswerReceived(rejected, corr, answer);
    var m := Receive(Answer(rejected, corr, answer)).value.answer;
    assert ([m.dataType] + m.data)[1..] == m.data;
  }

  /** The responder handles the very question asked; its reply or rejection completes the request that asked if it is
      still waiting, and no other, and brings it the very data or error text given. Only a number whose text does not
      parse completes none and closes the connection. */
  lemma ReplyCompletesItsRequest(es: seq<C.Event>, k: nat, role: bytes, event: bytes, question: Data,
                                 rejected: bool, answer: Data, isNumber: bytes -> bool)
    requires C.Legal(C.FRESH, es) && |role| < 65536 && |event| < 65536
    requires var st := C.Steps(C.FRESH, es); k in st.reqs && st.taken - k < MODULUS
    ensures var asked := Asked(k, role, event, question);
            && asked.Parsed? && asked.value.InRequest? && Is(asked.value.request, role, event, question)
    ensures var st := C.Steps(C.FRESH, es);
            var frame := Answer(rejected, Asked(k, role, event, question).value.request.corr, answer);
            var readable := answer.Number? ==> isNumber(answer.text);
            && ForRequester(frame)
            && var served := ServeAnswer(st, frame, isNumber);
            && served.st.reqs.Keys == st.reqs.Keys
            && (forall j :: j in st.reqs && j != k ==> served.st.reqs[j] == st.reqs[j])
            && (served.st.reqs[k].got == if Waiting(st, k) && readable then [C.FromReply] else st.reqs[k].got)
            && served.closing == (if readable then Nothing else Connection)
            && served.told == if !readable then None
                              else Some(if rejected then Rejection(MarkDataType(answer)[1..]) else Reply(answer))
  {
    RequestReceived(role, event, Nth(k), question);
    ReplyServed(C.Steps(C.FRESH, es), rejected, Nth(k), answer, isNumber);
    CompletesOnly(es, k);
  }

  // ---- requests that open a stream ----

  /** The stream request of rank `k`, as its handler gets it. */
  function AskedStream(reading: bool, k: nat, role: bytes, event: bytes, channel: nat, question: Data)
      : Parsed<Incoming>
  {
    Receive(SerializeStreamRequest(StreamRequestType(reading), role, event, Nth(k), channel, MarkDataType(question)))
  }

  /** The answer to a stream request on the wire. */
  function StreamAnswer(rejected: bool, corr: nat, channel: nat, answer: Data): bytes {
    SerializeStreamResponse(StreamAnswerType(rejected), corr, channel, MarkDataType(answer))
  }

  function From(body: bytes, skipped: nat): bytes {
    if skipped <= |body| then body[skipped..] else []
  }

  /** What the parser takes for the marked payload: it skips twice the width of the channel. */
  function Taken(corr: nat, channel: nat, answer: Data): bytes {
    From(BigEndian(corr) + BigEndian(channel) + MarkDataType(answer), 2 * |BigEndian(channel)|)
  }

  lemma BodyOf(raw: bytes, binCor: bytes, binChan: bytes, t: byte, data: bytes)
    requires StreamResponseLayout(raw, binCor, binChan, t, data)
    ensures raw[2..] == binCor + binChan + ([t] + data)
  {
    var n := 2 + |binCor|;
    var p := n + |binChan|;
    assert raw[2..] == raw[2..n] + raw[n..p] + ([raw[p]] + raw[p + 1..]);
  }

  lemma TailOf(raw: bytes, skipped: nat)
    requires |raw| >= 2
    ensures var taken := From(raw[2..], skipped);
            if 2 + skipped >= |raw| then taken == []
            else taken != [] && taken[0] == raw[2 + skipped] && taken[1..] == raw[3 + skipped..]
  {
  }

  lemma ParsedAt(raw: bytes, binCor: bytes, binChan: bytes, t: byte, data: bytes)
    requires 1 <= |binCor| <= 7 && 1 <= |binChan| <= 7
    requires StreamResponseLayout(raw, binCor, binChan, t, data)
    ensures var p: int := 2 + 2 * |binChan|;
            ParseStreamResponse(raw) ==
            if p >= |raw| then Panicked
            else Parsed(StreamResponse(Value(binCor), Value(binChan), raw[p], raw[p + 1..]))
  {
    ParseStreamResponseWritten(raw, binCor, binChan, t, data);
    StreamResponseNumbers(raw, binCor, binChan, t, data, 2 + |binChan| + |binChan|);
  }

  lemma LayoutParsed(raw: bytes, binCor: bytes, binChan: bytes, t: byte, data: bytes)
    requires 1 <= |binCor| <= 7 && 1 <= |binChan| <= 7
    requires StreamResponseLayout(raw, binCor, binChan, t, data)
    ensures var taken := From(raw[2..], 2 * |binChan|);
            ParseStreamResponse(raw) ==
            if taken == [] then Panicked
            else Parsed(StreamResponse(Value(binCor), Value(binChan), taken[0], taken[1..]))
  {
    ParsedAt(raw, binCor, binChan, t, data);
    TailOf(raw, 2 * |binChan|);
  }

  /** The parser reads the right numbers, and `Taken` for a payload. */
  lemma StreamAnswerParsed(rejected: bool, corr: nat, channel: nat, answer: Data)
    requires corr <= MAX_CORRELATION && channel <= MAX_CORRELATION
    ensures var taken := Taken(corr, channel, answer);
            Receive(StreamAnswer(rejected, corr, channel, answer)) ==
            if taken == [] then Panicked
            else Parsed(InStreamAnswer(rejected, StreamResponse(corr, channel, taken[0], taken[1..])))
  {
    var m := MarkDataType(answer);
    var binCor, binChan := BigEndian(corr), BigEndian(channel);
    CorrelationRoundTrip(corr);
    CorrelationRoundTrip(channel);
    assert m == [m[0]] + m[1..];
    LayOutStreamResponse(StreamAnswerType(rejected), binCor, binChan, m[0], m[1..]);
    var raw := StreamAnswer(rejected, corr, channel, answer)[1..];
    LayoutParsed(raw, binCor, binChan, m[0], m[1..]);
    BodyOf(raw, binCor, binChan, m[0], m[1..]);
    StreamAnswerReceived(rejected, corr, channel, m);
  }

  lemma ServedIff(st: C.State, rejected: bool, corr: nat, channel: nat, answer: Data, isNumber: bytes -> bool)
    requires corr <= MAX_CORRELATION && channel <= MAX_CORRELATION
    ensures ForRequester(StreamAnswer(rejected, corr, channel, answer))
    ensures var served := ServeAnswer(st, StreamAnswer(rejected, corr, channel, answer), isNumber);
            var taken := Taken(corr, channel, answer);
            && (Acceptable(taken, isNumber) ==>
                  && served.st == C.Respond(st, corr, C.FromReply) && served.closing == Nothing
                  && RetrieveDataByType(taken[0], taken[1..]).Retrieved?
                  && served.told == Some(if rejected then Rejection(StreamAnswer(true, corr, channel, answer)[1..])
                                         else Reply(RetrieveDataByType(taken[0], taken[1..]).data)))
            && (!Acceptable(taken, isNumber) ==>
                  served.st == st && served.closing != Nothing && served.told == None)
            && (served.closing.Unit? <==> taken == [] || taken == [2])
  {
    StreamAnswerParsed(rejected, corr, channel, answer);
    var taken := Taken(corr, channel, answer);
    if taken != [] {
      var error := if rejected then Some(StreamAnswer(true, corr, channel, answer)[1..]) else None;
      JudgeIff(st, corr, taken, error, isNumber);
    }
  }

  /** The responder handles the very question asked, in the right direction, and learns the channel of the requester.
      Its answer completes the request that asked, if that one waits and the bytes taken for the payload are
      acceptable, and no other in any case; otherwise the connection or the whole unit is closed. */
  lemma StreamAnswerCompletesIff(es: seq<C.Event>, k: nat, reading: bool, role: bytes, event: bytes, question: Data,
                                 theirs: nat, rejected: bool, ours: nat, answer: Data, isNumber: bytes -> bool)
    requires C.Legal(C.FRESH, es) && |role| < 65536 && |event| < 65536
    requires theirs <= MAX_CORRELATION && ours <= MAX_CORRELATION
    requires var st := C.Steps(C.FRESH, es); k in st.reqs && st.taken - k < MODULUS
    ensures var asked := AskedStream(reading, k, role, event, theirs, question);
            && asked.Parsed? && asked.value.InStreamRequest? && asked.value.reading == reading
            && var m := asked.value.streamRequest;
            && m.role == role && m.event == event && m.channel == theirs
            && RetrieveDataByType(m.dataType, m.data) == Retrieved(question)
    ensures var corr := AskedStream(reading, k, role, event, theirs, question).value.streamRequest.corr;
            var frame := StreamAnswer(rejected, corr, ours, answer);
            var taken := Taken(corr, ours, answer);
            var st := C.Steps(C.FRESH, es);
            && ForRequester(frame)
            && var served := ServeAnswer(st, frame, isNumber);
            && served.st.reqs.Keys == st.reqs.Keys
            && (forall j :: j in st.reqs && j != k ==> served.st.reqs[j] == st.reqs[j])
            && (served.st.reqs[k].got ==
                  if Waiting(st, k) && Acceptable(taken, isNumber) then [C.FromReply] else st.reqs[k].got)
            && (served.closing.Nothing? <==> Acceptable(taken, isNumber))
            && (served.told.Some? <==> Acceptable(taken, isNumber))
            && (served.told.Some? ==> (served.told.value.Rejection? <==> rejected))
  {
    StreamRequestReceived(reading, role, event, Nth(k), theirs, question);
    ServedIff(C.Steps(C.FRESH, es), rejected, Nth(k), ours, answer, isNumber);
    CompletesOnly(es, k);
  }

  /** With equally wide numbers a reply brings the very data given. A rejection brings the body of its frame, numbers
      included, and never its own text. */
  lemma StreamAnswerTells(st: C.State, rejected: bool, corr: nat, channel: nat, answer: Data, isNumber: bytes -> bool)
    requires corr <= MAX_CORRELATION && channel <= MAX_CORRELATION && |BigEndian(corr)| == |BigEndian(channel)|
    requires answer.Number? ==> isNumber(answer.text)
    ensures ForRequester(StreamAnswer(rejected, corr, channel, answer))
    ensures var told := ServeAnswer(st, StreamAnswer(rejected, corr, channel, answer), isNumber).told;
            if rejected then told.Some? && told.value.Rejection? && |told.value.text| > |MarkDataType(answer)|
            else told == Some(Reply(answer))
  {
    ServedIff(st, rejected, corr, channel, answer, isNumber);
    EqualWidthsDeliver(corr, channel, answer, isNumber);
    CorrelationRoundTrip(corr);
  }

  /** With equally wide numbers the answer given is the answer received, and it is acceptable if its number, when
      it is one, parses. */
  lemma EqualWidthsDeliver(corr: nat, channel: nat, answer: Data, isNumber: bytes -> bool)
    requires |BigEndian(corr)| == |BigEndian(channel)|
    ensures var taken := Taken(corr, channel, answer);
            && taken == MarkDataType(answer)
            && RetrieveDataByType(taken[0], taken[1..]) == Retrieved(answer)
            && (Acceptable(taken, isNumber) <==> (answer.Number? ==> isNumber(answer.text)))
  {
    var c, h, m := BigEndian(corr), BigEndian(channel), MarkDataType(answer);
    assert (c + h + m)[|c + h|..] == m;
  }

  /** A short answer under a channel that is wider than the correlation takes the unit down: the responder's 256th
      channel and a null answer to the first request. */
  lemma NullAnswerClosesUnit(st: C.State, rejected: bool, isNumber: bytes -> bool)
    ensures ForRequester(StreamAnswer(rejected, 1, 256, Null))
    ensures ServeAnswer(st, StreamAnswer(rejected, 1, 256, Null), isNumber) == Served(st, Unit, None)
  {
    assert BigEndian(1) == [1] && BigEndian(256) == [1] + [0];
    ServedIff(st, rejected, 1, 256, Null, isNumber);
    assert |[1] + ([1] + [0]) + [1]| == 4;
  }
}
