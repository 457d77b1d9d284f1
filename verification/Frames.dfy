/** The message frames of the protocol: every serializer with the parser at the other end of the wire.
    A frame is one type byte followed by the body the parser receives. Strings are byte strings. */
module Frames {
  import opened Numbers

  type bytes = seq<byte>

  const TYPE_MESSAGE: byte := 100
  const TYPE_REQUEST: byte := 101
  const TYPE_RESOLVE: byte := 102
  const TYPE_READER: byte := 103
  const TYPE_WRITER: byte := 104
  const TYPE_REJECT: byte := 105
  const TYPE_STREAM_DATA: byte := 106
  const TYPE_STREAM_RESOLVE: byte := 107
  const TYPE_STREAM_REJECT: byte := 108
  const TYPE_ACQUAINT: byte := 200
  const TYPE_ROLES: byte := 201

  const CHUNK: byte := 0
  const FINISH: byte := 1
  const ERROR: byte := 2
  const QUOTA: byte := 3

  /** Outcome of a parser. `Panicked` is an index out of range, which the callers recover from.
      `Unspecified` marks what the language leaves to the platform: a number field of more than 8 bytes
      (overflowing float conversion), or a slice beyond the length of the body but within its capacity. */
  datatype Parsed<+T> = Parsed(value: T) | Panicked | Unspecified

  datatype Oneway = Oneway(role: bytes, event: bytes, dataType: byte, data: bytes)
  datatype Request = Request(role: bytes, event: bytes, corr: nat, dataType: byte, data: bytes)
  datatype StreamRequest =
    StreamRequest(role: bytes, event: bytes, corr: nat, channel: nat, dataType: byte, data: bytes)
  datatype Response = Response(corr: nat, dataType: byte, data: bytes)
  datatype StreamResponse = StreamResponse(corr: nat, channel: nat, dataType: byte, data: bytes)

  /** Two bytes for a length; lengths from 65536 on wrap around. */
  function Int2Bytes(len: nat): bytes {
    [(len / 256) % 256, len % 256]
  }

  function SerializeOneway(role: bytes, event: bytes, msg: bytes): bytes {
    [TYPE_MESSAGE] + Int2Bytes(|role|) + Int2Bytes(|event|) + role + event + msg
  }

  function SerializeRequest(role: bytes, event: bytes, corr: nat, msg: bytes): bytes {
    var binCor := BigEndian(corr);
    [TYPE_REQUEST] + Int2Bytes(|role|) + Int2Bytes(|event|) + [|binCor| % 256] + role + event + binCor + msg
  }

  function SerializeStreamRequest(t: byte, role: bytes, event: bytes, corr: nat, channel: nat, msg: bytes): bytes {
    var binCor, binChan := BigEndian(corr), BigEndian(channel);
    [t] + Int2Bytes(|role|) + Int2Bytes(|event|) + [|binCor| % 256, |binChan| % 256]
    + role + event + binCor + binChan + msg
  }

  function SerializeResponse(t: byte, corr: nat, msg: bytes): bytes {
    var binCor := BigEndian(corr);
    [t, |binCor| % 256] + binCor + msg
  }

  function SerializeStreamResponse(t: byte, corr: nat, channel: nat, msg: bytes): bytes {
    var binCor, binChan := BigEndian(corr), BigEndian(channel);
    [t, |binCor| % 256, |binChan| % 256] + binCor + binChan + msg
  }

  function ParseOneway(raw: bytes): Parsed<Oneway> {
    if |raw| < 4 then Panicked else
    var eventFrom := 4 + Value(raw[0..2]);
    var typePos := eventFrom + Value(raw[2..4]);
    if typePos >= |raw| then Panicked else
    Parsed(Oneway(raw[4..eventFrom], raw[eventFrom..typePos], raw[typePos], raw[typePos + 1..]))
  }

  function ParseRequest(raw: bytes): Parsed<Request> {
    if |raw| < 5 then Panicked else
    var eventFrom := 5 + Value(raw[0..2]);
    var corrFrom := eventFrom + Value(raw[2..4]);
    var typePos := corrFrom + raw[4];
    if typePos >= |raw| then Panicked else
    if raw[4] > 8 then Unspecified else
    Parsed(Request(raw[5..eventFrom], raw[eventFrom..corrFrom], Value(raw[corrFrom..typePos]),
                   raw[typePos], raw[typePos + 1..]))
  }

  function ParseStreamRequest(raw: bytes): Parsed<StreamRequest> {
    if |raw| < 6 then Panicked else
    var eventFrom := 6 + Value(raw[0..2]);
    var corrFrom := eventFrom + Value(raw[2..4]);
    var chanFrom := corrFrom + raw[4];
    var typePos := chanFrom + raw[5];
    if typePos >= |raw| then Panicked else
    if raw[4] > 8 || raw[5] > 8 then Unspecified else
    Parsed(StreamRequest(raw[6..eventFrom], raw[eventFrom..corrFrom], Value(raw[corrFrom..chanFrom]),
                         Value(raw[chanFrom..typePos]), raw[typePos], raw[typePos + 1..]))
  }

  /** The offsets of the two response parsers are computed on bytes and wrap at 256. */
  function ParseResponse(raw: bytes): Parsed<Response> {
    if raw == [] then Panicked else
    var corLen: int := raw[0];
    var typePos := (1 + corLen) % 256;
    if typePos < 1 || typePos >= |raw| then Panicked else
    if corLen > 8 then Unspecified else
    Parsed(Response(Value(raw[1..typePos]), raw[typePos], raw[typePos + 1..]))
  }

  /** The parser as written takes the payload from `2 + chanLen + chanLen`. */
  function ParseStreamResponse(raw: bytes): Parsed<StreamResponse> {
    if |raw| < 2 then Panicked else
    var chanLen: int := raw[1];
    StreamResponseFrom(raw, (2 + chanLen + chanLen) % 256)
  }

  /** The parser as meant: the payload follows the channel. */
  function ParseStreamResponseAsMeant(raw: bytes): Parsed<StreamResponse> {
    if |raw| < 2 then Panicked else
    var corLen: int, chanLen: int := raw[0], raw[1];
    StreamResponseFrom(raw, (2 + corLen + chanLen) % 256)
  }

  function StreamResponseFrom(raw: bytes, typePos: byte): Parsed<StreamResponse>
    requires |raw| >= 2
  {
    var corLen: int, chanLen: int := raw[0], raw[1];
    var chanFrom := (2 + corLen) % 256;
    var chanEnd := (chanFrom + chanLen) % 256;
    if chanFrom < 2 || chanEnd < chanFrom || typePos >= |raw| then Panicked else
    if chanEnd > |raw| || corLen > 8 || chanLen > 8 then Unspecified else
    Parsed(StreamResponse(Value(raw[2..chanFrom]), Value(raw[chanFrom..chanEnd]), raw[typePos], raw[typePos + 1..]))
  }

  lemma TwoDigits(len: nat)
    ensures ((len / 256) % 256) * 256 + len % 256 == len % 65536
  {
    var q, r := len / 65536, len % 65536;
    assert len == 256 * (256 * q + r / 256) + r % 256;
    assert len / 256 == 256 * q + r / 256;
  }

  lemma Int2BytesValue(len: nat)
    ensures Value(Int2Bytes(len)) == len % 65536
  {
    TwoDigits(len);
    ValueAppend([], (len / 256) % 256);
    ValueAppend([(len / 256) % 256], len % 256);
    assert [] + [(len / 256) % 256] == [(len / 256) % 256];
    assert [(len / 256) % 256] + [len % 256] == Int2Bytes(len);
  }

  /** A piece of a body, and what is left after it. */
  lemma PieceAt(raw: bytes, p: nat, piece: bytes, rest: bytes)
    requires p <= |raw| && raw[p..] == piece + rest
    ensures |raw| == p + |piece| + |rest|
    ensures raw[p..p + |piece|] == piece && raw[p + |piece|..] == rest
  {
    assert |raw[p..]| == |piece| + |rest|;
    assert raw[p..p + |piece|] == raw[p..][..|piece|];
    assert raw[p + |piece|..] == raw[p..][|piece|..];
  }

  lemma TypeAndData(raw: bytes, p: nat, t: byte, data: bytes)
    requires p <= |raw| && raw[p..] == [t] + data
    ensures |raw| == p + 1 + |data| && raw[p] == t && raw[p + 1..] == data
  {
    PieceAt(raw, p, [t], data);
    assert raw[p] == raw[p..][0];
  }

  /** The two lengths that open a body read back as the lengths modulo 65536. */
  lemma NameLengths(raw: bytes, role: bytes, event: bytes, rest: bytes)
    requires raw == Int2Bytes(|role|) + Int2Bytes(|event|) + rest
    ensures Value(raw[0..2]) == |role| % 65536 && Value(raw[2..4]) == |event| % 65536
    ensures raw[4..] == rest
  {
    assert raw[0..2] == Int2Bytes(|role|) && raw[2..4] == Int2Bytes(|event|);
    Int2BytesValue(|role|);
    Int2BytesValue(|event|);
  }

  lemma ParseOnewayBody(raw: bytes, role: bytes, event: bytes, t: byte, data: bytes)
    requires |raw| >= 4 && raw[4..] == role + (event + ([t] + data))
    requires Value(raw[0..2]) == |role| && Value(raw[2..4]) == |event|
    ensures ParseOneway(raw) == Parsed(Oneway(role, event, t, data))
  {
    PieceAt(raw, 4, role, event + ([t] + data));
    PieceAt(raw, 4 + |role|, event, [t] + data);
    TypeAndData(raw, 4 + |role| + |event|, t, data);
  }

  /** A one-way message survives the wire exactly when both names fit their two-byte length. */
  lemma OnewayRoundTrip(role: bytes, event: bytes, t: byte, data: bytes)
    ensures ParseOneway(SerializeOneway(role, event, [t] + data)[1..]) == Parsed(Oneway(role, event, t, data))
            <==> |role| < 65536 && |event| < 65536
  {
    var raw := SerializeOneway(role, event, [t] + data)[1..];
    var rest := role + (event + ([t] + data));
    assert raw == Int2Bytes(|role|) + Int2Bytes(|event|) + rest;
    NameLengths(raw, role, event, rest);
    if |role| < 65536 && |event| < 65536 {
      ParseOnewayBody(raw, role, event, t, data);
    }
  }

  lemma TwoBytes(s: bytes)
    requires |s| == 2
    ensures Value(s) < 65536 && Int2Bytes(Value(s)) == s
  {
    ValueAppend([], s[0]);
    ValueAppend([s[0]], s[1]);
    assert [] + [s[0]] == [s[0]] && [s[0]] + [s[1]] == s;
    var a: int, b: int := s[0], s[1];
    assert Value(s) == a * 256 + b;
  }

  /** A body that is a one-way message with names that fit. */
  ghost predicate IsOneway(raw: bytes, m: Oneway) {
    && |m.role| < 65536 && |m.event| < 65536
    && raw == SerializeOneway(m.role, m.event, [m.dataType] + m.data)[1..]
  }

  /** The other way round: a body is parsed as a one-way message exactly when it is the serialization of one, and then
      into that one. */
  lemma OnewayParsedIff(raw: bytes)
    ensures ParseOneway(raw).Parsed? ==> IsOneway(raw, ParseOneway(raw).value)
    ensures ParseOneway(raw).Parsed? <==> exists m :: IsOneway(raw, m)
  {
    if ParseOneway(raw).Parsed? {
      OnewaySerialized(raw);
    }
    if m :| IsOneway(raw, m) {
      OnewayRoundTrip(m.role, m.event, m.dataType, m.data);
    }
  }

  lemma OnewaySerialized(raw: bytes)
    requires ParseOneway(raw).Parsed?
    ensures IsOneway(raw, ParseOneway(raw).value)
  {
    var m := ParseOneway(raw).value;
    TwoBytes(raw[0..2]);
    TwoBytes(raw[2..4]);
    Reassembled(raw, 4, m.role, m.event, [], m.dataType, m.data);
    OnewayBodyIs(raw, m.role, m.event, [m.dataType] + m.data);
  }

  lemma OnewayBodyIs(raw: bytes, role: bytes, event: bytes, tail: bytes)
    requires |raw| >= 4 && raw[0..2] == Int2Bytes(|role|) && raw[2..4] == Int2Bytes(|event|)
    requires raw[4..] == role + event + [] + tail
    ensures raw == SerializeOneway(role, event, tail)[1..]
  {
    var head := raw[0..2] + raw[2..4];
    assert raw == head + raw[4..];
    assert SerializeOneway(role, event, tail)[1..] == head + (role + event + [] + tail);
  }

  /** A body is its pieces put together again. */
  lemma Reassembled(raw: bytes, start: nat, role: bytes, event: bytes, number: bytes, t: byte, data: bytes)
    requires var e, n, p := start + |role|, start + |role| + |event|, start + |role| + |event| + |number|;
             && p < |raw| && raw[start..e] == role && raw[e..n] == event && raw[n..p] == number
             && raw[p] == t && raw[p + 1..] == data
    ensures raw[start..] == role + event + number + ([t] + data)
  {
    var e, n, p := start + |role|, start + |role| + |event|, start + |role| + |event| + |number|;
    assert raw[start..] == raw[start..e] + raw[e..n] + raw[n..p] + ([raw[p]] + raw[p + 1..]);
  }

  /** A body that is parsed as a request is the serialization of that request exactly when its number has no leading
      zero. */
  lemma RequestParsedIff(raw: bytes)
    requires ParseRequest(raw).Parsed?
    ensures var m := ParseRequest(raw).value;
            var start := 5 + |m.role| + |m.event|;
            && start + raw[4] < |raw|
            && (raw == SerializeRequest(m.role, m.event, m.corr, [m.dataType] + m.data)[1..] <==>
                  Canonical(raw[start..start + raw[4]]))
  {
    var m := ParseRequest(raw).value;
    var start := 5 + |m.role| + |m.event|;
    var number := raw[start..start + raw[4]];
    TwoBytes(raw[0..2]);
    TwoBytes(raw[2..4]);
    Reassembled(raw, 5, m.role, m.event, number, m.dataType, m.data);
    BigEndianValue(number);
    RequestBodyIs(raw, m, number);
  }

  lemma RequestBodyIs(raw: bytes, m: Request, number: bytes)
    requires |raw| >= 5 && raw[4] == |number| <= 8 && m.corr == Value(number)
    requires raw[0..2] == Int2Bytes(|m.role|) && raw[2..4] == Int2Bytes(|m.event|)
    requires raw[5..] == m.role + m.event + number + ([m.dataType] + m.data)
    ensures raw == SerializeRequest(m.role, m.event, m.corr, [m.dataType] + m.data)[1..] <==>
            number == BigEndian(m.corr)
  {
    var bin, tail := BigEndian(m.corr), [m.dataType] + m.data;
    var head, names := raw[0..2] + raw[2..4], m.role + m.event;
    var sent := SerializeRequest(m.role, m.event, m.corr, tail)[1..];
    assert raw == head + [raw[4]] + (names + number + tail);
    assert sent == head + [|bin| % 256] + (names + bin + tail);
    MiddleDecides(head, raw[4], |bin| % 256, names, number, bin, tail);
  }

  lemma MiddleDecides(head: bytes, a: byte, b: byte, names: bytes, x: bytes, y: bytes, tail: bytes)
    requires x == y ==> a == b
    ensures head + [a] + (names + x + tail) == head + [b] + (names + y + tail) <==> x == y
  {
    var left, right := head + [a] + (names + x + tail), head + [b] + (names + y + tail);
    if left == right {
      assert |x| == |y|;
      var n := |head| + 1 + |names|;
      assert left[n..n + |x|] == x && right[n..n + |y|] == y;
    }
  }

  lemma ParseRequestBody(raw: bytes, role: bytes, event: bytes, binCor: bytes, t: byte, data: bytes)
    requires 1 <= |binCor| <= 7
    requires |raw| >= 5 && raw[4] == |binCor| && raw[5..] == role + (event + (binCor + ([t] + data)))
    requires Value(raw[0..2]) == |role| && Value(raw[2..4]) == |event|
    ensures ParseRequest(raw) == Parsed(Request(role, event, Value(binCor), t, data))
  {
    var e := 5 + |role|;
    var c := e + |event|;
    var p := c + |binCor|;
    assert raw[5..e] == role && raw[e..] == event + (binCor + ([t] + data)) by {
      PieceAt(raw, 5, role, event + (binCor + ([t] + data)));
    }
    assert raw[e..c] == event && raw[c..] == binCor + ([t] + data) by {
      PieceAt(raw, e, event, binCor + ([t] + data));
    }
    assert raw[c..p] == binCor && raw[p..] == [t] + data by {
      PieceAt(raw, c, binCor, [t] + data);
    }
    TypeAndData(raw, p, t, data);
  }

  lemma RequestTooLong(raw: bytes, sent: Request)
    requires |raw| >= 4 && Value(raw[0..2]) == |sent.role| % 65536 && Value(raw[2..4]) == |sent.event| % 65536
    requires |sent.role| >= 65536 || |sent.event| >= 65536
    ensures ParseRequest(raw) != Parsed(sent)
  {
    var read := ParseRequest(raw);
    assert read.Parsed? ==> |read.value.role| < 65536 && |read.value.event| < 65536;
  }

  lemma RequestBody(role: bytes, event: bytes, binCor: bytes, msg: bytes)
    requires 1 <= |binCor| <= 7
    ensures var frame := [TYPE_REQUEST] + Int2Bytes(|role|) + Int2Bytes(|event|) + [|binCor| % 256]
                         + role + event + binCor + msg;
            var raw := frame[1..];
            && |raw| >= 5 && raw[4] == |binCor|
            && raw == Int2Bytes(|role|) + Int2Bytes(|event|) + raw[4..]
            && raw[5..] == role + (event + (binCor + msg))
  {
  }

  lemma RequestParsed(role: bytes, event: bytes, binCor: bytes, t: byte, data: bytes)
    requires 1 <= |binCor| <= 7
    ensures var frame := [TYPE_REQUEST] + Int2Bytes(|role|) + Int2Bytes(|event|) + [|binCor| % 256]
                         + role + event + binCor + ([t] + data);
            ParseRequest(frame[1..]) == Parsed(Request(role, event, Value(binCor), t, data))
            <==> |role| < 65536 && |event| < 65536
  {
    var raw := ([TYPE_REQUEST] + Int2Bytes(|role|) + Int2Bytes(|event|) + [|binCor| % 256]
                + role + event + binCor + ([t] + data))[1..];
    RequestBody(role, event, binCor, [t] + data);
    NameLengths(raw, role, event, raw[4..]);
    if |role| < 65536 && |event| < 65536 {
      ParseRequestBody(raw, role, event, binCor, t, data);
    } else {
      RequestTooLong(raw, Request(role, event, Value(binCor), t, data));
    }
  }

  lemma RequestRoundTrip(role: bytes, event: bytes, corr: nat, t: byte, data: bytes)
    requires corr <= MAX_CORRELATION
    ensures ParseRequest(SerializeRequest(role, event, corr, [t] + data)[1..])
              == Parsed(Request(role, event, corr, t, data))
            <==> |role| < 65536 && |event| < 65536
  {
    CorrelationRoundTrip(corr);
    RequestParsed(role, event, BigEndian(corr), t, data);
  }

  /** The body of a stream request, cut at the offsets the parser computes. */
  ghost predicate StreamRequestLayout(raw: bytes, role: bytes, event: bytes, binCor: bytes, binChan: bytes, t: byte,
                                      data: bytes)
  {
    var e := 6 + |role|;
    var c := e + |event|;
    var n := c + |binCor|;
    var p := n + |binChan|;
    && |raw| == p + 1 + |data|
    && raw[6..e] == role && raw[e..c] == event && raw[c..n] == binCor && raw[n..p] == binChan
    && raw[p] == t && raw[p + 1..] == data
  }

  lemma LayOutStreamRequest(raw: bytes, role: bytes, event: bytes, binCor: bytes, binChan: bytes, t: byte, data: bytes)
    requires |raw| >= 6 && raw[6..] == role + (event + (binCor + (binChan + ([t] + data))))
    ensures StreamRequestLayout(raw, role, event, binCor, binChan, t, data)
  {
    var e := 6 + |role|;
    var c := e + |event|;
    var n := c + |binCor|;
    assert raw[6..e] == role && raw[e..] == event + (binCor + (binChan + ([t] + data))) by {
      PieceAt(raw, 6, role, event + (binCor + (binChan + ([t] + data))));
    }
    assert raw[e..c] == event && raw[c..] == binCor + (binChan + ([t] + data)) by {
      PieceAt(raw, e, event, binCor + (binChan + ([t] + data)));
    }
    assert raw[c..n] == binCor && raw[n..] == binChan + ([t] + data) by {
      PieceAt(raw, c, binCor, binChan + ([t] + data));
    }
    PieceAt(raw, n, binChan, [t] + data);
    TypeAndData(raw, n + |binChan|, t, data);
  }

  lemma ParseStreamRequestLayout(raw: bytes, role: bytes, event: bytes, binCor: bytes, binChan: bytes, t: byte,
                                 data: bytes)
    requires 1 <= |binCor| <= 7 && 1 <= |binChan| <= 7
    requires |raw| >= 6 && raw[4] == |binCor| && raw[5] == |binChan|
    requires Value(raw[0..2]) == |role| && Value(raw[2..4]) == |event|
    requires StreamRequestLayout(raw, role, event, binCor, binChan, t, data)
    ensures ParseStreamRequest(raw) == Parsed(StreamRequest(role, event, Value(binCor), Value(binChan), t, data))
  {
  }

  lemma StreamRequestBody(kind: byte, role: bytes, event: bytes, binCor: bytes, binChan: bytes, msg: bytes)
    requires 1 <= |binCor| <= 7 && 1 <= |binChan| <= 7
    ensures var frame := [kind] + Int2Bytes(|role|) + Int2Bytes(|event|) + [|binCor| % 256, |binChan| % 256]
                         + role + event + binCor + binChan + msg;
            var raw := frame[1..];
            && |raw| >= 6 && raw[4] == |binCor| && raw[5] == |binChan|
            && raw == Int2Bytes(|role|) + Int2Bytes(|event|) + raw[4..]
            && raw[6..] == role + (event + (binCor + (binChan + msg)))
  {
  }

  lemma StreamRequestTooLong(raw: bytes, sent: StreamRequest)
    requires |raw| >= 4 && Value(raw[0..2]) == |sent.role| % 65536 && Value(raw[2..4]) == |sent.event| % 65536
    requires |sent.role| >= 65536 || |sent.event| >= 65536
    ensures ParseStreamRequest(raw) != Parsed(sent)
  {
    var read := ParseStreamRequest(raw);
    assert read.Parsed? ==> |read.value.role| < 65536 && |read.value.event| < 65536;
  }

  lemma StreamRequestParsed(kind: byte, role: bytes, event: bytes, binCor: bytes, binChan: bytes, t: byte, data: bytes)
    requires 1 <= |binCor| <= 7 && 1 <= |binChan| <= 7
    ensures var frame := [kind] + Int2Bytes(|role|) + Int2Bytes(|event|) + [|binCor| % 256, |binChan| % 256]
                         + role + event + binCor + binChan + ([t] + data);
            ParseStreamRequest(frame[1..]) == Parsed(StreamRequest(role, event, Value(binCor), Value(binChan), t, data))
            <==> |role| < 65536 && |event| < 65536
  {
    var raw := ([kind] + Int2Bytes(|role|) + Int2Bytes(|event|) + [|binCor| % 256, |binChan| % 256]
                + role + event + binCor + binChan + ([t] + data))[1..];
    StreamRequestBody(kind, role, event, binCor, binChan, [t] + data);
    NameLengths(raw, role, event, raw[4..]);
    if |role| < 65536 && |event| < 65536 {
      LayOutStreamRequest(raw, role, event, binCor, binChan, t, data);
      ParseStreamRequestLayout(raw, role, event, binCor, binChan, t, data);
    } else {
      StreamRequestTooLong(raw, StreamRequest(role, event, Value(binCor), Value(binChan), t, data));
    }
  }

  lemma StreamRequestRoundTrip(kind: byte, role: bytes, event: bytes, corr: nat, channel: nat, t: byte, data: bytes)
    requires corr <= MAX_CORRELATION && channel <= MAX_CORRELATION
    ensures ParseStreamRequest(SerializeStreamRequest(kind, role, event, corr, channel, [t] + data)[1..])
              == Parsed(StreamRequest(role, event, corr, channel, t, data))
            <==> |role| < 65536 && |event| < 65536
  {
    CorrelationRoundTrip(corr);
    CorrelationRoundTrip(channel);
    StreamRequestParsed(kind, role, event, BigEndian(corr), BigEndian(channel), t, data);
  }

  lemma ResponseRoundTrip(kind: byte, corr: nat, t: byte, data: bytes)
    requires corr <= MAX_CORRELATION
    ensures ParseResponse(SerializeResponse(kind, corr, [t] + data)[1..]) == Parsed(Response(corr, t, data))
  {
    var binCor := BigEndian(corr);
    CorrelationRoundTrip(corr);
    var raw := SerializeResponse(kind, corr, [t] + data)[1..];
    assert raw[1..] == binCor + ([t] + data);
    assert raw[0] == |binCor|;
    ParseResponseBody(raw, binCor, t, data);
  }

  lemma ParseResponseBody(raw: bytes, binCor: bytes, t: byte, data: bytes)
    requires 1 <= |binCor| <= 7
    requires |raw| >= 1 && raw[0] == |binCor| && raw[1..] == binCor + ([t] + data)
    ensures ParseResponse(raw) == Parsed(Response(Value(binCor), t, data))
  {
    PieceAt(raw, 1, binCor, [t] + data);
    TypeAndData(raw, 1 + |binCor|, t, data);
  }

  ghost predicate StreamResponseLayout(raw: bytes, binCor: bytes, binChan: bytes, t: byte, data: bytes) {
    var n := 2 + |binCor|;
    var p := n + |binChan|;
    && |raw| == p + 1 + |data|
    && raw[0] == |binCor| && raw[1] == |binChan|
    && raw[2..n] == binCor && raw[n..p] == binChan && raw[p] == t && raw[p + 1..] == data
  }

  lemma StreamResponseBody(kind: byte, binCor: bytes, binChan: bytes, msg: bytes)
    requires 1 <= |binCor| <= 7 && 1 <= |binChan| <= 7
    ensures var raw := ([kind, |binCor| % 256, |binChan| % 256] + binCor + binChan + msg)[1..];
            |raw| >= 2 && raw[0] == |binCor| && raw[1] == |binChan| && raw[2..] == binCor + (binChan + msg)
  {
  }

  lemma LayOutStreamResponse(kind: byte, binCor: bytes, binChan: bytes, t: byte, data: bytes)
    requires 1 <= |binCor| <= 7 && 1 <= |binChan| <= 7
    ensures var frame := [kind, |binCor| % 256, |binChan| % 256] + binCor + binChan + ([t] + data);
            StreamResponseLayout(frame[1..], binCor, binChan, t, data)
  {
    StreamResponseBody(kind, binCor, binChan, [t] + data);
    CutStreamResponse(([kind, |binCor| % 256, |binChan| % 256] + binCor + binChan + ([t] + data))[1..],
                      binCor, binChan, t, data);
  }

  lemma CutStreamResponse(raw: bytes, binCor: bytes, binChan: bytes, t: byte, data: bytes)
    requires |raw| >= 2 && raw[0] == |binCor| && raw[1] == |binChan| && raw[2..] == binCor + (binChan + ([t] + data))
    ensures StreamResponseLayout(raw, binCor, binChan, t, data)
  {
    var n := 2 + |binCor|;
    PieceAt(raw, 2, binCor, binChan + ([t] + data));
    PieceAt(raw, n, binChan, [t] + data);
    TypeAndData(raw, n + |binChan|, t, data);
  }

  /** Both numbers are read right, wherever the payload is taken from. */
  lemma StreamResponseNumbers(raw: bytes, binCor: bytes, binChan: bytes, t: byte, data: bytes, typePos: byte)
    requires 1 <= |binCor| <= 7 && 1 <= |binChan| <= 7
    requires StreamResponseLayout(raw, binCor, binChan, t, data)
    ensures StreamResponseFrom(raw, typePos) ==
            if typePos >= |raw| then Panicked
            else Parsed(StreamResponse(Value(binCor), Value(binChan), raw[typePos], raw[typePos + 1..]))
  {
    var n: int := 2 + |binCor|;
    assert n % 256 == n && (n + |binChan|) % 256 == n + |binChan|;
  }

  lemma ParseStreamResponseMeant(raw: bytes, binCor: bytes, binChan: bytes, t: byte, data: bytes)
    requires 1 <= |binCor| <= 7 && 1 <= |binChan| <= 7
    requires StreamResponseLayout(raw, binCor, binChan, t, data)
    ensures ParseStreamResponseAsMeant(raw) == Parsed(StreamResponse(Value(binCor), Value(binChan), t, data))
  {
    var typePos: int := 2 + |binCor| + |binChan|;
    assert typePos % 256 == typePos;
    StreamResponseNumbers(raw, binCor, binChan, t, data, typePos);
  }

  lemma ParseStreamResponseWritten(raw: bytes, binCor: bytes, binChan: bytes, t: byte, data: bytes)
    requires 1 <= |binCor| <= 7 && 1 <= |binChan| <= 7
    requires StreamResponseLayout(raw, binCor, binChan, t, data)
    ensures ParseStreamResponse(raw) == StreamResponseFrom(raw, 2 + |binChan| + |binChan|)
  {
    var typePos: int := 2 + |binChan| + |binChan|;
    assert typePos % 256 == typePos;
  }

  /** Both parsers on the same body: where the offsets differ, the payload has the wrong length. */
  lemma CompareStreamResponseParsers(raw: bytes, binCor: bytes, binChan: bytes, t: byte, data: bytes)
    requires 1 <= |binCor| <= 7 && 1 <= |binChan| <= 7
    requires StreamResponseLayout(raw, binCor, binChan, t, data)
    ensures var asSent := Parsed(StreamResponse(Value(binCor), Value(binChan), t, data));
            var asRead := ParseStreamResponse(raw);
            && ParseStreamResponseAsMeant(raw) == asSent
            && (asRead == asSent <==> |binCor| == |binChan|)
            && (asRead.Panicked? <==> |binChan| - |binCor| > |data|)
            && (!asRead.Panicked? ==>
                  asRead.Parsed? && asRead.value.corr == Value(binCor) && asRead.value.channel == Value(binChan))
  {
    ParseStreamResponseMeant(raw, binCor, binChan, t, data);
    ParseStreamResponseWritten(raw, binCor, binChan, t, data);
    StreamResponseNumbers(raw, binCor, binChan, t, data, 2 + |binChan| + |binChan|);
    if |binCor| != |binChan| && ParseStreamResponse(raw).Parsed? {
      assert |ParseStreamResponse(raw).value.data| == |data| + |binCor| - |binChan|;
    }
  }

  /** A stream response survives the wire as written exactly when its two numbers are equally wide;
      with the meant offset it always does. Correlation and channel are right whenever anything is parsed,
      and the parser runs off the frame exactly when the payload is too short to cover the wrong offset. */
  lemma StreamResponseRoundTrip(kind: byte, corr: nat, channel: nat, t: byte, data: bytes)
    requires corr <= MAX_CORRELATION && channel <= MAX_CORRELATION
    ensures var raw := SerializeStreamResponse(kind, corr, channel, [t] + data)[1..];
            var asSent := Parsed(StreamResponse(corr, channel, t, data));
            var asRead := ParseStreamResponse(raw);
            && ParseStreamResponseAsMeant(raw) == asSent
            && (asRead == asSent <==> |BigEndian(corr)| == |BigEndian(channel)|)
            && (asRead.Panicked? <==> |BigEndian(channel)| - |BigEndian(corr)| > |data|)
            && (!asRead.Panicked? ==>
                  asRead.Parsed? && asRead.value.corr == corr && asRead.value.channel == channel)
  {
    var binCor, binChan := BigEndian(corr), BigEndian(channel);
    CorrelationRoundTrip(corr);
    CorrelationRoundTrip(channel);
    LayOutStreamResponse(kind, binCor, binChan, t, data);
    var raw := SerializeStreamResponse(kind, corr, channel, [t] + data)[1..];
    CompareStreamResponseParsers(raw, binCor, binChan, t, data);
  }

  /** A reply that the requester cannot read: correlation 1, channel 256, no payload. */
  lemma StreamResponsePanics()
    ensures ParseStreamResponse(SerializeStreamResponse(107, 1, 256, [1])[1..]) == Panicked
  {
    StreamResponseRoundTrip(107, 1, 256, 1, []);
    assert BigEndian(1) == [1] && BigEndian(256) == [1] + [0];
    assert [1] + [] == [1];
  }

  // ---- payload types ----

  /** What a payload can be. `Number` holds the decimal text of the number. */
  datatype Data = Binary(raw: bytes) | Null | Bool(b: bool) | Str(s: bytes) | Number(text: bytes) | Json(raw: bytes)

  datatype Retrieved = Retrieved(data: Data) | UnknownType | BoolPanic

  function MarkDataType(d: Data): bytes {
    match d
    case Binary(raw) => [0] + raw
    case Null => [1]
    case Bool(b) => [2, if b then 1 else 0]
    case Str(s) => [3] + s
    case Number(text) => [4] + text
    case Json(raw) => [5] + raw
  }

  function RetrieveDataByType(t: byte, raw: bytes): Retrieved {
    if t == 0 then Retrieved(Binary(raw))
    else if t == 1 then Retrieved(Null)
    else if t == 2 then (if raw == [] then BoolPanic else Retrieved(Bool(raw[0] != 0)))
    else if t == 3 then Retrieved(Str(raw))
    else if t == 4 then Retrieved(Number(raw))
    else if t == 5 then Retrieved(Json(raw))
    else UnknownType
  }

  /** A request carries its payload to the handler: name, event, correlation and typed data all arrive. */
  lemma RequestDelivered(role: bytes, event: bytes, corr: nat, d: Data)
    requires corr <= MAX_CORRELATION && |role| < 65536 && |event| < 65536
    ensures var parsed := ParseRequest(SerializeRequest(role, event, corr, MarkDataType(d))[1..]);
            && parsed.Parsed?
            && parsed.value.role == role && parsed.value.event == event && parsed.value.corr == corr
            && RetrieveDataByType(parsed.value.dataType, parsed.value.data) == Retrieved(d)
  {
    var m := MarkDataType(d);
    assert m == [m[0]] + m[1..];
    RequestRoundTrip(role, event, corr, m[0], m[1..]);
  }

  /** Marking and retrieving are inverse; the bytes are recovered too unless a null carries a payload
      or a boolean is not the single byte 0 or 1. */
  lemma DataRoundTrip(d: Data, t: byte, raw: bytes)
    ensures RetrieveDataByType(MarkDataType(d)[0], MarkDataType(d)[1..]) == Retrieved(d)
    ensures RetrieveDataByType(t, raw).Retrieved? ==>
              (MarkDataType(RetrieveDataByType(t, raw).data) == [t] + raw
               <==> (t == 1 ==> raw == []) && (t == 2 ==> raw == [0] || raw == [1]))
  {
    if t == 1 && MarkDataType(Null) == [t] + raw {
      assert |[t] + raw| == 1;
    }
    if t == 2 && raw != [] && MarkDataType(Bool(raw[0] != 0)) == [t] + raw {
      assert ([t] + raw)[1..] == raw;
    }
  }

  // ---- whole frames ----

  /** A frame as its handler gets it. `reading`: the requester is to read the stream. */
  datatype Incoming =
    | InMessage(message: Oneway)
    | InRequest(request: Request)
    | InStreamRequest(reading: bool, streamRequest: StreamRequest)
    | InAnswer(rejected: bool, answer: Response)
    | InStreamAnswer(rejected: bool, streamAnswer: StreamResponse)
    | InAcquaint(body: bytes)
    | InRoles(body: bytes)
    | InUnknown(body: bytes)

  function Lift<T>(p: Parsed<T>, f: T -> Incoming): Parsed<Incoming> {
    match p
    case Parsed(v) => Parsed(f(v))
    case Panicked => Panicked
    case Unspecified => Unspecified
  }

  /** The cases of `serveIncMsg`: the first byte chooses the parser of the rest. */
  function Receive(frame: bytes): Parsed<Incoming>
    requires frame != []
  {
    var w, raw := frame[0], frame[1..];
    if w == TYPE_MESSAGE then Lift(ParseOneway(raw), m => InMessage(m))
    else if w == TYPE_REQUEST then Lift(ParseRequest(raw), m => InRequest(m))
    else if w == TYPE_READER then Lift(ParseStreamRequest(raw), m => InStreamRequest(true, m))
    else if w == TYPE_WRITER then Lift(ParseStreamRequest(raw), m => InStreamRequest(false, m))
    else if w == TYPE_STREAM_RESOLVE then Lift(ParseStreamResponse(raw), m => InStreamAnswer(false, m))
    else if w == TYPE_STREAM_REJECT then Lift(ParseStreamResponse(raw), m => InStreamAnswer(true, m))
    else if w == TYPE_RESOLVE then Lift(ParseResponse(raw), m => InAnswer(false, m))
    else if w == TYPE_REJECT then Lift(ParseResponse(raw), m => InAnswer(true, m))
    else if w == TYPE_ROLES then Parsed(InRoles(raw))
    else if w == TYPE_ACQUAINT then Parsed(InAcquaint(raw))
    else Parsed(InUnknown(raw))
  }

  function StreamRequestType(reading: bool): byte {
    if reading then TYPE_READER else TYPE_WRITER
  }

  function AnswerType(rejected: bool): byte {
    if rejected then TYPE_REJECT else TYPE_RESOLVE
  }

  function StreamAnswerType(rejected: bool): byte {
    if rejected then TYPE_STREAM_REJECT else TYPE_STREAM_RESOLVE
  }

  /** A one-way message reaches the handler of messages, whole. */
  lemma MessageReceived(role: bytes, event: bytes, d: Data)
    requires |role| < 65536 && |event| < 65536
    ensures var frame := SerializeOneway(role, event, MarkDataType(d));
            && frame[0] == 100 && Receive(frame).Parsed? && Receive(frame).value.InMessage?
            && var m := Receive(frame).value.message;
            m.role == role && m.event == event && RetrieveDataByType(m.dataType, m.data) == Retrieved(d)
  {
    var m := MarkDataType(d);
    assert m == [m[0]] + m[1..];
    OnewayRoundTrip(role, event, m[0], m[1..]);
  }

  /** A request reaches the handler of requests, whole. */
  lemma RequestReceived(role: bytes, event: bytes, corr: nat, d: Data)
    requires corr <= MAX_CORRELATION && |role| < 65536 && |event| < 65536
    ensures var frame := SerializeRequest(role, event, corr, MarkDataType(d));
            && frame[0] == 101 && Receive(frame).Parsed? && Receive(frame).value.InRequest?
            && var m := Receive(frame).value.request;
            && m.role == role && m.event == event && m.corr == corr
            && RetrieveDataByType(m.dataType, m.data) == Retrieved(d)
  {
    RequestDelivered(role, event, corr, d);
  }

  /** A stream request reaches the handler of its direction, whole. */
  lemma StreamRequestReceived(reading: bool, role: bytes, event: bytes, corr: nat, channel: nat, d: Data)
    requires corr <= MAX_CORRELATION && channel <= MAX_CORRELATION && |role| < 65536 && |event| < 65536
    ensures var kind := StreamRequestType(reading);
            var frame := SerializeStreamRequest(kind, role, event, corr, channel, MarkDataType(d));
            && frame[0] == (if reading then 103 else 104)
            && Receive(frame).Parsed? && Receive(frame).value.InStreamRequest?
            && Receive(frame).value.reading == reading
            && var m := Receive(frame).value.streamRequest;
            && m.role == role && m.event == event && m.corr == corr && m.channel == channel
            && RetrieveDataByType(m.dataType, m.data) == Retrieved(d)
  {
    var m := MarkDataType(d);
    assert m == [m[0]] + m[1..];
    StreamRequestRoundTrip(StreamRequestType(reading), role, event, corr, channel, m[0], m[1..]);
  }

  /** An answer is told from a rejection and arrives whole. */
  lemma AnswerReceived(rejected: bool, corr: nat, d: Data)
    requires corr <= MAX_CORRELATION
    ensures var frame := SerializeResponse(AnswerType(rejected), corr, MarkDataType(d));
            && frame[0] == (if rejected then 105 else 102)
            && Receive(frame).Parsed? && Receive(frame).value.InAnswer? && Receive(frame).value.rejected == rejected
            && var m := Receive(frame).value.answer;
            && m.corr == corr && [m.dataType] + m.data == MarkDataType(d)
            && RetrieveDataByType(m.dataType, m.data) == Retrieved(d)
  {
    var m := MarkDataType(d);
    assert m == [m[0]] + m[1..];
    ResponseRoundTrip(AnswerType(rejected), corr, m[0], m[1..]);
  }

  /** So is the answer to a stream request, which goes to the parser with the wrong offset. */
  lemma StreamAnswerReceived(rejected: bool, corr: nat, channel: nat, msg: bytes)
    ensures var frame := SerializeStreamResponse(StreamAnswerType(rejected), corr, channel, msg);
            var parsed := ParseStreamResponse(frame[1..]);
            && frame[0] == (if rejected then 108 else 107)
            && (Receive(frame).Panicked? <==> parsed.Panicked?)
            && (Receive(frame).Unspecified? <==> parsed.Unspecified?)
            && (parsed.Parsed? ==> Receive(frame) == Parsed(InStreamAnswer(rejected, parsed.value)))
  {
    var frame := SerializeStreamResponse(StreamAnswerType(rejected), corr, channel, msg);
    assert frame[0] == StreamAnswerType(rejected);
  }

  // ---- stream frames ----

  datatype StreamFrame = StreamFrame(channel: nat, flag: byte, payload: bytes)

  /** `createStreamPrefix`, type byte included. */
  function StreamPrefix(channel: nat, flag: byte): bytes {
    [TYPE_STREAM_DATA, |BigEndian(channel)| % 256] + BigEndian(channel) + [flag]
  }

  /** What the read loop makes of a frame whose first byte is `TYPE_STREAM_DATA`: only the widths 1 to 7
      have a preallocated slice, and every read must be complete. */
  function ParseStreamFrame(frame: bytes): Parsed<StreamFrame>
    requires frame != [] && frame[0] == TYPE_STREAM_DATA
  {
    if |frame| < 2 || frame[1] < 1 || frame[1] > 7 || |frame| < frame[1] + 3 then Panicked else
    var flagPos := 2 + frame[1];
    Parsed(StreamFrame(Value(frame[2..flagPos]), frame[flagPos], frame[flagPos + 1..]))
  }

  /** Channel, flag and payload are recovered, and the width indexes a preallocated slice. */
  lemma StreamFrameRoundTrip(channel: nat, flag: byte, payload: bytes)
    requires channel <= MAX_CORRELATION
    ensures var frame := StreamPrefix(channel, flag) + payload;
            && 0 <= frame[1] - 1 < 7
            && ParseStreamFrame(frame) == Parsed(StreamFrame(channel, flag, payload))
  {
    CorrelationRoundTrip(channel);
    var w := |BigEndian(channel)|;
    var frame := StreamPrefix(channel, flag) + payload;
    assert frame[2..2 + w] == BigEndian(channel) && frame[2 + w] == flag && frame[3 + w..] == payload;
  }

  /** A frame that is accepted is the prefix and the payload of what it is taken for exactly when its channel has no
      leading zero; one with such a channel is accepted as well. */
  lemma StreamFrameParsedIff(frame: bytes)
    requires frame != [] && frame[0] == TYPE_STREAM_DATA && ParseStreamFrame(frame).Parsed?
    ensures var f := ParseStreamFrame(frame).value;
            && 1 <= frame[1] <= 7 && frame[1] + 2 < |frame|
            && (frame == StreamPrefix(f.channel, f.flag) + f.payload <==> Canonical(frame[2..2 + frame[1]]))
  {
    var f, w: int := ParseStreamFrame(frame).value, frame[1];
    var number := frame[2..2 + w];
    BigEndianValue(number);
    var bin := BigEndian(f.channel);
    assert frame == [TYPE_STREAM_DATA, frame[1]] + number + [f.flag] + f.payload;
    if frame == StreamPrefix(f.channel, f.flag) + f.payload {
      assert |bin| + 3 + |f.payload| == |frame|;
      assert (StreamPrefix(f.channel, f.flag) + f.payload)[2..2 + |bin|] == bin;
    }
  }

  /** `createStreamPrefix`: the prefix is one allocated slice that its owner keeps and later overwrites. */
  method CreateStreamPrefix(channel: nat, flag: byte) returns (pref: array<byte>)
    requires channel <= MAX_CORRELATION
    ensures fresh(pref) && pref[..] == StreamPrefix(channel, flag)
  {
    var chanBytes := Serialize(channel);
    var s := [TYPE_STREAM_DATA, |chanBytes| % 256] + chanBytes + [flag];
    pref := new byte[|s|](i requires 0 <= i < |s| => s[i]);
  }

  /** The stream branch of `readConnMessages`, one message at a time, reading piece by piece. */
  method ReadStreamFrame(frame: bytes) returns (r: Parsed<StreamFrame>)
    requires frame != [] && frame[0] == TYPE_STREAM_DATA
    ensures r == ParseStreamFrame(frame)
  {
    var pos := 1;
    if pos == |frame| { return Panicked; }
    var chanLen: int := frame[pos];
    pos := pos + 1;
    if chanLen - 1 < 0 || chanLen - 1 >= 7 { return Panicked; }
    if |frame| < pos + chanLen { return Panicked; }
    var channel := ToNumber(frame[pos..pos + chanLen]);
    pos := pos + chanLen;
    if pos == |frame| { return Panicked; }
    return Parsed(StreamFrame(channel, frame[pos], frame[pos + 1..]));
  }
}
