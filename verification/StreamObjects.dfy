/** The objects of a stream session, updated in place, each method proved to take one step of `StreamModel`.
    Messages on the connection are the actual byte frames. */
module StreamObjects {
  import opened Numbers
  import opened Frames
  import opened Correlations
  import opened Wrappers
  import M = StreamModel

  // ---- frames on the wire, seen from the model ----

  /** A message that belongs to the stream on `channel`. */
  ghost predicate OnChannel(raw: bytes, channel: nat) {
    && raw != [] && raw[0] == TYPE_STREAM_DATA
    && ParseStreamFrame(raw).Parsed? && ParseStreamFrame(raw).value.channel == channel
  }

  ghost function Decode(raw: bytes): M.Frame {
    if raw != [] && raw[0] == TYPE_STREAM_DATA && ParseStreamFrame(raw).Parsed?
    then M.Frame(ParseStreamFrame(raw).value.flag, ParseStreamFrame(raw).value.payload)
    else M.Frame(255, [])
  }

  ghost function DecodeAll(raws: seq<bytes>): seq<M.Frame> {
    if raws == [] then [] else [Decode(raws[0])] + DecodeAll(raws[1..])
  }

  lemma {:induction false} DecodeAllAppend(raws: seq<bytes>, raw: bytes)
    ensures DecodeAll(raws + [raw]) == DecodeAll(raws) + [Decode(raw)]
  {
    if raws == [] {
      assert raws + [raw] == [raw] && [raw][1..] == [];
    } else {
      DecodeAllAppend(raws[1..], raw);
      assert (raws + [raw])[1..] == raws[1..] + [raw];
    }
  }

  // ---- objects ----

  class StreamChannel {
    var buf: bytes
    var err: Option<M.Fault>
    var quota: int

    function View(): M.Channel
      reads this
    {
      M.Channel(buf, err, quota)
    }

    constructor ()
      ensures View() == M.NEW_CHANNEL
    {
      buf, err, quota := [], None, 0;
    }

    method SetErr(e: M.Fault)
      modifies this
      ensures View() == old(View()).(err := Some(e))
    {
      err := Some(e);
    }

    /** The four cases of the read loop. */
    method OnFrame(flag: byte, payload: bytes)
      requires QuotaFits(flag, payload)
      modifies this
      ensures View() == M.OnFrame(old(View()), M.Frame(flag, payload))
      ensures buf == if flag == CHUNK then old(buf) + payload else old(buf)
      ensures err == if flag == FINISH then Some(M.Eof) else if flag == ERROR then Some(M.Text(payload)) else old(err)
      ensures quota == if flag == QUOTA then old(quota) + Value(payload) else old(quota)
    {
      if flag == CHUNK {
        buf := buf + payload;
      } else if flag == FINISH {
        err := Some(M.Eof);
      } else if flag == ERROR {
        err := Some(M.Text(payload));
      } else if flag == QUOTA {
        var q := ToNumber(payload);
        quota := quota + q;
      }
    }

    /** `bytes.Buffer.Read` into a destination of length `room`. */
    method Take(room: nat) returns (data: bytes)
      modifies this
      ensures data == if room <= |old(buf)| then old(buf)[..room] else old(buf)
      ensures View() == old(View()).(buf := old(buf)[|data|..])
    {
      var n := if room <= |buf| then room else |buf|;
      data := buf[..n];
      buf := buf[n..];
    }
  }

  /** `streamController`: the channels of one unit by number, and those bound to each connection. */
  class StreamController {
    var m: map<nat, StreamChannel>
    var connChans: map<Connection, set<nat>>
    const ch: CorrelationSource

    constructor ()
      ensures m == map[] && connChans == map[] && fresh(ch) && ch.Valid() && ch.produced == 0
    {
      m, connChans := map[], map[];
      ch := new CorrelationSource();
    }

    method CreateStream() returns (channel: nat, sc: StreamChannel)
      requires ch.Valid()
      modifies this`m, ch
      ensures ch.Valid() && ch.produced == old(ch.produced) + 1 && channel == Nth(ch.produced)
      ensures fresh(sc) && sc.View() == M.NEW_CHANNEL && m == old(m)[channel := sc]
      ensures old(OneNumberEach()) ==> OneNumberEach()
    {
      channel := ch.Next();
      sc := new StreamChannel();
      m := m[channel := sc];
    }

    method Delete(channel: nat)
      modifies this`m
      ensures m == old(m) - {channel}
    {
      m := m - {channel};
    }

    function BoundTo(conn: Connection): set<nat>
      reads this
    {
      if conn in connChans then connChans[conn] else {}
    }

    method BindConn(conn: Connection, channel: nat)
      modifies this`connChans
      ensures connChans == old(connChans)[conn := old(BoundTo(conn)) + {channel}]
    {
      var c := {};
      if conn in connChans {
        c := connChans[conn];
      }
      connChans := connChans[conn := c + {channel}];
    }

    /** What both ends of a stream do in turn: a new channel, bound to the connection of its request or reply. */
    method CreateBound(conn: Connection) returns (channel: nat, sc: StreamChannel)
      requires ch.Valid() && OneNumberEach()
      modifies this, ch
      ensures ch.Valid() && ch.produced == old(ch.produced) + 1
      ensures channel == Nth(ch.produced) && channel <= MAX_CORRELATION
      ensures fresh(sc) && sc.View() == M.NEW_CHANNEL && m == old(m)[channel := sc]
      ensures connChans == old(connChans)[conn := old(BoundTo(conn)) + {channel}]
      ensures OneNumberEach()
    {
      channel, sc := CreateStream();
      BindConn(conn, channel);
    }

    /** No channel has two numbers. */
    ghost predicate OneNumberEach()
      reads this
    {
      forall c, d :: c in m && d in m && c != d ==> m[c] != m[d]
    }

    method SetErr(channel: nat, err: M.Fault)
      modifies if channel in m then {m[channel]} else {}
      ensures channel in m ==> m[channel].View() == old(m[channel].View()).(err := Some(err))
    {
      if channel in m {
        m[channel].SetErr(err);
      }
    }

    /** Exactly the channels bound to the connection get the error, whatever the order they are visited in. */
    method OnConnClosed(conn: Connection, err: M.Fault)
      requires OneNumberEach()
      modifies this`connChans, set c | c in BoundTo(conn) && c in m :: m[c]
      ensures connChans == old(connChans) - {conn}
      ensures forall c :: c in m ==>
                m[c].View() == if c in old(BoundTo(conn)) then old(m[c].View()).(err := Some(err)) else old(m[c].View())
    {
      if conn !in connChans {
        return;
      }
      var bound := connChans[conn];
      connChans := connChans - {conn};
      var rest := bound;
      while rest != {}
        invariant rest <= bound && connChans == old(connChans) - {conn}
        invariant forall c :: c in m ==>
                    m[c].View() == if c in bound - rest then old(m[c].View()).(err := Some(err)) else old(m[c].View())
      {
        var c :| c in rest;
        rest := rest - {c};
        SetErr(c, err);
      }
    }
  }

  /** One connection with its two FIFO directions. */
  class Connection {
    var down: seq<bytes>
    var up: seq<bytes>
    var open: bool

    constructor ()
      ensures down == [] && up == [] && open
    {
      down, up, open := [], [], true;
    }

    method WriteDown(msg: bytes) returns (ok: bool)
      modifies this`down
      ensures ok == open && down == if open then old(down) + [msg] else old(down)
    {
      ok := open;
      if open { down := down + [msg]; }
    }

    method WriteUp(msg: bytes) returns (ok: bool)
      modifies this`up
      ensures ok == open && up == if open then old(up) + [msg] else old(up)
    {
      ok := open;
      if open { up := up + [msg]; }
    }
  }

  /** A prefix slice as its owner holds it: everything but the last byte never changes. */
  ghost predicate IsPrefix(pref: array<byte>, channel: nat)
    reads pref
  {
    pref.Length > 0 && pref[..] == StreamPrefix(channel, pref[pref.Length - 1])
  }

  /** `append(pref[0:len-1], flag)`: the append lands in the array of the prefix itself. */
  method OverwriteFlag(pref: array<byte>, flag: byte, ghost channel: nat)
    requires IsPrefix(pref, channel)
    modifies pref
    ensures IsPrefix(pref, channel) && pref[pref.Length - 1] == flag
  {
    pref[pref.Length - 1] := flag;
    assert pref[..pref.Length - 1] == old(pref[..pref.Length - 1]);
    assert pref[..] == pref[..pref.Length - 1] + [flag];
    assert StreamPrefix(channel, flag)[..pref.Length - 1] ==
           old(StreamPrefix(channel, pref[pref.Length - 1])[..pref.Length - 1]);
  }

  class Writable {
    const pref: array<byte>
    const streamChannel: StreamChannel
    const conn: Connection
    var quotaRem: int

    /** The end `newWriter` and `WriterRequestContext.Reply` build on a new channel. */
    constructor (channel: nat, streamChannel: StreamChannel, conn: Connection)
      requires channel <= MAX_CORRELATION && streamChannel.View() == M.NEW_CHANNEL
      ensures this.streamChannel == streamChannel && this.conn == conn && fresh(pref)
      ensures IsPrefix(pref, channel) && View() == M.Writer(CHUNK, M.QUOTA_SIZE, M.NEW_CHANNEL)
    {
      var pref := CreateStreamPrefix(channel, CHUNK);
      this.pref, this.streamChannel, this.conn, this.quotaRem := pref, streamChannel, conn, M.QUOTA_SIZE;
    }

    function View(): M.Writer
      requires pref.Length > 0
      reads this, pref, streamChannel
    {
      M.Writer(pref[pref.Length - 1], quotaRem, streamChannel.View())
    }

    /** One attempt of `Write`: where the source waits for a signal and calls itself, this returns `WouldWait`. */
    method Write(p: bytes, ghost channel: nat) returns (r: M.WriteResult)
      requires IsPrefix(pref, channel)
      modifies this`quotaRem, conn`down
      ensures old(streamChannel.err) != None ==>
                r == M.Refused(old(streamChannel.err).value) && quotaRem == old(quotaRem) && conn.down == old(conn.down)
      ensures old(streamChannel.err) == None ==>
                var credit := M.AttemptCredit(old(View()));
                && quotaRem == (if r.Sent? then credit - |p| else credit)
                && conn.down == old(conn.down) + (if r.Sent? then [StreamPrefix(channel, View().flag) + p] else [])
                && r == if credit <= 0 then M.WouldWait else if !conn.open then M.WriteError else M.Sent(|p|)
    {
      if streamChannel.err != None {
        return M.Refused(streamChannel.err.value);
      }
      var quota := streamChannel.quota;
      quotaRem := quotaRem + quota;
      if quotaRem <= 0 {
        return M.WouldWait;
      }
      var ok := conn.WriteDown(pref[..] + p);
      if !ok {
        return M.WriteError;
      }
      quotaRem := quotaRem - |p|;
      return M.Sent(|p|);
    }

    method End(flag: byte, msg: bytes, ghost channel: nat) returns (ok: bool)
      requires IsPrefix(pref, channel)
      modifies pref, conn`down
      ensures IsPrefix(pref, channel) && View() == old(View()).(flag := flag)
      ensures ok == conn.open
      ensures conn.down == old(conn.down) + (if conn.open then [StreamPrefix(channel, flag) + msg] else [])
    {
      OverwriteFlag(pref, flag, channel);
      ok := conn.WriteDown(pref[..] + msg);
    }
  }

  class Readable {
    const pref: array<byte>
    const streamChannel: StreamChannel
    const conn: Connection
    var quotaRem: int
    const quotaSize: int
    var launched: seq<int>
    var credited: seq<int>

    /** The end `newReader` and `ReaderRequestContext.Reply` build on a new channel. */
    constructor (channel: nat, streamChannel: StreamChannel, conn: Connection)
      requires channel <= MAX_CORRELATION && streamChannel.View() == M.NEW_CHANNEL
      ensures this.streamChannel == streamChannel && this.conn == conn && fresh(pref) && quotaSize == M.QUOTA_SIZE
      ensures IsPrefix(pref, channel) && View() == M.Reader(QUOTA, M.QUOTA_SIZE, M.NEW_CHANNEL, [], [])
    {
      var pref := CreateStreamPrefix(channel, QUOTA);
      this.pref, this.streamChannel, this.conn := pref, streamChannel, conn;
      this.quotaRem, this.quotaSize, this.launched, this.credited := M.QUOTA_SIZE, M.QUOTA_SIZE, [], [];
    }

    function View(): M.Reader
      requires pref.Length > 0
      reads this, pref, streamChannel
    {
      M.Reader(pref[pref.Length - 1], quotaRem, streamChannel.View(), launched, credited)
    }

    /** `Read`: takes what is buffered, and starts a grant when the credit has fallen below the threshold. */
    method Read(room: nat) returns (r: M.ReadResult)
      requires pref.Length > 0 && quotaSize == M.QUOTA_SIZE
      modifies this`quotaRem, this`launched, streamChannel
      ensures r == M.ReadOutcome(old(View()), room) && View() == M.AfterRead(old(View()), room)
    {
      var data := streamChannel.Take(room);
      var n := |data|;
      if n != 0 {
        var q := AddRemQuota(-n);
        if 100 * q < 66 * quotaSize {
          launched := launched + [quotaSize - q];
        }
        return M.Got(data);
      }
      if streamChannel.err != None {
        return M.Failed(streamChannel.err.value);
      }
      return if room == 0 then M.Nothing else M.Blocked;
    }

    method AddRemQuota(n: int) returns (q: int)
      modifies this`quotaRem
      ensures q == quotaRem == old(quotaRem) + n
    {
      q := quotaRem + n;
      quotaRem := q;
    }

    /** First half of the `i`-th waiting `addQuota`. */
    method AddQuotaCredit(i: nat)
      requires i < |launched|
      modifies this`quotaRem, this`launched, this`credited
      ensures quotaRem == old(quotaRem) + old(launched)[i]
      ensures launched == M.Without(old(launched), i) && credited == old(credited) + [old(launched)[i]]
    {
      var q := launched[i];
      var _ := AddRemQuota(q);
      launched := launched[..i] + launched[i + 1..];
      credited := credited + [q];
    }

    /** Second half of the `i`-th credited `addQuota`: the prefix as it is now, then the amount. */
    method AddQuotaSend(i: nat, ghost channel: nat)
      requires i < |credited| && credited[i] <= MAX_CORRELATION && IsPrefix(pref, channel)
      modifies this`credited, conn`up
      ensures credited == M.Without(old(credited), i)
      ensures conn.up == old(conn.up)
                         + (if conn.open then [StreamPrefix(channel, View().flag) + IntBytes(old(credited)[i])] else [])
    {
      var quotaSlice := Serialize(credited[i]);
      var _ := conn.WriteUp(pref[..] + quotaSlice);
      credited := credited[..i] + credited[i + 1..];
    }

    method Destroy(msg: bytes, ghost channel: nat) returns (ok: bool)
      requires IsPrefix(pref, channel)
      modifies pref, conn`up
      ensures IsPrefix(pref, channel) && View() == old(View()).(flag := ERROR)
      ensures ok == conn.open
      ensures conn.up == old(conn.up) + (if conn.open then [StreamPrefix(channel, ERROR) + msg] else [])
    {
      OverwriteFlag(pref, ERROR, channel);
      ok := conn.WriteUp(pref[..] + msg);
    }
  }

  /** The channel a stream frame is for, if the unit has it. */
  function Addressed(ctr: StreamController, raw: bytes): set<StreamChannel>
    requires raw != [] && raw[0] == TYPE_STREAM_DATA
    reads ctr
  {
    var f := ParseStreamFrame(raw);
    if f.Parsed? && f.value.channel in ctr.m then {ctr.m[f.value.channel]} else {}
  }

  /** A quota frame holds a number `serializeInt` can have written: at most 7 bytes. */
  predicate QuotaFits(flag: byte, payload: bytes) {
    flag == QUOTA ==> |payload| <= 7
  }

  /** The stream branch of the read loop of a unit. `false` is the panic that drops the connection. */
  method ServeStreamFrame(ctr: StreamController, raw: bytes) returns (ok: bool)
    requires raw != [] && raw[0] == TYPE_STREAM_DATA
    requires ParseStreamFrame(raw).Parsed? ==>
               QuotaFits(ParseStreamFrame(raw).value.flag, ParseStreamFrame(raw).value.payload)
    modifies Addressed(ctr, raw)
    ensures ok <==> Addressed(ctr, raw) != {}
    ensures ok ==>
              var f := ParseStreamFrame(raw).value;
              && f.channel in ctr.m
              && ctr.m[f.channel].View() == M.OnFrame(old(ctr.m[f.channel].View()), M.Frame(f.flag, f.payload))
  {
    var parsed := ReadStreamFrame(raw);
    if !parsed.Parsed? || parsed.value.channel !in ctr.m {
      return false;
    }
    ctr.m[parsed.value.channel].OnFrame(parsed.value.flag, parsed.value.payload);
    return true;
  }

  /** A message whose payload the read loop can turn into a number when it is a grant. */
  ghost predicate OnSession(raw: bytes, channel: nat) {
    OnChannel(raw, channel) && QuotaFits(Decode(raw).flag, Decode(raw).payload)
  }

  lemma EncodedFrame(channel: nat, flag: byte, payload: bytes)
    requires channel <= MAX_CORRELATION
    ensures var raw := StreamPrefix(channel, flag) + payload;
            OnChannel(raw, channel) && Decode(raw) == M.Frame(flag, payload)
  {
    StreamFrameRoundTrip(channel, flag, payload);
  }

  /** One more frame of the session on a link. */
  lemma Queued(link: seq<bytes>, channel: nat, flag: byte, payload: bytes)
    requires channel <= MAX_CORRELATION && QuotaFits(flag, payload)
    requires forall i :: 0 <= i < |link| ==> OnSession(link[i], channel)
    ensures var link' := link + [StreamPrefix(channel, flag) + payload];
            && (forall i :: 0 <= i < |link'| ==> OnSession(link'[i], channel))
            && DecodeAll(link') == DecodeAll(link) + [M.Frame(flag, payload)]
  {
    EncodedFrame(channel, flag, payload);
    DecodeAllAppend(link, StreamPrefix(channel, flag) + payload);
  }

  /** The first frame of the session on a link, and what is left. */
  lemma Dequeued(link: seq<bytes>, channel: nat)
    requires link != [] && forall i :: 0 <= i < |link| ==> OnSession(link[i], channel)
    ensures forall i :: 0 <= i < |link[1..]| ==> OnSession(link[1..][i], channel)
    ensures DecodeAll(link) == [Decode(link[0])] + DecodeAll(link[1..])
  {
    assert forall i :: 0 <= i < |link[1..]| ==> link[1..][i] == link[i + 1];
  }

  /** What `newWriter` and `WriterRequestContext.Reply` do at their end. */
  method NewWriter(ctr: StreamController, conn: Connection) returns (channel: nat, w: Writable)
    requires ctr.ch.Valid() && ctr.OneNumberEach()
    modifies ctr, ctr.ch
    ensures ctr.ch.Valid() && ctr.ch.produced == old(ctr.ch.produced) + 1
    ensures channel == Nth(ctr.ch.produced) && channel <= MAX_CORRELATION
    ensures fresh(w) && fresh(w.pref) && fresh(w.streamChannel) && w.conn == conn
    ensures IsPrefix(w.pref, channel) && w.View() == M.NEW_SESSION.w
    ensures ctr.m == old(ctr.m)[channel := w.streamChannel] && ctr.OneNumberEach()
    ensures ctr.connChans == old(ctr.connChans)[conn := old(ctr.BoundTo(conn)) + {channel}]
  {
    var sc;
    channel, sc := ctr.CreateBound(conn);
    w := new Writable(channel, sc, conn);
  }

  /** What `newReader` and `ReaderRequestContext.Reply` do at their end. */
  method NewReader(ctr: StreamController, conn: Connection) returns (channel: nat, r: Readable)
    requires ctr.ch.Valid() && ctr.OneNumberEach()
    modifies ctr, ctr.ch
    ensures ctr.ch.Valid() && ctr.ch.produced == old(ctr.ch.produced) + 1
    ensures channel == Nth(ctr.ch.produced) && channel <= MAX_CORRELATION
    ensures fresh(r) && fresh(r.pref) && fresh(r.streamChannel) && r.conn == conn && r.quotaSize == M.QUOTA_SIZE
    ensures IsPrefix(r.pref, channel) && r.View() == M.NEW_SESSION.r
    ensures ctr.m == old(ctr.m)[channel := r.streamChannel] && ctr.OneNumberEach()
    ensures ctr.connChans == old(ctr.connChans)[conn := old(ctr.BoundTo(conn)) + {channel}]
  {
    var sc;
    channel, sc := ctr.CreateBound(conn);
    r := new Readable(channel, sc, conn);
  }

  /** Both ends of one session over one connection. Every method is one step of the model. */
  class Session {
    const channel: nat
    const writer: Writable
    const reader: Readable
    const conn: Connection
    const writerCtr: StreamController   // the writing unit's channels
    const readerCtr: StreamController   // the reading unit's channels

    ghost predicate Valid()
      reads this, writer, reader, conn, writerCtr, readerCtr, writer.pref, reader.pref
    {
      && channel <= MAX_CORRELATION
      && writer.conn == conn && reader.conn == conn
      && writer.pref != reader.pref && writer.streamChannel != reader.streamChannel
      && reader.quotaSize == M.QUOTA_SIZE
      && IsPrefix(writer.pref, channel) && IsPrefix(reader.pref, channel)
      && (reader.pref[reader.pref.Length - 1] == QUOTA || reader.pref[reader.pref.Length - 1] == ERROR)
      && writer.pref[writer.pref.Length - 1] != QUOTA
      && writerCtr != readerCtr && writerCtr.OneNumberEach() && readerCtr.OneNumberEach()
      && channel in writerCtr.m && writerCtr.m[channel] == writer.streamChannel
      && channel in readerCtr.m && readerCtr.m[channel] == reader.streamChannel
      && (forall c :: c in readerCtr.m ==> readerCtr.m[c] != writer.streamChannel)
      && (forall c :: c in writerCtr.m ==> writerCtr.m[c] != reader.streamChannel)
      && (conn in writerCtr.connChans ==> channel in writerCtr.connChans[conn])
      && (conn in readerCtr.connChans ==> channel in readerCtr.connChans[conn])
      && (forall i :: 0 <= i < |conn.down| ==> OnSession(conn.down[i], channel))
      && (forall i :: 0 <= i < |conn.up| ==> OnSession(conn.up[i], channel))
    }

    ghost function View(): M.Session
      requires Valid()
      reads this, writer, reader, conn, writerCtr, readerCtr, writer.pref, reader.pref,
            writer.streamChannel, reader.streamChannel
    {
      M.Session(writer.View(), reader.View(), DecodeAll(conn.down), DecodeAll(conn.up), conn.open)
    }

    constructor (channel: nat, writer: Writable, reader: Readable, conn: Connection,
                 writerCtr: StreamController, readerCtr: StreamController)
      ensures this.channel == channel && this.writer == writer && this.reader == reader && this.conn == conn
      ensures this.writerCtr == writerCtr && this.readerCtr == readerCtr
    {
      this.channel, this.writer, this.reader, this.conn := channel, writer, reader, conn;
      this.writerCtr, this.readerCtr := writerCtr, readerCtr;
    }

    /** A new session between two units whose controllers agree on the next number, over a connection that is
        theirs alone. The units may have other channels already. */
    static method Establish(writerCtr: StreamController, readerCtr: StreamController, conn: Connection)
      returns (s: Session)
      requires writerCtr != readerCtr && writerCtr.ch != readerCtr.ch
      requires writerCtr.ch.Valid() && readerCtr.ch.Valid() && writerCtr.OneNumberEach() && readerCtr.OneNumberEach()
      requires Nth(writerCtr.ch.produced + 1) == Nth(readerCtr.ch.produced + 1)
      requires conn.open && conn.down == [] && conn.up == []
      modifies writerCtr, readerCtr, writerCtr.ch, readerCtr.ch
      ensures fresh(s) && s.Valid() && s.View() == M.NEW_SESSION
      ensures s.writerCtr == writerCtr && s.readerCtr == readerCtr && s.conn == conn
      ensures conn in writerCtr.connChans && conn in readerCtr.connChans
      ensures fresh(s.writer) && fresh(s.reader) && fresh(s.writer.pref) && fresh(s.reader.pref)
              && fresh(s.writer.streamChannel) && fresh(s.reader.streamChannel)
    {
      var asked, writer := NewWriter(writerCtr, conn);
      var answered, reader := NewReader(readerCtr, conn);
      s := new Session(asked, writer, reader, conn, writerCtr, readerCtr);
    }

    method Write(p: bytes) returns (r: M.WriteResult)
      requires Valid()
      modifies writer, conn
      ensures Valid() && View() == M.Step(old(View()), M.Write(p), M.AsWritten)
      ensures r == M.WriteOutcome(old(View()), p)
    {
      r := writer.Write(p, channel);
      Queued(old(conn.down), channel, writer.View().flag, p);
      assert old(conn.down) + [] == old(conn.down);
    }

    method Close()
      requires Valid()
      modifies writer.pref, conn
      ensures Valid() && View() == M.Step(old(View()), M.Close, M.AsWritten)
    {
      EndWriter(FINISH, []);
    }

    method DestroyWriter(msg: bytes)
      requires Valid()
      modifies writer.pref, conn
      ensures Valid() && View() == M.Step(old(View()), M.DestroyWriter(msg), M.AsWritten)
    {
      EndWriter(ERROR, msg);
    }

    method EndWriter(flag: byte, msg: bytes)
      requires Valid() && flag != QUOTA
      modifies writer.pref, conn
      ensures Valid() && View() == M.DoEnd(old(View()), flag, msg)
    {
      var _ := writer.End(flag, msg, channel);
      Queued(old(conn.down), channel, flag, msg);
      assert old(conn.down) + [] == old(conn.down);
    }

    method Read(room: nat) returns (r: M.ReadResult)
      requires Valid()
      modifies reader, reader.streamChannel
      ensures Valid() && View() == M.Step(old(View()), M.Read(room), M.AsWritten)
      ensures r == M.ReadOutcome(old(View()).r, room)
    {
      r := reader.Read(room);
    }

    method Credit(i: nat)
      requires Valid() && i < |reader.launched|
      modifies reader
      ensures Valid() && View() == M.Step(old(View()), M.Credit(i), M.AsWritten)
    {
      reader.AddQuotaCredit(i);
    }

    /** The amount must be one the number codec is exact for. */
    method SendGrant(i: nat)
      requires Valid() && i < |reader.credited| && 0 < reader.credited[i] <= MAX_CORRELATION
      modifies reader, conn
      ensures Valid() && View() == M.Step(old(View()), M.SendGrant(i), M.AsWritten)
    {
      ghost var q := reader.credited[i];
      reader.AddQuotaSend(i, channel);
      CorrelationRoundTrip(q);
      Queued(old(conn.up), channel, reader.View().flag, IntBytes(q));
      assert old(conn.up) + [] == old(conn.up);
    }

    method DestroyReader(msg: bytes)
      requires Valid()
      modifies reader.pref, conn
      ensures Valid() && View() == M.Step(old(View()), M.DestroyReader(msg), M.AsWritten)
    {
      var _ := reader.Destroy(msg, channel);
      Queued(old(conn.up), channel, ERROR, msg);
      assert old(conn.up) + [] == old(conn.up);
    }

    method DeliverDown()
      requires Valid() && conn.down != []
      modifies conn, reader.streamChannel
      ensures Valid() && View() == M.Step(old(View()), M.DeliverDown, M.AsWritten)
    {
      ghost var before := View();
      var raw := conn.down[0];
      Dequeued(conn.down, channel);
      conn.down := conn.down[1..];
      var ok := ServeStreamFrame(readerCtr, raw);
      assert ok && writer.View() == before.w;
      assert reader.View() == before.r.(ch := M.OnFrame(before.r.ch, Decode(raw)));
    }

    method DeliverUp()
      requires Valid() && conn.up != []
      modifies conn, writer.streamChannel
      ensures Valid() && View() == M.Step(old(View()), M.DeliverUp, M.AsWritten)
    {
      ghost var before := View();
      var raw := conn.up[0];
      Dequeued(conn.up, channel);
      conn.up := conn.up[1..];
      var ok := ServeStreamFrame(writerCtr, raw);
      assert ok && reader.View() == before.r;
      assert writer.View() == before.w.(ch := M.OnFrame(before.w.ch, Decode(raw)));
    }

    method Disconnect()
      requires Valid()
      modifies conn
      ensures Valid() && View() == M.Step(old(View()), M.Disconnect, M.AsWritten)
    {
      conn.down, conn.up, conn.open := [], [], false;
    }

    /** `onConnClosed` at one end, which happens once. */
    method WriterNotices()
      requires Valid() && !conn.open && conn in writerCtr.connChans
      modifies writerCtr`connChans, set c | c in writerCtr.BoundTo(conn) && c in writerCtr.m :: writerCtr.m[c]
      ensures Valid() && View() == M.Step(old(View()), M.WriterNotices, M.AsWritten)
    {
      assert channel in writerCtr.m && channel in writerCtr.BoundTo(conn);
      writerCtr.OnConnClosed(conn, M.ConnectionClosed);
      assert writer.streamChannel == writerCtr.m[channel];
    }

    method ReaderNotices()
      requires Valid() && !conn.open && conn in readerCtr.connChans
      modifies readerCtr`connChans, set c | c in readerCtr.BoundTo(conn) && c in readerCtr.m :: readerCtr.m[c]
      ensures Valid() && View() == M.Step(old(View()), M.ReaderNotices, M.AsWritten)
    {
      assert channel in readerCtr.m && channel in readerCtr.BoundTo(conn);
      readerCtr.OnConnClosed(conn, M.ConnectionClosed);
      assert reader.streamChannel == readerCtr.m[channel];
    }
  }
}
