/** What the calls on a stream return, in every run: the next bytes, the end the other side has put to the stream,
    or the loss of the connection. */
module StreamEnds {
  import opened Numbers
  import opened Frames
  import opened StreamModel
  import opened R = StreamRuns
  import opened Wrappers

  // ---- the bytes of a read ----

  /** `Read` returns the bytes that follow those read before, as many as have arrived and there is room for; it
      waits exactly when it has room, nothing has arrived and the stream has no end yet. */
  lemma ReadReturnsNext(acts: seq<Action>, m: Accounting, room: nat)
    ensures var t, o := Run(acts, m), ReadOutcome(Run(acts, m).s.r, room);
            && (o.Got? ==>
                  && 0 < |o.data| <= room && |t.h.read| + |o.data| <= |t.h.written|
                  && o.data == t.h.written[|t.h.read|..|t.h.read| + |o.data|]
                  && (|o.data| == room || o.data == t.s.r.ch.buf))
            && (o.Got? <==> room > 0 && t.s.r.ch.buf != [])
            && (o.Blocked? <==> room > 0 && t.s.r.ch.buf == [] && t.s.r.ch.err == None)
            && (o.Nothing? <==> room == 0 && t.s.r.ch.err == None)
  {
    RunSound(acts, m);
    var t, o := Run(acts, m), ReadOutcome(Run(acts, m).s.r, room);
    assert t.h.read + t.s.r.ch.buf <= t.h.written;
    if o.Got? {
      NextBytes(t.h.read, t.s.r.ch.buf, t.h.written, |o.data|);
    }
  }

  lemma NextBytes(read: bytes, buf: bytes, written: bytes, n: nat)
    requires read + buf <= written && n <= |buf|
    ensures |read| + n <= |written| && buf[..n] == written[|read|..|read| + n]
  {
    assert buf == (read + buf)[|read|..] == written[|read|..|read + buf|];
  }

  /** An attempt of `Write` says it has sent its payload exactly when the payload is added to what the reader is to
      get, or the stream has ended; it waits exactly for want of credit, and fails to write exactly when it has credit
      and the connection is lost. */
  lemma WriteTellsIff(acts: seq<Action>, m: Accounting, p: bytes)
    ensures var t, o := Run(acts, m), WriteOutcome(Run(acts, m).s, p);
            var after := Next(t, Write(p), m);
            && (o.Sent? ==> o.n == |p| && after.h.spent == t.h.spent + |p|)
            && (o.Sent? && !t.h.closed ==>
                  after.h.written == t.h.written + p && after.s.down == t.s.down + [Frame(CHUNK, p)])
            && (!o.Sent? ==> after.h.written == t.h.written && after.s.down == t.s.down)
            && (o.WouldWait? <==> t.s.w.ch.err == None && t.s.w.quotaRem + t.s.w.ch.quota <= 0)
            && (o.WriteError? <==> t.s.w.ch.err == None && t.s.w.quotaRem + t.s.w.ch.quota > 0 && !t.s.open)
  {
    RunSound(acts, m);
  }

  // ---- the ends of a stream ----

  /** What an end of the channel is told by one more frame. */
  function Told(err: Option<Fault>, f: Frame): Option<Fault> {
    if f.flag == FINISH then Some(Eof) else if f.flag == ERROR then Some(Text(f.payload)) else err
  }

  /** What it will have been told when a link is delivered. */
  function ToldBy(err: Option<Fault>, fs: seq<Frame>): Option<Fault>
    decreases |fs|
  {
    if fs == [] then err else ToldBy(Told(err, fs[0]), fs[1..])
  }

  lemma {:induction false} ToldByAppend(err: Option<Fault>, fs: seq<Frame>, f: Frame)
    ensures ToldBy(err, fs + [f]) == Told(ToldBy(err, fs), f)
    decreases |fs|
  {
    if fs == [] {
      assert fs + [f] == [f] && [f][1..] == [];
    } else {
      ToldByAppend(Told(err, fs[0]), fs[1..], f);
      assert (fs + [f])[0] == fs[0] && (fs + [f])[1..] == fs[1..] + [f];
    }
  }

  /** The last word of the writer, from its calls: a clean end for `Close`, its text for `Destroy`. A `Write` after
      `Destroy` goes out under the overwritten prefix and becomes the text. */
  function WriterSays(s: Session, said: Option<Fault>, a: Action): Option<Fault> {
    match a
    case Close => Some(Eof)
    case DestroyWriter(msg) => Some(Text(msg))
    case Write(p) => if WriteOutcome(s, p).Sent? && said.Some? && said.value.Text? then Some(Text(p)) else said
    case _ => said
  }

  /** The last word of the reader: the text of `Destroy`, or the amount of a grant sent after it. */
  function ReaderSays(s: Session, said: Option<Fault>, a: Action): Option<Fault> {
    match a
    case DestroyReader(msg) => Some(Text(msg))
    case SendGrant(i) =>
      if i < |s.r.credited| && said.Some? then Some(Text(IntBytes(s.r.credited[i]))) else said
    case _ => said
  }

  /** The last words of both ends. */
  datatype Words = Words(writer: Option<Fault>, reader: Option<Fault>)

  const SILENT := Words(None, None)

  function Says(s: Session, said: Words, a: Action): Words {
    Words(WriterSays(s, said.writer, a), ReaderSays(s, said.reader, a))
  }

  /** The last words in a run from `t`, where nothing has been said yet. */
  function SaidFrom(t: Traced, acts: seq<Action>, m: Accounting): Words
    decreases |acts|
  {
    if acts == [] then SILENT else
    var before := acts[..|acts| - 1];
    Says(Steps(t, before, m).s, SaidFrom(t, before, m), acts[|acts| - 1])
  }

  /** The last words in a run. */
  function Said(acts: seq<Action>, m: Accounting): Words {
    SaidFrom(START, acts, m)
  }

  /** The last byte of a prefix after such a word; `unset` is the one it started with. */
  function FlagFor(word: Option<Fault>, unset: byte): byte {
    if word == None then unset else if word.value == Eof then FINISH else ERROR
  }

  /** While the connection is up, what either side knows and what is on its way to it add up to the last word of
      the other, which the prefix of the other agrees with. */
  ghost predicate WordsArrive(s: Session, said: Words) {
    s.open ==>
      && ToldBy(s.r.ch.err, s.down) == said.writer
      && s.w.flag == FlagFor(said.writer, CHUNK) && said.writer != Some(ConnectionClosed)
      && ToldBy(s.w.ch.err, s.up) == said.reader
      && s.r.flag == FlagFor(said.reader, QUOTA) && (said.reader.Some? ==> said.reader.value.Text?)
  }

  lemma WordsArriveStep(s: Session, said: Words, a: Action, m: Accounting)
    requires WordsArrive(s, said)
    ensures WordsArrive(Step(s, a, m), Says(s, said, a))
  {
    match a
    case Write(p) => ToldByAppend(s.r.ch.err, s.down, Frame(s.w.flag, p));
    case Close => ToldByAppend(s.r.ch.err, s.down, Frame(FINISH, []));
    case DestroyWriter(msg) => ToldByAppend(s.r.ch.err, s.down, Frame(ERROR, msg));
    case SendGrant(i) =>
      if i < |s.r.credited| {
        ToldByAppend(s.w.ch.err, s.up, Frame(s.r.flag, IntBytes(s.r.credited[i])));
      }
    case DestroyReader(msg) => ToldByAppend(s.w.ch.err, s.up, Frame(ERROR, msg));
    case _ =>
  }

  lemma SaidSnoc(t: Traced, acts: seq<Action>, a: Action, m: Accounting)
    ensures SaidFrom(t, acts + [a], m) == Says(Steps(t, acts, m).s, SaidFrom(t, acts, m), a)
    ensures Steps(t, acts + [a], m) == Next(Steps(t, acts, m), a, m)
  {
    assert (acts + [a])[..|acts|] == acts;
    StepsConcat(t, acts, [a], m);
    assert [a][1..] == [];
  }

  lemma {:induction false} WordsArriveInRuns(t: Traced, acts: seq<Action>, m: Accounting)
    requires WordsArrive(t.s, SILENT)
    ensures WordsArrive(Steps(t, acts, m).s, SaidFrom(t, acts, m))
    decreases |acts|
  {
    if acts != [] {
      var before, a := acts[..|acts| - 1], acts[|acts| - 1];
      WordsArriveInRuns(t, before, m);
      WordsArriveStep(Steps(t, before, m).s, SaidFrom(t, before, m), a, m);
      SaidSnoc(t, before, a, m);
      assert before + [a] == acts;
    }
  }

  /** Once everything sent has been delivered and read, `Read` with room ends the way the writer's last word says,
      and waits while there is none; everything written has then been read if it has ended. */
  lemma EndArrives(acts: seq<Action>, m: Accounting, room: nat)
    requires var s := Run(acts, m).s; s.open && s.down == [] && s.r.ch.buf == [] && room > 0
    ensures var t, word := Run(acts, m), Said(acts, m).writer;
            && ReadOutcome(t.s.r, room) == (if word == None then Blocked else Failed(word.value))
            && (word.Some? ==> t.h.read == t.h.written)
  {
    WordsArriveInRuns(START, acts, m);
    RunSound(acts, m);
    var t := Run(acts, m);
    assert t.h.read + [] == t.h.read;
  }

  /** Once everything the reader sent has been delivered, every attempt of `Write` is refused with the reader's last
      word, and none while there is none. */
  lemma RefusalArrives(acts: seq<Action>, m: Accounting, p: bytes)
    requires Run(acts, m).s.open && Run(acts, m).s.up == []
    ensures var o, word := WriteOutcome(Run(acts, m).s, p), Said(acts, m).reader;
            if word == None then !o.Refused? else o == Refused(word.value)
  {
    WordsArriveInRuns(START, acts, m);
  }

  // ---- the last word from the calls alone ----

  /** Actions that leave the last word of the writer, or of the reader, as it is. */
  predicate WriterQuiet(a: Action, word: Fault) {
    !a.DestroyWriter? && (a.Close? ==> word == Eof) && (a.Write? ==> !word.Text?)
  }

  predicate ReaderQuiet(a: Action) {
    !a.DestroyReader? && !a.SendGrant?
  }

  lemma WordsStep(t: Traced, acts: seq<Action>, a: Action, m: Accounting)
    ensures var now, next := SaidFrom(t, acts, m), SaidFrom(t, acts + [a], m);
            && (now.writer.Some? && WriterQuiet(a, now.writer.value) ==> next.writer == now.writer)
            && (ReaderQuiet(a) ==> next.reader == now.reader)
  {
    SaidSnoc(t, acts, a, m);
  }

  lemma {:induction false} WriterWordStays(t: Traced, acts: seq<Action>, after: seq<Action>, m: Accounting, word: Fault)
    requires SaidFrom(t, acts, m).writer == Some(word) && forall a :: a in after ==> WriterQuiet(a, word)
    ensures SaidFrom(t, acts + after, m).writer == Some(word)
    decreases |after|
  {
    if after == [] {
      assert acts + after == acts;
    } else {
      var a, rest := after[0], after[1..];
      WordsStep(t, acts, a, m);
      WriterWordStays(t, acts + [a], rest, m, word);
      assert acts + [a] + rest == acts + after;
    }
  }

  lemma {:induction false} ReaderWordStays(t: Traced, acts: seq<Action>, after: seq<Action>, m: Accounting)
    requires forall a :: a in after ==> ReaderQuiet(a)
    ensures SaidFrom(t, acts + after, m).reader == SaidFrom(t, acts, m).reader
    decreases |after|
  {
    if after == [] {
      assert acts + after == acts;
    } else {
      var a, rest := after[0], after[1..];
      WordsStep(t, acts, a, m);
      ReaderWordStays(t, acts + [a], rest, m);
      assert acts + [a] + rest == acts + after;
    }
  }

  /** A closed stream ends cleanly at the reader, unless the writer destroys it as well. */
  lemma CloseArrives(before: seq<Action>, after: seq<Action>, m: Accounting, room: nat)
    requires forall a :: a in after ==> WriterQuiet(a, Eof)
    requires var s := Run(before + [Close] + after, m).s; s.open && s.down == [] && s.r.ch.buf == [] && room > 0
    ensures ReadOutcome(Run(before + [Close] + after, m).s.r, room) == Failed(Eof)
  {
    SaidSnoc(START, before, Close, m);
    WriterWordStays(START, before + [Close], after, m, Eof);
    EndArrives(before + [Close] + after, m, room);
  }

  /** A destroyed stream ends with the text given, unless the writer calls again. */
  lemma DestroyArrives(before: seq<Action>, msg: bytes, after: seq<Action>, m: Accounting, room: nat)
    requires forall a :: a in after ==> WriterQuiet(a, Text(msg))
    requires var s := Run(before + [DestroyWriter(msg)] + after, m).s;
             s.open && s.down == [] && s.r.ch.buf == [] && room > 0
    ensures ReadOutcome(Run(before + [DestroyWriter(msg)] + after, m).s.r, room) == Failed(Text(msg))
  {
    SaidSnoc(START, before, DestroyWriter(msg), m);
    WriterWordStays(START, before + [DestroyWriter(msg)], after, m, Text(msg));
    EndArrives(before + [DestroyWriter(msg)] + after, m, room);
  }

  /** A stream the reader destroys refuses every `Write` with the text given, unless the reader destroys it again
      or a grant follows. */
  lemma DestroyRefuses(before: seq<Action>, msg: bytes, after: seq<Action>, m: Accounting, p: bytes)
    requires forall a :: a in after ==> ReaderQuiet(a)
    requires var s := Run(before + [DestroyReader(msg)] + after, m).s; s.open && s.up == []
    ensures WriteOutcome(Run(before + [DestroyReader(msg)] + after, m).s, p) == Refused(Text(msg))
  {
    SaidSnoc(START, before, DestroyReader(msg), m);
    ReaderWordStays(START, before + [DestroyReader(msg)], after, m);
    RefusalArrives(before + [DestroyReader(msg)] + after, m, p);
  }

  /** A `Write` after `Destroy` replaces the text at the reader by its payload. */
  lemma LateWriteReplacesText(msg: bytes, p: bytes)
    ensures var acts := [DestroyWriter(msg), Write(p), DeliverDown, DeliverDown];
            ReadOutcome(Run(acts, AsWritten).s.r, 1) == Failed(Text(p))
  {
    var m := AsWritten;
    var t1 := Next(START, DestroyWriter(msg), m);
    var t2 := Next(t1, Write(p), m);
    assert t2.s.down == [Frame(ERROR, msg), Frame(ERROR, p)];
    var t3 := Next(t2, DeliverDown, m);
    assert t3.s.down == [Frame(ERROR, p)];
    StepsOfFour(START, DestroyWriter(msg), Write(p), DeliverDown, DeliverDown, m);
  }

  lemma StepsOfFour(t: Traced, a: Action, b: Action, c: Action, d: Action, m: Accounting)
    ensures Steps(t, [a, b, c, d], m) == Next(Next(Next(Next(t, a, m), b, m), c, m), d, m)
  {
    StepsOfThree(Next(t, a, m), b, c, d, m);
    assert [a, b, c, d][1..] == [b, c, d];
  }

  /** A grant that was credited when the reader destroyed the stream goes out under the overwritten prefix, and the
      writer is refused with the bytes of its amount. */
  lemma LateGrantReplacesText(p: bytes, msg: bytes)
    requires |p| == QUOTA_SIZE
    ensures var acts := [Write(p), DeliverDown, Read(QUOTA_SIZE), Credit(0)]
                        + [DestroyReader(msg), SendGrant(0), DeliverUp, DeliverUp];
            WriteOutcome(Run(acts, AsWritten).s, []) == Refused(Text(IntBytes(QUOTA_SIZE)))
  {
    var m := AsWritten;
    var read := [Write(p), DeliverDown, Read(QUOTA_SIZE), Credit(0)];
    var t := ReadAQuota(p);
    var t1 := Next(t, DestroyReader(msg), m);
    assert t1.s.up == [Frame(ERROR, msg)];
    var t2 := Next(t1, SendGrant(0), m);
    assert t2.s.up == [Frame(ERROR, msg), Frame(ERROR, IntBytes(QUOTA_SIZE))];
    var t3 := Next(t2, DeliverUp, m);
    assert t3.s.up == [Frame(ERROR, IntBytes(QUOTA_SIZE))];
    StepsOfFour(t, DestroyReader(msg), SendGrant(0), DeliverUp, DeliverUp, m);
    StepsConcat(START, read, [DestroyReader(msg), SendGrant(0), DeliverUp, DeliverUp], m);
  }

  lemma ReadAQuota(p: bytes) returns (t: Traced)
    requires |p| == QUOTA_SIZE
    ensures t == Run([Write(p), DeliverDown, Read(QUOTA_SIZE), Credit(0)], AsWritten)
    ensures t.s.r.credited == [QUOTA_SIZE] && t.s.up == [] && t.s.open
  {
    var m := AsWritten;
    var t1 := Next(START, Write(p), m);
    assert t1.s.down == [Frame(CHUNK, p)];
    var t2 := Next(t1, DeliverDown, m);
    assert t2.s.r.ch.buf == p;
    var t3 := Next(t2, Read(QUOTA_SIZE), m);
    assert BytesRead(t2.s.r, QUOTA_SIZE) == p;
    assert t3.s.r.launched == [QUOTA_SIZE] && t3.s.r.credited == [];
    t := Next(t3, Credit(0), m);
    StepsOfFour(START, Write(p), DeliverDown, Read(QUOTA_SIZE), Credit(0), m);
  }

  // ---- the loss of the connection ----

  /** One end has noticed that the connection was lost. */
  ghost predicate Noticed(acts: seq<Action>, notice: Action) {
    exists i, j :: 0 <= i < j < |acts| && acts[i] == Disconnect && acts[j] == notice
  }

  lemma NoticedSnoc(acts: seq<Action>, a: Action, notice: Action)
    requires notice != Disconnect
    ensures Noticed(acts + [a], notice) <==> Noticed(acts, notice) || (a == notice && Disconnect in acts)
  {
    var all := acts + [a];
    if Noticed(acts, notice) {
      var i, j :| 0 <= i < j < |acts| && acts[i] == Disconnect && acts[j] == notice;
      assert all[i] == Disconnect && all[j] == notice;
    }
    if a == notice && Disconnect in acts {
      var i :| 0 <= i < |acts| && acts[i] == Disconnect;
      assert all[i] == Disconnect && all[|acts|] == notice;
    }
    if Noticed(all, notice) {
      var i, j :| 0 <= i < j < |all| && all[i] == Disconnect && all[j] == notice;
      assert acts[i] == Disconnect && (j < |acts| ==> acts[j] == notice);
    }
  }

  ghost predicate LossKnown(acts: seq<Action>, m: Accounting) {
    var s := Run(acts, m).s;
    && (s.open <==> Disconnect !in acts)
    && (!s.open ==> s.down == [] && s.up == [])
    && (s.r.ch.err == Some(ConnectionClosed) <==> Noticed(acts, ReaderNotices))
    && (s.w.ch.err == Some(ConnectionClosed) <==> Noticed(acts, WriterNotices))
  }

  lemma LossKnownSnoc(acts: seq<Action>, a: Action, m: Accounting)
    requires LossKnown(acts, m)
    ensures LossKnown(acts + [a], m)
  {
    RunSnoc(acts, a, m);
    NoticedSnoc(acts, a, ReaderNotices);
    NoticedSnoc(acts, a, WriterNotices);
  }

  lemma {:induction false} LossIsKnown(acts: seq<Action>, m: Accounting)
    ensures LossKnown(acts, m)
    decreases |acts|
  {
    if acts != [] {
      var n := |acts| - 1;
      LossIsKnown(acts[..n], m);
      LossKnownSnoc(acts[..n], acts[n], m);
      assert acts[..n] + [acts[n]] == acts;
    }
  }

  /** A lost connection ends every call: once the reading end has noticed, `Read` with room returns what is still
      buffered and then the loss, and never waits; `Read` reports a loss only then. */
  lemma LossEndsRead(acts: seq<Action>, m: Accounting, room: nat)
    ensures var s, o := Run(acts, m).s, ReadOutcome(Run(acts, m).s.r, room);
            && (Noticed(acts, ReaderNotices) ==>
                  o == if room > 0 && s.r.ch.buf != [] then Got(BytesRead(s.r, room)) else Failed(ConnectionClosed))
            && (o == Failed(ConnectionClosed) ==> Noticed(acts, ReaderNotices))
  {
    LossIsKnown(acts, m);
  }

  /** And once the writing end has noticed, every attempt of `Write` is refused with the loss, and only then. */
  lemma LossEndsWrite(acts: seq<Action>, m: Accounting, p: bytes)
    ensures WriteOutcome(Run(acts, m).s, p) == Refused(ConnectionClosed) <==> Noticed(acts, WriterNotices)
  {
    LossIsKnown(acts, m);
  }
}
