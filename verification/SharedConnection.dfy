/** Several stream sessions over one connection, in both directions. Their frames share the two FIFO links; a frame
    carries the number its sender has for the session, and the other unit looks that number up in a table of its
    own. A session with the same number at both ends behaves as if it were alone, whatever the others do. */
module SharedConnection {
  import opened Frames
  import opened Numbers
  import opened StreamModel
  import opened Wrappers
  import R = StreamRuns

  /** Both ends of a session. `writerLeft`: its data goes from the left unit to the right one. `left` and `right`
      are its numbers at the two units. */
  datatype Ends = Ends(writerLeft: bool, left: nat, right: nat, w: Writer, r: Reader, h: History)

  datatype Tagged = Tagged(channel: nat, f: Frame)

  /** `atLeft` and `atRight`: the tables of the two units, from number to session. */
  datatype Shared =
    Shared(ends: seq<Ends>, atLeft: map<nat, nat>, atRight: map<nat, nat>, toRight: seq<Tagged>, toLeft: seq<Tagged>,
           open: bool)

  const NOTHING := Shared([], map[], map[], [], [], true)

  datatype Event =
    | Open(left: nat, right: nat, writerLeft: bool)
    | Local(k: nat, a: Action)   // a call, a pending grant or a notice at one end of session `k`
    | DeliverRight               // the right unit reads the next message
    | DeliverLeft
    | Cut                        // the connection is lost

  predicate IsLocal(a: Action) {
    !a.DeliverDown? && !a.DeliverUp? && !a.Disconnect?
  }

  /** The frames with one number. */
  function Mine(link: seq<Tagged>, c: nat): seq<Frame> {
    if link == [] then [] else (if link[0].channel == c then [link[0].f] else []) + Mine(link[1..], c)
  }

  function Tag(c: nat, fs: seq<Frame>): seq<Tagged> {
    if fs == [] then [] else [Tagged(c, fs[0])] + Tag(c, fs[1..])
  }

  /** One session, with the frames its own ends have sent. */
  function Project(sh: Shared, k: nat): Traced
    requires k < |sh.ends|
  {
    var e := sh.ends[k];
    var right, left := Mine(sh.toRight, e.left), Mine(sh.toLeft, e.right);
    var s := if e.writerLeft then Session(e.w, e.r, right, left, sh.open) else Session(e.w, e.r, left, right, sh.open);
    Traced(s, e.h)
  }

  predicate Enabled(sh: Shared, e: Event) {
    match e
    case Open(left, right, _) => left !in sh.atLeft && right !in sh.atRight && sh.open
    case Local(k, a) => k < |sh.ends| && IsLocal(a)
    case DeliverRight => sh.toRight != []
    case DeliverLeft => sh.toLeft != []
    case Cut => true
  }

  /** The ends of session `k` become those of `t`, and these frames go out. */
  function Post(sh: Shared, k: nat, t: Traced, down: seq<Frame>, up: seq<Frame>): Shared
    requires k < |sh.ends|
  {
    var e := sh.ends[k];
    var right, left := if e.writerLeft then down else up, if e.writerLeft then up else down;
    sh.(ends := sh.ends[k := e.(w := t.s.w, r := t.s.r, h := t.h)],
        toRight := sh.toRight + Tag(e.left, right), toLeft := sh.toLeft + Tag(e.right, left))
  }

  /** What a call adds to a link. */
  function Added(before: seq<Frame>, after: seq<Frame>): seq<Frame> {
    if |before| <= |after| then after[|before|..] else []
  }

  /** A frame reaches the end of a session at the right unit, or at the left one. */
  function Receive(e: Ends, atRight: bool, f: Frame): Ends {
    if e.writerLeft == atRight then e.(r := e.r.(ch := OnFrame(e.r.ch, f)))
    else
      var grant := if f.flag == QUOTA then Value(f.payload) else 0;
      e.(w := e.w.(ch := OnFrame(e.w.ch, f)), h := e.h.(delivered := e.h.delivered + grant))
  }

  function Lost(sh: Shared): Shared {
    sh.(toRight := [], toLeft := [], open := false)
  }

  /** Reading a message: the number is looked up in the table of the unit that reads; an unknown one drops the
      connection. */
  function Deliver(sh: Shared, table: map<nat, nat>, atRight: bool, m: Tagged): Shared {
    if m.channel !in table then Lost(sh)
    else
      var k := table[m.channel];
      if k >= |sh.ends| then sh else sh.(ends := sh.ends[k := Receive(sh.ends[k], atRight, m.f)])
  }

  function Step(sh: Shared, e: Event, m: Accounting): Shared
    requires Enabled(sh, e)
  {
    match e
    case Open(left, right, writerLeft) =>
      var k := |sh.ends|;
      sh.(ends := sh.ends + [Ends(writerLeft, left, right, NEW_SESSION.w, NEW_SESSION.r, NEW_HISTORY)],
          atLeft := sh.atLeft[left := k], atRight := sh.atRight[right := k])
    case Local(k, a) =>
      var t := Project(sh, k);
      var t' := Next(t, a, m);
      Post(sh, k, t', Added(t.s.down, t'.s.down), Added(t.s.up, t'.s.up))
    case DeliverRight => Deliver(sh.(toRight := sh.toRight[1..]), sh.atRight, true, sh.toRight[0])
    case DeliverLeft => Deliver(sh.(toLeft := sh.toLeft[1..]), sh.atLeft, false, sh.toLeft[0])
    case Cut => Lost(sh)
  }

  // ---- the tables ----

  /** Each unit finds every session under its number there, and nothing else. */
  ghost predicate TablesOk(sh: Shared) {
    && (forall k :: 0 <= k < |sh.ends| ==>
          && sh.ends[k].left in sh.atLeft && sh.atLeft[sh.ends[k].left] == k
          && sh.ends[k].right in sh.atRight && sh.atRight[sh.ends[k].right] == k)
    && (forall c :: c in sh.atLeft ==> sh.atLeft[c] < |sh.ends| && sh.ends[sh.atLeft[c]].left == c)
    && (forall c :: c in sh.atRight ==> sh.atRight[c] < |sh.ends| && sh.ends[sh.atRight[c]].right == c)
  }

  /** A frame on its way carries a number of its sender. */
  ghost predicate Known(sh: Shared) {
    && (forall i :: 0 <= i < |sh.toRight| ==> sh.toRight[i].channel in sh.atLeft)
    && (forall i :: 0 <= i < |sh.toLeft| ==> sh.toLeft[i].channel in sh.atRight)
  }

  /** Both units have the same number for session `k`. */
  predicate Agrees(sh: Shared, k: nat)
    requires k < |sh.ends|
  {
    sh.ends[k].left == sh.ends[k].right
  }

  /** The sessions of `a` are still there in `b`, under their numbers. */
  ghost predicate KeepsNumbers(a: Shared, b: Shared) {
    && |a.ends| <= |b.ends|
    && (forall k :: 0 <= k < |a.ends| ==> b.ends[k].left == a.ends[k].left && b.ends[k].right == a.ends[k].right)
  }

  lemma {:induction false} TagKnown(c: nat, fs: seq<Frame>)
    ensures forall i :: 0 <= i < |Tag(c, fs)| ==> Tag(c, fs)[i].channel == c
  {
    if fs != [] {
      TagKnown(c, fs[1..]);
    }
  }

  lemma KnownPost(sh: Shared, k: nat, t: Traced, down: seq<Frame>, up: seq<Frame>)
    requires k < |sh.ends| && TablesOk(sh) && Known(sh)
    ensures TablesOk(Post(sh, k, t, down, up)) && Known(Post(sh, k, t, down, up))
    ensures KeepsNumbers(sh, Post(sh, k, t, down, up))
  {
    var e := sh.ends[k];
    TagKnown(e.left, if e.writerLeft then down else up);
    TagKnown(e.right, if e.writerLeft then up else down);
  }

  lemma DeliverKeeps(sh: Shared, table: map<nat, nat>, atRight: bool, m: Tagged)
    requires TablesOk(sh) && Known(sh)
    ensures TablesOk(Deliver(sh, table, atRight, m)) && Known(Deliver(sh, table, atRight, m))
    ensures KeepsNumbers(sh, Deliver(sh, table, atRight, m))
  {
  }

  lemma OpenKeeps(sh: Shared, e: Event, m: Accounting)
    requires TablesOk(sh) && Known(sh) && Enabled(sh, e) && e.Open?
    ensures TablesOk(Step(sh, e, m)) && Known(Step(sh, e, m)) && KeepsNumbers(sh, Step(sh, e, m))
  {
    var next, k := Step(sh, e, m), |sh.ends|;
    assert KeepsNumbers(sh, next);
    assert next.atLeft == sh.atLeft[e.left := k] && next.atRight == sh.atRight[e.right := k];
    assert next.ends[k].left == e.left && next.ends[k].right == e.right;
  }

  lemma TablesStep(sh: Shared, e: Event, m: Accounting)
    requires TablesOk(sh) && Known(sh) && Enabled(sh, e)
    ensures TablesOk(Step(sh, e, m)) && Known(Step(sh, e, m)) && KeepsNumbers(sh, Step(sh, e, m))
  {
    match e
    case Open(_, _, _) => OpenKeeps(sh, e, m);
    case Local(k, a) =>
      var t := Project(sh, k);
      var t' := Next(t, a, m);
      KnownPost(sh, k, t', Added(t.s.down, t'.s.down), Added(t.s.up, t'.s.up));
    case DeliverRight => DeliverKeeps(sh.(toRight := sh.toRight[1..]), sh.atRight, true, sh.toRight[0]);
    case DeliverLeft => DeliverKeeps(sh.(toLeft := sh.toLeft[1..]), sh.atLeft, false, sh.toLeft[0]);
    case Cut =>
  }

  // ---- frames with one number ----

  lemma {:induction false} MineConcat(a: seq<Tagged>, b: seq<Tagged>, c: nat)
    ensures Mine(a + b, c) == Mine(a, c) + Mine(b, c)
  {
    if a == [] {
      assert a + b == b;
    } else {
      MineConcat(a[1..], b, c);
      assert (a + b)[0] == a[0] && (a + b)[1..] == a[1..] + b;
      var head := if a[0].channel == c then [a[0].f] else [];
      assert head + (Mine(a[1..], c) + Mine(b, c)) == (head + Mine(a[1..], c)) + Mine(b, c);
    }
  }

  lemma {:induction false} MineOfTag(c: nat, fs: seq<Frame>, d: nat)
    ensures Mine(Tag(c, fs), d) == if c == d then fs else []
  {
    if fs != [] {
      MineOfTag(c, fs[1..], d);
      assert Tag(c, fs)[1..] == Tag(c, fs[1..]);
    }
  }

  lemma MineAfter(link: seq<Tagged>, c: nat, fs: seq<Frame>, d: nat)
    ensures Mine(link + Tag(c, fs), d) == Mine(link, d) + if c == d then fs else []
  {
    MineConcat(link, Tag(c, fs), d);
    MineOfTag(c, fs, d);
  }

  lemma {:induction false} MineOfUnknown(link: seq<Tagged>, c: nat)
    requires forall i :: 0 <= i < |link| ==> link[i].channel != c
    ensures Mine(link, c) == []
  {
    if link != [] {
      assert forall i :: 0 <= i < |link[1..]| ==> link[1..][i] == link[i + 1];
      MineOfUnknown(link[1..], c);
    }
  }

  /** A call only adds to the links. */
  lemma LocalAppends(s: Session, a: Action, m: Accounting)
    requires IsLocal(a)
    ensures var s' := StreamModel.Step(s, a, m);
            && s'.open == s.open
            && s'.down == s.down + Added(s.down, s'.down) && s'.up == s.up + Added(s.up, s'.up)
  {
  }

  // ---- a session that agrees is alone ----

  /** The step of session `k` that reading a frame to the right, or to the left, amounts to. */
  function Arrival(sh: Shared, k: nat, toRight: bool): Action
    requires k < |sh.ends|
  {
    if sh.ends[k].writerLeft == toRight then DeliverDown else DeliverUp
  }

  function Reading(sh: Shared, table: map<nat, nat>, toRight: bool, m: Tagged, k: nat): seq<Action>
    requires k < |sh.ends|
  {
    if m.channel !in table then [Disconnect] else if table[m.channel] == k then [Arrival(sh, k, toRight)] else []
  }

  /** The steps of session `k` that an event amounts to. */
  function Share(sh: Shared, e: Event, k: nat): seq<Action>
    requires Enabled(sh, e) && k < |sh.ends|
  {
    match e
    case Open(_, _, _) => []
    case Local(j, a) => if k == j then [a] else []
    case DeliverRight => Reading(sh, sh.atRight, true, sh.toRight[0], k)
    case DeliverLeft => Reading(sh, sh.atLeft, false, sh.toLeft[0], k)
    case Cut => [Disconnect]
  }

  lemma PostProjects(sh: Shared, j: nat, t: Traced, down: seq<Frame>, up: seq<Frame>, k: nat)
    requires TablesOk(sh) && j < |sh.ends| && k < |sh.ends|
    ensures var now := Project(sh, k);
            Project(Post(sh, j, t, down, up), k) ==
            if k == j then Traced(Session(t.s.w, t.s.r, now.s.down + down, now.s.up + up, sh.open), t.h) else now
  {
    var e := sh.ends[j];
    MineAfter(sh.toRight, e.left, if e.writerLeft then down else up, sh.ends[k].left);
    MineAfter(sh.toLeft, e.right, if e.writerLeft then up else down, sh.ends[k].right);
  }

  lemma LocalProjects(sh: Shared, j: nat, a: Action, k: nat, m: Accounting)
    requires TablesOk(sh) && Enabled(sh, Local(j, a)) && k < |sh.ends|
    ensures Project(Step(sh, Local(j, a), m), k) == if k == j then Next(Project(sh, k), a, m) else Project(sh, k)
  {
    var t := Project(sh, j);
    var t' := Next(t, a, m);
    LocalAppends(t.s, a, m);
    PostProjects(sh, j, t', Added(t.s.down, t'.s.down), Added(t.s.up, t'.s.up), k);
  }

  lemma MineRest(link: seq<Tagged>, c: nat)
    requires link != []
    ensures Mine(link, c) == (if link[0].channel == c then [link[0].f] else []) + Mine(link[1..], c)
    ensures link[0].channel == c ==> Mine(link, c)[1..] == Mine(link[1..], c)
  {
  }

  lemma RightProjects(sh: Shared, k: nat, m: Accounting)
    requires TablesOk(sh) && Enabled(sh, DeliverRight) && k < |sh.ends| && Agrees(sh, k)
    requires sh.toRight[0].channel in sh.atRight
    ensures k < |Step(sh, DeliverRight, m).ends|
    ensures Project(Step(sh, DeliverRight, m), k) ==
            if sh.atRight[sh.toRight[0].channel] == k then Next(Project(sh, k), Arrival(sh, k, true), m)
            else Project(sh, k)
  {
    MineRest(sh.toRight, sh.ends[k].left);
  }

  lemma LeftProjects(sh: Shared, k: nat, m: Accounting)
    requires TablesOk(sh) && Enabled(sh, DeliverLeft) && k < |sh.ends| && Agrees(sh, k)
    requires sh.toLeft[0].channel in sh.atLeft
    ensures k < |Step(sh, DeliverLeft, m).ends|
    ensures Project(Step(sh, DeliverLeft, m), k) ==
            if sh.atLeft[sh.toLeft[0].channel] == k then Next(Project(sh, k), Arrival(sh, k, false), m)
            else Project(sh, k)
  {
    MineRest(sh.toLeft, sh.ends[k].right);
  }

  lemma LostProjects(sh: Shared, k: nat, m: Accounting)
    requires k < |sh.ends|
    ensures Project(Lost(sh), k) == Next(Project(sh, k), Disconnect, m)
  {
  }

  /** Each event of the shared connection is, for a session that agrees, exactly its share of it: its own calls,
      the frames of its other end, and the loss of the connection. Frames of other sessions never reach it, even
      of sessions that do not agree. */
  lemma EventProjects(sh: Shared, e: Event, k: nat, m: Accounting)
    requires TablesOk(sh) && Enabled(sh, e) && k < |sh.ends| && Agrees(sh, k)
    ensures k < |Step(sh, e, m).ends|
    ensures Project(Step(sh, e, m), k) == Steps(Project(sh, k), Share(sh, e, k), m)
  {
    if Share(sh, e, k) != [] {
      assert Share(sh, e, k)[1..] == [];
    }
    match e
    case Local(j, a) => LocalProjects(sh, j, a, k, m);
    case DeliverRight =>
      if sh.toRight[0].channel in sh.atRight { RightProjects(sh, k, m); } else { LostProjects(sh, k, m); }
    case DeliverLeft =>
      if sh.toLeft[0].channel in sh.atLeft { LeftProjects(sh, k, m); } else { LostProjects(sh, k, m); }
    case Cut => LostProjects(sh, k, m);
    case Open(_, _, _) =>
  }

  // ---- runs ----

  predicate Legal(sh: Shared, es: seq<Event>, m: Accounting)
    decreases |es|
  {
    es != [] ==> Enabled(sh, es[0]) && Legal(Step(sh, es[0], m), es[1..], m)
  }

  function After(sh: Shared, es: seq<Event>, m: Accounting): Shared
    requires Legal(sh, es, m)
    decreases |es|
  {
    if es == [] then sh else After(Step(sh, es[0], m), es[1..], m)
  }

  /** A session has made exactly the steps of some run of a session alone. */
  ghost predicate Alone(sh: Shared, k: nat, m: Accounting)
    requires k < |sh.ends|
  {
    exists acts :: Project(sh, k) == Run(acts, m)
  }

  ghost predicate AllAlone(sh: Shared, m: Accounting) {
    forall k :: 0 <= k < |sh.ends| && Agrees(sh, k) ==> Alone(sh, k, m)
  }

  lemma AloneStep(sh: Shared, e: Event, k: nat, m: Accounting)
    requires TablesOk(sh) && Enabled(sh, e) && k < |sh.ends| && Agrees(sh, k) && Alone(sh, k, m)
    ensures k < |Step(sh, e, m).ends| && Alone(Step(sh, e, m), k, m)
  {
    var acts :| Project(sh, k) == Run(acts, m);
    EventProjects(sh, e, k, m);
    StepsConcat(START, acts, Share(sh, e, k), m);
    assert Project(Step(sh, e, m), k) == Run(acts + Share(sh, e, k), m);
  }

  lemma OpenedAlone(sh: Shared, e: Event, m: Accounting)
    requires Known(sh) && Enabled(sh, e) && e.Open?
    ensures |Step(sh, e, m).ends| == |sh.ends| + 1 && Alone(Step(sh, e, m), |sh.ends|, m)
  {
    MineOfUnknown(sh.toRight, e.left);
    MineOfUnknown(sh.toLeft, e.right);
    assert Project(Step(sh, e, m), |sh.ends|) == Run([], m);
  }

  lemma OnlyOpenAdds(sh: Shared, e: Event, m: Accounting)
    requires Enabled(sh, e) && !e.Open?
    ensures |Step(sh, e, m).ends| == |sh.ends|
  {
  }

  lemma AllAloneStep(sh: Shared, e: Event, m: Accounting)
    requires TablesOk(sh) && Known(sh) && Enabled(sh, e) && AllAlone(sh, m)
    ensures AllAlone(Step(sh, e, m), m)
  {
    var next := Step(sh, e, m);
    TablesStep(sh, e, m);
    if e.Open? { OpenedAlone(sh, e, m); } else { OnlyOpenAdds(sh, e, m); }
    forall k | 0 <= k < |next.ends| && Agrees(next, k) ensures Alone(next, k, m) {
      if k < |sh.ends| {
        assert Agrees(sh, k);
        AloneStep(sh, e, k, m);
      }
    }
  }

  lemma {:induction false} AloneAfter(sh: Shared, es: seq<Event>, m: Accounting)
    requires TablesOk(sh) && Known(sh) && Legal(sh, es, m) && AllAlone(sh, m)
    ensures AllAlone(After(sh, es, m), m)
    decreases |es|
  {
    if es != [] {
      TablesStep(sh, es[0], m);
      AllAloneStep(sh, es[0], m);
      AloneAfter(Step(sh, es[0], m), es[1..], m);
    }
  }

  /** Sharing a connection changes nothing for a session that has the same number at both ends: whatever the other
      sessions do, in either direction, it is in a state of a run of its own. */
  lemma SharingIsHarmless(es: seq<Event>, k: nat, m: Accounting)
    requires Legal(NOTHING, es, m) && k < |After(NOTHING, es, m).ends| && Agrees(After(NOTHING, es, m), k)
    ensures exists acts :: Project(After(NOTHING, es, m), k) == Run(acts, m)
  {
    AloneAfter(NOTHING, es, m);
    assert Alone(After(NOTHING, es, m), k, m);
  }

  /** So it delivers byte for byte and conserves its credit. */
  lemma SharedDelivery(es: seq<Event>, k: nat)
    requires Legal(NOTHING, es, AsWritten) && k < |After(NOTHING, es, AsWritten).ends|
    requires Agrees(After(NOTHING, es, AsWritten), k)
    ensures var t := Project(After(NOTHING, es, AsWritten), k);
            && (t.s.open ==> t.h.read + t.s.r.ch.buf + R.Data(t.s.down) == t.h.written)
            && t.h.read + t.s.r.ch.buf <= t.h.written
            && t.s.r.quotaRem + |t.h.read| == QUOTA_SIZE + t.h.issued
            && t.s.w.quotaRem + t.h.spent == QUOTA_SIZE + t.h.seen
  {
    SharingIsHarmless(es, k, AsWritten);
    var acts :| Project(After(NOTHING, es, AsWritten), k) == Run(acts, AsWritten);
    R.ByteExactDelivery(acts, AsWritten);
    R.CreditConservation(acts);
  }

  /** And it is not starved by the others: a writer that would wait has something of its own session on its way. */
  lemma SharedNoDeadlock(es: seq<Event>, k: nat, m: Accounting)
    requires Legal(NOTHING, es, m) && k < |After(NOTHING, es, m).ends| && Agrees(After(NOTHING, es, m), k)
    requires var t := Project(After(NOTHING, es, m), k); R.ErrorFree(t) && R.WouldBlock(t.s)
    ensures R.CreditOnTheWay(Project(After(NOTHING, es, m), k).s)
  {
    SharingIsHarmless(es, k, m);
    var acts :| Project(After(NOTHING, es, m), k) == Run(acts, m);
    R.NoCreditDeadlock(acts, m);
  }
}
