/** The authentication handshake between two honest peers over two FIFO links: every interleaving ends, and
    both sides succeed or both fail. HMAC (section 2 of RFC 2104) is any function of key and challenge. */
module Handshake {
  import opened Wrappers

  datatype Key = Key(id: string, key: string)

  type Mac = (string, string) -> string

  /** What a peer brings: its preshared keys in local order, and the challenge it generated. */
  datatype Config = Config(keys: seq<Key>, challenge: string)

  /** `Closed` stands for the close that follows a failed handshake: the reader gets an error. */
  datatype Msg =
    | Challenge(challenge: string, ids: seq<string>)
    | Response(proof: string, id: string)
    | Confirmed
    | PeerError
    | Closed
    | Unknown       // any other first byte

  // ---- computing and checking proofs ----

  function Ids(keys: seq<Key>): (ids: seq<string>)
    ensures |ids| == |keys| && forall i :: 0 <= i < |keys| ==> ids[i] == keys[i].id
  {
    if keys == [] then [] else [keys[0].id] + Ids(keys[1..])
  }

  /** The first of `keys`, in local order, whose id is among `ids`. */
  function FirstCommon(keys: seq<Key>, ids: seq<string>): Option<Key> {
    if keys == [] then None else if keys[0].id in ids then Some(keys[0]) else FirstCommon(keys[1..], ids)
  }

  /** The first entry for an id. */
  function FirstFor(keys: seq<Key>, id: string): Option<Key> {
    FirstCommon(keys, [id])
  }

  function ProcessChallenge(mac: Mac, keys: seq<Key>, challenge: string, ids: seq<string>): Option<Msg> {
    match FirstCommon(keys, ids)
    case None => None
    case Some(k) => Some(Response(mac(k.key, challenge), k.id))
  }

  predicate Verified(mac: Mac, keys: seq<Key>, challenge: string, proof: string, id: string) {
    FirstFor(keys, id).Some? && mac(FirstFor(keys, id).value.key, challenge) == proof
  }

  /** `prover` convinces `verifier`: the prover's first common key and the verifier's first entry for its id
      give the same proof of the verifier's challenge. */
  predicate Proves(mac: Mac, prover: Config, verifier: Config) {
    var k := FirstCommon(prover.keys, Ids(verifier.keys));
    && k.Some?
    && FirstFor(verifier.keys, k.value.id).Some?
    && mac(k.value.key, verifier.challenge) == mac(FirstFor(verifier.keys, k.value.id).value.key, verifier.challenge)
  }

  lemma {:induction false} FirstCommonIsFirst(keys: seq<Key>, ids: seq<string>)
    ensures FirstCommon(keys, ids) == None <==> forall i :: 0 <= i < |keys| ==> keys[i].id !in ids
    ensures FirstCommon(keys, ids).Some? ==>
              exists i :: 0 <= i < |keys| && keys[i] == FirstCommon(keys, ids).value && keys[i].id in ids
                          && forall j :: 0 <= j < i ==> keys[j].id !in ids
  {
    if keys != [] && keys[0].id !in ids {
      FirstCommonIsFirst(keys[1..], ids);
      if FirstCommon(keys, ids).Some? {
        var i :| 0 <= i < |keys[1..]| && keys[1..][i] == FirstCommon(keys, ids).value && keys[1..][i].id in ids
                 && forall j :: 0 <= j < i ==> keys[1..][j].id !in ids;
        assert keys[i + 1] == keys[1..][i];
        assert forall j :: 0 <= j < i + 1 ==> keys[j].id !in ids by {
          forall j | 0 < j < i + 1 ensures keys[j].id !in ids {
            assert keys[j] == keys[1..][j - 1];
          }
        }
      }
      assert forall i :: 0 < i < |keys| ==> keys[i] == keys[1..][i - 1];
    }
  }

  /** A key added later never displaces one: it is chosen, or looked up, only where no earlier key would be. */
  lemma {:induction false} AddedKeyComesLast(keys: seq<Key>, added: Key, ids: seq<string>)
    ensures FirstCommon(keys + [added], ids) ==
            if FirstCommon(keys, ids).Some? then FirstCommon(keys, ids)
            else if added.id in ids then Some(added) else None
    decreases |keys|
  {
    if keys == [] {
      assert keys + [added] == [added] && [added][1..] == [];
    } else {
      AddedKeyComesLast(keys[1..], added, ids);
      assert (keys + [added])[0] == keys[0] && (keys + [added])[1..] == keys[1..] + [added];
    }
  }

  /** Peers that share one key under one id, and nothing else under that id, convince each other. */
  lemma SharedKeyProves(mac: Mac, prover: Config, verifier: Config, shared: Key)
    requires shared in prover.keys && shared in verifier.keys
    requires forall k :: k in prover.keys && k.id in Ids(verifier.keys) ==> k == shared
    requires forall k :: k in verifier.keys && k.id == shared.id ==> k == shared
    ensures Proves(mac, prover, verifier)
  {
    var ids := Ids(verifier.keys);
    var i :| 0 <= i < |verifier.keys| && verifier.keys[i] == shared;
    assert ids[i] == shared.id;
    FirstCommonIsFirst(prover.keys, ids);
    FirstCommonIsFirst(verifier.keys, [shared.id]);
  }

  // ---- one side ----

  datatype Status = Starting | Reading | Succeeded | Failed

  /** `sent`: everything this side has written, in order. `got`: how much of the other side's it has read. */
  datatype End = End(status: Status, confirmedIn: bool, confirmedOut: bool, sent: seq<Msg>, got: nat)

  const IDLE := End(Starting, false, false, [], 0)

  function Send(e: End, m: Msg): End {
    e.(sent := e.sent + [m])
  }

  /** A failed handshake closes the connection. */
  function Fail(e: End): End {
    Send(e, Closed).(status := Failed)
  }

  function SucceedIfConfirmed(e: End): End {
    if e.confirmedIn && e.confirmedOut then e.(status := Succeeded) else e
  }

  /** Up to the loop: with keys, a challenge; without, a confirmation at once. */
  function Opened(e: End, c: Config): End {
    var e1 := e.(status := Reading);
    if c.keys != [] then Send(e1, Challenge(c.challenge, Ids(c.keys)))
    else Send(e1, Confirmed).(confirmedIn := true)
  }

  /** One turn of the loop. */
  function Handle(mac: Mac, e: End, c: Config, m: Msg): (h: End)
    ensures h.got == e.got + 1 && (h.status == Starting ==> e.status == Starting)
  {
    var e1 := e.(got := e.got + 1);
    match m
    case PeerError => Fail(e1)
    case Closed => e1.(status := Failed)
    case Unknown => e1
    case Confirmed => SucceedIfConfirmed(e1.(confirmedOut := true))
    case Challenge(challenge, ids) =>
      (match ProcessChallenge(mac, c.keys, challenge, ids)
       case Some(answer) => Send(e1, answer)
       case None => Fail(e1))
    case Response(proof, id) =>
      if Verified(mac, c.keys, c.challenge, proof, id)
      then SucceedIfConfirmed(Send(e1, Confirmed).(confirmedIn := true))
      else Fail(e1)
  }

  // ---- one side against anybody ----

  /** A proof of the side's own challenge with its first key for that id. */
  predicate ValidProof(mac: Mac, c: Config, proof: string, id: string) {
    exists i :: 0 <= i < |c.keys| && c.keys[i].id == id && mac(c.keys[i].key, c.challenge) == proof
                && forall j :: 0 <= j < i ==> c.keys[j].id != id
  }

  /** A message that ends the handshake in failure. */
  predicate Bad(mac: Mac, c: Config, m: Msg) {
    match m
    case PeerError => true
    case Closed => true
    case Confirmed => false
    case Unknown => false
    case Challenge(_, ids) => forall k :: k in c.keys ==> k.id !in ids
    case Response(proof, id) => !ValidProof(mac, c, proof, id)
  }

  /** What is still missing to trust the other side: its confirmation, and with keys its proof. */
  predicate Convincing(mac: Mac, c: Config, confirmedIn: bool, confirmedOut: bool, msgs: seq<Msg>) {
    && (forall m :: m in msgs ==> !Bad(mac, c, m))
    && (confirmedOut || Confirmed in msgs)
    && (confirmedIn || exists m :: m in msgs && m.Response?)
  }

  ghost predicate ConvincedBy(mac: Mac, c: Config, confirmedIn: bool, confirmedOut: bool, msgs: seq<Msg>) {
    exists n :: 0 <= n <= |msgs| && Convincing(mac, c, confirmedIn, confirmedOut, msgs[..n])
  }

  /** The loop on whatever arrives, from an honest peer or not. */
  function Reads(mac: Mac, e: End, c: Config, msgs: seq<Msg>): End
    decreases |msgs|
  {
    if msgs == [] || e.status != Reading then e else Reads(mac, Handle(mac, e, c, msgs[0]), c, msgs[1..])
  }

  lemma VerifiedIff(mac: Mac, c: Config, proof: string, id: string)
    ensures Verified(mac, c.keys, c.challenge, proof, id) <==> ValidProof(mac, c, proof, id)
  {
    FirstCommonIsFirst(c.keys, [id]);
    if FirstFor(c.keys, id).Some? {
      var i :| 0 <= i < |c.keys| && c.keys[i] == FirstFor(c.keys, id).value && c.keys[i].id in [id]
               && forall j :: 0 <= j < i ==> c.keys[j].id !in [id];
      if ValidProof(mac, c, proof, id) {
        var k :| 0 <= k < |c.keys| && c.keys[k].id == id && mac(c.keys[k].key, c.challenge) == proof
                 && forall j :: 0 <= j < k ==> c.keys[j].id != id;
        assert k == i;
      }
    }
  }

  /** One turn of the loop, by what the message is. */
  lemma HandleIs(mac: Mac, e: End, c: Config, m: Msg)
    requires e.status == Reading && !(e.confirmedIn && e.confirmedOut)
    ensures var h := Handle(mac, e, c, m);
            if Bad(mac, c, m) then h.status == Failed
            else
              && h.confirmedIn == (e.confirmedIn || m.Response?) && h.confirmedOut == (e.confirmedOut || m.Confirmed?)
              && h.status == if h.confirmedIn && h.confirmedOut then Succeeded else Reading
  {
    match m
    case Challenge(_, ids) => FirstCommonIsFirst(c.keys, ids);
    case Response(proof, id) => VerifiedIff(mac, c, proof, id);
    case _ =>
  }

  lemma ConvincingCons(mac: Mac, c: Config, confirmedIn: bool, confirmedOut: bool, first: Msg, rest: seq<Msg>)
    ensures Convincing(mac, c, confirmedIn, confirmedOut, [first] + rest) <==>
            !Bad(mac, c, first)
            && Convincing(mac, c, confirmedIn || first.Response?, confirmedOut || first.Confirmed?, rest)
  {
    var all := [first] + rest;
    assert forall m :: m in all <==> m == first || m in rest;
  }

  lemma ConvincedByRest(mac: Mac, c: Config, confirmedIn: bool, confirmedOut: bool, msgs: seq<Msg>)
    requires msgs != [] && !(confirmedIn && confirmedOut)
    ensures ConvincedBy(mac, c, confirmedIn, confirmedOut, msgs) <==>
            !Bad(mac, c, msgs[0])
            && ConvincedBy(mac, c, confirmedIn || msgs[0].Response?, confirmedOut || msgs[0].Confirmed?, msgs[1..])
  {
    var first, rest := msgs[0], msgs[1..];
    forall n | 0 <= n <= |rest|
      ensures msgs[..n + 1] == [first] + rest[..n]
      ensures Convincing(mac, c, confirmedIn, confirmedOut, msgs[..n + 1]) <==>
              !Bad(mac, c, first)
              && Convincing(mac, c, confirmedIn || first.Response?, confirmedOut || first.Confirmed?, rest[..n])
    {
      assert msgs[..n + 1] == [first] + rest[..n];
      ConvincingCons(mac, c, confirmedIn, confirmedOut, first, rest[..n]);
    }
    if ConvincedBy(mac, c, confirmedIn, confirmedOut, msgs) {
      var n :| 0 <= n <= |msgs| && Convincing(mac, c, confirmedIn, confirmedOut, msgs[..n]);
      assert n > 0;
      assert msgs[..(n - 1) + 1] == msgs[..n];
      assert Convincing(mac, c, confirmedIn || first.Response?, confirmedOut || first.Confirmed?, rest[..n - 1]);
    }
  }

  lemma {:induction false} ReadsIff(mac: Mac, e: End, c: Config, msgs: seq<Msg>)
    requires e.status == Reading && !(e.confirmedIn && e.confirmedOut)
    ensures var x := Reads(mac, e, c, msgs);
            && (x.status == Succeeded <==> ConvincedBy(mac, c, e.confirmedIn, e.confirmedOut, msgs))
            && (x.status == Failed <==> x.status != Succeeded && exists m :: m in msgs && Bad(mac, c, m))
    decreases |msgs|
  {
    if msgs != [] {
      var h := Handle(mac, e, c, msgs[0]);
      HandleIs(mac, e, c, msgs[0]);
      ConvincedByRest(mac, c, e.confirmedIn, e.confirmedOut, msgs);
      assert msgs == [msgs[0]] + msgs[1..];
      if h.status == Reading {
        ReadsIff(mac, h, c, msgs[1..]);
      } else if h.status == Succeeded {
        assert Convincing(mac, c, h.confirmedIn, h.confirmedOut, msgs[1..][..0]);
      }
    }
  }

  /** Against any other side, honest or not, whatever it sends and in whatever order: a peer ends the handshake in
      success exactly when some first messages contain a confirmation and, if it has keys, a response, every such
      response a valid proof of its own challenge, and none of them is an error, a close or a challenge it has no
      key for. It fails exactly when it does not succeed and one of the messages is bad. */
  lemma TrustsIff(mac: Mac, c: Config, msgs: seq<Msg>)
    ensures var x := Reads(mac, Opened(IDLE, c), c, msgs);
            && (x.status == Succeeded <==> ConvincedBy(mac, c, c.keys == [], false, msgs))
            && (x.status == Failed <==> x.status != Succeeded && exists m :: m in msgs && Bad(mac, c, m))
  {
    ReadsIff(mac, Opened(IDLE, c), c, msgs);
  }

  // ---- both sides ----

  datatype Pair = Pair(left: End, right: End)

  /** Which side moves. */
  datatype Side = Left | Right

  const START := Pair(IDLE, IDLE)

  predicate CanMove(x: End, y: End) {
    x.status == Starting || (x.status == Reading && x.got < |y.sent|)
  }

  function Move(mac: Mac, x: End, y: End, c: Config): End
    requires CanMove(x, y)
  {
    if x.status == Starting then Opened(x, c) else Handle(mac, x, c, y.sent[x.got])
  }

  predicate Enabled(p: Pair, s: Side) {
    if s == Left then CanMove(p.left, p.right) else CanMove(p.right, p.left)
  }

  function Step(mac: Mac, p: Pair, s: Side, l: Config, r: Config): Pair {
    if !Enabled(p, s) then p
    else if s == Left then p.(left := Move(mac, p.left, p.right, l))
    else p.(right := Move(mac, p.right, p.left, r))
  }

  function Run(mac: Mac, p: Pair, moves: seq<Side>, l: Config, r: Config): Pair
    decreases |moves|
  {
    if moves == [] then p else Run(mac, Step(mac, p, moves[0], l, r), moves[1..], l, r)
  }

  // ---- what a side looks like after each message ----

  function Opening(c: Config): Msg {
    if c.keys != [] then Challenge(c.challenge, Ids(c.keys)) else Confirmed
  }

  /** What side `c` answers to the challenge of `other`, if it has a common key. */
  function AnswerTo(mac: Mac, c: Config, other: Config): Option<Msg> {
    ProcessChallenge(mac, c.keys, other.challenge, Ids(other.keys))
  }

  /** Every reachable state of side `x`, given what it has read from `y`. */
  ghost predicate Shape(mac: Mac, x: End, c: Config, y: End, other: Config) {
    && x.got <= |y.sent|
    && (x.status == Starting ==> x == IDLE)
    && (x.status != Starting ==> x.sent != [] && x.sent[0] == Opening(c))
    && (x.status != Starting && c.keys == [] ==> ShapeWithoutKeys(x, y, other))
    && (x.status != Starting && c.keys != [] && other.keys == [] ==> ShapeAgainstNoKeys(x, y))
    && (x.status != Starting && c.keys != [] && other.keys != [] ==> ShapeWithKeys(mac, x, c, y, other))
  }

  /** A side without keys succeeds on a confirmation and fails on a challenge. */
  ghost predicate ShapeWithoutKeys(x: End, y: End, other: Config) {
    && x.confirmedIn && x.got <= 1 && (x.confirmedOut <==> x.got == 1 && other.keys == [])
    && (x.got == 0 ==> x.status == Reading && x.sent == [Confirmed])
    && (x.got == 1 && other.keys == [] ==> x.status == Succeeded && x.sent == [Confirmed])
    && (x.got == 1 && other.keys != [] ==> x.status == Failed && x.sent == [Confirmed, Closed])
  }

  /** A side with keys is confirmed at once by a side without, and then waits for proof that never comes. */
  ghost predicate ShapeAgainstNoKeys(x: End, y: End)
    requires x.got <= |y.sent|
  {
    && !x.confirmedIn && x.got <= 2 && |x.sent| == 1
    && (x.got < 2 ==> x.status == Reading)
    && (x.got == 2 ==> x.status == Failed && y.sent[1] == Closed)
  }

  ghost predicate ShapeWithKeys(mac: Mac, x: End, c: Config, y: End, other: Config)
    requires x.got <= |y.sent|
  {
    var answer := AnswerTo(mac, c, other);
    && x.got <= 3 && (x.confirmedIn <==> |x.sent| == 3 && x.sent[2] == Confirmed)
    && (x.confirmedOut <==> x.got == 3 && y.sent[2] == Confirmed)
    && (x.got == 0 ==> x.status == Reading && |x.sent| == 1)
    && (x.got >= 1 && answer == None ==> x.got == 1 && x.status == Failed && |x.sent| == 2 && x.sent[1] == Closed)
    && (x.got == 1 && answer.Some? ==> x.status == Reading && |x.sent| == 2)
    && (x.got >= 1 && answer.Some? ==> |x.sent| >= 2 && x.sent[1] == answer.value)
    && (x.got >= 2 && answer.Some? ==>
          if y.sent[1] == Closed then x.got == 2 && x.status == Failed && |x.sent| == 2
          else
            && |x.sent| == 3
            && (if Proves(mac, other, c) then x.sent[2] == Confirmed && (x.got == 2 ==> x.status == Reading)
                else x.sent[2] == Closed && x.got == 2 && x.status == Failed))
    && (x.got == 3 ==> x.status == (if y.sent[2] == Confirmed then Succeeded else Failed))
  }

  ghost predicate Reachable(mac: Mac, p: Pair, l: Config, r: Config) {
    Shape(mac, p.left, l, p.right, r) && Shape(mac, p.right, r, p.left, l)
  }

  lemma MoveKeepsOwnShape(mac: Mac, x: End, c: Config, y: End, other: Config)
    requires Shape(mac, x, c, y, other) && Shape(mac, y, other, x, c) && CanMove(x, y)
    ensures Shape(mac, Move(mac, x, y, c), c, y, other)
  {
  }

  lemma MoveKeepsOtherShape(mac: Mac, x: End, c: Config, y: End, other: Config)
    requires Shape(mac, x, c, y, other) && Shape(mac, y, other, x, c) && CanMove(x, y)
    ensures Shape(mac, y, other, Move(mac, x, y, c), c)
  {
  }

  lemma ReachableStep(mac: Mac, p: Pair, s: Side, l: Config, r: Config)
    requires Reachable(mac, p, l, r)
    ensures Reachable(mac, Step(mac, p, s, l, r), l, r)
  {
    if Enabled(p, s) {
      if s == Left {
        MoveKeepsOwnShape(mac, p.left, l, p.right, r);
        MoveKeepsOtherShape(mac, p.left, l, p.right, r);
      } else {
        MoveKeepsOwnShape(mac, p.right, r, p.left, l);
        MoveKeepsOtherShape(mac, p.right, r, p.left, l);
      }
    }
  }

  lemma {:induction false} ReachableRun(mac: Mac, p: Pair, moves: seq<Side>, l: Config, r: Config)
    requires Reachable(mac, p, l, r)
    ensures Reachable(mac, Run(mac, p, moves, l, r), l, r)
    decreases |moves|
  {
    if moves != [] {
      ReachableStep(mac, p, moves[0], l, r);
      ReachableRun(mac, Step(mac, p, moves[0], l, r), moves[1..], l, r);
    }
  }

  // ---- agreement ----

  /** The confirmation a successful side has sent is still unread by the other, or has been read. */
  predicate HoldsConfirmation(y: End, x: End) {
    exists i :: 0 <= i < |x.sent| && x.sent[i] == Confirmed && (i < y.got ==> y.confirmedOut)
  }

  /** What the success of `x` says about `y`. */
  ghost predicate SuccessMeans(x: End, y: End) {
    x.status == Succeeded ==>
      && y.confirmedIn && x.confirmedIn && x.confirmedOut
      && y.status != Failed && y.status != Starting
      && HoldsConfirmation(y, x)
      && (y.status == Reading ==> CanMove(y, x))
  }

  lemma ShapeAgrees(mac: Mac, x: End, c: Config, y: End, other: Config)
    requires Shape(mac, x, c, y, other) && Shape(mac, y, other, x, c)
    ensures SuccessMeans(x, y)
  {
    if x.status == Succeeded {
      if c.keys == [] {
        assert x.sent[0] == Confirmed;
      } else {
        assert other.keys != [];
        assert x.sent[2] == Confirmed;
      }
    }
  }

  /** Agreement, in every interleaving: once one side has succeeded the other has verified it, holds or will
      read its confirmation, and has not failed; never does one side succeed and the other fail. */
  lemma Agreement(mac: Mac, moves: seq<Side>, l: Config, r: Config)
    ensures var p := Run(mac, START, moves, l, r);
            && SuccessMeans(p.left, p.right) && SuccessMeans(p.right, p.left)
            && !(p.left.status == Succeeded && p.right.status == Failed)
            && !(p.right.status == Succeeded && p.left.status == Failed)
  {
    ReachableRun(mac, START, moves, l, r);
    var p := Run(mac, START, moves, l, r);
    ShapeAgrees(mac, p.left, l, p.right, r);
    ShapeAgrees(mac, p.right, r, p.left, l);
  }

  lemma {:induction false} RunConcat(mac: Mac, p: Pair, moves: seq<Side>, more: seq<Side>, l: Config, r: Config)
    ensures Run(mac, p, moves + more, l, r) == Run(mac, Run(mac, p, moves, l, r), more, l, r)
    decreases |moves|
  {
    if moves == [] {
      assert [] + more == more;
    } else {
      RunConcat(mac, Step(mac, p, moves[0], l, r), moves[1..], more, l, r);
      assert (moves + more)[1..] == moves[1..] + more;
    }
  }

  lemma {:induction false} StatusIsFinal(mac: Mac, p: Pair, more: seq<Side>, l: Config, r: Config)
    ensures p.left.status == Succeeded ==> Run(mac, p, more, l, r).left.status == Succeeded
    ensures p.right.status == Succeeded ==> Run(mac, p, more, l, r).right.status == Succeeded
    decreases |more|
  {
    if more != [] {
      StatusIsFinal(mac, Step(mac, p, more[0], l, r), more[1..], l, r);
    }
  }

  /** Once one side has succeeded, no continuation makes the other fail. */
  lemma SuccessBindsTheOther(mac: Mac, moves: seq<Side>, more: seq<Side>, l: Config, r: Config)
    ensures var p, p' := Run(mac, START, moves, l, r), Run(mac, START, moves + more, l, r);
            && (p.left.status == Succeeded ==> p'.right.status != Failed)
            && (p.right.status == Succeeded ==> p'.left.status != Failed)
  {
    RunConcat(mac, START, moves, more, l, r);
    StatusIsFinal(mac, Run(mac, START, moves, l, r), more, l, r);
    Agreement(mac, moves + more, l, r);
  }

  // ---- termination and outcome ----

  /** Moves left to a side: its start, and the at most three messages it can still read. */
  function MovesLeft(x: End): int {
    (if x.status == Starting then 1 else 0) + 3 - x.got
  }

  function Measure(p: Pair): int {
    MovesLeft(p.left) + MovesLeft(p.right)
  }

  lemma MeasureBounds(mac: Mac, p: Pair, l: Config, r: Config)
    requires Reachable(mac, p, l, r)
    ensures 0 <= Measure(p) <= 8
  {
  }

  lemma MoveDecreases(mac: Mac, x: End, y: End, c: Config)
    requires CanMove(x, y)
    ensures MovesLeft(Move(mac, x, y, c)) == MovesLeft(x) - 1
  {
  }

  lemma StepDecreases(mac: Mac, p: Pair, s: Side, l: Config, r: Config)
    requires Enabled(p, s)
    ensures Measure(Step(mac, p, s, l, r)) == Measure(p) - 1
  {
    if s == Left {
      MoveDecreases(mac, p.left, p.right, l);
    } else {
      MoveDecreases(mac, p.right, p.left, r);
    }
  }

  /** Every move enabled when it is made. */
  ghost predicate AllEnabled(mac: Mac, p: Pair, moves: seq<Side>, l: Config, r: Config)
    decreases |moves|
  {
    moves != [] ==> Enabled(p, moves[0]) && AllEnabled(mac, Step(mac, p, moves[0], l, r), moves[1..], l, r)
  }

  lemma {:induction false} RunLength(mac: Mac, p: Pair, moves: seq<Side>, l: Config, r: Config)
    requires Reachable(mac, p, l, r) && AllEnabled(mac, p, moves, l, r)
    ensures |moves| <= Measure(p)
    decreases |moves|
  {
    MeasureBounds(mac, p, l, r);
    if moves != [] {
      StepDecreases(mac, p, moves[0], l, r);
      ReachableStep(mac, p, moves[0], l, r);
      RunLength(mac, Step(mac, p, moves[0], l, r), moves[1..], l, r);
    }
  }

  /** Termination: no run makes more than eight moves. */
  lemma RunsAreFinite(mac: Mac, moves: seq<Side>, l: Config, r: Config)
    requires AllEnabled(mac, START, moves, l, r)
    ensures |moves| <= 8
  {
    RunLength(mac, START, moves, l, r);
  }

  /** When the handshake succeeds. */
  predicate Matching(mac: Mac, l: Config, r: Config) {
    || (l.keys == [] && r.keys == [])
    || (l.keys != [] && r.keys != [] && Proves(mac, l, r) && Proves(mac, r, l))
  }

  /** Having a common id is mutual. */
  lemma CommonIsMutual(c: Config, other: Config)
    ensures FirstCommon(c.keys, Ids(other.keys)) == None ==> FirstCommon(other.keys, Ids(c.keys)) == None
  {
    FirstCommonIsFirst(c.keys, Ids(other.keys));
    FirstCommonIsFirst(other.keys, Ids(c.keys));
    if FirstCommon(other.keys, Ids(c.keys)).Some? {
      var i :| 0 <= i < |other.keys| && other.keys[i].id in Ids(c.keys);
      var j :| 0 <= j < |c.keys| && Ids(c.keys)[j] == other.keys[i].id;
      assert Ids(other.keys)[i] == c.keys[j].id;
    }
  }

  lemma StuckOutcome(mac: Mac, x: End, c: Config, y: End, other: Config)
    requires Shape(mac, x, c, y, other) && Shape(mac, y, other, x, c)
    requires !CanMove(x, y) && !CanMove(y, x)
    ensures x.status == if Matching(mac, c, other) then Succeeded else Failed
  {
    CommonIsMutual(c, other);
    CommonIsMutual(other, c);
  }

  /** Outcome: when neither side can move any more, both have succeeded if neither has keys, or if both have
      and each convinces the other; otherwise both have failed. */
  lemma Outcome(mac: Mac, moves: seq<Side>, l: Config, r: Config)
    requires var p := Run(mac, START, moves, l, r); !Enabled(p, Left) && !Enabled(p, Right)
    ensures var p := Run(mac, START, moves, l, r);
            p.left.status == p.right.status == if Matching(mac, l, r) then Succeeded else Failed
  {
    ReachableRun(mac, START, moves, l, r);
    var p := Run(mac, START, moves, l, r);
    StuckOutcome(mac, p.left, l, p.right, r);
    StuckOutcome(mac, p.right, r, p.left, l);
  }

  /** Where the code and its readme differ: a peer without keys approves any other, yet the handshake with a
      peer that has keys always fails, at both ends. */
  lemma KeylessPeerIsRefused(mac: Mac, moves: seq<Side>, l: Config, r: Config)
    requires (l.keys == []) != (r.keys == [])
    requires var p := Run(mac, START, moves, l, r); !Enabled(p, Left) && !Enabled(p, Right)
    ensures var p := Run(mac, START, moves, l, r); p.left.status == p.right.status == Failed
  {
    Outcome(mac, moves, l, r);
  }

  // ---- the code ----

  class Peer {
    var presharedKeys: seq<Key>
    const mac: Mac

    constructor (mac: Mac)
      ensures presharedKeys == [] && this.mac == mac
    {
      presharedKeys, this.mac := [], mac;
    }

    /** A peer goes on answering and judging with the keys it had; the added one only serves where none of them
        does. */
    method AddKey(id: string, key: string)
      modifies this
      ensures presharedKeys == old(presharedKeys) + [Key(id, key)]
      ensures forall ids :: FirstCommon(presharedKeys, ids) ==
                if old(FirstCommon(presharedKeys, ids)).Some? then old(FirstCommon(presharedKeys, ids))
                else if id in ids then Some(Key(id, key)) else None
    {
      ghost var keys := presharedKeys;
      var added := Key(id, key);
      presharedKeys := presharedKeys + [added];
      forall ids
        ensures FirstCommon(presharedKeys, ids) ==
                if FirstCommon(keys, ids).Some? then FirstCommon(keys, ids)
                else if id in ids then Some(added) else None
      {
        AddedKeyComesLast(keys, added, ids);
      }
    }

    /** `generateChallengeWithIds`, with the random challenge given. */
    method GenerateChallengeWithIds(challenge: string) returns (msg: Msg)
      ensures msg == Challenge(challenge, Ids(presharedKeys))
    {
      var ids: seq<string> := [];
      for i := 0 to |presharedKeys|
        invariant |ids| == i && forall j :: 0 <= j < i ==> ids[j] == presharedKeys[j].id
      {
        ids := ids + [presharedKeys[i].id];
      }
      assert ids == Ids(presharedKeys);
      return Challenge(challenge, ids);
    }

    method ProcessChallengeMsg(challenge: string, ids: seq<string>) returns (answer: Option<Msg>)
      ensures answer == ProcessChallenge(mac, presharedKeys, challenge, ids)
    {
      for i := 0 to |presharedKeys|
        invariant FirstCommon(presharedKeys, ids) == FirstCommon(presharedKeys[i..], ids)
      {
        var preshared := presharedKeys[i];
        assert presharedKeys[i..][1..] == presharedKeys[i + 1..];
        for j := 0 to |ids|
          invariant preshared.id !in ids[..j]
        {
          if ids[j] == preshared.id {
            return Some(Response(mac(preshared.key, challenge), ids[j]));
          }
        }
        assert ids[..|ids|] == ids;
      }
      return None;
    }

    method VerifyResponse(challenge: string, proof: string, id: string) returns (ok: bool)
      ensures ok <==> Verified(mac, presharedKeys, challenge, proof, id)
    {
      for i := 0 to |presharedKeys|
        invariant FirstFor(presharedKeys, id) == FirstFor(presharedKeys[i..], id)
      {
        assert presharedKeys[i..][1..] == presharedKeys[i + 1..];
        if presharedKeys[i].id == id {
          return mac(presharedKeys[i].key, challenge) == proof;
        }
      }
      return false;
    }
  }

  /** `startAuthWSHandshake` between two reads of the connection. */
  class Session {
    const peer: Peer
    const challenge: string
    var status: Status
    var confirmedIn: bool
    var confirmedOut: bool
    var sent: seq<Msg>
    var got: nat

    ghost function View(): End
      reads this
    {
      End(status, confirmedIn, confirmedOut, sent, got)
    }

    ghost function Cfg(): Config
      reads this, peer
    {
      Config(peer.presharedKeys, challenge)
    }

    constructor (peer: Peer, challenge: string)
      ensures this.peer == peer && this.challenge == challenge && View() == IDLE
    {
      this.peer, this.challenge := peer, challenge;
      status, confirmedIn, confirmedOut, sent, got := Starting, false, false, [], 0;
    }

    method Begin()
      requires status == Starting
      modifies this
      ensures View() == Opened(old(View()), Cfg())
    {
      status := Reading;
      if |peer.presharedKeys| > 0 {
        var msg := peer.GenerateChallengeWithIds(challenge);
        sent := sent + [msg];
      } else {
        confirmedIn := true;
        sent := sent + [Confirmed];
      }
    }

    method HandleMessage(m: Msg)
      requires status == Reading
      modifies this
      ensures View() == Handle(peer.mac, old(View()), Cfg(), m)
    {
      got := got + 1;
      match m
      case PeerError =>
        Close();
      case Closed =>
        status := Failed;
      case Unknown =>
      case Confirmed =>
        confirmedOut := true;
        if confirmedIn && confirmedOut {
          status := Succeeded;
        }
      case Challenge(theirs, ids) =>
        var proof := peer.ProcessChallengeMsg(theirs, ids);
        if proof.None? {
          Close();
        } else {
          sent := sent + [proof.value];
        }
      case Response(proof, id) =>
        var ok := peer.VerifyResponse(challenge, proof, id);
        if !ok {
          Close();
        } else {
          confirmedIn := true;
          sent := sent + [Confirmed];
          if confirmedIn && confirmedOut {
            status := Succeeded;
          }
        }
    }

    method Close()
      modifies this
      ensures View() == Fail(old(View()))
    {
      status := Failed;
      sent := sent + [Closed];
    }
  }
}
