/** `reqCallbackController` with its map and waiters. Every method takes one step of `CallbackModel`; the
    preconditions of `Send` and `Close` are what would block or panic in the source. */
module Callbacks {
  import opened Numbers
  import opened Correlations
  import opened Wrappers
  import C = CallbackModel

  /** `cbWaiter`: a channel with room for one callback, and the timer of the request. */
  class Waiter {
    var slot: Option<C.Callback>
    var closed: bool
    var timerStopped: bool
    const ignUnitClose: bool

    constructor (ignUnitClose: bool)
      ensures Open() && this.ignUnitClose == ignUnitClose
    {
      this.slot, this.closed, this.timerStopped, this.ignUnitClose := None, false, false, ignUnitClose;
    }

    /** Empty open channel, running timer. */
    predicate Open()
      reads this
    {
      slot == None && !closed && !timerStopped
    }

    /** The callback is there, no other can follow, the timer is off. */
    predicate Completed(cb: C.Callback)
      reads this
    {
      slot == Some(cb) && closed && timerStopped
    }

    /** Sending into a full channel would block, into a closed one would panic. */
    method Send(cb: C.Callback)
      requires slot == None && !closed
      modifies this`slot
      ensures slot == Some(cb)
    {
      slot := Some(cb);
    }

    method Close()
      requires !closed
      modifies this`closed
      ensures closed
    {
      closed := true;
    }

    method Complete(cb: C.Callback)
      requires Open()
      modifies this
      ensures Completed(cb)
    {
      Send(cb);
      Close();
      timerStopped := true;
    }
  }

  class Controller {
    var m: map<nat, Waiter>
    const ch: CorrelationSource
    ghost var model: C.State

    /** Every waiter in the map is open, and no two share a channel. */
    ghost predicate Valid()
      reads this, ch, m.Values
    {
      && ch.Valid() && ch.produced == model.taken
      && m.Keys == model.m.Keys
      && (forall c :: c in m ==>
            && model.m[c] in model.reqs && model.m[c] <= model.taken
            && m[c].ignUnitClose == model.reqs[model.m[c]].ignUnitClose)
      && (forall c :: c in m ==> m[c].Open())
      && (forall c, d :: c in m && d in m && c != d ==> m[c] != m[d])
    }

    constructor ()
      ensures Valid() && model == C.FRESH && fresh(ch)
    {
      m := map[];
      ch := new CorrelationSource();
      model := C.FRESH;
    }

    /** `prepare` up to `time.AfterFunc`: the timer runs before the waiter is in the map. */
    method Begin(ignUnitClose: bool) returns (corr: nat, w: Waiter)
      requires Valid()
      modifies this`model, ch
      ensures Valid() && model == C.Step(old(model), C.Begin(ignUnitClose))
      ensures corr == Nth(model.taken)
      ensures fresh(w) && w.Open() && w.ignUnitClose == ignUnitClose
    {
      w := new Waiter(ignUnitClose);
      corr := ch.Next();
      model := C.Step(model, C.Begin(ignUnitClose));
    }

    /** The rest of `prepare`, for the request of rank `k`: the entry it writes is free. */
    method Register(corr: nat, w: Waiter, ghost k: nat)
      requires Valid() && C.Sound(model) && C.InWindow(model) && C.Enabled(model, C.Register(k))
      requires corr == Nth(k) && model.reqs[k].ignUnitClose == w.ignUnitClose
      requires w.Open() && w !in m.Values
      modifies this`m, this`model
      ensures Valid() && model == C.Step(old(model), C.Register(k))
      ensures corr !in old(m) && m == old(m)[corr := w]
    {
      C.RegistrationFree(model, k);
      m := m[corr := w];
      model := C.Step(model, C.Register(k));
    }

    /** `respond`: neither the send nor the close can fail, and only the one waiter is touched. */
    method Respond(corr: nat, cb: C.Callback)
      requires Valid()
      modifies this`m, this`model, if corr in m then {m[corr]} else {}
      ensures Valid() && model == C.Respond(old(model), corr, cb)
      ensures m == old(m) - {corr}
      ensures corr in old(m) ==> old(m)[corr].Completed(cb)
    {
      if corr !in m {
        assert m == m - {corr};
        return;
      }
      m[corr].Complete(cb);
      m := m - {corr};
      model := C.Respond(model, corr, cb);
    }

    /** The function the timer of request `k` runs. */
    method Fire(corr: nat, ghost k: nat)
      requires Valid() && C.Enabled(model, C.Fire(k)) && corr == Nth(k)
      modifies this`m, this`model, if corr in m then {m[corr]} else {}
      ensures Valid() && model == C.Step(old(model), C.Fire(k))
      ensures m == old(m) - {corr}
      ensures corr in old(m) ==> old(m)[corr].Completed(C.FromTimer)
    {
      ghost var r := model.reqs[k];
      model := model.(reqs := model.reqs[k := if r.registered then r.(late := true) else r.(early := true)]);
      Respond(corr, C.FromTimer);
    }

    /** What is left of the map `m0`; the waiter of `followed`, if it has gone, was completed by the closing. */
    ghost predicate Left(m0: map<nat, Waiter>, followed: nat)
      reads this, m0.Values
    {
      && (forall c :: c in m ==> c in m0 && m[c] == m0[c])
      && (forall c, d :: c in m0 && d in m0 && c != d ==> m0[c] != m0[d])
      && (followed in m0 && followed !in m ==> m0[followed].Completed(C.FromClose))
    }

    /** One turn of the loop of `onClose`; `false` is its `break`. */
    method Visit(corr: nat, ghost m0: map<nat, Waiter>, ghost followed: nat) returns (goOn: bool)
      requires Valid() && Left(m0, followed)
      modifies this`m, this`model, m0.Values
      ensures Valid() && Left(m0, followed)
      ensures goOn <==> !(corr in old(model.m) && old(model.reqs[model.m[corr]].ignUnitClose))
      ensures model == if goOn then C.Respond(old(model), corr, C.FromClose) else old(model)
    {
      if corr in m && m[corr].ignUnitClose {
        return false;
      }
      Respond(corr, C.FromClose);
      return true;
    }

    /** `onClose`, with the order in which the map happens to be visited. `followed` stands for any correlation
        whose waiter one wants to follow. */
    method OnClose(order: seq<nat>, ghost followed: nat)
      requires Valid()
      modifies this`m, this`model, m.Values
      ensures Valid() && model == C.ShutAll(old(model), order)
      ensures followed in old(m) && followed !in m ==> old(m)[followed].Completed(C.FromClose)
      ensures forall c :: c in m ==> c in old(m) && m[c] == old(m)[c]
      ensures old(C.Sound(model) && C.InWindow(model)) ==>
                forall c :: c in old(m) ==> (c in m <==> !C.Passed(old(model), order, c))
    {
      if C.Sound(model) && C.InWindow(model) {
        C.ShutIs(model, order);
        assert forall c :: c in model.m ==> C.ShutFate(model, C.ShutAll(model, order), order, c);
      }
      for i := 0 to |order|
        invariant Valid() && Left(old(m), followed)
        invariant C.ShutAll(model, order[i..]) == C.ShutAll(old(model), order)
      {
        assert order[i..][1..] == order[i + 1..];
        var goOn := Visit(order[i], old(m), followed);
        if !goOn {
          C.ShutStops(model, order[i..]);
          return;
        }
      }
    }
  }
}
