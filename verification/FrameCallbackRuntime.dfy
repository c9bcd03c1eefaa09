/** The callback lists as the compositor mutates them, surface by surface. */
module FrameCallbackRuntime {
  import opened Common
  import opened DrawOrder
  import opened FrameCallbacks

  class CallbackLists {
    var order: seq<SurfaceId>
    var lists: map<SurfaceId, Lists>
    var log: seq<Event>
    ghost var born: set<SurfaceId>
    ghost var used: set<CallbackId>
    ghost var history: seq<Step>

    ghost function Abstract(): State
      reads this
    {
      State(order, lists, born, used, log)
    }

    ghost predicate Valid()
      reads this
    {
      Abstract() == Exec(history)
    }

    constructor ()
      ensures Valid() && history == []
    {
      order, lists, log, born, used, history := [], map[], [], {}, {}, [];
    }

    lemma Recorded(before: State, steps: seq<Step>, step: Step)
      requires before == Exec(steps) && Abstract() == Apply(before, step)
      ensures Abstract() == Exec(steps + [step])
    {
      assert (steps + [step])[..|steps + [step]| - 1] == steps;
    }

    method CreateSurface(s: SurfaceId)
      requires Valid() && s !in born
      modifies this
      ensures Valid() && history == old(history) + [NewSurface(s)]
    {
      order := [s] + order;
      born := born + {s};
      lists := lists[s := Lists([], [], [], [], [])];
      Recorded(old(Abstract()), history, NewSurface(s));
      history := history + [NewSurface(s)];
    }

    /** surface_frame: append to the pending list. */
    method RequestFrame(s: SurfaceId, cb: CallbackId)
      requires Valid() && s in lists && cb !in used
      modifies this
      ensures Valid() && history == old(history) + [Frame(s, cb)]
    {
      var x := lists[s];
      lists := lists[s := x.(pending := x.pending + [cb], requested := x.requested + [cb])];
      used := used + {cb};
      log := log + [Requested(s, cb)];
      Recorded(old(Abstract()), history, Frame(s, cb));
      history := history + [Frame(s, cb)];
    }

    /** The callback part of trierarch_surface_commit; tells whether to ask for a repaint. */
    method CommitCallbacks(s: SurfaceId) returns (committed: bool)
      requires Valid() && s in lists
      modifies this
      ensures Valid() && history == old(history) + [Commit(s)]
      ensures committed <==> old(lists)[s].pending != []
    {
      committed := false;
      var x := lists[s];
      if x.pending != [] {
        lists := lists[s := x.(committed := x.committed + x.pending, pending := [])];
        committed := true;
      } else {
        assert x.committed + x.pending == x.committed;
        assert lists == lists[s := x.(committed := x.committed + x.pending, pending := [])];
      }
      log := log + [Committed(s)];
      Recorded(old(Abstract()), history, Commit(s));
      history := history + [Commit(s)];
    }

    /** frame_callback_destroy: the client's object goes before it was answered. */
    method CancelCallback(s: SurfaceId, cb: CallbackId)
      requires Valid() && s in lists && cb in lists[s].requested && cb !in lists[s].done
      modifies this
      ensures Valid() && history == old(history) + [Cancel(s, cb)]
    {
      var x := lists[s];
      lists := lists[s := x.(pending := Except(x.pending, cb), committed := Except(x.committed, cb),
                             presented := Except(x.presented, cb), requested := Except(x.requested, cb))];
      log := log + [Cancelled(s, cb)];
      Recorded(old(Abstract()), history, Cancel(s, cb));
      history := history + [Cancel(s, cb)];
    }

    /** The callback part of surface_resource_destroy: nothing on the three lists is answered. */
    method DestroySurfaceCallbacks(s: SurfaceId)
      requires Valid()
      modifies this
      ensures Valid() && history == old(history) + [DestroySurface(s)]
    {
      order := Except(order, s);
      lists := lists - {s};
      Recorded(old(Abstract()), history, DestroySurface(s));
      history := history + [DestroySurface(s)];
    }

    /** The list of surfaces names every surface once. */
    ghost predicate Listed()
      reads this
    {
      NoDup(order) && forall s :: s in order <==> s in lists
    }

    /** The first i surfaces of the list are as in `goal`, the others as in `start`. */
    ghost predicate Upto(i: nat, start: map<SurfaceId, Lists>, goal: map<SurfaceId, Lists>)
      reads this
      requires i <= |order|
    {
      && lists.Keys == start.Keys == goal.Keys
      && (forall j :: 0 <= j < |order| ==> order[j] in lists)
      && (forall j :: 0 <= j < i ==> lists[order[j]] == goal[order[j]])
      && (forall j :: i <= j < |order| ==> lists[order[j]] == start[order[j]])
    }

    /** One turn of a loop over the surfaces. */
    method Put(i: nat, x: Lists, ghost start: map<SurfaceId, Lists>, ghost goal: map<SurfaceId, Lists>)
      requires i < |order| && Listed() && Upto(i, start, goal) && x == goal[order[i]]
      modifies this`lists
      ensures Listed() && Upto(i + 1, start, goal)
    {
      lists := lists[order[i] := x];
    }

    lemma AllPut(start: map<SurfaceId, Lists>, goal: map<SurfaceId, Lists>)
      requires Listed() && Upto(|order|, start, goal)
      ensures lists == goal
    {
      forall s | s in lists
        ensures lists[s] == goal[s]
      {
        var j :| 0 <= j < |order| && order[j] == s;
      }
    }

    /** One turn of the latching loop. */
    method LatchOne(i: nat, visible: bool, ghost start: map<SurfaceId, Lists>, ghost goal: map<SurfaceId, Lists>)
      requires i < |order| && Listed() && Upto(i, start, goal)
      requires goal[order[i]] == if visible then Latched(start[order[i]]) else start[order[i]]
      modifies this`lists
      ensures Listed() && Upto(i + 1, start, goal)
    {
      var x := lists[order[i]];
      if visible && x.committed != [] {
        Put(i, Latched(x), start, goal);
      } else {
        assert x.committed == [] ==> x.presented + x.committed == x.presented;
        Put(i, x, start, goal);
      }
    }

    /** trierarch_surface_latch_frame_callbacks */
    method LatchAll(sc: Scene, ghost depth: map<SurfaceId, nat>, ghost bound: nat)
      requires Forest(sc, depth, bound) && sc.surfaces.Keys == lists.Keys && Listed()
      modifies this`lists
      ensures Listed() && lists == Latch(old(lists), Participants(old(Abstract()), sc, depth, bound))
    {
      ghost var start := lists;
      ghost var goal := Latch(lists, Participants(Abstract(), sc, depth, bound));
      var i := 0;
      while i < |order|
        invariant 0 <= i <= |order| && Listed() && Upto(i, start, goal)
      {
        var visible := ParticipatesInOutput(sc, order[i], depth, bound);
        LatchOne(i, visible, start, goal);
        i := i + 1;
      }
      AllPut(start, goal);
    }

    /** trierarch_surface_requeue_frame_callbacks */
    method RequeueAll()
      requires Listed()
      modifies this`lists
      ensures Listed() && lists == Requeue(old(lists))
    {
      ghost var start, goal := lists, Requeue(lists);
      var i := 0;
      while i < |order|
        invariant 0 <= i <= |order| && Listed() && Upto(i, start, goal)
      {
        var x := lists[order[i]];
        if x.presented != [] {
          Put(i, Requeued(x), start, goal);
        } else {
          assert x.committed + x.presented == x.committed;
          Put(i, x, start, goal);
        }
        i := i + 1;
      }
      AllPut(start, goal);
    }

    /** The first `i` surfaces are done with; `base` is the log the loop started from. */
    ghost predicate Sending(i: nat, start: map<SurfaceId, Lists>, base: seq<Event>)
      reads this
    {
      && i <= |order| && Listed() && Upto(i, start, Send(start))
      && log + AllDone(start, order[i..]) == base + AllDone(start, order)
    }

    /** One turn of the sending loop. */
    method SendOne(i: nat, ghost start: map<SurfaceId, Lists>, ghost base: seq<Event>)
      requires i < |order| && Sending(i, start, base)
      modifies this`lists, this`log
      ensures Sending(i + 1, start, base)
    {
      var x := lists[order[i]];
      DoneNext(start, order, i, log);
      log := log + DoneEvents(order[i], x.presented);
      Put(i, Sent(x), start, Send(start));
    }

    /** trierarch_surface_send_frame_callbacks */
    method SendAll()
      requires Listed()
      modifies this`lists, this`log
      ensures Listed() && lists == Send(old(lists))
      ensures log == old(log) + AllDone(old(lists), order)
    {
      ghost var start, base := lists, log;
      assert order[0..] == order;
      var i := 0;
      while i < |order|
        invariant Sending(i, start, base)
      {
        SendOne(i, start, base);
        i := i + 1;
      }
      AllPut(start, Send(start));
    }

    method LatchAndFinish(sc: Scene, outcome: Outcome, ghost depth: map<SurfaceId, nat>, ghost bound: nat)
      requires Forest(sc, depth, bound) && sc.surfaces.Keys == lists.Keys && Listed()
      modifies this`lists, this`log
      ensures Abstract() == ApplyRender(old(Abstract()), sc, depth, bound, outcome)
    {
      if outcome.NotCurrent? {
        return;
      }
      var drawn := Compose(sc, depth, bound);
      LatchAll(sc, depth, bound);
      if outcome.SwapFailed? {
        RequeueAll();
      } else {
        log := log + [Swap(drawn)];
        SendAll();
      }
    }

    /** The callback part of trierarch_renderer_render. */
    method RenderCallbacks(sc: Scene, outcome: Outcome, ghost depth: map<SurfaceId, nat>, ghost bound: nat)
      requires Valid() && Forest(sc, depth, bound) && sc.order == order
      modifies this
      ensures Valid() && history == old(history) + [Render(sc, depth, bound, outcome)]
    {
      SceneListed(sc, depth, bound);
      LatchAndFinish(sc, outcome, depth, bound);
      RenderStep(old(Abstract()), sc, depth, bound, outcome);
      Recorded(old(Abstract()), history, Render(sc, depth, bound, outcome));
      history := history + [Render(sc, depth, bound, outcome)];
    }

    lemma SceneListed(sc: Scene, depth: map<SurfaceId, nat>, bound: nat)
      requires Valid() && Forest(sc, depth, bound) && sc.order == order
      ensures Listed() && sc.surfaces.Keys == lists.Keys
    {
      RunKeeps(history);
      assert forall s :: s in sc.surfaces <==> s in order;
    }
  }

  lemma {:induction false} RenderStep(st: State, sc: Scene, depth: map<SurfaceId, nat>, bound: nat, outcome: Outcome)
    requires Forest(sc, depth, bound) && sc.order == st.order
    ensures Apply(st, Render(sc, depth, bound, outcome)) == ApplyRender(st, sc, depth, bound, outcome)
  {
  }

  lemma {:induction false} DoneNext(lists: map<SurfaceId, Lists>, order: seq<SurfaceId>, i: nat, log: seq<Event>)
    requires i < |order| && order[i] in lists
    ensures log + AllDone(lists, order[i..])
         == log + DoneEvents(order[i], lists[order[i]].presented) + AllDone(lists, order[i + 1..])
  {
    assert order[i..][1..] == order[i + 1..];
  }
}
