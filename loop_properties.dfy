/**
 * Properties of the registration bookkeeping that relate several steps of
 * the loop: re-registration, removal, end of stream, and the life of timers.
 */
module LoopProperties {
  import opened LoopModel

  /**
   * Adding the same (stream, interest) twice leaves one table entry, the
   * second watcher; the first watcher stays armed although no table names it.
   */
  lemma ReAddLeaks(st: LoopState, s: StreamId, i: Interest, l1: Callback, l2: Callback)
    requires st.Valid()
    ensures var first := |st.watchers|;
      var st2 := AddStream(AddStream(st, s, i, l1), s, i, l2);
      && st2.Table(i) == st.Table(i)[s := first + 1]
      && first in st2.native && first + 1 in st2.native
      && st2.Leaked(first)
  {
  }

  /**
   * The leaked watcher keeps its wrapped listener: when it sees end of stream
   * it unregisters the NEWER watcher of the same (stream, interest) and stays
   * armed itself; at the next end of stream it finds no entry and PHP raises
   * a fatal error.
   */
  lemma LeakedWatcherRemovesNewer(st: LoopState, s: StreamId, i: Interest, l1: Callback, l2: Callback, calls: seq<Call>)
    requires st.Valid()
    ensures var first := |st.watchers|;
      var st2 := AddStream(AddStream(st, s, i, l1), s, i, l2);
      var r := OnStreamReady(st2, first, true, calls);
      && r.outcome.Done?
      && s !in r.outcome.state.Table(i)
      && first + 1 !in r.outcome.state.native
      && first in r.outcome.state.native
      && OnStreamReady(r.outcome.state, first, true, calls).outcome == Fatal
  {
  }

  /** Adding and then removing a (stream, interest) leaves the armed set as it was. */
  lemma AddThenRemoveDisarms(st: LoopState, s: StreamId, i: Interest, l: Callback)
    requires st.Valid()
    ensures var st1 := AddStream(st, s, i, l);
      var st2 := Unregister(st1, s, i);
      && |st.watchers| !in st2.native
      && st2.native == st.native
      && st2.Table(i) == st.Table(i) - {s}
  {
  }

  /**
   * A stream registered for reading that is at end of stream at its first
   * notification never reaches its listener and is no longer registered.
   */
  lemma EofBeforeDataSkipsListener(st: LoopState, s: StreamId, l: Callback, calls: seq<Call>)
    requires st.Valid()
    ensures var st1 := AddStream(st, s, Read, l);
      var r := OnStreamReady(st1, |st.watchers|, true, calls);
      && r.call == None
      && r.outcome.Done?
      && s !in r.outcome.state.readEvents
      && r.outcome.state.native == st.native
  {
  }

  /** Removing a stream twice is the same as removing it once. */
  lemma RemoveStreamIdempotent(st: LoopState, s: StreamId)
    ensures RemoveStream(RemoveStream(st, s), s) == RemoveStream(st, s)
  {
  }

  /** Cancelling a timer twice is the same as cancelling it once. */
  lemma CancelTimerIdempotent(st: LoopState, t: TimerId)
    ensures CancelTimer(CancelTimer(st, t), t) == CancelTimer(st, t)
  {
  }

  /** User code that never cancels `t` leaves `t` attached to the same libev timer. */
  lemma {:induction false} RunKeepsTimer(st: LoopState, calls: seq<Call>, t: TimerId)
    requires st.Valid() && t in st.timers
    requires forall k :: 0 <= k < |calls| ==> calls[k] != Cancel(t)
    requires Run(st, calls).Done?
    ensures t in Run(st, calls).state.timers && Run(st, calls).state.timers[t] == st.timers[t]
    decreases |calls|
  {
    if calls != [] {
      var next := Apply(st, calls[0]).state;
      assert t in next.timers && next.timers[t] == st.timers[t];
      assert forall k :: 0 <= k < |calls[1..]| ==> calls[1..][k] == calls[k + 1];
      RunKeepsTimer(next, calls[1..], t);
    }
  }

  /**
   * A timer that was created and is no longer tracked is never tracked again,
   * and no armed libev timer belongs to it.
   */
  lemma {:induction false} CancelledStaysCancelled(st: LoopState, calls: seq<Call>, t: TimerId)
    requires st.Valid() && t < |st.timerObjects| && t !in st.timers
    requires Run(st, calls).Done?
    ensures var r := Run(st, calls).state;
      && t !in r.timers
      && forall e :: e in r.native && e < |r.watchers| && r.watchers[e].TimerWatcher? ==> r.watchers[e].timer != t
    decreases |calls|
  {
    if calls != [] {
      var next := Apply(st, calls[0]).state;
      CancelledStaysCancelled(next, calls[1..], t);
    }
  }

  /** User code that cancels a created timer `t` at any point leaves it cancelled. */
  lemma {:induction false} CancelInRunSticks(st: LoopState, calls: seq<Call>, t: TimerId)
    requires st.Valid() && t < |st.timerObjects|
    requires Cancel(t) in calls
    requires Run(st, calls).Done?
    ensures var r := Run(st, calls).state;
      && t !in r.timers
      && forall e :: e in r.native && e < |r.watchers| && r.watchers[e].TimerWatcher? ==> r.watchers[e].timer != t
    decreases |calls|
  {
    var next := Apply(st, calls[0]).state;
    if calls[0] == Cancel(t) {
      CancelledStaysCancelled(next, calls[1..], t);
    } else {
      assert Cancel(t) in calls[1..];
      CancelInRunSticks(next, calls[1..], t);
    }
  }

  /**
   * A one-shot timer fires once: after its firing closure it is no longer
   * tracked, no armed libev timer belongs to it, and cancelling it is a no-op.
   */
  lemma OneShotFiresOnce(st: LoopState, e: EventId, calls: seq<Call>)
    requires st.Valid() && e in st.native && st.watchers[e].TimerWatcher?
    requires !st.timerObjects[st.watchers[e].timer].periodic
    requires OnTimerExpired(st, e, calls).outcome.Done?
    ensures var t := st.watchers[e].timer;
      var r := OnTimerExpired(st, e, calls).outcome.state;
      && t !in r.timers
      && e !in r.native
      && (forall e' :: e' in r.native && e' < |r.watchers| && r.watchers[e'].TimerWatcher? ==> r.watchers[e'].timer != t)
      && CancelTimer(r, t) == r
  {
  }

  /** A periodic timer whose callback does not cancel it stays attached to its armed libev timer. */
  lemma PeriodicStaysArmed(st: LoopState, e: EventId, calls: seq<Call>)
    requires st.Valid() && e in st.native && st.watchers[e].TimerWatcher?
    requires st.timerObjects[st.watchers[e].timer].periodic
    requires forall k :: 0 <= k < |calls| ==> calls[k] != Cancel(st.watchers[e].timer)
    requires OnTimerExpired(st, e, calls).outcome.Done?
    ensures var t := st.watchers[e].timer;
      var r := OnTimerExpired(st, e, calls).outcome.state;
      t in r.timers && r.timers[t] == e && e in r.native
  {
    RunKeepsTimer(st, calls, st.watchers[e].timer);
  }

  /**
   * A periodic timer that cancels itself from its own callback is no longer
   * tracked afterwards and has no armed libev timer: it cannot fire again.
   */
  lemma PeriodicSelfCancelStops(st: LoopState, e: EventId, calls: seq<Call>)
    requires st.Valid() && e in st.native && st.watchers[e].TimerWatcher?
    requires st.timerObjects[st.watchers[e].timer].periodic
    requires Cancel(st.watchers[e].timer) in calls
    requires OnTimerExpired(st, e, calls).outcome.Done?
    ensures var t := st.watchers[e].timer;
      var r := OnTimerExpired(st, e, calls).outcome.state;
      && t !in r.timers
      && e !in r.native
      && forall e' :: e' in r.native && e' < |r.watchers| && r.watchers[e'].TimerWatcher? ==> r.watchers[e'].timer != t
  {
    var t := st.watchers[e].timer;
    CancelInRunSticks(st, calls, t);
    assert Run(st, calls).state.watchers[e] == st.watchers[e];
  }

  /**
   * A loop whose only registration is a one-shot timer has nothing registered
   * and nothing armed once that timer has fired (with a callback that does
   * nothing to the loop).
   */
  lemma LoneOneShotLeavesLoopEmpty(interval: Seconds, callback: Callback)
    ensures var st := AddTimer(Empty(), interval, callback, false).0;
      var r := OnTimerExpired(st, 0, []);
      && r.call == Some(TimerCall(callback, 0))
      && r.outcome.Done?
      && r.outcome.state.readEvents == map[] && r.outcome.state.writeEvents == map[]
      && r.outcome.state.timers == map[] && r.outcome.state.native == {}
  {
  }

  /** User code never re-arms a watcher that has been stopped or removed. */
  lemma {:induction false} DisarmedStaysDisarmed(st: LoopState, calls: seq<Call>, e: EventId)
    requires st.Valid() && e < |st.watchers| && e !in st.native
    requires Run(st, calls).Done?
    ensures e !in Run(st, calls).state.native
    decreases |calls|
  {
    if calls != [] {
      DisarmedStaysDisarmed(Apply(st, calls[0]).state, calls[1..], e);
    }
  }

  /**
   * Whatever happens to the loop afterwards (calls from outside, libev
   * running watchers), a stopped or removed watcher stays disarmed, so its
   * closure never runs again.
   */
  lemma {:induction false} TraceKeepsDisarmed(st: LoopState, steps: seq<Step>, e: EventId)
    requires st.Valid() && e < |st.watchers| && e !in st.native
    requires Trace(st, steps).outcome.Done?
    ensures e !in Trace(st, steps).outcome.state.native
    decreases |steps|
  {
    if steps != [] {
      var r := StepReaction(st, steps[0]);
      var next := r.outcome.state;
      match steps[0] {
        case UserCall(c) =>
        case StreamReady(e', eof, calls) =>
          if e' in st.native && st.watchers[e'].IoWatcher? && !eof && r.outcome.Done? {
            DisarmedStaysDisarmed(st, calls, e);
          }
        case TimerExpired(e', calls) =>
          if e' in st.native && st.watchers[e'].TimerWatcher? && Run(st, calls).Done? {
            DisarmedStaysDisarmed(st, calls, e);
          }
      }
      if r.outcome.Done? {
        TraceKeepsDisarmed(next, steps[1..], e);
      }
    }
  }

  /**
   * A created timer that is no longer tracked (cancelled, or a one-shot timer
   * that has fired) is never tracked again and its callback is never invoked
   * again, whatever happens to the loop afterwards.
   */
  lemma {:induction false} CancelledNeverFires(st: LoopState, steps: seq<Step>, t: TimerId)
    requires st.Valid() && t < |st.timerObjects| && t !in st.timers
    ensures var h := Trace(st, steps);
      && (h.outcome.Done? ==> t !in h.outcome.state.timers)
      && forall k :: 0 <= k < |h.invoked| ==> !(h.invoked[k].TimerCall? && h.invoked[k].timer == t)
    decreases |steps|
  {
    if steps != [] {
      var r := StepReaction(st, steps[0]);
      match steps[0] {
        case UserCall(c) =>
        case StreamReady(e', eof, calls) =>
          if e' in st.native && st.watchers[e'].IoWatcher? && !eof && r.outcome.Done? {
            CancelledStaysCancelled(st, calls, t);
          }
        case TimerExpired(e', calls) =>
          if e' in st.native && st.watchers[e'].TimerWatcher? && Run(st, calls).Done? {
            CancelledStaysCancelled(st, calls, t);
          }
      }
      if r.outcome.Done? {
        CancelledNeverFires(r.outcome.state, steps[1..], t);
      }
    }
  }
}
