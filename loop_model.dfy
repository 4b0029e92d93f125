/**
 * The registration bookkeeping of React's libev event loop (class
 * React\EventLoop\LibEvLoop), as a state machine over values.
 *
 * The native libev loop is abstracted to the set of watcher objects that have
 * been added to it and not yet stopped or removed (`native`). Watcher objects
 * (`\libev\IOEvent`, `\libev\TimerEvent`) and `Timer` objects are named by the
 * order in which they were created: `watchers[e]` is what watcher `e` was
 * created with, `timerObjects[t]` what timer `t` was created with.
 *
 * A user callback is an opaque name. What a callback does during one
 * invocation is given as the sequence of loop calls it makes (`seq<Call>`).
 */
module LoopModel {

  /** `(int)$stream`: the integer id of a PHP stream resource, the key of both stream tables. */
  type StreamId = int

  /** A libev watcher object, named by the order of its creation. */
  type EventId = nat

  /** A `Timer` object, named by the order of its creation. */
  type TimerId = nat

  /** A PHP callable supplied by the user; only its identity matters here. */
  type Callback = nat

  /** A timer interval; libev measures time, the loop only passes the value on. */
  type Seconds = real

  datatype Option<T> = None | Some(value: T)

  /** The two kinds of stream interest (`\libev\IOEvent::READ` and `::WRITE`). */
  datatype Interest = Read | Write {
    function Other(): (o: Interest)
      ensures o != this
    {
      if this == Read then Write else Read
    }
  }

  /** What a libev watcher object was created with. */
  datatype Watcher =
    | IoWatcher(stream: StreamId, interest: Interest, listener: Callback)
    | TimerWatcher(timer: TimerId, after: Seconds, repeat: Option<Seconds>)

  /** What a `Timer` object was created with. */
  datatype Timer = Timer(interval: Seconds, callback: Callback, periodic: bool)

  /** A call that user code (a listener or a timer callback) makes on the loop. */
  datatype Call =
    | AddRead(stream: StreamId, listener: Callback)
    | AddWrite(stream: StreamId, listener: Callback)
    | RemoveRead(stream: StreamId)
    | RemoveWrite(stream: StreamId)
    | RemoveBoth(stream: StreamId)
    | AddOneShot(interval: Seconds, callback: Callback)
    | AddPeriodic(interval: Seconds, callback: Callback)
    | Cancel(timer: TimerId)

  /** The end of a sequence of calls: the new state, or the PHP fatal error
      raised by calling `stop()` on the missing entry of a stream table. */
  datatype Outcome = Done(state: LoopState) | Fatal

  /** A call into user code made by a wrapped callback. */
  datatype Invocation =
    | ListenerCall(listener: Callback, stream: StreamId)
    | TimerCall(callback: Callback, timer: TimerId)

  /** What a watcher firing does: the resulting state, and the user callback it called, if any. */
  datatype Reaction = Reaction(outcome: Outcome, call: Option<Invocation>)

  datatype LoopState = LoopState(
    readEvents: map<StreamId, EventId>,
    writeEvents: map<StreamId, EventId>,
    timers: map<TimerId, EventId>,
    native: set<EventId>,
    watchers: seq<Watcher>,
    timerObjects: seq<Timer>)
  {
    /** The stream table for one interest. */
    function Table(i: Interest): map<StreamId, EventId> {
      if i == Read then readEvents else writeEvents
    }

    /** `e` is an armed IO watcher for `stream` with interest `i`. */
    predicate IoEntry(e: EventId, stream: StreamId, i: Interest) {
      && e in native
      && e < |watchers|
      && watchers[e].IoWatcher?
      && watchers[e].stream == stream
      && watchers[e].interest == i
    }

    /** `e` is the armed libev timer that `setupTimer` built for timer `t`. */
    predicate TimerEntry(e: EventId, t: TimerId) {
      && t < |timerObjects|
      && e in native
      && e < |watchers|
      && watchers[e] == TimerWatcherFor(t, timerObjects[t])
    }

    /** `e` is armed, but no stream table refers to it any more. */
    predicate Leaked(e: EventId) {
      && e in native
      && e < |watchers|
      && watchers[e].IoWatcher?
      && (forall s :: s in readEvents ==> readEvents[s] != e)
      && (forall s :: s in writeEvents ==> writeEvents[s] != e)
    }

    /**
     * The invariant the loop keeps: every table entry names an armed watcher
     * made for it, and every armed libev timer belongs to a tracked timer.
     * Armed IO watchers that no table names (leaked by re-registration) are
     * allowed.
     */
    predicate Valid() {
      && (forall e :: e in native ==> e < |watchers|)
      && (forall s :: s in readEvents ==> IoEntry(readEvents[s], s, Read))
      && (forall s :: s in writeEvents ==> IoEntry(writeEvents[s], s, Write))
      && (forall t :: t in timers ==> TimerEntry(timers[t], t))
      && (forall e :: e in native && e < |watchers| && watchers[e].TimerWatcher? ==>
            watchers[e].timer in timers && timers[watchers[e].timer] == e)
    }
  }

  /** The libev timer `setupTimer` creates for a timer: one-shot timers get no repeat. */
  function TimerWatcherFor(t: TimerId, timer: Timer): (w: Watcher)
    ensures w.TimerWatcher? && w.timer == t && w.after == timer.interval
    ensures w.repeat.Some? <==> timer.periodic
    ensures w.repeat.Some? ==> w.repeat.value == timer.interval
  {
    TimerWatcher(t, timer.interval, if timer.periodic then Some(timer.interval) else None)
  }

  /** A freshly constructed loop. */
  function Empty(): (r: LoopState)
    ensures r.Valid()
    ensures r.readEvents == map[] && r.writeEvents == map[] && r.timers == map[] && r.native == {}
  {
    LoopState(map[], map[], map[], {}, [], [])
  }

  /**
   * `addStream`: a new IO watcher is created around the wrapped listener and
   * added to the native loop, and the table of its interest maps the stream to
   * it. An earlier entry for the same stream is overwritten, not stopped.
   */
  function AddStream(st: LoopState, stream: StreamId, i: Interest, listener: Callback): (r: LoopState)
    ensures |r.watchers| == |st.watchers| + 1 && r.watchers[..|st.watchers|] == st.watchers
    ensures r.watchers[|st.watchers|] == IoWatcher(stream, i, listener)
    ensures r.native == st.native + {|st.watchers|}
    ensures r.Table(i) == st.Table(i)[stream := |st.watchers|]
    ensures r.Table(i.Other()) == st.Table(i.Other())
    ensures r.timers == st.timers && r.timerObjects == st.timerObjects
    ensures st.Valid() ==> |st.watchers| !in st.native && r.Valid()
  {
    var e := |st.watchers|;
    var armed := st.(watchers := st.watchers + [IoWatcher(stream, i, listener)], native := st.native + {e});
    if i == Read then armed.(readEvents := st.readEvents[stream := e])
    else armed.(writeEvents := st.writeEvents[stream := e])
  }

  /**
   * `removeReadStream` (i == Read) and `removeWriteStream` (i == Write): the
   * watcher the table names is stopped and the entry is unset. Both methods
   * index the table unchecked, so the entry must exist.
   */
  function Unregister(st: LoopState, stream: StreamId, i: Interest): (r: LoopState)
    requires stream in st.Table(i)
    ensures r.Table(i) == st.Table(i) - {stream}
    ensures r.native == st.native - {st.Table(i)[stream]}
    ensures r.Table(i.Other()) == st.Table(i.Other())
    ensures r.timers == st.timers && r.watchers == st.watchers && r.timerObjects == st.timerObjects
    ensures st.Valid() ==> r.Valid()
  {
    var stopped := st.(native := st.native - {st.Table(i)[stream]});
    if i == Read then stopped.(readEvents := st.readEvents - {stream})
    else stopped.(writeEvents := st.writeEvents - {stream})
  }

  /** The watchers the two stream tables name for one stream. */
  function StreamEvents(st: LoopState, stream: StreamId): set<EventId> {
    (if stream in st.readEvents then {st.readEvents[stream]} else {})
    + (if stream in st.writeEvents then {st.writeEvents[stream]} else {})
  }

  /** `removeStream`: each interest is unregistered only if it is registered; it never fails. */
  function RemoveStream(st: LoopState, stream: StreamId): (r: LoopState)
    ensures stream !in r.readEvents && stream !in r.writeEvents
    ensures r.readEvents == st.readEvents - {stream} && r.writeEvents == st.writeEvents - {stream}
    ensures r.native == st.native - StreamEvents(st, stream)
    ensures r.timers == st.timers && r.watchers == st.watchers && r.timerObjects == st.timerObjects
    ensures st.Valid() ==> r.Valid()
  {
    var afterRead := if stream in st.readEvents then Unregister(st, stream, Read) else st;
    if stream in afterRead.writeEvents then Unregister(afterRead, stream, Write) else afterRead
  }

  /**
   * `setupTimer`: a libev timer is created for timer `t` (with repeat equal
   * to the interval only when `t` is periodic), attached to `t` in the timer
   * storage and added to the native loop. Its only callers pass a timer they
   * have just created.
   */
  function SetupTimer(st: LoopState, t: TimerId): (r: LoopState)
    requires t < |st.timerObjects| && t !in st.timers
    ensures |r.watchers| == |st.watchers| + 1 && r.watchers[..|st.watchers|] == st.watchers
    ensures r.watchers[|st.watchers|] == TimerWatcherFor(t, st.timerObjects[t])
    ensures r.timers == st.timers[t := |st.watchers|]
    ensures r.native == st.native + {|st.watchers|}
    ensures r.readEvents == st.readEvents && r.writeEvents == st.writeEvents
    ensures r.timerObjects == st.timerObjects
    ensures st.Valid() ==> |st.watchers| !in st.native && r.Valid()
  {
    var e := |st.watchers|;
    st.(watchers := st.watchers + [TimerWatcherFor(t, st.timerObjects[t])],
        timers := st.timers[t := e],
        native := st.native + {e})
  }

  /**
   * `addTimer` (periodic == false) and `addPeriodicTimer` (periodic == true):
   * a new `Timer` is created and set up; the new timer is returned. A new
   * object is never already in the timer storage (Valid states guarantee it).
   */
  function AddTimer(st: LoopState, interval: Seconds, callback: Callback, periodic: bool): (r: (LoopState, TimerId))
    requires |st.timerObjects| !in st.timers
    ensures r.1 == |st.timerObjects| && r.1 !in st.timers
    ensures r.0.timerObjects == st.timerObjects + [Timer(interval, callback, periodic)]
    ensures r.0.timers == st.timers[r.1 := |st.watchers|]
    ensures r.0.native == st.native + {|st.watchers|}
    ensures |r.0.watchers| == |st.watchers| + 1 && r.0.watchers[..|st.watchers|] == st.watchers
    ensures r.0.watchers[|st.watchers|] == TimerWatcher(r.1, interval, if periodic then Some(interval) else None)
    ensures r.0.readEvents == st.readEvents && r.0.writeEvents == st.writeEvents
    ensures st.Valid() ==> |st.watchers| !in st.native && r.0.Valid()
  {
    var t := |st.timerObjects|;
    (SetupTimer(st.(timerObjects := st.timerObjects + [Timer(interval, callback, periodic)]), t), t)
  }

  /**
   * `cancelTimer`: a tracked timer's libev timer is removed from the native
   * loop and the timer is detached; an untracked timer is ignored.
   */
  function CancelTimer(st: LoopState, t: TimerId): (r: LoopState)
    ensures t !in r.timers
    ensures t in st.timers ==> r.timers == st.timers - {t} && r.native == st.native - {st.timers[t]}
    ensures t !in st.timers ==> r == st
    ensures r.readEvents == st.readEvents && r.writeEvents == st.writeEvents
    ensures r.watchers == st.watchers && r.timerObjects == st.timerObjects
    ensures st.Valid() ==> r.Valid()
    ensures st.Valid() ==> forall e :: e in r.native && e < |r.watchers| && r.watchers[e].TimerWatcher? ==> r.watchers[e].timer != t
  {
    if t in st.timers then st.(native := st.native - {st.timers[t]}, timers := st.timers - {t})
    else st
  }

  /** One call made by user code, with the effect of the loop method it calls. */
  function Apply(st: LoopState, c: Call): (r: Outcome)
    requires st.Valid()
    ensures r.Fatal? <==> (c.RemoveRead? && c.stream !in st.readEvents) || (c.RemoveWrite? && c.stream !in st.writeEvents)
    ensures r.Done? ==> r.state.Valid()
    ensures r.Done? ==> st.timerObjects <= r.state.timerObjects && st.watchers <= r.state.watchers
    ensures r.Done? && !c.Cancel? ==> forall t :: t in st.timers ==> t in r.state.timers && r.state.timers[t] == st.timers[t]
    ensures r.Done? && c.Cancel? ==> forall t :: t in st.timers && t != c.timer ==> t in r.state.timers && r.state.timers[t] == st.timers[t]
    ensures r.Done? ==> r.state.timers.Keys <= st.timers.Keys + {|st.timerObjects|}
    ensures r.Done? ==> forall e :: e in r.state.native && e < |st.watchers| ==> e in st.native
  {
    match c
    case AddRead(s, l) => Done(AddStream(st, s, Read, l))
    case AddWrite(s, l) => Done(AddStream(st, s, Write, l))
    case RemoveRead(s) => if s in st.readEvents then Done(Unregister(st, s, Read)) else Fatal
    case RemoveWrite(s) => if s in st.writeEvents then Done(Unregister(st, s, Write)) else Fatal
    case RemoveBoth(s) => Done(RemoveStream(st, s))
    case AddOneShot(iv, cb) => Done(AddTimer(st, iv, cb, false).0)
    case AddPeriodic(iv, cb) => Done(AddTimer(st, iv, cb, true).0)
    case Cancel(t) => Done(CancelTimer(st, t))
  }

  /** A sequence of calls made by user code, in order; the first fatal error ends it. */
  function Run(st: LoopState, calls: seq<Call>): (r: Outcome)
    requires st.Valid()
    ensures r.Done? ==> r.state.Valid()
    ensures r.Done? ==> st.timerObjects <= r.state.timerObjects && st.watchers <= r.state.watchers
    decreases |calls|
  {
    if calls == [] then Done(st)
    else
      match Apply(st, calls[0])
      case Fatal => Fatal
      case Done(next) => Run(next, calls[1..])
  }

  /**
   * The closure `wrapStreamListener` builds, run by libev when armed IO
   * watcher `e` is ready. `eof` is whether `feof($stream)` holds at that
   * moment; `calls` is what the user listener does if it is invoked. At end of
   * stream the closure removes the registration of the watcher's interest
   * (through removeReadStream/removeWriteStream, which fault on a missing
   * entry) and does not invoke the listener; otherwise it invokes the listener
   * with the stream and does nothing else.
   */
  function OnStreamReady(st: LoopState, e: EventId, eof: bool, calls: seq<Call>): (r: Reaction)
    requires st.Valid() && e in st.native && st.watchers[e].IoWatcher?
    ensures eof ==> r.call == None
    ensures !eof ==> r.call == Some(ListenerCall(st.watchers[e].listener, st.watchers[e].stream))
    ensures !eof ==> r.outcome == Run(st, calls)
    ensures var w := st.watchers[e];
      eof ==> (r.outcome.Done? <==> w.stream in st.Table(w.interest))
    ensures var w := st.watchers[e];
      eof && r.outcome.Done? ==>
        && w.stream !in r.outcome.state.Table(w.interest)
        && r.outcome.state.Table(w.interest) == st.Table(w.interest) - {w.stream}
        && r.outcome.state.native == st.native - {st.Table(w.interest)[w.stream]}
        && r.outcome.state.Table(w.interest.Other()) == st.Table(w.interest.Other())
        && r.outcome.state.timers == st.timers
        && r.outcome.state.watchers == st.watchers && r.outcome.state.timerObjects == st.timerObjects
    ensures r.outcome.Done? ==> r.outcome.state.Valid()
  {
    var w := st.watchers[e];
    if eof then
      Reaction(if w.stream in st.Table(w.interest) then Done(Unregister(st, w.stream, w.interest)) else Fatal, None)
    else
      Reaction(Run(st, calls), Some(ListenerCall(w.listener, w.stream)))
  }

  /**
   * The closure `setupTimer` installs on the libev timer `e` of timer `t`:
   * it invokes the timer's callback with `t` (`calls` is what the callback
   * does), and then cancels `t` if it is not periodic. `Timer::cancel` is
   * taken to delegate to `cancelTimer`.
   */
  function OnTimerExpired(st: LoopState, e: EventId, calls: seq<Call>): (r: Reaction)
    requires st.Valid() && e in st.native && st.watchers[e].TimerWatcher?
    ensures var t := st.watchers[e].timer;
      && t in st.timers && st.timers[t] == e
      && r.call == Some(TimerCall(st.timerObjects[t].callback, t))
    ensures r.outcome.Fatal? <==> Run(st, calls).Fatal?
    ensures r.outcome.Done? ==> r.outcome.state.Valid()
    ensures var t := st.watchers[e].timer;
      st.timerObjects[t].periodic ==> r.outcome == Run(st, calls)
    ensures var t := st.watchers[e].timer;
      !st.timerObjects[t].periodic && r.outcome.Done? ==>
        t !in r.outcome.state.timers && r.outcome.state == CancelTimer(Run(st, calls).state, t)
  {
    var t := st.watchers[e].timer;
    var timer := st.timerObjects[t];
    var after := Run(st, calls);
    var outcome := if after.Done? && !timer.periodic then Done(CancelTimer(after.state, t)) else after;
    Reaction(outcome, Some(TimerCall(timer.callback, t)))
  }

  /** One thing that can happen to the loop: a call from outside, or libev running an armed watcher. */
  datatype Step =
    | UserCall(call: Call)
    | StreamReady(event: EventId, eof: bool, calls: seq<Call>)
    | TimerExpired(event: EventId, calls: seq<Call>)

  /** The user callbacks invoked along a run of steps, and how the run ended. */
  datatype History = History(outcome: Outcome, invoked: seq<Invocation>)

  /**
   * One step. libev runs only watchers that are armed, so a firing step for a
   * watcher that is not armed (or not of that kind) runs no closure.
   */
  function StepReaction(st: LoopState, step: Step): (r: Reaction)
    requires st.Valid()
    ensures r.outcome.Done? ==> r.outcome.state.Valid()
    ensures r.outcome.Done? ==> st.timerObjects <= r.outcome.state.timerObjects && st.watchers <= r.outcome.state.watchers
    ensures step.StreamReady? && !(step.event in st.native && st.watchers[step.event].IoWatcher?) ==> r == Reaction(Done(st), None)
    ensures step.TimerExpired? && !(step.event in st.native && st.watchers[step.event].TimerWatcher?) ==> r == Reaction(Done(st), None)
  {
    match step
    case UserCall(c) => Reaction(Apply(st, c), None)
    case StreamReady(e, eof, calls) =>
      if e in st.native && st.watchers[e].IoWatcher? then OnStreamReady(st, e, eof, calls) else Reaction(Done(st), None)
    case TimerExpired(e, calls) =>
      if e in st.native && st.watchers[e].TimerWatcher? then OnTimerExpired(st, e, calls) else Reaction(Done(st), None)
  }

  /** A run of steps, in order; the first fatal error ends it. */
  function Trace(st: LoopState, steps: seq<Step>): (h: History)
    requires st.Valid()
    ensures h.outcome.Done? ==> h.outcome.state.Valid()
    ensures h.outcome.Done? ==> st.timerObjects <= h.outcome.state.timerObjects && st.watchers <= h.outcome.state.watchers
    ensures |h.invoked| <= |steps|
    decreases |steps|
  {
    if steps == [] then History(Done(st), [])
    else
      var r := StepReaction(st, steps[0]);
      var first := if r.call.Some? then [r.call.value] else [];
      match r.outcome
      case Fatal => History(Fatal, first)
      case Done(next) =>
        var rest := Trace(next, steps[1..]);
        History(rest.outcome, first + rest.invoked)
  }
}
