/**
 * React\EventLoop\LibEvLoop: the loop object whose methods update its
 * registration tables in place. Each method is proved against the
 * transition of LoopModel that it implements.
 */
module EventLoop {
  import opened LoopModel

  class LibEvLoop {
    /** `$readEvents`: stream id to the IO watcher registered for reading. */
    var readEvents: map<StreamId, EventId>
    /** `$writeEvents`: stream id to the IO watcher registered for writing. */
    var writeEvents: map<StreamId, EventId>
    /** `$timers`: the storage attaching each tracked timer to its libev timer. */
    var timers: map<TimerId, EventId>
    /** `$loop`: the watchers currently added to the native libev loop. */
    var native: set<EventId>
    /** The libev watcher objects created so far, by id. */
    var watchers: seq<Watcher>
    /** The `Timer` objects created so far, by id. */
    var timerObjects: seq<Timer>

    function State(): LoopState
      reads this
    {
      LoopState(readEvents, writeEvents, timers, native, watchers, timerObjects)
    }

    ghost predicate Valid()
      reads this
    {
      State().Valid()
    }

    constructor ()
      ensures Valid() && State() == Empty()
    {
      readEvents, writeEvents, timers := map[], map[], map[];
      native := {};
      watchers, timerObjects := [], [];
    }

    method AddReadStream(stream: StreamId, listener: Callback)
      requires Valid()
      modifies this
      ensures Valid() && State() == LoopModel.AddStream(old(State()), stream, Read, listener)
    {
      AddStream(stream, listener, Read);
    }

    method AddWriteStream(stream: StreamId, listener: Callback)
      requires Valid()
      modifies this
      ensures Valid() && State() == LoopModel.AddStream(old(State()), stream, Write, listener)
    {
      AddStream(stream, listener, Write);
    }

    method RemoveReadStream(stream: StreamId)
      requires Valid() && stream in readEvents
      modifies this
      ensures Valid() && State() == Unregister(old(State()), stream, Read)
    {
      native := native - {readEvents[stream]};
      readEvents := readEvents - {stream};
    }

    method RemoveWriteStream(stream: StreamId)
      requires Valid() && stream in writeEvents
      modifies this
      ensures Valid() && State() == Unregister(old(State()), stream, Write)
    {
      native := native - {writeEvents[stream]};
      writeEvents := writeEvents - {stream};
    }

    method RemoveStream(stream: StreamId)
      requires Valid()
      modifies this
      ensures Valid() && State() == LoopModel.RemoveStream(old(State()), stream)
    {
      if stream in readEvents {
        RemoveReadStream(stream);
      }
      if stream in writeEvents {
        RemoveWriteStream(stream);
      }
    }

    /** Creates the IO watcher for the wrapped listener, arms it and records it in the table of its interest. */
    method AddStream(stream: StreamId, listener: Callback, interest: Interest)
      requires Valid()
      modifies this
      ensures Valid() && State() == LoopModel.AddStream(old(State()), stream, interest, listener)
    {
      var event := |watchers|;
      watchers := watchers + [IoWatcher(stream, interest, listener)];
      native := native + {event};
      if interest == Read {
        readEvents := readEvents[stream := event];
      } else {
        writeEvents := writeEvents[stream := event];
      }
    }

    /**
     * The closure `wrapStreamListener` returns, run when IO watcher `event`
     * is ready; `calls` is what the listener does if it is invoked. Returns
     * the invocation of the listener, if there is one.
     */
    method OnStreamReady(event: EventId, eof: bool, calls: seq<Call>) returns (call: Option<Invocation>)
      requires Valid() && event in native && watchers[event].IoWatcher?
      requires LoopModel.OnStreamReady(State(), event, eof, calls).outcome.Done?
      modifies this
      ensures Valid()
      ensures LoopModel.OnStreamReady(old(State()), event, eof, calls) == Reaction(Done(State()), call)
    {
      var w := watchers[event];
      if eof {
        if w.interest == Read {
          RemoveReadStream(w.stream);
        } else {
          RemoveWriteStream(w.stream);
        }
        call := None;
        return;
      }
      call := Some(ListenerCall(w.listener, w.stream));
      RunCallback(calls);
    }

    method AddTimer(interval: Seconds, callback: Callback) returns (timer: TimerId)
      requires Valid()
      modifies this
      ensures Valid() && (State(), timer) == LoopModel.AddTimer(old(State()), interval, callback, false)
    {
      timer := |timerObjects|;
      timerObjects := timerObjects + [Timer(interval, callback, false)];
      SetupTimer(timer);
    }

    method AddPeriodicTimer(interval: Seconds, callback: Callback) returns (timer: TimerId)
      requires Valid()
      modifies this
      ensures Valid() && (State(), timer) == LoopModel.AddTimer(old(State()), interval, callback, true)
    {
      timer := |timerObjects|;
      timerObjects := timerObjects + [Timer(interval, callback, true)];
      SetupTimer(timer);
    }

    method CancelTimer(timer: TimerId)
      requires Valid()
      modifies this
      ensures Valid() && State() == LoopModel.CancelTimer(old(State()), timer)
    {
      if timer in timers {
        native := native - {timers[timer]};
        timers := timers - {timer};
      }
    }

    /** Builds the libev timer for a timer just created, attaches it and arms it. */
    method SetupTimer(timer: TimerId)
      requires Valid() && timer < |timerObjects| && timer !in timers
      modifies this
      ensures Valid() && State() == LoopModel.SetupTimer(old(State()), timer)
    {
      var t := timerObjects[timer];
      var libevTimer := |watchers|;
      if t.periodic {
        watchers := watchers + [TimerWatcher(timer, t.interval, Some(t.interval))];
      } else {
        watchers := watchers + [TimerWatcher(timer, t.interval, None)];
      }
      timers := timers[timer := libevTimer];
      native := native + {libevTimer};
    }

    /**
     * The closure `setupTimer` installs on libev timer `event`: invokes the
     * timer's callback with the timer (`calls` is what the callback does),
     * then cancels a timer that is not periodic.
     */
    method OnTimerExpired(event: EventId, calls: seq<Call>) returns (call: Invocation)
      requires Valid() && event in native && watchers[event].TimerWatcher?
      requires Run(State(), calls).Done?
      modifies this
      ensures Valid()
      ensures LoopModel.OnTimerExpired(old(State()), event, calls) == Reaction(Done(State()), Some(call))
    {
      var timer := watchers[event].timer;
      var t := timerObjects[timer];
      call := TimerCall(t.callback, timer);
      RunCallback(calls);
      if !t.periodic {
        assert timerObjects[timer] == t;
        CancelTimer(timer);
      }
    }

    /** One call made by user code on this loop. */
    method Perform(c: Call)
      requires Valid() && Apply(State(), c).Done?
      modifies this
      ensures Valid() && Apply(old(State()), c) == Done(State())
    {
      match c
      case AddRead(s, l) => AddReadStream(s, l);
      case AddWrite(s, l) => AddWriteStream(s, l);
      case RemoveRead(s) => RemoveReadStream(s);
      case RemoveWrite(s) => RemoveWriteStream(s);
      case RemoveBoth(s) => RemoveStream(s);
      case AddOneShot(iv, cb) => var _ := AddTimer(iv, cb);
      case AddPeriodic(iv, cb) => var _ := AddPeriodicTimer(iv, cb);
      case Cancel(t) => CancelTimer(t);
    }

    /** A user callback: the calls it makes on this loop, in order. */
    method RunCallback(calls: seq<Call>)
      requires Valid() && Run(State(), calls).Done?
      modifies this
      ensures Valid() && Run(old(State()), calls) == Done(State())
      decreases |calls|
    {
      if calls != [] {
        Perform(calls[0]);
        RunCallback(calls[1..]);
      }
    }
  }
}
