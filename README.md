# LibEvLoop registration bookkeeping, in Dafny

This project models the table logic of `React\EventLoop\LibEvLoop`, the libev
back end of React's PHP event loop. The loop keeps three tables: stream id to
read watcher (`$readEvents`), stream id to write watcher (`$writeEvents`), and
timer to libev timer (the `$timers` object storage). The libev loop itself
(`$loop`) becomes the set of watcher ids currently added to it and not yet
stopped or removed (`native`).

Files:

- `loop_model.dfy`, module `LoopModel`: the state (`LoopState`), its
  invariant (`LoopState.Valid`), and one function per operation. The
  operations are `addStream`, `removeReadStream`/`removeWriteStream`,
  `removeStream`, `setupTimer`, `addTimer`/`addPeriodicTimer` and
  `cancelTimer`. It also has the two closures the loop installs: the wrapped
  stream listener and the timer firing closure.
- `loop_properties.dfy`, module `LoopProperties`: lemmas that relate several
  steps. They cover the leak on re-registration, end of stream, a one-shot
  timer firing once, and periodic timers with and without self-cancellation.
- `event_loop.dfy`, module `EventLoop`: class `LibEvLoop`, whose fields are
  the tables and whose methods update them in place. Each method is proved to
  produce the state that the matching `LoopModel` function describes.

Modelling choices:

- Watcher objects (`\libev\IOEvent`, `\libev\TimerEvent`) and `Timer`
  objects are named by creation order. `watchers[e]` records what watcher
  `e` was created with. `timerObjects[t]` records what timer `t` was created
  with. This replaces object identity in `SplObjectStorage`.
- A stream is its integer id `(int)$stream`.
- A user callback is an opaque name (`Callback`). What a callback does in one
  invocation is given as the sequence of loop calls it makes (`seq<Call>`).
  `Run` applies that sequence.
- Whether the stream is at end of file (`feof`) is a boolean input to the
  wrapped listener.
- `removeReadStream`/`removeWriteStream` index the table without checking
  (LibEvLoop.php:39,45). When the entry is missing, PHP calls `stop()` on null,
  which is a fatal error. The class methods therefore require the entry to be
  present. Inside a callback's call sequence, a removal of a missing entry
  ends the run with `Fatal`.
- Re-registration is modelled as the code does it. The table entry is
  overwritten, but the old watcher is never stopped (LibEvLoop.php:63-69).
  `ReAddLeaks` states the leak. `LeakedWatcherRemovesNewer` shows what follows:
  at end of file, the leaked watcher unregisters the newer watcher and stays
  armed itself. At the next end of file it finds no entry, which is a fatal
  error.
- The code defines no error of its own for removing a missing entry. The
  fatal error comes from PHP calling `stop()` on null.
- A timer has no cancelled flag. It counts as cancelled when it is absent from
  `timers`.
- `Timer::cancel` is taken to call `cancelTimer` on its loop. The `Timer`
  class is not part of this model.

## Model

| member | source | states |
|---|---|---|
| LoopModel.Empty | LibEvLoop.php:16-25 | a new loop has empty tables, nothing armed, and satisfies the invariant |
| LoopModel.AddStream | LibEvLoop.php:60-71 | the new watcher is fresh (not armed before) and is armed; the table of its interest now maps the stream to it, replacing any earlier entry; the other table and the timers are unchanged; the invariant is kept |
| LoopModel.Unregister | LibEvLoop.php:37-47 | removeReadStream/removeWriteStream, given the entry exists: the key leaves the table of its interest, exactly that watcher leaves the native loop, the other table and the timers are unchanged, the invariant is kept |
| LoopModel.RemoveStream | LibEvLoop.php:49-58 | never requires anything; afterwards neither table has the stream; only the stream's own watchers are disarmed; timers unchanged; invariant kept |
| LoopModel.TimerWatcherFor | LibEvLoop.php:119-125 | the libev timer starts after the interval and has a repeat equal to the interval if and only if the timer is periodic |
| LoopModel.SetupTimer | LibEvLoop.php:116-139 | a fresh libev timer built for the timer is attached to it in the storage and armed; the stream tables are unchanged; invariant kept |
| LoopModel.AddTimer | LibEvLoop.php:92-106 | returns a new timer that has the given periodic flag, is attached to a fresh armed libev timer, and has a repeat only when periodic; the armed set gains only that libev timer, earlier watcher records and the stream tables are unchanged |
| LoopModel.CancelTimer | LibEvLoop.php:108-114 | a tracked timer's libev timer leaves the native loop and the timer leaves the storage; an untracked timer changes nothing; afterwards no armed libev timer belongs to it |
| LoopModel.Apply | LibEvLoop.php:27-114 | one call on the loop's public API; it is fatal exactly when it removes a missing stream entry; it keeps the invariant, never forgets created objects, keeps every timer it does not cancel (a cancel keeps every other timer), arms no watcher that existed and was disarmed, and tracks no timer other than a newly created one |
| LoopModel.Run | LibEvLoop.php:27-114 | a sequence of such calls keeps the invariant and never forgets created objects |
| LoopModel.OnStreamReady | LibEvLoop.php:73-90 | at end of file the listener is not invoked and only the stream's entry in the table of the watcher's interest is removed, stopping the watcher it names, with the other table, the timers and the object records unchanged (fatal if that entry is missing); otherwise the listener is invoked with the stream and the closure itself changes nothing |
| LoopModel.OnTimerExpired | LibEvLoop.php:127-133 | the firing timer is tracked and attached to this libev timer; its callback is invoked with the timer; a periodic timer gets nothing beyond the callback's own effect; a one-shot timer is cancelled afterwards |
| LoopModel.StepReaction | LibEvLoop.php:73-133 | one event in the loop's life: a user call, or libev running an armed watcher's closure; a step for a watcher that is not armed runs nothing and changes nothing; the invariant is kept |
| LoopModel.Trace | LibEvLoop.php:73-133 | a run of such steps keeps the invariant, never forgets created objects, and invokes at most one user callback per step |
| LoopProperties.ReAddLeaks | LibEvLoop.php:63-69 | re-adding a (stream, interest) leaves one table entry, the new watcher; the old watcher is still armed and no table names it |
| LoopProperties.LeakedWatcherRemovesNewer | LibEvLoop.php:37-47 | at end of file the leaked watcher unregisters the newer watcher and stays armed; its next end-of-file notification is a fatal error |
| LoopProperties.AddThenRemoveDisarms | LibEvLoop.php:37-71 | adding then removing a (stream, interest) disarms the new watcher and restores the armed set |
| LoopProperties.EofBeforeDataSkipsListener | LibEvLoop.php:81-86 | a read registration whose first notification sees end of file never invokes its listener and is no longer registered |
| LoopProperties.RemoveStreamIdempotent | LibEvLoop.php:49-58 | removing a stream twice equals removing it once |
| LoopProperties.CancelTimerIdempotent | LibEvLoop.php:108-114 | cancelling a timer twice equals cancelling it once |
| LoopProperties.RunKeepsTimer | LibEvLoop.php:108-114 | user code that never cancels a tracked timer leaves it attached to the same libev timer |
| LoopProperties.CancelledStaysCancelled | LibEvLoop.php:92-139 | a created timer that is not tracked is never tracked again and has no armed libev timer afterwards, whatever user code does |
| LoopProperties.CancelInRunSticks | LibEvLoop.php:108-114 | user code that cancels a created timer at any point leaves it untracked with no armed libev timer |
| LoopProperties.DisarmedStaysDisarmed | LibEvLoop.php:37-114 | user code never re-arms a watcher that has been stopped or removed |
| LoopProperties.TraceKeepsDisarmed | LibEvLoop.php:37-133 | a stopped or removed watcher stays disarmed whatever happens to the loop afterwards, so its closure never runs again |
| LoopProperties.CancelledNeverFires | LibEvLoop.php:108-133 | a created timer that is no longer tracked is never tracked again and its callback is never invoked again, whatever happens to the loop afterwards |
| LoopProperties.OneShotFiresOnce | LibEvLoop.php:127-133 | after a one-shot timer fires it is untracked, its libev timer is disarmed, no armed libev timer belongs to it, and cancelling it is a no-op |
| LoopProperties.PeriodicStaysArmed | LibEvLoop.php:127-133 | a periodic timer whose callback does not cancel it stays tracked and attached to the same armed libev timer |
| LoopProperties.PeriodicSelfCancelStops | LibEvLoop.php:108-133 | a periodic timer that cancels itself in its callback is untracked afterwards and has no armed libev timer |
| LoopProperties.LoneOneShotLeavesLoopEmpty | LibEvLoop.php:92-133 | a loop holding only a one-shot timer has nothing registered and nothing armed after it fires |
| EventLoop.LibEvLoop.constructor | LibEvLoop.php:21-25 | the new loop is the empty state |
| EventLoop.LibEvLoop.AddReadStream | LibEvLoop.php:27-30 | the new state is AddStream with interest Read |
| EventLoop.LibEvLoop.AddWriteStream | LibEvLoop.php:32-35 | the new state is AddStream with interest Write |
| EventLoop.LibEvLoop.RemoveReadStream | LibEvLoop.php:37-41 | given the read entry exists, the new state is Unregister for Read |
| EventLoop.LibEvLoop.RemoveWriteStream | LibEvLoop.php:43-47 | given the write entry exists, the new state is Unregister for Write |
| EventLoop.LibEvLoop.RemoveStream | LibEvLoop.php:49-58 | the new state is RemoveStream, with each removal guarded by its presence test |
| EventLoop.LibEvLoop.AddStream | LibEvLoop.php:60-71 | the fields are updated in place to the AddStream state |
| EventLoop.LibEvLoop.OnStreamReady | LibEvLoop.php:73-90 | the closure's effect and its listener invocation are those of LoopModel.OnStreamReady |
| EventLoop.LibEvLoop.AddTimer | LibEvLoop.php:92-98 | the new state and returned timer are those of AddTimer, one-shot |
| EventLoop.LibEvLoop.AddPeriodicTimer | LibEvLoop.php:100-106 | the new state and returned timer are those of AddTimer, periodic |
| EventLoop.LibEvLoop.CancelTimer | LibEvLoop.php:108-114 | the new state is CancelTimer |
| EventLoop.LibEvLoop.SetupTimer | LibEvLoop.php:116-139 | the new state is SetupTimer |
| EventLoop.LibEvLoop.OnTimerExpired | LibEvLoop.php:127-133 | the closure's effect and its callback invocation are those of LoopModel.OnTimerExpired |
| EventLoop.LibEvLoop.Perform | LibEvLoop.php:27-114 | one user call on the object has the effect Apply describes |
| EventLoop.LibEvLoop.RunCallback | LibEvLoop.php:27-114 | a user callback's calls on the object have the effect Run describes |

## Left out

- `tick`, `run` and `stop` (LibEvLoop.php:141-154) only delegate to libev's `run` and `breakLoop`. Their waiting and dispatch order belong to the native library. Which watcher fires, and when, is therefore an input: the firing closures take the watcher id and require it to be armed. `Trace` takes any order of steps, so its lemmas hold for whatever order libev chooses.
- libev stops a non-repeating timer by itself once it has expired. That is native behaviour. Here `native` holds the watchers that have been added and not removed or stopped by the loop's own code. libev also treats a repeat of zero as no repeat, so a periodic timer with a zero interval (`TimerEvent(cb, 0, 0)`, LibEvLoop.php:122) fires once natively and is never cancelled by the loop, unless `Timer` clamps the interval; the model still records it with repeat `Some(0.0)` and counts it as armed.
- Readiness polling and the `feof` check are I/O. End of file is a boolean input.
- The `\libev\IOEvent::READ`/`WRITE` bitmask tests are replaced by the `Interest` type. The flag values are foreign constants, and the loop only ever passes one of the two.
- Intervals are opaque `real` values. Deadlines and elapsed time are measured by libev.
- The internals of `React\EventLoop\Timer\Timer` are not part of this model. A timer is its interval, its callback and its periodic flag, and `cancel()` is taken to call `cancelTimer`.
- User callbacks are limited to calls on this loop's own API. Callbacks do not throw: a one-shot callback that threw would skip `$timer->cancel()` (LibEvLoop.php:130-132) and leave the timer in `$timers`, which the model does not capture. A callback that runs the loop again from inside itself, or that acts on another loop, is not modelled.
- Concurrency: the code is single-threaded.
