/**
  The countdown timer of include/timer.hpp. Every query and transition that
  reads `pros::millis()` takes the clock reading `now` as a parameter, and
  all timestamps are `uint32_t` values whose arithmetic wraps modulo 2^32.
 */
module Timers {
  import opened U32

  datatype Timer = Timer(
    startTime: u32,
    endTime: u32,
    pauseTime: u32,
    timeDuration: u32,
    isRunning: bool)

  /** The answer of `isTimerRunning` together with the timer it leaves behind. */
  datatype Query = Query(timer: Timer, running: bool)

  /** A stopped timer holding a duration of `time` milliseconds. */
  function NewTimer(time: u32): (r: Timer)
    ensures !r.isRunning && r.timeDuration == time
    ensures r.startTime == 0 && r.endTime == 0 && r.pauseTime == 0
  {
    Timer(0, 0, 0, time, false)
  }

  /** `setTime`: only the duration changes; a running countdown keeps its end time. */
  function SetTime(t: Timer, time: u32): (r: Timer)
    ensures r.timeDuration == time
    ensures r.startTime == t.startTime && r.endTime == t.endTime && r.pauseTime == t.pauseTime
    ensures r.isRunning == t.isRunning
  {
    t.(timeDuration := time)
  }

  /** `start`: a no-op on a running timer or a zero duration; otherwise the countdown ends one duration after `now`. */
  function Start(t: Timer, now: u32): (r: Timer)
    ensures t.isRunning || t.timeDuration == 0 ==> r == t
    ensures !t.isRunning && t.timeDuration != 0 ==>
      && r.isRunning
      && r.startTime == now
      && Sub(r.endTime, r.startTime) == t.timeDuration
      && r.pauseTime == t.pauseTime
      && r.timeDuration == t.timeDuration
  {
    if t.isRunning || t.timeDuration == 0 then t
    else t.(startTime := now, endTime := Add(now, t.timeDuration), isRunning := true)
  }

  /** `pause`: a no-op on a stopped timer; otherwise records when the countdown was suspended. */
  function Pause(t: Timer, now: u32): (r: Timer)
    ensures !t.isRunning ==> r == t
    ensures t.isRunning ==>
      && !r.isRunning
      && r.pauseTime == now
      && r.startTime == t.startTime && r.endTime == t.endTime && r.timeDuration == t.timeDuration
  {
    if !t.isRunning then t
    else t.(pauseTime := now, isRunning := false)
  }

  /**
    `resume`: a no-op on a running timer or a zero duration; otherwise the end
    time moves forward by the length of the pause, so that the distance from
    `now` to the end equals the distance from the pause to the old end.
   */
  function Resume(t: Timer, now: u32): (r: Timer)
    ensures t.isRunning || t.timeDuration == 0 ==> r == t
    ensures !t.isRunning && t.timeDuration != 0 ==>
      && r.isRunning
      && Sub(r.endTime, now) == Sub(t.endTime, t.pauseTime)
      && r.startTime == t.startTime && r.pauseTime == t.pauseTime && r.timeDuration == t.timeDuration
  {
    if t.isRunning || t.timeDuration == 0 then t
    else
      SubAfterShift(t.endTime, t.pauseTime, now);
      t.(endTime := Add(t.endTime, Sub(now, t.pauseTime)), isRunning := true)
  }

  /** `isDone`: the clock has reached the end time of a running, non-zero countdown (compared as unsigned values). */
  function IsDone(t: Timer, now: u32): (r: bool)
    ensures r ==> t.isRunning && t.timeDuration != 0
    ensures t.isRunning && t.timeDuration != 0 && now >= t.endTime ==> r
    ensures now < t.endTime ==> !r
  {
    t.timeDuration != 0 && t.isRunning && now >= t.endTime
  }

  /**
    `isTimerRunning`: observing completion stops the timer. The answer is the
    running flag left behind, which is false exactly when the timer was
    stopped or has just been seen done.
   */
  function IsTimerRunning(t: Timer, now: u32): (q: Query)
    ensures q.running == q.timer.isRunning
    ensures q.running <==> t.isRunning && !IsDone(t, now)
    ensures IsDone(t, now) ==> q.timer == t.(isRunning := false)
    ensures !IsDone(t, now) ==> q.timer == t
    ensures !q.running ==> !IsDone(q.timer, now)
  {
    if IsDone(t, now) then Query(t.(isRunning := false), false)
    else Query(t, t.isRunning)
  }

  /** `getTimeRemaining`: zero on a stopped timer; otherwise the amount that, added to `now`, reaches the end time. */
  function GetTimeRemaining(t: Timer, now: u32): (r: u32)
    ensures !t.isRunning ==> r == 0
    ensures t.isRunning ==> Add(now, r) == t.endTime
  {
    if !t.isRunning then 0 else Sub(t.endTime, now)
  }

  /** `reset`: stops the timer and zeroes its timestamps, keeping the duration. */
  function Reset(t: Timer): (r: Timer)
    ensures !r.isRunning && r.timeDuration == t.timeDuration
    ensures r.startTime == 0 && r.endTime == 0 && r.pauseTime == 0
    ensures r == NewTimer(t.timeDuration)
  {
    Timer(0, 0, 0, t.timeDuration, false)
  }

  /** Resetting twice is the same as resetting once, and a reset timer is neither done nor counting. */
  lemma ResetIdempotent(t: Timer, now: u32)
    ensures Reset(Reset(t)) == Reset(t)
    ensures !IsDone(Reset(t), now) && GetTimeRemaining(Reset(t), now) == 0
    ensures IsTimerRunning(Reset(t), now) == Query(Reset(t), false)
  {
  }

  /** Querying `isTimerRunning` twice at the same instant gives the same answer and the same timer. */
  lemma IsTimerRunningStable(t: Timer, now: u32)
    ensures IsTimerRunning(IsTimerRunning(t, now).timer, now) == IsTimerRunning(t, now)
  {
  }

  /** Pausing at `p` and resuming at `q` leaves the time remaining at `q` equal to the time remaining at `p`. */
  lemma PauseResumePreservesRemaining(t: Timer, p: u32, q: u32)
    requires t.isRunning && t.timeDuration != 0
    ensures Resume(Pause(t, p), q).isRunning
    ensures GetTimeRemaining(Resume(Pause(t, p), q), q) == GetTimeRemaining(t, p)
  {
  }

  /**
    A timer started at `n0` counts down its duration: while no timestamp
    wraps, at a later time `n` it is done exactly when `n - n0` has reached the
    duration, and before that the time remaining is the duration minus the
    elapsed time.
   */
  lemma StartedTimerCountsDown(t: Timer, n0: u32, n: u32)
    requires !t.isRunning && t.timeDuration != 0
    requires n0 + t.timeDuration < MODULUS
    requires n0 <= n
    ensures IsDone(Start(t, n0), n) <==> n - n0 >= t.timeDuration
    ensures n - n0 <= t.timeDuration ==> GetTimeRemaining(Start(t, n0), n) == t.timeDuration - (n - n0)
  {
  }

  /**
    As written, `getTimeRemaining` subtracts the clock from the end time even
    after the end has passed, as long as nobody has called `isTimerRunning`:
    a 100 ms timer started at 0 and asked at 150 ms reports almost 2^32 ms left.
   */
  lemma RemainingUnderflowsAfterExpiry()
    ensures IsDone(Start(NewTimer(100), 0), 150)
    ensures GetTimeRemaining(Start(NewTimer(100), 0), 150) == MODULUS - 50
    ensures GetTimeRemaining(Start(NewTimer(100), 0), 150) > 100
  {
  }

  /** The evidently intended remaining time: zero once the end time has been reached. */
  function TimeRemaining(t: Timer, now: u32): (r: u32)
    ensures !t.isRunning || now >= t.endTime ==> r == 0
    ensures t.isRunning && now < t.endTime ==> now + r == t.endTime
  {
    if !t.isRunning || now >= t.endTime then 0 else t.endTime - now
  }

  /**
    The corrected remaining time of a started countdown never exceeds its
    duration while no timestamp wraps, and it is zero exactly when the timer
    is done.
   */
  lemma CorrectedRemainingBounded(t: Timer, n0: u32, n: u32)
    requires !t.isRunning && t.timeDuration != 0
    requires n0 + t.timeDuration < MODULUS
    requires n0 <= n
    ensures TimeRemaining(Start(t, n0), n) <= t.timeDuration
    ensures TimeRemaining(Start(t, n0), n) == 0 <==> IsDone(Start(t, n0), n)
  {
  }
}
