/** Condition variables of `frameQueue` (libs/shared/websocket/consumer.go): any
    number of threads call Push, Pop and Close, each critical section is one
    step, and `Signal` wakes one waiting thread, which runs its loop again at
    some later time. */
module Wakeups {
  import opened Types
  import opened FrameQueues

  type ThreadId = nat

  /** The queue, the threads asleep on `notEmpty` and `notFull`, those woken but
      not yet back in the critical section, and the frame each pusher carries. */
  datatype State<T> = State(
    queue: Queue<T>,
    sleepingPop: set<ThreadId>, wokenPop: set<ThreadId>,
    sleepingPush: set<ThreadId>, wokenPush: set<ThreadId>,
    carried: map<ThreadId, T>)
  {
    function Busy(): set<ThreadId> {
      sleepingPop + wokenPop + sleepingPush + wokenPush
    }
  }

  /** A step.  `wake` is the thread that a signal sent in the step wakes. */
  datatype Action<T> =
    | CallPop(t: ThreadId, wake: Option<ThreadId>)
    | ResumePop(t: ThreadId, wake: Option<ThreadId>)
    | CallPush(t: ThreadId, frame: T, wake: Option<ThreadId>)
    | ResumePush(t: ThreadId, wake: Option<ThreadId>)
    | CallClose

  /** `Signal` wakes one of the sleepers if there are any. */
  predicate Signals(sleepers: set<ThreadId>, wake: Option<ThreadId>) {
    if sleepers == {} then wake == None else wake.Some? && wake.value in sleepers
  }

  function Woken(wake: Option<ThreadId>): set<ThreadId> {
    if wake.Some? then {wake.value} else {}
  }

  /** The body of Pop's loop, run by `t`. */
  predicate PopAllowed<T>(s: State<T>, wake: Option<ThreadId>) {
    if PopResult(s.queue).decision == Accepted then Signals(s.sleepingPush, wake) else wake == None
  }

  function PopBody<T>(s: State<T>, t: ThreadId, wake: Option<ThreadId>): State<T> {
    var r := PopResult(s.queue);
    match r.decision
    case Accepted => s.(queue := r.queue, sleepingPush := s.sleepingPush - Woken(wake), wokenPush := s.wokenPush + Woken(wake))
    case Waits => s.(sleepingPop := s.sleepingPop + {t})
    case Rejected => s
  }

  /** The body of Push's loop, run by `t`. */
  predicate PushAllowed<T>(s: State<T>, frame: T, wake: Option<ThreadId>)
    requires s.queue.capacity > 0
  {
    if PushResult(s.queue, frame).decision == Accepted then Signals(s.sleepingPop, wake) else wake == None
  }

  function PushBody<T>(s: State<T>, t: ThreadId, frame: T, wake: Option<ThreadId>): State<T>
    requires s.queue.capacity > 0
  {
    var r := PushResult(s.queue, frame);
    match r.decision
    case Accepted => s.(queue := r.queue, sleepingPop := s.sleepingPop - Woken(wake), wokenPop := s.wokenPop + Woken(wake))
    case Waits => s.(sleepingPush := s.sleepingPush + {t}, carried := s.carried[t := frame])
    case Rejected => s
  }

  predicate Enabled<T>(s: State<T>, a: Action<T>) {
    && s.queue.capacity > 0
    && match a
       case CallPop(t, wake) => t !in s.Busy() && PopAllowed(s, wake)
       case ResumePop(t, wake) => t in s.wokenPop && PopAllowed(s, wake)
       case CallPush(t, frame, wake) => t !in s.Busy() && PushAllowed(s, frame, wake)
       case ResumePush(t, wake) => t in s.wokenPush && t in s.carried && PushAllowed(s, s.carried[t], wake)
       case CallClose => true
  }

  function Next<T>(s: State<T>, a: Action<T>): State<T>
    requires Enabled(s, a)
  {
    match a
    case CallPop(t, wake) => PopBody(s, t, wake)
    case ResumePop(t, wake) => PopBody(s.(wokenPop := s.wokenPop - {t}), t, wake)
    case CallPush(t, frame, wake) => PushBody(s, t, frame, wake)
    case ResumePush(t, wake) => PushBody(s.(wokenPush := s.wokenPush - {t}), t, s.carried[t], wake)
    case CallClose =>
      if s.queue.closed then s
      else s.(queue := CloseResult(s.queue),
              sleepingPop := {}, wokenPop := s.wokenPop + s.sleepingPop,
              sleepingPush := {}, wokenPush := s.wokenPush + s.sleepingPush)
  }

  /** Who may be where: nobody is in two places, pushers carry a frame, and
      only a blocking queue puts pushers to sleep. */
  ghost predicate Placed<T>(s: State<T>) {
    && s.sleepingPop !! s.wokenPop !! s.sleepingPush !! s.wokenPush
    && s.sleepingPush <= s.carried.Keys && s.wokenPush <= s.carried.Keys
    && (s.sleepingPush != {} ==> s.queue.policy == Block)
    && (s.queue.closed ==> s.sleepingPop == {} && s.sleepingPush == {} && s.queue.contents == [])
    && 0 < s.queue.capacity && |s.queue.contents| <= s.queue.capacity
  }

  /** While somebody sleeps, the wakeups on their way cover the frames (for
      poppers) or the free slots (for pushers), up to the given shortage. */
  ghost predicate Covered<T>(s: State<T>, popsMissing: nat, pushesMissing: nat) {
    && (s.sleepingPop != {} ==> |s.queue.contents| <= |s.wokenPop| + popsMissing)
    && (s.sleepingPush != {} ==> s.queue.capacity - |s.queue.contents| <= |s.wokenPush| + pushesMissing)
  }

  /** No wakeup is lost: a popper sleeps only while every queued frame has a
      woken popper coming for it, a pusher only while every free slot has a
      woken pusher coming for it, and after Close nobody sleeps. */
  ghost predicate Inv<T>(s: State<T>) {
    Placed(s) && Covered(s, 0, 0)
  }

  function Start<T>(capacity: nat, policy: Policy): State<T> {
    State(Queue(capacity, policy, [], false), {}, {}, {}, {}, map[])
  }

  /** Waking one sleeper adds one to those on their way. */
  lemma WakeOne(sleepers: set<ThreadId>, woken: set<ThreadId>, wake: Option<ThreadId>)
    requires sleepers !! woken && Signals(sleepers, wake)
    ensures sleepers - Woken(wake) !! woken + Woken(wake)
    ensures sleepers != {} ==> |woken + Woken(wake)| == |woken| + 1
    ensures sleepers == {} ==> woken + Woken(wake) == woken && sleepers - Woken(wake) == sleepers
  {
    if sleepers != {} {
      assert wake.value !in woken;
    }
  }

  lemma PopKeepsPlaces<T>(s: State<T>, t: ThreadId, wake: Option<ThreadId>)
    requires Placed(s) && t !in s.Busy() && PopAllowed(s, wake)
    ensures Placed(PopBody(s, t, wake))
  {
  }

  lemma PopKeepsCover<T>(s: State<T>, t: ThreadId, wake: Option<ThreadId>)
    requires Placed(s) && Covered(s, 1, 0) && PopAllowed(s, wake)
    ensures Covered(PopBody(s, t, wake), 0, 0)
  {
    if PopResult(s.queue).decision == Accepted {
      WakeOne(s.sleepingPush, s.wokenPush, wake);
    }
  }

  lemma PushKeepsPlaces<T>(s: State<T>, t: ThreadId, frame: T, wake: Option<ThreadId>)
    requires Placed(s) && t !in s.Busy() && PushAllowed(s, frame, wake)
    ensures Placed(PushBody(s, t, frame, wake))
  {
  }

  lemma PushKeepsCover<T>(s: State<T>, t: ThreadId, frame: T, wake: Option<ThreadId>)
    requires Placed(s) && Covered(s, 0, 1) && PushAllowed(s, frame, wake)
    ensures Covered(PushBody(s, t, frame, wake), 0, 0)
  {
    if PushResult(s.queue, frame).decision == Accepted {
      WakeOne(s.sleepingPop, s.wokenPop, wake);
    }
  }

  lemma RemoveOne(woken: set<ThreadId>, t: ThreadId)
    requires t in woken
    ensures |woken| == |woken - {t}| + 1
  {
  }

  lemma PopStepKeepsInv<T>(s: State<T>, a: Action<T>)
    requires Inv(s) && Enabled(s, a) && (a.CallPop? || a.ResumePop?)
    ensures Inv(Next(s, a))
  {
    match a {
      case CallPop(t, wake) =>
        PopKeepsPlaces(s, t, wake);
        PopKeepsCover(s, t, wake);
      case ResumePop(t, wake) =>
        RemoveOne(s.wokenPop, t);
        PopKeepsPlaces(s.(wokenPop := s.wokenPop - {t}), t, wake);
        PopKeepsCover(s.(wokenPop := s.wokenPop - {t}), t, wake);
    }
  }

  lemma PushStepKeepsInv<T>(s: State<T>, a: Action<T>)
    requires Inv(s) && Enabled(s, a) && (a.CallPush? || a.ResumePush?)
    ensures Inv(Next(s, a))
  {
    match a {
      case CallPush(t, frame, wake) =>
        PushKeepsPlaces(s, t, frame, wake);
        PushKeepsCover(s, t, frame, wake);
      case ResumePush(t, wake) =>
        RemoveOne(s.wokenPush, t);
        PushKeepsPlaces(s.(wokenPush := s.wokenPush - {t}), t, s.carried[t], wake);
        PushKeepsCover(s.(wokenPush := s.wokenPush - {t}), t, s.carried[t], wake);
    }
  }

  lemma StepKeepsInv<T>(s: State<T>, a: Action<T>)
    requires Inv(s) && Enabled(s, a)
    ensures Inv(Next(s, a))
  {
    if a.CallPop? || a.ResumePop? {
      PopStepKeepsInv(s, a);
    } else if a.CallPush? || a.ResumePush? {
      PushStepKeepsInv(s, a);
    }
  }

  /** `states` is a run: it begins with an empty queue and nobody waiting, and
      each state follows from the one before by an enabled step. */
  ghost predicate IsRun<T(!new)>(states: seq<State<T>>, capacity: nat, policy: Policy) {
    && states != [] && states[0] == Start(capacity, policy)
    && forall i :: 0 < i < |states| ==> Follows(states[i - 1], states[i])
  }

  ghost predicate Follows<T(!new)>(s: State<T>, s': State<T>) {
    exists a :: Enabled(s, a) && Next(s, a) == s'
  }

  /** In every reachable state of every run, whatever the threads, the policy
      and the choices of Signal, no wakeup is lost. */
  lemma {:induction false} NoLostWakeup<T(!new)>(states: seq<State<T>>, capacity: nat, policy: Policy)
    requires capacity > 0 && IsRun(states, capacity, policy)
    ensures Inv(states[|states| - 1])
    decreases |states|
  {
    var n := |states| - 1;
    if n > 0 {
      NoLostWakeup(states[..n], capacity, policy);
      assert Follows(states[n - 1], states[n]);
      var a :| Enabled(states[n - 1], a) && Next(states[n - 1], a) == states[n];
      StepKeepsInv(states[n - 1], a);
    }
  }

  /** A woken thread can always take its next step. */
  lemma WokenCanRun<T>(s: State<T>) returns (a: Action<T>)
    requires Inv(s) && s.wokenPop + s.wokenPush != {}
    ensures Enabled(s, a)
    ensures a.ResumePop? || a.ResumePush?
    ensures a.ResumePop? <==> s.wokenPop != {}
  {
    if s.wokenPop != {} {
      var t :| t in s.wokenPop;
      var wake := None;
      if PopResult(s.queue).decision == Accepted && s.sleepingPush != {} {
        var w :| w in s.sleepingPush;
        wake := Some(w);
      }
      a := ResumePop(t, wake);
    } else {
      var t :| t in s.wokenPush;
      assert t in s.wokenPop + s.wokenPush;
      var wake := None;
      if PushResult(s.queue, s.carried[t]).decision == Accepted && s.sleepingPop != {} {
        var w :| w in s.sleepingPop;
        wake := Some(w);
      }
      a := ResumePush(t, wake);
    }
  }

  /** The queue cannot get stuck: a popper asleep beside a queued frame means a
      popper is on its way that will be served; a pusher asleep beside a free
      slot means a pusher is on its way; poppers and pushers are never all
      asleep at once. */
  lemma SleepersAreServed<T>(s: State<T>)
    requires Inv(s)
    ensures s.sleepingPop != {} && s.queue.contents != [] ==> s.wokenPop != {}
    ensures s.sleepingPush != {} && |s.queue.contents| < s.queue.capacity ==> s.wokenPush != {}
    ensures s.sleepingPop != {} && s.sleepingPush != {} ==> s.wokenPop + s.wokenPush != {}
    ensures s.wokenPop != {} && s.queue.contents != [] ==> PopResult(s.queue).decision == Accepted
  {
    if s.sleepingPop != {} && s.sleepingPush != {} {
      if s.queue.contents == [] {
        assert |s.wokenPush| > 0;
        var t :| t in s.wokenPush;
        assert t in s.wokenPop + s.wokenPush;
      } else {
        assert |s.wokenPop| > 0;
        var t :| t in s.wokenPop;
        assert t in s.wokenPop + s.wokenPush;
      }
    }
  }

  // ---------------------------------------------------------------------
  // What becomes of a call

  /** One turn of a pusher: asleep with its frame on a full queue that blocks, gone
      with the frame refused, or gone with the frame at the end of the queue. */
  ghost predicate PusherGoes<T(!new)>(s: State<T>, t: ThreadId, frame: T, u: State<T>) {
    var q := s.queue;
    && (!q.closed && Full(q) && q.policy == Block ==>
          t in u.sleepingPush && t in u.carried && u.carried[t] == frame && u.queue == q)
    && (q.closed || (Full(q) && q.policy == DropNewest) ==> t !in u.Busy() && u.queue == q)
    && (!q.closed && !Full(q) ==> t !in u.Busy() && u.queue.contents == q.contents + [frame])
    && (!q.closed && Full(q) && q.policy == DropOldest && q.contents != [] ==>
          t !in u.Busy() && u.queue.contents == q.contents[1..] + [frame])
  }

  /** One turn of a popper: gone with the oldest frame, gone empty-handed from a
      closed queue, or asleep. */
  ghost predicate PopperGoes<T(!new)>(s: State<T>, t: ThreadId, u: State<T>) {
    var q := s.queue;
    && (q.contents != [] ==> t !in u.Busy() && u.queue.contents == q.contents[1..])
    && (q.contents == [] && q.closed ==> t !in u.Busy() && u.queue == q)
    && (q.contents == [] && !q.closed ==> t in u.sleepingPop && u.queue == q)
  }

  lemma SignalPossible(sleepers: set<ThreadId>) returns (wake: Option<ThreadId>)
    ensures Signals(sleepers, wake)
  {
    if sleepers == {} { return None; }
    var t :| t in sleepers;
    return Some(t);
  }

  lemma PushTurn<T(!new)>(s: State<T>, t: ThreadId, frame: T, wake: Option<ThreadId>)
    requires Placed(s) && t !in s.Busy() && PushAllowed(s, frame, wake)
    ensures PusherGoes(s, t, frame, PushBody(s, t, frame, wake))
  {
    PushExactly(s.queue, frame);
  }

  lemma PopTurn<T(!new)>(s: State<T>, t: ThreadId, wake: Option<ThreadId>)
    requires Placed(s) && t !in s.Busy() && PopAllowed(s, wake)
    ensures PopperGoes(s, t, PopBody(s, t, wake))
  {
    PopExactly(s.queue);
  }

  /** What becomes of a call of Push, and of a pusher that wakes up with its
      frame. */
  lemma PushServed<T(!new)>(s: State<T>, a: Action<T>)
    requires Inv(s) && Enabled(s, a)
    ensures a.CallPush? ==> PusherGoes(s, a.t, a.frame, Next(s, a))
    ensures a.ResumePush? ==> PusherGoes(s, a.t, s.carried[a.t], Next(s, a))
  {
    match a {
      case CallPush(t, frame, wake) => PushTurn(s, t, frame, wake);
      case ResumePush(t, wake) => PushTurn(s.(wokenPush := s.wokenPush - {t}), t, s.carried[t], wake);
      case _ =>
    }
  }

  /** What becomes of a call of Pop, of a popper that wakes up, and of Close, which
      wakes everybody. */
  lemma PopServed<T(!new)>(s: State<T>, a: Action<T>)
    requires Inv(s) && Enabled(s, a)
    ensures a.CallPop? || a.ResumePop? ==> PopperGoes(s, a.t, Next(s, a))
    ensures a.CallClose? ==>
              var u := Next(s, a);
              && u.queue.closed && u.queue.contents == [] && u.sleepingPop == {} && u.sleepingPush == {}
              && u.wokenPop == s.wokenPop + s.sleepingPop && u.wokenPush == s.wokenPush + s.sleepingPush
  {
    match a {
      case CallPop(t, wake) => PopTurn(s, t, wake);
      case ResumePop(t, wake) => PopTurn(s.(wokenPop := s.wokenPop - {t}), t, wake);
      case _ =>
    }
  }

  /** A thread that is not waiting can call Push and Pop at any time. */
  lemma CallsPossible<T(!new)>(s: State<T>, t: ThreadId, frame: T) returns (push: Action<T>, pop: Action<T>)
    requires Inv(s) && t !in s.Busy()
    ensures Enabled(s, push) && push.CallPush? && push.t == t && push.frame == frame
    ensures Enabled(s, pop) && pop.CallPop? && pop.t == t
    ensures Enabled(s, CallClose)
  {
    var toPop: Option<ThreadId>, toPush: Option<ThreadId> := None, None;
    if PushResult(s.queue, frame).decision == Accepted { toPop := SignalPossible(s.sleepingPop); }
    if PopResult(s.queue).decision == Accepted { toPush := SignalPossible(s.sleepingPush); }
    push, pop := CallPush(t, frame, toPop), CallPop(t, toPush);
  }
}
