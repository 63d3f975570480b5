/** Closing driver plugins.  The factory's Close, the construction of drivers and the
    drivers' heartbeat goroutines run concurrently; a step below is one action of one of
    them, and a run is any interleaving of steps. */
module PluginClose {

  type Id = nat

  /** Where a driver's heartbeat goroutine is.  SelfClosing: a heartbeat has failed and the
      goroutine itself has called close, which sends on the channel that only it reads. */
  datatype Beat = NotStarted | Selecting | Calling | SelfClosing | Exited

  /** `built`: the construction has reached its end, where the plugin field is set. */
  datatype Driver = Driver(beat: Beat, built: bool, channelClosed: bool)

  /** The four actions of a driver's close, in order. */
  datatype Stage = Signal | CloseChannel | CallClose | ClosePlugin

  /** The Close call that holds the lock, at driver `listed[i]`. */
  datatype Closer = Free | At(i: nat, stage: Stage)

  datatype Event =
    | Registered(d: Id) | BeatSent(d: Id)
    | DoneReceived(d: Id) | ChannelClosed(d: Id) | CloseCalled(d: Id) | PluginClosed(d: Id)

  datatype State = State(
    drivers: map<Id, Driver>, listed: seq<Id>, closer: Closer, log: seq<Event>, crashed: bool)
  {
    function Logged(e: Event): State { this.(log := log + [e]) }
    function With(d: Id, x: Driver): State { this.(drivers := drivers[d := x]) }
    function Crash(): State { this.(crashed := true) }
  }

  const Init := State(map[], [], Free, [], false)

  datatype Step =
    | Register(d: Id) | StartBeat(d: Id) | Build(d: Id)
    | Tick(d: Id) | ReplyOk(d: Id) | ReplyFails(d: Id) | WakeOnClosed(d: Id) | SendToSelf(d: Id)
    | Acquire | Close | Release

  predicate Enabled(s: State, step: Step) {
    && !s.crashed
    && match step
       case Register(d) => s.closer.Free? && d !in s.drivers
       case StartBeat(d) => d in s.drivers && s.drivers[d].beat == NotStarted
       case Build(d) => d in s.drivers && s.drivers[d].beat != NotStarted && !s.drivers[d].built
       case Tick(d) => d in s.drivers && s.drivers[d].beat == Selecting
       case ReplyOk(d) => d in s.drivers && s.drivers[d].beat == Calling
       case ReplyFails(d) => d in s.drivers && s.drivers[d].beat == Calling
       case WakeOnClosed(d) => d in s.drivers && s.drivers[d].beat == Selecting && s.drivers[d].channelClosed
       case SendToSelf(d) => d in s.drivers && s.drivers[d].beat == SelfClosing && s.drivers[d].channelClosed
       case Acquire => s.closer.Free?
       case Close =>
         && s.closer.At? && s.closer.i < |s.listed| && s.listed[s.closer.i] in s.drivers
         // sending on the unbuffered channel waits for the goroutine's select
         && (var x := s.drivers[s.listed[s.closer.i]];
             s.closer.stage == Signal ==> x.channelClosed || x.beat == Selecting)
       case Release => s.closer.At? && s.closer.i == |s.listed|
  }

  function Next(s: State, step: Step): State
    requires Enabled(s, step)
  {
    match step
    case Register(d) => s.(listed := s.listed + [d]).With(d, Driver(NotStarted, false, false)).Logged(Registered(d))
    case StartBeat(d) => s.With(d, s.drivers[d].(beat := Selecting))
    case Build(d) => s.With(d, s.drivers[d].(built := true))
    case Tick(d) => s.With(d, s.drivers[d].(beat := Calling)).Logged(BeatSent(d))
    case ReplyOk(d) => s.With(d, s.drivers[d].(beat := Selecting))
    case ReplyFails(d) => s.With(d, s.drivers[d].(beat := SelfClosing))
    case WakeOnClosed(d) => s.With(d, s.drivers[d].(beat := Exited))
    case SendToSelf(d) => s.Crash()
    case Acquire => s.(closer := At(0, Signal))
    case Close => NextClose(s, s.listed[s.closer.i])
    case Release => s.(listed := [], closer := Free)
  }

  /** Sending on, or closing, a closed channel panics, and so does closing a plugin that
      the construction has not set yet. */
  function NextClose(s: State, d: Id): State
    requires s.closer.At? && d in s.drivers
  {
    var x, i := s.drivers[d], s.closer.i;
    match s.closer.stage
    case Signal =>
      if x.channelClosed then s.Crash()
      else s.(closer := At(i, CloseChannel)).With(d, x.(beat := Exited)).Logged(DoneReceived(d))
    case CloseChannel =>
      if x.channelClosed then s.Crash()
      else s.(closer := At(i, CallClose)).With(d, x.(channelClosed := true)).Logged(ChannelClosed(d))
    case CallClose => s.(closer := At(i, ClosePlugin)).Logged(CloseCalled(d))
    case ClosePlugin =>
      if !x.built then s.Crash()
      else s.(closer := At(i + 1, Signal)).Logged(PluginClosed(d))
  }

  /** `steps` is a run from `s`, and `Outcome` the state it leads to. */
  predicate IsRun(s: State, steps: seq<Step>)
    decreases |steps|
  {
    steps == [] || (Enabled(s, steps[0]) && IsRun(Next(s, steps[0]), steps[1..]))
  }

  function Outcome(s: State, steps: seq<Step>): State
    requires IsRun(s, steps)
    decreases |steps|
  {
    if steps == [] then s else Outcome(Next(s, steps[0]), steps[1..])
  }

  // ----- what may be observed of one driver

  datatype Phase = New | Live | Signalled | ChannelShut | CloseSent | Shut | Broken

  /** Registered once, any number of heartbeats, then, once each and in this order: the done
      signal is received, the channel closed, the server told to close, the plugin closed. */
  function Advance(p: Phase, e: Event): Phase {
    match (p, e)
    case (New, Registered(_)) => Live
    case (Live, BeatSent(_)) => Live
    case (Live, DoneReceived(_)) => Signalled
    case (Signalled, ChannelClosed(_)) => ChannelShut
    case (ChannelShut, CloseCalled(_)) => CloseSent
    case (CloseSent, PluginClosed(_)) => Shut
    case _ => Broken
  }

  function Watch(log: seq<Event>, d: Id): Phase {
    if log == [] then New
    else
      var before, e := Watch(log[..|log| - 1], d), log[|log| - 1];
      if e.d == d then Advance(before, e) else before
  }

  lemma WatchLogged(log: seq<Event>, e: Event)
    ensures forall d :: Watch(log + [e], d) == if e.d == d then Advance(Watch(log, d), e) else Watch(log, d)
  {
    assert (log + [e])[..|log + [e]| - 1] == log;
  }

  // ----- the invariant

  /** How far driver `listed[j]` is, given where the closer is. */
  function PhaseAt(c: Closer, j: nat): Phase {
    match c
    case Free => Live
    case At(i, stage) =>
      if j < i then Shut
      else if j > i || stage == Signal then Live
      else if stage == CloseChannel then Signalled
      else if stage == CallClose then ChannelShut
      else CloseSent
  }

  ghost predicate Consistent(x: Driver, p: Phase) {
    && (x.beat == Exited <==> p != Live)
    && (x.channelClosed <==> p == ChannelShut || p == CloseSent || p == Shut)
  }

  ghost predicate Inv(s: State) {
    && (forall j, k :: 0 <= j < k < |s.listed| ==> s.listed[j] != s.listed[k])
    && (forall j :: 0 <= j < |s.listed| ==> s.listed[j] in s.drivers)
    && (forall j :: 0 <= j < |s.listed| ==> Watch(s.log, s.listed[j]) == PhaseAt(s.closer, j))
    && (forall d: Id :: d !in s.drivers ==> Watch(s.log, d) == New)
    && (forall d :: d in s.drivers && d !in s.listed ==> Watch(s.log, d) == Shut)
    && (forall d :: d in s.drivers ==> Consistent(s.drivers[d], Watch(s.log, d)))
    && (forall d :: d in s.drivers && s.drivers[d].built ==> s.drivers[d].beat != NotStarted)
    && (s.closer.At? ==> s.closer.i <= |s.listed| && (s.closer.i == |s.listed| ==> s.closer.stage == Signal))
  }

  /** The one step that panics: a Close has come to the plugin of a driver whose construction
      has not set it yet. */
  predicate ClosesUnbuilt(s: State, step: Step)
    requires Enabled(s, step)
  {
    step == Close && s.closer.stage == ClosePlugin && !s.drivers[s.listed[s.closer.i]].built
  }

  /** The closer takes one of its four actions at a driver. */
  predicate Moves(c: Closer, c': Closer, e: Event) {
    c.At? &&
    match c.stage
    case Signal => c' == At(c.i, CloseChannel) && e.DoneReceived?
    case CloseChannel => c' == At(c.i, CallClose) && e.ChannelClosed?
    case CallClose => c' == At(c.i, ClosePlugin) && e.CloseCalled?
    case ClosePlugin => c' == At(c.i + 1, Signal) && e.PluginClosed?
  }

  lemma OnePhaseMoves(c: Closer, c': Closer, e: Event)
    requires Moves(c, c', e)
    ensures forall j: nat :: PhaseAt(c', j) == if j == c.i then Advance(PhaseAt(c, j), e) else PhaseAt(c, j)
  {
  }

  /** The closer moves on to `c` and takes driver `listed[i]` along. */
  lemma OneDriverMoves(s: State, i: nat, x: Driver, c: Closer, e: Event)
    requires Inv(s) && s.closer.At? && i == s.closer.i < |s.listed| && e.d == s.listed[i]
    requires Moves(s.closer, c, e) && Consistent(x, PhaseAt(c, i)) && (x.built ==> x.beat != NotStarted)
    ensures Inv(s.(closer := c).With(s.listed[i], x).Logged(e))
  {
    OnePhaseMoves(s.closer, c, e);
    WatchLogged(s.log, e);
    assert Watch(s.log, s.listed[i]) == PhaseAt(s.closer, i);
  }

  lemma ClosePanicsExactly(s: State)
    requires Inv(s) && Enabled(s, Close)
    ensures Next(s, Close).crashed <==> ClosesUnbuilt(s, Close)
  {
    var i := s.closer.i;
    assert Watch(s.log, s.listed[i]) == PhaseAt(s.closer, i);
  }

  lemma CloseKeepsInv(s: State)
    requires Inv(s) && Enabled(s, Close)
    ensures Inv(Next(s, Close))
  {
    var i := s.closer.i;
    var d := s.listed[i];
    var x := s.drivers[d];
    assert Watch(s.log, d) == PhaseAt(s.closer, i);
    assert s.drivers[d := x] == s.drivers;
    match s.closer.stage
    case Signal => OneDriverMoves(s, i, x.(beat := Exited), At(i, CloseChannel), DoneReceived(d));
    case CloseChannel => OneDriverMoves(s, i, x.(channelClosed := true), At(i, CallClose), ChannelClosed(d));
    case CallClose => OneDriverMoves(s, i, x, At(i, ClosePlugin), CloseCalled(d));
    case ClosePlugin => OneDriverMoves(s, i, x, At(i + 1, Signal), PluginClosed(d));
  }

  lemma GoroutineKeepsInv(s: State, d: Id, x: Driver)
    requires Inv(s) && d in s.drivers && Consistent(x, Watch(s.log, d)) && (x.built ==> x.beat != NotStarted)
    ensures Inv(s.With(d, x))
  {
  }

  lemma RegisterKeepsInv(s: State, d: Id)
    requires Inv(s) && Enabled(s, Register(d))
    ensures Inv(Next(s, Register(d)))
  {
    WatchLogged(s.log, Registered(d));
    assert Watch(s.log, d) == New && d !in s.listed;
  }

  lemma BeatKeepsInv(s: State, d: Id)
    requires Inv(s) && d in s.drivers && s.drivers[d].beat == Calling
    ensures Inv(s.Logged(BeatSent(d)))
  {
    assert Watch(s.log, d) == Live;
    WatchLogged(s.log, BeatSent(d));
    assert forall x: Id :: Watch(s.log + [BeatSent(d)], x) == Watch(s.log, x);
  }

  /** Every step of any goroutine keeps the invariant, and panics in the one case only. */
  lemma StepKeepsInv(s: State, step: Step)
    requires Inv(s) && Enabled(s, step)
    ensures Inv(Next(s, step)) && (Next(s, step).crashed <==> ClosesUnbuilt(s, step))
  {
    match step
    case Register(d) => RegisterKeepsInv(s, d);
    case StartBeat(d) => GoroutineKeepsInv(s, d, s.drivers[d].(beat := Selecting));
    case Build(d) => GoroutineKeepsInv(s, d, s.drivers[d].(built := true));
    case Tick(d) =>
      GoroutineKeepsInv(s, d, s.drivers[d].(beat := Calling));
      BeatKeepsInv(s.With(d, s.drivers[d].(beat := Calling)), d);
    case ReplyOk(d) => GoroutineKeepsInv(s, d, s.drivers[d].(beat := Selecting));
    case ReplyFails(d) => GoroutineKeepsInv(s, d, s.drivers[d].(beat := SelfClosing));
    case Close =>
      CloseKeepsInv(s);
      ClosePanicsExactly(s);
    case _ =>
  }

  // ----- every run

  /** Somewhere in the run a Close reaches a plugin that is not set. */
  predicate Overtakes(s: State, steps: seq<Step>)
    requires IsRun(s, steps)
    decreases |steps|
  {
    steps != [] && (ClosesUnbuilt(s, steps[0]) || Overtakes(Next(s, steps[0]), steps[1..]))
  }

  lemma {:induction false} RunsKeepInv(s: State, steps: seq<Step>)
    requires Inv(s) && !s.crashed && IsRun(s, steps)
    ensures Inv(Outcome(s, steps)) && (Outcome(s, steps).crashed <==> Overtakes(s, steps))
    decreases |steps|
  {
    if steps != [] {
      StepKeepsInv(s, steps[0]);
      if ClosesUnbuilt(s, steps[0]) {
        assert steps[1..] == [];
      } else {
        RunsKeepInv(Next(s, steps[0]), steps[1..]);
      }
    }
  }

  /** In every run, whatever the interleaving of constructions, heartbeats and Close calls and
      whichever heartbeats fail: it panics if and only if a Close reaches a plugin that is not
      set; every driver is closed at most once, and its signal, channel, server and plugin are
      closed in that order with no heartbeat in between; and whenever no Close is under way,
      every driver is either still open and live or has been closed completely. */
  lemma RunsAreSafe(steps: seq<Step>)
    requires IsRun(Init, steps)
    ensures var t := Outcome(Init, steps);
            && Inv(t) && (t.crashed <==> Overtakes(Init, steps))
            && (forall d: Id :: Watch(t.log, d) != Broken)
            && (t.closer.Free? ==>
                 forall d :: d in t.drivers ==> Watch(t.log, d) == if d in t.listed then Live else Shut)
  {
    RunsKeepInv(Init, steps);
    var t := Outcome(Init, steps);
    forall d: Id ensures Watch(t.log, d) != Broken
                 ensures t.closer.Free? && d in t.listed ==> Watch(t.log, d) == Live {
      if d in t.listed {
        var j :| 0 <= j < |t.listed| && t.listed[j] == d;
      }
    }
  }

  /** A driver's plugin is set exactly once the run has taken that step of its construction. */
  lemma {:induction false} BuiltExactly(s: State, steps: seq<Step>, d: Id)
    requires IsRun(s, steps)
    ensures var t := Outcome(s, steps);
            d in t.drivers && t.drivers[d].built <==> (d in s.drivers && s.drivers[d].built) || Build(d) in steps
    decreases |steps|
  {
    if steps != [] {
      var s' := Next(s, steps[0]);
      assert d in s'.drivers && s'.drivers[d].built <==>
        (d in s.drivers && s.drivers[d].built) || steps[0] == Build(d);
      BuiltExactly(s', steps[1..], d);
      assert steps == [steps[0]] + steps[1..];
    }
  }

  // ----- when constructions end before a Close begins

  predicate ListedAreBuilt(s: State) {
    forall i :: 0 <= i < |s.listed| ==> s.listed[i] in s.drivers && s.drivers[s.listed[i]].built
  }

  /** Drivers are fully constructed by the time someone closes the factory. */
  predicate IsOrderly(s: State, steps: seq<Step>)
    requires IsRun(s, steps)
    decreases |steps|
  {
    steps == [] ||
    ((steps[0].Acquire? ==> ListedAreBuilt(s)) && IsOrderly(Next(s, steps[0]), steps[1..]))
  }

  lemma OrderlyStep(s: State, step: Step)
    requires Enabled(s, step) && (s.closer.At? || step.Acquire? ==> ListedAreBuilt(s))
    ensures !ClosesUnbuilt(s, step)
    ensures Next(s, step).closer.At? ==> ListedAreBuilt(Next(s, step))
  {
  }

  /** Such runs never panic. */
  lemma {:induction false} OrderlyRunsNeverPanic(s: State, steps: seq<Step>)
    requires Inv(s) && !s.crashed && IsRun(s, steps) && IsOrderly(s, steps)
    requires s.closer.At? ==> ListedAreBuilt(s)
    ensures !Outcome(s, steps).crashed
    decreases |steps|
  {
    if steps != [] {
      OrderlyStep(s, steps[0]);
      StepKeepsInv(s, steps[0]);
      OrderlyRunsNeverPanic(Next(s, steps[0]), steps[1..]);
    }
  }

  // ----- progress

  /** No heartbeat of any driver has failed. */
  predicate NoneFailed(s: State) { forall d :: d in s.drivers ==> s.drivers[d].beat != SelfClosing }

  predicate NoReplyFails(steps: seq<Step>) { forall i :: 0 <= i < |steps| ==> !steps[i].ReplyFails? }

  /** Only a heartbeat that fails makes a goroutine wait for itself: in every run without one, each
      goroutine is in its select or in a call, or has not started or has taken the done signal. */
  lemma {:induction false} GoodHeartbeatsDoNotBlock(s: State, steps: seq<Step>)
    requires NoneFailed(s) && IsRun(s, steps) && NoReplyFails(steps)
    ensures NoneFailed(Outcome(s, steps))
    decreases |steps|
  {
    if steps != [] {
      assert !steps[0].ReplyFails?;
      GoodHeartbeatsDoNotBlock(Next(s, steps[0]), steps[1..]);
    }
  }

  /** How many actions a Close under way still has to take, and replies it may have to wait for. */
  function Remaining(s: State): nat
    requires s.closer.At? && s.closer.i <= |s.listed|
  {
    var stages :=
      match s.closer.stage case Signal => 5 case CloseChannel => 3 case CallClose => 2 case ClosePlugin => 1;
    5 * (|s.listed| - s.closer.i) + stages -
    if s.closer.i < |s.listed| && s.listed[s.closer.i] in s.drivers && s.closer.stage == Signal
       && s.drivers[s.listed[s.closer.i]].beat != Calling then 1 else 0
  }

  /** A Close can go through: nothing is crashed, blocked or half-built. */
  ghost predicate CanClose(s: State) { Inv(s) && !s.crashed && NoneFailed(s) && ListedAreBuilt(s) }

  /** The next thing to happen. */
  function NextAction(s: State): Step
    requires s.closer.At?
  {
    if s.closer.i >= |s.listed| then Release
    else
      var d := s.listed[s.closer.i];
      if s.closer.stage == Signal && d in s.drivers && s.drivers[d].beat == Calling then ReplyOk(d) else Close
  }

  lemma NextActionIsPossible(s: State)
    requires CanClose(s) && s.closer.At?
    ensures Enabled(s, NextAction(s))
  {
    if s.closer.i < |s.listed| {
      assert Watch(s.log, s.listed[s.closer.i]) == PhaseAt(s.closer, s.closer.i);
    }
  }

  lemma NextActionGoesOn(s: State)
    requires CanClose(s) && s.closer.At? && Enabled(s, NextAction(s)) && NextAction(s) != Release
    ensures var s' := Next(s, NextAction(s));
            CanClose(s') && s'.closer.At? && Remaining(s') < Remaining(s) && s'.drivers.Keys == s.drivers.Keys
  {
    StepKeepsInv(s, NextAction(s));
    OrderlyStep(s, NextAction(s));
  }

  /** A Close under way goes through, whatever heartbeat calls are still to return. */
  lemma {:induction false} CloseGoesThrough(s: State) returns (steps: seq<Step>)
    requires CanClose(s) && s.closer.At?
    ensures IsRun(s, steps) && NoReplyFails(steps)
    ensures var t := Outcome(s, steps);
            Inv(t) && !t.crashed && t.closer.Free? && t.listed == [] && t.drivers.Keys == s.drivers.Keys
    decreases Remaining(s)
  {
    var step := NextAction(s);
    NextActionIsPossible(s);
    var s' := Next(s, step);
    StepKeepsInv(s, step);
    var rest := [];
    if step != Release {
      NextActionGoesOn(s);
      rest := CloseGoesThrough(s');
    }
    Prepend(s, step, rest);
    steps := [step] + rest;
  }

  /** From every state that is reached without a failed heartbeat, once the drivers that are listed
      have been built, a Close can go through; then every driver there is has been signalled, its
      channel closed, its server told and its plugin closed, exactly once each. */
  lemma EveryDriverCanBeClosed(run: seq<Step>) returns (more: seq<Step>)
    requires IsRun(Init, run) && NoReplyFails(run)
    requires !Outcome(Init, run).crashed && ListedAreBuilt(Outcome(Init, run))
    ensures var s := Outcome(Init, run);
            && IsRun(s, more) && Outcome(s, more).closer.Free?
            && forall d :: d in s.drivers ==> d in Outcome(s, more).drivers && Watch(Outcome(s, more).log, d) == Shut
  {
    RunsKeepInv(Init, run);
    GoodHeartbeatsDoNotBlock(Init, run);
    var s := Outcome(Init, run);
    if s.closer.At? {
      more := CloseGoesThrough(s);
    } else {
      StepKeepsInv(s, Acquire);
      more := CloseGoesThrough(Next(s, Acquire));
      Prepend(s, Acquire, more);
      more := [Acquire] + more;
    }
  }

  /** When a Close returns, every driver there is has been closed. */
  lemma CompletedCloseShutsAll(s: State, d: Id)
    requires Inv(s) && Enabled(s, Release) && d in s.drivers
    ensures Watch(Next(s, Release).log, d) == Shut
  {
    if d in s.listed {
      var j :| 0 <= j < |s.listed| && s.listed[j] == d;
      assert Watch(s.log, s.listed[j]) == PhaseAt(s.closer, j);
    }
  }

  /** A Close under way can always take its next action, unless the driver it has come to is
      busy: its goroutine has not started, a heartbeat call of it has not returned, or one has
      failed. */
  lemma CloseIsNeverStuck(s: State)
    requires Inv(s) && !s.crashed && s.closer.At?
    ensures || Enabled(s, Release) || Enabled(s, Close)
            || (var beat := s.drivers[s.listed[s.closer.i]].beat;
                beat == NotStarted || beat == Calling || beat == SelfClosing)
  {
    if s.closer.i < |s.listed| {
      assert Watch(s.log, s.listed[s.closer.i]) == PhaseAt(s.closer, s.closer.i);
    }
  }

  lemma StaysBlocked(s: State, step: Step, d: Id)
    requires Inv(s) && Enabled(s, step) && d in s.drivers && s.drivers[d].beat == SelfClosing
    ensures d in Next(s, step).drivers && Next(s, step).drivers[d].beat == SelfClosing
  {
    assert Watch(s.log, d) == Live;
    if step == Close {
      var i := s.closer.i;
      assert Watch(s.log, s.listed[i]) == PhaseAt(s.closer, i);
      assert s.listed[i] != d;
    }
  }

  lemma LiveHoldsUpClose(s: State, d: Id)
    requires Inv(s) && d in s.drivers && Watch(s.log, d) == Live
    ensures !Enabled(s, Release)
  {
    var j :| 0 <= j < |s.listed| && s.listed[j] == d;
    assert Watch(s.log, s.listed[j]) == PhaseAt(s.closer, j);
  }

  /** A driver one of whose heartbeats has failed is never closed: its goroutine waits for
      itself, and so does any Close that comes to the driver, in every continuation; no Close
      ever returns again. */
  lemma {:induction false} FailedHeartbeatBlocks(s: State, steps: seq<Step>, d: Id)
    requires Inv(s) && IsRun(s, steps)
    requires d in s.drivers && s.drivers[d].beat == SelfClosing
    ensures var t := Outcome(s, steps);
            && d in t.drivers && t.drivers[d].beat == SelfClosing
            && Watch(t.log, d) == Live
            && !Enabled(t, Release)
    decreases |steps|
  {
    if steps == [] {
      LiveHoldsUpClose(s, d);
    } else {
      StaysBlocked(s, steps[0], d);
      StepKeepsInv(s, steps[0]);
      FailedHeartbeatBlocks(Next(s, steps[0]), steps[1..], d);
    }
  }

  lemma Prepend(s: State, step: Step, rest: seq<Step>)
    requires Enabled(s, step) && IsRun(Next(s, step), rest)
    ensures IsRun(s, [step] + rest) && Outcome(s, [step] + rest) == Outcome(Next(s, step), rest)
  {
    assert ([step] + rest)[1..] == rest;
  }

  /** Driver 0 in the middle of its construction, and what a Close makes of it. */
  function HalfBuilt(beat: Beat, shut: bool, c: Closer, log: seq<Event>): State {
    State(map[0 := Driver(beat, false, shut)], [0], c, log, false)
  }

  lemma ClosingHalfBuiltPanics(log: seq<Event>) returns (steps: seq<Step>)
    ensures var s := HalfBuilt(Selecting, false, At(0, Signal), log);
            IsRun(s, steps) && Outcome(s, steps).crashed
  {
    var log1 := log + [DoneReceived(0)];
    var log2 := log1 + [ChannelClosed(0)];
    var s3 := HalfBuilt(Selecting, false, At(0, Signal), log);
    var s4 := HalfBuilt(Exited, false, At(0, CloseChannel), log1);
    var s5 := HalfBuilt(Exited, true, At(0, CallClose), log2);
    var s6 := HalfBuilt(Exited, true, At(0, ClosePlugin), log2 + [CloseCalled(0)]);
    steps := [];
    Prepend(s6, Close, steps);
    steps := [Close] + steps;
    assert Next(s5, Close) == s6;
    Prepend(s5, Close, steps);
    steps := [Close] + steps;
    assert Next(s4, Close) == s5;
    Prepend(s4, Close, steps);
    steps := [Close] + steps;
    assert Next(s3, Close) == s4;
    Prepend(s3, Close, steps);
    steps := [Close] + steps;
  }

  /** Without the order, a Close that overtakes a construction meets a plugin that is not set. */
  lemma ClosingTooEarlyPanics() returns (steps: seq<Step>)
    ensures IsRun(Init, steps) && Outcome(Init, steps).crashed
  {
    var log := [Registered(0)];
    var s1 := HalfBuilt(NotStarted, false, Free, log);
    var s2 := HalfBuilt(Selecting, false, Free, log);
    steps := ClosingHalfBuiltPanics(log);
    Prepend(s2, Acquire, steps);
    steps := [Acquire] + steps;
    assert Next(s1, StartBeat(0)) == s2;
    Prepend(s1, StartBeat(0), steps);
    steps := [StartBeat(0)] + steps;
    assert Next(Init, Register(0)) == s1;
    Prepend(Init, Register(0), steps);
    steps := [Register(0)] + steps;
  }

  lemma FailingHeartbeat() returns (steps: seq<Step>)
    ensures IsRun(Init, steps)
    ensures Outcome(Init, steps) == HalfBuilt(SelfClosing, false, Free, [Registered(0)] + [BeatSent(0)])
  {
    var log := [Registered(0)];
    var s1 := HalfBuilt(NotStarted, false, Free, log);
    var s2 := HalfBuilt(Selecting, false, Free, log);
    var s3 := HalfBuilt(Calling, false, Free, log + [BeatSent(0)]);
    steps := [];
    assert Next(s3, ReplyFails(0)) == HalfBuilt(SelfClosing, false, Free, log + [BeatSent(0)]);
    Prepend(s3, ReplyFails(0), steps);
    steps := [ReplyFails(0)] + steps;
    assert Next(s2, Tick(0)) == s3;
    Prepend(s2, Tick(0), steps);
    steps := [Tick(0)] + steps;
    assert Next(s1, StartBeat(0)) == s2;
    Prepend(s1, StartBeat(0), steps);
    steps := [StartBeat(0)] + steps;
    assert Next(Init, Register(0)) == s1;
    Prepend(Init, Register(0), steps);
    steps := [Register(0)] + steps;
  }

  /** One driver, one heartbeat, and it fails: from then on no Close ever returns. */
  lemma OneFailedHeartbeat() returns (steps: seq<Step>)
    ensures IsRun(Init, steps) && Outcome(Init, steps).listed == [0]
    ensures forall more :: IsRun(Outcome(Init, steps), more) ==> !Enabled(Outcome(Outcome(Init, steps), more), Release)
  {
    steps := FailingHeartbeat();
    var t := Outcome(Init, steps);
    RunsKeepInv(Init, steps);
    forall more | IsRun(t, more) ensures !Enabled(Outcome(t, more), Release) {
      FailedHeartbeatBlocks(t, more, 0);
    }
  }
}
