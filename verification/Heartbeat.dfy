/** The timing of heartbeats between the client's goroutine and the plugin server's select
    loop.  Time is real; a step either lets time pass or is one action of client or server. */
module Heartbeat {

  const INTERVAL: real := 5.0
  const TIMEOUT: real := 10.0
  const SLACK: real := TIMEOUT - INTERVAL

  /** The client.  `prev` is the delay that preceded the current round: that of the last
      reply, or that of the start-up in the first round. */
  datatype Client =
    | Starting(elapsed: real)
    | Waiting(prev: real, waited: real)                   // in the select
    | Beating(prev: real, request: real)                  // a heartbeat is on its way
    | Returning(reply: real)                              // its reply is on its way
    | Closing(prev: real, waited: real, request: real)    // the close call is on its way
    | Finished

  /** `idle` is the time since the server last entered its select. */
  datatype Server = Serving(idle: real) | Closed | TimedOut

  /** `age` is the time since close was called, once it was. */
  datatype State = State(client: Client, server: Server, closeCalled: bool, age: real)

  const Init := State(Starting(0.0), Serving(0.0), false, 0.0)

  datatype Step =
    | Pass(d: real) | Start | Timer | DeliverBeat | Reply | CallClose | TakeDone | DeliverClose | Expire

  /** The select waits at most INTERVAL, and not at all while the done signal is offered. */
  predicate MayPass(s: State, d: real) {
    && d > 0.0
    && (s.client.Waiting? ==> !s.closeCalled && s.client.waited + d <= INTERVAL)
  }

  predicate Enabled(s: State, step: Step) {
    match step
    case Pass(d) => MayPass(s, d)
    case Start => s.client.Starting?
    case Timer => s.client.Waiting? && s.client.waited == INTERVAL
    case DeliverBeat => s.client.Beating? && s.server.Serving?
    case Reply => s.client.Returning?
    case CallClose => !s.closeCalled
    case TakeDone => s.client.Waiting? && s.closeCalled
    case DeliverClose => s.client.Closing? && s.server.Serving?
    case Expire => s.server.Serving? && s.server.idle >= TIMEOUT
  }

  function Older(c: Client, d: real): Client {
    match c
    case Starting(e) => Starting(e + d)
    case Waiting(p, w) => Waiting(p, w + d)
    case Beating(p, r) => Beating(p, r + d)
    case Returning(r) => Returning(r + d)
    case Closing(p, w, r) => Closing(p, w, r + d)
    case Finished => Finished
  }

  function Next(s: State, step: Step): State
    requires Enabled(s, step)
  {
    match step
    case Pass(d) =>
      s.(client := Older(s.client, d),
         server := if s.server.Serving? then Serving(s.server.idle + d) else s.server,
         age := if s.closeCalled then s.age + d else s.age)
    case Start => s.(client := Waiting(s.client.elapsed, 0.0))
    case Timer => s.(client := Beating(s.client.prev, 0.0))
    case DeliverBeat => s.(client := Returning(0.0), server := Serving(0.0))
    case Reply => s.(client := Waiting(s.client.reply, 0.0))
    case CallClose => s.(closeCalled := true)
    case TakeDone => s.(client := Closing(s.client.prev, s.client.waited, 0.0))
    case DeliverClose => s.(client := Finished, server := Closed)
    case Expire => s.(server := TimedOut)
  }

  /** No call has been under way so long that, with the delay before its round, it has used
      up the slack between the interval and the timeout. */
  predicate Timely(s: State) {
    match s.client
    case Starting(e) => e < SLACK
    case Waiting(p, _) => p < SLACK
    case Beating(p, r) => p + r < SLACK
    case Returning(r) => r < SLACK
    case Closing(p, _, r) => p + r < SLACK
    case Finished => true
  }

  /** A run all of whose states are timely. */
  predicate IsTimelyRun(s: State, steps: seq<Step>)
    decreases |steps|
  {
    Timely(s) && (steps == [] || (Enabled(s, steps[0]) && IsTimelyRun(Next(s, steps[0]), steps[1..])))
  }

  function Outcome(s: State, steps: seq<Step>): State
    requires IsTimelyRun(s, steps)
    decreases |steps|
  {
    if steps == [] then s else Outcome(Next(s, steps[0]), steps[1..])
  }

  // ----- the invariant

  /** How long ago the server entered its select, told from the client's side. */
  function Elapsed(c: Client): real
    requires !c.Finished?
  {
    match c
    case Starting(e) => e
    case Waiting(p, w) => p + w
    case Beating(p, r) => p + INTERVAL + r
    case Returning(r) => r
    case Closing(p, w, r) => p + w + r
  }

  /** An upper bound on the time until the server exits, once close has been called. */
  function Left(c: Client): real {
    match c
    case Starting(e) => 2.0 * SLACK - 2.0 * e
    case Waiting(p, w) => if w == INTERVAL then 2.0 * SLACK - p else SLACK - p
    case Beating(p, r) => 2.0 * SLACK - p - r
    case Returning(r) => SLACK - r
    case Closing(p, _, r) => SLACK - p - r
    case Finished => 0.0
  }

  predicate NonNegative(c: Client) {
    match c
    case Starting(e) => e >= 0.0
    case Waiting(p, w) => p >= 0.0 && 0.0 <= w <= INTERVAL
    case Beating(p, r) => p >= 0.0 && r >= 0.0
    case Returning(r) => r >= 0.0
    case Closing(p, w, r) => p >= 0.0 && 0.0 <= w <= INTERVAL && r >= 0.0
    case Finished => true
  }

  predicate Inv(s: State) {
    && NonNegative(s.client)
    && (if s.client.Finished? then s.server == Closed else s.server == Serving(Elapsed(s.client)))
    && (s.client.Closing? || s.client.Finished? ==> s.closeCalled)
    && (if s.closeCalled then s.client.Finished? || s.age + Left(s.client) <= 2.0 * SLACK else s.age == 0.0)
  }

  lemma StepKeepsInv(s: State, step: Step)
    requires Inv(s) && Timely(s) && Enabled(s, step)
    ensures Inv(Next(s, step))
  {
  }

  lemma {:induction false} RunsKeepInv(s: State, steps: seq<Step>)
    requires Inv(s) && IsTimelyRun(s, steps)
    ensures Inv(Outcome(s, steps)) && Timely(Outcome(s, steps))
    decreases |steps|
  {
    if steps != [] {
      StepKeepsInv(s, steps[0]);
      RunsKeepInv(Next(s, steps[0]), steps[1..]);
    }
  }

  /** In a timely run the server never takes its timeout branch; it exits only through its
      close branch, and does so within ten seconds, twice the slack, after close was called. */
  lemma TimelyRunsEndInClose(steps: seq<Step>)
    requires IsTimelyRun(Init, steps)
    ensures var t := Outcome(Init, steps);
            && Inv(t) && !Enabled(t, Expire)
            && t.server != TimedOut
            && (t.server == Closed <==> t.client == Finished)
            && (t.closeCalled && t.age >= 10.0 ==> t.server == Closed)
  {
    RunsKeepInv(Init, steps);
  }

  /** The client can always go on, so a run that stops short of the close has simply not been
      continued: in its select it takes the done signal at once if there is one, and otherwise waits
      for five seconds and then sends a heartbeat. */
  lemma ClientIsNeverStuck(s: State)
    requires Inv(s) && !s.client.Finished?
    ensures s.client.Starting? ==> Enabled(s, Start)
    ensures s.client.Waiting? && s.closeCalled ==> Enabled(s, TakeDone)
    ensures s.client.Waiting? && !s.closeCalled ==>
              if s.client.waited < 5.0 then Enabled(s, Pass(5.0 - s.client.waited)) && !Enabled(s, Timer)
              else Enabled(s, Timer) && Next(s, Timer).client == Beating(s.client.prev, 0.0)
    ensures s.client.Beating? ==> Enabled(s, DeliverBeat)
    ensures s.client.Returning? ==> Enabled(s, Reply)
    ensures s.client.Closing? ==> Enabled(s, DeliverClose)
  {
  }

  /** The bound is exact: the server may time out during a heartbeat call if and only if the
      call's delay and the one before it have used up the slack of five seconds. */
  lemma TimeoutExactly(s: State)
    requires Inv(s) && s.client.Beating?
    ensures Enabled(s, Expire) <==> !Timely(s)
    ensures Enabled(s, Expire) <==> s.client.prev + s.client.request >= 5.0
    ensures Enabled(s, Expire) <==> s.server.idle >= 10.0
  {
  }
}
