/** Goroutines that each produce one value and send it on a shared unbuffered channel, and a
    collector that receives as many values as there are goroutines and then closes the
    channel.  A run is any interleaving of their steps. */
module FanIn {

  datatype Worker<T> = Working | Holding(value: T) | Sent(value: T)

  /** `ran` lists the workers that have done their work, in order. */
  datatype State<T> = State(workers: seq<Worker<T>>, ran: seq<nat>, received: seq<T>, closed: bool, panicked: bool)

  datatype Step<T> = Produce(i: nat, value: T) | Send(i: nat) | CloseChannel

  function Init<T>(n: nat): State<T> {
    State(seq(n, _ => Working), [], [], false, false)
  }

  /** A send is received at once unless the collector has stopped receiving; then it waits,
      and it panics once the channel is closed. */
  predicate Enabled<T>(s: State<T>, step: Step<T>) {
    && !s.panicked
    && match step
       case Produce(i, _) => i < |s.workers| && s.workers[i].Working?
       case Send(i) =>
         i < |s.workers| && s.workers[i].Holding? && (s.closed || |s.received| < |s.workers|)
       case CloseChannel => !s.closed && |s.received| == |s.workers|
  }

  function Next<T>(s: State<T>, step: Step<T>): State<T>
    requires Enabled(s, step)
  {
    match step
    case Produce(i, v) => s.(workers := s.workers[i := Holding(v)], ran := s.ran + [i])
    case Send(i) =>
      if s.closed then s.(panicked := true)
      else
        var v := s.workers[i].value;
        s.(workers := s.workers[i := Sent(v)], received := s.received + [v])
    case CloseChannel => s.(closed := true)
  }

  predicate IsRun<T>(s: State<T>, steps: seq<Step<T>>)
    decreases |steps|
  {
    steps == [] || (Enabled(s, steps[0]) && IsRun(Next(s, steps[0]), steps[1..]))
  }

  function Outcome<T>(s: State<T>, steps: seq<Step<T>>): State<T>
    requires IsRun(s, steps)
    decreases |steps|
  {
    if steps == [] then s else Outcome(Next(s, steps[0]), steps[1..])
  }

  // ----- counting what has been sent

  function Own<T>(w: Worker<T>): multiset<T> { if w.Sent? then multiset{w.value} else multiset{} }

  function Tally<T>(ws: seq<Worker<T>>): multiset<T> {
    if ws == [] then multiset{} else Tally(ws[..|ws| - 1]) + Own(ws[|ws| - 1])
  }

  lemma {:induction false} TallyUpdate<T>(ws: seq<Worker<T>>, i: nat, w: Worker<T>)
    requires i < |ws| && !ws[i].Sent?
    ensures Tally(ws[i := w]) == Tally(ws) + Own(w)
  {
    var n := |ws| - 1;
    var front, last := ws[..n], ws[n];
    assert ws == front + [last];
    if i == n {
      assert ws[i := w] == front + [w];
      TallyConcat(front, w);
    } else {
      assert ws[i := w] == front[i := w] + [last];
      TallyConcat(front[i := w], last);
      TallyUpdate(front, i, w);
      Swap(Tally(front), Own(w), Own(last));
    }
    TallyConcat(front, last);
  }

  lemma TallyConcat<T>(ws: seq<Worker<T>>, w: Worker<T>)
    ensures Tally(ws + [w]) == Tally(ws) + Own(w)
  {
    assert (ws + [w])[..|ws|] == ws;
  }

  lemma Swap<T>(a: multiset<T>, b: multiset<T>, c: multiset<T>)
    ensures a + b + c == a + c + b
  {
  }

  lemma {:induction false} TallyFull<T>(ws: seq<Worker<T>>)
    ensures |Tally(ws)| <= |ws|
    ensures |Tally(ws)| == |ws| ==> forall i :: 0 <= i < |ws| ==> ws[i].Sent?
  {
    if ws != [] { TallyFull(ws[..|ws| - 1]); }
  }

  lemma {:induction false} TallyOfWorking<T>(ws: seq<Worker<T>>)
    requires forall i :: 0 <= i < |ws| ==> ws[i].Working?
    ensures Tally(ws) == multiset{}
  {
    if ws != [] { TallyOfWorking(ws[..|ws| - 1]); }
  }

  /** The values of the workers, once all have sent theirs. */
  function Values<T>(ws: seq<Worker<T>>): seq<T>
    requires forall i :: 0 <= i < |ws| ==> ws[i].Sent?
  {
    seq(|ws|, i requires 0 <= i < |ws| => ws[i].value)
  }

  lemma {:induction false} TallyIsValues<T>(ws: seq<Worker<T>>)
    requires forall i :: 0 <= i < |ws| ==> ws[i].Sent?
    ensures Tally(ws) == multiset(Values(ws))
  {
    if ws == [] {
      assert Values(ws) == [];
    } else {
      TallyIsValues(ws[..|ws| - 1]);
      assert Values(ws) == Values(ws[..|ws| - 1]) + [ws[|ws| - 1].value];
    }
  }

  // ----- every interleaving

  ghost predicate Inv<T>(s: State<T>) {
    && !s.panicked
    && multiset(s.received) == Tally(s.workers)
    && (s.closed ==> |s.received| == |s.workers|)
    && (forall i: nat :: i in s.ran <==> i < |s.workers| && !s.workers[i].Working?)
    && (forall j, k :: 0 <= j < k < |s.ran| ==> s.ran[j] != s.ran[k])
  }

  lemma InitHolds<T>(n: nat)
    ensures Inv(Init<T>(n))
  {
    TallyOfWorking(Init<T>(n).workers);
  }

  lemma ProduceKeepsInv<T>(s: State<T>, i: nat, v: T)
    requires Inv(s) && Enabled(s, Produce(i, v))
    ensures Inv(Next(s, Produce(i, v)))
  {
    TallyUpdate(s.workers, i, Holding(v));
    var t := Next(s, Produce(i, v));
    forall j: nat ensures j in t.ran <==> j < |t.workers| && !t.workers[j].Working? {
      assert j in t.ran <==> j in s.ran || j == i;
    }
  }

  lemma SendKeepsInv<T>(s: State<T>, i: nat)
    requires Inv(s) && Enabled(s, Send(i))
    ensures Inv(Next(s, Send(i)))
  {
    TallyFull(s.workers);
    assert |s.received| == |multiset(s.received)|;
    TallyUpdate(s.workers, i, Sent(s.workers[i].value));
  }

  lemma StepKeepsInv<T>(s: State<T>, step: Step<T>)
    requires Inv(s) && Enabled(s, step)
    ensures Inv(Next(s, step)) && |Next(s, step).workers| == |s.workers|
  {
    match step
    case Produce(i, v) => ProduceKeepsInv(s, i, v);
    case Send(i) => SendKeepsInv(s, i);
    case CloseChannel =>
  }

  /** In every run: no send on the closed channel, no worker does its work twice; and when
      the channel is closed every worker has done its work once and has been heard once, so
      that the values received are those of the workers in some order. */
  lemma {:induction false} RunsCollectOnce<T>(s: State<T>, steps: seq<Step<T>>)
    requires Inv(s) && IsRun(s, steps)
    ensures var t := Outcome(s, steps);
            && Inv(t) && !t.panicked && |t.workers| == |s.workers|
            && (t.closed ==>
                 && (forall i :: 0 <= i < |t.workers| ==> t.workers[i].Sent?)
                 && multiset(t.received) == multiset(Values(t.workers))
                 && (forall i: nat :: i in t.ran <==> i < |t.workers|))
    decreases |steps|
  {
    if steps == [] {
      if s.closed {
        TallyFull(s.workers);
        assert |s.received| == |multiset(s.received)|;
        TallyIsValues(s.workers);
      }
    } else {
      StepKeepsInv(s, steps[0]);
      RunsCollectOnce(Next(s, steps[0]), steps[1..]);
    }
  }

  /** How many steps are left at most. */
  function Remaining<T>(s: State<T>): nat { Pending(s.workers) + if s.closed then 0 else 1 }

  function Pending<T>(ws: seq<Worker<T>>): nat {
    if ws == [] then 0
    else Pending(ws[..|ws| - 1]) + match ws[|ws| - 1] case Working => 2 case Holding(_) => 1 case Sent(_) => 0
  }

  lemma {:induction false} PendingUpdate<T>(ws: seq<Worker<T>>, i: nat, w: Worker<T>)
    requires i < |ws| && (if ws[i].Working? then w.Holding? else ws[i].Holding? && w.Sent?)
    ensures Pending(ws[i := w]) == Pending(ws) - 1
  {
    var n := |ws| - 1;
    if i == n {
      assert ws[i := w][..n] == ws[..n];
    } else {
      assert ws[i := w][..n] == ws[..n][i := w];
      PendingUpdate(ws[..n], i, w);
    }
  }

  lemma {:induction false} WhoIsPending<T>(ws: seq<Worker<T>>)
    ensures |Tally(ws)| == |ws| || exists i :: 0 <= i < |ws| && !ws[i].Sent?
  {
    if ws != [] {
      WhoIsPending(ws[..|ws| - 1]);
      assert forall i :: 0 <= i < |ws| - 1 ==> ws[i] == ws[..|ws| - 1][i];
    }
  }

  /** Nobody waits forever: until the channel is closed some step is possible, and every step
      brings the end closer. */
  lemma RunsTerminate<T>(s: State<T>, v: T)
    requires Inv(s)
    ensures s.closed || Enabled(s, CloseChannel) || exists i :: Enabled(s, Produce(i, v)) || Enabled(s, Send(i))
    ensures forall step :: Enabled(s, step) ==> Remaining(Next(s, step)) < Remaining(s)
  {
    assert |s.received| == |multiset(s.received)|;
    TallyFull(s.workers);
    WhoIsPending(s.workers);
    if !s.closed && |s.received| < |s.workers| {
      var i :| 0 <= i < |s.workers| && !s.workers[i].Sent?;
      assert Enabled(s, Produce(i, v)) || Enabled(s, Send(i));
    }
    forall step | Enabled(s, step) ensures Remaining(Next(s, step)) < Remaining(s) {
      match step
      case Produce(i, v) => PendingUpdate(s.workers, i, Holding(v));
      case Send(i) => PendingUpdate(s.workers, i, Sent(s.workers[i].value));
      case CloseChannel =>
    }
  }

  // ----- every order of arrival arises

  function Due<T>(w: Worker<T>, v: T): multiset<T> { if w.Working? then multiset{v} else multiset{} }

  /** The values of the workers that have not done their work yet. */
  function Waiting<T>(ws: seq<Worker<T>>, values: seq<T>): multiset<T>
    requires |values| == |ws|
  {
    if ws == [] then multiset{}
    else
      var n := |ws| - 1;
      Waiting(ws[..n], values[..n]) + Due(ws[n], values[n])
  }

  lemma {:induction false} WhoIsWaiting<T>(ws: seq<Worker<T>>, values: seq<T>, v: T) returns (i: nat)
    requires |values| == |ws| && v in Waiting(ws, values)
    ensures i < |ws| && ws[i].Working? && values[i] == v
  {
    var n := |ws| - 1;
    if ws[n].Working? && values[n] == v {
      i := n;
    } else {
      i := WhoIsWaiting(ws[..n], values[..n], v);
    }
  }

  lemma WaitingConcat<T>(ws: seq<Worker<T>>, values: seq<T>, w: Worker<T>, v: T)
    requires |values| == |ws|
    ensures Waiting(ws + [w], values + [v]) == Waiting(ws, values) + Due(w, v)
  {
    assert (ws + [w])[..|ws|] == ws && (values + [v])[..|ws|] == values;
  }

  lemma {:induction false} OneLessWaiting<T>(ws: seq<Worker<T>>, values: seq<T>, i: nat, w: Worker<T>)
    requires |values| == |ws| && i < |ws| && ws[i].Working? && !w.Working?
    ensures Waiting(ws, values) == Waiting(ws[i := w], values) + multiset{values[i]}
  {
    var n := |ws| - 1;
    var front, last, vs, v := ws[..n], ws[n], values[..n], values[n];
    assert ws == front + [last] && values == vs + [v];
    WaitingConcat(front, vs, last, v);
    if i == n {
      assert ws[i := w] == front + [w];
      WaitingConcat(front, vs, w, v);
    } else {
      assert ws[i := w] == front[i := w] + [last];
      WaitingConcat(front[i := w], vs, last, v);
      OneLessWaiting(front, vs, i, w);
      Swap(Waiting(front[i := w], vs), multiset{values[i]}, Due(last, v));
    }
  }

  lemma {:induction false} AllAreWaiting<T>(ws: seq<Worker<T>>, values: seq<T>)
    requires |values| == |ws| && forall i :: 0 <= i < |ws| ==> ws[i].Working?
    ensures Waiting(ws, values) == multiset(values)
  {
    if ws != [] {
      var n := |ws| - 1;
      AllAreWaiting(ws[..n], values[..n]);
      assert values == values[..n] + [values[n]];
    }
  }

  /** Every worker that works produces its own value. */
  predicate Produces<T(==)>(values: seq<T>, step: Step<T>) {
    step.Produce? ==> step.i < |values| && step.value == values[step.i]
  }

  /** Each worker is still to work, or has sent its own value. */
  ghost predicate HalfWay<T>(s: State<T>, values: seq<T>) {
    && !s.closed && !s.panicked && |s.workers| == |values|
    && forall i :: 0 <= i < |values| ==> s.workers[i] == Working || s.workers[i] == Sent(values[i])
  }

  lemma TwoSteps<T>(s: State<T>, i: nat, v: T, steps: seq<Step<T>>)
    requires !s.closed && !s.panicked && i < |s.workers| && s.workers[i].Working? && |s.received| < |s.workers|
    requires IsRun(Heard(s, i, v), steps)
    ensures var all := [Produce(i, v), Send(i)] + steps;
            IsRun(s, all) && Outcome(s, all) == Outcome(Heard(s, i, v), steps)
  {
    var all := [Produce(i, v), Send(i)] + steps;
    var s1 := Next(s, Produce(i, v));
    assert s1.workers[i := Sent(v)] == s.workers[i := Sent(v)];
    assert all[1..][1..] == steps && all[1..][0] == Send(i);
    assert Outcome(s, all) == Outcome(s1, all[1..]) == Outcome(Next(s1, Send(i)), steps);
  }

  lemma Cancel<T>(a: multiset<T>, b: multiset<T>, c: multiset<T>)
    requires a + c == b + c
    ensures a == b
  {
    assert a == (a + c) - c && b == (b + c) - c;
  }

  /** Worker `i` has sent its value. */
  function Heard<T>(s: State<T>, i: nat, v: T): State<T>
    requires i < |s.workers|
  {
    s.(workers := s.workers[i := Sent(v)], ran := s.ran + [i], received := s.received + [v])
  }

  lemma HeardIsHalfWay<T>(s: State<T>, values: seq<T>, i: nat)
    requires HalfWay(s, values) && i < |values|
    ensures HalfWay(Heard(s, i, values[i]), values)
  {
  }

  lemma FirstOfRest<T>(rest: seq<T>)
    requires rest != []
    ensures multiset(rest) == multiset(rest[1..]) + multiset{rest[0]}
  {
    assert rest == [rest[0]] + rest[1..];
  }

  lemma LessIsWaiting<T>(ws: seq<Worker<T>>, values: seq<T>, rest: seq<T>, i: nat)
    requires |ws| == |values| && rest != [] && multiset(rest) == Waiting(ws, values)
    requires i < |values| && ws[i].Working? && values[i] == rest[0]
    ensures multiset(rest[1..]) == Waiting(ws[i := Sent(rest[0])], values)
  {
    OneLessWaiting(ws, values, i, Sent(rest[0]));
    FirstOfRest(rest);
    Cancel(multiset(rest[1..]), Waiting(ws[i := Sent(rest[0])], values), multiset{rest[0]});
  }

  /** Every worker that has been heard has sent its own value. */
  ghost predicate OwnValues<T>(s: State<T>, values: seq<T>) {
    && |s.workers| == |values|
    && forall i :: 0 <= i < |values| && s.workers[i].Sent? ==> s.workers[i].value == values[i]
  }

  /** In these steps the rest of the values arrives, and the channel is closed. */
  ghost predicate Arrives<T>(s: State<T>, values: seq<T>, rest: seq<T>, steps: seq<Step<T>>) {
    && IsRun(s, steps) && Outcome(s, steps).closed && Outcome(s, steps).received == s.received + rest
    && OwnValues(Outcome(s, steps), values)
    && forall i :: 0 <= i < |steps| ==> Produces(values, steps[i])
  }

  lemma NothingArrives<T>(s: State<T>, values: seq<T>)
    requires HalfWay(s, values) && |s.received| == |values|
    ensures Arrives(s, values, [], [CloseChannel])
  {
    var steps := [CloseChannel];
    assert s.received + [] == s.received && steps[1..] == [];
    assert Outcome(s, steps) == s.(closed := true);
  }

  lemma OneArrives<T>(s: State<T>, values: seq<T>, rest: seq<T>, i: nat, later: seq<Step<T>>)
    requires HalfWay(s, values) && rest != [] && |s.received| < |values|
    requires i < |values| && s.workers[i].Working? && values[i] == rest[0]
    requires Arrives(Heard(s, i, rest[0]), values, rest[1..], later)
    ensures Arrives(s, values, rest, [Produce(i, rest[0]), Send(i)] + later)
  {
    TwoSteps(s, i, rest[0], later);
    assert s.received + rest == Heard(s, i, rest[0]).received + rest[1..];
    var steps := [Produce(i, rest[0]), Send(i)] + later;
    forall j | 0 <= j < |steps| ensures Produces(values, steps[j]) {
      if j >= 2 { assert steps[j] == later[j - 2]; }
    }
  }

  lemma {:induction false} RestArrives<T>(s: State<T>, values: seq<T>, rest: seq<T>) returns (steps: seq<Step<T>>)
    requires HalfWay(s, values) && multiset(rest) == Waiting(s.workers, values)
    requires |s.received| + |rest| == |values|
    ensures Arrives(s, values, rest, steps)
    decreases |rest|
  {
    if rest == [] {
      NothingArrives(s, values);
      steps := [CloseChannel];
    } else {
      assert rest[0] in multiset(rest);
      var i := WhoIsWaiting(s.workers, values, rest[0]);
      HeardIsHalfWay(s, values, i);
      LessIsWaiting(s.workers, values, rest, i);
      var later := RestArrives(Heard(s, i, rest[0]), values, rest[1..]);
      OneArrives(s, values, rest, i, later);
      steps := [Produce(i, rest[0]), Send(i)] + later;
    }
  }

  lemma AtFirst<T>(values: seq<T>, order: seq<T>)
    requires multiset(order) == multiset(values)
    ensures HalfWay(Init(|values|), values) && |order| == |values|
    ensures multiset(order) == Waiting(Init(|values|).workers, values)
  {
    AllAreWaiting(Init<T>(|values|).workers, values);
    assert |order| == |multiset(order)| && |values| == |multiset(values)|;
  }

  /** The workers have sent these values. */
  ghost predicate HasSent<T>(t: State<T>, values: seq<T>) {
    |t.workers| == |values| && forall i :: 0 <= i < |values| ==> t.workers[i] == Sent(values[i])
  }

  lemma AtLast<T>(values: seq<T>, steps: seq<Step<T>>)
    requires IsRun(Init(|values|), steps) && Outcome(Init(|values|), steps).closed
    requires OwnValues(Outcome(Init(|values|), steps), values)
    ensures HasSent(Outcome(Init(|values|), steps), values)
  {
    InitHolds<T>(|values|);
    RunsCollectOnce(Init(|values|), steps);
  }

  /** Whatever order the values of the workers are put in, there is a run in which they arrive in
      this order. */
  lemma EveryOrderArises<T>(values: seq<T>, order: seq<T>) returns (steps: seq<Step<T>>)
    requires multiset(order) == multiset(values)
    ensures IsRun(Init(|values|), steps) && Outcome(Init(|values|), steps).closed
    ensures Outcome(Init(|values|), steps).received == order
    ensures HasSent(Outcome(Init(|values|), steps), values)
    ensures forall i :: 0 <= i < |steps| ==> Produces(values, steps[i])
  {
    AtFirst(values, order);
    steps := RestArrives(Init(|values|), values, order);
    assert [] + order == order;
    AtLast(values, steps);
  }
}
