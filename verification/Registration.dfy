/**
 Which subscriptions the replicator is to look at: the threads that collect events and the replicator share two maps and
 a one-place channel, and a subscription registers itself only when its window has exactly 1 or 100 events
 (server/server.go).
 */
module Registration {
  import opened Replication

  const MAX_SENT_OR_ACK := 100

  /**
   Where the thread that holds the subscription's lock is: between an event and the registration that follows it, or
   about to stop.
   */
  datatype Collector = CIdle | WillWait | WillUnwait | WillReady | WillSignal | Stopping | StoppingReady

  /**
   Where the replicator is, as far as this subscription goes; `must` says that the flush under way still has to come to
   it.
   */
  datatype Replicator = RIdle | SawWaiting | Moving | Ticked | Flushing(must: bool) | SawReady | Taking

  /**
   One subscription: its window, whether it is in the maps, whether the channel that all share has a token, and both
   threads.
   */
  datatype State = State(w: Window, stopped: bool, waiting: bool, ready: bool, token: bool, c: Collector, r: Replicator)

  const INITIAL := State(EMPTY_WINDOW, false, false, false, false, CIdle, RIdle)

  function Count(w: Window): nat {
    |w.sent| + |w.ack|
  }

  datatype Step =
    | Collect(queue: bool, e: Event) | CWait | CUnwait | CReady | CSignal
    | Stop | StopReady | StopClear | Resume
    | TSee | TDelete | TStore | TCheck | OtherFlush | Notified
    | FSee | FDelete | FTake | FEnd | OtherSignal

  predicate Enabled(st: State, step: Step) {
    match step
    case Collect(_, _) => st.c == CIdle && !st.stopped
    case CWait => st.c == WillWait
    case CUnwait => st.c == WillUnwait
    case CReady => st.c == WillReady
    case CSignal => st.c == WillSignal
    case Stop => st.c == CIdle
    case StopReady => st.c == Stopping
    case StopClear => st.c == StoppingReady
    case Resume => st.c == CIdle
    case TSee => st.r == RIdle && st.waiting
    case TDelete => st.r == SawWaiting
    case TStore => st.r == Moving
    case TCheck => st.r == Ticked
    case OtherFlush => st.r == RIdle
    case Notified => st.r == RIdle && st.token
    case FSee => st.r.Flushing? && st.ready
    case FDelete => st.r == SawReady
    case FTake => st.r == Taking && st.c == CIdle
    case FEnd => st.r.Flushing? && !(st.r.must && st.ready)
    case OtherSignal => true
  }

  /** One operation on a map or on the channel, or one section under the subscription's lock. */
  function Next(st: State, step: Step): State
    requires Enabled(st, step)
  {
    match step
    case Collect(queue, e) =>
      var w := Collected(st.w, queue, e);
      st.(w := w, c := if Count(w) == 1 then WillWait else if Count(w) == MAX_SENT_OR_ACK then WillUnwait else CIdle)
    case CWait => st.(waiting := true, c := CIdle)
    case CUnwait => st.(waiting := false, c := WillReady)
    case CReady => st.(ready := true, c := WillSignal)
    case CSignal => st.(token := true, c := CIdle)
    case Stop => st.(waiting := false, c := Stopping)
    case StopReady => st.(ready := false, c := StoppingReady)
    case StopClear => st.(w := EMPTY_WINDOW, stopped := true, c := CIdle)
    case Resume => st.(stopped := false)
    case TSee => st.(r := SawWaiting)
    case TDelete => st.(waiting := false, r := Moving)
    case TStore => st.(ready := true, r := Ticked)
    case TCheck => st.(r := if st.token then RIdle else Flushing(st.ready))
    case OtherFlush => st.(r := Flushing(st.ready))
    case Notified => st.(token := false, r := Flushing(st.ready))
    case FSee => st.(r := SawReady)
    case FDelete => st.(ready := false, r := Taking)
    case FTake => st.(w := if st.w.Left() then EMPTY_WINDOW else st.w, r := Flushing(false))
    case FEnd => st.(r := RIdle)
    case OtherSignal => st.(token := true)
  }

  /** Something left to replicate is registered, or in the hands of the replicator, or about to be registered. */
  predicate NotForgotten(st: State) {
    st.w.Left() ==>
      || st.waiting || st.ready
      || (st.c != CIdle && st.c != WillSignal)
      || st.r == SawWaiting || st.r == Moving || st.r == SawReady || st.r == Taking
  }

  /**
   A subscription in the ready map will be looked at: the token is there or about to be, or the replicator is on its
   way.
   */
  predicate Awake(st: State) {
    st.ready ==> st.token || st.c == WillSignal || st.r == Ticked || st.r == Flushing(true) || st.r == SawReady
  }

  /** The first event of a window is the one that registers it. */
  lemma FirstRegisters(w: Window, queue: bool, e: Event)
    requires !w.Left()
    ensures Count(Collected(w, queue, e)) == 1
  {
    match e
    case Sent(s) => assert Collected(w, queue, e).sent == {s} && Collected(w, queue, e).ack == {};
    case Acked(s) => assert Collected(w, queue, e).sent == {} && Collected(w, queue, e).ack == {s};
  }

  lemma StepKeeps(st: State, step: Step)
    requires Enabled(st, step) && NotForgotten(st) && Awake(st)
    ensures NotForgotten(Next(st, step)) && Awake(Next(st, step))
  {
    if step.Collect? && !st.w.Left() {
      FirstRegisters(st.w, step.queue, step.e);
    }
  }

  predicate Run(st: State, steps: seq<Step>)
    decreases |steps|
  {
    steps == [] || (Enabled(st, steps[0]) && Run(Next(st, steps[0]), steps[1..]))
  }

  function After(st: State, steps: seq<Step>): State
    requires Run(st, steps)
    decreases |steps|
  {
    if steps == [] then st else After(Next(st, steps[0]), steps[1..])
  }

  /** Over every interleaving, nothing that is left to replicate is forgotten and no wake-up is lost. */
  lemma {:induction false} NeverForgotten(st: State, steps: seq<Step>)
    requires Run(st, steps) && NotForgotten(st) && Awake(st)
    ensures NotForgotten(After(st, steps)) && Awake(After(st, steps))
    decreases |steps|
  {
    if steps != [] {
      StepKeeps(st, steps[0]);
      NeverForgotten(Next(st, steps[0]), steps[1..]);
    }
  }

  lemma FromTheStart(steps: seq<Step>)
    requires Run(INITIAL, steps)
    ensures NotForgotten(After(INITIAL, steps)) && Awake(After(INITIAL, steps))
  {
    NeverForgotten(INITIAL, steps);
  }

  /** When both threads are at rest and the channel is empty, the window is empty or waits for the next tick. */
  lemma AtRest(steps: seq<Step>)
    requires Run(INITIAL, steps)
    requires var st := After(INITIAL, steps); st.c == CIdle && st.r == RIdle && !st.token
    ensures After(INITIAL, steps).w.Left() ==> After(INITIAL, steps).waiting
  {
    FromTheStart(steps);
  }
}
