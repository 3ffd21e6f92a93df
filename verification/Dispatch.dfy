/** Every interleaving of the pause switch with dispatchers and their workers. */
module Dispatch {
  import opened PauseGate

  /** Where a dispatcher stands in its loop. */
  datatype Pc =
    | AtLoop | ReadingGate | Waiting(ch: nat) | Admitting | Handing | Inline | Draining | Returned

  /** A file is queued, then running, then its worker has given back its token, then it is reported. */
  datatype Status = Queued | Running | Released | Reported

  /**
   One call that hands files to at most workers goroutines, or runs them inline when that is
   one. Files keep their list order; next is the first one not yet started.
   */
  datatype Dispatcher = Dispatcher(workers: nat, pc: Pc, files: seq<Status>, next: nat, wg: int, tokens: int) {
    function Set(f: nat, status: Status): Dispatcher
      requires f < |files|
    {
      this.(files := files[f := status])
    }
  }

  predicate Fresh(d: Dispatcher) {
    d.pc == AtLoop && d.next == d.wg == d.tokens == 0 && forall f :: 0 <= f < |d.files| ==> d.files[f] == Queued
  }

  datatype State = State(gate: GateState, paused: bool, cancelled: bool, dispatchers: seq<Dispatcher>)

  /** A worker gives its token back, and only then reports to the wait group. */
  datatype Move = Loop | Release(f: nat) | Report(f: nat)

  datatype Event = Pause | Resume | Cancel | Advance(i: nat, move: Move)

  // ---- Steps ----

  predicate LoopStep(d: Dispatcher, e: Dispatcher, gate: GateState, cancelled: bool) {
    match d.pc
    case AtLoop => e == d.(pc := if d.next < |d.files| && !cancelled then ReadingGate else Draining)
    case ReadingGate => gate.closes != [] && e == d.(pc := Waiting(gate.Current()))
    case Waiting(ch) =>
      (gate.Closed(ch) && e == d.(pc := Admitting)) || (cancelled && e == d.(pc := Draining))
    case Admitting =>
      if d.workers <= 1 then d.next < |d.files| && e == d.Set(d.next, Running).(pc := Inline, next := d.next + 1)
      else e == d.(pc := Handing, wg := d.wg + 1)
    case Handing =>
      && d.tokens < d.workers && d.next < |d.files|
      && e == d.Set(d.next, Running).(pc := AtLoop, next := d.next + 1, tokens := d.tokens + 1)
    case Inline => 0 < d.next <= |d.files| && e == d.Set(d.next - 1, Reported).(pc := AtLoop)
    case Draining => d.wg == 0 && e == d.(pc := Returned)
    case Returned => false
  }

  predicate DispatcherStep(d: Dispatcher, move: Move, e: Dispatcher, gate: GateState, cancelled: bool) {
    match move
    case Loop => LoopStep(d, e, gate, cancelled)
    case Release(f) =>
      && d.workers > 1 && f < |d.files| && d.files[f] == Running
      && e == d.Set(f, Released).(tokens := d.tokens - 1)
    case Report(f) =>
      f < |d.files| && d.files[f] == Released && e == d.Set(f, Reported).(wg := d.wg - 1)
  }

  predicate Step(s: State, ev: Event, t: State) {
    match ev
    case Pause => t == s.(gate := s.gate.Paused(), paused := true)
    case Resume => t == s.(gate := s.gate.Resumed(), paused := false)
    case Cancel => t == s.(cancelled := true)
    case Advance(i, move) =>
      && i < |s.dispatchers| && |t.dispatchers| == |s.dispatchers|
      && DispatcherStep(s.dispatchers[i], move, t.dispatchers[i], s.gate, s.cancelled)
      && t == s.(dispatchers := s.dispatchers[i := t.dispatchers[i]])
  }

  predicate Initial(s: State) {
    && s.gate == RUNNING && !s.paused && !s.cancelled
    && forall i :: 0 <= i < |s.dispatchers| ==> Fresh(s.dispatchers[i])
  }

  /** A run: states and the events between them. */
  predicate Run(states: seq<State>, events: seq<Event>) {
    && |states| == |events| + 1
    && forall i :: 0 <= i < |events| ==> Step(states[i], events[i], states[i + 1])
  }

  // ---- The invariant ----

  /** No channel is closed twice, every superseded one is closed, the current one is open exactly when paused. */
  predicate GateOk(gate: GateState, paused: bool) {
    && gate.closes != []
    && (forall i :: 0 <= i < |gate.closes| - 1 ==> gate.closes[i] == 1)
    && gate.closes[|gate.closes| - 1] == (if paused then 0 else 1)
  }

  predicate Before(pc: Pc) {
    pc.ReadingGate? || pc.Waiting? || pc.Admitting? || pc.Handing?
  }

  function Count(files: seq<Status>, status: Status): nat {
    if files == [] then 0 else Count(files[..|files| - 1], status) + if files[|files| - 1] == status then 1 else 0
  }

  lemma {:induction false} CountUpdate(files: seq<Status>, f: nat, to: Status, status: Status)
    requires f < |files|
    ensures Count(files[f := to], status) + (if files[f] == status then 1 else 0)
         == Count(files, status) + (if to == status then 1 else 0)
    decreases |files|
  {
    var last := |files| - 1;
    if f < last {
      CountUpdate(files[..last], f, to, status);
      assert files[f := to][..last] == files[..last][f := to];
    } else {
      assert files[f := to][..last] == files[..last];
    }
  }

  lemma {:induction false} CountNone(files: seq<Status>, status: Status)
    ensures Count(files, status) == 0 <==> forall f :: 0 <= f < |files| ==> files[f] != status
  {
    if files != [] {
      CountNone(files[..|files| - 1], status);
    }
  }

  /** The files started are the first ones on the list. */
  predicate FilesOk(d: Dispatcher) {
    d.next <= |d.files| && forall f :: 0 <= f < |d.files| ==> (d.files[f] == Queued <==> f >= d.next)
  }

  /** The semaphore holds one token per running file, the wait group one per unreported file. */
  predicate CountsOk(d: Dispatcher) {
    if d.workers <= 1 then
      && d.wg == 0 && d.tokens == 0 && !d.pc.Handing?
      && Count(d.files, Released) == 0
      && Count(d.files, Running) == (if d.pc.Inline? then 1 else 0)
      && (d.pc.Inline? ==> 0 < d.next <= |d.files| && d.files[d.next - 1] == Running)
    else
      && !d.pc.Inline? && d.tokens == Count(d.files, Running) <= d.workers
      && d.wg == Count(d.files, Running) + Count(d.files, Released) + (if d.pc.Handing? then 1 else 0)
  }

  predicate DispatcherOk(d: Dispatcher, gate: GateState, cancelled: bool) {
    && FilesOk(d) && CountsOk(d)
    && (Before(d.pc) ==> d.next < |d.files|)
    && (d.pc.Waiting? ==> d.pc.ch < |gate.closes|)
    && (d.pc.Draining? || d.pc.Returned? ==> d.next == |d.files| || cancelled)
    && (d.pc.Returned? ==> d.wg == 0)
  }

  predicate Ok(s: State) {
    && GateOk(s.gate, s.paused)
    && forall i :: 0 <= i < |s.dispatchers| ==> DispatcherOk(s.dispatchers[i], s.gate, s.cancelled)
  }

  lemma InitialOk(s: State)
    requires Initial(s)
    ensures Ok(s)
  {
    forall i | 0 <= i < |s.dispatchers|
      ensures DispatcherOk(s.dispatchers[i], s.gate, s.cancelled)
    {
      CountNone(s.dispatchers[i].files, Running);
      CountNone(s.dispatchers[i].files, Released);
    }
  }

  lemma FilesKept(d: Dispatcher, move: Move, e: Dispatcher, gate: GateState, cancelled: bool)
    requires DispatcherOk(d, gate, cancelled) && DispatcherStep(d, move, e, gate, cancelled)
    ensures FilesOk(e)
  {
    hide Count;
  }

  lemma CountsKept(d: Dispatcher, move: Move, e: Dispatcher, gate: GateState, cancelled: bool)
    requires DispatcherOk(d, gate, cancelled) && DispatcherStep(d, move, e, gate, cancelled)
    ensures CountsOk(e)
  {
    hide Count;
    match move
    case Loop =>
      if e.next > d.next {
        CountUpdate(d.files, d.next, Running, Running);
        CountUpdate(d.files, d.next, Running, Released);
      } else if d.pc.Inline? {
        CountUpdate(d.files, d.next - 1, Reported, Running);
        CountUpdate(d.files, d.next - 1, Reported, Released);
      }
    case Release(f) =>
      CountUpdate(d.files, f, Released, Running);
      CountUpdate(d.files, f, Released, Released);
    case Report(f) =>
      CountUpdate(d.files, f, Reported, Running);
      CountUpdate(d.files, f, Reported, Released);
      CountNone(d.files, Released);
  }

  lemma DispatcherKept(d: Dispatcher, move: Move, e: Dispatcher, gate: GateState, cancelled: bool)
    requires DispatcherOk(d, gate, cancelled) && DispatcherStep(d, move, e, gate, cancelled)
    ensures DispatcherOk(e, gate, cancelled)
  {
    hide Count;
    FilesKept(d, move, e, gate, cancelled);
    CountsKept(d, move, e, gate, cancelled);
    if d.pc.Returned? && move.Report? {
      CountNone(d.files, Released);
    }
  }

  lemma GateStepKeeps(gate: GateState, paused: bool)
    requires GateOk(gate, paused)
    ensures GateOk(gate.Paused(), true) && GateOk(gate.Resumed(), false)
    ensures |gate.closes| <= |gate.Paused().closes| && |gate.closes| == |gate.Resumed().closes|
    ensures forall ch: nat :: gate.Closed(ch) ==> gate.Paused().Closed(ch) && gate.Resumed().Closed(ch)
  {
  }

  /** Every step, by whomever it is taken, keeps the invariant. */
  lemma StepKeeps(s: State, ev: Event, t: State)
    requires Ok(s) && Step(s, ev, t)
    ensures Ok(t)
  {
    hide FilesOk; hide CountsOk; hide LoopStep; hide GateOk;
    GateStepKeeps(s.gate, s.paused);
    if ev.Advance? {
      var d, e := s.dispatchers[ev.i], t.dispatchers[ev.i];
      hide DispatcherOk;
      DispatcherKept(d, ev.move, e, s.gate, s.cancelled);
    }
  }

  /** The invariant holds in every reachable state. */
  lemma {:induction false} AlwaysOk(states: seq<State>, events: seq<Event>, i: nat)
    requires Run(states, events) && Initial(states[0]) && i <= |events|
    ensures Ok(states[i])
  {
    hide Initial; hide Ok; hide Step;
    if i == 0 {
      InitialOk(states[0]);
    } else {
      AlwaysOk(states, events, i - 1);
      StepKeeps(states[i - 1], events[i - 1], states[i]);
    }
  }

  lemma Lengths(states: seq<State>, events: seq<Event>, i: nat, j: nat)
    requires Run(states, events) && i <= j <= |events|
    ensures |states[j].dispatchers| == |states[i].dispatchers|
    decreases j
  {
    if i < j {
      Lengths(states, events, i, j - 1);
      assert Step(states[j - 1], events[j - 1], states[j]);
    }
  }

  /** One step as a single dispatcher sees it: its own move, or nothing at all. */
  lemma Seen(s: State, ev: Event, t: State, k: nat)
    requires Step(s, ev, t) && k < |s.dispatchers|
    ensures |t.dispatchers| == |s.dispatchers|
    ensures if ev.Advance? && ev.i == k then DispatcherStep(s.dispatchers[k], ev.move, t.dispatchers[k], s.gate, s.cancelled)
            else t.dispatchers[k] == s.dispatchers[k]
  {
    hide DispatcherStep;
  }

  // ---- Waking up ----

  /** A dispatcher is held back only by the current channel of a paused gate. */
  lemma HeldOnlyWhilePaused(s: State, k: nat)
    requires Ok(s) && k < |s.dispatchers| && s.dispatchers[k].pc.Waiting?
    ensures s.gate.Closed(s.dispatchers[k].pc.ch) || (s.paused && s.dispatchers[k].pc.ch == s.gate.Current())
  {
    hide FilesOk; hide CountsOk;
    assert DispatcherOk(s.dispatchers[k], s.gate, s.cancelled);
  }

  lemma {:induction false} StaysClosed(states: seq<State>, events: seq<Event>, i: nat, j: nat, ch: nat)
    requires Run(states, events) && i <= j <= |events| && states[i].gate.Closed(ch)
    ensures states[j].gate.Closed(ch)
    decreases j
  {
    if i < j {
      StaysClosed(states, events, i, j - 1, ch);
      assert Step(states[j - 1], events[j - 1], states[j]);
    }
  }

  /** No wake-up is lost: once resumed, the channel a waiter holds is closed and stays closed, however often the gate is paused again. */
  lemma NoLostWakeup(states: seq<State>, events: seq<Event>, i: nat, j: nat, k: nat)
    requires Run(states, events) && Initial(states[0]) && i < j <= |events| && events[i] == Resume
    requires k < |states[i].dispatchers| && states[i].dispatchers[k].pc.Waiting?
    ensures states[j].gate.Closed(states[i].dispatchers[k].pc.ch)
  {
    hide Initial;
    AlwaysOk(states, events, i);
    HeldOnlyWhilePaused(states[i], k);
    assert Step(states[i], events[i], states[i + 1]);
    assert GateOk(states[i].gate, states[i].paused);
    hide Ok; hide Step;
    assert states[i + 1].gate.Closed(states[i].dispatchers[k].pc.ch);
    StaysClosed(states, events, i + 1, j, states[i].dispatchers[k].pc.ch);
  }

  // ---- Bounds ----

  lemma WorkersBounded(s: State, k: nat)
    requires Ok(s) && k < |s.dispatchers|
    ensures Count(s.dispatchers[k].files, Running) <= (if s.dispatchers[k].workers <= 1 then 1 else s.dispatchers[k].workers)
  {
    hide FilesOk; hide Count;
    assert DispatcherOk(s.dispatchers[k], s.gate, s.cancelled);
  }

  /** When a dispatcher returns, a prefix of its list is finished, the rest was never started, and only a cancellation leaves a rest. */
  lemma ReturnedMeansFinished(s: State, k: nat)
    requires Ok(s) && k < |s.dispatchers| && s.dispatchers[k].pc.Returned?
    ensures var d := s.dispatchers[k];
      && d.next <= |d.files|
      && (forall f :: 0 <= f < |d.files| ==> d.files[f] == if f < d.next then Reported else Queued)
      && (d.next < |d.files| ==> s.cancelled)
  {
    var d := s.dispatchers[k];
    assert DispatcherOk(d, s.gate, s.cancelled);
    CountNone(d.files, Running);
    CountNone(d.files, Released);
  }

  /** Whether a dispatcher that should stop may still start one file. */
  function Committed(d: Dispatcher, held: bool): nat {
    match d.pc
    case ReadingGate => if held then 0 else 1
    case Waiting(_) => if held then 0 else 1
    case Admitting => 1
    case Handing => 1
    case _ => 0
  }

  lemma {:induction false} CommittedFalls(states: seq<State>, events: seq<Event>, i: nat, j: nat, k: nat)
    requires Run(states, events) && i <= j <= |events| && states[i].cancelled
    requires k < |states[i].dispatchers|
    ensures |states[j].dispatchers| == |states[i].dispatchers| && states[j].cancelled
    ensures var d, e := states[i].dispatchers[k], states[j].dispatchers[k];
      e.next + Committed(e, false) <= d.next + Committed(d, false)
    decreases j
  {
    if i < j {
      CommittedFalls(states, events, i, j - 1, k);
      Seen(states[j - 1], events[j - 1], states[j], k);
      assert Step(states[j - 1], events[j - 1], states[j]);
    }
  }

  /** After a cancellation a dispatcher starts at most the one file it had already taken up, and nothing new from the head of its loop. */
  lemma AtMostOneAfterCancel(states: seq<State>, events: seq<Event>, i: nat, j: nat, k: nat)
    requires Run(states, events) && i <= j <= |events| && states[i].cancelled && k < |states[i].dispatchers|
    ensures |states[j].dispatchers| == |states[i].dispatchers|
    ensures states[j].dispatchers[k].next <= states[i].dispatchers[k].next + if Before(states[i].dispatchers[k].pc) then 1 else 0
  {
    CommittedFalls(states, events, i, j, k);
  }

  /** Some continuation of the run starts another file of this dispatcher. */
  ghost predicate CanStartAnother(s: State, k: nat) {
    exists states: seq<State>, events: seq<Event> ::
      && Run(states, events) && states[0] == s
      && |s.dispatchers| == |states[|events|].dispatchers| && k < |s.dispatchers|
      && states[|events|].dispatchers[k].next > s.dispatchers[k].next
  }

  /** A cancelled dispatcher may still start a file if and only if it has passed the test at the head of its loop and not yet started that file. */
  lemma StartsAfterCancelIff(s: State, k: nat)
    requires Ok(s) && s.cancelled && k < |s.dispatchers|
    ensures CanStartAnother(s, k) <==> Before(s.dispatchers[k].pc)
  {
    hide Ok; hide Step;
    if CanStartAnother(s, k) {
      var states: seq<State>, events: seq<Event> :|
        && Run(states, events) && states[0] == s
        && |s.dispatchers| == |states[|events|].dispatchers| && k < |s.dispatchers|
      && states[|events|].dispatchers[k].next > s.dispatchers[k].next;
      AtMostOneAfterCancel(states, events, 0, |events|, k);
    }
    if Before(s.dispatchers[k].pc) {
      var states, events := StartAnother(s, k);
      assert CanStartAnother(s, k);
    }
  }

  /** How far a dispatcher is from starting its file: a resume or a returned token may be needed on the way. */
  function Distance(d: Dispatcher, gate: GateState): nat {
    match d.pc
    case Waiting(ch) => 2 * Rank(d.pc) + if gate.Closed(ch) then 0 else 1
    case Handing => 2 * Rank(d.pc) + if d.tokens < d.workers then 0 else 1
    case _ => 2 * Rank(d.pc)
  }

  /** The next step on the way to starting the file. */
  lemma Nearer(s: State, k: nat) returns (ev: Event, t: State)
    requires Ok(s) && k < |s.dispatchers| && Before(s.dispatchers[k].pc)
    ensures Step(s, ev, t) && |t.dispatchers| == |s.dispatchers|
    ensures var d, e := s.dispatchers[k], t.dispatchers[k];
      e.next == d.next + 1 || (e.next == d.next && Before(e.pc) && Distance(e, t.gate) < Distance(d, s.gate))
  {
    hide Count;
    var d := s.dispatchers[k];
    var e := d;
    ev := Advance(k, Loop);
    assert DispatcherOk(d, s.gate, s.cancelled);
    match d.pc {
      case ReadingGate => e := d.(pc := Waiting(s.gate.Current()));
      case Waiting(ch) =>
        if s.gate.Closed(ch) {
          e := d.(pc := Admitting);
        } else {
          HeldOnlyWhilePaused(s, k);
          ev := Resume;
        }
      case Admitting =>
        e := if d.workers <= 1 then d.Set(d.next, Running).(pc := Inline, next := d.next + 1) else d.(pc := Handing, wg := d.wg + 1);
      case Handing =>
        if d.tokens < d.workers {
          e := d.Set(d.next, Running).(pc := AtLoop, next := d.next + 1, tokens := d.tokens + 1);
        } else {
          var f := SomeWith(d.files, Running);
          ev := Advance(k, Release(f));
          e := d.Set(f, Released).(tokens := d.tokens - 1);
        }
    }
    t := if ev == Resume then s.(gate := s.gate.Resumed(), paused := false) else s.(dispatchers := s.dispatchers[k := e]);
  }

  lemma StartAnother(s: State, k: nat) returns (states: seq<State>, events: seq<Event>)
    requires Ok(s) && k < |s.dispatchers| && Before(s.dispatchers[k].pc)
    ensures Run(states, events) && states[0] == s && |states[|events|].dispatchers| == |s.dispatchers|
    ensures states[|events|].dispatchers[k].next > s.dispatchers[k].next
    decreases Distance(s.dispatchers[k], s.gate)
  {
    hide Ok; hide Step; hide Distance;
    var ev, t := Nearer(s, k);
    if t.dispatchers[k].next > s.dispatchers[k].next {
      states, events := [s, t], [ev];
    } else {
      StepKeeps(s, ev, t);
      var rest, later := StartAnother(t, k);
      states, events := [s] + rest, [ev] + later;
    }
  }

  /** Such a state is reached: a waiter whose channel is closed can pass although the run is cancelled. */
  lemma OneMoreCanStart() returns (states: seq<State>, events: seq<Event>, c: nat)
    ensures Run(states, events) && Initial(states[0]) && c < |events| && states[c].cancelled
    ensures |states[c].dispatchers| == |states[|events|].dispatchers| == 1
    ensures states[|events|].dispatchers[0].next == states[c].dispatchers[0].next + 1
  {
    var d := Dispatcher(1, AtLoop, [Queued], 0, 0, 0);
    var waiting := d.(pc := Waiting(0));
    var s0 := State(RUNNING, false, false, [d]);
    var s1 := State(RUNNING, false, false, [d.(pc := ReadingGate)]);
    var s2 := State(RUNNING, false, false, [waiting]);
    var s3 := State(RUNNING, false, true, [waiting]);
    var s4 := State(RUNNING, false, true, [d.(pc := Admitting)]);
    var s5 := State(RUNNING, false, true, [d.Set(0, Running).(pc := Inline, next := 1)]);
    var go := Advance(0, Loop);
    assert Step(s0, go, s1) && Step(s1, go, s2) && Step(s2, Cancel, s3) && Step(s3, go, s4) && Step(s4, go, s5);
    states, events, c := [s0, s1, s2, s3, s4, s5], [go, go, Cancel, go, go], 3;
  }

  lemma {:induction false} CommittedFallsPaused(states: seq<State>, events: seq<Event>, i: nat, j: nat, k: nat)
    requires Run(states, events) && Initial(states[0]) && i <= j <= |events| && k < |states[i].dispatchers|
    requires forall m :: i <= m <= j ==> states[m].paused
    ensures |states[j].dispatchers| == |states[i].dispatchers|
    ensures var d, e := states[i].dispatchers[k], states[j].dispatchers[k];
      e.next + Held(e, states[j].gate) <= d.next + Held(d, states[i].gate)
    decreases j
  {
    if i < j {
      CommittedFallsPaused(states, events, i, j - 1, k);
      AlwaysOk(states, events, j - 1);
      Seen(states[j - 1], events[j - 1], states[j], k);
      assert Step(states[j - 1], events[j - 1], states[j]);
      HeldFalls(states[j - 1], events[j - 1], states[j], k);
    }
  }

  /** Whether a dispatcher may still start a file while the gate stays paused. */
  function Held(d: Dispatcher, gate: GateState): nat {
    Committed(d, d.pc.ReadingGate? || (d.pc.Waiting? && !gate.Closed(d.pc.ch)))
  }

  lemma HeldFalls(s: State, ev: Event, t: State, k: nat)
    requires Ok(s) && Step(s, ev, t) && s.paused && t.paused
    requires k < |s.dispatchers| && |t.dispatchers| == |s.dispatchers|
    requires if ev.Advance? && ev.i == k then DispatcherStep(s.dispatchers[k], ev.move, t.dispatchers[k], s.gate, s.cancelled)
             else t.dispatchers[k] == s.dispatchers[k]
    ensures t.dispatchers[k].next + Held(t.dispatchers[k], t.gate) <= s.dispatchers[k].next + Held(s.dispatchers[k], s.gate)
  {
    hide FilesOk; hide CountsOk; hide DispatcherOk;
    assert t.gate == s.gate;
  }

  /** While the gate stays paused a dispatcher starts at most one more file: the one it had already been let through for. */
  lemma AtMostOneWhilePaused(states: seq<State>, events: seq<Event>, i: nat, j: nat, k: nat)
    requires Run(states, events) && Initial(states[0]) && i <= j <= |events| && k < |states[i].dispatchers|
    requires forall m :: i <= m <= j ==> states[m].paused
    ensures |states[j].dispatchers| == |states[i].dispatchers|
    ensures states[j].dispatchers[k].next <= states[i].dispatchers[k].next + 1
    ensures states[i].dispatchers[k].pc == AtLoop ==> states[j].dispatchers[k].next == states[i].dispatchers[k].next
  {
    CommittedFallsPaused(states, events, i, j, k);
    NextGrows(states, events, i, j, k);
  }

  lemma {:induction false} NextGrows(states: seq<State>, events: seq<Event>, i: nat, j: nat, k: nat)
    requires Run(states, events) && i <= j <= |events| && k < |states[i].dispatchers|
    ensures |states[j].dispatchers| == |states[i].dispatchers|
    ensures states[j].dispatchers[k].next >= states[i].dispatchers[k].next
    decreases j
  {
    if i < j {
      NextGrows(states, events, i, j - 1, k);
      Seen(states[j - 1], events[j - 1], states[j], k);
    }
  }

  // ---- Progress ----

  function Rank(pc: Pc): nat {
    match pc
    case AtLoop => 6
    case ReadingGate => 5
    case Waiting(_) => 4
    case Admitting => 3
    case Handing => 2
    case Inline => 5
    case Draining => 1
    case Returned => 0
  }

  /** The steps a dispatcher and its workers can still take. */
  function StepsLeft(d: Dispatcher): int {
    8 * (|d.files| - d.next) + Rank(d.pc) + 2 * Count(d.files, Running) + Count(d.files, Released)
  }

  lemma StepsFall(d: Dispatcher, move: Move, e: Dispatcher, gate: GateState, cancelled: bool)
    requires DispatcherOk(d, gate, cancelled) && DispatcherStep(d, move, e, gate, cancelled)
    ensures 0 <= StepsLeft(e) < StepsLeft(d)
  {
    hide Count;
    FilesKept(d, move, e, gate, cancelled);
    match move
    case Loop =>
      if e.next > d.next {
        CountUpdate(d.files, d.next, Running, Running);
        CountUpdate(d.files, d.next, Running, Released);
      } else if d.pc.Inline? {
        CountUpdate(d.files, d.next - 1, Reported, Running);
        CountUpdate(d.files, d.next - 1, Reported, Released);
      }
    case Release(f) =>
      CountUpdate(d.files, f, Released, Running);
      CountUpdate(d.files, f, Released, Released);
    case Report(f) =>
      CountUpdate(d.files, f, Reported, Running);
      CountUpdate(d.files, f, Reported, Released);
  }

  function Moves(events: seq<Event>, k: nat): nat {
    if events == [] then 0
    else Moves(events[..|events| - 1], k) + if events[|events| - 1].Advance? && events[|events| - 1].i == k then 1 else 0
  }

  /** No dispatcher runs forever: its moves in any run are bounded by the files it was given. */
  lemma {:induction false} MovesBounded(states: seq<State>, events: seq<Event>, j: nat, k: nat)
    requires Run(states, events) && Initial(states[0]) && j <= |events| && k < |states[0].dispatchers|
    ensures |states[j].dispatchers| == |states[0].dispatchers|
    ensures Moves(events[..j], k) + StepsLeft(states[j].dispatchers[k]) <= 8 * |states[0].dispatchers[k].files| + 6
    decreases j
  {
    hide DispatcherStep; hide StepsLeft;
    if j == 0 {
      assert states[0].dispatchers[k].pc == AtLoop;
      StartsWith(states[0].dispatchers[k]);
    } else {
      MovesBounded(states, events, j - 1, k);
      AlwaysOk(states, events, j - 1);
      Seen(states[j - 1], events[j - 1], states[j], k);
      assert events[..j][..j - 1] == events[..j - 1];
      if events[j - 1].Advance? && events[j - 1].i == k {
        StepsFall(states[j - 1].dispatchers[k], events[j - 1].move, states[j].dispatchers[k],
                  states[j - 1].gate, states[j - 1].cancelled);
      }
    }
  }

  lemma StartsWith(d: Dispatcher)
    requires Fresh(d)
    ensures StepsLeft(d) == 8 * |d.files| + 6
  {
    CountNone(d.files, Running);
    CountNone(d.files, Released);
  }

  lemma SomeWith(files: seq<Status>, status: Status) returns (f: nat)
    requires Count(files, status) > 0
    ensures f < |files| && files[f] == status
  {
    CountNone(files, status);
    f :| f < |files| && files[f] == status;
  }

  /** A dispatcher that has not returned can always move, unless every file it started is done and a pause, not cancelled, holds it. */
  lemma NeverStuck(s: State, k: nat)
    requires Ok(s) && k < |s.dispatchers| && !s.dispatchers[k].pc.Returned?
    ensures
      || (exists move, e :: DispatcherStep(s.dispatchers[k], move, e, s.gate, s.cancelled))
      || (s.paused && !s.cancelled && s.dispatchers[k].pc == Waiting(|s.gate.closes| - 1)
          && s.dispatchers[k].wg == 0 && Count(s.dispatchers[k].files, Running) == 0)
  {
    hide Count;
    var d := s.dispatchers[k];
    assert DispatcherOk(d, s.gate, s.cancelled);
    if d.workers > 1 && Count(d.files, Running) > 0 {
      var f := SomeWith(d.files, Running);
      assert DispatcherStep(d, Release(f), d.Set(f, Released).(tokens := d.tokens - 1), s.gate, s.cancelled);
    } else if Count(d.files, Released) > 0 {
      var f := SomeWith(d.files, Released);
      assert DispatcherStep(d, Report(f), d.Set(f, Reported).(wg := d.wg - 1), s.gate, s.cancelled);
    } else {
      LoopMoves(d, s.gate, s.paused, s.cancelled);
    }
  }

  /** With no worker busy the loop itself moves, unless it waits at an open gate. */
  lemma LoopMoves(d: Dispatcher, gate: GateState, paused: bool, cancelled: bool)
    requires GateOk(gate, paused) && DispatcherOk(d, gate, cancelled) && !d.pc.Returned?
    requires (d.workers > 1 ==> Count(d.files, Running) == 0) && Count(d.files, Released) == 0
    ensures (exists e :: DispatcherStep(d, Loop, e, gate, cancelled))
         || (paused && !cancelled && d.pc == Waiting(|gate.closes| - 1))
  {
    hide Count;
    match d.pc
    case AtLoop => assert DispatcherStep(d, Loop, d.(pc := if d.next < |d.files| && !cancelled then ReadingGate else Draining), gate, cancelled);
    case ReadingGate => assert DispatcherStep(d, Loop, d.(pc := Waiting(gate.Current())), gate, cancelled);
    case Waiting(ch) =>
      if gate.Closed(ch) {
        assert DispatcherStep(d, Loop, d.(pc := Admitting), gate, cancelled);
      } else if cancelled {
        assert DispatcherStep(d, Loop, d.(pc := Draining), gate, cancelled);
      }
    case Admitting =>
      if d.workers <= 1 {
        assert DispatcherStep(d, Loop, d.Set(d.next, Running).(pc := Inline, next := d.next + 1), gate, cancelled);
      } else {
        assert DispatcherStep(d, Loop, d.(pc := Handing, wg := d.wg + 1), gate, cancelled);
      }
    case Handing =>
      assert DispatcherStep(d, Loop, d.Set(d.next, Running).(pc := AtLoop, next := d.next + 1, tokens := d.tokens + 1), gate, cancelled);
    case Inline => assert DispatcherStep(d, Loop, d.Set(d.next - 1, Reported).(pc := AtLoop), gate, cancelled);
    case Draining => assert DispatcherStep(d, Loop, d.(pc := Returned), gate, cancelled);
  }
}
