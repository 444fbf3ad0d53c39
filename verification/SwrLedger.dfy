/** Accounting of origin calls: every one is paid for by a call of `swr` whose first read was not fresh. */
module SwrLedger {
  import opened Sums
  import opened SwrProtocol
  import opened SwrRuns
  import opened SwrDrain

  /** Which calls to count; a spawned task belongs to the call it was spawned for. */
  type Calls = nat -> bool

  function One(b: bool): int { if b then 1 else 0 }

  predicate ReadsFresh(ev: Event)
    requires ev.FirstRead?
  {
    ev.found.Some? && !ev.found.value.IsExpired(ev.at) && ev.found.value.IsFresh(ev.at)
  }

  function FirstReads(of: Calls): Event -> int { (ev: Event) => if ev.FirstRead? && of(ev.call) then 1 else 0 }

  function FreshReads(of: Calls): Event -> int {
    (ev: Event) => if ev.FirstRead? && of(ev.call) && ReadsFresh(ev) then 1 else 0
  }

  function UnfreshReads(of: Calls): Event -> int {
    (ev: Event) => if ev.FirstRead? && of(ev.call) && !ReadsFresh(ev) then 1 else 0
  }

  function FoundMarkers(of: Calls): Event -> int { (ev: Event) => if ev.FoundMarker? && of(ev.call) then 1 else 0 }

  function RetryHits(of: Calls): Event -> int { (ev: Event) => if ev.RetryHit? && of(ev.call) then 1 else 0 }

  /** A load starts in the step that makes the mark. */
  function Loads(of: Calls): Event -> int { (ev: Event) => if ev.Marked? && of(ev.call) then 1 else 0 }

  /** Tasks that have yet to mark, or to find that they need not. */
  predicate Undecided(t: Task) {
    t.Checking? || t.Waiting? || t.Marking? || ((t.Reading? || t.Answered?) && t.purpose.ForRetry?)
  }

  function UndecidedTasks(of: Calls): Task -> int { (t: Task) => if Undecided(t) && of(t.call) then 1 else 0 }

  predicate FirstReading(t: Task) {
    (t.Reading? || t.Answered?) && t.purpose.ForSwr?
  }

  function FirstReaders(of: Calls): Task -> int { (t: Task) => if FirstReading(t) && of(t.call) then 1 else 0 }

  function Total(s: Sys, weight: Event -> int): int { Sum(s.log, weight) }

  ghost predicate Balanced(s: Sys, of: Calls) {
    Total(s, Loads(of))
    == Total(s, UnfreshReads(of)) - Total(s, FoundMarkers(of)) - Total(s, RetryHits(of))
       - Sum(s.tasks, UndecidedTasks(of))
  }

  // ---------------------------------------------------------------- one step balances

  /** The events that the ledger counts. */
  predicate Entered(ev: Event) {
    ev.FirstRead? || ev.FoundMarker? || ev.RetryHit? || ev.Marked?
  }

  /** The events of one step are few, and only the first can concern the ledger. */
  lemma StepEvents(cfg: Config, id: nat, t: Task, c: Choice, v: View)
    requires LocalStep(cfg, id, t, c, v).Some?
    ensures var e := LocalStep(cfg, id, t, c, v).value;
      && |e.events| <= 2
      && e.next.call == t.call && (e.spawn.Some? ==> e.spawn.value.call == t.call)
      && (FirstReading(t) && !FirstReading(e.next)
        <==> |e.events| > 0 && e.events[0].FirstRead? && e.events[0].call == t.call)
      && (FirstReading(e.next) ==> FirstReading(t)) && (e.spawn.Some? ==> !FirstReading(e.spawn.value))
      && (|e.events| > 0 && Entered(e.events[0]) ==> |e.events| == 1 && e.events[0].call == t.call)
      && (|e.events| == 2 ==> e.events[1].Stamped?)
  {
  }

  lemma AnswerDecides(cfg: Config, t: Task, now: int)
    requires t.Answered? && t.purpose.ForSwr?
    ensures var e := AnswerStep(cfg, t, now);
      && |e.events| == 1 && e.events[0].FirstRead?
      && One(!ReadsFresh(e.events[0])) == One(Undecided(e.next)) + One(e.spawn.Some? && Undecided(e.spawn.value))
  {
  }

  /** The step of `t` decides as many tasks as it logs decisions. */
  ghost predicate Decides(t: Task, e: Effect) {
    var first := |e.events| > 0;
    One(first && e.events[0].Marked?)
    == One(first && e.events[0].FirstRead? && !ReadsFresh(e.events[0]))
       - One(first && e.events[0].FoundMarker?) - One(first && e.events[0].RetryHit?)
       - (One(Undecided(e.next)) + One(e.spawn.Some? && Undecided(e.spawn.value)) - One(Undecided(t)))
  }

  lemma AnsweredDecides(cfg: Config, t: Task, now: int)
    requires t.Answered?
    ensures Decides(t, AnswerStep(cfg, t, now))
  {
    if t.purpose.ForSwr? {
      AnswerDecides(cfg, t, now);
    }
  }

  lemma FinishDecides(cfg: Config, t: Task, now: int)
    requires t.Finishing?
    ensures Decides(t, FinishStep(cfg, t, now))
  {
  }

  lemma StepDecides(cfg: Config, id: nat, t: Task, c: Choice, v: View)
    requires LocalStep(cfg, id, t, c, v).Some?
    ensures Decides(t, LocalStep(cfg, id, t, c, v).value)
  {
    match t
    case Answered(_, _, _, _) => AnsweredDecides(cfg, t, v.clock);
    case Finishing(_, _, _, _) => FinishDecides(cfg, t, v.clock);
    case _ =>
  }

  lemma EventSums(events: seq<Event>, of: Calls, call: nat)
    requires |events| <= 2
    requires |events| > 0 && Entered(events[0]) ==> |events| == 1 && events[0].call == call
    requires |events| == 2 ==> events[1].Stamped?
    ensures var first := |events| > 0;
      && Sum(events, Loads(of)) == One(first && events[0].Marked? && of(call))
      && Sum(events, UnfreshReads(of)) == One(first && events[0].FirstRead? && of(call) && !ReadsFresh(events[0]))
      && Sum(events, FoundMarkers(of)) == One(first && events[0].FoundMarker? && of(call))
      && Sum(events, RetryHits(of)) == One(first && events[0].RetryHit? && of(call))
      && Sum(events, FirstReads(of)) == One(first && events[0].FirstRead? && of(call))
  {
  }

  lemma TaskSums(s: Sys, id: nat, e: Effect, weight: Task -> int)
    requires id < |s.tasks|
    ensures Sum(Perform(s, id, e).tasks, weight)
         == Sum(s.tasks, weight) - weight(s.tasks[id]) + weight(e.next) + SpawnedWeight(e.spawn, weight)
  {
    SumUpdate(s.tasks, id, e.next, weight);
    SpawnSum(s.tasks[id := e.next], e.spawn, weight);
  }

  lemma LogSums(log: seq<Event>, events: seq<Event>, of: Calls)
    ensures Sum(log + events, Loads(of)) == Sum(log, Loads(of)) + Sum(events, Loads(of))
    ensures Sum(log + events, UnfreshReads(of)) == Sum(log, UnfreshReads(of)) + Sum(events, UnfreshReads(of))
    ensures Sum(log + events, FoundMarkers(of)) == Sum(log, FoundMarkers(of)) + Sum(events, FoundMarkers(of))
    ensures Sum(log + events, RetryHits(of)) == Sum(log, RetryHits(of)) + Sum(events, RetryHits(of))
    ensures Sum(log + events, FirstReads(of)) == Sum(log, FirstReads(of)) + Sum(events, FirstReads(of))
  {
    SumAppend(log, events, Loads(of));
    SumAppend(log, events, UnfreshReads(of));
    SumAppend(log, events, FoundMarkers(of));
    SumAppend(log, events, RetryHits(of));
    SumAppend(log, events, FirstReads(of));
  }

  lemma BalancedStep(cfg: Config, s: Sys, a: Action, of: Calls)
    requires Balanced(s, of) && Next(cfg, s, a).Some?
    ensures Balanced(Next(cfg, s, a).value, of)
  {
    match a
    case Step(id, c) =>
      var t := s.tasks[id];
      var e := LocalStep(cfg, id, t, c, ViewOf(s, t)).value;
      StepEvents(cfg, id, t, c, ViewOf(s, t));
      StepDecides(cfg, id, t, c, ViewOf(s, t));
      EventSums(e.events, of, t.call);
      LogSums(s.log, e.events, of);
      TaskSums(s, id, e, UndecidedTasks(of));
    case Call(req) =>
      var (task, events) := Arrive(cfg, |s.tasks|, req, s.clock);
      ArrivalWeighsNothing(cfg, |s.tasks|, req, s.clock, of);
      LogSums(s.log, events, of);
      SumAppend(s.tasks, [task], UndecidedTasks(of));
      SumSingle(task, UndecidedTasks(of));
    case _ =>
  }

  lemma NothingEntered(events: seq<Event>, of: Calls)
    requires |events| <= 2 && (|events| == 2 ==> events[1].Stamped?) && (|events| > 0 ==> !Entered(events[0]))
    ensures Sum(events, Loads(of)) == Sum(events, UnfreshReads(of)) == Sum(events, FoundMarkers(of)) == 0
    ensures Sum(events, RetryHits(of)) == Sum(events, FirstReads(of)) == 0
  {
    EventSums(events, of, 0);
  }

  lemma ArrivalEvents(cfg: Config, call: nat, req: Request, now: int)
    ensures var (task, events) := Arrive(cfg, call, req, now);
      && |events| <= 2 && (|events| == 2 ==> events[1].Stamped?)
      && (|events| > 0 ==> !Entered(events[0]) && (events[0].Given? ==> events[0].call == call))
      && !Undecided(task) && !task.Loading? && task.call == call
      && (FirstReading(task) ==> events == [])
  {
  }

  lemma ArrivalWeighsNothing(cfg: Config, call: nat, req: Request, now: int, of: Calls)
    ensures var (task, events) := Arrive(cfg, call, req, now);
      && Sum(events, Loads(of)) == Sum(events, UnfreshReads(of)) == Sum(events, FoundMarkers(of)) == 0
      && Sum(events, RetryHits(of)) == Sum(events, FirstReads(of)) == 0
      && !Undecided(task) && task.call == call
  {
    ArrivalEvents(cfg, call, req, now);
    NothingEntered(Arrive(cfg, call, req, now).1, of);
  }

  /** For any set of calls: loads started = `swr` calls whose first read was not fresh, minus background
      tasks that found a marker, minus waiters whose retry hit, minus tasks not yet past their mark. */
  lemma OriginAccounting(cfg: Config, s: Sys, of: Calls)
    requires Reachable(cfg, s)
    ensures Balanced(s, of)
  {
    forall s, a | Balanced(s, of) && Next(cfg, s, a).Some? ensures Balanced(Next(cfg, s, a).value, of) {
      BalancedStep(cfg, s, a, of);
    }
    ReachableKeeps(cfg, s => Balanced(s, of), s);
  }

  // ---------------------------------------------------------------- per call

  function Only(call: nat): Calls { c => c == call }

  function Readings(s: Sys, call: nat): int {
    Total(s, FirstReads(Only(call))) + Sum(s.tasks, FirstReaders(Only(call)))
  }

  ghost predicate CallsKnown(s: Sys) {
    forall id :: 0 <= id < |s.tasks| ==> s.tasks[id].call < |s.tasks|
  }

  /** A call reads first at most once, and calls yet to come have not read. */
  ghost predicate ReadsOnce(s: Sys, call: nat) {
    Readings(s, call) <= (if call < |s.tasks| then 1 else 0) && CallsKnown(s)
  }

  lemma TaskStepReadsOnce(cfg: Config, s: Sys, id: nat, c: Choice, call: nat)
    requires Next(cfg, s, Step(id, c)).Some?
    ensures Readings(Next(cfg, s, Step(id, c)).value, call) == Readings(s, call)
  {
    var t, of := s.tasks[id], Only(call);
    var e := LocalStep(cfg, id, t, c, ViewOf(s, t)).value;
    StepEvents(cfg, id, t, c, ViewOf(s, t));
    EventSums(e.events, of, t.call);
    SumAppend(s.log, e.events, FirstReads(of));
    TaskSums(s, id, e, FirstReaders(of));
  }

  lemma ArrivalReadsOnce(cfg: Config, s: Sys, req: Request, call: nat)
    ensures Readings(Next(cfg, s, Call(req)).value, call)
      <= Readings(s, call) + (if call == |s.tasks| then 1 else 0)
  {
    var of := Only(call);
    var (task, events) := Arrive(cfg, |s.tasks|, req, s.clock);
    ArrivalWeighsNothing(cfg, |s.tasks|, req, s.clock, of);
    SumAppend(s.log, events, FirstReads(of));
    SumAppend(s.tasks, [task], FirstReaders(of));
    SumSingle(task, FirstReaders(of));
  }

  lemma CallsKnownStep(cfg: Config, s: Sys, a: Action)
    requires CallsKnown(s) && Next(cfg, s, a).Some?
    ensures CallsKnown(Next(cfg, s, a).value)
  {
    match a
    case Step(id, c) => StepEvents(cfg, id, s.tasks[id], c, ViewOf(s, s.tasks[id]));
    case Call(req) => ArrivalWeighsNothing(cfg, |s.tasks|, req, s.clock, Only(0));
    case _ =>
  }

  lemma ReadsOnceStep(cfg: Config, s: Sys, a: Action, call: nat)
    requires ReadsOnce(s, call) && Next(cfg, s, a).Some?
    ensures ReadsOnce(Next(cfg, s, a).value, call)
  {
    CallsKnownStep(cfg, s, a);
    match a
    case Step(id, c) => TaskStepReadsOnce(cfg, s, id, c, call);
    case Call(req) => ArrivalReadsOnce(cfg, s, req, call);
    case _ =>
  }

  lemma ReachableReadsOnce(cfg: Config, s: Sys, call: nat)
    requires Reachable(cfg, s)
    ensures ReadsOnce(s, call)
  {
    forall s, a | ReadsOnce(s, call) && Next(cfg, s, a).Some? ensures ReadsOnce(Next(cfg, s, a).value, call) {
      ReadsOnceStep(cfg, s, a, call);
    }
    ReachableKeeps(cfg, s => ReadsOnce(s, call), s);
  }

  lemma LoadsWithinUnfreshReads(cfg: Config, s: Sys, of: Calls)
    requires Reachable(cfg, s)
    ensures 0 <= Total(s, Loads(of)) <= Total(s, UnfreshReads(of))
  {
    OriginAccounting(cfg, s, of);
    SumNonNegative(s.log, Loads(of));
    SumNonNegative(s.log, FoundMarkers(of));
    SumNonNegative(s.log, RetryHits(of));
    SumNonNegative(s.tasks, UndecidedTasks(of));
  }

  lemma FreshAndUnfresh(s: Sys, of: Calls)
    ensures Total(s, FirstReads(of)) == Total(s, FreshReads(of)) + Total(s, UnfreshReads(of))
    ensures Total(s, FreshReads(of)) >= 0
  {
    SumSplit(s.log, FirstReads(of), FreshReads(of), UnfreshReads(of));
    SumNonNegative(s.log, FreshReads(of));
  }

  /** No call starts more than one load, and a call whose first read was fresh starts none. */
  lemma AtMostOneLoadPerCall(cfg: Config, s: Sys, call: nat)
    requires Reachable(cfg, s)
    ensures Total(s, Loads(Only(call))) <= 1
    ensures (exists i :: 0 <= i < |s.log| && s.log[i].FirstRead? && s.log[i].call == call && ReadsFresh(s.log[i])) ==>
      Total(s, Loads(Only(call))) == 0
  {
    var of := Only(call);
    ReachableReadsOnce(cfg, s, call);
    SumNonNegative(s.tasks, FirstReaders(of));
    LoadsWithinUnfreshReads(cfg, s, of);
    FreshAndUnfresh(s, of);
    forall i | 0 <= i < |s.log| && s.log[i].FirstRead? && s.log[i].call == call && ReadsFresh(s.log[i])
      ensures Total(s, Loads(of)) == 0
    {
      SumAtLeast(s.log, i, FreshReads(of));
    }
  }
}
