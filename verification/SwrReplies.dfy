/** Every call of `swr` is settled once, and that settles what it returns. */
module SwrReplies {
  import opened Wrappers
  import opened Entries
  import opened Sums
  import opened SwrProtocol
  import opened SwrRuns
  import opened SwrLedger
  import opened SwrProvenance

  // ---------------------------------------------------------------- one decision per call

  /** What settles where the value of a call comes from. */
  predicate Settles(ev: Event) {
    ev.Given? || ev.Loaded? || ev.RetryHit?
  }

  function Settlements(of: Calls): Event -> int { (ev: Event) => if Settles(ev) && of(ev.call) then 1 else 0 }

  /** Tasks that may yet settle their call. */
  predicate Unsettled(t: Task) {
    FirstReading(t) || Undecided(t) || t.Loading?
  }

  function UnsettledTasks(of: Calls): Task -> int { (t: Task) => if Unsettled(t) && of(t.call) then 1 else 0 }

  function Outcomes(s: Sys, call: nat): int {
    Total(s, Settlements(Only(call))) + Sum(s.tasks, UnsettledTasks(Only(call)))
  }

  ghost predicate SettlesOnce(s: Sys, call: nat) {
    Outcomes(s, call) <= (if call < |s.tasks| then 1 else 0) && CallsKnown(s)
  }

  /** The step of `t` settles its call only if `t` could, and then nothing is left to. */
  ghost predicate SettlesAtMost(t: Task, e: Effect) {
    && (|e.events| > 0 && Settles(e.events[0]) ==> e.events[0].call == t.call)
    && One(|e.events| > 0 && Settles(e.events[0])) + One(Unsettled(e.next))
       + One(e.spawn.Some? && Unsettled(e.spawn.value)) <= One(Unsettled(t))
  }

  lemma AnswerSettles(cfg: Config, t: Task, now: int)
    requires t.Answered?
    ensures SettlesAtMost(t, AnswerStep(cfg, t, now))
  {
  }

  lemma FinishSettles(cfg: Config, t: Task, now: int)
    requires t.Finishing?
    ensures SettlesAtMost(t, FinishStep(cfg, t, now))
  {
  }

  lemma LoadSettles(cfg: Config, t: Task, result: Option<Value>, now: int)
    requires t.Loading?
    ensures SettlesAtMost(t, LoadStep(cfg, t, result, now))
  {
  }

  lemma TierSettles(cfg: Config, id: nat, t: Task, c: Choice, v: View)
    requires (t.Writing? || t.Filling? || t.Removing?) && LocalStep(cfg, id, t, c, v).Some?
    ensures SettlesAtMost(t, LocalStep(cfg, id, t, c, v).value)
  {
  }

  lemma StepSettles(cfg: Config, id: nat, t: Task, c: Choice, v: View)
    requires LocalStep(cfg, id, t, c, v).Some?
    ensures SettlesAtMost(t, LocalStep(cfg, id, t, c, v).value)
  {
    match t
    case Answered(_, _, _, _) => AnswerSettles(cfg, t, v.clock);
    case Finishing(_, _, _, _) => FinishSettles(cfg, t, v.clock);
    case Loading(_, _, _) => LoadSettles(cfg, t, c.result, v.clock);
    case Writing(_, _, _, _, _, _) => TierSettles(cfg, id, t, c, v);
    case Filling(_, _, _, _, _) => TierSettles(cfg, id, t, c, v);
    case Removing(_, _, _, _) => TierSettles(cfg, id, t, c, v);
    case _ =>
  }

  lemma SettlementSums(events: seq<Event>, of: Calls)
    requires |events| <= 2 && (|events| == 2 ==> events[1].Stamped?)
    ensures Sum(events, Settlements(of)) == One(|events| > 0 && Settles(events[0]) && of(events[0].call))
  {
  }

  lemma TaskStepSettles(cfg: Config, s: Sys, id: nat, c: Choice, call: nat)
    requires Next(cfg, s, Step(id, c)).Some?
    ensures Outcomes(Next(cfg, s, Step(id, c)).value, call) <= Outcomes(s, call)
  {
    var t, of := s.tasks[id], Only(call);
    var e := LocalStep(cfg, id, t, c, ViewOf(s, t)).value;
    StepEvents(cfg, id, t, c, ViewOf(s, t));
    StepSettles(cfg, id, t, c, ViewOf(s, t));
    SettlementSums(e.events, of);
    SumAppend(s.log, e.events, Settlements(of));
    TaskSums(s, id, e, UnsettledTasks(of));
  }

  lemma ArrivalSettles(cfg: Config, s: Sys, req: Request, call: nat)
    ensures Outcomes(Next(cfg, s, Call(req)).value, call)
      <= Outcomes(s, call) + (if call == |s.tasks| then 1 else 0)
  {
    var of := Only(call);
    var (task, events) := Arrive(cfg, |s.tasks|, req, s.clock);
    ArrivalEvents(cfg, |s.tasks|, req, s.clock);
    SettlementSums(events, of);
    SumAppend(s.log, events, Settlements(of));
    SumAppend(s.tasks, [task], UnsettledTasks(of));
    SumSingle(task, UnsettledTasks(of));
  }

  lemma SettlesOnceStep(cfg: Config, s: Sys, a: Action, call: nat)
    requires SettlesOnce(s, call) && Next(cfg, s, a).Some?
    ensures SettlesOnce(Next(cfg, s, a).value, call)
  {
    CallsKnownStep(cfg, s, a);
    match a
    case Step(id, c) => TaskStepSettles(cfg, s, id, c, call);
    case Call(req) => ArrivalSettles(cfg, s, req, call);
    case _ =>
  }

  lemma ReachableSettlesOnce(cfg: Config, s: Sys, call: nat)
    requires Reachable(cfg, s)
    ensures SettlesOnce(s, call)
  {
    forall s, a | SettlesOnce(s, call) && Next(cfg, s, a).Some? ensures SettlesOnce(Next(cfg, s, a).value, call) {
      SettlesOnceStep(cfg, s, a, call);
    }
    ReachableKeeps(cfg, s => SettlesOnce(s, call), s);
  }

  lemma AtMostOneEvent(log: seq<Event>, weight: Event -> int, ev1: Event, ev2: Event)
    requires (forall ev :: ev in log ==> weight(ev) >= 0) && Sum(log, weight) <= 1
    requires ev1 in log && ev2 in log && weight(ev1) >= 1 && weight(ev2) >= 1
    ensures ev1 == ev2
  {
    var i :| 0 <= i < |log| && log[i] == ev1;
    var j :| 0 <= j < |log| && log[j] == ev2;
    if i < j {
      SumAtLeastTwo(log, i, j, weight);
    } else if j < i {
      SumAtLeastTwo(log, j, i, weight);
    }
  }

  /** A call is given a value, or loads one, or takes one from its retry: once, and only one of these. */
  lemma SettledOnce(cfg: Config, s: Sys, ev1: Event, ev2: Event)
    requires Reachable(cfg, s) && ev1 in s.log && ev2 in s.log && Settles(ev1) && Settles(ev2) && ev1.call == ev2.call
    ensures ev1 == ev2
  {
    ReachableSettlesOnce(cfg, s, ev1.call);
    SumNonNegative(s.tasks, UnsettledTasks(Only(ev1.call)));
    AtMostOneEvent(s.log, Settlements(Only(ev1.call)), ev1, ev2);
  }

  /** While a task may yet settle its call, nothing has. */
  lemma UnsettledBefore(cfg: Config, s: Sys, id: nat, ev: Event)
    requires Reachable(cfg, s) && id < |s.tasks| && Unsettled(s.tasks[id])
    requires ev in s.log && Settles(ev)
    ensures ev.call != s.tasks[id].call
  {
    if ev.call == s.tasks[id].call {
      ReachableSettlesOnce(cfg, s, ev.call);
      var i :| 0 <= i < |s.log| && s.log[i] == ev;
      SumAtLeast(s.log, i, Settlements(Only(ev.call)));
      SumAtLeast(s.tasks, id, UnsettledTasks(Only(ev.call)));
    }
  }

  /** A call reads first once. */
  lemma ReadOnce(cfg: Config, s: Sys, ev1: Event, ev2: Event)
    requires Reachable(cfg, s) && ev1 in s.log && ev2 in s.log && ev1.FirstRead? && ev2.FirstRead?
      && ev1.call == ev2.call
    ensures ev1 == ev2
  {
    ReachableReadsOnce(cfg, s, ev1.call);
    SumNonNegative(s.tasks, FirstReaders(Only(ev1.call)));
    AtMostOneEvent(s.log, FirstReads(Only(ev1.call)), ev1, ev2);
  }

  // ---------------------------------------------------------------- the reply

  /** The value `swr` falls back on: what its first read decoded. */
  function Fallback(found: Option<Entry>): Option<Value> {
    if found.Some? then Some(found.value.value) else None
  }

  /** What `swr` returns, from its first read and from the one thing that settled it. */
  function Reply(found: Option<Entry>, at: int, settled: Option<Event>): Option<Value> {
    if found.Some? && !found.value.IsExpired(at) then Fallback(found)
    else match settled
      case Some(RetryHit(_, _, v)) => Some(v)
      case Some(Loaded(_, _, Some(v), _)) => Some(v)
      case _ => Fallback(found)
  }

  /** `settled` is what settled `call`, if anything has. */
  ghost predicate SettledBy(log: seq<Event>, call: nat, settled: Option<Event>) {
    match settled
    case Some(ev) => ev in log && Settles(ev) && ev.call == call
    case None => forall ev :: ev in log && Settles(ev) ==> ev.call != call
  }

  predicate Serves(found: Option<Entry>, at: int) {
    found.Some? && !found.value.IsExpired(at)
  }

  lemma ExplainedReply(cfg: Config, s: Sys, call: nat, name: Name, ret: Option<Value>, found: Option<Entry>, at: int,
                       settled: Option<Event>)
    requires Reachable(cfg, s) && Explains(s.log, call, name, ret, found, at) && SettledBy(s.log, call, settled)
    ensures ret == Reply(found, at, settled)
    ensures Serves(found, at) || (settled.Some? && !settled.value.Given?)
  {
    if !Serves(found, at) {
      if ret.Some? && RetryHit(call, name, ret.value) in s.log {
        SettledOnce(cfg, s, settled.value, RetryHit(call, name, ret.value));
      } else {
        var result, la :| (result == ret || (result == None && ret == Fallback(found)))
          && Loaded(call, name, result, la) in s.log;
        SettledOnce(cfg, s, settled.value, Loaded(call, name, result, la));
      }
    }
  }

  /** The reply of a finished `swr` is a function of its first read and of the one thing that settled it: an
      unexpired entry is returned as it was read; otherwise the value its retry found, or its own
      loader's, and whenever that loader gave nothing, the expired entry it had read, if any. So it
      returns nothing if and only if its first read decoded nothing and its own loader returned nothing. */
  lemma SwrRepliesExactly(cfg: Config, s: Sys, id: nat, found: Option<Entry>, at: int, settled: Option<Event>)
    requires cfg.codec.RoundTrips() && Reachable(cfg, s)
    requires id < |s.tasks| && s.tasks[id].Done? && s.tasks[id].kind.SwrCall?
    requires FirstRead(s.tasks[id].call, s.tasks[id].name, found, at) in s.log
    requires SettledBy(s.log, s.tasks[id].call, settled)
    ensures s.tasks[id].ret == Ok(Reply(found, at, settled))
    ensures Serves(found, at) || (settled.Some? && !settled.value.Given?)
    ensures s.tasks[id].ret == Ok(None) <==>
      found.None? && settled.Some? && settled.value.Loaded? && settled.value.result.None?
  {
    ReachableInv(cfg, s);
    var t := s.tasks[id];
    assert TaskOk(cfg.codec, s.log, t);
    var found', at' :| Explains(s.log, t.call, t.name, t.ret.value, found', at');
    ReadOnce(cfg, s, FirstRead(t.call, t.name, found, at), FirstRead(t.call, t.name, found', at'));
    ExplainedReply(cfg, s, t.call, t.name, t.ret.value, found, at, settled);
  }

  /** `swr` always returns, and never an error, whatever the tiers do; and an expired entry it has read is
      what it returns whenever its own loader gives nothing. */
  lemma SwrIsTotal(cfg: Config, s: Sys, id: nat) returns (found: Option<Entry>, at: int, settled: Option<Event>)
    requires cfg.codec.RoundTrips() && Reachable(cfg, s)
    requires id < |s.tasks| && s.tasks[id].Done? && s.tasks[id].kind.SwrCall?
    ensures var t := s.tasks[id];
      && FirstRead(t.call, t.name, found, at) in s.log && SettledBy(s.log, t.call, settled)
      && t.ret == Ok(Reply(found, at, settled))
    ensures forall e, ra, la :: var t := s.tasks[id];
      FirstRead(t.call, t.name, Some(e), ra) in s.log && e.IsExpired(ra)
        && Loaded(t.call, t.name, None, la) in s.log ==>
        t.ret == Ok(Some(e.value))
  {
    ReachableInv(cfg, s);
    var t := s.tasks[id];
    assert TaskOk(cfg.codec, s.log, t);
    found, at :| Explains(s.log, t.call, t.name, t.ret.value, found, at);
    settled := None;
    if ev :| ev in s.log && Settles(ev) && ev.call == t.call {
      settled := Some(ev);
    }
    SwrRepliesExactly(cfg, s, id, found, at, settled);
    forall e, ra, la
      | FirstRead(t.call, t.name, Some(e), ra) in s.log && e.IsExpired(ra) && Loaded(t.call, t.name, None, la) in s.log
      ensures t.ret == Ok(Some(e.value))
    {
      SwrRepliesExactly(cfg, s, id, Some(e), ra, Some(Loaded(t.call, t.name, None, la)));
    }
  }
}
