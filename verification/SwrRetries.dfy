/** What a foreground call does that finds its key marked: it waits, asks the cache again, and loads only if that
    gives it nothing. */
module SwrRetries {
  import opened Wrappers
  import opened Entries
  import opened Sums
  import opened SwrProtocol
  import opened SwrRuns
  import opened SwrProvenance
  import opened SwrDrain
  import opened SwrDedup
  import opened SwrLedger
  import opened SwrLookups

  /** The task is about to find its key marked, for a foreground call. */
  predicate FindsMarker(s: Sys, id: nat) {
    && id < |s.tasks| && s.tasks[id].Checking? && s.tasks[id].loader.Foreground?
    && s.tasks[id].name.Ck() in s.marked
  }

  ghost predicate MarkedBy(log: seq<Event>, id: nat) {
    exists ev :: ev in log && ev.Marked? && ev.id == id
  }

  // ---------------------------------------------------------------- no mark without a retry that missed

  /** A task that has yet to mark has not marked. */
  lemma NotYetMarked(cfg: Config, s: Sys, id: nat)
    requires Reachable(cfg, s) && id < |s.tasks| && BeforeMark(s.tasks[id])
    ensures !MarkedBy(s.log, id)
  {
    ReachableSight(cfg, s);
  }

  lemma MarksFromMarking(cfg: Config, id: nat, t: Task, c: Choice, v: View)
    requires LocalStep(cfg, id, t, c, v).Some?
    ensures forall ev :: ev in LocalStep(cfg, id, t, c, v).value.events && ev.Marked? ==> t.Marking? && ev.id == id
  {
  }

  lemma {:induction false} NeverMarksAgain(cfg: Config, s: Sys, actions: seq<Action>, id: nat)
    requires id < |s.tasks| && !BeforeMark(s.tasks[id]) && !MarkedBy(s.log, id) && Run(cfg, s, actions).Some?
    ensures !MarkedBy(Run(cfg, s, actions).value.log, id)
    decreases |actions|
  {
    if actions == [] {
    } else {
      var a, s' := actions[0], Next(cfg, s, actions[0]).value;
      if a.Step? {
        MarksFromMarking(cfg, a.id, s.tasks[a.id], a.choice, ViewOf(s, s.tasks[a.id]));
        PastStaysPast(cfg, a.id, s.tasks[a.id], a.choice, ViewOf(s, s.tasks[a.id]));
      }
      if !(a.Step? && a.id == id) {
        OthersKeep(cfg, s, a, id);
      }
      NeverMarksAgain(cfg, s', actions[1..], id);
    }
  }

  lemma {:induction false} WaitEnds(cfg: Config, s: Sys, actions: seq<Action>, id: nat) returns (k: nat)
    requires id < |s.tasks| && s.tasks[id].Waiting? && Run(cfg, s, actions).Some?
    requires id < |Run(cfg, s, actions).value.tasks| && !Run(cfg, s, actions).value.tasks[id].Waiting?
    ensures TakesUp(cfg, s, actions, k, id, s.tasks[id])
    decreases |actions|
  {
    if actions[0].Step? && actions[0].id == id {
      k := 0;
      assert actions[..0] == [] && Run(cfg, s, []) == Some(s);
    } else {
      OthersKeep(cfg, s, actions[0], id);
      k := WaitEnds(cfg, Next(cfg, s, actions[0]).value, actions[1..], id);
      TakesUpLater(cfg, s, actions, k, id, s.tasks[id]);
      k := k + 1;
    }
  }

  /** Waits, and reads again: what became of the call when its read has been taken up. */
  lemma WaitsThenReads(cfg: Config, s: Sys, id: nat, actions: seq<Action>)
    returns (woken: Sys, rest: seq<Action>, reply: Reply, k: nat)
    requires |s.tiers| == |cfg.modes| && id < |s.tasks| && s.tasks[id].Waiting? && Run(cfg, s, actions).Some?
    requires id < |Run(cfg, s, actions).value.tasks|
    requires var last := Run(cfg, s, actions).value.tasks[id]; !last.Waiting? && !last.Reading? && !last.Answered?
    ensures var t := s.tasks[id];
      && id < |woken.tasks| && woken.tasks[id] == Reading(t.call, t.name, ForRetry(t.fallback), 0)
      && Run(cfg, woken, rest) == Run(cfg, s, actions)
      && AnsweredBy(cfg, woken, rest, id, 0, reply)
      && TakesUp(cfg, woken, rest, k, id, Answered(t.call, t.name, ForRetry(t.fallback), reply))
    ensures exists before :: Run(cfg, s, before) == Some(woken)
  {
    var k0 := WaitEnds(cfg, s, actions, id);
    var sk;
    sk, woken := RunFrom(cfg, s, actions, k0, id, s.tasks[id]);
    rest := actions[k0 + 1..];
    RunSnoc(cfg, s, actions[..k0], Step(id, Go));
    RunTiers(cfg, s, actions[..k0] + [Step(id, Go)]);
    reply, k := ReadFollowed(cfg, woken, rest, id);
  }

  /** In every run, a foreground task that found its key marked and then marks has, in between, woken up, asked the
      tiers in order from the first, and taken up an answer that decoded to nothing; until then it had not marked. */
  lemma MarksOnlyAfterRetry(cfg: Config, s: Sys, id: nat, actions: seq<Action>)
    returns (woken: Sys, rest: seq<Action>, reply: Reply, k: nat)
    requires Reachable(cfg, s) && FindsMarker(s, id)
    requires Next(cfg, s, Step(id, Go)).Some? && Run(cfg, Next(cfg, s, Step(id, Go)).value, actions).Some?
    requires MarkedBy(Run(cfg, Next(cfg, s, Step(id, Go)).value, actions).value.log, id)
    ensures var t := s.tasks[id];
      && id < |woken.tasks| && woken.tasks[id] == Reading(t.call, t.name, ForRetry(t.loader.fallback), 0)
      && Run(cfg, woken, rest) == Run(cfg, Next(cfg, s, Step(id, Go)).value, actions)
      && AnsweredBy(cfg, woken, rest, id, 0, reply) && Decoded(cfg.codec, reply).None?
      && TakesUp(cfg, woken, rest, k, id, Answered(t.call, t.name, ForRetry(t.loader.fallback), reply))
    ensures !MarkedBy(Run(cfg, woken, rest[..k]).value.log, id)
  {
    var t, s1 := s.tasks[id], Next(cfg, s, Step(id, Go)).value;
    assert s1.tasks[id] == Waiting(t.call, t.name, t.loader.fallback);
    ReachNext(cfg, s, Step(id, Go));
    ReachableSized(cfg, s1);
    ReachRun(cfg, s1, actions);
    TasksStay(cfg, s1, actions);
    var s' := Run(cfg, s1, actions).value;
    if BeforeMark(s'.tasks[id]) {
      NotYetMarked(cfg, s', id);
    }
    woken, rest, reply, k := WaitsThenReads(cfg, s1, id, actions);
    var before :| Run(cfg, s1, before) == Some(woken);
    ReachRun(cfg, s1, before);
    var sk, next := RunFrom(cfg, woken, rest, k, id, Answered(t.call, t.name, ForRetry(t.loader.fallback), reply));
    ReachRun(cfg, woken, rest[..k]);
    NotYetMarked(cfg, sk, id);
    if Decoded(cfg.codec, reply).Some? {
      var v := Decoded(cfg.codec, reply).value.value;
      assert next.tasks[id].Finishing? && next.log == sk.log + [RetryHit(t.call, t.name, v)];
      NeverMarksAgain(cfg, next, rest[k + 1..], id);
    }
  }

  // ---------------------------------------------------------------- a retry that hits settles the call

  /** A task that is yet to decide belongs to a call that has not marked. */
  lemma UndecidedUnmarked(cfg: Config, s: Sys, id: nat, ev: Event)
    requires Reachable(cfg, s) && id < |s.tasks| && Undecided(s.tasks[id]) && ev in s.log && ev.Marked?
    ensures ev.call != s.tasks[id].call
  {
    if ev.call == s.tasks[id].call {
      var of := Only(ev.call);
      OriginAccounting(cfg, s, of);
      ReachableReadsOnce(cfg, s, ev.call);
      FreshAndUnfresh(s, of);
      SumNonNegative(s.tasks, FirstReaders(of));
      SumNonNegative(s.log, FoundMarkers(of));
      SumNonNegative(s.log, RetryHits(of));
      SumAtLeast(s.tasks, id, UndecidedTasks(of));
      var i :| 0 <= i < |s.log| && s.log[i] == ev;
      SumAtLeast(s.log, i, Loads(of));
    }
  }

  /** Wait, wake up, read what the tiers hold, and take it up. */
  function RetrySchedule(s: Sys, n: nat, id: nat): seq<Action>
    requires id < |s.tasks|
  {
    [Step(id, Go), Step(id, Go)] + (Answers(id, FirstHolder(s.tiers, s.tasks[id].name.Ck(), 0), n) + [Step(id, Go)])
  }

  /** What a retry that got `reply` leaves its task to do. */
  function AfterRetry(codec: Codec, t: Task, reply: Reply): (Task, seq<Event>)
    requires t.Checking? && t.loader.Foreground?
  {
    match Decoded(codec, reply)
    case Some(e) =>
      (Finishing(t.call, t.name, t.loader.fallback, Ok(Some(e.value))), [RetryHit(t.call, t.name, e.value)])
    case None => (Marking(t.call, t.name, t.loader, RetryMissed), [])
  }

  lemma WaitAndWake(cfg: Config, s: Sys, id: nat) returns (s': Sys)
    requires FindsMarker(s, id)
    ensures Run(cfg, s, [Step(id, Go), Step(id, Go)]) == Some(s')
    ensures var t := s.tasks[id];
      s' == s.(tasks := s.tasks[id := Reading(t.call, t.name, ForRetry(t.loader.fallback), 0)])
  {
    var t, go := s.tasks[id], Step(id, Go);
    assert s.log + [] == s.log;
    var s1 := Next(cfg, s, go).value;
    assert s1 == s.(tasks := s.tasks[id := Waiting(t.call, t.name, t.loader.fallback)]);
    s' := Next(cfg, s1, go).value;
    RunOne(cfg, s, go);
    RunOne(cfg, s1, go);
    RunConcat(cfg, s, [go], [go]);
    assert [go] + [go] == [go, go];
    var reading := Reading(t.call, t.name, ForRetry(t.loader.fallback), 0);
    assert s1.tasks[id := reading] == s.tasks[id := reading];
  }

  /** From any state, when every tier answers by what it holds: the waiting call takes the first cell there is, expired
      or not, whether or not it has something to fall back on; and it goes on to mark only if that gives nothing. */
  lemma RetryAnswers(cfg: Config, s: Sys, id: nat) returns (s': Sys)
    requires |s.tiers| == |cfg.modes| && FindsMarker(s, id)
    ensures Run(cfg, s, RetrySchedule(s, |cfg.modes|, id)) == Some(s')
    ensures var t, held := s.tasks[id], Held(s.tiers, s.tasks[id].name.Ck());
      var (next, events) := AfterRetry(cfg.codec, t, Ok(held));
      && id < |s'.tasks| && s'.tasks[id] == next && s'.log == s.log + events
      && s'.tiers == s.tiers && s'.marked == s.marked && s'.clock == s.clock
  {
    var t, go := s.tasks[id], Step(id, Go);
    var i, held := FirstHolder(s.tiers, t.name.Ck(), 0), Held(s.tiers, t.name.Ck());
    var s1 := WaitAndWake(cfg, s, id);
    var s2 := ReadAnswers(cfg, s1, id);
    s' := Next(cfg, s2, go).value;
    RunOne(cfg, s2, go);
    RunConcat(cfg, s1, Answers(id, i, |cfg.modes|), [go]);
    RunConcat(cfg, s, [go, go], Answers(id, i, |cfg.modes|) + [go]);
  }

  /** In any reachable state in which some tier holds the key of a foreground call that finds a marker, with or without
      a fallback: the call can be settled by its retry, with the value first held, and without ever marking. */
  lemma WaiterNeedNotLoad(cfg: Config, s: Sys, id: nat) returns (s': Sys, value: Value)
    requires cfg.codec.RoundTrips() && Reachable(cfg, s) && FindsMarker(s, id)
    requires exists i :: 0 <= i < |s.tiers| && s.tasks[id].name.Ck() in s.tiers[i]
    ensures Run(cfg, s, RetrySchedule(s, |cfg.modes|, id)) == Some(s')
    ensures var t, held := s.tasks[id], Held(s.tiers, s.tasks[id].name.Ck());
      && held.Some? && IntoTyped(cfg.codec, held.value).Ok? && IntoTyped(cfg.codec, held.value).value.value == value
      && RetryHit(t.call, t.name, value) in s'.log
      && id < |s'.tasks| && s'.tasks[id] == Finishing(t.call, t.name, t.loader.fallback, Ok(Some(value)))
      && forall ev :: ev in s'.log && ev.Marked? ==> ev.call != t.call
  {
    ReachableSized(cfg, s);
    var t, i := s.tasks[id], FirstHolder(s.tiers, s.tasks[id].name.Ck(), 0);
    Provenance(cfg, s);
    assert i < |s.tiers| && IntoTyped(cfg.codec, s.tiers[i][t.name.Ck()]).Ok?;
    value := IntoTyped(cfg.codec, s.tiers[i][t.name.Ck()]).value.value;
    s' := RetryAnswers(cfg, s, id);
    assert s'.log == s.log + [RetryHit(t.call, t.name, value)];
    forall ev | ev in s'.log && ev.Marked? ensures ev.call != t.call {
      UndecidedUnmarked(cfg, s, id, ev);
    }
  }
}
