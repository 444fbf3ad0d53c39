/** When the tiers are a lossy but never wrong copy of an ideal cache. */
module SwrCoherence {
  import opened Wrappers
  import opened Entries
  import opened SwrProtocol
  import opened SwrDedup

  // ---------------------------------------------------------------- the ideal cache

  /** The ideal single cache: the entry stamped last for `ck`, unless a removal came after it. */
  function Ideal(log: seq<Event>, ck: string): Option<Entry>
    decreases |log|
  {
    if log == [] then None else
    var last := log[|log| - 1];
    if last.Stamped? && last.name.Ck() == ck then Some(last.entry)
    else if last.Cleared? && last.name.Ck() == ck then None
    else Ideal(log[..|log| - 1], ck)
  }

  predicate Changes(ev: Event, ck: string) {
    (ev.Stamped? || ev.Cleared?) && ev.name.Ck() == ck
  }

  lemma {:induction false} IdealUnchanged(log: seq<Event>, events: seq<Event>, ck: string)
    requires forall ev :: ev in events ==> !Changes(ev, ck)
    ensures Ideal(log + events, ck) == Ideal(log, ck)
    decreases |events|
  {
    if events == [] {
      assert log + events == log;
    } else {
      var front := events[..|events| - 1];
      assert (log + events)[..|log + events| - 1] == log + front;
      assert events[|events| - 1] in events;
      IdealUnchanged(log, front, ck);
    }
  }

  lemma IdealAfter(log: seq<Event>, events: seq<Event>, ck: string)
    requires events != [] && Changes(events[|events| - 1], ck)
    ensures var last := events[|events| - 1];
      Ideal(log + events, ck) == if last.Stamped? then Some(last.entry) else None
  {
    assert (log + events)[|log + events| - 1] == events[|events| - 1];
  }

  // ---------------------------------------------------------------- mutators

  /** Tasks that change tiers. */
  predicate Mutates(t: Task) {
    t.Writing? || t.Filling? || t.Removing?
  }

  /** No two tasks change the tiers under one key at once. */
  ghost predicate Orderly(s: Sys) {
    forall i: nat, j: nat :: i < j < |s.tasks| && Mutates(s.tasks[i]) && Mutates(s.tasks[j]) ==>
      s.tasks[i].name.Ck() != s.tasks[j].name.Ck()
  }

  /** No tier has refused a write or a removal. */
  ghost predicate NoFailure(s: Sys) {
    forall id :: 0 <= id < |s.tasks| && (s.tasks[id].Writing? || s.tasks[id].Removing?) ==> !s.tasks[id].failed
  }

  ghost predicate Calm(s: Sys) {
    Orderly(s) && NoFailure(s)
  }

  ghost predicate PendingAt(s: Sys, id: nat, ck: string, i: nat) {
    id < |s.tasks| && (s.tasks[id].Writing? || s.tasks[id].Removing?) && s.tasks[id].name.Ck() == ck
      && i in s.tasks[id].pending
  }

  ghost predicate IsIdeal(codec: Codec, log: seq<Event>, ck: string, stored: StoredEntry) {
    Ideal(log, ck).Some? && Represents(codec, stored, Ideal(log, ck).value)
  }

  ghost predicate CarriesIdeal(codec: Codec, log: seq<Event>, t: Task) {
    && (t.Writing? || t.Filling? ==> IsIdeal(codec, log, t.name.Ck(), t.stored))
    && (t.Removing? ==> Ideal(log, t.name.Ck()).None?)
  }

  ghost predicate CoherentCells(codec: Codec, s: Sys) {
    forall i: nat, ck :: i < |s.tiers| && ck in s.tiers[i] ==>
      IsIdeal(codec, s.log, ck, s.tiers[i][ck]) || exists id: nat :: PendingAt(s, id, ck, i)
  }

  ghost predicate Coherent(cfg: Config, s: Sys) {
    && |s.tiers| == |cfg.modes|
    && CoherentCells(cfg.codec, s)
    && forall id :: 0 <= id < |s.tasks| ==> CarriesIdeal(cfg.codec, s.log, s.tasks[id])
  }

  // ---------------------------------------------------------------- one step

  /** `w` is a write that begins with the stamp that ends `events`. */
  ghost predicate Begins(cfg: Config, name: Name, w: Task, events: seq<Event>) {
    && w.Writing? && w.name == name && w.pending == AllTiers(|cfg.modes|)
    && events != [] && events[|events| - 1].Stamped?
    && Represents(cfg.codec, w.stored, events[|events| - 1].entry)
    && forall ev :: ev in events && (ev.Stamped? || ev.Cleared?) ==> ev.name == name
  }

  ghost predicate Unstamped(events: seq<Event>) {
    forall ev :: ev in events ==> !ev.Stamped? && !ev.Cleared?
  }

  /** The task goes on with what it carries, or stops changing tiers. */
  predicate GoesOn(t: Task, next: Task) {
    && (next.Writing? ==> t.Writing? && next.stored == t.stored && next.pending <= t.pending)
    && (next.Filling? ==> t.Filling? && next.stored == t.stored)
    && (next.Removing? ==> t.Removing? && next.pending <= t.pending)
  }

  /** The four ways a step bears on the tiers: a task turns into a writer, spawns one, spawns a
      backfill with the cell it reads, or goes on with its own work. */
  ghost predicate Shaped(cfg: Config, t: Task, v: View, e: Effect) {
    && e.next.name == t.name
    && (|| (Begins(cfg, t.name, e.next, e.events) && !Mutates(t) && e.spawn.None? && e.store.KeepStore?)
        || (e.spawn.Some? && Begins(cfg, t.name, e.spawn.value, e.events) && e.next.Done? && !Mutates(t)
          && e.store.KeepStore?)
        || (e.spawn.Some? && e.spawn.value.Filling? && e.spawn.value.name == t.name
          && Some(e.spawn.value.stored) == v.cell
            && t.Reading? && e.next.Answered? && e.events == [] && e.store.KeepStore?)
        || (Unstamped(e.events) && GoesOn(t, e.next)
          && (e.spawn.Some? ==> e.spawn.value.Checking? && e.spawn.value.name == t.name)))
  }

  lemma LoadShaped(cfg: Config, t: Task, result: Option<Value>, v: View)
    requires cfg.codec.RoundTrips() && t.Loading?
    ensures Shaped(cfg, t, v, LoadStep(cfg, t, result, v.clock))
  {
    if result.Some? {
      BuiltRepresents(cfg.codec, Restamp(cfg, result.value, v.clock), cfg.StoreMode());
    }
  }

  lemma FinishShaped(cfg: Config, t: Task, v: View)
    requires cfg.codec.RoundTrips() && t.Finishing?
    ensures Shaped(cfg, t, v, FinishStep(cfg, t, v.clock))
  {
    if t.outcome.Ok? && t.outcome.value.Some? {
      BuiltRepresents(cfg.codec, Restamp(cfg, t.outcome.value.value, v.clock), cfg.StoreMode());
    }
  }

  lemma StepShaped(cfg: Config, id: nat, t: Task, c: Choice, v: View)
    requires cfg.codec.RoundTrips() && LocalStep(cfg, id, t, c, v).Some?
    ensures Shaped(cfg, t, v, LocalStep(cfg, id, t, c, v).value)
  {
    match t
    case Loading(_, _, _) => LoadShaped(cfg, t, c.result, v);
    case Finishing(_, _, _, _) => FinishShaped(cfg, t, v);
    case _ =>
  }

  /** What a tier's share of a mutator's work is. */
  ghost predicate StoreShaped(cfg: Config, t: Task, e: Effect) {
    match e.store
    case Put(i, stored) =>
      (t.Writing? || t.Filling?) && i < |cfg.modes| && ConvertForMode(cfg.codec, t.stored, cfg.modes[i]) == Ok(stored)
      && (t.Writing? ==> e.next.Writing? && e.next.pending == t.pending - {i})
    case Delete(i) => t.Removing? && i < |cfg.modes| && e.next.Removing? && e.next.pending == t.pending - {i}
    case KeepStore =>
      (t.Writing? && e.next.Writing? && !e.next.failed ==> e.next.pending == t.pending)
      && (t.Removing? && e.next.Removing? && !e.next.failed ==> e.next.pending == t.pending)
      && ((t.Writing? && !e.next.Writing?) || (t.Removing? && !e.next.Removing?) ==> t.pending == {})
  }

  lemma StepStoreShaped(cfg: Config, id: nat, t: Task, c: Choice, v: View)
    requires LocalStep(cfg, id, t, c, v).Some?
    ensures StoreShaped(cfg, t, LocalStep(cfg, id, t, c, v).value)
  {
  }

  // ---------------------------------------------------------------- coherence is kept

  lemma IdealAfterBegin(cfg: Config, log: seq<Event>, name: Name, w: Task, events: seq<Event>, ck: string)
    requires Begins(cfg, name, w, events)
    ensures ck == name.Ck() ==> IsIdeal(cfg.codec, log + events, ck, w.stored)
    ensures ck != name.Ck() ==> Ideal(log + events, ck) == Ideal(log, ck)
  {
    assert events[|events| - 1] in events;
    if ck == name.Ck() {
      IdealAfter(log, events, ck);
    } else {
      IdealUnchanged(log, events, ck);
    }
  }

  /** A write begins at index `w` of `s'`, which is otherwise `s` without one harmless task. */
  lemma BeginKeeps(cfg: Config, s: Sys, s': Sys, id: nat, w: nat, name: Name, events: seq<Event>)
    requires Coherent(cfg, s) && Orderly(s')
    requires w < |s'.tasks| && Begins(cfg, name, s'.tasks[w], events)
    requires s'.tiers == s.tiers && s'.log == s.log + events
    requires |s.tasks| <= |s'.tasks| <= |s.tasks| + 1 && (w == id || w == |s.tasks|)
    requires id < |s.tasks| ==> !Mutates(s.tasks[id])
    requires id < |s.tasks| && w != id ==> !Mutates(s'.tasks[id])
    requires forall j :: 0 <= j < |s.tasks| && j != id ==> s'.tasks[j] == s.tasks[j]
    requires |s'.tasks| == |s.tasks| + 1 ==> w == |s.tasks|
    ensures Coherent(cfg, s')
  {
    forall j | 0 <= j < |s'.tasks| ensures CarriesIdeal(cfg.codec, s'.log, s'.tasks[j]) {
      IdealAfterBegin(cfg, s.log, name, s'.tasks[w], events, s'.tasks[j].name.Ck());
    }
    forall i: nat, ck | i < |s'.tiers| && ck in s'.tiers[i]
      ensures IsIdeal(cfg.codec, s'.log, ck, s'.tiers[i][ck]) || exists j: nat :: PendingAt(s', j, ck, i)
    {
      IdealAfterBegin(cfg, s.log, name, s'.tasks[w], events, ck);
      if ck == name.Ck() {
        assert PendingAt(s', w, ck, i);
      } else if !IsIdeal(cfg.codec, s.log, ck, s.tiers[i][ck]) {
        var j: nat :| PendingAt(s, j, ck, i);
        assert PendingAt(s', j, ck, i);
      }
    }
  }

  /** A backfill starts from a cell that is ideal: were it still to be overwritten, the writer and the
      backfill would now change the tiers under one key together. */
  lemma FillKeeps(cfg: Config, s: Sys, id: nat, e: Effect)
    requires Coherent(cfg, s) && id < |s.tasks| && Orderly(Perform(s, id, e))
    requires s.tasks[id].Reading? && e.next.Answered? && e.events == [] && e.store.KeepStore?
    requires e.spawn.Some? && e.spawn.value.Filling? && e.spawn.value.name == s.tasks[id].name
    requires Some(e.spawn.value.stored) == ViewOf(s, s.tasks[id]).cell
    ensures Coherent(cfg, Perform(s, id, e))
  {
    var s', t := Perform(s, id, e), s.tasks[id];
    var ck := t.name.Ck();
    assert s'.log == s.log;
    assert forall j: nat :: j < |s.tasks| && j != id ==> s'.tasks[j] == s.tasks[j];
    assert s'.tasks[|s.tasks|] == e.spawn.value;
    assert forall j: nat :: PendingAt(s, j, ck, t.tier) ==> Mutates(s'.tasks[j]);
    assert IsIdeal(cfg.codec, s.log, ck, e.spawn.value.stored);
    StillPending(s, s', id);
  }

  /** Pending writes of other tasks are pending still. */
  lemma StillPending(s: Sys, s': Sys, id: nat)
    requires |s.tasks| <= |s'.tasks| && forall j :: 0 <= j < |s.tasks| && j != id ==> s'.tasks[j] == s.tasks[j]
    ensures forall j: nat, ck, i :: j != id && PendingAt(s, j, ck, i) ==> PendingAt(s', j, ck, i)
  {
  }

  lemma WorkKeeps(cfg: Config, s: Sys, id: nat, e: Effect)
    requires cfg.codec.RoundTrips() && Coherent(cfg, s) && id < |s.tasks| && NoFailure(Perform(s, id, e))
    requires e.next.name == s.tasks[id].name && Unstamped(e.events) && GoesOn(s.tasks[id], e.next)
    requires e.spawn.Some? ==> e.spawn.value.Checking?
    requires StoreShaped(cfg, s.tasks[id], e)
    ensures Coherent(cfg, Perform(s, id, e))
  {
    var s', t := Perform(s, id, e), s.tasks[id];
    assert s'.tasks[id] == e.next;
    forall ck ensures Ideal(s'.log, ck) == Ideal(s.log, ck) {
      IdealUnchanged(s.log, e.events, ck);
    }
    forall i: nat, ck | i < |s'.tiers| && ck in s'.tiers[i]
      ensures IsIdeal(cfg.codec, s'.log, ck, s'.tiers[i][ck]) || exists j: nat :: PendingAt(s', j, ck, i)
    {
      if e.store.Put? && e.store.tier == i && ck == t.name.Ck() {
        ConvertedRepresents(cfg.codec, t.stored, Ideal(s.log, ck).value, cfg.modes[i]);
      } else if !IsIdeal(cfg.codec, s.log, ck, s.tiers[i][ck]) {
        var j: nat :| PendingAt(s, j, ck, i);
        assert PendingAt(s', j, ck, i);
      }
    }
  }

  lemma StepKeepsCoherence(cfg: Config, s: Sys, id: nat, c: Choice)
    requires cfg.codec.RoundTrips() && Coherent(cfg, s)
    requires Next(cfg, s, Step(id, c)).Some? && Calm(Next(cfg, s, Step(id, c)).value)
    ensures Coherent(cfg, Next(cfg, s, Step(id, c)).value)
  {
    var t, s' := s.tasks[id], Next(cfg, s, Step(id, c)).value;
    var e := LocalStep(cfg, id, t, c, ViewOf(s, t)).value;
    StepShaped(cfg, id, t, c, ViewOf(s, t));
    StepStoreShaped(cfg, id, t, c, ViewOf(s, t));
    if Begins(cfg, t.name, e.next, e.events) && !Mutates(t) && e.spawn.None? && e.store.KeepStore? {
      BeginKeeps(cfg, s, s', id, id, t.name, e.events);
    } else if e.spawn.Some? && Begins(cfg, t.name, e.spawn.value, e.events) && e.next.Done? && !Mutates(t)
      && e.store.KeepStore? {
      BeginKeeps(cfg, s, s', id, |s.tasks|, t.name, e.events);
    } else if e.spawn.Some? && e.spawn.value.Filling? {
      FillKeeps(cfg, s, id, e);
    } else {
      WorkKeeps(cfg, s, id, e);
    }
  }

  lemma RemovalKeeps(cfg: Config, s: Sys, name: Name)
    requires Coherent(cfg, s) && Orderly(Next(cfg, s, Call(RemoveRequest(name))).value)
    ensures Coherent(cfg, Next(cfg, s, Call(RemoveRequest(name))).value)
  {
    var s' := Next(cfg, s, Call(RemoveRequest(name))).value;
    var w := |s.tasks|;
    forall ck ensures Ideal(s'.log, ck) == if ck == name.Ck() then None else Ideal(s.log, ck) {
      if ck == name.Ck() {
        IdealAfter(s.log, [Cleared(name)], ck);
      } else {
        IdealUnchanged(s.log, [Cleared(name)], ck);
      }
    }
    StillPending(s, s', w);
    forall i: nat, ck | i < |s'.tiers| && ck in s'.tiers[i]
      ensures IsIdeal(cfg.codec, s'.log, ck, s'.tiers[i][ck]) || exists j: nat :: PendingAt(s', j, ck, i)
    {
      if ck == name.Ck() {
        assert PendingAt(s', w, ck, i);
      } else if !IsIdeal(cfg.codec, s.log, ck, s.tiers[i][ck]) {
        var j: nat :| PendingAt(s, j, ck, i);
        assert PendingAt(s', j, ck, i);
      }
    }
    forall j | 0 <= j < |s'.tasks| ensures CarriesIdeal(cfg.codec, s'.log, s'.tasks[j]) {
      if j < w {
        assert s'.tasks[j] == s.tasks[j] && CarriesIdeal(cfg.codec, s.log, s.tasks[j]);
        assert Mutates(s.tasks[j]) ==> s.tasks[j].name.Ck() != s'.tasks[w].name.Ck();
      } else {
        assert s'.tasks[j].Removing? && s'.tasks[j].name == name;
      }
    }
  }

  lemma CallKeepsCoherence(cfg: Config, s: Sys, req: Request)
    requires cfg.codec.RoundTrips() && Coherent(cfg, s)
    requires Calm(Next(cfg, s, Call(req)).value)
    ensures Coherent(cfg, Next(cfg, s, Call(req)).value)
  {
    var s' := Next(cfg, s, Call(req)).value;
    var (task, events) := Arrive(cfg, |s.tasks|, req, s.clock);
    if req.RemoveRequest? {
      RemovalKeeps(cfg, s, req.name);
    } else if task.Writing? {
      BuiltRepresents(cfg.codec, events[1].entry, cfg.StoreMode());
      BeginKeeps(cfg, s, s', |s.tasks|, |s.tasks|, req.name, events);
    } else {
      assert s'.log == s.log;
      StillPending(s, s', |s.tasks|);
    }
  }

  lemma CoherentStep(cfg: Config, s: Sys, a: Action)
    requires cfg.codec.RoundTrips() && Coherent(cfg, s)
    requires Next(cfg, s, a).Some? && Calm(Next(cfg, s, a).value)
    ensures Coherent(cfg, Next(cfg, s, a).value)
  {
    match a
    case Step(id, c) => StepKeepsCoherence(cfg, s, id, c);
    case Call(req) => CallKeepsCoherence(cfg, s, req);
    case _ => StillPending(s, Next(cfg, s, a).value, |s.tasks|);
  }

  lemma {:induction false} CalmRunKeeps(cfg: Config, s: Sys, actions: seq<Action>)
    requires cfg.codec.RoundTrips() && Coherent(cfg, s)
    requires Run(cfg, s, actions).Some? && Always(cfg, s, actions, s => Calm(s))
    ensures Coherent(cfg, Run(cfg, s, actions).value)
    decreases |actions|
  {
    if actions == [] {
    } else {
      var s' := Next(cfg, s, actions[0]).value;
      assert Always(cfg, s', actions[1..], s => Calm(s));
      CoherentStep(cfg, s, actions[0]);
      CalmRunKeeps(cfg, s', actions[1..]);
    }
  }

  /** Whenever nothing is changing `ck`: a tier that holds it holds exactly the entry of the ideal cache,
      with its timestamps, and a key the ideal cache does not hold is in no tier. */
  ghost predicate CopyOfIdeal(codec: Codec, s: Sys, ck: string) {
    forall i: nat :: i < |s.tiers| && ck in s.tiers[i] ==>
      Ideal(s.log, ck).Some? && IntoTyped(codec, s.tiers[i][ck]) == Ok(Ideal(s.log, ck).value)
  }

  lemma CoherentIsCopy(cfg: Config, s: Sys, ck: string)
    requires Coherent(cfg, s)
    requires forall t :: t in s.tasks && Mutates(t) ==> t.name.Ck() != ck
    ensures CopyOfIdeal(cfg.codec, s, ck)
  {
    forall i: nat | i < |s.tiers| && ck in s.tiers[i]
      ensures IsIdeal(cfg.codec, s.log, ck, s.tiers[i][ck])
    {
      assert forall id: nat :: !PendingAt(s, id, ck, i);
    }
  }

  /** In every run in which no two tasks change the tiers under one key at once and no tier refuses a
      write, the stack is a lossy but never wrong copy of the ideal cache. */
  lemma OrderlyRunsCohere(cfg: Config, start: int, actions: seq<Action>, ck: string)
    requires cfg.codec.RoundTrips()
    requires Run(cfg, Init(cfg, start), actions).Some? && Always(cfg, Init(cfg, start), actions, s => Calm(s))
    ensures var s := Run(cfg, Init(cfg, start), actions).value;
      (forall t :: t in s.tasks && Mutates(t) ==> t.name.Ck() != ck) ==> CopyOfIdeal(cfg.codec, s, ck)
  {
    CalmRunKeeps(cfg, Init(cfg, start), actions);
    var s := Run(cfg, Init(cfg, start), actions).value;
    if forall t :: t in s.tasks && Mutates(t) ==> t.name.Ck() != ck {
      CoherentIsCopy(cfg, s, ck);
    }
  }
}
