/** What a read returns between drained calls: the entry of the ideal cache, or nothing. */
module SwrReads {
  import opened Wrappers
  import opened Entries
  import opened SwrProtocol
  import opened SwrDrain
  import opened SwrCoherence
  import opened SwrDrainedRuns
  import opened SwrBackfillRace

  predicate IsHit(t: Task) {
    t.Answered? && t.reply.Ok? && t.reply.value.Some?
  }

  /** Every read that was answered with an entry was answered with the ideal one. */
  ghost predicate HitsIdeal(codec: Codec, s: Sys) {
    forall id :: 0 <= id < |s.tasks| && IsHit(s.tasks[id]) ==>
      IsIdeal(codec, s.log, s.tasks[id].name.Ck(), s.tasks[id].reply.value.value)
  }

  /** While a task reads, nothing is pending, so every cell is ideal. */
  lemma ReadsIdeal(cfg: Config, s: Sys, id: nat)
    requires Solo(s) && Coherent(cfg, s) && id < |s.tasks| && s.tasks[id].Reading?
    requires ViewOf(s, s.tasks[id]).cell.Some?
    ensures IsIdeal(cfg.codec, s.log, s.tasks[id].name.Ck(), ViewOf(s, s.tasks[id]).cell.value)
  {
    forall other: nat, ck, i ensures !PendingAt(s, other, ck, i) {
      if PendingAt(s, other, ck, i) {
        LivesAlone(s, id, other);
      }
    }
  }

  lemma QuietSteps(cfg: Config, id: nat, t: Task, c: Choice, v: View)
    requires LocalStep(cfg, id, t, c, v).Some?
    ensures var e := LocalStep(cfg, id, t, c, v).value;
      && (t.Filling? || t.Reading? ==> e.events == [])
      && (e.next.Answered? ==> t.Reading? && e.next.name == t.name && (IsHit(e.next) ==> e.next.reply.value == v.cell))
      && (e.spawn.Some? ==> !e.spawn.value.Answered?)
  {
  }

  lemma HitsStep(cfg: Config, s: Sys, a: Action)
    requires Solo(s) && Coherent(cfg, s) && HitsIdeal(cfg.codec, s)
    requires Next(cfg, s, a).Some? && (a.Call? ==> Quiescent(s))
    ensures HitsIdeal(cfg.codec, Next(cfg, s, a).value)
  {
    var s' := Next(cfg, s, a).value;
    assert a.Call? ==> forall id :: 0 <= id < |s.tasks| ==> s.tasks[id].Done?;
    forall id | 0 <= id < |s'.tasks| && IsHit(s'.tasks[id])
      ensures IsIdeal(cfg.codec, s'.log, s'.tasks[id].name.Ck(), s'.tasks[id].reply.value.value)
    {
      if a.Step? {
        QuietSteps(cfg, a.id, s.tasks[a.id], a.choice, ViewOf(s, s.tasks[a.id]));
        if id == a.id {
          ReadsIdeal(cfg, s, id);
        } else {
          assert s'.tasks[id] == s.tasks[id];
          LivesAlone(s, id, a.id);
        }
        assert s'.log == s.log;
      }
    }
  }

  lemma {:induction false} DrainedHits(cfg: Config, s: Sys, actions: seq<Action>)
    requires cfg.codec.RoundTrips() && Solo(s) && Coherent(cfg, s) && HitsIdeal(cfg.codec, s)
    requires Run(cfg, s, actions).Some? && Drained(cfg, s, actions) && RaceFree(cfg, s, actions)
    ensures HitsIdeal(cfg.codec, Run(cfg, s, actions).value)
    decreases |actions|
  {
    if actions == [] {
    } else {
      var s' := Next(cfg, s, actions[0]).value;
      HitsStep(cfg, s, actions[0]);
      SoloStep(cfg, s, actions[0]);
      SoloIsOrderly(s');
      CoherentStep(cfg, s, actions[0]);
      DrainedHits(cfg, s', actions[1..]);
    }
  }

  /** In a drained run that has had no race, whatever a read finds, in whichever tier, is the entry the
      ideal cache has at that moment; so a key removed since it was last stamped is never found. A `get`
      returns that entry's value however old it is, nothing when no tier has the key, and otherwise the
      error of the tier that failed. */
  lemma DrainedReadsAreIdeal(cfg: Config, s: Sys, id: nat)
    requires cfg.codec.RoundTrips() && RaceFreeReach(cfg, s) && id < |s.tasks| && s.tasks[id].Answered?
    ensures var t, ideal := s.tasks[id], Ideal(s.log, s.tasks[id].name.Ck());
      && (IsHit(t) <==> Decoded(cfg.codec, t.reply).Some?)
      && (IsHit(t) ==> ideal == Decoded(cfg.codec, t.reply))
      && (t.purpose.ForGet? ==>
          var done := Next(cfg, s, Step(id, Go)).value.tasks[id];
          done.Done? && (match t.reply
            case Err(e) => done.ret == Err(e)
            case Ok(None) => done.ret == Ok(None)
            case Ok(Some(_)) => ideal.Some? && done.ret == Ok(Some(ideal.value.value))))
  {
    var start, actions :| Run(cfg, Init(cfg, start), actions) == Some(s)
      && Drained(cfg, Init(cfg, start), actions) && RaceFree(cfg, Init(cfg, start), actions);
    DrainedHits(cfg, Init(cfg, start), actions);
    assert IsHit(s.tasks[id]) ==> IsIdeal(cfg.codec, s.log, s.tasks[id].name.Ck(), s.tasks[id].reply.value.value);
  }
}
