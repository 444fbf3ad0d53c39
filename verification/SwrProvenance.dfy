/** Where values and timestamps come from, over every interleaving. */
module SwrProvenance {
  import opened Wrappers
  import opened Entries
  import opened Keys
  import opened SwrProtocol
  import opened SwrRuns

  // ---------------------------------------------------------------- what the log vouches for

  ghost predicate IsSource(ev: Event, ck: string, v: Value) {
    || (ev.Given? && ev.name.Ck() == ck && ev.value == v)
    || (ev.Loaded? && ev.name.Ck() == ck && ev.result == Some(v))
  }

  /** `v` was passed to `set`, or returned by a loader, for a pair with composite key `ck`. */
  ghost predicate Traced(log: seq<Event>, ck: string, v: Value) {
    exists ev :: ev in log && IsSource(ev, ck, v)
  }

  ghost predicate IsStampOf(codec: Codec, ev: Event, ck: string, stored: StoredEntry) {
    ev.Stamped? && ev.name.Ck() == ck && Represents(codec, stored, ev.entry)
  }

  /** `stored` represents an entry that was stamped, with exactly these timestamps, under `ck`. */
  ghost predicate StampedIn(codec: Codec, log: seq<Event>, ck: string, stored: StoredEntry) {
    exists ev :: ev in log && IsStampOf(codec, ev, ck, stored)
  }

  ghost predicate StampedBy(log: seq<Event>, ck: string, entry: Entry, at: int) {
    exists ev :: ev in log && ev.Stamped? && ev.name.Ck() == ck && ev.entry == entry && ev.at <= at
  }

  /** The loader of `call` returned `result`. */
  ghost predicate LoadedIn(log: seq<Event>, call: nat, name: Name, result: Option<Value>) {
    exists at :: Loaded(call, name, result, at) in log
  }

  /** The value carried past an expired first read, or nothing when that read decoded nothing. */
  ghost predicate FallbackOk(log: seq<Event>, call: nat, name: Name, fallback: Option<Value>) {
    exists found, at ::
      && FirstRead(call, name, found, at) in log
      && (fallback.None? ==> found.None?)
      && (fallback.Some? ==> found.Some? && found.value.IsExpired(at) && found.value.value == fallback.value)
  }

  /** Why a finished `swr` returned what it returned. */
  ghost predicate Explains(log: seq<Event>, call: nat, name: Name, ret: Option<Value>, found: Option<Entry>, at: int) {
    && FirstRead(call, name, found, at) in log
    && match ret
       case None => found.None? && LoadedIn(log, call, name, None)
       case Some(v) =>
         || (found.Some? && !found.value.IsExpired(at) && found.value.value == v)
         || ((found.None? || found.value.IsExpired(at))
             && (LoadedIn(log, call, name, Some(v)) || RetryHit(call, name, v) in log))
         || (found.Some? && found.value.IsExpired(at) && found.value.value == v && LoadedIn(log, call, name, None))
  }

  ghost predicate SwrReplyOk(log: seq<Event>, call: nat, name: Name, ret: Result<Option<Value>, CacheError>) {
    ret.Ok? && exists found, at :: Explains(log, call, name, ret.value, found, at)
  }

  // ---------------------------------------------------------------- the invariant

  ghost predicate PurposeOk(log: seq<Event>, call: nat, name: Name, purpose: Purpose) {
    purpose.ForRetry? ==> FallbackOk(log, call, name, purpose.fallback)
  }

  ghost predicate LoaderOk(log: seq<Event>, call: nat, name: Name, loader: Loader) {
    loader.Foreground? ==> FallbackOk(log, call, name, loader.fallback)
  }

  ghost predicate OutcomeOk(log: seq<Event>, call: nat, name: Name, outcome: Result<Option<Value>, CacheError>) {
    && outcome.Ok?
    && (LoadedIn(log, call, name, outcome.value)
        || (outcome.value.Some? && RetryHit(call, name, outcome.value.value) in log))
  }

  ghost predicate TaskOk(codec: Codec, log: seq<Event>, t: Task) {
    match t
    case Reading(call, name, purpose, _) => PurposeOk(log, call, name, purpose)
    case Answered(call, name, purpose, reply) =>
      PurposeOk(log, call, name, purpose)
      && (reply.Ok? && reply.value.Some? ==> StampedIn(codec, log, name.Ck(), reply.value.value))
    case Checking(call, name, loader) => LoaderOk(log, call, name, loader)
    case Waiting(call, name, fallback) => FallbackOk(log, call, name, fallback)
    case Marking(call, name, loader, _) => LoaderOk(log, call, name, loader)
    case Loading(call, name, loader) => LoaderOk(log, call, name, loader)
    case Unmarking(call, name, loader, loaded) =>
      LoaderOk(log, call, name, loader) && (loader.Foreground? ==> LoadedIn(log, call, name, loaded))
    case Finishing(call, name, fallback, outcome) =>
      FallbackOk(log, call, name, fallback) && OutcomeOk(log, call, name, outcome)
    case Writing(_, name, _, stored, _, _) => StampedIn(codec, log, name.Ck(), stored)
    case Filling(_, name, stored, _, _) => StampedIn(codec, log, name.Ck(), stored)
    case Removing(_, _, _, _) => true
    case Done(call, name, kind, ret) =>
      && (kind.GetCall? && ret.Ok? && ret.value.Some? ==> Traced(log, name.Ck(), ret.value.value))
      && (kind.SwrCall? ==> SwrReplyOk(log, call, name, ret))
  }

  ghost predicate EventOk(cfg: Config, log: seq<Event>, clock: int, ev: Event) {
    match ev
    case Stamped(_, name, entry, at, freshMs, staleMs, custom) =>
      && at <= clock
      && entry.freshUntil == at + freshMs && entry.staleUntil == at + staleMs
      && (custom || (freshMs == cfg.freshMs && staleMs == cfg.staleMs))
      && Traced(log, name.Ck(), entry.value)
    case RetryHit(_, name, v) => Traced(log, name.Ck(), v)
    case FirstRead(_, name, Some(entry), at) => at <= clock && StampedBy(log, name.Ck(), entry, at)
    case _ => true
  }

  ghost predicate CellOk(cfg: Config, log: seq<Event>, ck: string, tier: nat, stored: StoredEntry)
    requires tier < |cfg.modes|
  {
    StampedIn(cfg.codec, log, ck, stored) && (cfg.modes[tier].SerializedMode? ==> stored.Serialized?)
  }

  ghost predicate TasksOk(codec: Codec, s: Sys) {
    forall id :: 0 <= id < |s.tasks| ==> TaskOk(codec, s.log, s.tasks[id])
  }

  ghost predicate LogOk(cfg: Config, s: Sys) {
    forall ev :: ev in s.log ==> EventOk(cfg, s.log, s.clock, ev)
  }

  ghost predicate TiersOk(cfg: Config, s: Sys) {
    && |s.tiers| == |cfg.modes|
    && forall i, ck :: 0 <= i < |s.tiers| && ck in s.tiers[i] ==> CellOk(cfg, s.log, ck, i, s.tiers[i][ck])
  }

  ghost predicate Inv(cfg: Config, s: Sys) {
    cfg.codec.RoundTrips() && TasksOk(cfg.codec, s) && LogOk(cfg, s) && TiersOk(cfg, s)
  }

  // ---------------------------------------------------------------- a longer log vouches for more

  lemma TaskOkGrows(codec: Codec, log: seq<Event>, more: seq<Event>, t: Task)
    requires TaskOk(codec, log, t)
    ensures TaskOk(codec, log + more, t)
  {
    assert forall ev :: ev in log ==> ev in log + more;
    if t.Done? && t.kind.SwrCall? {
      var found, at :| Explains(log, t.call, t.name, t.ret.value, found, at);
      assert Explains(log + more, t.call, t.name, t.ret.value, found, at);
    }
  }

  lemma EventOkGrows(cfg: Config, log: seq<Event>, more: seq<Event>, clock: int, later: int, ev: Event)
    requires EventOk(cfg, log, clock, ev) && clock <= later
    ensures EventOk(cfg, log + more, later, ev)
  {
    assert forall ev :: ev in log ==> ev in log + more;
  }

  lemma CellOkGrows(cfg: Config, log: seq<Event>, more: seq<Event>, ck: string, tier: nat, stored: StoredEntry)
    requires tier < |cfg.modes| && CellOk(cfg, log, ck, tier, stored)
    ensures CellOk(cfg, log + more, ck, tier, stored)
  {
    assert forall ev :: ev in log ==> ev in log + more;
  }

  // ---------------------------------------------------------------- one step

  ghost predicate EffectOk(cfg: Config, s: Sys, ck: string, e: Effect) {
    var log := s.log + e.events;
    && TaskOk(cfg.codec, log, e.next)
    && (e.spawn.Some? ==> TaskOk(cfg.codec, log, e.spawn.value))
    && (e.store.Put? ==> e.store.tier < |cfg.modes| && CellOk(cfg, log, ck, e.store.tier, e.store.stored))
    && forall ev :: ev in e.events ==> EventOk(cfg, log, s.clock, ev)
  }

  /** A stamp vouches for the entry just built from it. */
  lemma FreshStamp(cfg: Config, log: seq<Event>, name: Name, entry: Entry, ev: Event)
    requires cfg.codec.RoundTrips()
    requires ev in log && ev.Stamped? && ev.name == name && ev.entry == entry
    requires BuildStored(cfg.codec, entry, cfg.StoreMode()).Ok?
    ensures StampedIn(cfg.codec, log, name.Ck(), BuildStored(cfg.codec, entry, cfg.StoreMode()).value)
  {
    BuiltRepresents(cfg.codec, entry, cfg.StoreMode());
    assert IsStampOf(cfg.codec, ev, name.Ck(), BuildStored(cfg.codec, entry, cfg.StoreMode()).value);
  }

  lemma PutTierOk(cfg: Config, log: seq<Event>, ck: string, stored: StoredEntry, tier: nat, ok: bool)
    requires cfg.codec.RoundTrips() && tier < |cfg.modes|
    requires StampedIn(cfg.codec, log, ck, stored)
    ensures var op := PutTier(cfg, stored, tier, ok);
            op.Put? ==> op.tier == tier && CellOk(cfg, log, ck, tier, op.stored)
  {
    var ev :| ev in log && IsStampOf(cfg.codec, ev, ck, stored);
    ConvertedRepresents(cfg.codec, stored, ev.entry, cfg.modes[tier]);
    var converted := ConvertForMode(cfg.codec, stored, cfg.modes[tier]);
    if converted.Ok? {
      assert IsStampOf(cfg.codec, ev, ck, converted.value);
    }
  }

  lemma ReadStepOk(cfg: Config, s: Sys, t: Task, c: Choice)
    requires Inv(cfg, s) && t.Reading? && TaskOk(cfg.codec, s.log, t)
    ensures ReadStep(cfg, t, c, ViewOf(s, t)).Some? ==>
      EffectOk(cfg, s, t.name.Ck(), ReadStep(cfg, t, c, ViewOf(s, t)).value)
  {
    assert s.log + [] == s.log;
  }

  /** What an answered read decoded to was stamped before now, and its value can be traced. */
  lemma DecodedOk(cfg: Config, s: Sys, t: Task)
    requires Inv(cfg, s) && t.Answered? && TaskOk(cfg.codec, s.log, t)
    ensures var d := Decoded(cfg.codec, t.reply);
      && (d.Some? <==> t.reply.Ok? && t.reply.value.Some?)
      && (d.Some? ==> StampedBy(s.log, t.name.Ck(), d.value, s.clock) && Traced(s.log, t.name.Ck(), d.value.value))
  {
    if t.reply.Ok? && t.reply.value.Some? {
      var stored := t.reply.value.value;
      var ev :| ev in s.log && IsStampOf(cfg.codec, ev, t.name.Ck(), stored);
      assert EventOk(cfg, s.log, s.clock, ev);
    }
  }

  lemma SwrAnswerOk(cfg: Config, s: Sys, t: Task)
    requires Inv(cfg, s) && t.Answered? && t.purpose.ForSwr? && TaskOk(cfg.codec, s.log, t)
    ensures EffectOk(cfg, s, t.name.Ck(), SwrStep(cfg, t.call, t.name, t.reply, s.clock))
  {
    DecodedOk(cfg, s, t);
    var e, d := SwrStep(cfg, t.call, t.name, t.reply, s.clock), Decoded(cfg.codec, t.reply);
    var log := s.log + e.events;
    assert forall ev :: ev in s.log ==> ev in log;
    var first := FirstRead(t.call, t.name, d, s.clock);
    assert e.events == [first] && first in log;
    if e.next.Done? {
      assert Explains(log, t.call, t.name, e.next.ret.value, d, s.clock);
    }
  }

  lemma AnswerStepOk(cfg: Config, s: Sys, t: Task)
    requires Inv(cfg, s) && t.Answered? && TaskOk(cfg.codec, s.log, t)
    ensures EffectOk(cfg, s, t.name.Ck(), AnswerStep(cfg, t, s.clock))
  {
    if t.purpose.ForSwr? {
      SwrAnswerOk(cfg, s, t);
    } else {
      DecodedOk(cfg, s, t);
      var e, d := AnswerStep(cfg, t, s.clock), Decoded(cfg.codec, t.reply);
      assert forall ev :: ev in s.log ==> ev in s.log + e.events;
      if t.purpose.ForRetry? && d.Some? {
        assert RetryHit(t.call, t.name, d.value.value) in s.log + e.events;
      }
    }
  }

  lemma LoadStepOk(cfg: Config, s: Sys, t: Task, result: Option<Value>)
    requires Inv(cfg, s) && t.Loading? && TaskOk(cfg.codec, s.log, t)
    ensures EffectOk(cfg, s, t.name.Ck(), LoadStep(cfg, t, result, s.clock))
  {
    var e := LoadStep(cfg, t, result, s.clock);
    var log, loaded := s.log + e.events, Loaded(t.call, t.name, result, s.clock);
    assert forall ev :: ev in s.log ==> ev in log;
    assert loaded in e.events && loaded in log;
    if e.next.Writing? {
      var stamp := StampedNow(cfg, t.call, t.name, result.value, s.clock);
      assert stamp in e.events && stamp in log;
      assert IsSource(loaded, t.name.Ck(), result.value);
      FreshStamp(cfg, log, t.name, stamp.entry, stamp);
    }
  }

  /** Whatever a call is about to return and cache can be traced. */
  lemma OutcomeTraced(cfg: Config, s: Sys, t: Task)
    requires Inv(cfg, s) && t.Finishing? && TaskOk(cfg.codec, s.log, t)
    ensures t.outcome.value.Some? ==> Traced(s.log, t.name.Ck(), t.outcome.value.value)
  {
    if t.outcome.value.Some? {
      var v := t.outcome.value.value;
      if LoadedIn(s.log, t.call, t.name, Some(v)) {
        var at :| Loaded(t.call, t.name, Some(v), at) in s.log;
        assert IsSource(Loaded(t.call, t.name, Some(v), at), t.name.Ck(), v);
      } else {
        assert EventOk(cfg, s.log, s.clock, RetryHit(t.call, t.name, v));
      }
    }
  }

  /** The reply a call settles on is explained by its first read and by what it loaded or found. */
  lemma FinishExplained(cfg: Config, s: Sys, t: Task)
    requires Inv(cfg, s) && t.Finishing? && TaskOk(cfg.codec, s.log, t)
    ensures SwrReplyOk(s.log, t.call, t.name, FinishStep(cfg, t, s.clock).next.ret)
  {
    var ret := FinishStep(cfg, t, s.clock).next.ret;
    var found, at :| FirstRead(t.call, t.name, found, at) in s.log
      && (t.fallback.None? ==> found.None?)
      && (t.fallback.Some? ==> found.Some? && found.value.IsExpired(at) && found.value.value == t.fallback.value);
    assert Explains(s.log, t.call, t.name, ret.value, found, at);
  }

  /** The writer that `cache_value` spawns is vouched for by its own stamp. */
  lemma CachedValueOk(cfg: Config, s: Sys, call: nat, name: Name, v: Value)
    requires Inv(cfg, s) && Traced(s.log, name.Ck(), v)
    ensures var (writer, events) := CacheValue(cfg, call, name, v, s.clock);
      var log := s.log + events;
      && (writer.Some? ==> TaskOk(cfg.codec, log, writer.value))
      && forall ev :: ev in events ==> EventOk(cfg, log, s.clock, ev)
  {
    var (writer, events) := CacheValue(cfg, call, name, v, s.clock);
    assert forall ev :: ev in s.log ==> ev in s.log + events;
    if writer.Some? {
      var stamp := StampedNow(cfg, call, name, v, s.clock);
      assert events == [stamp] && stamp in s.log + events;
      FreshStamp(cfg, s.log + events, name, stamp.entry, stamp);
    }
  }

  lemma FinishStepOk(cfg: Config, s: Sys, t: Task)
    requires Inv(cfg, s) && t.Finishing? && TaskOk(cfg.codec, s.log, t)
    ensures EffectOk(cfg, s, t.name.Ck(), FinishStep(cfg, t, s.clock))
  {
    FinishExplained(cfg, s, t);
    var e := FinishStep(cfg, t, s.clock);
    assert e.next == Done(t.call, t.name, SwrCall, e.next.ret);
    TaskOkGrows(cfg.codec, s.log, e.events, e.next);
    if t.outcome.value.Some? {
      OutcomeTraced(cfg, s, t);
      CachedValueOk(cfg, s, t.call, t.name, t.outcome.value.value);
    }
  }

  lemma TierStepOk(cfg: Config, s: Sys, id: nat, c: Choice)
    requires Inv(cfg, s) && id < |s.tasks| && (s.tasks[id].Writing? || s.tasks[id].Filling?)
    ensures var t := s.tasks[id];
      var e := LocalStep(cfg, id, t, c, ViewOf(s, t));
      e.Some? ==> EffectOk(cfg, s, t.name.Ck(), e.value)
  {
    var t := s.tasks[id];
    assert TaskOk(cfg.codec, s.log, t);
    assert s.log + [] == s.log;
    if c.Tier? && c.tier < |cfg.modes| {
      PutTierOk(cfg, s.log, t.name.Ck(), t.stored, c.tier, c.ok);
    }
  }

  lemma StepOk(cfg: Config, s: Sys, id: nat, c: Choice)
    requires Inv(cfg, s) && id < |s.tasks|
    ensures var t := s.tasks[id];
      var e := LocalStep(cfg, id, t, c, ViewOf(s, t));
      e.Some? ==> EffectOk(cfg, s, t.name.Ck(), e.value)
  {
    var t := s.tasks[id];
    assert TaskOk(cfg.codec, s.log, t);
    var r := LocalStep(cfg, id, t, c, ViewOf(s, t));
    if r.Some? {
      var log := s.log + r.value.events;
      assert forall ev :: ev in s.log ==> ev in log;
      match t
      case Reading(_, _, _, _) => ReadStepOk(cfg, s, t, c);
      case Answered(_, _, _, _) => AnswerStepOk(cfg, s, t);
      case Loading(_, _, _) => LoadStepOk(cfg, s, t, c.result);
      case Finishing(_, _, _, _) => FinishStepOk(cfg, s, t);
      case Writing(_, _, _, _, _, _) => TierStepOk(cfg, s, id, c);
      case Filling(_, _, _, _, _) => TierStepOk(cfg, s, id, c);
      case _ =>
    }
  }

  lemma PerformOk(cfg: Config, s: Sys, id: nat, e: Effect)
    requires Inv(cfg, s) && id < |s.tasks| && EffectOk(cfg, s, s.tasks[id].name.Ck(), e)
    ensures Inv(cfg, Perform(s, id, e))
  {
    var s', ck := Perform(s, id, e), s.tasks[id].name.Ck();
    forall i | 0 <= i < |s'.tasks| ensures TaskOk(cfg.codec, s'.log, s'.tasks[i]) {
      if i < |s.tasks| && i != id {
        TaskOkGrows(cfg.codec, s.log, e.events, s.tasks[i]);
      }
    }
    forall ev | ev in s'.log ensures EventOk(cfg, s'.log, s'.clock, ev) {
      if ev in s.log {
        EventOkGrows(cfg, s.log, e.events, s.clock, s.clock, ev);
      }
    }
    forall i, k | 0 <= i < |s'.tiers| && k in s'.tiers[i] ensures CellOk(cfg, s'.log, k, i, s'.tiers[i][k]) {
      if !(e.store.Put? && e.store.tier == i && k == ck) {
        CellOkGrows(cfg, s.log, e.events, k, i, s.tiers[i][k]);
      }
    }
  }

  lemma CallOk(cfg: Config, s: Sys, req: Request)
    requires Inv(cfg, s)
    ensures Inv(cfg, Next(cfg, s, Call(req)).value)
  {
    var (task, events) := Arrive(cfg, |s.tasks|, req, s.clock);
    var s' := Next(cfg, s, Call(req)).value;
    assert forall ev :: ev in s.log ==> ev in s'.log;
    if req.SetRequest? && events != [] {
      var given, stamp := events[0], events[1];
      assert given in s'.log && stamp in s'.log;
      assert IsSource(given, req.name.Ck(), req.value);
      FreshStamp(cfg, s'.log, req.name, stamp.entry, stamp);
    }
    forall i | 0 <= i < |s'.tasks| ensures TaskOk(cfg.codec, s'.log, s'.tasks[i]) {
      if i < |s.tasks| {
        TaskOkGrows(cfg.codec, s.log, events, s.tasks[i]);
      }
    }
    forall ev | ev in s'.log ensures EventOk(cfg, s'.log, s'.clock, ev) {
      if ev in s.log {
        EventOkGrows(cfg, s.log, events, s.clock, s.clock, ev);
      }
    }
    forall i, k | 0 <= i < |s'.tiers| && k in s'.tiers[i] ensures CellOk(cfg, s'.log, k, i, s'.tiers[i][k]) {
      CellOkGrows(cfg, s.log, events, k, i, s.tiers[i][k]);
    }
  }

  lemma EnvironmentOk(cfg: Config, s: Sys, a: Action)
    requires Inv(cfg, s) && (a.Tick? || a.Lose?) && Next(cfg, s, a).Some?
    ensures Inv(cfg, Next(cfg, s, a).value)
  {
    var s' := Next(cfg, s, a).value;
    forall ev | ev in s'.log ensures EventOk(cfg, s'.log, s'.clock, ev) {
      EventOkGrows(cfg, s.log, [], s.clock, s'.clock, ev);
      assert s.log + [] == s.log;
    }
  }

  lemma InvIsInductive(cfg: Config)
    ensures Inductive(cfg, s => Inv(cfg, s))
  {
    forall s, a | Inv(cfg, s) && Next(cfg, s, a).Some? ensures Inv(cfg, Next(cfg, s, a).value) {
      match a
      case Step(id, c) =>
        StepOk(cfg, s, id, c);
        PerformOk(cfg, s, id, LocalStep(cfg, id, s.tasks[id], c, ViewOf(s, s.tasks[id])).value);
      case Call(req) => CallOk(cfg, s, req);
      case _ => EnvironmentOk(cfg, s, a);
    }
  }

  lemma ReachableInv(cfg: Config, s: Sys)
    requires cfg.codec.RoundTrips() && Reachable(cfg, s)
    ensures Inv(cfg, s)
  {
    InvIsInductive(cfg);
    ReachableKeeps(cfg, s => Inv(cfg, s), s);
  }

  // ---------------------------------------------------------------- what follows in every reachable state

  lemma StampedIsTraced(cfg: Config, s: Sys, ck: string, entry: Entry, at: int)
    requires Inv(cfg, s) && StampedBy(s.log, ck, entry, at)
    ensures Traced(s.log, ck, entry.value)
  {
    var ev :| ev in s.log && ev.Stamped? && ev.name.Ck() == ck && ev.entry == entry && ev.at <= at;
    assert EventOk(cfg, s.log, s.clock, ev);
  }

  lemma SwrReplyTraced(cfg: Config, s: Sys, call: nat, name: Name, v: Value)
    requires Inv(cfg, s) && SwrReplyOk(s.log, call, name, Ok(Some(v)))
    ensures Traced(s.log, name.Ck(), v)
  {
    var found, at :| Explains(s.log, call, name, Some(v), found, at);
    assert EventOk(cfg, s.log, s.clock, FirstRead(call, name, found, at));
    if found.Some? && found.value.value == v {
      StampedIsTraced(cfg, s, name.Ck(), found.value, at);
    } else if LoadedIn(s.log, call, name, Some(v)) {
      var la :| Loaded(call, name, Some(v), la) in s.log;
      assert IsSource(Loaded(call, name, Some(v), la), name.Ck(), v);
    } else {
      assert EventOk(cfg, s.log, s.clock, RetryHit(call, name, v));
    }
  }

  predicate Returned(t: Task) {
    t.Done? && (t.kind.GetCall? || t.kind.SwrCall?) && t.ret.Ok? && t.ret.value.Some?
  }

  lemma ReturnedIsTraced(cfg: Config, s: Sys, id: nat)
    requires Inv(cfg, s) && id < |s.tasks| && Returned(s.tasks[id])
    ensures Traced(s.log, s.tasks[id].name.Ck(), s.tasks[id].ret.value.value)
  {
    var t := s.tasks[id];
    assert TaskOk(cfg.codec, s.log, t);
    if t.kind.SwrCall? {
      SwrReplyTraced(cfg, s, t.call, t.name, t.ret.value.value);
    }
  }

  /** Nothing is invented and nothing crosses keys: whatever a finished `get` or `swr` returned, and
      whatever any tier holds, was earlier given to `set` or returned by a loader under the same
      composite key; and a tier's entry has exactly the timestamps one earlier stamp gave it. */
  lemma Provenance(cfg: Config, s: Sys)
    requires cfg.codec.RoundTrips() && Reachable(cfg, s)
    ensures forall id :: 0 <= id < |s.tasks| && Returned(s.tasks[id]) ==>
      Traced(s.log, s.tasks[id].name.Ck(), s.tasks[id].ret.value.value)
    ensures forall i, ck :: 0 <= i < |s.tiers| && ck in s.tiers[i] ==>
      var decoded := IntoTyped(cfg.codec, s.tiers[i][ck]);
      decoded.Ok? && Traced(s.log, ck, decoded.value.value) && StampedBy(s.log, ck, decoded.value, s.clock)
  {
    ReachableInv(cfg, s);
    forall id | 0 <= id < |s.tasks| && Returned(s.tasks[id])
      ensures Traced(s.log, s.tasks[id].name.Ck(), s.tasks[id].ret.value.value)
    {
      ReturnedIsTraced(cfg, s, id);
    }
    forall i, ck | 0 <= i < |s.tiers| && ck in s.tiers[i]
      ensures var decoded := IntoTyped(cfg.codec, s.tiers[i][ck]);
        decoded.Ok? && Traced(s.log, ck, decoded.value.value) && StampedBy(s.log, ck, decoded.value, s.clock)
    {
      assert CellOk(cfg, s.log, ck, i, s.tiers[i][ck]);
      var ev :| ev in s.log && IsStampOf(cfg.codec, ev, ck, s.tiers[i][ck]);
      assert EventOk(cfg, s.log, s.clock, ev);
    }
  }

  ghost predicate NamespacesColonFree(log: seq<Event>) {
    forall ev :: ev in log && (ev.Given? || ev.Loaded?) ==> ColonFree(ev.name.ns)
  }

  /** With colon-free namespaces the source is the very same namespace and key, not just a colliding
      composite key: caches that share stores never see each other's values. */
  lemma ProvenanceByName(log: seq<Event>, name: Name, v: Value)
    requires NamespacesColonFree(log) && ColonFree(name.ns)
    ensures Traced(log, name.Ck(), v) <==>
      exists call: nat, at :: Given(call, name, v, at) in log || Loaded(call, name, Some(v), at) in log
  {
    if Traced(log, name.Ck(), v) {
      var ev :| ev in log && IsSource(ev, name.Ck(), v);
      KeyIsInjective(ev.name.ns, ev.name.key, name.ns, name.key);
      assert ev == Given(ev.call, name, v, ev.at) || ev == Loaded(ev.call, name, Some(v), ev.at);
    }
    forall call: nat, at | Given(call, name, v, at) in log || Loaded(call, name, Some(v), at) in log
      ensures Traced(log, name.Ck(), v)
    {
      assert IsSource(Given(call, name, v, at), name.Ck(), v);
      assert IsSource(Loaded(call, name, Some(v), at), name.Ck(), v);
    }
  }

  /** No load ever reports an error to `swr`, so neither of its error arms is reachable. */
  lemma ErrorArmsUnreachable(cfg: Config, s: Sys, id: nat)
    requires cfg.codec.RoundTrips() && Reachable(cfg, s)
    requires id < |s.tasks| && s.tasks[id].Finishing?
    ensures s.tasks[id].outcome.Ok?
  {
    ReachableInv(cfg, s);
    assert TaskOk(cfg.codec, s.log, s.tasks[id]);
  }

  /** Which arm `swr` takes depends on the age of what it read and on nothing else; the arm for an
      expired entry that needs no revalidation is never taken. */
  lemma ArmByAge(codec: Codec, reply: Reply, now: int)
    ensures var arm, d := SwrArm(GetInternal(codec, reply, now)), Decoded(codec, reply);
      && !arm.LoadUnflagged?
      && (arm.LoadMissing? <==> d.None?)
      && (d.Some? ==>
          && (d.value.IsExpired(now) <==> arm == LoadOrFallBack(d.value.value))
          && (!d.value.IsExpired(now) && d.value.IsFresh(now) <==> arm == ServeFresh(d.value.value))
          && (d.value.IsStale(now) <==> arm == ServeStale(d.value.value)))
  {
  }

  /** A tier that asks for serialized entries holds and is handed nothing else, so the arm in which
      Redis refuses a typed entry is unreachable. */
  lemma SerializedTiersGetSerialized(cfg: Config, s: Sys, id: nat, c: Choice)
    requires cfg.codec.RoundTrips() && Reachable(cfg, s) && id < |s.tasks|
    ensures |s.tiers| == |cfg.modes|
    ensures forall i, ck :: 0 <= i < |s.tiers| && cfg.modes[i].SerializedMode? && ck in s.tiers[i] ==>
      s.tiers[i][ck].Serialized?
    ensures var e := LocalStep(cfg, id, s.tasks[id], c, ViewOf(s, s.tasks[id]));
      e.Some? && e.value.store.Put? ==>
        e.value.store.tier < |cfg.modes|
          && (cfg.modes[e.value.store.tier].SerializedMode? ==> e.value.store.stored.Serialized?)
  {
    ReachableInv(cfg, s);
    StepOk(cfg, s, id, c);
  }

  // ---------------------------------------------------------------- lifetimes

  /** No call of `set` chose its own timings. */
  ghost predicate DefaultTimings(log: seq<Event>) {
    forall ev :: ev in log && ev.Stamped? ==> !ev.custom
  }

  /** With default timings every entry of every tier keeps the width of its stale window and was
      stamped no later than now: backfill, conversion and retry never extend a lifetime. */
  lemma TimestampWindow(cfg: Config, s: Sys, i: nat, ck: string)
    requires cfg.codec.RoundTrips() && Reachable(cfg, s) && DefaultTimings(s.log)
    requires i < |s.tiers| && ck in s.tiers[i]
    ensures var stored := s.tiers[i][ck];
      && IntoTyped(cfg.codec, stored).Ok?
      && Represents(cfg.codec, stored, IntoTyped(cfg.codec, stored).value)
      && stored.staleUntil - stored.freshUntil == cfg.staleMs - cfg.freshMs
      && stored.freshUntil <= s.clock + cfg.freshMs
  {
    ReachableInv(cfg, s);
    assert CellOk(cfg, s.log, ck, i, s.tiers[i][ck]);
    var ev :| ev in s.log && IsStampOf(cfg.codec, ev, ck, s.tiers[i][ck]);
    assert EventOk(cfg, s.log, s.clock, ev);
  }

  /** What `swr` serves from its fresh or stale arm was stamped less than `stale_ms` before the moment
      it was judged, and from its fresh arm less than `fresh_ms` before. */
  lemma ServedAge(cfg: Config, s: Sys, call: nat, name: Name, entry: Entry, at: int)
    requires cfg.codec.RoundTrips() && Reachable(cfg, s) && DefaultTimings(s.log)
    requires FirstRead(call, name, Some(entry), at) in s.log && !entry.IsExpired(at)
    ensures exists stamp ::
              && stamp in s.log && stamp.Stamped? && stamp.name.Ck() == name.Ck() && stamp.entry == entry
              && 0 <= at - stamp.at < cfg.staleMs
              && (entry.IsFresh(at) ==> at - stamp.at < cfg.freshMs)
  {
    ReachableInv(cfg, s);
    assert EventOk(cfg, s.log, s.clock, FirstRead(call, name, Some(entry), at));
    var stamp :| stamp in s.log && stamp.Stamped? && stamp.name.Ck() == name.Ck() && stamp.entry == entry
      && stamp.at <= at;
    assert EventOk(cfg, s.log, s.clock, stamp);
  }
}
