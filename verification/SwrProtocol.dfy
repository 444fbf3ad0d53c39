/** The stale-while-revalidate engine as a step machine (src/swr.rs over a src/tiered.rs stack).

    Foreground calls and spawned tasks share one marker set and one stack of tiers. Each step is one
    lock section, one tier operation, one origin reply or one clock reading of one task; any other
    task may run between two steps. `Choice` holds what the code does not decide: which tier replies
    next, whether it fails, what the origin returns.

    A tier here is a lossy map: it may drop any entry at any time (`Lose`), and a read of a key it
    holds may still miss or fail. Finished tasks stay in `tasks`, so their replies can be spoken of. */
module SwrProtocol {
  import opened Wrappers
  import opened Entries
  import opened Keys

  datatype Name = Name(ns: string, key: string) {
    function Ck(): string { BuildCacheKey(ns, key) }
  }

  datatype Config = Config(codec: Codec, modes: seq<StorageMode>, freshMs: int, staleMs: int) {
    /** `TieredStore::storage_mode`. */
    function StoreMode(): StorageMode {
      if modes == [] then SerializedMode else modes[0]
    }
  }

  // ---------------------------------------------------------------- the read path of a call

  type Reply = Result<Option<StoredEntry>, CacheError>

  datatype GetResult = GetResult(value: Option<Value>, revalidate: bool, isExpired: bool)

  function GetInternal(codec: Codec, reply: Reply, now: int): Result<GetResult, CacheError> {
    match reply
    case Err(e) => Err(e)
    case Ok(None) => Ok(GetResult(None, false, false))
    case Ok(Some(stored)) =>
      match IntoTyped(codec, stored)
      case Err(e) => Err(e)
      case Ok(entry) =>
        if now >= entry.staleUntil then Ok(GetResult(Some(entry.value), true, true))
        else if now >= entry.freshUntil then Ok(GetResult(Some(entry.value), true, false))
        else Ok(GetResult(Some(entry.value), false, false))
  }

  /** The arms of the `match` in `swr`. */
  datatype Arm =
    | ServeStale(value: Value)
    | LoadOrFallBack(value: Value)
    | ServeFresh(value: Value)
    | LoadUnflagged
    | LoadMissing

  function SwrArm(r: Result<GetResult, CacheError>): Arm {
    match r
    case Ok(GetResult(Some(v), true, false)) => ServeStale(v)
    case Ok(GetResult(Some(v), true, true)) => LoadOrFallBack(v)
    case Ok(GetResult(Some(v), false, false)) => ServeFresh(v)
    case Ok(GetResult(Some(_), false, true)) => LoadUnflagged
    case _ => LoadMissing
  }

  function Decoded(codec: Codec, reply: Reply): Option<Entry> {
    if reply.Ok? && reply.value.Some? && IntoTyped(codec, reply.value.value).Ok?
    then Some(IntoTyped(codec, reply.value.value).value) else None
  }

  // ---------------------------------------------------------------- tasks

  datatype Purpose = ForGet | ForSwr | ForRetry(fallback: Option<Value>)

  datatype Loader = Foreground(fallback: Option<Value>) | Background

  /** Why a task goes on to mark: it saw no marker when the log had `at` events, or it had seen one,
      waited, and its retry gave nothing. */
  datatype Sighting = SawFree(at: nat) | RetryMissed

  datatype Writer = BySet | ByCache | ByRevalidation

  datatype Kind = GetCall | SwrCall | SetCall | RemoveCall | Spawned

  datatype Task =
    | Reading(call: nat, name: Name, purpose: Purpose, tier: nat)
    | Answered(call: nat, name: Name, purpose: Purpose, reply: Reply)
    | Checking(call: nat, name: Name, loader: Loader)
    | Waiting(call: nat, name: Name, fallback: Option<Value>)
    | Marking(call: nat, name: Name, loader: Loader, saw: Sighting)
    | Loading(call: nat, name: Name, loader: Loader)
    | Unmarking(call: nat, name: Name, loader: Loader, loaded: Option<Value>)
    | Finishing(call: nat, name: Name, fallback: Option<Value>, outcome: Result<Option<Value>, CacheError>)
    | Writing(call: nat, name: Name, writer: Writer, stored: StoredEntry, pending: set<nat>, failed: bool)
    | Filling(call: nat, name: Name, stored: StoredEntry, tier: nat, upTo: nat)
    | Removing(call: nat, name: Name, pending: set<nat>, failed: bool)
    | Done(call: nat, name: Name, kind: Kind, ret: Result<Option<Value>, CacheError>)

  /** What happened, in order. Only the specification reads it. */
  datatype Event =
    | Given(call: nat, name: Name, value: Value, at: int)
    | Cleared(name: Name)
    | Stamped(call: nat, name: Name, entry: Entry, at: int, freshMs: int, staleMs: int, custom: bool)
    | FirstRead(call: nat, name: Name, found: Option<Entry>, at: int)
    | FoundMarker(call: nat)
    | RetryHit(call: nat, name: Name, value: Value)
    | Marked(id: nat, call: nat, name: Name, over: bool, saw: Sighting)
    | Loaded(call: nat, name: Name, result: Option<Value>, at: int)

  // ---------------------------------------------------------------- one step of one task

  datatype Choice = Go | Hit | Miss | Fail | Tier(tier: nat, ok: bool) | Origin(result: Option<Value>)

  datatype StoreOp = KeepStore | Put(tier: nat, stored: StoredEntry) | Delete(tier: nat)

  datatype MarkerOp = KeepMarker | SetMarker | ClearMarker

  datatype Effect = Effect(next: Task, spawn: Option<Task>, store: StoreOp, marker: MarkerOp, events: seq<Event>)

  /** What a task can see of the shared state in one step. */
  datatype View = View(clock: int, marked: bool, cell: Option<StoredEntry>, logged: nat)

  function Local(next: Task): Effect { Effect(next, None, KeepStore, KeepMarker, []) }

  function AllTiers(n: nat): (tiers: set<nat>)
    ensures |tiers| == n
    ensures forall i: nat :: i in tiers <==> i < n
  {
    if n == 0 then {} else AllTiers(n - 1) + {n - 1}
  }

  function Restamp(cfg: Config, value: Value, now: int): Entry {
    Entry(value, now + cfg.freshMs, now + cfg.staleMs)
  }

  function StampedNow(cfg: Config, call: nat, name: Name, value: Value, now: int): Event {
    Stamped(call, name, Restamp(cfg, value, now), now, cfg.freshMs, cfg.staleMs, false)
  }

  function ReadStep(cfg: Config, t: Task, c: Choice, v: View): Option<Effect>
    requires t.Reading?
  {
    match c
    case Hit =>
      if t.tier < |cfg.modes| && v.cell.Some? then
        var fill := if t.tier > 0 then Some(Filling(t.call, t.name, v.cell.value, 0, t.tier)) else None;
        Some(Local(Answered(t.call, t.name, t.purpose, Ok(v.cell))).(spawn := fill))
      else None
    case Miss => if t.tier < |cfg.modes| then Some(Local(Reading(t.call, t.name, t.purpose, t.tier + 1))) else None
    case Fail =>
      if t.tier < |cfg.modes| then Some(Local(Answered(t.call, t.name, t.purpose, Err(OperationError)))) else None
    case Go =>
      if t.tier >= |cfg.modes| then Some(Local(Answered(t.call, t.name, t.purpose, Ok(None)))) else None
    case _ => None
  }

  /** The body of `swr` up to its first suspension after the read. */
  function SwrStep(cfg: Config, call: nat, name: Name, reply: Reply, now: int): (e: Effect)
    ensures e.next.Done? || (e.next.Checking? && e.next.loader.Foreground?)
    ensures e.spawn.Some? ==> e.next.Done? && e.spawn.value == Checking(call, name, Background)
    ensures e.next.call == call && e.next.name == name && e.store.KeepStore? && e.marker.KeepMarker?
    ensures e.events == [FirstRead(call, name, Decoded(cfg.codec, reply), now)]
  {
    var first := [FirstRead(call, name, Decoded(cfg.codec, reply), now)];
    match SwrArm(GetInternal(cfg.codec, reply, now))
    case ServeStale(v) =>
      var revalidation := Checking(call, name, Background);
      Effect(Done(call, name, SwrCall, Ok(Some(v))), Some(revalidation), KeepStore, KeepMarker, first)
    case LoadOrFallBack(v) => Local(Checking(call, name, Foreground(Some(v)))).(events := first)
    case ServeFresh(v) => Local(Done(call, name, SwrCall, Ok(Some(v)))).(events := first)
    case LoadUnflagged => Local(Checking(call, name, Foreground(None))).(events := first)
    case LoadMissing => Local(Checking(call, name, Foreground(None))).(events := first)
  }

  function AnswerStep(cfg: Config, t: Task, now: int): Effect
    requires t.Answered?
  {
    match t.purpose
    case ForGet =>
      (match GetInternal(cfg.codec, t.reply, now)
       case Ok(g) => Local(Done(t.call, t.name, GetCall, Ok(g.value)))
       case Err(e) => Local(Done(t.call, t.name, GetCall, Err(e))))
    case ForSwr => SwrStep(cfg, t.call, t.name, t.reply, now)
    case ForRetry(fallback) =>
      match Decoded(cfg.codec, t.reply)
      case Some(e) =>
        Local(Finishing(t.call, t.name, fallback, Ok(Some(e.value)))).(events := [RetryHit(t.call, t.name, e.value)])
      case None => Local(Marking(t.call, t.name, Foreground(fallback), RetryMissed))
  }

  function CheckStep(t: Task, v: View): Effect
    requires t.Checking?
  {
    if !v.marked then Local(Marking(t.call, t.name, t.loader, SawFree(v.logged)))
    else if t.loader.Foreground? then Local(Waiting(t.call, t.name, t.loader.fallback))
    else Local(Done(t.call, t.name, Spawned, Ok(None))).(events := [FoundMarker(t.call)])
  }

  function LoadStep(cfg: Config, t: Task, result: Option<Value>, now: int): Effect
    requires t.Loading?
  {
    var loaded := Loaded(t.call, t.name, result, now);
    var unmark := Local(Unmarking(t.call, t.name, t.loader, result)).(events := [loaded]);
    if t.loader.Foreground? || result.None? then unmark else
    match BuildStored(cfg.codec, Restamp(cfg, result.value, now), cfg.StoreMode())
    case Ok(stored) =>
      Local(Writing(t.call, t.name, ByRevalidation, stored, AllTiers(|cfg.modes|), false))
        .(events := [loaded, StampedNow(cfg, t.call, t.name, result.value, now)])
    case Err(_) => unmark
  }

  /** `cache_value`: the spawned writer and its stamp, unless the value does not serialize. */
  function CacheValue(cfg: Config, call: nat, name: Name, value: Value, now: int): (Option<Task>, seq<Event>) {
    match BuildStored(cfg.codec, Restamp(cfg, value, now), cfg.StoreMode())
    case Ok(stored) =>
      (Some(Writing(call, name, ByCache, stored, AllTiers(|cfg.modes|), false)),
       [StampedNow(cfg, call, name, value, now)])
    case Err(_) => (None, [])
  }

  function FinishStep(cfg: Config, t: Task, now: int): Effect
    requires t.Finishing?
  {
    match t.outcome
    case Ok(Some(v)) =>
      var (writer, stamp) := CacheValue(cfg, t.call, t.name, v, now);
      Effect(Done(t.call, t.name, SwrCall, Ok(Some(v))), writer, KeepStore, KeepMarker, stamp)
    case Ok(None) => Local(Done(t.call, t.name, SwrCall, Ok(t.fallback)))
    case Err(_) =>
      Local(Done(t.call, t.name, SwrCall, if t.fallback.Some? then Ok(t.fallback) else Err(OperationError)))
  }

  /** One tier's share of `TieredStore::set` or of the backfill loop. */
  function PutTier(cfg: Config, stored: StoredEntry, tier: nat, ok: bool): StoreOp
    requires tier < |cfg.modes|
  {
    match ConvertForMode(cfg.codec, stored, cfg.modes[tier])
    case Ok(converted) => if ok then Put(tier, converted) else KeepStore
    case Err(_) => KeepStore
  }

  function WriteStep(cfg: Config, t: Task, c: Choice): Option<Effect>
    requires t.Writing?
  {
    match c
    case Tier(i, ok) =>
      if i in t.pending && i < |cfg.modes| then
        var op := PutTier(cfg, t.stored, i, ok);
        var failed := t.failed || op.KeepStore?;
        Some(Local(Writing(t.call, t.name, t.writer, t.stored, t.pending - {i}, failed)).(store := op))
      else None
    case Go =>
      if t.pending != {} then None else Some(Local(
        match t.writer
        case BySet => Done(t.call, t.name, SetCall, if t.failed then Err(OperationError) else Ok(None))
        case ByCache => Done(t.call, t.name, Spawned, Ok(None))
        case ByRevalidation => Unmarking(t.call, t.name, Background, None)))
    case _ => None
  }

  function FillStep(cfg: Config, t: Task, c: Choice): Option<Effect>
    requires t.Filling?
  {
    match c
    case Tier(i, ok) =>
      if i == t.tier < t.upTo && i < |cfg.modes| then
        var next := if i + 1 < t.upTo then Filling(t.call, t.name, t.stored, i + 1, t.upTo)
                    else Done(t.call, t.name, Spawned, Ok(None));
        Some(Local(next).(store := PutTier(cfg, t.stored, i, ok)))
      else None
    case _ => None
  }

  function RemoveStep(cfg: Config, t: Task, c: Choice): Option<Effect>
    requires t.Removing?
  {
    match c
    case Tier(i, ok) =>
      if i in t.pending && i < |cfg.modes| then
        var op := if ok then Delete(i) else KeepStore;
        Some(Local(Removing(t.call, t.name, t.pending - {i}, t.failed || !ok)).(store := op))
      else None
    case Go =>
      if t.pending != {} then None
      else Some(Local(Done(t.call, t.name, RemoveCall, if t.failed then Err(OperationError) else Ok(None))))
    case _ => None
  }

  /** The step of task `id` under choice `c`, or `None` when that choice is not open to it. */
  function LocalStep(cfg: Config, id: nat, t: Task, c: Choice, v: View): Option<Effect> {
    match t
    case Reading(_, _, _, _) => ReadStep(cfg, t, c, v)
    case Answered(_, _, _, _) => if c.Go? then Some(AnswerStep(cfg, t, v.clock)) else None
    case Checking(_, _, _) => if c.Go? then Some(CheckStep(t, v)) else None
    case Waiting(call, name, fallback) =>
      if c.Go? then Some(Local(Reading(call, name, ForRetry(fallback), 0))) else None
    case Marking(call, name, loader, saw) =>
      if c.Go? then
        Some(Effect(Loading(call, name, loader), None, KeepStore, SetMarker, [Marked(id, call, name, v.marked, saw)]))
      else None
    case Loading(_, _, _) => if c.Origin? then Some(LoadStep(cfg, t, c.result, v.clock)) else None
    case Unmarking(call, name, loader, loaded) =>
      if c.Go? then
        Some(Effect(
          if loader.Foreground? then Finishing(call, name, loader.fallback, Ok(loaded))
          else Done(call, name, Spawned, Ok(None)),
          None, KeepStore, ClearMarker, []))
      else None
    case Finishing(_, _, _, _) => if c.Go? then Some(FinishStep(cfg, t, v.clock)) else None
    case Writing(_, _, _, _, _, _) => WriteStep(cfg, t, c)
    case Filling(_, _, _, _, _) => FillStep(cfg, t, c)
    case Removing(_, _, _, _) => RemoveStep(cfg, t, c)
    case Done(_, _, _, _) => None
  }

  // ---------------------------------------------------------------- the whole system

  type Store = map<string, StoredEntry>

  datatype Sys = Sys(clock: int, tiers: seq<Store>, marked: set<string>, tasks: seq<Task>, log: seq<Event>)

  function Init(cfg: Config, now: int): Sys {
    Sys(now, seq(|cfg.modes|, _ => map[]), {}, [], [])
  }

  function ViewOf(s: Sys, t: Task): View {
    var ck := t.name.Ck();
    var cell := if t.Reading? && t.tier < |s.tiers| && ck in s.tiers[t.tier] then Some(s.tiers[t.tier][ck]) else None;
    View(s.clock, ck in s.marked, cell, |s.log|)
  }

  function ApplyStore(tiers: seq<Store>, ck: string, op: StoreOp): seq<Store> {
    match op
    case Put(i, stored) => if i < |tiers| then tiers[i := tiers[i][ck := stored]] else tiers
    case Delete(i) => if i < |tiers| then tiers[i := tiers[i] - {ck}] else tiers
    case KeepStore => tiers
  }

  function ApplyMarker(marked: set<string>, ck: string, op: MarkerOp): set<string> {
    match op
    case SetMarker => marked + {ck}
    case ClearMarker => marked - {ck}
    case KeepMarker => marked
  }

  function Spawn(tasks: seq<Task>, spawned: Option<Task>): seq<Task> {
    match spawned
    case Some(t) => tasks + [t]
    case None => tasks
  }

  function Perform(s: Sys, id: nat, e: Effect): Sys
    requires id < |s.tasks|
  {
    var ck := s.tasks[id].name.Ck();
    Sys(s.clock, ApplyStore(s.tiers, ck, e.store), ApplyMarker(s.marked, ck, e.marker),
        Spawn(s.tasks[id := e.next], e.spawn), s.log + e.events)
  }

  datatype Timing = Timing(freshMs: int, staleMs: int)

  datatype Request =
    | GetRequest(name: Name)
    | SwrRequest(name: Name)
    | SetRequest(name: Name, value: Value, opts: Option<Timing>)
    | RemoveRequest(name: Name)

  /** The first task of a call and what it logs; `call` is the index the task will have. */
  function Arrive(cfg: Config, call: nat, req: Request, now: int): (Task, seq<Event>) {
    match req
    case GetRequest(name) => (Reading(call, name, ForGet, 0), [])
    case SwrRequest(name) => (Reading(call, name, ForSwr, 0), [])
    case RemoveRequest(name) => (Removing(call, name, AllTiers(|cfg.modes|), false), [Cleared(name)])
    case SetRequest(name, value, opts) =>
      var timing := if opts.Some? then opts.value else Timing(cfg.freshMs, cfg.staleMs);
      var entry := Entry(value, now + timing.freshMs, now + timing.staleMs);
      match BuildStored(cfg.codec, entry, cfg.StoreMode())
      case Ok(stored) =>
        (Writing(call, name, BySet, stored, AllTiers(|cfg.modes|), false),
         [Given(call, name, value, now), Stamped(call, name, entry, now, timing.freshMs, timing.staleMs, opts.Some?)])
      case Err(e) => (Done(call, name, SetCall, Err(e)), [])
  }

  datatype Action = Step(id: nat, choice: Choice) | Call(req: Request) | Tick(to: int) | Lose(tier: nat, ck: string)

  function Next(cfg: Config, s: Sys, a: Action): Option<Sys> {
    match a
    case Step(id, c) =>
      if id >= |s.tasks| then None else
      (match LocalStep(cfg, id, s.tasks[id], c, ViewOf(s, s.tasks[id]))
       case Some(e) => Some(Perform(s, id, e))
       case None => None)
    case Call(req) =>
      var (task, events) := Arrive(cfg, |s.tasks|, req, s.clock);
      Some(s.(tasks := s.tasks + [task], log := s.log + events))
    case Tick(to) => if s.clock <= to then Some(s.(clock := to)) else None
    case Lose(i, ck) => if i < |s.tiers| then Some(s.(tiers := s.tiers[i := s.tiers[i] - {ck}])) else None
  }

  /** The state after a sequence of actions, each of which must be possible where it is taken. */
  function Run(cfg: Config, s: Sys, actions: seq<Action>): Option<Sys>
    decreases |actions|
  {
    if actions == [] then Some(s) else
    match Next(cfg, s, actions[0])
    case Some(s') => Run(cfg, s', actions[1..])
    case None => None
  }
}
