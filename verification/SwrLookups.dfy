/** What a read asks, tier by tier, from the call to its answer. */
module SwrLookups {
  import opened Wrappers
  import opened Entries
  import opened SwrProtocol
  import opened SwrRuns

  // ---------------------------------------------------------------- when every tier answers by what it holds

  /** The first tier from `from` on that holds `ck`; the number of tiers if none does. */
  function FirstHolder(tiers: seq<Store>, ck: string, from: nat): (i: nat)
    requires from <= |tiers|
    ensures from <= i <= |tiers| && (i < |tiers| ==> ck in tiers[i])
    ensures forall j :: from <= j < i ==> ck !in tiers[j]
    decreases |tiers| - from
  {
    if from == |tiers| || ck in tiers[from] then from else FirstHolder(tiers, ck, from + 1)
  }

  function Misses(id: nat, k: nat): seq<Action> {
    seq(k, _ => Step(id, Miss))
  }

  /** The answers of the tiers to task `id` when `i` of `n` is the first to hold the key. */
  function Answers(id: nat, i: nat, n: nat): seq<Action> {
    Misses(id, i) + [if i < n then Step(id, Hit) else Step(id, Go)]
  }

  lemma {:induction false} MissRun(cfg: Config, s: Sys, id: nat, k: nat)
    requires id < |s.tasks| && s.tasks[id].Reading? && s.tasks[id].tier + k <= |cfg.modes|
    ensures var t := s.tasks[id];
      Run(cfg, s, Misses(id, k)) == Some(s.(tasks := s.tasks[id := Reading(t.call, t.name, t.purpose, t.tier + k)]))
    decreases k
  {
    var t := s.tasks[id];
    if k == 0 {
      assert s.tasks[id := t] == s.tasks;
    } else {
      var s1 := Next(cfg, s, Step(id, Miss)).value;
      assert s.log + [] == s.log;
      assert s1 == s.(tasks := s.tasks[id := Reading(t.call, t.name, t.purpose, t.tier + 1)]);
      assert Misses(id, k)[1..] == Misses(id, k - 1);
      MissRun(cfg, s1, id, k - 1);
      var last := Reading(t.call, t.name, t.purpose, t.tier + k);
      assert s1.tasks[id := last] == s.tasks[id := last];
    }
  }

  /** What the stack holds first under `ck`. */
  function Held(tiers: seq<Store>, ck: string): Option<StoredEntry> {
    var i := FirstHolder(tiers, ck, 0);
    if i < |tiers| then Some(tiers[i][ck]) else None
  }

  /** The backfill that a hit in tier `i` starts. */
  function Backfills(t: Task, held: Option<StoredEntry>, i: nat): seq<Task> {
    if held.Some? && i > 0 then [Filling(t.call, t.name, held.value, 0, i)] else []
  }

  /** A read that asks the tiers in order gets the first cell there is, and starts a backfill of the tiers before it. */
  lemma ReadAnswers(cfg: Config, s: Sys, id: nat) returns (s': Sys)
    requires id < |s.tasks| && s.tasks[id].Reading? && s.tasks[id].tier == 0 && |s.tiers| == |cfg.modes|
    ensures var t, i := s.tasks[id], FirstHolder(s.tiers, s.tasks[id].name.Ck(), 0);
      var held := Held(s.tiers, t.name.Ck());
      && Run(cfg, s, Answers(id, i, |cfg.modes|)) == Some(s')
      && s' == s.(tasks := s.tasks[id := Answered(t.call, t.name, t.purpose, Ok(held))] + Backfills(t, held, i))
  {
    var t, n := s.tasks[id], |cfg.modes|;
    var i, held := FirstHolder(s.tiers, t.name.Ck(), 0), Held(s.tiers, t.name.Ck());
    MissRun(cfg, s, id, i);
    var s1 := Run(cfg, s, Misses(id, i)).value;
    var last := if i < n then Step(id, Hit) else Step(id, Go);
    s' := Next(cfg, s1, last).value;
    RunOne(cfg, s1, last);
    RunConcat(cfg, s, Misses(id, i), [last]);
    assert s.log + [] == s.log;
    var answered := Answered(t.call, t.name, t.purpose, Ok(held));
    assert s1.tasks[id := answered] == s.tasks[id := answered];
  }

  // ---------------------------------------------------------------- `get`

  /** What `get` makes of what was read. */
  function GetReply(codec: Codec, reply: Reply): Result<Option<Value>, CacheError> {
    match reply
    case Err(e) => Err(e)
    case Ok(None) => Ok(None)
    case Ok(Some(stored)) =>
      match IntoTyped(codec, stored)
      case Ok(entry) => Ok(Some(entry.value))
      case Err(e) => Err(e)
  }

  lemma GetFinishes(cfg: Config, s: Sys, id: nat) returns (s': Sys)
    requires id < |s.tasks| && s.tasks[id].Answered? && s.tasks[id].purpose.ForGet?
    ensures Run(cfg, s, [Step(id, Go)]) == Some(s')
    ensures var t := s.tasks[id];
      s' == s.(tasks := s.tasks[id := Done(t.call, t.name, GetCall, GetReply(cfg.codec, t.reply))])
  {
    RunOne(cfg, s, Step(id, Go));
    s' := Next(cfg, s, Step(id, Go)).value;
    assert s.log + [] == s.log;
  }

  /** The call of `get`, the answers of the tiers by what they hold, and the return. */
  function GetSchedule(s: Sys, n: nat, name: Name): seq<Action> {
    var id := |s.tasks|;
    [Call(GetRequest(name))] + (Answers(id, FirstHolder(s.tiers, name.Ck(), 0), n) + [Step(id, Go)])
  }

  /** From any state, when every tier answers by what it holds, `get` returns what the first holder's cell decodes to,
      that cell is on its way to the tiers before it, and nothing else is different; and `get` returns
      nothing if and only if no tier holds the key. */
  lemma GetReturnsFirst(cfg: Config, s: Sys, name: Name) returns (s': Sys)
    requires |s.tiers| == |cfg.modes|
    ensures Run(cfg, s, GetSchedule(s, |cfg.modes|, name)) == Some(s')
    ensures var id, i, held := |s.tasks|, FirstHolder(s.tiers, name.Ck(), 0), Held(s.tiers, name.Ck());
      var done := Done(id, name, GetCall, GetReply(cfg.codec, Ok(held)));
      s' == s.(tasks := s.tasks + [done] + Backfills(done, held, i))
    ensures s'.tasks[|s.tasks|].ret == Ok(None) <==> forall j :: 0 <= j < |s.tiers| ==> name.Ck() !in s.tiers[j]
  {
    var id, call := |s.tasks|, Call(GetRequest(name));
    var i, held := FirstHolder(s.tiers, name.Ck(), 0), Held(s.tiers, name.Ck());
    var s1 := Next(cfg, s, call).value;
    assert s.log + [] == s.log;
    assert s1 == s.(tasks := s.tasks + [Reading(id, name, ForGet, 0)]);
    var s2 := ReadAnswers(cfg, s1, id);
    s' := GetFinishes(cfg, s2, id);
    RunConcat(cfg, s1, Answers(id, i, |cfg.modes|), [Step(id, Go)]);
    RunOne(cfg, s, call);
    RunConcat(cfg, s, [call], Answers(id, i, |cfg.modes|) + [Step(id, Go)]);
    var done := Done(id, name, GetCall, GetReply(cfg.codec, Ok(held)));
    assert s'.tasks == s.tasks + [done] + Backfills(done, held, i);
  }

  /** A tier that fails before any tier has hit ends the read with its error. */
  lemma GetFailsAt(cfg: Config, s: Sys, name: Name, k: nat) returns (s': Sys)
    requires |s.tiers| == |cfg.modes| && k < |cfg.modes| && k <= FirstHolder(s.tiers, name.Ck(), 0)
    ensures var id := |s.tasks|;
      && Run(cfg, s, [Call(GetRequest(name))] + (Misses(id, k) + [Step(id, Fail), Step(id, Go)])) == Some(s')
      && s' == s.(tasks := s.tasks + [Done(id, name, GetCall, Err(OperationError))])
  {
    var id, call := |s.tasks|, Call(GetRequest(name));
    var s1 := Next(cfg, s, call).value;
    assert s.log + [] == s.log;
    MissRun(cfg, s1, id, k);
    var s2 := Run(cfg, s1, Misses(id, k)).value;
    var s3 := Next(cfg, s2, Step(id, Fail)).value;
    s' := GetFinishes(cfg, s3, id);
    RunOne(cfg, s2, Step(id, Fail));
    RunConcat(cfg, s2, [Step(id, Fail)], [Step(id, Go)]);
    assert [Step(id, Fail)] + [Step(id, Go)] == [Step(id, Fail), Step(id, Go)];
    RunConcat(cfg, s1, Misses(id, k), [Step(id, Fail), Step(id, Go)]);
    RunOne(cfg, s, call);
    RunConcat(cfg, s, [call], Misses(id, k) + [Step(id, Fail), Step(id, Go)]);
  }

  // ---------------------------------------------------------------- whatever the schedule

  /** In state `s`, action `a` is the answer of tier `k` to task `id`. */
  predicate Asks(s: Sys, a: Action, id: nat, k: nat, answer: Choice) {
    a == Step(id, answer) && id < |s.tasks| && s.tasks[id].Reading? && s.tasks[id].tier == k
  }

  /** Tier `k` answers the read of task `id` with `stored`, which it holds at that moment. */
  predicate Hits(s: Sys, a: Action, id: nat, k: nat, stored: StoredEntry) {
    && Asks(s, a, id, k, Hit) && k < |s.tiers|
    && s.tasks[id].name.Ck() in s.tiers[k] && s.tiers[k][s.tasks[id].name.Ck()] == stored
  }

  ghost predicate MissedAt(cfg: Config, s: Sys, actions: seq<Action>, id: nat, k: nat) {
    Sometime(cfg, s, actions, (s, a) => Asks(s, a, id, k, Miss))
  }

  ghost predicate HitAt(cfg: Config, s: Sys, actions: seq<Action>, id: nat, k: nat, stored: StoredEntry) {
    Sometime(cfg, s, actions, (s, a) => Hits(s, a, id, k, stored))
  }

  ghost predicate FailedAt(cfg: Config, s: Sys, actions: seq<Action>, id: nat, k: nat) {
    Sometime(cfg, s, actions, (s, a) => Asks(s, a, id, k, Fail))
  }

  ghost predicate MissedFrom(cfg: Config, s: Sys, actions: seq<Action>, id: nat, from: nat, to: nat) {
    forall k :: from <= k < to ==> MissedAt(cfg, s, actions, id, k)
  }

  /** In the run, the read of task `id`, which had come to tier `from`, was answered with `reply`: tiers were asked
      in order, each missing, up to the one that hit or failed, or through the last. */
  ghost predicate AnsweredBy(cfg: Config, s: Sys, actions: seq<Action>, id: nat, from: nat, reply: Reply) {
    match reply
    case Ok(None) => MissedFrom(cfg, s, actions, id, from, |cfg.modes|)
    case Ok(Some(stored)) => exists k: nat ::
      from <= k < |cfg.modes| && HitAt(cfg, s, actions, id, k, stored) && MissedFrom(cfg, s, actions, id, from, k)
    case Err(e) => e == OperationError && exists k: nat ::
      from <= k < |cfg.modes| && FailedAt(cfg, s, actions, id, k) && MissedFrom(cfg, s, actions, id, from, k)
  }

  lemma LaterMisses(cfg: Config, s: Sys, actions: seq<Action>, id: nat, from: nat, next: nat, to: nat)
    requires actions != [] && Next(cfg, s, actions[0]).Some?
    requires MissedFrom(cfg, Next(cfg, s, actions[0]).value, actions[1..], id, next, to)
    requires next == from || (next == from + 1 && Asks(s, actions[0], id, from, Miss))
    ensures MissedFrom(cfg, s, actions, id, from, to)
  {
    forall k | from <= k < to ensures MissedAt(cfg, s, actions, id, k) {
      if k >= next {
        assert MissedAt(cfg, Next(cfg, s, actions[0]).value, actions[1..], id, k);
      }
    }
  }

  lemma LaterAnswers(cfg: Config, s: Sys, actions: seq<Action>, id: nat, from: nat, next: nat, reply: Reply)
    requires actions != [] && Next(cfg, s, actions[0]).Some?
    requires AnsweredBy(cfg, Next(cfg, s, actions[0]).value, actions[1..], id, next, reply)
    requires next == from || (next == from + 1 && Asks(s, actions[0], id, from, Miss))
    ensures AnsweredBy(cfg, s, actions, id, from, reply)
  {
    var s', rest := Next(cfg, s, actions[0]).value, actions[1..];
    match reply
    case Ok(None) => LaterMisses(cfg, s, actions, id, from, next, |cfg.modes|);
    case Ok(Some(stored)) =>
      var k: nat :| next <= k < |cfg.modes| && HitAt(cfg, s', rest, id, k, stored)
        && MissedFrom(cfg, s', rest, id, next, k);
      LaterMisses(cfg, s, actions, id, from, next, k);
      assert HitAt(cfg, s, actions, id, k, stored);
    case Err(_) =>
      var k: nat :| next <= k < |cfg.modes| && FailedAt(cfg, s', rest, id, k) && MissedFrom(cfg, s', rest, id, next, k);
      LaterMisses(cfg, s, actions, id, from, next, k);
      assert FailedAt(cfg, s, actions, id, k);
  }

  /** After `k` actions of the run task `id` is `t`, and the next action is its own. */
  ghost predicate TakesUp(cfg: Config, s: Sys, actions: seq<Action>, k: nat, id: nat, t: Task) {
    && k < |actions| && actions[k] == Step(id, Go) && Run(cfg, s, actions[..k]).Some?
    && id < |Run(cfg, s, actions[..k]).value.tasks| && Run(cfg, s, actions[..k]).value.tasks[id] == t
  }

  lemma TakesUpLater(cfg: Config, s: Sys, actions: seq<Action>, k: nat, id: nat, t: Task)
    requires actions != [] && Next(cfg, s, actions[0]).Some?
    requires TakesUp(cfg, Next(cfg, s, actions[0]).value, actions[1..], k, id, t)
    ensures TakesUp(cfg, s, actions, k + 1, id, t)
  {
    assert actions[..k + 1][1..] == actions[1..][..k];
  }

  lemma {:induction false} AnswerTakenUp(cfg: Config, s: Sys, actions: seq<Action>, id: nat) returns (k: nat)
    requires id < |s.tasks| && s.tasks[id].Answered? && Run(cfg, s, actions).Some?
    requires id < |Run(cfg, s, actions).value.tasks| && !Run(cfg, s, actions).value.tasks[id].Answered?
    ensures TakesUp(cfg, s, actions, k, id, s.tasks[id])
    decreases |actions|
  {
    if actions[0].Step? && actions[0].id == id {
      k := 0;
      assert actions[..0] == [] && Run(cfg, s, []) == Some(s);
    } else {
      var s' := Next(cfg, s, actions[0]).value;
      OthersKeep(cfg, s, actions[0], id);
      k := AnswerTakenUp(cfg, s', actions[1..], id);
      TakesUpLater(cfg, s, actions, k, id, s.tasks[id]);
      k := k + 1;
    }
  }

  lemma MissOrOther(cfg: Config, s: Sys, a: Action, id: nat)
    requires |s.tiers| == |cfg.modes| && id < |s.tasks| && s.tasks[id].Reading? && Next(cfg, s, a).Some?
    requires !(a.Step? && a.id == id) || a.choice.Miss?
    ensures var t, s' := s.tasks[id], Next(cfg, s, a).value;
      && |s'.tiers| == |cfg.modes| && id < |s'.tasks|
      && s'.tasks[id] == Reading(t.call, t.name, t.purpose, if a.Step? && a.id == id then t.tier + 1 else t.tier)
  {
  }

  lemma AnswerComes(cfg: Config, s: Sys, actions: seq<Action>, id: nat)
    requires |s.tiers| == |cfg.modes| && id < |s.tasks| && s.tasks[id].Reading?
    requires actions != [] && Next(cfg, s, actions[0]).Some?
    requires actions[0].Step? && actions[0].id == id && !actions[0].choice.Miss?
    ensures var t, s' := s.tasks[id], Next(cfg, s, actions[0]).value;
      && id < |s'.tasks| && s'.tasks[id].Answered?
      && s'.tasks[id] == Answered(t.call, t.name, t.purpose, s'.tasks[id].reply)
      && AnsweredBy(cfg, s, actions, id, t.tier, s'.tasks[id].reply)
  {
    var t, a, s' := s.tasks[id], actions[0], Next(cfg, s, actions[0]).value;
    if a.choice.Hit? {
      assert Hits(s, a, id, t.tier, s'.tasks[id].reply.value.value);
      assert HitAt(cfg, s, actions, id, t.tier, s'.tasks[id].reply.value.value);
    } else if a.choice.Fail? {
      assert Asks(s, a, id, t.tier, Fail);
      assert FailedAt(cfg, s, actions, id, t.tier);
    }
  }

  /** A read that a run gets past was answered in order, and its answer taken up, for whatever purpose. */
  lemma {:induction false} ReadFollowed(cfg: Config, s: Sys, actions: seq<Action>, id: nat)
    returns (reply: Reply, k: nat)
    requires |s.tiers| == |cfg.modes| && id < |s.tasks| && s.tasks[id].Reading? && Run(cfg, s, actions).Some?
    requires id < |Run(cfg, s, actions).value.tasks|
    requires var last := Run(cfg, s, actions).value.tasks[id]; !last.Reading? && !last.Answered?
    ensures var t := s.tasks[id];
      && AnsweredBy(cfg, s, actions, id, t.tier, reply)
      && TakesUp(cfg, s, actions, k, id, Answered(t.call, t.name, t.purpose, reply))
    decreases |actions|
  {
    var t, a := s.tasks[id], actions[0];
    var s', rest := Next(cfg, s, a).value, actions[1..];
    if a.Step? && a.id == id && !a.choice.Miss? {
      AnswerComes(cfg, s, actions, id);
      reply := s'.tasks[id].reply;
      k := AnswerTakenUp(cfg, s', rest, id);
    } else {
      MissOrOther(cfg, s, a, id);
      reply, k := ReadFollowed(cfg, s', rest, id);
      LaterAnswers(cfg, s, actions, id, t.tier, s'.tasks[id].tier, reply);
    }
    TakesUpLater(cfg, s, actions, k, id, Answered(t.call, t.name, t.purpose, reply));
    k := k + 1;
  }

  /** What comes after an answer is taken up, from there on. */
  lemma RunFrom(cfg: Config, s: Sys, actions: seq<Action>, k: nat, id: nat, t: Task) returns (sk: Sys, next: Sys)
    requires Run(cfg, s, actions).Some? && TakesUp(cfg, s, actions, k, id, t)
    ensures Run(cfg, s, actions[..k]) == Some(sk) && id < |sk.tasks| && sk.tasks[id] == t
    ensures Next(cfg, sk, Step(id, Go)) == Some(next)
    ensures Run(cfg, next, actions[k + 1..]) == Run(cfg, s, actions)
  {
    sk := Run(cfg, s, actions[..k]).value;
    RunConcat(cfg, s, actions[..k], actions[k..]);
    assert actions[..k] + actions[k..] == actions;
    assert actions[k..][1..] == actions[k + 1..];
    next := Next(cfg, sk, Step(id, Go)).value;
  }

  /** In every run that finishes a `get`, from any state: it asked the tiers in order from the first. It returns nothing
      only if every tier missed; a value only if a tier hit, all before it having missed, with a cell it held then
      that decodes to that value; and an error only if a tier failed, or the cell that it hit did not decode. */
  lemma GetExplained(cfg: Config, s: Sys, name: Name, actions: seq<Action>) returns (reply: Reply)
    requires |s.tiers| == |cfg.modes| && Run(cfg, Next(cfg, s, Call(GetRequest(name))).value, actions).Some?
    requires var s' := Run(cfg, Next(cfg, s, Call(GetRequest(name))).value, actions).value;
      |s.tasks| < |s'.tasks| && s'.tasks[|s.tasks|].Done?
    ensures var id, s1 := |s.tasks|, Next(cfg, s, Call(GetRequest(name))).value;
      var done := Run(cfg, s1, actions).value.tasks[id];
      && done == Done(id, name, GetCall, GetReply(cfg.codec, reply)) && AnsweredBy(cfg, s1, actions, id, 0, reply)
      && (done.ret == Ok(None) ==> MissedFrom(cfg, s1, actions, id, 0, |cfg.modes|))
  {
    var id, s1 := |s.tasks|, Next(cfg, s, Call(GetRequest(name))).value;
    var k, sk, next;
    reply, k := ReadFollowed(cfg, s1, actions, id);
    sk, next := RunFrom(cfg, s1, actions, k, id, Answered(id, name, ForGet, reply));
    DoneStays(cfg, next, actions[k + 1..], id);
  }
}
