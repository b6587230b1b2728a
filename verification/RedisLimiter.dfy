/** The shared Redis limiter of gateway/rate_limit.py: a check-then-increment script on
    a key named after the epoch, called by any number of replicas. */
module RedisLimiter {
  import opened Prelude
  import opened Grants
  import Decimal
  import FirstFit

  // ------------------------------------------------------------------- keys

  datatype Budget = Requests | InputTokens

  function BudgetText(b: Budget): string
  {
    match b case Requests => "requests" case InputTokens => "input_tokens"
  }

  /** What one Redis counter stands for. */
  datatype Id = Id(model: string, budget: Budget, caller: string, epoch: int)

  /** What all replicas share. `callers` are the principals in use; `goneAtDeadline`
      says whether a key is already gone at the very instant its time to live ends. */
  datatype Config = Config(
    prefix: string, windowSeconds: int, hash: string -> string, callers: set<string>,
    limits: (string, Budget) -> int, goneAtDeadline: bool)
  {
    function W(): real { windowSeconds as real }

    function LimitFor(id: Id): int { limits(id.model, id.budget) }

    /** The window is positive, and the hashes of the callers in use are distinct and free of colons. */
    ghost predicate Sound()
    {
      && windowSeconds >= 1
      && (forall a <- callers :: ':' !in hash(a))
      && (forall a <- callers, b <- callers :: hash(a) == hash(b) ==> a == b)
    }
  }

  function KeyText(c: Config, id: Id): string
  {
    c.prefix + ":" + id.model + ":" + BudgetText(id.budget) + ":" + c.hash(id.caller) + ":" + Decimal.Signed(id.epoch)
  }

  /** The last colon splits a text in one way only. */
  lemma LastColon(a: string, b: string, x: string, y: string)
    requires a + ":" + b == x + ":" + y && ':' !in b && ':' !in y
    ensures a == x && b == y
  {
    var text := a + ":" + b;
    assert text[|a|] == ':' && text[|x|] == ':';
    assert forall k :: |a| < k < |text| ==> text[k] == b[k - |a| - 1];
    assert forall k :: |x| < k < |text| ==> text[k] == y[k - |x| - 1];
    assert |a| == |x|;
    assert a == text[..|a|] && b == text[|a| + 1..];
  }

  /** Distinct counters have distinct keys, whatever the model is called. */
  lemma KeyTextInjective(c: Config, i: Id, j: Id)
    requires c.Sound() && i.caller in c.callers && j.caller in c.callers
    requires KeyText(c, i) == KeyText(c, j)
    ensures i == j
  {
    Decimal.SignedHasNo(i.epoch, ':');
    Decimal.SignedHasNo(j.epoch, ':');
    var i1, j1 := c.prefix + ":" + i.model, c.prefix + ":" + j.model;
    var i2, j2 := i1 + ":" + BudgetText(i.budget), j1 + ":" + BudgetText(j.budget);
    var i3, j3 := i2 + ":" + c.hash(i.caller), j2 + ":" + c.hash(j.caller);
    LastColon(i3, Decimal.Signed(i.epoch), j3, Decimal.Signed(j.epoch));
    LastColon(i2, c.hash(i.caller), j2, c.hash(j.caller));
    LastColon(i1, BudgetText(i.budget), j1, BudgetText(j.budget));
    Decimal.SignedInjective(i.epoch, j.epoch);
    assert i.model == i1[|c.prefix| + 1..] && j.model == j1[|c.prefix| + 1..];
  }

  // ------------------------------------------------------------- the server

  datatype Entry = Entry(count: int, expiry: Option<real>)

  type Store = map<string, Entry>

  predicate Gone(goneAtDeadline: bool, e: Entry, now: real)
  {
    e.expiry.Some? && (e.expiry.value < now || (goneAtDeadline && e.expiry.value == now))
  }

  function Current(goneAtDeadline: bool, store: Store, key: string, now: real): int
  {
    if key in store && !Gone(goneAtDeadline, store[key], now) then store[key].count else 0
  }

  datatype Reply = Reply(granted: bool, current: int, armed: bool)

  /** What the script does to the store: nothing when the cost does not fit; otherwise
      it adds the cost, and a counter that held nothing starts to live for ttl. */
  function Script(goneAtDeadline: bool, store: Store, key: string, now: real, cost: int, ttl: real, limit: int): (Store, Reply)
  {
    var current := Current(goneAtDeadline, store, key, now);
    if current + cost > limit then (store, Reply(false, current, false))
    else if current == 0 then (store[key := Entry(cost, Some(now + ttl))], Reply(true, cost, true))
    else (store[key := Entry(current + cost, store[key].expiry)], Reply(true, current + cost, false))
  }

  /** The count in a reply is what the key holds from then on. */
  lemma ReplyIsCount(gone: bool, store: Store, key: string, now: real, cost: int, ttl: real, limit: int)
    requires ttl > 0.0
    ensures var (store', reply) := Script(gone, store, key, now, cost, ttl, limit);
            && reply.current == Current(gone, store', key, now) == Current(gone, store, key, now) + (if reply.granted then cost else 0)
            && (!reply.granted ==> store' == store)
  {
  }

  class RedisServer {
    const goneAtDeadline: bool
    var store: Store

    constructor (goneAtDeadline: bool)
      ensures store == map[] && this.goneAtDeadline == goneAtDeadline
    {
      this.goneAtDeadline := goneAtDeadline;
      this.store := map[];
    }

    /** GET, with an absent or expired key read as zero. */
    method Get(key: string, now: real) returns (value: int)
      ensures value == Current(goneAtDeadline, store, key, now)
    {
      if key in store && !Gone(goneAtDeadline, store[key], now) {
        return store[key].count;
      }
      return 0;
    }

    /** INCRBY keeps the time to live of a live key; a new key has none. */
    method IncrBy(key: string, now: real, amount: int) returns (value: int)
      modifies this
      ensures value == Current(goneAtDeadline, old(store), key, now) + amount
      ensures store == old(store)[key :=
                Entry(value, if key in old(store) && !Gone(goneAtDeadline, old(store)[key], now) then old(store)[key].expiry else None)]
    {
      if key in store && !Gone(goneAtDeadline, store[key], now) {
        value := store[key].count + amount;
        store := store[key := Entry(value, store[key].expiry)];
      } else {
        value := amount;
        store := store[key := Entry(value, None)];
      }
    }

    method PExpire(key: string, now: real, ttl: real)
      requires key in store
      modifies this
      ensures store == old(store)[key := Entry(old(store)[key].count, Some(now + ttl))]
    {
      store := store[key := Entry(store[key].count, Some(now + ttl))];
    }

    /** The script, run atomically. */
    method Eval(key: string, now: real, cost: int, ttl: real, limit: int) returns (r: Reply)
      modifies this
      ensures (store, r) == Script(goneAtDeadline, old(store), key, now, cost, ttl, limit)
    {
      var current := Get(key, now);
      if current + cost > limit {
        return Reply(false, current, false);
      }
      current := IncrBy(key, now, cost);
      if current == cost {
        PExpire(key, now, ttl);
        assert store == old(store)[key := Entry(cost, Some(now + ttl))];
        return Reply(true, current, true);
      }
      return Reply(true, current, false);
    }
  }

  // ------------------------------------------------- replicas and their steps

  datatype Request = Request(caller: string, model: string, budget: Budget, cost: int)

  datatype Pending = Pending(id: Id, cost: int)

  datatype Event = Event(id: Id, time: real, cost: int, granted: bool, armed: bool, born: real)

  datatype Sys = Sys(clock: real, store: Store, pending: map<nat, Pending>, events: seq<Event>)

  /** The shared clock moves on; a process reads it and names its key; a process runs
      the script for the key it named. */
  datatype Step = Tick(to: real) | Read(process: nat, request: Request) | Eval(process: nat)

  function Epoch(c: Config, now: real): int
    requires c.windowSeconds >= 1
  {
    Windows(now, c.W())
  }

  /** One step; a step that is not enabled, or a call the limiter rejects as invalid, changes nothing. */
  function Next(c: Config, s: Sys, step: Step): Sys
    requires c.windowSeconds >= 1
  {
    match step
    case Tick(to) => if to < s.clock then s else s.(clock := to)
    case Read(p, r) =>
      if p in s.pending || r.caller !in c.callers || r.cost < 1 || c.limits(r.model, r.budget) < 1 then s
      else s.(pending := s.pending[p := Pending(Id(r.model, r.budget, r.caller, Epoch(c, s.clock)), r.cost)])
    case Eval(p) => if p !in s.pending then s else RunScript(c, s, p)
  }

  function RunScript(c: Config, s: Sys, p: nat): Sys
    requires p in s.pending
  {
    var Pending(id, cost) := s.pending[p];
    var key := KeyText(c, id);
    var (store, reply) := Script(c.goneAtDeadline, s.store, key, s.clock, cost, c.W(), c.LimitFor(id));
    var born := if reply.granted && store[key].expiry.Some? then store[key].expiry.value - c.W() else s.clock;
    Sys(s.clock, store, s.pending - {p}, s.events + [Event(id, s.clock, cost, reply.granted, reply.armed, born)])
  }

  /** The system after some steps from an empty Redis at time t0. */
  function Run(c: Config, t0: real, steps: seq<Step>): Sys
    requires c.windowSeconds >= 1
  {
    if steps == [] then Sys(t0, map[], map[], [])
    else Next(c, Run(c, t0, steps[..|steps| - 1]), steps[|steps| - 1])
  }

  /** Every script of an id has run before the epoch its key names has ended. */
  predicate Punctual(c: Config, events: seq<Event>, id: Id)
    requires c.windowSeconds >= 1
  {
    forall e <- events :: e.id == id ==> Epoch(c, e.time) == id.epoch
  }

  // ------------------------------------------------ what the events say of one id

  function CostsOf(events: seq<Event>, id: Id): seq<int>
  {
    if events == [] then []
    else
      var e := events[|events| - 1];
      CostsOf(events[..|events| - 1], id) + (if e.id == id then [e.cost] else [])
  }

  function OksOf(events: seq<Event>, id: Id): (oks: seq<bool>)
    ensures |oks| == |CostsOf(events, id)|
  {
    if events == [] then []
    else
      var e := events[|events| - 1];
      OksOf(events[..|events| - 1], id) + (if e.id == id then [e.granted] else [])
  }

  /** How often the time to live of an id's key was set. */
  function ArmedOf(events: seq<Event>, id: Id): nat
  {
    if events == [] then 0
    else
      var e := events[|events| - 1];
      ArmedOf(events[..|events| - 1], id) + (if e.id == id && e.armed then 1 else 0)
  }

  function SpentBy(c: Config, s: Sys, id: Id): int
  {
    FirstFit.Spent(c.LimitFor(id), 0, CostsOf(s.events, id))
  }

  lemma EventsSnoc(events: seq<Event>, e: Event, id: Id)
    ensures CostsOf(events + [e], id) == CostsOf(events, id) + (if e.id == id then [e.cost] else [])
    ensures OksOf(events + [e], id) == OksOf(events, id) + (if e.id == id then [e.granted] else [])
    ensures ArmedOf(events + [e], id) == ArmedOf(events, id) + (if e.id == id && e.armed then 1 else 0)
  {
    assert (events + [e])[..|events + [e]| - 1] == events;
  }

  // -------------------------------------------------------- punctual runs

  predicate ValidId(c: Config, id: Id)
  {
    id.caller in c.callers && c.LimitFor(id) >= 1
  }

  ghost predicate Shape(c: Config, s: Sys)
    requires c.windowSeconds >= 1
  {
    && (forall p <- s.pending :: var q := s.pending[p]; ValidId(c, q.id) && q.cost >= 1 && q.id.epoch <= Epoch(c, s.clock))
    && (forall e <- s.events :: ValidId(c, e.id) && e.cost >= 1 && e.id.epoch <= Epoch(c, s.clock))
  }

  /** The answers of an id so far are those of first come, first served, its key was
      armed once if anything was granted, and until its epoch is over the key holds
      what was granted and outlives the epoch. */
  ghost predicate Tracked(c: Config, s: Sys, id: Id)
    requires c.windowSeconds >= 1
  {
    var spent := SpentBy(c, s, id);
    var key := KeyText(c, id);
    && OksOf(s.events, id) == FirstFit.Verdicts(c.LimitFor(id), 0, CostsOf(s.events, id))
    && ArmedOf(s.events, id) == (if spent > 0 then 1 else 0)
    && (Epoch(c, s.clock) <= id.epoch ==> Holds(s.store, key, spent, EpochEnd(c, id)))
  }

  function EpochEnd(c: Config, id: Id): real
  {
    Boundary(id.epoch, c.W()) + c.W()
  }

  /** A script run for another id leaves this id's account alone. */
  lemma OtherIdUntouched(c: Config, s: Sys, p: nat, id: Id)
    requires c.Sound() && p in s.pending && ValidId(c, id) && ValidId(c, s.pending[p].id)
    requires id != s.pending[p].id && Tracked(c, s, id)
    ensures Tracked(c, RunScript(c, s, p), id)
  {
    if KeyText(c, id) == KeyText(c, s.pending[p].id) {
      KeyTextInjective(c, id, s.pending[p].id);
    }
    var s' := RunScript(c, s, p);
    EventsSnoc(s.events, s'.events[|s.events|], id);
    assert CostsOf(s'.events, id) == CostsOf(s.events, id);
    assert OksOf(s'.events, id) == OksOf(s.events, id);
  }

  /** The key holds what was spent and lives to the deadline, or nothing was spent. */
  predicate Holds(store: Store, key: string, spent: int, deadline: real)
  {
    if key in store then
      store[key].count == spent >= 1 && store[key].expiry.Some? && deadline <= store[key].expiry.value
    else spent == 0
  }

  /** Before the deadline the script decides on what was spent, and arms the key exactly at the first grant. */
  lemma ScriptBeforeDeadline(gone: bool, store: Store, key: string, now: real, cost: int, ttl: real, limit: int, spent: int, deadline: real)
    requires Holds(store, key, spent, deadline) && now < deadline <= now + ttl && cost >= 1
    ensures var (store', reply) := Script(gone, store, key, now, cost, ttl, limit);
            && reply.granted == (spent + cost <= limit)
            && reply.armed == (reply.granted && spent == 0)
            && Holds(store', key, if reply.granted then spent + cost else spent, deadline)
  {
  }

  /** A script run inside its epoch keeps the account of its id. */
  lemma OwnIdTracked(c: Config, s: Sys, p: nat)
    requires c.Sound() && p in s.pending && Shape(c, s)
    requires s.pending[p].id.epoch == Epoch(c, s.clock)
    requires Tracked(c, s, s.pending[p].id)
    ensures Tracked(c, RunScript(c, s, p), s.pending[p].id)
  {
    var Pending(id, cost) := s.pending[p];
    var limit, costs, spent := c.LimitFor(id), CostsOf(s.events, id), SpentBy(c, s, id);
    var s' := RunScript(c, s, p);
    var deadline := EpochEnd(c, id);
    WindowsBracket(s.clock, c.W());
    ScriptBeforeDeadline(c.goneAtDeadline, s.store, KeyText(c, id), s.clock, cost, c.W(), limit, spent, deadline);
    EventsSnoc(s.events, s'.events[|s.events|], id);
    FirstFit.Snoc(limit, 0, costs, cost);
  }

  lemma StepShape(c: Config, s: Sys, step: Step)
    requires c.Sound() && Shape(c, s)
    ensures Shape(c, Next(c, s, step))
  {
    if step.Tick? && s.clock <= step.to {
      WindowsMonotone(s.clock, step.to, c.W());
    }
  }

  lemma StepTrackedAt(c: Config, s: Sys, step: Step, id: Id)
    requires c.Sound() && Shape(c, s) && ValidId(c, id) && Tracked(c, s, id)
    requires Punctual(c, Next(c, s, step).events, id)
    ensures Tracked(c, Next(c, s, step), id)
  {
    match step
    case Tick(to) =>
      if s.clock <= to {
        WindowsMonotone(s.clock, to, c.W());
      }
    case Read(_, _) =>
    case Eval(p) =>
      if p in s.pending {
        if id == s.pending[p].id {
          var s' := RunScript(c, s, p);
          assert s'.events[|s.events|] in s'.events;
          OwnIdTracked(c, s, p);
        } else {
          OtherIdUntouched(c, s, p, id);
        }
      }
  }

  lemma {:induction false} RunShape(c: Config, t0: real, steps: seq<Step>)
    requires c.Sound()
    ensures Shape(c, Run(c, t0, steps))
  {
    if steps != [] {
      var front := steps[..|steps| - 1];
      RunShape(c, t0, front);
      StepShape(c, Run(c, t0, front), steps[|steps| - 1]);
    }
  }

  lemma EventsStay(c: Config, s: Sys, step: Step)
    requires c.windowSeconds >= 1
    ensures forall e <- s.events :: e in Next(c, s, step).events
  {
  }

  /** While the scripts of an id are punctual its account holds, whatever other ids do. */
  lemma {:induction false} PunctualTracked(c: Config, t0: real, steps: seq<Step>, id: Id)
    requires c.Sound() && ValidId(c, id) && Punctual(c, Run(c, t0, steps).events, id)
    ensures Tracked(c, Run(c, t0, steps), id)
  {
    if steps != [] {
      hide Tracked;
      hide Shape;
      hide Next;
      var front, step := steps[..|steps| - 1], steps[|steps| - 1];
      EventsStay(c, Run(c, t0, front), step);
      RunShape(c, t0, front);
      PunctualTracked(c, t0, front, id);
      StepTrackedAt(c, Run(c, t0, front), step, id);
    }
  }
}
