/** Requests with a timeout come to rest.  From every reachable state there is a continuation without any response in
    which registration goes on, time passes, the checker collects and runs the timeouts, and the callbacks end. */
module GatherRest {
  import opened Common
  import opened Gather

  // ---- What is known of timers ----

  /** The timer of slot i is in the list, or was. */
  ghost predicate WasListed(adding: Adding, i: nat) {
    i < adding.slot || (i == adding.slot && adding.Listed?)
  }

  ghost predicate Waits(slot: Slot, t: Token, list: seq<Item>, expired: seq<Item>) {
    slot.deadline.Some? && slot.life.Registered?
    && (Item(slot.life.id, t, slot.deadline.value) in list || Item(slot.life.id, t, slot.deadline.value) in expired)
  }

  /** A registered callback of a request with a timeout has its timer waiting. */
  ghost predicate TimedAt(slots: seq<seq<Slot>>, adders: seq<Adder>, list: seq<Item>, expired: seq<Item>, t: Token)
    requires ValidToken(slots, t) && |adders| == |slots|
  {
    SlotOf(slots, t).life.Registered? && adders[t.req].timeout > 0 && WasListed(adders[t.req].adding, t.slot) ==>
      Waits(SlotOf(slots, t), t, list, expired)
  }

  ghost predicate Timed(slots: seq<seq<Slot>>, adders: seq<Adder>, list: seq<Item>, expired: seq<Item>) {
    |adders| == |slots| && forall t :: ValidToken(slots, t) ==> TimedAt(slots, adders, list, expired, t)
  }

  /** While its timer is being made, a slot is registered under the identifier the adder holds or not at all. */
  ghost predicate OwnId(slots: seq<seq<Slot>>, r: nat, adding: Adding) {
    adding.Inserted? || adding.Stamped? ==>
      && ValidToken(slots, Token(r, adding.slot))
      && (SlotOf(slots, Token(r, adding.slot)).life.Registered? ==>
            SlotOf(slots, Token(r, adding.slot)).life.id == adding.id)
  }

  ghost predicate OwnIds(slots: seq<seq<Slot>>, adders: seq<Adder>) {
    forall r :: 0 <= r < |adders| ==> OwnId(slots, r, adders[r].adding)
  }

  ghost predicate PhaseOk(phase: Phase, expired: seq<Item>) {
    (phase.Firing? ==> expired != []) && (phase.Idle? || phase.Wanting? ==> expired == [])
  }

  ghost predicate RestInv(s: State) {
    Timed(s.slots, s.adders, s.list, s.expired) && OwnIds(s.slots, s.adders) && PhaseOk(s.phase, s.expired)
  }

  // ---- Every step keeps it ----

  /** A slot that does not become registered anew and keeps its deadline. */
  ghost predicate Calmer(was: Slot, now: Slot) {
    now.deadline == was.deadline && (now.life.Registered? ==> now.life == was.life)
  }

  lemma TimedCalmer(slots: seq<seq<Slot>>, adders: seq<Adder>, list: seq<Item>, expired: seq<Item>, t: Token, slot: Slot)
    requires Timed(slots, adders, list, expired) && ValidToken(slots, t) && Calmer(SlotOf(slots, t), slot)
    ensures Timed(WithSlot(slots, t, slot), adders, list, expired)
  {
    hide WithSlot;
    var now := WithSlot(slots, t, slot);
    forall u | ValidToken(now, u) ensures TimedAt(now, adders, list, expired, u) {
      assert ValidToken(slots, u) && TimedAt(slots, adders, list, expired, u);
    }
  }

  lemma OwnCalmer(slots: seq<seq<Slot>>, adders: seq<Adder>, t: Token, slot: Slot)
    requires OwnIds(slots, adders) && ValidToken(slots, t) && Calmer(SlotOf(slots, t), slot)
    ensures OwnIds(WithSlot(slots, t, slot), adders)
  {
    hide WithSlot;
    forall r | 0 <= r < |adders| ensures OwnId(WithSlot(slots, t, slot), r, adders[r].adding) {
      assert OwnId(slots, r, adders[r].adding);
    }
  }

  lemma CallbackKeepsRest(s: State, step: Step)
    requires Inv(s) && RestInv(s) && Enabled(s, step)
    requires step.Write? || step.Finish? || step.Aggregate? || step.FailSend?
    ensures RestInv(Take(s, step))
  {
    hide Timed, OwnIds, WithSlot, Merge, Tallies, Lives, Births, ItemsOk, Adders, CounterOk;
    var t := if step.FailSend? then Token(step.r, step.slot) else step.cb.token;
    if !step.FailSend? { CallbackSlot(s, step.cb); }
    var slot := SlotOf(Take(s, step).slots, t);
    assert Take(s, step).slots == WithSlot(s.slots, t, slot);
    TimedCalmer(s.slots, s.adders, s.list, s.expired, t, slot);
    OwnCalmer(s.slots, s.adders, t, slot);
  }

  /** Handing out keeps the timers of all callbacks. */
  lemma HandOutKeepsRest(s: State, id: ResourceId, reply: Reply)
    requires Inv(s) && Timed(s.slots, s.adders, s.list, s.expired) && OwnIds(s.slots, s.adders)
    ensures var n := HandOut(s, id, reply);
            Timed(n.slots, n.adders, n.list, n.expired) && OwnIds(n.slots, n.adders)
  {
    hide WithSlot, Timed, OwnIds, Tallies, Births, ItemsOk, Adders, CounterOk, Lives;
    var n := HandOut(s, id, reply);
    if id in s.resources {
      HandOutFacts(s, id, reply);
      var t := s.resources[id];
      TimedCalmer(s.slots, s.adders, s.list, s.expired, t, SlotOf(n.slots, t));
      OwnCalmer(s.slots, s.adders, t, SlotOf(n.slots, t));
    }
  }

  /** The callback handed out needs its timer no longer. */
  lemma HandedOutIsGone(s: State, id: ResourceId, reply: Reply, t: Token)
    requires Inv(s) && ValidToken(HandOut(s, id, reply).slots, t)
    ensures SlotOf(HandOut(s, id, reply).slots, t).life != Registered(id)
  {
    hide WithSlot, Tallies, Births, ItemsOk, Adders, CounterOk;
    assert ValidToken(s.slots, t) && SlotOk(s.slots, s.resources, s.running, t);
    if id in s.resources { assert EntryOk(s.slots, s.resources, id); }
  }

  lemma FireKeepsRest(s: State)
    requires Inv(s) && RestInv(s) && Enabled(s, Fire)
    ensures RestInv(Take(s, Fire))
  {
    hide HandOut, OwnIds, Tallies, Births, ItemsOk, Adders, CounterOk, Lives;
    var id := s.expired[0].id;
    HandOutKeepsRest(s, id, Reply([]));
    HandOutFrame(s, id, Reply([]));
    var n := HandOut(s, id, Reply([]));
    forall t | ValidToken(n.slots, t) ensures TimedAt(n.slots, n.adders, s.list, s.expired[1..], t) {
      assert TimedAt(n.slots, n.adders, n.list, n.expired, t);
      HandedOutIsGone(s, id, Reply([]), t);
      assert forall item :: item in s.expired ==> item == s.expired[0] || item in s.expired[1..];
    }
  }

  lemma CheckerKeepsRest(s: State, step: Step)
    requires RestInv(s) && Enabled(s, step)
    requires step.Tick? || step.Look? || step.LockList? || step.Pop? || step.Unlock?
    ensures RestInv(Take(s, step))
  {
    hide OwnIds;
    var n := Take(s, step);
    forall t | ValidToken(n.slots, t) ensures TimedAt(n.slots, n.adders, n.list, n.expired, t) {
      assert TimedAt(s.slots, s.adders, s.list, s.expired, t);
      if step.Pop? {
        assert forall item :: item in s.list ==> item == s.list[0] || item in s.list[1..];
      }
    }
  }

  /** A registration step that changes no slot. */
  lemma AdderKeepsRest(s: State, step: Step)
    requires Inv(s) && RestInv(s) && Enabled(s, step)
    requires step.TakeId? || step.NoTimer? || step.Push? || step.CountItem?
    ensures RestInv(Take(s, step))
  {
    hide Tallies, Lives, ItemsOk, CounterOk, Births;
    var n, a := Take(s, step), s.adders[step.r].adding;
    if step.Push? { assert AdderOk(s.slots, s.resources, s.list, s.expired, step.r, a); }
    forall t | ValidToken(n.slots, t) ensures TimedAt(n.slots, n.adders, n.list, n.expired, t) {
      assert TimedAt(s.slots, s.adders, s.list, s.expired, t);
      assert OwnId(s.slots, step.r, a);
    }
    forall r | 0 <= r < |n.adders| ensures OwnId(n.slots, r, n.adders[r].adding) {
      assert OwnId(s.slots, r, s.adders[r].adding);
    }
  }

  lemma SlotStepKeepsRest(s: State, step: Step)
    requires Inv(s) && RestInv(s) && Enabled(s, step) && (step.Insert? || step.Stamp?)
    ensures RestInv(Take(s, step))
  {
    hide Tallies, Lives, ItemsOk, CounterOk, WithSlot;
    var n, a := Take(s, step), s.adders[step.r].adding;
    var t := Token(step.r, a.slot);
    forall u | ValidToken(n.slots, u) ensures TimedAt(n.slots, n.adders, n.list, n.expired, u) {
      assert ValidToken(s.slots, u) && TimedAt(s.slots, s.adders, s.list, s.expired, u);
    }
    forall r | 0 <= r < |n.adders| ensures OwnId(n.slots, r, n.adders[r].adding) {
      assert OwnId(s.slots, r, s.adders[r].adding);
    }
  }

  lemma NewKeepsRest(s: State, step: Step)
    requires Inv(s) && RestInv(s) && Enabled(s, step) && step.NewRequest?
    ensures RestInv(Take(s, step))
  {
    hide Tallies, Lives, ItemsOk, CounterOk;
    var n := Take(s, step);
    forall u | ValidToken(n.slots, u) ensures TimedAt(n.slots, n.adders, n.list, n.expired, u) {
      if u.req < |s.slots| { assert ValidToken(s.slots, u) && TimedAt(s.slots, s.adders, s.list, s.expired, u); }
    }
    forall r | 0 <= r < |n.adders| ensures OwnId(n.slots, r, n.adders[r].adding) {
      if r < |s.adders| { assert OwnId(s.slots, r, s.adders[r].adding); }
    }
  }

  lemma StepKeepsRest(s: State, step: Step)
    requires Inv(s) && RestInv(s) && Enabled(s, step)
    ensures RestInv(Take(s, step))
  {
    hide Inv, Take, Enabled, RestInv;
    match step
    case NewRequest(_, _) => NewKeepsRest(s, step);
    case TakeId(_) => AdderKeepsRest(s, step);
    case Insert(_) => SlotStepKeepsRest(s, step);
    case Stamp(_) => SlotStepKeepsRest(s, step);
    case NoTimer(_) => AdderKeepsRest(s, step);
    case Push(_) => AdderKeepsRest(s, step);
    case CountItem(_) => AdderKeepsRest(s, step);
    case Respond(id, reply) => RespondKeepsRest(s, step);
    case Tick => CheckerKeepsRest(s, step);
    case Look => CheckerKeepsRest(s, step);
    case LockList => CheckerKeepsRest(s, step);
    case Pop => CheckerKeepsRest(s, step);
    case Unlock => CheckerKeepsRest(s, step);
    case Fire => FireKeepsRest(s);
    case FailSend(_, _) => CallbackKeepsRest(s, step);
    case Write(_) => CallbackKeepsRest(s, step);
    case Finish(_) => CallbackKeepsRest(s, step);
    case Aggregate(_) => CallbackKeepsRest(s, step);
  }

  lemma RespondKeepsRest(s: State, step: Step)
    requires Inv(s) && RestInv(s) && Enabled(s, step) && step.Respond?
    ensures RestInv(Take(s, step))
  {
    hide HandOut, Timed, OwnIds;
    HandOutKeepsRest(s, step.id, step.reply);
    HandOutFrame(s, step.id, step.reply);
    assert Take(s, step).phase == s.phase by { HandOutPhase(s, step.id, step.reply); }
  }

  lemma HandOutPhase(s: State, id: ResourceId, reply: Reply)
    ensures HandOut(s, id, reply).phase == s.phase
  {
  }

  // ---- States from which identifiers last ----

  /** Between taking an identifier and listing its timer. */
  ghost predicate Making(a: Adder) { a.adding.HaveId? || a.adding.Inserted? || a.adding.Stamped? }

  /** A reachable state with at least `k` fresh identifiers to go, and fewer timers than identifiers taken. */
  ghost predicate Ready(s: State, k: nat) {
    && Inv(s) && RestInv(s) && IdsIssued(s) && 1 <= s.nextId && s.nextId + k < WORD - 1
    && |s.list| + Count(s.adders, Making) < s.nextId
  }

  lemma FewTimers(s: State, step: Step)
    requires Enabled(s, step) && 1 <= s.nextId < WORD - 1 && |s.list| + Count(s.adders, Making) < s.nextId
    ensures |Take(s, step).list| + Count(Take(s, step).adders, Making) < Take(s, step).nextId
  {
    hide Count, WithSlot, Merge, HandOut;
    var n := Take(s, step);
    if step.NewRequest? {
      CountAppend(s.adders, n.adders[|s.adders|], Making);
    } else if step.TakeId? || step.Insert? || step.Stamp? || step.NoTimer? || step.Push? || step.CountItem? {
      CountUpdate(s.adders, step.r, n.adders[step.r], Making);
    } else if step.Respond? {
      HandOutFrame(s, step.id, step.reply);
    } else if step.Fire? {
      HandOutFrame(s, s.expired[0].id, Reply([]));
    }
  }

  lemma StepReady(s: State, step: Step, k: nat)
    requires Ready(s, k) && Enabled(s, step) && (step.TakeId? ==> k >= 1)
    ensures NotWrapped(s, step) && Ready(Take(s, step), if step.TakeId? then k - 1 else k)
  {
    hide Inv, RestInv, IdsIssued, Take, Enabled, InUse;
    IssuedIsUnused(s);
    StepKeeps(s, step);
    StepKeepsRest(s, step);
    IssueStep(s, step);
    FewTimers(s, step);
  }

  // ---- Paths ----

  /** Steps that need no message from outside: no request, no response, no failing send. */
  ghost predicate Inside(step: Step) {
    !(step.NewRequest? || step.Respond? || step.FailSend?)
  }

  ghost predicate Path(s: State, path: seq<Step>, n: State)
    decreases |path|
  {
    if path == [] then n == s
    else Enabled(s, path[0]) && NotWrapped(s, path[0]) && Inside(path[0]) && Path(Take(s, path[0]), path[1..], n)
  }

  lemma {:induction false} PathJoin(a: State, p: seq<Step>, b: State, q: seq<Step>, c: State)
    requires Path(a, p, b) && Path(b, q, c)
    ensures Path(a, p + q, c)
    decreases |p|
  {
    hide Enabled, Take, NotWrapped;
    if p == [] {
      assert p + q == q;
    } else {
      PathJoin(Take(a, p[0]), p[1..], b, q, c);
      assert (p + q)[1..] == p[1..] + q;
    }
  }

  lemma PathStep(s: State, step: Step, path: seq<Step>, n: State)
    requires Enabled(s, step) && NotWrapped(s, step) && Inside(step) && Path(Take(s, step), path, n)
    ensures Path(s, [step] + path, n)
  {
    hide Enabled, Take, NotWrapped;
    assert ([step] + path)[1..] == path;
  }

  /** A path from the end of a run is a longer run. */
  lemma {:induction false} PathExtends(steps: seq<Step>, path: seq<Step>, n: State)
    requires Legal(steps) && Path(After(steps), path, n)
    ensures Legal(steps + path) && After(steps + path) == n
    decreases |path|
  {
    hide Enabled, Take, NotWrapped;
    if path == [] {
      assert steps + path == steps;
    } else {
      var longer := steps + [path[0]];
      assert longer[..|longer| - 1] == steps;
      PathExtends(longer, path[1..], n);
      assert longer + path[1..] == steps + path;
    }
  }

  // ---- Callbacks end ----

  /** Everything but slots, table, tallies and running callbacks. */
  ghost predicate SameTimers(s: State, n: State) {
    && n.adders == s.adders && n.list == s.list && n.expired == s.expired && n.phase == s.phase
    && n.clock == s.clock && n.itemCount == s.itemCount && SameShape(s, n)
  }

  ghost predicate SameShape(s: State, n: State) {
    |n.slots| == |s.slots| && forall r :: 0 <= r < |s.slots| ==> |n.slots[r]| == |s.slots[r]|
  }

  /** The next action of a callback. */
  ghost function NextAction(cb: Callback): Step {
    match cb.stage
    case ToWrite => Write(cb)
    case ToFinish => Finish(cb)
    case ToAggregate => Aggregate(cb)
  }

  ghost function ActionsLeft(cb: Callback): nat {
    match cb.stage
    case ToWrite => 3
    case ToFinish => 2
    case ToAggregate => 1
  }

  /** An action of a callback, and the callback that goes on, if it does. */
  lemma ActionGoesOn(s: State, cb: Callback) returns (on: Option<Callback>)
    requires cb in s.running && ValidToken(s.slots, cb.token) && |s.tallies| == |s.slots|
    ensures Enabled(s, NextAction(cb))
    ensures var n := Take(s, NextAction(cb));
            && SameTimers(s, n)
            && (on.None? ==> n.running == s.running - multiset{cb})
            && (on.Some? ==> && ActionsLeft(on.value) < ActionsLeft(cb)
                             && n.running == s.running - multiset{cb} + multiset{on.value})
  {
    hide WithSlot, Merge;
    match cb.stage
    case ToWrite => on := Some(cb.(stage := ToFinish));
    case ToFinish =>
      on := if s.tallies[cb.token.req].unfinished <= 1 then Some(cb.(stage := ToAggregate)) else None;
    case ToAggregate => on := None;
  }

  lemma CallbackPlace(s: State, k: nat, cb: Callback)
    requires Ready(s, k) && cb in s.running
    ensures ValidToken(s.slots, cb.token) && |s.tallies| == |s.slots|
  {
    hide Lives, Births, Tallies, ItemsOk, Adders, CounterOk;
    CallbackSlot(s, cb);
  }

  lemma {:induction false} CompleteOne(s: State, k: nat, cb: Callback) returns (path: seq<Step>, n: State)
    requires Ready(s, k) && cb in s.running
    ensures Path(s, path, n) && Ready(n, k) && SameTimers(s, n) && n.running == s.running - multiset{cb}
    decreases ActionsLeft(cb)
  {
    hide Ready, Enabled, Take, NotWrapped, Path;
    CallbackPlace(s, k, cb);
    var on := ActionGoesOn(s, cb);
    StepReady(s, NextAction(cb), k);
    var m := Take(s, NextAction(cb));
    if on.Some? {
      path, n := CompleteOne(m, k, on.value);
      assert n.running == s.running - multiset{cb};
    } else {
      path, n := [], m;
      EmptyPath(m);
    }
    PathStep(s, NextAction(cb), path, n);
    path := [NextAction(cb)] + path;
  }

  lemma EmptyPath(s: State)
    ensures Path(s, [], s)
  {
  }

  lemma {:induction false} RunCallbacks(s: State, k: nat) returns (path: seq<Step>, n: State)
    requires Ready(s, k)
    ensures Path(s, path, n) && Ready(n, k) && SameTimers(s, n) && n.running == multiset{}
    decreases |s.running|
  {
    hide Ready, Path;
    if s.running == multiset{} {
      EmptyPath(s);
      path, n := [], s;
    } else {
      var cb :| cb in s.running;
      var p, m := CompleteOne(s, k, cb);
      var q;
      q, n := RunCallbacks(m, k);
      PathJoin(s, p, m, q, n);
      path := p + q;
    }
  }

  // ---- The checker ----

  /** Running the collected timeouts, each callback to its end before the next, as the checker does. */
  lemma {:induction false} FireAll(s: State, k: nat) returns (path: seq<Step>, n: State)
    requires Ready(s, k) && s.phase.Firing?
    ensures Path(s, path, n) && Ready(n, k) && n.phase.Idle?
    ensures n.adders == s.adders && n.list == s.list && n.clock == s.clock && SameShape(s, n)
    decreases |s.expired|
  {
    FireFacts(s, k);
    hide Ready, Path, Take, Enabled, NotWrapped;
    StepReady(s, Fire, k);
    var m := Take(s, Fire);
    var p, c := RunCallbacks(m, k);
    path, n := p, c;
    if c.phase.Firing? {
      var q, d := FireAll(c, k);
      PathJoin(m, p, c, q, d);
      path, n := p + q, d;
    }
    PathStep(s, Fire, path, n);
    path := [Fire] + path;
  }

  lemma FireFacts(s: State, k: nat)
    requires Ready(s, k) && s.phase.Firing?
    ensures Enabled(s, Fire)
    ensures var n := Take(s, Fire);
            && n.adders == s.adders && n.list == s.list && n.clock == s.clock && SameShape(s, n)
            && |n.expired| < |s.expired| && (n.phase.Idle? || n.phase.Firing?)
  {
    hide WithSlot, Inv, IdsIssued, Timed, OwnIds, Count;
  }

  /** Collecting what is due, and leaving the lock. */
  lemma {:induction false} Collect(s: State, k: nat) returns (path: seq<Step>, n: State)
    requires Ready(s, k) && s.phase.Collecting?
    ensures Path(s, path, n) && Ready(n, k) && (n.phase.Idle? || n.phase.Firing?)
    ensures n.adders == s.adders && n.clock == s.clock && n.slots == s.slots && n.running == s.running
    ensures AllExpired(s.list, s.clock) ==> n.list == []
    decreases |s.list|
  {
    hide Ready, Path, NotWrapped;
    if s.list != [] && s.list[0].expire <= s.clock {
      StepReady(s, Pop, k);
      var m := Take(s, Pop);
      path, n := Collect(m, k);
      PathStep(s, Pop, path, n);
      path := [Pop] + path;
    } else {
      StepReady(s, Unlock, k);
      n := Take(s, Unlock);
      EmptyPath(n);
      PathStep(s, Unlock, [], n);
      path := [Unlock] + [];
    }
  }

  /** Whatever the checker is doing, it can get back to sleep with no callback running. */
  lemma Settle(s: State, k: nat) returns (path: seq<Step>, n: State)
    requires Ready(s, k)
    ensures Path(s, path, n) && Ready(n, k) && n.phase.Idle? && n.running == multiset{}
    ensures n.adders == s.adders && n.clock == s.clock && SameShape(s, n)
    ensures s.phase.Idle? ==> n.list == s.list
    ensures s.phase.Wanting? && AllExpired(s.list, s.clock) ==> n.list == []
  {
    hide Ready, Path, NotWrapped, AllExpired;
    path, n := [], s;
    EmptyPath(s);
    if n.phase.Wanting? {
      StepReady(n, LockList, k);
      var m := Take(n, LockList);
      EmptyPath(m);
      PathStep(n, LockList, [], m);
      PathJoin(s, path, n, [LockList] + [], m);
      path, n := path + ([LockList] + []), m;
    }
    if n.phase.Collecting? {
      var q, m := Collect(n, k);
      PathJoin(s, path, n, q, m);
      path, n := path + q, m;
    }
    if n.phase.Firing? {
      var q, m := FireAll(n, k);
      PathJoin(s, path, n, q, m);
      path, n := path + q, m;
    }
    var q, m := RunCallbacks(n, k);
    PathJoin(s, path, n, q, m);
    path, n := path + q, m;
  }

  // ---- Registration ends ----

  ghost function AdderStep(a: Adder, r: nat): Step {
    match a.adding
    case Next(_) => TakeId(r)
    case HaveId(_, _) => Insert(r)
    case Inserted(_, _) => if a.timeout > 0 then Stamp(r) else NoTimer(r)
    case Stamped(_, _, _) => Push(r)
    case Listed(_, _) => CountItem(r)
  }

  ghost function AddingRank(a: Adding): nat {
    match a
    case Next(_) => 5
    case HaveId(_, _) => 4
    case Inserted(_, _) => 3
    case Stamped(_, _, _) => 2
    case Listed(_, _) => 1
  }

  /** Identifiers the registration of a request still needs. */
  ghost function Needs(n: nat, a: Adding): int {
    if a.Next? then n - a.slot else n - a.slot - 1
  }

  lemma AdderMoves(s: State, k: nat, r: nat)
    requires Ready(s, k) && r < |s.slots| == |s.adders| && !s.phase.Collecting?
    requires s.adders[r].adding != Next(|s.slots[r]|)
    ensures Enabled(s, AdderStep(s.adders[r], r))
    ensures var n := Take(s, AdderStep(s.adders[r], r));
            && SameShape(s, n) && n.phase == s.phase && n.running == s.running && |n.adders| == |s.adders|
            && n.adders[r].timeout == s.adders[r].timeout
            && Needs(|n.slots[r]|, n.adders[r].adding)
               == Needs(|s.slots[r]|, s.adders[r].adding) - (if s.adders[r].adding.Next? then 1 else 0)
            && n.adders[r].adding.slot >= s.adders[r].adding.slot
            && (n.adders[r].adding.slot == s.adders[r].adding.slot ==>
                  AddingRank(n.adders[r].adding) < AddingRank(s.adders[r].adding))
            && n.adders[r].adding.slot <= |s.slots[r]|
  {
    hide WithSlot, Lives, Tallies, ItemsOk, Adders, CounterOk, RestInv, IdsIssued, Count;
  }

  lemma {:induction false} Register(s: State, k: nat, r: nat) returns (path: seq<Step>, n: State)
    requires Ready(s, k) && r < |s.slots| == |s.adders| && s.phase.Idle? && s.running == multiset{}
    requires s.adders[r].adding.slot <= |s.slots[r]| && Needs(|s.slots[r]|, s.adders[r].adding) <= k
    ensures Path(s, path, n) && Ready(n, 0) && n.phase.Idle? && n.running == multiset{} && SameShape(s, n)
    ensures |n.adders| == |s.adders| && n.adders[r].adding == Next(|n.slots[r]|) && n.adders[r].timeout == s.adders[r].timeout
    decreases |s.slots[r]| - s.adders[r].adding.slot, AddingRank(s.adders[r].adding)
  {
    hide Ready, Path, Take, Enabled, NotWrapped;
    if s.adders[r].adding == Next(|s.slots[r]|) {
      EmptyPath(s);
      ReadyLess(s, k, 0);
      path, n := [], s;
    } else {
      AdderMoves(s, k, r);
      var step := AdderStep(s.adders[r], r);
      StepReady(s, step, k);
      path, n := Register(Take(s, step), if step.TakeId? then k - 1 else k, r);
      PathStep(s, step, path, n);
      path := [step] + path;
    }
  }

  lemma ReadyLess(s: State, k: nat, j: nat)
    requires Ready(s, k) && j <= k
    ensures Ready(s, j)
  {
  }

  /** Every listed timer gets counted. */
  lemma {:induction false} CountAll(s: State) returns (path: seq<Step>, n: State)
    requires Ready(s, 0)
    ensures Path(s, path, n) && Ready(n, 0) && Pending(n.adders) == 0
    ensures n.slots == s.slots && n.list == s.list && n.clock == s.clock && n.phase == s.phase && n.running == s.running
    ensures |n.adders| == |s.adders| && forall q :: 0 <= q < |s.adders| && s.adders[q].adding.Next? ==> n.adders[q] == s.adders[q]
    decreases Pending(s.adders)
  {
    hide Ready, Path, NotWrapped, Count;
    CountBounds(s.adders, IsListed);
    if Pending(s.adders) == 0 {
      EmptyPath(s);
      path, n := [], s;
    } else {
      var r :| 0 <= r < |s.adders| && IsListed(s.adders[r]);
      AddersMatch(s);
      var step := CountItem(r);
      StepReady(s, step, 0);
      var m := Take(s, step);
      PendingAt(s.adders, r, m.adders[r]);
      hide Take, Enabled;
      path, n := CountAll(m);
      PathStep(s, step, path, n);
      path := [step] + path;
    }
  }

  lemma AddersMatch(s: State)
    requires Ready(s, 0)
    ensures |s.adders| == |s.slots|
  {
    hide Lives, Tallies, ItemsOk, Adders, CounterOk;
  }

  ghost function Latest(list: seq<Item>): nat {
    if list == [] then 0 else Max(Latest(list[..|list| - 1]), list[|list| - 1].expire)
  }

  lemma {:induction false} LatestIsLast(list: seq<Item>, clock: nat)
    requires Latest(list) <= clock
    ensures AllExpired(list, clock)
  {
    if list != [] { LatestIsLast(list[..|list| - 1], clock); }
  }

  lemma {:induction false} WaitUntil(s: State, time: nat) returns (path: seq<Step>, n: State)
    requires Ready(s, 0)
    ensures Path(s, path, n) && Ready(n, 0) && n.clock >= time && n == s.(clock := n.clock)
    decreases time - s.clock
  {
    hide Ready, Path, NotWrapped;
    if s.clock >= time {
      EmptyPath(s);
      path, n := [], s;
    } else {
      StepReady(s, Tick, 0);
      path, n := WaitUntil(Take(s, Tick), time);
      PathStep(s, Tick, path, n);
      path := [Tick] + path;
    }
  }

  lemma CounterPositive(s: State)
    requires Ready(s, 0) && Pending(s.adders) == 0 && s.list != []
    ensures s.itemCount > 0
  {
    hide Lives, Births, Tallies, ItemsOk, Adders, RestInv, IdsIssued, Count;
    assert |s.list| < WORD;
  }

  lemma NothingListed(s: State, r: nat)
    requires Ready(s, 0) && s.phase.Idle? && s.list == [] && s.running == multiset{}
    requires r < |s.slots| == |s.adders| && s.adders[r].adding == Next(|s.slots[r]|) && s.adders[r].timeout > 0
    ensures Quiet(s, r)
  {
    hide Births, Tallies, ItemsOk, Adders, CounterOk, IdsIssued, Count;
    forall id | id in s.resources ensures s.resources[id].req != r {
      assert EntryOk(s.slots, s.resources, id);
      var t := s.resources[id];
      assert TimedAt(s.slots, s.adders, s.list, s.expired, t);
    }
  }

  /** All listed timers run out and are collected. */
  lemma Expire(s: State) returns (path: seq<Step>, n: State)
    requires Ready(s, 0) && s.phase.Idle? && s.running == multiset{}
    ensures Path(s, path, n) && Ready(n, 0) && n.phase.Idle? && n.running == multiset{} && n.list == []
    ensures SameShape(s, n) && |n.adders| == |s.adders|
    ensures forall q :: 0 <= q < |s.adders| && s.adders[q].adding.Next? ==> n.adders[q] == s.adders[q]
  {
    hide Ready, Path, NotWrapped, Pending, Latest, AllExpired;
    var p1, a := CountAll(s);
    var p2, b := WaitUntil(a, Latest(a.list));
    LatestIsLast(b.list, b.clock);
    PathJoin(s, p1, a, p2, b);
    path, n := p1 + p2, b;
    if b.list != [] {
      CounterPositive(b);
      StepReady(b, Look, 0);
      var c := Take(b, Look);
      var p3, d := Settle(c, 0);
      PathStep(b, Look, p3, d);
      PathJoin(s, path, b, [Look] + p3, d);
      path, n := path + ([Look] + p3), d;
    }
  }

  lemma ShapeOf(s: State, k: nat, r: nat)
    requires Ready(s, k) && r < |s.slots|
    ensures |s.adders| == |s.slots| && s.adders[r].adding.slot <= |s.slots[r]|
    ensures Needs(|s.slots[r]|, s.adders[r].adding) <= |s.slots[r]|
  {
    hide Lives, Tallies, ItemsOk, Adders, CounterOk;
  }

  lemma ComesToRest(s: State, k: nat, r: nat) returns (path: seq<Step>, n: State)
    requires Ready(s, k) && r < |s.slots| == |s.adders| && |s.slots[r]| <= k && s.adders[r].timeout > 0
    ensures Path(s, path, n) && Quiet(n, r)
  {
    hide Ready, Path, Quiet;
    var p, a := Settle(s, k);
    ShapeOf(a, k, r);
    var q, b := Register(a, k, r);
    PathJoin(s, p, a, q, b);
    var u, c := Expire(b);
    PathJoin(s, p + q, b, u, c);
    NothingListed(c, r);
    path, n := p + q + u, c;
  }

  // ---- Runs ----

  lemma {:induction false} RunsReady(steps: seq<Step>, k: nat)
    requires AllEnabled(steps) && IdsTaken(steps) + k < WORD - 3
    ensures Legal(steps) && Ready(After(steps), k)
  {
    hide Ready, Take, Enabled, IdsIssued;
    ShortRunsAreLegal(steps);
    if steps == [] {
      StartReady(k);
    } else {
      var before, step := steps[..|steps| - 1], steps[|steps| - 1];
      RunsReady(before, k + if step.TakeId? then 1 else 0);
      StepReady(After(before), step, k + if step.TakeId? then 1 else 0);
    }
  }

  lemma StartReady(k: nat)
    requires k < WORD - 3
    ensures Ready(Initial(), k)
  {
    InitialOk();
    NothingIssued();
  }

  /** A request with a timeout can always come to rest without a word from any server: every run too short to use up the
      identifiers has a continuation, of steps inside the aggregator alone, after which the request is quiet. */
  lemma RestIsReachable(steps: seq<Step>, r: nat) returns (more: seq<Step>)
    requires AllEnabled(steps) && r < |After(steps).slots| == |After(steps).adders|
    requires After(steps).adders[r].timeout > 0
    requires IdsTaken(steps) + |After(steps).slots[r]| < WORD - 3
    ensures Legal(steps + more) && Quiet(After(steps + more), r)
    ensures forall i :: 0 <= i < |more| ==> Inside(more[i])
  {
    hide Ready, Quiet, Path, After, Legal;
    var k := |After(steps).slots[r]|;
    RunsReady(steps, k);
    var path, n := ComesToRest(After(steps), k, r);
    PathExtends(steps, path, n);
    PathInside(After(steps), path, n);
    more := path;
  }

  lemma {:induction false} PathInside(s: State, path: seq<Step>, n: State)
    requires Path(s, path, n)
    ensures forall i :: 0 <= i < |path| ==> Inside(path[i])
    decreases |path|
  {
    hide Enabled, Take, NotWrapped;
    if path != [] {
      PathInside(Take(s, path[0]), path[1..], n);
      forall i | 0 <= i < |path| ensures Inside(path[i]) {
        assert i > 0 ==> path[i] == path[1..][i - 1];
      }
    }
  }

  // ---- A run with a failed send ----

  lemma Then(steps: seq<Step>, step: Step)
    requires AllEnabled(steps) && Enabled(After(steps), step)
    ensures AllEnabled(steps + [step]) && After(steps + [step]) == Take(After(steps), step)
    ensures IdsTaken(steps + [step]) == IdsTaken(steps) + if step.TakeId? then 1 else 0
  {
    hide Enabled, Take;
    assert (steps + [step])[..|steps|] == steps;
  }

  /** One request to one server with a timeout of one tick, as far as `adding`. */
  ghost predicate OneRequest(s: State, adding: Adding) {
    && s.adders == [Adder(1, adding)] && |s.slots| == 1 && |s.slots[0]| == 1 && s.slots[0][0].fail.Unborn?
    && s.phase.Idle? && s.nextId == (if adding == Next(0) then 1 else 2)
  }

  lemma NextStep(s: State, adding: Adding)
    requires OneRequest(s, adding) && adding != Next(1) && adding.slot == 0
    ensures Enabled(s, AdderStep(s.adders[0], 0))
    ensures OneRequest(Take(s, AdderStep(s.adders[0], 0)),
                       match adding
                       case Next(_) => HaveId(0, s.nextId)
                       case HaveId(_, id) => Inserted(0, id)
                       case Inserted(_, id) => Stamped(0, id, s.clock + 1)
                       case Stamped(_, id, _) => Listed(0, id)
                       case Listed(_, _) => Next(1))
    ensures Take(s, AdderStep(s.adders[0], 0)).clock == s.clock
  {
    hide WithSlot;
  }

  ghost const REGISTER: seq<Step> := [NewRequest(1, 1), TakeId(0), Insert(0), Stamp(0), Push(0), CountItem(0)]

  lemma RequestRegisters()
    ensures AllEnabled(REGISTER) && IdsTaken(REGISTER) == 1 && OneRequest(After(REGISTER), Next(1))
  {
    hide Take, Enabled;
    var run: seq<Step> := [];
    assert AllEnabled(run) && After(run) == Initial() && IdsTaken(run) == 0;
    assert Enabled(Initial(), NewRequest(1, 1)) && OneRequest(Take(Initial(), NewRequest(1, 1)), Next(0))
        && Take(Initial(), NewRequest(1, 1)).clock == 0 by { FirstRequest(); }
    hide After, AllEnabled, IdsTaken, Initial;
    Then(run, NewRequest(1, 1));
    run := run + [NewRequest(1, 1)];
    NextStep(After(run), Next(0));
    Then(run, TakeId(0));
    run := run + [TakeId(0)];
    NextStep(After(run), HaveId(0, 1));
    Then(run, Insert(0));
    run := run + [Insert(0)];
    NextStep(After(run), Inserted(0, 1));
    Then(run, Stamp(0));
    run := run + [Stamp(0)];
    NextStep(After(run), Stamped(0, 1, 1));
    Then(run, Push(0));
    run := run + [Push(0)];
    NextStep(After(run), Listed(0, 1));
    Then(run, CountItem(0));
    run := run + [CountItem(0)];
    assert run == REGISTER;
  }

  lemma FirstRequest()
    ensures Enabled(Initial(), NewRequest(1, 1)) && OneRequest(Take(Initial(), NewRequest(1, 1)), Next(0))
    ensures Take(Initial(), NewRequest(1, 1)).clock == 0
  {
  }

  ghost predicate FailedAt(slots: seq<seq<Slot>>, t: Token, size: nat) {
    ValidToken(slots, t) && Failed(SlotOf(slots, t)) && |slots[t.req]| == size
  }

  lemma HandOutKeepsFailure(s: State, id: ResourceId, reply: Reply, t: Token, size: nat)
    requires FailedAt(s.slots, t, size)
    ensures FailedAt(HandOut(s, id, reply).slots, t, size)
  {
    hide WithSlot;
  }

  /** A slot whose send failed stays so. */
  lemma FailureStays(s: State, step: Step, t: Token, size: nat)
    requires Enabled(s, step) && FailedAt(s.slots, t, size)
    ensures FailedAt(Take(s, step).slots, t, size)
  {
    hide WithSlot, Merge, HandOut;
    if step.Respond? {
      HandOutKeepsFailure(s, step.id, step.reply, t, size);
    } else if step.Fire? {
      HandOutKeepsFailure(s, s.expired[0].id, Reply([]), t, size);
    }
  }

  lemma {:induction false} FailureStaysOnPath(s: State, path: seq<Step>, n: State, t: Token, size: nat)
    requires Path(s, path, n) && FailedAt(s.slots, t, size)
    ensures FailedAt(n.slots, t, size)
    decreases |path|
  {
    hide Enabled, Take, NotWrapped, FailedAt;
    if path != [] {
      FailureStays(s, path[0], t, size);
      FailureStaysOnPath(Take(s, path[0]), path[1..], n, t, size);
    }
  }

  lemma SendFails(s: State)
    requires OneRequest(s, Next(1))
    ensures Enabled(s, FailSend(0, 0))
    ensures var n := Take(s, FailSend(0, 0));
            && |n.slots| == 1 && |n.slots[0]| == 1 && Failed(n.slots[0][0]) && n.adders == s.adders
  {
  }

  /** Two answers do happen: one server, its send fails, and the request comes to rest. */
  lemma TwoAnswers() returns (more: seq<Step>)
    ensures var run := REGISTER + [FailSend(0, 0)] + more;
            && Legal(run) && Quiet(After(run), 0) && |After(run).tallies| > 0 && |After(run).tallies[0].sent| == 2
  {
    hide Take, Enabled, Path, Quiet, Ready;
    RequestRegisters();
    SendFails(After(REGISTER));
    Then(REGISTER, FailSend(0, 0));
    var run := REGISTER + [FailSend(0, 0)];
    hide After, Legal, AllEnabled;
    RunsReady(run, 1);
    var path, n := ComesToRest(After(run), 1, 0);
    PathExtends(run, path, n);
    FailureStaysOnPath(After(run), path, n, Token(0, 0), 1);
    assert run + path == REGISTER + [FailSend(0, 0)] + path;
    QuietHasRequest(n, 0);
    RunShape(run + path);
    assert (run + path)[|REGISTER|] == FailSend(0, 0);
    assert SendFailed(run + path, 0);
    hide SendFailed, Requests;
    GatherExactlyOnce(run + path, 0);
    more := path;
  }

  lemma QuietHasRequest(s: State, r: nat)
    requires Quiet(s, r)
    ensures r < |s.slots|
  {
  }
}
