/** Scatter/gather with timeouts.  A request registers one callback per server with the
    resource manager; response threads and the timeout checker race to take the callbacks
    and run them.  A send that fails runs the callback too, without taking it from the
    table.  Every atomic or lock-protected action is one step, so a run is any interleaving
    of all threads. */
module Gather {
  import opened Common

  type ResourceId = nat

  /** What a callback is given: a server's index results in order.  Timeouts and failed
      executions carry none. */
  datatype Reply = Reply(results: seq<int>)

  /** The callback of one server of one request. */
  datatype Token = Token(req: nat, slot: nat)

  datatype Stage = ToWrite | ToFinish | ToAggregate

  /** A callback some thread is running, whether a failed send started it, and the action it
      takes next. */
  datatype Callback = Callback(token: Token, failed: bool, stage: Stage, reply: Reply)

  /** History of a callback, kept for the proofs only. */
  datatype Life = Unborn | Registered(id: ResourceId) | Active(stage: Stage, reply: Reply) | Gone(reply: Reply)

  /** `result` is the program's slot; the rest is history: of the callback taken from the
      table, `life`, and of the one a failed send started, `fail`. */
  datatype Slot = Slot(result: Option<Reply>, life: Life, fail: Life, handed: nat, deadline: Option<nat>)

  ghost function LifeOf(slot: Slot, failed: bool): Life {
    if failed then slot.fail else slot.life
  }

  ghost function WithLife(slot: Slot, failed: bool, life: Life): Slot {
    if failed then slot.(fail := life) else slot.(life := life)
  }

  /** Where the loop that registers a request's callbacks stands. */
  datatype Adding =
    | Next(slot: nat)
    | HaveId(slot: nat, id: ResourceId)
    | Inserted(slot: nat, id: ResourceId)
    | Stamped(slot: nat, id: ResourceId, expire: nat)
    | Listed(slot: nat, id: ResourceId)

  datatype Adder = Adder(timeout: nat, adding: Adding)

  /** A request's shared counter and the answers it has sent; `finishes`, the number of
      decrements, is history. */
  datatype Tally = Tally(unfinished: nat, sent: seq<seq<int>>, finishes: nat)

  /** A timer of the resource manager. */
  datatype Item = Item(id: ResourceId, token: Token, expire: nat)

  /** The checker: asleep, about to take the list lock, holding it, or running timeouts. */
  datatype Phase = Idle | Wanting | Collecting | Firing

  /** Request r owns slots[r], adders[r] and tallies[r]. */
  datatype State = State(
    slots: seq<seq<Slot>>, adders: seq<Adder>, tallies: seq<Tally>,
    nextId: nat, resources: map<ResourceId, Token>,
    list: seq<Item>, itemCount: nat,
    clock: nat, phase: Phase, expired: seq<Item>,
    running: multiset<Callback>)

  datatype Step =
    | NewRequest(servers: nat, timeout: nat)
    | TakeId(r: nat) | Insert(r: nat) | Stamp(r: nat) | Push(r: nat) | CountItem(r: nat) | NoTimer(r: nat)
    | Respond(id: ResourceId, reply: Reply)
    | Tick
    | Look | LockList | Pop | Unlock | Fire
    | FailSend(r: nat, slot: nat)
    | Write(cb: Callback) | Finish(cb: Callback) | Aggregate(cb: Callback)

  // ---- The steps ----

  ghost function Initial(): State {
    State([], [], [], 1, map[], [], 0, 0, Idle, [], multiset{})
  }

  ghost predicate ValidToken(slots: seq<seq<Slot>>, t: Token) {
    t.req < |slots| && t.slot < |slots[t.req]|
  }

  ghost function SlotOf(slots: seq<seq<Slot>>, t: Token): Slot
    requires ValidToken(slots, t)
  {
    slots[t.req][t.slot]
  }

  ghost function WithSlot(slots: seq<seq<Slot>>, t: Token, slot: Slot): (r: seq<seq<Slot>>)
    requires ValidToken(slots, t)
    ensures |r| == |slots| && forall q :: 0 <= q < |slots| ==> |r[q]| == |slots[q]|
    ensures forall u :: ValidToken(slots, u) ==> ValidToken(r, u) && SlotOf(r, u) == if u == t then slot else SlotOf(slots, u)
  {
    slots[t.req := slots[t.req][t.slot := slot]]
  }

  /** Atomic increment and decrement of a 32-bit counter. */
  ghost function Bump(n: nat): nat {
    if n == WORD - 1 then 0 else n + 1
  }

  ghost function Drop(n: nat): nat {
    if n == 0 then WORD - 1 else n - 1
  }

  lemma ModUp(x: int)
    ensures (x + 1) % WORD == Bump(x % WORD)
  {
  }

  lemma ModDown(x: int)
    ensures (x - 1) % WORD == Drop(x % WORD)
  {
  }

  /** GetAndRemove, and the start of the callback on the thread that got it. */
  ghost function HandOut(s: State, id: ResourceId, reply: Reply): State {
    if id !in s.resources || !ValidToken(s.slots, s.resources[id]) then s
    else
      var t := s.resources[id];
      var slot := SlotOf(s.slots, t);
      s.(slots := WithSlot(s.slots, t, slot.(handed := slot.handed + 1, life := Active(ToWrite, reply))),
         resources := s.resources - {id},
         running := s.running + multiset{Callback(t, false, ToWrite, reply)})
  }

  /** The merged results in server order. */
  ghost function Merge(slots: seq<Slot>): seq<int> {
    if slots == [] then []
    else Merge(slots[..|slots| - 1])
         + match slots[|slots| - 1].result { case None => [] case Some(reply) => reply.results }
  }

  ghost predicate AdderAt(s: State, r: nat) {
    r < |s.adders| == |s.slots|
  }

  ghost predicate Enabled(s: State, step: Step) {
    match step
    case NewRequest(servers, timeout) => servers < WORD
    case TakeId(r) => AdderAt(s, r) && s.adders[r].adding.Next? && s.adders[r].adding.slot < |s.slots[r]|
    case Insert(r) => AdderAt(s, r) && s.adders[r].adding.HaveId? && s.adders[r].adding.slot < |s.slots[r]|
    case Stamp(r) =>
      AdderAt(s, r) && s.adders[r].adding.Inserted? && s.adders[r].timeout > 0 && s.adders[r].adding.slot < |s.slots[r]|
    case NoTimer(r) => AdderAt(s, r) && s.adders[r].adding.Inserted? && s.adders[r].timeout == 0
    case Push(r) => AdderAt(s, r) && s.adders[r].adding.Stamped? && s.phase != Collecting
    case CountItem(r) => AdderAt(s, r) && s.adders[r].adding.Listed?
    case Respond(id, reply) => true
    case Tick => true
    case Look => s.phase.Idle? && s.itemCount > 0
    case LockList => s.phase.Wanting?
    case Pop => s.phase.Collecting? && s.list != [] && s.list[0].expire <= s.clock
    case Unlock => s.phase.Collecting? && (s.list == [] || s.list[0].expire > s.clock)
    case Fire => s.phase.Firing? && s.expired != []
    // The packet is sent after Add has returned, and fails at most once.
    case FailSend(r, slot) =>
      AdderAt(s, r) && slot < |s.slots[r]| && slot < s.adders[r].adding.slot && s.slots[r][slot].fail.Unborn?
    case Write(cb) => cb in s.running && cb.stage.ToWrite? && ValidToken(s.slots, cb.token)
    case Finish(cb) => cb in s.running && cb.stage.ToFinish? && ValidToken(s.slots, cb.token) && cb.token.req < |s.tallies|
    case Aggregate(cb) =>
      cb in s.running && cb.stage.ToAggregate? && ValidToken(s.slots, cb.token) && cb.token.req < |s.tallies|
  }

  ghost function WithAdding(s: State, r: nat, adding: Adding): State
    requires r < |s.adders|
  {
    s.(adders := s.adders[r := s.adders[r].(adding := adding)])
  }

  ghost function FreshSlots(n: nat): (slots: seq<Slot>)
    ensures |slots| == n && forall i :: 0 <= i < n ==> slots[i] == Slot(None, Unborn, Unborn, 0, None)
  {
    seq(n, _ => Slot(None, Unborn, Unborn, 0, None))
  }

  ghost function Take(s: State, step: Step): State
    requires Enabled(s, step)
  {
    match step
    case NewRequest(servers, timeout) =>
      s.(slots := s.slots + [FreshSlots(servers)], adders := s.adders + [Adder(timeout, Next(0))],
         tallies := s.tallies + [Tally(servers, [], 0)])
    case TakeId(r) =>
      // The invalid identifier 0 is skipped by taking another one.
      var adding := if s.nextId == 0 then s.adders[r].adding else HaveId(s.adders[r].adding.slot, s.nextId);
      WithAdding(s, r, adding).(nextId := Bump(s.nextId))
    case Insert(r) =>
      var id, t := s.adders[r].adding.id, Token(r, s.adders[r].adding.slot);
      // emplace leaves an existing entry in place.
      WithAdding(s, r, Inserted(t.slot, id))
      .(resources := if id in s.resources then s.resources else s.resources[id := t],
        slots := WithSlot(s.slots, t, SlotOf(s.slots, t).(life := Registered(id))))
    case Stamp(r) =>
      var id, t := s.adders[r].adding.id, Token(r, s.adders[r].adding.slot);
      var expire := s.clock + s.adders[r].timeout;
      WithAdding(s, r, Stamped(t.slot, id, expire))
      .(slots := WithSlot(s.slots, t, SlotOf(s.slots, t).(deadline := Some(expire))))
    case NoTimer(r) => WithAdding(s, r, Next(s.adders[r].adding.slot + 1))
    case Push(r) =>
      var a := s.adders[r].adding;
      WithAdding(s, r, Listed(a.slot, a.id)).(list := s.list + [Item(a.id, Token(r, a.slot), a.expire)])
    case CountItem(r) => WithAdding(s, r, Next(s.adders[r].adding.slot + 1)).(itemCount := Bump(s.itemCount))
    case Respond(id, reply) => HandOut(s, id, reply)
    case Tick => s.(clock := s.clock + 1)
    case Look => s.(phase := Wanting)
    case LockList => s.(phase := Collecting)
    case Pop => s.(list := s.list[1..], expired := s.expired + [s.list[0]], itemCount := Drop(s.itemCount))
    case Unlock => s.(phase := if s.expired == [] then Idle else Firing)
    case Fire =>
      HandOut(s, s.expired[0].id, Reply([]))
      .(expired := s.expired[1..], phase := if |s.expired| == 1 then Idle else Firing)
    case FailSend(r, i) =>
      var t := Token(r, i);
      s.(slots := WithSlot(s.slots, t, SlotOf(s.slots, t).(fail := Active(ToWrite, Reply([])))),
         running := s.running + multiset{Callback(t, true, ToWrite, Reply([]))})
    case Write(cb) =>
      var slot := SlotOf(s.slots, cb.token).(result := Some(cb.reply));
      s.(slots := WithSlot(s.slots, cb.token, WithLife(slot, cb.failed, Active(ToFinish, cb.reply))),
         running := s.running - multiset{cb} + multiset{cb.(stage := ToFinish)})
    case Finish(cb) =>
      var r, slot, tally := cb.token.req, SlotOf(s.slots, cb.token), s.tallies[cb.token.req];
      var last := tally.unfinished <= 1;
      s.(slots := WithSlot(s.slots, cb.token,
                           WithLife(slot, cb.failed, if last then Active(ToAggregate, cb.reply) else Gone(cb.reply))),
         tallies := s.tallies[r := tally.(unfinished := Drop(tally.unfinished), finishes := tally.finishes + 1)],
         running := s.running - multiset{cb}
                    + if last then multiset{cb.(stage := ToAggregate)} else multiset{})
    case Aggregate(cb) =>
      var r, slot, tally := cb.token.req, SlotOf(s.slots, cb.token), s.tallies[cb.token.req];
      s.(slots := WithSlot(s.slots, cb.token, WithLife(slot, cb.failed, Gone(cb.reply))),
         tallies := s.tallies[r := tally.(sent := tally.sent + [Merge(s.slots[r])])],
         running := s.running - multiset{cb})
  }

  /** An identifier still in use: in the table, in a timer, or held by an adder. */
  ghost predicate InUse(s: State, id: ResourceId) {
    || id in s.resources
    || (exists i :: 0 <= i < |s.list| && s.list[i].id == id)
    || (exists i :: 0 <= i < |s.expired| && s.expired[i].id == id)
    || (exists r :: 0 <= r < |s.adders| && Holds(s.adders[r], id))
  }

  ghost predicate Holds(a: Adder, id: ResourceId) {
    !a.adding.Next? && a.adding.id == id
  }

  /** The 32-bit identifier counter has not come round to one that is still in use. */
  ghost predicate NotWrapped(s: State, step: Step) {
    step.TakeId? ==> !InUse(s, s.nextId)
  }

  /** A run is a sequence of steps, each enabled where it is taken. */
  ghost predicate Legal(steps: seq<Step>) {
    steps == [] ||
    (var before := After(steps[..|steps| - 1]);
     Legal(steps[..|steps| - 1]) && Enabled(before, steps[|steps| - 1]) && NotWrapped(before, steps[|steps| - 1]))
  }

  ghost function After(steps: seq<Step>): State {
    if steps == [] then Initial()
    else
      var s := After(steps[..|steps| - 1]);
      if Enabled(s, steps[|steps| - 1]) then Take(s, steps[|steps| - 1]) else s
  }

  // ---- The invariant ----

  /** The callback has written its result. */
  ghost predicate Wrote(life: Life) {
    life.Gone? || (life.Active? && !life.stage.ToWrite?)
  }

  /** A slot agrees with its history, the table and the running callbacks. */
  ghost predicate SlotFine(slot: Slot, resources: map<ResourceId, Token>, running: multiset<Callback>, t: Token) {
    && (match slot.life
        case Unborn => slot.handed == 0 && slot.deadline == None && slot.fail.Unborn?
        case Registered(id) => slot.handed == 0 && id in resources && resources[id] == t
        case Active(stage, reply) => slot.handed == 1 && Callback(t, false, stage, reply) in running
        case Gone(_) => slot.handed == 1)
    && (match slot.fail
        case Unborn => true
        case Registered(_) => false
        case Active(stage, reply) => Callback(t, true, stage, reply) in running
        case Gone(_) => true)
    && (slot.result.Some? <==> Wrote(slot.life) || Wrote(slot.fail))
    && (slot.fail.Unborn? && Wrote(slot.life) ==> slot.result == Some(slot.life.reply))
  }

  ghost predicate SlotOk(slots: seq<seq<Slot>>, resources: map<ResourceId, Token>, running: multiset<Callback>, t: Token)
    requires ValidToken(slots, t)
  {
    SlotFine(SlotOf(slots, t), resources, running, t)
  }

  ghost predicate EntryOk(slots: seq<seq<Slot>>, resources: map<ResourceId, Token>, id: ResourceId)
    requires id in resources
  {
    ValidToken(slots, resources[id]) && SlotOf(slots, resources[id]).life == Registered(id)
  }

  ghost predicate CallbackOk(slots: seq<seq<Slot>>, running: multiset<Callback>, cb: Callback) {
    && running[cb] == 1 && ValidToken(slots, cb.token)
    && LifeOf(SlotOf(slots, cb.token), cb.failed) == Active(cb.stage, cb.reply)
  }

  ghost predicate Lives(slots: seq<seq<Slot>>, resources: map<ResourceId, Token>, running: multiset<Callback>) {
    && (forall t :: ValidToken(slots, t) ==> SlotOk(slots, resources, running, t))
    && (forall id :: id in resources ==> EntryOk(slots, resources, id))
    && (forall cb :: cb in running ==> CallbackOk(slots, running, cb))
  }

  ghost predicate Born(adding: Adding, i: nat) {
    i < adding.slot || (i == adding.slot && (adding.Inserted? || adding.Stamped? || adding.Listed?))
  }

  /** The registration loop has born exactly the slots it has passed. */
  ghost predicate Births(slots: seq<seq<Slot>>, adders: seq<Adder>) {
    && |slots| == |adders|
    && (forall r :: 0 <= r < |adders| ==>
          if adders[r].adding.Next? then adders[r].adding.slot <= |slots[r]| else adders[r].adding.slot < |slots[r]|)
    && (forall t :: ValidToken(slots, t) ==> (SlotOf(slots, t).life.Unborn? <==> !Born(adders[t.req].adding, t.slot)))
  }

  ghost predicate Finished(life: Life) {
    life.Gone? || (life.Active? && life.stage.ToAggregate?)
  }

  ghost predicate MergesNow(life: Life) {
    life.Active? && life.stage.ToAggregate?
  }

  ghost predicate Done(slot: Slot) { Finished(slot.life) }
  ghost predicate FailDone(slot: Slot) { Finished(slot.fail) }
  ghost predicate Merges(slot: Slot) { MergesNow(slot.life) }
  ghost predicate FailMerges(slot: Slot) { MergesNow(slot.fail) }
  ghost predicate Failed(slot: Slot) { !slot.fail.Unborn? }
  ghost predicate Handed(slot: Slot) { slot.handed == 1 }

  /** Callbacks of a request that have decremented its counter. */
  ghost function Ends(slots: seq<Slot>): nat {
    Count(slots, Done) + Count(slots, FailDone)
  }

  /** Callbacks of a request about to send an answer. */
  ghost function Merging(slots: seq<Slot>): nat {
    Count(slots, Merges) + Count(slots, FailMerges)
  }

  ghost predicate NoFailures(slots: seq<Slot>) {
    forall i :: 0 <= i < |slots| ==> !Failed(slots[i])
  }

  ghost predicate AllFinished(slots: seq<Slot>) {
    forall i :: 0 <= i < |slots| ==> Finished(slots[i].life)
  }

  /** The answers a request with `n` servers gives after `f` decrements of its counter: one
      when the counter gets to zero, and another when it goes past it. */
  ghost function Answers(n: nat, f: nat): nat {
    if n == 0 then 0 else (if f >= n then 1 else 0) + (if f >= n + 1 then 1 else 0)
  }

  /** The counter counts down modulo 2^32, and the answers sent or about to be sent are those
      its decrements call for. */
  ghost predicate TallyOk(slots: seq<Slot>, tally: Tally) {
    && |slots| < WORD && tally.finishes == Ends(slots)
    && tally.unfinished == (|slots| - tally.finishes) % WORD
    && |tally.sent| + Merging(slots) == Answers(|slots|, tally.finishes)
    && (NoFailures(slots) && tally.sent != [] ==> tally.sent[0] == Merge(slots))
  }

  ghost predicate Tallies(slots: seq<seq<Slot>>, tallies: seq<Tally>) {
    |slots| == |tallies| && forall r :: 0 <= r < |slots| ==> TallyOk(slots[r], tallies[r])
  }

  /** A timer points at its own callback, with the deadline it was registered with. */
  ghost predicate ItemOk(slots: seq<seq<Slot>>, resources: map<ResourceId, Token>, item: Item) {
    && ValidToken(slots, item.token) && SlotOf(slots, item.token).deadline == Some(item.expire)
    && (item.id in resources ==> resources[item.id] == item.token)
  }

  ghost predicate ItemsOk(slots: seq<seq<Slot>>, resources: map<ResourceId, Token>, items: seq<Item>) {
    forall i :: 0 <= i < |items| ==> ItemOk(slots, resources, items[i])
  }

  ghost predicate AllExpired(items: seq<Item>, clock: nat) {
    forall i :: 0 <= i < |items| ==> items[i].expire <= clock
  }

  ghost predicate Unlisted(items: seq<Item>, id: ResourceId) {
    forall i :: 0 <= i < |items| ==> items[i].id != id
  }

  /** What an adder holds: an unused identifier before insertion, its own entry after. */
  ghost predicate AdderOk(slots: seq<seq<Slot>>, resources: map<ResourceId, Token>, list: seq<Item>, expired: seq<Item>,
                          r: nat, adding: Adding)
  {
    match adding
    case Next(_) => true
    case HaveId(_, id) => id !in resources && Unlisted(list, id) && Unlisted(expired, id)
    case Inserted(slot, id) =>
      && (id in resources ==> resources[id] == Token(r, slot))
      && ValidToken(slots, Token(r, slot)) && SlotOf(slots, Token(r, slot)).deadline == None
    case Stamped(slot, id, expire) => ItemOk(slots, resources, Item(id, Token(r, slot), expire))
    case Listed(_, _) => true
  }

  ghost predicate Adders(slots: seq<seq<Slot>>, resources: map<ResourceId, Token>, list: seq<Item>, expired: seq<Item>,
                         adders: seq<Adder>)
  {
    && (forall r :: 0 <= r < |adders| ==> AdderOk(slots, resources, list, expired, r, adders[r].adding))
    && (forall r, q :: 0 <= r < q < |adders| && !adders[r].adding.Next? && !adders[q].adding.Next? ==>
          adders[r].adding.id != adders[q].adding.id)
  }

  ghost predicate IsListed(a: Adder) { a.adding.Listed? }

  /** Adders whose timer is listed but not counted yet. */
  ghost function Pending(adders: seq<Adder>): nat {
    Count(adders, IsListed)
  }

  /** Modulo 2^32 the item counter is the list length minus the increments still to come. */
  ghost predicate CounterOk(adders: seq<Adder>, list: seq<Item>, itemCount: nat) {
    itemCount == (|list| - Pending(adders)) % WORD
  }

  ghost predicate Inv(s: State) {
    && Lives(s.slots, s.resources, s.running)
    && Births(s.slots, s.adders)
    && Tallies(s.slots, s.tallies)
    && ItemsOk(s.slots, s.resources, s.list) && ItemsOk(s.slots, s.resources, s.expired)
    && AllExpired(s.expired, s.clock)
    && Adders(s.slots, s.resources, s.list, s.expired, s.adders)
    && CounterOk(s.adders, s.list, s.itemCount)
    && s.nextId < WORD
  }

  // ---- One slot changes ----

  lemma SlotFrame(slot: Slot, resources: map<ResourceId, Token>, running: multiset<Callback>,
                  resources': map<ResourceId, Token>, running': multiset<Callback>, t: Token, u: Token)
    requires SlotFine(slot, resources, running, u) && u != t
    requires forall id :: id in resources && resources[id] != t ==> id in resources' && resources'[id] == resources[id]
    requires forall cb: Callback :: cb.token != t ==> running'[cb] == running[cb]
    ensures SlotFine(slot, resources', running', u)
  {
  }

  /** If only the slot of `t` and what belongs to `t` change, consistency is checked at `t`. */
  lemma LivesAt(slots: seq<seq<Slot>>, resources: map<ResourceId, Token>, running: multiset<Callback>,
                t: Token, slot: Slot, resources': map<ResourceId, Token>, running': multiset<Callback>)
    requires Lives(slots, resources, running) && ValidToken(slots, t)
    requires forall id :: id in resources' && resources'[id] != t ==> id in resources && resources[id] == resources'[id]
    requires forall id :: id in resources && resources[id] != t ==> id in resources' && resources'[id] == resources[id]
    requires forall cb: Callback :: cb.token != t ==> running'[cb] == running[cb]
    requires SlotFine(slot, resources', running', t)
    requires forall id :: id in resources' && resources'[id] == t ==> slot.life == Registered(id)
    requires forall cb :: cb in running' && cb.token == t ==>
               running'[cb] == 1 && LifeOf(slot, cb.failed) == Active(cb.stage, cb.reply)
    ensures Lives(WithSlot(slots, t, slot), resources', running')
  {
    hide WithSlot, SlotFine;
    var now := WithSlot(slots, t, slot);
    forall u | ValidToken(now, u) ensures SlotOk(now, resources', running', u) {
      assert ValidToken(slots, u);
      if u != t {
        assert SlotOk(slots, resources, running, u);
        SlotFrame(SlotOf(slots, u), resources, running, resources', running', t, u);
      }
    }
    forall id | id in resources' ensures EntryOk(now, resources', id) {
      if resources'[id] != t {
        assert EntryOk(slots, resources, id);
      }
    }
    forall cb | cb in running' ensures CallbackOk(now, running', cb) {
      if cb.token != t {
        assert cb in running && CallbackOk(slots, running, cb);
      }
    }
  }

  lemma {:induction false} MergeAt(slots: seq<Slot>, i: nat, slot: Slot)
    requires i < |slots| && slot.result == slots[i].result
    ensures Merge(slots[i := slot]) == Merge(slots)
  {
    var n := |slots| - 1;
    if i < n {
      MergeAt(slots[..n], i, slot);
      assert slots[i := slot][..n] == slots[..n][i := slot];
    } else {
      assert slots[i := slot][..n] == slots[..n];
    }
  }

  lemma CountsAt(slots: seq<Slot>, i: nat, slot: Slot)
    requires i < |slots|
    ensures Ends(slots[i := slot]) == Ends(slots)
              - (if Done(slots[i]) then 1 else 0) + (if Done(slot) then 1 else 0)
              - (if FailDone(slots[i]) then 1 else 0) + (if FailDone(slot) then 1 else 0)
    ensures Merging(slots[i := slot]) == Merging(slots)
              - (if Merges(slots[i]) then 1 else 0) + (if Merges(slot) then 1 else 0)
              - (if FailMerges(slots[i]) then 1 else 0) + (if FailMerges(slot) then 1 else 0)
  {
    hide Count;
    CountUpdate(slots, i, slot, Done);
    CountUpdate(slots, i, slot, FailDone);
    CountUpdate(slots, i, slot, Merges);
    CountUpdate(slots, i, slot, FailMerges);
  }

  /** Without failures only the table's callbacks decrement. */
  lemma PlainEnds(slots: seq<Slot>)
    requires NoFailures(slots)
    ensures Ends(slots) <= |slots| && (Ends(slots) == |slots| <==> AllFinished(slots))
  {
    hide Count;
    CountBounds(slots, Done);
    CountBounds(slots, FailDone);
  }

  lemma EndsBound(slots: seq<Slot>)
    ensures Ends(slots) <= 2 * |slots|
  {
    hide Count;
    CountBounds(slots, Done);
    CountBounds(slots, FailDone);
  }

  /** A change that finishes nothing leaves the tally right. */
  lemma TallyKept(slots: seq<Slot>, i: nat, slot: Slot, tally: Tally)
    requires TallyOk(slots, tally) && i < |slots|
    requires Done(slot) == Done(slots[i]) && FailDone(slot) == FailDone(slots[i])
    requires Merges(slot) == Merges(slots[i]) && FailMerges(slot) == FailMerges(slots[i])
    requires || Failed(slot) || !Done(slot)
             || (slot.result == slots[i].result && Failed(slot) == Failed(slots[i]))
    ensures TallyOk(slots[i := slot], tally)
  {
    hide Merge, Ends, Merging;
    var now := slots[i := slot];
    CountsAt(slots, i, slot);
    if NoFailures(now) && tally.sent != [] {
      PlainEnds(now);
      assert AllFinished(now);
      assert Done(now[i]) && !Failed(now[i]);
      assert NoFailures(slots) by {
        forall k | 0 <= k < |slots| ensures !Failed(slots[k]) { assert !Failed(now[k]); }
      }
      MergeAt(slots, i, slot);
    }
  }

  lemma PendingAt(adders: seq<Adder>, r: nat, a: Adder)
    requires r < |adders|
    ensures Pending(adders[r := a])
         == Pending(adders) - (if adders[r].adding.Listed? then 1 else 0) + (if a.adding.Listed? then 1 else 0)
  {
    CountUpdate(adders, r, a, IsListed);
  }

  lemma TalliesAt(slots: seq<seq<Slot>>, tallies: seq<Tally>, t: Token, slot: Slot, tally: Tally)
    requires Tallies(slots, tallies) && ValidToken(slots, t)
    requires TallyOk(slots[t.req][t.slot := slot], tally)
    ensures Tallies(WithSlot(slots, t, slot), tallies[t.req := tally])
  {
    hide TallyOk;
  }

  lemma BirthsAt(slots: seq<seq<Slot>>, adders: seq<Adder>, t: Token, slot: Slot)
    requires Births(slots, adders) && ValidToken(slots, t)
    requires slot.life.Unborn? == SlotOf(slots, t).life.Unborn?
    ensures Births(WithSlot(slots, t, slot), adders)
  {
    hide WithSlot, Born;
    var now := WithSlot(slots, t, slot);
    forall u | ValidToken(now, u) ensures SlotOf(now, u).life.Unborn? <==> !Born(adders[u.req].adding, u.slot) {
      assert ValidToken(slots, u);
    }
  }

  ghost predicate Shrinks(now: map<ResourceId, Token>, was: map<ResourceId, Token>) {
    forall id :: id in now ==> id in was && was[id] == now[id]
  }

  lemma ItemsAt(slots: seq<seq<Slot>>, resources: map<ResourceId, Token>, items: seq<Item>,
                t: Token, slot: Slot, now: map<ResourceId, Token>)
    requires ItemsOk(slots, resources, items) && ValidToken(slots, t) && Shrinks(now, resources)
    requires SlotOf(slots, t).deadline == None || slot.deadline == SlotOf(slots, t).deadline
    ensures ItemsOk(WithSlot(slots, t, slot), now, items)
  {
    hide WithSlot;
    forall i | 0 <= i < |items| ensures ItemOk(WithSlot(slots, t, slot), now, items[i]) {
      assert ItemOk(slots, resources, items[i]);
    }
  }

  lemma AddersAt(slots: seq<seq<Slot>>, resources: map<ResourceId, Token>, list: seq<Item>, expired: seq<Item>,
                 adders: seq<Adder>, t: Token, slot: Slot, now: map<ResourceId, Token>)
    requires Adders(slots, resources, list, expired, adders) && ValidToken(slots, t) && Shrinks(now, resources)
    requires slot.deadline == SlotOf(slots, t).deadline
    ensures Adders(WithSlot(slots, t, slot), now, list, expired, adders)
  {
    hide WithSlot, Unlisted;
    forall r | 0 <= r < |adders|
      ensures AdderOk(WithSlot(slots, t, slot), now, list, expired, r, adders[r].adding)
    {
      assert AdderOk(slots, resources, list, expired, r, adders[r].adding);
    }
  }

  // ---- Every step keeps the invariant ----

  lemma KeepNewRequest(s: State, step: Step)
    requires Inv(s) && step.NewRequest? && Enabled(s, step)
    ensures Inv(Take(s, step))
  {
    hide Merge, Pending, AdderOk, Lives, Tallies, Births, ItemsOk;
    var n := Take(s, step);
    NewSlots(s.slots, s.resources, s.running, step.servers);
    NewBirths(s.slots, s.adders, step.servers, step.timeout);
    NewTally(s.slots, s.tallies, step.servers);
    NewItems(s.slots, s.resources, s.list, step.servers);
    NewItems(s.slots, s.resources, s.expired, step.servers);
    NewAdder(s, step.servers, step.timeout);
    PendingNew(s.adders, Adder(step.timeout, Next(0)));
  }

  lemma NewSlots(slots: seq<seq<Slot>>, resources: map<ResourceId, Token>, running: multiset<Callback>, servers: nat)
    requires Lives(slots, resources, running)
    ensures Lives(slots + [FreshSlots(servers)], resources, running)
  {
    var now := slots + [FreshSlots(servers)];
    forall t | ValidToken(now, t) ensures SlotOk(now, resources, running, t) {
      if t.req < |slots| {
        assert ValidToken(slots, t);
        assert SlotOk(slots, resources, running, t);
      }
    }
  }

  lemma NewBirths(slots: seq<seq<Slot>>, adders: seq<Adder>, servers: nat, timeout: nat)
    requires Births(slots, adders)
    ensures Births(slots + [FreshSlots(servers)], adders + [Adder(timeout, Next(0))])
  {
    var now, more := slots + [FreshSlots(servers)], adders + [Adder(timeout, Next(0))];
    forall t | ValidToken(now, t) ensures SlotOf(now, t).life.Unborn? <==> !Born(more[t.req].adding, t.slot) {
      if t.req < |slots| {
        assert ValidToken(slots, t);
      }
    }
  }

  lemma NewTally(slots: seq<seq<Slot>>, tallies: seq<Tally>, servers: nat)
    requires Tallies(slots, tallies) && servers < WORD
    ensures Tallies(slots + [FreshSlots(servers)], tallies + [Tally(servers, [], 0)])
  {
    hide Merge, Count;
    CountBounds(FreshSlots(servers), Done);
    CountBounds(FreshSlots(servers), FailDone);
    CountBounds(FreshSlots(servers), Merges);
    CountBounds(FreshSlots(servers), FailMerges);
    TallyStarts(servers);
  }

  lemma TallyStarts(servers: nat)
    requires servers < WORD
    ensures (servers - 0) % WORD == servers && Answers(servers, 0) == 0
  {
  }

  lemma NewItems(slots: seq<seq<Slot>>, resources: map<ResourceId, Token>, items: seq<Item>, servers: nat)
    requires ItemsOk(slots, resources, items)
    ensures ItemsOk(slots + [FreshSlots(servers)], resources, items)
  {
    forall i | 0 <= i < |items| ensures ItemOk(slots + [FreshSlots(servers)], resources, items[i]) {
      assert ItemOk(slots, resources, items[i]);
    }
  }

  lemma NewAdder(s: State, servers: nat, timeout: nat)
    requires Adders(s.slots, s.resources, s.list, s.expired, s.adders)
    ensures Adders(s.slots + [FreshSlots(servers)], s.resources, s.list, s.expired, s.adders + [Adder(timeout, Next(0))])
  {
    hide Unlisted;
    var now, more := s.slots + [FreshSlots(servers)], s.adders + [Adder(timeout, Next(0))];
    forall r | 0 <= r < |more| ensures AdderOk(now, s.resources, s.list, s.expired, r, more[r].adding) {
      if r < |s.adders| {
        assert AdderOk(s.slots, s.resources, s.list, s.expired, r, s.adders[r].adding);
      }
    }
  }

  lemma PendingNew(adders: seq<Adder>, a: Adder)
    ensures Pending(adders + [a]) == Pending(adders) + if a.adding.Listed? then 1 else 0
  {
    CountAppend(adders, a, IsListed);
  }

  lemma KeepTakeId(s: State, step: Step)
    requires Inv(s) && step.TakeId? && Enabled(s, step) && NotWrapped(s, step)
    ensures Inv(Take(s, step))
  {
    hide Pending, Lives, Tallies, ItemsOk;
    PendingAt(s.adders, step.r, Take(s, step).adders[step.r]);
  }

  lemma KeepNoTimer(s: State, step: Step)
    requires Inv(s) && step.NoTimer? && Enabled(s, step)
    ensures Inv(Take(s, step))
  {
    hide Pending, Lives, Tallies, ItemsOk;
    PendingAt(s.adders, step.r, Take(s, step).adders[step.r]);
  }

  lemma KeepPush(s: State, step: Step)
    requires Inv(s) && step.Push? && Enabled(s, step)
    ensures Inv(Take(s, step))
  {
    hide Pending, Lives, Tallies;
    assert AdderOk(s.slots, s.resources, s.list, s.expired, step.r, s.adders[step.r].adding);
    PendingAt(s.adders, step.r, Take(s, step).adders[step.r]);
  }

  lemma KeepCountItem(s: State, step: Step)
    requires Inv(s) && step.CountItem? && Enabled(s, step)
    ensures Inv(Take(s, step))
  {
    hide Pending, Lives, Tallies, ItemsOk;
    PendingAt(s.adders, step.r, Take(s, step).adders[step.r]);
    ModUp(|s.list| - Pending(s.adders));
  }

  /** Registering: the slot of the adder is unborn, and becomes the entry's owner. */
  lemma InsertFacts(s: State, r: nat)
    requires Inv(s) && AdderAt(s, r) && s.adders[r].adding.HaveId?
    ensures var a := s.adders[r].adding;
            var t := Token(r, a.slot);
            && ValidToken(s.slots, t) && SlotOf(s.slots, t).life.Unborn? && SlotOf(s.slots, t).deadline == None
            && a.id !in s.resources && Unlisted(s.list, a.id) && Unlisted(s.expired, a.id)
            && Lives(WithSlot(s.slots, t, SlotOf(s.slots, t).(life := Registered(a.id))), s.resources[a.id := t], s.running)
  {
    hide WithSlot, Tallies, ItemsOk, Unlisted, CounterOk;
    var a := s.adders[r].adding;
    var t := Token(r, a.slot);
    assert ValidToken(s.slots, t) && SlotOk(s.slots, s.resources, s.running, t);
    assert AdderOk(s.slots, s.resources, s.list, s.expired, r, a);
    assert forall id :: id in s.resources ==> EntryOk(s.slots, s.resources, id);
    assert forall cb :: cb in s.running ==> CallbackOk(s.slots, s.running, cb);
    LivesAt(s.slots, s.resources, s.running, t, SlotOf(s.slots, t).(life := Registered(a.id)), s.resources[a.id := t], s.running);
  }

  lemma KeepInsert(s: State, step: Step)
    requires Inv(s) && step.Insert? && Enabled(s, step)
    ensures Inv(Take(s, step))
  {
    hide Pending, Tallies, Unlisted, WithSlot, Lives, ItemsOk;
    var n, a := Take(s, step), s.adders[step.r].adding;
    var t := Token(step.r, a.slot);
    InsertFacts(s, step.r);
    var slot := SlotOf(s.slots, t).(life := Registered(a.id));
    InsertTally(s, t, slot);
    PendingAt(s.adders, step.r, n.adders[step.r]);
    InsertTimers(s, t, slot, a.id);
  }

  lemma InsertTally(s: State, t: Token, slot: Slot)
    requires Inv(s) && ValidToken(s.slots, t) && SlotOf(s.slots, t).life.Unborn?
    requires slot == SlotOf(s.slots, t).(life := slot.life) && slot.life.Registered?
    ensures Tallies(WithSlot(s.slots, t, slot), s.tallies)
  {
    hide TallyOk, Lives;
    TallyKept(s.slots[t.req], t.slot, slot, s.tallies[t.req]);
    TalliesAt(s.slots, s.tallies, t, slot, s.tallies[t.req]);
    assert s.tallies[t.req := s.tallies[t.req]] == s.tallies;
  }

  /** A new entry under an identifier no timer uses cannot confuse a timer. */
  lemma InsertTimers(s: State, t: Token, slot: Slot, id: ResourceId)
    requires Inv(s) && ValidToken(s.slots, t) && SlotOf(s.slots, t).deadline == None
    requires id !in s.resources && Unlisted(s.list, id) && Unlisted(s.expired, id)
    ensures ItemsOk(WithSlot(s.slots, t, slot), s.resources[id := t], s.list)
    ensures ItemsOk(WithSlot(s.slots, t, slot), s.resources[id := t], s.expired)
  {
    hide Lives, Tallies, WithSlot;
  }

  lemma StampFacts(s: State, r: nat, expire: nat)
    requires Inv(s) && AdderAt(s, r) && s.adders[r].adding.Inserted?
    ensures var t := Token(r, s.adders[r].adding.slot);
            && ValidToken(s.slots, t) && SlotOf(s.slots, t).deadline == None
            && Lives(WithSlot(s.slots, t, SlotOf(s.slots, t).(deadline := Some(expire))), s.resources, s.running)
  {
    hide WithSlot, Tallies, ItemsOk, Unlisted, CounterOk;
    var t := Token(r, s.adders[r].adding.slot);
    assert ValidToken(s.slots, t) && SlotOk(s.slots, s.resources, s.running, t);
    assert AdderOk(s.slots, s.resources, s.list, s.expired, r, s.adders[r].adding);
    assert forall id :: id in s.resources ==> EntryOk(s.slots, s.resources, id);
    assert forall cb :: cb in s.running ==> CallbackOk(s.slots, s.running, cb);
    LivesAt(s.slots, s.resources, s.running, t, SlotOf(s.slots, t).(deadline := Some(expire)), s.resources, s.running);
  }

  lemma KeepStamp(s: State, step: Step)
    requires Inv(s) && step.Stamp? && Enabled(s, step)
    ensures Inv(Take(s, step))
  {
    hide Pending, Tallies, Unlisted, WithSlot, Lives, ItemsOk;
    var n := Take(s, step);
    var t, expire := Token(step.r, s.adders[step.r].adding.slot), s.clock + s.adders[step.r].timeout;
    StampFacts(s, step.r, expire);
    var slot := SlotOf(s.slots, t).(deadline := Some(expire));
    SameTally(s, t, slot);
    ItemsAt(s.slots, s.resources, s.list, t, slot, s.resources);
    ItemsAt(s.slots, s.resources, s.expired, t, slot, s.resources);
    PendingAt(s.adders, step.r, n.adders[step.r]);
  }

  lemma SameTally(s: State, t: Token, slot: Slot)
    requires Inv(s) && ValidToken(s.slots, t)
    requires slot == SlotOf(s.slots, t).(deadline := slot.deadline)
    ensures Tallies(WithSlot(s.slots, t, slot), s.tallies)
  {
    hide TallyOk, Lives;
    TallyKept(s.slots[t.req], t.slot, slot, s.tallies[t.req]);
    TalliesAt(s.slots, s.tallies, t, slot, s.tallies[t.req]);
    assert s.tallies[t.req := s.tallies[t.req]] == s.tallies;
  }

  /** Changing one slot's life between registered and finished keeps everything else. */
  lemma KeepSlotMove(s: State, t: Token, slot: Slot, resources: map<ResourceId, Token>, running: multiset<Callback>, tally: Tally)
    requires Inv(s) && ValidToken(s.slots, t)
    requires Lives(WithSlot(s.slots, t, slot), resources, running)
    requires TallyOk(s.slots[t.req][t.slot := slot], tally)
    requires !SlotOf(s.slots, t).life.Unborn? && !slot.life.Unborn?
    requires slot.deadline == SlotOf(s.slots, t).deadline && Shrinks(resources, s.resources)
    ensures |s.tallies| == |s.slots|
    ensures Inv(s.(slots := WithSlot(s.slots, t, slot), resources := resources, running := running,
                   tallies := s.tallies[t.req := tally]))
  {
    hide TallyOk, WithSlot, Lives, SlotOf;
    TalliesAt(s.slots, s.tallies, t, slot, tally);
    BirthsAt(s.slots, s.adders, t, slot);
    ItemsAt(s.slots, s.resources, s.list, t, slot, resources);
    ItemsAt(s.slots, s.resources, s.expired, t, slot, resources);
    AddersAt(s.slots, s.resources, s.list, s.expired, s.adders, t, slot, resources);
  }

  lemma HandOutFacts(s: State, id: ResourceId, reply: Reply)
    requires Inv(s) && id in s.resources
    ensures var t := s.resources[id];
            && ValidToken(s.slots, t) && SlotOf(s.slots, t).life == Registered(id) && SlotOf(s.slots, t).handed == 0
            && Lives(WithSlot(s.slots, t, SlotOf(s.slots, t).(handed := 1, life := Active(ToWrite, reply))),
                     s.resources - {id}, s.running + multiset{Callback(t, false, ToWrite, reply)})
  {
    hide WithSlot, Tallies, ItemsOk, Adders, CounterOk, Births;
    var t := s.resources[id];
    assert EntryOk(s.slots, s.resources, id);
    assert SlotOk(s.slots, s.resources, s.running, t);
    assert forall other :: other in s.resources ==> EntryOk(s.slots, s.resources, other);
    assert forall cb :: cb in s.running ==> CallbackOk(s.slots, s.running, cb);
    LivesAt(s.slots, s.resources, s.running, t, SlotOf(s.slots, t).(handed := 1, life := Active(ToWrite, reply)),
            s.resources - {id}, s.running + multiset{Callback(t, false, ToWrite, reply)});
  }

  lemma KeepHandOut(s: State, id: ResourceId, reply: Reply)
    requires Inv(s)
    ensures Inv(HandOut(s, id, reply))
  {
    hide WithSlot, TallyOk, Lives, ItemsOk, Adders, CounterOk, Births;
    if id in s.resources {
      var n, t := HandOut(s, id, reply), s.resources[id];
      HandOutFacts(s, id, reply);
      var slot := SlotOf(s.slots, t).(handed := 1, life := Active(ToWrite, reply));
      TallyKept(s.slots[t.req], t.slot, slot, s.tallies[t.req]);
      KeepSlotMove(s, t, slot, n.resources, n.running, s.tallies[t.req]);
      assert s.tallies[t.req := s.tallies[t.req]] == s.tallies;
    }
  }

  lemma KeepFire(s: State, step: Step)
    requires Inv(s) && step.Fire? && Enabled(s, step)
    ensures Inv(Take(s, step))
  {
    hide Merge, Pending, HandOut, Lives, Births, Tallies, SlotOf;
    KeepHandOut(s, s.expired[0].id, Reply([]));
    HandOutFrame(s, s.expired[0].id, Reply([]));
  }

  lemma HandOutFrame(s: State, id: ResourceId, reply: Reply)
    ensures var n := HandOut(s, id, reply);
            && n.expired == s.expired && n.list == s.list && n.clock == s.clock && n.adders == s.adders
            && n.itemCount == s.itemCount && n.nextId == s.nextId && n.tallies == s.tallies
  {
  }

  /** Steps of the clock and of the checker that only look. */
  lemma KeepChecker(s: State, step: Step)
    requires Inv(s) && (step.Tick? || step.Look? || step.LockList? || step.Unlock?) && Enabled(s, step)
    ensures Inv(Take(s, step))
  {
    hide Lives, Births, Tallies, ItemsOk, Adders, CounterOk;
  }

  lemma KeepPop(s: State, step: Step)
    requires Inv(s) && step.Pop? && Enabled(s, step)
    ensures Inv(Take(s, step))
  {
    hide Lives, Births, Tallies, CounterOk, ItemOk;
    PopCounter(s.adders, s.list, s.itemCount);
    PopAdders(s.slots, s.resources, s.list, s.expired, s.adders);
  }

  lemma PopCounter(adders: seq<Adder>, list: seq<Item>, itemCount: nat)
    requires CounterOk(adders, list, itemCount) && list != []
    ensures CounterOk(adders, list[1..], Drop(itemCount))
  {
    hide Pending;
    ModDown(|list| - Pending(adders));
  }

  lemma PopAdders(slots: seq<seq<Slot>>, resources: map<ResourceId, Token>, list: seq<Item>, expired: seq<Item>,
                  adders: seq<Adder>)
    requires Adders(slots, resources, list, expired, adders) && list != []
    ensures Adders(slots, resources, list[1..], expired + [list[0]], adders)
  {
    hide ItemOk;
    forall r | 0 <= r < |adders| ensures AdderOk(slots, resources, list[1..], expired + [list[0]], r, adders[r].adding) {
      assert AdderOk(slots, resources, list, expired, r, adders[r].adding);
    }
  }

  /** A failed send starts a second callback for the slot. */
  lemma FailFacts(s: State, t: Token)
    requires Inv(s) && ValidToken(s.slots, t) && SlotOf(s.slots, t).fail.Unborn? && !SlotOf(s.slots, t).life.Unborn?
    ensures Lives(WithSlot(s.slots, t, SlotOf(s.slots, t).(fail := Active(ToWrite, Reply([])))), s.resources,
                  s.running + multiset{Callback(t, true, ToWrite, Reply([]))})
  {
    hide WithSlot, Tallies, ItemsOk, Adders, CounterOk, Births;
    assert SlotOk(s.slots, s.resources, s.running, t);
    assert forall id :: id in s.resources ==> EntryOk(s.slots, s.resources, id);
    assert forall cb :: cb in s.running ==> CallbackOk(s.slots, s.running, cb);
    LivesAt(s.slots, s.resources, s.running, t, SlotOf(s.slots, t).(fail := Active(ToWrite, Reply([]))), s.resources,
            s.running + multiset{Callback(t, true, ToWrite, Reply([]))});
  }

  lemma KeepFailSend(s: State, step: Step)
    requires Inv(s) && step.FailSend? && Enabled(s, step)
    ensures Inv(Take(s, step))
  {
    hide WithSlot, TallyOk, Lives, ItemsOk, Adders, CounterOk;
    var n, t := Take(s, step), Token(step.r, step.slot);
    assert ValidToken(s.slots, t) && !SlotOf(s.slots, t).life.Unborn?;
    hide Births;
    FailFacts(s, t);
    var slot := SlotOf(s.slots, t).(fail := Active(ToWrite, Reply([])));
    TallyKept(s.slots[t.req], t.slot, slot, s.tallies[t.req]);
    KeepSlotMove(s, t, slot, s.resources, n.running, s.tallies[t.req]);
    assert s.tallies[t.req := s.tallies[t.req]] == s.tallies;
  }

  /** A running callback moves to its next stage, or ends. */
  lemma CallbackMoves(s: State, cb: Callback, result: Option<Reply>, life: Life, running: multiset<Callback>)
    requires Inv(s) && cb in s.running && ValidToken(s.slots, cb.token)
    requires || (life == Gone(cb.reply) && running == s.running - multiset{cb})
             || (life.Active? && life.reply == cb.reply && !life.stage.ToWrite?
                 && running == s.running - multiset{cb} + multiset{cb.(stage := life.stage)})
    requires if cb.stage.ToWrite? then result == Some(cb.reply) else result == SlotOf(s.slots, cb.token).result
    ensures Lives(WithSlot(s.slots, cb.token, WithLife(SlotOf(s.slots, cb.token).(result := result), cb.failed, life)),
                  s.resources, running)
  {
    hide WithSlot, Tallies, ItemsOk, Adders, CounterOk, Births;
    assert CallbackOk(s.slots, s.running, cb);
    assert SlotOk(s.slots, s.resources, s.running, cb.token);
    OnlyCallback(s, cb);
    MovedFine(SlotOf(s.slots, cb.token), cb, result, life, s.resources, s.running, running);
    hide SlotFine;
    LivesAt(s.slots, s.resources, s.running, cb.token,
            WithLife(SlotOf(s.slots, cb.token).(result := result), cb.failed, life), s.resources, running);
  }

  lemma MovedFine(slot: Slot, cb: Callback, result: Option<Reply>, life: Life, resources: map<ResourceId, Token>,
                  running: multiset<Callback>, running': multiset<Callback>)
    requires SlotFine(slot, resources, running, cb.token) && LifeOf(slot, cb.failed) == Active(cb.stage, cb.reply)
    requires || (life == Gone(cb.reply) && running' == running - multiset{cb})
             || (life.Active? && life.reply == cb.reply && !life.stage.ToWrite?
                 && running' == running - multiset{cb} + multiset{cb.(stage := life.stage)})
    requires if cb.stage.ToWrite? then result == Some(cb.reply) else result == slot.result
    ensures SlotFine(WithLife(slot.(result := result), cb.failed, life), resources, running', cb.token)
  {
  }

  lemma CallbackSlot(s: State, cb: Callback)
    requires Inv(s) && cb in s.running
    ensures ValidToken(s.slots, cb.token) && LifeOf(SlotOf(s.slots, cb.token), cb.failed) == Active(cb.stage, cb.reply)
    ensures !SlotOf(s.slots, cb.token).life.Unborn?
    ensures |s.tallies| == |s.slots| && TallyOk(s.slots[cb.token.req], s.tallies[cb.token.req])
  {
    hide ItemsOk, Adders, CounterOk, Births, TallyOk;
    assert CallbackOk(s.slots, s.running, cb);
    assert SlotOk(s.slots, s.resources, s.running, cb.token);
  }

  lemma KeepWrite(s: State, step: Step)
    requires Inv(s) && step.Write? && Enabled(s, step)
    ensures Inv(Take(s, step))
  {
    hide WithSlot, TallyOk, Lives, ItemsOk, Adders, CounterOk, Births;
    var n, cb, t := Take(s, step), step.cb, step.cb.token;
    CallbackSlot(s, cb);
    var slot := WithLife(SlotOf(s.slots, t).(result := Some(cb.reply)), cb.failed, Active(ToFinish, cb.reply));
    CallbackMoves(s, cb, Some(cb.reply), Active(ToFinish, cb.reply), n.running);
    TallyKept(s.slots[t.req], t.slot, slot, s.tallies[t.req]);
    KeepSlotMove(s, t, slot, s.resources, n.running, s.tallies[t.req]);
    assert s.tallies[t.req := s.tallies[t.req]] == s.tallies;
  }

  /** The counter test: it succeeds for the decrement that ends at zero and for the next one. */
  lemma LastTest(n: nat, f: nat)
    requires 1 <= n < WORD && f < 2 * n
    ensures (n - f) % WORD <= 1 <==> f == n - 1 || f == n
    ensures Answers(n, f + 1) == Answers(n, f) + if (n - f) % WORD <= 1 then 1 else 0
  {
    if f <= n {
      assert (n - f) % WORD == n - f;
    } else {
      assert (n - f) % WORD == n - f + WORD;
    }
  }

  /** A decrement: the counter stays right modulo 2^32, and an answer becomes due when it should. */
  lemma FinishTally(slots: seq<Slot>, i: nat, failed: bool, tally: Tally, reply: Reply)
    requires TallyOk(slots, tally) && i < |slots| && LifeOf(slots[i], failed) == Active(ToFinish, reply)
    ensures var last := tally.unfinished <= 1;
            var slot := WithLife(slots[i], failed, if last then Active(ToAggregate, reply) else Gone(reply));
            TallyOk(slots[i := slot], tally.(unfinished := Drop(tally.unfinished), finishes := tally.finishes + 1))
  {
    hide Merge, Ends, Merging;
    var last := tally.unfinished <= 1;
    var slot := WithLife(slots[i], failed, if last then Active(ToAggregate, reply) else Gone(reply));
    var now := slots[i := slot];
    CountsAt(slots, i, slot);
    EndsBound(now);
    LastTest(|slots|, tally.finishes);
    ModDown(|slots| - tally.finishes);
    SameMerge(slots, i, slot);
  }

  /** A slot whose result and failures stay does not disturb what was sent. */
  lemma SameMerge(slots: seq<Slot>, i: nat, slot: Slot)
    requires i < |slots| && slot.result == slots[i].result && Failed(slot) == Failed(slots[i])
    ensures NoFailures(slots[i := slot]) <==> NoFailures(slots)
    ensures Merge(slots[i := slot]) == Merge(slots)
  {
    hide Merge;
    var now := slots[i := slot];
    assert forall k :: 0 <= k < |slots| ==> Failed(now[k]) == Failed(slots[k]);
    MergeAt(slots, i, slot);
  }

  lemma KeepFinish(s: State, step: Step)
    requires Inv(s) && step.Finish? && Enabled(s, step)
    ensures Inv(Take(s, step))
  {
    hide WithSlot, TallyOk, Lives, ItemsOk, Adders, CounterOk, Births;
    var n, cb, t := Take(s, step), step.cb, step.cb.token;
    CallbackSlot(s, cb);
    var tally, was := s.tallies[t.req], SlotOf(s.slots, t);
    var life := if tally.unfinished <= 1 then Active(ToAggregate, cb.reply) else Gone(cb.reply);
    var slot := WithLife(was, cb.failed, life);
    CallbackMoves(s, cb, was.result, life, n.running);
    assert was.(result := was.result) == was;
    FinishTally(s.slots[t.req], t.slot, cb.failed, tally, cb.reply);
    KeepSlotMove(s, t, slot, s.resources, n.running, n.tallies[t.req]);
  }

  /** Sending an answer that was due. */
  lemma AggregateTally(slots: seq<Slot>, i: nat, failed: bool, tally: Tally, reply: Reply)
    requires TallyOk(slots, tally) && i < |slots| && LifeOf(slots[i], failed) == Active(ToAggregate, reply)
    ensures TallyOk(slots[i := WithLife(slots[i], failed, Gone(reply))], tally.(sent := tally.sent + [Merge(slots)]))
  {
    hide Merge, Ends, Merging, NoFailures, Answers;
    var slot := WithLife(slots[i], failed, Gone(reply));
    CountsAt(slots, i, slot);
    SameMerge(slots, i, slot);
  }

  lemma KeepAggregate(s: State, step: Step)
    requires Inv(s) && step.Aggregate? && Enabled(s, step)
    ensures Inv(Take(s, step))
  {
    hide WithSlot, TallyOk, Lives, ItemsOk, Adders, CounterOk, Births, Merge;
    var n, cb, t := Take(s, step), step.cb, step.cb.token;
    CallbackSlot(s, cb);
    var was := SlotOf(s.slots, t);
    CallbackMoves(s, cb, was.result, Gone(cb.reply), n.running);
    assert was.(result := was.result) == was;
    AggregateTally(s.slots[t.req], t.slot, cb.failed, s.tallies[t.req], cb.reply);
    KeepSlotMove(s, t, WithLife(was, cb.failed, Gone(cb.reply)), s.resources, n.running, n.tallies[t.req]);
  }

  /** At most one callback of each kind runs for a slot. */
  lemma OnlyCallback(s: State, cb: Callback)
    requires Inv(s) && cb in s.running
    ensures forall other :: other in s.running && other.token == cb.token && other.failed == cb.failed ==> other == cb
    ensures forall other :: other in s.running && other.token == cb.token ==>
              s.running[other] == 1 && LifeOf(SlotOf(s.slots, cb.token), other.failed) == Active(other.stage, other.reply)
    ensures forall id :: id in s.resources && s.resources[id] == cb.token ==> SlotOf(s.slots, cb.token).life == Registered(id)
  {
    assert CallbackOk(s.slots, s.running, cb);
    forall other | other in s.running && other.token == cb.token
      ensures s.running[other] == 1 && LifeOf(SlotOf(s.slots, cb.token), other.failed) == Active(other.stage, other.reply)
    {
      assert CallbackOk(s.slots, s.running, other);
    }
    forall id | id in s.resources && s.resources[id] == cb.token
      ensures SlotOf(s.slots, cb.token).life == Registered(id)
    {
      assert EntryOk(s.slots, s.resources, id);
    }
  }

  lemma StepKeeps(s: State, step: Step)
    requires Inv(s) && Enabled(s, step) && NotWrapped(s, step)
    ensures Inv(Take(s, step))
  {
    hide Inv, Take, Enabled, NotWrapped;
    match step
    case NewRequest(_, _) => KeepNewRequest(s, step);
    case TakeId(_) => KeepTakeId(s, step);
    case Insert(_) => KeepInsert(s, step);
    case Stamp(_) => KeepStamp(s, step);
    case NoTimer(_) => KeepNoTimer(s, step);
    case Push(_) => KeepPush(s, step);
    case CountItem(_) => KeepCountItem(s, step);
    case Respond(id, reply) => KeepRespond(s, step);
    case Tick => KeepChecker(s, step);
    case Look => KeepChecker(s, step);
    case LockList => KeepChecker(s, step);
    case FailSend(_, _) => KeepFailSend(s, step);
    case Pop => KeepPop(s, step);
    case Unlock => KeepChecker(s, step);
    case Fire => KeepFire(s, step);
    case Write(_) => KeepWrite(s, step);
    case Finish(_) => KeepFinish(s, step);
    case Aggregate(_) => KeepAggregate(s, step);
  }

  lemma KeepRespond(s: State, step: Step)
    requires Inv(s) && step.Respond? && Enabled(s, step)
    ensures Inv(Take(s, step))
  {
    hide Inv, HandOut;
    KeepHandOut(s, step.id, step.reply);
  }

  method AppendResults(merged: seq<int>, results: seq<int>) returns (r: seq<int>)
    ensures r == merged + results
  {
    r := merged;
    var j := 0;
    while j < |results|
      invariant 0 <= j <= |results| && r == merged + results[..j]
    {
      r := r + [results[j]];
      j := j + 1;
    }
    assert results[..j] == results;
  }

  /** The two loops of the merge: size first, then every written slot in server order. */
  method AggregateResults(slots: seq<Slot>) returns (merged: seq<int>, resultNum: nat)
    ensures merged == Merge(slots)
    ensures resultNum == |merged|
  {
    hide Merge;
    MergeEmpty();
    resultNum := 0;
    var i := 0;
    assert slots[..0] == [];
    while i < |slots|
      invariant 0 <= i <= |slots| && resultNum == |Merge(slots[..i])|
    {
      MergeNext(slots, i);
      if slots[i].result.Some? {
        resultNum := resultNum + |slots[i].result.value.results|;
      }
      i := i + 1;
    }
    assert slots[..i] == slots;
    merged := [];
    i := 0;
    while i < |slots|
      invariant 0 <= i <= |slots| && merged == Merge(slots[..i])
    {
      MergeNext(slots, i);
      if slots[i].result.Some? {
        merged := AppendResults(merged, slots[i].result.value.results);
      }
      i := i + 1;
    }
    assert slots[..i] == slots;
  }

  lemma MergeEmpty()
    ensures Merge([]) == []
  {
  }

  lemma MergeNext(slots: seq<Slot>, i: nat)
    requires i < |slots|
    ensures Merge(slots[..i + 1])
         == Merge(slots[..i]) + match slots[i].result { case None => [] case Some(reply) => reply.results }
  {
    assert slots[..i + 1][..i] == slots[..i];
  }

  // ---- Runs too short to wrap the identifier counter ----

  ghost predicate Below(items: seq<Item>, n: nat) {
    forall i :: 0 <= i < |items| ==> items[i].id < n
  }

  /** Every identifier in use was issued before the next one. */
  ghost predicate IdsIssued(s: State) {
    && (forall id :: id in s.resources ==> id < s.nextId)
    && Below(s.list, s.nextId) && Below(s.expired, s.nextId)
    && (forall r :: 0 <= r < |s.adders| && !s.adders[r].adding.Next? ==> s.adders[r].adding.id < s.nextId)
  }

  lemma IssuedIsUnused(s: State)
    requires IdsIssued(s)
    ensures !InUse(s, s.nextId)
  {
  }

  lemma IssueAdding(s: State, step: Step)
    requires IdsIssued(s) && 1 <= s.nextId < WORD - 1 && Enabled(s, step)
    requires step.TakeId? || step.Insert? || step.Stamp? || step.NoTimer? || step.Push? || step.CountItem?
    ensures IdsIssued(Take(s, step))
    ensures Take(s, step).nextId == if step.TakeId? then s.nextId + 1 else s.nextId
  {
    hide WithSlot, Merge, SlotOf;
  }

  lemma IssueOther(s: State, step: Step)
    requires IdsIssued(s) && Enabled(s, step)
    requires !(step.TakeId? || step.Insert? || step.Stamp? || step.NoTimer? || step.Push? || step.CountItem?)
    ensures IdsIssued(Take(s, step)) && Take(s, step).nextId == s.nextId
  {
    hide WithSlot, Merge, SlotOf, FreshSlots, Bump;
  }

  lemma IssueStep(s: State, step: Step)
    requires IdsIssued(s) && 1 <= s.nextId < WORD - 1 && Enabled(s, step)
    ensures IdsIssued(Take(s, step))
    ensures Take(s, step).nextId == if step.TakeId? then s.nextId + 1 else s.nextId
  {
    hide Take, IdsIssued, Enabled;
    if step.TakeId? || step.Insert? || step.Stamp? || step.NoTimer? || step.Push? || step.CountItem? {
      IssueAdding(s, step);
    } else {
      IssueOther(s, step);
    }
  }

  ghost function IdsTaken(steps: seq<Step>): nat {
    if steps == [] then 0 else IdsTaken(steps[..|steps| - 1]) + if steps[|steps| - 1].TakeId? then 1 else 0
  }

  ghost predicate AllEnabled(steps: seq<Step>) {
    steps == [] ||
    (AllEnabled(steps[..|steps| - 1]) && Enabled(After(steps[..|steps| - 1]), steps[|steps| - 1]))
  }

  /** A run that takes fewer than 2^32 - 3 identifiers never meets one that is in use, so
      the theorems below hold for it without a condition. */
  lemma {:induction false} ShortRunsAreLegal(steps: seq<Step>)
    requires AllEnabled(steps) && IdsTaken(steps) < WORD - 3
    ensures Legal(steps)
    ensures IdsIssued(After(steps)) && After(steps).nextId == 1 + IdsTaken(steps)
  {
    hide Take, Enabled, InUse, IdsIssued;
    if steps == [] {
      NothingIssued();
    } else {
      var before := steps[..|steps| - 1];
      ShortRunsAreLegal(before);
      IssuedIsUnused(After(before));
      IssueStep(After(before), steps[|steps| - 1]);
    }
  }

  lemma NothingIssued()
    ensures IdsIssued(Initial()) && Initial().nextId == 1
  {
  }

  // ---- Theorems over every run ----

  lemma {:induction false} RunKeeps(steps: seq<Step>)
    requires Legal(steps)
    ensures Inv(After(steps))
  {
    hide Inv, Take, Enabled, NotWrapped;
    if steps == [] {
      InitialOk();
    } else {
      RunKeeps(steps[..|steps| - 1]);
      StepKeeps(After(steps[..|steps| - 1]), steps[|steps| - 1]);
    }
  }

  lemma InitialOk()
    ensures Inv(Initial())
  {
  }

  // ---- The run read off its steps ----

  /** The reply a step gives to a callback: a response's own when the table has the callback under its identifier, none of
      the results when a timeout takes it. */
  ghost function GivenNow(s: State, step: Step, t: Token): Option<seq<int>> {
    match step
    case Respond(id, reply) => if id in s.resources && s.resources[id] == t then Some(reply.results) else None
    case Fire =>
      if s.expired != [] && s.expired[0].id in s.resources && s.resources[s.expired[0].id] == t then Some([]) else None
    case _ => None
  }

  /** The reply the steps of a run gave to a callback. */
  ghost function Given(steps: seq<Step>, t: Token): Option<seq<int>> {
    if steps == [] then None
    else
      var now := GivenNow(After(steps[..|steps| - 1]), steps[|steps| - 1], t);
      if now.Some? then now else Given(steps[..|steps| - 1], t)
  }

  /** How many steps gave it one. */
  ghost function TimesGiven(steps: seq<Step>, t: Token): nat {
    if steps == [] then 0
    else TimesGiven(steps[..|steps| - 1], t)
         + if GivenNow(After(steps[..|steps| - 1]), steps[|steps| - 1], t).Some? then 1 else 0
  }

  /** The replies given to the first n callbacks of a request, in server order. */
  ghost function Replies(steps: seq<Step>, r: nat, n: nat): seq<int> {
    if n == 0 then []
    else Replies(steps, r, n - 1) + match Given(steps, Token(r, n - 1)) { case None => [] case Some(results) => results }
  }

  /** Some send of the request failed. */
  ghost predicate SendFailed(steps: seq<Step>, r: nat) {
    exists i: int, slot: nat :: 0 <= i < |steps| && steps[i] == FailSend(r, slot)
  }

  ghost predicate SlotFailed(steps: seq<Step>, t: Token) {
    FailSend(t.req, t.slot) in steps
  }

  /** The requests of a run with their numbers of servers and timeouts, in the order they came. */
  ghost function Requests(steps: seq<Step>): seq<(nat, nat)> {
    if steps == [] then []
    else
      var rest, last := Requests(steps[..|steps| - 1]), steps[|steps| - 1];
      if last.NewRequest? then rest + [(last.servers, last.timeout)] else rest
  }

  ghost function Ticks(steps: seq<Step>): nat {
    if steps == [] then 0 else Ticks(steps[..|steps| - 1]) + if steps[|steps| - 1].Tick? then 1 else 0
  }

  ghost predicate StampsNow(s: State, step: Step, t: Token) {
    step == Stamp(t.req) && t.req < |s.adders| && s.adders[t.req].adding.slot == t.slot
  }

  /** The ticks before the step that stamped a callback's timer. */
  ghost function StampedAt(steps: seq<Step>, t: Token): Option<nat> {
    if steps == [] then None
    else if StampsNow(After(steps[..|steps| - 1]), steps[|steps| - 1], t) then Some(Ticks(steps[..|steps| - 1]))
    else StampedAt(steps[..|steps| - 1], t)
  }

  ghost function ReplyOf(slot: Slot): Option<seq<int>> {
    match slot.life
    case Active(_, reply) => Some(reply.results)
    case Gone(reply) => Some(reply.results)
    case _ => None
  }

  /** What a step does to a slot. */
  ghost predicate SlotMoves(s: State, step: Step, n: State, t: Token)
    requires ValidToken(s.slots, t) && ValidToken(n.slots, t)
  {
    var a, b, now := SlotOf(s.slots, t), SlotOf(n.slots, t), GivenNow(s, step, t);
    && ReplyOf(b) == (if now.Some? then now else ReplyOf(a))
    && b.handed == a.handed + (if now.Some? then 1 else 0)
    && (Failed(b) <==> Failed(a) || step == FailSend(t.req, t.slot))
    && b.deadline == (if StampsNow(s, step, t) then Some(s.clock + s.adders[t.req].timeout) else a.deadline)
  }

  /** Only a new request adds slots. */
  ghost predicate SameShape(a: seq<seq<Slot>>, b: seq<seq<Slot>>) {
    |a| == |b| && forall r :: 0 <= r < |a| ==> |a[r]| == |b[r]|
  }

  lemma HandOutMoves(s: State, step: Step, id: ResourceId, reply: Reply, t: Token)
    requires Inv(s) && Enabled(s, step) && ValidToken(s.slots, t)
    requires step == Respond(id, reply) || (step.Fire? && id == s.expired[0].id && reply == Reply([]))
    ensures SameShape(s.slots, HandOut(s, id, reply).slots)
    ensures ValidToken(HandOut(s, id, reply).slots, t) && SlotMoves(s, step, HandOut(s, id, reply), t)
  {
    hide WithSlot, Inv, Lives, SlotOf;
    if id in s.resources {
      HandOutFacts(s, id, reply);
    }
  }

  lemma CallbackStepMoves(s: State, step: Step, t: Token)
    requires Inv(s) && Enabled(s, step) && ValidToken(s.slots, t) && (step.Write? || step.Finish? || step.Aggregate?)
    ensures SameShape(s.slots, Take(s, step).slots)
    ensures ValidToken(Take(s, step).slots, t) && SlotMoves(s, step, Take(s, step), t)
  {
    hide WithSlot, Inv, Merge, TallyOk, Drop, SlotOf;
    CallbackSlot(s, step.cb);
  }

  lemma AdderStepMoves(s: State, step: Step, t: Token)
    requires Inv(s) && Enabled(s, step) && ValidToken(s.slots, t)
    requires step.TakeId? || step.Insert? || step.Stamp? || step.NoTimer? || step.Push? || step.CountItem?
    ensures SameShape(s.slots, Take(s, step).slots)
    ensures ValidToken(Take(s, step).slots, t) && SlotMoves(s, step, Take(s, step), t)
  {
    hide WithSlot, Inv, Bump, Lives, Unlisted, SlotOf;
    if step.Insert? {
      InsertFacts(s, step.r);
    }
  }

  lemma OtherStepMoves(s: State, step: Step, t: Token)
    requires Inv(s) && Enabled(s, step) && ValidToken(s.slots, t)
    requires step.Tick? || step.Look? || step.LockList? || step.Pop? || step.Unlock? || step.FailSend? || step.NewRequest?
    ensures ValidToken(Take(s, step).slots, t) && SlotMoves(s, step, Take(s, step), t)
    ensures !step.NewRequest? ==> SameShape(s.slots, Take(s, step).slots)
  {
    hide WithSlot, Inv, FreshSlots;
  }

  lemma StepMoves(s: State, step: Step, t: Token)
    requires Inv(s) && Enabled(s, step) && ValidToken(s.slots, t)
    ensures ValidToken(Take(s, step).slots, t) && SlotMoves(s, step, Take(s, step), t)
  {
    hide Inv, Enabled, SlotMoves, HandOut, SameShape;
    if step.Respond? {
      HandOutMoves(s, step, step.id, step.reply, t);
    } else if step.Fire? {
      FireMoves(s, step, t);
    } else if step.Write? || step.Finish? || step.Aggregate? {
      CallbackStepMoves(s, step, t);
    } else if step.TakeId? || step.Insert? || step.Stamp? || step.NoTimer? || step.Push? || step.CountItem? {
      AdderStepMoves(s, step, t);
    } else {
      OtherStepMoves(s, step, t);
    }
  }

  lemma FireMoves(s: State, step: Step, t: Token)
    requires Inv(s) && Enabled(s, step) && ValidToken(s.slots, t) && step.Fire?
    ensures ValidToken(Take(s, step).slots, t) && SlotMoves(s, step, Take(s, step), t)
  {
    hide Inv, HandOut, WithSlot;
    HandOutMoves(s, step, s.expired[0].id, Reply([]), t);
  }

  /** The requests a state knows, with their servers and timeouts. */
  ghost predicate Shape(s: State, requests: seq<(nat, nat)>) {
    && |s.slots| == |s.adders| == |requests|
    && forall r :: 0 <= r < |requests| ==> |s.slots[r]| == requests[r].0 && s.adders[r].timeout == requests[r].1
  }

  lemma StepShape(s: State, step: Step, requests: seq<(nat, nat)>)
    requires Enabled(s, step) && Shape(s, requests)
    ensures Shape(Take(s, step), if step.NewRequest? then requests + [(step.servers, step.timeout)] else requests)
    ensures Take(s, step).clock == s.clock + if step.Tick? then 1 else 0
  {
    if step.Respond? {
      hide HandOut;
      HandOutShape(s, step.id, step.reply);
    } else if step.Fire? {
      hide HandOut;
      HandOutShape(s, s.expired[0].id, Reply([]));
    } else if step.NewRequest? {
      NewShape(s, step, requests);
    } else {
      hide Shape, Enabled, Take;
      OneSlotShape(s, step, requests);
    }
  }

  lemma OneSlotShape(s: State, step: Step, requests: seq<(nat, nat)>)
    requires Enabled(s, step) && Shape(s, requests) && !step.NewRequest? && !step.Respond? && !step.Fire?
    ensures Shape(Take(s, step), requests) && Take(s, step).clock == s.clock + if step.Tick? then 1 else 0
  {
    hide WithSlot, SlotOf, Merge, Drop, Bump, FreshSlots, HandOut;
  }

  lemma NewShape(s: State, step: Step, requests: seq<(nat, nat)>)
    requires Enabled(s, step) && Shape(s, requests) && step.NewRequest?
    ensures Shape(Take(s, step), requests + [(step.servers, step.timeout)])
  {
  }

  lemma HandOutShape(s: State, id: ResourceId, reply: Reply)
    ensures var n := HandOut(s, id, reply); SameShape(s.slots, n.slots) && n.adders == s.adders && n.clock == s.clock
  {
    hide WithSlot, SlotOf;
  }

  /** In every run the state's requests are those its steps brought, and the clock counts the ticks. */
  lemma {:induction false} RunShape(steps: seq<Step>)
    requires Legal(steps)
    ensures Shape(After(steps), Requests(steps)) && After(steps).clock == Ticks(steps)
  {
    hide Shape, Take, Enabled, NotWrapped;
    if steps == [] {
      assert Shape(Initial(), []) by { StartShape(); }
    } else {
      RunShape(steps[..|steps| - 1]);
      StepShape(After(steps[..|steps| - 1]), steps[|steps| - 1], Requests(steps[..|steps| - 1]));
    }
  }

  lemma StartShape()
    ensures Shape(Initial(), []) && Initial().clock == 0
  {
  }

  /** No step gives, fails or stamps a callback that does not exist. */
  lemma StepUnborn(s: State, step: Step, t: Token)
    requires Inv(s) && Enabled(s, step) && !ValidToken(s.slots, t)
    ensures GivenNow(s, step, t) == None && step != FailSend(t.req, t.slot) && !StampsNow(s, step, t)
  {
    hide Births, Tallies, ItemsOk, Adders, CounterOk, SlotOk, CallbackOk;
    if step.Respond? && step.id in s.resources {
      assert EntryOk(s.slots, s.resources, step.id);
    } else if step.Fire? && s.expired[0].id in s.resources {
      assert EntryOk(s.slots, s.resources, s.expired[0].id);
    }
  }

  lemma StepKeepsToken(s: State, step: Step, requests: seq<(nat, nat)>, t: Token)
    requires Enabled(s, step) && Shape(s, requests)
    ensures ValidToken(s.slots, t) ==> ValidToken(Take(s, step).slots, t)
  {
    hide Take, Enabled;
    StepShape(s, step, requests);
  }

  ghost predicate NothingYet(steps: seq<Step>, t: Token) {
    Given(steps, t) == None && TimesGiven(steps, t) == 0 && !SlotFailed(steps, t) && StampedAt(steps, t) == None
  }

  lemma {:induction false} BeforeBirth(steps: seq<Step>, t: Token)
    requires Legal(steps) && !ValidToken(After(steps).slots, t)
    ensures NothingYet(steps, t)
  {
    hide Take, Enabled, NotWrapped, Inv, Shape, GivenNow, StampsNow, ValidToken;
    if steps != [] {
      var before, step := steps[..|steps| - 1], steps[|steps| - 1];
      RunShape(before);
      RunKeeps(before);
      StepKeepsToken(After(before), step, Requests(before), t);
      BeforeBirth(before, t);
      StepUnborn(After(before), step, t);
      assert steps == before + [step];
    }
  }

  /** A slot's history agrees with the steps of the run. */
  ghost predicate AsRun(steps: seq<Step>, slot: Slot, t: Token, timeout: nat) {
    && ReplyOf(slot) == Given(steps, t) && slot.handed == TimesGiven(steps, t)
    && (Failed(slot) <==> SlotFailed(steps, t))
    && slot.deadline == match StampedAt(steps, t) { case None => None case Some(at) => Some(at + timeout) }
  }

  lemma AsRunStep(before: seq<Step>, step: Step, t: Token, n: State, timeout: nat)
    requires After(before).clock == Ticks(before) && ValidToken(After(before).slots, t) && ValidToken(n.slots, t)
    requires t.req < |After(before).adders| && After(before).adders[t.req].timeout == timeout
    requires AsRun(before, SlotOf(After(before).slots, t), t, timeout) && SlotMoves(After(before), step, n, t)
    ensures AsRun(before + [step], SlotOf(n.slots, t), t, timeout)
  {
    hide After, GivenNow, ReplyOf;
    assert (before + [step])[..|before|] == before;
  }

  lemma AsRunFresh(before: seq<Step>, step: Step, t: Token, servers: nat, timeout: nat)
    requires step == NewRequest(servers, timeout) && NothingYet(before, t)
    ensures AsRun(before + [step], Slot(None, Unborn, Unborn, 0, None), t, timeout)
  {
    hide After;
    assert (before + [step])[..|before|] == before;
  }

  /** Every callback's history is the one the steps tell. */
  lemma {:induction false} HistoryIsRun(steps: seq<Step>, t: Token)
    requires Legal(steps) && ValidToken(After(steps).slots, t)
    ensures t.req < |Requests(steps)| && AsRun(steps, SlotOf(After(steps).slots, t), t, Requests(steps)[t.req].1)
  {
    hide Enabled, NotWrapped, Inv, AsRun, SlotMoves, Take, Legal, After;
    LastStep(steps, t);
    var before, step := steps[..|steps| - 1], steps[|steps| - 1];
    RunShape(before);
    RunKeeps(before);
    RunShape(steps);
    assert steps == before + [step];
    var s := After(before);
    if ValidToken(s.slots, t) {
      HistoryIsRun(before, t);
      StepMoves(s, step, t);
      AsRunStep(before, step, t, After(steps), Requests(steps)[t.req].1);
    } else {
      BeforeBirth(before, t);
      FreshToken(s, step, t, Requests(before));
      AsRunFresh(before, step, t, step.servers, step.timeout);
    }
  }

  /** A run with a callback has a last step. */
  lemma LastStep(steps: seq<Step>, t: Token)
    requires Legal(steps) && ValidToken(After(steps).slots, t)
    ensures steps != [] && Legal(steps[..|steps| - 1]) && Enabled(After(steps[..|steps| - 1]), steps[|steps| - 1])
    ensures After(steps) == Take(After(steps[..|steps| - 1]), steps[|steps| - 1])
  {
    hide Enabled, Take, NotWrapped;
  }

  lemma ShapeDecides(s: State, n: State, requests: seq<(nat, nat)>, t: Token)
    requires Shape(s, requests)
    ensures Shape(n, requests) ==> (ValidToken(s.slots, t) <==> ValidToken(n.slots, t))
  {
  }

  lemma FreshToken(s: State, step: Step, t: Token, requests: seq<(nat, nat)>)
    requires Enabled(s, step) && Shape(s, requests) && !ValidToken(s.slots, t) && ValidToken(Take(s, step).slots, t)
    ensures step.NewRequest? && t.req == |requests| && SlotOf(Take(s, step).slots, t) == Slot(None, Unborn, Unborn, 0, None)
  {
    hide Enabled;
    StepShape(s, step, requests);
    ShapeDecides(s, Take(s, step), requests, t);
  }

  /** Resource hand-out: in every run at most one step, a response or a timeout, gives a callback its reply, and the item
      counter is the list length minus the increments still to come, modulo 2^32. */
  lemma HandedOutOnce(steps: seq<Step>, t: Token)
    requires Legal(steps)
    ensures TimesGiven(steps, t) <= 1
    ensures ValidToken(After(steps).slots, t) ==> SlotOf(After(steps).slots, t).handed == TimesGiven(steps, t)
    ensures var s := After(steps); s.itemCount == (|s.list| - Pending(s.adders)) % WORD
  {
    hide After, Legal, TimesGiven;
    RunKeeps(steps);
    var s := After(steps);
    if ValidToken(s.slots, t) {
      assert SlotOk(s.slots, s.resources, s.running, t);
      HistoryIsRun(steps, t);
    } else {
      BeforeBirth(steps, t);
    }
  }

  /** No timeout takes a callback before its request's timeout has passed since the step that stamped its timer. */
  lemma NoEarlyTimeout(steps: seq<Step>)
    requires Legal(steps) && Enabled(After(steps), Fire) && After(steps).expired[0].id in After(steps).resources
    ensures var t := After(steps).resources[After(steps).expired[0].id];
            && t.req < |Requests(steps)| && StampedAt(steps, t).Some?
            && StampedAt(steps, t).value + Requests(steps)[t.req].1 <= Ticks(steps)
  {
    hide After, Legal, StampedAt, Requests, Ticks;
    RunKeeps(steps);
    RunShape(steps);
    var s := After(steps);
    assert ItemOk(s.slots, s.resources, s.expired[0]);
    HistoryIsRun(steps, s.resources[s.expired[0].id]);
  }

  /** A slot's reply, once its callback was handed one. */
  ghost function Delivered(slot: Slot): seq<int> {
    match slot.life
    case Active(_, reply) => reply.results
    case Gone(reply) => reply.results
    case _ => []
  }

  ghost function InOrder(slots: seq<Slot>): seq<int> {
    if slots == [] then [] else InOrder(slots[..|slots| - 1]) + Delivered(slots[|slots| - 1])
  }

  lemma {:induction false} MergeIsInOrder(slots: seq<Slot>)
    requires forall i :: 0 <= i < |slots| ==>
               Finished(slots[i].life) && slots[i].result.Some? && Delivered(slots[i]) == slots[i].result.value.results
    ensures Merge(slots) == InOrder(slots)
  {
    if slots != [] {
      MergeIsInOrder(slots[..|slots| - 1]);
    }
  }

  /** The counter of every request, in every run: after `finishes` decrements it is n - finishes modulo 2^32, and the
      answers sent or about to be sent are one if there were at least n decrements and one more if there were more. */
  lemma DecrementsDecide(steps: seq<Step>, r: nat)
    requires Legal(steps) && r < |After(steps).slots|
    ensures var s := After(steps);
            && |s.tallies| == |s.slots|
            && s.tallies[r].unfinished == (|s.slots[r]| - s.tallies[r].finishes) % WORD
            && |s.tallies[r].sent| + Merging(s.slots[r]) == Answers(|s.slots[r]|, s.tallies[r].finishes)
            && s.tallies[r].finishes == Ends(s.slots[r])
  {
    hide After, Legal, Merge;
    RunKeeps(steps);
    var s := After(steps);
    assert TallyOk(s.slots[r], s.tallies[r]);
  }

  lemma {:induction false} InOrderIsReplies(steps: seq<Step>, r: nat, slots: seq<Slot>)
    requires forall i :: 0 <= i < |slots| ==> ReplyOf(slots[i]) == Given(steps, Token(r, i))
    ensures InOrder(slots) == Replies(steps, r, |slots|)
  {
    hide Given;
    if slots != [] {
      InOrderIsReplies(steps, r, slots[..|slots| - 1]);
    }
  }

  /** What a request's slots hold is what the steps gave its callbacks, and its failures are failed sends of the run. */
  lemma RequestIsRun(steps: seq<Step>, r: nat)
    requires Legal(steps) && r < |Requests(steps)|
    ensures |Requests(steps)| == |After(steps).slots| && Requests(steps)[r].0 == |After(steps).slots[r]|
    ensures InOrder(After(steps).slots[r]) == Replies(steps, r, Requests(steps)[r].0)
    ensures NoFailures(After(steps).slots[r]) <==> !SendFailed(steps, r)
    ensures forall i :: 0 <= i < |After(steps).slots[r]| ==> ReplyOf(After(steps).slots[r][i]) == Given(steps, Token(r, i))
  {
    hide After, Legal, Given, TimesGiven, StampedAt, Requests, Ticks, InOrder;
    RunShape(steps);
    var slots := After(steps).slots[r];
    forall i | 0 <= i < |slots|
      ensures ReplyOf(slots[i]) == Given(steps, Token(r, i)) && (Failed(slots[i]) <==> SlotFailed(steps, Token(r, i)))
    {
      HistoryIsRun(steps, Token(r, i));
    }
    InOrderIsReplies(steps, r, slots);
    FailuresOfRequest(steps, r);
  }

  lemma FailuresOfRequest(steps: seq<Step>, r: nat)
    requires Legal(steps) && r < |After(steps).slots|
    requires forall i :: 0 <= i < |After(steps).slots[r]| ==>
               (Failed(After(steps).slots[r][i]) <==> SlotFailed(steps, Token(r, i)))
    ensures NoFailures(After(steps).slots[r]) <==> !SendFailed(steps, r)
  {
    hide After, Legal, Failed;
    var slots := After(steps).slots[r];
    if SendFailed(steps, r) {
      var i: int, slot: nat :| 0 <= i < |steps| && steps[i] == FailSend(r, slot);
      assert SlotFailed(steps, Token(r, slot));
      if slot >= |slots| { BeforeBirth(steps, Token(r, slot)); }
      assert Failed(slots[slot]);
    }
    if !NoFailures(slots) {
      var i :| 0 <= i < |slots| && Failed(slots[i]);
      assert FailSend(r, i) in steps;
    }
  }

  /** A request none of whose sends failed: an answer is sent at most once, after every callback was given its reply, and
      is the replies the steps of the run gave them, concatenated in server order. */
  lemma SentOnceInOrder(steps: seq<Step>, r: nat)
    requires Legal(steps) && r < |Requests(steps)| && !SendFailed(steps, r)
    ensures var s, n := After(steps), Requests(steps)[r].0;
            && r < |s.tallies| && |s.tallies[r].sent| <= 1
            && (s.tallies[r].sent != [] ==>
                  && n > 0 && (forall i :: 0 <= i < n ==> Given(steps, Token(r, i)).Some?)
                  && s.tallies[r].sent == [Replies(steps, r, n)])
  {
    hide After, Legal, Merging, Ends, Given, Replies, Requests, SendFailed, InOrder;
    RunKeeps(steps);
    RequestIsRun(steps, r);
    var s := After(steps);
    assert TallyOk(s.slots[r], s.tallies[r]);
    PlainEnds(s.slots[r]);
    WrittenWhenFinished(s, r);
  }

  lemma WrittenWhenFinished(s: State, r: nat)
    requires Inv(s) && r < |s.slots| && NoFailures(s.slots[r])
    ensures AllFinished(s.slots[r]) ==>
              && (forall i :: 0 <= i < |s.slots[r]| ==> s.slots[r][i].result.Some?)
              && Merge(s.slots[r]) == InOrder(s.slots[r])
  {
    hide TallyOk, Merge, InOrder;
    if AllFinished(s.slots[r]) {
      var slots := s.slots[r];
      forall i | 0 <= i < |slots|
        ensures slots[i].result.Some? && Delivered(slots[i]) == slots[i].result.value.results
      {
        assert SlotOf(s.slots, Token(r, i)) == slots[i] && !Failed(slots[i]);
        assert SlotOk(s.slots, s.resources, s.running, Token(r, i));
      }
      MergeIsInOrder(slots);
    }
  }

  /** A request with all callbacks registered and none running. */
  ghost predicate Still(s: State, r: nat) {
    && r < |s.slots| == |s.adders|
    && s.adders[r].adding == Next(|s.slots[r]|)
    && (forall cb :: cb in s.running ==> cb.token.req != r)
  }

  /** A request with nothing left to happen: still, and nothing waiting in the table. */
  ghost predicate Quiet(s: State, r: nat) {
    Still(s, r) && forall id :: id in s.resources ==> s.resources[id].req != r
  }

  /** A request that is still has sent the answers that its handed-out and failed callbacks call for. */
  lemma StillAnswers(s: State, r: nat)
    requires Inv(s) && Still(s, r)
    ensures |s.tallies| == |s.slots|
    ensures |s.tallies[r].sent| == Answers(|s.slots[r]|, Count(s.slots[r], Handed) + Count(s.slots[r], Failed))
  {
    hide Merge, Count, Births, ItemsOk, Adders, CounterOk, InOrder;
    var slots := s.slots[r];
    assert TallyOk(slots, s.tallies[r]);
    forall i | 0 <= i < |slots|
      ensures Done(slots[i]) == Handed(slots[i]) && FailDone(slots[i]) == Failed(slots[i])
      ensures !Merges(slots[i]) && !FailMerges(slots[i])
    {
      StillSlot(s, r, i);
    }
    CountBounds(slots, Merges);
    CountBounds(slots, FailMerges);
    SameCount(slots, Done, Handed);
    SameCount(slots, FailDone, Failed);
  }

  lemma SameCount(slots: seq<Slot>, p: Slot -> bool, q: Slot -> bool)
    requires forall i :: 0 <= i < |slots| ==> p(slots[i]) == q(slots[i])
    ensures Count(slots, p) == Count(slots, q)
  {
    CountMonotone(slots, p, q);
    CountMonotone(slots, q, p);
  }

  lemma StillSlot(s: State, r: nat, i: nat)
    requires Inv(s) && Still(s, r) && i < |s.slots[r]|
    ensures var slot := s.slots[r][i];
            && Done(slot) == Handed(slot) && FailDone(slot) == Failed(slot) && !Merges(slot) && !FailMerges(slot)
            && (slot.life.Registered? || slot.life.Gone?)
            && (slot.life.Registered? ==> slot.life.id in s.resources && s.resources[slot.life.id] == Token(r, i))
  {
    hide Merge, TallyOk, ItemsOk, Adders, CounterOk;
    var t := Token(r, i);
    assert ValidToken(s.slots, t) && SlotOf(s.slots, t) == s.slots[r][i];
    assert SlotOk(s.slots, s.resources, s.running, t);
  }

  /** Gather exactly once: a request with at least one server that has come to rest has sent exactly one answer if and
      only if none of its sends failed, and then every callback was given its reply and the answer is those replies in
      server order; otherwise it has sent two.  A request without servers sends nothing. */
  lemma GatherExactlyOnce(steps: seq<Step>, r: nat)
    requires Legal(steps) && r < |Requests(steps)| && Quiet(After(steps), r)
    ensures var s, n := After(steps), Requests(steps)[r].0;
            && r < |s.tallies|
            && |s.tallies[r].sent| == (if n == 0 then 0 else if SendFailed(steps, r) then 2 else 1)
            && (forall i :: 0 <= i < n ==> Given(steps, Token(r, i)).Some?)
            && (n > 0 && !SendFailed(steps, r) ==> s.tallies[r].sent == [Replies(steps, r, n)])
  {
    hide After, Legal, InOrder, Merge, Count, Given, Replies, Requests, SendFailed;
    RunKeeps(steps);
    RequestIsRun(steps, r);
    var s := After(steps);
    var slots := s.slots[r];
    StillAnswers(s, r);
    forall i | 0 <= i < |slots| ensures Handed(slots[i]) && Done(slots[i]) && Given(steps, Token(r, i)).Some? {
      StillSlot(s, r, i);
    }
    CountBounds(slots, Handed);
    CountBounds(slots, Failed);
    if NoFailures(slots) {
      WrittenWhenFinished(s, r);
      assert TallyOk(slots, s.tallies[r]);
    }
  }
}
