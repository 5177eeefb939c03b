// `send_bulk`: sequential preparation, then submission bounded by a semaphore, in any schedule
// (api/send_bulk.rs). The messages run as handlers of `Lifecycle`, next to everything else.
module BulkSend {
  import opened Prelude
  import opened Statuses
  import opened MemoryStores
  import opened MemoryRuns
  import opened Handlers
  import opened Lifecycle

  datatype MessageResult = MessageResult(index: nat, requestId: Id, reply: Reply)

  // Where a message is: not yet through phase one; rejected there; spawned and waiting for a
  // permit; holding one; done and waiting to be joined; joined.
  datatype Slot = Todo | TurnedBack | Waiting | Holding | Ended | Joined

  datatype BulkState = BulkState(
    sys: System, owner: KeyId, ttlSeconds: nat, bulkConcurrency: nat, ids: seq<Id>,
    cursor: nat, slots: seq<Slot>, prepared: nat, rejected: seq<MessageResult>, submitted: seq<MessageResult>)

  datatype BulkStep =
    | Begin
    | Prepare(choice: Choice, victim: Id)
    | Push
    | Acquire(i: nat)
    | Work(i: nat, choice: Choice, victim: Id)
    | Release(i: nat)
    | Join(i: nat)
    | Other(event: Event)

  predicate InPhaseOne(b: BulkState) {
    b.cursor < |b.ids|
  }

  // Permits of the semaphore: 0 configured means one per prepared message.
  function Permits(b: BulkState): nat {
    if b.bulkConcurrency == 0 then Max(b.prepared, 1) else b.bulkConcurrency
  }

  // The messages phase one has handed to phase two.
  function HandedOver(slots: seq<Slot>): set<nat> {
    set i: nat | i < |slots| && !slots[i].Todo? && !slots[i].TurnedBack? :: i
  }

  function HeldBy(slots: seq<Slot>): set<nat> {
    set i: nat | i < |slots| && slots[i].Holding? :: i
  }

  predicate PcIs(b: BulkState, i: nat, p: Pc -> bool) {
    i < |b.ids| && b.ids[i] in b.sys.handlers && p(b.sys.handlers[b.ids[i]].pc)
  }

  predicate Finishes(b: BulkState, i: nat) {
    PcIs(b, i, (pc: Pc) => pc.Finished?)
  }

  function ResultAt(b: BulkState, i: nat): MessageResult
    requires Finishes(b, i)
  {
    MessageResult(i, b.ids[i], ReplyOf(Bulk, b.sys.handlers[b.ids[i]].pc.ending))
  }

  predicate Foreign(b: BulkState, e: Event) {
    match e
    case Arrive(id, _, _, _) => id !in b.ids
    case Act(id, _, _) => id !in b.ids
    case Cancel(id) => id !in b.ids
    case _ => true
  }

  predicate BulkEnabled(b: BulkState, s: BulkStep)
    requires |b.slots| == |b.ids|
  {
    match s
    case Begin => InPhaseOne(b) && b.ids[b.cursor] !in b.sys.handlers
    case Prepare(c, v) =>
      && InPhaseOne(b) && Enabled(b.sys, Act(b.ids[b.cursor], c, v))
      && !b.sys.handlers[b.ids[b.cursor]].pc.Prepared?
    case Push => InPhaseOne(b) && PcIs(b, b.cursor, (pc: Pc) => pc.Prepared? || pc.Finished?)
    case Acquire(i) => !InPhaseOne(b) && i < |b.ids| && b.slots[i].Waiting? && |HeldBy(b.slots)| < Permits(b)
    case Work(i, c, v) => !InPhaseOne(b) && i < |b.ids| && b.slots[i].Holding? && Enabled(b.sys, Act(b.ids[i], c, v))
    case Release(i) => !InPhaseOne(b) && i < |b.ids| && b.slots[i].Holding? && Finishes(b, i)
    case Join(i) => !InPhaseOne(b) && i < |b.ids| && b.slots[i].Ended? && Finishes(b, i)
    case Other(e) => Foreign(b, e) && Enabled(b.sys, e)
  }

  function BulkNext(b: BulkState, s: BulkStep): BulkState
    requires |b.slots| == |b.ids| && BulkEnabled(b, s)
  {
    match s
    case Begin => b.(sys := Next(b.sys, Arrive(b.ids[b.cursor], Bulk, b.owner, b.ttlSeconds)))
    case Prepare(c, v) => b.(sys := Next(b.sys, Act(b.ids[b.cursor], c, v)))
    case Push =>
      if Finishes(b, b.cursor)
      then b.(cursor := b.cursor + 1, slots := b.slots[b.cursor := TurnedBack],
              rejected := b.rejected + [ResultAt(b, b.cursor)])
      else b.(cursor := b.cursor + 1, slots := b.slots[b.cursor := Waiting], prepared := b.prepared + 1)
    case Acquire(i) => b.(slots := b.slots[i := Holding])
    case Work(i, c, v) => b.(sys := Next(b.sys, Act(b.ids[i], c, v)))
    case Release(i) => b.(slots := b.slots[i := Ended])
    case Join(i) => b.(slots := b.slots[i := Joined], submitted := b.submitted + [ResultAt(b, i)])
    case Other(e) => b.(sys := Next(b.sys, e))
  }

  // --------------------------------------------------------------------------
  // The invariant
  // --------------------------------------------------------------------------

  predicate UnderSmtp(pc: Pc) {
    (pc.Settling? || pc.Finished?) && !pc.ending.TurnedAway?
  }

  ghost predicate SlotFits(b: BulkState, i: nat)
    requires |b.slots| == |b.ids| && i < |b.ids|
  {
    var id := b.ids[i];
    && (id in b.sys.handlers ==>
          && b.sys.handlers[id].kind.Bulk? && b.sys.handlers[id].record.owner == b.owner
          && !b.sys.handlers[id].pc.Cancelled?)
    && (i < b.cursor <==> !b.slots[i].Todo?)
    && (i < b.cursor ==> id in b.sys.handlers)
    && (i > b.cursor ==> id !in b.sys.handlers)
    && (match b.slots[i]
        case Todo => id in b.sys.handlers ==> !b.sys.handlers[id].pc.InFlight? && !UnderSmtp(b.sys.handlers[id].pc)
        case TurnedBack => Finishes(b, i)
        case Waiting => b.sys.handlers[id].pc.Prepared?
        case Holding => Remaining(b.sys.handlers[id].pc) <= 3
        case Ended => Finishes(b, i)
        case Joined => Finishes(b, i))
    && (b.slots[i].TurnedBack? ==> ResultAt(b, i) in b.rejected)
    && (b.slots[i].Joined? ==> ResultAt(b, i) in b.submitted)
  }

  ghost predicate ListFits(b: BulkState, results: seq<MessageResult>, slot: Slot)
    requires |b.slots| == |b.ids|
  {
    && (forall k :: 0 <= k < |results| ==>
          results[k].index < |b.ids| && b.slots[results[k].index] == slot
          && Finishes(b, results[k].index) && results[k] == ResultAt(b, results[k].index))
    && (forall k, l :: 0 <= k < l < |results| ==> results[k].index != results[l].index)
  }

  ghost predicate BulkInv(b: BulkState) {
    && |b.slots| == |b.ids| && b.cursor <= |b.ids| && Inv(b.sys)
    && (forall i, j :: 0 <= i < j < |b.ids| ==> b.ids[i] != b.ids[j])
    && (forall i: nat :: i < |b.ids| ==> SlotFits(b, i))
    && ListFits(b, b.rejected, TurnedBack) && ListFits(b, b.submitted, Joined)
    && |HeldBy(b.slots)| <= (if InPhaseOne(b) then 0 else Permits(b))
    && b.prepared == |HandedOver(b.slots)|
  }

  // A slot keeps its shape when the system changes elsewhere.
  lemma SlotKept(b: BulkState, b': BulkState, i: nat)
    requires |b.slots| == |b.ids| && i < |b.ids| && SlotFits(b, i)
    requires b'.ids == b.ids && |b'.slots| == |b.slots| && b'.slots[i] == b.slots[i] && b'.owner == b.owner
    requires (i < b'.cursor <==> i < b.cursor) && (i > b'.cursor ==> i > b.cursor)
    requires b.ids[i] in b.sys.handlers <==> b.ids[i] in b'.sys.handlers
    requires b.ids[i] in b.sys.handlers ==> b'.sys.handlers[b.ids[i]] == b.sys.handlers[b.ids[i]]
    requires forall r :: r in b.rejected ==> r in b'.rejected
    requires forall r :: r in b.submitted ==> r in b'.submitted
    ensures SlotFits(b', i)
  {
  }

  // A finished message keeps its result.
  lemma ListKept(b: BulkState, b': BulkState, results: seq<MessageResult>, slot: Slot)
    requires |b.slots| == |b.ids| && ListFits(b, results, slot)
    requires b'.ids == b.ids && |b'.slots| == |b.slots|
    requires forall i: nat :: i < |b.ids| && b.slots[i] == slot ==> b'.slots[i] == slot
    requires forall i: nat :: i < |b.ids| && b.slots[i] == slot && Finishes(b, i) ==>
      b.ids[i] in b'.sys.handlers && b'.sys.handlers[b.ids[i]] == b.sys.handlers[b.ids[i]]
    ensures ListFits(b', results, slot)
  {
  }

  lemma HeldAfter(slots: seq<Slot>, i: nat, slot: Slot)
    requires i < |slots|
    ensures |HeldBy(slots[i := slot])|
            == |HeldBy(slots)| + (if slot.Holding? then 1 else 0) - (if slots[i].Holding? then 1 else 0)
  {
    var now, later := HeldBy(slots), HeldBy(slots[i := slot]);
    forall j: nat
      ensures j != i ==> (j in now <==> j in later)
    {
      if j < |slots| && j != i {
        assert slots[i := slot][j] == slots[j];
      }
    }
    assert slots[i := slot][i] == slot;
    assert i in now <==> slots[i].Holding?;
    assert i in later <==> slot.Holding?;
    assert later == if slot.Holding? then now + {i} else now - {i};
  }

  lemma HandedAfter(slots: seq<Slot>, i: nat, slot: Slot)
    requires i < |slots|
    ensures var before, after := slots[i].Todo? || slots[i].TurnedBack?, slot.Todo? || slot.TurnedBack?;
            |HandedOver(slots[i := slot])|
            == |HandedOver(slots)| + (if before && !after then 1 else 0) - (if !before && after then 1 else 0)
  {
    var now, later := HandedOver(slots), HandedOver(slots[i := slot]);
    forall j: nat
      ensures j != i ==> (j in now <==> j in later)
    {
      if j < |slots| && j != i {
        assert slots[i := slot][j] == slots[j];
      }
    }
    assert slots[i := slot][i] == slot;
    assert i in now <==> !slots[i].Todo? && !slots[i].TurnedBack?;
    assert later == if slot.Todo? || slot.TurnedBack? then now - {i} else now + {i};
  }

  // Steps of the system leave the slots alone.
  lemma SystemStepKeepsInv(b: BulkState, e: Event, own: nat)
    requires BulkInv(b) && Enabled(b.sys, e)
    requires own <= |b.ids|
    requires own < |b.ids| ==>
      || (e.Act? && e.id == b.ids[own])
      || (e.Arrive? && e.id == b.ids[own] && e.kind.Bulk? && e.owner == b.owner && own == b.cursor)
    requires own == |b.ids| ==> Foreign(b, e)
    requires own < |b.ids| ==> SlotFits(b.(sys := Next(b.sys, e)), own)
    requires own < |b.ids| ==> !b.slots[own].TurnedBack? && !b.slots[own].Joined?
    ensures BulkInv(b.(sys := Next(b.sys, e)))
  {
    var b' := b.(sys := Next(b.sys, e));
    EventKeepsInv(b.sys, e);
    forall i: nat | i < |b.ids|
      ensures SlotFits(b', i)
      ensures i != own && b.ids[i] in b.sys.handlers ==>
        b.ids[i] in b'.sys.handlers && b'.sys.handlers[b.ids[i]] == b.sys.handlers[b.ids[i]]
    {
      if i != own {
        assert own < |b.ids| ==> b.ids[i] != b.ids[own];
        SlotKept(b, b', i);
      }
    }
    ListKept(b, b', b.rejected, TurnedBack);
    ListKept(b, b', b.submitted, Joined);
  }

  // Moving one message to another slot.
  lemma MoveKeepsInv(b: BulkState, b': BulkState, i: nat)
    requires BulkInv(b) && i < |b.ids| && !b.slots[i].TurnedBack? && !b.slots[i].Joined?
    requires b'.sys == b.sys && b'.ids == b.ids && b'.owner == b.owner
    requires |b'.slots| == |b.slots| && b'.slots == b.slots[i := b'.slots[i]]
    requires b'.cursor == if b.slots[i].Todo? then b.cursor + 1 else b.cursor
    requires b.slots[i].Todo? ==> i == b.cursor
    requires b'.rejected == b.rejected
      || (Finishes(b, i) && b'.slots[i].TurnedBack? && b'.rejected == b.rejected + [ResultAt(b, i)])
    requires b'.submitted == b.submitted
      || (Finishes(b, i) && b'.slots[i].Joined? && b'.submitted == b.submitted + [ResultAt(b, i)])
    requires SlotFits(b', i)
    requires |HeldBy(b'.slots)| <= (if InPhaseOne(b') then 0 else Permits(b'))
    requires b'.prepared == |HandedOver(b'.slots)|
    ensures BulkInv(b')
  {
    forall j: nat | j < |b.ids|
      ensures SlotFits(b', j)
    {
      if j != i {
        SlotKept(b, b', j);
      }
    }
    ListKept(b, b', b.rejected, TurnedBack);
    ListKept(b, b', b.submitted, Joined);
  }

  lemma ForeignStepKeepsInv(b: BulkState, e: Event)
    requires BulkInv(b) && Enabled(b.sys, e) && Foreign(b, e)
    ensures BulkInv(b.(sys := Next(b.sys, e)))
  {
    SystemStepKeepsInv(b, e, |b.ids|);
  }

  lemma OwnStepKeepsInv(b: BulkState, s: BulkStep)
    requires BulkInv(b) && BulkEnabled(b, s) && (s.Begin? || s.Prepare? || s.Work?)
    ensures BulkInv(BulkNext(b, s))
  {
    match s
    case Begin =>
      assert SlotFits(b, b.cursor);
      SystemStepKeepsInv(b, Arrive(b.ids[b.cursor], Bulk, b.owner, b.ttlSeconds), b.cursor);
    case Prepare(c, v) =>
      assert SlotFits(b, b.cursor);
      SystemStepKeepsInv(b, Act(b.ids[b.cursor], c, v), b.cursor);
    case Work(i, c, v) =>
      assert SlotFits(b, i);
      SystemStepKeepsInv(b, Act(b.ids[i], c, v), i);
  }

  lemma SlotStepKeepsInv(b: BulkState, s: BulkStep)
    requires BulkInv(b) && BulkEnabled(b, s) && (s.Push? || s.Acquire? || s.Release? || s.Join?)
    ensures BulkInv(BulkNext(b, s))
  {
    var b' := BulkNext(b, s);
    var i := if s.Push? then b.cursor else s.i;
    assert SlotFits(b, i);
    HeldAfter(b.slots, i, b'.slots[i]);
    HandedAfter(b.slots, i, b'.slots[i]);
    MoveKeepsInv(b, b', i);
  }

  lemma StepKeepsBulkInv(b: BulkState, s: BulkStep)
    requires BulkInv(b) && BulkEnabled(b, s)
    ensures BulkInv(BulkNext(b, s))
  {
    match s
    case Other(e) => ForeignStepKeepsInv(b, e);
    case Begin => OwnStepKeepsInv(b, s);
    case Prepare(_, _) => OwnStepKeepsInv(b, s);
    case Work(_, _, _) => OwnStepKeepsInv(b, s);
    case _ => SlotStepKeepsInv(b, s);
  }

  // --------------------------------------------------------------------------
  // Bounded parallelism, progress and termination
  // --------------------------------------------------------------------------

  // No message is with the SMTP server before phase two, and then at most `bulk_concurrency`, unless that is 0.
  lemma SubmissionsAreBounded(b: BulkState)
    requires BulkInv(b)
    ensures var now :=
              set i: nat | i < |b.ids| && b.ids[i] in b.sys.handlers && b.sys.handlers[b.ids[i]].pc.InFlight? :: i;
            && (InPhaseOne(b) ==> |now| == 0)
            && (0 < b.bulkConcurrency ==> |now| <= b.bulkConcurrency)
  {
    var now := set i: nat | i < |b.ids| && b.ids[i] in b.sys.handlers && b.sys.handlers[b.ids[i]].pc.InFlight? :: i;
    forall i | i in now
      ensures i in HeldBy(b.slots)
    {
      assert SlotFits(b, i);
    }
    SubsetSize(now, HeldBy(b.slots));
  }

  // A permit is free for a waiting message as long as fewer than `bulk_concurrency` are held, and always if that is 0.
  lemma WaitingCanStart(b: BulkState, i: nat)
    requires BulkInv(b) && b.cursor == |b.ids| && i < |b.ids| && b.slots[i].Waiting?
    requires 0 < b.bulkConcurrency ==> |set j: nat | j < |b.slots| && b.slots[j].Holding? :: j| < b.bulkConcurrency
    ensures BulkEnabled(b, Acquire(i))
  {
    assert HeldBy(b.slots) == set j: nat | j < |b.slots| && b.slots[j].Holding? :: j;
    SubsetSize(HeldBy(b.slots) + {i}, HandedOver(b.slots));
  }

  predicate Complete(b: BulkState)
    requires |b.slots| == |b.ids|
  {
    !InPhaseOne(b) && forall i: nat :: i < |b.ids| ==> b.slots[i].TurnedBack? || b.slots[i].Joined?
  }

  // The outside world can always answer: every unfinished handler has a step.
  lemma HandlerCanStep(sys: System, id: Id) returns (c: Choice, victim: Id)
    requires id in sys.handlers && !sys.handlers[id].pc.Finished? && !sys.handlers[id].pc.Cancelled?
    ensures Enabled(sys, Act(id, c, victim))
  {
    var h := sys.handlers[id];
    c := if h.pc.Validated? then Describe([], 0) else if h.pc.InFlight? then SmtpAnswers(Delivered) else Proceed;
    victim := "";
    if MustEvict(sys.store, h.record) {
      OldestExists(sys.store.records);
      victim :| Oldest(sys.store.records, victim);
    }
  }

  // Until the request is complete one of its own steps is enabled.
  lemma BulkNeverStalls(b: BulkState) returns (s: BulkStep)
    requires BulkInv(b) && !Complete(b)
    ensures BulkEnabled(b, s) && !s.Other?
  {
    if InPhaseOne(b) {
      var id := b.ids[b.cursor];
      assert SlotFits(b, b.cursor);
      if id !in b.sys.handlers {
        return Begin;
      }
      if b.sys.handlers[id].pc.Prepared? || b.sys.handlers[id].pc.Finished? {
        return Push;
      }
      var c, v := HandlerCanStep(b.sys, id);
      return Prepare(c, v);
    }
    if i: nat :| i < |b.ids| && b.slots[i].Holding? {
      assert SlotFits(b, i);
      if Finishes(b, i) {
        return Release(i);
      }
      var c, v := HandlerCanStep(b.sys, b.ids[i]);
      return Work(i, c, v);
    }
    if i: nat :| i < |b.ids| && b.slots[i].Ended? {
      assert SlotFits(b, i);
      return Join(i);
    }
    var i: nat :| i < |b.ids| && !b.slots[i].TurnedBack? && !b.slots[i].Joined?;
    assert SlotFits(b, i);
    assert HeldBy(b.slots) == {};
    s := Acquire(i);
  }

  // What is left to do for one message.
  function Weight(b: BulkState, i: nat): nat
    requires |b.slots| == |b.ids| && i < |b.ids|
  {
    var left := if b.ids[i] in b.sys.handlers then Remaining(b.sys.handlers[b.ids[i]].pc) else 8;
    match b.slots[i]
    case Todo => 10 + left
    case TurnedBack => 0
    case Waiting => 9
    case Holding => 3 + left
    case Ended => 2
    case Joined => 0
  }

  function TotalWeight(b: BulkState, n: nat): nat
    requires |b.slots| == |b.ids| && n <= |b.ids|
  {
    if n == 0 then 0 else TotalWeight(b, n - 1) + Weight(b, n - 1)
  }

  lemma {:induction false} OneLighter(b: BulkState, b': BulkState, i: nat, n: nat)
    requires |b.slots| == |b.ids| == |b'.slots| == |b'.ids| && n <= |b.ids|
    requires forall j: nat :: j < |b.ids| && j != i ==> Weight(b', j) == Weight(b, j)
    requires i < |b.ids| ==> Weight(b', i) < Weight(b, i)
    ensures if i < n then TotalWeight(b', n) < TotalWeight(b, n) else TotalWeight(b', n) == TotalWeight(b, n)
  {
    if n > 0 {
      OneLighter(b, b', i, n - 1);
    }
  }

  // The message a step of the request moves.
  function Moves(b: BulkState, s: BulkStep): nat {
    match s
    case Begin => b.cursor
    case Prepare(_, _) => b.cursor
    case Push => b.cursor
    case Acquire(j) => j
    case Work(j, _, _) => j
    case Release(j) => j
    case Join(j) => j
    case Other(_) => |b.ids|
  }

  lemma OthersKeepWeight(b: BulkState, s: BulkStep, j: nat)
    requires BulkInv(b) && BulkEnabled(b, s) && j < |b.ids| && j != Moves(b, s)
    ensures Weight(BulkNext(b, s), j) == Weight(b, j)
  {
    if Moves(b, s) < |b.ids| {
      assert b.ids[j] != b.ids[Moves(b, s)];
    }
  }

  lemma OwnGetsLighter(b: BulkState, s: BulkStep)
    requires BulkInv(b) && BulkEnabled(b, s) && !s.Other?
    ensures Moves(b, s) < |b.ids| && Weight(BulkNext(b, s), Moves(b, s)) < Weight(b, Moves(b, s))
  {
    assert SlotFits(b, Moves(b, s));
  }

  // Every step of the request makes progress; steps of others cannot undo it. So the request
  // completes under every schedule in which its enabled steps are eventually taken.
  lemma StepsMakeProgress(b: BulkState, s: BulkStep)
    requires BulkInv(b) && BulkEnabled(b, s)
    ensures var n, b' := |b.ids|, BulkNext(b, s);
            && |b'.slots| == |b'.ids| == n
            && (if s.Other? then TotalWeight(b', n) == TotalWeight(b, n) else TotalWeight(b', n) < TotalWeight(b, n))
  {
    var b', n := BulkNext(b, s), |b.ids|;
    forall j: nat | j < n && j != Moves(b, s)
      ensures Weight(b', j) == Weight(b, j)
    {
      OthersKeepWeight(b, s, j);
    }
    if !s.Other? {
      OwnGetsLighter(b, s);
    }
    hide BulkInv, BulkEnabled, Weight;
    OneLighter(b, b', Moves(b, s), n);
  }

  // --------------------------------------------------------------------------
  // The response
  // --------------------------------------------------------------------------

  // `sort_by_key` on the index: stable.
  function InsertByIndex(r: MessageResult, s: seq<MessageResult>): seq<MessageResult> {
    if s == [] || r.index < s[0].index then [r] + s else [s[0]] + InsertByIndex(r, s[1..])
  }

  function SortByIndex(s: seq<MessageResult>): seq<MessageResult> {
    if s == [] then [] else InsertByIndex(s[|s| - 1], SortByIndex(s[..|s| - 1]))
  }

  function CountAccepted(s: seq<MessageResult>): nat {
    if s == [] then 0 else CountAccepted(s[..|s| - 1]) + if s[|s| - 1].reply.Accepted? then 1 else 0
  }

  function CountRefused(s: seq<MessageResult>): nat {
    if s == [] then 0 else CountRefused(s[..|s| - 1]) + if s[|s| - 1].reply.Accepted? then 0 else 1
  }

  datatype BulkResponse = BulkResponse(total: nat, accepted: nat, rejected: nat, results: seq<MessageResult>)

  function Respond(b: BulkState): BulkResponse {
    var all := SortByIndex(b.rejected + b.submitted);
    BulkResponse(|b.ids|, CountAccepted(all), CountRefused(all), all)
  }

  ghost predicate Ascending(s: seq<MessageResult>) {
    forall k, l :: 0 <= k < l < |s| ==> s[k].index < s[l].index
  }

  ghost predicate Distinct(s: seq<MessageResult>) {
    forall k, l :: 0 <= k < l < |s| ==> s[k].index != s[l].index
  }

  lemma {:induction false} InsertKeepsAscending(r: MessageResult, s: seq<MessageResult>)
    requires Ascending(s) && forall k :: 0 <= k < |s| ==> s[k].index != r.index
    ensures Ascending(InsertByIndex(r, s))
    ensures forall x :: x in InsertByIndex(r, s) <==> x == r || x in s
  {
    if s != [] && r.index >= s[0].index {
      InsertKeepsAscending(r, s[1..]);
      var t := InsertByIndex(r, s[1..]);
      assert s == [s[0]] + s[1..];
      forall k | 0 <= k < |t|
        ensures s[0].index < t[k].index
      {
        assert t[k] in t;
      }
    }
  }

  lemma {:induction false} SortAscends(s: seq<MessageResult>)
    requires Distinct(s)
    ensures Ascending(SortByIndex(s))
    ensures forall x :: x in SortByIndex(s) <==> x in s
    decreases |s|
  {
    if s != [] {
      var init, last := s[..|s| - 1], s[|s| - 1];
      SortAscends(init);
      var t := SortByIndex(init);
      forall k | 0 <= k < |t|
        ensures t[k].index != last.index
      {
        assert t[k] in init;
      }
      InsertKeepsAscending(last, t);
      assert s == init + [last];
    }
  }

  ghost predicate HasIndex(s: seq<MessageResult>, i: nat) {
    exists j :: 0 <= j < |s| && s[j].index == i
  }

  lemma {:induction false} IndexAtLeastPosition(s: seq<MessageResult>, k: nat)
    requires Ascending(s) && k <= |s|
    ensures forall j :: 0 <= j < k ==> j <= s[j].index
  {
    if k > 1 {
      IndexAtLeastPosition(s, k - 1);
      assert s[k - 2].index < s[k - 1].index;
    }
  }

  lemma {:induction false} IndexIsPosition(s: seq<MessageResult>, n: nat, k: nat)
    requires Ascending(s) && (forall j :: 0 <= j < |s| ==> s[j].index < n)
    requires forall i: nat :: i < n ==> HasIndex(s, i)
    requires k <= n
    ensures k <= |s| && forall j :: 0 <= j < k ==> s[j].index == j
  {
    if k > 0 {
      IndexIsPosition(s, n, k - 1);
      assert HasIndex(s, k - 1);
      var p :| 0 <= p < |s| && s[p].index == k - 1;
      IndexAtLeastPosition(s, |s|);
      assert s[k - 1].index <= s[p].index;
    }
  }

  lemma AscendingIsShort(s: seq<MessageResult>, n: nat)
    requires Ascending(s) && (forall j :: 0 <= j < |s| ==> s[j].index < n)
    ensures |s| <= n
  {
    IndexAtLeastPosition(s, |s|);
    if s != [] {
      assert |s| - 1 <= s[|s| - 1].index;
    }
  }

  function AcceptedAt(s: seq<MessageResult>): set<nat> {
    set i: nat | i < |s| && s[i].reply.Accepted? :: i
  }

  function RefusedAt(s: seq<MessageResult>): set<nat> {
    set i: nat | i < |s| && !s[i].reply.Accepted? :: i
  }

  // The last position is one or the other.
  lemma LastPosition(s: seq<MessageResult>)
    requires s != []
    ensures var n := |s| - 1;
            && AcceptedAt(s) == AcceptedAt(s[..n]) + (if s[n].reply.Accepted? then {n} else {})
            && RefusedAt(s) == RefusedAt(s[..n]) + (if s[n].reply.Accepted? then {} else {n})
            && n !in AcceptedAt(s[..n]) && n !in RefusedAt(s[..n])
  {
    var n := |s| - 1;
    assert forall i: nat :: i < n ==> s[i] == s[..n][i];
  }

  // The counts are the numbers of positions.
  lemma {:induction false} CountsAreCounts(s: seq<MessageResult>)
    ensures CountAccepted(s) == |AcceptedAt(s)| && CountRefused(s) == |RefusedAt(s)|
    ensures CountAccepted(s) + CountRefused(s) == |s|
  {
    if s == [] {
      assert AcceptedAt(s) == {} && RefusedAt(s) == {};
    } else {
      hide AcceptedAt, RefusedAt;
      CountsAreCounts(s[..|s| - 1]);
      LastPosition(s);
    }
  }

  // When the request is complete its response lists the result of message i at position i, all
  // of them, whatever order they were pushed in, and counts the accepted ones and the others.
  lemma ResponseListsEveryMessage(b: BulkState)
    requires BulkInv(b) && Complete(b)
    ensures var r := Respond(b);
            && |r.results| == |b.ids| == r.total
            && (forall i: nat :: i < |b.ids| ==> Finishes(b, i) && r.results[i] == ResultAt(b, i))
            && r.accepted == |set i: nat | i < |r.results| && r.results[i].reply.Accepted? :: i|
            && r.rejected == |set i: nat | i < |r.results| && !r.results[i].reply.Accepted? :: i|
            && r.accepted + r.rejected == r.total
  {
    var all := b.rejected + b.submitted;
    assert Distinct(all);
    SortAscends(all);
    var out := SortByIndex(all);
    forall j | 0 <= j < |out|
      ensures out[j].index < |b.ids| && Finishes(b, out[j].index) && out[j] == ResultAt(b, out[j].index)
    {
      assert out[j] in all;
    }
    forall i: nat | i < |b.ids|
      ensures Finishes(b, i)
      ensures HasIndex(out, i)
    {
      assert SlotFits(b, i);
      assert ResultAt(b, i) in all;
      assert ResultAt(b, i) in out;
    }
    IndexIsPosition(out, |b.ids|, |b.ids|);
    AscendingIsShort(out, |b.ids|);
    CountsAreCounts(out);
  }

  // The response depends only on how each message ended: not on the schedule, the completion
  // order, the concurrency limit or anything else that happened meanwhile.
  lemma ResponseIgnoresSchedule(b: BulkState, c: BulkState)
    requires BulkInv(b) && Complete(b) && BulkInv(c) && Complete(c) && b.ids == c.ids
    requires forall i: nat :: i < |b.ids| && Finishes(b, i) && Finishes(c, i) ==>
      b.sys.handlers[b.ids[i]].pc.ending == c.sys.handlers[c.ids[i]].pc.ending
    ensures Respond(b) == Respond(c)
  {
    ResponseListsEveryMessage(b);
    ResponseListsEveryMessage(c);
    assert Respond(b).results == Respond(c).results;
  }

  // What a client reads afterwards about message i fits what the response said.
  ghost predicate ReplyHolds(b: BulkState, i: nat, reply: Reply)
    requires i < |b.ids|
  {
    var seen := Found(b.sys.store, b.ids[i], b.owner, b.sys.clock);
    seen.Some? ==>
      && Terminal(seen.value.status)
      && (seen.value.status.SmtpAccepted? <==> reply.Accepted?)
      && seen.value.code == (match reply case Accepted => None case Refused(c) => Some(c))
  }

  // What the client is told agrees with what the store still holds: any record of the request that
  // a lookup finds afterwards is terminal, accepted exactly when the result says so, and carries the result's code.
  lemma ResponseAgreesWithStore(b: BulkState, i: nat)
    requires BulkInv(b) && Complete(b) && i < |b.ids|
    ensures i < |Respond(b).results|
    ensures ReplyHolds(b, i, Respond(b).results[i].reply)
  {
    ResponseListsEveryMessage(b);
    assert SlotFits(b, i);
    RecordAgreesWithReply(b.sys, b.ids[i]);
  }

  // --------------------------------------------------------------------------
  // Runs
  // --------------------------------------------------------------------------

  ghost predicate BulkSchedule(b: BulkState, steps: seq<BulkStep>)
    decreases |steps|
  {
    |b.slots| == |b.ids| &&
    (steps == [] || (BulkEnabled(b, steps[0]) && BulkSchedule(BulkNext(b, steps[0]), steps[1..])))
  }

  function BulkAfter(b: BulkState, steps: seq<BulkStep>): (end: BulkState)
    requires BulkSchedule(b, steps)
    ensures |end.slots| == |end.ids|
    decreases |steps|
  {
    if steps == [] then b else BulkAfter(BulkNext(b, steps[0]), steps[1..])
  }

  // A request that has just passed the payload guards, on any reachable system.
  function BulkStart(sys: System, owner: KeyId, ttlSeconds: nat, bulkConcurrency: nat, ids: seq<Id>): BulkState {
    BulkState(sys, owner, ttlSeconds, bulkConcurrency, ids, 0, seq(|ids|, i => Todo), 0, [], [])
  }

  lemma BulkStartFits(sys: System, owner: KeyId, ttlSeconds: nat, bulkConcurrency: nat, ids: seq<Id>)
    requires Inv(sys) && (forall i, j :: 0 <= i < j < |ids| ==> ids[i] != ids[j])
    requires forall i :: 0 <= i < |ids| ==> ids[i] !in sys.handlers
    ensures BulkInv(BulkStart(sys, owner, ttlSeconds, bulkConcurrency, ids))
  {
    assert HeldBy(seq(|ids|, i => Todo)) == {} && HandedOver(seq(|ids|, i => Todo)) == {};
  }

  lemma {:induction false} BulkInvAlways(b: BulkState, steps: seq<BulkStep>)
    requires BulkInv(b) && BulkSchedule(b, steps)
    ensures BulkInv(BulkAfter(b, steps)) && BulkAfter(b, steps).ids == b.ids && BulkAfter(b, steps).owner == b.owner
    ensures BulkAfter(b, steps).bulkConcurrency == b.bulkConcurrency
    decreases |steps|
  {
    if steps != [] {
      StepKeepsBulkInv(b, steps[0]);
      BulkInvAlways(BulkNext(b, steps[0]), steps[1..]);
    }
  }

  // The main result for a whole request: in every reachable state parallelism is bounded and, unless the request is
  // complete, one of its own steps is enabled; a complete request has answered every message in order and in
  // agreement with the store, and its counts add up.
  lemma BulkRequestIsSound(
      sys: System, owner: KeyId, ttlSeconds: nat, bulkConcurrency: nat, ids: seq<Id>, steps: seq<BulkStep>)
    requires Inv(sys) && (forall i, j :: 0 <= i < j < |ids| ==> ids[i] != ids[j])
    requires forall i :: 0 <= i < |ids| ==> ids[i] !in sys.handlers
    requires BulkSchedule(BulkStart(sys, owner, ttlSeconds, bulkConcurrency, ids), steps)
    ensures var b := BulkAfter(BulkStart(sys, owner, ttlSeconds, bulkConcurrency, ids), steps);
            && b.ids == ids
            && var now :=
                 set i: nat | i < |ids| && ids[i] in b.sys.handlers && b.sys.handlers[ids[i]].pc.InFlight? :: i;
               var held := set i: nat | i < |b.slots| && b.slots[i].Holding? :: i;
            && (0 < bulkConcurrency ==> |now| <= bulkConcurrency)
            && (b.cursor == |ids| && (0 < bulkConcurrency ==> |held| < bulkConcurrency) ==>
                  forall i: nat :: i < |ids| && b.slots[i].Waiting? ==> BulkEnabled(b, Acquire(i)))
            && (!Complete(b) ==> exists s :: BulkEnabled(b, s) && !s.Other?)
            && (Complete(b) ==> |Respond(b).results| == |ids| == Respond(b).total)
            && (Complete(b) ==>
                  && Respond(b).accepted == |set i: nat | i < |ids| && Respond(b).results[i].reply.Accepted? :: i|
                  && Respond(b).rejected == |set i: nat | i < |ids| && !Respond(b).results[i].reply.Accepted? :: i|
                  && Respond(b).accepted + Respond(b).rejected == Respond(b).total)
            && (forall i: nat :: Complete(b) && i < |ids| ==>
                  && Respond(b).results[i].index == i && Respond(b).results[i].requestId == ids[i]
                  && ReplyHolds(b, i, Respond(b).results[i].reply))
  {
    var b0 := BulkStart(sys, owner, ttlSeconds, bulkConcurrency, ids);
    BulkStartFits(sys, owner, ttlSeconds, bulkConcurrency, ids);
    BulkInvAlways(b0, steps);
    var b := BulkAfter(b0, steps);
    SubmissionsAreBounded(b);
    var held := set j: nat | j < |b.slots| && b.slots[j].Holding? :: j;
    forall i: nat | b.cursor == |ids| && i < |ids| && b.slots[i].Waiting?
                    && (0 < bulkConcurrency ==> |held| < bulkConcurrency)
      ensures BulkEnabled(b, Acquire(i))
    {
      WaitingCanStart(b, i);
    }
    if !Complete(b) {
      var s := BulkNeverStalls(b);
      assert BulkEnabled(b, s) && !s.Other?;
    } else {
      ResponseListsEveryMessage(b);
      forall i: nat | i < |ids|
        ensures ReplyHolds(b, i, Respond(b).results[i].reply)
      {
        ResponseAgreesWithStore(b, i);
      }
    }
  }
}
