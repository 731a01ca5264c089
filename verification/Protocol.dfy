/**
 The router under concurrency (routertwo/router.go:110-118, 367-387, 430-447): any number of threads, each
 looking a name up or making an edit, interleaved step by step.

 An edit takes `editLock`, picks the standby table, decides what to do, carries its actions out one by
 one (a file, the index, one entry of the standby table), takes the write lock, exchanges `active`, replays
 its changes one by one on the old table and releases. A lookup loads `active` and reads one entry of
 the table it loaded, under the read lock.
 */
module Protocol {
  import opened Routes
  import opened RouterSpec
  import opened Invariants

  // ---------- edits as sequences of actions ----------

  datatype Change = Put(key: string, entry: Entry) | Del(key: string)

  datatype Action =
    | StoreFile(key: string, record: Intermediate)
    | UnlinkFile(key: string)
    | EnlistRoute(route: NamedRoute)
    | DelistRoute(owner: string, route: NamedRoute)
    | Alter(change: Change)

  /** What an edit works on before the exchange. */
  datatype Work = Work(next: Table, index: Index, files: Files)

  datatype Plan = Return(reply: Reply) | Proceed(actions: seq<Action>, replay: seq<Change>, reply: Reply)

  function Changed(t: Table, c: Change): Table {
    match c
    case Put(key, e) => t[key := e]
    case Del(key) => t - {key}
  }

  function ChangeAll(t: Table, cs: seq<Change>): Table
    decreases |cs|
  {
    if cs == [] then t else ChangeAll(Changed(t, cs[0]), cs[1..])
  }

  function Do(w: Work, x: Action): Work {
    match x
    case StoreFile(key, record) => w.(files := w.files[key := record])
    case UnlinkFile(key) => w.(files := w.files - {key})
    case EnlistRoute(n) => w.(index := Enlist(w.index, n))
    case DelistRoute(owner, n) => w.(index := Reduce(w.index, owner, n))
    case Alter(c) => w.(next := Changed(w.next, c))
  }

  function DoAll(w: Work, xs: seq<Action>): Work {
    if xs == [] then w else Do(DoAll(w, xs[..|xs| - 1]), xs[|xs| - 1])
  }

  function Deletions(l: seq<NamedRoute>): seq<Change> {
    if l == [] then [] else [Del(l[0].name)] + Deletions(l[1..])
  }

  /** The first `k` turns of the loop in `RemoveNames`. */
  function Removals(owner: string, l: seq<NamedRoute>, k: nat): seq<Action>
    requires k <= |l|
  {
    if k == 0 then []
    else
      var n := l[k - 1];
      Removals(owner, l, k - 1) + [UnlinkFile(n.name), DelistRoute(owner, n), Alter(Del(n.name))]
  }

  /** What an edit decides to do once it holds `editLock`. */
  function PlanFor(next: Table, active: Table, ix: Index, op: Op): Plan
    requires NonEmpty(ix)
  {
    match op
    case Online(p, seen, created, stored) =>
      var e := OnlineEntry(next, p, seen, created);
      if !stored then Return(Failed(StoreFailed))
      else Proceed([StoreFile(p.fqdn, RecordOf(p.fqdn, e)), Alter(Put(p.fqdn, e))], [Put(p.fqdn, e)],
                   Registered(PeerAt(next, p.fqdn) != null))
    case Offline(p, seen, stored) =>
      if PeerAt(active, p.fqdn) != p then Return(Ok)
      else
        var e := HostEntry(null, seen, active[p.fqdn].created);
        Proceed((if stored then [StoreFile(p.fqdn, RecordOf(p.fqdn, e))] else []) + [Alter(Put(p.fqdn, e))],
                [Put(p.fqdn, e)], Ok)
    case AddName(n, stored) =>
      if n.name in next then
        Return(if next[n.name].NameEntry? && next[n.name].named.owner == n.owner then Ok else Failed(Occupied))
      else if !stored then Return(Failed(StoreFailed))
      else
        var e := NameEntry(n);
        Proceed([StoreFile(n.name, RecordOf(n.name, e)), EnlistRoute(n), Alter(Put(n.name, e))], [Put(n.name, e)], Ok)
    case RemoveName(name, from, unlinked) =>
      if name !in next then Return(Failed(NoSuchName))
      else if !next[name].NameEntry? then Return(Failed(NotNamed))
      else if next[name].named.owner != from then Return(Failed(NotOwner))
      else if !unlinked then Return(Failed(UnlinkFailed))
      else Proceed([UnlinkFile(name), DelistRoute(from, next[name].named), Alter(Del(name))], [Del(name)], Ok)
    case RemoveNames(from, failAt) =>
      if from !in ix then Return(Removed([], false))
      else
        var list := ix[from];
        var k := Unlinked(list, failAt);
        var replayed := list[..Reported(list, failAt)];
        Proceed(Removals(from, list, k), Deletions(replayed), Removed(replayed, k < |list|))
  }

  // ---------- the machine ----------

  datatype Slot = A | B

  function Other(x: Slot): Slot {
    if x == A then B else A
  }

  /** How far an edit has come. */
  datatype Phase =
    | Chosen
    | Working(actions: seq<Action>, done: nat, replay: seq<Change>, reply: Reply)
    | Exchanging(replay: seq<Change>, reply: Reply)
    | Exchanged(replay: seq<Change>, reply: Reply)
    | Replaying(replay: seq<Change>, reply: Reply)
    | Returning(reply: Reply)

  /** How far a lookup has come. */
  datatype LookPhase = Locked | Holding(slot: Slot) | Looked(result: Option<Entry>)

  /** Where a thread is. `next` is the table an edit picked when it began. */
  datatype Pc = Idle | Editing(op: Op, next: Slot, phase: Phase) | Reading(key: string, look: LookPhase)

  /** What threads share: the router's fields and the files. */
  datatype Memory = Memory(a: Table, b: Table, active: Slot, index: Index, files: Files) {
    function At(x: Slot): Table {
      if x == A then a else b
    }

    function With(x: Slot, t: Table): Memory {
      if x == A then this.(a := t) else this.(b := t)
    }

    function Live(): Table {
      At(active)
    }
  }

  /** Who holds `editLock`, the read lock and the write lock. */
  datatype Locks = Locks(editLock: Option<nat>, readers: set<nat>, writer: Option<nat>)

  datatype Sys = Sys(mem: Memory, locks: Locks, pcs: seq<Pc>)

  datatype Kind =
    | Begin(op: Op) | Decide | Act | LockWrite | Exchange | UnlockWrite | Replay | Finish
    | LockRead(key: string) | Load | Look | UnlockRead

  /** One step of one thread. */
  datatype Event = By(t: nat, kind: Kind)

  predicate CanStep(mem: Memory, locks: Locks, pc: Pc, kind: Kind) {
    match pc
    case Idle => (
      match kind
      case Begin(_) => locks.editLock == None
      case LockRead(_) => locks.writer == None
      case _ => false)
    case Editing(_, _, phase) => (
      match phase
      case Chosen => kind.Decide?
      case Working(actions, done, _, _) =>
        if done < |actions| then kind.Act? else kind.LockWrite? && locks.writer == None && locks.readers == {}
      case Exchanging(_, _) => kind.Exchange?
      case Exchanged(_, _) => kind.UnlockWrite?
      case Replaying(replay, _) => if replay != [] then kind.Replay? else kind.Finish?
      case Returning(_) => kind.Finish?)
    case Reading(_, look) => (
      match look
      case Locked => kind.Load?
      case Holding(_) => kind.Look?
      case Looked(_) => kind.UnlockRead?)
  }

  /** The phase an edit goes to once it has decided. */
  function Decided(plan: Plan): Phase {
    match plan
    case Return(reply) => Returning(reply)
    case Proceed(actions, replay, reply) => Working(actions, 0, replay, reply)
  }

  function NextPc(mem: Memory, pc: Pc, kind: Kind): Pc
    requires NonEmpty(mem.index)
  {
    match pc
    case Idle => (
      match kind
      case Begin(op) => Editing(op, Other(mem.active), Chosen)
      case LockRead(key) => Reading(key, Locked)
      case _ => Idle)
    case Editing(op, next, phase) => (
      match phase
      case Chosen => Editing(op, next, Decided(PlanFor(mem.At(next), mem.Live(), mem.index, op)))
      case Working(actions, done, replay, reply) =>
        Editing(op, next,
                if done < |actions| then Working(actions, done + 1, replay, reply) else Exchanging(replay, reply))
      case Exchanging(replay, reply) => Editing(op, next, Exchanged(replay, reply))
      case Exchanged(replay, reply) => Editing(op, next, Replaying(replay, reply))
      case Replaying(replay, reply) =>
        if replay != [] then Editing(op, next, Replaying(replay[1..], reply)) else Idle
      case Returning(_) => Idle)
    case Reading(key, look) => (
      match look
      case Locked => Reading(key, Holding(mem.active))
      case Holding(slot) => Reading(key, Looked(Get(mem.At(slot), key)))
      case Looked(_) => Idle)
  }

  function NextMem(mem: Memory, pc: Pc): Memory {
    match pc
    case Editing(_, next, Working(actions, done, _, _)) =>
      if done < |actions| then
        var w := Do(Work(mem.At(next), mem.index, mem.files), actions[done]);
        mem.With(next, w.next).(index := w.index, files := w.files)
      else mem
    case Editing(_, next, Exchanging(_, _)) => mem.(active := next)
    case Editing(_, next, Replaying(replay, _)) =>
      if replay != [] then mem.With(Other(next), Changed(mem.At(Other(next)), replay[0])) else mem
    case _ => mem
  }

  function NextLocks(locks: Locks, t: nat, kind: Kind): Locks {
    match kind
    case Begin(_) => locks.(editLock := Some(t))
    case Finish => locks.(editLock := None)
    case LockRead(_) => locks.(readers := locks.readers + {t})
    case UnlockRead => locks.(readers := locks.readers - {t})
    case LockWrite => locks.(writer := Some(t))
    case UnlockWrite => locks.(writer := None)
    case _ => locks
  }

  predicate Enabled(s: Sys, e: Event) {
    e.t < |s.pcs| && CanStep(s.mem, s.locks, s.pcs[e.t], e.kind)
  }

  ghost function Step(s: Sys, e: Event): Sys
    requires Enabled(s, e) && NonEmpty(s.mem.index)
  {
    var pc := s.pcs[e.t];
    Sys(NextMem(s.mem, pc), NextLocks(s.locks, e.t, e.kind), s.pcs[e.t := NextPc(s.mem, pc, e.kind)])
  }

  // ---------- simulation by the sequential specification ----------

  /** The edit that takes effect at this step: at its exchange, or where it decides to return at once. */
  function Committing(mem: Memory, pc: Pc): Option<Op>
    requires NonEmpty(mem.index)
  {
    match pc
    case Editing(op, _, Exchanging(_, _)) => Some(op)
    case Editing(op, next, Chosen) =>
      if PlanFor(mem.At(next), mem.Live(), mem.index, op).Return? then Some(op) else None
    case _ => None
  }

  function Commit(s: Sys, e: Event): Option<Op>
    requires e.t < |s.pcs| && NonEmpty(s.mem.index)
  {
    Committing(s.mem, s.pcs[e.t])
  }

  /** The specification follows: it applies the whole edit at that step, and rests at every other. */
  function Follow(m: State, op: Option<Op>): (m': State)
    requires NonEmpty(m.index)
    ensures NonEmpty(m'.index)
  {
    match op
    case Some(op) => Apply(m, op).0
    case None => m
  }

  predicate Writing(pc: Pc) {
    pc.Editing? && (pc.phase.Exchanging? || pc.phase.Exchanged?)
  }

  /** A thread holds the locks its place in the code says, and what it loaded under the read lock is still active. */
  predicate HoldsLocks(active: Slot, locks: Locks, t: nat, pc: Pc) {
    && (locks.editLock == Some(t) <==> pc.Editing?)
    && (locks.writer == Some(t) <==> Writing(pc))
    && (t in locks.readers <==> pc.Reading?)
    && (pc.Reading? && pc.look.Holding? ==> pc.look.slot == active)
  }

  ghost predicate LocksHeld(s: Sys) {
    && (forall t | 0 <= t < |s.pcs| :: HoldsLocks(s.mem.active, s.locks, t, s.pcs[t]))
    && (s.locks.editLock.Some? ==> s.locks.editLock.value < |s.pcs|)
    && (s.locks.writer.Some? ==> s.locks.writer.value < |s.pcs| && s.locks.readers == {})
    && (forall t | t in s.locks.readers :: t < |s.pcs|)
  }

  /** No edit has touched anything. */
  ghost predicate Quiet(mem: Memory, m: State) {
    mem.Live() == m.live && mem.At(Other(mem.active)) == m.standby && mem.index == m.index && mem.files == m.files
  }

  ghost predicate BeforeExchange(mem: Memory, m: State, next: Slot, w: Work) {
    next == Other(mem.active) && mem.Live() == m.live && Work(mem.At(next), mem.index, mem.files) == w
  }

  ghost predicate AfterExchange(mem: Memory, m: State, next: Slot, replay: seq<Change>) {
    && next == mem.active
    && mem.Live() == m.live && mem.index == m.index && mem.files == m.files
    && ChangeAll(mem.At(Other(mem.active)), replay) == m.standby
  }

  ghost predicate EditInStep(mem: Memory, m: State, op: Op, next: Slot, phase: Phase)
    requires NonEmpty(m.index)
  {
    match phase
    case Chosen => next == Other(mem.active) && Quiet(mem, m)
    case Working(actions, done, replay, reply) =>
      && PlanFor(m.standby, m.live, m.index, op) == Proceed(actions, replay, reply)
      && done <= |actions|
      && BeforeExchange(mem, m, next, DoAll(Work(m.standby, m.index, m.files), actions[..done]))
    case Exchanging(replay, reply) =>
      var (m', r) := Apply(m, op);
      && r == reply
      && BeforeExchange(mem, m, next, Work(m'.live, m'.index, m'.files))
      && ChangeAll(m.live, replay) == m'.standby
    case Exchanged(replay, _) => AfterExchange(mem, m, next, replay)
    case Replaying(replay, _) => AfterExchange(mem, m, next, replay)
    case Returning(_) => Quiet(mem, m)
  }

  /** What the shared memory holds, given how far the edit in progress has come. */
  ghost predicate InStep(mem: Memory, m: State, edit: Pc) {
    && NonEmpty(m.index) && NonEmpty(mem.index)
    && match edit
       case Editing(op, next, phase) => EditInStep(mem, m, op, next, phase)
       case _ => Quiet(mem, m)
  }

  function EditOf(s: Sys): Pc
    requires s.locks.editLock.Some? ==> s.locks.editLock.value < |s.pcs|
  {
    if s.locks.editLock.Some? then s.pcs[s.locks.editLock.value] else Idle
  }

  /** The machine is in step with the specification. */
  ghost predicate Sim(s: Sys, m: State) {
    LocksHeld(s) && InStep(s.mem, m, EditOf(s))
  }

  // ---------- plans carry out the edits of the specification ----------

  lemma {:induction false} DeletionsRemove(t: Table, l: seq<NamedRoute>)
    ensures ChangeAll(t, Deletions(l)) == t - NamesOf(l)
  {
    if l != [] {
      DeletionsRemove(t - {l[0].name}, l[1..]);
      assert NamesOf(l) == {l[0].name} + NamesOf(l[1..]) by {
        assert l == [l[0]] + l[1..];
      }
      assert t - {l[0].name} - NamesOf(l[1..]) == t - NamesOf(l);
    } else {
      assert NamesOf(l) == {};
    }
  }

  lemma DoMore(w: Work, xs: seq<Action>, x: Action)
    ensures DoAll(w, xs + [x]) == Do(DoAll(w, xs), x)
  {
  }

  lemma DoThree(w: Work, xs: seq<Action>, x: Action, y: Action, z: Action)
    ensures DoAll(w, xs + [x, y, z]) == Do(Do(Do(DoAll(w, xs), x), y), z)
  {
    hide Do, DoAll;
    var ys := xs + [x];
    DoMore(w, xs, x);
    DoMore(w, ys, y);
    DoMore(w, ys + [y], z);
    assert xs + [x, y, z] == ys + [y] + [z];
  }

  /** The plans that change one entry have at most three actions. */
  lemma DoFew(w: Work, xs: seq<Action>)
    ensures |xs| == 1 ==> DoAll(w, xs) == Do(w, xs[0])
    ensures |xs| == 2 ==> DoAll(w, xs) == Do(Do(w, xs[0]), xs[1])
    ensures |xs| == 3 ==> DoAll(w, xs) == Do(Do(Do(w, xs[0]), xs[1]), xs[2])
  {
  }

  /** One turn of the loop in `RemoveNames`. */
  lemma RemovalTurn(w: Work, owner: string, k: nat)
    requires owner in w.index && k < |w.index[owner]|
    ensures var l := w.index[owner];
            var v := Work(w.next - NamesOf(l[..k]), DropFirst(w.index, owner, k), w.files - NamesOf(l[..k]));
            Do(Do(Do(v, UnlinkFile(l[k].name)), DelistRoute(owner, l[k])), Alter(Del(l[k].name))) ==
            Work(w.next - NamesOf(l[..k + 1]), DropFirst(w.index, owner, k + 1), w.files - NamesOf(l[..k + 1]))
  {
  }

  lemma NothingRemoved(w: Work, owner: string)
    requires owner in w.index && w.index[owner] != []
    ensures var l := w.index[owner];
            Work(w.next - NamesOf(l[..0]), DropFirst(w.index, owner, 0), w.files - NamesOf(l[..0])) == w
  {
  }

  lemma {:induction false} RemovalsRemove(w: Work, owner: string, k: nat)
    requires owner in w.index && k <= |w.index[owner]| && w.index[owner] != []
    ensures var l := w.index[owner];
            DoAll(w, Removals(owner, l, k)) ==
            Work(w.next - NamesOf(l[..k]), DropFirst(w.index, owner, k), w.files - NamesOf(l[..k]))
  {
    var l := w.index[owner];
    if k == 0 {
      assert DoAll(w, Removals(owner, l, 0)) == w;
      hide *;
      NothingRemoved(w, owner);
    } else {
      var n := l[k - 1];
      assert Removals(owner, l, k) ==
             Removals(owner, l, k - 1) + [UnlinkFile(n.name), DelistRoute(owner, n), Alter(Del(n.name))];
      hide *;
      RemovalsRemove(w, owner, k - 1);
      DoThree(w, Removals(owner, l, k - 1), UnlinkFile(n.name), DelistRoute(owner, n), Alter(Del(n.name)));
      RemovalTurn(w, owner, k - 1);
    }
  }

  ghost predicate CarriesOut(plan: Plan, m: State, op: Op)
    requires NonEmpty(m.index)
  {
    var (m', r) := Apply(m, op);
    match plan
    case Return(reply) => m' == m && r == reply
    case Proceed(actions, replay, reply) =>
      && r == reply
      && DoAll(Work(m.standby, m.index, m.files), actions) == Work(m'.live, m'.index, m'.files)
      && ChangeAll(m.live, replay) == m'.standby
  }

  lemma ChangeOne(t: Table, cs: seq<Change>)
    requires |cs| == 1
    ensures ChangeAll(t, cs) == Changed(t, cs[0])
  {
  }

  lemma RemoveNamesIsPlanned(m: State, from: string, failAt: nat)
    requires NonEmpty(m.index)
    ensures CarriesOut(PlanFor(m.standby, m.live, m.index, RemoveNames(from, failAt)), m, RemoveNames(from, failAt))
  {
    if from in m.index {
      var list := m.index[from];
      RemovalsRemove(Work(m.standby, m.index, m.files), from, Unlinked(list, failAt));
      DeletionsRemove(m.live, list[..Reported(list, failAt)]);
    }
  }

  lemma OnlineIsPlanned(m: State, op: Op)
    requires NonEmpty(m.index) && op.Online?
    ensures CarriesOut(PlanFor(m.standby, m.live, m.index, op), m, op)
  {
    var plan := PlanFor(m.standby, m.live, m.index, op);
    if plan.Proceed? {
      DoFew(Work(m.standby, m.index, m.files), plan.actions);
      ChangeOne(m.live, plan.replay);
    }
    hide DoAll, ChangeAll, NonEmpty, RecordOf, OnlineEntry, PeerAt;
  }

  lemma OfflineIsPlanned(m: State, op: Op)
    requires NonEmpty(m.index) && op.Offline?
    ensures CarriesOut(PlanFor(m.standby, m.live, m.index, op), m, op)
  {
    var plan := PlanFor(m.standby, m.live, m.index, op);
    if plan.Proceed? {
      DoFew(Work(m.standby, m.index, m.files), plan.actions);
      ChangeOne(m.live, plan.replay);
    }
    hide DoAll, ChangeAll, NonEmpty, RecordOf;
  }

  lemma NameEditIsPlanned(m: State, op: Op)
    requires NonEmpty(m.index) && (op.AddName? || op.RemoveName?)
    ensures CarriesOut(PlanFor(m.standby, m.live, m.index, op), m, op)
  {
    var plan := PlanFor(m.standby, m.live, m.index, op);
    if plan.Proceed? {
      DoFew(Work(m.standby, m.index, m.files), plan.actions);
      ChangeOne(m.live, plan.replay);
    }
    hide DoAll, ChangeAll, NonEmpty, RecordOf, Enlist, Reduce;
  }

  /** An edit that returns at once changes nothing; one that proceeds does what the specification says. */
  lemma PlanIsEdit(m: State, op: Op)
    requires NonEmpty(m.index)
    ensures CarriesOut(PlanFor(m.standby, m.live, m.index, op), m, op)
  {
    hide *;
    if op.RemoveNames? {
      RemoveNamesIsPlanned(m, op.from, op.failAt);
    } else if op.Online? {
      OnlineIsPlanned(m, op);
    } else if op.Offline? {
      OfflineIsPlanned(m, op);
    } else {
      NameEditIsPlanned(m, op);
    }
  }

  /** The file, the index, the table: an edit changes them in this order. */
  function Rank(x: Action): nat {
    match x
    case StoreFile(_, _) => 0
    case UnlinkFile(_) => 0
    case EnlistRoute(_) => 1
    case DelistRoute(_, _) => 1
    case Alter(_) => 2
  }

  lemma ActionsInOrder(m: State, op: Op)
    requires NonEmpty(m.index) && !op.RemoveNames? && PlanFor(m.standby, m.live, m.index, op).Proceed?
    ensures var actions := PlanFor(m.standby, m.live, m.index, op).actions;
            && (forall i, j | 0 <= i < j < |actions| :: Rank(actions[i]) < Rank(actions[j]))
            && actions != [] && actions[|actions| - 1].Alter?
  {
    hide NonEmpty, RecordOf, OnlineEntry;
  }

  /** The edits that go on to an exchange. */
  lemma ProceedsExactlyWhen(m: State, op: Op)
    requires NonEmpty(m.index)
    ensures PlanFor(m.standby, m.live, m.index, op).Proceed? <==> Exchanges(m, op)
  {
    hide NonEmpty, RecordOf, Removals, Deletions, OnlineEntry;
  }

  // ---------- every step is followed by the specification ----------

  lemma OwnLocks(mem: Memory, locks: Locks, t: nat, pc: Pc, kind: Kind)
    requires NonEmpty(mem.index) && CanStep(mem, locks, pc, kind) && HoldsLocks(mem.active, locks, t, pc)
    ensures HoldsLocks(NextMem(mem, pc).active, NextLocks(locks, t, kind), t, NextPc(mem, pc, kind))
  {
  }

  /** The locks of one thread do not depend on the steps of another: `active` moves only when nobody reads. */
  lemma OthersLocks(mem: Memory, locks: Locks, t: nat, pc: Pc, kind: Kind, u: nat, other: Pc)
    requires CanStep(mem, locks, pc, kind) && HoldsLocks(mem.active, locks, t, pc)
    requires u != t && HoldsLocks(mem.active, locks, u, other)
    requires locks.writer.Some? ==> locks.readers == {}
    ensures HoldsLocks(NextMem(mem, pc).active, NextLocks(locks, t, kind), u, other)
  {
  }

  lemma LocksStayHeld(s: Sys, e: Event)
    requires LocksHeld(s) && Enabled(s, e) && NonEmpty(s.mem.index)
    ensures LocksHeld(Step(s, e))
  {
    hide HoldsLocks, NextMem, NextPc, NonEmpty;
    var pc := s.pcs[e.t];
    OwnLocks(s.mem, s.locks, e.t, pc, e.kind);
    forall u | 0 <= u < |s.pcs| && u != e.t
      ensures HoldsLocks(Step(s, e).mem.active, Step(s, e).locks, u, s.pcs[u])
    {
      OthersLocks(s.mem, s.locks, e.t, pc, e.kind, u, s.pcs[u]);
    }
  }

  lemma DecideInStep(mem: Memory, m: State, pc: Pc)
    requires InStep(mem, m, pc) && pc.Editing? && pc.phase.Chosen?
    ensures InStep(mem, Follow(m, Committing(mem, pc)), NextPc(mem, pc, Decide))
  {
  }

  lemma DoKeepsNonEmpty(w: Work, x: Action)
    requires NonEmpty(w.index)
    ensures NonEmpty(Do(w, x).index)
  {
  }

  lemma ActInStep(mem: Memory, m: State, pc: Pc)
    requires InStep(mem, m, pc) && pc.Editing? && pc.phase.Working? && pc.phase.done < |pc.phase.actions|
    ensures InStep(NextMem(mem, pc), m, NextPc(mem, pc, Act))
  {
    hide PlanFor, Do, DoAll, Apply, NonEmpty;
    var actions, done := pc.phase.actions, pc.phase.done;
    DoKeepsNonEmpty(Work(mem.At(pc.next), mem.index, mem.files), actions[done]);
    DoMore(Work(m.standby, m.index, m.files), actions[..done], actions[done]);
    assert actions[..done + 1] == actions[..done] + [actions[done]];
  }

  lemma LockWriteInStep(mem: Memory, m: State, pc: Pc)
    requires InStep(mem, m, pc) && pc.Editing? && pc.phase.Working? && pc.phase.done == |pc.phase.actions|
    ensures InStep(mem, m, NextPc(mem, pc, LockWrite))
  {
    PlanIsEdit(m, pc.op);
    hide PlanFor, DoAll, Apply, NonEmpty;
    assert pc.phase.actions[..pc.phase.done] == pc.phase.actions;
  }

  /** A step of the edit in progress keeps the shared memory in step. */
  lemma EditStaysInStep(mem: Memory, locks: Locks, m: State, pc: Pc, kind: Kind)
    requires InStep(mem, m, pc) && pc.Editing? && CanStep(mem, locks, pc, kind)
    ensures InStep(NextMem(mem, pc), Follow(m, Committing(mem, pc)), NextPc(mem, pc, kind))
  {
    if pc.phase.Chosen? {
      DecideInStep(mem, m, pc);
    } else if pc.phase.Working? {
      if pc.phase.done < |pc.phase.actions| {
        ActInStep(mem, m, pc);
      } else {
        LockWriteInStep(mem, m, pc);
      }
    } else {
      hide PlanFor, Apply, NonEmpty;
    }
  }

  /** Whatever step the machine takes, the specification follows it. */
  lemma StepSimulates(s: Sys, m: State, e: Event)
    requires Sim(s, m) && Enabled(s, e)
    ensures Sim(Step(s, e), Follow(m, Commit(s, e)))
  {
    LocksStayHeld(s, e);
    var pc := s.pcs[e.t];
    assert HoldsLocks(s.mem.active, s.locks, e.t, pc);
    if pc.Editing? {
      EditStaysInStep(s.mem, s.locks, m, pc, e.kind);
      hide InStep, LocksHeld, NextMem, NextPc, Committing, NonEmpty;
    } else {
      hide LocksHeld, PlanFor, Apply, NonEmpty;
    }
  }

  // ---------- nobody waits for ever ----------

  /** The step a thread takes next, if nothing keeps it waiting. */
  function NextKind(pc: Pc): Kind
    requires pc != Idle
  {
    match pc
    case Editing(_, _, Chosen) => Decide
    case Editing(_, _, Working(actions, done, _, _)) => if done < |actions| then Act else LockWrite
    case Editing(_, _, Exchanging(_, _)) => Exchange
    case Editing(_, _, Exchanged(_, _)) => UnlockWrite
    case Editing(_, _, Replaying(replay, _)) => if replay != [] then Replay else Finish
    case Editing(_, _, Returning(_)) => Finish
    case Reading(_, Locked) => Load
    case Reading(_, Holding(_)) => Look
    case Reading(_, Looked(_)) => UnlockRead
  }

  /** A thread in the middle of something can go on, or waits for the write lock while a reader can go on. */
  lemma NobodyIsStuck(s: Sys, m: State, t: nat) returns (u: nat)
    requires Sim(s, m) && t < |s.pcs| && s.pcs[t] != Idle
    ensures u < |s.pcs| && s.pcs[u] != Idle && Enabled(s, By(u, NextKind(s.pcs[u])))
    ensures u != t ==> NextKind(s.pcs[t]).LockWrite? && s.pcs[u].Reading?
  {
    hide InStep, NonEmpty;
    assert HoldsLocks(s.mem.active, s.locks, t, s.pcs[t]);
    if Enabled(s, By(t, NextKind(s.pcs[t]))) {
      u := t;
    } else {
      var v := if s.locks.writer.Some? then s.locks.writer.value else t;
      assert HoldsLocks(s.mem.active, s.locks, v, s.pcs[v]);
      u :| u in s.locks.readers;
      assert HoldsLocks(s.mem.active, s.locks, u, s.pcs[u]);
    }
  }

  // ---------- how long it takes ----------

  function PlanSteps(plan: Plan): nat {
    match plan
    case Return(_) => 1
    case Proceed(actions, replay, _) => |actions| + |replay| + 4
  }

  /** How many steps of its own a thread still has to take until it is idle. */
  function StepsLeft(mem: Memory, pc: Pc): nat
    requires NonEmpty(mem.index)
  {
    match pc
    case Idle => 0
    case Editing(op, next, phase) => (
      match phase
      case Chosen => 1 + PlanSteps(PlanFor(mem.At(next), mem.Live(), mem.index, op))
      case Working(actions, done, replay, _) => (if done < |actions| then |actions| - done else 0) + |replay| + 4
      case Exchanging(replay, _) => |replay| + 3
      case Exchanged(replay, _) => |replay| + 2
      case Replaying(replay, _) => |replay| + 1
      case Returning(_) => 1)
    case Reading(_, look) => (
      match look
      case Locked => 3
      case Holding(_) => 2
      case Looked(_) => 1)
  }

  lemma OwnStepCounts(mem: Memory, locks: Locks, pc: Pc, kind: Kind)
    requires NonEmpty(mem.index) && CanStep(mem, locks, pc, kind) && pc != Idle
    ensures NonEmpty(NextMem(mem, pc).index)
    ensures StepsLeft(NextMem(mem, pc), NextPc(mem, pc, kind)) == StepsLeft(mem, pc) - 1
  {
    if pc.Editing? && pc.phase.Working? && pc.phase.done < |pc.phase.actions| {
      DoKeepsNonEmpty(Work(mem.At(pc.next), mem.index, mem.files), pc.phase.actions[pc.phase.done]);
    }
    hide PlanFor, Do, NonEmpty;
  }

  /** Nobody else's step makes it more or less: while an edit chooses, only lookups go on. */
  lemma OthersLeaveSteps(s: Sys, e: Event, t: nat)
    requires LocksHeld(s) && Enabled(s, e) && NonEmpty(s.mem.index) && NonEmpty(Step(s, e).mem.index)
    requires t < |s.pcs| && e.t != t
    ensures Step(s, e).pcs[t] == s.pcs[t] && StepsLeft(Step(s, e).mem, s.pcs[t]) == StepsLeft(s.mem, s.pcs[t])
  {
    assert HoldsLocks(s.mem.active, s.locks, t, s.pcs[t]);
    assert HoldsLocks(s.mem.active, s.locks, e.t, s.pcs[e.t]);
    hide LocksHeld, PlanFor, NonEmpty, NextPc, CanStep, Do;
  }
}
