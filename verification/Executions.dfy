/**
 Whole concurrent runs: every interleaving behaves like the sequential specification applied to the
 committed edits in order, and every lookup reads that specification's table.
 */
module Executions {
  import opened Routes
  import opened RouterSpec
  import opened Invariants
  import Histories
  import opened Protocol

  /** One step. (An empty list in the index would stop a `RemoveNames`; `Sim` shows there never is one.) */
  ghost predicate Moves(s: Sys, e: Event, s': Sys) {
    NonEmpty(s.mem.index) && Enabled(s, e) && s' == Step(s, e)
  }

  ghost predicate IsExecution(ss: seq<Sys>, es: seq<Event>) {
    |ss| == |es| + 1 && forall i | 0 <= i < |es| :: Moves(ss[i], es[i], ss[i + 1])
  }

  /** Nobody is doing anything. */
  ghost predicate AtRest(s: Sys) {
    && s.locks == Locks(None, {}, None) && NonEmpty(s.mem.index)
    && forall t | 0 <= t < |s.pcs| :: s.pcs[t] == Idle
  }

  function StateOf(s: Sys): State {
    State(s.mem.Live(), s.mem.At(Other(s.mem.active)), s.mem.index, s.mem.files)
  }

  /** The edit, if any, that takes effect at step `i`. */
  ghost function CommitAt(ss: seq<Sys>, es: seq<Event>, i: nat): Option<Op>
    requires IsExecution(ss, es) && i < |es|
  {
    assert Moves(ss[i], es[i], ss[i + 1]);
    Commit(ss[i], es[i])
  }

  /** The edits that took effect during the first `n` steps, in order. */
  ghost function Committed(ss: seq<Sys>, es: seq<Event>, n: nat): (ops: seq<Op>)
    requires IsExecution(ss, es) && n <= |es|
  {
    if n == 0 then []
    else
      var ops := Committed(ss, es, n - 1);
      match CommitAt(ss, es, n - 1)
      case Some(op) => ops + [op]
      case None => ops
  }

  /** The specification, run on a sequence of edits. */
  function RunOps(m: State, ops: seq<Op>): (r: State)
    requires NonEmpty(m.index)
    ensures NonEmpty(r.index)
  {
    if ops == [] then m else Apply(RunOps(m, ops[..|ops| - 1]), ops[|ops| - 1]).0
  }

  /** Where the specification is after `n` steps of an execution. */
  ghost function SpecAt(ss: seq<Sys>, es: seq<Event>, n: nat): (m: State)
    requires IsExecution(ss, es) && n <= |es| && NonEmpty(ss[0].mem.index)
    ensures NonEmpty(m.index)
  {
    RunOps(StateOf(ss[0]), Committed(ss, es, n))
  }

  lemma SpecMoves(ss: seq<Sys>, es: seq<Event>, n: nat)
    requires IsExecution(ss, es) && n < |es| && NonEmpty(ss[0].mem.index)
    ensures SpecAt(ss, es, n + 1) == Follow(SpecAt(ss, es, n), CommitAt(ss, es, n))
  {
  }

  lemma SpecAfter(ss: seq<Sys>, es: seq<Event>, n: nat)
    requires IsExecution(ss, es) && n < |es| && NonEmpty(ss[0].mem.index)
    ensures CommitAt(ss, es, n).Some? ==> SpecAt(ss, es, n + 1) == Apply(SpecAt(ss, es, n), CommitAt(ss, es, n).value).0
    ensures CommitAt(ss, es, n) == None ==> SpecAt(ss, es, n + 1) == SpecAt(ss, es, n)
  {
    hide IsExecution, CommitAt, SpecAt, Apply, NonEmpty;
    SpecMoves(ss, es, n);
  }

  lemma StartsInStep(s: Sys)
    requires AtRest(s)
    ensures Sim(s, StateOf(s))
  {
    hide NonEmpty, PlanFor;
  }

  /** Where executions start: the specification at the state of the machine. */
  lemma SpecStarts(ss: seq<Sys>, es: seq<Event>)
    requires IsExecution(ss, es) && AtRest(ss[0])
    ensures |ss| == |es| + 1 && NonEmpty(ss[0].mem.index) && SpecAt(ss, es, 0) == StateOf(ss[0])
  {
    hide Moves, NonEmpty;
  }

  lemma ExecutionStep(ss: seq<Sys>, es: seq<Event>, n: nat)
    requires IsExecution(ss, es) && n < |es|
    ensures Enabled(ss[n], es[n]) && NonEmpty(ss[n].mem.index)
    ensures ss[n + 1] == Step(ss[n], es[n]) && CommitAt(ss, es, n) == Commit(ss[n], es[n])
  {
    assert Moves(ss[n], es[n], ss[n + 1]);
    hide Enabled, NonEmpty, Step, Commit;
  }

  lemma {:induction false} SimAt(ss: seq<Sys>, es: seq<Event>, n: nat)
    requires IsExecution(ss, es) && n <= |es| && AtRest(ss[0])
    ensures NonEmpty(ss[0].mem.index) && Sim(ss[n], SpecAt(ss, es, n))
    decreases n
  {
    hide *;
    SpecStarts(ss, es);
    if n == 0 {
      StartsInStep(ss[0]);
    } else {
      ExecutionStep(ss, es, n - 1);
      SimAt(ss, es, n - 1);
      SpecMoves(ss, es, n - 1);
      StepSimulates(ss[n - 1], SpecAt(ss, es, n - 1), es[n - 1]);
    }
  }

  // ---------- refinement ----------

  lemma LiveIsActive(s: Sys, m: State)
    requires Sim(s, m)
    ensures s.mem.Live() == m.live
  {
  }

  lemma ActiveAt(ss: seq<Sys>, es: seq<Event>, n: nat)
    requires IsExecution(ss, es) && n <= |es| && AtRest(ss[0])
    ensures ss[n].mem.Live() == SpecAt(ss, es, n).live
  {
    hide SpecAt, Sim;
    SimAt(ss, es, n);
    LiveIsActive(ss[n], SpecAt(ss, es, n));
  }

  /**
   Every interleaving refines the sequential specification: after any number of steps the table readers
   use is the live table of the specification run on the committed edits, and whenever no edit is in
   progress both tables, the index and the disk are exactly the specification's.
   */
  lemma ConcurrentIsSequential(ss: seq<Sys>, es: seq<Event>, n: nat)
    requires IsExecution(ss, es) && n <= |es| && AtRest(ss[0])
    ensures var m := RunOps(StateOf(ss[0]), Committed(ss, es, n));
            && ss[n].mem.Live() == m.live
            && (ss[n].locks.editLock == None ==> StateOf(ss[n]) == m)
  {
    ActiveAt(ss, es, n);
    SimAt(ss, es, n);
    hide RunOps;
  }

  /** The active table changes only where an edit commits, and there by the whole edit at once. */
  lemma ActiveChangesAtCommits(ss: seq<Sys>, es: seq<Event>, n: nat)
    requires IsExecution(ss, es) && n < |es| && AtRest(ss[0])
    ensures ss[n + 1].mem.Live() ==
            match CommitAt(ss, es, n) {
              case Some(op) => Apply(SpecAt(ss, es, n), op).0.live
              case None => ss[n].mem.Live()
            }
  {
    hide Apply, CommitAt, SpecAt;
    ActiveAt(ss, es, n);
    ActiveAt(ss, es, n + 1);
    SpecMoves(ss, es, n);
  }

  /**
   As long as no first unlink has failed, the two tables act as one atomic map: a commit turns the table
   readers use into what its edit makes of that table alone.
   */
  lemma TablesActAsOne(ss: seq<Sys>, es: seq<Event>, n: nat)
    requires IsExecution(ss, es) && n < |es| && AtRest(ss[0]) && Inv(StateOf(ss[0])) && Sound(ss, es, n)
    ensures var t := ss[n].mem.Live();
            var m := SpecAt(ss, es, n);
            && m == State(t, t, m.index, m.files) && Inv(m)
            && ss[n + 1].mem.Live() == match CommitAt(ss, es, n) { case Some(op) => Apply(m, op).0.live case None => t }
  {
    InvAt(ss, es, n);
    hide Apply, CommitAt, SpecAt, Sound, Indexed, HostsKeyed, Persisted;
    ActiveAt(ss, es, n);
    ActiveChangesAtCommits(ss, es, n);
  }

  /** In any run, whoever is in the middle of something can go on, or waits for a reader who can. */
  lemma NeverStuck(ss: seq<Sys>, es: seq<Event>, n: nat, t: nat) returns (u: nat)
    requires IsExecution(ss, es) && n <= |es| && AtRest(ss[0])
    requires t < |ss[n].pcs| && ss[n].pcs[t] != Idle
    ensures u < |ss[n].pcs| && ss[n].pcs[u] != Idle
    ensures Enabled(ss[n], By(u, NextKind(ss[n].pcs[u]))) && NonEmpty(ss[n].mem.index)
    ensures u != t ==> NextKind(ss[n].pcs[t]).LockWrite? && ss[n].pcs[u].Reading?
  {
    SimAt(ss, es, n);
    hide SpecAt, Step, LocksHeld, EditInStep;
    u := NobodyIsStuck(ss[n], SpecAt(ss, es, n), t);
  }

  /** In any run an idle thread can start a lookup exactly when nobody is exchanging the tables. */
  lemma LookupStartsExactlyWhen(ss: seq<Sys>, es: seq<Event>, n: nat, t: nat, key: string)
    requires IsExecution(ss, es) && n <= |es| && AtRest(ss[0]) && t < |ss[n].pcs| && ss[n].pcs[t] == Idle
    ensures Enabled(ss[n], By(t, LockRead(key))) <==> forall u | 0 <= u < |ss[n].pcs| :: !Writing(ss[n].pcs[u])
  {
    IndexIsNonEmpty(ss, es, n);
    hide IsExecution, NonEmpty;
    var s := ss[n];
    if s.locks.writer.Some? {
      assert HoldsLocks(s.mem.active, s.locks, s.locks.writer.value, s.pcs[s.locks.writer.value]);
    }
  }

  /** And an edit exactly when nobody is editing. */
  lemma EditStartsExactlyWhen(ss: seq<Sys>, es: seq<Event>, n: nat, t: nat, op: Op)
    requires IsExecution(ss, es) && n <= |es| && AtRest(ss[0]) && t < |ss[n].pcs| && ss[n].pcs[t] == Idle
    ensures Enabled(ss[n], By(t, Begin(op))) <==> forall u | 0 <= u < |ss[n].pcs| :: !ss[n].pcs[u].Editing?
  {
    IndexIsNonEmpty(ss, es, n);
    hide IsExecution, NonEmpty;
    var s := ss[n];
    if s.locks.editLock.Some? {
      assert HoldsLocks(s.mem.active, s.locks, s.locks.editLock.value, s.pcs[s.locks.editLock.value]);
    }
  }

  /** An edit that has carried out its actions can go on to its exchange exactly when nobody is looking up. */
  lemma ExchangeStartsExactlyWhen(ss: seq<Sys>, es: seq<Event>, n: nat, t: nat)
    requires IsExecution(ss, es) && n <= |es| && AtRest(ss[0]) && t < |ss[n].pcs|
    requires ss[n].pcs[t].Editing? && ss[n].pcs[t].phase.Working?
    requires ss[n].pcs[t].phase.done == |ss[n].pcs[t].phase.actions|
    ensures Enabled(ss[n], By(t, LockWrite)) <==> forall u | 0 <= u < |ss[n].pcs| :: !ss[n].pcs[u].Reading?
  {
    IndexIsNonEmpty(ss, es, n);
    hide IsExecution, NonEmpty;
    var s := ss[n];
    assert HoldsLocks(s.mem.active, s.locks, t, s.pcs[t]);
    WriterEdits(s);
    ReaderReads(s);
    hide LocksHeld;
  }

  /** Whoever holds the write lock is editing. */
  lemma WriterEdits(s: Sys)
    requires LocksHeld(s)
    ensures s.locks.writer.Some? ==>
      && s.locks.editLock == s.locks.writer && s.locks.writer.value < |s.pcs|
      && Writing(s.pcs[s.locks.writer.value])
  {
    if s.locks.writer.Some? {
      assert HoldsLocks(s.mem.active, s.locks, s.locks.writer.value, s.pcs[s.locks.writer.value]);
    }
  }

  lemma EditorEdits(s: Sys)
    requires LocksHeld(s)
    ensures s.locks.editLock.Some? ==> s.locks.editLock.value < |s.pcs| && s.pcs[s.locks.editLock.value].Editing?
  {
    if s.locks.editLock.Some? {
      assert HoldsLocks(s.mem.active, s.locks, s.locks.editLock.value, s.pcs[s.locks.editLock.value]);
    }
  }

  lemma ReaderReads(s: Sys)
    requires LocksHeld(s)
    ensures s.locks.readers != {} <==> exists u :: 0 <= u < |s.pcs| && s.pcs[u].Reading?
  {
    if s.locks.readers != {} {
      var u :| u in s.locks.readers;
      assert HoldsLocks(s.mem.active, s.locks, u, s.pcs[u]);
    }
    forall u | 0 <= u < |s.pcs| && s.pcs[u].Reading? ensures u in s.locks.readers {
      assert HoldsLocks(s.mem.active, s.locks, u, s.pcs[u]);
    }
  }

  /** How many of the steps `[from, to)` are thread `t`'s. */
  function OwnSteps(es: seq<Event>, t: nat, from: nat, to: nat): nat
    requires from <= to <= |es|
    decreases (to)
  {
    if from == to then 0 else OwnSteps(es, t, from, to - 1) + if es[to - 1].t == t then 1 else 0
  }

  /** As long as a thread is at it, the steps it has taken and those it has left add up to the same. */
  lemma {:induction false} StepsAddUp(ss: seq<Sys>, es: seq<Event>, t: nat, from: nat, to: nat)
    requires IsExecution(ss, es) && from <= to <= |es| && AtRest(ss[0])
    requires forall i | from <= i < to :: t < |ss[i].pcs| && ss[i].pcs[t] != Idle
    requires t < |ss[to].pcs| && NonEmpty(ss[from].mem.index)
    ensures NonEmpty(ss[to].mem.index) && t < |ss[from].pcs|
    ensures OwnSteps(es, t, from, to) + StepsLeft(ss[to].mem, ss[to].pcs[t]) == StepsLeft(ss[from].mem, ss[from].pcs[t])
    decreases (to)
  {
    hide *;
    SpecStarts(ss, es);
    if from == to {
      NoOwnSteps(es, t, from);
    } else {
      ExecutionStep(ss, es, to - 1);
      StepsAddUp(ss, es, t, from, to - 1);
      IndexIsNonEmpty(ss, es, to);
      StepsStep(ss, es, t, to - 1);
      OwnStepsNext(es, t, from, to);
    }
  }

  lemma NoOwnSteps(es: seq<Event>, t: nat, n: nat)
    requires n <= |es|
    ensures OwnSteps(es, t, n, n) == 0
  {
  }

  lemma OwnStepsNext(es: seq<Event>, t: nat, from: nat, to: nat)
    requires from < to <= |es|
    ensures OwnSteps(es, t, from, to) == OwnSteps(es, t, from, to - 1) + if es[to - 1].t == t then 1 else 0
  {
  }

  lemma IndexIsNonEmpty(ss: seq<Sys>, es: seq<Event>, n: nat)
    requires IsExecution(ss, es) && n <= |es| && AtRest(ss[0])
    ensures NonEmpty(ss[n].mem.index) && LocksHeld(ss[n])
  {
    SimAt(ss, es, n);
    hide SpecAt, IsExecution, NonEmpty, LocksHeld;
  }

  lemma StepsStep(ss: seq<Sys>, es: seq<Event>, t: nat, i: nat)
    requires IsExecution(ss, es) && i < |es| && AtRest(ss[0]) && t < |ss[i].pcs| && ss[i].pcs[t] != Idle
    ensures t < |ss[i + 1].pcs| && NonEmpty(ss[i].mem.index) && NonEmpty(ss[i + 1].mem.index)
    ensures StepsLeft(ss[i].mem, ss[i].pcs[t]) ==
            StepsLeft(ss[i + 1].mem, ss[i + 1].pcs[t]) + if es[i].t == t then 1 else 0
  {
    IndexIsNonEmpty(ss, es, i);
    IndexIsNonEmpty(ss, es, i + 1);
    ExecutionStep(ss, es, i);
    hide IsExecution, StepsLeft, NonEmpty, LocksHeld, NextMem, NextPc, CanStep, CommitAt;
    if es[i].t == t {
      OwnStepCounts(ss[i].mem, ss[i].locks, ss[i].pcs[t], es[i].kind);
    } else {
      OthersLeaveSteps(ss[i], es[i], t);
    }
  }

  /**
   How long an edit takes, in steps of its own: as long as it is not finished, those it has taken since it
   began and those it has left make up the length of its plan and one step to decide. With `NeverStuck` it
   waits nowhere but for readers at the write lock.
   */
  lemma EditTakesExactly(ss: seq<Sys>, es: seq<Event>, b: nat, n: nat, op: Op)
    requires IsExecution(ss, es) && b < n <= |es| && AtRest(ss[0]) && es[b].kind == Begin(op)
    requires forall i | b < i < n :: es[b].t < |ss[i].pcs| && ss[i].pcs[es[b].t] != Idle
    ensures NonEmpty(ss[0].mem.index) && es[b].t < |ss[n].pcs| && NonEmpty(ss[n].mem.index)
    ensures var m := SpecAt(ss, es, b);
            OwnSteps(es, es[b].t, b + 1, n) + StepsLeft(ss[n].mem, ss[n].pcs[es[b].t]) ==
            1 + PlanSteps(PlanFor(m.standby, m.live, m.index, op))
  {
    hide *;
    SpecStarts(ss, es);
    EditStarts(ss, es, b, op);
    ThreadsStay(ss, es, b + 1, n);
    StepsAddUp(ss, es, es[b].t, b + 1, n);
  }

  lemma {:induction false} ThreadsStay(ss: seq<Sys>, es: seq<Event>, from: nat, to: nat)
    requires IsExecution(ss, es) && from <= to <= |es|
    ensures |ss[to].pcs| == |ss[from].pcs|
    decreases (to)
  {
    if from < to {
      ExecutionStep(ss, es, to - 1);
      hide NextMem, NextPc, NextLocks, NonEmpty, CanStep, CommitAt, Moves;
      ThreadsStay(ss, es, from, to - 1);
    }
  }

  lemma EditStarts(ss: seq<Sys>, es: seq<Event>, b: nat, op: Op)
    requires IsExecution(ss, es) && b < |es| && AtRest(ss[0]) && es[b].kind == Begin(op)
    ensures NonEmpty(ss[0].mem.index) && NonEmpty(ss[b + 1].mem.index) && es[b].t < |ss[b + 1].pcs|
    ensures var m := SpecAt(ss, es, b);
            StepsLeft(ss[b + 1].mem, ss[b + 1].pcs[es[b].t]) == 1 + PlanSteps(PlanFor(m.standby, m.live, m.index, op))
  {
    SimAt(ss, es, b);
    IndexIsNonEmpty(ss, es, b + 1);
    ExecutionStep(ss, es, b);
    hide IsExecution, SpecAt, PlanFor, PlanSteps, NonEmpty, CommitAt, LocksHeld;
  }

  /** Every lookup returns what the specification's live table holds at the step it reads. */
  lemma LookupReadsSpec(ss: seq<Sys>, es: seq<Event>, n: nat)
    requires IsExecution(ss, es) && n < |es| && AtRest(ss[0]) && es[n].kind.Look?
    ensures es[n].t < |ss[n].pcs| && ss[n].pcs[es[n].t].Reading?
    ensures var key := ss[n].pcs[es[n].t].key;
            ss[n + 1].pcs[es[n].t] == Reading(key, Looked(Get(SpecAt(ss, es, n).live, key)))
  {
    assert Moves(ss[n], es[n], ss[n + 1]);
    SimAt(ss, es, n);
    ActiveAt(ss, es, n);
    assert HoldsLocks(ss[n].mem.active, ss[n].locks, es[n].t, ss[n].pcs[es[n].t]);
    hide SpecAt, InStep;
  }

  /** The table a thread writes to at its next step, if it writes to one. */
  function Written(pc: Pc): Option<Slot> {
    match pc
    case Editing(_, next, Working(actions, done, _, _)) =>
      if done < |actions| && actions[done].Alter? then Some(next) else None
    case Editing(_, next, Replaying(replay, _)) => if replay != [] then Some(Other(next)) else None
    case _ => None
  }

  /** No edit ever writes to the table readers are sent to, nor to one that a reader still holds. */
  lemma WritersAreIsolated(ss: seq<Sys>, es: seq<Event>, n: nat, editor: nat, reader: nat)
    requires IsExecution(ss, es) && n <= |es| && AtRest(ss[0]) && editor < |ss[n].pcs| && reader < |ss[n].pcs|
    ensures var w := Written(ss[n].pcs[editor]);
            w.Some? ==>
              && w.value != ss[n].mem.active
              && (ss[n].pcs[reader].Reading? && ss[n].pcs[reader].look.Holding? ==>
                    w.value != ss[n].pcs[reader].look.slot)
  {
    SimAt(ss, es, n);
    hide SpecAt, PlanFor, DoAll, ChangeAll;
    assert HoldsLocks(ss[n].mem.active, ss[n].locks, editor, ss[n].pcs[editor]);
    assert HoldsLocks(ss[n].mem.active, ss[n].locks, reader, ss[n].pcs[reader]);
  }

  // ---------- replies ----------

  predicate BeforeCommit(pc: Pc) {
    pc.Editing? && (pc.phase.Chosen? || pc.phase.Working? || pc.phase.Exchanging?)
  }

  predicate AfterCommit(pc: Pc) {
    pc.Editing? && (pc.phase.Exchanged? || pc.phase.Replaying? || pc.phase.Returning?)
  }

  /** Thread `t` commits nothing in the steps `[from, to)`. */
  ghost predicate NoCommitBy(ss: seq<Sys>, es: seq<Event>, t: nat, from: nat, to: nat)
    requires IsExecution(ss, es) && to <= |es|
  {
    forall i | from <= i < to && es[i].t == t :: CommitAt(ss, es, i) == None
  }

  lemma BeforeCommitStep(mem: Memory, locks: Locks, pc: Pc, kind: Kind)
    requires NonEmpty(mem.index) && CanStep(mem, locks, pc, kind) && BeforeCommit(NextPc(mem, pc, kind))
    ensures Committing(mem, pc) == None
    ensures if kind.Begin? then kind.op == NextPc(mem, pc, kind).op
            else BeforeCommit(pc) && pc.op == NextPc(mem, pc, kind).op
  {
  }

  lemma AfterCommitStep(mem: Memory, locks: Locks, pc: Pc, kind: Kind)
    requires NonEmpty(mem.index) && CanStep(mem, locks, pc, kind) && AfterCommit(NextPc(mem, pc, kind))
    ensures var pc' := NextPc(mem, pc, kind);
            match Committing(mem, pc)
            case Some(op) => BeforeCommit(pc) && pc.op == op == pc'.op
            case None => AfterCommit(pc) && pc.op == pc'.op && pc.phase.reply == pc'.phase.reply
  {
  }

  lemma CommitReplies(mem: Memory, m: State, pc: Pc, kind: Kind)
    requires InStep(mem, m, pc) && Committing(mem, pc).Some?
    ensures var pc' := NextPc(mem, pc, kind);
            AfterCommit(pc') && pc'.phase.reply == Apply(m, Committing(mem, pc).value).1
  {
  }

  /** An edit that has not committed yet began at some earlier step, and its thread has committed nothing since. */
  lemma {:induction false} FindBegin(ss: seq<Sys>, es: seq<Event>, t: nat, n: nat) returns (b: nat)
    requires IsExecution(ss, es) && n <= |es| && AtRest(ss[0])
    requires t < |ss[n].pcs| && BeforeCommit(ss[n].pcs[t])
    ensures b < n && es[b] == By(t, Begin(ss[n].pcs[t].op)) && NoCommitBy(ss, es, t, b, n)
    ensures forall i | b < i <= n :: t < |ss[i].pcs| && BeforeCommit(ss[i].pcs[t])
    decreases n
  {
    assert n > 0;
    hide NextMem, NextPc, Committing, BeforeCommit, NonEmpty, CanStep;
    var s, e := ss[n - 1], es[n - 1];
    assert Moves(s, e, ss[n]);
    if e.t == t {
      BeforeCommitStep(s.mem, s.locks, s.pcs[t], e.kind);
    }
    if e.t == t && e.kind.Begin? {
      b := n - 1;
    } else {
      b := FindBegin(ss, es, t, n - 1);
    }
  }

  /** The step at which an edit that has committed took effect, between its begin and now, and only there. */
  lemma {:induction false} FindCommit(ss: seq<Sys>, es: seq<Event>, t: nat, n: nat) returns (b: nat, c: nat)
    requires IsExecution(ss, es) && n <= |es| && AtRest(ss[0])
    requires t < |ss[n].pcs| && AfterCommit(ss[n].pcs[t])
    ensures b < c < n && es[b] == By(t, Begin(ss[n].pcs[t].op))
    ensures es[c].t == t && CommitAt(ss, es, c) == Some(ss[n].pcs[t].op)
    ensures NoCommitBy(ss, es, t, b, c) && NoCommitBy(ss, es, t, c + 1, n)
    ensures ss[n].pcs[t].phase.reply == Apply(SpecAt(ss, es, c), ss[n].pcs[t].op).1
    decreases n
  {
    hide NextMem, NextPc, Committing, NonEmpty, CanStep, SpecAt, Apply, InStep;
    var s, e := ss[n - 1], es[n - 1];
    assert Moves(s, e, ss[n]);
    if e.t != t {
      b, c := FindCommit(ss, es, t, n - 1);
    } else {
      AfterCommitStep(s.mem, s.locks, s.pcs[t], e.kind);
      if Commit(s, e).Some? {
        c := n - 1;
        var m := SpecAt(ss, es, c);
        SimAt(ss, es, c);
        assert HoldsLocks(s.mem.active, s.locks, t, s.pcs[t]);
        assert InStep(s.mem, m, s.pcs[t]);
        CommitReplies(s.mem, m, s.pcs[t], e.kind);
        b := FindBegin(ss, es, t, c);
      } else {
        b, c := FindCommit(ss, es, t, n - 1);
      }
    }
  }

  /**
   Every edit that finishes took effect at exactly one step between its begin and its finish, and its
   reply is the one the specification gives at that step.
   */
  lemma EditsAreLinearizable(ss: seq<Sys>, es: seq<Event>, n: nat) returns (b: nat, c: nat)
    requires IsExecution(ss, es) && n < |es| && AtRest(ss[0]) && es[n].kind.Finish?
    ensures es[n].t < |ss[n].pcs| && AfterCommit(ss[n].pcs[es[n].t])
    ensures var t, pc := es[n].t, ss[n].pcs[es[n].t];
            && b < c < n && es[b] == By(t, Begin(pc.op))
            && es[c].t == t && CommitAt(ss, es, c) == Some(pc.op)
            && NoCommitBy(ss, es, t, b, c) && NoCommitBy(ss, es, t, c + 1, n)
            && pc.phase.reply == Apply(SpecAt(ss, es, c), pc.op).1
  {
    hide Apply, SpecAt, CommitAt, Step;
    assert Moves(ss[n], es[n], ss[n + 1]);
    b, c := FindCommit(ss, es, es[n].t, n);
  }

  lemma ReadingStep(mem: Memory, locks: Locks, pc: Pc, kind: Kind)
    requires NonEmpty(mem.index) && CanStep(mem, locks, pc, kind) && NextPc(mem, pc, kind).Reading?
    ensures var pc' := NextPc(mem, pc, kind);
            if kind.LockRead? then pc' == Reading(kind.key, Locked)
            else pc.Reading? && pc.key == pc'.key && (pc'.look.Looked? ==> kind.Look?)
  {
    hide PlanFor, Decided, NonEmpty;
  }

  /** A lookup in progress: the step it began with, and, once it has looked, the step at which it did. */
  lemma {:induction false} FindLook(ss: seq<Sys>, es: seq<Event>, t: nat, n: nat) returns (b: nat, l: nat)
    requires IsExecution(ss, es) && n <= |es| && AtRest(ss[0])
    requires t < |ss[n].pcs| && ss[n].pcs[t].Reading?
    ensures NonEmpty(ss[0].mem.index) && b < n && es[b] == By(t, LockRead(ss[n].pcs[t].key))
    ensures ss[n].pcs[t].look.Looked? ==>
              && b < l < n && es[l] == By(t, Look)
              && ss[n].pcs[t].look.result == Get(SpecAt(ss, es, l).live, ss[n].pcs[t].key)
    decreases n
  {
    SpecStarts(ss, es);
    assert n > 0;
    ExecutionStep(ss, es, n - 1);
    var s, e := ss[n - 1], es[n - 1];
    hide IsExecution, AtRest, SpecAt, NextMem, NextPc, PlanFor, CommitAt, NonEmpty, CanStep, NextLocks;
    l := 0;
    if e.t == t {
      ReadingStep(s.mem, s.locks, s.pcs[t], e.kind);
    }
    if e.t == t && e.kind.LockRead? {
      b := n - 1;
    } else {
      b, l := FindLook(ss, es, t, n - 1);
      if e.t == t && e.kind.Look? {
        l := n - 1;
        LookupReadsSpec(ss, es, n - 1);
      }
    }
  }

  /**
   Every lookup that finishes returns what the specification's table held at its key at one step between its
   beginning and its end.
   */
  lemma LookupsAreLinearizable(ss: seq<Sys>, es: seq<Event>, n: nat) returns (b: nat, l: nat)
    requires IsExecution(ss, es) && n < |es| && AtRest(ss[0]) && es[n].kind.UnlockRead?
    ensures NonEmpty(ss[0].mem.index) && es[n].t < |ss[n].pcs|
    ensures var t, pc := es[n].t, ss[n].pcs[es[n].t];
            && pc.Reading? && pc.look.Looked? && b < l < n
            && es[b] == By(t, LockRead(pc.key)) && es[l] == By(t, Look)
            && pc.look.result == Get(SpecAt(ss, es, l).live, pc.key)
  {
    ExecutionStep(ss, es, n);
    hide IsExecution, AtRest, SpecAt, NextMem, NextPc, CommitAt, NonEmpty;
    b, l := FindLook(ss, es, es[n].t, n);
  }

  // ---------- every history happens ----------

  /** One run after another. */
  ghost function Join(ss: seq<Sys>, ts: seq<Sys>): seq<Sys>
    requires ss != []
  {
    ss[..|ss| - 1] + ts
  }

  lemma JoinIsExecution(ss: seq<Sys>, es: seq<Event>, ts: seq<Sys>, fs: seq<Event>)
    requires IsExecution(ss, es) && IsExecution(ts, fs) && ss[|es|] == ts[0]
    ensures |ss| == |es| + 1 && |ts| == |fs| + 1 && |Join(ss, ts)| == |es + fs| + 1
    ensures IsExecution(Join(ss, ts), es + fs)
  {
    hide Moves;
    var all, xs := Join(ss, ts), es + fs;
    forall i | 0 <= i < |xs| ensures Moves(all[i], xs[i], all[i + 1]) {
      if i < |es| {
        assert Moves(ss[i], es[i], ss[i + 1]);
      } else {
        assert Moves(ts[i - |es|], fs[i - |es|], ts[i - |es| + 1]);
      }
    }
  }

  lemma JoinAt(ss: seq<Sys>, es: seq<Event>, ts: seq<Sys>, fs: seq<Event>, i: nat)
    requires |ss| == |es| + 1 && |ts| == |fs| + 1 && ss[|es|] == ts[0]
    ensures i <= |es| ==> Join(ss, ts)[i] == ss[i]
    ensures i <= |fs| ==> Join(ss, ts)[|es| + i] == ts[i]
    ensures i < |es| ==> (es + fs)[i] == es[i]
    ensures i < |fs| ==> (es + fs)[|es| + i] == fs[i]
  {
  }

  lemma CommittedNext(ss: seq<Sys>, es: seq<Event>, n: nat)
    requires IsExecution(ss, es) && n < |es|
    ensures Committed(ss, es, n + 1) ==
            Committed(ss, es, n) + match CommitAt(ss, es, n) { case Some(op) => [op] case None => [] }
  {
    hide IsExecution, CommitAt;
  }

  lemma SameCommit(ss: seq<Sys>, es: seq<Event>, i: nat, ts: seq<Sys>, fs: seq<Event>, j: nat)
    requires IsExecution(ss, es) && IsExecution(ts, fs) && i < |es| && j < |fs| && ss[i] == ts[j] && es[i] == fs[j]
    ensures CommitAt(ss, es, i) == CommitAt(ts, fs, j)
  {
    ExecutionStep(ss, es, i);
    ExecutionStep(ts, fs, j);
    hide IsExecution, CommitAt, Commit, NonEmpty, Enabled, Step;
  }

  lemma {:induction false} CommittedBefore(ss: seq<Sys>, es: seq<Event>, ts: seq<Sys>, fs: seq<Event>, n: nat)
    requires IsExecution(ss, es) && IsExecution(ts, fs) && n <= |es| <= |fs|
    requires (forall i | 0 <= i <= n :: ss[i] == ts[i]) && forall i | 0 <= i < n :: es[i] == fs[i]
    ensures Committed(ss, es, n) == Committed(ts, fs, n)
  {
    if n > 0 {
      hide *;
      CommittedBefore(ss, es, ts, fs, n - 1);
      SameCommit(ss, es, n - 1, ts, fs, n - 1);
      CommittedNext(ss, es, n - 1);
      CommittedNext(ts, fs, n - 1);
    }
  }

  lemma CommittedJoinFirst(ss: seq<Sys>, es: seq<Event>, ts: seq<Sys>, fs: seq<Event>)
    requires IsExecution(ss, es) && IsExecution(ts, fs) && |ss| == |es| + 1 && ts != [] && ss[|es|] == ts[0]
    requires IsExecution(Join(ss, ts), es + fs)
    ensures Committed(Join(ss, ts), es + fs, |es|) == Committed(ss, es, |es|)
  {
    hide Moves;
    assert |ts| == |fs| + 1;
    var all, xs := Join(ss, ts), es + fs;
    forall i | 0 <= i <= |es| ensures all[i] == ss[i] && (i < |es| ==> xs[i] == es[i]) {
      JoinAt(ss, es, ts, fs, i);
    }
    CommittedBefore(ss, es, all, xs, |es|);
  }

  lemma CommittedJoinNext(ss: seq<Sys>, es: seq<Event>, ts: seq<Sys>, fs: seq<Event>, n: nat)
    requires IsExecution(ss, es) && IsExecution(ts, fs) && |ss| == |es| + 1 && ts != [] && ss[|es|] == ts[0] && n < |fs|
    requires IsExecution(Join(ss, ts), es + fs)
    ensures CommitAt(Join(ss, ts), es + fs, |es| + n) == CommitAt(ts, fs, n)
  {
    hide Moves;
    JoinAt(ss, es, ts, fs, n);
    SameCommit(Join(ss, ts), es + fs, |es| + n, ts, fs, n);
  }

  lemma {:induction false} CommittedJoin(ss: seq<Sys>, es: seq<Event>, ts: seq<Sys>, fs: seq<Event>, n: nat)
    requires IsExecution(ss, es) && IsExecution(ts, fs) && n <= |fs|
    requires |ss| == |es| + 1 && ts != [] && ss[|es|] == ts[0]
    requires IsExecution(Join(ss, ts), es + fs)
    ensures Committed(Join(ss, ts), es + fs, |es| + n) == Committed(ss, es, |es|) + Committed(ts, fs, n)
    decreases n
  {
    hide *;
    var all, xs := Join(ss, ts), es + fs;
    if n == 0 {
      CommittedJoinFirst(ss, es, ts, fs);
      NothingCommitted(ts, fs);
    } else {
      CommittedJoin(ss, es, ts, fs, n - 1);
      CommittedJoinNext(ss, es, ts, fs, n - 1);
      CommittedNext(all, xs, |es| + (n - 1));
      CommittedNext(ts, fs, n - 1);
    }
  }

  lemma NothingCommitted(ss: seq<Sys>, es: seq<Event>)
    requires IsExecution(ss, es)
    ensures Committed(ss, es, 0) == []
  {
  }

  /** With nobody looking up, an edit can always take its next step. */
  lemma EditCanStep(s: Sys, m: State, t: nat) returns (e: Event)
    requires Sim(s, m) && t < |s.pcs| && s.pcs[t].Editing? && s.locks.readers == {}
    ensures NonEmpty(s.mem.index) && NonEmpty(m.index) && e.t == t && !e.kind.Begin? && Enabled(s, e)
    ensures Step(s, e).locks.readers == {} && NonEmpty(Step(s, e).mem.index)
    ensures StepsLeft(Step(s, e).mem, Step(s, e).pcs[t]) == StepsLeft(s.mem, s.pcs[t]) - 1
    ensures Sim(Step(s, e), Follow(m, Commit(s, e)))
  {
    assert HoldsLocks(s.mem.active, s.locks, t, s.pcs[t]);
    WriterEdits(s);
    e := By(t, NextKind(s.pcs[t]));
    StepSimulates(s, m, e);
    OwnStepCounts(s.mem, s.locks, s.pcs[t], e.kind);
    hide LocksHeld, InStep, NonEmpty, StepsLeft, NextMem, NextPc, Commit, Follow;
  }

  function EditBy(pc: Pc): Option<Op> {
    if pc.Editing? then Some(pc.op) else None
  }

  /** What is still to be committed by a thread. */
  function Pending(pc: Pc): seq<Op> {
    if BeforeCommit(pc) then [pc.op] else []
  }

  /** Where the specification will be when a thread has committed. */
  function Ahead(m: State, pc: Pc): State
    requires NonEmpty(m.index)
  {
    if BeforeCommit(pc) then Apply(m, pc.op).0 else m
  }

  /** That step finishes the edit, or goes on with it; what is committed and what is pending are the same together. */
  lemma EditGoesOn(s: Sys, e: Event, m: State)
    requires NonEmpty(s.mem.index) && NonEmpty(m.index) && Enabled(s, e) && s.pcs[e.t].Editing?
    ensures var pc, pc' := s.pcs[e.t], Step(s, e).pcs[e.t];
            && Step(s, e).pcs == s.pcs[e.t := pc']
            && (pc' == Idle || EditBy(pc') == EditBy(pc))
            && (match Commit(s, e) { case Some(op) => [op] case None => [] }) + Pending(pc') == Pending(pc)
            && Ahead(Follow(m, Commit(s, e)), pc') == Ahead(m, pc)
  {
    hide PlanFor, NextMem, NonEmpty, Apply;
  }

  lemma SameStart(s: Sys, e: Event)
    requires NonEmpty(s.mem.index) && Enabled(s, e)
    ensures IsExecution([s, Step(s, e)], [e])
    ensures Committed([s, Step(s, e)], [e], 1) == match Commit(s, e) { case Some(op) => [op] case None => [] }
  {
    hide Step, Enabled, Commit, NonEmpty;
    var ss, es := [s, Step(s, e)], [e];
    assert Moves(ss[0], es[0], ss[1]);
    CommittedNext(ss, es, 0);
  }

  lemma AtEnd(s: Sys, m: State)
    requires Sim(s, m) && (forall t | 0 <= t < |s.pcs| :: !s.pcs[t].Editing?)
    ensures s.locks.editLock == None && s.locks.writer == None && NonEmpty(s.mem.index) && StateOf(s) == m
  {
    WriterEdits(s);
    EditorEdits(s);
    hide LocksHeld;
  }

  /**
   With nobody looking up, an edit can finish on its own, wherever it is: it commits once if it has not yet,
   and leaves every other thread as it was.
   */
  lemma {:induction false} EditCanFinish(s: Sys, m: State, t: nat) returns (ss: seq<Sys>, es: seq<Event>)
    requires Sim(s, m) && t < |s.pcs| && s.pcs[t].Editing? && s.locks.readers == {} && NonEmpty(s.mem.index)
    ensures IsExecution(ss, es) && |ss| == |es| + 1 && ss[0] == s && NonEmpty(m.index)
    ensures forall e | e in es :: e.t == t && !e.kind.Begin?
    ensures ss[|es|].pcs == s.pcs[t := Idle] && ss[|es|].locks.readers == {}
    ensures Committed(ss, es, |es|) == Pending(s.pcs[t])
    ensures Sim(ss[|es|], Ahead(m, s.pcs[t]))
    decreases StepsLeft(s.mem, s.pcs[t])
  {
    hide *;
    var e := EditCanStep(s, m, t);
    EditGoesOn(s, e, m);
    if Step(s, e).pcs[t] == Idle {
      SameStart(s, e);
      IdleIsDone(Follow(m, Commit(s, e)));
      ss, es := [s, Step(s, e)], [e];
    } else {
      StillEditing(s.pcs[t], Step(s, e).pcs[t]);
      var ts, fs := EditCanFinish(Step(s, e), Follow(m, Commit(s, e)), t);
      ss, es := Prepend(s, e, ts, fs);
    }
  }

  lemma StillEditing(pc: Pc, pc': Pc)
    requires pc.Editing? && EditBy(pc') == EditBy(pc)
    ensures pc'.Editing?
  {
  }

  lemma IdleIsDone(m: State)
    requires NonEmpty(m.index)
    ensures Pending(Idle) == [] && Ahead(m, Idle) == m
  {
  }

  /** One step, and then a run. */
  lemma Prepend(s: Sys, e: Event, ts: seq<Sys>, fs: seq<Event>) returns (ss: seq<Sys>, es: seq<Event>)
    requires NonEmpty(s.mem.index) && Enabled(s, e) && IsExecution(ts, fs) && |ts| == |fs| + 1 && ts[0] == Step(s, e)
    ensures IsExecution(ss, es) && |ss| == |es| + 1 && es == [e] + fs && ss[0] == s && ss[|es|] == ts[|fs|]
    ensures Committed(ss, es, |es|) ==
            (match Commit(s, e) { case Some(op) => [op] case None => [] }) + Committed(ts, fs, |fs|)
  {
    hide *;
    SameStart(s, e);
    JoinIsExecution([s, Step(s, e)], [e], ts, fs);
    CommittedJoin([s, Step(s, e)], [e], ts, fs, |fs|);
    JoinEnds([s, Step(s, e)], [e], ts, fs);
    ss, es := Join([s, Step(s, e)], ts), [e] + fs;
  }

  lemma FollowIs(m: State, op: Option<Op>)
    requires NonEmpty(m.index)
    ensures Follow(m, op) == match op { case Some(o) => Apply(m, o).0 case None => m }
  {
  }

  lemma JoinEnds(ss: seq<Sys>, es: seq<Event>, ts: seq<Sys>, fs: seq<Event>)
    requires |ss| == |es| + 1 && |ts| == |fs| + 1 && ss[|es|] == ts[0]
    ensures |Join(ss, ts)| == |es + fs| + 1 && Join(ss, ts)[0] == ss[0] && Join(ss, ts)[|es + fs|] == ts[|fs|]
  {
  }

  /**
   Every history happens: for every sequence of edits, with whatever their disk calls return, there is a run
   that starts and ends with nobody doing anything and commits just these edits in this order.
   */
  lemma {:induction false} EveryHistoryHappens(s: Sys, ops: seq<Op>, t: nat) returns (ss: seq<Sys>, es: seq<Event>)
    requires AtRest(s) && t < |s.pcs|
    ensures IsExecution(ss, es) && |ss| == |es| + 1 && ss[0] == s && AtRest(ss[|es|]) && |ss[|es|].pcs| == |s.pcs|
    ensures Committed(ss, es, |es|) == ops
    decreases |ops|
  {
    hide *;
    if ops == [] {
      ss, es := [s], [];
      NoSteps(s);
    } else {
      var ts, fs := EditHappens(s, ops[0], t);
      var us, gs := EveryHistoryHappens(ts[|fs|], ops[1..], t);
      JoinIsExecution(ts, fs, us, gs);
      CommittedJoin(ts, fs, us, gs, |gs|);
      JoinEnds(ts, fs, us, gs);
      ss, es := Join(ts, us), fs + gs;
      assert ops == [ops[0]] + ops[1..];
    }
  }

  lemma NoSteps(s: Sys)
    ensures IsExecution([s], []) && Committed([s], [], 0) == []
  {
  }

  /** One edit, from beginning to end. */
  lemma EditHappens(s: Sys, op: Op, t: nat) returns (ss: seq<Sys>, es: seq<Event>)
    requires AtRest(s) && t < |s.pcs|
    ensures IsExecution(ss, es) && |ss| == |es| + 1 && ss[0] == s && AtRest(ss[|es|]) && |ss[|es|].pcs| == |s.pcs|
    ensures Committed(ss, es, |es|) == [op]
    ensures es != [] && es[0] == By(t, Begin(op)) && forall e | e in es[1..] :: e.t == t && !e.kind.Begin?
    ensures ss[|es|].pcs == s.pcs && NonEmpty(s.mem.index) && StateOf(ss[|es|]) == Apply(StateOf(s), op).0
  {
    var e := By(t, Begin(op));
    StartsInStep(s);
    StepSimulates(s, StateOf(s), e);
    BeginIsPending(s, op, t);
    var s' := Step(s, e);
    FollowIs(StateOf(s), Commit(s, e));
    assert s.pcs[t := Idle] == s.pcs;
    assert forall u | 0 <= u < |s.pcs| :: s.pcs[u] == Idle;
    hide *;
    var ts, fs := EditCanFinish(s', StateOf(s), t);
    AtEnd(ts[|fs|], Apply(StateOf(s), op).0);
    RestsAgain(ts[|fs|]);
    ss, es := Prepend(s, e, ts, fs);
  }

  lemma BeginIsPending(s: Sys, op: Op, t: nat)
    requires AtRest(s) && t < |s.pcs|
    ensures Enabled(s, By(t, Begin(op))) && NonEmpty(s.mem.index) && Commit(s, By(t, Begin(op))) == None
    ensures var s' := Step(s, By(t, Begin(op)));
            && s'.pcs == s.pcs[t := s'.pcs[t]] && s'.pcs[t].Editing?
            && Pending(s'.pcs[t]) == [op] && Ahead(StateOf(s), s'.pcs[t]) == Apply(StateOf(s), op).0
            && s'.locks.readers == {} && NonEmpty(s'.mem.index)
  {
    hide NonEmpty;
  }

  lemma RestsAgain(s: Sys)
    requires s.locks.editLock == None && s.locks.writer == None && s.locks.readers == {} && NonEmpty(s.mem.index)
    requires forall t | 0 <= t < |s.pcs| :: s.pcs[t] == Idle
    ensures AtRest(s)
  {
  }

  // ---------- what readers see from one moment to a later one ----------

  lemma AltersOnly(m: State, op: Op, key: string)
    requires Inv(m) && !Touches(m, op, key)
    ensures Get(Apply(m, op).0.live, key) == Get(m.live, key)
  {
  }

  /** No edit committed in the steps `[from, to)` changes what is found at the key. */
  ghost predicate Unaltered(ss: seq<Sys>, es: seq<Event>, key: string, from: nat, to: nat)
    requires IsExecution(ss, es) && to <= |es| && NonEmpty(ss[0].mem.index)
  {
    forall i | from <= i < to && CommitAt(ss, es, i).Some? ::
      !Touches(SpecAt(ss, es, i), CommitAt(ss, es, i).value, key)
  }

  /** The first unlink of no `RemoveNames` fails among the edits committed in the first `n` steps. */
  ghost predicate Sound(ss: seq<Sys>, es: seq<Event>, n: nat)
    requires IsExecution(ss, es) && n <= |es| && NonEmpty(ss[0].mem.index)
  {
    forall i | 0 <= i < n && CommitAt(ss, es, i).Some? ::
      !FirstUnlinkFails(SpecAt(ss, es, i), CommitAt(ss, es, i).value)
  }

  lemma FollowKeeps(m: State, op: Option<Op>)
    requires Inv(m) && (op.Some? ==> !FirstUnlinkFails(m, op.value))
    ensures NonEmpty(m.index) && Inv(Follow(m, op))
  {
    if op.Some? {
      ApplyKeeps(m, op.value);
      hide Apply, Indexed, HostsKeyed, Persisted;
    }
  }

  lemma SoundBefore(ss: seq<Sys>, es: seq<Event>, n: nat)
    requires IsExecution(ss, es) && n < |es| && NonEmpty(ss[0].mem.index) && Sound(ss, es, n + 1)
    ensures Sound(ss, es, n)
    ensures CommitAt(ss, es, n).Some? ==> !FirstUnlinkFails(SpecAt(ss, es, n), CommitAt(ss, es, n).value)
  {
    hide IsExecution, CommitAt, SpecAt, FirstUnlinkFails, NonEmpty;
  }

  lemma SoundEarlier(ss: seq<Sys>, es: seq<Event>, m: nat, n: nat)
    requires IsExecution(ss, es) && m <= n <= |es| && NonEmpty(ss[0].mem.index) && Sound(ss, es, n)
    ensures Sound(ss, es, m)
  {
    hide IsExecution, CommitAt, SpecAt, FirstUnlinkFails, NonEmpty;
  }

  lemma {:induction false} InvAt(ss: seq<Sys>, es: seq<Event>, n: nat)
    requires IsExecution(ss, es) && n <= |es| && AtRest(ss[0])
    requires Inv(StateOf(ss[0])) && Sound(ss, es, n)
    ensures NonEmpty(ss[0].mem.index) && Inv(SpecAt(ss, es, n))
    decreases n
  {
    hide *;
    SpecStarts(ss, es);
    if n > 0 {
      SoundBefore(ss, es, n - 1);
      InvAt(ss, es, n - 1);
      SpecMoves(ss, es, n - 1);
      FollowKeeps(SpecAt(ss, es, n - 1), CommitAt(ss, es, n - 1));
    }
  }

  /** What is found at a key stays the same as long as no edit that changes it commits, whatever is refused or fails. */
  lemma {:induction false} LookupsAreStable(ss: seq<Sys>, es: seq<Event>, key: string, from: nat, to: nat)
    requires IsExecution(ss, es) && from <= to <= |es| && AtRest(ss[0])
    requires Inv(StateOf(ss[0])) && Sound(ss, es, to) && Unaltered(ss, es, key, from, to)
    ensures Get(SpecAt(ss, es, to).live, key) == Get(SpecAt(ss, es, from).live, key)
    decreases (to)
  {
    hide CommitAt, SpecAt, Apply, Inv, Touches, Sim;
    if from < to {
      LookupsAreStable(ss, es, key, from, to - 1);
      InvAt(ss, es, to - 1);
      SpecMoves(ss, es, to - 1);
      match CommitAt(ss, es, to - 1)
      case Some(op) => AltersOnly(SpecAt(ss, es, to - 1), op, key);
      case None =>
    }
  }

  /** The edits that put something at a free key. */
  predicate Puts(op: Op, key: string) {
    match op
    case Online(p, _, _, stored) => p.fqdn == key && stored
    case AddName(n, stored) => n.name == key && stored
    case _ => false
  }

  lemma PutsExactly(m: State, op: Op, key: string)
    requires Inv(m) && key !in m.live
    ensures key in Apply(m, op).0.live <==> Puts(op, key)
  {
    hide Listed, Backed, Distinct, HostsKeyed, Persisted, Enlist, Reduce, DropFirst, RecordOf;
  }

  /** A key that is not found stays not found exactly as long as no edit that puts something there commits. */
  lemma {:induction false} MissingExactlyWhile(ss: seq<Sys>, es: seq<Event>, key: string, from: nat, to: nat)
    requires IsExecution(ss, es) && from <= to <= |es| && AtRest(ss[0])
    requires Inv(StateOf(ss[0])) && Sound(ss, es, to) && key !in ss[from].mem.Live()
    ensures (forall k | from <= k <= to :: key !in ss[k].mem.Live()) <==>
            (forall i | from <= i < to && CommitAt(ss, es, i).Some? :: !Puts(CommitAt(ss, es, i).value, key))
    decreases (to)
  {
    hide *;
    SpecStarts(ss, es);
    if from < to {
      SoundBefore(ss, es, to - 1);
      MissingExactlyWhile(ss, es, key, from, to - 1);
      InvAt(ss, es, to - 1);
      ActiveAt(ss, es, to - 1);
      ActiveChangesAtCommits(ss, es, to - 1);
      if CommitAt(ss, es, to - 1).Some? && key !in ss[to - 1].mem.Live() {
        PutsExactly(SpecAt(ss, es, to - 1), CommitAt(ss, es, to - 1).value, key);
      }
    }
  }

  lemma BatchRemoves(m: State, op: Op, key: string)
    requires Inv(m) && Drops(m.index, op, key)
    ensures key in m.live && key !in Apply(m, op).0.live
  {
  }

  /** Only the thread that holds `editLock` commits. */
  lemma OthersCommitNothing(ss: seq<Sys>, es: seq<Event>, t: nat, i: nat)
    requires IsExecution(ss, es) && i < |es| && AtRest(ss[0])
    requires t < |ss[i].pcs| && ss[i].pcs[t].Editing? && es[i].t != t
    ensures CommitAt(ss, es, i) == None
  {
    SimAt(ss, es, i);
    ExecutionStep(ss, es, i);
    hide SpecAt, Step, InStep, NonEmpty, CommitAt, CanStep;
    assert HoldsLocks(ss[i].mem.active, ss[i].locks, t, ss[i].pcs[t]);
    assert HoldsLocks(ss[i].mem.active, ss[i].locks, es[i].t, ss[i].pcs[es[i].t]);
  }

  /** While an edit is on its way to its commit, the specification stands still. */
  lemma {:induction false} SpecStandsStill(ss: seq<Sys>, es: seq<Event>, t: nat, b: nat, k: nat, c: nat)
    requires IsExecution(ss, es) && b <= k <= c < |es| && AtRest(ss[0])
    requires es[b].t == t && NoCommitBy(ss, es, t, b, c)
    requires forall i | b < i <= c :: t < |ss[i].pcs| && BeforeCommit(ss[i].pcs[t])
    ensures SpecAt(ss, es, k) == SpecAt(ss, es, c)
    decreases c - k
  {
    if k < c {
      if es[k].t != t {
        assert BeforeCommit(ss[k].pcs[t]);
        OthersCommitNothing(ss, es, t, k);
      }
      assert CommitAt(ss, es, k) == None;
      hide *;
      SpecStarts(ss, es);
      SpecAfter(ss, es, k);
      SpecStandsStill(ss, es, t, b, k + 1, c);
    }
  }

  lemma CommitIsPending(ss: seq<Sys>, es: seq<Event>, c: nat)
    requires IsExecution(ss, es) && c < |es| && CommitAt(ss, es, c).Some?
    ensures es[c].t < |ss[c].pcs| && BeforeCommit(ss[c].pcs[es[c].t])
    ensures ss[c].pcs[es[c].t].op == CommitAt(ss, es, c).value
  {
    ExecutionStep(ss, es, c);
    hide Step, NonEmpty, CanStep, PlanFor;
  }

  /** What is there when an edit commits has been there since it began. */
  lemma FoundSinceBegin(ss: seq<Sys>, es: seq<Event>, c: nat, op: Op, key: string) returns (b: nat)
    requires IsExecution(ss, es) && c < |es| && AtRest(ss[0]) && CommitAt(ss, es, c) == Some(op)
    ensures NonEmpty(ss[0].mem.index) && b < c && es[b] == By(es[c].t, Begin(op))
    ensures key in SpecAt(ss, es, c).live ==> forall k | b <= k <= c :: key in ss[k].mem.Live()
  {
    CommitIsPending(ss, es, c);
    hide *;
    SpecStarts(ss, es);
    b := FindBegin(ss, es, es[c].t, c);
    forall k | b <= k <= c ensures ss[k].mem.Live() == SpecAt(ss, es, c).live {
      SpecStandsStill(ss, es, es[c].t, b, k, c);
      ActiveAt(ss, es, k);
    }
  }

  /**
   A batch goes as one: from the step `b` at which the `RemoveNames` began until it commits at step `c`, a
   reader that looks finds every name of the prefix it removes. After the commit it finds none of them, each
   exactly until an edit that puts it back commits.
   */
  lemma BatchIsAtomic(ss: seq<Sys>, es: seq<Event>, c: nat, n: nat, op: Op, key: string) returns (b: nat)
    requires IsExecution(ss, es) && c < n <= |es| && AtRest(ss[0])
    requires Inv(StateOf(ss[0])) && Sound(ss, es, n)
    requires CommitAt(ss, es, c) == Some(op) && Drops(SpecAt(ss, es, c).index, op, key)
    ensures b < c && es[b] == By(es[c].t, Begin(op))
    ensures forall k | b <= k <= c :: key in ss[k].mem.Live()
    ensures key !in ss[c + 1].mem.Live()
    ensures (forall k | c < k <= n :: key !in ss[k].mem.Live()) <==>
            (forall i | c < i < n && CommitAt(ss, es, i).Some? :: !Puts(CommitAt(ss, es, i).value, key))
  {
    hide *;
    b := FoundSinceBegin(ss, es, c, op, key);
    SpecStarts(ss, es);
    SoundEarlier(ss, es, c, n);
    InvAt(ss, es, c);
    BatchRemoves(SpecAt(ss, es, c), op, key);
    ActiveChangesAtCommits(ss, es, c);
    MissingExactlyWhile(ss, es, key, c + 1, n);
  }

  /**
   A name a reader finds stays with its owner, at every step of an interval, if and only if no edit commits
   in it by which the owner removes it or the peer with that FQDN comes online.
   */
  lemma {:induction false} NameStaysWithOwnerConcurrently(ss: seq<Sys>, es: seq<Event>, key: string, owner: string,
                                                          from: nat, to: nat)
    requires IsExecution(ss, es) && from <= to <= |es| && AtRest(ss[0])
    requires Inv(StateOf(ss[0])) && Sound(ss, es, to) && Histories.HeldBy(ss[from].mem.Live(), key, owner)
    ensures NonEmpty(ss[0].mem.index)
    ensures (forall k | from <= k <= to :: Histories.HeldBy(ss[k].mem.Live(), key, owner)) <==>
            (forall i | from <= i < to && CommitAt(ss, es, i).Some? ::
               !Histories.EndsName(SpecAt(ss, es, i).index, CommitAt(ss, es, i).value, key, owner))
    decreases (to)
  {
    hide *;
    SpecStarts(ss, es);
    if from < to {
      SoundBefore(ss, es, to - 1);
      NameStaysWithOwnerConcurrently(ss, es, key, owner, from, to - 1);
      InvAt(ss, es, to - 1);
      ActiveAt(ss, es, to - 1);
      ActiveChangesAtCommits(ss, es, to - 1);
      if CommitAt(ss, es, to - 1).Some? && Histories.HeldBy(ss[to - 1].mem.Live(), key, owner) {
        Histories.EditEndsName(SpecAt(ss, es, to - 1), CommitAt(ss, es, to - 1).value, key, owner);
      }
    }
  }

  lemma AddedIsHeld(m: State, n: NamedRoute, stored: bool)
    requires Inv(m) && Apply(m, AddName(n, stored)).1 == Ok
    ensures Histories.HeldBy(Apply(m, AddName(n, stored)).0.live, n.name, n.owner)
  {
    hide Backed, Distinct, HostsKeyed, Persisted, Enlist, RecordOf;
  }

  /**
   Once an `AddName` that succeeds has committed, every lookup finds a route of that name and owner, exactly
   until an edit commits that ends the name. (The reply follows the commit, so this covers every lookup that
   starts after it.)
   */
  lemma AddedNameIsFound(ss: seq<Sys>, es: seq<Event>, c: nat, n: nat, route: NamedRoute, stored: bool)
    requires IsExecution(ss, es) && c < n <= |es| && AtRest(ss[0])
    requires Inv(StateOf(ss[0])) && Sound(ss, es, n)
    requires CommitAt(ss, es, c) == Some(AddName(route, stored))
    requires Apply(SpecAt(ss, es, c), AddName(route, stored)).1 == Ok
    ensures (forall k | c < k <= n :: Histories.HeldBy(ss[k].mem.Live(), route.name, route.owner)) <==>
            (forall i | c < i < n && CommitAt(ss, es, i).Some? ::
               !Histories.EndsName(SpecAt(ss, es, i).index, CommitAt(ss, es, i).value, route.name, route.owner))
  {
    hide *;
    SpecStarts(ss, es);
    SoundEarlier(ss, es, c, n);
    InvAt(ss, es, c);
    AddedIsHeld(SpecAt(ss, es, c), route, stored);
    ActiveChangesAtCommits(ss, es, c);
    NameStaysWithOwnerConcurrently(ss, es, route.name, route.owner, c + 1, n);
  }

  // ---------- sequential results carry over ----------

  function EditsOf(ops: seq<Op>): (es: seq<Histories.Event>)
    ensures |es| == |ops| && forall i | 0 <= i < |ops| :: es[i] == Histories.Edit(ops[i])
  {
    seq(|ops|, i requires 0 <= i < |ops| => Histories.Edit(ops[i]))
  }

  /** The session at `f` as the committed edits alone tell it. */
  ghost function ToldPeer(ss: seq<Sys>, es: seq<Event>, f: string, n: nat): Peer?
    requires IsExecution(ss, es) && n <= |es|
  {
    Histories.LastPeer(PeerAt(ss[0].mem.Live(), f), EditsOf(Committed(ss, es, n)), f)
  }

  lemma ToldStarts(ss: seq<Sys>, es: seq<Event>, f: string)
    requires IsExecution(ss, es)
    ensures ToldPeer(ss, es, f, 0) == PeerAt(ss[0].mem.Live(), f)
  {
    hide Moves, PeerAt;
    assert EditsOf([]) == [];
  }

  lemma ToldNext(ss: seq<Sys>, es: seq<Event>, f: string, n: nat)
    requires IsExecution(ss, es) && n < |es|
    ensures ToldPeer(ss, es, f, n + 1) ==
            match CommitAt(ss, es, n) {
              case Some(op) => Histories.PeerAfter(ToldPeer(ss, es, f, n), Histories.Edit(op), f)
              case None => ToldPeer(ss, es, f, n)
            }
  {
    var start := PeerAt(ss[0].mem.Live(), f);
    var ops := Committed(ss, es, n);
    assert Committed(ss, es, n + 1) == match CommitAt(ss, es, n) { case Some(op) => ops + [op] case None => ops };
    hide CommitAt, Committed, Histories.LastPeer, Histories.PeerAfter;
    match CommitAt(ss, es, n)
    case Some(op) =>
      var all := EditsOf(ops + [op]);
      assert all[..|ops|] == EditsOf(ops) && all[..|ops| + 1] == all;
      Histories.LastPeerNext(start, all, f, |ops|);
    case None =>
  }

  /**
   Under any interleaving, the last registration wins exactly when nobody is evicted: at every step the
   session a reader finds at `f` is the last whose `Online` committed there without an `Offline` of its own
   since, if and only if no `RemoveNames` commits that gets to `f` while a session is found there.
   */
  lemma {:induction false} LastRegistrationWinsConcurrently(ss: seq<Sys>, es: seq<Event>, f: string, n: nat)
    requires IsExecution(ss, es) && n <= |es| && AtRest(ss[0]) && Inv(StateOf(ss[0])) && Sound(ss, es, n)
    ensures (forall k | 0 <= k <= n :: PeerAt(ss[k].mem.Live(), f) == ToldPeer(ss, es, f, k)) <==>
            (forall i | 0 <= i < n && CommitAt(ss, es, i).Some? ::
               !Histories.Evicts(SpecAt(ss, es, i), CommitAt(ss, es, i).value, f))
    decreases n
  {
    hide *;
    SpecStarts(ss, es);
    if n == 0 {
      ToldStarts(ss, es, f);
    } else {
      SoundBefore(ss, es, n - 1);
      LastRegistrationWinsConcurrently(ss, es, f, n - 1);
      InvAt(ss, es, n - 1);
      ActiveAt(ss, es, n - 1);
      ActiveChangesAtCommits(ss, es, n - 1);
      ToldNext(ss, es, f, n - 1);
      if CommitAt(ss, es, n - 1).Some? {
        Histories.EditMovesPeerExactlyWhen(SpecAt(ss, es, n - 1), CommitAt(ss, es, n - 1).value, f);
      }
    }
  }

  /** First unlinks may fail too: so it does at an FQDN that nobody gets as a name. */
  lemma {:induction false} LastRegistrationWinsAtHosts(ss: seq<Sys>, es: seq<Event>, f: string, n: nat)
    requires IsExecution(ss, es) && n <= |es| && AtRest(ss[0]) && Histories.HostsOnly(StateOf(ss[0]), f)
    requires forall i | 0 <= i < n && CommitAt(ss, es, i).Some? ::
      !Histories.Takes(SpecAt(ss, es, i), CommitAt(ss, es, i).value, f)
    ensures Histories.HostsOnly(SpecAt(ss, es, n), f)
    ensures PeerAt(ss[n].mem.Live(), f) == ToldPeer(ss, es, f, n)
    decreases n
  {
    hide *;
    SpecStarts(ss, es);
    if n == 0 {
      ToldStarts(ss, es, f);
    } else {
      LastRegistrationWinsAtHosts(ss, es, f, n - 1);
      ActiveAt(ss, es, n - 1);
      ActiveChangesAtCommits(ss, es, n - 1);
      SpecAfter(ss, es, n - 1);
      ToldNext(ss, es, f, n - 1);
      if CommitAt(ss, es, n - 1).Some? {
        HostsStay(SpecAt(ss, es, n - 1), CommitAt(ss, es, n - 1).value, f);
      }
    }
  }

  lemma HostsStay(m: State, op: Op, f: string)
    requires NonEmpty(m.index) && Histories.HostsOnly(m, f) && !Histories.Takes(m, op, f)
    ensures Histories.HostsOnly(Apply(m, op).0, f)
    ensures PeerAt(Apply(m, op).0.live, f) == Histories.PeerAfter(PeerAt(m.live, f), Histories.Edit(op), f)
  {
    Histories.EditKeepsHostsOnly(m, op, f);
    Histories.EditMovesPeer(m, op, f);
    hide Apply, NonEmpty, Histories.HostsOnly;
  }
}
