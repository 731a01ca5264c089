/**
 Crashes: what a restart finds on disk at any step of any concurrent run, in the middle of an edit included.
 Each `store` and each `unlink` is one step.
 */
module Recovery {
  import opened Routes
  import opened RouterSpec
  import opened Invariants
  import opened Restart
  import opened Protocol
  import opened Executions
  import TwinRouter

  // ---------- the files in the middle of an edit ----------

  /** How many routes of a list are off the disk after `done` actions of a `RemoveNames`, three to a route. */
  function OffDisk(done: nat): nat {
    (done + 2) / 3
  }

  /** The table the files account for while an edit is in progress. */
  function TableOnDisk(m: State, edit: Pc): Table
    requires NonEmpty(m.index)
  {
    match edit
    case Editing(RemoveNames(from, _), _, Working(_, done, _, _)) =>
      if from in m.index && OffDisk(done) <= |m.index[from]|
      then m.live - NamesOf(m.index[from][..OffDisk(done)])
      else m.live
    case Editing(op, _, Working(_, done, _, _)) => if done == 0 then m.live else Apply(m, op).0.live
    case Editing(op, _, Exchanging(_, _)) => Apply(m, op).0.live
    case _ => m.live
  }

  /** A `RemoveNames` takes its routes one by one: the file, then the index, then the table. */
  lemma {:induction false} RemovalsAt(owner: string, l: seq<NamedRoute>, k: nat)
    requires k <= |l|
    ensures |Removals(owner, l, k)| == 3 * k
    ensures forall i | 0 <= i < 3 * k ::
      Removals(owner, l, k)[i] ==
      if i % 3 == 0 then UnlinkFile(l[i / 3].name)
      else if i % 3 == 1 then DelistRoute(owner, l[i / 3]) else Alter(Del(l[i / 3].name))
  {
    if k > 0 {
      RemovalsAt(owner, l, k - 1);
    }
  }

  lemma NextFiles(w: Work, xs: seq<Action>, i: nat)
    requires i < |xs|
    ensures DoAll(w, xs[..i + 1]) == Do(DoAll(w, xs[..i]), xs[i])
  {
    DoMore(w, xs[..i], xs[i]);
    assert xs[..i + 1] == xs[..i] + [xs[i]];
  }

  lemma OneFile(w: Work, x: Action)
    ensures x.UnlinkFile? ==> Do(w, x).files == w.files - {x.key}
    ensures x.DelistRoute? || x.Alter? ==> Do(w, x).files == w.files
  {
  }

  lemma OffDiskNext(i: nat)
    ensures if i % 3 == 0 then OffDisk(i) == i / 3 && OffDisk(i + 1) == i / 3 + 1 else OffDisk(i + 1) == OffDisk(i)
  {
  }

  lemma RemovalAt(owner: string, l: seq<NamedRoute>, k: nat, i: nat)
    requires k <= |l| && i < 3 * k
    ensures |Removals(owner, l, k)| == 3 * k && i / 3 < k
    ensures var x := Removals(owner, l, k)[i];
            if i % 3 == 0 then x == UnlinkFile(l[i / 3].name) else x.DelistRoute? || x.Alter?
  {
    RemovalsAt(owner, l, k);
  }

  lemma NothingOffDisk(w: Work, owner: string, l: seq<NamedRoute>, k: nat)
    requires k <= |l|
    ensures |Removals(owner, l, k)| == 3 * k && OffDisk(0) == 0 && w.files - NamesOf(l[..0]) == w.files
    ensures DoAll(w, Removals(owner, l, k)[..0]) == w
  {
    RemovalsAt(owner, l, k);
    assert NamesOf(l[..0]) == {};
  }

  lemma {:induction false} FilesMidRemoval(w: Work, owner: string, l: seq<NamedRoute>, k: nat, done: nat)
    requires k <= |l| && done <= 3 * k
    ensures |Removals(owner, l, k)| == 3 * k && OffDisk(done) <= k
    ensures DoAll(w, Removals(owner, l, k)[..done]).files == w.files - NamesOf(l[..OffDisk(done)])
    decreases done
  {
    hide *;
    if done == 0 {
      NothingOffDisk(w, owner, l, k);
    } else {
      var i := done - 1;
      RemovalAt(owner, l, k, i);
      FilesMidRemoval(w, owner, l, k, i);
      NextFiles(w, Removals(owner, l, k), i);
      OffDiskNext(i);
      if i % 3 == 0 {
        NamesOfNext(l, i / 3);
      }
      OneFile(DoAll(w, Removals(owner, l, k)[..i]), Removals(owner, l, k)[i]);
    }
  }

  /** A plan that changes one entry has written its file after the first action. */
  lemma FilesMidPlan(m: State, op: Op, done: nat)
    requires NonEmpty(m.index) && !op.RemoveNames?
    requires PlanFor(m.standby, m.live, m.index, op).Proceed?
    requires 0 < done <= |PlanFor(m.standby, m.live, m.index, op).actions|
    ensures var actions := PlanFor(m.standby, m.live, m.index, op).actions;
            DoAll(Work(m.standby, m.index, m.files), actions[..done]).files == Apply(m, op).0.files
  {
    var w := Work(m.standby, m.index, m.files);
    var xs := PlanFor(m.standby, m.live, m.index, op).actions;
    assert forall i | 0 <= i < done :: xs[..done][i] == xs[i];
    DoFew(w, xs[..done]);
    hide DoAll;
  }

  lemma RemovalOnDisk(m: State, from: string, failAt: nat, done: nat)
    requires Inv(m) && from in m.index && done <= 3 * Unlinked(m.index[from], failAt)
    ensures var list := m.index[from];
            var xs := Removals(from, list, Unlinked(list, failAt));
            && |xs| == 3 * Unlinked(list, failAt) && OffDisk(done) <= |list|
            && Persisted(m.live - NamesOf(list[..OffDisk(done)]),
                         DoAll(Work(m.standby, m.index, m.files), xs[..done]).files)
  {
    var list := m.index[from];
    FilesMidRemoval(Work(m.standby, m.index, m.files), from, list, Unlinked(list, failAt), done);
    hide DoAll, Removals, Indexed, HostsKeyed;
  }

  lemma FilesAfter(m: State, op: Op)
    requires Inv(m)
    ensures Persisted(Apply(m, op).0.live, Apply(m, op).0.files)
  {
  }

  /** At any point of an edit the files are exactly those of `TableOnDisk`. */
  lemma FilesInStep(mem: Memory, m: State, edit: Pc)
    requires Inv(m) && InStep(mem, m, edit)
    ensures Persisted(TableOnDisk(m, edit), mem.files)
  {
    if edit.Editing? && edit.phase.Working? {
      var op, done := edit.op, edit.phase.done;
      if op.RemoveNames? {
        RemovalsAt(op.from, m.index[op.from], Unlinked(m.index[op.from], op.failAt));
        RemovalOnDisk(m, op.from, op.failAt, done);
        hide DoAll, Removals, Inv, Apply, Persisted, NonEmpty;
      } else {
        FilesAfter(m, op);
        if done > 0 {
          FilesMidPlan(m, op, done);
        }
        assert edit.phase.actions[..0] == [];
        hide Apply, PlanFor, Indexed, HostsKeyed, Persisted, NonEmpty;
      }
    } else if edit.Editing? && edit.phase.Exchanging? {
      FilesAfter(m, edit.op);
      hide Apply, PlanFor, Inv, Persisted, NonEmpty;
    } else {
      hide Apply, PlanFor, Persisted, NonEmpty;
    }
  }

  // ---------- the theorems ----------

  /** What a crash may leave: the table before or after the edit in flight, or with a prefix of the names gone. */
  ghost predicate MayRemain(m: State, edit: Pc, t: Table)
    requires NonEmpty(m.index)
  {
    || t == m.live
    || (BeforeCommit(edit) && !edit.op.RemoveNames? && t == Apply(m, edit.op).0.live)
    || (BeforeCommit(edit) && edit.op.RemoveNames? && edit.op.from in m.index &&
        exists j :: 0 <= j <= Unlinked(m.index[edit.op.from], edit.op.failAt) &&
                    t == m.live - NamesOf(m.index[edit.op.from][..j]))
  }

  lemma OnDiskMayRemain(mem: Memory, m: State, edit: Pc)
    requires Inv(m) && InStep(mem, m, edit)
    ensures MayRemain(m, edit, TableOnDisk(m, edit))
  {
    if edit.Editing? && edit.op.RemoveNames? && edit.op.from in m.index {
      var list := m.index[edit.op.from];
      var k := Unlinked(list, edit.op.failAt);
      RemovalsAt(edit.op.from, list, k);
      if edit.phase.Working? {
        assert OffDisk(edit.phase.done) <= k;
      } else if edit.phase.Exchanging? {
        assert TableOnDisk(m, edit) == m.live - NamesOf(list[..k]);
      }
    }
  }

  /** At any step of any interleaving, the files hold a table that the edit in flight may leave. */
  lemma FilesRemain(ss: seq<Sys>, es: seq<Event>, n: nat) returns (t: Table)
    requires IsExecution(ss, es) && n <= |es| && AtRest(ss[0])
    requires Inv(StateOf(ss[0])) && Sound(ss, es, n)
    ensures ss[n].locks.editLock.Some? ==> ss[n].locks.editLock.value < |ss[n].pcs|
    ensures MayRemain(SpecAt(ss, es, n), EditOf(ss[n]), t) && Persisted(t, ss[n].mem.files)
  {
    SimAt(ss, es, n);
    InvAt(ss, es, n);
    hide SpecAt, Inv, InStep, MayRemain, Sound, TableOnDisk, Persisted, Moves;
    var m, edit := SpecAt(ss, es, n), EditOf(ss[n]);
    t := TableOnDisk(m, edit);
    FilesInStep(ss[n].mem, m, edit);
    OnDiskMayRemain(ss[n].mem, m, edit);
  }

  /**
   Crash recovery: after any number of steps of any interleaving every file can be read back, and a restart
   gives a good state with (up to sessions and last-seen times) the table before or after the edit in flight
   or, for `RemoveNames`, the table without some prefix of the owner's names.
   */
  lemma CrashRecovers(ss: seq<Sys>, es: seq<Event>, n: nat, w: State, walk: seq<Woken>) returns (t: Table)
    requires IsExecution(ss, es) && n <= |es| && AtRest(ss[0])
    requires Inv(StateOf(ss[0])) && Sound(ss, es, n)
    ensures WellFormed(ss[n].mem.files)
    ensures ss[n].locks.editLock.Some? ==> ss[n].locks.editLock.value < |ss[n].pcs|
    ensures MayRemain(SpecAt(ss, es, n), EditOf(ss[n]), t)
    ensures Restarts(w, ss[n].mem.files, walk) ==> SameRoutes(t, w.live) && Inv(w)
  {
    t := FilesRemain(ss, es, n);
    hide *;
    PersistedIsWellFormed(t, ss[n].mem.files);
    if Restarts(w, ss[n].mem.files, walk) {
      RestartRecalls(t, ss[n].mem.files, w, walk);
    }
  }

  /** And the restart is `NewRouter`: on the files of a crash at any step it comes up, in such a state. */
  method RestartAfterCrash(ghost ss: seq<Sys>, ghost es: seq<Event>, ghost n: nat,
                           disk: TwinRouter.Directory, order: seq<string>)
    returns (r: TwinRouter.Router, ghost t: Table)
    requires IsExecution(ss, es) && n <= |es| && AtRest(ss[0])
    requires Inv(StateOf(ss[0])) && Sound(ss, es, n)
    requires disk.files == ss[n].mem.files
    requires forall k :: k in order <==> k in disk.files
    requires forall i, j | 0 <= i < j < |order| :: order[i] != order[j]
    ensures fresh(r) && r.Valid() && r.Bound() && r.disk == disk
    ensures ss[n].locks.editLock.Some? ==> ss[n].locks.editLock.value < |ss[n].pcs|
    ensures MayRemain(SpecAt(ss, es, n), EditOf(ss[n]), t) && SameRoutes(t, r.View().live) && Inv(r.View())
  {
    t := FilesRemain(ss, es, n);
    hide *;
    r := TwinRouter.StartAgain(t, disk, order);
  }

  lemma RemainsUnaltered(m: State, edit: Pc, t: Table, key: string)
    requires Inv(m) && MayRemain(m, edit, t)
    requires BeforeCommit(edit) ==> !Touches(m, edit.op, key)
    ensures Get(t, key) == Get(m.live, key)
  {
    if BeforeCommit(edit) {
      AltersOnly(m, edit.op, key);
      hide Apply, Inv;
      if t != m.live && edit.op.RemoveNames? {
        var list := m.index[edit.op.from];
        var j :| 0 <= j <= Unlinked(list, edit.op.failAt) && t == m.live - NamesOf(list[..j]);
        assert forall x | x in list[..j] :: x in list;
      }
    }
  }

  /**
   Durability: what was at a key after step `from` (say, when an edit of it committed) is there after a
   crash at any later step, as long as no edit that changes that key has committed since or is in flight.
   Requests for the key that are refused or fail do not count.
   */
  lemma CommittedIsDurable(ss: seq<Sys>, es: seq<Event>, from: nat, n: nat, key: string, w: State, walk: seq<Woken>)
    requires IsExecution(ss, es) && from <= n <= |es| && AtRest(ss[0])
    requires Inv(StateOf(ss[0])) && Sound(ss, es, n)
    requires Unaltered(ss, es, key, from, n)
    requires forall t | 0 <= t < |ss[n].pcs| && BeforeCommit(ss[n].pcs[t]) ::
      !Touches(SpecAt(ss, es, n), ss[n].pcs[t].op, key)
    requires Restarts(w, ss[n].mem.files, walk)
    ensures var before := SpecAt(ss, es, from).live;
            && (key in w.live <==> key in before)
            && (key in before ==> SameRoute(before[key], w.live[key]))
  {
    hide SpecAt, Inv, MayRemain, Sound, Unaltered, Restarts, Touches, WellFormed, Moves;
    var t := CrashRecovers(ss, es, n, w, walk);
    var m, edit := SpecAt(ss, es, n), EditOf(ss[n]);
    InvAt(ss, es, n);
    RemainsUnaltered(m, edit, t, key);
    LookupsAreStable(ss, es, key, from, n);
    assert Get(t, key) == Get(SpecAt(ss, es, from).live, key);
  }
}
