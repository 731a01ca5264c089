/**
 Whole runs of the router: any sequence of edits, whatever their disk calls return, with restarts in
 between.
 */
module Histories {
  import opened Routes
  import opened RouterSpec
  import opened Invariants
  import opened Restart

  datatype Event = Edit(op: Op) | Reboot(walk: seq<Woken>)

  ghost predicate Step(s: State, e: Event, s': State) {
    NonEmpty(s.index) &&
    match e
    case Edit(op) => s' == Apply(s, op).0
    case Reboot(walk) => Restarts(s', s.files, walk)
  }

  ghost predicate IsRun(ss: seq<State>, es: seq<Event>) {
    |ss| == |es| + 1 && forall i | 0 <= i < |es| :: Step(ss[i], es[i], ss[i + 1])
  }

  ghost predicate Faulty(s: State, e: Event) {
    e.Edit? && FirstUnlinkFails(s, e.op)
  }

  /** No first unlink fails in the first `n` steps. */
  ghost predicate Sound(ss: seq<State>, es: seq<Event>, n: nat)
    requires |ss| == |es| + 1 && n <= |es|
  {
    forall i | 0 <= i < n :: !Faulty(ss[i], es[i])
  }

  lemma RunStep(ss: seq<State>, es: seq<Event>, n: nat)
    requires IsRun(ss, es) && n < |es|
    ensures |ss| == |es| + 1 && Step(ss[n], es[n], ss[n + 1])
  {
    hide Step;
  }

  lemma SoundStep(ss: seq<State>, es: seq<Event>, n: nat)
    requires |ss| == |es| + 1 && n < |es| && Sound(ss, es, n + 1)
    ensures Sound(ss, es, n) && !Faulty(ss[n], es[n])
  {
    hide Faulty;
  }

  // ---------- the invariant and the twin tables over runs ----------

  lemma StepKeepsInv(s: State, e: Event, s': State)
    requires Step(s, e, s') && Inv(s) && !Faulty(s, e)
    ensures Inv(s')
  {
    match e
    case Edit(op) => ApplyKeeps(s, op);
    case Reboot(walk) => RestartRoundTrip(s, s', walk);
  }

  lemma {:induction false} RunKeepsInv(ss: seq<State>, es: seq<Event>, n: nat)
    requires IsRun(ss, es) && n <= |es| && Inv(ss[0]) && Sound(ss, es, n)
    ensures Inv(ss[n])
    decreases n
  {
    if n > 0 {
      hide *;
      RunStep(ss, es, n - 1);
      SoundStep(ss, es, n - 1);
      RunKeepsInv(ss, es, n - 1);
      StepKeepsInv(ss[n - 1], es[n - 1], ss[n]);
    }
  }

  /** Over a run, the two tables agree at every point exactly when no first unlink fails. */
  lemma {:induction false} TwinsAgreeExactlyWhen(ss: seq<State>, es: seq<Event>)
    requires IsRun(ss, es) && Inv(ss[0])
    ensures (forall i | 0 <= i < |ss| :: Agree(ss[i])) <==> Sound(ss, es, |es|)
  {
    if Sound(ss, es, |es|) {
      forall i | 0 <= i < |ss| ensures Agree(ss[i]) {
        RunKeepsInv(ss, es, i);
      }
    } else {
      var i := FirstFault(ss, es);
      RunKeepsInv(ss, es, i);
      assert Step(ss[i], es[i], ss[i + 1]);
      AgreeExactlyWhen(ss[i], es[i].op);
    }
  }

  lemma FirstFault(ss: seq<State>, es: seq<Event>) returns (i: nat)
    requires |ss| == |es| + 1 && !Sound(ss, es, |es|)
    ensures i < |es| && Faulty(ss[i], es[i]) && Sound(ss, es, i)
  {
    i := 0;
    while !Faulty(ss[i], es[i])
      invariant i < |es| && Sound(ss, es, i)
      decreases |es| - i
    {
      assert exists k :: i < k < |es| && Faulty(ss[k], es[k]);
      i := i + 1;
    }
  }

  // ---------- after the failure that parts the tables ----------

  ghost predicate NamedKeyed(t: Table) {
    forall k | k in t && t[k].NameEntry? :: t[k].named.name == k
  }

  /** Only one table still holds `e` at the name of the route `first`, which is listed and has its file. */
  ghost predicate Parted(s: State, first: NamedRoute, e: Entry, file: Intermediate, found: bool) {
    && NonEmpty(s.index) && first.owner in s.index && first in s.index[first.owner]
    && Get(s.live, first.name) == (if found then Some(e) else None)
    && Get(s.standby, first.name) == (if found then None else Some(e))
    && WellFormed(s.files) && first.name in s.files && s.files[first.name] == file
    && NamedKeyed(s.live) && NamedKeyed(s.standby)
  }

  lemma FailureParts(s: State, op: Op)
    requires Inv(s) && FirstUnlinkFails(s, op)
    ensures var first := s.index[op.from][0];
            first.name in s.live && first.name in s.files
            && Parted(Apply(s, op).0, first, s.live[first.name], s.files[first.name], true)
  {
    FirstUnlinkLeaves(s, op);
    PersistedIsWellFormed(s.live, s.files);
    hide Apply, Distinct, HostsKeyed, Persisted, WellFormed;
  }

  lemma EditKeepsNamedKeyed(s: State, op: Op)
    requires NonEmpty(s.index) && NamedKeyed(s.live) && NamedKeyed(s.standby)
    ensures NamedKeyed(Apply(s, op).0.live) && NamedKeyed(Apply(s, op).0.standby)
  {
    hide NonEmpty, Enlist, Reduce, DropFirst, RecordOf;
  }

  lemma StaysListed(s: State, first: NamedRoute, op: Op)
    requires NonEmpty(s.index) && first.owner in s.index && first in s.index[first.owner] && NamedKeyed(s.standby)
    requires !Disturbs(s, op, first.name) && first.name in s.files
    ensures var s' := Apply(s, op).0;
            && first.owner in s'.index && first in s'.index[first.owner]
            && first.name in s'.files && s'.files[first.name] == s.files[first.name]
  {
    if op.RemoveName? && Apply(s, op).1 == Ok && s.standby[op.name].named != first {
      StillListed(s.index, first.owner, first, s.standby[op.name].named);
    }
    hide Reduce, RecordOf, NonEmpty;
  }

  /** An edit that does not change the key exchanges who holds it, if it exchanges the tables at all. */
  lemma PartedStep(s: State, first: NamedRoute, e: Entry, file: Intermediate, found: bool, op: Op)
    requires Parted(s, first, e, file, found) && !Disturbs(s, op, first.name)
    ensures Parted(Apply(s, op).0, first, e, file, found != Exchanges(s, op))
  {
    ExchangeSwaps(s, op, first.name);
    StaysListed(s, first, op);
    EditKeepsWellFormed(s, op);
    EditKeepsNamedKeyed(s, op);
    hide Apply, Disturbs, Exchanges, NamedKeyed, WellFormed;
  }

  /** How many of the first `n` edits exchanged the tables. */
  ghost function Exchanged(ss: seq<State>, es: seq<Event>, n: nat): nat
    requires |ss| == |es| + 1 && n <= |es|
  {
    if n == 0 then 0
    else Exchanged(ss, es, n - 1) + if es[n - 1].Edit? && Exchanges(ss[n - 1], es[n - 1].op) then 1 else 0
  }

  /** None of the first `n` steps is a restart or an edit that changes the key. */
  ghost predicate Undisturbed(ss: seq<State>, es: seq<Event>, key: string, n: nat)
    requires |ss| == |es| + 1 && n <= |es|
  {
    forall i | 0 <= i < n :: es[i].Edit? && !Disturbs(ss[i], es[i].op, key)
  }

  lemma UndisturbedStep(ss: seq<State>, es: seq<Event>, key: string, n: nat)
    requires IsRun(ss, es) && n < |es| && Undisturbed(ss, es, key, n + 1)
    ensures |ss| == |es| + 1 && Undisturbed(ss, es, key, n) && es[n].Edit? && !Disturbs(ss[n], es[n].op, key)
    ensures NonEmpty(ss[n].index) && ss[n + 1] == Apply(ss[n], es[n].op).0
    ensures Exchanged(ss, es, n + 1) == Exchanged(ss, es, n) + if Exchanges(ss[n], es[n].op) then 1 else 0
  {
    RunStep(ss, es, n);
    hide IsRun, Disturbs, Exchanges, Apply, NonEmpty;
  }

  lemma {:induction false} PartedRun(ss: seq<State>, es: seq<Event>, first: NamedRoute, e: Entry, file: Intermediate,
                                     n: nat)
    requires IsRun(ss, es) && n <= |es| && Parted(ss[0], first, e, file, true) && Undisturbed(ss, es, first.name, n)
    ensures Parted(ss[n], first, e, file, Exchanged(ss, es, n) % 2 == 0)
    decreases n
  {
    if n == 0 {
      hide Parted;
    } else {
      hide *;
      UndisturbedStep(ss, es, first.name, n - 1);
      PartedRun(ss, es, first, e, file, n - 1);
      PartedStep(ss[n - 1], first, e, file, Exchanged(ss, es, n - 1) % 2 == 0, es[n - 1].op);
    }
  }

  /**
   What becomes of the route after a failing first unlink, as long as nobody changes its key: it is found
   exactly when an even number of exchanges has happened since, and then it is the very entry of before. It
   stays listed and on disk all the time.
   */
  lemma FoundAtEvenExchanges(s: State, op: Op, ss: seq<State>, es: seq<Event>, n: nat)
    requires Inv(s) && FirstUnlinkFails(s, op)
    requires IsRun(ss, es) && ss[0] == Apply(s, op).0 && n <= |es|
    requires Undisturbed(ss, es, s.index[op.from][0].name, n)
    ensures var first := s.index[op.from][0];
            && first.name in s.live
            && Get(ss[n].live, first.name) == (if Exchanged(ss, es, n) % 2 == 0 then Some(s.live[first.name]) else None)
            && op.from in ss[n].index && first in ss[n].index[op.from] && first.name in ss[n].files
  {
    var first := s.index[op.from][0];
    FailureParts(s, op);
    assert first.owner == op.from;
    hide IsRun, Apply, Undisturbed, Exchanged, Inv;
    PartedRun(ss, es, first, s.live[first.name], s.files[first.name], n);
  }

  /** And a restart, at whatever point, makes the tables agree again and finds the route in them. */
  lemma RestartFindsAgain(s: State, op: Op, ss: seq<State>, es: seq<Event>, n: nat, w: State, walk: seq<Woken>)
    requires Inv(s) && FirstUnlinkFails(s, op)
    requires IsRun(ss, es) && ss[0] == Apply(s, op).0 && n <= |es|
    requires Undisturbed(ss, es, s.index[op.from][0].name, n)
    requires Restarts(w, ss[n].files, walk)
    ensures var name := s.index[op.from][0].name;
            Agree(w) && name in s.live && name in w.live && SameRoute(s.live[name], w.live[name])
  {
    var first := s.index[op.from][0];
    FailureParts(s, op);
    assert Recalls(s.files[first.name], first.name, s.live[first.name]);
    hide IsRun, Apply, Undisturbed, Exchanged, Inv, Restarts, Recalls, SameRoute, NamedKeyed;
    PartedRun(ss, es, first, s.live[first.name], s.files[first.name], n);
    RestartsWell(w, ss[n].files, walk);
    hide WellFormed, Indexed, NoTakeovers, Wakes;
    WakesSame(ss[n].files[first.name], first.name, s.live[first.name], w.live[first.name]);
  }

  // ---------- the last registration wins ----------

  /** What one event does to the session registered at `f`. */
  function PeerAfter(prev: Peer?, e: Event, f: string): Peer? {
    match e
    case Reboot(_) => null
    case Edit(op) =>
      match op
      case Online(p, _, _, stored) => if stored && p.fqdn == f then p else prev
      case Offline(p, _, _) => if prev == p then null else prev
      case _ => prev
  }

  /** The session registered at `f` as the history alone tells it: the last to come online and not leave since. */
  function LastPeer(start: Peer?, es: seq<Event>, f: string): Peer? {
    if es == [] then start
    else PeerAfter(LastPeer(start, es[..|es| - 1], f), es[|es| - 1], f)
  }

  lemma LastPeerNext(start: Peer?, es: seq<Event>, f: string, n: nat)
    requires n < |es|
    ensures LastPeer(start, es[..n + 1], f) == PeerAfter(LastPeer(start, es[..n], f), es[n], f)
  {
    assert es[..n + 1][..n] == es[..n];
  }

  /** Somebody's `RemoveNames` gets to `f` while a session is found there. */
  ghost predicate Evicts(s: State, op: Op, f: string) {
    Drops(s.index, op, f) && PeerAt(s.live, f) != null
  }

  /** From a good state an edit does to the session at `f` what the history says, exactly when it does not evict it. */
  lemma EditMovesPeerExactlyWhen(s: State, op: Op, f: string)
    requires Inv(s) && !FirstUnlinkFails(s, op)
    ensures PeerAt(Apply(s, op).0.live, f) == PeerAfter(PeerAt(s.live, f), Edit(op), f) <==> !Evicts(s, op, f)
  {
    hide Listed, Backed, Distinct, Persisted, Enlist, Reduce;
  }

  lemma StepMovesPeerExactlyWhen(s: State, e: Event, s': State, f: string)
    requires Step(s, e, s') && Inv(s) && !Faulty(s, e)
    ensures PeerAt(s'.live, f) == PeerAfter(PeerAt(s.live, f), e, f) <==> !(e.Edit? && Evicts(s, e.op, f))
  {
    match e
    case Edit(op) => EditMovesPeerExactlyWhen(s, op, f);
    case Reboot(walk) =>
      RestartRoundTrip(s, s', walk);
      hide Inv, SameRoutes, Restarts, Exact;
      assert f in s'.live ==> PeerAt(s'.live, f) == null;
  }

  /**
   The last registration wins, exactly: at every point of a run, restarts and disk failures included, the
   session found at `f` is the last one that came online there and has not left since, if and only if no
   `RemoveNames` ever gets to `f` while a session is found there.
   */
  lemma {:induction false} LastRegistrationWinsExactlyWhen(ss: seq<State>, es: seq<Event>, f: string)
    requires IsRun(ss, es) && Inv(ss[0]) && Sound(ss, es, |es|)
    ensures (forall n | 0 <= n <= |es| :: PeerAt(ss[n].live, f) == LastPeer(PeerAt(ss[0].live, f), es[..n], f)) <==>
            (forall i | 0 <= i < |es| && es[i].Edit? :: !Evicts(ss[i], es[i].op, f))
  {
    hide Evicts, PeerAfter, LastPeer, PeerAt;
    var start := PeerAt(ss[0].live, f);
    if forall i | 0 <= i < |es| && es[i].Edit? :: !Evicts(ss[i], es[i].op, f) {
      forall n | 0 <= n <= |es| ensures PeerAt(ss[n].live, f) == LastPeer(start, es[..n], f) {
        UnlessEvicted(ss, es, f, n);
      }
    } else {
      var i :| 0 <= i < |es| && es[i].Edit? && Evicts(ss[i], es[i].op, f);
      RunKeepsInv(ss, es, i);
      assert Step(ss[i], es[i], ss[i + 1]);
      hide Step, Inv, FirstUnlinkFails;
      StepMovesPeerExactlyWhen(ss[i], es[i], ss[i + 1], f);
      LastPeerNext(start, es, f, i);
    }
  }

  lemma {:induction false} UnlessEvicted(ss: seq<State>, es: seq<Event>, f: string, n: nat)
    requires IsRun(ss, es) && n <= |es| && Inv(ss[0]) && Sound(ss, es, |es|)
    requires forall i | 0 <= i < |es| && es[i].Edit? :: !Evicts(ss[i], es[i].op, f)
    ensures PeerAt(ss[n].live, f) == LastPeer(PeerAt(ss[0].live, f), es[..n], f)
    decreases n
  {
    hide Evicts, PeerAfter, PeerAt;
    if n > 0 {
      UnlessEvicted(ss, es, f, n - 1);
      RunKeepsInv(ss, es, n - 1);
      RunStep(ss, es, n - 1);
      hide IsRun, Step, Inv, FirstUnlinkFails, LastPeer;
      StepMovesPeerExactlyWhen(ss[n - 1], es[n - 1], ss[n], f);
      LastPeerNext(PeerAt(ss[0].live, f), es, f, n - 1);
    }
  }

  // ---------- FQDNs in use by hosts only ----------

  /** Someone gets `f` as a name. (A request that is refused, or whose store fails, changes nothing.) */
  predicate Takes(s: State, op: Op, f: string) {
    op.AddName? && op.route.name == f && op.stored && f !in s.standby
  }

  /** The file holds a record for `f`. */
  predicate Speaks(i: Intermediate, f: string) {
    (i.host.Some? || i.named.Some?) && FqdnIn(i) == f
  }

  /** `f` is in use by hosts only: in both tables alike, in its own file only, and in nobody's list of names. */
  ghost predicate HostsOnly(s: State, f: string) {
    && (forall o, i | o in s.index && 0 <= i < |s.index[o]| :: s.index[o][i].name != f)
    && (forall k | k in s.files && Speaks(s.files[k], f) :: k == f)
    && (f in s.live <==> f in s.standby) && (f in s.live <==> f in s.files)
    && (f in s.live ==>
          && s.live[f].HostEntry? && s.standby[f] == s.live[f]
          && (s.live[f].peer != null ==> s.live[f].peer.fqdn == f)
          && Recalls(s.files[f], f, s.live[f]))
  }

  lemma ReduceLists(ix: Index, key: string, n: NamedRoute)
    ensures var r := Reduce(ix, key, n); forall o, i | o in r && 0 <= i < |r[o]| :: o in ix && r[o][i] in ix[o]
  {
  }

  ghost predicate KnownHost(t: Table, f: string, created: int) {
    f in t && t[f].HostEntry? && t[f].created == created
  }

  ghost predicate StaysHost(s: State, s': State, f: string) {
    HostsOnly(s', f) && (f in s.live && s.live[f].HostEntry? ==> KnownHost(s'.live, f, s.live[f].created))
  }

  lemma PeerEditKeepsHostsOnly(s: State, op: Op, f: string)
    requires NonEmpty(s.index) && HostsOnly(s, f) && (op.Online? || op.Offline?)
    ensures StaysHost(s, Apply(s, op).0, f)
  {
    hide NonEmpty;
  }

  lemma NameEditKeepsHostsOnly(s: State, op: Op, f: string)
    requires NonEmpty(s.index) && HostsOnly(s, f) && !Takes(s, op, f) && (op.AddName? || op.RemoveName?)
    ensures StaysHost(s, Apply(s, op).0, f)
  {
    if op.RemoveName? && Apply(s, op).1 == Ok {
      ReduceLists(s.index, op.from, s.standby[op.name].named);
    }
    hide NonEmpty, Reduce, Recalls;
  }

  lemma RemoveNamesKeepsHostsOnly(s: State, op: Op, f: string)
    requires NonEmpty(s.index) && HostsOnly(s, f) && op.RemoveNames?
    ensures StaysHost(s, Apply(s, op).0, f)
  {
    hide NonEmpty, Speaks, Recalls;
  }

  lemma EditKeepsHostsOnly(s: State, op: Op, f: string)
    requires NonEmpty(s.index) && HostsOnly(s, f) && !Takes(s, op, f)
    ensures StaysHost(s, Apply(s, op).0, f)
  {
    hide *;
    if op.RemoveNames? {
      RemoveNamesKeepsHostsOnly(s, op, f);
    } else if op.Online? || op.Offline? {
      PeerEditKeepsHostsOnly(s, op, f);
    } else {
      NameEditKeepsHostsOnly(s, op, f);
    }
  }

  /** Only the file of `f` speaks of it, and that of a host. */
  ghost predicate HostFile(files: Files, f: string) {
    && (forall k | k in files && Speaks(files[k], f) :: k == f)
    && (f in files ==> files[f].host.Some? && files[f].host.value.name == f)
  }

  /** A walk has loaded a host at `f` if it came by its file, and has listed no name `f`. */
  ghost predicate HostLoaded(files: Files, walk: seq<Woken>, t: Table, ix: Index, f: string) {
    && (f in t <==> f in FilesOf(walk))
    && (f in t ==> f in files && Wakes(files[f], t[f]))
    && (forall o, i | o in ix && 0 <= i < |ix[o]| :: ix[o][i].name != f)
  }

  lemma {:induction false} LoadsHost(files: Files, walk: seq<Woken>, f: string)
    requires Walks(files, walk) && HostFile(files, f)
    ensures HostLoaded(files, walk, LoadAll(files, walk).0, LoadAll(files, walk).1, f)
  {
    if walk != [] {
      var init, last := WalkSplits(files, walk);
      hide *;
      LoadsHost(files, init, f);
      LoadsOneMore(files, init, last, LoadAll(files, init).0, LoadAll(files, init).1, f);
    }
  }

  lemma LoadsOneMore(files: Files, walk: seq<Woken>, last: Woken, t: Table, ix: Index, f: string)
    requires HostFile(files, f) && HostLoaded(files, walk, t, ix, f)
    requires last.file in files && Wakes(files[last.file], last.route)
    requires FilesOf(walk + [last]) == FilesOf(walk) + {last.file}
    ensures HostLoaded(files, walk + [last], t[FqdnIn(files[last.file]) := last.route], IndexWith(ix, last.route), f)
  {
    assert Speaks(files[last.file], FqdnIn(files[last.file]));
    hide FilesOf;
  }

  lemma RestartKeepsHostsOnly(s: State, w: State, walk: seq<Woken>, f: string)
    requires HostsOnly(s, f) && Restarts(w, s.files, walk)
    ensures StaysHost(s, w, f) && PeerAt(w.live, f) == null
  {
    LoadsHost(s.files, walk, f);
    hide Walks, LoadAll;
  }

  lemma StepKeepsHostsOnly(s: State, e: Event, s': State, f: string)
    requires Step(s, e, s') && HostsOnly(s, f) && (e.Edit? ==> !Takes(s, e.op, f))
    ensures StaysHost(s, s', f)
  {
    match e
    case Edit(op) => EditKeepsHostsOnly(s, op, f);
    case Reboot(walk) => RestartKeepsHostsOnly(s, s', walk, f);
    hide StaysHost, Restarts, Apply, Takes;
  }

  lemma EditMovesPeer(s: State, op: Op, f: string)
    requires NonEmpty(s.index) && HostsOnly(s, f) && !Takes(s, op, f)
    ensures PeerAt(Apply(s, op).0.live, f) == PeerAfter(PeerAt(s.live, f), Edit(op), f)
  {
    hide Recalls, Speaks, Enlist, Reduce;
  }

  lemma StepMovesPeer(s: State, e: Event, s': State, f: string)
    requires Step(s, e, s') && HostsOnly(s, f) && (e.Edit? ==> !Takes(s, e.op, f))
    ensures PeerAt(s'.live, f) == PeerAfter(PeerAt(s.live, f), e, f)
  {
    match e
    case Edit(op) => EditMovesPeer(s, op, f);
    case Reboot(walk) => RestartKeepsHostsOnly(s, s', walk, f);
    hide HostsOnly, Restarts, Apply, Takes;
  }

  /**
   Where failing first unlinks are allowed too: the last registration wins at an FQDN that nobody gets as a
   name. Nothing is asked about requests that are refused.
   */
  lemma {:induction false} LastRegistrationWins(ss: seq<State>, es: seq<Event>, f: string, n: nat)
    requires IsRun(ss, es) && n <= |es| && HostsOnly(ss[0], f)
    requires forall i | 0 <= i < n && es[i].Edit? :: !Takes(ss[i], es[i].op, f)
    ensures HostsOnly(ss[n], f)
    ensures PeerAt(ss[n].live, f) == LastPeer(PeerAt(ss[0].live, f), es[..n], f)
    decreases n
  {
    if n > 0 {
      LastRegistrationWins(ss, es, f, n - 1);
      assert Step(ss[n - 1], es[n - 1], ss[n]);
      hide Step, HostsOnly, Takes, LastPeer, PeerAfter, PeerAt;
      StepKeepsHostsOnly(ss[n - 1], es[n - 1], ss[n], f);
      StepMovesPeer(ss[n - 1], es[n - 1], ss[n], f);
      LastPeerNext(PeerAt(ss[0].live, f), es, f, n - 1);
    }
  }

  /** A session that has been replaced changes nothing when it goes offline at last; the current one does. */
  lemma LateOfflineIsIgnored(s: State, p: Peer, seen: int, stored: bool)
    requires NonEmpty(s.index)
    ensures Apply(s, Offline(p, seen, stored)).0 == s <==> PeerAt(s.live, p.fqdn) != p
  {
  }

  /**
   Without that condition the claim fails: a name equal to a peer's FQDN is taken over when the
   peer comes online, and the peer is thrown out when the name's first owner removes its names.
   */
  lemma TakeoverCounterexample(n: NamedRoute, p: Peer)
    requires n.name == p.fqdn && n.owner != p.fqdn
    ensures var s0 := State(map[], map[], map[], map[]);
            var s1 := Apply(s0, AddName(n, true)).0;
            var s2 := Apply(s1, Online(p, 0, 0, true)).0;
            var s3 := Apply(s2, RemoveNames(n.owner, 1)).0;
            && Inv(s2) && PeerAt(s2.live, p.fqdn) == p && Evicts(s2, RemoveNames(n.owner, 1), p.fqdn)
            && Inv(s3) && p.fqdn !in s3.live
  {
    var s0 := State(map[], map[], map[], map[]);
    var s1 := Apply(s0, AddName(n, true)).0;
    var s2 := Apply(s1, Online(p, 0, 0, true)).0;
    ApplyKeeps(s0, AddName(n, true));
    ApplyKeeps(s1, Online(p, 0, 0, true));
    ApplyKeeps(s2, RemoveNames(n.owner, 1));
    assert s2.index[n.owner] == [n];
    assert n in s2.index[n.owner][..1];
  }

  // ---------- what happens to a host's record ----------

  /**
   From a good state an edit forgets a host, or its creation time, exactly when it is a `RemoveNames` that
   gets to it.
   */
  lemma HostForgottenExactlyWhen(s: State, op: Op, f: string, created: int)
    requires Inv(s) && !FirstUnlinkFails(s, op) && KnownHost(s.live, f, created)
    ensures !KnownHost(Apply(s, op).0.live, f, created) <==> Drops(s.index, op, f)
  {
    hide Listed, Backed, Distinct, HostsKeyed, Persisted, Enlist, Reduce;
  }

  lemma StepForgetsHost(s: State, e: Event, s': State, f: string, created: int)
    requires Step(s, e, s') && Inv(s) && !Faulty(s, e) && KnownHost(s.live, f, created)
    ensures !KnownHost(s'.live, f, created) <==> e.Edit? && Drops(s.index, e.op, f)
  {
    match e
    case Edit(op) => HostForgottenExactlyWhen(s, op, f, created);
    case Reboot(walk) =>
      RestartRoundTrip(s, s', walk);
      hide Inv, Restarts, Exact;
      assert SameRoute(s.live[f], s'.live[f]);
  }

  /**
   Over a run, restarts included, a host known at step `i` stays known with the creation time it had, up to
   step `n`, if and only if no `RemoveNames` gets to it in between.
   */
  lemma {:induction false} CreatedNeverChangesExactlyWhen(ss: seq<State>, es: seq<Event>, f: string, created: int,
                                                          i: nat, n: nat)
    requires IsRun(ss, es) && i <= n <= |es| && Inv(ss[0]) && Sound(ss, es, n)
    requires KnownHost(ss[i].live, f, created)
    ensures (forall k | i <= k <= n :: KnownHost(ss[k].live, f, created)) <==>
            (forall k | i <= k < n && es[k].Edit? :: !Drops(ss[k].index, es[k].op, f))
    decreases n
  {
    hide *;
    if i < n {
      RunStep(ss, es, n - 1);
      SoundStep(ss, es, n - 1);
      CreatedNeverChangesExactlyWhen(ss, es, f, created, i, n - 1);
      RunKeepsInv(ss, es, n - 1);
      if KnownHost(ss[n - 1].live, f, created) {
        StepForgetsHost(ss[n - 1], es[n - 1], ss[n], f, created);
      }
    }
  }

  /** Whatever fails, first unlinks included: a host that is in nobody's list of names stays known as created. */
  lemma {:induction false} CreatedNeverChanges(ss: seq<State>, es: seq<Event>, f: string, i: nat, n: nat)
    requires IsRun(ss, es) && i <= n <= |es| && HostsOnly(ss[i], f) && f in ss[i].live
    ensures HostsOnly(ss[n], f) && KnownHost(ss[n].live, f, ss[i].live[f].created)
    decreases n
  {
    if i < n {
      CreatedNeverChanges(ss, es, f, i, n - 1);
      assert Step(ss[n - 1], es[n - 1], ss[n]);
      assert es[n - 1].Edit? ==> !Takes(ss[n - 1], es[n - 1].op, f);
      hide Step, Takes, Speaks, Recalls;
      StepKeepsHostsOnly(ss[n - 1], es[n - 1], ss[n], f);
    }
  }

  predicate Stamped(e: Event) {
    e.Edit? && (e.op.Online? || e.op.Offline?)
  }

  /** What is known of `f` was seen no later than any stamp from step `n` on. */
  ghost predicate Past(t: Table, es: seq<Event>, f: string, n: nat) {
    f in t && t[f].HostEntry? ==> forall i | n <= i < |es| && Stamped(es[i]) :: t[f].lastSeen <= es[i].op.seen
  }

  /** One process, whose clock never runs backwards and starts no earlier than what is known of `f`. */
  ghost predicate Clocked(s: State, es: seq<Event>, f: string) {
    && (forall i | 0 <= i < |es| :: es[i].Edit?)
    && (forall i, j | 0 <= i < j < |es| && Stamped(es[i]) && Stamped(es[j]) :: es[i].op.seen <= es[j].op.seen)
    && Past(s.live, es, f, 0) && Past(s.standby, es, f, 0)
  }

  /** Where both tables hold something at `f`, they hold the same. */
  ghost predicate Alike(s: State, f: string) {
    f in s.live && f in s.standby ==> s.live[f] == s.standby[f]
  }

  /** A host that an edit leaves in a table was there before, or was seen just now. */
  predicate Retimes(s: State, op: Op, f: string, t: Table) {
    f in t && t[f].HostEntry? ==>
      || (f in s.live && s.live[f].HostEntry? && s.live[f].lastSeen == t[f].lastSeen)
      || (f in s.standby && s.standby[f].HostEntry? && s.standby[f].lastSeen == t[f].lastSeen)
      || ((op.Online? || op.Offline?) && t[f].lastSeen == op.seen)
  }

  lemma LastSeenStep(s: State, op: Op, f: string)
    requires NonEmpty(s.index) && Alike(s, f)
    ensures var s' := Apply(s, op).0;
            Alike(s', f) && Retimes(s, op, f, s'.live) && Retimes(s, op, f, s'.standby)
  {
    hide NonEmpty, Enlist, Reduce, RecordOf;
  }

  lemma {:induction false} LastSeenBounded(ss: seq<State>, es: seq<Event>, f: string, n: nat)
    requires IsRun(ss, es) && n <= |es| && Alike(ss[0], f) && Clocked(ss[0], es, f)
    ensures Alike(ss[n], f) && Past(ss[n].live, es, f, n) && Past(ss[n].standby, es, f, n)
    decreases n
  {
    if n > 0 {
      LastSeenBounded(ss, es, f, n - 1);
      assert Step(ss[n - 1], es[n - 1], ss[n]);
      LastSeenStep(ss[n - 1], es[n - 1].op, f);
      hide Apply, Alike;
    }
  }

  /** Within one process, as long as a host stays known the time it was last seen never goes back, whatever fails. */
  lemma {:induction false} LastSeenNeverDecreases(ss: seq<State>, es: seq<Event>, f: string, i: nat, n: nat)
    requires IsRun(ss, es) && i <= n <= |es| && Alike(ss[0], f) && Clocked(ss[0], es, f)
    requires forall k | i <= k <= n :: f in ss[k].live && ss[k].live[f].HostEntry?
    ensures ss[i].live[f].lastSeen <= ss[n].live[f].lastSeen
    decreases n
  {
    if i < n {
      LastSeenNeverDecreases(ss, es, f, i, n - 1);
      LastSeenBounded(ss, es, f, n - 1);
      assert Step(ss[n - 1], es[n - 1], ss[n]);
      LastSeenStep(ss[n - 1], es[n - 1].op, f);
      hide Apply;
    }
  }

  // ---------- what the times tell ----------

  /** A session comes online at `f`, or the one found there goes offline. */
  predicate Stamps(s: State, op: Op, f: string) {
    || (op.Online? && op.peer.fqdn == f && op.stored)
    || (op.Offline? && op.peer.fqdn == f && PeerAt(s.live, f) == op.peer)
  }

  predicate IsHost(t: Table, f: string) {
    f in t && t[f].HostEntry?
  }

  /**
   What an edit makes of a host. One that comes online or goes offline is seen just now, with its session or
   without; it keeps its creation time if it was known and else has that of this edit. Any other edit leaves a
   host it does not remove as it was.
   */
  lemma HostAfter(s: State, op: Op, f: string)
    requires Inv(s) && !FirstUnlinkFails(s, op)
    ensures var t, t' := s.live, Apply(s, op).0.live;
            if Stamps(s, op, f) then
              && IsHost(t', f) && t'[f].lastSeen == op.seen
              && t'[f].peer == (if op.Online? then op.peer else null)
              && (IsHost(t, f) ==> t'[f].created == t[f].created)
              && (op.Online? && !IsHost(t, f) ==> t'[f].created == op.created)
            else
              IsHost(t', f) ==> IsHost(t, f) && t'[f] == t[f]
  {
    hide Indexed, HostsKeyed, Persisted, Enlist, Reduce, DropFirst, RecordOf;
    assert s.live == s.standby;
  }

  /**
   A host was last seen when a session last came online there or left: with step `i` the last to do so before
   step `n`, its last-seen time is what the clock said in step `i`.
   */
  lemma {:induction false} LastSeenIsLastStamp(ss: seq<State>, es: seq<Event>, f: string, i: nat, n: nat)
    requires IsRun(ss, es) && i < n <= |es| && Inv(ss[0]) && Sound(ss, es, n)
    requires forall k | i <= k < n :: es[k].Edit?
    requires Stamps(ss[i], es[i].op, f) && forall k | i < k < n :: !Stamps(ss[k], es[k].op, f)
    requires IsHost(ss[n].live, f)
    ensures f in ss[n].live && ss[n].live[f].HostEntry? && ss[n].live[f].lastSeen == es[i].op.seen
    decreases n
  {
    hide *;
    RunStep(ss, es, n - 1);
    SoundStep(ss, es, n - 1);
    RunKeepsInv(ss, es, n - 1);
    HostAfterStep(ss[n - 1], es[n - 1], ss[n], f);
    if i < n - 1 {
      LastSeenIsLastStamp(ss, es, f, i, n - 1);
    }
  }

  lemma HostAfterStep(s: State, e: Event, s': State, f: string)
    requires Step(s, e, s') && e.Edit? && Inv(s) && !Faulty(s, e) && IsHost(s'.live, f)
    ensures f in s'.live && s'.live[f].HostEntry?
    ensures if Stamps(s, e.op, f) then s'.live[f].lastSeen == e.op.seen
            else IsHost(s.live, f) && f in s.live && s'.live[f] == s.live[f]
  {
    HostAfter(s, e.op, f);
    hide Inv, Apply, Stamps, FirstUnlinkFails;
  }

  /**
   A host was created when it first came online: unless a `RemoveNames` has got to it since, restarts
   included, its creation time is what the clock said in the step that made it known.
   */
  lemma CreatedIsFirstOnline(ss: seq<State>, es: seq<Event>, f: string, i: nat, n: nat)
    requires IsRun(ss, es) && i < n <= |es| && Inv(ss[0]) && Sound(ss, es, n)
    requires es[i].Edit? && es[i].op.Online? && Stamps(ss[i], es[i].op, f) && !IsHost(ss[i].live, f)
    requires forall k | i < k < n && es[k].Edit? :: !Drops(ss[k].index, es[k].op, f)
    ensures KnownHost(ss[n].live, f, es[i].op.created)
  {
    RunStep(ss, es, i);
    RunKeepsInv(ss, es, i);
    assert !Faulty(ss[i], es[i]);
    HostAfter(ss[i], es[i].op, f);
    hide IsRun, Apply, Inv, Stamps, FirstUnlinkFails, Drops;
    CreatedNeverChangesExactlyWhen(ss, es, f, es[i].op.created, i + 1, n);
  }

  // ---------- the order of an owner's names ----------

  function ListOf(ix: Index, owner: string): seq<NamedRoute> {
    if owner in ix then ix[owner] else []
  }

  /** `l` is `m` with some elements left out. */
  predicate Subsequence<T(==)>(l: seq<T>, m: seq<T>) {
    l == [] ||
    (m != [] && (if l[|l| - 1] == m[|m| - 1] && Subsequence(l[..|l| - 1], m[..|m| - 1]) then true
                 else Subsequence(l, m[..|m| - 1])))
  }

  lemma {:induction false} SubsequenceRefl<T>(l: seq<T>)
    ensures Subsequence(l, l)
  {
    if l != [] {
      SubsequenceRefl(l[..|l| - 1]);
    }
  }

  /** What comes next to both keeps it so, and so does what comes next to the longer one alone. */
  lemma SubsequenceNext<T>(l: seq<T>, m: seq<T>, x: T)
    requires Subsequence(l, m)
    ensures Subsequence(l + [x], m + [x]) && Subsequence(l, m + [x])
  {
    assert (l + [x])[..|l|] == l && (m + [x])[..|m|] == m;
  }

  lemma {:induction false} SubsequenceTrans<T>(k: seq<T>, l: seq<T>, m: seq<T>)
    requires Subsequence(k, l) && Subsequence(l, m)
    ensures Subsequence(k, m)
    decreases |l| + |m|
  {
    if k != [] {
      var l', m' := l[..|l| - 1], m[..|m| - 1];
      if l[|l| - 1] == m[|m| - 1] && Subsequence(l', m') {
        if k[|k| - 1] == l[|l| - 1] && Subsequence(k[..|k| - 1], l') {
          SubsequenceTrans(k[..|k| - 1], l', m');
        } else {
          SubsequenceTrans(k, l', m');
        }
      } else {
        SubsequenceTrans(k, l, m');
      }
    }
  }

  /** Leaving out one element, or the first few. */
  lemma {:induction false} CutIsSubsequence<T>(l: seq<T>, i: nat)
    requires i < |l|
    ensures Subsequence(l[..i] + l[i + 1..], l)
    decreases |l|
  {
    var init, x := l[..|l| - 1], l[|l| - 1];
    assert l == init + [x];
    if i == |l| - 1 {
      SubsequenceRefl(init);
      SubsequenceNext(init, init, x);
      assert l[..i] + l[i + 1..] == init;
    } else {
      CutIsSubsequence(init, i);
      SubsequenceNext(init[..i] + init[i + 1..], init, x);
      assert l[..i] + l[i + 1..] == init[..i] + init[i + 1..] + [x];
    }
  }

  lemma {:induction false} RestIsSubsequence<T>(l: seq<T>, k: nat)
    requires k <= |l|
    ensures Subsequence(l[k..], l)
    decreases |l|
  {
    if k < |l| {
      var init, x := l[..|l| - 1], l[|l| - 1];
      assert l == init + [x] && l[k..] == init[k..] + [x];
      RestIsSubsequence(init, k);
      SubsequenceNext(init[k..], init, x);
    }
  }

  /** An `AddName` that finds its name free and is stored puts its route behind all others of its owner. */
  lemma AddNameAppends(s: State, n: NamedRoute)
    requires NonEmpty(s.index) && n.name !in s.standby
    ensures ListOf(Apply(s, AddName(n, true)).0.index, n.owner) == ListOf(s.index, n.owner) + [n]
    ensures forall o | o != n.owner :: ListOf(Apply(s, AddName(n, true)).0.index, o) == ListOf(s.index, o)
  {
  }

  /** Every other edit only leaves routes out of a list. */
  lemma OthersKeepOrder(s: State, op: Op, owner: string)
    requires NonEmpty(s.index) && !(op.AddName? && Exchanges(s, op))
    ensures Subsequence(ListOf(Apply(s, op).0.index, owner), ListOf(s.index, owner))
  {
    var l := ListOf(s.index, owner);
    SubsequenceRefl(l);
    match op
    case RemoveName(name, from, unlinked) =>
      if Exchanges(s, op) && from == owner && s.standby[name].named in l {
        var i := WithoutAt(l, s.standby[name].named);
        CutIsSubsequence(l, i);
      }
    case RemoveNames(from, failAt) =>
      if from in s.index {
        RestIsSubsequence(s.index[from], Unlinked(s.index[from], failAt));
      }
    case _ =>
  }

  /** A route of the owner's is added. */
  predicate Adds(s: State, e: Event, owner: string) {
    e.Edit? && e.op.AddName? && Exchanges(s, e.op) && e.op.route.owner == owner
  }

  /** The routes an owner has added in the first `n` steps, in that order. */
  ghost function Added(ss: seq<State>, es: seq<Event>, owner: string, n: nat): seq<NamedRoute>
    requires |ss| == |es| + 1 && n <= |es|
  {
    if n == 0 then []
    else Added(ss, es, owner, n - 1) + if Adds(ss[n - 1], es[n - 1], owner) then [es[n - 1].op.route] else []
  }

  lemma Associates<T>(l: seq<T>, m: seq<T>, r: seq<T>)
    ensures l + (m + r) == l + m + r
  {
  }

  lemma OrderStep(s: State, op: Op, owner: string, before: seq<NamedRoute>)
    requires NonEmpty(s.index) && Subsequence(ListOf(s.index, owner), before)
    ensures Subsequence(ListOf(Apply(s, op).0.index, owner),
                        before + if Adds(s, Edit(op), owner) then [op.route] else [])
  {
    hide Apply, NonEmpty, ListOf, Subsequence;
    assert before + [] == before;
    if op.AddName? && Exchanges(s, op) {
      assert op == AddName(op.route, true);
      AddNameAppends(s, op.route);
      SubsequenceNext(ListOf(s.index, owner), before, op.route);
    } else {
      OthersKeepOrder(s, op, owner);
      SubsequenceTrans(ListOf(Apply(s, op).0.index, owner), ListOf(s.index, owner), before);
    }
  }

  /**
   Over a run within one process, whatever fails: an owner's routes are listed in the order in which they
   were added, behind those that were listed at the start in the order they had then.
   */
  lemma {:induction false} ListedInOrderAdded(ss: seq<State>, es: seq<Event>, owner: string, n: nat)
    requires IsRun(ss, es) && n <= |es| && forall i | 0 <= i < n :: es[i].Edit?
    ensures Subsequence(ListOf(ss[n].index, owner), ListOf(ss[0].index, owner) + Added(ss, es, owner, n))
    decreases n
  {
    var start := ListOf(ss[0].index, owner);
    if n == 0 {
      SubsequenceRefl(start);
      assert start + [] == start;
    } else {
      RunStep(ss, es, n - 1);
      hide IsRun, Apply, Adds, Subsequence, ListOf, NonEmpty;
      ListedInOrderAdded(ss, es, owner, n - 1);
      OrderStep(ss[n - 1], es[n - 1].op, owner, start + Added(ss, es, owner, n - 1));
      var next := if Adds(ss[n - 1], es[n - 1], owner) then [es[n - 1].op.route] else [];
      Associates(start, Added(ss, es, owner, n - 1), next);
    }
  }

  // ---------- names belong to their owner ----------

  ghost predicate Held(s: State, k: string, n: NamedRoute) {
    k in s.live && s.live[k] == NameEntry(n)
  }

  ghost predicate HeldBy(t: Table, k: string, owner: string) {
    k in t && t[k].NameEntry? && t[k].named.name == k && t[k].named.owner == owner
  }

  /**
   The edits that end a name: its owner removes it, or the peer whose FQDN it is comes online; and the disk
   goes along.
   */
  predicate EndsName(ix: Index, op: Op, k: string, owner: string) {
    match op
    case RemoveName(name, from, unlinked) => name == k && from == owner && unlinked
    case RemoveNames(from, _) => from == owner && Drops(ix, op, k)
    case Online(p, _, _, stored) => p.fqdn == k && stored
    case _ => false
  }

  /**
   A held name stays with the very same route under every edit but these, and with no route of its owner
   under these.
   */
  lemma NameEndsExactlyWhen(s: State, op: Op, k: string, n: NamedRoute)
    requires Inv(s) && Held(s, k, n) && !FirstUnlinkFails(s, op)
    ensures Held(Apply(s, op).0, k, n) <==> !EndsName(s.index, op, k, n.owner)
    ensures HeldBy(Apply(s, op).0.live, k, n.owner) <==> !EndsName(s.index, op, k, n.owner)
  {
    hide Distinct, HostsKeyed, Persisted, Enlist, Reduce, RecordOf;
  }

  /** While a name is held, adding it again changes nothing for its owner and fails for anyone else. */
  lemma HeldNameIsOccupied(s: State, k: string, n: NamedRoute, m: NamedRoute, stored: bool)
    requires Inv(s) && Held(s, k, n) && m.name == k
    ensures Apply(s, AddName(m, stored)) == (s, if m.owner == n.owner then Ok else Failed(Occupied))
  {
  }

  /**
   Over a run without restarts, a name that was held stays with the very same route if and only if neither
   its owner removes it nor the peer with that FQDN comes online.
   */
  lemma {:induction false} NameStaysOwnedExactlyWhen(ss: seq<State>, es: seq<Event>, k: string, n: NamedRoute, end: nat)
    requires IsRun(ss, es) && end <= |es| && Inv(ss[0]) && Held(ss[0], k, n) && Sound(ss, es, end)
    requires forall i | 0 <= i < end :: es[i].Edit?
    ensures (forall i | 0 <= i <= end :: Held(ss[i], k, n)) <==>
            (forall i | 0 <= i < end :: !EndsName(ss[i].index, es[i].op, k, n.owner))
    decreases end
  {
    if end > 0 {
      RunStep(ss, es, end - 1);
      SoundStep(ss, es, end - 1);
      NameStaysOwnedExactlyWhen(ss, es, k, n, end - 1);
      RunKeepsInv(ss, es, end - 1);
      hide Inv, EndsName, Held, Apply, FirstUnlinkFails, IsRun, Sound;
      if Held(ss[end - 1], k, n) {
        NameEndsExactlyWhen(ss[end - 1], es[end - 1].op, k, n);
      }
    }
  }

  lemma EditEndsName(s: State, op: Op, k: string, owner: string)
    requires Inv(s) && !FirstUnlinkFails(s, op) && HeldBy(s.live, k, owner)
    ensures HeldBy(Apply(s, op).0.live, k, owner) <==> !EndsName(s.index, op, k, owner)
  {
    NameEndsExactlyWhen(s, op, k, s.live[k].named);
    hide Inv, Apply, EndsName;
  }

  lemma StepEndsName(s: State, e: Event, s': State, k: string, owner: string)
    requires Step(s, e, s') && Inv(s) && !Faulty(s, e) && HeldBy(s.live, k, owner)
    ensures HeldBy(s'.live, k, owner) <==> !(e.Edit? && EndsName(s.index, e.op, k, owner))
  {
    match e
    case Edit(op) => EditEndsName(s, op, k, owner);
    case Reboot(walk) =>
      RestartRoundTrip(s, s', walk);
      hide Inv, Restarts, Exact;
      assert SameRoute(s.live[k], s'.live[k]);
  }

  /** With restarts in between, the name stays with the same owner, under the same condition. */
  lemma {:induction false} NameStaysWithOwnerExactlyWhen(ss: seq<State>, es: seq<Event>, k: string, owner: string,
                                                         end: nat)
    requires IsRun(ss, es) && end <= |es| && Inv(ss[0]) && HeldBy(ss[0].live, k, owner) && Sound(ss, es, end)
    ensures (forall i | 0 <= i <= end :: HeldBy(ss[i].live, k, owner)) <==>
            (forall i | 0 <= i < end && es[i].Edit? :: !EndsName(ss[i].index, es[i].op, k, owner))
    decreases end
  {
    hide *;
    if end > 0 {
      RunStep(ss, es, end - 1);
      SoundStep(ss, es, end - 1);
      NameStaysWithOwnerExactlyWhen(ss, es, k, owner, end - 1);
      RunKeepsInv(ss, es, end - 1);
      if HeldBy(ss[end - 1].live, k, owner) {
        StepEndsName(ss[end - 1], es[end - 1], ss[end], k, owner);
      }
    }
  }
}
