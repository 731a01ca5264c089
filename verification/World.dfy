/**
 Sessions, dials and the concurrent router together (ssh/session.go:197-252, 343-377 on top of the router's
 step machine): where connections come from.

 Each session handles its requests one after the other: record the port, disable the idle timer, and
 the first time register with the router. A dial looks a name up, step by step like any reader, and goes on
 with the owner's FQDN until it finds a host; the session then checks the port.
 */
module World {
  import opened Routes
  import opened RouterSpec
  import opened Invariants
  import Restart
  import opened Protocol
  import opened Executions
  import opened Sessions
  import opened Dialing

  // ---------- dials ----------

  /** One lookup of a dial: what was found, and after how many steps of the run. */
  datatype Hop = Hop(address: Address, found: Option<Entry>, moment: nat)

  /**
   A dial is lost, with an answer, when nothing or an offline host is found, and denied when the session lacks
   the port.
   */
  datatype Progress =
    | Chasing | Resolved | Lost(answer: Target) | AtSession(peer: Peer) | Opened(peer: Peer) | Denied(peer: Peer)

  /** `started` is the number of the step the dial began with. */
  datatype Dial = Dial(wanted: Address, started: nat, address: Address, hops: seq<Hop>, progress: Progress)

  /** `clock` counts the acts so far; `storing` are the sessions whose call of `Online` is one that stores. */
  datatype System = System(sys: Sys, sessions: map<Peer, Sess>, dials: map<nat, Dial>, clock: nat, storing: set<Peer>)

  datatype Act =
    // sessions; calling the router is a step of both
    | Connect(p: Peer, at: int)
    | Does(p: Peer, task: Task)
    | CallOnline(p: Peer, t: nat, seen: int, created: int, stored: bool)
    // any other step of the router
    | Internal(e: Event)
    // dials
    | StartDial(t: nat, wanted: Address) | DialStep(t: nat, kind: Kind) | OpenChannel(t: nat)

  /** A step of the router that is neither a session coming online nor part of a dial. */
  predicate IsInternal(w: System, e: Event) {
    e.t !in w.dials && (e.kind.Begin? ==> !e.kind.op.Online?)
  }

  /** A dial takes the steps of a lookup of the host it is after. */
  predicate DialMay(d: Dial, pc: Pc, kind: Kind) {
    match kind
    case LockRead(key) => d.progress == Chasing && key == d.address.host
    case Load => d.progress == Chasing
    case Look => d.progress == Chasing && pc.Reading? && pc.key == d.address.host
    case UnlockRead => d.progress == Resolved
    case _ => false
  }

  ghost predicate May(w: System, x: Act) {
    NonEmpty(w.sys.mem.index) &&
    match x
    case Connect(p, _) => p !in w.sessions
    case Does(p, task) =>
      p in w.sessions && Ready(w.sessions[p], task) && !task.Call?
      && (task.Return? ==> w.sessions[p].handler.t < |w.sys.pcs| && w.sys.pcs[w.sessions[p].handler.t] == Pc.Idle)
    case CallOnline(p, t, seen, created, stored) =>
      p in w.sessions && Ready(w.sessions[p], Call(t)) && t !in w.dials
      && Enabled(w.sys, By(t, Begin(Op.Online(p, seen, created, stored))))
    case Internal(e) => IsInternal(w, e) && Enabled(w.sys, e)
    case StartDial(t, _) => t !in w.dials && t < |w.sys.pcs| && w.sys.pcs[t] == Pc.Idle
    case DialStep(t, kind) => t in w.dials && Enabled(w.sys, By(t, kind)) && DialMay(w.dials[t], w.sys.pcs[t], kind)
    case OpenChannel(t) => t in w.dials && w.dials[t].progress.AtSession?
  }

  /** Where a dial goes with what it found. */
  function Followed(d: Dial): Dial
    requires d.hops != []
  {
    match d.hops[|d.hops| - 1].found
    case None => d.(progress := Lost(NotFound(d.address.host)))
    case Some(NameEntry(n)) => d.(address := Address(n.owner, d.address.port), progress := Chasing)
    case Some(HostEntry(peer, _, _)) => d.(progress := if peer == null then Lost(PeerOffline) else AtSession(peer))
  }

  function DialAfter(w: System, t: nat, kind: Kind): Dial
    requires t in w.dials && t < |w.sys.pcs|
  {
    var d := w.dials[t];
    match kind
    case Look =>
      if w.sys.pcs[t].Reading? && w.sys.pcs[t].look.Holding?
      then
        var found := Get(w.sys.mem.At(w.sys.pcs[t].look.slot), d.address.host);
        d.(hops := d.hops + [Hop(d.address, found, w.clock)], progress := Resolved)
      else d
    case UnlockRead => if d.hops != [] then Followed(d) else d
    case _ => d
  }

  function Opening(w: System, d: Dial): Dial {
    match d.progress
    case AtSession(p) =>
      d.(progress := if p in w.sessions && Provides(w.sessions[p].services, d.address.port).ChannelTo? then Opened(p)
                     else Denied(p))
    case _ => d
  }

  ghost function After(w: System, x: Act): System
    requires May(w, x)
  {
    var v := w.(clock := w.clock + 1);
    match x
    case Connect(p, at) => v.(sessions := w.sessions[p := Sess({}, Started(at), false, Waiting)])
    case Does(p, task) => v.(sessions := w.sessions[p := Handled(w.sessions[p], task)])
    case CallOnline(p, t, seen, created, stored) =>
      v.(sessions := w.sessions[p := Handled(w.sessions[p], Call(t))],
         sys := Step(w.sys, By(t, Begin(Op.Online(p, seen, created, stored)))),
         storing := if stored then w.storing + {p} else w.storing)
    case Internal(e) => v.(sys := Step(w.sys, e))
    case StartDial(t, wanted) => v.(dials := w.dials[t := Dial(wanted, w.clock, wanted, [], Chasing)])
    case DialStep(t, kind) => v.(sys := Step(w.sys, By(t, kind)), dials := w.dials[t := DialAfter(w, t, kind)])
    case OpenChannel(t) => v.(dials := w.dials[t := Opening(w, w.dials[t])])
  }

  ghost predicate Turns(w: System, x: Act, w': System) {
    May(w, x) && w' == After(w, x)
  }

  ghost predicate IsRun(ws: seq<System>, xs: seq<Act>) {
    |ws| == |xs| + 1 && forall i | 0 <= i < |xs| :: Turns(ws[i], xs[i], ws[i + 1])
  }

  // ---------- what holds at the start ----------

  /** No session in a table: the state of a router that has just been started. */
  ghost predicate NoSessions(t: Table) {
    forall k | k in t :: PeerAt(t, k) == null
  }

  ghost predicate Fresh(w: System) {
    && AtRest(w.sys) && NoSessions(w.sys.mem.a) && NoSessions(w.sys.mem.b)
    && w.sessions == map[] && w.dials == map[] && w.clock == 0 && w.storing == {}
  }

  // ---------- sessions: what their handlers guarantee ----------

  /** A session with a port, whose idle timer is off for good. */
  predicate Serving(s: Sess) {
    s.services != {} && s.idle.disabled && !s.idle.timer.Armed?
  }

  /** The session's one call of `Online` has been made. */
  predicate HasCalled(s: Sess) {
    s.once && s.handler != Registering
  }

  predicate HandlerOk(s: Sess) {
    && (s.once ==> Serving(s))
    && (s.idle.disabled ==> !s.idle.timer.Armed?)
    && match s.handler
       case Waiting => true
       case Received(_) => true
       case Recorded => s.services != {}
       case Useful => s.services != {} && s.idle.disabled
       case Registering => s.once
       case Calling(_) => s.once
  }

  lemma HandledOk(s: Sess, x: Task)
    requires HandlerOk(s) && Ready(s, x)
    ensures var s' := Handled(s, x);
            && HandlerOk(s') && s.services <= s'.services
            && (s.idle.disabled ==> s'.idle.disabled)
            && (HasCalled(s') <==> HasCalled(s) || x.Call?)
            && (x.Call? ==> !HasCalled(s))
  {
  }

  // ---------- the router: whose sessions its tables hold ----------

  /** The sessions that have called `Online`. */
  function Callers(w: System): set<Peer> {
    set p | p in w.sessions && HasCalled(w.sessions[p])
  }

  /** A session among `good`, if there is one at the key, and its FQDN is the key. */
  predicate Fits(good: set<Peer>, key: string, e: Entry) {
    e.HostEntry? && e.peer != null ==> e.peer in good && e.peer.fqdn == key
  }

  ghost predicate FitsTable(good: set<Peer>, t: Table) {
    forall k | k in t :: Fits(good, k, t[k])
  }

  predicate FitsChange(good: set<Peer>, c: Change) {
    c.Put? ==> Fits(good, c.key, c.entry)
  }

  ghost predicate FitsReplay(good: set<Peer>, cs: seq<Change>) {
    forall c | c in cs :: FitsChange(good, c)
  }

  ghost predicate FitsActions(good: set<Peer>, xs: seq<Action>) {
    forall x | x in xs && x.Alter? :: FitsChange(good, x.change)
  }

  ghost predicate FitsPc(good: set<Peer>, pc: Pc) {
    match pc
    case Editing(op, _, phase) =>
      && (op.Online? && op.stored ==> op.peer in good)
      && (match phase
          case Working(actions, _, replay, _) => FitsActions(good, actions) && FitsReplay(good, replay)
          case Exchanging(replay, _) => FitsReplay(good, replay)
          case Exchanged(replay, _) => FitsReplay(good, replay)
          case Replaying(replay, _) => FitsReplay(good, replay)
          case _ => true)
    case _ => true
  }

  ghost predicate FitsMem(good: set<Peer>, mem: Memory) {
    FitsTable(good, mem.a) && FitsTable(good, mem.b)
  }

  ghost predicate FitsSys(good: set<Peer>, s: Sys) {
    FitsMem(good, s.mem) && forall t | 0 <= t < |s.pcs| :: FitsPc(good, s.pcs[t])
  }

  lemma MoreSessions(good: set<Peer>, more: set<Peer>, s: Sys)
    requires FitsSys(good, s) && good <= more
    ensures FitsSys(more, s)
  {
  }

  lemma {:induction false} RemovalsFit(good: set<Peer>, owner: string, l: seq<NamedRoute>, k: nat)
    requires k <= |l|
    ensures FitsActions(good, Removals(owner, l, k))
  {
    if k > 0 {
      RemovalsFit(good, owner, l, k - 1);
    }
  }

  lemma {:induction false} DeletionsFit(good: set<Peer>, l: seq<NamedRoute>)
    ensures FitsReplay(good, Deletions(l))
  {
    if l != [] {
      DeletionsFit(good, l[1..]);
    }
  }

  lemma PlanFits(good: set<Peer>, next: Table, active: Table, ix: Index, op: Op)
    requires NonEmpty(ix) && (op.Online? && op.stored ==> op.peer in good)
    ensures var plan := PlanFor(next, active, ix, op);
            plan.Proceed? ==> FitsActions(good, plan.actions) && FitsReplay(good, plan.replay)
  {
    if op.RemoveNames? && op.from in ix {
      var list := ix[op.from];
      RemovalsFit(good, op.from, list, Unlinked(list, op.failAt));
      DeletionsFit(good, list[..Reported(list, op.failAt)]);
    }
  }

  /** A step puts no session into a table, or into what an edit has still to do, that has not called `Online`. */
  lemma StepFits(good: set<Peer>, mem: Memory, locks: Locks, pc: Pc, kind: Kind)
    requires NonEmpty(mem.index) && CanStep(mem, locks, pc, kind)
    requires FitsMem(good, mem) && FitsPc(good, pc)
    requires kind.Begin? && kind.op.Online? && kind.op.stored ==> kind.op.peer in good
    ensures FitsMem(good, NextMem(mem, pc)) && FitsPc(good, NextPc(mem, pc, kind))
  {
    if pc.Editing? && pc.phase.Chosen? {
      PlanFits(good, mem.At(pc.next), mem.Live(), mem.index, pc.op);
    }
    hide PlanFor, NonEmpty;
    if pc.Editing? && pc.phase.Replaying? && pc.phase.replay != [] {
      assert pc.phase.replay[0] in pc.phase.replay && forall c | c in pc.phase.replay[1..] :: c in pc.phase.replay;
    }
  }

  lemma SysStepFits(good: set<Peer>, s: Sys, e: Event)
    requires NonEmpty(s.mem.index) && Enabled(s, e) && FitsSys(good, s)
    requires e.kind.Begin? && e.kind.op.Online? && e.kind.op.stored ==> e.kind.op.peer in good
    ensures FitsSys(good, Step(s, e))
  {
    StepFits(good, s.mem, s.locks, s.pcs[e.t], e.kind);
    hide FitsMem, FitsPc, NextMem, NextPc, CanStep, NonEmpty;
  }

  // ---------- dials: how they got where they are ----------

  /** A named route was found, owned by `host`. */
  predicate Leads(hop: Hop, host: string) {
    hop.found.Some? && hop.found.value.NameEntry? && hop.found.value.named.owner == host
  }

  /** The session was found. */
  predicate Finds(hop: Hop, p: Peer) {
    hop.found.Some? && hop.found.value.HostEntry? && hop.found.value.peer == p
  }

  /** Each hop led to the next: the owner of the name that was found, on the same port. */
  ghost predicate Linked(d: Dial) {
    && (forall i | 0 <= i < |d.hops| :: d.hops[i].address.port == d.wanted.port)
    && (d.hops != [] ==> d.hops[0].address == d.wanted)
    && (forall i | 0 < i < |d.hops| :: Leads(d.hops[i - 1], d.hops[i].address.host))
    && (forall i | 0 <= i < |d.hops| :: d.started < d.hops[i].moment)
    && (forall i, j | 0 <= i < j < |d.hops| :: d.hops[i].moment < d.hops[j].moment)
  }

  /** What the last hop found, and where that puts the dial. */
  ghost predicate Placed(d: Dial) {
    && d.address.port == d.wanted.port
    && if d.hops == [] then d.progress == Chasing && d.address == d.wanted
       else
         var last := d.hops[|d.hops| - 1];
         match d.progress
         case Chasing => Leads(last, d.address.host)
         case Resolved => last.address == d.address
         case AtSession(p) => last.address == d.address && Finds(last, p)
         case Opened(p) => last.address == d.address && Finds(last, p)
         case Denied(p) => last.address == d.address && Finds(last, p)
         case Lost(answer) =>
           && last.address == d.address
           && match last.found
              case None => answer == NotFound(d.address.host)
              case Some(e) => e.HostEntry? && e.peer == null && answer == PeerOffline
  }

  ghost predicate DialOk(w: System, d: Dial) {
    && Linked(d) && Placed(d) && d.started < w.clock
    && (forall i | 0 <= i < |d.hops| ::
          && d.hops[i].moment < w.clock
          && (d.hops[i].found.Some? ==> Fits(w.storing, d.hops[i].address.host, d.hops[i].found.value)))
    && (d.progress.Opened? ==> d.progress.peer in w.sessions && d.wanted.port in w.sessions[d.progress.peer].services)
  }

  ghost predicate Consistent(w: System) {
    && LocksHeld(w.sys) && NonEmpty(w.sys.mem.index)
    && FitsSys(w.storing, w.sys)
    && SessionsOk(w)
    && (forall t | t in w.dials :: DialOk(w, w.dials[t]))
  }

  // ---------- every step keeps all of it ----------

  /** What the later system still knows of the sessions. */
  ghost predicate Later(w: System, w': System) {
    && w.clock <= w'.clock && w.storing <= w'.storing
    && (forall p | p in w.sessions ::
          p in w'.sessions && w.sessions[p].services <= w'.sessions[p].services
          && (w.sessions[p].idle.disabled ==> w'.sessions[p].idle.disabled))
  }

  ghost predicate SessionsOk(w: System) {
    (forall p | p in w.sessions :: HandlerOk(w.sessions[p])) && w.storing <= Callers(w)
  }

  lemma FreshSession(at: int)
    ensures HandlerOk(Sess({}, Started(at), false, Waiting)) && !HasCalled(Sess({}, Started(at), false, Waiting))
  {
  }

  lemma SessionsStayOk(w: System, x: Act)
    requires May(w, x) && SessionsOk(w)
    ensures SessionsOk(After(w, x)) && Later(w, After(w, x))
    ensures Callers(After(w, x)) == Callers(w) + if x.CallOnline? then {x.p} else {}
    ensures x.CallOnline? ==> x.p !in Callers(w)
  {
    hide HandlerOk, Handled, HasCalled, Enabled, Step, NonEmpty, Ready, IsInternal, DialMay;
    match x
    case Connect(_, at) => FreshSession(at);
    case Does(p, task) => HandledOk(w.sessions[p], task);
    case CallOnline(p, t, _, _, _) => HandledOk(w.sessions[p], Call(t));
    case _ =>
  }

  /** The step of the router that an act takes, if it takes one. */
  function RouterEvent(x: Act): Option<Event> {
    match x
    case CallOnline(p, t, seen, created, stored) => Some(By(t, Begin(Op.Online(p, seen, created, stored))))
    case Internal(e) => Some(e)
    case DialStep(t, kind) => Some(By(t, kind))
    case _ => None
  }

  lemma StepKeepsNonEmpty(s: Sys, e: Event)
    requires Enabled(s, e) && NonEmpty(s.mem.index)
    ensures NonEmpty(Step(s, e).mem.index)
  {
    if s.pcs[e.t] != Pc.Idle {
      OwnStepCounts(s.mem, s.locks, s.pcs[e.t], e.kind);
    }
    hide NonEmpty, StepsLeft, NextPc, CanStep;
  }

  lemma RouterStaysOk(w: System, x: Act)
    requires May(w, x) && Consistent(w)
    ensures LocksHeld(After(w, x).sys) && FitsSys(After(w, x).storing, After(w, x).sys)
    ensures NonEmpty(After(w, x).sys.mem.index)
  {
    SessionsStayOk(w, x);
    MoreSessions(w.storing, After(w, x).storing, w.sys);
    hide LocksHeld, FitsSys, Callers, Handled, DialAfter, NonEmpty, Ready, SessionsOk, DialOk;
    match RouterEvent(x)
    case Some(e) =>
      LocksStayHeld(w.sys, e);
      StepKeepsNonEmpty(w.sys, e);
      SysStepFits(After(w, x).storing, w.sys, e);
    case None =>
  }

  /** Nothing that happens elsewhere undoes what a dial has found out. */
  lemma DialStaysOk(w: System, w': System, d: Dial)
    requires DialOk(w, d) && Later(w, w')
    ensures DialOk(w', d)
  {
    hide Linked, Placed, Callers;
  }

  function Tick(w: System): System {
    w.(clock := w.clock + 1)
  }

  lemma LookIsOk(w: System, d: Dial, found: Option<Entry>)
    requires DialOk(w, d) && d.progress == Chasing
    requires found.Some? ==> Fits(w.storing, d.address.host, found.value)
    ensures DialOk(Tick(w), d.(hops := d.hops + [Hop(d.address, found, w.clock)], progress := Resolved))
  {
  }

  lemma FollowedIsOk(w: System, d: Dial)
    requires DialOk(w, d) && d.progress == Resolved
    ensures d.hops != [] && DialOk(w, Followed(d))
  {
  }

  lemma OpeningIsOk(w: System, d: Dial)
    requires DialOk(w, d)
    ensures DialOk(w, Opening(w, d))
  {
  }

  lemma NewDialIsOk(w: System, wanted: Address)
    ensures DialOk(Tick(w), Dial(wanted, w.clock, wanted, [], Chasing))
  {
  }

  /** Time alone changes nothing, and what an act changes comes on top. */
  lemma TickIsLater(w: System, x: Act)
    requires May(w, x) && SessionsOk(w)
    ensures Later(w, Tick(w)) && Later(Tick(w), After(w, x))
  {
    SessionsStayOk(w, x);
    assert Callers(Tick(w)) == Callers(w);
    hide Callers, Handled, Enabled, Step, NonEmpty, Ready, DialAfter, Opening, SessionsOk, IsInternal, DialMay;
  }

  /** What a reader that is about to look will find fits the sessions. */
  lemma FoundFits(w: System, t: nat)
    requires Consistent(w) && t < |w.sys.pcs| && w.sys.pcs[t].Reading? && w.sys.pcs[t].look.Holding?
    ensures var found := Get(w.sys.mem.At(w.sys.pcs[t].look.slot), w.sys.pcs[t].key);
            found.Some? ==> Fits(w.storing, w.sys.pcs[t].key, found.value)
  {
    hide Callers, Fits, LocksHeld, FitsPc, DialOk, SessionsOk;
  }

  lemma DialStepIsOk(w: System, t: nat, kind: Kind)
    requires May(w, DialStep(t, kind)) && Consistent(w)
    ensures DialOk(Tick(w), DialAfter(w, t, kind))
  {
    var d := w.dials[t];
    TickIsLater(w, DialStep(t, kind));
    hide Callers, Fits, DialOk, SessionsOk, LocksHeld, FitsSys, NonEmpty, Later, After, Tick, Followed;
    match kind
    case Look =>
      FoundFits(w, t);
      LookIsOk(w, d, Get(w.sys.mem.At(w.sys.pcs[t].look.slot), d.address.host));
    case UnlockRead =>
      FollowedIsOk(w, d);
      DialStaysOk(w, Tick(w), Followed(d));
    case _ => DialStaysOk(w, Tick(w), d);
  }

  /** What an act makes of each dial. */
  lemma DialsAfter(w: System, x: Act, t: nat)
    requires May(w, x) && t in After(w, x).dials
    ensures x.DialStep? && x.t == t ==> After(w, x).dials[t] == DialAfter(w, t, x.kind)
    ensures x.OpenChannel? && x.t == t ==> After(w, x).dials[t] == Opening(w, w.dials[t])
    ensures x.StartDial? && x.t == t ==> After(w, x).dials[t] == Dial(x.wanted, w.clock, x.wanted, [], Chasing)
    ensures !(x.DialStep? || x.OpenChannel? || x.StartDial?) || x.t != t ==>
      t in w.dials && After(w, x).dials[t] == w.dials[t]
  {
    hide Handled, Enabled, Step, NonEmpty, Ready, DialAfter, Opening, IsInternal, DialMay;
  }

  lemma DialsStayOk(w: System, x: Act, t: nat)
    requires May(w, x) && Consistent(w) && t in After(w, x).dials
    ensures DialOk(After(w, x), After(w, x).dials[t])
  {
    var w' := After(w, x);
    TickIsLater(w, x);
    SessionsStayOk(w, x);
    DialsAfter(w, x, t);
    hide Callers, DialOk, SessionsOk, LocksHeld, FitsSys, NonEmpty, Later;
    hide After, DialAfter, Opening, Tick, Enabled, Ready;
    if x.DialStep? && x.t == t {
      DialStepIsOk(w, t, x.kind);
      DialStaysOk(Tick(w), w', w'.dials[t]);
    } else if x.OpenChannel? && x.t == t {
      OpeningIsOk(w, w.dials[t]);
      DialStaysOk(w, w', w'.dials[t]);
    } else if x.StartDial? && x.t == t {
      NewDialIsOk(w, x.wanted);
      DialStaysOk(Tick(w), w', w'.dials[t]);
    } else {
      DialStaysOk(w, w', w.dials[t]);
    }
  }

  lemma StaysConsistent(w: System, x: Act)
    requires May(w, x) && Consistent(w)
    ensures Consistent(After(w, x))
  {
    SessionsStayOk(w, x);
    RouterStaysOk(w, x);
    forall t | t in After(w, x).dials ensures DialOk(After(w, x), After(w, x).dials[t]) {
      DialsStayOk(w, x, t);
    }
    hide LocksHeld, FitsSys, SessionsOk, Later, Callers, DialOk, After, May, NonEmpty;
  }

  lemma {:induction false} RunIsConsistent(ws: seq<System>, xs: seq<Act>, n: nat)
    requires IsRun(ws, xs) && Fresh(ws[0]) && n <= |xs|
    ensures Consistent(ws[n]) && ws[n].clock == n
    decreases n
  {
    if n == 0 {
      FreshIsConsistent(ws[0]);
    } else {
      assert Turns(ws[n - 1], xs[n - 1], ws[n]);
      hide Consistent, May, Fresh;
      RunIsConsistent(ws, xs, n - 1);
      StaysConsistent(ws[n - 1], xs[n - 1]);
    }
  }

  lemma FreshIsConsistent(w: System)
    requires Fresh(w)
    ensures Consistent(w)
  {
  }

  // ---------- what the history must contain ----------

  /** How often a session has called `Online` during the first `n` acts. */
  function Calls(xs: seq<Act>, n: nat, p: Peer): nat
    requires n <= |xs|
  {
    if n == 0 then 0 else Calls(xs, n - 1, p) + if xs[n - 1].CallOnline? && xs[n - 1].p == p then 1 else 0
  }

  lemma {:induction false} CallsAreCounted(ws: seq<System>, xs: seq<Act>, n: nat, p: Peer)
    requires IsRun(ws, xs) && Fresh(ws[0]) && n <= |xs|
    ensures Calls(xs, n, p) == if p in Callers(ws[n]) then 1 else 0
    decreases n
  {
    if n > 0 {
      CallsAreCounted(ws, xs, n - 1, p);
      RunIsConsistent(ws, xs, n - 1);
      assert Turns(ws[n - 1], xs[n - 1], ws[n]);
      SessionsStayOk(ws[n - 1], xs[n - 1]);
      hide Callers, Consistent, After, May;
    }
  }

  /** In act `i` the session calls `Online`, and its record is stored. */
  predicate StoresAt(xs: seq<Act>, i: nat, p: Peer) {
    i < |xs| && xs[i].CallOnline? && xs[i].p == p && xs[i].stored
  }

  lemma StoringAfter(w: System, x: Act)
    requires May(w, x)
    ensures After(w, x).storing == w.storing + if x.CallOnline? && x.stored then {x.p} else {}
  {
    hide Enabled, Step, NonEmpty, Ready, Handled, DialAfter, Opening, IsInternal, DialMay;
  }

  lemma {:induction false} StoringHaveStored(ws: seq<System>, xs: seq<Act>, n: nat, p: Peer) returns (i: nat)
    requires IsRun(ws, xs) && Fresh(ws[0]) && n <= |xs| && p in ws[n].storing
    ensures i < n && StoresAt(xs, i, p)
    decreases n
  {
    hide Turns, May, After, AtRest, NoSessions;
    assert n > 0;
    RunTurns(ws, xs, n - 1);
    StoringAfter(ws[n - 1], xs[n - 1]);
    if StoresAt(xs, n - 1, p) {
      i := n - 1;
    } else {
      i := StoringHaveStored(ws, xs, n - 1, p);
    }
  }

  /** In act `i` the session records the port of a tcpip-forward request. */
  ghost predicate RecordsAt(ws: seq<System>, xs: seq<Act>, i: nat, p: Peer, port: nat)
    requires |ws| == |xs| + 1
  {
    i < |xs| && xs[i] == Does(p, Record) && p in ws[i].sessions && ws[i].sessions[p].handler == Received(port)
  }

  /** How the ports of a session come about. */
  lemma PortsAfter(w: System, x: Act, p: Peer)
    requires May(w, x) && p in After(w, x).sessions
    ensures if p in w.sessions then
              After(w, x).sessions[p].services == w.sessions[p].services +
                if x == Does(p, Record) then {w.sessions[p].handler.port} else {}
            else After(w, x).sessions[p].services == {}
    ensures var handler := After(w, x).sessions[p].handler;
            p in w.sessions && handler.Received? && handler != w.sessions[p].handler ==>
              x == Does(p, Receive(handler.port))
    ensures p !in w.sessions ==> After(w, x).sessions[p].handler == Waiting
  {
    hide Enabled, Step, NonEmpty, IdleAfter, DialAfter, Opening, IsInternal, DialMay, CanHappen;
  }

  /** The ports of a session are exactly those it has recorded. */
  lemma {:induction false} PortsAreRecorded(ws: seq<System>, xs: seq<Act>, n: nat, p: Peer, port: nat)
    requires IsRun(ws, xs) && Fresh(ws[0]) && n <= |xs| && p in ws[n].sessions
    ensures port in ws[n].sessions[p].services <==> exists i :: 0 <= i < n && RecordsAt(ws, xs, i, p, port)
    decreases n
  {
    hide Turns, May, After, AtRest, NoSessions;
    assert n > 0;
    RunTurns(ws, xs, n - 1);
    PortsAfter(ws[n - 1], xs[n - 1], p);
    if p in ws[n - 1].sessions {
      PortsAreRecorded(ws, xs, n - 1, p, port);
      if xs[n - 1] == Does(p, Record) {
        RecordIsReady(ws[n - 1], xs[n - 1]);
        assert RecordsAt(ws, xs, n - 1, p, ws[n - 1].sessions[p].handler.port);
      }
    } else {
      NeverRecorded(ws, xs, n, p, port);
    }
  }

  lemma RecordIsReady(w: System, x: Act)
    requires May(w, x) && x.Does? && x.task == Record
    ensures x.p in w.sessions && w.sessions[x.p].handler.Received?
  {
  }

  lemma SessionsRemain(w: System, x: Act, p: Peer)
    requires May(w, x) && p in w.sessions
    ensures p in After(w, x).sessions
  {
    hide Enabled, Step, NonEmpty, Handled, DialAfter, Opening, IsInternal, DialMay, Ready;
  }

  /** A session that has only just connected has recorded nothing. */
  lemma {:induction false} NeverRecorded(ws: seq<System>, xs: seq<Act>, n: nat, p: Peer, port: nat)
    requires IsRun(ws, xs) && 0 < n <= |xs| && p !in ws[n - 1].sessions
    ensures forall i | 0 <= i < n :: !RecordsAt(ws, xs, i, p, port)
    decreases n
  {
    hide Turns, May, After;
    if n > 1 {
      RunTurns(ws, xs, n - 2);
      if p in ws[n - 2].sessions {
        SessionsRemain(ws[n - 2], xs[n - 2], p);
      }
      NeverRecorded(ws, xs, n - 1, p, port);
    }
  }

  /** A port about to be recorded was received before. */
  lemma {:induction false} PortWasReceived(ws: seq<System>, xs: seq<Act>, n: nat, p: Peer, port: nat) returns (i: nat)
    requires IsRun(ws, xs) && Fresh(ws[0]) && n <= |xs|
    requires p in ws[n].sessions && ws[n].sessions[p].handler == Received(port)
    ensures i < n && xs[i] == Does(p, Receive(port))
    decreases n
  {
    hide Turns, May, After, AtRest, NoSessions;
    RunTurns(ws, xs, n - 1);
    PortsAfter(ws[n - 1], xs[n - 1], p);
    if xs[n - 1] == Does(p, Receive(port)) {
      i := n - 1;
    } else {
      i := PortWasReceived(ws, xs, n - 1, p, port);
    }
  }

  /** A dial began with the step it says. */
  lemma {:induction false} DialWasStarted(ws: seq<System>, xs: seq<Act>, n: nat, t: nat)
    requires IsRun(ws, xs) && Fresh(ws[0]) && n <= |xs| && t in ws[n].dials
    ensures var d := ws[n].dials[t]; d.started < n && xs[d.started] == StartDial(t, d.wanted)
    decreases n
  {
    hide Turns, May, After, AtRest, NoSessions, Consistent;
    assert n > 0;
    RunTurns(ws, xs, n - 1);
    RunIsConsistent(ws, xs, n - 1);
    StartStays(ws[n - 1], xs[n - 1], t);
    if xs[n - 1] != StartDial(t, ws[n].dials[t].wanted) || ws[n].dials[t].started != n - 1 {
      DialWasStarted(ws, xs, n - 1, t);
    }
  }

  lemma StartStays(w: System, x: Act, t: nat)
    requires May(w, x) && t in After(w, x).dials
    ensures var d := After(w, x).dials[t];
            || (x == StartDial(t, d.wanted) && d.started == w.clock)
            || (t in w.dials && w.dials[t].wanted == d.wanted && w.dials[t].started == d.started)
  {
    DialsAfter(w, x, t);
    hide After, May;
  }

  /** What a hop found is what readers found at that moment. */
  lemma {:induction false} HopWasSeen(ws: seq<System>, xs: seq<Act>, n: nat, t: nat, i: nat)
    requires IsRun(ws, xs) && Fresh(ws[0]) && n <= |xs|
    requires t in ws[n].dials && i < |ws[n].dials[t].hops|
    ensures var hop := ws[n].dials[t].hops[i];
            hop.moment < n && hop.found == Get(ws[hop.moment].sys.mem.Live(), hop.address.host)
    decreases n
  {
    var w, x := ws[n - 1], xs[n - 1];
    assert Turns(w, x, ws[n]);
    RunIsConsistent(ws, xs, n - 1);
    if x == DialStep(t, Look) && i == |w.dials[t].hops| {
      assert HoldsLocks(w.sys.mem.active, w.sys.locks, t, w.sys.pcs[t]);
    } else {
      HopsStay(w, x, t, i);
      HopWasSeen(ws, xs, n - 1, t, i);
    }
    hide Step, NonEmpty, FitsSys, Callers, HandlerOk, Handled, DialOk;
  }

  lemma HopsStay(w: System, x: Act, t: nat, i: nat)
    requires May(w, x) && t in After(w, x).dials && i < |After(w, x).dials[t].hops|
    requires !(x == DialStep(t, Look) && i == |w.dials[t].hops|)
    ensures t in w.dials && i < |w.dials[t].hops| && After(w, x).dials[t].hops[i] == w.dials[t].hops[i]
  {
  }

  // ---------- the theorems ----------

  /**
   Every session found in either table at any moment, in the middle of an edit too, serves: it has a port, its
   idle timer is off, and it has called `Online` exactly once, with its record stored. It is found at its own
   FQDN.
   */
  lemma TabledSessionsServe(ws: seq<System>, xs: seq<Act>, n: nat, x: Slot, key: string)
    requires IsRun(ws, xs) && Fresh(ws[0]) && n <= |xs|
    ensures |ws| == |xs| + 1
    ensures var p := PeerAt(ws[n].sys.mem.At(x), key);
            p != null ==>
              && p.fqdn == key && p in ws[n].sessions && Serving(ws[n].sessions[p])
              && Calls(xs, n, p) == 1 && exists i :: 0 <= i < n && StoresAt(xs, i, p)
  {
    RunIsConsistent(ws, xs, n);
    var p := PeerAt(ws[n].sys.mem.At(x), key);
    if p != null {
      TabledFits(ws[n], x, key);
      hide IsRun, Fresh, Consistent, FitsTable, PeerAt, Callers, Calls, StoresAt;
      StoringAreKnown(ws[n], p);
      CallsAreCounted(ws, xs, n, p);
      var i := StoringHaveStored(ws, xs, n, p);
      CalledIsServing(ws[n].sessions[p], ws[n], p);
    }
  }

  lemma TabledFits(w: System, x: Slot, key: string)
    requires Consistent(w) && PeerAt(w.sys.mem.At(x), key) != null
    ensures PeerAt(w.sys.mem.At(x), key) in w.storing && PeerAt(w.sys.mem.At(x), key).fqdn == key && SessionsOk(w)
  {
    hide SessionsOk, LocksHeld, FitsPc, DialOk;
    var t := w.sys.mem.At(x);
    assert FitsTable(w.storing, t);
    assert Fits(w.storing, key, t[key]);
  }

  lemma CalledIsServing(s: Sess, w: System, p: Peer)
    requires p in Callers(w) && s == w.sessions[p] && HandlerOk(s)
    ensures Serving(s)
  {
  }

  /** What every hop of a dial found: the entry of the table readers used at that moment of the dial. */
  lemma HopsWereSeen(ws: seq<System>, xs: seq<Act>, n: nat, t: nat)
    requires IsRun(ws, xs) && Fresh(ws[0]) && n <= |xs| && t in ws[n].dials
    ensures |ws| == |xs| + 1 && Linked(ws[n].dials[t]) && Placed(ws[n].dials[t])
    ensures var d := ws[n].dials[t];
            forall i | 0 <= i < |d.hops| ::
              && d.started < d.hops[i].moment < n
              && d.hops[i].found == Get(ws[d.hops[i].moment].sys.mem.Live(), d.hops[i].address.host)
  {
    RunIsConsistent(ws, xs, n);
    var d := ws[n].dials[t];
    assert DialOk(ws[n], d);
    hide Consistent, Turns, Fresh, Placed, Get;
    forall i | 0 <= i < |d.hops|
      ensures d.hops[i].moment < n
      ensures d.hops[i].found == Get(ws[d.hops[i].moment].sys.mem.Live(), d.hops[i].address.host)
    {
      HopWasSeen(ws, xs, n, t, i);
    }
  }

  /** Each hop led to the next, on the same port, at later and later moments. */
  lemma HopsAreLinked(ws: seq<System>, xs: seq<Act>, n: nat, t: nat)
    requires IsRun(ws, xs) && Fresh(ws[0]) && n <= |xs| && t in ws[n].dials
    ensures |ws| == |xs| + 1
    ensures var d := ws[n].dials[t];
            && (d.hops != [] ==> d.hops[0].address == d.wanted)
            && (forall i | 0 <= i < |d.hops| ::
                  && d.hops[i].address.port == d.wanted.port
                  && d.started < d.hops[i].moment < n
                  && d.hops[i].found == Get(ws[d.hops[i].moment].sys.mem.Live(), d.hops[i].address.host))
            && (forall i, j | 0 <= i < j < |d.hops| :: d.hops[i].moment < d.hops[j].moment)
            && (forall i | 0 < i < |d.hops| :: Leads(d.hops[i - 1], d.hops[i].address.host))
  {
    HopsWereSeen(ws, xs, n, t);
    hide IsRun, Fresh, Placed, Get, Leads;
  }

  /** The session a dial has found had registered before it was found. */
  lemma StoredBeforeFound(ws: seq<System>, xs: seq<Act>, n: nat, t: nat, i: nat, p: Peer) returns (called: nat)
    requires IsRun(ws, xs) && Fresh(ws[0]) && n <= |xs| && t in ws[n].dials
    requires i < |ws[n].dials[t].hops| && Finds(ws[n].dials[t].hops[i], p)
    ensures called < ws[n].dials[t].hops[i].moment && StoresAt(xs, called, p)
    ensures p.fqdn == ws[n].dials[t].hops[i].address.host
  {
    HopsAreLinked(ws, xs, n, t);
    hide IsRun, Fresh, Leads, StoresAt, Calls, Serving;
    var hop := ws[n].dials[t].hops[i];
    TabledSessionsServe(ws, xs, hop.moment, ws[hop.moment].sys.mem.active, hop.address.host);
    assert PeerAt(ws[hop.moment].sys.mem.Live(), hop.address.host) == p;
    called :| called < hop.moment && StoresAt(xs, called, p);
  }

  /**
   Where a connection comes from. If a dial of `name:port` opens a channel on a session, then that session
   had sent a tcpip-forward for exactly that port, and had registered with its record stored before the dial
   found it; and following owners from the name, through entries readers found at later and later moments
   since the dial started, always on the same port, ends at the session's FQDN.
   */
  lemma ConnectionProvenance(ws: seq<System>, xs: seq<Act>, n: nat, t: nat) returns (received: nat, called: nat)
    requires IsRun(ws, xs) && Fresh(ws[0]) && n <= |xs|
    requires t in ws[n].dials && ws[n].dials[t].progress.Opened?
    ensures var d := ws[n].dials[t];
            var p := d.progress.peer;
            && received < n && xs[received] == Does(p, Receive(d.wanted.port))
            && d.started < n && xs[d.started] == StartDial(t, d.wanted)
            && d.hops != [] && d.hops[0].address == d.wanted
            && (forall i | 0 <= i < |d.hops| ::
                  && d.hops[i].address.port == d.wanted.port
                  && d.started < d.hops[i].moment < n
                  && d.hops[i].found == Get(ws[d.hops[i].moment].sys.mem.Live(), d.hops[i].address.host))
            && (forall i, j | 0 <= i < j < |d.hops| :: d.hops[i].moment < d.hops[j].moment)
            && (forall i | 0 < i < |d.hops| :: Leads(d.hops[i - 1], d.hops[i].address.host))
            && d.hops[|d.hops| - 1].address.host == p.fqdn && Finds(d.hops[|d.hops| - 1], p)
            && called < d.hops[|d.hops| - 1].moment && StoresAt(xs, called, p)
  {
    hide *;
    HopsAreLinked(ws, xs, n, t);
    DialWasStarted(ws, xs, n, t);
    OpenedIsKnown(ws, xs, n, t);
    var d := ws[n].dials[t];
    received := PortWasAskedFor(ws, xs, n, d.progress.peer, d.wanted.port);
    called := StoredBeforeFound(ws, xs, n, t, |d.hops| - 1, d.progress.peer);
  }

  lemma PortWasAskedFor(ws: seq<System>, xs: seq<Act>, n: nat, p: Peer, port: nat) returns (i: nat)
    requires IsRun(ws, xs) && Fresh(ws[0]) && n <= |xs| && p in ws[n].sessions && port in ws[n].sessions[p].services
    ensures i < n && xs[i] == Does(p, Receive(port))
  {
    hide Turns, Fresh, RecordsAt;
    PortsAreRecorded(ws, xs, n, p, port);
    var recorded: nat :| recorded < n && RecordsAt(ws, xs, recorded, p, port);
    i := RecordedWasReceived(ws, xs, recorded, p, port);
  }

  lemma RecordedWasReceived(ws: seq<System>, xs: seq<Act>, n: nat, p: Peer, port: nat) returns (i: nat)
    requires IsRun(ws, xs) && Fresh(ws[0]) && n <= |xs| && RecordsAt(ws, xs, n, p, port)
    ensures i < n && xs[i] == Does(p, Receive(port))
  {
    hide Turns, Fresh;
    i := PortWasReceived(ws, xs, n, p, port);
  }

  /** The session behind an open channel is known, has the port, and is what the last hop found. */
  lemma OpenedIsKnown(ws: seq<System>, xs: seq<Act>, n: nat, t: nat)
    requires IsRun(ws, xs) && Fresh(ws[0]) && n <= |xs|
    requires t in ws[n].dials && ws[n].dials[t].progress.Opened?
    ensures var d := ws[n].dials[t];
            var p := d.progress.peer;
            && p in ws[n].sessions && d.wanted.port in ws[n].sessions[p].services
            && d.hops != [] && Finds(d.hops[|d.hops| - 1], p)
  {
    RunIsConsistent(ws, xs, n);
    var d := ws[n].dials[t];
    assert DialOk(ws[n], d);
    hide IsRun, Consistent, Linked;
    OpenedIsPlaced(ws[n], d);
  }

  lemma OpenedIsPlaced(w: System, d: Dial)
    requires DialOk(w, d) && (d.progress.Opened? || d.progress.AtSession?)
    ensures d.hops != [] && d.address.port == d.wanted.port
    ensures var last := d.hops[|d.hops| - 1];
            Finds(last, d.progress.peer) && d.progress.peer in w.storing && last.address.host == d.progress.peer.fqdn
  {
    hide Linked, Callers;
  }

  lemma StoringAreKnown(w: System, p: Peer)
    requires SessionsOk(w) && p in w.storing
    ensures p in w.sessions && p in Callers(w) && HandlerOk(w.sessions[p])
  {
    hide HandlerOk, HasCalled;
  }

  /**
   The port check, over whole runs: when a dial has found its session, a channel is opened exactly when the
   port fits in 32 bits and the session has recorded a tcpip-forward for that very port before.
   */
  lemma ChannelOpensExactlyWhen(ws: seq<System>, xs: seq<Act>, n: nat, t: nat)
    requires IsRun(ws, xs) && Fresh(ws[0]) && n < |xs| && xs[n] == OpenChannel(t)
    ensures |ws| == |xs| + 1 && t in ws[n].dials && ws[n].dials[t].progress.AtSession? && t in ws[n + 1].dials
    ensures var p := ws[n].dials[t].progress.peer;
            var port := ws[n].dials[t].wanted.port;
            ws[n + 1].dials[t].progress ==
            if port < 0x1_0000_0000 && exists i :: 0 <= i < n && RecordsAt(ws, xs, i, p, port) then Opened(p)
            else Denied(p)
  {
    RunTurns(ws, xs, n);
    FoundIsKnown(ws, xs, n, t);
    hide Turns, Fresh, RecordsAt;
    PortsAreRecorded(ws, xs, n, ws[n].dials[t].progress.peer, ws[n].dials[t].wanted.port);
  }

  lemma FoundIsKnown(ws: seq<System>, xs: seq<Act>, n: nat, t: nat)
    requires IsRun(ws, xs) && Fresh(ws[0]) && n < |xs| && xs[n] == OpenChannel(t)
    ensures |ws| == |xs| + 1 && t in ws[n].dials && ws[n].dials[t].progress.AtSession?
    ensures ws[n].dials[t].progress.peer in ws[n].sessions && ws[n].dials[t].address.port == ws[n].dials[t].wanted.port
  {
    RunTurns(ws, xs, n);
    RunIsConsistent(ws, xs, n);
    var d := ws[n].dials[t];
    assert DialOk(ws[n], d);
    hide IsRun, Consistent, Callers, Linked, Placed, After;
    OpenedIsPlaced(ws[n], d);
    StoringAreKnown(ws[n], d.progress.peer);
  }

  /**
   A dial during which the table does not change is a dial of that table: its hops are the lookups of
   `Dialing`, one by one, and it gets where `Dialing` says, in as many lookups.
   */
  lemma QuietDialIsDial(ws: seq<System>, xs: seq<Act>, n: nat, t: nat, table: Table)
    requires IsRun(ws, xs) && Fresh(ws[0]) && n <= |xs| && t in ws[n].dials
    requires forall k | ws[n].dials[t].started < k < n :: ws[k].sys.mem.Live() == table
    ensures var d := ws[n].dials[t];
            var x := d.wanted.host;
            && (forall i: nat | i < |d.hops| :: Dialing.Lookup(table, x, i) == Some(d.hops[i].address.host))
            && (!d.progress.Chasing? && !d.progress.Resolved? ==>
                  && Dialing.Ends(table, x) && Dialing.Length(table, x) == |d.hops|
                  && match Dialing.Destination(table, x)
                     case Reached(p) => d.progress == AtSession(p) || d.progress == Opened(p) || d.progress == Denied(p)
                     case other => d.progress == Lost(other))
  {
    HopsWereSeen(ws, xs, n, t);
    hide IsRun, Fresh, Linked, Placed, Get;
    HopsAreLookups(ws[n].dials[t], table);
  }

  ghost predicate Saw(d: Dial, table: Table) {
    forall i: nat | i < |d.hops| :: d.hops[i].found == Get(table, d.hops[i].address.host)
  }

  lemma {:induction false} HopIsLookup(d: Dial, table: Table, i: nat)
    requires Linked(d) && Saw(d, table) && i < |d.hops|
    ensures Dialing.Lookup(table, d.wanted.host, i) == Some(d.hops[i].address.host)
  {
    if i > 0 {
      HopIsLookup(d, table, i - 1);
      assert Leads(d.hops[i - 1], d.hops[i].address.host);
    }
  }

  lemma LastHopEnds(d: Dial, table: Table)
    requires Linked(d) && Placed(d) && Saw(d, table) && !d.progress.Chasing? && !d.progress.Resolved?
    ensures d.hops != []
    ensures var last := d.hops[|d.hops| - 1].address.host;
            && !Dialing.IsName(table, last)
            && match Dialing.Answer(table, last)
               case Reached(p) => d.progress == AtSession(p) || d.progress == Opened(p) || d.progress == Denied(p)
               case other => d.progress == Lost(other)
  {
    hide Linked;
  }

  lemma HopsAreLookups(d: Dial, table: Table)
    requires Linked(d) && Placed(d) && Saw(d, table)
    ensures forall i: nat | i < |d.hops| :: Dialing.Lookup(table, d.wanted.host, i) == Some(d.hops[i].address.host)
    ensures !d.progress.Chasing? && !d.progress.Resolved? ==>
              && Dialing.Ends(table, d.wanted.host) && Dialing.Length(table, d.wanted.host) == |d.hops|
              && match Dialing.Destination(table, d.wanted.host)
                 case Reached(p) => d.progress == AtSession(p) || d.progress == Opened(p) || d.progress == Denied(p)
                 case other => d.progress == Lost(other)
  {
    forall i: nat | i < |d.hops| ensures Dialing.Lookup(table, d.wanted.host, i) == Some(d.hops[i].address.host) {
      HopIsLookup(d, table, i);
    }
    if !d.progress.Chasing? && !d.progress.Resolved? {
      var x, n := d.wanted.host, |d.hops|;
      LastHopEnds(d, table);
      hide Linked, Placed, Saw, Dialing.IsName, Dialing.Answer;
      assert Dialing.Lookup(table, x, n) == None;
      Dialing.LengthUnique(table, x, Dialing.Length(table, x), n);
    }
  }

  lemma ServingStays(w: System, x: Act, p: Peer)
    requires May(w, x) && Consistent(w) && p in w.sessions && Serving(w.sessions[p])
    ensures p in After(w, x).sessions && Serving(After(w, x).sessions[p])
  {
  }

  lemma {:induction false} CallsGrow(xs: seq<Act>, n: nat, m: nat, p: Peer)
    requires n <= m <= |xs|
    ensures Calls(xs, n, p) <= Calls(xs, m, p)
  {
    if n < m {
      CallsGrow(xs, n, m - 1, p);
    }
  }

  /** And it stays so: a session that serves goes on serving, and none ever calls `Online` twice. */
  lemma ServingIsForGood(ws: seq<System>, xs: seq<Act>, n: nat, m: nat, p: Peer)
    requires IsRun(ws, xs) && Fresh(ws[0]) && n <= m <= |xs|
    ensures Calls(xs, n, p) <= Calls(xs, m, p) <= 1
    ensures p in ws[n].sessions && Serving(ws[n].sessions[p]) ==> p in ws[m].sessions && Serving(ws[m].sessions[p])
  {
    CallsGrow(xs, n, m, p);
    CallsAreCounted(ws, xs, m, p);
    hide *;
    if p in ws[n].sessions && Serving(ws[n].sessions[p]) {
      ServingGoesOn(ws, xs, n, m, p);
    }
  }

  lemma RunTurns(ws: seq<System>, xs: seq<Act>, n: nat)
    requires IsRun(ws, xs) && n < |xs|
    ensures |ws| == |xs| + 1 && May(ws[n], xs[n]) && ws[n + 1] == After(ws[n], xs[n])
  {
    hide May, After;
    assert Turns(ws[n], xs[n], ws[n + 1]);
  }

  lemma {:induction false} ServingGoesOn(ws: seq<System>, xs: seq<Act>, n: nat, m: nat, p: Peer)
    requires IsRun(ws, xs) && Fresh(ws[0]) && n <= m <= |xs|
    requires p in ws[n].sessions && Serving(ws[n].sessions[p])
    ensures p in ws[m].sessions && Serving(ws[m].sessions[p])
    decreases m
  {
    if n < m {
      hide *;
      RunTurns(ws, xs, m - 1);
      ServingGoesOn(ws, xs, n, m - 1, p);
      RunIsConsistent(ws, xs, m - 1);
      ServingStays(ws[m - 1], xs[m - 1], p);
    }
  }

  // ---------- what can happen: dials get through ----------

  ghost function JoinRuns(ws: seq<System>, vs: seq<System>): seq<System>
    requires ws != []
  {
    ws[..|ws| - 1] + vs
  }

  lemma JoinIsRun(ws: seq<System>, xs: seq<Act>, vs: seq<System>, ys: seq<Act>)
    requires IsRun(ws, xs) && IsRun(vs, ys) && ws[|xs|] == vs[0]
    ensures |ws| == |xs| + 1 && |vs| == |ys| + 1 && |JoinRuns(ws, vs)| == |xs + ys| + 1
    ensures IsRun(JoinRuns(ws, vs), xs + ys)
    ensures JoinRuns(ws, vs)[0] == ws[0] && JoinRuns(ws, vs)[|xs + ys|] == vs[|ys|]
  {
    hide Turns;
    var all, zs := JoinRuns(ws, vs), xs + ys;
    forall i | 0 <= i < |zs| ensures Turns(all[i], zs[i], all[i + 1]) {
      if i < |xs| {
        assert Turns(ws[i], xs[i], ws[i + 1]);
      } else {
        assert Turns(vs[i - |xs|], ys[i - |xs|], vs[i - |xs| + 1]);
      }
    }
  }

  lemma OneTurn(w: System, x: Act)
    requires May(w, x)
    ensures IsRun([w, After(w, x)], [x])
  {
    hide May, After;
    assert Turns(w, x, After(w, x));
  }

  lemma TwoTurns(w: System, x: Act, y: Act)
    requires May(w, x) && May(After(w, x), y)
    ensures IsRun([w, After(w, x), After(After(w, x), y)], [x, y])
  {
    hide May, After;
    var ws := [w, After(w, x), After(After(w, x), y)];
    assert Turns(ws[0], x, ws[1]) && Turns(ws[1], y, ws[2]);
  }

  /** The thread of a dial that looks for its host is idle, and nobody is exchanging the tables. */
  predicate CanLook(w: System, t: nat) {
    && t in w.dials && w.dials[t].progress == Chasing
    && t < |w.sys.pcs| && w.sys.pcs[t] == Pc.Idle && w.sys.locks.writer == None && t !in w.sys.locks.readers
  }

  /** In the middle of its lookup. */
  function Looking(w: System, t: nat, look: LookPhase): System
    requires CanLook(w, t)
  {
    var sys := w.sys;
    w.(sys := Sys(sys.mem, sys.locks.(readers := sys.locks.readers + {t}),
                  sys.pcs[t := Reading(w.dials[t].address.host, look)]))
  }

  lemma DialLocks(w: System, t: nat)
    requires NonEmpty(w.sys.mem.index) && CanLook(w, t)
    ensures var x := DialStep(t, LockRead(w.dials[t].address.host));
            May(w, x) && After(w, x) == Tick(Looking(w, t, Locked))
  {
    hide NonEmpty;
  }

  lemma DialLoads(w: System, t: nat)
    requires NonEmpty(w.sys.mem.index) && CanLook(w, t)
    ensures var v := Tick(Looking(w, t, Locked));
            && May(v, DialStep(t, Load))
            && After(v, DialStep(t, Load)) == Tick(Tick(Looking(w, t, Holding(w.sys.mem.active))))
  {
    hide NonEmpty;
  }

  lemma DialLooks(w: System, t: nat)
    requires NonEmpty(w.sys.mem.index) && CanLook(w, t)
    ensures var v := Tick(Tick(Looking(w, t, Holding(w.sys.mem.active))));
            var d := w.dials[t];
            var found := Get(w.sys.mem.Live(), d.address.host);
            var d' := d.(hops := d.hops + [Hop(d.address, found, w.clock + 2)], progress := Resolved);
            && May(v, DialStep(t, Look))
            && After(v, DialStep(t, Look)) == Tick(Tick(Tick(Looking(w, t, Looked(found))))).(dials := w.dials[t := d'])
  {
    hide NonEmpty;
  }

  /** What a dial does with what it has found, in the program's terms. */
  predicate GoesOn(d: Dial, found: Option<Entry>, d': Dial) {
    match found
    case None => d'.progress == Lost(NotFound(d.address.host)) && d'.address == d.address
    case Some(NameEntry(n)) => d'.progress == Chasing && d'.address == Address(n.owner, d.address.port)
    case Some(HostEntry(peer, _, _)) =>
      d'.address == d.address && d'.progress == if peer == null then Lost(PeerOffline) else AtSession(peer)
  }

  lemma DialUnlocks(w: System, t: nat, d: Dial)
    requires NonEmpty(w.sys.mem.index) && CanLook(w, t)
    requires d.hops != [] && d.progress == Resolved && d.address == w.dials[t].address
    ensures var found := d.hops[|d.hops| - 1].found;
            var v := Tick(Tick(Tick(Looking(w, t, Looked(found))))).(dials := w.dials[t := d]);
            && May(v, DialStep(t, UnlockRead))
            && var w' := After(v, DialStep(t, UnlockRead));
            && t in w'.dials && w' == w.(clock := w.clock + 4, dials := w.dials[t := w'.dials[t]])
            && w'.dials[t].hops == d.hops && w'.dials[t].wanted == d.wanted && GoesOn(d, found, w'.dials[t])
  {
    hide NonEmpty;
    assert w.sys.locks.readers + {t} - {t} == w.sys.locks.readers;
    assert w.sys.pcs[t := Pc.Idle] == w.sys.pcs;
  }

  /** One lookup of a dial, in four acts of its own; nothing but the dial has changed after it. */
  lemma DialTakesHop(w: System, t: nat) returns (ws: seq<System>, xs: seq<Act>)
    requires NonEmpty(w.sys.mem.index) && CanLook(w, t)
    ensures IsRun(ws, xs) && |xs| == 4 && |ws| == 5 && ws[0] == w && forall x | x in xs :: x.DialStep? && x.t == t
    ensures t in ws[4].dials && ws[4] == w.(clock := w.clock + 4, dials := w.dials[t := ws[4].dials[t]])
    ensures var d, d' := w.dials[t], ws[4].dials[t];
            && |d'.hops| == |d.hops| + 1 && d'.wanted == d.wanted
            && GoesOn(d, Get(w.sys.mem.Live(), d.address.host), d')
  {
    DialLocks(w, t);
    DialLoads(w, t);
    DialLooks(w, t);
    var d := w.dials[t];
    var found := Get(w.sys.mem.Live(), d.address.host);
    var d' := d.(hops := d.hops + [Hop(d.address, found, w.clock + 2)], progress := Resolved);
    DialUnlocks(w, t, d');
    hide *;
    var x0, x1 := DialStep(t, LockRead(d.address.host)), DialStep(t, Load);
    var x2, x3 := DialStep(t, Look), DialStep(t, UnlockRead);
    var w1 := After(w, x0);
    var w2 := After(w1, x1);
    var w3 := After(w2, x2);
    TwoTurns(w, x0, x1);
    TwoTurns(w2, x2, x3);
    JoinIsRun([w, w1, w2], [x0, x1], [w2, w3, After(w3, x3)], [x2, x3]);
    ws, xs := JoinRuns([w, w1, w2], [w2, w3, After(w3, x3)]), [x0, x1] + [x2, x3];
  }

  lemma {:induction false} DialTakesHops(w: System, t: nat) returns (ws: seq<System>, xs: seq<Act>)
    requires NonEmpty(w.sys.mem.index) && CanLook(w, t) && Ends(w.sys.mem.Live(), w.dials[t].address.host)
    ensures IsRun(ws, xs) && |ws| == |xs| + 1 && ws[0] == w && forall x | x in xs :: x.DialStep? && x.t == t
    ensures |xs| == 4 * Length(w.sys.mem.Live(), w.dials[t].address.host)
    ensures var w' := ws[|xs|];
            t in w'.dials && w' == w.(clock := w.clock + |xs|, dials := w.dials[t := w'.dials[t]])
    ensures var table, d, d' := w.sys.mem.Live(), w.dials[t], ws[|xs|].dials[t];
            && |d'.hops| == |d.hops| + Length(table, d.address.host)
            && d'.wanted == d.wanted && d'.address.port == d.address.port
            && match Destination(table, d.address.host)
               case Reached(p) => d'.progress == AtSession(p)
               case other => d'.progress == Lost(other)
    decreases Length(w.sys.mem.Live(), w.dials[t].address.host)
  {
    var table, host := w.sys.mem.Live(), w.dials[t].address.host;
    var vs, ys := DialTakesHop(w, t);
    var v := vs[4];
    if IsName(table, host) {
      DialNameIsDialOwner(table, host);
      hide *;
      StillCanLook(w, v, t);
      var us, zs := DialTakesHops(v, t);
      JoinIsRun(vs, ys, us, zs);
      ws, xs := JoinRuns(vs, us), ys + zs;
      LaterDial(w, v, us[|zs|], t);
    } else {
      SettledDial(table, host);
      hide IsRun, NonEmpty, Ends, Length, Destination;
      ws, xs := vs, ys;
    }
  }

  /** After a name, the dial can look again, for its owner. */
  lemma StillCanLook(w: System, v: System, t: nat)
    requires NonEmpty(w.sys.mem.index) && CanLook(w, t) && IsName(w.sys.mem.Live(), w.dials[t].address.host)
    requires t in v.dials && v == w.(clock := v.clock, dials := w.dials[t := v.dials[t]])
    requires GoesOn(w.dials[t], Get(w.sys.mem.Live(), w.dials[t].address.host), v.dials[t])
    ensures NonEmpty(v.sys.mem.index) && CanLook(v, t) && v.sys == w.sys
    ensures var d := w.dials[t];
            v.dials[t].address == Address(w.sys.mem.Live()[d.address.host].named.owner, d.address.port)
  {
    hide NonEmpty;
  }

  lemma LaterDial(w: System, v: System, u: System, t: nat)
    requires t in v.dials && v == w.(clock := v.clock, dials := w.dials[t := v.dials[t]])
    requires t in u.dials && u == v.(clock := u.clock, dials := v.dials[t := u.dials[t]])
    ensures u == w.(clock := u.clock, dials := w.dials[t := u.dials[t]])
  {
  }

  /**
   A dial gets through: as long as nobody else does anything, a dial that is after a host and whose chain of
   owners ends gets to the session that `Dialing` says, or is lost with its answer, by acts of its own and in
   as many lookups. It only takes that nobody is exchanging the tables when it starts.
   */
  lemma DialGetsThrough(w: System, t: nat) returns (ws: seq<System>, xs: seq<Act>)
    requires Consistent(w) && t in w.dials && w.dials[t].progress == Chasing
    requires t < |w.sys.pcs| && w.sys.pcs[t] == Pc.Idle && forall u | 0 <= u < |w.sys.pcs| :: !Writing(w.sys.pcs[u])
    requires Ends(w.sys.mem.Live(), w.dials[t].address.host)
    ensures IsRun(ws, xs) && |ws| == |xs| + 1 && ws[0] == w && forall x | x in xs :: x.DialStep? && x.t == t
    ensures NonEmpty(w.sys.mem.index) && t in ws[|xs|].dials
    ensures ws[|xs|].sys == w.sys && ws[|xs|].sessions == w.sessions
    ensures var table, d, d' := w.sys.mem.Live(), w.dials[t], ws[|xs|].dials[t];
            && |d'.hops| == |d.hops| + Length(table, d.address.host)
            && d'.wanted == d.wanted && d'.address.port == d.wanted.port
            && match Destination(table, d.address.host)
               case Reached(p) => d'.progress == AtSession(p) && p in w.sessions
               case other => d'.progress == Lost(other)
  {
    WriterEdits(w.sys);
    assert HoldsLocks(w.sys.mem.active, w.sys.locks, t, w.sys.pcs[t]);
    assert DialOk(w, w.dials[t]) && SessionsOk(w);
    hide Consistent, LocksHeld, FitsSys, SessionsOk, DialOk, Linked, NonEmpty, IsRun, Ends, Length, Destination;
    var table, host := w.sys.mem.Live(), w.dials[t].address.host;
    ws, xs := DialTakesHops(w, t);
    match Destination(table, host)
    case Reached(p) =>
      DestinationExactly(table, host);
      TabledFits(w, w.sys.mem.active, Lookup(table, host, Length(table, host) - 1).value);
      StoringAreKnown(w, p);
    case _ =>
  }

  /** And then the session is asked: a channel opens if and only if the port fits in 32 bits and is on record. */
  lemma DialOpens(w: System, t: nat, p: Peer) returns (ws: seq<System>, xs: seq<Act>)
    requires Consistent(w) && t in w.dials && w.dials[t].progress == Chasing
    requires t < |w.sys.pcs| && w.sys.pcs[t] == Pc.Idle && forall u | 0 <= u < |w.sys.pcs| :: !Writing(w.sys.pcs[u])
    requires Ends(w.sys.mem.Live(), w.dials[t].address.host)
    requires Destination(w.sys.mem.Live(), w.dials[t].address.host) == Reached(p)
    ensures IsRun(ws, xs) && |ws| == |xs| + 1 && ws[0] == w
    ensures p in w.sessions && t in ws[|xs|].dials && ws[|xs|].dials[t].wanted == w.dials[t].wanted
    ensures var port := w.dials[t].wanted.port;
            ws[|xs|].dials[t].progress ==
            if port < 0x1_0000_0000 && port in w.sessions[p].services then Opened(p) else Denied(p)
  {
    hide IsRun, Consistent, Ends, Length, Destination, Writing;
    var vs, ys := DialGetsThrough(w, t);
    var v := vs[|ys|];
    OpenNow(v, t);
    OneTurn(v, OpenChannel(t));
    JoinIsRun(vs, ys, [v, After(v, OpenChannel(t))], [OpenChannel(t)]);
    ws, xs := JoinRuns(vs, [v, After(v, OpenChannel(t))]), ys + [OpenChannel(t)];
  }

  lemma OpenNow(w: System, t: nat)
    requires NonEmpty(w.sys.mem.index) && t in w.dials && w.dials[t].progress.AtSession?
    requires w.dials[t].progress.peer in w.sessions && w.dials[t].address.port == w.dials[t].wanted.port
    ensures May(w, OpenChannel(t)) && t in After(w, OpenChannel(t)).dials
    ensures var d, d' := w.dials[t], After(w, OpenChannel(t)).dials[t];
            var p, port := d.progress.peer, d.wanted.port;
            d'.wanted == d.wanted &&
            d'.progress == if port < 0x1_0000_0000 && port in w.sessions[p].services then Opened(p) else Denied(p)
  {
    hide NonEmpty;
  }

  /** No dial is left halfway: when it gives up the read lock it knows where to go on. */
  lemma DialsDoNotHang(w: System, t: nat)
    requires Consistent(w) && May(w, DialStep(t, UnlockRead))
    ensures t in After(w, DialStep(t, UnlockRead)).dials
    ensures var d, d' := w.dials[t], After(w, DialStep(t, UnlockRead)).dials[t];
            d.hops != [] && d'.hops == d.hops && GoesOn(d, d.hops[|d.hops| - 1].found, d')
  {
    assert DialOk(w, w.dials[t]);
    hide LocksHeld, FitsSys, SessionsOk, NonEmpty, Linked, Step;
  }

  // ---------- what can happen: systems start, timers run ----------

  /** A router that has just been started on the files of a good state, with any number of threads. */
  function Booted(r: State, threads: nat): System {
    System(Sys(Memory(r.live, r.standby, A, r.index, r.files), Locks(None, {}, None), seq(threads, _ => Pc.Idle)),
           map[], map[], 0, {})
  }

  /** It is where runs begin. */
  lemma BootedIsFresh(s: State, r: State, walk: seq<Restart.Woken>, threads: nat)
    requires Inv(s) && Restart.Restarts(r, s.files, walk)
    ensures Fresh(Booted(r, threads)) && Consistent(Booted(r, threads)) && Still(Booted(r, threads).sys)
  {
    Restart.RestartRoundTrip(s, r, walk);
    assert NonEmpty(r.index);
    hide Inv, Restart.Restarts, Restart.SameRoutes, Restart.Exact, NonEmpty, Consistent;
    FreshIsConsistent(Booted(r, threads));
  }

  /** Whatever a thread can do in the machine it can do in the system, but for dials and calls of `Online`. */
  lemma MachineGoesOn(w: System, e: Event)
    requires Consistent(w) && e.t !in w.dials && !(e.kind.Begin? && e.kind.op.Online?)
    ensures May(w, Internal(e)) <==> Enabled(w.sys, e)
  {
    hide LocksHeld, FitsSys, SessionsOk, DialOk, NonEmpty, Enabled;
  }

  /** A session's timer can be poked or disabled at any time, and fires at any time its deadline has passed. */
  lemma TimersRun(w: System, p: Peer, e: IdleEvent)
    requires Consistent(w) && p in w.sessions
    ensures var timer := w.sessions[p].idle.timer;
            May(w, Does(p, Task.Idling(e))) <==> (e.Fire? ==> timer.Armed? && timer.deadline <= e.at)
  {
    hide LocksHeld, FitsSys, SessionsOk, DialOk, NonEmpty;
  }

  // ---------- what can happen: sessions are reached ----------

  /** Requests are handled: once received, the port is put on record in three more acts of the session. */
  lemma PortIsForwarded(w: System, p: Peer, port: nat) returns (ws: seq<System>, xs: seq<Act>)
    requires NonEmpty(w.sys.mem.index) && p in w.sessions && w.sessions[p].handler == Waiting
    ensures IsRun(ws, xs) && |ws| == |xs| + 1 && ws[0] == w && |xs| == 4 && xs[0] == Does(p, Receive(port))
    ensures var s := w.sessions[p];
            var next := if s.once then Waiting else Registering;
            var s' := Sess(s.services + {port}, IdleAfter(s.idle, Disable), true, next);
            ws[|xs|] == w.(clock := w.clock + 4, sessions := w.sessions[p := s'])
  {
    var x0, x1, x2, x3 := Does(p, Receive(port)), Does(p, Record), Does(p, StopTimer), Does(p, RunOnce);
    var w1 := After(w, x0);
    var w2 := After(w1, x1);
    var w3 := After(w2, x2);
    TwoTurns(w, x0, x1);
    TwoTurns(w2, x2, x3);
    hide IsRun, NonEmpty;
    JoinIsRun([w, w1, w2], [x0, x1], [w2, w3, After(w3, x3)], [x2, x3]);
    ws, xs := JoinRuns([w, w1, w2], [w2, w3, After(w3, x3)]), [x0, x1] + [x2, x3];
  }

  /** What a thread does in the machine that is neither a dial nor a call of `Online`, it does in the system. */
  lemma MachineRuns(w: System, t: nat, ss: seq<Sys>, es: seq<Event>) returns (ws: seq<System>, xs: seq<Act>)
    requires IsExecution(ss, es) && ss[0] == w.sys && t !in w.dials
    requires forall e | e in es :: e.t == t && (e.kind.Begin? ==> !e.kind.op.Online?)
    ensures |ss| == |es| + 1 && IsRun(ws, xs) && |ws| == |xs| + 1 && ws[0] == w && |xs| == |es|
    ensures ws[|xs|] == w.(sys := ss[|es|], clock := w.clock + |es|)
  {
    ws := seq(|es| + 1, i requires 0 <= i <= |es| => w.(sys := ss[i], clock := w.clock + i));
    xs := seq(|es|, i requires 0 <= i < |es| => Internal(es[i]));
    hide Enabled, Step, NonEmpty;
    forall i | 0 <= i < |xs| ensures Turns(ws[i], xs[i], ws[i + 1]) {
      assert es[i] in es && Executions.Moves(ss[i], es[i], ss[i + 1]);
    }
  }

  /** Nobody is editing or looking up. */
  ghost predicate Still(s: Sys) {
    forall u | 0 <= u < |s.pcs| :: s.pcs[u] == Pc.Idle
  }

  lemma StillRests(s: Sys)
    requires LocksHeld(s) && NonEmpty(s.mem.index) && Still(s)
    ensures AtRest(s)
  {
    WriterEdits(s);
    EditorEdits(s);
    ReaderReads(s);
    hide LocksHeld, NonEmpty;
  }

  /** Any other edit can be made too, by any idle thread, with the effect that the specification gives it. */
  lemma OtherEditsHappen(w: System, op: Op, t: nat) returns (ws: seq<System>, xs: seq<Act>)
    requires Consistent(w) && Still(w.sys) && t < |w.sys.pcs| && t !in w.dials && !op.Online?
    ensures IsRun(ws, xs) && |ws| == |xs| + 1 && ws[0] == w && NonEmpty(w.sys.mem.index)
    ensures var w' := ws[|xs|];
            && Still(w'.sys) && w'.sessions == w.sessions && w'.dials == w.dials
            && StateOf(w'.sys) == Apply(StateOf(w.sys), op).0
  {
    assert LocksHeld(w.sys) && NonEmpty(w.sys.mem.index);
    hide *;
    StillRests(w.sys);
    var ss, es := EditHappens(w.sys, op, t);
    ws, xs := MachineRuns(w, t, ss, es);
    StillSame(w.sys, ws[|xs|].sys);
  }

  lemma OnlineIsFound(m: State, op: Op)
    requires NonEmpty(m.index) && op.Online? && op.stored
    ensures PeerAt(Apply(m, op).0.live, op.peer.fqdn) == op.peer
  {
    hide NonEmpty, RecordOf;
  }

  lemma TailRuns(ss: seq<Sys>, es: seq<Event>)
    requires IsExecution(ss, es) && es != []
    ensures |ss| == |es| + 1 && IsExecution(ss[1..], es[1..])
    ensures Enabled(ss[0], es[0]) && NonEmpty(ss[0].mem.index) && ss[1] == Step(ss[0], es[0])
  {
    ExecutionStep(ss, es, 0);
    hide Executions.Moves, Step, Enabled, NonEmpty, CommitAt;
    forall i | 0 <= i < |es[1..]| ensures Executions.Moves(ss[1..][i], es[1..][i], ss[1..][i + 1]) {
      assert Executions.Moves(ss[i + 1], es[i + 1], ss[i + 2]);
    }
  }

  lemma CallHappens(w: System, x: Act)
    requires x.CallOnline? && x.t !in w.dials && NonEmpty(w.sys.mem.index)
    requires x.p in w.sessions && w.sessions[x.p].handler == Registering
    requires Enabled(w.sys, By(x.t, Begin(Op.Online(x.p, x.seen, x.created, x.stored))))
    ensures May(w, x)
    ensures After(w, x) ==
            w.(clock := w.clock + 1, storing := if x.stored then w.storing + {x.p} else w.storing,
               sys := Step(w.sys, By(x.t, Begin(Op.Online(x.p, x.seen, x.created, x.stored)))),
               sessions := w.sessions[x.p := w.sessions[x.p].(handler := Calling(x.t))])
  {
    hide NonEmpty, Enabled, Step;
  }

  lemma ReturnHappens(v: System, p: Peer, t: nat)
    requires p in v.sessions && v.sessions[p].handler == Calling(t) && NonEmpty(v.sys.mem.index)
    requires t < |v.sys.pcs| && v.sys.pcs[t] == Pc.Idle
    ensures May(v, Does(p, Task.Return))
    ensures After(v, Does(p, Task.Return)) ==
            v.(clock := v.clock + 1, sessions := v.sessions[p := v.sessions[p].(handler := Waiting)])
  {
    hide NonEmpty;
  }

  /** The call, and what the router does. */
  lemma RouterAnswers(w: System, call: Act) returns (vs: seq<System>, ys: seq<Act>)
    requires AtRest(w.sys) && call.CallOnline? && call.t < |w.sys.pcs| && call.t !in w.dials
    requires call.p in w.sessions && w.sessions[call.p].handler == Registering
    ensures May(w, call) && IsRun(vs, ys) && |vs| == |ys| + 1 && vs[0] == After(w, call) && NonEmpty(w.sys.mem.index)
    ensures var v := vs[|ys|];
            && v.sys.pcs == w.sys.pcs && AtRest(v.sys) && v.dials == w.dials
            && v.sessions == w.sessions[call.p := w.sessions[call.p].(handler := Calling(call.t))]
            && StateOf(v.sys) == Apply(StateOf(w.sys), Op.Online(call.p, call.seen, call.created, call.stored)).0
  {
    hide *;
    var ss, es := EditHappens(w.sys, Op.Online(call.p, call.seen, call.created, call.stored), call.t);
    TailRuns(ss, es);
    CallHappens(w, call);
    vs, ys := MachineRuns(After(w, call), call.t, ss[1..], es[1..]);
  }

  /** The call, what the router does, and the return from it. */
  lemma CallRuns(w: System, call: Act, vs: seq<System>, ys: seq<Act>) returns (ws: seq<System>, xs: seq<Act>)
    requires May(w, call) && call.CallOnline? && IsRun(vs, ys) && |vs| == |ys| + 1 && vs[0] == After(w, call)
    requires var v := vs[|ys|];
             && call.p in v.sessions && v.sessions[call.p].handler == Calling(call.t) && NonEmpty(v.sys.mem.index)
             && call.t < |v.sys.pcs| && v.sys.pcs[call.t] == Pc.Idle
    ensures IsRun(ws, xs) && |ws| == |xs| + 1 && ws[0] == w
    ensures var v := vs[|ys|];
            && ws[|xs|].sys == v.sys && ws[|xs|].dials == v.dials
            && ws[|xs|].sessions == v.sessions[call.p := v.sessions[call.p].(handler := Waiting)]
  {
    hide *;
    var v, done := vs[|ys|], Does(call.p, Task.Return);
    ReturnHappens(v, call.p, call.t);
    OneTurn(w, call);
    OneTurn(v, done);
    JoinIsRun([w, After(w, call)], [call], vs, ys);
    JoinIsRun(JoinRuns([w, After(w, call)], vs), [call] + ys, [v, After(v, done)], [done]);
    ws, xs := JoinRuns(JoinRuns([w, After(w, call)], vs), [v, After(v, done)]), [call] + ys + [done];
  }

  /**
   A session that is about to register can make its call, by the acts of one idle thread, with the effect that
   the specification gives it; if its record is stored the session is then found at its FQDN.
   */
  lemma SessionRegisters(w: System, p: Peer, t: nat, seen: int, created: int, stored: bool)
    returns (ws: seq<System>, xs: seq<Act>)
    requires LocksHeld(w.sys) && NonEmpty(w.sys.mem.index) && Still(w.sys) && t < |w.sys.pcs| && t !in w.dials
    requires p in w.sessions && w.sessions[p].handler == Registering
    ensures IsRun(ws, xs) && |ws| == |xs| + 1 && ws[0] == w
    ensures var w' := ws[|xs|];
            && w'.sys.pcs == w.sys.pcs && w'.dials == w.dials
            && w'.sessions == w.sessions[p := w.sessions[p].(handler := Waiting)]
            && StateOf(w'.sys) == Apply(StateOf(w.sys), Op.Online(p, seen, created, stored)).0
            && (stored ==> PeerAt(w'.sys.mem.Live(), p.fqdn) == p)
  {
    assert w.sys.pcs[t] == Pc.Idle;
    StillRests(w.sys);
    hide *;
    var call := CallOnline(p, t, seen, created, stored);
    var vs, ys := RouterAnswers(w, call);
    RestIsNonEmpty(vs[|ys|].sys);
    ws, xs := CallRuns(w, call, vs, ys);
    LiveOfState(vs[|ys|].sys);
    if stored {
      OnlineIsFound(StateOf(w.sys), Op.Online(p, seen, created, stored));
    }
  }

  lemma LiveOfState(s: Sys)
    ensures StateOf(s).live == s.mem.Live()
  {
  }

  lemma RestIsNonEmpty(s: Sys)
    requires AtRest(s)
    ensures NonEmpty(s.mem.index)
  {
  }

  lemma {:induction false} RunKeepsConsistent(ws: seq<System>, xs: seq<Act>, n: nat)
    requires IsRun(ws, xs) && Consistent(ws[0]) && n <= |xs|
    ensures Consistent(ws[n])
    decreases n
  {
    hide *;
    if n > 0 {
      RunTurns(ws, xs, n - 1);
      RunKeepsConsistent(ws, xs, n - 1);
      StaysConsistent(ws[n - 1], xs[n - 1]);
    }
  }

  lemma NewSession(w: System, p: Peer, at: int)
    requires p !in w.sessions && NonEmpty(w.sys.mem.index)
    ensures May(w, Connect(p, at))
    ensures After(w, Connect(p, at)) ==
            w.(clock := w.clock + 1, sessions := w.sessions[p := Sess({}, Started(at), false, Waiting)])
  {
    hide NonEmpty;
  }

  lemma NewDial(w: System, t: nat, wanted: Address)
    requires NonEmpty(w.sys.mem.index) && t !in w.dials && t < |w.sys.pcs| && w.sys.pcs[t] == Pc.Idle
    ensures May(w, StartDial(t, wanted)) && t in After(w, StartDial(t, wanted)).dials
    ensures var w' := After(w, StartDial(t, wanted));
            && w'.sys == w.sys && w'.sessions == w.sessions
            && w'.dials[t].wanted == wanted && w'.dials[t].address == wanted && w'.dials[t].progress == Chasing
  {
    hide NonEmpty;
  }

  /** A new session connects, has a port forwarded and registers. */
  lemma ServiceStarts(w: System, p: Peer, port: nat, t: nat, at: int, seen: int, created: int)
    returns (ws: seq<System>, xs: seq<Act>)
    requires Consistent(w) && Still(w.sys) && t < |w.sys.pcs| && t !in w.dials && p !in w.sessions
    ensures IsRun(ws, xs) && |ws| == |xs| + 1 && ws[0] == w
    ensures var w' := ws[|xs|];
            && Consistent(w') && Still(w'.sys) && |w'.sys.pcs| == |w.sys.pcs| && w'.dials == w.dials
            && p in w'.sessions && port in w'.sessions[p].services && PeerAt(w'.sys.mem.Live(), p.fqdn) == p
  {
    assert LocksHeld(w.sys) && NonEmpty(w.sys.mem.index);
    hide *;
    NewSession(w, p, at);
    var connect := Connect(p, at);
    var w1 := After(w, connect);
    OneTurn(w, connect);
    var us, ys := PortIsForwarded(w1, p, port);
    var vs, zs := SessionRegisters(us[|ys|], p, t, seen, created, true);
    JoinIsRun([w, w1], [connect], us, ys);
    JoinIsRun(JoinRuns([w, w1], us), [connect] + ys, vs, zs);
    ws, xs := JoinRuns(JoinRuns([w, w1], us), vs), [connect] + ys + zs;
    RunKeepsConsistent(ws, xs, |xs|);
    StillSame(w.sys, ws[|xs|].sys);
  }

  lemma StillSame(s: Sys, s': Sys)
    requires Still(s) && s'.pcs == s.pcs
    ensures Still(s')
  {
  }

  lemma StillIsIdle(s: Sys, t: nat)
    requires Still(s) && t < |s.pcs|
    ensures s.pcs[t] == Pc.Idle && forall u | 0 <= u < |s.pcs| :: !Writing(s.pcs[u])
  {
  }

  /**
   The service works: from any reachable system in which nobody is editing or looking up, a new session can
   connect, have any 32-bit port forwarded and register, and a dial of its FQDN on that port then opens a
   channel on it.
   */
  lemma ServiceIsReached(w: System, p: Peer, port: nat, t: nat, at: int, seen: int, created: int)
    returns (ws: seq<System>, xs: seq<Act>)
    requires Consistent(w) && Still(w.sys) && t < |w.sys.pcs| && t !in w.dials
    requires p !in w.sessions && port < 0x1_0000_0000
    ensures IsRun(ws, xs) && |ws| == |xs| + 1 && ws[0] == w
    ensures t in ws[|xs|].dials
    ensures ws[|xs|].dials[t].wanted == Address(p.fqdn, port) && ws[|xs|].dials[t].progress == Opened(p)
  {
    var wanted := Address(p.fqdn, port);
    hide *;
    var us, ys := ServiceStarts(w, p, port, t, at, seen, created);
    var u := us[|ys|];
    ConsistentIsNonEmpty(u);
    StillIsIdle(u.sys, t);
    NewDial(u, t, wanted);
    var start := StartDial(t, wanted);
    var v := After(u, start);
    OneTurn(u, start);
    RunKeepsConsistent([u, v], [start], 1);
    FoundAtOnce(v.sys.mem.Live(), p);
    var vs, zs := DialOpens(v, t, p);
    JoinIsRun(us, ys, [u, v], [start]);
    JoinIsRun(JoinRuns(us, [u, v]), ys + [start], vs, zs);
    ws, xs := JoinRuns(JoinRuns(us, [u, v]), vs), ys + [start] + zs;
  }

  lemma ConsistentIsNonEmpty(w: System)
    requires Consistent(w)
    ensures NonEmpty(w.sys.mem.index)
  {
  }

  lemma FoundAtOnce(table: Table, p: Peer)
    requires PeerAt(table, p.fqdn) == p
    ensures Ends(table, p.fqdn) && Destination(table, p.fqdn) == Reached(p)
  {
    SettledDial(table, p.fqdn);
  }
}
