/**
 An ssh session as the router sees it (ssh/session.go): the ports it forwards, its idle timer, the handling of
 its requests task by task, and its one registration.
 */
module Sessions {
  import opened Routes
  import RouterSpec
  import opened TwinRouter

  /** time.Minute, in nanoseconds. */
  const IDLE_TIMEOUT: int := 60_000_000_000

  const MAX_PORT: nat := 0xFFFF_FFFF

  // ---------- the idle timer ----------

  datatype Timer = Armed(deadline: int) | Stopped | Fired

  datatype Idle = Idle(timer: Timer, disabled: bool)

  datatype IdleEvent = Poke(at: int) | Disable | Fire(at: int)

  function Started(at: int): Idle {
    Idle(Armed(at + IDLE_TIMEOUT), false)
  }

  /** A timer fires when its deadline has passed; the other two can come at any time. */
  predicate CanHappen(i: Idle, e: IdleEvent) {
    e.Fire? ==> i.timer.Armed? && i.timer.deadline <= e.at
  }

  function IdleAfter(i: Idle, e: IdleEvent): Idle {
    match e
    case Poke(at) => if i.disabled || !i.timer.Armed? then i else i.(timer := Armed(at + IDLE_TIMEOUT))
    case Disable => Idle(if i.timer.Armed? then Stopped else i.timer, true)
    case Fire(_) => i.(timer := Fired)
  }

  function IdleRun(start: int, es: seq<IdleEvent>): Idle {
    if es == [] then Started(start) else IdleAfter(IdleRun(start, es[..|es| - 1]), es[|es| - 1])
  }

  ghost predicate IdleHistory(start: int, es: seq<IdleEvent>) {
    forall n | 0 <= n < |es| :: CanHappen(IdleRun(start, es[..n]), es[n])
  }

  /** The last time the session gave a sign of life. */
  function LastPoke(start: int, es: seq<IdleEvent>): int {
    if es == [] then start
    else if es[|es| - 1].Poke? then es[|es| - 1].at
    else LastPoke(start, es[..|es| - 1])
  }

  /** The timer has not been disabled and has not fired. */
  predicate Ticking(es: seq<IdleEvent>) {
    forall e | e in es :: e.Poke?
  }

  ghost predicate HasFired(es: seq<IdleEvent>) {
    exists e :: e in es && e.Fire?
  }

  /** The timer as the history alone tells it. */
  ghost function Told(start: int, es: seq<IdleEvent>): Idle {
    Idle(if Ticking(es) then Armed(LastPoke(start, es) + IDLE_TIMEOUT) else if HasFired(es) then Fired else Stopped,
         Disable in es)
  }

  lemma ToldOneMore(start: int, es: seq<IdleEvent>, e: IdleEvent)
    requires CanHappen(Told(start, es), e)
    ensures Told(start, es + [e]) == IdleAfter(Told(start, es), e)
  {
  }

  /**
   Over every interleaving of pokes, disables and firings: the timer is armed exactly while it has neither been
   disabled nor fired, and then its deadline is the last poke (or the start) plus the timeout; it has
   fired exactly when a firing happened, and is disabled exactly when somebody disabled it.
   */
  lemma {:induction false} IdleTimerIsExact(start: int, es: seq<IdleEvent>)
    requires IdleHistory(start, es)
    ensures var i := IdleRun(start, es);
            && (i.timer.Armed? <==> Ticking(es))
            && (i.timer.Armed? ==> i.timer.deadline == LastPoke(start, es) + IDLE_TIMEOUT)
            && (i.timer.Fired? <==> HasFired(es))
            && (i.disabled <==> Disable in es)
  {
    RunIsTold(start, es);
    assert HasFired(es) ==> !Ticking(es);
  }

  lemma {:induction false} RunIsTold(start: int, es: seq<IdleEvent>)
    requires IdleHistory(start, es)
    ensures IdleRun(start, es) == Told(start, es)
  {
    if es != [] {
      var init, last := es[..|es| - 1], es[|es| - 1];
      assert CanHappen(IdleRun(start, init), last);
      HistoryPrefix(start, es, |init|);
      assert IdleRun(start, es) == IdleAfter(IdleRun(start, init), last);
      assert es == init + [last];
      hide *;
      RunIsTold(start, init);
      ToldOneMore(start, init, last);
    }
  }

  /** Once disabled or fired the timer is never armed again; and it never fires early. */
  lemma IdleTimerNeverRearms(start: int, es: seq<IdleEvent>, n: nat, m: nat)
    requires IdleHistory(start, es) && n <= m <= |es|
    ensures !IdleRun(start, es[..n]).timer.Armed? ==> !IdleRun(start, es[..m]).timer.Armed?
    ensures m < |es| && es[m].Fire? ==> LastPoke(start, es[..m]) + IDLE_TIMEOUT <= es[m].at
  {
    HistoryPrefix(start, es, n);
    HistoryPrefix(start, es, m);
    IdleTimerIsExact(start, es[..n]);
    IdleTimerIsExact(start, es[..m]);
    assert m < |es| ==> CanHappen(IdleRun(start, es[..m]), es[m]);
    assert es[..n] == es[..m][..n];
    assert forall e | e in es[..n] :: e in es[..m];
  }

  lemma HistoryPrefix(start: int, es: seq<IdleEvent>, n: nat)
    requires IdleHistory(start, es) && n <= |es|
    ensures IdleHistory(start, es[..n])
  {
    forall k | 0 <= k < n ensures CanHappen(IdleRun(start, es[..n][..k]), es[..n][k]) {
      assert es[..n][..k] == es[..k];
    }
  }

  // ---------- requests, task by task ----------

  /** Where a session is in handling a tcpip-forward request. */
  datatype Handler = Waiting | Received(port: nat) | Recorded | Useful | Registering | Calling(t: nat)

  datatype Sess = Sess(services: set<nat>, idle: Idle, once: bool, handler: Handler)

  /**
   A request is handled in this order: receive it, record the port, stop the timer, run the part that runs
   once, in which thread `t` of the router calls `Online` and returns. The timer has events of its own.
   */
  datatype Task = Receive(port: nat) | Record | StopTimer | RunOnce | Call(t: nat) | Return | Idling(event: IdleEvent)

  /** The session is ready for the task. */
  predicate Ready(s: Sess, x: Task) {
    match x
    case Receive(_) => s.handler == Waiting
    case Record => s.handler.Received?
    case StopTimer => s.handler == Recorded
    case RunOnce => s.handler == Useful
    case Call(_) => s.handler == Registering
    case Return => s.handler.Calling?
    case Idling(event) => CanHappen(s.idle, event)
  }

  function Handled(s: Sess, x: Task): Sess {
    match x
    case Receive(port) => s.(handler := Received(port))
    case Record => if s.handler.Received? then s.(services := s.services + {s.handler.port}, handler := Recorded) else s
    case StopTimer => s.(idle := IdleAfter(s.idle, Disable), handler := Useful)
    case RunOnce => if s.once then s.(handler := Waiting) else s.(once := true, handler := Registering)
    case Call(t) => s.(handler := Calling(t))
    case Return => s.(handler := Waiting)
    case Idling(event) => s.(idle := IdleAfter(s.idle, event))
  }

  /** The tasks of one tcpip-forward request. */
  function Request(once: bool, port: nat, t: nat): seq<Task> {
    [Receive(port), Record, StopTimer, RunOnce] + if once then [] else [Call(t), Return]
  }

  function HandleAll(s: Sess, xs: seq<Task>): Sess
    decreases |xs|
  {
    if xs == [] then s else HandleAll(Handled(s, xs[0]), xs[1..])
  }

  predicate ReadyForAll(s: Sess, xs: seq<Task>)
    decreases |xs|
  {
    xs == [] || (Ready(s, xs[0]) && ReadyForAll(Handled(s, xs[0]), xs[1..]))
  }

  lemma HandleNext(s: Sess, x: Task, xs: seq<Task>)
    ensures HandleAll(s, [x] + xs) == HandleAll(Handled(s, x), xs)
    ensures ReadyForAll(s, [x] + xs) <==> Ready(s, x) && ReadyForAll(Handled(s, x), xs)
  {
    assert ([x] + xs)[1..] == xs;
  }

  /** A request, from its first task to its last: the session was ready for each, and is left like this. */
  lemma RequestIsHandled(s: Sess, port: nat, t: nat)
    requires s.handler == Waiting
    ensures ReadyForAll(s, Request(s.once, port, t))
    ensures HandleAll(s, Request(s.once, port, t)) ==
            Sess(s.services + {port}, IdleAfter(s.idle, Disable), true, Waiting)
  {
    var rest := if s.once then [] else [Call(t), Return];
    var s1 := Handled(s, Receive(port));
    var s2 := Handled(s1, Record);
    var s3 := Handled(s2, StopTimer);
    var s4 := Handled(s3, RunOnce);
    assert Request(s.once, port, t) == [Receive(port)] + ([Record] + ([StopTimer] + ([RunOnce] + rest)));
    HandleNext(s, Receive(port), [Record] + ([StopTimer] + ([RunOnce] + rest)));
    HandleNext(s1, Record, [StopTimer] + ([RunOnce] + rest));
    HandleNext(s2, StopTimer, [RunOnce] + rest);
    HandleNext(s3, RunOnce, rest);
    if !s.once {
      assert rest == [Call(t)] + ([Return] + []);
      HandleNext(s4, Call(t), [Return] + []);
      HandleNext(Handled(s4, Call(t)), Return, []);
    }
  }

  // ---------- dials of a session ----------

  datatype DialReply = BadPort | NotForwarded | ChannelTo(port: nat)

  /** What a session with these ports answers to a dial: `ParseUint` with 32 bits, then a look at the ports. */
  function Provides(services: set<nat>, port: nat): DialReply {
    if port > MAX_PORT then BadPort else if port in services then ChannelTo(port) else NotForwarded
  }

  /** The constants: a minute in nanoseconds, and the largest number of four bytes. */
  lemma ConstantsAreExact()
    ensures IDLE_TIMEOUT == 60 * 1000 * 1000 * 1000
    ensures MAX_PORT + 1 == 256 * 256 * 256 * 256
  {
  }

  /**
   The timer fires at a moment if and only if nobody has disabled it, it has not fired, and a minute has gone
   by since the session last gave a sign of life; a sign of life or a disabling can come at any time.
   */
  lemma FiresExactlyWhen(start: int, es: seq<IdleEvent>, e: IdleEvent)
    requires IdleHistory(start, es)
    ensures IdleHistory(start, es + [e]) <==>
            (e.Fire? ==> Ticking(es) && LastPoke(start, es) + 60 * 1000 * 1000 * 1000 <= e.at)
  {
    IdleTimerIsExact(start, es);
    var all := es + [e];
    assert all[..|es|] == es;
    assert forall n | 0 <= n < |es| :: all[..n] == es[..n] && all[n] == es[n];
    hide Ticking, HasFired, LastPoke;
  }

  // ---------- the session ----------

  /** time.Timer as made by time.AfterFunc. */
  class GoTimer {
    var state: Timer

    constructor AfterFunc(now: int, d: int)
      ensures state == Armed(now + d)
    {
      state := Armed(now + d);
    }

    /** Says whether the timer was still running. */
    method Stop() returns (running: bool)
      modifies this
      ensures running == old(state).Armed?
      ensures state == if running then Stopped else old(state)
    {
      running := state.Armed?;
      if running {
        state := Stopped;
      }
    }

    method Reset(now: int, d: int)
      modifies this
      ensures state == Armed(now + d)
    {
      state := Armed(now + d);
    }
  }

  class Session {
    const peer: Peer
    const router: Router
    const idleTimeout: GoTimer
    var idleDisabled: bool
    // ports that a tcpip-forward was received for
    var services: set<nat>
    // registerOnce has run
    var registered: bool
    var closed: bool
    // the ports of all tcpip-forward requests this session has had, in order
    ghost var requests: seq<nat>

    /** The ports on record are those that were asked for. */
    ghost predicate Valid()
      reads `services, `requests
    {
      forall p :: p in services <==> p in requests
    }

    /** The session between two requests. */
    ghost function Current(): Sess
      reads this, idleTimeout
    {
      Sess(services, Idling(), registered, Waiting)
    }

    ghost function Idling(): Idle
      reads this, idleTimeout
    {
      Idle(idleTimeout.state, idleDisabled)
    }

    /** The start of `Handle`. */
    constructor Handle(peer: Peer, router: Router, now: int)
      ensures this.peer == peer && this.router == router && fresh(idleTimeout) && Valid() && requests == []
      ensures Current() == Sess({}, Started(now), false, Waiting) && !closed
    {
      this.peer, this.router := peer, router;
      idleTimeout := new GoTimer.AfterFunc(now, IDLE_TIMEOUT);
      idleDisabled, services, registered, closed := false, {}, false, false;
      requests := [];
    }

    /** Postpones the timer, unless it is disabled or it is too late. */
    method PokeTimeout(now: int)
      modifies idleTimeout
      ensures Idling() == IdleAfter(old(Idling()), Poke(now))
    {
      if idleDisabled {
        return;
      }
      var running := idleTimeout.Stop();
      if !running {
        return;
      }
      idleTimeout.Reset(now, IDLE_TIMEOUT);
    }

    method DisableTimeout()
      modifies `idleDisabled, idleTimeout
      ensures Idling() == IdleAfter(old(Idling()), Disable)
    {
      var _ := idleTimeout.Stop();
      idleDisabled := true;
    }

    /** The timer runs out and `Timeout` closes the connection. */
    method Timeout(now: int)
      requires CanHappen(Idling(), Fire(now))
      modifies `closed, idleTimeout
      ensures Idling() == IdleAfter(old(Idling()), Fire(now)) && closed
    {
      idleTimeout.state := Fired;
      closed := true;
    }

    /** The port is put on record and the timer is disabled. */
    method Accept(port: nat)
      requires Valid()
      modifies `services, `requests, `idleDisabled, idleTimeout
      ensures Valid() && requests == old(requests) + [port]
      ensures Current() ==
              old(Current()).(services := old(services) + {port}, idle := IdleAfter(old(Idling()), Disable))
    {
      services := services + {port};
      requests := requests + [port];
      DisableTimeout();
    }

    /** The edit that the session's registration is, as the disk is about to behave. */
    ghost function ComingOnline(seen: int, created: int): RouterSpec.Op
      reads router.disk`calls
    {
      RouterSpec.Online(peer, seen, created, !router.disk.fails(router.disk.calls))
    }

    /** `registerOnce`: only the first call registers with the router; when that fails the connection is closed. */
    method RegisterOnce(seen: int, created: int) returns (warned: bool)
      requires router.Valid()
      modifies `registered, `closed
      modifies router`active, router`editLock, router`notices, router.a`routes, router.b`routes
      modifies router.disk`calls, router.disk`files
      ensures registered && router.Valid() && (old(router.Bound()) ==> router.Bound())
      ensures old(registered) ==> router.View() == old(router.View()) && closed == old(closed) && !warned
      ensures !old(registered) ==>
        var (s, reply) := RouterSpec.Apply(old(router.View()), old(ComingOnline(seen, created)));
        && router.View() == s
        && closed == (old(closed) || reply.Failed?) && warned == (reply == RouterSpec.Registered(true))
    {
      hide RouterSpec.Apply, RouterSpec.NonEmpty;
      warned := false;
      if !registered {
        registered := true;
        OnlineReplies(router.View(), ComingOnline(seen, created));
        var reply := router.Online(peer, seen, created);
        if reply.Failed? {
          closed := true;
        } else {
          warned := reply.replaced;
        }
      }
    }

    /**
     A tcpip-forward request (section 7.1 of RFC 4254): record the port, disable the timer, register with the
     router the first time; a registration that fails closes the connection. The session goes through the
     tasks of the request, whichever thread calls the router.
     */
    method Forward(port: nat, seen: int, created: int) returns (warned: bool)
      requires Valid() && router.Valid()
      modifies `services, `requests, `idleDisabled, `registered, `closed, idleTimeout
      modifies router`active, router`editLock, router`notices, router.a`routes, router.b`routes
      modifies router.disk`calls, router.disk`files
      ensures Valid() && requests == old(requests) + [port]
      ensures router.Valid() && (old(router.Bound()) ==> router.Bound())
      ensures forall t :: Current() == HandleAll(old(Current()), Request(old(registered), port, t))
      ensures old(registered) ==> router.View() == old(router.View()) && closed == old(closed) && !warned
      ensures !old(registered) ==>
        var (s, reply) := RouterSpec.Apply(old(router.View()), old(ComingOnline(seen, created)));
        && router.View() == s
        && closed == (old(closed) || reply.Failed?) && warned == (reply == RouterSpec.Registered(true))
    {
      ghost var before := Current();
      Accept(port);
      warned := RegisterOnce(seen, created);
      hide *;
      forall t ensures HandleAll(before, Request(before.once, port, t)) ==
                       Sess(before.services + {port}, IdleAfter(before.idle, Disable), true, Waiting)
      {
        RequestIsHandled(before, port, t);
      }
    }

    /** A dial of this session: a channel is opened exactly when that very port has been asked for before. */
    method DialContext(port: nat) returns (r: DialReply)
      requires Valid()
      ensures r == Provides(services, port)
      ensures r == ChannelTo(port) <==> port < 0x1_0000_0000 && port in requests
      ensures r == BadPort <==> port >= 0x1_0000_0000
    {
      if port > MAX_PORT {
        return BadPort;
      }
      if port !in services {
        return NotForwarded;
      }
      return ChannelTo(port);
    }

    /** The end of `Handle`. */
    method End(seen: int)
      requires router.Valid()
      modifies `idleDisabled, idleTimeout
      modifies router`active, router`editLock, router.a`routes, router.b`routes, router.disk`calls, router.disk`files
      ensures router.Valid() && (old(router.Bound()) ==> router.Bound())
      ensures Idling() == IdleAfter(old(Idling()), Disable)
      ensures router.View() ==
              RouterSpec.Apply(old(router.View()),
                               RouterSpec.Offline(peer, seen, !router.disk.fails(old(router.disk.calls)))).0
    {
      router.Offline(peer, seen);
      DisableTimeout();
    }
  }

  lemma OnlineReplies(s: RouterSpec.State, op: RouterSpec.Op)
    requires RouterSpec.NonEmpty(s.index) && op.Online?
    ensures var reply := RouterSpec.Apply(s, op).1; reply.Failed? || reply.Registered?
  {
  }
}
