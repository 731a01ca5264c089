/**
 The router as it is in memory (routertwo/router.go): two table objects, a pointer to the active one, an
 owner index, and the directory of route files. Each method is proved against `RouterSpec.Apply`.
 */
module TwinRouter {
  import opened Routes
  import opened RouterSpec
  import opened Invariants
  import opened Restart
  import opened Dialing

  /** One copy of the routing table. */
  class RouteTable {
    var routes: Table

    constructor ()
      ensures routes == map[]
    {
      routes := map[];
    }
  }

  /** The database directory. Call number `i` to it fails when `fails(i)`; a failing call changes nothing. */
  class Directory {
    const fails: nat -> bool
    var calls: nat
    var files: Files

    constructor (fails: nat -> bool, files: Files)
      ensures this.fails == fails && this.calls == 0 && this.files == files
    {
      this.fails := fails;
      this.calls := 0;
      this.files := files;
    }

    /** `store` */
    method Store(name: string, i: Intermediate) returns (ok: bool)
      modifies `calls, `files
      ensures calls == old(calls) + 1 && ok == !fails(old(calls))
      ensures files == if ok then old(files)[name := i] else old(files)
    {
      ok := !fails(calls);
      calls := calls + 1;
      if ok {
        files := files[name := i];
      }
    }

    /** `unlink`: a file that was not there is fine. */
    method Unlink(name: string) returns (ok: bool)
      modifies `calls, `files
      ensures calls == old(calls) + 1 && ok == !fails(old(calls))
      ensures files == if ok then old(files) - {name} else old(files)
    {
      ok := !fails(calls);
      calls := calls + 1;
      if ok {
        files := files - {name};
      }
    }
  }

  /** The first of `n` directory calls, from number `start` on, that fails; `n` when none does. */
  function FirstFailure(fails: nat -> bool, start: nat, n: nat): (k: nat)
    ensures k <= n && (k < n ==> fails(start + k)) && forall i | start <= i < start + k :: !fails(i)
  {
    if n == 0 then 0
    else
      var k := FirstFailure(fails, start, n - 1);
      if k < n - 1 || fails(start + n - 1) then k else n
  }

  ghost function NamesIn(t: Table): set<NamedRoute> {
    set k | k in t && t[k].NameEntry? :: t[k].named
  }

  /** The named routes of both tables. */
  ghost function Named(s: State): set<NamedRoute> {
    NamesIn(s.live) + NamesIn(s.standby)
  }

  /** An edit brings no named route into a table but the one it adds, and that only when its name was free. */
  lemma NamedAfter(s: State, op: Op)
    requires NonEmpty(s.index)
    ensures Named(Apply(s, op).0) <= Named(s) + if op.AddName? && op.route.name !in s.standby then {op.route} else {}
  {
  }

  /** So every route in a table stays bound to the router, as `AddName` binds the one it adds. */
  lemma EditKeepsBound(before: State, op: Op, r: Router)
    requires NonEmpty(before.index) && r.Consistent() && r.View() == Apply(before, op).0
    requires forall n | n in Named(before) :: n.router == r
    requires op.AddName? && op.route.name !in before.standby ==> op.route.router == r
    ensures r.Bound()
  {
    NamedAfter(before, op);
    hide Apply, NonEmpty, NamesIn;
  }

  class Router {
    const disk: Directory
    const a: RouteTable
    const b: RouteTable
    var active: RouteTable
    var nameIndex: Index
    var editLock: bool
    // sessions told that another session took their place
    var notices: seq<Peer>

    ghost predicate Valid()
      reads `active, `nameIndex, `editLock, a`routes, b`routes
    {
      Consistent() && !editLock
    }

    ghost predicate Consistent()
      reads `active, `nameIndex, a`routes, b`routes
    {
      && a != b && (active == a || active == b)
      && NonEmpty(nameIndex)
    }

    /** Every named route in a table dials through this router. */
    ghost predicate Bound()
      requires active == a || active == b
      reads `active, `nameIndex, a`routes, b`routes, disk`files, Named(View())`router
    {
      forall n | n in Named(View()) :: n.router == this
    }

    ghost function Standby(): RouteTable
      reads `active
    {
      if active == a then b else a
    }

    /** The state of the specification that this router is in. */
    ghost function View(): State
      reads `active, `nameIndex, a`routes, b`routes, disk`files
      requires active == a || active == b
    {
      State(active.routes, Standby().routes, nameIndex, disk.files)
    }

    constructor Empty(disk: Directory)
      ensures Valid() && Bound() && this.disk == disk && fresh(a) && fresh(b)
      ensures a.routes == map[] && b.routes == map[] && nameIndex == map[] && active == a && notices == []
    {
      this.disk := disk;
      var t := new RouteTable();
      var u := new RouteTable();
      a, b := t, u;
      active := t;
      nameIndex, editLock, notices := map[], false, [];
    }

    // ---------- the edit protocol ----------

    /** `begin` */
    method Begin() returns (next: RouteTable, prev: RouteTable)
      requires (active == a || active == b) && !editLock
      modifies `editLock
      ensures editLock && next == Standby() && prev == active
    {
      editLock := true;
      if active == a {
        return b, a;
      }
      return a, b;
    }

    /** `exchange` */
    method Exchange(m: RouteTable)
      modifies `active
      ensures active == m
    {
      active := m;
    }

    /** `finish` */
    method Finish()
      modifies `editLock
      ensures !editLock
    {
      editLock := false;
    }

    // ---------- the owner index ----------

    /** `index` */
    method AddToIndex(value: NamedRoute)
      modifies `nameIndex
      ensures nameIndex == Enlist(old(nameIndex), value)
    {
      if value.owner in nameIndex {
        nameIndex := nameIndex[value.owner := nameIndex[value.owner] + [value]];
      } else {
        nameIndex := nameIndex[value.owner := [value]];
      }
    }

    /** `reduceIndex` */
    method ReduceIndex(key: string, value: NamedRoute)
      modifies `nameIndex
      ensures nameIndex == Reduce(old(nameIndex), key, value)
    {
      if key !in nameIndex {
        return;
      }
      var list := nameIndex[key];
      var idx := 0;
      var found := false;
      while idx < |list| && !found
        invariant idx <= |list|
        invariant found ==> idx < |list| && list[idx] == value
        invariant value !in list[..idx]
        decreases |list| - idx, !found
      {
        if list[idx] == value {
          found := true;
        } else {
          idx := idx + 1;
        }
      }
      if !found {
        assert list[..idx] == list;
        return;
      }
      if |list| == 1 {
        nameIndex := nameIndex - {key};
        return;
      }
      WithoutSplits(list, value, idx);
      nameIndex := nameIndex[key := list[..idx] + list[idx + 1..]];
    }

    // ---------- peers ----------

    /** The first part of `Online`: the host that replaces what is found at the peer's FQDN, whose session is told. */
    method TakeOver(next: RouteTable, p: Peer, seen: int, created: int) returns (host: Entry, replaced: bool)
      modifies `notices
      ensures host == OnlineEntry(next.routes, p, seen, created) && replaced == (PeerAt(next.routes, p.fqdn) != null)
      ensures notices == old(notices) + if replaced then [PeerAt(next.routes, p.fqdn)] else []
    {
      host := HostEntry(p, seen, created);
      replaced := false;
      if p.fqdn in next.routes {
        var oldRoute := next.routes[p.fqdn];
        if oldRoute.HostEntry? {
          if oldRoute.peer != null {
            notices := notices + [oldRoute.peer];
            replaced := true;
          }
          host := HostEntry(p, seen, oldRoute.created);
        }
      }
    }

    /** The rest of `Online`: write the record and exchange. */
    method Register(next: RouteTable, prev: RouteTable, key: string, host: Entry) returns (ok: bool)
      requires Consistent() && next == Standby() && prev == active
      modifies `active, a`routes, b`routes, disk`calls, disk`files
      ensures Consistent() && disk.calls == old(disk.calls) + 1 && ok == !disk.fails(old(disk.calls))
      ensures ok ==> View() == Publish(old(View()), key, host).(files := old(disk.files)[key := RecordOf(key, host)])
      ensures !ok ==> View() == old(View())
    {
      hide NonEmpty, RecordOf;
      ok := disk.Store(key, RecordOf(key, host));
      if !ok {
        return;
      }
      next.routes := next.routes[key := host];
      Exchange(next);
      prev.routes := prev.routes[key := host];
    }

    /** A peer that proved who it is comes online; `seen` and `created` are the two readings of the clock. */
    method Online(p: Peer, seen: int, created: int) returns (reply: Reply)
      requires Valid()
      modifies `active, `editLock, `notices, a`routes, b`routes, disk`calls, disk`files
      ensures Valid()
      ensures old(Bound()) ==> Bound()
      ensures disk.calls == old(disk.calls) + 1
      ensures (View(), reply) == Apply(old(View()), RouterSpec.Online(p, seen, created, !disk.fails(old(disk.calls))))
      ensures var was := PeerAt(old(View()).standby, p.fqdn);
              notices == old(notices) + if was == null then [] else [was]
    {
      hide Apply, NonEmpty, Publish, PeerAt, OnlineEntry, RecordOf;
      ghost var op := RouterSpec.Online(p, seen, created, !disk.fails(disk.calls));
      OnlineResult(View(), op);
      var next, prev := Begin();
      var host, replaced := TakeOver(next, p, seen, created);
      var ok := Register(next, prev, p.fqdn, host);
      Finish();
      reply := if ok then Registered(replaced) else Failed(StoreFailed);
      if old(Bound()) {
        EditKeepsBound(old(View()), op, this);
      }
    }

    /** A host without session takes the place of the one this peer was registered with. */
    method Offline(p: Peer, seen: int)
      requires Valid()
      modifies `active, `editLock, a`routes, b`routes, disk`calls, disk`files
      ensures Valid()
      ensures old(Bound()) ==> Bound()
      ensures View() == Apply(old(View()), RouterSpec.Offline(p, seen, !disk.fails(old(disk.calls)))).0
    {
      hide NonEmpty;
      var next, prev := Begin();
      if p.fqdn !in active.routes || active.routes[p.fqdn].NameEntry? || active.routes[p.fqdn].peer != p {
        Finish();
        return;
      }
      var host := active.routes[p.fqdn];

      // a failure is only logged
      var ok := disk.Store(p.fqdn, RecordOf(p.fqdn, host.(lastSeen := seen)));

      host := HostEntry(null, seen, host.created);
      next.routes := next.routes[p.fqdn := host];
      Exchange(next);
      prev.routes := prev.routes[p.fqdn := host];
      Finish();
      assert View() == Apply(old(View()), RouterSpec.Offline(p, seen, ok)).0;
      hide Apply, NamesIn;
      if old(Bound()) {
        EditKeepsBound(old(View()), RouterSpec.Offline(p, seen, ok), this);
      }
    }

    // ---------- names ----------

    /** `AddName` once it has found the name to be free. */
    method AddFree(next: RouteTable, prev: RouteTable, n: NamedRoute) returns (reply: Reply)
      requires Consistent() && next == Standby() && prev == active && n.name !in next.routes
      modifies `active, `nameIndex, a`routes, b`routes, disk`calls, disk`files, n`router
      ensures Consistent() && n.router == this
      ensures (View(), reply) == Apply(old(View()), RouterSpec.AddName(n, !disk.fails(old(disk.calls))))
    {
      hide RecordOf, NonEmpty, Enlist;
      n.router := this;

      var ok := disk.Store(n.name, RecordOf(n.name, NameEntry(n)));
      if !ok {
        return Failed(StoreFailed);
      }

      AddToIndex(n);

      next.routes := next.routes[n.name := NameEntry(n)];
      Exchange(next);
      prev.routes := prev.routes[n.name := NameEntry(n)];
      reply := Ok;
    }

    method AddName(n: NamedRoute) returns (reply: Reply)
      requires Valid()
      modifies `active, `editLock, `nameIndex, a`routes, b`routes, disk`calls, disk`files, n`router
      ensures Valid()
      ensures old(Bound()) ==> Bound()
      ensures (View(), reply) == Apply(old(View()), RouterSpec.AddName(n, !disk.fails(old(disk.calls))))
      ensures n.router == if n.name in old(View()).standby then old(n.router) else this
    {
      hide Apply, NonEmpty;
      ghost var op := RouterSpec.AddName(n, !disk.fails(disk.calls));
      var next, prev := Begin();
      if n.name in next.routes {
        var existing := next.routes[n.name];
        Finish();
        NameIsTaken(View(), op);
        if existing.NameEntry? && existing.named.owner == n.owner {
          return Ok;
        }
        return Failed(Occupied);
      }
      reply := AddFree(next, prev, n);
      Finish();
      if old(Bound()) {
        EditKeepsBound(old(View()), op, this);
      }
    }

    /** `RemoveName` once it has found the route and its owner. */
    method RemoveOwned(next: RouteTable, prev: RouteTable, s: string, toRemove: NamedRoute) returns (reply: Reply)
      requires Consistent() && next == Standby() && prev == active
      requires s in next.routes && next.routes[s] == NameEntry(toRemove)
      modifies `active, `nameIndex, a`routes, b`routes, disk`calls, disk`files
      ensures Consistent()
      ensures (View(), reply) ==
              Apply(old(View()), RouterSpec.RemoveName(s, toRemove.owner, !disk.fails(old(disk.calls))))
    {
      hide NonEmpty, Reduce;
      var ok := disk.Unlink(s);
      if !ok {
        return Failed(UnlinkFailed);
      }

      ReduceIndex(toRemove.owner, toRemove);

      next.routes := next.routes - {s};
      Exchange(next);
      prev.routes := prev.routes - {s};
      reply := Ok;
    }

    method RemoveName(s: string, from: Peer) returns (reply: Reply)
      requires Valid()
      modifies `active, `editLock, `nameIndex, a`routes, b`routes, disk`calls, disk`files
      ensures Valid()
      ensures old(Bound()) ==> Bound()
      ensures (View(), reply) == Apply(old(View()), RouterSpec.RemoveName(s, from.fqdn, !disk.fails(old(disk.calls))))
    {
      hide Apply, NonEmpty;
      ghost var op := RouterSpec.RemoveName(s, from.fqdn, !disk.fails(disk.calls));
      NotToRemove(View(), op);
      var next, prev := Begin();
      if s !in next.routes {
        Finish();
        return Failed(NoSuchName);
      }
      var toRemove := next.routes[s];
      if !toRemove.NameEntry? {
        Finish();
        return Failed(NotNamed);
      }
      if toRemove.named.owner != from.fqdn {
        Finish();
        return Failed(NotOwner);
      }
      reply := RemoveOwned(next, prev, s, toRemove.named);
      Finish();
      if old(Bound()) {
        EditKeepsBound(old(View()), op, this);
      }
    }

    /** One turn of the first loop of `RemoveNames`; a failing unlink ends it there. */
    method UnlinkNext(next: RouteTable, key: string, n: NamedRoute) returns (ok: bool)
      modifies next`routes, `nameIndex, disk`calls, disk`files
      ensures disk.calls == old(disk.calls) + 1 && ok == !disk.fails(old(disk.calls))
      ensures nameIndex == if ok then Reduce(old(nameIndex), key, n) else old(nameIndex)
      ensures next.routes == if ok then old(next.routes) - {n.name} else old(next.routes)
      ensures disk.files == if ok then old(disk.files) - {n.name} else old(disk.files)
    {
      ok := disk.Unlink(n.name);
      if ok {
        ReduceIndex(key, n);
        next.routes := next.routes - {n.name};
      }
    }

    /** The first loop of `RemoveNames`: unlink, unlist and delete from `next` until the first unlink fails. */
    method UnlinkUntilFailure(next: RouteTable, key: string) returns (successes: nat, failed: bool)
      requires NonEmpty(nameIndex) && key in nameIndex
      modifies next`routes, `nameIndex, disk`calls, disk`files
      ensures var list := old(nameIndex)[key];
              var k := FirstFailure(disk.fails, old(disk.calls), |list|);
              && failed == (k < |list|)
              && successes == (if k == 0 then 0 else k - 1)
              && nameIndex == DropFirst(old(nameIndex), key, k)
              && next.routes == old(next.routes) - NamesOf(list[..k])
              && disk.files == old(disk.files) - NamesOf(list[..k])
    {
      var list := nameIndex[key];
      successes, failed := 0, false;
      assert DropFirst(nameIndex, key, 0) == nameIndex by {
        assert list[0..] == list;
      }
      assert NamesOf(list[..0]) == {};
      hide NamesOf, DropFirst, Reduce, FirstFailure, NonEmpty;
      var i := 0;
      while i < |list|
        invariant 0 <= i <= |list| && !failed
        invariant successes == if i == 0 then 0 else i - 1
        invariant disk.calls == old(disk.calls) + i
        invariant forall j | old(disk.calls) <= j < disk.calls :: !disk.fails(j)
        invariant nameIndex == DropFirst(old(nameIndex), key, i)
        invariant next.routes == old(next.routes) - NamesOf(list[..i])
        invariant disk.files == old(disk.files) - NamesOf(list[..i])
      {
        var ok := UnlinkNext(next, key, list[i]);
        if !ok {
          failed := true;
          break;
        }
        successes := i;
        NamesOfNext(list, i);
        ReduceHead(old(nameIndex), key, i);
        i := i + 1;
      }
    }

    /** The second loop of `RemoveNames`: remove the same from the old table. */
    method ReplayRemovals(prev: RouteTable, list: seq<NamedRoute>, successes: nat)
      requires successes < |list|
      modifies prev`routes
      ensures prev.routes == old(prev.routes) - NamesOf(list[..successes + 1])
    {
      for i := 0 to successes + 1
        invariant prev.routes == old(prev.routes) - NamesOf(list[..i])
      {
        NamesOfNext(list, i);
        prev.routes := prev.routes - {list[i].name};
      }
    }

    /** `RemoveNames` once it has found the owner's list: both loops and the exchange between them. */
    method RemoveListed(next: RouteTable, prev: RouteTable, key: string) returns (reply: Reply)
      requires Consistent() && next == Standby() && prev == active && key in nameIndex
      modifies `active, `nameIndex, a`routes, b`routes, disk`calls, disk`files
      ensures Consistent()
      ensures (View(), reply) ==
              Apply(old(View()),
                    RouterSpec.RemoveNames(key, FirstFailure(disk.fails, old(disk.calls), |old(nameIndex)[key]|)))
    {
      hide Apply, NonEmpty, NamesOf, DropFirst, FirstFailure;
      var list := nameIndex[key];
      SomeNames(View(), key, FirstFailure(disk.fails, disk.calls, |list|));
      var successes, failed := UnlinkUntilFailure(next, key);
      Exchange(next);
      ReplayRemovals(prev, list, successes);
      reply := Removed(list[..successes + 1], failed);
    }

    /** Removes the names of a peer until the first unlink fails. */
    method RemoveNames(from: Peer) returns (reply: Reply)
      requires Valid()
      modifies `active, `editLock, `nameIndex, a`routes, b`routes, disk`calls, disk`files
      ensures Valid()
      ensures old(Bound()) ==> Bound()
      ensures var n := if from.fqdn in old(nameIndex) then |old(nameIndex)[from.fqdn]| else 0;
              (View(), reply) ==
              Apply(old(View()), RouterSpec.RemoveNames(from.fqdn, FirstFailure(disk.fails, old(disk.calls), n)))
    {
      hide Apply, NonEmpty, FirstFailure;
      var next, prev := Begin();
      if from.fqdn !in nameIndex {
        Finish();
        NoNames(View(), from.fqdn);
        return Removed([], false);
      }
      ghost var k := FirstFailure(disk.fails, disk.calls, |nameIndex[from.fqdn]|);
      reply := RemoveListed(next, prev, from.fqdn);
      Finish();
      if old(Bound()) {
        EditKeepsBound(old(View()), RouterSpec.RemoveNames(from.fqdn, k), this);
      }
    }

    // ---------- lookups ----------

    /** A copy of each of a peer's names. */
    method Names(p: Peer) returns (names: seq<NameRecord>)
      ensures var list := if p.fqdn in nameIndex then nameIndex[p.fqdn] else [];
              |names| == |list| && forall i | 0 <= i < |list| :: names[i] == NameRecord(list[i].name, list[i].owner)
    {
      names := [];
      if p.fqdn !in nameIndex {
        return;
      }
      var n := nameIndex[p.fqdn];
      for i := 0 to |n|
        invariant |names| == i && forall j | 0 <= j < i :: names[j] == NameRecord(n[j].name, n[j].owner)
      {
        names := names + [NameRecord(n[i].name, n[i].owner)];
      }
    }

    method Find(n: string) returns (r: Option<Entry>)
      requires Valid()
      ensures r == if n in View().live then Some(View().live[n]) else None
    {
      if n in active.routes {
        return Some(active.routes[n]);
      }
      return None;
    }

    method Exists(n: string) returns (found: bool)
      requires Valid()
      ensures found <==> n in View().live
    {
      found := n in active.routes;
    }

    /**
     Where a dial ends up, on a table nobody edits meanwhile, and the address that is dialled there: the last
     owner in the chain, on the same port. A named route dials its own router with its owner's FQDN. The dial
     of a chain that runs in a circle does not return.
     */
    method DialContext(address: Address) returns (r: Target, at: Address)
      requires Valid() && Bound() && Ends(View().live, address.host)
      ensures r == Destination(View().live, address.host)
      ensures at.port == address.port
      ensures Lookup(View().live, address.host, Length(View().live, address.host) - 1) == Some(at.host)
      ensures r == NotFound(at.host) <==> at.host !in View().live
      ensures r == PeerOffline <==>
              at.host in View().live && View().live[at.host].HostEntry? && View().live[at.host].peer == null
      ensures forall p: Peer :: r == Reached(p) <==> PeerAt(View().live, at.host) == p
      decreases Length(View().live, address.host)
    {
      ghost var t := View().live;
      DestinationExactly(t, address.host);
      hide Destination, Answer, Lookup, NonEmpty;
      var host := address.host;
      if host !in active.routes {
        SettledDial(t, host);
        return NotFound(host), address;
      }
      match active.routes[host] {
        case HostEntry(peer, _, _) =>
          SettledDial(t, host);
          if peer == null {
            return PeerOffline, address;
          }
          return Reached(peer), address;
        case NameEntry(n) =>
          DialNameIsDialOwner(t, host);
          assert n.router == this;
          r, at := (n.router as Router).DialContext(Address(n.owner, address.port));
          FirstLookups(t, host);
          LookupSplits(t, host, 1, Length(t, n.owner) - 1);
      }
    }

    // ---------- starting up ----------

    /** `Wake`, with the name the record gives the route. */
    method Wake(i: Intermediate) returns (r: Option<(string, Entry)>)
      ensures r == None <==> i.host == None && i.named == None
      ensures r.Some? ==> Wakes(i, r.value.1)
      ensures r.Some? ==> r.value.0 == FqdnIn(i) == if i.host.Some? then i.host.value.name else i.named.value.name
      ensures r.Some? && r.value.1.NameEntry? ==> fresh(r.value.1.named) && r.value.1.named.router == this
    {
      if i.host.Some? {
        return Some((i.host.value.name, HostEntry(null, i.host.value.lastSeen, i.host.value.created)));
      }
      if i.named.Some? {
        var n := new NamedRoute.Decoded(i.named.value);
        n.router := this;
        return Some((n.name, NameEntry(n)));
      }
      return None;
    }

    /** What `NewRouter` does with each file it walks over. */
    method Load(i: Intermediate) returns (woken: Option<(string, Entry)>)
      requires Valid()
      modifies a`routes, b`routes, `nameIndex
      ensures Valid()
      ensures woken == None <==> i.host == None && i.named == None
      ensures woken.Some? ==>
        var (fqdn, e) := woken.value;
        && Wakes(i, e) && fqdn == FqdnIn(i)
        && (e.NameEntry? ==> fresh(e.named) && e.named.router == this)
        && a.routes == old(a.routes)[fqdn := e] && b.routes == old(b.routes)[fqdn := e]
        && nameIndex == if e.NameEntry? then Enlist(old(nameIndex), e.named) else old(nameIndex)
    {
      woken := Wake(i);
      if woken.Some? {
        var (fqdn, e) := woken.value;
        a.routes := a.routes[fqdn := e];
        b.routes := b.routes[fqdn := e];
        if e.NameEntry? {
          AddToIndex(e.named);
        }
      }
    }
  }

  lemma OnlineResult(s: State, op: Op)
    requires NonEmpty(s.index) && op.Online?
    ensures var key := op.peer.fqdn;
            var host := OnlineEntry(s.standby, op.peer, op.seen, op.created);
            Apply(s, op) ==
            if op.stored then
              (Publish(s, key, host).(files := s.files[key := RecordOf(key, host)]),
               Registered(PeerAt(s.standby, key) != null))
            else (s, Failed(StoreFailed))
  {
  }

  lemma NameIsTaken(s: State, op: Op)
    requires NonEmpty(s.index) && op.AddName? && op.route.name in s.standby
    ensures var e := s.standby[op.route.name];
            Apply(s, op) == (s, if e.NameEntry? && e.named.owner == op.route.owner then Ok else Failed(Occupied))
  {
  }

  lemma NotToRemove(s: State, op: Op)
    requires NonEmpty(s.index) && op.RemoveName?
    ensures op.name !in s.standby ==> Apply(s, op) == (s, Failed(NoSuchName))
    ensures op.name in s.standby && s.standby[op.name].HostEntry? ==> Apply(s, op) == (s, Failed(NotNamed))
    ensures op.name in s.standby && s.standby[op.name].NameEntry? && s.standby[op.name].named.owner != op.from ==>
      Apply(s, op) == (s, Failed(NotOwner))
  {
  }

  lemma NoNames(s: State, from: string)
    requires NonEmpty(s.index) && from !in s.index
    ensures forall k :: Apply(s, RemoveNames(from, k)) == (s, Removed([], false))
  {
  }

  lemma SomeNames(s: State, from: string, k: nat)
    requires NonEmpty(s.index) && from in s.index && k <= |s.index[from]|
    ensures var list := s.index[from];
            var replayed := if k == 0 then 1 else k;
            && replayed <= |list|
            && Apply(s, RemoveNames(from, k)) ==
               (State(s.standby - NamesOf(list[..k]), s.live - NamesOf(list[..replayed]),
                      DropFirst(s.index, from, k), s.files - NamesOf(list[..k])),
                Removed(list[..replayed], k < |list|))
  {
  }

  lemma {:induction false} WithoutSplits(l: seq<NamedRoute>, n: NamedRoute, i: nat)
    requires i < |l| && l[i] == n && n !in l[..i]
    ensures Without(l, n) == l[..i] + l[i + 1..]
  {
    if i > 0 {
      var tail := l[1..];
      assert l[0] == l[..i][0];
      assert tail[..i - 1] == l[..i][1..];
      WithoutSplits(tail, n, i - 1);
      assert [l[0]] + tail[..i - 1] == l[..i] && tail[i..] == l[i + 1..];
    }
  }

  // ---------- starting up ----------

  lemma LoadNext(files: Files, walk: seq<Woken>, x: Woken)
    requires Walks(files, walk) && x.file in files && Wakes(files[x.file], x.route) && x.file !in FilesOf(walk)
    ensures Walks(files, walk + [x])
    ensures var (t, ix) := LoadAll(files, walk);
            LoadAll(files, walk + [x]) == (t[FqdnIn(files[x.file]) := x.route], IndexWith(ix, x.route))
  {
    assert (walk + [x])[..|walk|] == walk;
  }

  /**
   `NewRouter`, for any order the directory is walked in: a file with neither record stops it, and otherwise
   the state is what that walk makes of the files.
   */
  method NewRouter(disk: Directory, order: seq<string>) returns (r: Option<Router>, ghost walk: seq<Woken>)
    requires forall k :: k in order <==> k in disk.files
    requires forall i, j | 0 <= i < j < |order| :: order[i] != order[j]
    ensures r == None <==> exists k :: k in disk.files && disk.files[k].host == None && disk.files[k].named == None
    ensures r.Some? ==> fresh(r.value) && r.value.Valid() && r.value.Bound() && r.value.disk == disk
    ensures r.Some? ==> Restarts(r.value.View(), disk.files, walk)
    ensures r.Some? ==> |walk| == |order| && forall i | 0 <= i < |order| :: walk[i].file == order[i]
  {
    var router := new Router.Empty(disk);
    walk := [];
    hide LoadAll, NonEmpty, Enlist, Walks;
    assert Walks(disk.files, []) && LoadAll(disk.files, []) == (map[], map[]) by {
      NothingLoaded(disk.files);
    }
    hide FilesOf, Restarts;
    for i := 0 to |order|
      invariant fresh(router) && fresh(router.a) && fresh(router.b) && router.disk == disk
      invariant router.Valid() && router.active == router.a && router.b.routes == router.a.routes
      invariant forall k | k in router.a.routes && router.a.routes[k].NameEntry? ::
        router.a.routes[k].named.router == router
      invariant forall j | 0 <= j < i :: disk.files[order[j]].host.Some? || disk.files[order[j]].named.Some?
      invariant |walk| == i && forall j | 0 <= j < i :: walk[j].file == order[j]
      invariant Walks(disk.files, walk) && (router.a.routes, router.nameIndex) == LoadAll(disk.files, walk)
    {
      var k := order[i];
      var woken := router.Load(disk.files[k]);
      if woken == None {
        return None, walk;
      }
      NotWalkedYet(walk, order, i);
      LoadNext(disk.files, walk, Woken(k, woken.value.1));
      walk := walk + [Woken(k, woken.value.1)];
    }
    AllWalked(disk.files, walk, order);
    IsRestart(router.View(), disk.files, walk);
    r := Some(router);
  }

  lemma NotWalkedYet(walk: seq<Woken>, order: seq<string>, i: nat)
    requires i < |order| && |walk| == i && forall j | 0 <= j < i :: walk[j].file == order[j]
    requires forall i, j | 0 <= i < j < |order| :: order[i] != order[j]
    ensures order[i] !in FilesOf(walk)
  {
  }

  lemma AllWalked(files: Files, walk: seq<Woken>, order: seq<string>)
    requires forall k :: k in order <==> k in files
    requires |walk| == |order| && forall j | 0 <= j < |order| :: walk[j].file == order[j]
    ensures FilesOf(walk) == files.Keys
  {
    forall k | k in files ensures k in FilesOf(walk) {
      var j :| 0 <= j < |order| && order[j] == k;
      assert walk[j] in walk;
    }
  }

  lemma IsRestart(w: State, files: Files, walk: seq<Woken>)
    requires Walks(files, walk) && FilesOf(walk) == files.Keys
    requires (w.live, w.index) == LoadAll(files, walk) && w.standby == w.live && w.files == files
    ensures Restarts(w, files, walk)
  {
  }

  lemma NothingLoaded(files: Files)
    ensures Walks(files, []) && LoadAll(files, []) == (map[], map[])
  {
  }

  /**
   Starting from files that account for a table: the router comes up, in a good state, with every named
   route bound to it and, up to sessions and last-seen times, exactly that table.
   */
  method StartAgain(ghost t: Table, disk: Directory, order: seq<string>) returns (r: Router)
    requires Persisted(t, disk.files)
    requires forall k :: k in order <==> k in disk.files
    requires forall i, j | 0 <= i < j < |order| :: order[i] != order[j]
    ensures fresh(r) && r.Valid() && r.Bound() && r.disk == disk && disk.files == old(disk.files)
    ensures Inv(r.View()) && SameRoutes(t, r.View().live)
    ensures forall k | k in r.View().live :: PeerAt(r.View().live, k) == null
  {
    PersistedIsWellFormed(t, disk.files);
    var started, walk := NewRouter(disk, order);
    hide Persisted, Restarts, Inv, SameRoutes;
    r := started.value;
    RestartRecalls(t, disk.files, r.View(), walk);
  }
}
