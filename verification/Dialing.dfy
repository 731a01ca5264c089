/**
 Following named routes to a session (routertwo/router.go:110-125, namedroute.go:41-50, host.go:29-35).

 A named route sends the dial back into the router with its owner's FQDN. Nothing in the code stops a
 chain of owners from turning back on itself, so whether a dial ends is a property of the table.
 */
module Dialing {
  import opened Routes
  import opened RouterSpec
  import opened Invariants
  import opened Restart
  import opened Histories

  datatype Address = Address(host: string, port: nat)

  datatype Target = NotFound(name: string) | PeerOffline | Reached(peer: Peer)

  predicate IsName(t: Table, x: string) {
    x in t && t[x].NameEntry?
  }

  /** The name looked up by lookup number `n` of a dial of `x`, counting from zero. */
  function Lookup(t: Table, x: string, n: nat): Option<string> {
    if n == 0 then Some(x)
    else match Lookup(t, x, n - 1)
      case None => None
      case Some(y) => if IsName(t, y) then Some(t[y].named.owner) else None
  }

  /** The dial is over after some number of lookups. */
  ghost predicate Ends(t: Table, x: string) {
    exists n :: Lookup(t, x, n) == None
  }

  /** How many lookups it takes. */
  ghost function Length(t: Table, x: string): (n: nat)
    requires Ends(t, x)
    ensures n > 0 && Lookup(t, x, n) == None && Lookup(t, x, n - 1) != None
  {
    var n :| Lookup(t, x, n) == None;
    Shorten(t, x, n)
  }

  ghost function Shorten(t: Table, x: string, n: nat): (m: nat)
    requires Lookup(t, x, n) == None
    ensures 0 < m <= n && Lookup(t, x, m) == None && Lookup(t, x, m - 1) != None
  {
    if Lookup(t, x, n - 1) == None then Shorten(t, x, n - 1) else n
  }

  /** What a route that is not a name answers. */
  function Answer(t: Table, y: string): Target {
    if y !in t || t[y].NameEntry? then NotFound(y)
    else if t[y].peer == null then PeerOffline
    else Reached(t[y].peer)
  }

  /** Where a dial that ends, ends up: the answer of the last name looked up. */
  ghost function Destination(t: Table, x: string): Target
    requires Ends(t, x)
  {
    Answer(t, Lookup(t, x, Length(t, x) - 1).value)
  }

  // ---------- chains ----------

  lemma {:induction false} LookupSplits(t: Table, x: string, m: nat, n: nat)
    ensures Lookup(t, x, m + n) ==
            match Lookup(t, x, m) { case None => None case Some(y) => Lookup(t, y, n) }
  {
    if n > 0 {
      LookupSplits(t, x, m, n - 1);
      assert m + n - 1 == m + (n - 1);
    }
  }

  lemma NoneStays(t: Table, x: string, m: nat, n: nat)
    requires m <= n && Lookup(t, x, m) == None
    ensures Lookup(t, x, n) == None
  {
  }

  /** A chain that comes back to a name it has seen never ends. */
  lemma {:induction false} RepeatNeverEnds(t: Table, x: string, i: nat, j: nat, n: nat)
    requires i < j && Lookup(t, x, i) == Lookup(t, x, j) != None
    ensures Lookup(t, x, n) != None
  {
    if n <= j {
      if Lookup(t, x, n) == None { NoneStays(t, x, n, j); }
    } else {
      RepeatNeverEnds(t, x, i, j, n - (j - i));
      LookupSplits(t, x, i, n - j);
      LookupSplits(t, x, j, n - j);
    }
  }

  function NamedKeys(t: Table): set<string> {
    set k | k in t && t[k].NameEntry?
  }

  /** More picks from a set than it has elements repeat one. */
  lemma {:induction false} Pigeonhole(l: seq<string>, s: set<string>) returns (i: nat, j: nat)
    requires |l| > |s| && forall i | 0 <= i < |l| :: l[i] in s
    ensures i < j < |l| && l[i] == l[j]
  {
    var last := |l| - 1;
    if exists i :: 0 <= i < last && l[i] == l[last] {
      i :| 0 <= i < last && l[i] == l[last];
      j := last;
    } else {
      i, j := Pigeonhole(l[..last], s - {l[last]});
    }
  }

  /** The names of the first `n` lookups. */
  function Visited(t: Table, x: string, n: nat): (l: seq<string>)
    requires Lookup(t, x, n) != None
    ensures |l| == n && forall i | 0 <= i < n :: Lookup(t, x, i) == Some(l[i]) && IsName(t, l[i])
  {
    if n == 0 then [] else Visited(t, x, n - 1) + [Lookup(t, x, n - 1).value]
  }

  /** A dial ends within one lookup more than there are named routes, or it never ends. */
  lemma EndsSoonOrNever(t: Table, x: string)
    ensures Ends(t, x) <==> Lookup(t, x, |NamedKeys(t)| + 1) == None
    ensures Ends(t, x) ==> Length(t, x) <= |NamedKeys(t)| + 1
  {
    var bound := |NamedKeys(t)| + 1;
    if Lookup(t, x, bound) != None {
      var l := Visited(t, x, bound);
      var i, j := Pigeonhole(l, NamedKeys(t));
      forall n: nat ensures Lookup(t, x, n) != None {
        RepeatNeverEnds(t, x, i, j, n);
      }
    } else if bound < Length(t, x) {
      NoneStays(t, x, bound, Length(t, x) - 1);
    }
  }

  ghost predicate Acyclic(t: Table) {
    forall x, n | n > 0 :: Lookup(t, x, n) != Some(x)
  }

  /** Every dial of a table ends exactly when no chain of owners leads from a name back to itself. */
  lemma AllEndExactlyWhenAcyclic(t: Table)
    ensures (forall x :: Ends(t, x)) <==> Acyclic(t)
  {
    if !Acyclic(t) {
      var x, n :| n > 0 && Lookup(t, x, n) == Some(x);
      forall m: nat ensures Lookup(t, x, m) != None {
        RepeatNeverEnds(t, x, 0, n, m);
      }
      assert !Ends(t, x);
    }
    forall x | !Ends(t, x) ensures !Acyclic(t) {
      var l := Visited(t, x, |NamedKeys(t)| + 1);
      var i, j := Pigeonhole(l, NamedKeys(t));
      LookupSplits(t, x, i, j - i);
      assert Lookup(t, l[i], j - i) == Some(l[i]);
    }
  }

  /** A dial of a name is a dial of its owner with one lookup more. */
  lemma DialNameIsDialOwner(t: Table, x: string)
    requires IsName(t, x)
    ensures var owner := t[x].named.owner;
            && (Ends(t, x) <==> Ends(t, owner))
            && (Ends(t, x) ==> Length(t, x) == Length(t, owner) + 1 && Destination(t, x) == Destination(t, owner))
  {
    var owner := t[x].named.owner;
    assert Lookup(t, x, 1) == Some(owner) by {
      assert Lookup(t, x, 0) == Some(x);
    }
    forall n: nat ensures Lookup(t, x, n + 1) == Lookup(t, owner, n) {
      LookupSplits(t, x, 1, n);
      assert 1 + n == n + 1;
    }
    if Ends(t, x) {
      var n := Length(t, x);
      assert n > 1;
      assert Lookup(t, owner, n - 1) == None;
    }
    if Ends(t, owner) {
      assert Lookup(t, x, Length(t, owner) + 1) == None;
      LengthUnique(t, x, Length(t, x), Length(t, owner) + 1);
    }
  }

  lemma LengthUnique(t: Table, x: string, m: nat, n: nat)
    requires m > 0 && Lookup(t, x, m) == None && Lookup(t, x, m - 1) != None
    requires n > 0 && Lookup(t, x, n) == None && Lookup(t, x, n - 1) != None
    ensures m == n
  {
    if m < n { NoneStays(t, x, m, n - 1); }
    if n < m { NoneStays(t, x, n, m - 1); }
  }

  /** A dial of anything but a named route ends at once. */
  lemma SettledDial(t: Table, x: string)
    requires !IsName(t, x)
    ensures Ends(t, x) && Length(t, x) == 1 && Lookup(t, x, 0) == Some(x) && Destination(t, x) == Answer(t, x)
  {
    assert Lookup(t, x, 0) == Some(x);
    assert Lookup(t, x, 1) == None;
    LengthUnique(t, x, Length(t, x), 1);
  }

  /** Where a dial ends up, by what the last name looked up is: nothing, a host without session, or one with. */
  lemma DestinationExactly(t: Table, x: string)
    requires Ends(t, x)
    ensures Lookup(t, x, Length(t, x) - 1).Some?
    ensures var y := Lookup(t, x, Length(t, x) - 1).value;
            && (Destination(t, x) == NotFound(y) <==> y !in t)
            && (Destination(t, x) == PeerOffline <==> y in t && t[y].HostEntry? && t[y].peer == null)
            && (forall p: Peer :: Destination(t, x) == Reached(p) <==> y in t && t[y].HostEntry? && t[y].peer == p)
  {
    var y := Lookup(t, x, Length(t, x) - 1).value;
    assert !IsName(t, y) by {
      assert Lookup(t, x, Length(t, x)) == None;
    }
  }

  // ---------- tables with the same names or fewer ----------

  /** Every name of the one table is a name with the same owner in the other. */
  ghost predicate Within(t': Table, t: Table) {
    forall k | IsName(t', k) :: IsName(t, k) && t'[k].named.owner == t[k].named.owner
  }

  lemma OtherEditsAddNoName(s: State, op: Op)
    requires NonEmpty(s.index) && Agree(s)
    requires !(op.AddName? && op.stored && op.route.name !in s.live)
    ensures Within(Apply(s, op).0.live, s.live)
  {
  }

  lemma RestartIsWithin(s: State, w: State, walk: seq<Woken>)
    requires Inv(s) && Restarts(w, s.files, walk)
    ensures Within(w.live, s.live) && Within(s.live, w.live)
  {
    RestartRoundTrip(s, w, walk);
    hide Inv, Exact, Restarts;
    assert forall k | k in s.live :: SameRoute(s.live[k], w.live[k]);
  }

  // ---------- names kept apart from FQDNs ----------

  /**
   `fqdns` holds the owner of every name that is added and no such name. Requests that are refused or fail
   do not count.
   */
  ghost predicate Disciplined(s: State, e: Event, fqdns: set<string>) {
    e.Edit? && e.op.AddName? && Exchanges(s, e.op) ==> e.op.route.owner in fqdns && e.op.route.name !in fqdns
  }

  ghost predicate KeptApart(t: Table, fqdns: set<string>) {
    forall k | IsName(t, k) :: t[k].named.owner in fqdns && k !in fqdns
  }

  ghost predicate FilesKeptApart(files: Files, fqdns: set<string>) {
    forall k | k in files && files[k].host == None && files[k].named.Some? ::
      files[k].named.value.owner in fqdns && files[k].named.value.name !in fqdns
  }

  predicate MayEnter(key: string, e: Entry, fqdns: set<string>) {
    e.NameEntry? ==> e.named.owner in fqdns && key !in fqdns
  }

  lemma TableKeepsApart(t: Table, fqdns: set<string>)
    requires KeptApart(t, fqdns)
    ensures forall key, e: Entry {:trigger t[key := e]} | MayEnter(key, e, fqdns) :: KeptApart(t[key := e], fqdns)
    ensures forall gone :: KeptApart(t - gone, fqdns)
  {
    forall key, e: Entry | MayEnter(key, e, fqdns) ensures KeptApart(t[key := e], fqdns) {
      assert forall k | IsName(t[key := e], k) && k != key :: IsName(t, k);
    }
    forall gone ensures KeptApart(t - gone, fqdns) {
      assert forall k | IsName(t - gone, k) :: IsName(t, k);
    }
  }

  lemma EditKeepsApart(s: State, op: Op, fqdns: set<string>)
    requires NonEmpty(s.index) && Disciplined(s, Edit(op), fqdns)
    requires KeptApart(s.live, fqdns) && KeptApart(s.standby, fqdns)
    ensures KeptApart(Apply(s, op).0.live, fqdns) && KeptApart(Apply(s, op).0.standby, fqdns)
  {
    hide KeptApart, Enlist, Reduce, DropFirst, RecordOf, NonEmpty, NamesOf;
    TableKeepsApart(s.live, fqdns);
    TableKeepsApart(s.standby, fqdns);
  }

  lemma EditKeepsFilesApart(s: State, op: Op, fqdns: set<string>)
    requires NonEmpty(s.index) && Disciplined(s, Edit(op), fqdns)
    requires FilesKeptApart(s.files, fqdns)
    ensures FilesKeptApart(Apply(s, op).0.files, fqdns)
  {
  }

  lemma {:induction false} LoadKeepsApart(files: Files, walk: seq<Woken>, fqdns: set<string>)
    requires Walks(files, walk) && FilesKeptApart(files, fqdns)
    ensures KeptApart(LoadAll(files, walk).0, fqdns)
  {
    if walk != [] {
      var init, last := WalkSplits(files, walk);
      hide *;
      LoadKeepsApart(files, init, fqdns);
      OneMoreKeptApart(files, last, LoadAll(files, init).0, fqdns);
    }
  }

  lemma OneMoreKeptApart(files: Files, last: Woken, t: Table, fqdns: set<string>)
    requires FilesKeptApart(files, fqdns) && KeptApart(t, fqdns)
    requires last.file in files && Wakes(files[last.file], last.route)
    ensures KeptApart(t[FqdnIn(files[last.file]) := last.route], fqdns)
  {
  }

  lemma StepKeepsApart(s: State, e: Event, s': State, fqdns: set<string>)
    requires Step(s, e, s') && Disciplined(s, e, fqdns)
    requires KeptApart(s.live, fqdns) && KeptApart(s.standby, fqdns) && FilesKeptApart(s.files, fqdns)
    ensures KeptApart(s'.live, fqdns) && KeptApart(s'.standby, fqdns) && FilesKeptApart(s'.files, fqdns)
  {
    match e
    case Edit(op) =>
      EditKeepsApart(s, op, fqdns);
      EditKeepsFilesApart(s, op, fqdns);
    case Reboot(walk) => LoadKeepsApart(s.files, walk, fqdns);
    hide KeptApart, FilesKeptApart, Walks, LoadAll, Disciplined;
  }

  lemma {:induction false} RunKeepsApart(ss: seq<State>, es: seq<Event>, fqdns: set<string>, n: nat)
    requires IsRun(ss, es) && n <= |es|
    requires forall i | 0 <= i < n :: Disciplined(ss[i], es[i], fqdns)
    requires KeptApart(ss[0].live, fqdns) && KeptApart(ss[0].standby, fqdns) && FilesKeptApart(ss[0].files, fqdns)
    ensures KeptApart(ss[n].live, fqdns) && KeptApart(ss[n].standby, fqdns) && FilesKeptApart(ss[n].files, fqdns)
    decreases n
  {
    if n > 0 {
      RunKeepsApart(ss, es, fqdns, n - 1);
      var s, e, s' := ss[n - 1], es[n - 1], ss[n];
      assert Step(s, e, s') && Disciplined(s, e, fqdns);
      StepKeepsApart(s, e, s', fqdns);
    }
  }

  /** No name is owned by a name. */
  ghost predicate Flat(t: Table) {
    forall k | IsName(t, k) :: !IsName(t, t[k].named.owner)
  }

  lemma FirstLookups(t: Table, x: string)
    ensures Lookup(t, x, 1) == if IsName(t, x) then Some(t[x].named.owner) else None
    ensures Lookup(t, x, 2) ==
            if IsName(t, x) && IsName(t, t[x].named.owner) then Some(t[t[x].named.owner].named.owner) else None
  {
    assert Lookup(t, x, 0) == Some(x);
  }

  /** A dial takes at most two lookups, and gets the answer of the owner when what is dialled is a name. */
  ghost predicate Short(t: Table, x: string) {
    Ends(t, x) && Length(t, x) <= 2 && Destination(t, x) == Answer(t, if IsName(t, x) then t[x].named.owner else x)
  }

  lemma ShortExactlyWhen(t: Table, x: string)
    ensures Short(t, x) <==> !(IsName(t, x) && IsName(t, t[x].named.owner))
  {
    FirstLookups(t, x);
    if IsName(t, x) && IsName(t, t[x].named.owner) {
      if Ends(t, x) && Length(t, x) <= 2 {
        NoneStays(t, x, Length(t, x), 2);
      }
    } else {
      LengthUnique(t, x, Length(t, x), if IsName(t, x) then 2 else 1);
    }
  }

  /** Every dial of a table is that short exactly when no name is owned by a name. */
  lemma AllShortExactlyWhenFlat(t: Table)
    ensures (forall x :: Short(t, x)) <==> Flat(t)
  {
    forall x ensures Short(t, x) <==> !(IsName(t, x) && IsName(t, t[x].named.owner)) {
      ShortExactlyWhen(t, x);
    }
    hide Short;
  }

  /**
   If no name that is added is ever an owner of names then, at every point of every run (restarts and disk
   failures included), every dial ends after at most two lookups, and dialling a name is dialling its owner.
   */
  lemma TwoLookupsAreEnough(ss: seq<State>, es: seq<Event>, fqdns: set<string>, n: nat, x: string)
    requires IsRun(ss, es) && n <= |es|
    requires forall i | 0 <= i < n :: Disciplined(ss[i], es[i], fqdns)
    requires KeptApart(ss[0].live, fqdns) && KeptApart(ss[0].standby, fqdns) && FilesKeptApart(ss[0].files, fqdns)
    ensures var t := ss[n].live;
            && Ends(t, x) && Length(t, x) <= 2
            && Destination(t, x) == Answer(t, if IsName(t, x) then t[x].named.owner else x)
  {
    RunKeepsApart(ss, es, fqdns, n);
    ShortExactlyWhen(ss[n].live, x);
  }

  /** A name comes to be owned by a name: by itself, by another, or as the owner of names there are. */
  ghost predicate Nests(s: State, op: Op) {
    && op.AddName? && op.stored && op.route.name !in s.live
    && (op.route.owner == op.route.name || IsName(s.live, op.route.owner)
        || exists k :: IsName(s.live, k) && s.live[k].named.owner == op.route.name)
  }

  /** From a table whose dials are all that short, an edit makes one longer exactly when it nests a name. */
  lemma NestsExactlyWhen(s: State, op: Op)
    requires NonEmpty(s.index) && Agree(s) && Flat(s.live)
    ensures Flat(Apply(s, op).0.live) <==> !Nests(s, op)
  {
    if op.AddName? && op.stored && op.route.name !in s.live {
      NewNameNests(s.live, op.route);
      hide Flat, IsName, NonEmpty, Enlist, RecordOf;
    } else {
      OtherEditsAddNoName(s, op);
      hide Apply, NonEmpty;
    }
  }

  lemma NewNameNests(t: Table, n: NamedRoute)
    requires Flat(t) && n.name !in t
    ensures Flat(t[n.name := NameEntry(n)]) <==>
            !(n.owner == n.name || IsName(t, n.owner) || exists k :: IsName(t, k) && t[k].named.owner == n.name)
  {
    var t' := t[n.name := NameEntry(n)];
    assert IsName(t', n.name) && t'[n.name].named.owner == n.owner;
    assert forall k | IsName(t, k) :: IsName(t', k) && t'[k] == t[k];
  }

  lemma StepNestsExactlyWhen(s: State, e: Event, s': State)
    requires Step(s, e, s') && Inv(s) && !Faulty(s, e) && Flat(s.live)
    ensures Flat(s'.live) <==> !(e.Edit? && Nests(s, e.op))
  {
    match e
    case Edit(op) =>
      hide Flat, Nests;
      NestsExactlyWhen(s, op);
    case Reboot(walk) =>
      RestartIsWithin(s, s', walk);
      hide Inv, Restarts;
  }

  /**
   Over a run, restarts included, every dial at every point takes at most two lookups, and dialling a name is
   dialling its owner, if and only if no edit ever nests a name.
   */
  lemma {:induction false} TwoLookupsExactlyWhen(ss: seq<State>, es: seq<Event>, n: nat)
    requires IsRun(ss, es) && n <= |es| && Inv(ss[0]) && Sound(ss, es, n) && Flat(ss[0].live)
    ensures (forall i, x | 0 <= i <= n :: Short(ss[i].live, x)) <==>
            (forall i | 0 <= i < n && es[i].Edit? :: !Nests(ss[i], es[i].op))
    decreases n
  {
    assert |ss| == |es| + 1;
    hide *;
    AllShortExactlyWhenFlat(ss[n].live);
    if n > 0 {
      RunStep(ss, es, n - 1);
      SoundStep(ss, es, n - 1);
      TwoLookupsExactlyWhen(ss, es, n - 1);
      AllShortExactlyWhenFlat(ss[n - 1].live);
      RunKeepsInv(ss, es, n - 1);
      if Flat(ss[n - 1].live) {
        StepNestsExactlyWhen(ss[n - 1], es[n - 1], ss[n]);
      }
    }
  }

  /** Without it a peer can, before it ever comes online, add its own FQDN as a name and no dial of it ends. */
  lemma SelfNameNeverEnds(n: NamedRoute)
    requires n.name == n.owner
    ensures var s := Apply(State(map[], map[], map[], map[]), AddName(n, true)).0; Inv(s) && !Ends(s.live, n.name)
  {
    var s0 := State(map[], map[], map[], map[]);
    var s := Apply(s0, AddName(n, true)).0;
    ApplyKeeps(s0, AddName(n, true));
    assert Lookup(s.live, n.name, 0) == Lookup(s.live, n.name, 1);
    forall m: nat ensures Lookup(s.live, n.name, m) != None {
      RepeatNeverEnds(s.live, n.name, 0, 1, m);
    }
  }

  // ---------- which edit closes a circle ----------

  /** The chain of owners from `x` comes to `y`. */
  ghost predicate Reaches(t: Table, x: string, y: string) {
    exists i :: Lookup(t, x, i) == Some(y)
  }

  /** A name whose owner's chain already leads to it becomes a name. */
  ghost predicate Closes(s: State, op: Op) {
    op.AddName? && op.stored && op.route.name !in s.live && Reaches(s.live, op.route.owner, op.route.name)
  }

  /** A chain is the same with one name more, until it comes to it. */
  lemma {:induction false} SameUntil(t: Table, n: NamedRoute, x: string, i: nat)
    requires n.name !in t && forall j | 0 <= j < i :: Lookup(t, x, j) != Some(n.name)
    ensures Lookup(t[n.name := NameEntry(n)], x, i) == Lookup(t, x, i)
  {
    if i > 0 {
      SameUntil(t, n, x, i - 1);
    }
  }

  /** With no circle and one name more, a chain that does not come to the name ends as before. */
  lemma AvoidsEnds(t: Table, n: NamedRoute, x: string)
    requires Acyclic(t) && n.name !in t && !Reaches(t, x, n.name)
    ensures Ends(t[n.name := NameEntry(n)], x)
  {
    AllEndExactlyWhenAcyclic(t);
    var i := Length(t, x);
    SameUntil(t, n, x, i);
  }

  lemma EndsBehind(t: Table, x: string, i: nat, y: string)
    requires Lookup(t, x, i) == Some(y) && Ends(t, y)
    ensures Ends(t, x)
  {
    LookupSplits(t, x, i, Length(t, y));
  }

  /** A chain comes to what is not a name at most once. */
  lemma ReachedOnce(t: Table, x: string, y: string) returns (i: nat)
    requires Reaches(t, x, y) && !IsName(t, y)
    ensures Lookup(t, x, i) == Some(y) && forall j | 0 <= j < i :: Lookup(t, x, j) != Some(y)
  {
    i :| Lookup(t, x, i) == Some(y);
    forall j: nat | j < i ensures Lookup(t, x, j) != Some(y) {
      if Lookup(t, x, j) == Some(y) {
        NoneStays(t, x, j + 1, i);
      }
    }
  }

  lemma NewNameEnds(t: Table, n: NamedRoute, x: string)
    requires Acyclic(t) && n.name !in t && !Reaches(t, n.owner, n.name)
    ensures Ends(t[n.name := NameEntry(n)], x)
  {
    if Reaches(t, x, n.name) {
      var t' := t[n.name := NameEntry(n)];
      AvoidsEnds(t, n, n.owner);
      assert Lookup(t', n.name, 0) == Some(n.name) && Lookup(t', n.name, 1) == Some(n.owner);
      EndsBehind(t', n.name, 1, n.owner);
      var i := ReachedOnce(t, x, n.name);
      SameUntil(t, n, x, i);
      EndsBehind(t', x, i, n.name);
    } else {
      AvoidsEnds(t, n, x);
    }
  }

  lemma NewNameCloses(t: Table, n: NamedRoute)
    requires Acyclic(t) && n.name !in t
    ensures Acyclic(t[n.name := NameEntry(n)]) <==> !Reaches(t, n.owner, n.name)
  {
    var t' := t[n.name := NameEntry(n)];
    if Reaches(t, n.owner, n.name) {
      var i := ReachedOnce(t, n.owner, n.name);
      SameUntil(t, n, n.owner, i);
      assert Lookup(t', n.name, 0) == Some(n.name) && Lookup(t', n.name, 1) == Some(n.owner);
      LookupSplits(t', n.name, 1, i);
      assert Lookup(t', n.name, 1 + i) == Some(n.name);
    } else {
      AllEndExactlyWhenAcyclic(t');
      forall x ensures Ends(t', x) {
        NewNameEnds(t, n, x);
      }
    }
  }

  lemma {:induction false} WithinLookup(t': Table, t: Table, x: string, i: nat)
    requires Within(t', t) && Lookup(t', x, i) != None
    ensures Lookup(t, x, i) == Lookup(t', x, i)
  {
    if i > 0 {
      WithinLookup(t', t, x, i - 1);
    }
  }

  lemma WithinStaysAcyclic(t': Table, t: Table)
    requires Within(t', t) && Acyclic(t)
    ensures Acyclic(t')
  {
    forall x, i | i > 0 ensures Lookup(t', x, i) != Some(x) {
      if Lookup(t', x, i) == Some(x) {
        WithinLookup(t', t, x, i);
      }
    }
  }

  /** From a table without a circle, an edit closes one exactly when it adds a name that its owner's chain leads to. */
  lemma ClosesExactlyWhen(s: State, op: Op)
    requires NonEmpty(s.index) && Agree(s) && Acyclic(s.live)
    ensures Acyclic(Apply(s, op).0.live) <==> !Closes(s, op)
  {
    hide Acyclic, Reaches, Within;
    if op.AddName? && op.stored && op.route.name !in s.live {
      NewNameCloses(s.live, op.route);
    } else {
      OtherEditsAddNoName(s, op);
      WithinStaysAcyclic(Apply(s, op).0.live, s.live);
    }
  }

  lemma StepClosesExactlyWhen(s: State, e: Event, s': State)
    requires Step(s, e, s') && Inv(s) && !Faulty(s, e) && Acyclic(s.live)
    ensures Acyclic(s'.live) <==> !(e.Edit? && Closes(s, e.op))
  {
    hide Acyclic, Closes;
    match e
    case Edit(op) => ClosesExactlyWhen(s, op);
    case Reboot(walk) =>
      RestartIsWithin(s, s', walk);
      WithinStaysAcyclic(s'.live, s.live);
  }

  /** Over a run, restarts included, every dial at every point ends if and only if no edit ever closes a circle. */
  lemma {:induction false} DialsEndExactlyWhen(ss: seq<State>, es: seq<Event>, n: nat)
    requires IsRun(ss, es) && n <= |es| && Inv(ss[0]) && Sound(ss, es, n) && Acyclic(ss[0].live)
    ensures (forall i, x | 0 <= i <= n :: Ends(ss[i].live, x)) <==>
            (forall i | 0 <= i < n && es[i].Edit? :: !Closes(ss[i], es[i].op))
    decreases n
  {
    assert |ss| == |es| + 1;
    hide *;
    AllEndExactlyWhenAcyclic(ss[n].live);
    if n > 0 {
      RunStep(ss, es, n - 1);
      SoundStep(ss, es, n - 1);
      DialsEndExactlyWhen(ss, es, n - 1);
      AllEndExactlyWhenAcyclic(ss[n - 1].live);
      RunKeepsInv(ss, es, n - 1);
      if Acyclic(ss[n - 1].live) {
        StepClosesExactlyWhen(ss[n - 1], es[n - 1], ss[n]);
      }
    }
  }
}
