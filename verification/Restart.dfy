/**
 What a restart makes of the files on disk (routertwo/router.go:64-100, intermediate.go:13-23).
 */
module Restart {
  import opened Routes
  import opened RouterSpec
  import opened Invariants

  // ---------- reading the files back ----------

  /** The entry a record wakes up as: a host has no session yet, a named route is a new object. */
  predicate Wakes(i: Intermediate, e: Entry) {
    if i.host.Some? then e == HostEntry(null, i.host.value.lastSeen, i.host.value.created)
    else i.named.Some? && e.NameEntry? && e.named.name == i.named.value.name && e.named.owner == i.named.value.owner
  }

  /** One file walked over, and the entry its record woke up as. */
  datatype Woken = Woken(file: string, route: Entry)

  function FilesOf(walk: seq<Woken>): set<string> {
    set x | x in walk :: x.file
  }

  /** Every file is walked over at most once, in some order, and wakes up. */
  ghost predicate Walks(files: Files, walk: seq<Woken>) {
    && (forall x | x in walk :: x.file in files && Wakes(files[x.file], x.route))
    && (forall i, j | 0 <= i < j < |walk| :: walk[i].file != walk[j].file)
  }

  /**
   The table and the index after a walk: each route goes under the FQDN in its record, whatever its file is
   called.
   */
  function LoadAll(files: Files, walk: seq<Woken>): (Table, Index)
    requires Walks(files, walk)
  {
    if walk == [] then (map[], map[])
    else
      var last := walk[|walk| - 1];
      var (t, ix) := LoadAll(files, walk[..|walk| - 1]);
      (t[FqdnIn(files[last.file]) := last.route], IndexWith(ix, last.route))
  }

  function IndexWith(ix: Index, e: Entry): Index {
    match e
    case NameEntry(n) => Enlist(ix, n)
    case HostEntry(_, _, _) => ix
  }

  /** A walk, seen as its last file after all the others. */
  lemma WalkSplits(files: Files, walk: seq<Woken>) returns (init: seq<Woken>, last: Woken)
    requires Walks(files, walk) && walk != []
    ensures |init| < |walk| && walk == init + [last] && Walks(files, init)
    ensures last.file in files && Wakes(files[last.file], last.route)
    ensures last.file !in FilesOf(init) && FilesOf(walk) == FilesOf(init) + {last.file}
    ensures var (t, ix) := LoadAll(files, init);
            LoadAll(files, walk) == (t[FqdnIn(files[last.file]) := last.route], IndexWith(ix, last.route))
  {
    init, last := walk[..|walk| - 1], walk[|walk| - 1];
    hide Wakes, IndexWith;
  }

  /** `w` is what `NewRouter` makes of the files when it walks over them like this. */
  ghost predicate Restarts(w: State, files: Files, walk: seq<Woken>) {
    && Walks(files, walk) && FilesOf(walk) == files.Keys
    && var (t, ix) := LoadAll(files, walk); w == State(t, t, ix, files)
  }

  /** Every file holds exactly one record, under its own name. */
  ghost predicate WellFormed(files: Files) {
    forall k | k in files ::
      match files[k].host {
        case Some(h) => h.name == k && files[k].named == None
        case None => files[k].named.Some? && files[k].named.value.name == k
      }
  }

  /** So every file of a good state can be read back. */
  lemma PersistedIsWellFormed(t: Table, files: Files)
    requires Persisted(t, files)
    ensures WellFormed(files)
  {
    forall k | k in files
      ensures match files[k].host {
                case Some(h) => h.name == k && files[k].named == None
                case None => files[k].named.Some? && files[k].named.value.name == k
              }
    {
      assert Recalls(files[k], k, t[k]);
    }
  }

  /** No list holds a route that a host has taken over. */
  ghost predicate NoTakeovers(t: Table, ix: Index) {
    forall o, i | o in ix && 0 <= i < |ix[o]| :: ix[o][i].name in t && t[ix[o][i].name] == NameEntry(ix[o][i])
  }

  /** The table holds what the files walked over woke up as, and the index lists its named routes. */
  ghost predicate Loaded(t: Table, ix: Index, walk: seq<Woken>) {
    && t.Keys == FilesOf(walk) && (forall x | x in walk :: t[x.file] == x.route)
    && Indexed(t, ix) && NoTakeovers(t, ix)
  }

  lemma LoadOne(t: Table, ix: Index, walk: seq<Woken>, last: Woken)
    requires Loaded(t, ix, walk) && last.file !in FilesOf(walk)
    requires last.route.NameEntry? ==> last.route.named.name == last.file
    ensures Loaded(t[last.file := last.route], IndexWith(ix, last.route), walk + [last])
  {
    var t' := t[last.file := last.route];
    assert t'.Keys == FilesOf(walk + [last]);
    match last.route
    case HostEntry(_, _, _) =>
    case NameEntry(n) =>
      EnlistKeeps(t, ix, n);
      hide Indexed;
  }

  lemma {:induction false} LoadsWell(files: Files, walk: seq<Woken>)
    requires WellFormed(files) && Walks(files, walk)
    ensures var (t, ix) := LoadAll(files, walk); Loaded(t, ix, walk)
  {
    if walk == [] {
      assert FilesOf(walk) == {};
    } else {
      var init, last := WalkSplits(files, walk);
      assert FqdnIn(files[last.file]) == last.file && (last.route.NameEntry? ==> last.route.named.name == last.file);
      hide *;
      LoadsWell(files, init);
      LoadOne(LoadAll(files, init).0, LoadAll(files, init).1, init, last);
    }
  }

  /**
   A restart from well-formed files: the index agrees with the table, and the table holds just what the
   files hold.
   */
  lemma RestartsWell(w: State, files: Files, walk: seq<Woken>)
    requires WellFormed(files) && Restarts(w, files, walk)
    ensures Agree(w) && w.files == files && w.live.Keys == files.Keys
    ensures forall k | k in files :: Wakes(files[k], w.live[k])
    ensures Indexed(w.live, w.index) && NoTakeovers(w.live, w.index)
  {
    LoadsWell(files, walk);
    hide Indexed, NoTakeovers, WellFormed, LoadAll;
    forall k | k in files ensures Wakes(files[k], w.live[k]) {
      assert k in FilesOf(walk);
      var x :| x in walk && x.file == k;
    }
  }

  // ---------- the round trip ----------

  /** Equal up to sessions, the time a host was last seen, and the identity of named routes. */
  ghost predicate SameRoute(e: Entry, e': Entry) {
    match e
    case HostEntry(_, _, created) => e'.HostEntry? && e'.created == created
    case NameEntry(n) => e'.NameEntry? && e'.named.name == n.name && e'.named.owner == n.owner
  }

  ghost predicate SameRoutes(t: Table, t': Table) {
    t.Keys == t'.Keys && forall k | k in t :: SameRoute(t[k], t'[k])
  }

  /** Every file also holds the time its host was last seen. */
  ghost predicate Exact(t: Table, files: Files) {
    forall k | k in t && k in files :: files[k] == RecordOf(k, t[k])
  }

  /** Records stay exact unless the session found at its FQDN goes offline at a new time and its store fails. */
  lemma ApplyKeepsExact(s: State, op: Op)
    requires Inv(s) && Exact(s.live, s.files) && !FirstUnlinkFails(s, op)
    ensures var s' := Apply(s, op).0;
            op.Offline? && !op.stored && PeerAt(s.live, op.peer.fqdn) == op.peer
            && s.live[op.peer.fqdn].lastSeen != op.seen
            <==> !Exact(s'.live, s'.files)
  {
  }

  /** One record, read back. */
  lemma WakesSame(i: Intermediate, key: string, e: Entry, e': Entry)
    requires Recalls(i, key, e) && Wakes(i, e')
    ensures SameRoute(e, e') && Recalls(i, key, e') && i == RecordOf(key, e')
    ensures e'.HostEntry? ==> e'.peer == null
    ensures e.HostEntry? && i == RecordOf(key, e) ==> e' == e.(peer := null)
  {
  }

  /** Whoever reads the files back gets the table they account for, without sessions, in a good state to go on from. */
  lemma RestartRecalls(t: Table, files: Files, w: State, walk: seq<Woken>)
    requires Persisted(t, files) && Restarts(w, files, walk)
    ensures SameRoutes(t, w.live) && Inv(w) && Exact(w.live, w.files)
    ensures forall k | k in w.live :: PeerAt(w.live, k) == null
    ensures forall k | k in t && t[k].HostEntry? && files[k] == RecordOf(k, t[k]) :: w.live[k] == t[k].(peer := null)
  {
    PersistedIsWellFormed(t, files);
    RestartsWell(w, files, walk);
    hide Restarts, Indexed, NoTakeovers, WellFormed, Wakes, Recalls, SameRoute, RecordOf;
    forall k | k in files
      ensures SameRoute(t[k], w.live[k]) && Recalls(files[k], k, w.live[k]) && files[k] == RecordOf(k, w.live[k])
      ensures w.live[k].HostEntry? ==> w.live[k].peer == null
      ensures t[k].HostEntry? && files[k] == RecordOf(k, t[k]) ==> w.live[k] == t[k].(peer := null)
    {
      WakesSame(files[k], k, t[k], w.live[k]);
    }
  }

  /**
   A restart from the disk of any good state gives a good state with the same routes and no session,
   and, when the records are exact, the same times.
   */
  lemma RestartRoundTrip(s: State, w: State, walk: seq<Woken>)
    requires Inv(s) && Restarts(w, s.files, walk)
    ensures Inv(w) && Exact(w.live, w.files)
    ensures SameRoutes(s.live, w.live)
    ensures forall k | k in w.live :: PeerAt(w.live, k) == null
    ensures Exact(s.live, s.files) ==>
      forall k | k in s.live && s.live[k].HostEntry? :: w.live[k] == s.live[k].(peer := null)
  {
    RestartRecalls(s.live, s.files, w, walk);
    hide Restarts, Indexed, HostsKeyed, Recalls, SameRoute;
  }

  /** The rebuilt index lists for an owner exactly the names that were routed to it, each once. */
  lemma RestartIndex(s: State, w: State, walk: seq<Woken>, owner: string)
    requires Inv(s) && Restarts(w, s.files, walk)
    ensures var list := if owner in w.index then w.index[owner] else [];
            && (forall i, j | 0 <= i < j < |list| :: list[i].name != list[j].name)
            && (forall k :: k in NamesOf(list) <==>
                  k in s.live && s.live[k].NameEntry? && s.live[k].named.owner == owner)
  {
    RestartRoundTrip(s, w, walk);
    PersistedIsWellFormed(s.live, s.files);
    RestartsWell(w, s.files, walk);
    hide Restarts, WellFormed, Exact, Recalls, Wakes;
  }

  /** The routes of one owner among the files walked over, in the order of the walk. */
  function OwnedIn(walk: seq<Woken>, owner: string): seq<NamedRoute> {
    if walk == [] then []
    else
      var init, e := OwnedIn(walk[..|walk| - 1], owner), walk[|walk| - 1].route;
      if e.NameEntry? && e.named.owner == owner then init + [e.named] else init
  }

  /** After a restart an owner's routes are listed in the order in which their files were walked over. */
  lemma {:induction false} ListsInWalkOrder(files: Files, walk: seq<Woken>, owner: string)
    requires Walks(files, walk)
    ensures var ix := LoadAll(files, walk).1;
            (if owner in ix then ix[owner] else []) == OwnedIn(walk, owner)
  {
    if walk != [] {
      var init, last := WalkSplits(files, walk);
      assert walk[..|walk| - 1] == init && walk[|walk| - 1] == last;
      ListsInWalkOrder(files, init, owner);
      hide Walks, Wakes, FilesOf, LoadAll;
    }
  }

  /** Whatever the files hold: at every FQDN found in one, the table has what the last file with it woke up as. */
  lemma {:induction false} LastFileWins(files: Files, walk: seq<Woken>, i: nat)
    requires Walks(files, walk) && i < |walk|
    requires forall j | i < j < |walk| ::
      walk[j].file in files && Wakes(files[walk[j].file], walk[j].route)
      && FqdnIn(files[walk[j].file]) != FqdnIn(files[walk[i].file])
    ensures walk[i].file in files && Wakes(files[walk[i].file], walk[i].route)
    ensures var t := LoadAll(files, walk).0;
            FqdnIn(files[walk[i].file]) in t && t[FqdnIn(files[walk[i].file])] == walk[i].route
  {
    var init, last := WalkSplits(files, walk);
    assert walk[i] in walk;
    if i < |walk| - 1 {
      assert forall j | 0 <= j < |init| :: init[j] == walk[j];
      assert walk[|walk| - 1] == last;
      LastFileWins(files, init, i);
    }
  }

  /** And nothing else is in it. */
  lemma {:induction false} OnlyFilesAreLoaded(files: Files, walk: seq<Woken>, key: string)
    requires Walks(files, walk)
    ensures key in LoadAll(files, walk).0 <==>
            exists x :: x in walk && Wakes(files[x.file], x.route) && FqdnIn(files[x.file]) == key
  {
    if walk != [] {
      var init, last := WalkSplits(files, walk);
      OnlyFilesAreLoaded(files, init, key);
    }
  }

  // ---------- the failure that parts the tables ----------

  /** An empty router is two edits away from it. */
  lemma FirstUnlinkIsReachable(n: NamedRoute)
    ensures var s := Apply(State(map[], map[], map[], map[]), AddName(n, true)).0;
            Inv(s) && FirstUnlinkFails(s, RemoveNames(n.owner, 0)) && s.index[n.owner] == [n]
  {
    var s0 := State(map[], map[], map[], map[]);
    ApplyKeeps(s0, AddName(n, true));
  }

  lemma EditKeepsWellFormed(s: State, op: Op)
    requires NonEmpty(s.index) && WellFormed(s.files)
    ensures WellFormed(Apply(s, op).0.files)
  {
    hide Enlist, Reduce, DropFirst, NonEmpty;
  }

  lemma StillListed(ix: Index, key: string, first: NamedRoute, n: NamedRoute)
    requires key in ix && first in ix[key] && n != first
    ensures forall o :: var r := Reduce(ix, o, n); key in r && first in r[key]
  {
    if n in ix[key] {
      var i := WithoutAt(ix[key], n);
    }
  }
}
