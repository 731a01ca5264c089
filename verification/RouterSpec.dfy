/**
 The sequential specification of the router (routertwo/router.go:127-447).

 Both copies of the routing table are kept apart: `live` is the one readers use, `standby` the one the
 next edit starts from. An edit that succeeds changes the standby table, makes it live, and replays
 its change on the table that was live before. Every edit is a function of the state and of the
 outcome of its disk calls.
 */
module RouterSpec {
  import opened Routes

  type Table = map<string, Entry>
  type Index = map<string, seq<NamedRoute>>
  type Files = map<string, Intermediate>

  datatype State = State(live: Table, standby: Table, index: Index, files: Files)

  /** An edit with its arguments, its clock readings and the outcome of its disk calls. */
  datatype Op =
    | Online(peer: Peer, seen: int, created: int, stored: bool)
    | Offline(peer: Peer, seen: int, stored: bool)
    | AddName(route: NamedRoute, stored: bool)
    | RemoveName(name: string, from: string, unlinked: bool)
    | RemoveNames(from: string, failAt: nat) // the first unlink to fail; past the list, none does

  datatype Error = StoreFailed | UnlinkFailed | Occupied | NoSuchName | NotNamed | NotOwner

  datatype Reply =
    | Ok
    | Registered(replaced: bool)
    | Removed(routes: seq<NamedRoute>, failed: bool)
    | Failed(error: Error)

  // ---------- lookups ----------

  function Get(t: Table, key: string): Option<Entry> {
    if key in t then Some(t[key]) else None
  }

  function PeerAt(t: Table, key: string): Peer? {
    if key in t && t[key].HostEntry? then t[key].peer else null
  }

  function NamesOf(l: seq<NamedRoute>): set<string> {
    set n | n in l :: n.name
  }

  lemma NamesOfNext(l: seq<NamedRoute>, i: nat)
    requires i < |l|
    ensures NamesOf(l[..i + 1]) == NamesOf(l[..i]) + {l[i].name}
  {
  }

  // ---------- the owner index ----------

  ghost predicate NonEmpty(ix: Index) {
    forall o | o in ix :: ix[o] != []
  }

  /** `index` */
  function Enlist(ix: Index, n: NamedRoute): (r: Index)
    ensures NonEmpty(ix) ==> NonEmpty(r)
  {
    if n.owner in ix then ix[n.owner := ix[n.owner] + [n]] else ix[n.owner := [n]]
  }

  /** The list without its first occurrence of `n`. */
  function Without(l: seq<NamedRoute>, n: NamedRoute): (r: seq<NamedRoute>)
    ensures |r| == if n in l then |l| - 1 else |l|
    ensures forall m | m in r :: m in l
  {
    if l == [] then []
    else if l[0] == n then l[1..]
    else [l[0]] + Without(l[1..], n)
  }

  /** `reduceIndex` */
  function Reduce(ix: Index, key: string, n: NamedRoute): (r: Index)
    ensures NonEmpty(ix) ==> NonEmpty(r)
  {
    if key !in ix || n !in ix[key] then ix
    else if |ix[key]| == 1 then ix - {key}
    else ix[key := Without(ix[key], n)]
  }

  /** The index once the first `k` routes of an owner are gone. */
  function DropFirst(ix: Index, key: string, k: nat): (r: Index)
    requires key in ix
    ensures NonEmpty(ix) ==> NonEmpty(r)
  {
    if k < |ix[key]| then ix[key := ix[key][k..]] else ix - {key}
  }

  /** Reducing by the head of what is left is what one turn of the `RemoveNames` loop does. */
  lemma ReduceHead(ix: Index, key: string, k: nat)
    requires key in ix && k < |ix[key]|
    ensures Reduce(DropFirst(ix, key, k), key, ix[key][k]) == DropFirst(ix, key, k + 1)
  {
  }

  // ---------- the edits ----------

  /** Put an entry in both tables: the standby table goes live, the old one is brought up to date. */
  function Publish(s: State, key: string, e: Entry): State {
    s.(live := s.standby[key := e], standby := s.live[key := e])
  }

  function Withdraw(s: State, key: string): State {
    s.(live := s.standby - {key}, standby := s.live - {key})
  }

  /** The host entry `Online` writes: a known host keeps its creation time. */
  function OnlineEntry(next: Table, p: Peer, seen: int, created: int): Entry {
    if p.fqdn in next && next[p.fqdn].HostEntry?
    then HostEntry(p, seen, next[p.fqdn].created)
    else HostEntry(p, seen, created)
  }

  function DoOnline(s: State, p: Peer, seen: int, created: int, stored: bool): (State, Reply) {
    var e := OnlineEntry(s.standby, p, seen, created);
    if !stored then (s, Failed(StoreFailed))
    else (Publish(s, p.fqdn, e).(files := s.files[p.fqdn := RecordOf(p.fqdn, e)]),
          Registered(PeerAt(s.standby, p.fqdn) != null))
  }

  /** A failing store is only logged: the host goes offline all the same. */
  function DoOffline(s: State, p: Peer, seen: int, stored: bool): (State, Reply) {
    if PeerAt(s.live, p.fqdn) != p then (s, Ok)
    else
      var e := HostEntry(null, seen, s.live[p.fqdn].created);
      (Publish(s, p.fqdn, e).(files := if stored then s.files[p.fqdn := RecordOf(p.fqdn, e)] else s.files), Ok)
  }

  function DoAddName(s: State, n: NamedRoute, stored: bool): (State, Reply) {
    if n.name in s.standby then
      var e := s.standby[n.name];
      (s, if e.NameEntry? && e.named.owner == n.owner then Ok else Failed(Occupied))
    else if !stored then (s, Failed(StoreFailed))
    else
      var e := NameEntry(n);
      (Publish(s, n.name, e).(index := Enlist(s.index, n), files := s.files[n.name := RecordOf(n.name, e)]), Ok)
  }

  function DoRemoveName(s: State, name: string, from: string, unlinked: bool): (State, Reply) {
    if name !in s.standby then (s, Failed(NoSuchName))
    else if !s.standby[name].NameEntry? then (s, Failed(NotNamed))
    else
      var n := s.standby[name].named;
      if n.owner != from then (s, Failed(NotOwner))
      else if !unlinked then (s, Failed(UnlinkFailed))
      else (Withdraw(s, name).(index := Reduce(s.index, from, n), files := s.files - {name}), Ok)
  }

  /** How many routes of an owner's list `RemoveNames` unlinks. */
  function Unlinked(list: seq<NamedRoute>, failAt: nat): nat {
    if failAt < |list| then failAt else |list|
  }

  /** How many it replays and reports: `successes + 1`, which is one even when the first unlink fails. */
  function Reported(list: seq<NamedRoute>, failAt: nat): nat {
    if Unlinked(list, failAt) == 0 then 1 else Unlinked(list, failAt)
  }

  function DoRemoveNames(s: State, from: string, failAt: nat): (State, Reply)
    requires NonEmpty(s.index)
  {
    if from !in s.index then (s, Removed([], false))
    else
      var list := s.index[from];
      var gone := list[..Unlinked(list, failAt)];
      var replayed := list[..Reported(list, failAt)];
      (State(s.standby - NamesOf(gone), s.live - NamesOf(replayed),
             DropFirst(s.index, from, |gone|), s.files - NamesOf(gone)),
       Removed(replayed, |gone| < |list|))
  }

  function Apply(s: State, op: Op): (r: (State, Reply))
    requires NonEmpty(s.index)
    ensures NonEmpty(r.0.index)
  {
    match op
    case Online(p, seen, created, stored) => DoOnline(s, p, seen, created, stored)
    case Offline(p, seen, stored) => DoOffline(s, p, seen, stored)
    case AddName(n, stored) => DoAddName(s, n, stored)
    case RemoveName(name, from, unlinked) => DoRemoveName(s, name, from, unlinked)
    case RemoveNames(from, failAt) => DoRemoveNames(s, from, failAt)
  }
}
