/**
 What every edit keeps: the two tables agree, the owner index agrees with the table, and the disk
 holds the table's routes.

 One edit breaks this: a `RemoveNames` whose very first unlink fails (routertwo/router.go:324-345)
 deletes the first route from the table that was live before and nowhere else. It is excluded by name
 (`FirstUnlinkFails`) and shown to be the only way for the tables to part.
 */
module Invariants {
  import opened Routes
  import opened RouterSpec

  // ---------- the invariant ----------

  ghost predicate Agree(s: State) {
    s.live == s.standby
  }

  /** Every named route in the table sits under its own name and in its owner's list. */
  ghost predicate Listed(t: Table, ix: Index) {
    forall k | k in t && t[k].NameEntry? ::
      t[k].named.name == k && t[k].named.owner in ix && t[k].named in ix[t[k].named.owner]
  }

  /** Every listed route has the right owner and is in the table, itself or as the host that took its name. */
  ghost predicate Backed(t: Table, ix: Index) {
    forall o, i | o in ix && 0 <= i < |ix[o]| ::
      var n := ix[o][i];
      n.owner == o && n.name in t && (t[n.name].HostEntry? || t[n.name].named == n)
  }

  /** No name is listed twice, in one list or in two. */
  ghost predicate Distinct(ix: Index) {
    forall o, i, p, j | o in ix && p in ix && 0 <= i < |ix[o]| && 0 <= j < |ix[p]| && ix[o][i].name == ix[p][j].name ::
      o == p && i == j
  }

  ghost predicate Indexed(t: Table, ix: Index) {
    NonEmpty(ix) && Listed(t, ix) && Backed(t, ix) && Distinct(ix)
  }

  /** A session is only ever found at its own FQDN. */
  ghost predicate HostsKeyed(t: Table) {
    forall k | k in t :: PeerAt(t, k) != null ==> PeerAt(t, k).fqdn == k
  }

  /** The record recalls the entry, up to the session and the time it was last seen. */
  predicate Recalls(i: Intermediate, key: string, e: Entry) {
    match e
    case HostEntry(_, _, created) =>
      i.named == None && i.host.Some? && i.host.value.name == key && i.host.value.created == created
    case NameEntry(n) => n.name == key && i == RecordOf(key, e)
  }

  ghost predicate Persisted(t: Table, files: Files) {
    files.Keys == t.Keys && forall k | k in t :: Recalls(files[k], k, t[k])
  }

  ghost predicate Inv(s: State) {
    Agree(s) && Indexed(s.live, s.index) && HostsKeyed(s.live) && Persisted(s.live, s.files)
  }

  /** The one failure after which the tables differ. */
  predicate FirstUnlinkFails(s: State, op: Op) {
    op.RemoveNames? && op.from in s.index && op.failAt == 0
  }

  /** A `RemoveNames` that gets to the key: it is among the names unlinked before the first failure. */
  predicate Drops(ix: Index, op: Op, key: string) {
    op.RemoveNames? && op.from in ix && key in NamesOf(ix[op.from][..Unlinked(ix[op.from], op.failAt)])
  }

  /**
   The edits that put something else at a key or take it away: requests that are refused or fail are not
   among them.
   */
  predicate Touches(s: State, op: Op, key: string) {
    match op
    case Online(p, _, _, stored) => p.fqdn == key && stored
    case Offline(p, _, _) => p.fqdn == key && PeerAt(s.live, key) == p
    case AddName(n, stored) => n.name == key && stored && key !in s.standby
    case RemoveName(name, from, unlinked) =>
      name == key && unlinked && key in s.standby && s.standby[key].NameEntry? && s.standby[key].named.owner == from
    case RemoveNames(_, _) => Drops(s.index, op, key)
  }

  // ---------- the invariant is kept ----------

  /** The first occurrence of `n` in a list, cut out. */
  lemma {:induction false} WithoutAt(l: seq<NamedRoute>, n: NamedRoute) returns (i: nat)
    requires n in l
    ensures i < |l| && l[i] == n && Without(l, n) == l[..i] + l[i + 1..]
  {
    if l[0] == n {
      i := 0;
    } else {
      var j := WithoutAt(l[1..], n);
      i := j + 1;
      assert l == [l[0]] + l[1..];
    }
  }

  /** The index with the `i`th route of one owner cut out. */
  ghost predicate IsCut(ix: Index, o: string, i: nat, ix': Index)
    requires o in ix && i < |ix[o]|
  {
    && ix'.Keys == (if |ix[o]| == 1 then ix.Keys - {o} else ix.Keys)
    && (forall p | p in ix' && p != o :: ix'[p] == ix[p])
    && (o in ix' ==> ix'[o] == ix[o][..i] + ix[o][i + 1..])
  }

  /** Where what is now at `j` was before the cut. */
  function UncutAt(o: string, i: nat, p: string, j: nat): nat {
    if p == o && i <= j then j + 1 else j
  }

  lemma CutIsDistinct(ix: Index, o: string, i: nat, ix': Index)
    requires Distinct(ix) && o in ix && i < |ix[o]| && IsCut(ix, o, i, ix')
    ensures Distinct(ix')
    ensures forall p, j | p in ix' && 0 <= j < |ix'[p]| :: ix'[p][j].name != ix[o][i].name
  {
    forall p, j | p in ix' && 0 <= j < |ix'[p]|
      ensures p in ix && UncutAt(o, i, p, j) < |ix[p]| && ix'[p][j] == ix[p][UncutAt(o, i, p, j)]
    {
    }
  }

  lemma CutIsListed(t: Table, ix: Index, o: string, i: nat, ix': Index)
    requires Indexed(t, ix) && o in ix && i < |ix[o]| && IsCut(ix, o, i, ix')
    ensures Listed(t - {ix[o][i].name}, ix')
  {
  }

  lemma CutIsBacked(t: Table, ix: Index, o: string, i: nat, ix': Index)
    requires Backed(t, ix) && Distinct(ix) && o in ix && i < |ix[o]| && IsCut(ix, o, i, ix')
    ensures Backed(t - {ix[o][i].name}, ix')
  {
  }

  lemma OnlineKeeps(s: State, p: Peer, seen: int, created: int, stored: bool)
    requires Inv(s)
    ensures Inv(DoOnline(s, p, seen, created, stored).0)
  {
  }

  lemma OfflineKeeps(s: State, p: Peer, seen: int, stored: bool)
    requires Inv(s)
    ensures Inv(DoOffline(s, p, seen, stored).0)
  {
  }

  lemma EnlistKeeps(t: Table, ix: Index, n: NamedRoute)
    requires Indexed(t, ix) && n.name !in t
    ensures Indexed(t[n.name := NameEntry(n)], Enlist(ix, n))
  {
    var ix' := Enlist(ix, n);
    assert ix'[n.owner][|ix'[n.owner]| - 1] == n;
    assert forall o, i {:trigger ix'[o][i]} | o in ix' && 0 <= i < |ix'[o]| ::
        (ix'[o][i] == n && o == n.owner && i == |ix'[o]| - 1) ||
        (o in ix && i < |ix[o]| && ix'[o][i] == ix[o][i] && ix[o][i].name != n.name);
    forall k | k in t && t[k].NameEntry? ensures t[k].named.owner in ix' && t[k].named in ix'[t[k].named.owner] {
      assert t[k].named in ix[t[k].named.owner];
    }
  }

  lemma AddNameKeeps(s: State, n: NamedRoute, stored: bool)
    requires Inv(s)
    ensures Inv(DoAddName(s, n, stored).0)
  {
    if n.name !in s.live && stored {
      EnlistKeeps(s.live, s.index, n);
    }
  }

  lemma RemoveNameKeeps(s: State, name: string, from: string, unlinked: bool)
    requires Inv(s)
    ensures Inv(DoRemoveName(s, name, from, unlinked).0)
  {
    if DoRemoveName(s, name, from, unlinked).1 == Ok {
      var n := s.live[name].named;
      var i := WithoutAt(s.index[from], n);
      var ix' := Reduce(s.index, from, n);
      assert IsCut(s.index, from, i, ix');
      CutIsDistinct(s.index, from, i, ix');
      CutIsListed(s.live, s.index, from, i, ix');
      CutIsBacked(s.live, s.index, from, i, ix');
    }
  }

  lemma DropFirstKeeps(t: Table, ix: Index, o: string, k: nat)
    requires Indexed(t, ix) && o in ix && k <= |ix[o]|
    ensures Indexed(t - NamesOf(ix[o][..k]), DropFirst(ix, o, k))
  {
  }

  lemma RemoveNamesKeeps(s: State, from: string, failAt: nat)
    requires Inv(s) && !FirstUnlinkFails(s, RemoveNames(from, failAt))
    ensures Inv(DoRemoveNames(s, from, failAt).0)
  {
    if from in s.index {
      DropFirstKeeps(s.live, s.index, from, Unlinked(s.index[from], failAt));
      hide Indexed, NamesOf, DropFirst;
    }
  }

  /** Every edit but the excluded one keeps the whole invariant, whatever its disk calls return. */
  lemma ApplyKeeps(s: State, op: Op)
    requires Inv(s) && !FirstUnlinkFails(s, op)
    ensures Inv(Apply(s, op).0)
  {
    match op
    case Online(p, seen, created, stored) => OnlineKeeps(s, p, seen, created, stored);
    case Offline(p, seen, stored) => OfflineKeeps(s, p, seen, stored);
    case AddName(n, stored) => AddNameKeeps(s, n, stored);
    case RemoveName(name, from, unlinked) => RemoveNameKeeps(s, name, from, unlinked);
    case RemoveNames(from, failAt) => RemoveNamesKeeps(s, from, failAt);
  }

  // ---------- the tables agree, and when they stop agreeing ----------

  /**
   What the excluded failure leaves behind: readers still find the first route and it is still listed
   and on disk, yet it is gone from the standby table and was reported as removed.
   */
  lemma FirstUnlinkLeaves(s: State, op: Op)
    requires Inv(s) && FirstUnlinkFails(s, op)
    ensures var r := Apply(s, op);
            var first := s.index[op.from][0];
            && r.1 == Removed([first], true)
            && r.0 == s.(standby := s.live - {first.name})
            && first.name in r.0.live && first.name !in r.0.standby && first.name in r.0.files
  {
    var list := s.index[op.from];
    assert list[..1] == [list[0]] && list[0..] == list;
    assert NamesOf(list[..1]) == {list[0].name};
    assert NamesOf(list[..0]) == {};
    assert s.index[op.from := list] == s.index;
  }

  /** From a good state, the tables agree after an edit exactly when it is not the excluded failure. */
  lemma AgreeExactlyWhen(s: State, op: Op)
    requires Inv(s)
    ensures Agree(Apply(s, op).0) <==> !FirstUnlinkFails(s, op)
  {
    if FirstUnlinkFails(s, op) {
      FirstUnlinkLeaves(s, op);
    } else {
      ApplyKeeps(s, op);
    }
  }

  /** The edits that exchange the tables. */
  predicate Exchanges(s: State, op: Op) {
    match op
    case Online(_, _, _, stored) => stored
    case Offline(p, _, _) => PeerAt(s.live, p.fqdn) == p
    case AddName(n, stored) => stored && n.name !in s.standby
    case RemoveName(name, from, unlinked) =>
      unlinked && name in s.standby && s.standby[name].NameEntry? && s.standby[name].named.owner == from
    case RemoveNames(from, _) => from in s.index
  }

  /**
   The edits that change a key in a table: those that touch it, and a `RemoveNames` that reports it without
   unlinking it.
   */
  predicate Disturbs(s: State, op: Op, key: string) {
    || Touches(s, op, key)
    || (op.RemoveNames? && op.from in s.index && s.index[op.from] != [] &&
        key in NamesOf(s.index[op.from][..Reported(s.index[op.from], op.failAt)]))
  }

  /**
   What any edit does at a key it does not change, whether the tables agree or not: if it exchanges the
   tables, readers find there what the other table held; if not, nothing has changed at all.
   */
  lemma ExchangeSwaps(s: State, op: Op, key: string)
    requires NonEmpty(s.index) && !Disturbs(s, op, key)
    ensures var s' := Apply(s, op).0;
            if Exchanges(s, op)
            then Get(s'.live, key) == Get(s.standby, key) && Get(s'.standby, key) == Get(s.live, key)
            else s' == s
  {
    hide Enlist, Reduce, DropFirst, RecordOf;
    if op.RemoveNames? && op.from in s.index {
      var list := s.index[op.from];
      assert list != [];
      assert forall n | n in list[..Unlinked(list, op.failAt)] :: n in list[..Reported(list, op.failAt)];
    }
  }

  // ---------- RemoveNames ----------

  lemma NamesCount(l: seq<NamedRoute>)
    requires forall i, j | 0 <= i < j < |l| :: l[i].name != l[j].name
    ensures |NamesOf(l)| == |l|
  {
    if l != [] {
      var init, last := l[..|l| - 1], l[|l| - 1];
      NamesCount(init);
      assert l == init + [last];
      assert NamesOf(l) == NamesOf(init) + {last.name};
    }
  }

  lemma SizeAfterRemoval<V>(t: map<string, V>, gone: set<string>)
    requires gone <= t.Keys
    ensures |t - gone| == |t| - |gone|
  {
  }

  lemma RemovalKeys(s: State, from: string, k: nat)
    requires Inv(s) && from in s.index && k <= |s.index[from]|
    ensures var list := s.index[from];
            var gone := NamesOf(list[..k]);
            && (forall i | 0 <= i < |list| :: list[i].name in s.live - gone <==> k <= i)
            && (forall i | 0 <= i < |list| :: list[i].name in s.files - gone <==> k <= i)
  {
  }

  lemma DistinctPrefix(ix: Index, o: string, k: nat)
    requires Distinct(ix) && o in ix && k <= |ix[o]|
    ensures forall i, j | 0 <= i < j < k :: ix[o][..k][i].name != ix[o][..k][j].name
  {
  }

  lemma RemovalSizes(s: State, from: string, k: nat)
    requires Inv(s) && from in s.index && k <= |s.index[from]|
    ensures var gone := NamesOf(s.index[from][..k]);
            |s.live - gone| == |s.live| - k && |s.files - gone| == |s.files| - k
  {
    var gone := s.index[from][..k];
    DistinctPrefix(s.index, from, k);
    NamesCount(gone);
    assert NamesOf(gone) <= s.live.Keys by {
      assert forall n | n in gone :: n in s.index[from];
    }
    SizeAfterRemoval(s.live, NamesOf(gone));
    SizeAfterRemoval(s.files, NamesOf(gone));
  }

  lemma RemovesPrefix(s: State, from: string, failAt: nat, k: nat)
    requires NonEmpty(s.index) && s.live == s.standby && from in s.index
    requires failAt > 0 && k == Unlinked(s.index[from], failAt)
    ensures var list := s.index[from];
            var (s', reply) := Apply(s, RemoveNames(from, failAt));
            && reply == Removed(list[..k], k < |list|)
            && s'.live == s.live - NamesOf(list[..k]) && s'.standby == s'.live
            && s'.files == s.files - NamesOf(list[..k])
            && (k < |list| ==> s'.index == s.index[from := list[k..]])
            && (k == |list| ==> s'.index == s.index - {from})
  {
  }

  /**
   `RemoveNames` removes exactly a prefix of the owner's list: with unlink `k` the first to fail
   (`k > 0`, or the length of the list), both tables and the disk lose the `k` keys of the prefix and
   nothing else, the index keeps exactly the rest, and the prefix is what is reported.
   */
  lemma RemovesExactlyPrefix(s: State, from: string, failAt: nat)
    requires Inv(s) && from in s.index && failAt > 0
    ensures var list := s.index[from];
            var k := if failAt < |list| then failAt else |list|;
            var r := Apply(s, RemoveNames(from, failAt));
            && r.1 == Removed(list[..k], k < |list|)
            && r.0.live == r.0.standby
            && |r.0.live| == |s.live| - k && |r.0.files| == |s.files| - k
            && (forall i | 0 <= i < |list| :: list[i].name in r.0.live <==> k <= i)
            && (forall i | 0 <= i < |list| :: list[i].name in r.0.files <==> k <= i)
            && (forall key | key in r.0.live :: key in s.live && r.0.live[key] == s.live[key])
            && (forall key | key in r.0.files :: key in s.files && r.0.files[key] == s.files[key])
            && (k < |list| ==> r.0.index == s.index[from := list[k..]])
            && (k == |list| ==> r.0.index == s.index - {from})
  {
    var list := s.index[from];
    var k := if failAt < |list| then failAt else |list|;
    assert k == Unlinked(list, failAt) && s.live == s.standby;
    hide *;
    RemovesPrefix(s, from, failAt, k);
    RemovalKeys(s, from, k);
    RemovalSizes(s, from, k);
  }

  // ---------- what an owner's list tells ----------

  /** The names listed for an owner are those routed to it, and those a host has taken over since. */
  lemma NamesListedExactly(s: State, owner: string, k: string)
    requires Inv(s)
    ensures var listed := k in NamesOf(if owner in s.index then s.index[owner] else []);
            && (k in s.live && s.live[k].NameEntry? ==> (listed <==> s.live[k].named.owner == owner))
            && (listed ==> k in s.live)
  {
  }

  // ---------- what an edit answers ----------

  /** A named route of this owner is found at the key. */
  predicate OwnedBy(t: Table, key: string, owner: string) {
    key in t && t[key].NameEntry? && t[key].named.owner == owner
  }

  /**
   What each edit answers, and when, in any state: every error has its cause, and success has none of them. An
   edit decides by the table it is about to change.
   */
  lemma AnswersExactly(s: State, op: Op)
    requires NonEmpty(s.index)
    ensures var r, t := Apply(s, op).1, s.standby;
            match op
            case Online(p, _, _, stored) =>
              && (r == Failed(StoreFailed) <==> !stored)
              && (r == Registered(true) <==> stored && PeerAt(t, p.fqdn) != null)
              && (r == Registered(false) <==> stored && PeerAt(t, p.fqdn) == null)
            case Offline(_, _, _) => r == Ok
            case AddName(n, stored) =>
              && (r == Ok <==> (n.name !in t && stored) || OwnedBy(t, n.name, n.owner))
              && (r == Failed(Occupied) <==> n.name in t && !OwnedBy(t, n.name, n.owner))
              && (r == Failed(StoreFailed) <==> n.name !in t && !stored)
            case RemoveName(name, from, unlinked) =>
              && (r == Ok <==> OwnedBy(t, name, from) && unlinked)
              && (r == Failed(UnlinkFailed) <==> OwnedBy(t, name, from) && !unlinked)
              && (r == Failed(NoSuchName) <==> name !in t)
              && (r == Failed(NotNamed) <==> name in t && t[name].HostEntry?)
              && (r == Failed(NotOwner) <==> name in t && t[name].NameEntry? && !OwnedBy(t, name, from))
            case RemoveNames(from, failAt) =>
              && (r == Removed([], false) <==> from !in s.index)
              && (r.Removed? && r.failed <==> from in s.index && failAt < |s.index[from]|)
  {
    hide Enlist, Reduce, DropFirst, RecordOf;
  }

  // ---------- what an edit writes ----------

  ghost predicate BothHold(s: State, key: string, e: Option<Entry>) {
    Get(s.live, key) == e && Get(s.standby, key) == e
  }

  /**
   What each edit of a single key leaves there, in any state, when it does anything: the same entry in both
   tables, and its file. A host that comes online is created anew unless the table about to change knows it; a
   session that leaves keeps the creation time readers see.
   */
  lemma EditWrites(s: State, op: Op)
    requires NonEmpty(s.index) && Exchanges(s, op)
    ensures var s' := Apply(s, op).0;
            match op
            case Online(p, seen, created, _) =>
              var known := p.fqdn in s.standby && s.standby[p.fqdn].HostEntry?;
              var since := if known then s.standby[p.fqdn].created else created;
              && BothHold(s', p.fqdn, Some(HostEntry(p, seen, since))) && s'.index == s.index
              && s'.files == s.files[p.fqdn := Intermediate(Some(HostRecord(p.fqdn, seen, since)), None)]
            case Offline(p, seen, stored) =>
              var since := s.live[p.fqdn].created;
              && BothHold(s', p.fqdn, Some(HostEntry(null, seen, since))) && s'.index == s.index
              && (stored ==> s'.files == s.files[p.fqdn := Intermediate(Some(HostRecord(p.fqdn, seen, since)), None)])
              && (!stored ==> s'.files == s.files)
            case AddName(n, _) =>
              && BothHold(s', n.name, Some(NameEntry(n)))
              && s'.files == s.files[n.name := Intermediate(None, Some(NameRecord(n.name, n.owner)))]
            case RemoveName(name, _, _) =>
              BothHold(s', name, None) && s'.files == s.files - {name}
            case RemoveNames(from, failAt) =>
              s'.files == s.files - NamesOf(s.index[from][..Unlinked(s.index[from], failAt)])
  {
    hide Enlist, Reduce, NonEmpty;
  }

  // ---------- errors ----------

  /** An `Online`, `AddName` or `RemoveName` that fails leaves everything as it was. */
  lemma FailureChangesNothing(s: State, op: Op)
    requires NonEmpty(s.index)
    ensures Apply(s, op).1.Failed? ==> Apply(s, op).0 == s
  {
  }
}
