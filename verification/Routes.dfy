/**
 The values the router handles (routertwo/host.go, namedroute.go, intermediate.go).

 Go compares sessions and named routes by pointer, so both are classes here and are compared by
 reference; their constant fields can still be read by pure functions.
 */
module Routes {

  datatype Option<+T> = None | Some(value: T)

  /** What the router sees of an ssh session: its identity and its FQDN. */
  class Peer {
    const fqdn: string

    constructor (fqdn: string)
      ensures this.fqdn == fqdn
    {
      this.fqdn := fqdn;
    }
  }

  /** A human friendly name for a peer. `router` is bound when the route enters a router. */
  class NamedRoute {
    const name: string
    const owner: string
    var router: object?

    /** NewName: every name a user asks for is lower-cased. */
    constructor NewName(s: string, from: Peer)
      ensures name == ToLower(s) && owner == from.fqdn && router == null
    {
      name := ToLower(s);
      owner := from.fqdn;
      router := null;
    }

    /** A route decoded from its file, not yet bound. */
    constructor Decoded(record: NameRecord)
      ensures name == record.name && owner == record.owner && router == null
    {
      name := record.name;
      owner := record.owner;
      router := null;
    }
  }

  /**
   What a routing table points at: a host, which is offline when it has no peer, or a named route. A host
   is only ever replaced by another one, so it is a value; the key it is found at is its name.
   */
  datatype Entry = HostEntry(peer: Peer?, lastSeen: int, created: int) | NameEntry(named: NamedRoute)

  // The two records a file can hold, and the wrapper that is written around them.
  datatype HostRecord = HostRecord(name: string, lastSeen: int, created: int)
  datatype NameRecord = NameRecord(name: string, owner: string)
  datatype Intermediate = Intermediate(host: Option<HostRecord>, named: Option<NameRecord>)

  /** The FQDN of the route a file holds. */
  function FqdnIn(i: Intermediate): string
    requires i.host.Some? || i.named.Some?
  {
    if i.host.Some? then i.host.value.name else i.named.value.name
  }

  /** The record stored for an entry at a key; the session is never stored. */
  function RecordOf(key: string, e: Entry): Intermediate {
    match e
    case HostEntry(_, lastSeen, created) => Intermediate(Some(HostRecord(key, lastSeen, created)), None)
    case NameEntry(n) => Intermediate(None, Some(NameRecord(n.name, n.owner)))
  }

  /** strings.ToLower, restricted to the ASCII letters a hostname is made of. */
  function ToLower(s: string): (r: string)
    ensures |r| == |s|
    ensures forall i | 0 <= i < |s| ::
      if 'A' <= s[i] <= 'Z' then 'a' <= r[i] <= 'z' && r[i] - 'a' == s[i] - 'A' else r[i] == s[i]
    ensures (forall i | 0 <= i < |s| :: !('A' <= s[i] <= 'Z')) ==> r == s
  {
    if s == [] then []
    else [if 'A' <= s[0] <= 'Z' then s[0] + ('a' - 'A') else s[0]] + ToLower(s[1..])
  }
}
