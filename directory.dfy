/** The route directory as a value: the alias table (full callsign to base
    callsign) and the base table (base callsign to host record), with the
    lookups and updates of `CM17RouteMap` as functions on it. */
module Directory {
  import opened Text
  import opened Callsign

  /** A 16-bit unsigned port. */
  type Port = n: nat | n < 0x1_0000

  /** A host record. An empty string means the field is not set. */
  datatype Host = Host(url: string, ip4addr: string, ip6addr: string, port: Port)

  /** An address argument as it is stored: the empty string and the
      sentinel "none" both leave the field empty. */
  function Address(s: string): string {
    if s != "" && s != "none" then s else ""
  }

  /** The fresh record that an update installs. */
  function NewHost(url: string, ip4addr: string, ip6addr: string, port: Port): Host {
    Host(url, Address(ip4addr), Address(ip6addr), port)
  }

  function Get<K, V>(m: map<K, V>, k: K): Option<V> {
    if k in m then Some(m[k]) else None
  }

  datatype Dir = Dir(aliases: map<string, string>, bases: map<string, Host>) {

    /** What every reachable directory satisfies: each alias maps to the
        base of its own key, and no stored address is the sentinel. */
    ghost predicate Valid() {
      && (forall a :: a in aliases ==> Base(a) == Some(aliases[a]))
      && (forall b :: b in bases ==> bases[b].ip4addr != "none" && bases[b].ip6addr != "none")
    }

    /** Exact lookup: the alias table gives the base, the base table gives
        the record. */
    function Find(call: string): (r: Option<Host>)
      ensures r.Some? <==> call in aliases && aliases[call] in bases
      ensures r.Some? ==> r.value == bases[aliases[call]]
    {
      match Get(aliases, call)
      case None => None
      case Some(b) => Get(bases, b)
    }

    /** Structural lookup: derive the base from the callsign and look it
        up in the base table, bypassing the alias table. */
    function FindBase(call: string): (r: Option<Host>)
      ensures r.Some? <==> Base(call).Some? && Base(call).value in bases
      ensures r.Some? ==> r.value == bases[Base(call).value]
    {
      match Base(call)
      case None => None
      case Some(b) => Get(bases, b)
    }

    /** Registers `call` (keeping the base it already has, if any) and
        replaces the record of its base by a fresh one. A rejected
        callsign leaves the directory as it is. */
    function Update(call: string, url: string, ip4addr: string, ip6addr: string, port: Port): (r: Dir)
      ensures Base(call).None? ==> r == this
      ensures Base(call).Some? ==>
        && r.aliases.Keys == aliases.Keys + {call}
        && r.bases.Keys == bases.Keys + {TargetBase(call)}
    {
      match Base(call)
      case None => this
      case Some(derived) =>
        var b := if call in aliases then aliases[call] else derived;
        var a := if call in aliases then aliases else aliases[call := derived];
        Dir(a, bases[b := NewHost(url, ip4addr, ip6addr, port)])
    }

    /** Removes the alias `call`; the base table is not touched. */
    function Erase(call: string): (r: Dir)
      ensures r.bases == bases && r.aliases.Keys == aliases.Keys - {call}
      ensures forall a :: a in r.aliases ==> r.aliases[a] == aliases[a]
    {
      Dir(aliases - {call}, bases)
    }

    /** The base an accepted update of `call` writes to. */
    function TargetBase(call: string): string
      requires Base(call).Some?
    {
      if call in aliases then aliases[call] else Base(call).value
    }
  }

  const Empty: Dir := Dir(map[], map[])

  lemma EmptyIsValid()
    ensures Empty.Valid() && Empty.aliases.Keys == {} && Empty.bases.Keys == {}
  {
  }

  /** A callsign whose first delimiter is at index 0, 1 or 2 changes
      nothing and is not found by its base. */
  lemma UpdateRejected(d: Dir, call: string, url: string, ip4addr: string, ip6addr: string, port: Port)
    requires Rejected(call)
    ensures d.Update(call, url, ip4addr, ip6addr, port) == d
    ensures d.FindBase(call) == None
  {
    BaseSpec(call);
  }

  /** Exactly the non-rejected callsigns are accepted by an update. */
  lemma UpdateAccepts(d: Dir, call: string, url: string, ip4addr: string, ip6addr: string, port: Port)
    requires !Rejected(call)
    ensures call in d.Update(call, url, ip4addr, ip6addr, port).aliases
  {
    BaseSpec(call);
  }

  /** After an accepted update, the exact lookup returns a record holding
      the arguments, with "" and "none" addresses stored as empty. */
  lemma UpdateStores(d: Dir, call: string, url: string, ip4addr: string, ip6addr: string, port: Port)
    requires !Rejected(call)
    ensures var r := d.Update(call, url, ip4addr, ip6addr, port).Find(call);
      && r.Some?
      && r.value.url == url
      && r.value.ip4addr == (if ip4addr == "" || ip4addr == "none" then "" else ip4addr)
      && r.value.ip6addr == (if ip6addr == "" || ip6addr == "none" then "" else ip6addr)
      && r.value.port == port
  {
    BaseSpec(call);
  }

  /** An update changes only the alias entry of a new callsign and the
      record of its target base, and replaces that record wholesale: the
      new record depends on the arguments only, not on the old record. */
  lemma UpdateFrame(d: Dir, call: string, url: string, ip4addr: string, ip6addr: string, port: Port)
    requires !Rejected(call)
    ensures var e := d.Update(call, url, ip4addr, ip6addr, port);
      var b := d.TargetBase(call);
      && e.aliases.Keys == d.aliases.Keys + {call}
      && (forall a :: a in d.aliases ==> e.aliases[a] == d.aliases[a])
      && e.aliases[call] == b
      && e.bases.Keys == d.bases.Keys + {b}
      && (forall x :: x in d.bases && x != b ==> e.bases[x] == d.bases[x])
      && e.bases[b] == Host(url, Address(ip4addr), Address(ip6addr), port)
  {
    BaseSpec(call);
  }

  /** An alias already present keeps its base; a new alias gets the part of
      the callsign before its first delimiter. */
  lemma UpdateAliasStable(d: Dir, call: string, url: string, ip4addr: string, ip6addr: string, port: Port)
    requires !Rejected(call)
    ensures var e := d.Update(call, url, ip4addr, ip6addr, port);
      && (call in d.aliases ==> e.aliases[call] == d.aliases[call])
      && (call !in d.aliases ==> e.aliases[call] == Base(call).value)
  {
    BaseSpec(call);
  }

  lemma {:induction false} UpdatePreservesValid(d: Dir, call: string, url: string, ip4addr: string, ip6addr: string, port: Port)
    requires d.Valid()
    ensures d.Update(call, url, ip4addr, ip6addr, port).Valid()
  {
    var e := d.Update(call, url, ip4addr, ip6addr, port);
    if Base(call).Some? {
      forall a | a in e.aliases ensures Base(a) == Some(e.aliases[a]) {
        if a != call {
          assert a in d.aliases;
        }
      }
    }
  }

  /** In a reachable directory the two lookup paths agree on every
      registered alias. */
  lemma FindAgreesWithFindBase(d: Dir, call: string)
    requires d.Valid() && call in d.aliases
    ensures d.FindBase(call) == d.Find(call)
  {
    assert Base(call) == Some(d.aliases[call]);
  }

  /** After an update of `call` in a reachable directory, both lookups give
      the record just stored. */
  lemma {:induction false} UpdateThenLookups(d: Dir, call: string, url: string, ip4addr: string, ip6addr: string, port: Port)
    requires d.Valid() && !Rejected(call)
    ensures var e := d.Update(call, url, ip4addr, ip6addr, port);
      && e.Find(call) == Some(NewHost(url, ip4addr, ip6addr, port))
      && e.FindBase(call) == e.Find(call)
  {
    BaseSpec(call);
    UpdatePreservesValid(d, call, url, ip4addr, ip6addr, port);
    FindAgreesWithFindBase(d.Update(call, url, ip4addr, ip6addr, port), call);
  }

  /** Two aliases with the same base share one record: the last update of
      either decides what both find. */
  lemma SharedBaseLastWriteWins(d: Dir, c1: string, c2: string, url: string, ip4addr: string, ip6addr: string, port: Port)
    requires d.Valid() && c1 in d.aliases && Base(c2) == Some(d.aliases[c1])
    ensures var e := d.Update(c2, url, ip4addr, ip6addr, port);
      e.Find(c1) == e.Find(c2) == Some(NewHost(url, ip4addr, ip6addr, port))
  {
    if c2 in d.aliases {
      assert Base(c2) == Some(d.aliases[c2]);
    }
  }

  /** Erasing removes only that alias: the exact lookup of it misses, every
      other alias and the whole base table are unchanged, so the structural
      lookup of the same callsign still gives what it gave before. */
  lemma EraseRemovesAliasOnly(d: Dir, call: string)
    ensures var e := d.Erase(call);
      && e.Find(call) == None
      && e.bases == d.bases
      && e.aliases.Keys == d.aliases.Keys - {call}
      && (forall a :: a in e.aliases ==> e.aliases[a] == d.aliases[a] && e.Find(a) == d.Find(a))
      && e.FindBase(call) == d.FindBase(call)
      && (call !in d.aliases ==> e == d)
      && (d.Valid() ==> e.Valid())
  {
  }
}
