/** The network proxy's port tables: the shared root and the part of one core (UmProxy.cc, UmProxy.h). */
module Proxy {
  import opened Wrappers
  import opened PortMap

  class ProxyRoot {
    var portSet: set<Port>
    var master: Bimap

    ghost function R(): Root
      reads this
    {
      Root(portSet, master)
    }

    constructor ()
      ensures R() == Initial({}).root && RootOk(R())
    {
      portSet := set p: Port | InRange(p);
      master := EMPTY;
    }

    /** allocate_port: the least port left, or 0. */
    method AllocatePort() returns (p: Port)
      modifies `portSet
      ensures if old(portSet) == {} then p == 0 && portSet == {}
              else p in old(portSet) && (forall q :: q in old(portSet) ==> p <= q) && portSet == old(portSet) - {p}
    {
      if portSet == {} {
        return 0;
      }
      p := Least(portSet);
      portSet := portSet - {p};
    }

    /** SetupExternalPortMapping, under the lock. */
    method SetupExternalPortMapping(id: nat, core: nat, port: Port) returns (nport: Port)
      requires RootOk(R())
      modifies this
      ensures var t := Internal(id, core, port);
              && nport == PortFor(old(R()), t) && R() == AfterSetup(old(R()), t)
              && RootOk(R()) && Grows(old(R()), R()) && Known(R(), nport, t)
    {
      var iport := Internal(id, core, port);
      SetupKeeps(R(), iport);
      if iport in master.right {
        return master.right[iport];
      }
      nport := AllocatePort();
      master := master.Insert(nport, iport);
    }

    /** ExternalPortLookup, under the lock. */
    method ExternalPortLookup(nport: Port) returns (t: Internal)
      ensures t == MappingOf(R(), nport)
    {
      if nport in master.left {
        return master.left[nport];
      }
      return NULL_MAPPING;
    }
  }

  /** What becomes of an external TCP packet. */
  datatype Incoming = Forward(core: nat) | Reset | Deliver(id: nat, port: Port, activate: bool)

  class UmProxy {
    const root: ProxyRoot
    const core: nat
    var umi: nat
    var cache: Bimap
    var hostSrc: map<Port, nat>

    ghost predicate Valid()
      reads this, root
    {
      RootOk(root.R()) && CacheOk(root.R(), cache)
    }

    constructor (root: ProxyRoot, core: nat)
      requires RootOk(root.R())
      ensures Valid() && this.root == root && this.core == core && umi == 0 && cache == EMPTY && hostSrc == map[]
    {
      this.root, this.core := root, core;
      umi, cache, hostSrc := 0, EMPTY, map[];
    }

    /** This core among others: with its instance, its cache and the root. */
    ghost function NatOf(others: map<nat, Core>): Nat
      reads this, root
    {
      Nat(root.R(), others[core := Core(cache, umi, Ready)])
    }

    method SetActiveInstance(id: nat)
      modifies `umi
      ensures umi == id
      ensures forall others :: Runs(old(NatOf(others)), [Activate(core, id)], NatOf(others), Nothing)
    {
      umi := id;
      forall others
        ensures Runs(old(NatOf(others)), [Activate(core, id)], NatOf(others), Nothing)
      {
        RunsOne(old(NatOf(others)), Activate(core, id));
      }
    }

    // ---------- External ports ----------

    /** swizzle_port_out: the external port of the active instance's internal port. It is a port of its own, unless
        the ports have run out. */
    method SwizzlePortOut(iport: Port) returns (nport: Port)
      requires Valid()
      modifies `cache, root
      ensures Valid() && Known(root.R(), nport, Internal(umi, core, iport)) && Grows(old(root.R()), root.R())
      ensures nport == 0 ==> root.R().free == {}
      ensures var t := Internal(umi, core, iport);
              if t in old(cache).right
              then nport == old(cache).right[t] && cache == old(cache) && root.R() == old(root.R())
              else nport == PortFor(old(root.R()), t) && cache == old(cache).Insert(nport, t)
                   && root.R() == AfterSetup(old(root.R()), t)
      ensures forall others ::
                Runs(old(NatOf(others)), OutSteps(old(NatOf(others)), core, iport), NatOf(others),
                     Out(Internal(umi, core, iport), nport))
    {
      nport := SwizzleOut(iport);
      forall others
        ensures Runs(old(NatOf(others)), OutSteps(old(NatOf(others)), core, iport), NatOf(others),
                     Out(Internal(umi, core, iport), nport))
      {
        OutRuns(old(NatOf(others)), core, iport);
      }
    }

    method SwizzleOut(iport: Port) returns (nport: Port)
      requires Valid()
      modifies `cache, root
      ensures Valid() && Known(root.R(), nport, Internal(umi, core, iport)) && Grows(old(root.R()), root.R())
      ensures nport == 0 ==> root.R().free == {}
      ensures var t := Internal(umi, core, iport);
              if t in old(cache).right
              then nport == old(cache).right[t] && cache == old(cache) && root.R() == old(root.R())
              else nport == PortFor(old(root.R()), t) && cache == old(cache).Insert(nport, t)
                   && root.R() == AfterSetup(old(root.R()), t)
    {
      var t := Internal(umi, core, iport);
      if t in cache.right {
        assert Known(root.R(), cache.right[t], cache.left[cache.right[t]]);
        return cache.right[t];
      }
      ghost var r := root.R();
      nport := root.SetupExternalPortMapping(umi, core, iport);
      CacheStays(r, root.R(), cache);
      InsertKeeps(root.R(), cache, nport, t);
      cache := cache.Insert(nport, t);
    }

    /** external_portmap_lookup; the root must have a mapping when the cache has none. */
    method ExternalPortmapLookup(nport: Port) returns (t: Internal)
      requires Valid() && (nport in cache.left || MappingOf(root.R(), nport) != NULL_MAPPING)
      modifies `cache
      ensures Valid() && Known(root.R(), nport, t)
      ensures t == if nport in old(cache).left then old(cache).left[nport] else MappingOf(root.R(), nport)
      ensures cache == if nport in old(cache).left then old(cache) else old(cache).Insert(nport, t)
      ensures forall others ::
                Runs(old(NatOf(others)), InSteps(old(NatOf(others)), core, nport), NatOf(others), In(nport, t))
    {
      t := Lookup(nport);
      forall others
        ensures Runs(old(NatOf(others)), InSteps(old(NatOf(others)), core, nport), NatOf(others), In(nport, t))
      {
        InRuns(old(NatOf(others)), core, nport);
      }
    }

    method Lookup(nport: Port) returns (t: Internal)
      requires Valid() && (nport in cache.left || MappingOf(root.R(), nport) != NULL_MAPPING)
      modifies `cache
      ensures Valid() && Known(root.R(), nport, t)
      ensures t == if nport in old(cache).left then old(cache).left[nport] else MappingOf(root.R(), nport)
      ensures cache == if nport in old(cache).left then old(cache) else old(cache).Insert(nport, t)
    {
      if nport in cache.left {
        return cache.left[nport];
      }
      t := root.ExternalPortLookup(nport);
      MappingKnown(root.R(), nport);
      InsertKeeps(root.R(), cache, nport, t);
      cache := cache.Insert(nport, t);
    }

    /** The triple of an external port as this core sees it. */
    ghost function Mapped(nport: Port): Internal
      reads this, root
    {
      if nport in cache.left then cache.left[nport] else MappingOf(root.R(), nport)
    }

    /** swizzle_port_in: the internal port of the triple; for a nonzero port, of the one it was given to. */
    method SwizzlePortIn(nport: Port) returns (iport: Port)
      requires Valid() && (nport in cache.left || MappingOf(root.R(), nport) != NULL_MAPPING)
      modifies `cache
      ensures Valid() && iport == old(Mapped(nport)).port
      ensures forall t :: Known(root.R(), nport, t) && nport != 0 ==> iport == t.port
    {
      var mapping := ExternalPortmapLookup(nport);
      return mapping.port;
    }

    /** The external branch of ProcessIncoming for a TCP packet: it goes to the core of the port's triple, and there
        to the instance, on the internal port, waking it up for a payload; alive are the instances of this core's
        manager. For a nonzero port the triple is the one the port was given to. */
    method ProcessIncoming(nport: Port, payload: nat, alive: set<nat>) returns (r: Incoming)
      requires Valid() && (nport in cache.left || MappingOf(root.R(), nport) != NULL_MAPPING)
      modifies `cache
      ensures Valid()
      ensures var t := old(Mapped(nport));
              r == if t.core != core then Forward(t.core) else if t.id !in alive then Reset
                   else Deliver(t.id, t.port, payload > 0)
      ensures forall t :: Known(root.R(), nport, t) && nport != 0 ==> t == old(Mapped(nport))
    {
      var mapping := ExternalPortmapLookup(nport);
      if core != mapping.core {
        return Forward(mapping.core);
      }
      if mapping.id !in alive {
        return Reset;
      }
      var port := SwizzlePortIn(nport);
      return Deliver(mapping.id, port, payload > 0);
    }

    // ---------- Internal ports ----------

    /** RegisterInternalPort: the first registration of a port stands. */
    method RegisterInternalPort(id: nat, srcPort: Port)
      modifies `hostSrc
      ensures hostSrc == if srcPort in old(hostSrc) then old(hostSrc) else old(hostSrc)[srcPort := id]
    {
      if srcPort in hostSrc {
        if id != hostSrc[srcPort] {
          return;
        }
      }
      if srcPort !in hostSrc {
        hostSrc := hostSrc[srcPort := id];
      }
    }

    method InternalPortLookup(hostSrcPort: Port) returns (id: nat)
      ensures id == if hostSrcPort in hostSrc then hostSrc[hostSrcPort] else 0
    {
      if hostSrcPort !in hostSrc {
        return 0;
      }
      return hostSrc[hostSrcPort];
    }

    /** RemoveInstanceState: registered are the ports the instance registered, if the manager has the instance.
        External ports are not freed. */
    method RemoveInstanceState(id: nat, registered: Option<seq<Port>>)
      modifies `umi, `hostSrc
      ensures umi == if old(umi) == id then 0 else old(umi)
      ensures forall p :: p in hostSrc <==> p in old(hostSrc) && !(registered.Some? && p in registered.value)
      ensures forall p :: p in hostSrc ==> hostSrc[p] == old(hostSrc)[p]
    {
      if umi == id {
        umi := 0;
      }
      if registered.None? {
        return;
      }
      var srcPorts, i := registered.value, 0;
      while i < |srcPorts|
        invariant 0 <= i <= |srcPorts| && umi == if old(umi) == id then 0 else old(umi)
        invariant forall p :: p in hostSrc <==> p in old(hostSrc) && p !in srcPorts[..i]
        invariant forall p :: p in hostSrc ==> hostSrc[p] == old(hostSrc)[p]
      {
        hostSrc := hostSrc - {srcPorts[i]};
        assert srcPorts[..i + 1] == srcPorts[..i] + [srcPorts[i]];
        i := i + 1;
      }
      assert srcPorts[..i] == srcPorts;
    }
  }
}
