/** The NAT port map, on values: one locked master map of all cores, a cache on every core, and the steps of the
    cores in any interleaving. */
module PortMap {
  type Port = p: nat | p < 0x1_0000

  /** internal_port_t: instance, core and internal port. */
  datatype Internal = Internal(id: nat, core: nat, port: Port)

  const NULL_MAPPING := Internal(0, 0, 0)

  const PORT_MIN: Port := 256
  const PORT_MAX: Port := 32000

  predicate InRange(p: Port) {
    PORT_MIN <= p < PORT_MAX
  }

  /** boost::bimap: both directions; an insertion fails when either key exists. */
  datatype Bimap = Bimap(left: map<Port, Internal>, right: map<Internal, Port>) {

    predicate Valid() {
      && (forall p :: p in left ==> left[p] in right && right[left[p]] == p)
      && (forall t :: t in right ==> right[t] in left && left[right[t]] == t)
    }

    function Insert(p: Port, t: Internal): (b: Bimap)
      ensures Valid() ==> b.Valid()
    {
      if p in left || t in right then this else Bimap(left[p := t], right[t := p])
    }

    /** The pairs of this map with a nonzero port are among those of b. */
    predicate NonzeroWithin(b: Bimap) {
      forall p :: p in left && p != 0 ==> p in b.left && b.left[p] == left[p]
    }

    predicate MapsNonzero(t: Internal) {
      t in right && right[t] != 0
    }
  }

  const EMPTY := Bimap(map[], map[])

  // ---------- The root ----------

  /** ProxyRoot: the ports left to allocate, and the master map. */
  datatype Root = Root(free: set<Port>, master: Bimap)

  lemma {:induction false} LeastExists(s: set<Port>) returns (least: Port)
    requires s != {}
    ensures least in s && forall q :: q in s ==> least <= q
  {
    var x :| x in s;
    if s == {x} {
      least := x;
    } else {
      var y := LeastExists(s - {x});
      least := if x <= y then x else y;
      assert forall q :: q in s ==> q == x || q in s - {x};
    }
  }

  function Least(s: set<Port>): (p: Port)
    requires s != {}
    ensures p in s && forall q :: q in s ==> p <= q
  {
    assert exists p: Port :: p in s && forall q :: q in s ==> p <= q by {
      var least := LeastExists(s);
    }
    var p: Port :| p in s && forall q :: q in s ==> p <= q;
    p
  }

  /** The port that SetupExternalPortMapping returns for t: the one it has, or a new one; 0 when none is left. */
  function PortFor(r: Root, t: Internal): Port {
    if t in r.master.right then r.master.right[t]
    else if r.free == {} then 0
    else Least(r.free)
  }

  /** SetupExternalPortMapping. */
  function AfterSetup(r: Root, t: Internal): Root {
    if t in r.master.right then r
    else Root(if r.free == {} then {} else r.free - {Least(r.free)}, r.master.Insert(PortFor(r, t), t))
  }

  /** ExternalPortLookup. */
  function MappingOf(r: Root, p: Port): Internal {
    if p in r.master.left then r.master.left[p] else NULL_MAPPING
  }

  /** The free ports and the nonzero mapped ones partition the port range; port 0 is mapped only when no port is
      left. */
  ghost predicate RootOk(r: Root) {
    && r.master.Valid()
    && (forall p: Port :: InRange(p) <==> p in r.free || (p in r.master.left && p != 0))
    && (forall p :: p in r.free ==> p !in r.master.left)
    && (0 in r.master.left ==> r.free == {})
  }

  /** The map of nonzero ports grows, and only while ports are left. */
  ghost predicate Grows(r: Root, r': Root) {
    && r.master.NonzeroWithin(r'.master) && r'.free <= r.free
    && (r.free == {} ==> r'.master.NonzeroWithin(r.master))
  }

  lemma SetupKeeps(r: Root, t: Internal)
    requires RootOk(r)
    ensures RootOk(AfterSetup(r, t)) && Grows(r, AfterSetup(r, t))
    ensures var p := PortFor(r, t);
            if p != 0 then p in AfterSetup(r, t).master.left && AfterSetup(r, t).master.left[p] == t
            else AfterSetup(r, t).free == {} && !AfterSetup(r, t).master.MapsNonzero(t)
  {
  }

  /** The exception, exactly: the port is 0 if and only if none is left and t has no other. */
  lemma ZeroWhenExhausted(r: Root, t: Internal)
    requires RootOk(r)
    ensures PortFor(r, t) == 0 <==> r.free == {} && !r.master.MapsNonzero(t)
  {
  }

  /** Two instances that ask after the ports have run out share port 0, and a lookup finds only the first. */
  lemma ZeroIsShared(r: Root, t: Internal, u: Internal)
    requires RootOk(r) && r.free == {} && 0 !in r.master.left && t != u
    requires t !in r.master.right && u !in r.master.right
    ensures var r1 := AfterSetup(r, t);
            && PortFor(r, t) == 0 && PortFor(r1, u) == 0
            && MappingOf(AfterSetup(r1, u), 0) == t
  {
  }

  // ---------- Running out ----------

  predicate Within(p: Port, lo: Port, hi: Port) {
    lo <= p < hi
  }

  function Between(lo: Port, hi: Port): set<Port> {
    set p: Port | Within(p, lo, hi)
  }

  lemma {:induction false} BetweenSize(lo: Port, hi: Port)
    requires lo <= hi
    ensures |Between(lo, hi)| == hi - lo
    decreases hi
  {
    if lo == hi {
      assert Between(lo, hi) == {};
    } else {
      BetweenSize(lo, hi - 1);
      assert Between(lo, hi) == Between(lo, hi - 1) + {hi - 1};
    }
  }

  const CAPACITY := 31744

  /** In every state the free ports and the ports given out are 31744 together. */
  lemma PortsCounted(r: Root)
    requires RootOk(r)
    ensures |r.free| + |r.master.left.Keys - {0}| == CAPACITY
  {
    BetweenSize(PORT_MIN, PORT_MAX);
    assert forall p: Port :: p in Between(PORT_MIN, PORT_MAX) <==> InRange(p);
    assert r.free + (r.master.left.Keys - {0}) == Between(PORT_MIN, PORT_MAX);
  }

  /** The root after the triples of ts asked for their ports, one after the other. */
  function AfterAll(r: Root, ts: seq<Internal>): Root {
    if ts == [] then r else AfterSetup(AfterAll(r, ts[..|ts| - 1]), ts[|ts| - 1])
  }

  predicate Distinct(ts: seq<Internal>) {
    forall i, j :: 0 <= i < j < |ts| ==> ts[i] != ts[j]
  }

  /** From the initial root: as long as there are ports, every new triple takes one. */
  lemma {:induction false} PortsUsed(ts: seq<Internal>)
    requires Distinct(ts) && |ts| <= CAPACITY
    ensures var r := AfterAll(Initial({}).root, ts);
            && RootOk(r) && |r.free| == CAPACITY - |ts|
            && (forall t :: t in r.master.right <==> t in ts) && (forall t :: t in ts ==> r.master.MapsNonzero(t))
    decreases |ts|
  {
    var r0 := Initial({}).root;
    InitialOk({});
    if ts == [] {
      PortsCounted(r0);
      assert r0.master.left.Keys - {0} == {};
    } else {
      var init, t := ts[..|ts| - 1], ts[|ts| - 1];
      PortsUsed(init);
      assert forall u :: u in ts <==> u in init || u == t;
      SetupKeeps(AfterAll(r0, init), t);
      OnePortUsed(AfterAll(r0, init), t);
    }
  }

  lemma OnePortUsed(r: Root, t: Internal)
    requires RootOk(r) && r.free != {} && t !in r.master.right
    ensures var r' := AfterSetup(r, t);
            && |r'.free| == |r.free| - 1 && r'.master.MapsNonzero(t)
            && r'.master.right == r.master.right[t := Least(r.free)] && Least(r.free) != 0
  {
    assert Least(r.free) in r.free && Least(r.free) !in r.master.left;
  }

  /** So the first triple that is refused is the 31745th: it gets port 0, and the ones before it did not. */
  lemma FirstRefused(ts: seq<Internal>, t: Internal)
    requires Distinct(ts) && t !in ts && |ts| <= CAPACITY
    ensures PortFor(AfterAll(Initial({}).root, ts), t) == 0 <==> |ts| == CAPACITY
  {
    PortsUsed(ts);
    ZeroWhenExhausted(AfterAll(Initial({}).root, ts), t);
  }

  // ---------- The cores ----------

  /** What a core is doing between its cache and the root: a swizzle_port_out or an external_portmap_lookup that
      missed the cache, before and after the call of the root. */
  datatype Doing =
    | Ready
    | OutMissed(t: Internal)
    | OutGot(t: Internal, p: Port)
    | InMissed(p: Port)
    | InGot(p: Port, t: Internal)

  datatype Core = Core(cache: Bimap, umi: nat, doing: Doing)

  datatype Nat = Nat(root: Root, cores: map<nat, Core>)

  datatype Step =
    | Activate(core: nat, umi: nat)
    | OutBegin(core: nat, port: Port)
    | InBegin(core: nat, p: Port)
    | AskRoot(core: nat)
    | Finish(core: nat)

  /** What a completed operation returned to its core. */
  datatype Answer = Nothing | Out(t: Internal, p: Port) | In(p: Port, t: Internal)

  /** kassert: the port looked up has a mapping. */
  predicate CanStep(n: Nat, s: Step) {
    && s.core in n.cores
    && var c := n.cores[s.core];
       match s
       case Activate(_, _) => c.doing == Ready
       case OutBegin(_, _) => c.doing == Ready
       case InBegin(_, _) => c.doing == Ready
       case AskRoot(_) => c.doing.OutMissed? || (c.doing.InMissed? && MappingOf(n.root, c.doing.p) != NULL_MAPPING)
       case Finish(_) => c.doing.OutGot? || c.doing.InGot?
  }

  function Put(n: Nat, core: nat, c: Core): Nat {
    n.(cores := n.cores[core := c])
  }

  function After(n: Nat, s: Step): Nat
    requires CanStep(n, s)
  {
    var c := n.cores[s.core];
    match s
    case Activate(core, umi) => Put(n, core, c.(umi := umi))
    case OutBegin(core, port) =>
      var t := Internal(c.umi, core, port);
      if t in c.cache.right then n else Put(n, core, c.(doing := OutMissed(t)))
    case InBegin(core, p) =>
      if p in c.cache.left then n else Put(n, core, c.(doing := InMissed(p)))
    case AskRoot(core) =>
      if c.doing.OutMissed? then
        Put(n, core, c.(doing := OutGot(c.doing.t, PortFor(n.root, c.doing.t)))).(root := AfterSetup(n.root, c.doing.t))
      else Put(n, core, c.(doing := InGot(c.doing.p, MappingOf(n.root, c.doing.p))))
    case Finish(core) =>
      Put(n, core, c.(cache := c.cache.Insert(c.doing.p, c.doing.t), doing := Ready))
  }

  function AnswerOf(n: Nat, s: Step): Answer
    requires CanStep(n, s)
  {
    var c := n.cores[s.core];
    match s
    case OutBegin(core, port) =>
      var t := Internal(c.umi, core, port);
      if t in c.cache.right then Out(t, c.cache.right[t]) else Nothing
    case InBegin(_, p) => if p in c.cache.left then In(p, c.cache.left[p]) else Nothing
    case Finish(_) => if c.doing.OutGot? then Out(c.doing.t, c.doing.p) else In(c.doing.p, c.doing.t)
    case _ => Nothing
  }

  /** A pair that a core has learned is in the master map, unless its port is 0, which no one gets while ports are
      left. */
  predicate Known(r: Root, p: Port, t: Internal) {
    if p != 0 then p in r.master.left && r.master.left[p] == t
    else r.free == {} && !r.master.MapsNonzero(t)
  }

  ghost predicate CacheOk(r: Root, b: Bimap) {
    b.Valid() && forall p :: p in b.left ==> Known(r, p, b.left[p])
  }

  predicate DoingOk(r: Root, d: Doing) {
    match d
    case OutGot(t, p) => Known(r, p, t)
    case InGot(p, t) => Known(r, p, t)
    case _ => true
  }

  ghost predicate Inv(n: Nat) {
    && RootOk(n.root)
    && forall c :: c in n.cores ==> CacheOk(n.root, n.cores[c].cache) && DoingOk(n.root, n.cores[c].doing)
  }

  ghost predicate AnswerOk(r: Root, a: Answer) {
    match a
    case Nothing => true
    case Out(t, p) => Known(r, p, t)
    case In(p, t) => Known(r, p, t)
  }

  /** What is known stays so: the master map only grows, and no port comes back. */
  lemma KnownStays(r: Root, r': Root, p: Port, t: Internal)
    requires RootOk(r) && RootOk(r') && Grows(r, r') && Known(r, p, t)
    ensures Known(r', p, t)
  {
  }

  lemma CacheStays(r: Root, r': Root, b: Bimap)
    requires RootOk(r) && RootOk(r') && Grows(r, r') && CacheOk(r, b)
    ensures CacheOk(r', b)
  {
    forall p | p in b.left
      ensures Known(r', p, b.left[p])
    {
      KnownStays(r, r', p, b.left[p]);
    }
  }

  lemma MappingKnown(r: Root, p: Port)
    requires RootOk(r) && p in r.master.left
    ensures Known(r, p, MappingOf(r, p))
  {
  }

  /** Inserting what is known keeps the cache right, also when the insertion fails. */
  lemma InsertKeeps(r: Root, b: Bimap, p: Port, t: Internal)
    requires CacheOk(r, b) && Known(r, p, t)
    ensures CacheOk(r, b.Insert(p, t))
  {
  }

  /** A step of any core keeps every cache within the master map, and answers only what is in it. */
  lemma StepKeeps(n: Nat, s: Step)
    requires Inv(n) && CanStep(n, s)
    ensures Inv(After(n, s)) && Grows(n.root, After(n, s).root)
    ensures AnswerOk(After(n, s).root, AnswerOf(n, s))
  {
    var c := n.cores[s.core];
    match s
    case AskRoot(core) =>
      if c.doing.OutMissed? {
        OutAsks(n, core);
      } else {
        MappingKnown(n.root, c.doing.p);
      }
    case Finish(core) => InsertKeeps(n.root, c.cache, c.doing.p, c.doing.t);
    case _ =>
  }

  lemma OutAsks(n: Nat, core: nat)
    requires Inv(n) && core in n.cores && n.cores[core].doing.OutMissed?
    ensures Inv(After(n, AskRoot(core))) && Grows(n.root, After(n, AskRoot(core)).root)
  {
    var t := n.cores[core].doing.t;
    var r' := AfterSetup(n.root, t);
    SetupKeeps(n.root, t);
    forall o | o in n.cores
      ensures CacheOk(r', n.cores[o].cache) && DoingOk(r', n.cores[o].doing)
    {
      CacheStays(n.root, r', n.cores[o].cache);
      DoingStays(n.root, r', n.cores[o].doing);
    }
  }

  lemma DoingStays(r: Root, r': Root, d: Doing)
    requires RootOk(r) && RootOk(r') && Grows(r, r') && DoingOk(r, d)
    ensures DoingOk(r', d)
  {
  }

  // ---------- Questions and their answers ----------

  /** A step is one of its core alone: the other cores stay as they are, the active instance changes by Activate, the
      cache when an answer is learned, and the root when it is asked for a port. */
  lemma StepIsLocal(n: Nat, s: Step)
    requires CanStep(n, s)
    ensures var n', c := After(n, s), n.cores[s.core];
            && n'.cores.Keys == n.cores.Keys && (forall o :: o in n.cores && o != s.core ==> n'.cores[o] == n.cores[o])
            && n'.cores[s.core].umi == (if s.Activate? then s.umi else c.umi)
            && (!s.Finish? ==> n'.cores[s.core].cache == c.cache)
            && (!(s.AskRoot? && c.doing.OutMissed?) ==> n'.root == n.root)
  {
  }

  /** The core has a question about t, a triple to be mapped, on its way to the root or back. */
  predicate AsksPort(n: Nat, core: nat, t: Internal) {
    core in n.cores && var d := n.cores[core].doing; (d.OutMissed? || d.OutGot?) && d.t == t
  }

  /** Or about the external port p. */
  predicate AsksTriple(n: Nat, core: nat, p: Port) {
    core in n.cores && var d := n.cores[core].doing; (d.InMissed? || d.InGot?) && d.p == p
  }

  /** A question is answered at once, or stands. It is about the triple of the core's active instance and the port
      that was asked for. */
  lemma Asked(n: Nat, core: nat, port: Port)
    requires CanStep(n, OutBegin(core, port))
    ensures var t, s := Internal(n.cores[core].umi, core, port), OutBegin(core, port);
            if AnswerOf(n, s).Out? then AnswerOf(n, s).t == t && After(n, s) == n
            else AnswerOf(n, s) == Nothing && AsksPort(After(n, s), core, t)
    ensures var s := InBegin(core, port);
            if AnswerOf(n, s).In? then AnswerOf(n, s).p == port && After(n, s) == n
            else AnswerOf(n, s) == Nothing && AsksTriple(After(n, s), core, port)
  {
  }

  /** Until the core's Finish answers it, whatever the cores do. */
  lemma QuestionStands(n: Nat, s: Step, core: nat, t: Internal, p: Port)
    requires CanStep(n, s)
    ensures AsksPort(n, core, t) ==>
              if s == Finish(core) then AnswerOf(n, s).Out? && AnswerOf(n, s).t == t else AsksPort(After(n, s), core, t)
    ensures AsksTriple(n, core, p) ==>
              if s == Finish(core) then AnswerOf(n, s).In? && AnswerOf(n, s).p == p
              else AsksTriple(After(n, s), core, p)
  {
  }

  /** What a core has learned it answers from its cache, with the same port and the same triple. */
  lemma CacheLearns(n: Nat, core: nat)
    requires Inv(n) && CanStep(n, Finish(core)) && n.cores[core].doing.p != 0
    ensures var d, n' := n.cores[core].doing, After(n, Finish(core));
            && AnswerOf(n', InBegin(core, d.p)) == In(d.p, d.t)
            && (d.t.id == n.cores[core].umi && d.t.core == core ==>
                  AnswerOf(n', OutBegin(core, d.t.port)) == Out(d.t, d.p))
  {
    var c := n.cores[core];
    assert Known(n.root, c.doing.p, c.doing.t);
    if c.doing.p in c.cache.left {
      assert Known(n.root, c.doing.p, c.cache.left[c.doing.p]);
    }
    if c.doing.t in c.cache.right {
      assert Known(n.root, c.cache.right[c.doing.t], c.cache.left[c.cache.right[c.doing.t]]);
    }
  }

  // ---------- Whole runs ----------

  ghost predicate CanRun(n: Nat, ss: seq<Step>)
    decreases |ss|
  {
    ss != [] ==> CanStep(n, ss[0]) && CanRun(After(n, ss[0]), ss[1..])
  }

  ghost function Final(n: Nat, ss: seq<Step>): Nat
    requires CanRun(n, ss)
    decreases |ss|
  {
    if ss == [] then n else Final(After(n, ss[0]), ss[1..])
  }

  /** The answers given along the run, in order. */
  ghost function Answers(n: Nat, ss: seq<Step>): seq<Answer>
    requires CanRun(n, ss)
    decreases |ss|
  {
    if ss == [] then [] else [AnswerOf(n, ss[0])] + Answers(After(n, ss[0]), ss[1..])
  }

  lemma AnswerStays(r: Root, r': Root, a: Answer)
    requires RootOk(r) && RootOk(r') && Grows(r, r') && AnswerOk(r, a)
    ensures AnswerOk(r', a)
  {
  }

  /** Whatever the interleaving, all answers of a run agree with one map, the master map at its end: the caches
      and the lock implement one atomic bijection. */
  lemma {:induction false} RunRefines(n: Nat, ss: seq<Step>)
    requires Inv(n) && CanRun(n, ss)
    ensures Inv(Final(n, ss)) && Grows(n.root, Final(n, ss).root)
    ensures forall a :: a in Answers(n, ss) ==> AnswerOk(Final(n, ss).root, a)
    decreases |ss|
  {
    if ss != [] {
      var n1 := After(n, ss[0]);
      StepKeeps(n, ss[0]);
      RunRefines(n1, ss[1..]);
      AnswerStays(n1.root, Final(n, ss).root, AnswerOf(n, ss[0]));
    }
  }

  lemma {:induction false} QuestionStandsOn(n: Nat, ss: seq<Step>, core: nat, t: Internal, p: Port)
    requires CanRun(n, ss) && Finish(core) !in ss
    ensures AsksPort(n, core, t) ==> AsksPort(Final(n, ss), core, t)
    ensures AsksTriple(n, core, p) ==> AsksTriple(Final(n, ss), core, p)
    decreases |ss|
  {
    if ss != [] {
      QuestionStands(n, ss[0], core, t, p);
      QuestionStandsOn(After(n, ss[0]), ss[1..], core, t, p);
    }
  }

  /** Whatever the cores do in between, the next Finish of a core that asked for an external port answers for the
      instance that was active when it asked, for this core, and for the port it asked for. */
  lemma OutAnswered(n: Nat, core: nat, port: Port, ss: seq<Step>)
    requires CanStep(n, OutBegin(core, port)) && AnswerOf(n, OutBegin(core, port)) == Nothing
    requires CanRun(After(n, OutBegin(core, port)), ss) && Finish(core) !in ss
    requires CanStep(Final(After(n, OutBegin(core, port)), ss), Finish(core))
    ensures var a := AnswerOf(Final(After(n, OutBegin(core, port)), ss), Finish(core));
            a.Out? && a.t.id == n.cores[core].umi && a.t.core == core && a.t.port == port
  {
    var t := Internal(n.cores[core].umi, core, port);
    Asked(n, core, port);
    QuestionStandsOn(After(n, OutBegin(core, port)), ss, core, t, 0);
    QuestionStands(Final(After(n, OutBegin(core, port)), ss), Finish(core), core, t, 0);
  }

  /** And that of a core that looked an external port up answers for this port. */
  lemma InAnswered(n: Nat, core: nat, p: Port, ss: seq<Step>)
    requires CanStep(n, InBegin(core, p)) && AnswerOf(n, InBegin(core, p)) == Nothing
    requires CanRun(After(n, InBegin(core, p)), ss) && Finish(core) !in ss
    requires CanStep(Final(After(n, InBegin(core, p)), ss), Finish(core))
    ensures var a := AnswerOf(Final(After(n, InBegin(core, p)), ss), Finish(core)); a.In? && a.p == p
  {
    Asked(n, core, p);
    QuestionStandsOn(After(n, InBegin(core, p)), ss, core, NULL_MAPPING, p);
    QuestionStands(Final(After(n, InBegin(core, p)), ss), Finish(core), core, NULL_MAPPING, p);
  }

  // ---------- A core that is not interrupted ----------

  /** The run ss leads from n to n', and its last answer is a. */
  ghost predicate Runs(n: Nat, ss: seq<Step>, n': Nat, a: Answer) {
    ss != [] && CanRun(n, ss) && Final(n, ss) == n' && |Answers(n, ss)| == |ss| && Answers(n, ss)[|ss| - 1] == a
  }

  lemma RunsOne(n: Nat, s: Step)
    requires CanStep(n, s)
    ensures Runs(n, [s], After(n, s), AnswerOf(n, s))
  {
    assert [s][1..] == [];
    assert Answers(After(n, s), []) == [];
  }

  lemma RunsThree(n: Nat, s: Step, u: Step, v: Step)
    requires CanStep(n, s) && CanStep(After(n, s), u) && CanStep(After(After(n, s), u), v)
    ensures Runs(n, [s, u, v], After(After(After(n, s), u), v), AnswerOf(After(After(n, s), u), v))
  {
    var n1 := After(n, s);
    RunsOne(After(n1, u), v);
    assert [s, u, v][1..] == [u, v] && [u, v][1..] == [v];
    assert CanRun(n1, [u, v]);
    assert Answers(n1, [u, v]) == [AnswerOf(n1, u)] + Answers(After(n1, u), [v]);
    assert Answers(n, [s, u, v]) == [AnswerOf(n, s)] + Answers(n1, [u, v]);
  }

  /** The steps of swizzle_port_out: what the cache does not know is asked of the root. */
  function OutSteps(n: Nat, core: nat, port: Port): seq<Step>
    requires core in n.cores
  {
    if Internal(n.cores[core].umi, core, port) in n.cores[core].cache.right then [OutBegin(core, port)]
    else [OutBegin(core, port), AskRoot(core), Finish(core)]
  }

  /** The steps of external_portmap_lookup. */
  function InSteps(n: Nat, core: nat, p: Port): seq<Step>
    requires core in n.cores
  {
    if p in n.cores[core].cache.left then [InBegin(core, p)] else [InBegin(core, p), AskRoot(core), Finish(core)]
  }

  lemma OutRuns(n: Nat, core: nat, port: Port)
    requires core in n.cores && n.cores[core].doing == Ready
    ensures var c := n.cores[core];
            var t := Internal(c.umi, core, port);
            if t in c.cache.right then Runs(n, OutSteps(n, core, port), n, Out(t, c.cache.right[t]))
            else
              var p := PortFor(n.root, t);
              Runs(n, OutSteps(n, core, port),
                   Nat(AfterSetup(n.root, t), n.cores[core := c.(cache := c.cache.Insert(p, t))]), Out(t, p))
  {
    var c := n.cores[core];
    var t := Internal(c.umi, core, port);
    if t in c.cache.right {
      RunsOne(n, OutBegin(core, port));
    } else {
      RunsThree(n, OutBegin(core, port), AskRoot(core), Finish(core));
      assert c.(cache := c.cache.Insert(PortFor(n.root, t), t), doing := Ready)
          == c.(cache := c.cache.Insert(PortFor(n.root, t), t));
    }
  }

  lemma InRuns(n: Nat, core: nat, p: Port)
    requires core in n.cores && n.cores[core].doing == Ready
    requires p in n.cores[core].cache.left || MappingOf(n.root, p) != NULL_MAPPING
    ensures var c := n.cores[core];
            if p in c.cache.left then Runs(n, InSteps(n, core, p), n, In(p, c.cache.left[p]))
            else
              var t := MappingOf(n.root, p);
              Runs(n, InSteps(n, core, p), n.(cores := n.cores[core := c.(cache := c.cache.Insert(p, t))]), In(p, t))
  {
    var c := n.cores[core];
    if p in c.cache.left {
      RunsOne(n, InBegin(core, p));
    } else {
      RunsThree(n, InBegin(core, p), AskRoot(core), Finish(core));
      assert c.(cache := c.cache.Insert(p, MappingOf(n.root, p)), doing := Ready)
          == c.(cache := c.cache.Insert(p, MappingOf(n.root, p)));
    }
  }

  /** Two answers for ports outside, wherever and whenever they were given: the same triple has one nonzero port, and
      different triples have different ones. */
  lemma PortsDistinct(n: Nat, ss: seq<Step>, t: Internal, p: Port, u: Internal, q: Port)
    requires Inv(n) && CanRun(n, ss) && Out(t, p) in Answers(n, ss) && Out(u, q) in Answers(n, ss) && p != 0 && q != 0
    ensures p == q <==> t == u
    ensures 256 <= p < 32000
  {
    RunRefines(n, ss);
    var r := Final(n, ss).root;
    assert AnswerOk(r, Out(t, p)) && AnswerOk(r, Out(u, q));
  }

  /** Masquerading in inverts masquerading out, whichever cores do the two. */
  lemma InInvertsOut(n: Nat, ss: seq<Step>, t: Internal, p: Port, u: Internal)
    requires Inv(n) && CanRun(n, ss) && Out(t, p) in Answers(n, ss) && In(p, u) in Answers(n, ss) && p != 0
    ensures u == t
  {
    RunRefines(n, ss);
    var r := Final(n, ss).root;
    assert AnswerOk(r, Out(t, p)) && AnswerOk(r, In(p, u));
  }

  /** And it is never refused: once the nonzero port p was given to t, the lookup's assertion holds on every core and
      whatever happened since, except for the triple that is the null mapping. */
  lemma LookupHolds(n: Nat, ss: seq<Step>, t: Internal, p: Port, core: nat)
    requires Inv(n) && CanRun(n, ss) && Out(t, p) in Answers(n, ss) && p != 0
    requires core in Final(n, ss).cores && Final(n, ss).cores[core].doing == InMissed(p)
    ensures CanStep(Final(n, ss), AskRoot(core)) <==> t != NULL_MAPPING
    ensures t != NULL_MAPPING ==> After(Final(n, ss), AskRoot(core)).cores[core].doing == InGot(p, t)
  {
    RunRefines(n, ss);
    assert AnswerOk(Final(n, ss).root, Out(t, p));
  }

  /** The initial state. */
  function Initial(cores: set<nat>): Nat {
    Nat(Root((set p: Port | InRange(p)), EMPTY), map c | c in cores :: Core(EMPTY, 0, Ready))
  }

  lemma InitialOk(cores: set<nat>)
    ensures Inv(Initial(cores)) && forall p: Port :: p in Initial(cores).root.free <==> 256 <= p < 32000
  {
  }
}
