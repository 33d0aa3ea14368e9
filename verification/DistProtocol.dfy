/** The run of dist_p2p.rs as a transition system: workers, one FIFO channel per ordered pair of peers,
    one control channel each way between every worker and the coordinator. An action is one step of one
    process; every interleaving is a run. */
module DistProtocol {
  import opened Graphs
  import opened PageRankSpec
  import opened DistP2P

  // ---- States ------------------------------------------------------------------------------------

  /** Where a worker is in its superstep: about to compute (or, after the last superstep, to hand in its
      ranks), sending to the peers in order, receiving from the peers still pending in any order, waiting
      for the coordinator. */
  datatype Phase = Computing | Sending(next: nat) | Receiving(pending: set<nat>) | Awaiting | Finished

  datatype Worker = Worker(step: nat, phase: Phase, owned: seq<real>, local: seq<real>, add: real, partial: real)

  datatype Coordinator =
    | Collecting(round: nat, next: nat, sum: real)
    | Broadcasting(round: nat, next: nat, add: real)
    | Gathering(next: nat, rank: seq<real>)

  datatype Report = Partial(dangling: real) | Ranks(owned: seq<real>)

  datatype State = State(
    workers: seq<Worker>,
    coordinator: Coordinator,
    channels: seq<seq<seq<seq<real>>>>,  // channels[c][d]: messages from c that d has not read
    up: seq<seq<Report>>,
    down: seq<seq<real>>)

  datatype Action =
    | Compute(c: nat)
    | SendNext(c: nat)
    | StartReceiving(c: nat)
    | Receive(c: nat, src: nat)
    | SendPartial(c: nat)
    | TakeAdd(c: nat)
    | HandIn(c: nat)
    | Collect
    | StartBroadcast
    | Broadcast
    | EndBroadcast
    | Gather

  /** A configuration with the setup of every worker. */
  datatype Deployment = Deployment(cfg: Config, setups: seq<Setup>) {
    ghost predicate Good() {
      && cfg.Good() && |setups| == cfg.K()
      && forall c :: 0 <= c < cfg.K() ==> SetupFor(cfg, c, setups[c])
    }

    function K(): nat
      requires cfg.Good()
    {
      cfg.K()
    }
  }

  /** The peers c receives from: those whose table towards c is not empty. */
  function Senders(s: Setup): set<nat> { set d: nat | d < |s.recv| && s.recv[d] != [] }

  // ---- Transitions -------------------------------------------------------------------------------

  function FirstRound(dep: Deployment, round: nat): Coordinator
    requires dep.cfg.Good()
  {
    if round < dep.cfg.iters then Collecting(round, 0, 0.0) else Gathering(0, seq(dep.cfg.g.n, _ => 0.0))
  }

  function InitialWorker(dep: Deployment, c: nat): Worker
    requires dep.cfg.Good() && c < |dep.setups|
  {
    var u := 1.0 / dep.cfg.g.n as real;
    var s := dep.setups[c];
    Worker(0, Computing, seq(s.owned, _ => u), seq(s.owned + s.ghosts, _ => u), SeedAdd(dep.cfg), 0.0)
  }

  /** The number of nodes below k without out-edges. */
  function DanglingCount(g: Graph, k: nat): nat
    requires k <= g.n
  {
    if k == 0 then 0 else DanglingCount(g, k - 1) + if OutDeg(g.n, g.edges, k - 1) == 0 then 1 else 0
  }

  /** The first additive term, from the uniform ranks. */
  function SeedAdd(cfg: Config): real
    requires cfg.Good()
  {
    var n := cfg.g.n as real;
    (1.0 - cfg.d) / n + cfg.d * (DanglingCount(cfg.g, cfg.g.n) as real / n) / n
  }

  ghost predicate Init(dep: Deployment, s: State)
    requires dep.Good()
  {
    && |s.workers| == |s.up| == |s.down| == |s.channels| == dep.K()
    && (forall c :: 0 <= c < dep.K() ==> s.workers[c] == InitialWorker(dep, c) && s.up[c] == [] && s.down[c] == [])
    && (forall c :: 0 <= c < dep.K() ==> |s.channels[c]| == dep.K())
    && (forall c, d :: 0 <= c < dep.K() && 0 <= d < dep.K() ==> s.channels[c][d] == [])
    && s.coordinator == FirstRound(dep, 0)
  }

  ghost predicate Shaped(dep: Deployment, s: State)
    requires dep.Good()
  {
    && |s.workers| == |s.up| == |s.down| == |s.channels| == dep.K()
    && (forall c :: 0 <= c < dep.K() ==> |s.channels[c]| == dep.K())
    && (forall c :: 0 <= c < dep.K() ==>
          |s.workers[c].owned| == dep.setups[c].owned && |s.workers[c].local| == dep.setups[c].owned + dep.setups[c].ghosts)
  }

  ghost predicate Enabled(dep: Deployment, s: State, a: Action)
    requires dep.Good() && Shaped(dep, s)
  {
    match a
    case Compute(c) => c < dep.K() && s.workers[c].phase == Computing && s.workers[c].step < dep.cfg.iters
    case SendNext(c) => c < dep.K() && s.workers[c].phase.Sending? && s.workers[c].phase.next < dep.K()
    case StartReceiving(c) => c < dep.K() && s.workers[c].phase == Sending(dep.K())
    case Receive(c, src) =>
      c < dep.K() && src < dep.K() && s.workers[c].phase.Receiving? && src in s.workers[c].phase.pending
      && s.channels[src][c] != [] && |s.channels[src][c][0]| == |dep.setups[c].recv[src]|
    case SendPartial(c) => c < dep.K() && s.workers[c].phase == Receiving({})
    case TakeAdd(c) => c < dep.K() && s.workers[c].phase == Awaiting && s.down[c] != []
    case HandIn(c) => c < dep.K() && s.workers[c].phase == Computing && s.workers[c].step >= dep.cfg.iters
    case Collect =>
      s.coordinator.Collecting? && s.coordinator.next < dep.K()
      && s.up[s.coordinator.next] != [] && s.up[s.coordinator.next][0].Partial?
    case StartBroadcast => s.coordinator.Collecting? && s.coordinator.next == dep.K()
    case Broadcast => s.coordinator.Broadcasting? && s.coordinator.next < dep.K()
    case EndBroadcast => s.coordinator.Broadcasting? && s.coordinator.next == dep.K()
    case Gather =>
      s.coordinator.Gathering? && s.coordinator.next < dep.K()
      && s.up[s.coordinator.next] != [] && s.up[s.coordinator.next][0].Ranks?
      && |s.coordinator.rank| == dep.cfg.g.n && |s.up[s.coordinator.next][0].owned| == dep.setups[s.coordinator.next].owned
  }

  function Computed(s: Setup, d: real, w: Worker): Worker
    requires s.Wellformed() && |w.owned| == s.owned && |w.local| == s.owned + s.ghosts
  {
    var local := w.owned + w.local[s.owned..];
    var owned := s.NewOwned(d, local, w.add);
    w.(phase := Sending(0), owned := owned, local := local, partial := s.DanglingOf(owned, s.owned))
  }

  /** The state after an enabled action. */
  ghost function Next(dep: Deployment, s: State, a: Action): State
    requires dep.Good() && Shaped(dep, s) && Enabled(dep, s, a)
  {
    match a
    case Compute(c) =>
      s.(workers := s.workers[c := Computed(dep.setups[c], dep.cfg.d, s.workers[c])])
    case SendNext(c) =>
      var w := s.workers[c];
      var d := w.phase.next;
      var s' := s.(workers := s.workers[c := w.(phase := Sending(d + 1))]);
      if dep.setups[c].send[d] == [] then s'
      else s'.(channels := s.channels[c := s.channels[c][d := s.channels[c][d] + [dep.setups[c].Outgoing(w.owned, d)]]])
    case StartReceiving(c) =>
      s.(workers := s.workers[c := s.workers[c].(phase := Receiving(Senders(dep.setups[c])))])
    case Receive(c, src) =>
      var w := s.workers[c];
      var setup := dep.setups[c];
      var local := setup.Scatter(w.local, src, s.channels[src][c][0], |setup.recv[src]|);
      s.(workers := s.workers[c := w.(phase := Receiving(w.phase.pending - {src}), local := local)],
         channels := s.channels[src := s.channels[src][c := s.channels[src][c][1..]]])
    case SendPartial(c) =>
      var w := s.workers[c];
      s.(workers := s.workers[c := w.(phase := Awaiting)], up := s.up[c := s.up[c] + [Partial(w.partial)]])
    case TakeAdd(c) =>
      var w := s.workers[c];
      s.(workers := s.workers[c := w.(step := w.step + 1, phase := Computing, add := s.down[c][0])],
         down := s.down[c := s.down[c][1..]])
    case HandIn(c) =>
      var w := s.workers[c];
      s.(workers := s.workers[c := w.(phase := Finished)], up := s.up[c := s.up[c] + [Ranks(w.owned)]])
    case Collect =>
      var co := s.coordinator;
      var c := co.next;
      s.(coordinator := Collecting(co.round, c + 1, co.sum + s.up[c][0].dangling), up := s.up[c := s.up[c][1..]])
    case StartBroadcast =>
      s.(coordinator := Broadcasting(s.coordinator.round, 0, Additive(dep.cfg.g.n, dep.cfg.d, s.coordinator.sum)))
    case Broadcast =>
      var co := s.coordinator;
      s.(coordinator := Broadcasting(co.round, co.next + 1, co.add), down := s.down[co.next := s.down[co.next] + [co.add]])
    case EndBroadcast =>
      s.(coordinator := FirstRound(dep, s.coordinator.round + 1))
    case Gather =>
      var co := s.coordinator;
      var c := co.next;
      var vals := s.up[c][0].owned;
      var lo := dep.cfg.bounds[c];
      s.(coordinator := Gathering(c + 1, co.rank[..lo] + vals + co.rank[lo + |vals|..]), up := s.up[c := s.up[c][1..]])
  }

  // ---- What the processes hold, in terms of the single-graph iterates -----------------------------

  ghost function Rank(cfg: Config, t: nat): (r: seq<real>)
    requires cfg.Good()
    ensures |r| == cfg.g.n
  {
    Iterate(cfg.g, cfg.d, t)
  }

  ghost function OwnedAt(cfg: Config, c: nat, t: nat): seq<real>
    requires cfg.Good() && c < cfg.K()
  {
    Slice(cfg, c, Rank(cfg, t))
  }

  ghost function AddAt(cfg: Config, t: nat): real
    requires cfg.Good()
  {
    Teleport(cfg.g, cfg.d, Rank(cfg, t))
  }

  ghost function PartialAt(cfg: Config, c: nat, t: nat): real
    requires cfg.Good() && c < cfg.K()
  {
    Dangling(cfg.g, Rank(cfg, t), cfg.bounds[c], cfg.bounds[c + 1])
  }

  /** The ranks c sends d. */
  ghost function MessageAt(cfg: Config, c: nat, d: nat, t: nat): (vals: seq<real>)
    requires cfg.Good() && c < cfg.K() && d < cfg.K()
    ensures |vals| == |Route(cfg, c, d)|
  {
    var us := Route(cfg, c, d);
    assert forall i :: 0 <= i < |us| ==> us[i] in us;
    seq(|us|, i requires 0 <= i < |us| => Rank(cfg, t)[us[i]])
  }

  /** The slot of ghost i holds its rank at t. */
  ghost predicate GhostAt(cfg: Config, c: nat, local: seq<real>, i: nat, t: nat)
    requires cfg.Good() && c < cfg.K() && i < |cfg.Ghosts(c)| && |local| == cfg.Owned(c) + |cfg.Ghosts(c)|
  {
    local[cfg.Owned(c) + i] == Rank(cfg, t)[cfg.GlobalId(c, cfg.Owned(c) + i)]
  }

  /** The slots of all ghosts whose owner is not in `pending` hold the ranks at t. */
  ghost predicate GhostsAt(cfg: Config, c: nat, local: seq<real>, t: nat, pending: set<nat>)
    requires cfg.Good() && c < cfg.K() && |local| == cfg.Owned(c) + |cfg.Ghosts(c)|
  {
    forall i, d: nat {:trigger cfg.Owns(d, cfg.Ghosts(c)[i])} :: 0 <= i < |cfg.Ghosts(c)| && d < cfg.K() && cfg.Owns(d, cfg.Ghosts(c)[i]) && d !in pending
      ==> GhostAt(cfg, c, local, i, t)
  }

  /** Owned ranks followed by up-to-date ghosts are a faithful local view. */
  lemma LocalViewMirrors(cfg: Config, c: nat, owned: seq<real>, local: seq<real>, t: nat)
    requires cfg.Good() && c < cfg.K() && |local| == cfg.Owned(c) + |cfg.Ghosts(c)|
    requires owned == OwnedAt(cfg, c, t) && GhostsAt(cfg, c, local, t, {})
    ensures Mirrors(cfg, c, owned + local[cfg.Owned(c)..], Rank(cfg, t))
  {
    hide Rank, Ascending, Config.IsGhost;
    var r := Rank(cfg, t);
    forall i | 0 <= i < |cfg.Ghosts(c)| ensures GhostAt(cfg, c, local, i, t) {
      assert cfg.Ghosts(c)[i] in cfg.Ghosts(c);
      var d := OwnerExists(cfg, cfg.Ghosts(c)[i]);
    }
    forall li | 0 <= li < |local| ensures (owned + local[cfg.Owned(c)..])[li] == r[cfg.GlobalId(c, li)] {
      if li >= cfg.Owned(c) {
        assert GhostAt(cfg, c, local, li - cfg.Owned(c), t);
      }
    }
  }

  lemma RankStep(cfg: Config, t: nat)
    requires cfg.Good()
    ensures Rank(cfg, t + 1) == Step(cfg.g, cfg.d, Rank(cfg, t))
  {}

  lemma ComputeFacts(cfg: Config, c: nat, s: Setup, w: Worker)
    requires cfg.Good() && c < cfg.K() && SetupFor(cfg, c, s)
    requires |w.owned| == s.owned && |w.local| == s.owned + s.ghosts
    requires w.owned == OwnedAt(cfg, c, w.step) && w.add == AddAt(cfg, w.step) && GhostsAt(cfg, c, w.local, w.step, {})
    ensures Computed(s, cfg.d, w).owned == OwnedAt(cfg, c, w.step + 1)
    ensures Computed(s, cfg.d, w).partial == PartialAt(cfg, c, w.step + 1)
    ensures Computed(s, cfg.d, w).local[s.owned..] == w.local[s.owned..]
  {
    hide Rank, GhostsAt, Mirrors, Slice, Teleport, Dangling, Step, Setup.NewOwned, Setup.DanglingOf, Config.Ghosts;
    var local := w.owned + w.local[s.owned..];
    LocalViewMirrors(cfg, c, w.owned, w.local, w.step);
    NewOwnedIsStep(cfg, c, s, local, Rank(cfg, w.step));
    RankStep(cfg, w.step);
    DanglingAgrees(cfg, c, s, Rank(cfg, w.step + 1), s.owned);
  }

  lemma OutgoingFacts(cfg: Config, c: nat, s: Setup, d: nat, t: nat)
    requires cfg.Good() && c < cfg.K() && SetupFor(cfg, c, s) && d < cfg.K()
    ensures s.Outgoing(OwnedAt(cfg, c, t), d) == MessageAt(cfg, c, d, t)
    ensures s.send[d] == [] <==> Route(cfg, c, d) == []
    ensures s.recv[d] == [] <==> Route(cfg, d, c) == []
    ensures |s.recv[d]| == |Route(cfg, d, c)|
  {
    hide Rank, Route, Ascending;
    assert s.send[d] == SendLocal(cfg, c, d) && s.recv[d] == RecvGhost(cfg, c, d);
  }

  lemma ScatterStores(cfg: Config, c: nat, s: Setup, local: seq<real>, src: nat, t: nat, pending: set<nat>)
    requires cfg.Good() && c < cfg.K() && SetupFor(cfg, c, s) && src < cfg.K()
    requires |local| == s.owned + s.ghosts && GhostsAt(cfg, c, local, t, pending)
    requires |s.recv[src]| == |Route(cfg, src, c)|
    ensures GhostsAt(cfg, c, s.Scatter(local, src, MessageAt(cfg, src, c, t), |s.recv[src]|), t, pending - {src})
  {
    hide Rank, Route, Ascending, Config.Ghosts, Setup.Scatter;
    var vals := MessageAt(cfg, src, c, t);
    assert s.recv[src] == RecvGhost(cfg, c, src);
    TablesMirror(cfg, src, c);
    s.ScatterFacts(local, src, vals, |s.recv[src]|);
    var local' := s.Scatter(local, src, vals, |s.recv[src]|);
    forall i, d: nat | 0 <= i < |cfg.Ghosts(c)| && d < cfg.K() && cfg.Owns(d, cfg.Ghosts(c)[i]) && d !in pending - {src}
      ensures GhostAt(cfg, c, local', i, t)
    {
      var e, j := EveryGhostArrives(cfg, c, i);
      assert e == d by {
        var o := OwnerExists(cfg, cfg.Ghosts(c)[i]);
      }
      if d == src {
        assert local'[s.owned + s.recv[src][j]] == vals[j];
      } else {
        forall k | 0 <= k < |s.recv[src]| ensures s.recv[src][k] != i {
          assert cfg.Ghosts(c)[s.recv[src][k]] == Route(cfg, src, c)[k];
          assert Route(cfg, src, c)[k] in Route(cfg, src, c);
          OwnerUnique(cfg, src, d, Route(cfg, src, c)[k]);
        }
        assert GhostAt(cfg, c, local, i, t);
      }
    }
  }

  lemma OwnerUnique(cfg: Config, c: nat, d: nat, u: nat)
    requires cfg.Good() && c < cfg.K() && d < cfg.K() && cfg.Owns(c, u)
    ensures cfg.Owns(d, u) <==> c == d
  {
    if c < d {
      assert cfg.bounds[c + 1] <= cfg.bounds[d];
    } else if d < c {
      assert cfg.bounds[d + 1] <= cfg.bounds[c];
    }
  }

  lemma SumFacts(cfg: Config, c: nat, t: nat)
    requires cfg.Good() && c < cfg.K()
    ensures Dangling(cfg.g, Rank(cfg, t), 0, cfg.bounds[c]) + PartialAt(cfg, c, t)
         == Dangling(cfg.g, Rank(cfg, t), 0, cfg.bounds[c + 1])
  {
    DanglingSplit(cfg.g, Rank(cfg, t), 0, cfg.bounds[c], cfg.bounds[c + 1]);
  }

  lemma SeedIsTeleport(cfg: Config)
    requires cfg.Good()
    ensures SeedAdd(cfg) == AddAt(cfg, 0)
  {
    UniformDangling(cfg, cfg.g.n);
  }

  lemma {:induction false} UniformDangling(cfg: Config, k: nat)
    requires cfg.Good() && k <= cfg.g.n
    ensures Dangling(cfg.g, Rank(cfg, 0), 0, k) == DanglingCount(cfg.g, k) as real / cfg.g.n as real
  {
    if k != 0 {
      UniformDangling(cfg, k - 1);
    }
  }

  // ---- The invariant -----------------------------------------------------------------------------

  /** Messages numbered from..to - 1 of a channel, oldest first. */
  ghost function Window<T>(f: nat -> T, from: nat, to: nat): (q: seq<T>)
    requires from <= to
    ensures |q| == to - from
  {
    seq(to - from, i requires 0 <= i < to - from => f(from + i))
  }

  lemma WindowPush<T>(f: nat -> T, from: nat, to: nat)
    requires from <= to
    ensures Window(f, from, to) + [f(to)] == Window(f, from, to + 1)
  {}

  lemma WindowPop<T>(f: nat -> T, from: nat, to: nat)
    requires from < to
    ensures Window(f, from, to)[0] == f(from) && Window(f, from, to)[1..] == Window(f, from + 1, to)
  {}

  /** How many messages a worker has sent peer d, has received from peer c, and how many partial sums it
      has reported. */
  function Sent(w: Worker, d: nat): nat {
    w.step + match w.phase
      case Sending(next) => if d < next then 1 else 0
      case Receiving(_) => 1
      case Awaiting => 1
      case _ => 0
  }

  function Received(w: Worker, c: nat): nat {
    w.step + match w.phase
      case Receiving(pending) => if c in pending then 0 else 1
      case Awaiting => 1
      case _ => 0
  }

  function Reported(w: Worker): nat { w.step + if w.phase.Awaiting? then 1 else 0 }

  /** How many partial sums the coordinator has read from worker c, and how many additive terms it has
      written to it. */
  function Read(co: Coordinator, iters: nat, c: nat): nat {
    match co
    case Collecting(round, next, _) => round + if c < next then 1 else 0
    case Broadcasting(round, _, _) => round + 1
    case Gathering(_, _) => iters
  }

  function Written(co: Coordinator, iters: nat, c: nat): nat {
    match co
    case Collecting(round, _, _) => round
    case Broadcasting(round, next, _) => round + if c < next then 1 else 0
    case Gathering(_, _) => iters
  }

  ghost function MessageNo(cfg: Config, c: nat, d: nat): nat -> seq<real>
    requires cfg.Good() && c < cfg.K() && d < cfg.K()
  {
    (j: nat) => MessageAt(cfg, c, d, j + 1)
  }

  ghost function PartialNo(cfg: Config, c: nat): nat -> Report
    requires cfg.Good() && c < cfg.K()
  {
    (j: nat) => Partial(PartialAt(cfg, c, j + 1))
  }

  ghost function AddNo(cfg: Config): nat -> real
    requires cfg.Good()
  {
    (j: nat) => AddAt(cfg, j + 1)
  }

  ghost predicate WorkerOk(dep: Deployment, c: nat, w: Worker)
    requires dep.Good() && c < dep.K()
  {
    var cfg, setup := dep.cfg, dep.setups[c];
    && |w.owned| == setup.owned && |w.local| == setup.owned + setup.ghosts
    && match w.phase
       case Computing =>
         w.step <= cfg.iters && w.owned == OwnedAt(cfg, c, w.step)
         && w.add == AddAt(cfg, w.step) && GhostsAt(cfg, c, w.local, w.step, {})
       case Sending(next) =>
         w.step < cfg.iters && next <= dep.K() && w.owned == OwnedAt(cfg, c, w.step + 1)
         && w.partial == PartialAt(cfg, c, w.step + 1)
       case Receiving(pending) =>
         w.step < cfg.iters && pending <= Senders(setup) && w.owned == OwnedAt(cfg, c, w.step + 1)
         && w.partial == PartialAt(cfg, c, w.step + 1) && GhostsAt(cfg, c, w.local, w.step + 1, pending)
       case Awaiting =>
         w.step < cfg.iters && w.owned == OwnedAt(cfg, c, w.step + 1) && GhostsAt(cfg, c, w.local, w.step + 1, {})
       case Finished =>
         w.step == cfg.iters && w.owned == OwnedAt(cfg, c, cfg.iters)
  }

  /** The channel from c to d holds exactly the messages sent and not yet received. */
  ghost predicate ChannelOk(dep: Deployment, c: nat, d: nat, wc: Worker, wd: Worker, q: seq<seq<real>>)
    requires dep.Good() && c < dep.K() && d < dep.K()
  {
    if Route(dep.cfg, c, d) == [] then q == []
    else Received(wd, c) <= Sent(wc, d) && q == Window(MessageNo(dep.cfg, c, d), Received(wd, c), Sent(wc, d))
  }

  ghost predicate UpOk(dep: Deployment, c: nat, w: Worker, co: Coordinator, q: seq<Report>)
    requires dep.Good() && c < dep.K()
  {
    && Read(co, dep.cfg.iters, c) <= Reported(w)
    && (co.Gathering? && c < co.next ==> w.phase.Finished?)
    && var handedIn := w.phase.Finished? && !(co.Gathering? && c < co.next);
       q == Window(PartialNo(dep.cfg, c), Read(co, dep.cfg.iters, c), Reported(w))
            + if handedIn then [Ranks(OwnedAt(dep.cfg, c, dep.cfg.iters))] else []
  }

  ghost predicate DownOk(dep: Deployment, c: nat, w: Worker, co: Coordinator, q: seq<real>)
    requires dep.Good()
  {
    && w.step <= Written(co, dep.cfg.iters, c)
    && q == Window(AddNo(dep.cfg), w.step, Written(co, dep.cfg.iters, c))
  }

  ghost predicate CoordinatorOk(dep: Deployment, co: Coordinator)
    requires dep.Good()
  {
    var cfg := dep.cfg;
    match co
    case Collecting(round, next, sum) =>
      round < cfg.iters && next <= dep.K() && sum == Dangling(cfg.g, Rank(cfg, round + 1), 0, cfg.bounds[next])
    case Broadcasting(round, next, add) =>
      round < cfg.iters && next <= dep.K() && add == AddAt(cfg, round + 1)
    case Gathering(next, rank) =>
      next <= dep.K() && |rank| == cfg.g.n && rank[..cfg.bounds[next]] == Rank(cfg, cfg.iters)[..cfg.bounds[next]]
  }

  ghost predicate Inv(dep: Deployment, s: State)
    requires dep.Good()
  {
    && Shaped(dep, s)
    && CoordinatorOk(dep, s.coordinator)
    && (forall c :: 0 <= c < dep.K() ==> WorkerOk(dep, c, s.workers[c]))
    && (forall c, d :: 0 <= c < dep.K() && 0 <= d < dep.K()
          ==> ChannelOk(dep, c, d, s.workers[c], s.workers[d], s.channels[c][d]))
    && (forall c :: 0 <= c < dep.K() ==> UpOk(dep, c, s.workers[c], s.coordinator, s.up[c]))
    && (forall c :: 0 <= c < dep.K() ==> DownOk(dep, c, s.workers[c], s.coordinator, s.down[c]))
  }

  lemma InitialWorkerOk(dep: Deployment, c: nat)
    requires dep.Good() && c < dep.K()
    ensures WorkerOk(dep, c, InitialWorker(dep, c))
  {
    hide AddAt, SeedAdd, Config.Ghosts;
    SeedIsTeleport(dep.cfg);
  }

  lemma InitOk(dep: Deployment, s: State)
    requires dep.Good() && Init(dep, s)
    ensures Inv(dep, s)
  {
    hide WorkerOk, SetupFor, Route;
    forall c | 0 <= c < dep.K() ensures WorkerOk(dep, c, s.workers[c]) {
      InitialWorkerOk(dep, c);
    }
  }

  // ---- Every action keeps the invariant ----------------------------------------------------------

  ghost predicate ChannelsOk(dep: Deployment, s: State)
    requires dep.Good() && Shaped(dep, s)
  {
    forall c, d :: 0 <= c < dep.K() && 0 <= d < dep.K()
      ==> ChannelOk(dep, c, d, s.workers[c], s.workers[d], s.channels[c][d])
  }

  /** An action of worker c touches its own state and queues only. */
  lemma WorkerFrame(dep: Deployment, s: State, s': State, c: nat, w: Worker)
    requires dep.Good() && Inv(dep, s) && c < dep.K()
    requires Shaped(dep, s') && s'.coordinator == s.coordinator && s'.workers == s.workers[c := w]
    requires WorkerOk(dep, c, w) && ChannelsOk(dep, s')
    requires UpOk(dep, c, w, s.coordinator, s'.up[c]) && DownOk(dep, c, w, s.coordinator, s'.down[c])
    requires forall d :: 0 <= d < dep.K() && d != c ==> s'.up[d] == s.up[d] && s'.down[d] == s.down[d]
    ensures Inv(dep, s')
  {
    hide WorkerOk, ChannelOk, UpOk, DownOk, CoordinatorOk, SetupFor, Route;
  }

  /** The channel from a to b and its two counters are the same in both states. */
  ghost predicate SameChannel(dep: Deployment, s: State, s': State, a: nat, b: nat)
    requires dep.Good() && Shaped(dep, s) && Shaped(dep, s') && a < dep.K() && b < dep.K()
  {
    && s'.channels[a][b] == s.channels[a][b]
    && Sent(s'.workers[a], b) == Sent(s.workers[a], b) && Received(s'.workers[b], a) == Received(s.workers[b], a)
  }

  /** Only the channel from c to d may see its counters or its queue change. */
  lemma ChannelsFrame(dep: Deployment, s: State, s': State, c: nat, d: nat)
    requires dep.Good() && Inv(dep, s) && Shaped(dep, s') && c < dep.K() && d < dep.K()
    requires forall a, b :: 0 <= a < dep.K() && 0 <= b < dep.K() && (a != c || b != d) ==> SameChannel(dep, s, s', a, b)
    requires ChannelOk(dep, c, d, s'.workers[c], s'.workers[d], s'.channels[c][d])
    ensures ChannelsOk(dep, s')
  {
    hide WorkerOk, UpOk, DownOk, CoordinatorOk, SetupFor, Route, Sent, Received, Window, MessageNo;
    forall a, b | 0 <= a < dep.K() && 0 <= b < dep.K()
      ensures ChannelOk(dep, a, b, s'.workers[a], s'.workers[b], s'.channels[a][b])
    {
      assert ChannelOk(dep, a, b, s.workers[a], s.workers[b], s.channels[a][b]);
      if a != c || b != d {
        assert SameChannel(dep, s, s', a, b);
      }
    }
  }

  /** Channels are unaffected when the counters of worker c stay. */
  lemma QuietChannels(dep: Deployment, s: State, s': State, c: nat, w: Worker)
    requires dep.Good() && Inv(dep, s) && c < dep.K()
    requires Shaped(dep, s') && s'.channels == s.channels && s'.workers == s.workers[c := w]
    requires forall d: nat :: d < dep.K() ==> Sent(w, d) == Sent(s.workers[c], d) && Received(w, d) == Received(s.workers[c], d)
    ensures ChannelsOk(dep, s')
  {
    hide WorkerOk, UpOk, DownOk, CoordinatorOk, SetupFor, Route, Sent, Received, Window, MessageNo;
    assert ChannelOk(dep, 0, 0, s.workers[0], s.workers[0], s.channels[0][0]);
    assert ChannelOk(dep, 0, 0, s'.workers[0], s'.workers[0], s'.channels[0][0]);
    ChannelsFrame(dep, s, s', 0, 0);
  }

  /** The control queues are unaffected when a worker's superstep and report count stay. */
  lemma QuietControl(dep: Deployment, s: State, c: nat, w: Worker)
    requires dep.Good() && Inv(dep, s) && c < dep.K()
    requires w.step == s.workers[c].step && w.phase.Awaiting? == s.workers[c].phase.Awaiting?
    requires w.phase.Finished? == s.workers[c].phase.Finished?
    ensures UpOk(dep, c, w, s.coordinator, s.up[c]) && DownOk(dep, c, w, s.coordinator, s.down[c])
  {
    hide WorkerOk, ChannelOk, CoordinatorOk, SetupFor, Window;
    assert UpOk(dep, c, s.workers[c], s.coordinator, s.up[c]) && DownOk(dep, c, s.workers[c], s.coordinator, s.down[c]);
  }

  lemma ComputeOk(dep: Deployment, s: State, c: nat)
    requires dep.Good() && Inv(dep, s) && Enabled(dep, s, Compute(c))
    ensures Inv(dep, Next(dep, s, Compute(c)))
  {
    hide Rank, Config.Ghosts, Route, AddAt, PartialAt, OwnedAt, GhostsAt, Setup.NewOwned, Setup.DanglingOf, SetupFor, ChannelOk, UpOk, DownOk, CoordinatorOk, MessageAt, Window;
    var w, s' := s.workers[c], Next(dep, s, Compute(c));
    var w' := s'.workers[c];
    assert SetupFor(dep.cfg, c, dep.setups[c]) && WorkerOk(dep, c, w);
    ComputeFacts(dep.cfg, c, dep.setups[c], w);
    QuietControl(dep, s, c, w');
    QuietChannels(dep, s, s', c, w');
    WorkerFrame(dep, s, s', c, w');
  }

  /** A message appended by c, or taken by d, or neither: the channel from c to d stays right. */
  lemma ChannelPush(dep: Deployment, c: nat, d: nat, wc: Worker, wc': Worker, wd: Worker, q: seq<seq<real>>)
    requires dep.Good() && c < dep.K() && d < dep.K() && ChannelOk(dep, c, d, wc, wd, q)
    requires Sent(wc', d) == Sent(wc, d) + 1
    ensures ChannelOk(dep, c, d, wc', wd, if Route(dep.cfg, c, d) == [] then q else q + [MessageAt(dep.cfg, c, d, Sent(wc, d) + 1)])
  {
    hide SetupFor, Route, Sent, Received;
    if Received(wd, c) <= Sent(wc, d) {
      WindowPush(MessageNo(dep.cfg, c, d), Received(wd, c), Sent(wc, d));
    }
  }

  lemma ChannelPop(dep: Deployment, c: nat, d: nat, wc: Worker, wd: Worker, wd': Worker, q: seq<seq<real>>)
    requires dep.Good() && c < dep.K() && d < dep.K() && ChannelOk(dep, c, d, wc, wd, q)
    requires Received(wd', c) == Received(wd, c) + 1 && q != []
    ensures Route(dep.cfg, c, d) != []
    ensures q[0] == MessageAt(dep.cfg, c, d, Received(wd, c) + 1)
    ensures ChannelOk(dep, c, d, wc, wd', q[1..])
  {
    hide SetupFor, Route, Sent, Received;
    WindowPop(MessageNo(dep.cfg, c, d), Received(wd, c), Sent(wc, d));
  }

  lemma SendNextOk(dep: Deployment, s: State, c: nat)
    requires dep.Good() && Inv(dep, s) && Enabled(dep, s, SendNext(c))
    ensures Inv(dep, Next(dep, s, SendNext(c)))
  {
    hide Rank, Config.Ghosts, Route, AddAt, PartialAt, OwnedAt, GhostsAt, Setup.Outgoing, SetupFor, ChannelOk, UpOk, DownOk, CoordinatorOk, MessageAt, Window;
    var w, s' := s.workers[c], Next(dep, s, SendNext(c));
    var w', d := s'.workers[c], w.phase.next;
    assert SetupFor(dep.cfg, c, dep.setups[c]) && WorkerOk(dep, c, w);
    OutgoingFacts(dep.cfg, c, dep.setups[c], d, w.step + 1);
    assert ChannelOk(dep, c, d, w, s.workers[d], s.channels[c][d]);
    ChannelPush(dep, c, d, w, w', s.workers[d], s.channels[c][d]);
    ChannelCounts(dep, c, d, w', s.workers[d], w', s'.workers[d], s'.channels[c][d]);
    ChannelsFrame(dep, s, s', c, d);
    QuietControl(dep, s, c, w');
    WorkerFrame(dep, s, s', c, w');
  }

  lemma ChannelCounts(dep: Deployment, c: nat, d: nat, wc: Worker, wd: Worker, wc': Worker, wd': Worker, q: seq<seq<real>>)
    requires dep.Good() && c < dep.K() && d < dep.K() && ChannelOk(dep, c, d, wc, wd, q)
    requires Sent(wc', d) == Sent(wc, d) && Received(wd', c) == Received(wd, c)
    ensures ChannelOk(dep, c, d, wc', wd', q)
  {}

  /** When receiving starts, the ghosts of non-senders do not exist. */
  lemma NoOtherGhosts(cfg: Config, c: nat, s: Setup, local: seq<real>, t: nat)
    requires cfg.Good() && c < cfg.K() && SetupFor(cfg, c, s) && |local| == s.owned + s.ghosts
    ensures GhostsAt(cfg, c, local, t, Senders(s))
  {
    hide Rank, Config.Ghosts, Route, GhostAt;
    forall i, d: nat | 0 <= i < |cfg.Ghosts(c)| && d < cfg.K() && cfg.Owns(d, cfg.Ghosts(c)[i])
      ensures d in Senders(s)
    {
      var e, j := EveryGhostArrives(cfg, c, i);
      OwnerUnique(cfg, e, d, cfg.Ghosts(c)[i]);
    }
  }

  lemma StartReceivingOk(dep: Deployment, s: State, c: nat)
    requires dep.Good() && Inv(dep, s) && Enabled(dep, s, StartReceiving(c))
    ensures Inv(dep, Next(dep, s, StartReceiving(c)))
  {
    hide Rank, Config.Ghosts, AddAt, PartialAt, OwnedAt, GhostsAt, SetupFor, ChannelOk, UpOk, DownOk, CoordinatorOk, MessageAt, Window;
    var w, s' := s.workers[c], Next(dep, s, StartReceiving(c));
    var w' := s'.workers[c];
    var setup := dep.setups[c];
    assert SetupFor(dep.cfg, c, setup) && WorkerOk(dep, c, w);
    NoOtherGhosts(dep.cfg, c, setup, w.local, w.step + 1);
    forall a, b | 0 <= a < dep.K() && 0 <= b < dep.K()
      ensures ChannelOk(dep, a, b, s'.workers[a], s'.workers[b], s'.channels[a][b])
    {
      assert ChannelOk(dep, a, b, s.workers[a], s.workers[b], s.channels[a][b]);
      if b == c && a !in Senders(setup) {
        OutgoingFacts(dep.cfg, c, setup, a, 0);
        RecvTables(dep.cfg, c, setup);
        UnusedChannel(dep, a, c, s.workers[a], w, s'.workers[a], w', s.channels[a][c]);
      } else {
        ChannelCounts(dep, a, b, s.workers[a], s.workers[b], s'.workers[a], s'.workers[b], s.channels[a][b]);
      }
    }
    QuietControl(dep, s, c, w');
    WorkerFrame(dep, s, s', c, w');
  }

  lemma RecvTables(cfg: Config, c: nat, s: Setup)
    requires cfg.Good() && c < cfg.K() && SetupFor(cfg, c, s)
    ensures |s.recv| == |s.send| == cfg.K()
  {}

  lemma UnusedChannel(dep: Deployment, c: nat, d: nat, wc: Worker, wd: Worker, wc': Worker, wd': Worker, q: seq<seq<real>>)
    requires dep.Good() && c < dep.K() && d < dep.K() && ChannelOk(dep, c, d, wc, wd, q)
    requires Route(dep.cfg, c, d) == []
    ensures ChannelOk(dep, c, d, wc', wd', q)
  {}

  lemma ReceiveOk(dep: Deployment, s: State, c: nat, src: nat)
    requires dep.Good() && Inv(dep, s) && Enabled(dep, s, Receive(c, src))
    ensures Inv(dep, Next(dep, s, Receive(c, src)))
  {
    hide Rank, Config.Ghosts, Route, AddAt, PartialAt, OwnedAt, GhostsAt, Setup.Scatter, SetupFor, ChannelOk, UpOk, DownOk, CoordinatorOk, MessageAt, Window, Senders;
    var w, s' := s.workers[c], Next(dep, s, Receive(c, src));
    var w', setup := s'.workers[c], dep.setups[c];
    assert SetupFor(dep.cfg, c, setup) && WorkerOk(dep, c, w);
    assert ChannelOk(dep, src, c, s.workers[src], w, s.channels[src][c]);
    ChannelPop(dep, src, c, s.workers[src], w, w', s.channels[src][c]);
    OutgoingFacts(dep.cfg, c, setup, src, 0);
    ScatterStores(dep.cfg, c, setup, w.local, src, w.step + 1, w.phase.pending);
    ChannelCounts(dep, src, c, s.workers[src], w', s'.workers[src], w', s'.channels[src][c]);
    forall a, b | 0 <= a < dep.K() && 0 <= b < dep.K() && (a != src || b != c)
      ensures SameChannel(dep, s, s', a, b)
    {}
    ChannelsFrame(dep, s, s', src, c);
    QuietControl(dep, s, c, w');
    WorkerFrame(dep, s, s', c, w');
  }

  lemma SendPartialOk(dep: Deployment, s: State, c: nat)
    requires dep.Good() && Inv(dep, s) && Enabled(dep, s, SendPartial(c))
    ensures Inv(dep, Next(dep, s, SendPartial(c)))
  {
    hide Rank, Config.Ghosts, Route, AddAt, PartialAt, OwnedAt, GhostsAt, SetupFor, ChannelOk;
    var w, s' := s.workers[c], Next(dep, s, SendPartial(c));
    var w' := s'.workers[c];
    assert WorkerOk(dep, c, w);
    assert UpOk(dep, c, w, s.coordinator, s.up[c]) && DownOk(dep, c, w, s.coordinator, s.down[c]);
    WindowPush(PartialNo(dep.cfg, c), Read(s.coordinator, dep.cfg.iters, c), w.step);
    QuietChannels(dep, s, s', c, w');
    WorkerFrame(dep, s, s', c, w');
  }

  lemma TakeAddOk(dep: Deployment, s: State, c: nat)
    requires dep.Good() && Inv(dep, s) && Enabled(dep, s, TakeAdd(c))
    ensures Inv(dep, Next(dep, s, TakeAdd(c)))
  {
    hide Rank, Config.Ghosts, Route, AddAt, PartialAt, OwnedAt, GhostsAt, SetupFor, ChannelOk;
    var w, s' := s.workers[c], Next(dep, s, TakeAdd(c));
    var w' := s'.workers[c];
    assert WorkerOk(dep, c, w);
    assert UpOk(dep, c, w, s.coordinator, s.up[c]) && DownOk(dep, c, w, s.coordinator, s.down[c]);
    WindowPop(AddNo(dep.cfg), w.step, Written(s.coordinator, dep.cfg.iters, c));
    QuietChannels(dep, s, s', c, w');
    WorkerFrame(dep, s, s', c, w');
  }

  lemma HandInOk(dep: Deployment, s: State, c: nat)
    requires dep.Good() && Inv(dep, s) && Enabled(dep, s, HandIn(c))
    ensures Inv(dep, Next(dep, s, HandIn(c)))
  {
    hide Rank, Config.Ghosts, Route, AddAt, PartialAt, OwnedAt, GhostsAt, SetupFor, ChannelOk, Window;
    var w, s' := s.workers[c], Next(dep, s, HandIn(c));
    var w' := s'.workers[c];
    assert WorkerOk(dep, c, w);
    assert UpOk(dep, c, w, s.coordinator, s.up[c]) && DownOk(dep, c, w, s.coordinator, s.down[c]);
    QuietChannels(dep, s, s', c, w');
    WorkerFrame(dep, s, s', c, w');
  }

  /** An action of the coordinator touches its own state and control queues only. */
  lemma CoordinatorFrame(dep: Deployment, s: State, s': State)
    requires dep.Good() && Inv(dep, s) && Shaped(dep, s')
    requires s'.workers == s.workers && s'.channels == s.channels && CoordinatorOk(dep, s'.coordinator)
    requires forall c :: 0 <= c < dep.K() ==> UpOk(dep, c, s.workers[c], s'.coordinator, s'.up[c])
    requires forall c :: 0 <= c < dep.K() ==> DownOk(dep, c, s.workers[c], s'.coordinator, s'.down[c])
    ensures Inv(dep, s')
  {
    hide WorkerOk, ChannelOk, UpOk, DownOk, CoordinatorOk, SetupFor, Route;
  }

  lemma CollectOk(dep: Deployment, s: State)
    requires dep.Good() && Inv(dep, s) && Enabled(dep, s, Collect)
    ensures Inv(dep, Next(dep, s, Collect))
  {
    hide Rank, Config.Ghosts, Route, AddAt, PartialAt, OwnedAt, GhostsAt, SetupFor, ChannelOk, WorkerOk;
    var s', co := Next(dep, s, Collect), s.coordinator;
    var c := co.next;
    assert UpOk(dep, c, s.workers[c], co, s.up[c]) && WorkerOk(dep, c, s.workers[c]);
    StepBound(dep, c, s.workers[c]);
    WindowPop(PartialNo(dep.cfg, c), co.round, Reported(s.workers[c]));
    SumFacts(dep.cfg, c, co.round + 1);
    forall d | 0 <= d < dep.K() ensures UpOk(dep, d, s.workers[d], s'.coordinator, s'.up[d]) {
      assert UpOk(dep, d, s.workers[d], co, s.up[d]);
    }
    forall d | 0 <= d < dep.K() ensures DownOk(dep, d, s.workers[d], s'.coordinator, s'.down[d]) {
      assert DownOk(dep, d, s.workers[d], co, s.down[d]);
    }
    CoordinatorFrame(dep, s, s');
  }

  lemma StepBound(dep: Deployment, c: nat, w: Worker)
    requires dep.Good() && c < dep.K() && WorkerOk(dep, c, w)
    ensures w.step <= dep.cfg.iters && (w.phase.Finished? ==> w.step == dep.cfg.iters)
    ensures Reported(w) <= dep.cfg.iters
  {}

  lemma AllSummed(cfg: Config, t: nat)
    requires cfg.Good()
    ensures AddAt(cfg, t) == Additive(cfg.g.n, cfg.d, Dangling(cfg.g, Rank(cfg, t), 0, cfg.bounds[cfg.K()]))
  {
    hide Rank, Dangling, Additive;
  }

  lemma StartBroadcastOk(dep: Deployment, s: State)
    requires dep.Good() && Inv(dep, s) && Enabled(dep, s, StartBroadcast)
    ensures Inv(dep, Next(dep, s, StartBroadcast))
  {
    hide Rank, Config.Ghosts, Route, AddAt, Dangling, Additive, PartialAt, OwnedAt, GhostsAt, SetupFor, ChannelOk, WorkerOk, Window;
    var s', co := Next(dep, s, StartBroadcast), s.coordinator;
    AllSummed(dep.cfg, co.round + 1);
    forall d | 0 <= d < dep.K() ensures UpOk(dep, d, s.workers[d], s'.coordinator, s'.up[d]) {
      assert UpOk(dep, d, s.workers[d], co, s.up[d]);
    }
    forall d | 0 <= d < dep.K() ensures DownOk(dep, d, s.workers[d], s'.coordinator, s'.down[d]) {
      assert DownOk(dep, d, s.workers[d], co, s.down[d]);
    }
    CoordinatorFrame(dep, s, s');
  }

  lemma BroadcastOk(dep: Deployment, s: State)
    requires dep.Good() && Inv(dep, s) && Enabled(dep, s, Broadcast)
    ensures Inv(dep, Next(dep, s, Broadcast))
  {
    hide Rank, Config.Ghosts, Route, AddAt, PartialAt, OwnedAt, GhostsAt, SetupFor, ChannelOk, WorkerOk;
    var s', co := Next(dep, s, Broadcast), s.coordinator;
    forall d | 0 <= d < dep.K() ensures UpOk(dep, d, s.workers[d], s'.coordinator, s'.up[d]) {
      assert UpOk(dep, d, s.workers[d], co, s.up[d]);
    }
    forall d | 0 <= d < dep.K() ensures DownOk(dep, d, s.workers[d], s'.coordinator, s'.down[d]) {
      assert DownOk(dep, d, s.workers[d], co, s.down[d]);
      if d == co.next {
        WindowPush(AddNo(dep.cfg), s.workers[d].step, co.round);
      }
    }
    CoordinatorFrame(dep, s, s');
  }

  lemma NothingSummed(dep: Deployment, round: nat)
    requires dep.Good() && round <= dep.cfg.iters
    ensures CoordinatorOk(dep, FirstRound(dep, round))
  {
    hide Rank, SetupFor;
  }

  lemma EndBroadcastOk(dep: Deployment, s: State)
    requires dep.Good() && Inv(dep, s) && Enabled(dep, s, EndBroadcast)
    ensures Inv(dep, Next(dep, s, EndBroadcast))
  {
    hide Rank, Config.Ghosts, Route, AddAt, PartialAt, OwnedAt, GhostsAt, SetupFor, ChannelOk, WorkerOk, Window;
    var s', co := Next(dep, s, EndBroadcast), s.coordinator;
    forall d | 0 <= d < dep.K() ensures UpOk(dep, d, s.workers[d], s'.coordinator, s'.up[d]) {
      assert UpOk(dep, d, s.workers[d], co, s.up[d]);
    }
    forall d | 0 <= d < dep.K() ensures DownOk(dep, d, s.workers[d], s'.coordinator, s'.down[d]) {
      assert DownOk(dep, d, s.workers[d], co, s.down[d]);
    }
    assert CoordinatorOk(dep, s'.coordinator) by {
      NothingSummed(dep, co.round + 1);
    }
    CoordinatorFrame(dep, s, s');
  }

  lemma GatherOk(dep: Deployment, s: State)
    requires dep.Good() && Inv(dep, s) && Enabled(dep, s, Gather)
    ensures Inv(dep, Next(dep, s, Gather))
  {
    hide Rank, Config.Ghosts, Route, AddAt, PartialAt, GhostsAt, SetupFor, ChannelOk, WorkerOk;
    var s', co := Next(dep, s, Gather), s.coordinator;
    var c := co.next;
    assert UpOk(dep, c, s.workers[c], co, s.up[c]) && WorkerOk(dep, c, s.workers[c]);
    StepBound(dep, c, s.workers[c]);
    GatherSlice(dep.cfg, c, co.rank, Rank(dep.cfg, dep.cfg.iters));
    forall d | 0 <= d < dep.K() ensures UpOk(dep, d, s.workers[d], s'.coordinator, s'.up[d]) {
      assert UpOk(dep, d, s.workers[d], co, s.up[d]);
    }
    forall d | 0 <= d < dep.K() ensures DownOk(dep, d, s.workers[d], s'.coordinator, s'.down[d]) {
      assert DownOk(dep, d, s.workers[d], co, s.down[d]);
    }
    CoordinatorFrame(dep, s, s');
  }

  lemma GatherSlice(cfg: Config, c: nat, rank: seq<real>, r: seq<real>)
    requires cfg.Good() && c < cfg.K() && |rank| == |r| == cfg.g.n
    requires rank[..cfg.bounds[c]] == r[..cfg.bounds[c]]
    ensures
      var vals, lo := Slice(cfg, c, r), cfg.bounds[c];
      var rank' := rank[..lo] + vals + rank[lo + |vals|..];
      |rank'| == |r| && rank'[..cfg.bounds[c + 1]] == r[..cfg.bounds[c + 1]]
  {}

  // ---- Runs --------------------------------------------------------------------------------------

  lemma NextOk(dep: Deployment, s: State, a: Action)
    requires dep.Good() && Inv(dep, s) && Enabled(dep, s, a)
    ensures Inv(dep, Next(dep, s, a))
  {
    match a
    case Compute(c) => ComputeOk(dep, s, c);
    case SendNext(c) => SendNextOk(dep, s, c);
    case StartReceiving(c) => StartReceivingOk(dep, s, c);
    case Receive(c, src) => ReceiveOk(dep, s, c, src);
    case SendPartial(c) => SendPartialOk(dep, s, c);
    case TakeAdd(c) => TakeAddOk(dep, s, c);
    case HandIn(c) => HandInOk(dep, s, c);
    case Collect => CollectOk(dep, s);
    case StartBroadcast => StartBroadcastOk(dep, s);
    case Broadcast => BroadcastOk(dep, s);
    case EndBroadcast => EndBroadcastOk(dep, s);
    case Gather => GatherOk(dep, s);
  }

  /** A run: actions taken one after the other from an initial state, in any order the guards allow. */
  ghost predicate IsRun(dep: Deployment, states: seq<State>, actions: seq<Action>)
    requires dep.Good()
  {
    && |states| == |actions| + 1
    && Init(dep, states[0])
    && forall i :: 0 <= i < |actions| ==>
         Shaped(dep, states[i]) && Enabled(dep, states[i], actions[i]) && states[i + 1] == Next(dep, states[i], actions[i])
  }

  lemma {:induction false} RunOk(dep: Deployment, states: seq<State>, actions: seq<Action>, i: nat)
    requires dep.Good() && IsRun(dep, states, actions) && i < |states|
    ensures Inv(dep, states[i])
  {
    hide Inv, Init, Enabled, Next, Shaped;
    if i == 0 {
      InitOk(dep, states[0]);
    } else {
      RunOk(dep, states, actions, i - 1);
      NextOk(dep, states[i - 1], actions[i - 1]);
    }
  }

  /** How many single-graph steps the owned ranks of a worker are from the start. */
  function Iteration(w: Worker): nat {
    match w.phase
    case Computing => w.step
    case Finished => w.step
    case _ => w.step + 1
  }

  /** In every reachable state of every interleaving each worker holds exactly its slice of a single-graph
      iterate: the t-th, once t supersteps are finished. */
  lemma WorkersAreExact(dep: Deployment, states: seq<State>, actions: seq<Action>, i: nat, c: nat)
    requires dep.Good() && IsRun(dep, states, actions) && i < |states| && c < dep.K()
    ensures Shaped(dep, states[i])
    ensures states[i].workers[c].owned
         == Iterate(dep.cfg.g, dep.cfg.d, Iteration(states[i].workers[c]))[dep.cfg.bounds[c]..dep.cfg.bounds[c + 1]]
  {
    hide IsRun;
    RunOk(dep, states, actions, i);
    assert WorkerOk(dep, c, states[i].workers[c]);
  }

  // ---- The barrier -------------------------------------------------------------------------------

  /** A worker is at most one superstep ahead of any other, through the coordinator. */
  lemma Barrier(dep: Deployment, s: State, c: nat, d: nat)
    requires dep.Good() && Inv(dep, s) && c < dep.K() && d < dep.K()
    ensures s.workers[c].step <= Written(s.coordinator, dep.cfg.iters, c) <= Read(s.coordinator, dep.cfg.iters, d)
    ensures Read(s.coordinator, dep.cfg.iters, d) <= Reported(s.workers[d])
  {
    hide Rank, SetupFor, ChannelOk, WorkerOk, Window;
    assert DownOk(dep, c, s.workers[c], s.coordinator, s.down[c]);
    assert UpOk(dep, d, s.workers[d], s.coordinator, s.up[d]);
  }

  /** No channel ever holds more than one unread message. */
  lemma OneUnread(dep: Deployment, states: seq<State>, actions: seq<Action>, i: nat, c: nat, d: nat)
    requires dep.Good() && IsRun(dep, states, actions) && i < |states| && c < dep.K() && d < dep.K()
    ensures Shaped(dep, states[i])
    ensures |states[i].channels[c][d]| <= 1 && |states[i].up[c]| <= 1 && |states[i].down[c]| <= 1
  {
    hide IsRun, Rank, SetupFor, Route;
    RunOk(dep, states, actions, i);
    var s := states[i];
    Barrier(dep, s, c, d);
    Barrier(dep, s, c, c);
    assert ChannelOk(dep, c, d, s.workers[c], s.workers[d], s.channels[c][d]);
    assert UpOk(dep, c, s.workers[c], s.coordinator, s.up[c]) && DownOk(dep, c, s.workers[c], s.coordinator, s.down[c]);
    assert WorkerOk(dep, c, s.workers[c]);
    StepBound(dep, c, s.workers[c]);
  }

  // ---- No deadlock -------------------------------------------------------------------------------

  predicate Done(dep: Deployment, s: State)
    requires dep.cfg.Good()
  {
    s.coordinator.Gathering? && s.coordinator.next == dep.K()
  }

  /** A worker the coordinator is not ahead of can always move, unless it waits for a peer's message. */
  lemma WorkerMoves(dep: Deployment, s: State, c: nat) returns (a: Action)
    requires dep.Good() && Inv(dep, s) && c < dep.K() && !s.workers[c].phase.Finished?
    requires s.workers[c].phase.Receiving? ==> s.workers[c].phase.pending == {}
    requires s.workers[c].phase.Awaiting? ==> s.workers[c].step < Written(s.coordinator, dep.cfg.iters, c)
    ensures Enabled(dep, s, a)
  {
    hide Rank, SetupFor, ChannelOk, UpOk;
    var w := s.workers[c];
    assert WorkerOk(dep, c, w);
    assert DownOk(dep, c, w, s.coordinator, s.down[c]);
    a := match w.phase
      case Computing => if w.step < dep.cfg.iters then Compute(c) else HandIn(c)
      case Sending(next) => if next < dep.K() then SendNext(c) else StartReceiving(c)
      case Receiving(_) => SendPartial(c)
      case _ => TakeAdd(c);
  }

  lemma MessageLength(dep: Deployment, c: nat, d: nat, wc: Worker, wd: Worker, q: seq<seq<real>>)
    requires dep.Good() && c < dep.K() && d < dep.K() && ChannelOk(dep, c, d, wc, wd, q) && q != []
    ensures |q[0]| == |Route(dep.cfg, c, d)|
  {
    hide SetupFor, Route, Sent, Received, Rank;
    assert q[0] == MessageNo(dep.cfg, c, d)(Received(wd, c));
  }

  /** A message in the channel can be received. */
  lemma MessageFits(dep: Deployment, s: State, c: nat, src: nat)
    requires dep.Good() && Inv(dep, s) && c < dep.K() && src < dep.K() && s.workers[c].phase.Receiving?
    requires src in s.workers[c].phase.pending && s.channels[src][c] != []
    ensures Enabled(dep, s, Receive(c, src))
  {
    hide Rank, UpOk, DownOk, WorkerOk, CoordinatorOk, SetupFor, Route, ChannelOk, OwnedAt, MessageAt;
    assert ChannelOk(dep, src, c, s.workers[src], s.workers[c], s.channels[src][c]);
    assert SetupFor(dep.cfg, c, dep.setups[c]);
    RecvTables(dep.cfg, c, dep.setups[c]);
    OutgoingFacts(dep.cfg, c, dep.setups[c], src, 0);
    MessageLength(dep, src, c, s.workers[src], s.workers[c], s.channels[src][c]);
  }

  /** When worker c misses a message from src in the round being collected, src itself can move. */
  lemma SenderMoves(dep: Deployment, s: State, c: nat, src: nat) returns (a: Action)
    requires dep.Good() && Inv(dep, s) && c < dep.K() && src < dep.K()
    requires s.coordinator.Collecting? && s.workers[c].phase.Receiving? && src in s.workers[c].phase.pending
    requires s.workers[c].step == s.coordinator.round && s.channels[src][c] == []
    ensures Enabled(dep, s, a)
  {
    hide Rank;
    var w, round := s.workers[src], s.coordinator.round;
    assert WorkerOk(dep, c, s.workers[c]) && WorkerOk(dep, src, w);
    OutgoingFacts(dep.cfg, c, dep.setups[c], src, 0);
    assert ChannelOk(dep, src, c, w, s.workers[c], s.channels[src][c]);
    assert Sent(w, c) == round;
    Barrier(dep, s, src, src);
    a := WorkerMoves(dep, s, src);
  }

  /** The worker whose report the coordinator waits for. */
  lemma ReporterMoves(dep: Deployment, s: State) returns (a: Action)
    requires dep.Good() && Inv(dep, s) && s.coordinator.Collecting? && s.coordinator.next < dep.K()
    requires s.up[s.coordinator.next] == []
    ensures Enabled(dep, s, a)
  {
    hide Rank, SetupFor, ChannelOk, Route;
    var c := s.coordinator.next;
    var w := s.workers[c];
    assert WorkerOk(dep, c, w) && UpOk(dep, c, w, s.coordinator, []);
    assert Reported(w) == s.coordinator.round;
    if w.phase.Receiving? && w.phase.pending != {} {
      var src :| src in w.phase.pending;
      assert src < dep.K() by {
        RecvTables(dep.cfg, c, dep.setups[c]);
      }
      if s.channels[src][c] == [] {
        a := SenderMoves(dep, s, c, src);
      } else {
        MessageFits(dep, s, c, src);
        a := Receive(c, src);
      }
    } else {
      a := WorkerMoves(dep, s, c);
    }
  }

  /** The worker whose ranks the coordinator waits for. */
  lemma LastRanksMove(dep: Deployment, s: State) returns (a: Action)
    requires dep.Good() && Inv(dep, s) && s.coordinator.Gathering? && s.coordinator.next < dep.K()
    ensures Enabled(dep, s, a)
  {
    hide Rank, SetupFor, ChannelOk, Route;
    var c := s.coordinator.next;
    var w := s.workers[c];
    assert WorkerOk(dep, c, w) && UpOk(dep, c, w, s.coordinator, s.up[c]);
    StepBound(dep, c, w);
    Barrier(dep, s, c, c);
    if w.phase.Finished? {
      a := Gather;
    } else {
      a := WorkerMoves(dep, s, c);
    }
  }

  /** No reachable state is stuck before the ranks are gathered. */
  lemma NoDeadlock(dep: Deployment, states: seq<State>, actions: seq<Action>, i: nat) returns (a: Action)
    requires dep.Good() && IsRun(dep, states, actions) && i < |states| && !Done(dep, states[i])
    ensures Shaped(dep, states[i]) && Enabled(dep, states[i], a)
  {
    hide IsRun, Rank, SetupFor, ChannelOk, Route, WorkerOk;
    RunOk(dep, states, actions, i);
    var s := states[i];
    match s.coordinator
    case Broadcasting(_, next, _) =>
      a := if next < dep.K() then Broadcast else EndBroadcast;
    case Gathering(_, _) =>
      a := LastRanksMove(dep, s);
    case Collecting(round, next, _) =>
      if next == dep.K() {
        a := StartBroadcast;
      } else if s.up[next] == [] {
        a := ReporterMoves(dep, s);
      } else {
        assert WorkerOk(dep, next, s.workers[next]) && UpOk(dep, next, s.workers[next], s.coordinator, s.up[next]);
        StepBound(dep, next, s.workers[next]);
        a := Collect;
      }
  }

  // ---- Every run ends, with the single-graph ranks ------------------------------------------------

  lemma OneLess(x: int, y: int)
    ensures (x - 1) * y == x * y - y
  {}

  lemma NotNegative(x: int, y: int)
    requires x >= -1 && y >= 0
    ensures x >= 0 ==> x * y >= 0
    ensures x == -1 ==> x * y == -y
  {}

  /** The actions of a worker's supersteps after the current one. */
  function Later(dep: Deployment, step: nat): int
    requires dep.cfg.Good()
  {
    (dep.cfg.iters - step - 1) * (2 * dep.K() + 5)
  }

  lemma LaterFacts(dep: Deployment, step: nat)
    requires dep.cfg.Good()
    ensures Later(dep, step + 1) == Later(dep, step) - (2 * dep.K() + 5)
    ensures step < dep.cfg.iters ==> Later(dep, step) >= 0
    ensures step == dep.cfg.iters ==> Later(dep, step) == -(2 * dep.K() + 5)
  {
    OneLess(dep.cfg.iters - step - 1, 2 * dep.K() + 5);
    if step <= dep.cfg.iters {
      NotNegative(dep.cfg.iters - step - 1, 2 * dep.K() + 5);
    }
  }

  /** What is left for one process: each of its actions lowers this by at least one. */
  function WorkerWork(dep: Deployment, w: Worker): int
    requires dep.cfg.Good()
  {
    var k := dep.K();
    var later := Later(dep, w.step);
    match w.phase
    case Computing => later + 2 * k + 6
    case Sending(next) => later + 2 * k - next + 4
    case Receiving(pending) => later + |pending| + 3
    case Awaiting => later + 2
    case Finished => 0
  }

  function CoordinatorWork(dep: Deployment, co: Coordinator): int
    requires dep.cfg.Good()
  {
    var k := dep.K();
    match co
    case Collecting(round, next, _) => (dep.cfg.iters - round - 1) * (2 * k + 4) + 3 * k + 3 - next
    case Broadcasting(round, next, _) => (dep.cfg.iters - round - 1) * (2 * k + 4) + 2 * k + 2 - next
    case Gathering(next, _) => k - next
  }

  function WorkersWork(dep: Deployment, ws: seq<Worker>): int
    requires dep.cfg.Good()
  {
    if ws == [] then 0 else WorkersWork(dep, ws[..|ws| - 1]) + WorkerWork(dep, ws[|ws| - 1])
  }

  function Work(dep: Deployment, s: State): int
    requires dep.cfg.Good()
  {
    WorkersWork(dep, s.workers) + CoordinatorWork(dep, s.coordinator)
  }

  lemma {:induction false} WorkOfUpdate(dep: Deployment, ws: seq<Worker>, c: nat, w: Worker)
    requires dep.cfg.Good() && c < |ws|
    ensures WorkersWork(dep, ws[c := w]) == WorkersWork(dep, ws) - WorkerWork(dep, ws[c]) + WorkerWork(dep, w)
  {
    hide WorkerWork;
    var last := |ws| - 1;
    if c == last {
      assert ws[c := w][..last] == ws[..last];
    } else {
      WorkOfUpdate(dep, ws[..last], c, w);
      assert ws[c := w][..last] == ws[..last][c := w];
    }
  }

  lemma {:induction false} CountBelow(s: set<nat>, k: nat)
    requires forall x :: x in s ==> x < k
    ensures |s| <= k
  {
    if k == 0 {
      assert s == {};
    } else {
      CountBelow(s - {k - 1}, k - 1);
      assert |s - {k - 1}| >= |s| - 1;
    }
  }

  lemma FewSenders(s: Setup)
    ensures |Senders(s)| <= |s.recv|
  {
    CountBelow(Senders(s), |s.recv|);
  }

  lemma WorkerWorkNonNegative(dep: Deployment, c: nat, w: Worker)
    requires dep.Good() && c < dep.K() && WorkerOk(dep, c, w)
    ensures WorkerWork(dep, w) >= 0
  {
    hide Rank, SetupFor, OwnedAt, AddAt, PartialAt, GhostsAt, Later;
    LaterFacts(dep, w.step);
  }

  lemma {:induction false} WorkersWorkNonNegative(dep: Deployment, ws: seq<Worker>)
    requires dep.cfg.Good() && forall i :: 0 <= i < |ws| ==> WorkerWork(dep, ws[i]) >= 0
    ensures WorkersWork(dep, ws) >= 0
  {
    hide WorkerWork;
    if ws != [] {
      WorkersWorkNonNegative(dep, ws[..|ws| - 1]);
    }
  }

  lemma WorkNonNegative(dep: Deployment, s: State)
    requires dep.Good() && Inv(dep, s)
    ensures Work(dep, s) >= 0
  {
    hide Rank, SetupFor, ChannelOk, UpOk, DownOk, WorkerOk, WorkerWork;
    forall c | 0 <= c < dep.K() ensures WorkerWork(dep, s.workers[c]) >= 0 {
      WorkerWorkNonNegative(dep, c, s.workers[c]);
    }
    WorkersWorkNonNegative(dep, s.workers);
    if !s.coordinator.Gathering? {
      NotNegative(dep.cfg.iters - s.coordinator.round - 1, 2 * dep.K() + 4);
    }
  }

  /** The worker an action belongs to, if it is not the coordinator's. */
  predicate OfWorker(a: Action, c: nat) {
    match a
    case Compute(w) => w == c
    case SendNext(w) => w == c
    case StartReceiving(w) => w == c
    case Receive(w, _) => w == c
    case SendPartial(w) => w == c
    case TakeAdd(w) => w == c
    case HandIn(w) => w == c
    case _ => false
  }

  lemma WorkerActionDecreases(dep: Deployment, s: State, a: Action, c: nat)
    requires dep.Good() && Inv(dep, s) && Enabled(dep, s, a) && c < dep.K() && OfWorker(a, c)
    ensures Next(dep, s, a).coordinator == s.coordinator
    ensures Next(dep, s, a).workers == s.workers[c := Next(dep, s, a).workers[c]]
    ensures WorkerWork(dep, Next(dep, s, a).workers[c]) < WorkerWork(dep, s.workers[c])
  {
    hide Rank, SetupFor, ChannelOk, UpOk, DownOk, WorkerOk, CoordinatorOk, Setup.Scatter, Setup.Outgoing, Later, Senders;
    var w := s.workers[c];
    assert WorkerOk(dep, c, w);
    StepBound(dep, c, w);
    LaterFacts(dep, w.step);
    if a == StartReceiving(c) {
      RecvTables(dep.cfg, c, dep.setups[c]);
      FewSenders(dep.setups[c]);
    }
  }

  lemma WorkerActionLowersWork(dep: Deployment, s: State, a: Action, c: nat)
    requires dep.Good() && Inv(dep, s) && Enabled(dep, s, a) && c < dep.K() && OfWorker(a, c)
    ensures Work(dep, Next(dep, s, a)) < Work(dep, s)
  {
    hide WorkerOk, ChannelOk, UpOk, DownOk, CoordinatorOk, SetupFor, WorkerWork, WorkersWork, CoordinatorWork, Next, Enabled;
    WorkerActionDecreases(dep, s, a, c);
    WorkOfUpdate(dep, s.workers, c, Next(dep, s, a).workers[c]);
  }

  lemma CoordinatorActionLowersWork(dep: Deployment, s: State, a: Action)
    requires dep.Good() && Inv(dep, s) && Enabled(dep, s, a)
    requires a.Collect? || a.StartBroadcast? || a.Broadcast? || a.EndBroadcast? || a.Gather?
    ensures Work(dep, Next(dep, s, a)) < Work(dep, s)
  {
    hide Rank, SetupFor, ChannelOk, UpOk, DownOk, WorkerOk, WorkersWork;
    if !s.coordinator.Gathering? {
      OneLess(dep.cfg.iters - s.coordinator.round - 1, 2 * dep.K() + 4);
    }
  }

  /** Every action lowers the work left. */
  lemma WorkDecreases(dep: Deployment, s: State, a: Action)
    requires dep.Good() && Inv(dep, s) && Enabled(dep, s, a)
    ensures Work(dep, Next(dep, s, a)) < Work(dep, s)
  {
    hide WorkerOk, ChannelOk, UpOk, DownOk, CoordinatorOk, SetupFor, Work, Next;
    match a
    case Compute(c) => WorkerActionLowersWork(dep, s, a, c);
    case SendNext(c) => WorkerActionLowersWork(dep, s, a, c);
    case StartReceiving(c) => WorkerActionLowersWork(dep, s, a, c);
    case Receive(c, src) => WorkerActionLowersWork(dep, s, a, c);
    case SendPartial(c) => WorkerActionLowersWork(dep, s, a, c);
    case TakeAdd(c) => WorkerActionLowersWork(dep, s, a, c);
    case HandIn(c) => WorkerActionLowersWork(dep, s, a, c);
    case _ => CoordinatorActionLowersWork(dep, s, a);
  }

  lemma {:induction false} RunLength(dep: Deployment, states: seq<State>, actions: seq<Action>, i: nat)
    requires dep.Good() && IsRun(dep, states, actions) && i < |states|
    ensures Work(dep, states[i]) <= Work(dep, states[0]) - i
  {
    hide Work, Next, Enabled, Init;
    if i > 0 {
      RunLength(dep, states, actions, i - 1);
      RunOk(dep, states, actions, i - 1);
      WorkDecreases(dep, states[i - 1], actions[i - 1]);
    }
  }

  /** Every interleaving ends: no run is longer than the work of its initial state, and a run that cannot
      be continued has gathered exactly the single-graph ranks. */
  lemma RunsEndExactly(dep: Deployment, states: seq<State>, actions: seq<Action>)
    requires dep.Good() && IsRun(dep, states, actions)
    ensures |actions| <= Work(dep, states[0])
    ensures Shaped(dep, states[|actions|])
    ensures (forall a :: !Enabled(dep, states[|actions|], a)) ==>
      && states[|actions|].coordinator.Gathering?
      && states[|actions|].coordinator.rank == Iterate(dep.cfg.g, dep.cfg.d, dep.cfg.iters)
  {
    hide Work, Next, Enabled, Init;
    var last := states[|actions|];
    RunLength(dep, states, actions, |actions|);
    RunOk(dep, states, actions, |actions|);
    WorkNonNegative(dep, last);
    if !Done(dep, last) {
      var a := NoDeadlock(dep, states, actions, |actions|);
    } else {
      assert CoordinatorOk(dep, last.coordinator);
      assert last.coordinator.rank[..dep.cfg.g.n] == last.coordinator.rank;
    }
  }
}
