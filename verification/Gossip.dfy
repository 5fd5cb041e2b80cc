/** Gossip flooding with dedup and relay-to-all-but-sender (nth_dao/gossip.py). */
module Gossip {
  import opened Prelude

  type Agent = string

  /** A signed target marker: absent, naming an agent, or not a string at all. */
  datatype Target = Everyone | Only(agent: Agent) | NotAString

  datatype Signature = NoSig | SignedBy(pubkey: string) | Broken

  /** `sentAt` is None when the timestamp is empty or does not parse. */
  datatype Message = Message(
    id: string, author: Agent, content: string, sentAt: Option<int>, sig: Signature,
    metadataIsDict: bool, target: Target)

  const REPLAY_WINDOW := 600
  const FUTURE_DRIFT := 60

  // ---------------------------------------------------------------- one node

  datatype NodeState = NodeState(seen: seq<string>, seenSet: set<string>, log: seq<Message>)

  /** A deque with a maximum length drops its left end. */
  function Push(seen: seq<string>, id: string, cap: nat): seq<string>
    requires cap > 0
  {
    if |seen| < cap then seen + [id] else seen[|seen| - cap + 1..] + [id]
  }

  function MarkSeen(st: NodeState, id: string, cap: nat): NodeState
    requires cap > 0
  {
    var kept := if |st.seen| == cap then st.seenSet - {st.seen[0]} else st.seenSet;
    st.(seen := Push(st.seen, id, cap), seenSet := kept + {id})
  }

  predicate InReplayWindow(m: Message, now: int) {
    m.sentAt.Some? && -FUTURE_DRIFT <= now - m.sentAt.value <= REPLAY_WINDOW
  }

  /** Every check of the handler except dedup; `key` is the author's pinned or transitively trusted key. */
  predicate Passes(me: Agent, requireSignature: bool, key: Option<string>, m: Message, now: int) {
    && m.id != "" && m.author != ""
    && InReplayWindow(m, now)
    && (requireSignature ==> m.sig != NoSig && key.Some? && key.value != "" && m.sig == SignedBy(key.value))
    && m.metadataIsDict
    && (m.target == Everyone || m.target == Only(me))
  }

  /** One handled packet: the next state and the peers the message is relayed to. */
  function Receive(st: NodeState, peers: set<Agent>, cap: nat, m: Message, from: Agent, passes: bool)
    : (NodeState, set<Agent>)
    requires cap > 0
  {
    if m.id in st.seenSet || !passes then (st, {})
    else
      var marked := MarkSeen(st, m.id, cap);
      (marked.(log := st.log + [m]), if m.target == Everyone then peers - {from} else {})
  }

  /** The author logs its own message and remembers the id in the deque only, not in the set. */
  function Originate(st: NodeState, cap: nat, m: Message): NodeState
    requires cap > 0
  {
    st.(seen := Push(st.seen, m.id, cap), log := st.log + [m])
  }

  class GossipNode {
    const me: Agent
    const cap: nat
    const requireSignature: bool
    /** Transitive trust, consulted when no key is pinned. */
    const trustGraph: Agent -> Option<string>
    var peers: set<Agent>
    var trusted: map<Agent, string>
    var seen: seq<string>
    var seenSet: set<string>
    var log: seq<Message>

    constructor (me: Agent, cap: nat, requireSignature: bool, trustGraph: Agent -> Option<string>,
                 trusted: map<Agent, string>, ownKey: string)
      requires cap > 0
      ensures Valid() && State() == NodeState([], {}, []) && peers == {}
      ensures this.me == me && this.cap == cap && this.trusted == trusted[me := ownKey]
    {
      this.me, this.cap, this.requireSignature, this.trustGraph := me, cap, requireSignature, trustGraph;
      this.trusted := trusted[me := ownKey];
      peers, seen, seenSet, log := {}, [], {}, [];
    }

    ghost predicate Valid()
      reads this
    {
      cap > 0 && |seen| <= cap
    }

    function State(): NodeState
      reads this
    {
      NodeState(seen, seenSet, log)
    }

    function KeyFor(author: Agent): Option<string>
      reads this
    {
      if author in trusted then Some(trusted[author])
      else match trustGraph(author) case Some(k) => if k == "" then None else Some(k) case None => None
    }

    /** A pinned key is never replaced. */
    method TrustAgent(agent: Agent, key: string) returns (ok: bool)
      modifies this`trusted
      ensures ok <==> agent != "" && key != "" && (agent !in old(trusted) || old(trusted)[agent] in {"", key})
      ensures trusted == if ok then old(trusted)[agent := key] else old(trusted)
    {
      if agent == "" || key == "" {
        return false;
      }
      if agent in trusted && trusted[agent] != "" && trusted[agent] != key {
        return false;
      }
      trusted := trusted[agent := key];
      return true;
    }

    method Broadcast(m: Message) returns (sends: set<Agent>)
      requires Valid()
      modifies this`seen, this`log
      ensures Valid() && State() == Originate(old(State()), cap, m) && sends == peers
    {
      log := log + [m];
      seen := Push(seen, m.id, cap);
      sends := peers;
    }

    method HandleGossip(m: Message, from: Agent, now: int) returns (sends: set<Agent>)
      requires Valid()
      modifies this`seen, this`seenSet, this`log
      ensures Valid()
      ensures (State(), sends) ==
              Receive(old(State()), peers, cap, m, from, Passes(me, requireSignature, old(KeyFor(m.author)), m, now))
      ensures log != old(log) ==>
                && log == old(log) + [m] && m.id !in old(seenSet) && m.id != "" && m.author != ""
                && m.sentAt.Some? && m.sentAt.value - 60 <= now <= m.sentAt.value + 600
                && m.metadataIsDict && m.target in {Everyone, Only(me)}
      ensures log != old(log) && requireSignature && m.author in trusted ==>
                trusted[m.author] != "" && m.sig == SignedBy(trusted[m.author])
      ensures log != old(log) && requireSignature && m.author !in trusted ==>
                exists k: string :: k != "" && trustGraph(m.author) == Some(k) && m.sig == SignedBy(k)
    {
      sends := {};
      if m.id == "" || m.author == "" {
        return;
      }
      if m.id in seenSet {
        return;
      }
      if !InReplayWindow(m, now) {
        return;
      }
      var key := KeyFor(m.author);
      if requireSignature {
        if m.sig == NoSig {
          return;
        }
        if key.None? || key.value == "" {
          return;
        }
        if m.sig != SignedBy(key.value) {
          return;
        }
      }
      if !m.metadataIsDict {
        return;
      }
      if m.target != Everyone && m.target != Only(me) {
        return;
      }
      if |seen| == cap {
        seenSet := seenSet - {seen[0]};
      }
      seenSet := seenSet + {m.id};
      seen := Push(seen, m.id, cap);
      log := log + [m];
      if m.target == Everyone {
        sends := peers - {from};
      }
    }
  }

  // ---------------------------------------------------------------- the network

  /** A fixed peer graph; `accepts` says which nodes' checks a message passes throughout the run. */
  datatype Config = Config(peers: map<Agent, set<Agent>>, cap: nat, accepts: (Agent, Message) -> bool)

  datatype Packet = Packet(from: Agent, to: Agent, m: Message)

  /** `born` records every message ever originated. */
  datatype Net = Net(nodes: map<Agent, NodeState>, wire: multiset<Packet>, born: set<Message>)

  datatype Step = Send(m: Message) | Deliver(p: Packet)

  ghost predicate Symmetric(cfg: Config) {
    && cfg.cap > 0
    && forall n, p {:trigger p in cfg.peers[n]} :: n in cfg.peers && p in cfg.peers[n] ==> p in cfg.peers && n in cfg.peers[p]
  }

  ghost function PacketsTo(from: Agent, to: set<Agent>, m: Message): set<Packet> {
    set p | p in to :: Packet(from, p, m)
  }

  ghost predicate Shaped(cfg: Config, net: Net) {
    && net.nodes.Keys == cfg.peers.Keys
    && forall p :: p in net.wire ==> p.to in cfg.peers
  }

  ghost predicate Fresh(net: Net, m: Message) {
    && m.id != "" && m.author in net.nodes
    && (forall b :: b in net.born ==> b.id != m.id)
    && (forall n :: n in net.nodes ==> m.id !in net.nodes[n].seenSet && m !in net.nodes[n].log)
    && forall p :: p in net.wire ==> p.m != m
  }

  /** Dedup never has to forget: a handled packet always finds room in the deque. */
  ghost predicate Enabled(cfg: Config, net: Net, step: Step)
    requires Symmetric(cfg) && Shaped(cfg, net)
  {
    match step
    case Send(m) => Fresh(net, m)
    case Deliver(p) => p in net.wire && (Handled(cfg, net, p) ==> |net.nodes[p.to].seen| < cfg.cap)
  }

  ghost predicate Handled(cfg: Config, net: Net, p: Packet)
    requires p.to in net.nodes
  {
    p.m.id !in net.nodes[p.to].seenSet && cfg.accepts(p.to, p.m)
  }

  ghost function After(cfg: Config, net: Net, step: Step): Net
    requires Symmetric(cfg) && Shaped(cfg, net) && Enabled(cfg, net, step)
  {
    match step
    case Send(m) =>
      Net(net.nodes[m.author := Originate(net.nodes[m.author], cfg.cap, m)],
          net.wire + multiset(PacketsTo(m.author, cfg.peers[m.author], m)), net.born + {m})
    case Deliver(p) =>
      var (st, out) := Receive(net.nodes[p.to], cfg.peers[p.to], cfg.cap, p.m, p.from, cfg.accepts(p.to, p.m));
      Net(net.nodes[p.to := st], net.wire - multiset{p} + multiset(PacketsTo(p.to, out, p.m)), net.born)
  }

  predicate Has(net: Net, n: Agent, m: Message) {
    n in net.nodes && (n == m.author || m.id in net.nodes[n].seenSet)
  }

  // ---------------------------------------------------------------- what every step keeps

  /** Ids are unique, packets carry born messages along graph edges from nodes that hold them. */
  ghost predicate WireOk(cfg: Config, net: Net) {
    && (forall m, b :: m in net.born && b in net.born && m.id == b.id ==> m == b)
    && (forall m :: m in net.born ==> m.author in net.nodes)
    && forall p :: p in net.wire ==> p.m in net.born && p.from in cfg.peers && p.to in cfg.peers[p.from] && Has(net, p.from, p.m)
  }

  /** Each node's handler has logged a message once if its id is marked and never otherwise;
      the author's own copy comes on top. */
  ghost predicate LoggedOnce(cfg: Config, net: Net) {
    forall n, m {:trigger multiset(net.nodes[n].log)[m]} :: n in net.nodes && m in net.born ==>
      multiset(net.nodes[n].log)[m] ==
      (if n == m.author then 1 else 0) + (if m.id in net.nodes[n].seenSet then 1 else 0)
  }

  /** Whoever holds a public message has told each neighbour, or the telling is on the wire, or is pointless. */
  ghost predicate Told(cfg: Config, net: Net, n: Agent, p: Agent, m: Message) {
    Packet(n, p, m) in net.wire || Has(net, p, m) || !cfg.accepts(p, m)
  }

  ghost predicate Covering(cfg: Config, net: Net) {
    forall n, p, m {:trigger Told(cfg, net, n, p, m)} ::
      m in net.born && m.target == Everyone && Has(net, n, m) && n in cfg.peers && p in cfg.peers[n] ==>
        Told(cfg, net, n, p, m)
  }

  predicate Hop(cfg: Config, m: Message, path: seq<Agent>, i: int)
    requires 0 < i < |path|
  {
    path[i - 1] in cfg.peers && path[i] in cfg.peers[path[i - 1]] && cfg.accepts(path[i], m)
  }

  /** A walk from the author over nodes whose checks the message passes. */
  predicate Walk(cfg: Config, m: Message, path: seq<Agent>) {
    path != [] && path[0] == m.author && forall i :: 0 < i < |path| ==> Hop(cfg, m, path, i)
  }

  ghost predicate Reached(cfg: Config, m: Message, n: Agent) {
    exists path :: Walk(cfg, m, path) && path[|path| - 1] == n
  }

  ghost predicate OnlyReached(cfg: Config, net: Net) {
    forall n, m {:trigger Has(net, n, m)} :: m in net.born && Has(net, n, m) ==>
      Reached(cfg, m, n) && (n == m.author || cfg.accepts(n, m))
  }

  ghost predicate Inv(cfg: Config, net: Net) {
    && Symmetric(cfg) && Shaped(cfg, net)
    && WireOk(cfg, net) && LoggedOnce(cfg, net) && Covering(cfg, net) && OnlyReached(cfg, net)
  }

  lemma SendChanges(cfg: Config, net: Net, m: Message)
    requires Symmetric(cfg) && Shaped(cfg, net) && Enabled(cfg, net, Send(m))
    ensures var net' := After(cfg, net, Send(m));
            && Shaped(cfg, net')
            && (forall n :: n in net.nodes ==> net'.nodes[n].seenSet == net.nodes[n].seenSet)
            && (forall n, b :: b != m ==> (Has(net', n, b) <==> Has(net, n, b)))
            && (forall n :: Has(net', n, m) <==> n == m.author)
            && (forall p :: p in net'.wire <==> p in net.wire || p in PacketsTo(m.author, cfg.peers[m.author], m))
  {
  }

  lemma SendKeepsWire(cfg: Config, net: Net, m: Message)
    requires Symmetric(cfg) && Shaped(cfg, net) && WireOk(cfg, net) && Enabled(cfg, net, Send(m))
    ensures WireOk(cfg, After(cfg, net, Send(m)))
  {
    SendChanges(cfg, net, m);
  }

  lemma SendKeepsLogs(cfg: Config, net: Net, m: Message)
    requires Symmetric(cfg) && Shaped(cfg, net) && LoggedOnce(cfg, net) && Enabled(cfg, net, Send(m))
    ensures LoggedOnce(cfg, After(cfg, net, Send(m)))
  {
    var net' := After(cfg, net, Send(m));
    SendChanges(cfg, net, m);
    forall n, b | n in net'.nodes && b in net'.born
      ensures multiset(net'.nodes[n].log)[b] ==
              (if n == b.author then 1 else 0) + (if b.id in net'.nodes[n].seenSet then 1 else 0)
    {
      assert m !in multiset(net.nodes[n].log);
      if n == m.author {
        assert multiset(net'.nodes[n].log) == multiset(net.nodes[n].log) + multiset{m};
      }
      if b != m {
        assert multiset(net.nodes[n].log)[b] ==
               (if n == b.author then 1 else 0) + (if b.id in net.nodes[n].seenSet then 1 else 0);
      }
    }
  }

  lemma SendKeepsCover(cfg: Config, net: Net, m: Message)
    requires Symmetric(cfg) && Shaped(cfg, net) && Covering(cfg, net) && OnlyReached(cfg, net) && Enabled(cfg, net, Send(m))
    ensures Covering(cfg, After(cfg, net, Send(m))) && OnlyReached(cfg, After(cfg, net, Send(m)))
  {
    var net' := After(cfg, net, Send(m));
    SendChanges(cfg, net, m);
    forall n, p, b | b in net'.born && b.target == Everyone && Has(net', n, b) && n in cfg.peers && p in cfg.peers[n]
      ensures Told(cfg, net', n, p, b)
    {
      if b == m {
        assert Packet(n, p, m) in PacketsTo(m.author, cfg.peers[m.author], m);
      } else {
        assert Told(cfg, net, n, p, b);
      }
    }
    forall n, b | b in net'.born && Has(net', n, b)
      ensures Reached(cfg, b, n) && (n == b.author || cfg.accepts(n, b))
    {
      if b == m {
        assert Walk(cfg, m, [m.author]);
      } else {
        assert Has(net, n, b);
      }
    }
  }

  lemma DeliverMarks(cfg: Config, net: Net, p: Packet)
    requires Symmetric(cfg) && Shaped(cfg, net) && Enabled(cfg, net, Deliver(p))
    ensures var net' := After(cfg, net, Deliver(p));
            && net'.nodes.Keys == net.nodes.Keys
            && (forall n, id :: n in net.nodes ==> (id in net'.nodes[n].seenSet <==>
                 id in net.nodes[n].seenSet || (n == p.to && id == p.m.id && Handled(cfg, net, p))))
  {
  }

  lemma DeliverHas(cfg: Config, net: Net, p: Packet)
    requires Symmetric(cfg) && Shaped(cfg, net) && WireOk(cfg, net) && Enabled(cfg, net, Deliver(p))
    ensures var net' := After(cfg, net, Deliver(p));
            && net'.nodes.Keys == net.nodes.Keys && net'.born == net.born
            && forall n, b :: b in net.born ==>
                 (Has(net', n, b) <==> Has(net, n, b) || (n == p.to && b == p.m && Handled(cfg, net, p)))
  {
    DeliverMarks(cfg, net, p);
  }

  ghost function Relayed(cfg: Config, net: Net, p: Packet): set<Packet>
    requires Shaped(cfg, net) && p in net.wire
  {
    if Handled(cfg, net, p) && p.m.target == Everyone then PacketsTo(p.to, cfg.peers[p.to] - {p.from}, p.m) else {}
  }

  lemma DeliverWire(cfg: Config, net: Net, p: Packet)
    requires Symmetric(cfg) && Shaped(cfg, net) && Enabled(cfg, net, Deliver(p))
    ensures var net' := After(cfg, net, Deliver(p));
            && net'.wire == net.wire - multiset{p} + multiset(Relayed(cfg, net, p))
            && (forall q :: q in net'.wire ==> q in net.wire || q in Relayed(cfg, net, p))
            && (forall q :: q in net.wire && q != p ==> q in net'.wire)
            && (forall q :: q in Relayed(cfg, net, p) ==> q in net'.wire)
            && Shaped(cfg, net')
  {
    var net' := After(cfg, net, Deliver(p));
    var out := if Handled(cfg, net, p) && p.m.target == Everyone then cfg.peers[p.to] - {p.from} else {};
    assert net'.wire == net.wire - multiset{p} + multiset(PacketsTo(p.to, out, p.m));
    assert PacketsTo(p.to, out, p.m) == Relayed(cfg, net, p);
    forall q | q in Relayed(cfg, net, p) ensures q.to in cfg.peers {
      assert q.to in cfg.peers[p.to];
    }
  }

  lemma DeliverKeepsWire(cfg: Config, net: Net, p: Packet)
    requires Symmetric(cfg) && Shaped(cfg, net) && WireOk(cfg, net) && Enabled(cfg, net, Deliver(p))
    ensures WireOk(cfg, After(cfg, net, Deliver(p)))
  {
    DeliverHas(cfg, net, p);
    DeliverWire(cfg, net, p);
    var net' := After(cfg, net, Deliver(p));
    forall q | q in net'.wire
      ensures q.m in net'.born && q.from in cfg.peers && q.to in cfg.peers[q.from] && Has(net', q.from, q.m)
    {
      if q !in net.wire {
        assert Handled(cfg, net, p) && q.from == p.to && q.m == p.m;
      }
    }
  }

  lemma DeliverKeepsLogs(cfg: Config, net: Net, p: Packet)
    requires Symmetric(cfg) && Shaped(cfg, net) && WireOk(cfg, net) && LoggedOnce(cfg, net) && Enabled(cfg, net, Deliver(p))
    ensures LoggedOnce(cfg, After(cfg, net, Deliver(p)))
  {
    DeliverMarks(cfg, net, p);
    var net' := After(cfg, net, Deliver(p));
    forall n, b | n in net'.nodes && b in net'.born
      ensures multiset(net'.nodes[n].log)[b] ==
              (if n == b.author then 1 else 0) + (if b.id in net'.nodes[n].seenSet then 1 else 0)
    {
      assert multiset(net.nodes[n].log)[b] ==
             (if n == b.author then 1 else 0) + (if b.id in net.nodes[n].seenSet then 1 else 0);
      if n == p.to && Handled(cfg, net, p) {
        assert multiset(net'.nodes[n].log) == multiset(net.nodes[n].log) + multiset{p.m};
      }
    }
  }

  lemma DeliverKeepsCover(cfg: Config, net: Net, p: Packet)
    requires Symmetric(cfg) && Shaped(cfg, net) && WireOk(cfg, net) && Covering(cfg, net) && Enabled(cfg, net, Deliver(p))
    ensures Covering(cfg, After(cfg, net, Deliver(p)))
  {
    DeliverHas(cfg, net, p);
    DeliverWire(cfg, net, p);
    var net' := After(cfg, net, Deliver(p));
    forall n, q, b | b in net'.born && b.target == Everyone && Has(net', n, b) && n in cfg.peers && q in cfg.peers[n]
      ensures Told(cfg, net', n, q, b)
    {
      if Has(net, n, b) {
        assert Told(cfg, net, n, q, b);
        if Packet(n, q, b) == p && !Handled(cfg, net, p) && cfg.accepts(q, b) {
          assert Has(net, q, b);
        }
      } else {
        assert n == p.to && b == p.m && Handled(cfg, net, p);
        if q == p.from {
          assert Has(net, q, b);
        } else {
          assert Packet(n, q, b) in Relayed(cfg, net, p);
        }
      }
    }
  }

  lemma ExtendWalk(cfg: Config, m: Message, n: Agent, p: Agent)
    requires Reached(cfg, m, n) && n in cfg.peers && p in cfg.peers[n] && cfg.accepts(p, m)
    ensures Reached(cfg, m, p)
  {
    var path :| Walk(cfg, m, path) && path[|path| - 1] == n;
    var longer := path + [p];
    forall i | 0 < i < |longer| ensures Hop(cfg, m, longer, i) {
      assert i < |path| ==> Hop(cfg, m, path, i);
    }
    assert Walk(cfg, m, longer);
  }

  lemma DeliverKeepsReach(cfg: Config, net: Net, p: Packet)
    requires Symmetric(cfg) && Shaped(cfg, net) && WireOk(cfg, net) && OnlyReached(cfg, net) && Enabled(cfg, net, Deliver(p))
    ensures OnlyReached(cfg, After(cfg, net, Deliver(p)))
  {
    DeliverHas(cfg, net, p);
    var net' := After(cfg, net, Deliver(p));
    forall n, b | b in net'.born && Has(net', n, b)
      ensures Reached(cfg, b, n) && (n == b.author || cfg.accepts(n, b))
    {
      if !Has(net, n, b) {
        assert Has(net, p.from, p.m);
        ExtendWalk(cfg, p.m, p.from, p.to);
      }
    }
  }

  lemma StepKeepsInv(cfg: Config, net: Net, step: Step)
    requires Inv(cfg, net) && Enabled(cfg, net, step)
    ensures Inv(cfg, After(cfg, net, step))
  {
    match step
    case Send(m) =>
      SendChanges(cfg, net, m);
      SendKeepsWire(cfg, net, m);
      SendKeepsLogs(cfg, net, m);
      SendKeepsCover(cfg, net, m);
    case Deliver(p) =>
      DeliverWire(cfg, net, p);
      DeliverKeepsWire(cfg, net, p);
      DeliverKeepsLogs(cfg, net, p);
      DeliverKeepsCover(cfg, net, p);
      DeliverKeepsReach(cfg, net, p);
  }

  // ---------------------------------------------------------------- whole runs

  ghost predicate Run(cfg: Config, nets: seq<Net>, steps: seq<Step>) {
    && Symmetric(cfg)
    && |nets| == |steps| + 1
    && forall i :: 0 <= i < |steps| ==>
         Shaped(cfg, nets[i]) && Enabled(cfg, nets[i], steps[i]) && nets[i + 1] == After(cfg, nets[i], steps[i])
  }

  ghost predicate Quiet(cfg: Config, net: Net) {
    Shaped(cfg, net) && net.wire == multiset{} && net.born == {} && forall n :: n in net.nodes ==> net.nodes[n].log == []
  }

  lemma {:induction false} RunKeepsInv(cfg: Config, nets: seq<Net>, steps: seq<Step>, k: nat)
    requires Run(cfg, nets, steps) && Inv(cfg, nets[0]) && k <= |steps|
    ensures Inv(cfg, nets[k])
  {
    if k > 0 {
      RunKeepsInv(cfg, nets, steps, k - 1);
      StepKeepsInv(cfg, nets[k - 1], steps[k - 1]);
    }
  }

  /** In every reachable network each node's log holds a message at most once, an author's at most twice:
      the copy it wrote itself and one echo. */
  lemma LoggedAtMostOnce(cfg: Config, nets: seq<Net>, steps: seq<Step>, k: nat, n: Agent, m: Message)
    requires Run(cfg, nets, steps) && Quiet(cfg, nets[0]) && k <= |steps|
    requires n in nets[k].nodes && m in nets[k].born
    ensures multiset(nets[k].nodes[n].log)[m] <= if n == m.author then 2 else 1
  {
    RunKeepsInv(cfg, nets, steps, k);
    assert multiset(nets[k].nodes[n].log)[m] ==
           (if n == m.author then 1 else 0) + (if m.id in nets[k].nodes[n].seenSet then 1 else 0);
  }

  lemma {:induction false} WalkIsCovered(cfg: Config, net: Net, m: Message, path: seq<Agent>, i: nat)
    requires Inv(cfg, net) && net.wire == multiset{} && m in net.born && m.target == Everyone
    requires Walk(cfg, m, path) && i < |path|
    ensures Has(net, path[i], m)
  {
    if i > 0 {
      WalkIsCovered(cfg, net, m, path, i - 1);
      assert Hop(cfg, m, path, i);
      assert Told(cfg, net, path[i - 1], path[i], m);
    }
  }

  /** When the wire is empty, a public message is in exactly the logs that some walk of accepting nodes
      leads to, although no relay ever answers its sender. */
  lemma QuiescenceCovers(cfg: Config, nets: seq<Net>, steps: seq<Step>, n: Agent, m: Message)
    requires Run(cfg, nets, steps) && Quiet(cfg, nets[0])
    requires var net := nets[|steps|]; net.wire == multiset{} && n in net.nodes && m in net.born && m.target == Everyone
    ensures m in nets[|steps|].nodes[n].log <==> Reached(cfg, m, n)
  {
    var net := nets[|steps|];
    RunKeepsInv(cfg, nets, steps, |steps|);
    assert multiset(net.nodes[n].log)[m] ==
           (if n == m.author then 1 else 0) + (if m.id in net.nodes[n].seenSet then 1 else 0);
    assert m in net.nodes[n].log <==> m in multiset(net.nodes[n].log);
    assert m in net.nodes[n].log <==> Has(net, n, m);
    if Reached(cfg, m, n) {
      var path :| Walk(cfg, m, path) && path[|path| - 1] == n;
      WalkIsCovered(cfg, net, m, path, |path| - 1);
    }
  }

  lemma StepKeepsSeen(cfg: Config, net: Net, step: Step, n: Agent, id: string)
    requires Symmetric(cfg) && Shaped(cfg, net) && Enabled(cfg, net, step)
    requires n in net.nodes && id in net.nodes[n].seenSet
    ensures n in After(cfg, net, step).nodes && id in After(cfg, net, step).nodes[n].seenSet
  {
    match step
    case Send(m) => SendChanges(cfg, net, m);
    case Deliver(p) => DeliverMarks(cfg, net, p);
  }

  lemma {:induction false} SeenPersists(cfg: Config, nets: seq<Net>, steps: seq<Step>, i: nat, j: nat, n: Agent, id: string)
    requires Run(cfg, nets, steps) && i <= j <= |steps|
    requires n in nets[i].nodes && id in nets[i].nodes[n].seenSet
    ensures n in nets[j].nodes && id in nets[j].nodes[n].seenSet
  {
    if i < j {
      SeenPersists(cfg, nets, steps, i, j - 1, n, id);
      StepKeepsSeen(cfg, nets[j - 1], steps[j - 1], n, id);
    }
  }

  /** Of all the copies of a message that ever reach a node, at most one is handled, hence relayed. */
  lemma HandledAtMostOnce(cfg: Config, nets: seq<Net>, steps: seq<Step>, i: nat, j: nat)
    requires Run(cfg, nets, steps) && Quiet(cfg, nets[0]) && i < j < |steps|
    requires steps[i].Deliver? && steps[j].Deliver?
    requires steps[i].p.to == steps[j].p.to && steps[i].p.m == steps[j].p.m
    requires Handled(cfg, nets[i], steps[i].p)
    ensures !Handled(cfg, nets[j], steps[j].p)
  {
    DeliverMarks(cfg, nets[i], steps[i].p);
    SeenPersists(cfg, nets, steps, i + 1, j, steps[i].p.to, steps[i].p.m.id);
  }

  // ---------------------------------------------------------------- the limits of dedup

  /** The author does not mark its own id, so the first echo is logged and relayed like a stranger's message. */
  lemma AuthorLogsItsEcho(st: NodeState, peers: set<Agent>, cap: nat, m: Message, from: Agent)
    requires cap > 0 && m.id !in st.seenSet && m !in st.log
    ensures multiset(Receive(Originate(st, cap, m), peers, cap, m, from, true).0.log)[m] == 2
  {
    assert m !in multiset(st.log);
    assert Receive(Originate(st, cap, m), peers, cap, m, from, true).0.log == st.log + [m] + [m];
  }

  /** Handling another message forgets an id exactly when the deque is full and that id is at its left end;
      a forgotten message is handled again. */
  lemma ForgottenIffOldest(st: NodeState, peers: set<Agent>, cap: nat, x: Message, from: Agent, m: Message)
    requires 0 < cap && |st.seen| <= cap && x.id !in st.seenSet && m.id in st.seenSet
    ensures var st' := Receive(st, peers, cap, x, from, true).0;
            && (m.id !in st'.seenSet <==> |st.seen| == cap && st.seen[0] == m.id)
            && (Receive(st', peers, cap, m, from, true).0 == st' <==> m.id in st'.seenSet)
  {
    var st' := Receive(st, peers, cap, x, from, true).0;
    if m.id !in st'.seenSet {
      assert |Receive(st', peers, cap, m, from, true).0.log| == |st'.log| + 1;
    }
  }

  // ---------------------------------------------------------------- termination

  ghost function Unhandled(net: Net): set<(Agent, Message)> {
    set n, m | n in net.nodes && m in net.born && m.id !in net.nodes[n].seenSet :: (n, m)
  }

  /** Packets in flight plus, for every message a node has not handled, the packets handling it could add. */
  ghost function Work(cfg: Config, net: Net): nat {
    |net.wire| + |Unhandled(net)| * (|cfg.peers| + 1)
  }

  lemma {:induction false} FewPackets(from: Agent, agents: set<Agent>, m: Message)
    ensures |PacketsTo(from, agents, m)| <= |agents|
    decreases agents
  {
    if p :| p in agents {
      FewPackets(from, agents - {p}, m);
      assert PacketsTo(from, agents, m) == PacketsTo(from, agents - {p}, m) + {Packet(from, p, m)};
    } else {
      assert PacketsTo(from, agents, m) == {};
    }
  }

  lemma UnhandledAfter(cfg: Config, net: Net, p: Packet)
    requires Symmetric(cfg) && Shaped(cfg, net) && WireOk(cfg, net) && Enabled(cfg, net, Deliver(p))
    ensures var left := if Handled(cfg, net, p) then {(p.to, p.m)} else {};
            left <= Unhandled(net) && Unhandled(After(cfg, net, Deliver(p))) == Unhandled(net) - left
  {
    DeliverMarks(cfg, net, p);
    var left := if Handled(cfg, net, p) then {(p.to, p.m)} else {};
    var net' := After(cfg, net, Deliver(p));
    assert net'.born == net.born;
    assert forall n, m :: (n, m) in Unhandled(net') <==> (n, m) in Unhandled(net) && (n, m) !in left;
  }

  lemma UnhandledCount(cfg: Config, net: Net, p: Packet)
    requires Symmetric(cfg) && Shaped(cfg, net) && WireOk(cfg, net) && Enabled(cfg, net, Deliver(p))
    ensures |Unhandled(After(cfg, net, Deliver(p)))| == |Unhandled(net)| - if Handled(cfg, net, p) then 1 else 0
  {
    UnhandledAfter(cfg, net, p);
    if !Handled(cfg, net, p) {
      assert Unhandled(net) - {} == Unhandled(net);
    }
  }

  lemma WireAfter(cfg: Config, net: Net, p: Packet)
    requires Symmetric(cfg) && Shaped(cfg, net) && Enabled(cfg, net, Deliver(p))
    ensures |After(cfg, net, Deliver(p)).wire| <= |net.wire| - 1 + if Handled(cfg, net, p) then |cfg.peers| else 0
  {
    DeliverWire(cfg, net, p);
    if Handled(cfg, net, p) {
      var out := cfg.peers[p.to] - {p.from};
      FewPackets(p.to, out, p.m);
      assert out <= cfg.peers.Keys;
      SubsetSize(out, cfg.peers.Keys);
    }
  }

  lemma DeliveryReducesWork(cfg: Config, net: Net, p: Packet)
    requires Symmetric(cfg) && Shaped(cfg, net) && WireOk(cfg, net) && Enabled(cfg, net, Deliver(p))
    ensures Work(cfg, After(cfg, net, Deliver(p))) < Work(cfg, net)
  {
    UnhandledCount(cfg, net, p);
    WireAfter(cfg, net, p);
    var net', handled := After(cfg, net, Deliver(p)), if Handled(cfg, net, p) then 1 else 0;
    Spent(|net.wire|, |net'.wire|, |Unhandled(net)|, handled, |cfg.peers|);
  }

  lemma Spent(wire: int, wire': int, unhandled: int, handled: int, peers: int)
    requires 0 <= handled <= 1 && wire' <= wire - 1 + if handled == 1 then peers else 0
    ensures wire' + (unhandled - handled) * (peers + 1) < wire + unhandled * (peers + 1)
  {
    assert (unhandled - 1) * (peers + 1) == unhandled * (peers + 1) - (peers + 1);
  }

  /** Every schedule of deliveries is finite: no run delivers more packets than the work it started with. */
  lemma {:induction false} FloodTerminates(cfg: Config, nets: seq<Net>, steps: seq<Step>)
    requires Run(cfg, nets, steps) && Inv(cfg, nets[0]) && forall i :: 0 <= i < |steps| ==> steps[i].Deliver?
    ensures |steps| + Work(cfg, nets[|steps|]) <= Work(cfg, nets[0])
    decreases |steps|
  {
    if steps != [] {
      var n := |steps| - 1;
      FloodTerminates(cfg, nets[..n + 1], steps[..n]);
      RunKeepsInv(cfg, nets, steps, n);
      DeliveryReducesWork(cfg, nets[n], steps[n].p);
    }
  }
}
