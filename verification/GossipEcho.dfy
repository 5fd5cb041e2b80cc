/** When an author hears its own message again (nth_dao/gossip.py): the author's id is not in the dedup set, and
    no relay answers its sender, so an echo has to come around a cycle of the peer graph. */
module GossipEcho {
  import opened Prelude
  import opened Gossip

  /** A path without repetition from the author over accepting nodes, whose end is a neighbour of the author. A
      path of two nodes does not count: its end heard the message from the author and does not answer it. */
  ghost predicate Cycle(cfg: Config, m: Message, path: seq<Agent>) {
    && Walk(cfg, m, path) && NoDup(path) && |path| != 2
    && path[|path| - 1] in cfg.peers && m.author in cfg.peers[path[|path| - 1]]
  }

  ghost predicate HasCycle(cfg: Config, m: Message) {
    exists path :: Cycle(cfg, m, path)
  }

  // ---------------------------------------------------------------- an echo needs a cycle

  /** A path without repetition from the author to `n` over nodes that hold the message. */
  ghost predicate Trail(cfg: Config, net: Net, m: Message, path: seq<Agent>, n: Agent) {
    && Walk(cfg, m, path) && NoDup(path) && path[|path| - 1] == n
    && forall i :: 0 <= i < |path| ==> Has(net, path[i], m)
  }

  ghost predicate HasTrail(cfg: Config, net: Net, m: Message, n: Agent) {
    exists path :: Trail(cfg, net, m, path, n)
  }

  ghost predicate Trails(cfg: Config, net: Net) {
    forall n, m {:trigger HasTrail(cfg, net, m, n)} :: m in net.born && Has(net, n, m) ==> HasTrail(cfg, net, m, n)
  }

  /** What is on its way back to an author, or has arrived, came around a cycle. */
  ghost predicate Echoes(cfg: Config, net: Net) {
    && (forall p :: p in net.wire && p.to == p.m.author ==> HasCycle(cfg, p.m))
    && (forall m :: m in net.born && m.author in net.nodes && m.id in net.nodes[m.author].seenSet ==>
          cfg.accepts(m.author, m) && HasCycle(cfg, m))
  }

  lemma AloneIsTrail(cfg: Config, net: Net, m: Message)
    requires Has(net, m.author, m)
    ensures Trail(cfg, net, m, [m.author], m.author)
  {
  }

  lemma SelfLoopIsCycle(cfg: Config, m: Message)
    requires m.author in cfg.peers && m.author in cfg.peers[m.author]
    ensures HasCycle(cfg, m)
  {
    assert Cycle(cfg, m, [m.author]);
  }

  lemma TrailGrows(cfg: Config, net: Net, m: Message, path: seq<Agent>, n: Agent, q: Agent)
    requires Trail(cfg, net, m, path, n) && n in cfg.peers && q in cfg.peers[n] && cfg.accepts(q, m) && !Has(net, q, m)
    ensures Walk(cfg, m, path + [q]) && NoDup(path + [q])
  {
    var longer := path + [q];
    forall i | 0 < i < |longer| ensures Hop(cfg, m, longer, i) {
      assert i < |path| ==> Hop(cfg, m, path, i);
    }
    AppendNoDup(path, q);
  }

  lemma SendKeepsTrails(cfg: Config, net: Net, m: Message)
    requires Inv(cfg, net) && Trails(cfg, net) && Echoes(cfg, net) && Enabled(cfg, net, Send(m))
    ensures Trails(cfg, After(cfg, net, Send(m))) && Echoes(cfg, After(cfg, net, Send(m)))
  {
    var net' := After(cfg, net, Send(m));
    SendChanges(cfg, net, m);
    forall n, b | b in net'.born && Has(net', n, b) ensures HasTrail(cfg, net', b, n) {
      if b == m {
        AloneIsTrail(cfg, net', m);
      } else {
        assert HasTrail(cfg, net, b, n);
        var path :| Trail(cfg, net, b, path, n);
        assert Trail(cfg, net', b, path, n);
      }
    }
    forall p | p in net'.wire && p.to == p.m.author ensures HasCycle(cfg, p.m) {
      if p !in net.wire { SelfLoopIsCycle(cfg, m); }
    }
  }

  lemma HandledIsNew(cfg: Config, net: Net, p: Packet)
    requires Inv(cfg, net) && Enabled(cfg, net, Deliver(p)) && Handled(cfg, net, p) && p.to != p.m.author
    ensures !Has(net, p.to, p.m) && cfg.accepts(p.to, p.m) && p.m in net.born
    ensures p.from in cfg.peers && p.to in cfg.peers[p.from] && Has(net, p.from, p.m)
  {
  }

  lemma DeliverKeepsTrails(cfg: Config, net: Net, p: Packet)
    requires Inv(cfg, net) && Trails(cfg, net) && Enabled(cfg, net, Deliver(p))
    ensures Trails(cfg, After(cfg, net, Deliver(p)))
  {
    var net' := After(cfg, net, Deliver(p));
    DeliverHas(cfg, net, p);
    forall n, b | b in net'.born && Has(net', n, b) ensures HasTrail(cfg, net', b, n) {
      if Has(net, n, b) {
        assert HasTrail(cfg, net, b, n);
        var path :| Trail(cfg, net, b, path, n);
        assert Trail(cfg, net', b, path, n);
      } else {
        HandledIsNew(cfg, net, p);
        assert HasTrail(cfg, net, b, p.from);
        var path :| Trail(cfg, net, b, path, p.from);
        TrailGrows(cfg, net, b, path, p.from, n);
        assert Trail(cfg, net', b, path + [n], n);
      }
    }
  }

  lemma RelayToAuthor(cfg: Config, net: Net, p: Packet, q: Packet)
    requires Inv(cfg, net) && Trails(cfg, net) && Enabled(cfg, net, Deliver(p))
    requires q in Relayed(cfg, net, p) && q.to == q.m.author
    ensures HasCycle(cfg, q.m)
  {
    var m := p.m;
    assert q.m == m && q.from == p.to && q.to in cfg.peers[p.to] && q.to != p.from && p.to in cfg.peers;
    if p.to == m.author {
      SelfLoopIsCycle(cfg, m);
    } else {
      HandledIsNew(cfg, net, p);
      assert HasTrail(cfg, net, m, p.from);
      var path :| Trail(cfg, net, m, path, p.from);
      TrailGrows(cfg, net, m, path, p.from, p.to);
      assert |path| > 1;
      assert Cycle(cfg, m, path + [p.to]);
    }
  }

  lemma DeliverKeepsEchoes(cfg: Config, net: Net, p: Packet)
    requires Inv(cfg, net) && Trails(cfg, net) && Echoes(cfg, net) && Enabled(cfg, net, Deliver(p))
    ensures Echoes(cfg, After(cfg, net, Deliver(p)))
  {
    var net' := After(cfg, net, Deliver(p));
    DeliverWire(cfg, net, p);
    DeliverMarks(cfg, net, p);
    forall q | q in net'.wire && q.to == q.m.author ensures HasCycle(cfg, q.m) {
      if q !in net.wire { RelayToAuthor(cfg, net, p, q); }
    }
    forall b | b in net'.born && b.author in net'.nodes && b.id in net'.nodes[b.author].seenSet
      ensures cfg.accepts(b.author, b) && HasCycle(cfg, b)
    {
      if b.id !in net.nodes[b.author].seenSet {
        assert p.m in net.born && p.m.id == b.id;
      }
    }
  }

  lemma QuietHasNoEchoes(cfg: Config, net: Net)
    requires Quiet(cfg, net)
    ensures Trails(cfg, net) && Echoes(cfg, net)
  {
  }

  lemma RunStep(cfg: Config, nets: seq<Net>, steps: seq<Step>, i: nat)
    requires Run(cfg, nets, steps) && i < |steps|
    ensures Enabled(cfg, nets[i], steps[i]) && nets[i + 1] == After(cfg, nets[i], steps[i])
  {
  }

  lemma {:induction false} RunKeepsEchoes(cfg: Config, nets: seq<Net>, steps: seq<Step>, k: nat)
    requires Run(cfg, nets, steps) && Quiet(cfg, nets[0]) && k <= |steps|
    ensures Inv(cfg, nets[k]) && Trails(cfg, nets[k]) && Echoes(cfg, nets[k])
  {
    RunKeepsInv(cfg, nets, steps, k);
    if k == 0 {
      QuietHasNoEchoes(cfg, nets[0]);
    } else {
      RunKeepsEchoes(cfg, nets, steps, k - 1);
      RunStep(cfg, nets, steps, k - 1);
      StepKeepsEchoes(cfg, nets[k - 1], steps[k - 1]);
    }
  }

  lemma StepKeepsEchoes(cfg: Config, net: Net, step: Step)
    requires Inv(cfg, net) && Trails(cfg, net) && Echoes(cfg, net) && Enabled(cfg, net, step)
    ensures Trails(cfg, After(cfg, net, step)) && Echoes(cfg, After(cfg, net, step))
  {
    match step
    case Send(m) => SendKeepsTrails(cfg, net, m);
    case Deliver(p) =>
      DeliverKeepsTrails(cfg, net, p);
      DeliverKeepsEchoes(cfg, net, p);
  }

  // ---------------------------------------------------------------- a cycle makes an echo

  /** Some schedule leads from one network to the other. */
  ghost predicate Leads(cfg: Config, net: Net, end: Net) {
    exists nets: seq<Net>, steps: seq<Step> :: Run(cfg, nets, steps) && nets[0] == net && nets[|steps|] == end
  }

  lemma LeadsNowhere(cfg: Config, net: Net)
    requires Symmetric(cfg)
    ensures Leads(cfg, net, net)
  {
    var nets: seq<Net>, steps: seq<Step> := [net], [];
    assert Run(cfg, nets, steps);
  }

  lemma RunOn(cfg: Config, nets: seq<Net>, steps: seq<Step>, step: Step, next: Net)
    requires Run(cfg, nets, steps) && Shaped(cfg, nets[|steps|]) && Enabled(cfg, nets[|steps|], step)
    requires next == After(cfg, nets[|steps|], step)
    ensures Run(cfg, nets + [next], steps + [step])
  {
    var nets', steps' := nets + [next], steps + [step];
    forall i | 0 <= i < |steps'|
      ensures Shaped(cfg, nets'[i]) && Enabled(cfg, nets'[i], steps'[i]) && nets'[i + 1] == After(cfg, nets'[i], steps'[i])
    {
      assert nets'[i] == nets[i];
      if i < |steps| { assert nets'[i + 1] == nets[i + 1] && steps'[i] == steps[i]; }
    }
  }

  lemma LeadsOn(cfg: Config, net: Net, mid: Net, step: Step)
    requires Symmetric(cfg) && Leads(cfg, net, mid) && Shaped(cfg, mid) && Enabled(cfg, mid, step)
    ensures Leads(cfg, net, After(cfg, mid, step))
  {
    var nets: seq<Net>, steps: seq<Step> :| Run(cfg, nets, steps) && nets[0] == net && nets[|steps|] == mid;
    var next := After(cfg, mid, step);
    RunOn(cfg, nets, steps, step, next);
    assert (nets + [next])[0] == net && (nets + [next])[|steps + [step]|] == next;
  }

  /** This node has not handled the message and has room to. */
  predicate Waits(cfg: Config, net: Net, n: Agent, m: Message) {
    n in net.nodes && m.id !in net.nodes[n].seenSet && |net.nodes[n].seen| < cfg.cap
  }

  /** Who hears next after the first `i + 1` nodes of the path: the next one, or at the end the author. */
  function NextHop(m: Message, path: seq<Agent>, i: nat): Agent {
    if i + 1 < |path| then path[i + 1] else m.author
  }

  /** The message is on its way from the `i`-th node of the cycle to the next; the rest and the author wait. */
  ghost predicate UnderWay(cfg: Config, net: Net, m: Message, path: seq<Agent>, i: nat) {
    && i < |path| && Shaped(cfg, net) && m in net.born
    && Packet(path[i], NextHop(m, path, i), m) in net.wire
    && Waits(cfg, net, m.author, m) && forall j :: i < j < |path| ==> Waits(cfg, net, path[j], m)
  }

  /** Every node has room for two more ids. */
  ghost predicate Roomy(cfg: Config, net: Net) {
    forall n :: n in net.nodes ==> |net.nodes[n].seen| + 2 <= cfg.cap
  }

  lemma PathInGraph(cfg: Config, m: Message, path: seq<Agent>, j: nat)
    requires Symmetric(cfg) && Cycle(cfg, m, path) && j < |path|
    ensures path[j] in cfg.peers && NextHop(m, path, j) in cfg.peers[path[j]]
  {
    if j + 1 < |path| { assert Hop(cfg, m, path, j + 1); }
  }

  lemma SendStarts(cfg: Config, net: Net, m: Message, path: seq<Agent>)
    requires Symmetric(cfg) && Quiet(cfg, net) && Roomy(cfg, net) && Cycle(cfg, m, path) && Enabled(cfg, net, Send(m))
    ensures UnderWay(cfg, After(cfg, net, Send(m)), m, path, 0)
  {
    var net' := After(cfg, net, Send(m));
    SendChanges(cfg, net, m);
    PathInGraph(cfg, m, path, 0);
    assert Packet(path[0], NextHop(m, path, 0), m) in PacketsTo(m.author, cfg.peers[m.author], m);
    forall j | 0 < j < |path| ensures Waits(cfg, net', path[j], m) {
      PathInGraph(cfg, m, path, j);
      assert path[j] != path[0];
    }
  }

  lemma NextStep(cfg: Config, net: Net, m: Message, path: seq<Agent>, i: nat)
    requires Symmetric(cfg) && Cycle(cfg, m, path) && m.target == Everyone && UnderWay(cfg, net, m, path, i) && i + 1 < |path|
    ensures var step := Deliver(Packet(path[i], path[i + 1], m));
            Enabled(cfg, net, step) && UnderWay(cfg, After(cfg, net, step), m, path, i + 1)
  {
    var p := Packet(path[i], path[i + 1], m);
    assert Hop(cfg, m, path, i + 1) && Waits(cfg, net, path[i + 1], m);
    assert Enabled(cfg, net, Deliver(p)) && Handled(cfg, net, p);
    var net' := After(cfg, net, Deliver(p));
    DeliverWire(cfg, net, p);
    PathInGraph(cfg, m, path, i + 1);
    assert path[i + 1] != path[0];
    var next := NextHop(m, path, i + 1);
    assert next != path[i] by {
      if i + 2 < |path| { assert path[i] != path[i + 2]; } else { assert i > 0 && path[i] != path[0]; }
    }
    assert Packet(path[i + 1], next, m) in Relayed(cfg, net, p);
    forall j | i + 1 < j < |path| ensures Waits(cfg, net', path[j], m) {
      assert Waits(cfg, net, path[j], m) && path[j] != path[i + 1];
    }
  }

  lemma {:induction false} GoAround(cfg: Config, start: Net, net: Net, m: Message, path: seq<Agent>, i: nat) returns (end: Net)
    requires Symmetric(cfg) && Cycle(cfg, m, path) && m.target == Everyone && Leads(cfg, start, net) && UnderWay(cfg, net, m, path, i)
    ensures Leads(cfg, start, end) && UnderWay(cfg, end, m, path, |path| - 1)
    decreases |path| - i
  {
    if i + 1 == |path| {
      end := net;
    } else {
      NextStep(cfg, net, m, path, i);
      var step := Deliver(Packet(path[i], path[i + 1], m));
      LeadsOn(cfg, start, net, step);
      end := GoAround(cfg, start, After(cfg, net, step), m, path, i + 1);
    }
  }

  lemma EchoArrives(cfg: Config, net: Net, m: Message, path: seq<Agent>)
    requires Symmetric(cfg) && Cycle(cfg, m, path) && UnderWay(cfg, net, m, path, |path| - 1) && cfg.accepts(m.author, m)
    ensures var step := Deliver(Packet(path[|path| - 1], m.author, m));
            && Enabled(cfg, net, step)
            && m in After(cfg, net, step).born && m.author in After(cfg, net, step).nodes
            && m.id in After(cfg, net, step).nodes[m.author].seenSet
  {
    var p := Packet(path[|path| - 1], m.author, m);
    assert Waits(cfg, net, m.author, m);
    assert Enabled(cfg, net, Deliver(p)) && Handled(cfg, net, p);
    DeliverMarks(cfg, net, p);
  }

  /** Some schedule makes the author log its message a second time. */
  ghost predicate EchoPossible(cfg: Config, net: Net, m: Message) {
    exists end :: Leads(cfg, net, end) && m in end.born && m.author in end.nodes && multiset(end.nodes[m.author].log)[m] == 2
  }

  lemma TwiceIffMarked(cfg: Config, net: Net, end: Net, m: Message)
    requires Symmetric(cfg) && Quiet(cfg, net) && Leads(cfg, net, end) && m in end.born && m.author in end.nodes
    ensures multiset(end.nodes[m.author].log)[m] == 2 <==> m.id in end.nodes[m.author].seenSet
    ensures m.id in end.nodes[m.author].seenSet ==> cfg.accepts(m.author, m) && HasCycle(cfg, m)
  {
    var nets: seq<Net>, steps: seq<Step> :| Run(cfg, nets, steps) && nets[0] == net && nets[|steps|] == end;
    RunKeepsEchoes(cfg, nets, steps, |steps|);
  }

  lemma CycleMakesEcho(cfg: Config, net: Net, m: Message)
    requires Symmetric(cfg) && Quiet(cfg, net) && Roomy(cfg, net) && Enabled(cfg, net, Send(m)) && m.target == Everyone
    requires cfg.accepts(m.author, m) && HasCycle(cfg, m)
    ensures EchoPossible(cfg, net, m)
  {
    var path :| Cycle(cfg, m, path);
    LeadsNowhere(cfg, net);
    SendStarts(cfg, net, m, path);
    LeadsOn(cfg, net, net, Send(m));
    var around := GoAround(cfg, net, After(cfg, net, Send(m)), m, path, 0);
    EchoArrives(cfg, around, m, path);
    var step := Deliver(Packet(path[|path| - 1], m.author, m));
    LeadsOn(cfg, net, around, step);
    TwiceIffMarked(cfg, net, After(cfg, around, step), m);
  }

  /** An author can log its own public message twice exactly when its own checks pass it and a cycle of accepting
      nodes leads back to it. */
  lemma EchoPossibleIff(cfg: Config, net: Net, m: Message)
    requires Symmetric(cfg) && Quiet(cfg, net) && Roomy(cfg, net) && Enabled(cfg, net, Send(m)) && m.target == Everyone
    ensures EchoPossible(cfg, net, m) <==> cfg.accepts(m.author, m) && HasCycle(cfg, m)
  {
    if EchoPossible(cfg, net, m) {
      var end :| Leads(cfg, net, end) && m in end.born && m.author in end.nodes && multiset(end.nodes[m.author].log)[m] == 2;
      TwiceIffMarked(cfg, net, end, m);
    }
    if cfg.accepts(m.author, m) && HasCycle(cfg, m) {
      CycleMakesEcho(cfg, net, m);
    }
  }
}
