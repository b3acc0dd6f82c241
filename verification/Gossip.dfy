/** Peer discovery (src/node/miner.go): every node pushes its peer list to its peers, and
    a receiver merges what it hears.  Replies are never merged, because the channel they
    would travel on is never created, so gossip is push-only. */
module Gossip {
  import opened Lists

  type Port = string

  // ---------------------------------------------------------------- merging a list

  /** One turn of `merge`: a port that is new, is not our own and answers is appended. */
  function MergeOne(self: Port, known: seq<Port>, port: Port, dial: Port -> bool): seq<Port> {
    if port == self || port in known || !dial(port) then known else known + [port]
  }

  function Merge(self: Port, known: seq<Port>, heard: seq<Port>, dial: Port -> bool): seq<Port> {
    if heard == [] then known
    else MergeOne(self, Merge(self, known, heard[..|heard| - 1], dial), heard[|heard| - 1], dial)
  }

  /** A list fit to be a node's own: no duplicates, and not the node itself. */
  ghost predicate Proper(self: Port, s: seq<Port>) {
    NoRepeats(s) && self !in s
  }

  /** Merging appends exactly the new ports that answer, and keeps the list proper. */
  lemma {:induction false} MergeMeaning(self: Port, known: seq<Port>, heard: seq<Port>, dial: Port -> bool)
    ensures known <= Merge(self, known, heard, dial)
    ensures forall q :: q in Merge(self, known, heard, dial) <==> q in known || (q in heard && q != self && dial(q))
    ensures Proper(self, known) ==> Proper(self, Merge(self, known, heard, dial))
  {
    if heard != [] {
      var rest, last := heard[..|heard| - 1], heard[|heard| - 1];
      MergeMeaning(self, known, rest, dial);
      assert heard == rest + [last];
      var m := Merge(self, known, rest, dial);
      if MergeOne(self, m, last, dial) != m {
        assert forall q :: q in m + [last] <==> q in m || q == last;
      }
    }
  }

  // ---------------------------------------------------------------- the network

  datatype Message = Message(from: Port, to: Port, peers: seq<Port>)

  /** The peer lists of the nodes, and the gossip under way. */
  datatype Net = Net(peers: map<Port, seq<Port>>, inFlight: set<Message>)

  datatype Event =
    | Tick(node: Port)                                              // a gossip timer fires
    | Deliver(m: Message, dial: Port -> bool)                       // a push arrives
    | Lose(m: Message)                                              // a push is lost
    | FromClerk(to: Port, peers: seq<Port>, dial: Port -> bool)     // a clerk pushes its list

  ghost predicate Step(net: Net, ev: Event, net': Net) {
    match ev
    case Tick(n) =>
      && n in net.peers
      && net' == net.(inFlight := net.inFlight + set q | q in net.peers[n] :: Message(n, q, net.peers[n]))
    case Deliver(m, dial) =>
      && m in net.inFlight && m.to in net.peers
      && (forall q | dial(q) :: q in net.peers)
      && net' == Net(net.peers[m.to := Merge(m.to, net.peers[m.to], m.peers + [m.from], dial)], net.inFlight - {m})
    case Lose(m) => net' == net.(inFlight := net.inFlight - {m})
    case FromClerk(to, list, dial) =>
      && to in net.peers
      && (forall q | dial(q) :: q in net.peers)
      && net' == net.(peers := net.peers[to := Merge(to, net.peers[to], list, dial)])
  }

  /** Lists are proper and name nodes of the network; what is in flight was known to its
      sender, who knew the receiver. */
  ghost predicate NetInv(net: Net) {
    && (forall n | n in net.peers :: Proper(n, net.peers[n]))
    && (forall n, q | n in net.peers && q in net.peers[n] :: q in net.peers)
    && (forall m | m in net.inFlight ::
          && m.from in net.peers && m.to in net.peers[m.from]
          && forall q | q in m.peers :: q in net.peers[m.from])
  }

  /** Every list of the second network starts with the same list of the first. */
  ghost predicate Grows(net: Net, net': Net) {
    net.peers.Keys == net'.peers.Keys && forall n | n in net.peers :: net.peers[n] <= net'.peers[n]
  }

  lemma StepKeepsNetInv(net: Net, ev: Event, net': Net)
    requires NetInv(net) && Step(net, ev, net')
    ensures NetInv(net') && Grows(net, net')
  {
    hide Proper, Merge;
    match ev
    case Tick(n) =>
    case Deliver(m, dial) =>
      MergeMeaning(m.to, net.peers[m.to], m.peers + [m.from], dial);
      AbsorbKeeps(net, m.to, m.peers + [m.from], dial, net');
    case Lose(m) =>
    case FromClerk(to, list, dial) =>
      MergeMeaning(to, net.peers[to], list, dial);
      AbsorbKeeps(net, to, list, dial, net');
  }

  lemma AbsorbKeeps(net: Net, to: Port, heard: seq<Port>, dial: Port -> bool, net': Net)
    requires NetInv(net) && to in net.peers && (forall q | dial(q) :: q in net.peers)
    requires net'.peers == net.peers[to := Merge(to, net.peers[to], heard, dial)] && net'.inFlight <= net.inFlight
    ensures NetInv(net') && Grows(net, net')
  {
    hide Proper, Merge;
    MergeMeaning(to, net.peers[to], heard, dial);
    assert net'.peers.Keys == net.peers.Keys;
  }

  /** What arrives is merged: the receiver then knows what it knew and whatever it heard of
      that answers, the sender of a push included; nobody else learns anything. */
  lemma NewsIsMerged(net: Net, ev: Event, net': Net)
    requires Step(net, ev, net') && (ev.Deliver? || ev.FromClerk?)
    ensures var to := if ev.Deliver? then ev.m.to else ev.to;
      var heard := if ev.Deliver? then ev.m.peers + [ev.m.from] else ev.peers;
      && to in net.peers && net'.peers.Keys == net.peers.Keys
      && (forall q :: q in net'.peers[to] <==> q in net.peers[to] || (q in heard && q != to && ev.dial(q)))
      && forall n | n in net.peers && n != to :: net'.peers[n] == net.peers[n]
  {
    hide Merge;
    match ev
    case Deliver(m, dial) => MergeMeaning(m.to, net.peers[m.to], m.peers + [m.from], dial);
    case FromClerk(to, list, dial) => MergeMeaning(to, net.peers[to], list, dial);
    case _ =>
  }

  ghost predicate Run(tr: seq<Net>, evs: seq<Event>) {
    && |tr| == |evs| + 1
    && NetInv(tr[0]) && tr[0].inFlight == {}
    && forall k | 0 <= k < |evs| :: Step(tr[k], evs[k], tr[k + 1])
  }

  /** Along every run peer knowledge only grows, and lists that began without a self-entry
      or a duplicate never get one. */
  lemma {:induction false} KnowledgeGrows(tr: seq<Net>, evs: seq<Event>, j: nat, k: nat)
    requires Run(tr, evs) && j <= k < |tr|
    ensures NetInv(tr[j]) && NetInv(tr[k]) && Grows(tr[j], tr[k])
    decreases k
  {
    hide NetInv, Step;
    if k == 0 {
    } else if j == k {
      KnowledgeGrows(tr, evs, j - 1, k - 1);
      StepKeepsNetInv(tr[k - 1], evs[k - 1], tr[k]);
    } else {
      KnowledgeGrows(tr, evs, j, k - 1);
      StepKeepsNetInv(tr[k - 1], evs[k - 1], tr[k]);
    }
  }

  // ---------------------------------------------------------------- finitely many changes

  /** The total length of the lists of the nodes in `ns`. */
  ghost function Size(peers: map<Port, seq<Port>>, ns: set<Port>): nat
    requires ns <= peers.Keys
  {
    if ns == {} then 0
    else
      var n :| n in ns;
      |peers[n]| + Size(peers, ns - {n})
  }

  lemma {:induction false} SizeMonotone(a: map<Port, seq<Port>>, b: map<Port, seq<Port>>, ns: set<Port>)
    requires ns <= a.Keys && ns <= b.Keys
    requires forall n | n in ns :: |a[n]| <= |b[n]|
    ensures Size(a, ns) <= Size(b, ns)
    ensures (exists n | n in ns :: |a[n]| < |b[n]|) ==> Size(a, ns) < Size(b, ns)
  {
    if ns != {} {
      var n :| n in ns && Size(a, ns) == |a[n]| + Size(a, ns - {n});
      SizePick(b, ns, n);
      SizeMonotone(a, b, ns - {n});
    }
  }

  lemma {:induction false} SizePick(a: map<Port, seq<Port>>, ns: set<Port>, n: Port)
    requires ns <= a.Keys && n in ns
    ensures Size(a, ns) == |a[n]| + Size(a, ns - {n})
  {
    var c :| c in ns && Size(a, ns) == |a[c]| + Size(a, ns - {c});
    if c != n {
      SizePick(a, ns - {c}, n);
      SizePick(a, ns - {n}, c);
      assert ns - {c} - {n} == ns - {n} - {c};
    }
  }

  lemma {:induction false} ListFits(s: seq<Port>, u: set<Port>)
    requires NoRepeats(s) && forall q | q in s :: q in u
    ensures |s| <= |u|
  {
    if s != [] {
      var rest, last := s[..|s| - 1], s[|s| - 1];
      assert last !in rest;
      ListFits(rest, u - {last});
    }
  }

  lemma {:induction false} SizeFits(peers: map<Port, seq<Port>>, ns: set<Port>, bound: nat)
    requires ns <= peers.Keys && forall n | n in ns :: |peers[n]| <= bound
    ensures Size(peers, ns) <= |ns| * bound
  {
    if ns != {} {
      var n :| n in ns && Size(peers, ns) == |peers[n]| + Size(peers, ns - {n});
      var less := ns - {n};
      hide Size;
      assert |ns| == |less| + 1;
      SizeFits(peers, less, bound);
      OneMoreTime(|less|, bound);
    }
  }

  lemma OneMoreTime(m: nat, bound: nat)
    ensures (m + 1) * bound == m * bound + bound
  {
  }

  /** How many steps of a run changed some list. */
  ghost function Changes(tr: seq<Net>): nat {
    if |tr| <= 1 then 0
    else Changes(tr[..|tr| - 1]) + if tr[|tr| - 1].peers != tr[|tr| - 2].peers then 1 else 0
  }

  lemma ChangeIsGrowth(net: Net, net': Net)
    requires Grows(net, net') && net.peers != net'.peers
    ensures Size(net.peers, net.peers.Keys) < Size(net'.peers, net'.peers.Keys)
  {
    var n :| n in net.peers && net.peers[n] != net'.peers[n];
    assert |net.peers[n]| < |net'.peers[n]|;
    SizeMonotone(net.peers, net'.peers, net.peers.Keys);
  }

  lemma RunPrefix(tr: seq<Net>, evs: seq<Event>)
    requires Run(tr, evs) && |evs| > 0
    ensures Run(tr[..|tr| - 1], evs[..|evs| - 1])
  {
  }

  lemma {:induction false} ChangesArePaid(tr: seq<Net>, evs: seq<Event>)
    requires Run(tr, evs)
    ensures Changes(tr) <= Size(tr[|tr| - 1].peers, tr[|tr| - 1].peers.Keys)
    decreases |tr|
  {
    hide NetInv, Step;
    var n := |tr| - 1;
    if n > 0 {
      RunPrefix(tr, evs);
      ChangesArePaid(tr[..n], evs[..n - 1]);
      KnowledgeGrows(tr, evs, n - 1, n);
      if tr[n].peers != tr[n - 1].peers {
        ChangeIsGrowth(tr[n - 1], tr[n]);
      }
    }
  }

  /** However long a run is, at most (number of nodes) squared of its steps change a list. */
  lemma FinitelyManyChanges(tr: seq<Net>, evs: seq<Event>)
    requires Run(tr, evs)
    ensures Changes(tr) <= |tr[0].peers| * |tr[0].peers|
  {
    hide Step;
    var net := tr[|tr| - 1];
    ChangesArePaid(tr, evs);
    KnowledgeGrows(tr, evs, 0, |tr| - 1);
    forall n | n in net.peers
      ensures |net.peers[n]| <= |net.peers.Keys|
    {
      ListFits(net.peers[n], net.peers.Keys);
    }
    SizeFits(net.peers, net.peers.Keys, |net.peers.Keys|);
    assert |net.peers.Keys| == |tr[0].peers.Keys| == |tr[0].peers|;
  }

  // ---------------------------------------------------------------- convergence

  /** Every dial to a node of the network succeeds. */
  ghost predicate AllAnswer(net: Net, dial: Port -> bool) {
    forall q :: dial(q) <==> q in net.peers
  }

  /** One more round of gossip would teach nobody anything. */
  ghost predicate Stable(net: Net, dial: Port -> bool) {
    forall n, q | n in net.peers && q in net.peers[n] && q in net.peers ::
      Merge(q, net.peers[q], net.peers[n] + [n], dial) == net.peers[q]
  }

  ghost predicate Knows(net: Net, a: Port, b: Port) {
    a in net.peers && b in net.peers[a]
  }

  /** In a stable state whoever I know knows me and all I know. */
  lemma StableShares(net: Net, dial: Port -> bool, n: Port, q: Port, r: Port)
    requires NetInv(net) && AllAnswer(net, dial) && Stable(net, dial)
    requires Knows(net, n, q) && (r == n || Knows(net, n, r)) && r != q
    ensures Knows(net, q, r)
  {
    assert q in net.peers;
    MergeMeaning(q, net.peers[q], net.peers[n] + [n], dial);
    assert r in net.peers[n] + [n] && dial(r);
  }

  /** A chain of acquaintances, in either direction. */
  ghost predicate Path(net: Net, path: seq<Port>) {
    && path != []
    && forall k | 0 <= k < |path| - 1 :: Knows(net, path[k], path[k + 1]) || Knows(net, path[k + 1], path[k])
  }

  /** In a stable state every weakly connected component is fully connected. */
  lemma {:induction false} ComponentsAreCliques(net: Net, dial: Port -> bool, path: seq<Port>)
    requires NetInv(net) && AllAnswer(net, dial) && Stable(net, dial) && Path(net, path)
    ensures path[0] == path[|path| - 1] || Knows(net, path[0], path[|path| - 1])
    decreases |path|
  {
    hide NetInv, AllAnswer, Stable, Knows;
    if |path| > 1 {
      var rest := path[1..];
      var a, b, z := path[0], path[1], path[|path| - 1];
      assert Path(net, rest) by {
        forall k | 0 <= k < |rest| - 1
          ensures Knows(net, rest[k], rest[k + 1]) || Knows(net, rest[k + 1], rest[k])
        {
          assert rest[k] == path[k + 1] && rest[k + 1] == path[k + 2];
        }
      }
      ComponentsAreCliques(net, dial, rest);
      assert Knows(net, a, b) || Knows(net, b, a);
      if a != b && a != z {
        if !Knows(net, b, a) {
          StableShares(net, dial, a, b, a);
        }
        if !Knows(net, a, b) {
          StableShares(net, dial, b, a, b);
        }
        if b != z {
          StableShares(net, dial, b, a, z);
        }
      }
    }
  }

  lemma {:induction false} MergeNothingNew(self: Port, known: seq<Port>, heard: seq<Port>, dial: Port -> bool)
    requires forall q | q in heard && q != self && dial(q) :: q in known
    ensures Merge(self, known, heard, dial) == known
  {
    if heard != [] {
      var rest, last := heard[..|heard| - 1], heard[|heard| - 1];
      assert heard == rest + [last];
      MergeNothingNew(self, known, rest, dial);
    }
  }

  /** In a stable state no gossip changes a list, however old the messages still in flight
      are, however few of the dials succeed and whatever is lost. */
  lemma StableStep(net: Net, dial: Port -> bool, ev: Event, net': Net)
    requires NetInv(net) && AllAnswer(net, dial) && Stable(net, dial) && Step(net, ev, net') && !ev.FromClerk?
    ensures net'.peers == net.peers
  {
    if ev.Deliver? {
      var m, to := ev.m, ev.m.to;
      assert Knows(net, m.from, to) && to in net.peers;
      forall q | q in m.peers + [m.from] && q != to && ev.dial(q)
        ensures q in net.peers[to]
      {
        StableShares(net, dial, m.from, to, q);
      }
      MergeNothingNew(to, net.peers[to], m.peers + [m.from], ev.dial);
    }
  }

  /** A stable state stays stable: no later state of any run has other lists, until a clerk
      brings news. */
  lemma {:induction false} StableStays(tr: seq<Net>, evs: seq<Event>, dial: Port -> bool, j: nat, k: nat)
    requires Run(tr, evs) && j <= k < |tr| && forall i | j <= i < k :: !evs[i].FromClerk?
    requires AllAnswer(tr[j], dial) && Stable(tr[j], dial)
    ensures tr[k].peers == tr[j].peers && AllAnswer(tr[k], dial) && Stable(tr[k], dial)
    decreases k - j
  {
    if j < k {
      hide NetInv, Step, Stable, AllAnswer;
      StableStays(tr, evs, dial, j, k - 1);
      KnowledgeGrows(tr, evs, k - 1, k - 1);
      StableStep(tr[k - 1], dial, evs[k - 1], tr[k]);
      SameLists(tr[k - 1], tr[k], dial);
    }
  }

  lemma SameLists(a: Net, b: Net, dial: Port -> bool)
    requires a.peers == b.peers && AllAnswer(a, dial) && Stable(a, dial)
    ensures AllAnswer(b, dial) && Stable(b, dial)
  {
  }

  // ---------------------------------------------------------------- rounds

  /** Between `a` and `b` node `q` hears from `n` all that `n` knew at `a`, and all dials to
      nodes of the network succeed. */
  ghost predicate Hears(tr: seq<Net>, evs: seq<Event>, a: nat, b: nat, n: Port, q: Port)
    requires a <= b < |tr| && |tr| == |evs| + 1 && n in tr[a].peers
  {
    exists i :: a <= i < b && evs[i].Deliver? && evs[i].m.from == n && evs[i].m.to == q
      && (forall r | r in tr[a].peers[n] :: r in evs[i].m.peers) && AllAnswer(tr[a], evs[i].dial)
  }

  /** A round of gossip: everybody is heard by all the peers it has when the round starts. */
  ghost predicate Round(tr: seq<Net>, evs: seq<Event>, a: nat, b: nat)
    requires a <= b < |tr| && |tr| == |evs| + 1
  {
    forall n, q | n in tr[a].peers && q in tr[a].peers[n] :: Hears(tr, evs, a, b, n, q)
  }

  /** Between `a` and `b` every node's timer fires once, and what it then pushes arrives,
      with all dials succeeding, before `b`. */
  ghost predicate AllPush(tr: seq<Net>, evs: seq<Event>, a: nat, b: nat)
    requires a <= b < |tr| && |tr| == |evs| + 1
  {
    forall n | n in tr[a].peers ::
      exists i :: a <= i < b && evs[i] == Tick(n) && PushesArrive(tr, evs, a, i, b, n)
  }

  ghost predicate PushesArrive(tr: seq<Net>, evs: seq<Event>, a: nat, i: nat, b: nat, n: Port)
    requires a <= i < b < |tr| && |tr| == |evs| + 1
  {
    forall m | m in tr[i + 1].inFlight && m.from == n :: exists k :: i < k < b && Arrives(tr[a], evs[k], m)
  }

  ghost predicate Arrives(net: Net, ev: Event, m: Message) {
    ev.Deliver? && ev.m == m && AllAnswer(net, ev.dial)
  }

  /** When every node pushes and every push arrives, that is a round. */
  lemma PushesMakeARound(tr: seq<Net>, evs: seq<Event>, a: nat, b: nat)
    requires Run(tr, evs) && a <= b < |tr| && AllPush(tr, evs, a, b)
    ensures Round(tr, evs, a, b)
  {
    hide NetInv;
    forall n, q | n in tr[a].peers && q in tr[a].peers[n]
      ensures Hears(tr, evs, a, b, n, q)
    {
      var i :| a <= i < b && evs[i] == Tick(n) && PushesArrive(tr, evs, a, i, b, n);
      KnowledgeGrows(tr, evs, a, i);
      assert Step(tr[i], evs[i], tr[i + 1]);
      var m := Message(n, q, tr[i].peers[n]);
      assert q in tr[i].peers[n];
      assert m in tr[i + 1].inFlight;
      var k :| i < k < b && Arrives(tr[a], evs[k], m);
      assert evs[k].m.from == n && evs[k].m.to == q;
    }
  }

  /** A stretch of a run from a given state, without news from clerks. */
  ghost predicate Goes(net: Net, tr: seq<Net>, evs: seq<Event>) {
    && |tr| == |evs| + 1 && tr[0] == net
    && forall k | 0 <= k < |evs| :: Step(tr[k], evs[k], tr[k + 1]) && !evs[k].FromClerk?
  }

  lemma {:induction false} TickEverybody(net: Net, ns: set<Port>) returns (tr: seq<Net>, evs: seq<Event>)
    requires NetInv(net) && ns <= net.peers.Keys
    ensures Goes(net, tr, evs) && tr[|evs|].peers == net.peers
    ensures forall n, q | n in ns && q in net.peers[n] :: Message(n, q, net.peers[n]) in tr[|evs|].inFlight
    decreases |ns|
  {
    hide NetInv;
    if ns == {} {
      tr, evs := [net], [];
    } else {
      var n :| n in ns;
      tr, evs := TickEverybody(net, ns - {n});
      var last := tr[|evs|];
      var next := last.(inFlight := last.inFlight + set q | q in last.peers[n] :: Message(n, q, last.peers[n]));
      assert Step(last, Tick(n), next);
      tr, evs := tr + [next], evs + [Tick(n)];
    }
  }

  lemma {:induction false} DeliverEverything(net: Net, ms: set<Message>, dial: Port -> bool)
      returns (tr: seq<Net>, evs: seq<Event>)
    requires NetInv(net) && ms <= net.inFlight && AllAnswer(net, dial)
    ensures Goes(net, tr, evs)
    ensures forall m | m in ms :: exists k :: 0 <= k < |evs| && evs[k] == Deliver(m, dial)
    decreases |ms|
  {
    if ms == {} {
      tr, evs := [net], [];
    } else {
      var m :| m in ms;
      hide NetInv, Step, AllAnswer, Goes;
      var next := DeliverOne(net, m, dial);
      var tr', evs' := DeliverEverything(next, ms - {m}, dial);
      tr, evs := [net] + tr', [Deliver(m, dial)] + evs';
      Prepended(net, Deliver(m, dial), next, tr', evs');
      forall x | x in ms
        ensures exists k :: 0 <= k < |evs| && evs[k] == Deliver(x, dial)
      {
        if x == m {
          assert evs[0] == Deliver(x, dial);
        } else {
          var k :| 0 <= k < |evs'| && evs'[k] == Deliver(x, dial);
          assert evs[k + 1] == Deliver(x, dial);
        }
      }
    }
  }

  lemma DeliverOne(net: Net, m: Message, dial: Port -> bool) returns (next: Net)
    requires NetInv(net) && m in net.inFlight && AllAnswer(net, dial)
    ensures Step(net, Deliver(m, dial), next) && NetInv(next)
    ensures next.inFlight == net.inFlight - {m} && AllAnswer(next, dial)
  {
    hide Merge, Proper;
    var heard := Merge(m.to, net.peers[m.to], m.peers + [m.from], dial);
    next := Net(net.peers[m.to := heard], net.inFlight - {m});
    StepKeepsNetInv(net, Deliver(m, dial), next);
  }

  lemma Prepended(net: Net, ev: Event, next: Net, tr: seq<Net>, evs: seq<Event>)
    requires Step(net, ev, next) && !ev.FromClerk? && Goes(next, tr, evs)
    ensures Goes(net, [net] + tr, [ev] + evs)
  {
    hide Step;
  }

  lemma Joined(net: Net, t1: seq<Net>, e1: seq<Event>, t2: seq<Net>, e2: seq<Event>)
    requires Goes(net, t1, e1) && Goes(t1[|e1|], t2, e2)
    ensures Goes(net, t1 + t2[1..], e1 + e2)
  {
    hide Step;
  }

  lemma {:induction false} GoesKeepsNetInv(net: Net, tr: seq<Net>, evs: seq<Event>, k: nat)
    requires NetInv(net) && Goes(net, tr, evs) && k < |tr|
    ensures NetInv(tr[k])
    decreases k
  {
    hide NetInv, Step;
    if k > 0 {
      GoesKeepsNetInv(net, tr, evs, k - 1);
      StepKeepsNetInv(tr[k - 1], evs[k - 1], tr[k]);
    }
  }

  /** Rounds can happen: from any state every node can push and every push can arrive. */
  lemma RoundExists(net: Net) returns (tr: seq<Net>, evs: seq<Event>)
    requires NetInv(net)
    ensures Goes(net, tr, evs) && Round(tr, evs, 0, |evs|)
  {
    hide NetInv, Step;
    var nodes := net.peers.Keys;
    var dial := (q: Port) => q in nodes;
    var t1, e1 := TickEverybody(net, nodes);
    var mid := t1[|e1|];
    GoesKeepsNetInv(net, t1, e1, |e1|);
    var t2, e2 := DeliverEverything(mid, mid.inFlight, dial);
    tr, evs := t1 + t2[1..], e1 + e2;
    Joined(net, t1, e1, t2, e2);
    forall n, q | n in net.peers && q in net.peers[n]
      ensures Hears(tr, evs, 0, |evs|, n, q)
    {
      var k :| 0 <= k < |e2| && e2[k] == Deliver(Message(n, q, net.peers[n]), dial);
      assert evs[|e1| + k] == e2[k];
    }
  }

  ghost predicate Quiet(tr: seq<Net>, a: nat, b: nat)
    requires a <= b < |tr|
  {
    forall i | a <= i <= b :: tr[i].peers == tr[a].peers
  }

  /** A round that changes nothing leaves a stable state. */
  lemma QuietRoundIsStable(tr: seq<Net>, evs: seq<Event>, a: nat, b: nat, dial: Port -> bool)
    requires Run(tr, evs) && a <= b < |tr| && Round(tr, evs, a, b) && Quiet(tr, a, b) && AllAnswer(tr[a], dial)
    ensures Stable(tr[a], dial)
  {
    var peers := tr[a].peers;
    forall n, q | n in peers && q in peers[n] && q in peers
      ensures Merge(q, peers[q], peers[n] + [n], dial) == peers[q]
    {
      assert Hears(tr, evs, a, b, n, q);
      var i :| a <= i < b && evs[i].Deliver? && evs[i].m.from == n && evs[i].m.to == q
        && (forall r | r in peers[n] :: r in evs[i].m.peers) && AllAnswer(tr[a], evs[i].dial);
      assert Step(tr[i], evs[i], tr[i + 1]) && tr[i].peers == peers && tr[i + 1].peers == peers;
      HeardIsKnown(peers[q], q, evs[i].m.peers + [n], evs[i].dial, peers[n] + [n], dial);
    }
  }

  lemma HeardIsKnown(known: seq<Port>, q: Port, heard: seq<Port>, dial: Port -> bool, less: seq<Port>,
      dial': Port -> bool)
    requires Merge(q, known, heard, dial) == known
    requires (forall r | r in less :: r in heard) && forall r :: dial(r) <==> dial'(r)
    ensures Merge(q, known, less, dial') == known
  {
    MergeMeaning(q, known, heard, dial);
    MergeNothingNew(q, known, less, dial');
  }

  lemma {:induction false} ChangesGrow(tr: seq<Net>, a: nat, b: nat)
    requires a <= b < |tr|
    ensures Changes(tr[..a + 1]) <= Changes(tr[..b + 1])
    ensures !Quiet(tr, a, b) ==> Changes(tr[..a + 1]) < Changes(tr[..b + 1])
    decreases b
  {
    hide Changes;
    if a == b {
      assert Quiet(tr, a, b);
    } else {
      hide Quiet;
      ChangesGrow(tr, a, b - 1);
      ChangesLast(tr, b);
      if Quiet(tr, a, b - 1) && tr[b].peers == tr[b - 1].peers {
        QuietLast(tr, a, b);
      }
    }
  }

  lemma ChangesLast(tr: seq<Net>, b: nat)
    requires 0 < b < |tr|
    ensures Changes(tr[..b + 1]) == Changes(tr[..b]) + if tr[b].peers != tr[b - 1].peers then 1 else 0
  {
    assert tr[..b + 1][..b] == tr[..b];
  }

  lemma QuietLast(tr: seq<Net>, a: nat, b: nat)
    requires a < b < |tr| && Quiet(tr, a, b - 1) && tr[b].peers == tr[b - 1].peers
    ensures Quiet(tr, a, b)
  {
  }

  /** Round number `i` of those that start and end at `cuts`. */
  ghost predicate RoundAt(tr: seq<Net>, evs: seq<Event>, cuts: seq<nat>, i: nat)
    requires i < |cuts| - 1 && |tr| == |evs| + 1
  {
    cuts[i] <= cuts[i + 1] < |tr| && Round(tr, evs, cuts[i], cuts[i + 1])
  }

  ghost predicate QuietAt(tr: seq<Net>, cuts: seq<nat>, i: nat)
    requires i < |cuts| - 1
  {
    cuts[i] <= cuts[i + 1] < |tr| && Quiet(tr, cuts[i], cuts[i + 1])
  }

  /** Rounds one after the other. */
  ghost predicate Rounds(tr: seq<Net>, evs: seq<Event>, cuts: seq<nat>) {
    && |tr| == |evs| + 1 && cuts != [] && cuts[0] < |tr|
    && forall i: nat | i < |cuts| - 1 :: RoundAt(tr, evs, cuts, i)
  }

  /** Rounds that all change something are paid for. */
  lemma {:induction false} LoudRounds(tr: seq<Net>, evs: seq<Event>, cuts: seq<nat>, n: nat)
    requires Rounds(tr, evs, cuts) && n < |cuts|
    requires forall i: nat | i < n :: !QuietAt(tr, cuts, i)
    ensures cuts[n] < |tr| && n <= Changes(tr[..cuts[n] + 1])
  {
    hide Quiet, Changes, Round;
    if n > 0 {
      LoudRounds(tr, evs, cuts, n - 1);
      assert RoundAt(tr, evs, cuts, n - 1) && !QuietAt(tr, cuts, n - 1);
      ChangesGrow(tr, cuts[n - 1], cuts[n]);
    }
  }

  lemma ChangesUpTo(tr: seq<Net>, evs: seq<Event>, n: nat)
    requires Run(tr, evs) && n < |tr|
    ensures Changes(tr[..n + 1]) <= |tr[0].peers| * |tr[0].peers|
  {
    hide NetInv, Step, Changes;
    assert Run(tr[..n + 1], evs[..n]);
    FinitelyManyChanges(tr[..n + 1], evs[..n]);
  }

  /** Among more rounds than there can be changes one is quiet. */
  lemma SomeRoundIsQuiet(tr: seq<Net>, evs: seq<Event>, cuts: seq<nat>) returns (i: nat)
    requires Rounds(tr, evs, cuts) && cuts[|cuts| - 1] < |tr|
    requires |cuts| - 1 > Changes(tr[..cuts[|cuts| - 1] + 1])
    ensures i < |cuts| - 1 && QuietAt(tr, cuts, i)
  {
    hide QuietAt, Changes, RoundAt;
    var n := |cuts| - 1;
    if forall i: nat | i < n :: !QuietAt(tr, cuts, i) {
      LoudRounds(tr, evs, cuts, n);
    }
    i :| i < n && QuietAt(tr, cuts, i);
  }

  /** Push gossip converges: after more rounds than the square of the number of nodes, and
      without news from clerks, whoever is connected by a chain of acquaintances, in
      whichever direction, knows each other, and no list ever changes again. */
  lemma GossipConverges(tr: seq<Net>, evs: seq<Event>, cuts: seq<nat>, k: nat, path: seq<Port>)
    requires Run(tr, evs) && Rounds(tr, evs, cuts) && |cuts| - 1 > |tr[0].peers| * |tr[0].peers|
    requires cuts[|cuts| - 1] <= k < |tr| && (forall i | 0 <= i < |evs| :: !evs[i].FromClerk?)
    requires Path(tr[k], path)
    ensures path[0] == path[|path| - 1] || Knows(tr[k], path[0], path[|path| - 1])
    ensures tr[k].peers == tr[cuts[|cuts| - 1]].peers
  {
    hide Run, Quiet, Round, Stable, NetInv, Path, Knows, Changes, RoundAt;
    var last := cuts[|cuts| - 1];
    ChangesUpTo(tr, evs, last);
    var i := SomeRoundIsQuiet(tr, evs, cuts);
    var nodes := tr[0].peers.Keys;
    var dial := (q: Port) => q in nodes;
    CutsAscend(tr, evs, cuts, i, |cuts| - 1);
    KnowledgeGrows(tr, evs, 0, cuts[i]);
    RoundOf(tr, evs, cuts, i);
    QuietRoundIsStable(tr, evs, cuts[i], cuts[i + 1], dial);
    StableStays(tr, evs, dial, cuts[i], last);
    StableStays(tr, evs, dial, last, k);
    KnowledgeGrows(tr, evs, k, k);
    ComponentsAreCliques(tr[k], dial, path);
  }

  lemma RoundOf(tr: seq<Net>, evs: seq<Event>, cuts: seq<nat>, i: nat)
    requires Rounds(tr, evs, cuts) && i < |cuts| - 1
    ensures cuts[i] <= cuts[i + 1] < |tr| && Round(tr, evs, cuts[i], cuts[i + 1])
  {
    hide Round;
    assert RoundAt(tr, evs, cuts, i);
  }

  lemma {:induction false} CutsAscend(tr: seq<Net>, evs: seq<Event>, cuts: seq<nat>, i: nat, j: nat)
    requires Rounds(tr, evs, cuts) && i <= j < |cuts|
    ensures cuts[i] <= cuts[j]
    decreases j - i
  {
    hide Round;
    if i < j {
      RoundOf(tr, evs, cuts, i);
      hide RoundAt;
      CutsAscend(tr, evs, cuts, i + 1, j);
    }
  }
}
