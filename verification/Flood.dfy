/** Flooding of one transaction through the network (the first half of `AppendTx` in
    src/node/miner.go): a node that sees the hash for the first time admits it and
    forwards the request to each of its peers; a repeated request is refused.  Requests
    for other transactions touch neither this hash's mark nor its messages. */
module Flood {
  import opened Lists

  type Node = string

  /** The peer lists, fixed for the duration of the flood. */
  type Peers = map<Node, seq<Node>>

  datatype State = State(
    admitted: seq<Node>,        // the nodes that took the transaction on, in order
    inFlight: multiset<Node>,   // requests under way, by receiver
    requests: nat,              // requests made by clerks so far
    sent: nat,                  // requests ever made, by clerks or nodes
    handled: nat)               // requests that arrived or were lost

  datatype Event = Request(to: Node) | Arrive(at: Node) | Lose(at: Node)

  ghost predicate Step(peers: Peers, s: State, ev: Event, s': State) {
    match ev
    case Request(n) =>
      && n in peers
      && s' == s.(inFlight := s.inFlight + multiset{n}, requests := s.requests + 1, sent := s.sent + 1)
    case Arrive(n) =>
      && n in s.inFlight && n in peers
      && var rest := s.(inFlight := s.inFlight - multiset{n}, handled := s.handled + 1);
         s' == if n in s.admitted then rest
               else rest.(
                 admitted := s.admitted + [n],
                 inFlight := rest.inFlight + multiset(peers[n]),
                 sent := s.sent + |peers[n]|)
    case Lose(n) =>
      && n in s.inFlight
      && s' == s.(inFlight := s.inFlight - multiset{n}, handled := s.handled + 1)
  }

  ghost predicate Run(peers: Peers, tr: seq<State>, evs: seq<Event>) {
    && |tr| == |evs| + 1
    && tr[0] == State([], multiset{}, 0, 0, 0)
    && forall k | 0 <= k < |evs| :: Step(peers, tr[k], evs[k], tr[k + 1])
  }

  // ---------------------------------------------------------------- counting

  function Degrees(peers: Peers, ns: seq<Node>): nat
    requires forall n | n in ns :: n in peers
  {
    if ns == [] then 0 else Degrees(peers, ns[..|ns| - 1]) + |peers[ns[|ns| - 1]]|
  }

  ghost predicate Counted(peers: Peers, s: State) {
    && (forall n | n in s.admitted :: n in peers)
    && NoRepeats(s.admitted)
    && s.sent == s.requests + Degrees(peers, s.admitted)
    && s.handled + |s.inFlight| == s.sent
  }

  lemma StepKeepsCount(peers: Peers, s: State, ev: Event, s': State)
    requires Counted(peers, s) && Step(peers, s, ev, s')
    ensures Counted(peers, s')
  {
    if ev.Arrive? && ev.at !in s.admitted {
      assert s'.admitted[..|s.admitted|] == s.admitted;
      assert |multiset(peers[ev.at])| == |peers[ev.at]|;
    }
  }

  lemma {:induction false} RunKeepsCount(peers: Peers, tr: seq<State>, evs: seq<Event>, k: nat)
    requires Run(peers, tr, evs) && k < |tr|
    ensures Counted(peers, tr[k])
    decreases k
  {
    if k > 0 {
      RunKeepsCount(peers, tr, evs, k - 1);
      StepKeepsCount(peers, tr[k - 1], evs[k - 1], tr[k]);
    }
  }

  /** The sum of all peer-list lengths. */
  ghost function AllDegrees(peers: Peers): nat
    decreases |peers|
  {
    if peers == map[] then 0
    else
      var n :| n in peers;
      |peers[n]| + AllDegrees(peers - {n})
  }

  lemma {:induction false} PickDegree(peers: Peers, n: Node)
    requires n in peers
    ensures AllDegrees(peers) == |peers[n]| + AllDegrees(peers - {n})
    decreases |peers|
  {
    var c :| c in peers && AllDegrees(peers) == |peers[c]| + AllDegrees(peers - {c});
    if c != n {
      PickDegree(peers - {c}, n);
      PickDegree(peers - {n}, c);
      assert peers - {c} - {n} == peers - {n} - {c};
    }
  }

  lemma {:induction false} DegreesFit(peers: Peers, ns: seq<Node>)
    requires (forall n | n in ns :: n in peers) && NoRepeats(ns)
    ensures Degrees(peers, ns) <= AllDegrees(peers)
  {
    if ns != [] {
      var rest, last := ns[..|ns| - 1], ns[|ns| - 1];
      assert last !in rest;
      DegreesWithout(peers, rest, last);
      DegreesFit(peers - {last}, rest);
      PickDegree(peers, last);
    }
  }

  lemma {:induction false} DegreesWithout(peers: Peers, ns: seq<Node>, x: Node)
    requires (forall n | n in ns :: n in peers) && x !in ns
    ensures Degrees(peers - {x}, ns) == Degrees(peers, ns)
  {
    if ns != [] {
      DegreesWithout(peers, ns[..|ns| - 1], x);
    }
  }

  /** Duplicate suppression works: no node admits the transaction twice, and the requests
      ever made are at most those of the clerks plus one per peer-list entry.  Hence at
      most that many arrivals or losses can happen: the flood ends. */
  lemma FloodIsBounded(peers: Peers, tr: seq<State>, evs: seq<Event>, k: nat)
    requires Run(peers, tr, evs) && k < |tr|
    ensures NoRepeats(tr[k].admitted)
    ensures tr[k].sent <= tr[k].requests + AllDegrees(peers)
    ensures tr[k].handled <= tr[k].requests + AllDegrees(peers)
  {
    RunKeepsCount(peers, tr, evs, k);
    DegreesFit(peers, tr[k].admitted);
  }

  // ---------------------------------------------------------------- coverage

  /** Whoever a node with the transaction was to tell has it, or is about to. */
  ghost predicate Covered(peers: Peers, s: State, asked: set<Node>) {
    && (forall n | n in asked :: n in s.admitted || n in s.inFlight)
    && (forall n, q | n in s.admitted && n in peers && q in peers[n] :: q in s.admitted || q in s.inFlight)
  }

  /** The nodes that clerks have asked so far. */
  ghost function Asked(evs: seq<Event>): set<Node> {
    set k | 0 <= k < |evs| && evs[k].Request? :: evs[k].to
  }

  lemma StepKeepsCover(peers: Peers, s: State, ev: Event, s': State, asked: set<Node>)
    requires Covered(peers, s, asked) && Step(peers, s, ev, s') && !ev.Lose?
    ensures Covered(peers, s', asked + if ev.Request? then {ev.to} else {})
  {
    if ev.Arrive? && ev.at !in s.admitted {
      var n := ev.at;
      assert forall q | q in peers[n] :: q in multiset(peers[n]);
      assert forall q :: q in s'.admitted <==> q in s.admitted || q == n;
    }
  }

  lemma {:induction false} RunKeepsCover(peers: Peers, tr: seq<State>, evs: seq<Event>, k: nat)
    requires Run(peers, tr, evs) && k < |tr|
    requires forall j | 0 <= j < k :: !evs[j].Lose?
    ensures Covered(peers, tr[k], Asked(evs[..k]))
    decreases k
  {
    if k > 0 {
      RunKeepsCover(peers, tr, evs, k - 1);
      var before, ev := Asked(evs[..k - 1]), evs[k - 1];
      StepKeepsCover(peers, tr[k - 1], ev, tr[k], before);
      assert evs[..k] == evs[..k - 1] + [ev];
      forall n | n in Asked(evs[..k])
        ensures n in before + if ev.Request? then {ev.to} else {}
      {
        var j :| 0 <= j < k && evs[..k][j].Request? && evs[..k][j].to == n;
        assert j < k - 1 ==> evs[..k - 1][j] == evs[j];
      }
    }
  }

  ghost predicate Path(peers: Peers, path: seq<Node>) {
    && path != []
    && forall k | 0 <= k < |path| - 1 :: path[k] in peers && path[k + 1] in peers[path[k]]
  }

  lemma {:induction false} CoverReaches(peers: Peers, s: State, asked: set<Node>, path: seq<Node>)
    requires Covered(peers, s, asked) && s.inFlight == multiset{}
    requires Path(peers, path) && path[0] in asked
    ensures path[|path| - 1] in s.admitted
    decreases |path|
  {
    if |path| > 1 {
      var rest := path[..|path| - 1];
      CoverReaches(peers, s, asked, rest);
      assert path[|path| - 1] in peers[rest[|rest| - 1]];
    }
  }

  /** With reliable delivery, once nothing is in flight every node that can be reached
      from a node a clerk asked has admitted the transaction. */
  lemma FloodCovers(peers: Peers, tr: seq<State>, evs: seq<Event>, path: seq<Node>, j: nat)
    requires Run(peers, tr, evs) && (forall k | 0 <= k < |evs| :: !evs[k].Lose?)
    requires tr[|evs|].inFlight == multiset{}
    requires j < |evs| && evs[j].Request? && Path(peers, path) && path[0] == evs[j].to
    ensures path[|path| - 1] in tr[|evs|].admitted
  {
    RunKeepsCover(peers, tr, evs, |evs|);
    assert evs[..|evs|] == evs;
    CoverReaches(peers, tr[|evs|], Asked(evs), path);
  }
}
