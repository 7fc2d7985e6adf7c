/** The adjacency lists and the breadth-first `levels` map behind the company network view. */
module NetworkLevels {

  type Id = string

  datatype Link = Link(source: Id, target: Id)

  // ----- what a level means

  /** Links count in both directions, and only between visible nodes. */
  ghost predicate Linked(nodes: seq<Id>, links: seq<Link>, u: Id, v: Id) {
    u in nodes && v in nodes && (Link(u, v) in links || Link(v, u) in links)
  }

  /** A walk along links, given by the nodes it visits. */
  ghost predicate IsWalk(nodes: seq<Id>, links: seq<Link>, walk: seq<Id>) {
    walk != [] && forall k :: 0 < k < |walk| ==> Linked(nodes, links, walk[k - 1], walk[k])
  }

  ghost predicate WalkTo(nodes: seq<Id>, links: seq<Link>, center: Id, v: Id, hops: nat, walk: seq<Id>) {
    IsWalk(nodes, links, walk) && |walk| == hops + 1 && walk[0] == center && walk[hops] == v
  }

  ghost predicate Reaches(nodes: seq<Id>, links: seq<Link>, center: Id, v: Id, hops: nat) {
    exists walk :: WalkTo(nodes, links, center, v, hops, walk)
  }

  ghost predicate IsDistance(nodes: seq<Id>, links: seq<Link>, center: Id, v: Id, d: nat) {
    && Reaches(nodes, links, center, v, d)
    && forall h: nat :: h < d ==> !Reaches(nodes, links, center, v, h)
  }

  lemma ExtendWalk(nodes: seq<Id>, links: seq<Link>, center: Id, u: Id, v: Id, hops: nat)
    requires Reaches(nodes, links, center, u, hops) && Linked(nodes, links, u, v)
    ensures Reaches(nodes, links, center, v, hops + 1)
  {
    var walk :| WalkTo(nodes, links, center, u, hops, walk);
    assert WalkTo(nodes, links, center, v, hops + 1, walk + [v]);
  }

  /** A map that starts at 0 and grows by at most one along each link stays below every walk. */
  lemma {:induction false} ClosedLevelsBoundWalks(
    nodes: seq<Id>, links: seq<Link>, levels: map<Id, nat>, walk: seq<Id>)
    requires IsWalk(nodes, links, walk)
    requires walk[0] in levels && levels[walk[0]] == 0
    requires forall u, v :: u in levels && Linked(nodes, links, u, v) ==> v in levels && levels[v] <= levels[u] + 1
    ensures walk[|walk| - 1] in levels && levels[walk[|walk| - 1]] <= |walk| - 1
  {
    if |walk| > 1 {
      var front := walk[..|walk| - 1];
      ClosedLevelsBoundWalks(nodes, links, levels, front);
      assert Linked(nodes, links, front[|front| - 1], walk[|walk| - 1]);
    }
  }

  /** Such a map, realised by walks, is the distance map. */
  lemma ClosedLevelsAreDistances(nodes: seq<Id>, links: seq<Link>, center: Id, levels: map<Id, nat>)
    requires center in levels && levels[center] == 0
    requires forall u, v :: u in levels && Linked(nodes, links, u, v) ==> v in levels && levels[v] <= levels[u] + 1
    requires forall v :: v in levels ==> Reaches(nodes, links, center, v, levels[v])
    ensures forall v :: v in levels ==> IsDistance(nodes, links, center, v, levels[v])
    ensures forall v :: v in levels <==> exists h: nat :: Reaches(nodes, links, center, v, h)
  {
    forall v, h: nat | Reaches(nodes, links, center, v, h) ensures v in levels && levels[v] <= h {
      var walk :| WalkTo(nodes, links, center, v, h, walk);
      ClosedLevelsBoundWalks(nodes, links, levels, walk);
    }
  }

  // ----- adjacency

  /** The lists hold a node's partners, once per link end, in link order. */
  function Partners(nodes: seq<Id>, links: seq<Link>, u: Id): seq<Id> {
    if links == [] then []
    else
      Partners(nodes, links[..|links| - 1], u) + Ends(nodes, links[|links| - 1], u)
  }

  /** The partners one link gives a node: two for a link to itself. */
  function Ends(nodes: seq<Id>, l: Link, u: Id): seq<Id> {
    if l.source !in nodes || l.target !in nodes then []
    else (if l.source == u then [l.target] else []) + (if l.target == u then [l.source] else [])
  }

  lemma {:induction false} PartnersAreLinked(nodes: seq<Id>, links: seq<Link>, u: Id)
    requires u in nodes
    ensures forall v :: v in Partners(nodes, links, u) <==> Linked(nodes, links, u, v)
  {
    if links != [] {
      var front, l := links[..|links| - 1], links[|links| - 1];
      PartnersAreLinked(nodes, front, u);
      assert links == front + [l];
      forall v ensures v in Partners(nodes, links, u) <==> Linked(nodes, links, u, v) {
        assert Linked(nodes, front, u, v) ==> Linked(nodes, links, u, v);
      }
    }
  }

  method BuildAdjacency(nodes: seq<Id>, links: seq<Link>) returns (adjacency: map<Id, seq<Id>>)
    ensures forall u :: u in adjacency <==> u in nodes
    ensures forall u :: u in adjacency ==> adjacency[u] == Partners(nodes, links, u)
  {
    hide Partners;
    adjacency := map u | u in nodes :: [];
    forall u ensures Partners(nodes, links[..0], u) == [] {
      PartnersOfNone(nodes, links, u);
    }
    for k := 0 to |links|
      invariant forall u :: u in adjacency <==> u in nodes
      invariant forall u :: u in adjacency ==> adjacency[u] == Partners(nodes, links[..k], u)
    {
      var src, tgt := links[k].source, links[k].target;
      forall u ensures Partners(nodes, links[..k + 1], u) == Partners(nodes, links[..k], u) + Ends(nodes, links[k], u) {
        PartnersStep(nodes, links, k, u);
      }
      if src in adjacency && tgt in adjacency {
        adjacency := adjacency[src := adjacency[src] + [tgt]];
        adjacency := adjacency[tgt := adjacency[tgt] + [src]];
      }
    }
    assert links[..|links|] == links;
  }

  lemma PartnersOfNone(nodes: seq<Id>, links: seq<Link>, u: Id)
    ensures Partners(nodes, links[..0], u) == []
  {
  }

  lemma PartnersStep(nodes: seq<Id>, links: seq<Link>, k: nat, u: Id)
    requires k < |links|
    ensures Partners(nodes, links[..k + 1], u) == Partners(nodes, links[..k], u) + Ends(nodes, links[k], u)
  {
    assert links[..k + 1][..k] == links[..k];
  }

  // ----- the breadth-first loop

  /** What holds between two turns of the outer loop, `queue` being the nodes still to expand. */
  ghost predicate Frontier(nodes: seq<Id>, links: seq<Link>, center: Id, levels: map<Id, nat>, queue: seq<Id>) {
    && center in levels && levels[center] == 0
    && (forall v :: v in levels ==> v == center || v in nodes)
    && (forall v :: v in levels ==> Reaches(nodes, links, center, v, levels[v]))
    && QueueShape(levels, queue)
  }

  /** Everything waiting is levelled, in level order; nothing is more than one level ahead of the head. */
  ghost predicate QueueShape(levels: map<Id, nat>, queue: seq<Id>) {
    && (forall k :: 0 <= k < |queue| ==> queue[k] in levels)
    && (forall j, k :: 0 <= j < k < |queue| ==> levels[queue[j]] <= levels[queue[k]])
    && (queue != [] ==> forall v :: v in levels ==> levels[v] <= levels[queue[0]] + 1)
  }

  ghost predicate Expanded(nodes: seq<Id>, links: seq<Link>, levels: map<Id, nat>, u: Id)
    requires u in levels
  {
    forall v :: Linked(nodes, links, u, v) ==> v in levels && levels[v] <= levels[u] + 1
  }

  /** One turn of the outer loop: `rest` is the queue behind `current`. */
  method Expand(
      nodes: seq<Id>, links: seq<Link>, center: Id, before: map<Id, nat>, current: Id, rest: seq<Id>, partners: seq<Id>)
    returns (levels: map<Id, nat>, queue: seq<Id>)
    requires Frontier(nodes, links, center, before, [current] + rest)
    requires forall v :: v in partners <==> Linked(nodes, links, current, v)
    ensures Frontier(nodes, links, center, levels, queue)
    ensures forall v :: v in before ==> v in levels && levels[v] == before[v]
    ensures forall v :: v in levels ==> v in before || v in queue
    ensures rest <= queue && (queue == rest ==> levels == before)
    ensures queue != rest ==> queue[|rest|] in levels && queue[|rest|] !in before
    ensures Expanded(nodes, links, levels, current)
  {
    assert ([current] + rest)[0] == current;
    assert forall k :: 0 <= k < |rest| ==> ([current] + rest)[k + 1] == rest[k];
    levels, queue := before, rest;
    for j := 0 to |partners|
      invariant Grown(nodes, links, center, before, current, levels)
      invariant rest <= queue && forall k :: 0 <= k < |queue| ==> queue[k] in levels
      invariant forall k :: |rest| <= k < |queue| ==> queue[k] !in before && levels[queue[k]] == before[current] + 1
      invariant forall v :: v in levels ==> v in before || v in queue
      invariant queue == rest ==> levels == before
      invariant forall i :: 0 <= i < j ==> partners[i] in levels
    {
      var next := partners[j];
      if next !in levels {
        assert next in partners;
        ExtendWalk(nodes, links, center, current, next, levels[current]);
        levels := levels[next := levels[current] + 1];
        queue := queue + [next];
      }
    }
    assert forall v :: v in partners ==> v in levels;
    QueueShapeAfter(before, levels, current, rest, queue);
    hide QueueShape;
  }

  /** The queue behind its head: levels in order, each the head's or one more. */
  ghost predicate TailShape(levels: map<Id, nat>, rest: seq<Id>, low: nat) {
    && (forall k :: 0 <= k < |rest| ==> rest[k] in levels && low <= levels[rest[k]] <= low + 1)
    && (forall j, k :: 0 <= j < k < |rest| ==> levels[rest[j]] <= levels[rest[k]])
  }

  lemma TailOfQueue(before: map<Id, nat>, current: Id, rest: seq<Id>)
    requires current in before && QueueShape(before, [current] + rest)
    ensures TailShape(before, rest, before[current])
  {
    var whole := [current] + rest;
    assert whole[0] == current && forall k :: 0 <= k < |rest| ==> whole[k + 1] == rest[k];
    forall j, k | 0 <= j < k < |rest| ensures before[rest[j]] <= before[rest[k]] {
      assert before[whole[j + 1]] <= before[whole[k + 1]];
    }
  }

  lemma TailOfGrown(before: map<Id, nat>, levels: map<Id, nat>, low: nat, rest: seq<Id>, queue: seq<Id>)
    requires TailShape(before, rest, low) && rest <= queue
    requires forall v :: v in before ==> v in levels && levels[v] == before[v]
    requires forall k :: |rest| <= k < |queue| ==> queue[k] in levels && levels[queue[k]] == low + 1
    ensures TailShape(levels, queue, low)
  {
    assert forall k :: 0 <= k < |rest| ==> queue[k] == rest[k];
  }

  /** Behind the old tail come only nodes one level above the expanded one. */
  lemma QueueShapeAfter(before: map<Id, nat>, levels: map<Id, nat>, current: Id, rest: seq<Id>, queue: seq<Id>)
    requires current in before && QueueShape(before, [current] + rest) && rest <= queue
    requires forall v :: v in before ==> v in levels && levels[v] == before[v]
    requires forall v :: v in levels ==> levels[v] <= before[current] + 1
    requires forall k :: |rest| <= k < |queue| ==> queue[k] in levels && levels[queue[k]] == before[current] + 1
    ensures QueueShape(levels, queue)
  {
    TailOfQueue(before, current, rest);
    TailOfGrown(before, levels, before[current], rest, queue);
  }

  /** The levels while `current` is being expanded: the old ones, and new ones one hop further. */
  ghost predicate Grown(
      nodes: seq<Id>, links: seq<Link>, center: Id, before: map<Id, nat>, current: Id, levels: map<Id, nat>)
  {
    && current in before && center in before
    && (forall v :: v in before ==> v in levels && levels[v] == before[v])
    && (forall v :: v in levels ==> (v == center || v in nodes) && levels[v] <= before[current] + 1)
    && (forall v :: v in levels ==> Reaches(nodes, links, center, v, levels[v]))
  }

  method ComputeLevels(nodes: seq<Id>, links: seq<Link>, center: Id) returns (levels: map<Id, nat>)
    ensures forall v :: v in levels ==> IsDistance(nodes, links, center, v, levels[v])
    ensures forall v :: v in levels <==> exists h: nat :: Reaches(nodes, links, center, v, h)
  {
    var adjacency := BuildAdjacency(nodes, links);
    levels := map[center := 0];
    var queue := [center];
    assert WalkTo(nodes, links, center, center, 0, [center]);
    while queue != []
      invariant Frontier(nodes, links, center, levels, queue)
      invariant Settled(nodes, links, levels, queue)
      decreases Unlevelled(nodes, center, levels), |queue|
    {
      hide Frontier, Expanded, Unlevelled, Settled;
      var current, rest := queue[0], queue[1..];
      assert queue == [current] + rest;
      var partners := if current in adjacency then adjacency[current] else [];
      PartnersInMap(nodes, links, adjacency, current);
      ghost var before := levels;
      levels, queue := Expand(nodes, links, center, levels, current, rest, partners);
      StaySettled(nodes, links, before, levels, current, rest, queue);
      NewLevelsAreProgress(nodes, links, center, before, levels, queue);
    }
    SettledLevelsAreDistances(nodes, links, center, levels);
  }

  lemma PartnersInMap(nodes: seq<Id>, links: seq<Link>, adjacency: map<Id, seq<Id>>, u: Id)
    requires u in adjacency <==> u in nodes
    requires u in adjacency ==> adjacency[u] == Partners(nodes, links, u)
    ensures forall v :: v in (if u in adjacency then adjacency[u] else []) <==> Linked(nodes, links, u, v)
  {
    if u in nodes {
      PartnersAreLinked(nodes, links, u);
    }
  }

  /** What the loop has still to discover, at most. */
  ghost function Unlevelled(nodes: seq<Id>, center: Id, levels: map<Id, nat>): set<Id> {
    (set v | v in nodes) + {center} - levels.Keys
  }

  lemma NewLevelsAreProgress(
      nodes: seq<Id>, links: seq<Link>, center: Id, before: map<Id, nat>, levels: map<Id, nat>, queue: seq<Id>)
    requires Frontier(nodes, links, center, levels, queue)
    requires forall v :: v in before ==> v in levels
    ensures (exists v :: v in levels && v !in before) ==>
      Unlevelled(nodes, center, levels) < Unlevelled(nodes, center, before)
  {
    if v :| v in levels && v !in before {
      assert v in Unlevelled(nodes, center, before) && v !in Unlevelled(nodes, center, levels);
    }
  }

  /** Every levelled node that no longer waits has been expanded. */
  ghost predicate Settled(nodes: seq<Id>, links: seq<Link>, levels: map<Id, nat>, queue: seq<Id>) {
    forall u :: u in levels && u !in queue ==> Expanded(nodes, links, levels, u)
  }

  lemma StaySettled(nodes: seq<Id>, links: seq<Link>, before: map<Id, nat>, levels: map<Id, nat>,
                    current: Id, rest: seq<Id>, queue: seq<Id>)
    requires Settled(nodes, links, before, [current] + rest) && rest <= queue
    requires forall v :: v in before ==> v in levels && levels[v] == before[v]
    requires forall v :: v in levels ==> v in before || v in queue
    requires current in levels && Expanded(nodes, links, levels, current)
    ensures Settled(nodes, links, levels, queue)
  {
    forall u | u in levels && u !in queue ensures Expanded(nodes, links, levels, u) {
      assert u in before && (u != current ==> Expanded(nodes, links, before, u));
    }
  }

  lemma SettledLevelsAreDistances(nodes: seq<Id>, links: seq<Link>, center: Id, levels: map<Id, nat>)
    requires Frontier(nodes, links, center, levels, []) && Settled(nodes, links, levels, [])
    ensures forall v :: v in levels ==> IsDistance(nodes, links, center, v, levels[v])
    ensures forall v :: v in levels <==> exists h: nat :: Reaches(nodes, links, center, v, h)
  {
    forall u, v | u in levels && Linked(nodes, links, u, v) ensures v in levels && levels[v] <= levels[u] + 1 {
      assert Expanded(nodes, links, levels, u);
    }
    ClosedLevelsAreDistances(nodes, links, center, levels);
  }
}
