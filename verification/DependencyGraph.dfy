// Dependency boundaries over the resolved package graph (xtask/src/architecture.rs).
//
// Graph::path is a breadth-first search that marks packages when it pops them, over a graph that
// may hold cycles and parallel edges. It finds a shortest forbidden walk, or proves there is none.
module DependencyGraph {
  import opened Wrappers

  // ----- Metadata -----

  datatype Package = Package(id: string, name: string)

  // Each kind is absent for a normal dependency, or "build" or "dev".
  datatype Dependency = Dependency(pkg: string, depKinds: seq<Option<string>>)

  datatype Node = Node(id: string, deps: seq<Dependency>)

  datatype Metadata = Metadata(packages: seq<Package>, nodes: seq<Node>)

  datatype Graph = Graph(names: map<string, string>, edges: map<string, seq<string>>)

  predicate Kept(dep: Dependency) {
    exists i :: 0 <= i < |dep.depKinds| && dep.depKinds[i] != Some("dev")
  }

  function KeptPackages(deps: seq<Dependency>): seq<string> {
    if deps == [] then []
    else KeptPackages(deps[..|deps| - 1]) + if Kept(deps[|deps| - 1]) then [deps[|deps| - 1].pkg] else []
  }

  // Collecting into a map keeps the last entry of a repeated id.
  function Names(packages: seq<Package>): map<string, string> {
    if packages == [] then map[]
    else Names(packages[..|packages| - 1])[packages[|packages| - 1].id := packages[|packages| - 1].name]
  }

  function Edges(nodes: seq<Node>): map<string, seq<string>> {
    if nodes == [] then map[]
    else Edges(nodes[..|nodes| - 1])[nodes[|nodes| - 1].id := KeptPackages(nodes[|nodes| - 1].deps)]
  }

  function FromMetadata(metadata: Metadata): Graph {
    Graph(Names(metadata.packages), Edges(metadata.nodes))
  }

  predicate Edge(g: Graph, from: string, to: string) {
    from in g.edges && to in g.edges[from]
  }

  // Node i is the one that resolves an id: the last node listed under it.
  ghost predicate Resolves(nodes: seq<Node>, i: int, id: string) {
    0 <= i < |nodes| && nodes[i].id == id && forall k :: i < k < |nodes| ==> nodes[k].id != id
  }

  // One of the dependencies names this package and is not only a dev dependency.
  ghost predicate NonDev(deps: seq<Dependency>, to: string) {
    exists j :: 0 <= j < |deps| && deps[j].pkg == to && Kept(deps[j])
  }

  lemma {:induction false} KeptPackagesAre(deps: seq<Dependency>, to: string)
    ensures to in KeptPackages(deps) <==> NonDev(deps, to)
  {
    if deps != [] {
      var init := deps[..|deps| - 1];
      KeptPackagesAre(init, to);
      assert forall j :: 0 <= j < |init| ==> init[j] == deps[j];
    }
  }

  lemma {:induction false} ResolvedEdges(nodes: seq<Node>, i: int, id: string)
    requires Resolves(nodes, i, id)
    ensures id in Edges(nodes) && Edges(nodes)[id] == KeptPackages(nodes[i].deps)
  {
    var n := |nodes| - 1;
    if i < n {
      ResolvedEdges(nodes[..n], i, id);
    }
  }

  lemma {:induction false} EdgesAreResolved(nodes: seq<Node>, id: string)
    requires id in Edges(nodes)
    ensures exists i :: Resolves(nodes, i, id)
  {
    var n := |nodes| - 1;
    if nodes[n].id == id {
      assert Resolves(nodes, n, id);
    } else {
      EdgesAreResolved(nodes[..n], id);
      var i :| Resolves(nodes[..n], i, id);
      assert Resolves(nodes, i, id);
    }
  }

  // A package depends on another exactly when the last node listed under its id has a dependency on it
  // one of whose kinds, absent ones included, is not "dev".
  lemma {:induction false} EdgeIsNonDev(metadata: Metadata, from: string, to: string)
    ensures Edge(FromMetadata(metadata), from, to) <==>
      exists i, j, k ::
        && 0 <= i < |metadata.nodes| && metadata.nodes[i].id == from
        && (forall later :: i < later < |metadata.nodes| ==> metadata.nodes[later].id != from)
        && 0 <= j < |metadata.nodes[i].deps| && metadata.nodes[i].deps[j].pkg == to
        && 0 <= k < |metadata.nodes[i].deps[j].depKinds| && metadata.nodes[i].deps[j].depKinds[k] != Some("dev")
  {
    var nodes := metadata.nodes;
    if from in Edges(nodes) {
      EdgesAreResolved(nodes, from);
    }
    forall i | Resolves(nodes, i, from)
      ensures Edge(FromMetadata(metadata), from, to) <==> NonDev(nodes[i].deps, to)
    {
      ResolvedEdges(nodes, i, from);
      KeptPackagesAre(nodes[i].deps, to);
    }
    hide Edges, FromMetadata, Edge;
    if Edge(FromMetadata(metadata), from, to) {
      var i :| Resolves(nodes, i, from);
      var j :| 0 <= j < |nodes[i].deps| && nodes[i].deps[j].pkg == to && Kept(nodes[i].deps[j]);
      var k :| 0 <= k < |nodes[i].deps[j].depKinds| && nodes[i].deps[j].depKinds[k] != Some("dev");
    }
    if i, j, k :|
      && 0 <= i < |nodes| && nodes[i].id == from
      && (forall later :: i < later < |nodes| ==> nodes[later].id != from)
      && 0 <= j < |nodes[i].deps| && nodes[i].deps[j].pkg == to
      && 0 <= k < |nodes[i].deps[j].depKinds| && nodes[i].deps[j].depKinds[k] != Some("dev")
    {
      assert Resolves(nodes, i, from);
      assert Kept(nodes[i].deps[j]);
    }
  }

  ghost predicate NamedAt(packages: seq<Package>, i: int, id: string, name: string) {
    && 0 <= i < |packages| && packages[i].id == id && packages[i].name == name
    && forall later :: i < later < |packages| ==> packages[later].id != id
  }

  // The name of a package is that of the last one listed under its id.
  lemma {:induction false} NamesAreLast(metadata: Metadata, id: string, name: string)
    ensures id in FromMetadata(metadata).names && FromMetadata(metadata).names[id] == name <==>
            exists i :: NamedAt(metadata.packages, i, id, name)
  {
    LastNames(metadata.packages, id, name);
  }

  lemma {:induction false} LastNames(packages: seq<Package>, id: string, name: string)
    ensures id in Names(packages) && Names(packages)[id] == name <==> exists i :: NamedAt(packages, i, id, name)
  {
    if packages != [] {
      var n := |packages| - 1;
      LastNames(packages[..n], id, name);
      EarlierNames(packages, n, id, name);
      hide NamedAt;
      if i :| NamedAt(packages[..n], i, id, name) {
        EarlierNames(packages, i, id, name);
      }
      if i :| NamedAt(packages, i, id, name) {
        EarlierNames(packages, i, id, name);
      }
    }
  }

  lemma {:induction false} EarlierNames(packages: seq<Package>, i: int, id: string, name: string)
    requires packages != []
    ensures var n := |packages| - 1;
            NamedAt(packages, i, id, name) <==>
            if packages[n].id == id then i == n && packages[n].name == name
            else NamedAt(packages[..n], i, id, name)
  {
    var init := packages[..|packages| - 1];
    assert forall k :: 0 <= k < |init| ==> init[k] == packages[k];
  }

  // ----- Walks -----

  ghost predicate Walk(g: Graph, root: string, w: seq<string>) {
    w != [] && w[0] == root && forall i :: 0 < i < |w| ==> Edge(g, w[i - 1], w[i])
  }

  function Last(w: seq<string>): string
    requires w != []
  {
    w[|w| - 1]
  }

  ghost predicate Target(g: Graph, root: string, forbidden: string -> bool, id: string) {
    id != root && id in g.names && forbidden(g.names[id])
  }

  // A walk from the root to a forbidden package other than the root.
  ghost predicate Violation(g: Graph, root: string, forbidden: string -> bool, w: seq<string>) {
    Walk(g, root, w) && Target(g, root, forbidden, Last(w))
  }

  predicate Named(g: Graph, w: seq<string>) {
    forall i :: 0 <= i < |w| ==> w[i] in g.names
  }

  function NamesAlong(g: Graph, w: seq<string>): (path: seq<string>)
    requires Named(g, w)
    ensures |path| == |w| && forall i :: 0 <= i < |w| ==> path[i] == g.names[w[i]]
  {
    seq(|w|, i requires 0 <= i < |w| => g.names[w[i]])
  }

  // ----- The search frontier -----

  ghost predicate Ends(w: seq<string>, id: string) {
    w != [] && Last(w) == id
  }

  // Some queued walk of at most this length ends here.
  ghost predicate Queued(walks: seq<seq<string>>, id: string, length: nat) {
    exists i :: 0 <= i < |walks| && Ends(walks[i], id) && |walks[i]| <= length
  }

  ghost predicate Settled(walks: seq<seq<string>>, seenAt: map<string, nat>, id: string, length: nat) {
    (id in seenAt && seenAt[id] <= length) || Queued(walks, id, length)
  }

  // The queued walks come in order of length, at the current level or the next.
  ghost predicate InOrder(walks: seq<seq<string>>, level: nat) {
    && (forall i :: 0 <= i < |walks| ==> level <= |walks[i]| <= level + 1)
    && (forall i, j :: 0 <= i < j < |walks| ==> |walks[i]| <= |walks[j]|)
  }

  // Everything a walk shorter than the level reaches has been seen, no later than that walk.
  ghost predicate CoveredBelow(g: Graph, root: string, seenAt: map<string, nat>, level: nat) {
    forall w :: Walk(g, root, w) && |w| < level ==> Last(w) in seenAt && seenAt[Last(w)] <= |w|
  }

  ghost predicate Frontier(g: Graph, root: string, walks: seq<seq<string>>, seenAt: map<string, nat>, level: nat) {
    && (forall i :: 0 <= i < |walks| ==> Walk(g, root, walks[i]))
    && InOrder(walks, level)
    && CoveredBelow(g, root, seenAt, level)
    && Settled(walks, seenAt, root, 1)
    && (forall id :: id in seenAt ==> seenAt[id] <= level)
    && (forall from, to :: from in seenAt && Edge(g, from, to) ==> Settled(walks, seenAt, to, seenAt[from] + 1))
  }

  lemma {:induction false} WalkPrefix(g: Graph, root: string, w: seq<string>)
    requires Walk(g, root, w) && |w| > 1
    ensures Walk(g, root, w[..|w| - 1]) && Edge(g, Last(w[..|w| - 1]), Last(w))
  {
  }

  // Once the shortest queued walk is longer than the level, the level is exhausted.
  lemma {:induction false} LevelUp(g: Graph, root: string, walks: seq<seq<string>>, seenAt: map<string, nat>, level: nat)
    requires Frontier(g, root, walks, seenAt, level)
    requires walks != [] && |walks[0]| > level
    ensures Frontier(g, root, walks, seenAt, level + 1)
  {
    forall w | Walk(g, root, w) && |w| < level + 1
      ensures Last(w) in seenAt && seenAt[Last(w)] <= |w|
    {
      if |w| == level {
        if |w| > 1 {
          WalkPrefix(g, root, w);
          assert Settled(walks, seenAt, Last(w), seenAt[Last(w[..|w| - 1])] + 1);
        }
        assert !Queued(walks, Last(w), |w|);
      }
    }
  }

  // Dropping the head keeps whatever was settled, provided the head's end is seen.
  lemma {:induction false} SettledAfterPop(walks: seq<seq<string>>, seenAt: map<string, nat>, seenAt': map<string, nat>, more: seq<seq<string>>,
                                           id: string, length: nat)
    requires walks != [] && walks[0] != [] && Settled(walks, seenAt, id, length)
    requires forall x :: x in seenAt ==> x in seenAt' && seenAt'[x] == seenAt[x]
    requires Last(walks[0]) in seenAt' && seenAt'[Last(walks[0])] <= |walks[0]|
    ensures Settled(walks[1..] + more, seenAt', id, length)
  {
    if !(id in seenAt && seenAt[id] <= length) {
      var i :| 0 <= i < |walks| && Ends(walks[i], id) && |walks[i]| <= length;
      if i > 0 {
        assert (walks[1..] + more)[i - 1] == walks[i];
      }
    }
  }

  lemma {:induction false} PopSeen(g: Graph, root: string, walks: seq<seq<string>>, seenAt: map<string, nat>, level: nat)
    requires Frontier(g, root, walks, seenAt, level)
    requires walks != [] && |walks[0]| == level && Last(walks[0]) in seenAt
    ensures Frontier(g, root, walks[1..], seenAt, level)
  {
    assert walks[1..] + [] == walks[1..];
    SettledAfterPop(walks, seenAt, seenAt, [], root, 1);
    forall from, to | from in seenAt && Edge(g, from, to) ensures Settled(walks[1..], seenAt, to, seenAt[from] + 1) {
      SettledAfterPop(walks, seenAt, seenAt, [], to, seenAt[from] + 1);
    }
  }

  function Extensions(w: seq<string>, deps: seq<string>): (more: seq<seq<string>>)
    ensures |more| == |deps| && forall i :: 0 <= i < |deps| ==> more[i] == w + [deps[i]]
  {
    seq(|deps|, i requires 0 <= i < |deps| => w + [deps[i]])
  }

  function Successors(g: Graph, id: string): seq<string> {
    if id in g.edges then g.edges[id] else []
  }

  // Expanding a package settles its successors one level further out.
  lemma {:induction false} ExpandedSettles(g: Graph, rest: seq<seq<string>>, seenAt: map<string, nat>, head: seq<string>, to: string)
    requires head != [] && Edge(g, Last(head), to)
    ensures Settled(rest + Extensions(head, Successors(g, Last(head))), seenAt, to, |head| + 1)
  {
    var deps := Successors(g, Last(head));
    var more := Extensions(head, deps);
    var i :| 0 <= i < |deps| && deps[i] == to;
    assert (rest + more)[|rest| + i] == more[i];
    assert Ends((rest + more)[|rest| + i], to);
  }

  lemma {:induction false} ExpandedWalks(g: Graph, root: string, head: seq<string>)
    requires Walk(g, root, head)
    ensures forall w :: w in Extensions(head, Successors(g, Last(head))) ==> Walk(g, root, w) && |w| == |head| + 1
  {
    var deps := Successors(g, Last(head));
    forall i | 0 <= i < |deps| ensures Walk(g, root, head + [deps[i]]) {
      assert Edge(g, Last(head), deps[i]);
    }
  }

  lemma {:induction false} InOrderAfterPop(walks: seq<seq<string>>, more: seq<seq<string>>, level: nat)
    requires walks != [] && InOrder(walks, level)
    requires forall w :: w in more ==> |w| == level + 1
    ensures InOrder(walks[1..] + more, level)
  {
    var walks' := walks[1..] + more;
    forall i | 0 <= i < |walks'| ensures level <= |walks'[i]| <= level + 1 {
      if i >= |walks| - 1 { assert walks'[i] in more; }
    }
    forall i, j | 0 <= i < j < |walks'| ensures |walks'[i]| <= |walks'[j]| {
      if j >= |walks| - 1 { assert walks'[j] in more; }
    }
  }

  // The walks left after expanding the head, in order.
  lemma {:induction false} ExpandedQueue(g: Graph, root: string, walks: seq<seq<string>>, level: nat)
    requires walks != [] && walks[0] != [] && InOrder(walks, level) && |walks[0]| == level
    requires forall i :: 0 <= i < |walks| ==> Walk(g, root, walks[i])
    ensures var walks' := walks[1..] + Extensions(walks[0], Successors(g, Last(walks[0])));
            InOrder(walks', level) && forall i :: 0 <= i < |walks'| ==> Walk(g, root, walks'[i])
  {
    hide Walk, InOrder, Extensions, Successors;
    var more := Extensions(walks[0], Successors(g, Last(walks[0])));
    ExpandedWalks(g, root, walks[0]);
    InOrderAfterPop(walks, more, level);
    forall i | 0 <= i < |walks[1..] + more| ensures Walk(g, root, (walks[1..] + more)[i]) {
      if i >= |walks| - 1 {
        assert more[i - (|walks| - 1)] in more;
      }
    }
  }

  lemma {:induction false} PopNew(g: Graph, root: string, walks: seq<seq<string>>, seenAt: map<string, nat>, level: nat)
    requires Frontier(g, root, walks, seenAt, level)
    requires walks != [] && |walks[0]| == level && Last(walks[0]) !in seenAt
    ensures var id := Last(walks[0]);
            Frontier(g, root, walks[1..] + Extensions(walks[0], Successors(g, id)), seenAt[id := level], level)
  {
    ExpandedQueue(g, root, walks, level);
    hide Settled, InOrder, Extensions, Successors;
    var head, id := walks[0], Last(walks[0]);
    var more := Extensions(head, Successors(g, id));
    var walks', seenAt' := walks[1..] + more, seenAt[id := level];
    SettledAfterPop(walks, seenAt, seenAt', more, root, 1);
    forall from, to | from in seenAt' && Edge(g, from, to) ensures Settled(walks', seenAt', to, seenAt'[from] + 1) {
      if from == id {
        ExpandedSettles(g, walks[1..], seenAt', head, to);
      } else {
        SettledAfterPop(walks, seenAt, seenAt', more, to, seenAt[from] + 1);
      }
    }
  }

  // With nothing left to visit, every walk ends at a seen package.
  lemma {:induction false} ExhaustedSeesAll(g: Graph, root: string, seenAt: map<string, nat>, level: nat, w: seq<string>)
    requires Frontier(g, root, [], seenAt, level) && Walk(g, root, w)
    ensures Last(w) in seenAt
    decreases |w|
  {
    if |w| > 1 {
      WalkPrefix(g, root, w);
      ExhaustedSeesAll(g, root, seenAt, level, w[..|w| - 1]);
    }
  }

  // The queue carries the names along the walks it stands for.
  ghost predicate Carries(g: Graph, queue: seq<(string, seq<string>)>, walks: seq<seq<string>>) {
    && |queue| == |walks|
    && forall i :: 0 <= i < |queue| ==>
         Named(g, walks[i]) && Ends(walks[i], queue[i].0) && queue[i].1 == NamesAlong(g, walks[i])
  }

  lemma {:induction false} CarriesPushed(g: Graph, queue: seq<(string, seq<string>)>, walks: seq<seq<string>>, head: seq<string>, dep: string)
    requires Carries(g, queue, walks) && Named(g, head) && dep in g.names
    ensures Carries(g, queue + [(dep, NamesAlong(g, head) + [g.names[dep]])], walks + [head + [dep]])
  {
    assert NamesAlong(g, head + [dep]) == NamesAlong(g, head) + [g.names[dep]];
  }

  // A violation found at the current level is shortest.
  lemma {:induction false} FoundIsShortest(g: Graph, root: string, forbidden: string -> bool,
                                           walks: seq<seq<string>>, seenAt: map<string, nat>, level: nat)
    requires Frontier(g, root, walks, seenAt, level)
    requires forall id :: id in seenAt ==> !Target(g, root, forbidden, id)
    ensures forall v :: Violation(g, root, forbidden, v) ==> level <= |v|
  {
  }

  // What an answer of the search must say.
  ghost predicate Answers(g: Graph, root: string, forbidden: string -> bool, r: Option<seq<string>>) {
    match r
    case None => forall v :: !Violation(g, root, forbidden, v)
    case Some(path) => exists w ::
      && Violation(g, root, forbidden, w) && Named(g, w) && path == NamesAlong(g, w)
      && forall v :: Violation(g, root, forbidden, v) ==> |w| <= |v|
  }

  lemma {:induction false} ExhaustedAnswers(g: Graph, root: string, forbidden: string -> bool, seenAt: map<string, nat>, level: nat)
    requires Frontier(g, root, [], seenAt, level)
    requires forall id :: id in seenAt ==> !Target(g, root, forbidden, id)
    ensures Answers(g, root, forbidden, None)
  {
    forall v ensures !Violation(g, root, forbidden, v) {
      if Walk(g, root, v) {
        ExhaustedSeesAll(g, root, seenAt, level, v);
      }
    }
  }

  // Everything a walk up to the level reaches is seen or queued, so it is named.
  lemma {:induction false} NamedUpTo(g: Graph, root: string, walks: seq<seq<string>>, seenAt: map<string, nat>, level: nat, w: seq<string>)
    requires Frontier(g, root, walks, seenAt, level) && root in g.names
    requires forall id :: id in seenAt ==> id in g.names
    requires forall i :: 0 <= i < |walks| ==> Named(g, walks[i])
    requires Walk(g, root, w) && |w| <= level
    ensures Last(w) in g.names
  {
    if |w| == level && |w| > 1 {
      WalkPrefix(g, root, w);
      assert Settled(walks, seenAt, Last(w), seenAt[Last(w[..|w| - 1])] + 1);
    }
  }

  // Every walk to an unnamed package is longer than this.
  ghost predicate NamedWithin(g: Graph, root: string, length: nat) {
    forall w :: Walk(g, root, w) && |w| <= length ==> Last(w) in g.names
  }

  // A walk to an unnamed package, at most one edge longer than any violation.
  ghost predicate MeetsUnnamed(g: Graph, root: string, forbidden: string -> bool) {
    exists w :: Walk(g, root, w) && Last(w) !in g.names && forall v :: Violation(g, root, forbidden, v) ==> |w| <= |v| + 1
  }

  lemma {:induction false} UnnamedDependency(g: Graph, root: string, forbidden: string -> bool,
                                             walks: seq<seq<string>>, seenAt: map<string, nat>, level: nat, to: string)
    requires Frontier(g, root, walks, seenAt, level) && walks != [] && |walks[0]| == level
    requires forall id :: id in seenAt ==> !Target(g, root, forbidden, id)
    requires Walk(g, root, walks[0]) && Edge(g, Last(walks[0]), to) && to !in g.names
    ensures MeetsUnnamed(g, root, forbidden)
  {
    FoundIsShortest(g, root, forbidden, walks, seenAt, level);
    var w := walks[0] + [to];
    assert Walk(g, root, w) && Last(w) == to && |w| == level + 1;
  }

  // Queues every dependency of a package, each with the path through it, unless one has no name.
  method Expand(g: Graph, queue: seq<(string, seq<string>)>, ghost walks: seq<seq<string>>,
                id: string, path: seq<string>, ghost head: seq<string>)
    returns (named: bool, queue': seq<(string, seq<string>)>, ghost walks': seq<seq<string>>)
    requires Carries(g, queue, walks) && Named(g, head) && Ends(head, id) && path == NamesAlong(g, head)
    ensures named <==> forall to :: Edge(g, id, to) ==> to in g.names
    ensures named ==> |queue'| == |queue| + |Successors(g, id)| && queue'[..|queue|] == queue
    ensures named ==> forall i :: 0 <= i < |Successors(g, id)| ==> queue'[|queue| + i].0 == Successors(g, id)[i]
    ensures named ==> walks' == walks + Extensions(head, Successors(g, id)) && Carries(g, queue', walks')
  {
    named, queue', walks' := true, queue, walks;
    var deps := Successors(g, id);
    for i := 0 to |deps|
      invariant |queue'| == |queue| + i && queue'[..|queue|] == queue
      invariant forall k :: 0 <= k < i ==> deps[k] in g.names && queue'[|queue| + k].0 == deps[k]
      invariant walks' == walks + Extensions(head, deps[..i]) && Carries(g, queue', walks')
    {
      if deps[i] !in g.names {
        assert Edge(g, id, deps[i]);
        return false, queue', walks';
      }
      CarriesPushed(g, queue', walks', head, deps[i]);
      queue' := queue' + [(deps[i], path + [g.names[deps[i]]])];
      walks' := walks' + [head + [deps[i]]];
      assert Extensions(head, deps[..i + 1]) == Extensions(head, deps[..i]) + [head + [deps[i]]];
    }
    assert deps[..|deps|] == deps;
  }

  // Finds a violation of least length, or reports that there is none; indexing the names fails when
  // the search meets a package that has none.
  method Path(g: Graph, root: string, forbidden: string -> bool) returns (r: Result<Option<seq<string>>>)
    ensures r.Success? ==> Answers(g, root, forbidden, r.value)
    ensures r.Success? && r.value.Some? ==> NamedWithin(g, root, |r.value.value|)
    ensures r.Success? && r.value.None? ==> forall w :: Walk(g, root, w) ==> Last(w) in g.names
    ensures r.Failure? ==> MeetsUnnamed(g, root, forbidden)
  {
    if root !in g.names {
      assert Walk(g, root, [root]);
      return Failure("no entry found for key");
    }
    hide Settled, InOrder, CoveredBelow, Violation, Frontier, Walk, Carries, Answers, Extensions, Successors, Named, NamesAlong,
         Ends, MeetsUnnamed, Target, Edge;
    var queue := [(root, [g.names[root]])];
    var seen: set<string> := {};
    ghost var walks := [[root]];
    ghost var seenAt: map<string, nat> := map[];
    ghost var level := 1;
    StartFrontier(g, root);
    while queue != []
      invariant Frontier(g, root, walks, seenAt, level)
      invariant Carries(g, queue, walks)
      invariant (forall x :: x in seen <==> x in seenAt) && seen <= g.names.Keys
      invariant forall id :: id in seenAt ==> !Target(g, root, forbidden, id)
      decreases |g.names.Keys - seen|, |queue|
    {
      HeadCarried(g, queue, walks);
      level := HeadLevel(g, root, walks, seenAt, level);
      var (id, path) := queue[0];
      queue := queue[1..];
      ghost var head := walks[0];
      if id in seen {
        PopSeen(g, root, walks, seenAt, level);
        walks := walks[1..];
        continue;
      }
      FewerUnseen(g.names.Keys, seen, id);
      ghost var before := seenAt;
      seen := seen + {id};
      if id != root && forbidden(g.names[id]) {
        FoundAnswers(g, root, forbidden, walks, seenAt, level);
        forall w | Walk(g, root, w) && |w| <= |path| ensures Last(w) in g.names {
          NamedUpTo(g, root, walks, seenAt, level, w);
        }
        return Success(Some(path));
      }
      PopNew(g, root, walks, seenAt, level);
      ghost var popped := walks;
      var named;
      named, queue, walks := Expand(g, queue, walks[1..], id, path, head);
      if !named {
        var to :| Edge(g, id, to) && to !in g.names;
        UnnamedDependency(g, root, forbidden, popped, before, level, to);
        return Failure("no entry found for key");
      }
      seenAt := seenAt[id := level];
    }
    assert walks == [] by { EmptyCarried(g, walks); }
    ExhaustedAnswers(g, root, forbidden, seenAt, level);
    forall w | Walk(g, root, w) ensures Last(w) in g.names {
      ExhaustedSeesAll(g, root, seenAt, level, w);
    }
    return Success(None);
  }

  lemma {:induction false} StartFrontier(g: Graph, root: string)
    requires root in g.names
    ensures Frontier(g, root, [[root]], map[], 1)
    ensures Carries(g, [(root, [g.names[root]])], [[root]])
  {
    assert NamesAlong(g, [root]) == [g.names[root]];
    assert Ends([[root]][0], root);
  }

  // The level of the head, at which the frontier still holds.
  lemma {:induction false} HeadLevel(g: Graph, root: string, walks: seq<seq<string>>, seenAt: map<string, nat>, level: nat)
    returns (next: nat)
    requires walks != [] && Frontier(g, root, walks, seenAt, level)
    ensures |walks[0]| == next && Walk(g, root, walks[0]) && Frontier(g, root, walks, seenAt, next)
  {
    next := level;
    if |walks[0]| > level {
      LevelUp(g, root, walks, seenAt, level);
      next := level + 1;
    }
  }

  lemma {:induction false} HeadCarried(g: Graph, queue: seq<(string, seq<string>)>, walks: seq<seq<string>>)
    requires queue != [] && Carries(g, queue, walks)
    ensures walks != [] && Named(g, walks[0]) && Ends(walks[0], queue[0].0) && queue[0].1 == NamesAlong(g, walks[0])
    ensures Carries(g, queue[1..], walks[1..])
    ensures (forall i :: 0 <= i < |walks| ==> Named(g, walks[i])) && |queue[0].1| == |walks[0]|
    ensures walks[0] != [] && queue[0].0 == Last(walks[0]) && queue[0].0 in g.names
  {
  }

  lemma {:induction false} EmptyCarried(g: Graph, walks: seq<seq<string>>)
    requires Carries(g, [], walks)
    ensures walks == []
  {
  }

  lemma {:induction false} FewerUnseen(all: set<string>, seen: set<string>, id: string)
    requires id in all && id !in seen
    ensures |all - (seen + {id})| < |all - seen|
  {
    assert all - seen == (all - (seen + {id})) + {id};
  }

  lemma {:induction false} FoundAnswers(g: Graph, root: string, forbidden: string -> bool,
                                        walks: seq<seq<string>>, seenAt: map<string, nat>, level: nat)
    requires walks != [] && |walks[0]| == level && Frontier(g, root, walks, seenAt, level) && Named(g, walks[0])
    requires forall id :: id in seenAt ==> !Target(g, root, forbidden, id)
    requires Target(g, root, forbidden, Last(walks[0]))
    ensures Answers(g, root, forbidden, Some(NamesAlong(g, walks[0])))
  {
    FoundIsShortest(g, root, forbidden, walks, seenAt, level);
    assert Violation(g, root, forbidden, walks[0]);
  }
}
