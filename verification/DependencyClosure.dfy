/**
The production dependency tree behind NOTICE.txt: a worklist search over the lock file's
dependency graph, and the filter of lock-file packages by its result.
*/
module DependencyClosure {

  type Graph = map<string, seq<string>>

  /** A `[[package]]` of the lock file. */
  datatype Package = Package(name: string, dependencies: seq<string>)

  function LowerChar(c: char): char {
    if 'A' <= c <= 'Z' then (c as int + 32) as char else c
  }

  function Lower(s: string): string {
    if s == "" then "" else [LowerChar(s[0])] + Lower(s[1..])
  }

  /** Letters lose their case, nothing else changes. */
  lemma {:induction false} LowerIs(s: string)
    ensures |Lower(s)| == |s|
    ensures forall i | 0 <= i < |s| ::
      Lower(s)[i] as int == s[i] as int + if 'A' <= s[i] <= 'Z' then 32 else 0
  {
    if s != "" {
      LowerIs(s[1..]);
      assert forall i | 0 < i < |s| :: Lower(s)[i] == Lower(s[1..])[i - 1] && s[i] == s[1..][i - 1];
    }
  }

  function LowerAll(names: seq<string>): seq<string> {
    if names == [] then [] else [Lower(names[0])] + LowerAll(names[1..])
  }

  /** Each package's dependencies by lower-case name; a later package of the same name replaces an earlier one. */
  function GraphOf(packages: seq<Package>): Graph {
    if packages == [] then map[]
    else
      var p := packages[|packages| - 1];
      GraphOf(packages[..|packages| - 1])[Lower(p.name) := LowerAll(p.dependencies)]
  }

  predicate Edge(g: Graph, a: string, b: string) {
    a in g && b in g[a]
  }

  /** Consecutive names of `p` are linked in the graph. */
  ghost predicate Path(g: Graph, p: seq<string>) {
    forall i | 0 < i < |p| :: Edge(g, p[i - 1], p[i])
  }

  ghost predicate PathTo(g: Graph, roots: set<string>, p: seq<string>, n: string) {
    p != [] && p[0] in roots && p[|p| - 1] == n && Path(g, p)
  }

  ghost predicate Reachable(g: Graph, roots: set<string>, n: string) {
    exists p :: PathTo(g, roots, p, n)
  }

  lemma RootReachable(g: Graph, roots: set<string>, n: string)
    requires n in roots
    ensures Reachable(g, roots, n)
  {
    assert PathTo(g, roots, [n], n);
  }

  lemma EdgeReachable(g: Graph, roots: set<string>, a: string, b: string)
    requires Reachable(g, roots, a) && Edge(g, a, b)
    ensures Reachable(g, roots, b)
  {
    var p :| PathTo(g, roots, p, a);
    assert PathTo(g, roots, p + [b], b);
  }

  /** A set that contains the roots and is closed under edges contains every reachable name. */
  lemma {:induction false} ClosedContainsPath(g: Graph, roots: set<string>, s: set<string>, p: seq<string>, n: string)
    requires roots <= s && forall a, b | a in s && Edge(g, a, b) :: b in s
    requires PathTo(g, roots, p, n)
    ensures n in s
    decreases |p|
  {
    if |p| > 1 {
      var init := p[..|p| - 1];
      ClosedContainsPath(g, roots, s, init, init[|init| - 1]);
      assert Edge(g, p[|p| - 2], p[|p| - 1]);
    }
  }

  ghost predicate Distinct(xs: seq<string>) {
    forall i, j | 0 <= i < j < |xs| :: xs[i] != xs[j]
  }

  ghost predicate Lists(xs: seq<string>, s: set<string>) {
    Distinct(xs) && forall x :: x in xs <==> x in s
  }

  /** The names that can ever be enqueued. */
  ghost function Universe(g: Graph, roots: set<string>): set<string> {
    roots + set a, b | a in g && b in g[a] :: b
  }

  lemma ListsAppend(xs: seq<string>, s: set<string>, x: string)
    requires Lists(xs, s) && x !in s
    ensures Lists(xs + [x], s + {x})
  {
    assert forall i | 0 <= i < |xs| :: xs[i] in xs;
  }

  /** `list(prod_deps)`: the direct dependencies in some order. */
  method ListOf(s: set<string>) returns (xs: seq<string>)
    ensures Lists(xs, s)
  {
    xs := [];
    var todo := s;
    while todo != {}
      invariant todo <= s && Lists(xs, s - todo)
      decreases |todo|
    {
      var x :| x in todo;
      ListsAppend(xs, s - todo, x);
      assert s - todo + {x} == s - (todo - {x});
      xs := xs + [x];
      todo := todo - {x};
    }
  }

  /**
  The search invariant: processed and queued names are exactly the known ones, each listed once,
  all of them in `reach`, and the dependencies of processed names are known.
  */
  ghost predicate Searching(g: Graph, reach: iset<string>, all: set<string>, done: seq<string>, queue: seq<string>) {
    && Lists(done + queue, all)
    && (forall x | x in all :: x in reach)
    && (forall a, b | a in done && Edge(g, a, b) :: b in all)
  }

  /** Dependencies of names in `reach` are in `reach`. */
  ghost predicate Closed(g: Graph, reach: iset<string>) {
    forall a, b | a in reach && Edge(g, a, b) :: b in reach
  }

  /** A dependency that is not known yet is added and enqueued. */
  lemma EnqueueKeeps(g: Graph, reach: iset<string>, all: set<string>, done: seq<string>, queue: seq<string>,
                     current: string, dep: string)
    requires Searching(g, reach, all, done, queue) && Closed(g, reach)
    requires current in all && Edge(g, current, dep) && dep !in all
    ensures Searching(g, reach, all + {dep}, done, queue + [dep])
  {
    ListsAppend(done + queue, all, dep);
    assert done + (queue + [dep]) == done + queue + [dep];
  }

  /** Once its dependencies are known, the name at the head of the queue is processed. */
  lemma ProcessedKeeps(g: Graph, reach: iset<string>, all: set<string>, done: seq<string>, queue: seq<string>)
    requires Searching(g, reach, all, done, queue) && queue != []
    requires forall b | Edge(g, queue[0], b) :: b in all
    ensures Searching(g, reach, all, done + [queue[0]], queue[1..])
  {
    assert done + queue == (done + [queue[0]]) + queue[1..];
    assert forall x | x in done + [queue[0]] :: x in done || x == queue[0];
  }

  /** One round of the worklist: dequeue a name and enqueue its unknown dependencies. */
  method ProcessNext(g: Graph, ghost reach: iset<string>, all: set<string>, queue: seq<string>, ghost done: seq<string>)
    returns (all': set<string>, queue': seq<string>)
    requires Searching(g, reach, all, done, queue) && queue != [] && Closed(g, reach)
    ensures Searching(g, reach, all', done + [queue[0]], queue')
    ensures all <= all' && (all' == all ==> queue' == queue[1..])
    ensures forall x | x in all' && x !in all :: Edge(g, queue[0], x)
  {
    var current := queue[0];
    all' := all;
    var longer := queue;
    assert current in done + queue;
    if current in g {
      for i := 0 to |g[current]|
        invariant Searching(g, reach, all', done, longer)
        invariant all <= all' && queue <= longer && (all' == all ==> longer == queue)
        invariant forall k | 0 <= k < i :: g[current][k] in all'
        invariant forall x | x in all' && x !in all :: Edge(g, current, x)
      {
        var dep := g[current][i];
        if dep !in all' {
          EnqueueKeeps(g, reach, all', done, longer, current, dep);
          all' := all' + {dep};
          longer := longer + [dep];
        }
      }
    }
    queue' := longer[1..];
    ProcessedKeeps(g, reach, all', done, longer);
  }

  lemma ReachableIsClosed(g: Graph, roots: set<string>) returns (reach: iset<string>)
    ensures reach == iset n | Reachable(g, roots, n)
    ensures Closed(g, reach) && forall x | x in roots :: x in reach
  {
    reach := iset n | Reachable(g, roots, n);
    forall a, b | a in reach && Edge(g, a, b)
      ensures b in reach
    {
      EdgeReachable(g, roots, a, b);
    }
    forall x | x in roots
      ensures x in reach
    {
      RootReachable(g, roots, x);
    }
  }

  lemma SearchEnds(g: Graph, roots: set<string>, reach: iset<string>, all: set<string>, done: seq<string>)
    requires Searching(g, reach, all, done, []) && roots <= all
    requires reach == iset n | Reachable(g, roots, n)
    ensures forall n :: n in all <==> Reachable(g, roots, n)
    ensures Lists(done, all)
  {
    assert done + [] == done;
    forall n | Reachable(g, roots, n)
      ensures n in all
    {
      var p :| PathTo(g, roots, p, n);
      ClosedContainsPath(g, roots, all, p, n);
    }
  }

  /**
  The worklist of `get_production_dependency_tree`. It returns exactly the names reachable from
  the direct dependencies, enqueues each of them once (`order`), and terminates on cyclic graphs.
  */
  method ProductionDependencies(g: Graph, direct: set<string>) returns (all: set<string>, ghost order: seq<string>)
    ensures forall n :: n in all <==> Reachable(g, direct, n)
    ensures Lists(order, all)
  {
    all, order := direct, [];
    var queue := ListOf(direct);
    ghost var reach := ReachableIsClosed(g, direct);
    assert [] + queue == queue;
    while queue != []
      invariant Searching(g, reach, all, order, queue)
      invariant direct <= all <= Universe(g, direct)
      decreases |Universe(g, direct) - all|, |queue|
    {
      ghost var known, head := all, queue[0];
      all, queue := ProcessNext(g, reach, all, queue, order);
      order := order + [head];
      forall x | x in all
        ensures x in Universe(g, direct)
      {
        if x !in known {
          InUniverse(g, direct, head, x);
        }
      }
      if all != known {
        Shrinks(Universe(g, direct), known, all);
      }
    }
    SearchEnds(g, direct, reach, all, order);
  }

  lemma InUniverse(g: Graph, roots: set<string>, a: string, b: string)
    requires Edge(g, a, b)
    ensures b in Universe(g, roots)
  {
  }

  lemma Shrinks(u: set<string>, a: set<string>, b: set<string>)
    requires a <= b <= u && a != b
    ensures |u - b| < |u - a|
  {
    assert u - b < u - a;
    SmallerSubset(u - b, u - a);
  }

  lemma SmallerSubset(a: set<string>, b: set<string>)
    requires a < b
    ensures |a| < |b|
  {
    var c := b - a;
    assert b == a + c && a !! c && c != {};
    assert |b| == |a| + |c|;
  }

  /** The packages of the lock file that are kept, in file order. */
  function Kept(packages: seq<Package>, names: set<string>): seq<string> {
    if packages == [] then []
    else
      var p := packages[|packages| - 1];
      Kept(packages[..|packages| - 1], names) +
      if p.name != "" && Lower(p.name) in names then [p.name] else []
  }

  /** `get_python_dependencies`: the named packages of the lock file reachable from the direct dependencies. */
  method PythonDependencies(packages: seq<Package>, direct: set<string>) returns (names: seq<string>)
    ensures forall n :: n in names <==>
      exists i :: 0 <= i < |packages| && packages[i].name == n && n != "" && Reachable(GraphOf(packages), direct, Lower(n))
  {
    var all, _ := ProductionDependencies(GraphOf(packages), direct);
    names := [];
    for i := 0 to |packages|
      invariant names == Kept(packages[..i], all)
    {
      assert packages[..i + 1][..i] == packages[..i];
      if packages[i].name != "" && Lower(packages[i].name) in all {
        names := names + [packages[i].name];
      }
    }
    assert packages[..|packages|] == packages;
    forall n
      ensures n in names <==>
        exists i :: 0 <= i < |packages| && packages[i].name == n && n != "" && Reachable(GraphOf(packages), direct, Lower(n))
    {
      KeptMembers(packages, all, n);
    }
  }

  lemma {:induction false} KeptMembers(packages: seq<Package>, names: set<string>, n: string)
    ensures n in Kept(packages, names) <==>
      exists i :: 0 <= i < |packages| && packages[i].name == n && n != "" && Lower(n) in names
  {
    if packages != [] {
      var init := packages[..|packages| - 1];
      KeptMembers(init, names, n);
      if i :| 0 <= i < |packages| && packages[i].name == n && n != "" && Lower(n) in names {
        if i < |init| {
          assert init[i].name == n;
        }
      }
    }
  }

  // ----- several packages of one name -----

  /** Package `i` is the last one of its name. */
  predicate LastOfName(packages: seq<Package>, i: nat)
    requires i < |packages|
  {
    forall j | i < j < |packages| :: Lower(packages[j].name) != Lower(packages[i].name)
  }

  lemma {:induction false} LowerAllMembers(names: seq<string>, n: string)
    ensures n in LowerAll(names) <==> exists k :: 0 <= k < |names| && Lower(names[k]) == n
  {
    if names != [] {
      LowerAllMembers(names[1..], n);
      if k :| 0 <= k < |names| && Lower(names[k]) == n {
        if k > 0 {
          assert names[1..][k - 1] == names[k];
        }
      }
    }
  }

  /** Each name is linked to the dependencies of its last package. */
  lemma {:induction false} GraphIsOfLast(packages: seq<Package>, i: nat)
    requires i < |packages| && LastOfName(packages, i)
    ensures var name := Lower(packages[i].name);
      name in GraphOf(packages) && GraphOf(packages)[name] == LowerAll(packages[i].dependencies)
  {
    if i < |packages| - 1 {
      var init := packages[..|packages| - 1];
      assert LastOfName(init, i);
      GraphIsOfLast(init, i);
      assert Lower(packages[|packages| - 1].name) != Lower(packages[i].name);
    }
  }

  /** Every package has a last one of its name. */
  lemma LastOf(packages: seq<Package>, i: nat) returns (j: nat)
    requires i < |packages|
    ensures i <= j < |packages| && Lower(packages[j].name) == Lower(packages[i].name) && LastOfName(packages, j)
    decreases |packages| - i
  {
    if LastOfName(packages, i) {
      j := i;
    } else {
      var k :| i < k < |packages| && Lower(packages[k].name) == Lower(packages[i].name);
      j := LastOf(packages, k);
    }
  }

  lemma {:induction false} GraphNames(packages: seq<Package>, n: string)
    requires n in GraphOf(packages)
    ensures exists i :: 0 <= i < |packages| && Lower(packages[i].name) == n
  {
    if Lower(packages[|packages| - 1].name) != n {
      GraphNames(packages[..|packages| - 1], n);
    }
  }

  /** Package `i` lists `d` as a dependency. */
  predicate ListedBy(packages: seq<Package>, i: nat, d: string)
    requires i < |packages|
  {
    d in LowerAll(packages[i].dependencies)
  }

  /** The edges that any package of a name lists. */
  ghost predicate Listed(packages: seq<Package>, a: string, b: string) {
    exists i :: 0 <= i < |packages| && Lower(packages[i].name) == a && ListedBy(packages, i, b)
  }

  lemma EdgeIsListed(packages: seq<Package>, a: string, b: string)
    requires Edge(GraphOf(packages), a, b)
    ensures Listed(packages, a, b)
  {
    GraphNames(packages, a);
    var i :| 0 <= i < |packages| && Lower(packages[i].name) == a;
    var j := LastOf(packages, i);
    GraphIsOfLast(packages, j);
    assert ListedBy(packages, j, b);
  }

  ghost predicate HasAllListed(packages: seq<Package>) {
    forall a, b | Listed(packages, a, b) :: Edge(GraphOf(packages), a, b)
  }

  /** The last package of every name lists all that the earlier ones of that name list. */
  ghost predicate LastsCover(packages: seq<Package>) {
    forall i, j, d | 0 <= i < j < |packages| && Lower(packages[i].name) == Lower(packages[j].name) &&
      LastOfName(packages, j) && ListedBy(packages, i, d) :: ListedBy(packages, j, d)
  }

  /**
  The graph has every dependency that is listed anywhere if and only if the last package of
  every name lists all that the earlier ones of that name list.
  */
  lemma GraphIsCompleteExactlyWhen(packages: seq<Package>)
    ensures HasAllListed(packages) <==> LastsCover(packages)
  {
    if HasAllListed(packages) {
      AllListedCover(packages);
    }
    if LastsCover(packages) {
      forall a, b | Listed(packages, a, b)
        ensures Edge(GraphOf(packages), a, b)
      {
        CoveredIsEdge(packages, a, b);
      }
    }
  }

  lemma AllListedCover(packages: seq<Package>)
    requires HasAllListed(packages)
    ensures LastsCover(packages)
  {
    forall i, j, d | 0 <= i < j < |packages| && Lower(packages[i].name) == Lower(packages[j].name) &&
      LastOfName(packages, j) && ListedBy(packages, i, d)
      ensures ListedBy(packages, j, d)
    {
      assert Listed(packages, Lower(packages[i].name), d);
      GraphIsOfLast(packages, j);
    }
  }

  lemma CoveredIsEdge(packages: seq<Package>, a: string, b: string)
    requires LastsCover(packages) && Listed(packages, a, b)
    ensures Edge(GraphOf(packages), a, b)
  {
    var i :| 0 <= i < |packages| && Lower(packages[i].name) == a && ListedBy(packages, i, b);
    var j := LastOf(packages, i);
    GraphIsOfLast(packages, j);
    assert ListedBy(packages, j, b);
  }

  /** Reachable along all listed dependencies, whichever package of a name lists them. */
  ghost predicate ReachableAsListed(packages: seq<Package>, roots: set<string>, n: string) {
    exists p :: ListedPathTo(packages, roots, p, n)
  }

  ghost predicate ListedPathTo(packages: seq<Package>, roots: set<string>, p: seq<string>, n: string) {
    && p != [] && p[0] in roots && p[|p| - 1] == n
    && forall i | 0 < i < |p| :: Listed(packages, p[i - 1], p[i])
  }

  lemma {:induction false} ListedPathStays(packages: seq<Package>, roots: set<string>, reach: iset<string>, p: seq<string>, n: string)
    requires ListedPathTo(packages, roots, p, n) && forall x | x in roots :: x in reach
    requires forall a, b | a in reach && Listed(packages, a, b) :: b in reach
    ensures n in reach
    decreases |p|
  {
    if |p| > 1 {
      var q := p[..|p| - 1];
      assert forall i | 0 < i < |q| :: Listed(packages, q[i - 1], q[i]);
      assert ListedPathTo(packages, roots, q, q[|q| - 1]);
      ListedPathStays(packages, roots, reach, q, q[|q| - 1]);
      assert Listed(packages, p[|p| - 2], p[|p| - 1]);
    }
  }

  ghost predicate Found(packages: seq<Package>, roots: set<string>, n: string) {
    Reachable(GraphOf(packages), roots, n)
  }

  /** Each dependency that any package of a found name lists is found as well. */
  ghost predicate ListedAreFound(packages: seq<Package>, roots: set<string>) {
    forall i, d | 0 <= i < |packages| && Found(packages, roots, Lower(packages[i].name)) && ListedBy(packages, i, d) ::
      Found(packages, roots, d)
  }

  ghost predicate FindsAllListed(packages: seq<Package>, roots: set<string>) {
    forall n :: Found(packages, roots, n) <==> ReachableAsListed(packages, roots, n)
  }

  /**
  The closure that is found is the closure along all listed dependencies if and only if each
  dependency that any package of a found name lists is found as well.
  */
  lemma ClosureIsCompleteExactlyWhen(packages: seq<Package>, roots: set<string>)
    ensures FindsAllListed(packages, roots) <==> ListedAreFound(packages, roots)
  {
    if FindsAllListed(packages, roots) {
      forall i, d | 0 <= i < |packages| && Found(packages, roots, Lower(packages[i].name)) && ListedBy(packages, i, d)
        ensures Found(packages, roots, d)
      {
        var name := Lower(packages[i].name);
        assert Listed(packages, name, d);
        ListedStep(packages, roots, name, d);
      }
    }
    if ListedAreFound(packages, roots) {
      forall n
        ensures Found(packages, roots, n) <==> ReachableAsListed(packages, roots, n)
      {
        if Found(packages, roots, n) {
          ReachableIsListed(packages, roots, n);
        }
        if ReachableAsListed(packages, roots, n) {
          ListedIsFound(packages, roots, n);
        }
      }
    }
  }

  lemma ListedStep(packages: seq<Package>, roots: set<string>, a: string, b: string)
    requires ReachableAsListed(packages, roots, a) && Listed(packages, a, b)
    ensures ReachableAsListed(packages, roots, b)
  {
    var p :| ListedPathTo(packages, roots, p, a);
    assert ListedPathTo(packages, roots, p + [b], b);
  }

  lemma ListedIsFound(packages: seq<Package>, roots: set<string>, n: string)
    requires ListedAreFound(packages, roots) && ReachableAsListed(packages, roots, n)
    ensures Found(packages, roots, n)
  {
    var reach := ReachableIsClosed(GraphOf(packages), roots);
    var p :| ListedPathTo(packages, roots, p, n);
    forall a, b | a in reach && Listed(packages, a, b)
      ensures b in reach
    {
      assert Found(packages, roots, a);
    }
    ListedPathStays(packages, roots, reach, p, n);
  }

  lemma ReachableIsListed(packages: seq<Package>, roots: set<string>, n: string)
    requires Reachable(GraphOf(packages), roots, n)
    ensures ReachableAsListed(packages, roots, n)
  {
    var g := GraphOf(packages);
    var p :| PathTo(g, roots, p, n);
    forall i | 0 < i < |p|
      ensures Listed(packages, p[i - 1], p[i])
    {
      assert Edge(g, p[i - 1], p[i]);
      EdgeIsListed(packages, p[i - 1], p[i]);
    }
    assert ListedPathTo(packages, roots, p, n);
  }

  /** In particular nothing is missed while no two packages share a name. */
  lemma DistinctNamesSuffice(packages: seq<Package>, roots: set<string>)
    requires forall i, j | 0 <= i < j < |packages| :: Lower(packages[i].name) != Lower(packages[j].name)
    ensures FindsAllListed(packages, roots)
  {
    forall i, d | 0 <= i < |packages| && Found(packages, roots, Lower(packages[i].name)) && ListedBy(packages, i, d)
      ensures Found(packages, roots, d)
    {
      GraphIsOfLast(packages, i);
      EdgeReachable(GraphOf(packages), roots, Lower(packages[i].name), d);
    }
    ClosureIsCompleteExactlyWhen(packages, roots);
  }
}
