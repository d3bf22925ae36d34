/**
 Dependency loop detection: a three-colour depth-first search over the dependents of
 every defined symbol, for configurations without choices.
 */
module KconfigLoop {
  import opened Basics
  import opened KconfigEval
  import opened KconfigDeps
  import opened KconfigGraph

  // x._visited: 0 unvisited, 1 on the current path, 2 known to be on no loop
  type Marks = map<Name, nat>

  function Mark(m: Marks, x: Name): nat {
    if x in m then m[x] else 0
  }

  /** What a search returns: nothing found, a loop whose start is further up the call
      stack, or the complete loop (where the code raises KconfigError). */
  datatype Found = NoLoop | Partial(loop: seq<Name>) | Complete(loop: seq<Name>)

  // Each element is a dependent of the next one
  ghost predicate Chain(g: Graph, p: seq<Name>) {
    forall i :: 0 <= i < |p| - 1 ==> p[i] in Get(g, p[i + 1])
  }

  ghost predicate IsLoop(g: Graph, p: seq<Name>) {
    p != [] && Chain(g, p) && p[|p| - 1] in Get(g, p[0])
  }

  ghost predicate HasLoop(g: Graph) {
    exists p :: IsLoop(g, p)
  }

  function RankIn(rank: map<Name, nat>, x: Name): nat {
    if x in rank then rank[x] else 0
  }

  // An order of evaluation: dependents have higher rank
  ghost predicate Order(g: Graph, rank: map<Name, nat>) {
    forall x, y :: y in Get(g, x) ==> RankIn(rank, x) < RankIn(rank, y)
  }

  ghost predicate ClosedUnder(g: Graph, nodes: set<Name>) {
    forall x, y :: y in Get(g, x) && x in nodes ==> y in nodes
  }

  lemma {:induction false} ChainClimbs(g: Graph, rank: map<Name, nat>, p: seq<Name>)
    requires Order(g, rank) && |p| > 1 && Chain(g, p)
    ensures RankIn(rank, p[|p| - 1]) < RankIn(rank, p[0])
    decreases |p|
  {
    assert p[0] in Get(g, p[1]);
    if |p| > 2 {
      assert Chain(g, p[1..]) by {
        forall i | 0 <= i < |p[1..]| - 1 ensures p[1..][i] in Get(g, p[1..][i + 1]) {
          assert p[i + 1] in Get(g, p[i + 2]);
        }
      }
      ChainClimbs(g, rank, p[1..]);
    }
  }

  /** A graph with an evaluation order has no loop. */
  lemma OrderMeansNoLoop(g: Graph, rank: map<Name, nat>)
    requires Order(g, rank)
    ensures !HasLoop(g)
  {
    forall p | IsLoop(g, p)
      ensures false
    {
      if |p| > 1 {
        ChainClimbs(g, rank, p);
      }
    }
  }

  /** Finished symbols have only dependents that finished earlier, and the symbols
      marked 1 are exactly those on the current path. */
  ghost predicate Search(g: Graph, visited: Marks, finished: seq<Name>, nodes: set<Name>, path: seq<Name>) {
    && ClosedUnder(g, nodes)
    && (forall x :: Mark(visited, x) <= 2 && (Mark(visited, x) != 0 ==> x in nodes))
    && (forall x :: Mark(visited, x) == 1 <==> x in path)
    && (forall x :: Mark(visited, x) == 2 <==> x in finished)
    && (forall i, j :: 0 <= i < j < |finished| ==> finished[i] != finished[j])
    && (forall i, y :: 0 <= i < |finished| && y in Get(g, finished[i]) ==> y in finished[..i])
  }

  lemma Enter(g: Graph, visited: Marks, finished: seq<Name>, nodes: set<Name>, path: seq<Name>, x: Name)
    requires Search(g, visited, finished, nodes, path) && x in nodes && Mark(visited, x) == 0
    ensures Search(g, visited[x := 1], finished, nodes, path + [x])
    ensures x !in path && x !in finished
  {
  }

  lemma Leave(g: Graph, visited: Marks, finished: seq<Name>, nodes: set<Name>, path: seq<Name>, x: Name)
    requires Search(g, visited, finished, nodes, path + [x]) && x !in path
    requires forall y :: y in Get(g, x) ==> y in finished
    ensures Search(g, visited[x := 2], finished + [x], nodes, path)
  {
    var f := finished + [x];
    assert forall y :: y in path + [x] <==> y in path || y == x;
    assert forall y :: y in f <==> y in finished || y == x;
    assert Mark(visited, x) == 1;
    forall i, y | 0 <= i < |f| && y in Get(g, f[i])
      ensures y in f[..i]
    {
      assert f[..i] == finished[..i];
    }
  }

  class LoopCheck {
    const g: Graph
    var visited: Marks
    ghost var finished: seq<Name>  // symbols marked 2, in the order they were marked

    constructor (g: Graph)
      ensures this.g == g && visited == map[] && finished == []
    {
      this.g, visited, finished := g, map[], [];
    }

    ghost predicate Inv(nodes: set<Name>, path: seq<Name>)
      reads this
    {
      Search(g, visited, finished, nodes, path)
    }

    ghost function Unvisited(nodes: set<Name>): set<Name>
      reads this
    {
      set x | x in nodes && Mark(visited, x) == 0
    }

    /** _check_dep_loop_sym; `path` is the call stack, the most recent symbol last. */
    method Check(x: Name, ghost nodes: set<Name>, ghost path: seq<Name>) returns (r: Found)
      requires x in nodes && Inv(nodes, path)
      modifies this
      ensures r.NoLoop? ==> Inv(nodes, path) && x in finished
      ensures r.NoLoop? ==> Unvisited(nodes) <= old(Unvisited(nodes)) && old(finished) <= finished
      ensures r.Partial? ==> r.loop != [] && Chain(g, r.loop) && r.loop[0] in path && r.loop[|r.loop| - 1] == x
      ensures r.Complete? ==> IsLoop(g, r.loop)
      decreases |Unvisited(nodes)|
    {
      if Mark(visited, x) == 2 { return NoLoop; }
      if Mark(visited, x) == 1 { return Partial([x]); }
      ghost var inner := path + [x];
      Enter(g, visited, finished, nodes, path, x);
      visited := visited[x := 1];
      hide Search;
      ghost var open := Unvisited(nodes);
      var todo := Get(g, x);
      while todo != {}
        invariant todo <= Get(g, x) && Inv(nodes, inner)
        invariant forall y :: y in Get(g, x) - todo ==> y in finished
        invariant Unvisited(nodes) <= open && old(finished) <= finished
        decreases todo
      {
        var dep :| dep in todo;
        todo := todo - {dep};
        FewerNames(Unvisited(nodes), old(Unvisited(nodes)), x);
        r := Check(dep, nodes, inner);
        if r.Complete? { return; }
        if r.Partial? {
          r := if r.loop[0] == x then Complete(r.loop) else Partial(r.loop + [x]);
          return;
        }
      }
      Leave(g, visited, finished, nodes, path, x);
      visited := visited[x := 2];
      finished := finished + [x];
      return NoLoop;
    }

    /** The loop in Kconfig.__init__: search from every defined symbol.  It raises an
        error exactly when the graph has a loop, and otherwise there is an order in which
        every symbol can be evaluated after those it depends on. */
    method CheckAll(syms: set<Name>) returns (loop: Option<seq<Name>>, ghost rank: map<Name, nat>)
      requires visited == map[] && finished == []
      requires forall x, y :: y in Get(g, x) ==> y in syms
      modifies this
      ensures loop.Some? <==> HasLoop(g)
      ensures loop.Some? ==> IsLoop(g, loop.value)
      ensures loop.None? ==> Order(g, rank) && rank.Keys == syms && forall x :: x in syms ==> rank[x] > 0
    {
      rank := map[];
      var todo := syms;
      while todo != {}
        invariant todo <= syms && Inv(syms, [])
        invariant forall x :: x in syms - todo ==> x in finished
        decreases todo
      {
        var x :| x in todo;
        todo := todo - {x};
        var r := Check(x, syms, []);
        if r.Complete? {
          return Some(r.loop), rank;
        }
      }
      rank := Ranks(finished);
      RanksOrder(g, finished, syms);
      OrderMeansNoLoop(g, rank);
      loop := None;
    }
  }

  lemma FewerNames(a: set<Name>, b: set<Name>, x: Name)
    requires a <= b && x in b && x !in a
    ensures |a| < |b|
  {
    StrictSubset(a, b, x);
  }

  // Symbols that finished later are evaluated earlier
  ghost function Ranks(finished: seq<Name>): map<Name, nat> {
    map x | x in finished :: |finished| - Position(finished, x)
  }

  ghost function Position(s: seq<Name>, x: Name): (i: nat)
    requires x in s
    ensures i < |s| && s[i] == x
  {
    var i :| 0 <= i < |s| && s[i] == x; i
  }

  lemma RanksOrder(g: Graph, finished: seq<Name>, syms: set<Name>)
    requires forall i, j :: 0 <= i < j < |finished| ==> finished[i] != finished[j]
    requires forall i, y :: 0 <= i < |finished| && y in Get(g, finished[i]) ==> y in finished[..i]
    requires forall x :: x in syms <==> x in finished
    requires forall x, y :: y in Get(g, x) ==> y in syms
    ensures Order(g, Ranks(finished)) && Ranks(finished).Keys == syms
    ensures forall x :: x in syms ==> Ranks(finished)[x] > 0
  {
    var rank := Ranks(finished);
    forall x, y | y in Get(g, x)
      ensures RankIn(rank, x) < RankIn(rank, y)
    {
      if x in finished {
        var i := Position(finished, x);
        assert y in finished[..i];
        var j :| 0 <= j < i && finished[..i][j] == y;
        assert finished[j] == y;
        assert Position(finished, y) == j;
      }
    }
  }

  /** The dependents the search sees, and the tristates, which consult MODULES without
      being among its dependents. */
  ghost function FullDeps(c: Config, t: Name): set<Name> {
    Dependents(c, t) +
    if t == c.modules && Defined(c, t) then set s | s in c.defs && Defined(c, s) && c.defs[s].kind == Tristate else {}
  }

  ghost predicate FullGraph(c: Config, g: Graph) {
    forall t :: Get(g, t) == FullDeps(c, t)
  }

  /** A graph without loops gives the configuration an evaluation order... */
  lemma OrderRanks(c: Config, g: Graph, rank: map<Name, nat>)
    requires FullGraph(c, g) && WellFormed(c)
    requires Order(g, rank) && forall x :: x in rank <==> Defined(c, x)
    requires forall x :: x in rank ==> rank[x] > 0
    ensures Ranked(c.(rank := rank))
  {
    var c' := c.(rank := rank);
    forall s | s in c'.defs && Defined(c, s)
      ensures DefBelow(c', c'.defs[s], RankOf(c', s))
    {
      DefOrdered(c, rank, g, s);
    }
  }

  /** ... and a configuration with one has no loop. */
  lemma RankedNoLoop(c: Config, g: Graph)
    requires FullGraph(c, g) && Ranked(c)
    ensures !HasLoop(g)
  {
    var rank: map<Name, nat> := map x | x in c.defs && Defined(c, x) :: RankOf(c, x) + 1;
    forall x, y | y in Get(g, x)
      ensures RankIn(rank, x) < RankIn(rank, y)
    {
      assert Defined(c, y);
      if Mentions(c.defs[y], x) {
        MentionsRank(c, y, x);
      }
    }
    OrderMeansNoLoop(g, rank);
  }

  lemma {:induction false} NamesRank(c: Config, e: Expr, t: Name)
    requires t in Names(e)
    ensures RankOf(c, t) < ExprRank(c, e)
  {
    match e
    case Sym(n) =>
    case And(l, r) => if t in Names(l) { NamesRank(c, l, t); } else { NamesRank(c, r, t); }
    case Or(l, r) => if t in Names(l) { NamesRank(c, l, t); } else { NamesRank(c, r, t); }
    case Not(a) => NamesRank(c, a, t);
    case Compare(_, a, b) =>
  }

  lemma MentionsRank(c: Config, s: Name, t: Name)
    requires Ranked(c) && Defined(c, s) && Mentions(c.defs[s], t)
    ensures RankOf(c, t) < RankOf(c, s)
  {
    var d := c.defs[s];
    if InPrompts(d.prompts, t) {
      var i :| 0 <= i < |d.prompts| && t in Names(d.prompts[i]);
      NamesRank(c, d.prompts[i], t);
    } else if InDefaults(d.defaults, t) {
      var i :| 0 <= i < |d.defaults| && (t in Names(d.defaults[i].value) || t in Names(d.defaults[i].cond));
      assert PairBelow(c, d.defaults[i], RankOf(c, s));
      if t in Names(d.defaults[i].value) { NamesRank(c, d.defaults[i].value, t); }
      else { NamesRank(c, d.defaults[i].cond, t); }
    } else if InRanges(d.ranges, t) {
      var i :| 0 <= i < |d.ranges| && (t == d.ranges[i].low || t == d.ranges[i].high || t in Names(d.ranges[i].cond));
      assert RangeBelow(c, d.ranges[i], RankOf(c, s));
      if t in Names(d.ranges[i].cond) { NamesRank(c, d.ranges[i].cond, t); }
    } else if t in Names(d.revDep) {
      NamesRank(c, d.revDep, t);
    } else if t in Names(d.weakRevDep) {
      NamesRank(c, d.weakRevDep, t);
    } else {
      NamesRank(c, d.directDep, t);
    }
  }

  /** MODULES can be evaluated without consulting a tristate: it lies in a set of
      symbols without tristates that is closed under what they depend on. */
  ghost predicate ModulesPlain(c: Config) {
    exists p: set<Name> :: PlainSet(c, p)
  }

  ghost predicate PlainSet(c: Config, p: set<Name>) {
    && c.modules in p
    && (forall s :: s in p && Defined(c, s) ==> c.defs[s].kind != Tristate)
    && (forall s, t :: s in p && Defined(c, s) && Mentions(c.defs[s], t) && Defined(c, t) ==> t in p)
  }

  // Move everything outside p behind p
  ghost function Lift(rank: map<Name, nat>, p: set<Name>, n: nat): map<Name, nat> {
    map x | x in rank :: if x in p then rank[x] else rank[x] + n
  }

  lemma MaxRank(rank: map<Name, nat>) returns (m: nat)
    ensures forall x :: x in rank ==> rank[x] < m
    decreases |rank|
  {
    if rank == map[] {
      m := 0;
    } else {
      var x :| x in rank;
      var rest := rank - {x};
      assert rest.Keys == rank.Keys - {x};
      m := MaxRank(rest);
      assert forall y :: y in rank && y != x ==> y in rest && rest[y] == rank[y];
      m := if m <= rank[x] then rank[x] + 1 else m;
    }
  }

  // An order of the dependents becomes an order of the full graph
  lemma LiftOrder(c: Config, g: Graph, full: Graph, rank: map<Name, nat>, p: set<Name>) returns (lifted: map<Name, nat>)
    requires forall t :: Get(g, t) == Dependents(c, t)
    requires FullGraph(c, full) && PlainSet(c, p)
    requires Order(g, rank) && forall x :: x in rank <==> Defined(c, x)
    requires forall x :: x in rank ==> rank[x] > 0
    ensures Order(full, lifted) && forall x :: x in lifted <==> Defined(c, x)
    ensures forall x :: x in lifted ==> lifted[x] > 0
  {
    var m := MaxRank(rank);
    lifted := Lift(rank, p, m);
    forall x, y | y in Get(full, x)
      ensures RankIn(lifted, x) < RankIn(lifted, y)
    {
      assert Defined(c, y);
      if y in Dependents(c, x) {
        assert y in Get(g, x);
        assert RankIn(rank, x) < RankIn(rank, y);
        if y in p && Defined(c, x) {
          assert Mentions(c.defs[y], x);
        }
      }
    }
  }

  ghost function Full(c: Config, g: Graph): Graph {
    map t | t in g.Keys + {c.modules} :: FullDeps(c, t)
  }

  lemma FullIsFull(c: Config, g: Graph)
    requires forall t :: Get(g, t) == Dependents(c, t)
    ensures FullGraph(c, Full(c, g))
  {
    forall t | t !in g
      ensures Dependents(c, t) == {}
    {
      assert Get(g, t) == {};
    }
  }

  // A ranked configuration evaluates MODULES below every tristate
  lemma RankedPlain(c: Config)
    requires Ranked(c)
    ensures ModulesPlain(c)
  {
    var p := {c.modules} + set s | s in c.defs && Defined(c, s) && RankOf(c, s) <= RankOf(c, c.modules) && c.defs[s].kind != Tristate;
    forall s, t | s in p && Defined(c, s) && Mentions(c.defs[s], t) && Defined(c, t)
      ensures t in p
    {
      MentionsRank(c, s, t);
    }
    assert PlainSet(c, p);
  }

  lemma PlainOrdered(c: Config, g: Graph, rank: map<Name, nat>)
    requires forall t :: Get(g, t) == Dependents(c, t)
    requires WellFormed(c) && ModulesPlain(c)
    requires Order(g, rank) && forall x :: x in rank <==> Defined(c, x)
    requires forall x :: x in rank ==> rank[x] > 0
    ensures exists r :: Ranked(c.(rank := r))
  {
    var p :| PlainSet(c, p);
    FullIsFull(c, g);
    var lifted := LiftOrder(c, g, Full(c, g), rank, p);
    OrderRanks(c, Full(c, g), lifted);
  }

  lemma RankedBoth(c: Config, g: Graph, r: map<Name, nat>)
    requires forall t :: Get(g, t) == Dependents(c, t)
    requires Ranked(c.(rank := r))
    ensures !HasLoop(g) && ModulesPlain(c)
  {
    var c' := c.(rank := r);
    RankedPlain(c');
    var p :| PlainSet(c', p);
    assert PlainSet(c, p);
    assert forall t :: Dependents(c', t) == Dependents(c, t);
    forall q | IsLoop(g, q)
      ensures false
    {
      LoopMeansUnranked(c', g, q);
    }
  }

  /** Kconfig.__init__ builds the dependents and searches them.  The search fails exactly
      when there is a loop.  A static order, in which every symbol can be evaluated after
      all it may ever consult, whatever the user values, exists exactly when the search
      passes and MODULES is plain: the search alone does not see that tristates consult
      MODULES. */
  method LoopOrOrder(c: Config) returns (loop: Option<seq<Name>>, ghost g: Graph, ghost rank: map<Name, nat>)
    requires WellFormed(c)
    ensures forall t :: Get(g, t) == Dependents(c, t)
    ensures loop.Some? <==> HasLoop(g)
    ensures loop.Some? ==> IsLoop(g, loop.value)
    ensures loop.None? ==> Order(g, rank) && forall x :: x in rank <==> Defined(c, x)
    ensures loop.None? ==> forall x :: x in rank ==> rank[x] > 0
    ensures loop.None? && ModulesPlain(c) <==> exists r :: Ranked(c.(rank := r))
  {
    hide ModulesPlain, Ranked, WellFormed, Dependents, HasLoop, IsLoop, Order;
    var graph := BuildDep(c);
    g := graph;
    var check := new LoopCheck(graph);
    var syms := set s | s in c.defs && Defined(c, s);
    forall x, y | y in Get(graph, x)
      ensures y in syms
    {
      DependentDefined(c, x, y);
    }
    loop, rank := check.CheckAll(syms);
    if loop.None? && ModulesPlain(c) {
      PlainOrdered(c, graph, rank);
    }
    forall r | Ranked(c.(rank := r))
      ensures loop.None? && ModulesPlain(c)
    {
      RankedBoth(c, graph, r);
    }
  }

  // A loop among the dependents is a loop of the full graph
  lemma LoopMeansUnranked(c: Config, g: Graph, p: seq<Name>)
    requires forall t :: Get(g, t) == Dependents(c, t)
    requires IsLoop(g, p)
    ensures !Ranked(c)
  {
    if Ranked(c) {
      var full := Full(c, g);
      FullIsFull(c, g);
      assert IsLoop(full, p) by {
        forall i | 0 <= i < |p| - 1 ensures p[i] in Get(full, p[i + 1]) { assert p[i] in Get(g, p[i + 1]); }
      }
      RankedNoLoop(c, full);
    }
  }

  // The part of Ranked that does not speak of ranks
  ghost predicate WellFormed(c: Config) {
    forall s :: s in c.defs ==>
      && (c.defs[s].preset != None ==> c.defs[s].kind == Tristate && c.defs[s].prompts == [])
      && (!Logical(c.defs[s].kind) ==>
            forall i {:trigger c.defs[s].defaults[i]} :: 0 <= i < |c.defs[s].defaults| ==> IsSym(c.defs[s].defaults[i].value))
  }

  lemma MentionedLower(c: Config, rank: map<Name, nat>, g: Graph, s: Name, t: Name)
    requires FullGraph(c, g)
    requires Order(g, rank) && Defined(c, s) && s in rank && rank[s] > 0
    requires forall x :: x in rank ==> Defined(c, x)
    requires Mentions(c.defs[s], t)
    ensures RankOf(c.(rank := rank), t) < rank[s]
  {
    hide Mentions;
    assert RankOf(c.(rank := rank), t) == RankIn(rank, t);
    if !Constant(c, t) {
      assert s in Dependents(c, t) && Get(g, t) == FullDeps(c, t);
      assert RankIn(rank, t) < RankIn(rank, s);
    }
  }

  lemma {:induction false} ExprBelow(c: Config, e: Expr, b: nat)
    requires forall t :: t in Names(e) ==> RankOf(c, t) < b
    ensures ExprRank(c, e) <= b
  {
    match e
    case Sym(n) => assert n in Names(e);
    case And(l, r) => ExprBelow(c, l, b); ExprBelow(c, r, b);
    case Or(l, r) => ExprBelow(c, l, b); ExprBelow(c, r, b);
    case Not(a) => ExprBelow(c, a, b);
    case Compare(_, a, d) => assert a in Names(e) && d in Names(e);
  }

  lemma DefOrdered(c: Config, rank: map<Name, nat>, g: Graph, s: Name)
    requires FullGraph(c, g)
    requires Order(g, rank) && Defined(c, s) && s in rank && rank[s] > 0
    requires forall x :: x in rank ==> Defined(c, x)
    ensures DefBelow(c.(rank := rank), c.defs[s], rank[s])
  {
    hide Dependents;
    var c', d, b := c.(rank := rank), c.defs[s], rank[s];
    assert d.kind == Tristate ==> RankOf(c', c.modules) < b by {
      assert RankOf(c', c.modules) == RankIn(rank, c.modules);
      if d.kind == Tristate && Defined(c, c.modules) {
        assert s in FullDeps(c, c.modules) && Get(g, c.modules) == FullDeps(c, c.modules);
        assert RankIn(rank, c.modules) < RankIn(rank, s);
      }
    }
    forall t | Mentions(d, t)
      ensures RankOf(c', t) < b
    {
      MentionedLower(c, rank, g, s, t);
    }
    forall i {:trigger d.prompts[i]} | 0 <= i < |d.prompts|
      ensures ExprRank(c', d.prompts[i]) <= b
    {
      ExprBelow(c', d.prompts[i], b);
    }
    forall i {:trigger d.defaults[i]} | 0 <= i < |d.defaults|
      ensures PairBelow(c', d.defaults[i], b)
    {
      ExprBelow(c', d.defaults[i].value, b);
      ExprBelow(c', d.defaults[i].cond, b);
    }
    forall i {:trigger d.ranges[i]} | 0 <= i < |d.ranges|
      ensures RangeBelow(c', d.ranges[i], b)
    {
      assert Mentions(d, d.ranges[i].low) && Mentions(d, d.ranges[i].high);
      ExprBelow(c', d.ranges[i].cond, b);
    }
    ExprBelow(c', d.revDep, b);
    ExprBelow(c', d.weakRevDep, b);
    ExprBelow(c', d.directDep, b);
  }
}
