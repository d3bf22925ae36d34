/**
 Building the dependents of every symbol, for configurations without choices.
 */
module KconfigGraph {
  import opened Basics
  import opened KconfigEval
  import opened KconfigDeps

  type Graph = map<Name, set<Name>>

  function Get(g: Graph, t: Name): set<Name> {
    if t in g then g[t] else {}
  }

  /** _make_depend_on: s becomes a dependent of every non-constant symbol in e. */
  method MakeDependOn(c: Config, g: Graph, s: Name, e: Expr) returns (h: Graph)
    ensures forall t :: Get(h, t) == Get(g, t) + if t in Names(e) && !Constant(c, t) then {s} else {}
    decreases e
  {
    match e
    case Sym(n) => h := AddDependent(c, g, s, n);
    case And(l, r) =>
      h := MakeDependOn(c, g, s, l);
      h := MakeDependOn(c, h, s, r);
    case Or(l, r) =>
      h := MakeDependOn(c, g, s, l);
      h := MakeDependOn(c, h, s, r);
    case Not(a) => h := MakeDependOn(c, g, s, a);
    case Compare(_, a, b) =>
      h := AddDependent(c, g, s, a);
      h := AddDependent(c, h, s, b);
  }

  method AddDependent(c: Config, g: Graph, s: Name, n: Name) returns (h: Graph)
    ensures forall t :: Get(h, t) == Get(g, t) + if t == n && !Constant(c, t) then {s} else {}
  {
    h := if Constant(c, n) then g else g[n := Get(g, n) + {s}];
  }

  lemma PromptsStep(ps: seq<Expr>, i: nat)
    requires i < |ps|
    ensures forall t :: InPrompts(ps[..i + 1], t) <==> InPrompts(ps[..i], t) || t in Names(ps[i])
  {
    hide Names;
    assert ps[..i + 1] == ps[..i] + [ps[i]];
  }

  lemma DefaultsStep(ds: seq<Default>, i: nat)
    requires i < |ds|
    ensures forall t :: InDefaults(ds[..i + 1], t) <==>
                        InDefaults(ds[..i], t) || t in Names(ds[i].value) || t in Names(ds[i].cond)
  {
    hide Names;
    assert ds[..i + 1] == ds[..i] + [ds[i]];
  }

  lemma RangesStep(rs: seq<Range>, i: nat)
    requires i < |rs|
    ensures forall t :: InRanges(rs[..i + 1], t) <==>
                        InRanges(rs[..i], t) || t == rs[i].low || t == rs[i].high || t in Names(rs[i].cond)
  {
    hide Names;
    var a, b := rs[..i], rs[..i + 1];
    assert b == a + [rs[i]] && b[i] == rs[i];
    forall t | InRanges(a, t)
      ensures InRanges(b, t)
    {
      var j :| 0 <= j < |a| && (t == a[j].low || t == a[j].high || t in Names(a[j].cond));
      assert b[j] == a[j];
    }
    assert forall j :: 0 <= j < i ==> b[j] == a[j];
  }

  method DependOnPrompts(c: Config, g: Graph, s: Name, ps: seq<Expr>) returns (h: Graph)
    ensures forall t :: Get(h, t) == Get(g, t) + if InPrompts(ps, t) && !Constant(c, t) then {s} else {}
  {
    h := g;
    for i := 0 to |ps|
      invariant forall t :: Get(h, t) == Get(g, t) + if InPrompts(ps[..i], t) && !Constant(c, t) then {s} else {}
    {
      hide InPrompts, Names;
      h := MakeDependOn(c, h, s, ps[i]);
      PromptsStep(ps, i);
    }
    assert ps[..|ps|] == ps;
  }

  method DependOnDefaults(c: Config, g: Graph, s: Name, ds: seq<Default>) returns (h: Graph)
    ensures forall t :: Get(h, t) == Get(g, t) + if InDefaults(ds, t) && !Constant(c, t) then {s} else {}
  {
    h := g;
    for i := 0 to |ds|
      invariant forall t :: Get(h, t) == Get(g, t) + if InDefaults(ds[..i], t) && !Constant(c, t) then {s} else {}
    {
      hide InDefaults, Names;
      h := MakeDependOn(c, h, s, ds[i].value);
      h := MakeDependOn(c, h, s, ds[i].cond);
      DefaultsStep(ds, i);
    }
    assert ds[..|ds|] == ds;
  }

  method DependOnRanges(c: Config, g: Graph, s: Name, rs: seq<Range>) returns (h: Graph)
    ensures forall t :: Get(h, t) == Get(g, t) + if InRanges(rs, t) && !Constant(c, t) then {s} else {}
  {
    h := g;
    for i := 0 to |rs|
      invariant forall t :: Get(h, t) == Get(g, t) + if InRanges(rs[..i], t) && !Constant(c, t) then {s} else {}
    {
      hide InRanges, Names;
      h := AddDependent(c, h, s, rs[i].low);
      h := AddDependent(c, h, s, rs[i].high);
      h := MakeDependOn(c, h, s, rs[i].cond);
      RangesStep(rs, i);
    }
    assert rs[..|rs|] == rs;
  }

  /** One round of _build_dep: everything the definition of s mentions. */
  method DependOnAll(c: Config, g: Graph, s: Name, d: SymDef) returns (h: Graph)
    ensures forall t :: Get(h, t) == Get(g, t) + if Mentions(d, t) && !Constant(c, t) then {s} else {}
  {
    hide InPrompts, InDefaults, InRanges, Names;
    h := DependOnPrompts(c, g, s, d.prompts);
    h := DependOnDefaults(c, h, s, d.defaults);
    h := MakeDependOn(c, h, s, d.revDep);
    h := MakeDependOn(c, h, s, d.weakRevDep);
    h := DependOnRanges(c, h, s, d.ranges);
    h := MakeDependOn(c, h, s, d.directDep);
  }

  /** _build_dep. */
  method BuildDep(c: Config) returns (g: Graph)
    ensures forall t :: Get(g, t) == Dependents(c, t)
  {
    hide Mentions;
    g := map[];
    var todo := c.defs.Keys;
    while todo != {}
      invariant todo <= c.defs.Keys
      invariant forall t :: Get(g, t) == Dependents(c, t) - todo
      decreases todo
    {
      var s :| s in todo;
      if c.defs[s].preset == None {
        g := DependOnAll(c, g, s, c.defs[s]);
      }
      todo := todo - {s};
    }
  }

  lemma DependentDefined(c: Config, s: Name, d: Name)
    requires d in Dependents(c, s)
    ensures Defined(c, d)
  {
  }

  lemma StrictSubset(a: set<Name>, b: set<Name>, x: Name)
    requires a <= b && x in b && x !in a
    ensures |a| < |b|
  {
    Subset(a, b - {x});
  }

  lemma {:induction false} Subset(a: set<Name>, b: set<Name>)
    requires a <= b
    ensures |a| <= |b|
  {
    if a != {} {
      var x :| x in a;
      Subset(a - {x}, b - {x});
    }
  }
}
