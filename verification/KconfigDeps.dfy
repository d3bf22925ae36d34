/**
 The dependency graph of a configuration: what an evaluation may consult is in it.
 */
module KconfigDeps {
  import opened Basics
  import opened KconfigEval
  import opened KconfigAgree

  function Names(e: Expr): set<Name> {
    match e
    case Sym(n) => {n}
    case And(l, r) => Names(l) + Names(r)
    case Or(l, r) => Names(l) + Names(r)
    case Not(a) => Names(a)
    case Compare(_, a, b) => {a, b}
  }

  ghost predicate InPrompts(ps: seq<Expr>, t: Name) {
    exists i :: 0 <= i < |ps| && t in Names(ps[i])
  }

  ghost predicate InDefaults(ds: seq<Default>, t: Name) {
    exists i :: 0 <= i < |ds| && (t in Names(ds[i].value) || t in Names(ds[i].cond))
  }

  ghost predicate InRanges(rs: seq<Range>, t: Name) {
    exists i :: 0 <= i < |rs| && (t == rs[i].low || t == rs[i].high || t in Names(rs[i].cond))
  }

  // The symbols _build_dep makes a symbol depend on
  ghost predicate Mentions(d: SymDef, t: Name) {
    || InPrompts(d.prompts, t) || InDefaults(d.defaults, t) || InRanges(d.ranges, t)
    || t in Names(d.revDep) || t in Names(d.weakRevDep) || t in Names(d.directDep)
  }

  predicate Defined(c: Config, s: Name) {
    s in c.defs && c.defs[s].preset == None
  }

  predicate Constant(c: Config, s: Name) {
    s in c.defs && c.defs[s].preset != None
  }

  /** Symbol._dependents: constants have none. */
  ghost function Dependents(c: Config, t: Name): set<Name> {
    if Constant(c, t) then {} else set s | s in c.defs && Defined(c, s) && Mentions(c.defs[s], t)
  }

  // Two keys of one symbol are consulted in this order
  function Tag(k: Key): nat {
    match k
    case Vis(_) => 0
    case TriOf(_) => 1
    case StrOf(_) => 2
    case Asg(_) => 2
  }

  ghost predicate Lower(c: Config, r: Key, k: Key) {
    RankOf(c, r.s) < RankOf(c, k.s) || (r.s == k.s && Tag(r) < Tag(k))
  }

  // r may be consulted while evaluating k
  ghost predicate MayRead(c: Config, k: Key, r: Key) {
    && Lower(c, r, k)
    && (|| r.s == k.s
        || Constant(c, r.s)
        || (Defined(c, k.s) && (k.s in Dependents(c, r.s) || r.s == c.modules)))
  }

  ghost predicate MayReadAll(c: Config, k: Key, rs: set<Key>) {
    forall r :: r in rs ==> MayRead(c, k, r)
  }

  lemma {:induction false} ReadsNamed(c: Config, u: User, e: Expr, r: Key)
    requires Ranked(c) && r in Reads(c, u, e)
    ensures r.s in Names(e) && RankOf(c, r.s) < ExprRank(c, e)
  {
    hide Ranked, Val, Num;
    match e
    case Sym(n) =>
    case And(a, b) =>
      if r in Reads(c, u, a) { ReadsNamed(c, u, a, r); } else { ReadsNamed(c, u, b, r); }
    case Or(a, b) =>
      if r in Reads(c, u, a) { ReadsNamed(c, u, a, r); } else { ReadsNamed(c, u, b, r); }
    case Not(a) => ReadsNamed(c, u, a, r);
    case Compare(_, a, b) =>
  }

  // An expression of s's definition consults only what s depends on
  lemma ExprMayRead(c: Config, u: User, k: Key, e: Expr)
    requires Ranked(c) && Defined(c, k.s)
    requires ExprRank(c, e) <= RankOf(c, k.s)
    requires forall t :: t in Names(e) ==> Mentions(c.defs[k.s], t)
    ensures MayReadAll(c, k, Reads(c, u, e))
  {
    hide Ranked, Reads, Mentions, ExprRank, Names;
    forall r | r in Reads(c, u, e)
      ensures MayRead(c, k, r)
    {
      ReadsNamed(c, u, e, r);
    }
  }

  lemma {:induction false} PromptsMayRead(c: Config, u: User, k: Key, n: nat)
    requires Ranked(c) && Defined(c, k.s) && n <= |c.defs[k.s].prompts|
    ensures MayReadAll(c, k, PromptReads(c, u, c.defs[k.s].prompts[..n]))
  {
    hide MayRead, Reads, Val;
    if n > 0 {
      var ps := c.defs[k.s].prompts;
      PromptsMayRead(c, u, k, n - 1);
      assert ps[..n][..n - 1] == ps[..n - 1];
      assert ps[..n][n - 1] == ps[n - 1];
      ExprMayRead(c, u, k, ps[n - 1]);
    }
  }

  lemma {:induction false} DefaultsMayRead(c: Config, u: User, k: Key, n: nat)
    requires Ranked(c) && Defined(c, k.s) && n <= |c.defs[k.s].defaults|
    ensures MayReadAll(c, k, DefaultTriReads(c, u, c.defs[k.s].defaults[n..]))
    decreases |c.defs[k.s].defaults| - n
  {
    hide MayRead, Reads, Val;
    var ds := c.defs[k.s].defaults;
    if n < |ds| {
      DefaultsMayRead(c, u, k, n + 1);
      assert ds[n..][1..] == ds[n + 1..];
      assert ds[n..][0] == ds[n];
      assert PairBelow(c, ds[n], RankOf(c, k.s));
      ExprMayRead(c, u, k, ds[n].cond);
      ExprMayRead(c, u, k, ds[n].value);
    }
  }

  lemma {:induction false} StrDefaultsMayRead(c: Config, u: User, k: Key, n: nat)
    requires Ranked(c) && Defined(c, k.s) && n <= |c.defs[k.s].defaults| && !Logical(c.defs[k.s].kind)
    ensures MayReadAll(c, k, DefaultStrReads(c, u, c.defs[k.s].defaults[n..]))
    decreases |c.defs[k.s].defaults| - n
  {
    hide MayReadAll, Reads, Val;
    var ds := c.defs[k.s].defaults;
    if n < |ds| {
      StrDefaultsMayRead(c, u, k, n + 1);
      assert ds[n..][1..] == ds[n + 1..];
      assert ds[n..][0] == ds[n];
      assert PairBelow(c, ds[n], RankOf(c, k.s)) && IsSym(ds[n].value);
      ExprMayRead(c, u, k, ds[n].cond);
      var t := ds[n].value.name;
      assert t in Names(ds[n].value);
      assert MayRead(c, k, StrOf(t));
      MayReadUnion(c, k, Reads(c, u, ds[n].cond), {StrOf(t)});
      MayReadUnion(c, k, Reads(c, u, ds[n].cond), DefaultStrReads(c, u, ds[n + 1..]));
    } else {
      assert ds[n..] == [];
      MayReadNone(c, k);
    }
  }

  lemma MayReadUnion(c: Config, k: Key, a: set<Key>, b: set<Key>)
    requires MayReadAll(c, k, a)
    requires (forall r :: r in b ==> MayRead(c, k, r)) || MayReadAll(c, k, b)
    ensures MayReadAll(c, k, a + b)
  {
    hide MayRead;
  }

  lemma MayReadNone(c: Config, k: Key)
    ensures MayReadAll(c, k, {})
  {
  }

  lemma {:induction false} RangesMayRead(c: Config, u: User, k: Key, n: nat)
    requires Ranked(c) && Defined(c, k.s) && n <= |c.defs[k.s].ranges|
    ensures MayReadAll(c, k, RangeReads(c, u, c.defs[k.s].ranges[n..]))
    decreases |c.defs[k.s].ranges| - n
  {
    hide MayReadAll, Reads, Val;
    var rs := c.defs[k.s].ranges;
    if n < |rs| {
      RangesMayRead(c, u, k, n + 1);
      assert rs[n..][1..] == rs[n + 1..];
      assert rs[n..][0] == rs[n];
      assert RangeBelow(c, rs[n], RankOf(c, k.s));
      ExprMayRead(c, u, k, rs[n].cond);
      assert MayRead(c, k, StrOf(rs[n].low)) && MayRead(c, k, StrOf(rs[n].high));
      MayReadUnion(c, k, Reads(c, u, rs[n].cond), {StrOf(rs[n].low), StrOf(rs[n].high)});
      MayReadUnion(c, k, Reads(c, u, rs[n].cond), RangeReads(c, u, rs[n + 1..]));
    } else {
      assert rs[n..] == [];
      MayReadNone(c, k);
    }
  }

  lemma TypeMayRead(c: Config, k: Key)
    requires Ranked(c)
    ensures MayReadAll(c, k, TypeReads(c, k.s))
  {
  }

  lemma DepsMayRead(c: Config, u: User, k: Key)
    requires Ranked(c) && Defined(c, k.s)
    ensures MayReadAll(c, k, Reads(c, u, c.defs[k.s].revDep))
    ensures MayReadAll(c, k, Reads(c, u, c.defs[k.s].weakRevDep))
    ensures MayReadAll(c, k, Reads(c, u, c.defs[k.s].directDep))
  {
    hide MayReadAll, Reads;
    ExprMayRead(c, u, k, c.defs[k.s].revDep);
    ExprMayRead(c, u, k, c.defs[k.s].weakRevDep);
    ExprMayRead(c, u, k, c.defs[k.s].directDep);
  }

  lemma TriMayRead(c: Config, u: User, s: Name)
    requires Ranked(c)
    ensures MayReadAll(c, TriOf(s), TriReads(c, u, s))
  {
    hide Ranked, Reads, Val, RawTri, StaysTristate, TypeReads, VisVal, DefaultTriReads;
    if Defined(c, s) {
      DepsMayRead(c, u, TriOf(s));
      TypeMayRead(c, TriOf(s));
      DefaultsMayRead(c, u, TriOf(s), 0);
      assert c.defs[s].defaults[0..] == c.defs[s].defaults;
    }
  }

  lemma StrMayRead(c: Config, u: User, s: Name)
    requires Ranked(c)
    ensures MayReadAll(c, StrOf(s), StrReads(c, u, s))
  {
    hide Reads, Val, VisVal, DefaultStrReads, RangeReads, ActiveRange;
    if Defined(c, s) && !Logical(c.defs[s].kind) {
      StrDefaultsMayRead(c, u, StrOf(s), 0);
      RangesMayRead(c, u, StrOf(s), 0);
      assert c.defs[s].defaults[0..] == c.defs[s].defaults;
      assert c.defs[s].ranges[0..] == c.defs[s].ranges;
    }
  }

  /** Everything an evaluation consults is covered by the dependency graph, except the
      MODULES symbol, which tristates consult without being its dependents. */
  lemma KeyMayRead(c: Config, u: User, k: Key)
    requires Ranked(c)
    ensures MayReadAll(c, k, KeyReads(c, u, k))
  {
    hide Ranked, Reads, Val, VisVal, TypeReads, StaysTristate, TriReads, StrReads, Prompts, PromptReads;
    match k
    case Vis(s) =>
      if Defined(c, s) {
        PromptsMayRead(c, u, k, |c.defs[s].prompts|);
        assert c.defs[s].prompts[..|c.defs[s].prompts|] == c.defs[s].prompts;
        TypeMayRead(c, k);
      }
    case TriOf(s) => TriMayRead(c, u, s);
    case StrOf(s) => StrMayRead(c, u, s);
    case Asg(s) =>
      if Defined(c, s) {
        DepsMayRead(c, u, k);
        TypeMayRead(c, k);
      }
  }
}
