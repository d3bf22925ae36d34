/**
 The memoising evaluator: values are computed on demand, cached per symbol, and
 invalidated recursively when a user value changes.
 */
module KconfigCache {
  import opened Basics
  import opened KconfigEval
  import opened KconfigAgree
  import opened KconfigDeps
  import opened KconfigGraph
  import opened KconfigAssign
  import opened KconfigFuel
  import opened KconfigSurvive

  // Adding one correctly computed entry keeps the cache good
  lemma AddEntry(c: Config, rank: map<Name, nat>, u: User, m: Cache, k: Key, x: Value)
    requires RankedApart(c, rank) && Ranked(Resolved(c, rank, u)) && Good(c, rank, u, m)
    requires var d := Resolved(c, rank, u);
      && x == KeyVal(d, u, k) && Covered(c, KeyReads(d, u, k), m) && (NeedsType(d, u, k) ==> TriOf(c.modules) in m)
      && forall r :: r in KeyReads(d, u, k) && r.s != k.s ==> Vis(k.s) in m || k == Vis(k.s)
    ensures Good(c, rank, u, m[k := x])
  {
    hide Ranked, KeyVal, KeyReads, NeedsType, Resolved, Constants;
    var m' := m[k := x];
    forall j | j in m'
      ensures GoodAt(c, rank, u, m', j)
    {
      if j in m { assert GoodAt(c, rank, u, m, j); }
    }
  }

  // Everything in ks needs no type on the way
  ghost predicate AllCalm(c: Config, u: User, ks: set<Key>)
    requires Ranked(c)
  {
    forall r :: r in ks ==> Calm(c, u, r)
  }

  ghost predicate Grew(m: Cache, m': Cache) {
    m.Keys <= m'.Keys
  }

  lemma {:induction false} PromptReadsIn(c: Config, u: User, ps: seq<Expr>, i: nat)
    requires Ranked(c) && i < |ps|
    ensures Reads(c, u, ps[i]) <= PromptReads(c, u, ps)
    decreases |ps|
  {
    hide Ranked, Reads;
    if i < |ps| - 1 { PromptReadsIn(c, u, ps[..|ps| - 1], i); }
  }

  lemma UserNumberHere(c: Config, d: Config, u: User, s: Name, vis: Tri, base: nat, range: Option<(int, int)>)
    requires c.num == d.num
    ensures UserNumber(c, u, s, vis, base, range) == UserNumber(d, u, s, vis, base, range)
    ensures UserNumber(c, u, s, vis, base, range) ==> s in u && u[s].UStr?
  {
  }

  lemma ClampHere(c: Config, d: Config, text: Option<string>, base: nat, range: Option<(int, int)>)
    requires c.num == d.num
    ensures Clamp(c, text, base, range) == Clamp(d, text, base, range)
  {
  }

  // The evaluation of MODULES needs no type, and MODULES is what the configuration has for it
  lemma ModulesHere(c: Config, rank: map<Name, nat>, u: User)
    requires Evaluable(c, rank, u)
    ensures var d := Resolved(c, rank, u);
      && Ranked(d) && Calm(d, u, TriOf(c.modules)) && Constant(c, d.modules)
      && (TriVal(d, u, d.modules) != 0 <==> TriVal(d, u, c.modules) != 0)
  {
    hide Ranked, TriVal, Calm;
    IsFixed(c, rank, u);
    ResolvedModules(c, rank, u);
    CalmSame(Fixed(c, "y", rank), Resolved(c, rank, u), u, TriOf(c.modules));
  }

  /** The Kconfig object: a configuration that the loop check passed, with the order the
      check gives, and user values under which MODULES can be evaluated. */
  class Kconfig {
    const c: Config
    ghost const rank: map<Name, nat>
    const dependents: Graph
    var user: User
    var cache: Cache  // key Vis(s) is s._cached_vis, TriOf(s) is s._cached_tri_val, and so on

    // The configuration with MODULES at what it evaluates to
    ghost function D(): (d: Config)
      requires RankedApart(c, rank)
      reads this`user
      ensures Ranked(d) && d.defs == c.defs && d.num == c.num && d.rank == rank && d == Resolved(c, rank, user)
    {
      IsFixed(c, rank, user);
      Resolved(c, rank, user)
    }

    ghost predicate Valid()
      reads this
    {
      && Evaluable(c, rank, user) && Good(c, rank, user, cache)
      && (forall t :: Get(dependents, t) == Dependents(c, t))
    }

    constructor (c: Config, ghost rank: map<Name, nat>)
      requires Evaluable(c, rank, map[])
      ensures this.c == c && this.rank == rank && Valid() && user == map[] && cache == map[]
    {
      var g := BuildDep(c);
      this.c, this.rank, user, cache, dependents := c, rank, map[], map[], g;
    }

    method Store(k: Key, x: Value)
      requires Valid()
      requires x == KeyVal(D(), user, k) && Covered(c, KeyReads(D(), user, k), cache)
      requires NeedsType(D(), user, k) ==> TriOf(c.modules) in cache
      requires forall r :: r in KeyReads(D(), user, k) && r.s != k.s ==> Vis(k.s) in cache || k == Vis(k.s)
      modifies this`cache
      ensures Valid() && cache == old(cache)[k := x]
    {
      hide Ranked, Good, KeyVal, KeyReads, NeedsType, Resolved, Constants, Calm;
      ghost var d := D();
      AddEntry(c, rank, user, cache, k, x);
      cache := cache[k := x];
    }

    // A hit returns the from-scratch value
    lemma Hit(k: Key)
      requires Valid() && k in cache
      ensures cache[k] == KeyVal(D(), user, k)
    {
      hide Ranked, KeyVal, KeyReads, NeedsType, Resolved, Constants, Calm;
      ghost var d := D();
      assert GoodAt(c, rank, user, cache, k);
    }

    /** expr_value. */
    method ExprValue(e: Expr, ghost calm: bool) returns (v: Tri)
      requires Valid()
      requires calm ==> AllCalm(D(), user, Reads(D(), user, e))
      modifies this`cache
      ensures Valid() && Grew(old(cache), cache)
      ensures v == Val(D(), user, e) && Covered(c, Reads(D(), user, e), cache)
      decreases !calm, ExprRank(D(), e), 0, e, 2
    {
      hide Ranked, Good, TriVal, StrVal, Num, Calm, NeedsType, RankedApart, Resolved;
      match e
      case Sym(n) => v := TriValue(n, calm);
      case And(l, r) =>
        v := ExprValue(l, calm);
        if v != 0 {
          var w := ExprValue(r, calm);
          v := Min(v, w);
        }
      case Or(l, r) =>
        v := ExprValue(l, calm);
        if v != 2 {
          var w := ExprValue(r, calm);
          v := Max(v, w);
        }
      case Not(a) =>
        v := ExprValue(a, calm);
        v := 2 - v;
      case Compare(rel, a, b) => v := CompareValue(rel, a, b, calm);
    }

    method CompareValue(rel: Rel, a: Name, b: Name, ghost calm: bool) returns (v: Tri)
      requires Valid()
      requires calm ==> AllCalm(D(), user, Reads(D(), user, Compare(rel, a, b)))
      modifies this`cache
      ensures Valid() && Grew(old(cache), cache)
      ensures v == Val(D(), user, Compare(rel, a, b)) && Covered(c, Reads(D(), user, Compare(rel, a, b)), cache)
      decreases !calm, ExprRank(D(), Compare(rel, a, b)), 0, Compare(rel, a, b), 1
    {
      hide Ranked, Good, TriVal, StrVal, Num, Holds, Strcmp, Calm, NeedsType, RankedApart, Resolved;
      if !(Def(c, a).kind == Str && Def(c, b).kind == Str) {
        var x := Number(a, calm);
        if x.Some? {
          var y := Number(b, calm);
          if y.Some? {
            return Holds(rel, x.value - y.value);
          }
        }
      }
      v := CompareStrings(rel, a, b, calm);
    }

    method CompareStrings(rel: Rel, a: Name, b: Name, ghost calm: bool) returns (v: Tri)
      requires Valid()
      requires calm ==> Calm(D(), user, StrOf(a)) && Calm(D(), user, StrOf(b))
      modifies this`cache
      ensures Valid() && Grew(old(cache), cache)
      ensures v == Holds(rel, Strcmp(StrVal(D(), user, a), StrVal(D(), user, b))) && Covered(c, {StrOf(a), StrOf(b)}, cache)
      decreases !calm, ExprRank(D(), Compare(rel, a, b)), 0, Compare(rel, a, b), 0
    {
      hide Ranked, Good, StrVal, Holds, Strcmp, Calm, NeedsType, RankedApart, Resolved;
      var p := StrValue(a, calm);
      var q := StrValue(b, calm);
      v := Holds(rel, Strcmp(p, q));
    }

    /** _sym_to_num. */
    method Number(s: Name, ghost calm: bool) returns (n: Option<int>)
      requires Valid()
      requires calm ==> Calm(D(), user, NumKey(c, s))
      modifies this`cache
      ensures Valid() && Grew(old(cache), cache)
      ensures n == Num(D(), user, s) && NumKey(c, s) in cache
      decreases !calm, RankOf(D(), s), 5
    {
      hide Ranked, Good, TriVal, StrVal, Calm, NeedsType, RankedApart, Resolved;
      if Logical(Def(c, s).kind) {
        var t := TriValue(s, calm);
        n := Some(t as int);
      } else {
        var t := StrValue(s, calm);
        n := c.num.parse(t, Base(Def(c, s).kind));
      }
    }

    // MODULES is consulted for tristates only
    method KeepsTristate(s: Name, ghost calm: bool) returns (b: bool)
      requires Valid()
      requires calm ==> !IsTristate(c, s)
      modifies this`cache
      ensures Valid() && Grew(old(cache), cache)
      ensures b == StaysTristate(D(), user, s) && Covered(c, TypeReads(D(), s), cache)
      ensures IsTristate(c, s) ==> TriOf(c.modules) in cache
      decreases !calm, RankOf(D(), s), 1
    {
      hide Good, TriVal, Calm, NeedsType, RankedApart, Resolved;
      b := false;
      if s in c.defs && c.defs[s].kind == Tristate && c.defs[s].preset == None {
        ModulesHere(c, rank, user);
        var m := TriValue(c.modules, true);
        b := m != 0;
      }
    }

    /** Symbol.visibility. */
    method Visibility(s: Name, ghost calm: bool) returns (v: Tri)
      requires Valid()
      requires calm ==> Calm(D(), user, Vis(s))
      modifies this`cache
      ensures Valid() && Grew(old(cache), cache)
      ensures v == VisVal(D(), user, s) && Vis(s) in cache
      decreases !calm, RankOf(D(), s), 2
    {
      hide Good, Prompts, PromptReads, StaysTristate, TypeReads, Calm, RankedApart, Resolved;
      if Vis(s) in cache {
        Hit(Vis(s));
        return cache[Vis(s)].t;
      }
      if calm { CalmWhen(D(), user, Vis(s)); }
      v := 0;
      if s in c.defs && c.defs[s].preset == None {
        v := MaxPrompt(c.defs[s].prompts, RankOf(D(), s), calm);
        if v == 1 {
          var stays := KeepsTristate(s, calm);
          if !stays { v := 2; }
        }
      }
      Store(Vis(s), OfTri(v));
    }

    method MaxPrompt(ps: seq<Expr>, ghost b: nat, ghost calm: bool) returns (v: Tri)
      requires Valid()
      requires forall i {:trigger ps[i]} :: 0 <= i < |ps| ==> ExprRank(D(), ps[i]) <= b
      requires calm ==> AllCalm(D(), user, PromptReads(D(), user, ps))
      modifies this`cache
      ensures Valid() && Grew(old(cache), cache)
      ensures v == Prompts(D(), user, ps, b) && Covered(c, PromptReads(D(), user, ps), cache)
      decreases !calm, b, 1
    {
      hide Ranked, Good, Val, Reads, Calm, NeedsType, RankedApart, Resolved;
      v := 0;
      for i := 0 to |ps|
        invariant Valid() && Grew(old(cache), cache)
        invariant v == Prompts(D(), user, ps[..i], b) && Covered(c, PromptReads(D(), user, ps[..i]), cache)
      {
        PromptReadsIn(D(), user, ps, i);
        var w := ExprValue(ps[i], calm);
        v := Max(v, w);
        assert ps[..i + 1][..i] == ps[..i] && ps[..i + 1][i] == ps[i];
      }
      assert ps[..|ps|] == ps;
    }

    method FirstDefaultTri(ds: seq<Default>, ghost b: nat, ghost calm: bool) returns (v: Tri)
      requires Valid()
      requires forall i {:trigger ds[i]} :: 0 <= i < |ds| ==> PairBelow(D(), ds[i], b)
      requires calm ==> AllCalm(D(), user, DefaultTriReads(D(), user, ds))
      modifies this`cache
      ensures Valid() && Grew(old(cache), cache)
      ensures v == DefaultTri(D(), user, ds, b) && Covered(c, DefaultTriReads(D(), user, ds), cache)
      decreases !calm, b, 1
    {
      hide Ranked, Good, Val, Reads, Calm, NeedsType, RankedApart, Resolved;
      var i := 0;
      ghost var done: set<Key> := {};
      assert ds[0..] == ds;
      while i < |ds|
        invariant 0 <= i <= |ds|
        invariant Valid() && Grew(old(cache), cache) && Covered(c, done, cache)
        invariant DefaultTri(D(), user, ds, b) == DefaultTri(D(), user, ds[i..], b)
        invariant DefaultTriReads(D(), user, ds) <= done + DefaultTriReads(D(), user, ds[i..])
        invariant calm ==> AllCalm(D(), user, DefaultTriReads(D(), user, ds[i..]))
      {
        assert ds[i..][0] == ds[i] && ds[i..][1..] == ds[i + 1..];
        assert PairBelow(D(), ds[i], b);
        var dep := ExprValue(ds[i].cond, calm);
        if dep != 0 {
          var w := ExprValue(ds[i].value, calm);
          return Min(w, dep);
        }
        done := done + Reads(D(), user, ds[i].cond);
        i := i + 1;
      }
      v := 0;
    }

    // The value from the user, the defaults and 'imply'
    method WeakValue(s: Name, ghost calm: bool) returns (v: Tri)
      requires Valid() && s in c.defs && c.defs[s].preset == None
      requires calm ==> AllCalm(D(), user, WeakTriReads(D(), user, s))
      modifies this`cache
      ensures Valid() && Grew(old(cache), cache)
      ensures v == WeakTri(D(), user, s) && Covered(c, WeakTriReads(D(), user, s), cache)
      decreases !calm, RankOf(D(), s), 3, 0
    {
      hide Good, Val, Reads, DefaultTri, DefaultTriReads, VisVal, Calm, NeedsType, RankedApart, Resolved;
      var d := c.defs[s];
      var vis := Visibility(s, calm);
      if UserTri(user, s, vis) {
        v := Min(user[s].t, vis);
      } else {
        v := FirstDefaultTri(d.defaults, RankOf(D(), s), calm);
        var weak := ExprValue(d.weakRevDep, calm);
        if weak != 0 {
          var dep := ExprValue(d.directDep, calm);
          if dep != 0 { v := Max(weak, v); }
        }
      }
    }

    // ... and from 'select'
    method RawValue(s: Name, ghost calm: bool) returns (v: Tri)
      requires Valid() && s in c.defs && c.defs[s].preset == None
      requires calm ==> AllCalm(D(), user, RawTriReads(D(), user, s))
      modifies this`cache
      ensures Valid() && Grew(old(cache), cache)
      ensures v == RawTri(D(), user, s) && Covered(c, RawTriReads(D(), user, s), cache)
      decreases !calm, RankOf(D(), s), 3, 1
    {
      hide Good, Val, Reads, WeakTri, WeakTriReads, Calm, NeedsType, RankedApart, Resolved;
      var d := c.defs[s];
      v := WeakValue(s, calm);
      var rev := ExprValue(d.revDep, calm);
      if rev != 0 {
        var dep := ExprValue(d.directDep, calm);  // compared with rev to warn
        v := Max(rev, v);
      }
    }

    /** Symbol.tri_value. */
    method TriValue(s: Name, ghost calm: bool) returns (v: Tri)
      requires Valid()
      requires calm ==> Calm(D(), user, TriOf(s))
      modifies this`cache
      ensures Valid() && Grew(old(cache), cache)
      ensures v == TriVal(D(), user, s) && TriOf(s) in cache
      decreases !calm, RankOf(D(), s), 3, 2
    {
      hide Good, Val, Reads, RawTri, StaysTristate, TypeReads, Calm, RankedApart, Resolved;
      if TriOf(s) in cache {
        Hit(TriOf(s));
        return cache[TriOf(s)].t;
      }
      if calm { CalmWhen(D(), user, TriOf(s)); }
      v := 0;
      if s in c.defs && c.defs[s].preset.Some? {
        v := c.defs[s].preset.value;
      } else if s in c.defs && Logical(c.defs[s].kind) {
        v := RawValue(s, calm);
        if v == 1 {
          var stays := KeepsTristate(s, calm);
          if !stays {
            v := 2;
          } else {
            var weak := ExprValue(c.defs[s].weakRevDep, calm);
            if weak == 2 { v := 2; }
          }
        }
        assert Vis(s) in WeakTriReads(D(), user, s);
      }
      Store(TriOf(s), OfTri(v));
    }

    method FirstRange(rs: seq<Range>, base: nat, ghost b: nat, ghost calm: bool) returns (range: Option<(int, int)>)
      requires Valid()
      requires forall i {:trigger rs[i]} :: 0 <= i < |rs| ==> RangeBelow(D(), rs[i], b)
      requires calm ==> AllCalm(D(), user, RangeReads(D(), user, rs))
      modifies this`cache
      ensures Valid() && Grew(old(cache), cache)
      ensures range == ActiveRange(D(), user, rs, base, b) && Covered(c, RangeReads(D(), user, rs), cache)
      decreases !calm, b, 1
    {
      hide Ranked, Good, Val, Reads, StrVal, Calm, NeedsType, RankedApart, Resolved;
      var i := 0;
      ghost var done: set<Key> := {};
      assert rs[0..] == rs;
      while i < |rs|
        invariant 0 <= i <= |rs|
        invariant Valid() && Grew(old(cache), cache) && Covered(c, done, cache)
        invariant ActiveRange(D(), user, rs, base, b) == ActiveRange(D(), user, rs[i..], base, b)
        invariant RangeReads(D(), user, rs) <= done + RangeReads(D(), user, rs[i..])
        invariant calm ==> AllCalm(D(), user, RangeReads(D(), user, rs[i..]))
      {
        assert rs[i..][0] == rs[i] && rs[i..][1..] == rs[i + 1..];
        assert RangeBelow(D(), rs[i], b);
        var cond := ExprValue(rs[i].cond, calm);
        if cond != 0 {
          var low := StrValue(rs[i].low, calm);
          var high := StrValue(rs[i].high, calm);
          return Some((KconfigEval.Number(c, low, base), KconfigEval.Number(c, high, base)));
        }
        done := done + Reads(D(), user, rs[i].cond);
        i := i + 1;
      }
      range := None;
    }

    method FirstDefaultStr(ds: seq<Default>, ghost b: nat, ghost calm: bool) returns (t: Option<string>)
      requires Valid()
      requires forall i {:trigger ds[i]} :: 0 <= i < |ds| ==> PairBelow(D(), ds[i], b) && IsSym(ds[i].value)
      requires calm ==> AllCalm(D(), user, DefaultStrReads(D(), user, ds))
      modifies this`cache
      ensures Valid() && Grew(old(cache), cache)
      ensures t == DefaultStr(D(), user, ds, b) && Covered(c, DefaultStrReads(D(), user, ds), cache)
      decreases !calm, b, 1
    {
      hide Ranked, Good, Val, Reads, StrVal, Calm, NeedsType, RankedApart, Resolved;
      var i := 0;
      ghost var done: set<Key> := {};
      assert ds[0..] == ds;
      while i < |ds|
        invariant 0 <= i <= |ds|
        invariant Valid() && Grew(old(cache), cache) && Covered(c, done, cache)
        invariant DefaultStr(D(), user, ds, b) == DefaultStr(D(), user, ds[i..], b)
        invariant DefaultStrReads(D(), user, ds) <= done + DefaultStrReads(D(), user, ds[i..])
        invariant calm ==> AllCalm(D(), user, DefaultStrReads(D(), user, ds[i..]))
      {
        assert ds[i..][0] == ds[i] && ds[i..][1..] == ds[i + 1..];
        assert PairBelow(D(), ds[i], b) && IsSym(ds[i].value);
        var cond := ExprValue(ds[i].cond, calm);
        if cond != 0 {
          var w := StrValue(ds[i].value.name, calm);
          return Some(w);
        }
        done := done + Reads(D(), user, ds[i].cond);
        i := i + 1;
      }
      t := None;
    }

    method NumberString(s: Name, base: nat, ghost calm: bool) returns (t: string)
      requires Valid() && Defined(c, s) && !Logical(c.defs[s].kind) && base == Base(c.defs[s].kind)
      requires c.defs[s].kind == Int || c.defs[s].kind == Hex
      requires calm ==> AllCalm(D(), user, StrReads(D(), user, s))
      modifies this`cache
      ensures Valid() && Grew(old(cache), cache)
      ensures t == NumberStr(D(), user, s) && Covered(c, StrReads(D(), user, s), cache)
      decreases !calm, RankOf(D(), s), 3, 3
    {
      hide Good, Val, Reads, VisVal, ActiveRange, RangeReads, DefaultStr, DefaultStrReads, Clamp, UserNumber,
        Calm, NeedsType, RankedApart, Resolved;
      var d := c.defs[s];
      var vis := Visibility(s, calm);
      var range := FirstRange(d.ranges, base, RankOf(D(), s), calm);
      UserNumberHere(c, D(), user, s, vis, base, range);
      if UserNumber(c, user, s, vis, base, range) {
        t := user[s].s;
      } else {
        var def := FirstDefaultStr(d.defaults, RankOf(D(), s), calm);
        ClampHere(c, D(), def, base, range);
        t := Clamp(c, def, base, range);
      }
    }

    /** Symbol.str_value. */
    method StrValue(s: Name, ghost calm: bool) returns (t: string)
      requires Valid()
      requires calm ==> Calm(D(), user, StrOf(s))
      modifies this`cache
      ensures Valid() && Grew(old(cache), cache)
      ensures t == StrVal(D(), user, s) && StrOf(s) in cache
      decreases !calm, RankOf(D(), s), 4
    {
      hide Good, Val, Reads, TriVal, VisVal, NumberStr, ActiveRange, RangeReads, DefaultStr, DefaultStrReads, UserNumber, Calm, NeedsType, RankedApart, Resolved;
      if StrOf(s) in cache {
        Hit(StrOf(s));
        return cache[StrOf(s)].s;
      }
      if calm { CalmWhen(D(), user, StrOf(s)); }
      t := s;
      if s in c.defs && Logical(c.defs[s].kind) {
        var v := TriValue(s, calm);
        t := TriToStr(v);
      } else if s in c.defs && c.defs[s].kind == Str {
        var vis := Visibility(s, calm);
        if UserStr(user, s, vis) {
          t := user[s].s;
        } else {
          var def := FirstDefaultStr(c.defs[s].defaults, RankOf(D(), s), calm);
          t := if def.Some? then def.value else "";
        }
      } else if s in c.defs && c.defs[s].kind != Unknown {
        t := NumberString(s, Base(c.defs[s].kind), calm);
      }
      StringsNeedNone(D(), user, s);
      Store(StrOf(s), OfStr(t));
    }

    /** Symbol.assignable. */
    method Assignable(s: Name) returns (a: seq<Tri>)
      requires Valid()
      modifies this`cache
      ensures Valid() && Grew(old(cache), cache)
      ensures a == AsgVal(D(), user, s) && Asg(s) in cache
    {
      hide Good, Calm, RankedApart, Resolved;
      if Asg(s) in cache {
        Hit(Asg(s));
        return cache[Asg(s)].a;
      }
      a := [];
      if Defined(c, s) && Logical(c.defs[s].kind) {
        a := ComputeAssignable(s);
      }
      Store(Asg(s), OfAsg(a));
    }

    method ComputeAssignable(s: Name) returns (a: seq<Tri>)
      requires Valid() && Defined(c, s) && Logical(c.defs[s].kind)
      modifies this`cache
      ensures Valid() && Grew(old(cache), cache)
      ensures a == AsgVal(D(), user, s) && Covered(c, AsgReads(D(), user, s), cache)
      ensures NeedsType(D(), user, Asg(s)) ==> TriOf(c.modules) in cache
    {
      hide Ranked, Good, Val, Reads, VisVal, StaysTristate, TypeReads, Calm, RankedApart, Resolved;
      var d := c.defs[s];
      var vis := Visibility(s, false);
      if vis == 0 { return []; }
      var rev := ExprValue(d.revDep, false);
      if rev == 2 { return [2]; }
      if vis == 2 {
        var stays := KeepsTristate(s, false);
        var noM := true;
        if stays {
          var weak := ExprValue(d.weakRevDep, false);
          noM := weak == 2;
        }
        a := if rev == 0 then if noM then [0, 2] else [0, 1, 2] else if noM then [2] else [1, 2];
      } else if rev == 0 {
        var weak := ExprValue(d.weakRevDep, false);
        a := if weak != 2 then [0, 1] else [0, 2];
      } else {
        a := [1];
      }
    }

    // ---------------------------------------------------------------- invalidation

    // Symbol._invalidate
    method Invalidate(s: Name)
      modifies this`cache
      ensures cache == Without(old(cache), {s})
    {
      cache := map k | k in cache && k.s != s :: cache[k];
    }

    // Kconfig._invalidate_all
    method InvalidateAll() returns (ghost gone: set<Name>)
      modifies this`cache
      ensures cache == Without(old(cache), gone)
      ensures gone == set s | s in c.defs && Defined(c, s)
    {
      gone := set s | s in c.defs && Defined(c, s);
      cache := map k | k in cache && !Defined(c, k.s) :: cache[k];
    }

    /** Symbol._rec_invalidate: stops at dependents without a cached visibility, so the
        number of symbols with one falls at every recursive call. */
    method RecInvalidate(s: Name) returns (ghost gone: set<Name>)
      requires Defined(c, s)
      requires forall t :: Get(dependents, t) == Dependents(c, t)
      modifies this`cache
      ensures s in gone && cache == Without(old(cache), gone) && Closed(c, old(cache), gone)
      ensures Least(c, old(cache), s, gone)
      decreases |Flagged(cache) - {s}| + 1
    {
      hide Dependents, Least, Closed;
      if s == c.modules {
        gone := InvalidateAll();
        AllClosed(c, old(cache), gone);
        AllLeast(c, old(cache), gone);
      } else {
        Invalidate(s);
        gone := {s};
        OneLeast(c, old(cache), s);
        var todo := Get(dependents, s);
        while todo != {}
          invariant todo <= Dependents(c, s)
          invariant s in gone && cache == Without(old(cache), gone)
          invariant ClosedBut(c, old(cache), gone, s) && Least(c, old(cache), s, gone)
          invariant forall d :: d in Dependents(c, s) - todo ==> Vis(d) !in cache
          decreases todo
        {
          var item :| item in todo;
          todo := todo - {item};
          if Vis(item) in cache {
            FewerFlagged(old(cache), gone, s, item);
            DependentDefined(c, s, item);
            ghost var before := cache;
            ghost var more := RecInvalidate(item);
            ClosedJoin(c, old(cache), gone, more, s);
            LeastJoin(c, old(cache), s, gone, item, more);
            gone := gone + more;
          }
        }
        NowClosed(c, old(cache), gone, s);
      }
    }

    /** Symbol._rec_invalidate_if_has_prompt, after user_value of s changed from what it
        was in `before`: user values never affect promptless symbols. */
    method InvalidateIfPrompt(s: Name, ghost before: User)
      requires Evaluable(c, rank, before) && Good(c, rank, before, cache) && Evaluable(c, rank, user)
      requires forall t :: Get(dependents, t) == Dependents(c, t)
      requires forall t :: t != s ==> UserSame(c, before, user, t)
      modifies this`cache
      ensures Valid()
    {
      hide Ranked, Good, Closed;
      ghost var gone: set<Name> := {};
      ghost var m := cache;
      if s in c.defs && c.defs[s].preset == None && c.defs[s].prompts != [] {
        gone := RecInvalidate(s);
      } else {
        NothingGone(c, m);
        NoPrompt(c, rank, before, user, s);
      }
      InvalidationSound(c, rank, before, user, m, gone);
    }

    /** Symbol.set_value: false when the value does not fit the symbol's type. */
    method SetValue(s: Name, x: UserValue) returns (ok: bool)
      requires Valid() && Evaluable(c, rank, SetUser(c, user, s, x).0)
      modifies this
      ensures Valid()
      ensures (user, ok) == SetUser(c, old(user), s, x)
    {
      hide Ranked, Good;
      if s in user && user[s] == x { return true; }
      if !Fits(c, s, x) { return false; }
      ghost var before := user;
      user := user[s := Normal(c, s, x)];
      InvalidateIfPrompt(s, before);
      ok := true;
    }

    /** Symbol.unset_value. */
    method UnsetValue(s: Name)
      requires Valid() && Evaluable(c, rank, UnsetUser(user, s))
      modifies this
      ensures Valid() && user == UnsetUser(old(user), s)
    {
      hide Ranked, Good;
      if s in user {
        ghost var before := user;
        user := UnsetUser(user, s);
        InvalidateIfPrompt(s, before);
      }
    }

    /** Any sequence of reads and assignments under which MODULES can be evaluated gives the
        answers of an evaluator that caches nothing. */
    method Run(ops: seq<Op>) returns (answers: seq<Answer>)
      requires Valid() && forall i :: 0 <= i <= |ops| ==> Evaluable(c, rank, After(c, user, ops[..i]))
      modifies this
      ensures Valid()
      ensures user == After(c, old(user), ops) && answers == Reference(c, rank, old(user), ops)
    {
      hide Ranked, Good, Next, AnswerTo, RankedApart, Calm;
      answers := [];
      assert ops[..0] == [];
      for i := 0 to |ops|
        invariant Valid()
        invariant user == After(c, old(user), ops[..i]) && answers == Reference(c, rank, old(user), ops[..i])
      {
        assert ops[..i + 1][..i] == ops[..i] && ops[..i + 1][i] == ops[i];
        assert Evaluable(c, rank, After(c, old(user), ops[..i + 1]));
        var a := Perform(ops[i]);
        answers := answers + [a];
      }
      assert ops[..|ops|] == ops;
    }

    method Perform(op: Op) returns (a: Answer)
      requires Valid() && Evaluable(c, rank, Next(c, user, op))
      modifies this
      ensures Valid()
      ensures user == Next(c, old(user), op) && a == AnswerTo(c, rank, old(user), op)
    {
      hide Ranked, Good, SetUser, UnsetUser, TriVal, StrVal, VisVal, AsgVal, Calm, Resolved, Constants;
      match op
      case ReadTri(s) => var v := TriValue(s, false); a := ATri(v);
      case ReadStr(s) => var v := StrValue(s, false); a := AStr(v);
      case ReadVis(s) => var v := Visibility(s, false); a := ATri(v);
      case ReadAssignable(s) => var v := Assignable(s); a := AAsg(v);
      case Set(s, x) => var v := SetValue(s, x); a := ADone(v);
      case Unset(s) => UnsetValue(s); a := ADone(true);
    }
  }

  // ---------------------------------------------------------------- reference

  /** Whether set_value accepts x for s. */
  predicate Fits(c: Config, s: Name, x: UserValue) {
    match Def(c, s).kind
    case Bool => x == UTri(0) || x == UTri(2) || x == UStr("y") || x == UStr("n")
    case Tristate => x.UTri? || x == UStr("y") || x == UStr("m") || x == UStr("n")
    case Str => x.UStr?
    case Int => x.UStr? && c.num.parse(x.s, 10).Some?
    case Hex => x.UStr? && c.num.parse(x.s, 16).Some? && c.num.parse(x.s, 16).value >= 0
    case Unknown => false
  }

  // "y", "m" and "n" are stored as tristate values
  function Normal(c: Config, s: Name, x: UserValue): UserValue {
    if Logical(Def(c, s).kind) && x.UStr? then
      UTri(if x.s == "y" then 2 else if x.s == "m" then 1 else 0)
    else x
  }

  function SetUser(c: Config, u: User, s: Name, x: UserValue): (User, bool) {
    if s in u && u[s] == x then (u, true)
    else if Fits(c, s, x) then (u[s := Normal(c, s, x)], true)
    else (u, false)
  }

  // Every user value is one of its symbol's type
  predicate WellTyped(c: Config, u: User) {
    forall n :: n in u ==> Possible(c, n, u[n])
  }

  predicate Possible(c: Config, s: Name, x: UserValue) {
    match Def(c, s).kind
    case Bool => x == UTri(0) || x == UTri(2)
    case Tristate => x.UTri?
    case Str => x.UStr?
    case Int => x.UStr? && c.num.parse(x.s, 10).Some?
    case Hex => x.UStr? && c.num.parse(x.s, 16).Some? && c.num.parse(x.s, 16).value >= 0
    case Unknown => false
  }

  /** Whatever is assigned, the user values stay of their symbols' types, only the symbol's own
      changes, and a refused assignment changes none. */
  lemma SetKeepsTypes(c: Config, u: User, s: Name, x: UserValue)
    requires WellTyped(c, u)
    ensures var (v, ok) := SetUser(c, u, s, x);
      WellTyped(c, v) && (!ok ==> v == u) && (ok ==> v.Keys == u.Keys + {s}) && forall n :: n in u && n != s ==> v[n] == u[n]
  {
  }

  /** n, m and y may be given as 0, 1 and 2 or by name, with the same effect; a bool refuses m,
      and other texts are refused. */
  lemma SetTristate(c: Config, u: User, s: Name, t: Tri, w: string)
    requires WellTyped(c, u) && Logical(Def(c, s).kind)
    ensures SetUser(c, u, s, UTri(t)) == SetUser(c, u, s, UStr(["n", "m", "y"][t]))
    ensures SetUser(c, u, s, UTri(t)) == if t == 1 && Def(c, s).kind == Bool then (u, false) else (u[s := UTri(t)], true)
    ensures w != "n" && w != "m" && w != "y" ==> SetUser(c, u, s, UStr(w)) == (u, false)
  {
    if s in u { assert Possible(c, s, u[s]) && u[s := u[s]] == u; }
  }

  /** The other types take texts alone, numbers only in their base and not negative in
      hexadecimal, and keep them as they are. */
  lemma SetText(c: Config, u: User, s: Name, w: string, t: Tri)
    requires WellTyped(c, u) && !Logical(Def(c, s).kind)
    ensures SetUser(c, u, s, UTri(t)) == (u, false)
    ensures Def(c, s).kind == Str ==> SetUser(c, u, s, UStr(w)) == (u[s := UStr(w)], true)
    ensures Def(c, s).kind == Int ==>
      SetUser(c, u, s, UStr(w)) == if c.num.parse(w, 10).Some? then (u[s := UStr(w)], true) else (u, false)
    ensures Def(c, s).kind == Hex ==>
      var v := c.num.parse(w, 16);
      SetUser(c, u, s, UStr(w)) == if v.Some? && v.value >= 0 then (u[s := UStr(w)], true) else (u, false)
    ensures Def(c, s).kind == Unknown ==> SetUser(c, u, s, UStr(w)) == (u, false)
  {
    if s in u { assert Possible(c, s, u[s]) && u[s := u[s]] == u; }
  }

  function UnsetUser(u: User, s: Name): User {
    u - {s}
  }

  datatype Op =
    | ReadTri(s: Name) | ReadStr(s: Name) | ReadVis(s: Name) | ReadAssignable(s: Name)
    | Set(s: Name, x: UserValue) | Unset(s: Name)

  datatype Answer = ATri(t: Tri) | AStr(text: string) | AAsg(a: seq<Tri>) | ADone(ok: bool)

  function Next(c: Config, u: User, op: Op): User {
    match op
    case Set(s, x) => SetUser(c, u, s, x).0
    case Unset(s) => UnsetUser(u, s)
    case _ => u
  }

  // The user values after some operations
  function After(c: Config, u: User, ops: seq<Op>): User {
    if ops == [] then u else Next(c, After(c, u, ops[..|ops| - 1]), ops[|ops| - 1])
  }

  ghost function AnswerTo(c: Config, rank: map<Name, nat>, u: User, op: Op): Answer
    requires RankedApart(c, rank)
  {
    IsFixed(c, rank, u);
    var d := Resolved(c, rank, u);
    match op
    case ReadTri(s) => ATri(TriVal(d, u, s))
    case ReadStr(s) => AStr(StrVal(d, u, s))
    case ReadVis(s) => ATri(VisVal(d, u, s))
    case ReadAssignable(s) => AAsg(AsgVal(d, u, s))
    case Set(s, x) => ADone(SetUser(c, u, s, x).1)
    case Unset(_) => ADone(true)
  }

  // The same operations, every read evaluated from scratch
  ghost function Reference(c: Config, rank: map<Name, nat>, u: User, ops: seq<Op>): seq<Answer>
    requires RankedApart(c, rank)
  {
    if ops == [] then [] else
      var k := |ops| - 1;
      Reference(c, rank, u, ops[..k]) + [AnswerTo(c, rank, After(c, u, ops[..k]), ops[k])]
  }

  lemma NothingGone(c: Config, m: Cache)
    ensures Closed(c, m, {}) && Without(m, {}) == m
  {
  }

  lemma NoPrompt(c: Config, rank: map<Name, nat>, u: User, v: User, s: Name)
    requires RankedApart(c, rank)
    requires !(s in c.defs && c.defs[s].preset == None && c.defs[s].prompts != [])
    ensures UserSame(c, u, v, s)
  {
  }

  // Symbols whose visibility is cached
  ghost function Flagged(m: Cache): set<Name> {
    set k | k in m && k.Vis? :: k.s
  }

  lemma FewerFlagged(m: Cache, gone: set<Name>, s: Name, item: Name)
    requires s in gone && Vis(item) in Without(m, gone)
    ensures |Flagged(Without(m, gone)) - {item}| < |Flagged(m) - {s}|
  {
    var a, b := Flagged(Without(m, gone)) - {item}, Flagged(m) - {s};
    assert Vis(item) in m;
    assert item in b && item !in a;
    assert forall x :: x in a ==> Vis(x) in m && x in b;
    StrictSubset(a, b, item);
  }

  // Closed, except that the dependents of s itself may not have been dealt with yet
  ghost predicate ClosedBut(c: Config, m: Cache, gone: set<Name>, s: Name) {
    && (forall t :: t in gone ==> Defined(c, t))
    && (forall t, d :: t in gone && t != s && d in Dependents(c, t) ==> Vis(d) !in Without(m, gone))
    && (c.modules in gone ==> forall k :: k in m && Defined(c, k.s) ==> k.s in gone)
  }

  lemma AllClosed(c: Config, m: Cache, gone: set<Name>)
    requires gone == set s | s in c.defs && Defined(c, s)
    ensures Closed(c, m, gone)
  {
  }

  lemma ClosedJoin(c: Config, m: Cache, gone: set<Name>, more: set<Name>, s: Name)
    requires ClosedBut(c, m, gone, s) && Closed(c, Without(m, gone), more)
    ensures ClosedBut(c, m, gone + more, s)
    ensures Without(Without(m, gone), more) == Without(m, gone + more)
  {
    hide Dependents;
  }

  lemma NowClosed(c: Config, m: Cache, gone: set<Name>, s: Name)
    requires ClosedBut(c, m, gone, s) && forall d :: d in Dependents(c, s) ==> Vis(d) !in Without(m, gone)
    ensures Closed(c, m, gone)
  {
    hide Dependents;
  }

  /** No more is dropped than must be: whatever set with s leaves no dependent of its symbols
      with a cached visibility drops all of it. */
  ghost predicate Least(c: Config, m: Cache, s: Name, gone: set<Name>) {
    forall x :: s in x && Closed(c, m, x) ==> Without(m, x).Keys <= Without(m, gone).Keys
  }

  lemma OneLeast(c: Config, m: Cache, s: Name)
    ensures Least(c, m, s, {s})
  {
    hide Closed;
  }

  lemma AllLeast(c: Config, m: Cache, gone: set<Name>)
    requires gone == set s | s in c.defs && Defined(c, s)
    ensures Least(c, m, c.modules, gone)
  {
    hide Dependents;
  }

  lemma LeastJoin(c: Config, m: Cache, s: Name, gone: set<Name>, item: Name, more: set<Name>)
    requires Least(c, m, s, gone) && Least(c, Without(m, gone), item, more)
    requires item in Dependents(c, s) && Vis(item) in Without(m, gone)
    ensures Least(c, m, s, gone + more)
  {
    hide Dependents;
    var n := Without(m, gone);
    forall x | s in x && Closed(c, m, x)
      ensures Without(m, x).Keys <= Without(m, gone + more).Keys
    {
      assert item in x && Closed(c, n, x);
      assert Without(m, x).Keys <= n.Keys && Without(n, x).Keys <= Without(n, more).Keys;
      forall k | k in Without(m, x) ensures k in Without(m, gone + more) {
        assert k in n && k in Without(n, x);
      }
    }
  }
}
