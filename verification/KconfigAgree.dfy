/**
 Evaluation depends on nothing but the keys it consults: two user assignments that
 agree on those give the same value and consult the same keys.
 */
module KconfigAgree {
  import opened Basics
  import opened KconfigEval

  ghost predicate Same(c: Config, u: User, v: User, ks: set<Key>)
    requires Ranked(c)
  {
    forall k :: k in ks ==> KeyVal(c, u, k) == KeyVal(c, v, k)
  }

  // Whatever the user assigned to s, evaluation cannot tell u and v apart on s
  predicate UserSame(c: Config, u: User, v: User, s: Name) {
    || (s in c.defs ==> c.defs[s].prompts == [])
    || (s in u && s in v && u[s] == v[s])
    || (s !in u && s !in v)
  }

  lemma {:induction false} ExprAgree(c: Config, u: User, v: User, e: Expr)
    requires Ranked(c) && Same(c, u, v, Reads(c, u, e))
    ensures Val(c, u, e) == Val(c, v, e)
    ensures Reads(c, u, e) == Reads(c, v, e)
  {
    hide Ranked, TriVal, StrVal;
    match e
    case Sym(n) =>
      assert KeyVal(c, u, TriOf(n)) == KeyVal(c, v, TriOf(n));
    case And(l, r) =>
      ExprAgree(c, u, v, l);
      if Val(c, u, l) != 0 { ExprAgree(c, u, v, r); }
    case Or(l, r) =>
      ExprAgree(c, u, v, l);
      if Val(c, u, l) != 2 { ExprAgree(c, u, v, r); }
    case Not(a) =>
      ExprAgree(c, u, v, a);
    case Compare(rel, a, b) => CompareAgree(c, u, v, rel, a, b);
  }

  lemma NumAgree(c: Config, u: User, v: User, s: Name)
    requires Ranked(c) && KeyVal(c, u, NumKey(c, s)) == KeyVal(c, v, NumKey(c, s))
    ensures Num(c, u, s) == Num(c, v, s)
  {
    hide Ranked, TriVal, StrVal;
  }

  lemma StrKey(c: Config, u: User, v: User, s: Name)
    requires Ranked(c) && KeyVal(c, u, StrOf(s)) == KeyVal(c, v, StrOf(s))
    ensures StrVal(c, u, s) == StrVal(c, v, s)
  {
    hide Ranked, StrVal;
  }

  lemma CompareAgree(c: Config, u: User, v: User, rel: Rel, a: Name, b: Name)
    requires Ranked(c) && Same(c, u, v, Reads(c, u, Compare(rel, a, b)))
    ensures Val(c, u, Compare(rel, a, b)) == Val(c, v, Compare(rel, a, b))
    ensures Reads(c, u, Compare(rel, a, b)) == Reads(c, v, Compare(rel, a, b))
  {
    hide Ranked, TriVal, StrVal, KeyVal, NumKey, Num, Holds;
    var r := Reads(c, u, Compare(rel, a, b));
    if StrOf(a) in r && StrOf(b) in r {
      StrKey(c, u, v, a);
      StrKey(c, u, v, b);
    }
    if !(Def(c, a).kind == Str && Def(c, b).kind == Str) {
      assert NumKey(c, a) in r;
      NumAgree(c, u, v, a);
      if Num(c, u, a).Some? {
        assert NumKey(c, b) in r;
        NumAgree(c, u, v, b);
      }
    }
  }

  lemma {:induction false} PromptsAgree(c: Config, u: User, v: User, ps: seq<Expr>, b: nat)
    requires Ranked(c) && Same(c, u, v, PromptReads(c, u, ps))
    requires forall i {:trigger ps[i]} :: 0 <= i < |ps| ==> ExprRank(c, ps[i]) <= b
    ensures Prompts(c, u, ps, b) == Prompts(c, v, ps, b)
    ensures PromptReads(c, u, ps) == PromptReads(c, v, ps)
    decreases |ps|
  {
    hide Ranked, TriVal, StrVal, KeyVal, Val, Reads;
    if ps != [] {
      PromptsAgree(c, u, v, ps[..|ps| - 1], b);
      ExprAgree(c, u, v, ps[|ps| - 1]);
    }
  }

  lemma {:induction false} DefaultTriAgree(c: Config, u: User, v: User, ds: seq<Default>, b: nat)
    requires Ranked(c) && Same(c, u, v, DefaultTriReads(c, u, ds))
    requires forall i {:trigger ds[i]} :: 0 <= i < |ds| ==> PairBelow(c, ds[i], b)
    ensures DefaultTri(c, u, ds, b) == DefaultTri(c, v, ds, b)
    ensures DefaultTriReads(c, u, ds) == DefaultTriReads(c, v, ds)
    decreases |ds|
  {
    hide Ranked, TriVal, StrVal, KeyVal, Val, Reads;
    if ds != [] {
      ExprAgree(c, u, v, ds[0].cond);
      if Val(c, u, ds[0].cond) != 0 {
        ExprAgree(c, u, v, ds[0].value);
      } else {
        DefaultTriAgree(c, u, v, ds[1..], b);
      }
    }
  }

  lemma {:induction false} RangeAgree(c: Config, u: User, v: User, rs: seq<Range>, base: nat, b: nat)
    requires Ranked(c) && Same(c, u, v, RangeReads(c, u, rs))
    requires forall i {:trigger rs[i]} :: 0 <= i < |rs| ==> RangeBelow(c, rs[i], b)
    ensures ActiveRange(c, u, rs, base, b) == ActiveRange(c, v, rs, base, b)
    ensures RangeReads(c, u, rs) == RangeReads(c, v, rs)
    decreases |rs|
  {
    hide Ranked, TriVal, StrVal, Val, Reads;
    if rs != [] {
      ExprAgree(c, u, v, rs[0].cond);
      if Val(c, u, rs[0].cond) != 0 {
        assert KeyVal(c, u, StrOf(rs[0].low)) == KeyVal(c, v, StrOf(rs[0].low));
        assert KeyVal(c, u, StrOf(rs[0].high)) == KeyVal(c, v, StrOf(rs[0].high));
      } else {
        RangeAgree(c, u, v, rs[1..], base, b);
      }
    }
  }

  lemma {:induction false} DefaultStrAgree(c: Config, u: User, v: User, ds: seq<Default>, b: nat)
    requires Ranked(c)
    requires forall i {:trigger ds[i]} :: 0 <= i < |ds| ==> PairBelow(c, ds[i], b) && IsSym(ds[i].value)
    requires Same(c, u, v, DefaultStrReads(c, u, ds))
    ensures DefaultStr(c, u, ds, b) == DefaultStr(c, v, ds, b)
    ensures DefaultStrReads(c, u, ds) == DefaultStrReads(c, v, ds)
    decreases |ds|
  {
    hide Ranked, TriVal, StrVal, Val, Reads;
    if ds != [] {
      assert IsSym(ds[0].value);
      ExprAgree(c, u, v, ds[0].cond);
      if Val(c, u, ds[0].cond) != 0 {
        assert KeyVal(c, u, StrOf(ds[0].value.name)) == KeyVal(c, v, StrOf(ds[0].value.name));
      } else {
        DefaultStrAgree(c, u, v, ds[1..], b);
      }
    }
  }

  lemma TypeAgree(c: Config, u: User, v: User, s: Name)
    requires Ranked(c) && Same(c, u, v, TypeReads(c, s))
    ensures StaysTristate(c, u, s) == StaysTristate(c, v, s)
  {
    hide Ranked, TriVal;
    assert TypeReads(c, s) != {} ==> KeyVal(c, u, TriOf(c.modules)) == KeyVal(c, v, TriOf(c.modules));
  }

  lemma VisAgree(c: Config, u: User, v: User, s: Name)
    requires Ranked(c) && Same(c, u, v, VisReads(c, u, s))
    ensures VisVal(c, u, s) == VisVal(c, v, s)
    ensures VisReads(c, u, s) == VisReads(c, v, s)
  {
    hide StaysTristate, TriVal, StrVal, Val, Reads, KeyVal, TypeReads, Prompts, PromptReads;
    if s in c.defs && c.defs[s].preset == None {
      PromptsAgree(c, u, v, c.defs[s].prompts, RankOf(c, s));
      if Prompts(c, u, c.defs[s].prompts, RankOf(c, s)) == 1 {
        TypeAgree(c, u, v, s);
      }
    }
  }

  lemma PromptlessInvisible(c: Config, u: User, s: Name)
    requires Ranked(c)
    requires s in c.defs ==> c.defs[s].prompts == []
    ensures VisVal(c, u, s) == 0
  {
  }

  lemma VisKey(c: Config, u: User, v: User, s: Name)
    requires Ranked(c) && KeyVal(c, u, Vis(s)) == KeyVal(c, v, Vis(s)) && UserSame(c, u, v, s)
    ensures VisVal(c, u, s) == VisVal(c, v, s)
    ensures UserTri(u, s, VisVal(c, u, s)) == UserTri(v, s, VisVal(c, v, s))
    ensures UserStr(u, s, VisVal(c, u, s)) == UserStr(v, s, VisVal(c, v, s))
    ensures UserTri(u, s, VisVal(c, u, s)) || UserStr(u, s, VisVal(c, u, s)) ==>
              s in u && s in v && u[s] == v[s]
  {
    hide Ranked, VisVal;
    if s in c.defs ==> c.defs[s].prompts == [] {
      PromptlessInvisible(c, u, s);
    }
  }

  lemma WeakTriAgree(c: Config, u: User, v: User, s: Name)
    requires Ranked(c) && s in c.defs && c.defs[s].preset == None
    requires UserSame(c, u, v, s) && Same(c, u, v, WeakTriReads(c, u, s))
    ensures WeakTri(c, u, s) == WeakTri(c, v, s)
    ensures WeakTriReads(c, u, s) == WeakTriReads(c, v, s)
  {
    hide VisVal, StrVal, TriVal, Val, Reads, KeyVal, DefaultTri, DefaultTriReads, UserTri, UserSame;
    var d := c.defs[s];
    assert KeyVal(c, u, Vis(s)) == KeyVal(c, v, Vis(s));
    VisKey(c, u, v, s);
    if !UserTri(u, s, VisVal(c, u, s)) {
      DefaultTriAgree(c, u, v, d.defaults, RankOf(c, s));
      ExprAgree(c, u, v, d.weakRevDep);
      if Val(c, u, d.weakRevDep) != 0 { ExprAgree(c, u, v, d.directDep); }
    }
  }

  lemma RawTriAgree(c: Config, u: User, v: User, s: Name)
    requires Ranked(c) && s in c.defs && c.defs[s].preset == None
    requires UserSame(c, u, v, s) && Same(c, u, v, RawTriReads(c, u, s))
    ensures RawTri(c, u, s) == RawTri(c, v, s)
    ensures RawTriReads(c, u, s) == RawTriReads(c, v, s)
  {
    hide Ranked, Val, Reads, KeyVal, WeakTri, WeakTriReads, UserSame;
    var d := c.defs[s];
    WeakTriAgree(c, u, v, s);
    ExprAgree(c, u, v, d.revDep);
    if Val(c, u, d.revDep) != 0 { ExprAgree(c, u, v, d.directDep); }
  }

  lemma TriAgree(c: Config, u: User, v: User, s: Name)
    requires Ranked(c) && UserSame(c, u, v, s) && Same(c, u, v, TriReads(c, u, s))
    ensures TriVal(c, u, s) == TriVal(c, v, s)
    ensures TriReads(c, u, s) == TriReads(c, v, s)
  {
    hide Ranked, Val, Reads, KeyVal, RawTri, RawTriReads, UserSame, StaysTristate, TypeReads;
    if s in c.defs && c.defs[s].preset == None && Logical(c.defs[s].kind) {
      RawTriAgree(c, u, v, s);
      if RawTri(c, u, s) == 1 {
        TypeAgree(c, u, v, s);
        if StaysTristate(c, u, s) { ExprAgree(c, u, v, c.defs[s].weakRevDep); }
      }
    }
  }

  lemma StrAgree(c: Config, u: User, v: User, s: Name)
    requires Ranked(c) && UserSame(c, u, v, s) && Same(c, u, v, StrReads(c, u, s))
    ensures StrVal(c, u, s) == StrVal(c, v, s)
    ensures StrReads(c, u, s) == StrReads(c, v, s)
  {
    hide VisVal, TriVal, Val, Reads, UserSame, DefaultStr, DefaultStrReads, ActiveRange, RangeReads;
    if s in c.defs {
      var d := c.defs[s];
      if Logical(d.kind) {
        assert KeyVal(c, u, TriOf(s)) == KeyVal(c, v, TriOf(s));
      } else if d.kind != Unknown {
        assert KeyVal(c, u, Vis(s)) == KeyVal(c, v, Vis(s));
        VisKey(c, u, v, s);
        if d.kind == Str {
          if !UserStr(u, s, VisVal(c, u, s)) { DefaultStrAgree(c, u, v, d.defaults, RankOf(c, s)); }
        } else {
          RangeAgree(c, u, v, d.ranges, Base(d.kind), RankOf(c, s));
          var range := ActiveRange(c, u, d.ranges, Base(d.kind), RankOf(c, s));
          if !UserNumber(c, u, s, VisVal(c, u, s), Base(d.kind), range) {
            DefaultStrAgree(c, u, v, d.defaults, RankOf(c, s));
          }
        }
      }
    }
  }

  lemma AsgAgree(c: Config, u: User, v: User, s: Name)
    requires Ranked(c) && UserSame(c, u, v, s) && Same(c, u, v, AsgReads(c, u, s))
    ensures AsgVal(c, u, s) == AsgVal(c, v, s)
    ensures AsgReads(c, u, s) == AsgReads(c, v, s)
  {
    hide Ranked, VisVal, Val, Reads, UserSame, StaysTristate, TypeReads;
    if s in c.defs && c.defs[s].preset == None && Logical(c.defs[s].kind) {
      var d, vis := c.defs[s], VisVal(c, u, s);
      assert KeyVal(c, u, Vis(s)) == KeyVal(c, v, Vis(s));
      if vis != 0 {
        ExprAgree(c, u, v, d.revDep);
        if vis == 2 && Val(c, u, d.revDep) != 2 {
          TypeAgree(c, u, v, s);
          if StaysTristate(c, u, s) { ExprAgree(c, u, v, d.weakRevDep); }
        } else if vis == 1 && Val(c, u, d.revDep) == 0 {
          ExprAgree(c, u, v, d.weakRevDep);
        }
      }
    }
  }

  /** Evaluation of one key depends on the keys it consults and on nothing else. */
  lemma KeyAgree(c: Config, u: User, v: User, k: Key)
    requires Ranked(c) && UserSame(c, u, v, k.s) && Same(c, u, v, KeyReads(c, u, k))
    ensures KeyVal(c, u, k) == KeyVal(c, v, k)
    ensures KeyReads(c, u, k) == KeyReads(c, v, k)
  {
    hide Ranked, VisVal, TriVal, StrVal, AsgVal, VisReads, TriReads, StrReads, AsgReads, UserSame;
    match k
    case Vis(s) => VisAgree(c, u, v, s);
    case TriOf(s) => TriAgree(c, u, v, s);
    case StrOf(s) => StrAgree(c, u, v, s);
    case Asg(s) => AsgAgree(c, u, v, s);
  }
}
