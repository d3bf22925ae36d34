/**
 What values mean to the writer of a Kconfig file: the relations, the first active default
 and range, limits of numbers, and what selects, prompts and settings do to a value.
 */
module KconfigLaws {
  import opened Basics
  import opened KconfigEval
  import opened KconfigAgree
  import opened KconfigDeps
  import opened KconfigAssign

  // ---------------------------------------------------------------- expressions

  /** Conjunction is the minimum and disjunction the maximum, whichever side is skipped. */
  lemma Connectives(c: Config, u: User, l: Expr, r: Expr)
    requires Ranked(c)
    ensures Val(c, u, And(l, r)) <= Val(c, u, l) && Val(c, u, And(l, r)) <= Val(c, u, r)
    ensures Val(c, u, And(l, r)) == Val(c, u, l) || Val(c, u, And(l, r)) == Val(c, u, r)
    ensures Val(c, u, Or(l, r)) >= Val(c, u, l) && Val(c, u, Or(l, r)) >= Val(c, u, r)
    ensures Val(c, u, Or(l, r)) == Val(c, u, l) || Val(c, u, Or(l, r)) == Val(c, u, r)
    ensures Val(c, u, Not(l)) + Val(c, u, l) == 2
  {
    hide Ranked, TriVal, StrVal, Num, Holds, Strcmp;
  }

  /** De Morgan's laws and the laws of order. */
  lemma ConnectiveLaws(c: Config, u: User, l: Expr, r: Expr)
    requires Ranked(c)
    ensures Val(c, u, Not(And(l, r))) == Val(c, u, Or(Not(l), Not(r)))
    ensures Val(c, u, And(l, r)) == Val(c, u, And(r, l)) && Val(c, u, Or(l, r)) == Val(c, u, Or(r, l))
    ensures Val(c, u, Not(Not(l))) == Val(c, u, l)
  {
    hide Ranked, Val;
    Connectives(c, u, l, r);
    Connectives(c, u, r, l);
    Connectives(c, u, And(l, r), r);
    Connectives(c, u, Not(l), Not(r));
    Connectives(c, u, Not(r), Not(l));
  }

  predicate Relates(rel: Rel, x: int, y: int) {
    match rel
    case Equal => x == y
    case Unequal => x != y
    case Less => x < y
    case LessEqual => x <= y
    case Greater => x > y
    case GreaterEqual => x >= y
  }

  // n, m and y are 0, 1 and 2; int and hex symbols have decimal and hexadecimal numbers
  ghost function NumberOf(c: Config, u: User, s: Name): Option<int>
    requires Ranked(c)
  {
    match Def(c, s).kind
    case Bool | Tristate => Some(TriVal(c, u, s) as int)
    case Int => c.num.parse(StrVal(c, u, s), 10)
    case Hex => c.num.parse(StrVal(c, u, s), 16)
    case Str | Unknown => c.num.parse(StrVal(c, u, s), 0)
  }

  /** A relation between symbols that are numbers is the relation between the numbers. */
  lemma NumbersCompare(c: Config, u: User, rel: Rel, a: Name, b: Name)
    requires Ranked(c) && !(Def(c, a).kind == Str && Def(c, b).kind == Str)
    requires NumberOf(c, u, a).Some? && NumberOf(c, u, b).Some?
    ensures Val(c, u, Compare(rel, a, b)) ==
      if Relates(rel, NumberOf(c, u, a).value, NumberOf(c, u, b).value) then 2 else 0
  {
    hide Ranked, TriVal, StrVal;
  }

  // s comes before t: at the first place where they differ it has ended, or has the lower character
  ghost predicate Precedes(s: string, t: string) {
    exists k :: 0 <= k <= |s| && k <= |t| && DiffersAt(s, t, k)
  }

  predicate DiffersAt(s: string, t: string, k: nat)
    requires k <= |s| && k <= |t|
  {
    s[..k] == t[..k] && k < |t| && (k == |s| || s[k] < t[k])
  }

  lemma {:induction false} StringOrder(s: string, t: string)
    ensures Strcmp(s, t) < 0 <==> Precedes(s, t)
    ensures Strcmp(s, t) == 0 <==> s == t
    ensures Strcmp(s, t) == -Strcmp(t, s)
    decreases |s|
  {
    if s == [] || t == [] {
      if t != [] { assert DiffersAt(s, t, 0); }
    } else if s[0] != t[0] {
      if s[0] < t[0] { assert DiffersAt(s, t, 0); }
      forall k | 0 < k <= |s| && k <= |t| ensures s[..k] != t[..k] { assert s[..k][0] != t[..k][0]; }
    } else {
      StringOrder(s[1..], t[1..]);
      PrecedesOn(s, t);
      assert s == [s[0]] + s[1..] && t == [t[0]] + t[1..];
    }
  }

  lemma PrecedesOn(s: string, t: string)
    requires s != [] && t != [] && s[0] == t[0]
    ensures Precedes(s, t) <==> Precedes(s[1..], t[1..])
  {
    var a, b := s[1..], t[1..];
    forall k | 0 <= k <= |a| && k <= |b| ensures DiffersAt(a, b, k) <==> DiffersAt(s, t, k + 1) {
      assert s[..k + 1] == [s[0]] + a[..k] && t[..k + 1] == [t[0]] + b[..k];
      assert s[..k + 1][1..] == a[..k] && t[..k + 1][1..] == b[..k];
    }
    if k :| 0 <= k <= |s| && k <= |t| && DiffersAt(s, t, k) { assert DiffersAt(a, b, k - 1); }
    if k :| 0 <= k <= |a| && k <= |b| && DiffersAt(a, b, k) { assert DiffersAt(s, t, k + 1); }
  }

  ghost predicate StringsRelate(rel: Rel, s: string, t: string) {
    match rel
    case Equal => s == t
    case Unequal => s != t
    case Less => Precedes(s, t)
    case LessEqual => s == t || Precedes(s, t)
    case Greater => Precedes(t, s)
    case GreaterEqual => s == t || Precedes(t, s)
  }

  /** Between two strings, or where one is no number, it is that of the strings' order. */
  lemma StringsCompare(c: Config, u: User, rel: Rel, a: Name, b: Name)
    requires Ranked(c)
    requires (Def(c, a).kind == Str && Def(c, b).kind == Str) || NumberOf(c, u, a).None? || NumberOf(c, u, b).None?
    ensures Val(c, u, Compare(rel, a, b)) == if StringsRelate(rel, StrVal(c, u, a), StrVal(c, u, b)) then 2 else 0
  {
    hide Ranked, TriVal, StrVal, Strcmp, Precedes;
    StringOrder(StrVal(c, u, a), StrVal(c, u, b));
    StringOrder(StrVal(c, u, b), StrVal(c, u, a));
  }

  /** The laws between the relations. */
  lemma RelationLaws(c: Config, u: User, a: Name, b: Name)
    requires Ranked(c)
    ensures Val(c, u, Compare(Less, a, b)) == Val(c, u, Compare(Greater, b, a))
    ensures Val(c, u, Compare(LessEqual, a, b)) == Val(c, u, Compare(GreaterEqual, b, a))
    ensures Val(c, u, Compare(Equal, a, b)) == Val(c, u, Compare(Equal, b, a))
    ensures Val(c, u, Compare(LessEqual, a, b)) == Val(c, u, Not(Compare(Greater, a, b)))
    ensures Val(c, u, Compare(GreaterEqual, a, b)) == Val(c, u, Not(Compare(Less, a, b)))
    ensures Val(c, u, Compare(Unequal, a, b)) == Val(c, u, Not(Compare(Equal, a, b)))
    ensures Val(c, u, Compare(LessEqual, a, b)) == Val(c, u, Or(Compare(Less, a, b), Compare(Equal, a, b)))
  {
    hide Ranked, TriVal, StrVal, Holds, Num, Strcmp, Precedes;
    forall rel: Rel
      ensures Decided(c, u, rel, a, b) && Decided(c, u, rel, b, a)
    {
      Decide(c, u, rel, a, b);
      Decide(c, u, rel, b, a);
    }
    StringOrder(StrVal(c, u, a), StrVal(c, u, b));
    StringOrder(StrVal(c, u, b), StrVal(c, u, a));
    assert Decided(c, u, Less, a, b) && Decided(c, u, LessEqual, a, b) && Decided(c, u, Greater, a, b);
    assert Decided(c, u, GreaterEqual, a, b) && Decided(c, u, Equal, a, b) && Decided(c, u, Unequal, a, b);
    assert Decided(c, u, Greater, b, a) && Decided(c, u, GreaterEqual, b, a) && Decided(c, u, Equal, b, a);
  }

  // What the relation is between
  ghost predicate Decided(c: Config, u: User, rel: Rel, a: Name, b: Name)
    requires Ranked(c)
  {
    var x, y := NumberOf(c, u, a), NumberOf(c, u, b);
    var holds := if !(Def(c, a).kind == Str && Def(c, b).kind == Str) && x.Some? && y.Some? then Relates(rel, x.value, y.value)
                 else StringsRelate(rel, StrVal(c, u, a), StrVal(c, u, b));
    Val(c, u, Compare(rel, a, b)) == if holds then 2 else 0
  }

  lemma Decide(c: Config, u: User, rel: Rel, a: Name, b: Name)
    requires Ranked(c)
    ensures Decided(c, u, rel, a, b)
  {
    hide Ranked, Val, StrVal, TriVal, Precedes;
    var x, y := NumberOf(c, u, a), NumberOf(c, u, b);
    if !(Def(c, a).kind == Str && Def(c, b).kind == Str) && x.Some? && y.Some? {
      NumbersCompare(c, u, rel, a, b);
    } else {
      StringsCompare(c, u, rel, a, b);
    }
  }

  // ---------------------------------------------------------------- defaults, ranges and prompts

  // The condition of the i-th is the first that is not n
  ghost predicate FirstActive(c: Config, u: User, conds: seq<Expr>, i: nat)
    requires Ranked(c)
  {
    i < |conds| && Val(c, u, conds[i]) != 0 && forall j :: 0 <= j < i ==> Val(c, u, conds[j]) == 0
  }

  ghost predicate NoneActive(c: Config, u: User, conds: seq<Expr>)
    requires Ranked(c)
  {
    forall j :: 0 <= j < |conds| ==> Val(c, u, conds[j]) == 0
  }

  function Conds(ds: seq<Default>): (r: seq<Expr>)
    ensures |r| == |ds| && forall i :: 0 <= i < |ds| ==> r[i] == ds[i].cond
  {
    seq(|ds|, i requires 0 <= i < |ds| => ds[i].cond)
  }

  function RangeConds(rs: seq<Range>): (r: seq<Expr>)
    ensures |r| == |rs| && forall i :: 0 <= i < |rs| ==> r[i] == rs[i].cond
  {
    seq(|rs|, i requires 0 <= i < |rs| => rs[i].cond)
  }

  /** The value from the defaults is that of the first active one, limited by its condition. */
  lemma {:induction false} DefaultIs(c: Config, u: User, ds: seq<Default>, b: nat, i: nat)
    requires Ranked(c) && forall j {:trigger ds[j]} :: 0 <= j < |ds| ==> PairBelow(c, ds[j], b)
    ensures FirstActive(c, u, Conds(ds), i) ==>
      var v, w := Val(c, u, ds[i].value), Val(c, u, ds[i].cond);
      DefaultTri(c, u, ds, b) == if v < w then v else w
    ensures NoneActive(c, u, Conds(ds)) ==> DefaultTri(c, u, ds, b) == 0
    decreases |ds|
  {
    hide Ranked, Val;
    if ds != [] && Val(c, u, ds[0].cond) == 0 {
      DefaultIs(c, u, ds[1..], b, if i > 0 then i - 1 else 0);
      assert Conds(ds)[0] == ds[0].cond;
      assert forall j :: 0 <= j < |ds| - 1 ==> Conds(ds[1..])[j] == Conds(ds)[j + 1];
    } else if ds != [] {
      assert Conds(ds)[0] == ds[0].cond;
    }
  }

  lemma {:induction false} DefaultTextIs(c: Config, u: User, ds: seq<Default>, b: nat, i: nat)
    requires Ranked(c)
    requires forall j {:trigger ds[j]} :: 0 <= j < |ds| ==> PairBelow(c, ds[j], b) && IsSym(ds[j].value)
    ensures FirstActive(c, u, Conds(ds), i) ==>
      ds[i].value.Sym? && DefaultStr(c, u, ds, b) == Some(StrVal(c, u, ds[i].value.name))
    ensures NoneActive(c, u, Conds(ds)) ==> DefaultStr(c, u, ds, b) == None
    decreases |ds|
  {
    hide Ranked, Val, StrVal;
    if ds != [] && Val(c, u, ds[0].cond) == 0 {
      DefaultTextIs(c, u, ds[1..], b, if i > 0 then i - 1 else 0);
      assert Conds(ds)[0] == ds[0].cond;
      assert forall j :: 0 <= j < |ds| - 1 ==> Conds(ds[1..])[j] == Conds(ds)[j + 1];
    } else if ds != [] {
      assert Conds(ds)[0] == ds[0].cond && IsSym(ds[0].value);
    }
  }

  /** The active range is the first whose condition holds; texts that are no numbers count as 0. */
  lemma {:induction false} RangeIs(c: Config, u: User, rs: seq<Range>, base: nat, b: nat, i: nat)
    requires Ranked(c) && forall j {:trigger rs[j]} :: 0 <= j < |rs| ==> RangeBelow(c, rs[j], b)
    ensures FirstActive(c, u, RangeConds(rs), i) ==>
      ActiveRange(c, u, rs, base, b) ==
        Some((Number(c, StrVal(c, u, rs[i].low), base), Number(c, StrVal(c, u, rs[i].high), base)))
    ensures NoneActive(c, u, RangeConds(rs)) ==> ActiveRange(c, u, rs, base, b) == None
    decreases |rs|
  {
    hide Ranked, Val, StrVal;
    if rs != [] && Val(c, u, rs[0].cond) == 0 {
      RangeIs(c, u, rs[1..], base, b, if i > 0 then i - 1 else 0);
      assert RangeConds(rs)[0] == rs[0].cond;
      assert forall j :: 0 <= j < |rs| - 1 ==> RangeConds(rs[1..])[j] == RangeConds(rs)[j + 1];
    } else if rs != [] {
      assert RangeConds(rs)[0] == rs[0].cond;
    }
  }

  /** The visibility from the prompts is the highest of their conditions. */
  lemma {:induction false} PromptsHighest(c: Config, u: User, ps: seq<Expr>, b: nat)
    requires Ranked(c) && forall i {:trigger ps[i]} :: 0 <= i < |ps| ==> ExprRank(c, ps[i]) <= b
    ensures forall i :: 0 <= i < |ps| ==> Val(c, u, ps[i]) <= Prompts(c, u, ps, b)
    ensures if ps == [] then Prompts(c, u, ps, b) == 0 else exists i :: 0 <= i < |ps| && Val(c, u, ps[i]) == Prompts(c, u, ps, b)
    decreases |ps|
  {
    hide Ranked, Val;
    if ps != [] {
      var qs := ps[..|ps| - 1];
      PromptsHighest(c, u, qs, b);
      assert forall i :: 0 <= i < |qs| ==> qs[i] == ps[i];
      if Prompts(c, u, qs, b) > Val(c, u, ps[|ps| - 1]) {
        var i :| 0 <= i < |qs| && Val(c, u, qs[i]) == Prompts(c, u, qs, b);
        assert Val(c, u, ps[i]) == Prompts(c, u, ps, b);
      } else {
        assert Val(c, u, ps[|ps| - 1]) == Prompts(c, u, ps, b);
      }
    }
  }

  /** A symbol is visible at the highest of its prompts' conditions, at y instead of m unless it
      is a tristate and MODULES is not n. */
  lemma VisibilityIs(c: Config, u: User, s: Name, i: nat)
    requires Ranked(c) && Defined(c, s)
    ensures c.defs[s].prompts == [] ==> VisVal(c, u, s) == 0
    ensures var ps := c.defs[s].prompts;
      i < |ps| && (forall j :: 0 <= j < |ps| ==> Val(c, u, ps[j]) <= Val(c, u, ps[i])) ==>
        var v := Val(c, u, ps[i]);
        VisVal(c, u, s) == if v == 1 && (c.defs[s].kind != Tristate || TriVal(c, u, c.modules) == 0) then 2 else v
  {
    hide Val, Prompts, TriVal;
    PromptsHighest(c, u, c.defs[s].prompts, RankOf(c, s));
  }

  // ---------------------------------------------------------------- values

  /** A symbol is never below what selects it; and it is never m if it is a bool, while MODULES
      is n, or if it is implied at y. */
  lemma ValueLimits(c: Config, u: User, s: Name)
    requires Ranked(c) && Defined(c, s) && Logical(c.defs[s].kind)
    ensures TriVal(c, u, s) >= Val(c, u, c.defs[s].revDep)
    ensures c.defs[s].kind == Bool || TriVal(c, u, c.modules) == 0 || Val(c, u, c.defs[s].weakRevDep) == 2 ==> TriVal(c, u, s) != 1
    ensures c.defs[s].kind == Bool || TriVal(c, u, c.modules) == 0 ==> VisVal(c, u, s) != 1
  {
    hide Val, Prompts, WeakTri;
  }

  /** Where no setting applies, the value is the highest of what the defaults, the selects and,
      while the symbol's dependencies hold, the implications ask for; m is raised to y where the
      symbol cannot be m or an implication is at y. */
  lemma ValueUnset(c: Config, u: User, s: Name, v: Tri)
    requires Ranked(c) && Defined(c, s) && Logical(c.defs[s].kind) && (s !in u || VisVal(c, u, s) == 0)
    requires var d, r := DefaultTri(c, u, c.defs[s].defaults, RankOf(c, s)), Val(c, u, c.defs[s].revDep);
      var w := if Val(c, u, c.defs[s].directDep) == 0 then 0 else Val(c, u, c.defs[s].weakRevDep);
      v >= d && v >= r && v >= w && (v == d || v == r || v == w)
    ensures TriVal(c, u, s) ==
      if v == 1 && (c.defs[s].kind == Bool || TriVal(c, u, c.modules) == 0 || Val(c, u, c.defs[s].weakRevDep) == 2) then 2 else v
  {
    hide Val, VisVal, DefaultTri;
    var w := if Val(c, u, c.defs[s].directDep) == 0 then 0 else Val(c, u, c.defs[s].weakRevDep);
    assert WeakTri(c, u, s) == Max(DefaultTri(c, u, c.defs[s].defaults, RankOf(c, s)), w);
    assert RawTri(c, u, s) == v;
  }

  /** The text of a bool or tristate symbol names its value; a symbol without a type is called
      what it is, and so are the constants. */
  lemma PlainTexts(c: Config, u: User, s: Name)
    requires Ranked(c) && Constants(c)
    ensures Logical(Def(c, s).kind) ==> StrVal(c, u, s) == ["n", "m", "y"][TriVal(c, u, s)]
    ensures Def(c, s).kind == Unknown ==> StrVal(c, u, s) == s
    ensures StrVal(c, u, "n") == "n" && StrVal(c, u, "m") == "m" && StrVal(c, u, "y") == "y"
  {
    hide Ranked, TriVal;
    ConstantValues(c, u);
  }

  // Texts and numbers of the limits belong together
  predicate Renders(c: Config, n: int, base: nat) {
    Number(c, c.num.render(n, base), base) == n
  }

  /** A number lies in the active range, whether it was set, comes from a default or from
      neither; it is the text set if that applies, and else the default's if that is in the
      range. */
  lemma NumberInRange(c: Config, u: User, s: Name, low: int, high: int)
    requires Ranked(c) && Defined(c, s) && (c.defs[s].kind == Int || c.defs[s].kind == Hex)
    requires var base := if c.defs[s].kind == Hex then 16 else 10;
      ActiveRange(c, u, c.defs[s].ranges, base, RankOf(c, s)) == Some((low, high)) && low <= high
      && Renders(c, low, base) && Renders(c, high, base) && Number(c, "", base) == 0
    ensures var base := if c.defs[s].kind == Hex then 16 else 10;
      low <= Number(c, StrVal(c, u, s), base) <= high
  {
    hide VisVal, ActiveRange, DefaultStr, Val;
  }

  // The user's text for s, if there is one that counts: the symbol is visible
  ghost function Typed(c: Config, u: User, s: Name): Option<string>
    requires Ranked(c)
  {
    if VisVal(c, u, s) != 0 && s in u && u[s].UStr? then Some(u[s].s) else None
  }

  /** A string symbol has the text typed for it while it is visible, and else that of the first
      active default. */
  lemma TextIs(c: Config, u: User, s: Name)
    requires Ranked(c) && Defined(c, s) && c.defs[s].kind == Str
    ensures Typed(c, u, s).Some? ==> StrVal(c, u, s) == Typed(c, u, s).value
    ensures Typed(c, u, s).None? ==>
      StrVal(c, u, s) ==
        match DefaultStr(c, u, c.defs[s].defaults, RankOf(c, s)) case Some(t) => t case None => ""
  {
    hide VisVal, DefaultStr, Val;
  }

  /** A number symbol has the text typed for it while it is visible, if that is not empty and
      lies in the active range; otherwise the default's, or the nearer end of the range. */
  lemma NumberTextIs(c: Config, u: User, s: Name)
    requires Ranked(c) && Defined(c, s) && (c.defs[s].kind == Int || c.defs[s].kind == Hex)
    ensures var base := if c.defs[s].kind == Hex then 16 else 10;
      var range, t := ActiveRange(c, u, c.defs[s].ranges, base, RankOf(c, s)), Typed(c, u, s);
      var fits := t.Some? && t.value != "" && (range.Some? ==> range.value.0 <= Number(c, t.value, base) <= range.value.1);
      var def := match DefaultStr(c, u, c.defs[s].defaults, RankOf(c, s)) case Some(d) => (d, Number(c, d, base)) case None => ("", 0);
      && (fits ==> StrVal(c, u, s) == t.value)
      && (!fits && (range.None? || range.value.0 <= def.1 <= range.value.1) ==> StrVal(c, u, s) == def.0)
      && (!fits && range.Some? && def.1 < range.value.0 ==> StrVal(c, u, s) == c.num.render(range.value.0, base))
      && (!fits && range.Some? && range.value.0 <= def.1 && range.value.1 < def.1 ==>
            StrVal(c, u, s) == c.num.render(range.value.1, base))
  {
    hide VisVal, ActiveRange, DefaultStr, Val;
  }
}
