/**
 What assignable promises: it lists the values that the symbol really takes when the user
 sets them.
 */
module KconfigAssign {
  import opened Basics
  import opened KconfigEval
  import opened KconfigAgree
  import opened KconfigDeps

  // The user sets s to t
  function With(u: User, s: Name, t: Tri): User {
    u[s := UTri(t)]
  }

  // ---------------------------------------------------------------- what a setting can reach

  /** A change of one symbol's user value changes nothing ranked below it, nor its own
      visibility. */
  lemma {:induction false} BelowSame(c: Config, u: User, v: User, s: Name, k: Key)
    requires Ranked(c) && (RankOf(c, k.s) < RankOf(c, s) || k == Vis(s))
    requires forall n :: n != s ==> UserSame(c, u, v, n)
    ensures KeyVal(c, u, k) == KeyVal(c, v, k)
    decreases RankOf(c, k.s), Tag(k)
  {
    hide Ranked, KeyVal, KeyReads, MayRead, UserSame;
    forall r | r in KeyReads(c, u, k)
      ensures KeyVal(c, u, r) == KeyVal(c, v, r)
    {
      ReadsBelow(c, u, k, r);
      BelowSame(c, u, v, s, r);
    }
    if k == Vis(s) {
      VisSame(c, u, v, s);
    } else {
      KeyAgree(c, u, v, k);
    }
  }

  /** So setting a symbol changes nothing ranked below it, nor its own visibility. */
  lemma BelowUnchanged(c: Config, u: User, s: Name, t: Tri, k: Key)
    requires Ranked(c) && (RankOf(c, k.s) < RankOf(c, s) || k == Vis(s))
    ensures KeyVal(c, u, k) == KeyVal(c, With(u, s, t), k)
  {
    hide Ranked, KeyVal, RankOf;
    BelowSame(c, u, With(u, s, t), s, k);
  }

  lemma ReadsBelow(c: Config, u: User, k: Key, r: Key)
    requires Ranked(c) && r in KeyReads(c, u, k)
    ensures Lower(c, r, k) && (k.Vis? ==> RankOf(c, r.s) < RankOf(c, k.s))
  {
    hide Ranked, KeyReads;
    KeyMayRead(c, u, k);
    assert MayRead(c, k, r);
  }

  lemma VisSame(c: Config, u: User, v: User, s: Name)
    requires Ranked(c) && Same(c, u, v, KeyReads(c, u, Vis(s)))
    ensures KeyVal(c, u, Vis(s)) == KeyVal(c, v, Vis(s))
  {
    hide Ranked, VisVal, VisReads;
    VisAgree(c, u, v, s);
  }

  lemma ExprUnchanged(c: Config, u: User, s: Name, t: Tri, e: Expr)
    requires Ranked(c) && ExprRank(c, e) <= RankOf(c, s)
    ensures Val(c, u, e) == Val(c, With(u, s, t), e)
  {
    hide Ranked, Val, Reads, KeyVal, ExprRank;
    forall r | r in Reads(c, u, e)
      ensures KeyVal(c, u, r) == KeyVal(c, With(u, s, t), r)
    {
      ReadsNamed(c, u, e, r);
      BelowUnchanged(c, u, s, t, r);
    }
    ExprAgree(c, u, With(u, s, t), e);
  }

  lemma TypeUnchanged(c: Config, u: User, s: Name, t: Tri)
    requires Ranked(c)
    ensures StaysTristate(c, u, s) == StaysTristate(c, With(u, s, t), s)
  {
    hide TriVal;
    if s in c.defs && c.defs[s].kind == Tristate && c.defs[s].preset == None {
      BelowUnchanged(c, u, s, t, TriOf(c.modules));
    }
  }

  // ---------------------------------------------------------------- assignable

  // Visible at m, selected at m and implied at y
  ghost predicate Torn(c: Config, u: User, s: Name)
    requires Ranked(c) && Defined(c, s)
  {
    VisVal(c, u, s) == 1 && Val(c, u, c.defs[s].revDep) == 1 && Val(c, u, c.defs[s].weakRevDep) == 2
  }

  // The value a visible symbol takes when it is set to t
  lemma ValueWhenSet(c: Config, u: User, s: Name, t: Tri)
    requires Ranked(c) && Defined(c, s) && Logical(c.defs[s].kind) && VisVal(c, u, s) != 0
    ensures var d := c.defs[s];
            var v := Max(Val(c, u, d.revDep), Min(t, VisVal(c, u, s)));
            TriVal(c, With(u, s, t), s) ==
            if v == 1 && (!StaysTristate(c, u, s) || Val(c, u, d.weakRevDep) == 2) then 2 else v
  {
    BelowUnchanged(c, u, s, t, Vis(s));
    TypeUnchanged(c, u, s, t);
    ExprUnchanged(c, u, s, t, c.defs[s].revDep);
    ExprUnchanged(c, u, s, t, c.defs[s].weakRevDep);
    SetCounts(c, u, s, t);
  }

  lemma SetCounts(c: Config, u: User, s: Name, t: Tri)
    requires Ranked(c) && Defined(c, s)
    requires VisVal(c, With(u, s, t), s) != 0
    ensures WeakTri(c, With(u, s, t), s) == Min(t, VisVal(c, With(u, s, t), s))
  {
    hide VisVal, Val, Ranked;
  }

  lemma VisibleAtM(c: Config, u: User, s: Name)
    requires Ranked(c) && VisVal(c, u, s) == 1
    ensures StaysTristate(c, u, s)
  {
    hide TriVal, Prompts;
  }

  /** For a visible bool or tristate symbol the assignable values are exactly those the
      symbol takes when it is set to them, unless it is torn. */
  lemma AssignableRespected(c: Config, u: User, s: Name, t: Tri)
    requires Ranked(c) && Defined(c, s) && Logical(c.defs[s].kind) && VisVal(c, u, s) != 0 && !Torn(c, u, s)
    ensures t in AsgVal(c, u, s) <==> TriVal(c, With(u, s, t), s) == t
  {
    ValueWhenSet(c, u, s, t);
    if VisVal(c, u, s) == 1 { VisibleAtM(c, u, s); }
    hide VisVal, TriVal, Val, Ranked, StaysTristate;
  }

  /** A torn symbol offers m and takes y, whatever it is set to. */
  lemma TornOffersM(c: Config, u: User, s: Name, t: Tri)
    requires Ranked(c) && Defined(c, s) && Logical(c.defs[s].kind) && Torn(c, u, s)
    ensures AsgVal(c, u, s) == [1] && TriVal(c, With(u, s, t), s) == 2
  {
    ValueWhenSet(c, u, s, t);
    VisibleAtM(c, u, s);
  }

  /** Something can be assigned to a symbol exactly while it is a visible bool or tristate one;
      the values are given in order. */
  lemma AssignableWhen(c: Config, u: User, s: Name)
    requires Ranked(c) && Defined(c, s)
    ensures AsgVal(c, u, s) == [] <==> !Logical(c.defs[s].kind) || VisVal(c, u, s) == 0
    ensures forall i, j :: 0 <= i < j < |AsgVal(c, u, s)| ==> AsgVal(c, u, s)[i] < AsgVal(c, u, s)[j]
  {
    hide Ranked, VisVal, Val, StaysTristate;
  }

  /** So the promise holds for a visible symbol if and only if it is not torn. */
  lemma AssignableExact(c: Config, u: User, s: Name)
    requires Ranked(c) && Defined(c, s) && Logical(c.defs[s].kind) && VisVal(c, u, s) != 0
    ensures (forall t: Tri :: t in AsgVal(c, u, s) <==> TriVal(c, With(u, s, t), s) == t) <==> !Torn(c, u, s)
  {
    hide Ranked, VisVal, AsgVal, TriVal, Torn;
    if Torn(c, u, s) {
      TornOffersM(c, u, s, 1);
    } else {
      forall t: Tri
        ensures t in AsgVal(c, u, s) <==> TriVal(c, With(u, s, t), s) == t
      {
        AssignableRespected(c, u, s, t);
      }
    }
  }

  /** The result (0, 1) is returned exactly for a symbol visible at m that nothing selects
      and nothing implies at y. */
  lemma NOrM(c: Config, u: User, s: Name)
    requires Ranked(c)
    ensures AsgVal(c, u, s) == [0, 1] <==>
      Defined(c, s) && Logical(c.defs[s].kind) && VisVal(c, u, s) == 1
      && Val(c, u, c.defs[s].revDep) == 0 && Val(c, u, c.defs[s].weakRevDep) != 2
  {
    hide Ranked, VisVal, Val, StaysTristate;
  }

  // ---------------------------------------------------------------- an example

  // A symbol without prompt, dependencies or selects, with one unconditional default
  function Defaulted(kind: Kind, value: Expr): SymDef {
    SymDef(kind, None, [], [Default(value, Sym("y"))], [], Sym("n"), Sym("n"), Sym("y"))
  }

  function Preset(t: Tri): SymDef {
    SymDef(Tristate, Some(t), [], [], [], Sym("n"), Sym("n"), Sym("n"))
  }

  // A driver with a prompt at m
  function Driver(rev: Expr, weak: Expr): SymDef {
    SymDef(Tristate, None, [Sym("m")], [], [], rev, weak, Sym("y"))
  }

  /** BUS is m and selects DRIVER, BOARD is y and implies it; nothing selects or implies
      SPARE. */
  function TornExample(num: Numerals): Config {
    Config(map["n" := Preset(0), "m" := Preset(1), "y" := Preset(2),
               "MODULES" := Defaulted(Bool, Sym("y")),
               "BUS" := Defaulted(Tristate, Sym("m")),
               "BOARD" := Defaulted(Bool, Sym("y")),
               "DRIVER" := Driver(Sym("BUS"), Sym("BOARD")),
               "SPARE" := Driver(Sym("n"), Sym("n"))],
           "MODULES", map["MODULES" := 1, "BUS" := 2, "BOARD" := 1, "DRIVER" := 3, "SPARE" := 3], num)
  }

  /** DRIVER is visible at m, selected at m and implied at y. */
  lemma TornHappens(num: Numerals)
    ensures var c := TornExample(num); Ranked(c) && Defined(c, "DRIVER") && Torn(c, map[], "DRIVER")
  {
    hide Ranked;
    var c := TornExample(num);
    ExampleRanked(num);
    ExampleValues(c);
    VisibleDriver(c, "DRIVER", Sym("BUS"), Sym("BOARD"));
  }

  /** SPARE can be set to n and m only. */
  lemma NOrMHappens(num: Numerals)
    ensures var c := TornExample(num); Ranked(c) && AsgVal(c, map[], "SPARE") == [0, 1]
  {
    hide Ranked;
    var c := TornExample(num);
    ExampleRanked(num);
    ExampleValues(c);
    VisibleDriver(c, "SPARE", Sym("n"), Sym("n"));
    NOrM(c, map[], "SPARE");
  }

  ghost predicate Constants(c: Config) {
    && "n" in c.defs && "m" in c.defs && "y" in c.defs
    && c.defs["n"] == Preset(0) && c.defs["m"] == Preset(1) && c.defs["y"] == Preset(2)
  }

  lemma ConstantValues(c: Config, u: User)
    requires Ranked(c) && Constants(c)
    ensures Val(c, u, Sym("n")) == 0 && Val(c, u, Sym("m")) == 1 && Val(c, u, Sym("y")) == 2
  {
    hide Ranked;
  }

  lemma ExampleValues(c: Config)
    requires Ranked(c) && Constants(c) && c.modules == "MODULES"
    requires "MODULES" in c.defs && c.defs["MODULES"] == Defaulted(Bool, Sym("y"))
    requires "BUS" in c.defs && c.defs["BUS"] == Defaulted(Tristate, Sym("m"))
    requires "BOARD" in c.defs && c.defs["BOARD"] == Defaulted(Bool, Sym("y"))
    ensures TriVal(c, map[], "MODULES") == 2 && Val(c, map[], Sym("BUS")) == 1 && Val(c, map[], Sym("BOARD")) == 2
    ensures Val(c, map[], Sym("n")) == 0
  {
    hide Ranked, TriVal;
    ConstantValues(c, map[]);
    DefaultedValue(c, "MODULES", Bool, Sym("y"));
    DefaultedValue(c, "BOARD", Bool, Sym("y"));
    DefaultedValue(c, "BUS", Tristate, Sym("m"));
  }

  lemma DefaultedValue(c: Config, s: Name, kind: Kind, e: Expr)
    requires Ranked(c) && Constants(c) && Logical(kind) && s in c.defs && c.defs[s] == Defaulted(kind, e)
    requires Val(c, map[], Sym("y")) == 2 && Val(c, map[], Sym("n")) == 0
    requires e == Sym("y") || e == Sym("m")
    ensures e == Sym("y") ==> TriVal(c, map[], s) == Val(c, map[], e)
    ensures kind == Tristate && TriVal(c, map[], c.modules) != 0 ==> TriVal(c, map[], s) == Val(c, map[], e)
  {
    ConstantValues(c, map[]);
    var b := RankOf(c, s);
    assert PairBelow(c, c.defs[s].defaults[0], b);
    assert DefaultTri(c, map[], c.defs[s].defaults, b) == Val(c, map[], e);
    assert WeakTri(c, map[], s) == Val(c, map[], e);
  }

  lemma VisibleDriver(c: Config, s: Name, rev: Expr, weak: Expr)
    requires Ranked(c) && Constants(c) && s in c.defs && c.defs[s] == Driver(rev, weak)
    requires TriVal(c, map[], c.modules) == 2
    ensures VisVal(c, map[], s) == 1
  {
    ConstantValues(c, map[]);
    var ps := c.defs[s].prompts;
    assert ps[..|ps| - 1] == [];
    assert Prompts(c, map[], ps, RankOf(c, s)) == 1;
  }

  lemma ExampleRanks(num: Numerals)
    ensures var c := TornExample(num);
      && c.modules == "MODULES" && RankOf(c, "MODULES") == 1 && RankOf(c, "BUS") == 2 && RankOf(c, "BOARD") == 1
      && RankOf(c, "DRIVER") == 3 && RankOf(c, "SPARE") == 3
      && RankOf(c, "n") == RankOf(c, "m") == RankOf(c, "y") == 0
  {
  }

  // The shapes the definitions of the example have
  predicate Shaped(c: Config, s: Name)
    requires s in c.defs
  {
    var d, b := c.defs[s], RankOf(c, s);
    || d == Preset(0) || d == Preset(1) || d == Preset(2)
    || (d == Defaulted(Bool, Sym("y")) && b == 1)
    || (d == Defaulted(Tristate, Sym("m")) && b == 2)
    || (d == Driver(Sym("BUS"), Sym("BOARD")) && b == 3)
    || (d == Driver(Sym("n"), Sym("n")) && b == 3)
  }

  lemma ExampleShaped(num: Numerals)
    ensures var c := TornExample(num); forall s :: s in c.defs ==> Shaped(c, s)
  {
    hide RankOf, Defaulted, Driver, Preset;
    ExampleRanks(num);
  }

  lemma ExampleRanked(num: Numerals)
    ensures Ranked(TornExample(num))
  {
    hide RankOf, DefBelow, TornExample;
    var c := TornExample(num);
    ExampleRanks(num);
    ExampleShaped(num);
    DefaultedBelow(c, Bool, Sym("y"), 1);
    DefaultedBelow(c, Tristate, Sym("m"), 2);
    DriverBelow(c, Sym("BUS"), Sym("BOARD"));
    DriverBelow(c, Sym("n"), Sym("n"));
    assert forall s :: s in c.defs ==> Shaped(c, s);
  }

  lemma DefaultedBelow(c: Config, kind: Kind, e: Expr, b: nat)
    requires ExprRank(c, e) <= b && ExprRank(c, Sym("y")) <= b && ExprRank(c, Sym("n")) <= b
    requires kind == Tristate ==> RankOf(c, c.modules) < b
    ensures DefBelow(c, Defaulted(kind, e), b)
  {
  }

  lemma DriverBelow(c: Config, rev: Expr, weak: Expr)
    requires ExprRank(c, rev) <= 3 && ExprRank(c, weak) <= 3 && ExprRank(c, Sym("y")) <= 3 && ExprRank(c, Sym("m")) <= 3
    requires RankOf(c, c.modules) < 3
    ensures DefBelow(c, Driver(rev, weak), 3)
  {
  }
}
