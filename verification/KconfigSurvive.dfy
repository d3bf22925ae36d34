/**
 Why invalidation is sound although it stops at symbols without a cached visibility, for
 every configuration that the loop check passes, while its MODULES can be evaluated.
 */
module KconfigSurvive {
  import opened Basics
  import opened KconfigEval
  import opened KconfigAgree
  import opened KconfigDeps
  import opened KconfigAssign
  import opened KconfigLoop
  import opened KconfigFuel

  // ---------------------------------------------------------------- other MODULES

  ghost function Answer(c: Config, u: User): Oracle
    requires Ranked(c)
  {
    (r: Key) => Some(KeyVal(c, u, r))
  }

  ghost function AnswerBut(c: Config, u: User, x: Key): Oracle
    requires Ranked(c)
  {
    (r: Key) => if r == x then None else Some(KeyVal(c, u, r))
  }

  // d reads the same values as c wherever c reads
  ghost predicate Alike(c: Config, d: Config, u: User, ks: set<Key>)
    requires Ranked(c) && Ranked(d)
  {
    forall r :: r in ks ==> KeyVal(c, u, r) == KeyVal(d, u, r)
  }

  lemma AlikeRight(c: Config, d: Config, u: User, ks: set<Key>)
    requires Ranked(c) && Ranked(d) && Alike(c, d, u, ks)
    ensures Right(c, u, Answer(d, u), ks) && Answered(Answer(d, u), ks)
  {
    hide Ranked, KeyVal;
  }

  // Whether the type is needed does not depend on MODULES
  lemma NeedsSame(c: Config, d: Config, u: User, k: Key)
    requires Ranked(c) && Ranked(d) && SymbolsOf(c) == SymbolsOf(d) && c.rank == d.rank
    requires Alike(c, d, u, KeyReads(c, u, k))
    ensures NeedsType(c, u, k) <==> NeedsType(d, u, k)
  {
    hide Ranked, Alike;
    if IsTristate(c, k.s) {
      match k
      case Vis(s) => PromptsSame(c, d, u, s);
      case TriOf(s) => RawSame(c, d, u, s);
      case StrOf(_) =>
      case Asg(s) => AsgSame(c, d, u, s);
    }
  }

  lemma PromptsSame(c: Config, d: Config, u: User, s: Name)
    requires Ranked(c) && Ranked(d) && SymbolsOf(c) == SymbolsOf(d) && c.rank == d.rank && Defined(c, s)
    requires Alike(c, d, u, VisReads(c, u, s))
    ensures Prompts(c, u, c.defs[s].prompts, RankOf(c, s)) == Prompts(d, u, d.defs[s].prompts, RankOf(d, s))
  {
    hide Prompts, PromptReads, StepPrompts, KeyVal;
    var ps, o := c.defs[s].prompts, Answer(d, u);
    AlikeRight(c, d, u, PromptReads(c, u, ps));
    AlikeRight(d, d, u, PromptReads(d, u, ps));
    PromptsRight(c, u, ps, RankOf(c, s), o);
    PromptsRight(d, u, ps, RankOf(d, s), o);
  }

  lemma RawSame(c: Config, d: Config, u: User, s: Name)
    requires Ranked(c) && Ranked(d) && SymbolsOf(c) == SymbolsOf(d) && IsTristate(c, s)
    requires Alike(c, d, u, TriReads(c, u, s))
    ensures RawTri(c, u, s) == RawTri(d, u, s)
  {
    hide Ranked, RawTri, RawTriReads, StepRaw, KeyVal, Val, Reads;
    var o := Answer(d, u);
    AlikeRight(c, d, u, RawTriReads(c, u, s));
    AlikeRight(d, d, u, RawTriReads(d, u, s));
    RawRight(c, u, s, o);
    RawRight(d, u, s, o);
  }

  lemma AsgSame(c: Config, d: Config, u: User, s: Name)
    requires Ranked(c) && Ranked(d) && SymbolsOf(c) == SymbolsOf(d) && IsTristate(c, s)
    requires Alike(c, d, u, AsgReads(c, u, s))
    ensures VisVal(c, u, s) == VisVal(d, u, s)
    ensures VisVal(c, u, s) != 0 ==> Val(c, u, c.defs[s].revDep) == Val(d, u, d.defs[s].revDep)
  {
    hide Ranked, VisVal, Val, Reads, StepExpr, StaysTristate;
    assert KeyVal(c, u, Vis(s)) == KeyVal(d, u, Vis(s));
    if VisVal(c, u, s) != 0 {
      var e, o := c.defs[s].revDep, Answer(d, u);
      AlikeRight(c, d, u, Reads(c, u, e));
      AlikeRight(d, d, u, Reads(d, u, e));
      ExprRight(c, u, e, o);
      ExprRight(d, u, e, o);
    }
  }

  /** An evaluation that needs no type gives the same and reads the same under every
      MODULES that gives what it reads the same values. */
  lemma SameStep(c: Config, d: Config, u: User, k: Key)
    requires Ranked(c) && Ranked(d) && SymbolsOf(c) == SymbolsOf(d) && c.rank == d.rank
    requires Alike(c, d, u, KeyReads(c, u, k)) && !NeedsType(c, u, k)
    ensures !NeedsType(d, u, k) && KeyVal(c, u, k) == KeyVal(d, u, k) && KeyReads(c, u, k) == KeyReads(d, u, k)
  {
    hide Ranked, KeyVal, KeyReads, NeedsType, Step, Right;
    NeedsSame(c, d, u, k);
    AlikeRight(c, d, u, KeyReads(c, u, k));
    AlikeRight(d, d, u, KeyReads(d, u, k));
    KeyRight(c, u, "", k, Answer(d, u));
    KeyRight(d, u, "", k, Answer(d, u));
    forall x
      ensures x in KeyReads(c, u, k) <==> x in KeyReads(d, u, k)
    {
      SameRead(c, d, u, k, x);
    }
  }

  // A key is read exactly when there is no value without it
  lemma SameRead(c: Config, d: Config, u: User, k: Key, x: Key)
    requires Ranked(c) && Ranked(d) && SymbolsOf(c) == SymbolsOf(d)
    requires Alike(c, d, u, KeyReads(c, u, k)) && !NeedsType(c, u, k) && !NeedsType(d, u, k)
    ensures x in KeyReads(c, u, k) <==> x in KeyReads(d, u, k)
  {
    hide Ranked, KeyVal, KeyReads, NeedsType, Step;
    var o := AnswerBut(d, u, x);
    KeyRight(c, u, "", k, o);
    KeyRight(d, u, "", k, o);
    assert Answered(o, KeyReads(c, u, k)) <==> x !in KeyReads(c, u, k);
    assert Answered(o, KeyReads(d, u, k)) <==> x !in KeyReads(d, u, k);
  }

  /** What needs no type on the way is the same under every MODULES. */
  lemma {:induction false} CalmSame(c: Config, d: Config, u: User, k: Key)
    requires Ranked(c) && Ranked(d) && SymbolsOf(c) == SymbolsOf(d) && c.rank == d.rank && Calm(c, u, k)
    ensures KeyVal(c, u, k) == KeyVal(d, u, k) && KeyReads(c, u, k) == KeyReads(d, u, k) && Calm(d, u, k)
    decreases Depth(c, k)
  {
    hide Ranked, KeyVal, KeyReads, NeedsType, Calm, Depth;
    CalmWhen(c, u, k);
    forall r | r in KeyReads(c, u, k)
      ensures KeyVal(c, u, r) == KeyVal(d, u, r) && Calm(d, u, r)
    {
      Deeper(c, u, k, r);
      CalmSame(c, d, u, r);
    }
    SameStep(c, d, u, k);
    CalmWhen(d, u, k);
  }

  // ---------------------------------------------------------------- other user values

  lemma NeedsAgree(c: Config, u: User, v: User, k: Key)
    requires Ranked(c) && UserSame(c, u, v, k.s) && Same(c, u, v, KeyReads(c, u, k))
    ensures NeedsType(c, u, k) <==> NeedsType(c, v, k)
  {
    hide Ranked, UserSame;
    if IsTristate(c, k.s) {
      match k
      case Vis(s) => PromptsStay(c, u, v, s);
      case TriOf(s) => RawStay(c, u, v, s);
      case StrOf(_) =>
      case Asg(s) => AsgStay(c, u, v, s);
    }
  }

  lemma PromptsStay(c: Config, u: User, v: User, s: Name)
    requires Ranked(c) && Defined(c, s) && Same(c, u, v, VisReads(c, u, s))
    ensures Prompts(c, u, c.defs[s].prompts, RankOf(c, s)) == Prompts(c, v, c.defs[s].prompts, RankOf(c, s))
  {
    hide Prompts, PromptReads, KeyVal;
    PromptsAgree(c, u, v, c.defs[s].prompts, RankOf(c, s));
  }

  lemma RawStay(c: Config, u: User, v: User, s: Name)
    requires Ranked(c) && IsTristate(c, s) && UserSame(c, u, v, s) && Same(c, u, v, TriReads(c, u, s))
    ensures RawTri(c, u, s) == RawTri(c, v, s)
  {
    hide Ranked, RawTri, RawTriReads, KeyVal, UserSame;
    RawTriAgree(c, u, v, s);
  }

  lemma AsgStay(c: Config, u: User, v: User, s: Name)
    requires Ranked(c) && IsTristate(c, s) && Same(c, u, v, AsgReads(c, u, s))
    ensures VisVal(c, u, s) == VisVal(c, v, s)
    ensures VisVal(c, u, s) != 0 ==> Val(c, u, c.defs[s].revDep) == Val(c, v, c.defs[s].revDep)
  {
    hide Ranked, VisVal, Val, Reads, StaysTristate;
    assert KeyVal(c, u, Vis(s)) == KeyVal(c, v, Vis(s));
    if VisVal(c, u, s) != 0 { ExprAgree(c, u, v, c.defs[s].revDep); }
  }

  // ---------------------------------------------------------------- caches

  type Cache = map<Key, Value>

  // MODULES can be evaluated, and so can everything else
  ghost predicate Evaluable(c: Config, rank: map<Name, nat>, u: User) {
    RankedApart(c, rank) && Calm(Fixed(c, "y", rank), u, TriOf(c.modules))
  }

  // In a set without tristates that is closed under what its symbols depend on
  lemma {:induction false} PlainCalm(c: Config, p: set<Name>, u: User, k: Key)
    requires Ranked(c) && Constant(c, c.modules) && (k.s in p || !Defined(c, k.s))
    requires forall s :: s in p && Defined(c, s) ==> c.defs[s].kind != Tristate
    requires forall s, t :: s in p && Defined(c, s) && Mentions(c.defs[s], t) && Defined(c, t) ==> t in p
    ensures Calm(c, u, k)
    decreases Depth(c, k)
  {
    hide Ranked, KeyReads, Calm, Depth, Mentions;
    CalmWhen(c, u, k);
    KeyMayRead(c, u, k);
    forall r | r in KeyReads(c, u, k)
      ensures Calm(c, u, r)
    {
      Deeper(c, u, k, r);
      assert MayRead(c, k, r);
      PlainCalm(c, p, u, r);
    }
  }

  /** With a static order everything can be evaluated under all user values. */
  lemma PlainEvaluable(c: Config, rank: map<Name, nat>, u: User)
    requires RankedApart(c, rank) && ModulesPlain(c)
    ensures Evaluable(c, rank, u)
  {
    hide Ranked, Calm, Mentions;
    var p :| PlainSet(c, p);
    PlainCalm(Fixed(c, "y", rank), p, u, TriOf(c.modules));
  }

  // Constants need no cache
  ghost predicate Covered(c: Config, ks: set<Key>, m: Cache) {
    forall r :: r in ks ==> r in m || Constant(c, r.s)
  }

  /** Every cached value is the from-scratch value; everything consulted for it is cached
      too, MODULES included where a type was read; and a symbol that consulted another has
      its visibility cached. */
  ghost predicate Good(c: Config, rank: map<Name, nat>, u: User, m: Cache)
    requires RankedApart(c, rank)
  {
    forall k :: k in m ==> GoodAt(c, rank, u, m, k)
  }

  ghost predicate GoodAt(c: Config, rank: map<Name, nat>, u: User, m: Cache, k: Key)
    requires RankedApart(c, rank) && k in m
  {
    var d := Resolved(c, rank, u);
    && Ranked(d) && m[k] == KeyVal(d, u, k)
    && Covered(c, KeyReads(d, u, k), m)
    && (NeedsType(d, u, k) ==> TriOf(c.modules) in m)
    && (forall r :: r in KeyReads(d, u, k) && r.s != k.s ==> Vis(k.s) in m)
  }

  function Without(m: Cache, gone: set<Name>): Cache {
    map k | k in m && k.s !in gone :: m[k]
  }

  /** What _rec_invalidate leaves: no dependent of an invalidated symbol still has a
      cached visibility, and losing MODULES clears every defined symbol. */
  ghost predicate Closed(c: Config, m: Cache, gone: set<Name>) {
    && (forall t :: t in gone ==> Defined(c, t))
    && (forall t, d :: t in gone && d in Dependents(c, t) ==> Vis(d) !in Without(m, gone))
    && (c.modules in gone ==> forall k :: k in m && Defined(c, k.s) ==> k.s in gone)
  }

  // A key that survives consulted only keys that survive
  lemma SurvivorReads(c: Config, rank: map<Name, nat>, u: User, m: Cache, gone: set<Name>, k: Key, r: Key)
    requires RankedApart(c, rank) && Good(c, rank, u, m) && Closed(c, m, gone)
    requires Ranked(Resolved(c, rank, u))
    requires k in Without(m, gone) && r in KeyReads(Resolved(c, rank, u), u, k) && !Constant(c, r.s)
    ensures r in Without(m, gone) && Lower(Resolved(c, rank, u), r, k)
  {
    hide Ranked, KeyReads, KeyVal, NeedsType;
    assert GoodAt(c, rank, u, m, k);
    var d := Resolved(c, rank, u);
    KeyMayRead(d, u, k);
    assert MayRead(d, k, r);
    SameDependents(c, d, r.s);
    if r.s != k.s {
      assert Vis(k.s) in Without(m, gone);
    }
  }

  lemma SameDependents(c: Config, d: Config, t: Name)
    requires c.defs == d.defs
    ensures Dependents(c, t) == Dependents(d, t) && Constant(c, t) == Constant(d, t)
  {
  }

  // A symbol without a definition of its own consults nothing but itself
  lemma {:induction false} UndefinedCalm(c: Config, u: User, v: User, k: Key)
    requires Ranked(c) && !Defined(c, k.s)
    ensures Calm(c, u, k) && (Constant(c, k.s) ==> KeyVal(c, u, k) == KeyVal(c, v, k))
    decreases Tag(k)
  {
    hide Calm;
    CalmWhen(c, u, k);
    if k.StrOf? { UndefinedCalm(c, u, v, TriOf(k.s)); }
  }

  // ---------------------------------------------------------------- survivors

  // The survivors that need no type keep their values under the new user assignment
  lemma {:induction false} CalmKeep(c: Config, rank: map<Name, nat>, u: User, v: User, m: Cache, gone: set<Name>, k: Key)
    requires RankedApart(c, rank) && Good(c, rank, u, m) && Closed(c, m, gone)
    requires forall s :: s !in gone ==> UserSame(c, u, v, s)
    requires k in Without(m, gone) && Calm(Fixed(c, "y", rank), u, k)
    ensures var y := Fixed(c, "y", rank);
      KeyVal(y, u, k) == KeyVal(y, v, k) && KeyReads(y, u, k) == KeyReads(y, v, k) && Calm(y, v, k)
    decreases Depth(Fixed(c, "y", rank), k)
  {
    hide Ranked, KeyReads, KeyVal, Closed, Good, UserSame, NeedsType, Calm, Resolved, Depth, Constants;
    var y, d := Fixed(c, "y", rank), Resolved(c, rank, u);
    IsFixed(c, rank, u);
    CalmSame(y, d, u, k);
    CalmWhen(y, u, k);
    forall r | r in KeyReads(y, u, k)
      ensures KeyVal(y, u, r) == KeyVal(y, v, r) && Calm(y, v, r)
    {
      Deeper(y, u, k, r);
      if Constant(c, r.s) {
        UndefinedCalm(y, u, v, r);
        UndefinedCalm(y, v, u, r);
      } else {
        SurvivorReads(c, rank, u, m, gone, k, r);
        CalmKeep(c, rank, u, v, m, gone, r);
      }
    }
    UserSameHere(c, y, u, v, k.s);
    KeyAgree(y, u, v, k);
    NeedsAgree(y, u, v, k);
    CalmWhen(y, v, k);
  }

  lemma UserSameHere(c: Config, d: Config, u: User, v: User, s: Name)
    requires c.defs == d.defs && UserSame(c, u, v, s)
    ensures UserSame(d, u, v, s)
  {
  }

  // What Resolved gives
  lemma IsFixed(c: Config, rank: map<Name, nat>, u: User)
    requires RankedApart(c, rank)
    ensures var d, y := Resolved(c, rank, u), Fixed(c, "y", rank);
      && Ranked(d) && SymbolsOf(c) == SymbolsOf(d) == SymbolsOf(y) && d.rank == y.rank == rank && d.defs == c.defs
      && y.defs == c.defs
  {
    hide Ranked, TriVal;
  }

  // A survivor that needed a type leaves MODULES cached
  lemma {:induction false} TypeCached(c: Config, rank: map<Name, nat>, u: User, m: Cache, gone: set<Name>, k: Key)
    requires RankedApart(c, rank) && Ranked(Resolved(c, rank, u)) && Good(c, rank, u, m) && Closed(c, m, gone)
    requires k in Without(m, gone) && !Calm(Resolved(c, rank, u), u, k)
    ensures TriOf(c.modules) in Without(m, gone)
    decreases Depth(Resolved(c, rank, u), k)
  {
    hide Ranked, KeyReads, KeyVal, NeedsType, Calm, Resolved, Depth, Constants;
    var d := Resolved(c, rank, u);
    IsFixed(c, rank, u);
    CalmWhen(d, u, k);
    assert GoodAt(c, rank, u, m, k);
    if !Defined(c, k.s) { UndefinedCalm(d, u, u, k); }
    assert c.modules !in gone;
    if !NeedsType(d, u, k) {
      var r :| r in KeyReads(d, u, k) && !Calm(d, u, r);
      Deeper(d, u, k, r);
      if Constant(c, r.s) { UndefinedCalm(d, u, u, r); }
      SurvivorReads(c, rank, u, m, gone, k, r);
      TypeCached(c, rank, u, m, gone, r);
    }
  }

  lemma ModulesKept(c: Config, rank: map<Name, nat>, u: User, v: User, m: Cache, gone: set<Name>)
    requires Evaluable(c, rank, u) && Good(c, rank, u, m) && Closed(c, m, gone)
    requires forall s :: s !in gone ==> UserSame(c, u, v, s)
    requires TriOf(c.modules) in Without(m, gone)
    ensures Resolved(c, rank, u) == Resolved(c, rank, v)
  {
    hide Ranked, KeyReads, Closed, Good, UserSame, Calm, TriVal;
    CalmKeep(c, rank, u, v, m, gone, TriOf(c.modules));
  }

  /** The survivors keep their values under the new user assignment. */
  lemma {:induction false} SurvivorsKeep(c: Config, rank: map<Name, nat>, u: User, v: User, m: Cache, gone: set<Name>, k: Key)
    requires Evaluable(c, rank, u) && Good(c, rank, u, m) && Closed(c, m, gone)
    requires forall s :: s !in gone ==> UserSame(c, u, v, s)
    requires k in Without(m, gone)
    ensures var d, e := Resolved(c, rank, u), Resolved(c, rank, v);
      && Ranked(d) && Ranked(e) && KeyVal(d, u, k) == KeyVal(e, v, k) && KeyReads(d, u, k) == KeyReads(e, v, k)
      && (NeedsType(d, u, k) <==> NeedsType(e, v, k))
    decreases Depth(Resolved(c, rank, u), k)
  {
    hide Ranked, KeyReads, KeyVal, Closed, Good, UserSame, NeedsType, Calm, Resolved, Depth, Constants;
    var y, d, e := Fixed(c, "y", rank), Resolved(c, rank, u), Resolved(c, rank, v);
    IsFixed(c, rank, u);
    IsFixed(c, rank, v);
    if TriOf(c.modules) in Without(m, gone) {
      ModulesKept(c, rank, u, v, m, gone);
      forall r | r in KeyReads(d, u, k)
        ensures KeyVal(d, u, r) == KeyVal(d, v, r)
      {
        if Constant(c, r.s) {
          UndefinedCalm(d, u, v, r);
        } else {
          SurvivorReads(c, rank, u, m, gone, k, r);
          Deeper(d, u, k, r);
          SurvivorsKeep(c, rank, u, v, m, gone, r);
        }
      }
      UserSameHere(c, d, u, v, k.s);
      KeyAgree(d, u, v, k);
      NeedsAgree(d, u, v, k);
    } else {
      if !Calm(d, u, k) { TypeCached(c, rank, u, m, gone, k); }
      CalmSame(d, y, u, k);
      CalmKeep(c, rank, u, v, m, gone, k);
      CalmSame(y, e, v, k);
      CalmWhen(d, u, k);
      CalmWhen(e, v, k);
    }
  }

  /** Soundness of early-stopping invalidation: after any change of user values on
      invalidated symbols, what is still cached is exactly the new from-scratch value. */
  lemma InvalidationSound(c: Config, rank: map<Name, nat>, u: User, v: User, m: Cache, gone: set<Name>)
    requires Evaluable(c, rank, u) && Good(c, rank, u, m) && Closed(c, m, gone)
    requires forall s :: s !in gone ==> UserSame(c, u, v, s)
    ensures Good(c, rank, v, Without(m, gone))
  {
    hide Ranked, KeyReads, KeyVal, UserSame, NeedsType, Calm, Resolved, Constants;
    var m' := Without(m, gone);
    forall k | k in m'
      ensures GoodAt(c, rank, v, m', k)
    {
      SurvivorsKeep(c, rank, u, v, m, gone, k);
      assert GoodAt(c, rank, u, m, k);
      var d := Resolved(c, rank, u);
      forall r | r in KeyReads(d, u, k) && !Constant(c, r.s)
        ensures r in m'
      {
        SurvivorReads(c, rank, u, m, gone, k, r);
      }
      if NeedsType(d, u, k) {
        CalmWhen(d, u, k);
        TypeCached(c, rank, u, m, gone, k);
      }
    }
  }
}
