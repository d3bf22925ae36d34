/**
 Evaluation as the recursion of properties that it is, cut off at a depth: when it ends
 although tristates consult MODULES, which the loop check does not see.
 */
module KconfigFuel {
  import opened Basics
  import opened KconfigEval
  import opened KconfigDeps
  import opened KconfigGraph
  import opened KconfigLoop
  import opened KconfigAssign

  // What evaluation knows of a configuration, MODULES aside
  datatype Symbols = Symbols(defs: map<Name, SymDef>, num: Numerals)

  // The answers of the properties that an evaluation consults, as far as they have one
  type Oracle = Key -> Option<Value>

  function SymbolsOf(c: Config): Symbols {
    Symbols(c.defs, c.num)
  }

  function KindIn(y: Symbols, s: Name): Kind {
    if s in y.defs then y.defs[s].kind else Unknown
  }

  function AskTri(o: Oracle, k: Key): Option<Tri> {
    var v :- o(k);
    if v.OfTri? then Some(v.t) else None
  }

  function AskStr(o: Oracle, k: Key): Option<string> {
    var v :- o(k);
    if v.OfStr? then Some(v.s) else None
  }

  // ---------------------------------------------------------------- one property

  function StepStrings(rel: Rel, a: Name, b: Name, o: Oracle): Option<Tri> {
    var l :- AskStr(o, StrOf(a));
    var r :- AskStr(o, StrOf(b));
    Some(Holds(rel, Strcmp(l, r)))
  }

  function StepNum(y: Symbols, s: Name, o: Oracle): Option<Option<int>> {
    if Logical(KindIn(y, s)) then
      var t :- AskTri(o, TriOf(s));
      Some(Some(t as int))
    else
      var t :- AskStr(o, StrOf(s));
      Some(y.num.parse(t, Base(KindIn(y, s))))
  }

  function StepExpr(y: Symbols, e: Expr, o: Oracle): Option<Tri> {
    match e
    case Sym(n) => AskTri(o, TriOf(n))
    case And(l, r) =>
      var v :- StepExpr(y, l, o);
      if v == 0 then Some(0) else
        var w :- StepExpr(y, r, o);
        Some(Min(v, w))
    case Or(l, r) =>
      var v :- StepExpr(y, l, o);
      if v == 2 then Some(2) else
        var w :- StepExpr(y, r, o);
        Some(Max(v, w))
    case Not(a) =>
      var v :- StepExpr(y, a, o);
      Some(2 - v)
    case Compare(rel, a, b) =>
      if KindIn(y, a) == Str && KindIn(y, b) == Str then StepStrings(rel, a, b, o) else
        var l :- StepNum(y, a, o);
        if l.None? then StepStrings(rel, a, b, o) else
          var r :- StepNum(y, b, o);
          if r.None? then StepStrings(rel, a, b, o) else Some(Holds(rel, l.value - r.value))
  }

  function StepPrompts(y: Symbols, ps: seq<Expr>, o: Oracle): Option<Tri> {
    if ps == [] then Some(0) else
      var v :- StepPrompts(y, ps[..|ps| - 1], o);
      var w :- StepExpr(y, ps[|ps| - 1], o);
      Some(Max(v, w))
  }

  // Symbol.type is TRISTATE; modules is the MODULES symbol
  function StepType(y: Symbols, modules: Name, s: Name, o: Oracle): Option<bool> {
    if s in y.defs && y.defs[s].kind == Tristate && y.defs[s].preset == None then
      var t :- AskTri(o, TriOf(modules));
      Some(t != 0)
    else Some(false)
  }

  function StepVis(y: Symbols, modules: Name, s: Name, o: Oracle): Option<Tri> {
    if s !in y.defs || y.defs[s].preset != None then Some(0) else
      var v :- StepPrompts(y, y.defs[s].prompts, o);
      if v != 1 then Some(v) else
        var tristate :- StepType(y, modules, s, o);
        Some(if tristate then 1 else 2)
  }

  function StepDefaults(y: Symbols, ds: seq<Default>, o: Oracle): Option<Tri> {
    if ds == [] then Some(0) else
      var dep :- StepExpr(y, ds[0].cond, o);
      if dep == 0 then StepDefaults(y, ds[1..], o) else
        var v :- StepExpr(y, ds[0].value, o);
        Some(Min(v, dep))
  }

  function StepWeak(y: Symbols, u: User, s: Name, o: Oracle): Option<Tri>
    requires s in y.defs
  {
    var d := y.defs[s];
    var vis :- AskTri(o, Vis(s));
    if UserTri(u, s, vis) then Some(Min(u[s].t, vis)) else
      var v :- StepDefaults(y, d.defaults, o);
      var weak :- StepExpr(y, d.weakRevDep, o);
      if weak == 0 then Some(v) else
        var dep :- StepExpr(y, d.directDep, o);
        Some(if dep != 0 then Max(weak, v) else v)
  }

  function StepRaw(y: Symbols, u: User, s: Name, o: Oracle): Option<Tri>
    requires s in y.defs
  {
    var d := y.defs[s];
    var v :- StepWeak(y, u, s, o);
    var rev :- StepExpr(y, d.revDep, o);
    if rev == 0 then Some(v) else
      var dep :- StepExpr(y, d.directDep, o);
      Some(Max(rev, v))
  }

  function StepTri(y: Symbols, modules: Name, u: User, s: Name, o: Oracle): Option<Tri> {
    if s !in y.defs then Some(0)
    else if y.defs[s].preset.Some? then Some(y.defs[s].preset.value)
    else if !Logical(y.defs[s].kind) then Some(0)
    else
      var v :- StepRaw(y, u, s, o);
      if v != 1 then Some(v) else
        var tristate :- StepType(y, modules, s, o);
        if !tristate then Some(2) else
          var weak :- StepExpr(y, y.defs[s].weakRevDep, o);
          Some(if weak == 2 then 2 else 1)
  }

  function StepRanges(y: Symbols, rs: seq<Range>, base: nat, o: Oracle): Option<Option<(int, int)>> {
    if rs == [] then Some(None) else
      var cond :- StepExpr(y, rs[0].cond, o);
      if cond == 0 then StepRanges(y, rs[1..], base, o) else
        var low :- AskStr(o, StrOf(rs[0].low));
        var high :- AskStr(o, StrOf(rs[0].high));
        Some(Some((NumberIn(y, low, base), NumberIn(y, high, base))))
  }

  function NumberIn(y: Symbols, text: string, base: nat): int {
    var p := y.num.parse(text, base);
    if p.Some? then p.value else 0
  }

  function StepDefaultStr(y: Symbols, ds: seq<Default>, o: Oracle): Option<Option<string>> {
    if ds == [] then Some(None) else
      var cond :- StepExpr(y, ds[0].cond, o);
      if cond == 0 then StepDefaultStr(y, ds[1..], o)
      else if !IsSym(ds[0].value) then None
      else
        var v :- AskStr(o, StrOf(ds[0].value.name));
        Some(Some(v))
  }

  function StepStr(y: Symbols, u: User, s: Name, o: Oracle): Option<string> {
    if s !in y.defs then Some(s) else
      var d := y.defs[s];
      if Logical(d.kind) then
        var t :- AskTri(o, TriOf(s));
        Some(TriToStr(t))
      else if d.kind == Unknown then Some(s)
      else
        var vis :- AskTri(o, Vis(s));
        if d.kind == Str then
          if UserStr(u, s, vis) then Some(u[s].s) else
            var t :- StepDefaultStr(y, d.defaults, o);
            Some(if t.Some? then t.value else "")
        else
          var range :- StepRanges(y, d.ranges, Base(d.kind), o);
          var c := Config(y.defs, "", map[], y.num);
          if UserNumber(c, u, s, vis, Base(d.kind), range) then Some(u[s].s) else
            var t :- StepDefaultStr(y, d.defaults, o);
            Some(Clamp(c, t, Base(d.kind), range))
  }

  function StepAsg(y: Symbols, modules: Name, u: User, s: Name, o: Oracle): Option<seq<Tri>> {
    if s !in y.defs || y.defs[s].preset.Some? || !Logical(y.defs[s].kind) then Some([]) else
      var d := y.defs[s];
      var vis :- AskTri(o, Vis(s));
      if vis == 0 then Some([]) else
        var rev :- StepExpr(y, d.revDep, o);
        if vis == 2 then
          if rev == 2 then Some([2]) else
            var tristate :- StepType(y, modules, s, o);
            if !tristate then Some(if rev == 0 then [0, 2] else [2]) else
              var weak :- StepExpr(y, d.weakRevDep, o);
              Some(if rev == 0 then (if weak == 2 then [0, 2] else [0, 1, 2]) else if weak == 2 then [2] else [1, 2])
        else if rev != 0 then Some(if rev == 2 then [2] else [1])
        else
          var weak :- StepExpr(y, d.weakRevDep, o);
          Some(if weak != 2 then [0, 1] else [0, 2])
  }

  function Step(y: Symbols, modules: Name, u: User, k: Key, o: Oracle): Option<Value> {
    match k
    case Vis(s) =>
      var v :- StepVis(y, modules, s, o);
      Some(OfTri(v))
    case TriOf(s) =>
      var v :- StepTri(y, modules, u, s, o);
      Some(OfTri(v))
    case StrOf(s) =>
      var v :- StepStr(y, u, s, o);
      Some(OfStr(v))
    case Asg(s) =>
      var v :- StepAsg(y, modules, u, s, o);
      Some(OfAsg(v))
  }

  /** The value of a property when properties may consult each other n deep. */
  function Fuel(y: Symbols, modules: Name, u: User, k: Key, n: nat): Option<Value>
    decreases n, 0
  {
    if n == 0 then None else Step(y, modules, u, k, Answers(y, modules, u, n - 1))
  }

  function Answers(y: Symbols, modules: Name, u: User, n: nat): Oracle
    decreases n, 1
  {
    (r: Key) => Fuel(y, modules, u, r, n)
  }

  /** Evaluation of k ends. */
  ghost predicate Ends(c: Config, u: User, k: Key) {
    exists n: nat :: Fuel(SymbolsOf(c), c.modules, u, k, n).Some?
  }

  // ---------------------------------------------------------------- one step is right

  // Whatever the oracle answers is the value
  ghost predicate Right(c: Config, u: User, o: Oracle, ks: set<Key>)
    requires Ranked(c)
  {
    forall k :: k in ks ==> o(k).None? || o(k) == Some(KeyVal(c, u, k))
  }

  ghost predicate Answered(o: Oracle, ks: set<Key>) {
    forall k :: k in ks ==> o(k).Some?
  }

  // The value if everything it takes is answered
  ghost function Given<T>(o: Oracle, ks: set<Key>, v: T): Option<T> {
    if Answered(o, ks) then Some(v) else None
  }

  lemma Asked(c: Config, u: User, o: Oracle, k: Key)
    requires Ranked(c) && (o(k).None? || o(k) == Some(KeyVal(c, u, k)))
    ensures KeyVal(c, u, k).OfTri? ==> AskTri(o, k) == if o(k).Some? then Some(KeyVal(c, u, k).t) else None
    ensures KeyVal(c, u, k).OfStr? ==> AskStr(o, k) == if o(k).Some? then Some(KeyVal(c, u, k).s) else None
  {
    hide Ranked, KeyVal;
  }

  lemma StringsRight(c: Config, u: User, rel: Rel, a: Name, b: Name, o: Oracle)
    requires Ranked(c) && Right(c, u, o, {StrOf(a), StrOf(b)})
    ensures StepStrings(rel, a, b, o)
      == Given(o, {StrOf(a), StrOf(b)}, Holds(rel, Strcmp(StrVal(c, u, a), StrVal(c, u, b))))
  {
    hide Ranked, StrVal, Holds;
    Asked(c, u, o, StrOf(a));
    Asked(c, u, o, StrOf(b));
  }

  lemma NumRight(c: Config, u: User, s: Name, o: Oracle)
    requires Ranked(c) && Right(c, u, o, {NumKey(c, s)})
    ensures StepNum(SymbolsOf(c), s, o) == Given(o, {NumKey(c, s)}, Num(c, u, s))
  {
    hide Ranked, TriVal, StrVal;
    Asked(c, u, o, NumKey(c, s));
  }

  lemma CompareRight(c: Config, u: User, rel: Rel, a: Name, b: Name, o: Oracle)
    requires Ranked(c) && Right(c, u, o, Reads(c, u, Compare(rel, a, b)))
    ensures StepExpr(SymbolsOf(c), Compare(rel, a, b), o) == Given(o, Reads(c, u, Compare(rel, a, b)), Val(c, u, Compare(rel, a, b)))
  {
    hide Ranked, TriVal, StrVal, KeyVal, NumKey, Num, Holds, StepStrings, StepNum;
    var r := Reads(c, u, Compare(rel, a, b));
    if StrOf(a) in r && StrOf(b) in r { StringsRight(c, u, rel, a, b, o); }
    if !(Def(c, a).kind == Str && Def(c, b).kind == Str) {
      assert NumKey(c, a) in r;
      NumRight(c, u, a, o);
      if Num(c, u, a).Some? {
        assert NumKey(c, b) in r;
        NumRight(c, u, b, o);
      }
    }
  }

  lemma {:induction false} ExprRight(c: Config, u: User, e: Expr, o: Oracle)
    requires Ranked(c) && Right(c, u, o, Reads(c, u, e))
    ensures StepExpr(SymbolsOf(c), e, o) == Given(o, Reads(c, u, e), Val(c, u, e))
  {
    hide Ranked, TriVal, StrVal;
    match e
    case Sym(n) => Asked(c, u, o, TriOf(n));
    case And(l, r) =>
      ExprRight(c, u, l, o);
      if Val(c, u, l) != 0 { ExprRight(c, u, r, o); }
    case Or(l, r) =>
      ExprRight(c, u, l, o);
      if Val(c, u, l) != 2 { ExprRight(c, u, r, o); }
    case Not(a) => ExprRight(c, u, a, o);
    case Compare(rel, a, b) => CompareRight(c, u, rel, a, b, o);
  }

  lemma {:induction false} PromptsRight(c: Config, u: User, ps: seq<Expr>, b: nat, o: Oracle)
    requires Ranked(c) && Right(c, u, o, PromptReads(c, u, ps))
    requires forall i {:trigger ps[i]} :: 0 <= i < |ps| ==> ExprRank(c, ps[i]) <= b
    ensures StepPrompts(SymbolsOf(c), ps, o) == Given(o, PromptReads(c, u, ps), Prompts(c, u, ps, b))
    decreases |ps|
  {
    hide Ranked, KeyVal, Val, Reads, StepExpr;
    if ps != [] {
      PromptsRight(c, u, ps[..|ps| - 1], b, o);
      ExprRight(c, u, ps[|ps| - 1], o);
    }
  }

  lemma {:induction false} DefaultsRight(c: Config, u: User, ds: seq<Default>, b: nat, o: Oracle)
    requires Ranked(c) && Right(c, u, o, DefaultTriReads(c, u, ds))
    requires forall i {:trigger ds[i]} :: 0 <= i < |ds| ==> PairBelow(c, ds[i], b)
    ensures StepDefaults(SymbolsOf(c), ds, o) == Given(o, DefaultTriReads(c, u, ds), DefaultTri(c, u, ds, b))
    decreases |ds|
  {
    hide Ranked, KeyVal, Val, Reads, StepExpr;
    if ds != [] {
      ExprRight(c, u, ds[0].cond, o);
      if Val(c, u, ds[0].cond) != 0 {
        ExprRight(c, u, ds[0].value, o);
      } else {
        DefaultsRight(c, u, ds[1..], b, o);
      }
    }
  }

  lemma {:induction false} RangesRight(c: Config, u: User, rs: seq<Range>, base: nat, b: nat, o: Oracle)
    requires Ranked(c) && Right(c, u, o, RangeReads(c, u, rs))
    requires forall i {:trigger rs[i]} :: 0 <= i < |rs| ==> RangeBelow(c, rs[i], b)
    ensures StepRanges(SymbolsOf(c), rs, base, o) == Given(o, RangeReads(c, u, rs), ActiveRange(c, u, rs, base, b))
    decreases |rs|
  {
    hide Ranked, StrVal, Val, Reads, StepExpr;
    if rs != [] {
      ExprRight(c, u, rs[0].cond, o);
      if Val(c, u, rs[0].cond) != 0 {
        Asked(c, u, o, StrOf(rs[0].low));
        Asked(c, u, o, StrOf(rs[0].high));
      } else {
        RangesRight(c, u, rs[1..], base, b, o);
      }
    }
  }

  lemma {:induction false} DefaultStrRight(c: Config, u: User, ds: seq<Default>, b: nat, o: Oracle)
    requires Ranked(c)
    requires forall i {:trigger ds[i]} :: 0 <= i < |ds| ==> PairBelow(c, ds[i], b) && IsSym(ds[i].value)
    requires Right(c, u, o, DefaultStrReads(c, u, ds))
    ensures StepDefaultStr(SymbolsOf(c), ds, o) == Given(o, DefaultStrReads(c, u, ds), DefaultStr(c, u, ds, b))
    decreases |ds|
  {
    hide Ranked, StrVal, Val, Reads, StepExpr;
    if ds != [] {
      assert IsSym(ds[0].value);
      ExprRight(c, u, ds[0].cond, o);
      if Val(c, u, ds[0].cond) != 0 {
        Asked(c, u, o, StrOf(ds[0].value.name));
      } else {
        DefaultStrRight(c, u, ds[1..], b, o);
      }
    }
  }

  lemma WeakRight(c: Config, u: User, s: Name, o: Oracle)
    requires Ranked(c) && Defined(c, s) && Right(c, u, o, WeakTriReads(c, u, s))
    ensures StepWeak(SymbolsOf(c), u, s, o) == Given(o, WeakTriReads(c, u, s), WeakTri(c, u, s))
  {
    hide VisVal, StrVal, TriVal, Val, Reads, DefaultTri, DefaultTriReads, UserTri, StepExpr, StepDefaults;
    var d := c.defs[s];
    Asked(c, u, o, Vis(s));
    if !UserTri(u, s, VisVal(c, u, s)) {
      DefaultsRight(c, u, d.defaults, RankOf(c, s), o);
      ExprRight(c, u, d.weakRevDep, o);
      if Val(c, u, d.weakRevDep) != 0 { ExprRight(c, u, d.directDep, o); }
    }
  }

  lemma RawRight(c: Config, u: User, s: Name, o: Oracle)
    requires Ranked(c) && Defined(c, s) && Right(c, u, o, RawTriReads(c, u, s))
    ensures StepRaw(SymbolsOf(c), u, s, o) == Given(o, RawTriReads(c, u, s), RawTri(c, u, s))
  {
    hide Ranked, Val, Reads, KeyVal, WeakTri, WeakTriReads, StepExpr, StepWeak;
    var d := c.defs[s];
    WeakRight(c, u, s, o);
    ExprRight(c, u, d.revDep, o);
    if Val(c, u, d.revDep) != 0 { ExprRight(c, u, d.directDep, o); }
  }

  lemma StrRight(c: Config, u: User, s: Name, o: Oracle)
    requires Ranked(c) && Right(c, u, o, StrReads(c, u, s))
    ensures StepStr(SymbolsOf(c), u, s, o) == Given(o, StrReads(c, u, s), StrVal(c, u, s))
  {
    hide VisVal, TriVal, Val, Reads, DefaultStr, DefaultStrReads, ActiveRange, RangeReads, StepExpr, StepDefaultStr, StepRanges;
    if s in c.defs {
      var d := c.defs[s];
      if Logical(d.kind) {
        Asked(c, u, o, TriOf(s));
      } else if d.kind != Unknown {
        Asked(c, u, o, Vis(s));
        if d.kind == Str {
          if !UserStr(u, s, VisVal(c, u, s)) { DefaultStrRight(c, u, d.defaults, RankOf(c, s), o); }
        } else {
          RangesRight(c, u, d.ranges, Base(d.kind), RankOf(c, s), o);
          var range := ActiveRange(c, u, d.ranges, Base(d.kind), RankOf(c, s));
          if !UserNumber(c, u, s, VisVal(c, u, s), Base(d.kind), range) {
            DefaultStrRight(c, u, d.defaults, RankOf(c, s), o);
          }
        }
      }
    }
  }

  // ---------------------------------------------------------------- where the type is read

  predicate IsTristate(c: Config, s: Name) {
    Defined(c, s) && c.defs[s].kind == Tristate
  }

  /** The evaluation of k reads the type of a tristate: its visibility, or its value before
      promotion, is m. (Its assignable values take the type too, for visibility y.) */
  ghost predicate NeedsType(c: Config, u: User, k: Key)
    requires Ranked(c)
  {
    IsTristate(c, k.s) &&
    match k
    case Vis(s) => Prompts(c, u, c.defs[s].prompts, RankOf(c, s)) == 1
    case TriOf(s) => RawTri(c, u, s) == 1
    case StrOf(_) => false
    case Asg(s) => VisVal(c, u, s) == 2 && Val(c, u, c.defs[s].revDep) != 2
  }

  // What the oracle says of MODULES is what c takes it to be
  ghost predicate ModulesRight(c: Config, u: User, modules: Name, o: Oracle)
    requires Ranked(c)
  {
    AskTri(o, TriOf(modules)).Some? && (AskTri(o, TriOf(modules)).value != 0 <==> TriVal(c, u, c.modules) != 0)
  }

  // A step gives the value if everything it reads is answered
  ghost predicate StepRight<T(!new)>(c: Config, u: User, modules: Name, k: Key, o: Oracle, step: Option<T>, v: T)
    requires Ranked(c)
  {
    && (!NeedsType(c, u, k) ==> step == Given(o, KeyReads(c, u, k), v))
    && (NeedsType(c, u, k) && AskTri(o, TriOf(modules)).None? ==> step.None?)
    && (NeedsType(c, u, k) && ModulesRight(c, u, modules, o) && Answered(o, KeyReads(c, u, k)) ==> step == Some(v))
  }

  lemma VisRight(c: Config, u: User, modules: Name, s: Name, o: Oracle)
    requires Ranked(c) && Right(c, u, o, VisReads(c, u, s))
    ensures StepRight(c, u, modules, Vis(s), o, StepVis(SymbolsOf(c), modules, s, o), VisVal(c, u, s))
  {
    hide TriVal, Prompts, PromptReads, StepPrompts, AskTri, KeyVal;
    if Defined(c, s) { PromptsRight(c, u, c.defs[s].prompts, RankOf(c, s), o); }
  }

  lemma TriRight(c: Config, u: User, modules: Name, s: Name, o: Oracle)
    requires Ranked(c) && Right(c, u, o, TriReads(c, u, s))
    ensures StepRight(c, u, modules, TriOf(s), o, StepTri(SymbolsOf(c), modules, u, s, o), TriVal(c, u, s))
  {
    hide Ranked, RawTri, RawTriReads, Val, Reads, StepRaw, StepExpr, AskTri, KeyVal;
    if Defined(c, s) && Logical(c.defs[s].kind) {
      RawRight(c, u, s, o);
      if RawTri(c, u, s) == 1 && StaysTristate(c, u, s) { ExprRight(c, u, c.defs[s].weakRevDep, o); }
    }
  }

  lemma AsgRight(c: Config, u: User, modules: Name, s: Name, o: Oracle)
    requires Ranked(c) && Right(c, u, o, AsgReads(c, u, s))
    ensures StepRight(c, u, modules, Asg(s), o, StepAsg(SymbolsOf(c), modules, u, s, o), AsgVal(c, u, s))
  {
    hide Ranked, VisVal, Val, Reads, StepExpr;
    if Defined(c, s) && Logical(c.defs[s].kind) {
      var d, vis := c.defs[s], VisVal(c, u, s);
      Asked(c, u, o, Vis(s));
      if vis != 0 {
        ExprRight(c, u, d.revDep, o);
        if vis == 2 && Val(c, u, d.revDep) != 2 {
          if StaysTristate(c, u, s) { ExprRight(c, u, d.weakRevDep, o); }
        } else if vis == 1 && Val(c, u, d.revDep) == 0 {
          ExprRight(c, u, d.weakRevDep, o);
        }
      }
    }
  }

  /** One step from right answers is right. */
  lemma KeyRight(c: Config, u: User, modules: Name, k: Key, o: Oracle)
    requires Ranked(c) && Right(c, u, o, KeyReads(c, u, k))
    ensures StepRight(c, u, modules, k, o, Step(SymbolsOf(c), modules, u, k, o), KeyVal(c, u, k))
  {
    hide Ranked, VisVal, TriVal, StrVal, AsgVal, VisReads, TriReads, StrReads, AsgReads, NeedsType, ModulesRight,
      StepVis, StepTri, StepStr, StepAsg;
    match k
    case Vis(s) => VisRight(c, u, modules, s, o);
    case TriOf(s) => TriRight(c, u, modules, s, o);
    case StrOf(s) => StrRight(c, u, s, o); StringsNeedNone(c, u, s);
    case Asg(s) => AsgRight(c, u, modules, s, o);
  }

  lemma StringsNeedNone(c: Config, u: User, s: Name)
    requires Ranked(c)
    ensures !NeedsType(c, u, StrOf(s))
  {
  }

  // ---------------------------------------------------------------- when evaluation ends

  // Everything that the evaluation of k consults, and k
  ghost function Consulted(c: Config, u: User, k: Key): set<Key>
    requires Ranked(c)
    decreases RankOf(c, k.s), Tag(k)
  {
    KeyMayRead(c, u, k);
    {k} + set r, q | r in KeyReads(c, u, k) && q in Consulted(c, u, r) :: q
  }

  /** No tristate consulted while evaluating k reaches visibility or raw value m. */
  ghost predicate Calm(c: Config, u: User, k: Key)
    requires Ranked(c)
  {
    forall q :: q in Consulted(c, u, k) ==> !NeedsType(c, u, q)
  }

  lemma CalmWhen(c: Config, u: User, k: Key)
    requires Ranked(c)
    ensures Calm(c, u, k) <==> !NeedsType(c, u, k) && forall r :: r in KeyReads(c, u, k) ==> Calm(c, u, r)
  {
    hide Ranked, NeedsType, KeyReads;
  }

  // How deep the evaluation of k can go
  function Depth(c: Config, k: Key): nat {
    4 * RankOf(c, k.s) + Tag(k) + 1
  }

  lemma Deeper(c: Config, u: User, k: Key, r: Key)
    requires Ranked(c) && r in KeyReads(c, u, k)
    ensures Depth(c, r) < Depth(c, k)
  {
    hide Ranked, KeyReads;
    KeyMayRead(c, u, k);
    assert MayRead(c, k, r);
  }

  /** Without reading a type, evaluation ends with the value, whatever MODULES is. */
  lemma {:induction false} CalmEnds(c: Config, modules: Name, u: User, k: Key, n: nat)
    requires Ranked(c) && Calm(c, u, k) && n >= Depth(c, k)
    ensures Fuel(SymbolsOf(c), modules, u, k, n) == Some(KeyVal(c, u, k))
    decreases Depth(c, k)
  {
    hide Ranked, Calm, KeyReads, KeyVal, Step, NeedsType, Depth;
    CalmWhen(c, u, k);
    DepthPositive(c, k);
    var o := Answers(SymbolsOf(c), modules, u, n - 1);
    forall r | r in KeyReads(c, u, k)
      ensures o(r) == Some(KeyVal(c, u, r))
    {
      Deeper(c, u, k, r);
      CalmEnds(c, modules, u, r, n - 1);
    }
    KeyRight(c, u, modules, k, o);
  }

  lemma DepthPositive(c: Config, k: Key)
    ensures Depth(c, k) > 0
  {
  }

  /** If MODULES needs its own type, so that its evaluation is not calm, only calm
      evaluations end. */
  lemma {:induction false} OnlyCalmEnds(c: Config, modules: Name, u: User, k: Key, n: nat)
    requires Ranked(c) && !Calm(c, u, TriOf(modules))
    ensures var v := Fuel(SymbolsOf(c), modules, u, k, n); v.Some? ==> Calm(c, u, k) && v == Some(KeyVal(c, u, k))
    decreases n
  {
    hide Ranked, Calm, KeyReads, KeyVal, Step, NeedsType;
    if n > 0 {
      var o := Answers(SymbolsOf(c), modules, u, n - 1);
      forall r
        ensures o(r).Some? ==> Calm(c, u, r) && o(r) == Some(KeyVal(c, u, r))
      {
        OnlyCalmEnds(c, modules, u, r, n - 1);
      }
      CalmWhen(c, u, k);
      KeyRight(c, u, modules, k, o);
    }
  }

  // The configuration with a constant in place of MODULES
  function Fixed(c: Config, constant: Name, rank: map<Name, nat>): Config {
    c.(modules := constant, rank := rank)
  }

  ghost predicate RankedApart(c: Config, rank: map<Name, nat>) {
    Constants(c) && Ranked(Fixed(c, "y", rank)) && Ranked(Fixed(c, "n", rank))
  }

  // The configuration in which MODULES is what its evaluation gives
  ghost function Resolved(c: Config, rank: map<Name, nat>, u: User): Config
    requires RankedApart(c, rank)
  {
    Fixed(c, if TriVal(Fixed(c, "y", rank), u, c.modules) != 0 then "y" else "n", rank)
  }

  lemma ResolvedModules(c: Config, rank: map<Name, nat>, u: User)
    requires RankedApart(c, rank)
    ensures var d := Resolved(c, rank, u);
      Ranked(d) && (TriVal(d, u, d.modules) != 0 <==> TriVal(Fixed(c, "y", rank), u, c.modules) != 0)
  {
    hide Ranked;
  }

  /** If the evaluation of MODULES is calm, every evaluation ends. */
  lemma {:induction false} AllEnd(c: Config, rank: map<Name, nat>, u: User, k: Key, n: nat)
    requires RankedApart(c, rank) && Calm(Fixed(c, "y", rank), u, TriOf(c.modules))
    requires n >= Depth(Fixed(c, "y", rank), TriOf(c.modules)) + Depth(Resolved(c, rank, u), k)
    ensures Ranked(Resolved(c, rank, u))
    ensures Fuel(SymbolsOf(c), c.modules, u, k, n) == Some(KeyVal(Resolved(c, rank, u), u, k))
    decreases Depth(Resolved(c, rank, u), k)
  {
    hide Ranked, Calm, KeyReads, KeyVal, Step, NeedsType, Depth, Resolved, TriVal, Constants;
    ResolvedModules(c, rank, u);
    var d := Resolved(c, rank, u);
    SameSymbols(c, rank, u);
    DepthPositive(d, k);
    var o := Answers(SymbolsOf(c), c.modules, u, n - 1);
    forall r | r in KeyReads(d, u, k)
      ensures o(r) == Some(KeyVal(d, u, r))
    {
      Deeper(d, u, k, r);
      AllEnd(c, rank, u, r, n - 1);
    }
    CalmEnds(Fixed(c, "y", rank), c.modules, u, TriOf(c.modules), n - 1);
    ModulesAnswered(c, rank, u, o);
    KeyRight(d, u, c.modules, k, o);
  }

  lemma SameSymbols(c: Config, rank: map<Name, nat>, u: User)
    requires RankedApart(c, rank)
    ensures SymbolsOf(Resolved(c, rank, u)) == SymbolsOf(c) == SymbolsOf(Fixed(c, "y", rank))
  {
    hide Ranked, TriVal;
  }

  lemma ModulesAnswered(c: Config, rank: map<Name, nat>, u: User, o: Oracle)
    requires RankedApart(c, rank) && Ranked(Resolved(c, rank, u))
    requires o(TriOf(c.modules)) == Some(KeyVal(Fixed(c, "y", rank), u, TriOf(c.modules)))
    ensures ModulesRight(Resolved(c, rank, u), u, c.modules, o)
  {
    hide Ranked, TriVal, Resolved;
    ResolvedModules(c, rank, u);
  }

  /** For a configuration that the loop check passes: under user values u every evaluation
      ends if and only if no tristate consulted while evaluating MODULES reaches visibility
      or raw value m; and if one does, those evaluations end that are calm themselves. */
  lemma EndsWhen(c: Config, rank: map<Name, nat>, u: User)
    requires RankedApart(c, rank)
    ensures (forall k :: Ends(c, u, k)) <==> Calm(Fixed(c, "y", rank), u, TriOf(c.modules))
    ensures forall k :: Ends(c, u, k) <==> Calm(Fixed(c, "y", rank), u, TriOf(c.modules)) || Calm(Fixed(c, "y", rank), u, k)
  {
    hide Ranked, Calm, KeyReads, KeyVal, Fuel, Depth;
    var d := Fixed(c, "y", rank);
    forall k
      ensures Ends(c, u, k) <==> Calm(d, u, TriOf(c.modules)) || Calm(d, u, k)
    {
      EndsFor(c, rank, u, k);
    }
    assert Ends(c, u, TriOf(c.modules)) <==> Calm(d, u, TriOf(c.modules));
  }

  lemma EndsFor(c: Config, rank: map<Name, nat>, u: User, k: Key)
    requires RankedApart(c, rank)
    ensures Ends(c, u, k) <==> Calm(Fixed(c, "y", rank), u, TriOf(c.modules)) || Calm(Fixed(c, "y", rank), u, k)
  {
    hide Ranked, Calm, KeyReads, KeyVal, Fuel, Depth;
    var d := Fixed(c, "y", rank);
    SameSymbols(c, rank, u);
    if Calm(d, u, TriOf(c.modules)) {
      var n := Depth(d, TriOf(c.modules)) + Depth(Resolved(c, rank, u), k);
      AllEnd(c, rank, u, k, n);
    } else if Calm(d, u, k) {
      CalmEnds(d, c.modules, u, k, Depth(d, k));
      assert Fuel(SymbolsOf(c), c.modules, u, k, Depth(d, k)).Some?;
    } else {
      forall n: nat
        ensures Fuel(SymbolsOf(c), c.modules, u, k, n).None?
      {
        OnlyCalmEnds(d, c.modules, u, k, n);
      }
    }
  }

  /** With a static order, evaluation ends with the from-scratch value. */
  lemma {:induction false} RankedEnds(c: Config, u: User, k: Key, n: nat)
    requires Ranked(c) && n >= Depth(c, k)
    ensures Fuel(SymbolsOf(c), c.modules, u, k, n) == Some(KeyVal(c, u, k))
    decreases Depth(c, k)
  {
    hide Ranked, KeyReads, KeyVal, Step, NeedsType, Depth, ModulesRight;
    DepthPositive(c, k);
    var o := Answers(SymbolsOf(c), c.modules, u, n - 1);
    forall r | r in KeyReads(c, u, k)
      ensures o(r) == Some(KeyVal(c, u, r))
    {
      Deeper(c, u, k, r);
      RankedEnds(c, u, r, n - 1);
    }
    KeyRight(c, u, c.modules, k, o);
    if NeedsType(c, u, k) { TypeIsRead(c, u, k, o); }
  }

  lemma TypeIsRead(c: Config, u: User, k: Key, o: Oracle)
    requires Ranked(c) && NeedsType(c, u, k)
    requires forall r :: r in KeyReads(c, u, k) ==> o(r) == Some(KeyVal(c, u, r))
    ensures ModulesRight(c, u, c.modules, o)
  {
    hide Ranked, TriVal, RawTri, RawTriReads, Prompts, PromptReads, VisVal, Val, Reads;
    assert TriOf(c.modules) in KeyReads(c, u, k);
  }

  // ---------------------------------------------------------------- the loop check

  lemma PassedRanks(c: Config, g: Graph, rank: map<Name, nat>, constant: Name)
    requires (forall t :: Get(g, t) == Dependents(c, t)) && WellFormed(c) && Constants(c)
    requires Order(g, rank) && forall x :: x in rank <==> Defined(c, x)
    requires forall x :: x in rank ==> rank[x] > 0
    requires constant == "y" || constant == "n"
    ensures Ranked(Fixed(c, constant, rank))
  {
    hide Order, Ranked;
    var d := c.(modules := constant);
    assert !Defined(d, constant);
    forall t
      ensures Get(g, t) == FullDeps(d, t)
    {
      assert Dependents(d, t) == Dependents(c, t);
    }
    OrderRanks(d, g, rank);
    assert d.(rank := rank) == Fixed(c, constant, rank);
  }

  /** Kconfig.__init__'s search, and what its passing means for evaluation. */
  method LoopOrEnds(c: Config) returns (loop: Option<seq<Name>>, ghost g: Graph, ghost rank: map<Name, nat>)
    requires WellFormed(c) && Constants(c)
    ensures forall t :: Get(g, t) == Dependents(c, t)
    ensures loop.Some? <==> HasLoop(g)
    ensures loop.None? ==> RankedApart(c, rank)
    ensures loop.None? ==> forall u ::
      (forall k :: Ends(c, u, k)) <==> Calm(Fixed(c, "y", rank), u, TriOf(c.modules))
  {
    hide WellFormed, Ranked, Dependents, HasLoop, IsLoop, Order, ModulesPlain, Calm, Ends;
    loop, g, rank := LoopOrOrder(c);
    if loop.None? {
      PassedRanks(c, g, rank, "y");
      PassedRanks(c, g, rank, "n");
      forall u
        ensures (forall k :: Ends(c, u, k)) <==> Calm(Fixed(c, "y", rank), u, TriOf(c.modules))
      {
        EndsWhen(c, rank, u);
      }
    }
  }

  // ---------------------------------------------------------------- two tristate MODULES

  function Lone(d: SymDef, num: Numerals): Config {
    Config(map["n" := Preset(0), "m" := Preset(1), "y" := Preset(2), "MODULES" := d], "MODULES", map[], num)
  }

  // A definition that consults constants only
  ghost predicate OfConstants(d: SymDef) {
    && d.kind == Tristate && d.preset == None && d.ranges == [] && d.directDep == Sym("y")
    && d.revDep == Sym("n") && d.weakRevDep == Sym("n")
    && (forall i :: 0 <= i < |d.prompts| ==> d.prompts[i] == Sym("n"))
    && (forall i :: 0 <= i < |d.defaults| ==> d.defaults[i] == Default(Sym("m"), Sym("y")))
  }

  ghost predicate IsLone(c: Config, d: SymDef) {
    && Constants(c) && "MODULES" in c.defs && c.defs["MODULES"] == d
    && (forall s :: s in c.defs ==> s == "MODULES" || Constant(c, s))
    && (forall s :: Constant(c, s) <==> s == "n" || s == "m" || s == "y")
  }

  lemma LoneShape(d: SymDef, num: Numerals)
    requires OfConstants(d)
    ensures var c := Lone(d, num);
      WellFormed(c) && IsLone(c, d) && c.modules == "MODULES"
  {
  }

  lemma LoneRanked(d: SymDef, num: Numerals, constant: Name)
    requires OfConstants(d) && (constant == "y" || constant == "n")
    ensures Ranked(Fixed(Lone(d, num), constant, map["MODULES" := 1]))
  {
    hide Lone;
    LoneShape(d, num);
    var c := Fixed(Lone(d, num), constant, map["MODULES" := 1]);
    assert DefBelow(c, d, 1);
  }

  /** The search passes such a MODULES: it is a dependent of constants only. And no static
      order exists. */
  lemma LonePasses(d: SymDef, num: Numerals)
    requires OfConstants(d)
    ensures var c := Lone(d, num); WellFormed(c) && (forall t :: Dependents(c, t) == {}) && !ModulesPlain(c)
  {
    hide Lone;
    LoneShape(d, num);
    var c := Lone(d, num);
    forall t
      ensures Dependents(c, t) == {}
    {
      if !Constant(c, t) { assert !Mentions(d, t); }
    }
    assert Defined(c, c.modules);
  }

  /** With `default m` the search passes and it cannot be evaluated: however deep the
      evaluation goes, it has no value, whatever the user sets. */
  lemma DefaultMLoops(num: Numerals, u: User, n: nat)
    ensures var c := Lone(Defaulted(Tristate, Sym("m")), num);
      (forall t :: Dependents(c, t) == {}) && Fuel(SymbolsOf(c), c.modules, u, TriOf("MODULES"), n) == None
  {
    hide Ranked, Fuel, Calm, Lone, Dependents;
    var d := Defaulted(Tristate, Sym("m"));
    var c := Fixed(Lone(d, num), "y", map["MODULES" := 1]);
    LoneShape(d, num);
    LoneRanked(d, num, "y");
    LonePasses(d, num);
    LoneRaw(c, u);
    CalmWhen(c, u, TriOf("MODULES"));
    OnlyCalmEnds(c, "MODULES", u, TriOf("MODULES"), n);
    assert SymbolsOf(c) == SymbolsOf(Lone(d, num));
  }

  lemma LoneRaw(c: Config, u: User)
    requires Ranked(c) && IsLone(c, Defaulted(Tristate, Sym("m")))
    ensures RawTri(c, u, "MODULES") == 1
  {
    ConstantValues(c, u);
    var ds := c.defs["MODULES"].defaults;
    assert PairBelow(c, ds[0], RankOf(c, "MODULES"));
    assert DefaultTri(c, u, ds, RankOf(c, "MODULES")) == 1;
    assert VisVal(c, u, "MODULES") == 0;
  }

  /** With a prompt at n and no default it can, whatever the user sets: a static order is
      more than evaluation takes. */
  lemma PromptAtNEnds(num: Numerals, u: User, k: Key)
    ensures var c := Lone(SymDef(Tristate, None, [Sym("n")], [], [], Sym("n"), Sym("n"), Sym("y")), num);
      Ends(c, u, k) && !ModulesPlain(c)
  {
    hide Ranked, Ends, Calm, Lone, ModulesPlain;
    var d := SymDef(Tristate, None, [Sym("n")], [], [], Sym("n"), Sym("n"), Sym("y"));
    LoneShape(d, num);
    LonePasses(d, num);
    LoneRanked(d, num, "y");
    LoneRanked(d, num, "n");
    var c, rank := Lone(d, num), map["MODULES" := 1];
    NeverNeeded(Fixed(c, "y", rank), u);
    EndsFor(c, rank, u, k);
  }

  lemma NeverNeeded(c: Config, u: User)
    requires Ranked(c) && IsLone(c, SymDef(Tristate, None, [Sym("n")], [], [], Sym("n"), Sym("n"), Sym("y")))
    ensures Calm(c, u, TriOf("MODULES"))
  {
    ConstantValues(c, u);
    var ps := c.defs["MODULES"].prompts;
    assert ps[..|ps| - 1] == [];
    assert Prompts(c, u, ps, RankOf(c, "MODULES")) == 0;
    assert VisVal(c, u, "MODULES") == 0;
    assert DefaultTri(c, u, [], RankOf(c, "MODULES")) == 0;
    assert RawTri(c, u, "MODULES") == 0;
  }
}
