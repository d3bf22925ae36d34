/**
 Kconfig symbols, expressions and their from-scratch evaluation, for configurations
 without choices.  Beside every value this module defines the keys its evaluation
 consults, in the order and with the short cuts the evaluator takes; the cache proof
 rests on them.
 */
module KconfigEval {
  import opened Basics

  type Name = string
  type Tri = x: int | 0 <= x <= 2  // n, m, y

  datatype Kind = Unknown | Bool | Tristate | Str | Int | Hex

  datatype Rel = Equal | Unequal | Less | LessEqual | Greater | GreaterEqual

  datatype Expr =
    | Sym(name: Name)
    | And(left: Expr, right: Expr)
    | Or(left: Expr, right: Expr)
    | Not(arg: Expr)
    | Compare(rel: Rel, a: Name, b: Name)

  // 'default value if cond' and 'range low high if cond'
  datatype Default = Default(value: Expr, cond: Expr)
  datatype Range = Range(low: Name, high: Name, cond: Expr)

  /** A symbol after parsing: `prompts` holds the condition of every definition that
      has a prompt; `preset` is the value of the constants n, m and y. */
  datatype SymDef = SymDef(
    kind: Kind,
    preset: Option<Tri>,
    prompts: seq<Expr>,
    defaults: seq<Default>,
    ranges: seq<Range>,
    revDep: Expr,
    weakRevDep: Expr,
    directDep: Expr)

  datatype UserValue = UTri(t: Tri) | UStr(s: string)

  type User = map<Name, UserValue>

  // int(text, base) and str()/hex(), which Python provides
  datatype Numerals = Numerals(parse: (string, nat) -> Option<int>, render: (int, nat) -> string)

  /** _strcmp: -1, 0 or 1. */
  function Strcmp(s: string, t: string): int {
    if s == [] || t == [] then (if s != [] then 1 else if t != [] then -1 else 0)
    else if s[0] > t[0] then 1
    else if s[0] < t[0] then -1
    else Strcmp(s[1..], t[1..])
  }

  /** `rank` orders the symbols so that each depends on lower ones only. */
  datatype Config = Config(
    defs: map<Name, SymDef>,
    modules: Name,
    rank: map<Name, nat>,
    num: Numerals)

  const UNDEFINED := SymDef(Unknown, None, [], [], [], Sym("n"), Sym("n"), Sym("n"))

  function Def(c: Config, s: Name): SymDef {
    if s in c.defs then c.defs[s] else UNDEFINED
  }

  function RankOf(c: Config, s: Name): nat {
    if s in c.rank then c.rank[s] else 0
  }

  // One more than the highest rank in e
  function ExprRank(c: Config, e: Expr): nat {
    match e
    case Sym(n) => RankOf(c, n) + 1
    case And(l, r) => Max(ExprRank(c, l), ExprRank(c, r))
    case Or(l, r) => Max(ExprRank(c, l), ExprRank(c, r))
    case Not(a) => ExprRank(c, a)
    case Compare(_, a, b) => Max(RankOf(c, a), RankOf(c, b)) + 1
  }

  predicate PairBelow(c: Config, p: Default, b: nat) {
    ExprRank(c, p.value) <= b && ExprRank(c, p.cond) <= b
  }

  predicate RangeBelow(c: Config, p: Range, b: nat) {
    RankOf(c, p.low) < b && RankOf(c, p.high) < b && ExprRank(c, p.cond) <= b
  }

  predicate DefBelow(c: Config, d: SymDef, b: nat) {
    && (forall i {:trigger d.prompts[i]} :: 0 <= i < |d.prompts| ==> ExprRank(c, d.prompts[i]) <= b)
    && (forall i {:trigger d.defaults[i]} :: 0 <= i < |d.defaults| ==> PairBelow(c, d.defaults[i], b))
    && (forall i {:trigger d.ranges[i]} :: 0 <= i < |d.ranges| ==> RangeBelow(c, d.ranges[i], b))
    && ExprRank(c, d.revDep) <= b && ExprRank(c, d.weakRevDep) <= b && ExprRank(c, d.directDep) <= b
    && (d.kind == Tristate && d.preset == None ==> RankOf(c, c.modules) < b)
  }

  predicate IsSym(e: Expr) { e.Sym? }

  predicate Logical(k: Kind) { k == Bool || k == Tristate }

  /** Symbols depend on lower-ranked ones only; string and number symbols default to
      single symbols; constants have no definition of their own. */
  ghost predicate Ranked(c: Config) {
    forall s :: s in c.defs ==>
      var d := c.defs[s];
      && (d.preset == None ==> DefBelow(c, d, RankOf(c, s)))
      && (d.preset != None ==> d.kind == Tristate && d.prompts == [])
      && (!Logical(d.kind) ==> forall i {:trigger d.defaults[i]} :: 0 <= i < |d.defaults| ==> IsSym(d.defaults[i].value))
  }

  // What one evaluation can consult
  datatype Key = Vis(s: Name) | TriOf(s: Name) | StrOf(s: Name) | Asg(s: Name)

  // ---------------------------------------------------------------- expressions

  function Base(k: Kind): nat {
    match k
    case Hex => 16
    case Int => 10
    case _ => 0
  }

  function Holds(rel: Rel, comp: int): Tri {
    var b := match rel
      case Equal => comp == 0
      case Unequal => comp != 0
      case Less => comp < 0
      case LessEqual => comp <= 0
      case Greater => comp > 0
      case GreaterEqual => comp >= 0;
    if b then 2 else 0
  }

  /** expr_value. */
  ghost function Val(c: Config, u: User, e: Expr): Tri
    requires Ranked(c)
    decreases ExprRank(c, e), 0, e
  {
    match e
    case Sym(n) => TriVal(c, u, n)
    case And(l, r) => var v := Val(c, u, l); if v == 0 then 0 else Min(v, Val(c, u, r))
    case Or(l, r) => var v := Val(c, u, l); if v == 2 then 2 else Max(v, Val(c, u, r))
    case Not(a) => 2 - Val(c, u, a)
    case Compare(rel, a, b) =>
      if Def(c, a).kind == Str && Def(c, b).kind == Str then
        Holds(rel, Strcmp(StrVal(c, u, a), StrVal(c, u, b)))
      else
        var x, y := Num(c, u, a), Num(c, u, b);
        if x.Some? && y.Some? then Holds(rel, x.value - y.value)
        else Holds(rel, Strcmp(StrVal(c, u, a), StrVal(c, u, b)))
  }

  /** _sym_to_num, None where it raises ValueError. */
  ghost function Num(c: Config, u: User, s: Name): Option<int>
    requires Ranked(c)
    decreases RankOf(c, s), 5
  {
    if Logical(Def(c, s).kind) then Some(TriVal(c, u, s) as int)
    else c.num.parse(StrVal(c, u, s), Base(Def(c, s).kind))
  }

  function NumKey(c: Config, s: Name): Key {
    if Logical(Def(c, s).kind) then TriOf(s) else StrOf(s)
  }

  // The keys expr_value consults, stopping where it stops
  ghost function Reads(c: Config, u: User, e: Expr): set<Key>
    requires Ranked(c)
  {
    match e
    case Sym(n) => {TriOf(n)}
    case And(l, r) => Reads(c, u, l) + if Val(c, u, l) == 0 then {} else Reads(c, u, r)
    case Or(l, r) => Reads(c, u, l) + if Val(c, u, l) == 2 then {} else Reads(c, u, r)
    case Not(a) => Reads(c, u, a)
    case Compare(_, a, b) =>
      if Def(c, a).kind == Str && Def(c, b).kind == Str then {StrOf(a), StrOf(b)}
      else
        {NumKey(c, a)} +
        (if Num(c, u, a).Some? then {NumKey(c, b)} else {}) +
        (if Num(c, u, a).Some? && Num(c, u, b).Some? then {} else {StrOf(a), StrOf(b)})
  }

  // ---------------------------------------------------------------- visibility

  // The highest value among the prompt conditions
  ghost function Prompts(c: Config, u: User, ps: seq<Expr>, b: nat): Tri
    requires Ranked(c)
    requires forall i {:trigger ps[i]} :: 0 <= i < |ps| ==> ExprRank(c, ps[i]) <= b
    decreases b, 1, |ps|
  {
    if ps == [] then 0 else Max(Prompts(c, u, ps[..|ps| - 1], b), Val(c, u, ps[|ps| - 1]))
  }

  ghost function PromptReads(c: Config, u: User, ps: seq<Expr>): set<Key>
    requires Ranked(c)
  {
    if ps == [] then {} else PromptReads(c, u, ps[..|ps| - 1]) + Reads(c, u, ps[|ps| - 1])
  }

  // Symbol.type is TRISTATE: a tristate is a bool while MODULES is n
  ghost predicate StaysTristate(c: Config, u: User, s: Name)
    requires Ranked(c)
    decreases RankOf(c, s), 1
  {
    s in c.defs && c.defs[s].kind == Tristate && c.defs[s].preset == None && TriVal(c, u, c.modules) != 0
  }

  function TypeReads(c: Config, s: Name): set<Key> {
    if s in c.defs && c.defs[s].kind == Tristate && c.defs[s].preset == None then {TriOf(c.modules)} else {}
  }

  /** _visibility. */
  ghost function VisVal(c: Config, u: User, s: Name): Tri
    requires Ranked(c)
    decreases RankOf(c, s), 2
  {
    if s !in c.defs || c.defs[s].preset != None then 0 else
      var v := Prompts(c, u, c.defs[s].prompts, RankOf(c, s));
      if v == 1 && !StaysTristate(c, u, s) then 2 else v
  }

  ghost function VisReads(c: Config, u: User, s: Name): set<Key>
    requires Ranked(c)
  {
    if s !in c.defs || c.defs[s].preset != None then {} else
      PromptReads(c, u, c.defs[s].prompts) +
      if Prompts(c, u, c.defs[s].prompts, RankOf(c, s)) == 1 then TypeReads(c, s) else {}
  }

  // ---------------------------------------------------------------- tristate value

  // The first default whose condition holds
  ghost function DefaultTri(c: Config, u: User, ds: seq<Default>, b: nat): Tri
    requires Ranked(c)
    requires forall i {:trigger ds[i]} :: 0 <= i < |ds| ==> PairBelow(c, ds[i], b)
    decreases b, 1, |ds|
  {
    if ds == [] then 0 else
      assert PairBelow(c, ds[0], b);
      var dep := Val(c, u, ds[0].cond);
      if dep != 0 then Min(Val(c, u, ds[0].value), dep) else DefaultTri(c, u, ds[1..], b)
  }

  ghost function DefaultTriReads(c: Config, u: User, ds: seq<Default>): set<Key>
    requires Ranked(c)
  {
    if ds == [] then {} else
      Reads(c, u, ds[0].cond) +
      if Val(c, u, ds[0].cond) != 0 then Reads(c, u, ds[0].value) else DefaultTriReads(c, u, ds[1..])
  }

  // The user value counts only while the symbol is visible
  predicate UserTri(u: User, s: Name, vis: Tri) {
    vis != 0 && s in u && u[s].UTri?
  }

  // Value before selects and promotion
  ghost function WeakTri(c: Config, u: User, s: Name): Tri
    requires Ranked(c) && s in c.defs && c.defs[s].preset == None
    decreases RankOf(c, s), 3, 0
  {
    var d, vis := c.defs[s], VisVal(c, u, s);
    if UserTri(u, s, vis) then Min(u[s].t, vis) else
      var v := DefaultTri(c, u, d.defaults, RankOf(c, s));
      var weak := Val(c, u, d.weakRevDep);
      if weak != 0 && Val(c, u, d.directDep) != 0 then Max(weak, v) else v
  }

  ghost function WeakTriReads(c: Config, u: User, s: Name): set<Key>
    requires Ranked(c) && s in c.defs && c.defs[s].preset == None
  {
    var d := c.defs[s];
    {Vis(s)} +
    if UserTri(u, s, VisVal(c, u, s)) then {} else
      DefaultTriReads(c, u, d.defaults) + Reads(c, u, d.weakRevDep) +
      if Val(c, u, d.weakRevDep) != 0 then Reads(c, u, d.directDep) else {}
  }

  // Value before promotion of m to y
  ghost function RawTri(c: Config, u: User, s: Name): Tri
    requires Ranked(c) && s in c.defs && c.defs[s].preset == None
    decreases RankOf(c, s), 3, 1
  {
    Max(Val(c, u, c.defs[s].revDep), WeakTri(c, u, s))
  }

  ghost function RawTriReads(c: Config, u: User, s: Name): set<Key>
    requires Ranked(c) && s in c.defs && c.defs[s].preset == None
  {
    var d := c.defs[s];
    WeakTriReads(c, u, s) + Reads(c, u, d.revDep) +
    if Val(c, u, d.revDep) != 0 then Reads(c, u, d.directDep) else {}
  }

  /** Symbol.tri_value. */
  ghost function TriVal(c: Config, u: User, s: Name): Tri
    requires Ranked(c)
    decreases RankOf(c, s), 3, 2
  {
    if s !in c.defs then 0
    else if c.defs[s].preset.Some? then c.defs[s].preset.value
    else if !Logical(c.defs[s].kind) then 0
    else
      var v := RawTri(c, u, s);
      if v == 1 && (!StaysTristate(c, u, s) || Val(c, u, c.defs[s].weakRevDep) == 2) then 2 else v
  }

  ghost function TriReads(c: Config, u: User, s: Name): set<Key>
    requires Ranked(c)
  {
    if s !in c.defs || c.defs[s].preset.Some? || !Logical(c.defs[s].kind) then {} else
      RawTriReads(c, u, s) +
      if RawTri(c, u, s) != 1 then {} else
        TypeReads(c, s) + if StaysTristate(c, u, s) then Reads(c, u, c.defs[s].weakRevDep) else {}
  }

  // ---------------------------------------------------------------- string value

  function TriToStr(t: Tri): string {
    if t == 0 then "n" else if t == 1 then "m" else "y"
  }

  // int(text, base), or 0 where the text is no number
  function Number(c: Config, text: string, base: nat): int {
    var p := c.num.parse(text, base);
    if p.Some? then p.value else 0
  }

  // The first range whose condition holds
  ghost function ActiveRange(c: Config, u: User, rs: seq<Range>, base: nat, b: nat): Option<(int, int)>
    requires Ranked(c)
    requires forall i {:trigger rs[i]} :: 0 <= i < |rs| ==> RangeBelow(c, rs[i], b)
    decreases b, 1, |rs|
  {
    if rs == [] then None
    else if assert RangeBelow(c, rs[0], b); Val(c, u, rs[0].cond) != 0 then
      Some((Number(c, StrVal(c, u, rs[0].low), base), Number(c, StrVal(c, u, rs[0].high), base)))
    else ActiveRange(c, u, rs[1..], base, b)
  }

  ghost function RangeReads(c: Config, u: User, rs: seq<Range>): set<Key>
    requires Ranked(c)
  {
    if rs == [] then {} else
      Reads(c, u, rs[0].cond) +
      if Val(c, u, rs[0].cond) != 0 then {StrOf(rs[0].low), StrOf(rs[0].high)} else RangeReads(c, u, rs[1..])
  }

  // The string of the first default whose condition holds
  ghost function DefaultStr(c: Config, u: User, ds: seq<Default>, b: nat): Option<string>
    requires Ranked(c)
    requires forall i {:trigger ds[i]} :: 0 <= i < |ds| ==> PairBelow(c, ds[i], b) && IsSym(ds[i].value)
    decreases b, 1, |ds|
  {
    if ds == [] then None
    else if assert PairBelow(c, ds[0], b) && IsSym(ds[0].value); Val(c, u, ds[0].cond) != 0 then Some(StrVal(c, u, ds[0].value.name))
    else DefaultStr(c, u, ds[1..], b)
  }

  ghost function DefaultStrReads(c: Config, u: User, ds: seq<Default>): set<Key>
    requires Ranked(c)
    requires forall i {:trigger ds[i]} :: 0 <= i < |ds| ==> IsSym(ds[i].value)
  {
    if ds == [] then {} else
      Reads(c, u, ds[0].cond) +
      assert IsSym(ds[0].value);
      if Val(c, u, ds[0].cond) != 0 then {StrOf(ds[0].value.name)} else DefaultStrReads(c, u, ds[1..])
  }

  // A user string counts while the symbol is visible; numbers ignore the empty one
  predicate UserStr(u: User, s: Name, vis: Tri) {
    vis != 0 && s in u && u[s].UStr?
  }

  predicate UserNumber(c: Config, u: User, s: Name, vis: Tri, base: nat, range: Option<(int, int)>) {
    && UserStr(u, s, vis) && u[s].s != ""
    && (range.Some? ==> range.value.0 <= Number(c, u[s].s, base) <= range.value.1)
  }

  // A default outside the active range is replaced by the nearer bound
  function Clamp(c: Config, text: Option<string>, base: nat, range: Option<(int, int)>): string {
    var v := if text.Some? then text.value else "";
    var n := if text.Some? then Number(c, text.value, base) else 0;
    if range.Some? && n < range.value.0 then c.num.render(range.value.0, base)
    else if range.Some? && n > range.value.1 then c.num.render(range.value.1, base)
    else v
  }

  ghost function NumberStr(c: Config, u: User, s: Name): string
    requires Ranked(c) && s in c.defs && c.defs[s].preset == None && !Logical(c.defs[s].kind)
    decreases RankOf(c, s), 3, 3
  {
    var d, base := c.defs[s], Base(c.defs[s].kind);
    var range := ActiveRange(c, u, d.ranges, base, RankOf(c, s));
    if UserNumber(c, u, s, VisVal(c, u, s), base, range) then u[s].s
    else Clamp(c, DefaultStr(c, u, d.defaults, RankOf(c, s)), base, range)
  }

  /** Symbol.str_value. */
  ghost function StrVal(c: Config, u: User, s: Name): string
    requires Ranked(c)
    decreases RankOf(c, s), 4
  {
    if s !in c.defs then s else
      var d := c.defs[s];
      if Logical(d.kind) then TriToStr(TriVal(c, u, s))
      else if d.kind == Unknown then s
      else if d.kind == Str then
        if UserStr(u, s, VisVal(c, u, s)) then u[s].s else
          var t := DefaultStr(c, u, d.defaults, RankOf(c, s));
          if t.Some? then t.value else ""
      else NumberStr(c, u, s)
  }

  ghost function StrReads(c: Config, u: User, s: Name): set<Key>
    requires Ranked(c)
  {
    if s !in c.defs then {} else
      var d := c.defs[s];
      if Logical(d.kind) then {TriOf(s)}
      else if d.kind == Unknown then {}
      else if d.kind == Str then
        {Vis(s)} + if UserStr(u, s, VisVal(c, u, s)) then {} else DefaultStrReads(c, u, d.defaults)
      else
        var base := Base(d.kind);
        var range := ActiveRange(c, u, d.ranges, base, RankOf(c, s));
        {Vis(s)} + RangeReads(c, u, d.ranges) +
        if UserNumber(c, u, s, VisVal(c, u, s), base, range) then {} else DefaultStrReads(c, u, d.defaults)
  }

  // ---------------------------------------------------------------- assignable values

  /** Symbol.assignable. */
  ghost function AsgVal(c: Config, u: User, s: Name): seq<Tri>
    requires Ranked(c)
  {
    if s !in c.defs || c.defs[s].preset.Some? || !Logical(c.defs[s].kind) then [] else
      var d, vis := c.defs[s], VisVal(c, u, s);
      if vis == 0 then [] else
        var rev := Val(c, u, d.revDep);
        var noM := !StaysTristate(c, u, s) || Val(c, u, d.weakRevDep) == 2;
        if vis == 2 then
          if rev == 0 then if noM then [0, 2] else [0, 1, 2]
          else if rev == 2 then [2]
          else if noM then [2] else [1, 2]
        else
          if rev == 0 then if Val(c, u, d.weakRevDep) != 2 then [0, 1] else [0, 2]
          else if rev == 2 then [2] else [1]
  }

  ghost function AsgReads(c: Config, u: User, s: Name): set<Key>
    requires Ranked(c)
  {
    if s !in c.defs || c.defs[s].preset.Some? || !Logical(c.defs[s].kind) then {} else
      var d, vis := c.defs[s], VisVal(c, u, s);
      {Vis(s)} +
      if vis == 0 then {} else
        Reads(c, u, d.revDep) +
        if vis == 2 && Val(c, u, d.revDep) != 2 then
          TypeReads(c, s) + if StaysTristate(c, u, s) then Reads(c, u, d.weakRevDep) else {}
        else if vis == 1 && Val(c, u, d.revDep) == 0 then Reads(c, u, d.weakRevDep)
        else {}
  }

  // ---------------------------------------------------------------- keys

  datatype Value = OfTri(t: Tri) | OfStr(s: string) | OfAsg(a: seq<Tri>)

  ghost function KeyVal(c: Config, u: User, k: Key): Value
    requires Ranked(c)
  {
    match k
    case Vis(s) => OfTri(VisVal(c, u, s))
    case TriOf(s) => OfTri(TriVal(c, u, s))
    case StrOf(s) => OfStr(StrVal(c, u, s))
    case Asg(s) => OfAsg(AsgVal(c, u, s))
  }

  ghost function KeyReads(c: Config, u: User, k: Key): set<Key>
    requires Ranked(c)
  {
    match k
    case Vis(s) => VisReads(c, u, s)
    case TriOf(s) => TriReads(c, u, s)
    case StrOf(s) => StrReads(c, u, s)
    case Asg(s) => AsgReads(c, u, s)
  }
}
