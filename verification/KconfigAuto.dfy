/**
 When a menu entry counts as depending on a symbol, and so moves into the symbol's
 implicit submenu; and whether it is hidden while the symbol is n, as a submenu suggests.
 */
module KconfigAuto {
  import opened Basics
  import opened KconfigEval
  import opened KconfigAssign
  import Tree = KconfigTree

  // ---------------------------------------------------------------- _expr_depends_on

  // The other side of a comparison with s
  function Other(s: Name, a: Name, b: Name): Name {
    if b == s then a else b
  }

  /** _expr_depends_on. `and` binds tighter than `or` in the source, so y is looked for
      under both relations. */
  predicate DependsOn(e: Expr, s: Name) {
    match e
    case Sym(n) => n == s
    case And(l, r) => DependsOn(l, s) || DependsOn(r, s)
    case Or(_, _) => false
    case Not(_) => false
    case Compare(rel, a, b) =>
      && (rel == Equal || rel == Unequal) && (a == s || b == s)
      && (var o := Other(s, a, b); (rel == Equal && o == "m") || o == "y" || (rel == Unequal && o == "n"))
  }

  // One of: s, s = m, m = s, s = y, y = s, s != n, n != s, somewhere in a conjunction
  predicate Firm(e: Expr, s: Name) {
    match e
    case Sym(n) => n == s
    case And(l, r) => Firm(l, s) || Firm(r, s)
    case Or(_, _) => false
    case Not(_) => false
    case Compare(rel, a, b) =>
      && (a == s || b == s)
      && (var o := Other(s, a, b); (rel == Equal && (o == "m" || o == "y")) || (rel == Unequal && o == "n"))
  }

  // s != y or y != s, somewhere in a conjunction
  predicate Loose(e: Expr, s: Name) {
    match e
    case And(l, r) => Loose(l, s) || Loose(r, s)
    case Compare(rel, a, b) => rel == Unequal && (a == s || b == s) && Other(s, a, b) == "y"
    case _ => false
  }

  // The conjunction without s != y and y != s
  function Without(e: Expr, s: Name): Expr {
    match e
    case And(l, r) => And(Without(l, s), Without(r, s))
    case Compare(_, _, _) => if Loose(e, s) then Sym("y") else e
    case _ => e
  }

  lemma {:induction false} DependsWhen(e: Expr, s: Name)
    ensures DependsOn(e, s) <==> Firm(e, s) || Loose(e, s)
  {
    if e.And? {
      DependsWhen(e.left, s);
      DependsWhen(e.right, s);
    }
  }

  lemma ConstantNumbers(c: Config, u: User, s: Name)
    requires Ranked(c) && Constants(c) && Logical(Def(c, s).kind) && TriVal(c, u, s) == 0
    ensures Num(c, u, s) == Some(0) && Num(c, u, "n") == Some(0) && Num(c, u, "m") == Some(1) && Num(c, u, "y") == Some(2)
    ensures Def(c, s).kind != Str && Def(c, "n").kind != Str && Def(c, "m").kind != Str && Def(c, "y").kind != Str
  {
    hide Ranked;
    ConstantValues(c, u);
  }

  /** While the symbol is n, so is every expression with a firm dependency on it. */
  lemma {:induction false} FirmHides(c: Config, u: User, e: Expr, s: Name)
    requires Ranked(c) && Constants(c) && Logical(Def(c, s).kind) && TriVal(c, u, s) == 0 && Firm(e, s)
    ensures Val(c, u, e) == 0
    decreases e
  {
    hide Ranked, TriVal, Constants;
    match e
    case Sym(_) =>
    case And(l, r) => if Firm(l, s) { FirmHides(c, u, l, s); } else { FirmHides(c, u, r, s); }
    case Compare(_, _, _) => ConstantNumbers(c, u, s);
  }

  /** While the symbol is n, s != y and y != s change nothing. */
  lemma {:induction false} LooseIsY(c: Config, u: User, e: Expr, s: Name)
    requires Ranked(c) && Constants(c) && Logical(Def(c, s).kind) && TriVal(c, u, s) == 0
    ensures Val(c, u, e) == Val(c, u, Without(e, s))
    decreases e
  {
    hide Ranked, TriVal, Constants;
    match e
    case And(l, r) =>
      LooseIsY(c, u, l, s);
      LooseIsY(c, u, r, s);
    case Compare(_, _, _) =>
      ConstantNumbers(c, u, s);
      ConstantValues(c, u);
    case _ =>
  }

  lemma {:induction false} NothingLeft(e: Expr, s: Name)
    requires s != "y" && !Firm(e, s)
    ensures !DependsOn(Without(e, s), s)
    decreases e
  {
    match e
    case And(l, r) =>
      NothingLeft(l, s);
      NothingLeft(r, s);
    case _ =>
  }

  /** While the symbol is n, an expression said to depend on it is n if and only if the
      dependency is firm, or what is left without s != y and y != s is n anyway; and that
      does not depend on the symbol any more. */
  lemma HidesWhen(c: Config, u: User, e: Expr, s: Name)
    requires Ranked(c) && Constants(c) && Logical(Def(c, s).kind) && TriVal(c, u, s) == 0 && DependsOn(e, s)
    ensures Val(c, u, e) == 0 <==> Firm(e, s) || Val(c, u, Without(e, s)) == 0
    ensures !Firm(e, s) ==> Loose(e, s) && !DependsOn(Without(e, s), s)
  {
    hide Ranked;
    DependsWhen(e, s);
    LooseIsY(c, u, e, s);
    ConstantValues(c, u);
    if Firm(e, s) { FirmHides(c, u, e, s); } else { NothingLeft(e, s); }
  }

  /** So an entry can show in the submenu of a symbol that is n: SPARE is n, and the
      expressions SPARE != y and y != SPARE count as dependencies and are y. */
  lemma UnequalYShows(num: Numerals, flip: bool)
    ensures var c, e := TornExample(num), if flip then Compare(Unequal, "y", "SPARE") else Compare(Unequal, "SPARE", "y");
      && Ranked(c) && TriVal(c, map[], "SPARE") == 0
      && DependsOn(e, "SPARE") && Val(c, map[], e) == 2
  {
    hide Ranked, TriVal;
    var c := TornExample(num);
    ExampleRanked(num);
    ConstantValues(c, map[]);
    SpareIsN(c);
    LooseIsY(c, map[], if flip then Compare(Unequal, "y", "SPARE") else Compare(Unequal, "SPARE", "y"), "SPARE");
  }

  lemma SpareIsN(c: Config)
    requires Ranked(c) && Constants(c) && "SPARE" in c.defs && c.defs["SPARE"] == Driver(Sym("n"), Sym("n"))
    ensures TriVal(c, map[], "SPARE") == 0
  {
    ConstantValues(c, map[]);
    assert WeakTri(c, map[], "SPARE") == 0;
  }

  // ---------------------------------------------------------------- implicit submenus

  /** What _auto_menu_dep looks at: the symbol of a node, and the condition of its prompt,
      or its dependencies if it has none. */
  datatype Entries = Entries(item: Tree.Id -> Tree.Item, sym: Tree.Id -> Name, cond: Tree.Id -> Expr)

  function NodesOf(t: Entries): Tree.Nodes {
    Tree.Nodes(t.item, (a: Tree.Id, b: Tree.Id) => DependsOn(t.cond(b), t.sym(a)))
  }

  // The entries of one level
  function OnLevel(f: Tree.Forest): set<Tree.Id> {
    if f.Nil? then {} else {f.id} + OnLevel(f.next)
  }

  lemma {:induction false} LevelDepends(c: Tree.Nodes, sym: Tree.Id, f: Tree.Forest, id: Tree.Id)
    requires Tree.AllDepend(c, sym, f) && id in OnLevel(f)
    ensures c.dep(sym, id)
    decreases f
  {
    if id != f.id { LevelDepends(c, sym, f.next, id); }
  }

  /** While a symbol is n, an entry that its implicit submenu takes is hidden if and only
      if the dependency is firm or the rest of its condition is n. */
  lemma SubmenuHides(t: Entries, top: Tree.Id, f: Tree.Forest, c: Config, u: User, id: Tree.Id)
    requires Ranked(c) && Constants(c) && Logical(Def(c, t.sym(top)).kind) && TriVal(c, u, t.sym(top)) == 0
    requires id in OnLevel(Tree.Absorb(NodesOf(t), top, f).0)
    ensures Val(c, u, t.cond(id)) == 0 <==> Firm(t.cond(id), t.sym(top)) || Val(c, u, Without(t.cond(id), t.sym(top))) == 0
  {
    hide Ranked, Constants;
    Tree.AbsorbMaximal(NodesOf(t), top, f);
    LevelDepends(NodesOf(t), top, Tree.Absorb(NodesOf(t), top, f).0, id);
    HidesWhen(c, u, t.cond(id), t.sym(top));
  }
}
