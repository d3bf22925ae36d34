/**
 The menu tree of a Kconfig file as a value, and what finalization makes of it: implicit
 submenus below symbols, promptless nodes flattened, 'if' nodes removed.
 */
module KconfigTree {

  type Id = nat

  // MenuNode.item: an 'if' has no item and no prompt
  datatype Item = If | Symbol(prompt: bool) | Choice(prompt: bool) | Other(prompt: bool)

  // item of each node, and _auto_menu_dep between two nodes
  datatype Nodes = Nodes(item: Id -> Item, dep: (Id, Id) -> bool)

  // A node, the list of its children, and the nodes behind it on its level
  datatype Forest = Nil | Node(id: Id, list: Forest, next: Forest)

  function Size(f: Forest): nat {
    match f
    case Nil => 0
    case Node(_, l, n) => 1 + Size(l) + Size(n)
  }

  function Append(f: Forest, g: Forest): (r: Forest)
    ensures Size(r) == Size(f) + Size(g)
  {
    match f
    case Nil => g
    case Node(id, l, n) => Node(id, l, Append(n, g))
  }

  // Order of the nodes in the file
  function Preorder(f: Forest): seq<Id> {
    match f
    case Nil => []
    case Node(id, l, n) => [id] + Preorder(l) + Preorder(n)
  }

  // ---------------------------------------------------------------- one level

  // _flatten moves the children of such a node behind it
  predicate Lifts(c: Nodes, id: Id) {
    c.item(id).If? || (!c.item(id).Choice? && !c.item(id).prompt)
  }

  function Flatten(c: Nodes, f: Forest): (r: Forest)
    ensures Size(r) == Size(f)
    decreases Size(f)
  {
    match f
    case Nil => Nil
    case Node(id, l, n) =>
      if l != Nil && Lifts(c, id) then Node(id, Nil, Flatten(c, Append(l, n)))
      else Node(id, l, Flatten(c, n))
  }

  function RemoveIfs(c: Nodes, f: Forest): (r: Forest)
    ensures Size(r) <= Size(f)
  {
    match f
    case Nil => Nil
    case Node(id, l, n) => if c.item(id).If? then RemoveIfs(c, n) else Node(id, l, RemoveIfs(c, n))
  }

  function Level(c: Nodes, f: Forest): (r: Forest)
    ensures Size(r) <= Size(f)
  {
    RemoveIfs(c, Flatten(c, f))
  }

  // ---------------------------------------------------------------- _finalize_tree

  // Finalizes the first node; a symbol may take nodes behind it as its children
  function Finalize(c: Nodes, f: Forest): (r: Forest)
    requires f.Node?
    ensures r.Node? && r.id == f.id && Size(r) <= Size(f)
    decreases Size(f), 0
  {
    var Node(id, l, n) := f;
    if l != Nil then Node(id, Level(c, FinalizeAll(c, l)), n)
    else if c.item(id).Symbol? then
      var (taken, rest) := Absorb(c, id, n);
      Node(id, Level(c, taken), rest)
    else f
  }

  function FinalizeAll(c: Nodes, f: Forest): (r: Forest)
    ensures Size(r) <= Size(f)
    decreases Size(f), 1
  {
    if f == Nil then Nil
    else
      var g := Finalize(c, f);
      Node(g.id, g.list, FinalizeAll(c, g.next))
  }

  // Nodes that depend on the symbol, each finalized, and what is left behind them
  function Absorb(c: Nodes, sym: Id, f: Forest): (r: (Forest, Forest))
    ensures Size(r.0) + Size(r.1) <= Size(f)
    decreases Size(f), 1
  {
    if f == Nil || !c.dep(sym, f.id) then (Nil, f)
    else
      var g := Finalize(c, f);
      var (taken, rest) := Absorb(c, sym, g.next);
      (Node(g.id, g.list, taken), rest)
  }

  // ---------------------------------------------------------------- order and contents

  // The nodes that are not 'if' nodes, in order
  function Kept(c: Nodes, f: Forest): seq<Id> {
    match f
    case Nil => []
    case Node(id, l, n) => (if c.item(id).If? then [] else [id]) + Kept(c, l) + Kept(c, n)
  }

  // No 'if' nodes at all
  predicate Clean(c: Nodes, f: Forest) {
    match f
    case Nil => true
    case Node(id, l, n) => !c.item(id).If? && Clean(c, l) && Clean(c, n)
  }

  // No 'if' nodes below this level
  predicate CleanBelow(c: Nodes, f: Forest) {
    match f
    case Nil => true
    case Node(_, l, n) => Clean(c, l) && CleanBelow(c, n)
  }

  // 'if' nodes on this level have lost their children
  predicate BareIfs(c: Nodes, f: Forest) {
    match f
    case Nil => true
    case Node(id, l, n) => (c.item(id).If? ==> l == Nil) && BareIfs(c, n)
  }

  lemma {:induction false} KeptAppend(c: Nodes, f: Forest, g: Forest)
    ensures Kept(c, Append(f, g)) == Kept(c, f) + Kept(c, g)
  {
    if f.Node? { KeptAppend(c, f.next, g); }
  }

  lemma {:induction false} CleanAppend(c: Nodes, f: Forest, g: Forest)
    requires Clean(c, f) && CleanBelow(c, g)
    ensures CleanBelow(c, Append(f, g))
  {
    if f.Node? { CleanAppend(c, f.next, g); }
  }

  lemma Regroup(a: seq<Id>, b: seq<Id>, c: seq<Id>, d: seq<Id>)
    ensures a + b + (c + d) == a + b + c + d && a + (b + c) == a + b + c
  {
  }

  lemma {:induction false} FlattenKeeps(c: Nodes, f: Forest)
    ensures Kept(c, Flatten(c, f)) == Kept(c, f)
    decreases Size(f)
  {
    match f
    case Nil =>
    case Node(id, l, n) =>
      if l != Nil && Lifts(c, id) {
        FlattenKeeps(c, Append(l, n));
        KeptAppend(c, l, n);
        var head := if c.item(id).If? then [] else [id];
        Regroup(head, Kept(c, l), Kept(c, n), []);
        assert head + [] == head;
      } else {
        FlattenKeeps(c, n);
      }
  }

  lemma {:induction false} FlattenCleans(c: Nodes, f: Forest)
    requires CleanBelow(c, f)
    ensures CleanBelow(c, Flatten(c, f)) && BareIfs(c, Flatten(c, f))
    decreases Size(f)
  {
    match f
    case Nil =>
    case Node(id, l, n) =>
      if l != Nil && Lifts(c, id) {
        CleanAppend(c, l, n);
        FlattenCleans(c, Append(l, n));
      } else {
        FlattenCleans(c, n);
      }
  }

  lemma {:induction false} RemoveIfsKeeps(c: Nodes, f: Forest)
    requires BareIfs(c, f)
    ensures Kept(c, RemoveIfs(c, f)) == Kept(c, f)
    ensures CleanBelow(c, f) ==> Clean(c, RemoveIfs(c, f))
  {
    if f.Node? { RemoveIfsKeeps(c, f.next); }
  }

  lemma LevelKeeps(c: Nodes, f: Forest)
    requires CleanBelow(c, f)
    ensures Kept(c, Level(c, f)) == Kept(c, f) && Clean(c, Level(c, f))
  {
    FlattenKeeps(c, f);
    FlattenCleans(c, f);
    RemoveIfsKeeps(c, Flatten(c, f));
  }

  lemma {:induction false} FinalizeKeeps(c: Nodes, f: Forest)
    requires f.Node?
    ensures Kept(c, Finalize(c, f)) == Kept(c, f) && Clean(c, Finalize(c, f).list)
    decreases Size(f), 0
  {
    var Node(id, l, n) := f;
    if l != Nil {
      FinalizeAllKeeps(c, l);
      LevelKeeps(c, FinalizeAll(c, l));
    } else if c.item(id).Symbol? {
      AbsorbKeeps(c, id, n);
      LevelKeeps(c, Absorb(c, id, n).0);
    }
  }

  lemma {:induction false} FinalizeAllKeeps(c: Nodes, f: Forest)
    ensures Kept(c, FinalizeAll(c, f)) == Kept(c, f) && CleanBelow(c, FinalizeAll(c, f))
    decreases Size(f), 1
  {
    if f != Nil {
      FinalizeKeeps(c, f);
      var g := Finalize(c, f);
      FinalizeAllKeeps(c, g.next);
    }
  }

  lemma {:induction false} AbsorbKeeps(c: Nodes, sym: Id, f: Forest)
    ensures var (taken, rest) := Absorb(c, sym, f);
      Kept(c, taken) + Kept(c, rest) == Kept(c, f) && CleanBelow(c, taken)
    decreases Size(f), 1
  {
    if f != Nil && c.dep(sym, f.id) {
      FinalizeKeeps(c, f);
      var g := Finalize(c, f);
      AbsorbKeeps(c, sym, g.next);
      var (taken, rest) := Absorb(c, sym, g.next);
      var head := if c.item(g.id).If? then [] else [g.id];
      Regroup(head, Kept(c, g.list), Kept(c, taken), Kept(c, rest));
    }
  }

  // ---------------------------------------------------------------- what is moved

  // No node without a prompt keeps children, on any level, choices aside
  predicate Tidy(c: Nodes, f: Forest) {
    match f
    case Nil => true
    case Node(id, l, n) => (Lifts(c, id) ==> l == Nil) && Tidy(c, l) && Tidy(c, n)
  }

  predicate TidyBelow(c: Nodes, f: Forest) {
    match f
    case Nil => true
    case Node(_, l, n) => Tidy(c, l) && TidyBelow(c, n)
  }

  lemma {:induction false} TidyAppend(c: Nodes, f: Forest, g: Forest)
    requires Tidy(c, f) && TidyBelow(c, g)
    ensures TidyBelow(c, Append(f, g))
  {
    if f.Node? { TidyAppend(c, f.next, g); }
  }

  lemma {:induction false} FlattenTidies(c: Nodes, f: Forest)
    requires TidyBelow(c, f)
    ensures Tidy(c, Flatten(c, f))
    decreases Size(f)
  {
    match f
    case Nil =>
    case Node(id, l, n) =>
      if l != Nil && Lifts(c, id) {
        TidyAppend(c, l, n);
        FlattenTidies(c, Append(l, n));
      } else {
        FlattenTidies(c, n);
      }
  }

  lemma {:induction false} RemoveIfsTidy(c: Nodes, f: Forest)
    requires Tidy(c, f)
    ensures Tidy(c, RemoveIfs(c, f))
  {
    if f.Node? { RemoveIfsTidy(c, f.next); }
  }

  lemma LevelTidies(c: Nodes, f: Forest)
    requires TidyBelow(c, f)
    ensures Tidy(c, Level(c, f))
  {
    FlattenTidies(c, f);
    RemoveIfsTidy(c, Flatten(c, f));
  }

  /** After finalization no node without a prompt has children, on any level, except a choice. */
  lemma {:induction false} FinalizeTidies(c: Nodes, f: Forest)
    requires f.Node?
    ensures Tidy(c, Finalize(c, f).list)
    decreases Size(f), 0
  {
    var Node(id, l, n) := f;
    if l != Nil {
      FinalizeAllTidies(c, l);
      LevelTidies(c, FinalizeAll(c, l));
    } else if c.item(id).Symbol? {
      AbsorbTidies(c, id, n);
      LevelTidies(c, Absorb(c, id, n).0);
    }
  }

  lemma {:induction false} FinalizeAllTidies(c: Nodes, f: Forest)
    ensures TidyBelow(c, FinalizeAll(c, f))
    decreases Size(f), 1
  {
    if f != Nil {
      FinalizeTidies(c, f);
      FinalizeAllTidies(c, Finalize(c, f).next);
    }
  }

  lemma {:induction false} AbsorbTidies(c: Nodes, sym: Id, f: Forest)
    ensures TidyBelow(c, Absorb(c, sym, f).0)
    decreases Size(f), 1
  {
    if f != Nil && c.dep(sym, f.id) {
      FinalizeTidies(c, f);
      AbsorbTidies(c, sym, Finalize(c, f).next);
    }
  }

  // Every node of a level depends on the symbol
  predicate AllDepend(c: Nodes, sym: Id, f: Forest) {
    f == Nil || (c.dep(sym, f.id) && AllDepend(c, sym, f.next))
  }

  /** A symbol takes nodes that depend on it, and stops only at one that does not. */
  lemma {:induction false} AbsorbMaximal(c: Nodes, sym: Id, f: Forest)
    ensures var (taken, rest) := Absorb(c, sym, f);
      AllDepend(c, sym, taken) && (rest != Nil ==> !c.dep(sym, rest.id))
    decreases Size(f)
  {
    if f != Nil && c.dep(sym, f.id) { AbsorbMaximal(c, sym, Finalize(c, f).next); }
  }

  lemma {:induction false} CleanPreorder(c: Nodes, f: Forest)
    requires Clean(c, f)
    ensures Preorder(f) == Kept(c, f)
  {
    if f.Node? {
      CleanPreorder(c, f.list);
      CleanPreorder(c, f.next);
    }
  }

  lemma Cancel(h: seq<Id>, a: seq<Id>, b: seq<Id>)
    requires h + a + [] == h + b + []
    ensures a == b
  {
    assert a == (h + a + [])[|h|..] && b == (h + b + [])[|h|..];
  }

  /** Finalization keeps every node that is not an 'if' exactly once and in the order of
      the file, and leaves no 'if' node. */
  lemma FinalizedOrder(c: Nodes, top: Forest)
    requires top.Node? && top.next == Nil
    ensures var r := Finalize(c, top); r.next == Nil && Clean(c, r.list) && Preorder(r.list) == Kept(c, top.list)
  {
    var r := Finalize(c, top);
    FinalizeKeeps(c, top);
    assert Absorb(c, top.id, Nil) == (Nil, Nil);
    CleanPreorder(c, r.list);
    Cancel(if c.item(top.id).If? then [] else [top.id], Kept(c, r.list), Kept(c, top.list));
  }

  // ---------------------------------------------------------------- nodes stay distinct

  function Ids(f: Forest): set<Id> {
    match f
    case Nil => {}
    case Node(id, l, n) => {id} + Ids(l) + Ids(n)
  }

  predicate Distinct(f: Forest) {
    match f
    case Nil => true
    case Node(id, l, n) =>
      id !in Ids(l) + Ids(n) && Ids(l) !! Ids(n) && Distinct(l) && Distinct(n)
  }

  lemma {:induction false} IdsAppend(f: Forest, g: Forest)
    ensures Ids(Append(f, g)) == Ids(f) + Ids(g)
    ensures Distinct(Append(f, g)) <==> Distinct(f) && Distinct(g) && Ids(f) !! Ids(g)
  {
    if f.Node? { IdsAppend(f.next, g); }
  }

  lemma {:induction false} FlattenIds(c: Nodes, f: Forest)
    ensures Ids(Flatten(c, f)) == Ids(f)
    ensures Distinct(f) ==> Distinct(Flatten(c, f))
    decreases Size(f)
  {
    match f
    case Nil =>
    case Node(id, l, n) =>
      if l != Nil && Lifts(c, id) {
        IdsAppend(l, n);
        FlattenIds(c, Append(l, n));
      } else {
        FlattenIds(c, n);
      }
  }

  lemma {:induction false} RemoveIfsIds(c: Nodes, f: Forest)
    ensures Ids(RemoveIfs(c, f)) <= Ids(f)
    ensures Distinct(f) ==> Distinct(RemoveIfs(c, f))
  {
    if f.Node? { RemoveIfsIds(c, f.next); }
  }

  lemma LevelIds(c: Nodes, f: Forest)
    ensures Ids(Level(c, f)) <= Ids(f)
    ensures Distinct(f) ==> Distinct(Level(c, f))
  {
    FlattenIds(c, f);
    RemoveIfsIds(c, Flatten(c, f));
  }

  lemma {:induction false} FinalizeIds(c: Nodes, f: Forest)
    requires f.Node? && Distinct(f)
    ensures Ids(Finalize(c, f)) <= Ids(f) && Distinct(Finalize(c, f))
    decreases Size(f), 0
  {
    var Node(id, l, n) := f;
    if l != Nil {
      FinalizeAllIds(c, l);
      LevelIds(c, FinalizeAll(c, l));
    } else if c.item(id).Symbol? {
      AbsorbIds(c, id, n);
      LevelIds(c, Absorb(c, id, n).0);
    }
  }

  lemma {:induction false} FinalizeAllIds(c: Nodes, f: Forest)
    requires Distinct(f)
    ensures Ids(FinalizeAll(c, f)) <= Ids(f) && Distinct(FinalizeAll(c, f))
    decreases Size(f), 1
  {
    if f != Nil {
      FinalizeIds(c, f);
      FinalizeAllIds(c, Finalize(c, f).next);
    }
  }

  lemma {:induction false} AbsorbIds(c: Nodes, sym: Id, f: Forest)
    requires Distinct(f)
    ensures var (taken, rest) := Absorb(c, sym, f);
      Ids(taken) + Ids(rest) <= Ids(f) && Distinct(taken) && Distinct(rest) && Ids(taken) !! Ids(rest)
    decreases Size(f), 1
  {
    if f != Nil && c.dep(sym, f.id) {
      FinalizeIds(c, f);
      AbsorbIds(c, sym, Finalize(c, f).next);
    }
  }
}
