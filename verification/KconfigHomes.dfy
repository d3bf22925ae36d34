/**
 Where finalization puts every node, in one pass over the file: below which node each
 entry ends up.
 */
module KconfigHomes {
  import opened KconfigTree

  // ---------------------------------------------------------------- homes in the file

  // Entries may be shown below such a node
  predicate Stays(c: Nodes, id: Id) {
    match c.item(id)
    case If => false
    case Symbol(prompt) => prompt
    case Choice(_) => true
    case Other(prompt) => prompt
  }

  // The innermost of the open symbols that the node depends on, and those around it
  function Still(c: Nodes, open: seq<Id>, id: Id): (r: seq<Id>)
    ensures r <= open && (r != [] ==> c.dep(r[|r| - 1], id))
  {
    if open == [] || c.dep(open[|open| - 1], id) then open else Still(c, open[..|open| - 1], id)
  }

  // The innermost of the open symbols that entries may be shown below, or par
  function Nearest(c: Nodes, par: Id, open: seq<Id>): Id {
    if open == [] then par
    else if Stays(c, open[|open| - 1]) then open[|open| - 1]
    else Nearest(c, par, open[..|open| - 1])
  }

  /** The nodes of a level, other than 'if' nodes, in the order of the file, each with the
      node it belongs below. A symbol without children of its own stays open for the nodes
      behind it as long as each depends on it or on a symbol opened since. A node belongs below
      the nearest node around it, in the file or by being open for it, that is a choice or
      has a prompt; par is the one around the level. */
  function Homes(c: Nodes, par: Id, open: seq<Id>, f: Forest): seq<(Id, Id)>
    decreases f
  {
    match f
    case Nil => []
    case Node(id, l, n) =>
      var o := Still(c, open, id);
      var home := Nearest(c, par, o);
      (if c.item(id).If? then [] else [(id, home)])
      + Homes(c, if Stays(c, id) then id else home, [], l)
      + Homes(c, par, if l == Nil && c.item(id).Symbol? then o + [id] else o, n)
  }

  // The nodes of a tree in order, each with its parent
  function Pairs(par: Id, f: Forest): seq<(Id, Id)>
    decreases f
  {
    match f
    case Nil => []
    case Node(id, l, n) => [(id, par)] + Pairs(id, l) + Pairs(par, n)
  }

  // ---------------------------------------------------------------- one level

  lemma LiftsOrStays(c: Nodes, id: Id)
    ensures Lifts(c, id) <==> !Stays(c, id)
  {
  }

  lemma {:induction false} PairsAppend(par: Id, f: Forest, g: Forest)
    ensures Pairs(par, Append(f, g)) == Pairs(par, f) + Pairs(par, g)
  {
    if f.Node? {
      PairsAppend(par, f.next, g);
      Join([(f.id, par)], Pairs(f.id, f.list), Pairs(par, f.next), Pairs(par, g));
    }
  }

  lemma Join(a: seq<(Id, Id)>, b: seq<(Id, Id)>, c: seq<(Id, Id)>, d: seq<(Id, Id)>)
    ensures a + b + (c + d) == a + b + c + d
  {
  }

  lemma {:induction false} FlattenPast(c: Nodes, l: Forest, n: Forest)
    requires Tidy(c, l)
    ensures Flatten(c, Append(l, n)) == Append(l, Flatten(c, n))
  {
    if l.Node? { FlattenPast(c, l.next, n); }
  }

  lemma {:induction false} RemovePast(c: Nodes, l: Forest, n: Forest)
    requires Clean(c, l)
    ensures RemoveIfs(c, Append(l, n)) == Append(l, RemoveIfs(c, n))
  {
    if l.Node? { RemovePast(c, l.next, n); }
  }

  // A level of finalized nodes, the children of those that entries cannot be shown below
  // being lifted
  function LiftedLevel(c: Nodes, par: Id, f: Forest): seq<(Id, Id)> {
    match f
    case Nil => []
    case Node(id, l, n) =>
      (if c.item(id).If? then [] else [(id, par)]) + Pairs(if Stays(c, id) then id else par, l) + LiftedLevel(c, par, n)
  }

  lemma {:induction false} LevelLifts(c: Nodes, par: Id, f: Forest)
    requires TidyBelow(c, f) && CleanBelow(c, f)
    ensures Pairs(par, Level(c, f)) == LiftedLevel(c, par, f)
  {
    match f
    case Nil =>
    case Node(id, l, n) =>
      LevelLifts(c, par, n);
      LiftsOrStays(c, id);
      if l != Nil && Lifts(c, id) {
        FlattenPast(c, l, n);
        RemovePast(c, l, Flatten(c, n));
        PairsAppend(par, l, RemoveIfs(c, Flatten(c, n)));
        var head := if c.item(id).If? then [] else [(id, par)];
        Join(head, [], Pairs(par, l), LiftedLevel(c, par, n));
        assert head + [] == head;
      }
  }

  // ---------------------------------------------------------------- finalization

  lemma StillOpen(c: Nodes, open: seq<Id>, id: Id)
    requires open != []
    ensures c.dep(open[|open| - 1], id) ==> Still(c, open, id) == open
    ensures !c.dep(open[|open| - 1], id) ==> Still(c, open, id) == Still(c, open[..|open| - 1], id)
  {
  }

  lemma NearestOpen(c: Nodes, par: Id, open: seq<Id>, id: Id)
    ensures Nearest(c, par, open + [id]) == if Stays(c, id) then id else Nearest(c, par, open)
  {
    assert (open + [id])[..|open|] == open;
  }

  // The first node, what finalization puts below it, and what is left behind it
  lemma {:induction false} FinalizeHomes(c: Nodes, par: Id, open: seq<Id>, f: Forest)
    requires f.Node?
    ensures var g, o := Finalize(c, f), Still(c, open, f.id);
      var home := Nearest(c, par, o);
      Homes(c, par, open, f) == (if c.item(f.id).If? then [] else [(f.id, home)])
        + Pairs(if Stays(c, f.id) then f.id else home, g.list) + Homes(c, par, o, g.next)
    decreases Size(f), 0
  {
    var Node(id, l, n) := f;
    var o := Still(c, open, id);
    var home := Nearest(c, par, o);
    var inner := if Stays(c, id) then id else home;
    var head := if c.item(id).If? then [] else [(id, home)];
    if l != Nil {
      FinalizeAllHomes(c, inner, l);
      FinalizeAllTidies(c, l);
      FinalizeAllKeeps(c, l);
      LevelLifts(c, inner, FinalizeAll(c, l));
    } else if c.item(id).Symbol? {
      AbsorbHomes(c, par, o, id, n);
      AbsorbTidies(c, id, n);
      AbsorbKeeps(c, id, n);
      LevelLifts(c, inner, Absorb(c, id, n).0);
      NearestOpen(c, par, o, id);
      Join(head, [], Pairs(inner, Finalize(c, f).list), Homes(c, par, o, Finalize(c, f).next));
      assert head + [] == head;
    }
  }

  lemma {:induction false} FinalizeAllHomes(c: Nodes, par: Id, f: Forest)
    ensures LiftedLevel(c, par, FinalizeAll(c, f)) == Homes(c, par, [], f)
    decreases Size(f), 1
  {
    if f != Nil {
      FinalizeHomes(c, par, [], f);
      FinalizeAllHomes(c, par, Finalize(c, f).next);
    }
  }

  // A symbol takes the nodes it stays open for
  lemma {:induction false} AbsorbHomes(c: Nodes, par: Id, open: seq<Id>, sym: Id, f: Forest)
    ensures var (taken, rest) := Absorb(c, sym, f);
      Homes(c, par, open + [sym], f) == LiftedLevel(c, Nearest(c, par, open + [sym]), taken) + Homes(c, par, open, rest)
    decreases Size(f), 1
  {
    var o := open + [sym];
    assert o[..|o| - 1] == open;
    if f == Nil {
      assert Homes(c, par, o, f) == [];
    } else {
      StillOpen(c, o, f.id);
      if c.dep(sym, f.id) {
        FinalizeHomes(c, par, o, f);
        var g := Finalize(c, f);
        AbsorbHomes(c, par, open, sym, g.next);
        var home := Nearest(c, par, o);
        Join(if c.item(f.id).If? then [] else [(f.id, home)], Pairs(if Stays(c, f.id) then f.id else home, g.list),
             LiftedLevel(c, home, Absorb(c, sym, g.next).0), Homes(c, par, open, Absorb(c, sym, g.next).1));
      } else {
        SameHomes(c, par, o, open, f);
      }
    }
  }

  lemma SameHomes(c: Nodes, par: Id, a: seq<Id>, b: seq<Id>, f: Forest)
    requires f.Node? && Still(c, a, f.id) == Still(c, b, f.id)
    ensures Homes(c, par, a, f) == Homes(c, par, b, f)
  {
  }

  /** Finalization puts every node that is not an 'if' where it belongs, in the order of the
      file. */
  lemma FinalizedHomes(c: Nodes, top: Forest)
    requires top.Node? && top.next == Nil
    ensures Pairs(top.id, Finalize(c, top).list) == Homes(c, top.id, [], top.list)
  {
    if top.list != Nil {
      FinalizeAllHomes(c, top.id, top.list);
      FinalizeAllTidies(c, top.list);
      FinalizeAllKeeps(c, top.list);
      LevelLifts(c, top.id, FinalizeAll(c, top.list));
    } else {
      assert Absorb(c, top.id, Nil) == (Nil, Nil);
    }
  }

  // ---------------------------------------------------------------- what follows

  /** A node with a prompt, or a choice, keeps what the file puts below it: in a tree without
      dependencies and 'if' nodes in which every node has a prompt, nothing moves. */
  lemma {:induction false} NothingMoves(c: Nodes, par: Id, f: Forest)
    requires forall id :: Stays(c, id)
    requires forall a, b :: !c.dep(a, b)
    ensures forall open :: Homes(c, par, open, f) == Pairs(par, f)
    decreases f
  {
    if f.Node? {
      NothingMoves(c, f.id, f.list);
      NothingMoves(c, par, f.next);
      forall open
        ensures Homes(c, par, open, f) == Pairs(par, f)
      {
        NoneOpen(c, open, f.id);
      }
    }
  }

  lemma {:induction false} NoneOpen(c: Nodes, open: seq<Id>, id: Id)
    requires forall a, b :: !c.dep(a, b)
    ensures Still(c, open, id) == []
  {
    if open != [] { NoneOpen(c, open[..|open| - 1], id); }
  }
}
