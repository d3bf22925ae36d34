/**
 The menu tree as linked nodes. Finalization changes the links in place; it is proved to
 turn the links of a tree into the links of the finalized tree. The iterative walk over
 the links is proved to visit the tree in preorder.
 */
module KconfigMenu {
  import opened Basics
  import opened KconfigTree
  import opened KconfigHomes

  // MenuNode.list, MenuNode.next and MenuNode.parent of every node
  datatype Links = Links(list: seq<Option<Id>>, next: seq<Option<Id>>, parent: seq<Option<Id>>)

  predicate Shape(k: Links, n: nat) {
    |k.list| == n && |k.next| == n && |k.parent| == n
  }

  function Head(f: Forest): Option<Id> {
    if f == Nil then None else Some(f.id)
  }

  // Following list and next from the first node gives the forest
  predicate Rep(k: Links, first: Option<Id>, f: Forest)
    decreases f
  {
    match f
    case Nil => first == None
    case Node(id, l, n) =>
      && first == Some(id) && Shape(k, |k.list|) && id < |k.list|
      && Rep(k, k.list[id], l) && Rep(k, k.next[id], n)
  }

  predicate Parents(k: Links, par: Option<Id>, f: Forest)
    decreases f
  {
    match f
    case Nil => true
    case Node(id, l, n) =>
      id < |k.parent| && k.parent[id] == par && Parents(k, Some(id), l) && Parents(k, par, n)
  }

  predicate Has(k: Links, first: Option<Id>, par: Option<Id>, f: Forest) {
    Rep(k, first, f) && Parents(k, par, f) && Distinct(f)
  }

  // Links j differ from k only at the given nodes
  ghost predicate Within(k: Links, j: Links, ids: set<Id>) {
    && Shape(k, |k.list|) && Shape(j, |k.list|)
    && (forall i :: 0 <= i < |k.list| && i !in ids ==> Agree(k, j, i))
  }

  predicate Agree(k: Links, j: Links, i: nat)
    requires Shape(k, |k.list|) && Shape(j, |k.list|) && i < |k.list|
  {
    j.list[i] == k.list[i] && j.next[i] == k.next[i] && j.parent[i] == k.parent[i]
  }

  lemma WithinTrans(k: Links, j: Links, i: Links, a: set<Id>, b: set<Id>)
    requires Within(k, j, a) && Within(j, i, b)
    ensures Within(k, i, a + b)
  {
    forall x | 0 <= x < |k.list| && x !in a + b
      ensures Agree(k, i, x)
    {
      assert Agree(k, j, x) && Agree(j, i, x);
    }
  }

  // ---------------------------------------------------------------- frames

  lemma {:induction false} RepFrame(k: Links, j: Links, first: Option<Id>, f: Forest)
    requires Rep(k, first, f) && Shape(k, |k.list|) && Shape(j, |k.list|)
    requires forall i :: i in Ids(f) && i < |k.list| ==> j.list[i] == k.list[i] && j.next[i] == k.next[i]
    ensures Rep(j, first, f)
    decreases f
  {
    match f
    case Nil =>
    case Node(id, l, n) =>
      RepFrame(k, j, k.list[id], l);
      RepFrame(k, j, k.next[id], n);
  }

  lemma {:induction false} ParentsFrame(k: Links, j: Links, par: Option<Id>, f: Forest)
    requires Parents(k, par, f) && |j.parent| == |k.parent|
    requires forall i :: i in Ids(f) && i < |k.parent| ==> j.parent[i] == k.parent[i]
    ensures Parents(j, par, f)
    decreases f
  {
    match f
    case Nil =>
    case Node(id, l, n) =>
      ParentsFrame(k, j, Some(id), l);
      ParentsFrame(k, j, par, n);
  }

  lemma HasFrame(k: Links, j: Links, first: Option<Id>, par: Option<Id>, f: Forest, ids: set<Id>)
    requires Has(k, first, par, f) && Within(k, j, ids) && ids !! Ids(f)
    ensures Has(j, first, par, f)
  {
    forall i | i in Ids(f) && i < |k.list|
      ensures Agree(k, j, i)
    {
    }
    RepFrame(k, j, first, f);
    ParentsFrame(k, j, par, f);
  }

  // ---------------------------------------------------------------- lists of nodes

  function Last(f: Forest): Id
    requires f.Node?
  {
    if f.next == Nil then f.id else Last(f.next)
  }

  lemma {:induction false} LastIn(f: Forest)
    requires f.Node?
    ensures Last(f) in Ids(f)
  {
    if f.next.Node? { LastIn(f.next); }
  }

  lemma {:induction false} AppendNil(f: Forest)
    ensures Append(f, Nil) == f
  {
    if f.Node? { AppendNil(f.next); }
  }

  lemma {:induction false} AppendAssoc(f: Forest, g: Forest, h: Forest)
    ensures Append(Append(f, g), h) == Append(f, Append(g, h))
  {
    if f.Node? { AppendAssoc(f.next, g, h); }
  }

  lemma {:induction false} LastAppend(f: Forest, g: Forest)
    requires g.Node?
    ensures Append(f, g).Node? && Last(Append(f, g)) == Last(g)
  {
    if f.Node? { LastAppend(f.next, g); }
  }

  lemma {:induction false} ParentsAppend(k: Links, par: Option<Id>, f: Forest, g: Forest)
    ensures Parents(k, par, Append(f, g)) <==> Parents(k, par, f) && Parents(k, par, g)
    decreases f
  {
    if f.Node? { ParentsAppend(k, par, f.next, g); }
  }

  // The rest of a list is a list, and the last node before it leads to it
  lemma {:induction false} RepRest(k: Links, first: Option<Id>, f: Forest, g: Forest)
    requires Rep(k, first, Append(f, g))
    ensures Rep(k, Head(g), g)
    ensures f.Node? ==> Last(f) < |k.next| && k.next[Last(f)] == Head(g)
    decreases f
  {
    if f.Node? { RepRest(k, k.next[f.id], f.next, g); }
  }

  // Behind the nodes f another list takes the place of g
  lemma {:induction false} Graft(k: Links, j: Links, first: Option<Id>, f: Forest, g: Forest, h: Forest)
    requires Rep(k, first, Append(f, g)) && Shape(k, |k.list|) && Shape(j, |k.list|)
    requires forall i :: i in Ids(f) && i < |k.list| ==> j.list[i] == k.list[i] && j.next[i] == k.next[i]
    requires Head(g) == Head(h) && Rep(j, Head(h), h)
    ensures Rep(j, first, Append(f, h))
    decreases f
  {
    if f.Node? {
      RepFrame(k, j, k.list[f.id], f.list);
      Graft(k, j, k.next[f.id], f.next, g, h);
    }
  }

  // The last node of f is made to lead to another list
  lemma {:induction false} Relink(k: Links, j: Links, first: Option<Id>, f: Forest, g: Forest, h: Forest)
    requires f.Node? && Distinct(f) && Rep(k, first, Append(f, g)) && Shape(k, |k.list|) && Shape(j, |k.list|)
    requires forall i :: i in Ids(f) && i < |k.list| ==> j.list[i] == k.list[i]
    requires forall i :: i in Ids(f) && i < |k.list| && i != Last(f) ==> j.next[i] == k.next[i]
    requires Last(f) < |k.list| ==> j.next[Last(f)] == Head(h)
    requires Rep(j, Head(h), h)
    ensures Rep(j, first, Append(f, h))
    decreases f
  {
    LastIn(f);
    if f.next == Nil {
      RepFrame(k, j, k.list[f.id], f.list);
    } else {
      LastIn(f.next);
      RepFrame(k, j, k.list[f.id], f.list);
      Relink(k, j, k.next[f.id], f.next, g, h);
    }
  }

  lemma Suffix(k: Links, first: Option<Id>, par: Option<Id>, f: Forest, g: Forest)
    requires Has(k, first, par, Append(f, g))
    ensures Has(k, Head(g), par, g) && Ids(f) !! Ids(g) && Ids(Append(f, g)) == Ids(f) + Ids(g)
  {
    RepRest(k, first, f, g);
    ParentsAppend(k, par, f, g);
    IdsAppend(f, g);
  }

  // A change confined to the nodes of g that leaves a list h there
  lemma Replace(k: Links, j: Links, first: Option<Id>, par: Option<Id>, f: Forest, g: Forest, h: Forest)
    requires Has(k, first, par, Append(f, g)) && Within(k, j, Ids(g))
    requires Head(g) == Head(h) && Has(j, Head(h), par, h) && Ids(h) <= Ids(g)
    ensures Has(j, first, par, Append(f, h)) && Ids(Append(f, h)) <= Ids(Append(f, g))
  {
    IdsAppend(f, g);
    IdsAppend(f, h);
    ParentsAppend(k, par, f, g);
    ParentsAppend(j, par, f, h);
    forall i | i in Ids(f) && i < |k.list|
      ensures Agree(k, j, i)
    {
    }
    Graft(k, j, first, f, g, h);
    ParentsFrame(k, j, par, f);
  }

  function One(t: Forest): Forest
    requires t.Node?
  {
    Node(t.id, t.list, Nil)
  }

  lemma StepOver(f: Forest, t: Forest, g: Forest)
    requires t.Node?
    ensures Append(Append(f, One(t)), t.next) == Append(f, t)
    ensures Append(Append(f, One(t)), g) == Append(f, Node(t.id, t.list, g))
  {
    AppendAssoc(f, One(t), t.next);
    AppendAssoc(f, One(t), g);
  }

  lemma Front(k: Links, first: Option<Id>, par: Option<Id>, t: Forest)
    requires Has(k, first, par, t) && t.Node?
    ensures t.id < |k.list| && Shape(k, |k.list|) && first == Some(t.id)
    ensures k.list[t.id] == Head(t.list) && k.next[t.id] == Head(t.next) && k.parent[t.id] == par
    ensures Has(k, k.list[t.id], Some(t.id), t.list) && Has(k, k.next[t.id], par, t.next)
    ensures t.id !in Ids(t.list) && t.id !in Ids(t.next) && Ids(t.list) !! Ids(t.next)
  {
    assert Rep(k, k.list[t.id], t.list) && Rep(k, k.next[t.id], t.next);
  }

  // The part of a level that begins with its first node that is not an 'if'
  function FromNonIf(c: Nodes, f: Forest): Forest {
    if f == Nil || !c.item(f.id).If? then f else FromNonIf(c, f.next)
  }

  // ---------------------------------------------------------------- the class

  class Menu {
    const c: Nodes
    var list: seq<Option<Id>>
    var next: seq<Option<Id>>
    var parent: seq<Option<Id>>

    ghost function K(): Links
      reads this
    {
      Links(list, next, parent)
    }

    constructor (c: Nodes, list: seq<Option<Id>>, next: seq<Option<Id>>, parent: seq<Option<Id>>)
      ensures this.c == c && K() == Links(list, next, parent)
    {
      this.c, this.list, this.next, this.parent := c, list, next, parent;
    }

    // The children of a node move behind it, with its parent as theirs
    method LiftChildren(node: Id, ghost f: Forest, ghost par: Option<Id>)
      requires f.Node? && f.id == node && f.list != Nil && Has(K(), Some(node), par, f)
      modifies this
      ensures Has(K(), Some(node), par, Node(node, Nil, Append(f.list, f.next)))
      ensures Within(old(K()), K(), Ids(f))
    {
      ghost var k := K();
      var last := Reparent(node, f, par);
      ghost var j := K();
      next := next[last := next[node]];
      next := next[node := list[node]];
      list := list[node := None];
      Lifted(k, j, K(), f, par, last);
    }

    method Reparent(node: Id, ghost f: Forest, ghost par: Option<Id>) returns (last: Id)
      requires f.Node? && f.id == node && f.list != Nil && Has(K(), Some(node), par, f)
      modifies this`parent
      ensures Shape(K(), |list|) && last == Last(f.list) && last < |list| && parent[node] == old(parent)[node]
      ensures Parents(K(), par, f.list) && |parent| == |old(parent)|
      ensures forall i :: 0 <= i < |parent| && i !in Ids(f.list) ==> parent[i] == old(parent)[i]
    {
      ghost var k := K();
      assert Rep(k, list[node], f.list);
      last := list[node].value;
      parent := parent[last := parent[node]];
      ghost var pre, t := Nil, f.list;
      Reparented(k, K(), Some(node), par, t, last);
      while next[last].Some?
        invariant Shape(K(), |list|) && t.Node? && t.id == last && last < |list|
        invariant Append(pre, t) == f.list && Last(t) == Last(f.list) && Rep(k, Some(last), t)
        invariant parent[node] == par && Halfway(K(), par, node, pre, t)
        invariant forall i :: 0 <= i < |parent| && i !in Ids(f.list) ==> parent[i] == k.parent[i]
        decreases Size(t)
      {
        ghost var now := K();
        assert Rep(k, next[last], t.next);
        IdsAppend(pre, t);
        last := next[last].value;
        parent := parent[last := parent[node]];
        AppendAssoc(pre, Node(t.id, t.list, Nil), t.next);
        HalfwayStep(now, K(), par, node, pre, t);
        pre, t := Append(pre, Node(t.id, t.list, Nil)), t.next;
      }
      ParentsAppend(K(), par, pre, t);
    }

    /** _flatten of the level that begins with the first node. */
    method FlattenLevel(first: Option<Id>, ghost f: Forest, ghost par: Option<Id>)
      requires Has(K(), first, par, f) && Shape(K(), |list|)
      modifies this
      ensures Has(K(), first, par, Flatten(c, f)) && Within(old(K()), K(), Ids(f))
    {
      hide Has, Within, Distinct;
      var node := first;
      ghost var k := K();
      ghost var done, todo := Nil, f;
      HeadIs(k, first, par, f);
      WithinSelf(k, Ids(f));
      while node.Some?
        invariant Has(K(), first, par, Append(done, todo)) && node == Head(todo)
        invariant Flatten(c, f) == Append(done, Flatten(c, todo))
        invariant Ids(Append(done, todo)) <= Ids(f) && Within(k, K(), Ids(f))
        decreases Size(todo)
      {
        ghost var j := K();
        Suffix(j, first, par, done, todo);
        Front(j, node, par, todo);
        if list[node.value].Some? && Lifts(c, node.value) {
          ghost var g := Node(todo.id, Nil, Append(todo.list, todo.next));
          LiftChildren(node.value, todo, par);
          IdsAppend(todo.list, todo.next);
          Replace(j, K(), first, par, done, todo, g);
          WithinStep(k, j, K(), Ids(todo), Ids(f));
          todo := g;
          Front(K(), node, par, todo);
        }
        node := next[node.value];
        StepOver(done, todo, Flatten(c, todo.next));
        done, todo := Append(done, One(todo)), todo.next;
      }
      AppendNil(done);
    }

    /** The first node from start on that is not an 'if'. */
    method SkipIfs(start: Option<Id>, ghost t: Forest, ghost par: Option<Id>) returns (r: Option<Id>, ghost s: Forest)
      requires Has(K(), start, par, t)
      ensures r == Head(FromNonIf(c, t)) && s == FromNonIf(c, t)
      ensures Has(K(), r, par, s) && Ids(s) <= Ids(t) && Size(s) <= Size(t)
      ensures RemoveIfs(c, s) == RemoveIfs(c, t) && (s != Nil ==> !c.item(s.id).If?)
    {
      r, s := start, t;
      HeadIs(K(), r, par, s);
      while r.Some? && c.item(r.value).If?
        invariant Has(K(), r, par, s) && Ids(s) <= Ids(t) && Size(s) <= Size(t) && r == Head(s)
        invariant RemoveIfs(c, s) == RemoveIfs(c, t) && FromNonIf(c, s) == FromNonIf(c, t)
        decreases Size(s)
      {
        Front(K(), r, par, s);
        r, s := next[r.value], s.next;
      }
    }

    /** _remove_ifs of the children of node. */
    method RemoveIfNodes(node: Id, ghost f: Forest)
      requires Shape(K(), |list|) && node < |list| && node !in Ids(f) && Has(K(), list[node], Some(node), f)
      modifies this`list, this`next
      ensures Shape(K(), |list|) && node < |list| && next[node] == old(next)[node]
      ensures Has(K(), list[node], Some(node), RemoveIfs(c, f)) && Within(old(K()), K(), Ids(f) + {node})
    {
      hide Has, Distinct, Within;
      ghost var k := K();
      ghost var par, all := Some(node), Ids(f) + {node};
      var cur, todo := SkipIfs(list[node], f, par);
      list := list[node := cur];
      ListChanged(k, K(), node, cur, par, todo, all);
      ghost var done := Nil;
      HeadIs(K(), cur, par, todo);
      while cur.Some?
        invariant Shape(K(), |list|) && node < |list| && next[node] == k.next[node]
        invariant Has(K(), list[node], par, Append(done, todo)) && cur == Head(todo)
        invariant todo != Nil ==> !c.item(todo.id).If?
        invariant RemoveIfs(c, f) == Append(done, RemoveIfs(c, todo))
        invariant Ids(Append(done, todo)) <= Ids(f) && Within(k, K(), all)
        decreases Size(todo)
      {
        ghost var j := K();
        Suffix(j, list[node], par, done, todo);
        Front(j, cur, par, todo);
        var nxt, s := SkipIfs(next[cur.value], todo.next, par);
        next := next[cur.value := nxt];
        HeadIs(j, nxt, par, s);
        NextChanged(j, K(), par, todo, s);
        ghost var t := Node(todo.id, todo.list, s);
        Replace(j, K(), list[node], par, done, todo, t);
        WithinStep(k, j, K(), Ids(todo), all);
        StepOver(done, t, RemoveIfs(c, s));
        cur := nxt;
        done, todo := Append(done, One(t)), s;
      }
      AppendNil(done);
    }

    /** _finalize_tree: the links below and behind node become those of the finalized tree. */
    method FinalizeTree(node: Id, ghost f: Forest, ghost par: Option<Id>)
      requires f.Node? && f.id == node && Has(K(), Some(node), par, f)
      modifies this
      ensures Has(K(), Some(node), par, Finalize(c, f)) && Within(old(K()), K(), Ids(f))
      decreases Size(f), 1
    {
      hide Has, Distinct, Within, Level, Append;
      ghost var k := K();
      Front(k, Some(node), par, f);
      WithinSelf(k, Ids(f));
      ghost var g := f;
      if list[node].Some? {
        FinalizeChildren(list[node], f.list, Some(node));
        FinalizeAllIdsOf(c, k, k.list[node], Some(node), f.list);
        HeadIs(K(), k.list[node], Some(node), FinalizeAll(c, f.list));
        g := Node(node, FinalizeAll(c, f.list), f.next);
        ChildrenReplaced(k, K(), par, f, g.list);
      } else if c.item(node).Symbol? {
        ImplicitMenu(node, f, par);
        g := Node(node, Absorb(c, node, f.next).0, Absorb(c, node, f.next).1);
        AbsorbIdsOf(c, k, par, f);
      }
      Front(K(), Some(node), par, g);
      if list[node].Some? {
        ghost var j := K();
        FinishLevel(node, g, par);
        WithinStep(k, j, K(), Ids(g), Ids(f));
      } else {
        LevelNil(c);
      }
    }

    // The loop over the children
    method FinalizeChildren(first: Option<Id>, ghost f: Forest, ghost par: Option<Id>)
      requires Has(K(), first, par, f) && Shape(K(), |list|)
      modifies this
      ensures Has(K(), first, par, FinalizeAll(c, f)) && Within(old(K()), K(), Ids(f))
      decreases Size(f), 2
    {
      hide Has, Distinct, Within, Finalize;
      ghost var k := K();
      ghost var done, todo := Nil, f;
      var cur := first;
      HeadIs(k, first, par, f);
      WithinSelf(k, Ids(f));
      while cur.Some?
        invariant Has(K(), first, par, Append(done, todo)) && cur == Head(todo)
        invariant FinalizeAll(c, f) == Append(done, FinalizeAll(c, todo))
        invariant Ids(Append(done, todo)) <= Ids(f) && Within(k, K(), Ids(f)) && Size(todo) <= Size(f)
        decreases Size(todo)
      {
        ghost var j := K();
        ghost var g := Finalize(c, todo);
        Suffix(j, first, par, done, todo);
        FinalizeTree(cur.value, todo, par);
        FinalizeIdsOf(c, j, cur, par, todo);
        Replace(j, K(), first, par, done, todo, g);
        WithinStep(k, j, K(), Ids(todo), Ids(f));
        Front(K(), cur, par, g);
        StepOver(done, g, FinalizeAll(c, g.next));
        cur := next[cur.value];
        done, todo := Append(done, One(g)), g.next;
      }
      AppendNil(done);
    }

    // Flattens the children of node and removes the 'if' nodes among them
    method FinishLevel(node: Id, ghost f: Forest, ghost par: Option<Id>)
      requires f.Node? && f.id == node && Has(K(), Some(node), par, f)
      modifies this
      ensures Has(K(), Some(node), par, Node(node, Level(c, f.list), f.next)) && Within(old(K()), K(), Ids(f))
    {
      hide Has, Distinct, Within, Flatten, RemoveIfs;
      ghost var k := K();
      Front(k, Some(node), par, f);
      FlattenIds(c, f.list);
      FlattenLevel(list[node], f.list, Some(node));
      ghost var j := K();
      ghost var flat := Flatten(c, f.list);
      HeadIs(j, k.list[node], Some(node), flat);
      ChildrenReplaced(k, j, par, f, flat);
      Front(j, Some(node), par, Node(node, flat, f.next));
      RemoveIfNodes(node, flat);
      RemoveIfsIds(c, flat);
      HeadIs(K(), list[node], Some(node), Level(c, f.list));
      Rewire(j, K(), par, Node(node, flat, f.next), Level(c, f.list));
      WithinStep(k, j, K(), Ids(flat) + {node}, Ids(f));
    }

    // Nodes behind a symbol that depend on it become its children
    method ImplicitMenu(node: Id, ghost f: Forest, ghost par: Option<Id>)
      requires f.Node? && f.id == node && f.list == Nil && Has(K(), Some(node), par, f)
      modifies this
      ensures var (taken, rest) := Absorb(c, node, f.next); Has(K(), Some(node), par, Node(node, taken, rest))
      ensures Within(old(K()), K(), Ids(f))
      decreases Size(f), 0
    {
      hide Has, Distinct, Within, Taking, Finalize;
      ghost var k := K();
      TakingStart(k, node, par, f);
      WithinSelf(k, Ids(f));
      var cur: Id := node;
      ghost var taken, rest := Nil, f.next;
      while next[cur].Some? && c.dep(node, next[cur].value)
        invariant Taking(K(), node, par, taken, rest)
        invariant Shape(K(), |list|) && cur < |list| && node < |list| && next[cur] == Head(rest)
        invariant cur == At(node, taken)
        invariant Absorb(c, node, f.next) == Joined(taken, Absorb(c, node, rest))
        invariant Ids(taken) + Ids(rest) <= Ids(f.next) && Within(k, K(), Ids(f)) && Size(rest) <= Size(f.next)
        decreases Size(rest)
      {
        ghost var j := K();
        ghost var h := Finalize(c, rest);
        TakingRest(j, node, par, taken, rest);
        FinalizeTree(next[cur].value, rest, par);
        FinalizeIdsOf(c, j, Head(rest), par, rest);
        ghost var i := K();
        TakingCur(j, i, node, par, taken, rest, cur);
        Front(i, Some(h.id), par, h);
        cur := next[cur].value;
        parent := parent[cur := Some(node)];
        TakingStep(j, i, K(), node, par, taken, rest, h);
        WithinStep(k, j, K(), Ids(rest), Ids(f));
        StepOver(taken, h, Absorb(c, node, h.next).0);
        LastAppend(taken, One(h));
        IdsAppend(taken, One(h));
        taken, rest := Append(taken, One(h)), h.next;
      }
      AppendNil(taken);
      ghost var j := K();
      if cur != node {
        list := list[node := next[node]];
        next := next[node := next[cur]];
        next := next[cur := None];
      }
      TakingEnd(j, K(), node, par, taken, rest, cur);
      WithinStep(k, j, K(), Ids(taken) + {node}, Ids(f));
    }

    /** node_iter: the iterative walk visits the nodes below the top in preorder. */
    method NodeIter(top: Id, ghost f: Forest) returns (out: seq<Id>)
      requires f.Node? && f.id == top && f.next == Nil && Has(K(), Some(top), None, f)
      ensures out == Preorder(f.list)
    {
      hide Has, Distinct, Preorder, Climbs, Ahead;
      ghost var k, all := K(), Preorder(f.list);
      var node: Id := top;
      ghost var t, x := f, Root;
      out := [];
      WalkStart(k, f);
      while true
        invariant t.Node? && t.id == node && Has(k, Some(node), Above(x), t) && Climbs(k, x)
        invariant out + Preorder(t.list) + Preorder(t.next) + Ahead(x) == all
        decreases |all| - |out|
      {
        Front(k, Some(node), Above(x), t);
        if list[node].Some? {
          WalkDown(k, out, t, x);
          node := list[node].value;
          x, t := Up(t.id, t.next, x), t.list;
        } else if next[node].Some? {
          WalkOn(out, t.next, x);
          PreorderNil();
          node := next[node].value;
          t := t.next;
        } else {
          PreorderNil();
          assert out + [] + [] + Ahead(x) == out + Ahead(x);
          var more;
          more, node, t, x := Climb(node, x);
          if !more { return; }
          WalkOn(out, t, x);
        }
        out := out + [node];
      }
    }

    /** Walking the finalized tree visits every node of the file that is not an 'if',
        once and in the order of the file, and finds each below the node it belongs below. */
    method FinalizeAndWalk(top: Id, ghost f: Forest) returns (out: seq<Id>)
      requires f.Node? && f.id == top && f.next == Nil && Has(K(), Some(top), None, f)
      modifies this
      ensures out == Kept(c, f.list) && Placed(K(), out, Homes(c, top, [], f.list))
    {
      hide Finalize, Kept, Preorder, Clean, Homes, Pairs, Placed, Rep, Parents;
      FinalizedOrder(c, f);
      FinalizedHomes(c, f);
      FinalizeTree(top, f, None);
      ghost var r := Finalize(c, f);
      Front(K(), Some(top), None, r);
      ParentsPlaced(K(), top, r.list);
      out := NodeIter(top, r);
    }

    // Up to the next node that has a node behind it
    method Climb(node: Id, ghost x: Path) returns (more: bool, up: Id, ghost t: Forest, ghost y: Path)
      requires Shape(K(), |list|) && node < |list| && parent[node] == Above(x) && Climbs(K(), x)
      ensures more ==> t.Node? && t.id == up && Has(K(), Some(up), Above(y), t) && Climbs(K(), y)
      ensures more ==> Ahead(x) == Preorder(t) + Ahead(y)
      ensures !more ==> Ahead(x) == []
    {
      hide Has, Preorder;
      up, y, t := node, x, Nil;
      while parent[up].Some?
        invariant up < |list| && parent[up] == Above(y) && Climbs(K(), y) && Ahead(y) == Ahead(x)
        decreases y
      {
        up := parent[up].value;
        if next[up].Some? {
          up := next[up].value;
          t, y := y.next, y.up;
          return true, up, t, y;
        }
        PreorderNil();
        y := y.up;
      }
      more := false;
    }
  }

  // ---------------------------------------------------------------- walking

  // The nodes above the current one, each with the nodes behind it
  datatype Path = Root | Up(id: Id, next: Forest, up: Path)

  function Above(x: Path): Option<Id> {
    if x.Root? then None else Some(x.id)
  }

  predicate Climbs(k: Links, x: Path) {
    match x
    case Root => true
    case Up(id, n, up) =>
      && Shape(k, |k.list|) && id < |k.list| && k.parent[id] == Above(up)
      && k.next[id] == Head(n) && Has(k, Head(n), Above(up), n) && Climbs(k, up)
  }

  // What is still to come once the current level is done
  function Ahead(x: Path): seq<Id> {
    match x
    case Root => []
    case Up(_, n, up) => Preorder(n) + Ahead(up)
  }

  lemma PreorderNil()
    ensures Preorder(Nil) == []
  {
  }

  lemma WalkStart(k: Links, f: Forest)
    requires f.Node? && f.next == Nil
    ensures Climbs(k, Root) && [] + Preorder(f.list) + Preorder(f.next) + Ahead(Root) == Preorder(f.list)
  {
  }

  lemma WalkDown(k: Links, out: seq<Id>, t: Forest, x: Path)
    requires t.Node? && t.list.Node? && Has(k, Some(t.id), Above(x), t) && Climbs(k, x)
    ensures var u := t.list; var y := Up(t.id, t.next, x);
      out + Preorder(t.list) + Preorder(t.next) + Ahead(x)
        == out + [u.id] + Preorder(u.list) + Preorder(u.next) + Ahead(y) && Climbs(k, y)
  {
    Front(k, Some(t.id), Above(x), t);
    Below(out, [t.list.id], Preorder(t.list.list), Preorder(t.list.next), Preorder(t.next), Ahead(x));
  }

  lemma Below(o: seq<Id>, i: seq<Id>, l: seq<Id>, n: seq<Id>, m: seq<Id>, a: seq<Id>)
    ensures o + (i + l + n) + m + a == o + i + l + n + (m + a)
    ensures o + (i + l + n + a) == o + i + l + n + a
    ensures o + [] + (i + l + n) + a == o + i + l + n + a
  {
  }

  lemma WalkOn(out: seq<Id>, t: Forest, x: Path)
    requires t.Node?
    ensures out + (Preorder(t) + Ahead(x)) == out + [t.id] + Preorder(t.list) + Preorder(t.next) + Ahead(x)
    ensures out + [] + Preorder(t) + Ahead(x) == out + [t.id] + Preorder(t.list) + Preorder(t.next) + Ahead(x)
  {
    Below(out, [t.id], Preorder(t.list), Preorder(t.next), [], Ahead(x));
  }

  // ---------------------------------------------------------------- implicit menus

  // Nodes taken for the menu of node so far, linked behind it, and the rest of its level
  ghost predicate Taking(k: Links, node: Id, par: Option<Id>, taken: Forest, rest: Forest) {
    && Shape(k, |k.list|) && node < |k.list| && k.list[node] == None && k.parent[node] == par
    && Rep(k, k.next[node], Append(taken, rest)) && Parents(k, Some(node), taken) && Parents(k, par, rest)
    && Distinct(taken) && Distinct(rest) && Ids(taken) !! Ids(rest) && node !in Ids(taken) + Ids(rest)
  }

  // The last node taken, or the symbol itself
  function At(node: Id, taken: Forest): Id {
    if taken == Nil then node else Last(taken)
  }

  function Joined(taken: Forest, a: (Forest, Forest)): (Forest, Forest) {
    (Append(taken, a.0), a.1)
  }

  lemma TakingStart(k: Links, node: Id, par: Option<Id>, f: Forest)
    requires f.Node? && f.id == node && f.list == Nil && Has(k, Some(node), par, f)
    ensures Taking(k, node, par, Nil, f.next) && k.next[node] == Head(f.next)
  {
    Front(k, Some(node), par, f);
  }

  lemma TakingRest(k: Links, node: Id, par: Option<Id>, taken: Forest, rest: Forest)
    requires Taking(k, node, par, taken, rest)
    ensures Has(k, Head(rest), par, rest)
  {
    RepRest(k, k.next[node], taken, rest);
  }

  lemma TakingCur(k: Links, j: Links, node: Id, par: Option<Id>, taken: Forest, rest: Forest, cur: Id)
    requires Taking(k, node, par, taken, rest) && Within(k, j, Ids(rest)) && cur == At(node, taken) && cur < |k.list|
    ensures Shape(j, |k.list|) && Agree(k, j, cur)
  {
    if taken.Node? { LastIn(taken); }
  }

  lemma TakingStep(k: Links, j: Links, i: Links, node: Id, par: Option<Id>, taken: Forest, rest: Forest, h: Forest)
    requires Taking(k, node, par, taken, rest) && rest.Node? && Within(k, j, Ids(rest))
    requires h.Node? && h.id == rest.id && Ids(h) <= Ids(rest) && Has(j, Some(h.id), par, h)
    requires h.id < |j.parent| && i == j.(parent := j.parent[h.id := Some(node)])
    ensures Taking(i, node, par, Append(taken, One(h)), h.next) && Within(k, i, Ids(rest))
    ensures i.next[h.id] == Head(h.next)
  {
    hide Rep, Parents;
    assert Agree(k, j, node);
    Front(j, Some(h.id), par, h);
    IdsAppend(taken, One(h));
    TakingRep(k, j, i, node, par, taken, rest, h);
    TakingParents(k, j, i, node, par, taken, rest, h);
  }

  lemma TakingRep(k: Links, j: Links, i: Links, node: Id, par: Option<Id>, taken: Forest, rest: Forest, h: Forest)
    requires Taking(k, node, par, taken, rest) && rest.Node? && Within(k, j, Ids(rest))
    requires h.Node? && h.id == rest.id && Has(j, Some(h.id), par, h)
    requires h.id < |j.parent| && i == j.(parent := j.parent[h.id := Some(node)])
    ensures Rep(i, k.next[node], Append(Append(taken, One(h)), h.next))
  {
    forall x | x in Ids(taken) && x < |k.list|
      ensures Agree(k, j, x)
    {
    }
    RepFrame(j, i, Some(h.id), h);
    Graft(k, i, k.next[node], taken, rest, h);
    StepOver(taken, h, Nil);
  }

  lemma TakingParents(k: Links, j: Links, i: Links, node: Id, par: Option<Id>, taken: Forest, rest: Forest, h: Forest)
    requires Taking(k, node, par, taken, rest) && rest.Node? && Within(k, j, Ids(rest))
    requires h.Node? && h.id == rest.id && Has(j, Some(h.id), par, h)
    requires h.id < |j.parent| && i == j.(parent := j.parent[h.id := Some(node)])
    ensures Parents(i, Some(node), Append(taken, One(h))) && Parents(i, par, h.next)
  {
    forall x | x in Ids(taken) && x < |k.list|
      ensures Agree(k, j, x)
    {
    }
    ParentsFrame(k, i, Some(node), taken);
    Reparented(j, i, par, Some(node), h, h.id);
    ParentsAppend(i, Some(node), taken, One(h));
  }

  // j is k with the nodes taken moved below the symbol
  lemma TakingEnd(k: Links, j: Links, node: Id, par: Option<Id>, taken: Forest, rest: Forest, cur: Id)
    requires Taking(k, node, par, taken, rest) && cur == At(node, taken) && cur < |k.list|
    requires cur == node ==> j == k
    requires cur != node ==> j.list == k.list[node := k.next[node]]
    requires cur != node ==> j.next == k.next[node := k.next[cur]][cur := None]
    requires cur != node ==> j.parent == k.parent
    ensures Has(j, Some(node), par, Node(node, taken, rest)) && Within(k, j, Ids(taken) + {node})
  {
    if taken.Node? {
      LastIn(taken);
      TakingCut(k, j, node, par, taken, rest);
    }
  }

  lemma TakingCut(k: Links, j: Links, node: Id, par: Option<Id>, taken: Forest, rest: Forest)
    requires Taking(k, node, par, taken, rest) && taken.Node? && Last(taken) < |k.list| && Last(taken) != node
    requires j == Links(k.list[node := k.next[node]], k.next[node := k.next[Last(taken)]][Last(taken) := None], k.parent)
    ensures Has(j, Some(node), par, Node(node, taken, rest)) && Within(k, j, Ids(taken) + {node})
  {
    LastIn(taken);
    AppendNil(taken);
    RepRest(k, k.next[node], taken, rest);
    Relink(k, j, k.next[node], taken, rest, Nil);
    RepFrame(k, j, Head(rest), rest);
    ParentsFrame(k, j, Some(node), taken);
    ParentsFrame(k, j, par, rest);
  }

  lemma LevelNil(c: Nodes)
    ensures Level(c, Nil) == Nil
  {
  }

  lemma FinalizeIdsOf(c: Nodes, k: Links, first: Option<Id>, par: Option<Id>, f: Forest)
    requires f.Node? && Has(k, first, par, f)
    ensures Ids(Finalize(c, f)) <= Ids(f)
  {
    FinalizeIds(c, f);
  }

  lemma FinalizeAllIdsOf(c: Nodes, k: Links, first: Option<Id>, par: Option<Id>, f: Forest)
    requires Has(k, first, par, f)
    ensures Ids(FinalizeAll(c, f)) <= Ids(f)
  {
    FinalizeAllIds(c, f);
  }

  lemma AbsorbIdsOf(c: Nodes, k: Links, par: Option<Id>, f: Forest)
    requires f.Node? && Has(k, Some(f.id), par, f)
    ensures Ids(Node(f.id, Absorb(c, f.id, f.next).0, Absorb(c, f.id, f.next).1)) <= Ids(f)
  {
    AbsorbIds(c, f.id, f.next);
  }

  // Another list takes the place of the children of a node
  lemma Rewire(k: Links, j: Links, par: Option<Id>, f: Forest, h: Forest)
    requires f.Node? && Has(k, Some(f.id), par, f) && Within(k, j, Ids(f.list) + {f.id})
    requires f.id < |j.list| && Shape(j, |j.list|) && j.list[f.id] == Head(h)
    requires Shape(k, |j.list|) && j.next[f.id] == k.next[f.id] && j.parent[f.id] == k.parent[f.id]
    requires Has(j, Head(h), Some(f.id), h) && Ids(h) <= Ids(f.list)
    ensures Has(j, Some(f.id), par, Node(f.id, h, f.next))
  {
    Front(k, Some(f.id), par, f);
    HasFrame(k, j, k.next[f.id], par, f.next, Ids(f.list) + {f.id});
  }

  lemma ChildrenReplaced(k: Links, j: Links, par: Option<Id>, f: Forest, h: Forest)
    requires f.Node? && Has(k, Some(f.id), par, f) && Within(k, j, Ids(f.list))
    requires Head(h) == Head(f.list) && Has(j, Head(h), Some(f.id), h) && Ids(h) <= Ids(f.list)
    ensures Has(j, Some(f.id), par, Node(f.id, h, f.next)) && Within(k, j, Ids(f))
  {
    Front(k, Some(f.id), par, f);
    assert Agree(k, j, f.id);
    Rewire(k, j, par, f, h);
  }

  lemma ListChanged(k: Links, j: Links, node: Id, cur: Option<Id>, par: Option<Id>, f: Forest, all: set<Id>)
    requires Shape(k, |k.list|) && node < |k.list| && node !in Ids(f) && node in all && Has(k, cur, par, f)
    requires j == k.(list := k.list[node := cur])
    ensures Has(j, cur, par, f) && Within(k, j, all)
  {
    assert Within(k, j, {node});
    HasFrame(k, j, cur, par, f, {node});
  }

  lemma NextChanged(k: Links, j: Links, par: Option<Id>, t: Forest, s: Forest)
    requires t.Node? && Has(k, Some(t.id), par, t) && Has(k, Head(s), par, s) && Ids(s) <= Ids(t.next)
    requires t.id < |k.next| && j == k.(next := k.next[t.id := Head(s)])
    ensures Has(j, Some(t.id), par, Node(t.id, t.list, s)) && Within(k, j, Ids(t))
    ensures Ids(Node(t.id, t.list, s)) <= Ids(t)
  {
    Front(k, Some(t.id), par, t);
    assert Within(k, j, {t.id});
    HasFrame(k, j, k.list[t.id], Some(t.id), t.list, {t.id});
    HasFrame(k, j, Head(s), par, s, {t.id});
  }

  lemma HeadIs(k: Links, first: Option<Id>, par: Option<Id>, f: Forest)
    requires Has(k, first, par, f)
    ensures first == Head(f)
  {
  }

  lemma WithinSelf(k: Links, ids: set<Id>)
    requires Shape(k, |k.list|)
    ensures Within(k, k, ids)
  {
  }

  lemma WithinStep(k: Links, j: Links, i: Links, a: set<Id>, ids: set<Id>)
    requires Within(k, j, ids) && Within(j, i, a) && a <= ids
    ensures Within(k, i, ids)
  {
    WithinTrans(k, j, i, ids, a);
    assert ids + a == ids;
  }

  // The nodes up to the first of t have the new parent, those behind it the old one
  ghost predicate Halfway(k: Links, par: Option<Id>, node: Id, pre: Forest, t: Forest) {
    && t.Node? && Distinct(t) && Ids(pre) !! Ids(t) && node !in Ids(t)
    && Parents(k, par, Append(pre, Node(t.id, t.list, Nil))) && Parents(k, Some(node), t.next)
  }

  lemma HalfwayStep(k: Links, j: Links, par: Option<Id>, node: Id, pre: Forest, t: Forest)
    requires Halfway(k, par, node, pre, t) && t.next.Node? && t.next.id < |k.parent|
    requires j.parent == k.parent[t.next.id := par]
    ensures Halfway(j, par, node, Append(pre, Node(t.id, t.list, Nil)), t.next)
  {
    var done, u := Append(pre, Node(t.id, t.list, Nil)), t.next;
    IdsAppend(pre, Node(t.id, t.list, Nil));
    ParentsFrame(k, j, par, done);
    Reparented(k, j, Some(node), par, u, u.id);
    ParentsAppend(j, par, done, Node(u.id, u.list, Nil));
  }

  lemma Reparented(k: Links, j: Links, before: Option<Id>, par: Option<Id>, t: Forest, last: Id)
    requires t.Node? && t.id == last && Parents(k, before, t) && Distinct(t) && last < |k.parent|
    requires j.parent == k.parent[last := par]
    ensures Parents(j, Some(last), t.list) && Parents(j, before, t.next)
  {
    ParentsFrame(k, j, Some(last), t.list);
    ParentsFrame(k, j, before, t.next);
  }

  // The parent of each node is the one given with it
  predicate Placed(k: Links, ids: seq<Id>, homes: seq<(Id, Id)>) {
    && |ids| == |homes|
    && (forall i :: 0 <= i < |ids| ==> homes[i].0 == ids[i] < |k.parent| && k.parent[ids[i]] == Some(homes[i].1))
  }

  lemma {:induction false} ParentsPlaced(k: Links, par: Id, f: Forest)
    requires Parents(k, Some(par), f)
    ensures Placed(k, Preorder(f), Pairs(par, f))
    decreases f
  {
    if f.Node? {
      ParentsPlaced(k, f.id, f.list);
      ParentsPlaced(k, par, f.next);
      PlacedJoin(k, [f.id], Preorder(f.list), [(f.id, par)], Pairs(f.id, f.list));
      PlacedJoin(k, [f.id] + Preorder(f.list), Preorder(f.next), [(f.id, par)] + Pairs(f.id, f.list), Pairs(par, f.next));
    }
  }

  lemma PlacedJoin(k: Links, a: seq<Id>, b: seq<Id>, g: seq<(Id, Id)>, h: seq<(Id, Id)>)
    requires Placed(k, a, g) && Placed(k, b, h)
    ensures Placed(k, a + b, g + h)
  {
  }

  lemma Lifted(k: Links, j: Links, i: Links, f: Forest, par: Option<Id>, last: Id)
    requires f.Node? && f.list != Nil && Has(k, Some(f.id), par, f) && last == Last(f.list)
    requires Shape(k, |k.list|) && Shape(j, |k.list|) && j.list == k.list && j.next == k.next
    requires Parents(j, par, f.list)
    requires forall x :: 0 <= x < |k.parent| && x !in Ids(f.list) ==> j.parent[x] == k.parent[x]
    requires last < |k.list| && i == Links(j.list[f.id := None], j.next[last := j.next[f.id]][f.id := j.list[f.id]], j.parent)
    ensures Has(i, Some(f.id), par, Node(f.id, Nil, Append(f.list, f.next)))
    ensures Within(k, i, Ids(f))
  {
    hide Append, Parents, Distinct;
    LiftedRep(k, i, f, last);
    LiftedParents(k, j, i, f, par);
    LiftedWithin(k, i, f, last);
  }

  lemma LiftedParents(k: Links, j: Links, i: Links, f: Forest, par: Option<Id>)
    requires f.Node? && Parents(k, par, f) && Distinct(f) && Parents(j, par, f.list)
    requires |j.parent| == |k.parent| && i.parent == j.parent
    requires forall x :: 0 <= x < |k.parent| && x !in Ids(f.list) ==> j.parent[x] == k.parent[x]
    ensures var g := Node(f.id, Nil, Append(f.list, f.next)); Parents(i, par, g) && Distinct(g)
  {
    hide Append;
    IdsAppend(f.list, f.next);
    ParentsFrame(k, i, par, f.next);
    ParentsFrame(j, i, par, f.list);
    ParentsAppend(i, par, f.list, f.next);
  }

  lemma LiftedWithin(k: Links, i: Links, f: Forest, last: Id)
    requires f.Node? && f.list != Nil && last == Last(f.list) && f.id < |k.list| && last < |k.list|
    requires Shape(k, |k.list|) && Shape(i, |k.list|)
    requires i.list == k.list[f.id := None] && i.next == k.next[last := k.next[f.id]][f.id := k.list[f.id]]
    requires forall x :: 0 <= x < |k.parent| && x !in Ids(f.list) ==> i.parent[x] == k.parent[x]
    ensures Within(k, i, Ids(f))
  {
    LastIn(f.list);
  }

  lemma LiftedRep(k: Links, i: Links, f: Forest, last: Id)
    requires f.Node? && f.list != Nil && Rep(k, Some(f.id), f) && Distinct(f) && last == Last(f.list)
    requires Shape(k, |k.list|) && Shape(i, |k.list|) && last < |k.list|
    requires i.list == k.list[f.id := None] && i.next == k.next[last := k.next[f.id]][f.id := k.list[f.id]]
    ensures Rep(i, Some(f.id), Node(f.id, Nil, Append(f.list, f.next)))
  {
    hide Append;
    LastIn(f.list);
    AppendNil(f.list);
    RepFrame(k, i, k.next[f.id], f.next);
    Relink(k, i, k.list[f.id], f.list, Nil, f.next);
  }
}
