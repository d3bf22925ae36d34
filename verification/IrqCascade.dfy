/**
 Nested enable counts of cascading interrupt controllers, as one core sees them. Users
 enable and disable lines; a controller with an enabled line keeps the line it hangs on
 enabled.
 */
module IrqCascade {
  import opened Basics

  /** bases, parents and on hold irq_base, desc.irq and enable_count of each controller, in
      the order of registration; child holds the enable_count of each of its lines. users
      counts the enables of each line that a user has not taken back. root is the DSP's
      own mask, unmasked the lines a controller passes on. touched are the DSP lines a user
      switched after the controller on them did, or before it was registered. */
  datatype Irqs = Irqs(bases: seq<nat>, parents: seq<nat>, on: seq<nat>, child: seq<seq<nat>>,
                       users: seq<seq<nat>>, root: set<nat>, touched: set<nat>, unmasked: set<nat>)

  // PLATFORM_IRQ_HW_NUM and PLATFORM_IRQ_CHILDREN
  datatype Platform = Platform(hw: nat, children: nat)

  // ---------------------------------------------------------------- counting

  function Nonzero(row: seq<nat>): nat {
    if row == [] then 0 else Nonzero(row[..|row| - 1]) + if row[|row| - 1] > 0 then 1 else 0
  }

  // Controllers that hang on a line and have a line of their own enabled
  function Hanging(parents: seq<nat>, on: seq<nat>, line: nat): nat
    requires |parents| == |on|
  {
    if parents == [] then 0
    else
      var k := |parents| - 1;
      Hanging(parents[..k], on[..k], line) + if parents[k] == line && on[k] > 0 then 1 else 0
  }

  lemma {:induction false} NonzeroUpdate(row: seq<nat>, h: nat, v: nat)
    requires h < |row|
    ensures Nonzero(row[h := v]) + (if row[h] > 0 then 1 else 0) == Nonzero(row) + if v > 0 then 1 else 0
  {
    var k := |row| - 1;
    if h < k {
      NonzeroUpdate(row[..k], h, v);
      assert row[h := v][..k] == row[..k][h := v];
    } else {
      assert row[h := v][..k] == row[..k];
    }
  }

  lemma {:induction false} NonzeroPositive(row: seq<nat>, h: nat)
    requires h < |row| && row[h] > 0
    ensures Nonzero(row) > 0
  {
    var k := |row| - 1;
    if h < k { NonzeroPositive(row[..k], h); }
  }

  lemma {:induction false} HangingUpdate(parents: seq<nat>, on: seq<nat>, k: nat, v: nat, line: nat)
    requires |parents| == |on| && k < |on|
    ensures var d := if parents[k] == line then 1 else 0;
      Hanging(parents, on[k := v], line) + (if on[k] > 0 then d else 0)
      == Hanging(parents, on, line) + (if v > 0 then d else 0)
  {
    var m := |on| - 1;
    if k < m {
      HangingUpdate(parents[..m], on[..m], k, v, line);
      assert on[k := v][..m] == on[..m][k := v];
    } else {
      assert on[k := v][..m] == on[..m];
    }
  }

  // ---------------------------------------------------------------- invariant

  ghost predicate Shape(p: Platform, s: Irqs) {
    && |s.parents| == |s.bases| && |s.on| == |s.bases| && |s.child| == |s.bases| && |s.users| == |s.bases|
    && (forall k :: 0 <= k < |s.bases| ==> |s.child[k]| == p.children && |s.users[k]| == p.children)
    && (forall k :: 0 <= k < |s.bases| ==> p.hw <= s.bases[k] && s.parents[k] < s.bases[k])
    && (forall j, k :: 0 <= j < k < |s.bases| ==> s.bases[j] + p.children <= s.bases[k])
  }

  // No other controller hangs on the same line
  ghost predicate Alone(parents: seq<nat>, k: nat)
    requires k < |parents|
  {
    forall j :: 0 <= j < |parents| && j != k ==> parents[j] != parents[k]
  }

  predicate IsLine(p: Platform, s: Irqs, k: nat, h: nat) {
    k < |s.bases| && h < p.children
  }

  predicate Contains(p: Platform, base: nat, irq: nat) {
    base <= irq < base + p.children
  }

  ghost predicate IsChild(p: Platform, bases: seq<nat>, irq: nat) {
    exists k :: 0 <= k < |bases| && Contains(p, bases[k], irq)
  }

  // How far a line's count is short
  type Debts = map<nat, int>

  function Debt(debts: Debts, line: nat): int {
    if line in debts then debts[line] else 0
  }

  /** A line's count is what users still hold plus one for each enabled controller hanging
      on it, less what the line is short. */
  ghost predicate Counted(p: Platform, s: Irqs, debts: Debts)
    requires Shape(p, s)
  {
    forall k: nat, h: nat :: IsLine(p, s, k, h) ==> CountedAt(p, s, debts, k, h)
  }

  ghost predicate CountedAt(p: Platform, s: Irqs, debts: Debts, k: nat, h: nat)
    requires Shape(p, s) && IsLine(p, s, k, h)
  {
    s.child[k][h] + Debt(debts, s.bases[k] + h) == s.users[k][h] + Hanging(s.parents, s.on, s.bases[k] + h)
  }

  predicate PassedAt(p: Platform, s: Irqs, k: nat, h: nat)
    requires k < |s.bases| && k < |s.child| && h < |s.child[k]|
  {
    s.bases[k] + h in s.unmasked <==> s.child[k][h] > 0
  }

  // enable_count of a controller is the number of its enabled lines, and these are passed on
  ghost predicate Summed(p: Platform, s: Irqs)
    requires Shape(p, s)
  {
    && (forall k :: 0 <= k < |s.bases| ==> s.on[k] == Nonzero(s.child[k]))
    && (forall k: nat, h: nat :: IsLine(p, s, k, h) ==> PassedAt(p, s, k, h))
    && (forall x :: x in s.unmasked ==> IsChild(p, s.bases, x))
  }

  // A DSP line that carries one controller is enabled while the controller is, or owes it,
  // until a user switches the line
  ghost predicate Rooted(p: Platform, s: Irqs, debts: Debts)
    requires Shape(p, s)
  {
    forall k :: 0 <= k < |s.bases| && s.parents[k] < p.hw && Alone(s.parents, k) ==> RootedAt(s, debts, k)
  }

  predicate RootedAt(s: Irqs, debts: Debts, k: nat)
    requires k < |s.parents| && k < |s.on|
  {
    var d := Debt(debts, s.parents[k]);
    if d != 0 then s.on[k] > 0 <==> d > 0
    else s.parents[k] !in s.touched ==> (s.parents[k] in s.root <==> s.on[k] > 0)
  }

  ghost predicate Inv(p: Platform, s: Irqs, debts: Debts) {
    Shape(p, s) && Counted(p, s, debts) && Summed(p, s) && Rooted(p, s, debts)
  }

  // ---------------------------------------------------------------- one line changes

  // The count of line h of controller k becomes v, and the controller's own count follows
  function SetLine(s: Irqs, k: nat, h: nat, v: nat, on: nat, unmasked: set<nat>): Irqs
    requires k < |s.child| && h < |s.child[k]| && k < |s.on|
  {
    var row: seq<nat> := s.child[k][h := v];
    s.(child := s.child[k := row], on := s.on[k := on], unmasked := unmasked)
  }

  // What the line's controller owes to the line it hangs on afterwards
  function Owed(s: Irqs, k: nat, on: nat): int
    requires k < |s.on|
  {
    (if on > 0 then 1 else 0) - if s.on[k] > 0 then 1 else 0
  }

  function Add(debts: Debts, line: nat, d: int): Debts {
    debts[line := Debt(debts, line) + d]
  }

  // d paid to line h of controller k; the controller's change of state is owed to its parent line
  function Settled(s: Irqs, debts: Debts, k: nat, h: nat, d: int, on: nat): Debts
    requires k < |s.on| && k < |s.bases| && k < |s.parents|
  {
    Add(Add(debts, s.bases[k] + h, -d), s.parents[k], Owed(s, k, on))
  }

  /** Paying a line changes the debt of the line its controller hangs on only when the
      controller's first line is enabled or its last one disabled. */
  lemma SettleLine(p: Platform, s: Irqs, debts: Debts, k: nat, h: nat, v: nat, on: nat, unmasked: set<nat>)
    requires IsLine(p, s, k, h) && Inv(p, s, debts) && (s.parents[k] < p.hw ==> Debt(debts, s.parents[k]) == 0)
    requires on == Nonzero(s.child[k][h := v])
    requires unmasked == if v > 0 then s.unmasked + {s.bases[k] + h} else s.unmasked - {s.bases[k] + h}
    ensures Inv(p, SetLine(s, k, h, v, on, unmasked), Settled(s, debts, k, h, v - s.child[k][h], on))
  {
    SettleCounts(p, s, debts, k, h, v, on, unmasked);
    SettleSums(p, s, debts, k, h, v, on, unmasked);
    SettleRoots(p, s, debts, k, h, v, on, unmasked);
  }

  lemma SettleShape(p: Platform, s: Irqs, k: nat, h: nat, v: nat, on: nat, unmasked: set<nat>)
    requires IsLine(p, s, k, h) && Shape(p, s)
    ensures Shape(p, SetLine(s, k, h, v, on, unmasked))
  {
  }

  lemma SettleCounts(p: Platform, s: Irqs, debts: Debts, k: nat, h: nat, v: nat, on: nat, unmasked: set<nat>)
    requires IsLine(p, s, k, h) && Inv(p, s, debts)
    ensures var t := SetLine(s, k, h, v, on, unmasked);
            Shape(p, t) && Counted(p, t, Settled(s, debts, k, h, v - s.child[k][h], on))
  {
    hide CountedAt, Summed, Rooted, Settled;
    var t := SetLine(s, k, h, v, on, unmasked);
    SettleShape(p, s, k, h, v, on, unmasked);
    forall j: nat, g: nat | IsLine(p, t, j, g)
      ensures CountedAt(p, t, Settled(s, debts, k, h, v - s.child[k][h], on), j, g)
    {
      assert IsLine(p, s, j, g);
      SettleCountAt(p, s, debts, k, h, v, on, unmasked, j, g);
    }
  }

  lemma SettleCountAt(p: Platform, s: Irqs, debts: Debts, k: nat, h: nat, v: nat, on: nat, unmasked: set<nat>, j: nat, g: nat)
    requires IsLine(p, s, k, h) && IsLine(p, s, j, g) && Shape(p, s) && CountedAt(p, s, debts, j, g)
    ensures var t := SetLine(s, k, h, v, on, unmasked);
            Shape(p, t) && CountedAt(p, t, Settled(s, debts, k, h, v - s.child[k][h], on), j, g)
  {
    hide Hanging, Shape;
    Lines(p, s, k, h, j, g);
    SettleShape(p, s, k, h, v, on, unmasked);
    HangingUpdate(s.parents, s.on, k, on, s.bases[j] + g);
  }

  lemma Lines(p: Platform, s: Irqs, k: nat, h: nat, j: nat, g: nat)
    requires IsLine(p, s, k, h) && IsLine(p, s, j, g) && Shape(p, s)
    ensures s.bases[j] + g == s.bases[k] + h <==> j == k && g == h
    ensures |s.child| == |s.on| == |s.users| == |s.parents| == |s.bases|
    ensures |s.child[j]| == |s.child[k]| == |s.users[j]| == p.children
    ensures s.parents[k] < s.bases[k] && p.hw <= s.bases[k]
  {
  }

  lemma SettleSums(p: Platform, s: Irqs, debts: Debts, k: nat, h: nat, v: nat, on: nat, unmasked: set<nat>)
    requires IsLine(p, s, k, h) && Inv(p, s, debts) && on == Nonzero(s.child[k][h := v])
    requires unmasked == if v > 0 then s.unmasked + {s.bases[k] + h} else s.unmasked - {s.bases[k] + h}
    ensures var t := SetLine(s, k, h, v, on, unmasked); Shape(p, t) && Summed(p, t)
  {
    hide PassedAt, Counted, Rooted, Nonzero;
    var t := SetLine(s, k, h, v, on, unmasked);
    SettleShape(p, s, k, h, v, on, unmasked);
    assert Contains(p, s.bases[k], s.bases[k] + h);
    forall j: nat, g: nat | IsLine(p, t, j, g)
      ensures PassedAt(p, t, j, g)
    {
      assert IsLine(p, s, j, g);
      SettlePassed(p, s, k, h, v, on, unmasked, j, g);
    }
  }

  lemma SettlePassed(p: Platform, s: Irqs, k: nat, h: nat, v: nat, on: nat, unmasked: set<nat>, j: nat, g: nat)
    requires IsLine(p, s, k, h) && IsLine(p, s, j, g) && Shape(p, s) && PassedAt(p, s, j, g)
    requires unmasked == if v > 0 then s.unmasked + {s.bases[k] + h} else s.unmasked - {s.bases[k] + h}
    ensures var t := SetLine(s, k, h, v, on, unmasked); Shape(p, t) && PassedAt(p, t, j, g)
  {
    hide Shape;
    SettleShape(p, s, k, h, v, on, unmasked);
    Lines(p, s, k, h, j, g);
  }

  lemma SettleRoots(p: Platform, s: Irqs, debts: Debts, k: nat, h: nat, v: nat, on: nat, unmasked: set<nat>)
    requires IsLine(p, s, k, h) && Inv(p, s, debts) && (s.parents[k] < p.hw ==> Debt(debts, s.parents[k]) == 0)
    ensures var t := SetLine(s, k, h, v, on, unmasked);
      Shape(p, t) && Rooted(p, t, Settled(s, debts, k, h, v - s.child[k][h], on))
  {
    hide Counted, Summed;
    var t := SetLine(s, k, h, v, on, unmasked);
    SettleShape(p, s, k, h, v, on, unmasked);
    forall j | 0 <= j < |t.bases| && t.parents[j] < p.hw && Alone(t.parents, j)
      ensures RootedAt(t, Settled(s, debts, k, h, v - s.child[k][h], on), j)
    {
      assert RootedAt(s, debts, j) && s.parents[j] != s.bases[k] + h;
    }
  }

  ghost predicate Same(a: Debts, b: Debts) {
    forall x: nat :: Debt(a, x) == Debt(b, x)
  }

  // Only what each line is short matters
  lemma SameDebts(p: Platform, s: Irqs, a: Debts, b: Debts)
    requires Inv(p, s, a) && Same(a, b)
    ensures Inv(p, s, b)
  {
    hide Summed, Hanging, Alone;
    forall k: nat, h: nat | IsLine(p, s, k, h)
      ensures CountedAt(p, s, b, k, h)
    {
      assert CountedAt(p, s, a, k, h);
    }
    forall k | 0 <= k < |s.bases| && s.parents[k] < p.hw && Alone(s.parents, k)
      ensures RootedAt(s, b, k)
    {
      assert RootedAt(s, a, k);
    }
  }

  // The state and what lines are short when a DSP line is switched, for the controller on it
  // that is owed or else by a user
  function Switched(s: Irqs, debts: Debts, line: nat, root: set<nat>): Irqs {
    s.(root := root, touched := if Debt(debts, line) == 0 then s.touched + {line} else s.touched - {line})
  }

  function Served(debts: Debts, line: nat, d: int): Debts {
    if Debt(debts, line) == 0 then debts else Add(debts, line, -d)
  }

  lemma SettleRoot(p: Platform, s: Irqs, debts: Debts, line: nat, root: set<nat>, d: int)
    requires Inv(p, s, debts) && !IsChild(p, s.bases, line)
    requires (d == 1 && root == s.root + {line}) || (d == -1 && root == s.root - {line})
    requires Debt(debts, line) == 0 || Debt(debts, line) == d
    ensures Inv(p, Switched(s, debts, line, root), Served(debts, line, d))
  {
    hide Counted, Summed, Rooted;
    assert Shape(p, Switched(s, debts, line, root));
    SwitchedCounts(p, s, debts, line, root, d);
    SwitchedRoots(p, s, debts, line, root, d);
  }

  lemma SwitchedCounts(p: Platform, s: Irqs, debts: Debts, line: nat, root: set<nat>, d: int)
    requires Shape(p, s) && Counted(p, s, debts) && Summed(p, s) && !IsChild(p, s.bases, line)
    requires Shape(p, Switched(s, debts, line, root))
    ensures Counted(p, Switched(s, debts, line, root), Served(debts, line, d)) && Summed(p, Switched(s, debts, line, root))
  {
    hide Hanging, Nonzero;
    var t, now := Switched(s, debts, line, root), Served(debts, line, d);
    forall k: nat, h: nat | IsLine(p, t, k, h)
      ensures CountedAt(p, t, now, k, h) && PassedAt(p, t, k, h)
    {
      assert IsLine(p, s, k, h) && CountedAt(p, s, debts, k, h) && PassedAt(p, s, k, h);
      assert Contains(p, s.bases[k], s.bases[k] + h);
    }
  }

  lemma SwitchedRoots(p: Platform, s: Irqs, debts: Debts, line: nat, root: set<nat>, d: int)
    requires Shape(p, s) && Rooted(p, s, debts) && Shape(p, Switched(s, debts, line, root))
    requires (d == 1 && root == s.root + {line}) || (d == -1 && root == s.root - {line})
    requires Debt(debts, line) == 0 || Debt(debts, line) == d
    ensures Rooted(p, Switched(s, debts, line, root), Served(debts, line, d))
  {
    hide Alone;
    var t, now := Switched(s, debts, line, root), Served(debts, line, d);
    forall k | 0 <= k < |t.bases| && t.parents[k] < p.hw && Alone(t.parents, k)
      ensures RootedAt(t, now, k)
    {
      assert RootedAt(s, debts, k);
    }
  }

  // ---------------------------------------------------------------- struct cascade_root

  // Every controller hangs on a DSP line or on a line of another controller
  ghost predicate Hooked(p: Platform, bases: seq<nat>, parents: seq<nat>) {
    forall k :: 0 <= k < |parents| ==> parents[k] < p.hw || IsChild(p, bases, parents[k])
  }

  ghost predicate Below(p: Platform, bases: seq<nat>, end: nat) {
    p.hw <= end && forall k :: 0 <= k < |bases| ==> bases[k] + p.children <= end
  }

  // Nothing is owed on a number that is no controller's line, except perhaps on irq
  ghost predicate RootsClear(p: Platform, bases: seq<nat>, debts: Debts, irq: nat) {
    forall x: nat :: x != irq && !IsChild(p, bases, x) ==> Debt(debts, x) == 0
  }

  // d is paid on a line, or on a DSP line for the controller that is owed
  ghost function Paid(p: Platform, bases: seq<nat>, debts: Debts, irq: nat, d: int): Debts {
    if IsChild(p, bases, irq) || Debt(debts, irq) != 0 then Add(debts, irq, -d) else debts
  }

  class CascadeRoot {
    const p: Platform
    var names: seq<string>
    var bases: seq<nat>
    var parents: seq<nat>
    var on: seq<nat>
    var child: seq<seq<nat>>
    var root: set<nat>
    var unmasked: set<nat>
    var lastIrq: int
    ghost var users: seq<seq<nat>>
    ghost var touched: set<nat>
    ghost var pending: set<nat>
    // How far each line's count is below what users and controllers hold
    ghost var short: Debts

    constructor (p: Platform)
      ensures Valid() && this.p == p && lastIrq == p.hw - 1
      ensures names == [] && bases == [] && parents == [] && users == [] && root == {}
    {
      this.p := p;
      names, bases, parents, on, child := [], [], [], [], [];
      root, unmasked, users, touched, pending, short := {}, {}, [], {}, {}, map[];
      lastIrq := p.hw - 1;
    }

    ghost function State(): Irqs
      reads this
    {
      Irqs(bases, parents, on, child, users, root, touched, unmasked + pending)
    }

    /** Every enable_count is the number of enabled lines, DSP lines follow their
        controllers, and no line's count exceeds what users and controllers hold on it. */
    ghost predicate Sound()
      reads this
    {
      && Inv(p, State(), short) && Hooked(p, bases, parents) && pending == {}
      && Bounded(p, bases, short)
      && |names| == |bases| && -1 <= lastIrq && Below(p, bases, lastIrq + 1)
    }

    // ... and no line is short of that either
    ghost predicate Valid()
      reads this
    {
      Sound() && NoneShort(short)
    }

    /** interrupt_get_parent: the controller that has the line. */
    method GetParent(irq: nat) returns (r: Option<nat>)
      requires Shape(p, State())
      ensures r.Some? ==> r.value < |bases| && Contains(p, bases[r.value], irq)
      ensures r.None? <==> !IsChild(p, bases, irq)
    {
      if irq < p.hw { return None; }
      for k := 0 to |bases|
        invariant forall j :: 0 <= j < k ==> !Contains(p, bases[j], irq)
      {
        if bases[k] <= irq && irq < bases[k] + p.children { return Some(k); }
      }
      return None;
    }

    /** interrupt_enable: the line is counted up, and its controller's first enabled line
        enables the line above. */
    method EnableLine(irq: nat, ghost debts: Debts)
      requires Inv(p, State(), debts) && Hooked(p, bases, parents) && RootsClear(p, bases, debts, irq)
      requires !IsChild(p, bases, irq) ==> Debt(debts, irq) == 0 || Debt(debts, irq) == 1
      requires forall x :: x in pending ==> irq < x
      modifies this`on, this`child, this`root, this`touched, this`unmasked, this`pending
      ensures Inv(p, State(), Paid(p, bases, debts, irq, 1)) && pending == old(pending)
      ensures old(root) <= root && (!IsChild(p, bases, irq) ==> root == old(root) + {irq} && unchanged(`on, `child, `unmasked))
      decreases irq, 1
    {
      hide Inv, Hooked, Shape, RootsClear, IsChild, Add, Debt, Nonzero, Same;
      ghost var s := State();
      HasShape(p, s, debts);
      var c := GetParent(irq);
      if c.None? {
        SettleRoot(p, s, debts, irq, root + {irq}, 1);
        touched := if Debt(debts, irq) == 0 then touched + {irq} else touched - {irq};
        root := root + {irq};
        return;
      }
      RaiseLine(irq, c.value, irq - bases[c.value], debts);
    }

    // Counts up a line of a controller
    method RaiseLine(irq: nat, k: nat, h: nat, ghost debts: Debts)
      requires Inv(p, State(), debts) && Hooked(p, bases, parents) && RootsClear(p, bases, debts, irq)
      requires IsLine(p, State(), k, h) && irq == bases[k] + h
      requires forall x :: x in pending ==> irq < x
      modifies this`on, this`child, this`root, this`touched, this`unmasked, this`pending
      ensures Inv(p, State(), Add(debts, irq, -1)) && pending == old(pending) && old(root) <= root
      decreases irq, 0
    {
      hide Inv, Hooked, Shape, RootsClear, IsChild, Add, Debt, Nonzero, Same;
      ghost var s := State();
      HasShape(p, s, debts);
      LineCase(p, s, debts, k, h);
      ghost var now := MoveLine(p, s, debts, k, h, 1);
      ghost var t := Moved(s, k, h, 1);
      var was := child[k][h];
      child := child[k := child[k][h := was + 1]];
      if was == 0 {
        var first := on[k] == 0;
        on := on[k := on[k] + 1];
        pending := pending + {irq};
        assert State() == t;
        if first { EnableLine(parents[k], now); }
        SameDebts(p, State(), if first then Paid(p, bases, now, parents[k], 1) else now, Add(debts, irq, -1));
        t := State();
        unmasked := unmasked + {irq};
        pending := pending - {irq};
        assert State() == t;
      } else {
        assert State() == t;
        SameDebts(p, t, now, Add(debts, irq, -1));
      }
    }

    /** interrupt_disable: a line without a count is left alone. Otherwise it is counted
        down, and its controller's last enabled line disables the line above. */
    method DisableLine(irq: nat, ghost debts: Debts)
      requires Inv(p, State(), debts) && Hooked(p, bases, parents) && RootsClear(p, bases, debts, irq)
      requires !IsChild(p, bases, irq) ==> Debt(debts, irq) == 0 || Debt(debts, irq) == -1
      requires pending == {}
      modifies this`on, this`child, this`root, this`touched, this`unmasked
      ensures old(Shape(p, State()))
      ensures Inv(p, State(), Down(Paid(p, bases, debts, irq, -1), Stop(p, old(State()), irq)))
      ensures root <= old(root) && (!IsChild(p, bases, irq) ==> root == old(root) - {irq} && unchanged(`on, `child, `unmasked))
      decreases irq, 1
    {
      hide Inv, Hooked, Shape, RootsClear, IsChild, Add, Debt, Nonzero, Same, Stop;
      ghost var s := State();
      HasShape(p, s, debts);
      var c := GetParent(irq);
      StopIs(p, s, irq);
      if c.None? {
        SettleRoot(p, s, debts, irq, root - {irq}, -1);
        touched := if Debt(debts, irq) == 0 then touched + {irq} else touched - {irq};
        root := root - {irq};
        return;
      }
      var k := c.value;
      var h := irq - bases[k];
      LineCase(p, s, debts, k, h);
      StopAtLine(p, s, k, h);
      if child[k][h] == 0 {
        // unbalanced
        NoChange(debts, irq);
        SameDebts(p, s, debts, Down(Add(debts, irq, 1), Some(irq)));
        return;
      }
      LowerLine(irq, k, h, debts);
    }

    // Counts down a line that has a count
    method LowerLine(irq: nat, k: nat, h: nat, ghost debts: Debts)
      requires Inv(p, State(), debts) && Hooked(p, bases, parents) && RootsClear(p, bases, debts, irq)
      requires IsLine(p, State(), k, h) && irq == bases[k] + h && child[k][h] > 0 && pending == {}
      modifies this`on, this`child, this`root, this`touched, this`unmasked
      ensures old(Shape(p, State()))
      ensures Inv(p, State(), Down(Add(debts, irq, 1), Stop(p, old(State()), irq))) && root <= old(root)
      decreases irq, 0
    {
      hide Inv, Hooked, Shape, RootsClear, IsChild, Add, Debt, Nonzero, Same, Stop, Down, Paid;
      ghost var s := State();
      HasShape(p, s, debts);
      LineCase(p, s, debts, k, h);
      StopAtLine(p, s, k, h);
      ghost var now := MoveLine(p, s, debts, k, h, -1);
      ghost var t := Moved(s, k, h, -1);
      ghost var after := Add(debts, irq, 1);
      DownNone(after);
      var left := child[k][h] - 1;
      child := child[k := child[k][h := left]];
      if left == 0 {
        unmasked := unmasked - {irq};
        on := on[k := on[k] - 1];
        assert State() == t;
        if on[k] == 0 {
          StopBelow(p, s, debts, k, h, now);
          DisableLine(parents[k], now);
          ghost var paid := Paid(p, bases, now, parents[k], -1);
          DownSame(paid, after, Stop(p, s, irq));
          SameDebts(p, State(), Down(paid, Stop(p, s, irq)), Down(after, Stop(p, s, irq)));
        } else {
          SameDebts(p, t, now, after);
        }
      } else {
        assert State() == t;
        SameDebts(p, t, now, after);
      }
    }

    /** interrupt_enable by a user: one more enable is held on a controller's line and every
        count up to the DSP follows; no line gets shorter. A line of no controller is the
        DSP's own: it is switched on, and nothing else changes. */
    method Enable(irq: nat)
      requires Sound()
      modifies this`on, this`child, this`root, this`touched, this`unmasked, this`pending, this`users
      ensures Sound() && Held(p, bases, old(users), users, irq, 1)
      ensures old(root) <= root && (!IsChild(p, bases, irq) ==> root == old(root) + {irq} && unchanged(`on, `child, `unmasked))
    {
      hide Inv, Hooked, IsChild, Shape, Held, Same, Add, Paid, Debt;
      ghost var s := State();
      ghost var debts := short;
      ClearRoots(p, bases, short, irq);
      if IsChild(p, bases, irq) {
        users := UserMoves(p, s, short, irq, 1);
        debts := Add(short, irq, 1);
        ClearAdd(p, bases, short, irq, 1);
      } else {
        HeldAnyway(p, s, short, irq, 1);
      }
      EnableLine(irq, debts);
      PaidBack(p, bases, short, irq, 1);
      SameDebts(p, State(), Paid(p, bases, debts, irq, 1), short);
    }

    /** interrupt_disable by a user, for balanced and unbalanced calls on any line. The user
        gives back an enable if one is held. The line gets one shorter when none is held, and
        the line where disabling stops for want of a count gets one less short. A line of the
        DSP's own is switched off, and nothing else changes. */
    method Disable(irq: nat)
      requires Sound()
      modifies this`on, this`child, this`root, this`touched, this`unmasked, this`users, this`short
      ensures Sound() && old(Shape(p, State()))
      ensures Held(p, bases, old(users), users, irq, if UsersHold(p, old(State()), irq) > 0 then -1 else 0)
      ensures short == Shortfall(p, old(State()), old(short), irq)
      ensures old(Valid()) ==> (Valid() <==> !Takes(p, old(State()), irq))
      ensures root <= old(root) && (!IsChild(p, bases, irq) ==> root == old(root) - {irq} && unchanged(`on, `child, `unmasked))
    {
      hide Inv, Hooked, IsChild, Shape, Held, Same, Add, Paid, Debt, UsersHold, Stop, Down, Takes;
      ghost var s := State();
      HasShape(p, s, short);
      ghost var debts, was := short, short;
      ClearRoots(p, bases, short, irq);
      StillSound(p, s, short, irq);
      if UsersHold(p, s, irq) > 0 {
        HeldIsChild(p, s, irq);
        users := UserMoves(p, s, short, irq, -1);
        debts := Add(short, irq, -1);
        ClearAdd(p, bases, short, irq, -1);
      } else {
        HeldSame(p, s, short, irq);
      }
      StopUsers(p, s, users, irq);
      DisableLine(irq, debts);
      short := Shortfall(p, s, short, irq);
      Settles(p, s, was, irq);
      SameDebts(p, State(), Down(Paid(p, bases, debts, irq, -1), Stop(p, s, irq)), short);
    }

    method NameTaken(name: string) returns (r: bool)
      ensures r <==> name in names
    {
      for k := 0 to |names|
        invariant name !in names[..k]
      {
        if names[k] == name { return true; }
      }
      return false;
    }

    /** interrupt_cascade_register: a new controller, nothing enabled, whose lines follow all
        lines there are; refused when the name is taken. It hangs on a line that exists. */
    method Register(name: string, irq: nat) returns (ok: bool)
      requires Sound() && (irq < p.hw || IsChild(p, bases, irq))
      modifies this
      ensures Sound() && short == old(short) && (ok <==> name !in old(names))
      ensures !ok ==> State() == old(State()) && names == old(names) && lastIrq == old(lastIrq)
      ensures ok ==> names == old(names) + [name] && lastIrq == old(lastIrq) + p.children
      ensures ok ==> bases == old(bases) + [old(lastIrq) + 1] && parents == old(parents) + [irq]
      ensures ok ==> users == old(users) + [Zeros(p.children)]
      ensures ok ==> on == old(on) + [0] && child == old(child) + [Zeros(p.children)] && root == old(root)
    {
      var taken := NameTaken(name);
      if taken { return false; }
      Append(name, irq);
      return true;
    }

    method Append(name: string, irq: nat)
      requires Sound() && (irq < p.hw || IsChild(p, bases, irq))
      modifies this
      ensures Sound() && short == old(short) && old(-1 <= lastIrq)
      ensures names == old(names) + [name] && lastIrq == old(lastIrq) + p.children
      ensures State() == WithController(p, old(State()), old(lastIrq) + 1, irq)
    {
      hide Inv, Shape, Hooked, IsChild, WithController, Debt, Bounded, Below, Zeros;
      NewController(p, State(), short, lastIrq + 1, irq);
      Added(p, State(), lastIrq + 1, irq);
      names := names + [name];
      Extend(lastIrq + 1, irq);
      lastIrq := lastIrq + p.children;
    }

    method Extend(base: nat, irq: nat)
      modifies this`bases, this`parents, this`on, this`child, this`users, this`touched
      ensures State() == WithController(p, old(State()), base, irq)
    {
      hide Zeros;
      bases, parents, on, child := bases + [base], parents + [irq], on + [0], child + [Zeros(p.children)];
      users := users + [Zeros(p.children)];
      touched := if irq < p.hw && irq in root then touched + {irq} else touched;
    }

    /** Any sequence of enables and disables, balanced or not, of any lines: counts stay the
        numbers of enabled lines, DSP lines follow their controllers and no line is counted
        above what is held. What users hold on each line is the tally of the requests for it,
        and each disable changes what lines are short of as one alone does; no line ever gets
        short if none carries a controller. */
    method Serve(requests: seq<Request>) returns (ghost trace: seq<(Irqs, Debts)>)
      requires Sound()
      modifies this`on, this`child, this`root, this`touched, this`unmasked, this`pending, this`users, this`short
      ensures Sound() && |trace| == |requests| + 1
      ensures trace[0] == old((State(), short)) && trace[|requests|] == (State(), short)
      ensures forall i :: 0 <= i < |requests| ==> ShortStep(p, trace[i], requests[i], trace[i + 1].1)
      ensures Tallied(p, bases, old(users), users, requests)
      ensures old(Valid()) && (forall i :: 0 <= i < |requests| ==> requests[i].irq !in parents) ==> Valid()
    {
      hide Inv, Hooked, IsChild, Takes, Shortfall, Debt, Stop, Held, Tallied, ShortStep, UsersHold;
      trace := [(State(), short)];
      StartTally(p, State(), short, requests);
      for i := 0 to |requests|
        invariant Sound() && |trace| == i + 1 && trace[0] == old((State(), short)) && trace[i] == (State(), short)
        invariant forall k :: 0 <= k < i ==> ShortStep(p, trace[k], requests[k], trace[k + 1].1)
        invariant Tallied(p, bases, old(users), users, requests[..i])
        invariant old(Valid()) && (forall k :: 0 <= k < i ==> requests[k].irq !in parents) ==> Valid()
      {
        ghost var s, was := State(), short;
        HasShape(p, s, short);
        if requests[i].enable {
          Enable(requests[i].irq);
        } else {
          if requests[i].irq !in parents { NoneTaken(p, State(), short, requests[i].irq); }
          Disable(requests[i].irq);
        }
        IsShortStep(p, s, was, requests[i], short);
        NextTally(p, s, old(users), users, requests, i);
        trace := trace + [(State(), short)];
      }
      assert requests[..|requests|] == requests;
    }
  }

  // What is held on a line after the requests, if it was n
  function Tally(n: nat, irq: nat, requests: seq<Request>): nat {
    if requests == [] then n
    else
      var r, m := requests[|requests| - 1], Tally(n, irq, requests[..|requests| - 1]);
      if r.irq != irq then m else if r.enable then m + 1 else if m > 0 then m - 1 else 0
  }

  ghost predicate Tallied(p: Platform, bases: seq<nat>, a: seq<seq<nat>>, b: seq<seq<nat>>, requests: seq<Request>) {
    && |a| == |b| == |bases|
    && (forall k :: 0 <= k < |a| ==> |a[k]| == |b[k]| == p.children)
    && (forall k, h :: 0 <= k < |a| && 0 <= h < p.children ==> b[k][h] == Tally(a[k][h], bases[k] + h, requests))
  }

  ghost predicate ShortStep(p: Platform, was: (Irqs, Debts), r: Request, short: Debts) {
    Shape(p, was.0) && short == if r.enable then was.1 else Shortfall(p, was.0, was.1, r.irq)
  }

  lemma IsShortStep(p: Platform, s: Irqs, was: Debts, r: Request, short: Debts)
    requires Shape(p, s) && short == if r.enable then was else Shortfall(p, s, was, r.irq)
    ensures ShortStep(p, (s, was), r, short)
  {
  }

  lemma StartTally(p: Platform, s: Irqs, debts: Debts, requests: seq<Request>)
    requires Inv(p, s, debts)
    ensures Tallied(p, s.bases, s.users, s.users, requests[..0])
  {
  }

  lemma NextTally(p: Platform, s: Irqs, a: seq<seq<nat>>, b: seq<seq<nat>>, requests: seq<Request>, i: nat)
    requires Shape(p, s) && i < |requests| && Tallied(p, s.bases, a, s.users, requests[..i])
    requires var r := requests[i];
      Held(p, s.bases, s.users, b, r.irq, if r.enable then 1 else if UsersHold(p, s, r.irq) > 0 then -1 else 0)
    ensures Tallied(p, s.bases, a, b, requests[..i + 1])
  {
    hide UsersHold, Tally;
    forall k: nat, h: nat | k < |a| && h < p.children
      ensures b[k][h] == Tally(a[k][h], s.bases[k] + h, requests[..i + 1])
    {
      TallyNext(a[k][h], s.bases[k] + h, requests, i);
      AtLine(p, s, s.bases[k] + h);
      assert IsLine(p, s, k, h);
    }
  }

  lemma TallyNext(n: nat, irq: nat, requests: seq<Request>, i: nat)
    requires i < |requests|
    ensures var r, m := requests[i], Tally(n, irq, requests[..i]);
      Tally(n, irq, requests[..i + 1]) == if r.irq != irq then m else if r.enable then m + 1 else if m > 0 then m - 1 else 0
  {
    assert requests[..i + 1][..i] == requests[..i];
  }

  lemma HasShape(p: Platform, s: Irqs, debts: Debts)
    requires Inv(p, s, debts)
    ensures Shape(p, s)
  {
  }

  lemma LineCase(p: Platform, s: Irqs, debts: Debts, k: nat, h: nat)
    requires Inv(p, s, debts) && IsLine(p, s, k, h)
    ensures |s.child| == |s.on| == |s.users| == |s.parents| == |s.bases|
    ensures |s.child[k]| == |s.users[k]| == p.children
    ensures s.parents[k] < s.bases[k] && p.hw <= s.bases[k]
    ensures s.on[k] == Nonzero(s.child[k]) && PassedAt(p, s, k, h) && CountedAt(p, s, debts, k, h)
  {
    Lines(p, s, k, h, k, h);
  }

  // The state after line h of controller k was counted up or down
  function Moved(s: Irqs, k: nat, h: nat, d: int): Irqs
    requires k < |s.child| && h < |s.child[k]| && k < |s.on| && k < |s.bases| && s.child[k][h] + d >= 0
    requires s.on[k] + Change(s.child[k][h], d) >= 0
  {
    SetLine(s, k, h, s.child[k][h] + d, s.on[k] + Change(s.child[k][h], d),
            if s.child[k][h] + d > 0 then s.unmasked + {s.bases[k] + h} else s.unmasked - {s.bases[k] + h})
  }

  // Whether a count becomes positive or stops being so
  function Change(v: nat, d: int): int {
    (if v + d > 0 then 1 else 0) - if v > 0 then 1 else 0
  }

  lemma MoveLine(p: Platform, s: Irqs, debts: Debts, k: nat, h: nat, d: int) returns (now: Debts)
    requires IsLine(p, s, k, h) && Inv(p, s, debts) && Hooked(p, s.bases, s.parents)
    requires RootsClear(p, s.bases, debts, s.bases[k] + h) && (d == 1 || (d == -1 && s.child[k][h] > 0))
    ensures |s.child| == |s.on| == |s.users| == |s.parents| == |s.bases| && |s.child[k]| == p.children
    ensures s.parents[k] < s.bases[k] && s.on[k] + Change(s.child[k][h], d) >= 0
    ensures Inv(p, Moved(s, k, h, d), now) && RootsClear(p, s.bases, now, s.parents[k])
    ensures var e := Owed(s, k, s.on[k] + Change(s.child[k][h], d));
      && (!IsChild(p, s.bases, s.parents[k]) ==> Debt(now, s.parents[k]) == e)
      && (e != 0 ==> Same(Paid(p, s.bases, now, s.parents[k], e), Add(debts, s.bases[k] + h, -d)))
      && (e == 0 ==> Same(now, Add(debts, s.bases[k] + h, -d)))
  {
    hide Inv, Nonzero, Shape, IsChild, Hooked, Same, Paid, Debt, RootsClear, Settled;
    HasShape(p, s, debts);
    LineCase(p, s, debts, k, h);
    NonzeroUpdate(s.child[k], h, s.child[k][h] + d);
    var on := s.on[k] + Change(s.child[k][h], d);
    now := Settled(s, debts, k, h, d, on);
    SettledDebts(p, s, debts, k, h, d, on);
    SettleLine(p, s, debts, k, h, s.child[k][h] + d, on,
               if s.child[k][h] + d > 0 then s.unmasked + {s.bases[k] + h} else s.unmasked - {s.bases[k] + h});
  }

  lemma SettledDebts(p: Platform, s: Irqs, debts: Debts, k: nat, h: nat, d: int, on: nat)
    requires Shape(p, s) && IsLine(p, s, k, h) && Hooked(p, s.bases, s.parents)
    requires RootsClear(p, s.bases, debts, s.bases[k] + h)
    ensures var now, e := Settled(s, debts, k, h, d, on), Owed(s, k, on);
      && RootsClear(p, s.bases, now, s.parents[k]) && (s.parents[k] < p.hw ==> Debt(debts, s.parents[k]) == 0)
      && (!IsChild(p, s.bases, s.parents[k]) ==> Debt(now, s.parents[k]) == e)
      && (e != 0 ==> Same(Paid(p, s.bases, now, s.parents[k], e), Add(debts, s.bases[k] + h, -d)))
      && (e == 0 ==> Same(now, Add(debts, s.bases[k] + h, -d)))
  {
    hide IsChild, Hooked, RootsClear, Same, Paid, Add, Debt;
    IsItsChild(p, s, k, h);
    Lines(p, s, k, h, k, h);
    PaidUp(p, s.bases, debts, s.bases[k] + h, s.parents[k], d, Owed(s, k, on));
  }

  lemma PaidUp(p: Platform, bases: seq<nat>, debts: Debts, line: nat, up: nat, d: int, e: int)
    requires IsChild(p, bases, line) && up < line && RootsClear(p, bases, debts, line)
    ensures var now := Add(Add(debts, line, -d), up, e);
      && RootsClear(p, bases, now, up)
      && (!IsChild(p, bases, up) ==> Debt(debts, up) == 0 && Debt(now, up) == e)
      && (e != 0 ==> Same(Paid(p, bases, now, up, e), Add(debts, line, -d)))
      && (e == 0 ==> Same(now, Add(debts, line, -d)))
  {
    hide IsChild;
  }

  lemma IsItsChild(p: Platform, s: Irqs, k: nat, h: nat)
    requires Shape(p, s) && IsLine(p, s, k, h)
    ensures IsChild(p, s.bases, s.bases[k] + h) && forall x: nat :: x < p.hw ==> !IsChild(p, s.bases, x)
  {
    assert Contains(p, s.bases[k], s.bases[k] + h);
  }

  // ---------------------------------------------------------------- where disabling stops

  /** The line without a count, if any, at which disabling comes to an end on its way up. */
  ghost function Stop(p: Platform, s: Irqs, irq: nat): Option<nat>
    requires Shape(p, s)
    decreases irq
  {
    var c := FindParent(p, s.bases, irq);
    if c.None? then None
    else
      var k, n := c.value, s.child[c.value][irq - s.bases[c.value]];
      if n == 0 then Some(irq)
      else if n == 1 && s.on[k] == 1 then Stop(p, s, s.parents[k])
      else None
  }

  // A line that disabling stops at is short by one less
  function Down(debts: Debts, stop: Option<nat>): Debts {
    if stop.Some? then Add(debts, stop.value, -1) else debts
  }

  lemma StopIs(p: Platform, s: Irqs, irq: nat)
    requires Shape(p, s)
    ensures !IsChild(p, s.bases, irq) ==> Stop(p, s, irq) == None
  {
  }

  lemma StopAtLine(p: Platform, s: Irqs, k: nat, h: nat)
    requires Shape(p, s) && IsLine(p, s, k, h)
    ensures Stop(p, s, s.bases[k] + h) ==
      if s.child[k][h] == 0 then Some(s.bases[k] + h)
      else if s.child[k][h] == 1 && s.on[k] == 1 then Stop(p, s, s.parents[k]) else None
  {
    AtLine(p, s, s.bases[k] + h);
  }

  // What happens above a controller does not depend on its own counts
  lemma {:induction false} StopSame(p: Platform, s: Irqs, t: Irqs, k: nat, irq: nat)
    requires Shape(p, s) && Shape(p, t) && s.bases == t.bases && s.parents == t.parents
    requires k < |s.bases| && irq < s.bases[k]
    requires forall j :: 0 <= j < |s.bases| && j != k ==> s.child[j] == t.child[j] && s.on[j] == t.on[j]
    ensures Stop(p, s, irq) == Stop(p, t, irq)
    decreases irq
  {
    var c := FindParent(p, s.bases, irq);
    if c.Some? { StopSame(p, s, t, k, s.parents[c.value]); }
  }

  lemma StopBelow(p: Platform, s: Irqs, debts: Debts, k: nat, h: nat, now: Debts)
    requires IsLine(p, s, k, h) && Inv(p, s, debts) && s.child[k][h] == 1 && s.on[k] == 1
    requires s.on[k] + Change(s.child[k][h], -1) >= 0 && Inv(p, Moved(s, k, h, -1), now)
    ensures s.parents[k] < s.bases[k]
    ensures Stop(p, Moved(s, k, h, -1), s.parents[k]) == Stop(p, s, s.bases[k] + h)
  {
    hide Counted, Summed, Rooted, Stop;
    Lines(p, s, k, h, k, h);
    StopAtLine(p, s, k, h);
    StopSame(p, s, Moved(s, k, h, -1), k, s.parents[k]);
  }

  lemma NoChange(debts: Debts, irq: nat)
    ensures Same(debts, Down(Add(debts, irq, 1), Some(irq)))
  {
  }

  lemma DownNone(debts: Debts)
    ensures Down(debts, None) == debts
  {
  }

  lemma DownSame(a: Debts, b: Debts, stop: Option<nat>)
    requires Same(a, b)
    ensures Same(Down(a, stop), Down(b, stop))
  {
    forall x: nat
      ensures Debt(Down(a, stop), x) == Debt(Down(b, stop), x)
    {
      assert Debt(a, x) == Debt(b, x);
      if stop.Some? { assert Debt(a, stop.value) == Debt(b, stop.value); }
    }
  }

  lemma {:induction false} HangingPositive(parents: seq<nat>, on: seq<nat>, k: nat)
    requires |parents| == |on| && k < |on| && on[k] > 0
    ensures Hanging(parents, on, parents[k]) > 0
  {
    var m := |on| - 1;
    if k < m {
      HangingPositive(parents[..m], on[..m], k);
    }
  }

  // ---------------------------------------------------------------- what users hold

  // The enables users hold change by d on one line
  ghost predicate Held(p: Platform, bases: seq<nat>, a: seq<seq<nat>>, b: seq<seq<nat>>, irq: nat, d: int) {
    && |a| == |b| == |bases|
    && (forall k :: 0 <= k < |a| ==> |a[k]| == |b[k]| == p.children)
    && (forall k, h :: 0 <= k < |a| && 0 <= h < p.children ==> b[k][h] == a[k][h] + if bases[k] + h == irq then d else 0)
  }

  function FindParent(p: Platform, bases: seq<nat>, irq: nat): (r: Option<nat>)
    ensures r.Some? ==> r.value < |bases| && Contains(p, bases[r.value], irq)
    ensures r.None? ==> forall k :: 0 <= k < |bases| ==> !Contains(p, bases[k], irq)
  {
    if bases == [] then None
    else
      var k := |bases| - 1;
      if Contains(p, bases[k], irq) then Some(k) else FindParent(p, bases[..k], irq)
  }

  // Count of a line, and the part of it that users hold
  function CountOf(p: Platform, s: Irqs, irq: nat): nat {
    At(s.child, s.bases, FindParent(p, s.bases, irq), irq)
  }

  function UsersHold(p: Platform, s: Irqs, irq: nat): nat {
    At(s.users, s.bases, FindParent(p, s.bases, irq), irq)
  }

  function At(rows: seq<seq<nat>>, bases: seq<nat>, c: Option<nat>, irq: nat): nat {
    if c.Some? && c.value < |bases| && c.value < |rows| && 0 <= irq - bases[c.value] < |rows[c.value]|
    then rows[c.value][irq - bases[c.value]] else 0
  }

  // Disabling the line takes an enable that no user holds
  predicate Takes(p: Platform, s: Irqs, irq: nat) {
    CountOf(p, s, irq) > 0 && UsersHold(p, s, irq) == 0
  }

  lemma AtLine(p: Platform, s: Irqs, irq: nat)
    requires Shape(p, s)
    ensures IsChild(p, s.bases, irq) <==> FindParent(p, s.bases, irq).Some?
    ensures !IsChild(p, s.bases, irq) ==> CountOf(p, s, irq) == 0 && UsersHold(p, s, irq) == 0
    ensures forall k: nat, h: nat :: IsLine(p, s, k, h) && s.bases[k] + h == irq ==>
      && FindParent(p, s.bases, irq) == Some(k) && k < |s.child| && h < |s.child[k]| && k < |s.users| && h < |s.users[k]|
      && CountOf(p, s, irq) == s.child[k][h] && UsersHold(p, s, irq) == s.users[k][h]
  {
    var c := FindParent(p, s.bases, irq);
    forall k: nat, h: nat | IsLine(p, s, k, h) && s.bases[k] + h == irq
      ensures c == Some(k)
    {
      assert Contains(p, s.bases[k], irq);
      Lines(p, s, k, h, c.value, irq - s.bases[c.value]);
    }
  }

  // What every line is short of after a user disabled irq
  ghost function Shortfall(p: Platform, s: Irqs, short: Debts, irq: nat): Debts
    requires Shape(p, s)
  {
    Down(if IsChild(p, s.bases, irq) && UsersHold(p, s, irq) == 0 then Add(short, irq, 1) else short, Stop(p, s, irq))
  }

  ghost predicate NoneShort(short: Debts) {
    forall x: nat :: Debt(short, x) == 0
  }

  // Only lines of controllers are ever short
  ghost predicate Bounded(p: Platform, bases: seq<nat>, short: Debts) {
    forall x: nat :: Debt(short, x) >= 0 && (!IsChild(p, bases, x) ==> Debt(short, x) == 0)
  }

  lemma ClearRoots(p: Platform, bases: seq<nat>, short: Debts, irq: nat)
    requires Bounded(p, bases, short)
    ensures RootsClear(p, bases, short, irq) && (!IsChild(p, bases, irq) ==> Debt(short, irq) == 0)
  {
  }

  lemma ClearAdd(p: Platform, bases: seq<nat>, short: Debts, irq: nat, d: int)
    requires Bounded(p, bases, short)
    ensures RootsClear(p, bases, Add(short, irq, d), irq)
  {
  }

  lemma PaidBack(p: Platform, bases: seq<nat>, short: Debts, irq: nat, d: int)
    requires Bounded(p, bases, short)
    ensures IsChild(p, bases, irq) ==> Same(Paid(p, bases, Add(short, irq, d), irq, d), short)
    ensures !IsChild(p, bases, irq) ==> Same(Paid(p, bases, short, irq, d), short)
  {
  }

  // ---------------------------------------------------------------- the shortfall

  // A line above an enabled controller that has no count is short
  lemma {:induction false} StopShort(p: Platform, s: Irqs, short: Debts, k: nat, x: nat)
    requires Inv(p, s, short) && k < |s.bases| && s.on[k] > 0 && Stop(p, s, s.parents[k]) == Some(x)
    ensures Debt(short, x) >= 1
    decreases s.parents[k]
  {
    hide Nonzero, Hanging, Summed, Rooted;
    var up := s.parents[k];
    var c := FindParent(p, s.bases, up);
    var h := up - s.bases[c.value];
    assert IsLine(p, s, c.value, h);
    if s.child[c.value][h] == 0 {
      assert CountedAt(p, s, short, c.value, h);
      HangingPositive(s.parents, s.on, k);
    } else {
      StopShort(p, s, short, c.value, x);
    }
  }

  /** Lines stay bounded; from a state without shortfall only taking makes one. */
  lemma StillSound(p: Platform, s: Irqs, short: Debts, irq: nat)
    requires Inv(p, s, short) && Bounded(p, s.bases, short)
    ensures Bounded(p, s.bases, Shortfall(p, s, short, irq))
    ensures NoneShort(short) ==> (NoneShort(Shortfall(p, s, short, irq)) <==> !Takes(p, s, irq))
  {
    hide Inv, Stop, UsersHold, CountOf, NoneShort, Bounded, Shortfall;
    HasShape(p, s, short);
    AtLine(p, s, irq);
    var c := FindParent(p, s.bases, irq);
    if c.Some? {
      var k, h := c.value, irq - s.bases[c.value];
      assert IsLine(p, s, k, h);
      ShortfallAt(p, s, short, k, h);
      if NoneShort(short) { ShortfallWhen(p, s, short, k, h); }
    } else {
      NoLineShort(p, s, short, irq);
    }
  }

  // Where disabling a line stops, if not at the line itself, the count is short
  lemma StopElsewhere(p: Platform, s: Irqs, short: Debts, k: nat, h: nat)
    requires IsLine(p, s, k, h) && Inv(p, s, short)
    ensures var stop := Stop(p, s, s.bases[k] + h);
      && (stop.Some? ==> IsChild(p, s.bases, stop.value))
      && (s.child[k][h] == 0 ==> stop == Some(s.bases[k] + h))
      && (s.child[k][h] > 0 && stop.Some? ==> stop.value != s.bases[k] + h && Debt(short, stop.value) >= 1)
  {
    hide Stop;
    StopAtLine(p, s, k, h);
    Lines(p, s, k, h, k, h);
    IsItsChild(p, s, k, h);
    if s.child[k][h] == 1 && s.on[k] == 1 && Stop(p, s, s.parents[k]).Some? {
      var x := Stop(p, s, s.parents[k]).value;
      StopShort(p, s, short, k, x);
      StopLower(p, s, s.parents[k]);
    }
  }

  lemma {:induction false} StopLower(p: Platform, s: Irqs, irq: nat)
    requires Shape(p, s)
    ensures var stop := Stop(p, s, irq); stop.Some? ==> stop.value <= irq && IsChild(p, s.bases, stop.value)
    decreases irq
  {
    var c := FindParent(p, s.bases, irq);
    if c.Some? { StopLower(p, s, s.parents[c.value]); }
  }

  // Disabling a number that is no controller's line leaves every line's shortfall
  lemma NoLineShort(p: Platform, s: Irqs, short: Debts, irq: nat)
    requires Shape(p, s) && !IsChild(p, s.bases, irq)
    ensures Shortfall(p, s, short, irq) == short && !Takes(p, s, irq)
  {
    AtLine(p, s, irq);
  }

  lemma ShortfallIs(p: Platform, s: Irqs, short: Debts, k: nat, h: nat, x: nat)
    requires IsLine(p, s, k, h) && Shape(p, s)
    ensures var irq := s.bases[k] + h;
      Debt(Shortfall(p, s, short, irq), x)
        == Debt(short, x) + (if x == irq && s.users[k][h] == 0 then 1 else 0)
           - if Stop(p, s, irq) == Some(x) then 1 else 0
  {
    hide Stop;
    IsItsChild(p, s, k, h);
    AtLine(p, s, s.bases[k] + h);
  }

  lemma ShortfallAt(p: Platform, s: Irqs, short: Debts, k: nat, h: nat)
    requires IsLine(p, s, k, h) && Inv(p, s, short) && Bounded(p, s.bases, short)
    ensures Bounded(p, s.bases, Shortfall(p, s, short, s.bases[k] + h))
  {
    hide Inv, Stop, Shortfall, Hanging;
    HasShape(p, s, short);
    var irq := s.bases[k] + h;
    StopElsewhere(p, s, short, k, h);
    LineCase(p, s, short, k, h);
    IsItsChild(p, s, k, h);
    forall x: nat
      ensures var d := Debt(Shortfall(p, s, short, irq), x); d >= 0 && (!IsChild(p, s.bases, x) ==> d == 0)
    {
      ShortfallIs(p, s, short, k, h, x);
      assert Debt(short, x) >= 0;
    }
  }

  lemma ShortfallWhen(p: Platform, s: Irqs, short: Debts, k: nat, h: nat)
    requires IsLine(p, s, k, h) && Inv(p, s, short) && NoneShort(short)
    ensures NoneShort(Shortfall(p, s, short, s.bases[k] + h)) <==> !Takes(p, s, s.bases[k] + h)
  {
    hide Inv, Stop, Shortfall, CountOf, UsersHold;
    HasShape(p, s, short);
    var irq := s.bases[k] + h;
    StopElsewhere(p, s, short, k, h);
    LineCase(p, s, short, k, h);
    AtLine(p, s, irq);
    forall x: nat
      ensures Debt(Shortfall(p, s, short, irq), x) == if x == irq && Takes(p, s, irq) then 1 else 0
    {
      ShortfallIs(p, s, short, k, h, x);
      assert Debt(short, x) == 0;
    }
    assert Takes(p, s, irq) ==> Debt(Shortfall(p, s, short, irq), irq) == 1;
  }

  lemma StopUsers(p: Platform, s: Irqs, users: seq<seq<nat>>, irq: nat)
    requires Shape(p, s)
    ensures Shape(p, s.(users := users)) ==> Stop(p, s.(users := users), irq) == Stop(p, s, irq)
    decreases irq
  {
    var c := FindParent(p, s.bases, irq);
    if c.Some? { StopUsers(p, s, users, s.parents[c.value]); }
  }

  // The debt left by disabling is the shortfall
  lemma Settles(p: Platform, s: Irqs, short: Debts, irq: nat)
    requires Shape(p, s) && Bounded(p, s.bases, short)
    ensures var debts := if UsersHold(p, s, irq) > 0 then Add(short, irq, -1) else short;
      Same(Down(Paid(p, s.bases, debts, irq, -1), Stop(p, s, irq)), Shortfall(p, s, short, irq))
  {
    hide Stop, UsersHold, Down;
    HeldIsChild(p, s, irq);
    var debts := if UsersHold(p, s, irq) > 0 then Add(short, irq, -1) else short;
    var goal := if IsChild(p, s.bases, irq) && UsersHold(p, s, irq) == 0 then Add(short, irq, 1) else short;
    assert Same(Paid(p, s.bases, debts, irq, -1), goal);
    DownSame(Paid(p, s.bases, debts, irq, -1), goal, Stop(p, s, irq));
  }

  lemma HeldIsChild(p: Platform, s: Irqs, irq: nat)
    requires Shape(p, s)
    ensures UsersHold(p, s, irq) > 0 ==> IsChild(p, s.bases, irq)
  {
    AtLine(p, s, irq);
  }

  lemma HeldSame(p: Platform, s: Irqs, debts: Debts, irq: nat)
    requires Inv(p, s, debts)
    ensures Held(p, s.bases, s.users, s.users, irq, 0)
  {
  }

  lemma HeldAnyway(p: Platform, s: Irqs, debts: Debts, irq: nat, d: int)
    requires Inv(p, s, debts) && !IsChild(p, s.bases, irq)
    ensures Held(p, s.bases, s.users, s.users, irq, d)
  {
    forall k, h | 0 <= k < |s.users| && 0 <= h < p.children
      ensures s.users[k][h] == s.users[k][h] + if s.bases[k] + h == irq then d else 0
    {
      assert Contains(p, s.bases[k], s.bases[k] + h);
    }
  }

  // A user's enable or disable leaves the line to be counted up or down
  lemma UserMoves(p: Platform, s: Irqs, short: Debts, irq: nat, d: int) returns (users: seq<seq<nat>>)
    requires Inv(p, s, short) && IsChild(p, s.bases, irq) && UsersHold(p, s, irq) + d >= 0
    ensures Inv(p, s.(users := users), Add(short, irq, d))
    ensures Held(p, s.bases, s.users, users, irq, d)
  {
    hide Hanging, Nonzero, Counted, Summed, Rooted;
    AtLine(p, s, irq);
    var c := FindParent(p, s.bases, irq);
    var k, h := c.value, irq - s.bases[c.value];
    LineCase(p, s, short, k, h);
    var row: seq<nat> := s.users[k][h := s.users[k][h] + d];
    users := s.users[k := row];
    HeldRow(p, s, k, h, d, users);
    UserCounts(p, s, short, irq, d, users);
  }

  lemma HeldRow(p: Platform, s: Irqs, k: nat, h: nat, d: int, users: seq<seq<nat>>)
    requires Shape(p, s) && IsLine(p, s, k, h) && s.users[k][h] + d >= 0
    requires var row: seq<nat> := s.users[k][h := s.users[k][h] + d]; users == s.users[k := row]
    ensures Held(p, s.bases, s.users, users, s.bases[k] + h, d)
  {
    forall j: nat, g: nat | j < |s.users| && g < p.children
      ensures users[j][g] == s.users[j][g] + if s.bases[j] + g == s.bases[k] + h then d else 0
    {
      Lines(p, s, k, h, j, g);
    }
  }

  lemma UserCounts(p: Platform, s: Irqs, short: Debts, irq: nat, d: int, users: seq<seq<nat>>)
    requires Inv(p, s, short) && IsChild(p, s.bases, irq)
    requires Held(p, s.bases, s.users, users, irq, d)
    ensures Inv(p, s.(users := users), Add(short, irq, d))
  {
    hide Hanging, Nonzero, Alone;
    var t, now := s.(users := users), Add(short, irq, d);
    assert Shape(p, t);
    forall k: nat, h: nat | IsLine(p, t, k, h)
      ensures CountedAt(p, t, now, k, h) && PassedAt(p, t, k, h)
    {
      assert IsLine(p, s, k, h) && CountedAt(p, s, short, k, h) && PassedAt(p, s, k, h);
    }
    forall k | 0 <= k < |t.bases| && t.parents[k] < p.hw && Alone(t.parents, k)
      ensures RootedAt(t, now, k)
    {
      assert RootedAt(s, short, k);
    }
  }

  datatype Request = Request(enable: bool, irq: nat)

  // On a line that carries no controller every enable is held by a user
  lemma NoneTaken(p: Platform, s: Irqs, short: Debts, irq: nat)
    requires Inv(p, s, short) && Debt(short, irq) >= 0 && irq !in s.parents
    ensures !Takes(p, s, irq)
  {
    hide Nonzero, Summed, Rooted;
    var c := FindParent(p, s.bases, irq);
    if c.Some? {
      var h := irq - s.bases[c.value];
      assert IsLine(p, s, c.value, h) && CountedAt(p, s, short, c.value, h);
      NoneHanging(s.parents, s.on, irq);
    }
  }

  lemma {:induction false} NoneHanging(parents: seq<nat>, on: seq<nat>, line: nat)
    requires |parents| == |on| && line !in parents
    ensures Hanging(parents, on, line) == 0
  {
    if parents != [] { NoneHanging(parents[..|on| - 1], on[..|on| - 1], line); }
  }

  /** Disabling a line takes an enable exactly when no user holds one and an enabled
      controller hangs on the line. */
  lemma TakesWhen(p: Platform, s: Irqs, short: Debts, irq: nat)
    requires Inv(p, s, short) && Debt(short, irq) == 0
    ensures Takes(p, s, irq) <==>
      IsChild(p, s.bases, irq) && UsersHold(p, s, irq) == 0 && Hanging(s.parents, s.on, irq) > 0
  {
    hide Hanging, Nonzero, Summed, Rooted;
    AtLine(p, s, irq);
    var c := FindParent(p, s.bases, irq);
    if c.Some? {
      var h := irq - s.bases[c.value];
      assert IsLine(p, s, c.value, h) && CountedAt(p, s, short, c.value, h);
    }
  }

  /** It can happen: a controller on line 8 of another one, and only a line of the former
      enabled by a user. */
  method EnableTaken() returns (c: CascadeRoot)
    ensures c.p == Platform(8, 1) && c.Sound() && !c.Valid()
  {
    hide Inv, Hooked, Hanging, Stop, Shortfall, Bounded, Below, IsChild;
    c := TwoControllers();
    AtNine(c.p, c.bases);
    c.Enable(9);
    SecondEnabled(c.p, c.State(), c.short);
    TakesWhen(c.p, c.State(), c.short, 8);
    c.Disable(8);
  }

  lemma AtNine(p: Platform, bases: seq<nat>)
    requires p == Platform(8, 1) && bases == [8, 9]
    ensures IsChild(p, bases, 8) && IsChild(p, bases, 9)
  {
    assert Contains(p, bases[0], 8) && Contains(p, bases[1], 9);
  }

  method TwoControllers() returns (c: CascadeRoot)
    ensures fresh(c) && c.p == Platform(8, 1) && c.Valid()
    ensures c.bases == [8, 9] && c.parents == [3, 8] && c.users == [[0], [0]]
  {
    hide Inv, Hooked, Bounded, Below;
    c := new CascadeRoot(Platform(8, 1));
    var a := c.Register("a", 3);
    assert Contains(c.p, c.bases[0], 8);
    var b := c.Register("ab", 8);
    assert Zeros(c.p.children) == [0];
  }

  lemma SecondEnabled(p: Platform, s: Irqs, short: Debts)
    requires p == Platform(8, 1) && Inv(p, s, short) && NoneShort(short)
    requires s.bases == [8, 9] && s.parents == [3, 8]
    requires |s.users| == 2 && |s.users[0]| == |s.users[1]| == 1 && s.users[0][0] == 0 && s.users[1][0] == 1
    ensures UsersHold(p, s, 8) == 0 && Hanging(s.parents, s.on, 8) > 0
  {
    assert IsLine(p, s, 0, 0) && s.bases[0] + 0 == 8;
    assert IsLine(p, s, 1, 0) && CountedAt(p, s, short, 1, 0);
    AtLine(p, s, 8);
    NonzeroPositive(s.child[1], 0);
    HangingPositive(s.parents, s.on, 1);
  }

  // The counts of lines none of which is enabled
  function Zeros(n: nat): (r: seq<nat>)
    ensures |r| == n && forall i :: 0 <= i < n ==> r[i] == 0
  {
    seq(n, _ => 0)
  }

  function WithController(p: Platform, s: Irqs, base: nat, irq: nat): Irqs {
    Irqs(s.bases + [base], s.parents + [irq], s.on + [0], s.child + [Zeros(p.children)],
         s.users + [Zeros(p.children)], s.root,
         if irq < p.hw && irq in s.root then s.touched + {irq} else s.touched, s.unmasked)
  }

  lemma Added(p: Platform, s: Irqs, base: nat, irq: nat)
    ensures var t := WithController(p, s, base, irq);
      && t.bases == s.bases + [base] && t.parents == s.parents + [irq] && t.on == s.on + [0]
      && t.child == s.child + [Zeros(p.children)] && t.users == s.users + [Zeros(p.children)]
      && t.root == s.root && t.unmasked == s.unmasked
  {
  }

  lemma NewController(p: Platform, s: Irqs, short: Debts, base: nat, irq: nat)
    requires Inv(p, s, short) && Hooked(p, s.bases, s.parents) && (irq < p.hw || IsChild(p, s.bases, irq))
    requires Bounded(p, s.bases, short)
    requires Below(p, s.bases, base)
    ensures Below(p, s.bases + [base], base + p.children)
    ensures var t := WithController(p, s, base, irq);
      Inv(p, t, short) && Hooked(p, t.bases, t.parents) && Bounded(p, t.bases, short)
  {
    var t := WithController(p, s, base, irq);
    assert irq < base;
    NewShape(p, s, base, irq);
    NewChild(p, s, base, irq);
    NewLines(p, s, short, base, irq);
    NewSums(p, s, short, base, irq);
    NewRoots(p, s, short, base, irq);
  }

  lemma NewShape(p: Platform, s: Irqs, base: nat, irq: nat)
    requires Shape(p, s) && irq < base && Below(p, s.bases, base)
    ensures Shape(p, WithController(p, s, base, irq))
  {
  }

  lemma NewChild(p: Platform, s: Irqs, base: nat, irq: nat)
    requires Hooked(p, s.bases, s.parents) && (irq < p.hw || IsChild(p, s.bases, irq))
    ensures forall x :: IsChild(p, s.bases, x) ==> IsChild(p, s.bases + [base], x)
    ensures Hooked(p, s.bases + [base], s.parents + [irq])
  {
    forall x | IsChild(p, s.bases, x)
      ensures IsChild(p, s.bases + [base], x)
    {
      var k :| 0 <= k < |s.bases| && Contains(p, s.bases[k], x);
      assert Contains(p, (s.bases + [base])[k], x);
    }
  }

  lemma NewLines(p: Platform, s: Irqs, short: Debts, base: nat, irq: nat)
    requires Inv(p, s, short) && irq < base && Below(p, s.bases, base) && Bounded(p, s.bases, short)
    ensures var t := WithController(p, s, base, irq); Shape(p, t) && Counted(p, t, short)
  {
    hide Hanging, Summed, Rooted;
    NewShape(p, s, base, irq);
    var t := WithController(p, s, base, irq);
    forall k: nat, h: nat | IsLine(p, t, k, h)
      ensures CountedAt(p, t, short, k, h)
    {
      HangingNew(s.parents, s.on, irq, t.bases[k] + h);
      if k < |s.bases| {
        assert IsLine(p, s, k, h) && CountedAt(p, s, short, k, h);
      } else {
        NoneHanging(s.parents, s.on, base + h);
        assert !IsChild(p, s.bases, base + h);
      }
    }
  }

  lemma HangingNew(parents: seq<nat>, on: seq<nat>, irq: nat, line: nat)
    requires |parents| == |on|
    ensures Hanging(parents + [irq], on + [0], line) == Hanging(parents, on, line)
  {
    assert (parents + [irq])[..|on|] == parents && (on + [0])[..|on|] == on;
  }

  lemma NewSums(p: Platform, s: Irqs, short: Debts, base: nat, irq: nat)
    requires Inv(p, s, short) && irq < base && Below(p, s.bases, base)
    requires forall x :: IsChild(p, s.bases, x) ==> IsChild(p, s.bases + [base], x)
    ensures var t := WithController(p, s, base, irq); Shape(p, t) && Summed(p, t)
  {
    hide Nonzero, Counted, Rooted;
    NewShape(p, s, base, irq);
    AllZero(p.children);
    var t := WithController(p, s, base, irq);
    forall k: nat, h: nat | IsLine(p, t, k, h)
      ensures PassedAt(p, t, k, h)
    {
      if k < |s.bases| { assert IsLine(p, s, k, h) && PassedAt(p, s, k, h); }
    }
  }

  lemma {:induction false} AllZero(n: nat)
    ensures Nonzero(Zeros(n)) == 0
  {
    if n > 0 {
      AllZero(n - 1);
      assert Zeros(n)[..n - 1] == Zeros(n - 1);
    }
  }

  lemma NewRoots(p: Platform, s: Irqs, short: Debts, base: nat, irq: nat)
    requires Inv(p, s, short) && irq < base && Below(p, s.bases, base)
    requires Bounded(p, s.bases, short)
    ensures var t := WithController(p, s, base, irq); Shape(p, t) && Rooted(p, t, short)
  {
    hide Counted, Summed;
    NewShape(p, s, base, irq);
    var t := WithController(p, s, base, irq);
    forall k | 0 <= k < |t.bases| && t.parents[k] < p.hw && Alone(t.parents, k)
      ensures RootedAt(t, short, k)
    {
      if k < |s.bases| {
        assert Alone(s.parents, k) by {
          forall j | 0 <= j < |s.parents| && j != k ensures s.parents[j] != s.parents[k] {
            assert t.parents[j] == s.parents[j];
          }
        }
        assert RootedAt(s, short, k) && t.parents[|s.bases|] == irq;
      }
    }
  }
}
