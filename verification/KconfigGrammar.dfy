/**
 The grammar of expressions, and the proof that the parser accepts exactly its sentences
 and gives each its one reading.
 */
module KconfigGrammar {
  import opened KconfigEval
  import opened KconfigText

  // ---------------------------------------------------------------- the grammar

  // <expr>: <and-expr> | <and-expr> '||' <expr>
  ghost predicate IsExpr(ts: seq<Token>, e: Expr)
    decreases |ts|, 2
  {
    || IsAnd(ts, e)
    || (e.Or? && exists i :: 0 <= i < |ts| && OrAt(ts, i, e))
  }

  ghost predicate OrAt(ts: seq<Token>, i: nat, e: Expr)
    requires i < |ts| && e.Or?
    decreases |ts|, 1, 1
  {
    ts[i] == TOr && IsAnd(ts[..i], e.left) && IsExpr(ts[i + 1..], e.right)
  }

  // <and-expr>: <factor> | <factor> '&&' <and-expr>
  ghost predicate IsAnd(ts: seq<Token>, e: Expr)
    decreases |ts|, 1
  {
    || IsFactor(ts, e)
    || (e.And? && exists i :: 0 <= i < |ts| && AndAt(ts, i, e))
  }

  ghost predicate AndAt(ts: seq<Token>, i: nat, e: Expr)
    requires i < |ts| && e.And?
    decreases |ts|, 0, 1
  {
    ts[i] == TAnd && IsFactor(ts[..i], e.left) && IsAnd(ts[i + 1..], e.right)
  }

  // <factor>: <symbol> | <symbol> <relation> <symbol> | '!' <factor> | '(' <expr> ')'
  ghost predicate IsFactor(ts: seq<Token>, e: Expr)
    decreases |ts|, 0
  {
    || (e.Sym? && ts == [TSym(e.name)])
    || (e.Compare? && ts == [TSym(e.a), TRel(e.rel), TSym(e.b)])
    || (e.Not? && ts != [] && ts[0] == TNot && IsFactor(ts[1..], e.arg))
    || (|ts| >= 2 && ts[0] == TOpen && ts[|ts| - 1] == TClose && IsExpr(ts[1..|ts| - 1], e))
  }

  // ---------------------------------------------------------------- what is parsed is a sentence

  // What the parser read of ts
  function Read(ts: seq<Token>, rest: seq<Token>): seq<Token>
    requires |rest| <= |ts|
  {
    ts[..|ts| - |rest|]
  }

  // The rest is the end of what there was
  predicate Left(ts: seq<Token>, p: Parsed) {
    p.Ok? ==> |p.rest| < |ts| && p.rest == ts[|ts| - |p.rest|..]
  }

  lemma OrIs(ts: seq<Token>, i: nat, l: Expr, r: Expr)
    requires i < |ts| && ts[i] == TOr && IsAnd(ts[..i], l) && IsExpr(ts[i + 1..], r)
    ensures IsExpr(ts, Or(l, r))
  {
    hide IsAnd;
    assert OrAt(ts, i, Or(l, r));
  }

  lemma AndIs(ts: seq<Token>, i: nat, l: Expr, r: Expr)
    requires i < |ts| && ts[i] == TAnd && IsFactor(ts[..i], l) && IsAnd(ts[i + 1..], r)
    ensures IsAnd(ts, And(l, r))
  {
    hide IsFactor;
    assert AndAt(ts, i, And(l, r));
  }

  lemma SingleIs(ts: seq<Token>, e: Expr)
    ensures IsAnd(ts, e) ==> IsExpr(ts, e)
    ensures IsFactor(ts, e) ==> IsAnd(ts, e)
  {
    hide IsFactor;
  }

  lemma {:induction false} ExprSound(ts: seq<Token>)
    ensures Left(ts, ParseExpr(ts))
    ensures var p := ParseExpr(ts); p.Ok? ==> IsExpr(Read(ts, p.rest), p.e)
    decreases |ts|, 2
  {
    hide IsExpr, IsAnd, ParseAnd;
    AndSound(ts);
    var p := ParseAnd(ts);
    if p.Ok? { SingleIs(Read(ts, p.rest), p.e); }
    if p.Ok? && Starts(p.rest, TOr) {
      ExprSound(p.rest[1..]);
      var q := ParseExpr(p.rest[1..]);
      if q.Ok? {
        var i, all := |ts| - |p.rest|, Read(ts, q.rest);
        Cuts(ts, p.rest, q.rest, i);
        OrIs(all, i, p.e, q.e);
      }
    }
  }

  lemma Cuts(ts: seq<Token>, rest: seq<Token>, last: seq<Token>, i: nat)
    requires i < |ts| && rest == ts[i..] && |last| < |rest| && last == rest[1..][|rest| - 1 - |last|..]
    ensures var all := Read(ts, last);
      i < |all| && all[..i] == ts[..i] && all[i] == rest[0] && all[i + 1..] == Read(rest[1..], last) && last == ts[|ts| - |last|..]
  {
  }

  lemma {:induction false} AndSound(ts: seq<Token>)
    ensures Left(ts, ParseAnd(ts))
    ensures var p := ParseAnd(ts); p.Ok? ==> IsAnd(Read(ts, p.rest), p.e)
    decreases |ts|, 1
  {
    hide IsAnd, IsFactor, ParseFactor;
    FactorSound(ts);
    var p := ParseFactor(ts);
    if p.Ok? { SingleIs(Read(ts, p.rest), p.e); }
    if p.Ok? && Starts(p.rest, TAnd) {
      AndSound(p.rest[1..]);
      var q := ParseAnd(p.rest[1..]);
      if q.Ok? {
        var i, all := |ts| - |p.rest|, Read(ts, q.rest);
        Cuts(ts, p.rest, q.rest, i);
        AndIs(all, i, p.e, q.e);
      }
    }
  }

  // A token sequence of each shape a factor has
  lemma NotIs(ts: seq<Token>, e: Expr)
    requires ts != [] && ts[0] == TNot && IsFactor(ts[1..], e)
    ensures IsFactor(ts, Not(e))
  {
    hide IsExpr;
  }

  lemma GroupIs(ts: seq<Token>, e: Expr)
    requires |ts| >= 2 && ts[0] == TOpen && ts[|ts| - 1] == TClose && IsExpr(ts[1..|ts| - 1], e)
    ensures IsFactor(ts, e)
  {
    hide IsExpr;
  }

  lemma NamesSound(ts: seq<Token>)
    requires ts != [] && ts[0].TSym?
    ensures Left(ts, ParseFactor(ts))
    ensures var p := ParseFactor(ts); p.Ok? ==> IsFactor(Read(ts, p.rest), p.e)
  {
    hide IsExpr, ParseExpr;
  }

  lemma {:induction false} FactorSound(ts: seq<Token>)
    ensures Left(ts, ParseFactor(ts))
    ensures var p := ParseFactor(ts); p.Ok? ==> IsFactor(Read(ts, p.rest), p.e)
    decreases |ts|, 0
  {
    hide IsExpr, IsFactor, ParseExpr;
    if ts != [] {
      match ts[0]
      case TSym(_) => NamesSound(ts);
      case TNot =>
        FactorSound(ts[1..]);
        var p := ParseFactor(ts[1..]);
        if p.Ok? {
          assert Read(ts, p.rest)[1..] == Read(ts[1..], p.rest);
          NotIs(Read(ts, p.rest), p.e);
        }
      case TOpen =>
        ExprSound(ts[1..]);
        var p := ParseExpr(ts[1..]);
        if p.Ok? && Starts(p.rest, TClose) {
          var all := Read(ts, p.rest[1..]);
          assert all[1..|all| - 1] == Read(ts[1..], p.rest);
          GroupIs(all, p.e);
        }
      case _ =>
    }
  }

  // ---------------------------------------------------------------- a sentence is parsed

  predicate EndsFactor(k: seq<Token>) {
    k == [] || !k[0].TRel?
  }

  // What each production parses to, when its parts parse
  lemma OrParses(s: seq<Token>, x: Expr, k: seq<Token>, y: Expr, rest: seq<Token>)
    requires ParseAnd(s + ([TOr] + k)) == Ok(x, [TOr] + k) && ParseExpr(k) == Ok(y, rest)
    ensures ParseExpr(s + ([TOr] + k)) == Ok(Or(x, y), rest)
  {
    hide ParseAnd;
    assert ([TOr] + k)[1..] == k;
  }

  lemma AndParses(s: seq<Token>, x: Expr, k: seq<Token>, y: Expr, rest: seq<Token>)
    requires ParseFactor(s + ([TAnd] + k)) == Ok(x, [TAnd] + k) && ParseAnd(k) == Ok(y, rest)
    ensures ParseAnd(s + ([TAnd] + k)) == Ok(And(x, y), rest)
  {
    hide ParseFactor;
    assert ([TAnd] + k)[1..] == k;
  }

  lemma NotParses(k: seq<Token>, x: Expr, rest: seq<Token>)
    requires ParseFactor(k) == Ok(x, rest)
    ensures ParseFactor([TNot] + k) == Ok(Not(x), rest)
  {
    hide ParseExpr;
    assert ([TNot] + k)[1..] == k;
  }

  lemma GroupParses(k: seq<Token>, x: Expr, rest: seq<Token>)
    requires ParseExpr(k) == Ok(x, [TClose] + rest)
    ensures ParseFactor([TOpen] + k) == Ok(x, rest)
  {
    hide ParseExpr;
    assert ([TOpen] + k)[1..] == k;
    assert ([TClose] + rest)[1..] == rest;
  }

  lemma NamesParse(ts: seq<Token>, e: Expr, k: seq<Token>)
    requires EndsFactor(k)
    requires (e.Sym? && ts == [TSym(e.name)]) || (e.Compare? && ts == [TSym(e.a), TRel(e.rel), TSym(e.b)])
    ensures ParseFactor(ts + k) == Ok(e, k)
  {
    hide ParseExpr;
    assert (ts + k)[|ts|..] == k;
  }

  lemma {:induction false} ExprComplete(ts: seq<Token>, e: Expr, k: seq<Token>)
    requires IsExpr(ts, e) && EndsFactor(k) && !Starts(k, TAnd) && !Starts(k, TOr)
    ensures ParseExpr(ts + k) == Ok(e, k)
    decreases |ts|, 2
  {
    hide IsAnd, ParseAnd;
    if IsAnd(ts, e) {
      AndComplete(ts, e, k);
    } else {
      var i :| 0 <= i < |ts| && OrAt(ts, i, e);
      OrComplete(ts, i, e, k);
    }
  }

  lemma {:induction false} OrComplete(ts: seq<Token>, i: nat, e: Expr, k: seq<Token>)
    requires i < |ts| && e.Or? && OrAt(ts, i, e) && EndsFactor(k) && !Starts(k, TAnd) && !Starts(k, TOr)
    ensures ParseExpr(ts + k) == Ok(e, k)
    decreases |ts|, 1, 1
  {
    hide IsExpr, IsAnd, ParseExpr, ParseAnd;
    var more := ts[i + 1..] + k;
    AndComplete(ts[..i], e.left, [TOr] + more);
    ExprComplete(ts[i + 1..], e.right, k);
    OrParses(ts[..i], e.left, more, e.right, k);
    assert ts + k == ts[..i] + ([TOr] + more);
  }

  lemma {:induction false} AndComplete(ts: seq<Token>, e: Expr, k: seq<Token>)
    requires IsAnd(ts, e) && EndsFactor(k) && !Starts(k, TAnd)
    ensures ParseAnd(ts + k) == Ok(e, k)
    decreases |ts|, 1
  {
    hide IsFactor, ParseFactor;
    if IsFactor(ts, e) {
      FactorComplete(ts, e, k);
    } else {
      var i :| 0 <= i < |ts| && AndAt(ts, i, e);
      ConjunctionComplete(ts, i, e, k);
    }
  }

  lemma {:induction false} ConjunctionComplete(ts: seq<Token>, i: nat, e: Expr, k: seq<Token>)
    requires i < |ts| && e.And? && AndAt(ts, i, e) && EndsFactor(k) && !Starts(k, TAnd)
    ensures ParseAnd(ts + k) == Ok(e, k)
    decreases |ts|, 0, 1
  {
    hide IsFactor, IsAnd, ParseAnd, ParseFactor;
    var more := ts[i + 1..] + k;
    FactorComplete(ts[..i], e.left, [TAnd] + more);
    AndComplete(ts[i + 1..], e.right, k);
    AndParses(ts[..i], e.left, more, e.right, k);
    assert ts + k == ts[..i] + ([TAnd] + more);
  }

  lemma {:induction false} FactorComplete(ts: seq<Token>, e: Expr, k: seq<Token>)
    requires IsFactor(ts, e) && EndsFactor(k)
    ensures ParseFactor(ts + k) == Ok(e, k)
    decreases |ts|, 0
  {
    hide IsExpr, IsAnd, ParseExpr, ParseFactor;
    if (e.Sym? && ts == [TSym(e.name)]) || (e.Compare? && ts == [TSym(e.a), TRel(e.rel), TSym(e.b)]) {
      NamesParse(ts, e, k);
    } else if e.Not? && ts != [] && ts[0] == TNot && IsFactor(ts[1..], e.arg) {
      FactorComplete(ts[1..], e.arg, k);
      NotParses(ts[1..] + k, e.arg, k);
      assert ts + k == [TNot] + (ts[1..] + k);
    } else {
      var inner := ts[1..|ts| - 1];
      ExprComplete(inner, e, [TClose] + k);
      GroupParses(inner + ([TClose] + k), e, k);
      assert ts + k == [TOpen] + (inner + ([TClose] + k));
    }
  }

  /** The parser accepts a token sequence if and only if it is an expression of the grammar,
      and then gives the expression it is. */
  lemma ParsesGrammar(ts: seq<Token>, e: Expr)
    ensures ParseExpr(ts) == Ok(e, []) <==> IsExpr(ts, e)
  {
    hide IsExpr;
    ExprSound(ts);
    if ParseExpr(ts) == Ok(e, []) { assert Read(ts, []) == ts; }
    if IsExpr(ts, e) {
      ExprComplete(ts, e, []);
      assert ts + [] == ts;
    }
  }

  /** A token sequence has no two readings. */
  lemma OneReading(ts: seq<Token>, e: Expr, f: Expr)
    requires IsExpr(ts, e) && IsExpr(ts, f)
    ensures e == f
  {
    hide IsExpr;
    ParsesGrammar(ts, e);
    ParsesGrammar(ts, f);
  }

  /** What is printed is a sentence of the grammar, for the expression with its chains nested
      to the right. */
  lemma PrintsGrammar(e: Expr)
    ensures IsExpr(Print(e), Norm(e))
  {
    hide IsExpr, Print, Norm, ParseExpr;
    ExprBack(e, []);
    assert Print(e) + [] == Print(e);
    ParsesGrammar(Print(e), Norm(e));
  }

  // ---------------------------------------------------------------- parentheses

  function Opens(ts: seq<Token>): nat {
    if ts == [] then 0 else (if ts[0] == TOpen then 1 else 0) + Opens(ts[1..])
  }

  // Disjunctions in conjunctions, conjunctions in disjunctions, and what is negated other than symbols
  function Groups(e: Expr): nat {
    match e
    case And(l, r) => (if l.Or? then 1 else 0) + (if r.Or? then 1 else 0) + Groups(l) + Groups(r)
    case Or(l, r) => (if l.And? then 1 else 0) + (if r.And? then 1 else 0) + Groups(l) + Groups(r)
    case Not(a) => (if a.Sym? then 0 else 1) + Groups(a)
    case _ => 0
  }

  lemma {:induction false} OpensJoin(s: seq<Token>, t: seq<Token>)
    ensures Opens(s + t) == Opens(s) + Opens(t)
    decreases |s|
  {
    if s == [] {
      assert s + t == t;
    } else {
      OpensJoin(s[1..], t);
      assert (s + t)[1..] == s[1..] + t;
    }
  }

  /** Parentheses are printed for those alone. */
  lemma {:induction false} PrintOpens(e: Expr)
    ensures Opens(Print(e)) == Groups(e)
    decreases e, 0
  {
    hide Parenthesize;
    match e
    case And(l, r) => OpensBoth(l, l.Or?, TAnd, r, r.Or?);
    case Or(l, r) => OpensBoth(l, l.And?, TOr, r, r.And?);
    case Not(a) =>
      OpensAround(a, !a.Sym?);
      OpensJoin([TNot], Parenthesize(a, !a.Sym?));
    case Sym(_) =>
    case Compare(rel, a, b) =>
      OpensJoin([TSym(a)], [TRel(rel)]);
      OpensJoin([TSym(a), TRel(rel)], [TSym(b)]);
      assert [TSym(a)] + [TRel(rel)] == [TSym(a), TRel(rel)] && Print(e) == [TSym(a), TRel(rel)] + [TSym(b)];
  }

  lemma {:induction false} OpensAround(e: Expr, wrap: bool)
    ensures Opens(Parenthesize(e, wrap)) == Groups(e) + if wrap then 1 else 0
    decreases e, 1
  {
    hide Print;
    PrintOpens(e);
    OpensJoin([TOpen], Print(e));
    OpensJoin([TOpen] + Print(e), [TClose]);
  }

  lemma {:induction false} OpensBoth(l: Expr, wrapLeft: bool, t: Token, r: Expr, wrapRight: bool)
    requires t != TOpen
    ensures Opens(Parenthesize(l, wrapLeft) + [t] + Parenthesize(r, wrapRight)) ==
            Groups(l) + Groups(r) + (if wrapLeft then 1 else 0) + if wrapRight then 1 else 0
    decreases if l < r then r else l, 2
  {
    hide Parenthesize;
    OpensAround(l, wrapLeft);
    OpensAround(r, wrapRight);
    OpensJoin(Parenthesize(l, wrapLeft), [t]);
    OpensJoin(Parenthesize(l, wrapLeft) + [t], Parenthesize(r, wrapRight));
  }

  // ---------------------------------------------------------------- the value of what is parsed

  // The evaluator gives an expression its value under the symbols' and relations' values
  lemma {:induction false} ValIsEv(c: Config, u: User, e: Expr)
    requires Ranked(c)
    ensures Val(c, u, e) == Ev(e, n => TriVal(c, u, n), (op, a, b) => Val(c, u, Compare(op, a, b)))
    decreases e
  {
    hide Ranked, TriVal, Num, StrVal;
    match e
    case And(l, r) => ValIsEv(c, u, l); ValIsEv(c, u, r);
    case Or(l, r) => ValIsEv(c, u, l); ValIsEv(c, u, r);
    case Not(a) => ValIsEv(c, u, a);
    case _ =>
  }

  /** Printed and parsed again, an expression has the value it had, in every configuration and
      under every user's choices. */
  lemma ReparsedValue(c: Config, u: User, e: Expr)
    requires Ranked(c)
    ensures var p := ParseExpr(Print(e)); p.Ok? && p.rest == [] && Val(c, u, p.e) == Val(c, u, e)
  {
    hide Ranked, ParseExpr, Print, Norm, Val, Ev;
    RoundTrip(e);
    ValIsEv(c, u, e);
    ValIsEv(c, u, Norm(e));
  }
}
