/**
 Printing expressions and parsing them back, as token sequences.
 */
module KconfigText {
  import opened Basics
  import opened KconfigEval

  datatype Token = TSym(name: Name) | TRel(rel: Rel) | TAnd | TOr | TNot | TOpen | TClose

  // ---------------------------------------------------------------- printing

  /** expr_str. */
  function Print(e: Expr): seq<Token>
    decreases e, 0
  {
    match e
    case Sym(n) => [TSym(n)]
    case And(l, r) => Parenthesize(l, l.Or?) + [TAnd] + Parenthesize(r, r.Or?)
    case Or(l, r) => Parenthesize(l, l.And?) + [TOr] + Parenthesize(r, r.And?)
    case Not(a) => [TNot] + Parenthesize(a, !a.Sym?)
    case Compare(rel, a, b) => [TSym(a), TRel(rel), TSym(b)]
  }

  function Parenthesize(e: Expr, wrap: bool): seq<Token>
    decreases e, 1
  {
    if wrap then [TOpen] + Print(e) + [TClose] else Print(e)
  }

  // ---------------------------------------------------------------- parsing

  datatype Parsed = Ok(e: Expr, rest: seq<Token>) | Malformed

  predicate Starts(ts: seq<Token>, t: Token) {
    ts != [] && ts[0] == t
  }

  /** _parse_expr: and_expr ['||' expr]. */
  function ParseExpr(ts: seq<Token>): (p: Parsed)
    ensures p.Ok? ==> |p.rest| < |ts|
    decreases |ts|, 2
  {
    var p := ParseAnd(ts);
    if p.Ok? && Starts(p.rest, TOr) then
      var q := ParseExpr(p.rest[1..]);
      if q.Ok? then Ok(Or(p.e, q.e), q.rest) else Malformed
    else p
  }

  /** _parse_and_expr: factor ['&&' and_expr]. */
  function ParseAnd(ts: seq<Token>): (p: Parsed)
    ensures p.Ok? ==> |p.rest| < |ts|
    decreases |ts|, 1
  {
    var p := ParseFactor(ts);
    if p.Ok? && Starts(p.rest, TAnd) then
      var q := ParseAnd(p.rest[1..]);
      if q.Ok? then Ok(And(p.e, q.e), q.rest) else Malformed
    else p
  }

  /** _parse_factor: a symbol, a relation, a negated factor or a parenthesised expression. */
  function ParseFactor(ts: seq<Token>): (p: Parsed)
    ensures p.Ok? ==> |p.rest| < |ts|
    decreases |ts|, 0
  {
    if ts == [] then Malformed
    else match ts[0]
      case TSym(n) =>
        if |ts| > 1 && ts[1].TRel? then
          if |ts| > 2 && ts[2].TSym? then Ok(Compare(ts[1].rel, n, ts[2].name), ts[3..]) else Malformed
        else Ok(Sym(n), ts[1..])
      case TNot =>
        var p := ParseFactor(ts[1..]);
        if p.Ok? then Ok(Not(p.e), p.rest) else Malformed
      case TOpen =>
        var p := ParseExpr(ts[1..]);
        if p.Ok? && Starts(p.rest, TClose) then Ok(p.e, p.rest[1..]) else Malformed
      case _ => Malformed
  }

  // ---------------------------------------------------------------- what comes back

  // Append y to a right-nested chain
  function AppendAnd(x: Expr, y: Expr): Expr {
    if x.And? then And(x.left, AppendAnd(x.right, y)) else And(x, y)
  }

  function AppendOr(x: Expr, y: Expr): Expr {
    if x.Or? then Or(x.left, AppendOr(x.right, y)) else Or(x, y)
  }

  /** The expression with its && and || chains nested to the right. */
  function Norm(e: Expr): (n: Expr)
    ensures n.And? <==> e.And?
    ensures n.Or? <==> e.Or?
    ensures n.Sym? <==> e.Sym?
  {
    match e
    case And(l, r) => AppendAnd(Norm(l), Norm(r))
    case Or(l, r) => AppendOr(Norm(l), Norm(r))
    case Not(a) => Not(Norm(a))
    case _ => e
  }

  predicate RightNested(e: Expr) {
    match e
    case And(l, r) => !l.And? && RightNested(l) && RightNested(r)
    case Or(l, r) => !l.Or? && RightNested(l) && RightNested(r)
    case Not(a) => RightNested(a)
    case _ => true
  }

  lemma {:induction false} NormRightNested(e: Expr)
    requires RightNested(e)
    ensures Norm(e) == e
  {
    match e
    case And(l, r) => NormRightNested(l); NormRightNested(r);
    case Or(l, r) => NormRightNested(l); NormRightNested(r);
    case Not(a) => NormRightNested(a);
    case _ =>
  }

  // The value under a valuation of symbols and relations
  function Ev(e: Expr, tri: Name -> Tri, rel: (Rel, Name, Name) -> Tri): Tri {
    match e
    case Sym(n) => tri(n)
    case And(l, r) => Min(Ev(l, tri, rel), Ev(r, tri, rel))
    case Or(l, r) => Max(Ev(l, tri, rel), Ev(r, tri, rel))
    case Not(a) => 2 - Ev(a, tri, rel)
    case Compare(op, a, b) => rel(op, a, b)
  }

  lemma {:induction false} AppendAndEv(x: Expr, y: Expr, tri: Name -> Tri, rel: (Rel, Name, Name) -> Tri)
    ensures Ev(AppendAnd(x, y), tri, rel) == Min(Ev(x, tri, rel), Ev(y, tri, rel))
  {
    if x.And? { AppendAndEv(x.right, y, tri, rel); }
  }

  lemma {:induction false} AppendOrEv(x: Expr, y: Expr, tri: Name -> Tri, rel: (Rel, Name, Name) -> Tri)
    ensures Ev(AppendOr(x, y), tri, rel) == Max(Ev(x, tri, rel), Ev(y, tri, rel))
  {
    if x.Or? { AppendOrEv(x.right, y, tri, rel); }
  }

  lemma {:induction false} NormEv(e: Expr, tri: Name -> Tri, rel: (Rel, Name, Name) -> Tri)
    ensures Ev(Norm(e), tri, rel) == Ev(e, tri, rel)
  {
    match e
    case And(l, r) =>
      NormEv(l, tri, rel);
      NormEv(r, tri, rel);
      AppendAndEv(Norm(l), Norm(r), tri, rel);
    case Or(l, r) =>
      NormEv(l, tri, rel);
      NormEv(r, tri, rel);
      AppendOrEv(Norm(l), Norm(r), tri, rel);
    case Not(a) => NormEv(a, tri, rel);
    case _ =>
  }

  // ---------------------------------------------------------------- round trip

  // What may follow a printed factor
  predicate Stops(k: seq<Token>) {
    k == [] || k[0] == TAnd || k[0] == TOr || k[0] == TClose
  }

  predicate EndsAnd(k: seq<Token>) { Stops(k) && !Starts(k, TAnd) }

  predicate EndsOr(k: seq<Token>) { EndsAnd(k) && !Starts(k, TOr) }

  lemma {:induction false} WrappedFactor(e: Expr, k: seq<Token>)
    requires Stops(k)
    ensures ParseFactor(Parenthesize(e, true) + k) == Ok(Norm(e), k)
    decreases e, 3
  {
    var ts := Parenthesize(e, true) + k;
    assert ts[1..] == Print(e) + ([TClose] + k);
    ExprBack(e, [TClose] + k);
    assert ([TClose] + k)[1..] == k;
  }

  lemma {:induction false} FactorBack(e: Expr, k: seq<Token>)
    requires Stops(k) && !e.And? && !e.Or?
    ensures ParseFactor(Print(e) + k) == Ok(Norm(e), k)
    decreases e, 0
  {
    var ts := Print(e) + k;
    match e
    case Sym(n) => assert ts[1..] == k;
    case Compare(rel, a, b) => assert ts[3..] == k;
    case Not(a) =>
      assert ts[1..] == Parenthesize(a, !a.Sym?) + k;
      if a.Sym? {
        FactorBack(a, k);
      } else {
        WrappedFactor(a, k);
      }
  }

  // A factor inside an && chain
  lemma {:induction false} AndOperand(e: Expr, k: seq<Token>)
    requires Stops(k) && !e.And?
    ensures ParseFactor(Parenthesize(e, e.Or?) + k) == Ok(Norm(e), k)
    decreases e, 4
  {
    if e.Or? { WrappedFactor(e, k); } else { FactorBack(e, k); }
  }

  /** A printed && chain followed by something else. */
  lemma {:induction false} AndBack(e: Expr, k: seq<Token>)
    requires EndsAnd(k)
    ensures ParseAnd(Parenthesize(e, e.Or?) + k) == Ok(Norm(e), k)
    decreases e, 5
  {
    if e.And? {
      var l, r := e.left, e.right;
      AndBack(r, k);
      AndMore(l, Parenthesize(r, r.Or?) + k);
      AndTokens(e, k);
    } else {
      AndOperand(e, k);
    }
  }

  /** A printed && chain followed by && and more. */
  lemma {:induction false} AndMore(e: Expr, k: seq<Token>)
    requires ParseAnd(k).Ok?
    ensures ParseAnd(Parenthesize(e, e.Or?) + ([TAnd] + k)) ==
            Ok(AppendAnd(Norm(e), ParseAnd(k).e), ParseAnd(k).rest)
    decreases e, 5
  {
    if e.And? {
      var l, r := e.left, e.right;
      AndMore(r, k);
      AndMore(l, Parenthesize(r, r.Or?) + ([TAnd] + k));
      AndMoreStep(e, k);
    } else {
      AndOperand(e, [TAnd] + k);
      AndFollows(Parenthesize(e, e.Or?), Norm(e), k);
    }
  }

  lemma AndTokens(e: Expr, k: seq<Token>)
    requires e.And?
    ensures Parenthesize(e, e.Or?) + k ==
            Parenthesize(e.left, e.left.Or?) + ([TAnd] + (Parenthesize(e.right, e.right.Or?) + k))
  {
  }

  lemma AndMoreStep(e: Expr, k: seq<Token>)
    requires e.And? && ParseAnd(k).Ok?
    requires ParseAnd(Parenthesize(e.left, e.left.Or?) + ([TAnd] + (Parenthesize(e.right, e.right.Or?) + ([TAnd] + k)))) ==
             Ok(AppendAnd(Norm(e.left), AppendAnd(Norm(e.right), ParseAnd(k).e)), ParseAnd(k).rest)
    ensures ParseAnd(Parenthesize(e, e.Or?) + ([TAnd] + k)) ==
            Ok(AppendAnd(Norm(e), ParseAnd(k).e), ParseAnd(k).rest)
  {
    hide ParseAnd, Parenthesize;
    AndTokens(e, [TAnd] + k);
    AppendAndAssoc(Norm(e.left), Norm(e.right), ParseAnd(k).e);
  }

  // A factor, && and a chain
  lemma AndFollows(s: seq<Token>, x: Expr, k: seq<Token>)
    requires ParseFactor(s + ([TAnd] + k)) == Ok(x, [TAnd] + k) && ParseAnd(k).Ok? && !x.And?
    ensures ParseAnd(s + ([TAnd] + k)) == Ok(AppendAnd(x, ParseAnd(k).e), ParseAnd(k).rest)
  {
    hide ParseFactor;
    assert ([TAnd] + k)[1..] == k;
  }

  lemma {:induction false} AppendAndAssoc(x: Expr, y: Expr, z: Expr)
    ensures AppendAnd(AppendAnd(x, y), z) == AppendAnd(x, AppendAnd(y, z))
  {
    if x.And? { AppendAndAssoc(x.right, y, z); }
  }

  lemma {:induction false} AppendOrAssoc(x: Expr, y: Expr, z: Expr)
    ensures AppendOr(AppendOr(x, y), z) == AppendOr(x, AppendOr(y, z))
  {
    if x.Or? { AppendOrAssoc(x.right, y, z); }
  }

  // An operand of an || chain
  lemma {:induction false} OrOperand(e: Expr, k: seq<Token>)
    requires EndsAnd(k) && !e.Or?
    ensures ParseAnd(Parenthesize(e, e.And?) + k) == Ok(Norm(e), k)
    decreases e, 6
  {
    if e.And? {
      WrappedFactor(e, k);
    } else {
      AndBack(e, k);
    }
  }

  /** A printed || chain followed by || and more. */
  lemma {:induction false} OrMore(e: Expr, k: seq<Token>)
    requires ParseExpr(k).Ok?
    ensures ParseExpr(Parenthesize(e, e.And?) + ([TOr] + k)) ==
            Ok(AppendOr(Norm(e), ParseExpr(k).e), ParseExpr(k).rest)
    decreases e, 7
  {
    if e.Or? {
      var l, r := e.left, e.right;
      OrMore(r, k);
      OrMore(l, Parenthesize(r, r.And?) + ([TOr] + k));
      assert Print(e) + ([TOr] + k) ==
             Parenthesize(l, l.And?) + ([TOr] + (Parenthesize(r, r.And?) + ([TOr] + k)));
      AppendOrAssoc(Norm(l), Norm(r), ParseExpr(k).e);
    } else {
      OrOperand(e, [TOr] + k);
      assert ([TOr] + k)[1..] == k;
    }
  }

  // An || chain with its operands wrapped as inside another ||
  lemma {:induction false} OrBack(e: Expr, k: seq<Token>)
    requires EndsOr(k)
    ensures ParseExpr(Parenthesize(e, e.And?) + k) == Ok(Norm(e), k)
    decreases e, 7
  {
    if e.Or? {
      var l, r := e.left, e.right;
      OrBack(r, k);
      OrMore(l, Parenthesize(r, r.And?) + k);
      assert Print(e) + k == Parenthesize(l, l.And?) + ([TOr] + (Parenthesize(r, r.And?) + k));
    } else {
      OrOperand(e, k);
    }
  }

  /** Parsing a printed expression gives it back with its chains nested to the right. */
  lemma {:induction false} ExprBack(e: Expr, k: seq<Token>)
    requires EndsOr(k)
    ensures ParseExpr(Print(e) + k) == Ok(Norm(e), k)
    decreases e, 2
  {
    if e.And? {
      AndBackInner(e, k);
    } else if e.Or? {
      var l, r := e.left, e.right;
      OrBack(r, k);
      OrMore(l, Parenthesize(r, r.And?) + k);
      assert Print(e) + k == Parenthesize(l, l.And?) + ([TOr] + (Parenthesize(r, r.And?) + k));
    } else {
      FactorBack(e, k);
    }
  }

  lemma {:induction false} AndBackInner(e: Expr, k: seq<Token>)
    requires EndsAnd(k) && e.And?
    ensures ParseAnd(Print(e) + k) == Ok(Norm(e), k)
    decreases e, 1
  {
    var l, r := e.left, e.right;
    AndBack(r, k);
    AndMore(l, Parenthesize(r, r.Or?) + k);
    assert Print(e) + k == Parenthesize(l, l.Or?) + ([TAnd] + (Parenthesize(r, r.Or?) + k));
  }

  /** Round trip: the printed expression parses completely, to an expression of the same
      value under every valuation, and to the very same tree when its chains are nested
      to the right. */
  lemma RoundTrip(e: Expr)
    ensures ParseExpr(Print(e)) == Ok(Norm(e), [])
    ensures forall tri, rel :: Ev(Norm(e), tri, rel) == Ev(e, tri, rel)
    ensures Norm(e) == e <==> RightNested(e)
  {
    ExprBack(e, []);
    assert Print(e) + [] == Print(e);
    forall tri, rel
      ensures Ev(Norm(e), tri, rel) == Ev(e, tri, rel)
    {
      NormEv(e, tri, rel);
    }
    if RightNested(e) { NormRightNested(e); } else { NormNests(e); }
  }

  // Normalising always nests to the right
  lemma {:induction false} NormNests(e: Expr)
    ensures RightNested(Norm(e))
  {
    match e
    case And(l, r) =>
      NormNests(l);
      NormNests(r);
      AppendAndNests(Norm(l), Norm(r));
    case Or(l, r) =>
      NormNests(l);
      NormNests(r);
      AppendOrNests(Norm(l), Norm(r));
    case Not(a) => NormNests(a);
    case _ =>
  }

  lemma {:induction false} AppendAndNests(x: Expr, y: Expr)
    requires RightNested(x) && RightNested(y)
    ensures RightNested(AppendAnd(x, y))
  {
    if x.And? { AppendAndNests(x.right, y); }
  }

  lemma {:induction false} AppendOrNests(x: Expr, y: Expr)
    requires RightNested(x) && RightNested(y)
    ensures RightNested(AppendOr(x, y))
  {
    if x.Or? { AppendOrNests(x.right, y); }
  }

  // ---------------------------------------------------------------- the parser's own form

  /** The parser as it runs: one token list and an index into it. */
  class Parser {
    const tokens: seq<Token>
    var i: nat

    constructor (tokens: seq<Token>)
      ensures this.tokens == tokens && i == 0
    {
      this.tokens, i := tokens, 0;
    }

    // Left of the index is consumed; the result is what the grammar says of the rest
    ghost predicate Matches(start: nat, r: Option<Expr>, p: Parsed)
      reads this
    {
      && start <= |tokens|
      && (r.Some? <==> p.Ok?)
      && (r.Some? ==> start < i <= |tokens| && r.value == p.e && tokens[i..] == p.rest)
    }

    method CheckToken(t: Token) returns (b: bool)
      requires i <= |tokens|
      modifies this
      ensures b == Starts(tokens[old(i)..], t)
      ensures i == if b then old(i) + 1 else old(i)
      ensures i <= |tokens|
    {
      b := i < |tokens| && tokens[i] == t;
      if b { i := i + 1; }
    }

    method Expression() returns (r: Option<Expr>)
      requires i <= |tokens|
      modifies this
      ensures Matches(old(i), r, ParseExpr(tokens[old(i)..]))
      decreases |tokens| - i, 2
    {
      hide ParseAnd, ParseFactor;
      r := AndExpression();
      if r.Some? {
        var more := CheckToken(TOr);
        if more {
          var q := Expression();
          r := if q.Some? then Some(Or(r.value, q.value)) else None;
        }
      }
    }

    method AndExpression() returns (r: Option<Expr>)
      requires i <= |tokens|
      modifies this
      ensures Matches(old(i), r, ParseAnd(tokens[old(i)..]))
      decreases |tokens| - i, 1
    {
      hide ParseExpr, ParseFactor;
      r := Factor();
      if r.Some? {
        var more := CheckToken(TAnd);
        if more {
          var q := AndExpression();
          r := if q.Some? then Some(And(r.value, q.value)) else None;
        }
      }
    }

    method Factor() returns (r: Option<Expr>)
      requires i <= |tokens|
      modifies this
      ensures Matches(old(i), r, ParseFactor(tokens[old(i)..]))
      decreases |tokens| - i, 0
    {
      hide ParseExpr, ParseAnd;
      if i == |tokens| { return None; }
      ghost var ts := tokens[i..];
      var token := tokens[i];
      i := i + 1;
      assert ts[0] == token && ts[1..] == tokens[i..];
      match token
      case TSym(n) =>
        if i < |tokens| && tokens[i].TRel? {
          var rel := tokens[i].rel;
          i := i + 1;
          if i == |tokens| || !tokens[i].TSym? { return None; }
          r := Some(Compare(rel, n, tokens[i].name));
          i := i + 1;
          assert ts[3..] == tokens[i..];
        } else {
          r := Some(Sym(n));
        }
      case TNot =>
        var p := Factor();
        r := if p.Some? then Some(Not(p.value)) else None;
      case TOpen =>
        r := Expression();
        if r.Some? {
          var closed := CheckToken(TClose);
          if !closed { r := None; }
        }
      case _ => r := None;
    }
  }
}
