/** Which operators there are, and how tightly they bind, operator by operator. */
module Precedence {
  import opened Tokens
  import opened Expressions
  import opened Printing

  /** The tokens are read as one operand, whatever follows, unless that goes on with a member access. */
  ghost predicate Operand(ts: seq<Token>, e: Expr)
  {
    forall rest :: Ended(rest) && NoMember(rest) ==> Ended(ts + rest) && UnaryExpr(ts + rest) == Parsed(e, rest)
  }

  /** A primary is an operand unless its first token is a minus sign; with a sign in front each is. */
  lemma PrimaryIsOperand(e: Expr)
    requires IsPrimary(e)
    ensures Print(e)[0].value != "-" ==> Operand(Print(e), e)
    ensures Operand([Token(BinaryOperator, "-")] + Print(e), Unary("-", e))
  {
    hide Operand;
    if Print(e)[0].value != "-" { PrintIsOperand(e); }
    PrintIsOperand(Unary("-", e));
    MinusInFront(e);
  }

  lemma MinusInFront(e: Expr)
    ensures Print(Unary("-", e)) == [Token(BinaryOperator, "-")] + Print(e)
  {
  }

  lemma PrintIsOperand(e: Expr)
    requires IsUnary(e)
    ensures Operand(Print(e), e)
  {
    hide IsUnary, Print, UnaryExpr, Ended, NoMember;
    forall rest | Ended(rest) && NoMember(rest) ensures Ended(Print(e) + rest) && UnaryExpr(Print(e) + rest) == Parsed(e, rest) {
      UnaryPrints(e, rest);
    }
  }

  /** A token of one of these values that does not go on with a member access. */
  predicate Operator(t: Token, values: set<string>)
  {
    t.value in values && t.kind != Dot
  }

  /** Nothing that could go on with the expression: none of the seven operators, and no member access. */
  predicate EndsHere(rest: seq<Token>)
  {
    Ended(rest) && NoMember(rest) && rest[0].value !in {"+", "-", "/", "*", "%", "<<", ">>"}
  }

  lemma InFront(t: Token, s: seq<Token>)
    requires Ended(s) && t.kind != Dot
    ensures var ts := [t] + s; Ended(ts) && NoMember(ts) && ts[0] == t && ts[1..] == s
  {
  }

  lemma Take(x: seq<Token>, a: Expr, s: seq<Token>)
    requires Operand(x, a) && Ended(s) && NoMember(s)
    ensures Ended(x + s) && UnaryExpr(x + s) == Parsed(a, s) && Product(x + s) == ProductFrom(a, s)
  {
    hide UnaryExpr, ProductFrom;
  }

  lemma ProductGoesOn(left: Expr, p: Token, y: seq<Token>, b: Expr, s: seq<Token>)
    requires Operator(p, {"/", "*", "%", "<<", ">>"}) && Operand(y, b) && Ended(s) && NoMember(s)
    ensures var ts := [p] + (y + s);
            Ended(ts) && NoMember(ts) && ts[0] == p && ProductFrom(left, ts) == ProductFrom(Binary(left, b, p.value), s)
  {
    hide Operand, UnaryExpr, Product, NoMember, Ended;
    Take(y, b, s);
    InFront(p, y + s);
    ProductUnfolds(left, [p] + (y + s));
  }

  lemma ProductUnfolds(left: Expr, ts: seq<Token>)
    requires Ended(ts) && ts[0].value in {"/", "*", "%", "<<", ">>"} && |ts| > 1 && Ended(ts[1..]) && UnaryExpr(ts[1..]).Parsed?
    ensures var r := UnaryExpr(ts[1..]); ProductFrom(left, ts) == ProductFrom(Binary(left, r.expr, ts[0].value), r.rest)
  {
    hide UnaryExpr;
  }

  lemma ProductEnds(left: Expr, s: seq<Token>)
    requires Ended(s) && s[0].value !in {"/", "*", "%", "<<", ">>"}
    ensures ProductFrom(left, s) == Parsed(left, s)
  {
  }

  lemma SumGoesOn(left: Expr, o: Token, s: seq<Token>)
    requires Operator(o, {"+", "-"}) && Ended(s) && Product(s).Parsed?
    ensures var ts := [o] + s;
            && Ended(ts) && NoMember(ts) && ts[0] == o && ProductFrom(left, ts) == Parsed(left, ts)
            && SumFrom(left, ts) == SumFrom(Binary(left, Product(s).expr, o.value), Product(s).rest)
  {
    InFront(o, s);
  }

  lemma SumEnds(left: Expr, s: seq<Token>)
    requires Ended(s) && s[0].value !in {"+", "-"}
    ensures SumFrom(left, s) == Parsed(left, s)
  {
  }

  /** A token with any other value ends the expression. */
  lemma OtherTokensEnd(x: seq<Token>, a: Expr, rest: seq<Token>)
    requires Operand(x, a) && EndsHere(rest)
    ensures Ended(x + rest) && Expression(x + rest) == Parsed(a, rest)
  {
    hide Operand, Ended, NoMember, UnaryExpr, Product, ProductFrom, SumFrom;
    Take(x, a, rest);
    ProductEnds(a, rest);
    SumEnds(a, rest);
  }

  /** a + b * c is a + (b * c), for each sign and each operator of a product. */
  lemma ProductsBindTighter(x: seq<Token>, a: Expr, o: Token, y: seq<Token>, b: Expr, p: Token, z: seq<Token>, c: Expr, rest: seq<Token>)
    requires Operand(x, a) && Operand(y, b) && Operand(z, c) && EndsHere(rest)
    requires Operator(o, {"+", "-"}) && Operator(p, {"/", "*", "%", "<<", ">>"})
    ensures var ts := x + ([o] + (y + ([p] + (z + rest))));
            Ended(ts) && Expression(ts) == Parsed(Binary(a, Binary(b, c, p.value), o.value), rest)
  {
    hide Operand, Ended, NoMember, UnaryExpr, Product, ProductFrom, SumFrom;
    var s := [p] + (z + rest);
    ProductGoesOn(b, p, z, c, rest);
    ProductEnds(Binary(b, c, p.value), rest);
    Take(y, b, s);
    SumGoesOn(a, o, y + s);
    Take(x, a, [o] + (y + s));
    SumEnds(Binary(a, Binary(b, c, p.value), o.value), rest);
  }

  /** a * b + c is (a * b) + c. */
  lemma ProductsComeFirst(x: seq<Token>, a: Expr, p: Token, y: seq<Token>, b: Expr, o: Token, z: seq<Token>, c: Expr, rest: seq<Token>)
    requires Operand(x, a) && Operand(y, b) && Operand(z, c) && EndsHere(rest)
    requires Operator(o, {"+", "-"}) && Operator(p, {"/", "*", "%", "<<", ">>"})
    ensures var ts := x + ([p] + (y + ([o] + (z + rest))));
            Ended(ts) && Expression(ts) == Parsed(Binary(Binary(a, b, p.value), c, o.value), rest)
  {
    hide Operand, Ended, NoMember, UnaryExpr, Product, ProductFrom, SumFrom;
    var s := [o] + (z + rest);
    Take(z, c, rest);
    ProductEnds(c, rest);
    SumGoesOn(Binary(a, b, p.value), o, z + rest);
    ProductGoesOn(a, p, y, b, s);
    Take(x, a, [p] + (y + s));
    SumEnds(Binary(Binary(a, b, p.value), c, o.value), rest);
  }

  /** Two operators of one level group to the left. */
  lemma ProductsLeanLeft(x: seq<Token>, a: Expr, p: Token, y: seq<Token>, b: Expr, q: Token, z: seq<Token>, c: Expr, rest: seq<Token>)
    requires Operand(x, a) && Operand(y, b) && Operand(z, c) && EndsHere(rest)
    requires Operator(p, {"/", "*", "%", "<<", ">>"}) && Operator(q, {"/", "*", "%", "<<", ">>"})
    ensures var ts := x + ([p] + (y + ([q] + (z + rest))));
            Ended(ts) && Expression(ts) == Parsed(Binary(Binary(a, b, p.value), c, q.value), rest)
  {
    hide Operand, Ended, NoMember, UnaryExpr, Product, ProductFrom, SumFrom;
    var s := [q] + (z + rest);
    var left := Binary(a, b, p.value);
    ProductGoesOn(left, q, z, c, rest);
    ProductGoesOn(a, p, y, b, s);
    Take(x, a, [p] + (y + s));
    ProductEnds(Binary(left, c, q.value), rest);
    SumEnds(Binary(left, c, q.value), rest);
  }

  lemma SumsLeanLeft(x: seq<Token>, a: Expr, o: Token, y: seq<Token>, b: Expr, q: Token, z: seq<Token>, c: Expr, rest: seq<Token>)
    requires Operand(x, a) && Operand(y, b) && Operand(z, c) && EndsHere(rest)
    requires Operator(o, {"+", "-"}) && Operator(q, {"+", "-"})
    ensures var ts := x + ([o] + (y + ([q] + (z + rest))));
            Ended(ts) && Expression(ts) == Parsed(Binary(Binary(a, b, o.value), c, q.value), rest)
  {
    hide Operand, Ended, NoMember, UnaryExpr, Product, ProductFrom, SumFrom;
    var s := [q] + (z + rest);
    var left := Binary(a, b, o.value);
    Take(z, c, rest);
    ProductEnds(c, rest);
    SumGoesOn(left, q, z + rest);
    Take(y, b, s);
    ProductEnds(b, s);
    SumGoesOn(a, o, y + s);
    Take(x, a, [o] + (y + s));
    SumEnds(Binary(left, c, q.value), rest);
  }

  /** a0 + d3<<2 adds the shifted register. */
  lemma ShiftedIndex(rest: seq<Token>)
    requires EndsHere(rest)
    ensures var ts := [Token(AddressReg, "a0"), Token(BinaryOperator, "+"), Token(DataReg, "d3"), Token(BinaryOperator, "<<"),
                       Token(Number, "2")] + rest;
            Ended(ts) && Expression(ts) == Parsed(Binary(Register("a0"), Binary(Register("d3"), NumericLiteral("2"), "<<"), "+"), rest)
  {
    hide Operand, EndsHere, Ended, Expression;
    var a, b, c := Register("a0"), Register("d3"), NumericLiteral("2");
    PrimaryIsOperand(a);
    PrimaryIsOperand(b);
    PrimaryIsOperand(c);
    var o, p := Token(BinaryOperator, "+"), Token(BinaryOperator, "<<");
    ProductsBindTighter(Print(a), a, o, Print(b), b, p, Print(c), c, rest);
    assert [Token(AddressReg, "a0"), o, Token(DataReg, "d3"), p, Token(Number, "2")] + rest
        == Print(a) + ([o] + (Print(b) + ([p] + (Print(c) + rest))));
  }

  /** A token that begins no operand gives nothing and is left where it is. */
  lemma NoOperand(ts: seq<Token>)
    requires Ended(ts)
    requires ts[0].kind !in {DataReg, AddressReg, ControlReg, Number, NumberHex, Str, TokenType.Identifier, OpenParen}
    ensures Primary(ts) == Parsed(Null, ts)
  {
  }

  /** A dereference that is not closed ends the program. */
  lemma Unclosed(open: Token, x: seq<Token>, a: Expr, rest: seq<Token>)
    requires open.kind == OpenParen && Operand(x, a) && EndsHere(rest) && rest[0].kind != CloseParen
    ensures Ended([open] + (x + rest)) && Primary([open] + (x + rest)) == Exit
  {
    hide Operand, Expression;
    OtherTokensEnd(x, a, rest);
    InFront(open, x + rest);
  }
}
