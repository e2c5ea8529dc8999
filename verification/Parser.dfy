/** The grammar of expressions: what the tokens at the front of a stream stand for. */
module Expressions {
  import opened Tokens

  datatype Expr =
    | Register(symbol: string)
    | NumericLiteral(text: string)
    | HexLiteral(text: string)
    | StringLiteral(text: string)
    | Identifier(name: string)
    | Member(ident: string, member: Expr)
    | DeReference(inner: Expr)
    | Unary(oper: string, right: Expr)
    | Binary(left: Expr, right: Expr, opr: string)
    | Null

  /** An expression and the tokens behind it, or the exit of the program on a missing ')'. */
  datatype Outcome = Parsed(expr: Expr, rest: seq<Token>) | Exit

  predicate Additive(value: string)
  {
    value == "+" || value == "-"
  }

  predicate Multiplicative(value: string)
  {
    value == "/" || value == "*" || value == "%" || value == "<<" || value == ">>"
  }

  predicate Ended(ts: seq<Token>)
  {
    |ts| > 0 && ts[|ts| - 1] == Token(EoF, "EndOfFile")
  }

  predicate IsRegister(kind: TokenType)
  {
    kind == DataReg || kind == AddressReg || kind == ControlReg
  }

  predicate UnaryOperator(t: Token)
  {
    t.kind == Exclamation || t.value == "-"
  }

  /** No operator is the end of the tokens. */
  lemma OperatorGoesOn(ts: seq<Token>)
    requires Ended(ts) && (Additive(ts[0].value) || Multiplicative(ts[0].value) || UnaryOperator(ts[0]))
    ensures |ts| > 1 && Ended(ts[1..])
  {
  }

  function Primary(ts: seq<Token>): (r: Outcome)
    requires Ended(ts)
    ensures r.Parsed? ==> Ended(r.rest) && |r.rest| <= |ts|
    decreases |ts|, 0
  {
    var t := ts[0];
    if IsRegister(t.kind) then Parsed(Register(t.value), ts[1..])
    else if t.kind == Number then Parsed(NumericLiteral(t.value), ts[1..])
    else if t.kind == NumberHex then Parsed(HexLiteral(t.value), ts[1..])
    else if t.kind == Str then Parsed(StringLiteral(t.value), ts[1..])
    else if t.kind == TokenType.Identifier then
      if ts[1].kind == Dot && ts[2].kind == TokenType.Identifier then
        match Primary(ts[2..])
        case Parsed(member, rest) => Parsed(Member(t.value, member), rest)
        case Exit => Exit
      else Parsed(Expr.Identifier(t.value), ts[1..])
    else if t.kind == OpenParen then
      match Expression(ts[1..])
      case Parsed(value, rest) =>
        if rest[0].kind == CloseParen then Parsed(DeReference(value), rest[1..]) else Exit
      case Exit => Exit
    else Parsed(Null, ts)
  }

  function UnaryExpr(ts: seq<Token>): (r: Outcome)
    requires Ended(ts)
    ensures r.Parsed? ==> Ended(r.rest) && |r.rest| <= |ts|
    decreases |ts|, 1
  {
    if UnaryOperator(ts[0]) then
      match Primary(ts[1..])
      case Parsed(right, rest) => Parsed(Unary(ts[0].value, right), rest)
      case Exit => Exit
    else Primary(ts)
  }

  /** The operators of one level take operands from the left for as long as they come. */
  function ProductFrom(left: Expr, ts: seq<Token>): (r: Outcome)
    requires Ended(ts)
    ensures r.Parsed? ==> Ended(r.rest) && |r.rest| <= |ts|
    decreases |ts|, 1
  {
    if Multiplicative(ts[0].value) then
      match UnaryExpr(ts[1..])
      case Parsed(right, rest) => ProductFrom(Binary(left, right, ts[0].value), rest)
      case Exit => Exit
    else Parsed(left, ts)
  }

  function Product(ts: seq<Token>): (r: Outcome)
    requires Ended(ts)
    ensures r.Parsed? ==> Ended(r.rest) && |r.rest| <= |ts|
    decreases |ts|, 2
  {
    match UnaryExpr(ts)
    case Parsed(left, rest) => ProductFrom(left, rest)
    case Exit => Exit
  }

  function SumFrom(left: Expr, ts: seq<Token>): (r: Outcome)
    requires Ended(ts)
    ensures r.Parsed? ==> Ended(r.rest) && |r.rest| <= |ts|
    decreases |ts|, 1
  {
    if Additive(ts[0].value) then
      match Product(ts[1..])
      case Parsed(right, rest) => SumFrom(Binary(left, right, ts[0].value), rest)
      case Exit => Exit
    else Parsed(left, ts)
  }

  function Expression(ts: seq<Token>): (r: Outcome)
    requires Ended(ts)
    ensures r.Parsed? ==> Ended(r.rest) && |r.rest| <= |ts|
    decreases |ts|, 3
  {
    match Product(ts)
    case Parsed(left, rest) => SumFrom(left, rest)
    case Exit => Exit
  }
}

/** The expression parser: a cursor over the tokens. */
module ParserModel {
  import opened Tokens
  import opened Expressions

  class Parser {
    var tokens: seq<Token>
    var it: nat

    predicate Valid()
      reads this
    {
      it < |tokens| && Ended(tokens[it..])
    }

    ghost function Left(): seq<Token>
      requires it <= |tokens|
      reads this
    {
      tokens[it..]
    }

    constructor (source: seq<Token>)
      requires Ended(source)
      ensures Valid() && Left() == source
    {
      tokens, it := source, 0;
    }

    function At(): Token
      requires Valid()
      reads this
    {
      tokens[it]
    }

    method Eat() returns (t: Token)
      requires Valid() && |Left()| > 1
      modifies this`it
      ensures Valid() && t == old(At()) && Left() == old(Left())[1..] && |Left()| < |old(Left())|
    {
      t := tokens[it];
      it := it + 1;
      assert tokens[it..] == old(Left())[1..];
    }

    /** Both halves of what a parsing method promises: the value, and the tokens it leaves. */
    ghost predicate Leaves(r: Outcome, ok: bool, e: Expr)
      requires it <= |tokens|
      reads this
    {
      match r
      case Parsed(expr, rest) => ok && e == expr && Left() == rest
      case Exit => !ok
    }

    method ParseExpression() returns (ok: bool, e: Expr)
      requires Valid()
      modifies this`it
      ensures ok ==> Valid()
      ensures it <= |tokens| && Leaves(Expression(old(Left())), ok, e)
      decreases |Left()|, 4
    {
      ok, e := ParseAdditiveExpression();
    }

    method ParseAdditiveExpression() returns (ok: bool, left: Expr)
      requires Valid()
      modifies this`it
      ensures ok ==> Valid()
      ensures it <= |tokens| && Leaves(Expression(old(Left())), ok, left)
      decreases |Left()|, 3
    {
      hide Additive, Multiplicative, UnaryOperator, Ended;
      ok, left := ParseMultiplicativeExpression();
      if !ok { return; }
      while Additive(At().value)
        invariant Valid() && |Left()| <= |old(Left())|
        invariant Expression(old(Left())) == SumFrom(left, Left())
        decreases |Left()|
      {
        OperatorGoesOn(Left());
        var oper := Eat();
        var right;
        ok, right := ParseMultiplicativeExpression();
        if !ok { return; }
        left := Binary(left, right, oper.value);
      }
    }

    method ParseMultiplicativeExpression() returns (ok: bool, left: Expr)
      requires Valid()
      modifies this`it
      ensures ok ==> Valid()
      ensures it <= |tokens| && Leaves(Product(old(Left())), ok, left)
      decreases |Left()|, 2
    {
      hide Additive, Multiplicative, UnaryOperator, Ended;
      ok, left := ParseUnaryExpression();
      if !ok { return; }
      while Multiplicative(At().value)
        invariant Valid() && |Left()| <= |old(Left())|
        invariant Product(old(Left())) == ProductFrom(left, Left())
        decreases |Left()|
      {
        OperatorGoesOn(Left());
        var oper := Eat();
        var right;
        ok, right := ParseUnaryExpression();
        if !ok { return; }
        left := Binary(left, right, oper.value);
      }
    }

    method ParseUnaryExpression() returns (ok: bool, e: Expr)
      requires Valid()
      modifies this`it
      ensures ok ==> Valid()
      ensures it <= |tokens| && Leaves(UnaryExpr(old(Left())), ok, e)
      decreases |Left()|, 1
    {
      if UnaryOperator(At()) {
        OperatorGoesOn(Left());
        var oper := Eat();
        var right;
        ok, right := ParsePrimaryExpression();
        e := Unary(oper.value, right);
      } else {
        ok, e := ParsePrimaryExpression();
      }
    }

    method ParsePrimaryExpression() returns (ok: bool, e: Expr)
      requires Valid()
      modifies this`it
      ensures ok ==> Valid()
      ensures it <= |tokens| && Leaves(Primary(old(Left())), ok, e)
      decreases |Left()|, 0
    {
      var t := At();
      ok := true;
      if IsRegister(t.kind) {
        t := Eat();
        e := Register(t.value);
      } else if t.kind == Number {
        t := Eat();
        e := NumericLiteral(t.value);
      } else if t.kind == NumberHex {
        t := Eat();
        e := HexLiteral(t.value);
      } else if t.kind == Str {
        t := Eat();
        e := StringLiteral(t.value);
      } else if t.kind == TokenType.Identifier {
        t := Eat();
        if At().kind == Dot && tokens[it + 1].kind == TokenType.Identifier {
          var dot := Eat();
          var member;
          ok, member := ParsePrimaryExpression();
          e := Member(t.value, member);
        } else {
          e := Expr.Identifier(t.value);
        }
      } else if t.kind == OpenParen {
        t := Eat();
        var value;
        ok, value := ParseExpression();
        e := DeReference(value);
        if !ok { return; }
        if At().kind != CloseParen { return false, e; }
        t := Eat();
      } else {
        e := Null;
      }
    }
  }
}
