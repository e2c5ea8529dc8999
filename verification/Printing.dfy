/** Printing expressions, and what the parser makes of the print. */
module Printing {
  import opened Tokens
  import opened Expressions

  function RegisterKind(symbol: string): TokenType
  {
    if symbol == "" then ControlReg
    else if symbol[0] == 'd' then DataReg
    else if symbol[0] == 'a' then AddressReg
    else ControlReg
  }

  function Print(e: Expr): seq<Token>
  {
    match e
    case Register(symbol) => [Token(RegisterKind(symbol), symbol)]
    case NumericLiteral(text) => [Token(Number, text)]
    case HexLiteral(text) => [Token(NumberHex, text)]
    case StringLiteral(text) => [Token(Str, text)]
    case Identifier(name) => [Token(TokenType.Identifier, name)]
    case Member(ident, member) => [Token(TokenType.Identifier, ident), Token(Dot, ".")] + Print(member)
    case DeReference(inner) => [Token(OpenParen, "(")] + Print(inner) + [Token(CloseParen, ")")]
    case Unary(oper, right) => [Token(if oper == "!" then Exclamation else BinaryOperator, oper)] + Print(right)
    case Binary(left, right, opr) => Print(left) + [Token(BinaryOperator, opr)] + Print(right)
    case Null => []
  }

  predicate IsPrimary(e: Expr)
    decreases e, 0
  {
    match e
    case Member(_, member) => (member.Identifier? || member.Member?) && IsPrimary(member)
    case DeReference(inner) => IsSum(inner)
    case Unary(_, _) => false
    case Binary(_, _, _) => false
    case Null => false
    case _ => true
  }

  /** A minus sign in front, be it that of a string, makes an operand a unary expression. */
  predicate IsUnary(e: Expr)
    decreases e, 1
  {
    if e.Unary? then (e.oper == "!" || e.oper == "-") && IsPrimary(e.right)
    else IsPrimary(e) && Print(e)[0].value != "-"
  }

  predicate IsProduct(e: Expr)
    decreases e, 2
  {
    if e.Binary? then Multiplicative(e.opr) && IsProduct(e.left) && IsUnary(e.right) else IsUnary(e)
  }

  /** The trees that respect the precedence of the operators, leaning left at both levels. */
  predicate IsSum(e: Expr)
    decreases e, 3
  {
    if e.Binary? && Additive(e.opr) then IsSum(e.left) && IsProduct(e.right) else IsProduct(e)
  }

  /** No member access follows. */
  predicate NoMember(rest: seq<Token>)
    requires Ended(rest)
  {
    rest[0].kind == Dot ==> rest[1].kind != TokenType.Identifier
  }

  /** Nothing follows that would extend an expression. */
  predicate Stops(rest: seq<Token>)
  {
    Ended(rest) && NoMember(rest) && !Additive(rest[0].value) && !Multiplicative(rest[0].value)
  }

  lemma EndedJoin(a: seq<Token>, rest: seq<Token>)
    requires Ended(rest)
    ensures Ended(a + rest)
  {
  }

  lemma LeafPrints(e: Expr, rest: seq<Token>)
    requires IsPrimary(e) && !e.Member? && !e.DeReference? && Ended(rest) && NoMember(rest)
    ensures Ended(Print(e) + rest) && Primary(Print(e) + rest) == Parsed(e, rest)
  {
    EndedJoin(Print(e), rest);
    assert (Print(e) + rest)[1..] == rest;
  }

  lemma NamePrints(e: Expr)
    requires e.Identifier? || e.Member?
    ensures |Print(e)| > 0 && Print(e)[0].kind == TokenType.Identifier
  {
  }

  lemma PrimaryOfMember(ts: seq<Token>, ident: string, member: Expr, rest: seq<Token>)
    requires Ended(ts) && |ts| > 2 && Ended(ts[2..]) && ts[0] == Token(TokenType.Identifier, ident)
    requires ts[1].kind == Dot && ts[2].kind == TokenType.Identifier && Primary(ts[2..]) == Parsed(member, rest)
    ensures Primary(ts) == Parsed(Member(ident, member), rest)
  {
    hide Ended;
  }

  lemma MemberPrints(e: Expr, rest: seq<Token>)
    requires e.Member? && IsPrimary(e) && Ended(rest)
    requires Ended(Print(e.member) + rest) && Primary(Print(e.member) + rest) == Parsed(e.member, rest)
    ensures Ended(Print(e) + rest) && Primary(Print(e) + rest) == Parsed(e, rest)
  {
    hide Primary, Ended;
    var ts := Print(e) + rest;
    EndedJoin(Print(e), rest);
    assert ts[2..] == Print(e.member) + rest;
    NamePrints(e.member);
    assert ts[2] == Print(e.member)[0];
    PrimaryOfMember(ts, e.ident, e.member, rest);
  }

  lemma ParenPrints(inner: Expr, rest: seq<Token>)
    requires Ended(rest)
    requires var close := [Token(CloseParen, ")")] + rest;
             Ended(Print(inner) + close) && Expression(Print(inner) + close) == Parsed(inner, close)
    ensures Ended(Print(DeReference(inner)) + rest)
    ensures Primary(Print(DeReference(inner)) + rest) == Parsed(DeReference(inner), rest)
  {
    var ts := Print(DeReference(inner)) + rest;
    EndedJoin(Print(DeReference(inner)), rest);
    var close := [Token(CloseParen, ")")] + rest;
    assert ts[1..] == Print(inner) + close && close[1..] == rest;
    assert ts[0] == Token(OpenParen, "(");
  }

  lemma {:induction false} PrimaryPrints(e: Expr, rest: seq<Token>)
    requires IsPrimary(e) && Ended(rest) && NoMember(rest)
    ensures Ended(Print(e) + rest) && Primary(Print(e) + rest) == Parsed(e, rest)
    decreases e, 0
  {
    if e.Member? {
      PrimaryPrints(e.member, rest);
      MemberPrints(e, rest);
    } else if e.DeReference? {
      var close := [Token(CloseParen, ")")] + rest;
      SumPrints(e.inner, close);
      ParenPrints(e.inner, rest);
    } else {
      LeafPrints(e, rest);
    }
  }

  lemma {:induction false} UnaryPrints(e: Expr, rest: seq<Token>)
    requires IsUnary(e) && Ended(rest) && NoMember(rest)
    ensures Ended(Print(e) + rest) && UnaryExpr(Print(e) + rest) == Parsed(e, rest)
    decreases e, 1
  {
    EndedJoin(Print(e), rest);
    if e.Unary? {
      assert (Print(e) + rest)[1..] == Print(e.right) + rest;
      PrimaryPrints(e.right, rest);
    } else {
      PrimaryPrints(e, rest);
      assert (Print(e) + rest)[0] == Print(e)[0];
    }
  }

  /** A product in print is taken up whole, and the parser goes on from it. */
  lemma {:induction false} ProductPrints(e: Expr, rest: seq<Token>)
    requires IsProduct(e) && Ended(rest) && NoMember(rest)
    ensures Ended(Print(e) + rest) && Product(Print(e) + rest) == ProductFrom(e, rest)
    decreases e, 2
  {
    EndedJoin(Print(e), rest);
    if e.Binary? {
      var more := [Token(BinaryOperator, e.opr)] + (Print(e.right) + rest);
      assert Print(e) + rest == Print(e.left) + more;
      EndedJoin([Token(BinaryOperator, e.opr)] + Print(e.right), rest);
      ProductPrints(e.left, more);
      UnaryPrints(e.right, rest);
      assert more[1..] == Print(e.right) + rest;
    } else {
      UnaryPrints(e, rest);
    }
  }

  lemma {:induction false} SumPrints(e: Expr, rest: seq<Token>)
    requires IsSum(e) && Ended(rest) && NoMember(rest) && !Multiplicative(rest[0].value)
    ensures Ended(Print(e) + rest) && Expression(Print(e) + rest) == SumFrom(e, rest)
    decreases e, 3
  {
    EndedJoin(Print(e), rest);
    if e.Binary? && Additive(e.opr) {
      var more := [Token(BinaryOperator, e.opr)] + (Print(e.right) + rest);
      assert Print(e) + rest == Print(e.left) + more;
      EndedJoin([Token(BinaryOperator, e.opr)] + Print(e.right), rest);
      SumPrints(e.left, more);
      ProductPrints(e.right, rest);
      assert more[1..] == Print(e.right) + rest;
    } else {
      ProductPrints(e, rest);
    }
  }

  /** Parsing undoes printing, and stops right behind the expression. */
  lemma ParseAfterPrint(e: Expr, rest: seq<Token>)
    requires IsSum(e) && Stops(rest)
    ensures Ended(Print(e) + rest) && Expression(Print(e) + rest) == Parsed(e, rest)
  {
    SumPrints(e, rest);
  }

  /** Two expressions never print alike. */
  lemma PrintInjective(a: Expr, b: Expr)
    requires IsSum(a) && IsSum(b) && Print(a) == Print(b)
    ensures a == b
  {
    var end := [Token(EoF, "EndOfFile")];
    ParseAfterPrint(a, end);
    ParseAfterPrint(b, end);
  }

  /** A primary expression is read back as an operand exactly when it does not begin with a minus sign. */
  lemma MinusMisread(e: Expr, rest: seq<Token>)
    requires IsPrimary(e) && Ended(rest) && NoMember(rest)
    ensures Ended(Print(e) + rest)
    ensures UnaryExpr(Print(e) + rest) == Parsed(e, rest) <==> Print(e)[0].value != "-"
  {
    EndedJoin(Print(e), rest);
    PrimaryPrints(e, rest);
    assert (Print(e) + rest)[0] == Print(e)[0];
  }

  /** The characters of the tokens, as the lexer spells brackets, dots and exclamation marks. */
  predicate Lexed(ts: seq<Token>)
  {
    forall t :: t in ts ==>
      && (t.kind == OpenParen ==> t.value == "(") && (t.kind == CloseParen ==> t.value == ")")
      && (t.kind == Dot ==> t.value == ".") && (t.kind == Exclamation ==> t.value == "!")
  }

  function Spelling(ts: seq<Token>): seq<string>
  {
    seq(|ts|, i requires 0 <= i < |ts| => ts[i].value)
  }

  predicate Complete(e: Expr)
  {
    match e
    case Member(_, member) => Complete(member)
    case DeReference(inner) => Complete(inner)
    case Unary(_, right) => Complete(right)
    case Binary(left, right, _) => Complete(left) && Complete(right)
    case Null => false
    case _ => true
  }

  /** The tokens are spelled like the printed ones followed by the rest. */
  ghost predicate Spells(ts: seq<Token>, printed: seq<Token>, rest: seq<Token>)
  {
    Spelling(ts) == Spelling(printed) + Spelling(rest) && Lexed(rest)
  }

  lemma SpellsToken(ts: seq<Token>, t: Token)
    requires Lexed(ts) && |ts| > 0 && t.value == ts[0].value
    ensures Spells(ts, [t], ts[1..])
  {
  }

  lemma SpellsThen(ts: seq<Token>, first: seq<Token>, mid: seq<Token>, second: seq<Token>, rest: seq<Token>)
    requires Spells(ts, first, mid) && Spells(mid, second, rest)
    ensures Spells(ts, first + second, rest)
  {
    assert Spelling(first + second) == Spelling(first) + Spelling(second);
  }

  lemma LexedRest(ts: seq<Token>)
    requires Lexed(ts) && |ts| > 0
    ensures Lexed(ts[1..]) && (ts[0].kind == OpenParen ==> ts[0].value == "(")
    ensures (ts[0].kind == CloseParen ==> ts[0].value == ")") && (ts[0].kind == Dot ==> ts[0].value == ".")
    ensures UnaryOperator(ts[0]) ==> ts[0].value == "!" || ts[0].value == "-"
  {
    assert ts[0] in ts;
  }

  lemma MemberSpells(ts: seq<Token>, member: Expr, rest: seq<Token>)
    requires Lexed(ts) && |ts| > 2 && ts[1].kind == Dot && Spells(ts[2..], Print(member), rest)
    ensures Spells(ts, Print(Member(ts[0].value, member)), rest)
  {
    hide Spells, Lexed;
    var t, dot := Token(TokenType.Identifier, ts[0].value), Token(Dot, ".");
    LexedRest(ts);
    LexedRest(ts[1..]);
    SpellsToken(ts, t);
    SpellsToken(ts[1..], dot);
    assert ts[1..][1..] == ts[2..];
    SpellsThen(ts, [t], ts[1..], [dot], ts[2..]);
    SpellsThen(ts, [t] + [dot], ts[2..], Print(member), rest);
    assert [t] + [dot] == [t, dot];
  }

  lemma ParenSpells(ts: seq<Token>, inner: Expr, mid: seq<Token>)
    requires Lexed(ts) && |ts| > 1 && ts[0].kind == OpenParen && Spells(ts[1..], Print(inner), mid)
    requires |mid| > 0 && mid[0].kind == CloseParen && Lexed(mid)
    ensures Spells(ts, Print(DeReference(inner)), mid[1..])
  {
    hide Spells, Lexed;
    var open, close := Token(OpenParen, "("), Token(CloseParen, ")");
    LexedRest(ts);
    LexedRest(mid);
    SpellsToken(ts, open);
    SpellsToken(mid, close);
    SpellsThen(ts, [open], ts[1..], Print(inner), mid);
    SpellsThen(ts, [open] + Print(inner), mid, [close], mid[1..]);
  }

  lemma LeafSpells(ts: seq<Token>)
    requires Ended(ts) && Lexed(ts) && Primary(ts).Parsed? && Complete(Primary(ts).expr)
    requires !MemberAhead(ts) && ts[0].kind != OpenParen
    ensures var r := Primary(ts); IsPrimary(r.expr) && Spells(ts, Print(r.expr), r.rest) && Lexed(r.rest)
  {
    hide Lexed, Spells, Primary, Print;
    LexedRest(ts);
    LeafShape(ts);
    var e := Primary(ts).expr;
    SpellsToken(ts, Print(e)[0]);
    assert Print(e) == [Print(e)[0]];
  }

  lemma LeafShape(ts: seq<Token>)
    requires Ended(ts) && Primary(ts).Parsed? && Complete(Primary(ts).expr) && !MemberAhead(ts) && ts[0].kind != OpenParen
    ensures var r := Primary(ts);
            r.rest == ts[1..] && IsPrimary(r.expr) && |Print(r.expr)| == 1 && Print(r.expr)[0].value == ts[0].value
  {
    hide Expression;
  }

  predicate MemberAhead(ts: seq<Token>)
  {
    |ts| > 2 && ts[0].kind == TokenType.Identifier && ts[1].kind == Dot && ts[2].kind == TokenType.Identifier
  }

  lemma PrimaryOfParen(ts: seq<Token>)
    requires Ended(ts) && ts[0].kind == OpenParen && Primary(ts).Parsed?
    ensures |ts| > 1 && Ended(ts[1..]) && Expression(ts[1..]).Parsed? && Expression(ts[1..]).rest[0].kind == CloseParen
    ensures Primary(ts) == Parsed(DeReference(Expression(ts[1..]).expr), Expression(ts[1..]).rest[1..])
  {
    hide Expression;
  }

  lemma PrimaryOfMemberAhead(ts: seq<Token>)
    requires Ended(ts) && MemberAhead(ts) && Primary(ts).Parsed?
    ensures Ended(ts[2..]) && Primary(ts[2..]).Parsed? && (Primary(ts[2..]).expr.Identifier? || Primary(ts[2..]).expr.Member?)
    ensures Primary(ts) == Parsed(Member(ts[0].value, Primary(ts[2..]).expr), Primary(ts[2..]).rest)
  {
  }

  lemma {:induction false} PrimarySpells(ts: seq<Token>)
    requires Ended(ts) && Lexed(ts) && Primary(ts).Parsed? && Complete(Primary(ts).expr)
    ensures var r := Primary(ts); IsPrimary(r.expr) && Spells(ts, Print(r.expr), r.rest) && Lexed(r.rest)
    decreases |ts|, 0
  {
    assert |ts| > 0;
    hide Spells, Lexed, Ended, Print, Primary, Expression;
    LexedRest(ts);
    if MemberAhead(ts) {
      PrimaryOfMemberAhead(ts);
      LexedRest(ts[1..]);
      assert ts[1..][1..] == ts[2..];
      PrimarySpells(ts[2..]);
      MemberSpells(ts, Primary(ts[2..]).expr, Primary(ts[2..]).rest);
    } else if ts[0].kind == OpenParen {
      PrimaryOfParen(ts);
      SumSpells(ts[1..]);
      ParenSpells(ts, Expression(ts[1..]).expr, Expression(ts[1..]).rest);
      LexedRest(Expression(ts[1..]).rest);
    } else {
      LeafSpells(ts);
    }
  }

  lemma FirstSpells(ts: seq<Token>, printed: seq<Token>, rest: seq<Token>)
    requires |ts| > 0 && |printed| > 0 && Spells(ts, printed, rest)
    ensures printed[0].value == ts[0].value
  {
    assert Spelling(ts)[0] == (Spelling(printed) + Spelling(rest))[0];
  }

  lemma {:induction false} UnarySpells(ts: seq<Token>)
    requires Ended(ts) && Lexed(ts) && UnaryExpr(ts).Parsed? && Complete(UnaryExpr(ts).expr)
    ensures var r := UnaryExpr(ts); IsUnary(r.expr) && Spells(ts, Print(r.expr), r.rest) && Lexed(r.rest)
    decreases |ts|, 1
  {
    hide Spells, Lexed;
    if UnaryOperator(ts[0]) {
      OperatorGoesOn(ts);
      LexedRest(ts);
      PrimarySpells(ts[1..]);
      var r := Primary(ts[1..]);
      var oper := Token(if ts[0].value == "!" then Exclamation else BinaryOperator, ts[0].value);
      SpellsToken(ts, oper);
      SpellsThen(ts, [oper], ts[1..], Print(r.expr), r.rest);
    } else {
      PrimarySpells(ts);
      PrintsSome(Primary(ts).expr);
      FirstSpells(ts, Print(Primary(ts).expr), Primary(ts).rest);
    }
  }

  lemma PrintsSome(e: Expr)
    requires IsPrimary(e)
    ensures |Print(e)| > 0
  {
  }

  lemma BinarySpells(ts: seq<Token>, left: Expr, mid: seq<Token>, right: Expr, rest: seq<Token>)
    requires Lexed(mid) && |mid| > 0
    requires Spells(ts, Print(left), mid) && Spells(mid[1..], Print(right), rest)
    ensures Spells(ts, Print(Binary(left, right, mid[0].value)), rest)
  {
    hide Spells, Lexed;
    var oper := Token(BinaryOperator, mid[0].value);
    SpellsToken(mid, oper);
    SpellsThen(ts, Print(left), mid, [oper], mid[1..]);
    SpellsThen(ts, Print(left) + [oper], mid[1..], Print(right), rest);
  }

  lemma {:induction false} CompleteLeft(left: Expr, ts: seq<Token>)
    requires Ended(ts)
    ensures ProductFrom(left, ts).Parsed? && Complete(ProductFrom(left, ts).expr) ==> Complete(left)
    ensures SumFrom(left, ts).Parsed? && Complete(SumFrom(left, ts).expr) ==> Complete(left)
    decreases |ts|
  {
    if Multiplicative(ts[0].value) {
      OperatorGoesOn(ts);
      var r := UnaryExpr(ts[1..]);
      if r.Parsed? { CompleteLeft(Binary(left, r.expr, ts[0].value), r.rest); }
    }
    if Additive(ts[0].value) {
      OperatorGoesOn(ts);
      var r := Product(ts[1..]);
      if r.Parsed? { CompleteLeft(Binary(left, r.expr, ts[0].value), r.rest); }
    }
  }

  /** The loop over one level keeps what is read so far spelled right, from the first token on. */
  lemma {:induction false} ProductFromSpells(all: seq<Token>, left: Expr, ts: seq<Token>)
    requires Ended(ts) && Lexed(ts) && IsProduct(left) && Spells(all, Print(left), ts)
    requires ProductFrom(left, ts).Parsed? && Complete(ProductFrom(left, ts).expr)
    ensures var r := ProductFrom(left, ts); IsProduct(r.expr) && Spells(all, Print(r.expr), r.rest) && Lexed(r.rest)
    decreases |ts|, 1
  {
    hide Spells, Lexed, Print, Multiplicative;
    if Multiplicative(ts[0].value) {
      OperatorGoesOn(ts);
      LexedRest(ts);
      var r := UnaryExpr(ts[1..]);
      CompleteLeft(Binary(left, r.expr, ts[0].value), r.rest);
      UnarySpells(ts[1..]);
      BinarySpells(all, left, ts, r.expr, r.rest);
      ProductFromSpells(all, Binary(left, r.expr, ts[0].value), r.rest);
    }
  }

  lemma {:induction false} ProductSpells(ts: seq<Token>)
    requires Ended(ts) && Lexed(ts) && Product(ts).Parsed? && Complete(Product(ts).expr)
    ensures var r := Product(ts); IsProduct(r.expr) && Spells(ts, Print(r.expr), r.rest) && Lexed(r.rest)
    decreases |ts|, 2
  {
    hide Spells, Lexed, Ended, Print;
    CompleteLeft(UnaryExpr(ts).expr, UnaryExpr(ts).rest);
    UnarySpells(ts);
    ProductFromSpells(ts, UnaryExpr(ts).expr, UnaryExpr(ts).rest);
  }

  lemma {:induction false} SumFromSpells(all: seq<Token>, left: Expr, ts: seq<Token>)
    requires Ended(ts) && Lexed(ts) && IsSum(left) && Spells(all, Print(left), ts)
    requires SumFrom(left, ts).Parsed? && Complete(SumFrom(left, ts).expr)
    ensures var r := SumFrom(left, ts); IsSum(r.expr) && Spells(all, Print(r.expr), r.rest) && Lexed(r.rest)
    decreases |ts|, 1
  {
    hide Spells, Lexed, Print, Additive;
    if Additive(ts[0].value) {
      OperatorGoesOn(ts);
      LexedRest(ts);
      var r := Product(ts[1..]);
      CompleteLeft(Binary(left, r.expr, ts[0].value), r.rest);
      ProductSpells(ts[1..]);
      BinarySpells(all, left, ts, r.expr, r.rest);
      SumFromSpells(all, Binary(left, r.expr, ts[0].value), r.rest);
    }
  }

  /** Whatever is parsed without a gap is a tree of the grammar, and the tokens taken spell it. */
  lemma {:induction false} SumSpells(ts: seq<Token>)
    requires Ended(ts) && Lexed(ts) && Expression(ts).Parsed? && Complete(Expression(ts).expr)
    ensures var r := Expression(ts); IsSum(r.expr) && Spells(ts, Print(r.expr), r.rest) && Lexed(r.rest)
    decreases |ts|, 3
  {
    hide Spells, Lexed, Ended, Print;
    CompleteLeft(Product(ts).expr, Product(ts).rest);
    ProductSpells(ts);
    SumFromSpells(ts, Product(ts).expr, Product(ts).rest);
  }
}
