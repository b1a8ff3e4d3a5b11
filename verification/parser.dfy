/** Precedence-climbing recursive descent from a token list to an expression
    tree (src/compiler/parser.py). The position into the token list is threaded
    explicitly; every parsing function returns the parsed tree together with
    the position after it.

    Levels, loosest to tightest: `<`, then `+ -`, then `* /`, then factors
    (parenthesised expressions, `if` expressions and integer literals). In the
    right-associative mode a term followed by any operator token takes the
    whole rest of the expression as its right operand. */
module Parser {

  import opened Wrappers
  import opened Ast
  import Decimal

  datatype TokenKind = IntLiteral | BoolLiteral | Ident | Operator | Parenthesis | AddressOf | End

  datatype Token = Token(kind: TokenKind, text: string)

  datatype ParseError =
    | ExpectedToken(expected: string, got: string)
    | ExpectedLiteral(found: string)
    | InvalidIntLiteral(text: string)
    | UnexpectedToken(found: string)

  /** A parsed tree and the position of the first token after it. */
  datatype Parsed = Parsed(expr: Expr, pos: nat)

  /** A consumed token and the position after it. */
  datatype Consumed = Consumed(token: Token, pos: nat)

  /** What is read past the last token. */
  const EndToken := Token(End, "")

  function Peek(toks: seq<Token>, pos: nat): (t: Token)
    ensures pos < |toks| ==> t == toks[pos]
    ensures pos >= |toks| ==> t == EndToken
  {
    if pos < |toks| then toks[pos] else EndToken
  }

  /** Takes the current token; with an expected text, only if the token has that text. */
  function Consume(toks: seq<Token>, pos: nat, expected: Option<string>): (r: Result<Consumed, ParseError>)
    ensures r.Ok? <==> (expected.None? || Peek(toks, pos).text == expected.value)
    ensures r.Ok? ==> r.value.token == Peek(toks, pos) && r.value.pos == pos + 1
    ensures r.Err? ==> r.error == ExpectedToken(expected.value, Peek(toks, pos).text)
  {
    var token := Peek(toks, pos);
    if expected.Some? && token.text != expected.value then
      Err(ExpectedToken(expected.value, token.text))
    else
      Ok(Consumed(token, pos + 1))
  }

  predicate IsComparisonOp(text: string) { text == "<" }
  predicate IsAdditiveOp(text: string) { text == "+" || text == "-" }
  predicate IsMultiplicativeOp(text: string) { text == "*" || text == "/" }

  function ParseLiteral(toks: seq<Token>, pos: nat): (r: Result<Parsed, ParseError>)
    requires pos <= |toks|
    ensures r.Ok? <==> Peek(toks, pos).kind == IntLiteral && Decimal.ParseNat(Peek(toks, pos).text).Some?
    ensures r.Ok? ==> pos < |toks| && r.value == Parsed(Lit(Decimal.ParseNat(toks[pos].text).value), pos + 1)
  {
    var token := Peek(toks, pos);
    if token.kind == IntLiteral then
      var c := Consume(toks, pos, None).value;
      match Decimal.ParseNat(token.text)
      case Some(n) => Ok(Parsed(Lit(n), c.pos))
      case None => Err(InvalidIntLiteral(token.text))
    else
      Err(ExpectedLiteral(token.text))
  }

  function ParseExpression(toks: seq<Token>, rightAssoc: bool, pos: nat): (r: Result<Parsed, ParseError>)
    requires pos <= |toks|
    ensures r.Ok? ==> pos < r.value.pos <= |toks|
    decreases |toks| - pos, 6
  {
    if rightAssoc then
      ParseExpressionRightAssoc(toks, rightAssoc, pos)
    else
      var left :- ParsePolynomial(toks, rightAssoc, pos);
      ComparisonTail(toks, rightAssoc, left.expr, left.pos)
  }

  /** The `while` loop of the comparison level: folds `<` operands to the left. */
  function ComparisonTail(toks: seq<Token>, rightAssoc: bool, left: Expr, pos: nat): (r: Result<Parsed, ParseError>)
    requires pos <= |toks|
    ensures r.Ok? ==> pos <= r.value.pos <= |toks|
    decreases |toks| - pos, 6
  {
    var t := Peek(toks, pos);
    if IsComparisonOp(t.text) then
      var right :- ParsePolynomial(toks, rightAssoc, pos + 1);
      ComparisonTail(toks, rightAssoc, BinaryOp(left, t.text, right.expr), right.pos)
    else
      Ok(Parsed(left, pos))
  }

  function ParsePolynomial(toks: seq<Token>, rightAssoc: bool, pos: nat): (r: Result<Parsed, ParseError>)
    requires pos <= |toks|
    ensures r.Ok? ==> pos < r.value.pos <= |toks|
    decreases |toks| - pos, 4
  {
    var left :- ParseTerm(toks, rightAssoc, pos);
    AdditiveTail(toks, rightAssoc, left.expr, left.pos)
  }

  /** The `while` loop of the additive level: folds `+ -` operands to the left. */
  function AdditiveTail(toks: seq<Token>, rightAssoc: bool, left: Expr, pos: nat): (r: Result<Parsed, ParseError>)
    requires pos <= |toks|
    ensures r.Ok? ==> pos <= r.value.pos <= |toks|
    decreases |toks| - pos, 4
  {
    var t := Peek(toks, pos);
    if IsAdditiveOp(t.text) then
      var right :- ParseTerm(toks, rightAssoc, pos + 1);
      AdditiveTail(toks, rightAssoc, BinaryOp(left, t.text, right.expr), right.pos)
    else
      Ok(Parsed(left, pos))
  }

  function ParseTerm(toks: seq<Token>, rightAssoc: bool, pos: nat): (r: Result<Parsed, ParseError>)
    requires pos <= |toks|
    ensures r.Ok? ==> pos < r.value.pos <= |toks|
    decreases |toks| - pos, 3
  {
    var left :- ParseFactor(toks, rightAssoc, pos);
    MultiplicativeTail(toks, rightAssoc, left.expr, left.pos)
  }

  /** The `while` loop of the multiplicative level: folds `* /` operands to the left. */
  function MultiplicativeTail(toks: seq<Token>, rightAssoc: bool, left: Expr, pos: nat): (r: Result<Parsed, ParseError>)
    requires pos <= |toks|
    ensures r.Ok? ==> pos <= r.value.pos <= |toks|
    decreases |toks| - pos, 3
  {
    var t := Peek(toks, pos);
    if IsMultiplicativeOp(t.text) then
      var right :- ParseFactor(toks, rightAssoc, pos + 1);
      MultiplicativeTail(toks, rightAssoc, BinaryOp(left, t.text, right.expr), right.pos)
    else
      Ok(Parsed(left, pos))
  }

  function ParseFactor(toks: seq<Token>, rightAssoc: bool, pos: nat): (r: Result<Parsed, ParseError>)
    requires pos <= |toks|
    ensures r.Ok? ==> pos < r.value.pos <= |toks|
    ensures r.Ok? ==> Peek(toks, pos).text in {"(", "if"} || Peek(toks, pos).kind == IntLiteral
    decreases |toks| - pos, 2
  {
    var t := Peek(toks, pos);
    if t.text == "(" then
      ParseParenthesized(toks, rightAssoc, pos)
    else if t.text == "if" then
      ParseIfExpression(toks, rightAssoc, pos)
    else if t.kind == IntLiteral then
      ParseLiteral(toks, pos)
    else
      Err(UnexpectedToken(t.text))
  }

  function ParseIfExpression(toks: seq<Token>, rightAssoc: bool, pos: nat): (r: Result<Parsed, ParseError>)
    requires pos <= |toks|
    ensures r.Ok? ==> pos < r.value.pos <= |toks|
    ensures r.Ok? ==> r.value.expr.IfExpression?
    decreases |toks| - pos, 1
  {
    var kw :- Consume(toks, pos, Some("if"));
    var cond :- ParseExpression(toks, rightAssoc, kw.pos);
    var th :- Consume(toks, cond.pos, Some("then"));
    var thenClause :- ParseExpression(toks, rightAssoc, th.pos);
    if Peek(toks, thenClause.pos).text == "else" then
      var el := Consume(toks, thenClause.pos, Some("else")).value;
      var elseClause :- ParseExpression(toks, rightAssoc, el.pos);
      Ok(Parsed(IfExpression(cond.expr, thenClause.expr, Some(elseClause.expr)), elseClause.pos))
    else
      Ok(Parsed(IfExpression(cond.expr, thenClause.expr, None), thenClause.pos))
  }

  function ParseParenthesized(toks: seq<Token>, rightAssoc: bool, pos: nat): (r: Result<Parsed, ParseError>)
    requires pos <= |toks|
    ensures r.Ok? ==> pos < r.value.pos <= |toks|
    decreases |toks| - pos, 1
  {
    var open :- Consume(toks, pos, Some("("));
    var inner :- ParseExpression(toks, rightAssoc, open.pos);
    var close :- Consume(toks, inner.pos, Some(")"));
    Ok(Parsed(inner.expr, close.pos))
  }

  function ParseExpressionRightAssoc(toks: seq<Token>, rightAssoc: bool, pos: nat): (r: Result<Parsed, ParseError>)
    requires pos <= |toks|
    ensures r.Ok? ==> pos < r.value.pos <= |toks|
    decreases |toks| - pos, 5
  {
    var left :- ParseTerm(toks, rightAssoc, pos);
    var t := Peek(toks, left.pos);
    if t.kind == Operator then
      var op := Consume(toks, left.pos, None).value;
      var right :- ParseExpressionRightAssoc(toks, rightAssoc, op.pos);
      Ok(Parsed(BinaryOp(left.expr, t.text, right.expr), right.pos))
    else
      Ok(left)
  }

  /** Parses one expression from the front of `tokens`; tokens after it are ignored. */
  function Parse(tokens: seq<Token>, rightAssociative: bool): (r: Result<Expr, ParseError>)
    ensures r.Ok? ==> |tokens| > 0
  {
    var p :- ParseExpression(tokens, rightAssociative, 0);
    Ok(p.expr)
  }
}
