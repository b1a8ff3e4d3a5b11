/** Properties of the parser: associativity of operator chains in both modes,
    and a round trip through a fully parenthesised token spelling that pins
    down precedence, parenthesis dropping and the two `if` forms. */
module ParserProperties {

  import opened Wrappers
  import opened Ast
  import opened Parser
  import Decimal

  function IntToken(n: nat): Token { Token(IntLiteral, Decimal.NatToString(n)) }
  function OpToken(op: string): Token { Token(Operator, op) }
  const LParen := Token(Parenthesis, "(")
  const RParen := Token(Parenthesis, ")")
  const IfKeyword := Token(Ident, "if")
  const ThenKeyword := Token(Ident, "then")
  const ElseKeyword := Token(Ident, "else")

  /** `s` occurs in `toks` starting at `pos`. */
  predicate At(toks: seq<Token>, pos: nat, s: seq<Token>) {
    pos + |s| <= |toks| && forall i :: 0 <= i < |s| ==> toks[pos + i] == s[i]
  }

  lemma {:induction false} AtSplit(toks: seq<Token>, pos: nat, a: seq<Token>, b: seq<Token>)
    requires At(toks, pos, a + b)
    ensures At(toks, pos, a) && At(toks, pos + |a|, b)
  {
    forall i | 0 <= i < |a|
      ensures toks[pos + i] == a[i]
    {
      assert toks[pos + i] == (a + b)[i];
    }
    forall i | 0 <= i < |b|
      ensures toks[pos + |a| + i] == b[i]
    {
      assert toks[pos + (|a| + i)] == (a + b)[|a| + i];
    }
  }

  /** A token that ends an expression at every precedence level in both modes. */
  predicate Stopper(t: Token) {
    t.kind != Operator && !IsComparisonOp(t.text) && !IsAdditiveOp(t.text) && !IsMultiplicativeOp(t.text)
  }

  // ---------------------------------------------------------------------------
  // Operator chains

  /** `(op, n)` pairs following a first operand. */
  function ChainTokens(rest: seq<(string, nat)>): seq<Token> {
    if |rest| == 0 then [] else [OpToken(rest[0].0), IntToken(rest[0].1)] + ChainTokens(rest[1..])
  }

  /** `((left op1 n1) op2 n2) ...` */
  function FoldLeft(left: Expr, rest: seq<(string, nat)>): Expr
    decreases |rest|
  {
    if |rest| == 0 then left else FoldLeft(BinaryOp(left, rest[0].0, Lit(rest[0].1)), rest[1..])
  }

  /** `n0 op1 (n1 op2 (n2 ...))` */
  function FoldRight(n0: nat, rest: seq<(string, nat)>): Expr
    decreases |rest|
  {
    if |rest| == 0 then Lit(n0) else BinaryOp(Lit(n0), rest[0].0, FoldRight(rest[0].1, rest[1..]))
  }

  lemma {:induction false} LiteralFactor(toks: seq<Token>, rightAssoc: bool, pos: nat, n: nat)
    requires pos < |toks| && toks[pos] == IntToken(n)
    ensures ParseFactor(toks, rightAssoc, pos) == Ok(Parsed(Lit(n), pos + 1))
  {
    Decimal.ParseNatRoundTrip(n);
  }

  /** A factor not followed by `*` or `/` is a whole term. */
  lemma {:induction false} FactorIsTerm(toks: seq<Token>, rightAssoc: bool, pos: nat, e: Expr, q: nat)
    requires pos <= |toks|
    requires ParseFactor(toks, rightAssoc, pos) == Ok(Parsed(e, q))
    requires !IsMultiplicativeOp(Peek(toks, q).text)
    ensures ParseTerm(toks, rightAssoc, pos) == Ok(Parsed(e, q))
  {
  }

  /** A term followed by a stopper is a whole expression, in both modes. */
  lemma {:induction false} TermIsExpression(toks: seq<Token>, rightAssoc: bool, pos: nat, e: Expr, q: nat)
    requires pos <= |toks|
    requires ParseTerm(toks, rightAssoc, pos) == Ok(Parsed(e, q))
    requires Stopper(Peek(toks, q))
    ensures ParseExpression(toks, rightAssoc, pos) == Ok(Parsed(e, q))
  {
    if rightAssoc {
      assert ParseExpressionRightAssoc(toks, rightAssoc, pos) == Ok(Parsed(e, q));
    } else {
      assert AdditiveTail(toks, rightAssoc, e, q) == Ok(Parsed(e, q));
      assert ParsePolynomial(toks, rightAssoc, pos) == Ok(Parsed(e, q));
      assert ComparisonTail(toks, rightAssoc, e, q) == Ok(Parsed(e, q));
    }
  }

  lemma {:induction false} ChainHead(toks: seq<Token>, pos: nat, rest: seq<(string, nat)>)
    requires |rest| > 0
    requires At(toks, pos, ChainTokens(rest))
    ensures toks[pos] == OpToken(rest[0].0) && toks[pos + 1] == IntToken(rest[0].1)
    ensures At(toks, pos + 2, ChainTokens(rest[1..]))
    ensures |ChainTokens(rest)| == 2 + |ChainTokens(rest[1..])|
  {
    var head := [OpToken(rest[0].0), IntToken(rest[0].1)];
    assert ChainTokens(rest) == head + ChainTokens(rest[1..]);
    AtSplit(toks, pos, head, ChainTokens(rest[1..]));
    assert toks[pos..pos + 2] == head;
  }

  /** The token after the first pair of a chain: the next operator, or what follows the chain. */
  lemma {:induction false} AfterChainHead(toks: seq<Token>, pos: nat, rest: seq<(string, nat)>)
    requires |rest| > 0
    requires At(toks, pos, ChainTokens(rest))
    ensures |rest| > 1 ==> Peek(toks, pos + 2) == OpToken(rest[1].0)
    ensures |rest| == 1 ==> pos + 2 == pos + |ChainTokens(rest)|
  {
    ChainHead(toks, pos, rest);
    if |rest| > 1 {
      ChainHead(toks, pos + 2, rest[1..]);
    } else {
      assert ChainTokens(rest[1..]) == [];
    }
  }

  lemma {:induction false} AdditiveChain(toks: seq<Token>, rightAssoc: bool, left: Expr, pos: nat, rest: seq<(string, nat)>)
    requires At(toks, pos, ChainTokens(rest))
    requires forall i :: 0 <= i < |rest| ==> IsAdditiveOp(rest[i].0)
    requires Stopper(Peek(toks, pos + |ChainTokens(rest)|))
    ensures AdditiveTail(toks, rightAssoc, left, pos) == Ok(Parsed(FoldLeft(left, rest), pos + |ChainTokens(rest)|))
    decreases |rest|
  {
    if |rest| == 0 {
      assert AdditiveTail(toks, rightAssoc, left, pos) == Ok(Parsed(left, pos));
    } else {
      var next := BinaryOp(left, rest[0].0, Lit(rest[0].1));
      AdditiveChainStep(toks, rightAssoc, left, pos, rest);
      ChainHead(toks, pos, rest);
      AdditiveChain(toks, rightAssoc, next, pos + 2, rest[1..]);
    }
  }

  /** The first `± n` pair of an additive chain is one round of the loop, and
      the rest of the chain is again an additive chain. */
  lemma {:induction false} AdditiveChainStep(toks: seq<Token>, rightAssoc: bool, left: Expr, pos: nat, rest: seq<(string, nat)>)
    requires |rest| > 0
    requires At(toks, pos, ChainTokens(rest))
    requires forall i :: 0 <= i < |rest| ==> IsAdditiveOp(rest[i].0)
    requires Stopper(Peek(toks, pos + |ChainTokens(rest)|))
    ensures pos + 2 <= |toks|
    ensures AdditiveTail(toks, rightAssoc, left, pos) == AdditiveTail(toks, rightAssoc, BinaryOp(left, rest[0].0, Lit(rest[0].1)), pos + 2)
    ensures forall i :: 0 <= i < |rest[1..]| ==> IsAdditiveOp(rest[1..][i].0)
  {
    var term := Lit(rest[0].1);
    ChainHead(toks, pos, rest);
    assert ParseTerm(toks, rightAssoc, pos + 1) == Ok(Parsed(term, pos + 2)) by {
      LiteralFactor(toks, rightAssoc, pos + 1, rest[0].1);
      assert !IsMultiplicativeOp(Peek(toks, pos + 2).text) by {
        AfterChainHead(toks, pos, rest);
        if |rest| > 1 {
          assert IsAdditiveOp(rest[1].0);
        }
      }
      FactorIsTerm(toks, rightAssoc, pos + 1, term, pos + 2);
    }
    AdditiveStep(toks, rightAssoc, left, pos, term, pos + 2);
    forall i | 0 <= i < |rest[1..]| ensures IsAdditiveOp(rest[1..][i].0) {
      assert rest[1..][i] == rest[i + 1];
    }
  }

  /** One round of the additive loop: an additive operator and the term after it. */
  lemma {:induction false} AdditiveStep(toks: seq<Token>, rightAssoc: bool, left: Expr, pos: nat, right: Expr, q: nat)
    requires pos < |toks| && IsAdditiveOp(toks[pos].text)
    requires ParseTerm(toks, rightAssoc, pos + 1) == Ok(Parsed(right, q))
    ensures AdditiveTail(toks, rightAssoc, left, pos) == AdditiveTail(toks, rightAssoc, BinaryOp(left, toks[pos].text, right), q)
  {
  }

  lemma {:induction false} MultiplicativeChain(toks: seq<Token>, rightAssoc: bool, left: Expr, pos: nat, rest: seq<(string, nat)>)
    requires At(toks, pos, ChainTokens(rest))
    requires forall i :: 0 <= i < |rest| ==> IsMultiplicativeOp(rest[i].0)
    requires Stopper(Peek(toks, pos + |ChainTokens(rest)|))
    ensures MultiplicativeTail(toks, rightAssoc, left, pos) == Ok(Parsed(FoldLeft(left, rest), pos + |ChainTokens(rest)|))
    decreases |rest|
  {
    if |rest| == 0 {
      assert MultiplicativeTail(toks, rightAssoc, left, pos) == Ok(Parsed(left, pos));
    } else {
      ChainHead(toks, pos, rest);
      LiteralFactor(toks, rightAssoc, pos + 1, rest[0].1);
      var next := BinaryOp(left, rest[0].0, Lit(rest[0].1));
      assert MultiplicativeTail(toks, rightAssoc, left, pos) == MultiplicativeTail(toks, rightAssoc, next, pos + 2);
      MultiplicativeChain(toks, rightAssoc, next, pos + 2, rest[1..]);
    }
  }

  /** `n0 + n1 - n2 ...` groups to the left: `1 + 2 - 3` is `(1 + 2) - 3`. */
  lemma {:induction false} AdditiveChainsAssociateLeft(n0: nat, rest: seq<(string, nat)>)
    requires forall i :: 0 <= i < |rest| ==> IsAdditiveOp(rest[i].0)
    ensures Parse([IntToken(n0)] + ChainTokens(rest), false) == Ok(FoldLeft(Lit(n0), rest))
  {
    var toks := [IntToken(n0)] + ChainTokens(rest);
    assert At(toks, 0, toks);
    AdditiveChainParses(toks, n0, rest);
  }

  /** An additive chain spelled from the first token on is the whole expression. */
  lemma {:induction false} AdditiveChainParses(toks: seq<Token>, n0: nat, rest: seq<(string, nat)>)
    requires forall i :: 0 <= i < |rest| ==> IsAdditiveOp(rest[i].0)
    requires At(toks, 0, [IntToken(n0)] + ChainTokens(rest)) && |toks| == 1 + |ChainTokens(rest)|
    ensures ParseExpression(toks, false, 0) == Ok(Parsed(FoldLeft(Lit(n0), rest), |toks|))
  {
    var e := FoldLeft(Lit(n0), rest);
    assert ParseTerm(toks, false, 0) == Ok(Parsed(Lit(n0), 1)) by {
      OperandChainHead(toks, 0, n0, rest);
      LiteralFactor(toks, false, 0, n0);
      FactorIsTerm(toks, false, 0, Lit(n0), 1);
    }
    assert AdditiveTail(toks, false, Lit(n0), 1) == Ok(Parsed(e, |toks|)) by {
      AtSplit(toks, 0, [IntToken(n0)], ChainTokens(rest));
      AdditiveChain(toks, false, Lit(n0), 1, rest);
    }
    PolynomialIsExpression(toks, 0, Lit(n0), 1, e, |toks|);
  }


  /** A term, an additive tail after it, and a stopper make a whole expression in the left-associative mode. */
  lemma {:induction false} PolynomialIsExpression(toks: seq<Token>, pos: nat, l: Expr, p: nat, e: Expr, q: nat)
    requires pos <= |toks|
    requires ParseTerm(toks, false, pos) == Ok(Parsed(l, p))
    requires AdditiveTail(toks, false, l, p) == Ok(Parsed(e, q))
    requires q == |toks|
    ensures ParseExpression(toks, false, pos) == Ok(Parsed(e, q))
  {
    assert ParsePolynomial(toks, false, pos) == Ok(Parsed(e, q));
    assert ComparisonTail(toks, false, e, q) == Ok(Parsed(e, q));
  }

  /** `n0 * n1 / n2 ...` groups to the left, in both modes. */
  lemma {:induction false} MultiplicativeChainsAssociateLeft(n0: nat, rest: seq<(string, nat)>, rightAssoc: bool)
    requires forall i :: 0 <= i < |rest| ==> IsMultiplicativeOp(rest[i].0)
    ensures Parse([IntToken(n0)] + ChainTokens(rest), rightAssoc) == Ok(FoldLeft(Lit(n0), rest))
  {
    var toks := [IntToken(n0)] + ChainTokens(rest);
    var last := |toks|;
    assert At(toks, 0, toks);
    AtSplit(toks, 0, [IntToken(n0)], ChainTokens(rest));
    LiteralFactor(toks, rightAssoc, 0, n0);
    MultiplicativeChain(toks, rightAssoc, Lit(n0), 1, rest);
    assert ParseTerm(toks, rightAssoc, 0) == Ok(Parsed(FoldLeft(Lit(n0), rest), last));
    TermIsExpression(toks, rightAssoc, 0, FoldLeft(Lit(n0), rest), last);
  }

  // ---------------------------------------------------------------------------
  // Precedence between levels

  /** `a + b * c` is `a + (b * c)`: the product is one term of the sum. */
  lemma {:induction false} ProductBindsTighterOnRight(toks: seq<Token>, a: nat, add: string, b: nat, mul: string, c: nat)
    requires IsAdditiveOp(add) && IsMultiplicativeOp(mul)
    requires |toks| == 5 && toks[0] == IntToken(a) && toks[1] == OpToken(add) && toks[2] == IntToken(b)
    requires toks[3] == OpToken(mul) && toks[4] == IntToken(c)
    ensures Parse(toks, false) == Ok(BinaryOp(Lit(a), add, BinaryOp(Lit(b), mul, Lit(c))))
  {
    var product := BinaryOp(Lit(b), mul, Lit(c));
    assert ParseTerm(toks, false, 0) == Ok(Parsed(Lit(a), 1)) by {
      LiteralTerm(toks, false, 0, a);
    }
    assert ParseTerm(toks, false, 2) == Ok(Parsed(product, 5)) by {
      LiteralFactor(toks, false, 2, b);
      LiteralFactor(toks, false, 4, c);
      assert MultiplicativeTail(toks, false, product, 5) == Ok(Parsed(product, 5));
      assert MultiplicativeTail(toks, false, Lit(b), 3) == Ok(Parsed(product, 5));
    }
    assert AdditiveTail(toks, false, Lit(a), 1) == Ok(Parsed(BinaryOp(Lit(a), add, product), 5)) by {
      AdditiveStep(toks, false, Lit(a), 1, product, 5);
      assert AdditiveTail(toks, false, BinaryOp(Lit(a), add, product), 5) == Ok(Parsed(BinaryOp(Lit(a), add, product), 5));
    }
    PolynomialIsExpression(toks, 0, Lit(a), 1, BinaryOp(Lit(a), add, product), 5);
  }

  /** `a * b + c` is `(a * b) + c`: the product is one term of the sum. */
  lemma {:induction false} ProductBindsTighterOnLeft(toks: seq<Token>, a: nat, mul: string, b: nat, add: string, c: nat)
    requires IsAdditiveOp(add) && IsMultiplicativeOp(mul)
    requires |toks| == 5 && toks[0] == IntToken(a) && toks[1] == OpToken(mul) && toks[2] == IntToken(b)
    requires toks[3] == OpToken(add) && toks[4] == IntToken(c)
    ensures Parse(toks, false) == Ok(BinaryOp(BinaryOp(Lit(a), mul, Lit(b)), add, Lit(c)))
  {
    var product := BinaryOp(Lit(a), mul, Lit(b));
    assert ParseTerm(toks, false, 0) == Ok(Parsed(product, 3)) by {
      LiteralFactor(toks, false, 0, a);
      LiteralFactor(toks, false, 2, b);
      assert MultiplicativeTail(toks, false, product, 3) == Ok(Parsed(product, 3));
      assert MultiplicativeTail(toks, false, Lit(a), 1) == Ok(Parsed(product, 3));
    }
    assert ParseTerm(toks, false, 4) == Ok(Parsed(Lit(c), 5)) by {
      LiteralFactor(toks, false, 4, c);
      FactorIsTerm(toks, false, 4, Lit(c), 5);
    }
    assert AdditiveTail(toks, false, product, 3) == Ok(Parsed(BinaryOp(product, add, Lit(c)), 5)) by {
      AdditiveStep(toks, false, product, 3, Lit(c), 5);
    }
    PolynomialIsExpression(toks, 0, product, 3, BinaryOp(product, add, Lit(c)), 5);
  }

  /** `a < b + c` is `a < (b + c)`: the sum is one operand of the comparison. */
  lemma {:induction false} SumBindsTighterOnRight(toks: seq<Token>, a: nat, b: nat, add: string, c: nat)
    requires IsAdditiveOp(add)
    requires |toks| == 5 && toks[0] == IntToken(a) && toks[1] == OpToken("<") && toks[2] == IntToken(b)
    requires toks[3] == OpToken(add) && toks[4] == IntToken(c)
    ensures Parse(toks, false) == Ok(BinaryOp(Lit(a), "<", BinaryOp(Lit(b), add, Lit(c))))
  {
    var sum := BinaryOp(Lit(b), add, Lit(c));
    var e := BinaryOp(Lit(a), "<", sum);
    assert ParsePolynomial(toks, false, 0) == Ok(Parsed(Lit(a), 1)) by {
      LiteralTerm(toks, false, 0, a);
      assert AdditiveTail(toks, false, Lit(a), 1) == Ok(Parsed(Lit(a), 1));
    }
    assert ParsePolynomial(toks, false, 2) == Ok(Parsed(sum, 5)) by {
      LiteralTerm(toks, false, 2, b);
      LiteralTerm(toks, false, 4, c);
      AdditiveStep(toks, false, Lit(b), 3, Lit(c), 5);
      assert AdditiveTail(toks, false, sum, 5) == Ok(Parsed(sum, 5));
    }
    assert ComparisonTail(toks, false, Lit(a), 1) == Ok(Parsed(e, 5)) by {
      ComparisonStep(toks, false, Lit(a), 1, sum, 5);
      assert ComparisonTail(toks, false, e, 5) == Ok(Parsed(e, 5));
    }
    assert ParseExpression(toks, false, 0) == Ok(Parsed(e, 5));
  }

  /** `a + b < c` is `(a + b) < c`: the sum is one operand of the comparison. */
  lemma {:induction false} SumBindsTighterOnLeft(toks: seq<Token>, a: nat, add: string, b: nat, c: nat)
    requires IsAdditiveOp(add)
    requires |toks| == 5 && toks[0] == IntToken(a) && toks[1] == OpToken(add) && toks[2] == IntToken(b)
    requires toks[3] == OpToken("<") && toks[4] == IntToken(c)
    ensures Parse(toks, false) == Ok(BinaryOp(BinaryOp(Lit(a), add, Lit(b)), "<", Lit(c)))
  {
    var sum := BinaryOp(Lit(a), add, Lit(b));
    var e := BinaryOp(sum, "<", Lit(c));
    assert ParsePolynomial(toks, false, 0) == Ok(Parsed(sum, 3)) by {
      LiteralTerm(toks, false, 0, a);
      LiteralTerm(toks, false, 2, b);
      AdditiveStep(toks, false, Lit(a), 1, Lit(b), 3);
      assert AdditiveTail(toks, false, sum, 3) == Ok(Parsed(sum, 3));
    }
    assert ParsePolynomial(toks, false, 4) == Ok(Parsed(Lit(c), 5)) by {
      LiteralTerm(toks, false, 4, c);
      assert AdditiveTail(toks, false, Lit(c), 5) == Ok(Parsed(Lit(c), 5));
    }
    assert ComparisonTail(toks, false, sum, 3) == Ok(Parsed(e, 5)) by {
      ComparisonStep(toks, false, sum, 3, Lit(c), 5);
      assert ComparisonTail(toks, false, e, 5) == Ok(Parsed(e, 5));
    }
    assert ParseExpression(toks, false, 0) == Ok(Parsed(e, 5));
  }

  /** A literal followed by anything but `*` or `/` is a whole term. */
  lemma {:induction false} LiteralTerm(toks: seq<Token>, rightAssoc: bool, pos: nat, n: nat)
    requires pos < |toks| && toks[pos] == IntToken(n)
    requires !IsMultiplicativeOp(Peek(toks, pos + 1).text)
    ensures ParseTerm(toks, rightAssoc, pos) == Ok(Parsed(Lit(n), pos + 1))
  {
    LiteralFactor(toks, rightAssoc, pos, n);
    FactorIsTerm(toks, rightAssoc, pos, Lit(n), pos + 1);
  }

  /** One round of the comparison loop: `<` and the polynomial after it. */
  lemma {:induction false} ComparisonStep(toks: seq<Token>, rightAssoc: bool, left: Expr, pos: nat, right: Expr, q: nat)
    requires pos < |toks| && IsComparisonOp(toks[pos].text)
    requires ParsePolynomial(toks, rightAssoc, pos + 1) == Ok(Parsed(right, q))
    ensures ComparisonTail(toks, rightAssoc, left, pos) == ComparisonTail(toks, rightAssoc, BinaryOp(left, toks[pos].text, right), q)
  {
  }

  /** The first operand, the first operator and the rest of a chain. */
  lemma {:induction false} OperandChainHead(toks: seq<Token>, pos: nat, n0: nat, rest: seq<(string, nat)>)
    requires At(toks, pos, [IntToken(n0)] + ChainTokens(rest))
    ensures pos < |toks| && toks[pos] == IntToken(n0)
    ensures |rest| == 0 ==> |ChainTokens(rest)| == 0
    ensures |rest| > 0 ==>
      && pos + 1 < |toks| && toks[pos + 1] == OpToken(rest[0].0)
      && At(toks, pos + 2, [IntToken(rest[0].1)] + ChainTokens(rest[1..]))
      && |ChainTokens(rest)| == 2 + |ChainTokens(rest[1..])|
  {
    AtSplit(toks, pos, [IntToken(n0)], ChainTokens(rest));
    assert toks[pos + 0] == [IntToken(n0)][0];
    if |rest| > 0 {
      var head := [OpToken(rest[0].0), IntToken(rest[0].1)];
      assert ChainTokens(rest) == head + ChainTokens(rest[1..]);
      AtSplit(toks, pos + 1, head, ChainTokens(rest[1..]));
      assert toks[pos + 1 + 0] == head[0];
      assert toks[pos + 1 + 1] == head[1];
      AtSplit(toks, pos + 2, [IntToken(rest[0].1)], ChainTokens(rest[1..]));
      forall i | 0 <= i < 1 + |ChainTokens(rest[1..])|
        ensures toks[pos + 2 + i] == ([IntToken(rest[0].1)] + ChainTokens(rest[1..]))[i]
      {
        if i > 0 {
          assert toks[pos + 3 + (i - 1)] == ChainTokens(rest[1..])[i - 1];
        }
      }
    } else {
      assert ChainTokens(rest) == [];
    }
  }

  lemma {:induction false} RightAssocChain(toks: seq<Token>, pos: nat, n0: nat, rest: seq<(string, nat)>)
    requires At(toks, pos, [IntToken(n0)] + ChainTokens(rest))
    requires forall i :: 0 <= i < |rest| ==> !IsMultiplicativeOp(rest[i].0)
    requires Stopper(Peek(toks, pos + 1 + |ChainTokens(rest)|))
    ensures |ChainTokens(rest)| == 2 * |rest|
    ensures ParseExpressionRightAssoc(toks, true, pos) == Ok(Parsed(FoldRight(n0, rest), pos + 1 + 2 * |rest|))
    decreases |rest|
  {
    OperandChainHead(toks, pos, n0, rest);
    LiteralFactor(toks, true, pos, n0);
    FactorIsTerm(toks, true, pos, Lit(n0), pos + 1);
    if |rest| > 0 {
      RightAssocChain(toks, pos + 2, rest[0].1, rest[1..]);
      assert ParseExpressionRightAssoc(toks, true, pos)
          == Ok(Parsed(BinaryOp(Lit(n0), rest[0].0, FoldRight(rest[0].1, rest[1..])), pos + 1 + 2 * |rest|));
    }
  }

  /** In right-associative mode `n0 op1 n1 op2 n2 ...` over `+ - <` nests to the right:
      `2 + 3 + 4` is `2 + (3 + 4)`. */
  lemma {:induction false} RightAssociativeChainsNestRight(n0: nat, rest: seq<(string, nat)>)
    requires forall i :: 0 <= i < |rest| ==> !IsMultiplicativeOp(rest[i].0)
    ensures Parse([IntToken(n0)] + ChainTokens(rest), true) == Ok(FoldRight(n0, rest))
  {
    var toks := [IntToken(n0)] + ChainTokens(rest);
    assert At(toks, 0, toks);
    RightAssocChain(toks, 0, n0, rest);
    assert Peek(toks, 1 + 2 * |rest|) == EndToken;
  }

  // ---------------------------------------------------------------------------
  // Round trip through a fully parenthesised spelling

  /** The trees the parser can produce: non-negative integer literals, the five
      binary operators it knows, and `if` expressions. */
  predicate Printable(e: Expr) {
    match e
    case Literal(v) => v.IntLit? && v.n >= 0
    case BinaryOp(l, op, r) =>
      (IsComparisonOp(op) || IsAdditiveOp(op) || IsMultiplicativeOp(op)) && Printable(l) && Printable(r)
    case IfExpression(c, t, el) =>
      Printable(c) && Printable(t) && (el.Some? ==> Printable(el.value))
    case _ => false
  }

  /** Spells a tree with every operator application and every `if` in parentheses. */
  function Tokens(e: Expr): seq<Token>
    requires Printable(e)
    decreases e, 1
  {
    match e
    case Literal(v) => [IntToken(v.n)]
    case BinaryOp(l, op, r) => [LParen] + (Tokens(l) + ([OpToken(op)] + (Tokens(r) + [RParen])))
    case IfExpression(c, t, el) =>
      [LParen, IfKeyword] + (Tokens(c) + ([ThenKeyword] + (Tokens(t) + ElseTokens(e))))
  }

  /** The spelling of an `if` after its then-branch: the else-branch, if any, and the closing parenthesis. */
  function ElseTokens(e: Expr): seq<Token>
    requires e.IfExpression? && Printable(e)
    decreases e, 0
  {
    match e.elseClause
    case None => [RParen]
    case Some(el) => [ElseKeyword] + (Tokens(el) + [RParen])
  }

  /** A parenthesised expression is a factor with no wrapper node. */
  lemma {:induction false} ParenthesizedFactor(toks: seq<Token>, rightAssoc: bool, pos: nat, e: Expr, q: nat)
    requires pos < |toks| && toks[pos] == LParen
    requires ParseExpression(toks, rightAssoc, pos + 1) == Ok(Parsed(e, q))
    requires q < |toks| && toks[q] == RParen
    ensures ParseFactor(toks, rightAssoc, pos) == Ok(Parsed(e, q + 1))
  {
    assert ParseParenthesized(toks, rightAssoc, pos) == Ok(Parsed(e, q + 1));
  }

  /** `l op r` between stoppers, with `l` and `r` factors, is one operator application. */
  lemma {:induction false} InfixExpression(toks: seq<Token>, rightAssoc: bool, p0: nat, l: Expr, op: string, r: Expr, p1: nat, p2: nat)
    requires IsComparisonOp(op) || IsAdditiveOp(op) || IsMultiplicativeOp(op)
    requires p0 <= |toks|
    requires ParseFactor(toks, rightAssoc, p0) == Ok(Parsed(l, p1))
    requires p1 < |toks| && toks[p1] == OpToken(op)
    requires ParseFactor(toks, rightAssoc, p1 + 1) == Ok(Parsed(r, p2))
    requires Stopper(Peek(toks, p2))
    ensures ParseExpression(toks, rightAssoc, p0) == Ok(Parsed(BinaryOp(l, op, r), p2))
  {
    var e := BinaryOp(l, op, r);
    FactorIsTerm(toks, rightAssoc, p1 + 1, r, p2);
    if IsMultiplicativeOp(op) {
      assert MultiplicativeTail(toks, rightAssoc, l, p1) == MultiplicativeTail(toks, rightAssoc, e, p2);
      assert ParseTerm(toks, rightAssoc, p0) == Ok(Parsed(e, p2));
      TermIsExpression(toks, rightAssoc, p0, e, p2);
    } else {
      FactorIsTerm(toks, rightAssoc, p0, l, p1);
      if rightAssoc {
        assert ParseExpressionRightAssoc(toks, rightAssoc, p1 + 1) == Ok(Parsed(r, p2));
        assert ParseExpressionRightAssoc(toks, rightAssoc, p0) == Ok(Parsed(e, p2));
      } else if IsAdditiveOp(op) {
        assert AdditiveTail(toks, rightAssoc, l, p1) == AdditiveTail(toks, rightAssoc, e, p2);
        assert ParsePolynomial(toks, rightAssoc, p0) == Ok(Parsed(e, p2));
        assert ComparisonTail(toks, rightAssoc, e, p2) == Ok(Parsed(e, p2));
      } else {
        assert ParsePolynomial(toks, rightAssoc, p0) == Ok(Parsed(l, p1));
        assert ParsePolynomial(toks, rightAssoc, p1 + 1) == Ok(Parsed(r, p2));
        assert ComparisonTail(toks, rightAssoc, l, p1) == ComparisonTail(toks, rightAssoc, e, p2);
      }
    }
  }

  /** `if c then t [else el]` with each part followed by its keyword or a stopper. */
  lemma {:induction false} IfFactor(toks: seq<Token>, rightAssoc: bool, pos: nat, c: Expr, t: Expr, el: Option<Expr>, p1: nat, p2: nat, p3: nat)
    requires pos < |toks| && toks[pos] == IfKeyword
    requires ParseExpression(toks, rightAssoc, pos + 1) == Ok(Parsed(c, p1))
    requires p1 < |toks| && toks[p1] == ThenKeyword
    requires ParseExpression(toks, rightAssoc, p1 + 1) == Ok(Parsed(t, p2))
    requires el.None? ==> Peek(toks, p2).text != "else" && p3 == p2
    requires el.Some? ==> p2 < |toks| && toks[p2] == ElseKeyword
    requires el.Some? ==> ParseExpression(toks, rightAssoc, p2 + 1) == Ok(Parsed(el.value, p3))
    ensures ParseFactor(toks, rightAssoc, pos) == Ok(Parsed(IfExpression(c, t, el), p3))
  {
    assert ParseIfExpression(toks, rightAssoc, pos) == Ok(Parsed(IfExpression(c, t, el), p3));
  }

  /** A spelled tree followed by a stopper parses back as a whole expression. */
  lemma {:induction false} ExpressionRoundTrip(toks: seq<Token>, rightAssoc: bool, pos: nat, e: Expr)
    requires Printable(e)
    requires At(toks, pos, Tokens(e))
    requires Stopper(Peek(toks, pos + |Tokens(e)|))
    ensures ParseExpression(toks, rightAssoc, pos) == Ok(Parsed(e, pos + |Tokens(e)|))
    decreases e, 5
  {
    FactorRoundTrip(toks, rightAssoc, pos, e);
    FactorIsTerm(toks, rightAssoc, pos, e, pos + |Tokens(e)|);
    TermIsExpression(toks, rightAssoc, pos, e, pos + |Tokens(e)|);
  }

  /** A spelled tree parses back as one factor, whatever follows it. */
  lemma {:induction false} FactorRoundTrip(toks: seq<Token>, rightAssoc: bool, pos: nat, e: Expr)
    requires Printable(e)
    requires At(toks, pos, Tokens(e))
    ensures ParseFactor(toks, rightAssoc, pos) == Ok(Parsed(e, pos + |Tokens(e)|))
    decreases e, 4
  {
    match e
    case Literal(v) =>
      assert toks[pos] == Tokens(e)[0];
      LiteralFactor(toks, rightAssoc, pos, v.n);
    case BinaryOp(l, op, r) =>
      BinaryOpRoundTrip(toks, rightAssoc, pos, l, op, r);
    case IfExpression(c, t, el) =>
      IfRoundTrip(toks, rightAssoc, pos, c, t, el);
  }

  /** Where the parts of a spelled operator application sit: `l` from
      `pos + 1`, the operator at `p1`, `r` from `p1 + 1`, `)` at `p2`. */
  lemma {:induction false} BinaryOpLayout(toks: seq<Token>, pos: nat, l: Expr, op: string, r: Expr, p1: nat, p2: nat)
    requires Printable(BinaryOp(l, op, r))
    requires At(toks, pos, Tokens(BinaryOp(l, op, r)))
    requires p1 == pos + 1 + |Tokens(l)| && p2 == p1 + 1 + |Tokens(r)|
    ensures toks[pos] == LParen
    ensures At(toks, pos + 1, Tokens(l))
    ensures p1 < |toks| && toks[p1] == OpToken(op)
    ensures At(toks, p1 + 1, Tokens(r))
    ensures p2 < |toks| && toks[p2] == RParen
    ensures p2 + 1 == pos + |Tokens(BinaryOp(l, op, r))|
  {
    AtSplit(toks, pos, [LParen], Tokens(l) + ([OpToken(op)] + (Tokens(r) + [RParen])));
    AtSplit(toks, pos + 1, Tokens(l), [OpToken(op)] + (Tokens(r) + [RParen]));
    AtSplit(toks, p1, [OpToken(op)], Tokens(r) + [RParen]);
    AtSplit(toks, p1 + 1, Tokens(r), [RParen]);
    assert toks[pos + 0] == [LParen][0];
    assert toks[p1 + 0] == [OpToken(op)][0];
    assert toks[p2 + 0] == [RParen][0];
  }

  /** Where the parts of a spelled `if` sit up to the end of its then-branch. */
  lemma {:induction false} IfHeadLayout(toks: seq<Token>, pos: nat, c: Expr, t: Expr, tail: seq<Token>, p1: nat, p2: nat)
    requires Printable(c) && Printable(t)
    requires At(toks, pos, [LParen, IfKeyword] + (Tokens(c) + ([ThenKeyword] + (Tokens(t) + tail))))
    requires p1 == pos + 2 + |Tokens(c)| && p2 == p1 + 1 + |Tokens(t)|
    ensures toks[pos] == LParen && toks[pos + 1] == IfKeyword
    ensures At(toks, pos + 2, Tokens(c))
    ensures p1 < |toks| && toks[p1] == ThenKeyword
    ensures At(toks, p1 + 1, Tokens(t))
    ensures At(toks, p2, tail)
  {
    AtSplit(toks, pos, [LParen, IfKeyword], Tokens(c) + ([ThenKeyword] + (Tokens(t) + tail)));
    AtSplit(toks, pos + 2, Tokens(c), [ThenKeyword] + (Tokens(t) + tail));
    AtSplit(toks, p1, [ThenKeyword], Tokens(t) + tail);
    AtSplit(toks, p1 + 1, Tokens(t), tail);
    assert toks[pos + 0] == [LParen, IfKeyword][0] && toks[pos + 1] == [LParen, IfKeyword][1];
    assert toks[p1 + 0] == [ThenKeyword][0];
  }

  /** Where the else-branch and the closing parenthesis of a spelled `if` sit. */
  lemma {:induction false} ElseLayout(toks: seq<Token>, p2: nat, e: Expr)
    requires e.IfExpression? && Printable(e)
    requires At(toks, p2, ElseTokens(e))
    ensures e.elseClause.None? ==> toks[p2] == RParen && |ElseTokens(e)| == 1
    ensures e.elseClause.Some? ==>
      && toks[p2] == ElseKeyword
      && At(toks, p2 + 1, Tokens(e.elseClause.value))
      && toks[p2 + 1 + |Tokens(e.elseClause.value)|] == RParen
      && |ElseTokens(e)| == 2 + |Tokens(e.elseClause.value)|
  {
    match e.elseClause
    case None =>
      assert toks[p2 + 0] == [RParen][0];
    case Some(el) =>
      AtSplit(toks, p2, [ElseKeyword], Tokens(el) + [RParen]);
      AtSplit(toks, p2 + 1, Tokens(el), [RParen]);
      assert toks[p2 + 0] == [ElseKeyword][0];
      assert toks[p2 + 1 + |Tokens(el)| + 0] == [RParen][0];
  }

  lemma {:induction false} BinaryOpRoundTrip(toks: seq<Token>, rightAssoc: bool, pos: nat, l: Expr, op: string, r: Expr)
    requires Printable(BinaryOp(l, op, r))
    requires At(toks, pos, Tokens(BinaryOp(l, op, r)))
    ensures ParseFactor(toks, rightAssoc, pos) == Ok(Parsed(BinaryOp(l, op, r), pos + |Tokens(BinaryOp(l, op, r))|))
    decreases BinaryOp(l, op, r), 3
  {
    var p1 := pos + 1 + |Tokens(l)|;
    var p2 := p1 + 1 + |Tokens(r)|;
    OperandsRoundTrip(toks, rightAssoc, pos, l, op, r, p1, p2);
    InfixExpression(toks, rightAssoc, pos + 1, l, op, r, p1, p2);
    ParenthesizedFactor(toks, rightAssoc, pos, BinaryOp(l, op, r), p2);
  }

  /** Both operands of a spelled operator application parse back as factors. */
  lemma {:induction false} OperandsRoundTrip(toks: seq<Token>, rightAssoc: bool, pos: nat, l: Expr, op: string, r: Expr, p1: nat, p2: nat)
    requires Printable(BinaryOp(l, op, r))
    requires At(toks, pos, Tokens(BinaryOp(l, op, r)))
    requires p1 == pos + 1 + |Tokens(l)| && p2 == p1 + 1 + |Tokens(r)|
    ensures IsComparisonOp(op) || IsAdditiveOp(op) || IsMultiplicativeOp(op)
    ensures toks[pos] == LParen
    ensures ParseFactor(toks, rightAssoc, pos + 1) == Ok(Parsed(l, p1))
    ensures p1 < |toks| && toks[p1] == OpToken(op)
    ensures ParseFactor(toks, rightAssoc, p1 + 1) == Ok(Parsed(r, p2))
    ensures p2 < |toks| && toks[p2] == RParen && Stopper(Peek(toks, p2))
    ensures p2 + 1 == pos + |Tokens(BinaryOp(l, op, r))|
    decreases BinaryOp(l, op, r), 2
  {
    BinaryOpLayout(toks, pos, l, op, r, p1, p2);
    FactorRoundTrip(toks, rightAssoc, pos + 1, l);
    FactorRoundTrip(toks, rightAssoc, p1 + 1, r);
  }

  lemma {:induction false} IfRoundTrip(toks: seq<Token>, rightAssoc: bool, pos: nat, c: Expr, t: Expr, el: Option<Expr>)
    requires Printable(IfExpression(c, t, el))
    requires At(toks, pos, Tokens(IfExpression(c, t, el)))
    ensures ParseFactor(toks, rightAssoc, pos) == Ok(Parsed(IfExpression(c, t, el), pos + |Tokens(IfExpression(c, t, el))|))
    decreases IfExpression(c, t, el), 3
  {
    var e := IfExpression(c, t, el);
    IfLength(e);
    var p3 := pos + |Tokens(e)| - 1;
    IfBodyRoundTrip(toks, rightAssoc, pos, c, t, el, p3);
    FactorIsTerm(toks, rightAssoc, pos + 1, e, p3);
    TermIsExpression(toks, rightAssoc, pos + 1, e, p3);
    ParenthesizedFactor(toks, rightAssoc, pos, e, p3);
  }

  /** The condition and then-branch of a spelled `if` parse back, each up to
      the keyword or stopper that follows it (`p1` and `p2`). */
  lemma {:induction false} IfHeadRoundTrip(toks: seq<Token>, rightAssoc: bool, pos: nat, e: Expr, p1: nat, p2: nat)
    requires e.IfExpression? && Printable(e)
    requires At(toks, pos + 2, Tokens(e.cond)) && p1 == pos + 2 + |Tokens(e.cond)|
    requires p1 < |toks| && toks[p1] == ThenKeyword
    requires At(toks, p1 + 1, Tokens(e.thenClause)) && p2 == p1 + 1 + |Tokens(e.thenClause)|
    requires Stopper(Peek(toks, p2))
    ensures ParseExpression(toks, rightAssoc, pos + 2) == Ok(Parsed(e.cond, p1))
    ensures ParseExpression(toks, rightAssoc, p1 + 1) == Ok(Parsed(e.thenClause, p2))
    decreases e, 1
  {
    ExpressionRoundTrip(toks, rightAssoc, pos + 2, e.cond);
    ExpressionRoundTrip(toks, rightAssoc, p1 + 1, e.thenClause);
  }

  /** The else-branch of a spelled `if`, when there is one, parses back up to
      the closing parenthesis at `p3`. */
  lemma {:induction false} ElseRoundTrip(toks: seq<Token>, rightAssoc: bool, p2: nat, e: Expr, p3: nat)
    requires e.IfExpression? && Printable(e)
    requires At(toks, p2, ElseTokens(e))
    requires p3 + 1 == p2 + |ElseTokens(e)|
    ensures p3 < |toks| && toks[p3] == RParen
    ensures e.elseClause.None? ==> Peek(toks, p2).text != "else" && p3 == p2
    ensures e.elseClause.Some? ==> p2 < |toks| && toks[p2] == ElseKeyword
    ensures e.elseClause.Some? ==> ParseExpression(toks, rightAssoc, p2 + 1) == Ok(Parsed(e.elseClause.value, p3))
    decreases e, 1
  {
    ElseLayout(toks, p2, e);
    if e.elseClause.Some? {
      ExpressionRoundTrip(toks, rightAssoc, p2 + 1, e.elseClause.value);
    }
  }

  /** Where the pieces of a spelled `if` end, as offsets from its first token. */
  lemma {:induction false} IfLength(e: Expr)
    requires e.IfExpression? && Printable(e)
    ensures Tokens(e) == [LParen, IfKeyword] + (Tokens(e.cond) + ([ThenKeyword] + (Tokens(e.thenClause) + ElseTokens(e))))
    ensures |Tokens(e)| == 3 + |Tokens(e.cond)| + |Tokens(e.thenClause)| + |ElseTokens(e)|
    ensures 1 <= |ElseTokens(e)| && Stopper(ElseTokens(e)[0])
  {
  }

  /** The `if` inside a spelled `if` parses back up to the closing parenthesis. */
  lemma {:induction false} IfBodyRoundTrip(toks: seq<Token>, rightAssoc: bool, pos: nat, c: Expr, t: Expr, el: Option<Expr>, p3: nat)
    requires Printable(IfExpression(c, t, el))
    requires At(toks, pos, Tokens(IfExpression(c, t, el)))
    requires p3 + 1 == pos + |Tokens(IfExpression(c, t, el))|
    ensures toks[pos] == LParen
    ensures p3 < |toks| && toks[p3] == RParen
    ensures ParseFactor(toks, rightAssoc, pos + 1) == Ok(Parsed(IfExpression(c, t, el), p3))
    decreases IfExpression(c, t, el), 2
  {
    var e := IfExpression(c, t, el);
    var p1 := pos + 2 + |Tokens(c)|;
    var p2 := p1 + 1 + |Tokens(t)|;
    IfLength(e);
    assert && toks[pos] == LParen && toks[pos + 1] == IfKeyword
           && At(toks, pos + 2, Tokens(c)) && p1 < |toks| && toks[p1] == ThenKeyword
           && At(toks, p1 + 1, Tokens(t)) && Stopper(Peek(toks, p2))
           && At(toks, p2, ElseTokens(e)) by {
      IfHeadLayout(toks, pos, c, t, ElseTokens(e), p1, p2);
      assert toks[p2 + 0] == ElseTokens(e)[0];
    }
    IfHeadRoundTrip(toks, rightAssoc, pos, e, p1, p2);
    ElseRoundTrip(toks, rightAssoc, p2, e, p3);
    IfFactor(toks, rightAssoc, pos + 1, c, t, el, p1, p2, p3);
  }

  /** Parsing the spelling of a tree gives the tree back, in both modes, and
      tokens after a stopper are left unread. Parentheses leave no node behind
      and an `if` without `else` has no else clause. */
  lemma {:induction false} ParseRoundTrip(e: Expr, rest: seq<Token>, rightAssoc: bool)
    requires Printable(e)
    requires |rest| > 0 ==> Stopper(rest[0])
    ensures Parse(Tokens(e) + rest, rightAssoc) == Ok(e)
  {
    var toks := Tokens(e) + rest;
    ExpressionRoundTrip(toks, rightAssoc, 0, e);
  }
}
