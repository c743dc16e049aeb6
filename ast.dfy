/** The syntax tree built by the recursive-descent parser: one node type per precedence
    level, each a lower-level node followed by an ordered list of (operator, node) pairs.

    `Factor.Identifier` is used by the code generator but not built by the factor parser as
    written; it is part of the tree so that the generator can be modelled. */
module Ast {
  import opened Wrappers
  import opened Int64

  datatype UnaryOperator = Negation | BitwiseComplement | LogicalNegation
  datatype BinaryFactorOperator = Multiplication | Division
  datatype AdditiveOperator = Subtraction | Addition
  datatype RelationalOperator = LessThan | LessThanOrEqual | GreaterThan | GreaterThanOrEqual
  datatype EqualityOperator = Equal | NotEqual
  datatype LogicalAndOperator = And
  datatype LogicalOrOperator = Or

  datatype Expression =
    | Assignment(name: string, expression: Expression)
    | LogicalOr(or: LogicalOrExpression)

  datatype LogicalOrExpression =
    LogicalOrExpression(expression: LogicalAndExpression, binaryExpressions: seq<BinaryLogicalAndExpression>)
  datatype BinaryLogicalAndExpression =
    BinaryLogicalAndExpression(operator: LogicalOrOperator, rightExpression: LogicalAndExpression)

  datatype LogicalAndExpression =
    LogicalAndExpression(expression: EqualityExpression, binaryExpressions: seq<BinaryEqualityExpression>)
  datatype BinaryEqualityExpression =
    BinaryEqualityExpression(operator: LogicalAndOperator, rightExpression: EqualityExpression)

  datatype EqualityExpression =
    EqualityExpression(expression: RelationalExpression, binaryExpressions: seq<BinaryRelationalExpression>)
  datatype BinaryRelationalExpression =
    BinaryRelationalExpression(operator: EqualityOperator, rightExpression: RelationalExpression)

  datatype RelationalExpression =
    RelationalExpression(expression: AdditiveExpression, binaryExpressions: seq<BinaryAdditiveExpression>)
  datatype BinaryAdditiveExpression =
    BinaryAdditiveExpression(operator: RelationalOperator, rightExpression: AdditiveExpression)

  datatype AdditiveExpression = AdditiveExpression(term: Term, binaryTerms: seq<BinaryTerms>)
  datatype BinaryTerms = BinaryTerms(operator: AdditiveOperator, rightTerm: Term)

  datatype Term = Term(factor: Factor, binaryFactors: seq<BinaryFactor>)
  datatype BinaryFactor = BinaryFactor(operator: BinaryFactorOperator, rightFactor: Factor)

  datatype Factor =
    | Constant(value: i64)
    | UnaryOperation(operation: UnaryOperation)
    | Parenthesized(expression: Expression)
    | Identifier(name: string)

  datatype UnaryOperation = UnaryOperation(operator: UnaryOperator, factor: Factor)

  datatype VariableDeclaration = VariableDeclaration(name: string, expression: Option<Expression>)

  datatype Statement =
    | Return(expression: Expression)
    | ExpressionStatement(expression: Expression)
    | Declaration(declaration: VariableDeclaration)

  /** Every name the expression reads (an identifier factor) is in `readable`, and every name
      it assigns is in `writable`. */
  predicate ExpressionIn(e: Expression, readable: set<string>, writable: set<string>)
    decreases e
  {
    match e
    case Assignment(name, rhs) => name in writable && ExpressionIn(rhs, readable, writable)
    case LogicalOr(or) => OrIn(or, readable, writable)
  }

  predicate OrIn(e: LogicalOrExpression, readable: set<string>, writable: set<string>)
    decreases e
  {
    && AndIn(e.expression, readable, writable)
    && forall i :: 0 <= i < |e.binaryExpressions| ==> AndIn(e.binaryExpressions[i].rightExpression, readable, writable)
  }

  predicate AndIn(e: LogicalAndExpression, readable: set<string>, writable: set<string>)
    decreases e
  {
    && EqualityIn(e.expression, readable, writable)
    && forall i :: 0 <= i < |e.binaryExpressions| ==> EqualityIn(e.binaryExpressions[i].rightExpression, readable, writable)
  }

  predicate EqualityIn(e: EqualityExpression, readable: set<string>, writable: set<string>)
    decreases e
  {
    && RelationalIn(e.expression, readable, writable)
    && forall i :: 0 <= i < |e.binaryExpressions| ==> RelationalIn(e.binaryExpressions[i].rightExpression, readable, writable)
  }

  predicate RelationalIn(e: RelationalExpression, readable: set<string>, writable: set<string>)
    decreases e
  {
    && AdditiveIn(e.expression, readable, writable)
    && forall i :: 0 <= i < |e.binaryExpressions| ==> AdditiveIn(e.binaryExpressions[i].rightExpression, readable, writable)
  }

  predicate AdditiveIn(e: AdditiveExpression, readable: set<string>, writable: set<string>)
    decreases e
  {
    && TermIn(e.term, readable, writable)
    && forall i :: 0 <= i < |e.binaryTerms| ==> TermIn(e.binaryTerms[i].rightTerm, readable, writable)
  }

  predicate TermIn(e: Term, readable: set<string>, writable: set<string>)
    decreases e
  {
    && FactorIn(e.factor, readable, writable)
    && forall i :: 0 <= i < |e.binaryFactors| ==> FactorIn(e.binaryFactors[i].rightFactor, readable, writable)
  }

  predicate FactorIn(f: Factor, readable: set<string>, writable: set<string>)
    decreases f
  {
    match f
    case Constant(_) => true
    case UnaryOperation(op) => FactorIn(op.factor, readable, writable)
    case Parenthesized(e) => ExpressionIn(e, readable, writable)
    case Identifier(name) => name in readable
  }
}
