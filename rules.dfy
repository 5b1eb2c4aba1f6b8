/** The Pratt parser's table (compiler.c:467-510): for every token kind, the
    action run when it starts an expression, the action run when it follows
    one, and its precedence. Also the opcodes each operator compiles to. */
module Rules {
  import opened Tokens
  import opened Bytecode

  /** Precedence levels, lowest first (the Precedence enum). */
  const PrecNone: nat := 0
  const PrecAssignment: nat := 1
  const PrecOr: nat := 2
  const PrecAnd: nat := 3
  const PrecEquality: nat := 4
  const PrecComparison: nat := 5
  const PrecTerm: nat := 6
  const PrecFactor: nat := 7
  const PrecUnary: nat := 8
  const PrecCall: nat := 9
  const PrecPrimary: nat := 10

  datatype PrefixFn = NoPrefix | Grouping | UnaryOp | Variable | StringLiteral | NumberLiteral | Literal | AskExpr
  datatype InfixFn = NoInfix | BinaryOp | AndOp | OrOp

  datatype ParseRule = ParseRule(prefix: PrefixFn, infix: InfixFn, precedence: nat)

  /** getRule. Kinds the table does not list (newline, indent, semicolon) get
      a zero-initialised entry: no actions and the lowest precedence. */
  function GetRule(kind: TokenType): (r: ParseRule)
    ensures r.infix != NoInfix ==> PrecAssignment <= r.precedence <= PrecFactor
    ensures r.prefix == NoPrefix && r.infix == NoInfix ==> r.precedence == PrecNone
  {
    match kind
    case LeftParen => ParseRule(Grouping, NoInfix, PrecNone)
    case Minus => ParseRule(UnaryOp, BinaryOp, PrecTerm)
    case Plus => ParseRule(NoPrefix, BinaryOp, PrecTerm)
    case Slash => ParseRule(NoPrefix, BinaryOp, PrecFactor)
    case Star => ParseRule(NoPrefix, BinaryOp, PrecFactor)
    case Bang => ParseRule(UnaryOp, NoInfix, PrecUnary)
    case BangEqual => ParseRule(NoPrefix, BinaryOp, PrecEquality)
    case Equal => ParseRule(NoPrefix, BinaryOp, PrecAssignment)
    case Is => ParseRule(NoPrefix, BinaryOp, PrecAssignment)
    case EqualEqual => ParseRule(NoPrefix, BinaryOp, PrecEquality)
    case Greater => ParseRule(NoPrefix, BinaryOp, PrecComparison)
    case GreaterEqual => ParseRule(NoPrefix, BinaryOp, PrecComparison)
    case Less => ParseRule(NoPrefix, BinaryOp, PrecComparison)
    case LessEqual => ParseRule(NoPrefix, BinaryOp, PrecComparison)
    case Identifier => ParseRule(Variable, NoInfix, PrecNone)
    case String => ParseRule(StringLiteral, NoInfix, PrecNone)
    case Number => ParseRule(NumberLiteral, NoInfix, PrecPrimary)
    case And => ParseRule(NoPrefix, AndOp, PrecAnd)
    case False => ParseRule(Literal, NoInfix, PrecPrimary)
    case Null => ParseRule(Literal, NoInfix, PrecPrimary)
    case Or => ParseRule(NoPrefix, OrOp, PrecOr)
    case Ask => ParseRule(AskExpr, NoInfix, PrecNone)
    case True => ParseRule(Literal, NoInfix, PrecPrimary)
    case _ => ParseRule(NoPrefix, NoInfix, PrecNone)
  }

  /** The code `binary` emits after its right operand. Only the ten
      arithmetic and comparison operators emit anything. */
  function BinaryCode(kind: TokenType): (c: seq<CodeByte>)
    ensures |c| <= 2
    ensures c != [] <==> kind in {BangEqual, EqualEqual, Greater, GreaterEqual, Less, LessEqual, Plus, Minus, Star, Slash}
    ensures c != [] ==> c[0].Op? && c[0].op != OpNot
    ensures |c| == 2 ==> c[1] == Op(OpNot)
  {
    match kind
    case BangEqual => [Op(OpEqual), Op(OpNot)]
    case EqualEqual => [Op(OpEqual)]
    case Greater => [Op(OpGreater)]
    case GreaterEqual => [Op(OpLess), Op(OpNot)]
    case Less => [Op(OpLess)]
    case LessEqual => [Op(OpGreater), Op(OpNot)]
    case Plus => [Op(OpAdd)]
    case Minus => [Op(OpSubtract)]
    case Star => [Op(OpMultiply)]
    case Slash => [Op(OpDivide)]
    case _ => []
  }

  /** The code `unary` emits after its operand. */
  function UnaryCode(kind: TokenType): (c: seq<CodeByte>)
    ensures |c| <= 1
    ensures c != [] <==> kind in {Bang, Minus}
  {
    match kind
    case Bang => [Op(OpNot)]
    case Minus => [Op(OpNegate)]
    case _ => []
  }

  /** The code `literal` emits. */
  function LiteralCode(kind: TokenType): (c: seq<CodeByte>)
    ensures |c| <= 1
    ensures c != [] <==> kind in {False, Null, True}
  {
    match kind
    case False => [Op(OpFalse)]
    case Null => [Op(OpNull)]
    case True => [Op(OpTrue)]
    case _ => []
  }

  /** The statement keywords at which error recovery stops. None of them
      can start an expression. */
  predicate StartsStatement(kind: TokenType): (r: bool)
    ensures r ==> kind != Eof && GetRule(kind).prefix == NoPrefix && GetRule(kind).precedence == PrecNone
  {
    kind in {Class, Purpose, The, For, If, While, Write, Return}
  }

  /** A prefix action that compiles the one token just passed and reads no
      further: a string, a number or a literal. */
  predicate TokenOperand(prefix: PrefixFn)
  {
    prefix == StringLiteral || prefix == NumberLiteral || prefix == Literal
  }

  /** The infix loop of parsePrecedence never continues at end of input, and
      every token with a prefix action is a real token: this is what makes
      the parser consume input on every recursive step. */
  lemma {:induction false} LoopStopsAtEof(kind: TokenType, precedence: nat)
    ensures precedence >= PrecAssignment && GetRule(kind).precedence >= precedence ==> kind != Eof
    ensures GetRule(kind).prefix != NoPrefix ==> kind != Eof
  {
  }

  /** Which token kinds the infix loop consumes at a given minimum precedence:
      `=` and `is` carry assignment precedence and an infix action, so at the
      lowest level they are taken as binary operators, and `binary` emits
      nothing for them; literals carry primary precedence with no infix
      action, so a literal that follows an expression is consumed silently. */
  lemma {:induction false} InfixLoopConsumes(kind: TokenType, precedence: nat)
    requires PrecAssignment <= precedence <= PrecPrimary
    ensures kind in {Equal, Is} ==>
              (GetRule(kind).precedence >= precedence <==> precedence == PrecAssignment)
    ensures kind in {Equal, Is} ==> GetRule(kind).infix == BinaryOp && BinaryCode(kind) == []
    ensures kind in {Number, True, False, Null} ==>
              GetRule(kind).precedence >= precedence && GetRule(kind).infix == NoInfix
  {
  }

  /** When the infix loop of an expression that may assign stops, the next
      token is neither `=` nor `is`. */
  lemma {:induction false} AssignmentNeverLeftOver(kind: TokenType, precedence: nat)
    requires PrecAssignment <= precedence <= PrecAssignment
    requires precedence > GetRule(kind).precedence
    ensures kind != Equal && kind != Is
  {
  }

  /** Precedence climbing only re-enters at a level one above the operator's,
      and every operator `binary` serves sits below the unary level. */
  lemma {:induction false} BinaryOperandsBounded(kind: TokenType)
    requires GetRule(kind).infix == BinaryOp
    ensures PrecAssignment <= GetRule(kind).precedence + 1 <= PrecUnary
    ensures |BinaryCode(kind)| <= 2
  {
  }

  /** Which kinds own each action of the table. */
  lemma ActionOwners(kind: TokenType)
    ensures GetRule(kind).prefix == Grouping <==> kind == LeftParen
    ensures GetRule(kind).prefix == UnaryOp <==> kind in {Minus, Bang}
    ensures GetRule(kind).prefix == Variable <==> kind == Identifier
    ensures GetRule(kind).prefix == StringLiteral <==> kind == String
    ensures GetRule(kind).prefix == NumberLiteral <==> kind == Number
    ensures GetRule(kind).prefix == Literal <==> kind in {False, Null, True}
    ensures GetRule(kind).prefix == AskExpr <==> kind == Ask
    ensures GetRule(kind).infix == AndOp <==> kind == And
    ensures GetRule(kind).infix == OrOp <==> kind == Or
  {
  }

  /** The opcodes of the comparison operators, run on a stack machine over
      two ordered operands, give the operator's meaning: `!=`, `>=` and `<=`
      are computed by negating `==`, `<` and `>`. */
  function RunCompare(code: seq<CodeByte>, a: real, b: real): (r: Outcome)
  {
    if |code| == 0 || !code[0].Op? then Stuck
    else
      var first :=
        match code[0].op
        case OpEqual => Computed(a == b)
        case OpLess => Computed(a < b)
        case OpGreater => Computed(a > b)
        case _ => Stuck;
      if first.Stuck? then Stuck
      else if |code| == 1 then first
      else if |code| == 2 && code[1] == Op(OpNot) then Computed(!first.value)
      else Stuck
  }

  /** What running comparison code gives: a truth value, or stuck on code
      it does not evaluate. */
  datatype Outcome = Stuck | Computed(value: bool)

  /** What each comparison operator means on ordered operands. */
  function CompareMeaning(kind: TokenType, a: real, b: real): bool
    requires kind in {BangEqual, EqualEqual, Greater, GreaterEqual, Less, LessEqual}
  {
    match kind
    case BangEqual => a != b
    case EqualEqual => a == b
    case Greater => a > b
    case GreaterEqual => a >= b
    case Less => a < b
    case LessEqual => a <= b
  }

  lemma {:induction false} ComparisonCodeCorrect(kind: TokenType, a: real, b: real)
    requires kind in {BangEqual, EqualEqual, Greater, GreaterEqual, Less, LessEqual}
    ensures RunCompare(BinaryCode(kind), a, b) == Computed(CompareMeaning(kind, a, b))
  {
  }
}
