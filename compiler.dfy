/** The single-pass compiler of compiler.c: a Pratt parser that reads tokens
    one at a time and writes bytecode straight into a chunk, keeping a
    bounded stack of locals with their scope depths. The global parser,
    the current compiler and the chunk being compiled are the fields of one
    object; the scanner is replaced by a finished sequence of tokens. */
module Compiler {
  import opened Tokens
  import opened Bytecode
  import opened Rules
  import opened Scopes
  import Values

  /** What an error report says. */
  datatype Message =
    | ScanError(text: string)   // the scanner's diagnostic, carried by an error token
    | Expected(what: string)    // consume found another token than the one it needs
    | ExpectExpression
    | TooManyConstants
    | TooManyLocals
    | AlreadyDeclared
    | OwnInitializer
    | LoopTooLarge
    | JumpTooLarge

  /** One report written to the error stream: the token it points at and
      what it says. */
  datatype Report = Report(at: Token, message: Message)

  /** Where synchronize stops: the parser's two tokens, the scanner's
      position, and everything written to the error stream by then. */
  datatype Resynced = Resynced(previous: Token, current: Token, cursor: nat, reports: seq<Report>)

  /** The states at which synchronize stops: the end of input, a token
      right after a newline, or a token that starts a statement. */
  predicate RecoveryPoint(previous: Token, current: Token)
  {
    current.kind == Eof || previous.kind == Newline || StartsStatement(current.kind)
  }

  /** The operand byte makeConstant yields for a constant stored at `index`:
      the index itself when it fits in a byte, 0 after an error otherwise. */
  function ConstantIndex(index: nat): Byte
  {
    if index <= Uint8Max then index else 0
  }

  /** The code of a for loop from its condition at `loopStart` on: a jump
      to the body at `bodyJump`, landing at `bodyStart` just after the
      loop back to the condition that ends the increment; the body, ended
      by a loop back to the increment at `backLoop`; and, when there is a
      condition, its exit jump at `exitJump`, landing on a pop of the
      condition right after the loop back to the increment. */
  ghost predicate ForLayout(c: seq<CodeByte>, loopStart: int, exitJump: int, bodyJump: int, bodyStart: int, backLoop: int)
  {
    0 <= loopStart < bodyJump && bodyJump + 5 <= bodyStart < backLoop && backLoop + 2 <= |c| &&
    c[bodyJump - 1] == Op(OpJump) && JumpsTo(c, bodyJump, bodyStart) &&
    c[bodyStart - 3] == Op(OpLoop) && LoopsTo(c, bodyStart - 2, loopStart) &&
    c[backLoop - 1] == Op(OpLoop) && LoopsTo(c, backLoop, bodyJump + 2) &&
    (exitJump != -1 ==>
       loopStart < exitJump && exitJump + 3 < bodyJump &&
       c[exitJump - 1] == Op(OpJumpIfFalse) && c[exitJump + 2] == Op(OpPop) &&
       backLoop + 3 <= |c| && JumpsTo(c, exitJump, backLoop + 2) && c[backLoop + 2] == Op(OpPop))
  }

  /** Every jump and loop of a for loop laid out as ForLayout says fits
      in 16 bits. */
  ghost predicate ForFits(loopStart: int, exitJump: int, bodyJump: int, bodyStart: int, backLoop: int)
  {
    bodyStart - bodyJump - 2 <= Uint16Max && bodyStart - loopStart <= Uint16Max &&
    backLoop + 2 - bodyJump - 2 <= Uint16Max &&
    (exitJump != -1 ==> backLoop - exitJump <= Uint16Max)
  }


  /** The code of the clauses of a for loop, from the condition at
      `loopStart` to the end of `c`: when there is a condition, its exit
      jump at `exitAt` followed by a pop; the jump to the body at `bodyAt`,
      landing at the end of `c`; and, ending `c`, the loop back to the
      condition. */
  ghost predicate ClausesLayout(c: seq<CodeByte>, loopStart: int, exitAt: int, bodyAt: int)
  {
    0 <= loopStart < bodyAt && bodyAt + 5 <= |c| &&
    c[bodyAt - 1] == Op(OpJump) && JumpsTo(c, bodyAt, |c|) &&
    c[|c| - 3] == Op(OpLoop) && LoopsTo(c, |c| - 2, loopStart) &&
    (exitAt != -1 ==>
       loopStart < exitAt && exitAt + 3 < bodyAt &&
       c[exitAt - 1] == Op(OpJumpIfFalse) && c[exitAt + 2] == Op(OpPop))
  }

  /** ForLayout from its three stages: `c1` ends with the clauses (the
      conditional exit jump, the jump to the body and the loop back to the
      condition), `c2` extends it with the body, and `c3` adds the loop back
      to the increment and, when there is a condition, patches the exit jump
      to land on a pop of it. */
  lemma {:induction false} ForLayoutFromStages(c1: seq<CodeByte>, c2: seq<CodeByte>, c3: seq<CodeByte>,
                                               loopStart: int, exitAt: int, bodyAt: int)
    requires ClausesLayout(c1, loopStart, exitAt, bodyAt) && c1 <= c2
    requires |c3| == |c2| + 3 + (if exitAt == -1 then 0 else 1)
    requires c3[|c2|] == Op(OpLoop) && LoopsTo(c3, |c2| + 1, bodyAt + 2)
    requires exitAt != -1 ==> JumpsTo(c3, exitAt, |c2| + 3) && c3[|c2| + 3] == Op(OpPop)
    requires forall i :: 0 <= i < |c2| && (exitAt == -1 || (i != exitAt && i != exitAt + 1)) ==> c3[i] == c2[i]
    ensures ForLayout(c3, loopStart, exitAt, bodyAt, |c1|, |c2| + 1)
  {
    assert forall i :: 0 <= i < |c1| ==> c2[i] == c1[i];
    assert c3[bodyAt] == c1[bodyAt] && c3[bodyAt + 1] == c1[bodyAt + 1];
    assert c3[|c1| - 2] == c1[|c1| - 2] && c3[|c1| - 1] == c1[|c1| - 1];
  }

  class Compiler {
    // the scanner: the tokens it would produce, in order, and the line of
    // the end of input
    const tokens: seq<Token>
    const eofLine: int
    /** strtod on the characters of a number token. */
    const numberValue: string -> Values.Double
    var cursor: nat

    // the parser
    var current: Token
    var previous: Token
    var hadError: bool
    var panicMode: bool
    /** Everything written to the error stream so far. */
    var reports: seq<Report>

    // the compiler: UINT8_COUNT local slots
    const locals: array<Local>
    var localCount: nat
    var scopeDepth: int

    // the chunk being compiled: code bytes, the source line of each, and
    // the constant table
    var code: seq<CodeByte>
    var lines: seq<int>
    var constants: seq<Values.Value>

    ghost predicate Valid()
      reads this
    {
      WellFormedInput(tokens) && cursor <= |tokens| &&
      SpansQuotes(current) && SpansQuotes(previous) &&
      locals.Length == LocalsMax && localCount <= LocalsMax &&
      |lines| == |code|
    }

    /** A parser over `tokens` with an empty chunk and no locals. The parser
        tokens start zero-initialised, as the global parser does. */
    constructor (tokens: seq<Token>, eofLine: int, numberValue: string -> Values.Double)
      requires WellFormedInput(tokens)
      ensures Valid() && fresh(locals)
      ensures this.tokens == tokens && this.eofLine == eofLine && this.numberValue == numberValue
      ensures cursor == 0 && !hadError && !panicMode && reports == []
      ensures localCount == 0 && scopeDepth == 0
      ensures code == [] && lines == [] && constants == []
    {
      this.tokens := tokens;
      this.eofLine := eofLine;
      this.numberValue := numberValue;
      cursor := 0;
      current := Token(LeftParen, "", 0);
      previous := Token(LeftParen, "", 0);
      hadError := false;
      panicMode := false;
      reports := [];
      locals := new Local[LocalsMax];
      localCount := 0;
      scopeDepth := 0;
      code := [];
      lines := [];
      constants := [];
    }

    /** The token the scanner yields at position `i`; past the end it keeps
        yielding the end of input. */
    function TokenAt(i: nat): Token
    {
      if i < |tokens| then tokens[i] else Token(Eof, "", eofLine)
    }

    /** The first position from `i` on that does not hold an error token. */
    function NextNonError(i: nat): (j: nat)
      decreases |tokens| - i
      ensures i <= j && (i <= |tokens| ==> j <= |tokens|)
      ensures TokenAt(j).kind != Error
      ensures forall k :: i <= k < j ==> TokenAt(k).kind == Error
    {
      if TokenAt(i).kind != Error then i else NextNonError(i + 1)
    }

    /** Every token the scanner yields spans its quotes. */
    lemma TokenAtSpansQuotes(i: nat)
      requires WellFormedInput(tokens)
      ensures SpansQuotes(TokenAt(i))
    {
      if i < |tokens| {
        assert TokenAt(i) == tokens[i];
      }
    }

    /** The reports advance writes for the error tokens from `i` up to `j`. */
    function ScanErrors(i: nat, j: nat): (rs: seq<Report>)
      decreases j - i
      ensures |rs| == if i <= j then j - i else 0
      ensures forall k {:trigger rs[k]} :: 0 <= k < |rs| ==> rs[k] == Report(TokenAt(i + k), ScanError(TokenAt(i + k).lexeme))
    {
      if j <= i then [] else ScanErrors(i, j - 1) + [Report(TokenAt(j - 1), ScanError(TokenAt(j - 1).lexeme))]
    }

    /** How much input is left: the tokens not yet scanned, plus one while
        the current token is not the end of input. */
    ghost function Rank(): nat
      reads this
    {
      (if cursor <= |tokens| then |tokens| - cursor else 0) + (if current.kind == Eof then 0 else 1)
    }

    /** What advance did: the current token became the previous one, and the
        scanner moved to the next token that is not an error token, reporting
        every error token on the way. */
    twostate predicate Advanced()
      reads this
    {
      var j := NextNonError(old(cursor));
      previous == old(current) && current == TokenAt(j) &&
      cursor == (if j < |tokens| then j + 1 else |tokens|) &&
      reports == old(reports) + ScanErrors(old(cursor), j) &&
      hadError == (old(hadError) || old(cursor) < j) &&
      panicMode == (old(panicMode) || old(cursor) < j) &&
      Rank() <= old(Rank()) && (old(current).kind != Eof ==> Rank() < old(Rank()))
    }

    /** Parsing moved past at least one token, unless it started at the end
        of input. */
    twostate predicate Progressed()
      reads this
    {
      old(current).kind != Eof ==> Rank() < old(Rank())
    }

    /** The error stream got exactly `r`, and both flags are set. */
    twostate predicate Reported(r: Report)
      reads this
    {
      reports == old(reports) + [r] && hadError && panicMode
    }

    /** Nothing was reported and neither flag changed. */
    twostate predicate Quiet()
      reads this
    {
      reports == old(reports) && hadError == old(hadError) && panicMode == old(panicMode)
    }

    /** What every parsing routine keeps: the chunk and the error stream
        only grow, hadError records whether anything was reported, and no
        input is given back. */
    twostate predicate Extends()
      reads this
    {
      old(code) <= code && |old(constants)| <= |constants| && |old(reports)| <= |reports| &&
      hadError == (old(hadError) || |old(reports)| < |reports|) &&
      Rank() <= old(Rank())
    }

    /** Compiling an expression leaves the locals alone. */
    twostate predicate ExpressionDone()
      reads this
    {
      Extends() && localCount == old(localCount) && scopeDepth == old(scopeDepth)
    }

    /** The state between two statements: the locals are well ordered for
        the current depth. */
    ghost predicate Between()
      reads this, locals
    {
      Valid() && 0 <= scopeDepth && Ordered(locals[..localCount], scopeDepth)
    }

    /** Compiling a statement returns to the depth it started at and keeps
        the locals of that depth and below. */
    twostate predicate StatementDone()
      reads this, locals
    {
      Extends() && scopeDepth == old(scopeDepth) &&
      Kept(old(locals[..]), old(localCount), locals[..], localCount, scopeDepth)
    }

    /** The forward jump whose operand is at `at` goes to `target`; when the
        distance does not fit in 16 bits, an error was reported. */
    ghost predicate Jumps(at: int, target: int)
      reads this`code, this`hadError
    {
      JumpsTo(code, at, target) && (target - at - 2 > Uint16Max ==> hadError)
    }

    /** The backward loop whose operand is at `at` goes to `target`; when the
        distance does not fit in 16 bits, an error was reported. */
    ghost predicate Loops(at: int, target: int)
      reads this`code, this`hadError
    {
      LoopsTo(code, at, target) && (at + 2 - target > Uint16Max ==> hadError)
    }

    /** scanToken */
    method ScanToken() returns (t: Token)
      requires cursor <= |tokens|
      modifies this`cursor
      ensures t == TokenAt(old(cursor))
      ensures cursor == if old(cursor) < |tokens| then old(cursor) + 1 else |tokens|
    {
      if cursor < |tokens| {
        t := tokens[cursor];
        cursor := cursor + 1;
      } else {
        t := Token(Eof, "", eofLine);
      }
    }

    /** errorAt: sets both flags and reports, whether or not the parser is
        already panicking. */
    method ErrorAt(token: Token, message: Message)
      modifies this`reports, this`hadError, this`panicMode
      ensures Reported(Report(token, message))
    {
      panicMode := true;
      reports := reports + [Report(token, message)];
      hadError := true;
    }

    /** error: a report at the previous token. */
    method ErrorAtPrevious(message: Message)
      modifies this`reports, this`hadError, this`panicMode
      ensures Reported(Report(previous, message))
    {
      ErrorAt(previous, message);
    }

    /** errorAtCurrent: a report at the current token. */
    method ErrorAtCurrent(message: Message)
      modifies this`reports, this`hadError, this`panicMode
      ensures Reported(Report(current, message))
    {
      ErrorAt(current, message);
    }

    /** advance */
    method Advance()
      requires Valid()
      modifies this`previous, this`current, this`cursor, this`reports, this`hadError, this`panicMode
      ensures Valid() && Advanced()
    {
      previous := current;
      current := ScanToken();
      SkipErrorTokens(old(cursor));
      TokenAtSpansQuotes(NextNonError(old(cursor)));
    }

    /** The retry loop of advance: while the scanner yields error tokens,
        each is reported at the current token and the next one is scanned.
        `start` is the position the current token was scanned from. */
    method SkipErrorTokens(ghost start: nat)
      requires start <= |tokens| && current == TokenAt(start)
      requires cursor == if start < |tokens| then start + 1 else |tokens|
      modifies this`current, this`cursor, this`reports, this`hadError, this`panicMode
      ensures var j := NextNonError(start);
              current == TokenAt(j) && cursor == (if j < |tokens| then j + 1 else |tokens|) &&
              reports == old(reports) + ScanErrors(start, j) &&
              hadError == (old(hadError) || start < j) &&
              panicMode == (old(panicMode) || start < j)
    {
      ghost var k := start;
      while current.kind == Error
        invariant cursor <= |tokens| && start <= k && current == TokenAt(k)
        invariant cursor == if k < |tokens| then k + 1 else |tokens|
        invariant NextNonError(start) == NextNonError(k)
        invariant reports == old(reports) + ScanErrors(start, k)
        invariant hadError == (old(hadError) || start < k)
        invariant panicMode == (old(panicMode) || start < k)
        decreases |tokens| - cursor + (if current.kind == Error then 1 else 0)
      {
        assert k < |tokens| && cursor == k + 1 && TokenAt(k).kind == Error;
        assert ScanErrors(start, k + 1) == ScanErrors(start, k) + [Report(current, ScanError(current.lexeme))];
        ErrorAtCurrent(ScanError(current.lexeme));
        k := cursor;
        current := ScanToken();
      }
    }

    /** consume: on the expected kind it advances; otherwise it reports and
        sets hadError, but neither advances nor enters panic mode. */
    method Consume(kind: TokenType, what: string)
      requires Valid()
      modifies this`previous, this`current, this`cursor, this`reports, this`hadError, this`panicMode
      ensures Valid()
      ensures old(current).kind == kind ==> Advanced()
      ensures old(current).kind != kind ==>
                reports == old(reports) + [Report(current, Expected(what))] && hadError &&
                unchanged(this`previous, this`current, this`cursor, this`panicMode)
    {
      if current.kind == kind {
        Advance();
        return;
      }
      reports := reports + [Report(current, Expected(what))];
      hadError := true;
    }

    /** match: advances exactly when the current token has the kind. */
    method Match(kind: TokenType) returns (matched: bool)
      requires Valid()
      modifies this`previous, this`current, this`cursor, this`reports, this`hadError, this`panicMode
      ensures Valid()
      ensures matched == (old(current).kind == kind)
      ensures matched ==> Advanced()
      ensures !matched ==> unchanged(this)
    {
      if current.kind != kind {
        return false;
      }
      Advance();
      return true;
    }

    /** `match(TOKEN_EQUAL) || match(TOKEN_IS)`: both spellings of
        assignment. */
    method MatchAssignment() returns (matched: bool)
      requires Valid()
      modifies this`previous, this`current, this`cursor, this`reports, this`hadError, this`panicMode
      ensures Valid()
      ensures matched == (old(current).kind in {Equal, Is})
      ensures matched ==> Advanced()
      ensures !matched ==> unchanged(this)
    {
      matched := Match(Equal);
      if !matched {
        matched := Match(Is);
      }
    }

    /** emitByte: writeChunk appends the byte and the previous token's line. */
    method EmitByte(b: CodeByte)
      modifies this`code, this`lines
      ensures code == old(code) + [b]
      ensures lines == old(lines) + [previous.line]
    {
      code := code + [b];
      lines := lines + [previous.line];
    }

    /** emitBytes */
    method EmitBytes(b1: CodeByte, b2: CodeByte)
      modifies this`code, this`lines
      ensures code == old(code) + [b1, b2]
      ensures lines == old(lines) + [previous.line, previous.line]
    {
      EmitByte(b1);
      EmitByte(b2);
    }

    /** The one or two bytes a switch over an operator emits with emitByte
        or emitBytes (nothing for an operator it does not handle). */
    method EmitCode(bytes: seq<CodeByte>)
      requires |bytes| <= 2
      modifies this`code, this`lines
      ensures code == old(code) + bytes
      ensures lines == WithCopies(old(lines), previous.line, |bytes|)
    {
      if |bytes| == 1 {
        EmitByte(bytes[0]);
      } else if |bytes| == 2 {
        EmitBytes(bytes[0], bytes[1]);
      }
    }

    /** emitLoop: OP_LOOP and the big-endian distance back to `loopStart`,
        measured from just past the operand; a distance over 65535 is
        reported and written cut to 16 bits. */
    method EmitLoop(loopStart: nat)
      requires loopStart <= |code|
      modifies this`code, this`lines, this`reports, this`hadError, this`panicMode
      ensures code == old(code) + [Op(OpLoop)] + Encode16(|old(code)| + 3 - loopStart)
      ensures lines == old(lines) + [previous.line, previous.line, previous.line]
      ensures Loops(|old(code)| + 1, loopStart)
      ensures if |old(code)| + 3 - loopStart > Uint16Max then Reported(Report(previous, LoopTooLarge)) else Quiet()
    {
      EmitByte(Op(OpLoop));
      var offset := |code| - loopStart + 2;
      if offset > Uint16Max {
        ErrorAtPrevious(LoopTooLarge);
      }
      EmitByte(Raw(High(offset)));
      EmitByte(Raw(Low(offset)));
    }

    /** emitJump: the instruction and two placeholder bytes 0xff; the result
        is the position of the placeholder operand. */
    method EmitJump(instruction: OpCode) returns (at: int)
      modifies this`code, this`lines
      ensures code == old(code) + [Op(instruction), Raw(255), Raw(255)]
      ensures lines == old(lines) + [previous.line, previous.line, previous.line]
      ensures at == |old(code)| + 1 && at == |code| - 2
    {
      EmitByte(Op(instruction));
      EmitByte(Raw(255));
      EmitByte(Raw(255));
      return |code| - 2;
    }

    /** emitReturn */
    method EmitReturn()
      modifies this`code, this`lines
      ensures code == old(code) + [Op(OpReturn)]
      ensures lines == old(lines) + [previous.line]
    {
      EmitByte(Op(OpReturn));
    }

    /** makeConstant: addConstant appends the value and yields its index;
        an index over 255 is reported and replaced by 0. */
    method MakeConstant(value: Values.Value) returns (index: Byte)
      modifies this`constants, this`reports, this`hadError, this`panicMode
      ensures constants == old(constants) + [value]
      ensures index == ConstantIndex(|old(constants)|)
      ensures if |old(constants)| > Uint8Max then Reported(Report(previous, TooManyConstants)) else Quiet()
    {
      constants := constants + [value];
      var constant := |constants| - 1;
      if constant > Uint8Max {
        ErrorAtPrevious(TooManyConstants);
        return 0;
      }
      return constant;
    }

    /** emitConstant */
    method EmitConstant(value: Values.Value)
      modifies this`code, this`lines, this`constants, this`reports, this`hadError, this`panicMode
      ensures constants == old(constants) + [value]
      ensures code == old(code) + [Op(OpConstant), Raw(ConstantIndex(|old(constants)|))]
      ensures lines == old(lines) + [previous.line, previous.line]
      ensures if |old(constants)| > Uint8Max then Reported(Report(previous, TooManyConstants)) else Quiet()
    {
      var index := MakeConstant(value);
      EmitBytes(Op(OpConstant), Raw(index));
    }

    /** patchJump: overwrites the two operand bytes at `offset` with the
        big-endian distance from just past them to the end of the code; a
        distance over 65535 is reported and written cut to 16 bits. */
    method PatchJump(offset: int)
      requires 0 <= offset && offset + 2 <= |code|
      modifies this`code, this`reports, this`hadError, this`panicMode
      ensures code == old(code)[offset := Raw(High(|old(code)| - offset - 2))][offset + 1 := Raw(Low(|old(code)| - offset - 2))]
      ensures Jumps(offset, |code|)
      ensures if |old(code)| - offset - 2 > Uint16Max then Reported(Report(previous, JumpTooLarge)) else Quiet()
    {
      var jump := |code| - offset - 2;
      if jump > Uint16Max {
        ErrorAtPrevious(JumpTooLarge);
      }
      code := code[offset := Raw(High(jump))];
      code := code[offset + 1 := Raw(Low(jump))];
    }

    /** beginScope */
    method BeginScope()
      modifies this`scopeDepth
      ensures scopeDepth == old(scopeDepth) + 1
    {
      scopeDepth := scopeDepth + 1;
    }

    /** endScope: leaves the scope and pops, with one OP_POP each, the locals
        on top of the stack that are deeper than the scope it returns to. */
    method EndScope()
      requires localCount <= locals.Length
      modifies this`scopeDepth, this`localCount, this`code, this`lines
      ensures scopeDepth == old(scopeDepth) - 1
      ensures localCount == Surviving(locals[..old(localCount)], scopeDepth)
      ensures code == WithCopies(old(code), Op(OpPop), old(localCount) - localCount)
      ensures lines == WithCopies(old(lines), previous.line, old(localCount) - localCount)
    {
      scopeDepth := scopeDepth - 1;
      ghost var ls := locals[..localCount];
      while localCount > 0 && locals[localCount - 1].depth > scopeDepth
        modifies this`localCount, this`code, this`lines
        invariant localCount <= |ls| && ls == locals[..old(localCount)]
        invariant forall j :: localCount <= j < |ls| ==> ls[j].depth > scopeDepth
        invariant code == WithCopies(old(code), Op(OpPop), |ls| - localCount)
        invariant lines == WithCopies(old(lines), previous.line, |ls| - localCount)
      {
        assert ls[localCount - 1] == locals[localCount - 1];
        EmitByte(Op(OpPop));
        localCount := localCount - 1;
      }
      SurvivingUnique(ls, scopeDepth, localCount);
    }

    /** resolveLocal: the highest slot whose name matches, or -1; a match
        whose initializer is still being compiled is reported. */
    method ResolveLocal(name: Token) returns (slot: int)
      requires Valid()
      modifies this`reports, this`hadError, this`panicMode
      ensures slot == LastMatch(locals[..localCount], name)
      ensures if 0 <= slot && locals[slot].depth == Uninitialized
              then Reported(Report(previous, OwnInitializer)) else Quiet()
    {
      var i := localCount - 1;
      while i >= 0
        invariant -1 <= i < localCount
        invariant LastMatch(locals[..localCount], name) == LastMatch(locals[..i + 1], name)
      {
        assert locals[..i + 1][..i] == locals[..i];
        var local := locals[i];
        if IdentifiersEqual(name, local.name) {
          if local.depth == Uninitialized {
            ErrorAtPrevious(OwnInitializer);
          }
          return i;
        }
        i := i - 1;
      }
      return -1;
    }

    /** addLocal: a new uninitialized local on top of the stack, or a report
        when all 256 slots are in use. */
    method AddLocal(name: Token)
      requires Valid()
      modifies locals, this`localCount, this`reports, this`hadError, this`panicMode
      ensures old(localCount) < LocalsMax ==>
                localCount == old(localCount) + 1 && Quiet() &&
                locals[..] == old(locals[..])[old(localCount) := Local(name, Uninitialized)]
      ensures old(localCount) == LocalsMax ==>
                localCount == LocalsMax && Reported(Report(previous, TooManyLocals)) &&
                locals[..] == old(locals[..])
    {
      if localCount == LocalsMax {
        ErrorAtPrevious(TooManyLocals);
        return;
      }
      locals[localCount] := Local(name, Uninitialized);
      localCount := localCount + 1;
    }

    /** declareVariable: nothing at depth 0. Otherwise every local of the
        current scope with the same name is reported, then the name becomes
        a new local. */
    method DeclareVariable()
      requires Valid()
      modifies locals, this`localCount, this`reports, this`hadError, this`panicMode
      ensures scopeDepth == 0 ==> unchanged(this) && unchanged(locals)
      ensures scopeDepth != 0 && old(localCount) < LocalsMax ==>
                localCount == old(localCount) + 1 &&
                locals[..] == old(locals[..])[old(localCount) := Local(previous, Uninitialized)]
      ensures scopeDepth != 0 && old(localCount) == LocalsMax ==>
                localCount == LocalsMax && locals[..] == old(locals[..])
      ensures scopeDepth != 0 ==>
                var ls := old(locals[..localCount]);
                var found := WithCopies(old(reports), Report(previous, AlreadyDeclared), Duplicates(ls, ScopeStart(ls, scopeDepth), previous));
                reports == if old(localCount) < LocalsMax then found else found + [Report(previous, TooManyLocals)]
      ensures hadError == (old(hadError) || |old(reports)| < |reports|)
      ensures panicMode == (old(panicMode) || |old(reports)| < |reports|)
    {
      if scopeDepth == 0 {
        return;
      }
      var name := previous;
      CheckDuplicates(name);
      AddLocal(name);
    }

    /** The duplicate check of declareVariable: walking down from the top
        of the stack to the first local of an enclosing scope, it reports
        every local with the same name as `name`. */
    method CheckDuplicates(name: Token)
      requires Valid()
      modifies this`reports, this`hadError, this`panicMode
      ensures var ls := locals[..localCount];
              reports == WithCopies(old(reports), Report(previous, AlreadyDeclared), Duplicates(ls, ScopeStart(ls, scopeDepth), name))
      ensures hadError == (old(hadError) || |old(reports)| < |reports|)
      ensures panicMode == (old(panicMode) || |old(reports)| < |reports|)
    {
      ghost var ls := locals[..localCount];
      var i := localCount - 1;
      while i >= 0
        invariant -1 <= i < localCount
        invariant forall j :: i < j < localCount ==> !Outer(ls[j], scopeDepth)
        invariant reports == WithCopies(old(reports), Report(previous, AlreadyDeclared), Duplicates(ls, i + 1, name))
        invariant hadError == (old(hadError) || |old(reports)| < |reports|)
        invariant panicMode == (old(panicMode) || |old(reports)| < |reports|)
      {
        var local := locals[i];
        if local.depth != Uninitialized && local.depth < scopeDepth {
          break;
        }
        assert local == ls[i];
        if IdentifiersEqual(name, local.name) {
          ErrorAtPrevious(AlreadyDeclared);
        }
        i := i - 1;
      }
      ScopeStartUnique(ls, scopeDepth, i + 1);
    }

    /** markInitialized: the top slot gets the current depth. */
    method MarkInitialized()
      requires Valid() && 1 <= localCount
      modifies locals
      ensures locals[..] == old(locals[..])[localCount - 1 := old(locals[localCount - 1]).(depth := scopeDepth)]
    {
      locals[localCount - 1] := locals[localCount - 1].(depth := scopeDepth);
    }

    /** The parser has moved past the token at position `j`: it is neither
        the current token nor still to come. */
    ghost predicate PastToken(j: nat)
      reads this
    {
      Rank() < |tokens| - j
    }

    /** The code appended since `before` ends with `suffix`. */
    ghost predicate EndsWith(before: seq<CodeByte>, suffix: seq<CodeByte>)
      reads this`code
    {
      |before| + |suffix| <= |code| && code[|code| - |suffix|..] == suffix
    }

    /** expression: an expression at the lowest precedence. It stops at a
        token that cannot continue an expression. */
    method Expression()
      requires Valid()
      modifies this`previous, this`current, this`cursor, this`reports, this`hadError, this`panicMode
      modifies this`code, this`lines, this`constants
      ensures Valid() && Extends() && Progressed()
      ensures GetRule(old(current).kind).prefix != NoPrefix ==> GetRule(current.kind).precedence == PrecNone
      decreases Rank(), 1
    {
      ParsePrecedence(PrecAssignment);
    }

    /** parsePrecedence: advances, runs the prefix action of the token it
        passed (or reports that an expression was expected), then keeps
        running infix actions while the current token binds at least as
        tightly as `precedence`. */
    method ParsePrecedence(precedence: nat)
      requires Valid() && PrecAssignment <= precedence
      modifies this`previous, this`current, this`cursor, this`reports, this`hadError, this`panicMode
      modifies this`code, this`lines, this`constants
      ensures Valid() && Extends() && Progressed()
      ensures GetRule(old(current).kind).prefix == NoPrefix ==>
                code == old(code) && |old(reports)| < |reports| && reports[|reports| - 1] == Report(old(current), ExpectExpression)
      ensures GetRule(old(current).kind).prefix != NoPrefix ==> GetRule(current.kind).precedence < precedence
      ensures var j := NextNonError(old(cursor));
              TokenOperand(GetRule(old(current).kind).prefix) ==>
                (GetRule(TokenAt(j).kind).precedence < precedence ==> current == TokenAt(j)) &&
                (precedence <= GetRule(TokenAt(j).kind).precedence ==> PastToken(j))
      decreases Rank(), 0
    {
      Advance();
      var prefix := GetRule(previous.kind).prefix;
      if prefix == NoPrefix {
        ErrorAtPrevious(ExpectExpression);
        return;
      }
      LoopStopsAtEof(previous.kind, precedence);
      var canAssign := precedence <= PrecAssignment;
      ApplyPrefix(prefix, canAssign);
      ghost var after, r0 := current, Rank();
      while precedence <= GetRule(current.kind).precedence
        invariant Valid() && Extends() && Rank() < old(Rank())
        invariant GetRule(after.kind).precedence < precedence ==> current == after
        invariant Rank() < r0 || current == after
        decreases Rank()
      {
        LoopStopsAtEof(current.kind, precedence);
        Advance();
        var infix := GetRule(previous.kind).infix;
        if infix != NoInfix {
          ApplyInfix(infix, canAssign);
        }
      }
      if canAssign {
        AssignmentNeverLeftOver(current.kind, precedence);
        var assigning := MatchAssignment();
        if assigning {
          // "Invalid assignment target." cannot be reached: the loop above
          // has already taken every `=` and `is` as a binary operator.
          assert false;
        }
      }
    }

    /** Runs the prefix action `prefix` of the token just passed. */
    method ApplyPrefix(prefix: PrefixFn, canAssign: bool)
      requires Valid() && prefix != NoPrefix && prefix == GetRule(previous.kind).prefix
      modifies this`previous, this`current, this`cursor, this`reports, this`hadError, this`panicMode
      modifies this`code, this`lines, this`constants
      ensures Valid() && Extends()
      ensures TokenOperand(prefix) ==> unchanged(this`previous, this`current, this`cursor)
      decreases Rank(), 3
    {
      ActionOwners(previous.kind);
      match prefix
      case Grouping => CompileGrouping();
      case UnaryOp => CompileUnary();
      case Variable => CompileVariable(canAssign);
      case StringLiteral => CompileString();
      case NumberLiteral => CompileNumber();
      case Literal => CompileLiteral();
      case AskExpr => CompileAsk();
    }

    /** Runs the infix action `infix` of the operator just passed. */
    method ApplyInfix(infix: InfixFn, canAssign: bool)
      requires Valid() && infix != NoInfix && infix == GetRule(previous.kind).infix
      modifies this`previous, this`current, this`cursor, this`reports, this`hadError, this`panicMode
      modifies this`code, this`lines, this`constants
      ensures Valid() && Extends()
      decreases Rank(), 3
    {
      match infix
      case BinaryOp => CompileBinary();
      case AndOp => CompileAnd();
      case OrOp => CompileOr();
    }

    /** grouping: an expression, then the closing parenthesis. */
    method CompileGrouping()
      requires Valid()
      modifies this`previous, this`current, this`cursor, this`reports, this`hadError, this`panicMode
      modifies this`code, this`lines, this`constants
      ensures Valid() && Extends()
      decreases Rank(), 2
    {
      Expression();
      Consume(RightParen, "Expect ')' after expression");
    }

    /** unary: the operand at unary precedence, then the operator's opcode. */
    method CompileUnary()
      requires Valid()
      modifies this`previous, this`current, this`cursor, this`reports, this`hadError, this`panicMode
      modifies this`code, this`lines, this`constants
      ensures Valid() && Extends()
      ensures EndsWith(old(code), UnaryCode(old(previous).kind))
      ensures GetRule(old(current).kind).prefix != NoPrefix ==> GetRule(current.kind).precedence < PrecUnary
      ensures var j := NextNonError(old(cursor));
              TokenOperand(GetRule(old(current).kind).prefix) ==>
                (GetRule(TokenAt(j).kind).precedence < PrecUnary ==> current == TokenAt(j)) &&
                (PrecUnary <= GetRule(TokenAt(j).kind).precedence ==> PastToken(j))
      decreases Rank(), 2
    {
      var operatorType := previous.kind;
      ParsePrecedence(PrecUnary);
      EmitCode(UnaryCode(operatorType));
    }

    /** binary: the right operand one level above the operator's
        precedence, then the operator's opcodes; `=` and `is` emit none. */
    method CompileBinary()
      requires Valid()
      modifies this`previous, this`current, this`cursor, this`reports, this`hadError, this`panicMode
      modifies this`code, this`lines, this`constants
      ensures Valid() && Extends()
      ensures EndsWith(old(code), BinaryCode(old(previous).kind))
      ensures GetRule(old(current).kind).prefix != NoPrefix ==>
                GetRule(current.kind).precedence <= GetRule(old(previous).kind).precedence
      ensures var j := NextNonError(old(cursor));
              TokenOperand(GetRule(old(current).kind).prefix) ==>
                (GetRule(TokenAt(j).kind).precedence <= GetRule(old(previous).kind).precedence ==> current == TokenAt(j)) &&
                (GetRule(old(previous).kind).precedence < GetRule(TokenAt(j).kind).precedence ==> PastToken(j))
      decreases Rank(), 2
    {
      var operatorType := previous.kind;
      var rule := GetRule(operatorType);
      ParsePrecedence(rule.precedence + 1);
      EmitCode(BinaryCode(operatorType));
    }

    /** literal: one opcode for `false`, `null` and `true`. */
    method CompileLiteral()
      modifies this`code, this`lines
      ensures code == old(code) + LiteralCode(previous.kind)
      ensures |lines| == |old(lines)| + |LiteralCode(previous.kind)| && old(lines) <= lines
    {
      EmitCode(LiteralCode(previous.kind));
    }

    /** number: the number token's value as a new constant. */
    method CompileNumber()
      modifies this`code, this`lines, this`constants, this`reports, this`hadError, this`panicMode
      ensures constants == old(constants) + [Values.Number(numberValue(previous.lexeme))]
      ensures code == old(code) + [Op(OpConstant), Raw(ConstantIndex(|old(constants)|))]
      ensures lines == old(lines) + [previous.line, previous.line]
      ensures if |old(constants)| > Uint8Max then Reported(Report(previous, TooManyConstants)) else Quiet()
    {
      EmitConstant(Values.Number(numberValue(previous.lexeme)));
    }

    /** string: the string token's text without its quotes as a new
        constant. */
    method CompileString()
      requires previous.kind == String && SpansQuotes(previous)
      modifies this`code, this`lines, this`constants, this`reports, this`hadError, this`panicMode
      ensures constants == old(constants) + [Values.Obj(Unquoted(previous))]
      ensures code == old(code) + [Op(OpConstant), Raw(ConstantIndex(|old(constants)|))]
      ensures lines == old(lines) + [previous.line, previous.line]
      ensures if |old(constants)| > Uint8Max then Reported(Report(previous, TooManyConstants)) else Quiet()
    {
      EmitConstant(Values.Obj(Unquoted(previous)));
    }

    /** askExpression: a string token, whose text becomes a constant, then
        OP_ASK. When the string is missing, the text is cut from the token
        still in `previous`, the `ask` keyword itself. */
    method CompileAsk()
      requires Valid() && previous.kind == Ask
      modifies this`previous, this`current, this`cursor, this`reports, this`hadError, this`panicMode
      modifies this`code, this`lines, this`constants
      ensures Valid() && Extends()
      ensures old(current).kind == String ==> constants == old(constants) + [Values.Obj(Unquoted(old(current)))]
      ensures old(current).kind != String ==> constants == old(constants) + [Values.Obj(Unquoted(old(previous)))]
      ensures EndsWith(old(code), [Op(OpConstant), Raw(ConstantIndex(|old(constants)|)), Op(OpAsk)])
    {
      Consume(String, "Expect string after 'ask'.");
      EmitConstant(Values.Obj(Unquoted(previous)));
      EmitByte(Op(OpAsk));
    }

    /** and_: when the left operand is false, jump over the right one and
        keep the false on the stack; otherwise pop it and evaluate the right
        operand. */
    method CompileAnd()
      requires Valid()
      modifies this`previous, this`current, this`cursor, this`reports, this`hadError, this`panicMode
      modifies this`code, this`lines, this`constants
      ensures Valid() && Extends()
      ensures var at := |old(code)|;
              at + 4 <= |code| && code[at] == Op(OpJumpIfFalse) && code[at + 3] == Op(OpPop) &&
              Jumps(at + 1, |code|)
      ensures GetRule(old(current).kind).prefix != NoPrefix ==> GetRule(current.kind).precedence < PrecAnd
      ensures var j := NextNonError(old(cursor));
              TokenOperand(GetRule(old(current).kind).prefix) ==>
                (GetRule(TokenAt(j).kind).precedence < PrecAnd ==> current == TokenAt(j)) &&
                (PrecAnd <= GetRule(TokenAt(j).kind).precedence ==> PastToken(j))
      decreases Rank(), 2
    {
      var endJump := EmitJump(OpJumpIfFalse);
      EmitByte(Op(OpPop));
      ParsePrecedence(PrecAnd);
      PatchJump(endJump);
    }

    /** or_: when the left operand is false, jump to popping it and
        evaluating the right operand; otherwise jump over all of that and
        keep the left operand. */
    method CompileOr()
      requires Valid()
      modifies this`previous, this`current, this`cursor, this`reports, this`hadError, this`panicMode
      modifies this`code, this`lines, this`constants
      ensures Valid() && Extends()
      ensures var at := |old(code)|;
              at + 7 <= |code| && code[at] == Op(OpJumpIfFalse) && Jumps(at + 1, at + 6) &&
              code[at + 3] == Op(OpJump) && Jumps(at + 4, |code|) && code[at + 6] == Op(OpPop)
      ensures GetRule(old(current).kind).prefix != NoPrefix ==> GetRule(current.kind).precedence < PrecOr
      ensures var j := NextNonError(old(cursor));
              TokenOperand(GetRule(old(current).kind).prefix) ==>
                (GetRule(TokenAt(j).kind).precedence < PrecOr ==> current == TokenAt(j)) &&
                (PrecOr <= GetRule(TokenAt(j).kind).precedence ==> PastToken(j))
      decreases Rank(), 2
    {
      var elseJump := EmitJump(OpJumpIfFalse);
      var endJump := EmitJump(OpJump);
      PatchJump(elseJump);
      EmitByte(Op(OpPop));
      ParsePrecedence(PrecOr);
      PatchJump(endJump);
    }

    /** identifierConstant: the name's characters as a new constant. */
    method IdentifierConstant(name: Token) returns (index: Byte)
      modifies this`constants, this`reports, this`hadError, this`panicMode
      ensures constants == old(constants) + [Values.Obj(name.lexeme)]
      ensures index == ConstantIndex(|old(constants)|)
      ensures if |old(constants)| > Uint8Max then Reported(Report(previous, TooManyConstants)) else Quiet()
    {
      index := MakeConstant(Values.Obj(name.lexeme));
    }

    /** The first half of namedVariable: the operand and the get and set
        opcodes for `name`, a local slot when one matches, otherwise a new
        constant holding the name. */
    method ResolveName(name: Token) returns (arg: Byte, getOp: OpCode, setOp: OpCode)
      requires Valid()
      modifies this`constants, this`reports, this`hadError, this`panicMode
      ensures var slot := LastMatch(locals[..localCount], name);
              if 0 <= slot then
                arg == slot && getOp == OpGetLocal && setOp == OpSetLocal && constants == old(constants)
              else
                arg == ConstantIndex(|old(constants)|) && getOp == OpGetGlobal && setOp == OpSetGlobal &&
                constants == old(constants) + [Values.Obj(name.lexeme)]
      ensures hadError == (old(hadError) || |old(reports)| < |reports|) && |old(reports)| <= |reports|
    {
      var slot := ResolveLocal(name);
      if slot != -1 {
        return slot, OpGetLocal, OpSetLocal;
      }
      arg := IdentifierConstant(name);
      return arg, OpGetGlobal, OpSetGlobal;
    }

    /** variable and namedVariable: a local when one of that name is in
        scope (the innermost), a global otherwise, named by a new constant
        each time; read, or assigning when assignment is allowed and `=` or
        `is` follows. */
    method CompileVariable(canAssign: bool)
      requires Valid()
      modifies this`previous, this`current, this`cursor, this`reports, this`hadError, this`panicMode
      modifies this`code, this`lines, this`constants
      ensures Valid() && Extends()
      ensures var slot := LastMatch(locals[..localCount], old(previous));
              var assigning := canAssign && old(current).kind in {Equal, Is};
              var index := if 0 <= slot then slot else ConstantIndex(|old(constants)|);
              var instruction :=
                if 0 <= slot then (if assigning then OpSetLocal else OpGetLocal)
                else (if assigning then OpSetGlobal else OpGetGlobal);
              EndsWith(old(code), [Op(instruction), Raw(index)])
      decreases Rank(), 2
    {
      var arg, getOp, setOp := ResolveName(previous);
      var assigning := false;
      if canAssign {
        assigning := MatchAssignment();
      }
      if assigning {
        Expression();
      }
      var op := if assigning then setOp else getOp;
      EmitBytes(Op(op), Raw(arg));
    }

    /** parseVariable: the variable's name, declared as a local inside a
        scope (operand 0) or stored as a new constant at the top level.
        When the name is missing, consume leaves the previous token, which
        is then declared in its place. */
    method ParseVariable() returns (global: Byte)
      requires Valid() && 0 <= scopeDepth
      modifies this`previous, this`current, this`cursor, this`reports, this`hadError, this`panicMode
      modifies this`constants, locals, this`localCount
      ensures Valid() && |old(reports)| <= |reports| && hadError == (old(hadError) || |old(reports)| < |reports|)
      ensures Rank() <= old(Rank())
      ensures previous == if old(current).kind == Identifier then old(current) else old(previous)
      ensures scopeDepth == 0 ==>
                global == ConstantIndex(|old(constants)|) && constants == old(constants) + [Values.Obj(previous.lexeme)] &&
                localCount == old(localCount) && locals[..] == old(locals[..])
      ensures scopeDepth > 0 ==> global == 0 && constants == old(constants)
      ensures scopeDepth > 0 && old(localCount) < LocalsMax ==>
                localCount == old(localCount) + 1 &&
                locals[..] == old(locals[..])[old(localCount) := Local(previous, Uninitialized)]
      ensures scopeDepth > 0 && old(localCount) == LocalsMax ==>
                localCount == LocalsMax && locals[..] == old(locals[..])
    {
      Consume(Identifier, "Expect variable name.");
      DeclareVariable();
      if scopeDepth > 0 {
        return 0;
      }
      global := IdentifierConstant(previous);
    }

    /** defineVariable: a local becomes initialized in the current scope; a
        global is defined by OP_DEFINE_GLOBAL with the constant holding its
        name. */
    method DefineVariable(global: Byte)
      requires Valid() && (scopeDepth > 0 ==> 1 <= localCount)
      modifies locals, this`code, this`lines
      ensures scopeDepth > 0 ==>
                code == old(code) && lines == old(lines) &&
                locals[..] == old(locals[..])[localCount - 1 := old(locals[localCount - 1]).(depth := scopeDepth)]
      ensures scopeDepth <= 0 ==>
                code == old(code) + [Op(OpDefineGlobal), Raw(global)] &&
                lines == old(lines) + [previous.line, previous.line] && locals[..] == old(locals[..])
    {
      if scopeDepth > 0 {
        MarkInitialized();
        return;
      }
      EmitBytes(Op(OpDefineGlobal), Raw(global));
    }

    /** The optional initializer of a variable declaration: an expression
        after `=` or `is`, OP_NULL otherwise. */
    method Initializer()
      requires Valid()
      modifies this`previous, this`current, this`cursor, this`reports, this`hadError, this`panicMode
      modifies this`code, this`lines, this`constants
      ensures Valid() && Extends()
      ensures old(current).kind !in {Equal, Is} ==> code == old(code) + [Op(OpNull)]
      decreases Rank(), 2
    {
      var assigning := MatchAssignment();
      if assigning {
        Expression();
      } else {
        EmitByte(Op(OpNull));
      }
    }

    /** theDeclaration: `the name`, an optional initializer, then the
        variable is defined. Inside a scope the new local is on top of the
        stack and belongs to the current scope. */
    method TheDeclaration()
      requires Between()
      modifies this`previous, this`current, this`cursor, this`reports, this`hadError, this`panicMode
      modifies this`code, this`lines, this`constants, locals, this`localCount
      ensures Between() && StatementDone()
      ensures scopeDepth == 0 ==> EndsWith(old(code), [Op(OpDefineGlobal), Raw(ConstantIndex(|old(constants)|))])
      ensures scopeDepth > 0 && old(localCount) < LocalsMax ==>
                localCount == old(localCount) + 1 &&
                locals[old(localCount)] == Local(if old(current).kind == Identifier then old(current) else old(previous), scopeDepth)
      decreases Rank(), 3
    {
      var global := ParseVariable();
      ghost var name := previous;
      Initializer();
      DefineVariable(global);
      if scopeDepth == 0 {
        KeptNothing(locals[..], localCount, scopeDepth);
      }
      assert Kept(old(locals[..]), old(localCount), locals[..], localCount, scopeDepth);
      KeptOrdered(old(locals[..]), old(localCount), locals[..], localCount, scopeDepth);
    }

    /** expressionStatement: the expression, whose value is then popped. */
    method ExpressionStatement()
      requires Between()
      modifies this`previous, this`current, this`cursor, this`reports, this`hadError, this`panicMode
      modifies this`code, this`lines, this`constants
      ensures Between() && StatementDone() && Progressed()
      ensures EndsWith(old(code), [Op(OpPop)])
      decreases Rank(), 3
    {
      Expression();
      EmitByte(Op(OpPop));
      KeptNothing(locals[..], localCount, scopeDepth);
    }

    /** writeStatement: the expression, then OP_WRITE. */
    method WriteStatement()
      requires Between()
      modifies this`previous, this`current, this`cursor, this`reports, this`hadError, this`panicMode
      modifies this`code, this`lines, this`constants
      ensures Between() && StatementDone()
      ensures EndsWith(old(code), [Op(OpWrite)])
      decreases Rank(), 3
    {
      Expression();
      EmitByte(Op(OpWrite));
      KeptNothing(locals[..], localCount, scopeDepth);
    }

    /** Where synchronize stops, started with `previous` and `current`,
        the scanner at `cursor` and `reports` written so far: the first
        recovery point reached by advancing one token at a time, with the
        reports advance writes on the way appended. */
    function Resync(previous: Token, current: Token, cursor: nat, reports: seq<Report>): (r: Resynced)
      requires cursor <= |tokens|
      decreases |tokens| - cursor + (if current.kind == Eof then 0 else 1)
      ensures cursor <= r.cursor <= |tokens|
      ensures RecoveryPoint(r.previous, r.current)
      ensures reports <= r.reports
    {
      if RecoveryPoint(previous, current) then
        Resynced(previous, current, cursor, reports)
      else
        var j := NextNonError(cursor);
        Resync(current, TokenAt(j), if j < |tokens| then j + 1 else |tokens|, reports + ScanErrors(cursor, j))
    }

    /** The only reports written while resynchronizing are those of the
        error tokens skipped, one each, at the token itself. */
    lemma {:induction false} ResyncReportsScanErrors(previous: Token, current: Token, cursor: nat, reports: seq<Report>)
      requires cursor <= |tokens|
      decreases |tokens| - cursor + (if current.kind == Eof then 0 else 1)
      ensures var r := Resync(previous, current, cursor, reports);
              forall k :: |reports| <= k < |r.reports| ==>
                r.reports[k].at.kind == Error && r.reports[k].message == ScanError(r.reports[k].at.lexeme)
    {
      if !RecoveryPoint(previous, current) {
        var j := NextNonError(cursor);
        var written := reports + ScanErrors(cursor, j);
        ResyncReportsScanErrors(current, TokenAt(j), if j < |tokens| then j + 1 else |tokens|, written);
        var r := Resync(previous, current, cursor, reports);
        assert r == Resync(current, TokenAt(j), if j < |tokens| then j + 1 else |tokens|, written);
        forall k | |reports| <= k < |written|
          ensures r.reports[k].at.kind == Error && r.reports[k].message == ScanError(r.reports[k].at.lexeme)
        {
          assert r.reports[k] == written[k] == ScanErrors(cursor, j)[k - |reports|];
          assert TokenAt(cursor + (k - |reports|)).kind == Error;
        }
      }
    }

    /** synchronize: leaves panic mode, then skips tokens up to the first
        recovery point. Error tokens met on the way are reported, which
        puts the parser back into panic mode. */
    method Synchronize()
      requires Valid()
      modifies this`previous, this`current, this`cursor, this`reports, this`hadError, this`panicMode
      ensures Valid() && Rank() <= old(Rank())
      ensures Resynced(previous, current, cursor, reports) == Resync(old(previous), old(current), old(cursor), old(reports))
      ensures RecoveryPoint(previous, current)
      ensures hadError == (old(hadError) || |old(reports)| < |reports|)
      ensures panicMode == (|old(reports)| < |reports|)
    {
      panicMode := false;
      while current.kind != Eof
        invariant Valid() && Rank() <= old(Rank())
        invariant Resync(previous, current, cursor, reports) == Resync(old(previous), old(current), old(cursor), old(reports))
        invariant old(reports) <= reports
        invariant hadError == (old(hadError) || |old(reports)| < |reports|)
        invariant panicMode == (|old(reports)| < |reports|)
        decreases Rank()
      {
        if previous.kind == Newline {
          return;
        }
        if StartsStatement(current.kind) {
          return;
        }
        Advance();
      }
    }

    /** block: declarations up to the closing brace or the end of input,
        then the closing brace. It opens no scope of its own. */
    method Block()
      requires Between()
      modifies this`previous, this`current, this`cursor, this`reports, this`hadError, this`panicMode
      modifies this`code, this`lines, this`constants, locals, this`localCount, this`scopeDepth
      ensures Between() && StatementDone()
      decreases Rank(), 6
    {
      KeptNothing(locals[..], localCount, scopeDepth);
      while current.kind != RightBrace && current.kind != Eof
        invariant Between() && StatementDone()
        decreases Rank()
      {
        ghost var ls, n := locals[..], localCount;
        Declaration();
        KeptTrans(old(locals[..]), old(localCount), ls, n, locals[..], localCount, scopeDepth);
      }
      Consume(RightBrace, "Expect '}' after block.");
    }

    /** declaration: a variable declaration or a statement; a parser in
        panic mode afterwards synchronizes. */
    method Declaration()
      requires Between()
      modifies this`previous, this`current, this`cursor, this`reports, this`hadError, this`panicMode
      modifies this`code, this`lines, this`constants, locals, this`localCount, this`scopeDepth
      ensures Between() && StatementDone() && Progressed()
      decreases Rank(), 5
    {
      var isThe := Match(The);
      if isThe {
        TheDeclaration();
      } else {
        Statement();
      }
      if panicMode {
        Synchronize();
      }
    }

    /** statement: dispatches on the keyword it matches; a brace opens a
        block in a new scope; anything else is an expression statement. */
    method Statement()
      requires Between()
      modifies this`previous, this`current, this`cursor, this`reports, this`hadError, this`panicMode
      modifies this`code, this`lines, this`constants, locals, this`localCount, this`scopeDepth
      ensures Between() && StatementDone() && Progressed()
      decreases Rank(), 4
    {
      var matched := Match(Write);
      if matched {
        WriteStatement();
        return;
      }
      matched := Match(For);
      if matched {
        ghost var _, _, _, _, _, _, _ := ForStatement();
        return;
      }
      matched := Match(If);
      if matched {
        ghost var _, _ := IfStatement();
        return;
      }
      matched := Match(While);
      if matched {
        ghost var _ := WhileStatement();
        return;
      }
      matched := Match(LeftBrace);
      if matched {
        ghost var _, _ := ScopedBlock();
        return;
      }
      ExpressionStatement();
    }

    /** `{ ... }` as a statement: beginScope, block, endScope. The locals
        declared inside are popped again, one OP_POP each: `blockCode` is
        the code up to the end of the block and `declared` the locals of
        its scope. Opened with a free slot, the scope hands back exactly
        the locals it found. */
    method ScopedBlock() returns (ghost blockCode: seq<CodeByte>, ghost declared: seq<Local>)
      requires Between()
      modifies this`previous, this`current, this`cursor, this`reports, this`hadError, this`panicMode
      modifies this`code, this`lines, this`constants, locals, this`localCount, this`scopeDepth
      ensures Between() && StatementDone()
      ensures old(code) <= blockCode && code == WithCopies(blockCode, Op(OpPop), |declared|)
      ensures forall i :: 0 <= i < |declared| ==> declared[i].depth == old(scopeDepth) + 1
      ensures old(localCount) < LocalsMax ==>
                localCount == old(localCount) && locals[..localCount] == old(locals[..localCount])
      decreases Rank(), 7
    {
      BeginScope();
      Block();
      blockCode := code;
      ghost var inner := localCount;
      CloseScope(old(locals[..]), old(localCount));
      declared := locals[localCount..inner];
    }

    /** endScope after a scope whose statements kept the locals of the
        enclosing one: the stack is back to what it was before the scope,
        and every local dropped, with one OP_POP each, belongs to the
        scope that closed. */
    method CloseScope(ghost before: seq<Local>, ghost e: nat)
      requires Valid() && 0 <= scopeDepth - 1
      requires Kept(before, e, locals[..], localCount, scopeDepth)
      requires Ordered(before[..e], scopeDepth - 1)
      modifies this`scopeDepth, this`localCount, this`code, this`lines
      ensures Between() && scopeDepth == old(scopeDepth) - 1 && localCount <= old(localCount)
      ensures Kept(before, e, locals[..], localCount, scopeDepth)
      ensures code == WithCopies(old(code), Op(OpPop), old(localCount) - localCount)
      ensures lines == WithCopies(old(lines), previous.line, old(localCount) - localCount)
      ensures forall i :: localCount <= i < old(localCount) ==> locals[i].depth == old(scopeDepth)
      ensures e < LocalsMax ==> localCount == e && locals[..e] == before[..e]
    {
      ghost var ls, n := locals[..], localCount;
      assert ls[..n] == locals[..localCount];
      EndScope();
      assert locals[..] == ls && localCount == Surviving(ls[..n], scopeDepth);
      ScopeExit(before, e, ls, n, scopeDepth);
    }

    /** ifStatement: the condition, a conditional jump over the then-branch,
        and an unconditional jump over the else-branch. The condition is
        popped on both paths: right after the conditional jump, and at the
        start of the else-branch, where the conditional jump lands. */
    method IfStatement() returns (ghost thenJump: int, ghost elseJump: int)
      requires Between()
      modifies this`previous, this`current, this`cursor, this`reports, this`hadError, this`panicMode
      modifies this`code, this`lines, this`constants, locals, this`localCount, this`scopeDepth
      ensures Between() && StatementDone()
      ensures |old(code)| < thenJump && thenJump + 3 < elseJump && elseJump + 3 <= |code|
      ensures code[thenJump - 1] == Op(OpJumpIfFalse) && code[thenJump + 2] == Op(OpPop)
      ensures code[elseJump - 1] == Op(OpJump) && code[elseJump + 2] == Op(OpPop)
      ensures Jumps(thenJump, elseJump + 2) && Jumps(elseJump, |code|)
      decreases Rank(), 8
    {
      var thenAt := ConditionJump("Expect '{' before if body.");
      thenJump := thenAt;
      ghost var ls, n := locals[..], localCount;
      Block();
      var elseAt := ElseJump(thenAt);
      elseJump := elseAt;
      ghost var ls2, n2 := locals[..], localCount;
      ElseBranch();
      KeptTrans(ls, n, ls2, n2, locals[..], localCount, scopeDepth);
      PatchJump(elseAt);
    }

    /** The middle of ifStatement: a jump over the else-branch (its
        operand position is the result), the conditional jump at `thenAt`
        patched to land just after it, and a pop of the condition. */
    method ElseJump(thenAt: int) returns (elseAt: int)
      requires Valid() && 0 <= thenAt && thenAt + 2 <= |code|
      modifies this`code, this`lines, this`reports, this`hadError, this`panicMode
      ensures Valid() && |old(reports)| <= |reports| && hadError == (old(hadError) || |old(reports)| < |reports|)
      ensures elseAt == |old(code)| + 1 && |code| == |old(code)| + 4
      ensures code[elseAt - 1] == Op(OpJump) && code[elseAt + 2] == Op(OpPop) && Jumps(thenAt, elseAt + 2)
      ensures forall i :: 0 <= i < |old(code)| && i != thenAt && i != thenAt + 1 ==> code[i] == old(code)[i]
    {
      elseAt := EmitJump(OpJump);
      PatchJump(thenAt);
      EmitByte(Op(OpPop));
    }

    /** The optional `else { ... }` of ifStatement. */
    method ElseBranch()
      requires Between()
      modifies this`previous, this`current, this`cursor, this`reports, this`hadError, this`panicMode
      modifies this`code, this`lines, this`constants, locals, this`localCount, this`scopeDepth
      ensures Between() && StatementDone()
      decreases Rank(), 7
    {
      var hasElse := Match(Else);
      if hasElse {
        Consume(LeftBrace, "Expect '{' before else body.");
        Block();
      } else {
        KeptNothing(locals[..], localCount, scopeDepth);
      }
    }

    /** The head shared by ifStatement and whileStatement: the condition,
        a conditional jump (its operand position is the result) and a pop
        of the condition, then the opening brace of the body. */
    method ConditionJump(what: string) returns (jumpAt: int)
      requires Valid()
      modifies this`previous, this`current, this`cursor, this`reports, this`hadError, this`panicMode
      modifies this`code, this`lines, this`constants
      ensures Valid() && Extends()
      ensures |old(code)| < jumpAt && jumpAt + 3 == |code|
      ensures code[jumpAt - 1] == Op(OpJumpIfFalse) && code[jumpAt + 2] == Op(OpPop)
      decreases Rank(), 2
    {
      Expression();
      jumpAt := EmitJump(OpJumpIfFalse);
      EmitByte(Op(OpPop));
      Consume(LeftBrace, what);
    }

    /** The end of a loop: a loop back to `loopStart`, then, when there is
        an exit jump, the exit jump patched to land on a pop of the
        condition. Earlier code is left alone apart from that operand. */
    method LoopEnd(loopStart: nat, exitAt: int)
      requires Valid() && loopStart <= |code|
      requires exitAt != -1 ==> 0 <= exitAt && exitAt + 2 <= |code|
      modifies this`code, this`lines, this`reports, this`hadError, this`panicMode
      ensures Valid() && |old(reports)| <= |reports| && hadError == (old(hadError) || |old(reports)| < |reports|)
      ensures var n := |old(code)|;
              |code| == n + 3 + (if exitAt == -1 then 0 else 1) &&
              code[n] == Op(OpLoop) && Loops(n + 1, loopStart) &&
              (exitAt != -1 ==> Jumps(exitAt, n + 3) && code[n + 3] == Op(OpPop))
      ensures forall i :: 0 <= i < |old(code)| && (exitAt == -1 || (i != exitAt && i != exitAt + 1)) ==> code[i] == old(code)[i]
    {
      EmitLoop(loopStart);
      if exitAt != -1 {
        PatchJump(exitAt);
        EmitByte(Op(OpPop));
      }
    }

    /** whileStatement: the condition, a conditional jump out of the loop,
        the body, and a loop back to the condition. The condition is popped
        on both paths. */
    method WhileStatement() returns (ghost exitJump: int)
      requires Between()
      modifies this`previous, this`current, this`cursor, this`reports, this`hadError, this`panicMode
      modifies this`code, this`lines, this`constants, locals, this`localCount, this`scopeDepth
      ensures Between() && StatementDone()
      ensures |old(code)| < exitJump && exitJump + 7 <= |code|
      ensures code[exitJump - 1] == Op(OpJumpIfFalse) && code[exitJump + 2] == Op(OpPop)
      ensures code[|code| - 4] == Op(OpLoop) && Loops(|code| - 3, |old(code)|)
      ensures Jumps(exitJump, |code| - 1) && code[|code| - 1] == Op(OpPop)
      decreases Rank(), 8
    {
      var loopStart := |code|;
      var exitAt := ConditionJump("Expect '{' before while body.");
      exitJump := exitAt;
      Block();
      ghost var n := |code|;
      LoopEnd(loopStart, exitAt);
      assert |code| - 1 == n + 3;
    }

    /** The initializer clause of forStatement: a variable declaration
        ended by a comma, nothing (a lone comma), or an expression ended by
        a comma. */
    method ForInitializer()
      requires Between()
      modifies this`previous, this`current, this`cursor, this`reports, this`hadError, this`panicMode
      modifies this`code, this`lines, this`constants, locals, this`localCount
      ensures Between() && StatementDone()
      ensures old(current).kind != The ==> localCount == old(localCount) && locals[..] == old(locals[..])
      ensures var name := TokenAt(NextNonError(old(cursor)));
              old(current).kind == The && scopeDepth > 0 && old(localCount) < LocalsMax ==>
                localCount == old(localCount) + 1 &&
                locals[old(localCount)] == Local(if name.kind == Identifier then name else old(current), scopeDepth)
      decreases Rank(), 4
    {
      var isThe := Match(The);
      if isThe {
        ForVariable();
      } else {
        ForExpression();
        KeptNothing(locals[..], localCount, scopeDepth);
      }
    }

    /** An initializer clause that declares no variable: a lone comma, or an
        expression ended by a comma. */
    method ForExpression()
      requires Valid()
      modifies this`previous, this`current, this`cursor, this`reports, this`hadError, this`panicMode
      modifies this`code, this`lines, this`constants
      ensures Valid() && Extends() && Progressed()
      ensures old(current).kind == Comma ==> code == old(code) && previous == old(current)
      ensures old(current).kind != Comma ==>
                previous.kind == Comma || (|old(reports)| < |reports| && reports[|reports| - 1] == Report(current, Expected("Expect ',' after initializer.")))
      decreases Rank(), 2
    {
      var isComma := Match(Comma);
      if !isComma {
        Expression();
        Consume(Comma, "Expect ',' after initializer.");
      }
    }

    /** The variable declaration of a for initializer: as theDeclaration,
        but with the comma consumed before the variable is defined. */
    method ForVariable()
      requires Between()
      modifies this`previous, this`current, this`cursor, this`reports, this`hadError, this`panicMode
      modifies this`code, this`lines, this`constants, locals, this`localCount
      ensures Between() && StatementDone()
      ensures scopeDepth == 0 ==> EndsWith(old(code), [Op(OpDefineGlobal), Raw(ConstantIndex(|old(constants)|))])
      ensures scopeDepth > 0 && old(localCount) < LocalsMax ==>
                localCount == old(localCount) + 1 &&
                locals[old(localCount)] == Local(if old(current).kind == Identifier then old(current) else old(previous), scopeDepth)
      decreases Rank(), 3
    {
      var global := ParseVariable();
      Initializer();
      Consume(Comma, "Expect ',' after variable declaration.");
      DefineVariable(global);
      if scopeDepth == 0 {
        KeptNothing(locals[..], localCount, scopeDepth);
      }
      assert Kept(old(locals[..]), old(localCount), locals[..], localCount, scopeDepth);
      KeptOrdered(old(locals[..]), old(localCount), locals[..], localCount, scopeDepth);
    }

    /** The condition clause of forStatement and the jump to the body
        that follows it: when the clause is empty (a lone comma) there is
        no exit jump and `exitAt` is -1; otherwise the condition, a comma,
        a conditional jump out of the loop whose operand position is
        `exitAt`, and a pop of the condition. Then a jump whose operand
        position is `bodyAt`. */
    method ForCondition() returns (exitAt: int, bodyAt: int)
      requires Valid()
      modifies this`previous, this`current, this`cursor, this`reports, this`hadError, this`panicMode
      modifies this`code, this`lines, this`constants
      ensures Valid() && Extends()
      ensures |old(code)| < bodyAt && bodyAt + 2 == |code| && code[bodyAt - 1] == Op(OpJump)
      ensures exitAt == -1 <==> old(current).kind == Comma
      ensures exitAt == -1 ==> bodyAt == |old(code)| + 1
      ensures exitAt != -1 ==>
                |old(code)| < exitAt && exitAt + 4 == bodyAt &&
                code[exitAt - 1] == Op(OpJumpIfFalse) && code[exitAt + 2] == Op(OpPop)
      decreases Rank(), 3
    {
      var isComma := Match(Comma);
      if isComma {
        exitAt := -1;
      } else {
        exitAt := ForExit();
      }
      bodyAt := EmitJump(OpJump);
    }

    /** A condition clause that is not empty: the condition, a comma, a
        conditional jump out of the loop (its operand position is the
        result) and a pop of the condition. */
    method ForExit() returns (exitAt: int)
      requires Valid()
      modifies this`previous, this`current, this`cursor, this`reports, this`hadError, this`panicMode
      modifies this`code, this`lines, this`constants
      ensures Valid() && Extends()
      ensures |old(code)| < exitAt && exitAt + 3 == |code|
      ensures code[exitAt - 1] == Op(OpJumpIfFalse) && code[exitAt + 2] == Op(OpPop)
      decreases Rank(), 2
    {
      Expression();
      Consume(Comma, "Expect ',' after loop condition.");
      exitAt := EmitJump(OpJumpIfFalse);
      EmitByte(Op(OpPop));
    }

    /** The increment clause of forStatement: nothing (a lone comma), or an
        expression whose value is popped; then, when the clauses opened
        with a parenthesis, the closing one. */
    method ForIncrement(hasParentheses: bool)
      requires Valid()
      modifies this`previous, this`current, this`cursor, this`reports, this`hadError, this`panicMode
      modifies this`code, this`lines, this`constants
      ensures Valid() && Extends()
      ensures old(current).kind == Comma ==> code == old(code)
      ensures old(current).kind != Comma ==> EndsWith(old(code), [Op(OpPop)])
      decreases Rank(), 2
    {
      var isComma := Match(Comma);
      if !isComma {
        Expression();
        EmitByte(Op(OpPop));
      }
      if hasParentheses {
        Consume(RightParen, "Expect ')' after for clauses.");
      }
    }

    /** forStatement, in a scope of its own: the initializer, then the
        loop, then one pop for each local the scope declared (`declared`).
        The clauses may be enclosed in parentheses, and only then is the
        closing one consumed. Opened with a free slot, the scope hands back
        exactly the locals it found. */
    method ForStatement() returns (ghost loopStart: int, ghost exitJump: int, ghost bodyJump: int,
                                   ghost bodyStart: int, ghost backLoop: int, ghost loopCode: seq<CodeByte>,
                                   ghost declared: seq<Local>)
      requires Between()
      modifies this`previous, this`current, this`cursor, this`reports, this`hadError, this`panicMode
      modifies this`code, this`lines, this`constants, locals, this`localCount, this`scopeDepth
      ensures Between() && StatementDone()
      ensures |old(code)| <= loopStart && ForLayout(loopCode, loopStart, exitJump, bodyJump, bodyStart, backLoop)
      ensures ForFits(loopStart, exitJump, bodyJump, bodyStart, backLoop) || hadError
      ensures code == WithCopies(loopCode, Op(OpPop), |declared|)
      ensures forall i :: 0 <= i < |declared| ==> declared[i].depth == old(scopeDepth) + 1
      ensures old(localCount) < LocalsMax ==>
                localCount == old(localCount) && locals[..localCount] == old(locals[..localCount])
      decreases Rank(), 10
    {
      BeginScope();
      ghost var ls, n := locals[..], localCount;
      loopStart, exitJump, bodyJump, bodyStart, backLoop := ForScope();
      loopCode := code;
      ghost var inner := localCount;
      CloseScope(ls, n);
      declared := locals[localCount..inner];
    }

    /** What forStatement compiles inside its scope: the optional opening
        parenthesis, the initializer and the loop. */
    method ForScope() returns (ghost loopStart: int, ghost exitJump: int, ghost bodyJump: int,
                               ghost bodyStart: int, ghost backLoop: int)
      requires Between()
      modifies this`previous, this`current, this`cursor, this`reports, this`hadError, this`panicMode
      modifies this`code, this`lines, this`constants, locals, this`localCount, this`scopeDepth
      ensures Between() && StatementDone()
      ensures |old(code)| <= loopStart && ForLayout(code, loopStart, exitJump, bodyJump, bodyStart, backLoop)
      ensures ForFits(loopStart, exitJump, bodyJump, bodyStart, backLoop) || hadError
      decreases Rank(), 9
    {
      var hasParentheses := Match(LeftParen);
      ghost var ls, n := locals[..], localCount;
      ForInitializer();
      loopStart := |code|;
      ghost var ls2, n2 := locals[..], localCount;
      exitJump, bodyJump, bodyStart, backLoop := ForLoop(hasParentheses);
      KeptTrans(ls, n, ls2, n2, locals[..], localCount, scopeDepth);
    }

    /** The loop of forStatement after its initializer, with the code laid
        out as ForLayout says from where it starts. */
    method ForLoop(hasParentheses: bool) returns (ghost exitJump: int, ghost bodyJump: int, ghost bodyStart: int, ghost backLoop: int)
      requires Between()
      modifies this`previous, this`current, this`cursor, this`reports, this`hadError, this`panicMode
      modifies this`code, this`lines, this`constants, locals, this`localCount, this`scopeDepth
      ensures Between() && StatementDone()
      ensures ForLayout(code, |old(code)|, exitJump, bodyJump, bodyStart, backLoop)
      ensures ForFits(|old(code)|, exitJump, bodyJump, bodyStart, backLoop) || hadError
      decreases Rank(), 8
    {
      var exitAt, bodyAt := ForClauses(hasParentheses);
      exitJump, bodyJump, bodyStart := exitAt, bodyAt, |code|;
      ghost var c1 := code;
      ForBody();
      backLoop := |code| + 1;
      ForEnd(c1, |old(code)|, exitAt, bodyAt);
    }

    /** The end of forStatement's loop, after the body: the loop back to
        the increment and, when there is a condition, the exit jump patched
        to land on a pop of it. With the clauses `c1` before the body, the
        whole loop is then laid out as ForLayout says. */
    method ForEnd(ghost c1: seq<CodeByte>, ghost loopStart: int, exitAt: int, bodyAt: int)
      requires Valid() && ClausesLayout(c1, loopStart, exitAt, bodyAt) && c1 <= code
      requires |c1| - bodyAt - 2 > Uint16Max || |c1| - loopStart > Uint16Max ==> hadError
      modifies this`code, this`lines, this`reports, this`hadError, this`panicMode
      ensures Valid() && |old(reports)| <= |reports| && hadError == (old(hadError) || |old(reports)| < |reports|)
      ensures old(code)[..loopStart] <= code
      ensures ForLayout(code, loopStart, exitAt, bodyAt, |c1|, |old(code)| + 1)
      ensures ForFits(loopStart, exitAt, bodyAt, |c1|, |old(code)| + 1) || hadError
    {
      ghost var c2 := code;
      LoopEnd(bodyAt + 2, exitAt);
      ForLayoutFromStages(c1, c2, code, loopStart, exitAt, bodyAt);
    }

    /** The body of forStatement: its opening brace, then a block. */
    method ForBody()
      requires Between()
      modifies this`previous, this`current, this`cursor, this`reports, this`hadError, this`panicMode
      modifies this`code, this`lines, this`constants, locals, this`localCount, this`scopeDepth
      ensures Between() && StatementDone()
      decreases Rank(), 7
    {
      Consume(LeftBrace, "Expect '{' before loop body.");
      Block();
    }

    /** The clauses of forStatement after the initializer: the condition,
        a jump to the body (its operand position is `bodyAt`), the
        increment, the closing parenthesis when the clauses opened with
        one, and a loop back to the condition; the jump to the body lands
        just after that. */
    method ForClauses(hasParentheses: bool) returns (exitAt: int, bodyAt: int)
      requires Valid()
      modifies this`previous, this`current, this`cursor, this`reports, this`hadError, this`panicMode
      modifies this`code, this`lines, this`constants
      ensures Valid() && Extends()
      ensures ClausesLayout(code, |old(code)|, exitAt, bodyAt)
      ensures |code| - bodyAt - 2 > Uint16Max || |code| - |old(code)| > Uint16Max ==> hadError
      decreases Rank(), 4
    {
      var loopStart := |code|;
      exitAt, bodyAt := ForCondition();
      ForIncrement(hasParentheses);
      ghost var n := |code|;
      LoopOverIncrement(loopStart, bodyAt);
      assert |code| - 2 == n + 1 && loopStart == |old(code)|;
    }

    /** The end of the increment clause: a loop back to the condition at
        `loopStart`, and the jump at `bodyAt` patched to land just after
        it. Earlier code is left alone apart from that operand. */
    method LoopOverIncrement(loopStart: nat, bodyAt: int)
      requires Valid() && loopStart <= |code| && 0 <= bodyAt && bodyAt + 2 <= |code|
      modifies this`code, this`lines, this`reports, this`hadError, this`panicMode
      ensures Valid() && |old(reports)| <= |reports| && hadError == (old(hadError) || |old(reports)| < |reports|)
      ensures var n := |old(code)|;
              |code| == n + 3 && code[n] == Op(OpLoop) && Loops(n + 1, loopStart) && Jumps(bodyAt, n + 3)
      ensures forall i :: 0 <= i < |old(code)| && i != bodyAt && i != bodyAt + 1 ==> code[i] == old(code)[i]
    {
      EmitLoop(loopStart);
      PatchJump(bodyAt);
    }

    /** initScanner: the scanner starts again at the first token. */
    method InitScanner()
      modifies this`cursor
      ensures cursor == 0
    {
      cursor := 0;
    }

    /** initCompiler: no locals, at the top level. */
    method InitCompiler()
      modifies this`localCount, this`scopeDepth
      ensures localCount == 0 && scopeDepth == 0
    {
      localCount := 0;
      scopeDepth := 0;
    }

    /** compile: restarts the scanner at the first token, starts a fresh
        compiler and clears both flags, compiles declarations up to the end
        of input, then ends the chunk with OP_RETURN. The result is true
        exactly when nothing was reported. */
    method Compile() returns (ok: bool)
      requires Valid()
      modifies this`previous, this`current, this`cursor, this`reports, this`hadError, this`panicMode
      modifies this`code, this`lines, this`constants, locals, this`localCount, this`scopeDepth
      ensures Valid() && old(code) <= code && |old(reports)| <= |reports|
      ensures ok == !hadError
      ensures ok <==> |reports| == |old(reports)|
      ensures |old(code)| < |code| && code[|code| - 1] == Op(OpReturn)
      ensures previous.kind == Eof && scopeDepth == 0 && localCount == 0
      ensures |old(reports)| + NextNonError(0) <= |reports|
      ensures NextNonError(0) > 0 ==> !ok
    {
      InitScanner();
      InitCompiler();
      hadError := false;
      panicMode := false;
      Advance();
      assert hadError == (|old(reports)| < |reports|) && old(code) == code;
      Declarations();
      LocalsNeedScope(locals[..localCount], scopeDepth);
      EmitReturn();
      return !hadError;
    }

    /** The loop of compile: declarations until the end of input is
        matched. */
    method Declarations()
      requires Between()
      modifies this`previous, this`current, this`cursor, this`reports, this`hadError, this`panicMode
      modifies this`code, this`lines, this`constants, locals, this`localCount, this`scopeDepth
      ensures Between() && StatementDone() && previous.kind == Eof
    {
      KeptNothing(locals[..], localCount, scopeDepth);
      var atEnd := Match(Eof);
      while !atEnd
        invariant Between() && StatementDone()
        invariant atEnd ==> previous.kind == Eof
        invariant !atEnd ==> current.kind != Eof
        decreases Rank()
      {
        ghost var ls, n := locals[..], localCount;
        Declaration();
        KeptTrans(old(locals[..]), old(localCount), ls, n, locals[..], localCount, scopeDepth);
        atEnd := Match(Eof);
      }
    }
  }
}
