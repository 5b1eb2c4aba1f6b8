/** The bytecode vocabulary the compiler writes into a chunk: opcodes, the
    raw operand bytes that follow them, and the 16-bit big-endian encoding
    of jump distances. The numeric values of the opcodes live in a header
    that is not part of this model, so an opcode byte is kept symbolic. */
module Bytecode {

  type Byte = x: int | 0 <= x < 256

  const Uint8Max := 255
  const Uint16Max := 65535

  datatype OpCode =
    | OpConstant | OpNull | OpTrue | OpFalse | OpPop
    | OpGetLocal | OpSetLocal | OpGetGlobal | OpDefineGlobal | OpSetGlobal
    | OpEqual | OpGreater | OpLess | OpAdd | OpSubtract | OpMultiply | OpDivide
    | OpNot | OpNegate | OpWrite | OpAsk
    | OpJump | OpJumpIfFalse | OpLoop | OpReturn

  /** One byte of the code stream: an opcode or a raw operand byte. */
  datatype CodeByte = Op(op: OpCode) | Raw(value: Byte)

  /** `(n >> 8) & 0xff` for a non-negative n. */
  function High(n: nat): Byte { (n / 256) % 256 }

  /** `n & 0xff` for a non-negative n. */
  function Low(n: nat): Byte { n % 256 }

  /** The two operand bytes written for a distance n. */
  function Encode16(n: nat): (s: seq<CodeByte>)
    ensures |s| == 2 && s[0].Raw? && s[1].Raw?
  {
    [Raw(High(n)), Raw(Low(n))]
  }

  /** What the VM reads back from two operand bytes: `(hi << 8) | lo`. */
  function Decode16(hi: Byte, lo: Byte): (n: nat)
    ensures n <= Uint16Max
  {
    hi * 256 + lo
  }

  /** Encoding keeps exactly the low 16 bits of the distance; in particular
      every distance that fits in 16 bits is read back unchanged. */
  lemma {:induction false} DecodeEncode(n: nat)
    ensures Decode16(High(n), Low(n)) == n % 65536
    ensures n <= Uint16Max ==> Decode16(High(n), Low(n)) == n
  {
    var q := n / 256;
    assert n == q * 256 + n % 256;
    assert q == (q / 256) * 256 + q % 256;
    assert n == (q / 256) * 65536 + (q % 256) * 256 + n % 256;
    assert (q % 256) * 256 + n % 256 < 65536;
  }

  /** Two distances that fit in 16 bits are told apart by their encodings. */
  lemma EncodeInjective(m: nat, n: nat)
    requires m <= Uint16Max && n <= Uint16Max
    requires Encode16(m) == Encode16(n)
    ensures m == n
  {
    DecodeEncode(m);
    DecodeEncode(n);
  }

  /** The operand bytes at `at` and `at + 1` are raw bytes. */
  ghost predicate HasOperand(code: seq<CodeByte>, at: int)
  {
    0 <= at && at + 1 < |code| && code[at].Raw? && code[at + 1].Raw?
  }

  /** Where a forward jump whose operand starts at `at` lands: just past
      the operand, plus the decoded distance. */
  function JumpTarget(code: seq<CodeByte>, at: int): int
    requires HasOperand(code, at)
  {
    at + 2 + Decode16(code[at].value, code[at + 1].value)
  }

  /** Where a backward loop whose operand starts at `at` lands: just past
      the operand, minus the decoded distance. */
  function LoopTarget(code: seq<CodeByte>, at: int): int
    requires HasOperand(code, at)
  {
    at + 2 - Decode16(code[at].value, code[at + 1].value)
  }

  /** `s` followed by `count` copies of `x`, as a loop that appends one at a
      time writes them. */
  function WithCopies<T>(s: seq<T>, x: T, count: nat): (r: seq<T>)
    ensures |r| == |s| + count && s <= r
    ensures forall i :: |s| <= i < |r| ==> r[i] == x
  {
    if count == 0 then s else WithCopies(s, x, count - 1) + [x]
  }

  /** The operand at `at` holds the distance of a forward jump to `target`,
      cut to its low 16 bits. */
  ghost predicate JumpsTo(code: seq<CodeByte>, at: int, target: int)
  {
    HasOperand(code, at) && at + 2 <= target &&
    code[at] == Raw(High(target - at - 2)) && code[at + 1] == Raw(Low(target - at - 2))
  }

  /** The operand at `at` holds the distance of a backward loop to `target`,
      cut to its low 16 bits. */
  ghost predicate LoopsTo(code: seq<CodeByte>, at: int, target: int)
  {
    HasOperand(code, at) && target <= at + 2 &&
    code[at] == Raw(High(at + 2 - target)) && code[at + 1] == Raw(Low(at + 2 - target))
  }

  /** A forward jump whose distance fits in 16 bits lands on its target. */
  lemma JumpLands(code: seq<CodeByte>, at: int, target: int)
    requires JumpsTo(code, at, target) && target - at - 2 <= Uint16Max
    ensures JumpTarget(code, at) == target
  {
    DecodeEncode(target - at - 2);
  }

  /** A backward loop whose distance fits in 16 bits lands on its target. */
  lemma LoopLands(code: seq<CodeByte>, at: int, target: int)
    requires LoopsTo(code, at, target) && at + 2 - target <= Uint16Max
    ensures LoopTarget(code, at) == target
  {
    DecodeEncode(at + 2 - target);
  }

  /** Appending code, or patching code past an operand, leaves the operand
      and what it says alone. */
  lemma OperandsStay(code: seq<CodeByte>, longer: seq<CodeByte>, at: int, target: int)
    requires HasOperand(code, at) && |code| <= |longer| && code[at..at + 2] == longer[at..at + 2]
    ensures JumpsTo(code, at, target) ==> JumpsTo(longer, at, target)
    ensures LoopsTo(code, at, target) ==> LoopsTo(longer, at, target)
  {
    assert longer[at] == code[at] && longer[at + 1] == code[at + 1] by {
      assert code[at..at + 2][0] == code[at] && code[at..at + 2][1] == code[at + 1];
      assert longer[at..at + 2][0] == longer[at] && longer[at..at + 2][1] == longer[at + 1];
    }
  }
}
