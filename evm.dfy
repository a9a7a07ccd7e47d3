/** The driver's view of the analysis library's program representation.
    Each instruction is reduced to the attributes the driver reads from its
    opcode and from the annotations the analysis passes attached to it. */
module Evm {
  import opened Base

  datatype Instruction = Instruction(
    operandSize: nat,        // Op.OperandSize(): immediate bytes after the opcode byte
    stackWrites: nat,        // Op.StackWrites(): values pushed
    isDup: bool,             // Op.IsDup()
    isCodecopy: bool,        // Op == CODECOPY
    hasExpression: bool,     // an Expression annotation is attached
    copyOffset: Option<u64>  // Eval() of the second argument of its expression (read for CODECOPY only)
  )

  datatype Block = Block(
    offset: nat,                     // byte position of the first instruction
    hasLabel: bool,                  // a JumpLabel annotation is attached
    instructions: seq<Instruction>
  )

  datatype Program = Program(blocks: seq<Block>)

  /** The instructions of all blocks, in block order. */
  function Flatten(blocks: seq<Block>): seq<Instruction>
  {
    if blocks == [] then [] else Flatten(blocks[..|blocks| - 1]) + blocks[|blocks| - 1].instructions
  }
}
