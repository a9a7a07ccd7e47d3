/** The structure of the listing that PrintAnalysisResult writes
    (evmdis/main.go:97-128): which instructions get a line, at which byte
    offset, and whether the expression is wrapped as `PUSH(...)`. */
module Listing {
  import opened Evm

  datatype PrintKind = PushWrapped | Bare

  /** One printed instruction line: its offset, the position of the
      instruction in its block and the print form chosen. */
  datatype Line = Line(offset: nat, position: nat, kind: PrintKind)

  /** What is printed for one block: the jump label line when the block has
      one, then one line per printed instruction. The stack prestate comment
      is printed for every block. */
  datatype BlockListing = BlockListing(labelled: bool, lines: seq<Line>)

  /** Bytes occupied by a run of instructions: opcode byte plus immediates. */
  function Width(s: seq<Instruction>): nat
  {
    if s == [] then 0 else Width(s[..|s| - 1]) + s[|s| - 1].operandSize + 1
  }

  /** The offset of the k-th instruction of a block. */
  function InstructionOffset(b: Block, k: nat): nat
    requires k <= |b.instructions|
  {
    b.offset + Width(b.instructions[..k])
  }

  function KindOf(ins: Instruction): PrintKind
  {
    if ins.stackWrites == 1 && !ins.isDup then PushWrapped else Bare
  }

  /** The lines for the first n instructions of a block. */
  function LinesUpTo(b: Block, n: nat): seq<Line>
    requires n <= |b.instructions|
  {
    if n == 0 then []
    else
      var ins := b.instructions[n - 1];
      LinesUpTo(b, n - 1) + if ins.hasExpression then [Line(InstructionOffset(b, n - 1), n - 1, KindOf(ins))] else []
  }

  function ListBlock(b: Block): BlockListing
  {
    BlockListing(b.hasLabel, LinesUpTo(b, |b.instructions|))
  }

  /** The listing of a whole program, block by block. */
  function ListBlocks(blocks: seq<Block>): seq<BlockListing>
  {
    if blocks == [] then [] else ListBlocks(blocks[..|blocks| - 1]) + [ListBlock(blocks[|blocks| - 1])]
  }

  /** The driver's loops: per block, an offset accumulator that starts at the
      block offset and advances by OperandSize()+1 after every instruction. */
  method PrintAnalysisResult(program: Program) returns (out: seq<BlockListing>)
    ensures out == ListBlocks(program.blocks)
  {
    out := [];
    var bi := 0;
    while bi < |program.blocks|
      invariant 0 <= bi <= |program.blocks|
      invariant out == ListBlocks(program.blocks[..bi])
    {
      var block := program.blocks[bi];
      var offset := block.offset;
      var lines := [];
      var k := 0;
      while k < |block.instructions|
        invariant 0 <= k <= |block.instructions|
        invariant offset == InstructionOffset(block, k)
        invariant lines == LinesUpTo(block, k)
      {
        var instruction := block.instructions[k];
        if instruction.hasExpression {
          if instruction.stackWrites == 1 && !instruction.isDup {
            lines := lines + [Line(offset, k, PushWrapped)];
          } else {
            lines := lines + [Line(offset, k, Bare)];
          }
        }
        assert block.instructions[..k + 1][..k] == block.instructions[..k];
        offset := offset + instruction.operandSize + 1;
        k := k + 1;
      }
      out := out + [BlockListing(block.hasLabel, lines)];
      assert program.blocks[..bi + 1][..bi] == program.blocks[..bi];
      bi := bi + 1;
    }
    assert program.blocks[..bi] == program.blocks;
  }

  /** The listing has one entry per block, in block order. */
  lemma {:induction false} ListBlocksAt(blocks: seq<Block>, j: nat)
    requires j < |blocks|
    ensures |ListBlocks(blocks)| == |blocks|
    ensures ListBlocks(blocks)[j] == ListBlock(blocks[j])
  {
    if j < |blocks| - 1 {
      ListBlocksAt(blocks[..|blocks| - 1], j);
    } else if |blocks| > 1 {
      ListBlocksAt(blocks[..|blocks| - 1], 0);
    }
  }

  /** Each instruction advances the offset by its operand size plus one. */
  lemma NextOffset(b: Block, k: nat)
    requires k < |b.instructions|
    ensures InstructionOffset(b, k + 1) == InstructionOffset(b, k) + b.instructions[k].operandSize + 1
  {
    assert b.instructions[..k + 1][..k] == b.instructions[..k];
  }

  /** Offsets within a block are strictly increasing, by at least one byte
      per instruction. */
  lemma {:induction false} OffsetsIncrease(b: Block, j: nat, k: nat)
    requires j <= k <= |b.instructions|
    ensures InstructionOffset(b, j) + (k - j) <= InstructionOffset(b, k)
  {
    if j < k {
      OffsetsIncrease(b, j, k - 1);
      NextOffset(b, k - 1);
    }
  }

  /** Every line belongs to an instruction that has an expression, stands at
      that instruction's offset and uses the print form its opcode selects. */
  lemma {:induction false} LinesAreFaithful(b: Block, n: nat, i: nat)
    requires n <= |b.instructions|
    requires i < |LinesUpTo(b, n)|
    ensures var line := LinesUpTo(b, n)[i];
            line.position < n && b.instructions[line.position].hasExpression &&
            line.offset == InstructionOffset(b, line.position) &&
            line.kind == KindOf(b.instructions[line.position])
  {
    if i < |LinesUpTo(b, n - 1)| {
      LinesAreFaithful(b, n - 1, i);
    }
  }

  /** Every instruction that has an expression is printed. */
  lemma {:induction false} ExpressionsArePrinted(b: Block, n: nat, k: nat)
    requires k < n <= |b.instructions|
    requires b.instructions[k].hasExpression
    ensures exists i :: 0 <= i < |LinesUpTo(b, n)| && LinesUpTo(b, n)[i].position == k
  {
    var prefix := LinesUpTo(b, n - 1);
    if k == n - 1 {
      assert LinesUpTo(b, n)[|prefix|].position == k;
    } else {
      ExpressionsArePrinted(b, n - 1, k);
      var i :| 0 <= i < |prefix| && prefix[i].position == k;
      assert LinesUpTo(b, n)[i] == prefix[i];
    }
  }

  /** Lines come in instruction order, so both their positions and their
      offsets strictly increase. */
  lemma {:induction false} LinesOrdered(b: Block, n: nat, i: nat, j: nat)
    requires n <= |b.instructions|
    requires i < j < |LinesUpTo(b, n)|
    ensures LinesUpTo(b, n)[i].position < LinesUpTo(b, n)[j].position
    ensures LinesUpTo(b, n)[i].offset < LinesUpTo(b, n)[j].offset
  {
    var prefix := LinesUpTo(b, n - 1);
    if j < |prefix| {
      LinesOrdered(b, n - 1, i, j);
    } else {
      LinesAreFaithful(b, n - 1, i);
      OffsetsIncrease(b, prefix[i].position, n - 1);
    }
  }
}
