/** Locating the start of the runtime code inside constructor bytecode
    (FindNextCodeEntryPoint, evmdis/main.go:77-95). */
module EntryPoint {
  import opened Base
  import opened Evm

  /** A CODECOPY whose second argument (the source offset in the code)
      evaluates to a constant. */
  predicate IsConstantCopy(ins: Instruction)
  {
    ins.isCodecopy && ins.copyOffset.Some?
  }

  /** The reference definition: the constant source offset of the last
      constant CODECOPY of the instruction stream, 0 when there is none. */
  function LastCopyOffset(s: seq<Instruction>): u64
  {
    if s == [] then 0
    else if IsConstantCopy(s[|s| - 1]) then s[|s| - 1].copyOffset.value
    else LastCopyOffset(s[..|s| - 1])
  }

  /** The driver's loop over every block and every instruction, keeping the
      last constant CODECOPY offset seen. */
  method FindNextCodeEntryPoint(program: Program) returns (lastPos: u64)
    ensures lastPos == LastCopyOffset(Flatten(program.blocks))
  {
    lastPos := 0;
    var bi := 0;
    while bi < |program.blocks|
      invariant 0 <= bi <= |program.blocks|
      invariant lastPos == LastCopyOffset(Flatten(program.blocks[..bi]))
    {
      var block := program.blocks[bi];
      ghost var before := Flatten(program.blocks[..bi]);
      var ii := 0;
      assert before + block.instructions[..ii] == before;
      while ii < |block.instructions|
        invariant 0 <= ii <= |block.instructions|
        invariant lastPos == LastCopyOffset(before + block.instructions[..ii])
      {
        var instruction := block.instructions[ii];
        assert (before + block.instructions[..ii + 1])[..|before| + ii] == before + block.instructions[..ii];
        if instruction.isCodecopy {
          var arg := instruction.copyOffset;
          if arg.Some? {
            lastPos := arg.value;
          }
        }
        ii := ii + 1;
      }
      assert program.blocks[..bi + 1][..bi] == program.blocks[..bi];
      assert block.instructions[..ii] == block.instructions;
      bi := bi + 1;
    }
    assert program.blocks[..bi] == program.blocks;
  }

  /** With no constant CODECOPY at all the entry point is 0. */
  lemma {:induction false} NoConstantCopyGivesZero(s: seq<Instruction>)
    requires forall j :: 0 <= j < |s| ==> !IsConstantCopy(s[j])
    ensures LastCopyOffset(s) == 0
  {
    if s != [] {
      NoConstantCopyGivesZero(s[..|s| - 1]);
    }
  }

  /** The entry point is the offset of the last constant CODECOPY: later
      CODECOPYs whose argument does not evaluate do not reset it. */
  lemma {:induction false} LastConstantCopyWins(s: seq<Instruction>, i: nat)
    requires i < |s| && IsConstantCopy(s[i])
    requires forall j :: i < j < |s| ==> !IsConstantCopy(s[j])
    ensures LastCopyOffset(s) == s[i].copyOffset.value
  {
    if i < |s| - 1 {
      LastConstantCopyWins(s[..|s| - 1], i);
    }
  }

  /** Conversely, a non-zero entry point is the offset of some constant
      CODECOPY after which no constant CODECOPY follows. */
  lemma {:induction false} EntryPointComesFromLastCopy(s: seq<Instruction>)
    requires LastCopyOffset(s) != 0
    ensures exists i :: 0 <= i < |s| && IsConstantCopy(s[i]) && s[i].copyOffset.value == LastCopyOffset(s) &&
                        forall j :: i < j < |s| ==> !IsConstantCopy(s[j])
  {
    if !IsConstantCopy(s[|s| - 1]) {
      var t := s[..|s| - 1];
      EntryPointComesFromLastCopy(t);
      var i :| 0 <= i < |t| && IsConstantCopy(t[i]) && t[i].copyOffset.value == LastCopyOffset(t) &&
               forall j :: i < j < |t| ==> !IsConstantCopy(t[j]);
      assert s[i] == t[i];
    }
  }

  /** Instructions that are not constant CODECOPYs, appended anywhere after
      the last constant one, leave the entry point unchanged. */
  lemma {:induction false} AppendWithoutCopy(a: seq<Instruction>, b: seq<Instruction>)
    requires forall j :: 0 <= j < |b| ==> !IsConstantCopy(b[j])
    ensures LastCopyOffset(a + b) == LastCopyOffset(a)
  {
    if b == [] {
      assert a + b == a;
    } else {
      var c := b[..|b| - 1];
      assert (a + b)[..|a + b| - 1] == a + c;
      assert (a + b)[|a + b| - 1] == b[|b| - 1];
      AppendWithoutCopy(a, c);
    }
  }

  /** A constant CODECOPY in a later part of the stream overrides everything
      before it. */
  lemma {:induction false} LaterCopyOverrides(a: seq<Instruction>, b: seq<Instruction>, i: nat)
    requires i < |b| && IsConstantCopy(b[i])
    ensures LastCopyOffset(a + b) == LastCopyOffset(b)
  {
    if IsConstantCopy(b[|b| - 1]) {
    } else {
      var c := b[..|b| - 1];
      assert (a + b)[..|a + b| - 1] == a + c;
      assert b[i] == c[i];
      LaterCopyOverrides(a, c, i);
    }
  }

  /** An instruction that is not a CODECOPY never affects the entry point,
      wherever it is inserted. */
  lemma InsertNonCopy(a: seq<Instruction>, x: Instruction, b: seq<Instruction>)
    requires !x.isCodecopy
    ensures LastCopyOffset(a + [x] + b) == LastCopyOffset(a + b)
  {
    if i :| 0 <= i < |b| && IsConstantCopy(b[i]) {
      LaterCopyOverrides(a + [x], b, i);
      LaterCopyOverrides(a, b, i);
    } else {
      AppendWithoutCopy(a + [x], b);
      AppendWithoutCopy(a, b);
      assert (a + [x])[..|a|] == a;
    }
  }
}
