/** The command-line driver `main` (evmdis/main.go:18-75) and AnalyzeProgram
    (evmdis/main.go:130-139), with the analysis library passed in as a
    function from a byte buffer to an analysed program or the error of the
    pass that failed. */
module Driver {
  import opened Base
  import opened Evm
  import opened SwarmHash
  import opened EntryPoint
  import opened CtorSplit
  import opened Listing

  /** A printed listing, with the heading that precedes it. */
  datatype Section =
    | Whole(listing: seq<BlockListing>)        // no heading
    | Constructor(listing: seq<BlockListing>)  // "# Constructor part"
    | Code(listing: seq<BlockListing>)         // "# Code part"

  /** `bytecode` is the hex-decoded input. What has been printed when the
      program ends, and the panic that ended it if any. */
  method Run(bytecode: seq<byte>, withSwarmHash: bool, ctorMode: bool,
             analyse: seq<byte> -> Result<Program, AnalysisError>)
    returns (printed: seq<Section>, panic: Option<Panic>)
    requires |bytecode| <= MaxSliceLength
    // the trailer test indexes outside a short buffer
    ensures StripSwarmHash(bytecode, withSwarmHash).Failure? ==>
              printed == [] && panic == Some(StripSwarmHash(bytecode, withSwarmHash).error)
    // analysing the (stripped) buffer fails
    ensures var s := StripSwarmHash(bytecode, withSwarmHash);
            s.Success? && analyse(s.value).Failure? ==>
              printed == [] && panic == Some(AnalysisFailed(analyse(s.value).error))
    // plain mode: one listing of the stripped buffer
    ensures var s := StripSwarmHash(bytecode, withSwarmHash);
            s.Success? && analyse(s.value).Success? && !ctorMode ==>
              printed == [Whole(ListBlocks(analyse(s.value).value.blocks))] && panic == None
    // constructor mode: the entry point is rejected
    ensures var s := StripSwarmHash(bytecode, withSwarmHash);
            s.Success? && analyse(s.value).Success? && ctorMode ==>
              var entry := LastCopyOffset(Flatten(analyse(s.value).value.blocks));
              (entry == 0 ==> printed == [] && panic == Some(NoCodeEntryPoint)) &&
              (0 < entry && |s.value| <= entry ==>
                 printed == [] && panic == Some(EntryPointOutsideCode(entry, |s.value|)))
    // constructor mode: both parts analysed and printed in turn
    ensures var s := StripSwarmHash(bytecode, withSwarmHash);
            s.Success? && analyse(s.value).Success? && ctorMode ==>
              var entry := LastCopyOffset(Flatten(analyse(s.value).value.blocks));
              0 < entry < |s.value| ==>
                var ctor, code := analyse(s.value[..entry]), analyse(s.value[entry..]);
                (ctor.Failure? ==> printed == [] && panic == Some(AnalysisFailed(ctor.error))) &&
                (ctor.Success? && code.Failure? ==>
                   printed == [Constructor(ListBlocks(ctor.value.blocks))] &&
                   panic == Some(AnalysisFailed(code.error))) &&
                (ctor.Success? && code.Success? ==>
                   printed == [Constructor(ListBlocks(ctor.value.blocks)), Code(ListBlocks(code.value.blocks))] &&
                   panic == None)
  {
    printed := [];
    var test := TrailerTest(bytecode, withSwarmHash);
    if test.Failure? {
      panic := Some(test.error);
      return;
    }
    var bytecodeLength := |bytecode|;
    if test.value {
      bytecodeLength := bytecodeLength - SwarmHashLength;
    }
    assert bytecode[..bytecodeLength] == StripSwarmHash(bytecode, withSwarmHash).value;

    var program := analyse(bytecode[..bytecodeLength]);
    if program.Failure? {
      panic := Some(AnalysisFailed(program.error));
      return;
    }

    if ctorMode {
      var codeEntryPoint := FindNextCodeEntryPoint(program.value);
      var split := SplitAtEntryPoint(bytecode, bytecodeLength, codeEntryPoint);
      if split.Failure? {
        panic := Some(split.error);
        return;
      }
      assert bytecode[..codeEntryPoint] == bytecode[..bytecodeLength][..codeEntryPoint];
      assert bytecode[codeEntryPoint..bytecodeLength] == bytecode[..bytecodeLength][codeEntryPoint..];

      var ctor := analyse(split.value.ctor);
      if ctor.Failure? {
        panic := Some(AnalysisFailed(ctor.error));
        return;
      }
      var ctorListing := PrintAnalysisResult(ctor.value);
      printed := printed + [Constructor(ctorListing)];

      var code := analyse(split.value.code);
      if code.Failure? {
        panic := Some(AnalysisFailed(code.error));
        return;
      }
      var codeListing := PrintAnalysisResult(code.value);
      printed := printed + [Code(codeListing)];
    } else {
      var listing := PrintAnalysisResult(program.value);
      printed := [Whole(listing)];
    }
    panic := None;
  }
}
