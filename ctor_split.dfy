/** Splitting constructor bytecode into the constructor part and the runtime
    code part at the code entry point (evmdis/main.go:55-62). */
module CtorSplit {
  import opened Base

  datatype Split = Split(ctor: seq<byte>, code: seq<byte>)

  /** `bytecode` is the whole decoded buffer, `length` the length left after
      stripping the metadata and `entry` the located code entry point. */
  function SplitAtEntryPoint(bytecode: seq<byte>, length: nat, entry: u64): (r: Result<Split, Panic>)
    requires length <= |bytecode|
    ensures r == Failure(NoCodeEntryPoint) <==> entry == 0
    ensures r == Failure(EntryPointOutsideCode(entry, length)) <==> 0 < entry && length <= entry
    ensures r.Success? <==> 0 < entry < length
    ensures r.Success? ==> r.value.ctor == bytecode[..entry] && r.value.code == bytecode[entry..length]
    ensures r.Success? ==> |r.value.ctor| > 0 && |r.value.code| > 0
    ensures r.Success? ==> r.value.ctor + r.value.code == bytecode[..length]
  {
    if entry == 0 then Failure(NoCodeEntryPoint)
    else if entry >= length then Failure(EntryPointOutsideCode(entry, length))
    else Success(Split(bytecode[..entry], bytecode[entry..length]))
  }
}
