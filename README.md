# evmdis driver, modelled in Dafny

evmdis disassembles Ethereum Virtual Machine bytecode into a listing of
basic blocks, jump labels and expressions. The analysis itself (block
building, reaching definitions, reaches, labels and expressions) lives in a
library that the command-line driver `evmdis/main.go` imports. This project
models the driver's own logic and proves properties of it. The library's
results are abstract inputs.

- `base.dfy` (`Base`): Option, a failure-compatible Result, Go's `uint64`,
  and the panics that end the process, modelled as values.
- `evm.dfy` (`Evm`): the driver's view of the library's program. A program
  is a sequence of blocks. Each block has an offset, a label flag and its
  instructions. Each instruction holds the opcode attributes the driver
  reads (operand size, stack writes, DUP, CODECOPY) and two facts about its
  annotations: whether it has an expression, and the evaluated second
  argument of a CODECOPY.
- `swarm.dfy` (`SwarmHash`): the test for the Solidity Swarm metadata
  trailer and its removal. The test is modelled with Go's semantics. The
  length is a `uint64`, so `len-k` wraps around. An index past the end
  panics. `&&` stops at its first false operand, and the `-swarm` flag is
  tested last. The file also builds the 43-byte metadata as the compiler
  emits it: the CBOR map `{"bzzr0": hash}` (RFC 7049 section 2.1, major
  types 5, 3 and 2) followed by its big-endian length `00 29`. It proves that
  stripping undoes appending.
- `entry_point.dfy` (`EntryPoint`): `FindNextCodeEntryPoint`, as nested loops
  proved against a reference definition (the offset of the last CODECOPY
  whose argument is constant), with lemmas that characterise that definition.
- `ctor_split.dfy` (`CtorSplit`): the bounds checks and the split of the
  buffer into a constructor part and a runtime code part.
- `listing.dfy` (`Listing`): the structure of the listing that
  `PrintAnalysisResult` prints. It states which instructions get a line, each
  line's byte offset, and whether the line is wrapped as `PUSH(...)`.
- `driver.dfy` (`Driver`): `main` and `AnalyzeProgram` composed. The library
  is a function parameter that takes a byte buffer and returns either an
  analysed program or the error of the pass that failed.

Short inputs follow the code, which is more precise than "inputs shorter
than 43 bytes panic":

- An empty input always panics, even with the flag cleared.
- A 1-byte input panics only when that byte is `29`.
- An input of 2 to 42 bytes panics only when it ends in `00 29`.
- Any other short input is analysed whole.

## Model

| member | source | states |
|---|---|---|
| SwarmHash.Sub64 | evmdis/main.go:41-44 | `uint64` subtraction: exact when no underflow, otherwise wraps by 2^64 |
| SwarmHash.TrailerTest | evmdis/main.go:35-45 | for inputs of at least 43 bytes, true exactly when the flag is set and the bytes at len-1, len-2, len-43 and len-42 are `29`, `00`, `a1` and `65`; it panics exactly on the short inputs listed above, with an index at or past the length; true implies the input has at least 43 bytes |
| SwarmHash.StripSwarmHash | evmdis/main.go:41-49 | the analysed buffer is always a prefix of the input: either the whole input or the input minus 43 bytes; it is the input without its last 43 bytes exactly when the flag is set and the trailer matches; otherwise it is the whole input, unless the test panics |
| SwarmHash.MetadataLayout | evmdis/main.go:13-16 | the CBOR metadata `{"bzzr0": hash}` plus its two-byte length is 43 bytes, begins with `a1 65` and ends with `00 29` |
| SwarmHash.StripRemovesMetadata | evmdis/main.go:40-47 | with the flag set, code plus Swarm metadata is analysed as the code alone (stripping inverts appending) |
| EntryPoint.FindNextCodeEntryPoint | evmdis/main.go:77-95 | the nested block and instruction loops return the reference entry point of the flattened instruction stream |
| EntryPoint.NoConstantCopyGivesZero | evmdis/main.go:78-94 | with no CODECOPY whose argument evaluates, the entry point is 0 |
| EntryPoint.LastConstantCopyWins | evmdis/main.go:79-93 | the entry point is the argument of the last CODECOPY whose argument evaluates; later non-constant CODECOPYs do not reset it |
| EntryPoint.EntryPointComesFromLastCopy | evmdis/main.go:81-90 | a non-zero entry point is the argument of some constant CODECOPY with no constant CODECOPY after it |
| EntryPoint.AppendWithoutCopy | evmdis/main.go:81-91 | appending instructions that are not constant CODECOPYs leaves the entry point unchanged |
| EntryPoint.LaterCopyOverrides | evmdis/main.go:88-90 | if a later part of the stream has a constant CODECOPY, the earlier part has no influence |
| EntryPoint.InsertNonCopy | evmdis/main.go:81 | inserting an instruction that is not a CODECOPY anywhere leaves the entry point unchanged |
| CtorSplit.SplitAtEntryPoint | evmdis/main.go:55-62 | entry 0 gives "no code entrypoint"; an entry at or past the stripped length gives "outside of currently available code"; otherwise the constructor part is `bytecode[:entry]` and the code part is `bytecode[entry:len]`, both non-empty and together the stripped buffer |
| Listing.PrintAnalysisResult | evmdis/main.go:97-128 | the loops with the running offset produce the reference listing, block by block |
| Listing.ListBlocksAt | evmdis/main.go:98 | the listing has one entry per block, the j-th entry being the listing of the j-th block |
| Listing.NextOffset | evmdis/main.go:124 | each instruction moves the offset on by its operand size plus one |
| Listing.OffsetsIncrease | evmdis/main.go:99-124 | instruction offsets within a block rise strictly, by at least one byte per instruction, from the block offset |
| Listing.LinesAreFaithful | evmdis/main.go:113-124 | every printed line belongs to an instruction with an expression; its offset is the block offset plus the widths of the instructions before it; it is wrapped as `PUSH` exactly when the opcode writes one stack value and is not a DUP |
| Listing.ExpressionsArePrinted | evmdis/main.go:114-117 | every instruction with an expression gets a line |
| Listing.LinesOrdered | evmdis/main.go:113-125 | lines appear in instruction order, with strictly increasing positions and offsets |
| Driver.Run | evmdis/main.go:35-73 | the output and the panic for every path: a trailer-test panic; a failed analysis of the stripped buffer; the single listing in plain mode; in constructor mode, a rejected entry point, or the constructor listing then the code listing, each printed only if its own analysis succeeded |

## Left out

- Reading stdin, flag parsing and log redirection (evmdis/main.go:20-33) are I/O and configuration. The flags are parameters of `Driver.Run`.
- Hex decoding (evmdis/main.go:35-38) is a library call whose error is ignored. The decoded bytes are the input.
- The analysis library is not part of this model: `NewProgram`, `PerformReachingAnalysis`, `PerformReachesAnalysis`, `CreateLabels`, `BuildExpressions`, `Annotations.Get` and `Expression.Eval`. Their results are inputs. The analysis is a function parameter, the annotations are instruction and block fields, and the CODECOPY argument is an `Option<u64>`.
- EntryPoint.FindNextCodeEntryPoint: assumes that every CODECOPY carries an instruction expression with at least two arguments. The type assertion and index at evmdis/main.go:86 would otherwise panic, and whether that can happen depends on the library.
- EntryPoint.FindNextCodeEntryPoint: `big.Int.Uint64()` of a constant of 2^64 or more (evmdis/main.go:89) is undefined in Go. Evaluated arguments are restricted to `u64`.
- Listing.PrintAnalysisResult: models which lines are printed, their offsets and their `PUSH` or plain form. It does not model the `fmt` text of labels, stack prestates and expressions (evmdis/main.go:105, 111, 119-121). Offsets are unbounded naturals, with no `%X` formatting.
- Driver.Run: recovery from panics is not modelled. A panic ends the run, and the output printed before it is returned with it.
