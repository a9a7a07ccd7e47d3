/** Detection and removal of the Swarm metadata hash that the Solidity
    compiler appends to contract bytecode (evmdis/main.go:13-16, 40-47). */
module SwarmHash {
  import opened Base

  const SwarmHashLength: nat := 43
  const ProgramTrailer: seq<byte> := [0x00, 0x29]
  const Header: seq<byte> := [0xa1, 0x65]

  /** Go's `a - b` on `uint64`: wraps around below zero. */
  function Sub64(a: u64, b: u64): (r: u64)
    ensures a >= b ==> r == a - b
    ensures a < b ==> r == a - b + U64Limit
  {
    (a - b) % U64Limit
  }

  /** Go's `s[i]`: panics when the index is not below the length. */
  function ByteAt(s: seq<byte>, i: u64): Result<byte, Panic>
  {
    if i < |s| then Success(s[i]) else Failure(IndexOutOfRange(i, |s|))
  }

  /** The four bytes the driver inspects: a two-byte header 43 bytes from
      the end and a two-byte trailer at the very end. */
  predicate HasSwarmTrailer(b: seq<byte>)
    requires |b| >= SwarmHashLength
  {
    b[|b| - 2..] == ProgramTrailer && b[|b| - SwarmHashLength..|b| - SwarmHashLength + 2] == Header
  }

  /** The inputs on which the test indexes outside the buffer: an empty
      buffer, or a buffer shorter than 43 bytes whose checked bytes match
      up to the first index that wraps around. */
  predicate ShortInputPanics(b: seq<byte>)
  {
    |b| == 0 ||
    (|b| < SwarmHashLength && b[|b| - 1] == ProgramTrailer[1] && (|b| == 1 || b[|b| - 2] == ProgramTrailer[0]))
  }

  /** The condition of the `if` at evmdis/main.go:41-45, evaluated as Go
      does: the length is a `uint64`, `&&` is evaluated left to right and
      stops at the first false operand, and the flag is tested last. */
  function TrailerTest(b: seq<byte>, withSwarmHash: bool): (r: Result<bool, Panic>)
    requires |b| <= MaxSliceLength
    ensures |b| >= SwarmHashLength ==> r == Success(withSwarmHash && HasSwarmTrailer(b))
    ensures r.Failure? <==> ShortInputPanics(b)
    ensures r.Failure? ==> r.error.IndexOutOfRange? && r.error.index >= |b|
    ensures r.Success? && r.value ==> |b| >= SwarmHashLength
  {
    var n := |b| as u64;
    var last :- ByteAt(b, Sub64(n, 1));
    if last != ProgramTrailer[1] then Success(false) else
    var prev :- ByteAt(b, Sub64(n, 2));
    if prev != ProgramTrailer[0] then Success(false) else
    var first :- ByteAt(b, Sub64(n, 43));
    if first != Header[0] then Success(false) else
    // in range: the index one below it was
    var second := b[Sub64(n, 42)];
    if second != Header[1] then Success(false) else
    Success(withSwarmHash)
  }

  /** The buffer handed to the analysis: `bytecode[:bytecodeLength]` after
      the conditional `bytecodeLength -= swarmHashLength`. */
  function StripSwarmHash(b: seq<byte>, withSwarmHash: bool): (r: Result<seq<byte>, Panic>)
    requires |b| <= MaxSliceLength
    ensures r.Failure? <==> ShortInputPanics(b)
    ensures r.Success? ==> r.value <= b
    ensures r.Success? ==> |r.value| == |b| || |r.value| + SwarmHashLength == |b|
    ensures |b| >= SwarmHashLength && withSwarmHash && HasSwarmTrailer(b) ==>
              r == Success(b[..|b| - SwarmHashLength])
    ensures |b| >= SwarmHashLength && !(withSwarmHash && HasSwarmTrailer(b)) ==> r == Success(b)
    ensures |b| < SwarmHashLength && !ShortInputPanics(b) ==> r == Success(b)
  {
    var strip :- TrailerTest(b, withSwarmHash);
    Success(if strip then b[..|b| - SwarmHashLength] else b)
  }

  /** The first bytes of a CBOR data item (section 2.1 of RFC 7049) with the
      given major type and a length argument below 256. */
  function CborHead(major: nat, arg: nat): (h: seq<byte>)
    requires major < 8 && arg < 256
    ensures |h| == if arg < 24 then 1 else 2
  {
    if arg < 24 then [(major * 32 + arg) as byte] else [(major * 32 + 24) as byte, arg as byte]
  }

  /** The map key "bzzr0" as ASCII bytes. */
  const Bzzr0: seq<byte> := [0x62, 0x7a, 0x7a, 0x72, 0x30]

  /** The metadata trailer as Solidity emits it: the CBOR map
      `{"bzzr0": <32-byte hash>}` followed by its own length as a two-byte
      big-endian number. */
  function SwarmMetadata(hash: seq<byte>): seq<byte>
    requires |hash| == 32
  {
    var cbor := CborHead(5, 1) + CborHead(3, |Bzzr0|) + Bzzr0 + CborHead(2, |hash|) + hash;
    cbor + [(|cbor| / 256) as byte, (|cbor| % 256) as byte]
  }

  /** The metadata trailer is 43 bytes long and carries, at the positions the
      driver checks, exactly the header and trailer bytes it looks for. */
  lemma MetadataLayout(hash: seq<byte>)
    requires |hash| == 32
    ensures |SwarmMetadata(hash)| == SwarmHashLength
    ensures SwarmMetadata(hash)[..2] == Header
    ensures SwarmMetadata(hash)[SwarmHashLength - 2..] == ProgramTrailer
  {
  }

  /** Removing the metadata is the inverse of appending it: with the flag set,
      code followed by a Swarm metadata trailer is analysed as the code alone. */
  lemma StripRemovesMetadata(code: seq<byte>, hash: seq<byte>)
    requires |hash| == 32
    requires |code| + SwarmHashLength <= MaxSliceLength
    ensures StripSwarmHash(code + SwarmMetadata(hash), true) == Success(code)
  {
  }
}
