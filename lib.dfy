/** The fetch operation codes and their one-byte conversion (`TryFrom<u8>`). */
module Lib {
  import opened Wrappers
  import opened Text

  /** What git-fetch did to one reference. */
  datatype Operation = FastForward | Forced | Pruned | Tag | New | Reject | Noop

  /** The conversion from a status byte; any byte outside the table is `Err(())`. */
  function TryFromByte(chr: byte): (r: Result<Operation, ()>)
    ensures r.Ok? <==> chr in StatusBytes
    ensures r.Ok? ==> OpByte(r.value) == chr
  {
    if chr == 0x20 then Ok(FastForward)       // ' '
    else if chr == 0x2B then Ok(Forced)       // '+'
    else if chr == 0x2D then Ok(Pruned)       // '-'
    else if chr == 0x74 then Ok(Tag)          // 't'
    else if chr == 0x2A then Ok(New)          // '*'
    else if chr == 0x21 then Ok(Reject)       // '!'
    else if chr == 0x3D then Ok(Noop)         // '='
    else Err(())
  }

  /** The status byte git-fetch prints for each operation: the inverse of the table. */
  function OpByte(op: Operation): (b: byte)
    ensures b in StatusBytes
  {
    match op
    case FastForward => 0x20
    case Forced => 0x2B
    case Pruned => 0x2D
    case Tag => 0x74
    case New => 0x2A
    case Reject => 0x21
    case Noop => 0x3D
  }

  /** The seven accepted bytes: ' ' + - t * ! = */
  const StatusBytes: set<byte> := {0x20, 0x2B, 0x2D, 0x74, 0x2A, 0x21, 0x3D}

  /** A byte converts exactly when it is one of the seven status bytes. */
  lemma TryFromAcceptsExactly(chr: byte)
    ensures TryFromByte(chr).Ok? <==> chr in StatusBytes
    ensures TryFromByte(chr).Err? ==> TryFromByte(chr) == Err(())
  {
  }

  /** The table is a bijection between the status bytes and the operations:
      converting a byte and taking the byte of the result gives it back, and
      every operation is reached from its own byte only. */
  lemma TryFromBijection(chr: byte, op: Operation)
    ensures TryFromByte(chr) == Ok(op) <==> chr == OpByte(op)
  {
  }

  /** Seven distinct bytes for seven distinct operations. */
  lemma OpByteInjective(a: Operation, b: Operation)
    ensures OpByte(a) == OpByte(b) ==> a == b
  {
  }
}
