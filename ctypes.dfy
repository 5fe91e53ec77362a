/**
 * C-level vocabulary shared by the whole model: fixed-width unsigned
 * integers, the errno codes the bindings produce, the open(2) access
 * modes they use, and the abstract view of strtoul(3).
 */
module CTypes {

  newtype u32 = x: int | 0 <= x < 0x1_0000_0000
  newtype u64 = x: int | 0 <= x < 0x1_0000_0000_0000_0000

  const UINT32_LIMIT: int := 0x1_0000_0000
  const ULONG_MAX: u64 := 0xFFFF_FFFF_FFFF_FFFF

  // Linux errno values
  const ENOENT: int := 2
  const EBADF: int := 9
  const EINVAL: int := 22
  const ERANGE: int := 34

  // Linux open(2) access modes
  const O_RDONLY: nat := 0
  const O_WRONLY: nat := 1
  const O_RDWR: nat := 2

  /** The access mode bits of an open flag word (flags & O_ACCMODE). */
  function AccessMode(flags: nat): nat { flags % 4 }

  predicate Readable(flags: nat) { AccessMode(flags) == O_RDONLY || AccessMode(flags) == O_RDWR }

  predicate Writable(flags: nat) { AccessMode(flags) == O_WRONLY || AccessMode(flags) == O_RDWR }

  datatype Option<T> = None | Some(value: T)

  /**
   * What one call of strtoul(text, NULL, 0) gives back: the unsigned long
   * it returns and the errno it leaves behind (0 if it set none).
   */
  datatype Parsed = Parsed(value: u64, err: int)

  /** strtoul(3) with base 0, a library routine the model does not look into. */
  type Strtoul = string -> Parsed

  /** Assigning an unsigned long to a uint32_t keeps the low 32 bits. */
  function ToU32(v: u64): (r: u32)
    ensures v as int < UINT32_LIMIT ==> r as int == v as int
  {
    (v as int % UINT32_LIMIT) as u32
  }
}
