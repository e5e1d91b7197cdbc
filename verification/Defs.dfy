/** Definitions shared by the kernel modules. */
module Defs {

  /** Unsigned arithmetic in the kernel is modulo 2^32. */
  const TWO_32 := 0x1_0000_0000

  type Byte = b: nat | b < 256

  const SZ_PAGE := 4096

  // error codes
  const SUCCESS := 0
  const E_FAILURE := -1
  const E_BAD_PARAM := -2
  const E_NO_CHILDREN := -4
  const E_NOT_FOUND := -6
  const E_NO_PROCS := -7
  const E_EMPTY_QUEUE := -100
  const EXIT_KILLED := -101

  /** Process states. */
  datatype State = Unused | New | Ready | Running | Sleeping | Blocked | Waiting | Killed | Zombie
}
