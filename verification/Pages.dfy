/** Page and machine-word arithmetic shared by the whole model.
    Addresses and lengths are naturals; the places where the kernel's 64-bit
    `unsigned long` wraps are written out with the functions below. */
module Pages {

  /** Largest user address plus one: TASK_SIZE of x86-64 with four page-table levels. */
  const TASK_SIZE: nat := 0x7fff_ffff_f000

  /** Number of values of a 64-bit machine word. */
  const WORD: nat := 0x1_0000_0000_0000_0000

  predicate Aligned(x: int) {
    x % 4096 == 0
  }

  /** `x << PAGE_SHIFT`, before any wrap-around. */
  function ToBytes(n: int): int {
    n * 4096
  }

  /** 64-bit unsigned addition. */
  function Add64(x: int, y: int): nat {
    (x + y) % 0x1_0000_0000_0000_0000
  }

  /** 64-bit unsigned subtraction. */
  function Sub64(x: int, y: int): nat {
    (x - y) % 0x1_0000_0000_0000_0000
  }

  /** PAGE_ALIGN on a 64-bit word: rounds up, and wraps to zero in the last page. */
  function PageAlign(x: nat): nat {
    Add64(x, 4095) / 4096 * 4096
  }

  /** Rounding up to a page boundary on unbounded integers. */
  function RoundUp(x: nat): nat {
    (x + 4095) / 4096 * 4096
  }

  function Max(x: int, y: int): int {
    if x < y then y else x
  }

  function Min(x: int, y: int): int {
    if x < y then x else y
  }
}
