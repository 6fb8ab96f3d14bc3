/** memlayout.h. */
module MemLayout {

  /** User memory ends here. */
  const KERNBASE := 0x8000_0000
}
