/** The stock optional value. */
module Options {
  datatype Option<+T> = None | Some(value: T)
}

/** Constants and address arithmetic of the amd64 configuration header. */
module Layout {
  import opened Options

  const PAGE_SIZE: nat := 0x1000
  const ADDRESS_SPACE: nat := 0x1_0000_0000_0000_0000

  const KERNEL_PHYS_BASE: nat := 0x20_0000

  /** The window of kernel addresses through which physical memory is reached. */
  const PHYS_MAP_BASE: nat := 0xffff_8000_0000_0000
  const PHYS_MAP_SIZE: nat := 0x7fff_8000_0000

  const USER_REGION_BASE: nat := 0
  const USER_REGION_SIZE: nat := 0x8000_0000_0000

  /** `a & PAGE_MASK` */
  function PageFloor(a: nat): nat {
    a - a % PAGE_SIZE
  }

  /** `a & ~PAGE_MASK` */
  function PageOffset(a: nat): nat {
    a % PAGE_SIZE
  }

  /** `PAGE_ALIGN(a)` */
  function PageAlign(a: nat): nat {
    PageFloor(a + PAGE_SIZE - 1)
  }

  /** The kernel address of a physical one; `None` where the kernel panics. */
  function ProvidePhys(phys: nat): Option<nat> {
    if phys >= PHYS_MAP_SIZE || phys == 0 then None else Some(PHYS_MAP_BASE + phys)
  }

  /** The physical address behind a kernel one; `None` where the kernel panics. */
  function RevertPhys(virt: nat): Option<nat> {
    if virt < PHYS_MAP_BASE || virt > PHYS_MAP_BASE + PHYS_MAP_SIZE - 1 then None else Some(virt - PHYS_MAP_BASE)
  }

  /** A frame that can be handed out: page aligned and inside the physical window. */
  predicate UsableFrame(f: nat) {
    f % PAGE_SIZE == 0 && 0 < f < PHYS_MAP_SIZE
  }
}
