/** What the CPU holds for a task, and the first such frame a task is given. */
module Contexts {

  const PROCESS_STACK_BASE := 0x800_0000_0000
  const PROCESS_STACK_SIZE := 0x4000
  const RFLAGS_INTERRUPT_ENABLE := 0x200
  const RFLAGS_RESERVED1_ONE := 0x2
  const APIC_TIMER_IRQ := 32

  datatype Registers = Registers(
    r15: int, r14: int, r13: int, r12: int, r11: int, r10: int, r9: int, r8: int,
    rbp: int, rdi: int, rsi: int, rdx: int, rcx: int, rbx: int, rax: int,
    irq: int, errorCode: int, rip: int, cs: int, rflags: int, rsp: int, ss: int)

  /** The saved registers, and the SIMD area taken as one number. */
  datatype Context = Context(regs: Registers, simd: int)

  /** The registers a task starts with: everything zero but the entry point, the stack, the flags and the
      segment selectors of its privilege level. */
  function InitRegisters(ip: int, sp: int, user: bool): Registers {
    Registers(0, 0, 0, 0, 0, 0, 0, 0, PROCESS_STACK_BASE, 0, 0, 0, 0, 0, 0, 0, 0,
              ip, if user then 0x33 else 0x18, RFLAGS_INTERRUPT_ENABLE + RFLAGS_RESERVED1_ONE,
              sp, if user then 0x2b else 0x20)
  }
}
