/**
 * The architecture abstraction as the signal backend sees it: which target it
 * is built for, the signal-return trampolines it can name, and the routines
 * those names denote.
 */
module Arch {

  /** The build target. riscv64 compiles the restorer patch out; aarch64 aliases the two trampolines. */
  datatype TargetArch = Riscv64 | Aarch64 | OtherArch

  /**
   * The two restorer names the architecture layer exports:
   * `return_from_signal_handler` for `SA_SIGINFO` handlers and
   * `return_from_signal_handler_noinfo` for plain ones.
   */
  datatype TrampolineName = InfoTrampoline | NoinfoTrampoline

  /**
   * A restorer function pointer: one of the two signal-return routines, or
   * any other function a caller may have put in its record.
   */
  datatype Routine = ReturnFromSignalHandler | ReturnFromSignalHandlerNoinfo | OtherRoutine(addr: nat)

  /**
   * The routine a trampoline name denotes on `arch`. On aarch64 the noinfo
   * name is a re-export of the info routine, since the kernel's `rt_sigreturn`
   * sequence is the same for both handler conventions; elsewhere the two names
   * are kept apart.
   */
  function Resolve(arch: TargetArch, t: TrampolineName): Routine {
    if arch.Aarch64? then ReturnFromSignalHandler
    else match t
      case InfoTrampoline => ReturnFromSignalHandler
      case NoinfoTrampoline => ReturnFromSignalHandlerNoinfo
  }

  /** On aarch64 both names reach one routine, whichever is installed. */
  lemma Aarch64TrampolinesAlias(t: TrampolineName, u: TrampolineName)
    ensures Resolve(Aarch64, t) == Resolve(Aarch64, u)
  {
  }
}
