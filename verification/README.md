# Restorer injection in the direct-kernel `sigaction` backend

This project models the signal-registration step of origin's direct-kernel
signal backend (`src/signal/linux_raw.rs`). Without a C library, nothing else
arranges for a signal handler to return correctly. So before a caller's
optional signal action reaches the kernel, `sigaction` does two things:

- it sets the `SA_RESTORER` flag;
- it stores a signal-return trampoline in `sa_restorer`. The `SA_SIGINFO`
  trampoline is chosen when the flags ask for the extended handler convention,
  and the plain one otherwise.

On riscv64 the step is compiled out, and a query with no new action is passed
through untouched. The kernel's answer, the previous action or an error, goes
back to the caller unchanged.

Modules:

- `Wrappers` (`wrappers.dfy`): `Option` and `Result`, as in Rust.
- `SigFlags` (`sigflags.dfy`): the `sa_flags` word and the named flag
  constants. `Encode` is a caller OR-ing constants together
  (`SA_RESTART | SA_SIGINFO`). `Decode` reads the named flags back.
- `Arch` (`arch.dfy`): the build target; the two trampoline names
  `return_from_signal_handler` and `return_from_signal_handler_noinfo`
  (`TrampolineName`); the restorer routines a record can point at (`Routine`);
  and `Resolve`, the routine each name denotes on a target. On aarch64 the
  second name is an alias of the first.
- `LinuxRawSignal` (`linux_raw_signal.dfy`): the `Sigaction` record, the
  patch (`PatchRecord` for one record, `Patch` for the optional action), and
  `Register`, which is the backend's `sigaction`.

Representation choices:

- The `c_ulong` flags word is modelled as the set of its 1-bit positions
  (`BitIndex` is 0..63). Bitwise `|` becomes union, `&` becomes intersection
  and `& !m` becomes difference. The Rust code applies no other operation to the
  word, so this representation is exact.
- The flag test is written as the Rust code writes it: `f * M == M`, the set
  form of `f & M == M`.
- The four flag values come from the kernel headers, so they are not fixed
  here. A `FlagLayout` gives their bit positions, and `FlagLayout.Valid`
  requires the four to be distinct. Every property is proved for every valid
  layout.
- `sa_restorer` holds a `Routine`, that is, the function pointer the program
  stores, not a name. Patching stores `Resolve(arch, name)`. On aarch64 both
  names give the same pointer, so record equality there is pointer equality.
- A caller's record may carry any restorer pointer. `Routine` has the two
  signal-return routines plus `OtherRoutine(addr)` for any other function.
  Patching overwrites the field off riscv64 and leaves it alone on riscv64.
- The kernel call `rustix::runtime::sigaction` is a function-valued
  parameter (`Backend`). `Register` returns the action it passed to that call
  (`passed`) together with the call's result.

## Model

| member | source | states |
|---|---|---|
| LinuxRawSignal.Register | src/signal/linux_raw.rs:28-44 | The action forwarded to the backend is the patched action. A query with no action forwards `None`. On riscv64 the action is forwarded exactly as supplied. On any other target the forwarded action is installable (`SA_RESTORER` set, restorer matching `SA_SIGINFO`) and keeps every field the caller chose. The caller gets back exactly what the backend returned: the old action or the error. |
| LinuxRawSignal.Patch | src/signal/linux_raw.rs:32-41 | An action is present after patching exactly when one was supplied. On riscv64 the action is unchanged. Elsewhere a supplied action becomes installable on that target and keeps the caller-chosen part (`CallerView`). |
| LinuxRawSignal.PatchRecord | src/signal/linux_raw.rs:33-41 | On every target but riscv64 (where the step is compiled out), after patching, `SA_RESTORER` is set. Every flag bit the caller set is still set, and no bit other than `SA_RESTORER` is newly set. Off aarch64, `sa_restorer` is the info routine exactly when the caller's flags hold `SA_SIGINFO`, and the noinfo routine exactly when they do not. On aarch64 it is the single routine both names denote. Handler and mask are unchanged. |
| LinuxRawSignal.PatchKeepsCallerView | src/signal/linux_raw.rs:33-41 | The handler, the mask and every flag other than `SA_RESTORER` come through patching unchanged. Only the backend-owned bit and field differ. |
| LinuxRawSignal.PatchIdempotent | src/signal/linux_raw.rs:32-41 | Patching an already patched action changes nothing, on every target and for both a present and an absent action. |
| LinuxRawSignal.PatchFixedPoints | src/signal/linux_raw.rs:34-40 | On each target that runs the patch (every target but riscv64), a record is left unchanged by the patch step if and only if it already has `SA_RESTORER` and holds the routine that the trampoline name matching its `SA_SIGINFO` bit denotes on that target. |
| LinuxRawSignal.PatchLeavesAlone | src/signal/linux_raw.rs:32-41 | A supplied action reaches the kernel exactly as supplied if and only if the target is riscv64 or the action is already installable on the target. |
| LinuxRawSignal.Aarch64InfoRoutineKept | src/arch/aarch64.rs:246 | On aarch64 a record with `SA_RESTORER` that holds the info routine is left unchanged, even when `SA_SIGINFO` is clear, because the noinfo name stores the same pointer. |
| LinuxRawSignal.PatchDecoded | src/signal/linux_raw.rs:34 | As named flags, the patched flags are the caller's flags plus `SA_RESTORER`, and nothing else. |
| LinuxRawSignal.PatchEncoded | src/signal/linux_raw.rs:34-40 | For flags built by OR-ing named constants, the kernel sees those constants plus `SA_RESTORER`. The routine it gets is the one the name chosen by `SA_SIGINFO`'s presence denotes. Off aarch64 that is the info routine exactly when `SA_SIGINFO` was among the constants. |
| LinuxRawSignal.Aarch64RoutineIndependent | src/arch/aarch64.rs:237-246 | On aarch64 the routine stored in `sa_restorer` is the same whatever flags the caller passed. |
| Arch.Aarch64TrampolinesAlias | src/arch/aarch64.rs:246 | On aarch64 the info and noinfo trampoline names denote the same routine. |
| SigFlags.Has | src/signal/linux_raw.rs:36 | The flag test `flags & M == M` holds exactly when the flag's single bit is set in the word. |
| SigFlags.FlagLayout.Mask | src/signal/linux_raw.rs:64-69 | Each named flag constant holds its flag's bit. In a valid layout it holds no other named flag's bit, so the constants never overlap. |
| SigFlags.Decode | src/signal/linux_raw.rs:64-69 | The decoded named flags are exactly those whose bit position is set in the word. |
| SigFlags.EncodeHas | src/signal/linux_raw.rs:64-69 | If the constants are distinct bits, a named flag is set in an OR of constants if and only if it was one of them. |
| SigFlags.EncodeWithinNamed | src/signal/linux_raw.rs:64-69 | An OR of named constants sets no bit outside the named flags. |
| SigFlags.DecodeEncode | src/signal/linux_raw.rs:64-69 | Decoding an OR of named constants gives back exactly the set of constants named. |
| SigFlags.EncodeDecode | src/signal/linux_raw.rs:64-69 | A word holding only named flags is the OR of the constants it decodes to. |
| SigFlags.EncodeAppend | src/signal/linux_raw.rs:34 | OR-ing one more constant into an OR of constants gives the same word as listing that constant once more. |

## Left out

- The kernel's signal-disposition table: what `rustix::runtime::sigaction` stores and which old action it returns. It is a foreign call, so it is the `Backend` parameter with no assumed behaviour. For that reason the model does not prove the round trip "install A, then the next registration returns A".
- The concrete values of `SA_RESTART`, `SA_ONSTACK`, `SA_SIGINFO` and `SA_RESTORER`: they come from kernel headers that are not part of this model. They are assumed only to be distinct single bits.
- The width of `c_ulong`: the word is modelled as 64 bits. On 32-bit targets it is 32 bits; no property here depends on the width.
- `sig_ign` and `SigDfl` (src/signal/linux_raw.rs:46-60): these re-export special handler values from the kernel headers. They appear only as the `SigDfl` and `SigIgn` constructors of `Handler`, with no logic attached.
- `SIGSTKSZ` and `SS_DISABLE` (src/signal/linux_raw.rs:71-74): re-exported constants with no logic.
- The `Signal`, `Siginfo` and `Sighandler` types: the backend never looks inside them. A signal is a number, a handler is opaque, and the mask is a set of signals.
- The library-backed backend (src/signal/libc.rs): a thin wrapper over the C library's `sigaction` and `errno`, whose behaviour and constants are not part of this model.
- The aarch64 architecture layer (src/arch/aarch64.rs) other than the trampoline aliasing: the entry point, `clone`, TLS register access, `munmap_and_exit_thread`, relocation loads and stores, and the trampolines' own instruction sequences. All of these are inline assembly and raw system calls with no logic beyond the hardware's behaviour.
- The trampolines of targets other than aarch64: in `Arch.Resolve` the two trampoline names are treated as different routines. Those targets' architecture files are not part of this model.
