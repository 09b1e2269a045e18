/**
 * The direct-kernel `sigaction` backend: before a caller's signal action is
 * handed to the kernel, it sets `SA_RESTORER` and points `sa_restorer` at the
 * architecture's signal-return trampoline, choosing the `SA_SIGINFO` variant
 * when the caller asked for the extended handler convention.
 */
module LinuxRawSignal {
  import opened Wrappers
  import opened SigFlags
  import opened Arch

  /** A signal number; the backend never interprets it. */
  type Signal = nat

  /** An OS error number reported by the kernel. */
  datatype Errno = Errno(raw: int)

  /** The handler field: the special "default" and "ignore" values, or a handler function. */
  datatype Handler = SigDfl | SigIgn | Function(id: nat)

  /** The kernel-facing signal action record. */
  datatype Sigaction = Sigaction(
    sa_handler: Handler,
    sa_flags: Word,
    sa_mask: set<Signal>,
    sa_restorer: Option<Routine>)

  /**
   * The kernel's signal-registration call: installs the action (if any) for
   * the signal and returns the previous one, or fails with an error number.
   * Its behaviour is not modelled; the backend is a parameter.
   */
  type Backend = (Signal, Option<Sigaction>) -> Result<Sigaction, Errno>

  /** The trampoline name that matches a handler convention. */
  function TrampolineFor(siginfo: bool): TrampolineName {
    if siginfo then InfoTrampoline else NoinfoTrampoline
  }

  /**
   * A record the kernel can return from on `arch`: `SA_RESTORER` is set and
   * `sa_restorer` points at the routine that the trampoline name matching the
   * record's own `SA_SIGINFO` bit denotes there.
   */
  predicate Installable(l: FlagLayout, arch: TargetArch, a: Sigaction) {
    && Has(l, a.sa_flags, Restorer)
    && a.sa_restorer == Some(Resolve(arch, TrampolineFor(Has(l, a.sa_flags, SigInfo))))
  }

  /**
   * The part of a record its caller chose: everything except the `SA_RESTORER`
   * bit and the `sa_restorer` field, which the backend owns.
   */
  function CallerView(l: FlagLayout, a: Sigaction): Sigaction {
    a.(sa_flags := a.sa_flags - l.Mask(Restorer), sa_restorer := None)
  }

  /**
   * The restorer injection applied to one supplied record on `arch`:
   * `SA_RESTORER` is OR-ed into the flags, then the `SA_SIGINFO` test on the
   * resulting flags picks the trampoline name, and `sa_restorer` receives the
   * routine that name denotes on `arch`.
   */
  function PatchRecord(l: FlagLayout, arch: TargetArch, a: Sigaction): (r: Sigaction)
    requires l.Valid()
    requires !arch.Riscv64?
    ensures Has(l, r.sa_flags, Restorer)
    ensures a.sa_flags <= r.sa_flags && r.sa_flags - a.sa_flags <= l.Mask(Restorer)
    ensures !arch.Aarch64? ==> (r.sa_restorer == Some(ReturnFromSignalHandler) <==> Has(l, a.sa_flags, SigInfo))
    ensures !arch.Aarch64? ==> (r.sa_restorer == Some(ReturnFromSignalHandlerNoinfo) <==> !Has(l, a.sa_flags, SigInfo))
    ensures arch.Aarch64? ==> r.sa_restorer == Some(ReturnFromSignalHandler)
    ensures r.sa_handler == a.sa_handler && r.sa_mask == a.sa_mask
    ensures Installable(l, arch, r)
  {
    var flags := a.sa_flags + l.Mask(Restorer);
    if flags * l.Mask(SigInfo) == l.Mask(SigInfo) then
      a.(sa_flags := flags, sa_restorer := Some(Resolve(arch, InfoTrampoline)))
    else
      a.(sa_flags := flags, sa_restorer := Some(Resolve(arch, NoinfoTrampoline)))
  }

  /**
   * The optional action as it reaches the kernel: patched on every target but
   * riscv64, and absent when the caller only queries.
   */
  function Patch(l: FlagLayout, arch: TargetArch, action: Option<Sigaction>): (r: Option<Sigaction>)
    requires l.Valid()
    ensures r.Some? <==> action.Some?
    ensures arch.Riscv64? ==> r == action
    ensures !arch.Riscv64? && action.Some? ==>
      && Installable(l, arch, r.value)
      && CallerView(l, r.value) == CallerView(l, action.value)
  {
    if arch.Riscv64? then
      action
    else
      match action
      case None => None
      case Some(a) =>
        PatchKeepsCallerView(l, arch, a);
        Some(PatchRecord(l, arch, a))
  }

  /**
   * Register a signal action. `passed` is the action the kernel call receives,
   * `r` what the call returns: the previous action or the kernel's error,
   * handed back to the caller unchanged.
   */
  method Register(l: FlagLayout, arch: TargetArch, backend: Backend, sig: Signal, action: Option<Sigaction>)
    returns (passed: Option<Sigaction>, r: Result<Sigaction, Errno>)
    requires l.Valid()
    ensures passed == Patch(l, arch, action)
    ensures action.None? ==> passed == None
    ensures arch.Riscv64? ==> passed == action
    ensures !arch.Riscv64? && action.Some? ==>
      && passed.Some?
      && Installable(l, arch, passed.value)
      && CallerView(l, passed.value) == CallerView(l, action.value)
    ensures r == backend(sig, passed)
  {
    passed := Patch(l, arch, action);
    r := backend(sig, passed);
  }

  /** Patching never changes what the caller chose: only the backend-owned parts move. */
  lemma PatchKeepsCallerView(l: FlagLayout, arch: TargetArch, a: Sigaction)
    requires l.Valid()
    requires !arch.Riscv64?
    ensures CallerView(l, PatchRecord(l, arch, a)) == CallerView(l, a)
  {
  }

  /** Patching a second time changes nothing. */
  lemma PatchIdempotent(l: FlagLayout, arch: TargetArch, action: Option<Sigaction>)
    requires l.Valid()
    ensures Patch(l, arch, Patch(l, arch, action)) == Patch(l, arch, action)
  {
  }

  /** The records patching leaves alone on `arch` are exactly the ones installable there. */
  lemma PatchFixedPoints(l: FlagLayout, arch: TargetArch, a: Sigaction)
    requires l.Valid()
    requires !arch.Riscv64?
    ensures PatchRecord(l, arch, a) == a <==> Installable(l, arch, a)
  {
  }

  /**
   * The actions that reach the kernel exactly as supplied: on riscv64 every
   * one, elsewhere exactly the installable ones.
   */
  lemma PatchLeavesAlone(l: FlagLayout, arch: TargetArch, a: Sigaction)
    requires l.Valid()
    ensures Patch(l, arch, Some(a)) == Some(a) <==> arch.Riscv64? || Installable(l, arch, a)
  {
    if !arch.Riscv64? {
      PatchFixedPoints(l, arch, a);
    }
  }

  /**
   * On aarch64 a record that already holds the info routine and `SA_RESTORER`
   * is left alone even without `SA_SIGINFO`: the noinfo name stores the same
   * pointer.
   */
  lemma Aarch64InfoRoutineKept(l: FlagLayout, a: Sigaction)
    requires l.Valid()
    requires Has(l, a.sa_flags, Restorer)
    requires a.sa_restorer == Some(ReturnFromSignalHandler)
    ensures PatchRecord(l, Aarch64, a) == a
  {
  }

  /** In terms of named flags, patching adds `SA_RESTORER` and nothing else. */
  lemma PatchDecoded(l: FlagLayout, arch: TargetArch, a: Sigaction)
    requires l.Valid()
    requires !arch.Riscv64?
    ensures Decode(l, PatchRecord(l, arch, a).sa_flags) == Decode(l, a.sa_flags) + {Restorer}
  {
  }

  /**
   * For a caller that built its flags from named constants, the kernel sees
   * those constants plus `SA_RESTORER`, and the routine that the name chosen
   * by whether `SA_SIGINFO` was among them denotes on `arch`.
   */
  lemma PatchEncoded(l: FlagLayout, arch: TargetArch, fs: seq<Flag>, a: Sigaction)
    requires l.Valid()
    requires !arch.Riscv64?
    requires a.sa_flags == Encode(l, fs)
    ensures PatchRecord(l, arch, a).sa_flags == Encode(l, fs + [Restorer])
    ensures PatchRecord(l, arch, a).sa_restorer == Some(Resolve(arch, TrampolineFor(SigInfo in fs)))
    ensures !arch.Aarch64? ==> (PatchRecord(l, arch, a).sa_restorer == Some(ReturnFromSignalHandler) <==> SigInfo in fs)
  {
    EncodeAppend(l, fs, Restorer);
    EncodeHas(l, fs, SigInfo);
  }

  /** On aarch64 the routine the kernel returns through is the same whatever the caller's flags. */
  lemma Aarch64RoutineIndependent(l: FlagLayout, a: Sigaction, b: Sigaction)
    requires l.Valid()
    ensures PatchRecord(l, Aarch64, a).sa_restorer == PatchRecord(l, Aarch64, b).sa_restorer
  {
  }
}
