/** Which instructions tools/isa-scan.py reports. */
module IsaPolicy {

  const DISALLOWED: set<string> := {
    "SSE2", "SSE3", "SSSE3", "SSE41", "SSE42", "SSE4A", "AVX", "AVX2", "AVX512", "BWI", "CDI", "DQI", "ERI", "PFI",
    "VLX", "FMA", "FMA4", "XOP", "3DNOW", "BMI", "BMI2", "TBM", "ADX", "AES", "SHA", "PCLMUL", "F16C", "RTM", "HLE",
    "FSGSBASE", "SGX", "SMAP"
  }

  const BACKWARD_COMPATIBLE: set<string> := {"tzcnt", "lzcnt", "pause"}

  const MNEMONIC_DISALLOW: set<string> := {
    "popcnt", "movbe", "rdrand", "rdseed", "rdtscp", "rdpid", "adcx", "adox", "clflushopt", "clwb", "clzero",
    "cldemote", "monitorx", "mwaitx", "umonitor", "umwait", "tpause", "serialize", "wrfsbase", "rdfsbase", "wrgsbase",
    "rdgsbase", "ptwrite"
  }

  /** A decoded instruction; groups by their short names. */
  datatype Insn = Insn(mnemonic: string, operands: string, groups: set<string>, size: nat)

  /** The groups an instruction is reported for; none if it is allowed. */
  function Violations(insn: Insn): set<string> {
    if insn.mnemonic in BACKWARD_COMPATIBLE then {}
    else insn.groups * DISALLOWED + (if insn.mnemonic in MNEMONIC_DISALLOW then {"post-PIII"} else {})
  }

  /** An instruction that faults on a Pentium III, as far as the tables know. */
  predicate AboveBaseline(insn: Insn) {
    && insn.mnemonic !in BACKWARD_COMPATIBLE
    && (insn.mnemonic in MNEMONIC_DISALLOW || exists g :: g in insn.groups && g in DISALLOWED)
  }

  /** The processor's own instruction sets and the groups that say what an instruction is for are allowed; those that
      came after are not, nor later instructions that come without a group. */
  lemma BaselineIsAllowed(insn: Insn)
    ensures insn.groups <= BASELINE && insn.mnemonic !in MNEMONIC_DISALLOW ==> !AboveBaseline(insn)
    ensures insn.mnemonic !in {"tzcnt", "lzcnt", "pause"} && (exists g :: g in insn.groups && IsLater(g)) ==>
      AboveBaseline(insn)
    ensures insn.mnemonic in UNGROUPED ==> AboveBaseline(insn)
    ensures insn.mnemonic in {"tzcnt", "lzcnt", "pause"} ==> !AboveBaseline(insn)
  {
    assert forall m :: m in UNGROUPED ==> m in MNEMONIC_DISALLOW && m !in BACKWARD_COMPATIBLE;
    assert forall g :: IsLater(g) ==> g in DISALLOWED by {
      LaterIsAbove();
    }
    BaselineIsBelow();
  }

  lemma LaterIsAbove()
    ensures LATER_SSE + LATER_AVX <= DISALLOWED && LATER_SCALAR + LATER_SYSTEM <= DISALLOWED
  {
  }

  /** The groups that came after, family by family. */
  predicate IsLater(group: string) {
    group in LATER_SSE || group in LATER_AVX || group in LATER_SCALAR || group in LATER_SYSTEM
  }

  const LATER_SSE: set<string> := {"SSE2", "SSE3", "SSSE3", "SSE41", "SSE42", "SSE4A", "AES", "SHA", "PCLMUL", "3DNOW"}
  const LATER_AVX: set<string> := {
    "AVX", "AVX2", "AVX512", "BWI", "CDI", "DQI", "ERI", "PFI", "VLX", "FMA", "FMA4", "XOP", "F16C"
  }
  const LATER_SCALAR: set<string> := {"BMI", "BMI2", "TBM", "ADX"}
  const LATER_SYSTEM: set<string> := {"RTM", "HLE", "FSGSBASE", "SGX", "SMAP"}

  /** Instructions that the decoder gives no group: bit counts and byte swaps, random numbers and identification,
      carries, cache lines, waiting, and segment bases. */
  const UNGROUPED: set<string> := {
    "popcnt", "movbe", "rdrand", "rdseed", "rdtscp", "rdpid", "adcx", "adox", "clflushopt", "clwb", "clzero",
    "cldemote", "monitorx", "mwaitx", "umonitor", "umwait", "tpause", "serialize", "rdfsbase", "wrfsbase", "rdgsbase",
    "wrgsbase", "ptwrite"
  }

  lemma BaselineIsBelow()
    ensures BASELINE !! DISALLOWED
  {
  }

  /** What a Pentium III runs, and what only describes an instruction. */
  const BASELINE: set<string> := {
    "CMOV", "FPU", "MMX", "SSE1", "JUMP", "CALL", "RET", "INT", "IRET", "PRIVILEGE", "VM", "BRANCH_RELATIVE",
    "MODE32", "NOT64BITMODE"
  }

  /** Exactly such instructions are reported. */
  lemma ReportedIffAbove(insn: Insn)
    ensures Violations(insn) != {} <==> AboveBaseline(insn)
  {
    var above := insn.groups * DISALLOWED;
    assert above != {} <==> exists g :: g in insn.groups && g in DISALLOWED by {
      assert forall g :: g in above <==> g in insn.groups && g in DISALLOWED;
    }
    assert insn.mnemonic !in BACKWARD_COMPATIBLE ==> above <= Violations(insn);
    assert Violations(insn) <= above + {"post-PIII"};
    assert AboveBaseline(insn) && insn.mnemonic in MNEMONIC_DISALLOW ==> "post-PIII" in Violations(insn);
  }
}
