# Model of the generated RISC-V privileged hardware

The repository turns SystemRDL descriptions into clocked ARCH modules: an interrupt controller (PLIC), a timer
(CLINT), and a control-and-status-register (CSR) file with its access controller and trap coordinator. It then
puts them on an Ibex core through an OBI bridge and a hybrid CSR adapter. This project models the generators as
programs that emit a small abstract syntax, gives that syntax its clocked meaning, composes the emitted modules
with the register blocks and the adapter, and proves properties of every design and every run.

Bit vectors are sequences of booleans, least significant bit first. A clocked block is executed with non-blocking,
last-write-wins meaning: right-hand sides read the state before the edge. A run is an infinite stream of inputs;
the properties below hold at every cycle of every run. Asynchronous reset is a single initial state.

## How the parts fit

* `Bits`, `Counting`, `Options`, `Sequences`: bit vectors and their numeric reading, wrapping counters, the optional
  value, regrouping of concatenations.
* `PlicScan`, `PlicEmitter`, `PlicArbiter`: scanning an address map, the generator with its emitted wires and
  registers, and the arbitration rule they compute.
* `PlicMachine`, `PlicSafety`, `PlicShadow`, `PlicShared`, `PlicDrain`: the logic module clocked together with the
  AXI4-Lite register block (classes `RegBlock`, `LogicBlock`, `Plic`), for any number of sources and contexts;
  claim/complete safety and a run that shows its limit, the in-service ledger, one source on two contexts, drain order
  and independence of contexts.
* `CsrDesign`, `CsrLayout`, `CsrEmitter`, `CsrCorrect`: the flat design with its validator, the packed read view,
  the emitted clocked block and the proof that it is the simple per-field rule.
* `CsrLaws`, `CsrCounters`, `CsrTop`: runs of a CSR file (class `CsrFile`), WARL legality, split counters, the
  access controller, the trap coordinator and the integrated top.
* `IbexFixture`, `FixtureSample`, `HybridMachine`, `HybridInvariants`, `AdapterLaws`, `TrapMachine`, `StatusLaws`,
  `StatusSample`, `TrapNesting`, `NestingSample`: the closed loop of CSR file, coordinator, adapter and privilege
  register (class `Hybrid`), what all its runs keep, where commands, interrupt lines and events go, bus writes against
  traps and returns, the privileges that occur, nested traps, and runs that show where these properties end. The
  fixture is any design with distinct names and addresses that contains the trap, counter-inhibit and debug
  registers of the Ibex map, with the other registers left open.
* `Clint`, `ObiBridge`, `SocLaws`, `Pmp`: the timer (class `Timer`), the bus bridge and system bus, what each store and
  load does at its address, and the memory protection registers (class `Registers`).

## Model

| member | source | states |
|---|---|---|
| PlicArbiter.WinnerIsUnique | src/rdl2arch_riscv/emit_plic_logic.py:264-292 | The arbitration rule (0 iff no source is pending, enabled, above threshold and unclaimed; else the candidate of highest priority and, among equals, of lowest ID) is met by exactly one ID, the one that an ideal cascade with an unbounded running priority yields |
| PlicArbiter.RunningIsCandidate | src/rdl2arch_riscv/emit_plic_logic.py:264-292 | After any number of stages of the emitted cascade, and for any priorities, the running ID is 0 exactly when no source so far is a candidate, and otherwise is a candidate |
| PlicArbiter.RunningIsBest | src/rdl2arch_riscv/emit_plic_logic.py:273-292 | When the priorities fit, the emitted cascade with its 3-bit running priority yields at every stage the ideal ID and the low 3 bits of its priority |
| PlicArbiter.CascadeExact | src/rdl2arch_riscv/emit_plic_logic.py:219-292 | For every vector of priorities: the emitted cascade obeys the arbitration rule on all requests with it iff cutting a priority to 3 bits lets no later source of no higher priority overtake |
| PlicArbiter.SmallPrioritiesFit | src/rdl2arch_riscv/emit_plic_logic.py:219-219 | Priorities below 8 always meet that condition |
| PlicArbiter.LargePriorityLoses | src/rdl2arch_riscv/emit_plic_logic.py:290-291 | The input that fails: with priorities 8 and 1 at threshold 0 the cascade picks source 2 where the rule picks source 1 |
| PlicArbiter.IdsFit | src/rdl2arch_riscv/emit_plic_logic.py:217-219 | Every ID the cascade or the match tables can produce is at most n and fits `max(1, n.bit_length())` bits, and one bit less would not do |
| PlicArbiter.IdKept | src/rdl2arch_riscv/emit_plic_logic.py:273-316 | So the wires and match arms of that width never cut an ID; the meaning of the emitted wires below rests on it |
| PlicEmitter.Validate | src/rdl2arch_riscv/emit_plic_logic.py:123-159 | Accepts exactly the complete fixtures; a complaint names the first broken rule, and for pulses the first context without them |
| PlicEmitter.EmitPlicLogic | src/rdl2arch_riscv/emit_plic_logic.py:178-357 | The generator's nested loops emit exactly the module whose meaning is proved below, and reject exactly the incomplete fixtures |
| PlicEmitter.EmittedModuleCorrect | src/rdl2arch_riscv/emit_plic_logic.py:259-353 | For any n, contexts and priorities, once the emitted wires settle at their declared widths each context drives its cascade's ID (its arbitration winner when the priorities fit), raises its own interrupt bit iff it has a candidate, and latches claims set and completions cleared from the stored claim ID |
| PlicEmitter.EmittedArbiterExact | src/rdl2arch_riscv/emit_plic_logic.py:259-353 | For every vector of priorities: with all port values and all settlings of its wires the emitted module drives every context's arbitration winner iff the priorities fit the 3-bit running wire |
| PlicEmitter.EmittedModuleSettles | src/rdl2arch_riscv/emit_plic_logic.py:259-321 | The emitted wire equations always have a solution |
| PlicEmitter.TableIsMask | src/rdl2arch_riscv/emit_plic_logic.py:297-316 | The unrolled match table yields the one-hot mask of an ID in 1..n and nothing for ID 0 or an ID above n |
| PlicScan.ScanPlic | src/rdl2arch_riscv/emit_plic_logic.py:68-120 | The scanning loop buckets registers by role and sorts contexts by address and sources by index |
| PlicScan.ScanOrders | src/rdl2arch_riscv/emit_plic_logic.py:84-119 | Each list holds exactly the registers of its role, as often as the map lists them: enables, thresholds and claims by ascending address, priorities by ascending array index |
| PlicScan.ScanStable | src/rdl2arch_riscv/emit_plic_logic.py:104-114 | Registers of one address, or priorities of one index, keep the order in which the map lists them |
| PlicScan.ScanIgnoresOrder | src/rdl2arch_riscv/emit_plic_logic.py:71-76 | Context and source numbers do not depend on the order in which the address map lists its registers |
| PlicScan.FixtureAccepted | src/rdl2arch_riscv/emit_plic_logic.py:123-159 | A scanned fixture is accepted iff it has a pending register, equally many enable, threshold and claim registers (at least one), a source beyond 0, and both pulses on every claim register |
| PlicMachine.GeneratedLogicDrivesMachine | tests/expected/plic_multictx/PlicMultictxLogic.arch:24-148 | One edge of the composed machine is what the generated logic module, with its wires at their declared widths, computes from its ports, whatever the priorities |
| PlicMachine.RegBlock.Clock | tests/expected/plic_multictx/PlicMultictx.arch:81-120 | One edge of the register block: response throttles, read capture, hardware drives, and bus writes that win over them |
| PlicMachine.Plic.Clock | tests/expected/plic_multictx/PlicMultictx.arch:58-144 | Register block and logic module clocked together take exactly one step of the composed machine |
| PlicSafety.InvHolds | tests/expected/plic_multictx/PlicMultictx.arch:58-59 | In every reachable state: with no read response outstanding and outside the shadow cycle, the one-cycle-stale claim register never shows an ID that is in service |
| PlicSafety.ServiceStep | src/rdl2arch_riscv/emit_plic_logic.py:323-333 | Exactly how one cycle changes the in-service status of an ID: a claim read sets it, a completion clears it one cycle after its write, and clearing wins |
| PlicSafety.ResponseCarriesClaim | tests/expected/plic_multictx/PlicMultictx.arch:117-139 | The data of a claim read stays on the bus unchanged until the response is taken |
| PlicSafety.NoDoubleClaim | tests/expected/plic_multictx/PlicMultictx.arch:141-144 | Between two claim reads of one context that return the same nonzero ID, the first of them outside the shadow cycle, that ID was completed on that context |
| PlicSafety.CompletionReleases | tests/expected/plic_multictx/PlicMultictx.arch:97-115 | A word written to a claim register takes the ID in its low bits out of service with the next cycle's edge, and leaves every other ID as it is |
| PlicSafety.CompletionOfId | tests/expected/plic_multictx/PlicMultictx.arch:107-109 | In particular, writing back the ID of any implemented source ends its service |
| PlicShadow.ShadowReadRepeats | tests/expected/plic_multictx/PlicMultictx.arch:58-59 | The condition on the first read is needed: a run in which a read in a shadow cycle and a later one return the same ID with no completion written from the first on |
| PlicSafety.ShadowReadTakesNothing | src/rdl2arch_riscv/emit_plic_logic.py:308-333 | A claim read in the cycle after a completion write returns the written ID and latches nothing; a read takes its ID iff it is outside the shadow |
| PlicSafety.Ledger | src/rdl2arch_riscv/emit_plic_logic.py:249-256 | In every reachable state an ID is in service iff its latest settled event was a claim |
| PlicSafety.ServiceBalance | src/rdl2arch_riscv/emit_plic_logic.py:221-224 | In every reachable state the IDs in service all lie in 1..n, and their number is claims minus effective completions |
| PlicShared.ApartEnablesApartService | src/rdl2arch_riscv/emit_plic_logic.py:249-256 | In every run, two contexts of which never both had an ID enabled, in the same cycle or in different ones, never hold that ID in service together |
| PlicShared.HeldTwice | src/rdl2arch_riscv/emit_plic_logic.py:249-256 | Otherwise they can: a run in which two contexts claim the one source and both hold it in service |
| PlicDrain.ServiceOrderExists | src/rdl2arch_riscv/emit_plic_logic.py:259-292 | Every request has a service order: all its candidates by priority descending, then ID ascending |
| PlicDrain.HandedOrderExists | src/rdl2arch_riscv/emit_plic_logic.py:259-333 | For any priorities there is an order in which the cascade drives each candidate once as the driven IDs are taken into service |
| PlicDrain.HandedOrderExact | src/rdl2arch_riscv/emit_plic_logic.py:219-333 | That order is the service order on every request with given priorities iff the priorities fit the 3-bit running wire |
| PlicDrain.DrainsHandedOrder | src/rdl2arch_riscv/emit_plic_logic.py:259-353 | For any priorities, with steady inputs and no completions, the k-th claim read returns the k-th candidate handed out, later reads return 0, and the interrupt is high exactly while candidates are left |
| PlicDrain.DrainOrder | src/rdl2arch_riscv/emit_plic_logic.py:259-353 | When the priorities fit, the k-th claim read returns the k-th candidate of the service order |
| PlicDrain.NonInterference | tests/expected/plic_multictx/PlicMultictxLogic.arch:136-148 | Runs that agree on sources, priorities and one context's accesses agree on that context's state and interrupt bit, whatever other contexts do |
| CsrDesign.ValidateExact | src/rdl2arch_riscv/validate_csrs.py:10-143 | The validator accepts exactly the designs that meet every rule at once |
| CsrEmitter.EmitCsrFile | src/rdl2arch_riscv/emit_csr_file.py:212-314 | The three passes and the guarded write block are emitted in full iff both lookups succeed for every linked high half |
| CsrEmitter.LowHalfIsFirst | src/rdl2arch_riscv/emit_csr_file.py:241-246 | In any design the two lookups for a linked field find the first register of the name and its first enabled counter, and nothing exactly when there is none |
| CsrEmitter.ValidationSufficesForEmission | src/rdl2arch_riscv/validate_csrs.py:109-143 | For an accepted design both lookups of the counter pass always find something |
| CsrLayout.ReadParts | src/rdl2arch_riscv/emit_csr_file.py:346-364 | The running `next_bit` pass yields the concatenation of gaps and field views |
| CsrLayout.SortStable | src/rdl2arch_riscv/emit_csr_file.py:350-350 | The fields are packed from the highest to the lowest start, and fields that start together keep their listed order |
| CsrLayout.LayoutLaw | src/rdl2arch_riscv/emit_csr_file.py:141-147 | The packed read view is exactly xlen wide, bits [msb:lsb] are the field's view (zero when reserved or unreadable), and every other bit is zero |
| CsrCorrect.EmittedFieldCorrect | src/rdl2arch_riscv/emit_csr_file.py:89-138 | In every design with distinct names, one edge of the emitted block gives each field: the fired bus write legalised, else the enabled increment or carry, else the hardware drive, else its old value |
| CsrCorrect.SignalsExact | src/rdl2arch_riscv/emit_csr_file.py:168-170 | The pulse registers are exactly the tags on registers and on fields |
| CsrCorrect.EmittedPulseCorrect | src/rdl2arch_riscv/emit_csr_file.py:216-218 | For every tag of the design: its pulse is high exactly in the cycle after a write fired on a register that carries it on a live field or on itself |
| CsrLaws.PulseExact | src/rdl2arch_riscv/emit_csr_file.py:216-218 | In every run from reset each tag of the design has its pulse, low at reset and then high exactly after a valid, granted write operation to a register with that tag, its own or that of a field software may write |
| CsrCorrect.LeastIsLeast | src/rdl2arch_riscv/emit_csr_file.py:123-126 | The enumeration fallback is a listed value and no listed value is smaller |
| CsrLaws.CsrFile.Clock | src/rdl2arch_riscv/emit_csr_file.py:214-314 | Interpreting the block with pending assignments commits exactly its last-write-wins meaning |
| CsrLaws.ResetAt | src/rdl2arch_riscv/emit_csr_file.py:68-70 | Out of reset every field holds its reset value at its width |
| CsrLaws.MuxSelects | src/rdl2arch_riscv/emit_csr_file.py:202-210 | With distinct addresses the read multiplexer returns the addressed register's view |
| CsrLaws.CsrFile.ReadData | src/rdl2arch_riscv/emit_csr_file.py:202-210 | The generated match, tried arm by arm, returns the multiplexer's value: the first register at the address, else zero |
| CsrLaws.SizedAlways | src/rdl2arch_riscv/emit_csr_file.py:189-195 | In every run every field keeps its declared width |
| CsrLaws.LegaliseLaws | src/rdl2arch_riscv/emit_csr_file.py:106-135 | Legalisation always lands on a legal value, is idempotent, and changes nothing iff the value was legal |
| CsrLaws.LegalAlways | src/rdl2arch_riscv/emit_csr_file.py:89-138 | In every run a software-only WARL field with a legal reset is legal in every state |
| CsrLaws.WriteReadsBack | src/rdl2arch_riscv/emit_csr_file.py:73-86 | A fired write, set or clear reads back in the next cycle as the legalised per-field result |
| CsrLaws.ReadOnlyFieldIgnoresWrites | src/rdl2arch_riscv/emit_csr_file.py:95-100 | A reserved field, or one that software may not write, behaves under every bus write as in an idle cycle |
| CsrLaws.WriteBackIsIdle | src/rdl2arch_riscv/emit_csr_file.py:346-364 | Writing back the value just read leaves every field as an idle cycle would, when the writable fields are readable, legal and not changed by hardware in that cycle |
| CsrLaws.WriteBackPulses | src/rdl2arch_riscv/emit_csr_file.py:277-280 | Such a write is still a write to the trap pulses: exactly the register's live tags pulse after it, where an idle cycle pulses none |
| CsrLaws.OpCollapse | tests/cpu/soc/ibex_cs_registers_hybrid.sv:1904-1914 | For any layout and WARL rule, sending the precomputed SET or CLEAR value as a WRITE reaches the same store as the original operation, if writable fields are readable |
| CsrCounters.CarryConstantIsAllOnes | src/rdl2arch_riscv/emit_csr_file.py:251-251 | The emitted carry literal is all ones exactly for widths divisible by 4 |
| CsrCounters.HalvesStep | src/rdl2arch_riscv/emit_csr_file.py:228-261 | Without a bus write the low half counts when enabled and the high half when the low half equals the literal |
| CsrCounters.CountsAsOneIff | src/rdl2arch_riscv/emit_csr_file.py:228-261 | Two linked halves count as one number in every write-free cycle iff their width is a multiple of 4 |
| CsrCounters.JointRun | src/rdl2arch_riscv/emit_csr_file.py:228-261 | For widths divisible by 4, over any write-free stretch the joint {high, low} value is its start plus the enabled cycles, modulo 2^(2W) |
| CsrCounters.MissedCarry | src/rdl2arch_riscv/emit_csr_file.py:251-251 | For every other width the idle run from reset with the enables high reaches a cycle in which the high half moves early |
| CsrCounters.JointRunExact | src/rdl2arch_riscv/emit_csr_file.py:228-261 | The joint value is its reset value plus the enabled cycles in every write-free run from reset iff the half width is a multiple of 4 |
| CsrCounters.NarrowPairMiscounts | src/rdl2arch_riscv/validate_csrs.py:109-143 | The validator lets such widths through: an accepted design with 6-bit halves and a reachable cycle in which the pair miscounts |
| CsrTop.AccessRule | src/rdl2arch_riscv/emit_access_controller.py:67-84 | A valid command is granted or illegal, never both, with cause 2; the least granted privilege is 0, 1 or 3 by the letter u, s or m of the first register there that has one, and else, also at an address that names no register, address bits [9:8]; a grant holds at every higher privilege; addresses 0xC00 and up refuse writes |
| CsrTop.EmitTrapCoordinator | src/rdl2arch_riscv/emit_trap_coordinator.py:122-168 | The generator's loops emit one drive line per hardware-writable field, or the placeholder when there is none |
| CsrTop.DrivenOnceExact | src/rdl2arch_riscv/emit_trap_coordinator.py:127-161 | In a design with distinct names every member of the drive struct is assigned by exactly one line iff the flat member names are unique |
| CsrTop.PlainNamesSuffice | src/rdl2arch_riscv/scan_csrs.py:116-126 | Register names without an underscore make the flat member names unique |
| CsrTop.CollidingMemberDrivenTwice | src/rdl2arch_riscv/validate_csrs.py:10-143 | The validator does not ensure that: an accepted design with distinct register and field names in which one member is driven twice |
| CsrTop.PortsFeedOneDrive | src/rdl2arch_riscv/emit_trap_coordinator.py:102-161 | In an accepted design every save and mirror port feeds exactly one line; a restore port does iff its field is hardware-writable |
| CsrTop.RestorePortUnfed | src/rdl2arch_riscv/validate_csrs.py:10-143 | The second case is real: an accepted design whose restore port feeds no line |
| CsrTop.CoordinatorCorrect | src/rdl2arch_riscv/emit_trap_coordinator.py:127-161 | Each member is driven by its mirror, else by save on trap entry, else by restore on return, else by the live value |
| CsrTop.EmptyDrivesPlaceholder | src/rdl2arch_riscv/emit_trap_coordinator.py:127-168 | A design without hardware-writable fields still drives one placeholder member from its live value |
| CsrTop.TopFieldLaw | tests/sim/integrated_top.py:164-231 | In every run of the integrated top, every field that does not count: an allowed write operation leaves its legalised result on the operand's bits; else a hardware-writable field takes its mirror port, its save port on a trap, its restore port on a return, or zero; any other field holds |
| CsrTop.TopCounterLaw | tests/sim/integrated_top.py:164-231 | A counter that is not written advances exactly when its own enable port is high |
| CsrTop.DeniedCommandsErasable | tests/sim/integrated_top.py:164-231 | Every run of the integrated top reaches the same state as the run with every denied, read-only-operation or unmapped command replaced by an idle cycle |
| CsrTop.ErasedExactly | tests/sim/integrated_top.py:170-225 | Replaced are exactly the commands that are not valid, ask for more privilege, read only, write to a read-only address, or name no register |
| FixtureSample.FixtureIsMet | tests/rdl/mtrap_ibex.rdl:95-316 | The hypotheses of the closed loop and of its counters can be met: a design with just the named registers and mcycle/mcycleh satisfies them all |
| HybridMachine.Hybrid.Clock | tests/cpu/soc/ibex_cs_registers_hybrid.sv:1023-1032 | One edge of the adapter: the generated file steps under the wired inputs and the privilege register follows trap, debug return and return |
| HybridMachine.DrivenIsExpected | tests/cpu/soc/ibex_cs_registers_hybrid.sv:1984-2133 | Coordinator lines and adapter wiring composed give every member its intended value: save, restore, clear of mie, mirror, hold, or zero |
| HybridInvariants.FieldStep | tests/cpu/soc/ibex_cs_registers_hybrid.sv:1928-1938 | One edge of the closed loop: a bus write legalises its data bits, else hardware drives the expected value, else the field holds |
| HybridInvariants.InvAlways | tests/rdl/mtrap_ibex.rdl:144-159 | The invariant of the closed loop (widths, aligned return address, legal debug privilege, vectored aligned trap vector) holds in every reachable state |
| HybridInvariants.ClosedLoopLegality | tests/cpu/soc/ibex_cs_registers_hybrid.sv:1061-1069 | In every reachable state mepc bit 0 is 0, dcsr.prv is U or M, and the mtvec that software reads back is the one the core jumps through, with low byte 0x01 |
| HybridInvariants.InitLoadsVector | tests/cpu/soc/ibex_cs_registers_hybrid.sv:1928-1938 | The reset-time replay leaves {boot_addr[31:8], 6'b0, 2'b01} in mtvec, whatever command the core issues in that cycle |
| HybridInvariants.TrapRecords | tests/cpu/soc/ibex_cs_registers_hybrid.sv:2094-2116 | A trap leaves the interrupt flag, the filler and the cause code in their places of mcause, and the trap value in mtval; when a bus write to one of them lands in that cycle, that register holds the written word instead |
| HybridInvariants.CounterExact | tests/cpu/soc/ibex_cs_registers_hybrid.sv:2148-2162 | Over any write-free stretch a 64-bit counter advances by exactly the cycles in which its event occurred and its stored inhibit bit was 0 |
| HybridInvariants.CycleCounterExact | tests/cpu/soc/ibex_cs_registers_hybrid.sv:1416-1416 | mcycle advances by exactly the cycles whose stored `cy` bit was 0 |
| HybridInvariants.AdapterCollapse | tests/cpu/soc/ibex_cs_registers_hybrid.sv:1042-1058 | The closed loop has the same runs whether the adapter sends the collapsed write or the core's own operation and operand, when the addressed registers' writable fields are readable |
| AdapterLaws.CoreWriteLands | tests/cpu/soc/ibex_cs_registers_hybrid.sv:1858-1925 | In every run each write, set or clear of the core to one of the migrated CSRs (trap setup and handling, debug, and counter, high half and event selector of counters 0 and 3 to 12) leaves the legalised result of that operation in every field software may write (and, for set and clear, read) |
| AdapterLaws.OtherwiseHolds | tests/cpu/soc/ibex_cs_registers_hybrid.sv:1922-1938 | In every other cycle a field that hardware does not drive and that does not count keeps its value; the reset-time replay writes mtvec only |
| AdapterLaws.CoreReadShows | tests/cpu/soc/ibex_cs_registers_hybrid.sv:1858-1938 | Every access of the core to a migrated CSR reads each field as it is before the edge, and zeros for a reserved or unreadable one |
| AdapterLaws.PendingFollowsLines | tests/cpu/soc/ibex_cs_registers_hybrid.sv:2127-2130 | mip shows the software, timer, external and fast interrupt lines of the cycle before, each in its own bit |
| AdapterLaws.HpmCounterExact | tests/cpu/soc/ibex_cs_registers_hybrid.sv:2151-2162 | Performance counter n (3 to 12), enabled by its own port, advances by exactly the cycles in which event n occurs and bit n - 3 of the stored inhibit field is clear |
| TrapMachine.ClosedLoopIsTrapRun | tests/cpu/soc/ibex_cs_registers_hybrid.sv:926-1032 | Every run of the closed loop is a run of a small machine over mie, mpie, mpp, mepc and privilege, with its reads of mstatus and mepc |
| StatusLaws.BusWinsOverTrap | tests/cpu/soc/ibex_cs_registers_hybrid.sv:926-1032 | In every trap cycle of every run: mepc and the three status bits hold the word written by the bus if a write to them lands in that cycle, and the trap's values if not; the privilege is M either way |
| StatusLaws.TrapSavesPc | tests/cpu/soc/ibex_cs_registers_hybrid.sv:930-939 | A trap without a bus write to mepc leaves there the program counter of the trapped stage with bit 0 clear: fetch, else decode, else write-back, and decode by default |
| StatusLaws.BusWinsOverReturn | tests/cpu/soc/ibex_cs_registers_hybrid.sv:2117-2133 | In every cycle of a return: the status bits hold the written word or else the restored values, mepc the written address or its own, and the privilege is mpp, or dcsr.prv for a debug return in the same cycle |
| StatusSample.WritesOverrule | tests/cpu/soc/ibex_cs_registers_hybrid.sv:1928-1938 | Both happen: a run on the sample fixture in which mepc does not hold the trapped address and, in the next cycle, mie not the bit that the return restores |
| StatusLaws.PrivilegeLegalIff | tests/cpu/soc/ibex_cs_registers_hybrid.sv:816-823 | Up to any cycle of any run mpp and the running privilege were U or M iff the reset value of mpp is and so are the mpp bits of every word written to mstatus |
| StatusSample.IllegalPrivilege | tests/cpu/soc/ibex_cs_registers_hybrid.sv:1009-1009 | The run that fails: after a write of 1 to mpp and a return the core runs in neither mode |
| TrapNesting.EpisodeRestores | tests/cpu/soc/ibex_cs_registers_hybrid.sv:1985-2003 | A trap and its return, with guarded handlers nested to any depth, restore mie and privilege, set mpie, leave mpp at U and expose the saved address |
| TrapNesting.EpisodeMode | tests/cpu/soc/ibex_cs_registers_hybrid.sv:943-944 | Every cycle from the trap up to its return runs in M mode, nested handlers included |
| TrapNesting.WellNestedTrapsRestore | tests/cpu/soc/ibex_cs_registers_hybrid.sv:2013-2133 | In every run of the closed loop, for every properly bracketed trap whose handler nests further traps only under a write-back of the mstatus and mepc it read: the return sees the saved address with bit 0 clear, mie and privilege are restored, mpie is 1, mpp is U, and all cycles in between ran in M mode |
| TrapNesting.ReturnSeesTrappedPc | tests/cpu/soc/ibex_cs_registers_hybrid.sv:930-939 | In the cycle of its return, however deep the nesting, mepc holds the program counter of the stage that the trap interrupted |
| TrapNesting.HandlerRestoresIff | tests/cpu/soc/ibex_cs_registers_hybrid.sv:2117-2124 | In every run of the closed loop, a trap whose handler does nothing unguarded after its last trap taken outside a write-back restores the interrupted state iff there is no such trap or the interrupted state happens to be the one that this trap leaves |
| TrapNesting.WriteBackNeeded | tests/cpu/soc/ibex_cs_registers_hybrid.sv:2117-2124 | Spelled out: when a handler, after any bracketed stretches with any CSR writes, takes a trap outside a write-back and then runs guarded and quiet stretches only, the outer return is right iff the interrupted program ran in U mode with interrupts enabled and was to resume at the very address where the handler was interrupted |
| NestingSample.UnguardedNestingLoses | tests/cpu/soc/ibex_cs_registers_hybrid.sv:2117-2124 | Such runs exist and fail: a run of the closed loop on the sample fixture with two nested traps whose outer return does not restore |
| Clint.Timer.Clock | tests/expected/clint_basic/Clint.arch:63-98 | One edge of the register block with the timer logic wired back takes exactly one step of the specification |
| Clint.TimeExact | src/rdl2arch_riscv/emit_clint_logic.py:117-132 | Over any stretch without writes to its halves, mtime is its start plus the ticks modulo 2^64 |
| Clint.InterruptExact | src/rdl2arch_riscv/emit_clint_logic.py:133-137 | From mtime < mtimecmp the timer interrupt is up exactly when mtimecmp - mtime ticks have passed, until mtime wraps |
| Clint.InterruptFallsAtWrap | src/rdl2arch_riscv/emit_clint_logic.py:121-124 | At the wrap mtime is 0 and the interrupt falls unless mtimecmp is 0 |
| Clint.UpdateIsSilent | tests/expected/clint_basic/Clint.arch:78-94 | The update sequence low = -1, high, low never raises the interrupt while mtime is below the old and the new comparator, and leaves the new one |
| ObiBridge.SelDisjoint | tests/cpu/soc/ibex_mini_soc.sv:131-147 | The address decode is one-hot |
| ObiBridge.PlicDecodes | tests/expected/plic_multictx/PlicMultictx.arch:61-79 | Every implemented PLIC register answers at its own address |
| ObiBridge.PlicDecodesOnly | tests/expected/plic_multictx/PlicMultictx.arch:61-79 | An address that answers is that of the register it answers for, and that register is implemented |
| ObiBridge.OneResponder | tests/cpu/soc/ibex_mini_soc.sv:426-466 | In every run no two slaves respond in the same cycle; in particular never both bridges |
| ObiBridge.ResponseIffGrant | tests/cpu/soc/obi_to_axi_lite.sv:79-105 | In every run a response arrives at t+1 iff a request was granted at t |
| ObiBridge.LoadReturnsView | tests/expected/plic_multictx/PlicMultictx.arch:81-93 | A granted load returns, one cycle later, the addressed register as it was in the grant cycle, through the response multiplexer |
| ObiBridge.HeldRequestGranted | tests/cpu/soc/obi_to_axi_lite.sv:94-98 | A request held for two cycles is granted in one of them iff its address is mapped |
| ObiBridge.CoreNeverClaimsTwice | tests/cpu/soc/ibex_mini_soc.sv:307-416 | End to end: if the core loads the same nonzero ID twice from one claim register, the first time not right after a store to it, then it stored that ID there in between |
| SocLaws.AddressMap | tests/cpu/soc/ibex_mini_soc.sv:131-147 | The four selects answer at 0x100000 (1 MiB), 0x20000 (1 KiB), 0x2000000 (64 KiB) and 0xC000000 (4 MiB) and nowhere else |
| SocLaws.TimerStoresLand | tests/expected/clint_basic/Clint.arch:76-94 | In every cycle of every run a granted store to 0x2000000, 0x2004000, 0x2004004, 0x200BFF8 or 0x200BFFC leaves exactly the stored word (bit 0 in msip) in exactly that register; registers not stored to keep their value, and mtime ticks |
| SocLaws.TimeCountsCycles | tests/cpu/soc/ibex_mini_soc.sv:293-293 | Between stores to it, mtime counts the cycles of the system modulo 2^64 |
| SocLaws.PlicStoresLand | tests/expected/plic_multictx/PlicMultictx.arch:97-115 | In every cycle of every run a granted store to an enable, threshold or claim register at its address leaves exactly the stored bits there; an enable or threshold register not stored to keeps its value |
| SocLaws.StoreEndsService | tests/expected/plic_multictx/PlicMultictx.arch:107-115 | A core that stores a source's ID to a claim register ends its service on that context, and no other's |
| SocLaws.TimerLoads | tests/expected/clint_basic/Clint.arch:54-61 | A granted load in the timer's range returns the register at its address, and 0 elsewhere |
| SocLaws.PlicLoads | tests/expected/plic_multictx/PlicMultictx.arch:61-79 | A granted load in the interrupt controller's range returns the register at its address as of the grant, the pending register the source lines of the cycle before, and 0 elsewhere |
| Pmp.Registers.Clock | tests/cpu/soc/ibex_cs_registers_hybrid.sv:1258-1370 | One edge over all regions takes exactly one step of the specification |
| Pmp.ConfigWrite | tests/cpu/soc/ibex_cs_registers_hybrid.sv:1263-1309 | In every run a write to pmpcfg takes effect on each entry of its group of four that is not locked (or bypassed) and does not newly ask for M-mode execution under mml: R, W, X, mode and L are bits 0, 1, 2, 3-4 and 7 of its byte; every other entry keeps its configuration |
| Pmp.AddressWrite | tests/cpu/soc/ibex_cs_registers_hybrid.sv:1314-1334 | A write to pmpaddr takes effect exactly when neither the entry nor a top-of-range entry above it is locked, with the low bits dropped by the grain |
| Pmp.SecurityWrite | tests/cpu/soc/ibex_cs_registers_hybrid.sv:1340-1352 | A write to mseccfg sets mml and mmwp for good, and rlb only while no entry is locked |
| Pmp.LockIsPermanent | tests/cpu/soc/ibex_cs_registers_hybrid.sv:1301-1322 | In every run, for any region count and reset configuration: once an entry is locked while the bypass is off, the bypass stays off and the entry's configuration and address never change, nor the address below a top-of-range entry |
| Pmp.LockdownIsSticky | tests/cpu/soc/ibex_cs_registers_hybrid.sv:1344-1346 | mml and mmwp stay set in every run |
| Pmp.NoNewMachineExec | tests/cpu/soc/ibex_cs_registers_hybrid.sv:200-214 | Under mml with the bypass off no write turns an entry into a locked one that lets M mode execute |
| Pmp.ReservedNeverAppears | tests/cpu/soc/ibex_cs_registers_hybrid.sv:1282-1286 | In a run that starts without write-only entries none appears while mml is unset |

## Where code and prose differ

The model follows the code.

* The WARL enumeration falls back to its smallest listed value (emit_csr_file.py, lines 123-135); the module
  docstring, lines 36-40, says the largest listed value not above the written one.
* The generator fixes the wires of the running priority at 3 bits (emit_plic_logic.py, lines 219, 277 and 290) and
  never checks the width of the priority fields. The fixtures' fields are 3 bits wide, which always fits. With wider
  fields the arbitration rule holds iff cutting a priority lets no later source overtake (`PlicArbiter.CascadeExact`,
  `PlicEmitter.EmittedArbiterExact`, `PlicDrain.HandedOrderExact`); priorities 8 and 1 break it
  (`PlicArbiter.LargePriorityLoses`). The model truncates on assignment to such a wire; a compiler that refuses the
  narrowing would reject every design with wider fields instead.
* A completion clears the in-service bit whether or not the source is enabled.
* Read data is not gated by `granted`; a denied command still reads.
* The carry literal of a split counter is all ones only for widths divisible by 4 (`CsrCounters.JointRunExact`), and
  the validator accepts others (`CsrCounters.NarrowPairMiscounts`).
  For a width below 4 the literal has no digits at all; the model reads it as zero.
* The validator does not ask that a `restore` field be hardware-writable, that addresses be unique, that fields not
  overlap or that flat member names be unique. The first is stated exactly (`CsrTop.PortsFeedOneDrive`), and
  `CsrTop.RestorePortUnfed` is an accepted design without it; the others are hypotheses. The last one is exactly what
  single drivers need (`CsrTop.DrivenOnceExact`), and `CsrTop.CollidingMemberDrivenTwice` is an accepted design
  without it.
* A comment of the adapter (ibex_cs_registers_hybrid.sv, line 926) gives the exception controller priority over other
  writes. For the generated file it is the other way round: a bus write to mcause or mtval wins over a trap save in the
  same cycle (`HybridInvariants.TrapRecords`), and one to mepc or mstatus over a trap save and over a return
  (`StatusLaws.BusWinsOverTrap`, `StatusLaws.BusWinsOverReturn`, `StatusSample.WritesOverrule`). Well-nesting excludes
  such writes.
* mpp keeps any of its four values where the original core coerces to U or M; the adapter's comment (lines 819-822)
  calls that benign because its software never writes mpp. `StatusLaws.PrivilegeLegalIff` is what that rests on, and
  `StatusSample.IllegalPrivilege` what happens otherwise.
* In-service state is kept per context, so a source enabled on two contexts can be claimed on both
  (`PlicShared.HeldTwice`), where in the RISC-V PLIC specification a claim clears the source's one pending bit.

## Left out

- SystemRDL elaboration, UDP registration, file writing, the command line and exporter names: library calls and I/O.
- The exact ARCH text, package, enum and struct declarations: the abstract syntax and its meaning are modelled instead.
- Port declarations of the emitted modules and their sort order: they have no clocked meaning.
- PlicMachine.Plic.Clock: priority registers are environment-driven configuration, because the range of the generated loop that writes them is a convention of the ARCH compiler; a read of one returns the configured value.
- Unknown WARL kinds and empty enumerations: the parser behind the scanner produces neither.
- CsrTop.DeniedCommandsErasable: requires distinct register and field names and well-formed bit ranges, which the validator does not check.
- IbexFixture names the registers that the adapter's feedback touches; mscratch, mie, dpc, dscratch and the HPM events are ordinary registers of the design and are covered by the CSR-file results alone.
- Debug entry, NMI handling, mstack, double-fault tracking, trigger registers and minstret: dead in this system or pure tracing.
- ObiBridge.LoadReturnsView: the RAM and the simulator control are not part of this model; they answer one cycle after their request with data given by the environment.
- ObiBridge.PlicDecodes: the address map of the two-context, eight-source fixture is continued regularly for other counts, up to 1023 sources and 512 contexts.
- Byte strobes: both generated register blocks ignore them, so a store always writes whole registers.
- Instruction fetch, the Ibex core itself and its CSR access checks: commands arrive as inputs.
- ShadowCSR error detection and the read-back masking of PMP address registers for coarser grains: combinational views without state.
- The CLINT scan and its missing-register errors, and the msip passthrough: true by inspection.
