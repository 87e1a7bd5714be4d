# Verified model of a digital circuit simulator

The repository turns a netlist of components, pins and nets into a generated C program that advances the circuit one
tick at a time. This project models its hard parts in Dafny and proves what they are for:

- **The tick.** The data-flow sort, the re-run set for tri-state feedback, and phases 1, 2 and 2b of the generated
  tick, as code over net words and latched drives. A tick that reports no error has solved every combinational
  component's equation and every bus resolution, and re-running only the closure gives the outcome, the words and the
  drives that re-running everything would, with or without feedback through buses, settled or not. On an acyclic data
  flow the round limit is never the reason a tick fails and the solution is unique; the circuits of a wiring then all
  forget what the nets held before exactly when no connected clock source waits for a bus. (`TopoOrder`, `TriAffected`,
  `TickSpec`, `TickTheorems`, `TickOutcome`, `Settling`, `ClockSources`, `Rerun`, `Wiring`, `BusMemory`,
  `SelfReading`, `Simulator`)
- **The structural check.** The depth-first loop search over nets and the driver checks; each verdict is given exactly
  when its defect is there. The sort leaves over exactly what is on a loop of pin connections or after one; check and
  sort agree on logic that reports all its inputs, and on other logic they need not. (`Graph`, `NetlistCheck`,
  `NetlistAudit`, `SortVerdicts`)
- **Netlist editing.** Net numbers, net widths, the no-short rule and the table of shared tri-state nets survive every
  edit, an edited netlist passes the driver checks, and new nets get names of their own. (`NetlistEdit`,
  `NetlistEditor`, `EditedNetlist`, `NetNames`)
- **Hierarchy.** Replacing composites by their parts preserves meaning, terminates, rolls back, and rejects exactly the
  recursive definitions when references do not depend on parameters; the meaning of what is left is the equations the
  tick solves. (`Flatten`, `ExpandSpec`, `Expansion`, `FlatEquations`)
- **The serial path.** Feed ring, transmitter, line, receiver and the 16550-style UART: in-order, error-free, bounded
  delivery for every bit time of at least 2, from the feed to software and from software to a terminal; what a receiver
  makes of any frame, with a right or a wrong stop bit; what every register read answers in any run; the ring under
  every interleaving of two threads; the UART's idle fast path. (`Serial`, `SerialFrames`, `SerialLink`, `SerialRuns`,
  `UartFeed`, `RingConcurrency`, `UartSpec`, `UartRegisters`, `UartReads`, `UartLine`, `UartDelivery`, `UartDevice`)
- **The bus master.** What is written to the DMA controller's registers is what it copies: with the Wishbone memory, in
  exactly four clock edges a word, in either evaluation order, whatever else is on the configuration bus. (`BlockCopy`,
  `BlockCopyProof`, `DmaRegisters`, `SlaveHandshake`, `BlockCopyDevices`)
- **Algorithms.** Gregorian calendar (`WallClock`), checked 64-bit arithmetic and the template language (`CheckedInt`,
  `TemplateSpec`, `TemplateGrammar`, `TemplateValues`, `TemplateErrors`, `TemplateExpr`), wide multiplication and
  division (`Words`, `Arithmetic`), the pipelined memory (`PipelinedRam`) and the line wrapper (`TextWrap`).

Code that updates state in the original is a class or a method with loops here, proved equal to a specification
function; the properties are lemmas about those functions. `dafny verify dfyconfig.toml` checks the project.

A component is an arbitrary total function from the words of its input nets to a value and an enable per output. What
the emitted C does per tick or per clock edge is modelled, not the printing of that C.

Where the code does not do what its comments say, the code is followed and the gap is stated exactly:

- `Component::getCombinationalDeps` cuts tri-state and sequential outputs, and a component may report fewer
  dependencies still, as `RegFile` does (include/dcs/components/memory/RegFile.h:17-25). The sort counts every pin. So
  a circuit that passes the loop check can have leftovers without any tri-state net, contrary to the comment at
  src/core/CodeGen.cpp:79, and then a tick can end without an error on words that break an equation
  (`SortVerdicts.PassedCheckWithLeftovers`). `SortVerdicts.LeftoverIffAfterLoop` says which circuits have leftovers.
- Clock sources run once, in phase 1, and may read a shared net there before phase 2 resolves it. Then the word the net
  held in the last tick shows in this one (`BusMemory.WatchedBusRemembers`).
  `BusMemory.ForgettingIffClocksPrompt` says for which wirings this can happen.
- The sort ignores that a component reads its own output. Where a component reports its dependencies itself, the loop
  check may not see that either; then its equation can stay broken without an error, and re-running it changes the tick.
  This depends on what the component computes: nothing is lost when its own answer does not change its answer
  (`TickTheorems.SettlesAlone`), as for a register file that writes back what it reads.
  `SelfReading.SolvingIffNoSelfReading` and `SelfReading.RerunIffQuietDoNotSelfRead` say for which wirings it can happen.

## Model

| member | source | states |
|---|---|---|
| TopoOrder.Order | src/core/CodeGen.cpp:25-76 | The sort splits the nodes into an order and leftovers, a permutation of the input; every edge into an ordered node comes from an earlier one, leftovers keep the input order and each waits for a leftover |
| TopoOrder.Kahn | src/core/CodeGen.cpp:59-75 | The in-degree loop ends with every ordered node after all its predecessors and every other node waiting for one that is not ordered either |
| TopoOrder.BuildEdges | src/core/CodeGen.cpp:31-57 | Adjacency and in-degrees are exactly the data-flow edges, one per pin whose net is last written by another node |
| TopoOrder.Release | src/core/CodeGen.cpp:68-70 | Lowering the successors' in-degrees keeps them equal to the number of unfinished predecessors and queues exactly the nodes that become ready |
| TopoOrder.LeftoversWait | src/core/CodeGen.cpp:59-75 | When nothing is ready any more, whatever is not ordered has a predecessor that is not ordered |
| TriAffected.TriNets | src/core/CodeGen.cpp:113-125 | The nets driven by at least one tri-state output, shared or not |
| TriAffected.Compute | src/core/CodeGen.cpp:113-149 | The re-run set is the least set of combinational components that contains the readers of tri-state nets and is closed under reading a member's output |
| TickTheorems.WriterRunsFirst | src/core/CodeGen.cpp:39-57 | In a complete order whoever drives a net that is not shared runs before everyone else who reads it |
| TickTheorems.RunMakesStable | src/core/CodeGen.cpp:154-200 | A component that does not feed its own inputs satisfies its equation right after it ran |
| TickTheorems.RunSettles | src/core/CodeGen.cpp:154-200 | The same for a component that reads its own plain outputs, when its own answer does not change its answer |
| TickTheorems.Phase1Quiet | src/core/CodeGen.cpp:154-200 | After phase 1 every component that reads no tri-state net, directly or through others, already satisfies its equation |
| TickTheorems.ResolveResolves | src/core/CodeGen.cpp:205-281 | A resolution without conflict leaves every tri-state net at its enabled driver's value, or zero |
| TickTheorems.StillStage | src/core/CodeGen.cpp:524-538 | In a round in which no tri-state net moves, every component already run satisfies its equation |
| TickTheorems.StillRoundIsStable | src/core/CodeGen.cpp:524-538 | The settled exit is sound: a round that moved no tri-state net leaves the whole circuit stable, including components outside the re-run set |
| TickTheorems.TickSolves | src/core/CodeGen.cpp:503-541 | When each combinational component settles alone, that is when its answer on its own plain nets does not change its answer, a tick that ends without error has solved every combinational component's equation and every bus resolution, although only the closure was re-run; clock sources are the subject of ClockSources.PromptEquationsHold |
| TickTheorems.SettledTickMeans | src/core/CodeGen.cpp:503-541 | The same without the model's own terms: plain outputs and drives are what the logic computes from the words now on the inputs, no two enabled drivers share a net, an enabled driver's value is on its net, and a net without one holds zero |
| TickTheorems.ResolveMeans | src/core/CodeGen.cpp:205-281 | A resolution gives a net its only enabled driver's value or zero, and leaves a net with two enabled drivers as it is |
| TickTheorems.ConflictMeans | src/core/CodeGen.cpp:214-229 | A conflict is raised exactly when some net has two enabled drivers |
| TickOutcome.OutcomeMeans | src/core/CodeGen.cpp:503-541 | A tick reports a conflict exactly when two drivers of a net were enabled in phase 2 or a round up to the end, and an oscillation exactly when none were and a watched net still moved in the last of component count + 1 rounds; else it is settled, after no round or after one in which none moved |
| Settling.LeftoversMeanCycle | src/core/CodeGen.cpp:71-76 | Leftovers prove a cycle in the data flow that counts every driver of every net |
| Settling.RoundFixesNext | src/core/CodeGen.cpp:524-538 | Each round makes one more rank of the acyclic data flow final |
| Settling.RoundsSuffice | src/core/CodeGen.cpp:524-538 | Component count + 1 rounds are enough: the loop ends settled or with a bus conflict |
| Settling.AcyclicNeverOscillates | src/core/CodeGen.cpp:503-541 | On an acyclic data flow oscillation is never reported; the tick reports a bus conflict or ends with every equation and resolution holding |
| Settling.SolutionIsUnique | src/core/CodeGen.cpp:503-541 | On an acyclic data flow two states that satisfy the bus resolutions and the equations of any set of components of phase 1, and agree on what that set does not drive, hold the same words |
| Settling.TickKeepsSurroundings | src/core/CodeGen.cpp:503-541 | Whatever clock sources there are, a tick changes no word and no drive that neither the components of phase 1 nor tri-state nets decide |
| Rerun.RerunIsEverything | src/core/CodeGen.cpp:107-149 | When each component outside the tri-state closure settles alone, a tick that re-runs the closure has the outcome, words and drives of the tick that re-runs every combinational component in every round, be it settled, in conflict or oscillating, with feedback through buses allowed |
| Rerun.RerunSetDoesNotMatter | src/core/CodeGen.cpp:107-149 | The same for any two closed re-run sets with the same orders |
| SelfReading.SolvingIffNoSelfReading | src/core/CodeGen.cpp:503-541 | All circuits of a wiring end their settled ticks with every combinational equation and bus resolution solved exactly when no combinational component reads a plain net of its own |
| SelfReading.RerunIffQuietDoNotSelfRead | src/core/CodeGen.cpp:107-149 | In all circuits of a wiring re-running the closure equals re-running everything exactly when no component outside the closure reads a plain net of its own |
| ClockSources.PromptEquationsHold | src/core/CodeGen.cpp:84-105 | When the components of phase 1 that wait for no tri-state net of phase 2 settle alone and read no unshared tri-state net of their own, each of them, clock sources included, ends every tick with its equation holding on the final words, although a clock source runs once |
| ClockSources.TickForgetsThePast | src/core/CodeGen.cpp:503-541 | On an acyclic data flow, when no connected clock source reads, directly or through components of phase 1, a tri-state net that only phase 2 shows, two settled ticks from arbitrary earlier words and drives in the same surroundings end with the same words |
| ClockSources.HeldClocksForget | src/core/CodeGen.cpp:503-541 | The same for any two settled ticks after which the equations of the connected clock sources hold |
| BusMemory.WaitingClockRemembers | src/core/CodeGen.cpp:503-541 | On an acyclic data flow, when a connected clock source does wait for one, some circuit of the same wiring settles on words that depend on what the nets held before |
| BusMemory.ForgettingIffClocksPrompt | src/core/CodeGen.cpp:503-541 | On an acyclic data flow all circuits of a wiring forget what the nets held before exactly when no connected clock source waits for a bus, and exactly then settled ticks keep the equations of all connected clock sources |
| BusMemory.WatchedBusRemembers | src/core/CodeGen.cpp:503-541 | A concrete circuit: a clock source that reads a bus of two drivers settles on the word the bus held before |
| Simulator.MakePlan | src/core/CodeGen.cpp:78-105 | The plan sorts combinational components and clock sources, each list in component order, and appends leftovers in that order; it is refused exactly when a clock source is on a loop of pin connections or after one, and it is complete when neither list has such a loop, as with every acyclic data flow |
| Simulator.LeftoversOnlyFromCycles | src/core/CodeGen.cpp:78-105 | On an acyclic data flow the plan is complete |
| Simulator.Simulator.constructor | src/core/CodeGen.cpp:655-672 | Power-on: all words zero, all tri-state outputs disabled |
| Simulator.Simulator.RunComponent | src/core/CodeGen.cpp:154-200 | Running a component writes its plain nets and sole tri-state nets, latches its tri-state drives and touches nothing else |
| Simulator.Simulator.CombStage | src/core/CodeGen.cpp:154-200 | The stage runs the listed components that are in the set, in order, and notes whether a watched net moved |
| Simulator.Simulator.ScanDrivers | src/core/CodeGen.cpp:214-229 | The scan finds the one enabled driver of a shared net, and reports a clash exactly when two are enabled |
| Simulator.Simulator.ResolveBus | src/core/CodeGen.cpp:205-245 | A shared net takes its enabled driver's value, or zero; with two enabled drivers it keeps the word it had and the conflict is raised |
| Simulator.Simulator.Propagate | src/core/CodeGen.cpp:250-281 | Phase 2 as a whole: every tri-state net resolved, conflicts and changes recorded |
| Simulator.Simulator.SettleRounds | src/core/CodeGen.cpp:524-538 | The bounded repetition of stage and resolution, ended by the first round without change |
| Simulator.Simulator.Tick | src/core/CodeGen.cpp:503-541 | The generated tick equals the specified phases; with a complete plan and components that settle alone a tick without error leaves the circuit stable and resolved, and with an acyclic data flow it never reports oscillation |
| Graph.RankingExcludesCycles | src/core/Circuit.cpp:596-652 | A numbering that grows along every edge rules out cycles |
| Graph.AcyclicHasRanking | src/core/Circuit.cpp:596-652 | Every acyclic graph has such a numbering |
| Graph.PredecessorClosedHasCycle | src/core/CodeGen.cpp:59-75 | A finite set in which every node has a predecessor contains a cycle |
| NetlistCheck.DfsCycle | src/core/Circuit.cpp:620-652 | The search with an explicit stack ends; a path it returns really walks the edges and ends at a node already on it, otherwise everything reached is finished |
| NetlistCheck.FindLoop | src/core/Circuit.cpp:596-612 | A loop is reported exactly when the graph has a cycle, and the reported loop is one |
| NetlistCheck.FinishedExcludesCycles | src/core/Circuit.cpp:620-652 | When every node is finished the graph has no cycle |
| NetlistAudit.NetGraph | src/core/Circuit.cpp:574-594 | The net graph has an edge exactly where an output statically depends on an input |
| NetlistAudit.SharedPlainOutput | src/core/Circuit.cpp:512-541 | A net is returned exactly when some plain output shares its net, and it is such a net |
| NetlistAudit.BusTable | src/core/Circuit.cpp:543-572 | The table registers exactly the nets with two or more tri-state outputs, each with exactly those drivers |
| NetlistAudit.Check | src/core/Circuit.cpp:494-616 | Each verdict is given exactly when its defect exists, in the order pins, drivers, loops; a pass establishes what the scheduler needs |
| NetlistAudit.CheckRulesOutFeedback | src/core/Component.cpp:74-89 | With the default dependencies a passed check leaves no component reading its own plain output |
| NetlistAudit.CheckedPlainCircuitSortsCompletely | src/core/CodeGen.cpp:25-83 | When combinational components have only plain, non-sequential outputs and report every input as a dependency, a passed check means the sort has no leftovers |
| SortVerdicts.LeftoverIffAfterLoop | src/core/CodeGen.cpp:39-76 | The sort leaves over exactly the components on a loop of connections or after one, every input pin of every component counted |
| SortVerdicts.CompleteIffNoPinLoop | src/core/CodeGen.cpp:39-76 | The sort is complete exactly when no chain of such connections closes |
| SortVerdicts.OnlyLastDriverFeeds | src/core/CodeGen.cpp:31-57 | Of several drivers of a net a reader waits only for the last in the list |
| SortVerdicts.VerdictsAgree | src/core/Circuit.cpp:574-652 | On plain outputs that report every input the check finds a loop exactly when the sort leaves something over or a component reads its own output |
| SortVerdicts.PassedCheckWithLeftovers | include/dcs/components/memory/RegFile.h:17-25 | A concrete circuit: a register file that reports only its read address and an adder that writes back pass the check, are both left over in every split, and a tick settles on words that break the adder's equation |
| NetlistEdit.NetWidthIsMax | src/core/Circuit.cpp:416-427 | A net is as wide as the widest pin on it, and as wide as one of them |
| NetlistEdit.TableIsExact | src/core/Circuit.cpp:256-267 | When two outputs share a net, the table entry lists exactly the outputs that are on it |
| NetlistEdit.NetWidthMoved | src/core/Circuit.cpp:269-270 | Putting an unconnected pin on a net widens that net to the pin and no other net |
| NetlistEdit.DetachKeeps | src/core/Circuit.cpp:275-305 | Taking a pin off its net keeps numbers, attachments, the no-short rule and the table consistent |
| NetlistEdit.AttachKeeps | src/core/Circuit.cpp:253-270 | Putting a pin on a net it may drive keeps everything consistent |
| NetlistEdit.RemoveComponentKeeps | src/core/Circuit.cpp:339-360 | Removing a disconnected component keeps everything consistent |
| NetlistEdit.RemoveNetKeeps | src/core/Circuit.cpp:362-403 | Removing a net and renumbering the rest keeps everything consistent |
| NetlistEditor.Circuit.constructor | src/core/Circuit.cpp:78-78 | An empty netlist is consistent |
| NetlistEditor.Circuit.CreateNet | src/core/Circuit.cpp:157-174 | A new net is unconnected, gets the next number and width 0, and nothing else changes |
| NetNames.UniqueName | src/core/Circuit.cpp:157-166 | The search for a name ends, with the name itself if no net has it, else with the first free one of name_2, name_3 and so on |
| NetNames.NewNameIsDistinct | src/core/Circuit.cpp:157-166 | Names stay distinct, and the rule leaves no choice |
| NetlistEditor.Circuit.AddComponent | src/core/Circuit.cpp:176-203 | A component with unconnected pins is added at the end and nothing else changes |
| NetlistEditor.Circuit.FindPin | src/core/Circuit.cpp:445-453 | A name denotes the first input of that name, else the first output, else nothing |
| NetlistEditor.Circuit.FindSharers | src/core/Circuit.cpp:226-248 | The scan succeeds exactly when every output that would share the net, and the new one, is tri-state, and then lists exactly the others |
| NetlistEditor.Circuit.Connect | src/core/Circuit.cpp:205-273 | Each error is returned exactly when its cause is there and then nothing changes; otherwise only the net of that pin changes, no other property of it and no other pin, and the entries of all other nets stay |
| NetlistEditor.Circuit.DetachPin | src/core/Circuit.cpp:275-305 | A pin leaves its net; an output also leaves the table entry, which goes when it becomes empty |
| NetlistEditor.Circuit.Disconnect | src/core/Circuit.cpp:307-318 | Disconnecting by name takes exactly the pin the name denotes off its net, and an output out of that net's entry, which goes when it listed no other; an unknown name changes nothing |
| NetlistEditor.Circuit.DisconnectAll | src/core/Circuit.cpp:320-337 | All pins of one component are on no net and keep names, widths and flags; its outputs leave the table, all other entries and components stay |
| NetlistEditor.Circuit.RemoveComponent | src/core/Circuit.cpp:339-360 | Exactly that component goes and its outputs leave the table; nets keep their numbers and get their widths from what is left |
| NetlistEditor.Circuit.RemoveNet | src/core/Circuit.cpp:362-403 | A foreign net is ignored; otherwise exactly the pins on it are on none, every pin keeps all else, later nets move down by one and the table follows |
| NetlistEditor.Circuit.Renumber | src/core/Circuit.cpp:388-399 | Numbers equal positions again and the table entries are carried to the new numbers |
| NetlistEditor.Circuit.RemoveAllNets | src/core/Circuit.cpp:405-412 | No nets and no table are left; every pin is unconnected and keeps name, width and flags |
| NetlistEditor.Circuit.RecomputeNetWidths | src/core/Circuit.cpp:416-427 | Every net is exactly as wide as its widest pin, whatever it was before |
| EditedNetlist.EditsPassTheDriverCheck | src/core/Circuit.cpp:494-541 | What edits keep consistent has its pins in range and no shorted output, and its table has an entry for every shared net that lists exactly its tri-state drivers, each once |
| Flatten.ReplacementPreservesMeaning | src/components/platform/Composite.cpp:121-277 | A valuation satisfies the circuit with a composite exactly when it extends to one satisfying the circuit with its parts |
| Flatten.ReplacedForward | src/components/platform/Composite.cpp:121-277 | Inner values of a composite extend the valuation to the fresh nets |
| Flatten.ReplacedBackward | src/components/platform/Composite.cpp:121-277 | A valuation of the flattened circuit gives the composite its inner values |
| Flatten.SameMeaningStep | src/core/Circuit.cpp:658-726 | Meaning is preserved along any number of expansions |
| FlatEquations.SatisfiesIffEquations | src/core/Circuit.cpp:658-726 | A flattened circuit is satisfied, with latched drives, no net with two enabled drivers and floating nets at zero, exactly when every component equation and every bus resolution of the tick holds |
| FlatEquations.PlainSatisfiesIffEquations | src/core/Circuit.cpp:658-726 | Without tri-state outputs a flattened circuit is satisfied exactly when every component equation holds |
| ExpandSpec.FreshMapIsFresh | src/components/platform/Composite.cpp:197-206 | Inner nets that are not bound get distinct nets that did not exist before, and bound ones stay bound |
| ExpandSpec.ExpandIsReplacement | src/components/platform/Composite.cpp:121-277 | An expansion that can be done yields the removed composite's parts, wired as the definition says |
| ExpandSpec.ExpandableExactly | src/components/platform/Composite.cpp:121-277 | A composite can be expanded exactly when its definition exists, its names resolve, no inner net is bound to two nets, every part can be created and its connections go from pins it has to declared or exposed nets, and no two outputs get shorted |
| ExpandSpec.ConnectKeepsNoShort | src/core/Circuit.cpp:226-248 | The driver check of a connection passes exactly when the circuit stays free of shorts |
| ExpandSpec.RankedOrUnfounded | src/core/Circuit.cpp:658-662 | When references do not depend on parameters, the definitions split into ranked ones, with ranks below their number, and a set in which every definition refers into the set |
| ExpandSpec.ReplacedLowers | src/core/Circuit.cpp:658-662 | Expansion replaces a composite by parts of smaller rank |
| ExpandSpec.ReplacedMentions | src/core/Circuit.cpp:664-667 | A definition that refers to itself through others leaves such a composite behind when expanded |
| Expansion.BindPins | src/components/platform/Composite.cpp:147-195 | Binding succeeds exactly when the exposed connected pins name inner nets without binding one to two nets, and gives that binding |
| Expansion.Circuit.CreateNets | src/components/platform/Composite.cpp:197-206 | Declared nets that are not bound get the next nets, and it fails exactly when a name does not evaluate |
| Expansion.Circuit.Connect | src/core/Circuit.cpp:205-273 | A connection fails, changing nothing, exactly when the pin does not exist or an output would be shorted |
| Expansion.Circuit.AddPart | src/components/platform/Composite.cpp:219-275 | A part is added fully wired, exactly when it can be created, its pins and net names are known and nothing is shorted |
| Expansion.Circuit.ExpandTo | src/components/platform/Composite.cpp:121-277 | One composite is expanded exactly when everything in it resolves and no two outputs get shorted, with the specified result |
| Expansion.Circuit.ExpandOne | src/core/Circuit.cpp:677-718 | The same for the whole step; a failed expansion leaves components, nets and pin bindings exactly as they were |
| Expansion.Circuit.ExpandRound | src/core/Circuit.cpp:664-724 | One round expands every composite present at its start, or stops at one that cannot be expanded; meaning is kept and ranks drop |
| Expansion.Circuit.ExpandComposites | src/core/Circuit.cpp:658-726 | Success leaves no composite; failure leaves one that cannot be expanded; meaning is kept either way; ranked definitions are never rejected as cyclic and unfounded ones never succeed |
| UartFeed.Feed.constructor | src/components/io/UartFeed.cpp:13-47 | The feed starts with an empty queue and an idle transmitter |
| UartFeed.Feed.Push | src/components/io/UartFeed.cpp:83-96 | A byte is queued at the end, or refused without change exactly when 4095 are waiting |
| UartFeed.Feed.PushSome | src/components/io/UartFeed.cpp:98-104 | As many of the bytes as there is room for are queued, in order |
| UartFeed.Feed.Pending | src/components/io/UartFeed.cpp:106-111 | The number of queued bytes |
| UartFeed.Feed.Pop | src/components/io/UartFeed.cpp:113-122 | The oldest byte is taken, or an empty queue reported |
| UartFeed.Feed.Edge | src/components/io/UartFeed.cpp:49-77 | One clock edge of the transmitter over the queue |
| UartFeed.Term.Edge | src/components/io/UartTerm.cpp:54-101 | One clock edge of the receiver |
| UartFeed.Line.Edge | src/components/io/UartFeed.cpp:49-77 | Feed and terminal on one wire take an edge in either order |
| Serial.SampleExtends | src/components/io/UartTerm.cpp:80-82 | Sampling the next bit in order rebuilds one more low bit of the byte |
| SerialFrames.FrameReceived | src/components/io/UartTerm.cpp:69-95 | A waiting receiver reports the byte of the eight levels it samples, lowest bit first, at the sample of the stop bit and not before, exactly when that is high; else it reports nothing, keeps the last byte and counts one error |
| SerialFrames.FramesReceived | src/components/io/UartTerm.cpp:69-95 | Of any sequence of frames the bytes of those with a high stop bit are reported in order and the others counted as errors |
| SerialFrames.FalseStartIgnored | src/components/io/UartTerm.cpp:69-79 | A start bit that is high again at its middle leaves the receiver waiting as before |
| SerialLink.RxStep | src/components/io/UartTerm.cpp:69-95 | A receiver locked to a frame stays inside the right bit up to half a bit early; a start that is too short is rejected |
| SerialLink.EdgeKeepsInv | src/components/io/UartTerm.cpp:69-95 | A byte is reported only when it is the oldest accepted one not yet delivered |
| SerialRuns.DeliversInOrder | src/components/io/UartTerm.cpp:54-101 | For every bit time of at least 2, either order of the steps, any power-on level and any schedule of pushes the reported bytes are a prefix of the accepted ones and no error is counted |
| SerialRuns.DeliversInTime | src/components/io/UartFeed.cpp:49-77 | An accepted byte is delivered within ten bit times for itself and each byte ahead of it, half a bit and one edge |
| RingConcurrency.StepKeepsInv | src/components/io/UartFeed.cpp:83-122 | Every single load and store of either thread keeps published bytes in their slots |
| RingConcurrency.RingIsFifo | src/components/io/UartFeed.cpp:83-122 | Under every interleaving the popped bytes are a prefix of the published ones, and a push is refused only when 4095 entries were outstanding when it read tail |
| RingConcurrency.UnreadSlotsAreSafe | src/components/io/UartFeed.cpp:83-96 | The slot about to be written is never one still to be read, not even the one being popped |
| RingConcurrency.PushInOneGo | src/components/io/UartFeed.cpp:83-96 | Undisturbed, the atomic steps of a push add up to the sequential push |
| UartSpec.PutWaits | src/components/io/UART.cpp:151-155 | A byte stored through the 8-bit head counter waits behind the others, across wrap-around |
| UartSpec.DropTakesOldest | src/components/io/UART.cpp:168-174 | A byte taken through the 8-bit tail counter is the oldest, across wrap-around |
| UartSpec.RunSettles | src/components/io/UART.cpp:71-91 | In every state reached from reset the four wires agree with the registers |
| UartSpec.FastPathIsFullStep | src/components/io/UART.cpp:111-119 | In every reachable state the idle fast path leaves registers and wires exactly as the full step would |
| UartSpec.StepConserves | src/components/io/UART.cpp:133-180 | At one edge the frame kept goes in at the end of the FIFO and the byte software reads comes from its front |
| UartSpec.FifoConserves | src/components/io/UART.cpp:133-180 | Bytes read, followed by those waiting, are the good frames in order without those that found 16 waiting |
| UartSpec.ArrivalsAreDelivered | src/components/io/UART.cpp:133-160 | The frames that arrive, kept or not, are the ones the link delivers, whatever room the FIFO has |
| UartSpec.KeptFoundRoom | src/components/io/UART.cpp:133-160 | The frames the UART keeps are the arrivals that found fewer than 16 waiting |
| UartLine.FramesArrive | src/components/io/UART.cpp:133-160 | Whatever happens on the bus, the frames with a high stop bit arrive at the UART in order and the others are counted |
| UartLine.BrokenFrameShows | src/components/io/UART.cpp:133-160 | A frame with a low stop bit reports no byte and sets the framing error unless the line status is read at that edge |
| UartRegisters.RegistersHoldWritten | src/components/io/UART.cpp:199-216 | In every run from reset each setting holds what was written to it last, masked to its bits; bit 7 of the line control register decides whether 0x00 and 0x04 reach the divisor |
| UartRegisters.LineStatusReads | src/components/io/UART.cpp:188-194 | The word read at 0x14 has bit 0 exactly when bytes wait, bits 5 and 6 exactly when no frame is being sent, bit 1 exactly when an arrival was dropped since the read before, bit 3 exactly when a bad frame ended since then, and no other |
| UartReads.RegisterReads | src/components/io/UART.cpp:161-197 | What every other read answers from the history of the run: the oldest byte or the divisor, the enabled interrupts, the receiver before the transmitter, and the settings as written |
| UartReads.InterruptWire | src/components/io/UART.cpp:224-225 | The interrupt wire is up exactly while bytes wait and that is enabled, or the transmitter's interrupt is pending and enabled |
| UartReads.HeldStrobeRepeats | src/components/io/UART.cpp:217-223 | While the strobe stays up the first answer is repeated with the acknowledge; without it there is none and the data is zero |
| UartDelivery.SoftwareReadsInOrder | src/components/io/UART.cpp:93-230 | From the feed over the line to software, for every schedule: the frames that arrive are a prefix of what the feed accepted, and what is read followed by what waits is the arrivals without those that found 16 waiting |
| UartDelivery.StepTransmits | src/components/io/UART.cpp:124-132 | At each edge the transmitter counts on or loads the byte written to an idle holding register, and the wire shows its level |
| UartDelivery.TerminalReadsInOrder | src/components/io/UART.cpp:93-230 | From software to a terminal on the transmit wire: it reports a prefix of the bytes written, and no error |
| UartDevice.Device.constructor | src/components/io/UART.cpp:71-91 | Reset state with the transmit wire high |
| UartDevice.Device.Edge | src/components/io/UART.cpp:93-237 | One clock edge, fast path included, is the specified step; the wires agree with the registers before and after, and the FIFO with the frame kept is the byte read with the FIFO afterwards |
| UartDevice.Device.StepReceiver | src/components/io/UART.cpp:133-160 | The receiver, with the FIFO, the overrun and the framing error |
| UartDevice.Device.Read | src/components/io/UART.cpp:166-197 | A register read with its side effects, which UartRegisters.LineStatusReads and UartReads.RegisterReads give a meaning |
| UartDevice.Device.Write | src/components/io/UART.cpp:199-216 | A register write with its side effects |
| UartDevice.ByteFifo.Append | src/components/io/UART.cpp:151-155 | A byte stored at the head counter waits behind the others |
| UartDevice.ByteFifo.Take | src/components/io/UART.cpp:168-174 | The byte at the tail counter is the oldest, and the rest stays in order |
| BlockCopyProof.FoldIs | src/components/memory/WishboneMemory.cpp:125-129 | A folded address is the address modulo the capacity, rounded down to a port word |
| BlockCopy.ByteOfReadWord | src/components/memory/WishboneMemory.cpp:130-133 | The bytes of a word read are the bytes stored, in little-endian order |
| BlockCopyProof.ByteLanes | src/components/memory/WishboneMemory.cpp:119-142 | Byte lane i of a data word is its bits 8i to 8i + 7 |
| BlockCopyProof.WriteThenRead | src/components/memory/WishboneMemory.cpp:134-149 | Reading back a written word gives the written byte where it was selected and the old byte elsewhere, and no byte outside the word changes |
| SlaveHandshake.ReadThenWriteUnderStrobe | src/components/memory/WishboneMemory.cpp:112-155 | A transfer that begins with a read and raises write enable under the same strobe answers the word read and writes the selected bytes to the word it began with, whatever the address is by then |
| SlaveHandshake.WriteBegins | src/components/memory/WishboneMemory.cpp:122-142 | A transfer that begins with a write writes exactly the selected bytes of the folded word and answers zero |
| SlaveHandshake.HeldIsIdle | src/components/memory/WishboneMemory.cpp:143-155 | A held strobe repeats the answer and writes nothing again |
| SlaveHandshake.StrobeDrops | src/components/memory/WishboneMemory.cpp:150-155 | The acknowledge goes with the strobe |
| BlockCopyProof.RestStep | src/components/platform/DMA.cpp:90-126 | Until a start is written nothing is copied, whatever else is written to the registers |
| BlockCopyProof.CopyCompletes | src/components/platform/DMA.cpp:90-161 | A copy of len/4 words takes exactly four edges a word in either order of the two devices, done is set at the last of them and not before, and memory is then the ascending word-by-word copy |
| DmaRegisters.ProgrammedCopy | src/components/platform/DMA.cpp:76-161 | Whatever else is on the bus, when the last transfers to 0x00, 0x04 and 0x08 wrote src, dst and n, an odd write to 0x0C copies the n / 4 words at src to dst in 4 * (n / 4) edges, busy before the last of them and done after it |
| DmaRegisters.ReadsBack | src/components/platform/DMA.cpp:90-117 | Until a copy is started each register reads back what was written to it last, the length rounded down to words |
| DmaRegisters.TransfersAnswer | src/components/platform/DMA.cpp:90-126 | A transfer is acknowledged at once; 0x10 answers busy in bit 0 and done in bit 1, and writes and other offsets answer zero |
| DmaRegisters.BusyIgnoresWrites | src/components/platform/DMA.cpp:90-117 | While a copy runs nothing on the configuration bus changes controller, slave or memory |
| DmaRegisters.HeldStrobeRepeats | src/components/platform/DMA.cpp:118-126 | While the strobe stays up the first answer is repeated with the acknowledge |
| BlockCopyProof.AcknowledgeIsFresh | src/components/memory/WishboneMemory.cpp:99-155 | From reset, an acknowledge the controller acts on belongs to the request it has on the bus |
| BlockCopyProof.CopyLeavesTheRest | src/components/platform/DMA.cpp:132-161 | Bytes outside every destination word keep their values |
| BlockCopyProof.CopyDelivers | src/components/platform/DMA.cpp:132-161 | A word arrives unchanged when no earlier word overwrites its source and no later one its destination |
| BlockCopyDevices.DmaController.Edge | src/components/platform/DMA.cpp:76-172 | One clock edge of the controller's registers and wires, whose meaning for software is that of DmaRegisters |
| BlockCopyDevices.WishboneMemory.Edge | src/components/memory/WishboneMemory.cpp:88-166 | One clock edge of the slave, with its backing bytes written in place |
| BlockCopyDevices.WishboneMemory.Store | src/components/memory/WishboneMemory.cpp:134-149 | Exactly the selected bytes of the port word are written |
| BlockCopyDevices.System.Edge | src/components/platform/DMA.cpp:76-172 | Controller and slave take one edge in either order; the pair stays in reachable agreement, and every copy in progress advances by exactly one edge |
| Words.LowBitsIsRemainder | src/components/memory/WishboneMemory.cpp:125-129 | Masking to n bits is the remainder by the capacity: high address bits alias |
| WallClock.CivilIsPosix | src/components/clock/WallClock.cpp:98-108 | Every day number becomes a valid Gregorian date that the formula of POSIX.1-2017 Base Definitions section 4.16 takes back to it |
| WallClock.PosixIsInjective | src/components/clock/WallClock.cpp:98-108 | Different valid dates have different day counts |
| WallClock.PosixIsCivil | src/components/clock/WallClock.cpp:98-108 | The conversion is the inverse of that formula in both directions |
| WallClock.ConsecutiveDays | src/components/clock/WallClock.cpp:98-108 | Consecutive days give consecutive dates |
| WallClock.CalendarIsPosix | src/components/clock/WallClock.cpp:88-108 | The fields form a valid date-time whose seconds since the Epoch are the count; the weekday starts on a Thursday and moves on by one a day |
| WallClock.Clock.Edge | src/components/clock/WallClock.cpp:76-109 | One clock edge: nanoseconds accumulate and the fields follow the second reached |
| WallClock.Clock.NoDrift | src/components/clock/WallClock.cpp:76-125 | After k edges the fields are a valid date-time whose seconds since the Epoch are base plus the whole seconds of k periods, with its weekday, as long as the year fits 32 bits; the 16-bit year port is right exactly while the year is below 65536 |
| CheckedInt.AbsU64 | include/dcs/util/CheckedInt.h:34-37 | The absolute value, also of the smallest integer |
| CheckedInt.AddOverflow | include/dcs/util/CheckedInt.h:12-21 | Overflow is reported exactly when the exact sum leaves 64 bits, and then the result is left as it was; no step of the check overflows |
| CheckedInt.SubOverflow | include/dcs/util/CheckedInt.h:23-32 | The same for the difference |
| CheckedInt.MulOverflow | include/dcs/util/CheckedInt.h:39-51 | The same for the product |
| CheckedInt.QuotientFits | src/util/TemplateExpr.cpp:141-145 | A quotient leaves 64 bits only for the smallest integer divided by -1 |
| CheckedInt.TruncDivTruncates | src/util/TemplateExpr.cpp:145-145 | The remainder is smaller than the divisor and has the dividend's sign |
| TemplateSpec.IntTextParses | src/util/TemplateExpr.cpp:16-18 | An integer written as text is read back as the same integer |
| TemplateValues.IntTextIsPlain | src/util/TemplateExpr.cpp:16-18 | The text of an integer has a minus exactly when it is negative, and no leading zero |
| TemplateGrammar.SentenceMeans | src/util/TemplateExpr.cpp:74-232 | Every sentence of the documented grammar evaluates to its meaning: left-associative, truncating, 64-bit checked, or its first error |
| TemplateGrammar.EvalIsMeaning | src/util/TemplateExpr.cpp:74-232 | Evaluation gives a value exactly when the text is a sentence that means it |
| TemplateGrammar.PrintMeans | include/dcs/util/TemplateExpr.h:5-12 | A tree printed with as few parentheses as its operators need is a sentence with the tree's meaning |
| TemplateGrammar.FailsAtANode | src/util/TemplateExpr.cpp:85-232 | An expression has no value exactly when some node overflows, divides by zero, misuses a text or lacks a parameter |
| TemplateValues.DenotesExactly | src/util/TemplateExpr.cpp:74-232 | Every expression has its exact value and text, or its first error from the left: integers are computed exactly within 64 bits, a sum with a text joins the texts left before right, literals and parameters keep their own text |
| TemplateValues.HoleIsExact | src/util/TemplateExpr.cpp:31-72 | A printed expression in a template becomes that text, or the template fails with that error |
| TemplateValues.TextsJoinInOrder | src/util/TemplateExpr.cpp:99-107 | A sum of two parameters of which one is no integer gives the first text followed by the second |
| TemplateValues.PairResolves | src/util/TemplateExpr.cpp:85-150 | Two parameters with an operator between them give the exact sum, difference, product or truncated quotient as text, the joined texts, or the error |
| TemplateErrors.TrailingText | src/util/TemplateExpr.cpp:74-83 | A sentence followed by what cannot continue it is refused as trailing |
| TemplateErrors.OperandMissing | src/util/TemplateExpr.cpp:172-232 | An operator without an operand after it is refused as incomplete, or for the character that is there |
| TemplateErrors.ParenMissing | src/util/TemplateExpr.cpp:178-187 | A parenthesis not closed after its sentence is refused as such |
| TemplateGrammar.ResolveHole | src/util/TemplateExpr.cpp:31-72 | A hole is replaced by its value where it stands, and the text around it is kept |
| TemplateErrors.NamedHoleResolves | src/util/TemplateExpr.cpp:57-63 | A hole whose whole text names a parameter gives that parameter as it is, whatever characters the name has |
| TemplateErrors.SpacedHole | src/util/TemplateExpr.cpp:49-54 | White space inside the braces does not matter |
| TemplateErrors.EmptyHole | src/util/TemplateExpr.cpp:55-56 | An empty hole is refused |
| TemplateErrors.UnclosedHole | src/util/TemplateExpr.cpp:42-46 | A hole that is never closed is refused |
| TemplateGrammar.PrintedExpressionResolves | src/util/TemplateExpr.cpp:31-72 | A printed expression inside a template becomes its value's text, or the template fails with its first error, unless it is an expression other than a lone parameter whose whole text names a parameter |
| TemplateExpr.TemplateExpr.ResolveText | src/util/TemplateExpr.cpp:31-72 | The in-place substitution equals the specified one and keeps the first error |
| TemplateExpr.TemplateExpr.EvalText | src/util/TemplateExpr.cpp:74-83 | Recursive descent over the mutable position equals the specified reading |
| TemplateExpr.TemplateExpr.ParseSum | src/util/TemplateExpr.cpp:85-120 | The same for sums |
| TemplateExpr.TemplateExpr.ParseProduct | src/util/TemplateExpr.cpp:122-150 | The same for products |
| TemplateExpr.TemplateExpr.ParseFactor | src/util/TemplateExpr.cpp:152-170 | The same for signs |
| TemplateExpr.TemplateExpr.ParsePrimary | src/util/TemplateExpr.cpp:172-232 | The same for parentheses, literals and parameters |
| Arithmetic.Multiply | src/components/combinational/Arithmetic.cpp:494-502 | The four 32-bit partial products and their carries give the exact 128-bit product |
| Arithmetic.ExtractHalves | src/components/combinational/Arithmetic.cpp:504-514 | prod_hi:prod_lo are the lowest 2w bits of the double word |
| Arithmetic.Product | src/components/combinational/Arithmetic.cpp:480-559 | For every width 1 to 64 prod_hi:prod_lo is the exact double-width product, unsigned or two's complement |
| Arithmetic.SignExtendIs | src/components/combinational/Arithmetic.cpp:533-539 | Sign extension by or with the complemented mask keeps the two's complement value |
| Arithmetic.Divide | src/components/combinational/Arithmetic.cpp:583-628 | Quotient and remainder are the truncating ones stored in w bits; a zero divisor gives zeros |
| Arithmetic.DivisionHolds | src/components/combinational/Arithmetic.cpp:583-628 | a equals quot*b + rem modulo 2 to the w, rem is smaller than b with the sign of a, and quot is exact exactly unless the smallest value is divided by -1 |
| Arithmetic.Add | src/components/combinational/Arithmetic.cpp:108-171 | Sum and carry are exact; in signed mode the carry out is set exactly on overflow |
| Arithmetic.Subtract | src/components/combinational/Arithmetic.cpp:407-456 | Difference and borrow are exact |
| PipelinedRam.Memory.Tick | src/components/memory/Memory.cpp:76-182 | The word read is that of the address presented R ticks ago in the array after exactly the writes sampled more than W ticks ago; busy is set exactly while a later write is pending |
| PipelinedRam.Memory.Store | src/components/memory/Memory.cpp:146-150 | A write that fits replaces exactly its bytes; one that does not fit changes nothing |
| PipelinedRam.Memory.WriteStep | src/components/memory/Memory.cpp:132-159 | One tick commits the request sampled W ticks ago, once, and moves the others on |
| PipelinedRam.UntouchedStays | src/components/memory/Memory.cpp:116-169 | A word no committed write touches keeps its value |
| PipelinedRam.LatestWriteIsRead | src/components/memory/Memory.cpp:116-169 | The latest committed write to an address is what is read there |
| PipelinedRam.ReadSees | src/components/memory/Memory.cpp:76-182 | Each byte of the word read is that of the latest write sampled more than the write latency ago that covers it, and zero if none does or the word does not fit |
| PipelinedRam.DrainedHoldsEverything | src/components/memory/Memory.cpp:132-159 | After the write latency without further writes the array holds every write |
| TextWrap.DisplayWidth | include/dcs/util/TextWrap.h:21-31 | The columns of all characters of a text |
| TextWrap.LeadAnnounces | include/dcs/util/TextWrap.h:13-31 | The lead byte of every code point encoded as in section 3 of RFC 3629 gives its number of bytes, and one column for ASCII, two otherwise |
| TextWrap.EncodedStarts | include/dcs/util/TextWrap.h:13-31 | On encoded text, character starts are exactly the starts of the code points, and the display width is one column for each ASCII character and two for each other |
| TextWrap.PieceWidth | include/dcs/util/TextWrap.h:21-31 | A piece cut at character starts has the display width of its characters |
| TextWrap.WrapDisplayText | include/dcs/util/TextWrap.h:35-70 | Wrapping ends although its index moves back; every line starts and ends at character starts, is at most max(width, 2) columns wide, and is cut at its last space, or where the next character does not fit if it has none |
| TextWrap.NothingIsLost | include/dcs/util/TextWrap.h:54-63 | The lines and at most one dropped space per break make up the text |

## Left out

- Phases 3 and 4 of the tick, edge detection and the propagation of sequential tri-state outputs after phase 3.
- Simulator.MakePlan: assumes no component is combinational and clock source at once; the clock sources of the repository (include/dcs/components/sequential/Sequential.h:234,282) are only sequential.
- Circuits with leftovers in the sort, as far as stability is concerned: a tick may end there on words that break an equation (SortVerdicts.PassedCheckWithLeftovers).
- NetlistAudit.CheckedPlainCircuitSortsCompletely: assumes that components report every input as a dependency; without that it is false (SortVerdicts.PassedCheckWithLeftovers).
- ClockSources.TickForgetsThePast: assumes that no connected clock source waits for a bus; without that it is false (BusMemory.WatchedBusRemembers).
- ClockSources.PromptEquationsHold: assumes that such components settle alone, as TickTheorems.TickSolves does, which is needed (SelfReading.SolvingIffNoSelfReading), and that none reads its own unshared tri-state net, which phase 2b may have to iterate.
- Byte-wise writing of net slots and masks for pins narrower than their net; a net holds one 128-bit word.
- The static dependencies each component class reports: they are an arbitrary function, bounded to existing inputs.
- Topology warnings, host callbacks and the asynchronous stop flag.
- NetlistEditor.Circuit.CreateNet: nets carry no name there; how a name is chosen is modelled in NetNames.
- NetlistEditor.Circuit.AddComponent: does not model component numbers and preparation failures; components and nets carry a key in place of their address, and a component belonging to another circuit cannot be named.
- Expansion.Circuit.ExpandTo: templates are results that may be missing, part creation is a yes-or-no answer, and net widths and the bus table, modelled in NetlistEditor, are not tracked during expansion.
- Expansion.Circuit.Connect: net widths and the bus table are not tracked during expansion.
- Expansion.Circuit.ExpandOne: the undoing of net widths and the bus table is not tracked; components, nets and pin bindings are.
- One component type for scheduling, editing and expansion: each of the three keeps only what its operations use, with FlatEquations and EditedNetlist between them.
- Instance names, source directories and the record of used definitions during expansion.
- ExpandSpec.RankedOrUnfounded: says nothing about definitions whose references change with their parameters, for which the round limit alone decides.
- RingConcurrency.RingIsFifo: loads and stores are atomic and sequentially consistent; several pushing threads are serialised by their mutex and appear as one.
- The scheduling of host threads and the acquire and release annotations.
- WallClock.Clock.Edge: the host-synchronised mode, in which every edge asks the host for the time, is not modelled.
- WallClock.Clock.NoDrift: the count 2^64 - 1, which the code also uses as its not-yet-computed mark, is outside the ranges stated.
- UartSpec.FifoConserves: the receiver's frame and error counts and its last byte are carried as history; the UART itself has only the flags and the FIFO.
- Error message texts; templates return an error kind.
- PipelinedRam.Memory.Tick: a word is a sequence of bytes already masked to the data width, and the backing storage starts at zero.
- TextWrap.WrapDisplayText: the help formatter around it, which splits lines into columns, is not modelled.
- JIT back ends, foreign libraries, JSON, files, command line, network and floating-point components.
- Small register machines, gates, multiplexers, comparators and decoders, and the compressed-instruction decoder.
