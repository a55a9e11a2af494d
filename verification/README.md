# Functional Simulation Engine: a verified model

The engine steps a tree of blocks.  Each block copies inputs from its parent, runs its due children and
subprograms in priority order under their power conditions, merges what they return, and hands variables
back up.  Around it stand a configuration loader that checks the wiring, a postfix solver for conditions,
an operator instruction parser, and two classes that exchange variables with the outside.  This project
models these parts and proves what they promise over whole steps and whole runs.

## How it is laid out

| files | part |
|---|---|
| `StringOrder`, `Common`, `Values`, `Bytes` | key order of `std::map`, exceptions, the four standard parameter types with their byte codecs, writing into byte buffers |
| `Formula`, `Conditions` | the postfix solver and its expression trees; what conditions over variables mean |
| `Remap`, `RenamedCalls` | the renaming container and the in-place renaming of a subprogram's result |
| `Engine` | one step of the tree as functions on values: a configuration that nothing changes (`Cfg`) and a state of the same shape (`St`) |
| `BlockObjects` | blocks and subprograms as objects; every method is proved to do what `Engine` says to the whole tree |
| `Scheduling`, `StepLog`, `StepEnds`, `StepMeaning`, `Isolation`, `Frame`, `Power`, `OffBlocks`, `StuckBlocks`, `Soundness`, `Wires`, `Timing`, `Names`, `ErrorPaths` | properties of steps |
| `Loader`, `LoaderObjects` | the loader and its loops |
| `LoaderSoundness`, `Described`, `LoaderExact`, `LoaderAnswers`, `PlainNames` | what an accepted configuration loads into and guarantees, with exact conditions on the configuration; exactly when it is accepted and when decode crashes |
| `Runs`, `RunResults` | whole runs of steps and operator commands |
| `WiringLimits`, `LoaderLimits` | where wires stop holding, and configurations that load and then fail |
| `Checksum`, `UdpExchange`, `UdpObjects`, `UdpDelivery`, `UdpRuns`, `UdpMirror`, `UdpDelta`, `UdpConvergence`, `UdpInput`, `UdpDamage` | the UDP exchange |
| `Parser`, `ParserGrammar` | the instruction parser, a printer for it, and the language it reads |
| `SharedMemory` | the shared memory pass |

`dafny verify dfyconfig.toml` checks everything.

## Reading the statements

- A user function is any map from (time, delta, own variables, upper variables) to variables or an
  exception.  The wall clock is read once per step and enters as `Tick.now`.
- An exception in the dispatch loop is *caught* when one of the seven handlers takes it.  The write of
  what was returned stands outside the guarded region, so a type mismatch there ends the step.
- `WellWired` is what the loader is meant to establish: wires, edge values and condition operands name
  existing variables of the right types, at every depth.  `RespectsTypes` says that a user function
  returns the variables of its block in their types and fails only with its own exception.
- A *clean* wire is one that nothing bypasses: its source is not fed from further below, and its target
  is neither a USE destination nor listed in the own edge values of its block.

## Where the code falls short of its intent

The code is modelled as it stands; these are the places where a promised property fails, each with the
exact condition under which it holds.

- The loader looks a wired name up with `get_variable`, which follows dots into child blocks, but then
  stores the literal name.  A variable whose own name contains a dot can so be wired past the type check.
  Accepted trees are well wired if and only if such names agree in type in the configuration
  (`LoaderExact.LoaderSoundIff`).  `LoaderLimits.DottedNameLoadsMistyped` gives a family of accepted
  configurations that fail.  A return wire that does not agree stops every step in which its child is
  called and returns into an unlocked variable (`LoaderLimits.DisagreeingWireStopsStep`), a USE wire makes every call of its child fail
  (`RunResults.DisagreeingUseFails`), a power-on value keeps its block off (`RunResults.DisagreeingEdgeNeverOn`).
- An initial state for such a variable can make the loader follow a null pointer
  (`LoaderLimits.DottedStateCrashes`); `LoaderAnswers.LoadAnswers` says on which configurations it does.
- A variable that a child feeds may also be listed in the edge values of its own block, or be sent to by
  the parent block.  Both overwrite it; the exact conditions under which its wire still holds are
  `WiringLimits.FallingEdgeIff`, `WiringLimits.RisingEdgeIff` and `WiringLimits.UseCopyIff`, and
  `LoaderLimits.EdgesBreakLoadedWire` is an accepted configuration that breaks in all three ways.
- The renaming loop loses entries when a name is mapped to itself (`Remap.SelfMapAlwaysLoses`).  An entry
  whose target is a later source moves on to where that source ends, which on a cycle may be the target
  again (`Remap.ForwardTargetMovesOn`, `Remap.CycleComesBack`), and may be lost (`Remap.ChainLosesEntry`).
  `Remap.RenameIsSimultaneousIff` has the condition for every renaming and result,
  `Remap.RenameMovesNamesIff` the one on the names alone, and `Remap.BackwardRenameIff` a simpler one for
  renamings without such targets, to which chains against the key order belong.
- The loader ignores a failed `from_string` of an initial value and keeps the default of the type
  (`LoaderExact.TextIsKeptIff`).
- A difference that two UDP buffers share is sent by one of them only; each buffer sends all its
  differences if and only if none is shared (`UdpConvergence.ConvergesIff`).  The values get across all the
  same (`UdpConvergence.FrozenRunDelivers`).
- A UDP buffer can store a change without sending it, exactly when a fault follows the copy in the walk
  (`UdpDelta.ChangeIsLostIff`).
- A comment in `input_vars` says that a bad value rejects the whole buffer; the code keeps what was read
  before it (`UdpInput.PartIsKeptIff`).
- A shared-memory region that ends exactly at the end of the memory is refused
  (`SharedMemory.LastByteIsRefused`).

## Model

| member | source | states |
|---|---|---|
| BlockObjects.Block.Call | kernel/block.hpp:643-771 | The step of a block object, over its whole subtree of child and subprogram objects, leaves every field as the value function of the step says and returns the same variables or the same exception. |
| BlockObjects.Block.RunStep | kernel/block.hpp:649-757 | The same up to the end of the dispatch loop. |
| BlockObjects.Block.DispatchAll | kernel/block.hpp:662-757 | The dispatch loop over the scheduled objects, stopped by the first exception that no handler takes. |
| BlockObjects.Block.Dispatch | kernel/block.hpp:662-757 | One turn: guarded region, record of a caught exception, error names fetched from a child, write of what was returned. |
| BlockObjects.Block.TrySub | kernel/block.hpp:667-670 | A subprogram is called exactly when its condition holds; nothing else in the tree changes. |
| BlockObjects.Block.TryChild | kernel/block.hpp:672-690 | The guarded region of a child changes that child only. |
| BlockObjects.Block.SwitchPower | kernel/block.hpp:674-689 | The four cases of the power condition now and at the previous step; the flag moves only when none of them throws. |
| BlockObjects.Block.Record | kernel/block.hpp:692-744 | A handler leaves one message and the name of the object. |
| BlockObjects.Block.DrainChild | kernel/block.hpp:746-753 | The error names of a child move up under its name and are gone below. |
| BlockObjects.Block.GetSubblocksWithErrors | kernel/block.hpp:774-778 | The names are handed out once. |
| BlockObjects.Block.WriteVariables | kernel/block.hpp:303-330 | write_variables: present unlocked variables in key order up to the first type mismatch, with the set of names written. |
| BlockObjects.Block.WriteEdgeVars | kernel/block.hpp:583-604 | The write of power-on or power-off values, and the returned variables among those written. |
| BlockObjects.Block.CopyUseVars | kernel/block.hpp:651-655 | The copy of the USE variables in key order, whatever their locks, up to the first missing name or type mismatch. |
| BlockObjects.Block.PowerOffChildren | kernel/block.hpp:624-635 | Children first, each followed by the write of what it returned, then the block itself and its flag. |
| BlockObjects.Block.PowerOffOneChild | kernel/block.hpp:627-630 | One turn of that loop. |
| BlockObjects.Block.Touch | kernel/block.hpp:609-618 | Call times and plans of the whole subtree, at one reading of the clock. |
| BlockObjects.Block.GetNextCallObjs | kernel/detail/std.hpp:92-125 | The two filling loops over a multimap give the schedule. |
| BlockObjects.Block.IsPowered | kernel/callable.hpp:165-167 | The power condition on the logical readings of the variables. |
| BlockObjects.Block.GetNextErrors | kernel/block.hpp:780-793 | At most max messages from the front leave the queue, and the number left is returned. |
| BlockObjects.Subprogram.Invoke | kernel/subprog.hpp:71-89 | Call time noted, then the function on the renamed view and the in-place renaming of its result. |
| BlockObjects.Subprogram.Touch | kernel/callable.hpp:99-127 | Time and delta of the last call. |
| BlockObjects.ReadThrough | kernel/block.hpp:586-591 | The loop over the returned variables. |
| Scheduling.ScheduleIsStableSort | kernel/detail/std.hpp:92-125 | The schedule holds exactly the due unblocked children and the unblocked subprograms, each once, by ascending priority, ties in name order with children first. |
| Scheduling.ScheduleUnique | kernel/detail/std.hpp:92-125 | Any list with that content and order is the schedule. |
| StepLog.StepProcessesSchedule | kernel/block.hpp:659-757 | A step that is not cut short processes exactly the eligible objects, each once, in call order. |
| StepEnds.TurnEndsIff | kernel/block.hpp:692-757 | The turn of a child or of a subprogram ends the step if and only if what it returned does not fit the variables of the block, with a bad_cast, or what it threw is taken by no handler, with that exception. |
| StepEnds.StepEndsIff | kernel/block.hpp:649-757 | A step is cut short if and only if the USE copy fails or some turn of its log ends it, judged by the variables at the start of the step; that turn is the last of the log. |
| StepEnds.UncutStepProcesses | kernel/block.hpp:659-757 | When neither happens exactly the eligible objects are processed, each once, in call order. |
| StepEnds.SoundStepProcesses | kernel/block.hpp:659-757 | So they are in every step of a well-wired block whose functions keep to the types. |
| StepEnds.CopyUseIff | kernel/block.hpp:651-655 | The USE copy succeeds if and only if every destination and its parent variable exist with one type; with both ends of all wires present it fails with a bad_cast. |
| StepEnds.ChildEntries | kernel/block.hpp:672-690 | In every step each call of a child with a mistyped USE wire fails with a bad_cast, and so does each edge of a child whose edge values do not fit; a child that was called and returned has returned all its return wires in the types of their sources. |
| StepEnds.MistypedStops | kernel/block.hpp:755-757 | A step in which a child with a mistyped return wire is called and returns is stopped there by a bad_cast. |
| StepMeaning.PoweredMeans | kernel/callable.hpp:165-167 | A power condition that spells a tree of conjunctions, disjunctions and negations has the meaning of the tree, told by recursion over the values of the variables. |
| StepMeaning.PoweredByVariable | kernel/callable.hpp:165-167 | A condition of one variable holds if and only if there is such a variable and its value is neither false, zero, empty nor a negative zero. |
| StepMeaning.PoweredByNothing | kernel/callable.hpp:165-170 | An object without a condition is always on. |
| StepMeaning.SubprogramTurns | kernel/block.hpp:662-670 | Every entry of a subprogram in the log of a step: called if and only if its condition holds of the variables of the block at that turn, folded from the log before it; then its function gets the model time, the wall-clock time since its last call, those variables through its renaming, and the variables of the upper block, and its result is renamed. |
| StepMeaning.ChildTurns | kernel/block.hpp:671-690 | Every entry of a child: branch, outcome and final state follow from its condition over the variables of the block at that turn and from the flag it came with; a called child sees those variables, the model time and the clock. |
| StepMeaning.BranchByCondition | kernel/block.hpp:674-689 | The branch of a child whose condition spells a tree, told by the meaning of the tree and the flag. |
| StepMeaning.CalledByCondition | kernel/block.hpp:667-670 | The same for a subprogram. |
| StepMeaning.StepVariables | kernel/block.hpp:649-757 | The variables at the end of a step that is not cut short are those after the USE copy, overwritten with what each entry of the log returned, in order, where not locked. |
| StepMeaning.WriteStops | kernel/block.hpp:303-330 | A write that meets a value of the wrong type has written every unlocked name before it in key order and nothing from there on. |
| StepLog.LogFollowsRefs | kernel/block.hpp:659-757 | The dispatch log follows the schedule up to an exception that no handler takes; objects outside it are untouched. |
| StepLog.ChildOutcome | kernel/block.hpp:662-757 | Branch, outcome and final state of a child all come from one evaluation on the state it had before the step. |
| StepLog.FailureIsContained | kernel/block.hpp:692-756 | An object whose guarded region throws a caught exception writes nothing into the block, keeps its previous-power flag, leaves its name and one message, and the step goes on. |
| StepLog.CallKeepsFlag | kernel/block.hpp:643-771 | A call moves the plan by one period and never the own power flag, whether it returns or throws. |
| Isolation.CallAlike | kernel/block.hpp:662-757 | A whole step with failing user functions and the step in which they silently return nothing agree at every depth in everything but error records. |
| Frame.CallFramed | kernel/block.hpp:643-771 | Over a whole recursive step, also one that throws: same variables, types and locks at every depth, locked values outside the USE destinations unchanged, message queues only extended. |
| Frame.PowerOffFramed | kernel/block.hpp:624-635 | The same frame for power_off_children. |
| Frame.UseIsCopied | kernel/block.hpp:651-655 | After the copy each USE variable holds the value of its parent variable even when locked; no other variable has changed. |
| Power.WriteImage | kernel/block.hpp:303-330 | A completed write sets exactly the present unlocked names to exactly the given values and reports exactly those. |
| Power.CallInv | kernel/block.hpp:662-757 | A step keeps, also past exceptions: a block with the previous-power flag down has it down in its whole subtree. |
| Power.PowerOffInv | kernel/block.hpp:624-635 | power_off_children keeps that when it throws half way and leaves the subtree dark when it does not. |
| Power.OffEdgeSettles | kernel/block.hpp:684-689 | At the end of the step of a falling edge the subtree is dark and every block of it holds its power-off values in its unlocked listed variables. |
| Power.OnEdgeSettles | kernel/block.hpp:679-689 | At the end of the step of a rising edge the flag is up and the block holds its power-on values in its unlocked listed variables. |
| OffBlocks.CallKeepsOff | kernel/block.hpp:583-690 | Over a step of a well-wired block, also one that throws, at every depth: a block that is on, or off with the power-off values of its whole subtree, is so afterwards. |
| StuckBlocks.CallStuck | kernel/block.hpp:679-690 | A step switches no block on whose power-on values do not fit its variables, at any depth. |
| Soundness.CallSound | kernel/block.hpp:643-771 | The step of a well-wired tree whose functions keep to the types returns, with values of the promised types, and records only errors raised by user functions or malformed conditions, at any depth. |
| Soundness.PowerOffSound | kernel/block.hpp:624-635 | The same for power_off_children, with no errors at all. |
| Soundness.WellWiredSameTypes | loader/yaml_block.hpp:244-418 | Well-wiredness depends on names and types only, so whatever keeps them keeps it. |
| Wires.CallCoherent | kernel/block.hpp:643-771 | A step keeps every wire of the tree that nothing bypasses and whose target is not locked, across power edges and user errors, and returns the current values of the returned variables. |
| Wires.CalledChildFeedsAtEnd | kernel/block.hpp:746-770 | At the end of a step of a well-wired tree every variable that is not locked and fed by a child that was called in it, bypassed or not, equals its source, whatever the wires held before. |
| Wires.PowerOffCoherent | kernel/block.hpp:583-635 | power_off_children keeps those wires of the subtree, and what it returns is what it wrote. |
| WiringLimits.WriteOkIff | kernel/block.hpp:303-330 | write_variables succeeds if and only if every present unlocked variable is offered its own type; otherwise a bad_cast flies. |
| WiringLimits.ReturnEscapesIff | kernel/block.hpp:755-756 | The turn of a child that returned values takes the step down with a bad_cast if and only if they do not fit the variables of the block. |
| WiringLimits.MistypedWireEscapes | kernel/block.hpp:755-770 | A called child with a mistyped wire ends the step of its parent with a bad_cast, outside all handlers. |
| LoaderLimits.DottedNameLoadsMistyped | loader/yaml_block.hpp:256-289 | A configuration the loader accepts with a mistyped wire: a dotted name that is also the name of an own variable of another type. |
| LoaderLimits.DisagreeingWireIsMistyped | loader/yaml_block.hpp:256-289 | In any accepted configuration a return wire whose name does not agree is mistyped in the loaded tree. |
| LoaderLimits.DisagreeingWireStopsStep | kernel/block.hpp:746-757 | In every step of every run of a loaded model: when a child of the main block with a disagreeing return wire into an unlocked variable is called and returns, the step is stopped there by a bad_cast outside all handlers. |
| LoaderLimits.DisagreeingWireStopsRun | kernel/block.hpp:679-770 | Such a step comes: under a root without subprograms over one unconditioned child with a sound inside, no power-on values, USE wires that agree and such a return wire, the first step from the fresh state that finds the child due switches it on, and the next one is stopped. |
| LoaderLimits.DottedRunStops | kernel/block.hpp:679-770 | The run of the dotted configuration is stopped so in its second step. |
| LoaderLimits.DottedStateCrashes | loader/yaml_block.hpp:394-404 | An initial state for the only variable of a block without children, whose name has something after a dot, makes the loader follow a null pointer. |
| WiringLimits.FallingEdgeIff | kernel/block.hpp:583-635 | After power_off_children any wire holds if and only if its two ends settle on one value, where what a variable settles on is read off the state before: locked ones stay, listed ones take their power-off value, fed ones what the last feeding child has listed. |
| WiringLimits.PowerOffImage | kernel/block.hpp:624-635 | power_off_children as a whole: every variable of the block settles on that value, and every child goes off on its own. |
| WiringLimits.EdgeOverridesWire | kernel/block.hpp:595-635 | A fed variable that its block lists among its own power-off values, with a source not fed from below: after the falling edge the wire holds if and only if the power-off value of the source, or its value if it has none or is locked, is that value. |
| WiringLimits.RisingEdgeIff | kernel/block.hpp:583-592 | After a rising edge a wire holds if and only if the power-on value of its target, or the value of the target if it has none or is locked, is the value of the source. |
| WiringLimits.UseCopyIff | kernel/block.hpp:651-655 | After the USE copy a wire holds if and only if what the parent block sends to its target, or the value of the target if nothing is sent, is the value of the source. |
| LoaderLimits.EdgesBreakLoadedWire | kernel/block.hpp:583-655 | A configuration the loader accepts with a wire that holds at first and that the rising edge, the falling edge and the USE copy each break unless one value happens to be another. |
| LoaderLimits.FirstStepBreaksWire | kernel/block.hpp:679-683 | One step of the loaded model does so. |
| Timing.ExactCallCount | kernel/block.hpp:189-192 | A steadily powered unblocked child whose plan starts at p0, not before the edge and less than a period after it, under steps at most a period apart, has been called exactly ceil((t - p0) / P) times after the step at t. |
| Timing.CallsAreNeverEarly | kernel/block.hpp:189-192 | With any step times the k-th call comes strictly after p0 + (k - 1) P. |
| Timing.PlanCountsCalls | kernel/block.hpp:189-192 | The plan is its start plus one period for each call: no drift. |
| Timing.PlanKeepsUp | kernel/detail/std.hpp:103-111 | With steps at most a period apart the plan is never behind and less than a period ahead. |
| Timing.ProcessedIffDue | kernel/detail/std.hpp:103-111 | An unblocked child comes up in a step if and only if the time is past its plan; else it is left alone. |
| Timing.OnEdgeReplans | kernel/block.hpp:679-683 | A rising edge sets the plan of the whole subtree to the clock reading and notes the time since the last call everywhere. |
| Timing.TouchReplans | kernel/block.hpp:608-618 | touch sets plan, time and delta of every block and time and delta of every subprogram below, and nothing else. |
| ErrorPaths.CallNames | kernel/block.hpp:746-778 | A step adds to the error names of its block exactly the dotted paths of the objects that failed in it, at whatever depth, and leaves none behind below. |
| ErrorPaths.ReportedNameFindsOwner | kernel/block.hpp:401-413 | Each reported name is the name of a failed own object, or the dotted block names down to the owner and the name of the object; get_child on the proper prefix finds the owner. |
| ErrorPaths.GetChildFindsOwner | kernel/block.hpp:401-413 | get_child inverts the dot-joined path of a block when names are non-empty, free of dots and distinct among siblings. |
| ErrorPaths.DottedSplits | kernel/detail/std.hpp:145-149 | A reported name is the path of the owner, a dot, and the name of the object. |
| ErrorPaths.FailureExists | kernel/block.hpp:662-757 | Every recorded failure is at a path that exists. |
| ErrorPaths.MessagesConserved | kernel/block.hpp:780-793 | Over any interleaving of steps and get_next_errors, delivered batches and remaining queue are all messages ever pushed, in order. |
| ErrorPaths.CallMessages | kernel/block.hpp:692-744 | A step pushes one message for each handled failure, in log order. |
| Names.ExtractJoined | kernel/detail/std.hpp:131-149 | extract_block_name undoes compose_block_name when the first part has no dot. |
| Names.ExtractPlain | kernel/detail/std.hpp:131-149 | A name without a dot is extracted whole. |
| Runs.LoadedModelNeverGoesWrong | loader/yaml_block.hpp:244-418 | Loader soundness, for configurations whose dotted names agree in type and whose functions keep to the described types, both read off the configuration: after any run of steps and operator commands no step of the loaded model is stopped, the tree is well wired, power flags are closed, and only benign errors were recorded. |
| Runs.PowerInvRun | kernel/block.hpp:595-690 | The power invariant in every state any tree can reach from dark, whatever escapes its steps. |
| Runs.FramedRun | kernel/block.hpp:643-771 | The lock frame over a whole run between commands. |
| RunResults.RunSameTypes | kernel/control_func/vars.hpp:88-153 | No run of steps and commands changes a type, whatever escapes its steps. |
| RunResults.LoadedReports | kernel/block.hpp:746-778 | After any run of a loaded model whose names agree and whose functions keep to the described types, the error names the next step hands out are exactly the dotted paths of the objects that fail in it. |
| RunResults.LoadedReportFindsOwner | kernel/block.hpp:401-413 | With block names free of dots in the configuration as well, each of them finds the failed object or its owning block. |
| RunResults.LoadedOffMeansHeld | kernel/block.hpp:583-690 | Once a block at any depth of a loaded model whose names agree has been on, it holds the power-off values of its whole subtree whenever steps without commands leave it off. |
| RunResults.DisagreeingUseFails | kernel/block.hpp:649-757 | In every step of every run of a loaded model each call of a child of the main block with a USE wire to a name that does not agree fails with a bad_cast. |
| RunResults.DisagreeingEdgeNeverOn | kernel/block.hpp:583-592 | In every state a loaded model reaches without commands, at every depth, a block with a power-on value for a name that does not agree is off. |
| Runs.LoadedWiresStayCoherent | loader/yaml_block.hpp:257-289 | In every state that a model, loaded from a configuration whose dotted names agree in type and start value, reaches by steps and by commands that neither set nor unlock a variable, all clean wires into unlocked variables hold, at every depth, if functions keep to the described types and leave described fed variables alone. |
| Runs.ApplyKeepsTypes | kernel/control_func/vars.hpp:88-153 | Operator commands change no type and no power flag. |
| RunResults.CommandHere | kernel/control_func/vars.hpp:88-153 | What each command does to the block at its path: one value of the right type set, one lock moved, or the oldest messages fetched, and nothing else. |
| RunResults.CommandElsewhere | kernel/control_func/vars.hpp:88-153 | No command changes anything of another block. |
| LoaderObjects.Decode | loader/yaml_block.hpp:136-418 | decode with its loops and early returns accepts, refuses or crashes exactly as specified and builds the same tree. |
| LoaderObjects.Build | loader/yaml_block.hpp:231-418 | The part from the creation of the block on. |
| LoaderObjects.DecodeKids | loader/yaml_block.hpp:201-209 | The children, in key order, up to the first that is not accepted. |
| LoaderObjects.Builder.ReadSource | loader/yaml_block.hpp:245-289 | A variable gets a value of its type, or a wire from a child that has it and is not feeding it yet. |
| LoaderObjects.Builder.ConnectDest | loader/yaml_block.hpp:293-332 | One wire into a child, with the checks on child, variable, type and double use. |
| LoaderObjects.Builder.ConnectDests | loader/yaml_block.hpp:291-333 | The loop over the destinations. |
| LoaderObjects.Builder.AddVariable | loader/yaml_block.hpp:244-344 | One turn of the loop over the variables. |
| LoaderObjects.Builder.AddVariables | loader/yaml_block.hpp:244-344 | The loop over the variables. |
| LoaderObjects.Builder.CheckKids | loader/yaml_block.hpp:345-363 | Every operand of a power condition of a child is a variable. |
| LoaderObjects.Builder.CheckSubs | loader/yaml_block.hpp:364-382 | The same for subprograms. |
| LoaderObjects.Builder.ReadSetup | loader/yaml_block.hpp:394-411 | The values of one initial state, up to the first unknown name or bad text. |
| LoaderObjects.Builder.ReadStates | loader/yaml_block.hpp:385-418 | The two named initial states. |
| LoaderObjects.CheckFunctions | loader/yaml_subpr.hpp:76-81 | Every subprogram names a registered function. |
| LoaderObjects.FindVariable | kernel/block.hpp:278-299 | get_variable: a dotted name is looked up below, any other here. |
| LoaderSoundness.LoadedGood | loader/yaml_block.hpp:244-418 | What every accepted configuration guarantees, at every depth: names, types as seen by lookups, operands, unique feeds, nothing locked or powered. |
| LoaderExact.LoaderSoundIff | loader/yaml_block.hpp:244-418 | The guarantees of every accepted configuration, and: the loaded tree is well wired if and only if every dotted name in the wires and initial states of the configuration leads to a described variable of the type of the described variable that literally bears it. |
| Described.LoadIsDescribed | loader/yaml_block.hpp:136-418 | An accepted configuration loads into exactly what it describes, at every depth: each variable starts with the value its chain of sources leads to, the wires into and out of the children are the described ones and no others, initial states are the texts read as the type a lookup finds, subprograms stand in key order with their described function, renaming, priority and condition and have not been called, and periods, priorities and conditions of blocks are the described ones. |
| Described.LookupIsDescribed | kernel/block.hpp:278-299 | get_variable on the loaded tree finds the start value that the lookup on the configuration finds. |
| LoaderExact.LoadedTypes | loader/yaml_block.hpp:244-289 | The types of the variables of the loaded tree, and of what get_variable finds under any name, are those of the configuration. |
| LoaderExact.TextIsKeptIff | loader/yaml_block.hpp:255 | A variable starts with the value of the text it stems from if and only if from_string succeeds on it; otherwise it holds the default and nothing is reported. |
| LoaderExact.RespectsIff | loader/yaml_block.hpp:244-418 | The functions of the loaded tree keep to its types if and only if those of the configuration keep to the described types. |
| LoaderExact.AllHoldIff | loader/yaml_block.hpp:257-289 | The wires of an accepted tree all hold from the start, at every depth, if and only if the sources agree in start value with what a lookup of their names finds. |
| LoaderExact.FedIff | loader/yaml_block.hpp:245-289 | A variable of the loaded tree is fed by a child if and only if it is described so. |
| LoaderAnswers.LoadAnswers | loader/yaml_block.hpp:136-418 | decode accepts exactly the configurations that meet a condition stated on them, at every depth: registered functions, sources that exist and resolve, destinations of the same type that are used once, condition operands and state names that are described, texts that can be read. It follows a null pointer on exactly those whose first child that is not accepted does, or that meet all but the initial states and there have a described name that resolves to nothing before anything else is wrong. The rest it refuses. |
| LoaderAnswers.ReadStateIff | loader/yaml_block.hpp:394-411 | An initial state crashes if and only if its first name that is not read is described and resolves to nothing; it is read if and only if every name is. |
| LoaderSoundness.WellWiredIffDottedAgree | loader/yaml_block.hpp:244-418 | The same for any tree with the guarantees of the loader. |
| LoaderExact.LoadedReady | loader/yaml_block.hpp:244-418 | A configuration whose names agree in type loads into a well-wired tree that is dark, with nothing locked, blocked or reported at any depth. |
| LoaderExact.LoadedWired | loader/yaml_block.hpp:257-289 | If its sources agree in start value too, its clean wires hold from the start. |
| PlainNames.LoadedPlain | loader/yaml_block.hpp:244-418 | A configuration whose names carry no path agrees in types and start values. |
| PlainNames.PlainNeverCrashes | loader/yaml_block.hpp:244-418 | A configuration whose names carry no path is accepted or refused, never a null pointer followed. |
| Formula.SolveByStack | kernel/detail/std.hpp:288-306 | The stack loop of solve against the recursive definition. |
| Formula.SolveDecomposes | kernel/detail/std.hpp:288-372 | solve on a non-empty formula succeeds if and only if no token offends; then the tokens split in exactly one way into postfix forms of at least one tree and the value is that of the last; otherwise the first offender is reported. |
| Formula.DecompositionUnique | kernel/detail/std.hpp:288-306 | A token list spells at most one list of trees. |
| Formula.SolvePostfixIsEval | kernel/detail/std.hpp:288-306 | solve on the postfix form of a tree is its evaluation. |
| Formula.LogicMeaning | kernel/detail/std.hpp:362-373 | The conditions with one operator are conjunction, disjunction and negation of the readings of their variables. |
| Conditions.SolvesMeaning | kernel/detail/std.hpp:376-394 | solve on the postfix form of a tree over the values of variables gives the meaning of the tree. |
| Conditions.OneVariable | kernel/detail/std.hpp:388-394 | On a single name: whether that variable is set, or an out_of_range when there is none. |
| Conditions.AnyFormula | kernel/detail/std.hpp:288-306 | An empty formula has the default value; another is solved if and only if it spells conditions one after another, and then means the last of them. |
| Formula.RunEvaluatesTrees | kernel/detail/std.hpp:292-304 | At every moment the stack holds the values of the trees spelled so far. |
| Formula.NeverInvalidOp | kernel/detail/std.hpp:326-334 | invalid_operation is never thrown by solve: only operators are passed to call. |
| Remap.RenameInPlace | kernel/subprog.hpp:78-84 | The renaming loop on the result, against its definition. |
| Remap.RenameLosesNothingIff | kernel/subprog.hpp:78-84 | Under any renaming the loop loses no entry if and only if every present name, followed along its chain of ascending renamings, ends somewhere and no two end alike; then the result is exactly the entries at those ends. |
| Remap.RenameIsSimultaneousIff | kernel/subprog.hpp:78-84 | Under any renaming the loop is the simultaneous renaming with no entry lost if and only if the new names of the present entries are distinct, their ends are distinct, and at the new name of each entry some entry with its value ends. |
| Remap.RenameMovesNamesIff | kernel/subprog.hpp:78-84 | Over a type with two values the loop is the simultaneous renaming of a set of names, whatever values they have, if and only if each of them ends at its own new name and the new names are distinct. |
| Remap.BackwardRenameIff | kernel/subprog.hpp:78-84 | When no target is a later or the same source, so also for chains against the key order, that is so if and only if every present target of a present source is itself renamed and present sources have distinct targets. |
| Remap.ForwardTargetMovesOn | kernel/subprog.hpp:78-84 | An entry whose target is a later source moves on and ends where that source ends, which is the target again only if a source later still is renamed to it; if the target was present an entry is lost. |
| Remap.CycleComesBack | kernel/subprog.hpp:78-84 | Under a to b, b to c, c to b, in key order, the entry of a does come back to b and the loop is the simultaneous renaming. |
| Remap.SelfMapAlwaysLoses | kernel/subprog.hpp:78-84 | A present name mapped to itself makes every renaming lose an entry. |
| Remap.RenameNeverGrows | kernel/subprog.hpp:78-84 | Under any renaming the result never gains entries. |
| Remap.SelfMapLosesEntry | kernel/subprog.hpp:78-84 | A name mapped to itself is lost from the result. |
| Remap.ChainLosesEntry | kernel/subprog.hpp:78-84 | In a chain of two renamings along the key order, under any names, the first entry is lost. |
| RenamedCalls.CallIsFunctionRenamedIff | kernel/subprog.hpp:71-89 | Under any renaming the result of the call, seen through it, is the result of the function entry for entry if and only if its names are distinct under the renaming, end apart, and at the new name of each some entry with its value ends. |
| RenamedCalls.CallIsFunctionRenamed | kernel/subprog.hpp:71-89 | When no target is a later or the same source, that is so if and only if the targets are free. |
| RenamedCalls.CallNeverGrows | kernel/subprog.hpp:71-89 | Without conditions the call returns no more entries than the function. |
| Remap.RemappableMap.Find | kernel/detail/remappable_map.hpp:57-62 | What find reaches is the view through the renaming. |
| Remap.RemappableMap.Emplace | kernel/detail/remappable_map.hpp:80-85 | An entry is added under the underlying key unless it is there. |
| Remap.RemappableMap.EraseFound | kernel/detail/remappable_map.hpp:101-104 | The underlying entry goes. |
| Remap.RemappableMap.SetKeyRemap | kernel/detail/remappable_map.hpp:135-143 | A renaming is added once per visible name. |
| Remap.RemappableMap.Assign | kernel/detail/remappable_map.hpp:160-167 | Assignment duplicates the entries, except onto itself. |
| Remap.RemappableMap.Copy | kernel/detail/remappable_map.hpp:153-157 | Copying duplicates the entries. |
| Remap.RemappableMap.UseData | kernel/detail/remappable_map.hpp:170-172 | use_data shares the entries and keeps the own renaming. |
| Values.CodecRoundTrip | kernel/holder.hpp:59-154 | from_bytes inverts to_bytes for the four standard types. |
| Values.DecodesIff | kernel/holder.hpp:67-131 | from_bytes finds exactly the value of its type that the bytes stand for: an int in two-complement form low byte first, a bool by a byte that is not zero, a real and a string as stored. |
| Values.EncodedStands | kernel/holder.hpp:59-154 | to_bytes gives bytes that stand for the value; a bool takes two. |
| Values.UnsetIsDefault | kernel/holder.hpp:76-160 | The defaults are false, zero and the empty string, and a value reads as unset if and only if it is the default of its type or a negative zero. |
| Checksum.CalcControlSum | kernel/block_class/udp_exchange.hpp:53-65 | The summing loop over 16-bit words with carry and bump. |
| Checksum.ClosedForm | kernel/block_class/udp_exchange.hpp:53-65 | Under a non-zero initial word the sum is ((initial + total - 1) mod 65535) + 1. |
| Checksum.ZeroInitial | kernel/block_class/udp_exchange.hpp:53-65 | Under a zero initial word the first word takes its place, a zero counted as one. |
| Checksum.NeverZero | kernel/block_class/udp_exchange.hpp:53-65 | Zero comes out only of an empty buffer under a zero initial word. |
| Checksum.OrderBlind | kernel/block_class/udp_exchange.hpp:53-65 | The order of the words does not matter. |
| Checksum.SingleWordChange | kernel/block_class/udp_exchange.hpp:53-65 | A changed word goes unnoticed if and only if 0x0000 and 0xFFFF are swapped. |
| Checksum.WordChangeIff | kernel/block_class/udp_exchange.hpp:53-65 | Under any initial word a changed word goes unnoticed if and only if 0x0000 and 0xFFFF are swapped, or 0x0000 and 0x0001 where it takes the place of a zero initial word. |
| Checksum.LastOddByteUnseen | kernel/block_class/udp_exchange.hpp:57 | An odd last byte is not covered. |
| UdpObjects.MessageQueue.AddMessage | kernel/block_class/udp_networking.cpp:70-77 | Non-empty messages are appended. |
| UdpObjects.MessageQueue.GetMessages | kernel/block_class/udp_networking.cpp:79-87 | All messages are handed out and the queue is empty. |
| UdpObjects.Exchange.OutputVars | kernel/block_class/udp_exchange.hpp:281-342 | The loop over the buffers: stored values, counter, faults and messages sent. |
| UdpObjects.Exchange.SendBuffer | kernel/block_class/udp_exchange.hpp:285-340 | One buffer, built in a byte array. |
| UdpObjects.Exchange.FillBuffer | kernel/block_class/udp_exchange.hpp:292-325 | The loop over the variables of a buffer, with the short circuit and the three faults. |
| UdpObjects.Exchange.StampMessage | kernel/block_class/udp_exchange.hpp:329-336 | Counter byte and checksum in the header. |
| UdpObjects.Exchange.InputVars | kernel/block_class/udp_exchange.hpp:203-279 | The loop over the queued messages: counter, faults and variables read. |
| UdpObjects.Exchange.ReadMessage | kernel/block_class/udp_exchange.hpp:208-276 | One message: identifier, size, sequence, checksum, variables, in this order. |
| UdpObjects.Exchange.ReadVars | kernel/block_class/udp_exchange.hpp:248-275 | The walk over the variables: an absent one is skipped, a bad value ends it and keeps what was read. |
| UdpDelivery.SentMessage | kernel/block_class/udp_exchange.hpp:281-342 | A message has the size and id of its buffer, the next counter byte, a checksum its receiver computes, and the bytes of the stored values in every region. |
| UdpDelivery.EndToEnd | kernel/block_class/udp_exchange.hpp:203-342 | Every message sent for a sound buffer is accepted by a receiver whose last counter byte differs and reads as exactly the stored values of the sender. |
| UdpRuns.PollingIsTransparent | kernel/block_class/udp_networking.cpp:70-87 | However arrivals and polls interleave, class and variables are those of reading the polled messages one by one in order of arrival. |
| UdpRuns.RefusedIffDivides | kernel/block_class/udp_exchange.hpp:225-232 | After any history message j is refused by the sequence check if and only if 256 divides its distance from the last message that set the counter. |
| UdpRuns.CounterTracks | kernel/block_class/udp_exchange.hpp:227-232 | The counter is congruent to the number of that message. |
| UdpRuns.InOrderPasses | kernel/block_class/udp_exchange.hpp:225-232 | Delivery in order without loss passes for ever. |
| UdpRuns.RepeatIsIdle | kernel/block_class/udp_exchange.hpp:225-231 | An immediate repeat changes neither variables nor counter. |
| UdpRuns.FreshRefusesMultiples | kernel/block_class/udp_exchange.hpp:132 | A fresh receiver refuses the messages whose number is a multiple of 256, and no others. |
| UdpMirror.OutputsSendOn | kernel/block_class/udp_exchange.hpp:327-330 | The messages of any run are numbered one after another. |
| UdpMirror.LossyChannelRefuses | kernel/block_class/udp_exchange.hpp:203-232 | From a fresh pair, over a channel that drops, repeats or reorders and however arrivals and polls interleave: the next message is refused if and only if 256 divides its distance from the last message read that set the counter. |
| UdpMirror.OutputsMirror | kernel/block_class/udp_exchange.hpp:203-342 | Over a whole lossless run no fault occurs and what the receiver knows is what the sender stores. |
| UdpMirror.FreshPairMirrors | kernel/block_class/udp_exchange.hpp:203-342 | The same from a fresh pair with any interleaving of queueing and polling. |
| UdpDelta.FillFixesFirst | kernel/block_class/udp_exchange.hpp:311-312 | A walk copies exactly the first variable that differs. |
| UdpDelta.BufferFixesFirst | kernel/block_class/udp_exchange.hpp:285-340 | A buffer sends if and only if something differs, and then has one difference less. |
| UdpConvergence.DeltaConvergence | kernel/block_class/udp_exchange.hpp:281-342 | With frozen values and differences that no two buffers share, n calls make each buffer send exactly min(n, differences) messages and remove as many differences. |
| UdpConvergence.ConvergesIff | kernel/block_class/udp_exchange.hpp:281-342 | In a frozen run long enough each buffer has sent one message for each of its differences if and only if no two buffers share a difference at the start. |
| UdpConvergence.RunTotal | kernel/block_class/udp_exchange.hpp:281-342 | Whatever is shared, over any frozen run the messages sent are exactly the differences removed. |
| UdpConvergence.SharedDifferenceStaysBehind | kernel/block_class/udp_exchange.hpp:311-312 | If two buffers share a difference, there is a buffer that in frozen runs of every length sends fewer messages than it had differences. |
| UdpConvergence.NamesApartIff | kernel/block_class/udp_exchange.hpp:311-312 | No difference is ever shared, whatever the values are, if and only if no variable is listed in two buffers. |
| UdpConvergence.RunEmpties | kernel/block_class/udp_exchange.hpp:281-342 | Whatever is shared, a frozen run of as many calls as there are differences leaves none. |
| UdpConvergence.FrozenRunDelivers | kernel/block_class/udp_exchange.hpp:203-342 | End to end, whatever is shared: after that many frozen calls, without loss and with any interleaving of arrivals and polls, the receiver has no fault and knows exactly the current values of the block. |
| UdpConvergence.LastMessageCarriesAll | kernel/block_class/udp_exchange.hpp:281-342 | In a frozen run at least as long as its differences, the last message of a buffer that had any reads as every current value. |
| UdpConvergence.SharedVariableStarves | kernel/block_class/udp_exchange.hpp:311-312 | In any layout, a buffer whose only difference is the next one of an earlier buffer sends nothing in n frozen calls, for every n. |
| UdpDelta.ChangeIsLostIff | kernel/block_class/udp_exchange.hpp:292-340 | Stored values change without a message if and only if the walk copies a variable that differs in value but not in type and meets a fault at it or after it: absent from the block, absent from the store, or of the wrong size. |
| UdpDelta.SendsIff | kernel/block_class/udp_exchange.hpp:292-340 | A buffer sends if and only if the walk copies such a variable and meets no fault at it or after it. |
| UdpDelta.FaultLosesChange | kernel/block_class/udp_exchange.hpp:311-326 | An instance: a buffer given up on the size of its second variable has stored the change of the first without sending it. |
| UdpInput.InputIsTyped | kernel/block_class/udp_exchange.hpp:248-275 | Whatever arrives, the variables handed over are variables of the block with values of their types. |
| UdpInput.BadValueStops | kernel/block_class/udp_exchange.hpp:262-272 | After a bad value the walk has read exactly what came before it and reported it; the rest is not looked at. |
| UdpInput.PartIsKeptIff | kernel/block_class/udp_exchange.hpp:248-275 | A message with a bad value hands over nothing if and only if no variable before the first bad one is a variable of the block; otherwise exactly those that are. |
| UdpInput.StampedPartIsKept | kernel/block_class/udp_exchange.hpp:207-275 | Any content under a known id, of the right size and with a fresh counter byte gets as far as that once its checksum is right. |
| UdpInput.GoodAreRead | kernel/block_class/udp_exchange.hpp:248-275 | Without a bad value exactly the known variables are read and exactly the others reported. |
| UdpDamage.SumIsWireSum | kernel/block_class/udp_exchange.hpp:53-65 | The checksum of a message on its bytes: identifier and counter as the first word, low byte first, and what stands behind the header added modulo 65535. |
| UdpDamage.SentOnWire | kernel/block_class/udp_exchange.hpp:281-342 | A sent message byte by byte: identifier, counter, checksum low byte first, each stored variable in its region, zeros everywhere else. |
| UdpDamage.TurnedAway | kernel/block_class/udp_exchange.hpp:207-246 | A message of an unknown buffer, of the wrong size, with the last counter byte, or with a header sum that is not that of its bytes hands over nothing and leaves one fault of that kind; only the last sets the counter. |
| UdpDamage.LetThrough | kernel/block_class/udp_exchange.hpp:227-275 | Every other message is walked through, from a counter set to its own. |
| UdpDamage.DamagedIsSkipped | kernel/block_class/udp_exchange.hpp:203-246 | A damaged message among others: input_vars hands over what it reads of the others. |
| UdpDamage.DamageIsNoticedIff | kernel/block_class/udp_exchange.hpp:233-246 | A sent message with one word behind the header changed is turned away with one fault unless the change is one of the swaps the sum cannot see, and those are let through. |
| UdpDelta.FaultsHaveReasons | kernel/block_class/udp_exchange.hpp:292-326 | A turn of a buffer reports at most one fault and names a variable that is absent from the block, absent from the store or of another size; it throws only over a variable of another type. |
| Parser.ParseInstruction | process/simple_instruction_parser.hpp:71-83 | The loop of parse. |
| Parser.ExtractParameter | process/simple_instruction_parser.hpp:107-163 | One parameter, quoted or bare. |
| Parser.ReadQuoted | process/simple_instruction_parser.hpp:123-151 | The inner loop over the quotes with both escapes. |
| Parser.ParsedIsNormal | process/simple_instruction_parser.hpp:71-163 | Every parameter of every instruction does not end in a backslash or is non-empty and free of blanks and quotes. |
| Parser.PrintParse | process/simple_instruction_parser.hpp:71-163 | A valid name and a normal list, printed, parse back without an error. |
| Parser.ParsePrintParse | process/simple_instruction_parser.hpp:71-163 | parse after print after parse is parse. |
| Parser.NormalIffWritable | process/simple_instruction_parser.hpp:71-163 | The parameter lists that some instruction has are exactly the normal ones. |
| ParserGrammar.InstructionParses | process/simple_instruction_parser.hpp:71-163 | Every instruction of the language parses to its name and the texts meant: blanks, words, and quoted parameters with each quote inside written behind a backslash or doubled. |
| ParserGrammar.ParsedIsInstruction | process/simple_instruction_parser.hpp:71-163 | Every text without an unterminated quote is such an instruction. |
| ParserGrammar.QuotesErrorIff | process/simple_instruction_parser.hpp:123-131 | The parser reports an unterminated quote for exactly the texts that are no instructions. |
| ParserGrammar.WordReads | process/simple_instruction_parser.hpp:152-159 | A word behind blanks and before a blank, a quote or the end is read as exactly that word, and reading goes on right after it. |
| ParserGrammar.QuoteReads | process/simple_instruction_parser.hpp:115-151 | A quoted parameter is read as the text its pieces mean, up to right after the closing quote. |
| ParserGrammar.ValidNames | process/simple_instruction_parser.hpp:87-104 | A name is valid letter by letter: not when nothing is decoded, one character if it is a letter, one more if it is a letter, a digit or an underscore. |
| SharedMemory.SharedMemoryIo.Exchange | kernel/block_class/shared_memory_io.hpp:211-286 | The pass over the mapped bytes: memory, returned variables and messages. |
| SharedMemory.SharedMemoryIo.VisitVar | kernel/block_class/shared_memory_io.hpp:223-277 | One variable: reach, read condition, read, write condition, write, on the values as they are by then. |
| SharedMemory.SharedMemoryIo.WriteVar | kernel/block_class/shared_memory_io.hpp:246-266 | memset, then memcpy or a message. |
| Bytes.CopyInto | kernel/block_class/shared_memory_io.hpp:254-255 | The bytes of the copied value replace a stretch of the buffer, in place; the rest stays. |
| Bytes.Clear | kernel/block_class/shared_memory_io.hpp:247 | The same with zeros. |
| SharedMemory.MemoryImage | kernel/block_class/shared_memory_io.hpp:211-286 | Over regions that do not overlap the pass in place is the pass on a memory that is only read: same values, result and messages; each written region holds its image and every other byte is unchanged. |
| SharedMemory.ResultIsWhatWasRead | kernel/block_class/shared_memory_io.hpp:230-233 | Exactly the variables are returned whose read condition held on the values progressed so far. |
| SharedMemory.WrittenOut | kernel/block_class/shared_memory_io.hpp:246-266 | After a write pass over regions of exact size each holds the bytes of its variable. |
| SharedMemory.WriteThenRead | kernel/block_class/shared_memory_io.hpp:211-286 | A write pass and then a read pass over the same layout give the values back. |
| SharedMemory.LastByteIsRefused | kernel/block_class/boost_shm_object.cpp:71-76 | Whatever its conditions, a variable is turned away untouched if and only if its region does not end before the memory does; a region that lies inside and ends with the memory is refused. |
| SharedMemory.ResultIsTyped | kernel/block_class/shared_memory_io.hpp:211-286 | Whatever the memory holds, the variables returned are variables of the block with values of their types. |
| SharedMemory.ConditionHolds | kernel/block_class/shared_memory_io.hpp:230-246 | A read or write condition that spells a tree has the meaning of the tree; one that is not configured is false. |
| SharedMemory.ReadsByCondition | kernel/block_class/shared_memory_io.hpp:223-233 | A turn reads if and only if its region ends before the memory, its variable is there, and its condition is true of the values as they are by then. |
| SharedMemory.WritesByCondition | kernel/block_class/shared_memory_io.hpp:246-266 | The same for a turn that only writes. |
| SharedMemory.ReadMeans | kernel/block_class/shared_memory_io.hpp:230-234 | A read gives the value the bytes of the region stand for, or, unnoticed, the one from before where they stand for none. |
| SharedMemory.MessageOfTurn | kernel/block_class/shared_memory_io.hpp:223-286 | Which message a turn leaves, and that it writes nothing when something is missing. |
| SharedMemory.WrittenPadded | kernel/block_class/shared_memory_io.hpp:246-266 | After a write pass over regions of any sizes that do not overlap each holds the bytes of its variable padded with zeros, or zeros alone and a message if they do not fit; every other byte is unchanged. |

## Left out

- Sockets, servers, threads, timed locks and the mapping of shared memory; the message queue is a list whose methods are single steps, the memory a byte array.
- YAML reading, command-line options, library loading and `main.cpp`: the loader starts from a parsed configuration.
- Text output, logging, protocol files, the wording of messages; a message is the object's name and the exception.
- Conversion of numbers to and from text, locales and decoding: functions and predicates given from outside; the decoded name is taken to be empty where the source would read the character at its end, which is NUL and no letter.
- Configuration and joining of block classes, and the error text a class adds at the end of `call`: such a class takes part only through the subprogram it provides.
- The wall clock is one reading per step, while the source reads it for every object; `get_process_time` is not kept.
- Parameter objects shared between maps: variables are values in maps, so aliasing between a returned map and a block does not arise.
- A function that returns a copy of its own input, whose result then carries a renaming of its own.
- The `allowed` argument of `write_variables`, which the code does not use, and the periodical and blocked-in-stop flags, which the scheduler does not ask.
- The power flag and error names of the main block beyond what its caller fetches; priorities and conditions do not change after loading.
- NaN and signed zeros in the equality of reals, and bool bytes other than 0 and 1: a real is eight opaque bytes with total equality.
- Integer widths of sizes, offsets and message counters beyond what reaches the wire: the counter's low byte is what both ends compare.
- UDP datagrams longer than the receive buffer, and buffers under four bytes or with variables outside them, on which the code indexes without a check.
- Runs.LoadedWiresStayCoherent: speaks of clean wires into unlocked variables, and of runs without the commands that set or unlock a variable, because these may part the two ends; the other wires are the subject of `WiringLimits.FallingEdgeIff`, `WiringLimits.RisingEdgeIff`, `WiringLimits.UseCopyIff` and `Wires.CalledChildFeedsAtEnd`.
- UdpConvergence.DeltaConvergence: for frozen values whose differences no two buffers share; `UdpConvergence.ConvergesIff` shows that this is exact.
- BlockObjects.Block.Call: does not append the error text and name of a block class at the end of `call`, because block classes are not joined to blocks here.
- BlockObjects.Block.Touch: one clock reading serves the whole subtree, because the clock enters once per step.
- Timing.TouchReplans: the same single clock reading.
- Timing.OnEdgeReplans: the same single clock reading.
- ErrorPaths.CallNames: does not include the name that a block class with errors adds to the set.
- LoaderObjects.Decode: starts from a configuration that has been parsed; the parsing and the block class section are not modelled.
- LoaderObjects.Build: ends before a block class is read and joined.
- LoaderLimits.DisagreeingWireStopsRun: one family of configurations, to show that the step comes; elsewhere power conditions or power-on values decide whether it does, and `LoaderLimits.DisagreeingWireStopsStep` says what happens when it does.
