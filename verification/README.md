# Verification of the core of NDS3

NDS3 is a library for device support: a device is a tree of nodes, state machines and process variables
(PVs), which a control system reads, writes and connects by name. The Dafny files in this directory model
the parts that hold its state, and prove what those parts keep.

Check everything with `dafny verify dfyconfig.toml`.

## The parts

- **State machines** (`States`, `StateMachine`, `TransitionProtocol`, `ProtocolInvariant`, `ProtocolTheorems`,
  `ProtocolOutcomes`, `ProtocolProgress`, `ProtocolRoles`). `StateMachine` is the object with its critical sections.
  `TransitionProtocol` interleaves any number of threads that call `setState` or `deinitialize`, and the
  transition threads they launch, at the granularity of the two mutexes, the thread handle and the delegates.
  The theorems hold in every state of every run.
- **Global state** (`GlobalState`). The recursion up from a machine to its node and down the tree.
- **Pushes** (`Graphs`, `Decimation`, `PVs`, `PushTheorems`, `DataAcquisition`). `InputPV.Push` is the
  recursive, lock-holding method itself, on objects; its contract counts paths in the replication graph.
  `Graphs` relates the paths to reachability and to the flow equations, `Decimation` relates the wrapping
  countdown to division.
- **Registry and trees** (`Registry`, `RegistryLaws`, `RegistryTheorems`, `RegistryOperations`,
  `RegistryFailures`, `Trees`, `TreeTheorems`, `TreeNames`, `Names`, `NameForms`). `NdsFactory` is the object
  with its name maps. Its methods are proved against functions on `Directory`, which is the view of all names
  and connections; the theorems are about those functions.
- **INI files** (`IniParser`, `IniLines`, `IniKinds`, `IniLayout`, `IniTheorems`), with a printer that the library
  does not have.
- **Folder lists** (`FolderList`), **devices** (`Devices`, `DeviceInvariant`, `DeviceTheorems`,
  `DeviceFailures`) and **naming rules** (`NamingRules`). `Collections` has what several of them need.

## Where the code falls short

The model follows the code. For each of these there is a run or an input that shows it, and the exact
condition under which it happens.

- `include/nds3/stateMachine.h:129` promises fault for any exception of a delegate. An exception that is no
  `runtime_error` leaves the intermediate state for ever (`ProtocolOutcomes.EscapeHappens`,
  `ExceptionsShowFaultIff`, `ProtocolTheorems.EscapeIsForever`), and ends the process when the transition has
  its own thread.
- `canChange` and `setState` disagree on what a transition is (`StateMachines.AllowedAgreesIff`).
- `include/nds3/pvBaseIn.h:99` promises that a decimation factor of 0 passes nothing. It passes every 2^32-th
  sample (`Decimation.ZeroFactor`); a negative setting of an acquisition behaves alike
  (`DataAcquisitions.PeriodOfSetting`).
- Two mutexes are taken in opposite orders: `initializeRootNode` holds the initialization mutex when it asks
  for the factory's (`src/nodeImpl.cpp:62-66`, `src/factoryBaseImpl.cpp:191`), `destroyDevice` holds the
  factory's when it asks for the other (`src/factoryBaseImpl.cpp:122-132`). Destroying a device that has nodes
  while a root node is being initialized blocks both for ever (`DeviceFailures.EmbraceHappens`,
  `EmbraceIsForever`), and nothing else does (`SafeIffNoClash`, `StuckIffEmbraced`).
- A driver that throws after it has initialized a root node leaves that node initialized and held, with its PVs
  registered and no device (`DeviceFailures.NodeStranded`, `StrandsIff`, `OwnedAtRest`).
- Deregistration goes by name only, so its caller must pass the PV that is filed
  (`RegistryTheorems.DropKeepsClosedIff`, `DropOutputKeepsClosedIff`, `RegistryFailures.AnotherInput`,
  `AnotherOutput`).
- An input keeps its connections when it is deregistered. Registered again, it can push to PVs that are not
  registered any more (`RegistryFailures.RegisteredAgain`, `RegistryTheorems.KeepsIff`). `setParent` keeps
  a tree from being initialized twice (`src/baseImpl.cpp:84-92`); the registry itself does not.
- Full names are ambiguous once a component has a dash (`Names.DashesCollide`).
- A comment line of an INI file that holds an unescaped equal sign is not skipped: it is read as an entry, or
  ends the program if a quote is left open behind the sign (`IniLines.CommentIsSkippedIff`, `CommentReads`,
  `EntryInstance`, `AbortInstance`).

## Assumptions

- Delegates, subscribers and drivers do not call back into the object whose lock is held. A delegate ends.
  In `ProtocolProgress.NeverStuck` a mutex holder outside the machine is taken to release the mutex.
- Starting a thread succeeds.
- The replication graph is acyclic wherever a push is made, and a PV is pushed by one thread at a time, as
  `include/nds3/pvBaseIn.h` demands. `Graphs.RelocksIffCycle` says what happens on a cycle.
- A PV is initialized once; its full name, computed then, is a constant of the object here.
- A device is not destroyed while it is being created, addresses are not reused, and a root node is
  initialized once at a time.
- Sets and maps are visited in any order here, the children of a node in the order of their names.

## Model

| member | source | states |
|---|---|---|
| StateMachines.JudgeReadsTable | src/stateMachineImpl.cpp:184-223 | a request is granted with a row if and only if that row is in the table, starts in the local state, ends in the requested one, and the user allows it; it is denied if only the user objects |
| StateMachines.JudgeRefuses | src/stateMachineImpl.cpp:184-214 | only off, on and running can be requested, only from a resting state; a number that names no state is told apart from a state without a transition |
| States.CodesInOrder | include/nds3/definitions.h:36-48 | the codes of the nine states are 0 to 8, in the order of the enumeration |
| StateMachines.TableRows | src/stateMachineImpl.cpp:184-208 | the table has exactly these five rows, with these intermediate states |
| StateMachines.AllowedAgreesIff | src/stateMachineImpl.cpp:362-371 | the transitions that canChange allows are those of setState except from intermediate states, to fault, and from fault to on or off |
| StateMachines.StateMachine.Initialize | src/stateMachineImpl.cpp:115-118 | off is stored with its time and pushed |
| StateMachines.StateMachine.Claim | src/stateMachineImpl.cpp:167-230 | the branches of the claiming section decide exactly as the table look-up; a grant stores and pushes the intermediate state, anything else changes nothing |
| StateMachines.StateMachine.Commit | src/stateMachineImpl.cpp:283-313 | success stores and pushes the final state, roll-back the initial one, any other runtime error fault |
| StateMachines.StateMachine.SetState | src/stateMachineImpl.cpp:161-247 | a whole synchronous call: what is pushed for every verdict and every end of the delegate; it returns if and only if the delegate completed, and then the requested state is reached, and throws the roll-back, the runtime error or the other exception if and only if that is how the delegate ended |
| ProtocolInvariant.Initially | src/stateMachineImpl.cpp:111-119 | the machine that initialize leaves satisfies the invariant of the protocol |
| ProtocolInvariant.Keeps | src/stateMachineImpl.cpp:161-314 | every atomic step of any number of callers, transition threads and deinitializers keeps the invariant |
| ProtocolTheorems.IntermediateIffOneTransition | src/stateMachineImpl.cpp:167-230 | in every reachable state the local state is intermediate exactly while one thread is responsible for an uncommitted transition, whose table row starts in the last stable state and goes through the local one; the only exception is a delegate left by an exception that is no runtime error |
| ProtocolTheorems.JoinsOnlyCommitted | src/stateMachineImpl.cpp:234-242 | whoever waits to join waits for a thread that has committed and can finish without a lock or a delegate; a joinable thread is never overwritten |
| ProtocolRoles.AsyncCallersOnlyLaunch | src/stateMachineImpl.cpp:232-242 | the caller of an asynchronous machine never runs a delegate or commits |
| ProtocolRoles.SyncNeverLaunches | src/stateMachineImpl.cpp:243-246 | a synchronous machine never launches, joins or stores a thread |
| ProtocolRoles.SyncCallersTransit | src/stateMachineImpl.cpp:243-246 | its delegates run on the threads that call it |
| ProtocolRoles.DeinitializeWaits | src/stateMachineImpl.cpp:126-134 | once deinitialize has passed its wait no transition thread is at work, and there is never more than one |
| ProtocolRoles.JoiningHappens | src/stateMachineImpl.cpp:236-240 | a run in which a second request waits for a transition thread that has committed and not yet ended |
| ProtocolTheorems.CommitContinues | src/stateMachineImpl.cpp:283-313 | a commit extends a legal story of states |
| ProtocolTheorems.PushedIsStory | src/stateMachineImpl.cpp:184-229 | what the getState PV is given starts with off, alternates resting and intermediate states, has a table row completed by success, roll-back or fault in every triple, and ends with the local state |
| ProtocolTheorems.DelegatesNeverOverlap | src/stateMachineImpl.cpp:273-314 | delegates are entered and left one after the other, each as its committed row and outcome say; a delegate is running exactly when the log is one entry ahead |
| ProtocolTheorems.TransitionsBalance | src/stateMachineImpl.cpp:184-313 | starts are stops plus one while running, in every run with failures accounted for; likewise for switching on and off and for entering and leaving fault |
| ProtocolProgress.NeverStuck | src/stateMachineImpl.cpp:161-265 | while a call or a transition is unfinished, one of the threads of the machine can take a step, unless another machine holds the state mutex |
| ProtocolProgress.WaitsOnlyFor | src/stateMachineImpl.cpp:161-314 | a thread can go on if and only if it is not waiting for the state mutex to claim or commit, for the launch mutex to launch or close, or for the end of the thread to join; delegates wait for nothing |
| ProtocolProgress.RunsEnd | src/stateMachineImpl.cpp:161-265 | however a run is scheduled, its threads take at most eleven steps for each call |
| ProtocolProgress.EndsCommitted | src/stateMachineImpl.cpp:273-314 | when no thread can take another step, every claimed transition has been committed, unless an exception escaped |
| ProtocolOutcomes.FaultShownIff | src/stateMachineImpl.cpp:283-313 | a committed transition shows fault if and only if its delegate failed with a runtime error, or rolled a recovery back |
| ProtocolOutcomes.LostIffEscaped | src/stateMachineImpl.cpp:288-313 | the machine keeps a claimed transition that nobody will commit if and only if some delegate was left by an exception that is no runtime error |
| ProtocolOutcomes.ExceptionsShowFaultIff | include/nds3/stateMachine.h:125-129 | when all threads have finished, every exception but roll-back has been turned into fault, as documented, if and only if none was other than a runtime error |
| ProtocolOutcomes.EscapeHappens | src/stateMachineImpl.cpp:273-314 | a run in which an exception leaves the machine initializing |
| ProtocolTheorems.EscapeIsForever | src/stateMachineImpl.cpp:288-313 | after an exception that is no runtime error the machine keeps its intermediate state for ever and records nothing any more |
| GlobalStates.GetGlobalState | src/nodeImpl.cpp:112-120 | the state of a node is shown by some machine in its subtree, and no machine there has a higher code, or the same code and later seconds, or the same code and seconds and later nanoseconds, whatever the uninitialized timestamp; unknown if there is none |
| GlobalStates.GetGlobalStateOf | src/stateMachineImpl.cpp:333-355 | the same through a state machine, which goes up to its node; the recursion terminates |
| GlobalStates.GetChildrenState | src/nodeImpl.cpp:122-148 | the highest below the children without the own machine |
| GlobalStates.MaximumIsUnique | src/nodeImpl.cpp:135-139 | the comparison leaves one maximum |
| GlobalStates.BetterOfTwo | src/stateMachineImpl.cpp:345-354 | taking in one more child keeps the maximum of all seen so far |
| GlobalStates.OrderDoesNotMatter | src/nodeImpl.cpp:122-148 | two nodes with the same children in another order have the same global state, and the same time unless there is no machine |
| GlobalStates.ParentsAreNotBelow | src/nodeImpl.cpp:122-148 | a node never shows less than a node under it, with or without machines |
| GlobalStates.LatestIsShown | src/nodeImpl.cpp:135-144 | an instance: of two machines that are on, the one that has been on since the later time is shown |
| PVs.OutputPV.Write | src/pvVariableOutImpl.cpp:45-51 | the pair is stored |
| PVs.InputPV.SetDecimation | src/pvBaseInImpl.cpp:159-163 | factor and countdown are set together |
| PVs.InputPV.SubscribeReceiver | src/pvBaseInImpl.cpp:124-128 | exactly the receiver joins the subscribers |
| PVs.InputPV.UnsubscribeReceiver | src/pvBaseInImpl.cpp:130-139 | exactly the receiver leaves them |
| PVs.InputPV.ReplicateTo | src/pvBaseInImpl.cpp:141-145 | exactly the destination joins the destinations |
| PVs.InputPV.StopReplicationTo | src/pvBaseInImpl.cpp:147-156 | exactly the destination leaves them |
| PVs.InputPV.PushToPort | src/pvBaseInImpl.cpp:98-103 | one step of the wrapping countdown |
| PVs.InputPV.Push | src/pvBaseInImpl.cpp:93-122 | on every acyclic network the recursion terminates, no lock is taken twice, the held locks are those on the path both before and after, every input steps as often as there are paths to it, and every output is written as often as there are paths to the inputs it subscribes to |
| PVs.NotOnThePath | src/pvBaseInImpl.cpp:105-121 | the lock about to be taken is not one of those held by the calls before |
| PVs.ForwardedStreams | src/pvBaseInImpl.cpp:98-121 | counting a push along all paths is stepping the input and then pushing into each destination |
| PVs.ForwardedCells | src/pvBaseInImpl.cpp:107-121 | the same for what the outputs are written |
| Graphs.RelocksIffCycle | src/pvBaseInImpl.cpp:107-121 | forwarding asks for a lock it holds if and only if a cycle can be reached |
| Graphs.FlowByLastStep | src/pvBaseInImpl.cpp:116-121 | paths counted by the first step are paths counted by the last |
| Graphs.FlowEquation | src/pvBaseInImpl.cpp:116-121 | over any sequence of pushes a node receives its direct pushes and all that its sources receive |
| Graphs.ArrivalsAreReceived | src/pvBaseInImpl.cpp:109-114 | what arrives at a set of nodes is the sum of what they receive |
| PushTheorems.PushReachesSubscribers | src/pvBaseInImpl.cpp:105-121 | after a push exactly the outputs subscribed to an input reachable by replication store that timestamp and value; every other is unchanged |
| PushTheorems.PushReachesInputs | src/pvBaseInImpl.cpp:93-122 | an input counts a push once per path, so exactly when it can be reached |
| PushTheorems.InputFlow | src/pvBaseInImpl.cpp:93-122 | received is direct pushes plus all received by the sources, and the port has been handed the quotient of that and the period |
| PushTheorems.OutputFlow | src/pvBaseInImpl.cpp:107-114 | writes to an output are the sum of what the inputs it subscribes to received |
| Decimation.CountdownIsDivision | src/pvBaseInImpl.cpp:99-103 | over any interleaving of settings and pushes exactly the pushes whose number since the last setting is a multiple of the factor get through, 0 counting as 2^32 |
| Decimation.RunDelivers | src/pvBaseInImpl.cpp:99-103 | without a setting in between these are every factor-th of the samples |
| Decimation.ZeroFactor | include/nds3/pvBaseIn.h:98-101 | a factor of 0 lets nothing through, as documented, if and only if fewer than 2^32 samples are pushed |
| DataAcquisitions.DataAcquisition.OnStart | src/dataAcquisitionImpl.cpp:190-193 | the start time is stored and the countdown set anew from the decimation PV |
| DataAcquisitions.DataAcquisition.ExecuteTransition | src/dataAcquisitionImpl.cpp:91-98 | only the start transition touches the data PV, whatever becomes of the delegate |
| DataAcquisitions.PeriodOfSetting | src/dataAcquisitionImpl.cpp:193 | a setting that is not positive acts as a period of 2^32 plus the setting |
| DataAcquisitions.EachRunCountsFromItsStart | src/dataAcquisitionImpl.cpp:184-195 | whatever was pushed and set before, an acquisition run delivers every so-many-th of its own samples |
| Registry.NdsFactory.RegisterInput | src/ndsFactoryImpl.cpp:182-200 | a free name is filed, with the connections that the input has from an earlier registration; a taken one is refused without change |
| Registry.NdsFactory.RegisterOutput | src/ndsFactoryImpl.cpp:202-220 | the same for outputs |
| Registry.NdsFactory.DeregisterInput | src/ndsFactoryImpl.cpp:222-234 | the name is free again and nobody forwards to the input; whoever was filed keeps its own connections |
| Registry.NdsFactory.DeregisterOutput | src/ndsFactoryImpl.cpp:236-248 | the name is free again and nobody has the output as subscriber |
| Registry.NdsFactory.SubscribeTo | src/ndsFactoryImpl.cpp:250-278 | one subscription is added, or one of the errors and no change |
| Registry.NdsFactory.SubscribeByName | src/ndsFactoryImpl.cpp:280-293 | the same with the output looked up |
| Registry.NdsFactory.Unsubscribe | src/ndsFactoryImpl.cpp:295-305 | the output is taken from every registered input and nothing else changes |
| Registry.NdsFactory.UnsubscribeByName | src/ndsFactoryImpl.cpp:307-319 | the same with the output looked up |
| Registry.NdsFactory.ReplicateByName | src/ndsFactoryImpl.cpp:321-333 | one edge is added from the named source, or an error and no change |
| Registry.NdsFactory.ReplicateTo | src/ndsFactoryImpl.cpp:335-363 | the same for a given destination |
| Registry.NdsFactory.StopReplicationTo | src/ndsFactoryImpl.cpp:365-375 | the destination is taken from every registered input |
| Registry.NdsFactory.StopReplicationByName | src/ndsFactoryImpl.cpp:377-390 | the same with the destination looked up |
| RegistryTheorems.KeepsIff | src/ndsFactoryImpl.cpp:182-390 | an operation, successful or not, keeps registered inputs connected to registered PVs only if and only if the connections that a registered input brings back are to registered PVs, and a deregistered PV is the one that is filed or nobody is connected to that one |
| RegistryTheorems.SoundThroughoutIff | src/ndsFactoryImpl.cpp:182-390 | this is so at every point of a run if and only if every operation meets that condition |
| RegistryOperations.Execute | src/ndsFactoryImpl.cpp:182-390 | the operations that runs are made of are what the methods of the registry do |
| RegistryTheorems.CarefulIsLegal | src/ndsFactoryImpl.cpp:182-248 | it is met by callers that register an input once and deregister the PV that is filed |
| RegistryLaws.SubscribeAdds | src/ndsFactoryImpl.cpp:250-278 | subscribing succeeds if and only if the output is the one filed and the input exists, with the error in each other case; exactly one subscriber is added and all others stay |
| RegistryLaws.ReplicateAdds | src/ndsFactoryImpl.cpp:335-363 | the same for destinations |
| RegistryLaws.AddInputFiles | src/ndsFactoryImpl.cpp:182-200 | an input is filed under its name if nobody has it; nothing else changes |
| RegistryLaws.AddOutputFiles | src/ndsFactoryImpl.cpp:202-220 | the same for outputs |
| RegistryLaws.DropInputRemoves | src/ndsFactoryImpl.cpp:222-234 | a deregistered input is no destination of any other, its name is free, and what was filed keeps its connections aside |
| RegistryLaws.DropOutputRemoves | src/ndsFactoryImpl.cpp:236-248 | a deregistered output is no subscriber of any input and its name is free |
| RegistryLaws.CutsRemove | src/ndsFactoryImpl.cpp:295-305 | taking a PV from all inputs leaves every other connection |
| RegistryTheorems.PushStaysRegistered | src/ndsFactoryImpl.cpp:182-390 | after any run of such operations a push from a registered input comes to registered inputs and outputs only |
| RegistryTheorems.DropKeepsClosedIff | src/ndsFactoryImpl.cpp:222-234 | deregistering an input erases by name: it is safe if and only if the right PV, or none, is filed there, or nobody else forwards to the one that is |
| RegistryTheorems.DropOutputKeepsClosedIff | src/ndsFactoryImpl.cpp:236-248 | the same for outputs and subscriptions |
| RegistryFailures.RegisteredAgain | src/ndsFactoryImpl.cpp:222-234 | a run in which an input is registered again and still has a subscriber that was deregistered in between |
| RegistryFailures.AnotherOutput | src/ndsFactoryImpl.cpp:240 | a run in which an output is deregistered through another with its name, and stays subscribed |
| RegistryFailures.AnotherInput | src/ndsFactoryImpl.cpp:226 | the same with an input that another forwards to |
| RegistryTheorems.PushRegistered | src/pvBaseInImpl.cpp:93-122 | a push into a registered input reads and changes registered PVs only and leaves the registry as it was |
| Trees.Initialize | src/nodeImpl.cpp:77-80 | initializing a tree registers its PVs in order and stops at the first refusal |
| Trees.Deinitialize | src/nodeImpl.cpp:94-101 | deinitializing it deregisters them all |
| TreeTheorems.DropAllCuts | src/ndsFactoryImpl.cpp:222-248 | deregistering any PVs, in any order, takes out exactly them and the connections from and to them |
| TreeTheorems.RegistersIff | src/ndsFactoryImpl.cpp:182-220 | a registration succeeds if and only if all names are free and different |
| TreeTheorems.FailureKeepsPrefix | src/nodeImpl.cpp:77-80 | a registration that fails has registered the PVs before the first whose name is taken, and nothing after |
| TreeTheorems.DeinitializeUndoes | src/nodeImpl.cpp:69-101 | deinitializing an initialized tree restores the registered PVs, whatever was connected in between, and takes from the survivors exactly their connections into the tree |
| TreeTheorems.InitializeThenDeinitialize | src/nodeImpl.cpp:69-101 | with nothing connected in between all registered PVs and their connections are as before |
| Names.ExternalNameSplitsAtPort | src/nodeImpl.cpp:171-219 | below a port the full external name is the external name of the nearest port followed by the external name from the port |
| NameForms.FullExternalNameIs | src/nodeImpl.cpp:171-219 | the full external name is, from the root down, the separator of each depth and the name that the rules give, the root always and others only if they have a name |
| NameForms.FullExternalNameFromPortIs | src/portImpl.cpp:39-42 | the external name from the port is the same for the elements after the last port |
| NameForms.FullNameFromPortIs | src/baseImpl.cpp:119-133 | the internal name from the port joins the names after the last port, from the first that is not empty |
| NameForms.NameOfChild | src/nodeImpl.cpp:173-218 | an instance: a PV right below a root |
| Names.NameSplitsAtPort | src/baseImpl.cpp:73-82 | the internal name splits there, with a dash, if and only if the element is a child of the port or the topmost element under the port has a name |
| Names.FullNameJoinsPath | src/baseImpl.cpp:73-82 | the recursion up the parents joins the names from the root with dashes |
| Names.JoinInjective | src/baseImpl.cpp:73-82 | without dashes in the components the full name determines the path |
| Names.DashesCollide | src/baseImpl.cpp:73-82 | with a dash in any component it does not: the component can be cut in two there |
| Names.FullNamesAgree | src/baseImpl.cpp:73-82 | two elements of dash-free trees share a full name if and only if they share their path |
| TreeNames.AddChildKeeps | src/nodeImpl.cpp:29-38 | a child with a new name joins, in the order of names; one with a used name is refused |
| TreeNames.NamesDiffer | src/nodeImpl.cpp:69-81 | the PVs of a dash-free tree have different full names |
| TreeNames.PathsInOrder | src/nodeImpl.cpp:77-80 | the leaves come in the order of the names along their paths |
| TreeNames.FreshTreeRegisters | src/ndsFactoryImpl.cpp:182-220 | a dash-free tree under an unused root name never finds a name taken |
| TreeNames.DevicesRegister | src/ndsFactoryImpl.cpp:182-220 | so all the devices of a system register, one after the other |
| IniParser.FindFirstUnescapedChar | src/iniFileParserImpl.cpp:158-171 | the loop finds the first place with the character and no backslash before it |
| IniParser.IniFileParser.Parse | src/iniFileParserImpl.cpp:22-57 | the loop over the text leaves the sections and the error that reading the lines one by one defines |
| IniLines.TrimCuts | src/iniFileParserImpl.cpp:115-138 | trimming takes blanks from both ends, and all of them |
| IniKinds.SpacesAre | src/iniFileParserImpl.cpp:19 | the blanks are the space, the tab, the carriage return and the newline |
| IniLines.HeaderReadsBack | src/iniFileParserImpl.cpp:140-156 | a written section header reads back if and only if its name is non-empty, trimmed and without an unescaped bracket |
| IniLines.EntryReadsBack | src/iniFileParserImpl.cpp:173-214 | a written entry reads back if and only if its key and value are good and it does not look like a section header |
| IniLines.SectionIsGood | src/iniFileParserImpl.cpp:140-156 | every section name that is read is a good one |
| IniLines.EntryIsUntaken | src/iniFileParserImpl.cpp:173-214 | every entry that is read does not look like a section header |
| IniLines.CommentIsSkippedIff | src/iniFileParserImpl.cpp:177-186 | a comment line is skipped if and only if it holds no unescaped equal sign |
| IniLines.CommentReads | src/iniFileParserImpl.cpp:188-213 | otherwise it ends the program if and only if a quote is left open behind the sign, and is an entry if not |
| IniLines.EntryInstance | src/iniFileParserImpl.cpp:188-213 | a comment that is read as an entry |
| IniLines.AbortInstance | src/iniFileParserImpl.cpp:199-203 | a comment that ends the program |
| IniKinds.SectionIs | src/iniFileParserImpl.cpp:140-156 | a line that begins with a bracket names the section up to the next unescaped bracket, and no other line names one |
| IniKinds.LineWithoutSign | src/iniFileParserImpl.cpp:177-186 | a line that is no header and has no unescaped equal sign is skipped if and only if it is blank or begins with # or ;, and malformed otherwise |
| IniKinds.LineWithSign | src/iniFileParserImpl.cpp:188-213 | one with such a sign ends the program if and only if only blanks stand before it or a quote is left open behind it, and is an entry otherwise |
| IniKinds.ValueIs | src/iniFileParserImpl.cpp:194-213 | the value is nothing, what stands between the quotes, or the first word |
| IniKinds.LastLine | src/iniFileParserImpl.cpp:28-31 | a last line need not be ended |
| IniKinds.EmptyLine | src/iniFileParserImpl.cpp:180-184 | an instance: an empty line is skipped |
| IniKinds.LookupCases | src/iniFileParserImpl.cpp:64-85 | the value, the default, or a missing section; an empty key is never looked up |
| IniLayout.HeaderLayout | src/iniFileParserImpl.cpp:140-156 | blanks around a section name and anything behind the bracket do not matter |
| IniLayout.EntryLayout | src/iniFileParserImpl.cpp:173-214 | blanks around key and value do not matter, nor does anything behind a quoted value, or behind the blank that ends another |
| IniTheorems.ParseUndoesPrint | src/iniFileParserImpl.cpp:22-57 | parsing the printed form of any good items yields exactly the sections they describe |
| IniTheorems.MapPrints | src/iniFileParserImpl.cpp:22-57 | every map of non-empty sections with good names, keys and values has a printed form |
| IniTheorems.ParsedIffPrintable | src/iniFileParserImpl.cpp:22-214 | the maps that some text parses to are exactly those |
| IniTheorems.Rewritten | src/iniFileParserImpl.cpp:22-57 | any text that loads can be rewritten in the printed form and describes the same |
| IniTheorems.LastLineWins | src/iniFileParserImpl.cpp:35-48 | a key is in a section if and only if a line under its header sets it, and the last such line gives the value |
| IniTheorems.FirstFaultDecides | src/iniFileParserImpl.cpp:50-55 | reading fails at the first faulty line, with its number |
| FolderList.SeparateFoldersList | src/ndsFactoryImpl.cpp:445-495 | the loop returns the split list, and nothing for a null pointer |
| FolderList.SplitUndoesJoin | src/ndsFactoryImpl.cpp:463-492 | splitting undoes joining with any gaps, quotes kept |
| FolderList.EveryTextIsWoven | src/ndsFactoryImpl.cpp:463-492 | every text is the join of what it is split into |
| FolderList.SplitIff | src/ndsFactoryImpl.cpp:463-492 | the result is the one list of folders that the text can have been joined from |
| FolderList.QuotesPair | src/ndsFactoryImpl.cpp:466-479 | a quote stays open up to the next of its kind |
| FolderList.Characters | src/ndsFactoryImpl.cpp:456-457 | the three separators and the two quotes |
| FolderList.SplitInstance | src/ndsFactoryImpl.cpp:456-494 | an instance with every separator and a quoted one |
| Devices.FactoryBase.Reserve | src/factoryBaseImpl.cpp:85-95 | a name is reserved if and only if it was free |
| Devices.FactoryBase.HoldNode | src/factoryBaseImpl.cpp:189-195 | the node is appended to those held with the device |
| Devices.FactoryBase.DestroyDevice | src/factoryBaseImpl.cpp:120-159 | all nodes held with the device are deinitialized in order, the first device with the address is deallocated once, and both are forgotten; for address 0 and an unfinished creation the call of the missing deallocation function throws |
| DeviceInvariant.Keeps | src/factoryBaseImpl.cpp:83-195 | every step of any number of creators and destroyers keeps names, addresses, locks and nodes in order |
| DeviceTheorems.OneCreatorPerName | src/factoryBaseImpl.cpp:85-95 | at most one creator per name is past the reservation, which stands |
| DeviceTheorems.FailureReleasesItsOwn | src/factoryBaseImpl.cpp:102-107 | a failed creation takes back its own reservation and nothing else |
| DeviceTheorems.PublicationFiles | src/factoryBaseImpl.cpp:109-113 | a creator files its device under the name it reserved, and changes no other |
| DeviceTheorems.HeldInOrder | src/factoryBaseImpl.cpp:189-195 | nodes are held in the order in which they are initialized, and deinitialized in that order |
| DeviceTheorems.LocksExclude | src/factoryBaseImpl.cpp:85-159 | while a device is destroyed nobody else changes what is filed or held; while a root node is initialized no other is initialized or deinitialized |
| DeviceTheorems.NamedDeviceIsThereIffFinished | src/factoryBaseImpl.cpp:161-177 | a name has an address if and only if nobody is creating it |
| DeviceTheorems.DevicesBalance | src/factoryBaseImpl.cpp:137-147 | complete devices are deallocated ones plus live ones, and none is deallocated twice |
| DeviceTheorems.AtRest | src/factoryBaseImpl.cpp:120-195 | when all calls have returned, every name has its device and exactly the held nodes are initialized |
| DeviceFailures.StrandsIff | src/factoryBaseImpl.cpp:102-107 | a step leaves a held node without a device if and only if a driver throws after it has initialized a root node |
| DeviceFailures.OwnedAtRest | src/factoryBaseImpl.cpp:83-195 | no node is ever without a device if and only if that never happens; when all calls have returned this means that every initialized node is held for a device with a name |
| DeviceFailures.NodeStranded | src/factoryBaseImpl.cpp:97-107 | a run that ends with an initialized node and no device |
| DeviceFailures.ClashesIff | src/factoryBaseImpl.cpp:120-135 | a step leads to two calls that block each other if and only if it starts the destruction of a device with nodes while a root node is being initialized, or the other way round |
| DeviceFailures.SafeIffNoClash | src/factoryBaseImpl.cpp:120-135 | a run ends blocked if and only if it has such a step |
| DeviceFailures.StuckIffEmbraced | src/factoryBaseImpl.cpp:120-135 | while a lock is held some holder can go on, unless two calls have so blocked each other |
| DeviceFailures.EmbraceIsForever | src/nodeImpl.cpp:55-67 | two calls that block each other never end |
| DeviceFailures.EmbraceHappens | src/nodeImpl.cpp:55-67 | a run of creating one device while destroying another leads there |
| NamingRules.SeparatorIsInherited | src/factoryBaseImpl.cpp:197-214 | with a separator for level 0 or 1, every level takes the nearest one up the tree, or the default of level 0 |
| NamingRules.SeparatorIsOwn | src/factoryBaseImpl.cpp:215 | without, a level has its own or its default |
| NamingRules.SeparatorFails | src/factoryBaseImpl.cpp:199-202 | without loaded or selected rules a level has its default; only a missing section is an error |
| NamingRules.DigitsAreDecimal | src/factoryBaseImpl.cpp:208-209 | the digits of a key are the level in decimal, without leading zeros |
| NamingRules.KeyInstances | src/factoryBaseImpl.cpp:208-209 | the keys of levels 0, 1 and 12 |
| NamingRules.FirstRuleApplies | src/factoryBaseImpl.cpp:304-322 | the first defined rule is the one that applies; naming fails if and only if the selected section is missing |

## Left out

- Types of PV values, conversions between them, descriptions, units, scan types, clocks: values and
  timestamps are abstract.
- Ports deliver into a sequence; the control system interfaces, the Tango layer, log streams, dynamic loading
  and the handle classes are not modelled.
- `canChange` beyond `isAllowedTransition`; the table of `setState` is the one that the machine follows.
- `PVVariableIn::setValue` writes its direct subscribers only (`src/pvVariableInImpl.cpp:57-65`), although
  `include/nds3/pvBaseIn.h:115-117` speaks of replication.
- Action and delegate PVs, and commands, which call the modelled operations.
- Trees.Initialize: the tree is a value with the PV objects at its leaves, and a PV that was never registered
  has no connections, since only the registry connects it. `setParent`, `registerPV` of the port and
  `registrationTerminated` are not modelled, nor is the push of off at the end of a state machine's
  initialization, which changes no registration.
- StateMachines.StateMachine.SetState: the user's functions are given by how they end; the interleaved form
  is in `TransitionProtocol`.
- GlobalStates.GetGlobalState: one moment of the tree; only the entry through a state machine holds the
  shared mutex for the whole recursion.
- PVs.InputPV.Push: a lock is a flag that must be free to be taken, and several pushing threads are not modelled.
- Devices.FactoryBase.DestroyDevice: in the interleaved protocol address 0 is not destroyed, nor a device that is
  being created. `preDelete` is not modelled. An initialization that throws is not an event.
- TreeNames.AddChildKeeps: a state machine among the children also becomes the node's own machine and adds
  commands to the node (`src/nodeImpl.cpp:40-52`); the first is in `GlobalState`, commands are left out.
- IniParser.IniFileParser.Parse: `throw;` without an exception is the status Aborted. `getString`,
  `keyExists` and `getSections` are look-ups in the sections; only the first is modelled.
- NamingRules.FirstRuleApplies: `snprintf`, its buffer and the change of case are not modelled.
