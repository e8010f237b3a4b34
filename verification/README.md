# Formance Ledger: a verified model of its core logic

This project models, in Dafny 4.11, the parts of the ledger's Go code where a mistake
would lose logs, money or meaning, and proves what those parts are for. `dafny verify
dfyconfig.toml` checks all of it.

**Replication** (`internal/replication`). `pipeline_protocol.dfy` is the protocol between
the handler's loop, the goroutine that calls the exporter, the goroutine that stores the
cursor, the storage, the exporter and the writer of logs, as a state machine in which every
step may fail, crash or interleave with any other, and any number of runs of one pipeline
may coexist. `pipeline_safety.dfy` proves at-least-once delivery and what one run delivers,
over every execution. `pipeline_handler.dfy` is the loop itself, as imperative code that
refines the state machine, and whose steps are determined by what it observes.
`driver_facade.dfy` does the same as the protocol for the asynchronous start of a driver, and
`manager.dfy` models the maps of running pipelines and shared drivers, with every operation
that changes them.

**Volumes** (`internal/transaction.go`, `posting.go`, `volumes.go`). `postings.dfy` defines
the simple form (one posting after the other) with conservation and reversal;
`transactions.dfy` proves that grouping, summing and sorting gives the same volumes;
`volumes.dfy` is the mutable volumes map; `volume_history.dfy` proves conservation and undo
over whole histories.

**Money** (`internal/machine`). `allotment.dfy` splits an amount by rational portions,
`funding.dfy` draws amounts from a list of parts, and the two meet in a theorem about
splitting a funding. `value_text.dfy` is the text of values, read and written.

**Query templates** (`internal/queries`). `substitution.dfy` is the hand-written parser and
the substitution; `template_grammar.dfy` gives the grammar the parser accepts and the
meaning of a template; `filter_templates.dfy` is the static check and the later resolution;
`filter_soundness.dfy` proves that the two agree, `filter_completeness.dfy` that the check
refuses nothing that is safe, and `filter_access.dfy` what field names and variables stand for.

**Chart of accounts and log chain** (`internal/chart.go`, `log.go`). `chart.dfy` reads and
writes charts, `chart_roundtrip.dfy` proves that reading undoes writing, `chart_paths.dfy` says
which documents are charts, path by path, `chart_lookup.dfy` characterizes the lookup of an
account, `log_chain.dfy` the chain of hashes.

Methods that update state carry a specification function in their `ensures`; the properties
are lemmas about those functions. Automatic induction is switched off on every lemma, so
that each proof is the one written down.

Where the code does not do what one would expect, the model follows the code, states
exactly when the expectation holds, and gives an input for which it does not:

- A reset clears the stored cursor so that every log is delivered again. With all runs
  stopped, every log at or below the stored cursor has been delivered since the reset,
  whatever follows, if and only if no cursor was being stored at the reset, neither by a
  goroutine, which nobody joins, nor by a write that a crashed process left in the database
  (`PipelineSafety.ResetRedeliversIffQuiet`; `PipelineSafety.StoreInProgressAtReset`).
- After `UpdateExporter` the exporter's pipelines run on a new driver if and only if no
  driver was left over for that exporter by an earlier `OpenLedger` failure
  (`Managers.Manager.UpdateExporter`; `Managers.LeftOverDriver`).
- The parts of an allotment add up to every amount if and only if its shares sum to one
  (`Allotments.ConservesIffSumIsOne`; `Allotments.HalfOfTen`).
- `Concat` of two fundings that start the same array gives what it gives for separate arrays
  if and only if the part that grows is not appended a second time with another amount
  (`Fundings.SharedConcatIff`; `Fundings.SharedConcatDiffers`).
- The normal form of a template is a fixed point if and only if the template is ASCII
  (`TemplateGrammar.NormalForm`; `TemplateGrammar.OneByteGrows`): `string(b)` re-encodes the
  other bytes.
- A valid filter template resolves if and only if every variable it refers to is bound to a
  value that is neither nil nor a big integer (`FilterSoundness.ResolvesIff`;
  `FilterSoundness.NilDoesNotResolve`).
- What was read from a text is written, and read back, if and only if it is not the nil
  number that the text `null` is read as (`ValueTexts.ReadWriteRead`;
  `ValueTexts.NullIsNotWritten`): asking that number for its type panics.

## Model

| member | source | states |
|---|---|---|
| PipelineSafety.AtLeastOnce | internal/replication/pipeline.go:66-164 | over every execution (appends, failed fetches, failed accepts, failed stores, stops, crashes, writes that commit after a crash, restarts), every log at or below the stored cursor, or the cursor of a live run, has been in an Accept call that returned nil |
| PipelineSafety.RunDeliversInterval | internal/replication/pipeline.go:111-148 | the batches one run delivered concatenate to exactly the logs in (start, cursor], ascending, without gap or duplicate; at most the one page directly after the cursor is accepted and not yet noted |
| PipelineSafety.StepKeepsInv | internal/replication/pipeline.go:66-164 | every step of every goroutine keeps the delivery invariant |
| PipelineSafety.ExecutionKeepsInv | internal/replication/manager.go:134-153 | so does every sequence of steps, and the history of exports only grows |
| PipelineSafety.FetchKeepsInv | internal/replication/pipeline.go:79-109 | a page fetched above the cursor is the next page for the run |
| PipelineSafety.AcceptKeepsInv | internal/replication/pipeline.go:116-124 | an Accept call that returns adds its batch to the export history only on success |
| PipelineSafety.ReceiveKeepsInv | internal/replication/pipeline.go:125-151 | advancing the cursor to the last log of an accepted page passes exactly that page; a failure leaves the cursor |
| PipelineSafety.CrashKeepsInv | internal/replication/manager.go:137-144 | a crash ends every run and leaves the writes in progress pending |
| PipelineSafety.LateStoreKeepsInv | internal/replication/manager.go:137-144 | such a write may commit at any later time, and stores a cursor whose logs were exported |
| PipelineSafety.BetweenCursors | internal/replication/pipeline.go:81-90 | the logs between two cursors are one contiguous stretch |
| PipelineSafety.StaleStoreLands | internal/replication/manager.go:137-144 | a store in progress at a reset lands after it and moves the stored cursor past logs nobody exported again |
| PipelineSafety.LateStoreLands | internal/replication/manager.go:137-144 | so does a write that a crashed process had sent |
| PipelineSafety.ResetRedeliversIffQuiet | internal/replication/manager.go:448-477 | with all runs stopped, every log at or below the stored cursor has been exported since the reset, in every continuation, if and only if no store is in progress |
| PipelineSafety.StoreInProgressAtReset | internal/replication/manager.go:137-144 | eight steps from the initial state to a stopped run whose cursor is being stored: a reset there does not redeliver |
| PipelineHandlers.PipelineHandler.Run | internal/replication/pipeline.go:66-164 | whatever it does is an execution of the protocol, and its own steps are exactly its responses to what it observed: the page it was given is pushed whole, the end of every Accept is noted, a failure is tried again; it asks for its page size, observes something in every turn until a stop ends it, and reports a stop exactly when the run has stopped |
| PipelineHandlers.PipelineHandler.Turn | internal/replication/pipeline.go:75-163 | one turn of the outer loop answers what it observes, and ends polling, stopped, or with nothing left of its budget |
| PipelineHandlers.PipelineHandler.Poll | internal/replication/pipeline.go:75-109 | a stop, or the answer to one listing of the logs above the cursor: what was listed is what is now being pushed |
| PipelineHandlers.PipelineHandler.Ask | internal/replication/pipeline.go:81-109 | after an error it waits, and may be stopped; after a page it pushes it; after an empty one it polls again |
| PipelineHandlers.PipelineHandler.Push | internal/replication/pipeline.go:111-150 | returns with the page accepted and the cursor on its last log, or stopped, or after its last turn still trying with the cursor unchanged; it looks for the result of Accept in every turn and ends with the first success |
| PipelineHandlers.PipelineHandler.PushOnce | internal/replication/pipeline.go:124-141 | a returned call is noted in the same turn; a success moves the cursor, a failure is retried or stopped |
| PipelineHandlers.PipelineHandler.PublishCursor | internal/replication/pipeline.go:150-154 | offers the cursor to the storing goroutine until it is taken, and then polls again |
| PipelineHandlers.Environment.Interfere | internal/replication/manager.go:137-153 | the others' steps leave the run's start, cursor and phase alone, may complete its Accept call, and are none of the run's own |
| PipelineHandlers.Environment.ListLogs | internal/replication/pipeline.go:81-92 | an error, or all logs above the cursor up to the page size, ascending |
| PipelineHandlers.RunIsSafe | internal/replication/pipeline.go:66-164 | the delivery guarantees at any moment of a Run |
| DriverFacades.StepKeepsInv | internal/replication/driver_facade.go:29-87 | every interleaving step of starter, Stop and Accept calls keeps the life-cycle invariant |
| DriverFacades.ExecutionKeepsInv | internal/replication/driver_facade.go:29-87 | so does every execution |
| DriverFacades.DriverUsedOnlyAfterStart | internal/replication/driver_facade.go:29-53 | the driver starts successfully at most once, is neither fed nor stopped before that, and no channel is closed twice |
| DriverFacades.FailedStartIsFinal | internal/replication/driver_facade.go:34-52 | once the starting goroutine is gone without success, no success follows |
| DriverFacades.StopIsConclusive | internal/replication/driver_facade.go:55-78 | a Stop that returns without a cancelled context has stopped the started driver, or the driver has not started and never will |
| DriverFacades.ForwardedIffReady | internal/replication/driver_facade.go:80-87 | over every execution, an Accept call is about to reach the driver, or has reached it, if and only if the facade was ready when it was called |
| DriverFacades.RetriesUntilStarted | internal/replication/driver_facade.go:34-53 | while nobody calls Stop and no start reports a cancelled context, the starting goroutine leaves with success only |
| DriverFacades.StopCanReturn | internal/replication/driver_facade.go:55-78 | a Stop called at any moment can return: cancelling the start lets the starting goroutine end, and the Stop after it |
| DriverFacades.WaitsEnd | internal/replication/driver_facade.go:39-50 | a failed start is tried again, and a waiting Stop returns when its context is cancelled |
| DriverFacades.StopComesToEnd | internal/replication/driver_facade.go:55-78 | once the starting goroutine is gone, every Stop comes to its end by its own steps, and has stopped the driver if and only if it was started |
| Managers.Manager.InitExporter | internal/replication/manager.go:51-69 | reuses the stored driver, or stores one never made before under the exporter id, or fails and changes nothing |
| Managers.Manager.StartPipeline | internal/replication/manager.go:96-156 | which outcome gives which error, and the exact new maps: a failing OpenLedger leaves a driver without a pipeline, and nothing else does |
| Managers.Manager.Shutdown | internal/replication/pipeline.go:166-181 | nil only once the loop has ended; it does end, and nil is returned, unless the context is cancelled or the loop was stuck; a stuck loop stays stuck |
| Managers.Manager.StopDriver | internal/replication/manager.go:71-81 | removes exactly the entry that holds the driver |
| Managers.Manager.StopExporterIfNeeded | internal/replication/manager.go:193-205 | removes the driver if and only if no registered pipeline uses its exporter id |
| Managers.Manager.StopPipeline | internal/replication/manager.go:158-173 | the exact new maps; not found exactly for an unregistered id; succeeds if the loop is not stuck and the context is not cancelled; a failure changes no map; no driver becomes unused, and no other loop is touched |
| Managers.Manager.StartAll | internal/replication/manager.go:217-228 | starts every enabled pipeline that does not run, with the listed row, up to the first failure, and leaves those that run alone |
| Managers.Manager.StopDisabled | internal/replication/manager.go:230-243 | stops every pipeline that is not enabled; a failing stop is skipped, and none fails if all of them can stop |
| Managers.Manager.SynchronizePipelines | internal/replication/manager.go:207-245 | on success, if no shutdown failed, exactly the enabled pipelines run; those running before were not restarted and the others run with the listed row; nothing changes when the running ones are the enabled ones; a storage error exactly if the listing failed; it fails only if a call it makes fails |
| Managers.Manager.StopExporter | internal/replication/manager.go:345-356 | on success no pipeline uses the exporter; succeeds if its pipelines can stop; no other pipeline was touched |
| Managers.Manager.UpdateExporter | internal/replication/manager.go:377-405 | on success the configuration was valid, the row stored and the pipelines listed, and the exporter's pipelines run on drivers made since, if and only if the exporter had no driver without a pipeline; succeeds if every call does and its pipelines can stop; what runs ran before or carries a listed row; an invalid configuration changes nothing and any other failure stops pipelines of this exporter only |
| Managers.Manager.DeleteExporter | internal/replication/manager.go:358-375 | on success the row is deleted and no pipeline uses the exporter; a storage error only if deleting the row failed; succeeds if that does and its pipelines can stop; no other pipeline was touched |
| Managers.Manager.DeletePipeline | internal/replication/manager.go:430-446 | on success the row is deleted and the pipeline not registered; a storage error only if deleting the row failed, with the pipeline stopped; succeeds if that does and the pipeline can stop; no other one was touched |
| Managers.Manager.ResetPipeline | internal/replication/manager.go:448-477 | succeeds if the row is updated and the pipeline, where it runs, can stop, and only with the row updated; the other pipelines stay as they are; one that ran is registered again, with the updated row and in a new loop, if and only if its restart succeeds |
| Managers.Manager.Restart | internal/replication/manager.go:469-475 | a restart succeeds if creating the driver and opening the ledger do, and otherwise leaves the pipeline unregistered |
| Managers.Manager.StopPipelines | internal/replication/manager.go:182-191 | if all pipelines can stop no shutdown fails; then no pipeline is left, and only drivers that were unused before |
| Managers.Manager.HandlerEnds | internal/replication/pipeline.go:75-78 | a stop request that a cancelled Shutdown left behind still ends the loop, and nothing else |
| Managers.Manager.Perform | internal/replication/manager.go:251-285 | every operation keeps the manager valid and, if OpenLedger does not fail, its driver keys exactly the exporter ids in use |
| Managers.Manager.Serve | internal/replication/manager.go:251-285 | so does every sequence of operations with any failures; a stuck pipeline stays registered, and a dropped driver never comes back |
| Managers.AtMostOneLive | internal/replication/manager.go:96-156 | in a valid manager at most one loop is live per pipeline id |
| Managers.LeftOverDriver | internal/replication/manager.go:115-122 | a start that fails to open the ledger, then a successful update: the pipeline runs on the driver made before the update |
| Managers.DistinctDrivers | internal/replication/manager.go:51-69 | in a valid manager distinct exporter ids have distinct drivers |
| Postings.PostAllSums | internal/transaction.go:129-188 | posting one by one touches exactly the keys of the postings, and gives each its summed inputs and outputs |
| Postings.Conservation | internal/transaction.go:150-169 | posting adds, per asset, the posted amounts to the total inputs and to the total outputs |
| Postings.Reverse | internal/posting.go:37-50 | a fresh list: the postings in reverse order, source and destination swapped |
| Postings.SwapAccounts | internal/posting.go:41-43 | the first loop, in place |
| Postings.ReverseOrder | internal/posting.go:45-47 | the second loop, in place |
| Postings.ReversedAt | internal/posting.go:37-50 | element by element what the reversal holds |
| Postings.ReversedTwice | internal/posting.go:37-50 | reversing is an involution |
| Postings.ReversalReplaysBackwards | internal/transaction.go:64-67 | after k postings of the reversal, from the end balance, every account has the balance it had after n-k postings |
| Postings.ReversalDipsAsLow | internal/transaction.go:64-67 | a balance stays above a floor while reverting if and only if it did originally |
| Postings.ReversalSwapsVolumes | internal/transaction.go:64-67 | the reversal touches the same keys, with inputs and outputs swapped |
| Transactions.GroupPostings | internal/transaction.go:130-148 | the group of a key holds exactly the postings that touch it, in order; no group is empty |
| Transactions.SumGroups | internal/transaction.go:150-169 | in any order of the maps: one entry per touched key, with the summed amounts |
| Transactions.VolumeUpdates | internal/transaction.go:129-188 | the result is strictly sorted by account and asset and lists exactly what posting one by one to empty volumes gives |
| Transactions.SortedListingUnique | internal/transaction.go:171-187 | such a list is unique, so the iteration order of the maps does not show |
| Transactions.SortedIsSorted | internal/transaction.go:171-185 | sorting entries with distinct keys gives a strictly sorted list of the same entries |
| Transactions.SortedOrder | internal/transaction.go:169-185 | in a sorted listing the entries come by account and those of one account by asset, in the order of the first differing character |
| Transactions.UpdatesConserve | internal/transaction.go:129-188 | per asset, the inputs of the updates, their outputs and the posted amounts total the same |
| PostCommitVolumesModel.PostCommitVolumes.AddInput | internal/volumes.go:134-138 | replaces one entry by a fresh copy with the amount added |
| PostCommitVolumesModel.PostCommitVolumes.AddOutput | internal/volumes.go:140-144 | the same for the output |
| PostCommitVolumesModel.PostCommitVolumes.Copy | internal/volumes.go:146-152 | the same volumes, in fresh integers only |
| PostCommitVolumesModel.PostCommitVolumes.SubtractPostings | internal/volumes.go:121-132 | fresh volumes with the postings taken back one by one; empty for an empty receiver; nothing that existed is modified |
| PostCommitVolumesModel.PostCommitVolumes.Merge | internal/volumes.go:154-169 | adds the other volumes to the receiver in place, also when the two share integers key by key or are the same map; a separate argument keeps its value |
| PostCommitVolumesModel.PostCommitVolumes.MergeEntry | internal/volumes.go:156-165 | an entry that was there keeps its integers, which are updated |
| VolumeHistory.MergeIsPosting | internal/volumes.go:154-169 | merging a transaction's summed updates equals posting its postings one by one |
| VolumeHistory.AfterIsPosting | internal/volumes.go:154-169 | merging transaction after transaction equals posting every posting ever made |
| VolumeHistory.HistoryConserves | internal/volumes.go:154-169 | after any history, per asset, total inputs equal total outputs equal all amounts posted |
| VolumeHistory.SubtractUndoesMerge | internal/volumes.go:121-132 | subtracting the last transaction from the merged volumes gives the previous volumes of every key, absent counting as zero; the merge covers every key the subtraction needs |
| VolumeHistory.PreCommitVolumes | internal/transaction.go:190-205 | from the post-commit volumes of the touched keys alone, the pre-commit volumes of those keys |
| Allotments.NewAllotment | internal/machine/allotment.go:13-42 | rejects exactly two uses of `remaining` or a sum above one; keeps the specific shares; with `remaining`, the shares sum to one |
| Allotments.SharesBetweenZeroAndOne | internal/machine/allotment.go:13-42 | portions between 0 and 1 give shares between 0 and 1 |
| Allotments.Allocate | internal/machine/allotment.go:55-75 | the floors, with one more unit for a prefix |
| Allotments.FlooredIsFloor | internal/machine/allotment.go:60-68 | the Euclidean quotient is the floor of the exact share, for negative amounts too |
| Allotments.AllocationConservesIff | internal/machine/allotment.go:69-74 | for one amount, the parts add up if and only if the floors fall short of it by no more than the number of parts |
| Allotments.ConservesIffSumIsOne | internal/machine/allotment.go:55-75 | the parts add up to every amount if and only if the shares sum to one |
| Allotments.HalfOfTen | internal/machine/allotment.go:55-75 | a lone share of one half splits ten into six |
| Allotments.AllocationConserves | internal/machine/allotment.go:55-75 | for shares that sum to one and any amount, the parts add up to it, each is the floor of its exact share or one more, and the parts that get more are a prefix shorter than the whole |
| Fundings.Funding.Take | internal/machine/funding.go:52-103 | the parts drawn from the front and the remainder, or insufficient funds with the accounts |
| Fundings.Funding.TakeMax | internal/machine/funding.go:105-140 | the same draw without a failure |
| Fundings.Funding.Concat | internal/machine/funding.go:142-157 | fails exactly on different assets; joins the lists, adding two parts of one account where they meet; works on the receiver's array, where its last part changes, and returns a slice of that array when the parts fit; what it returns when the two share an array |
| Fundings.Funding.Append | internal/machine/funding.go:152-154 | appends in place if the capacity allows, and to a new array otherwise |
| Fundings.SharedConcatIff | internal/machine/funding.go:142-157 | when both start the same array, the result is that for separate arrays if and only if the grown part is not appended again with another amount |
| Fundings.SharedConcatDiffers | internal/machine/funding.go:150-152 | two parts of one account, joined with themselves |
| Fundings.Funding.Sum | internal/machine/funding.go:159-165 | the total of the parts |
| Fundings.TakeSucceedsIff | internal/machine/funding.go:52-103 | of non-negative parts, an amount can be taken if and only if it lies between zero and the total; then it is what is taken, and the rest is what remains |
| Fundings.TakeMaxTakesTheMost | internal/machine/funding.go:105-140 | takes the amount, cut at zero and at the total; agrees with Take where both apply |
| Fundings.TakeThenConcat | internal/machine/funding.go:142-157 | with no two neighbours of one account, joining what was taken and what remained restores the parts exactly |
| Fundings.SplitByShares | internal/machine/funding.go:52-103 | taking the allocated parts of the total one after the other never fails, each take has its amount, and nothing remains |
| Fundings.SplitByAllotment | internal/machine/allotment.go:13-75 | so it is, share by share, for the shares NewAllotment makes, when they use `remaining` or add up to one |
| Substitution.ParserState.ParseVarIdent | internal/queries/substitution.go:151-171 | reads the longest identifier, or reports where it stopped |
| Substitution.ParserState.ParseBracketVar | internal/queries/substitution.go:186-197 | reads an identifier and the closing bracket |
| Substitution.ParserState.ParseSimpleVar | internal/queries/substitution.go:175-182 | reads either form of reference |
| Substitution.ParseTemplate | internal/queries/substitution.go:199-232 | the loop computes the recursive specification, errors included |
| Substitution.ReplaceVariables | internal/queries/substitution.go:25-48 | the loop interleaves literals and variable texts (FilterAccess.VariableText); the first failing variable is the error |
| TemplateGrammar.ParsePrinted | internal/queries/substitution.go:199-232 | every well-formed token list is read back from its text |
| TemplateGrammar.AcceptsTheGrammar | internal/queries/substitution.go:199-232 | a text is accepted if and only if it is the text of a well-formed token list, whose lists are then reported |
| TemplateGrammar.RejectedIff | internal/queries/substitution.go:151-232 | an error is reported if and only if, behind a well-formed template, a dollar sign starts no reference: it says whether a name or the closing bracket is missing, and where |
| TemplateGrammar.ReplaceInstantiates | internal/queries/substitution.go:25-48 | substitution gives what the template means token by token |
| TemplateGrammar.NormalForm | internal/queries/substitution.go:199-232 | accepted templates have as many literals as variables or one more; writing each variable as `${x}` keeps the variables, and is a fixed point with the same literals if and only if the text is ASCII |
| TemplateGrammar.OneByteGrows | internal/queries/substitution.go:222-224 | the byte 0x80 becomes two bytes, which are not a fixed point |
| TemplateGrammar.EncodeIsUTF8 | internal/queries/substitution.go:222-224 | a byte becomes the UTF-8 encoding of its code point |
| TemplateGrammar.IdentIff | internal/queries/substitution.go:140-171 | an identifier is a lower-case letter and then such letters, digits and underscores |
| FilterTemplates.LookupIgnoresOrder | internal/queries/schema.go:25-33 | in an unambiguous schema the field found does not depend on the iteration order |
| FilterTemplates.ResourceSchemasUnambiguous | internal/queries/resources.go:23-96 | the schemas of the four resources are unambiguous, aliases included |
| FilterTemplates.ValidateFilterBody | internal/queries/filter_template.go:20-78 | accepts exactly the filters all of whose leaves are valid |
| FilterTemplates.ExtractVariable | internal/queries/filter_template.go:266-280 | what is extracted is the value of the variable that the text names, of the requested Go type |
| FilterTemplates.BindVars | internal/queries/filter_template.go:122-135 | defaults that are not nil, overridden by the caller's values of declared variables; fails exactly if one of those has the wrong type |
| FilterTemplates.ResolveArray | internal/queries/filter_template.go:174-183 | resolves the strings of an array in place, up to the first failure |
| FilterTemplates.ResolveFilterTemplate | internal/queries/filter_template.go:121-168 | resolves the leaves in place, or reports the first failure |
| FilterSoundness.FillsIff | internal/queries/substitution.go:25-48 | filling a template in succeeds if and only if every variable has a text |
| FilterSoundness.FirstFailureDecides | internal/queries/filter_template.go:151-165 | the first leaf that does not resolve gives the error; without one, each leaf is resolved where it stands |
| FilterSoundness.LeafResolvesIff | internal/queries/filter_template.go:170-213 | a valid leaf resolves if and only if its references are bound to usable values, and then to what it means |
| FilterSoundness.ResolvesIff | internal/queries/filter_template.go:121-168 | a filter that passed the check resolves if and only if every variable it refers to has a value that is neither nil nor a big integer |
| FilterSoundness.NilDoesNotResolve | internal/queries/variables.go:103-106 | a variable bound to nil passes every check and does not resolve |
| FilterSoundness.ReferencesDeclared | internal/queries/filter_template.go:105-118 | a valid leaf refers to declared variables only |
| FilterSoundness.Progress | internal/queries/filter_template.go:121-254 | with every declared variable bound to a usable value of its type, resolution succeeds |
| FilterSoundness.Preservation | internal/queries/filter_template.go:121-254 | every resolved leaf, elements of `$in` and values of `$exists` included, is nil or of the class of its field, and stands for what the template says |
| FilterCompleteness.AcceptedIffSafe | internal/queries/filter_template.go:20-118 | a leaf is accepted if and only if, under every well-typed binding of the declared variables, it resolves and every resolved value has the type of its field |
| FilterCompleteness.LeafSafeIff | internal/queries/filter_template.go:80-118 | one binding tells: dates where dates are declared, and a text that is none where strings are |
| FilterAccess.AccessReadBack | internal/queries/schema.go:55-63 | a name of `[a-z_]`, alone or with an index in brackets, is read back as its two parts |
| FilterAccess.AccessIsPrinted | internal/queries/schema.go:55-63 | nothing else is read |
| FilterAccess.VariableNameIff | internal/queries/filter_template.go:256-264 | a value refers to a variable if and only if it is a name of `[a-z_]` between `${` and `}` |
| FilterAccess.FieldTypeIff | internal/queries/schema.go:35-53 | in an unambiguous schema a bare name has a type if and only if a field of that name or alias has it, and an indexed name if and only if such a field is a map of it |
| FilterAccess.TypedNamesArePrinted | internal/queries/schema.go:35-53 | no other text has a type |
| FilterAccess.VariableText | internal/queries/substitution.go:50-68 | the text of a reference alone, bound to a string, a number, a boolean, an integral or decimal float, or another value; unbound, it is missing |
| FilterAccess.ReferenceValue | internal/queries/filter_template.go:215-254 | what a reference resolves to at each type of field but strings, for each class of value it is bound to |
| FilterAccess.AcceptedValueIff | internal/queries/variables.go:60-101 | a value is accepted for a type if and only if it is nil, or what a reference bound to it resolves at (a date for dates), or a big integer for numbers |
| FilterAccess.MapByKey | internal/queries/filter_template.go:71-72 | comparing one key of a map of strings with plain text is accepted, and resolves to itself |
| FilterAccess.MetadataIsMap | internal/queries/resources.go:23-96 | so it is for `metadata[color]`, in each resource that has metadata |
| Charts.UnmarshalSegment | internal/chart.go:89-186 | in any order of the members, accepts exactly the readable documents and returns the one segment they read as |
| Charts.UnmarshalChart | internal/chart.go:50-88 | the same for the root, which has no variable segment, account or pattern |
| Charts.UnmarshalMetadata | internal/chart.go:159-163 | the same for the default metadata; null is nil |
| Charts.UnmarshalMember | internal/chart.go:101-171 | the body of the loop: a member is refused, or adds what it reads as |
| Charts.ReadOneMore | internal/chart.go:101-171 | what visiting one more member adds, whatever was visited before |
| Charts.MarshalObject | internal/chart.go:200-230 | in any order of the fixed segments, the members written for a segment |
| Charts.MarshalSegment | internal/chart.go:232-249 | the same with the pattern of a variable segment |
| Charts.MarshalChart | internal/chart.go:188-198 | the document written for a chart |
| ChartRoundTrip.Written | internal/chart.go:200-249 | what is written for a segment: its fixed segments, its variable one behind a dollar sign, `.metadata` exactly if there is default metadata, `.self` exactly for an account with segments below it, `.pattern` exactly for a variable segment with one, and nothing else |
| ChartPaths.WrittenMetadata | internal/chart.go:216-220 | what is written for default metadata: one object per key, with the default if there is one, and nothing else |
| ChartRoundTrip.SegmentOfWellFormed | internal/chart.go:89-186 | what is read is well-formed: valid names, compiling patterns, every leaf an account |
| ChartRoundTrip.MetadataRoundTrip | internal/chart.go:216-218 | default metadata is read back as it was written |
| ChartRoundTrip.SegmentRoundTrip | internal/chart.go:89-249 | every well-formed segment, at any depth, is read back from what is written for it, with its pattern |
| ChartRoundTrip.ChartRoundTrips | internal/chart.go:50-249 | the same for whole charts |
| ChartRoundTrip.ReadWriteRead | internal/chart.go:50-249 | a chart that was read is written as a document that reads as the same chart |
| ChartRoundTrip.ReadableIffWellFormed | internal/chart.go:50-88 | the charts that can be read are exactly the well-formed ones |
| ChartPaths.AcceptedIff | internal/chart.go:50-186 | a document is a chart if and only if its root maps plain names, and whatever a path of subsegment keys reaches is an object with valid keys, at most one of them variable, a compiling `.pattern` under variable keys only, an empty `.self`, and well-shaped `.metadata` and `.rules` on accounts only |
| ChartPaths.ChartIsDocument | internal/chart.go:50-186 | the chart has a segment exactly where a path of keys reaches an object, and each is an account, with its default metadata, and has a variable segment with its pattern, exactly as its object says |
| ChartLookup.JoinSplit | internal/chart.go:299 | the segments of an account contain no colon and join to it again |
| ChartLookup.FoundIff | internal/chart.go:251-304 | an account is found if and only if its segments walk from the root to an account node, where a variable step needs a matching pattern and no fixed sibling of that name |
| ChartLookup.WalksAgree | internal/chart.go:251-297 | an account walks to at most one node |
| ChartLookup.RejectedIff | internal/chart.go:251-304 | a rejection with a path, a segment and two flags happens if and only if the walk follows exactly that path and is refused at that segment for that reason |
| ChartLookup.RejectionIsPrefix | internal/chart.go:292-296 | path and segment of a rejection are where the account's text starts |
| ChartLookup.ReadChartsNeverFail | internal/chart.go:268-276 | in a chart that was read, a lookup never meets a pattern that does not compile |
| LogChain.Log.ComputeHash | internal/log.go:146-183 | the digest of the previous hash, if any, and the record of the log |
| LogChain.Log.ChainLog | internal/log.go:115-124 | a new log with hash and id set; receiver and previous log unchanged |
| LogChain.IdsCount | internal/log.go:118-122 | the ids of a chain are 1, 2, 3 and so on, in 64 bits |
| LogChain.DecisionsTyped | internal/log.go:231-233 | the type of a log tells its payloads apart |
| LogChain.HashesAgreeIff | internal/log.go:146-183 | under an injective digest two logs have equal hashes if and only if as many logs lead to them, and these have, one by one, the same type, decision, date, idempotency key, schema version and earlier hash |
| LogChain.ChangesSpread | internal/log.go:115-183 | a difference in one of these changes the hash of that log and every later one |
| LogChain.MementosAgreeIff | internal/log.go:237-412 | two payloads have the same memento if and only if they are the same decision: created transactions that differ at most in volumes, template and storage dates, reverted ones of one id whose reverting transactions so differ, and otherwise equal payloads |
| Decimals.ParseFormatted | internal/machine/monetary.go:156-163 | every integer is read back from its decimal text |
| ValueTexts.NumberRoundTrip | internal/machine/json.go:28-33 | every integer is read back as a JSON number |
| ValueTexts.MonetaryRoundTrip | internal/machine/json.go:34-51 | a monetary is read back by cutting at the first space |
| ValueTexts.Reduces | internal/machine/portion.go:57-87 | reducing a fraction keeps its value and gives lowest terms |
| ValueTexts.PortionRoundTrip | internal/machine/portion.go:57-94 | a portion in lowest terms is read back from its text |
| ValueTexts.ParsedIsValid | internal/machine/json.go:15-64 | what is read is of the requested type and valid, or the nil number |
| ValueTexts.JSONIntRead | internal/machine/json.go:28-33 | an integer of JSON, with spaces around it, is read as its value |
| ValueTexts.JSONIntIsText | internal/machine/json.go:28-33 | no other text is read as an integer |
| ValueTexts.AssetIff | pkg/assets/asset.go:7-9 | an asset is a code of up to 17 capitals and digits, a suffix of up to 16 capitals and a precision of up to 6 digits, the last two optional |
| ValueTexts.AccountIff | pkg/accounts/accounts.go:3-8 | an account address is made of names with single colons between them |
| ValueTexts.PercentageWorth | internal/machine/portion.go:61-72 | `i.f%` is (i * 10^n + f) / (100 * 10^n), n being the number of digits of f, in lowest terms; it is accepted if and only if that is at most one |
| ValueTexts.FractionWorth | internal/machine/portion.go:73-83 | `a/b`, with or without a space next to the bar, is a / b in lowest terms; it is accepted if and only if both numerals are, b is not zero and a / b is at most one |
| ValueTexts.PortionIsText | internal/machine/portion.go:61-87 | no other text is read as a portion |
| ValueTexts.BaseZeroIs | internal/machine/portion.go:76-79 | a numeral of a fraction is decimal, unless a zero leads more digits: then it is octal, and none with a digit above seven |
| ValueTexts.LeadingZeroIsOctal | internal/machine/portion.go:76-79 | the numeral 010 is eight there, and ten elsewhere |
| ValueTexts.RoundTripIff | internal/machine/json.go:15-84 | a value is read back from its own text if and only if it is valid |
| ValueTexts.ReadWriteRead | internal/machine/json.go:15-84 | what was read from a text is written and read back, if and only if it is not a null number, for which writing fails |
| ValueTexts.NullIsNotWritten | internal/machine/json.go:66-67 | `null` is read as a number, and that number cannot be written |
| ValueTexts.RemainingIsNotRead | internal/machine/portion.go:89-94 | the text of the remaining portion is rejected |
| ValueTexts.NilAmountReadsAsZero | internal/machine/json.go:76-79 | a monetary without an amount is written as zero, and read back as that |

## Left out

- The gRPC, HTTP, command-line and TypeScript layers, generated clients, metrics and logging: plumbing around the modelled code.
- SQL storage: a store takes effect or fails, except that one interrupted by a crash may do either later; `ListLogs` returns the first page of logs above the cursor, ascending; logs are appended with increasing ids.
- Time: every wait, retry period and poll interval is an arbitrary choice, and `nextInterval` is not modelled; liveness is not claimed.
- PipelineHandlers.PipelineHandler.Run: observed for a bounded number of turns, since the loop of the source need not end; the manager detaches its context, so the branch for a cancelled one is a step of the protocol only.
- Managers.Manager.Shutdown: a cancelled context is a failing step that may leave the stop request behind; nothing is claimed about progress after it.
- DriverFacades.StepKeepsInv: the facade is a state value with one transition per channel operation, not an object; it captures interleavings but not the fields' identity.
- Managers.Manager.StartPipeline: what validator, storage and driver factory answer during one operation, and whether a shutdown's context is cancelled, is a parameter, and each is asked at most once per row; how a cancelled Shutdown races with the loop is an arbitrary choice.
- The manager's methods are atomic, as they run under its mutex; the goroutine that closes the subscription after Run only matters to the wait group, which is not modelled.
- The nested maps of volumes are one map keyed by account and asset, and the two integers of an entry are one mutable object.
- PostCommitVolumesModel.PostCommitVolumes.Merge: not when an integer of one map is, under another key, an integer of the other: the source's result then depends on the iteration order.
- PostCommitVolumesModel.PostCommitVolumes.SubtractPostings: requires the keys of the postings, as do AddInput and AddOutput, since the source dereferences nil without them.
- Transactions.SortedIsSorted: the library's sort is an insertion sort here; keys are distinct, so stability does not matter.
- Fundings.Funding.Concat: slices start at the first element of their array, as all those that the package builds do; how much capacity a new array gets is an arbitrary choice.
- `Funding.Reverse`, `InvolvedAccounts`, `InvolvedDestinations`, `ValidatePosting`, `DefaultMetadata` and the `With*` functions: they would only add easy members.
- big.Rat is a numerator over a positive denominator, in lowest terms only where it is printed; float64 is a real number, and its conversion to int64 out of range is that of amd64.
- Filters: JSON parsing and the query library's walk are a list of (operator, key, value) leaves; error texts are error kinds; `time.ParseTime` is a parameter.
- A specific portion always has its fraction; the nil pointer that a caller could put there is not modelled.
- Charts: documents are JSON values, so the case-insensitive match of struct fields, duplicate members and numbers outside float64 are not modelled; the regular-expression engine is a parameter; errors of reading carry no text, since which of several is reported depends on the iteration order.
- LogChain.HashesAgreeIff: SHA-256 is an injective function parameter and JSON encoding of the record is taken as injective; the schema of an inserted-schema log is its JSON text.
- ValueTexts.RoundTripIff: texts are sequences of characters; a JSON number is read with the rules of JSON and of big.Int, other JSON documents being rejected by both.
