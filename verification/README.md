# Verified model of qemu-agent

qemu-agent turns a datasheet into a QEMU device model with the help of a language model. A *project* goes through
plan, extract, infer, emit and verify; each stage commits content-addressed artifacts and then moves the project.
This is a Dafny 4.11 model of the parts of it that have to be right whatever the language model replies, whatever
fails and whoever else is at work, together with proofs of what those parts promise.

| component | files |
|---|---|
| project lifecycle, its object and its store | `Lifecycle`, `LifecycleRuns`, `LifecycleEffects`, `ProjectRecord`, `ProjectStore` |
| artifact store | `Artifacts`, `ArtifactRoundTrip`, `ArtifactStore` |
| concurrent pipeline: interleaving clients, crashes | `Pipeline`, `PipelineSafety`, `PipelineAnswers`, `PipelineProgress` |
| register representation: validator, masks | `RegIr`, `LegalMaps`, `RegIrValidator`, `Bits`, `FieldMasks` |
| infer: merge and normal form | `Prose`, `Merge`, `MergeLaws`, `MergeValues`, `MergeRefusals`, `Normalization`, `NormalForm`, `InferRetry` |
| code generator and the device it generates | `Renderer`, `RenderedRegisters`, `Macros`, `GeneratedDevice`, `Migration` |
| emit and apply | `EmitStage`, `ApplyPlan`, `Applier`, `EmitLands` |
| memory store and search | `MemoryText`, `MemoryItems`, `MemoryIndex`, `MemoryStore`, `MemorySearch`, `MemoryOutcomes` |
| Telegram sink | `SplitText`, `TelegramSink`, `TelegramDelivery` |
| verify command | `VerifyCommand` |
| shared | `Common`, `Paths`, `Sorting`, `TextOrder` |

Code that changes things step by step is modelled by methods, classes and loops, and each such method is proved
against a function of the old state; what the code promises is then proved about those functions, over every input
and every run. Disk, clock, id generators, network clients and the language model are parameters: a write carries
whether it works, a call of several writes carries how many work before one fails, and a client is any function
from calls to replies. `dafny verify dfyconfig.toml` checks everything.

## Model

| member | source | states |
|---|---|---|
| Lifecycle.ShortCategoryIdempotent | internal/modeling/type.go:629-656 | What is stored as an error category is at most 32 token characters and is its own category, so the check on `LastError` in `Validate` never rejects a category that a transition wrote. |
| LifecycleRuns.NoStaleDownstream | internal/modeling/type.go:183-305 | Over every run of begin, finish, fail, land, reset and restart, from any project: of two stages that still hold what their last successes recorded, verify included, the later stage's success came after the earlier stage's. |
| LifecycleRuns.DownstreamIsYounger | internal/modeling/type.go:273-502 | Whatever put an entry there, success, failure or landing: every success of an earlier stage came before the entry has been held. |
| LifecycleRuns.HeldOutputFitsInputs | internal/modeling/type.go:273-502 | Over every run from any project: as long as a stage holds what its last success recorded, every entry that was an input of that success is still there and begins with the references it had then. |
| LifecycleRuns.RecordedStays | internal/modeling/type.go:273-466 | What a stage still holds begins with exactly the references its last success recorded. |
| LifecycleRuns.OutputIsRecorded | internal/modeling/type.go:273-466 | Everything but evidence that a stage holds after a run from Create was recorded by a success of that stage whose record it still holds. |
| LifecycleRuns.NoStaleEvidence | internal/modeling/type.go:273-502 | Over every run: the evidence a project shows is what its last successful verify collected, and no stage has succeeded since. |
| LifecycleRuns.FrontierRun | internal/modeling/type.go:183-502 | If every reset of a run targets a stage at or before the current one, then at every point each stage before the current one has an entry, entries beyond it occur only for verify while the project is at emit, and evidence only from emit on. |
| LifecycleRuns.ValidStep | internal/modeling/type.go:529-607 | Every transition of a valid project that is asked for with a real time and valid references gives a project that passes `Validate`, so the gate in `Save` never turns a transition down. |
| LifecycleRuns.OnlyTheCurrentStageRuns | internal/modeling/type.go:183-250 | Over every run, forward resets included: a project is done only at verify, and `CanAdvance` admits no stage but the current one. |
| LifecycleRuns.NeverPastEmit | internal/modeling/type.go:183-268 | In a run without resets and landings whose emits all hold for an apply, the current stage never passes emit. |
| LifecycleRuns.EmitAwaitsApply | internal/modeling/type.go:260-305 | Such an emit leaves the project blocked at emit with the category `awaiting_apply` and exactly the references it was given. |
| LifecycleRuns.ResetDropsEvidence | internal/modeling/type.go:471-502 | A reset drops the collected evidence if and only if it targets a stage before verify and the Artifacts map is not nil. |
| LifecycleRuns.ResetEmptiesEvidence | internal/modeling/stage_common.go:156-191 | In every run from Create in which verify succeeds only where an earlier stage left a register representation, as the shipped stage does, a reset to a stage before verify empties the evidence, restarts anywhere included. |
| LifecycleRuns.EvidenceOutlivesRestart | internal/modeling/type.go:471-502 | A remark on replaceable stages: with a verify that needs no input, a run of six operations after which a project reset to plan still holds evidence, because the emptied map came back from its file as nil. |
| ProjectRecords.ProjectRecord.Begin | internal/modeling/type.go:215-227 | The method moves the record as the transition function of the same name moves the value, or refuses and changes nothing. |
| ProjectRecords.ProjectRecord.ClearAfter | internal/modeling/type.go:491-502 | The loop over the later stages removes exactly their entries and the evidence with verify's. |
| ProjectRecords.ProjectRecord.Record | internal/modeling/type.go:273-305 | Refuses without a change, or replaces the stage's entry, clears what is downstream, and collects verify's evidence. |
| ProjectRecords.ProjectRecord.Complete | internal/modeling/type.go:236-250 | Records and moves on as the transition function, of which `LifecycleEffects.FinishEffect` says that it is to the next stage, or to done after verify; a refusal changes nothing. |
| ProjectRecords.ProjectRecord.Hold | internal/modeling/type.go:260-268 | Records and blocks at the same stage with the reason's category. |
| ProjectRecords.ProjectRecord.FailWith | internal/modeling/type.go:351-376 | Blocks the running stage with a category and appends its evidence, keeping every earlier output. |
| ProjectRecords.ProjectRecord.Applied | internal/modeling/type.go:388-416 | Appends the receipt, and advances only when the stage is not already behind the current one. |
| ProjectRecords.ProjectRecord.ApplyFailed | internal/modeling/type.go:422-441 | Appends the receipt, blocks at the stage, and keeps what later stages recorded. |
| ProjectRecords.ProjectRecord.Reset | internal/modeling/type.go:471-487 | Removes the stage's entry and everything downstream, and makes the stage current and pending. |
| ProjectRecords.ComputeShortCategory | internal/modeling/type.go:629-656 | The loop over the runes with its early stop computes the leading token, cut to 32 characters. |
| Lifecycle.SpelledEvidence | internal/modeling/type.go:128-135 | A kind in other spelling is accepted and kept: a reference spelled `EVIDENCE` is valid, is not collected as evidence, and is refused where only evidence may be left. |
| LifecycleEffects.KindsExactly | internal/modeling/type.go:128-135 | A kind is accepted in any case and with any space around it, if it is one of the five then. |
| LifecycleEffects.TokenIsLeading | internal/modeling/type.go:629-656 | The category token of a text is the longest run of letters, digits and underscores it starts with, in lower case. |
| LifecycleEffects.FinishEffect | internal/modeling/type.go:236-305 | A success that asks for no human moves the project to the next stage in order, pending, or makes it done after verify; one that does leaves it blocked at the stage with the category of its reason. The stage holds the given references, earlier entries stay, later ones are gone, and exactly the stage the project is at then may run. |
| LifecycleEffects.FailEffect | internal/modeling/type.go:351-466 | A failure blocks the running stage with the category of the error and adds the evidence at the end of its entry, and changes no other entry. |
| LifecycleEffects.LandEffect | internal/modeling/type.go:388-466 | A complete landing takes the project to verify, pending, or leaves it there; a partial one blocks it at emit; the receipt is added at the end of the entry of emit and no other entry changes. |
| LifecycleEffects.ResetEffect | internal/modeling/type.go:471-502 | A reset makes exactly the stage runnable; its entry and every later one are gone, the earlier ones are as they were. |
| LifecycleEffects.AcceptedExactly | internal/modeling/type.go:183-466 | Which transitions are accepted, exactly: a stage that may run is begun; a running one ends with valid references of its own, and fails with evidence only and a category; a landing needs the manifest, the diff and evidence, and a complete one a project that is not running; any known stage can be reset; nothing without a time. |
| LifecycleEffects.CanAdvanceExactly | internal/modeling/type.go:183-210 | The current stage may run, and after a done one the next one, but nothing while a run is marked as going on. |
| LifecycleEffects.MayRunExactly | internal/modeling/type.go:183-210 | As no project is done before verify, that is the current stage and no other. |
| LifecycleEffects.InputsAreTheEarlier | internal/modeling/pipeline.go:448-460 | A run is shown what the stages before its own hold, and nothing else. |
| LifecycleEffects.StagesInOrder | internal/modeling/type.go:155-305 | Beginning and finishing the stages of an empty pending project in the order plan, extract, infer, emit, verify is never refused; after each the next one is pending, in the end the project is done at verify, and every stage holds exactly the references it was given. |
| LifecycleEffects.FromCreate | internal/modeling/store.go:189-232 | A created project has the given title, trimmed, workspace and user and can go through all stages. |
| LifecycleEffects.LandingMovesOn | internal/modeling/type.go:388-416 | A complete landing on a project that waits at emit is not refused, and verify may run next. |
| ProjectStore.FileProjectStore.Save | internal/modeling/store.go:310-333 | Compare-and-swap: accepted exactly when the project exists, the scope sees it, identity is kept and the revision is the stored one plus one; index and file change together or not at all. |
| ProjectStore.FileProjectStore.Create | internal/modeling/store.go:189-247 | Succeeds exactly when title and workspace are not blank, there is room, one of the eight candidate ids is usable and free, the time is real and the disk works; then it adds one valid pending project with revision 1 under the first such id, in index and directory alike, and otherwise nothing changes. |
| ProjectStore.FileProjectStore.Restart | internal/modeling/store.go:132-184 | Loading after a restart brings every project back as its file says and keeps the agreement of index and directory. |
| ProjectStore.StepReplaces | internal/modeling/type.go:507-524 | Every transition that is saved with the revision raised by one passes the identity check of the compare-and-swap. |
| ProjectStore.OwnedStaysOwned | internal/modeling/store.go:374-384 | A project is shown in its workspace only, and an owned one to its owner only. |
| ProjectStore.OwnerSees | internal/modeling/store.go:374-384 | Its owner is shown it, and so is everybody in the workspace if nobody owns it. |
| ProjectStore.SaveAllowedExactly | internal/modeling/store.go:310-333 | A valid project is replaced exactly by a valid one with the same id, workspace, user and creation time and the next revision. |
| Artifacts.StagedIsContained | internal/modeling/artifacts.go:166-246 | Every handle that `Stage` returns has its directory below the staging directory of the project. |
| Artifacts.CommitEffect | internal/modeling/artifacts.go:253-316 | On a handle whose joined id stays in the staging directory, however far a commit gets: no committed file and no manifest line changes or goes away, the bytes in use do not grow, and a success means that every reference opens to bytes with its digest. |
| Artifacts.StoreRunEffect | internal/modeling/artifacts.go:166-456 | Over every run of Stage, Commit and Discard, with failures part-way, on handles whose joined id stays in the staging directory, whatever references they list: staged plus committed bytes stay within the project budget, committed files and manifest lines are permanent, and every manifest line names a file with that digest. |
| Artifacts.DiscardExactly | internal/modeling/artifacts.go:320-383 | For a handle that passes the check: in every tree discarding it leaves everything outside the staging directory alone if and only if its id, joined and cleaned, stays in the staging directory. |
| Artifacts.CommitExactly | internal/modeling/artifacts.go:253-383 | For every id: all commits of handles with that id, in every tree and however far they get, touch nothing outside the staging directory but to add artifacts and manifest lines, if and only if the id, joined and cleaned, stays in the staging directory. |
| Artifacts.DotsRemoveTheProject | internal/modeling/artifacts.go:253-383 | A handle with the id `..` and the project directory passes the check; discarding it removes the whole project, and committing it where its reference is already committed reports success and removes it too. |
| Artifacts.CommitIsIdempotent | internal/modeling/artifacts.go:166-316 | Staging and committing the same drafts again leaves the committed tree as it is and gives the same references up to their creation time. |
| ArtifactStore.FileArtifactStore.Stage | internal/modeling/artifacts.go:166-246 | Checks everything before the first byte is written, then writes draft by draft; the new tree and the batch are those of the specification for every point of failure. |
| ArtifactStore.FileArtifactStore.Commit | internal/modeling/artifacts.go:253-316 | The loop of check-and-rename steps, the manifest line and the removal of the directory the handle names give the specified tree for every point of failure and every handle; on a contained handle everything committed is kept and a success means that every reference opens. |
| ArtifactStore.FileArtifactStore.Discard | internal/modeling/artifacts.go:320-331 | Removes everything below the directory the handle names; on a contained handle nothing that is committed. |
| ArtifactStore.FileArtifactStore.ProjectBytes | internal/modeling/artifacts.go:431-456 | The two passes over the files sum up staged and committed bytes, the manifest left out. |
| ArtifactRoundTrip.StoredOpens | internal/modeling/artifacts.go:166-361 | Where the disk works and no other content has the place, acceptable drafts are staged and committed, and every reference opens to the bytes that were given; the references describe the drafts in order, the manifest lists them, and nothing else outside the staging directory changes. |
| ArtifactRoundTrip.DiscardUndoesStage | internal/modeling/artifacts.go:166-331 | Discarding a batch that was staged in a directory of its own leaves the tree as it was. |
| ArtifactRoundTrip.UsedCounts | internal/modeling/artifacts.go:431-456 | The bytes in use are those of the files below the project, each counted once; files elsewhere do not count. |
| ArtifactRoundTrip.StagingTakesUp | internal/modeling/artifacts.go:166-246 | Staging in a directory of its own takes up exactly the bytes of the drafts. |
| Pipeline.PrepareDrafts | internal/modeling/pipeline.go:312-351 | Drafts without a stage are filed under the running one; evidence that is not evidence and drafts of another stage are refused. |
| PipelineSafety.RunsAreSerialised | internal/modeling/pipeline.go:201-426 | In every interleaving of any number of advances, resets and landings with crashes: the saved revisions are 1, 2, 3 and so on, the end of a stage run is saved right after that run's own "running" save, and the stored project is the outcome of the saved transitions done one after the other. |
| PipelineSafety.OneRunCanCommit | internal/modeling/pipeline.go:201-307 | Of all stage runs in flight at most one can still save its outcome. |
| PipelineSafety.HistoryGrows | internal/modeling/store.go:310-333 | No step rewrites a save and each adds at most one. |
| PipelineSafety.NoStaleOutputEver | internal/modeling/pipeline.go:201-426 | In no reachable world of the concurrent protocol does a stage still hold what it recorded before the last success of an earlier stage that still holds its own. |
| PipelineSafety.HeldOutputFitsInputsEver | internal/modeling/pipeline.go:201-426 | In every reachable world what a stage still holds was made from what is stored: every input of its last success is there and begins with the references the run was shown. |
| PipelineSafety.NoStaleEvidenceEver | internal/modeling/pipeline.go:201-426 | In every reachable world the evidence of the stored project was collected by its last successful verify, and no stage has succeeded since. |
| PipelineAnswers.FinishIsTheReturn | internal/modeling/pipeline.go:201-307 | In every interleaving: when a stage run returned an output and then saved its success, the saved project holds exactly the references of that output's files; it waits at the stage with the reason's category if the output asked for a human, and otherwise is at the next stage, pending, or done after verify. |
| PipelineAnswers.FailureIsSaved | internal/modeling/pipeline.go:357-426 | When a stage run failed, all it saves is that failure: blocked at the stage with the category of the error, with the evidence added or, if it could not be stored, nothing. |
| PipelineAnswers.LandingIsSaved | internal/modeling/applier.go:475-524 | What a landing saves is the record of that landing, partial or complete, with the receipt added or, if it could not be stored, nothing. |
| PipelineAnswers.ResetIsSaved | internal/modeling/pipeline.go:166-177 | What a reset saves is the reset to that stage of the project it loaded. |
| PipelineAnswers.NobodyPassesEmit | internal/modeling/pipeline.go:201-426 | In every interleaving without resets and landings in which every output of emit asks for a human, the stored project never gets past emit, crashes included. |
| PipelineProgress.AdvanceGoesThrough | internal/modeling/pipeline.go:201-352 | From any world with a valid project that is not running, whatever other clients there are: an advance that nobody interrupts, with an acceptable output whose files can be stored, is saved as the success that the output is, with the references of its files. |
| PipelineProgress.FailureGoesThrough | internal/modeling/pipeline.go:357-426 | A failure whose evidence can be stored is saved with the references of that evidence. |
| PipelineProgress.LandingGoesThrough | internal/modeling/applier.go:475-524 | A landing whose receipt can be stored is recorded with it. |
| PipelineProgress.StoreFailureIsSaved | internal/modeling/pipeline.go:201-426 | Where the files cannot be staged, what is saved next is a failure of the stage without evidence, or the landing without its receipt. |
| PipelineProgress.CommitFailureIsSaved | internal/modeling/pipeline.go:201-426 | The same where one of them cannot be committed. |
| PipelineProgress.EndFailureIsSaved | internal/modeling/pipeline.go:201-426 | The same where the manifest line or the clean-up of the commit fails. |
| PipelineProgress.ResetGoesThrough | internal/modeling/pipeline.go:166-177 | A reset of a valid project is saved, whatever it was doing. |
| PipelineSafety.EverySavedRefOpens | internal/modeling/pipeline.go:312-386 | In every such run, a crash between commit and save included, each reference of every project ever saved opens to bytes with its digest. |
| PipelineSafety.CommittedForever | internal/modeling/artifacts.go:253-361 | However a run goes on, nothing that is committed in a world that satisfies the invariant is changed or removed later. |
| PipelineSafety.CrashedRunNeedsResetOrLanding | internal/modeling/type.go:183-441 | From every world with a project left running by a crash and over every sequence of actions: as long as nothing is saved it stays running, and the first thing that is saved, if anything is, is a reset or the record of a partial landing; no advance and no complete landing gets through. |
| PipelineSafety.PartialLandingRecovers | internal/modeling/type.go:422-441 | From every such world whose project still holds its earlier emit output, the record of a partial landing is saved and emit can run again without a reset. |
| PipelineSafety.ResetRecovers | internal/modeling/type.go:471-487 | Resetting such a project to its current stage makes that stage runnable again. |
| RegIr.PowerOfTwoTest | internal/modeling/regir.go:125-199 | The bit trick on `MMIOSize` accepts exactly the powers of two, for every positive 64-bit value. |
| LegalMaps.MapExactly | internal/modeling/regir.go:125-279 | A map is legal exactly if every register is named, of a legal width, aligned and resets to a value that fits, its fields are named and lie in it, each byte of the window belongs to at most one register and each bit of a register to at most one field, and no name is there twice, case ignored. |
| LegalMaps.LegalExactly | internal/modeling/regir.go:125-199 | A representation is legal exactly if its map is, its device and bus are known, its window is a power of two, it stays within its limits, and its interrupts are named and have lines of their own. |
| RegIrValidator.Validate | internal/modeling/regir.go:125-279 | An accepted representation whose computations do not wrap is legal, and a legal one is accepted and does not wrap; where one wraps the verdict is that of the checks as written. Legality is stated over all pairs, the code sorts and compares neighbours in 64-bit arithmetic. |
| RegIrValidator.NeighboursDecide | internal/modeling/regir.go:160-199 | In a list of non-empty spans sorted by start, all pairs are disjoint if and only if all neighbours are. |
| RegIrValidator.SortedDecides | internal/modeling/regir.go:160-199 | The verdict on the sorted list is the verdict on the original one, whatever order the unstable sort gives equal starts. |
| RegIrValidator.ValidateFields | internal/modeling/regir.go:248-279 | The field pass accepts exactly the blocks whose fields pass the written range check, have different names and are pairwise apart; the sort and the conversion of overflowed ends do not show. |
| RegIrValidator.LegalIsAcceptedWithoutWrap | internal/modeling/regir.go:125-279 | Legality is what is accepted as written, in the arithmetic of the code, on the inputs on which no check wraps around. |
| RegIrValidator.NarrowWindowAcceptsAll | internal/modeling/regir.go:211-244 | A register wider than the whole window passes every written check of its head at every aligned offset, and is not legal. |
| RegIrValidator.NarrowWindowAccepted | internal/modeling/regir.go:125-244 | A representation with a window of four bytes and a 64-bit register that is accepted and not legal. |
| RegIrValidator.OverflowingFieldAccepted | internal/modeling/regir.go:257-265 | A field whose end overflows an int passes the range check although it lies outside the register. |
| RegIrValidator.OverflowingFieldAcceptedWhole | internal/modeling/regir.go:125-279 | A representation with such a field that is accepted and not legal. |
| RegIrValidator.GapsAreExactlyTheWraps | internal/modeling/regir.go:211-279 | For everything that passes the written checks: it is legal if and only if its own subtraction or addition does not wrap. |
| FieldMasks.MaskBits | internal/modeling/renderer_c.go:107-112 | The mask of a legal field has exactly the field's bits set and fits the register. |
| FieldMasks.MasksAreDisjoint | internal/modeling/renderer_c.go:107-112 | The masks of two fields of a legal register share no bit and stay below 2^width. |
| Merge.MergeRegister | internal/modeling/stage_infer.go:218-262 | The writes through the register pointer give the merged register in its place and no other change. |
| Merge.MergeInterrupts | internal/modeling/stage_infer.go:267-291 | Taken whole where there are none; otherwise only blank descriptions are filled, by index. |
| Merge.MergeInferred | internal/modeling/stage_infer.go:152-213 | The whole pass, with the index of names and the list of refusals, computes the merge. |
| MergeLaws.EveryMergeKeepsFindings | internal/modeling/stage_infer.go:152-291 | Any number of merges of arbitrary proposals keep device, bus, window, register count, every name, offset, width and access, and every reset, effect, field layout and interrupt line already present. |
| MergeLaws.MergeIdempotent | internal/modeling/stage_infer.go:152-291 | If the merged representation is legal, merging the same proposal again changes no register and no interrupt, even where the proposal lists a register several times. |
| Normalization.NormalizeRegisters | internal/modeling/regir.go:289-328 | The in-place pass over registers and fields gives the normal form. |
| Normalization.Normalize | internal/modeling/regir.go:289-328 | The in-place rewrite of the whole representation gives its normal form, with notes trimmed, bounded and counted. |
| Normalization.OnlyAdoptedPartsCanFail | internal/modeling/stage_infer.go:108-124 | After infer a legal base fails validation if and only if a field block it had left open, or the interrupt list it did not have, was adopted and is illegal. |
| Normalization.InferNeverRewrites | internal/modeling/stage_infer.go:152-291 | Over any number of infer runs on arbitrary replies, accepted or not, the extracted facts stay as they were and a documented effect is at most clamped. |
| Prose.FillIdempotent | internal/modeling/stage_infer.go:245-263 | Filling blank texts by key a second time with the same offers changes nothing. |
| Prose.ClampSettles | internal/modeling/regir.go:355-365 | Clamping a clamped text again changes nothing if and only if the trimmed text has no place where two carriage returns come before a line feed and a visible character after them is still within the limit. |
| Prose.FittingSettles | internal/modeling/regir.go:355-365 | For a text that fits the limit: if and only if it has, trimmed, no two carriage returns before a line feed. |
| Prose.ClampIdempotent | internal/modeling/regir.go:355-365 | Clamping twice is clamping once for every text without two carriage returns before a line feed. |
| Prose.SecondClampJoins | internal/modeling/regir.go:355-365 | A text with two of them that a second clamp changes once more. |
| InferRetry.RetryChangesNothingExactly | internal/modeling/stage_infer.go:105-295 | Running infer again on its own accepted result, with the same reply, changes nothing but the notes if and only if no text of the merged map keeps a line end through its first clamp. |
| InferRetry.RetryIsLegal | internal/modeling/stage_infer.go:105-295 | Running infer again on its own accepted result, with the same reply, is accepted again. |
| InferRetry.RetryMayRewriteAnEffect | internal/modeling/regir.go:355-365 | A legal base from which the retry is accepted like the first run and changes an effect. |
| MergeValues.HolesAreFilled | internal/modeling/stage_infer.go:152-262 | For a base whose register names differ, case ignored, and any proposal: a register without a reset ends with that of the first proposed register of its name, offset and width whose reset fits, and without one if there is none; a blank effect becomes the first offered one that is not blank; an empty field block becomes the first offered one that is not empty, up to blank descriptions; everything else stays. |
| MergeValues.SomethingIsFirst | internal/modeling/stage_infer.go:152-213 | If a proposal offers something for a hole, something is the first it offers. |
| MergeValues.DescriptionIsOffered | internal/modeling/stage_infer.go:218-262 | A blank description of a field is completed if and only if a text is offered for it, and then by such a text. |
| MergeValues.IrqsAreFilled | internal/modeling/stage_infer.go:267-291 | A missing interrupt list is taken as proposed; otherwise the lines stay, and a blank description is completed by a text proposed for its index, if there is one. |
| MergeRefusals.NothingDroppedSilently | internal/modeling/stage_infer.go:152-291 | Another device, bus or window, a register the base has not or has elsewhere, another access mode, a reset that was not taken, an interrupt the base has not, and every note of the proposal: each is remarked. |
| NormalForm.ClampIs | internal/modeling/regir.go:355-373 | A clamped text is the trimmed text with its line ends joined if that fits; otherwise it is a beginning of it and an ellipsis, and every beginning that ends visibly and fits is a part of that beginning. |
| NormalForm.LineEndsJoin | internal/modeling/regir.go:355-365 | Every line end of two characters becomes one line feed, whatever is around it. |
| NormalForm.ModesAreRead | internal/modeling/regir.go:289-328 | An access mode is read from its spelling in any case and with any space around it, and from nothing else. |
| NormalForm.BusesAreRead | internal/modeling/regir.go:289-328 | The same for the bus. |
| NormalForm.RegistersAreNormal | internal/modeling/regir.go:289-328 | Register by register: offsets, widths, resets and bit positions stay, names are trimmed, prose is clamped. |
| NormalForm.IrqsAreNormal | internal/modeling/regir.go:289-328 | The same for interrupts. |
| NormalForm.NotesAreKept | internal/modeling/regir.go:289-328 | The notes that are kept of two lists put together are those of the one and then those of the other. |
| NormalForm.NoteIsKept | internal/modeling/regir.go:289-328 | A note is kept, clamped, unless it is blank then. |
| NormalForm.NotesAreBounded | internal/modeling/regir.go:289-328 | Up to 64 notes stay; of more the first 63 stay and the last tells how many were dropped. |
| NormalForm.NoteForEveryCut | internal/modeling/regir.go:289-328 | Every effect that is cut leaves a note, unless the notes run over. |
| NormalForm.RemarksAreNoted | internal/modeling/stage_infer.go:105-125 | What the merge remarked and what the base noted stand in the notes of the result, unless the notes run over. |
| Renderer.Render | internal/modeling/renderer_c.go:35-53 | The written cases, resets, macros and members are those of the registers in address order, each once, with the widest access and the list of undocumented registers. |
| Renderer.WriteReset | internal/modeling/renderer_c.go:232-249 | Every member is reset once: to its documented value, or to zero with a note. |
| Renderer.RenderingIgnoresOrder | internal/modeling/renderer.go:169-173 | Two files rendered from the same registers in any order are identical, since the unstable sort runs on distinct offsets. |
| Renderer.MembersDifferExactly | internal/modeling/renderer.go:141-147 | The registers of a legal map get distinct members if and only if no register is named like a C keyword while another is named `reg_` and that keyword. |
| Renderer.KeywordEscapeCollides | internal/modeling/renderer.go:141-147 | A legal representation, with the registers `int` and `reg_int`, whose two registers get one member. |
| Renderer.StructNamesDifferExactly | internal/modeling/renderer_c.go:118-134 | The struct rendered from a legal representation declares every name once if and only if, case ignored, no interrupt name occurs twice, nothing is called `parent_obj` or `iomem`, no interrupt is called like a register's member and no register like another's escape. |
| Renderer.LegalNamesMayClash | internal/modeling/renderer_c.go:118-134 | Three legal representations whose struct declares a name twice: a register called like the region, an interrupt called like a register, two interrupts of one name. |
| Macros.MacroNamesDifferExactly | internal/modeling/renderer_c.go:77-103 | The file rendered from a legal representation defines no macro twice if and only if, case ignored, no register is called `MMIO_SIZE`, none `TYPE` in a device called `type`, `type_type` and so on, none like the shift or the mask of another register's field, and no two registers run together with a field each into the same name. |
| Macros.LabelsAreOffsets | internal/modeling/renderer_c.go:86-174 | Under that condition the label of every case expands to the offset of the register whose case it is. |
| Macros.LegalMacrosMayClash | internal/modeling/renderer_c.go:77-103 | Three legal representations that define a macro twice: a register called like a field's shift, like the window's size, and like the type. |
| Macros.LabelIsNotTheOffset | internal/modeling/renderer_c.go:86-174 | With the registers `CTRL_EN_SHIFT` at 0 and `CTRL` with the field `EN` at bit 4, the case of the first is labelled 4. |
| GeneratedDevice.GeneratedDeviceIsTheDevice | internal/modeling/renderer_c.go:118-249 | For a legal map with distinct members, the generated handlers, run on members that are cut to their declared types, give on every sequence of reads, writes and resets the values that ro, wo, rw, w1c and rsvd mean, and every stored value stays below 2^width. |
| RenderedRegisters.EveryRegisterIsRendered | internal/modeling/renderer_c.go:92-264 | Every register of a legal map stands at one place of the file, in address order: with its offset and, for every field, shift and the mask of the field's bits; with a member of its width, the same in the migration description; with its cases at its offset, a note where a side effect is documented; and with its reset, marked where it is not documented. |
| Macros.FieldMacrosMean | internal/modeling/renderer_c.go:77-103 | For compatible names the two macros of every field expand to its shift and its mask and the window's to its size. |
| Migration.MigrationKeeps | internal/modeling/renderer_c.go:255-264 | Saving the members through the migration description and loading them, whatever the other host's device held, gives back the meant contents of every state the device can reach. |
| Migration.MigratedDeviceIsTheDevice | internal/modeling/renderer_c.go:255-264 | A device that is reset, used, migrated and used again answers as the meant device that never moved. |
| GeneratedDevice.AgreesFromReset | internal/modeling/renderer_c.go:148-249 | On every sequence that starts with a reset the handlers give the meant values and end in the meant contents, whatever members and registers held before. |
| GeneratedDevice.WriteTouchesOneRegister | internal/modeling/renderer_c.go:148-200 | A write changes no member but that of the register at its address. |
| GeneratedDevice.ClearIsWithout | internal/modeling/renderer_c.go:183-200 | The stored value of a write-one-to-clear register loses exactly the bits that were written as one. |
| EmitStage.Run | internal/modeling/stage_emit.go:66-121 | The loop over the rendered files gives one draft for each in order, then the manifest and the diff, and blocks unless the build applies on its own. |
| EmitStage.EmitRecordsWhatApplyNeeds | internal/modeling/stage_emit.go:95-106 | As long as the references a successful emit recorded head the list and what was appended has other names, an apply finds the manifest and the diff that were rendered, and for every entry the artifact it names with the bytes that were rendered. |
| EmitStage.EmittedIsHeld | internal/modeling/stage_emit.go:95-106 | What a successful emit recorded heads the list, with nothing after it. |
| EmitStage.EmittedStaysHeld | internal/modeling/applier.go:475-551 | That stays so over landings and failed redos whose references have other names, and over everything else, until emit succeeds again or its entry is removed. |
| EmitStage.DeviceNamesDiffer | internal/modeling/renderer.go:60-83 | The files of a device have different names, and a landing's receipt is called like none of them. |
| EmitStage.EmitStops | internal/modeling/stage_emit.go:108-120 | Without auto-apply a successful emit leaves the project blocked at emit with `awaiting_apply`. |
| EmitStage.EmitGoesOn | internal/modeling/stage_emit.go:108-120 | With auto-apply a successful emit takes the project to verify. |
| EmitLands.EmittedDeviceLands | internal/modeling/applier.go:230-372 | What emit recorded for a device can be applied: where there is no such device file and the two build files are there, all three files are written, the device file with the rendered source, each build file with its old bytes and its fragment. |
| EmitStage.ManifestCreatesFirst | internal/modeling/renderer.go:60-83 | The manifest of a rendered device creates the device file before the entries that append to build files, which name other paths. |
| EmitStage.FragmentsLandOnce | internal/modeling/applier.go:119-314 | Over any number of applies of one device, with partial failures, recorded receipts and redone emits in between: at most one writes anything, so each build fragment lands at most once. |
| ApplyPlan.ValidatePlan | internal/modeling/apply.go:99-185 | The loop with its set of seen paths accepts exactly the non-empty plans of valid changes with pairwise distinct paths. |
| ApplyPlan.PathValidExactly | internal/modeling/apply.go:166-185 | A path is accepted if and only if, but for space around it, it has no backslash and is the dot or made of names of entries. |
| ApplyPlan.AcceptedPathStaysInside | internal/modeling/apply.go:166-185 | Taken as it was given, the segments of an accepted path are all names of entries, none empty, a dot or leading upwards, if and only if the path is not the single dot. |
| ApplyPlan.AcceptedPathResolves | internal/modeling/applier.go:382-416 | Below any root an accepted path resolves to itself, and the dot to the root. |
| ApplyPlan.DifferentPathsDifferentFiles | internal/modeling/applier.go:382-416 | Two accepted paths resolve to the same file if and only if they are the same text, so a plan without repeated paths names no file twice. |
| Applier.MakePlan | internal/modeling/applier.go:126-225 | The plan holds one change for each manifest entry, or there is none: a create needs an absent file, a modify a present one. |
| Applier.Prepare | internal/modeling/applier.go:311-372 | Everything to be written is composed before the first write, or nothing is written. |
| Applier.SourceTree.Apply | internal/modeling/applier.go:230-297 | Plan, prepare, then write one file at a time until the first refusal: the tree and the report of the specification. |
| Applier.LandingIsExact | internal/modeling/applier.go:182-372 | For every tree, manifest and pattern of refusals: a failed check leaves the tree untouched; otherwise written ++ skipped is the manifest's path list in order, a written create path was absent and now holds the artifact's bytes; a written modify path begins with its old bytes and ends with the fragment, with nothing between them if the old file was empty or ended in a newline and one newline otherwise; and no other path changes. |
| Applier.LateEditIsOverwritten | internal/modeling/applier.go:311-372 | An edit made after prepare read the path is lost: what is written is the bytes that were read, a newline where they did not end in one, and the fragment. |
| Applier.ReadyExactly | internal/modeling/applier.go:126-372 | All checks of an apply pass if and only if the manifest is not empty, its paths are valid and differ, the diff is one, every artifact is there with its digest and is no evidence, and at both looks at the tree a file to create is absent and a file to append to is a regular one of the same content. |
| Applier.EverythingLands | internal/modeling/applier.go:230-297 | Then, if no write is refused, every path of the manifest is written. |
| Applier.AtMostOneAttemptWrites | internal/modeling/applier.go:119-314 | Over any number of applies whose manifests create the same device file first, each with the references, diff and artifact bytes the project holds by then, receipts of earlier applies included, and as long as nobody takes that file away: at most one writes anything, so each fragment is appended at most once, whoever edits the tree meanwhile. |
| MemoryText.Normalize | internal/memory/sanitizer.go:95-112 | The rune loop computes the canonical form. |
| MemoryText.FixedPoints | internal/memory/sanitizer.go:95-112 | The texts that normalising leaves alone are exactly those of printable runes with single inner plain spaces. |
| MemoryText.NormalizeIdempotent | internal/memory/sanitizer.go:95-112 | Normalising twice is normalising once, for every text. |
| MemoryText.SameFormSameWords | internal/memory/sanitizer.go:95-112 | Two texts have the same canonical form if and only if they have the same words. |
| MemoryText.SanitizeIdempotent | internal/memory/sanitizer.go:68-90 | What the sanitizer let through passes again, unchanged. |
| MemoryItems.NormalizedIsStorable | internal/memory/normalize.go:15-47 | An item that passed the gate is reread from its file exactly as it was written. |
| MemoryItems.SameFactSameFingerprint | internal/memory/fingerprint.go:13-26 | The same fact in other spacing, case or with invisible runes gets the same fingerprint. |
| MemoryItems.FingerprintTextInjective | internal/memory/fingerprint.go:13-26 | As long as the ids hold no NUL, two items have the same hashed text if and only if scope, kind and folded content are the same. |
| MemoryItems.NulForges | internal/memory/fingerprint.go:13-26 | With a NUL in an id two different scopes share every fingerprint. |
| MemoryItems.ReachableWhenSpelled | internal/memory/types.go:108-133 | An accepted scope can be read, and can be written, by somebody if and only if its visibility is spelled as the constant. |
| MemoryItems.CapitalIsStranded | internal/memory/normalize.go:49-62 | A scope with the visibility `Private` is accepted, without an owner, and then nobody can change or delete the item. |
| MemoryIndex.PutKeeps | internal/memory/store.go:181-242 | Writing an item under its id keeps the listing, the inverse fingerprint map, the mirror of the directory and the bound. |
| MemoryIndex.SaveWrote | internal/memory/store.go:181-242 | A save that succeeds wrote the normalised item under a fresh id, or under an id the caller may write; any other leaves the store as it was. |
| MemoryStore.RunKeeps | internal/memory/store.go:114-386 | After any sequence of saves, deletes and touches with any writes failing and restarts anywhere: `ordered` is a duplicate-free listing of the keys, `byHash` is exactly the inverse of the fingerprints, the directory equals `byID`, the size is within its limit, and every restart comes up. |
| MemoryStore.ReopenRebuilds | internal/memory/store.go:114-177 | Reopening a store in good order, in whatever order the directory is read, rebuilds the same items and the same fingerprint map. |
| MemoryStore.LoadedIsIndexed | internal/memory/store.go:114-177 | Whatever a directory holds, edited by hand or not, an index that could be loaded is consistent and every item is in the form saving would have given it. |
| MemoryStore.SaveTouchesOnlyOwn | internal/memory/store.go:181-242 | A save leaves alone every item that the caller's scope may not write. |
| MemoryStore.DeleteTouchesOnlyOwn | internal/memory/store.go:321-344 | A delete leaves alone every item that the caller's scope may not write. |
| MemoryStore.DeletedStaysDeleted | internal/memory/store.go:321-344 | After a successful delete and a restart nobody is given the item. |
| MemoryStore.SavedIsFound | internal/memory/store.go:181-285 | A saved item is given to everybody who may see its scope, before and after a restart. |
| MemoryStore.SavingAgainIsDuplicate | internal/memory/store.go:181-242 | Creating a fact that is already there, in other spacing or case, answers with the item that has it and changes nothing. |
| MemoryStore.DuplicateIsTheSameFact | internal/memory/store.go:181-242 | The item a duplicate is answered with has the caller's own scope, kind and folded content, unless the hash collides or an id holds a NUL. |
| MemoryStore.UpdateKeepsHistory | internal/memory/store.go:181-242 | A successful save changes one item only: it holds the sanitised content and the time of the save, and an update keeps creation time, use count and last use. |
| MemoryStore.TouchCounts | internal/memory/store.go:350-377 | A touch of any list of ids raises the count of each item by the number of its writes that worked, modulo 2^64, stamps it, and changes nothing else. |
| MemoryStore.FileStore.LoadExisting | internal/memory/store.go:114-148 | The loop over the sorted names builds the specified index and fails exactly where the specification does. |
| MemoryStore.FileStore.SaveItem | internal/memory/store.go:181-242 | The method with its removal of the old hash entry and the rollback after a failed write gives the specified state and answer. |
| MemoryStore.FileStore.DeleteItem | internal/memory/store.go:321-344 | File first, then the three indexes; a refusal or a failed removal changes nothing. |
| MemoryStore.FileStore.TouchItems | internal/memory/store.go:350-377 | Each known id is counted and stamped, a failed write skips that one, and the result tells whether one failed. |
| MemoryStore.FileStore.GetItem | internal/memory/store.go:271-285 | An item is given exactly to those who may see its scope; everything else is not found. |
| MemoryStore.FileStore.MakeId | internal/memory/store.go:246-257 | At most eight candidates; the id is usable and not taken. |
| MemorySearch.Search | internal/memory/search.go:12-70 | The answer is exactly the topK greatest of the stored items that the caller sees, whose kind is allowed and whose score is positive, in order. |
| MemorySearch.AnswerIgnoresHistory | internal/memory/search.go:59-70 | There is only one such answer, so it depends on the set of stored items and not on the order they were saved in. |
| MemorySearch.AnswerIsVisible | internal/memory/search.go:12-53 | Nothing the caller may not see is returned. |
| MemoryOutcomes.SpaceSeparates | internal/memory/sanitizer.go:95-112 | A line break, a tab or a space of any kind separates what is before it from what is after it by one plain space. |
| MemoryOutcomes.HiddenVanishes | internal/memory/sanitizer.go:95-129 | A control or invisible rune leaves no trace and separates nothing. |
| MemoryOutcomes.PrivateStaysPrivate | internal/memory/types.go:108-120 | A private item is shown to its owner only, and no item outside its workspace. |
| MemoryOutcomes.WritersSee | internal/memory/types.go:108-133 | Whoever may write an item may see it, and only the owner may write a private one. |
| MemoryOutcomes.OthersNeverSee | internal/memory/search.go:12-53 | In no state does a lookup or a search hand a user another's private item or one of another workspace. |
| MemoryOutcomes.OwnersSee | internal/memory/store.go:271-285 | A stored item is given to its owner, or to anybody in the workspace if it is shared. |
| MemoryOutcomes.MatchesExactly | internal/memory/search.go:12-53 | A query matches exactly the stored items that the caller may read, whose kind was asked for, and whose score is positive. |
| MemoryOutcomes.Ranked | internal/memory/search.go:59-70 | An answer goes from the greater score to the lesser, of equal scores from the newer to the older, then by id; nothing that was left out has a greater score than something that is in it. |
| MemoryOutcomes.GateExactly | internal/memory/normalize.go:15-62 | An item is let through exactly if kind and scope are known, a private one has an owner, its canonical content is not empty, within the limit, no secret and no prompt control, and has keywords; and this is what becomes of its fields. |
| MemoryOutcomes.StoredIsAdmissible | internal/memory/store.go:114-386 | After every run with failures and restarts each stored item is one that the gate lets through, in canonical form, under its own id. |
| MemoryOutcomes.CreateExactly | internal/memory/store.go:181-257 | A creation is answered as duplicate exactly if an item has the same fingerprint, and is written exactly if it is admissible, new, there is room, an id is found within eight tries and the disk works. |
| MemoryOutcomes.UpdateExactly | internal/memory/store.go:181-242 | An update is not found, a duplicate of another item, or written, exactly as said. |
| MemoryOutcomes.DeleteExactly | internal/memory/store.go:321-344 | A delete succeeds exactly if the item is there, is the caller's to write and its file can be removed; then this item is gone and no other. |
| MemoryOutcomes.LoadsExactly | internal/memory/store.go:114-177 | A store comes up exactly if there are not too many files, each holds an admissible item under its own name, and no fact is there twice. |
| SplitText.SplitRunes | internal/channel/telegram/sink.go:222-246 | The loops that shrink the text compute the chunks. |
| SplitText.SplitPartitions | internal/channel/telegram/sink.go:222-246 | The chunks are never empty, never longer than the limit, and together they are the text. |
| SplitText.ChunksEndAtBreaks | internal/channel/telegram/sink.go:222-246 | Every chunk but the last ends at a space or line break, or it has full length and none in its second half; and no later break of the text that was left would have fitted. |
| SplitText.SplitGrows | internal/channel/telegram/sink.go:222-246 | A growing text keeps every chunk but its last one and never has fewer chunks. |
| TelegramSink.RunKeeps | internal/channel/telegram/sink.go:63-220 | In every run of events and finishes, any client calls failing and the client echoing text: the messages held are the chunks of the text but for the last one, and exactly the chunks unless text is waiting. |
| TelegramSink.EveryStepIsSmall | internal/channel/telegram/sink.go:191-220 | Every call makes at most one edit, of the last message held; no message is lost or renumbered and the text never shrinks. |
| TelegramSink.ChatShowsEverything | internal/channel/telegram/sink.go:173-220 | Whenever nothing is waiting, and so once the sink finished, the messages put together are the whole text, none empty and none too long. |
| TelegramSink.EmitEffect | internal/channel/telegram/sink.go:63-141 | One event keeps the invariant, and after the terminal event none is accepted any more. |
| TelegramSink.RequestSink.FlushLocked | internal/channel/telegram/sink.go:191-220 | The edit loop and the send loop make the specified calls in order and stop at the first that fails. |
| TelegramSink.RequestSink.EmitEvent | internal/channel/telegram/sink.go:63-141 | The method accepts, renders and flushes as specified for every event kind. |
| TelegramSink.RequestSink.FinishRun | internal/channel/telegram/sink.go:173-187 | Finishes exactly once, after a flush that succeeded. |
| TelegramDelivery.TextOfTheEvents | internal/channel/telegram/sink.go:63-171 | In every run, whatever the client answers, the text is that of the events that were taken, in order: deltas follow each other directly and every status stands on a line of its own. |
| TelegramDelivery.StatusLines | internal/channel/telegram/sink.go:63-161 | Which events have a status line, that a tool is completed only if it said so, and that an error is shown. |
| TelegramDelivery.AllAreTaken | internal/channel/telegram/sink.go:63-141 | Every event of a run in good order, started first, ended last, numbered upwards, is taken. |
| TelegramDelivery.EverythingIsDelivered | internal/channel/telegram/sink.go:63-246 | With a client that answers every call with the text it was given, after the events of a run in good order and the finish the messages of the chat put together are the rendered text of all the events. |
| TelegramDelivery.NotBeforeTheInterval | internal/channel/telegram/sink.go:63-141 | While text streams nothing is called before the interval since the last flush has passed. |
| TelegramDelivery.ShownWhenDue | internal/channel/telegram/sink.go:63-141 | When it has passed, or as long as nothing has streamed or been flushed, an event with text shows everything at once. |
| TelegramDelivery.NothingIsRepeated | internal/channel/telegram/sink.go:191-220 | A flush of a chat that already shows the text calls nobody. |
| VerifyCommand.QuoteRoundTrip | internal/modeling/stage_verify.go:236-238 | Read by sections 2.2.1 and 2.2.2 of the POSIX.1-2017 Shell Command Language, a quoted text is the single word it is. |
| VerifyCommand.QuotedIsLiteral | internal/modeling/stage_verify.go:236-238 | Wherever a word may be read, a quoted text adds exactly itself to that word, and the reader goes on unquoted. |
| VerifyCommand.CommandWithOperand | internal/modeling/stage_verify.go:211-223 | A plain program name and a quoted operand are read as these two words, whatever the operand is. |
| VerifyCommand.ExitRoundTrip | internal/modeling/stage_verify.go:228-257 | For every output, one that holds the marker included, and every exit code, the reader recovers the code and the output without its trailing newlines from what the wrapper prints. |

## Left out

- File-system detail: temporary files, sync, permissions, and symbolic links with the check that refuses those that
  lead out of the tree. A write, rename or removal is one step that works or leaves everything as it was, and removing a
  staging directory is one step as well.
- SHA-256, JSON, regular expressions for secrets and prompt control, and Unicode case mapping beyond ASCII. Digests,
  encodings and patterns are functions about which nothing is assumed; invalid UTF-8 is not modelled.
- `Pipeline.Advance` as one method: it is the sequence of steps of a client, because steps of other clients come in
  between. One project is modelled at a time, so capacity and listing across projects are not part of the protocol.
- Pipeline.PrepareDrafts: the bound on summaries and the emitted events are not modelled.
- Merge.MergeInferred: registers are values. The source copies the register slice but not the field and interrupt
  slices, so a description that is filled in also appears in the base. After the merge the base is read only for
  counts that no description enters.
- Merge.MergeInferred: the wording of notes is left open; which refusals are noted, and in what order, is modelled.
- Artifacts.StoreRunEffect: the directory of a handle is given cleaned, and a directory that stands where a file is
  expected is not modelled. Handles whose id leads out of the staging directory are excluded there; what they do is
  said by `Artifacts.DiscardExactly`, `Artifacts.CommitExactly` and `Artifacts.DotsRemoveTheProject`.
  Byte totals are unbounded integers, while the source counts in 64 bits.
- PipelineSafety.CommittedForever: the clients hold only handles that `Stage` returned, as in the pipeline.
- Renderer.Render: the C text around the handlers, boilerplate of the device type, build fragments and the
  digit-by-digit layout of constants. Handlers are statements over members with offsets as case labels; what the
  labels expand to is the matter of `Macros`. Names that come from the included headers are not modelled.
- GeneratedDevice.GeneratedDeviceIsTheDevice: accesses are those the memory region passes to the handlers, at the
  register's own offset; how the emulator splits or widens other accesses is its own matter. Labels are taken as the
  offsets they stand for, which is what `Macros.LabelsAreOffsets` proves of compatible names.
- Applier.LandingIsExact: it is stated for trees that nobody else edits between prepare's read of a path and the
  write; `Applier.LateEditIsOverwritten` says what happens otherwise.
- Applier.AtMostOneAttemptWrites: an apply after somebody removed the device file by hand would append again, so the
  removal of a file that an apply wrote is excluded.
- EmitStage.FragmentsLandOnce: the same exclusion.
- MemorySearch.Search: scores are arbitrary reals, so rounding and the formula of the ranker are not modelled, and
  neither are the tokenizer and `List`.
- MemoryStore.RunKeeps: the directory is that of one process with fixed limits; other files in it are ignored, as
  the source ignores names without the suffix.
- TelegramSink.RunKeeps: a client that changes the text it sends, for example by trimming it, is excluded; then the
  flush edits those messages again each time.
- VerifyCommand.ExitRoundTrip: output that the tool cut short before it reached the reader, and a shell that was
  killed before the status line. `tailOf` and the reports are not modelled.
- Model calls, prompts, tool execution, approval, audit, HTTP, configuration, command line, sessions and history:
  input from outside, or branch-by-branch conversions that would only add easy members. Deleting a project is not
  offered by the pipeline and would let ids be reused.

Where the code and what is written about it differ, the model follows the code:

- A redo of a stage is described as always legal; `CanAdvance` refuses it while the stage is marked running, so a
  crashed run needs a reset or the record of a partial landing, which does not look at the status
  (`PipelineSafety.CrashedRunNeedsResetOrLanding`, `PipelineSafety.PartialLandingRecovers`).
- The check of a batch handle is described as keeping it below the staging directory; it compares the directory with
  the joined id and does not look at the id, so `..` passes (`Artifacts.DotsRemoveTheProject`). Handles from `Stage`
  are not affected (`Artifacts.StagedIsContained`).
- Running infer again is described as doing nothing; the stage clamps every text each time, and a text with two
  carriage returns before a line feed changes again (`InferRetry.RetryChangesNothingExactly`).
- The macros of registers, fields, window and type share a namespace in which the validator does not compare them
  (`Macros.MacroNamesDifferExactly`).
- A reset is described as dropping evidence; resetting verify itself keeps it (`LifecycleRuns.ResetDropsEvidence`). A
  reset to an earlier stage drops it in every run of the shipped stages, since verify loads a register representation
  first (`LifecycleRuns.ResetEmptiesEvidence`); the transitions alone do not guarantee it, which
  `LifecycleRuns.EvidenceOutlivesRestart` shows with a verify that needs no input.
- The validator promises registers inside the window; a window below the register size, and field positions near
  the end of an int, pass (`RegIrValidator.GapsAreExactlyTheWraps`, `RegIrValidator.NarrowWindowAccepted`,
  `RegIrValidator.OverflowingFieldAcceptedWhole`).
- Member names are described as unique; escaping a keyword can meet a register of that very name, and names are not
  checked against interrupts, the parent or the region (`Renderer.MembersDifferExactly`,
  `Renderer.StructNamesDifferExactly`, `Renderer.LegalNamesMayClash`).
- A fingerprint is described as free of forged collisions; that needs ids without a NUL
  (`MemoryItems.FingerprintTextInjective`, `MemoryItems.NulForges`).
- Private items are described as always having an owner; the check compares the unfolded spelling
  (`MemoryItems.ReachableWhenSpelled`, `MemoryItems.CapitalIsStranded`).
