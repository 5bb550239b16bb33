# Forge, modelled and proved in Dafny

Forge compiles a project specification into an application and lets the specification evolve
while users keep hand-written extension code beside the generated tree. This project models the
parts that must not go wrong on the way and proves what they are for. `dafny verify
dfyconfig.toml` checks everything.

- **Validity, resolution, deletion** (`Names`, `Spec`, `WellFormed`, `Validator`, `Identity`,
  `Graph`, `Deletion`). `WellFormedSpec` says what a valid specification is with quantifiers
  only. The accumulating validator, with its claimed IDs and duplicate maps, is silent exactly on
  those; the graph builder succeeds exactly on those and leaves nothing unresolved; and the
  separately written deletion gate passes exactly when the validator accepts what is left.
- **Source symbols** (`Normalize`, `Ledger`, `Refactor`, `CodeNames`, `Renames`,
  `BatchRenames`, `KeyClashes`, `Ulid`). The ledger is a
  state machine that never recycles a symbol, over all runs of recording, retiring, minting and
  refactoring. The batch rename keeps specification and ledger in agreement and is a
  fixpoint; every name it gives, and so whether its result is valid, is foretold from its input.
  The encoder with its rolling bit buffer computes the base-32 value, so IDs sort by time.
- **Extension ABI** (`Abi`, `Classify`, `Extensions`, `Authoring`, `Lineage`). The classification
  is proved against its purpose: a program that typechecks keeps typechecking under every
  non-breaking move, with stubs for new contracts, over whole runs of accepted edits. Each
  authoring operation's class is proved, and non-breaking moves keep identities.
- **Fresh names and whole edits** (`FreshNames`, `LiveLedger`, `References`, `Creation`,
  `FieldCreation`, `FieldEdits`, `Removals`). Numbering loops end by the pigeonhole principle;
  adding a resource, a page, a field or a relationship, updating a field and deleting a field or
  a page are followed from input to verdict, each with the exact condition.
- **Files** (`Paths`, `FileSystem`, `Materialize`, `Packages`, `Archive`, `GenPaths`,
  `GoSource`, `Generate`, `GeneratedFiles`, `Samples`, `Ungenerable`). Every file-system call may fail or be the last before a crash, with any partial
  effect it can have. Materializing and archiving are proved over all such fates, with exact
  conditions where the documented guarantee does not hold as stated. The generator's paths are
  distinct and acceptable, so what a valid specification generates can always be materialized;
  when it generates at all is stated exactly.
- **Control plane** (`Revisions`, `Recycling`, `JobQueue`, `BuildWorker`). Transactions of any number of
  clients interleave step by step; every reachable state has linear histories of valid, gated
  revisions. The job queue hands each job out once, and the worker marks each one once.

State that the source changes in place is modelled in place: classes with methods and loops,
each proved against a specification function or predicate, about which the theorems are stated.
Faults, the clock, entropy and the answers of Cloud and of library calls are parameters, so a
theorem over all of them is a theorem over all environments.

## Where code and documentation differ

- Materialize documents a live root that is never half-written. It can be, and the exact
  condition is `NeverTornExactly`: a run that begins with the live root absent and a retired tree
  present may half-remove that tree, fail to install, and put the half-removed tree back.
  `TornAfterThreeRuns` reaches it from a fresh project.
- It documents that re-running recovers a run killed between its renames. A complete copy
  survives exactly when the live or the retired tree is complete at the start
  (`CopySurvivesExactly`); one left in staging alone is cleared first (`LostAfterFourRuns`).
- The archive manifest promises durable associations. They last exactly as long as no manifest
  write is cut off, because the file is rewritten in place (`ManifestExactly`,
  `CutManifestLosesReturned`).
- An added field is classed additive, yet breaks a user type that asserts the generated view
  interface (`AddedFieldBreaksAFake`); `ExtensionSoundness` gives the exact condition.
- An additive verdict has a reason only because ABIs are sorted (`UnsortedAdditiveWithoutReason`).
- The comment on DeleteResource expects its validity check to catch the last resource's removal;
  on a valid head that check never fails.
- A symbol is documented as never handed out twice. The ledger keeps that over its own runs, but
  the control plane rebuilds it from the head, as a comment there admits, so along a project's revisions a deleted
  resource's name comes free (`RecyclableExactly`, `DeletedNameIsReused`); edits alone never
  free one (`EditsKeepNames`).
- A valid specification need not generate: the validator knows nothing of setters, presence bits,
  reference names and keywords (`Generate`, and one witness each in `Ungenerable`).
- Minting and refactoring check code names, not the Go names generated from them, so a scalar can
  meet a relationship's key. A refactor does so exactly when `WouldClash` holds (`RefactorVerdict`),
  the batch rename exactly when a scalar takes a key's name (`NormalizeVerdict`, with an order-free
  safe and failing case in `NormalizeIsSafe` and `NormalizeBreaks`), AddField for every label that
  is a key's name (`KeyLabelNeverFits`); `KeyClashes` calls each on a valid input and gets an
  invalid candidate. A column name is derived without regard to the reserved ones
  (`ReservedLabelNeverFits`).
- The first character of an encoded ID carries three bits, not two. A label that cannot be
  represented moves to the kind's fallback symbol. Derived names can exceed 63 characters.

## Model

| member | source | states |
|---|---|---|
| `Names.ScanDecimalLiteral` | internal/spec/names.go:172-198 | the scanning loop decides exactly the grammar "optional sign, digits with at most one point, at least one digit" |
| `Names.ValidIDShape` | internal/spec/id.go:120-131 | an ID is well formed for a kind exactly when it is that kind's prefix, an underscore and 26 Crockford characters, so its kind can be read back |
| `Names.CrockfordExactly` | internal/spec/id.go:39-41 | a character may stand in an ID exactly when it is a digit or a capital other than I, L, O and U |
| `Validator.Validator.ClaimID` | internal/spec/validate.go:121-135 | with no diagnostic so far, an ID is claimed silently exactly when it is well formed for its kind and no entity of any kind claimed it before |
| `Validator.Validator.ValidateProject` | internal/spec/validate.go:170-199 | adds no diagnostic exactly when the project section is well formed and its ID new |
| `Validator.Validator.ValidateHooks` | internal/spec/validate.go:248-269 | silent exactly when the hooks of a resource are well formed, one an event, with new IDs |
| `Validator.Validator.ValidateFieldType` | internal/spec/validate.go:357-402 | silent exactly when enum values, target and type belong together and the target resource exists |
| `Validator.Validator.ValidateFieldDefault` | internal/spec/validate.go:409-480 | silent exactly when the default is representable for the field type |
| `Validator.Validator.ValidateFields` | internal/spec/validate.go:271-355 | silent exactly when every field is well formed and code names, generated Go names and storage names are unique, whatever the walking order |
| `Validator.Validator.ValidateBehavior` | internal/spec/validate.go:484-517 | silent exactly when every listed field exists and has a type its capability accepts |
| `Validator.Validator.ValidateResources` | internal/spec/validate.go:201-242 | silent exactly when all resources are well formed and unique in code name, storage name and ID |
| `Validator.Validator.ValidatePageConfigMatchesType` | internal/spec/validate.go:625-649 | silent exactly when a page carries only the configuration of its own type |
| `Validator.Validator.ValidateResourcePage` | internal/spec/validate.go:651-720 | silent exactly when the bound resource exists and the table or form configuration fits it |
| `Validator.Validator.ValidateCardOrderBy` | internal/spec/validate.go:803-836 | silent exactly when a recent list orders by a sortable date field, or a count card by nothing |
| `Validator.Validator.ValidateAggregateCards` | internal/spec/validate.go:771-796 | silent exactly when every aggregate names an aggregatable field of an existing resource and a known operation |
| `Validator.Validator.ValidateDashboardPage` | internal/spec/validate.go:722-765 | silent exactly when a dashboard is bound to no resource and all its cards resolve |
| `Validator.Validator.ValidatePages` | internal/spec/validate.go:552-612 | silent exactly when pages are well formed, slugs unique, and at most one form and one detail page bind a resource |
| `Validator.Validator.ValidateNavigation` | internal/spec/validate.go:838-886 | silent exactly when every entry leads to a dashboard or table page or to an http(s) URL |
| `Validator.Validator.ValidateBranding` | internal/spec/validate.go:891-906 | silent exactly when the colour is hexadecimal and the appearance known |
| `Validator.Validate` | internal/spec/validate.go:144-168 | the accumulating validator returns no diagnostic exactly when a spec is there and satisfies the quantified predicate WellFormedSpec |
| `Identity.ValidIsNamed` | internal/spec/validate.go:121-135 | in a valid spec no two entities share an ID, inside a resource (itself, its fields, its hooks) or across resources, and every resource and field has a code name |
| `Deletion.RelationshipBlockers` | internal/compiler/deletion.go:109-137 | the loop collects the relationship blockers that the next three rows describe |
| `Deletion.PageAndCardBlockers` | internal/compiler/deletion.go:138-173 | the page and card blockers, each page's binding before its cards |
| `Deletion.BlockersAreListed` | internal/compiler/deletion.go:109-173 | the collected blockers are one for each place of the candidate that refers to the resource, in order: fields by resource and field, then pages, a page's binding before its cards |
| `Deletion.BlockersExactly` | internal/compiler/deletion.go:119-167 | a relationship blocker is there exactly for a field's ID with its owner's ID where the field belongs to the resource; a page or card blocker exactly for a page bound to it or with a card on it |
| `Deletion.AnalyzeDeletions` | internal/compiler/deletion.go:72-104 | reports exactly the resources the candidate lost, in current order, each with its own ID, code name, label and whether it had hooks, and with every reference the candidate still has to it |
| `Deletion.BlockedDeletions` | internal/compiler/deletion.go:178-186 | keeps exactly the deletions with a blocker, each as often as it stands there and in order |
| `Deletion.GateEqualsValidator` | internal/compiler/deletion.go:72-186 | for a valid spec minus any set of resources, the separately written gate passes exactly when the validator accepts the rest |
| `Deletion.DeleteResource` | controlplane/internal/project/resource.go:132-185 | on a valid head a deletion is refused exactly when the remaining spec is invalid, with every reference to the resource, and otherwise commits the head without that one resource; the diagnostics branch is never taken |
| `Graph.Unwrap` | internal/compiler/graph/graph.go:170-188 | a list without holes is kept entry for entry |
| `Graph.LinkRelationships` | internal/compiler/graph/graph.go:200-221 | succeeds if and only if every belongs_to target exists; then the lists are the edges out of and into each resource, in resource-then-field order |
| `Graph.EveryEdgeOnce` | internal/compiler/graph/graph.go:200-221 | every belongs_to field is in exactly one BelongsTo and one HasMany, and both lists are ordered by resource then field |
| `Graph.ResolveFields` | internal/compiler/graph/graph.go:241-252 | the resolved positions follow the IDs, and nothing is dropped when every ID is a field of the resource |
| `Graph.ScalarFields` | internal/compiler/graph/graph.go:400-408 | exactly the fields that are no relationship, in order |
| `Graph.TableColumns` | internal/compiler/graph/graph.go:307-315 | configured columns win, then the behavior list, then the scalar fields |
| `Graph.ResolveCards` | internal/compiler/graph/graph.go:340-357 | on a valid dashboard every card's resource and order field is found |
| `Graph.ResolveAggregateCards` | internal/compiler/graph/graph.go:361-378 | on a valid dashboard every aggregate's resource and field is found |
| `Graph.BuildPage` | internal/compiler/graph/graph.go:259-294 | every reference of a valid page is resolved where its type needs one |
| `Graph.BuildNavigation` | internal/compiler/graph/graph.go:380-388 | every page entry of a valid navigation points at its page |
| `Graph.Build` | internal/compiler/graph/graph.go:147-168 | a graph is built exactly for a valid spec, and then it is complete: nodes, edges, pages and navigation all resolved |
| `Normalize.SplitWords` | internal/spec/normalize.go:108-136 | the buffered loop yields the words of the text: runs of alphanumerics broken at a lower-to-upper step |
| `Normalize.WordsArePascal` | internal/spec/normalize.go:46-98 | joining the capitalized words equals keeping the alphanumerics and capitalizing each one that follows none |
| `Normalize.NormalizeLabel` | internal/spec/normalize.go:46-98 | the loops compute the word-free specification; the final identifier check never fires |
| `Normalize.NormalIsExported` | internal/spec/normalize.go:46-98 | whatever comes out is an exported Go identifier of letters and digits |
| `Normalize.NormalFailsExactly` | internal/spec/normalize.go:46-98 | it fails exactly on an unfoldable letter or when nothing alphanumeric is left |
| `Normalize.NormalIsIdempotent` | internal/spec/normalize.go:46-98 | normalizing its own output changes nothing |
| `Ledger.NamespacesDiffer` | internal/spec/ledger.go:39-41 | field namespaces of different resources differ from each other and from the resource namespace |
| `Ledger.Ledger.Record` | internal/spec/ledger.go:150-164 | records exactly when the symbol is free in the namespace, live or retired symbols being taken, and nothing recorded is lost |
| `Ledger.Ledger.Tombstone` | internal/spec/ledger.go:170-188 | retires exactly a live symbol, keeping its owner |
| `Ledger.Ledger.TombstoneEntity` | internal/spec/ledger.go:273-290 | retires exactly the live symbols of the entity, in any walking order, and reports exactly those, strictly sorted by namespace and symbol |
| `Ledger.Ledger.Clone` | internal/spec/ledger.go:88-101 | an independent copy with the same entries |
| `Ledger.Ledger.OwnedSymbol` | internal/spec/mint.go:60-67 | finds the least live symbol the entity owns in the namespace, if it owns one |
| `Ledger.Ledger.Mint` | internal/spec/mint.go:55-98 | an owner keeps its least live symbol and nothing changes; otherwise the least-numbered free unreserved variant is recorded, and it fails only without a base or when all 1000 are taken or reserved |
| `Ledger.VariantReads` | internal/spec/mint.go:79-82 | the first name tried is the base, the n-th the base followed by n in decimal |
| `Refactor.Refreeze` | internal/spec/refactor.go:216-225 | the old symbol is retired and the new one recorded for the same entity |
| `Refactor.NormalizedSymbol` | internal/spec/refactor.go:232-258 | the current symbol or the first free variant the bounded search reaches |
| `Refactor.NormalizeIdentifiers` | internal/spec/refactor.go:93-130 | the in-place loops over a cloned spec and ledger compute the batch rename; the inputs stay untouched |
| `Refactor.NormalizeIsIdempotent` | internal/spec/refactor.go:93-130 | a second batch rename changes neither spec nor ledger, because symbols taken stay taken as the ledger grows |
| `Refactor.NormalizeKeepsAgreement` | internal/spec/refactor.go:93-130 | if each entity's code name is its only live symbol before, it is after, and labels, IDs and types are untouched |
| `CodeNames.RefactorCodeName` | internal/spec/refactor.go:42-69 | succeeds exactly for a located entity, a changed, legal, unreserved and free symbol; then just that code name changes and the ledger is refrozen, on copies |
| `CodeNames.RefactorKeepsAgreement` | internal/spec/refactor.go:143-225 | an accepted rename keeps each entity's code name its only live symbol, and the entity is then located under the new one |
| `CodeNames.RunGrows` | internal/spec/ledger.go:150-188 | over any run of recording, retiring, minting and refactoring the ledger only grows |
| `CodeNames.NeverRecycled` | internal/spec/ledger.go:103-188 | over any run a recorded symbol never disappears, changes owner or comes back to life once retired |
| `Renames.RecodedVerdict` | internal/spec/refactor.go:194-209 | a valid spec given other code names is valid exactly when those are legal, unreserved and unique, the generated ones included |
| `Renames.GeneratedClashExactly` | internal/spec/names.go:87-92 | with legal, unreserved and unique code names the generated ones clash exactly when a scalar is called like a relationship's key |
| `Renames.RefactorVerdict` | internal/spec/refactor.go:42-69 | on a valid spec in agreement with its ledger an accepted refactor of a resource keeps the spec valid, and one of a field exactly when no other field then clashes with it over a key's Go name |
| `BatchRenames.ResourceNamesForetold` | internal/spec/refactor.go:107-115 | each resource of the batch rename's result is called by the first numbered name of its own label that it has already, or that the ledger had never seen and no earlier resource is renamed to, or keeps its name if none is left; foretold from labels, code names and the ledger for any spec and ledger |
| `BatchRenames.FieldNamesForetold` | internal/spec/refactor.go:116-127 | so is each field in its resource's namespace, where reserved names are left out too, whenever resource IDs are unique |
| `BatchRenames.FieldsTake` | internal/spec/refactor.go:116-127 | fields renamed one after another, from any table that knows the same names of their namespace, get exactly the names foretold |
| `BatchRenames.NormalizeVerdict` | internal/spec/refactor.go:93-130 | the batch rename keeps such a spec valid exactly when in no resource a scalar takes, so foretold before the call, the Go name of a relationship's key |
| `BatchRenames.NormalizeIsSafe` | internal/spec/refactor.go:82-92 | whatever the ledger and the order of the fields, it does so where no scalar's own or label's names include a key name made of a relationship's own or label's names |
| `BatchRenames.NormalizeBreaks` | internal/spec/refactor.go:232-258 | it does not where a scalar's label makes the key name of a relationship called as its label says, the ledger has never seen that name and no earlier field takes it |
| `KeyClashes.BatchMeetsKey` | internal/spec/refactor.go:93-130 | on a concrete valid spec and agreeing ledger (a relationship Customer, a text Email labelled CustomerID) the batch rename's result is invalid |
| `KeyClashes.NormalizeReturnsInvalid` | internal/spec/refactor.go:93-130 | NormalizeIdentifiers called on that spec and ledger returns an invalid spec |
| `KeyClashes.RefactorMeetsKey` | internal/spec/refactor.go:42-69 | on that spec and ledger the symbol CustomerID is acceptable for Email and makes the spec invalid |
| `KeyClashes.RefactorReturnsInvalid` | internal/spec/refactor.go:42-69 | RefactorCodeName called so succeeds with an invalid spec |
| `Recycling.EditsKeepNames` | controlplane/internal/project/service.go:200-231 | along a stretch of edits in the chain a code name stays with its resource |
| `Recycling.MintableExactly` | controlplane/internal/project/resource.go:205-214 | a code name can be minted on a spec for some label exactly when it is letters and digits after a capital and no resource of that spec has it |
| `Recycling.RecyclableExactly` | controlplane/internal/project/resource.go:199-214 | any name that once lived in the chain can be minted again on the head exactly when it lived in an earlier revision, is letters and digits after a capital, and no resource of the head has it |
| `Recycling.DeletedNameIsReused` | controlplane/internal/project/resource.go:43-185 | adding, deleting and adding under one label all commit, and the second resource is given the name of the first |
| `Ulid.EncodeCrockford` | internal/spec/id.go:84-108 | the 26 characters read in base 32 equal the 128-bit big-endian value, and every write of the loops is in bounds |
| `Ulid.BufferBound` | internal/spec/id.go:84-108 | a buffer of at most 4 bits takes a byte and stays below 12 bits |
| `Ulid.Base32Orders` | internal/spec/id.go:84-108 | on texts of one length string order is numeric order, so the encoding is injective and sorts |
| `Ulid.FirstCharacterThreeBits` | internal/spec/id.go:82-108 | a 128-bit value leaves three bits for the first character, so it is one of eight |
| `Ulid.NewIDAt` | internal/spec/id.go:65-80 | the ID is well formed, its body is the clock modulo 2^48 followed by the entropy, and it fails exactly when the entropy source does |
| `Ulid.IDsSortByTime` | internal/spec/id.go:65-108 | IDs of one kind with clocks below 2^48 sort by millisecond, and equal IDs have equal clocks and entropy |
| `Abi.ResourceSurface` | internal/compiler/gen/abi.go:53-90 | one row a resource, failing exactly on a field type or hook event without a Go counterpart |
| `Abi.GoTypeGroups` | internal/compiler/gen/fieldtype.go:28-50 | two kinds have one Go type exactly when they are the same, both text-like (string, text, enum), or both points in time (date, datetime) |
| `Abi.AccessorsDiffer` | internal/compiler/gen/fieldtype.go:60-84 | two fields of one code name have one accessor exactly when their kinds are so related |
| `Abi.ContractsDiffer` | internal/compiler/gen/hooks.go:25-43 | a hook contract of one event is the same for two resources exactly when they have one code name |
| `Authoring.AccessorsTell` | internal/compiler/gen/abi.go:53-90 | in the row of a resource of a valid spec every field has an accessor called as its code name says, and two return one Go type exactly when their kinds are so related |
| `Abi.ExtensionABI` | internal/compiler/gen/abi.go:53-90 | the rows sorted by stable ID, failing exactly on an unmappable resource |
| `Abi.DiffFields` | internal/compiler/gen/abi.go:205-224 | collects exactly the lost or retyped accessors as breaking and the new ones as additive |
| `Abi.DiffHooks` | internal/compiler/gen/abi.go:226-252 | a changed contract is breaking, a first one additive |
| `Abi.ClassifyTransition` | internal/compiler/gen/abi.go:162-203 | neutral exactly for equal ABIs, breaking exactly when some current contract is lost or changed, with exactly the matching reasons |
| `Abi.BreakingMeansLost` | internal/compiler/gen/abi.go:162-252 | there is a breaking reason exactly when some contract is not kept |
| `Abi.NonBreakingIsPartialOrder` | internal/compiler/gen/abi.go:162-252 | non-breaking moves between canonical ABIs are reflexive, transitive and antisymmetric |
| `Abi.AdditiveHasReason` | internal/compiler/gen/abi.go:162-203 | between canonical ABIs an additive verdict carries a reason |
| `Abi.UnsortedAdditiveWithoutReason` | internal/compiler/gen/abi.go:162-203 | two orders of the same rows classify as additive with no reason: sorting is what rules it out |
| `Abi.CanonicalByIndex` | internal/compiler/gen/abi.go:254-260 | a sorted ABI is determined by its index by ID |
| `Classify.ValidAbi` | internal/compiler/gen/abi.go:53-90 | the ABI of a valid spec is strictly sorted, has one type name a resource, and holds exactly each resource's row under its ID |
| `Classify.ClassifyEdit` | internal/compiler/abi.go:37-55 | fails exactly when a spec is invalid; otherwise gives the class of the move between the two surfaces |
| `Classify.FingerprintIsOrderFree` | internal/compiler/gen/abi.go:92-105 | valid specs have one fingerprint exactly when they declare the same rows, in whatever order and with whatever labels or pages |
| `Classify.RowIsOrderFree` | internal/compiler/gen/abi.go:53-90 | permuting a resource's fields or hooks leaves its row, so the fingerprint, as it was |
| `Extensions.ExtensionSoundness` | internal/compiler/gen/abi.go:162-252 | after a non-breaking move and fresh stubs a typechecking program still typechecks, if and only if every asserted view implementation has the added accessors |
| `Extensions.NoFakesNoBreakage` | internal/compiler/gen/hooks.go:179-219 | a program that implements no generated view itself keeps typechecking under every non-breaking move |
| `Extensions.AddedFieldBreaksAFake` | internal/compiler/gen/abi.go:205-224 | an added field, classed additive, breaks a user type asserted to implement the view |
| `Extensions.ValidateCandidate` | internal/compiler/candidate.go:162-215 | non-breaking moves are accepted without a toolchain; a breaking one exactly when the assembled workspace typechecks |
| `Extensions.UneditedCodeKeepsTypechecking` | internal/compiler/candidate.go:162-215 | over every run of accepted edits unedited user code keeps typechecking and no implementation is changed |
| `Authoring.TransitionByResource` | internal/compiler/gen/abi.go:162-203 | between valid specs a move is non-breaking exactly when each resource is kept by the one with its ID |
| `Authoring.EditClass` | internal/compiler/gen/abi.go:162-252 | editing one resource is neutral exactly when its row is unchanged and breaking exactly when its row is not kept, whatever else changes |
| `Authoring.ViewEditsAreNeutral` | controlplane/internal/project/page.go:103-224 | page, navigation and branding edits never reach the ABI |
| `Authoring.RelabelIsNeutral` | controlplane/internal/project/resource.go:87-110 | new labels, behavior or table name are neutral |
| `Authoring.AddFieldIsAdditive` | controlplane/internal/project/field.go:43-81 | a field or relationship added between valid specs is additive |
| `Authoring.DeleteFieldIsBreaking` | controlplane/internal/project/field.go:130-152 | dropping a field is breaking, so it is never committed by the gate |
| `Authoring.UpdateFieldClass` | controlplane/internal/project/field.go:87-124 | an updated field is neutral exactly when its kind stays, stays text-like or stays a point in time, and breaking otherwise |
| `Authoring.RefactorResourceIsBreaking` | internal/spec/refactor.go:42-69 | refactoring a resource's code name is breaking |
| `Authoring.RefactorFieldIsBreaking` | internal/spec/refactor.go:42-69 | refactoring a field's code name is breaking |
| `Authoring.HookEditClass` | internal/compiler/gen/abi.go:226-252 | changing hooks is breaking exactly when the resource had some and the set of events changes |
| `Authoring.AddResourceIsAdditive` | controlplane/internal/project/resource.go:43-82 | a resource added between valid specs is additive |
| `Authoring.DeleteResourceIsBreaking` | controlplane/internal/project/resource.go:132-185 | deleting a resource is breaking, which is why it bypasses the gate |
| `Lineage.CheckLineage` | internal/spec/lineage.go:59-118 | the delta lists each identity one spec has and the other lacks, with its own kind, label and storage name, once and in authored order; discontinuous exactly when both lists are non-empty, names playing no part |
| `Lineage.NonBreakingIsContinuous` | internal/spec/lineage.go:59-86 | a non-breaking move between valid specs removes no identity and is never discontinuous |
| `FreshNames.FoldIsName` | controlplane/internal/project/resource.go:243-264 | a folded label is empty exactly without a usable character, and otherwise words joined by single separators that start with a letter |
| `FreshNames.FoldKeepsNames` | controlplane/internal/project/page.go:274-295 | folding leaves a name that already is one unchanged |
| `FreshNames.FirstFree` | controlplane/internal/project/resource.go:232-236 | the numbering loop stops on the first unused name within one more step than there are names taken |
| `FreshNames.CandidateReads` | controlplane/internal/project/resource.go:232-236 | the first name tried is the base with its ending, the n-th has n in decimal between them |
| `FreshNames.Pigeonhole` | controlplane/internal/project/resource.go:232-236 | if the first n numbered names are all taken, at least n names are |
| `FreshNames.DeriveStorageName` | controlplane/internal/project/resource.go:218-237 | an unused table name from the plural, the label or a fallback; valid exactly when it has at most 63 characters |
| `FreshNames.DeriveFieldStorageName` | controlplane/internal/project/field.go:186-202 | an unused column name; a storage identifier exactly when it has at most 63 characters (whether it is reserved is decided in AddField) |
| `FreshNames.DeriveForeignKeyName` | controlplane/internal/project/relationship.go:90-106 | an unused name ending in _id; valid exactly when it has at most 63 characters |
| `FreshNames.DerivePageSlug` | controlplane/internal/project/page.go:252-268 | an unused slug; valid exactly when it has at most 63 characters |
| `Creation.BootstrapIsValid` | controlplane/internal/project/resource.go:190-197 | the first specification of a project is valid exactly when the project's ID, name and slug are |
| `LiveLedger.ResourceLedger` | controlplane/internal/project/resource.go:205-214 | the rebuilt ledger holds exactly the code names of the head's resources, each live and owned by the first resource that has it |
| `LiveLedger.FieldLedger` | controlplane/internal/project/field.go:173-182 | the same for a resource's fields in their own namespace |
| `LiveLedger.EachOwnsItsOwn` | controlplane/internal/project/resource.go:205-214 | where code names are unique every entity owns its own, live |
| `References.EditedResources` | internal/spec/validate.go:201-242 | when every reference still resolves to the same kind, editing resources leaves a spec valid exactly when the resources and the IDs are |
| `Creation.AddResource` | controlplane/internal/project/resource.go:43-82 | the candidate is the head with one more resource, labelled as given, without fields, everything enabled; on a valid head with a fresh ID it is valid exactly when the derived table name fits 63 characters, and then additive; no candidate only for a blank label or 1000 taken variants |
| `Creation.AddPage` | controlplane/internal/project/page.go:50-79 | on a valid head the candidate is valid exactly when the slug fits, the bound resource exists and a form or detail page is its first; the move is neutral |
| `FieldCreation.MintFieldSymbol` | controlplane/internal/project/field.go:59-63 | the first variant of the label's symbol that no field has and that is not reserved |
| `FieldCreation.AddField` | controlplane/internal/project/field.go:43-81 | the candidate is the head with one more field at the end of the resource, made as the input says; on a valid head with a fresh ID it is valid exactly when the derived column fits and is not reserved, no field generates the minted name, and type and default agree; and then additive |
| `FieldCreation.AddRelationship` | controlplane/internal/project/relationship.go:43-86 | the candidate is the head with one more belongs_to field, made as the input says; on a valid head with a fresh ID it is valid exactly when the key column fits and no field generates the key's Go name; and then additive |
| `FieldCreation.ReservedLabelNeverFits` | controlplane/internal/project/field.go:186-202 | a label that folds to a reserved column always gets that column, so no valid candidate comes from it |
| `FieldCreation.IDLabelIsReserved` | controlplane/internal/project/resource.go:243-264 | the label "ID" is such a label |
| `FieldCreation.KeyLabelCollides` | controlplane/internal/project/field.go:59-76 | a scalar labelled with the key name of a relationship is minted that name and collides with the key |
| `FieldCreation.KeyLabelNeverFits` | controlplane/internal/project/field.go:43-81 | so on every valid head where no field has the name, the candidate AddField makes of such a label is invalid |
| `KeyClashes.AddFieldReturnsInvalid` | controlplane/internal/project/field.go:43-81 | AddField called on a concrete valid head with the label CustomerID makes an invalid candidate |
| `FieldCreation.CustomerIDIsNormal` | internal/spec/normalize.go:46-98 | the label "CustomerID" is its own symbol, as that collision needs |
| `FieldEdits.ReplacedExactly` | internal/spec/validate.go:271-836 | whatever becomes of a resource that keeps its names, the spec stays valid exactly when the new one is valid and has what tables, forms, recent lists and aggregates ask of it |
| `FieldEdits.UpdateField` | controlplane/internal/project/field.go:87-124 | the candidate changes that field alone, as the input says; on a valid head it is valid exactly when type and default agree, every capability list naming the field accepts the type, and it is a date where a recent list orders by it; then neutral when the kind stays, stays text-like or a point in time, and otherwise breaking |
| `Removals.Remove` | controlplane/internal/project/page.go:297-305 | the loop keeps every entry but those of the ID, in order |
| `Removals.DeleteField` | controlplane/internal/project/field.go:130-152 | on a valid head the candidate is valid exactly when no capability list, table, form, recent list or aggregate names the field; then breaking |
| `Removals.DeletePage` | controlplane/internal/project/page.go:206-224 | on a valid head the candidate is valid exactly when no navigation entry points at the page; always neutral |
| `Paths.AcceptedExactly` | internal/compiler/materialize.go:187-203 | the guard accepts exactly the paths under a root without backslash whose every element names something |
| `Paths.AcceptedStaysBelow` | internal/compiler/materialize.go:169-177 | an accepted path other than a root is staged strictly below it |
| `Paths.TouchedApart` | internal/compiler/materialize.go:155-165 | the two roots and their four hidden siblings lie apart from each other and from the extension and archive trees |
| `FileSystem.RemovalAllows` | internal/compiler/materialize.go:91-100 | over all fates, a removal that does not succeed can leave exactly the subtrees of the tree, and one that succeeds leaves nothing |
| `FileSystem.RenameAllOrNothing` | internal/compiler/materialize.go:129-140 | both places stay, or the whole tree is at the destination and nowhere else; it never replaces a directory with files |
| `FileSystem.WriteTouchesOne` | internal/compiler/materialize.go:103-114 | every other file of the directory is as it was and no other appears, whatever becomes of the write |
| `FileSystem.InterruptedWriteAllows` | internal/compiler/materialize.go:110-114 | an unsuccessful write can leave any content in its file |
| `FileSystem.CopyAllows` | internal/compiler/archive.go:201-229 | a successful copy is the same tree; an unsuccessful one can leave anything at the destination |
| `Materialize.StageAllEffect` | internal/compiler/materialize.go:93-119 | pass 1 touches no live or retired tree, and when it succeeds every staging tree is exactly the new generation |
| `Materialize.SwapIsAtomic` | internal/compiler/materialize.go:127-152 | whatever stops a swap, the live root stays, is absent or is the new tree, unless it began absent with a retired tree; the old tree is kept until the new one is live |
| `Materialize.HoldsExactly` | internal/compiler/materialize.go:103-114 | what a run stages is the one tree that has a file exactly where a given file belongs below the root, each with the content of the last file given for its place |
| `Materialize.Converges` | internal/compiler/materialize.go:64-153 | a run without faults installs exactly the given files, each with its content, and leaves no sibling, from any state |
| `Materialize.DoneMeansInstalled` | internal/compiler/materialize.go:127-152 | a run that reports success has installed every root it has files for, each file with its content, whatever best-effort call failed |
| `Materialize.NeverTornExactly` | internal/compiler/materialize.go:120-153 | no interruption of a run tears a live root, if and only if the run does not begin on a root that is absent while its retired sibling exists and has files to install |
| `Materialize.CopySurvivesExactly` | internal/compiler/materialize.go:120-153 | every interruption leaves some complete generation, if and only if the live or the retired tree is one at the start |
| `Materialize.RunsNeverTear` | internal/compiler/materialize.go:64-153 | over any number of failed and interrupted runs no live root is ever torn, as long as none begins mid-swap |
| `Materialize.TornAfterThreeRuns` | internal/compiler/materialize.go:129-147 | three runs of the same files, one killed between its renames and one failing, leave a live root with nothing in it |
| `Materialize.LostAfterFourRuns` | internal/compiler/materialize.go:93-135 | three interruptions after a good run leave no generation in any slot |
| `Materialize.Materialize` | internal/compiler/materialize.go:64-153 | an empty or misplaced file set is refused before the disk is touched; otherwise the six directories change as the run says and nothing else does, and on success each root with files holds exactly those, each with its content |
| `Packages.PackageIsElement` | internal/compiler/gen/gen.go:85-87 | a folded code name is one lower-case path element without dot or slash |
| `Archive.MoveDir` | internal/compiler/archive.go:180-195 | rename, or copy and remove across devices, with the fallback's clean-up; only the two ends change |
| `Archive.MoveConserves` | internal/compiler/archive.go:180-195 | whatever interrupts a move, the whole tree is at one of its ends; when it succeeds, at the destination only |
| `Archive.AllConserves` | internal/compiler/archive.go:73-130 | at every point of a batch each tree is where it was or complete in its archive, and no other tree, archived ones above all, is written over |
| `Archive.ManifestExactly` | internal/compiler/archive.go:151-175 | a readable manifest becomes unreadable exactly when a write of it is cut off; otherwise old entries stay in front, returned ones follow, and at most one more is there |
| `Archive.CutManifestLosesReturned` | internal/compiler/archive.go:171-173 | a cut-off manifest write loses an association already returned |
| `Archive.DoneArchivesAll` | internal/compiler/archive.go:73-130 | a successful batch moved every source tree, returned one entry each in order and appended exactly those |
| `Archive.EntriesTell` | internal/compiler/archive.go:77-130 | however a batch ends, each entry names a deleted resource that had code, in order, and the tree that stood at its original path is the one at its archived path and no longer at the original; a batch that ends well returns one for each |
| `Archive.FaultlessIsDone` | internal/compiler/archive.go:73-130 | without faults and with free destinations a batch succeeds |
| `Archive.ManifestFile.Record` | internal/compiler/archive.go:151-175 | reads, extends and rewrites the manifest, refusing an unreadable one |
| `Archive.ArchiveExtensions` | internal/compiler/archive.go:73-146 | a missing directory or bad key is refused untouched; otherwise trees, manifest, entries and outcome are those of the batch, and what the entries tell is so on the disk |
| `GenPaths.PascalReadsBack` | internal/compiler/gen/frontend.go:677-692 | pascalSlug has a left inverse on valid slugs |
| `GenPaths.ComponentsDiffer` | internal/compiler/gen/frontend.go:73-163 | pages of any types share a component name only if slug and type are equal |
| `GenPaths.RenderSlug` | internal/compiler/gen/frontend.go:677-692 | the loop over the parts writes the component segment |
| `Generate.ValidatePackages` | internal/compiler/gen/model.go:79-108 | passes exactly when every folded package is usable and no two resources share one |
| `Generate.ValidateNames` | internal/compiler/gen/model.go:188-216 | passes exactly for an unreserved code name and unique, unreserved generated field names |
| `Generate.ValidFieldsPass` | internal/compiler/gen/model.go:200-215 | a valid spec never trips the field-name guard |
| `Generate.PageLoop` | internal/compiler/gen/frontend.go:73-163 | emits one component a page of its type; the component guard never fires on distinct slugs |
| `Generate.PathsAreSound` | internal/compiler/compile.go:65-104 | the paths of a valid spec that passes the package guard are pairwise distinct and each accepted by Materialize |
| `GeneratedFiles.FilesExactly` | internal/compiler/compile.go:65-104 | a path is generated exactly when it is one of three fixed files, a file of a resource's package (hooks, admin and field references only where there are any), or the component of a page (a form only where its resource can be created or updated) |
| `GoSource.ValidateMutationNames` | internal/compiler/gen/mutation.go:159-190 | passes exactly when no method and no struct field of the mutation surface is claimed twice |
| `GoSource.MutationNamesExactly` | internal/compiler/gen/mutation.go:159-190 | on unique exported names that is exactly when no field is called like another's setter or presence bit |
| `GoSource.ValidateFieldRefNames` | internal/compiler/gen/extension.go:164-175 | passes exactly when no field's reference is called like the model or a type generated beside it |
| `GoSource.FieldRefExactly` | internal/compiler/gen/gen.go:123-144 | of the reserved package-level symbols a reference can only meet those that begin with the code name |
| `GoSource.ImportExactly` | internal/compiler/gen/wiring.go:47-59 | an import below the module parses exactly when the module path does |
| `Generate.CheckResource` | internal/compiler/gen/mutation.go:63-139 | the guards and the parse of one resource pass exactly when the stage has nothing to refuse |
| `Generate.GenerableExactly` | internal/compiler/compile.go:65-104 | every stage passes exactly when packages, code names, field names, date defaults and module path meet the conditions stated on the spec |
| `Generate.Generate` | internal/compiler/compile.go:65-104 | for a valid spec generation succeeds exactly when it is generable: usable distinct package folds, no reserved code name, no field called like another's setter or presence bit, none kept under a keyword, no reference called like a generated type, date defaults a tag can carry (with Go's layouts all of them), a module path the parser takes; neither duplicate guard ever fires |
| `Ungenerable.SetterIsRefused` | internal/compiler/gen/mutation.go:159-190 | a valid spec with fields Email and SetEmail passes the package guards and is refused |
| `Ungenerable.ViewIsRefused` | internal/compiler/gen/extension.go:164-175 | so is one with a resource Field and a field View |
| `Ungenerable.KeywordIsRefused` | internal/compiler/gen/mutation.go:63-139 | so is one with a field Type, whose value would be kept under a keyword |
| `Generate.GeneratedIsMaterializable` | internal/compiler/compile.go:65-104 | what a valid spec generates is a file set Materialize accepts, with files for both roots |
| `Revisions.StepKeepsInv` | controlplane/internal/project/service.go:166-193 | every step of any client keeps the invariant of rows, chains, locks and open transactions |
| `Revisions.RunKeepsInv` | controlplane/internal/project/service.go:166-318 | it holds in every state of every interleaving from an empty database |
| `Revisions.LinearRevisions` | controlplane/internal/project/service.go:243-318 | parents from a project's head visit each of its committed revisions exactly once and end at none, every spec valid with its own hash |
| `Revisions.NoForks` | controlplane/internal/project/service.go:287-318 | no two committed revisions of a project share a parent |
| `Revisions.AdjacentRevisions` | controlplane/internal/project/service.go:200-231 | adjacent revisions are a non-breaking move apart unless the later one was created whole or deleted a resource |
| `Revisions.EditsKeepExtensions` | controlplane/internal/project/service.go:200-231 | along a stretch of edits in the chain extension code keeps typechecking with stubs only |
| `Revisions.EditsAreContinuous` | controlplane/internal/project/service.go:200-231 | the move to an edit's revision is never an identity discontinuity |
| `Revisions.Service.InsertRevisionLocked` | controlplane/internal/project/service.go:287-318 | appends under the parent read in the lock and advances the head, or leaves every row as it was |
| `Revisions.Service.SubmitCandidate` | controlplane/internal/project/service.go:144-231 | invalid and breaking candidates are reported and nothing is appended; a committed one is valid, gated and appended to the head it was built from |
| `Revisions.Service.CreateRevision` | controlplane/internal/project/service.go:243-279 | an invalid spec never becomes a revision; a valid one is appended |
| `Revisions.Service.DeleteResource` | controlplane/internal/project/resource.go:132-185 | blocked exactly when the remaining spec is invalid, committed otherwise, never reported as malformed |
| `Revisions.Service.Head` | controlplane/internal/project/service.go:324-348 | the stored row the project points at, which no other revision descends from, if the project has any; the chain is never found corrupt |
| `JobQueue.StepKeepsInv` | controlplane/internal/cloudbuild/service.go:76-166 | locked rows are queued, and a job was handed out once exactly when it is no longer queued |
| `JobQueue.RunsAreSound` | controlplane/internal/cloudbuild/service.go:76-166 | over every interleaving status only moves forward, terminal rows never change and hand-outs are not forgotten |
| `JobQueue.HandedOnce` | controlplane/internal/cloudbuild/service.go:76-96 | two hand-outs of one job, ever, are the same hand-out to the same worker |
| `JobQueue.LeastFromMeaning` | controlplane/internal/cloudbuild/service.go:79-82 | the query finds the least queued unlocked ID, or none exists |
| `JobQueue.JobStore.Enqueue` | controlplane/internal/cloudbuild/service.go:35-50 | a new queued row, refused exactly without a Cloud project |
| `JobQueue.JobStore.SelectForUpdate` | controlplane/internal/cloudbuild/service.go:79-82 | locks the least queued row no open claim holds, and finds none exactly when there is none |
| `JobQueue.JobStore.Claim` | controlplane/internal/cloudbuild/service.go:76-96 | hands the least such job to the worker as running, or leaves every row as it was |
| `JobQueue.JobStore.Apply` | controlplane/internal/cloudbuild/service.go:137-166 | an update lands exactly on a running row and never on a queued or terminal one |
| `BuildWorker.ChangesMeaning` | controlplane/internal/buildworker/worker.go:208-213 | the reflected statuses are the observed ones with consecutive repeats removed |
| `BuildWorker.EndsOnce` | controlplane/internal/buildworker/worker.go:198-227 | what Cloud answers determines how tracking ends |
| `BuildWorker.Worker.Track` | controlplane/internal/buildworker/worker.go:198-227 | ends within its budget of polls, on the first terminal status, error, deadline or cancellation, having reflected each change |
| `BuildWorker.ProcessedMarksOnce` | controlplane/internal/buildworker/worker.go:140-194 | every path makes exactly one terminal mark, last, and it is success exactly when the build reached "succeeded" in time |
| `BuildWorker.MarkDecides` | controlplane/internal/cloudbuild/service.go:155-166 | whichever writes are lost, the row ends as the one mark says, or running when that write is lost |
| `BuildWorker.ReflectedRow` | controlplane/internal/cloudbuild/service.go:105-110 | a tracked job's row shows the status written to it last |
| `BuildWorker.ProcessedRow` | controlplane/internal/buildworker/worker.go:140-194 | a processed job ends succeeded exactly when its build did and the mark landed, with Cloud's digest and last status; a failed one carries the reason of its path, and every one the ID of its build |
| `BuildWorker.Worker.Process` | controlplane/internal/buildworker/worker.go:140-194 | makes exactly the writes its path prescribes, and the row is what they made of it |
| `BuildWorker.Worker.RunOnce` | controlplane/internal/buildworker/worker.go:128-138 | works the least claimable job, if any, to its outcome, with what its row then says of the build, and touches no other row |
| `BuildWorker.Worker.Drain` | controlplane/internal/buildworker/worker.go:264-277 | works every claimable job, oldest first, each to its outcome, until none is left, a claim fails or the worker is stopped |

## Left out

- Diagnostics keep a code and an entity; paths, message texts and their exact number are not modelled, only whether there are any.
- Graph pointers are positions in sequences, so aliasing between graph nodes is not captured.
- Transition reasons are a set of structured values, not sorted strings; SHA-256 and the JSON encodings are taken as injective, so a fingerprint is the ABI and a stored specification is the specification.
- time.Parse, unicode.IsLetter and unicode.ToLower are parameters; strings.ToLower is character-wise, and ASCII for package names.
- Shifts and masks of the ID encoder are written as division, multiplication and remainder.
- Template text and the bodies of generated files; that generated Go compiles is not claimed. Of go/format only what can fail on a valid specification is modelled: a keyword as a field and an illegal import path, the legal characters being a parameter. Executing a template is taken not to fail.
- GoSource.DateTagsFit: part of the condition for generating only because the answers of time.Parse are a parameter. With the RFC 3339 and date-only layouts a default the validator accepts holds no semicolon, quote, backquote, backslash or control character, so it always holds there and is no failure of the code.
- Programs are what the generated packages let user code say: uses of accessors, mutators, field references and type names, view implementations and hook implementations; other Go code is not represented.
- A generated path equal to a root, and a path that is both a file and a directory, are not represented; neither is ever generated. Symlinks, file modes, and directories that hold no file are not represented.
- Archive.ArchiveExtensions: the manifest is one value a key and its path never meets an archived tree; the deleted code names are folded as ASCII identifiers; a source that is no directory is one of the fates.
- The candidate workspace's assembly and the toolchain's answer are parameters of ValidateCandidate.
- Revisions.Service.SubmitCandidate: every authoring operation is a function from the locked head to a candidate; audit rows, timestamps, organizations, pruning by foreign keys and creation of projects beyond their row are not modelled. A locked row makes a caller wait, so the methods are stated for the moment the lock is granted; the interleavings are in the step relation.
- Creation.AddResource: the head and the bootstrap of a project without revisions are one parameter.
- BuildWorker.Worker.Drain: the outer ticker loop of Run, which repeats it, is not modelled, nor the interleaving of enqueuers within one drain; interleavings are in the step relation of JobQueue.
- The export queue and worker, which repeat the build queue with fewer fields.
- HTTP routes, Cloud and GitHub clients, OAuth, the React editor and its TypeScript, organizations, invitations and version parsing: input and output, or single-branch facts.
