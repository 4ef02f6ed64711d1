# Rex verification model

A Dafny model of the parts of the Rex compiler whose correctness spans several
functions: the generated instance serializer, the lowering of derived-feature
expressions to Rust, designed state machines and their statecharts, decision and
containment graphs, authorization, deployments, case plans, name suggestions and
the project snapshot. Each part is a small group of modules:

| part | modules |
|---|---|
| saving and loading instances, and the independent instance check | `Ids`, `JsonTree`, `Schemas`, `Saving`, `Loading`, `SavedForm`, `Sorting`, `RoundTrip`, `Documents`, `Places`, `LoadExact`, `SaysOnce`, `DocumentLoading`, `Serializer`, `InstanceCheck`, `CheckedSave` |
| lowering expressions to Rust | `Expr`, `RustTarget`, `RustRules`, `Lowering`, `LoweringTypes`, `LoweringRules`, `TypePreservation`, `TypeNecessity`, `EvalRules`, `LoweringCorrect`, `LoweringFailures`, `LoweringLimits`, `LoweringWalk` |
| designed machines and statecharts | `Machines`, `MachineValidator`, `MachineRuns`, `Domains`, `DesignArtifacts`, `Statecharts` |
| graph analyses | `Decisions`, `Aggregates` |
| authorization | `Conditions`, `Authorization` |
| deployments, name suggestions | `DeployPolicies`, `Deployments`, `DeployFiles`, `EditDistance` |
| case plans, project snapshot | `CasePlans`, `CaseEmission`, `CaseRebuilt`, `Project` |

`dafny verify dfyconfig.toml` checks everything.

Code that the source writes as updates in place is modelled by classes and methods
with loops (`Serializer.Saver` and `Serializer.Loader`, `InstanceCheck.Checker`,
`LoweringWalk.Lowerer`, `Decisions.CycleSearch`, `CasePlans.CaseLowering`,
`CaseEmission.CaseDefinitionEmitter`, `Project.Snapshot`, and the loops of
`MachineValidator`, `Domains`, `DesignArtifacts`, `Statecharts`, `Aggregates`,
`Authorization`, `Deployments`, `DeployFiles` and `EditDistance`). Their
postconditions either state the property itself or equate the result with a
function, and the theorems are about that function.

## What the proofs say about the code

- **Round trip** (`crates/rex-backend-rust/src/serialize.rs:29` promises identity).
  On document trees: for every resource of every schema, loading a saved document
  succeeds unless a many-valued attribute holds a number that is not finite, and
  then gives the resource with repeated references dropped and container fields
  rebuilt. It is the same resource exactly when every number is finite, no reference list repeats
  an entry, and each container field names the highest-numbered object of its
  target class whose containments list this one (and nothing when there is none).
- **Loading any document.** `Documents` says of a document alone when it is acceptable
  and which resource it says: an object for each object it holds, arenas in sort-key
  order and then document order, attributes by their wire form, references in the
  order the objects are first named, container fields at the last object that
  contains this one. Loading returns a resource exactly when the document is
  acceptable and says that resource (`DocumentLoading.LoadsExactly`), and a document
  says at most one.
- **Sort order** (`serialize.rs:895-896` says objects with non-canonical ids come
  last). The key is an `Option`, and an absent key is the least: they come first.
- **Expression lowering.** Take hygienic trees: no `let` or lambda name captures a
  variable in scope or `res`, and no required single containment or cross reference
  is read, which structs store as an `Option`. The lowering succeeds with code of
  the right Rust type exactly when the tree avoids these: a `null` outside
  comparisons and `?:`, a name Rust cannot spell (`r#self` and its like, `_`, and
  reserved words the emitter does not escape, such as `try`), an integer literal
  left of a `long`, a negated literal beside a `long`, `size()` directly left of
  `<`, a method written after a dereference, and a `?:` default not of the type
  inside its value. If the operands that a comparison with `null` drops avoid them
  too, the code evaluates to the value of the tree; and if nothing is dropped and
  no `size()` is taken, the code has a value only where the tree has one.
  `LoweringLimits` has a family of trees for each of the surprising ones and for
  each part of the hygiene.
- **Designed machines.** The problems reported are exactly those that hold. The
  comment at `crates/rex-driver/src/ddd.rs:2519-2520` says positions stay aligned
  when a duplicate edge is dropped; they do not (`DroppedRowShiftsGuards`), but
  such a machine is never published, so every published edge has its own guard.
  The comment at `ddd.rs:1781-1783` says the diagnostics of a domain that did not
  lower already block the artifact. They do not when a file that domain imports
  with `import sigil` fails: its model is dropped, the errors are appended after
  the artifact is made, and the states of every machine go unchecked against their
  enum (`UnparsedImportPublishesNonLiterals`). The literal check is guaranteed
  exactly when no imported domain is blocked by such a failure (`LiteralsExactly`).
- **Agent manifests.** Manifests pool the blocks of an authorization model, policies
  are generated block by block. The two agree when every block that grants
  something declares all actors with the parents they have in the pool, as a single
  block with distinct names does; otherwise a manifest can list a tool that no
  policy permits (`ToolWithoutPolicy`).
- **Cedar conditions.** The printed text determines the condition. It is a Cedar
  expression exactly when the condition does not divide: the emitter writes `/`,
  which Cedar does not have.
- **Policies.** A well-typed policy evaluates to the exact answer or fails where
  that is unset, undefined or leaves the 64-bit range, except that some constructs
  typecheck and are then refused by the evaluator: text concatenation, comparison
  of whole components or with `null`, `if`, `let`, `?:`, lists and calls. `&&` and
  `||` evaluate both operands. An artifact is published only if every deployment of
  the file passes.
- **Case plans.** Rebuilding the plan overwrites an item exactly when one has the
  name of the root (`<case>_plan`). `auto` is documented as an explicit FALSE manual
  activation rule (`docs/CMMN.md:107-110`); what is emitted for it is the rule TRUE,
  so nothing starts by itself (`NothingStartsByItself`).

## Model

| member | source | states |
|---|---|---|
| Ids.RSplitOnce | crates/rex-backend-rust/src/serialize.rs:218 | splits at the last occurrence of the character, and only if there is one |
| Ids.ParsePrintNat | crates/rex-backend-rust/src/serialize.rs:272 | the ordinal an id is written with reads back as the same number |
| Ids.SortKeyOfInstanceId | crates/rex-backend-rust/src/serialize.rs:216-221 | the sort key takes every canonical id apart into the singular and ordinal it was made from, whatever characters the singular has |
| Ids.ParseU64Exactly | crates/rex-backend-rust/src/serialize.rs:219 | an ordinal is read from exactly a plus sign or none, any number of zeros and its decimal text, below the limit of a `u64` |
| Ids.SortKeyExactly | crates/rex-backend-rust/src/serialize.rs:216-221 | an id has a sort key if and only if it is the prefix, a slash and such a text |
| Ids.InstanceIdInjective | crates/rex-backend-rust/src/serialize.rs:268-280 | two objects never get the same id |
| Schemas.IdOfInjective | crates/rex-backend-rust/src/serialize.rs:268-280 | distinct arena entries of a well-formed schema have distinct ids |
| DocumentLoading.ContainerFieldIs | crates/rex-backend-rust/src/serialize.rs:693-719 | a containment's back-pointer is exactly the first container feature whose own opposite names the owner and, if the containment declares an opposite, is the declared one |
| Schemas.ContainerFieldFrom | crates/rex-backend-rust/src/serialize.rs:693-719 | a containment's back-pointer is a container feature whose own opposite names the owner |
| Saving.SaveObject | crates/rex-backend-rust/src/serialize.rs:283-416 | saving one object terminates though containment may be shared or cyclic, and the object counts as visited afterwards |
| Saving.SaveChildren | crates/rex-backend-rust/src/serialize.rs:338-380 | one entry for each contained key, and nothing visited is forgotten |
| Loading.ClassNamed | crates/rex-backend-rust/src/serialize.rs:870-890 | a `$type` resolves to a class of that name, and to none only if there is none |
| Loading.RegistrationNumbers | crates/rex-backend-rust/src/serialize.rs:900-921 | registration makes as many objects as the document holds, and ids and indices of each class match one to one |
| SavedForm.SaveObjectEmits | crates/rex-backend-rust/src/serialize.rs:283-416 | a saved object is depicted in full, and the objects embedded in it are exactly those newly visited, each once |
| SavedForm.SaveFeaturesEmits | crates/rex-backend-rust/src/serialize.rs:308-413 | every saved feature gets its member, container and derived features none, and no earlier member is touched |
| SavedForm.SaveChildrenEmits | crates/rex-backend-rust/src/serialize.rs:338-380 | each contained key is written as that object inline or as a link to it, and the inline ones are exactly the newly visited ones |
| SavedForm.SaveRootsEmits | crates/rex-backend-rust/src/serialize.rs:800-809 | the top-level walk emits each object not emitted before, once, and leaves none of the arenas out |
| SavedForm.SaveEmitsEveryObjectOnce | crates/rex-backend-rust/src/serialize.rs:744-824 | flattening the saved document yields every arena object, in full, exactly once, and nothing else |
| Sorting.KeyLessWeak | crates/rex-backend-rust/src/serialize.rs:897-899 | the sort key is a strict weak order: if x precedes y, then y does not precede x and any third key follows x or precedes y |
| Sorting.SortByKeySorts | crates/rex-backend-rust/src/serialize.rs:897-899 | the sort orders by key and permutes its input |
| Sorting.SortIsStable | crates/rex-backend-rust/src/serialize.rs:891-899 | objects with equal keys keep their document order |
| Sorting.SortPaired | crates/rex-backend-rust/src/serialize.rs:891-899 | whatever order objects are found in, the sort puts them by key and, where keys are equal, in that order |
| Sorting.NonCanonicalIdsSortFirst | crates/rex-backend-rust/src/serialize.rs:891-899 | objects without a canonical id come before all others, contrary to the comment |
| Sorting.SortListing | crates/rex-backend-rust/src/serialize.rs:891-899 | sorting a list of depicted objects gives a list of the same objects |
| Sorting.SortedIsArenaOrder | crates/rex-backend-rust/src/serialize.rs:891-896 | in the sorted list the next object of a class is always the next one of its arena: per-class insertion order is restored |
| Sorting.CompleteCounts | crates/rex-backend-rust/src/serialize.rs:891-896 | no object of any arena is missing from the sorted list |
| RoundTrip.RegisterFrom | crates/rex-backend-rust/src/serialize.rs:902-917 | registering the sorted objects succeeds and gives every object its original index |
| RoundTrip.LoadSavedScalars | crates/rex-backend-rust/src/serialize.rs:49-128 | a list of values reads back as saved, and is refused exactly when it holds a number that is not finite |
| RoundTrip.PushAllIsDedup | crates/rex-backend-rust/src/serialize.rs:594-596 | filling a list entry by entry keeps each target at its first occurrence |
| RoundTrip.FillAttributeStage | crates/rex-backend-rust/src/serialize.rs:532-574 | one attribute member sets its field to the saved values and nothing else |
| RoundTrip.FillReferenceStage | crates/rex-backend-rust/src/serialize.rs:575-666 | one reference member sets its field, and the back-pointers of exactly the objects it contains |
| RoundTrip.FillObjectStage | crates/rex-backend-rust/src/serialize.rs:501-691 | filling one object, in any order of its members, fills its fields and back-pointers and is refused exactly when one of its fields cannot be read back |
| RoundTrip.LastOwnerIsOwner | crates/rex-backend-rust/src/serialize.rs:600-606 | the back-pointer that survives is that of the highest-numbered owner |
| RoundTrip.SortedSave | crates/rex-backend-rust/src/serialize.rs:867-899 | the saved document, flattened and sorted, lists every arena object in key order |
| RoundTrip.LoadOfSave | crates/rex-backend-rust/src/serialize.rs:827-944 | loading a saved document, for every resource, schema and member order: refused exactly when a list holds a number that is not finite, else the normalised resource |
| RoundTrip.RoundTripExactly | crates/rex-backend-rust/src/serialize.rs:6-29 | the round trip is the identity if and only if the resource is faithful (finite numbers, no repeated references, container fields naming the last owner) |
| RoundTrip.RoundTripIdentity | crates/rex-backend-rust/src/serialize.rs:29 | the identity the header promises, for finite numbers, lists without repetition and container fields that agree with the containments |
| RoundTrip.RepeatedReferenceIsLost | crates/rex-backend-rust/src/serialize.rs:647 | the promise is false as it stands: a repeated reference comes back once |
| Places.CollectRootsCovers | crates/rex-backend-rust/src/serialize.rs:744-790 | flattening succeeds exactly when every top-level object has a known class, and then lists exactly the objects of the document, each once, in document order |
| LoadExact.RegisterExactly | crates/rex-backend-rust/src/serialize.rs:462-496 | registering any objects succeeds exactly when each has a known class and a string id that no earlier one of its class has, and files each under its id at the next index of its arena |
| LoadExact.FillItemsExactly | crates/rex-backend-rust/src/serialize.rs:592-607 | filling a reference from any entries succeeds exactly when every entry resolves, keeps each target at its first entry and points every child back |
| LoadExact.FillMemberExactly | crates/rex-backend-rust/src/serialize.rs:501-691 | a member of any object is refused exactly when it names no saved feature or its value cannot be read, and else changes its slot and the back-pointers it owns |
| LoadExact.FillAllExactly | crates/rex-backend-rust/src/serialize.rs:922-941 | filling succeeds exactly when every member of every object can be read, and every slot then holds what its object writes |
| DocumentLoading.ScalarsAreRead | crates/rex-backend-rust/src/serialize.rs:92-131 | a value is read exactly when it has the wire form of the type, and as that form says |
| DocumentLoading.IntegerWidths | crates/rex-backend-rust/src/serialize.rs:165-181 | the ranges of the integer types are those of two's complement |
| DocumentLoading.TargetResolves | crates/rex-backend-rust/src/serialize.rs:722-741 | an entry resolves if and only if its `$ref`, or without one its `$id`, is the id of an object of the target class |
| DocumentLoading.AcceptsExactly | crates/rex-backend-rust/src/serialize.rs:827-944 | any document, in any member order, is accepted if and only if its header fits the model, every object has a known class and a string id unique in its class, every member names a saved feature and fits it, and every entry of a reference names an object of the target class; the resource is then what the document says |
| DocumentLoading.LoadsExactly | crates/rex-backend-rust/src/serialize.rs:827-944 | loading returns a resource if and only if the document is acceptable and says that resource |
| DocumentLoading.SaidIsWellTyped | crates/rex-backend-rust/src/serialize.rs:501-691 | the resource a document says is well typed: every value fits its feature and every stored reference is live |
| SaysOnce.SaysOneResource | crates/rex-backend-rust/src/serialize.rs:827-944 | a document whose ids are unique says one resource: the order of every arena and the value of every slot are determined |
| Serializer.Saver.constructor | crates/rex-backend-rust/src/serialize.rs:792-796 | saving starts with every object numbered and none visited |
| Serializer.Saver.AssignInstanceIds | crates/rex-backend-rust/src/serialize.rs:268-280 | every arena object, and nothing else, gets its id |
| Serializer.Saver.WasVisited | crates/rex-backend-rust/src/serialize.rs:353-354 | asking by id whether an object was written answers for that object alone |
| Serializer.Saver.ObjectToJson | crates/rex-backend-rust/src/serialize.rs:283-307 | the object as the specification saves it, the visited ids following |
| Serializer.Saver.FeaturesToJson | crates/rex-backend-rust/src/serialize.rs:308-413 | the loop over features writes the members of the specification |
| Serializer.Saver.ChildrenToJson | crates/rex-backend-rust/src/serialize.rs:345-362 | the loop over contained keys writes the items of the specification |
| Serializer.Saver.ClassToJson | crates/rex-backend-rust/src/serialize.rs:801-808 | one arena's contribution to the top-level objects |
| Serializer.Saver.ToInstanceJson | crates/rex-backend-rust/src/serialize.rs:792-824 | the whole document equals the specification's |
| Serializer.Loader.Collect | crates/rex-backend-rust/src/serialize.rs:744-790 | appends an object and everything embedded in it, depth first, links skipped |
| Serializer.Loader.CollectAll | crates/rex-backend-rust/src/serialize.rs:867-890 | flattens the top-level objects or stops at the first of unknown type |
| Serializer.Loader.RegisterCollected | crates/rex-backend-rust/src/serialize.rs:902-921 | registers in order, stopping at the first error |
| Serializer.Loader.Fill | crates/rex-backend-rust/src/serialize.rs:501-527 | assigns the members of one object in the order they are walked, stopping at the first error |
| Serializer.Loader.FillCollected | crates/rex-backend-rust/src/serialize.rs:922-941 | fills every collected object in order, stopping at the first error |
| Serializer.Loader.FromInstanceJson | crates/rex-backend-rust/src/serialize.rs:827-944 | on every document, well formed or not: accepted if and only if the document is acceptable, and the result is then what the document says |
| Serializer.SaveThenLoad | crates/rex-backend-rust/src/serialize.rs:6-29 | saving and then loading with the generated code gives back the resource if and only if it is faithful |
| InstanceCheck.RegisterValueDecides | crates/rex-cli/src/artifact_check.rs:788-836 | the first pass reports nothing exactly when all objects are in form and every id is canonical, unique in the value and not seen before, and then it has collected exactly the ids of the value |
| InstanceCheck.CanonicalExactly | crates/rex-cli/src/artifact_check.rs:867-885 | an id is canonical if and only if it is a prefix that is not empty, a slash and the text of an ordinal |
| InstanceCheck.ResolveValueDecides | crates/rex-cli/src/artifact_check.rs:846-865 | the second pass reports nothing exactly when every reference at any depth is among the ids |
| InstanceCheck.CheckerDecides | crates/rex-cli/src/artifact_check.rs:487-520 | a document is accepted if and only if it is a well-formed instance: header, typed objects, bare links, canonical unique ids, references resolving anywhere in the document |
| InstanceCheck.VerdictIgnoresOrder | crates/rex-cli/src/artifact_check.rs:830-832 | the verdict does not depend on the order objects list their members in |
| InstanceCheck.Checker.Register | crates/rex-cli/src/artifact_check.rs:782-836 | the recursive pass over ids and errors equals the specification's |
| InstanceCheck.Checker.Resolve | crates/rex-cli/src/artifact_check.rs:838-865 | the recursive pass over references equals the specification's |
| InstanceCheck.Checker.Check | crates/rex-cli/src/artifact_check.rs:487-520 | the whole check accepts exactly the well-formed instances |
| CheckedSave.SavedObjectAccounts | crates/rex-backend-rust/src/serialize.rs:283-416 | a saved object is clean, holds exactly the ids it newly visits, each once, and refers only to live objects |
| CheckedSave.SavedDocumentsAreAccepted | crates/rex-backend-rust/src/serialize.rs:792-825 | the independent check accepts every saved document, if the model and the classes have names |
| LoweringTypes.RustTypeInjective | crates/rex-backend-rust/src/expr_lower.rs:894-918 | different source types have different Rust types |
| LoweringTypes.CopyAgrees | crates/rex-backend-rust/src/expr_lower.rs:921-934 | a source type counts as copied exactly when its Rust type is `Copy` |
| LoweringTypes.EnvTypedPush | crates/rex-backend-rust/src/expr_lower.rs:435-446 | a binder that captures nothing leaves every other name bound as it was |
| LoweringRules.LowersExactly | crates/rex-backend-rust/src/expr_lower.rs:378-472 | a typed tree lowers if and only if it has no `null` outside comparisons and the left of `?:` |
| TypePreservation.Preserved | crates/rex-backend-rust/src/expr_lower.rs:378-513 | every clean tree lowers, and the code has exactly the Rust type of the source type: owned, dereferenced the right number of times, cloned exactly when not `Copy`, no doubled `Option` |
| TypePreservation.NamePreserved | crates/rex-backend-rust/src/expr_lower.rs:474-513 | a name, however bound, is read as an owned value of its type |
| TypePreservation.OperatorPreserved | crates/rex-backend-rust/src/expr_lower.rs:524-535 | an operator's code typechecks at the type the source gives it, string concatenation included |
| TypePreservation.EqualityPreserved | crates/rex-backend-rust/src/expr_lower.rs:575-585 | both sides of an equality have comparable Rust types, a bare string literal included |
| TypePreservation.AgainstNullPreserved | crates/rex-backend-rust/src/expr_lower.rs:551-572 | a comparison with `null` is a boolean whether or not its operand can be absent |
| TypePreservation.AccessPreserved | crates/rex-backend-rust/src/expr_lower.rs:591-628 | a feature reading has the type of the feature, optional exactly once, unless the feature is a required single reference |
| TypePreservation.CoalescePreserved | crates/rex-backend-rust/src/expr_lower.rs:868-880 | `?:` has the type of its default |
| TypePreservation.LetPreserved | crates/rex-backend-rust/src/expr_lower.rs:435-452 | a `let` has the type of its body under the new binding |
| TypePreservation.AlgebraPreserved | crates/rex-backend-rust/src/expr_lower.rs:779-840 | each collection call has the type the source gives it, optional exactly once |
| TypePreservation.LambdaPreserved | crates/rex-backend-rust/src/expr_lower.rs:842-866 | a lambda's body has its type with the parameter lent behind one or two references |
| TypePreservation.ListPreserved | crates/rex-backend-rust/src/expr_lower.rs:456-471 | every item of a list literal has the type of the first |
| TypeNecessity.AcceptedExactly | crates/rex-backend-rust/src/expr_lower.rs:7-33 | for hygienic, typed trees rustc accepts the code if and only if the tree is clean, a condition on the source tree alone, and then at exactly its type |
| TypeNecessity.OperatorNeeded | crates/rex-backend-rust/src/expr_lower.rs:518-535 | an accepted operator has no literal left of a long, no negated literal beside one and no `size()` left of `<` |
| TypeNecessity.EqualityNeeded | crates/rex-backend-rust/src/expr_lower.rs:575-585 | an accepted equality has operands of one Rust type |
| TypeNecessity.AlgebraNeeded | crates/rex-backend-rust/src/expr_lower.rs:779-840 | an accepted collection call has a clean list and a clean body |
| TypeNecessity.CoalesceNeeded | crates/rex-backend-rust/src/expr_lower.rs:868-880 | an accepted `?:` has a default of the type inside its value |
| LoweringCorrect.MeaningPreserved | crates/rex-backend-rust/src/expr_lower.rs:7-33 | if a clean, hygienic tree evaluates to v, its lowered form evaluates to v, through nested lambdas, `let`, `?.`, `?:`, null equality and optional concatenation |
| LoweringFailures.OutcomesAgree | crates/rex-backend-rust/src/expr_lower.rs:7-33 | if moreover no compared operand is dropped and no size is taken, code and tree have the same outcome: the same value, or none |
| LoweringCorrect.NameMeaning | crates/rex-backend-rust/src/expr_lower.rs:474-513 | a name's code evaluates to the value bound to it, at any closure depth |
| LoweringCorrect.OperatorMeaning | crates/rex-backend-rust/src/expr_lower.rs:524-535 | an operator's code computes the source operator, overflow and zero divisors failing alike |
| Expr.ArithmeticExactly | docs/EXPRESSIONS.md:207-222 | arithmetic gives the exact result where it fits the width of its operands and has no value elsewhere; division truncates and has none by zero |
| Expr.SumExactly | docs/EXPRESSIONS.md:450 | a sum is the exact total of its list, where no running sum leaves the range |
| LoweringCorrect.ConcatEval | crates/rex-backend-rust/src/expr_lower.rs:329-337 | concatenation is absent exactly when one of its optional operands is, else the joined text |
| LoweringCorrect.EqualityMeaning | crates/rex-backend-rust/src/expr_lower.rs:575-585 | equality of the code is equality of the values |
| LoweringCorrect.AgainstNullMeaning | crates/rex-backend-rust/src/expr_lower.rs:551-572 | a comparison with `null` answers whether the operand is absent, even where its code is dropped |
| LoweringCorrect.AccessMeaning | crates/rex-backend-rust/src/expr_lower.rs:591-628 | reading a feature reads the object's stored value, and `?.` passes absence on |
| LoweringCorrect.CoalesceMeaning | crates/rex-backend-rust/src/expr_lower.rs:868-880 | `?:` yields its value if present and its eagerly evaluated default otherwise |
| LoweringCorrect.LetMeaning | crates/rex-backend-rust/src/expr_lower.rs:435-452 | a `let` means its body under the binding |
| LoweringCorrect.LambdaMeaning | crates/rex-backend-rust/src/expr_lower.rs:842-866 | a closure applied to a lent element computes the lambda at that element |
| LoweringCorrect.AlgebraMeaning | crates/rex-backend-rust/src/expr_lower.rs:779-840 | each collection call computes the source's `first`, `filter`, `map`, `any`, `size` or `sum` |
| LoweringCorrect.ListMeaning | crates/rex-backend-rust/src/expr_lower.rs:456-471 | a list literal evaluates to its items in order |
| LoweringLimits.LiteralLeftOfALong | crates/rex-backend-rust/src/expr_lower.rs:518-526 | `2 + n` with n a long typechecks and is rejected by rustc |
| LoweringLimits.NegatedLiteralBesideALong | crates/rex-backend-rust/src/expr_lower.rs:362-367 | `n + -5` with n a long typechecks and is rejected by rustc |
| LoweringLimits.SizeBelow | crates/rex-backend-rust/src/expr_lower.rs:827 | `xs.size() < k` typechecks and is rejected by rustc |
| LoweringLimits.UnnameableParameter | crates/rex-backend-rust/src/expr_lower.rs:797-826 | a lambda parameter no Rust pattern may be, such as `fn` or `try`, is rejected: the closure head keeps the authored word |
| LoweringLimits.UnnameableVariable | crates/rex-backend-rust/src/expr_lower.rs:435-451 | a `let` whose rendered name no pattern or no use may be is rejected by rustc |
| LoweringLimits.UnnameableExactly | crates/rex-backend-rust/src/naming.rs:4-20 | an identifier renders to a name of Rust if and only if it is none of `_`, `crate`, `self`, `Self`, `super` and the reserved words the keyword list lacks |
| LoweringLimits.SizeWraps | crates/rex-backend-rust/src/expr_lower.rs:827 | the size of a list of 2^31 or more elements wraps, where the source has no value |
| LoweringLimits.RequiredReferenceRead | crates/rex-backend-rust/src/expr_lower.rs:632-660 | reading a required single reference has the wrong Rust type |
| LoweringLimits.LetCaptures | crates/rex-backend-rust/src/expr_lower.rs:435-452 | a `let` can capture a parameter whose snake-cased variable has its name, and then the code computes another value |
| LoweringLimits.DroppedOperand | crates/rex-backend-rust/src/expr_lower.rs:561-566 | a null comparison whose operand is dropped can answer differently |
| LoweringWalk.Lowerer.LowerExpr | crates/rex-backend-rust/src/expr_lower.rs:378-472 | the recursive lowering over a mutable scope and checker equals the specification's, and a success leaves both as it found them |
| LoweringWalk.Lowerer.LowerLet | crates/rex-backend-rust/src/expr_lower.rs:435-452 | the scope pushed and the checker swapped for a `let` are restored |
| LoweringWalk.Lowerer.WithClosureParam | crates/rex-backend-rust/src/expr_lower.rs:844-866 | the scope pushed and the checker swapped for a lambda are restored |
| LoweringWalk.Lowerer.LowerAlgebra | crates/rex-backend-rust/src/expr_lower.rs:779-840 | a collection call is lowered as specified, scope and checker restored |
| LoweringWalk.Lowerer.LowerAccess | crates/rex-backend-rust/src/expr_lower.rs:591-628 | a feature reading is lowered as specified, scope and checker restored |
| LoweringWalk.Lowerer.LowerCoalesce | crates/rex-backend-rust/src/expr_lower.rs:870-880 | the default is lowered before the value, as specified, scope and checker restored |
| LoweringWalk.Lowerer.LowerOperator | crates/rex-backend-rust/src/expr_lower.rs:524-535 | an operator is lowered as specified, scope and checker restored |
| LoweringWalk.Lowerer.LowerEqual | crates/rex-backend-rust/src/expr_lower.rs:541-586 | an equality is lowered as specified, scope and checker restored |
| LoweringWalk.Lowerer.LowerList | crates/rex-backend-rust/src/expr_lower.rs:456-471 | the first item fixes the element type and the later ones adapt to it |
| MachineValidator.CheckTerminals | crates/rex-driver/src/ddd.rs:2313-2330 | a terminal is reported exactly when it is declared twice, and each is kept at its first declaration |
| MachineValidator.CheckEdges | crates/rex-driver/src/ddd.rs:2332-2374 | an edge is reported exactly when it repeats an earlier one or its trigger already leaves its state for another target; each edge is kept at its first declaration |
| MachineValidator.CheckExits | crates/rex-driver/src/ddd.rs:2376-2391 | reported exactly for edges out of terminals |
| MachineValidator.DeclaredStates | crates/rex-driver/src/ddd.rs:2395-2410 | the states are exactly the initial one, the terminals and the edge endpoints |
| MachineValidator.Explore | crates/rex-driver/src/ddd.rs:2435-2445 | the worklist finds exactly the states some path of edges reaches |
| MachineValidator.CheckStates | crates/rex-driver/src/ddd.rs:2412-2479 | reported exactly the states that are no literal of the enum, unreachable, or neither terminal nor left by an edge |
| MachineValidator.CheckGuards | crates/rex-driver/src/ddd.rs:2488-2503 | reported exactly the edges whose guard does not type as a condition |
| MachineValidator.LowerMachine | crates/rex-driver/src/ddd.rs:2198-2527 | the problems reported are exactly those that hold, whatever the machine, and it lowers exactly when none but a duplicate or a bad guard is among them |
| MachineRuns.SoundIsFaithful | crates/rex-driver/src/ddd.rs:2508-2525 | attaching guards by position after deduplication gives every edge of a sound machine its own guard |
| MachineRuns.DroppedRowShiftsGuards | crates/rex-driver/src/ddd.rs:2519-2525 | positions do not stay aligned when a duplicate is dropped: a later edge takes the duplicate's guard |
| MachineRuns.RunsVisitDeclared | crates/rex-driver/src/ddd.rs:2393-2433 | every state any run of a sound machine visits is declared, and a literal of its enum where the literals are known |
| MachineRuns.EveryStateIsOnARun | crates/rex-driver/src/ddd.rs:2435-2457 | every state a published machine declares is on some run |
| MachineRuns.RunsStopExactlyInTerminals | crates/rex-driver/src/ddd.rs:2458-2479 | a run can go no further if and only if it is in a terminal state |
| MachineRuns.TriggersAreDeterministic | crates/rex-driver/src/ddd.rs:2355-2372 | an explicit trigger names at most one edge of a state |
| Domains.LowerDomains | crates/rex-driver/src/lower/compile.rs:498-914 | each imported domain keeps its model unless it has errors of its own or is blocked by a failed sigil import, and the first importer carries the sigil packages |
| Domains.UnionModel | crates/rex-driver/src/ddd.rs:1784-1794 | the packages of all domains, or nothing unless every one lowered |
| Domains.ScopeIs | crates/rex-driver/src/lower/mod.rs:421-468 | a package is in scope exactly through a domain that lowered, as its own package or as a namespace it carries that is not called like it |
| Domains.BareResolves | crates/rex-driver/src/lower/resolve.rs:120-165 | a bare name resolves to what the one package that declares it declares, or to a primitive if none does, and to nothing where several do |
| Domains.FeaturesAreInherited | crates/rex-driver/src/ddd.rs:2694-2733 | in any `extends` graph: nothing is found exactly when some class on the chain is missing, and else exactly the features classes on the chain declare |
| Domains.ClassFeatures | crates/rex-driver/src/ddd.rs:2694-2733 | nothing if and only if some class a path of bases leads to is missing; else a feature is in the result if and only if such a class declares it, each class contributing once and the class's own features first |
| DesignArtifacts.FindContext | crates/rex-driver/src/ddd.rs:2229-2280 | what a machine is checked against: its enum and the literals, and the field, which is not there exactly when a class on the chain is missing or none declares it, has the type or another, and is the class's own if it has one of the name |
| DesignArtifacts.BindingIsOnChain | crates/rex-driver/src/ddd.rs:2229-2280 | a field is bound, of another type or not there by what the class and the classes it extends declare |
| DesignArtifacts.CompileDesigns | crates/rex-driver/src/pipeline.rs:18-57 | an artifact is published exactly when every design is in order and no diagnostic of the run is an error; every machine is then in it, edge for edge with its own guard |
| DesignArtifacts.CompileFile | crates/rex-driver/src/lib.rs:1069-1107 | the sigil diagnostics are appended after the artifact is made: they are errors of the run without holding the artifact back |
| DesignArtifacts.LoweredUnlessBlocked | crates/rex-driver/src/sigil.rs:215-227 | domains without errors have all lowered if and only if no sigil failure blocks one |
| DesignArtifacts.BoundEnumHasLiterals | crates/rex-driver/src/ddd.rs:2668-2692 | an enum a machine may bind has literals in the lowered domains |
| DesignArtifacts.NamedApart | crates/rex-driver/src/lower/compile.rs:498-560 | two packages of the lowered domains never share a name |
| DesignArtifacts.PublishedRunsVisitLiterals | crates/rex-driver/src/ddd.rs:2412-2433 | if every imported domain lowered, every state any run of a published machine visits is a literal of the enum it binds |
| DesignArtifacts.LiteralsExactly | crates/rex-driver/src/ddd.rs:1779-1794 | published machines are sure to visit literals only, if and only if no imported domain is blocked by a sigil failure |
| DesignArtifacts.AnythingGoesUnlessLowered | crates/rex-driver/src/ddd.rs:2412-2416 | once a domain did not lower, a machine with any state name whatever is published and runs through it |
| DesignArtifacts.UnparsedImportPublishesNonLiterals | crates/rex-driver/src/lib.rs:1091-1101 | a design importing a good domain and one whose `import sigil` file does not parse publishes a machine in a state its enum lacks |
| Statecharts.StatesOf | crates/rex-ir/src/ddd.rs:514-532 | the states of a machine, each at its first appearance: initial, terminals, endpoints |
| Statecharts.LowerChart | crates/rex-driver/src/machines.rs:56-131 | one node for each state, final exactly for terminals, whose edges carry the transitions out of it one for one: same target, same guard, and the trigger or the target's name with its first letter lower-cased |
| Statecharts.SourceIsListed | crates/rex-driver/src/machines.rs:90-93 | the source of every edge is among the states |
| Statecharts.StepsAgree | crates/rex-driver/src/machines.rs:85-106 | from every state the chart takes a step if and only if the machine has a transition with its target, its guard and its event |
| Statecharts.RunsAgree | crates/rex-driver/src/machines.rs:56-131 | machine and chart have the same runs, event by event, guard by guard and state by state |
| Statecharts.FinalNodesAreDeadEnds | crates/rex-driver/src/machines.rs:74-78 | in a published machine's chart a node is final if and only if nothing leaves it |
| Statecharts.EdgesConserved | crates/rex-driver/src/machines.rs:85-106 | every edge is in the chart, at its source, as often as the machine has a transition it carries |
| Decisions.OrderedIsAcyclic | crates/rex-driver/src/dmn.rs:326-348 | a graph with an evaluation order has no cycle |
| Decisions.CycleSearch.CloseCycle | crates/rex-driver/src/dmn.rs:791-799 | the path cut from the stack at a gray node is a closed path of real edges |
| Decisions.CycleSearch.Visit | crates/rex-driver/src/dmn.rs:781-811 | a visit finds a cycle, or finishes its node after everything it leads to and leaves the stack as it was |
| Decisions.CycleSearch.FindDecisionCycle | crates/rex-driver/src/dmn.rs:767-821 | a cycle is found, or finishing order is an evaluation order of all decisions |
| Decisions.BuildEdges | crates/rex-driver/src/dmn.rs:326-337 | exactly the requirements between two decisions become edges |
| Decisions.CheckRequirements | crates/rex-driver/src/dmn.rs:248-348 | nothing is reported if and only if every information, knowledge and authority requirement resolves and no decision requires itself through others; the decisions then have an evaluation order |
| Aggregates.ContainmentEdges | crates/rex-driver/src/ddd.rs:2793-2817 | the edges are exactly the containment features between classes, in the order of the model |
| Aggregates.Reaches | crates/rex-driver/src/ddd.rs:2819-2841 | true if and only if a non-empty chain of containments leads there, in any graph |
| Aggregates.ContainersOf | crates/rex-driver/src/ddd.rs:2870-2878 | the edges turned round, whatever order owners are taken in |
| Aggregates.AggregateRoot | crates/rex-driver/src/ddd.rs:2859-2905 | returns r if and only if r is the only class without container that is the class or contains it, cycles and iteration order notwithstanding |
| Aggregates.RootsAreTheirOwn | crates/rex-driver/src/ddd.rs:2859-2864 | a class has at most one root and a root is its own |
| Aggregates.CheckBoundary | crates/rex-driver/src/ddd.rs:369-411 | an entity with a repository is reported exactly when another designed entity contains it |
| Aggregates.CheckReferences | crates/rex-driver/src/ddd.rs:413-463 | a cross reference is reported exactly when both ends have determined, different roots and its target is not a root |
| Conditions.StringLiteral | crates/rex-backend-cedar/src/codegen.rs:511-525 | the loop writes the text with quotes and backslashes escaped |
| Conditions.ReadEscaped | crates/rex-backend-cedar/src/codegen.rs:511-525 | an escaped string reads back as the text it came from, and the reading stops at its closing quote |
| Conditions.ReadEmitted | crates/rex-backend-cedar/src/codegen.rs:443-509 | a character-level reader recovers from the emitted text exactly the condition that was printed, and stops exactly where it ended; a reader without division refuses exactly what divides |
| Conditions.CedarExactly | crates/rex-backend-cedar/src/codegen.rs:443-509 | the emitted text is an expression of Cedar, which has no division, if and only if the condition does not divide |
| Conditions.EmitInjective | crates/rex-backend-cedar/src/codegen.rs:443-509 | different conditions never print alike |
| Authorization.LineageWalk | crates/rex-driver/src/manifest.rs:182-195 | self and every ancestor, nearest first, each once; a cycle stops the walk |
| Authorization.LineagesAgree | crates/rex-driver/src/manifest.rs:182-195 | an actor has only one lineage |
| Authorization.LineageContains | crates/rex-backend-cedar/src/codegen.rs:328-344 | true if and only if the ancestor is on the actor's `extends` chain, also when the chain is cyclic |
| Authorization.ActorsInheriting | crates/rex-backend-cedar/src/codegen.rs:346-356 | exactly the actors whose chain passes through the granted one, in declaration order |
| Authorization.EntryPolicies | crates/rex-backend-cedar/src/codegen.rs:112-155 | one policy for each inheriting actor in declaration order, or the passed-through text; refused exactly for an undeclared capability |
| Authorization.PolicySet | crates/rex-backend-cedar/src/codegen.rs:108-157 | the policies of all entries in the order of the grants, and no others |
| Authorization.PolicyListIsDerived | crates/rex-backend-cedar/src/codegen.rs:116-153 | a policy is written if and only if some entry gives it to some actor inheriting the grant |
| Authorization.AppliesExactlyWhenGranted | crates/rex-backend-cedar/src/codegen.rs:116-153 | some policy of an effect applies to a request if and only if an inherited grant of that effect covers it |
| Authorization.DecidesAsGranted | crates/rex-backend-cedar/src/codegen.rs:108-157 | under default deny and forbid wins, a block without passed-through text allows a request if and only if a permit reaches its principal by inheritance and no forbid does |
| Authorization.ReachesCapability | crates/rex-backend-cedar/src/codegen.rs:302-317 | whether a grant or delegation on the capability names the actor or an ancestor |
| Authorization.PrincipalTypes | crates/rex-backend-cedar/src/codegen.rs:229-251 | exactly the actors the capability reaches, in declaration order |
| Authorization.PrincipalsAreAdmitted | crates/rex-backend-cedar/src/codegen.rs:293-301 | the schema admits the principal of every policy |
| Authorization.EffectiveTools | crates/rex-driver/src/manifest.rs:130-154 | the permits of the lineage nearest first, in the order of grants and entries, each at its first appearance |
| Authorization.ToolsInOrder | crates/rex-driver/src/manifest.rs:130-154 | of two tools the one permitted first comes first: at a nearer lineage member, there in an earlier grant, and there in an earlier entry |
| Authorization.Record | crates/rex-driver/src/manifest.rs:98-113 | of each name, the parent and the kind the first declaration that has one gives it, however often the name is declared |
| Authorization.PooledParentIs | crates/rex-driver/src/manifest.rs:98-113 | the parent recorded for a name is that of the first declaration that has one |
| Authorization.KindIs | crates/rex-driver/src/manifest.rs:98-113 | the kind recorded for a name is that of the first declaration that has one |
| Authorization.LineageKind | crates/rex-driver/src/manifest.rs:197-211 | an actor is an agent exactly when the nearest declared kind up its lineage is |
| Authorization.AgentManifests | crates/rex-driver/src/manifest.rs:91-180 | over any blocks, one manifest for each agent in the order names are first declared, listing exactly the capabilities a permit reaches it on, and the permits of each delegation to it |
| Authorization.ManifestMatchesPolicies | crates/rex-driver/src/manifest.rs:91-154 | where the blocks agree on actors and parents, an agent's manifest lists a capability if and only if some block's policies have a permit for that agent on it |
| Authorization.OneBlockIsCoherent | crates/rex-driver/src/manifest.rs:91-113 | a single block that declares each name once always agrees with itself |
| Authorization.ToolWithoutPolicy | crates/rex-backend-cedar/src/codegen.rs:54-70 | blocks that do not agree: the manifest lists a tool no block's policies permit |
| DeployPolicies.DivisionFits | crates/rex-driver/src/deploy.rs:1489-1494 | truncating division leaves the 64-bit range only for the least value by minus one |
| DeployPolicies.EvaluatesExactly | crates/rex-driver/src/deploy.rs:1376-1503 | a typed condition of supported constructs evaluates to the exact unbounded answer, of its type, where a quotient is the integer whose remainder is smaller than the divisor and has the sign of the dividend, or fails, and it fails if and only if that answer does not exist or some intermediate leaves the range |
| DeployPolicies.ConcatenationGoesWrong | crates/rex-driver/src/deploy.rs:1483-1500 | text concatenation typechecks and never evaluates |
| DeployPolicies.NoShortCircuit | crates/rex-driver/src/deploy.rs:1417-1421 | a decisive left operand does not save a failing right one |
| Deployments.CheckSetting | crates/rex-driver/src/deploy.rs:973-1037 | a setting is admitted exactly when its kind knows the name and the value has its shape and vocabulary, and is then in that vocabulary |
| Deployments.ApplySettings | crates/rex-driver/src/deploy.rs:1049-1092 | nothing is reported exactly when every line has two segments, names a component and an admitted value, and none repeats; the layer then covers what it names and leaves the rest |
| Deployments.LowerComponent | crates/rex-driver/src/deploy.rs:325-357 | nothing is reported exactly when every baseline line is in order, and the settings are then those lines |
| Deployments.Baselines | crates/rex-driver/src/deploy.rs:693-700 | the bottom layer holds each component's baseline |
| Deployments.Required | crates/rex-driver/src/deploy.rs:765-781 | the capabilities required are exactly the intrinsic, the engine's, the runtime's and the declared ones |
| Deployments.CheckComponent | crates/rex-driver/src/deploy.rs:756-829 | nothing is reported exactly when the target provides every required capability and hosts the database's engine |
| Deployments.CheckPolicy | crates/rex-driver/src/deploy.rs:1203-1367 | nothing is reported exactly when the condition types as boolean and evaluates to true under `require`, false under `prohibit` |
| Deployments.CheckDeployment | crates/rex-driver/src/deploy.rs:688-837 | nothing is reported if and only if every layer is in order, every component is covered and every policy met, under settings that are the override, else the default, else the baseline |
| Deployments.LayeredInVocabulary | crates/rex-driver/src/deploy.rs:688-750 | every effective value is in its kind's vocabulary, whatever layer it comes from |
| Deployments.EffectiveIsTyped | crates/rex-driver/src/deploy.rs:1232-1273 | the effective settings have the types policies are checked at |
| Deployments.PoliciesReadWhatIsWritten | crates/rex-driver/src/deploy.rs:688-750 | a policy reads, of each setting, the literal written for it: as an override, else as a default, else as the baseline, and reads nothing else |
| Deployments.PoliciesHoldExactly | crates/rex-driver/src/deploy.rs:1316-1366 | under the settings of a deployment without problems every `require` holds and no `prohibit` does, in exact arithmetic |
| Deployments.EvaluatedIsSupported | crates/rex-driver/src/deploy.rs:1376-1441 | whatever evaluates is built of supported constructs |
| DeployFiles.LowerApplication | crates/rex-driver/src/deploy.rs:244-453 | nothing is reported exactly when the components have known kinds, distinct names and baselines in order, and every connection joins two of them |
| DeployFiles.LowerProfile | crates/rex-driver/src/deploy.rs:459-592 | nothing is reported exactly when the target is known and the defaults name a component and a setting each, none twice |
| DeployFiles.LowerDeployment | crates/rex-driver/src/deploy.rs:610-847 | nothing is reported exactly when application and profile are found and everything they call for holds |
| DeployFiles.CompileFile | crates/rex-driver/src/deploy.rs:189-849 | an artifact is published exactly when all applications, profiles and deployments are in order and nothing else of the file is an error; it carries every part of every application and profile as authored, and the deployments whose names are there, in order |
| DeployFiles.ForceIsInForce | crates/rex-driver/src/deploy.rs:688-750 | there always are settings in force, and they are the override, else the default, else the baseline |
| DeployFiles.PublishedDeploymentsHold | crates/rex-driver/src/deploy.rs:630-849 | every deployment of a published file names an application and a profile of it; its target provides what each component needs, every `require` holds and no `prohibit` does |
| EditDistance.Levenshtein | crates/rex-driver/src/diagnostic.rs:109-127 | the two-row loop computes the recursively defined edit distance |
| EditDistance.NextRow | crates/rex-driver/src/diagnostic.rs:115-125 | from the distances of one prefix to those of the next |
| EditDistance.ZeroOnlyToItself | crates/rex-driver/src/diagnostic.rs:109-127 | the distance is zero if and only if the strings are equal |
| EditDistance.Symmetric | crates/rex-driver/src/diagnostic.rs:109-127 | the distance is symmetric |
| EditDistance.Triangle | crates/rex-driver/src/diagnostic.rs:109-127 | the triangle inequality |
| EditDistance.NoShorterEdits | crates/rex-driver/src/diagnostic.rs:109-110 | no chain of insertions, deletions and substitutions is shorter than the distance |
| EditDistance.ShortestEdits | crates/rex-driver/src/diagnostic.rs:109-110 | some chain is exactly as long |
| EditDistance.DidYouMean | crates/rex-driver/src/diagnostic.rs:76-107 | the first case variant if any, else the first of the nearest names within budget, else nothing; of names in order, the alphabetically first |
| EditDistance.BudgetIs | crates/rex-driver/src/diagnostic.rs:98 | a distance is within budget if and only if it is at most two or at most a third of the name |
| EditDistance.LowerMerges | crates/rex-driver/src/diagnostic.rs:94 | two characters agree but for case exactly when they are equal or one is the other's ASCII capital |
| EditDistance.AlphabeticallyFirst | crates/rex-driver/src/diagnostic.rs:91-107 | in an ordered set the suggestion comes before any name as good |
| EditDistance.Nearest | crates/rex-driver/src/diagnostic.rs:98-106 | the least distance wins and ties go to the first |
| EditDistance.OneTypoIsWithinBudget | crates/rex-driver/src/diagnostic.rs:84-87 | a name one edit away is always within budget |
| CasePlans.CollectNames | crates/rex-driver/src/cmmn.rs:371-390 | every name of the stage tree, a stage before its children |
| CasePlans.CaseLowering.Criteria | crates/rex-driver/src/cmmn.rs:561-666 | without problems each criterion watches what is written, part by part: the file item's transition, the plan item's event or the contract's event, under the condition written; nothing is reported exactly when all parts resolve and every condition is boolean |
| CasePlans.PartSays | crates/rex-driver/src/cmmn.rs:569-636 | a part resolves to exactly what it says: a case-file item's transition, else a plan item's event, by its word, or an event exactly one contract declares |
| CasePlans.CaseLowering.LowerOne | crates/rex-driver/src/cmmn.rs:396-721 | one item joins the flat list, reported exactly when its name repeats or it breaks a rule of its kind: performers on tasks only and declared, operations on services only and resolving, milestones neither discretionary nor left, criteria in order |
| CasePlans.CaseLowering.ResolveExecute | crates/rex-driver/src/cmmn.rs:469-540 | an operation binding resolves exactly when the alias names a design with one service of the name that has the operation |
| CasePlans.CaseLowering.LowerItems | crates/rex-driver/src/cmmn.rs:396-721 | a whole subtree is flattened depth first; nothing is reported exactly when its names are new and distinct and every item is in order |
| CasePlans.FlattenNames | crates/rex-driver/src/cmmn.rs:687-721 | flattening keeps exactly the names of the tree, in its order |
| CaseEmission.Kept | crates/rex-backend-cmmn/src/lib.rs:596-610 | a stage keeps exactly its children that are not discretionary, none twice |
| CaseEmission.CaseDefinitionEmitter.AddCriteria | crates/rex-backend-cmmn/src/lib.rs:706-762 | one sentry for each criterion under its own id, watching part by part what the criterion watches and under its condition, no other sentry touched; refused exactly when a criterion watches an event or its condition has no FEEL form |
| CaseEmission.ItemEventSpelled | crates/rex-backend-cmmn/src/lib.rs:796-808 | the engine's word for an event is the written one with a capital, and `Fault` for `fail` |
| CaseEmission.CaseDefinitionEmitter.AddItem | crates/rex-backend-cmmn/src/lib.rs:569-704 | one engine item with its kind, rules and sentries, and for a discretionary one its planning entry; refused exactly when it has no engine form |
| CaseEmission.CaseDefinitionEmitter.Emit | crates/rex-backend-cmmn/src/lib.rs:451-531 | the whole plan, in which CaseRebuilt.EveryItemMade finds every declared item as declared; refused exactly when some item has no engine form |
| CaseEmission.SentryIdsDiffer | crates/rex-backend-cmmn/src/lib.rs:749 | sentry ids never collide, whatever characters item names have |
| CaseRebuilt.TableIdsDiffer | crates/rex-backend-cmmn/src/lib.rs:667 | planning tables of different stages have different ids |
| CaseRebuilt.NamesAreRootsOrStaged | crates/rex-backend-cmmn/src/lib.rs:469-484 | every name of the tree is a top-level name or listed by a stage, as often in all |
| CaseRebuilt.RootXorStaged | crates/rex-backend-cmmn/src/lib.rs:469-484 | with distinct names, an item is a root if and only if no stage lists it |
| CaseRebuilt.ContextListsIt | crates/rex-backend-cmmn/src/lib.rs:657-665 | the context found is a stage that lists the item, and the root only when none does |
| CaseRebuilt.NothingOverwritten | crates/rex-backend-cmmn/src/lib.rs:485-498 | every item is emitted as itself if and only if none has the root's name |
| CaseRebuilt.SentriesKept | crates/rex-backend-cmmn/src/lib.rs:706-762 | every criterion of every item has its own sentry, with one part for each of its parts on the same source and event, and no condition exactly when it has none, else its condition's FEEL |
| CaseRebuilt.EveryItemMade | crates/rex-backend-cmmn/src/lib.rs:569-762 | every item declared anywhere in the tree is in the emitted plan with its kind, performer, operation and children, its required, repetition and activation rules, and for each trigger a sentry on the sources and events written, under the condition written |
| CaseRebuilt.StageBeforeChildren | crates/rex-driver/src/cmmn.rs:687-721 | the flat form has every stage before its children |
| CaseRebuilt.PlacedOnce | crates/rex-backend-cmmn/src/lib.rs:465-498 | every item is in exactly one children list, or if discretionary exactly one planning table, that of the stage that declares it |
| CaseRebuilt.NoRepetition | crates/rex-backend-cmmn/src/lib.rs:451-531 | no children list and no planning table names an item twice |
| CaseRebuilt.ReferencesResolve | crates/rex-backend-cmmn/src/lib.rs:451-531 | children, sentries, tables, discretionary items and watched sources all exist in the emitted plan |
| CaseRebuilt.NothingStartsByItself | crates/rex-backend-cmmn/src/lib.rs:629-642 | every manual activation rule of a plan from a lowered case is TRUE: `auto` never yields the FALSE rule documented for it |
| CaseRebuilt.AutoReadsTrue | crates/rex-driver/src/cmmn.rs:681-685 | an item has a manual activation rule if and only if it is marked `auto` |
| Project.Snapshot.constructor | crates/rex-cli/src/project.rs:97-105 | every readable file of the listing, and nothing else, is in the snapshot |
| Project.Snapshot.FetchPath | crates/rex-cli/src/project.rs:117-124 | the snapshot first, the disk second, filled in on success, unchanged on failure |
| Project.Snapshot.Artifact | crates/rex-cli/src/project.rs:159-171 | the cached artifact, or one compile, stored and counted on success only |
| Project.Snapshot.StoreArtifact | crates/rex-cli/src/project.rs:140-143 | stored and counted whether or not the key was cached |
| Project.Snapshot.Perform | crates/rex-cli/src/project.rs:92-178 | any run of operations against a changing disk equals the specification's run |
| Project.TextNeverChanges | crates/rex-cli/src/project.rs:113-124 | a key's text, once set, is the same ever after, whatever the disk becomes, and a fetch answers with it |
| Project.TextsAreRead | crates/rex-cli/src/project.rs:113-124 | every new text is what some fetch of the run read from the disk of its moment |
| Project.AnswersAreHeld | crates/rex-cli/src/project.rs:113-171 | what a fetch or a compile answers is what the snapshot then holds; each fails exactly when it is neither held nor to be had |
| Project.FailuresLeaveNoTrace | crates/rex-cli/src/project.rs:159-171 | a failed compile and a failed fetch change nothing |
| Project.ArtifactsPersist | crates/rex-cli/src/project.rs:133-171 | an artifact stays cached, and unchanged by runs without `store` |
| Project.ArtifactsAreMade | crates/rex-cli/src/project.rs:133-171 | an artifact is what the last `store` under its key gave, else what the one compile gave, else what was there |
| Project.CompiledOnce | crates/rex-cli/src/project.rs:156-171 | no run compiles a key successfully twice |
| Project.ComputesCount | crates/rex-cli/src/project.rs:140-171 | the compute count never falls below the number of artifacts, and without `store` the two keep their distance |
| Project.EveryMakingCounts | crates/rex-cli/src/project.rs:140-171 | the compute count is the number of stores and of compiles that ran and succeeded |

## Left out

- JSON text, float formatting, date values and slotmap internals: documents are abstract trees, numbers exact or not finite, arenas append-only sequences. Attributes of date type are not modelled.
- Message texts of errors and diagnostics, and the order and number of equal diagnostics: problems are values, compared as sets where the source pushes them into one list.
- CheckedSave.SavedDocumentsAreAccepted: asks for a non-empty model name and non-empty class singulars, which the parser guarantees and the schema type here does not.
- LoweringCorrect.MeaningPreserved: of trees with calls, dates or floats it says nothing; failures are compared in LoweringFailures.OutcomesAgree only, which excludes dropped operands and `size()`, where they differ.
- LoweringTypes.RustTypeInjective: floats, dates, enums and datatypes are outside the expression fragment.
- LoweringTypes.CopyAgrees: floats, dates and enums are outside the expression fragment.
- LoweringLimits.UnnameableExactly: names that clash with an item of the generated file, such as the tuple struct of an id type, are not modelled; names of fields and parameters the generated file declares are taken to be legal.
- Saving.SaveObject: bounds what is visited; what is emitted is stated in SavedForm.SaveObjectEmits.
- Saving.SaveChildren: bounds what is visited; which entry is inline or a link is stated in SavedForm.SaveChildrenEmits.
- TypeNecessity.AcceptedExactly: is about the Rust subset of `RustTarget`; rustc's own rules are not part of this model beyond it. A tree that reads a required single reference is outside it: such a tree may be accepted all the same, as the comparison of two of them is.
- Floats, dates, operation and function calls, derived features of other receivers than `self`, the walk along a class's `extends` chain and snake-casing in expressions: library or name-table code, or typed in the wrong scope by the source.
- Constant folding and literal range checks of rustc on code that always overflows.
- MachineRuns.TriggersAreDeterministic: says nothing of derived event names; a bare arrow's derived name can equal an explicit trigger, which the validator does not compare.
- DesignArtifacts.CompileDesigns: whether a guard parses and types as boolean, which namespaces of a sigil file lower, and the diagnostics of the rules for parts of a design other than machines are inputs.
- Domains.LowerDomains: what a `.mox` file or a sigil namespace lowers to is an input, with the diagnostics the lowering of the file itself reports.
- Authorization.PolicySet: the class of a capability is the declared name; resolving it in the domain model, and refusing a `when` condition outside the Cedar subset, are inputs.
- Authorization.DecidesAsGranted: excludes blocks with passed-through Cedar text, whose meaning is Cedar's.
- Authorization.EntryPolicies: whether a `when` condition is in the Cedar subset, and the class a capability names, are inputs.
- Authorization.ManifestMatchesPolicies: goes one way from the agreement of the blocks; blocks that disagree on actors no grant reaches give the same manifests all the same.
- Conditions.ReadEmitted: feature access is left out; the emitter takes bare names for primitive attributes only, so a condition that typechecks has none.
- Attribute shapes of the Cedar schema, `never_both` and delegation comments.
- Deployments.ApplySettings: a setting path is its list of segments, so a segment that itself contains a dot is not modelled.
- Deployments.CheckDeployment: the deployment's profile and application are given; DeployFiles.LowerDeployment looks them up.
- DeployFiles.CompileFile: syntax, imports, design and flow bindings, env entries and mapping kinds enter as one list of errors.
- DeployPolicies.EvaluatesExactly: a tree the evaluator does not support is one leaf with the type of the whole, so which of several failures it reports first is not modelled.
- DocumentLoading.SaidIsWellTyped: asks that declared defaults have their types and that no arena outgrows 64-bit ordinals, which rustc and memory see to.
- CaseEmission.CaseDefinitionEmitter.Emit: roles and case-file items of the engine's case are copies; the FEEL of a condition is an input, and its printer writes no parentheses, so it does not preserve meaning in general.
- CasePlans.CaseLowering.Criteria: whether a `when` condition types as boolean is an input.
- Project.Snapshot.FetchPath: the disk is a map from paths to texts that may change between operations.
- Parsers, the source type checker beyond the rules restated in `Expr`, the JSON Schema builders, `canonical_key_order`, the command line and the language server.
