# Verified model of the authorization operator

The operator turns policy-governed definitions (BindDefinition, RestrictedBindDefinition, RoleDefinition,
RestrictedRoleDefinition, RBACPolicy) into Kubernetes RBAC objects. This Dafny project models the parts whose
correctness is not visible from one function body, and proves what they promise:

| area | files |
| --- | --- |
| admission validators as one store machine: unique and immutable targets, live policy references, disjoint default assignments over every run, and the exact condition of every admission | `Admission.dfy`, `AdmissionHistory.dfy`, `DefaultPolicy.dfy`, `Paging.dfy` |
| the impersonated-client cache: a bounded FIFO cache and per-user singleflight over every interleaving | `ClientCache.dfy` |
| the constrained-impersonation compiler: verbs, validation, and preservation of meaning | `Impersonation.dfy`, `ImpersonationVerbs.dfy`, `RuleLists.dfy`, `Rbac.dfy` |
| the wildcard matcher: greedy search equals the declarative glob relation, which is a preorder | `Matcher.dfy` |
| the policy evaluators: an empty answer means compliance of everything bound or granted later, and compliance is spelled out | `RoleEvaluator.dfy`, `RoleCompliance.dfy`, `Coverage.dfy`, `ImpersonationPolicy.dfy`, `IdentityNames.dfy`, `BindEvaluator.dfy`, `BindSafety.dfy`, `Bindings.dfy` |
| role generation from discovered resources, and what a policy guarantees of the generated rules | `RoleGeneration.dfy`, `RoleSafety.dfy` |
| selectors scoped to one add-on, under label-selector semantics | `LabelSelectors.dfy` |
| generated binding names claimed once | `BindingNames.dfy` |
| the comparison before an apply: what string keys stand for, and what a role that is left alone grants | `ApplyDiff.dfy`, `ApplyImpersonation.dfy` |
| ServiceAccount sharing metadata: comma-separated text as sets of names | `NameLists.dfy`, `SharedAccounts.dfy`, `SharedRuns.dfy`, `Owners.dfy` |
| benchmark workers: exactly-once work claiming, progress checkpoints and the worker budget | `PhaseWorkers.dfy`, `MixedPhases.dfy` |
| status conditions and the kstatus operations over every run | `Conditions.dfy` |
| discovery augmentation and the violation gauge | `Discovery.dfy`, `ViolationGauge.dfy` |
| Go's strings and slices operations with their laws | `Strings.dfy`, `Options.dfy` |

`dafny verify dfyconfig.toml` checks the whole project.

## How to read the model

- A `string` is a sequence of characters. Go's strings are bytes; the two agree on ASCII, which is what names and
  patterns consist of. `Split`, `Join`, `Index`, `Sort`, `Compact` and `TrimSpace` are defined in `Strings.dfy` and
  their laws are proved there.
- Code that mutates objects in place is a class or a method with loops, proved against a specification function or
  predicate; the run-long properties are lemmas about that specification.
- Concurrent code (`ClientCache`, `PhaseWorkers`, `MixedPhases`) is a state machine with one program counter per
  thread. One step is what happens between two lock operations, and schedules are arbitrary.
- Client reads are total functions of a snapshot of the store. A paged list is any partition of the listed objects
  into pages. Admissions are serial on a consistent snapshot.
- `checks` in `Admission` is the outcome of the validation that reads no other definition; `guarded` says whether a
  metadata-only update changes guarded metadata.
- Hashes, clocks and the validity of extra keys are parameters.

## Where the code differs from what one might expect

- The field documentation reads the identity name `*` as every name; the compiled rule reads it literally, as RBAC
  does. The rules grant what the documentation says if and only if no identity name is `*`
  (`Impersonation.DocumentedMeaningIff`; `Impersonation.StarIsNotGranted` gives the failing request).
- A forbidden resource without a star also stands for its subresources, but compliance is checked at the resource
  only. A compliant definition excludes them all if and only if it also excludes the pattern of the subresources,
  `pods/*` for `pods` (`RoleEvaluator.ForbiddenResourcesExact`, `RoleEvaluator.ForbiddenCombinationsExact`; the
  failing inputs of both are `RoleEvaluator.SubresourceStaysOpen`). The same condition decides whether the generator
  can grant a forbidden combination on some discovered subresource (`RoleSafety.NeverGrantedIff`). Exactness is stated
  for definitions whose names leave some character unused.
- Forbidden verb patterns such as `impersonate:*` are documented, but compliance compares them literally with the
  restricted verbs, which cannot be such patterns. A policy with one is met only by definitions that restrict `*` and
  therefore generate nothing from discovery (`RoleSafety.PatternVerbShutsOut`).
- Forbidden resource and verb combinations are matched against the resources of generated impersonation rules as
  they are written; only the group wildcard is expanded. A forbidden request gets through a clear grant if and only if
  an action names its resources by a wildcard that stands for a forbidden one
  (`ImpersonationPolicy.LetsThroughIffOpen`). `ImpersonationPolicy.AllResourcesPass` gives accepted grants that the
  denylist finds clear and that grant a request for a resource forbidden with every verb.
- In these combinations the empty group is documented as the core group. For generated impersonation rules it stands
  for every group, so the documented meaning holds if and only if the combination names a group or no verb
  (`ImpersonationPolicy.DocumentedForbidsIff`).
- Limits on identity names are documented to have the semantics of subject limits. They read the allow lists as
  alternatives, subject limits read them as conditions that add up. The verdicts agree on all names if and only if at
  most one allow list is given or the forbidden entries leave no allowed entry alive (`IdentityNames.SameVerdictsIff`;
  identity limits are never the stricter ones).
- A role reference of a binding that only has selectors is never examined while the selectors select no namespace.
  Forbidden names are refused if and only if the binding is examined (`BindSafety.RefusedIffExamined`), and of a
  compliant definition an unexamined binding may carry any references (`BindSafety.UnexaminedStaysCompliant`).
- Rule keys can hide a change before an apply. Rules are equal up to entry order if and only if their keys are equal and
  both separators cut them in the same places (`ApplyDiff.EqualKeysIff`, for all rules). There are two ways to differ
  under one key: the empty list and the list of one empty entry (`ApplyDiff.EmptyNameCollides`), and entries that
  contain a comma, since identity names may. The names `a` and `b` and the one name `a,b` give accepted specs with
  matching rules and different grants (`ApplyImpersonation.CommaCollides`). Well-formed rules, free of separators and
  without lists made of one empty entry except the core group, are told apart (`ApplyDiff.WellFormedKeys`), and so are
  all rules compiled from specs free of separators (`ApplyImpersonation.CompiledIsWellFormed`).
- The item markers of the impersonation spec are exactly what an accepted action rule needs: with an empty resource
  name the compiled rule grants something else (`Impersonation.NameMarkerIsExact`).
- Covering resources chains for a pair of patterns exactly under `Matcher.CoversSubresources`
  (`Matcher.ResourceCoverageChainsIff`).
- Two reclassifications do not commute when they record different field managers: the later text replaces the
  earlier (`SharedRuns.ManagedOperationsCommute` is the exact condition).
- A selected policy name that is empty passes the default-policy check exactly when no policy claims the requester
  (`DefaultPolicy.NothingSelected`).

## Model

| member | source | states |
|---|---|---|
| ClientCache.EvictKeepsCache | internal/controller/authorization/impersonation.go:91-96 | eviction keeps the order slice duplicate-free and equal to the cached usernames, and makes room below 256 entries |
| ClientCache.PutKeepsCache | internal/controller/authorization/impersonation.go:84-101 | the locked store keeps order and cache in step, bounded by 256, and leaves an entry built for the username |
| ClientCache.ImpersonatedClientCache.Lookup | internal/controller/authorization/impersonation.go:54-60 | a read-locked lookup hits exactly the usernames in the order slice, with a client built for that username |
| ClientCache.ImpersonatedClientCache.StoreBuilt | internal/controller/authorization/impersonation.go:84-101 | the in-place store produces the specified cache and returns a client for the username |
| ClientCache.StepKeepsInv | internal/controller/authorization/impersonation.go:48-106 | each step of each caller keeps cache, threads, leaders and in-flight calls consistent |
| ClientCache.ScheduleSafety | internal/controller/authorization/impersonation.go:29-106 | in every schedule the order lists the 256 most recently stored usernames without duplicates, at most one factory call per username runs, each returned client was built for the username asked for, and the final recheck never finds an entry |
| ClientCache.ErrorsComeFromTheFactory | internal/controller/authorization/impersonation.go:54-106 | in every schedule a caller gets an error only after the factory failed for its username; cached clients are returned as clients |
| ClientCache.ClientsComeFromTheFactory | internal/controller/authorization/impersonation.go:54-106 | in every schedule a client that is returned is one the factory returned before for the same username |
| ClientCache.StoredIsServed | internal/controller/authorization/impersonation.go:54-101 | what one caller stored is what every later caller gets at once, as long as it is not evicted |
| ClientCache.NoDeadlock | internal/controller/authorization/impersonation.go:66-106 | a waiting caller always has a leader that can step, so some caller can step until all have returned |
| ClientCache.StepsTerminate | internal/controller/authorization/impersonation.go:48-106 | each step brings its caller nearer to returning and moves no other |
| Paging.FindFirst | api/authorization/v1alpha1/restrictedbinddefinition_webhook.go:286-335 | the search over continue tokens reports a hit exactly when the whole store has one |
| Admission.CollisionIsSameObject | api/authorization/v1alpha1/webhook_constants.go:36-46 | two role targets collide exactly when they denote the same RBAC object |
| Admission.SearchBoth | api/authorization/v1alpha1/restrictedbinddefinition_webhook.go:286-335 | the paged searches over both kinds find nothing exactly when no other definition carries the key |
| Admission.ValidateBind | api/authorization/v1alpha1/binddefinition_webhook.go:400-483 | create and update are accepted exactly for an immutable target name that is free in both kinds |
| Admission.ValidateRestrictedBind | api/authorization/v1alpha1/restrictedbinddefinition_webhook.go:60-246 | accepted exactly for immutable target and policy, a free target name, a live policy and an allowed requester |
| Admission.ValidateRole | api/authorization/v1alpha1/roledefinition_webhook.go:100-276 | accepted exactly for an immutable supported target that no other definition generates |
| Admission.ValidateRestrictedRole | api/authorization/v1alpha1/restrictedroledefinition_webhook.go:50-318 | accepted exactly for an immutable supported target that is free, a live policy and an allowed requester |
| Admission.ValidatePolicy | api/authorization/v1alpha1/rbacpolicy_webhook.go:61-96 | accepted exactly when the default assignment overlaps no other policy's |
| Admission.ValidatePolicyDelete | api/authorization/v1alpha1/rbacpolicy_webhook.go:98-137 | deletion is accepted exactly when no restricted definition refers to the policy |
| Admission.EffectKeepsBinds | api/authorization/v1alpha1/restrictedbinddefinition_webhook.go:92-335 | an admitted request never makes two bind definitions share a target name |
| Admission.EffectKeepsRoles | api/authorization/v1alpha1/roledefinition_webhook.go:146-276 | an admitted request never makes two role definitions generate the same role |
| Admission.EffectKeepsReferences | api/authorization/v1alpha1/rbacpolicy_webhook.go:98-137 | an admitted request, including the delete guard and finalizers, never leaves a reference to a missing or deleting policy |
| Admission.EffectKeepsPolicies | api/authorization/v1alpha1/rbacpolicy_webhook.go:146-219 | an admitted request keeps the default assignments of distinct policies disjoint |
| Admission.AdmissionSafety | api/authorization/v1alpha1/restrictedbinddefinition_webhook.go:92-335 | in every store reachable by serial admissions target names and generated roles are unique, policy references are live and default assignments disjoint |
| Admission.ReachableClaims | api/authorization/v1alpha1/rbacpolicy_webhook.go:146-219 | in every reachable store a requester two policies claim holds two different assigned principals |
| Admission.GuardsAreExact | api/authorization/v1alpha1/rbacpolicy_webhook.go:98-219 | creating definitions, assigning policies and deleting policies is admitted exactly when the resulting store keeps all guarantees, so no guard can be dropped or loosened |
| AdmissionHistory.AdmissionIsExact | api/authorization/v1alpha1/restrictedbinddefinition_webhook.go:60-246 | on a sound store every request of every kind is admitted if and only if its own validation passed or its spec is unchanged, its labels are allowed, no stored definition's target or policy changes, the store afterwards is sound, and whoever asks for a policy may use it |
| AdmissionHistory.NeedsAreExact | api/authorization/v1alpha1/restrictedroledefinition_webhook.go:50-318 | on any store, sound or not, a request is admitted exactly when the fields of stored definitions it must keep are kept, its target is supported and unused by every other definition, its policy is in use and open to the requester, its assignment shares nothing with others, or nothing refers to the policy it deletes |
| AdmissionHistory.ReachableIsSound | api/authorization/v1alpha1/rbacpolicy_webhook.go:98-219 | every store reachable by serial admissions is sound |
| AdmissionHistory.EffectKeepsKeys | api/authorization/v1alpha1/binddefinition_webhook.go:448-483 | no admitted request but its deletion changes the target name, role target or policy of a stored definition |
| AdmissionHistory.RunKeepsKeys | api/authorization/v1alpha1/roledefinition_webhook.go:146-276 | over every run a definition that no request deletes keeps its target and its policy |
| AdmissionHistory.DeletingStays | api/authorization/v1alpha1/rbacpolicy_webhook.go:98-137 | a policy that is being deleted stays so until it is gone |
| AdmissionHistory.DeletedIsUnused | api/authorization/v1alpha1/rbacpolicy_webhook.go:98-137 | an admitted deletion leaves a policy gone or being deleted that no definition refers to |
| AdmissionHistory.ReachableTargets | api/authorization/v1alpha1/roledefinition_webhook.go:146-276 | in every reachable store each role definition names a ClusterRole without namespace or a Role in one |
| AdmissionHistory.ReachableTargetNames | api/authorization/v1alpha1/restrictedbinddefinition_webhook.go:286-335 | in every reachable store no two bind definitions of either kind share a target name |
| AdmissionHistory.ReachableRoles | api/authorization/v1alpha1/webhook_constants.go:36-46 | in every reachable store no two role definitions of either kind have the same kind, name and, for a Role, namespace |
| AdmissionHistory.ReachablePolicies | api/authorization/v1alpha1/rbacpolicy_webhook.go:98-219 | in every reachable store each policy referred to exists and is not being deleted, and no two policies are assigned a common group or service account |
| DefaultPolicy.ServiceAccountRoundTrip | api/authorization/v1alpha1/default_policy_assignment_webhook.go:32-43 | usernames of the service-account form parse to their namespace and name and back |
| DefaultPolicy.Matches | api/authorization/v1alpha1/default_policy_assignment_webhook.go:45-70 | a requester matches exactly when it holds an assigned principal |
| DefaultPolicy.CollectMatched | api/authorization/v1alpha1/default_policy_assignment_webhook.go:72-97 | all pages together give exactly the matched policies, once each |
| DefaultPolicy.ValidateDefaultPolicy | api/authorization/v1alpha1/default_policy_assignment_webhook.go:130-261 | with a selected policy, accepted exactly when it exists and stays, nothing but it is matched, and with a default assignment it is matched; with no policy selected, accepted exactly when none is matched; with or without the field index |
| DefaultPolicy.NothingSelected | api/authorization/v1alpha1/default_policy_assignment_webhook.go:166-261 | without a selected policy the request passes exactly when no policy is assigned to a group of the requester or to the service account it is |
| DefaultPolicy.PolicySelected | api/authorization/v1alpha1/default_policy_assignment_webhook.go:166-261 | with a selected policy the request passes exactly when the policy exists and is not being deleted, no other policy is assigned to the requester, and the policy, if it is assigned at all, is |
| DefaultPolicy.ValidateNoOverlap | api/authorization/v1alpha1/rbacpolicy_webhook.go:146-185 | the overlap check over all pages passes exactly when the assignment is disjoint from every other policy's |
| DefaultPolicy.OverlapErrors | api/authorization/v1alpha1/rbacpolicy_webhook.go:187-219 | two assignments give no error exactly when they share no principal |
| DefaultPolicy.TwoPoliciesNeedTwoPrincipals | api/authorization/v1alpha1/rbacpolicy_webhook.go:146-219 | with disjoint assignments, matching two policies takes two distinct principals |
| ImpersonationVerbs.VerbRoundTrip | api/authorization/v1alpha1/constrained_impersonation_types.go:249-299 | a verb parses to a mode and action exactly when these are printable and print to that verb, also for verbs with colons |
| ImpersonationVerbs.VerbsDistinct | api/authorization/v1alpha1/constrained_impersonation_types.go:249-257 | identity and action verbs are distinct from each other, from the wildcard and, for actions, for different modes or verbs |
| Impersonation.NamesErrors | api/authorization/v1alpha1/constrained_impersonation_types.go:547-623 | no error exactly when names are given if and only if the mode is not the associated node, and none of them is an identity the resource may not name |
| Impersonation.IdentityErrors | api/authorization/v1alpha1/constrained_impersonation_types.go:453-623 | no error exactly for a resource the mode and the target role may name, an extra key exactly on user extras, and nameable names |
| Impersonation.ActionErrors | api/authorization/v1alpha1/constrained_impersonation_types.go:660-697 | no error exactly with groups, resources and plain underlying verbs |
| Impersonation.ValidateSpec | api/authorization/v1alpha1/constrained_impersonation_types.go:416-451 | the error list is empty exactly for the accepted specs |
| Impersonation.AcceptedIffAllowed | api/authorization/v1alpha1/constrained_impersonation_types.go:416-697 | accepted exactly for a known mode with some identity, where each identity names a resource that fits mode and role, carries a valid extra key exactly on user extras and no reserved name, and each action has groups, resources and verbs that encode no impersonation |
| Impersonation.BuildRules | api/authorization/v1alpha1/constrained_impersonation_types.go:326-377 | the loops over the map of names and its sorted keys give the specified rules, in whatever order the map is iterated |
| Impersonation.CompiledShape | api/authorization/v1alpha1/constrained_impersonation_types.go:326-407 | first one rule per resource in ascending order, then one per action in the given order, all lists sorted without duplicates and without empty entries but the core group |
| Impersonation.CompilePreservesMeaning | api/authorization/v1alpha1/constrained_impersonation_types.go:326-407 | for every accepted spec with the item markers and every request, the generated rules grant it exactly when some identity or action of the spec denotes it |
| Impersonation.NameMarkerIsExact | api/authorization/v1alpha1/constrained_impersonation_types.go:381-397 | an accepted action rule keeps its meaning on all requests if and only if no resource name is empty |
| Impersonation.GrantedIdentity | api/authorization/v1alpha1/constrained_impersonation_types.go:326-623 | every identity an accepted spec grants is named by one of its rules for its own mode, is no reserved identity such as system:masters, and from a namespaced role is a service account |
| Impersonation.StarIsNotGranted | api/authorization/v1alpha1/constrained_impersonation_types.go:144-157 | for an accepted spec with the name "*", a request that the documentation grants and the rules do not |
| Impersonation.DocumentedMeaningIff | api/authorization/v1alpha1/constrained_impersonation_types.go:144-157 | the rules grant the documented meaning on all requests if and only if no identity name is "*" |
| Impersonation.CompileIgnoresOrder | api/authorization/v1alpha1/constrained_impersonation_types.go:326-407 | reordering or splitting identities and reordering or duplicating entries leaves the output unchanged |
| Impersonation.PermutedIdentities | api/authorization/v1alpha1/constrained_impersonation_types.go:334-350 | any permutation of the identities gives the same output |
| RuleLists.MergedMeans | api/authorization/v1alpha1/constrained_impersonation_types.go:334-360 | merging identity rules by rendered resource grants what the single rules denote |
| RuleLists.DedupedMeans | api/authorization/v1alpha1/constrained_impersonation_types.go:362-407 | sorting, compacting and dropping empty entries keeps the meaning of a rule without empty entries |
| RuleLists.DedupeByElements | api/authorization/v1alpha1/constrained_impersonation_types.go:381-407 | the sorted compacted list depends on the set of entries only |
| Matcher.MatchWildcard | pkg/policy/matcher.go:57-91 | the method with the shrinking remainder answers exactly the declarative glob relation |
| Matcher.GreedyIsComplete | pkg/policy/matcher.go:82-88 | whenever the middle parts fit in order somewhere, leftmost search finds them |
| Matcher.MatchesWildcardIsGlob | pkg/policy/matcher.go:57-91 | prefix, suffix and leftmost middle search hold exactly when each star can stand for some string |
| Matcher.WildcardPreorder | pkg/policy/matcher.go:57-91 | matching is reflexive, and transitive when a pattern is used as a value |
| Matcher.ResourceNameWithoutStar | pkg/policy/matcher.go:122-130 | a star-free resource pattern covers exactly itself and its subresources |
| Matcher.ResourceCoverageChainsIff | pkg/policy/matcher.go:122-130 | covering a forbidden pattern covers all it covers if and only if the stated condition on the two patterns holds |
| RoleEvaluator.EvaluateRoleLimits | pkg/policy/role_evaluator.go:68-146 | the answer is empty exactly when every forbidden verb, group, resource and combination is restricted and the impersonation grant complies |
| RoleCompliance.RoleCompliantIff | pkg/policy/role_evaluator.go:68-191 | with patterns read as globs, compliant exactly when cluster roles are allowed where targeted, each forbidden verb is restricted, each forbidden group, resource and combination is taken away by an entry, and the grant is safe |
| RoleCompliance.GrantCompliantIff | pkg/policy/constrained_impersonation.go:27-281 | a grant complies exactly when it is opted into, of a known mode, its compiled rules show nothing denied, modes, resources, number of names, names and action verbs are within the limits, and the legacy verb is restricted where asked |
| RoleEvaluator.UncoveredVerbs | pkg/policy/role_evaluator.go:122-129 | collects exactly the verbs of a rule restricted neither globally nor in the group |
| RoleEvaluator.ForbiddenGroupsCovered | pkg/policy/role_evaluator.go:93-100 | without a violation, every group any forbidden pattern covers is restricted by a full-group entry |
| RoleEvaluator.ForbiddenResourcesCovered | pkg/policy/role_evaluator.go:102-110 | one entry that covers a forbidden pattern in all groups and chains excludes every resource the pattern covers in every group |
| RoleEvaluator.ForbiddenResourcesExact | pkg/policy/role_evaluator.go:102-110 | without a violation, everything a forbidden resource covers is excluded in every concrete group if and only if the resource has a star or the pattern of its subresources is excluded too |
| RoleEvaluator.SubresourceStaysOpen | pkg/policy/role_evaluator.go:166-191 | definitions without a violation, for a forbidden resource and a forbidden combination, that leave a subresource of it open |
| RoleEvaluator.ForbiddenCombinationsExact | pkg/policy/role_evaluator.go:112-139 | without a violation, a forbidden verb is cut off for every covered resource in every covered concrete group if and only if the rule's resource has a star or the pattern of its subresources is cut off too |
| Coverage.CoverageIsMatching | pkg/policy/matcher.go:57-102 | a list of patterns covers every value of a pattern exactly when one of them matches the pattern itself |
| RoleGeneration.CheckAPI | internal/controller/authorization/restrictedroledefinition_controller.go:617-653 | fully blocked exactly when an applying entry has no verbs, otherwise the verbs removed are those of some applying entry |
| RoleGeneration.KeptVerbs | internal/controller/authorization/restrictedroledefinition_controller.go:561-607 | the kept verbs are exactly those of an open resource that are removed neither globally nor in the group version |
| RoleGeneration.KeyUnique | internal/controller/authorization/restrictedroledefinition_controller.go:592-599 | the map key determines group and verb list |
| RoleGeneration.Generate | internal/controller/authorization/restrictedroledefinition_controller.go:496-557 | an error exactly for a group version that does not parse, otherwise in strict order exactly one rule for each group and kept verb list, with exactly the resources that keep it |
| RoleGeneration.OutputUnique | internal/controller/authorization/restrictedroledefinition_controller.go:529-554 | the output is one and the same for every order in which the maps are iterated |
| RoleGeneration.OutputAscends | internal/controller/authorization/restrictedroledefinition_controller.go:535-554 | in the output groups ascend, within a group the joined resources, and for these the joined verbs |
| RoleSafety.OutputMeans | internal/controller/authorization/restrictedroledefinition_controller.go:496-653 | the generated rules grant a request exactly when a discovered resource of the group keeps the verb |
| RoleSafety.GeneratedExactly | internal/controller/authorization/restrictedroledefinition_controller.go:496-653 | the generated rules grant a request exactly when a discovered resource of the group has the name, scope and verb, no restriction of verbs or resources covers it, and no group restriction without versions or with its version blocks it or removes the verb |
| RoleSafety.GrantableIff | internal/controller/authorization/restrictedroledefinition_controller.go:561-653 | a verb on a resource is cut off in the sense of the policy evaluation exactly when no discovery makes the generator grant it, versions included |
| RoleSafety.GeneratedIsSafe | internal/controller/authorization/restrictedroledefinition_controller.go:388-401 | rules generated from a compliant definition use no forbidden verb and no group a forbidden pattern covers, and of a forbidden resource or combination at most subresources whose pattern is not cut off |
| RoleSafety.NeverGrantedIff | pkg/policy/role_evaluator.go:112-139 | for a compliant definition, no discovery makes the generator grant a forbidden combination if and only if its resource has a star or the pattern of its subresources is cut off |
| RoleSafety.PatternVerbShutsOut | pkg/policy/role_evaluator.go:82-91 | a policy with a forbidden verb pattern is met only by definitions that restrict every verb and generate nothing |
| RoleSafety.RoleVerbsAllowed | internal/controller/authorization/restrictedroledefinition_controller.go:388-422 | no request the whole role grants, generated or by impersonation, uses a verb that a forbidden verb pattern matches |
| ImpersonationPolicy.FirstForbidden | pkg/policy/constrained_impersonation.go:97-124 | a violation exactly when some forbidden combination matches the generated verb, group and resource |
| IdentityNames.SameVerdictsIff | pkg/policy/constrained_impersonation.go:248-281 | identity name limits and subject name limits give the same verdict on all names if and only if at most one allow list is given or no allowed entry survives the forbidden ones |
| ImpersonationPolicy.EvaluateGrant | pkg/policy/constrained_impersonation.go:27-55 | the answer is empty exactly for a grant that is opted into, clear of the denylists after compilation, within the limits and safe from the legacy verb |
| ImpersonationPolicy.GrantedVerbsAllowed | pkg/policy/constrained_impersonation.go:65-93 | no request a compliant grant allows uses a verb the policy forbids |
| ImpersonationPolicy.GrantedIdentityAllowed | pkg/policy/constrained_impersonation.go:126-197 | no identity a compliant grant allows is outside the allowed modes, resources and names |
| ImpersonationPolicy.LetsThroughIffOpen | pkg/policy/constrained_impersonation.go:97-124 | a compliant grant allows a star-free request that a policy rule forbids if and only if an action reaches it through a resource wildcard |
| ImpersonationPolicy.AllResourcesPass | pkg/policy/constrained_impersonation.go:97-124 | for each star-free resource other than users, a policy that forbids it with every verb and an accepted grant that is clear of it and grants a request for it |
| ImpersonationPolicy.DocumentedForbidsIff | pkg/policy/constrained_impersonation.go:97-124 | the empty group means the core group on all generated rules, as documented, if and only if the combination names a group or no verb |
| BindEvaluator.CheckRoleRef | pkg/policy/evaluator.go:293-342 | no violation exactly for a reference allowed by name or label and forbidden by neither, failing closed without labels |
| BindEvaluator.CheckSubject | pkg/policy/evaluator.go:440-482 | no violation exactly for a subject of an allowed kind within the limits of its kind |
| BindEvaluator.CheckScope | pkg/policy/evaluator.go:47-83 | no violation exactly when the explicit and all selected namespaces are in scope |
| BindEvaluator.CheckBindingRefs | pkg/policy/evaluator.go:174-263 | no violation exactly when both lists of references have limits and satisfy them in each namespace looked at |
| BindEvaluator.CheckClusterBindings | pkg/policy/evaluator.go:133-172 | no violation exactly when cluster-wide references are allowed, limited and within the limits |
| BindEvaluator.CheckNamespaceLimits | pkg/policy/evaluator.go:345-397 | no violation exactly when every target passes and the number of distinct targets is within the maximum |
| BindEvaluator.Evaluate | pkg/policy/evaluator.go:24-120 | the answer is empty exactly for the compliant definitions |
| BindSafety.ResolveNamespaces | internal/controller/authorization/binddefinition_helpers.go:478-522 | an existing explicit namespace or the union over the selectors, each once, or an error for an invalid selector |
| BindSafety.ScopeMeaning | pkg/policy/matcher.go:26-46 | in scope means listed, selected by labels, or a scope of exactly the lone star |
| BindSafety.LabelsFound | pkg/policy/evaluator.go:293-342 | labels are found exactly for roles that exist and have some |
| BindSafety.CompliantNamespaces | pkg/policy/evaluator.go:24-120 | without violations every namespace the controller resolves is in scope, forbidden neither by name nor by prefix, and selected where only selected namespaces are allowed |
| BindSafety.CompliantCount | pkg/policy/evaluator.go:385-395 | without violations the distinct resolved namespaces stay within the maximum |
| BindSafety.CompliantRefs | pkg/policy/evaluator.go:208-342 | without violations every role reference bound in a namespace is allowed there and not forbidden, with patterns read as globs |
| BindSafety.CompliantBindingClusterRefs | pkg/policy/evaluator.go:191-206 | without violations every cluster-role reference of a binding is allowed and not forbidden, whatever it resolves to |
| BindSafety.CompliantClusterRefs | pkg/policy/evaluator.go:39-171 | without violations cluster-wide references have cluster scope, permission and a safe name |
| BindSafety.CompliantSubjects | pkg/policy/evaluator.go:85-117 | without violations every subject is of an allowed and not forbidden kind; users and groups match no forbidden name, prefix or suffix and every allow list that is given; service accounts live in scope and in an admitted namespace |
| BindSafety.CompliantIffSafe | pkg/policy/evaluator.go:24-482 | the evaluation accepts exactly the definitions that bind cluster-wide only where scope and limits allow it, reach only namespaces in scope and within the limits, refer only to allowed and not forbidden roles with each set of labels looked up, and name only allowed subjects |
| BindSafety.BlindVerdictHolds | pkg/policy/evaluator.go:24-120 | what is accepted without a label getter is accepted on every cluster |
| BindSafety.BlindIffEmpty | pkg/policy/evaluator.go:24-120 | without a label getter exactly the definitions without selectors are accepted that comply on an empty cluster |
| BindSafety.ExaminedRefs | pkg/policy/evaluator.go:208-260 | every accepted role reference is allowed and not forbidden with each set of labels it is looked up with |
| BindSafety.RefusedIffExamined | pkg/policy/evaluator.go:208-260 | forbidden names are refused for all limits and references if and only if the binding has a namespace, no selectors, or selectors that select something |
| BindSafety.UnexaminedStaysCompliant | pkg/policy/evaluator.go:24-263 | a compliant definition stays compliant whatever role references an unexamined binding carries |
| LabelSelectors.AddonNamespaceSelectorIsScoped | api/authorization/v1alpha1/binddefinition_webhook.go:586-643 | the flag-updating loop decides exactly the declarative condition on owner and add-on requirements |
| LabelSelectors.MatchesExactly | pkg/policy/evaluator.go:579-588 | a selector matches exactly the labels that contain its match labels and meet what every well-formed expression demands |
| LabelSelectors.ScopedExactly | api/authorization/v1alpha1/binddefinition_webhook.go:586-643 | accepted exactly when one add-on is required, or none is and add-ons are not asked for, or the add-on label is not mentioned and owners that admit add-ons also refuse them |
| LabelSelectors.ScopedReachesOneAddon | api/authorization/v1alpha1/binddefinition_webhook.go:583-643 | any two label maps an accepted valid selector mentioning owner or add-on matches with owner add-on agree on the add-on label |
| LabelSelectors.OneAddonIffMentioned | api/authorization/v1alpha1/binddefinition_webhook.go:583-643 | for an accepted selector that reaches add-ons at all, agreement holds if and only if it mentions the owner or the add-on label |
| BindingNames.BindingNameBounds | pkg/helpers/resource.go:61-77 | names have at most 253 characters, are injective in the reference without truncation, and clash only at full length |
| BindingNames.BindingNameForm | pkg/helpers/resource.go:61-77 | names that fit are target, reference and suffix joined by dashes; longer ones keep 244 characters and end in a dash and the hash |
| BindingNames.Record | api/authorization/v1alpha1/restrictedbinddefinition_webhook.go:471-494 | a claim is refused only for a real conflict in the same namespace and recorded otherwise |
| BindingNames.Resolve | api/authorization/v1alpha1/restrictedbinddefinition_webhook.go:403-436 | the sorted explicit or selected namespaces that are not terminating, or the bad selector |
| BindingNames.CollectNamespaces | api/authorization/v1alpha1/restrictedbinddefinition_webhook.go:438-469 | all pages of one selector add exactly its active namespaces |
| BindingNames.ValidateClaims | api/authorization/v1alpha1/restrictedbinddefinition_webhook.go:365-401 | accepted exactly when all selectors are valid and namespace and generated name determine the role reference, for any hash |
| BindingNames.SingleValuedMeans | api/authorization/v1alpha1/restrictedbinddefinition_webhook.go:365-436 | claims are single-valued exactly when in no namespace two different references that the object binds there get one generated name |
| ApplyDiff.ListKeyExact | pkg/ssa/patchhelper.go:729-747 | sorted joined lists of comma-free entries are equal exactly for the same entries, up to the empty list |
| ApplyDiff.ListKeyMeaning | pkg/ssa/patchhelper.go:729-747 | for all entries, keys are equal exactly when the sorted entries have the same pieces between commas |
| ApplyDiff.RuleKeyExact | pkg/ssa/patchhelper.go:729-766 | the exact meaning of equal rule keys for entries free of the separators |
| ApplyDiff.RuleKeyMeaning | pkg/ssa/patchhelper.go:729-766 | the exact meaning of equal rule keys also with commas, and with bars in resource names: the same comma pieces in each of the five lists |
| ApplyDiff.EqualKeysIff | pkg/ssa/patchhelper.go:729-766 | for all rules, they are equal up to entry order exactly when their keys are equal and commas and bars cut them in the same places |
| ApplyDiff.WellFormedKeys | pkg/ssa/patchhelper.go:729-766 | rule keys of well-formed rules are equal exactly when the rules are equal up to entry order |
| ApplyDiff.SubjectKeyExact | pkg/ssa/patchhelper.go:683-705 | subject keys are equal exactly for the same subject up to the default group, names may contain slashes |
| ApplyDiff.SameUpToDefault | pkg/ssa/patchhelper.go:683-705 | the same up to the default group means equal kind, name and namespace, and equal groups unless both are a user's or group's default or left out |
| ApplyDiff.PolicyRulesMatch | pkg/ssa/patchhelper.go:708-727 | the method compares the multisets of rule keys |
| ApplyDiff.SubjectListsMatch | pkg/ssa/patchhelper.go:661-681 | the method compares the multisets of subject keys |
| ApplyDiff.RulesMatchExact | pkg/ssa/patchhelper.go:708-766 | rule lists in which equal keys never hide a different cut match exactly when the rules pair off up to entry order |
| ApplyDiff.SubjectsMatchExact | pkg/ssa/patchhelper.go:661-705 | subject lists match exactly when the subjects pair off up to the default group |
| ApplyDiff.ReorderedRulesMatch | pkg/ssa/patchhelper.go:708-727 | every reordering of rules and entries matches, without assumptions on the entries |
| ApplyDiff.ReorderedSubjectsMatch | pkg/ssa/patchhelper.go:661-681 | every reordering of subjects matches, without assumptions on the names |
| ApplyDiff.MatchingRulesGrantTheSame | pkg/ssa/patchhelper.go:317-341 | matching rule lists in which equal keys never hide a different cut grant the same requests |
| ApplyDiff.UpToDateGrantsTheSame | pkg/ssa/patchhelper.go:317-341 | a live role that is found up to date, left alone and told apart from the desired rules grants the requests the configuration asks for |
| ApplyDiff.EmptyNameCollides | pkg/ssa/patchhelper.go:729-747 | the empty name and no name share a key and differ in grants |
| ApplyDiff.OwnerRefsMatch | pkg/ssa/patchhelper.go:600-641 | true exactly when the first live reference with each desired UID agrees on the declared fields |
| ApplyDiff.RoleMatches | pkg/ssa/patchhelper.go:519-542 | true exactly when labels, annotations, owners and rules are up to date |
| ApplyDiff.UpToDateIffUnchanged | pkg/ssa/patchhelper.go:519-641 | a live role is up to date exactly when merging the declared labels, annotations and owner references into it changes nothing and the rules match |
| ApplyDiff.DecideRole | pkg/ssa/patchhelper.go:317-341 | the apply is skipped exactly for an unforced unconditional request whose live role is up to date |
| ApplyImpersonation.CompiledIsWellFormed | api/authorization/v1alpha1/constrained_impersonation_types.go:326-407 | every rule compiled from an accepted spec free of separators is well-formed |
| ApplyImpersonation.UpToDateGrantsTheSpec | pkg/ssa/patchhelper.go:317-341 | a role that is left alone and told apart from the compiled rules grants exactly what the spec denotes |
| ApplyImpersonation.PlainUpToDate | pkg/ssa/patchhelper.go:317-341 | so does every role with well-formed rules that is left alone for a spec free of separators |
| ApplyImpersonation.MatchingSpecsMeanTheSame | pkg/ssa/patchhelper.go:708-727 | accepted specs free of separators whose compiled rules match denote the same requests |
| ApplyImpersonation.CommaCollides | pkg/ssa/patchhelper.go:729-766 | for any two admissible names, the spec with both and the spec with their comma-joined name are accepted, have matching rules and grant different requests |
| NameLists.MergeSourceNames | pkg/helpers/resource.go:136-149 | the trimming loop gives the merged text |
| NameLists.RemoveSourceName | pkg/helpers/resource.go:153-167 | the filtering loop gives the reduced text |
| NameLists.ParseReferencedBy | internal/controller/authorization/binddefinition_helpers.go:774-787 | the loop gives the non-empty trimmed entries |
| NameLists.MergeAdds | pkg/helpers/resource.go:136-149 | for every text, merging adds exactly the name to the set of names |
| NameLists.RemoveDrops | pkg/helpers/resource.go:153-167 | for every text, removing drops exactly the name from the set of names |
| NameLists.MergeCanonical | pkg/helpers/resource.go:134-149 | merging keeps sorted duplicate-free text so |
| NameLists.RemoveCanonical | pkg/helpers/resource.go:151-167 | removing keeps sorted duplicate-free text so |
| NameLists.MergesCommute | pkg/helpers/resource.go:134-149 | merges of two names commute to identical text from canonical text |
| NameLists.MergeRemoveCommute | pkg/helpers/resource.go:134-167 | a merge and a removal of different names commute to identical text from canonical text |
| SharedAccounts.ServiceAccount.RemoveOwnerRef | internal/controller/authorization/binddefinition_helpers.go:73-91 | removes exactly the references with the full owner identity and reports a change exactly then |
| SharedAccounts.ServiceAccount.AddExternalReference | internal/controller/authorization/binddefinition_helpers.go:526-572 | the annotations afterwards, with the name in the referenced-by list |
| SharedAccounts.ServiceAccount.RemoveExternalReference | internal/controller/authorization/binddefinition_helpers.go:704-770 | the annotations afterwards; the last reference takes the field managers along |
| SharedAccounts.ServiceAccount.AddManagedReference | internal/controller/authorization/binddefinition_helpers.go:660-700 | the annotations afterwards, with the name in the source names and the source kind set |
| SharedAccounts.ServiceAccount.Detach | internal/controller/authorization/binddefinition_helpers.go:577-614 | the annotations and owners afterwards; the last source takes its source kind along |
| SharedAccounts.ServiceAccount.Reclassify | internal/controller/authorization/binddefinition_helpers.go:620-655 | the annotations and owners afterwards; a source becomes a reference and the field managers are recorded |
| SharedRuns.SourcesAfter | internal/controller/authorization/binddefinition_helpers.go:577-700 | each operation changes only its own name in the set of sources |
| SharedRuns.ReferencesAfter | internal/controller/authorization/binddefinition_helpers.go:526-770 | each operation changes only its own name in the set of references |
| SharedRuns.RunSources | internal/controller/authorization/binddefinition_helpers.go:577-700 | after every run a BindDefinition is a source exactly as its own last managing operation says |
| SharedRuns.RunReferences | internal/controller/authorization/binddefinition_helpers.go:526-770 | after every run a BindDefinition references the account exactly as its own last referencing operation says |
| SharedRuns.RunOwners | internal/controller/authorization/binddefinition_helpers.go:73-91 | after every run an owner reference is left exactly when no operation of its complete identity released it |
| SharedRuns.RunKeepsManagers | internal/controller/authorization/binddefinition_helpers.go:704-757 | over every run the field managers are recorded only while somebody references the account |
| SharedRuns.ManagersAfter | internal/controller/authorization/binddefinition_helpers.go:620-757 | the field managers after each operation: recorded by a reclassification, dropped with the only reference, otherwise unchanged |
| SharedRuns.KindAfter | internal/controller/authorization/binddefinition_helpers.go:577-700 | the source kind after each operation: set with a source, dropped with the last source if it is the operator's own, otherwise unchanged |
| SharedRuns.RunKeepsForeign | internal/controller/authorization/binddefinition_helpers.go:526-770 | no run touches an annotation of others |
| SharedRuns.RunStaysTidy | internal/controller/authorization/binddefinition_helpers.go:526-770 | over every run the annotations stay canonical, absent when empty, with a source kind exactly next to source names |
| SharedRuns.ManagedOperationsCommute | internal/controller/authorization/binddefinition_helpers.go:577-700 | adding, detaching and reclassifying by different BindDefinitions commute to the same account, text for text, if and only if they do not record different field managers |
| SharedRuns.SourceOperationsCommute | internal/controller/authorization/binddefinition_helpers.go:577-700 | adding and detaching commute also when the references are in any shape |
| PhaseWorkers.StepKeepsInv | hack/benchmark/phases.go:155-195 | each step keeps the claimed indices, the checkpoints and the pending reports accounted for |
| PhaseWorkers.ScheduleSafety | hack/benchmark/phases.go:155-195 | in every interleaving each claimed index is held by one worker or recorded once, and checkpoints strictly increase |
| PhaseWorkers.CompletedRun | hack/benchmark/phases.go:129-344 | when all workers have left, each index from offset to ops - 1 was recorded exactly once and the last report is the greatest multiple of 100 |
| PhaseWorkers.SchedulesEnd | hack/benchmark/phases.go:178-195 | every schedule is bounded by its initial rank |
| PhaseWorkers.StuckIsFinished | hack/benchmark/phases.go:178-195 | no worker can move exactly when all have left |
| MixedPhases.MixedWorkerCounts | hack/benchmark/phases.go:434-455 | each count is the even share of the budget, with the remainder going to the first kinds, and zero without workers |
| MixedPhases.SharesAreFair | hack/benchmark/phases.go:434-455 | the shares add up to the budget and differ by at most one |
| MixedPhases.BudgetKept | hack/benchmark/phases.go:462-596 | in every interleaving of the gate the active workers stay within the budget |
| MixedPhases.BudgetUsed | hack/benchmark/phases.go:434-596 | when all kinds run and there is a worker for each, the whole budget is used |
| MixedPhases.PlanOrder | hack/benchmark/phases.go:484-548 | with a single worker a kind leaves the start only after all kinds before it have ended |
| MixedPhases.NoNeedlessWaiting | hack/benchmark/phases.go:484-548 | with more workers a waiting kind can enter while fewer kinds run than there are workers |
| MixedPhases.NoDeadlock | hack/benchmark/phases.go:484-548 | while some kind has not ended, some kind can enter or leave, also when kinds take turns |
| MixedPhases.RunsEnd | hack/benchmark/phases.go:484-548 | every run uses up its moves, so with the previous row each kind is served in every run that cannot go on |
| Conditions.StatusObject.Set | pkg/conditions/setter.go:18-57 | the list afterwards: replaced on a change of state, appended when new, sorted by type |
| Conditions.StatusObject.Delete | pkg/conditions/setter.go:120-133 | the list afterwards, without the type |
| Conditions.StatusObject.MarkReady | pkg/conditions/kstatus.go:24-29 | from sorted conditions: Ready holds with the given state, both abnormal types are absent, the three exclude each other, all others are as before |
| Conditions.StatusObject.MarkNotReady | pkg/conditions/kstatus.go:33-35 | from sorted conditions: Ready is false with the given state, all others are as before, and exclusion is kept |
| Conditions.StatusObject.MarkReconciling | pkg/conditions/kstatus.go:40-45 | from sorted conditions: Reconciling holds, Ready does not, Stalled is absent, the three exclude each other, all others are as before |
| Conditions.StatusObject.MarkStalled | pkg/conditions/kstatus.go:50-55 | from sorted conditions: Stalled holds, Ready does not, Reconciling is absent, the three exclude each other, all others are as before |
| Conditions.SetOrdered | pkg/conditions/setter.go:18-57 | on sorted unique conditions Set keeps the order, changes only its type, and keeps the transition time while the state is the same |
| Conditions.RemovedOrdered | pkg/conditions/setter.go:120-133 | Delete keeps the order and removes exactly its type |
| Conditions.RunLeaves | pkg/conditions/setter.go:18-57 | after every run from an empty list the types are sorted and unique, each condition has the state of its last Set, and its transition time is that of the last Set that created it or changed its state |
| Conditions.OpsLeave | pkg/conditions/kstatus.go:24-55 | the same after every run of the kstatus operations |
| Conditions.RunExclusive | pkg/conditions/kstatus.go:24-55 | over every run of the kstatus operations no two of Ready, Reconciling and Stalled are true together |
| Discovery.AugmentResources | pkg/discovery/tracker.go:232-275 | the loops over the snapshot give the specified augmentation of every parsable group version |
| Discovery.KeepsPairs | pkg/discovery/tracker.go:243-253 | every original resource and verb is kept |
| Discovery.HasFinalizers | pkg/discovery/tracker.go:257-262 | every resource that is no subresource ends up with a finalizers entry in its group version |
| Discovery.EnrichedVerbs | pkg/discovery/tracker.go:243-253 | a reported resource gains exactly list and watch on status and finalizers subresources and bind and escalate on roles, behind the reported verbs |
| Discovery.AugmentedExactly | pkg/discovery/tracker.go:232-275 | an augmented group version holds exactly the reported resources and the missing finalizers and node metrics entries with their verbs |
| Discovery.ParsedExactly | pkg/discovery/tracker.go:232-242 | a text parses to the group and version around its one slash, or to a version of the core group |
| Discovery.AugmentIdempotent | pkg/discovery/tracker.go:232-275 | augmenting twice is augmenting once |
| Discovery.KeepsDistinct | pkg/discovery/tracker.go:232-275 | distinct resource names stay distinct |
| ViolationGauge.SumWithout | pkg/metrics/metrics.go:499-503 | the total does not depend on the iteration order of the map |
| ViolationGauge.Registry.SetViolations | pkg/metrics/metrics.go:458-475 | the stored counts and the gauge afterwards |
| ViolationGauge.Registry.DeleteContribution | pkg/metrics/metrics.go:479-490 | the stored counts and the gauge afterwards; nothing for an unknown controller |
| ViolationGauge.RunConsistent | pkg/metrics/metrics.go:458-504 | after every run each gauge is the sum of positive stored counts, and zero or unset for a controller without any |
| ViolationGauge.RunStoresLive | pkg/metrics/metrics.go:458-504 | the stored counts are exactly those each resource's last operation left positive |

## Left out

- The reconcilers around role generation, generation for unrestricted RoleDefinitions, the authorize handler, command setup, logging, tracing and events.
- API errors, stale caches and concurrent admissions: admissions are serial on a consistent snapshot.
- Panics and Forget in singleflight, and the contents of the built client beyond the username.
- BindEvaluator.Evaluate: which violations a non-empty answer lists is not stated, and the same holds for RoleEvaluator.EvaluateRoleLimits, ImpersonationPolicy.EvaluateGrant and Impersonation.ValidateSpec; when the answer is empty is exact.
- Error messages, field paths, DNS and label syntax, regular expressions; the local checks of a validator are one parameter.
- The difference between reflect and semantic equality in the update validators: one equality on specs stands for both.
- SHA-256: the hash is a parameter of which only the length of the suffix is known.
- labelSelectorKey in the comparison before an apply, and the managed-field gates of the apply library.
- Label pruning and normalization of apply configurations.
- The maximum number of rules per role, which is checked after role generation.
- ApplyDiff.RoleMatches: does not model ClusterRoles with an aggregation rule, whose rules are not compared.
- Cancellation, deadlines and failing progress callbacks in the benchmark; latency statistics and files.
- Unicode white space beyond Latin-1 in trimming; names are plain.
- Conditions.StatusObject.Set: on a list that already has two conditions of one type the sort leaves an unspecified order, the model keeps the stable one.
- Admission.ValidateBind: role existence and selector warnings are part of the local checks parameter.
- RoleEvaluator.ForbiddenResourcesExact: the only-if half, like that of RoleEvaluator.ForbiddenCombinationsExact, assumes a character the names of the definition leave unused, because entries for every possible last character could cover a resource together.
- IdentityNames.SameVerdictsIff: assumes a character the limits leave unused, because entries for every possible character could decide all names together.
- RoleSafety.NeverGrantedIff: the only-if half assumes an unused character in the same way, and verbs and groups without the separators of the rule map.
- RoleGeneration.Generate: what the rules are is promised for discovered groups without a bar and verbs without a comma, as servers report them; other texts could share a map key.
- PhaseWorkers.CompletedRun: the index is kept with each record, which the recorded operation itself does not show.
