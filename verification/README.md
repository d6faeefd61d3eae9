# UpsilonAuth: a verified model of capability leases

UpsilonAuth registers workloads with grants, mints root leases inside a grant, lets the holder of a lease delegate a
narrower one, revokes whole lineages, counts limited uses, and gives protected services a verifier that decides
requests locally. This project models that logic in Dafny and proves the claims the design rests on, in three parts
that meet at the end:

1. **The authority algebra.** Resource patterns, typed constraints and the two attenuation checks decide on text. They
   are proved sound and, up to the code's own limit of 64 entries, complete for inclusion of what is admitted.
2. **The control plane.** The tables and their transactions are a class; each method is proved to compute a function
   from tables to tables. Mint and delegate are split into reads without a lock, a plan, and a commit, with any other
   step in between, and the invariants hold in every state of every run. Without interleaving, when each operation
   succeeds is an equivalence. Delegation and lineage revocation are also modelled statement by statement, under row
   locks and the advisory lock of the root.
3. **The verifier and the edge.** The revocation cache against the server's tables, the proof replay map, the
   signed-request nonces, the token bucket and the duplicate-key walk, each against a simple reference.

The theorems to read first:

- `Admission.EveryAdmissionInside`: whatever `Authorize` admits, with whatever token, is under a stored lease, and that
  lease, every ancestor and the root workload's stored grant admit it too, amounts included, in every reachable state.
- `Admission.ProofExactly`, `Admission.RefusalsExactly`, `KeyChanges.RotationExactly`, `KeyChanges.AuthenticateExactly`: each
  check, refusal and key change as an equivalence.
- `EndToEnd.RevocationStopsTheLineage`, `EndToEnd.RevokedAdmittedExactly`: with a strict verifier, from the cache lifetime
  (plus the bound on a fetch) after a revocation was committed, no request is admitted under that lease or any lease
  below it, except exactly those whose token was in time when checked while their list was read after the expiry.
- `ResourceLanguage.SubsetIsInclusion`, `AttenuationMeaning.ValidateIsInclusion`, `AttenuationMeaning.ValidateRootIsInclusion`:
  the syntactic checks are exactly inclusion.
- `Operations.MintExactly`, `Operations.DelegateExactly`, `Operations.ConsumeExactly`, `Operations.EnrollExactly`: when each
  operation succeeds, as an equivalence, and what it leaves behind.
- `LockProtocol.CommitIsAtomic`, `LockProtocol.NoLiveDescendant`, `StatementRuns.HistorySound`: delegations and revocations
  statement by statement, under any interleaving with the other transactions as single steps: every commit is a whole
  transaction, and every invariant of whole transactions holds. `LockProtocol.LateSelection` is the exact limit of this
  for disablement and rotation, whose rows the code selects before it waits.
- `ControlPlane.UsesCountPresentedKeys`, `LimitedUse.AdmittedKeysWithinLimit`, `ControlPlane.AuditAccounts`,
  `ControlPlane.KeysAuthenticateOneWorkload`.
- `Limiter.EvictionInvisible`, `Limiter.AllowedAtMostBurstPlusRate`, `ProofOfPossession.ProofAcceptedOnce`,
  `Nonces.NonceAcceptedOnce`, `JsonWalk.PassesExactly`.

## How it is laid out

| file | what it holds |
|---|---|
| `text.dfy` | Option, Result, strings, splitting, byte length |
| `resource.dfy`, `resource_language.dfy` | patterns and values; what they mean |
| `constraints.dfy` | typed constraints, their order and their meaning |
| `attenuation.dfy` | the two attenuation checks; that they are inclusion |
| `domain.dfy`, `token.dfy` | entities, claims and the structural checks on a token |
| `lineage.dfy`, `transactions.dfy`, `repository.dfy` | the lease forest, the transactions as functions, the class that computes them |
| `usecase.dfy` | planning, issuing, authenticating, consuming, as functions |
| `evolution.dfy`, `revocation.dfy`, `keys.dfy`, `uses.dfy`, `authority.dfy` | one invariant each, kept by every transaction |
| `system.dfy` | the control plane as a transition system and its theorems over runs |
| `key_changes.dfy` | rotation, disablement, revocation and authentication exactly; whose key a lease is bound to |
| `refusals.dfy` | every error of the control plane names a fault of the request |
| `operations.dfy`, `service.dfy` | the operations as runs of those steps, exactly when they succeed; the class the handlers call |
| `lock_protocol.dfy`, `statement_runs.dfy` | delegation and revocation statement by statement, among all other transactions; all invariants over such runs |
| `disable_race.dfy` | a complete case of a disablement that misses a lease |
| `pop.dfy`, `middleware.dfy`, `verifier_runs.dfy` | proofs, the verifier, its runs, and the end-to-end theorems |
| `admission.dfy` | what an admission proves and what each refusal means |
| `readmission.dfy` | a complete case of a request admitted under a revoked lease |
| `limited_use.dfy` | limited-use leases at the protected services |
| `limiter.dfy`, `nonces.dfy`, `json_walk.dfy` | token bucket, request nonces, duplicate-key walk |

`dafny verify dfyconfig.toml` checks everything.

## Conventions

- Time is an integer count of nanoseconds since Go's zero time, so `IsZero` is equality with 0. Clocks do not run
  backwards. A clock the code reads becomes a parameter; where it truncates to seconds, so does the model.
- Signatures are ideal: a token is `Signed(claims)`, which only the control plane makes, or `Forged`. Hashes are
  injective: a public key is named by its 43-character thumbprint, and a token's digest and a list's entity tag
  determine what they were made from. The size of an encoded token is an arbitrary function of its claims.
- Strings are sequences of Unicode scalar values with a modelled UTF-8 length. `Nfc` and `UpperForm` are arbitrary.
  Only the completeness results assume two facts about NFC (`NfcLaws`): it is kept by prefixes and by appending an
  ASCII character.
- Tables are maps. A transaction is one function from tables to tables, with the CHECK, UNIQUE and FOREIGN KEY
  constraints it can hit. Identifiers made at random are parameters; a clash meets the unique constraint.
- A request under way is never forgotten by the control plane model, so plans may commit late or more than once.
- A revocation list is the set of its ids. A fetch that takes longer than a bound `latency` counts as failed; with
  `latency` 0 it is one step. A refresh, a lookup in a cache and the spending of a proof are one step each, as their
  mutexes arrange; between the steps of one request others may run, so a request has its own clock reading for its
  token, its proof, its last look at the cache and its response (`EndToEnd.Meets`).
- The limiter counts with real numbers.

## Where the code differs from the obvious statement

- Strictness of attenuation is a matter of text (docs/api.md:144 says a child must strictly attenuate). Dropping an
  entry that another entry covers is accepted with equal meaning: `AttenuationMeaning.CoveredEntryIsDroppable`; when
  strictness is real: `AttenuationMeaning.StrictnessExact`.
- `Subset` is incomplete from 66 parent entries on, so its exactness rests on the limit of 64:
  `ResourceLanguage.SubsetIncompleteAtSixtySix`.
- A signed request can be accepted a second time in the last, truncated second of its window:
  `Nonces.LastSecondReplay`, with the exact condition over runs in `Nonces.ReplayOverRunExactly`.
- The revocation list drops expired leases, so revocation ends with the lease's expiry while a request may not have:
  it is admitted if its token was in time when checked and the list that answers it was read after the expiry. With
  clock skew that can be one instant (`EndToEnd.SkewOutlivesTheList`). Without, the request refreshed the list itself
  across the expiry or waited for another request's refresh (`EndToEnd.LateListForgets`).
  `EndToEnd.RevokedAdmittedExactly` is the exact condition, `EndToEnd.RevokedLeaseReadmitted` reaches it, and
  `Readmission.RevokedAMinuteAgoAndAdmitted` is a case with every value given but the length of its token.
- Disabling a workload and revoking on rotation do not take the lineage lock: they select rows, wait for those that are
  locked, and then mark what they selected. As single steps they keep closure (`LockProtocol.NoLiveDescendant`). As the
  code runs them they can leave a live lease below a revoked one, exactly when a lease was inserted below a selected
  row in between and is live (`LockProtocol.LateSelection`). `DisableRace.DisabledAndStillDelegated` is a complete case:
  while W is disabled, X, who holds a lease below one of W, delegates to Y.
- In bounded-stale mode a response that arrives with status 200 but a refused snapshot time or an empty id is an
  error, not a reason to fall back on stale data; `Middleware.Verifier.CheckRevoked` keeps that.
- A grant's lifetime limit is stored in whole seconds, and a name is measured in bytes by the use case and in
  characters by the table: `Authority.RegisteredRowFits` says which accepted registrations the table then refuses.
- The limiter's idle rule is harmless only if ten minutes refill a bucket: `Limiter.EvictionHarmlessExactly`. The code
  does not check its configuration for that.

## Model

| member | source | states |
|---|---|---|
| Resource.Canonicalize | internal/resource/resource.go:106-138 | the segment and character loops decide exactly the per-segment rules, with the error of the first failing stage |
| Resource.CanonicalizePatterns | internal/resource/resource.go:32-50 | accepts exactly nonempty lists of distinct valid patterns, unchanged; otherwise the error is that of the first faulty entry |
| Resource.Subset | internal/resource/resource.go:90-104 | the nested loops decide "every child is covered by some ancestor" |
| ResourceLanguage.AllowsMeansSegments | internal/resource/resource.go:71-88 | prefix comparison of text is matching of whole segments: equal, or a proper extension of a wildcard's stem |
| ResourceLanguage.NoTraversal | internal/resource/resource.go:106-138 | no segment of a valid pattern is empty, "." or "..", a star is a whole final segment, and no character a decoder or glob could read otherwise occurs |
| ResourceLanguage.ValueIsStarless | internal/resource/resource.go:106-138 | a valid value is a valid pattern whose final segment is not a star |
| ResourceLanguage.CoversSound | internal/resource/resource.go:52-69 | a covering pattern allows every value the covered one allows |
| ResourceLanguage.CoversIsInclusion | internal/resource/resource.go:52-69 | between valid patterns coverage is inclusion of languages, both directions |
| ResourceLanguage.CoversIsPartialOrder | internal/resource/resource.go:52-69 | reflexive on valid patterns, antisymmetric, transitive |
| ResourceLanguage.MissedCharacter | internal/resource/resource.go:90-104 | fewer than 66 entries leave one of 66 one-character final segments that is no entry's text |
| ResourceLanguage.CoverFromInclusion | internal/resource/resource.go:90-104 | if fewer than 66 patterns together allow all that a pattern allows, one of them alone covers it |
| ResourceLanguage.PatternNotEmpty | internal/resource/resource.go:106-138 | every valid pattern allows some value, also at the 256-byte cap |
| ResourceLanguage.SubsetIsInclusion | internal/resource/resource.go:90-104 | for valid patterns and fewer than 66 parents, Subset holds iff every allowed value stays allowed |
| ResourceLanguage.SubsetIncompleteAtSixtySix | internal/resource/resource.go:90-104 | at the cap, 66 exact children exhaust a wildcard that none of them covers |
| ResourceLanguage.LongStem | internal/resource/resource.go:106-138 | and a wildcard at the cap exists |
| Constraints.SatisfiedExactly | internal/constraints/constraints.go:73-95 | a context satisfies valid constraints iff it states every required key, an amount no larger than the ceiling as numbers, and equal text otherwise |
| Constraints.StrengthExactly | internal/constraints/constraints.go:42-64 | a valid child is at least as strong iff it keeps every key of the parent, with a ceiling no larger as numbers and equal text otherwise |
| Constraints.CeilingExample | internal/constraints/constraints.go:80-87 | under a ceiling of 100 an amount of 100 passes and 5000 does not |
| Constraints.ValidVocabulary | internal/constraints/constraints.go:13-37 | valid maps use only the five keys, with trimmed texts of their size |
| Constraints.StrengthIsInclusion | internal/constraints/constraints.go:42-64 | a valid child map is at least as strong iff every context satisfying it satisfies the parent |
| Constraints.EqualIsEquality | internal/constraints/constraints.go:66-68 | two-way attenuation is literal equality of valid maps |
| Constraints.StrengthIsPartialOrder | internal/constraints/constraints.go:42-64 | reflexive on valid maps, antisymmetric, transitive |
| Constraints.FormatThenParse | internal/constraints/constraints.go:27-31 | decimal formatting is undone by parsing |
| Constraints.CeilingsAreDecimalForms | internal/constraints/constraints.go:18-31 | accepted ceilings are exactly the decimal forms of 1 to 2^63 - 1, one spelling per number |
| Attenuation.HasEmptyOrDuplicate | internal/attenuation/attenuation.go:160-172 | the loop finds exactly an empty, padded or repeated entry |
| Attenuation.ToSet | internal/attenuation/attenuation.go:187-193 | the loop builds the set of the entries |
| AttenuationMeaning.NarrowsCompared | internal/attenuation/attenuation.go:118-136 | a child that admits nothing its parent refuses passes all four comparisons |
| AttenuationMeaning.ComparedNarrows | internal/attenuation/attenuation.go:118-136 | a child that passes the comparisons admits nothing its parent refuses |
| AttenuationMeaning.ValidateIsInclusion | internal/attenuation/attenuation.go:96-143 | accepted iff both contexts are valid, the depth and use rules hold, what the child admits is included, and the text differs |
| AttenuationMeaning.ValidateRootIsInclusion | internal/attenuation/attenuation.go:51-94 | accepted iff the grant and the request are valid, the audience and the depth and use rules fit, and what the root admits is inside the grant |
| AttenuationMeaning.RootRefusedForItsFault | internal/attenuation/attenuation.go:51-94 | a root is refused with an error whose fault it really has |
| AttenuationMeaning.ChildRefusedForItsFault | internal/attenuation/attenuation.go:96-143 | a child is refused with an error whose fault it really has |
| AttenuationMeaning.StrictnessExact | internal/attenuation/attenuation.go:138-140 | an accepted child gives something up iff the comparisons fail in the other direction |
| AttenuationMeaning.CoveredEntryIsDroppable | internal/attenuation/attenuation.go:138-140 | dropping an entry another one covers is accepted although both admit the same |
| AttenuationMeaning.StrictnessIsOfTheText | internal/attenuation/attenuation.go:138-140 | a concrete such pair |
| LeaseToken.ValidCapabilityValues | internal/crypto/ed25519.go:319-337 | accepts exactly at most 64 distinct, trimmed, nonempty values of at most 256 bytes, valid patterns where resources are meant |
| LeaseToken.StructureExactly | internal/crypto/ed25519.go:234-252 | the structural checks accept exactly complete claims for one audience whose identifiers, lists, depths, lineage and dates fit together |
| LeaseToken.VerifiedExactly | internal/crypto/ed25519.go:180-254 | any token verifies iff the control plane signed it, it is within 16 KiB, in time up to the leeway, for this audience and issuer, and well formed; the answer is its own claims |
| Lineage.ChainShape | internal/repository/repository.go:316-339 | walking up meets one lease per depth, from root_lease_id, with one root, one root workload and a max_depth that never rises on the way down |
| Lineage.ChainBounded | internal/repository/repository.go:609-621 | so the walk ends after at most 17 leases |
| Lineage.AffectedQuery | internal/repository/repository.go:558-566 | round-by-round evaluation of the recursive query selects exactly the descendants-or-self of the seeds |
| Lineage.RootQuery | internal/repository/repository.go:609-621 | walking up finds root_lease_id, or no row |
| Lineage.TraceQuery | internal/repository/repository.go:410-460 | the trace is the lineage ordered by depth, or lease not found |
| Lineage.TraceShape | internal/repository/repository.go:410-460 | a trace has depth + 1 rows at depths 0 to depth, each the parent of the next, ending in the lease |
| Operations.RegistrationClash | internal/repository/repository.go:31-80 | a registration is refused as taken iff its id or name is used or some workload accepts its key then |
| Repository.LeaseRepository.RevokeRows | internal/repository/repository.go:177-189 | marks the unrevoked descendants-or-self of the seeds and counts them |
| KeyChanges.RotationExactly | internal/repository/repository.go:119-215 | a rotation succeeds iff the workload is enabled, no other uses the key then and none keeps the replaced one; afterwards it accepts exactly the new key, and the replaced one before the overlap ends; the rest of the row, the revoked leases, the count and the event |
| KeyChanges.RotationLasts | internal/repository/repository.go:160-175 | until the next rotation of the workload, whatever else commits, it accepts exactly those keys |
| KeyChanges.AcceptsExactly | internal/repository/repository.go:659-672 | a key is accepted iff it is the current one, or the previous one before its end |
| Repository.LeaseRepository.RotateWorkloadKey | internal/repository/repository.go:119-215 | the statements of a rotation leave the tables and the result that RotationExactly describes |
| KeyChanges.DisableExactly | internal/repository/repository.go:235-268 | a disablement succeeds iff the workload is stored; disabled since the first time, its live leases and all below them revoked, counted in the answer and the event |
| Repository.LeaseRepository.DisableWorkload | internal/repository/repository.go:235-268 | the statements of a disablement leave the tables and the result that DisableExactly describes |
| Nonces.RowStaysAlong | internal/repository/repository.go:217-233 | until a nonce row expires nothing replaces it, along any run and whatever reuses its nonce |
| Repository.LeaseRepository.CreateLease | internal/repository/repository.go:270-373 | new tables and result of an issue, with the checks repeated inside the transaction in their order |
| Repository.LeaseRepository.TraceLease | internal/repository/repository.go:410-460 | the lineage of a stored lease, or lease not found |
| KeyChanges.RevokeExactly | internal/repository/repository.go:552-587 | a lineage revocation succeeds iff the lease is stored; exactly the live leases at or below it are revoked and counted |
| Repository.LeaseRepository.RevokeLeaseLineage | internal/repository/repository.go:552-587 | root lookup, closure marking and the counted event leave what RevokeExactly describes |
| Operations.ListedUntilExpiry | internal/repository/repository.go:589-607 | in every later state a revoked lease and all below it are listed until they expire and no longer, and only revoked leases are |
| Usecase.ExpirationOf | internal/usecase/usecase.go:374-393 | exactly one of moment and lifetime is given; the result is the whole second it falls in, in the future and within the maximum; an error only if no such second exists |
| Usecase.CompareStrings | internal/usecase/usecase.go:579-593 | decides equal length and inclusion |
| Usecase.ValidateUniqueValues | internal/usecase/usecase.go:513-528 | decides 1 to maximum distinct, trimmed, nonempty values of at most 256 bytes |
| Usecase.ValidNonce | internal/usecase/usecase.go:530-541 | decides 32 to 128 characters of the nonce alphabet |
| Operations.EnrollExactly | internal/usecase/usecase.go:75-113 | registration succeeds iff actor, name and grant are inside the limits, lifetime reaches a second, id and name are new and no workload accepts the key; the exact row and event, or no change |
| Operations.RegistrationRefusedByTable | internal/repository/repository.go:62-77 | concrete accepted registrations that the table refuses |
| Operations.MintExactly | internal/usecase/usecase.go:172-241 | a mint succeeds iff an enabled workload asks with a key it accepts for an authority that admits nothing its grant refuses, under its rules, in a fitting second, with fresh ids; the stored row, bound to the workload's own current key where proof is called for, event and token, or no change |
| Operations.MintIsSteps | internal/usecase/usecase.go:172-241 | a mint that nothing interrupts is the start, plan and commit steps of the control plane |
| Operations.MintKeepsSound | internal/usecase/usecase.go:172-241 | and keeps the whole invariant |
| Operations.DelegateExactly | internal/usecase/usecase.go:243-324 | a delegation succeeds iff the live parent's holder shows the parent's own token in time and its key, for an enabled recipient and an authority that admits nothing the parent refuses, under the lineage rules, with fresh ids; the stored row, bound to the recipient's own key where proof is called for, event and token, or no change |
| Operations.DelegateIsSteps | internal/usecase/usecase.go:243-324 | a delegation that nothing interrupts is the fetch, check, plan and commit steps of the control plane |
| Operations.DelegateKeepsSound | internal/usecase/usecase.go:243-324 | and keeps the whole invariant |
| Operations.OwnTokenExactly | internal/usecase/usecase.go:395-404 | the only token that verifies and matches a stored row is the one issued for it, in time |
| Operations.ConsumeExactly | internal/usecase/usecase.go:354-368 | a consumption succeeds iff key and lease are proper, the lease's own token is shown in time, lease and holder are live, and the key is known or one of fewer than max_uses; the number it gets, the one use and counter that change, or no change |
| Refusals.EnrollRefusedForItsFault | internal/usecase/usecase.go:75-113 | a refused registration has the fault its error names; the table fails it only for a lifetime under a second or a name under three characters |
| Refusals.MintRefusedForItsFault | internal/usecase/usecase.go:172-241 | a refused mint has the fault its error names; the store fails it only for a used identifier |
| Refusals.DelegateRefusedForItsFault | internal/usecase/usecase.go:243-324 | a refused delegation has the fault its error names; the store fails it only for list lengths or a used identifier |
| Refusals.ConsumeRefusedForItsFault | internal/usecase/usecase.go:354-368 | a refused consumption has the fault its error names; the store never fails it |
| Refusals.SpendRefusedForItsFault | internal/repository/repository.go:491-550 | a use the store refuses has the fault its error names, among them a token hash that is not the lease's |
| Refusals.RotationRefusedForItsFault | internal/repository/repository.go:119-215 | a refused rotation has the fault its error names |
| Usecase.ValidIdempotencyKey | internal/usecase/usecase.go:543-553 | the loop decides 16 to 128 visible ASCII characters |
| KeyChanges.AuthenticateExactly | internal/usecase/usecase.go:122-155 | a signed request is accepted iff it is in its window with a proper nonce, its enabled workload accepts the signing key, and the nonce has no live row; the answer is the key that signed, else replay or unauthenticated |
| Service.LeaseUsecase.AuthenticateWorkload | internal/usecase/usecase.go:122-155 | new tables and result of a signed request: window, holder, key, nonce, in that order, and the invariant kept |
| Service.LeaseUsecase.ValidLater | internal/usecase/usecase.go:38-47 | what one call leaves valid is valid for a call at any later time |
| Evolution.ApplyForm | internal/repository/repository.go:31-587 | every transaction either fails and changes nothing or makes a change of its stated form |
| Evolution.ApplyEvolves | internal/repository/repository.go:31-587 | no transaction deletes a row, changes a grant or issued authority, clears or redates a revocation, lowers a use count, or rewrites the audit log |
| Evolution.CreationKeepsForest | internal/repository/repository.go:309-340 | the checks at issuance hang a new lease one below a stored parent under the same root |
| Revocation.RevokingExact | internal/repository/repository.go:558-584 | marks exactly the unrevoked descendants-or-self, leaves earlier revocation times, and the event counts the difference |
| Revocation.DescendantsRevoked | internal/repository/repository.go:558-566 | closure along parent links reaches every descendant |
| Revocation.CreatingKept | internal/repository/repository.go:315-331 | a new lease starts unrevoked under an unrevoked parent and is accounted for |
| Revocation.DisablingKept | internal/repository/repository.go:235-268 | afterwards the disabled workload holds no unrevoked lease |
| Revocation.RevocationKept | internal/repository/repository.go:176-587 | every transaction keeps closure, enabled holders and the audit accounts |
| Keys.OneWorkloadPerKey | internal/repository/repository.go:659-672 | from the present on at most one workload accepts a key, current or previous and unexpired |
| Keys.KeysKept | internal/repository/repository.go:37-45 | every transaction keeps keys separate, with the key checks and unique columns of registration and rotation |
| Keys.RotationFencesOldKey | internal/repository/repository.go:160-175 | after a rotation without overlap the old key can start no lease of the workload, minted or delegated |
| Uses.NumberedCount | internal/repository/repository.go:533-545 | a lease's consumption rows are as many as uses_consumed |
| Uses.UsesKept | migrations/000006_limited_use_capabilities.up.sql:6-20 | every transaction keeps the rows of each lease a bijection of keys with 1 to uses_consumed, at most max_uses |
| Uses.SpendExact | internal/repository/repository.go:491-550 | a known key gets its number again and changes nothing, a new one the next number while fewer than max_uses are accepted, else a refusal |
| Authority.ValidateValuesExact | internal/usecase/usecase.go:450-472 | the self-delegation probe accepts exactly the lists a token verifier accepts, none of them empty |
| Authority.ValidateGrantExact | internal/usecase/usecase.go:474-511 | a grant that can mint all of itself is exactly one inside the limits |
| Authority.RegisteredRowFits | internal/repository/repository.go:62-77 | the table takes an accepted registration iff its lifetime reaches a second and its name three characters |
| Authority.PlanMintAuthorized | internal/usecase/usecase.go:172-241 | a planned root lease is within the grant it was planned from |
| Authority.PlanDelegateAuthorized | internal/usecase/usecase.go:243-324 | a planned delegation is within its parent, also if the parent row was read earlier |
| Authority.AuthorizedLater | internal/usecase/usecase.go:172-324 | a plan stays within its parent and grant whatever commits before it |
| Authority.AuthorizedKept | internal/repository/repository.go:270-373 | every transaction keeps every stored lease authorized |
| Authority.AncestorsAdmitMore | internal/attenuation/attenuation.go:96-143 | whatever a stored lease admits, each ancestor admits |
| Authority.GrantCovers | internal/attenuation/attenuation.go:51-94 | and so does the stored grant of the root workload |
| Authority.LimitedUseEndsLineage | internal/attenuation/attenuation.go:103-123 | a limited-use lease is at its depth ceiling and never has a child |
| Authority.KeyBindingSticks | internal/usecase/usecase.go:302-308 | below a key-bound lease, or a grant that demands proof, every lease is key-bound |
| KeyChanges.BoundToHolder | internal/usecase/usecase.go:214-220 | in every reachable state a bound lease is bound to a key its own holder had when it was planned |
| Authority.TokenRoundTrip | internal/usecase/usecase.go:395-448 | the claims issued for a stored lease pass every structural check and match the stored row |
| Authority.IssuedTokenVerifies | internal/crypto/ed25519.go:180-254 | where the encoding fits, that token verifies exactly between its dates widened by the leeway |
| Authority.SameStringsIsSetEquality | internal/usecase/usecase.go:579-593 | on duplicate-free lists the comparison is set equality |
| Authority.SameStringsNeedsDistinctLists | internal/usecase/usecase.go:579-593 | with a duplicate it is neither symmetric nor equality |
| ControlPlane.StepKeepsGood | internal/usecase/usecase.go:75-372 | every step, including late and repeated commits of plans, keeps all invariants |
| ControlPlane.RunGood | internal/usecase/usecase.go:75-372 | they hold in every state of every run |
| ControlPlane.RunEvolves | internal/repository/repository.go:31-587 | along a run grants and issued authority never change and revocations never clear |
| ControlPlane.AuthorityNeverGrows | README.md:29-34 | authority of a lease is inside that of every ancestor, the root lease and the workload grant, in every reachable state |
| ControlPlane.RevocationReachesDescendants | internal/repository/repository.go:309-331 | once committed, a revocation keeps its time and holds for every descendant in every later state, delegations under way included |
| ControlPlane.AuditAccounts | internal/repository/repository.go:580-584 | revoked counts in the audit log sum to the revoked leases, issue events to the leases; disabled workloads hold no live lease |
| ControlPlane.UsesCountPresentedKeys | internal/repository/repository.go:491-550 | accepted keys number the smaller of distinct keys presented while usable and max_uses, and are numbered 1 to that |
| ControlPlane.CommitNeedsAcceptedKey | internal/repository/repository.go:275-331 | a lease is committed only with a key its enabled starter accepts at issue time, under a live parent or the current grant version, and with the parent's own key if that is bound |
| ControlPlane.KeysAuthenticateOneWorkload | internal/repository/repository.go:148-175 | in every reachable state no key is accepted for two workloads |
| ControlPlane.TracesAreLineages | internal/repository/repository.go:410-460 | in every reachable state a trace has depth + 1 rows, at most 17, from root_lease_id, under one root workload |
| LockProtocol.CheckedMayInsert | internal/repository/repository.go:315-340 | the checks inside the transaction imply what the statement-level model lets a delegation insert |
| LockProtocol.ChecksTogether | internal/repository/repository.go:275-340 | the checks of the statements together are the checks of the whole transaction |
| LockProtocol.MarkedElsewhere | internal/repository/repository.go:558-566 | commits that leave its marked rows alone and insert elsewhere do not change what a revocation marks |
| LockProtocol.StepKeepsConsistent | internal/repository/repository.go:270-373 | every statement of every interleaved delegation and revocation, and every other transaction that no lock stops, keeps locks, reads and pending writes consistent |
| LockProtocol.NoLiveDescendant | internal/repository/repository.go:309-331 | under any interleaving of delegations and lineage revocations, with disablements, rotations and the rest as single steps, no committed descendant of a revoked lease is unrevoked, no disabled workload holds a live lease, and the audit log accounts for all |
| LockProtocol.CommitIsAtomic | internal/repository/repository.go:270-373 | every step changes the tables as one whole transaction does, all its checks included, or not at all; a delegation or revocation that reaches its commit succeeds |
| LockProtocol.LateSelection | internal/repository/repository.go:248-257 | a revocation that marks rows selected on earlier tables keeps closure iff no live lease was inserted below a selected row since |
| LockProtocol.UnlockedRevocation | internal/repository/repository.go:177-185 | for one insert, iff its parent was not selected |
| LockProtocol.DisablementWaits | internal/repository/repository.go:235-257 | the disablement of a workload further up takes its own row but waits for the parent row of a pending delegation |
| DisableRace.DisabledAndStillDelegated | internal/repository/repository.go:235-268 | on tables the operations produce, a delegation that passed every check commits during such a disablement and lives below a revoked lease |
| StatementRuns.HistorySound | internal/repository/repository.go:31-587 | runs of the statements whose delegations begin from planned requests keep the whole invariant: authority, grants, keys, uses, revocation |
| StatementRuns.PlannedMayBegin | internal/usecase/usecase.go:172-324 | a request the use cases have planned, from rows read at any earlier time, is one such a delegation may begin with |
| StatementRuns.StatementsKeepAuthority | README.md:29-34 | so authority never grows and uses are numbered within max_uses while the statements interleave |
| StatementRuns.StatementsKeepKeys | internal/repository/repository.go:659-672 | and no key is accepted for two workloads |
| ProofOfPossession.ReplayKeyInjective | sdk/go/middleware/middleware.go:368-370 | thumbprint and identifier are recovered from a replay key |
| ProofOfPossession.ReplayStaysBounded | sdk/go/middleware/middleware.go:388-406 | over any sequence of requests the replay map never exceeds 10000 entries |
| ProofOfPossession.FreshProofAccepted | sdk/go/middleware/middleware.go:388-406 | a proof without a live entry is accepted iff live entries leave room |
| ProofOfPossession.ProofAcceptedOnce | sdk/go/pop/pop.go:127-138 | over any sequence of requests, their clock readings up to a second out of order, a proof (key, id, issue time) is accepted at most once |
| ProofOfPossession.PurgedProofsAreStale | sdk/go/pop/pop.go:136-138 | purging drops only proofs that Verify already refuses |
| Middleware.Verifier.CheckRevoked | sdk/go/middleware/middleware.go:475-524 | new cache and answer for a cache hit, a 200, a 304 and a failure, in each mode |
| Middleware.Verifier.SpendProof | sdk/go/middleware/middleware.go:388-406 | new replay map and decision, the purge loop included |
| Admission.ProofExactly | sdk/go/middleware/middleware.go:346-406 | a bound token's proof passes iff it is present, by the bound key, for this method, target and token, in time, unspent and with room to remember it; an unbound token passes iff no proof is demanded; what the replay map then holds |
| Admission.AdmittedCarriesProof | sdk/go/middleware/middleware.go:263-265 | every admitted request carried the proof its token demands |
| Admission.BoundLineageNeedsProof | sdk/go/middleware/middleware.go:263-265 | below a bound lease or a grant that demands proof, none is admitted without a proof by its own lease's key |
| Middleware.Verifier.CheckProof | sdk/go/middleware/middleware.go:346-372 | the steps leave the replay map and the decision that ProofExactly describes |
| Middleware.Verifier.CheckResource | sdk/go/middleware/middleware.go:726-736 | decides whether the value is valid and some pattern allows it |
| Middleware.Verifier.AuthorizeRequest | sdk/go/middleware/middleware.go:240-295 | new caches and outcome, with the checks and error codes in their order |
| Admission.AdmittedVerified | sdk/go/middleware/middleware.go:240-265 | whatever is admitted came with a token the control plane signed, verified for this verifier, and its own claims are handed on |
| Admission.ForgedRefused | internal/crypto/ed25519.go:218-233 | a text the control plane did not sign is never verified and never admitted |
| Admission.RefusalsExactly | sdk/go/middleware/middleware.go:240-295 | the code of each refusal, as an equivalence with the first check that fails |
| Admission.TokenErrorsExactly | internal/crypto/ed25519.go:218-233 | when a token is called expired and when for the wrong audience |
| Admission.AnswersExactly | sdk/go/middleware/middleware.go:475-593 | in each mode, when there is a revocation answer, which set it is read from, and how the cache changes |
| Admission.FactsExactly | sdk/go/middleware/middleware.go:297-307 | the method is the request's own, every other fact the application's |
| Admission.MethodCannotBeReplaced | sdk/go/middleware/middleware.go:297-307 | a lease for one method admits only that method, whatever facts are supplied |
| VerifierRuns.CacheMirrorsLog | sdk/go/middleware/middleware.go:496-523 | the cache is always the last snapshot received or confirmed by a 304 |
| VerifierRuns.AnswersAreFreshEnough | sdk/go/middleware/middleware.go:575-593 | a bounded-stale answer is membership in a snapshot received at most maxStaleness ago; none before a first snapshot |
| VerifierRuns.FailedRefreshKeepsCache | sdk/go/middleware/middleware.go:487-515 | a failed or refused refresh leaves the cache as it was |
| EndToEnd.HappenKeepsSound | internal/delivery/delivery.go:437-452 | on the 200 and 304 paths alike the cached set holds every lease revoked before it was read and not expired then, and no lease expired then |
| EndToEnd.LateAnswersKnowRevocation | sdk/go/middleware/middleware.go:475-593 | past cacheTtl + latency after a revocation a strict verifier never answers "not revoked" before the lease expires |
| EndToEnd.RevokedAdmittedExactly | sdk/go/middleware/middleware.go:240-295 | for any skew, so long after a revocation a request under the lease is admitted iff the lease itself admits it, proof and use pass, and the list that answers it was read after the lease expired |
| EndToEnd.RevokedLeaseNotAdmitted | sdk/go/middleware/middleware.go:240-295 | so only if its token was in time when checked and the lease expired before the list was read |
| EndToEnd.RevokedLeaseReadmitted | sdk/go/middleware/middleware.go:475-524 | on a concrete run Authorize admits such a request, by its own refresh and after waiting for another's |
| Readmission.RevokedAMinuteAgoAndAdmitted | sdk/go/middleware/middleware.go:475-524 | a complete case: a lease of one minute, revoked at once, a strict verifier without skew or delay, and the request Authorize admits a minute later if its one token is within 16 KiB |
| EndToEnd.RevocationStopsTheLineage | sdk/go/middleware/middleware.go:240-295 | the same under any lease below a revoked one, over joint runs of control plane and verifier |
| EndToEnd.LateListForgets | internal/repository/repository.go:589-590 | without skew Authorize admits a request checked an instant before the expiry and answered at it |
| EndToEnd.SkewOutlivesTheList | internal/repository/repository.go:589-590 | with skew Authorize admits a request made and answered at the very expiry |
| LimitedUse.AdmittedKeysWithinLimit | sdk/go/middleware/middleware.go:282-293 | over joint runs of any verifiers and the control plane, the requests admitted under a limited-use lease carry at most max_uses distinct idempotency keys |
| EndToEnd.AuthorizeExactly | sdk/go/middleware/middleware.go:240-295 | with a stored lease's token, a request is admitted iff the lease admits it, the issuer fits, the proof passes, the answer is not revoked, and a limited use is granted |
| EndToEnd.AdmittedInsideGrant | README.md:29-34 | and every ancestor and the root workload's grant, in every reachable state |
| Admission.EveryAdmissionInside | README.md:29-34 | every admission, with whatever token, is under a stored lease, inside it, its ancestors and the root workload's grant, and states an amount within every ceiling among them |
| Admission.EveryAdmissionUnrevoked | sdk/go/middleware/middleware.go:240-295 | every admission by a strict verifier is under a lease not revoked, itself or through an ancestor, that long ago, but for lists read after its expiry |
| Limiter.IpLimiter.AllowRequest | internal/delivery/delivery.go:1012-1040 | new visitors, counter and decision, the sweep loop included |
| Limiter.AllowMovesLevels | internal/delivery/delivery.go:1012-1040 | allowed iff there is room and a token; exactly then one token leaves that address's level and no other level moves, eviction included |
| Limiter.IpLimiter.Sweep | internal/delivery/delivery.go:1016-1022 | the loop removes exactly the visitors idle for more than ten minutes |
| Limiter.RunStaysCapped | internal/delivery/delivery.go:1024-1027 | over any run the map never exceeds 10000 visitors |
| Limiter.RefillExactly | internal/delivery/delivery.go:1030-1031 | the refill is rate tokens a second |
| Limiter.FullExactly | internal/delivery/delivery.go:1015-1027 | a call finds no room iff 10000 others are there, after every 1024th call has put out those idle for ten minutes |
| Limiter.IdleVisitorIsEvicted | internal/delivery/delivery.go:1015-1022 | within any 1024 calls every silent visitor idle for ten minutes is gone |
| Limiter.WaitingIsEnough | internal/delivery/delivery.go:1030-1037 | with room, an address without a bucket is allowed, and one with a bucket once a token has refilled |
| Limiter.EvictionHarmlessExactly | internal/delivery/delivery.go:1016-1022 | eviction never changes a level iff ten idle minutes refill a bucket |
| Limiter.TokensConserved | internal/delivery/delivery.go:1030-1037 | over any run tokens spent and left are at most those there at first and refilled since, and stay within 0 and burst |
| Limiter.AllowedAtMostBurstPlusRate | internal/delivery/delivery.go:1030-1037 | from any state an address is allowed at most burst + rate x time requests |
| Limiter.EvictionInvisible | internal/delivery/delivery.go:1016-1022 | over any run each call that finds room is decided as by a limiter that never forgets |
| Nonces.NonceAcceptedOnce | internal/repository/repository.go:217-233 | before the end of its window no second request with its workload and nonce is accepted, whatever else reuses nonces |
| Nonces.ReplayOverRunExactly | internal/usecase/usecase.go:122-155 | over any run, after an accepted request another with its workload and nonce is accepted iff it is fine on its own and every accepted one in between, the first included, has reached the end of its window |
| Nonces.ReplayOnlyInLastSecond | internal/usecase/usecase.go:122-155 | so the same signed request is accepted again only after its window on the database clock and within the truncated second after it |
| Nonces.ReplayExactly | internal/usecase/usecase.go:122-155 | an immediate replay is accepted iff the row has expired while the truncated window is open and the key is good |
| Nonces.WindowOutlivesRowByOneSecond | internal/usecase/usecase.go:127-130 | for whole-second timestamps and windows that is exactly one second |
| Nonces.LastSecondReplay | internal/usecase/usecase.go:146-147 | a concrete second acceptance |
| JsonWalk.Decoder.WalkValue | internal/delivery/delivery.go:804-846 | success and remaining tokens of the walk with separate loops |
| JsonWalk.Decoder.WalkMerged | sdk/go/middleware/middleware.go:642-674 | success and remaining tokens of the walk with one loop |
| JsonWalk.RejectDuplicateKeys | internal/crypto/ed25519.go:410-463 | passes iff the walk succeeds and nothing trails |
| JsonWalk.RejectDuplicateKeysMerged | sdk/go/middleware/middleware.go:640-682 | the same for the merged walk |
| JsonWalk.WalkReadsValue | sdk/go/pop/pop.go:189-241 | on the tokens of a value the walk consumes exactly that value, or refuses it iff some object in it repeats a name |
| JsonWalk.MergedWalkAgrees | sdk/go/middleware/middleware.go:640-682 | both walks decide every stream alike and leave the same tokens |
| JsonWalk.PassesExactly | internal/delivery/delivery.go:802-858 | any token stream passes iff it is the tokens of one value with no repeated name at any depth, in both walks |
| JsonWalk.BuildValue | internal/delivery/delivery.go:804-846 | whatever a successful walk has read is the tokens of such a value |

## Left out

- Cryptography and encodings (Ed25519, SHA-256, base64, JWT text, thumbprints) are the ideal oracle described above; the encoding of claims as JSON is not modelled, so `nil` constraint maps and unknown fields do not occur.
- HTTP: routing, TLS and proxy rules, redirects, headers, status codes, the client SDK; the canonical form of a proof's target URI is a parameter.
- The verifier's JWKS cache, a simpler copy of the revocation cache, is reduced to whether the key is known; whether a foreign text has a readable token header is arbitrary.
- PostgreSQL beyond row constraints, committed reads and advisory locks: failures of the connection, timeouts, deadlocks, and its microsecond timestamps. Rows of a table are not ordered; a revocation list is a set.
- LockProtocol.StepKeepsConsistent: splits delegation and lineage revocation into statements; the other transactions are single steps that wait for locked rows, so its runs do not contain the moment between the selection and the update of a disablement or rotation, which LateSelection and DisableRace treat.
- Operations.DelegateExactly: is about a delegation that nothing interrupts; ControlPlane interleaves the same steps.
- Service.LeaseUsecase.AuthenticateWorkload: takes the key a signature identifies in place of message and signature, and the database clock as a second clock.
- Middleware.Verifier.AuthorizeRequest: takes the answers of the network and of the consumption service as inputs, and runs without other requests in between; EndToEnd and LimitedUse supply both.
- Limiter.IpLimiter.AllowRequest: counts with reals, so rounding is not modelled, and durations do not saturate.
- JsonWalk.Decoder.WalkMerged: a stray closing delimiter is refused by the decoder itself, which the walk without that case relies on.
- ResourceLanguage.SubsetIsInclusion: assumes the two facts about NFC; soundness does not.
- ControlPlane.AuditAccounts: counts over the whole log; the details of an event other than its count are not modelled.
- The use case wrappers of rotation, disablement and revocation, which only refuse an empty actor or id, and plain lookups of a workload, a lease or audit events.
- Configuration loading, migrations, metrics, logging, command-line tools, the website.
