# Propustka: a verified model

Propustka is an identity and access service: a Worker keeps principals, grants, roles and credentials
in a database and signs short-lived access tokens; an SDK inside each app verifies those tokens, caches
them and decides requests. This project models the parts of it on which safety rests and proves what
they promise.

- **Permission algebra** (`Permissions`, `Delegation`, `Resolve`): wildcard action patterns crossed with
  scopes are a partial order; the delegation check, which asks one question per requested pattern, decides
  inclusion over every action and scope; downscoping and the string-keyed deduplication are characterised
  exactly, with conditions on their inputs that decide when they lose nothing.
- **No amplification** (`Issue`, `Amplification`, `Keys`, `IssueStore`): a state machine over every request that
  touches authority. After any run, whatever a principal, credential or token permits had been conferred by
  an administrator, a role, bootstrap or an operator on somebody in its own delegation lineage. A request's
  caller is resolved at one moment and acts at any later one. Every token is accounted for by the request that
  signed it; what live permissions, callers, keys and tokens carry is stated from the stored rows, both ways.
- **Concurrent logins** (`Login`, `LoginOutcomes`, `KnownSubs`, `InviteCancel`, `LoginStore`): any number of
  logins interleaving one store call at a time, with lost requests and lost replies, over tables with partial
  unique indexes; which calls end a login how, and whom it can turn away; and cancels that check an invite
  before they delete it.
- **Lifetimes** (`TokenTimes`, `Tokens`, `Lifetime`, `SessionAuth`): minting, two caches, refresh skew, revocation and key
  rotation on one clock, with what every answer must be, and staleness bounds that hold in every run from the
  event that ends a key, session, principal or signing key, and are reached in some.
- **Gates** (`Glob`, `Gates`): the glob compiler, against the semantics of the regular expression it writes,
  and the first-match rule walk.
- **Refinements and round trips** (`Schema`, `Catalog`, `Audit`, `Claims`, `Uuid`, `Base64`, `Flight`).

Objects whose methods change their fields are classes here (`Accumulator`, `Db`, `UserStore`, `IamBinding`,
`PropustkaAuth`, `SchemaDb`), and each method's new state is tied to the pure function or transition that
the lemmas are about. `Common` and `Json` hold shared vocabulary.

Where the code and its comments disagree, the model follows the code. Reconciling is described as never
touching custom roles, but a declared key that equals a custom one takes its row over
(`packages/worker/src/db.ts:561-567`; see `Schema.RolesReconciled`). A lost claim is commented as lost to a
login of the same sub (`packages/worker/src/resolve.ts:164`), but it may have been lost to another, or the
invite may have been cancelled. A login that missed by sub and then finds its own sibling's claim by email is
said to have met a different sub (`packages/worker/src/resolve.ts:173`); `LoginOutcomes.KnownSubCanBeRefused`
is that interleaving, `KnownSubs.KnownSubIsRefusedIff` its exact condition, and
`KnownSubs.NeverRefusedIffKnown` says which logins are safe from it.

## Model

| member | source | states |
|---|---|---|
| Permissions.MatchesWhatItDenotes | packages/core/src/permissions.ts:19-30 | a pattern matches an action exactly when it is `*`, the action itself, or `ns.*` with the action under `ns.` at any depth |
| Permissions.MatchTransitive | packages/core/src/permissions.ts:19-30 | matching composes when patterns are matched against patterns |
| Permissions.MatchAntisymmetric | packages/core/src/permissions.ts:19-30 | two patterns that match each other are the same text |
| Permissions.MatchIsInclusion | packages/core/src/permissions.ts:19-30 | `P` matches the text of `Q` if and only if every action `Q` matches is matched by `P` |
| Permissions.MatchLaminar | packages/core/src/permissions.ts:19-30 | two patterns that share an action are nested |
| Permissions.DecidePermits | packages/core/src/permissions.ts:41-50 | the early-exit loop answers yes exactly when some entry names the action and is global or on the very scope asked for, a missing scope asking for a global entry |
| Permissions.ContainedIffEntriesCovered | packages/core/src/permissions.ts:41-50 | one list permits nothing beyond another if and only if each of its own entries is permitted by the other |
| Permissions.ScopedValues | packages/core/src/permissions.ts:63-83 | null exactly when the action is held globally; otherwise, without repeats, exactly the values for which `permits` holds |
| Permissions.AllowedIffMatchesCatalog | packages/core/src/permissions.ts:94-108 | a pattern is valid if and only if it is `*` or matches some catalog action |
| Resolve.Accumulator.Add | packages/worker/src/resolve.ts:60-68 | entries and seen keys stay the deduplication of everything added so far |
| Resolve.Accumulator.ExpandRole | packages/worker/src/resolve.ts:70-79 | adds one entry per pattern of the role, built-ins looked up first, nothing for a dangling key |
| Resolve.Accumulator.AddGrant | packages/worker/src/resolve.ts:82-91 | adds exactly the entries the row says: the patterns of its role (`admin` being `*` everywhere) or of its JSON array, at the row's coordinate |
| Resolve.ComputePermissions | packages/worker/src/resolve.ts:56-100 | permits only what bootstrap or some row confers by its own fields, and, for well-named rows, all of that; the result is the deduplicated union |
| Resolve.GrantPermitsIff | packages/worker/src/resolve.ts:23-42 | one grant permits an action on a scope if and only if one of its patterns matches and it has no coordinate or that very one |
| Resolve.ResolvedPermitsIff | packages/worker/src/resolve.ts:56-100 | the resolved permissions against the stored fields of all rows, roles looked up built-ins first |
| Resolve.DedupIsTraceable | packages/worker/src/resolve.ts:60-68 | every result entry is in the union, and no triple occurs twice |
| Resolve.DedupIsExactIff | packages/worker/src/resolve.ts:60-68 | nothing is lost if and only if the keys tell the union's entries apart |
| Resolve.KeyIsInjective | packages/worker/src/resolve.ts:61-62 | with no space in actions and no colon in scope types, equal keys mean equal entries |
| Resolve.DedupLosesNoPermissionIff | packages/worker/src/resolve.ts:60-68 | for any names, no permission is lost if and only if every entry is covered by one that no earlier entry's key shut out |
| Resolve.OneScopeLosesNothing | packages/worker/src/resolve.ts:60-68 | entries that differ only in their actions never collide, whatever their names |
| Resolve.DedupPermitsTheUnion | packages/worker/src/resolve.ts:56-100 | for such names the result permits exactly what the undeduplicated union permits |
| Resolve.DedupNeverWidens | packages/worker/src/resolve.ts:56-100 | for any names the result permits nothing beyond the union |
| Resolve.CollidingScopesLoseAPermission | packages/worker/src/resolve.ts:61-62 | a colon in a scope type, which grant requests admit, makes two grants share a key, and one permission is lost |
| Resolve.GrantOrderIsIrrelevant | packages/worker/src/resolve.ts:82-99 | well-named grants resolve to the same permissions in any order |
| Delegation.FindUncoveredGrant | packages/worker/src/issue.ts:46-53 | null exactly when every requested grant is covered; otherwise the first that is not |
| Delegation.DelegationIsExact | packages/worker/src/issue.ts:46-53 | the check passes if and only if every action and scope the requested grants would permit is permitted to the issuer |
| Delegation.EffectiveWithinPrincipal | packages/worker/src/tokens.ts:132-161 | a bound credential never exceeds its principal's live permissions |
| Delegation.EffectiveWithinInline | packages/worker/src/tokens.ts:132-161 | nor its nonempty inline grants |
| Delegation.EffectiveIsMonotone | packages/worker/src/tokens.ts:132-161 | giving the principal more never takes anything from its keys |
| Delegation.DownscopeIsIntersectionIff | packages/worker/src/tokens.ts:159 | the filter is the true intersection if and only if whatever a dropped inline grant shares with a held entry is covered by another inline grant that is held |
| Delegation.ConcreteDownscopeIsIntersection | packages/worker/src/tokens.ts:159 | so it is whenever every inline grant is a concrete action on a concrete scope |
| Delegation.PartlyHeldWildcardIsDropped | packages/worker/src/tokens.ts:159 | and is not when a wildcard inline grant that nothing makes good is only partly held |
| Amplification.NoTokenAmplifies | packages/worker/src/issue.ts:127-154 | after any run every signed token permits only what a root source had conferred on the lineage of its subject or issuer, in the token's app (in some app for share-link tokens) |
| Amplification.NoPrincipalAmplifies | packages/worker/src/resolve.ts:56-100 | the same for every principal's live permissions in every app |
| Amplification.LivePermissionsIff | packages/worker/src/resolve.ts:236-257 | in any state, a principal's live permissions are what bootstrap, for users, or an unexpired grant of its own for this app or all confers, and, well named, all of it |
| Amplification.NoCallerAmplifies | packages/worker/src/auth.ts:41-108 | the same for every caller accepted as an issuer or revoker, by key, token or operator key |
| Amplification.NoShareLinkAmplifies | packages/worker/src/issue.ts:96-123 | an anonymous credential's frozen grants were all conferred on its issuer's lineage in one app |
| Amplification.IssuerBacked | packages/worker/src/auth.ts:41-108 | resolving a caller preserves backing, through live permissions, downscope and token snapshots |
| Amplification.DelegatedBacked | packages/worker/src/issue.ts:46-53 | whatever the delegation check lets through is backed by the issuer's lineage |
| Amplification.MintFromKeyKeeps | packages/worker/src/tokens.ts:98-125 | minting from a key, bound or anonymous, keeps everything backed |
| Amplification.IssueServiceKeeps | packages/worker/src/issue.ts:68-94 | so does creating a service, even when it fails after the first or second of its three writes |
| Amplification.IssueCredentialKeeps | packages/worker/src/issue.ts:96-123 | so does issuing a standalone or self-bound key |
| Amplification.AcceptKeeps | packages/worker/src/index.ts:242-248 | a resolved caller is backed and stays so, however late its request acts |
| Amplification.ServiceRowReadsBack | packages/worker/src/issue.ts:68-94 | the patterns stored as JSON on the new service's grant resolve to exactly the entries that were checked |
| Amplification.NewServiceHoldsWhatWasAsked | packages/worker/src/issue.ts:68-94 | in any run, until a new service expires or is touched, every mint from its key permits exactly the requested patterns in the app they were asked for, and nothing in any other |
| Keys.EffectiveIsDownscoped | packages/worker/src/tokens.ts:157-159 | the downscope gives all live permissions when there are no inline grants, else exactly what the inline grants reach that are held in full |
| Keys.DownscopedStaysWithin | packages/worker/src/tokens.ts:132-161 | so it stays within the live permissions and the inline grants and keeps every held one |
| Keys.TokenFromKeyIff | packages/worker/src/tokens.ts:98-161 | presenting a key mints exactly when neither it nor its principal was taken away, a token for that app and subject, for 300 s or up to the key's expiry, with the frozen grants or the downscoped live permissions |
| Keys.ResolveCallerIff | packages/worker/src/auth.ts:41-108 | who each presented credential resolves to, exactly when, and with which permissions, a bound key's cut down to its inline grants |
| Keys.EveryTokenIsAccountedFor | packages/worker/src/tokens.ts:44-161 | each token in any run was signed by a request of that run, for the subject, app, time and permissions that the rows of that moment give |
| Keys.MintsAreNotRefused | packages/worker/src/tokens.ts:44-125 | and no request that may sign one is refused |
| Keys.IssuedKeyCarriesItsGrants | packages/worker/src/issue.ts:96-123 | until it expires or is taken away, a standalone key mints exactly the requested grants, and a self-bound one its principal's permissions of the day cut down to them |
| Keys.KeyDiesIff | packages/worker/src/issue.ts:172-189 | a request takes a live key away if and only if it is an administrator's, its issuer's, or, for an anonymous key, of somebody who holds all its grants, or deletes its principal |
| Keys.RevokedKeyIsDead | packages/worker/src/db.ts:638-644 | from then on, in every continuation, it mints nothing and its bearer is nobody |
| Keys.GrantEndsIff | packages/worker/src/db.ts:402-416 | a grant stays as it is through every request but its own deletion and its principal's |
| Keys.GrantConfersAtOnce | packages/worker/src/admin/handlers.ts:417-447 | what an administrator's grant confers is held from that request on |
| Keys.RolesConferAtOnce | packages/worker/src/resolve.ts:211-219 | a role grant confers what the app's roles are when it is read |
| Keys.DisabledPrincipalIsLockedOut | packages/worker/src/tokens.ts:98-161 | a disabled or deleted principal, until let in again, is minted nothing and none of its keys works |
| IssueStore.Db.CreateService | packages/worker/src/db.ts:257-265 | adds one enabled service row and changes nothing else |
| IssueStore.Db.CreateGrant | packages/worker/src/db.ts:373-400 | adds one grant row and changes nothing else |
| IssueStore.Db.CreateCredential | packages/worker/src/db.ts:607-631 | adds one live credential with its grants and changes nothing else; no app is stored |
| IssueStore.Db.RevokeCredential | packages/worker/src/db.ts:676-682 | marks one credential revoked, reports whether that was new, and is idempotent |
| IssueStore.GetActiveGrantsForApp | packages/worker/src/db.ts:343-353 | lists a grant exactly when it is the principal's, unexpired, and cross-app or for this app |
| IssueStore.ResolvePermissions | packages/worker/src/resolve.ts:227-257 | the live permissions of the state machine, bootstrap for users only |
| IssueStore.ResolvePresented | packages/worker/src/auth.ts:41-108 | operator key, database key and access token resolve to the caller of the state machine, or to none for anonymous, expired, revoked and disabled ones |
| IssueStore.IssueKey | packages/worker/src/issue.ts:62-123 | for a caller resolved at any earlier moment, issues exactly when the request is nonempty, for nobody else and contained in the issuer's permissions, and then writes exactly the requested credential, or service, grant and credential; a refusal writes nothing |
| IssueStore.IssuePassthroughJwt | packages/worker/src/issue.ts:127-154 | signs exactly when the nonempty grants are contained in the issuer's permissions, one token of those grants for the subject, for the time nearest to the one asked between a second and a day |
| IssueStore.RevokeIssuedKey | packages/worker/src/issue.ts:172-189 | revokes exactly for the issuer, or for whoever holds all grants of an anonymous key, marks that one row, and tells a first revocation from a repeat |
| IssueStore.OthersRevokeWhatTheyHold | packages/worker/src/issue.ts:172-189 | whoever did not issue a credential may revoke it exactly when it is anonymous and contained in their own permissions |
| Login.LoginsAgree | packages/worker/src/resolve.ts:129-200 | in every interleaving two successful logins carry the same principal id if and only if they carry the same sub |
| Login.BoundForever | packages/worker/src/db.ts:208-229 | a bound external id never changes and its row never goes |
| Login.ClaimedInviteKeepsItsId | packages/worker/src/resolve.ts:151-163 | every later successful login of the sub that claimed an invite carries the invited id |
| Login.WritesKeepIndexes | packages/worker/migrations/0001_init.sql:30-34 | every store write of every login, faults included, keeps both partial unique indexes |
| LoginOutcomes.LoginEndsWithinFourCalls | packages/worker/src/resolve.ts:129-200 | whatever the others do, each call uses up one of a login's four, and a finished login stays finished |
| LoginOutcomes.SuccessWasEnabled | packages/worker/src/resolve.ts:129-200 | each ok result's row was enabled at a moment during that login |
| LoginOutcomes.UnknownMetItsEmail | packages/worker/src/resolve.ts:129-200 | each `unknown_principal` of a login whose insert reached the table met, during that login, a user row holding its email |
| LoginOutcomes.LostInsertIsRefused | packages/worker/src/resolve.ts:180-199 | a run in which a lost insert is refused as unknown although nobody ever held the email |
| LoginOutcomes.KnownSubCanBeRefused | packages/worker/src/resolve.ts:152-177 | a run in which a login is refused although its sub is by then a known, enabled user |
| KnownSubs.RefusedExactlyWhen | packages/worker/src/resolve.ts:151-199 | whatever the faults, a login ends as unknown if and only if its email read met a claimed row or its re-read by sub found nobody |
| KnownSubs.KnownSubIsRefusedIff | packages/worker/src/resolve.ts:152-177 | if its sub is bound when it ends, if and only if its email read met a claimed row |
| KnownSubs.DisabledExactlyWhen | packages/worker/src/resolve.ts:132-195 | a login ends as disabled if and only if its last read met its sub's own disabled row or an unclaimed disabled row under its email |
| KnownSubs.SucceededExactlyWhen | packages/worker/src/resolve.ts:129-200 | it ends ok with an id if and only if it found that row of its sub enabled, or refreshed, claimed or inserted that row |
| KnownSubs.CrashedExactlyWhen | packages/worker/src/resolve.ts:129-200 | it ends by a thrown error if and only if a read or claim was lost, or the claim met another user of the sub |
| KnownSubs.NeverRefusedIffKnown | packages/worker/src/resolve.ts:129-200 | a login can end as unknown in no continuation of a run if and only if its sub is bound when it begins |
| KnownSubs.UnknownSubMayBeRefused | packages/worker/src/resolve.ts:152-177 | otherwise some continuation refuses it with every store call answered |
| InviteCancel.BindingsAreKeptIff | packages/worker/src/admin/handlers.ts:327-344 | with the handler's check and delete as separate calls, an event keeps every bound row if and only if it does not delete one claimed after its check |
| InviteCancel.LoginsAgreeUnlessAClaimIsDeleted | packages/worker/src/admin/handlers.ts:327-344 | in every interleaving of logins, checks and deletes without such a delete, successful logins agree on ids exactly as on subs |
| InviteCancel.DeleteKeepsAgreementIff | packages/worker/src/db.ts:321-324 | a checked delete leaves agreement safe in every continuation if and only if no login has answered with the row or is about to |
| InviteCancel.HardDeleteWouldSplitASub | packages/worker/src/db.ts:321-324 | otherwise a further login of the same sub succeeds as another principal |
| InviteCancel.RacingCancelSplitsASub | packages/worker/src/admin/handlers.ts:327-338 | a run from nothing in which a claim slips between check and delete, and agreement is lost |
| LoginStore.UserStore.GetUserByExternalId | packages/worker/src/db.ts:182-187 | the one user row with that sub, if there is one |
| LoginStore.UserStore.RefreshLabel | packages/worker/src/db.ts:208-213 | sets email and label, or throws on the email index and changes nothing |
| LoginStore.UserStore.ClaimInvited | packages/worker/src/db.ts:221-229 | binds the sub only while the row is unclaimed and returns the claimed row; throws on the sub index and changes nothing |
| LoginStore.UserStore.Create | packages/worker/src/db.ts:231-239 | inserts one enabled user, or throws on either index and changes nothing |
| LoginStore.ResolveUserPrincipal | packages/worker/src/resolve.ts:129-200 | run without interruption: a known enabled sub gets its own row, relabelled unless another user has the email; an enabled invite is bound; a stranger is created; disabled rows and others' emails are refused; the returned principal shows its row; and the steps are the transition system's own |
| Tokens.PublishedKeyIsAccepted | packages/client/src/session.ts:236-269 | a signed, unexpired token for this app under a currently published kid is accepted, whatever key set was cached, with no fetch if the cache is fresh and knows the kid and one otherwise |
| Tokens.AcceptedExactlyWhenSound | packages/client/src/session.ts:236-269 | any token is accepted if and only if it is signed, unexpired, for this app and under a kid published or at hand; a stale key set costs one fetch and an unknown kid one more |
| Tokens.LiveKeyIsAuthorized | packages/client/src/session.ts:154-182 | a usable key of an enabled principal is let in, whatever is cached |
| Tokens.LiveSessionIsAuthorized | packages/client/src/session.ts:189-217 | so is a live session of an enabled user |
| Tokens.KeyMintIs | packages/worker/src/tokens.ts:98-125 | exchanging a key gives a token of the key and its holder, for 300 s or up to its expiry, or the reason against it, read off the rows |
| Tokens.SessionMintIs | packages/worker/src/tokens.ts:44-90 | exchanging a session gives 300 s for its user, or the reason against it, read off the rows |
| Tokens.BearerAnswerIs | packages/client/src/session.ts:154-182 | a token is judged without the Worker; a remembered key with more than 30 s left needs no exchange; any other is exchanged and the fresh token remembered |
| Tokens.SessionAnswerIs | packages/client/src/session.ts:189-217 | an acceptable cookie with more than 30 s left is authorized without the Worker, whatever the session; otherwise the answer is the session exchange's |
| Lifetime.RevokedKeyDies | packages/client/src/session.ts:154-182 | no token of a credential revoked at r is accepted from r+300 s, none through the key cache or a fresh mint from r+270 s, and none from the credential's own expiry |
| Lifetime.BearerUsesAreRecorded | packages/client/src/session.ts:154-182 | each bearer presented in a run gets the answer stated for it, changes only its own isolate and the Worker so, and each acceptance is on record |
| Lifetime.SessionUsesAreRecorded | packages/client/src/session.ts:189-217 | the same for each session |
| Lifetime.DisabledPrincipalDies | packages/worker/src/tokens.ts:98-125 | the same bounds for keys and sessions of a principal disabled at r and kept so |
| Lifetime.EndedSessionDies | packages/worker/src/db.ts:717-732 | the same bounds for a revoked session, and 300 s past an expired one |
| Lifetime.PassthroughDiesInADay | packages/core/src/token.ts:47 | a passthrough token, which cannot be revoked, is accepted for less than a day |
| Lifetime.RetiredKidDies | packages/client/src/session.ts:249-269 | nothing is accepted under a kid retired at q from q+600 s |
| Lifetime.EndedSourceDies | packages/worker/src/db.ts:676-732 | whatever happens before and after, from the event that revokes a key or session, disables a principal for good or drops a kid, nothing resting on it is accepted 300 s (270 s unless presented itself, 600 s for a kid) later |
| Lifetime.RevocationBoundsAreReached | packages/client/src/session.ts:154-182 | a run in which a revoked key's token is accepted at r+269 s from the cache and at r+299 s when presented |
| Lifetime.RetirementBoundIsReached | packages/client/src/session.ts:259-269 | a run in which a retired kid is accepted at q+599 s |
| SessionAuth.IamBinding.FindActiveCredential | packages/worker/src/db.ts:638-644 | finds a credential exactly when it is unrevoked and unexpired |
| SessionAuth.IamBinding.Exchange | packages/worker/src/tokens.ts:98-125 | does what `Tokens.KeyMintIs` says and signs what it returns |
| SessionAuth.IamBinding.ExchangeSsoSession | packages/worker/src/tokens.ts:44-90 | does what `Tokens.SessionMintIs` says and signs what it returns |
| SessionAuth.IamBinding.GetJwks | packages/worker/src/signing.ts:49-51 | every configured key is published |
| SessionAuth.PropustkaAuth.Jwks | packages/client/src/session.ts:259-269 | the cached key set while fresh and not forced, else a fetched one kept for 600 s |
| SessionAuth.PropustkaAuth.Check | packages/client/src/session.ts:236-257 | refetches once, and only when the kid was not found |
| SessionAuth.PropustkaAuth.Bearer | packages/client/src/session.ts:154-182 | answers, signs and remembers as `Tokens.BearerAnswerIs` says, through both caches |
| SessionAuth.PropustkaAuth.Session | packages/client/src/session.ts:189-217 | answers and signs as `Tokens.SessionAnswerIs` says: the cookie first, then the session |
| Glob.CompiledTextReadsBack | packages/client/src/session.ts:320-327 | for every pattern the split, escaped and joined text reads back as anchors around one term per pattern character |
| Glob.CompilerPreservesMeaning | packages/client/src/session.ts:320-327 | for every pattern and path the compiled expression accepts exactly what the glob denotes with each star on one line |
| Glob.PathMatchesWhatTheGlobDenotes | packages/client/src/session.ts:320-327 | and exactly what the anchored glob denotes on paths without line terminators |
| Glob.LoneStarMatchesOneLine | packages/client/src/session.ts:320-323 | with a line terminator the two differ: `*` denotes every path and matches those on one line |
| Gates.Authenticate | packages/client/src/session.ts:86-125 | the outcome is that of the first matching rule to decide; otherwise the last human miss, else `no_credential`, else `no_rule` |
| Gates.OutcomeIsUnique | packages/client/src/session.ts:86-125 | that description fixes one outcome for every request |
| Gates.OtherPathsDoNotMatter | packages/client/src/session.ts:89-93 | a rule for other paths may stand anywhere |
| Gates.LaterRulesDoNotMatter | packages/client/src/session.ts:98-116 | rules after the deciding one may be anything |
| Gates.OnlyPublicRulesAreOpen | packages/client/src/session.ts:98-103 | only a matching public rule lets a request in anonymously |
| Schema.BuildBatch | packages/worker/src/db.ts:525-599 | the loops build upserts and one prune for scopes, then actions, then roles |
| Schema.SchemaDb.ReconcileAppSchema | packages/worker/src/db.ts:525-599 | leaves the tables reconciled: declared rows with the last duplicate winning, kept custom roles, original creation times, other apps unmoved |
| Schema.BatchReconciles | packages/worker/src/db.ts:525-599 | executing the statements one by one reaches that description, from any tables |
| Schema.ReconciledIsUnique | packages/worker/src/db.ts:525-599 | the description fixes every row of every table |
| Schema.ReconcileIsIdempotent | packages/worker/src/db.ts:525-599 | reconciling again at any time changes nothing |
| Schema.ReadsBackTheDeclaration | packages/worker/src/admin/handlers.ts:601-649 | reading the schema back gives the declaration, up to ordering and repeats |
| Catalog.ValidateSchema | packages/worker/src/admin/handlers.ts:543-593 | accepts exactly when every role pattern is allowed by the body's own actions; otherwise names an offending role and pattern |
| Catalog.CatalogReadingDecides | packages/worker/src/admin/handlers.ts:685-715 | validation against the catalog read asks for `*` or a match in the app's current actions |
| Catalog.CatalogAlwaysHolds | packages/worker/src/admin/handlers.ts:601-800 | in every interleaving of schema puts and policy edits each app-origin role pattern is `*` or matches a current action |
| Catalog.PolicyCheckPassesIff | packages/worker/src/admin/handlers.ts:685-800 | a policy request's checks pass exactly for a known app, a free or custom key that is no built-in's, and patterns that are nonempty and in the catalog |
| Catalog.PolicyWriteIsExact | packages/worker/src/db.ts:459-491 | its write changes one row: to the requested custom one, keeping its age, or to none |
| Catalog.DeclaredRoleOutlivesIff | packages/worker/src/db.ts:459-491 | a declared role stays as declared through a pending policy write if and only if that write has another target; otherwise an edit makes it custom and a delete erases it |
| Catalog.RacingPolicyTakesTheRole | packages/worker/src/admin/handlers.ts:718-800 | so a policy edit or delete checked before a put declares its key and written after takes the declared role away |
| Catalog.RacingCreateIsReached | packages/worker/src/admin/handlers.ts:718-750 | a run from nothing in which creating a policy does it |
| Catalog.RacingDeleteIsReached | packages/worker/src/admin/handlers.ts:784-800 | a run from nothing in which deleting one does it |
| Catalog.PutAllowsIff | packages/worker/src/admin/handlers.ts:543-633 | after a put the catalog admits a pattern if and only if the declared actions do |
| Catalog.CustomPolicyFitsIff | packages/worker/src/db.ts:561-599 | a custom policy is left as it is by a put, and then fits the catalog if and only if the declared actions admit all its patterns |
| Catalog.CustomPolicyCanOutliveItsActions | packages/worker/src/db.ts:561-599 | so a put that declares no action leaves one whose patterns match nothing |
| Audit.ListAuditEvents | packages/worker/src/db.ts:796-836 | a page is the newest selected rows, in descending order, short only when nothing is left |
| Audit.ParseLimit | packages/worker/src/admin/handlers.ts:1056-1069 | 1 to 200 is honoured, more is 200, less or nothing is 50 |
| Audit.ListAudit | packages/worker/src/admin/handlers.ts:1071-1087 | a full page's cursor is its oldest id, and a null cursor means that nothing selected is missing |
| Audit.Query | packages/worker/src/db.ts:796-830 | the conditions built one parameter at a time select exactly the rows that agree with every nonempty parameter, below the cursor |
| Audit.WalkListsEverything | packages/worker/src/admin/handlers.ts:1071-1087 | following the cursor to null, under any limits and inserts above it, lists every matching row once, newest first |
| Audit.WalkIsFinite | packages/worker/src/db.ts:796-836 | a walk makes at most one request more than there are matching rows |
| Claims.ReadPermissionEntries | packages/core/src/token.ts:226-241 | the loop yields the entries the list says, in order, or nothing when one is malformed, an absent scope included |
| Claims.PayloadParsesIff | packages/core/src/token.ts:145-165 | for every payload and claim set, the reader returns the claims if and only if the payload says exactly them |
| Claims.PayloadReadsBack | packages/core/src/token.ts:145-165 | parsing the payload of any claims gives those claims |
| Claims.BothSidesDecideAlike | packages/core/src/token.ts:122-165 | for all parameters the SDK reads back the Worker's fields and decides every request as the Worker's list does |
| Claims.ParsedClaimsAreStable | packages/core/src/token.ts:145-165 | a payload that parses has every mandatory claim and reads as itself once rewritten |
| Uuid.Uuidv7 | packages/core/src/ids.ts:13-41 | the masked bytes have the version 7 layout of section 5.7 of RFC 9562: clock, version, variant, and every random bit kept |
| Uuid.AndLowBits | packages/core/src/ids.ts:19-24 | masking with `2^n - 1` is the remainder by `2^n` |
| Uuid.ClockReadsBack | packages/core/src/ids.ts:16-24 | for every time below 2^48 the first twelve hex digits read back as the milliseconds |
| Uuid.TextLayout | packages/core/src/ids.ts:31-40 | dashes, the digit 7 and a variant digit 8, 9, a or b stand in their places |
| Uuid.TextReadsBack | packages/core/src/ids.ts:35-40 | without its dashes the text has two hex digits for each of the sixteen bytes, in order |
| Uuid.IdsSortByTime | packages/core/src/ids.ts:8-11 | an id of an earlier millisecond is lexicographically smaller, whatever the random bytes |
| Base64.UrlRoundTrip | packages/worker/src/auth/routes.ts:209-218 | unpadded base64url (section 5 of RFC 4648) reads back for every byte string, whatever its length mod 3 |
| Base64.UrlSpellingIsSafe | packages/worker/src/auth/routes.ts:209-211 | the spelling contains no `+`, `/` or `=` |
| Base64.AlphabetIsTheStandardOne | packages/worker/src/auth/routes.ts:209-211 | the digits are those of section 4 of RFC 4648, in its order |
| Flight.StringifyReadsBack | packages/worker/src/auth/routes.ts:209-221 | the JSON text of any flight, escapes included, parses to its three string members |
| Flight.FlightRoundTrip | packages/worker/src/auth/routes.ts:209-229 | a flight is encoded exactly when its characters are below 256, and then decodes to itself |
| Flight.DecodesIff | packages/worker/src/auth/routes.ts:213-229 | a cookie decodes to a flight if and only if its JSON names all three parts as strings |

## Left out

- Signatures, hashing and randomness are ideal: a kid identifies a key, a token verifies when it was signed, a key's text is its credential, and new ids are fresh.
- One clock serves the Worker and the SDK. A mint reads and signs at one moment, and resolving a caller reads grants and roles at one moment; acting on what was resolved comes later. Reads torn between two states, and skew, are not modelled.
- SQL transport, HTTP, headers, cookies, CSRF, URL parsing and the OIDC exchange; a store call either answers, is lost before taking effect, or loses its reply.
- A character is one Unicode scalar value, not a UTF-16 code unit; numbers in claims are integers.
- A malformed inline `permissions` text: the table's `json_valid` check keeps it out, so a row holds a JSON value.
- Amplification.NoTokenAmplifies: a session mint may happen for any enabled user at any time, so sessions, sign-out and their expiry are not part of that state machine (they are part of `Lifetime`); this allows more runs than the code does.
- IssueStore.IssueKey: its three writes in service mode may stop short after any of them (`Amplification.IssueServiceKeeps`), but nobody else's write comes between them.
- The local development bypass and the environment's provisioning key are operators, a root source; share links an administrator creates go through the same issue step as everyone's.
- Login.LoginsAgree: the runs delete invites atomically; the handler's separate check and delete are `InviteCancel`'s, where the law holds under an exact condition.
- Login.BoundForever: the same; `InviteCancel.BindingsAreKeptIff` is the condition.
- LoginStore.ResolveUserPrincipal: calls lost in transit are modelled in the interleaving system only, where a result is the principal's id.
- LoginOutcomes.UnknownMetItsEmail: excludes logins whose insert never reached the table, which need meet no row (`LoginOutcomes.LostInsertIsRefused`); `KnownSubs.RefusedExactlyWhen` covers them all.
- Gates.Authenticate: what a bearer or session attempt yields is a parameter of the walk; `SessionAuth` models the attempts.
- Flight.FlightRoundTrip: the JSON reader covers objects of string members without white space, which is what is written; `atob`'s skipping of white space is not modelled.
- Glob.CompilerPreservesMeaning: the reader of expressions covers anchors, literals, escapes, `.` and `*`, which is what is written; groups, classes and other quantifiers read as errors.
- Catalog.CatalogAlwaysHolds: a policy request makes all its reads at one moment and writes at a later one; the JSON shape checks of request bodies are not modelled.
- Audit.WalkListsEverything: ids are modelled by their order, as integers; the auth log's listing has the same shape.
- Role memoisation in the admin DTOs, `safeRedirect`, `admitted`, status mappings, the admin UI, `FakeIamClient`, audit writes and retention pruning: settled by reading a branch, or without effect on authorization.
