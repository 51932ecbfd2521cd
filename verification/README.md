# Verification model of Authlier

This project models the parts of Authlier that have to stay right under concurrent callers, as small state
machines over shared state, and proves what holds of every run.

`dafny verify dfyconfig.toml` checks everything.

## How the model is built

**Row tables.** For accounts, cookie sessions, bearer sessions and authenticator-app MFA there is a `...Rows` module:
plain tables and one `Step` per operation, as the PostgreSQL adapter performs it. A history is the list of committed
operations with the replies their callers got; `Serial.Replay` runs it. The `...History` modules prove what holds
over all histories. The `...Log` modules say what every record is after any history, and what every operation answers, by
the logged operations alone and without mention of `Step`, and prove that the rows are and answer just that.

**Redis stores.** A transaction of the Redis adapter only reads before its single MULTI block. It is therefore given by
the decision it takes from the values it read (`Body`), the pipeline it then sends (`Write`) and its WATCH list
(`Watched`); where the source builds updates in loops, a method with the same loops is proved to compute what `Body`
and `Write` use. The loop around them is imperative: class `Optimistic.Store` holds the database, whose keys carry
modification counts, and its methods WATCH, read, EXEC and retry up to 16 times. Other clients run at every point
where they could: `Others` promises nothing about them but what every client of the store itself keeps
(`Follows`, a longer history, a valid store), and each key is read at its own moment. `Valid` says that the database is
the serial replay of the commits, so every method contract is about all interleavings; `own` lists the numbers of this
client's own commits, so that contracts can say "exactly one commit" (`Made`) whoever else runs. `Lawful` lists what a store's
code must satisfy, and one lemma per store proves it, the index agreement included.

**Calls that do not overlap.** The constant `quiet` of a store says that no other client runs during a call. Claims that
need it say so; everything else is claimed without it.

**Managers.** The session, bearer, TOTP and password managers are classes over those stores. The session manager has a
cache whose calls may fail, with or without effect; `lapses` counts the calls that do. `failures` counts random values that
could not be drawn or turned out to be taken (and access tokens that could not be signed), so that a contract can say that
a call fails for nothing else; an identifier or secret that is drawn is never blank. `Healthy` says that calls do not
overlap and that the rows were well-formed when the call began; `Went` then says that they still are. Interference methods
have empty bodies; callers see only their contracts. There is one clock that never goes backwards, in nanoseconds from
Go's zero time.

**Values.** Hashes, ciphers, HOTP and password hashing are uninterpreted functions. Of the password hasher the managers
assume that a fresh hash verifies its password, which `PasswordHistory.BackedIsSound` proves of this one. That a hash
verifies one password only cannot hold of all strings, there being more of them than keys; `PasswordHistory.BackedIsHonest`
has it of any set of passwords that the primitives keep apart.
User identifiers and WebAuthn handles are fresh; session identifiers and random tokens are arbitrary and may collide.
Token hashes are strings of hexadecimal digits. Strings are sequences of Unicode scalars; Go strings that are not valid
UTF-8 are not modelled. Where the source counts bytes or looks at single bytes (hash strings, tokens, TOTP codes) only
ASCII strings are accepted in the end, so that counting scalars gives the same answers.

## What was found

- **Extend on retry** (storage/redis/sessions.go:90-111). The record is decoded into a variable that outlives the attempt
  and whose `ExtendedAt` points at the caller's own time once an attempt has been lost, so decoding a record that was
  extended before overwrites that time. The committed expiry can then lie more than a lifetime after the recorded
  extension. `SessionHistory.RetriedExtensionKeepsOldTime` gives the input; `SessionCalls.RecordsOwnTime` says exactly when
  one extension records its own time, and `SessionHistory.ExpiryIsSliding` exactly which sessions still obey the rule.
- **Stale copies.** A manager that works from a stale cached record may be refused an extension of an active session, and
  then the session fails to resolve once; `SessionHistory.StaleExtensionRefused` says exactly when in terms of the row,
  and `SessionHistory.RefusedWhenOvertaken` in terms of the history.
- **Two enrollments.** ConfirmEnrollment (totp/totp.go:253-283) checks the code against the enrollment it reads, but Enable
  turns on whatever enrollment is stored at its commit. If the subject begins another one in between, a secret is enabled
  for which no code was shown. `TotpHistory.RacedEnrollment` gives the input, `TotpHistory.EnablesLatest` says which secret
  is enabled, and `TotpHistory.EnablesChecked` exactly when it is the one checked.
- **Replaced secret.** Verify (totp/totp.go:321-351) likewise checks the code against the credential it reads. If
  the subject enables another secret before the commit, a code for the old secret is accepted and its counter is recorded
  for the new one. `TotpHistory.ReplacedSecret` gives the input, `TotpHistory.AcceptsChecked` the exact condition.
- **DeleteCredential.** The adapters check ownership and the last-credential rule in different orders;
  `AccountRows.AdaptersDifferOnForeignCredential` says exactly when their answers differ. The row tables follow Redis here.
- **Consumed challenges.** Redis deletes a completed TOTP challenge and a completed ceremony, PostgreSQL keeps a consumed row,
  so the same token hash could be created again only in Redis. The row tables hold what is pending.
- **Owners.** PostgreSQL's foreign keys reject a one-time token for an unknown user, Redis does not look. The row
  tables follow Redis.

## Model

| member | source | states |
|---|---|---|
| Optimistic.Store.Attempt | storage/redis/redis.go:83-92 | one WATCH, its reads (each key at its own moment while other clients run) and one EXEC: a commit is logged, in commit order, with the caller's reply; a refusal is decided from values that each key had at some moment of the attempt and changes nothing; and only if calls overlap can the attempt be lost, which changes nothing either |
| Optimistic.Store.Exec | storage/redis/redis.go:83-92 | if no watched key was modified since WATCH, the pipeline takes effect as exactly one serial step of the row tables |
| Optimistic.Store.Run | storage/redis/redis.go:83-92 | up to 16 attempts, contention being reported only after 16 have been lost: at most one of them commits; without overlapping calls the result and the rows are those of one row-table step |
| Optimistic.Store.Command | storage/redis/totp.go:137-145 | a single command (HSET, HSETNX) is one serial step without WATCH and is never lost to contention |
| Optimistic.CleanMeansCurrent | storage/redis/redis.go:83-92 | a clean EXEC means that everything read is still current, keys included that are not watched but only ever written together with a watched one |
| Serial.Climbs | storage/redis/redis.go:83-92 | over every history, a relation that each commit respects holds between any earlier state and any later one |
| Watch.InverseAdd | storage/redis/sessions.go:48-52 | adding a record and its set member together keeps the family of sets the exact inverse of the records |
| Watch.InverseRemove | storage/redis/accounts.go:495-503 | removing both together keeps it too |
| AccountStore.DependsOnWatched | storage/redis/accounts.go:59-207 | every decision and every write of an account transaction depends on watched keys only |
| AccountStore.Commits | storage/redis/accounts.go:172-207 | every account commit is the PostgreSQL row-table step with the same reply and leaves every secondary index the exact inverse of its base hash |
| AccountStore.TokenIssued | storage/redis/accounts.go:324-350 | issuing keeps the two one-time-token hashes exact inverses: the user's earlier token hash is gone, and no other user's token is touched |
| AccountStore.TokenSpent | storage/redis/accounts.go:221-256 | redeeming removes exactly the user's record and its token hash, and the two hashes stay inverses |
| AccountStore.Refuses | storage/redis/accounts.go:383-506 | what an account transaction refuses is what the row tables refuse, with the same error |
| AccountStore.WriteTicks | storage/redis/accounts.go:324-350 | no pipeline changes a key without changing the version that WATCH compares |
| AccountStore.AccountsAreLawful | storage/redis/accounts.go:59-506 | the account and passkey transactions meet everything the WATCH loop needs for serializability |
| AccountStore.StoreInvariant | storage/redis/passkeys.go:98-206 | in every state of the store, under any interleaving: indexes agree, the rows are the serial replay of the commits, everyone has a sign-in method and at most one Google identity |
| AccountStore.CreateCeremony | storage/redis/passkeys.go:76-87 | a single HSETNX: one commit, or refused only as a conflict and never for contention; without overlap exactly if the token is taken |
| AccountRows.StepKeepsGood | storage/postgres/accounts.go:165-205 | no committed operation takes a user's last sign-in method, links a second Google identity, or duplicates an email, handle or token |
| AccountRows.DeleteCredentialKeepsGood | storage/postgres/passkeys.go:174-210 | deleting a passkey leaves its owner another way to sign in |
| AccountRows.UnlinkKeepsGood | storage/postgres/accounts.go:469-510 | unlinking Google leaves a password or a passkey |
| AccountRows.EveryUserCanSignIn | storage/postgres/accounts.go:165-205 | the invariant of the previous rows in every state reachable by any history of commits |
| AccountRows.NobodyIsLockedOut | storage/postgres/accounts.go:469-510 | for one user of any reachable state: a password, a Google identity or a passkey exists, and at most one Google identity |
| AccountRows.AdaptersDifferOnForeignCredential | storage/postgres/passkeys.go:190-208 | the two adapters answer DeleteCredential differently exactly when a user whose only method is one passkey names a credential that is not theirs; both refuse |
| AccountRows.StepKeepsUsers | storage/postgres/accounts.go:384-467 | no operation deletes a user or changes a user's email or handle |
| AccountHistory.TokensAreLatest | storage/redis/accounts.go:324-350 | over any history the stored one-time token of a user is the last one issued to the user and not redeemed since: reissuing kills the earlier one |
| AccountHistory.RedeemedAtMostOnce | storage/redis/accounts.go:273-307 | over any history redemptions of a token plus its being held never exceed the times it was issued; that none is redeemed expired is AccountLog.RedeemsUnexpired |
| AccountHistory.SecretIsLastChosen | storage/redis/accounts.go:150-170 | over any history the plaintext that verifies is the one last chosen; a rehash neither changes it nor brings back a replaced, reset or removed one |
| AccountLog.RecordsAreTold | storage/postgres/accounts.go:38-510 | over any history every user, password, identity, passkey and pending ceremony is exactly what the commits tell: a registered user is unverified until a verification token is redeemed, a password is the one set last, an identity belongs to whoever linked it first since it was unlinked, a completed registration consumes its ceremony |
| AccountLog.Answers | storage/redis/accounts.go:59-506 | what each of the twelve operations answers after any history is told by the commits alone; in particular an unexpired latest token is redeemed (for verification, while the user is unverified) and an expired one is inactive |
| AccountLog.RedeemsUnexpired | storage/redis/accounts.go:221-307 | over any history a commit that redeems a token was for the user it answered, whose latest token it was, issued by an earlier commit, and named a time before its expiry |
| EmailPassword.Perform | storage/redis/accounts.go:59-207 | an account call commits exactly one logged operation if it succeeds and none if it fails; without overlap it is one row-table step, and its answer is the one that the history calls for |
| EmailPassword.Manager.FindBySubject | storage/redis/accounts.go:106-120 | two reads at two moments give a user and a hash that are both still those of the account when the second is made; without overlap nobody is found exactly if there is no such user or no password |
| EmailPassword.Manager.FindByEmail | storage/redis/accounts.go:91-100 | the record reached through the address index is an account of the rows, and that account has the address, whoever runs in between; without overlap nobody is found exactly if no account has it |
| EmailPassword.Manager.Authenticate | emailpassword/emailpassword.go:446-483 | a rehash replaces the very hash that was verified by a new hash that the password verifies, and only if verification asked for it; anything else writes nothing; without overlap a password that matches is accepted unless a rehash is due and no hash can be made |
| EmailPassword.Manager.Identify | emailpassword/emailpassword.go:427-442 | without overlap exactly the account with the normalized address, an error exactly if one of its stored fields is blank, and nobody exactly if no account has the address |
| EmailPassword.Manager.VerifyCurrent | emailpassword/emailpassword.go:322-338 | an account of the rows whose hash the password verifies; without overlap exactly by the row: nobody and a wrong password alike, a blank field as an error |
| EmailPassword.Manager.Login | emailpassword/emailpassword.go:420-487 | success means that the password verifies a hash which the account with this very address had during the call; at most the rehash is written, and nothing on failure; without overlap the account answers exactly by its own hash, an unknown address and a wrong password alike, and InvalidRecord for a blank stored field only |
| EmailPassword.Manager.ChangePassword | emailpassword/emailpassword.go:300-367 | compare-and-swap from the hash the current password verified, and the new one does not, to a hash the new password verifies; exactly one commit on success, none on failure; without overlap it fails only for bad input, a wrong or unchanged password, a blank field or a failing hasher |
| EmailPassword.Manager.RemovePassword | emailpassword/emailpassword.go:369-418 | removes exactly the hash the password verified and leaves the user another sign-in method; without overlap it does so exactly if there is one, and answers the last-method error otherwise |
| EmailPassword.Manager.AddPassword | emailpassword/emailpassword.go:229-260 | one commit of a hash of the given password on success, none on failure, the user with a blank address being reported after the commit; without overlap it succeeds for every user without a password |
| EmailPassword.Manager.Register | emailpassword/emailpassword.go:263-298 | one commit under the normalized address on success, none on failure, a blank identifier or address being reported after the commit; without overlap it is refused only for a taken address |
| SessionStore.CollectRevocations | storage/redis/sessions.go:183-198 | the loop of RevokeAll builds, in whatever order the set is listed, the records found, each revoked unless it was, and the matching update map |
| SessionStore.Commits | storage/redis/sessions.go:28-209 | every session commit is the row-table step and keeps token hashes, session identifiers and subject sets in agreement |
| SessionStore.RevokeAllUpdates | storage/redis/sessions.go:175-209 | the updates built from the subject's set are exactly the subject's rows, with first revocation times kept |
| SessionStore.Rests | storage/redis/sessions.go:153-173 | a session call that writes nothing answers like the row table |
| SessionStore.SessionsAreLawful | storage/redis/sessions.go:28-209 | the session transactions meet what the WATCH loop needs |
| SessionCalls.ExtendOnce | storage/redis/sessions.go:90-111 | one attempt of Extend, including what a lost attempt leaves in the variables that outlive it |
| SessionCalls.Extend | storage/redis/sessions.go:90-111 | a success was committed with the caller's expiry and with the caller's time, unless an attempt was lost and the row had been extended before; contention is reported exactly after 16 lost attempts; without overlap it is exactly the row-table step |
| SessionCalls.RecordsOwnTime | storage/redis/sessions.go:93-102 | a committed extension records the caller's time if and only if no attempt was lost or the row carried no other extension time |
| SessionCalls.Perform | storage/redis/sessions.go:113-209 | what Create, Rotate, Revoke and RevokeAll guarantee on success whoever else runs: their own commit, the token revoked, every earlier session of the subject revoked and listed |
| SessionCalls.Sorted | storage/redis/sessions.go:211-215 | a permutation of the records, newest first |
| SessionCalls.ListBySubject | storage/redis/sessions.go:66-88 | newest first and each once, the rows at one moment of the call of exactly the sessions the subject had at an earlier moment of the call, both given as numbers of commits; without overlap, the sorted filter of all rows |
| SessionRows.StepEvolves | storage/postgres/sessions.go:69-162 | rows are never deleted, identities never change, expiries only grow, a revoked row is frozen |
| SessionHistory.RevokedForever | storage/postgres/sessions.go:124-162 | a session revoked at some point of a history is revoked, unchanged, at every later point |
| SessionHistory.ExtensionAdvances | storage/postgres/sessions.go:69-84 | each extension of a row within its bounds moves the expiry strictly forward to what the lifetimes allow at the caller's time; the extension time advances to that time, and the sliding rule holds afterwards, if and only if it does not keep an older one |
| SessionHistory.ExpiryIsSliding | sessiontoken/sessiontoken.go:363-396 | under any mix of extensions, stale or retried, a session expires exactly at its lifetime after it was last extended or created, by the clock of whoever extended it, or at its absolute lifetime if that is first; the recorded extension time is that of the last extension that kept no older one, so that the same rule holds of it if and only if that was the last extension |
| SessionHistory.ExpiryGrowth | sessiontoken/sessiontoken.go:363-396 | between any two points of a history the expiry grew exactly if the session was extended in between, and the extension time advanced exactly if one of those extensions did not keep the time it found |
| SessionHistory.RetriedExtensionKeepsOldTime | storage/redis/sessions.go:93-102 | a history of three commits (create, extend, retried extension) after which the expiry is 17 units past the recorded extension although the lifetime is 10 |
| SessionHistory.StaleExtensionRefused | storage/postgres/sessions.go:75-83 | an extension of an active session is refused exactly when the row has its absolute expiry or one as late as is asked for; for a row that obeys the sliding rule, exactly when it has its absolute expiry or was last extended at that very time |
| SessionHistory.RefusedWhenOvertaken | storage/redis/sessions.go:90-111 | over histories an extension of an active session, retried or not, is refused exactly when the session has its absolute expiry or was extended or created at that time or later by the clock of whoever did |
| SessionHistory.RotateConserves | storage/postgres/sessions.go:86-122 | rotation replaces one active session of the subject by one, and changes no other subject's count |
| SessionHistory.RotatedAtMostOnce | storage/postgres/sessions.go:86-122 | of any number of callers rotating one token, at most one commits |
| SessionLog.RowsAreTold | storage/postgres/sessions.go:27-164 | over any history every session is exactly what the commits tell: as it was created, with the expiry asked for last, the extension time that extensions and retries leave, and revoked when it first was, by its token, with its subject's, or by being replaced |
| SessionLog.Answers | storage/postgres/sessions.go:27-164 | what every session operation answers after any history, records replied included, is told by the commits alone |
| SessionLog.RecordsStayValid | sessiontoken/sessiontoken.go:346-361 | over histories whose commits store well-formed records and name times no earlier than the creation of what they mark, every stored record is well-formed |
| SessionManager.NewManager | sessiontoken/sessiontoken.go:96-129 | a manager exists exactly for a positive lifetime, a positive TTL if there is a cache, and an extension delay below a lifetime below the absolute one if there is a policy |
| SessionManager.Manager.CacheSet | storage/redis/redis.go:131-144 | only records that the store showed unrevoked enter the cache, with a lifetime of at most CacheTTL; the call may fail with or without effect; without overlap the cache is otherwise unchanged, and a call that does not fail caches the record |
| SessionManager.Manager.PopulateCache | sessiontoken/sessiontoken.go:398-408 | without overlap and unless the cache call fails, a record that has not expired is cached for CacheTTL or what is left of its life if that is less, and nothing else changes |
| SessionManager.Manager.ExtendIfDue | sessiontoken/sessiontoken.go:363-396 | either the record as it was and no cache entry set, or an extension was due and is this call's own commit, asked for as the lifetimes allow; without overlap the answer and the rows afterwards are exactly what the row calls for, for a stale copy as well |
| SessionManager.Manager.Resolve | sessiontoken/sessiontoken.go:159-196 | bounded staleness: success rests on the store showing the session unrevoked during the call, or on an entry that was really set less than CacheTTL ago and that this call did not renew; it commits at most one extension of that session; without overlap, whatever cache calls fail, a revoked and uncached token never resolves, none resolves CacheTTL after its revocation, the answer is exactly that of the row or that of a served entry, and an active well-formed row resolves, extended exactly when that is due, unless an entry serves an older version of it |
| SessionManager.EntryRefused | sessiontoken/sessiontoken.go:363-396 | a served entry is answered as inactive exactly if an extension of it is due and the row is not active or expires no earlier than is asked for |
| SessionManager.Manager.Create | sessiontoken/sessiontoken.go:133-155 | exactly one commit of the call created the returned session, for the subject, from now, with the configured lifetime, as SessionHistory.Asks demands; none on failure; it fails only for a blank subject, a failing random source or three collisions, without overlap for nothing else, and unless a cache call fails the session is cached |
| SessionManager.Manager.Rotate | sessiontoken/sessiontoken.go:202-240 | exactly one commit of the call replaced the old session by the returned one, for the subject of the stored row, from now, with the configured lifetime, as SessionHistory.Asks demands; without overlap active sessions are conserved, no error means the old token can never resolve again, every well-formed active session is rotated unless the random source fails, and a cache error means that the cache failed |
| SessionManager.Manager.Revoke | sessiontoken/sessiontoken.go:243-252 | revoked in the store on success or cache failure, and nothing but that revocation, at a time of the call, is committed; without overlap exactly this session is revoked, it fails only for want of the session or of the cache, and success means the token never resolves again |
| SessionManager.Manager.RevokeByID | sessiontoken/sessiontoken.go:255-273 | revokes the subject's session with that identifier and commits nothing else; without overlap exactly if there is one, and nothing changes otherwise |
| SessionManager.Manager.List | sessiontoken/sessiontoken.go:277-291 | the subject's well-formed records, as the store listed them at moments of the call that are given as numbers of commits; without overlap an error exactly for a blank subject or a malformed row |
| SessionManager.Manager.RevokeAll | sessiontoken/sessiontoken.go:296-316 | every earlier session of the subject is revoked by at most one commit; without overlap exactly those are, the call then fails only for a blank subject, a malformed row (of which well-formed rows leave none) or a failed cache call, and no error means no cache entry of the subject is left, however many earlier deletes failed |
| SessionManager.SessionsSlide | sessiontoken/sessiontoken.go:363-396 | if all commits come from managers with one configuration, every session in the store expires exactly at its lifetime after a manager last extended or created it, capped by its absolute lifetime; of the recorded extension time the same holds except exactly where the last extension kept an older one |
| BearerStore.CollectAll | storage/redis/sessions.go:342-376 | the nested loops of RevokeAll collect exactly the unrevoked sessions listed for the subject and the unrevoked tokens listed for those that exist |
| BearerStore.CollectTokens | storage/redis/sessions.go:470-483 | the loop of revokeSessionInTransaction collects exactly the listed tokens that exist, first revocation times kept |
| BearerStore.RevocationIsStep | storage/redis/sessions.go:463-501 | the transaction revokes the session and exactly its tokens |
| BearerStore.RevokeAllIsStep | storage/redis/sessions.go:327-388 | the two update maps are exactly the subject's sessions and those sessions' tokens |
| BearerStore.ReuseWrites | storage/redis/sessions.go:430-433 | the revocation that answers a reuse always has something to write, so its WATCH is always checked |
| BearerStore.SetsTickWithTokens | storage/redis/sessions.go:228-261 | the unwatched token sets change only together with the watched refresh-tokens hash |
| BearerStore.Commits | storage/redis/sessions.go:419-501 | every bearer commit is the row-table step and keeps subject sets and token sets inverse to the records |
| BearerStore.BearerIsLawful | storage/redis/sessions.go:228-501 | the bearer transactions meet what the WATCH loop needs although Rotate and RevokeAll read sets they do not watch |
| BearerCalls.RotateToken | storage/redis/sessions.go:419-453 | the captured reused flag never disagrees with the attempt that commits: the caller gets the reply of the commit; a token dead when the call began is answered as reused, whoever else runs, unless every attempt is lost |
| BearerCalls.Perform | storage/redis/sessions.go:317-388 | a revocation that succeeds has revoked every named session and token that existed when it began, even if it wrote nothing itself |
| BearerCalls.SetsAreChains | storage/redis/sessions.go:228-261 | in every state of the store each session's set of refresh tokens is exactly its rotation chain |
| BearerRows.StepEvolves | storage/postgres/sessions.go:304-376 | rows are never deleted and rotation and revocation times are kept once set |
| BearerHistory.DeadForever | refreshtoken/refreshtoken.go:38-40 | a token once rotated, revoked or expired is live at no later state and time |
| BearerHistory.OneChain | storage/postgres/sessions.go:304-350 | in every reachable state a session's tokens are one rotation chain whose last link alone is unrotated, all with the session's expiry and revoked exactly when it is |
| BearerHistory.AtMostOneLive | storage/postgres/sessions.go:304-350 | at most one live token per session at any time, none once the session is revoked or expired |
| BearerHistory.ExchangedAtMostOnce | storage/postgres/sessions.go:304-350 | each refresh token is exchanged at most once over any run |
| BearerHistory.ReuseRevokesChain | storage/postgres/sessions.go:325-333 | after ErrReuseDetected the session and its whole chain are revoked |
| BearerHistory.RevocationIsExact | storage/postgres/sessions.go:254-274 | revocation marks exactly the named sessions and their tokens, keeps each first revocation time, and leaves every other record unchanged |
| BearerLog.RowsAreTold | storage/postgres/sessions.go:179-380 | over any history every bearer session and refresh token is exactly what the commits tell: a token is rotated at the very time that its one exchange names, and a session and its tokens are revoked when they first were |
| BearerLog.Answers | storage/postgres/sessions.go:179-380 | what every operation answers after any history is told by the commits alone; a token that was exchanged, revoked or has expired is answered as reused |
| BearerLog.TokensStayValid | refreshtoken/refreshtoken.go:201-214 | over histories whose commits issue well-formed tokens and name times no earlier than the creation of what they mark, every stored token is well-formed |
| BearerManager.AccessExpiry | accesstoken/accesstoken.go:95-102 | an access token expires at the configured time or with the session, whichever is first, in whole seconds, and none is issued exactly if the session would be over |
| BearerManager.RefreshManager.ResolveToken | refreshtoken/refreshtoken.go:93-109 | success means the token was live at a moment of the call; inactive means it is dead for good; without overlap the answer is exactly that of the row |
| BearerManager.RefreshManager.RotateToken | refreshtoken/refreshtoken.go:112-139 | success is exactly one commit of this call, at a time during it, that replaces the token for the session and with the expiry of its row, as BearerHistory.Asks demands; a token that was dead at the start, or that any earlier commit had exchanged, is never exchanged but its reuse is detected, whoever else runs, except for a malformed row, contention or a failing random source, and no row is malformed where commits are timely; without overlap a live well-formed token is exchanged except for collisions or such a failure; a failure commits nothing, and reuse means the chain is revoked |
| BearerManager.RefreshManager.RevokeByToken | refreshtoken/refreshtoken.go:142-148 | success means that the token's session and chain are revoked; nothing else is committed; without overlap it succeeds for every live well-formed token |
| BearerManager.RefreshManager.RevokeSessionID | refreshtoken/refreshtoken.go:151-159 | success means that the session and its tokens of the start are revoked, and all its tokens if it had any; nothing else is committed; without overlap it fails exactly for a blank identifier |
| BearerManager.Manager.IssueUntil | accesstoken/accesstoken.go:79-129 | the token names subject and session, is issued at the present second, and expires after the configured lifetime or at the maximum, whichever is first |
| BearerManager.Manager.Create | token_session.go:89-128 | exactly one commit opened a session of the subject from the present second for the configured lifetime, with a refresh token that expires with it, as BearerHistory.Asks demands; the access token is the session's and ends with it at the latest; none on failure; without overlap it fails only for a blank subject, a failing random source or signature, or a lifetime over before it is done |
| BearerManager.Manager.Refresh | token_session.go:130-168 | tokens are returned only for exactly one exchange committed by this call: the replacement has the session and expiry of the token's row, the answer is that session's row, and the access token is the session's and does not outlive it; where all clients ask as the managers do the replacement expires with the session; an inactive token is never answered as merely inactive, and of one dead at the start, or exchanged by any earlier commit, the reuse is detected, with the same exceptions, malformed rows being excluded where commits are timely; ErrReuseDetected means session and chain are revoked, any other failure commits nothing; without overlap a live well-formed token of an active session is refreshed |
| BearerManager.Manager.Resolve | accesstoken/accesstoken.go:190-234 | an access token counts only while its durable session is unrevoked and unexpired and has the same subject; without overlap exactly then |
| BearerManager.Manager.List | token_session.go:184-204 | only active sessions of the subject as the store has them, and of those it had at the start all that are still active; without overlap exactly the subject's active sessions |
| BearerManager.Manager.RevokeByID | token_session.go:217-232 | revokes only a session of the subject and commits nothing else; without overlap it succeeds for every such session and answers not-found, changing nothing, for any other |
| BearerManager.Manager.RevokeAll | token_session.go:234-236 | every session of the subject and every token of those sessions is revoked, by at most one commit; without overlap it always succeeds |
| TotpStore.FieldIsInjective | storage/redis/totp.go:233-235 | subject and code can be read back from a recovery field, whatever colons the subject has, so different codes have different fields |
| TotpStore.Cleared | storage/redis/totp.go:94-97 | deleting the fields a subject's set lists deletes exactly that subject's codes |
| TotpStore.Commits | storage/redis/totp.go:71-231 | every TOTP commit is the row-table step and keeps each recovery set equal to its subject's fields |
| TotpStore.Refuses | storage/redis/totp.go:167-231 | what is refused is what the row tables refuse, with the same error |
| TotpStore.TotpIsLawful | storage/redis/totp.go:71-231 | the TOTP transactions meet what the WATCH loop needs |
| TotpHistory.CountersIncrease | storage/postgres/totp.go:171-196 | between two enrollments accepted counters strictly increase and exceed the confirmed one |
| TotpHistory.StoresLastCounter | storage/postgres/totp.go:59-106 | the stored counter is the last one confirmed or accepted |
| TotpHistory.ChallengesBalance | storage/postgres/totp.go:225-239 | completions of a challenge plus its being pending equal its creations: each authenticates at most once |
| TotpHistory.CodesUsedOnce | storage/postgres/totp.go:198-223 | uses of a recovery code plus its being usable never exceed the times it was granted |
| TotpHistory.CodesOnlyWhenEnabled | storage/redis/totp.go:107-135 | recovery codes exist only for an enabled credential, so that a recovery need not read the credential |
| TotpHistory.EnrollmentIsLatest | storage/redis/totp.go:71-92 | over any history a subject's enrollment is the one begun last and not enabled since |
| TotpHistory.EnablesLatest | storage/redis/totp.go:71-92 | what a commit of Enable turns on is the secret of the enrollment begun last before it, with the counter that was named |
| TotpHistory.EnablesChecked | totp/totp.go:253-283 | every enrollment having its own secret, the secret that a code was checked against is the one that a later commit enables if and only if the subject began no enrollment in between |
| TotpHistory.RacedEnrollment | totp/totp.go:253-283 | a history in which the code is checked against one secret and another secret is enabled with its counter |
| TotpHistory.AcceptsChecked | totp/totp.go:321-351 | every enrollment having its own secret, the secret that a code was checked against is still the stored one at a later point if and only if the subject enabled no other in between |
| TotpHistory.ReplacedSecret | totp/totp.go:321-351 | a history in which a code for the first secret is accepted although the second is stored |
| TotpLog.RecordsAreTold | storage/postgres/totp.go:26-239 | over any history every credential, recovery code and pending challenge is exactly what the commits tell: secret of the latest enrollment, counter confirmed or accepted last, disabled when it first was; codes of the last enabling, unused until named; challenges pending until completed |
| TotpLog.Answers | storage/redis/totp.go:71-231 | what every operation answers after any history is told by the commits alone; a counter past the recorded one and an unused code are accepted for a challenge that has not expired |
| TotpLog.RecordsStaySane | totp/totp.go:478-496 | over histories whose operations store well-formed records only, every stored record is well-formed |
| TotpManager.RecoverySetsNeedEnabled | storage/redis/totp.go:107-135 | the same in every state of the store, for the recovery sets |
| TotpManager.MatchCounter | totp/totp.go:498-526 | the first match among current, previous and next step, none exactly if none matches, and an error only for an undecodable secret |
| TotpManager.CountsFrom1970 | totp/totp.go:507 | time steps of 30 seconds are counted from 1970 |
| TotpManager.AcceptedNearby | totp/totp.go:508-515 | an accepted code's step began less than two periods ago and begins at most one period from now |
| TotpManager.GenerateRecoveryCodes | totp/totp.go:528-547 | exactly the asked number of codes, with distinct hashes, whatever the draws |
| TotpManager.Manager.BeginEnrollment | totp/totp.go:195-228 | exactly one commit of the returned enrollment, from now, with the configured lifetime; none on failure; without overlap it fails only for blank input or a failing random source |
| TotpManager.Manager.ConfirmEnrollment | totp/totp.go:242-291 | exactly one commit enables a credential from the counter that the code matched first for an unexpired enrollment the subject had during the call, with exactly the configured number of returned codes; its secret is that of the enrollment begun last before the commit: secrets being fresh, the one matched if and only if none was begun in between, and without overlap always; without overlap the stored enrollment answers exactly: a matching code is accepted, unless the random source runs short, and no other is |
| TotpManager.Manager.BeginChallenge | totp/totp.go:293-319 | exactly one commit: the returned token's challenge, for the subject, from now, with the configured lifetime; none on failure; it fails only for a blank subject, a failing random source or three collisions |
| TotpManager.Manager.FindChallenge | totp/totp.go:406-430 | a challenge that was pending during the call and has not expired, and a credential that its subject had, enabled, at a later moment of the call; without overlap every such pair is found, and the error is exactly the one the rows call for |
| TotpManager.Manager.Verify | totp/totp.go:321-351 | exactly one commit of this call consumed the challenge and recorded the counter, above the one seen, that the code matches first, within a step of a time during the call, for the secret of a credential the subject had enabled during the call: secrets being fresh, the stored one at the commit if and only if none was enabled in between; without overlap a ready challenge is completed if and only if that counter exceeds the recorded one, and any other is refused as invalid |
| TotpManager.Manager.Recover | totp/totp.go:353-384 | exactly one commit of this call consumed the challenge and the recovery code of its subject, whose credential was seen enabled during the call; without overlap a ready challenge is completed if and only if the code is one of the subject's and unused |
| TotpManager.Manager.Disable | totp/totp.go:386-396 | exactly one commit, after which the credential is disabled and no recovery code is left; none on failure; without overlap it succeeds exactly if the subject has a credential |
| Text.SplitOfJoin | password/password.go:215-218 | splitting what was joined gives the parts back when none contains the separator |
| Common.TrimmedEnds | emailpassword/emailpassword.go:307 | trimming takes away spaces at both ends and nothing else, and leaves none there |
| Base64.DecodeOfEncode | token/token.go:24 | every byte string decodes from its encoding, in both alphabets |
| Base64.EncodeOfDecode | token/token.go:29-31 | what the strict decoder accepts is, up to carriage returns and line feeds, the encoding of what it returns |
| Base64.TestVectors | token/token.go:24 | the test vectors of section 10 of RFC 4648 |
| Token.AcceptsExactlyEncodings | token/token.go:28-35 | a token is accepted if and only if it is the encoding of some 32 bytes, and then hashes to their hash |
| Token.OneTokenPerValue | token/token.go:28-35 | accepted tokens and 32-byte values correspond one to one |
| Token.GeneratedIsAccepted | token/token.go:19-25 | a generated token always maps back to the hash generated with it |
| Token.LineBreaksAreRefused | token/token.go:28-33 | the decoder alone would accept a token with a line feed added; the comparison with the re-encoding refuses it |
| PasswordHash.ParseParameters | password/password.go:252-288 | the fields parse to a triple if and only if three fields assign m, t and p, in any order, within bounds |
| PasswordHash.Parse | password/password.go:210-250 | a hash string parses exactly to its meaning |
| PasswordHash.PrintedMeans | password/password.go:145-153 | for every acceptable salt, key and triple, the printed string, with its fields in any order, means exactly what was printed |
| PasswordHash.OneMeaning | password/password.go:210-250 | a hash string has at most one meaning |
| PasswordHash.Verify | password/password.go:87-113 | a password matches an Argon2id hash if and only if the key it derives with the hash's own parameters and salt is the hash's key, and a bcrypt hash if and only if bcrypt says so; a string that means nothing is an error; a rehash is asked for exactly of matching passwords whose hash is not up to date, never for a change from Argon2id to bcrypt |
| PasswordHash.FreshHashVerifies | password/password.go:65-81 | a hash just made verifies its password and asks for no rehash under the same configuration |
| PasswordHash.NoFurtherRehash | password/password.go:159-208 | right after a successful login the stored hash needs no further rehash under the same configuration |
| PasswordHash.NeverDowngraded | password/password.go:98-108 | no sequence of logins under any mix of configurations turns an Argon2id hash into anything else |
| PasswordHistory.LoginsRehash | emailpassword/emailpassword.go:446-483 | what a login of the manager commits, with the hasher in place, is what a login leaves of the stored hash |
| PasswordHistory.Argon2idStays | password/password.go:98-108 | over every interleaving of account operations and logins, under whatever configurations, a password given an Argon2id hash stays stored under one until it is changed, reset or removed |
| PasswordHistory.BackedIsSound | password/password.go:61-113 | with this hasher in place a fresh hash verifies its password, which is all that the email and password manager assumes |
| PasswordHistory.VerifiesByKey | password/password.go:159-208 | with this hasher in place a password passes the manager's verification exactly if it derives the key of the stored Argon2id hash, or bcrypt matches it |
| PasswordHistory.BackedIsHonest | password/password.go:159-208 | of passwords that the primitives keep apart each hash verifies one and no other |
| SourceKey.TrustedProxy | handler.go:548-555 | whether some trusted prefix contains the address |
| SourceKey.Attribute | handler.go:515-538 | the peer unless it is a trusted proxy; then the rightmost forwarded address, trimmed and unmapped, that is not one, the peer if an entry that does not parse comes first, and the leftmost address if all are; the raw remote address if that does not parse |
| SourceKey.FirstNotPassed | handler.go:524-537 | the first entry from the right that is not a trusted proxy decides: its address if it parses, the peer otherwise |
| SourceKey.AllPassed | handler.go:524-537 | if every entry is a trusted proxy the leftmost is the answer |
| SourceKey.PrefixIsIrrelevant | handler.go:524-537 | once some entry is not a trusted proxy, nothing prepended to the header changes the answer |
| SourceKey.PassedHeaderContinues | handler.go:524-537 | otherwise the prefix is walked as if it were the whole header |
| Scopes.Normalize | oidc/oidc.go:371-389 | openid first, every other trimmed scope once in order of first occurrence, an error exactly for an empty one |

## Left out

- MySQL and MongoDB adapters, migrations: they repeat the same contracts.
- Passkey sign-in completion, email verification and password reset managers above their stores, Google, OIDC and SAML challenges.
- AccountStore.Commits: a transaction body is a function of the values it read, so the order of the reads within one body is not modelled; each key is read at a moment of its own, in any order, but only once per attempt, also where the source reads several fields of one hash at different moments. A commit is not affected, since its watched keys did not change; an answer that writes nothing, decided from such reads under overlap, is.
- Attempt guards, security events, mail, HTTP handlers, cookies, CORS, JSON, WebAuthn and JWT signing and parsing: library, I/O or plumbing.
- refreshtoken.Manager.Create and RefreshTokenStore.Create: they can add a second live token to a session, and the bearer manager does not use them.
- Network errors whose outcome is unknown: a store call commits, is refused, or reports contention.
- Secret encryption of TOTP enrollments: the stores hold the secret itself.
- SessionHistory.ExpiryIsSliding: assumes that every client asks for expiries as the session manager does; SessionManager.Manager.Valid keeps it of all commits a manager makes itself.
- BearerHistory.OneChain: assumes that every client names session and expiry as the managers do; BearerManager.RefreshManager.RotateToken and BearerManager.Manager.Create state it of their own commits, for tokens whose expiry is set, and revocations need nothing.
- SessionManager.Manager.Resolve: for overlapping calls cache entries of all clients count, and it does not bound how old the store's answer was when the cache entry was set, and it does not claim that an active session always resolves; of stale entries SessionManager.EntryRefused says when they are refused.
- TotpManager.GenerateRecoveryCodes: draws from a finite supply, because termination of the loop depends on randomness.
- BearerManager.Manager.List: the order of the listing is not modelled here; SessionCalls.ListBySubject has it for cookie sessions.
- BearerManager.Manager.Resolve: starts from claims whose signature, issuer, audience and times have been checked.
- EmailPassword.Manager.Login: for overlapping calls it does not claim that a right password always logs in, since the rehash may lose against another change. That a password matches is what the hasher's verification says; that no other one does holds of passwords that the primitives keep apart (PasswordHistory.BackedIsHonest).
- EmailPassword.Manager.AddPassword: as in the source a blank stored address is reported after the commit, so of InvalidRecord alone it does not promise that nothing was committed; EmailPassword.Manager.Register does the same for a blank identifier or address.
- challengeMatchesConnection and the other pure field comparisons.
