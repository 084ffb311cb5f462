# goba-slim: sessions, accounts, caching, redaction and files

A Dafny model of the stateful core of goba-slim and proofs about it. `dafny verify dfyconfig.toml`
checks everything.

## What is modelled

**Refresh-token rotation and the session store.** `KeySpace` holds the three Redis maps (sessions,
refresh records, user index) and what each atomic round trip does to them: GET, SMEMBERS, MULTI/EXEC,
EVAL, SREM, DEL, and the passing of time, which expires keys. `SessionHistory` adds everything that was
ever issued (births, owners of digests, chains of digests, instants of exchange) and the invariant that
each round trip keeps, however stale the values it acts on. `SessionProtocol` interleaves any number of
clients, each with a program counter that holds what it has read; `UserIndex` is about coverage of the
user index, `Listings` about what a listing finds and what revoking the listed sessions leaves, and
`SingleSession` about users who may have one session only. `SessionStore` is the same store as a class, run by
one client at a time, with the loops of `ListByUser` and `RevokeUser` and the statements of the rotation script.
The technique is refresh token rotation with replay detection (section 4.14.2 of RFC 9700).

**Authentication over two stores.** `UserTable` has the rows of the users table and the SQL updates.
`VersionFence` interleaves logins, refreshes, authentications and account changes over both stores, for the
version that stamps sessions and access tokens. `AuthService` is the service as a class, run by one client at
a time, with login counters, credential checks, listing and revocation; `SessionListing` is the order of
`ListSessions`.

**Accounts, cache, limiter.** `LastSuperuser` runs any number of READ COMMITTED transactions against each
other; `UserService` is the service run alone. `ConfigCache` has the cache-aside list, interleaved and as a
class. `LoginLimiter` has the counter with INCR and EXPIRE as separate round trips; `LoginGate` interleaves the
two counters of a login with the credential check behind them, and `LoginCounters` ties the counters of the
service run alone to both.

**Redaction, parsers, files, pages.** `Redaction` is the bounded, stateful traversal of a value graph that may
be cyclic, against a description of what may come out of any graph and against plain recursive redaction;
`KeyNames` decides which names are sensitive. `Text` has decimals, hexadecimal and unpadded base64 (sections 3.2
and 4 of RFC 4648) with their inverses and their characters; `Phc` the PHC strings; `ObjectKeys` the object keys,
with UUID text as in section 4 of RFC 9562. `LocalStore` and `FileService` store and serve uploads. `Pagination`
has the 32-bit offset.

## Assumptions

- One ttl for all calls of the store; keys set in one MULTI or script expire at the same instant; time is
  counted in whole ticks.
- Session ids and digests are fresh when they are stored; signatures cannot be forged, so an access token is
  the record that was signed. Key derivation, random bytes, the content sniffer, the Unicode tables and the
  list of weak passwords are parameters.
- JSON is read back as it was written. Strings are sequences of characters below 256 where bytes matter.
- READ COMMITTED: each statement sees what is committed when it runs, and an update is visible from its
  commit on. A row changed by a transaction is written at its commit to the row as it then stands.
- A reader delivers no more bytes after it has said how it ends: io.EOF, io.ErrUnexpectedEOF or another error.
  Asked again, it may say something else than the first time.
- `http.DetectContentType` and `uuid.Parse` are library code; the first is a parameter, the second is written
  out with the four forms it reads.

## Where the code does less than one might expect

- Index coverage fails when a session is created between the SMEMBERS and the DEL of a `RevokeUser` for the
  same user and is still live at the DEL (`UserIndex.CreateInSweepUncovers`), and in no other way
  (`UserIndex.OnlyDelUncovers`, `UserIndex.DelUncoversExactly`).
- Two logins of a single-session user that both sweep before either creates leave two live sessions
  (`SingleSession.TwoLoginsBothLive`); `SingleSession.SoleExactly` says when a login leaves one.
- After a replay, a client that had already found the session is still answered
  (`VersionFence.InFlightAccepted`), and nobody else is (`VersionFence.ReplayedSessionServesOnlyInFlight`). The
  tokens that a refresh in flight then signs get past nobody.
- A cache hit can return an old list after every writer is done, when a fill overlaps a commit
  (`ConfigCache.OverlapServesOldList`); `ConfigCache.OldExactly` says exactly when.
- A client that stops between INCR and EXPIRE leaves a counter that never expires; once it reaches the limit,
  no call is let through again (`LoginLimiter.StuckByAbort`, `LoginLimiter.StuckForever`), and no other key is
  locked for good (`LoginLimiter.LockedExactly`).
- A reader that says io.ErrUnexpectedEOF while the header of an upload is read, or fails on the last bytes of the
  header, and says io.EOF when it is asked again, has its truncated bytes stored as if they were all
  (`FileService.UploadTruncated`). `FileService.Service.Upload` says exactly when a successful upload has stored
  the whole content; a reader that repeats an ending other than io.EOF is always refused.
- The page offset wraps in 32 bits: all pages together give the whole list exactly when the offset of the
  last page fits (`Pagination.PagesPartition`, `Pagination.OffsetWraps`).

## Model

| member | source | states |
|---|---|---|
| SessionHistory.CreateKeeps | internal/modules/auth/redis/store.go:38-61 | storing a new session, its record and its index entry keeps the key-space invariant and revives nothing |
| SessionHistory.RevokeKeeps | internal/modules/auth/redis/store.go:146-161 | the transaction of `Revoke` keeps the invariant even when the session value it acts on is stale: it leaves at most orphans that no rotation accepts |
| SessionHistory.RotateKeeps | internal/modules/auth/redis/rotate.lua:1-37 | every branch of the script keeps the invariant and revives nothing |
| SessionHistory.LaterKeeps | internal/modules/auth/redis/store.go:52-56 | expiry of any keys keeps the invariant: a session and its active record go together |
| SessionHistory.TidyKeeps | internal/modules/auth/redis/store.go:106-110 | the SREM of a listing keeps the invariant |
| SessionHistory.RotateChain | internal/modules/auth/redis/rotate.lua:29-37 | a rotation appends one digest to the chain of the session it answers for and touches no other history |
| SessionHistory.OneActiveRecord | internal/modules/auth/redis/rotate.lua:29-35 | of all records naming a live session exactly the one of its current digest is stored and active |
| SessionHistory.OnlyCurrentDigestRotates | internal/modules/auth/redis/rotate.lua:2-37 | presenting a digest succeeds if and only if it is the current digest of a live session |
| SessionHistory.CurrentDigestAlwaysAccepted | internal/modules/auth/redis/rotate.lua:20-37 | the current digest of a live session is always exchanged, and only digest and expiry of the session change |
| SessionHistory.ReplayRecognised | internal/modules/auth/redis/rotate.lua:9-18 | a spent digest presented within one ttl while its session lives is answered as reused and the session dies in that step |
| SessionProtocol.StepKeeps | internal/modules/auth/redis/store.go:38-182 | every round trip of every client, in any interleaving, keeps the invariant and what other clients have read |
| SessionProtocol.RunKeeps | internal/modules/auth/redis/store.go:38-182 | the same over whole runs |
| SessionProtocol.ExchangedAtMostOnce | internal/modules/auth/redis/rotate.lua:20-37 | under every interleaving each digest is exchanged successfully at most once |
| SessionProtocol.ChainNeverForks | internal/modules/auth/redis/rotate.lua:24-37 | the exchanges of a session form one chain: each gives up the digest that the one before handed out |
| SessionProtocol.DeadForGood | internal/modules/auth/redis/store.go:63-76 | in no continuation does a dead session answer a GET or a rotation |
| SessionProtocol.ReplayKillsForGood | internal/modules/auth/redis/rotate.lua:9-18 | a replay within one ttl is answered as reused and the session is gone in every continuation |
| SessionProtocol.LiveExactlyWhileSliding | internal/modules/auth/redis/rotate.lua:30-36 | in every reachable world a session is live exactly if nothing killed it and its last creation or rotation is less than one ttl ago |
| SessionProtocol.TidyingIsSafe | internal/modules/auth/redis/store.go:78-112 | the clean-up of a listing takes the ids it found dead out of the index, never removes the index entry of a session that is live when it executes, and lists only the user's own sessions |
| UserIndex.OnlyDelUncovers | internal/modules/auth/redis/store.go:38-182 | every step but the DEL of a `RevokeUser` for the user keeps each of the user's live sessions in the index, and the index outliving it |
| UserIndex.SweptExactly | internal/modules/auth/redis/store.go:163-182 | a sweep that reaches its DEL has left exactly the live ones among the sessions that the index missed at its SMEMBERS and those created since |
| UserIndex.DelUncoversExactly | internal/modules/auth/redis/store.go:163-182 | that DEL uncovers a session exactly if a session of the user that the index missed at the SMEMBERS of this sweep, or that was created since, is still live |
| UserIndex.IndexCoversLiveSessions | internal/modules/auth/redis/store.go:163-182 | in runs without a creation for the user inside a sweep of that user, coverage always holds and a sweep that reaches its DEL has left no live session, also when others abort part way |
| UserIndex.CreateInSweepUncovers | internal/modules/auth/redis/store.go:163-182 | a run in which such a creation loses its index entry |
| SingleSession.SoleExactly | internal/modules/auth/redis/store.go:38-61 | a single-session login leaves the new session as the user's only one exactly if no session that the index missed at its SMEMBERS, or created for the user since, is still live |
| SingleSession.OneSessionAtATime | internal/modules/auth/redis/store.go:38-61 | in runs in which logins of the user do not overlap with each other or with a `RevokeUser`, the user has at most one live session |
| SingleSession.TwoLoginsBothLive | internal/modules/auth/redis/store.go:38-61 | a run of two logins that both sweep before either creates, after which both sessions are live |
| Listings.ListingComplete | internal/modules/auth/redis/store.go:78-112 | under every interleaving a listing finds each session that the index named at its SMEMBERS and that is still live at its end, no session twice, and none that the index did not name; what it did not find is dead and about to leave the index |
| Listings.RevokeKills | internal/modules/auth/redis/store.go:146-161 | a `Revoke` that is not broken off leaves its session dead, whatever happens between its GET and its transaction |
| Listings.OthersRevoked | internal/modules/auth/service.go:182-196 | once all listed sessions but the current one are revoked, the user's live sessions are the current one, those the index missed at the SMEMBERS and those created since |
| SessionStore.Store.constructor | internal/modules/auth/redis/store.go:30-36 | an empty, coherent store |
| SessionStore.Store.Get | internal/modules/auth/redis/store.go:63-76 | the stored session, or nothing |
| SessionStore.Store.Create | internal/modules/auth/redis/store.go:38-61 | run alone: the new session, its active record and its index entry last one ttl; the user's live sessions are the old ones, or none for a single-session user, and the new one; other users keep theirs |
| SessionStore.Store.ListByUser | internal/modules/auth/redis/store.go:78-112 | run alone: each live session of the user once, and exactly the dead ids leave the index, which keeps its expiry |
| SessionStore.Store.Revoke | internal/modules/auth/redis/store.go:146-161 | run alone: exactly the session, its current record and its index entry go |
| SessionStore.Store.RevokeUser | internal/modules/auth/redis/store.go:163-182 | run alone: exactly the user's sessions, the records of their current digests and the user's index go |
| SessionStore.Store.Replay | internal/modules/auth/redis/rotate.lua:9-18 | the statements of the reuse branch |
| SessionStore.Store.Exchange | internal/modules/auth/redis/rotate.lua:24-37 | the success branch: the session gets the new digest and expiry, the given record is spent, the new one active, all of them and the index last one ttl from now, and nothing else changes |
| SessionStore.Store.Turn | internal/modules/auth/redis/rotate.lua:24-37 | the success branch keeps coherence, and leaves the answered session stored with a digest that can be exchanged |
| SessionStore.Store.Rotate | internal/modules/auth/redis/rotate.lua:1-37 | reused exactly for a spent record, rotated exactly for an active one that is current for a stored session, and otherwise rejected with nothing changed; the keys in all branches, and coherence is kept |
| SessionStore.SweptCoherent | internal/modules/auth/redis/store.go:163-182 | a sweep leaves no live session of the user and every session of other users |
| SessionStore.ExchangedCoherent | internal/modules/auth/redis/rotate.lua:29-36 | after an exchange every live session is still indexed, recorded and in step with its record |
| VersionFence.StepStamped | internal/modules/auth/service.go:37-133 | no stamp in a session, a token or a client's hands is ever ahead of its user's row |
| VersionFence.AlteredExactly | db/queries/users.sql:57-93 | which of the four changes write the row, and the columns they set |
| VersionFence.OnlyAlterOutdates | db/queries/users.sql:45-109 | logins, rehashes and edits of a profile leave version and status of every row alone |
| VersionFence.AuthenticatedExactly | internal/modules/auth/service.go:109-133 | in every run an authentication is let through exactly if the row is active and of the token's version, and its client had, at an instant within the validity of a signed token, found the session stored with the token's user and version |
| VersionFence.RefreshedExactly | internal/modules/auth/service.go:84-107 | in every run a refresh is let through exactly if the row is active and of the session's version, and its client had exchanged a digest for that session; the token it then signs |
| VersionFence.SignedExactly | internal/modules/auth/service.go:52-82 | every token signed in a run begins at, and lasts for the lifetime given by, one login or refresh; a login is one of an account that was read as active and with the version of the token |
| VersionFence.ChangeOutdatesAll | db/queries/users.sql:57-97 | a change that writes the row outdates every session, token, login and refresh of the user that exists or is in flight |
| VersionFence.FenceHolds | internal/modules/auth/service.go:52-131 | in every run, after such a change, in every continuation and without any revocation, no stamp older than the change is accepted, also for a login that read the row before |
| VersionFence.ReplayedSessionServesOnlyInFlight | internal/modules/auth/service.go:84-133 | the replaying refresh is refused; afterwards, in every continuation, an authentication or refresh is accepted for the session exactly if its client had found the session before the replay and has waited since, and the row accepts the stamp |
| VersionFence.InFlightAccepted | internal/modules/auth/service.go:90-131 | a run after which the session is dead and both an authentication and a refresh in flight are accepted |
| AuthService.Service.Allow | internal/modules/auth/redis/store.go:184-196 | run alone: a counter that has not expired goes up and keeps its expiry, any other starts at one with one window; the call is let through exactly within the limit |
| LoginCounters.AllowIsRun | internal/modules/auth/redis/store.go:184-196 | a call that nobody interrupts is the run INCR, and EXPIRE on a new counter, of the interleaved limiter, with the same verdict |
| LoginGate.ChecksBounded | internal/modules/auth/service.go:43-52 | under every interleaving of logins, at most twice the limit of those whose INCR falls into one window get to the credential check of one row |
| LoginGate.CheckedAfterBoth | internal/modules/auth/service.go:43-52 | in every run, a login that gets to its check, of the row of its folded name, has first got a count within the limit from the counter of its address and then from that of its account |
| LoginGate.AddressesApart | internal/modules/auth/service.go:38-43 | two addresses share a counter exactly if they are the same up to surrounding space, or both missing or "unknown" |
| LoginGate.AccountsApart | internal/modules/auth/service.go:38-43 | two names share a counter exactly if they fold to the same name |
| LoginGate.KeysApart | internal/modules/auth/service.go:43 | no address shares a counter with an account |
| AuthService.Service.Admit | internal/modules/auth/service.go:43-51 | run alone: let through exactly if the counts of the address and of the account, this login included, are within the limit; the account's counter is left alone when the address is refused; a login that is let through makes one check |
| AuthService.Service.ChecksBounded | internal/modules/auth/service.go:43-52 | after any sequence of logins and time passing, the same bound on the checks made |
| AuthService.Service.VerifyCredentials | internal/modules/user/service.go:82-110 | lets through exactly a known folded name whose stored digest matches the password, when a stale digest can be renewed; then replaces exactly the stale digest, and nothing else in the row; invalid credentials exactly for an unknown name or a password that does not match |
| AuthService.Service.Grants | internal/modules/auth/service.go:59-82 | for an active account, when signing and recording work: a session with the account's version for one ttl, a token for it for one access lifetime, and the login recorded; otherwise no user gains a session and the reason is given |
| AuthService.Service.Login | internal/modules/auth/service.go:37-82 | refused by the counters exactly beyond a limit, before any password is looked at; succeeds exactly if the password matches the digest stored for the folded name of an active account and nothing fails, with a token of that row for one access lifetime and a session for one ttl; invalid credentials and disabled accounts exactly as such; a failed login leaves no new session |
| AuthService.LoginLasts | internal/modules/auth/service.go:52-133 | the token of a login is let through afterwards, if nothing else happens, exactly while less than the access lifetime and the session's ttl have passed |
| AuthService.RefreshLasts | internal/modules/auth/service.go:84-133 | the same for the token of a refresh |
| AuthService.CountedIsLookedUp | internal/modules/auth/service.go:38-52 | the name that is counted names the row that is looked up |
| AuthService.Service.Refresh | internal/modules/auth/service.go:84-107 | reused exactly for a spent record; succeeds exactly if the given record is the active, current one of a stored session whose row is active and of the session's version, and signing works; otherwise the session is ended where it had been rotated or reused; the claims, the lifetime and the new record of a success |
| AuthService.Service.Authenticate | internal/modules/auth/service.go:109-133 | lets a token through exactly within its validity, with a stored session of its user and version and an active row of that version |
| AuthService.Service.Logout | internal/modules/auth/service.go:135-140 | exactly that session and its current record go |
| AuthService.Service.ListSessions | internal/modules/auth/service.go:142-163 | the live sessions of the user, each once, with their dates, newest first and then by id |
| AuthService.Service.RevokeSession | internal/modules/auth/service.go:165-180 | ends a session exactly if it is a live one of the user, and no other |
| AuthService.Service.RevokeOtherSessions | internal/modules/auth/service.go:182-196 | exactly the user's sessions but the current one go |
| SessionListing.SortedIsUnique | internal/modules/auth/service.go:156-161 | the comparison orders any set of sessions in exactly one way |
| SessionListing.ListingIsUnique | internal/modules/auth/service.go:142-163 | the list depends only on the set of live sessions, not on the order Redis gave |
| SessionListing.ArrangeSorts | internal/modules/auth/service.go:156-161 | every list of sessions can be put in that order without losing or repeating one |
| SessionListing.OneCurrent | internal/modules/auth/service.go:149-154 | at most one entry is marked current: the caller's own session |
| SessionListing.NewestFirst | internal/modules/auth/service.go:156-161 | newer entries come first, and those of one instant in the lexicographic order of the texts of their ids |
| SessionListing.TextLessExactly | internal/modules/auth/service.go:157-159 | the order of the texts is lexicographic by the codes of the characters |
| SessionListing.ListingShows | internal/modules/auth/service.go:147-155 | each entry carries the dates of its session, and each session has its entry |
| LastSuperuser.StepKeeps | internal/modules/user/service.go:192-218 | every step of every transaction keeps the protocol and never takes the last active superuser away |
| LastSuperuser.SuperuserRemains | internal/modules/user/postgres/repository.go:35-52 | from any table, in every interleaving, with commits failing or rolled back at will, there remains an active superuser once there is one |
| LastSuperuser.RefusedExactly | internal/modules/user/service.go:202-210 | the guard ends a transaction exactly if committing its change then would leave no active superuser where there is one |
| LastSuperuser.CommitWrites | internal/modules/user/service.go:192-218 | a commit leaves its row with the requested value and the columns of the UPDATE, or as it was if it had the value, whatever happened between the statements; no other row changes |
| UserService.Service.ProtectLastSuperuser | internal/modules/user/service.go:192-218 | run alone: refused exactly if the row is the only active superuser and the change would take that away; otherwise, if it commits, the requested column, the dates and the version of that row change, or nothing if it has the value |
| UserService.Service.ResetPassword | internal/modules/user/service.go:162-171 | a valid password replaces the stored digest and its date and moves the version on, and nothing else; otherwise nothing changes |
| UserService.Service.ChangePassword | internal/modules/user/service.go:173-186 | the same, only if the old password matches the stored digest |
| UserService.Service.SetMultipleSessions | internal/modules/user/service.go:158-160 | the flag and the version of that row, and nothing else |
| ConfigCache.ReturnedWasCommitted | internal/modules/systemconfig/service.go:54-64 | under every interleaving a hit and the end of a fill return a list, which is the whole committed list of one instant, on a hit less than ttl plus the filler's gap ago |
| ConfigCache.HitIsCurrent | internal/modules/systemconfig/redis/cache.go:28-59 | in runs without overlap and failed deletes, a hit while no writer is under way equals the database |
| ConfigCache.OldExactly | internal/modules/systemconfig/service.go:54-106 | in every run, when no writer is under way, the cached entry is old exactly if it was put after the end of a write that its fill overlaps, or a delete failed and nothing has replaced it since |
| ConfigCache.OldArises | internal/modules/systemconfig/service.go:54-106 | the two steps, and no others, that make the cached entry old: a put of a list read before another commit, and a commit while something is cached |
| ConfigCache.DeleteClears | internal/modules/systemconfig/service.go:99-106 | a write whose delete succeeds leaves nothing old in the cache |
| ConfigCache.HitReturns | internal/modules/systemconfig/service.go:54-58 | a hit on an entry that is not old is the current list; otherwise it is the list of an earlier commit, which may be equal |
| ConfigCache.OverlapServesOldList | internal/modules/systemconfig/service.go:54-64 | a run with overlap after which a hit is old |
| ConfigCache.Service.ListPublic | internal/modules/systemconfig/service.go:54-64 | run alone: the current list, except on a hit less than ttl after a put when a failed delete has left an old one; an older entry is never served; a miss fills the cache |
| ConfigCache.Service.Write | internal/modules/systemconfig/service.go:66-106 | run alone: commit, then delete, then publish, in this order; a failed delete is reported after the commit stands and leaves the cached entry as it was |
| LoginLimiter.CounterBound | internal/modules/auth/redis/store.go:184-196 | one counter lets at most `limit` calls through |
| LoginLimiter.WindowBound | internal/modules/auth/redis/store.go:184-196 | any interval of one window holds at most twice the limit of calls let through |
| LoginLimiter.LimiterBounds | internal/modules/auth/redis/store.go:184-196 | both bounds after every run of any number of clients |
| LoginLimiter.EndsAtExpiry | internal/modules/auth/redis/store.go:184-196 | calls do not put the end of a counter off: in every continuation exactly the calls before its expiry are counted by it |
| LoginLimiter.StuckForever | internal/modules/auth/redis/store.go:190-194 | a counter without expiry at its limit, whose expiry nobody is about to set, lets nothing through in any continuation |
| LoginLimiter.LockedExactly | internal/modules/auth/redis/store.go:184-196 | that is exactly when no continuation lets a call through |
| LoginLimiter.StuckByAbort | internal/modules/auth/redis/store.go:186-194 | for every limit, a run that ends there: one client stops before its EXPIRE |
| Redaction.RedactionState.RedactValue | internal/platform/logging/logging.go:140-185 | on every graph, cyclic or not: a copy with sensitive names marked, cut at depth 32, at a map that it is inside of and, once 1024 nodes are used up, elsewhere; the visited set is restored; equals the plain redaction where no cycle is reached, within both budgets |
| Redaction.RedactionState.RedactTable | internal/platform/logging/logging.go:161-185 | the same for a map: marked as a cycle exactly if it is being visited, and no longer visited afterwards |
| Redaction.RedactionState.RedactStruct | internal/platform/logging/logging.go:187-202 | the same for structs: exactly the names of the exported fields appear |
| Redaction.ExportedNames | internal/platform/logging/logging.go:190-194 | those names, field by field |
| Redaction.RedactionState.RedactSequence | internal/platform/logging/logging.go:204-210 | the same for slices and arrays |
| Redaction.RedactionState.RedactAttr | internal/platform/logging/logging.go:114-138 | the same for attributes and groups |
| Redaction.Handle | internal/platform/logging/logging.go:82-99 | every spelling of a listed name is hidden at every level, whatever the graph; each attribute is a copy cut only by the budgets and at cycles; an acyclic attribute within the budget left over comes out plain; at most 1024 nodes |
| KeyNames.NormalizeKey | internal/platform/logging/logging.go:217-232 | the loop computes the normal form of a name |
| KeyNames.SpelledExactly | internal/platform/logging/logging.go:212-232 | a word written with capitals, or with a hyphen, a dot or a space for an underscore, is hidden exactly if the word is on the list |
| KeyNames.ListedWord | internal/platform/logging/logging.go:22-44 | every name of the list is such a word, and is hidden as it stands |
| KeyNames.Listed | internal/platform/logging/logging.go:22-44 | the names of the list |
| KeyNames.SeparatorsAndCaseDoNotMatter | internal/platform/logging/logging.go:212-232 | names that differ only in case and in the separators used are hidden alike |
| KeyNames.GapsDoNotMatter | internal/platform/logging/logging.go:217-232 | how many separators stand between two parts of a name makes no difference |
| KeyNames.EndsDoNotMatter | internal/platform/logging/logging.go:217-232 | separators before and after a name make no difference |
| Text.Base64RoundTrip | internal/modules/user/password.go:97-131 | unpadded base64 is undone by the decoder, uses its alphabet only, and takes at most a third more characters |
| Text.Base64At | internal/modules/user/password.go:97-100 | each character is that of the standard alphabet for its six bits |
| Text.DecimalAt | internal/modules/user/password.go:97-100 | each place of a printed number shows its digit, without leading zeros |
| Text.FoldedExactly | internal/modules/user/service.go:78-80 | a name is kept without surrounding space and with A to Z as a to z |
| Phc.RoundTrip | internal/modules/user/password.go:97-141 | what is printed for allowed parameters and matching lengths is read back unchanged, within 1024 characters |
| Phc.RoundTripExactly | internal/modules/user/password.go:97-160 | exactly the digests within the numeric bounds and of matching lengths survive printing and parsing |
| Phc.EncodedText | internal/modules/user/password.go:97-100 | the parts of a printed digest and of its costs, in order |
| Phc.DecodedText | internal/modules/user/password.go:102-141 | whatever is read is a text of that form, with the digits and encodings of what is read |
| Phc.MalformedExactly | internal/modules/user/password.go:83-108 | what cannot be read, and anything beyond 1024 characters, verifies nothing and is to be rehashed |
| Phc.VerifyExactly | internal/modules/user/password.go:83-90 | a password verifies exactly if it derives the stored key with the stored salt and costs |
| Phc.RehashExactly | internal/modules/user/password.go:92-95 | a stored digest needs a rehash exactly if its parameters differ |
| Phc.Validate | internal/modules/user/password.go:52-69 | a password is accepted exactly with 8 to 128 code points, a letter, a digit, and not on the list |
| Phc.ByteLengthBound | internal/modules/user/password.go:53-59 | the bound on bytes follows from the bound on code points |
| Phc.Hash | internal/modules/user/password.go:71-95 | a fresh digest needs no rehash, verifies its own password, and verifies another exactly if it derives the same key |
| ObjectKeys.UuidRoundTrip | internal/modules/file/model.go:34-41 | canonical identifier text is read back unchanged |
| ObjectKeys.UuidLayout | internal/modules/file/model.go:18-20 | the canonical text: two small hexadecimal digits for each byte, hyphens in their four places |
| ObjectKeys.PrintedIsClean | internal/modules/file/model.go:18-25 | the check against path cleaning refuses no printed key |
| ObjectKeys.PrintedText | internal/modules/file/model.go:18-20 | owner, slash, object, dot, extension |
| ObjectKeys.ParsePrint | internal/modules/file/model.go:18-43 | parsing undoes printing for every key with an allowed extension |
| ObjectKeys.PrintParse | internal/modules/file/model.go:18-43 | printing undoes parsing for every accepted string |
| ObjectKeys.AcceptsExactlyPrinted | internal/modules/file/model.go:22-43 | the accepted strings are exactly the printed keys with an allowed extension |
| ObjectKeys.ValidExactly | internal/modules/file/model.go:62-68 | a key is valid exactly if its extension is one of the six |
| LocalStore.Replay.Read | internal/modules/file/service.go:73 | the header and then the reader, once each and in order |
| LocalStore.LocalStore.Copy | internal/modules/file/localstore.go:93-96 | the copy loop writes a prefix of the reader's bytes up to the limit, all of them if it succeeds below the limit |
| LocalStore.TemporaryIsNoObject | internal/modules/file/localstore.go:79-80 | the temporary name is the path of no object |
| LocalStore.LocalStore.Put | internal/modules/file/localstore.go:67-111 | all or nothing: success stores exactly the reader's bytes within the limit, changes no other file, and making the directory and the file, syncing, closing and renaming have all worked; failure changes no file if removal works; without faults it succeeds exactly when the store is ready and the reader ends with io.EOF within the limit |
| LocalStore.LocalStore.Open | internal/modules/file/localstore.go:113-138 | the stored bytes, or why there are none |
| LocalStore.LocalStore.Delete | internal/modules/file/localstore.go:140-155 | exactly that file goes |
| FileService.ReadHeader | internal/modules/file/service.go:54-62 | the first 512 bytes, whatever the chunks; nothing of the reader is lost; it fails exactly if a shorter reader ends with an error other than io.ErrUnexpectedEOF; which ending is left to be heard |
| FileService.HeardWithHeader | internal/modules/file/service.go:54-73 | the ending is heard with the header, and not by the store, exactly for a content shorter than the header, or just as long with its ending on the last bytes |
| FileService.AcceptedIsServed | internal/modules/file/service.go:107-143 | an accepted media type is the one its extension is served with |
| FileService.MediaTypeExactly | internal/modules/file/service.go:63 | space, case and parameters of the sniffed type make no difference |
| FileService.Service.Upload | internal/modules/file/service.go:50-78 | success stores exactly the bytes delivered under a key of the owner with the extension of the sniffed type, an image within the image limit or, when video is enabled, a video within the video limit; they are the whole content exactly if no other ending was lost with the header; exactly the other types are not allowed; failure changes no file; when nothing goes wrong an accepted content of whose end the store hears io.EOF is stored exactly within its limit and too large otherwise |
| FileService.UploadTruncated | internal/modules/file/service.go:54-73 | a truncated content that is stored as if it were whole |
| FileService.Service.Open | internal/modules/file/service.go:80-94 | the bytes, size and type stored under a key, exactly if the path is a key, the store is started and a file is there |
| FileService.Service.Delete | internal/modules/file/service.go:96-105 | exactly the owner or a superuser removes an object, and nobody with the nil identifier |
| FileService.UploadThenOpen | internal/modules/file/service.go:50-94 | after an upload its key opens to the same bytes, size and type, and every other path to what it was |
| Pagination.Normalize | internal/shared/pagination/pagination.go:14-25 | page at least 1; a missing size is 20, one above 100 is 100; such values stay as they are |
| Pagination.OffsetExact | internal/shared/pagination/pagination.go:27-30 | the offset is the number of rows before the page exactly while that fits in 32 bits |
| Pagination.OffsetCongruent | internal/shared/pagination/pagination.go:27-30 | beyond that it is off by a multiple of 2^32 |
| Pagination.OffsetWraps | internal/shared/pagination/pagination.go:27-30 | a normalized page with a negative offset |
| Pagination.PagesPartition | internal/modules/user/service.go:116-127 | reading all pages gives the whole list, nothing lost or repeated, exactly if the last offset fits in 32 bits |

## Left out

- HTTP routing, middleware, cookies, OpenAPI, the command line, configuration loading, migrations, start-up and
  shutdown: plumbing over libraries.
- Cryptography and the encoding of access tokens; `Tokens.Sign` and `Tokens.Verify` appear as a signed record
  with its validity.
- Index members that are not UUIDs: the store never writes one, so the branch that skips or removes them is
  not modelled.
- Redis errors inside the methods of `SessionStore`: a client that stops after any round trip is a step of
  `SessionProtocol`.
- A nil reader handed to `Put` or `Upload`, and readers that deliver bytes after an error: the last chunk of a
  reader may come with its ending.
- Fields of a user that have no part in these properties: names, display name, e-mail, avatar, and the
  validation of profiles.
- Rehashing by two logins at once: the update of the digest is unconditional.
- Overflow of 64-bit versions, counters and sizes.
- `slog.LogValuer` resolution and Unicode beyond ASCII in names: an attribute is modelled as already resolved.
- Configuration entries other than the public list as a whole: keys, value types and the list of sensitive
  configuration keys.
- AuthService.Service.Allow: INCR and EXPIRE succeed; an error between them is a step of `LoginGate`.
- AuthService.Service.Admit: an error of the limiter is left out; it is a step of `LoginGate`.
- AuthService.Service.VerifyCredentials: a lookup or a digest update that fails with a database error is left
  out, and so is the dummy comparison for unknown names, which has no effect but time.
- AuthService.Service.Grants: a `Create` that fails with a Redis error is left out.
- AuthService.Service.Login: errors of Redis and of the database are left out, except a failing signature and a
  failing record of the login.
- AuthService.Service.Refresh: a `Rotate` that fails with a Redis error is left out.
- AuthService.Service.Authenticate: a GET that fails with a Redis error is left out.
- ConfigCache.HitIsCurrent: a sufficient condition only; the exact one is `ConfigCache.OldExactly`.
- KeyNames.NormalizeKey: ASCII only; other letters, their case and other spaces are left out.
- KeyNames.SpelledExactly: ASCII only.
- KeyNames.SeparatorsAndCaseDoNotMatter: ASCII only, and names of equal length; `KeyNames.GapsDoNotMatter` and
  `KeyNames.EndsDoNotMatter` are about those of other lengths.
- LastSuperuser.SuperuserRemains: the isolation level is the one of the assumptions above; row locks of
  concurrent updates to the same row are not modelled beyond it.
- LocalStore.LocalStore.Open: failures to open or to stat other than a missing file are left out.
- Redaction.Handle: slog drops groups that are empty; the model passes them on as empty groups.
- Text.FoldedExactly: ASCII only; other letters, their case and other spaces are left out.
- Phc.Validate: takes the code points of a valid string; input that is not UTF-8 is left out.
