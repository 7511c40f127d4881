# Verification of the user portal

The portal administers the accounts of an SSO estate. It edits Authelia's
`users_database.yml` in place while Authelia itself may be rewriting that file, pre-creates
and deactivates the same people in Planka's database, and takes batches of invitations from a
form. This project models that logic in Dafny and proves what it promises.
`dafny verify dfyconfig.toml` checks all of it.

## How it is put together

The users file, bottom up:

- `Text`, `Username`: the string functions the portal uses, over code points, and the
  derivation of usernames.
- `YamlTree`, `UserFile`: parsed YAML as values, and one mutation attempt as a function
  `Apply` of the bytes that were read. The YAML library is a parameter (`Codec`): a scanner, an
  encoder, the trees these two handle, and the canonical encoding that verification compares.
- `NodeTree`, `EditFile`: the same attempt on mutable nodes, as the code does it. A ghost map
  says which tree each node denotes; `EditFile.Plan` equals `Apply`.
- `Soundness` is about every codec, `Exactness` about a faithful one (parsing undoes
  encoding on the trees that are parsed and that the edits make of them, and nothing is written of
  what hangs below a scalar). `Accounts` says what a commit does to the accounts listed.
- `Protocol` is a state machine of any number of portal writers, one system call a step, with
  Authelia's unlocked in-place writes, failing calls, dying processes, a kernel that flushes
  when it likes, and power losses. `ProtocolInv` has its invariants, `Updates` and `Guarantees`
  what follows for all runs. `WholeRun` puts the two halves together for calm runs, in which
  Authelia writes neither during a matching second read nor from there to the rename, `AnyRun`
  for all.
- `Store` is `mutate` as a class, run against a script of what everybody else does between its
  system calls; every such call is shown to be a run of `Protocol`.

The apps and the handlers:

- `Planka`: role rules, the provisioner as a class over a table, the schema check. `Races`
  interleaves its calls.
- `Lifecycle`: the store and every app's table under sequences of handler calls, each of whose
  store accesses and queries may fail, or take effect and lose its reply. An email is *dirty* in
  an app from a failed call until a successful one. `Invite` and `Batch` are the invitation
  form, `Server` the handlers with their loops, proved against both. `Effects` says what each
  request achieves in the accounts and the rows themselves. All of these see the store as a
  list of accounts; `EndToEnd` carries the agreement over to the bytes of the users file.
- `Csrf`: the form tokens, for a MAC that is injective on its message and a base64url whose
  decoder undoes its encoder (section 5 of RFC 4648).

## Where the code and its documentation differ

The model follows the code.

- README.md:168-170 says that the backup covers recovery from a password reset that lands in
  the instant of a portal write. The backup holds what was read, not what was overwritten:
  `Updates.UpdateLostInTheWindow` has, for any edit and any reset other than the old content and
  the edited one, a run that ends with the reset in neither file, and
  `Updates.BackupIsRightExactlyIf` says when the backup is right.
- internal/server/server.go:443-454 calls a failure to push an access edit non-fatal and warns
  of it. If reading the store back fails, nothing is pushed and nothing is said:
  `Lifecycle.SkippedExactlyIf` says when that matters, `Lifecycle.RevokedAccessStays` is such a
  case, and by `Lifecycle.DisagreementIsWarnedOf` there is no other one.
- internal/provision/planka/planka.go:30-34 says that the columns the insert writes are
  asserted against the schema. Only the required columns that it does not write are, and the
  unique index that its ON CONFLICT clause needs is not looked at either
  (`Planka.FittingSchema`, `Planka.PassesWithoutTheColumns`).
- internal/provision/provision.go:17-18 says that a user outside an app's scope is untouched
  when deprovisioned. The row of that email is deactivated whatever the groups are
  (`Planka.OutOfScopeIsTouched`, `Planka.UntouchedExactlyIf`); as long as the app agrees with
  the store it already was (`Lifecycle.OutOfScopeUntouched`).
- internal/server/server.go:387-388 limits display names to 100 characters and counts bytes
  (`Invite.ShortNameIsRefused`, `Invite.LimitIsRightExactlyIf`).

## Model

| member | source | states |
|---|---|---|
| Text.EqualFoldMeaning | internal/userstore/userstore.go:125-129 | two texts are equal ignoring case exactly if they have the same length and the same letter everywhere, capitals and small letters being 32 apart |
| Text.LowerMeaning | internal/userstore/userstore.go:132-134 | lowering leaves no capital and changes nothing but the case of letters |
| Text.TrimSpaceMeaning | internal/server/server.go:357-363 | trimming cuts off the blanks of ASCII and Unicode at both ends, all of them and nothing else |
| Text.JoinUndoesSplit | internal/server/server.go:355 | joining the lines that a text is split into gives the text back |
| YamlTree.RemovePairRefines | internal/userstore/userstore.go:187-193 | splicing the pair of a key out of even content leaves it even and is removal of that key's first pair from the association list |
| YamlTree.SetFieldRefines | internal/userstore/userstore.go:423-431 | replace-or-append on even content keeps it even and is update of the association list; the position of an existing key does not change |
| YamlTree.AppendPairRefines | internal/userstore/userstore.go:130-138 | appending a key and a value is appending one pair at the end of the association list |
| YamlTree.DecodeSetField | internal/userstore/userstore.go:423-431 | the decoded entry after a field edit is the decoded entry before with exactly that key updated, whether it was replaced or appended |
| YamlTree.EntryDecodesExactlyIf | internal/userstore/userstore.go:462-478 | an entry decodes exactly if it is null, or a mapping in which no mapping, however deep, repeats a key or has one that is no scalar |
| YamlTree.DecodesAlikeExactlyIf | internal/userstore/userstore.go:462-478 | decoding keeps exactly the data: two nodes decode to the same value exactly if they agree in the tags and texts of scalars, the items of sequences in order, and the fields of mappings in any order |
| UserFile.UsersIdempotent | internal/userstore/userstore.go:388-412 | normalising a null under `users` a second time finds the same mapping and changes nothing, so the snapshot and the edit work on the same mapping |
| NodeTree.Build | internal/userstore/userstore.go:433-443 | fresh nodes that denote a given tree, disjoint from all others (`scalarNode`, `seqNode` and what the parser hands out) |
| NodeTree.ReadBack | internal/userstore/userstore.go:277-286 | what the encoder sees below a node is the tree that the node denotes |
| NodeTree.FindUser | internal/userstore/userstore.go:414-421 | the value node of the first pair with this username, or null if there is none |
| NodeTree.SetMapField | internal/userstore/userstore.go:423-431 | the in-place edit makes the node denote its old tree with that field set; every other node still denotes what it did |
| EditFile.UsersMap | internal/userstore/userstore.go:388-412 | finds the mapping under the first `users` key, turns a null into an empty mapping in place, and fails exactly on files that are no users file |
| EditFile.TakeSnapshot | internal/userstore/userstore.go:464-478 | the loop over the entries yields the snapshot in which a later entry with the same username hides an earlier one; fails exactly if an entry does not decode |
| EditFile.FindClash | internal/userstore/userstore.go:117-129 | the scan reports a clash exactly if some listed account equals the new one in username or email, ignoring case (`Accounts.ClashIsTaken` says what that is) |
| EditFile.AddEdit | internal/userstore/userstore.go:116-139 | refused exactly on a clash; otherwise the document now denotes itself with one new entry at the end of its users |
| EditFile.SetGroupsEdit | internal/userstore/userstore.go:163-169 | through the entry's own reference: the document now denotes itself with only `groups` of the first entry of this username set |
| EditFile.DeleteEdit | internal/userstore/userstore.go:187-194 | the document now denotes itself without the first entry of this username; not found exactly if there is none |
| EditFile.UntouchedEqual | internal/userstore/userstore.go:482-515 | true exactly if both snapshots have the same users besides the exempt one and each of them encodes to the same bytes |
| EditFile.SameStrings | internal/userstore/userstore.go:517-528 | true exactly if the decoded list is the requested list of strings |
| EditFile.VerifyEdit | internal/userstore/userstore.go:140-206 | the loops and comparisons of the three verify closures decide the predicate that the soundness results start from |
| EditFile.Plan | internal/userstore/userstore.go:256-300 | one attempt in memory, step by step on nodes, computes exactly the function `UserFile.Apply` of the bytes read: the bytes to write or the reason why not |
| EditFile.ListUsers | internal/userstore/userstore.go:79-93 | the loop over the pairs yields all accounts in file order, or nothing for what is no users file |
| Soundness.SnapshotKeys | internal/userstore/userstore.go:464-478 | the usernames of a snapshot are exactly the keys of the entries |
| Soundness.VerifiedKeys | internal/userstore/userstore.go:140-206 | passing verification fixes the set of usernames; for `SetGroups` by counting and by the user having been found |
| Soundness.ReplacementIsSound | internal/userstore/userstore.go:286-300 | for every codec, however faulty: what an attempt wants to write re-parses to exactly the usernames asked for, to the added email or requested groups, and to other entries each of which encodes to the bytes it encoded to before |
| Soundness.VerifiedExactlyIf | internal/userstore/userstore.go:140-206 | the self-check accepts two snapshots exactly if the usernames changed as asked, the added email or the groups are there, and every other entry encodes to the same bytes |
| Soundness.BystanderChangeRefused | internal/userstore/userstore.go:482-515 | an output in which some other user appeared, vanished or encodes differently is refused, whatever the codec |
| Soundness.OtherThanOneDocumentRefused | internal/userstore/userstore.go:360-377 | anything but exactly one document up to the end of the input is refused |
| Exactness.SnapshotReplaced | internal/userstore/userstore.go:464-478 | replacing one entry changes the snapshot at its username only, and not at all if a later entry has the same username |
| Exactness.SnapshotRemoved | internal/userstore/userstore.go:464-478 | splicing one entry out removes its username from the snapshot, unless a later entry has it too |
| Exactness.FaithfulApply | internal/userstore/userstore.go:256-300 | under a faithful codec an attempt commits exactly the edited tree if that tree's own snapshot verifies, and is refused otherwise |
| Exactness.NewEntryDecodes | internal/userstore/userstore.go:130-138 | the entry that Add writes decodes to the display name, the email without capitals, the given hash and the groups, each under its own key |
| Exactness.AddIsExact | internal/userstore/userstore.go:112-159 | under a faithful codec Add commits exactly if there is no clash, and the committed document is the one read with one entry appended |
| Exactness.DeleteIsExact | internal/userstore/userstore.go:186-207 | under a faithful codec Delete commits exactly if the username occurs once, and only that entry is gone; a repeated username is always refused |
| Exactness.SetGroupsIsExact | internal/userstore/userstore.go:162-183 | under a faithful codec SetGroups commits exactly if the username occurs once or its last entry already lists these groups (first-match edit against last-wins snapshot); only `groups` of the first entry changes; a null entry never takes the edit |
| Accounts.CommittedList | internal/userstore/userstore.go:112-207 | the committed file lists exactly the accounts it listed before, edited: Add at the end with the email lowercased, SetGroups in place, Delete dropping one; only for a repeated username whose first entry is null does SetGroups leave them as they were |
| Accounts.ClashIsCollision | internal/userstore/userstore.go:117-134 | comparing the email as typed is the same as comparing it as it is stored |
| Accounts.ClashIsTaken | internal/userstore/userstore.go:117-129 | the clash that Add looks for, in terms of letters: a listed username or email that differs at most in case |
| Accounts.DuplicateExactlyIf | internal/userstore/userstore.go:117-129 | for every codec and every readable file, Add is refused as a duplicate exactly for case variants of listed usernames and emails |
| Accounts.StoredMeaning | internal/userstore/userstore.go:130-138 | the account is stored with a case variant of the email that has no capitals, and everything else as given |
| Accounts.UsersFileExactlyIf | internal/userstore/userstore.go:388-412 | what a users file is: a mapping whose first `users` key has a mapping, a null or an empty scalar |
| Accounts.EmptyFileTakesFirst | internal/userstore/userstore.go:396-404 | a file with nothing under `users` lists nobody and takes any account as its first |
| Accounts.EntryShown | internal/userstore/userstore.go:445-460 | what is shown of an entry: the texts of its name and email, its groups in order, and disabled for the scalars that decode to true; nothing at all if it repeats a key |
| Accounts.EditDescends | internal/userstore/userstore.go:112-207 | every account after an edit is one from before with the same username and email, each at most once, or is new and collides with none |
| Accounts.NoNewCollision | internal/userstore/userstore.go:117-134 | a colliding pair after any edits goes back to two different colliding accounts before them |
| Accounts.CollisionFreeKept | internal/userstore/userstore.go:117-134 | a list without collisions stays without |
| ProtocolInv.StepKeepsInv | internal/userstore/userstore.go:223-343 | every step of every process keeps mutual exclusion, what each writer holds, the retry accounting, the rename accounting, temp-file ownership and synced-before-renamed |
| ProtocolInv.RunKeepsInv | internal/userstore/userstore.go:223-343 | so all of that holds in every reachable state, with crashes and power losses |
| Updates.RenameInstallsEdit | internal/userstore/userstore.go:302-335 | in a calm run each rename installs exactly the edit of what the file holds at that moment, even if the first read was torn or the content went back and forth |
| Updates.NoLostUpdate | internal/userstore/userstore.go:223-343 | for any number of writers and any interleaving in which no foreign write is under way from a matching second read to the rename: whenever no foreign write is under way the file is the fold of all commits in commit order |
| Updates.NoLostUpdateUndisturbed | internal/userstore/userstore.go:223-343 | the same under a condition on Authelia alone: it changes nothing during a second read that matches, and does not write from there to the rename |
| Updates.BackupIsWhatWasReplaced | internal/userstore/userstore.go:302-335 | in a calm run the backup equals the bytes that the rename replaced |
| Updates.BackupIsRightExactlyIf | internal/userstore/userstore.go:302-335 | in any run the backup holds what the rename replaces exactly if the file still holds what the second read compared, and then the rename installs the edit of it |
| Updates.UpdateLostInTheWindow | internal/userstore/userstore.go:216-222 | for any codec, any operation that edits the content, and any password reset there is a run in which the reset completes inside the window, the call reports success, and the reset is neither in the file nor in the backup unless it equals the old content or the edit |
| Guarantees.PowerLossLeavesAWholeVersion | internal/userstore/userstore.go:313-341 | after a power loss in any reachable state the users file is a whole version, unless a foreign write to it was not on disk yet |
| Guarantees.OldOrNew | internal/userstore/userstore.go:313-341 | power failing at any step of a mutation, whatever foreign writes and crashes came before, leaves the current content in full or in full what the old file held last, unless a foreign write in the version on disk was not flushed |
| Guarantees.UndisturbedOldOrNew | internal/userstore/userstore.go:313-341 | without foreign writes that is the complete old or the complete new content |
| Guarantees.DirtyVersionMayBeLost | internal/userstore/userstore.go:216-222 | the exception is one: an unflushed foreign write in the version on disk can come back as anything |
| Guarantees.SyncDirMakesDurable | internal/userstore/userstore.go:336-341 | a successful directory sync makes the renamed file, whose data were synced before, the one on disk |
| Guarantees.DurableIsFinal | internal/userstore/userstore.go:336-341 | no run, with any number of crashes, takes the users file back behind what was on disk |
| Guarantees.CommittedContentSurvives | internal/userstore/userstore.go:336-341 | once the directory sync has succeeded the content survives everything but a foreign write, until another version replaces it |
| Guarantees.SweepIsSafe | internal/userstore/userstore.go:345-358 | a sweep takes no running writer's temp file and nothing that is or was the users file |
| Guarantees.RemoveIsSafe | internal/userstore/userstore.go:313-318 | the deferred remove leaves the users file and every other writer's temp file alone |
| Guarantees.TempsHaveOneOwner | internal/userstore/userstore.go:313-335 | a running writer's temp file is there until its rename, and its owner holds the lock |
| Guarantees.NoTempLeftBehind | internal/userstore/userstore.go:226-236 | a call whose removals succeeded gives the lock back with no temp file left |
| Guarantees.AllOrNothing | internal/userstore/userstore.go:238-250 | a finished call read at most four times, renamed exactly once if it reports success and never otherwise, and gives up only after four changes by Authelia since it took the lock |
| Guarantees.ExhaustedMeansFourChanges | internal/userstore/userstore.go:238-250 | giving up means at least four foreign content changes since the lock was taken, while it is still held |
| Guarantees.OutcomeHasItsCause | internal/userstore/userstore.go:223-343 | in every run: an error means that a system call of this very call failed, a refusal that the attempt on some bytes it read is refused for that reason |
| Guarantees.PortalsAloneSucceed | internal/userstore/userstore.go:216-251 | without writes by Authelia, whatever the interleaving of portal writers, deaths and power losses: a call none of whose own system calls failed has renamed once and succeeded, or was refused for bytes it read |
| Guarantees.OnlyAutheliaChanges | internal/userstore/userstore.go:302-308 | the changes counted are foreign writes that changed what the file holds |
| Store.Store.Lock | internal/userstore/userstore.go:226-234 | blocks while the lock is held and something may still happen; then the call holds it, or one of its own system calls has failed |
| Store.Store.SweepStaleTemps | internal/userstore/userstore.go:345-358 | removes those temp files whose removal works, and knows whether that was all |
| Store.Store.ReadFile | internal/userstore/userstore.go:257-260 | commits the writer to what it makes of exactly the bytes read, which are anything if the file changed while they were read |
| Store.Store.Unchanged | internal/userstore/userstore.go:302-308 | compares the second read, which may be torn like the first, with the first: go on, retry, or fail |
| Store.Store.MakeTemp | internal/userstore/userstore.go:313-317 | finds a free name |
| Store.Store.RenameIntoPlace | internal/userstore/userstore.go:333-335 | the one step that changes the file |
| Store.Store.MutateOnce | internal/userstore/userstore.go:256-343 | one attempt against a world that may change between any two system calls; undisturbed it leaves the edit of the content on disk and the old content in the backup, or nothing at all |
| Store.Store.Mutate | internal/userstore/userstore.go:223-251 | the whole call with its retry loop is a run of the protocol, with at most four reads and one rename exactly on success; under any interference it fails only if a system call of its own fails, declines only what bytes it read are refused for, gives up only after four changes by Authelia, returns nothing only if the lock is never given back, and leaves no temp file if its removals work; undisturbed it replaces the file by its edit |
| Store.Store.Add | internal/userstore/userstore.go:112-116 | a malformed username is refused before the file is looked at; otherwise it is the mutation |
| Store.Store.List | internal/userstore/userstore.go:79-93 | reads one version without the lock and lists it |
| Store.Store.Get | internal/userstore/userstore.go:96-107 | the first account with the username; none exactly if none is listed |
| WholeRun.FileIsTheList | internal/userstore/userstore.go:112-207 | for any file that lists accounts: an operation the list does not accept fails as duplicate or not found; every other one commits and leaves the edited list, except that a repeated username or a null entry is refused unless its groups are listed already |
| WholeRun.AccountsOverRuns | internal/userstore/userstore.go:223-343 | over every calm run in which the foreign writer changes passwords only, the file stays readable and lists the initial accounts as the committed operations leave them one by one; from a collision-free file that is exactly the accounts edited in commit order |
| WholeRun.ReadersSeeTheCommits | internal/userstore/userstore.go:78-93 | a lock-free List outside foreign writes returns the accounts after some whole number of commits |
| WholeRun.RenamedContentIsSound | internal/userstore/userstore.go:286-335 | in every reachable state, for every codec, what a rename puts in place has the usernames asked for, the requested change, and every other entry encoding to the bytes it encoded to when it was read |
| WholeRun.NoCollisionInCalmRuns | internal/userstore/userstore.go:112-139 | in calm runs from any starting file List succeeds and no two accounts it returns collide that did not come from a colliding pair |
| AnyRun.CommitInherits | internal/userstore/userstore.go:112-207 | the edit of bytes whose accounts descend from given ones lists accounts that descend from them |
| AnyRun.RunInherits | internal/userstore/userstore.go:223-343 | in every reachable state, with resets in the window, torn reads, deaths and power losses, every version of the file, every output about to be renamed and what the foreign writer is writing list descendants of the initial accounts |
| AnyRun.NoCollisionEver | internal/userstore/userstore.go:112-139 | from any starting file, in every such run whose foreign writes change only passwords, no two accounts that any version of the file lists collide that did not come from a colliding pair |
| Username.ValidUsernameMeaning | internal/userstore/userstore.go:54-57 | which usernames are accepted, character by character |
| Username.DeriveUsername | internal/userstore/userstore.go:59-69 | the filter loop and the trim compute the specification `Derived` |
| Username.DerivedIsValid | internal/userstore/userstore.go:54-69 | a derived username begins and ends with a letter or digit and is acceptable exactly if its length is 1 to 64 |
| Username.DeriveIsIdempotent | internal/userstore/userstore.go:59-69 | deriving again, with or without a domain, changes nothing |
| Username.DerivedFromValid | internal/userstore/userstore.go:54-69 | an acceptable name is what its own address derives to exactly if it ends in a letter or digit |
| Username.DerivedIgnoresCase | internal/userstore/userstore.go:59-69 | case variants of an address derive to the same username |
| Username.ForbiddenMakesNoDifference | internal/userstore/userstore.go:59-69 | a character that is not permitted makes no difference, wherever it stands before the @ |
| Planka.LoadRules | internal/provision/planka/planka.go:96-116 | accepts exactly the mappings whose pairs all have a group and a valid role, and keeps their order |
| Planka.RoleFor | internal/provision/planka/planka.go:134-146 | the set and the scan compute the role of the first rule that matches |
| Planka.RoleOfMeaning | internal/provision/planka/planka.go:134-146 | no role means that no rule matches; otherwise the first rule that matches decides, and the role is a valid one |
| Planka.RoleOfSameGroups | internal/provision/planka/planka.go:134-146 | order and repetition of groups do not matter |
| Planka.Provisioner.Provision | internal/provision/planka/planka.go:302-344 | the queries in order, each of which may fail or lose its reply: the new table and what is reported |
| Planka.ProvisionedExactly | internal/provision/planka/planka.go:302-344 | one new active account with the user's email, name, username and role, and nothing else changed, exactly if a rule matches, the look-up found nobody and the insert arrived; when success or an existing account is reported |
| Planka.InsertIsAligned | internal/provision/planka/planka.go:293-337 | the columns and the values of the insert match one by one, Planka's own defaults included |
| Planka.Provisioner.Sync | internal/provision/planka/planka.go:355-371 | rows of this email get the role and are active, or are deactivated without a role; nothing else changes |
| Planka.Provisioner.Deprovision | internal/provision/planka/planka.go:373-383 | rows of this email are deactivated, whatever the user's groups |
| Planka.UpdatedExactly | internal/provision/planka/planka.go:355-383 | rows of the email get the role and are active, or without a role are deactivated and keep the role they had; nothing else in them and no other row changes |
| Planka.UntouchedExactlyIf | internal/provision/provision.go:17-18 | a user outside the app's scope is untouched by Deprovision exactly if the update does not arrive or all rows of the email are deactivated already |
| Planka.OutOfScopeIsTouched | internal/provision/provision.go:17-18 | for every user whom a rule does not concern, an active row that Deprovision deactivates |
| Planka.CheckColumns | internal/provision/planka/planka.go:184-228 | the loop over the columns passes exactly the schemas that meet the four conditions and names exactly the unmet columns |
| Planka.UnmetNamesMeaning | internal/provision/planka/planka.go:209-222 | the reported names are those of the required columns that nothing supplies |
| Planka.FittingSchema | internal/provision/planka/planka.go:148-228 | in a schema that passes the table generates its ids and no required column is left NULL; the insert is accepted exactly if the columns it names exist and email is unique, neither of which the check looks at |
| Planka.PassesWithoutTheColumns | internal/provision/planka/planka.go:168-228 | a schema that passes although the insert fails on it |
| Planka.PasswordLeftNull | internal/provision/planka/planka.go:158-228 | in a schema that passes the password stays NULL, legally, exactly if its column has no default |
| Planka.AcceptedFits | internal/provision/planka/planka.go:168-228 | the check rejects no schema that accepts the insert and has the two assumed shapes |
| Races.ProvisionIsItsSteps | internal/provision/planka/planka.go:302-344 | Provision is its look and its insert with nobody in between |
| Races.TableOnlyGrows | internal/provision/planka/planka.go:302-383 | under any interleaving no row is removed, no email, name, username or password changes, emails stay unique, and added rows have no password, a valid role and Planka's own preferences |
| Races.OneRowOneWinner | internal/provision/planka/planka.go:311-343 | concurrent calls for a fresh email leave one row, put by one call; it has that call's email, name and username, and everything else as inserted (role included) unless a Sync or Deprovision concerns the email; only that call can be told success |
| Races.ExactlyOneSuccess | internal/provision/planka/planka.go:311-343 | if no insert's reply is lost, exactly one of these calls is told success once any insert is through |
| Lifecycle.WantedAfterAdd | internal/server/server.go:311-324 | an accepted invitation changes the wanted role of its own email only, for which none was wanted before |
| Lifecycle.ReconciledAgrees | internal/provision/planka/planka.go:355-383 | a successful Sync or Deprovision makes an app agree about that email and clears its dirt, whatever the table held |
| Lifecycle.InvitedAgrees | internal/provision/planka/planka.go:302-344 | Provision keeps agreement about all other emails, and about its own unless it reports an error |
| Lifecycle.InviteAgrees | internal/server/server.go:297-338 | one invitation keeps agreement and uniqueness |
| Lifecycle.SetGroupsAgrees | internal/server/server.go:431-465 | one access edit keeps agreement, also when the read-back fails |
| Lifecycle.DeleteAgrees | internal/server/server.go:467-503 | one removal keeps agreement |
| Lifecycle.AgreementHolds | internal/server/server.go:272-503 | after any sequence of handler calls with arbitrary failures, every app agrees with the store about every email that is not dirty |
| Lifecycle.EmptyAppsAgree | internal/server/server.go:272-503 | a store without collisions and apps that know nobody agree: where the runs may start |
| Lifecycle.AgreementMeaning | internal/server/server.go:272-503 | agreement in words: an active row has a user with that email whose role it carries, and an entitled user's row is active with that role |
| Lifecycle.ReinviteChangesNothing | internal/provision/planka/planka.go:316-323 | inviting over an existing row leaves the table alone and reports that it exists |
| Lifecycle.DisagreementIsWarnedOf | internal/server/server.go:443-464 | if a request leaves an app's rows disagreeing with the store about an email that was in order, the response warns of that app, unless the store could not be read back after an access edit |
| Lifecycle.SkippedExactlyIf | internal/server/server.go:443-454 | after a failed read-back an app is out of step exactly if it has a row for the user and the edit changes the role there; nobody is warned |
| Lifecycle.RevokedAccessStays | internal/server/server.go:443-454 | for any user of the app: a run that takes the access away and leaves the row active, without a warning |
| Lifecycle.OutOfScopeUntouched | internal/provision/planka/planka.go:373-383 | under agreement Deprovision leaves the rows of a user outside the app's scope as they are |
| Effects.InvitationInStore | internal/server/server.go:297-324 | an invitation adds one account with the user's data at the end of the store exactly if the write works and no listed account differs at most in case; otherwise nothing changes anywhere |
| Effects.InvitationInApp | internal/server/server.go:322-328 | then each app has one new active account with the granted role exactly if it is in scope, knew nobody and the insert arrived; the response warns of it exactly if it is in scope and this is not known to have happened |
| Effects.UnwarnedIsProvisioned | internal/server/server.go:322-328 | an app in scope that the response does not warn of has a new active account for the user |
| Effects.UnlistedChangesNothing | internal/server/server.go:431-490 | an access edit or a removal of a name that is not listed changes nothing and warns of nothing |
| Effects.AccessEditInStore | internal/server/server.go:431-441 | an access edit changes just the groups of the first account of that name |
| Effects.AccessEditInApp | internal/server/server.go:443-454 | then the rows of that email have the role the new groups grant or are deactivated, and the response warns of the app exactly if its query failed; nothing happens if the store cannot be read back |
| Effects.RemovalInStore | internal/server/server.go:467-490 | a removal takes that account out, and in a store without collisions nobody of that name is left, ignoring case |
| Effects.RemovalInApp | internal/server/server.go:490-503 | then the rows of that email are deactivated if the query arrives, and the response warns of the app exactly if the query failed |
| EndToEnd.HandleSimulates | internal/server/server.go:272-503 | one handler call on the bytes of the users file is one handler call on the list of accounts, a refused edit being a failed write |
| EndToEnd.FileRunIsListRun | internal/server/server.go:272-503 | so is every run of handler calls |
| EndToEnd.FileAgreement | internal/server/server.go:272-503 | after any such run the file lists accounts with which every app agrees about every email that is not dirty |
| Server.Server.ProvisionAll | internal/server/server.go:322-328 | the loop applies Provision to every app and collects a warning for each failure |
| Server.Server.SyncAll | internal/server/server.go:449-453 | the loop applies Sync to every app and collects a warning for each failure |
| Server.Server.DeprovisionAll | internal/server/server.go:492-496 | the loop applies Deprovision to every app and collects a warning for each failure |
| Server.Server.InviteOneEntry | internal/server/server.go:299-337 | one entry: failed, skipped or created, with the state and the warnings that go with it |
| Server.Server.InviteAll | internal/server/server.go:297-338 | the loop over the entries is the greedy fold; the counter is the growth of the store and the number of rows that say created |
| Server.Server.HandleInvite | internal/server/server.go:272-347 | nothing happens without a selected group and an entry; otherwise one result for each parsed entry, with its status and the apps it warns of |
| Server.Server.HandleSetGroups | internal/server/server.go:431-465 | store first, then the apps; the new state of both is the specified one, and which apps are warned of |
| Server.Server.HandleDelete | internal/server/server.go:467-503 | store first, then the apps; the new state of both is the specified one, and which apps are warned of |
| Batch.StoreGrowsByCreated | internal/server/server.go:297-338 | the store after a batch is the store before plus the created accounts in order, and grows by exactly their number |
| Batch.CreatedExactlyIf | internal/server/server.go:297-321 | an entry is created exactly if the store works, it is valid and clashes neither with the initial store nor with an account created earlier in the batch; skipped exactly if it clashes; failed otherwise |
| Effects.CreatedIsProvisioned | internal/server/server.go:297-338 | after the whole batch every created entry has a new active account with the granted role in every app that is in scope, did not know the email before and answered, whatever became of the other entries |
| Batch.ResubmittingCreatesNobody | internal/server/server.go:297-338 | submitting the same batch again creates nobody and changes nothing |
| Batch.BatchAgrees | internal/server/server.go:297-338 | a batch keeps the agreement between store and apps |
| Invite.ParseInviteLines | internal/server/server.go:349-365 | the loop with its seen set yields one entry for each line whose address is new, in order |
| Invite.EntryMeaning | internal/server/server.go:356-363 | the address is what stands before the first comma, trimmed and without capitals, the name what stands after it, trimmed |
| Invite.ParsedIsClean | internal/server/server.go:349-365 | for every text: emails non-empty, without blanks at the ends or capitals, and distinct; every address is the email of exactly one entry, which is that of its first line |
| Invite.ParsingUndoesPrinting | internal/server/server.go:349-365 | parsing printed entries gives them back, names with commas included |
| Invite.CarriageReturnIsIgnored | internal/server/server.go:355-363 | a carriage return at the end of a line makes no difference to its entry |
| Invite.CrlfMeansLf | internal/server/server.go:349-365 | a text with CRLF at the ends of all or some lines yields what it yields with LF |
| Invite.ParsingUndoesPrintingCrlf | internal/server/server.go:349-365 | so parsing undoes printing with CRLF too |
| Invite.LeqMeaning | internal/server/server.go:507-520 | the order in which groups are sorted: prefixes first, then by the first character that differs |
| Invite.SelectedGroups | internal/server/server.go:507-520 | the posted groups that are configured, each as often as posted, sorted |
| Invite.BuildInviteUser | internal/server/server.go:369-395 | the checks in order compute the specification `BuiltUser` |
| Invite.ReadyExactlyIf | internal/server/server.go:367-395 | an entry makes a user exactly if its email is something @ an allowed domain without blanks, its name fits and a username can be derived; the name is the one entered, or the one made from the part before the @ |
| Invite.NoAddressNoUser | internal/server/server.go:369-373 | without an @ there is no user |
| Invite.BuiltIsFit | internal/server/server.go:369-395 | a user that was built passes the store's username check, belongs to an allowed domain, and has the email, name and groups entered |
| Invite.Utf8IsCharactersAndExtra | internal/server/server.go:387-389 | the bytes of a name are its characters plus the extra bytes of those beyond ASCII |
| Invite.LimitIsRightExactlyIf | internal/server/server.go:387-389 | the limit on names agrees with a limit of 100 characters exactly for names that are longer than that or whose extra bytes fit |
| Invite.ShortNameIsRefused | internal/server/server.go:387-389 | a name of 51 characters that is refused as too long |
| Csrf.ParseIntUndoesPrint | internal/server/csrf.go:28-41 | decimal parsing undoes printing on all of int64 |
| Csrf.ParseIntExactlyIf | internal/server/csrf.go:33-41 | what is parsed: digits after an optional sign within int64, to their value with that sign |
| Csrf.ParseNatMeaning | internal/server/csrf.go:33-41 | the value of a numeral, digit by digit in base ten |
| Csrf.PayloadInjective | internal/server/csrf.go:21-25 | the signed text determines expiry and actor, even if the actor contains the separator |
| Csrf.TokenValidExactly | internal/server/csrf.go:27-47 | a token is valid exactly for its own actor and up to four hours after its minting, in whole seconds |
| Csrf.AcceptedTokenIsSigned | internal/server/csrf.go:33-47 | every accepted token carries a signature of the expiry written in it and of this actor, and has not expired |
| Csrf.SignatureBindsBoth | internal/server/csrf.go:33-47 | no signature is accepted for two actors or two expiries |

## Left out

- The YAML scanner and emitter: an abstract codec. Exactness needs it to be faithful on
  the trees that it parses and that the edits make of them, soundness needs nothing of it.
- Anchors, aliases and merge keys: a tree has none, so the exactness results do not speak of
  files that use them, and the soundness results do as far as the scanner resolves them.
- Case folding outside ASCII: `ToLower` and `EqualFold` fold A to Z only, where the two agree.
- The accounts a faithful run lists are those the portal shows; other fields are covered by the
  exactness results on trees.
- Store.Store.Mutate: does not model the caller's own death or a power loss inside the call; such
  a call is a prefix of a run of `Protocol`, whose invariants and guarantees hold at every step.
- AnyRun.NoCollisionEver: assumes that what a foreign write or a power loss leaves behind, or two
  torn reads agree on, lists, if it is readable at all, accounts that come from some version of the
  file.
- Lifecycle.AgreementHolds: does not model two handlers at once; inviting and removing the same
  person concurrently can leave an active row behind, since nothing is locked across both stores.
- Csrf.TokenValidExactly: does not model times whose expiry is no int64.
- Planka's own writes when a user first signs in, and the display of app status.
- The privilege probe, health reporting, configuration loading beyond the role rules, and how a
  display name is derived from an address (a parameter).
- HTTP, templates, the audit log, notifications, welcome mail, password hashes and the
  confirmation checkbox.
- How HMAC-SHA256, base64url, argon2 and PostgreSQL work inside.
