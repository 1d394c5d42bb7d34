# KerBridge client: verified models

KerBridge gives a machine Kerberos tickets from a cloud sign-in. This project models the parts of its
client that carry the most reasoning, together with the parts of issuer, broker and shared library that
decide what a device grant is, and proves what they promise. `dafny verify dfyconfig.toml` checks
everything.

| module | what it is |
|---|---|
| `Bytes`, `Utf8`, `Text`, `Wrappers` | octets and big-endian integers, lossy UTF-8 decoding, splitting, joining and decimals, `Option` and `Result` |
| `Ccache`, `CcacheReader` | the MIT credential cache v4: a serializer as specification, the value-level reader, and the cursor-based `Reader` that refines it |
| `Calendar` | the proleptic Gregorian calendar counted year by year and month by month, and the closed formula the client uses |
| `Der`, `KrbCred` | the hand-written DER writer of KRB-CRED, an independent TLV walker, and a reader of section 5.8.1 of RFC 4120 built on that walker |
| `Tgt` | picking the ticket-granting ticket out of a cache, and listing a cache |
| `ReplaceFile`, `ConfigStore`, `ConfigFiles` | replacing `config.toml` through a temporary file as a transition system, read-merge-write updates by processes with stale snapshots, and the two put together |
| `MenuWrap` | the greedy line breaker of the macOS menu |
| `TrayDelivery`, `Tray` | retry, re-add and backoff of the Windows tray icon, and the ownership of icon handles around it |
| `GrantDirectory`, `GrantValue`, `DeviceGrant` | device grants: the directory rows and the two halves of each request for them, the stored text value, and create, exchange and revoke over key store and directory |
| `GrantRaces`, `GrantOverlaps` | creations and requests interleaved act by act: whose key a cleanup destroys, and what overlapping requests do to an account |
| `Srv` | finding the broker in DNS |
| `LogRotation`, `Notifications` | log rotation with failing file operations, and the notification authorization coordinator |

Code that updates fields or runs loops is modelled by classes and methods (`Reader`, `Directory`,
`Settings`, `DeliveryState`, `App`, `Machine`, `LogDir`, `Coordinator`, the loops of `Wrap`, `DerIter`,
`Decode` and so on), each proved equal to a function of its inputs or old state; the theorems are about
those functions, over every input and every run. Foreign calls carry their outcome as a parameter, so
"every run" includes every pattern of failures.

Where a property one would expect is false of the code, there is a witness and the exact condition:

- a negative integer is not encoded minimally unless it needs all eight octets (`Der.IntegerIsMinimal`;
  the writer only passes non-negative ones), and a negative name type is written as a large positive one
  (`KrbCred.NameTypeIsInt32`);
- the `krbtgt/REALM@REALM` rule compares decoded names; it is exact on the octets of the file for just
  those realms that are valid UTF-8 without U+FFFD (`Tgt.TgtRule`, `Tgt.TgtRuleIsExact`,
  `Tgt.TgtRuleNeedsValidNames`);
- the temporary file is only private to a process ID: `ReplaceFile.NeverPartial` holds for distinct IDs, and
  whenever a call is about to rename, a second call under its ID makes that rename publish whatever part
  of its own text it has put down (`ReplaceFile.SharedPidPublishesPart`);
- updates that overlap can lose one another, as the comment in the source says; nothing is lost exactly
  when no effective commit falls between another effective update's reading and writing
  (`ConfigStore.NothingLostIff`, `ConfigStore.OverlapLosesAnUpdate`), and what is left is in every case
  the fold of the surviving changes (`ConfigStore.FileIsFoldOfSurviving`);
- a refused re-grant keeps the key that was there, unless opening failed to see it: then the creation
  that follows clears the container (`DeviceGrant.RefusalKeepsKey`, `DeviceGrant.BlindOpeningLosesKey`);
- between processes, the cleanup of a refused creation destroys a key other than its own exactly when it
  goes through and finds a key made later (`GrantRaces.CleanupTakesAnotherIff`,
  `GrantRaces.RacingCreatesLoseKey`);
- the issuer reads an account and changes it in two steps, so two registrations of one key that overlap can
  both succeed and list it twice, and overlapping registrations can pass the cap
  (`GrantOverlaps.RacingCreatesListTwice`). No key is ever listed twice exactly when no registration
  writes that read none of its key where one is listed by then (`GrantOverlaps.OneEachIff`), which takes
  another registration of that key in between (`GrantOverlaps.DoublesIff`); the next registration that
  nothing overtakes takes every doubling away (`GrantOverlaps.TwiceMeansOvertaken`); and the same for the
  cap (`GrantOverlaps.WithinCapIff`, `GrantOverlaps.OverfillsIff`);
- deleting the key reports success when the key was not seen, so the log line that says the key is gone
  can be wrong (`DeviceGrant.RevokeKillsKey`, `DeviceGrant.BlindDeletionReportsSuccess`);
- the parent walk stops at two labels, and still a bare top-level name is asked exactly when the last
  label but one of some own domain is empty (`Srv.AsksBareTldIff`, `Srv.EmptyLabelReachesTld`);
- an earlier log left in the staging file is given up by exactly the rotations that move, one left packed
  by those that move and open the packed file (`LogRotation.StagedLeftover`,
  `LogRotation.PackedLeftover`);
- while every modify fails, the icon is put up again exactly when two neighbouring attempts have the same
  target (`TrayDelivery.ReAddsIffTargetRepeats`).

## Model

| member | source | states |
|---|---|---|
| `Utf8.LossyIdentity` | client/kerbridge-client/src/krbcred.rs:223-225 | decoding a name leaves its octets alone exactly when they are valid UTF-8 |
| `Utf8.LossyIsValid` | client/kerbridge-client/src/krbcred.rs:223-225 | whatever the octets, the decoded name is valid UTF-8 |
| `Utf8.ScalarIsRead` | client/kerbridge-client/src/krbcred.rs:223-225 | the encoding of every Unicode scalar value is read as one valid step |
| `Utf8.ReadIsScalar` | client/kerbridge-client/src/krbcred.rs:223-225 | the octets of every valid step are the encoding of a scalar value |
| `Utf8.UnambiguousIff` | client/kerbridge-client/src/krbcred.rs:223-225 | no other octets decode to the same name exactly when the name is valid UTF-8 and holds no U+FFFD |
| `Ccache.DecodeEncode` | client/kerbridge-client/src/krbcred.rs:21-34 | reading the encoding of any v4 cache gives that cache back, every field included, with no octet left over |
| `Ccache.EncodeDecode` | client/kerbridge-client/src/krbcred.rs:172-188 | nothing else is accepted: an accepted file is the encoding of what was read |
| `Ccache.WhyRefused` | client/kerbridge-client/src/krbcred.rs:172-204 | a refused file names another version than 0x0504 in its first two octets, or is cut short |
| `Ccache.CutFile` | client/kerbridge-client/src/krbcred.rs:183-204 | a file cut short is accepted if and only if the cut is at a credential boundary, and yields the credentials before it |
| `CcacheReader.Reader.Take` | client/kerbridge-client/src/krbcred.rs:196-204 | the cursor advances by exactly what was asked for, or fails when fewer octets are left |
| `CcacheReader.Reader.Principal` | client/kerbridge-client/src/krbcred.rs:227-233 | the cursor-based principal reader is the value-level one, names decoded |
| `CcacheReader.Reader.Credential` | client/kerbridge-client/src/krbcred.rs:235-268 | the cursor-based credential reader is the value-level one: fields kept, lists skipped, cursor after the second ticket |
| `CcacheReader.Preamble` | client/kerbridge-client/src/krbcred.rs:179-181 | the cursor stands after the header and the default principal, or the file is too short for them |
| `CcacheReader.CredentialsShow` | client/kerbridge-client/src/krbcred.rs:172-269 | for every cache, what is read out of its file is, credential by credential and field by field, what it holds, names decoded |
| `CcacheReader.Credentials` | client/kerbridge-client/src/krbcred.rs:172-188 | the whole loop returns the decoded file's credentials in file order, or the version or truncation error |
| `Calendar.CivilIsDayNumber` | client/kerbridge-client/src/krbcred.rs:372-383 | for every integer day count the formula gives a valid date whose number of days from the epoch, counted by years and months, is that count |
| `Calendar.CivilInvertsDayNumber` | client/kerbridge-client/src/krbcred.rs:370-383 | every valid date of the calendar is recovered from its day number |
| `Calendar.DayNumberInjective` | client/kerbridge-client/src/krbcred.rs:370-383 | no two valid dates share a day number |
| `KrbCred.TimeReadsBack` | client/kerbridge-client/src/krbcred.rs:363-368 | every 32-bit time is 14 digits and a Z that mean the same second |
| `Der.EncodeInteger` | client/kerbridge-client/src/krbcred.rs:391-398 | the trimming loop produces the integer encoding the theorems are about |
| `Der.IntegerValue` | client/kerbridge-client/src/krbcred.rs:389-398 | the content octets mean the number, in two's complement, for every 64-bit number |
| `Der.IntegerIsMinimal` | client/kerbridge-client/src/krbcred.rs:389-398 | section 8.3.2 of X.690 holds exactly for non-negative numbers and those that need eight octets |
| `Der.MinimalIsShortest` | client/kerbridge-client/src/krbcred.rs:389-398 | a minimal integer is no longer than any other octets of the same value |
| `Der.LengthReadsBack` | client/kerbridge-client/src/krbcred.rs:401-414 | the walker reads every written length back and stops right after it |
| `Der.LengthIsShortest` | client/kerbridge-client/src/krbcred.rs:401-414 | section 10.1 of X.690: no length octets the walker accepts for that length are shorter |
| `Der.LengthIsMinimal` | client/kerbridge-client/src/krbcred.rs:401-414 | every written length is in the short form below 128 and else has no leading zero octet |
| `Der.DerIter` | testbench/wire.py:51-62 | the walking loop yields what the recursive walk yields, and stops or runs off the buffer on the same inputs |
| `Der.ElementsOfJoin` | testbench/wire.py:42-62 | walking any sequence of written elements finds exactly them, in order, to the last octet, every length minimal |
| `KrbCred.NameReadsBack` | client/kerbridge-client/src/krbcred.rs:344-350 | a written principal name reads back with its type and components |
| `KrbCred.NameTypeIsInt32` | client/kerbridge-client/src/krbcred.rs:344-350 | the name type survives as the signed number the standard means exactly when it is not negative |
| `KrbCred.KeyReadsBack` | client/kerbridge-client/src/krbcred.rs:315-322 | the written key reads back with its type and octets |
| `KrbCred.FlagsReadBack` | client/kerbridge-client/src/krbcred.rs:355-359 | the 32 ticket flags read back bit for bit |
| `KrbCred.InfoReadsBack` | client/kerbridge-client/src/krbcred.rs:312-341 | reading the credential info by tag number recovers key, realms, names, flags and times, a zero start or renew-till as absent |
| `KrbCred.EncPartReadsBack` | client/kerbridge-client/src/krbcred.rs:290-290 | the unencrypted part, under application tag 29, holds exactly that one credential info |
| `KrbCred.MessageReadsBack` | client/kerbridge-client/src/krbcred.rs:289-309 | reading the message by section 5.8.1 of RFC 4120, with the tag numbers of that standard and of X.690 and refusing any length or integer that is not minimal, recovers version, type, the ticket octets unchanged, etype 0 without kvno, and the credential info |
| `Tgt.CcacheToTgt` | client/kerbridge-client/src/krbcred.rs:61-76 | the conversion method returns what the conversion function gives, errors included |
| `Tgt.ReadCache` | client/kerbridge-client/src/krbcred.rs:102-114 | the listing method returns what the listing function gives, errors included |
| `Tgt.ConversionAgreesWithListing` | client/kerbridge-client/src/krbcred.rs:61-114 | conversion succeeds if and only if the listing does and marks a row; its start is that credential's start time in the file or, where that is 0, its time of authentication, its end and renewal are the file's, and its message reads as that credential, field by field; otherwise the error is the listing's or that there is no TGT |
| `Tgt.ListingShows` | client/kerbridge-client/src/krbcred.rs:102-138 | the listing has one row for each credential of the file, in order, with its times and the same fallback, its names as components, at sign and realm, and the TGT mark |
| `Tgt.SlashedSpec` | client/kerbridge-client/src/krbcred.rs:126-138 | the components are shown with a slash between any two neighbours, however they are grouped |
| `Tgt.TgtRule` | client/kerbridge-client/src/krbcred.rs:164-168 | for a realm that is valid UTF-8 without U+FFFD the rule is exactly `krbtgt/REALM@REALM` on the octets of the file, whatever octets the components hold |
| `Tgt.TgtRuleIsExact` | client/kerbridge-client/src/krbcred.rs:164-168 | for every other realm the rule also accepts some second component that is not the realm |
| `Tgt.TgtRuleNeedsValidNames` | client/kerbridge-client/src/krbcred.rs:164-168 | a cache with invalid names for which the rule accepts a component that differs from the realm |
| `Tgt.PickedNamesKrbtgt` | client/kerbridge-client/src/krbcred.rs:155-168 | on any octets, an accepted credential has two components and the first is `krbtgt`, so no configuration entry is picked |
| `Tgt.CachedCredentialFits` | client/kerbridge-client/src/krbcred.rs:289-309 | every credential read from a file that fits in memory can be written |
| `MenuWrap.SplitWord` | client/kerbridge-agent-macos/src/menu.rs:119-139 | the inner loop cuts a word into the pieces the theorems are about |
| `MenuWrap.Wrap` | client/kerbridge-agent-macos/src/menu.rs:93-117 | the outer loop lays the pieces greedily and joins lines by line feeds |
| `MenuWrap.ColumnsByCodePoint` | client/kerbridge-agent-macos/src/menu.rs:148-162 | which code points take two columns |
| `MenuWrap.ChunksArePieces` | client/kerbridge-agent-macos/src/menu.rs:119-139 | the pieces concatenate to the word, each fits a line, and every one but the last fills it to within one column |
| `MenuWrap.GreedyStaysAhead` | client/kerbridge-agent-macos/src/menu.rs:93-117 | from any later starting piece, greedy placement needs no more lines than any layout of all pieces |
| `MenuWrap.LayoutIsMinimal` | client/kerbridge-agent-macos/src/menu.rs:93-117 | the text is laid out within 56 columns, and no layout of the same pieces within them has fewer lines |
| `MenuWrap.WrapIsIdempotent` | client/kerbridge-agent-macos/src/menu.rs:93-139 | wrapping wrapped text changes nothing, for every text |
| `MenuWrap.WordsOfWrapped` | client/kerbridge-agent-macos/src/menu.rs:93-139 | the words of the result are exactly the pieces, in order |
| `MenuWrap.LinesFit` | client/kerbridge-agent-macos/src/menu.rs:93-154 | splitting the result at line feeds gives the lines laid out, each of at most 56 columns |
| `MenuWrap.VisibleIsKept` | client/kerbridge-agent-macos/src/menu.rs:93-139 | the characters that are not white space come out complete and in order, and no others do |
| `MenuWrap.SplitPiecesStandAlone` | client/kerbridge-agent-macos/src/menu.rs:93-139 | a piece of a split word other than its last is alone on its line, so no space ever stands inside a word |
| `ReplaceFile.Directory.Replace` | client/kerbridge-client/src/config.rs:258-278 | one call, under any faults, ends with the file replaced by its text and success, or unchanged and failure, with its temporary file gone unless its removal failed |
| `ReplaceFile.StepKeepsInv` | client/kerbridge-client/src/config.rs:258-278 | every step of any call, working or failing, and every crash keeps the invariant on names, file bodies and calls in progress |
| `ReplaceFile.NeverPartial` | client/kerbridge-client/src/config.rs:249-278 | at every point of every interleaving of calls with distinct process IDs, the file is what the successful renames so far say |
| `ReplaceFile.ReplayIsOldOrWhole` | client/kerbridge-client/src/config.rs:249-252 | that is the old content or the complete text given to some call |
| `ReplaceFile.OpenFileNeverChanges` | client/kerbridge-client/src/config.rs:249-252 | the file a reader has open never changes under it, whatever is replaced later |
| `ReplaceFile.FailureLeavesNothing` | client/kerbridge-client/src/config.rs:258-278 | a call that fails, from start to clean-up among any steps of other calls, leaves no temporary file, and the file is what those other steps alone make of it |
| `ReplaceFile.OnlyOwnTemp` | client/kerbridge-client/src/config.rs:258-278 | no step of a call but its successful rename touches any name or text other than its own temporary file |
| `ReplaceFile.SharedPidPublishesPart` | client/kerbridge-client/src/config.rs:249-264 | from any state with a call about to rename, any second call under its process ID makes the rename publish any part of the second call's text, the empty one included |
| `ConfigStore.Settings.Update` | client/kerbridge-client/src/config.rs:380-412 | the method's effect on file and memory is the update function, whichever operations fail and whether or not there is a file to update |
| `ConfigStore.DiskIsFold` | client/kerbridge-client/src/config.rs:380-412 | over any run by any processes with any snapshots and failures, the file is the written changes folded over the first file |
| `ConfigStore.MalformedIsKept` | client/kerbridge-client/src/config.rs:206-213 | a file that does not parse is never replaced |
| `ConfigStore.SuccessMeansInStep` | client/kerbridge-client/src/config.rs:389-411 | after a successful update of a readable file, memory is the disk, and both are the change applied to the old file |
| `ConfigStore.UpdateReports` | client/kerbridge-client/src/config.rs:380-412 | with a file that reads, or none, success is exactly that nothing changed or that the new value formats and is written, and memory is the changed value either way; otherwise the file stays and success is exactly that the change leaves the snapshot alone |
| `ConfigStore.LoadReads` | client/kerbridge-client/src/config.rs:206-213 | a process that loads holds what the file means, or an empty configuration |
| `ConfigStore.SnapshotsDoNotMatter` | client/kerbridge-client/src/config.rs:380-412 | what a run leaves on disk does not depend on any process's snapshot |
| `ConfigStore.UntouchedFieldStays` | client/kerbridge-client/src/config.rs:380-412 | a field no written change touches keeps its value |
| `ConfigStore.PrincipalOrigin` | client/kerbridge-client/src/config.rs:228-246 | over any sequence of grant operations a principal on the grant was recorded under its ID after the last store, or was there from the start |
| `ConfigStore.StoredPrincipalWasRecorded` | client/kerbridge-client/src/config.rs:228-236 | the same over every multi-process run of updates, so a late exchange never marks another grant |
| `ConfigStore.RecordingTakesEffect` | client/kerbridge-client/src/config.rs:228-236 | a recording on the grant of that ID sets its principal and is news unless it was there; on any other it does nothing |
| `ConfigStore.RefusalForgetsItsGrant` | client/kerbridge-client/src/agent/worker.rs:100-115 | a refusal forgets the grant exactly if ID and deadline are those of the refused one |
| `ConfigStore.ForgottenStaysForgotten` | client/kerbridge-client/src/config.rs:241-246 | after a retarget or a give-up no grant is there until one is stored |
| `ConfigStore.RetargetLeavesNothing` | client/kerbridge-client/src/config.rs:238-246 | over every multi-process run, after a written retarget the file holds the new address and no cache, session mark or grant until a later update sets one |
| `ConfigStore.ChoicesStay` | client/kerbridge-client/src/config.rs:238-246 | a retarget leaves every choice of the user, and a seed every other field |
| `ConfigStore.SeedNeverOverrides` | client/kerbridge-client/src/config.rs:585-592 | seeding a profile that has decided leaves the file alone |
| `ConfigStore.SeedDecides` | client/kerbridge-client/src/config.rs:585-592 | after a seed that reports success the profile has decided: as before if it had, and as seeded if not |
| `ConfigStore.FileIsFoldOfSurviving` | client/kerbridge-client/src/config.rs:374-412 | after every race of overlapping updates the file is the changes of the surviving commits folded over the first file |
| `ConfigStore.NothingLostIff` | client/kerbridge-client/src/config.rs:374-412 | all effective commits survive if and only if none falls between the reading and the writing of another effective update |
| `ConfigStore.OverlapLosesFirst` | client/kerbridge-client/src/config.rs:374-377 | of any two effective updates that read the same file the first is lost |
| `ConfigStore.OverlapLosesAnUpdate` | client/kerbridge-client/src/config.rs:374-377 | for any file there are two updates that come to something else when they overlap |
| `ConfigStore.RacesNeverMisplacePrincipals` | client/kerbridge-client/src/config.rs:228-236 | even under such races no principal appears under a grant ID it was not recorded for |
| `ConfigFiles.RunAgrees` | client/kerbridge-client/src/config.rs:380-412 | over every interleaving of reads, file steps, failures and crashes, the file means what the race of atomic commits says, and every call in progress writes what its process merged |
| `ConfigFiles.FileIsFoldOfSurvivingRenames` | client/kerbridge-client/src/config.rs:258-412 | down to the file operations, the file means the changes of the surviving commits folded over the first file, a commit being a rename that succeeded |
| `TrayDelivery.DeliveryState.TryShow` | client/kerbridge-agent-windows/src/tray_delivery.rs:73-123 | one attempt makes the modify, delete and add calls in order and updates all six fields as the attempt function says |
| `TrayDelivery.AttemptReports` | client/kerbridge-agent-windows/src/tray_delivery.rs:73-123 | an attempt reports delivered exactly for an accepted modify, re-added exactly for an accepted add and else unused; which calls it makes on which answers, and which of them the log hears of |
| `TrayDelivery.ReachableStates` | client/kerbridge-agent-windows/src/tray_delivery.rs:49-123 | in every reachable state the threshold is a step of the backoff, and failures stay below it until the icon was re-added |
| `TrayDelivery.UpToDateMeansAccepted` | client/kerbridge-agent-windows/src/tray_delivery.rs:65-71 | after any run no update is needed for a condition exactly when the last event was an accepted modify for it |
| `TrayDelivery.FailingStreak` | client/kerbridge-agent-windows/src/tray_delivery.rs:6-123 | in a failing streak of any length recoveries fall exactly on attempts 2, 32, 92, 212, 452, 932 and every 600 after, and one more diagnostic than recoveries is logged |
| `TrayDelivery.ReAddedOnce` | client/kerbridge-agent-windows/src/tray_delivery.rs:73-123 | in a streak of failed modifies, after a successful re-add only modifies are tried |
| `TrayDelivery.ReAddsIffTargetRepeats` | client/kerbridge-agent-windows/src/tray_delivery.rs:73-123 | while every modify fails, whatever else the shell answers, an add is tried if and only if two neighbouring attempts have the same target |
| `Tray.App.Update` | client/kerbridge-agent-windows/src/tray.rs:375-428 | drawing, delivering and destroying the old handle take the tray state to the updated one |
| `Tray.App.OnTick` | client/kerbridge-agent-windows/src/tray.rs:236-252 | a tick repaints under exactly the stated condition and records what it observed |
| `Tray.App.AddIcon` | client/kerbridge-agent-windows/src/tray.rs:190-227 | after an Explorer restart the logo is registered, delivery starts over and the icon is painted |
| `Tray.IconsAreOwned` | client/kerbridge-agent-windows/src/tray.rs:375-428 | over every run each drawn icon is destroyed at most once, exactly the current one is live, and the handle the shell last accepted, as its answers say, is the current one and never a destroyed one |
| `Tray.ObservedIsLastTick` | client/kerbridge-agent-windows/src/tray.rs:236-252 | what a tick compares with is the condition the tick before it found |
| `Tray.DeliveryFollows` | client/kerbridge-agent-windows/src/tray.rs:213-252 | the delivery state of any run is that of the attempts and restarts in it |
| `Tray.EveryTickRetries` | client/kerbridge-agent-windows/src/tray.rs:236-252 | a tick leaves the icon alone if and only if nothing is scheduled, the condition is the observed one and the last attempt was an accepted modify for it |
| `GrantDirectory.Find` | crates/kerbridge-broker/src/ticket.rs:182-186 | finds the first row of the key, and none exactly when no row has it |
| `GrantDirectory.RecordedKeeps` | crates/kerbridge-issuerd/src/grant.rs:88-134 | a registration that nothing overtakes lists the key once, takes nobody else's row, grows the account only within the cap, and stores the whole new window |
| `GrantDirectory.RecordedInTwo` | crates/kerbridge-issuerd/src/grant.rs:88-134 | reading and then changing the account with nothing in between is the registration as a whole |
| `GrantDirectory.RemovedInTwo` | crates/kerbridge-issuerd/src/grant.rs:136-151 | the same for a removal |
| `GrantDirectory.AppliedSpec` | crates/kerbridge-issuerd/src/grant.rs:172-190 | what a change planned earlier does to the account as it is now: other keys are kept, the account grows only by a plan that took nothing, and one row each stays so unless such a plan meets its key |
| `GrantDirectory.RegistrationCures` | crates/kerbridge-issuerd/src/grant.rs:107-134 | a registration leaves its key listed once if and only if it takes away every row of the key that is listed by then |
| `GrantDirectory.RenewalIgnoresCap` | crates/kerbridge-issuerd/src/grant.rs:113-121 | a key the account already carries is refused only for eligibility, a failed write or an expired window, never for the cap |
| `GrantDirectory.RecordedIff` | crates/kerbridge-issuerd/src/grant.rs:88-134 | a registration is accepted exactly if the account is eligible, the window is open, the write works, and the key is there or there is room under the cap |
| `GrantDirectory.RecordedIsLive` | crates/kerbridge-core/src/grant.rs:191-211 | a recorded grant is live until the earlier of its end and the operator's current window, and not after |
| `GrantDirectory.RemovedKeeps` | crates/kerbridge-issuerd/src/grant.rs:136-151 | removing takes exactly the rows of that key |
| `GrantDirectory.TouchedKeeps` | crates/kerbridge-issuerd/src/grant.rs:153-170 | the last-use stamp changes neither which keys are listed nor what is live |
| `GrantDirectory.TouchedStamps` | crates/kerbridge-issuerd/src/grant.rs:153-170 | a stamp that is due and goes through is the broker's time on the first row of the key, and nothing else changes |
| `GrantDirectory.StampIsFresh` | crates/kerbridge-core/src/grant.rs:292-306 | no new stamp is due exactly when the old one is of the same day and less than twelve hours old |
| `GrantValue.EscapeField` | crates/kerbridge-core/src/lib.rs:246-256 | the escaping loop computes the escaping function |
| `GrantValue.UnescapeField` | crates/kerbridge-core/src/lib.rs:258-275 | the unescaping loop computes the unescaping function, errors included |
| `GrantValue.UnescapeEscape` | crates/kerbridge-core/src/lib.rs:246-275 | unescaping undoes escaping on every text, and escaped text holds no separator |
| `GrantValue.EscapeExact` | crates/kerbridge-core/src/lib.rs:246-256 | percent and bar are escaped, in upper case, and nothing else is touched |
| `GrantValue.Decode` | crates/kerbridge-core/src/grant.rs:129-184 | the field loop returns what the fold over the fields returns, first error included |
| `GrantValue.DecodedIffDescribed` | crates/kerbridge-core/src/grant.rs:126-189 | a value reads as a grant if and only if its fields, in any order, describe it: every recognized key readable, no key twice, the required ones present |
| `GrantValue.OrderFree` | crates/kerbridge-core/src/grant.rs:104-105 | rearranging the fields of a value does not change what it reads as |
| `GrantValue.DecodeEncode` | crates/kerbridge-core/src/grant.rs:111-125 | every storable grant reads back as itself |
| `GrantValue.EncodedShape` | crates/kerbridge-core/src/grant.rs:104-125 | the stored text, spelled out field by field |
| `GrantValue.EpochIff` | crates/kerbridge-core/src/grant.rs:313-315 | a time is read exactly from digits, after a plus sign or none, below 2^64 |
| `GrantValue.ThumbprintIff` | crates/kerbridge-core/src/grant.rs:250-256 | a thumbprint is 43 characters of the base64url alphabet |
| `GrantValue.FirstErrorDecides` | crates/kerbridge-core/src/grant.rs:126-189 | the first field that makes a value ill-formed decides which error it gives |
| `GrantValue.MissingDecides` | crates/kerbridge-core/src/grant.rs:126-189 | which error is left when every field is well-formed, and that any other text is not a grant |
| `GrantValue.SanitizeLabel` | crates/kerbridge-core/src/grant.rs:264-290 | the clamping loop computes the clamped label |
| `GrantValue.ClampedSpec` | crates/kerbridge-core/src/grant.rs:264-290 | a sanitized label is printable, fits when escaped, and is the longest prefix of the visible characters that does |
| `GrantValue.SanitizeIsIdempotent` | crates/kerbridge-core/src/grant.rs:264-290 | sanitizing again changes nothing |
| `GrantValue.StoredValueFits` | crates/kerbridge-core/src/grant.rs:47-51 | a storable grant with a sanitized label takes at most 237 of the 255 octets |
| `GrantValue.ClientLabelCannotForge` | crates/kerbridge-core/src/grant.rs:107-111 | whatever label a client sends, every reader sees the stored key and window and the cleaned label, and the value fits |
| `DeviceGrant.Machine.Authorize` | client/kerbridge-client/src/session.rs:155-210 | the creation method makes its calls in order and leaves the world and outcome the creation function gives |
| `DeviceGrant.Machine.Revoke` | client/kerbridge-client/src/session.rs:244-308 | signing, deleting and telling the broker in that order give the revocation function |
| `DeviceGrant.Machine.Exchange` | client/kerbridge-client/src/session.rs:70-88 | an exchange signs with the held key and meets the broker's checks |
| `DeviceGrant.Machine.CreateKey` | client/kerbridge-client/src/windows/device.rs:95-141 | a key is made only in a container the best-effort clearing left empty |
| `DeviceGrant.Machine.DeleteKey` | client/kerbridge-client/src/windows/device.rs:165-171 | a key that is not seen is left, and success reported |
| `DeviceGrant.RowsNameHeldOrDestroyed` | client/kerbridge-client/src/session.rs:135-210 | over every run, every row this machine left names the held key or a destroyed one and not both, and no account has two usable rows |
| `DeviceGrant.OneRowWhileKeyLives` | client/kerbridge-client/src/session.rs:141-146 | while no key was destroyed an account never lists this machine twice, however often it renews |
| `DeviceGrant.RegrantReusesKey` | client/kerbridge-client/src/session.rs:141-165 | with the key in sight a re-grant makes and destroys none, and success means that key is listed |
| `DeviceGrant.RefusalKeepsKey` | client/kerbridge-client/src/session.rs:180-194 | a create that fails keeps the earlier key if and only if it was not both unseen and cleared |
| `DeviceGrant.CreationEnds` | client/kerbridge-client/src/session.rs:155-210 | how a creation ends, exactly, for every combination of faults, and what it leaves in the directory |
| `DeviceGrant.BlindOpeningLosesKey` | client/kerbridge-client/src/windows/device.rs:144-157 | from any world with a key, a transient failure to open and a broker out of reach end with no key |
| `DeviceGrant.RevokeKillsKey` | client/kerbridge-client/src/session.rs:231-250 | giving the grant back leaves no key if and only if none was there or the deletion saw it and worked, online or not |
| `DeviceGrant.RevokeTellsBroker` | client/kerbridge-client/src/session.rs:244-308 | signed before the key is deleted, a revocation takes exactly the rows of the grant if everything it needs works and they are listed, and reports the broker told exactly if its answer came back |
| `DeviceGrant.DeletionReports` | client/kerbridge-client/src/windows/device.rs:165-171 | deleting reports failure exactly when the store is down or the key was seen and could not be deleted |
| `DeviceGrant.ExchangeNeedsHeldKey` | client/kerbridge-client/src/session.rs:70-88 | a successful exchange had a key in the store that the named account lists |
| `DeviceGrant.ExchangeIff` | crates/kerbridge-broker/src/ticket.rs:79-150 | an exchange succeeds exactly if everything on the way works and the account lists the held key inside its stamped window and the operator's |
| `DeviceGrant.ExchangeStamps` | crates/kerbridge-broker/src/ticket.rs:137-165 | when a ticket is issued the grant is stamped, whether or not the answer gets back, and nothing else changes |
| `DeviceGrant.DeadUntilCreate` | client/kerbridge-client/src/session.rs:231-250 | after a deletion that worked, no exchange on any grant succeeds over any run until a create has made a key |
| `DeviceGrant.CreatedGrantExchanges` | client/kerbridge-client/src/session.rs:155-210 | a grant just created exchanges, without faults, exactly until the earlier of its end and the current window |
| `GrantRaces.AloneIsCreateGrant` | client/kerbridge-client/src/session.rs:155-210 | the acts of one creation, the issuer's two halves included, not interleaved with others, are the creation as a whole under the same faults |
| `GrantRaces.RowsSurviveInterleaving` | client/kerbridge-client/src/session.rs:155-308 | between any two acts of any interleaving of creations, deletions and requests of anybody, every row of this machine names the held key or a destroyed one and not both |
| `GrantRaces.CleanupTakesAnotherIff` | client/kerbridge-client/src/session.rs:180-194 | for every interleaving, the cleanup of a refused creation takes a key other than the one it made if and only if the deletion goes through and the key it finds was made later, by another call |
| `GrantRaces.RacingCreatesLoseKey` | client/kerbridge-client/src/session.rs:180-194 | from any state with two creations begun and no key, a run of the two that ends with the registered key destroyed |
| `GrantOverlaps.OneEachIff` | crates/kerbridge-issuerd/src/grant.rs:88-134 | for every interleaving, no key is ever listed twice on an account if and only if no registration writes that read none of its key where one is listed by then |
| `GrantOverlaps.OneUsableUnlessDoubled` | crates/kerbridge-issuerd/src/grant.rs:88-134 | an account has at most one usable row in every run without such a write |
| `GrantOverlaps.DoublesIff` | crates/kerbridge-issuerd/src/grant.rs:106-134 | a registration adds a second row of its key if and only if it read none, and in between another registration of the key went through whose listing lasts |
| `GrantOverlaps.TwiceMeansOvertaken` | crates/kerbridge-issuerd/src/grant.rs:106-134 | a registration that does not leave its key listed once was overtaken by another registration of the key, so the first one not overtaken takes every doubling away |
| `GrantOverlaps.WithinCapIff` | crates/kerbridge-issuerd/src/grant.rs:113-121 | for every interleaving, an account stays within its cap if and only if no write adds a row where no room is left |
| `GrantOverlaps.OverfillsIff` | crates/kerbridge-issuerd/src/grant.rs:113-121 | a write adds such a row if and only if another one that added a row filled the account between its reading and its writing |
| `GrantOverlaps.RacingCreatesListTwice` | crates/kerbridge-issuerd/src/main.rs:197-202 | from any state with two creations begun on one account and the key there but not listed, a run of the two in which both succeed and the account has two usable rows |
| `Text.SplitJoin` | client/kerbridge-client/src/srv.rs:137-140 | separator-free pieces joined and split again are the same pieces |
| `Srv.Add` | client/kerbridge-client/src/srv.rs:111-119 | the loop appends the normalized multi-label candidates that are new |
| `Srv.CandidatesExact` | client/kerbridge-client/src/srv.rs:111-119 | the candidates of a value are exactly its pieces, trimmed and in lower case, that have a dot |
| `Srv.LowerExact` | client/kerbridge-client/src/srv.rs:113-114 | lower case moves the letters A to Z by 32 and nothing else |
| `Srv.TrimDotsExact` | client/kerbridge-client/src/srv.rs:85-86 | what is trimmed off a name is all dots, and none is left at its end |
| `Srv.DnsDomains` | client/kerbridge-client/src/srv.rs:96-107 | the two loops compute the search list |
| `Srv.ParentsSpec` | client/kerbridge-client/src/srv.rs:137-140 | the parents are exactly the proper label tails of at least two labels |
| `Srv.ParentsFall` | client/kerbridge-client/src/srv.rs:121-140 | the most specific parent comes first |
| `Srv.SearchListSpec` | client/kerbridge-client/src/srv.rs:90-107 | the list has no duplicate and no single label, own domains precede added parents, these follow in order of first mention, and every parent of every entry is on it |
| `Srv.AsksBareTldIff` | client/kerbridge-client/src/srv.rs:111-140 | some listed name has fewer than two labels with anything in them if and only if the last label but one of some own domain is empty |
| `Srv.EmptyLabelReachesTld` | client/kerbridge-client/src/srv.rs:134-140 | a domain from which the walk up reaches a bare top-level name |
| `Srv.WithinIffLabels` | client/kerbridge-client/src/srv.rs:84-88 | a host is within a domain if and only if its labels end with the domain's, up to case and trailing dots |
| `Srv.PickIsBest` | client/kerbridge-client/src/srv.rs:78-81 | the head of the stable sort is the lowest-priority, then highest-weight record, the first of ties |
| `Srv.DiscoverBroker` | client/kerbridge-client/src/srv.rs:51-72 | the answer is the URL of the best record of the first domain whose best record lies inside it, and none exactly when no domain has one |
| `Srv.UrlSpec` | client/kerbridge-client/src/srv.rs:66-69 | the address is https, the target, and the port unless it is 443 |
| `Srv.TargetStaysHome` | client/kerbridge-client/src/srv.rs:13-26 | whatever DNS answers, a chosen target ends with the labels of the zone that answered, at least two, and so does one of this machine's own domains |
| `LogRotation.LogDir.Rotate` | client/kerbridge-client/src/log.rs:78-107 | the rotation method, countdown loop included, computes the rotated directory for every combination of faults |
| `LogRotation.MovedIff` | client/kerbridge-client/src/log.rs:78-91 | a log is moved aside exactly if it is longer than 10,485,760 octets and neither operation fails |
| `LogRotation.LogIsNeverLost` | client/kerbridge-client/src/log.rs:78-107 | whichever operations fail, the log is in the live file, the staging file, the packed file or generation 1, as the failures say |
| `LogRotation.GenerationsUntouched` | client/kerbridge-client/src/log.rs:92-98 | every generation is as it was unless compression finished |
| `LogRotation.GenerationSurvives` | client/kerbridge-client/src/log.rs:99-107 | which file an older generation is in afterwards, or what took its place, for every pattern of failing renames |
| `LogRotation.StagedLeftover` | client/kerbridge-client/src/log.rs:82-97 | an earlier log in the staging file outlives a rotation if and only if the rotation does not move |
| `LogRotation.PackedLeftover` | client/kerbridge-client/src/log.rs:92-107 | an earlier log left packed outlives a rotation if and only if it does not move or does not open the packed file |
| `LogRotation.SurvivorsAndTheirPlaces` | client/kerbridge-client/src/log.rs:78-107 | over every run with every pattern of faults each file holds the retired log the faults say, the newest retired log is never lost, and from the staging file to the oldest generation the logs are ever older |
| `LogRotation.GenerationsAreNewest` | client/kerbridge-client/src/log.rs:78-107 | over any run of appends and faultless rotations, generations 1 to 3 are the last retired logs newest first, and retired logs and live log together are all that was written |
| `Notifications.Coordinator.Submit` | client/kerbridge-agent-macos/src/ui.rs:105-121 | a submission changes the state and asks or delivers as the transition says |
| `Notifications.Coordinator.Complete` | client/kerbridge-agent-macos/src/ui.rs:123-141 | an answer settles a pending request and leaves any other state alone |
| `Notifications.AskedOnce` | client/kerbridge-agent-macos/src/ui.rs:105-141 | over every interleaving at most one authorization request is issued |
| `Notifications.DeliveredUnderGrant` | client/kerbridge-agent-macos/src/ui.rs:105-141 | every delivery is at or after a granting answer, and a run with a delivery has no refusing answer |
| `Notifications.DeliveredWasEligible` | client/kerbridge-agent-macos/src/ui.rs:74-121 | every delivered notice was submitted while eligible as a warning or an error, and a held one was eligible again on delivery |
| `Notifications.DeliveredOnce` | client/kerbridge-agent-macos/src/ui.rs:329-389 | no notice is delivered twice |
| `Notifications.DeliveredInOrder` | client/kerbridge-agent-macos/src/ui.rs:329-389 | deliveries follow the order of submission |
| `Notifications.GrantShowsPending` | client/kerbridge-agent-macos/src/ui.rs:376-389 | a granting answer delivers the notice that caused the request unless it is no longer eligible |
| `Notifications.EffectIff` | client/kerbridge-agent-macos/src/ui.rs:105-141 | every effect of every event of every run, told from the events alone: the first eligible submission asks, the first answer after it decides, and an eligible submission after a yes is delivered |

## Left out

- KrbCred.KrbCred: credentials whose encoding would pass 2^63 octets, which no 64-bit machine holds; `Fits` and the 2^61 bound of `Readable` say this, and `Tgt.CachedCredentialFits` shows every readable file meets it.
- Der.LengthOctets: `usize` is 64 bits wide; a 32-bit build is not modelled.
- CcacheReader.Reader: the wording of errors and the offset a truncation error names.
- ConfigStore.Settings.Update: the TOML format is a parameter whose printed text reads back; the field list follows the source, the text does not.
- ReplaceFile.Directory.Replace: the creation of the directory and the loss of unsynced data at power failure; rename is atomic.
- Tray.App.Update: drawing and tooltips; an icon handle is a number and the shell's answers are parameters.
- TrayDelivery.ReAddedOnce: stated for a streak on one target, which is what the code counts.
- DeviceGrant.Machine.CreateKey: the key store is the Windows one; the macOS store, where opening may itself remove a refused key and creation overwrites, and Linux, which has none, are not modelled.
- GrantRaces.CleanupTakesAnotherIff: one deletion, and one emptying or making of the container, is a single act.
- GrantOverlaps.OneEachIff: one change of an account is a single act, as one directory modify; a request of the issuer that never gets to write stays as it is.
- ConfigFiles.RunAgrees: reading the file is a single step, and processes have distinct IDs.
- DeviceGrant.Machine.Revoke: the handle of a grant names its key, so two thumbprints that share their first four bytes are not distinguished from one; nonces, signatures and clocks are outcomes of calls.
- GrantDirectory.RecordedKeeps: accounts are looked up by name and their eligibility is a parameter; saturation at 2^64 seconds is not modelled.
- GrantValue.Decode: one algorithm is recognized, as in the source; which of several errors a malformed value gives is part of the function and not characterized further.
- Srv.DiscoverBroker: the DNS query and the platform's list of own domains are parameters.
- LogRotation.LogDir.Rotate: processes that rotate or append during a rotation; compression is an injective wrapper.
- Notifications.Coordinator.Submit: the lock around it and the system's notification calls.
- HTTP, TLS, JSON, OIDC and discovery documents: thin layers over libraries.
- Ticket injection, purging, enrollment, repair and elevation: foreign calls.
- The agent's schedule and status wording, icons, menus and windows: case tables and drawing.
- The broker's routes, identity verification, ticket issuing and directory lookups beyond the grant check.
