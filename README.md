# Student concern portal: data layer and route logic in Dafny

This project models the core of a Flask student-concern portal. Students
register with an institutional e-mail address and verify it with a
six-digit code. They log in and submit issues. Staff read and resolve
those issues, and a two-level admin blueprint (`supaadmin`, `subadmin`)
manages sub-admin accounts, issues and settings.

The model covers:

- the REST-backed store `SimpleFirebaseDB` (firebase_simple.py): users,
  passwords, verification codes, reset tokens, issues, counts and the
  dotted-path settings tree;
- the in-memory Firestore stand-in (firebase_mock.py): collections,
  documents and queries;
- the pyrebase-backed `FirebaseRealtimeDatabase`
  (firebase_realtime_database.py);
- the decisions of the user-facing routes (app_firebase_fixed.py) and of
  the admin blueprint (admin_routes.py).

Modules:

- `Json`: stored values. A password hash is idealised: it checks against
  exactly the password it was made from.
- `Strings`: `strip`, `lower`, `upper`, `endswith`, `split('.')`, the
  substring test `in` and decimal strings.
- `Store`: a collection is a sequence of `(id, record)` entries. It
  provides lookup, PUT, PATCH and DELETE, first-match scans, a stable
  sort and counting.
- `Settings`: the default settings tree and dotted-path reads and writes.
- `FirebaseSimple`, `FirebaseMock` and `FirebaseRealtime`: one class per
  store class. Their fields are updated by methods with `modifies`
  frames, and each method is specified against functions of the old
  state.
- `AppRoutes` and `AdminRoutes`: each handler is a method over the store
  that returns a `Reply`. A `Reply` is a redirect or a rendered page,
  with its flashed message.

Python exceptions that escape a handler (KeyError, TypeError,
AttributeError) are modelled as `Outcome.Raise`.

Inputs are parameters:

- The clock is the integer `now`.
- `random.randint` is the drawn number.
- The 32 `random.choice` picks of a reset token are a sequence of
  alphabet positions.
- uuid4 and push keys are one fixed choice of a key not yet in the
  collection: a key longer than every stored one.
- Reachability of the remote store is the boolean `online` (the
  realtime class's connection is an `Option<Handle>`).
- Whether the verification mail went out is the boolean `mailed`.

## Model

| member | source | states |
|---|---|---|
| Json.HashPassword | firebase_simple.py:113 | a stored hash checks against the password it was made from and against no other |
| Json.GetOr | firebase_simple.py:61 | `dict.get(f, default)`: the stored value when present, the default otherwise |
| Strings.TrimLeftShape | app_firebase_fixed.py:53-65 | the left half of `str.strip()` keeps a suffix that does not start with white space and cuts off only white space |
| Strings.TrimRightShape | app_firebase_fixed.py:53-65 | the right half of `str.strip()` keeps a prefix that does not end with white space and cuts off only white space |
| Strings.Strip | app_firebase_fixed.py:53-65 | `str.strip()` leaves no white space at either end |
| Strings.StripSlice | app_firebase_fixed.py:53-65 | `str.strip()` keeps a contiguous slice of its input |
| Strings.StripCutsSpace | app_firebase_fixed.py:53-65 | everything `str.strip()` removes, on either side, is white space |
| Strings.StripIdempotent | app_firebase_fixed.py:53-65 | stripping a stripped string changes nothing |
| Strings.StripCaseIdempotent | app_firebase_fixed.py:53 | `strip().lower()` (and `strip().upper()`) applied twice equals applied once |
| Strings.Split | firebase_simple.py:422 | `split('.')` yields the pieces between the dots; none of them contains a dot |
| Strings.SplitJoin | firebase_simple.py:422 | splitting a dot-joined list of dot-free keys gives the keys back |
| Strings.JoinSplit | firebase_simple.py:422 | joining the pieces of a split with dots gives the original path back |
| Strings.ContainsAt | firebase_simple.py:466 | `part in s` on strings holds exactly when `part` starts at some position of `s` |
| Strings.NatToString | firebase_mock.py:43 | `str(n)` for a counter: decimal digits only |
| Strings.ParseNatToString | firebase_simple.py:166 | a decimal string reads back as the number it was made from |
| Strings.NatToStringInjective | firebase_mock.py:43 | different counters give different document ids |
| Store.Lookup | firebase_simple.py:50-56 | a GET of `collection/id` finds a record exactly when the id is stored |
| Store.LookupAt | firebase_simple.py:50-56 | with unique ids, a GET of an entry's id finds that entry's record |
| Store.Put | firebase_simple.py:158 | a PUT of `collection/id` makes the id read the new record and keeps ids unique; a stored id is replaced where it stands, a new one appended |
| Store.PutFrame | firebase_simple.py:158 | after a PUT every other id reads as before, and the stored ids gain exactly `id` |
| Store.Remove | firebase_realtime_database.py:257-267 | a delete takes exactly that id out of the collection; a missing id changes nothing |
| Store.RemoveLookup | firebase_realtime_database.py:257-267 | deleting one id leaves every other id reading as before |
| Store.FindBy | firebase_simple.py:40-48 | the first record whose field equals the value, with its id; None exactly when no record matches |
| Store.SortBy | firebase_simple.py:73 | `sorted(key=..., reverse=...)` is a permutation in key order |
| Store.FilterMeaning | firebase_simple.py:297-300 | keeps exactly the elements that pass, each as often as before |
| Store.FilterSorted | firebase_simple.py:297-305 | filtering a sorted list keeps it sorted |
| Store.CountByMeaning | firebase_simple.py:497-504 | every key seen is counted, with the number of times it occurs |
| Store.CountByTotal | firebase_simple.py:506-513 | the counts add up to the number of keys counted |
| Store.Tally | firebase_simple.py:500-503 | the counting loop computes `CountBy` |
| Store.Scan | firebase_simple.py:44-47 | the search loop returns the index of the first match |
| Store.CollectWithIds | firebase_simple.py:68-72 | the loop that copies each record with its id yields all records with ids, in order |
| Store.WithId | firebase_simple.py:46 | `user['id'] = key` sets the id and leaves every other field |
| Store.FreshKey | firebase_realtime_database.py:10-12 | a generated key is not among the keys already stored (the model takes one longer than every stored key) |
| Settings.DefaultsAreTruthy | firebase_simple.py:359-412 | the default tree is a non-empty dict with a non-empty `system_info` |
| Settings.GetPathSnoc | firebase_simple.py:419-431 | one more key walked is one more step from where the walk stood |
| Settings.GetPathAppend | firebase_simple.py:419-431 | walking `p + q` is walking `p`, then `q` |
| Settings.GetPathPair | firebase_simple.py:419-431 | a two-key path reads the child of the child |
| Settings.SetPath | firebase_simple.py:433-448 | the write succeeds exactly when no node on the path is a non-dict (where the source raises TypeError); the result is a dict holding the first key |
| Settings.GetAfterSet | firebase_simple.py:433-448 | after a successful write, the same path reads the written value |
| Settings.SetPathElsewhere | firebase_simple.py:433-448 | a write changes no path that parts ways with its own |
| Settings.RemoveChild | firebase_simple.py:463-486 | the removal happens exactly when `group in tree and key in tree[group]` holds of two dicts, and then the key is gone and every other path reads as before; TypeError exactly where Python raises it: `in` on a node that is neither dict nor string, or a string that contains the key being indexed or deleted from |
| FirebaseSimple.VerifyPasswordSpec | firebase_simple.py:58-63 | accepts exactly when the first user with the username exists and the password checks against its stored hash, then answers that user |
| FirebaseSimple.HashShadowsPassword | firebase_simple.py:61 | a stored `password_hash` decides alone; a `password` beside it is never consulted |
| FirebaseSimple.ProfileOf | firebase_simple.py:111-127 | the new user has exactly the thirteen profile fields, each from the arguments or `''` |
| FirebaseSimple.NewUserRecord | firebase_simple.py:111-135 | the stored user has the username and role, a `password_hash` (no `password`) that checks against exactly the given password, the creation time and `profile_complete` |
| FirebaseSimple.NewUserIdentity | firebase_simple.py:111-135 | the stored student id and e-mail are the values the uniqueness checks compared |
| FirebaseSimple.ProfileField | firebase_simple.py:111-127 | each profile field is the argument or `''` |
| FirebaseSimple.CreateRejectionMeaning | firebase_simple.py:97-109 | each refusal message holds exactly when its check is the first to fail: taken username, then taken non-empty student id, then taken non-empty e-mail |
| FirebaseSimple.CreatedUserCanLogin | firebase_simple.py:95-140 | a user created under a free username logs in with its password |
| FirebaseSimple.AsWrittenKeepsOldPassword | firebase_simple.py:142-162 | a single user created with password `a` logs in with `a`; after `update_user_password` to `b` it still logs in with `a` and not with `b` |
| FirebaseSimple.PasswordAsWritten | firebase_simple.py:149-156 | the hash that decides the login afterwards is the stored `password_hash` when there is one, else the new hash; only `password` and `updated_at` change |
| FirebaseSimple.PasswordResetAsWritten | firebase_simple.py:255-259 | as the update, and the record carries the reset time |
| FirebaseSimple.RewriteFound | firebase_simple.py:150-158 | rewriting the first user with a username, keeping the username, leaves the rewritten record the one a search by username finds |
| FirebaseSimple.WrittenAt | firebase_simple.py:144-158 | the first user with the name is found again by id, the update rewrites exactly that entry, and ids stay unique |
| FirebaseSimple.PasswordWrittenLogin | firebase_simple.py:142-162 | after `update_user_password`, a password logs in exactly when it checks against the `password_hash` the user had, or, with none, against the new hash |
| FirebaseSimple.ResetWrittenLogin | firebase_simple.py:248-266 | after `reset_user_password`, a password logs in exactly when it checks against the `password_hash` the user had, or, with none, against the new hash |
| FirebaseSimple.UpdateKeepsCreatedPassword | firebase_simple.py:142-162 | for a user stored by `create_user` with password `a`, an update to `b` leaves `a` logging in and refuses `b` |
| FirebaseSimple.ResetKeepsCreatedPassword | firebase_simple.py:248-266 | for a user stored by `create_user` with password `a`, a reset to `b` leaves `a` logging in and refuses `b` |
| FirebaseSimple.PasswordCorrected | firebase_simple.py:149-156 | the intended transform: the updated record checks against exactly the new password; only the hash and `updated_at` change |
| FirebaseSimple.CorrectedAtLogsIn | firebase_simple.py:144-160 | with the intended transform, the first user with the name is found by id, ids stay unique and the new password logs in |
| FirebaseSimple.FirstUserIndexMeaning | firebase_simple.py:144 | the position of the first user with the username; None exactly when `get_user_by_username` finds none |
| FirebaseSimple.VerificationCodeFor | firebase_simple.py:164-167 | the code is six decimal digits that read back as the drawn number |
| FirebaseSimple.CodeIndex | firebase_simple.py:183-200 | the first code record that is usable: same code and purpose, unused, not expired |
| FirebaseSimple.Consume | firebase_simple.py:192-196 | a consumed code is marked used at `now`; nothing else about it changes |
| FirebaseSimple.VerifyCodeStepMeaning | firebase_simple.py:183-200 | no usable record means no user and no change; otherwise the first usable record is consumed and its user id returned |
| FirebaseSimple.VerifyCodeSingleUse | firebase_simple.py:183-200 | with one usable record, a second verification of the same code now or later fails |
| FirebaseSimple.FreshCodeAcceptedUntilExpiry | firebase_simple.py:169-200 | a freshly stored code is accepted exactly until 15 minutes after it was stored |
| FirebaseSimple.TokenChar | firebase_simple.py:204 | each token character is a letter or a digit |
| FirebaseSimple.ResetTokenFrom | firebase_simple.py:202-204 | the token has one alphanumeric character per pick |
| FirebaseSimple.ResetTokenInjective | firebase_simple.py:202-204 | different picks give different tokens |
| FirebaseSimple.ResetIndex | firebase_simple.py:224-236 | the first reset record that is valid for the token: same token, unused, not expired |
| FirebaseSimple.VerifyResetTokenSpec | firebase_simple.py:224-236 | answers the user id and reset id of a valid record; None exactly when no record is valid |
| FirebaseSimple.MarkUsed | firebase_simple.py:238-246 | a used reset record is marked used at `now`; nothing else changes |
| FirebaseSimple.UsedTokenRejected | firebase_simple.py:224-246 | once a reset record is used, verifying its token never yields that reset again |
| FirebaseSimple.FreshTokenValidUntilExpiry | firebase_simple.py:206-236 | a fresh token is accepted exactly until an hour after it was created |
| FirebaseSimple.CandidateIndex | firebase_simple.py:268-284 | the first user matching the contact (by `method`) and the student id |
| FirebaseSimple.FindForReset | firebase_simple.py:268-284 | None exactly when no user matches; a match has the student id and the e-mail or phone the method names |
| FirebaseSimple.ById | firebase_simple.py:50-56 | a record is found exactly when stored under the id and non-empty; it carries its id |
| FirebaseSimple.NewIssue | firebase_simple.py:315-330 | a new issue is pending, with an empty response, the student id and the creation time |
| FirebaseSimple.IssueUpdated | firebase_simple.py:332-348 | the status and time are always set, the response only when truthy, every other field kept |
| FirebaseSimple.CountsAddUp | firebase_simple.py:497-513 | the per-role and per-status counts add up to the number of records |
| FirebaseSimple.UpdateThenGetSetting | firebase_simple.py:419-448 | after a successful `update_setting(path, v)`, `get_setting(path)` answers `v` |
| FirebaseSimple.AddedEntry | firebase_simple.py:450-478 | adding a category or index prefix makes it readable and changes no other path |
| FirebaseSimple.SimpleFirebaseDB.constructor | firebase_simple.py:12-15 | an empty store, reachable or not, whose defaults are the default tree |
| FirebaseSimple.SimpleFirebaseDB.FindUser | firebase_simple.py:40-48 | the lookup loop returns the first user with the field value |
| FirebaseSimple.SimpleFirebaseDB.GetUserByUsername | firebase_simple.py:40-48 | the first user with the username, with its id |
| FirebaseSimple.SimpleFirebaseDB.GetUserByStudentId | firebase_simple.py:75-83 | the first user with the student id, with its id |
| FirebaseSimple.SimpleFirebaseDB.GetUserByEmail | firebase_simple.py:85-93 | the first user with the e-mail, with its id |
| FirebaseSimple.SimpleFirebaseDB.GetUserById | firebase_simple.py:50-56 | the stored non-empty record under the id, with its id |
| FirebaseSimple.SimpleFirebaseDB.VerifyPassword | firebase_simple.py:58-63 | answers as `VerifyPasswordSpec` on the stored users |
| FirebaseSimple.SimpleFirebaseDB.GetAllUsers | firebase_simple.py:65-73 | every user with its id, a permutation sorted by username |
| FirebaseSimple.SimpleFirebaseDB.CreateChecks | firebase_simple.py:97-109 | the three lookups before a write return the refusal `CreateRejection` names, or none |
| FirebaseSimple.SimpleFirebaseDB.CreateUser | firebase_simple.py:95-140 | a refusal or an unreachable store writes nothing; otherwise exactly the new record is appended under a fresh key |
| FirebaseSimple.SimpleFirebaseDB.UpdateUserPassword | firebase_simple.py:142-162 | an unknown username changes nothing; otherwise only the first such user is rewritten with the new hash in `password`, and afterwards a password logs in exactly when it checks against that user's old `password_hash`, or, with none, against the new hash |
| FirebaseSimple.SimpleFirebaseDB.RewritePassword | firebase_simple.py:148-160 | the user found first is re-read by id and written back with the new hash in `password`; ids stay unique |
| FirebaseSimple.SimpleFirebaseDB.ResetUserPassword | firebase_simple.py:248-266 | an unknown id changes nothing; otherwise that user is rewritten with the new hash in `password` and the reset time, and the hash that decides its login is its old `password_hash` when it had one |
| FirebaseSimple.SimpleFirebaseDB.PutUser | firebase_simple.py:17-37 | a PUT writes the whole record under the id and reports success exactly when the store is reached |
| FirebaseSimple.SimpleFirebaseDB.FindUserForReset | firebase_simple.py:268-284 | answers as `FindForReset` on the stored users |
| FirebaseSimple.SimpleFirebaseDB.GetUserCountByRole | firebase_simple.py:497-504 | users per role, `'unknown'` for none; the counts add up to the number of users |
| FirebaseSimple.SimpleFirebaseDB.StoreVerificationCode | firebase_simple.py:169-181 | appends one fresh, unused code expiring in 15 minutes; nothing when unreachable |
| FirebaseSimple.SimpleFirebaseDB.VerifyCode | firebase_simple.py:183-200 | returns the user id and leaves the codes as `VerifyCodeStep` says; unreachable means no user, no change |
| FirebaseSimple.SimpleFirebaseDB.CreatePasswordResetToken | firebase_simple.py:206-222 | appends one unused record with a 32-character token and a one-hour expiry under a fresh key, and answers the token |
| FirebaseSimple.SimpleFirebaseDB.VerifyResetToken | firebase_simple.py:224-236 | answers as `VerifyResetTokenSpec`; writes nothing |
| FirebaseSimple.SimpleFirebaseDB.UseResetToken | firebase_simple.py:238-246 | marks the reset used; reports success exactly when it exists and the store is reached |
| FirebaseSimple.SimpleFirebaseDB.GetAllIssues | firebase_simple.py:287-295 | every issue with its id, newest first |
| FirebaseSimple.SimpleFirebaseDB.GetIssuesByStudent | firebase_simple.py:297-300 | exactly the student's issues, each as often as stored, newest first |
| FirebaseSimple.SimpleFirebaseDB.GetIssuesByStatus | firebase_simple.py:302-305 | exactly the issues with the status, each as often as stored, newest first |
| FirebaseSimple.SimpleFirebaseDB.GetIssueById | firebase_simple.py:307-313 | the stored non-empty issue under the id, with its id |
| FirebaseSimple.SimpleFirebaseDB.CreateIssue | firebase_simple.py:315-330 | appends exactly one pending issue under a fresh key; nothing when unreachable |
| FirebaseSimple.SimpleFirebaseDB.UpdateIssueStatus | firebase_simple.py:332-348 | a missing issue changes nothing; otherwise only that issue changes, as `IssueUpdated` says |
| FirebaseSimple.SimpleFirebaseDB.GetIssueCountByStatus | firebase_simple.py:506-513 | issues per status, `'unknown'` for none; the counts add up to the number of issues |
| FirebaseSimple.SimpleFirebaseDB.GetSetting | firebase_simple.py:419-431 | the value at the dotted path of the stored settings (or the defaults), None when a key is missing |
| FirebaseSimple.SimpleFirebaseDB.UpdateSystemSettings | firebase_simple.py:414-417 | the whole tree is replaced; success exactly when reachable and the tree is not null |
| FirebaseSimple.SimpleFirebaseDB.SetSettingsPath | firebase_simple.py:433-448 | the tree stored is the tree with the path written; a non-dict node on the way raises and writes nothing |
| FirebaseSimple.SimpleFirebaseDB.UpdateSetting | firebase_simple.py:433-448 | writes the path; once it succeeds, `get_setting(path)` answers the value |
| FirebaseSimple.SimpleFirebaseDB.AddCategory | firebase_simple.py:450-461 | TypeError, nothing written, where a node on the way is not a dict; otherwise the tree with the category is stored and the answer is whether the store was reached; on success the category reads as its name and description and no other path changes |
| FirebaseSimple.SimpleFirebaseDB.AddIndexPrefix | firebase_simple.py:471-478 | TypeError, nothing written, where a node on the way is not a dict; otherwise the tree with the prefix is stored and the answer is whether the store was reached; on success the prefix reads as its description and no other path changes |
| FirebaseSimple.SimpleFirebaseDB.RemoveEntry | firebase_simple.py:463-486 | TypeError with nothing written where Python raises; False with nothing written when the guard fails; otherwise the tree without the entry is stored |
| FirebaseSimple.SimpleFirebaseDB.RemoveCategory | firebase_simple.py:463-469 | removes exactly that category; False with nothing written when it is missing; TypeError where `categories` or the tree is not a dict and Python raises |
| FirebaseSimple.SimpleFirebaseDB.RemoveIndexPrefix | firebase_simple.py:480-486 | removes exactly that prefix; False with nothing written when it is missing; TypeError where `index_prefixes` or the tree is not a dict and Python raises |
| FirebaseSimple.SimpleFirebaseDB.InitializeDefaultSettings | firebase_simple.py:488-494 | stores the defaults only when nothing is stored; the settings read are unchanged |
| FirebaseMock.Snapshot.ToDict | firebase_mock.py:109-110 | the data, or `{}` for a missing document |
| FirebaseMock.DocGet | firebase_mock.py:85-89 | the snapshot exists exactly when the document is stored |
| FirebaseMock.SetDoc | firebase_mock.py:78-83 | writes the document whole, creating the collection; no other collection changes |
| FirebaseMock.SetThenGet | firebase_mock.py:78-89 | after a write, reading the document gives exactly what was written |
| FirebaseMock.SetLeavesOthers | firebase_mock.py:78-83 | a write touches no other document |
| FirebaseMock.MissingDocument | firebase_mock.py:85-89 | a missing document does not exist and reads as `{}` |
| FirebaseMock.UpdateDoc | firebase_mock.py:91-95 | a missing document or collection is left alone |
| FirebaseMock.UpdateMerges | firebase_mock.py:91-95 | the given fields take the new values, every other field keeps its value |
| FirebaseMock.UpdateLeavesOthers | firebase_mock.py:91-95 | an update touches no other document |
| FirebaseMock.DeleteDoc | firebase_mock.py:97-101 | exactly that document goes; a missing one changes nothing |
| FirebaseMock.DeleteRemovesOnlyIt | firebase_mock.py:97-101 | the deleted document no longer exists; every other document reads as before |
| FirebaseMock.Snapshots | firebase_mock.py:60-69 | one snapshot per document, in order |
| FirebaseMock.SliceTo | firebase_mock.py:154-155 | `docs[:n]` with Python's bounds, a negative `n` counting from the end |
| FirebaseMock.QueryMatchesFilter | firebase_mock.py:142-144 | with an `==` filter, every answer has the value in the field |
| FirebaseMock.QueryFindsAllMatches | firebase_mock.py:142-144 | with an `==` filter and no limit, every matching document is answered |
| FirebaseMock.QueryWithoutFilter | firebase_mock.py:135-157 | with no filter value, an unordered, unlimited query answers every document in order |
| FirebaseMock.QueryLimitAndOrder | firebase_mock.py:149-155 | a positive limit caps the answers; an ordered query answers in order, descending only for `'DESCENDING'` |
| FirebaseMock.MockFirestore.constructor | firebase_mock.py:11-21 | with no saved file: empty `users` and `issues`, both counters 0 |
| FirebaseMock.MockFirestore.Collection | firebase_mock.py:28-29 | a handle on the named collection of this store |
| FirebaseMock.MockCollection.constructor | firebase_mock.py:31-34 | a handle on the named collection |
| FirebaseMock.MockCollection.Document | firebase_mock.py:36-37 | a handle on the named document |
| FirebaseMock.MockCollection.Add | firebase_mock.py:39-52 | the counter rises by exactly one, its decimal string is the new id, and the record is written under it |
| FirebaseMock.MockCollection.Where | firebase_mock.py:54-55 | a query with that filter and no order or limit |
| FirebaseMock.MockCollection.OrderBy | firebase_mock.py:57-58 | an unfiltered query with that order |
| FirebaseMock.MockCollection.Get | firebase_mock.py:60-69 | one snapshot per stored document; none for a missing collection |
| FirebaseMock.MockDocument.constructor | firebase_mock.py:72-76 | a handle on the document |
| FirebaseMock.MockDocument.Set | firebase_mock.py:78-83 | the store afterwards is `SetDoc` of the store before; counters unchanged |
| FirebaseMock.MockDocument.Get | firebase_mock.py:85-89 | the snapshot `DocGet` describes |
| FirebaseMock.MockDocument.Update | firebase_mock.py:91-95 | the store afterwards is `UpdateDoc` of the store before; counters unchanged |
| FirebaseMock.MockDocument.Delete | firebase_mock.py:97-101 | the store afterwards is `DeleteDoc` of the store before; counters unchanged |
| FirebaseMock.MockQuery.constructor | firebase_mock.py:113-121 | a query with the filter and no order or limit |
| FirebaseMock.MockQuery.Where | firebase_mock.py:123-124 | a new query whose filter replaces this one's |
| FirebaseMock.MockQuery.OrderBy | firebase_mock.py:126-129 | sets the order on this query, keeps the limit, returns it |
| FirebaseMock.MockQuery.Limit | firebase_mock.py:131-133 | sets the limit on this query, keeps the order, returns it |
| FirebaseMock.MockQuery.Get | firebase_mock.py:135-157 | filter, then sort, then cut, as the query result says |
| FirebaseRealtime.NewAccount | firebase_realtime_database.py:29-37 | a new account has exactly username, `password`, role and creation time, and the hash checks against exactly the password |
| FirebaseRealtime.VerifySpec | firebase_realtime_database.py:78-83 | raises KeyError exactly when the first user with the username has no `password`; accepts exactly when it checks |
| FirebaseRealtime.Patch | firebase_realtime_database.py:118-121 | a PATCH merges the fields into the record under the id, or creates it, and leaves every other id |
| FirebaseRealtime.PasswordFields | firebase_realtime_database.py:116-121 | the patch holds exactly `password` and `updated_at`, and the hash checks against exactly the new password |
| FirebaseRealtime.StatusFields | firebase_realtime_database.py:214-232 | the patch holds the status and time, and the response only when it is truthy |
| FirebaseRealtime.StatusPatchAgrees | firebase_realtime_database.py:214-232 | on an existing issue the realtime patch makes the same record as `SimpleFirebaseDB`'s update |
| FirebaseRealtime.PasswordUpdateLogsIn | firebase_realtime_database.py:107-126 | after an update the new password logs in and no other does |
| FirebaseRealtime.CreatedAccountLogsIn | firebase_realtime_database.py:15-41 | an account created under a free username logs in with its password |
| FirebaseRealtime.FirebaseRealtimeDatabase.constructor | firebase_realtime_database.py:7-8 | holds the given connection, or none |
| FirebaseRealtime.FirebaseRealtimeDatabase.CreateUser | firebase_realtime_database.py:15-41 | refused without a connection or for a taken username; otherwise exactly the new account is added under a fresh id |
| FirebaseRealtime.FirebaseRealtimeDatabase.GetUserByUsername | firebase_realtime_database.py:43-59 | the first user with the username, with its id |
| FirebaseRealtime.FirebaseRealtimeDatabase.GetUserById | firebase_realtime_database.py:61-76 | the stored non-empty record under the id, with its id |
| FirebaseRealtime.FirebaseRealtimeDatabase.VerifyPassword | firebase_realtime_database.py:78-83 | answers or raises as `VerifySpec` on the stored users |
| FirebaseRealtime.FirebaseRealtimeDatabase.GetAllUsers | firebase_realtime_database.py:85-105 | every user with its id, sorted by username |
| FirebaseRealtime.FirebaseRealtimeDatabase.UpdateUserPassword | firebase_realtime_database.py:107-126 | patches only the first such user's password and time; the new password then logs in |
| FirebaseRealtime.FirebaseRealtimeDatabase.CreateIssue | firebase_realtime_database.py:129-150 | adds exactly one pending issue under a fresh id; refused without a connection |
| FirebaseRealtime.FirebaseRealtimeDatabase.GetIssuesByStudent | firebase_realtime_database.py:152-173 | exactly the student's issues, each as often as stored, newest first |
| FirebaseRealtime.FirebaseRealtimeDatabase.GetIssuesByStatus | firebase_realtime_database.py:234-255 | exactly the issues with the status, each as often as stored, newest first |
| FirebaseRealtime.FirebaseRealtimeDatabase.IssuesWhere | firebase_realtime_database.py:152-173 | the shared loop keeps exactly the matching issues, newest first |
| FirebaseRealtime.FirebaseRealtimeDatabase.GetAllIssues | firebase_realtime_database.py:175-195 | every issue with its id, newest first |
| FirebaseRealtime.FirebaseRealtimeDatabase.GetIssueById | firebase_realtime_database.py:197-212 | the stored non-empty issue under the id, with its id |
| FirebaseRealtime.FirebaseRealtimeDatabase.UpdateIssueStatus | firebase_realtime_database.py:214-232 | patches status, time and a truthy response, creating a missing issue; an existing issue ends as `IssueUpdated` |
| FirebaseRealtime.FirebaseRealtimeDatabase.DeleteIssue | firebase_realtime_database.py:257-267 | the issue is gone and every other issue reads as before |
| FirebaseRealtime.FirebaseRealtimeDatabase.GetUserCountByRole | firebase_realtime_database.py:270-284 | users per role; the counts add up to the number of users |
| FirebaseRealtime.FirebaseRealtimeDatabase.GetIssueCountByStatus | firebase_realtime_database.py:286-300 | issues per status; the counts add up to the number of issues |
| AppRoutes.Session.constructor | app_firebase_fixed.py:23-41 | a new session has no username |
| AppRoutes.Configured | app_firebase_fixed.py:73 | `get_setting(path) or default`: the setting when truthy, the default otherwise |
| AppRoutes.DottedPath | app_firebase_fixed.py:83 | a dotted settings path of two dot-free keys splits back into them |
| AppRoutes.ConfiguredSetting | app_firebase_fixed.py:117 | reading a dotted setting with a default answers `Configured` of the stored settings |
| AppRoutes.SessionUserOf | app_firebase_fixed.py:23-33 | no username or no such user gives no user; a found user without a role raises KeyError; otherwise that user's id and role |
| AppRoutes.LoadLoggedInUser | app_firebase_fixed.py:23-41 | loads the session user; a stored settings value that is not a dict raises; the stored settings are never changed |
| AppRoutes.Login | app_firebase_fixed.py:129-150 | the session gets the username exactly when the password verifies; an unknown user and a wrong password get the same answer |
| AppRoutes.Logout | app_firebase_fixed.py:152-156 | the session forgets the user |
| AppRoutes.UnverifiedStudentLogsIn | app_firebase_fixed.py:129-150 | a newly created student, with no `email_verified` field, logs in at once |
| AppRoutes.Normalise | app_firebase_fixed.py:53-65 | username and e-mail stripped and lower-case, student id stripped and upper-case, names stripped, the rest as submitted |
| AppRoutes.NormaliseIdempotent | app_firebase_fixed.py:53-65 | normalising a normalised form changes nothing |
| AppRoutes.Validate | app_firebase_fixed.py:68-90 | each message holds exactly when its check is the first to fail, in the handler's order; a non-string domain or non-integer minimum raises TypeError |
| AppRoutes.DefaultRegistrationSettings | firebase_simple.py:399-404 | the defaults name the `@ktu.edu.gh` domain and a minimum of 8 |
| AppRoutes.PassedRegistration | app_firebase_fixed.py:68-90 | a passing form has an e-mail in the configured domain, a password of the configured length and a gender of M or F |
| AppRoutes.DefaultRegistrationRules | app_firebase_fixed.py:73-90 | with the defaults, a passing form has an `@ktu.edu.gh` e-mail and a password of at least 8 characters |
| AppRoutes.RegistrationExtra | app_firebase_fixed.py:93-102 | the student id and e-mail passed to `create_user` are the cleaned ones |
| AppRoutes.CheckRegistration | app_firebase_fixed.py:68-90 | the checks read the stored settings (or the defaults) |
| AppRoutes.Register | app_firebase_fixed.py:49-127 | a failed or raising check writes nothing; a user is added only after every check passes, and a code only for that user |
| AppRoutes.Enrol | app_firebase_fixed.py:105-124 | a refusal writes nothing; success appends the student and a code for that student and redirects to verification when mailed, to login otherwise |
| AppRoutes.SendVerification | app_firebase_fixed.py:107-122 | the code is appended for the new user under a fresh key, then the redirect follows whether the e-mail went out |
| AppRoutes.Registered | app_firebase_fixed.py:116-122 | a mailed code redirects to `verify_email` with the configured success message; otherwise to login with a warning |
| AppRoutes.MarkedVerified | app_firebase_fixed.py:230-236 | the user becomes verified at `now`; every other field is kept |
| AppRoutes.VerifyEmail | app_firebase_fixed.py:212-251 | any matching code is consumed; the user is marked verified exactly when the code belongs to the user in the link |
| AppRoutes.MarkEmailVerified | app_firebase_fixed.py:224-241 | a user found by id is stored with `email_verified` set and the reply goes to login with the configured success message; an unknown id writes nothing and renders `User not found.` |
| AppRoutes.ResetFormError | app_firebase_fixed.py:262-275 | the form passes exactly when both passwords agree and have at least 8 characters |
| AppRoutes.ResetPassword | app_firebase_fixed.py:253-288 | an invalid token or a bad form writes nothing; success stores the user as `reset_user_password` writes it (new hash in `password`, reset time) and marks the token used |
| AppRoutes.ApplyReset | app_firebase_fixed.py:277-286 | an unknown user id writes nothing and renders the failure; otherwise the user is stored as `reset_user_password` writes it and then the token is marked used |
| AppRoutes.ResetCompletes | app_firebase_fixed.py:253-288 | after a reset the hash that decides the login is the user's old `password_hash` when it had one, else the new hash; the token no longer opens that reset |
| AppRoutes.ChangePassword | app_firebase_fixed.py:420-453 | the store changes only when the current password verifies and the new ones agree, and then by exactly the `update_user_password` write |
| AppRoutes.ShortPasswordRefusedByResetAndRegister | app_firebase_fixed.py:83-86 | a password under 8 characters fails reset and, with the default settings, registration |
| AppRoutes.DashboardFor | app_firebase_fixed.py:290-329 | the admin view exactly for `supaadmin` and `subadmin`, the login page exactly for no user |
| AppRoutes.StaffPage | app_firebase_fixed.py:397-410 | `list_users` and `statistics` render exactly for `admin` and `subadmin` |
| AppRoutes.ViewIssueReply | app_firebase_fixed.py:358-378 | renders exactly for staff or the issue's owner; a missing `student_id` raises KeyError |
| AppRoutes.ViewIssue | app_firebase_fixed.py:358-378 | answers as `ViewIssueReply` for the stored issue |
| AppRoutes.UpdateIssue | app_firebase_fixed.py:380-395 | non-staff change nothing; staff update exactly that issue as `IssueUpdated` says |
| AppRoutes.SupaadminSeesIssuesButCannotOpenThem | app_firebase_fixed.py:295 | a `supaadmin` gets the admin dashboard yet may not open another student's issue |
| AppRoutes.LegacyAdminGetsStudentDashboard | app_firebase_fixed.py:369 | a legacy `admin` gets the student dashboard yet may open any issue |
| AdminRoutes.GatesSplitTheRoles | admin_routes.py:12-14 | both admin roles see the dashboard; only `subadmin` manages issues; only `supaadmin` manages accounts and settings; others reach nothing |
| AdminRoutes.AnnotatedPrefixMeaning | admin_routes.py:16-22 | each row is its issue with the student's username or `Unknown`; a KeyError on any row escapes |
| AdminRoutes.AdminDashboard | admin_routes.py:7-24 | others go to login; admins get every issue, newest first, each annotated |
| AdminRoutes.SubadminExtra | admin_routes.py:46-51 | the new sub-admin's e-mail is the stripped one; no student id |
| AdminRoutes.SubadminAccount | admin_routes.py:26-59 | the stored sub-admin has role `subadmin`, a clean lower-case username, an `@ktu.edu.gh` e-mail and exactly the submitted password |
| AdminRoutes.CreateSubadmin | admin_routes.py:26-59 | only a `supaadmin`; a non-institutional e-mail or a refusal writes nothing; success appends exactly the sub-admin |
| AdminRoutes.ResolveIssue | admin_routes.py:61-78 | only a `subadmin`; exactly that issue is updated; a missing one changes nothing |
| AdminRoutes.AdminDeleteIssue | admin_routes.py:80-99 | only a `subadmin`; the issue is kept, marked `deleted` with the admin's response; a missing one changes nothing |
| AdminRoutes.SoftDeleteKeepsIssue | admin_routes.py:80-99 | a soft delete keeps every id, leaves the issue readable as `deleted` for the same student and touches no other issue |
| AdminRoutes.ChangeOwnPassword | admin_routes.py:111-127 | the store changes only when the password is non-empty and confirmed, and no error means the user exists and the `update_user_password` write happened |
| AdminRoutes.AdminSettings | admin_routes.py:101-129 | only a `supaadmin`; users change only by the confirmed `update_user_password` write for that admin |
| AdminRoutes.SubadminSettings | admin_routes.py:131-159 | only a `subadmin`; users change only by the confirmed `update_user_password` write for that sub-admin |
| AdminRoutes.OwnPasswordReplacedCorrected | admin_routes.py:141-157 | with the intended transform, after the change exactly the new password checks for that user |
| AdminRoutes.SystemSettings | admin_routes.py:161-169 | the page renders exactly for a `supaadmin` |

## Left out

- Sending mail (the notifier and SMTP), rendering templates, and the
  template data such as `parse_datetime` are not modelled. A handler's
  answer is the template or endpoint and the flashed message.
- `register` in the source calls the notifier after storing the code.
  Whether the mail went out is the parameter `mailed`.
- HTTP is not modelled. `_make_request` is reduced to the store reached
  or not (`online`). A reached store is assumed to answer every request
  of one handler; a store that fails midway is not modelled.
- JSON file I/O of the mock (`load_data` and `save_data`) is not
  modelled: the constructor starts from no saved file. Concurrency
  between requests is not modelled either.
- Hashing is idealised: a hash checks against its password and no other.
- The clock is an integer `now`. ISO timestamps compare as integers.
  `expires_at` is compared to `now` as the source compares the parsed
  times.
- Random draws (the code, the token characters) are parameters.
- Store keys (push keys, uuid4) are not random: the model takes a key
  longer than every stored one. Only its freshness is relied on.
- Python's mixed-kind sorting raises TypeError. The model orders values
  by kind instead (null, bool, string, int, hash, dict), so a missing
  `created_at` (`''`) sorts as the oldest.
- A field the source reads with `[]` where the stored data always has it
  is read as Null. The places where a missing field does raise are
  modelled: `view_issue`, the admin dashboard, `verify_password` of the
  realtime store and the role in `load_logged_in_user`.
- AdminRoutes.AdminDashboard: when an issue's `student_id` is not a
  string, the model shows `Unknown`. The source formats it into the
  request path and reads whatever that path returns.
- AdminRoutes.AdminDashboard: a KeyError promises only that the reply
  raises, not which exception.
- A missing form field that Flask answers with 400 (`request.form[...]`)
  is not modelled. Form fields read with `.get(..., '')` are `''` when
  absent.
- `forgot_password` as a route is not modelled. Its lookup
  (`find_user_for_reset`), token creation and the reset itself are.
- `submit_issue`, `profile`, and the data `list_users` and `statistics`
  render are not modelled. Their gates and the store calls they make
  (`create_issue`, the counts, `get_all_users`) are.
- The dashboard's statistics are not modelled. Its role decision is.
- The exception handlers of `FirebaseRealtimeDatabase` (an exception
  from pyrebase becomes an error message) are not modelled: calls on a
  connection always succeed.
- The mock query's operators other than `==` pass every document, as in
  the source. Comparing values of different kinds when sorting is
  modelled by kind order (see above).
- Strings.Strip, Strings.Lower, Strings.Upper, AppRoutes.Normalise:
  ASCII only. Python's `strip` also removes Unicode white space, and
  `lower`/`upper` map non-ASCII letters; the model leaves every
  character outside ASCII as it is.
- FirebaseMock.MockCollection.Add, FirebaseMock.MockDocument.Set,
  FirebaseMock.MockDocument.Update, FirebaseMock.Snapshot.ToDict: no
  aliasing. The source stores the caller's dict itself, `update`
  changes the stored dict in place, and `to_dict` returns the stored
  object, so a caller's later change to that dict shows in the store.
  The model copies values.
- FirebaseMock.MockFirestore.constructor, FirebaseMock.MockCollection.Add: the
  source keeps the counters as the `counters` entry of `data`, so a
  collection named `counters` would collide with them. The model keeps
  `counters` as a field of its own.
- FirebaseMock.Passes, FirebaseMock.QueryMatchesFilter,
  FirebaseMock.QueryFindsAllMatches: the `==` filter compares values as
  equal only when they are the same value of the same kind. Python's
  `==` also treats `True` as `1` and `False` as `0`.
- Settings.PyIn, Settings.RemoveChild: a password hash stored in the
  settings tree counts as a node that is neither a dict nor a string.
  The settings pages never store one.
- firebase_database.py, the other application variants (app.py,
  app_firebase.py, app_firebase_simple.py) and the migration and
  diagnostic scripts are not part of this model.

## Findings

| source | as written | input that shows it | evidently intended | confidence | as-written member | corrected member |
|---|---|---|---|---|---|---|
| firebase_simple.py:155, firebase_simple.py:258 (read at firebase_simple.py:61) | `update_user_password` and `reset_user_password` store the new hash in `password`, but `verify_password` reads `password_hash` first, and every user made by `create_user` has one | create user `u` with password `a`, then update it to `b`: logging in with `b` fails and `a` still works | the new hash replaces `password_hash`, so the new password logs in | not executed | FirebaseSimple.AsWrittenKeepsOldPassword | FirebaseSimple.PasswordCorrected |

The store methods and the routes follow the code as written:
`update_user_password` and `reset_user_password` apply
`PasswordAsWritten` and `PasswordResetAsWritten`. Their effect on login
is stated by `PasswordWrittenLogin` and `ResetWrittenLogin`, and, for a
user made by `create_user`, by `UpdateKeepsCreatedPassword` and
`ResetKeepsCreatedPassword`. `change_password`, `reset_password` and the
two settings pages write the users exactly as those methods do. The
intended transform is modelled beside them, unused by the routes:
`PasswordCorrected`, `CorrectedWritten`, `CorrectedAtLogsIn` and
`AdminRoutes.OwnPasswordReplacedCorrected`.
