# monastery360 local data layer, modelled in Dafny

monastery360 is a browser application for Sikkim's monasteries: virtual tours, a digital archive, a festival calendar and an admin dashboard. Everything it keeps lives in the browser's per-origin key-value store as JSON text under a few keys. The keys are `monasteries`, `archives`, `calendarEvents`, `monastery360Users`, `adminActivities`, `analytics` and `currentUser`.

This project models the data layer that works on that store and proves properties of it:

- **Admin repository** (`assets/admin.js`):
  - add, update and delete by id over the collections;
  - user role changes and deactivation;
  - the activity log: newest first, at most 100 entries;
  - the analytics snapshot, built from counting folds;
  - backup and restore.
- **Authentication** (`assets/auth.js`):
  - the role predicates and the provider error-code table;
  - the registration validator and its email pattern;
  - local email/password login and registration;
  - demo-user seeding;
  - reconciliation of an external identity with the local user collection: find by uid, else by case-insensitive email, else create; backfill a found profile.
- **Page script** (`assets/app.js`):
  - the user's initials;
  - the choice between an external content bundle and built-in mock data;
  - the never-throwing store wrappers;
  - the cross-tab session rule;
  - the calendar's fallback events;
  - the tour gallery's photo list.

## Layout

| file | module | what it holds |
|---|---|---|
| `js.dfy` | `Js` | JSON values; records as maps, where object spread is right-biased map union; truthiness; `undefined` as `None`; `String(v)`; `find`/`findIndex`/`filter` |
| `text.dfy` | `Text` | `trim` with JavaScript's white-space set; ASCII case mapping; `split`/`join` on one character; decimal rendering |
| `storage.dfy` | `Storage` | the raw store adapter (`getFromLocalStorage`/`saveToLocalStorage`): each key holds empty text, unparseable text or an encoded value, and the browser may refuse a write |
| `store.dfy` | `LocalStore` | the parsed store that the repositories read and write: one field per key in the class `Store`, with `State` as its value |
| `admin.dfy` | `Admin` | the admin repository, activity log, roles, backup and restore |
| `analytics.dfy` | `Analytics` | `generateAnalytics` |
| `auth.dfy` | `Auth` | roles, error table, validation, local login and registration, demo users |
| `reconcile.dfy` | `Reconcile` | `ensureLocalProfileForFirebaseUser`, `createLocalProfileFromFirebaseUser` and the auth-state listener |
| `app.dfy` | `App` | the page script's rules; the page's globals are the class `Page` |

**Flavour.** Each operation takes the form the source gives it:

- Operations that read the store, change a copy step by step and write it back are methods on `Store`, `BrowserStorage` or `Page`. Each is proved against a function of the old state.
- Expression-shaped code is written as functions.
- The clock, `Date.now()`, the session user and the browser's acceptance of a write are inputs to the model.
- `getCurrentUser().id` with no session throws a `TypeError` in the source. The model returns it as `Err(NoSession)`, and the store is left exactly as it was, because in every such case the exception comes before the first write.

**Where the code and its design notes disagree, the model follows the code:**

- The activity entry stores the session user as read, which is `null` when there is none. There is no "system" placeholder.
- A found profile is backfilled whether it was found by uid or by email.
- A new profile falls back to the email's local part whenever no first name came out of the given names or the display name.

## Model

| member | source | states |
|---|---|---|
| `Admin.ActivityEntry` | assets/admin.js:340-347 | an entry carries id `activity_<millis>`, the type, the description, the caller's details, the session user (or null) and the ISO timestamp |
| `Admin.Logged` | assets/admin.js:349-354 | after logging, the new entry is at index 0, the old entries follow in order, and the length is min(old + 1, 100) |
| `Admin.LogKeepsNewest` | assets/admin.js:338-357 | logging n entries in turn leaves the newest min(n + old, 100) entries of (entries reversed) ++ old log |
| `Admin.LogBoundedAfterMany` | assets/admin.js:351-354 | after at least 100 entries the log holds exactly the last 100, newest first |
| `Admin.LogActivity` | assets/admin.js:338-357 | `logActivity` changes only the activity log, and changes it as `Logged` says |
| `Admin.NewRecord` | assets/admin.js:213-218 | a new record's id is the caller's `id` if given, else prefix + millis; `createdAt`/`createdBy` always win; every other field is the caller's |
| `Admin.Merged` | assets/admin.js:234-239 | an update keeps old fields, overridden by the patch, overridden by `updatedAt`/`updatedBy` |
| `Admin.RepeatedUpdateChangesOnlyLog` | assets/admin.js:229-248 | repeating an update at the same instant finds the same record again iff the patch keeps its id, and then leaves the collection as the first update made it, so the second call changes only the activity log |
| `Admin.StampedIdsDiffer` | assets/admin.js:213-218 | two records added without an id of their own at different milliseconds get different ids |
| `Admin.EntryIdsDiffer` | assets/admin.js:340-341 | two activity entries made at different milliseconds get different ids |
| `Admin.WithoutIdRemovesAll` | assets/admin.js:255 | after the filter no record has the id; the collection shrinks iff some record had it, by exactly the number that had it |
| `Admin.WithoutIdCount` | assets/admin.js:255 | the filtered collection is shorter by the number of records carrying the id |
| `Admin.DeleteUndoesAdd` | assets/admin.js:255 | deleting the id of a record just appended (when no other record had it) gives back the collection from before the add |
| `Admin.AddMonastery` | assets/admin.js:211-227 | appends exactly one new record at the end and logs "Added <name>"; with no session it throws and writes nothing |
| `Admin.UpdateMonastery` | assets/admin.js:229-248 | unknown id: null and no write at all; known id: only the first matching index changes, to the merged record, and one entry is logged |
| `Admin.DeleteMonastery` | assets/admin.js:250-262 | returns true iff some record has the id; then every record with it is gone, the rest keep their order, and "Deleted <name of the first>" is logged; false writes nothing |
| `Admin.AddArchive` | assets/admin.js:265-280 | as `AddMonastery` on `archives`, with prefix `archive_` and "Added archive: <title>" |
| `Admin.AddEvent` | assets/admin.js:283-298 | as `AddMonastery` on `calendarEvents`, with prefix `event_` and "Added event: <title>" |
| `Admin.WithRole` | assets/admin.js:306-308 | only `role` and `updatedAt` of the user change |
| `Admin.Deactivated` | assets/admin.js:324-326 | only `active := false`, `deactivatedAt` and `deactivatedBy` change |
| `Admin.UpdateUserRole` | assets/admin.js:301-317 | unknown id: null, no write; otherwise only the first user with the id changes, and the old and new roles are logged |
| `Admin.DeactivateUser` | assets/admin.js:319-335 | unknown id: null, no write; otherwise only the first user with the id is deactivated and logged; with no session it throws before anything is saved |
| `Admin.AdminRolesHaveOwnNames` | assets/admin.js:38-46 | every admin role has its own display name, and none of them is the fallback "Admin" |
| `Admin.BackupRestoreRoundTrip` | assets/admin.js:409-417 | a backup document passes the restore check, and restoring it gives back every backed-up collection exactly |
| `Admin.AbsentKeysUntouched` | assets/admin.js:442-447 | a collection whose key is missing from the document is left as it was, and so is the session |
| `Admin.BackupData` | assets/admin.js:408-428 | the document holds the six collections and the date, and the only change to the store is one `data_backup` entry |
| `Admin.SavePresent` | assets/admin.js:442-447 | each collection the document holds (a truthy value) is replaced wholesale, and the others are untouched |
| `Admin.RestoreData` | assets/admin.js:430-465 | succeeds iff the text parses and has a truthy `backupDate`; text that does not parse, or a missing or falsy `backupDate`, writes nothing, not even a log entry; on success the collections are replaced and one `data_restore` entry is logged |
| `Admin.RestoreAfterBackup` | assets/admin.js:409-449 | restoring a backup gives back every collection, and the log with one restore entry in front |
| `Analytics.Bump` | assets/admin.js:370 | one reduce step adds one to the key's count and one to the total; it either keeps the tally's length or appends exactly the new key with count 1, and entries for other keys stay as they were |
| `Analytics.BumpCounts` | assets/admin.js:369-372 | one step of the fold adds one to the key's count and to the total, and keeps keys distinct |
| `Analytics.TallyFromCounts` | assets/admin.js:369-372 | the fold adds each key's number of occurrences to its count and the number of keys to the total |
| `Analytics.TallyOfCounts` | assets/admin.js:386-389 | a tally from empty counts every key exactly as often as it occurs, and its counts sum to the number of records |
| `Analytics.KeysOf` | assets/admin.js:370 | the property key is `String(record.field)` for each record, in order |
| `Analytics.Plus` | assets/admin.js:390 | JavaScript `+` stays numeric only while both sides are numbers, booleans or null; otherwise it becomes text |
| `Analytics.DownloadsFrom` | assets/admin.js:390 | the running sum is always a number or a string |
| `Analytics.DownloadsAreSummed` | assets/admin.js:390 | when every `downloads` is a number, boolean, null or missing, the reduce is the arithmetic sum, with missing counted as 0 |
| `Analytics.DownloadsSummedWhenNumeric` | assets/admin.js:390 | starting from 0, such archives give `Num(sum)` |
| `Analytics.TextSumStaysText` | assets/admin.js:390 | once the sum is text it stays text and only grows |
| `Analytics.CountTruthy` | assets/admin.js:381-382 | a truthy-field count never exceeds the number of records |
| `Analytics.CountWhen` | assets/admin.js:373-377 | a window count never exceeds the number of records |
| `Analytics.Compute` | assets/admin.js:366-401 | totals equal collection sizes; each key occurs once in `byRole` and in `byType`, and their counts are the multiplicities of each key and sum to the totals; filtered counts are at most their totals; `totalDownloads` is the sum when numeric |
| `Analytics.EmptyStoreGivesZeros` | assets/admin.js:366-401 | empty collections give all-zero statistics and empty breakdowns |
| `Analytics.TallyObject` | assets/admin.js:369-372 | the breakdown object maps each counted key to its count |
| `Analytics.GenerateAnalytics` | assets/admin.js:360-405 | returns the snapshot of the current collections and changes only `analytics` |
| `Auth.TouristIsNotAdmin` | assets/auth.js:421-424 | `tourist`, a missing role and null are not admin roles |
| `Auth.RoleChecksAgree` | assets/auth.js:505-513 | `hasRole(r)` iff `hasAnyRole([r])`; widening the list keeps a pass; no session passes neither |
| `Auth.AdminSessionIsHasAnyRole` | assets/auth.js:510-513 | `isAdminRole(user.role)` iff `hasAnyRole` of the four admin roles |
| `Auth.ParseAuthError` | assets/auth.js:368-384 | a falsy code gives the generic message; a known code gives its table message; an unknown code gives "Authentication error: " + `String(code)` |
| `Auth.UnknownCodesEchoed` | assets/auth.js:383 | unknown codes are echoed: two give the same message iff their strings are equal |
| `Auth.ValidEmailMatches` | assets/auth.js:416-419 | every address the check accepts has the form of `^[^\s@]+@[^\s@]+\.[^\s@]+$` |
| `Auth.PatternIsValid` | assets/auth.js:416-419 | every address of that form is accepted |
| `Auth.IsValidEmailMatchesPattern` | assets/auth.js:416-419 | the executable check accepts exactly the strings the regular expression matches |
| `Auth.JoinedRunsAreValid` | assets/auth.js:417 | non-space, `@`-free runs joined as a@b.c are always accepted |
| `Auth.ValidateRegistration` | assets/auth.js:387-414 | the form passes iff all fields are filled, the email is valid, the password has at least 6 characters and matches the confirmation, and a role is set |
| `Auth.ValidationOrder` | assets/auth.js:387-414 | each message is reported exactly when all earlier checks pass and its own fails |
| `Auth.Login` | assets/auth.js:65-125 | an empty email or password is refused without a lookup; otherwise succeeds iff some user has exactly this email and password, and the first such user becomes the session; any failure writes nothing and says only "Invalid email or password" or the fill-in message |
| `Auth.NewUser` | assets/auth.js:255-266 | the new user has the form's credentials, id `user_<millis>`, and role defaulting to `tourist` |
| `Auth.Register` | assets/auth.js:246-271 | an invalid form or an exactly-equal existing email writes nothing; otherwise exactly one user is appended and becomes the session |
| `Auth.RegisterThenLogin` | assets/auth.js:108 | right after registering, logging in with the same email and password finds the new user |
| `Auth.NoSecondAccount` | assets/auth.js:249 | after registering, a second registration with the same email is refused |
| `Auth.SeedDemoUsers` | assets/auth.js:533-568 | a non-empty collection is kept as it is; an empty one gets three records, which `Auth.EmptyCollectionGetsDemoAccounts` shows are the demo accounts |
| `Auth.EmptyCollectionGetsDemoAccounts` | assets/auth.js:536-567 | an empty collection gets the three demo accounts: each logs in with its password at its place, the first two are admins and the third is not |
| `Auth.SeedIdempotent` | assets/auth.js:536 | seeding twice has the same effect as seeding once |
| `Auth.DemoAccountsLogIn` | assets/auth.js:537-565 | each demo account logs in with its password; the first two are admins and the third is not |
| `Auth.InitializeDemoUsers` | assets/auth.js:533-569 | only the user collection changes, and only as the seeding says |
| `Reconcile.FindProfile` | assets/auth.js:296-300 | the profile found is the first with the uid; only when none has it, the first with the case-insensitive email; none iff nothing matches |
| `Reconcile.FirstWordOfTrimmed` | assets/auth.js:343-345 | a trimmed non-blank display name has a non-empty first word |
| `Reconcile.NewNamesChain` | assets/auth.js:340-350 | first name: the given one, else the first word of the trimmed display name, else the email's local part; last name: the given one, else the remaining words |
| `Reconcile.ProfileRecord` | assets/auth.js:352-361 | the new profile literal has `id` = `uid` and each listed field |
| `Reconcile.CreateProfileFields` | assets/auth.js:338-366 | a created profile has `id` = `uid` = the external uid, the first-name chain ending in "User", the last name, role defaulting to `tourist` and provider to `password` |
| `Reconcile.CreatedProfileMatches` | assets/auth.js:353-354 | a profile created for a non-empty uid matches that uid and has a non-empty first name |
| `Reconcile.BackfillKeepsFields` | assets/auth.js:309-323 | a backfill never overwrites a truthy uid, first or last name, and touches no other field; a missing uid becomes the external uid |
| `Reconcile.BackfillFlagsChange` | assets/auth.js:309-331 | the profile is saved only when it changed: no flag means the same profile, and with a uid the flag is set iff the profile changed |
| `Reconcile.BackfillSettles` | assets/auth.js:309-323 | a backfilled profile needs no second backfill |
| `Reconcile.CreatedNeedsNoBackfill` | assets/auth.js:338-366 | a profile created for an identity with a uid, with no given last name, needs no backfill |
| `Reconcile.Reconciled` | assets/auth.js:291-336 | the reconciliation corrected as in Findings rows 1 and 2 (write-back at the found index, trimmed split): nothing matches: one profile is appended; otherwise the found profile is backfilled in place and returned |
| `Reconcile.ReconcileChangesOnlyTheMatch` | assets/auth.js:302-331 | the count grows by one exactly when nothing matched; otherwise every other record is unchanged |
| `Reconcile.ReconcileKeepsFields` | assets/auth.js:309-323 | the found record keeps its non-empty uid and names |
| `Reconcile.FoundAgain` | assets/auth.js:296-306 | for an identity with a uid, after reconciliation the same identity finds the created profile (at the end) or the backfilled one (at its old index) |
| `Reconcile.ReconcileIdempotent` | assets/auth.js:291-336 | for an identity with a uid, reconciling again, at any later time, changes nothing and returns the same profile |
| `Reconcile.ReconciledAsWritten` | assets/auth.js:326-330 | the source's write-back, to the first index that matches the uid or the email (see Findings) |
| `Reconcile.AsWrittenFoundAgain` | assets/auth.js:291-336 | the code as written adds a record exactly when nothing matched, and afterwards the identity (with a uid) finds a profile |
| `Reconcile.AsWrittenNoSecondRecord` | assets/auth.js:291-336 | calling the code as written again for the same identity never adds a record |
| `Reconcile.WriteBackClobbersEarlierRecord` | assets/auth.js:326-330 | with an email match before the uid match, the code as written overwrites the earlier record; the corrected version does not |
| `Reconcile.BackfillAsWritten` | assets/auth.js:314-315 | the source's backfill, which splits the display name without trimming it (see Findings) |
| `Reconcile.UntrimmedSplitRewritesProfile` | assets/auth.js:314-315 | for the display name " J", a second call of the code as written rewrites the profile just created |
| `Reconcile.UntrimmedSplitRewrites` | assets/auth.js:314-315 | for any one-character word behind one leading space, the code as written creates the profile with an empty last name and the next call rewrites it with the word |
| `Reconcile.FillIn` | assets/auth.js:309-323 | the three guarded assignments, run in order, give exactly the profile and `updated` flag of the backfill function: a missing uid, then (with a non-blank name) an empty first name and an empty last name are filled |
| `Reconcile.CreateLocalProfile` | assets/auth.js:338-366 | appends exactly the created profile and changes nothing else |
| `Reconcile.EnsureLocalProfile` | assets/auth.js:291-336 | the step-by-step reconciliation, corrected as in Findings rows 1 and 2, with its `updated` flag, ends in the state `Reconciled` describes |
| `Reconcile.OnAuthStateChanged` | assets/auth.js:23-33 | a signed-in identity is reconciled (corrected as in Findings rows 1 and 2) and its profile becomes the session; sign-out clears the session and keeps the users |
| `Storage.ReadAfterWrite` | assets/app.js:712-730 | a saved value is read back as saved, and other keys read as before |
| `Storage.ReadDefault` | assets/app.js:722-730 | the default when the key is absent, empty or unparseable, the stored value otherwise |
| `Storage.BrowserStorage.GetFromLocalStorage` | assets/app.js:722-730 | returns the parsed value, or the default; it never throws and never writes |
| `Storage.BrowserStorage.SaveToLocalStorage` | assets/app.js:712-720 | returns true iff the browser took the write; false leaves the store unchanged |
| `App.UserInitials` | assets/app.js:477-484 | `U` without a user; otherwise one or two characters, two iff the trimmed last name is non-empty |
| `App.InitialsUpperCase` | assets/app.js:481-482 | no lower-case letter is left in the initials |
| `App.InitialsOfFullName` | assets/app.js:477-484 | names starting with a non-space character give their upper-cased first letters |
| `App.InitialsOfFirstName` | assets/app.js:479-482 | a first name with text in it, leading white space or not, gives the upper-cased first letter of its trimmed form; with no last name that letter is all |
| `App.InitialsFallBack` | assets/app.js:481 | without a first name, the email's upper-cased first letter stands in, and without an email `U` |
| `App.ContentListChoice` | assets/app.js:139-145 | the bundle's list is used iff it is a non-empty array; otherwise the mocks are, so the page list is never empty while the mocks are not |
| `App.CopyBundleWrites` | assets/app.js:147-152 | only `archives` and `calendarEvents` can change, each only when the bundle has an array for it, and then to that array |
| `App.EventMatchesRead` | assets/app.js:9-18 | the session a `storage` event yields equals what `getFromLocalStorage('currentUser', null)` would read after that change |
| `App.Page.OnStorage` | assets/app.js:9-18 | only an event for `currentUser` changes the session; a removed, empty or unparseable value gives null |
| `App.Page.InitializeApp` | assets/app.js:137-162 | a truthy bundle supplies the lists by the choice rule and copies its arrays into the store; otherwise the mocks are used and the store is untouched; a stored session is adopted, and unparseable text gives null |
| `App.CalendarFallback` | assets/app.js:647-652 | with no stored key the four built-in events are shown; whatever else is shown is the stored value, which then was parsed and is truthy |
| `App.StoredEventsShown` | assets/app.js:647 | stored events are shown as they are, even an empty list, which is truthy |
| `App.FindById` | assets/app.js:318 | `find` returns the first member with the id, or none iff no member has it |
| `App.FirstOfSharedId` | assets/app.js:318 | of two members sharing an id, the earlier one is found |
| `App.PhotosOf` | assets/app.js:335 | at most 8 photos, the monastery's in order; the tour's image when the monastery is unknown or has none |
| `App.MonasteryOf` | assets/app.js:318 | the monastery found is the first whose `id` is the tour's `monasteryId`, a missing one matching only a monastery with no `id`; none iff no monastery has it |
| `App.MonasteryOfUnlinkedTour` | assets/app.js:318 | a tour without `monasteryId` gets the first monastery that has no `id` |
| `App.NullIdIsNotMissing` | assets/app.js:318 | a monastery whose `id` is `null` is not taken for a tour without `monasteryId`, and the gallery then shows the tour's own image |
| `App.TourGalleryAsWritten` | assets/app.js:318-320 | the source's lookup, which dereferences the tour before its guard: an unknown tour id throws whenever there is a monastery for the `find` callback to test, and returns quietly when there is none (see Findings) |
| `App.UnknownTourThrows` | assets/app.js:318-320 | for an unknown tour id with a monastery loaded, the code as written throws and the guarded version shows nothing; with no monasteries the code as written returns |
| `App.TourGallery` | assets/app.js:318-335 | the guarded gallery, which returns before the monastery lookup |
| `App.GalleryGuarded` | assets/app.js:318-335 | the guarded gallery shows nothing iff no tour has the id; with monasteries loaded that is exactly when the code as written throws, and with none, or for a known tour, the two agree; a shown gallery has at most eight photos |

## Left out

- DOM rendering, notifications, redirects, timers (`setTimeout`, `debounce`) and scroll effects: presentation only.
- The external identity provider's calls (sign-in, sign-up, social popups, `onAuthStateChanged` itself): foreign and asynchronous. Only what happens to the store once they return is modelled (`Reconcile.OnAuthStateChanged`). The provider branches of `handleLogin`/`handleRegistration` are left out for the same reason.
- Blob, URL, FileReader and the download link in `backupData`/`restoreData`: I/O. Reading the backup file is an input, `Option<Backup>`, where `None` is text that does not parse.
- JSON text itself: parsing is modelled as a partial function, with cells that are `Blank`, `Garbled` or `Encoded(v)`. Serialisation is modelled as the value it encodes.
- `Date` arithmetic: the ISO text and `Date.now()` are given together as one `Clock` per operation. The month and week windows of `generateAnalytics` are predicates given as inputs, and only bounded by their totals.
- Floating point: JSON numbers are integers here, so the float fields (`lat`/`lng`, `distanceKm`) and float `downloads` are not modelled. Integers are unbounded, whereas JavaScript numbers lose precision above 2^53 and `String(n)` switches to exponent notation from 1e21; this affects `Js.Render`, `Analytics.Plus` and `Analytics.DownloadsFrom` only at sizes the data layer does not reach (millisecond stamps are about 1.7e12).
- Case mapping is ASCII only, so `toLowerCase`/`toUpperCase` of non-ASCII letters is not modelled. This affects `App.UserInitials` and `Reconcile.EmailMatch` on such letters.
- Property names inherited from `Object.prototype`: the role-name and error-code tables are lookups on a fixed set of keys. A role such as `constructor` would find an inherited member in JavaScript.
- Analytics.Compute: the `byRole` and `byType` breakdowns are counted as if every key were an own property, and so are `Analytics.TallyObject` and `Analytics.TallyOfCounts`. In JavaScript the accumulator `{}` inherits from `Object.prototype`: a role or type `constructor` is counted as text (the inherited function plus 1), and `__proto__` is not stored at all, so for such keys the counts are not the multiplicities and do not sum to the total.
- Non-string name and email fields: the model reads a non-string field as missing, where JavaScript may throw. In `App.FirstInitial` (through `App.UserInitials`), a truthy non-string `firstName` makes `.trim()` throw, and a numeric `email` makes `email[0].toUpperCase()` throw, since `email[0]` is `undefined`. In `Reconcile.EmailMatch` (through `Reconcile.FindProfile` and the write-back search), a truthy non-string `email` on a stored user makes `u.email.toLowerCase()` throw; the model treats it as no match.
- Admin.RestoreData: a backup whose collection is truthy but not an array (for example `"activities": {}` or `5`) is outside the model, and so is `Admin.SavePresent` on it, because the store holds arrays of records. In JavaScript the earlier collections are saved, the non-array is saved too, and for `activities` the log entry then throws on `unshift`, so the restore reports an error after a partial write and logs nothing. A falsy collection (`null`, `0`, `""`, `false`) is read as absent, as the source's `if (data.x)` does.
- Reading the store without a fallback: the repositories' `Store` holds parsed values. In JavaScript only the page's `getFromLocalStorage` and the admin's `getFromLocalStorage` fall back to a default on unparseable text. `auth.js` parses the users with `JSON.parse(localStorage.getItem(...) || '[]')` and no `try`, and both `getCurrentUser` functions parse the session the same way. Unparseable stored text therefore throws in `Auth.Login`, `Auth.Register`, `Auth.InitializeDemoUsers`, `Reconcile.EnsureLocalProfile`, `Reconcile.CreateLocalProfile`, `Reconcile.OnAuthStateChanged`, the role checks and every admin operation that reads the session; the model has no such state.
- Auth.ValidateRegistration: the password length is counted in characters (code points), while `password.length` counts UTF-16 units, so a password of three characters outside the Basic Multilingual Plane (such as emoji) is too short here but passes in JavaScript.
- App.UserInitials: with `App.FirstInitial` and `App.LastInitial`, `firstName[0]` and `lastName[0]` take the first UTF-16 unit, which for a character outside the Basic Multilingual Plane is half a surrogate pair; the model takes the whole first character.
- Non-object items inside collections, bundles and backups: property reads on them are taken as `undefined`. A `null` item would make JavaScript throw.
- `App.FindById`: `===` on objects compares identity in JavaScript, but compares values here.
- `App.PhotosOf`: a truthy `photos` that is not an array throws in JavaScript; the model reports one message (`NotAList`) for every such case.
- The repositories' own writes (`Store`) always succeed. Only the raw adapter (`Storage.BrowserStorage.SaveToLocalStorage`, used by the page script) models a refused write, because the repository code ignores the result.
- Concurrent tabs writing the same key: the code has no coordination, and only the `currentUser` event rule is modelled.
- `updateDashboardStats` and `loadRecentActivity`: they show hard-coded data.
- `assets/content.js`: a data literal. The mock lists are constructor inputs of `App.Page`.
- `isAuthenticated`, `requireAuth`, `requireRole` and `logout`: redirects around the predicates that are modelled.

## Findings

| source | as written | input that shows it | evidently intended | confidence | as-written member | corrected member |
|---|---|---|---|---|---|---|
| assets/auth.js:326-330 | after backfilling, the profile is written to the first index matching the uid OR the email, searched again in the array | users `[{email:"e"}, {uid:"u"}]`, identity uid `u`, email `e`, display name `J`: the profile found by uid is copied over the earlier email-only record, which is lost | write the profile back at the index where it was found | not executed; high | `Reconcile.ReconciledAsWritten`, `Reconcile.WriteBackClobbersEarlierRecord` | `Reconcile.Reconciled`, `Reconcile.ReconcileIdempotent` |
| assets/auth.js:314-315 | the backfill splits the untrimmed display name, while creation (line 344) splits the trimmed one | display name `" J"`: creation gives first name `J` and an empty last name; the next reconciliation sets the last name to `J`, so a second call changes the record | split the trimmed name, as creation does, so reconciliation is idempotent | not executed; medium | `Reconcile.BackfillAsWritten`, `Reconcile.UntrimmedSplitRewritesProfile` | `Reconcile.Backfill`, `Reconcile.BackfillSettles` |
| assets/app.js:318-320 | `openTourModal` reads `tour.monasteryId` on the line before its `if (!tour) return` guard | a tour id not in `virtualTours` while `monasteries` is non-empty (always so after `initializeApp`, whose mocks are non-empty), e.g. a bundle tour with the numeric id `5`, which the card's `onclick` (line 292) passes as the string `'5'`: a `TypeError` is thrown | look up the monastery only after the guard, and return quietly | not executed; high | `App.TourGalleryAsWritten`, `App.UnknownTourThrows` | `App.TourGallery`, `App.GalleryGuarded` |
