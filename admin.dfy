/**
 * The admin repositories of assets/admin.js: add, update and delete by id
 * over the collections of the store, user role changes and deactivation,
 * the bounded activity log every mutation writes to, and backup/restore of
 * the whole store as one document. The current time and the session user
 * are inputs: the clock as a parameter, the session as the store's
 * `currentUser`.
 */
module Admin {
  import opened Js
  import Text
  import opened LocalStore
  import Auth

  /** What V8 reports when `getCurrentUser().id` is read with no session. */
  const NoSession := "Cannot read properties of null (reading 'id')"

  /** The log keeps the 100 most recent entries. */
  const MaxActivities: nat := 100

  // ---------------------------------------------------------------------
  // Activity log
  // ---------------------------------------------------------------------

  /** The record `logActivity(type, description, details)` creates. */
  function ActivityEntry(kind: string, description: string, details: Json,
                         user: Option<Record>, clock: Clock): (a: Record)
    ensures Get(a, "id") == Some(Str("activity_" + Text.Decimal(clock.millis)))
    ensures Get(a, "type") == Some(Str(kind)) && Get(a, "description") == Some(Str(description))
    ensures Get(a, "user") == Some(if user.Some? then Obj(user.value) else Null)
    ensures Get(a, "details") == Some(details)
    ensures Get(a, "timestamp") == Some(Str(clock.iso))
  {
    map["id" := Str("activity_" + Text.Decimal(clock.millis)),
        "type" := Str(kind),
        "description" := Str(description),
        "details" := details,
        "user" := if user.Some? then Obj(user.value) else Null,
        "timestamp" := Str(clock.iso)]
  }

  /** Entries logged at different milliseconds carry different ids. */
  lemma EntryIdsDiffer(kind1: string, description1: string, details1: Json, user1: Option<Record>, c1: Clock,
                       kind2: string, description2: string, details2: Json, user2: Option<Record>, c2: Clock)
    requires c1.millis != c2.millis
    ensures Get(ActivityEntry(kind1, description1, details1, user1, c1), "id")
            != Get(ActivityEntry(kind2, description2, details2, user2, c2), "id")
  {
    PrefixedDecimalsDiffer("activity_", c1.millis, c2.millis);
  }

  /** A fixed prefix followed by the decimal digits of distinct numbers gives distinct texts. */
  lemma PrefixedDecimalsDiffer(prefix: string, m: nat, n: nat)
    requires m != n
    ensures prefix + Text.Decimal(m) != prefix + Text.Decimal(n)
  {
    if prefix + Text.Decimal(m) == prefix + Text.Decimal(n) {
      assert (prefix + Text.Decimal(m))[|prefix|..] == Text.Decimal(m);
      assert (prefix + Text.Decimal(n))[|prefix|..] == Text.Decimal(n);
      Text.DecimalInjective(m, n);
    }
  }

  /**
   * The log after `activities.unshift(entry)` and, when it grew past the
   * bound, `activities.splice(100)`: the new entry first, the previous
   * entries behind it in order, the oldest cut off.
   */
  function Logged(log: seq<Record>, entry: Record): (r: seq<Record>)
    ensures |r| == Min(|log| + 1, MaxActivities)
    ensures r[0] == entry
    ensures forall i :: 0 < i < |r| ==> r[i] == log[i - 1]
  {
    var grown := [entry] + log;
    if |grown| > MaxActivities then grown[..MaxActivities] else grown
  }

  /** The log after one `logActivity` call per entry, in order. */
  function LoggedAll(log: seq<Record>, entries: seq<Record>): seq<Record>
    decreases |entries|
  {
    if entries == [] then log else LoggedAll(Logged(log, entries[0]), entries[1..])
  }

  function Reversed(s: seq<Record>): (r: seq<Record>)
    ensures |r| == |s|
    ensures forall i :: 0 <= i < |s| ==> r[i] == s[|s| - 1 - i]
  {
    if s == [] then [] else Reversed(s[1..]) + [s[0]]
  }

  /**
   * However many entries are logged, the log holds the most recent ones,
   * newest first, and never more than 100 of them.
   */
  lemma {:induction false} LogKeepsNewest(log: seq<Record>, entries: seq<Record>)
    requires |log| <= MaxActivities
    ensures LoggedAll(log, entries)
            == (Reversed(entries) + log)[..Min(|entries| + |log|, MaxActivities)]
    decreases |entries|
  {
    if entries != [] {
      var e, rest := entries[0], entries[1..];
      var l1 := Logged(log, e);
      LogKeepsNewest(l1, rest);
      var x, y := Reversed(rest), [e] + log;
      ReversedStep(entries, log);
      LoggedIsCut(log, e);
      assert Min(|rest| + |l1|, MaxActivities) == Min(|entries| + |log|, MaxActivities);
      PrefixOfTruncated(x, y, Min(|y|, MaxActivities), Min(|entries| + |log|, MaxActivities));
    }
  }

  lemma ReversedStep(entries: seq<Record>, log: seq<Record>)
    requires entries != []
    ensures Reversed(entries) + log == Reversed(entries[1..]) + ([entries[0]] + log)
  {
    var r, e := Reversed(entries[1..]), [entries[0]];
    assert Reversed(entries) == r + e;
    assert (r + e) + log == r + (e + log);
  }

  /** One logged entry: the new entry in front of the old log, cut to the bound. */
  lemma LoggedIsCut(log: seq<Record>, e: Record)
    ensures Logged(log, e) == ([e] + log)[..Min(|log| + 1, MaxActivities)]
  {
  }

  /** Cutting the tail of `y` does not change a prefix of `x + y` that does not reach the cut. */
  lemma PrefixOfTruncated(x: seq<Record>, y: seq<Record>, m: nat, n: nat)
    requires m <= |y| && n <= |x| + m
    ensures (x + y[..m])[..n] == (x + y)[..n]
  {
    assert forall k :: 0 <= k < n ==> (x + y[..m])[k] == (x + y)[k];
  }

  /** More than 100 calls leave exactly the 100 most recent entries. */
  lemma LogBoundedAfterMany(log: seq<Record>, entries: seq<Record>)
    requires |log| <= MaxActivities && |entries| >= MaxActivities
    ensures |LoggedAll(log, entries)| == MaxActivities
    ensures forall i :: 0 <= i < MaxActivities ==>
              LoggedAll(log, entries)[i] == entries[|entries| - 1 - i]
  {
    LogKeepsNewest(log, entries);
  }

  /** `logActivity(kind, description, details)`: prepends one entry, keeps at most 100. */
  method LogActivity(s: Store, kind: string, description: string, details: Json, clock: Clock)
    modifies s
    ensures s.View() == old(s.View()).(activities := Logged(old(s.activities),
              ActivityEntry(kind, description, details, old(s.currentUser), clock)))
  {
    var activities := s.activities;
    var activity := ActivityEntry(kind, description, details, s.currentUser, clock);
    activities := [activity] + activities;
    if |activities| > MaxActivities {
      activities := activities[..MaxActivities];
    }
    s.activities := activities;
  }

  // ---------------------------------------------------------------------
  // Records and lookups by id
  // ---------------------------------------------------------------------

  predicate HasId(r: Record, id: string) {
    Get(r, "id") == Some(Str(id))
  }

  /** `rs.findIndex(r => r.id === id)`. */
  function IndexOfId(rs: seq<Record>, id: string): Option<nat> {
    FirstWhere(rs, (r: Record) => HasId(r, id))
  }

  /** `rs.filter(r => r.id !== id)`. */
  function WithoutId(rs: seq<Record>, id: string): seq<Record> {
    Filter(rs, (r: Record) => !HasId(r, id))
  }

  /**
   * `{id: prefix + Date.now(), ...data, createdAt, createdBy}`: the spread
   * lets the caller's `id` replace the generated one, but `createdAt` and
   * `createdBy` always win over the caller's fields.
   */
  function NewRecord(prefix: string, data: Record, clock: Clock, creator: Record): (r: Record)
    ensures Get(r, "id") == if "id" in data then Some(data["id"])
                            else Some(Str(prefix + Text.Decimal(clock.millis)))
    ensures Get(r, "createdAt") == Some(Str(clock.iso))
    ensures Get(r, "createdBy") == Get(creator, "id")
    ensures forall k :: k != "id" && k != "createdAt" && k != "createdBy" ==> Get(r, k) == Get(data, k)
  {
    Put((map["id" := Str(prefix + Text.Decimal(clock.millis))] + data)["createdAt" := Str(clock.iso)],
        "createdBy", Get(creator, "id"))
  }

  /** `{...current, ...updates, updatedAt, updatedBy}`. */
  function Merged(current: Record, updates: Record, clock: Clock, editor: Record): (r: Record)
    ensures Get(r, "updatedAt") == Some(Str(clock.iso))
    ensures Get(r, "updatedBy") == Get(editor, "id")
    ensures forall k :: k != "updatedAt" && k != "updatedBy" ==>
              Get(r, k) == if k in updates then Some(updates[k]) else Get(current, k)
  {
    Put((current + updates)["updatedAt" := Str(clock.iso)], "updatedBy", Get(editor, "id"))
  }

  /** Merging the same updates again leaves the record as the first merge made it. */
  lemma MergeIdempotent(current: Record, updates: Record, clock: Clock, editor: Record)
    ensures Merged(Merged(current, updates, clock, editor), updates, clock, editor)
            == Merged(current, updates, clock, editor)
  {
    var once := Merged(current, updates, clock, editor);
    var twice := Merged(once, updates, clock, editor);
    assert forall k :: Get(twice, k) == Get(once, k);
    assert forall k :: k in twice <==> k in once by {
      forall k ensures k in twice <==> k in once {
        assert Get(twice, k) == Get(once, k);
      }
    }
  }

  /**
   * Repeating `updateMonastery(id, updates)` at the same instant by the same
   * editor: the second call finds the same record again exactly when the
   * updates keep its id, and then leaves the collection as the first call
   * made it, so by `UpdateMonastery`'s contract only the activity log
   * changes.
   */
  lemma RepeatedUpdateChangesOnlyLog(ms: seq<Record>, id: string, updates: Record, clock: Clock, editor: Record)
    requires IndexOfId(ms, id).Some?
    ensures var i := IndexOfId(ms, id).value;
            var once := ms[i := Merged(ms[i], updates, clock, editor)];
            && (IndexOfId(once, id) == Some(i) <==> ("id" in updates ==> updates["id"] == Str(id)))
            && (IndexOfId(once, id) == Some(i) ==> once[i := Merged(once[i], updates, clock, editor)] == once)
  {
    var i := IndexOfId(ms, id).value;
    var m := Merged(ms[i], updates, clock, editor);
    var once := ms[i := m];
    assert Get(m, "id") == if "id" in updates then Some(updates["id"]) else Get(ms[i], "id");
    assert forall j :: 0 <= j < i ==> !HasId(once[j], id);
    if "id" in updates ==> updates["id"] == Str(id) {
      assert HasId(once[i], id);
      var r := IndexOfId(once, id);
      assert r.Some? && r.value == i;
      MergeIdempotent(ms[i], updates, clock, editor);
    } else {
      assert !HasId(once[i], id);
    }
  }

  /**
   * Records added without an id of their own get the prefix and the
   * millisecond, so two added at different milliseconds never share an id.
   */
  lemma StampedIdsDiffer(prefix: string, data1: Record, data2: Record, c1: Clock, c2: Clock,
                         creator1: Record, creator2: Record)
    requires "id" !in data1 && "id" !in data2 && c1.millis != c2.millis
    ensures Get(NewRecord(prefix, data1, c1, creator1), "id") != Get(NewRecord(prefix, data2, c2, creator2), "id")
  {
    PrefixedDecimalsDiffer(prefix, c1.millis, c2.millis);
  }

  /** After removal no record carries the id, and the others keep their order. */
  lemma {:induction false} WithoutIdRemovesAll(rs: seq<Record>, id: string)
    ensures forall i :: 0 <= i < |WithoutId(rs, id)| ==> !HasId(WithoutId(rs, id)[i], id)
    ensures |WithoutId(rs, id)| < |rs| <==> IndexOfId(rs, id).Some?
    ensures |WithoutId(rs, id)| == |rs| - CountWhere(rs, (r: Record) => HasId(r, id))
  {
    WithoutIdCount(rs, id);
  }

  lemma {:induction false} WithoutIdCount(rs: seq<Record>, id: string)
    ensures |WithoutId(rs, id)| == |rs| - CountWhere(rs, (r: Record) => HasId(r, id))
  {
    if |rs| > 0 {
      WithoutIdCount(rs[1..], id);
    }
  }

  /** Deleting the id of a freshly appended record gives the collection back. */
  lemma DeleteUndoesAdd(rs: seq<Record>, r: Record, id: string)
    requires HasId(r, id) && IndexOfId(rs, id).None?
    ensures WithoutId(rs + [r], id) == rs
  {
    var p := (x: Record) => !HasId(x, id);
    FilterAppend(rs, [r], p);
    FilterKeepsAll(rs, p);
    assert Filter([r], p) == [];
  }

  lemma {:induction false} FilterKeepsAll(rs: seq<Record>, p: Record -> bool)
    requires forall j :: 0 <= j < |rs| ==> p(rs[j])
    ensures Filter(rs, p) == rs
  {
    if |rs| > 0 {
      FilterKeepsAll(rs[1..], p);
    }
  }

  // ---------------------------------------------------------------------
  // Monasteries, archives, events
  // ---------------------------------------------------------------------

  /** `addMonastery(data)`: appends one record stamped with its creator, then logs. */
  method AddMonastery(s: Store, data: Record, clock: Clock) returns (r: Result<Record>)
    modifies s
    ensures old(s.currentUser).None? ==> r == Err(NoSession) && s.View() == old(s.View())
    ensures old(s.currentUser).Some? ==>
              && r == Ok(NewRecord("monastery_", data, clock, old(s.currentUser).value))
              && s.View() == old(s.View()).(
                   monasteries := old(s.monasteries) + [r.value],
                   activities := Logged(old(s.activities),
                     ActivityEntry("monastery_added", "Added " + ToJsString(Get(r.value, "name")),
                                   Null, old(s.currentUser), clock)))
  {
    if s.currentUser.None? {
      return Err(NoSession);
    }
    var monasteries := s.monasteries;
    var newMonastery := NewRecord("monastery_", data, clock, s.currentUser.value);
    monasteries := monasteries + [newMonastery];
    s.monasteries := monasteries;
    LogActivity(s, "monastery_added", "Added " + ToJsString(Get(newMonastery, "name")), Null, clock);
    r := Ok(newMonastery);
  }

  /**
   * `updateMonastery(id, updates)`: an unknown id gives null and writes
   * nothing; otherwise the first record with the id is merged with the
   * updates and stamped, and nothing else in the collection changes.
   */
  method UpdateMonastery(s: Store, monasteryId: string, updates: Record, clock: Clock)
    returns (r: Result<Option<Record>>)
    modifies s
    ensures IndexOfId(old(s.monasteries), monasteryId).None? ==>
              r == Ok(None) && s.View() == old(s.View())
    ensures IndexOfId(old(s.monasteries), monasteryId).Some? && old(s.currentUser).None? ==>
              r == Err(NoSession) && s.View() == old(s.View())
    ensures IndexOfId(old(s.monasteries), monasteryId).Some? && old(s.currentUser).Some? ==>
              var i := IndexOfId(old(s.monasteries), monasteryId).value;
              var m := Merged(old(s.monasteries)[i], updates, clock, old(s.currentUser).value);
              && r == Ok(Some(m))
              && s.View() == old(s.View()).(
                   monasteries := old(s.monasteries)[i := m],
                   activities := Logged(old(s.activities),
                     ActivityEntry("monastery_updated", "Updated " + ToJsString(Get(m, "name")),
                                   Null, old(s.currentUser), clock)))
  {
    var monasteries := s.monasteries;
    var index := IndexOfId(monasteries, monasteryId);
    if index.None? {
      return Ok(None);
    }
    if s.currentUser.None? {
      return Err(NoSession);
    }
    var i := index.value;
    monasteries := monasteries[i := Merged(monasteries[i], updates, clock, s.currentUser.value)];
    s.monasteries := monasteries;
    LogActivity(s, "monastery_updated", "Updated " + ToJsString(Get(monasteries[i], "name")), Null, clock);
    r := Ok(Some(monasteries[i]));
  }

  /**
   * `deleteMonastery(id)`: true iff some record has the id; then every
   * record with it is removed and the deletion logged, else nothing is written.
   */
  method DeleteMonastery(s: Store, monasteryId: string, clock: Clock) returns (deleted: bool)
    modifies s
    ensures deleted <==> exists j :: 0 <= j < |old(s.monasteries)| && HasId(old(s.monasteries)[j], monasteryId)
    ensures !deleted ==> s.View() == old(s.View())
    ensures deleted ==>
              var first := old(s.monasteries)[IndexOfId(old(s.monasteries), monasteryId).value];
              s.View() == old(s.View()).(
                monasteries := WithoutId(old(s.monasteries), monasteryId),
                activities := Logged(old(s.activities),
                  ActivityEntry("monastery_deleted", "Deleted " + ToJsString(Get(first, "name")),
                                Null, old(s.currentUser), clock)))
  {
    var monasteries := s.monasteries;
    var found := IndexOfId(monasteries, monasteryId);
    if found.None? {
      return false;
    }
    var monastery := monasteries[found.value];
    s.monasteries := WithoutId(monasteries, monasteryId);
    LogActivity(s, "monastery_deleted", "Deleted " + ToJsString(Get(monastery, "name")), Null, clock);
    deleted := true;
  }

  /** `addArchive(data)`: appends one record with an `archive_` id unless the data has one. */
  method AddArchive(s: Store, data: Record, clock: Clock) returns (r: Result<Record>)
    modifies s
    ensures old(s.currentUser).None? ==> r == Err(NoSession) && s.View() == old(s.View())
    ensures old(s.currentUser).Some? ==>
              && r == Ok(NewRecord("archive_", data, clock, old(s.currentUser).value))
              && s.View() == old(s.View()).(
                   archives := old(s.archives) + [r.value],
                   activities := Logged(old(s.activities),
                     ActivityEntry("archive_added", "Added archive: " + ToJsString(Get(r.value, "title")),
                                   Null, old(s.currentUser), clock)))
  {
    if s.currentUser.None? {
      return Err(NoSession);
    }
    var archives := s.archives;
    var newArchive := NewRecord("archive_", data, clock, s.currentUser.value);
    archives := archives + [newArchive];
    s.archives := archives;
    LogActivity(s, "archive_added", "Added archive: " + ToJsString(Get(newArchive, "title")), Null, clock);
    r := Ok(newArchive);
  }

  /** `addEvent(data)`: appends one record with an `event_` id unless the data has one. */
  method AddEvent(s: Store, data: Record, clock: Clock) returns (r: Result<Record>)
    modifies s
    ensures old(s.currentUser).None? ==> r == Err(NoSession) && s.View() == old(s.View())
    ensures old(s.currentUser).Some? ==>
              && r == Ok(NewRecord("event_", data, clock, old(s.currentUser).value))
              && s.View() == old(s.View()).(
                   calendarEvents := old(s.calendarEvents) + [r.value],
                   activities := Logged(old(s.activities),
                     ActivityEntry("event_added", "Added event: " + ToJsString(Get(r.value, "title")),
                                   Null, old(s.currentUser), clock)))
  {
    if s.currentUser.None? {
      return Err(NoSession);
    }
    var events := s.calendarEvents;
    var newEvent := NewRecord("event_", data, clock, s.currentUser.value);
    events := events + [newEvent];
    s.calendarEvents := events;
    LogActivity(s, "event_added", "Added event: " + ToJsString(Get(newEvent, "title")), Null, clock);
    r := Ok(newEvent);
  }

  // ---------------------------------------------------------------------
  // Users
  // ---------------------------------------------------------------------

  /** The user record after `updateUserRole`'s two field assignments. */
  function WithRole(user: Record, newRole: Json, clock: Clock): (u: Record)
    ensures Get(u, "role") == Some(newRole) && Get(u, "updatedAt") == Some(Str(clock.iso))
    ensures forall k :: k != "role" && k != "updatedAt" ==> Get(u, k) == Get(user, k)
  {
    user["role" := newRole]["updatedAt" := Str(clock.iso)]
  }

  /** The user record after `deactivateUser`'s three field assignments. */
  function Deactivated(user: Record, clock: Clock, admin: Record): (u: Record)
    ensures Get(u, "active") == Some(Bool(false)) && Get(u, "deactivatedAt") == Some(Str(clock.iso))
    ensures Get(u, "deactivatedBy") == Get(admin, "id")
    ensures forall k :: k != "active" && k != "deactivatedAt" && k != "deactivatedBy" ==>
              Get(u, k) == Get(user, k)
  {
    Put(user["active" := Bool(false)]["deactivatedAt" := Str(clock.iso)], "deactivatedBy", Get(admin, "id"))
  }

  function FullName(u: Record): string {
    ToJsString(Get(u, "firstName")) + " " + ToJsString(Get(u, "lastName"))
  }

  /**
   * `updateUserRole(userId, newRole)`: null and no write for an unknown id;
   * otherwise only the first user with the id gets the role and `updatedAt`.
   */
  method UpdateUserRole(s: Store, userId: string, newRole: Json, clock: Clock) returns (r: Option<Record>)
    modifies s
    ensures IndexOfId(old(s.users), userId).None? ==> r == None && s.View() == old(s.View())
    ensures IndexOfId(old(s.users), userId).Some? ==>
              var i := IndexOfId(old(s.users), userId).value;
              var u := WithRole(old(s.users)[i], newRole, clock);
              && r == Some(u)
              && s.View() == old(s.View()).(
                   users := old(s.users)[i := u],
                   activities := Logged(old(s.activities),
                     ActivityEntry("user_role_updated",
                                   "Changed " + FullName(u) + " role from "
                                   + ToJsString(Get(old(s.users)[i], "role")) + " to " + Render(newRole),
                                   Null, old(s.currentUser), clock)))
  {
    var users := s.users;
    var userIndex := IndexOfId(users, userId);
    if userIndex.None? {
      return None;
    }
    var i := userIndex.value;
    var oldRole := Get(users[i], "role");
    users := users[i := users[i]["role" := newRole]];
    users := users[i := users[i]["updatedAt" := Str(clock.iso)]];
    s.users := users;
    LogActivity(s, "user_role_updated",
                "Changed " + FullName(users[i]) + " role from " + ToJsString(oldRole) + " to " + Render(newRole),
                Null, clock);
    r := Some(users[i]);
  }

  /**
   * `deactivateUser(userId)`: null and no write for an unknown id; with no
   * session the `.id` read throws before the write; otherwise only the first
   * user with the id is flagged inactive, with time and actor.
   */
  method DeactivateUser(s: Store, userId: string, clock: Clock) returns (r: Result<Option<Record>>)
    modifies s
    ensures IndexOfId(old(s.users), userId).None? ==> r == Ok(None) && s.View() == old(s.View())
    ensures IndexOfId(old(s.users), userId).Some? && old(s.currentUser).None? ==>
              r == Err(NoSession) && s.View() == old(s.View())
    ensures IndexOfId(old(s.users), userId).Some? && old(s.currentUser).Some? ==>
              var i := IndexOfId(old(s.users), userId).value;
              var u := Deactivated(old(s.users)[i], clock, old(s.currentUser).value);
              && r == Ok(Some(u))
              && s.View() == old(s.View()).(
                   users := old(s.users)[i := u],
                   activities := Logged(old(s.activities),
                     ActivityEntry("user_deactivated", "Deactivated user: " + FullName(u),
                                   Null, old(s.currentUser), clock)))
  {
    var users := s.users;
    var userIndex := IndexOfId(users, userId);
    if userIndex.None? {
      return Ok(None);
    }
    var i := userIndex.value;
    users := users[i := users[i]["active" := Bool(false)]];
    users := users[i := users[i]["deactivatedAt" := Str(clock.iso)]];
    if s.currentUser.None? {
      // The local copy was already changed, but the throw comes before the save.
      return Err(NoSession);
    }
    users := users[i := Put(users[i], "deactivatedBy", Get(s.currentUser.value, "id"))];
    var u := Deactivated(s.users[i], clock, s.currentUser.value);
    assert users == s.users[i := u];
    s.users := users;
    LogActivity(s, "user_deactivated", "Deactivated user: " + FullName(u), Null, clock);
    r := Ok(Some(u));
  }

  // ---------------------------------------------------------------------
  // Roles
  // ---------------------------------------------------------------------

  /** `getRoleDisplayName(role)`: the label of an admin role, "Admin" for anything else. */
  function RoleDisplayName(role: Option<Json>): string {
    match ToJsString(role)
    case "super_admin" => "Super Admin"
    case "monk" => "Monk"
    case "archivist" => "Archivist"
    case "tourism_official" => "Tourism Official"
    case _ => "Admin"
  }

  /**
   * Every role that passes the admin check has a label of its own, and
   * distinct admin roles get distinct labels.
   */
  lemma AdminRolesHaveOwnNames(a: Option<Json>, b: Option<Json>)
    requires Auth.IsAdminRole(a) && Auth.IsAdminRole(b)
    ensures RoleDisplayName(a) != "Admin"
    ensures a != b ==> RoleDisplayName(a) != RoleDisplayName(b)
  {
  }

  // ---------------------------------------------------------------------
  // Backup and restore
  // ---------------------------------------------------------------------

  /**
   * A backup document as parsed: each collection is `Some` when the
   * document holds a truthy value for it (`if (data.x)`) and `None` when
   * the key is missing or its value is falsy; then the `backupDate` field.
   * A truthy value that is not an array of records is not representable.
   */
  datatype Backup = Backup(
    monasteries: Option<seq<Record>>,
    archives: Option<seq<Record>>,
    users: Option<seq<Record>>,
    events: Option<seq<Record>>,
    activities: Option<seq<Record>>,
    analytics: Option<Record>,
    backupDate: Option<Json>)

  /** The document `backupData()` builds: every collection and the time. */
  function BackupOf(st: State, clock: Clock): Backup {
    Backup(Some(st.monasteries), Some(st.archives), Some(st.users), Some(st.calendarEvents),
           Some(st.activities), Some(st.analytics), Some(Str(clock.iso)))
  }

  /** `restoreData` accepts a document that parsed and has a truthy `backupDate`. */
  predicate Acceptable(doc: Option<Backup>) {
    doc.Some? && Truthy(doc.value.backupDate)
  }

  /** Each collection present in the document replaces the stored one wholesale. */
  function ReplaceCollections(st: State, doc: Backup): State {
    st.(monasteries := if doc.monasteries.Some? then doc.monasteries.value else st.monasteries,
        archives := if doc.archives.Some? then doc.archives.value else st.archives,
        users := if doc.users.Some? then doc.users.value else st.users,
        calendarEvents := if doc.events.Some? then doc.events.value else st.calendarEvents,
        activities := if doc.activities.Some? then doc.activities.value else st.activities,
        analytics := if doc.analytics.Some? then doc.analytics.value else st.analytics)
  }

  function RestoreEntry(doc: Backup, user: Option<Record>, clock: Clock): Record {
    ActivityEntry("data_restore", "Restored data from backup dated " + ToJsString(doc.backupDate),
                  Null, user, clock)
  }

  /** Restoring a backup gives back every collection it holds, whatever happened since. */
  lemma BackupRestoreRoundTrip(st: State, later: State, taken: Clock)
    requires taken.iso != ""
    ensures Acceptable(Some(BackupOf(st, taken)))
    ensures ReplaceCollections(later, BackupOf(st, taken)) == st.(currentUser := later.currentUser)
  {
  }

  /** Collections a document does not hold are left as they were. */
  lemma AbsentKeysUntouched(st: State, doc: Backup)
    ensures doc.monasteries.None? ==> ReplaceCollections(st, doc).monasteries == st.monasteries
    ensures doc.archives.None? ==> ReplaceCollections(st, doc).archives == st.archives
    ensures doc.users.None? ==> ReplaceCollections(st, doc).users == st.users
    ensures doc.events.None? ==> ReplaceCollections(st, doc).calendarEvents == st.calendarEvents
    ensures doc.activities.None? ==> ReplaceCollections(st, doc).activities == st.activities
    ensures doc.analytics.None? ==> ReplaceCollections(st, doc).analytics == st.analytics
    ensures ReplaceCollections(st, doc).currentUser == st.currentUser
  {
  }

  /** `backupData()`: returns the document, then logs the backup (the document does not include that entry). */
  method BackupData(s: Store, clock: Clock) returns (doc: Backup)
    modifies s
    ensures doc == BackupOf(old(s.View()), clock)
    ensures s.View() == old(s.View()).(activities := Logged(old(s.activities),
              ActivityEntry("data_backup", "Created data backup", Null, old(s.currentUser), clock)))
  {
    doc := Backup(Some(s.monasteries), Some(s.archives), Some(s.users), Some(s.calendarEvents),
                  Some(s.activities), Some(s.analytics), Some(Str(clock.iso)));
    LogActivity(s, "data_backup", "Created data backup", Null, clock);
  }

  /** The six guarded saves of `restoreData`: each collection the document holds is written. */
  method SavePresent(s: Store, data: Backup)
    modifies s
    ensures s.View() == ReplaceCollections(old(s.View()), data)
  {
    if data.monasteries.Some? { s.monasteries := data.monasteries.value; }
    if data.archives.Some? { s.archives := data.archives.value; }
    if data.users.Some? { s.users := data.users.value; }
    if data.events.Some? { s.calendarEvents := data.events.value; }
    if data.activities.Some? { s.activities := data.activities.value; }
    if data.analytics.Some? { s.analytics := data.analytics.value; }
  }

  datatype RestoreOutcome = RestoreDone | Unparseable | InvalidFormat

  /**
   * `restoreData` once the file is read: text that does not parse, or a
   * document without `backupDate`, is refused and nothing is written, not
   * even a log entry; otherwise each present collection is replaced and one
   * `data_restore` entry is logged.
   */
  method RestoreData(s: Store, parsed: Option<Backup>, clock: Clock) returns (outcome: RestoreOutcome)
    modifies s
    ensures outcome == RestoreDone <==> Acceptable(parsed)
    ensures !Acceptable(parsed) ==> s.View() == old(s.View())
    ensures parsed.None? ==> outcome == Unparseable
    ensures Acceptable(parsed) ==>
              var restored := ReplaceCollections(old(s.View()), parsed.value);
              s.View() == restored.(activities := Logged(restored.activities,
                            RestoreEntry(parsed.value, old(s.currentUser), clock)))
  {
    if parsed.None? {
      return Unparseable;
    }
    var data := parsed.value;
    if !Truthy(data.backupDate) {
      return InvalidFormat;
    }
    SavePresent(s, data);
    LogActivity(s, "data_restore", "Restored data from backup dated " + ToJsString(data.backupDate), Null, clock);
    outcome := RestoreDone;
  }

  /**
   * Backup then restore: every collection is as it was when the backup was
   * taken, and the log holds its entries from then with the restore entry in front.
   */
  lemma RestoreAfterBackup(st: State, taken: Clock, restoredAt: Clock)
    requires taken.iso != ""
    ensures var afterBackup := st.(activities := Logged(st.activities,
                                 ActivityEntry("data_backup", "Created data backup", Null, st.currentUser, taken)));
            var doc := BackupOf(st, taken);
            var restored := ReplaceCollections(afterBackup, doc);
            restored.(activities := Logged(restored.activities, RestoreEntry(doc, st.currentUser, restoredAt)))
            == st.(activities := Logged(st.activities, RestoreEntry(doc, st.currentUser, restoredAt)))
  {
  }
}
