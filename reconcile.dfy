/**
 * Reconciliation of an external identity with the local user collection
 * (`ensureLocalProfileForFirebaseUser` and
 * `createLocalProfileFromFirebaseUser` in assets/auth.js): find the local
 * profile by uid, else by case-insensitive email, else create one; backfill
 * the uid and empty name fields of a found profile and save it back.
 *
 * Two definitions of the write-back exist here. `ReconciledAsWritten` follows
 * the source line by line, and the lemmas beside it exhibit two defects;
 * `Reconciled` is the corrected reconciliation the rest of the model uses,
 * and its properties are proved.
 */
module Reconcile {
  import opened Js
  import Text
  import opened LocalStore

  /**
   * What the provider reports of a signed-in user; `""` stands for a
   * missing value. `providerId` is `providerData[0].providerId`.
   */
  datatype Identity = Identity(uid: string, email: string, displayName: string, providerId: string)

  /** `u.uid && u.uid === fbUser.uid`. */
  predicate UidMatch(u: Record, fb: Identity) {
    Truthy(Get(u, "uid")) && Get(u, "uid") == Some(Str(fb.uid))
  }

  /** `u.email && fbUser.email && u.email.toLowerCase() === fbUser.email.toLowerCase()`. */
  predicate EmailMatch(u: Record, fb: Identity) {
    && Get(u, "email").Some? && Get(u, "email").value.Str? && Get(u, "email").value.s != ""
    && fb.email != ""
    && Text.ToLower(Get(u, "email").value.s) == Text.ToLower(fb.email)
  }

  /**
   * The lookup: the first record with the uid, and only when there is none
   * the first record with the email. A uid match wins even when an email
   * match comes earlier in the list.
   */
  function FindProfile(users: seq<Record>, fb: Identity): (r: Option<nat>)
    ensures r.Some? ==> r.value < |users| && (UidMatch(users[r.value], fb) || EmailMatch(users[r.value], fb))
    ensures r.None? <==> forall j :: 0 <= j < |users| ==> !UidMatch(users[j], fb) && !EmailMatch(users[j], fb)
    ensures (exists j :: 0 <= j < |users| && UidMatch(users[j], fb)) ==>
              r.Some? && UidMatch(users[r.value], fb) && forall j :: 0 <= j < r.value ==> !UidMatch(users[j], fb)
    ensures (forall j :: 0 <= j < |users| ==> !UidMatch(users[j], fb)) && r.Some? ==>
              forall j :: 0 <= j < r.value ==> !EmailMatch(users[j], fb)
  {
    match FirstWhere(users, (u: Record) => UidMatch(u, fb))
    case Some(i) => Some(i)
    case None => FirstWhere(users, (u: Record) => EmailMatch(u, fb))
  }

  // ---------------------------------------------------------------------
  // Creating a profile
  // ---------------------------------------------------------------------

  /** The optional fields a caller passes to profile creation; `""` when absent. */
  datatype Extra = Extra(firstName: string, lastName: string, role: string)

  /** A trimmed name that is not empty has a non-empty first word. */
  lemma FirstWordOfTrimmed(name: string)
    ensures Text.Trim(name) != "" ==> Text.FirstPart(Text.Trim(name), ' ') != ""
  {
    var t := Text.Trim(name);
    Text.SplitAtFirst(t, ' ');
    if ' ' in t {
      assert Text.IndexOf(t, ' ') != 0 by {
        assert Text.IsSpace(' ');
      }
    }
  }

  lemma EmptyNameHasNoParts()
    ensures Text.FirstPart("", ' ') == "" && Text.OtherParts("", ' ') == ""
  {
    Text.SplitAtFirst("", ' ');
  }

  /**
   * The names of a new profile: the given ones, completed from the words of
   * the trimmed display name when either is missing, and a missing first
   * name then taken from the part of the email before the `@`.
   */
  function NewNames(fb: Identity, extra: Extra): (string, string) {
    var named := (extra.firstName == "" || extra.lastName == "") && fb.displayName != "";
    var parts := Text.Split(Text.Trim(fb.displayName), ' ');
    var firstName := if named then (if extra.firstName != "" then extra.firstName else parts[0]) else extra.firstName;
    var lastName := if named then (if extra.lastName != "" then extra.lastName else Text.Join(parts[1..], ' '))
                    else extra.lastName;
    (if firstName == "" && fb.email != "" then Text.Split(fb.email, '@')[0] else firstName, lastName)
  }

  /**
   * The first name is the one given, else the first word of the trimmed
   * display name, else the email's local part; the last name is the one
   * given, else the rest of the trimmed display name.
   */
  lemma NewNamesChain(fb: Identity, extra: Extra)
    ensures var fromName := Text.FirstPart(Text.Trim(fb.displayName), ' ');
            NewNames(fb, extra).0 ==
              if extra.firstName != "" then extra.firstName
              else if fromName != "" then fromName
              else Text.FirstPart(fb.email, '@')
    ensures NewNames(fb, extra).1 ==
              if extra.lastName != "" then extra.lastName else Text.OtherParts(Text.Trim(fb.displayName), ' ')
  {
    EmptyNameHasNoParts();
    if fb.email == "" {
      Text.SplitAtFirst("", '@');
    }
  }

  /** The record literal of a new profile, with `id` and `uid` both the uid. */
  function ProfileRecord(uid: string, firstName: string, lastName: string, email: string,
                         role: string, provider: string, createdAt: string): (p: Record)
    ensures Get(p, "id") == Get(p, "uid") == Some(Str(uid))
    ensures Get(p, "firstName") == Some(Str(firstName)) && Get(p, "lastName") == Some(Str(lastName))
    ensures Get(p, "email") == Some(Str(email)) && Get(p, "role") == Some(Str(role))
    ensures Get(p, "provider") == Some(Str(provider)) && Get(p, "createdAt") == Some(Str(createdAt))
  {
    map["id" := Str(uid), "uid" := Str(uid), "firstName" := Str(firstName), "lastName" := Str(lastName),
        "email" := Str(email), "role" := Str(role), "provider" := Str(provider), "createdAt" := Str(createdAt)]
  }

  /** `createLocalProfileFromFirebaseUser(fbUser, extra)`: the profile it appends. */
  function CreateProfile(fb: Identity, extra: Extra, clock: Clock): Record {
    var names := NewNames(fb, extra);
    ProfileRecord(fb.uid, if names.0 != "" then names.0 else "User", names.1, fb.email,
                  if extra.role != "" then extra.role else "tourist",
                  if fb.providerId != "" then fb.providerId else "password", clock.iso)
  }

  /**
   * The created profile's fields: `id` and `uid` are both the provider's
   * uid; the first name is the one given, else the first word of the
   * trimmed display name, else the email's local part, else "User"; the
   * last name is the one given, else the rest of the trimmed display name;
   * role and provider have their defaults.
   */
  lemma CreateProfileFields(fb: Identity, extra: Extra, clock: Clock)
    ensures var p := CreateProfile(fb, extra, clock);
            Get(p, "id") == Some(Str(fb.uid)) && Get(p, "uid") == Some(Str(fb.uid))
    ensures var p := CreateProfile(fb, extra, clock);
            var fromName := Text.FirstPart(Text.Trim(fb.displayName), ' ');
            var fromEmail := Text.FirstPart(fb.email, '@');
            Get(p, "firstName") == Some(Str(
              if extra.firstName != "" then extra.firstName
              else if fromName != "" then fromName
              else if fromEmail != "" then fromEmail
              else "User"))
    ensures Get(CreateProfile(fb, extra, clock), "lastName") == Some(Str(
              if extra.lastName != "" then extra.lastName else Text.OtherParts(Text.Trim(fb.displayName), ' ')))
    ensures var p := CreateProfile(fb, extra, clock);
            && Get(p, "email") == Some(Str(fb.email))
            && Get(p, "role") == Some(Str(if extra.role != "" then extra.role else "tourist"))
            && Get(p, "provider") == Some(Str(if fb.providerId != "" then fb.providerId else "password"))
            && Get(p, "createdAt") == Some(Str(clock.iso))
  {
    NewNamesChain(fb, extra);
  }

  /** Every created profile has a first name, and carries the uid it was created for. */
  lemma CreatedProfileMatches(fb: Identity, extra: Extra, clock: Clock)
    requires fb.uid != ""
    ensures var p := CreateProfile(fb, extra, clock);
            UidMatch(p, fb) && Truthy(Get(p, "firstName"))
  {
    var names := NewNames(fb, extra);
    ProfileRecordMatches(fb, if names.0 != "" then names.0 else "User", names.1,
                         if extra.role != "" then extra.role else "tourist",
                         if fb.providerId != "" then fb.providerId else "password", clock.iso);
  }

  lemma ProfileRecordMatches(fb: Identity, firstName: string, lastName: string, role: string,
                             provider: string, createdAt: string)
    requires fb.uid != "" && firstName != ""
    ensures var p := ProfileRecord(fb.uid, firstName, lastName, fb.email, role, provider, createdAt);
            UidMatch(p, fb) && Truthy(Get(p, "firstName"))
  {
  }

  // ---------------------------------------------------------------------
  // Backfilling a found profile
  // ---------------------------------------------------------------------

  /** A profile after backfilling, and whether any of the three assignments ran. */
  datatype Fill = Fill(user: Record, updated: bool)

  /**
   * The backfill of a found profile: the uid when the profile has none;
   * when the display name is not blank (`named`), the first word `fn` as
   * first name when that is empty, and the rest `ln` as last name when that
   * is empty and the rest is not.
   */
  function BackfillFrom(user: Record, uid: string, named: bool, fn: string, ln: string): Fill {
    var noUid := !Truthy(Get(user, "uid"));
    var u1 := if noUid then user["uid" := Str(uid)] else user;
    if named then
      var noFirst := !Truthy(Get(u1, "firstName"));
      var u2 := if noFirst then u1["firstName" := Str(fn)] else u1;
      var noLast := !Truthy(Get(u2, "lastName")) && ln != "";
      var u3 := if noLast then u2["lastName" := Str(ln)] else u2;
      Fill(u3, noUid || noFirst || noLast)
    else
      Fill(u1, noUid)
  }

  /** As written: the display name is split into words without trimming it first. */
  function BackfillAsWritten(user: Record, fb: Identity): Fill {
    BackfillFrom(user, fb.uid, Text.Trim(fb.displayName) != "",
                 Text.FirstPart(fb.displayName, ' '), Text.OtherParts(fb.displayName, ' '))
  }

  /**
   * Corrected: the trimmed display name is split, as profile creation does,
   * so a leading space cannot turn the first word into the last name.
   */
  function Backfill(user: Record, fb: Identity): Fill {
    var name := Text.Trim(fb.displayName);
    BackfillFrom(user, fb.uid, name != "", Text.FirstPart(name, ' '), Text.OtherParts(name, ' '))
  }

  lemma BackfillFromKeeps(user: Record, uid: string, named: bool, fn: string, ln: string)
    ensures var f := BackfillFrom(user, uid, named, fn, ln);
            forall k :: k != "uid" && k != "firstName" && k != "lastName" ==> Get(f.user, k) == Get(user, k)
    ensures var f := BackfillFrom(user, uid, named, fn, ln);
            && (Truthy(Get(user, "uid")) ==> Get(f.user, "uid") == Get(user, "uid"))
            && (!Truthy(Get(user, "uid")) ==> Get(f.user, "uid") == Some(Str(uid)))
            && (Truthy(Get(user, "firstName")) ==> Get(f.user, "firstName") == Get(user, "firstName"))
            && (Truthy(Get(user, "lastName")) ==> Get(f.user, "lastName") == Get(user, "lastName"))
  {
  }

  lemma BackfillFromFlags(user: Record, uid: string, named: bool, fn: string, ln: string)
    requires named ==> fn != ""
    ensures !BackfillFrom(user, uid, named, fn, ln).updated ==> BackfillFrom(user, uid, named, fn, ln).user == user
    ensures uid != "" ==> (BackfillFrom(user, uid, named, fn, ln).updated <==> BackfillFrom(user, uid, named, fn, ln).user != user)
  {
    var f := BackfillFrom(user, uid, named, fn, ln);
    if uid != "" && f.updated {
      if !Truthy(Get(user, "uid")) {
        assert Get(f.user, "uid") != Get(user, "uid");
      } else if !Truthy(Get(user, "firstName")) {
        assert Truthy(Get(f.user, "firstName"));
      } else {
        assert Truthy(Get(f.user, "lastName"));
      }
    }
  }

  lemma BackfillFromSettles(user: Record, uid: string, named: bool, fn: string, ln: string)
    requires uid != "" && (named ==> fn != "")
    ensures var f := BackfillFrom(user, uid, named, fn, ln);
            BackfillFrom(f.user, uid, named, fn, ln) == Fill(f.user, false)
  {
  }

  /**
   * The backfill never overwrites: a truthy uid, first or last name is
   * kept, and no other field is touched.
   */
  lemma BackfillKeepsFields(user: Record, fb: Identity)
    ensures var f := Backfill(user, fb);
            forall k :: k != "uid" && k != "firstName" && k != "lastName" ==> Get(f.user, k) == Get(user, k)
    ensures var f := Backfill(user, fb);
            && (Truthy(Get(user, "uid")) ==> Get(f.user, "uid") == Get(user, "uid"))
            && (!Truthy(Get(user, "uid")) ==> Get(f.user, "uid") == Some(Str(fb.uid)))
            && (Truthy(Get(user, "firstName")) ==> Get(f.user, "firstName") == Get(user, "firstName"))
            && (Truthy(Get(user, "lastName")) ==> Get(f.user, "lastName") == Get(user, "lastName"))
  {
    var name := Text.Trim(fb.displayName);
    BackfillFromKeeps(user, fb.uid, name != "", Text.FirstPart(name, ' '), Text.OtherParts(name, ' '));
  }

  /** The profile is saved only if it changed: the flag is set exactly when a field got a new value. */
  lemma BackfillFlagsChange(user: Record, fb: Identity)
    ensures !Backfill(user, fb).updated ==> Backfill(user, fb).user == user
    ensures fb.uid != "" ==> (Backfill(user, fb).updated <==> Backfill(user, fb).user != user)
  {
    var name := Text.Trim(fb.displayName);
    FirstWordOfTrimmed(fb.displayName);
    BackfillFromFlags(user, fb.uid, name != "", Text.FirstPart(name, ' '), Text.OtherParts(name, ' '));
  }

  /** A backfilled profile needs no second backfill. */
  lemma BackfillSettles(user: Record, fb: Identity)
    requires fb.uid != ""
    ensures Backfill(Backfill(user, fb).user, fb) == Fill(Backfill(user, fb).user, false)
  {
    var name := Text.Trim(fb.displayName);
    FirstWordOfTrimmed(fb.displayName);
    BackfillFromSettles(user, fb.uid, name != "", Text.FirstPart(name, ' '), Text.OtherParts(name, ' '));
  }

  /** A freshly created profile needs no backfill either. */
  lemma CreatedNeedsNoBackfill(fb: Identity, extra: Extra, clock: Clock)
    requires fb.uid != "" && extra.lastName == ""
    ensures Backfill(CreateProfile(fb, extra, clock), fb) == Fill(CreateProfile(fb, extra, clock), false)
  {
    CreateProfileFields(fb, extra, clock);
    CreatedProfileMatches(fb, extra, clock);
  }

  // ---------------------------------------------------------------------
  // The whole reconciliation
  // ---------------------------------------------------------------------

  /** The collection as saved afterwards, and the profile returned. */
  datatype Outcome = Outcome(users: seq<Record>, profile: Record)

  /** `opts.defaultRole || 'tourist'`, as passed on to creation. */
  function NewProfileExtra(defaultRole: string): Extra {
    Extra("", "", if defaultRole != "" then defaultRole else "tourist")
  }

  /**
   * `ensureLocalProfileForFirebaseUser` as written: after backfilling, the
   * profile is stored at the first index matching the uid OR the email,
   * searched in the array where the found profile has already been changed.
   */
  function ReconciledAsWritten(users: seq<Record>, fb: Identity, defaultRole: string, clock: Clock): Outcome {
    match FindProfile(users, fb)
    case None =>
      var p := CreateProfile(fb, NewProfileExtra(defaultRole), clock);
      Outcome(users + [p], p)
    case Some(i) =>
      var f := BackfillAsWritten(users[i], fb);
      if !f.updated then Outcome(users, f.user)
      else
        var mutated := users[i := f.user];
        match FirstWhere(mutated, (u: Record) => UidMatch(u, fb) || EmailMatch(u, fb))
        case Some(idx) => Outcome(mutated[idx := f.user], f.user)
        case None => Outcome(users, f.user)
  }

  /**
   * Reconciliation with the write-back at the index of the profile that
   * was found, and the trimmed display name split for the backfill.
   */
  function Reconciled(users: seq<Record>, fb: Identity, defaultRole: string, clock: Clock): (o: Outcome)
    ensures FindProfile(users, fb).None? ==>
              o.profile == CreateProfile(fb, NewProfileExtra(defaultRole), clock) && o.users == users + [o.profile]
    ensures FindProfile(users, fb).Some? ==>
              var i := FindProfile(users, fb).value;
              && o.profile == Backfill(users[i], fb).user
              && o.users == users[i := o.profile]
  {
    match FindProfile(users, fb)
    case None =>
      var p := CreateProfile(fb, NewProfileExtra(defaultRole), clock);
      Outcome(users + [p], p)
    case Some(i) =>
      BackfillFlagsChange(users[i], fb);
      var f := Backfill(users[i], fb);
      Outcome(if f.updated then users[i := f.user] else users, f.user)
  }

  /**
   * A record is created exactly when nothing matches; otherwise the count
   * is unchanged, only the found record may change, and none of its
   * non-empty uid or name fields is overwritten.
   */
  lemma ReconcileChangesOnlyTheMatch(users: seq<Record>, fb: Identity, defaultRole: string, clock: Clock)
    ensures var o := Reconciled(users, fb, defaultRole, clock);
            |o.users| == |users| + (if FindProfile(users, fb).None? then 1 else 0)
    ensures var o := Reconciled(users, fb, defaultRole, clock);
            FindProfile(users, fb).Some? ==>
              forall j :: 0 <= j < |users| && j != FindProfile(users, fb).value ==> o.users[j] == users[j]
  {
    var o := Reconciled(users, fb, defaultRole, clock);
    if FindProfile(users, fb).Some? {
      var i := FindProfile(users, fb).value;
      UpdateKeepsOthers(users, i, o.profile);
    }
  }

  lemma UpdateKeepsOthers(users: seq<Record>, i: nat, u: Record)
    requires i < |users|
    ensures |users[i := u]| == |users|
    ensures forall j :: 0 <= j < |users| && j != i ==> users[i := u][j] == users[j]
  {
  }

  /** None of the found profile's non-empty uid or name fields is overwritten. */
  lemma ReconcileKeepsFields(users: seq<Record>, fb: Identity, defaultRole: string, clock: Clock, i: nat)
    requires FindProfile(users, fb) == Some(i)
    ensures var o := Reconciled(users, fb, defaultRole, clock);
            && (Truthy(Get(users[i], "uid")) ==> Get(o.users[i], "uid") == Get(users[i], "uid"))
            && (Truthy(Get(users[i], "firstName")) ==> Get(o.users[i], "firstName") == Get(users[i], "firstName"))
            && (Truthy(Get(users[i], "lastName")) ==> Get(o.users[i], "lastName") == Get(users[i], "lastName"))
  {
    var o := Reconciled(users, fb, defaultRole, clock);
    var u := Backfill(users[i], fb).user;
    BackfillKeepsFields(users[i], fb);
    assert o.users == users[i := u];
    assert o.users[i] == u;
  }

  /** An appended profile carrying the uid is found when nothing else matched. */
  lemma FoundAfterAppend(users: seq<Record>, p: Record, fb: Identity)
    requires FindProfile(users, fb).None? && UidMatch(p, fb)
    ensures FindProfile(users + [p], fb) == Some(|users|)
  {
    var o := users + [p];
    assert o[|users|] == p;
    forall j | 0 <= j < |users| ensures !UidMatch(o[j], fb) {
      assert o[j] == users[j];
    }
  }

  /**
   * A found profile rewritten with its email kept, its truthy uid kept and
   * a missing uid filled in is found again at the same index.
   */
  lemma FoundAfterRewrite(users: seq<Record>, i: nat, u: Record, fb: Identity)
    requires fb.uid != "" && FindProfile(users, fb) == Some(i)
    requires Get(u, "email") == Get(users[i], "email")
    requires Truthy(Get(users[i], "uid")) ==> Get(u, "uid") == Get(users[i], "uid")
    requires !Truthy(Get(users[i], "uid")) ==> Get(u, "uid") == Some(Str(fb.uid))
    ensures FindProfile(users[i := u], fb) == Some(i)
  {
    var o := users[i := u];
    assert o[i] == u;
    if exists j :: 0 <= j < |users| && UidMatch(users[j], fb) {
      assert UidMatch(o[i], fb);
      forall j | 0 <= j < i ensures !UidMatch(o[j], fb) {
        assert o[j] == users[j];
      }
    } else if UidMatch(o[i], fb) {
      forall j | 0 <= j < |o| && j != i ensures !UidMatch(o[j], fb) {
        assert o[j] == users[j];
      }
    } else {
      assert EmailMatch(o[i], fb);
      forall j | 0 <= j < |o| && j != i ensures !UidMatch(o[j], fb) {
        assert o[j] == users[j];
      }
      forall j | 0 <= j < i ensures !EmailMatch(o[j], fb) {
        assert o[j] == users[j];
      }
    }
  }

  /** The same profile is found again: the one created, or the one backfilled. */
  lemma FoundAgain(users: seq<Record>, fb: Identity, defaultRole: string, clock: Clock)
    requires fb.uid != ""
    ensures var o := Reconciled(users, fb, defaultRole, clock);
            FindProfile(o.users, fb) == Some(if FindProfile(users, fb).None? then |users| else FindProfile(users, fb).value)
  {
    match FindProfile(users, fb)
    case None =>
      var p := CreateProfile(fb, NewProfileExtra(defaultRole), clock);
      CreatedProfileMatches(fb, NewProfileExtra(defaultRole), clock);
      FoundAfterAppend(users, p, fb);
    case Some(i) =>
      BackfillKeepsFields(users[i], fb);
      FoundAfterRewrite(users, i, Backfill(users[i], fb).user, fb);
  }

  /**
   * Reconciling the same identity a second time changes nothing: no record
   * is added, nothing is rewritten, and the same profile is returned.
   */
  lemma ReconcileIdempotent(users: seq<Record>, fb: Identity, defaultRole: string, first: Clock, second: Clock)
    requires fb.uid != ""
    ensures var o := Reconciled(users, fb, defaultRole, first);
            Reconciled(o.users, fb, defaultRole, second) == o
  {
    if FindProfile(users, fb).None? {
      IdempotentAfterCreate(users, fb, defaultRole, first, second);
    } else {
      IdempotentAfterBackfill(users, fb, defaultRole, first, second, FindProfile(users, fb).value);
    }
  }

  lemma IdempotentAfterCreate(users: seq<Record>, fb: Identity, defaultRole: string, first: Clock, second: Clock)
    requires fb.uid != "" && FindProfile(users, fb).None?
    ensures var o := Reconciled(users, fb, defaultRole, first);
            Reconciled(o.users, fb, defaultRole, second) == o
  {
    var o := Reconciled(users, fb, defaultRole, first);
    FoundAgain(users, fb, defaultRole, first);
    CreatedNeedsNoBackfill(fb, NewProfileExtra(defaultRole), first);
    assert o.users[|users|] == o.profile;
    UpdateSame(o.users, |users|);
  }

  lemma IdempotentAfterBackfill(users: seq<Record>, fb: Identity, defaultRole: string, first: Clock, second: Clock, i: nat)
    requires fb.uid != "" && FindProfile(users, fb) == Some(i)
    ensures var o := Reconciled(users, fb, defaultRole, first);
            Reconciled(o.users, fb, defaultRole, second) == o
  {
    var o := Reconciled(users, fb, defaultRole, first);
    FoundAgain(users, fb, defaultRole, first);
    BackfillSettles(users[i], fb);
    assert o.users[i] == o.profile;
    UpdateSame(o.users, i);
  }

  /** Writing an element back where it already is changes nothing. */
  lemma UpdateSame(users: seq<Record>, i: nat)
    requires i < |users|
    ensures users[i := users[i]] == users
  {
  }

  // ---------------------------------------------------------------------
  // What the code as written does keep
  // ---------------------------------------------------------------------

  /**
   * The code as written, defects included, adds a record exactly when
   * nothing matched, and afterwards the identity finds a profile.
   */
  lemma AsWrittenFoundAgain(users: seq<Record>, fb: Identity, defaultRole: string, clock: Clock)
    requires fb.uid != ""
    ensures var o := ReconciledAsWritten(users, fb, defaultRole, clock);
            |o.users| == |users| + (if FindProfile(users, fb).None? then 1 else 0)
    ensures FindProfile(ReconciledAsWritten(users, fb, defaultRole, clock).users, fb).Some?
  {
    var o := ReconciledAsWritten(users, fb, defaultRole, clock);
    match FindProfile(users, fb)
    case None =>
      var p := CreateProfile(fb, NewProfileExtra(defaultRole), clock);
      CreatedProfileMatches(fb, NewProfileExtra(defaultRole), clock);
      FoundAfterAppend(users, p, fb);
    case Some(i) =>
      var f := BackfillAsWritten(users[i], fb);
      if f.updated {
        AsWrittenStillMatches(users[i], fb);
        var mutated := users[i := f.user];
        var m := (u: Record) => UidMatch(u, fb) || EmailMatch(u, fb);
        assert m(mutated[i]);
        var idx := FirstWhere(mutated, m).value;
        assert o.users == mutated[idx := f.user];
        assert m(o.users[idx]);
      }
  }

  /** A backfill as written keeps a found profile matching the identity. */
  lemma AsWrittenStillMatches(user: Record, fb: Identity)
    requires fb.uid != "" && (UidMatch(user, fb) || EmailMatch(user, fb))
    ensures var f := BackfillAsWritten(user, fb);
            UidMatch(f.user, fb) || EmailMatch(f.user, fb)
  {
    var named := Text.Trim(fb.displayName) != "";
    var fn := Text.FirstPart(fb.displayName, ' ');
    var ln := Text.OtherParts(fb.displayName, ' ');
    AsWrittenSplit(user, fb, named, fn, ln);
    FillStillMatches(user, fb, named, fn, ln);
  }

  lemma FillStillMatches(user: Record, fb: Identity, named: bool, fn: string, ln: string)
    requires fb.uid != "" && (UidMatch(user, fb) || EmailMatch(user, fb))
    ensures var f := BackfillFrom(user, fb.uid, named, fn, ln);
            UidMatch(f.user, fb) || EmailMatch(f.user, fb)
  {
    BackfillFromKeeps(user, fb.uid, named, fn, ln);
  }

  /**
   * Calling the code as written a second time never adds a record: the
   * first call left a profile the identity finds.
   */
  lemma AsWrittenNoSecondRecord(users: seq<Record>, fb: Identity, defaultRole: string, first: Clock, second: Clock)
    requires fb.uid != ""
    ensures var o := ReconciledAsWritten(users, fb, defaultRole, first);
            |ReconciledAsWritten(o.users, fb, defaultRole, second).users| == |o.users|
  {
    var o := ReconciledAsWritten(users, fb, defaultRole, first);
    AsWrittenFoundAgain(users, fb, defaultRole, first);
    AsWrittenFoundAgain(o.users, fb, defaultRole, second);
  }

  // ---------------------------------------------------------------------
  // The two defects of the code as written
  // ---------------------------------------------------------------------

  /**
   * The write-back index: a profile found by uid, whose email also belongs
   * to an earlier record, is written over that earlier record and stays in
   * its own place too. The earlier record is lost; the corrected
   * reconciliation keeps it.
   */
  lemma WriteBackClobbersEarlierRecord()
    ensures var a := map["email" := Str("e")];
            var b := map["uid" := Str("u")];
            var fb := Identity("u", "e", "J", "");
            var b' := b["firstName" := Str("J")];
            && ReconciledAsWritten([a, b], fb, "", Clock(0, "t")).users == [b', b']
            && Reconciled([a, b], fb, "", Clock(0, "t")).users == [a, b']
  {
    var a := map["email" := Str("e")];
    var b := map["uid" := Str("u")];
    var fb := Identity("u", "e", "J", "");
    var b' := b["firstName" := Str("J")];
    FoundByUidBehindEmail(a, b, fb);
    BackfillOfBareUid(b, fb);
    var mutated := [a, b][1 := b'];
    assert mutated == [a, b'];
    assert EmailMatch(mutated[0], fb);
    FirstAtHead(mutated, (u: Record) => UidMatch(u, fb) || EmailMatch(u, fb));
  }

  /** The lookup prefers `b`, matched by uid, to the earlier `a`, matched by email. */
  lemma FoundByUidBehindEmail(a: Record, b: Record, fb: Identity)
    requires a == map["email" := Str("e")] && b == map["uid" := Str("u")] && fb == Identity("u", "e", "J", "")
    ensures FindProfile([a, b], fb) == Some(1)
  {
    var users := [a, b];
    assert users[0] == a && users[1] == b;
    assert !UidMatch(a, fb);
    assert UidMatch(users[1], fb);
  }

  /** With display name "J", a profile with only a uid gets "J" as first name and nothing else. */
  lemma BackfillOfBareUid(b: Record, fb: Identity)
    requires b == map["uid" := Str("u")] && fb == Identity("u", "e", "J", "")
    ensures BackfillAsWritten(b, fb) == Backfill(b, fb) == Fill(b["firstName" := Str("J")], true)
  {
    BackfillForOneWord(b, fb);
    BareUid(b);
    FillsFirstNameOnly(b, "u", "J");
  }

  /** For the display name "J", trimmed or not, the first word is "J" and there is no rest. */
  lemma BackfillForOneWord(user: Record, fb: Identity)
    requires fb.displayName == "J"
    ensures Backfill(user, fb) == BackfillAsWritten(user, fb) == BackfillFrom(user, fb.uid, true, "J", "")
  {
    assert "J" == ['J'] && !Text.IsSpace('J');
    LeadingSpace('J');
    AsWrittenSplit(user, fb, true, "J", "");
    TrimmedSplit(user, fb, true, "J", "");
  }

  /** The backfill as written, once the untrimmed split is known. */
  lemma AsWrittenSplit(user: Record, fb: Identity, named: bool, fn: string, ln: string)
    requires (Text.Trim(fb.displayName) != "") == named
    requires Text.FirstPart(fb.displayName, ' ') == fn && Text.OtherParts(fb.displayName, ' ') == ln
    ensures BackfillAsWritten(user, fb) == BackfillFrom(user, fb.uid, named, fn, ln)
  {
  }

  /** The corrected backfill, once the split of the trimmed name is known. */
  lemma TrimmedSplit(user: Record, fb: Identity, named: bool, fn: string, ln: string)
    requires (Text.Trim(fb.displayName) != "") == named
    requires Text.FirstPart(Text.Trim(fb.displayName), ' ') == fn && Text.OtherParts(Text.Trim(fb.displayName), ' ') == ln
    ensures Backfill(user, fb) == BackfillFrom(user, fb.uid, named, fn, ln)
  {
  }

  lemma BareUid(b: Record)
    requires b == map["uid" := Str("u")]
    ensures Truthy(Get(b, "uid")) && !Truthy(Get(b, "firstName"))
  {
  }

  lemma FillsFirstNameOnly(user: Record, uid: string, fn: string)
    requires Truthy(Get(user, "uid")) && !Truthy(Get(user, "firstName"))
    ensures BackfillFrom(user, uid, true, fn, "") == Fill(user["firstName" := Str(fn)], true)
  {
  }

  /**
   * The untrimmed split: a display name with a leading space creates a
   * profile whose first name is the word and whose last name is empty,
   * and a second reconciliation copies the same word into the last name.
   */
  lemma UntrimmedSplitRewritesProfile()
    ensures var fb := Identity("u", "", " J", "");
            var first := ReconciledAsWritten([], fb, "", Clock(0, "t"));
            var second := ReconciledAsWritten(first.users, fb, "", Clock(1, "t"));
            && Get(first.profile, "firstName") == Some(Str("J")) && Get(first.profile, "lastName") == Some(Str(""))
            && Get(second.profile, "lastName") == Some(Str("J"))
            && second.users == [second.profile] != first.users
  {
    assert Text.IsSpace(' ') && !Text.IsSpace('J');
    UntrimmedSplitRewrites(Identity("u", "", " J", ""), 'J', Clock(0, "t"), Clock(1, "t"));
  }

  /** The display name is one word behind one leading space, and there is a uid but no email. */
  predicate LeadingSpaceName(fb: Identity, w: char) {
    fb.uid != "" && fb.email == "" && fb.displayName == [' ', w] && !Text.IsSpace(w)
  }

  /** The same, for any such identity and any times of the two calls. */
  lemma UntrimmedSplitRewrites(fb: Identity, w: char, c0: Clock, c1: Clock)
    requires LeadingSpaceName(fb, w)
    ensures var first := ReconciledAsWritten([], fb, "", c0);
            var second := ReconciledAsWritten(first.users, fb, "", c1);
            && Get(first.profile, "firstName") == Some(Str([w])) && Get(first.profile, "lastName") == Some(Str(""))
            && Get(second.profile, "lastName") == Some(Str([w]))
            && second.users == [second.profile] != first.users
  {
    var p := CreateProfile(fb, NewProfileExtra(""), c0);
    FirstRunCreates(fb, c0);
    LeadingSpaceProfile(fb, w, c0);
    SecondRunRewrites(fb, w, c0, c1);
    ChangedLastName(p, [w]);
  }

  lemma FirstRunCreates(fb: Identity, c0: Clock)
    ensures var p := CreateProfile(fb, NewProfileExtra(""), c0);
            ReconciledAsWritten([], fb, "", c0) == Outcome([p], p)
  {
    var p := CreateProfile(fb, NewProfileExtra(""), c0);
    NothingInEmpty(fb);
    CreatesWhenNoneFound([], fb, "", c0);
    assert [] + [p] == [p];
  }

  lemma NothingInEmpty(fb: Identity)
    ensures FindProfile([], fb).None?
  {
  }

  /** Giving an empty last name a non-empty value changes the collection holding the profile. */
  lemma ChangedLastName(p: Record, ln: string)
    requires Get(p, "lastName") == Some(Str("")) && ln != ""
    ensures [p["lastName" := Str(ln)]] != [p]
  {
    var p' := p["lastName" := Str(ln)];
    assert [p'][0] != [p][0] by {
      assert Get(p', "lastName") != Get(p, "lastName");
    }
  }

  lemma CreatesWhenNoneFound(users: seq<Record>, fb: Identity, defaultRole: string, clock: Clock)
    requires FindProfile(users, fb).None?
    ensures var p := CreateProfile(fb, NewProfileExtra(defaultRole), clock);
            ReconciledAsWritten(users, fb, defaultRole, clock) == Outcome(users + [p], p)
  {
  }

  lemma SecondRunRewrites(fb: Identity, w: char, c0: Clock, c1: Clock)
    requires LeadingSpaceName(fb, w)
    ensures var p := CreateProfile(fb, NewProfileExtra(""), c0);
            var p' := p["lastName" := Str([w])];
            ReconciledAsWritten([p], fb, "", c1) == Outcome([p'], p')
  {
    var p := CreateProfile(fb, NewProfileExtra(""), c0);
    var p' := p["lastName" := Str([w])];
    CreatedProfileMatches(fb, NewProfileExtra(""), c0);
    FoundAfterAppend([], p, fb);
    assert [] + [p] == [p];
    LeadingSpaceBackfill(fb, w, c0);
    UidMatchSurvives(p, fb, "lastName", Str([w]));
    WriteBackSingle(p, p', fb, "", c1);
  }

  lemma UidMatchSurvives(p: Record, fb: Identity, k: string, v: Json)
    requires UidMatch(p, fb) && k != "uid"
    ensures UidMatch(p[k := v], fb)
  {
    assert Get(p[k := v], "uid") == Get(p, "uid");
  }

  /** The write-back as written, on a collection of one matching profile. */
  lemma WriteBackSingle(p: Record, q: Record, fb: Identity, defaultRole: string, clock: Clock)
    requires FindProfile([p], fb) == Some(0) && BackfillAsWritten(p, fb) == Fill(q, true) && UidMatch(q, fb)
    ensures ReconciledAsWritten([p], fb, defaultRole, clock) == Outcome([q], q)
  {
    assert [p][0 := q] == [q];
    FirstAtHead([q], (u: Record) => UidMatch(u, fb) || EmailMatch(u, fb));
  }

  lemma FirstAtHead(xs: seq<Record>, m: Record -> bool)
    requires |xs| > 0 && m(xs[0])
    ensures FirstWhere(xs, m) == Some(0)
  {
  }

  /** A one-character word trims to itself, with or without a space before it; split untrimmed, the spaced one has an empty first word and the word after it. */
  lemma LeadingSpace(w: char)
    requires !Text.IsSpace(w)
    ensures Text.Trim([w]) == [w] && Text.Trim([' ', w]) == [w]
    ensures Text.FirstPart([w], ' ') == [w] && Text.OtherParts([w], ' ') == ""
    ensures Text.FirstPart([' ', w], ' ') == "" && Text.OtherParts([' ', w], ' ') == [w]
  {
    assert Text.IsSpace(' ');
    Text.TrimOneWord(w);
    Text.SplitOneWord(w);
  }

  /** The profile created for " w" has first name "w" and an empty last name. */
  lemma LeadingSpaceProfile(fb: Identity, w: char, c0: Clock)
    requires LeadingSpaceName(fb, w)
    ensures var p := CreateProfile(fb, NewProfileExtra(""), c0);
            Get(p, "firstName") == Some(Str([w])) && Get(p, "lastName") == Some(Str(""))
  {
    LeadingSpace(w);
    CreateProfileFields(fb, NewProfileExtra(""), c0);
  }

  /** Backfilling that profile as written copies the word into the empty last name. */
  lemma LeadingSpaceBackfill(fb: Identity, w: char, c0: Clock)
    requires LeadingSpaceName(fb, w)
    ensures var p := CreateProfile(fb, NewProfileExtra(""), c0);
            BackfillAsWritten(p, fb) == Fill(p["lastName" := Str([w])], true)
  {
    var p := CreateProfile(fb, NewProfileExtra(""), c0);
    LeadingSpace(w);
    AsWrittenSplit(p, fb, true, "", [w]);
    LeadingSpaceProfile(fb, w, c0);
    CreatedProfileMatches(fb, NewProfileExtra(""), c0);
    FillsLastNameOnly(p, fb.uid, [w]);
  }

  lemma FillsLastNameOnly(user: Record, uid: string, ln: string)
    requires Truthy(Get(user, "uid")) && Truthy(Get(user, "firstName")) && Get(user, "lastName") == Some(Str(""))
    requires ln != ""
    ensures BackfillFrom(user, uid, true, "", ln) == Fill(user["lastName" := Str(ln)], true)
  {
  }

  /** When a profile is found, the outcome is its backfill, written back only if something was filled in. */
  lemma ReconciledWhenFound(users: seq<Record>, fb: Identity, defaultRole: string, clock: Clock, i: nat)
    requires FindProfile(users, fb) == Some(i)
    ensures var f := Backfill(users[i], fb);
            Reconciled(users, fb, defaultRole, clock) == Outcome(if f.updated then users[i := f.user] else users, f.user)
  {
    BackfillFlagsChange(users[i], fb);
  }

  // ---------------------------------------------------------------------
  // The procedures, step by step
  // ---------------------------------------------------------------------

  /** `localStorage.setItem('monastery360Users', …)`. */
  method SaveUsers(s: Store, users: seq<Record>)
    modifies s
    ensures s.View() == old(s.View()).(users := users)
  {
    s.users := users;
  }

  /** `createLocalProfileFromFirebaseUser`: appends the new profile and saves. */
  method CreateLocalProfile(s: Store, fb: Identity, extra: Extra, clock: Clock) returns (profile: Record)
    modifies s
    ensures profile == CreateProfile(fb, extra, clock)
    ensures s.View() == old(s.View()).(users := old(s.users) + [profile])
  {
    var users := s.users;
    profile := CreateProfile(fb, extra, clock);
    users := users + [profile];
    SaveUsers(s, users);
  }

  /**
   * The three guarded assignments of the backfill, in order: the uid when
   * the profile has none; with a non-blank display name, the first word
   * into an empty first name and the rest into an empty last name.
   */
  method FillIn(user: Record, uid: string, named: bool, fn: string, ln: string) returns (u: Record, updated: bool)
    ensures Fill(u, updated) == BackfillFrom(user, uid, named, fn, ln)
  {
    u := user;
    updated := false;
    if !Truthy(Get(u, "uid")) {
      u := u["uid" := Str(uid)];
      updated := true;
    }
    if named {
      if !Truthy(Get(u, "firstName")) {
        u := u["firstName" := Str(fn)];
        updated := true;
      }
      if !Truthy(Get(u, "lastName")) && ln != "" {
        u := u["lastName" := Str(ln)];
        updated := true;
      }
    }
  }

  /**
   * `ensureLocalProfileForFirebaseUser`, with the corrected write-back:
   * the `updated` flag records whether any field was filled in, and only
   * then is the collection saved.
   */
  method EnsureLocalProfile(s: Store, fb: Identity, defaultRole: string, clock: Clock) returns (profile: Record)
    modifies s
    ensures profile == Reconciled(old(s.users), fb, defaultRole, clock).profile
    ensures s.View() == old(s.View()).(users := Reconciled(old(s.users), fb, defaultRole, clock).users)
  {
    var users := s.users;
    var found := FindProfile(users, fb);
    if found.None? {
      profile := CreateLocalProfile(s, fb, NewProfileExtra(defaultRole), clock);
      return;
    }
    var i := found.value;
    var name := Text.Trim(fb.displayName);
    var user, updated := FillIn(users[i], fb.uid, name != "", Text.FirstPart(name, ' '), Text.OtherParts(name, ' '));
    ReconciledWhenFound(users, fb, defaultRole, clock, i);
    if updated {
      users := users[i := user];
      s.users := users;
    }
    profile := user;
  }

  /**
   * The listener on the provider's auth state: a signed-in identity is
   * reconciled and its profile becomes the session; signing out clears it.
   */
  method OnAuthStateChanged(s: Store, fbUser: Option<Identity>, clock: Clock)
    modifies s
    ensures fbUser.None? ==> s.View() == old(s.View()).(currentUser := None)
    ensures fbUser.Some? ==>
              var o := Reconciled(old(s.users), fbUser.value, "", clock);
              s.View() == old(s.View()).(users := o.users, currentUser := Some(o.profile))
  {
    if fbUser.Some? {
      var profile := EnsureLocalProfile(s, fbUser.value, "", clock);
      s.currentUser := Some(profile);
    } else {
      s.currentUser := None;
    }
  }
}
