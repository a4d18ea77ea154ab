/**
 * Local-credential authentication of assets/auth.js: the role predicate
 * and the session checks built on it, the provider error-code table, the
 * registration validator with its email pattern, local login and
 * registration against the `monastery360Users` collection, and the
 * demo-user seeding. Reconciliation with an external identity is in
 * module Reconcile.
 */
module Auth {
  import opened Js
  import Text
  import opened LocalStore

  // ---------------------------------------------------------------------
  // Roles
  // ---------------------------------------------------------------------

  const AdminRoles: seq<string> := ["monk", "archivist", "tourism_official", "super_admin"]

  /** `isAdminRole(role)`: `includes` compares strictly, so only these four strings pass. */
  predicate IsAdminRole(role: Option<Json>) {
    role.Some? && role.value.Str? && role.value.s in AdminRoles
  }

  /** The default role of every new account is not an admin role, nor is a missing one. */
  lemma TouristIsNotAdmin()
    ensures !IsAdminRole(Some(Str("tourist")))
    ensures !IsAdminRole(None) && !IsAdminRole(Some(Null))
  {
  }

  /** `hasRole(required)`: a session exists and its role is exactly the one required. */
  predicate HasRole(session: Option<Record>, required: string) {
    session.Some? && Get(session.value, "role") == Some(Str(required))
  }

  /** `hasAnyRole(required)`: a session exists and its role is one of those listed. */
  predicate HasAnyRole(session: Option<Record>, required: seq<string>) {
    session.Some? && Get(session.value, "role").Some? && Get(session.value, "role").value.Str?
    && Get(session.value, "role").value.s in required
  }

  /**
   * The two checks agree: one role is a list of one; widening the list
   * never revokes access; without a session both refuse.
   */
  lemma RoleChecksAgree(session: Option<Record>, role: string, required: seq<string>, wider: seq<string>)
    ensures HasRole(session, role) <==> HasAnyRole(session, [role])
    ensures (forall i :: 0 <= i < |required| ==> required[i] in wider) && HasAnyRole(session, required)
            ==> HasAnyRole(session, wider)
    ensures session.None? ==> !HasRole(session, role) && !HasAnyRole(session, required)
  {
    if HasAnyRole(session, required) && (forall i :: 0 <= i < |required| ==> required[i] in wider) {
      var r := Get(session.value, "role").value.s;
      var i :| 0 <= i < |required| && required[i] == r;
    }
  }

  /** An admin session is exactly one that has any of the admin roles. */
  lemma AdminSessionIsHasAnyRole(session: Option<Record>)
    requires session.Some?
    ensures IsAdminRole(Get(session.value, "role")) <==> HasAnyRole(session, AdminRoles)
  {
  }

  // ---------------------------------------------------------------------
  // Provider error codes
  // ---------------------------------------------------------------------

  const GenericFailure := "Authentication failed. Please try again."
  const UnknownCodePrefix := "Authentication error: "

  /** The table of `parseFirebaseAuthError`: the message of a known code. */
  function KnownMessage(code: string): Option<string> {
    match code
    case "auth/invalid-email" => Some("Invalid email address")
    case "auth/user-disabled" => Some("This account has been disabled")
    case "auth/user-not-found" => Some("No account found with this email")
    case "auth/wrong-password" => Some("Incorrect password")
    case "auth/email-already-in-use" => Some("An account with this email already exists")
    case "auth/weak-password" => Some("Password is too weak")
    case "auth/popup-closed-by-user" => Some("The sign-in popup was closed before completing the sign in")
    case "auth/cancelled-popup-request" => Some("Popup request was cancelled. Please try again")
    case "auth/account-exists-with-different-credential" =>
      Some("An account already exists with the same email address")
    case "auth/operation-not-allowed" => Some("This sign-in method is not enabled for this project")
    case _ => None
  }

  /**
   * `parseFirebaseAuthError(err)`, given `err.code` (`None` when there is no
   * error object or no code): a falsy code gives the generic message, a
   * known one its own message, any other the code behind a fixed prefix.
   */
  function ParseAuthError(code: Option<Json>): (message: string)
    ensures !Truthy(code) ==> message == GenericFailure
    ensures Truthy(code) && KnownMessage(ToJsString(code)).Some? ==>
              message == KnownMessage(ToJsString(code)).value
    ensures Truthy(code) && KnownMessage(ToJsString(code)).None? ==>
              message == UnknownCodePrefix + ToJsString(code)
  {
    if !Truthy(code) then GenericFailure
    else
      var c := ToJsString(code);
      match KnownMessage(c)
      case Some(m) => m
      case None => UnknownCodePrefix + c
  }

  /**
   * An unrecognised code is passed through verbatim behind the prefix, so
   * distinct unrecognised codes give distinct messages and the code can be
   * read back from the message.
   */
  lemma UnknownCodesEchoed(a: Option<Json>, b: Option<Json>)
    requires Truthy(a) && KnownMessage(ToJsString(a)).None?
    requires Truthy(b) && KnownMessage(ToJsString(b)).None?
    ensures ParseAuthError(a)[|UnknownCodePrefix|..] == ToJsString(a)
    ensures ParseAuthError(a) == ParseAuthError(b) <==> ToJsString(a) == ToJsString(b)
  {
    var ma, mb := ParseAuthError(a), ParseAuthError(b);
    assert ma[|UnknownCodePrefix|..] == ToJsString(a);
    assert mb[|UnknownCodePrefix|..] == ToJsString(b);
  }

  // ---------------------------------------------------------------------
  // Registration validation
  // ---------------------------------------------------------------------

  /** A character `[^\s@]` matches. */
  predicate Plain(c: char) {
    !Text.IsSpace(c) && c != '@'
  }

  /** A run `[^\s@]+` matches entirely. */
  predicate PlainRun(s: string) {
    |s| > 0 && forall k :: 0 <= k < |s| ==> Plain(s[k])
  }

  /**
   * The language of `^[^\s@]+@[^\s@]+\.[^\s@]+$`: three plain runs, the
   * first two joined by an `@`, the last two by a dot.
   */
  ghost predicate EmailPattern(s: string) {
    exists i, j :: 0 < i < j < |s| - 1 && s[i] == '@' && s[j] == '.'
                   && PlainRun(s[..i]) && PlainRun(s[i + 1..j]) && PlainRun(s[j + 1..])
  }

  /**
   * `isValidEmail(email)`: no white space, exactly one `@` with text
   * before it, and a dot after the `@` that is neither the first nor the
   * last character there.
   */
  predicate IsValidEmail(email: string) {
    && (forall k :: 0 <= k < |email| ==> !Text.IsSpace(email[k]))
    && '@' in email
    && var at := Text.IndexOf(email, '@');
       var domain := email[at + 1..];
       && at > 0 && '@' !in domain
       && exists k :: 0 < k < |domain| - 1 && domain[k] == '.'
  }

  /** Whatever the check accepts, the regular expression matches. */
  lemma ValidEmailMatches(email: string)
    requires IsValidEmail(email)
    ensures EmailPattern(email)
  {
    var at := Text.IndexOf(email, '@');
    var domain := email[at + 1..];
    var k :| 0 < k < |domain| - 1 && domain[k] == '.';
    var j := at + 1 + k;
    assert email[j] == '.';
    assert email[at + 1..j] == domain[..k];
    assert email[j + 1..] == domain[k + 1..];
    forall x | 0 <= x < |domain| ensures Plain(domain[x]) {
      assert domain[x] in domain;
    }
    forall x | 0 <= x < at ensures Plain(email[x]) {
      assert email[x] in email[..at];
    }
    assert PlainRun(email[..at]);
    assert PlainRun(email[at + 1..j]);
    assert PlainRun(email[j + 1..]);
  }

  /** Three plain runs joined by `@` and `.` hold no white space. */
  lemma JoinedRunsHaveNoSpace(left: string, mid: string, right: string)
    requires PlainRun(left) && PlainRun(mid) && PlainRun(right)
    ensures var email := left + ['@'] + mid + ['.'] + right;
            forall k :: 0 <= k < |email| ==> !Text.IsSpace(email[k])
  {
    var email := left + ['@'] + mid + ['.'] + right;
    forall k | 0 <= k < |email| ensures !Text.IsSpace(email[k]) {
      var i, j := |left|, |left| + 1 + |mid|;
      if k < i { assert email[k] == left[k]; }
      else if i < k < j { assert email[k] == mid[k - i - 1]; }
      else if k > j { assert email[k] == right[k - j - 1]; }
    }
  }

  /** An `@` with none before it is the first one. */
  lemma FirstAt(email: string, i: nat)
    requires i < |email| && email[i] == '@' && '@' !in email[..i]
    ensures Text.IndexOf(email, '@') == i
  {
  }

  /** Three plain runs joined by `@` and `.` pass the check. */
  lemma JoinedRunsAreValid(left: string, mid: string, right: string)
    requires PlainRun(left) && PlainRun(mid) && PlainRun(right)
    ensures IsValidEmail(left + ['@'] + mid + ['.'] + right)
  {
    var email := left + ['@'] + mid + ['.'] + right;
    JoinedRunsHaveNoSpace(left, mid, right);
    assert email[|left|] == '@';
    assert email[..|left|] == left;
    assert '@' !in left;
    FirstAt(email, |left|);
    var domain := email[|left| + 1..];
    assert domain == mid + ['.'] + right;
    assert domain[|mid|] == '.';
    assert '@' !in domain;
  }

  /** Whatever the regular expression matches, the check accepts. */
  lemma PatternIsValid(email: string)
    requires EmailPattern(email)
    ensures IsValidEmail(email)
  {
    var i, j :| 0 < i < j < |email| - 1 && email[i] == '@' && email[j] == '.'
                && PlainRun(email[..i]) && PlainRun(email[i + 1..j]) && PlainRun(email[j + 1..]);
    SplitAtTwo(email, i, j);
    JoinedRunsAreValid(email[..i], email[i + 1..j], email[j + 1..]);
  }

  /** A text is its three pieces around an `@` at `i` and a dot at `j`, joined again. */
  lemma SplitAtTwo(email: string, i: nat, j: nat)
    requires i < j < |email| && email[i] == '@' && email[j] == '.'
    ensures email == email[..i] + ['@'] + email[i + 1..j] + ['.'] + email[j + 1..]
  {
    assert email == email[..i] + email[i..j] + email[j..];
    assert email[i..j] == ['@'] + email[i + 1..j];
    assert email[j..] == ['.'] + email[j + 1..];
  }

  /** The check accepts exactly the strings the regular expression matches. */
  lemma IsValidEmailMatchesPattern(email: string)
    ensures IsValidEmail(email) <==> EmailPattern(email)
  {
    if IsValidEmail(email) { ValidEmailMatches(email); }
    if EmailPattern(email) { PatternIsValid(email); }
  }

  /** The registration form's fields; a field the form does not send is `""`, which every check treats as empty. */
  datatype RegistrationForm = RegistrationForm(
    firstName: string, lastName: string, email: string,
    password: string, confirmPassword: string, role: string)

  const MissingFields := "Please fill in all required fields"
  const BadEmail := "Please enter a valid email address"
  const ShortPassword := "Password must be at least 6 characters long"
  const PasswordMismatch := "Passwords do not match"
  const NoRole := "Please select your role"

  /** `validateRegistrationData(userData)`: the first failing check's message, `None` when all pass. */
  function ValidateRegistration(f: RegistrationForm): (error: Option<string>)
    ensures error.None? <==>
              && f.firstName != "" && f.lastName != "" && f.email != "" && f.password != ""
              && IsValidEmail(f.email) && |f.password| >= 6
              && f.password == f.confirmPassword && f.role != ""
    ensures error.Some? ==> error.value in {MissingFields, BadEmail, ShortPassword, PasswordMismatch, NoRole}
  {
    if f.firstName == "" || f.lastName == "" || f.email == "" || f.password == "" then Some(MissingFields)
    else if !IsValidEmail(f.email) then Some(BadEmail)
    else if |f.password| < 6 then Some(ShortPassword)
    else if f.password != f.confirmPassword then Some(PasswordMismatch)
    else if f.role == "" then Some(NoRole)
    else None
  }

  /**
   * The checks run in order: each message is reported exactly when every
   * earlier check passed and its own failed.
   */
  lemma ValidationOrder(f: RegistrationForm)
    ensures var filled := f.firstName != "" && f.lastName != "" && f.email != "" && f.password != "";
            && (ValidateRegistration(f) == Some(MissingFields) <==> !filled)
            && (ValidateRegistration(f) == Some(BadEmail) <==> filled && !IsValidEmail(f.email))
            && (ValidateRegistration(f) == Some(ShortPassword) <==>
                  filled && IsValidEmail(f.email) && |f.password| < 6)
            && (ValidateRegistration(f) == Some(PasswordMismatch) <==>
                  filled && IsValidEmail(f.email) && |f.password| >= 6 && f.password != f.confirmPassword)
            && (ValidateRegistration(f) == Some(NoRole) <==>
                  filled && IsValidEmail(f.email) && |f.password| >= 6 && f.password == f.confirmPassword
                  && f.role == "")
  {
  }

  // ---------------------------------------------------------------------
  // Local login and registration
  // ---------------------------------------------------------------------

  const InvalidCredentials := "Invalid email or password"
  const DuplicateEmail := "An account with this email already exists"

  /** `u.email === email && u.password === password`: exact, case-sensitive. */
  predicate Credentials(u: Record, email: string, password: string) {
    Get(u, "email") == Some(Str(email)) && Get(u, "password") == Some(Str(password))
  }

  /** `users.find(u => u.email === email)`, as an index. */
  function IndexOfEmail(users: seq<Record>, email: string): Option<nat> {
    FirstWhere(users, (u: Record) => Get(u, "email") == Some(Str(email)))
  }

  /** The first stored user with these exact credentials. */
  function FindLogin(users: seq<Record>, email: string, password: string): Option<nat> {
    FirstWhere(users, (u: Record) => Credentials(u, email, password))
  }

  /**
   * The local branch of `handleLogin`: empty fields are refused without a
   * lookup; otherwise the first user with exactly these credentials becomes
   * the session, and any other outcome is the one message that does not say
   * which of the two was wrong.
   */
  method Login(s: Store, email: string, password: string) returns (r: Result<Record>)
    modifies s
    ensures (email == "" || password == "") ==> r == Err(MissingFields) && s.View() == old(s.View())
    ensures email != "" && password != "" ==>
              (r.Ok? <==> exists j :: 0 <= j < |old(s.users)| && Credentials(old(s.users)[j], email, password))
    ensures r.Ok? ==> r.value == old(s.users)[FindLogin(old(s.users), email, password).value]
                      && s.View() == old(s.View()).(currentUser := Some(r.value))
    ensures r.Err? ==> r.message in {MissingFields, InvalidCredentials} && s.View() == old(s.View())
  {
    if email == "" || password == "" {
      return Err(MissingFields);
    }
    var users := s.users;
    var found := FindLogin(users, email, password);
    if found.None? {
      return Err(InvalidCredentials);
    }
    var user := users[found.value];
    s.currentUser := Some(user);
    r := Ok(user);
  }

  /** The account local registration creates. */
  function NewUser(f: RegistrationForm, clock: Clock, newsletter: bool): (u: Record)
    ensures Credentials(u, f.email, f.password)
    ensures Get(u, "id") == Some(Str("user_" + Text.Decimal(clock.millis)))
    ensures Get(u, "role") == Some(Str(if f.role != "" then f.role else "tourist"))
  {
    map["id" := Str("user_" + Text.Decimal(clock.millis)),
        "firstName" := Str(f.firstName),
        "lastName" := Str(f.lastName),
        "email" := Str(f.email),
        "password" := Str(f.password),
        "role" := Str(if f.role != "" then f.role else "tourist"),
        "createdAt" := Str(clock.iso),
        "preferences" := Obj(map["newsletter" := Bool(newsletter)])]
  }

  /**
   * The local branch of `handleRegistration`: an invalid form or an email
   * already stored (exact match) is refused and nothing is written;
   * otherwise one user is appended and becomes the session.
   */
  method Register(s: Store, f: RegistrationForm, newsletter: bool, clock: Clock) returns (r: Result<Record>)
    modifies s
    ensures ValidateRegistration(f).Some? ==> r == Err(ValidateRegistration(f).value) && s.View() == old(s.View())
    ensures ValidateRegistration(f).None? && IndexOfEmail(old(s.users), f.email).Some? ==>
              r == Err(DuplicateEmail) && s.View() == old(s.View())
    ensures ValidateRegistration(f).None? && IndexOfEmail(old(s.users), f.email).None? ==>
              && r == Ok(NewUser(f, clock, newsletter))
              && s.View() == old(s.View()).(users := old(s.users) + [r.value], currentUser := Some(r.value))
  {
    var invalid := ValidateRegistration(f);
    if invalid.Some? {
      return Err(invalid.value);
    }
    var existingUsers := s.users;
    if IndexOfEmail(existingUsers, f.email).Some? {
      return Err(DuplicateEmail);
    }
    var newUser := NewUser(f, clock, newsletter);
    existingUsers := existingUsers + [newUser];
    s.users := existingUsers;
    s.currentUser := Some(newUser);
    r := Ok(newUser);
  }

  /**
   * A fresh registration can log straight in, and as the account just
   * created: no earlier user shares its email, so none can match first.
   */
  lemma RegisterThenLogin(users: seq<Record>, f: RegistrationForm, clock: Clock, newsletter: bool)
    requires ValidateRegistration(f).None? && IndexOfEmail(users, f.email).None?
    ensures FindLogin(users + [NewUser(f, clock, newsletter)], f.email, f.password) == Some(|users|)
  {
    var all := users + [NewUser(f, clock, newsletter)];
    var byEmail := (u: Record) => Get(u, "email") == Some(Str(f.email));
    var p := (u: Record) => Credentials(u, f.email, f.password);
    assert p(all[|users|]);
    forall j | 0 <= j < |users| ensures !p(all[j]) {
      assert all[j] == users[j] && !byEmail(users[j]);
    }
  }

  /** Registering the same email twice: the second attempt is refused. */
  lemma NoSecondAccount(users: seq<Record>, f: RegistrationForm, g: RegistrationForm, clock: Clock, newsletter: bool)
    requires g.email == f.email
    ensures IndexOfEmail(users + [NewUser(f, clock, newsletter)], g.email).Some?
  {
    var all := users + [NewUser(f, clock, newsletter)];
    assert Get(all[|users|], "email") == Some(Str(g.email));
  }

  // ---------------------------------------------------------------------
  // Demo users
  // ---------------------------------------------------------------------

  function DemoUser(id: string, firstName: string, lastName: string, email: string,
                    password: string, role: string, clock: Clock): Record {
    map["id" := Str(id), "firstName" := Str(firstName), "lastName" := Str(lastName),
        "email" := Str(email), "password" := Str(password), "role" := Str(role),
        "createdAt" := Str(clock.iso)]
  }

  /** The three demo accounts: one super admin, one monk, one tourist. */
  function DemoUsers(clock: Clock): seq<Record> {
    [DemoUser("admin_1", "Admin", "User", "admin@monastery360.com", "admin123", "super_admin", clock),
     DemoUser("monk_1", "Lama", "Tenzin", "tenzin@rumtek.monastery", "monk123", "monk", clock),
     DemoUser("tourist_1", "John", "Doe", "john@example.com", "user123", "tourist", clock)]
  }

  /** `initializeDemoUsers()` on the stored collection: seeds only an empty one. */
  function SeedDemoUsers(users: seq<Record>, clock: Clock): (r: seq<Record>)
    ensures |users| > 0 ==> r == users
    ensures |users| == 0 ==> |r| == 3
  {
    if |users| == 0 then DemoUsers(clock) else users
  }

  /** Seeding twice is seeding once, whenever the second run happens. */
  lemma SeedIdempotent(users: seq<Record>, first: Clock, second: Clock)
    ensures SeedDemoUsers(SeedDemoUsers(users, first), second) == SeedDemoUsers(users, first)
  {
  }

  /** Each demo account logs in with its documented password, and the roles are as listed. */
  lemma DemoAccountsLogIn(clock: Clock)
    ensures FindLogin(DemoUsers(clock), "admin@monastery360.com", "admin123") == Some(0)
    ensures FindLogin(DemoUsers(clock), "tenzin@rumtek.monastery", "monk123") == Some(1)
    ensures FindLogin(DemoUsers(clock), "john@example.com", "user123") == Some(2)
    ensures IsAdminRole(Get(DemoUsers(clock)[0], "role")) && IsAdminRole(Get(DemoUsers(clock)[1], "role"))
    ensures !IsAdminRole(Get(DemoUsers(clock)[2], "role"))
  {
    var d := DemoUsers(clock);
    assert Credentials(d[0], "admin@monastery360.com", "admin123");
    assert Credentials(d[1], "tenzin@rumtek.monastery", "monk123");
    assert Credentials(d[2], "john@example.com", "user123");
    assert !Credentials(d[0], "tenzin@rumtek.monastery", "monk123");
    assert !Credentials(d[0], "john@example.com", "user123");
    assert !Credentials(d[1], "john@example.com", "user123");
  }

  /**
   * Seeding an empty collection gives exactly the three demo accounts: each
   * logs in with its documented password at its place, and the first two
   * are admins and the third is not.
   */
  lemma EmptyCollectionGetsDemoAccounts(clock: Clock)
    ensures var d := SeedDemoUsers([], clock);
            && |d| == 3
            && FindLogin(d, "admin@monastery360.com", "admin123") == Some(0)
            && FindLogin(d, "tenzin@rumtek.monastery", "monk123") == Some(1)
            && FindLogin(d, "john@example.com", "user123") == Some(2)
            && IsAdminRole(Get(d[0], "role")) && IsAdminRole(Get(d[1], "role"))
            && !IsAdminRole(Get(d[2], "role"))
  {
    assert SeedDemoUsers([], clock) == DemoUsers(clock);
    DemoAccountsLogIn(clock);
  }

  /** `initializeDemoUsers()`: writes the demo accounts when the collection is empty, nothing otherwise. */
  method InitializeDemoUsers(s: Store, clock: Clock)
    modifies s
    ensures s.View() == old(s.View()).(users := SeedDemoUsers(old(s.users), clock))
  {
    var existingUsers := s.users;
    if |existingUsers| == 0 {
      s.users := DemoUsers(clock);
    }
  }
}
