/** The user document: the role enum, the defaults a new user gets, the
    normalisation the schema applies to username and email, and the fields
    that carry a password-reset token and its expiry. */
module UserModel {
  import opened Http
  import opened Strings

  type UserId = string

  datatype Role = Student | Teacher | Admin

  const DefaultRole := Student

  function RoleName(r: Role): string {
    match r
    case Student => "student"
    case Teacher => "teacher"
    case Admin => "admin"
  }

  /** The enum validator of role: exactly the listed names pass. */
  function ParseRole(s: string): (r: Option<Role>)
    ensures r.Some? ==> RoleName(r.value) == s
    ensures r.None? <==> s != "student" && s != "teacher" && s != "admin"
  {
    if s == "student" then Some(Student)
    else if s == "teacher" then Some(Teacher)
    else if s == "admin" then Some(Admin)
    else None
  }

  datatype Profile = Profile(firstName: string, lastName: string, bio: string, avatar: string)

  datatype Preferences = Preferences(
    emailNotifications: bool,
    pushNotifications: bool,
    marketingEmails: bool,
    language: string,
    timezone: string)

  const DefaultProfile := Profile("", "", "", "")
  const DefaultPreferences := Preferences(true, true, false, "en", "UTC")

  /** A stored user. The password is held only as its hash; times are
      milliseconds since the epoch. */
  datatype User = User(
    id: UserId,
    username: string,
    email: string,
    passwordHash: string,
    role: Role,
    profile: Profile,
    preferences: Preferences,
    isEmailVerified: bool,
    isActive: bool,
    lastLogin: Option<int>,
    resetToken: Option<string>,
    resetTokenExpiry: Option<int>)

  /** The email setters: lower-case, then trim. */
  function NormalizeEmail(email: string): string {
    Trim(ToLower(email))
  }

  predicate IsNormalEmail(email: string) {
    IsLower(email) && IsTrimmed(email)
  }

  /** A normalised email is one the setters leave as it is, and the setters
      always produce one. */
  lemma NormalizeEmailSpec(email: string)
    ensures IsNormalEmail(NormalizeEmail(email))
    ensures IsNormalEmail(email) <==> NormalizeEmail(email) == email
  {
    ToLowerIsLower(email);
    TrimKeepsLower(ToLower(email));
    TrimSpec(ToLower(email));
    if IsNormalEmail(email) {
      ToLowerOfLower(email);
      TrimStartOfTrimmed(email);
      TrimEndOfTrimmed(email);
    }
  }

  /** Normalising twice is normalising once, so a stored email matches a
      query that passes through the same setters. */
  lemma NormalizeEmailIdempotent(email: string)
    ensures NormalizeEmail(NormalizeEmail(email)) == NormalizeEmail(email)
  {
    NormalizeEmailSpec(email);
    NormalizeEmailSpec(NormalizeEmail(email));
  }

  /** The user schema's validators: username, email and password are
      required, and the stored username and email are already normalised. */
  predicate ValidUser(u: User) {
    && u.username != ""
    && u.email != ""
    && u.passwordHash != ""
    && IsTrimmed(u.username)
    && IsNormalEmail(u.email)
  }

  /** A new user: the given fields after the schema's setters, and the schema
      defaults for everything else. */
  function NewUser(id: UserId, username: string, email: string, passwordHash: string, role: Role): (u: User)
    ensures u.username == Trim(username) && u.email == NormalizeEmail(email)
    ensures IsTrimmed(u.username) && IsNormalEmail(u.email)
    ensures u.id == id && u.role == role && u.passwordHash == passwordHash
    ensures u.profile == DefaultProfile && u.preferences == DefaultPreferences
    ensures !u.isEmailVerified && u.isActive
    ensures u.lastLogin.None? && u.resetToken.None? && u.resetTokenExpiry.None?
  {
    TrimSpec(username);
    NormalizeEmailSpec(email);
    User(id, Trim(username), NormalizeEmail(email), passwordHash, role,
         DefaultProfile, DefaultPreferences, false, true, None, None, None)
  }

  /** Fifteen minutes, in milliseconds. */
  const ResetWindow: int := 15 * 60 * 1000

  /** Recording a successful login. */
  function LoggedIn(u: User, now: int): (v: User)
    ensures v.lastLogin == Some(now)
    ensures v.(lastLogin := u.lastLogin) == u
  {
    u.(lastLogin := Some(now))
  }

  /** Issuing a reset token at time now. */
  function Forgotten(u: User, token: string, now: int): (v: User)
    ensures v.resetToken == Some(token) && v.resetTokenExpiry == Some(now + 900000)
    ensures v.(resetToken := u.resetToken, resetTokenExpiry := u.resetTokenExpiry) == u
  {
    u.(resetToken := Some(token), resetTokenExpiry := Some(now + ResetWindow))
  }

  /** The reset query: the token matches and its expiry is still ahead. */
  predicate CanReset(u: User, token: string, now: int) {
    u.resetToken == Some(token) && u.resetTokenExpiry.Some? && u.resetTokenExpiry.value > now
  }

  /** Completing a reset: the new hash is stored and both token fields are
      cleared. */
  function ResetDone(u: User, passwordHash: string): (v: User)
    ensures v.passwordHash == passwordHash && v.resetToken.None? && v.resetTokenExpiry.None?
    ensures v.(passwordHash := u.passwordHash, resetToken := u.resetToken, resetTokenExpiry := u.resetTokenExpiry) == u
  {
    u.(passwordHash := passwordHash, resetToken := None, resetTokenExpiry := None)
  }

  /** A token issued at time t opens a reset exactly until t plus fifteen
      minutes, and no other token does. */
  lemma ResetTokenWindow(u: User, issued: string, t: int, tried: string, now: int)
    ensures CanReset(Forgotten(u, issued, t), tried, now) <==> tried == issued && now < t + 900000
  {
  }

  /** Once a reset is done no token opens another one until a new token is
      issued. */
  lemma ResetIsSingleUse(u: User, passwordHash: string, tried: string, now: int)
    ensures !CanReset(ResetDone(u, passwordHash), tried, now)
  {
  }

  /** The profile as the profile endpoint returns it: every field but the
      password. */
  datatype ProfileView = ProfileView(
    id: UserId,
    username: string,
    email: string,
    role: Role,
    profile: Profile,
    preferences: Preferences,
    isEmailVerified: bool,
    isActive: bool,
    lastLogin: Option<int>,
    resetToken: Option<string>,
    resetTokenExpiry: Option<int>)

  function View(u: User): ProfileView {
    ProfileView(u.id, u.username, u.email, u.role, u.profile, u.preferences,
                u.isEmailVerified, u.isActive, u.lastLogin, u.resetToken, u.resetTokenExpiry)
  }

  /** The view does not depend on the password, and it determines every other
      field of the user. */
  lemma ViewIsAllButPassword(u: User, w: User)
    ensures View(u.(passwordHash := w.passwordHash)) == View(u)
    ensures View(u) == View(w) <==> u.(passwordHash := w.passwordHash) == w
  {
  }
}
