/**
 * The browser shell (`App` and `AuthModal.handleSubmit` in
 * src/predictionPortel.js): the session, the current view, the
 * authentication dialog and the account store, as a small synchronous state
 * machine. Each handler is given twice: as a transition function on an
 * `AppState` value (the specification, about which the lemmas speak) and as
 * a method of the class `App`, whose fields the handler updates in place.
 *
 * `digest` stands for `hashPassword` (SHA-256 through CryptoJS) and `trim`
 * for `String.prototype.trim`; both are arbitrary functions here.
 */
module Portal {
  import opened Wrappers
  import opened Accounts

  datatype View = Home | Predict | AdminFiles

  datatype AuthMode = LoginMode | RegisterMode | ForgotMode

  /** What `handleNavClick` does with a request. */
  datatype NavAction = SwitchTo(target: View) | OpenLogin | AdminOnly

  /** What `renderView` shows. */
  datatype Page = HomePage | PredictionPage | AdminFilesPage

  /** The message `handleSubmit` leaves in the dialog, as a verdict. */
  datatype SubmitOutcome =
    | MissingCredentials | DuplicateUsername | Registered
    | UnknownUsername | PasswordWasReset | AccessDenied | LoginSucceeded

  const AdminRole := "admin"

  /** JavaScript truthiness of a string-or-null value. */
  predicate Truthy(s: Option<string>) { s.Some? && s.value != "" }

  /** The navigation policy of `handleNavClick`. */
  function NavDecision(loggedIn: bool, role: Option<string>, target: View): (a: NavAction)
    ensures target == Home ==> a == SwitchTo(Home)
    ensures a.SwitchTo? ==> a.target == target
    ensures a == OpenLogin <==> target != Home && !loggedIn
    ensures a == AdminOnly <==> target == AdminFiles && loggedIn && role != Some(AdminRole)
  {
    match target
    case Home => SwitchTo(Home)
    case Predict => if !loggedIn then OpenLogin else SwitchTo(Predict)
    case AdminFiles =>
      if !loggedIn then OpenLogin
      else if role != Some(AdminRole) then AdminOnly
      else SwitchTo(AdminFiles)
  }

  /** The page each view stands for. */
  function PageOf(v: View): Page
  {
    match v
    case Home => HomePage
    case Predict => PredictionPage
    case AdminFiles => AdminFilesPage
  }

  /** `renderView`: the admin listing only for a logged-in admin, the analysis portal only when logged in, home otherwise. */
  function RenderView(view: View, loggedIn: bool, role: Option<string>): (p: Page)
    ensures p == AdminFilesPage <==> view == AdminFiles && loggedIn && role == Some(AdminRole)
    ensures p == PredictionPage <==> view == Predict && loggedIn
  {
    if view == Predict && loggedIn then PredictionPage
    else if view == AdminFiles && loggedIn && role == Some(AdminRole) then AdminFilesPage
    else HomePage
  }

  /** The navigation gate and the renderer agree: a view is switched to exactly when it would be rendered as itself. */
  lemma GateAgreesWithRender(loggedIn: bool, role: Option<string>, v: View)
    ensures NavDecision(loggedIn, role, v).SwitchTo? <==> RenderView(v, loggedIn, role) == PageOf(v)
  {
  }

  // ---------------------------------------------------------------------
  // The state machine, as values
  // ---------------------------------------------------------------------

  /**
   * Everything the handlers read or write: the account store (as
   * `loadUsersFromStorage` would read it), the two persisted session keys,
   * and the React state of `App`.
   */
  datatype AppState = AppState(
    accounts: seq<Account>,
    storedUser: Option<string>,
    storedRole: Option<string>,
    currentUser: Option<string>,
    role: Option<string>,
    view: View,
    authOpen: bool,
    authMode: AuthMode)

  predicate LoggedIn(s: AppState) { Truthy(s.currentUser) }

  /** The state invariant: user and role are set together, a set user is non-empty, and the view is one the renderer shows as itself. */
  predicate Inv(s: AppState)
  {
    && (s.currentUser.Some? <==> s.role.Some?)
    && (s.currentUser.Some? ==> s.currentUser.value != "")
    && RenderView(s.view, LoggedIn(s), s.role) == PageOf(s.view)
  }

  /** Mounting `App`: the store is read, and the session is restored only when both persisted keys are set. */
  function Startup(storedUsers: Option<seq<Account>>, storedUser: Option<string>, storedRole: Option<string>): (s: AppState)
    ensures s.accounts == LoadUsers(storedUsers) && s.view == Home && !s.authOpen && s.authMode == LoginMode
    ensures Truthy(storedUser) && Truthy(storedRole) ==> s.currentUser == storedUser && s.role == storedRole
    ensures !(Truthy(storedUser) && Truthy(storedRole)) ==> s.currentUser.None? && s.role.None?
    ensures Inv(s)
  {
    var restore := Truthy(storedUser) && Truthy(storedRole);
    AppState(LoadUsers(storedUsers), storedUser, storedRole,
             if restore then storedUser else None,
             if restore then storedRole else None,
             Home, false, LoginMode)
  }

  /** `openAuth(mode)` */
  function OpenAuthStep(s: AppState, mode: AuthMode): AppState
  {
    s.(authMode := mode, authOpen := true)
  }

  /** The dialog's close button (`onClose`). */
  function CloseAuthStep(s: AppState): AppState
  {
    s.(authOpen := false)
  }

  /** The dialog's mode tabs (`setMode`). */
  function SetModeStep(s: AppState, mode: AuthMode): AppState
  {
    s.(authMode := mode)
  }

  /** `handleLoginSuccess(user)` */
  function LoginSuccessStep(s: AppState, user: Account): AppState
  {
    s.(currentUser := Some(user.username), role := Some(user.role), view := Predict)
  }

  /** `handleLogout` */
  function LogoutStep(s: AppState): AppState
  {
    s.(currentUser := None, role := None, storedUser := None, storedRole := None, view := Home)
  }

  /** `handleStartAnalysis` */
  function StartAnalysisStep(s: AppState): AppState
  {
    if !LoggedIn(s) then OpenAuthStep(s, LoginMode) else s.(view := Predict)
  }

  /** `handleNavClick(target)` */
  function NavClickStep(s: AppState, target: View): AppState
  {
    match NavDecision(LoggedIn(s), s.role, target)
    case SwitchTo(v) => s.(view := v)
    case OpenLogin => OpenAuthStep(s, LoginMode)
    case AdminOnly => s
  }

  /** `AuthModal.handleSubmit` with the dialog's fields, in the current mode. */
  function SubmitStep(s: AppState, digest: string -> string, trim: string -> string,
                      username: string, password: string, formRole: string): (r: (SubmitOutcome, AppState))
  {
    var name := trim(username);
    var pw := trim(password);
    if name == "" || pw == "" then (MissingCredentials, s)
    else if s.authMode == RegisterMode then
      match Register(s.accounts, name, digest(pw), formRole)
      case None => (DuplicateUsername, s)
      case Some(users) => (Registered, s.(accounts := users, authMode := LoginMode))
    else if s.authMode == ForgotMode then
      match ResetPassword(s.accounts, name, digest(pw))
      case None => (UnknownUsername, s)
      case Some(users) => (PasswordWasReset, s.(accounts := users, authMode := LoginMode))
    else
      match FindLogin(s.accounts, name, digest(pw))
      case None => (AccessDenied, s)
      case Some(k) =>
        var user := s.accounts[k];
        (LoginSucceeded, CloseAuthStep(LoginSuccessStep(s.(storedUser := Some(user.username), storedRole := Some(user.role)), user)))
  }

  /** The user actions the shell responds to; the dialog's form exists only while the dialog is open. */
  datatype Event =
    | NavClick(target: View)
    | StartAnalysis
    | Logout
    | OpenAuth(mode: AuthMode)
    | CloseAuth
    | SetMode(mode: AuthMode)
    | Submit(username: string, password: string, formRole: string)

  function Step(s: AppState, digest: string -> string, trim: string -> string, e: Event): AppState
  {
    match e
    case NavClick(t) => NavClickStep(s, t)
    case StartAnalysis => StartAnalysisStep(s)
    case Logout => LogoutStep(s)
    case OpenAuth(m) => OpenAuthStep(s, m)
    case CloseAuth => CloseAuthStep(s)
    case SetMode(m) => SetModeStep(s, m)
    case Submit(u, p, r) => if s.authOpen then SubmitStep(s, digest, trim, u, p, r).1 else s
  }

  // ---------------------------------------------------------------------
  // Properties of the state machine
  // ---------------------------------------------------------------------

  /** Every event keeps the invariant: in particular the shell never sits on a view it would not render. */
  lemma StepKeepsInv(s: AppState, digest: string -> string, trim: string -> string, e: Event)
    requires Inv(s)
    ensures Inv(Step(s, digest, trim, e))
  {
    if e.Submit? {
      var r := SubmitStep(s, digest, trim, e.username, e.password, e.formRole);
      if r.0 == LoginSucceeded {
        var k := FindLogin(s.accounts, trim(e.username), digest(trim(e.password))).value;
        assert r.1.currentUser == Some(s.accounts[k].username);
      }
    }
  }

  /** A username or password that trims to nothing changes nothing, in every mode. */
  lemma EmptyCredentialsChangeNothing(s: AppState, digest: string -> string, trim: string -> string,
                                      username: string, password: string, formRole: string)
    requires trim(username) == "" || trim(password) == ""
    ensures SubmitStep(s, digest, trim, username, password, formRole) == (MissingCredentials, s)
  {
  }

  /**
   * Registering a taken name changes nothing; registering a new one appends exactly
   * one record (trimmed name, digest of the trimmed password, chosen role), leaves
   * the session alone, returns the dialog to login mode, and keeps names unique.
   */
  lemma RegisterSubmit(s: AppState, digest: string -> string, trim: string -> string,
                       username: string, password: string, formRole: string)
    requires s.authMode == RegisterMode && trim(username) != "" && trim(password) != ""
    ensures var (outcome, t) := SubmitStep(s, digest, trim, username, password, formRole);
      && (NameTaken(s.accounts, trim(username)) ==> outcome == DuplicateUsername && t == s)
      && (!NameTaken(s.accounts, trim(username)) ==>
            && outcome == Registered
            && t == s.(accounts := s.accounts + [Account(trim(username), digest(trim(password)), formRole)],
                       authMode := LoginMode))
      && (UniqueNames(s.accounts) ==> UniqueNames(t.accounts))
  {
    if UniqueNames(s.accounts) {
      RegisterKeepsNamesUnique(s.accounts, trim(username), digest(trim(password)), formRole);
    }
  }

  /** A reset for an unknown name changes nothing; otherwise only the first matching record's digest changes. */
  lemma ResetSubmit(s: AppState, digest: string -> string, trim: string -> string,
                    username: string, password: string, formRole: string)
    requires s.authMode == ForgotMode && trim(username) != "" && trim(password) != ""
    ensures var (outcome, t) := SubmitStep(s, digest, trim, username, password, formRole);
      && (!NameTaken(s.accounts, trim(username)) ==> outcome == UnknownUsername && t == s)
      && (NameTaken(s.accounts, trim(username)) ==>
            var k := FindByName(s.accounts, trim(username)).value;
            && outcome == PasswordWasReset
            && t == s.(accounts := s.accounts[k := Account(trim(username), digest(trim(password)), s.accounts[k].role)],
                       authMode := LoginMode))
  {
  }

  /**
   * Login succeeds iff some record has the trimmed name and the digest of the
   * trimmed password; the session then holds the first such record's name and
   * role, both are persisted, the view is the analysis portal and the dialog
   * closes. A failed login changes nothing.
   */
  lemma LoginSubmit(s: AppState, digest: string -> string, trim: string -> string,
                    username: string, password: string, formRole: string)
    requires s.authMode == LoginMode && trim(username) != "" && trim(password) != ""
    ensures var (outcome, t) := SubmitStep(s, digest, trim, username, password, formRole);
      && (outcome == LoginSucceeded <==>
            exists i :: 0 <= i < |s.accounts| && Matches(s.accounts[i], trim(username), digest(trim(password))))
      && (outcome != LoginSucceeded ==> outcome == AccessDenied && t == s)
      && (outcome == LoginSucceeded ==>
            var user := s.accounts[FindLogin(s.accounts, trim(username), digest(trim(password))).value];
            && t.currentUser == t.storedUser == Some(user.username)
            && t.role == t.storedRole == Some(user.role)
            && t.view == Predict && !t.authOpen && t.accounts == s.accounts)
  {
  }

  /** Logout ends the session and forgets both persisted keys; a later start-up then restores nothing. */
  lemma LogoutForgetsSession(s: AppState, storedUsers: Option<seq<Account>>)
    ensures var t := LogoutStep(s);
      && !LoggedIn(t) && t.view == Home
      && !Startup(storedUsers, t.storedUser, t.storedRole).currentUser.Some?
  {
  }

  /**
   * The end-to-end scenario: register a fresh name with role `user`, log in with
   * the same credentials, then the analysis portal is reachable and the admin
   * listing is refused for lack of the admin role.
   */
  lemma RegisterLoginNavigate(s: AppState, digest: string -> string, trim: string -> string,
                              username: string, password: string)
    requires Inv(s) && s.authMode == RegisterMode
    requires trim(username) != "" && trim(password) != "" && !NameTaken(s.accounts, trim(username))
    ensures var (o1, s1) := SubmitStep(s, digest, trim, username, password, "user");
            var (o2, s2) := SubmitStep(s1, digest, trim, username, password, "user");
      && o1 == Registered && o2 == LoginSucceeded
      && s2.currentUser == Some(trim(username)) && s2.role == Some("user")
      && NavClickStep(s2, Predict).view == Predict
      && NavDecision(LoggedIn(s2), s2.role, AdminFiles) == AdminOnly
  {
    var name, pw := trim(username), digest(trim(password));
    var s1 := SubmitStep(s, digest, trim, username, password, "user").1;
    assert s1.accounts == s.accounts + [Account(name, pw, "user")];
    RegisterThenLogin(s.accounts, name, pw, "user");
  }

  // ---------------------------------------------------------------------
  // The shell, as an object whose handlers update its fields
  // ---------------------------------------------------------------------

  class App {
    const digest: string -> string
    const trim: string -> string
    var accounts: seq<Account>
    var storedUser: Option<string>
    var storedRole: Option<string>
    var currentUser: Option<string>
    var role: Option<string>
    var view: View
    var authOpen: bool
    var authMode: AuthMode

    /** The fields, as one value. */
    function State(): AppState
      reads this
    {
      AppState(accounts, storedUser, storedRole, currentUser, role, view, authOpen, authMode)
    }

    predicate Valid()
      reads this
    {
      Inv(State())
    }

    /** Mounting the shell, with what the device store holds under its three keys. */
    constructor (digest: string -> string, trim: string -> string,
                 storedUsers: Option<seq<Account>>, storedUser: Option<string>, storedRole: Option<string>)
      ensures this.digest == digest && this.trim == trim
      ensures State() == Startup(storedUsers, storedUser, storedRole)
      ensures Valid()
    {
      this.digest := digest;
      this.trim := trim;
      accounts := LoadUsers(storedUsers);
      this.storedUser := storedUser;
      this.storedRole := storedRole;
      view := Home;
      currentUser := None;
      role := None;
      authOpen := false;
      authMode := LoginMode;
      new;
      if Truthy(storedUser) && Truthy(storedRole) {
        currentUser := storedUser;
        role := storedRole;
      }
    }

    method OpenAuth(mode: AuthMode)
      modifies this
      ensures State() == OpenAuthStep(old(State()), mode)
    {
      authMode := mode;
      authOpen := true;
    }

    method CloseAuth()
      modifies this
      ensures State() == CloseAuthStep(old(State()))
    {
      authOpen := false;
    }

    method SetMode(mode: AuthMode)
      modifies this
      ensures State() == SetModeStep(old(State()), mode)
    {
      authMode := mode;
    }

    method HandleLoginSuccess(user: Account)
      modifies this
      ensures State() == LoginSuccessStep(old(State()), user)
    {
      currentUser := Some(user.username);
      role := Some(user.role);
      view := Predict;
    }

    method HandleLogout()
      requires Valid()
      modifies this
      ensures State() == LogoutStep(old(State()))
      ensures Valid()
    {
      currentUser := None;
      role := None;
      storedUser := None;
      storedRole := None;
      view := Home;
    }

    method HandleStartAnalysis()
      requires Valid()
      modifies this
      ensures State() == StartAnalysisStep(old(State()))
      ensures Valid()
    {
      if !Truthy(currentUser) {
        OpenAuth(LoginMode);
      } else {
        view := Predict;
      }
    }

    method HandleNavClick(target: View)
      requires Valid()
      modifies this
      ensures State() == NavClickStep(old(State()), target)
      ensures Valid()
    {
      if target == Predict && !Truthy(currentUser) {
        OpenAuth(LoginMode);
        return;
      }
      if target == AdminFiles {
        if !Truthy(currentUser) {
          OpenAuth(LoginMode);
          return;
        }
        if role != Some(AdminRole) {
          return;
        }
      }
      view := target;
      StepKeepsInv(old(State()), digest, trim, NavClick(target));
    }

    /** `AuthModal.handleSubmit`, reading and writing the store through the fields. */
    method HandleSubmit(username: string, password: string, formRole: string) returns (outcome: SubmitOutcome)
      requires Valid() && authOpen
      modifies this
      ensures (outcome, State()) == SubmitStep(old(State()), digest, trim, username, password, formRole)
      ensures Valid()
    {
      StepKeepsInv(State(), digest, trim, Submit(username, password, formRole));
      var name := trim(username);
      var pw := trim(password);
      if name == "" || pw == "" {
        return MissingCredentials;
      }
      if authMode == RegisterMode {
        if NameTaken(accounts, name) {
          return DuplicateUsername;
        }
        accounts := accounts + [Account(name, digest(pw), formRole)];
        authMode := LoginMode;
        return Registered;
      }
      if authMode == ForgotMode {
        var idx := FindByName(accounts, name);
        if idx.None? {
          return UnknownUsername;
        }
        accounts := accounts[idx.value := accounts[idx.value].(password := digest(pw))];
        authMode := LoginMode;
        return PasswordWasReset;
      }
      var found := FindLogin(accounts, name, digest(pw));
      if found.None? {
        return AccessDenied;
      }
      var user := accounts[found.value];
      storedUser := Some(user.username);
      storedRole := Some(user.role);
      HandleLoginSuccess(user);
      CloseAuth();
      return LoginSucceeded;
    }
  }
}
