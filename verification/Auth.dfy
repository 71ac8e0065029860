/** The application shell: who is signed in, the registration flow, and
    which screen is shown. The browser's stored session is abstracted to
    the role it records. */
module Auth {
  import opened Wrappers
  import opened Domain

  datatype AuthStatus = Loading | Unauthenticated | Authenticated

  datatype RegistrationStatus = Registering | PendingApproval | NotApproved

  /** `session` is the stored session (`None` when nothing is stored);
      `policy` and `terms` are the editable policy texts. */
  datatype AppState = AppState(
    role: Option<Role>,
    auth: AuthStatus,
    registration: Option<RegistrationStatus>,
    session: Option<Role>,
    policy: string,
    terms: string)

  /** The screen `renderView` picks. */
  datatype View =
    | Spinner
    | RegistrationForm(status: RegistrationStatus, policy: string, terms: string)
    | LoginScreen(loginRole: Role)
    | RoleChooser
    | FarmerHome
    | FactoryHome
    | AdminHome(policy: string, terms: string)

  /** The state on first render, with `stored` already in the browser. */
  function Initial(stored: Option<Role>, policy: string, terms: string): (s: AppState)
    ensures s.auth == Loading && s.role.None? && s.registration.None?
    ensures s.session == stored
  {
    AppState(None, Loading, None, stored, policy, terms)
  }

  /** The mount effect: a stored session signs its role in, otherwise the
      user is signed out. */
  function Mount(s: AppState): (t: AppState)
    ensures t.session == s.session && t.registration == s.registration
    ensures s.session.Some? ==> t.auth == Authenticated && t.role == s.session
    ensures s.session.None? ==> t.auth == Unauthenticated && t.role == s.role
    ensures t.(role := s.role, auth := s.auth) == s
  {
    match s.session
    case Some(r) => s.(role := Some(r), auth := Authenticated)
    case None => s.(auth := Unauthenticated)
  }

  /** Farmers are signed in at once (and a session stored); factory and
      admin users only have their role recorded, for the login screen. */
  function SelectRole(s: AppState, r: Role): (t: AppState)
    ensures t.role == Some(r) && t.registration == s.registration
    ensures r == Farmer ==> t.auth == Authenticated && t.session == Some(Farmer)
    ensures r != Farmer ==> t.auth == s.auth && t.session == s.session
    ensures t.(role := s.role, auth := s.auth, session := s.session) == s
  {
    if r == Farmer then s.(session := Some(Farmer), role := Some(Farmer), auth := Authenticated)
    else s.(role := Some(r))
  }

  /** Starts the registration flow at the form. The retry button of a
      rejected registration does the same. */
  function StartRegistration(s: AppState): (t: AppState)
    ensures t.registration == Some(Registering) && t.auth == s.auth && t.role == s.role
    ensures t.(registration := s.registration) == s
  {
    s.(registration := Some(Registering))
  }

  function TestNotApproved(s: AppState): (t: AppState)
    ensures t.registration == Some(NotApproved) && t.auth == s.auth && t.role == s.role
    ensures t.(registration := s.registration) == s
  {
    s.(registration := Some(NotApproved))
  }

  function RegistrationSubmit(s: AppState): (t: AppState)
    ensures t.registration == Some(PendingApproval) && t.auth == s.auth && t.role == s.role
    ensures t.(registration := s.registration) == s
  {
    s.(registration := Some(PendingApproval))
  }

  /** A successful login signs in the recorded role and stores it; with no
      role recorded nothing happens. */
  function LoginSuccess(s: AppState): (t: AppState)
    ensures s.role.Some? ==> t.auth == Authenticated && t.session == s.role && t.role == s.role
    ensures s.role.None? ==> t == s
    ensures t.(auth := s.auth, session := s.session) == s
  {
    if s.role.Some? then s.(session := s.role, auth := Authenticated) else s
  }

  function Logout(s: AppState): (t: AppState)
    ensures t.auth == Unauthenticated && t.role.None? && t.registration.None? && t.session.None?
    ensures t.policy == s.policy && t.terms == s.terms
  {
    s.(session := None, role := None, registration := None, auth := Unauthenticated)
  }

  /** Back to the role chooser: forgets the role and the registration but
      not the sign-in status or the stored session. */
  function BackToRoleSelector(s: AppState): (t: AppState)
    ensures t.role.None? && t.registration.None?
    ensures t.auth == s.auth && t.session == s.session
    ensures t.(role := s.role, registration := s.registration) == s
  {
    s.(role := None, registration := None)
  }

  function UpdatePolicies(s: AppState, policy: string, terms: string): (t: AppState)
    ensures t.policy == policy && t.terms == terms
    ensures t.(policy := s.policy, terms := s.terms) == s
  {
    s.(policy := policy, terms := terms)
  }

  /** `renderView`: while signed out a registration in progress wins over
      the login screen, which is only for factory and admin users; while
      signed in the role picks the home screen, and no role falls back to
      the role chooser. */
  function RenderView(s: AppState): (v: View)
    ensures v.Spinner? <==> s.auth == Loading
    ensures v.RegistrationForm? <==> s.auth == Unauthenticated && s.registration.Some?
    ensures v.LoginScreen? <==> s.auth == Unauthenticated && s.registration.None? && s.role.Some? && s.role.value != Farmer
    ensures v.LoginScreen? ==> v.loginRole != Farmer && s.role == Some(v.loginRole)
    ensures (v.FarmerHome? || v.FactoryHome? || v.AdminHome?) ==> s.auth == Authenticated
    ensures v.AdminHome? ==> v.policy == s.policy && v.terms == s.terms
  {
    match s.auth
    case Loading => Spinner
    case Unauthenticated =>
      if s.registration.Some? then RegistrationForm(s.registration.value, s.policy, s.terms)
      else if s.role == Some(Admin) || s.role == Some(Factory) then LoginScreen(s.role.value)
      else
        assert s.role.None? || s.role.value == Farmer;
        RoleChooser
    case Authenticated =>
      match s.role
      case Some(Farmer) => FarmerHome
      case Some(Factory) => FactoryHome
      case Some(Admin) => AdminHome(s.policy, s.terms)
      case None => RoleChooser
  }

  /** What a user (or the mount effect) can do. */
  datatype Event =
    | MountEffect
    | ChooseRole(chosen: Role)
    | StartRegistrationClick
    | TestNotApprovedClick
    | SubmitRegistration
    | RetryClick
    | BackClick
    | LoginOk
    | LogoutClick
    | SavePolicies(newPolicy: string, newTerms: string)

  /** The events the current screen offers handlers for. */
  predicate Offered(s: AppState, e: Event) {
    match RenderView(s)
    case Spinner => e.MountEffect?
    case RegistrationForm(_, _, _) => e.SubmitRegistration? || e.RetryClick? || e.BackClick?
    case LoginScreen(_) => e.LoginOk? || e.BackClick?
    case RoleChooser => e.ChooseRole? || e.StartRegistrationClick? || e.TestNotApprovedClick?
    case FarmerHome => e.LogoutClick?
    case FactoryHome => e.LogoutClick?
    case AdminHome(_, _) => e.LogoutClick? || e.SavePolicies?
  }

  /** The handler an event runs. */
  function Apply(s: AppState, e: Event): AppState {
    match e
    case MountEffect => Mount(s)
    case ChooseRole(r) => SelectRole(s, r)
    case StartRegistrationClick => StartRegistration(s)
    case TestNotApprovedClick => TestNotApproved(s)
    case SubmitRegistration => RegistrationSubmit(s)
    case RetryClick => StartRegistration(s)
    case BackClick => BackToRoleSelector(s)
    case LoginOk => LoginSuccess(s)
    case LogoutClick => Logout(s)
    case SavePolicies(p, t) => UpdatePolicies(s, p, t)
  }

  /** Runs the events in order; an event the screen does not offer is ignored. */
  function Run(s: AppState, events: seq<Event>): AppState
    decreases |events|
  {
    if |events| == 0 then s
    else Run(if Offered(s, events[0]) then Apply(s, events[0]) else s, events[1..])
  }

  /** The shell's invariant: before mounting nothing is chosen; after it,
      a session is stored exactly when signed in, and a signed-in user's
      role is the stored one. */
  predicate Consistent(s: AppState) {
    && (s.auth == Loading ==> s.role.None? && s.registration.None?)
    && (s.auth != Loading ==> (s.session.Some? <==> s.auth == Authenticated))
    && (s.auth == Authenticated ==> s.role.Some? && s.session == s.role)
  }

  lemma InitialConsistent(stored: Option<Role>, policy: string, terms: string)
    ensures Consistent(Initial(stored, policy, terms))
  {
  }

  /** Every handler a screen offers keeps the invariant. */
  lemma StepConsistent(s: AppState, e: Event)
    requires Consistent(s) && Offered(s, e)
    ensures Consistent(Apply(s, e))
  {
  }

  lemma {:induction false} RunConsistent(s: AppState, events: seq<Event>)
    requires Consistent(s)
    ensures Consistent(Run(s, events))
    decreases |events|
  {
    if |events| > 0 {
      var next := if Offered(s, events[0]) then Apply(s, events[0]) else s;
      if Offered(s, events[0]) {
        StepConsistent(s, events[0]);
      }
      RunConsistent(next, events[1..]);
    }
  }

  /** In a consistent state a signed-in user always gets a home screen:
      the role-chooser fallback for a signed-in user without a role is
      unreachable. */
  lemma SignedInSeesHome(s: AppState)
    requires Consistent(s) && s.auth == Authenticated
    ensures RenderView(s) == match s.role.value
      case Farmer => FarmerHome
      case Factory => FactoryHome
      case Admin => AdminHome(s.policy, s.terms)
  {
  }

  /** Whatever happens after start-up, a signed-in user sees a home screen. */
  lemma ReachableSignedInSeesHome(stored: Option<Role>, policy: string, terms: string, events: seq<Event>)
    ensures var s := Run(Initial(stored, policy, terms), events);
      s.auth == Authenticated ==> (RenderView(s).FarmerHome? || RenderView(s).FactoryHome? || RenderView(s).AdminHome?)
  {
    InitialConsistent(stored, policy, terms);
    RunConsistent(Initial(stored, policy, terms), events);
    var s := Run(Initial(stored, policy, terms), events);
    if s.auth == Authenticated {
      SignedInSeesHome(s);
    }
  }

  /** Start-up with a stored session goes straight to that role's home;
      without one, to the role chooser. */
  lemma MountScreens(stored: Option<Role>, policy: string, terms: string)
    ensures var v := RenderView(Mount(Initial(stored, policy, terms)));
      && (stored == Some(Farmer) ==> v == FarmerHome)
      && (stored == Some(Factory) ==> v == FactoryHome)
      && (stored == Some(Admin) ==> v == AdminHome(policy, terms))
      && (stored.None? ==> v == RoleChooser)
  {
  }

  /** Logging out always lands on the role chooser, and going back from the
      login screen does too. */
  lemma LogoutShowsChooser(s: AppState)
    ensures RenderView(Logout(s)) == RoleChooser
  {
  }

  lemma BackFromLoginShowsChooser(s: AppState)
    requires RenderView(s).LoginScreen?
    ensures RenderView(BackToRoleSelector(s)) == RoleChooser
  {
  }

  /** Choosing factory or admin on the chooser leads to that role's login
      screen; choosing farmer leads straight to the farmer home. */
  lemma ChooseRoleScreens(s: AppState, r: Role)
    requires Consistent(s) && RenderView(s) == RoleChooser
    ensures r == Farmer ==> RenderView(SelectRole(s, r)) == FarmerHome
    ensures r != Farmer ==> RenderView(SelectRole(s, r)) == LoginScreen(r)
  {
  }
}
