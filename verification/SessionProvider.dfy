/**
 * The React provider's session machine, under every interleaving of getMe, login, register and
 * logout. A step is the code run between two awaits.
 *
 * `sessionGenerationRef` holds a fresh object at each deliberate transition; only its identity is
 * ever compared, so a counter that never repeats stands for it.
 */
module SessionProvider {
  import opened Strings

  type User = string

  datatype Status = Loading | Authenticated | Unauthenticated

  datatype AuthState = AuthState(user: Option<User>, status: Status, lastValidation: Option<int>)

  datatype Action = SetUser(user: User, timestamp: int) | SetLoading | ClearSession | SetError

  const INITIAL_STATE := AuthState(None, Loading, None)

  function AuthReducer(state: AuthState, action: Action): AuthState {
    match action
    case SetUser(user, timestamp) => AuthState(Some(user), Authenticated, Some(timestamp))
    case SetLoading => state.(status := Loading)
    case ClearSession => AuthState(None, Unauthenticated, None)
    case SetError => AuthState(None, Unauthenticated, state.lastValidation)
  }

  /** What a rejected promise carried; the status of a client error is absent when not an integer. */
  datatype Failure = ClientError(status: Option<int>) | OtherError

  function ClientErrorStatus(failure: Failure): Option<int> {
    if failure.ClientError? && failure.status.Some? && failure.status.value >= 100
    then failure.status else None
  }

  predicate IsFinalAnswer(failure: Failure) {
    var status := ClientErrorStatus(failure);
    status.Some? && status.value < 500 && status.value != 429
  }

  predicate IsSessionExpiredError(failure: Failure) {
    ClientErrorStatus(failure) == Some(401)
  }

  datatype GetMeResult = Me(user: User, time: int) | GetMeFailed(failure: Failure)
  datatype LoginResult = LoggedIn(user: User, time: int) | MfaRequired | LoginFailed
  datatype RegisterResult = Registered(user: User, time: int) | RegisterFailed
  datatype LogoutResult = LogoutConfirmed | LogoutRejected(failure: Failure)

  /** An operation awaiting its answer. */
  datatype Op = GetMe(generation: nat, isInitial: bool) | Login | Register | Logout | Landed

  datatype Event = Dispatched(action: Action) | ExpiredFired

  datatype Machine = Machine(statusRef: Status, generation: nat, ops: seq<Op>, log: seq<Event>)

  const MOUNTED := Machine(Loading, 0, [], [])

  /** The reducer folded over everything dispatched: the state React renders once it has caught up. */
  function Folded(log: seq<Event>): AuthState {
    if log == [] then INITIAL_STATE
    else
      var before := Folded(log[..|log| - 1]);
      match log[|log| - 1]
      case Dispatched(action) => AuthReducer(before, action)
      case ExpiredFired => before
  }

  datatype Step =
    | Revalidate(isInitial: bool)
    | GetMeLanded(op: nat, me: GetMeResult)
    | LoginStarted
    | LoginLanded(op: nat, login: LoginResult)
    | RegisterStarted
    | RegisterLanded(op: nat, register: RegisterResult)
    | LogoutStarted
    | LogoutLanded(op: nat, logout: LogoutResult)

  predicate Enabled(m: Machine, step: Step) {
    match step
    case GetMeLanded(i, _) => i < |m.ops| && m.ops[i].GetMe?
    case LoginLanded(i, _) => i < |m.ops| && m.ops[i].Login?
    case RegisterLanded(i, _) => i < |m.ops| && m.ops[i].Register?
    case LogoutLanded(i, _) => i < |m.ops| && m.ops[i].Logout?
    case _ => true
  }

  function Mirror(action: Action): Status {
    match action
    case SetUser(_, _) => Authenticated
    case SetLoading => Loading
    case _ => Unauthenticated
  }

  function Dispatch(m: Machine, action: Action): Machine {
    m.(statusRef := Mirror(action), log := m.log + [Dispatched(action)])
  }

  function Issue(m: Machine, op: Op): Machine {
    m.(ops := m.ops + [op])
  }

  function Land(m: Machine, i: nat): Machine
    requires i < |m.ops|
  {
    m.(ops := m.ops[i := Landed])
  }

  function Bump(m: Machine): Machine {
    m.(generation := m.generation + 1)
  }

  function FireExpired(m: Machine): Machine {
    m.(log := m.log + [ExpiredFired])
  }

  function LandGetMe(m: Machine, i: nat, r: GetMeResult): Machine
    requires i < |m.ops| && m.ops[i].GetMe?
  {
    var op := m.ops[i];
    var landed := Land(m, i);
    if m.generation != op.generation then landed
    else
      match r
      case Me(user, time) => Dispatch(landed, SetUser(user, time))
      case GetMeFailed(failure) =>
        if IsSessionExpiredError(failure) then
          Dispatch(if !op.isInitial && m.statusRef == Authenticated then FireExpired(landed) else landed, ClearSession)
        else
          Dispatch(landed, SetError)
  }

  function Next(m: Machine, step: Step): Machine {
    if !Enabled(m, step) then m
    else
      match step
      case Revalidate(isInitial) => Issue(m, GetMe(m.generation, isInitial))
      case GetMeLanded(i, r) => LandGetMe(m, i, r)
      case LoginStarted => Issue(Dispatch(m, SetLoading), Login)
      case LoginLanded(i, r) =>
        (match r
         case LoggedIn(user, time) => Dispatch(Bump(Land(m, i)), SetUser(user, time))
         case MfaRequired => Dispatch(Bump(Land(m, i)), ClearSession)
         case LoginFailed => Dispatch(Land(m, i), SetError))
      case RegisterStarted => Issue(Dispatch(m, SetLoading), Register)
      case RegisterLanded(i, r) =>
        (match r
         case Registered(user, time) => Dispatch(Bump(Land(m, i)), SetUser(user, time))
         case RegisterFailed => Dispatch(Land(m, i), SetError))
      case LogoutStarted => Issue(m, Logout)
      case LogoutLanded(i, r) =>
        if r.LogoutConfirmed? || IsFinalAnswer(r.failure) then Dispatch(Bump(Land(m, i)), ClearSession)
        else Land(m, i)
  }

  function Run(m: Machine, steps: seq<Step>): Machine
    decreases |steps|
  {
    if steps == [] then m else Run(Next(m, steps[0]), steps[1..])
  }

  // ---- the provider's refs and callbacks ----

  class Provider {
    var statusRef: Status
    var sessionGenerationRef: nat
    var ops: seq<Op>
    var log: seq<Event>

    function Snapshot(): Machine
      reads this
    {
      Machine(statusRef, sessionGenerationRef, ops, log)
    }

    constructor ()
      ensures Snapshot() == MOUNTED
    {
      statusRef, sessionGenerationRef, ops, log := Loading, 0, [], [];
    }

    method SyncedDispatch(action: Action)
      modifies `statusRef, `log
      ensures Snapshot() == Dispatch(old(Snapshot()), action)
    {
      log := log + [Dispatched(action)];
      match action
      case SetUser(_, _) => statusRef := Authenticated;
      case SetLoading => statusRef := Loading;
      case ClearSession => statusRef := Unauthenticated;
      case SetError => statusRef := Unauthenticated;
    }

    method StartRevalidate(isInitial: bool) returns (i: nat)
      modifies `ops
      ensures i == |old(ops)| && Snapshot() == Next(old(Snapshot()), Revalidate(isInitial))
    {
      i := |ops|;
      ops := ops + [GetMe(sessionGenerationRef, isInitial)];
    }

    method OnGetMe(i: nat, r: GetMeResult)
      requires Enabled(Snapshot(), GetMeLanded(i, r))
      modifies this
      ensures Snapshot() == Next(old(Snapshot()), GetMeLanded(i, r))
    {
      var op := ops[i];
      ops := ops[i := Landed];
      if sessionGenerationRef != op.generation {
        return;
      }
      if r.Me? {
        SyncedDispatch(SetUser(r.user, r.time));
        return;
      }
      var wasAuthenticated := statusRef == Authenticated;
      if IsSessionExpiredError(r.failure) {
        if !op.isInitial && wasAuthenticated {
          log := log + [ExpiredFired];
        }
        SyncedDispatch(ClearSession);
        return;
      }
      SyncedDispatch(SetError);
    }

    method StartLogin() returns (i: nat)
      modifies `ops, `statusRef, `log
      ensures i == |old(ops)| && Snapshot() == Next(old(Snapshot()), LoginStarted)
    {
      SyncedDispatch(SetLoading);
      i := |ops|;
      ops := ops + [Login];
    }

    method OnLogin(i: nat, r: LoginResult)
      requires Enabled(Snapshot(), LoginLanded(i, r))
      modifies this
      ensures Snapshot() == Next(old(Snapshot()), LoginLanded(i, r))
    {
      ops := ops[i := Landed];
      if r.LoginFailed? {
        SyncedDispatch(SetError);
        return;
      }
      if r.MfaRequired? {
        sessionGenerationRef := sessionGenerationRef + 1;
        SyncedDispatch(ClearSession);
        return;
      }
      sessionGenerationRef := sessionGenerationRef + 1;
      SyncedDispatch(SetUser(r.user, r.time));
    }

    method StartRegister() returns (i: nat)
      modifies `ops, `statusRef, `log
      ensures i == |old(ops)| && Snapshot() == Next(old(Snapshot()), RegisterStarted)
    {
      SyncedDispatch(SetLoading);
      i := |ops|;
      ops := ops + [Register];
    }

    method OnRegister(i: nat, r: RegisterResult)
      requires Enabled(Snapshot(), RegisterLanded(i, r))
      modifies this
      ensures Snapshot() == Next(old(Snapshot()), RegisterLanded(i, r))
    {
      ops := ops[i := Landed];
      if r.RegisterFailed? {
        SyncedDispatch(SetError);
        return;
      }
      sessionGenerationRef := sessionGenerationRef + 1;
      SyncedDispatch(SetUser(r.user, r.time));
    }

    method ClearLocalSession()
      modifies `sessionGenerationRef, `statusRef, `log
      ensures Snapshot() == Dispatch(Bump(old(Snapshot())), ClearSession)
    {
      sessionGenerationRef := sessionGenerationRef + 1;
      SyncedDispatch(ClearSession);
    }

    method StartLogout() returns (i: nat)
      modifies `ops
      ensures i == |old(ops)| && Snapshot() == Next(old(Snapshot()), LogoutStarted)
    {
      i := |ops|;
      ops := ops + [Logout];
    }

    method OnLogout(i: nat, r: LogoutResult)
      requires Enabled(Snapshot(), LogoutLanded(i, r))
      modifies this
      ensures Snapshot() == Next(old(Snapshot()), LogoutLanded(i, r))
    {
      ops := ops[i := Landed];
      if r.LogoutRejected? {
        if !IsFinalAnswer(r.failure) {
          return;
        }
        ClearLocalSession();
        return;
      }
      ClearLocalSession();
    }
  }

  // ---- what every interleaving keeps ----

  /** The mirror is the reducer's status, and the status tells whether there is a user. */
  predicate MirrorOk(m: Machine) {
    var ui := Folded(m.log);
    && m.statusRef == ui.status
    && (ui.status == Authenticated ==> ui.user.Some?)
    && (ui.status == Unauthenticated ==> ui.user.None?)
  }

  /** The expiry callback fires only for an authenticated session, which is cleared right after. */
  predicate FiringsOk(log: seq<Event>) {
    forall p :: 0 <= p < |log| && log[p].ExpiredFired? ==>
      && Folded(log[..p]).status == Authenticated
      && p + 1 < |log| && log[p + 1] == Dispatched(ClearSession)
  }

  predicate GenerationsOk(m: Machine) {
    forall i :: 0 <= i < |m.ops| && m.ops[i].GetMe? ==> m.ops[i].generation <= m.generation
  }

  predicate Inv(m: Machine) {
    MirrorOk(m) && FiringsOk(m.log) && GenerationsOk(m)
  }

  lemma FoldedAfter(log: seq<Event>, e: Event)
    ensures Folded(log + [e]) == if e.Dispatched? then AuthReducer(Folded(log), e.action) else Folded(log)
  {
    assert (log + [e])[..|log|] == log;
  }

  lemma FiringsAfterDispatch(log: seq<Event>, action: Action)
    requires FiringsOk(log)
    ensures FiringsOk(log + [Dispatched(action)])
  {
    var next := log + [Dispatched(action)];
    forall p | 0 <= p < |next| && next[p].ExpiredFired?
      ensures Folded(next[..p]).status == Authenticated
      ensures p + 1 < |next| && next[p + 1] == Dispatched(ClearSession)
    {
      assert next[p] == log[p] && next[..p] == log[..p];
    }
  }

  lemma FiringsAfterExpiry(log: seq<Event>)
    requires FiringsOk(log) && Folded(log).status == Authenticated
    ensures FiringsOk(log + [ExpiredFired] + [Dispatched(ClearSession)])
  {
    var next := log + [ExpiredFired] + [Dispatched(ClearSession)];
    forall p | 0 <= p < |next| && next[p].ExpiredFired?
      ensures Folded(next[..p]).status == Authenticated
      ensures p + 1 < |next| && next[p + 1] == Dispatched(ClearSession)
    {
      assert next[..p] == log[..p];
      assert p < |log| ==> next[p] == log[p];
      assert log[..|log|] == log;
    }
  }

  lemma DispatchKeeps(m: Machine, action: Action)
    requires Inv(m)
    ensures Inv(Dispatch(m, action))
  {
    FoldedAfter(m.log, Dispatched(action));
    FiringsAfterDispatch(m.log, action);
  }

  lemma ExpiryKeeps(m: Machine)
    requires Inv(m) && m.statusRef == Authenticated
    ensures Inv(Dispatch(FireExpired(m), ClearSession))
  {
    FoldedAfter(m.log + [ExpiredFired], Dispatched(ClearSession));
    FiringsAfterExpiry(m.log);
  }

  lemma IssueKeeps(m: Machine, op: Op)
    requires Inv(m)
    requires op.GetMe? ==> op.generation <= m.generation
    ensures Inv(Issue(m, op))
  {
  }

  lemma LandKeeps(m: Machine, i: nat)
    requires Inv(m) && i < |m.ops|
    ensures Inv(Land(m, i)) && Inv(Bump(Land(m, i)))
  {
  }

  lemma GetMeKeeps(m: Machine, i: nat, r: GetMeResult)
    requires Inv(m) && i < |m.ops| && m.ops[i].GetMe?
    ensures Inv(LandGetMe(m, i, r))
  {
    LandKeeps(m, i);
    var landed := Land(m, i);
    hide Inv;
    match r
    case Me(user, time) => DispatchKeeps(landed, SetUser(user, time));
    case GetMeFailed(_) =>
      DispatchKeeps(landed, ClearSession);
      DispatchKeeps(landed, SetError);
      if m.statusRef == Authenticated {
        ExpiryKeeps(landed);
      }
  }

  lemma InvKept(m: Machine, step: Step)
    requires Inv(m)
    ensures Inv(Next(m, step))
  {
    hide Inv;
    if Enabled(m, step) {
      match step
      case Revalidate(isInitial) => IssueKeeps(m, GetMe(m.generation, isInitial));
      case LogoutStarted => IssueKeeps(m, Logout);
      case LoginStarted =>
        DispatchKeeps(m, SetLoading);
        IssueKeeps(Dispatch(m, SetLoading), Login);
      case RegisterStarted =>
        DispatchKeeps(m, SetLoading);
        IssueKeeps(Dispatch(m, SetLoading), Register);
      case GetMeLanded(i, r) => GetMeKeeps(m, i, r);
      case LoginLanded(i, r) => LandKeeps(m, i);
        if !r.LoginFailed? {
          DispatchKeeps(Bump(Land(m, i)), if r.MfaRequired? then ClearSession else SetUser(r.user, r.time));
        } else {
          DispatchKeeps(Land(m, i), SetError);
        }
      case RegisterLanded(i, r) => LandKeeps(m, i);
        if r.Registered? {
          DispatchKeeps(Bump(Land(m, i)), SetUser(r.user, r.time));
        } else {
          DispatchKeeps(Land(m, i), SetError);
        }
      case LogoutLanded(i, r) => LandKeeps(m, i);
        DispatchKeeps(Bump(Land(m, i)), ClearSession);
    }
  }

  lemma {:induction false} InvAlways(m: Machine, steps: seq<Step>)
    requires Inv(m)
    ensures Inv(Run(m, steps))
    decreases |steps|
  {
    hide Inv, Next;
    if steps != [] {
      InvKept(m, steps[0]);
      InvAlways(Next(m, steps[0]), steps[1..]);
    }
  }

  /**
   * In every interleaving the synchronous mirror agrees with the reducer, an authenticated state
   * has a user and an unauthenticated one has none.
   */
  lemma StatusIsTruthful(steps: seq<Step>)
    ensures MirrorOk(Run(MOUNTED, steps))
  {
    InvAlways(MOUNTED, steps);
  }

  lemma {:induction false} AuthenticatedNeedsSetUser(log: seq<Event>, a: nat, b: nat)
    requires a <= b <= |log|
    requires Folded(log[..a]).status != Authenticated && Folded(log[..b]).status == Authenticated
    ensures exists r :: a <= r < b && log[r].Dispatched? && log[r].action.SetUser?
    decreases b
  {
    if a < b {
      assert log[..b] == log[..b - 1] + [log[b - 1]];
      FoldedAfter(log[..b - 1], log[b - 1]);
      if !(log[b - 1].Dispatched? && log[b - 1].action.SetUser?) {
        AuthenticatedNeedsSetUser(log, a, b - 1);
      }
    }
  }

  /** Between two expiry notices a user was set: one lost session is announced once. */
  lemma OneNoticePerSession(steps: seq<Step>, p: nat, q: nat)
    requires p < q < |Run(MOUNTED, steps).log|
    requires Run(MOUNTED, steps).log[p].ExpiredFired? && Run(MOUNTED, steps).log[q].ExpiredFired?
    ensures var log := Run(MOUNTED, steps).log;
      exists r :: p < r < q && log[r].Dispatched? && log[r].action.SetUser?
  {
    InvAlways(MOUNTED, steps);
    var log := Run(MOUNTED, steps).log;
    assert log[..p + 2] == log[..p + 1] + [log[p + 1]];
    FoldedAfter(log[..p + 1], log[p + 1]);
    AuthenticatedNeedsSetUser(log, p + 2, q);
  }

  /** Before the first notice a user was set: a visitor who never signed in is not told anything. */
  lemma NoNoticeWithoutASession(steps: seq<Step>, q: nat)
    requires q < |Run(MOUNTED, steps).log| && Run(MOUNTED, steps).log[q].ExpiredFired?
    ensures var log := Run(MOUNTED, steps).log;
      exists r :: 0 <= r < q && log[r].Dispatched? && log[r].action.SetUser?
  {
    InvAlways(MOUNTED, steps);
    var log := Run(MOUNTED, steps).log;
    assert log[..0] == [];
    AuthenticatedNeedsSetUser(log, 0, q);
  }

  // ---- whom the page shows ----

  /** The last action dispatched was this one, `p` events into the log. */
  predicate IsLastAction(log: seq<Event>, p: nat, action: Action) {
    && p < |log| && log[p] == Dispatched(action)
    && forall q :: p < q < |log| ==> log[q].ExpiredFired?
  }

  lemma {:induction false} ShownIsTheLastSet(log: seq<Event>)
    ensures var ui := Folded(log);
      ui.status == Authenticated ==>
        exists p: nat, user, time :: IsLastAction(log, p, SetUser(user, time))
          && ui == AuthState(Some(user), Authenticated, Some(time))
  {
    var ui := Folded(log);
    if log != [] && ui.status == Authenticated {
      var (init, last) := (log[..|log| - 1], log[|log| - 1]);
      if last.ExpiredFired? {
        ShownIsTheLastSet(init);
        var p: nat, user, time :| IsLastAction(init, p, SetUser(user, time))
          && Folded(init) == AuthState(Some(user), Authenticated, Some(time));
        assert IsLastAction(log, p, SetUser(user, time));
      } else {
        assert IsLastAction(log, |init|, SetUser(last.action.user, last.action.timestamp));
      }
    }
  }

  /** In every run a signed-in page shows the user and time of the last action there was, a `SET_USER`. */
  lemma ShownUserIsTheLast(steps: seq<Step>)
    ensures var m := Run(MOUNTED, steps);
      m.statusRef == Authenticated ==>
        exists p: nat, user, time :: IsLastAction(m.log, p, SetUser(user, time))
          && Folded(m.log) == AuthState(Some(user), Authenticated, Some(time))
  {
    hide Run, Folded, IsLastAction;
    StatusIsTruthful(steps);
    ShownIsTheLastSet(Run(MOUNTED, steps).log);
  }

  /** The page a step of the provider leaves, as a function of the page before it and the answer. */
  predicate Shows(before: AuthState, m: Machine, step: Step, after: AuthState) {
    match step
    case LoginStarted => after == AuthState(before.user, Loading, before.lastValidation)
    case RegisterStarted => after == AuthState(before.user, Loading, before.lastValidation)
    case LoginLanded(_, LoggedIn(user, time)) => after == AuthState(Some(user), Authenticated, Some(time))
    case LoginLanded(_, MfaRequired) => after == AuthState(None, Unauthenticated, None)
    case LoginLanded(_, LoginFailed) => after == AuthState(None, Unauthenticated, before.lastValidation)
    case RegisterLanded(_, Registered(user, time)) => after == AuthState(Some(user), Authenticated, Some(time))
    case RegisterLanded(_, RegisterFailed) => after == AuthState(None, Unauthenticated, before.lastValidation)
    case GetMeLanded(i, me) =>
      if i < |m.ops| && m.ops[i].GetMe? && m.ops[i].generation != m.generation then after == before
      else
        (match me
         case Me(user, time) => after == AuthState(Some(user), Authenticated, Some(time))
         case GetMeFailed(ClientError(Some(401))) => after == AuthState(None, Unauthenticated, None)
         case GetMeFailed(_) => after == AuthState(None, Unauthenticated, before.lastValidation))
    case LogoutLanded(_, LogoutConfirmed) => after == AuthState(None, Unauthenticated, None)
    case LogoutLanded(_, LogoutRejected(ClientError(Some(status)))) =>
      if 100 <= status < 500 && status != 429 then after == AuthState(None, Unauthenticated, None)
      else after == before
    case LogoutLanded(_, LogoutRejected(_)) => after == before
    case _ => after == before
  }

  /** Every answer leaves exactly its own page: user, status and time of validation. */
  lemma AnswersShow(m: Machine, step: Step)
    requires Enabled(m, step)
    ensures Shows(Folded(m.log), m, step, Folded(Next(m, step).log))
  {
    hide Folded;
    forall action { FoldedAfter(m.log, Dispatched(action)); }
    FoldedAfter(m.log, ExpiredFired);
    FoldedAfter(m.log + [ExpiredFired], Dispatched(ClearSession));
  }

  /**
   * The expiry notice: a step fires it exactly when it is the 401 of a background check that is
   * still current and finds the page signed in, and then once, right before the session is cleared.
   */
  lemma NoticeFiresIff(m: Machine, step: Step)
    requires Enabled(m, step)
    ensures var t := Next(m, step);
      var fires :=
        && step.GetMeLanded? && step.me == GetMeFailed(ClientError(Some(401)))
        && m.ops[step.op].generation == m.generation && !m.ops[step.op].isInitial
        && m.statusRef == Authenticated;
      && (fires ==> t.log == m.log + [ExpiredFired] + [Dispatched(ClearSession)])
      && (!fires ==> t.log == m.log || exists action :: t.log == m.log + [Dispatched(action)])
  {
  }

  /** Whatever is outstanding can be answered in any way, and calls can be made at any time. */
  lemma OutstandingCallsCanBeAnswered(m: Machine, i: nat, me: GetMeResult, login: LoginResult,
    register: RegisterResult, logout: LogoutResult)
    requires i < |m.ops|
    ensures match m.ops[i]
      case GetMe(_, _) => Enabled(m, GetMeLanded(i, me))
      case Login => Enabled(m, LoginLanded(i, login))
      case Register => Enabled(m, RegisterLanded(i, register))
      case Logout => Enabled(m, LogoutLanded(i, logout))
      case Landed => true
    ensures Enabled(m, Revalidate(true)) && Enabled(m, Revalidate(false))
    ensures Enabled(m, LoginStarted) && Enabled(m, RegisterStarted) && Enabled(m, LogoutStarted)
  {
  }

  /** Every call is answered once, by an answer of its kind that changes no other call. */
  lemma AnswersLandOnce(m: Machine, step: Step)
    requires Enabled(m, step)
    ensures var t := Next(m, step);
      match step
      case GetMeLanded(i, _) => i < |m.ops| && m.ops[i].GetMe? && t.ops == m.ops[i := Landed]
      case LoginLanded(i, _) => i < |m.ops| && m.ops[i] == Login && t.ops == m.ops[i := Landed]
      case RegisterLanded(i, _) => i < |m.ops| && m.ops[i] == Register && t.ops == m.ops[i := Landed]
      case LogoutLanded(i, _) => i < |m.ops| && m.ops[i] == Logout && t.ops == m.ops[i := Landed]
      case Revalidate(isInitial) => t.ops == m.ops + [GetMe(m.generation, isInitial)]
      case LoginStarted => t.ops == m.ops + [Login]
      case RegisterStarted => t.ops == m.ops + [Register]
      case LogoutStarted => t.ops == m.ops + [Logout]
  {
  }

  // ---- stale answers ----

  /** The deliberate transitions: a sign-in, an MFA gate, or a logout the server answered for good. */
  predicate IsTransition(m: Machine, step: Step) {
    Enabled(m, step) &&
    match step
    case LoginLanded(_, r) => !r.LoginFailed?
    case RegisterLanded(_, r) => r.Registered?
    case LogoutLanded(_, r) => r.LogoutConfirmed? || IsFinalAnswer(r.failure)
    case _ => false
  }

  /** The transitions that end a session rather than start one. */
  predicate EndsSession(m: Machine, step: Step) {
    IsTransition(m, step) && (step.LogoutLanded? || (step.LoginLanded? && step.login.MfaRequired?))
  }

  /** Every getMe among the first `n` operations was issued under an earlier generation. */
  predicate StaleBelow(m: Machine, n: nat) {
    n <= |m.ops| &&
    forall i :: 0 <= i < n && m.ops[i].GetMe? ==> m.ops[i].generation < m.generation
  }

  lemma StaleKept(m: Machine, step: Step, n: nat)
    requires StaleBelow(m, n)
    ensures StaleBelow(Next(m, step), n)
  {
  }

  lemma TransitionMakesStale(m: Machine, step: Step)
    requires Inv(m) && IsTransition(m, step)
    ensures StaleBelow(Next(m, step), |m.ops|)
  {
    hide MirrorOk, FiringsOk;
  }

  lemma {:induction false} StaleStays(m: Machine, steps: seq<Step>, n: nat)
    requires StaleBelow(m, n)
    ensures StaleBelow(Run(m, steps), n)
    decreases |steps|
  {
    hide Next, StaleBelow;
    if steps != [] {
      StaleKept(m, steps[0], n);
      StaleStays(Next(m, steps[0]), steps[1..], n);
    }
  }

  /**
   * A getMe issued before a deliberate transition never changes anything after it: whatever
   * happens in between, and whatever it answers, neither the state nor the callbacks notice.
   */
  lemma StaleAnswersAreInert(before: seq<Step>, transition: Step, after: seq<Step>, i: nat, r: GetMeResult)
    requires IsTransition(Run(MOUNTED, before), transition)
    requires i < |Run(MOUNTED, before).ops|
    requires var m := Run(Next(Run(MOUNTED, before), transition), after); Enabled(m, GetMeLanded(i, r))
    ensures var m := Run(Next(Run(MOUNTED, before), transition), after);
      Next(m, GetMeLanded(i, r)) == Land(m, i)
  {
    hide Run;
    var m0 := Run(MOUNTED, before);
    InvAlways(MOUNTED, before);
    TransitionMakesStale(m0, transition);
    StaleStays(Next(m0, transition), after, |m0.ops|);
  }

  /** A sign-in lands, or a getMe issued as operation `n` or later answers with a user. */
  predicate Establishes(m: Machine, step: Step, n: nat) {
    Enabled(m, step) &&
    match step
    case LoginLanded(_, r) => r.LoggedIn?
    case RegisterLanded(_, r) => r.Registered?
    case GetMeLanded(i, r) => r.Me? && i >= n
    case _ => false
  }

  lemma OnlyEstablishingAuthenticates(m: Machine, step: Step, n: nat)
    requires StaleBelow(m, n)
    requires m.statusRef != Authenticated && !Establishes(m, step, n)
    ensures Next(m, step).statusRef != Authenticated
  {
  }

  lemma {:induction false} NotAuthenticatedUntil(m: Machine, steps: seq<Step>, n: nat)
    requires StaleBelow(m, n) && m.statusRef != Authenticated
    requires Run(m, steps).statusRef == Authenticated
    ensures exists k :: 0 <= k < |steps| && Establishes(Run(m, steps[..k]), steps[k], n)
    decreases |steps|
  {
    hide Next, StaleBelow, Establishes;
    if Establishes(m, steps[0], n) {
      assert Run(m, steps[..0]) == m;
    } else {
      OnlyEstablishingAuthenticates(m, steps[0], n);
      StaleKept(m, steps[0], n);
      NotAuthenticatedUntil(Next(m, steps[0]), steps[1..], n);
      var k :| 0 <= k < |steps[1..]| &&
        Establishes(Run(Next(m, steps[0]), steps[1..][..k]), steps[1..][k], n);
      assert steps[..k + 1][1..] == steps[1..][..k];
      assert Establishes(Run(m, steps[..k + 1]), steps[k + 1], n);
    }
  }

  /**
   * No stale resurrection: after a logout the server answered for good, or an MFA gate, the status
   * is authenticated again only if some later step was a successful sign-in or the answer to a
   * getMe issued after that point.
   */
  lemma NoStaleResurrection(before: seq<Step>, ending: Step, after: seq<Step>)
    requires EndsSession(Run(MOUNTED, before), ending)
    ensures var m0 := Run(MOUNTED, before);
      var m1 := Next(m0, ending);
      && m1.statusRef == Unauthenticated
      && (Run(m1, after).statusRef == Authenticated ==>
            exists k :: 0 <= k < |after| && Establishes(Run(m1, after[..k]), after[k], |m0.ops|))
  {
    var m0 := Run(MOUNTED, before);
    var m1 := Next(m0, ending);
    InvAlways(MOUNTED, before);
    TransitionMakesStale(m0, ending);
    if Run(m1, after).statusRef == Authenticated {
      NotAuthenticatedUntil(m1, after, |m0.ops|);
    }
  }
}
