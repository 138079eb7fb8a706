/**
 * The logout handler under any run of the provider: logouts in flight together with getMe, login
 * and register calls, in every interleaving, and the browser's cookies beside them.
 */
module LogoutRuns {
  import opened Strings
  import opened Logout
  import P = SessionProvider

  /** The page and the browser's cookies; `carried` says which calls were sent with cookies. */
  datatype Page = Page(hasCookies: bool, provider: P.Machine, carried: seq<bool>)

  /** A step of the provider other than a logout's answer, or the handler's answer to a logout. */
  datatype PageStep = Act(step: P.Step) | LogoutAnswered(op: nat, attempt: Attempt)

  /**
   * The provider's logouts are same-site POSTs, and a getMe is answered with a user only when it
   * was sent with cookies.
   */
  predicate CanHappen(w: Page, step: PageStep) {
    match step
    case Act(s) =>
      && P.Enabled(w.provider, s)
      && !s.LogoutLanded?
      && (s.GetMeLanded? && s.me.Me? ==> s.op < |w.carried| && w.carried[s.op])
    case LogoutAnswered(i, attempt) =>
      && i < |w.provider.ops| && w.provider.ops[i].Logout?
      && attempt.request.isPost && !attempt.request.isCrossSite
  }

  predicate SignsIn(step: PageStep) {
    step.Act? &&
    match step.step
    case LoginLanded(_, r) => r.LoggedIn?
    case RegisterLanded(_, r) => r.Registered?
    case _ => false
  }

  function Next(w: Page, c: CookieConfig, step: PageStep): Page {
    if !CanHappen(w, step) then w
    else
      match step
      case Act(s) =>
        var m := P.Next(w.provider, s);
        Page(w.hasCookies || SignsIn(step), m,
             if |m.ops| > |w.provider.ops| then w.carried + [w.hasCookies] else w.carried)
      case LogoutAnswered(i, attempt) =>
        Page(w.hasCookies && !CookiesDeleted(c, attempt),
             P.Next(w.provider, P.LogoutLanded(i, ClientResult(Delivered(c, attempt)))),
             w.carried)
  }

  function Run(w: Page, c: CookieConfig, steps: seq<PageStep>): Page
    decreases |steps|
  {
    if steps == [] then w else Run(Next(w, c, steps[0]), c, steps[1..])
  }

  /** What can happen: every provider step but a logout's own landing, and every same-site POST's answer. */
  lemma WhatCanHappen(w: Page, s: P.Step, i: nat, attempt: Attempt)
    ensures P.Enabled(w.provider, s) && !s.LogoutLanded? && !(s.GetMeLanded? && s.me.Me?) ==> CanHappen(w, Act(s))
    ensures P.Enabled(w.provider, s) && s.GetMeLanded? && s.op < |w.carried| && w.carried[s.op] ==>
      CanHappen(w, Act(s))
    ensures i < |w.provider.ops| && w.provider.ops[i].Logout? && attempt.request == Request(true, false) ==>
      CanHappen(w, LogoutAnswered(i, attempt))
  {
  }

  predicate IsSettled(attempt: Attempt) {
    !attempt.lost && IsFinalUpstream(attempt.upstream)
  }

  /**
   * One answer, whatever else is in flight: a settled logout takes the cookies and the session and
   * makes every earlier getMe stale; any other leaves cookies, status and callbacks as they were.
   */
  lemma OneAnswerAgrees(w: Page, c: CookieConfig, i: nat, attempt: Attempt)
    requires CanHappen(w, LogoutAnswered(i, attempt))
    ensures var t := Next(w, c, LogoutAnswered(i, attempt));
      if IsSettled(attempt) then
        !t.hasCookies && t.provider == P.Dispatch(P.Bump(P.Land(w.provider, i)), P.ClearSession)
      else
        t.hasCookies == w.hasCookies && t.provider == P.Land(w.provider, i)
  {
    hide ClearCookies;
    CookiesClearedIff(StatusMode, c, attempt.request, attempt.upstream);
    AgreementIff(c, attempt);
  }

  /** A user is shown only with cookies behind it, and no answer still to come can change that. */
  predicate Inv(w: Page) {
    && |w.carried| == |w.provider.ops|
    && P.GenerationsOk(w.provider)
    && (w.provider.statusRef == P.Authenticated ==> w.hasCookies)
    && (forall i :: 0 <= i < |w.carried| && w.carried[i] ==>
          w.provider.ops[i].GetMe? && w.provider.ops[i].generation == w.provider.generation ==> w.hasCookies)
  }

  lemma ActKeeps(w: Page, c: CookieConfig, s: P.Step)
    requires Inv(w)
    ensures Inv(Next(w, c, Act(s)))
  {
  }

  lemma AnswerKeeps(w: Page, c: CookieConfig, i: nat, attempt: Attempt)
    requires Inv(w)
    ensures Inv(Next(w, c, LogoutAnswered(i, attempt)))
  {
    hide CookiesDeleted, Delivered, ClientResult;
    if CanHappen(w, LogoutAnswered(i, attempt)) {
      OneAnswerAgrees(w, c, i, attempt);
    }
  }

  lemma {:induction false} InvAlways(w: Page, c: CookieConfig, steps: seq<PageStep>)
    requires Inv(w)
    ensures Inv(Run(w, c, steps))
    decreases |steps|
  {
    hide Inv, Next;
    if steps != [] {
      match steps[0] {
        case Act(s) => ActKeeps(w, c, s);
        case LogoutAnswered(i, attempt) => AnswerKeeps(w, c, i, attempt);
      }
      InvAlways(Next(w, c, steps[0]), c, steps[1..]);
    }
  }

  function Opened(hasCookies: bool): Page {
    Page(hasCookies, P.MOUNTED, [])
  }

  /** In every interleaving the page shows a signed-in user only while the browser holds cookies. */
  lemma SignedInHoldsCookies(hasCookies: bool, c: CookieConfig, steps: seq<PageStep>)
    ensures var w := Run(Opened(hasCookies), c, steps);
      w.provider.statusRef == P.Authenticated ==> w.hasCookies
  {
    hide Run, Next;
    InvAlways(Opened(hasCookies), c, steps);
  }

  /** Some logout of the run was settled. */
  predicate AnySettled(w: Page, c: CookieConfig, steps: seq<PageStep>)
    decreases |steps|
  {
    steps != [] &&
    ((CanHappen(w, steps[0]) && steps[0].LogoutAnswered? && IsSettled(steps[0].attempt))
     || AnySettled(Next(w, c, steps[0]), c, steps[1..]))
  }

  lemma CookiesChange(w: Page, c: CookieConfig, step: PageStep)
    requires !SignsIn(step)
    ensures Next(w, c, step).hasCookies <==>
      w.hasCookies && !(CanHappen(w, step) && step.LogoutAnswered? && IsSettled(step.attempt))
  {
    hide CookiesDeleted, Delivered, ClientResult;
    if CanHappen(w, step) && step.LogoutAnswered? {
      OneAnswerAgrees(w, c, step.op, step.attempt);
    }
  }

  lemma {:induction false} CookiesUntilSettled(w: Page, c: CookieConfig, steps: seq<PageStep>)
    requires forall i :: 0 <= i < |steps| ==> !SignsIn(steps[i])
    ensures Run(w, c, steps).hasCookies <==> w.hasCookies && !AnySettled(w, c, steps)
    decreases |steps|
  {
    hide Next, CanHappen, SignsIn, IsSettled;
    if steps != [] {
      CookiesChange(w, c, steps[0]);
      CookiesUntilSettled(Next(w, c, steps[0]), c, steps[1..]);
    }
  }

  /**
   * The end-to-end logout rule over any run without a new sign-in, from any state that can be
   * reached: the cookies are intact exactly until a logout is settled, and from then on nobody is
   * shown as signed in, whatever logouts failed and whatever else was in flight.
   */
  lemma LogoutRule(hasCookies: bool, c: CookieConfig, before: seq<PageStep>, after: seq<PageStep>)
    requires forall i :: 0 <= i < |after| ==> !SignsIn(after[i])
    ensures var w := Run(Opened(hasCookies), c, before);
      var end := Run(w, c, after);
      && (end.hasCookies <==> w.hasCookies && !AnySettled(w, c, after))
      && (AnySettled(w, c, after) ==> end.provider.statusRef != P.Authenticated)
  {
    hide Run, Next, AnySettled, SignsIn;
    var w := Run(Opened(hasCookies), c, before);
    InvAlways(Opened(hasCookies), c, before);
    InvAlways(w, c, after);
    CookiesUntilSettled(w, c, after);
  }
}
