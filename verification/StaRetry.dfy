/** The station's connection retry machine (skw_iface.c, skw_cfg80211.c, skw_msg.c): a timer retries the pending
    command, restarts authentication a few times, and finally gives up. */
module StaRetry {

  const STEP_TIMEOUT := 300
  const AUTH_TIMEOUT := 4800
  const ASSOC_TIMEOUT := 4800
  const MAX_AUTH_RETRY := 3
  const MAX_ASSOC_RETRY := 5
  const MAX_REDO := 3

  datatype State = None | Authing | Authed | Associng | Assoced
  datatype Retry = RetryNone | RetryAuth | RetryAssoc

  /** `restartable`: an open-system station, which may restart authentication. */
  datatype Sta = Sta(state: State, retry: nat, redo: nat, rty: Retry, restartable: bool,
                     authStart: nat, stepStart: nat, ctxStart: nat, ctxTimeout: nat)

  /** What the machine sees; the booleans tell whether a frame or command can be sent. */
  datatype Event =
    | Tick(now: nat, deauthSent: bool, cmdSent: bool)
    | RxAuth(now: nat, success: bool)
    | Assoc(now: nat, cmdSent: bool, roams: bool)  // `roams`: to another BSS, which has been joined
    | RxAssoc(success: bool)

  /** New state, and the commands sent on the way. */
  datatype Outcome = Outcome(sta: Sta, auths: nat, assocs: nat)

  function Leave(s: Sta): Sta { s.(state := None) }

  /** Starting a connection. */
  function Auth(now: nat, restartable: bool): Sta {
    Sta(Authing, 0, 0, RetryNone, restartable, now, now, now, AUTH_TIMEOUT)
  }

  predicate TimeAfter(now: nat, deadline: nat) { now > deadline }

  /** Retries are used up: deauthenticate and authenticate again, unless that is not allowed any more. */
  function Redo(s: Sta, e: Event, rty: Retry): (Outcome, bool)
    requires e.Tick?
  {
    if !s.restartable || TimeAfter(e.now, s.ctxStart + s.ctxTimeout) || s.redo >= MAX_REDO then (Outcome(s, 0, 0), true)
    else
      var s1 := s.(rty := rty);
      if !e.deauthSent then (Outcome(s1, 0, 0), true)
      else
        var s2 := s1.(state := None, redo := s.redo + 1);
        if !e.cmdSent then (Outcome(s2, 1, 0), true)
        else (Outcome(s2.(retry := 0, stepStart := e.now, state := Authing), 1, 0), false)
  }

  /** One step of a pending exchange past its timeout; true when the connection has failed. */
  function Retried(s: Sta, e: Event): (Outcome, bool)
    requires e.Tick? && (s.state == Authing || s.state == Associng)
  {
    var s1 := s.(retry := s.retry + 1);
    if s.state == Authing then
      if s1.retry >= MAX_AUTH_RETRY then Redo(s1, e, if s.rty == RetryNone then RetryAuth else s.rty)
      else (Outcome(s1, 1, 0), !e.cmdSent)
    else
      if s1.retry >= MAX_ASSOC_RETRY then Redo(s1, e, RetryAssoc)
      else (Outcome(s1, 0, 1), !e.cmdSent)
  }

  function OnTick(s: Sta, e: Event): Outcome
    requires e.Tick?
  {
    var late := TimeAfter(e.now, s.authStart + AUTH_TIMEOUT + ASSOC_TIMEOUT);
    var due := TimeAfter(e.now, s.stepStart + STEP_TIMEOUT);
    match s.state
    case Authed => Outcome(if due then Leave(s) else s, 0, 0)
    case Authing | Associng =>
      var (o, failed) := if due then Retried(s, e) else (Outcome(s, 0, 0), false);
      if failed || late then o.(sta := Leave(o.sta)) else o
    case _ => Outcome(s, 0, 0)
  }

  /** Frames from the peer and requests from the upper layer. A local retry after a failed association goes on with the
      association by itself, without a new command, and even when the peer refused the authentication. */
  function Step(s: Sta, e: Event): Outcome {
    match e
    case Tick(_, _, _) => OnTick(s, e)
    case RxAuth(now, success) =>
      var s1 := s.(state := if success then Authed else None, stepStart := now, retry := 0);
      Outcome(if s.rty == RetryAssoc then s1.(state := Associng) else s1, 0, 0)
    case Assoc(now, cmdSent, roams) =>
      if s.state == Authed || (s.state == Assoced && roams) then
        var s1 := s.(retry := 0, ctxStart := now, ctxTimeout := ASSOC_TIMEOUT, state := Associng);
        Outcome(if cmdSent then s1 else Leave(s1), 0, 1)
      else Outcome(s, 0, 0)
    case RxAssoc(success) => Outcome(s.(state := if success then Assoced else None), 0, 0)
  }

  /** Answers arrive while they are waited for, and an established connection is left alone. */
  ghost predicate Orderly(s: Sta, e: Event) {
    && (e.RxAuth? ==> s.state == Authing)
    && (e.RxAssoc? ==> s.state == Associng)
    && (e.Assoc? ==> s.state != Assoced)
  }

  /** The event starts a phase anew that was over: an answer to an authentication nobody waits for, unless it is the
      first one of a local retry that already went on, or an association that leaves an established connection. */
  predicate Reopens(s: Sta, e: Event) {
    match e
    case RxAuth(_, success) =>
      && (success || s.rty == RetryAssoc)
      && (s.state == None || s.state == Assoced || (s.state == Associng && !(s.rty == RetryAssoc && s.retry == 0)))
    case Assoc(_, _, roams) => roams && s.state == Assoced
    case _ => false
  }

  /** No event of the run reopens a phase. */
  ghost predicate ClosedRun(s: Sta, es: seq<Event>)
    decreases |es|
  {
    es == [] || (ClosedRun(s, es[..|es| - 1]) && !Reopens(Run(s, es[..|es| - 1]).sta, es[|es| - 1]))
  }

  function Run(s: Sta, es: seq<Event>): Outcome
    decreases |es|
  {
    if es == [] then Outcome(s, 0, 0)
    else
      var o := Run(s, es[..|es| - 1]);
      var n := Step(o.sta, es[|es| - 1]);
      Outcome(n.sta, o.auths + n.auths, o.assocs + n.assocs)
  }

  // ----- invariant, budgets and measure

  ghost predicate Inv(s: Sta) {
    && s.redo <= MAX_REDO
    && (s.state == Authing ==> s.retry < MAX_AUTH_RETRY)
    && (s.state == Associng ==> s.retry < MAX_ASSOC_RETRY)
    && (s.state == Authed ==> s.rty != RetryAssoc)
  }

  /** Authentication commands that may still be sent. */
  ghost function AuthBudget(s: Sta): int {
    match s.state
    case Authing => (MAX_REDO - s.redo) * MAX_AUTH_RETRY + (MAX_AUTH_RETRY - 1 - s.retry)
    case Authed | Associng => (MAX_REDO - s.redo) * MAX_AUTH_RETRY
    case _ => 0
  }

  /** Association commands that may still be sent: five in the first round, four in each local retry. */
  ghost function AssocBudget(s: Sta): int {
    match s.state
    case Authing => (MAX_REDO - s.redo) * (MAX_ASSOC_RETRY - 1) + (if s.rty == RetryAssoc then MAX_ASSOC_RETRY - 1 else MAX_ASSOC_RETRY)
    case Authed => (MAX_REDO - s.redo) * (MAX_ASSOC_RETRY - 1) + MAX_ASSOC_RETRY
    case Associng => (MAX_REDO - s.redo) * (MAX_ASSOC_RETRY - 1) + (MAX_ASSOC_RETRY - 1 - s.retry)
    case _ => 0
  }

  /** Every event keeps the invariant, and it pays for the commands it sends out of the two budgets iff it does not
      reopen a phase. */
  lemma {:induction false} StepPays(s: Sta, e: Event)
    requires Inv(s)
    ensures var o := Step(s, e);
            && Inv(o.sta) && AuthBudget(o.sta) >= 0 && AssocBudget(o.sta) >= 0
            && (o.auths + AuthBudget(o.sta) <= AuthBudget(s) && o.assocs + AssocBudget(o.sta) <= AssocBudget(s)
                <==> !Reopens(s, e))
  {
    hide OnTick;
    if e.Tick? { TickPays(s, e); }
  }

  lemma {:induction false} TickPays(s: Sta, e: Event)
    requires Inv(s) && e.Tick?
    ensures var o := OnTick(s, e);
            && Inv(o.sta) && AuthBudget(o.sta) >= 0 && AssocBudget(o.sta) >= 0
            && o.auths + AuthBudget(o.sta) <= AuthBudget(s) && o.assocs + AssocBudget(o.sta) <= AssocBudget(s)
  {
  }

  /** Between two connection attempts, however ticks and answers interleave without reopening a phase: at most 12
      authentication commands (the first included) and at most 17 association commands. */
  lemma {:induction false} CommandsAreBounded(now: nat, restartable: bool, es: seq<Event>)
    requires ClosedRun(Auth(now, restartable), es)
    ensures var o := Run(Auth(now, restartable), es);
            && Inv(o.sta)
            && 1 + o.auths + AuthBudget(o.sta) <= 12 && AuthBudget(o.sta) >= 0
            && o.assocs + AssocBudget(o.sta) <= 17 && AssocBudget(o.sta) >= 0
    decreases |es|
  {
    hide Step;
    hide Reopens;
    if es != [] {
      var init := es[..|es| - 1];
      CommandsAreBounded(now, restartable, init);
      StepPays(Run(Auth(now, restartable), init).sta, es[|es| - 1]);
    }
  }

  /** Lexicographic measure of an ongoing connection: restarts left, phase, retries left. */
  ghost function Phase(s: Sta): nat {
    match s.state case Authing => 2 case Authed => 1 case Associng => 0 case _ => 0
  }

  ghost function RetriesLeft(s: Sta): int {
    match s.state
    case Authing => MAX_AUTH_RETRY - s.retry
    case Associng => MAX_ASSOC_RETRY - s.retry
    case _ => 0
  }

  ghost predicate Ongoing(s: Sta) { s.state == Authing || s.state == Authed || s.state == Associng }

  ghost predicate Less(a: Sta, b: Sta) {
    || a.redo > b.redo
    || (a.redo == b.redo && Phase(a) < Phase(b))
    || (a.redo == b.redo && Phase(a) == Phase(b) && 0 <= RetriesLeft(a) < RetriesLeft(b))
  }

  /** A tick past the step timeout decreases the measure or ends the connection, every other tick leaves the machine
      alone or ends it, and all progress decreases the measure or leaves the connecting phase. */
  lemma {:induction false} TickDecreases(s: Sta, e: Event)
    requires Inv(s) && Ongoing(s)
    ensures var s' := Step(s, e).sta;
            && (e.Tick? && TimeAfter(e.now, s.stepStart + STEP_TIMEOUT) ==> s'.state == None || Less(s', s))
            && (e.Tick? && !TimeAfter(e.now, s.stepStart + STEP_TIMEOUT) ==> s' == s || s'.state == None)
            && (!e.Tick? && Orderly(s, e) ==> s' == s || !Ongoing(s') || Less(s', s))
  {
  }

  // ----- what the states mean

  predicate Due(s: Sta, e: Event) requires e.Tick? { e.now > s.stepStart + 300 }
  predicate Late(s: Sta, e: Event) requires e.Tick? { e.now > s.authStart + 9600 }

  /** The pending command has been repeated as often as it may be. */
  predicate Exhausted(s: Sta) { s.retry + 1 >= if s.state == Authing then 3 else 5 }

  predicate MayRestart(s: Sta, e: Event) requires e.Tick? {
    s.restartable && e.now <= s.ctxStart + s.ctxTimeout && s.redo < 3
  }

  predicate Pending(s: Sta) { s.state == Authing || s.state == Associng }

  /** What a tick does: when it repeats the command, when it authenticates anew, and when the attempt ends. */
  lemma {:induction false} TickMeaning(s: Sta, e: Event)
    requires e.Tick?
    ensures var o := Step(s, e);
            var repeats := Pending(s) && Due(s, e) && !Exhausted(s);
            var restarts := Pending(s) && Due(s, e) && Exhausted(s) && MayRestart(s, e);
            && (o.auths == 1 <==> (repeats && s.state == Authing) || (restarts && e.deauthSent)) && o.auths <= 1
            && (o.assocs == 1 <==> repeats && s.state == Associng) && o.assocs <= 1
            && (Ongoing(s) ==> (o.sta.state == None <==>
                 if s.state == Authed then Due(s, e)
                 else || Late(s, e) || (repeats && !e.cmdSent)
                      || (Due(s, e) && Exhausted(s) && !(restarts && e.deauthSent && e.cmdSent))))
            && (o.sta.state != None ==>
                 o.sta == if restarts then s.(state := Authing, retry := 0, redo := s.redo + 1, stepStart := e.now, rty := o.sta.rty)
                          else if repeats then s.(retry := s.retry + 1) else s)
            && o.sta.rty == (if restarts && s.state == Associng then RetryAssoc
                             else if restarts && s.rty == RetryNone then RetryAuth else s.rty)
  {
  }

  /** Nothing that came after the answer ended the connection: it lasts through ticks, through requests that do not lead
      to another BSS, and through the same answer again. */
  predicate Lasts(e: Event) { e.Tick? || (e.Assoc? && !e.roams) || e == RxAssoc(true) }

  ghost predicate AnsweredSince(es: seq<Event>, k: nat) {
    k < |es| && es[k] == RxAssoc(true) && forall j :: k < j < |es| ==> Lasts(es[j])
  }

  /** Over every run: the station is associated iff an association was granted and nothing has ended it since. */
  lemma {:induction false} AssocedMeaning(now: nat, restartable: bool, es: seq<Event>)
    ensures Run(Auth(now, restartable), es).sta.state == Assoced <==> exists k: nat :: AnsweredSince(es, k)
    decreases |es|
  {
    if es != [] {
      var n := |es| - 1;
      var s := Run(Auth(now, restartable), es[..n]).sta;
      AssocedMeaning(now, restartable, es[..n]);
      AssocedStep(s, es[n]);
      hide Run;
      if k: nat :| AnsweredSince(es[..n], k) {
        assert Lasts(es[n]) ==> AnsweredSince(es, k);
      }
      if es[n] == RxAssoc(true) { assert AnsweredSince(es, n); }
      if k: nat :| AnsweredSince(es, k) {
        assert k < n ==> AnsweredSince(es[..n], k);
      }
    }
  }

  lemma {:induction false} AssocedStep(s: Sta, e: Event)
    ensures Step(s, e).sta.state == Assoced <==> e == RxAssoc(true) || (s.state == Assoced && Lasts(e))
  {
  }

  /** Authentication was granted by event `k`, not in a local retry, and only ticks within the step timeout came since. */
  ghost predicate AuthedSince(s: Sta, es: seq<Event>, k: nat) {
    && k < |es| && es[k].RxAuth? && es[k].success && Run(s, es[..k]).sta.rty != RetryAssoc
    && forall j :: k < j < |es| ==> es[j].Tick? && es[j].now <= es[k].now + 300
  }

  /** Over every run: the station is authenticated, waiting for a request, iff authentication was granted just before. */
  lemma {:induction false} AuthedMeaning(now: nat, restartable: bool, es: seq<Event>)
    ensures var s := Auth(now, restartable);
            && (Run(s, es).sta.state == Authed <==> exists k: nat :: AuthedSince(s, es, k))
            && forall k: nat :: AuthedSince(s, es, k) ==> Run(s, es).sta.stepStart == es[k].now
    decreases |es|
  {
    hide Step;
    var s0 := Auth(now, restartable);
    hide Auth;
    if es == [] {
      StartsUnauthed(now, restartable);
    } else {
      var n := |es| - 1;
      var s := Run(s0, es[..n]).sta;
      AuthedMeaning(now, restartable, es[..n]);
      AuthedStep(s, es[n]);
      assert Run(s0, es).sta == Step(s, es[n]).sta;
      hide Run;
      hide AuthedSince;
      forall k: nat ensures AuthedSince(s0, es, k) ==> k <= n { AuthedMore(s0, es, k); }
      forall k: nat | AuthedSince(s0, es, k)
        ensures Run(s0, es).sta.stepStart == es[k].now && Run(s0, es).sta.state == Authed
      {
        AuthedMore(s0, es, k);
      }
      if k: nat :| AuthedSince(s0, es[..n], k) { AuthedMore(s0, es, k); }
      AuthedMore(s0, es, n);
    }
  }

  lemma {:induction false} AuthedMore(s: Sta, es: seq<Event>, k: nat)
    requires es != []
    ensures var n := |es| - 1;
            && (AuthedSince(s, es, k) ==> k <= n)
            && (k == n ==> (AuthedSince(s, es, k) <==> es[n].RxAuth? && es[n].success && Run(s, es[..n]).sta.rty != RetryAssoc))
            && (k < n ==> (AuthedSince(s, es, k) <==> AuthedSince(s, es[..n], k) && es[n].Tick? && es[n].now <= es[k].now + 300))
  {
    hide Run;
    var n := |es| - 1;
    assert k <= n ==> es[..n][..k] == es[..k];
  }

  lemma {:induction false} StartsUnauthed(now: nat, restartable: bool)
    ensures Run(Auth(now, restartable), []).sta.state == Authing
  {
  }

  lemma {:induction false} AuthedStep(s: Sta, e: Event)
    ensures var s' := Step(s, e).sta;
            && (s'.state == Authed <==> || (e.RxAuth? && e.success && s.rty != RetryAssoc)
                                        || (s.state == Authed && e.Tick? && e.now <= s.stepStart + 300))
            && (e.RxAuth? ==> s'.stepStart == e.now)
            && (s.state == Authed && e.Tick? ==> s'.stepStart == s.stepStart)
  {
  }

  /** Event `k` was a tick that gave up the association and went on with a local retry. */
  ghost predicate RetriesAt(s: Sta, es: seq<Event>, k: nat) {
    k < |es| && RetriesNow(Run(s, es[..k]).sta, es[k])
  }

  predicate RetriesNow(s: Sta, e: Event) {
    e.Tick? && s.state == Associng && Due(s, e) && Exhausted(s) && MayRestart(s, e)
  }

  lemma {:induction false} RetryMeaning(now: nat, restartable: bool, es: seq<Event>)
    ensures var s := Auth(now, restartable); Run(s, es).sta.rty == RetryAssoc <==> exists k: nat :: RetriesAt(s, es, k)
    decreases |es|
  {
    hide Step;
    hide RetriesAt;
    hide RetriesNow;
    var s0 := Auth(now, restartable);
    if es == [] {
      NoRetries(s0);
    } else {
      var n := |es| - 1;
      var s := Run(s0, es[..n]).sta;
      RetryMeaning(now, restartable, es[..n]);
      RetryStep(s, es[n]);
      RetriesMore(s0, es);
    }
  }

  lemma {:induction false} NoRetries(s: Sta)
    ensures !exists k: nat :: RetriesAt(s, [], k)
  {
  }

  lemma {:induction false} RetryStep(s: Sta, e: Event)
    ensures Step(s, e).sta.rty == RetryAssoc <==>
            s.rty == RetryAssoc || RetriesNow(s, e)
  {
  }

  lemma {:induction false} RetriesMore(s: Sta, es: seq<Event>)
    requires es != []
    ensures var n := |es| - 1;
            (exists k: nat :: RetriesAt(s, es, k))
            <==> (exists k: nat :: RetriesAt(s, es[..n], k)) || RetriesNow(Run(s, es[..n]).sta, es[n])
  {
    hide Run;
    hide RetriesNow;
    var n := |es| - 1;
    assert forall k :: 0 <= k < n ==> es[..n][..k] == es[..k];
    if k: nat :| RetriesAt(s, es[..n], k) { assert RetriesAt(s, es, k); }
    if k: nat :| RetriesAt(s, es, k) { assert k < n ==> RetriesAt(s, es[..n], k); }
    if RetriesNow(Run(s, es[..n]).sta, es[n]) { assert RetriesAt(s, es, n); }
  }

  /** A refused association ends the attempt, and so does a refused authentication, unless a local retry is under way:
      then the association goes on, whatever the answer. Each answer to an authentication restarts the step. */
  lemma {:induction false} AnswersMeaning(now: nat, restartable: bool, es: seq<Event>, at: nat, granted: bool)
    ensures var s := Auth(now, restartable);
            var s' := Run(s, es + [RxAuth(at, granted)]).sta;
            && Run(s, es + [RxAssoc(false)]).sta.state == None
            && (s'.state == None <==> !granted && !exists k: nat :: RetriesAt(s, es, k))
            && (s'.state == Associng <==> exists k: nat :: RetriesAt(s, es, k))
            && s'.stepStart == at && s'.retry == 0
  {
    var s := Auth(now, restartable);
    RetryMeaning(now, restartable, es);
    hide RetriesAt;
    hide Run;
    RunMore(s, es, RxAssoc(false));
    RunMore(s, es, RxAuth(at, granted));
  }

  /** A request is taken up iff the station is authenticated, or is associated and roams: one command, then the wait for
      the answer, if the command can be sent. Otherwise nothing changes. */
  lemma {:induction false} RequestMeaning(s: Sta, at: nat, cmdSent: bool, roams: bool)
    ensures var o := Step(s, Assoc(at, cmdSent, roams));
            && (o.assocs == 1 <==> s.state == Authed || (s.state == Assoced && roams)) && o.auths == 0
            && (o.assocs == 1 ==>
                 o.sta == s.(state := if cmdSent then Associng else None, retry := 0, ctxStart := at, ctxTimeout := 4800))
            && (o.assocs != 1 ==> o == Outcome(s, 0, 0))
  {
  }

  // ----- the bounds are tight, and depend on orderly answers

  function Repeat(e: Event, n: nat): seq<Event> { seq(n, _ => e) }

  lemma {:induction false} RunConcat(s: Sta, a: seq<Event>, b: seq<Event>)
    ensures var o := Run(s, a);
            var n := Run(o.sta, b);
            Run(s, a + b) == Outcome(n.sta, o.auths + n.auths, o.assocs + n.assocs)
    decreases |b|
  {
    if b == [] {
      assert a + b == a;
    } else {
      assert (a + b)[..|a + b| - 1] == a + b[..|b| - 1];
      RunConcat(s, a, b[..|b| - 1]);
    }
  }

  lemma {:induction false} RunOne(s: Sta, e: Event)
    ensures Run(s, [e]) == Step(s, e)
  {
    assert [e][..0] == [];
  }

  lemma {:induction false} RunMore(s: Sta, es: seq<Event>, e: Event)
    ensures Run(s, es + [e]) ==
            var o := Run(s, es); var n := Step(o.sta, e); Outcome(n.sta, o.auths + n.auths, o.assocs + n.assocs)
  {
    RunConcat(s, es, [e]);
    RunOne(Run(s, es).sta, e);
  }

  /** In the middle of a connection attempt that started at time 0, at the beginning of a round. */
  ghost predicate Fresh(s: Sta, state: State, redo: nat) {
    && s.state == state && s.retry == 0 && s.redo == redo && s.restartable
    && s.authStart == 0 && s.ctxStart == 0 && s.ctxTimeout == AUTH_TIMEOUT
  }

  /** `n` late ticks repeat the pending command `n` times. */
  lemma {:induction false} LateTicks(s: Sta, now: nat, n: nat)
    requires Fresh(s, Authing, s.redo) || Fresh(s, Associng, s.redo)
    requires s.stepStart + STEP_TIMEOUT < now <= AUTH_TIMEOUT
    requires n < if s.state == Authing then MAX_AUTH_RETRY else MAX_ASSOC_RETRY
    ensures Run(s, Repeat(Tick(now, true, true), n))
            == Outcome(s.(retry := n), if s.state == Authing then n else 0, if s.state == Authing then 0 else n)
  {
    var t := Tick(now, true, true);
    if n > 0 {
      LateTicks(s, now, n - 1);
      hide Run;
      assert Repeat(t, n) == Repeat(t, n - 1) + [t];
      RunMore(s, Repeat(t, n - 1), t);
    }
  }

  /** One more late tick restarts authentication. */
  lemma {:induction false} Round(s: Sta, now: nat, n: nat)
    requires (Fresh(s, Authing, s.redo) && n == MAX_AUTH_RETRY) || (Fresh(s, Associng, s.redo) && n == MAX_ASSOC_RETRY)
    requires s.stepStart + STEP_TIMEOUT < now <= AUTH_TIMEOUT && s.redo < MAX_REDO
    ensures var o := Run(s, Repeat(Tick(now, true, true), n));
            && Fresh(o.sta, Authing, s.redo + 1) && o.sta.stepStart == now
            && o.auths == (if s.state == Authing then n else 1) && o.assocs == (if s.state == Authing then 0 else n - 1)
            && (s.state == Associng ==> o.sta.rty == RetryAssoc)
  {
    hide Run;
    var t := Tick(now, true, true);
    LateTicks(s, now, n - 1);
    assert Repeat(t, n) == Repeat(t, n - 1) + [t];
    RunMore(s, Repeat(t, n - 1), t);
  }

  /** The bound of 12 authentication commands is reached, by a run in which the peer never answers. */
  lemma {:induction false} TwelveAuths()
    ensures exists es :: ClosedRun(Auth(0, true), es) && 1 + Run(Auth(0, true), es).auths == 12
  {
    hide Run;
    var s0 := Auth(0, true);
    var r1, r2, r3, r4 := Ticks(400, 3), Ticks(800, 3), Ticks(1200, 3), Ticks(1600, 2);
    Round(s0, 400, 3);
    var s1 := Run(s0, r1).sta;
    Round(s1, 800, 3);
    var s2 := Run(s1, r2).sta;
    Round(s2, 1200, 3);
    var s3 := Run(s2, r3).sta;
    LateTicks(s3, 1600, 2);
    RunConcat(s0, r1, r2);
    RunConcat(s0, r1 + r2, r3);
    RunConcat(s0, r1 + r2 + r3, r4);
    TicksAreClosed(s0, r1 + r2 + r3 + r4);
  }

  function Ticks(now: nat, n: nat): seq<Event> { Repeat(Tick(now, true, true), n) }

  /** A round of association that ends in a restart, and the answer to it. */
  lemma {:induction false} AssocRound(s: Sta, now: nat)
    requires Fresh(s, Associng, s.redo) && s.redo < MAX_REDO && s.stepStart + STEP_TIMEOUT < now <= AUTH_TIMEOUT
    ensures var es := Ticks(now, 5) + [RxAuth(now, true)];
            var o := Run(s, es);
            && ClosedRun(s, es) && o.assocs == 4 && o.sta.stepStart == now && Fresh(o.sta, Associng, s.redo + 1)
  {
    Round(s, now, 5);
    TicksAreClosed(s, Ticks(now, 5));
    hide Run;
    RunMore(s, Ticks(now, 5), RxAuth(now, true));
    ClosedMore(s, Ticks(now, 5), RxAuth(now, true));
  }

  lemma {:induction false} ClosedMore(s: Sta, es: seq<Event>, e: Event)
    requires ClosedRun(s, es) && !Reopens(Run(s, es).sta, e)
    ensures ClosedRun(s, es + [e])
  {
    assert (es + [e])[..|es|] == es;
  }

  lemma {:induction false} ClosedConcat(s: Sta, a: seq<Event>, b: seq<Event>)
    requires ClosedRun(s, a) && ClosedRun(Run(s, a).sta, b)
    ensures ClosedRun(s, a + b)
    decreases |b|
  {
    hide Run;
    if b == [] {
      assert a + b == a;
    } else {
      assert (a + b)[..|a + b| - 1] == a + b[..|b| - 1];
      ClosedConcat(s, a, b[..|b| - 1]);
      RunConcat(s, a, b[..|b| - 1]);
    }
  }

  /** Authentication is answered and association started. */
  lemma {:induction false} Opening() returns (es: seq<Event>)
    ensures var o := Run(Auth(0, true), es);
            ClosedRun(Auth(0, true), es) && o.assocs == 1 && Fresh(o.sta, Associng, 0) && o.sta.stepStart == 0
  {
    var s := Auth(0, true);
    var auth, assoc := RxAuth(0, true), Assoc(0, true, false);
    RunOne(s, auth);
    TicksAreClosed(s, []);
    hide Run;
    ClosedMore(s, [], auth);
    assert [] + [auth] == [auth];
    hide ClosedRun;
    RunMore(s, [auth], assoc);
    ClosedMore(s, [auth], assoc);
    es := [auth] + [assoc];
  }

  /** The bound of 17 association commands is reached, by a run in which the peer answers authentication only. */
  lemma {:induction false} SeventeenAssocs()
    ensures exists es :: ClosedRun(Auth(0, true), es) && Run(Auth(0, true), es).assocs == 17
  {
    hide Run;
    hide ClosedRun;
    hide Auth;
    var s := Auth(0, true);
    var start := Opening();
    var rest := ThreeRounds(Run(s, start).sta);
    RunConcat(s, start, rest);
    ClosedConcat(s, start, rest);
  }

  lemma {:induction false} ThreeRounds(s1: Sta) returns (r: seq<Event>)
    requires Fresh(s1, Associng, 0) && s1.stepStart == 0
    ensures ClosedRun(s1, r) && Run(s1, r).assocs == 16
  {
    hide Run;
    hide ClosedRun;
    var r1, r2, r3, r4 := Ticks(400, 5) + [RxAuth(400, true)], Ticks(800, 5) + [RxAuth(800, true)], Ticks(1200, 5) + [RxAuth(1200, true)], Ticks(1600, 4);
    AssocRound(s1, 400);
    var s2 := Run(s1, r1).sta;
    AssocRound(s2, 800);
    var s3 := Run(s2, r2).sta;
    AssocRound(s3, 1200);
    var s4 := Run(s3, r3).sta;
    LateTicks(s4, 1600, 4);
    TicksAreClosed(s4, r4);
    RunConcat(s1, r1, r2);
    ClosedConcat(s1, r1, r2);
    RunConcat(s1, r1 + r2, r3);
    ClosedConcat(s1, r1 + r2, r3);
    RunConcat(s1, r1 + r2 + r3, r4);
    ClosedConcat(s1, r1 + r2 + r3, r4);
    r := r1 + r2 + r3 + r4;
  }

  lemma {:induction false} TicksAreClosed(s: Sta, es: seq<Event>)
    requires forall i :: 0 <= i < |es| ==> es[i].Tick?
    ensures ClosedRun(s, es)
    decreases |es|
  {
    if es != [] { TicksAreClosed(s, es[..|es| - 1]); }
  }

  /** Answers that arrive late (or twice) reopen the association phase: then there is no bound at all. */
  lemma {:induction false} LateAnswersBreakTheBound(n: nat)
    ensures exists es :: Run(Auth(0, true), es).assocs == n && Run(Auth(0, true), es).sta.rty == RetryNone
  {
    var s := Auth(0, true);
    if n == 0 {
      assert Run(s, []).assocs == 0;
    } else {
      LateAnswersBreakTheBound(n - 1);
      var es :| Run(s, es).assocs == n - 1 && Run(s, es).sta.rty == RetryNone;
      hide Run;
      OnceMore(s, es);
    }
  }

  /** One more unexpected answer, and one more association. */
  lemma {:induction false} OnceMore(s: Sta, es: seq<Event>)
    requires Run(s, es).sta.rty == RetryNone
    ensures var o := Run(s, es + [RxAuth(0, true)] + [Assoc(0, true, false)]);
            o.assocs == Run(s, es).assocs + 1 && o.sta.rty == RetryNone
  {
    hide Run;
    RunMore(s, es, RxAuth(0, true));
    RunMore(s, es + [RxAuth(0, true)], Assoc(0, true, false));
  }

  // ----- the machine as the driver keeps it

  class StaCore {
    var state: State
    var retry: nat
    var redo: nat
    var rty: Retry
    var restartable: bool
    var authStart: nat
    var stepStart: nat
    var ctxStart: nat
    var ctxTimeout: nat

    ghost function Value(): Sta reads this {
      Sta(state, retry, redo, rty, restartable, authStart, stepStart, ctxStart, ctxTimeout)
    }

    constructor (now: nat, restartable: bool)
      ensures Value() == Auth(now, restartable)
    {
      authStart, retry, redo, stepStart, ctxStart := now, 0, 0, now, now;
      this.restartable, rty, ctxTimeout, state := restartable, RetryNone, AUTH_TIMEOUT, Authing;
    }

    /** Deauthenticates and authenticates again. */
    method Restart(now: nat, deauthSent: bool, cmdSent: bool) returns (failed: bool, auths: nat)
      modifies this
      ensures var (o, f) := (if !deauthSent then (Outcome(old(Value()), 0, 0), true)
                             else if !cmdSent then (Outcome(old(Value()).(state := None, redo := old(redo) + 1), 1, 0), true)
                             else (Outcome(old(Value()).(state := Authing, redo := old(redo) + 1, retry := 0, stepStart := now), 1, 0), false));
              failed == f && auths == o.auths && Value() == o.sta
    {
      if !deauthSent { return true, 0; }
      state := None;
      redo := redo + 1;
      if !cmdSent { return true, 1; }
      retry := 0;
      stepStart := now;
      state := Authing;
      return false, 1;
    }

    /** The timer's work function. */
    method StaWork(now: nat, deauthSent: bool, cmdSent: bool) returns (auths: nat, assocs: nat)
      modifies this
      ensures Outcome(Value(), auths, assocs) == Step(old(Value()), Tick(now, deauthSent, cmdSent))
    {
      auths, assocs := 0, 0;
      var failed := now > authStart + AUTH_TIMEOUT + ASSOC_TIMEOUT;
      match state
      case Authed =>
        if now > stepStart + STEP_TIMEOUT { state := None; }
      case Authing =>
        if now > stepStart + STEP_TIMEOUT {
          retry := retry + 1;
          if retry >= MAX_AUTH_RETRY && restartable {
            if now > ctxStart + ctxTimeout || redo >= MAX_REDO {
              failed := true;
            } else {
              if rty == RetryNone { rty := RetryAuth; }
              var f;
              f, auths := Restart(now, deauthSent, cmdSent);
              failed := failed || f;
            }
          } else if retry >= MAX_AUTH_RETRY {
            failed := true;
          } else {
            state := Authing;
            auths := 1;
            if !cmdSent { failed := true; }
          }
        }
        if failed { state := None; }
      case Associng =>
        if now > stepStart + STEP_TIMEOUT {
          retry := retry + 1;
          if retry >= MAX_ASSOC_RETRY && restartable {
            if now > ctxStart + ctxTimeout || redo >= MAX_REDO {
              failed := true;
            } else {
              rty := RetryAssoc;
              var f;
              f, auths := Restart(now, deauthSent, cmdSent);
              failed := failed || f;
            }
          } else if retry >= MAX_ASSOC_RETRY {
            failed := true;
          } else {
            state := Associng;
            assocs := 1;
            if !cmdSent { failed := true; }
          }
        }
        if failed { state := None; }
      case _ =>
    }

    method OnRxAuth(now: nat, success: bool)
      modifies this
      ensures Outcome(Value(), 0, 0) == Step(old(Value()), RxAuth(now, success))
    {
      state := Authed;
      stepStart := now;
      retry := 0;
      if !success { state := None; }
      if rty == RetryAssoc { state := Associng; }
    }

    method OnAssoc(now: nat, cmdSent: bool, roams: bool) returns (assocs: nat)
      modifies this
      ensures Outcome(Value(), 0, assocs) == Step(old(Value()), Assoc(now, cmdSent, roams))
    {
      match state {
        case Assoced =>
          if !roams { return 0; }
          state := Authed;
        case Authed =>
        case _ => return 0;
      }
      retry := 0;
      ctxStart := now;
      ctxTimeout := ASSOC_TIMEOUT;
      state := Associng;
      assocs := 1;
      if !cmdSent { state := None; }
    }

    method OnRxAssoc(success: bool)
      modifies this
      ensures Outcome(Value(), 0, 0) == Step(old(Value()), RxAssoc(success))
    {
      state := Assoced;
      if !success { state := None; }
    }
  }
}
