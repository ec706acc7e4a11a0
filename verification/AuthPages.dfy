/**
 The one-time-code pages: what their ref guards do across awaits, timers and the code input.

 An async function is split at its awaits: one transition up to the request, one for what
 follows each settlement. `trace` records, in order, what the outside world saw.
 */
module AuthPages {
  import opened Options
  import opened OtpInput

  const CODE_LENGTH: nat := 6
  const MFA_TEMP_LIFETIME_SECONDS: nat := 300

  // ---------------------------------------------------------------------------------------
  // The expiry pill
  // ---------------------------------------------------------------------------------------

  /** `live` is the running interval; `fired` counts `onExpired` calls for this expiry value. */
  datatype Pill = Pill(expiresAt: int, live: bool, secondsLeft: nat, fired: nat)

  function SecondsLeft(expiresAt: int, now: int): nat {
    if expiresAt - now < 1000 then 0 else (expiresAt - now) / 1000
  }

  /** The effect: a fresh interval for a fresh expiry, or an immediate call when none is left. */
  function MountPill(expiresAt: int, now: int): Pill {
    var left := SecondsLeft(expiresAt, now);
    Pill(expiresAt, left > 0, left, if left > 0 then 0 else 1)
  }

  /** The interval callback; a cleared interval never calls it again. */
  function TickPill(p: Pill, now: int): Pill {
    if !p.live then p
    else
      var left := SecondsLeft(p.expiresAt, now);
      p.(secondsLeft := left, live := left > 0, fired := if left > 0 then p.fired else p.fired + 1)
  }

  function TickAll(p: Pill, times: seq<int>): Pill {
    if times == [] then p else TickPill(TickAll(p, times[..|times| - 1]), times[|times| - 1])
  }

  /** The countdown a tick shows is the time left in whole seconds, rounded down, none when it has passed. */
  lemma {:induction false} PillShowsSeconds(p: Pill, now: int)
    requires p.live
    ensures var shown := TickPill(p, now).secondsLeft;
            if p.expiresAt <= now then shown == 0 else shown * 1000 <= p.expiresAt - now < (shown + 1) * 1000
    ensures var shown := MountPill(p.expiresAt, now).secondsLeft;
            if p.expiresAt <= now then shown == 0 else shown * 1000 <= p.expiresAt - now < (shown + 1) * 1000
  {
  }

  /** Less than a whole second is left. */
  predicate Expired(expiresAt: int, now: int) {
    expiresAt - now < 1000
  }

  /**
   Whatever times the interval observes, even a clock that goes back: the pill fires at most
   once per expiry value, and it has fired exactly when it mounted, or ticked, expired.
   */
  lemma {:induction false} PillFiresOnce(expiresAt: int, start: int, times: seq<int>)
    ensures var p := TickAll(MountPill(expiresAt, start), times);
            && p.fired == (if p.live then 0 else 1)
            && (p.fired == 1 <==> exists now :: (now == start || now in times) && Expired(expiresAt, now))
            && (p.live <==> p.secondsLeft > 0) && p.expiresAt == expiresAt
  {
    if times == [] {
      assert Expired(expiresAt, start) == !MountPill(expiresAt, start).live;
    } else {
      var init, now := times[..|times| - 1], times[|times| - 1];
      PillFiresOnce(expiresAt, start, init);
      assert forall t :: t in times <==> t in init || t == now;
      var before := TickAll(MountPill(expiresAt, start), init);
      if before.live && Expired(expiresAt, now) {
        assert now in times;
      }
    }
  }

  // ---------------------------------------------------------------------------------------
  // The MFA challenge page
  // ---------------------------------------------------------------------------------------

  datatype Mark = Started(code: string) | Settled | Fired

  /**
   The page with its input and its pill. `challenging` counts challenges without a response,
   `refreshing` the session refreshes that follow an accepted one.
   */
  datatype MfaPage = MfaPage(
    otp: Otp,
    pill: Pill,
    submitting: bool,
    expired: bool,
    challenging: nat,
    refreshing: nat,
    trace: seq<Mark>)

  datatype MfaEvent = Input(event: Event) | Response(accepted: bool) | Refreshed | Tick(now: int)

  function NotifyExpired(p: MfaPage, fired: bool): MfaPage {
    if fired then p.(expired := true, trace := p.trace + [Fired]) else p
  }

  function OpenMfaPage(expiresAt: int, now: int): MfaPage {
    var pill := MountPill(expiresAt, now);
    NotifyExpired(MfaPage(Blank(CODE_LENGTH, []), pill, false, false, 0, 0, []), pill.fired > 0)
  }

  /** `submit`, up to its first await. */
  function Submit(p: MfaPage, code: string): MfaPage {
    if p.expired || p.submitting then p
    else p.(submitting := true, challenging := p.challenging + 1, trace := p.trace + [Started(code)])
  }

  /** The input handles an event; a completed code reaches `submit`. */
  function InputEvent(p: MfaPage, event: Event): MfaPage {
    var otp := Handle(p.otp, event);
    var q := p.(otp := otp);
    if |otp.completed| > |p.otp.completed| then Submit(q, otp.completed[|otp.completed| - 1]) else q
  }

  function MfaNext(p: MfaPage, event: MfaEvent): MfaPage {
    match event
    case Input(e) => InputEvent(p, e)
    case Response(accepted) =>
      if p.challenging == 0 then p
      else
        var settled := p.(challenging := p.challenging - 1, trace := p.trace + [Settled]);
        if accepted then settled.(refreshing := p.refreshing + 1) else settled.(submitting := false)
    case Refreshed =>
      if p.refreshing == 0 then p else p.(refreshing := p.refreshing - 1, submitting := false)
    case Tick(now) =>
      var pill := TickPill(p.pill, now);
      NotifyExpired(p.(pill := pill), pill.fired > p.pill.fired)
  }

  function MfaRun(p: MfaPage, events: seq<MfaEvent>): MfaPage {
    if events == [] then p else MfaNext(MfaRun(p, events[..|events| - 1]), events[|events| - 1])
  }

  /** How many challenges of a trace are without a response. */
  function InFlight(trace: seq<Mark>): int {
    if trace == [] then 0
    else
      InFlight(trace[..|trace| - 1])
      + match trace[|trace| - 1] case Started(_) => 1 case Settled => -1 case Fired => 0
  }

  /** At no moment was more than one challenge in flight. */
  ghost predicate OneAtATime(trace: seq<Mark>) {
    forall k :: 0 <= k <= |trace| ==> 0 <= InFlight(trace[..k]) <= 1
  }

  /** Expiry is reported at most once, and nothing starts after it. */
  ghost predicate SilentAfterExpiry(trace: seq<Mark>) {
    forall i, j :: 0 <= i < j < |trace| && trace[i].Fired? ==> trace[j].Settled?
  }

  /** Every challenge carried a complete code. */
  ghost predicate CompleteCodes(trace: seq<Mark>) {
    forall i :: 0 <= i < |trace| && trace[i].Started? ==> IsCode(trace[i].code, CODE_LENGTH)
  }

  ghost predicate TraceInvariant(trace: seq<Mark>, expired: bool) {
    && OneAtATime(trace) && SilentAfterExpiry(trace) && CompleteCodes(trace)
    && (expired <==> exists i :: 0 <= i < |trace| && trace[i].Fired?)
  }

  ghost predicate MfaInvariant(p: MfaPage) {
    && WellFormed(p.otp) && |p.otp.values| == CODE_LENGTH
    && p.pill.fired == (if p.pill.live then 0 else 1)
    && (p.expired <==> p.pill.fired == 1)
    && p.challenging == InFlight(p.trace)
    && p.challenging + p.refreshing == (if p.submitting then 1 else 0)
    && TraceInvariant(p.trace, p.expired)
  }

  /** A start needs a complete code, no request in flight and no expiry; expiry comes once. */
  lemma {:induction false} MarkKeepsTrace(trace: seq<Mark>, expired: bool, mark: Mark)
    requires TraceInvariant(trace, expired)
    requires match mark
             case Started(code) => !expired && InFlight(trace) == 0 && IsCode(code, CODE_LENGTH)
             case Settled => InFlight(trace) == 1
             case Fired => !expired
    ensures TraceInvariant(trace + [mark], expired || mark.Fired?)
    ensures InFlight(trace + [mark])
            == InFlight(trace) + match mark case Started(_) => 1 case Settled => -1 case Fired => 0
  {
    var longer := trace + [mark];
    assert longer[..|trace|] == trace && trace[..|trace|] == trace && longer[..|longer|] == longer;
    forall k | 0 <= k <= |longer| ensures 0 <= InFlight(longer[..k]) <= 1 {
      if k <= |trace| {
        assert longer[..k] == trace[..k];
      }
    }
    if i :| 0 <= i < |trace| && trace[i].Fired? {
      assert longer[i].Fired?;
    }
    if mark.Fired? {
      assert longer[|trace|].Fired?;
    }
  }

  lemma {:induction false} SubmitKeepsInvariant(p: MfaPage, code: string)
    requires MfaInvariant(p) && IsCode(code, CODE_LENGTH)
    ensures MfaInvariant(Submit(p, code))
  {
    if !p.expired && !p.submitting {
      assert p.trace[..|p.trace|] == p.trace;
      MarkKeepsTrace(p.trace, p.expired, Started(code));
    }
  }

  /** The input alone: it stays well formed, and what it newly reports is a complete code. */
  lemma {:induction false} OtpKeepsInvariant(p: MfaPage, event: Event)
    requires MfaInvariant(p)
    ensures var otp := Handle(p.otp, event);
            && MfaInvariant(p.(otp := otp))
            && (|otp.completed| > |p.otp.completed| ==> IsCode(otp.completed[|otp.completed| - 1], CODE_LENGTH))
  {
    HandleKeepsWellFormed(p.otp, event);
  }

  lemma {:induction false} InputKeepsInvariant(p: MfaPage, event: Event)
    requires MfaInvariant(p)
    ensures MfaInvariant(InputEvent(p, event))
  {
    OtpKeepsInvariant(p, event);
    var otp := Handle(p.otp, event);
    if |otp.completed| > |p.otp.completed| {
      SubmitKeepsInvariant(p.(otp := otp), otp.completed[|otp.completed| - 1]);
    }
  }

  lemma {:induction false} ResponseKeepsInvariant(p: MfaPage, accepted: bool)
    requires MfaInvariant(p)
    ensures MfaInvariant(MfaNext(p, Response(accepted)))
  {
    assert p.trace[..|p.trace|] == p.trace;
    if p.challenging > 0 {
      MarkKeepsTrace(p.trace, p.expired, Settled);
    }
  }

  lemma {:induction false} TickKeepsInvariant(p: MfaPage, now: int)
    requires MfaInvariant(p)
    ensures MfaInvariant(MfaNext(p, Tick(now)))
  {
    if TickPill(p.pill, now).fired > p.pill.fired {
      MarkKeepsTrace(p.trace, p.expired, Fired);
    }
  }

  lemma {:induction false} MfaStepKeepsInvariant(p: MfaPage, event: MfaEvent)
    requires MfaInvariant(p)
    ensures MfaInvariant(MfaNext(p, event))
  {
    match event
    case Input(e) => InputKeepsInvariant(p, e);
    case Response(accepted) => ResponseKeepsInvariant(p, accepted);
    case Refreshed =>
    case Tick(now) => TickKeepsInvariant(p, now);
  }

  /**
   Over every interleaving of typing, pasting, erasing, responses, refreshes and timer ticks:
   the guard is set exactly while a challenge, or the session refresh after an accepted one,
   is in flight; at most one of either is; each challenge carries six digits; expiry is
   reported at most once, and no challenge starts after.
   */
  lemma {:induction false} MfaPageIsGuarded(expiresAt: int, now: int, events: seq<MfaEvent>)
    ensures MfaInvariant(MfaRun(OpenMfaPage(expiresAt, now), events))
  {
    if events == [] {
      assert TraceInvariant([], false);
      MarkKeepsTrace([], false, Fired);
      assert [] + [Fired] == [Fired];
    } else {
      var init := events[..|events| - 1];
      MfaPageIsGuarded(expiresAt, now, init);
      MfaStepKeepsInvariant(MfaRun(OpenMfaPage(expiresAt, now), init), events[|events| - 1]);
    }
  }

  /** The latest thing that happened is the start of a challenge with what the cells hold. */
  ghost predicate StartedWithCells(trace: seq<Mark>, values: seq<string>) {
    trace != [] && trace[|trace| - 1].Started? && ReadsCells(trace[|trace| - 1].code, values)
  }

  /** An entry fills the last cell of the code. */
  ghost predicate Completes(event: Event, after: Otp) {
    Enters(event, CODE_LENGTH) && forall k :: 0 <= k < |after.values| ==> after.values[k] != ""
  }

  lemma {:induction false} InputStarts(p: MfaPage, event: Event)
    requires MfaInvariant(p)
    ensures var after := MfaNext(p, Input(event));
            if Completes(event, after.otp) && !p.expired && p.challenging == 0 && p.refreshing == 0
            then && after.challenging == 1 && |after.trace| == |p.trace| + 1 && p.trace <= after.trace
                 && StartedWithCells(after.trace, after.otp.values)
            else after.challenging == p.challenging && after.trace == p.trace
    ensures MfaNext(p, Input(event)).otp == Handle(p.otp, event)
  {
    ReportsTheCells(p.otp, event);
  }

  /**
   Over every run: an input event starts a challenge if and only if it completes the code, the
   pill has not fired, and neither a challenge nor a refresh is in flight; and the challenge
   carries what the cells hold after that event.
   */
  lemma {:induction false} ChallengeCarriesCells(expiresAt: int, now: int, events: seq<MfaEvent>, event: Event)
    ensures var p := MfaRun(OpenMfaPage(expiresAt, now), events);
            var after := MfaRun(OpenMfaPage(expiresAt, now), events + [Input(event)]);
            if Completes(event, after.otp) && !p.expired && p.challenging == 0 && p.refreshing == 0
            then && after.challenging == 1 && |after.trace| == |p.trace| + 1 && p.trace <= after.trace
                 && StartedWithCells(after.trace, after.otp.values)
            else after.challenging == p.challenging && after.trace == p.trace
    ensures |MfaRun(OpenMfaPage(expiresAt, now), events).otp.values| == 6
  {
    MfaPageIsGuarded(expiresAt, now, events);
    InputStarts(MfaRun(OpenMfaPage(expiresAt, now), events), event);
    assert (events + [Input(event)])[..|events|] == events;
  }

  /** Nothing stays in flight: a refusal ends a challenge, an acceptance turns it into a refresh, which ends. */
  lemma {:induction false} MfaSettles(p: MfaPage)
    requires MfaInvariant(p)
    ensures p.challenging == 1 ==>
              var refused, accepted := MfaNext(p, Response(false)), MfaNext(p, Response(true));
              && refused.challenging == 0 && refused.refreshing == 0
              && accepted.challenging == 0 && accepted.refreshing == 1
    ensures p.refreshing == 1 ==> MfaNext(p, Refreshed).challenging == 0 && MfaNext(p, Refreshed).refreshing == 0
  {
  }

  /** The page has expired exactly when it opened expired, or a tick saw the expiry. */
  lemma {:induction false} MfaExpiresWhen(expiresAt: int, now: int, events: seq<MfaEvent>)
    ensures MfaRun(OpenMfaPage(expiresAt, now), events).expired <==> expiresAt - now < 1000 || SawExpiry(events, expiresAt)
    ensures MfaRun(OpenMfaPage(expiresAt, now), events).pill.expiresAt == expiresAt
  {
    if events == [] {
      OpensExpired(expiresAt, now);
    } else {
      var init, event := events[..|events| - 1], events[|events| - 1];
      MfaExpiresWhen(expiresAt, now, init);
      MfaPageIsGuarded(expiresAt, now, init);
      ExpiresBy(MfaRun(OpenMfaPage(expiresAt, now), init), event);
      assert events == init + [event];
      SawExpirySnoc(init, event, expiresAt);
    }
  }

  /** Some tick came when less than a second was left. */
  predicate SawExpiry(events: seq<MfaEvent>, expiresAt: int) {
    exists i :: 0 <= i < |events| && events[i].Tick? && expiresAt - events[i].now < 1000
  }

  lemma {:induction false} SawExpirySnoc(init: seq<MfaEvent>, event: MfaEvent, expiresAt: int)
    ensures SawExpiry(init + [event], expiresAt)
            <==> SawExpiry(init, expiresAt) || (event.Tick? && expiresAt - event.now < 1000)
  {
    var events := init + [event];
    assert forall i :: 0 <= i < |init| ==> events[i] == init[i];
    assert events[|init|] == event;
    if i :| 0 <= i < |init| && init[i].Tick? && expiresAt - init[i].now < 1000 {
      assert events[i].Tick?;
    }
  }

  lemma {:induction false} OpensExpired(expiresAt: int, now: int)
    ensures OpenMfaPage(expiresAt, now).expired <==> expiresAt - now < 1000
    ensures OpenMfaPage(expiresAt, now).pill.expiresAt == expiresAt
  {
  }

  lemma {:induction false} ExpiresBy(p: MfaPage, event: MfaEvent)
    requires MfaInvariant(p)
    ensures MfaNext(p, event).expired <==> p.expired || (event.Tick? && p.pill.expiresAt - event.now < 1000)
    ensures MfaNext(p, event).pill.expiresAt == p.pill.expiresAt
  {
  }

  // ---------------------------------------------------------------------------------------
  // The verify-email page
  // ---------------------------------------------------------------------------------------

  const RESEND_COOLDOWN_MS: nat := 30_000

  /**
   The page's refs: the two guards and the cooldown timer (its due time). `verifying` and
   `resending` count requests without a response; `resends` lists the times resends started.
   */
  datatype VerifyPage = VerifyPage(
    now: nat,
    isVerifying: bool,
    resendDisabled: bool,
    cooldown: Option<nat>,
    verifying: nat,
    resending: nat,
    resends: seq<nat>)

  datatype VerifyEvent =
    | Complete(hasEmail: bool)
    | VerifySettled
    | ClickResend(hasEmail: bool)
    | ResendSettled
    | TimerDue
    | Wait(ms: nat)

  const OPEN_VERIFY_PAGE := VerifyPage(0, false, false, None, 0, 0, [])

  function VerifyNext(p: VerifyPage, event: VerifyEvent): VerifyPage {
    match event
    case Complete(hasEmail) =>
      if p.isVerifying || !hasEmail then p else p.(isVerifying := true, verifying := p.verifying + 1)
    case VerifySettled =>
      if p.verifying == 0 then p else p.(isVerifying := false, verifying := p.verifying - 1)
    case ClickResend(hasEmail) =>
      if p.resendDisabled || !hasEmail then p
      else p.(resendDisabled := true, resending := p.resending + 1, resends := p.resends + [p.now])
    case ResendSettled =>
      if p.resending == 0 then p
      else p.(resending := p.resending - 1, cooldown := Some(p.now + RESEND_COOLDOWN_MS))
    case TimerDue =>
      if p.cooldown.None? || p.now < p.cooldown.value then p else p.(cooldown := None, resendDisabled := false)
    case Wait(ms) => p.(now := p.now + ms)
  }

  function VerifyRun(p: VerifyPage, events: seq<VerifyEvent>): VerifyPage {
    if events == [] then p else VerifyNext(VerifyRun(p, events[..|events| - 1]), events[|events| - 1])
  }

  ghost predicate VerifyInvariant(p: VerifyPage) {
    && p.verifying == (if p.isVerifying then 1 else 0)
    && p.resending + (if p.cooldown.Some? then 1 else 0) == (if p.resendDisabled then 1 else 0)
    && (forall i :: 0 < i < |p.resends| ==> p.resends[i] - p.resends[i - 1] >= RESEND_COOLDOWN_MS)
    && (p.resends != [] ==>
          var last := p.resends[|p.resends| - 1];
          && last <= p.now
          && (p.cooldown.Some? ==> p.cooldown.value >= last + RESEND_COOLDOWN_MS)
          && (!p.resendDisabled ==> p.now >= last + RESEND_COOLDOWN_MS))
  }

  /**
   Over every interleaving: each guard is set exactly while its request is in flight or, for
   resend, cooling down; at most one of either request is in flight; and two resends start at
   least thirty seconds apart.
   */
  lemma {:induction false} VerifyPageIsGuarded(events: seq<VerifyEvent>)
    ensures VerifyInvariant(VerifyRun(OPEN_VERIFY_PAGE, events))
  {
    if events != [] {
      var init := events[..|events| - 1];
      VerifyPageIsGuarded(init);
      VerifyStepKeepsInvariant(VerifyRun(OPEN_VERIFY_PAGE, init), events[|events| - 1]);
    }
  }

  lemma {:induction false} VerifyStepKeepsInvariant(p: VerifyPage, event: VerifyEvent)
    requires VerifyInvariant(p)
    ensures VerifyInvariant(VerifyNext(p, event))
  {
  }

  /**
   Over every run: a click with an email starts a resend if and only if every earlier one has
   been answered and its cooldown timer has gone off; a completed code starts a verification
   if and only if the earlier ones have been answered. Without an email nothing starts.
   */
  lemma {:induction false} StartsWhenFree(events: seq<VerifyEvent>, hasEmail: bool)
    ensures var p := VerifyRun(OPEN_VERIFY_PAGE, events);
            var clicked := VerifyNext(p, ClickResend(hasEmail));
            if hasEmail && p.resending == 0 && p.cooldown.None?
            then clicked.resending == 1 && clicked.resends == p.resends + [p.now] else clicked == p
    ensures var p := VerifyRun(OPEN_VERIFY_PAGE, events);
            var completed := VerifyNext(p, Complete(hasEmail));
            if hasEmail && p.verifying == 0 then completed.verifying == 1 else completed == p
  {
    VerifyPageIsGuarded(events);
  }

  /** A pending resend, answered at any later moment, is over once thirty seconds pass and the timer goes off. */
  lemma {:induction false} ResendComesBack(events: seq<VerifyEvent>, answered: nat, waited: nat)
    requires waited >= 30_000
    ensures var p := VerifyRun(OPEN_VERIFY_PAGE, events);
            var settled := VerifyNext(VerifyNext(p, Wait(answered)), ResendSettled);
            var free := VerifyNext(VerifyNext(settled, Wait(waited)), TimerDue);
            && (p.resending > 0 ==> settled.resending == 0 && settled.cooldown == Some(p.now + answered + 30_000))
            && (p.resending > 0 || p.cooldown.Some? ==> free.resending == 0 && free.cooldown.None?)
            && VerifyNext(free, ClickResend(true)).resends == p.resends + [p.now + answered + waited]
  {
    VerifyPageIsGuarded(events);
    VerifyCooldownIsNear(events);
  }

  /** An armed timer is due within thirty seconds. */
  lemma {:induction false} VerifyCooldownIsNear(events: seq<VerifyEvent>)
    ensures DueSoon(VerifyRun(OPEN_VERIFY_PAGE, events))
  {
    if events != [] {
      VerifyCooldownIsNear(events[..|events| - 1]);
      StepStaysDueSoon(VerifyRun(OPEN_VERIFY_PAGE, events[..|events| - 1]), events[|events| - 1]);
    }
  }

  predicate DueSoon(p: VerifyPage) {
    p.cooldown.Some? ==> p.cooldown.value <= p.now + 30_000
  }

  lemma {:induction false} StepStaysDueSoon(p: VerifyPage, event: VerifyEvent)
    requires DueSoon(p)
    ensures DueSoon(VerifyNext(p, event))
  {
  }

  /** The timer goes off when it is due and not before; an answer ends a verification. */
  lemma {:induction false} TimersAndAnswers(events: seq<VerifyEvent>)
    ensures var p := VerifyRun(OPEN_VERIFY_PAGE, events);
            && (p.cooldown.Some? ==> (VerifyNext(p, TimerDue).cooldown.None? <==> p.now >= p.cooldown.value))
            && (p.verifying > 0 ==> VerifyNext(p, VerifySettled).verifying == 0)
            && (forall ms: nat :: VerifyNext(p, Wait(ms)).now == p.now + ms)
  {
    VerifyPageIsGuarded(events);
  }

  // ---------------------------------------------------------------------------------------
  // The components
  // ---------------------------------------------------------------------------------------

  class ExpiryPillComponent {
    var expiresAt: int
    var live: bool
    var secondsLeft: nat
    var fired: nat

    ghost function State(): Pill
      reads this
    {
      Pill(expiresAt, live, secondsLeft, fired)
    }

    /** The effect for a new expiry value. */
    constructor (expiresAt: int, now: int)
      ensures State() == MountPill(expiresAt, now)
    {
      var initial := SecondsLeft(expiresAt, now);
      this.expiresAt, secondsLeft, live, fired := expiresAt, initial, false, 0;
      new;
      if initial <= 0 {
        fired := fired + 1;
        return;
      }
      live := true;
    }

    method Interval(now: int)
      modifies this
      ensures State() == TickPill(old(State()), now)
    {
      if !live {
        return;
      }
      secondsLeft := SecondsLeft(expiresAt, now);
      if secondsLeft <= 0 {
        live := false;
        fired := fired + 1;
      }
    }
  }

  /** The page object with the input and the pill it renders. */
  class MfaChallengePage {
    const otp: OtpInputComponent
    const pill: ExpiryPillComponent
    var isExpired: bool
    var isSubmittingRef: bool
    ghost var page: MfaPage

    /** The objects are in the state of the machine, which is in a reachable one. */
    ghost predicate Valid()
      reads this, otp, pill
    {
      && otp.State() == page.otp && pill.State() == page.pill
      && isExpired == page.expired && isSubmittingRef == page.submitting
      && MfaInvariant(page)
    }

    /** The temp token has its whole lifetime left when the page opens. */
    constructor (now: int)
      ensures Valid() && fresh(otp) && fresh(pill)
      ensures page == OpenMfaPage(now + 300_000, now)
      ensures !isExpired
    {
      otp := new OtpInputComponent(CODE_LENGTH);
      pill := new ExpiryPillComponent(now + MFA_TEMP_LIFETIME_SECONDS * 1000, now);
      isExpired, isSubmittingRef := false, false;
      page := OpenMfaPage(now + MFA_TEMP_LIFETIME_SECONDS * 1000, now);
      new;
      MfaPageIsGuarded(now + MFA_TEMP_LIFETIME_SECONDS * 1000, now, []);
    }

    /** An event of the input; a code it completes goes to `submit`. */
    method HandleInput(event: Event) returns (sent: bool)
      requires Valid()
      modifies this, otp
      ensures Valid() && page == MfaNext(old(page), Input(event))
      ensures sent <==> Completes(event, otp.State()) && !old(isExpired) && !old(isSubmittingRef)
      ensures sent ==> StartedWithCells(page.trace, otp.values)
    {
      InputStarts(page, event);
      OtpKeepsInvariant(page, event);
      var reported := |otp.completed|;
      otp.Receive(event);
      page := page.(otp := Handle(page.otp, event));
      sent := false;
      if |otp.completed| > reported {
        sent := BeginSubmit(otp.completed[|otp.completed| - 1]);
      }
    }

    /** `submit`, up to its first await: whether a challenge goes out. */
    method BeginSubmit(code: string) returns (sent: bool)
      requires Valid() && IsCode(code, CODE_LENGTH)
      modifies this
      ensures Valid() && page == Submit(old(page), code)
      ensures sent <==> !old(isExpired) && !old(isSubmittingRef)
    {
      SubmitKeepsInvariant(page, code);
      if isExpired || isSubmittingRef {
        return false;
      }
      isSubmittingRef := true;
      page := Submit(page, code);
      return true;
    }

    /** The challenge settles: an accepted one goes on to the refresh, a failed one to `finally`. */
    method ChallengeSettled(accepted: bool)
      requires Valid() && page.challenging > 0
      modifies this
      ensures Valid() && page == MfaNext(old(page), Response(accepted))
    {
      ResponseKeepsInvariant(page, accepted);
      page := MfaNext(page, Response(accepted));
      if !accepted {
        isSubmittingRef := false;
      }
    }

    /** The refresh settles, either way, and `finally` releases the guard. */
    method RefreshSettled()
      requires Valid() && page.refreshing > 0
      modifies this
      ensures Valid() && page == MfaNext(old(page), Refreshed)
    {
      page := MfaNext(page, Refreshed);
      isSubmittingRef := false;
    }

    /** A tick of the pill; when it fires, the page is expired. */
    method PillTicks(now: int)
      requires Valid()
      modifies this, pill
      ensures Valid() && page == MfaNext(old(page), Tick(now))
    {
      TickKeepsInvariant(page, now);
      var fired := pill.fired;
      pill.Interval(now);
      if pill.fired > fired {
        isExpired := true;
      }
      page := MfaNext(page, Tick(now));
    }
  }

  class VerifyEmailPage {
    var isVerifyingRef: bool
    var resendDisabledRef: bool
    var resendCooldownRef: Option<nat>
    ghost var page: VerifyPage

    ghost predicate Valid()
      reads this
    {
      && isVerifyingRef == page.isVerifying
      && resendDisabledRef == page.resendDisabled
      && (page.cooldown.Some? ==> resendCooldownRef == page.cooldown)
      && VerifyInvariant(page)
    }

    ghost method TimePasses(ms: nat)
      requires Valid()
      modifies this
      ensures Valid() && page == VerifyNext(old(page), Wait(ms))
    {
      page := VerifyNext(page, Wait(ms));
    }

    constructor ()
      ensures Valid() && page == OPEN_VERIFY_PAGE
    {
      isVerifyingRef, resendDisabledRef, resendCooldownRef, page := false, false, None, OPEN_VERIFY_PAGE;
      new;
      VerifyPageIsGuarded([]);
    }

    method BeginVerify(email: Option<string>) returns (sent: bool)
      requires Valid()
      modifies this
      ensures Valid() && page == VerifyNext(old(page), Complete(email.Some?))
      ensures sent == (page.verifying > old(page.verifying))
      ensures sent <==> !old(isVerifyingRef) && email.Some?
    {
      VerifyStepKeepsInvariant(page, Complete(email.Some?));
      page := VerifyNext(page, Complete(email.Some?));
      if isVerifyingRef || email.None? {
        return false;
      }
      isVerifyingRef := true;
      return true;
    }

    method FinishVerify()
      requires Valid() && page.verifying > 0
      modifies this
      ensures Valid() && page == VerifyNext(old(page), VerifySettled)
    {
      VerifyStepKeepsInvariant(page, VerifySettled);
      page := VerifyNext(page, VerifySettled);
      isVerifyingRef := false;
    }

    method BeginResend(email: Option<string>) returns (sent: bool)
      requires Valid()
      modifies this
      ensures Valid() && page == VerifyNext(old(page), ClickResend(email.Some?))
      ensures sent == (page.resending > old(page.resending))
      ensures sent <==> !old(resendDisabledRef) && email.Some?
    {
      VerifyStepKeepsInvariant(page, ClickResend(email.Some?));
      page := VerifyNext(page, ClickResend(email.Some?));
      if resendDisabledRef || email.None? {
        return false;
      }
      resendDisabledRef := true;
      return true;
    }

    /** The `finally` block arms the cooldown timer at the current time. */
    method FinishResend(now: nat)
      requires Valid() && page.resending > 0 && page.now == now
      modifies this
      ensures Valid() && page == VerifyNext(old(page), ResendSettled)
    {
      VerifyStepKeepsInvariant(page, ResendSettled);
      page := VerifyNext(page, ResendSettled);
      resendCooldownRef := Some(now + RESEND_COOLDOWN_MS);
    }

    /** The timer callback; the handle it was armed with stays in its ref. */
    method CooldownElapsed()
      requires Valid() && page.cooldown.Some? && page.now >= page.cooldown.value
      modifies this
      ensures Valid() && page == VerifyNext(old(page), TimerDue)
    {
      VerifyStepKeepsInvariant(page, TimerDue);
      page := VerifyNext(page, TimerDue);
      resendDisabledRef := false;
    }
  }
}
