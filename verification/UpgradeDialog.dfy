/**
 * The dashboard's upgrade dialog: its seven states, the marker it keeps in session storage, the
 * clock, and every status request still in flight. One event is one handler run to completion,
 * including the effect clean-ups and effects that its state change triggers.
 */
module UpgradeDialog {
  import opened JsText

  datatype DialogState = Review | Confirming | Starting | Polling | Rebooting | Succeeded | Failed

  /** What a status request came back with; `Unreachable` is any thrown error. */
  datatype Reply = IsIdle | IsRunning | IsSuccess | IsFailed | IsUnavailable | Unreachable

  /** How long a marker counts as recent: 30 minutes. */
  const STALE_AFTER_MS := 30 * 60 * 1000

  /** The marker's text: a number, nothing, or neither. This code writes only numbers. */
  datatype Marker = Since(ms: int) | Blank | Garbled

  /**
   * `polls` and `resumes` are the requests in flight, each named by the effect that sent it;
   * `livePoll` and `liveResume` name the effects not yet cleaned up. `orphans` are upgrade POSTs
   * whose dialog has been replaced since.
   */
  datatype Dialog = Dialog(
    state: DialogState, marker: Option<Marker>, clock: int, open: bool, failures: nat,
    polls: seq<nat>, livePoll: Option<nat>, resumes: seq<nat>, liveResume: Option<nat>, effects: nat,
    posts: nat, orphans: nat)

  datatype Event =
    | Open | Close | Continue | Back | Upgrade | TryAgain
    | PostReply(granted: bool) | OrphanReply(granted: bool)
    | PollTick | PollReply(i: nat, reply: Reply) | ResumeReply(i: nat, reply: Reply)
    | Elapse(ms: nat) | Reload | Remount

  predicate Enabled(d: Dialog, e: Event) {
    match e
    case Open => !d.open
    case Close => d.open
    case Continue => d.open && d.state == Review
    case Back => d.open && d.state == Confirming
    case Upgrade => d.open && d.state == Confirming
    case TryAgain => d.open && d.state == Failed
    case PostReply(_) => d.posts > 0
    case OrphanReply(_) => d.orphans > 0
    case PollTick => d.livePoll.Some?
    case PollReply(i, _) => i < |d.polls|
    case ResumeReply(i, _) => i < |d.resumes|
    case Elapse(_) => true
    case Reload => true
    case Remount => true
  }

  predicate Stale(d: Dialog) {
    match d.marker
    case Some(Since(ms)) => d.clock - ms > STALE_AFTER_MS
    case Some(Garbled) => true
    case _ => false
  }

  /** `setState`: entering `polling` starts a polling effect, leaving it cleans that effect up. */
  function GoTo(d: Dialog, next: DialogState): Dialog {
    if next == d.state then d
    else if next == Polling then
      d.(state := Polling, failures := 0, livePoll := Some(d.effects),
         polls := d.polls + [d.effects], effects := d.effects + 1)
    else d.(state := next, livePoll := None)
  }

  function Unmark(d: Dialog): Dialog {
    d.(marker := None)
  }

  function Without(s: seq<nat>, i: nat): seq<nat>
    requires i < |s|
  {
    s[..i] + s[i + 1..]
  }

  /** The effect that runs when the dialog opens. */
  function Opened(d: Dialog): Dialog {
    if d.marker.None? then GoTo(d, Review)
    else d.(resumes := d.resumes + [d.effects], liveResume := Some(d.effects), effects := d.effects + 1)
  }

  function OnResume(d: Dialog, reply: Reply): Dialog {
    match reply
    case IsRunning => GoTo(d, Polling)
    case IsSuccess => GoTo(Unmark(d), Succeeded)
    case IsFailed => GoTo(Unmark(d), Failed)
    case _ => if Stale(d) then GoTo(Unmark(d), Review) else GoTo(d, Polling)
  }

  function OnPoll(d: Dialog, reply: Reply): Dialog {
    if reply.Unreachable? then
      var d1 := d.(failures := d.failures + 1);
      if d1.failures >= 3 then GoTo(d1, Rebooting) else d1
    else
      var d1 := d.(failures := 0);
      match reply
      case IsSuccess => GoTo(Unmark(d1), Succeeded)
      case IsFailed => GoTo(Unmark(d1), Failed)
      case IsIdle => if Stale(d1) then GoTo(Unmark(d1), Review) else d1
      case _ => d1
  }

  function Apply(d: Dialog, e: Event): Dialog
    requires Enabled(d, e)
  {
    match e
    case Open => Opened(d.(open := true))
    case Close => d.(open := false, liveResume := None)
    case Continue => GoTo(d, Confirming)
    case Back => GoTo(d, Review)
    case Upgrade => GoTo(d.(posts := d.posts + 1), Starting)
    case TryAgain => GoTo(d, Review)
    case PostReply(granted) =>
      var d1 := d.(posts := d.posts - 1);
      if granted then GoTo(d1.(marker := Some(Since(d.clock))), Polling) else GoTo(Unmark(d1), Review)
    case OrphanReply(granted) =>
      d.(orphans := d.orphans - 1, marker := if granted then Some(Since(d.clock)) else None)
    case PollTick => d.(polls := d.polls + [d.livePoll.value])
    case PollReply(i, reply) =>
      var d1 := d.(polls := Without(d.polls, i));
      if d.livePoll == Some(d.polls[i]) then OnPoll(d1, reply) else d1
    case ResumeReply(i, reply) =>
      var d1 := d.(resumes := Without(d.resumes, i));
      if d.liveResume == Some(d.resumes[i]) then OnResume(d1, reply) else d1
    case Elapse(ms) => d.(clock := d.clock + ms)
    case Reload => Dialog(Review, d.marker, d.clock, false, 0, [], None, [], None, d.effects, 0, 0)
    case Remount =>
      var d1 := d.(state := Review, failures := 0, livePoll := None, liveResume := None,
                   posts := 0, orphans := d.orphans + d.posts);
      if d.open then Opened(d1) else d1
  }

  /** A freshly loaded page; the marker survives from an earlier one. */
  function Init(marker: Option<Marker>, clock: int): Dialog {
    Dialog(Review, marker, clock, false, 0, [], None, [], None, 0, 0, 0)
  }

  predicate IsRun(d: Dialog, events: seq<Event>)
    decreases |events|, 0
  {
    events == [] ||
    (IsRun(d, events[..|events| - 1]) && Enabled(End(d, events[..|events| - 1]), events[|events| - 1]))
  }

  function End(d: Dialog, events: seq<Event>): Dialog
    requires IsRun(d, events)
    decreases |events|, 1
  {
    if events == [] then d else Apply(End(d, events[..|events| - 1]), events[|events| - 1])
  }

  // ---- the component, as it changes its state ---------------------------------------------

  class Component {
    var state: DialogState
    var marker: Option<Marker>
    var open: bool
    var failures: nat
    var polls: seq<nat>
    var livePoll: Option<nat>
    var resumes: seq<nat>
    var liveResume: Option<nat>
    var effects: nat
    var posts: nat

    ghost function View(clock: int, orphans: nat): Dialog
      reads this
    {
      Dialog(state, marker, clock, open, failures, polls, livePoll, resumes, liveResume, effects, posts, orphans)
    }

    method SetState(next: DialogState, ghost clock: int, ghost orphans: nat)
      modifies this`state, this`failures, this`livePoll, this`polls, this`effects
      ensures View(clock, orphans) == GoTo(old(View(clock, orphans)), next)
      ensures state == next && (next != old(state) ==> (livePoll.Some? <==> next == Polling))
      ensures |polls| == old(|polls|) + if next == Polling && old(state) != Polling then 1 else 0
    {
      if next == state {
        return;
      }
      state := next;
      if next == Polling {
        failures, livePoll, polls, effects := 0, Some(effects), polls + [effects], effects + 1;
      } else {
        livePoll := None;
      }
    }

    method IsMarkerStale(clock: int) returns (stale: bool)
      ensures forall orphans: nat :: stale == Stale(View(clock, orphans))
    {
      if marker.None? || marker.value.Blank? {
        return false;
      }
      if marker.value.Garbled? {
        return true;
      }
      return clock - marker.value.ms > STALE_AFTER_MS;
    }

    method ResumeRunningUpgrade(clock: int, ghost orphans: nat)
      modifies this
      ensures View(clock, orphans) == Opened(old(View(clock, orphans)))
    {
      if marker.None? {
        SetState(Review, clock, orphans);
        return;
      }
      resumes, liveResume, effects := resumes + [effects], Some(effects), effects + 1;
    }

    method HandleResumeReply(i: nat, reply: Reply, clock: int, ghost orphans: nat)
      requires Enabled(View(clock, orphans), ResumeReply(i, reply))
      modifies this
      ensures View(clock, orphans) == Apply(old(View(clock, orphans)), ResumeReply(i, reply))
    {
      var effect := resumes[i];
      resumes := Without(resumes, i);
      if liveResume != Some(effect) {
        return;
      }
      if reply.IsRunning? {
        SetState(Polling, clock, orphans);
        return;
      }
      if reply.IsSuccess? || reply.IsFailed? {
        marker := None;
        SetState(if reply.IsSuccess? then Succeeded else Failed, clock, orphans);
        return;
      }
      var stale := IsMarkerStale(clock);
      assert stale == Stale(View(clock, orphans));
      if stale {
        marker := None;
        SetState(Review, clock, orphans);
      } else {
        SetState(Polling, clock, orphans);
      }
    }

    method HandlePollReply(i: nat, reply: Reply, clock: int, ghost orphans: nat)
      requires Enabled(View(clock, orphans), PollReply(i, reply))
      modifies this
      ensures View(clock, orphans) == Apply(old(View(clock, orphans)), PollReply(i, reply))
    {
      var effect := polls[i];
      polls := Without(polls, i);
      if livePoll != Some(effect) {
        return;
      }
      if reply.Unreachable? {
        failures := failures + 1;
        if failures >= 3 {
          SetState(Rebooting, clock, orphans);
        }
        return;
      }
      failures := 0;
      var stale := IsMarkerStale(clock);
      assert stale == Stale(View(clock, orphans));
      if reply.IsSuccess? {
        marker := None;
        SetState(Succeeded, clock, orphans);
      } else if reply.IsFailed? {
        marker := None;
        SetState(Failed, clock, orphans);
      } else if reply.IsIdle? && stale {
        marker := None;
        SetState(Review, clock, orphans);
      }
    }

    method HandlePostReply(granted: bool, clock: int, ghost orphans: nat)
      requires Enabled(View(clock, orphans), PostReply(granted))
      modifies this
      ensures View(clock, orphans) == Apply(old(View(clock, orphans)), PostReply(granted))
    {
      posts := posts - 1;
      if granted {
        marker := Some(Since(clock));
        SetState(Polling, clock, orphans);
      } else {
        marker := None;
        SetState(Review, clock, orphans);
      }
    }
  }

  // ---- a set marker excludes the two final states -----------------------------------------

  predicate MarkedAndOver(d: Dialog) {
    d.marker.Some? && (d.state == Succeeded || d.state == Failed)
  }

  /** The one way to a final state with the marker set: a POST of a replaced dialog is granted there. */
  lemma MarkedAndOverExactly(d: Dialog, e: Event)
    requires Enabled(d, e) && !MarkedAndOver(d)
    ensures MarkedAndOver(Apply(d, e)) <==> e == OrphanReply(true) && (d.state == Succeeded || d.state == Failed)
  {
  }

  predicate Live(d: Dialog, e: Event) {
    || (e.PollReply? && e.i < |d.polls| && d.livePoll == Some(d.polls[e.i]))
    || (e.ResumeReply? && e.i < |d.resumes| && d.liveResume == Some(d.resumes[e.i]))
  }

  /** The dialog reports an end exactly when a request that was not cancelled came back with that end. */
  lemma EndsExactly(d: Dialog, e: Event)
    requires Enabled(d, e)
    ensures d.state != Succeeded ==> (Apply(d, e).state == Succeeded <==> Live(d, e) && e.reply.IsSuccess?)
    ensures d.state != Failed ==> (Apply(d, e).state == Failed <==> Live(d, e) && e.reply.IsFailed?)
  {
  }

  /** A reported end, a refused POST, or a stale marker met by an idle poll or by any resume reply but `running`. */
  predicate Unmarks(d: Dialog, e: Event) {
    || (Live(d, e) && (e.reply.IsSuccess? || e.reply.IsFailed?))
    || e == PostReply(false) || e == OrphanReply(false)
    || (Live(d, e) && Stale(d) && (e.reply.IsIdle? || (e.ResumeReply? && !e.reply.IsRunning?)))
  }

  lemma UnmarkedExactly(d: Dialog, e: Event)
    requires Enabled(d, e) && d.marker.Some?
    ensures Apply(d, e).marker == None <==> Unmarks(d, e)
  {
  }

  // ---- where each event leads -------------------------------------------------------------

  /** A marker of the last 30 minutes, or a blank one. */
  predicate Recent(d: Dialog) {
    && d.marker.Some?
    && (d.marker.value.Blank? || (d.marker.value.Since? && d.clock - d.marker.value.ms <= 30 * 60 * 1000))
  }

  /**
   * A resume reply that is not final, met with a marker, leads to polling with the marker kept exactly when the
   * updater is running or the marker is recent; else to review without one.
   */
  lemma ResumeLeadsExactly(d: Dialog, e: Event)
    requires Enabled(d, e) && e.ResumeReply? && Live(d, e) && d.marker.Some?
    requires !e.reply.IsSuccess? && !e.reply.IsFailed?
    ensures var after := Apply(d, e);
      if e.reply.IsRunning? || Recent(d) then after.state == Polling && after.marker == d.marker
      else after.state == Review && after.marker == None
  {
  }

  /** A live poll reply ends polling by a final answer, an idle one to a marker not recent, or the third loss. */
  lemma PollLeadsExactly(d: Dialog, e: Event)
    requires Enabled(d, e) && e.PollReply? && Live(d, e) && d.state == Polling
    ensures var after := Apply(d, e);
      match e.reply
      case IsSuccess => after.state == Succeeded && after.marker == None
      case IsFailed => after.state == Failed && after.marker == None
      case IsIdle =>
        if d.marker.None? || Recent(d) then after.state == Polling && after.marker == d.marker && after.failures == 0
        else after.state == Review && after.marker == None
      case Unreachable =>
        && after.marker == d.marker && after.failures == d.failures + 1
        && after.state == (if d.failures >= 2 then Rebooting else Polling)
      case _ => after.state == Polling && after.marker == d.marker && after.failures == 0
  {
  }

  /** A reply to a request that was cancelled, or the passing of time, changes neither state nor marker. */
  lemma CancelledRepliesAreIgnored(d: Dialog, e: Event)
    requires Enabled(d, e)
    requires ((e.PollReply? || e.ResumeReply?) && !Live(d, e)) || e.Elapse? || e.PollTick?
    ensures var after := Apply(d, e);
      && after.state == d.state && after.marker == d.marker && after.failures == d.failures
      && after.clock == d.clock + if e.Elapse? then e.ms else 0
  {
  }

  /** What the page offers: the buttons of the state it is in, and what time and the network may do. */
  lemma WhatMayHappen(d: Dialog, i: nat, reply: Reply, granted: bool, ms: nat)
    ensures (Enabled(d, Open) <==> !d.open) && (Enabled(d, Close) <==> d.open)
    ensures Enabled(d, Elapse(ms)) && Enabled(d, Reload) && Enabled(d, Remount)
    ensures d.open ==> (Enabled(d, Continue) <==> d.state == Review) && (Enabled(d, TryAgain) <==> d.state == Failed)
    ensures d.open ==> (Enabled(d, Back) <==> d.state == Confirming) && (Enabled(d, Upgrade) <==> d.state == Confirming)
    ensures !d.open ==> forall e :: e in {Continue, Back, Upgrade, TryAgain} ==> !Enabled(d, e)
    ensures (Enabled(d, PostReply(granted)) <==> d.posts != 0) && (Enabled(d, OrphanReply(granted)) <==> d.orphans != 0)
    ensures Enabled(d, PollTick) <==> d.livePoll != None
    ensures Enabled(d, PollReply(i, reply)) <==> i < |d.polls|
    ensures Enabled(d, ResumeReply(i, reply)) <==> i < |d.resumes|
  {
  }

  /** A reply is one request less in flight; the others keep their order. */
  lemma RepliesAreHandledOnce(d: Dialog, e: Event)
    requires Enabled(d, e) && (e.PollReply? || e.ResumeReply?)
    ensures var (was, left) := if e.PollReply? then (d.polls, Apply(d, e).polls) else (d.resumes, Apply(d, e).resumes);
      && |was| <= |left| + 1 && was[..e.i] <= left
      && forall k :: e.i <= k < |was| - 1 ==> left[k] == was[k + 1]
    ensures e.PollReply? ==> |Apply(d, e).polls| == |d.polls| - 1 && Apply(d, e).resumes == d.resumes
    ensures e.ResumeReply? ==> |Apply(d, e).resumes| == |d.resumes| - 1
  {
  }

  /** A new page starts in review, closed, with the clock and the marker it finds. */
  lemma NewPage(marker: Option<Marker>, clock: int)
    ensures var d := Init(marker, clock);
      && d.state == Review && !d.open && d.marker == marker && d.clock == clock
      && d.livePoll == None && d.liveResume == None && d.polls == [] && d.resumes == []
      && d.posts == 0 && d.orphans == 0 && d.failures == 0
  {
  }

  /** What the answer to an upgrade POST leads to, here and for a dialog that has been replaced since. */
  lemma GrantsLeadExactly(d: Dialog, granted: bool)
    ensures Enabled(d, PostReply(granted)) ==>
      var after := Apply(d, PostReply(granted));
      && after.posts == d.posts - 1 && after.orphans == d.orphans
      && if granted then after.state == Polling && after.marker == Some(Since(d.clock))
         else after.state == Review && after.marker == None
    ensures Enabled(d, OrphanReply(granted)) ==>
      var after := Apply(d, OrphanReply(granted));
      && after == d.(marker := after.marker, orphans := d.orphans - 1)
      && after.marker == if granted then Some(Since(d.clock)) else None
  {
  }

  /** The buttons, the overlay and the page: which states they lead to, and that none of them touches the marker. */
  lemma OperatorLeadsExactly(d: Dialog, e: Event)
    requires Enabled(d, e)
    requires e in {Open, Close, Continue, Back, Upgrade, TryAgain, Reload, Remount}
    ensures var after := Apply(d, e);
      && after.marker == d.marker && after.clock == d.clock
      && (e == Continue ==> d.state == Review && after.state == Confirming)
      && (e == Back ==> d.state == Confirming && after.state == Review)
      && (e == Upgrade ==> d.state == Confirming && after.state == Starting && after.posts == d.posts + 1)
      && (e == TryAgain ==> d.state == Failed && after.state == Review)
      && (e in {Continue, Back, Upgrade, TryAgain} ==>
            && after.open && after.liveResume == d.liveResume && after.resumes == d.resumes && after.polls == d.polls
            && after.orphans == d.orphans && (e != Upgrade ==> after.posts == d.posts))
      && (e == Close ==> after.state == d.state && !after.open && after.liveResume == None)
      && (e == Open ==> after.open && after.state == if d.marker.None? then Review else d.state)
      && (e == Open && d.marker.Some? ==>
            |after.resumes| == |d.resumes| + 1 && after.liveResume == Some(after.resumes[|d.resumes|]))
      && (e in {Reload, Remount} ==> after.state == Review && after.livePoll == None && after.posts == 0)
      && (e == Reload ==> !after.open && after.orphans == 0 && after.polls == [] && after.resumes == [])
      && (e == Reload ==> after.liveResume == None)
      && (e == Remount ==> after.open == d.open && after.orphans == d.orphans + d.posts && after.polls == d.polls)
      && (e == Remount ==> (after.liveResume.Some? <==> d.open && d.marker.Some?))
      && (e in {Reload, Remount} ==> after.failures == 0)
  {
  }

  /** Polling that goes on keeps its effect. */
  lemma PollingKeepsItsEffect(d: Dialog, e: Event)
    requires Enabled(d, e) && d.state == Polling && Apply(d, e).state == Polling
    ensures Apply(d, e).livePoll == d.livePoll
    ensures e != Open ==> Apply(d, e).effects == d.effects
    ensures !e.PollReply? ==> Apply(d, e).failures == d.failures
  {
  }

  /** Polling entered anew starts an effect, with a request of its own and no failures counted. */
  lemma PollingStartsOneEffect(d: Dialog, e: Event)
    requires Enabled(d, e) && d.state != Polling && Apply(d, e).state == Polling
    ensures e.PostReply? || e.ResumeReply?
    ensures Apply(d, e) == Apply(d, e).(livePoll := Some(d.effects), effects := d.effects + 1, failures := 0,
                                        polls := d.polls + [d.effects])
  {
  }

  /** Reopened during a running upgrade, from any state and after a reload too, the dialog ends up polling. */
  lemma ReopenedIsPolling(d: Dialog, events: seq<Event>)
    requires IsRun(d, events) && !End(d, events).open && End(d, events).marker.Some?
    ensures var at := End(d, events); var more := events + [Open] + [ResumeReply(|at.resumes|, IsRunning)];
      IsRun(d, more) && End(d, more).state == Polling && End(d, more).marker == at.marker
  {
    hide IsRun, End;
    var at := End(d, events);
    RunSnoc(d, events, Open);
    RunSnoc(d, events + [Open], ResumeReply(|at.resumes|, IsRunning));
  }

  // ---- properties of whole runs -----------------------------------------------------------

  /** `p` holds at the start, after every event and at the end. */
  ghost predicate Always(d: Dialog, events: seq<Event>, p: Dialog -> bool)
    requires IsRun(d, events)
  {
    p(End(d, events)) && (events == [] || Always(d, events[..|events| - 1], p))
  }

  /** `q` holds of every event and the dialog it met. */
  ghost predicate EachStep(d: Dialog, events: seq<Event>, q: (Dialog, Event) -> bool)
    requires IsRun(d, events)
  {
    events == [] ||
    (var before := events[..|events| - 1]; EachStep(d, before, q) && q(End(d, before), events[|events| - 1]))
  }

  lemma {:induction false} AlwaysExactly(d: Dialog, events: seq<Event>, p: Dialog -> bool, q: (Dialog, Event) -> bool)
    requires IsRun(d, events) && p(d)
    requires forall s, e :: Enabled(s, e) && p(s) ==> (p(Apply(s, e)) <==> q(s, e))
    ensures Always(d, events, p) <==> EachStep(d, events, q)
  {
    hide Apply, Enabled;
    if events != [] {
      var before := events[..|events| - 1];
      AlwaysExactly(d, before, p, q);
      AlwaysAtEnd(d, before, p);
    }
  }

  lemma AlwaysAtEnd(d: Dialog, events: seq<Event>, p: Dialog -> bool)
    requires IsRun(d, events)
    ensures Always(d, events, p) ==> p(End(d, events))
  {
  }

  predicate NotSucceeded(d: Dialog) {
    d.state != Succeeded
  }

  predicate NotFailed(d: Dialog) {
    d.state != Failed
  }

  predicate NoSuccess(d: Dialog, e: Event) {
    !(Live(d, e) && e.reply.IsSuccess?)
  }

  predicate NoFailure(d: Dialog, e: Event) {
    !(Live(d, e) && e.reply.IsFailed?)
  }

  /**
   * In every run the dialog reports success, or failure, at some point exactly when a request that was not
   * cancelled came back with it.
   */
  lemma {:induction false} ReportsExactly(marker: Option<Marker>, clock: int, events: seq<Event>)
    requires IsRun(Init(marker, clock), events)
    ensures Always(Init(marker, clock), events, NotSucceeded) <==> EachStep(Init(marker, clock), events, NoSuccess)
    ensures Always(Init(marker, clock), events, NotFailed) <==> EachStep(Init(marker, clock), events, NoFailure)
  {
    hide Apply, Enabled, Live, Always, EachStep;
    forall d, e | Enabled(d, e)
      ensures NotSucceeded(d) ==> (NotSucceeded(Apply(d, e)) <==> NoSuccess(d, e))
      ensures NotFailed(d) ==> (NotFailed(Apply(d, e)) <==> NoFailure(d, e))
    {
      EndsExactly(d, e);
    }
    AlwaysExactly(Init(marker, clock), events, NotSucceeded, NoSuccess);
    AlwaysExactly(Init(marker, clock), events, NotFailed, NoFailure);
  }

  predicate HasMarker(d: Dialog) {
    d.marker.Some?
  }

  predicate KeepsMarker(d: Dialog, e: Event) {
    !Unmarks(d, e)
  }

  /** A set marker stays set through a run, reloads included, exactly when no event of it clears it. */
  lemma {:induction false} MarkerSurvivesExactly(marker: Marker, clock: int, events: seq<Event>)
    requires IsRun(Init(Some(marker), clock), events)
    ensures Always(Init(Some(marker), clock), events, HasMarker)
       <==> EachStep(Init(Some(marker), clock), events, KeepsMarker)
  {
    hide Apply, Enabled, Unmarks, Always, EachStep;
    forall d, e | Enabled(d, e) && HasMarker(d)
      ensures HasMarker(Apply(d, e)) <==> KeepsMarker(d, e)
    {
      UnmarkedExactly(d, e);
    }
    AlwaysExactly(Init(Some(marker), clock), events, HasMarker, KeepsMarker);
  }

  predicate NotMarkedAndOver(d: Dialog) {
    !MarkedAndOver(d)
  }

  predicate NoLateGrant(d: Dialog, e: Event) {
    !(e == OrphanReply(true) && (d.state == Succeeded || d.state == Failed))
  }

  /**
   * Across close, reopen, reload and replies in any order, a set marker excludes the final states at every
   * point of a run exactly when no POST of a replaced dialog is granted in one of them.
   */
  lemma {:induction false} MarkerExcludesTheEnd(marker: Option<Marker>, clock: int, events: seq<Event>)
    requires IsRun(Init(marker, clock), events)
    ensures Always(Init(marker, clock), events, NotMarkedAndOver)
      <==> EachStep(Init(marker, clock), events, NoLateGrant)
  {
    hide Apply, Enabled, MarkedAndOver, Always, EachStep;
    StartsUnfinished(marker, clock);
    forall d, e | Enabled(d, e) && NotMarkedAndOver(d)
      ensures NotMarkedAndOver(Apply(d, e)) <==> NoLateGrant(d, e)
    {
      MarkedAndOverExactly(d, e);
    }
    AlwaysExactly(Init(marker, clock), events, NotMarkedAndOver, NoLateGrant);
  }

  lemma StartsUnfinished(marker: Option<Marker>, clock: int)
    ensures !MarkedAndOver(Init(marker, clock))
  {
  }

  lemma RunSnoc(d: Dialog, events: seq<Event>, e: Event)
    requires IsRun(d, events) && Enabled(End(d, events), e)
    ensures IsRun(d, events + [e]) && End(d, events + [e]) == Apply(End(d, events), e)
  {
    hide Apply, Enabled;
    assert (events + [e])[..|events|] == events;
  }

  function ToReplaced(): seq<Event> {
    [Open] + [Continue] + [Upgrade] + [Remount]
  }

  function ToSecondPolling(): seq<Event> {
    ToReplaced() + [Continue] + [Upgrade] + [PostReply(true)]
  }

  function OverTwoUpgrades(): seq<Event> {
    ToSecondPolling() + [PollReply(0, IsSuccess)] + [OrphanReply(true)]
  }

  lemma ReplacedIsReached()
    ensures IsRun(Init(None, 0), ToReplaced())
    ensures End(Init(None, 0), ToReplaced()) == Dialog(Review, None, 0, true, 0, [], None, [], None, 0, 0, 1)
  {
    var d := Init(None, 0);
    assert IsRun(d, []) && End(d, []) == d;
    hide IsRun, End;
    RunSnoc(d, [], Open);
    assert [] + [Open] == [Open];
    RunSnoc(d, [Open], Continue);
    RunSnoc(d, [Open] + [Continue], Upgrade);
    RunSnoc(d, [Open] + [Continue] + [Upgrade], Remount);
  }

  /** The dialog once an upgrade asked for in review has been granted. */
  function Granted(d: Dialog): Dialog {
    d.(state := Polling, marker := Some(Since(d.clock)), failures := 0, livePoll := Some(d.effects),
       polls := d.polls + [d.effects], effects := d.effects + 1)
  }

  lemma UpgradeIsGranted(d: Dialog, events: seq<Event>)
    requires IsRun(d, events)
    requires var at := End(d, events); at.open && at.state == Review && at.livePoll.None?
    ensures var more := events + [Continue] + [Upgrade] + [PostReply(true)];
      IsRun(d, more) && End(d, more) == Granted(End(d, events))
  {
    hide IsRun, End;
    RunSnoc(d, events, Continue);
    RunSnoc(d, events + [Continue], Upgrade);
    RunSnoc(d, events + [Continue] + [Upgrade], PostReply(true));
  }

  lemma LateGrant(d: Dialog, events: seq<Event>)
    requires IsRun(d, events)
    requires var at := End(d, events); at.polls != [] && at.livePoll == Some(at.polls[0]) && at.orphans > 0
    ensures var more := events + [PollReply(0, IsSuccess)] + [OrphanReply(true)];
      IsRun(d, more) && MarkedAndOver(End(d, more))
  {
    hide IsRun, End;
    RunSnoc(d, events, PollReply(0, IsSuccess));
    RunSnoc(d, events + [PollReply(0, IsSuccess)], OrphanReply(true));
  }

  /**
   * It does happen: the dialog is replaced while its POST is under way, a second upgrade succeeds, then the
   * first POST is granted.
   */
  lemma LateGrantMarksAnEnd()
    ensures IsRun(Init(None, 0), OverTwoUpgrades()) && MarkedAndOver(End(Init(None, 0), OverTwoUpgrades()))
  {
    var d := Init(None, 0);
    ReplacedIsReached();
    UpgradeIsGranted(d, ToReplaced());
    hide IsRun, End, ToReplaced, MarkedAndOver;
    LateGrant(d, ToSecondPolling());
  }

  // ---- polling and the thirty-minute bound ------------------------------------------------

  predicate MarkerlessPolling(d: Dialog) {
    d.state == Polling && d.marker.None?
  }

  /**
   * A status request sent on opening is answered, nothing final, after the marker has gone; or a replaced
   * dialog's POST is refused.
   */
  predicate Slips(d: Dialog, e: Event) {
    || (e.ResumeReply? && e.i < |d.resumes| && d.liveResume == Some(d.resumes[e.i])
        && d.marker.None? && !e.reply.IsSuccess? && !e.reply.IsFailed?)
    || (e == OrphanReply(false) && d.state == Polling)
  }

  lemma MarkerlessPollingExactly(d: Dialog, e: Event)
    requires Enabled(d, e) && !MarkerlessPolling(d)
    ensures MarkerlessPolling(Apply(d, e)) <==> Slips(d, e)
  {
  }

  predicate PollsMarked(d: Dialog) {
    !MarkerlessPolling(d)
  }

  predicate NoSlip(d: Dialog, e: Event) {
    !Slips(d, e)
  }

  /** Polling implies a marker at every point of a run exactly when nothing slips in it. */
  lemma {:induction false} PollingHasMarker(marker: Option<Marker>, clock: int, events: seq<Event>)
    requires IsRun(Init(marker, clock), events)
    ensures Always(Init(marker, clock), events, PollsMarked) <==> EachStep(Init(marker, clock), events, NoSlip)
  {
    hide Apply, Enabled, Slips, Always, EachStep;
    forall d, e | Enabled(d, e) && PollsMarked(d)
      ensures PollsMarked(Apply(d, e)) <==> NoSlip(d, e)
    {
      MarkerlessPollingExactly(d, e);
    }
    AlwaysExactly(Init(marker, clock), events, PollsMarked, NoSlip);
  }

  /**
   * While nothing slips, an idle answer to a live poll leaves the dialog polling exactly within 30 minutes
   * of the marker, or with a blank marker, which only other code can leave behind.
   */
  lemma IdleCannotHoldTheDialog(marker: Option<Marker>, clock: int, events: seq<Event>, i: nat)
    requires IsRun(Init(marker, clock), events) && EachStep(Init(marker, clock), events, NoSlip)
    requires var d := End(Init(marker, clock), events);
      d.state == Polling && i < |d.polls| && d.livePoll == Some(d.polls[i])
    ensures var d := End(Init(marker, clock), events); var after := Apply(d, PollReply(i, IsIdle));
      && d.marker.Some? && (d.marker.value.Blank? ==> marker == Some(Blank))
      && (if d.marker.value.Blank? || (d.marker.value.Since? && d.clock - d.marker.value.ms <= 30 * 60 * 1000)
          then after.state == Polling && after.marker == d.marker
          else after.state == Review && after.marker == None)
  {
    hide IsRun, End, Init, Always, EachStep;
    PollingHasMarker(marker, clock, events);
    AlwaysAtEnd(Init(marker, clock), events, PollsMarked);
    BlankIsForeign(marker, clock, events);
  }

  lemma {:induction false} BlankIsForeign(marker: Option<Marker>, clock: int, events: seq<Event>)
    requires IsRun(Init(marker, clock), events)
    ensures End(Init(marker, clock), events).marker == Some(Blank) ==> marker == Some(Blank)
  {
    hide Apply, Enabled;
    if events != [] {
      var before := events[..|events| - 1];
      BlankIsForeign(marker, clock, before);
      NoBlankWritten(End(Init(marker, clock), before), events[|events| - 1]);
    }
  }

  lemma NoBlankWritten(d: Dialog, e: Event)
    requires Enabled(d, e)
    ensures Apply(d, e).marker == Some(Blank) ==> d.marker == Some(Blank)
  {
  }

  /** Time passes, polls go out, and the updater answers that it is idle. */
  predicate IsIdling(e: Event) {
    e.Elapse? || e.PollTick? || (e.PollReply? && e.reply.IsIdle?)
  }

  /** Once the marker is gone while polling, no run of idle answers ends the polling. */
  lemma {:induction false} MarkerlessPollingIsForever(d: Dialog, events: seq<Event>)
    requires MarkerlessPolling(d) && IsRun(d, events) && forall e :: e in events ==> IsIdling(e)
    ensures MarkerlessPolling(End(d, events)) && End(d, events).livePoll == d.livePoll
  {
    hide Apply, Enabled;
    if events != [] {
      var before, e := events[..|events| - 1], events[|events| - 1];
      assert events == before + [e];
      MarkerlessPollingIsForever(d, before);
      IdlingChangesNothing(End(d, before), e);
    }
  }

  lemma IdlingChangesNothing(d: Dialog, e: Event)
    requires MarkerlessPolling(d) && Enabled(d, e) && IsIdling(e)
    ensures MarkerlessPolling(Apply(d, e)) && Apply(d, e).livePoll == d.livePoll
  {
  }

  /** Poll after poll, `waits[k]` milliseconds before the k-th, each answered at once. */
  function IdleRounds(n: nat, waits: seq<nat>): seq<Event> {
    if waits == [] then []
    else
      IdleRounds(n, waits[..|waits| - 1]) + [Elapse(waits[|waits| - 1])] + [PollTick] + [PollReply(n, IsIdle)]
  }

  function Sum(waits: seq<nat>): nat {
    if waits == [] then 0 else Sum(waits[..|waits| - 1]) + waits[|waits| - 1]
  }

  lemma IdlePoll(at: Dialog, w: nat)
    requires MarkerlessPolling(at) && at.livePoll.Some?
    ensures var later := at.(clock := at.clock + w); var asked := later.(polls := at.polls + [at.livePoll.value]);
      && Enabled(at, Elapse(w)) && Apply(at, Elapse(w)) == later
      && Enabled(later, PollTick) && Apply(later, PollTick) == asked
      && Enabled(asked, PollReply(|at.polls|, IsIdle))
      && Apply(asked, PollReply(|at.polls|, IsIdle)) == later.(failures := 0)
  {
    assert Without(at.polls + [at.livePoll.value], |at.polls|) == at.polls;
  }

  lemma IdleRound(d: Dialog, before: seq<Event>, w: nat)
    requires IsRun(d, before)
    requires var at := End(d, before); MarkerlessPolling(at) && at.livePoll.Some?
    ensures var at := End(d, before);
      var events := before + [Elapse(w)] + [PollTick] + [PollReply(|at.polls|, IsIdle)];
      && IsRun(d, events) && End(d, events) == at.(clock := at.clock + w, failures := 0)
  {
    hide IsRun, End, Apply, Enabled;
    var at := End(d, before);
    IdlePoll(at, w);
    RunSnoc(d, before, Elapse(w));
    RunSnoc(d, before + [Elapse(w)], PollTick);
    RunSnoc(d, before + [Elapse(w)] + [PollTick], PollReply(|at.polls|, IsIdle));
  }

  /** And such runs exist for any length of time. */
  lemma {:induction false} IdleRoundsAreRuns(d: Dialog, waits: seq<nat>)
    requires MarkerlessPolling(d) && d.livePoll.Some?
    ensures var events := IdleRounds(|d.polls|, waits);
      IsRun(d, events) && End(d, events).clock == d.clock + Sum(waits)
      && MarkerlessPolling(End(d, events)) && End(d, events).livePoll == d.livePoll && End(d, events).polls == d.polls
  {
    hide Apply, Enabled;
    if waits != [] {
      var init := waits[..|waits| - 1];
      IdleRoundsAreRuns(d, init);
      IdleRound(d, IdleRounds(|d.polls|, init), waits[|waits| - 1]);
    }
  }

  /** Closed and opened again while its upgrade runs, the dialog has both a poll and a resume request in flight. */
  lemma ReopenedWhileUpgrading(d: Dialog, events: seq<Event>)
    requires IsRun(d, events)
    requires var at := End(d, events); at.open && at.state == Polling && at.marker.Some?
    ensures var at := End(d, events); var more := events + [Close] + [Open];
      IsRun(d, more) && End(d, more) ==
        at.(resumes := at.resumes + [at.effects], liveResume := Some(at.effects), effects := at.effects + 1)
  {
    hide IsRun, End;
    RunSnoc(d, events, Close);
    RunSnoc(d, events + [Close], Open);
  }

  lemma SuccessThenLoss(d: Dialog, events: seq<Event>)
    requires IsRun(d, events)
    requires var at := End(d, events);
      && at.polls != [] && at.livePoll == Some(at.polls[0])
      && at.resumes != [] && at.liveResume == Some(at.resumes[0]) && at.state == Polling
    ensures var more := events + [PollReply(0, IsSuccess)] + [ResumeReply(0, Unreachable)];
      IsRun(d, more) && MarkerlessPolling(End(d, more)) && End(d, more).livePoll.Some?
  {
    hide IsRun, End;
    SuccessOf(End(d, events));
    LossAfterSuccess(Apply(End(d, events), PollReply(0, IsSuccess)));
    hide Apply;
    RunSnoc(d, events, PollReply(0, IsSuccess));
    RunSnoc(d, events + [PollReply(0, IsSuccess)], ResumeReply(0, Unreachable));
  }

  lemma SuccessOf(d: Dialog)
    requires d.polls != [] && d.livePoll == Some(d.polls[0]) && d.state == Polling
    ensures var after := Apply(d, PollReply(0, IsSuccess));
      after.state == Succeeded && after.marker == None && after.resumes == d.resumes && after.liveResume == d.liveResume
  {
  }

  lemma LossAfterSuccess(d: Dialog)
    requires d.resumes != [] && d.liveResume == Some(d.resumes[0]) && d.state == Succeeded && d.marker == None
    ensures var after := Apply(d, ResumeReply(0, Unreachable)); MarkerlessPolling(after) && after.livePoll.Some?
  {
  }

  function OpenThroughSlip(): seq<Event> {
    [Open] + [Continue] + [Upgrade] + [PostReply(true)] + [Close] + [Open]
    + [PollReply(0, IsSuccess)] + [ResumeReply(0, Unreachable)]
  }

  /**
   * Handling replies in request order does not prevent it: the dialog is closed and reopened while a
   * poll is in flight, the poll reports success and clears the marker, and the later request fails.
   */
  lemma InOrderRepliesCanSlip()
    ensures IsRun(Init(None, 0), OpenThroughSlip())
    ensures MarkerlessPolling(End(Init(None, 0), OpenThroughSlip()))
      && End(Init(None, 0), OpenThroughSlip()).livePoll.Some?
  {
    var d := Init(None, 0);
    assert IsRun(d, []) && End(d, []) == d;
    hide IsRun, End;
    RunSnoc(d, [], Open);
    assert [] + [Open] == [Open];
    UpgradeIsGranted(d, [Open]);
    ReopenedWhileUpgrading(d, [Open] + [Continue] + [Upgrade] + [PostReply(true)]);
    SuccessThenLoss(d, [Open] + [Continue] + [Upgrade] + [PostReply(true)] + [Close] + [Open]);
  }

  // ---- the restart window -----------------------------------------------------------------

  /** The effects in flight are older than the counter, and one polls exactly while the dialog does. */
  predicate WellFormed(d: Dialog) {
    && (d.livePoll.Some? <==> d.state == Polling)
    && (d.livePoll.Some? ==> d.livePoll.value < d.effects && d.failures < 3)
    && (forall i :: 0 <= i < |d.polls| ==> d.polls[i] < d.effects)
    && (d.liveResume.Some? ==> d.open)
  }

  /** What `GoTo` may rely on: everything but the link between the state and its polling effect. */
  predicate FieldsInOrder(d: Dialog) {
    && (d.state == Polling <==> d.livePoll.Some?)
    && (d.livePoll.Some? ==> d.livePoll.value < d.effects)
    && (forall i :: 0 <= i < |d.polls| ==> d.polls[i] < d.effects)
    && (d.liveResume.Some? ==> d.open)
  }

  lemma GoToKeeps(d: Dialog, next: DialogState)
    requires FieldsInOrder(d) && (d.state == Polling && next == Polling ==> d.failures < 3)
    ensures WellFormed(GoTo(d, next))
  {
  }

  lemma RepliesKeepWellFormed(d: Dialog, reply: Reply)
    requires WellFormed(d)
    ensures d.state == Polling ==> WellFormed(OnPoll(d, reply))
    ensures WellFormed(OnResume(d, reply))
  {
    hide GoTo;
    var d1 := d.(failures := d.failures + 1);
    assert FieldsInOrder(d) && FieldsInOrder(Unmark(d)) && FieldsInOrder(d1);
    GoToKeeps(d1, Rebooting);
    GoToKeeps(d, Polling);
    forall next | next != Polling
      ensures WellFormed(GoTo(Unmark(d), next)) && WellFormed(GoTo(Unmark(d.(failures := 0)), next))
    {
      GoToKeeps(Unmark(d), next);
      GoToKeeps(Unmark(d.(failures := 0)), next);
    }
  }

  lemma StepKeepsWellFormed(d: Dialog, e: Event)
    requires Enabled(d, e) && WellFormed(d)
    ensures WellFormed(Apply(d, e))
  {
    if e.PollReply? {
      hide OnPoll, OnResume, GoTo;
      RepliesKeepWellFormed(d.(polls := Without(d.polls, e.i)), e.reply);
    } else if e.ResumeReply? {
      hide OnPoll, OnResume, GoTo;
      RepliesKeepWellFormed(d.(resumes := Without(d.resumes, e.i)), e.reply);
    } else {
      hide OnPoll, OnResume;
    }
  }

  lemma {:induction false} RunIsWellFormed(marker: Option<Marker>, clock: int, events: seq<Event>)
    requires IsRun(Init(marker, clock), events)
    ensures WellFormed(End(Init(marker, clock), events))
  {
    hide Apply, Enabled;
    if events != [] {
      RunIsWellFormed(marker, clock, events[..|events| - 1]);
      StepKeepsWellFormed(End(Init(marker, clock), events[..|events| - 1]), events[|events| - 1]);
    }
  }

  predicate ResumesAreOlder(d: Dialog) {
    forall i :: 0 <= i < |d.resumes| ==> d.resumes[i] < d.effects
  }

  lemma StepKeepsResumesOlder(d: Dialog, e: Event)
    requires Enabled(d, e) && ResumesAreOlder(d)
    ensures ResumesAreOlder(Apply(d, e))
  {
    if e.ResumeReply? {
      hide OnResume;
      assert ResumesAreOlder(d.(resumes := Without(d.resumes, e.i)));
      ResumeKeepsResumes(d.(resumes := Without(d.resumes, e.i)), e.reply);
    } else {
      hide OnResume;
    }
  }

  lemma ResumeKeepsResumes(d: Dialog, reply: Reply)
    ensures OnResume(d, reply).resumes == d.resumes && OnResume(d, reply).effects >= d.effects
  {
  }

  lemma {:induction false} RunKeepsResumesOlder(marker: Option<Marker>, clock: int, events: seq<Event>)
    requires IsRun(Init(marker, clock), events)
    ensures ResumesAreOlder(End(Init(marker, clock), events))
  {
    hide Apply, Enabled, ResumesAreOlder;
    assert ResumesAreOlder(Init(marker, clock)) by { ResumesOfNewPage(marker, clock); }
    if events != [] {
      RunKeepsResumesOlder(marker, clock, events[..|events| - 1]);
      StepKeepsResumesOlder(End(Init(marker, clock), events[..|events| - 1]), events[|events| - 1]);
    }
  }

  lemma ResumesOfNewPage(marker: Option<Marker>, clock: int)
    ensures ResumesAreOlder(Init(marker, clock))
  {
  }

  /** After every run, reopening the dialog leaves every resume request sent before cancelled. */
  lemma ReopeningCancels(marker: Option<Marker>, clock: int, events: seq<Event>)
    requires IsRun(Init(marker, clock), events) && !End(Init(marker, clock), events).open
    ensures var d := End(Init(marker, clock), events);
      Enabled(d, Open) && d.resumes <= Apply(d, Open).resumes
      && forall i :: 0 <= i < |d.resumes| ==> Apply(d, Open).liveResume != Some(d.resumes[i])
  {
    RunIsWellFormed(marker, clock, events);
    RunKeepsResumesOlder(marker, clock, events);
    hide IsRun, End;
  }

  /** The replies a run brought to the live polling effect. */
  function Heard(d: Dialog, events: seq<Event>): seq<Reply>
    requires IsRun(d, events)
  {
    if events == [] then []
    else
      var before, e := events[..|events| - 1], events[|events| - 1];
      Heard(d, before) + if e.PollReply? && Live(End(d, before), e) then [e.reply] else []
  }

  /** Time, polls and poll replies, none of the latter final: no end, and no idle answer to a stale marker. */
  predicate Unfinished(d: Dialog, e: Event) {
    || e.Elapse? || e.PollTick?
    || (e.PollReply? && (Live(d, e) ==> !e.reply.IsSuccess? && !e.reply.IsFailed? && !(e.reply.IsIdle? && Stale(d))))
  }

  predicate Lost(replies: seq<Reply>, k: nat) {
    k < |replies| && replies[k].Unreachable?
  }

  ghost predicate ThreeInARow(replies: seq<Reply>) {
    exists k: nat :: Lost(replies, k) && Lost(replies, k + 1) && Lost(replies, k + 2)
  }

  /** How many of the last replies were lost. */
  function TrailingLost(replies: seq<Reply>): nat {
    if replies == [] || !replies[|replies| - 1].Unreachable? then 0 else 1 + TrailingLost(replies[..|replies| - 1])
  }

  lemma LastTwo(replies: seq<Reply>)
    ensures TrailingLost(replies) >= 2
       <==> |replies| >= 2 && Lost(replies, |replies| - 1) && Lost(replies, |replies| - 2)
  {
    var n := |replies|;
    if n >= 1 && replies[n - 1].Unreachable? {
      assert TrailingLost(replies) == 1 + TrailingLost(replies[..n - 1]);
      assert n >= 2 ==> replies[..n - 1][n - 2] == replies[n - 2];
    }
  }

  lemma ThreeSnoc(replies: seq<Reply>, x: Reply)
    ensures ThreeInARow(replies + [x]) <==> ThreeInARow(replies) || (x.Unreachable? && TrailingLost(replies) >= 2)
  {
    var n, all := |replies|, replies + [x];
    LastTwo(replies);
    assert forall k: nat :: k < n ==> (Lost(all, k) <==> Lost(replies, k));
    assert Lost(all, n) <==> x.Unreachable?;
    if ThreeInARow(replies) {
      var k: nat :| Lost(replies, k) && Lost(replies, k + 1) && Lost(replies, k + 2);
      assert Lost(all, k) && Lost(all, k + 1) && Lost(all, k + 2);
    }
    if x.Unreachable? && TrailingLost(replies) >= 2 {
      assert Lost(all, n - 2) && Lost(all, n - 2 + 1) && Lost(all, n - 2 + 2);
    }
    if ThreeInARow(all) {
      var k: nat :| Lost(all, k) && Lost(all, k + 1) && Lost(all, k + 2);
      assert k + 2 < n ==> Lost(replies, k) && Lost(replies, k + 1) && Lost(replies, k + 2);
    }
  }

  function Past(failures: nat): seq<Reply> {
    seq(failures, _ => Unreachable)
  }

  lemma PastIsShort(failures: nat)
    requires failures < 3
    ensures TrailingLost(Past(failures)) == failures && !ThreeInARow(Past(failures))
  {
    if failures > 0 { assert Past(failures)[..failures - 1] == Past(failures - 1); }
    if failures == 2 { assert Past(1)[..0] == Past(0); }
  }

  lemma UnfinishedStep(d: Dialog, e: Event)
    requires Enabled(d, e) && WellFormed(d) && Unfinished(d, e)
    ensures var after := Apply(d, e);
      && after.marker == d.marker && WellFormed(after)
      && (if !(e.PollReply? && Live(d, e)) then after.state == d.state && after.failures == d.failures
          else if !e.reply.Unreachable? then after.state == d.state && after.failures == 0
          else if d.failures < 2 then after.state == d.state && after.failures == d.failures + 1
          else after.state == Rebooting)
  {
    StepKeepsWellFormed(d, e);
  }

  /**
   * While polling and told nothing final, the dialog gives way to the reload exactly when three polls in a
   * row have been lost, counting those lost before; and it keeps its marker.
   */
  lemma {:induction false} RebootsExactly(d: Dialog, events: seq<Event>)
    requires WellFormed(d) && d.state == Polling && IsRun(d, events) && EachStep(d, events, Unfinished)
    ensures var after, replies := End(d, events), Past(d.failures) + Heard(d, events);
      && WellFormed(after) && after.marker == d.marker
      && after.state == (if ThreeInARow(replies) then Rebooting else Polling)
      && (after.state == Polling ==> after.failures == TrailingLost(replies))
  {
    assert d.failures < 3;
    hide Apply, Enabled, ThreeInARow, Live, Stale, Unfinished, WellFormed, Past;
    if events == [] {
      PastIsShort(d.failures);
      assert Past(d.failures) + [] == Past(d.failures);
    } else {
      var before, e := events[..|events| - 1], events[|events| - 1];
      RebootsExactly(d, before);
      var at, replies := End(d, before), Past(d.failures) + Heard(d, before);
      UnfinishedStep(at, e);
      if e.PollReply? && Live(at, e) {
        LiveMeansPolling(at, e);
        ThreeSnoc(replies, e.reply);
        assert replies + [e.reply] == Past(d.failures) + Heard(d, events);
        assert (replies + [e.reply])[..|replies|] == replies;
      } else {
        assert Heard(d, before) + [] == Heard(d, before);
      }
    }
  }

  lemma LiveMeansPolling(d: Dialog, e: Event)
    requires WellFormed(d) && e.PollReply? && Live(d, e)
    ensures d.state == Polling && d.failures < 3
  {
  }
}
