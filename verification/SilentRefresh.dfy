/**
 * The dashboard's silent refresh: any number of concurrent requests, one module-level refresh
 * promise, one stored auth bundle, and a server that rotates single-use refresh tokens.
 * Everything between two network events runs without interruption, so each event is one step.
 * Tokens are numbered in the order the server issues them.
 */
module SilentRefresh {
  import opened JsText

  datatype Bundle = Bundle(access: nat, refresh: Option<nat>)

  datatype Phase =
    | Idle
    | Sent(retry: bool, token: Option<nat>)
    | Waiting(post: nat, starter: bool)
    | Done(ok: bool)

  /** `sends` counts sends of the path, `refreshes` refreshes joined or started, `awaited` the token awaited. */
  datatype Request = Request(phase: Phase, sends: nat, refreshes: nat, awaited: Option<nat>)

  /** The client's view of one refresh POST. */
  datatype Outcome = Pending | Saved(access: nat) | Failed

  /** One POST to `/v1/auth/refresh`: the token sent, whether the server has dealt with it, what it answered. */
  datatype Post = Post(token: nat, handled: bool, reply: Option<Bundle>, outcome: Outcome)

  datatype State = State(
    store: Option<Bundle>,
    promise: Option<nat>,
    requests: seq<Request>,
    posts: seq<Post>,
    current: nat)  // the refresh token the server will still exchange; lower ones are rotated out

  datatype Answer = Ok | Unauthorized | OtherError

  datatype Step =
    | Send(r: nat)
    | Receive(r: nat, answer: Answer)
    | Handle(p: nat, accept: bool)
    | Deliver(p: nat)
    | Lose(p: nat)
    | Resume(r: nat)

  predicate Enabled(s: State, e: Step) {
    match e
    case Send(r) => r < |s.requests| && s.requests[r].phase.Idle?
    case Receive(r, _) => r < |s.requests| && s.requests[r].phase.Sent?
    case Handle(p, _) => p < |s.posts| && !s.posts[p].handled
    case Deliver(p) => p < |s.posts| && s.posts[p].handled && s.posts[p].outcome.Pending?
    case Lose(p) => p < |s.posts| && s.posts[p].outcome.Pending?
    case Resume(r) =>
      && r < |s.requests| && s.requests[r].phase.Waiting?
      && s.requests[r].phase.post < |s.posts| && !s.posts[s.requests[r].phase.post].outcome.Pending?
  }

  function AccessToken(s: State): Option<nat> {
    if s.store.Some? then Some(s.store.value.access) else None
  }

  /** `fetch` with whatever token is stored at that moment. */
  function SendNow(s: State, r: nat, retry: bool): State
    requires r < |s.requests|
  {
    var q := s.requests[r];
    s.(requests := s.requests[r := q.(phase := Sent(retry, AccessToken(s)), sends := q.sends + 1)])
  }

  function SetPhase(s: State, r: nat, phase: Phase): State
    requires r < |s.requests|
  {
    s.(requests := s.requests[r := s.requests[r].(phase := phase)])
  }

  function ClearAndFail(s: State, r: nat): State
    requires r < |s.requests|
  {
    SetPhase(s, r, Done(false)).(store := None)
  }

  /** `refreshAccessToken` up to its first await: join, give up, or start. */
  function EnterRefresh(s: State, r: nat): State
    requires r < |s.requests|
  {
    var q := s.requests[r];
    if s.promise.Some? then
      s.(requests := s.requests[r := q.(phase := Waiting(s.promise.value, false), refreshes := q.refreshes + 1)])
    else if s.store.None? || s.store.value.refresh.None? then
      ClearAndFail(s, r)
    else
      s.(requests := s.requests[r := q.(phase := Waiting(|s.posts|, true), refreshes := q.refreshes + 1)],
         posts := s.posts + [Post(s.store.value.refresh.value, false, None, Pending)],
         promise := Some(|s.posts|))
  }

  function OnAnswer(s: State, r: nat, answer: Answer): State
    requires r < |s.requests| && s.requests[r].phase.Sent?
  {
    if answer.Ok? then SetPhase(s, r, Done(true))
    else if s.requests[r].phase.retry then ClearAndFail(s, r)
    else if answer.Unauthorized? then EnterRefresh(s, r)
    else SetPhase(s, r, Done(false))
  }

  /** The server exchanges the current token once, or refuses. */
  function ServerHandles(s: State, p: nat, accept: bool): State
    requires p < |s.posts|
  {
    if accept && s.posts[p].token == s.current then
      s.(current := s.current + 1,
         posts := s.posts[p := s.posts[p].(handled := true, reply := Some(Bundle(s.current + 1, Some(s.current + 1))))])
    else s.(posts := s.posts[p := s.posts[p].(handled := true)])
  }

  function OnRefreshReply(s: State, p: nat): State
    requires p < |s.posts|
  {
    match s.posts[p].reply
    case Some(bundle) =>
      s.(store := Some(bundle), posts := s.posts[p := s.posts[p].(outcome := Saved(bundle.access))])
    case None => s.(posts := s.posts[p := s.posts[p].(outcome := Failed)])
  }

  /** A waiter continues; the one that started the refresh nulls the promise first. */
  function OnSettled(s: State, r: nat): State
    requires Enabled(s, Resume(r))
  {
    var phase := s.requests[r].phase;
    var s1 := if phase.starter then s.(promise := None) else s;
    match s.posts[phase.post].outcome
    case Failed => ClearAndFail(s1, r)
    case Saved(access) =>
      SendNow(s1.(requests := s1.requests[r := s1.requests[r].(awaited := Some(access))]), r, true)
  }

  function Apply(s: State, e: Step): State
    requires Enabled(s, e)
  {
    match e
    case Send(r) => SendNow(s, r, false)
    case Receive(r, answer) => OnAnswer(s, r, answer)
    case Handle(p, accept) => ServerHandles(s, p, accept)
    case Deliver(p) => OnRefreshReply(s, p)
    case Lose(p) => s.(posts := s.posts[p := s.posts[p].(outcome := Failed)])
    case Resume(r) => OnSettled(s, r)
  }

  function Init(store: Option<Bundle>, n: nat): State {
    State(store, None, seq(n, _ => Request(Idle, 0, 0, None)), [], 0)
  }

  /** A login leaves no bundle, or one whose refresh token, if any, is the server's current one. */
  predicate FreshLogin(store: Option<Bundle>) {
    store.Some? ==> store.value.access == 0 && (store.value.refresh == None || store.value.refresh == Some(0))
  }

  /** No session, one without a refresh token, or one with both tokens. */
  lemma FreshLoginsAre(store: Option<Bundle>)
    ensures FreshLogin(store) <==> store in {None, Some(Bundle(0, None)), Some(Bundle(0, Some(0)))}
  {
  }

  predicate IsRun(s: State, steps: seq<Step>)
    decreases |steps|, 0
  {
    steps == [] ||
    (IsRun(s, steps[..|steps| - 1]) && Enabled(End(s, steps[..|steps| - 1]), steps[|steps| - 1]))
  }

  function End(s: State, steps: seq<Step>): State
    requires IsRun(s, steps)
    decreases |steps|, 1
  {
    if steps == [] then s else Apply(End(s, steps[..|steps| - 1]), steps[|steps| - 1])
  }

  // ---- the client, as it changes its state ------------------------------------------------

  class Tab {
    var store: Option<Bundle>
    var promise: Option<nat>
    var requests: seq<Request>
    var posts: seq<Post>
    ghost var current: nat

    ghost function View(): State
      reads this
    {
      State(store, promise, requests, posts, current)
    }

    method Fetch(r: nat, retry: bool)
      requires r < |requests|
      modifies this
      ensures View() == SendNow(old(View()), r, retry)
      ensures requests[r].phase == Sent(retry, AccessToken(View())) && requests[r].sends == old(requests[r].sends) + 1
      ensures store == old(store) && promise == old(promise) && posts == old(posts)
      ensures |requests| == old(|requests|)
      ensures forall q :: 0 <= q < |requests| && q != r ==> requests[q] == old(requests[q])
    {
      var token := if store.Some? then Some(store.value.access) else None;
      requests := requests[r := requests[r].(phase := Sent(retry, token), sends := requests[r].sends + 1)];
    }

    method ClearAuth(r: nat)
      requires r < |requests|
      modifies this
      ensures View() == ClearAndFail(old(View()), r)
      ensures store == None && requests[r].phase == Done(false) && promise == old(promise) && posts == old(posts)
      ensures |requests| == old(|requests|)
      ensures forall q :: 0 <= q < |requests| && q != r ==> requests[q] == old(requests[q])
    {
      store := None;
      requests := requests[r := requests[r].(phase := Done(false))];
    }

    method RefreshAccessToken(r: nat)
      requires r < |requests|
      modifies this
      ensures View() == EnterRefresh(old(View()), r)
      ensures promise == old(promise) || (old(promise) == None && promise == Some(old(|posts|)))
      ensures |posts| > old(|posts|) <==> old(promise == None && store.Some? && store.value.refresh.Some?)
    {
      var q := requests[r];
      if promise.Some? {
        requests := requests[r := q.(phase := Waiting(promise.value, false), refreshes := q.refreshes + 1)];
        return;
      }
      if store.None? || store.value.refresh.None? {
        ClearAuth(r);
        return;
      }
      promise := Some(|posts|);
      requests := requests[r := q.(phase := Waiting(|posts|, true), refreshes := q.refreshes + 1)];
      posts := posts + [Post(store.value.refresh.value, false, None, Pending)];
    }

    method HandleAnswer(r: nat, answer: Answer)
      requires Enabled(View(), Receive(r, answer))
      modifies this
      ensures View() == Apply(old(View()), Receive(r, answer))
    {
      var retry := requests[r].phase.retry;
      if answer.Unauthorized? && !retry {
        RefreshAccessToken(r);
        return;
      }
      if answer.Ok? {
        requests := requests[r := requests[r].(phase := Done(true))];
        return;
      }
      // A retry's failure of any kind is swallowed by the first attempt's catch, which tears down.
      if retry {
        ClearAuth(r);
      } else {
        requests := requests[r := requests[r].(phase := Done(false))];
      }
    }

    method HandleRefreshReply(p: nat)
      requires Enabled(View(), Deliver(p))
      modifies this
      ensures View() == Apply(old(View()), Deliver(p))
    {
      match posts[p].reply {
        case Some(bundle) =>
          store := Some(bundle);
          posts := posts[p := posts[p].(outcome := Saved(bundle.access))];
        case None =>
          posts := posts[p := posts[p].(outcome := Failed)];
      }
    }

    method ContinueWaiter(r: nat)
      requires Enabled(View(), Resume(r))
      modifies this
      ensures View() == Apply(old(View()), Resume(r))
    {
      var post, starter := requests[r].phase.post, requests[r].phase.starter;
      if starter {
        promise := None;
      }
      match posts[post].outcome {
        case Failed =>
          ClearAuth(r);
        case Saved(access) =>
          requests := requests[r := requests[r].(awaited := Some(access))];
          Fetch(r, true);
      }
    }
  }

  // ---- the invariant ----------------------------------------------------------------------

  predicate StoreOk(s: State) {
    s.store.Some? ==>
      && s.store.value.access <= s.current
      && (s.store.value.refresh.Some? && s.store.value.refresh.value != s.current ==>
            s.promise.Some? && s.promise.value < |s.posts|
            && s.posts[s.promise.value].token == s.store.value.refresh.value
            && !s.posts[s.promise.value].outcome.Saved?)
  }

  /** The promise is the last POST; only it can be pending or failed without the store being empty. */
  predicate PostsOk(s: State) {
    && (s.promise.Some? ==> |s.posts| > 0 && s.promise.value == |s.posts| - 1)
    && (forall p :: 0 <= p < |s.posts| ==> PostOk(s, p))
    && (forall p, q :: 0 <= p < q < |s.posts| ==> s.posts[p].token < s.posts[q].token)
  }

  predicate PostOk(s: State, p: nat)
    requires p < |s.posts|
  {
    var post := s.posts[p];
    && post.token <= s.current
    && (post.reply.Some? ==> post.handled && post.token < post.reply.value.access <= s.current
                             && post.reply.value.refresh == Some(post.reply.value.access))
    && (post.outcome.Pending? ==>
          && s.promise == Some(p)
          && (post.reply.None? ==> post.token == s.current)
          && (post.reply.Some? ==> post.reply.value.access == s.current))
    && (post.outcome.Failed? ==> p == |s.posts| - 1 && (s.promise == Some(p) || s.store == None))
    && (post.outcome.Saved? ==>
          && post.token < post.outcome.access <= s.current
          && (s.store.Some? ==> s.store.value.access >= post.outcome.access))
  }

  predicate RequestOk(s: State, r: nat)
    requires r < |s.requests|
  {
    var q := s.requests[r];
    match q.phase
    case Idle => q.sends == 0 && q.refreshes == 0
    case Sent(false, _) => q.sends == 1 && q.refreshes == 0
    case Sent(true, token) =>
      q.sends == 2 && q.refreshes == 1 && q.awaited.Some? && (token.Some? ==> token.value >= q.awaited.value)
    case Waiting(post, starter) =>
      q.sends == 1 && q.refreshes == 1 && post < |s.posts| && (starter ==> s.promise == Some(post))
    case Done(_) => q.sends <= 2 && q.refreshes <= 1 && (q.sends == 2 ==> q.refreshes == 1)
  }

  ghost predicate RequestsOk(s: State) {
    && (forall r :: 0 <= r < |s.requests| ==> RequestOk(s, r))
    && (s.promise.Some? ==> exists r :: 0 <= r < |s.requests| && s.requests[r].phase == Waiting(s.promise.value, true))
    && (forall q, r :: 0 <= q < r < |s.requests| && s.requests[q].phase.Waiting? && s.requests[r].phase.Waiting?
          ==> !(s.requests[q].phase.starter && s.requests[r].phase.starter))
  }

  ghost predicate Inv(s: State) {
    StoreOk(s) && PostsOk(s) && RequestsOk(s)
  }

  lemma InitKeepsInv(store: Option<Bundle>, n: nat)
    requires FreshLogin(store)
    ensures Inv(Init(store, n))
  {
  }

  /** Changing a request that did not start the live refresh keeps its starter in place. */
  lemma KeepStarter(s: State, t: State, r: nat)
    requires RequestsOk(s) && r < |s.requests| == |t.requests| && t.promise == s.promise
    requires forall q :: 0 <= q < |s.requests| && q != r ==> t.requests[q] == s.requests[q]
    requires s.promise.Some? ==> s.requests[r].phase != Waiting(s.promise.value, true)
    ensures t.promise.Some? ==>
      exists q :: 0 <= q < |t.requests| && t.requests[q].phase == Waiting(t.promise.value, true)
  {
    if s.promise.Some? {
      var q :| 0 <= q < |s.requests| && s.requests[q].phase == Waiting(s.promise.value, true);
      assert t.requests[q].phase == Waiting(t.promise.value, true);
    }
  }

  /** A request step that leaves the promise alone and keeps its own request in order. */
  lemma RequestStepKeeps(s: State, t: State, r: nat)
    requires Inv(s) && r < |s.requests| == |t.requests| && t.promise == s.promise && t.posts == s.posts
    requires forall q :: 0 <= q < |s.requests| && q != r ==> t.requests[q] == s.requests[q]
    requires RequestOk(t, r) && !(t.requests[r].phase.Waiting? && t.requests[r].phase.starter)
    requires s.promise.Some? ==> s.requests[r].phase != Waiting(s.promise.value, true)
    ensures RequestsOk(t)
  {
    KeepStarter(s, t, r);
    forall q | 0 <= q < |t.requests| ensures RequestOk(t, q) { assert RequestOk(s, q); }
  }

  /** Clearing the store never disturbs the refreshes. */
  lemma ClearKeepsPosts(s: State, t: State)
    requires PostsOk(s) && t.posts == s.posts && t.promise == s.promise && t.current == s.current
    requires t.store == s.store || t.store == None
    ensures PostsOk(t)
  {
    forall p | 0 <= p < |t.posts| ensures PostOk(t, p) { assert PostOk(s, p); }
  }

  lemma SendKeepsInv(s: State, r: nat)
    requires Inv(s) && Enabled(s, Send(r))
    ensures Inv(Apply(s, Send(r)))
  {
    var t := Apply(s, Send(r));
    assert RequestOk(s, r);
    RequestStepKeeps(s, t, r);
    ClearKeepsPosts(s, t);
  }

  lemma ReceiveKeepsInv(s: State, r: nat, answer: Answer)
    requires Inv(s) && Enabled(s, Receive(r, answer))
    ensures Inv(Apply(s, Receive(r, answer)))
  {
    var t := Apply(s, Receive(r, answer));
    assert RequestOk(s, r);
    if |t.posts| == |s.posts| {
      RequestStepKeeps(s, t, r);
      ClearKeepsPosts(s, t);
    } else {
      StartKeepsInv(s, r);
    }
  }

  /** The one step that posts a refresh token: it posts the server's current one. */
  lemma StartKeepsInv(s: State, r: nat)
    requires Inv(s) && r < |s.requests| && s.requests[r].phase.Sent? && !s.requests[r].phase.retry
    requires s.promise == None && s.store.Some? && s.store.value.refresh.Some?
    ensures Inv(EnterRefresh(s, r))
    ensures s.store.value.refresh == Some(s.current)
    ensures forall p :: 0 <= p < |s.posts| ==> s.posts[p].token < s.current
  {
    var t := EnterRefresh(s, r);
    forall p | 0 <= p < |s.posts| ensures PostOk(t, p) && s.posts[p].token < s.current { assert PostOk(s, p); }
    assert PostOk(t, |s.posts|);
    assert t.requests[r].phase == Waiting(t.promise.value, true);
    forall q | 0 <= q < |t.requests|
      ensures RequestOk(t, q) && (q != r && t.requests[q].phase.Waiting? ==> !t.requests[q].phase.starter)
    {
      assert RequestOk(s, q);
    }
  }

  lemma HandleKeepsInv(s: State, p: nat, accept: bool)
    requires Inv(s) && Enabled(s, Handle(p, accept))
    ensures Inv(Apply(s, Handle(p, accept)))
  {
    var t := Apply(s, Handle(p, accept));
    assert PostOk(s, p);
    forall q | 0 <= q < |t.posts| ensures PostOk(t, q) { assert PostOk(s, q); }
    forall q | 0 <= q < |t.requests| ensures RequestOk(t, q) { assert RequestOk(s, q); }
  }

  lemma DeliverKeepsInv(s: State, p: nat)
    requires Inv(s) && Enabled(s, Deliver(p))
    ensures Inv(Apply(s, Deliver(p)))
  {
    var t := Apply(s, Deliver(p));
    assert PostOk(s, p);
    forall q | 0 <= q < |t.posts| ensures PostOk(t, q) { assert PostOk(s, q); }
    forall q | 0 <= q < |t.requests| ensures RequestOk(t, q) { assert RequestOk(s, q); }
  }

  lemma LoseKeepsInv(s: State, p: nat)
    requires Inv(s) && Enabled(s, Lose(p))
    ensures Inv(Apply(s, Lose(p)))
  {
    var t := Apply(s, Lose(p));
    assert PostOk(s, p);
    forall q | 0 <= q < |t.posts| ensures PostOk(t, q) { assert PostOk(s, q); }
    forall q | 0 <= q < |t.requests| ensures RequestOk(t, q) { assert RequestOk(s, q); }
  }

  lemma ResumeKeepsPosts(s: State, r: nat)
    requires Inv(s) && Enabled(s, Resume(r))
    ensures StoreOk(Apply(s, Resume(r))) && PostsOk(Apply(s, Resume(r)))
  {
    var t := Apply(s, Resume(r));
    assert RequestOk(s, r);
    assert PostOk(s, s.requests[r].phase.post);
    hide RequestsOk, RequestOk;
    forall q | 0 <= q < |t.posts| ensures PostOk(t, q) { assert PostOk(s, q); }
  }

  lemma ResumeKeepsRequests(s: State, r: nat)
    requires Inv(s) && Enabled(s, Resume(r))
    ensures RequestsOk(Apply(s, Resume(r)))
  {
    var t := Apply(s, Resume(r));
    assert PostOk(s, s.requests[r].phase.post);
    hide StoreOk, PostsOk;
    assert RequestOk(s, r);
    forall q | 0 <= q < |t.requests| ensures RequestOk(t, q) { assert RequestOk(s, q); }
    if !s.requests[r].phase.starter { KeepStarter(s, t, r); }
  }

  lemma ResumeKeepsInv(s: State, r: nat)
    requires Inv(s) && Enabled(s, Resume(r))
    ensures Inv(Apply(s, Resume(r)))
  {
    ResumeKeepsPosts(s, r);
    ResumeKeepsRequests(s, r);
    hide StoreOk, PostsOk, RequestsOk, Apply, Enabled;
  }

  lemma StepKeepsInv(s: State, e: Step)
    requires Inv(s) && Enabled(s, e)
    ensures Inv(Apply(s, e))
  {
    match e
    case Send(r) => SendKeepsInv(s, r);
    case Receive(r, answer) => ReceiveKeepsInv(s, r, answer);
    case Handle(p, accept) => HandleKeepsInv(s, p, accept);
    case Deliver(p) => DeliverKeepsInv(s, p);
    case Lose(p) => LoseKeepsInv(s, p);
    case Resume(r) => ResumeKeepsInv(s, r);
  }

  lemma {:induction false} RunKeepsInv(store: Option<Bundle>, n: nat, steps: seq<Step>)
    requires FreshLogin(store) && IsRun(Init(store, n), steps)
    ensures Inv(End(Init(store, n), steps))
    ensures |End(Init(store, n), steps).requests| == n
  {
    hide Inv, Apply, Enabled;
    var s := Init(store, n);
    if steps == [] {
      InitKeepsInv(store, n);
    } else {
      var before, e := steps[..|steps| - 1], steps[|steps| - 1];
      RunKeepsInv(store, n, before);
      StepKeepsInv(End(s, before), e);
      StepKeepsRequests(End(s, before), e);
    }
  }

  lemma StepKeepsRequests(s: State, e: Step)
    requires Enabled(s, e)
    ensures |Apply(s, e).requests| == |s.requests|
  {
  }

  // ---- what holds in every reachable state ------------------------------------------------

  /** At most one refresh is in flight, and with none in flight the stored refresh token is the live one. */
  lemma SingleFlight(store: Option<Bundle>, n: nat, steps: seq<Step>)
    requires FreshLogin(store) && IsRun(Init(store, n), steps)
    ensures var s := End(Init(store, n), steps);
      && (forall p, q :: 0 <= p < q < |s.posts| ==> s.posts[p].outcome.Pending? ==> !s.posts[q].outcome.Pending?)
      && (forall p :: 0 <= p < |s.posts| && s.posts[p].outcome.Pending? ==> s.promise == Some(p))
      && (s.promise == None && s.store.Some? && s.store.value.refresh.Some? ==>
            s.store.value.refresh.value == s.current)
  {
    hide IsRun, End, Init;
    RunKeepsInv(store, n, steps);
    var s := End(Init(store, n), steps);
    forall p | 0 <= p < |s.posts| && s.posts[p].outcome.Pending? ensures s.promise == Some(p) { assert PostOk(s, p); }
  }

  /** A promise never outlives the request that started it: once all are answered, none is left behind. */
  lemma NoZombiePromise(store: Option<Bundle>, n: nat, steps: seq<Step>)
    requires FreshLogin(store) && IsRun(Init(store, n), steps)
    ensures var s := End(Init(store, n), steps);
      && (s.promise.Some? ==>
            exists r :: 0 <= r < |s.requests| && s.requests[r].phase == Waiting(s.promise.value, true))
      && ((forall r :: 0 <= r < |s.requests| ==> s.requests[r].phase.Done?) ==> s.promise == None)
  {
    hide IsRun, End, Init;
    RunKeepsInv(store, n, steps);
  }

  /** Each refresh token is posted at most once, and at the moment it is posted the server still honours it. */
  lemma TokensAreSingleUse(store: Option<Bundle>, n: nat, steps: seq<Step>, e: Step)
    requires FreshLogin(store) && IsRun(Init(store, n), steps)
    requires Enabled(End(Init(store, n), steps), e)
    ensures var s := End(Init(store, n), steps); var t := Apply(s, e);
      && (forall p, q :: 0 <= p < q < |s.posts| ==> s.posts[p].token != s.posts[q].token)
      && |s.posts| <= |t.posts| <= |s.posts| + 1
      && (|t.posts| > |s.posts| ==>
            && t.posts[|s.posts|].token == s.current
            && (forall p :: 0 <= p < |s.posts| ==> s.posts[p].token != s.current && !s.posts[p].outcome.Pending?))
  {
    hide IsRun, End, Init;
    RunKeepsInv(store, n, steps);
    var s := End(Init(store, n), steps);
    var t := Apply(s, e);
    if |t.posts| > |s.posts| {
      StartKeepsInv(s, e.r);
      forall p | 0 <= p < |s.posts| ensures !s.posts[p].outcome.Pending? { assert PostOk(s, p); }
    }
  }

  /** A request sends its path at most twice, around at most one refresh. */
  lemma TwoSendsOneRefresh(store: Option<Bundle>, n: nat, steps: seq<Step>, r: nat)
    requires FreshLogin(store) && IsRun(Init(store, n), steps) && r < n
    ensures var s := End(Init(store, n), steps);
      r < |s.requests| && s.requests[r].sends <= 2 && s.requests[r].refreshes <= 1
      && (s.requests[r].sends == 2 ==> s.requests[r].refreshes == 1)
  {
    hide IsRun, End, Init;
    RunKeepsInv(store, n, steps);
    assert RequestOk(End(Init(store, n), steps), r);
  }

  /** A waiter of a refresh that succeeded retries with a token at least that new, or with an empty store. */
  lemma RetryIsAtLeastAsNew(store: Option<Bundle>, n: nat, steps: seq<Step>, r: nat)
    requires FreshLogin(store) && IsRun(Init(store, n), steps)
    requires Enabled(End(Init(store, n), steps), Resume(r))
    ensures var s := End(Init(store, n), steps); var t := Apply(s, Resume(r));
      var outcome := s.posts[s.requests[r].phase.post].outcome;
      if outcome.Saved? then
        && t.requests[r].phase.Sent? && t.requests[r].phase.retry
        && t.requests[r].phase.token == AccessToken(t)
        && (AccessToken(t) == None || AccessToken(t).value >= outcome.access)
      else t.store == None && t.requests[r].phase == Done(false)
  {
    hide IsRun, End, Init;
    RunKeepsInv(store, n, steps);
    var s := End(Init(store, n), steps);
    assert PostOk(s, s.requests[r].phase.post);
  }

  // ---- every run ends, and ends with every request answered -------------------------------

  function PhaseRank(q: Request): nat {
    match q.phase
    case Idle => 6
    case Sent(retry, _) => if retry then 1 else 5
    case Waiting(_, _) => 2
    case Done(_) => 0
  }

  function RequestsRank(requests: seq<Request>): nat {
    if requests == [] then 0 else PhaseRank(requests[0]) + RequestsRank(requests[1..])
  }

  function PostRank(p: Post): nat {
    (if p.handled then 0 else 1) + (if p.outcome.Pending? then 1 else 0)
  }

  function PostsRank(posts: seq<Post>): nat {
    if posts == [] then 0 else PostRank(posts[0]) + PostsRank(posts[1..])
  }

  function Rank(s: State): nat {
    RequestsRank(s.requests) + PostsRank(s.posts)
  }

  lemma {:induction false} RequestRankAt(requests: seq<Request>, r: nat, q: Request)
    requires r < |requests|
    ensures RequestsRank(requests[r := q]) == RequestsRank(requests) - PhaseRank(requests[r]) + PhaseRank(q)
  {
    if r > 0 {
      RequestRankAt(requests[1..], r - 1, q);
      assert requests[r := q][1..] == requests[1..][r - 1 := q];
    } else {
      assert requests[r := q][1..] == requests[1..];
    }
  }

  lemma {:induction false} PostRankAt(posts: seq<Post>, r: nat, q: Post)
    requires r < |posts|
    ensures PostsRank(posts[r := q]) == PostsRank(posts) - PostRank(posts[r]) + PostRank(q)
  {
    if r > 0 {
      PostRankAt(posts[1..], r - 1, q);
      assert posts[r := q][1..] == posts[1..][r - 1 := q];
    } else {
      assert posts[r := q][1..] == posts[1..];
    }
  }

  lemma {:induction false} PostRankSnoc(posts: seq<Post>, q: Post)
    ensures PostsRank(posts + [q]) == PostsRank(posts) + PostRank(q)
  {
    if posts != [] {
      PostRankSnoc(posts[1..], q);
      assert (posts + [q])[1..] == posts[1..] + [q];
    }
  }

  lemma RequestStepDescends(s: State, e: Step)
    requires Enabled(s, e) && (e.Send? || e.Receive? || e.Resume?)
    ensures Rank(Apply(s, e)) < Rank(s)
  {
    hide RequestsRank, PostsRank;
    var t := Apply(s, e);
    RequestRankAt(s.requests, e.r, t.requests[e.r]);
    assert t.requests == s.requests[e.r := t.requests[e.r]];
    if t.posts != s.posts { PostRankSnoc(s.posts, t.posts[|s.posts|]); }
  }

  lemma StepDescends(s: State, e: Step)
    requires Enabled(s, e)
    ensures Rank(Apply(s, e)) < Rank(s)
  {
    hide RequestsRank, PostsRank, OnAnswer, OnSettled, SendNow;
    if e.Handle? || e.Deliver? || e.Lose? {
      PostRankAt(s.posts, e.p, Apply(s, e).posts[e.p]);
    } else {
      RequestStepDescends(s, e);
    }
  }

  lemma {:induction false} InitialRank(n: nat, requests: seq<Request>)
    requires |requests| == n && forall r :: 0 <= r < n ==> requests[r].phase.Idle?
    ensures RequestsRank(requests) == 6 * n
  {
    if n > 0 { InitialRank(n - 1, requests[1..]); }
  }

  lemma {:induction false} RunsAreShort(s: State, steps: seq<Step>)
    requires IsRun(s, steps)
    ensures |steps| + Rank(End(s, steps)) <= Rank(s)
  {
    hide Apply, Enabled, Rank;
    if steps != [] {
      var before, e := steps[..|steps| - 1], steps[|steps| - 1];
      RunsAreShort(s, before);
      StepDescends(End(s, before), e);
    }
  }

  /** No interleaving of n requests takes more than 6 n steps. */
  lemma EveryRunEnds(store: Option<Bundle>, n: nat, steps: seq<Step>)
    requires IsRun(Init(store, n), steps)
    ensures |steps| <= 6 * n
  {
    hide IsRun, End;
    RunsAreShort(Init(store, n), steps);
    InitialRank(n, Init(store, n).requests);
  }

  /** Nothing deadlocks: while some request is unanswered the run goes on, so a longest run answers them all. */
  lemma NoRequestHangs(store: Option<Bundle>, n: nat, steps: seq<Step>, r: nat)
    requires FreshLogin(store) && IsRun(Init(store, n), steps) && r < n
    ensures var s := End(Init(store, n), steps);
      r < |s.requests| && (s.requests[r].phase.Done? || exists e :: Enabled(s, e))
  {
    hide IsRun, End, Init;
    RunKeepsInv(store, n, steps);
    var s := End(Init(store, n), steps);
    assert RequestOk(s, r);
    match s.requests[r].phase
    case Idle => assert Enabled(s, Send(r));
    case Sent(_, _) => assert Enabled(s, Receive(r, Ok));
    case Waiting(p, _) => assert Enabled(s, Lose(p)) || Enabled(s, Resume(r));
    case Done(_) =>
  }

  // ---- what each answer leads to ----------------------------------------------------------

  /** There is a refresh to join, or a token to start one with. */
  predicate CanRefresh(s: State) {
    s.promise.Some? || (s.store.Some? && s.store.value.refresh.Some?)
  }

  /** The answer is a 401, to a first send, and there is something to refresh with. */
  predicate AsksForRefresh(s: State, e: Step, r: nat)
    requires Enabled(s, e) && r < |s.requests|
  {
    e == Receive(r, Unauthorized) && !s.requests[r].phase.retry && CanRefresh(s)
  }

  /** A refresh is posted only for such an answer, and only with none under way to join. */
  lemma PostsExactly(s: State, e: Step)
    requires Enabled(s, e)
    ensures |Apply(s, e).posts| > |s.posts| <==> e.Receive? && AsksForRefresh(s, e, e.r) && s.promise == None
    ensures |Apply(s, e).posts| > |s.posts| ==>
      Apply(s, e).posts == s.posts + [Post(s.store.value.refresh.value, false, None, Pending)]
      && Apply(s, e).promise == Some(|s.posts|)
  {
  }

  /** A request joins or starts a refresh exactly on such an answer to it. */
  lemma WaitsExactly(s: State, e: Step, r: nat)
    requires Enabled(s, e) && r < |s.requests| && !s.requests[r].phase.Waiting?
    ensures r < |Apply(s, e).requests|
    ensures Apply(s, e).requests[r].phase.Waiting? <==> AsksForRefresh(s, e, r)
    ensures AsksForRefresh(s, e, r) && s.promise.Some? ==>
      Apply(s, e).requests[r].phase == Waiting(s.promise.value, false) && Apply(s, e).posts == s.posts
    ensures AsksForRefresh(s, e, r) && s.promise.None? ==> Apply(s, e).requests[r].phase == Waiting(|s.posts|, true)
  {
  }

  /** Every send, first or repeated, carries the access token stored at that moment, and none without a store. */
  lemma SendsCarryTheStoredToken(s: State, e: Step, r: nat)
    requires Enabled(s, e) && r < |s.requests| && |Apply(s, e).requests| == |s.requests|
    requires Apply(s, e).requests[r].sends != s.requests[r].sends
    ensures var q := Apply(s, e).requests[r];
      && q.sends == s.requests[r].sends + 1 && q.phase.Sent?
      && (q.phase.retry <==> e == Resume(r)) && (!q.phase.retry <==> e == Send(r))
      && (s.store.Some? ==> q.phase.token == Some(s.store.value.access))
      && (s.store.None? ==> q.phase.token == None)
  {
  }

  /** Any other failure of a first send ends that request and leaves everything else as it is. */
  lemma OtherErrorEndsTheRequest(s: State, r: nat)
    requires Enabled(s, Receive(r, OtherError)) && !s.requests[r].phase.retry
    ensures var t := Apply(s, Receive(r, OtherError));
      && t.store == s.store && t.promise == s.promise && t.posts == s.posts && t.current == s.current
      && |t.requests| == |s.requests| && t.requests[r].phase == Done(false)
      && forall q :: 0 <= q < |s.requests| && q != r ==> t.requests[q] == s.requests[q]
  {
  }

  /** After `steps[..k]`, step `k` brought request `r` such an answer. */
  predicate AskedAt(s: State, steps: seq<Step>, k: nat, r: nat)
    requires k < |steps|
  {
    && IsRun(s, steps[..k]) && Enabled(End(s, steps[..k]), steps[k]) && r < |End(s, steps[..k]).requests|
    && AsksForRefresh(End(s, steps[..k]), steps[k], r)
  }

  lemma StepCountsRefreshes(s: State, e: Step, r: nat)
    requires Enabled(s, e) && r < |s.requests|
    ensures r < |Apply(s, e).requests|
    ensures Apply(s, e).requests[r].refreshes == s.requests[r].refreshes + if AsksForRefresh(s, e, r) then 1 else 0
  {
  }

  /**
   * In every run a request has joined or started a refresh exactly when a first send of it was answered 401
   * while there was one to join or a token to start one with.
   */
  lemma {:induction false} RefreshesExactly(store: Option<Bundle>, n: nat, steps: seq<Step>, r: nat)
    requires IsRun(Init(store, n), steps) && r < n
    ensures var s := Init(store, n);
      && r < |End(s, steps).requests|
      && (End(s, steps).requests[r].refreshes > 0 <==> exists k :: 0 <= k < |steps| && AskedAt(s, steps, k, r))
  {
    hide Apply, Enabled, AsksForRefresh;
    var s := Init(store, n);
    if steps != [] {
      var m := |steps| - 1;
      var before, e := steps[..m], steps[m];
      RefreshesExactly(store, n, before, r);
      StepCountsRefreshes(End(s, before), e, r);
      forall k | 0 <= k < m ensures AskedAt(s, steps, k, r) == AskedAt(s, before, k, r) {
        assert steps[..k] == before[..k] && steps[k] == before[k];
      }
      AskedLast(s, steps, r);
    }
  }

  lemma AskedLast(s: State, steps: seq<Step>, r: nat)
    requires IsRun(s, steps) && steps != [] && r < |End(s, steps[..|steps| - 1]).requests|
    ensures AskedAt(s, steps, |steps| - 1, r) <==> AsksForRefresh(End(s, steps[..|steps| - 1]), steps[|steps| - 1], r)
  {
    hide Apply, Enabled, AsksForRefresh;
  }

  /** The step ends request `r` without success. */
  predicate FailsRequest(s: State, e: Step, r: nat)
    requires Enabled(s, e) && r < |s.requests|
  {
    || e == Receive(r, OtherError)
    || (e == Receive(r, Unauthorized) && !AsksForRefresh(s, e, r))
    || (e == Resume(r) && s.posts[s.requests[r].phase.post].outcome.Failed?)
  }

  lemma StepFails(s: State, e: Step, r: nat)
    requires Enabled(s, e) && r < |s.requests|
    ensures r < |Apply(s, e).requests|
    ensures Apply(s, e).requests[r].phase == Done(false) <==>
      s.requests[r].phase == Done(false) || FailsRequest(s, e, r)
  {
  }

  predicate FailedAt(s: State, steps: seq<Step>, k: nat, r: nat)
    requires k < |steps|
  {
    && IsRun(s, steps[..k]) && Enabled(End(s, steps[..k]), steps[k]) && r < |End(s, steps[..k]).requests|
    && FailsRequest(End(s, steps[..k]), steps[k], r)
  }

  /** In every run a request has failed exactly when one of these steps failed it. */
  lemma {:induction false} FailsExactly(store: Option<Bundle>, n: nat, steps: seq<Step>, r: nat)
    requires IsRun(Init(store, n), steps) && r < n
    ensures var s := Init(store, n);
      && r < |End(s, steps).requests|
      && (End(s, steps).requests[r].phase == Done(false) <==> exists k :: 0 <= k < |steps| && FailedAt(s, steps, k, r))
  {
    hide Apply, Enabled, FailsRequest;
    var s := Init(store, n);
    if steps != [] {
      var m := |steps| - 1;
      var before, e := steps[..m], steps[m];
      FailsExactly(store, n, before, r);
      StepFails(End(s, before), e, r);
      forall k | 0 <= k < m ensures FailedAt(s, steps, k, r) == FailedAt(s, before, k, r) {
        assert steps[..k] == before[..k] && steps[k] == before[k];
      }
      FailedLast(s, steps, r);
    }
  }

  lemma FailedLast(s: State, steps: seq<Step>, r: nat)
    requires IsRun(s, steps) && steps != [] && r < |End(s, steps[..|steps| - 1]).requests|
    ensures FailedAt(s, steps, |steps| - 1, r) <==> FailsRequest(End(s, steps[..|steps| - 1]), steps[|steps| - 1], r)
  {
    hide Apply, Enabled, FailsRequest;
  }

  lemma StepSucceeds(s: State, e: Step, r: nat)
    requires Enabled(s, e) && r < |s.requests|
    ensures r < |Apply(s, e).requests|
    ensures Apply(s, e).requests[r].phase == Done(true) <==> s.requests[r].phase == Done(true) || e == Receive(r, Ok)
  {
  }

  /** In every run a request has succeeded exactly when the server accepted one of its sends. */
  lemma {:induction false} SucceedsExactly(store: Option<Bundle>, n: nat, steps: seq<Step>, r: nat)
    requires IsRun(Init(store, n), steps) && r < n
    ensures var s := End(Init(store, n), steps);
      r < |s.requests| && (s.requests[r].phase == Done(true) <==> Receive(r, Ok) in steps)
  {
    hide Apply, Enabled;
    if steps != [] {
      var before, e := steps[..|steps| - 1], steps[|steps| - 1];
      SucceedsExactly(store, n, before, r);
      StepSucceeds(End(Init(store, n), before), e, r);
      assert steps == before + [e];
    }
  }

  // ---- what ends a session ----------------------------------------------------------------

  /** A first 401 with nothing to refresh with, any failed retry, or a failed refresh. */
  predicate EndsSession(s: State, e: Step)
    requires Enabled(s, e)
  {
    || (e.Receive? && s.requests[e.r].phase.retry && !e.answer.Ok?)
    || (e.Receive? && !s.requests[e.r].phase.retry && e.answer.Unauthorized?
        && s.promise == None && (s.store.None? || s.store.value.refresh.None?))
    || (e.Resume? && s.posts[s.requests[e.r].phase.post].outcome.Failed?)
  }

  /** A refresh reply that carries a bundle arrives. */
  predicate SavesSession(s: State, e: Step)
    requires Enabled(s, e)
  {
    e.Deliver? && s.posts[e.p].reply.Some?
  }

  lemma StepDecidesSession(s: State, e: Step)
    requires Enabled(s, e)
    ensures Apply(s, e).store.None? <==> EndsSession(s, e) || (s.store.None? && !SavesSession(s, e))
  {
  }

  /** The session was over after `k` steps: it never began, or the last of them ended it. */
  predicate OverAt(s: State, steps: seq<Step>, k: nat)
    requires k <= |steps|
  {
    if k == 0 then s.store.None?
    else
      && IsRun(s, steps[..k - 1]) && Enabled(End(s, steps[..k - 1]), steps[k - 1])
      && EndsSession(End(s, steps[..k - 1]), steps[k - 1])
  }

  predicate SavedAt(s: State, steps: seq<Step>, j: nat)
    requires j < |steps|
  {
    && IsRun(s, steps[..j]) && Enabled(End(s, steps[..j]), steps[j])
    && SavesSession(End(s, steps[..j]), steps[j])
  }

  /**
   * In every run the store is empty at the end exactly when the session was over at some point and nothing
   * was saved after it.
   */
  lemma {:induction false} SessionEndsExactly(s: State, steps: seq<Step>)
    requires IsRun(s, steps)
    ensures End(s, steps).store.None? <==>
      exists k :: 0 <= k <= |steps| && OverAt(s, steps, k) && forall j :: k <= j < |steps| ==> !SavedAt(s, steps, j)
  {
    hide Apply, Enabled, EndsSession, SavesSession;
    if steps == [] {
      assert OverAt(s, steps, 0) <==> s.store.None?;
    } else {
      var m := |steps| - 1;
      var before, e := steps[..m], steps[m];
      SessionEndsExactly(s, before);
      StepDecidesSession(End(s, before), e);
      forall k | 0 <= k <= m ensures OverAt(s, steps, k) == OverAt(s, before, k) {
        assert k > 0 ==> steps[..k - 1] == before[..k - 1] && steps[k - 1] == before[k - 1];
      }
      forall j | 0 <= j < m ensures SavedAt(s, steps, j) == SavedAt(s, before, j) {
        assert steps[..j] == before[..j] && steps[j] == before[j];
      }
      SnocDecides(s, steps);
    }
  }

  lemma SnocDecides(s: State, steps: seq<Step>)
    requires IsRun(s, steps) && steps != []
    ensures var m := |steps| - 1; var at, e := End(s, steps[..m]), steps[m];
      && (OverAt(s, steps, |steps|) <==> EndsSession(at, e))
      && (SavedAt(s, steps, m) <==> SavesSession(at, e))
  {
    hide Apply, Enabled, EndsSession, SavesSession;
  }

  lemma RunSnoc(s: State, steps: seq<Step>, e: Step)
    requires IsRun(s, steps) && Enabled(End(s, steps), e)
    ensures IsRun(s, steps + [e]) && End(s, steps + [e]) == Apply(End(s, steps), e)
  {
    hide Apply, Enabled;
    assert (steps + [e])[..|steps|] == steps;
  }

  function RefreshAndRetry(): seq<Step> {
    [Send(0)] + [Receive(0, Unauthorized)] + [Handle(0, true)] + [Deliver(0)] + [Resume(0)]
  }

  /** One request waits for the refresh it started, which the server has granted. */
  predicate GrantedUnread(s: State) {
    && |s.requests| == 1 && s.requests[0].phase == Waiting(0, true)
    && |s.posts| == 1 && s.posts[0].handled && s.posts[0].outcome == Pending
    && s.posts[0].reply == Some(Bundle(1, Some(1)))
  }

  lemma GrantedIsReached()
    ensures var s := Init(Some(Bundle(0, Some(0))), 1);
      var steps := [Send(0)] + [Receive(0, Unauthorized)] + [Handle(0, true)];
      IsRun(s, steps) && GrantedUnread(End(s, steps))
  {
    var s := Init(Some(Bundle(0, Some(0))), 1);
    assert IsRun(s, []) && End(s, []) == s;
    hide IsRun, End;
    RunSnoc(s, [], Send(0));
    assert [] + [Send(0)] == [Send(0)];
    RunSnoc(s, [Send(0)], Receive(0, Unauthorized));
    RunSnoc(s, [Send(0)] + [Receive(0, Unauthorized)], Handle(0, true));
  }

  lemma ErrorAfterGrant(s: State, steps: seq<Step>)
    requires IsRun(s, steps) && GrantedUnread(End(s, steps))
    ensures var retried := steps + [Deliver(0)] + [Resume(0)];
      && IsRun(s, retried) && End(s, retried).store == Some(Bundle(1, Some(1)))
      && IsRun(s, retried + [Receive(0, OtherError)]) && End(s, retried + [Receive(0, OtherError)]).store == None
  {
    hide IsRun, End;
    RunSnoc(s, steps, Deliver(0));
    RunSnoc(s, steps + [Deliver(0)], Resume(0));
    RunSnoc(s, steps + [Deliver(0)] + [Resume(0)], Receive(0, OtherError));
  }

  /** After a refresh that worked, an error other than 401 on the retried request still ends the session. */
  lemma ServerErrorEndsSession()
    ensures var s := Init(Some(Bundle(0, Some(0))), 1); var steps := RefreshAndRetry();
      && IsRun(s, steps) && End(s, steps).store == Some(Bundle(1, Some(1)))
      && IsRun(s, steps + [Receive(0, OtherError)])
      && End(s, steps + [Receive(0, OtherError)]).store == None
  {
    hide IsRun, End, Init, GrantedUnread;
    GrantedIsReached();
    ErrorAfterGrant(Init(Some(Bundle(0, Some(0))), 1), [Send(0)] + [Receive(0, Unauthorized)] + [Handle(0, true)]);
  }

  // ---- a session that comes back ----------------------------------------------------------

  function OneRefreshed(): seq<Step> {
    [Send(0)] + [Send(1)] + [Receive(0, Unauthorized)] + [Handle(0, true)]
  }

  function TwoRefreshes(): seq<Step> {
    OneRefreshed() + [Deliver(0)] + [Resume(0)] + [Receive(1, Unauthorized)]
  }

  /** Request 0's refresh has been handled, request 1 is still to be answered. */
  function Handled(): State {
    State(
      Some(Bundle(0, Some(0))), Some(0),
      [Request(Waiting(0, true), 1, 1, None), Request(Sent(false, Some(0)), 1, 0, None)],
      [Post(0, true, Some(Bundle(1, Some(1))), Pending)], 1)
  }

  /** Request 0 retries with the new token while request 1, answered late, waits for a second refresh. */
  function Overlap(): State {
    State(
      Some(Bundle(1, Some(1))), Some(1),
      [Request(Sent(true, Some(1)), 2, 1, Some(1)), Request(Waiting(1, true), 1, 1, None)],
      [Post(0, true, Some(Bundle(1, Some(1))), Saved(1)), Post(1, false, None, Pending)], 1)
  }

  /** Both requests are under way with the stored token. */
  function BothSent(): State {
    State(
      Some(Bundle(0, Some(0))), None,
      [Request(Sent(false, Some(0)), 1, 0, None), Request(Sent(false, Some(0)), 1, 0, None)], [], 0)
  }

  lemma BothSentIsReached()
    ensures IsRun(Init(Some(Bundle(0, Some(0))), 2), [Send(0)] + [Send(1)])
    ensures End(Init(Some(Bundle(0, Some(0))), 2), [Send(0)] + [Send(1)]) == BothSent()
  {
    var s := Init(Some(Bundle(0, Some(0))), 2);
    assert IsRun(s, []) && End(s, []) == s;
    hide IsRun, End;
    assert s.requests == [Request(Idle, 0, 0, None), Request(Idle, 0, 0, None)];
    RunSnoc(s, [], Send(0));
    assert [] + [Send(0)] == [Send(0)];
    RunSnoc(s, [Send(0)], Send(1));
  }

  lemma HandledIsReached()
    ensures IsRun(Init(Some(Bundle(0, Some(0))), 2), OneRefreshed())
    ensures End(Init(Some(Bundle(0, Some(0))), 2), OneRefreshed()) == Handled()
  {
    var s := Init(Some(Bundle(0, Some(0))), 2);
    BothSentIsReached();
    hide IsRun, End, Init;
    RunSnoc(s, [Send(0)] + [Send(1)], Receive(0, Unauthorized));
    RunSnoc(s, [Send(0)] + [Send(1)] + [Receive(0, Unauthorized)], Handle(0, true));
  }

  lemma OverlapIsReached()
    ensures IsRun(Init(Some(Bundle(0, Some(0))), 2), TwoRefreshes())
    ensures End(Init(Some(Bundle(0, Some(0))), 2), TwoRefreshes()) == Overlap()
  {
    var s := Init(Some(Bundle(0, Some(0))), 2);
    HandledIsReached();
    hide IsRun, End, OneRefreshed;
    RunSnoc(s, OneRefreshed(), Deliver(0));
    RunSnoc(s, OneRefreshed() + [Deliver(0)], Resume(0));
    RunSnoc(s, OneRefreshed() + [Deliver(0)] + [Resume(0)], Receive(1, Unauthorized));
  }

  /** A failed retry ends the session, and the reply of a refresh still in flight brings it back. */
  lemma LateReplyRestoresSession()
    ensures var s := Init(Some(Bundle(0, Some(0))), 2); var failed := TwoRefreshes() + [Receive(0, OtherError)];
      && IsRun(s, failed) && End(s, failed).store == None
      && IsRun(s, failed + [Handle(1, true)] + [Deliver(1)])
      && End(s, failed + [Handle(1, true)] + [Deliver(1)]).store == Some(Bundle(2, Some(2)))
  {
    var s := Init(Some(Bundle(0, Some(0))), 2);
    OverlapIsReached();
    hide IsRun, End, TwoRefreshes;
    RunSnoc(s, TwoRefreshes(), Receive(0, OtherError));
    RunSnoc(s, TwoRefreshes() + [Receive(0, OtherError)], Handle(1, true));
    RunSnoc(s, TwoRefreshes() + [Receive(0, OtherError)] + [Handle(1, true)], Deliver(1));
  }
}
