/** When a submission, a seal or a reveal succeeds (planrace/taskgen_v2.py:311-378), in any
    world and in any run: no refusal without a reason, and every reason named. */
module LifecycleMeaning {
  import opened Wrappers
  import opened Replay
  import opened Responses
  import opened Lifecycle

  /** Nothing stands against a response. */
  ghost predicate Acceptable(t: Setting, w: World, response: Response, request: Request, c: Context) {
    && w.state.phase == Open
    && c.now < t.task.public.spec.deadlineUnixMs
    && request.task == t.task.public
    && response.taskId == t.task.public.taskId
    && (forall r :: r in w.state.submissions ==> r.requestId != response.requestId)
    && Checks(t.crypto, response, request, c) == None
    && ResponseKey(response.minerHotkey, response.requestNonce, response.requestId) !in w.keys
    && |w.keys| < t.maxEntries
  }

  /** Exactly the responses that nothing stands against are accepted; they are appended,
      their keys are stored, and nothing else changes. */
  lemma SubmitAcceptedIff(t: Setting, w: World, response: Response, request: Request, c: Context)
    ensures var (w', o) := Next(t, w, Submit(response, request, c));
            && (o.Accepted? <==> Acceptable(t, w, response, request, c))
            && var key := ResponseKey(response.minerHotkey, response.requestNonce, response.requestId);
               w' == if o.Accepted? then World(State(Open, w.state.submissions + [response]), w.keys + {key}) else w
  {
    hide Checks;
  }

  /** What a refused submission failed, by its error. */
  ghost predicate SubmitFails(
      t: Setting, w: World, response: Response, request: Request, c: Context, error: LifecycleError)
  {
    var open := w.state.phase == Open;
    var timely := open && c.now < t.task.public.spec.deadlineUnixMs;
    var ours := timely && request.task == t.task.public;
    var names := ours && response.taskId == t.task.public.taskId;
    var first := names && forall r :: r in w.state.submissions ==> r.requestId != response.requestId;
    match error
    case SubmissionsSealed => !open
    case SubmissionAfterDeadline => open && !timely
    case RequestNotForLifecycleTask => timely && !ours
    case WrongTask => ours && !names
    case DuplicateRequest => names && !first
    case NotVerified(reason) =>
      first && if Checks(t.crypto, response, request, c).Some?
                 then reason == Checks(t.crypto, response, request, c).value
                 else reason == ResponseReplayed
    case _ => false
  }

  lemma SubmitRefusedFor(t: Setting, w: World, response: Response, request: Request, c: Context)
    ensures var o := Next(t, w, Submit(response, request, c)).1;
            o.Accepted? || (o.Refused? && SubmitFails(t, w, response, request, c, o.error))
  {
    hide Checks;
  }

  /** A seal succeeds from the deadline on, unless the secret is out; then submissions are
      closed and handed over. */
  lemma SealSucceedsIff(t: Setting, w: World, now: int)
    ensures var (w', o) := Next(t, w, Seal(now));
            var succeeds := now >= t.task.public.spec.deadlineUnixMs && w.state.phase != Revealed;
            && (o.SealedWith? <==> succeeds)
            && (succeeds ==> o == SealedWith(w.state.submissions)
                             && w' == World(State(Sealed, w.state.submissions), w.keys))
            && (!succeeds ==> w' == w
                              && o == Refused(if now < t.task.public.spec.deadlineUnixMs then SealBeforeDeadline
                                              else AlreadyRevealed))
  {
  }

  /** A reveal succeeds from the deadline on once submissions are closed; then the secret of
      the task is handed over. */
  lemma RevealSucceedsIff(t: Setting, w: World, now: int)
    ensures var (w', o) := Next(t, w, RevealTask(now));
            var succeeds := now >= t.task.public.spec.deadlineUnixMs && w.state.phase != Open;
            && (o.RevealedAs? <==> succeeds)
            && (succeeds ==> o == RevealedAs(t.task.opening)
                             && w' == World(State(Revealed, w.state.submissions), w.keys))
            && (!succeeds ==> w' == w
                              && o == Refused(if now < t.task.public.spec.deadlineUnixMs then RevealBeforeDeadline
                                              else SubmissionsNotSealed))
  {
  }

  // ----- runs ----------------------------------------------------------------

  /** The key that an event has put into the replay store. */
  ghost predicate Puts(e: Event, o: Outcome, key: ResponseKey) {
    || (e.Submit? && o.Accepted?
        && key == ResponseKey(e.response.minerHotkey, e.response.requestNonce, e.response.requestId))
    || (e.Elsewhere? && o == Admitted(true) && key == e.key)
  }

  lemma StepStores(t: Setting, w: World, e: Event, key: ResponseKey)
    ensures key in Next(t, w, e).0.keys <==> key in w.keys || Puts(e, Next(t, w, e).1, key)
  {
    hide Checks;
    if e.Submit? { SubmitAcceptedIff(t, w, e.response, e.request, e.context); }
  }

  /** The replay store holds what it held at first and what the run has put there. */
  lemma {:induction false} StoreHolds(
      t: Setting, keys: set<ResponseKey>, events: seq<Event>, n: nat, key: ResponseKey)
    requires n <= |events|
    ensures key in After(t, keys, events, n).keys <==>
            key in keys || exists i :: 0 <= i < n && Puts(events[i], OutcomeAt(t, keys, events, i), key)
  {
    hide Next, Puts;
    if n > 0 {
      StoreHolds(t, keys, events, n - 1, key);
      StepOf(t, keys, events, n - 1);
      StepStores(t, After(t, keys, events, n - 1), events[n - 1], key);
    }
  }

  /** Submissions are open until the first seal. */
  lemma {:induction false} OpenUntilSealed(t: Setting, keys: set<ResponseKey>, events: seq<Event>, n: nat)
    requires n <= |events|
    ensures After(t, keys, events, n).state.phase == Open <==>
            forall i :: 0 <= i < n ==> !OutcomeAt(t, keys, events, i).SealedWith?
  {
    hide Next;
    if n > 0 {
      OpenUntilSealed(t, keys, events, n - 1);
      StepOf(t, keys, events, n - 1);
      OutcomeMeans(t, After(t, keys, events, n - 1), events[n - 1]);
      StepKeeps(t, After(t, keys, events, n - 1), events[n - 1]);
    }
  }

  /** The stored submissions are those that the run has accepted. */
  lemma {:induction false} SubmissionsAre(
      t: Setting, keys: set<ResponseKey>, events: seq<Event>, n: nat, response: Response)
    requires n <= |events|
    ensures response in After(t, keys, events, n).state.submissions <==>
            exists i :: 0 <= i < n && events[i].Submit? && events[i].response == response
                        && OutcomeAt(t, keys, events, i).Accepted?
  {
    hide Next;
    if n == 0 {
      NothingAtStart(t, keys, events);
    } else {
      SubmissionsAre(t, keys, events, n - 1, response);
      StepOf(t, keys, events, n - 1);
      OutcomeMeans(t, After(t, keys, events, n - 1), events[n - 1]);
    }
  }

  /** In any run, a submission is accepted exactly when no seal came before it, it is in
      time, it answers a request for this task, no response to the same request was accepted
      before, it passes the checks, its key was neither in the store at first nor put there
      since, and the store is not full. */
  ghost predicate AcceptableInRun(t: Setting, keys: set<ResponseKey>, events: seq<Event>, n: nat)
    requires n < |events| && events[n].Submit?
  {
    var response, request, c := events[n].response, events[n].request, events[n].context;
    && (forall i :: 0 <= i < n ==> !OutcomeAt(t, keys, events, i).SealedWith?)
    && c.now < t.task.public.spec.deadlineUnixMs
    && request.task == t.task.public && response.taskId == t.task.public.taskId
    && (forall i :: 0 <= i < n && events[i].Submit? && OutcomeAt(t, keys, events, i).Accepted? ==>
          events[i].response.requestId != response.requestId)
    && Checks(t.crypto, response, request, c) == None
    && ResponseKey(response.minerHotkey, response.requestNonce, response.requestId) !in keys
    && (forall i :: 0 <= i < n ==>
          !Puts(events[i], OutcomeAt(t, keys, events, i),
                ResponseKey(response.minerHotkey, response.requestNonce, response.requestId)))
    && |After(t, keys, events, n).keys| < t.maxEntries
  }

  lemma AcceptedInRunIff(t: Setting, keys: set<ResponseKey>, events: seq<Event>, n: nat)
    requires n < |events| && events[n].Submit?
    ensures OutcomeAt(t, keys, events, n).Accepted? <==> AcceptableInRun(t, keys, events, n)
  {
    var w, e := After(t, keys, events, n), events[n];
    var key := ResponseKey(e.response.minerHotkey, e.response.requestNonce, e.response.requestId);
    StepOf(t, keys, events, n);
    SubmitAcceptedIff(t, w, e.response, e.request, e.context);
    OpenUntilSealed(t, keys, events, n);
    StoreHolds(t, keys, events, n, key);
    NoneRequested(t, keys, events, n, e.response.requestId);
    hide Next, Puts, Checks, After, OutcomeAt;
  }

  lemma NoneRequested(t: Setting, keys: set<ResponseKey>, events: seq<Event>, n: nat, id: string)
    requires n <= |events|
    ensures (forall r :: r in After(t, keys, events, n).state.submissions ==> r.requestId != id) <==>
            (forall i :: 0 <= i < n && events[i].Submit? && OutcomeAt(t, keys, events, i).Accepted? ==>
               events[i].response.requestId != id)
  {
    hide After, OutcomeAt;
    forall r ensures r in After(t, keys, events, n).state.submissions <==>
                     exists i :: 0 <= i < n && events[i].Submit? && events[i].response == r
                                 && OutcomeAt(t, keys, events, i).Accepted?
    {
      SubmissionsAre(t, keys, events, n, r);
    }
  }

  /** Honest responses to requests with different identifiers. */
  ghost predicate Honest(t: Setting, keys: set<ResponseKey>, events: seq<Event>) {
    && |keys| + |events| <= t.maxEntries
    && (forall i :: 0 <= i < |events| ==>
          && events[i].Submit? && ProperlySubmitted(t, events[i], events[i].response)
          && KeyOf(events[i].response) !in keys)
    && (forall i, j :: 0 <= i < j < |events| ==> events[i].response.requestId != events[j].response.requestId)
  }

  /** The first `n` responses are stored in the order of arrival, and submissions are open. */
  ghost predicate HoldsFirst(w: World, size: nat, events: seq<Event>, n: nat)
    requires n <= |events|
  {
    && w.state.phase == Open && |w.state.submissions| == n && |w.keys| <= size + n
    && forall i :: 0 <= i < n ==> events[i].Submit? && w.state.submissions[i] == events[i].response
  }

  /** Whatever the other miners submit, every one of them is stored. */
  lemma {:induction false} HonestAllStored(t: Setting, keys: set<ResponseKey>, events: seq<Event>, n: nat)
    requires n <= |events| && Honest(t, keys, events)
    ensures HoldsFirst(After(t, keys, events, n), |keys|, events, n)
    ensures forall i :: 0 <= i < n ==> OutcomeAt(t, keys, events, i).Accepted?
  {
    hide *;
    if n == 0 {
      NoneStored(t, keys, events);
    } else {
      var m := n - 1;
      HonestAllStored(t, keys, events, m);
      var w, e := After(t, keys, events, m), events[m];
      HonestKeyFresh(t, keys, events, m);
      HonestAcceptable(t, w, keys, events, m);
      StepOf(t, keys, events, m);
      IsSubmit(t, keys, events, m);
      SubmitAcceptedIff(t, w, e.response, e.request, e.context);
      HoldsMore(w, |keys|, events, m,
                ResponseKey(e.response.minerHotkey, e.response.requestNonce, e.response.requestId));
    }
  }

  lemma IsSubmit(t: Setting, keys: set<ResponseKey>, events: seq<Event>, m: nat)
    requires m < |events| && Honest(t, keys, events)
    ensures events[m].Submit?
    ensures events[m] == Submit(events[m].response, events[m].request, events[m].context)
  {
  }

  lemma NoneStored(t: Setting, keys: set<ResponseKey>, events: seq<Event>)
    ensures HoldsFirst(After(t, keys, events, 0), |keys|, events, 0)
  {
    assert After(t, keys, events, 0) == World(INITIAL, keys);
  }

  lemma HoldsMore(w: World, size: nat, events: seq<Event>, m: nat, key: ResponseKey)
    requires m < |events| && HoldsFirst(w, size, events, m) && events[m].Submit?
    ensures HoldsFirst(World(State(Open, w.state.submissions + [events[m].response]), w.keys + {key}),
                       size, events, m + 1)
  {
  }

  lemma HonestKeyFresh(t: Setting, keys: set<ResponseKey>, events: seq<Event>, m: nat)
    requires m < |events| && Honest(t, keys, events)
    ensures events[m].Submit? && KeyOf(events[m].response) !in After(t, keys, events, m).keys
  {
    var key := KeyOf(events[m].response);
    hide After, OutcomeAt, Puts, ProperlySubmitted;
    forall i | 0 <= i < m ensures !Puts(events[i], OutcomeAt(t, keys, events, i), key) {
      OtherKeyPut(events[i], OutcomeAt(t, keys, events, i), key);
    }
    StoreHolds(t, keys, events, m, key);
  }

  lemma OtherKeyPut(e: Event, o: Outcome, key: ResponseKey)
    requires e.Submit? && e.response.requestId != key.requestId
    ensures !Puts(e, o, key)
  {
  }

  lemma HonestAcceptable(t: Setting, w: World, keys: set<ResponseKey>, events: seq<Event>, m: nat)
    requires m < |events| && Honest(t, keys, events) && HoldsFirst(w, |keys|, events, m)
    requires events[m].Submit? && KeyOf(events[m].response) !in w.keys
    ensures Acceptable(t, w, events[m].response, events[m].request, events[m].context)
  {
    var e := events[m];
    assert ProperlySubmitted(t, e, e.response);
    forall r | r in w.state.submissions ensures r.requestId != e.response.requestId {
      var i :| 0 <= i < m && w.state.submissions[i] == r;
      assert events[i].response.requestId != e.response.requestId;
    }
    hide Checks;
  }
}
