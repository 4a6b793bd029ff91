/** The commit, seal and reveal lifecycle of one task (planrace/taskgen_v2.py:294-378):
    the state machine, what every run of it keeps, and the object that implements it. */
module Lifecycle {
  import opened Wrappers
  import opened Indexes
  import opened Merkle
  import opened Commitment
  import opened Replay
  import opened Responses

  datatype Phase = Open | Sealed | Revealed

  function Rank(p: Phase): nat {
    match p case Open => 0 case Sealed => 1 case Revealed => 2
  }

  /** Submissions in the order of their acceptance. */
  datatype State = State(phase: Phase, submissions: seq<Response>)

  const INITIAL := State(Open, [])

  datatype LifecycleError =
    | SubmissionsSealed
    | SubmissionAfterDeadline
    | RequestNotForLifecycleTask
    | WrongTask
    | DuplicateRequest
    | NotVerified(reason: VerifyError)
    | SealBeforeDeadline
    | AlreadyRevealed
    | RevealBeforeDeadline
    | SubmissionsNotSealed

  datatype Setting = Setting(task: PrivateTask, crypto: Crypto, maxEntries: nat)
  {
    function Deadline(): int { task.public.spec.deadlineUnixMs }
  }

  predicate Requested(submissions: seq<Response>, requestId: string) {
    exists r :: r in submissions && r.requestId == requestId
  }

  function Artifacts(submissions: seq<Response>): (b: seq<Bundle>)
    ensures |b| == |submissions| && forall i :: 0 <= i < |b| ==> b[i] == submissions[i].artifact
  {
    if submissions == [] then [] else [submissions[0].artifact] + Artifacts(submissions[1..])
  }

  // ----- the transitions -----------------------------------------------------

  /** The refusals of `submit_verified` before verification, in order. */
  function SubmitRefusal(t: Setting, s: State, response: Response, request: Request, now: int)
    : Option<LifecycleError>
  {
    if s.phase != Open then Some(SubmissionsSealed)
    else if now >= t.Deadline() then Some(SubmissionAfterDeadline)
    else if request.task != t.task.public then Some(RequestNotForLifecycleTask)
    else if response.taskId != t.task.public.taskId then Some(LifecycleError.WrongTask)
    else if Requested(s.submissions, response.requestId) then Some(DuplicateRequest)
    else None
  }

  datatype Outcome =
    | Accepted
    | Refused(error: LifecycleError)
    | SealedWith(submissions: seq<Response>)
    | RevealedAs(opening: Reveal)
    | Bundles(bundles: seq<Bundle>)
    | Admitted(admitted: bool)

  /** `seal`. */
  function SealStep(t: Setting, s: State, now: int): (State, Outcome) {
    if now < t.Deadline() then (s, Refused(SealBeforeDeadline))
    else if s.phase == Revealed then (s, Refused(AlreadyRevealed))
    else (State(Sealed, s.submissions), SealedWith(s.submissions))
  }

  /** The release of the secret. */
  function RevealStep(t: Setting, s: State, now: int): (State, Outcome) {
    if now < t.Deadline() then (s, Refused(RevealBeforeDeadline))
    else if s.phase == Open then (s, Refused(SubmissionsNotSealed))
    else (State(Revealed, s.submissions), RevealedAs(t.task.opening))
  }

  /** `sealed_bundles`. */
  function ListStep(s: State): Outcome {
    if s.phase == Open then Refused(SubmissionsNotSealed) else Bundles(Artifacts(s.submissions))
  }

  /** `Elsewhere` is any other use of the shared replay store. */
  datatype Event =
    | Submit(response: Response, request: Request, context: Context)
    | Seal(now: int)
    | RevealTask(now: int)
    | SealedBundles
    | Elsewhere(key: ResponseKey)

  /** The lifecycle together with the replay store it shares. */
  datatype World = World(state: State, keys: set<ResponseKey>)

  function Next(t: Setting, w: World, e: Event): (World, Outcome) {
    match e
    case Submit(response, request, c) =>
      (match SubmitRefusal(t, w.state, response, request, c.now)
       case Some(error) => (w, Refused(error))
       case None =>
         var (verified, keys) := Verify(t.crypto, w.keys, t.maxEntries, response, request, c);
         match verified
         case Err(reason) => (World(w.state, keys), Refused(NotVerified(reason)))
         case Ok(_) => (World(w.state.(submissions := w.state.submissions + [response]), keys), Accepted))
    case Seal(now) => var (s, o) := SealStep(t, w.state, now); (World(s, w.keys), o)
    case RevealTask(now) => var (s, o) := RevealStep(t, w.state, now); (World(s, w.keys), o)
    case SealedBundles => (w, ListStep(w.state))
    case Elsewhere(key) =>
      var (keys, admitted) := MemoryStep(w.keys, key, t.maxEntries);
      (World(w.state, keys), Admitted(admitted))
  }

  // ----- runs ----------------------------------------------------------------

  /** The world after the first `n` events. */
  function After(t: Setting, keys: set<ResponseKey>, events: seq<Event>, n: nat): World
    requires n <= |events|
  {
    if n == 0 then World(INITIAL, keys) else Next(t, After(t, keys, events, n - 1), events[n - 1]).0
  }

  function OutcomeAt(t: Setting, keys: set<ResponseKey>, events: seq<Event>, i: nat): Outcome
    requires i < |events|
  {
    Next(t, After(t, keys, events, i), events[i]).1
  }

  /** One step advances the phase by at most one and keeps submissions once sealed. */
  lemma StepKeeps(t: Setting, w: World, e: Event)
    ensures var w' := Next(t, w, e).0;
            && Rank(w.state.phase) <= Rank(w'.state.phase) <= Rank(w.state.phase) + 1
            && (w.state.phase != Open ==> w'.state.submissions == w.state.submissions)
            && w.keys <= w'.keys
  {
    hide Checks;
  }

  /** The phase only advances, and submissions never change once it has left `Open`. */
  lemma {:induction false} PhaseAdvances(t: Setting, keys: set<ResponseKey>, events: seq<Event>, i: nat, j: nat)
    requires i <= j <= |events|
    ensures var a, b := After(t, keys, events, i), After(t, keys, events, j);
            && Rank(a.state.phase) <= Rank(b.state.phase)
            && (a.state.phase != Open ==> b.state.submissions == a.state.submissions)
            && a.keys <= b.keys
  {
    hide Next;
    if i < j {
      PhaseAdvances(t, keys, events, i, j - 1);
      StepKeeps(t, After(t, keys, events, j - 1), events[j - 1]);
    }
  }

  /** What the outcome of a step says about the state around it. */
  lemma OutcomeMeans(t: Setting, w: World, e: Event)
    ensures var (w', o) := Next(t, w, e);
            && (o.Accepted? ==>
                  && w.state.phase == Open && e.Submit?
                  && w'.state.submissions == w.state.submissions + [e.response])
            && (o.SealedWith? ==>
                  && e.Seal? && e.now >= t.Deadline() && w'.state.phase == Sealed
                  && o.submissions == w'.state.submissions == w.state.submissions)
            && (o.RevealedAs? ==>
                  && e.RevealTask? && e.now >= t.Deadline() && w.state.phase != Open
                  && o.opening == t.task.opening)
            && (o.Bundles? ==> w.state.phase != Open && o.bundles == Artifacts(w.state.submissions))
            && (w.state.phase == Open && w'.state.phase != Open ==> o.SealedWith?)
            && (!o.Accepted? ==> w'.state.submissions == w.state.submissions)
  {
    hide Checks;
  }

  lemma StepOf(t: Setting, keys: set<ResponseKey>, events: seq<Event>, i: nat)
    requires i < |events|
    ensures Next(t, After(t, keys, events, i), events[i])
         == (After(t, keys, events, i + 1), OutcomeAt(t, keys, events, i))
  {
    hide Next;
  }

  lemma NotOpen(a: Phase, b: Phase)
    requires a != Open && Rank(a) <= Rank(b)
    ensures b != Open
  {
  }

  /** Every later seal, and every later list of bundles, agrees with the first seal. */
  lemma SealsAgree(t: Setting, keys: set<ResponseKey>, events: seq<Event>, i: nat, j: nat)
    requires i < j < |events| && OutcomeAt(t, keys, events, i).SealedWith?
    ensures var first, later := OutcomeAt(t, keys, events, i), OutcomeAt(t, keys, events, j);
            && !later.Accepted?
            && (later.SealedWith? ==> later.submissions == first.submissions)
            && (later.Bundles? ==> later.bundles == Artifacts(first.submissions))
  {
    hide *;
    StepOf(t, keys, events, i);
    StepOf(t, keys, events, j);
    OutcomeMeans(t, After(t, keys, events, i), events[i]);
    OutcomeMeans(t, After(t, keys, events, j), events[j]);
    PhaseAdvances(t, keys, events, i + 1, j);
    NotOpen(After(t, keys, events, i + 1).state.phase, After(t, keys, events, j).state.phase);
  }

  /** If submissions are closed, some seal closed them. */
  lemma {:induction false} ClosedBySeal(t: Setting, keys: set<ResponseKey>, events: seq<Event>, n: nat)
    requires n <= |events| && After(t, keys, events, n).state.phase != Open
    ensures exists i :: 0 <= i < n && OutcomeAt(t, keys, events, i).SealedWith?
  {
    hide Next;
    var w := After(t, keys, events, n - 1);
    StepOf(t, keys, events, n - 1);
    OutcomeMeans(t, w, events[n - 1]);
    if w.state.phase != Open {
      ClosedBySeal(t, keys, events, n - 1);
    } else {
      assert OutcomeAt(t, keys, events, n - 1).SealedWith?;
    }
  }

  /** The secret is handed out only at or after the deadline, only after a seal at or after
      the deadline, and after that seal no submission is ever accepted again. */
  lemma SecretOnlyAfterSeal(t: Setting, keys: set<ResponseKey>, events: seq<Event>, j: nat)
    requires j < |events| && OutcomeAt(t, keys, events, j).RevealedAs?
    ensures events[j].RevealTask? && events[j].now >= t.Deadline()
    ensures OutcomeAt(t, keys, events, j).opening == t.task.opening
    ensures exists i :: 0 <= i < j && OutcomeAt(t, keys, events, i).SealedWith?
              && events[i].Seal? && events[i].now >= t.Deadline()
              && forall k :: i < k < |events| ==> !OutcomeAt(t, keys, events, k).Accepted?
  {
    StepOf(t, keys, events, j);
    OutcomeMeans(t, After(t, keys, events, j), events[j]);
    hide Next;
    ClosedBySeal(t, keys, events, j);
    var i :| 0 <= i < j && OutcomeAt(t, keys, events, i).SealedWith?;
    StepOf(t, keys, events, i);
    OutcomeMeans(t, After(t, keys, events, i), events[i]);
    forall k | i < k < |events| ensures !OutcomeAt(t, keys, events, k).Accepted? {
      SealsAgree(t, keys, events, i, k);
    }
  }

  /** The conditions under which one response was stored. */
  ghost predicate ProperlySubmitted(t: Setting, e: Event, response: Response) {
    && e.Submit? && e.response == response
    && e.context.now < t.Deadline()
    && e.request.task == t.task.public
    && response.taskId == t.task.public.taskId
    && Checks(t.crypto, response, e.request, e.context) == None
  }

  lemma AcceptedMeans(t: Setting, w: World, e: Event)
    requires Next(t, w, e).1.Accepted?
    ensures e.Submit? && ProperlySubmitted(t, e, e.response)
    ensures !Requested(w.state.submissions, e.response.requestId)
    ensures KeyOf(e.response) !in w.keys && Next(t, w, e).0.keys == w.keys + {KeyOf(e.response)}
  {
    hide Checks, Requested;
    RefusalKeepsStore(t.crypto, w.keys, t.maxEntries, e.response, e.request, e.context);
  }

  /** Every stored response was submitted before the deadline for this very task and
      passed every check at that moment. */
  lemma {:induction false} StoredWereVerified(
      t: Setting, keys: set<ResponseKey>, events: seq<Event>, n: nat, response: Response)
    requires n <= |events| && response in After(t, keys, events, n).state.submissions
    ensures exists i :: 0 <= i < n && OutcomeAt(t, keys, events, i).Accepted?
              && ProperlySubmitted(t, events[i], response)
  {
    hide *;
    NothingAtStart(t, keys, events);
    if n > 0 {
      var w := After(t, keys, events, n - 1);
      StepOf(t, keys, events, n - 1);
      OutcomeMeans(t, w, events[n - 1]);
      if response in w.state.submissions {
        StoredWereVerified(t, keys, events, n - 1, response);
      } else {
        AcceptedMeans(t, w, events[n - 1]);
      }
    }
  }

  lemma NothingAtStart(t: Setting, keys: set<ResponseKey>, events: seq<Event>)
    ensures After(t, keys, events, 0).state.submissions == []
  {
    hide Next;
  }

  /** Request identifiers are unique among the submissions, and each is in the store. */
  ghost predicate Consistent(w: World) {
    && (forall i, j :: 0 <= i < j < |w.state.submissions| ==>
          w.state.submissions[i].requestId != w.state.submissions[j].requestId)
    && (forall r :: r in w.state.submissions ==> KeyOf(r) in w.keys)
  }

  lemma {:induction false} RunsStayConsistent(t: Setting, keys: set<ResponseKey>, events: seq<Event>, n: nat)
    requires n <= |events|
    ensures Consistent(After(t, keys, events, n))
  {
    if n > 0 {
      hide *;
      var w, e := After(t, keys, events, n - 1), events[n - 1];
      RunsStayConsistent(t, keys, events, n - 1);
      StepOf(t, keys, events, n - 1);
      StepConsistent(t, w, e);
    }
  }

  lemma StepConsistent(t: Setting, w: World, e: Event)
    requires Consistent(w)
    ensures Consistent(Next(t, w, e).0)
  {
    hide Next, ProperlySubmitted;
    OutcomeMeans(t, w, e);
    StepKeeps(t, w, e);
    if Next(t, w, e).1.Accepted? {
      AcceptedMeans(t, w, e);
      forall s | s in w.state.submissions ensures s.requestId != e.response.requestId {}
    }
  }

  /** With the in-memory store a refused submission changes neither the lifecycle nor
      the replay store; nor does a refused seal, reveal or listing. */
  lemma RefusalChangesNothing(t: Setting, w: World, e: Event)
    requires Next(t, w, e).1.Refused?
    ensures Next(t, w, e).0 == w
  {
    hide Checks, Requested;
    if e.Submit? {
      RefusalKeepsStore(t.crypto, w.keys, t.maxEntries, e.response, e.request, e.context);
    }
  }

  // ----- the object ----------------------------------------------------------

  class TaskLifecycle {
    const t: Setting
    var phase: Phase
    var submissions: seq<Response>

    constructor (t: Setting)
      ensures this.t == t && Current() == INITIAL
    {
      this.t := t;
      phase := Open;
      submissions := [];
    }

    ghost function Current(): State
      reads this
    {
      State(phase, submissions)
    }

    method SubmitVerified(
        response: Response, request: Request, c: Context, store: MemoryResponseReplayStore)
      returns (r: Result<(), LifecycleError>)
      requires store.maxEntries == t.maxEntries
      modifies this, store
      ensures var (w, o) := Next(t, World(old(Current()), old(store.keys)), Submit(response, request, c));
              && World(Current(), store.keys) == w
              && o == match r case Ok(_) => Accepted case Err(e) => Refused(e)
    {
      hide Verify, Requested;
      if phase != Open { return Err(SubmissionsSealed); }
      if c.now >= t.Deadline() { return Err(SubmissionAfterDeadline); }
      if request.task != t.task.public { return Err(RequestNotForLifecycleTask); }
      if response.taskId != t.task.public.taskId { return Err(LifecycleError.WrongTask); }
      if Requested(submissions, response.requestId) { return Err(DuplicateRequest); }
      var verified := VerifySignedResponse(t.crypto, store, response, request, c);
      if verified.Err? { return Err(NotVerified(verified.error)); }
      submissions := submissions + [response];
      r := Ok(());
    }

    method SealSubmissions(now: int) returns (r: Result<seq<Response>, LifecycleError>)
      modifies this
      ensures (Current(), match r case Ok(s) => SealedWith(s) case Err(e) => Refused(e))
           == SealStep(t, old(Current()), now)
    {
      if now < t.Deadline() { return Err(SealBeforeDeadline); }
      if phase == Revealed { return Err(AlreadyRevealed); }
      phase := Sealed;
      r := Ok(submissions);
    }

    method RevealSecret(now: int) returns (r: Result<Reveal, LifecycleError>)
      modifies this
      ensures (Current(), match r case Ok(s) => RevealedAs(s) case Err(e) => Refused(e))
           == RevealStep(t, old(Current()), now)
    {
      if now < t.Deadline() { return Err(RevealBeforeDeadline); }
      if phase == Open { return Err(SubmissionsNotSealed); }
      phase := Revealed;
      r := Ok(t.task.opening);
    }

    method ListBundles() returns (r: Result<seq<Bundle>, LifecycleError>)
      ensures (match r case Ok(b) => Bundles(b) case Err(e) => Refused(e)) == ListStep(Current())
    {
      if phase == Open { return Err(SubmissionsNotSealed); }
      r := Ok(Artifacts(submissions));
    }
  }
}
