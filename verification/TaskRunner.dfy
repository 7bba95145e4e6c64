/** `run_task`: one task to completion, retried per its policy, with everything
    it asks of the executor, the clock, the metrics and the reporter in order. */
module TaskRunner {
  import opened Queueing
  import opened Dispatch

  const NON_RETRYABLE_DECISIONS := {"block", "blocked", "confirm_required", "cancelled"}

  datatype ExecResult = ExecResult(ok: bool, decision: string, error: string, cancelled: bool, finalChunk: bool)

  /** What `executor.run` does: return a result, or raise. */
  datatype Reply = Returned(result: ExecResult) | Raised(message: string)

  function ResultOf(r: Reply): ExecResult {
    match r
    case Returned(x) => x
    case Raised(m) => ExecResult(false, "error", m, false, false)
  }

  /** Calls on the collaborators, in order. */
  datatype Action =
    | Slept(seconds: real) | RetryCounted | Called(attempt: nat) | AttemptFile(attempt: nat) | Sent
    | MarkedDone(id: string, ok: bool)

  /** A failure that may be repeated, unless the task was cancelled. */
  predicate Retryable(r: ExecResult) {
    !r.ok && r.decision !in {"block", "blocked", "confirm_required", "cancelled"} && !r.cancelled
  }

  /** A call whose retry may do better: an exception, or such a failure. */
  predicate Lost(reply: Reply) {
    match reply
    case Returned(r) => Retryable(r)
    case Raised(_) => true
  }

  /** What a call answered; an exception counts as an error of no further consequence. */
  predicate Answers(reply: Reply, r: ExecResult) {
    match reply
    case Returned(x) => r == x
    case Raised(m) => !r.ok && r.decision == "error" && r.error == m && !r.cancelled && !r.finalChunk
  }

  /** `RetryPolicy.delay_before`. */
  function DelayBefore(attempt: nat, backoff: seq<real>): real {
    if attempt <= 1 || backoff == [] then 0.0
    else backoff[if attempt - 2 < |backoff| - 1 then attempt - 2 else |backoff| - 1]
  }

  function Sleep(attempt: nat, backoff: seq<real>): seq<Action> {
    if DelayBefore(attempt, backoff) != 0.0 then [Slept(DelayBefore(attempt, backoff))] else []
  }

  /** The actions up to the end of call `k`. */
  function Attempts(k: nat, backoff: seq<real>): seq<Action>
    requires k >= 1
  {
    if k == 1 then [Called(1)]
    else Attempts(k - 1, backoff) + [AttemptFile(k - 1)] + Sleep(k, backoff) + [RetryCounted] + [Called(k)]
  }

  lemma NextAttempt(k: nat, backoff: seq<real>)
    ensures Attempts(k + 1, backoff) ==
      (if k == 0 then [] else Attempts(k, backoff) + [AttemptFile(k)] + Sleep(k + 1, backoff) + [RetryCounted])
        + [Called(k + 1)]
  {
  }

  /** The backoff after call `k` that a cancellation ends. */
  function Abandoned(k: nat, backoff: seq<real>): seq<Action> {
    [AttemptFile(k)] + Sleep(k + 1, backoff)
  }

  function Settling(k: nat, r: ExecResult): seq<Action> {
    (if k > 1 then [AttemptFile(k)] else []) + (if r.finalChunk then [] else [Sent])
  }

  datatype Outcome = Outcome(result: ExecResult, attempts: nat, cancelled: bool)

  function StatusOf(o: Outcome): Status {
    if o.cancelled then StatusCancelled
    else if o.result.decision == "block" || o.result.decision == "blocked" then StatusBlocked
    else if o.result.decision == "confirm_required" then StatusConfirmRequired
    else if o.result.ok then StatusOk else StatusError
  }

  /** The first `k` calls were retryable failures. */
  ghost predicate AllLost(replies: nat -> Reply, k: nat) {
    forall i :: 1 <= i <= k ==> Lost(replies(i))
  }

  /** One run: `k` calls, every one but the last a retryable failure, the last
      one's result reported; it stops early only on a result not worth retrying,
      at the attempt limit, or because a cancellation was seen. Last, the queue learns
      whether the status is ok. */
  ghost predicate RunsTask(t: Task, replies: nat -> Reply, o: Outcome, actions: seq<Action>, abandoned: bool) {
    var k := o.attempts;
    && 1 <= k <= t.maxAttempts
    && AllLost(replies, k - 1)
    && Answers(replies(k), o.result)
    && actions == Attempts(k, t.backoff) + (if abandoned then Abandoned(k, t.backoff) else []) + Settling(k, o.result)
       + [MarkedDone(t.id, StatusOf(o).StatusOk?)]
    && (abandoned ==> o.cancelled && Lost(replies(k)) && k < t.maxAttempts)
    && (!abandoned && !o.cancelled ==> !Lost(replies(k)) || k == t.maxAttempts)
    && (o.result.cancelled ==> o.cancelled)
  }

  /** The status is ok exactly for a successful last call whose decision neither blocked it
      nor asked for confirmation, in a run with no cancellation; and only then do the
      tasks that wait for this one go ahead. */
  lemma OkIff(t: Task, replies: nat -> Reply, o: Outcome, actions: seq<Action>, abandoned: bool)
    requires RunsTask(t, replies, o, actions, abandoned)
    ensures MarkedDone(t.id, true) in actions <==>
      o.result.ok && !o.cancelled && o.result.decision !in {"block", "blocked", "confirm_required"}
    ensures actions[|actions| - 1] == MarkedDone(t.id, StatusOf(o) == StatusOk)
    ensures StatusOf(o) == StatusCancelled <==> o.cancelled
    ensures StatusOf(o) == StatusBlocked <==> !o.cancelled && o.result.decision in {"block", "blocked"}
    ensures StatusOf(o) == StatusConfirmRequired <==> !o.cancelled && o.result.decision == "confirm_required"
  {
    var k := o.attempts;
    var work := Attempts(k, t.backoff) + (if abandoned then Abandoned(k, t.backoff) else []) + Settling(k, o.result);
    AttemptsMarkNothing(k, t.backoff);
    assert forall a <- work :: !a.MarkedDone?;
    assert actions == work + [MarkedDone(t.id, StatusOf(o) == StatusOk)];
  }

  lemma {:induction false} AttemptsMarkNothing(k: nat, backoff: seq<real>)
    requires k >= 1
    ensures forall a <- Attempts(k, backoff) :: !a.MarkedDone?
  {
    if k > 1 { AttemptsMarkNothing(k - 1, backoff); }
  }

  /** The result is sent once, last before the queue is told, unless a final chunk is out. */
  lemma SentIffNotStreamed(t: Task, replies: nat -> Reply, o: Outcome, actions: seq<Action>, abandoned: bool)
    requires RunsTask(t, replies, o, actions, abandoned)
    ensures multiset(actions)[Sent] == if o.result.finalChunk then 0 else 1
    ensures !o.result.finalChunk ==> |actions| > 1 && actions[|actions| - 2] == Sent
  {
    var k := o.attempts;
    var calls := Attempts(k, t.backoff) + if abandoned then Abandoned(k, t.backoff) else [];
    AttemptsSendNothing(k, t.backoff);
    assert Sent !in calls;
    SentAtTheEnd(calls, k, o.result, MarkedDone(t.id, StatusOf(o).StatusOk?));
  }

  lemma SentAtTheEnd(calls: seq<Action>, k: nat, r: ExecResult, done: Action)
    requires Sent !in calls && done != Sent
    ensures var actions := calls + Settling(k, r) + [done];
      && multiset(actions)[Sent] == (if r.finalChunk then 0 else 1)
      && (!r.finalChunk ==> |actions| > 1 && actions[|actions| - 2] == Sent)
  {
    assert multiset(calls)[Sent] == 0;
  }

  lemma {:induction false} AttemptsSendNothing(k: nat, backoff: seq<real>)
    requires k >= 1
    ensures Sent !in Attempts(k, backoff)
  {
    if k > 1 { AttemptsSendNothing(k - 1, backoff); }
  }

  class TaskRunner {
    /** Ids with a cancel request; other threads add to it at any time. */
    var cancelled: set<string>

    constructor ()
      ensures cancelled == {}
    {
      cancelled := {};
    }

    /** A moment at which another thread may have cancelled something. */
    method Meanwhile()
      modifies this
      ensures old(cancelled) <= cancelled
    {
      var ids: set<string> := *;
      cancelled := cancelled + ids;
    }

    method ShouldRetry(r: ExecResult, id: string) returns (again: bool, seen: bool)
      modifies this
      ensures again ==> Retryable(r)
      ensures !again && !seen ==> !Retryable(r)
      ensures seen ==> id in cancelled && !again
      ensures id in old(cancelled) ==> !again
      ensures old(cancelled) <= cancelled
    {
      Meanwhile();
      if r.ok { return false, false; }
      if id in cancelled { return false, true; }
      again, seen := r.decision !in NON_RETRYABLE_DECISIONS && !r.cancelled, false;
    }

    /** The retry loop; `replies(i)` is what the i-th call of the executor does. */
    method Retry(t: Task, replies: nat -> Reply)
      returns (attempt: nat, result: ExecResult, actions: seq<Action>, ghost abandoned: bool, ghost seen: bool)
      requires t.maxAttempts >= 1
      modifies this
      ensures LoopLeft(t, replies, attempt, result, actions, abandoned, seen)
      ensures abandoned || seen ==> t.id in cancelled
      ensures t.id in old(cancelled) ==> attempt == 1
      ensures old(cancelled) <= cancelled
    {
      attempt, actions, abandoned, seen := 0, [], false, false;
      result := ExecResult(false, "", "", false, false);
      while attempt < t.maxAttempts
        invariant old(cancelled) <= cancelled
        invariant t.id in old(cancelled) ==> attempt == 0
        invariant !abandoned && !seen && Losing(t, replies, attempt, result, actions)
        decreases t.maxAttempts - attempt
      {
        ghost var before := actions;
        if attempt > 0 {
          actions := BackOff(attempt + 1, t.backoff, actions);
          if t.id in cancelled {
            AbandonedLeaves(t, replies, attempt, before, result, actions);
            abandoned := true;
            break;
          }
          actions := actions + [RetryCounted];
        }
        ghost var calls, last := actions, result;
        attempt := attempt + 1;
        actions := actions + [Called(attempt)];
        result := ResultOf(replies(attempt));
        var again;
        again, seen := ShouldRetry(result, t.id);
        if !again || attempt >= t.maxAttempts {
          CallSettles(t, replies, attempt - 1, before, last, calls, seen);
          break;
        }
        CallIsLost(t, replies, attempt - 1, before, last, calls);
        actions := actions + [AttemptFile(attempt)];
      }
    }

    /** `run_task`; `asked` says that a cancellation of the task was on record at its end. */
    method RunTask(t: Task, replies: nat -> Reply)
      returns (o: Outcome, actions: seq<Action>, ghost abandoned: bool, ghost asked: bool)
      requires t.maxAttempts >= 1
      modifies this
      ensures RunsTask(t, replies, o, actions, abandoned)
      ensures o.cancelled <==> asked || o.result.cancelled
      ensures old(t.id in cancelled) ==> asked && o.cancelled && o.attempts == 1
      ensures t.id !in cancelled
    {
      var attempt, result;
      ghost var seen;
      attempt, result, actions, abandoned, seen := Retry(t, replies);
      Meanwhile();
      asked := t.id in cancelled;
      var flagged := t.id in cancelled || result.cancelled;
      ghost var before := actions;
      if attempt > 1 { actions := actions + [AttemptFile(attempt)]; }
      o := Outcome(result, attempt, flagged);
      if !result.finalChunk { actions := actions + [Sent]; }
      assert actions == before + Settling(attempt, result);
      actions := actions + [MarkedDone(t.id, StatusOf(o).StatusOk?)];
      cancelled := cancelled - {t.id};
    }

    /** Sleeps the backoff, if there is any, while others may cancel. */
    method BackOff(attempt: nat, backoff: seq<real>, actions: seq<Action>) returns (actions': seq<Action>)
      modifies this
      ensures actions' == actions + Sleep(attempt, backoff) && old(cancelled) <= cancelled
    {
      actions' := actions;
      var delay := DelayBefore(attempt, backoff);
      if delay != 0.0 { actions' := actions' + [Slept(delay)]; }
      Meanwhile();
    }
  }

  /** The loop is about to retry: every call so far was a retryable failure and has its file. */
  ghost predicate Losing(t: Task, replies: nat -> Reply, k: nat, result: ExecResult, actions: seq<Action>) {
    && k < t.maxAttempts
    && AllLost(replies, k)
    && (k > 0 ==> result == ResultOf(replies(k)))
    && actions == if k == 0 then [] else Attempts(k, t.backoff) + [AttemptFile(k)]
  }

  /** How the loop can end. */
  ghost predicate LoopLeft(t: Task, replies: nat -> Reply, k: nat, result: ExecResult, actions: seq<Action>,
      abandoned: bool, seen: bool)
  {
    && 1 <= k <= t.maxAttempts
    && AllLost(replies, k - 1)
    && result == ResultOf(replies(k))
    && actions == Attempts(k, t.backoff) + (if abandoned then Abandoned(k, t.backoff) else [])
    && (abandoned ==> Retryable(result) && k < t.maxAttempts)
    && (!abandoned && !seen ==> !Retryable(result) || k == t.maxAttempts)
  }

  /** A cancellation seen after a backoff ends the loop there. */
  lemma AbandonedLeaves(t: Task, replies: nat -> Reply, k: nat, before: seq<Action>, result: ExecResult,
      actions: seq<Action>)
    requires k > 0 && Losing(t, replies, k, result, before) && actions == before + Sleep(k + 1, t.backoff)
    ensures LoopLeft(t, replies, k, result, actions, true, false)
  {
    var calls := Attempts(k, t.backoff);
    assert calls + [AttemptFile(k)] + Sleep(k + 1, t.backoff) == calls + Abandoned(k, t.backoff);
  }

  /** One more call: the loop may end there, if it is not to be repeated. */
  lemma CallSettles(t: Task, replies: nat -> Reply, k: nat, before: seq<Action>, result: ExecResult,
      actions: seq<Action>, seen: bool)
    requires Losing(t, replies, k, result, before)
    requires actions == if k == 0 then before else before + Sleep(k + 1, t.backoff) + [RetryCounted]
    requires seen || !Retryable(ResultOf(replies(k + 1))) || k + 1 == t.maxAttempts
    ensures LoopLeft(t, replies, k + 1, ResultOf(replies(k + 1)), actions + [Called(k + 1)], false, seen)
  {
    CallsSoFar(k, t.backoff, before, actions);
  }

  /** Or the next retry is due. */
  lemma CallIsLost(t: Task, replies: nat -> Reply, k: nat, before: seq<Action>, result: ExecResult,
      actions: seq<Action>)
    requires Losing(t, replies, k, result, before)
    requires actions == if k == 0 then before else before + Sleep(k + 1, t.backoff) + [RetryCounted]
    requires Retryable(ResultOf(replies(k + 1))) && k + 1 < t.maxAttempts
    ensures Losing(t, replies, k + 1, ResultOf(replies(k + 1)), actions + [Called(k + 1)] + [AttemptFile(k + 1)])
  {
    CallsSoFar(k, t.backoff, before, actions);
    OneMoreLost(replies, k);
  }

  lemma OneMoreLost(replies: nat -> Reply, k: nat)
    requires AllLost(replies, k)
    ensures AllLost(replies, k + 1) <==> Lost(replies(k + 1))
  {
    forall i | 1 <= i <= k + 1 && i != k + 1 ensures Lost(replies(i)) {}
  }

  lemma CallsSoFar(k: nat, backoff: seq<real>, before: seq<Action>, actions: seq<Action>)
    requires before == if k == 0 then [] else Attempts(k, backoff) + [AttemptFile(k)]
    requires actions == if k == 0 then before else before + Sleep(k + 1, backoff) + [RetryCounted]
    ensures actions + [Called(k + 1)] == Attempts(k + 1, backoff)
    ensures Attempts(k + 1, backoff) + [] == Attempts(k + 1, backoff)
  {
    NextAttempt(k, backoff);
  }

  // ---------------------------------------------------------------------
  // What the trace amounts to
  // ---------------------------------------------------------------------

  /** Calls made, retries counted, waits slept and attempt files left. */
  datatype Tally = Tally(calls: seq<nat>, retries: nat, sleeps: seq<real>, files: set<nat>)

  function Plus(a: Tally, b: Tally): Tally {
    Tally(a.calls + b.calls, a.retries + b.retries, a.sleeps + b.sleeps, a.files + b.files)
  }

  function Of(a: Action): Tally {
    match a
    case Slept(d) => Tally([], 0, [d], {})
    case RetryCounted => Tally([], 1, [], {})
    case Called(i) => Tally([i], 0, [], {})
    case AttemptFile(i) => Tally([], 0, [], {i})
    case Sent => Tally([], 0, [], {})
    case MarkedDone(_, _) => Tally([], 0, [], {})
  }

  function TallyOf(actions: seq<Action>): Tally {
    if actions == [] then Tally([], 0, [], {}) else Plus(Of(actions[0]), TallyOf(actions[1..]))
  }

  /** The sleeps before attempts 2 to `k`; an empty wait is not slept. */
  function Waits(k: nat, backoff: seq<real>): seq<real> {
    if k <= 1 then []
    else Waits(k - 1, backoff) + (if DelayBefore(k, backoff) != 0.0 then [DelayBefore(k, backoff)] else [])
  }

  function UpTo(k: nat): seq<nat> { if k == 0 then [] else UpTo(k - 1) + [k] }

  /** The numbers 1 to `k`. */
  function Numbers(k: nat): set<nat> { if k == 0 then {} else Numbers(k - 1) + {k} }

  lemma PlusAssoc(a: Tally, b: Tally, c: Tally)
    ensures Plus(Plus(a, b), c) == Plus(a, Plus(b, c))
  {
    assert a.calls + b.calls + c.calls == a.calls + (b.calls + c.calls);
    assert a.sleeps + b.sleeps + c.sleeps == a.sleeps + (b.sleeps + c.sleeps);
    assert a.files + b.files + c.files == a.files + (b.files + c.files);
  }

  lemma PlusZero(a: Tally)
    ensures Plus(a, TallyOf([])) == a && Plus(TallyOf([]), a) == a
  {
    assert a.calls + [] == a.calls == [] + a.calls;
    assert a.sleeps + [] == a.sleeps == [] + a.sleeps;
    assert a.files + {} == a.files == {} + a.files;
  }

  lemma TallyCons(x: Action, a: seq<Action>)
    ensures TallyOf([x] + a) == Plus(Of(x), TallyOf(a))
  {
    assert ([x] + a)[1..] == a;
  }

  lemma TallyConcatStep(x: Action, a: seq<Action>, b: seq<Action>)
    requires TallyOf(a + b) == Plus(TallyOf(a), TallyOf(b))
    ensures TallyOf([x] + (a + b)) == Plus(TallyOf([x] + a), TallyOf(b))
  {
    TallyCons(x, a + b);
    TallyCons(x, a);
    PlusAssoc(Of(x), TallyOf(a), TallyOf(b));
  }

  lemma {:induction false} TallyConcat(a: seq<Action>, b: seq<Action>)
    ensures TallyOf(a + b) == Plus(TallyOf(a), TallyOf(b))
    decreases |a|
  {
    if |a| == 0 {
      assert a + b == b && a == [];
      PlusZero(TallyOf(b));
    } else {
      TallyConcat(a[1..], b);
      TallyConcatStep(a[0], a[1..], b);
      assert a + b == [a[0]] + (a[1..] + b) && a == [a[0]] + a[1..];
    }
  }

  lemma TallySnoc(a: seq<Action>, x: Action)
    ensures TallyOf(a + [x]) == Plus(TallyOf(a), Of(x))
  {
    TallyConcat(a, [x]);
    assert [x][1..] == [];
    PlusZero(Of(x));
  }

  /** A losing attempt: its file, the wait, the retry, the next call. */
  lemma RetryTally(a: seq<Action>, k: nat, backoff: seq<real>)
    ensures var t := TallyOf(a);
      TallyOf(a + [AttemptFile(k)] + Sleep(k + 1, backoff)) ==
        Tally(t.calls, t.retries,
              t.sleeps + (if DelayBefore(k + 1, backoff) != 0.0 then [DelayBefore(k + 1, backoff)] else []),
              t.files + {k})
  {
    var b := a + [AttemptFile(k)];
    TallySnoc(a, AttemptFile(k));
    TallySnoc(b, Slept(DelayBefore(k + 1, backoff)));
    assert b + [] == b;
  }

  lemma CallTally(b: seq<Action>, k: nat)
    ensures var t := TallyOf(b);
      TallyOf(b + [RetryCounted] + [Called(k)]) == Tally(t.calls + [k], t.retries + 1, t.sleeps, t.files)
  {
    TallySnoc(b, RetryCounted);
    TallySnoc(b + [RetryCounted], Called(k));
  }

  lemma AttemptTally(a: seq<Action>, k: nat, backoff: seq<real>)
    requires k >= 1 && TallyOf(a) == Tally(UpTo(k), k - 1, Waits(k, backoff), Numbers(k - 1))
    ensures TallyOf(a + [AttemptFile(k)] + Sleep(k + 1, backoff) + [RetryCounted] + [Called(k + 1)]) ==
      Tally(UpTo(k + 1), k, Waits(k + 1, backoff), Numbers(k))
  {
    RetryTally(a, k, backoff);
    CallTally(a + [AttemptFile(k)] + Sleep(k + 1, backoff), k + 1);
  }

  lemma {:induction false} AttemptsTally(k: nat, backoff: seq<real>)
    requires k >= 1
    ensures TallyOf(Attempts(k, backoff)) == Tally(UpTo(k), k - 1, Waits(k, backoff), Numbers(k - 1))
  {
    if k == 1 {
      FirstTally(backoff);
    } else {
      AttemptsTally(k - 1, backoff);
      AttemptTally(Attempts(k - 1, backoff), k - 1, backoff);
    }
  }

  lemma FirstTally(backoff: seq<real>)
    ensures TallyOf([Called(1)]) == Tally(UpTo(1), 0, Waits(1, backoff), Numbers(0))
  {
    TallyCons(Called(1), []);
    PlusZero(Of(Called(1)));
    assert [Called(1)] + [] == [Called(1)];
    assert UpTo(1) == [] + [1] == [1];
  }

  lemma SentTally(b: seq<Action>)
    ensures TallyOf(b + [Sent]) == TallyOf(b)
  {
    TallySnoc(b, Sent);
    PlusZero(TallyOf(b));
  }

  lemma MarkedTally(b: seq<Action>, id: string, ok: bool)
    ensures TallyOf(b + [MarkedDone(id, ok)]) == TallyOf(b)
  {
    TallySnoc(b, MarkedDone(id, ok));
    PlusZero(TallyOf(b));
  }

  lemma FileTally(a: seq<Action>, k: nat)
    ensures TallyOf(a + [AttemptFile(k)]) == TallyOf(a).(files := TallyOf(a).files + {k})
  {
    var t := TallyOf(a);
    TallySnoc(a, AttemptFile(k));
    assert t.calls + [] == t.calls && t.sleeps + [] == t.sleeps;
  }

  lemma SettlingTally(a: seq<Action>, k: nat, r: ExecResult)
    ensures TallyOf(a + Settling(k, r)) == TallyOf(a).(files := TallyOf(a).files + (if k > 1 then {k} else {}))
  {
    if k > 1 {
      FileTally(a, k);
      SentTally(a + [AttemptFile(k)]);
      assert a + Settling(k, r) == if r.finalChunk then a + [AttemptFile(k)] else a + [AttemptFile(k)] + [Sent];
    } else {
      SentTally(a);
      assert a + Settling(k, r) == if r.finalChunk then a else a + [Sent];
      assert TallyOf(a).files + {} == TallyOf(a).files;
    }
  }

  /** The backoff list made `w` entries long: cut off, or its last entry repeated. */
  function Stretched(backoff: seq<real>, w: nat): seq<real> {
    if w <= |backoff| then backoff[..w]
    else if backoff == [] then []
    else backoff + seq(w - |backoff|, i => backoff[|backoff| - 1])
  }

  /** The waits that are slept: those that are not empty. */
  function NonZero(waits: seq<real>): seq<real> {
    if waits == [] then [] else (if waits[0] == 0.0 then [] else [waits[0]]) + NonZero(waits[1..])
  }

  lemma {:induction false} NonZeroPush(waits: seq<real>, d: real)
    ensures NonZero(waits + [d]) == NonZero(waits) + (if d == 0.0 then [] else [d])
  {
    if waits != [] {
      NonZeroPush(waits[1..], d);
      assert (waits + [d])[1..] == waits[1..] + [d];
    }
  }

  lemma {:induction false} NothingEmpty(waits: seq<real>)
    requires 0.0 !in waits
    ensures NonZero(waits) == waits
  {
    if waits != [] { NothingEmpty(waits[1..]); }
  }

  /** One more retry waits for the next entry of the list, or for the last one again. */
  lemma StretchedPush(backoff: seq<real>, w: nat)
    requires backoff != []
    ensures Stretched(backoff, w + 1) == Stretched(backoff, w) + [DelayBefore(w + 2, backoff)]
  {
  }

  lemma {:induction false} WaitsAreTheList(w: nat, backoff: seq<real>)
    ensures Waits(w + 1, backoff) == NonZero(Stretched(backoff, w))
  {
    if w > 0 && backoff != [] {
      WaitsAreTheList(w - 1, backoff);
      StretchedPush(backoff, w - 1);
      NonZeroPush(Stretched(backoff, w - 1), DelayBefore(w + 1, backoff));
    } else if w > 0 {
      WaitsAreTheList(w - 1, backoff);
    }
  }

  /** The retry trace: calls 1 to k, k-1 retries counted, for k > 1 attempt files for exactly
      1 to k, and the waits of the backoff list, as many as there were retries (one more when
      a cancellation ends a wait), its last entry as often as the list is too short. An empty
      wait is not slept. */
  lemma RetryTrace(t: Task, replies: nat -> Reply, o: Outcome, actions: seq<Action>, abandoned: bool)
    requires RunsTask(t, replies, o, actions, abandoned)
    ensures var k, tally := o.attempts, TallyOf(actions);
      var w := if abandoned then k else k - 1;
      && tally.calls == UpTo(k) && tally.retries == k - 1
      && tally.files == (if k > 1 || abandoned then Numbers(k) else {})
      && tally.sleeps == NonZero(Stretched(t.backoff, w))
      && (0.0 !in t.backoff ==>
          tally.sleeps == if w <= |t.backoff| then t.backoff[..w] else if t.backoff == [] then []
            else t.backoff + seq(w - |t.backoff|, i => t.backoff[|t.backoff| - 1]))
  {
    TraceTally(o.attempts, o.result, t.backoff, abandoned, t.id, StatusOf(o).StatusOk?);
    WaitsWrittenOut(t.backoff, if abandoned then o.attempts else o.attempts - 1);
  }

  lemma WaitsWrittenOut(backoff: seq<real>, w: nat)
    ensures 0.0 !in backoff ==>
      NonZero(Stretched(backoff, w)) == (if w <= |backoff| then backoff[..w] else if backoff == [] then []
        else backoff + seq(w - |backoff|, i => backoff[|backoff| - 1]))
  {
    if 0.0 !in backoff { NothingEmpty(Stretched(backoff, w)); }
  }

  lemma TraceTally(k: nat, r: ExecResult, backoff: seq<real>, abandoned: bool, id: string, ok: bool)
    requires k >= 1
    ensures TallyOf(Attempts(k, backoff) + (if abandoned then Abandoned(k, backoff) else []) + Settling(k, r)
                    + [MarkedDone(id, ok)])
      == Tally(UpTo(k), k - 1, NonZero(Stretched(backoff, if abandoned then k else k - 1)),
               if k > 1 || abandoned then Numbers(k) else {})
  {
    var work := Attempts(k, backoff) + (if abandoned then Abandoned(k, backoff) else []) + Settling(k, r);
    MarkedTally(work, id, ok);
    WorkTally(k, r, backoff, abandoned);
    WaitsAreTheList(if abandoned then k else k - 1, backoff);
  }

  /** `before` is all that happens up to call `j`: the calls before it, and j-1 waits. */
  ghost predicate ComesBefore(before: seq<Action>, j: nat, backoff: seq<real>, actions: seq<Action>) {
    && j >= 1 && before + [Called(j)] <= actions
    && TallyOf(before).calls == UpTo(j - 1) && TallyOf(before).sleeps == NonZero(Stretched(backoff, j - 1))
  }

  /** And when: call j is preceded by the calls before it and by j-1 of these waits. */
  lemma WaitsBeforeCalls(t: Task, replies: nat -> Reply, o: Outcome, actions: seq<Action>, abandoned: bool, j: nat)
    requires RunsTask(t, replies, o, actions, abandoned) && 1 <= j <= o.attempts
    ensures exists before :: ComesBefore(before, j, t.backoff, actions)
  {
    var all := Attempts(j, t.backoff);
    AttemptsGrow(j, o.attempts, t.backoff);
    LastCall(j, t.backoff);
    BeforeACall(all[..|all| - 1], j, t.backoff);
    assert ComesBefore(all[..|all| - 1], j, t.backoff, actions);
  }

  lemma BeforeACall(before: seq<Action>, j: nat, backoff: seq<real>)
    requires j >= 1 && before + [Called(j)] == Attempts(j, backoff)
    ensures TallyOf(before).calls == UpTo(j - 1)
    ensures TallyOf(before).sleeps == NonZero(Stretched(backoff, j - 1))
  {
    TallySnoc(before, Called(j));
    AttemptsTally(j, backoff);
    TallyButTheLast(TallyOf(before), TallyOf(before + [Called(j)]), j);
    WaitsAreTheList(j - 1, backoff);
  }

  lemma LastCall(j: nat, backoff: seq<real>)
    requires j >= 1
    ensures var all := Attempts(j, backoff);
      all != [] && all[|all| - 1] == Called(j) && all == all[..|all| - 1] + [Called(j)]
  {
  }

  lemma TallyButTheLast(before: Tally, all: Tally, j: nat)
    requires j >= 1 && Plus(before, Of(Called(j))) == all && all.calls == UpTo(j)
    ensures before.calls == UpTo(j - 1) && before.sleeps == all.sleeps
  {
    CallsButTheLast(before.calls, j);
    assert before.sleeps + [] == before.sleeps;
  }

  lemma CallsButTheLast(calls: seq<nat>, j: nat)
    requires j >= 1 && calls + [j] == UpTo(j)
    ensures calls == UpTo(j - 1)
  {
    assert (calls + [j])[..|calls|] == calls && UpTo(j)[..|UpTo(j - 1)|] == UpTo(j - 1);
  }

  lemma {:induction false} AttemptsGrow(j: nat, k: nat, backoff: seq<real>)
    requires 1 <= j <= k
    ensures Attempts(j, backoff) <= Attempts(k, backoff)
    decreases k
  {
    if j < k { AttemptsGrow(j, k - 1, backoff); }
  }

  lemma WorkTally(k: nat, r: ExecResult, backoff: seq<real>, abandoned: bool)
    requires k >= 1
    ensures TallyOf(Attempts(k, backoff) + (if abandoned then Abandoned(k, backoff) else []) + Settling(k, r))
      == Tally(UpTo(k), k - 1, Waits(if abandoned then k + 1 else k, backoff),
               if k > 1 || abandoned then Numbers(k) else {})
  {
    var a := Attempts(k, backoff);
    AttemptsTally(k, backoff);
    if abandoned {
      assert a + Abandoned(k, backoff) == a + [AttemptFile(k)] + Sleep(k + 1, backoff);
      AbandonedTally(a, k, backoff, r);
    } else {
      assert a + [] == a;
      SettledTally(a, k, r, backoff);
    }
  }

  lemma SettledTally(a: seq<Action>, k: nat, r: ExecResult, backoff: seq<real>)
    requires k >= 1 && TallyOf(a) == Tally(UpTo(k), k - 1, Waits(k, backoff), Numbers(k - 1))
    ensures TallyOf(a + Settling(k, r)) == Tally(UpTo(k), k - 1, Waits(k, backoff), if k > 1 then Numbers(k) else {})
  {
    SettlingTally(a, k, r);
    assert Numbers(0) + {} == {};
  }

  lemma AbandonedTally(a: seq<Action>, k: nat, backoff: seq<real>, r: ExecResult)
    requires k >= 1 && TallyOf(a) == Tally(UpTo(k), k - 1, Waits(k, backoff), Numbers(k - 1))
    ensures TallyOf(a + [AttemptFile(k)] + Sleep(k + 1, backoff) + Settling(k, r))
      == Tally(UpTo(k), k - 1, Waits(k + 1, backoff), Numbers(k))
  {
    RetryTally(a, k, backoff);
    SettlingTally(a + [AttemptFile(k)] + Sleep(k + 1, backoff), k, r);
    assert Numbers(k) == Numbers(k - 1) + {k};
    assert Numbers(k) + {k} == Numbers(k) && Numbers(k) + {} == Numbers(k);
  }
}
