/** The constraint-aware priority queue of tasks. */
module Queueing {
  import opened Payload

  datatype Priority = High | Normal | Low

  function Rank(p: Priority): nat { match p case High => 0 case Normal => 1 case Low => 2 }

  /** A task with the scheduling metadata read off its payload. An empty id names no task. */
  datatype Task = Task(id: string, kind: string, priority: Priority, notBefore: Option<int>, deadline: Option<int>,
                       dependsOn: seq<string>, maxAttempts: nat, backoff: seq<real>)

  datatype Entry = Entry(task: Task, seqNo: nat)

  /** `sort_key`: priority band, then arrival. */
  predicate KeyLess(a: Entry, b: Entry) {
    Rank(a.task.priority) < Rank(b.task.priority)
    || (Rank(a.task.priority) == Rank(b.task.priority) && a.seqNo < b.seqNo)
  }

  /** `is_expired`: a high-priority task never expires. */
  predicate Expired(t: Task, now: int) {
    t.deadline.Some? && !t.priority.High? && now > t.deadline.value
  }

  /** Every dependency is in `done`. */
  predicate DepsMet(t: Task, done: set<string>) { forall d <- t.dependsOn :: d in done }

  /** `blocked_reason` is None, given the ids known to have succeeded. */
  predicate Eligible(t: Task, now: int, done: set<string>) {
    (t.notBefore.Some? ==> now >= t.notBefore.value) && DepsMet(t, done)
  }

  /** The queue's state: entries in arrival order, the next arrival number, the
      ids queued or dispatched, and the ids completed successfully. */
  datatype Queue = Queue(entries: seq<Entry>, nextSeq: nat, known: set<string>, completed: set<string>)

  const EMPTY := Queue([], 0, {}, {})

  function Ids(entries: seq<Entry>): set<string> { set e | e in entries :: e.task.id }

  function Live(entries: seq<Entry>, now: int): seq<Entry> {
    if entries == [] then [] else
    (if Expired(entries[0].task, now) then [] else [entries[0]]) + Live(entries[1..], now)
  }

  function Late(entries: seq<Entry>, now: int): seq<Entry> {
    if entries == [] then [] else
    (if Expired(entries[0].task, now) then [entries[0]] else []) + Late(entries[1..], now)
  }

  function Without(entries: seq<Entry>, e: Entry): seq<Entry> {
    if entries == [] then [] else if entries[0] == e then entries[1..] else [entries[0]] + Without(entries[1..], e)
  }

  function FindId(entries: seq<Entry>, id: string): Option<Entry> {
    if entries == [] then None else if entries[0].task.id == id then Some(entries[0]) else FindId(entries[1..], id)
  }

  function Added(q: Queue, t: Task): Queue {
    if t.id in q.known then q
    else
      Queue(q.entries + [Entry(t, q.nextSeq)], q.nextSeq + 1,
            q.known + (if t.id != "" then {t.id} else {}), q.completed)
  }

  function Removed(q: Queue, id: string): Queue {
    match FindId(q.entries, id)
    case None => q
    case Some(e) => q.(entries := Without(q.entries, e), known := q.known - {id})
  }

  function Completed(q: Queue, id: string, ok: bool): Queue {
    q.(known := q.known - {id}, completed := if ok then q.completed + {id} else q.completed)
  }

  function Drained(q: Queue, now: int): Queue {
    q.(entries := Live(q.entries, now), known := q.known - Ids(Late(q.entries, now)))
  }

  /** Entries in arrival order. */
  ghost predicate Distinct(entries: seq<Entry>) {
    forall i, j :: 0 <= i < j < |entries| ==> entries[i].seqNo < entries[j].seqNo
  }

  /** What every sequence of operations keeps: no arrival number twice, and the empty id
      is never known. */
  ghost predicate WellFormed(q: Queue) {
    Distinct(q.entries) && (forall e <- q.entries :: e.seqNo < q.nextSeq) && "" !in q.known
  }

  /** What the queue keeps as long as no completion is marked for an id that is queued: an
      id other than the empty one is queued once, and known. */
  ghost predicate Tidy(q: Queue) {
    && (forall a, b :: a in q.entries && b in q.entries && a.task.id == b.task.id != "" ==> a == b)
    && (forall e <- q.entries :: e.task.id != "" ==> e.task.id in q.known)
  }

  /** The task the scheduler owes a slot: eligible, and before every other eligible entry. */
  ghost predicate First(entries: seq<Entry>, now: int, done: set<string>, e: Entry) {
    e in entries && Eligible(e.task, now, done)
    && forall x <- entries :: x != e && Eligible(x.task, now, done) ==> KeyLess(e, x)
  }

  /** What one `next_task` may do: drop what has expired at `drainAt`, then pop the first
      entry eligible at `now` and leave every other in place, or pop nothing if none is.
      The two times are equal when the caller gives one, and two readings of the clock
      otherwise. `external` holds the ids a result index or dependency check vouches for. */
  ghost predicate Popped(q: Queue, drainAt: int, now: int, external: set<string>, r: Option<Entry>, q': Queue) {
    Taken(Drained(q, drainAt), now, external, r, q')
  }

  /** The selection, once what expired is gone. */
  ghost predicate Taken(q: Queue, now: int, external: set<string>, r: Option<Entry>, q': Queue) {
    var done := q.completed + external;
    && q'.nextSeq == q.nextSeq && q'.known == q.known && q.completed <= q'.completed <= done
    && match r
       case Some(e) => (First(q.entries, now, done, e) && q'.entries == Without(q.entries, e))
       case None => (q'.entries == q.entries && forall e <- q.entries :: !Eligible(e.task, now, done))
  }

  /** The deadline of a task has passed; one of high priority has none that counts. */
  predicate PastDeadline(t: Task, time: int) {
    t.deadline.Some? && t.deadline.value < time && (t.priority.Normal? || t.priority.Low?)
  }

  /** An entry that may be started: it is not past its deadline when the queue is drained, its
      time has come, and each of its dependencies has succeeded or is vouched for. */
  predicate Waiting(q: Queue, drainAt: int, now: int, external: set<string>, x: Entry) {
    && x in q.entries && !PastDeadline(x.task, drainAt)
    && (x.task.notBefore.Some? ==> x.task.notBefore.value <= now)
    && forall d <- x.task.dependsOn :: d in q.completed || d in external
  }

  /** Whose turn it is: high before normal before low, and among equals who came first. */
  ghost predicate ServedInTurn(q: Queue, drainAt: int, now: int, external: set<string>, r: Option<Entry>) {
    match r
    case None => forall x <- q.entries :: !Waiting(q, drainAt, now, external, x)
    case Some(e) =>
      && Waiting(q, drainAt, now, external, e)
      && forall x <- q.entries :: Waiting(q, drainAt, now, external, x) ==>
        && (x.task.priority.High? ==> e.task.priority.High?)
        && (e.task.priority.Low? ==> x.task.priority.Low?)
        && (x.task.priority == e.task.priority ==> e.seqNo <= x.seqNo)
  }

  /** What stays queued: all but what was taken and what was past its deadline. */
  ghost predicate OthersStay(q: Queue, drainAt: int, r: Option<Entry>, q': Queue) {
    && Distinct(q'.entries)
    && forall x :: x in q'.entries <==> x in q.entries && !PastDeadline(x.task, drainAt) && r != Some(x)
  }

  // ---------------------------------------------------------------------
  // List facts
  // ---------------------------------------------------------------------

  lemma {:induction false} LiveAndLate(entries: seq<Entry>, now: int)
    ensures forall e :: e in Live(entries, now) <==> e in entries && !Expired(e.task, now)
    ensures forall e :: e in Late(entries, now) <==> e in entries && Expired(e.task, now)
  {
    if entries != [] {
      LiveAndLate(entries[1..], now);
    }
  }

  lemma DistinctCons(e: Entry, rest: seq<Entry>)
    requires Distinct(rest) && forall x <- rest :: e.seqNo < x.seqNo
    ensures Distinct([e] + rest)
  {
    var all := [e] + rest;
    forall i, j | 0 <= i < j < |all| ensures all[i].seqNo < all[j].seqNo {
      if i == 0 { assert all[j] in rest; } else { assert all[i] == rest[i - 1] && all[j] == rest[j - 1]; }
    }
  }

  lemma {:induction false} LiveIsDistinct(entries: seq<Entry>, now: int)
    requires Distinct(entries)
    ensures Distinct(Live(entries, now)) && Distinct(Late(entries, now))
  {
    if entries != [] {
      LiveIsDistinct(entries[1..], now);
      LiveAndLate(entries[1..], now);
      forall e | e in entries[1..] ensures entries[0].seqNo < e.seqNo {}
      if Expired(entries[0].task, now) {
        DistinctCons(entries[0], Late(entries[1..], now));
      } else {
        DistinctCons(entries[0], Live(entries[1..], now));
      }
    }
  }

  lemma {:induction false} WithoutIs(entries: seq<Entry>, e: Entry)
    requires Distinct(entries) && e in entries
    ensures Distinct(Without(entries, e)) && |Without(entries, e)| == |entries| - 1
    ensures forall x :: x in Without(entries, e) <==> x in entries && x != e
  {
    if entries[0] == e {
      forall x | x in entries[1..] ensures x != e {}
    } else {
      WithoutIs(entries[1..], e);
      forall x | x in entries[1..] ensures entries[0].seqNo < x.seqNo {}
    }
  }

  lemma EligibleIsWaiting(q: Queue, drainAt: int, now: int, external: set<string>, x: Entry)
    ensures Waiting(q, drainAt, now, external, x) <==>
      x in Drained(q, drainAt).entries && Eligible(x.task, now, q.completed + external)
  {
    LiveAndLate(q.entries, drainAt);
  }

  lemma TakenInTurn(q: Queue, drainAt: int, now: int, external: set<string>, e: Entry)
    requires First(Drained(q, drainAt).entries, now, q.completed + external, e)
    ensures ServedInTurn(q, drainAt, now, external, Some(e))
  {
    EligibleIsWaiting(q, drainAt, now, external, e);
    forall x <- q.entries | Waiting(q, drainAt, now, external, x) ensures x == e || KeyLess(e, x) {
      EligibleIsWaiting(q, drainAt, now, external, x);
    }
  }

  lemma NoneInTurn(q: Queue, drainAt: int, now: int, external: set<string>)
    requires forall e <- Drained(q, drainAt).entries :: !Eligible(e.task, now, q.completed + external)
    ensures ServedInTurn(q, drainAt, now, external, None)
  {
    forall x <- q.entries ensures !Waiting(q, drainAt, now, external, x) {
      EligibleIsWaiting(q, drainAt, now, external, x);
    }
  }

  lemma LeftInPlace(q: Queue, drainAt: int, r: Option<Entry>, q': Queue)
    requires WellFormed(q) && (r.Some? ==> r.value in Drained(q, drainAt).entries)
    requires q'.entries ==
      if r.Some? then Without(Drained(q, drainAt).entries, r.value) else Drained(q, drainAt).entries
    ensures OthersStay(q, drainAt, r, q')
  {
    LiveAndLate(q.entries, drainAt);
    LiveIsDistinct(q.entries, drainAt);
    if r.Some? { WithoutIs(Live(q.entries, drainAt), r.value); }
  }

  /** Whatever `next_task` may do serves the priorities in turn. */
  lemma PoppedInTurn(q: Queue, drainAt: int, now: int, external: set<string>, r: Option<Entry>, q': Queue)
    requires WellFormed(q) && Popped(q, drainAt, now, external, r, q')
    ensures ServedInTurn(q, drainAt, now, external, r) && OthersStay(q, drainAt, r, q')
  {
    LeftInPlace(q, drainAt, r, q');
    match r
    case Some(e) => TakenInTurn(q, drainAt, now, external, e);
    case None => NoneInTurn(q, drainAt, now, external);
  }

  lemma {:induction false} FindIdIs(entries: seq<Entry>, id: string)
    ensures FindId(entries, id).None? <==> forall e <- entries :: e.task.id != id
    ensures FindId(entries, id).Some? ==>
      FindId(entries, id).value in entries && FindId(entries, id).value.task.id == id
  {
    if entries != [] { FindIdIs(entries[1..], id); }
  }

  // ---------------------------------------------------------------------
  // Selection order
  // ---------------------------------------------------------------------

  function Insert(e: Entry, s: seq<Entry>): seq<Entry> {
    if s == [] then [e] else if KeyLess(e, s[0]) then [e] + s else [s[0]] + Insert(e, s[1..])
  }

  /** `sorted(entries, key=sort_key)`. */
  function SortByKey(entries: seq<Entry>): seq<Entry> {
    if entries == [] then [] else Insert(entries[0], SortByKey(entries[1..]))
  }

  ghost predicate SortedByKey(s: seq<Entry>) { forall i, j :: 0 <= i < j < |s| ==> KeyLess(s[i], s[j]) }

  lemma {:induction false} InsertSorts(e: Entry, s: seq<Entry>)
    requires SortedByKey(s) && forall x <- s :: x.seqNo != e.seqNo
    ensures SortedByKey(Insert(e, s)) && forall x :: x in Insert(e, s) <==> x == e || x in s
  {
    if s != [] && !KeyLess(e, s[0]) {
      InsertSorts(e, s[1..]);
      forall x | x in s[1..] ensures KeyLess(s[0], x) {}
    }
  }

  lemma {:induction false} SortSorts(entries: seq<Entry>)
    requires Distinct(entries)
    ensures SortedByKey(SortByKey(entries)) && forall x :: x in SortByKey(entries) <==> x in entries
  {
    if entries != [] {
      SortSorts(entries[1..]);
      forall x | x in SortByKey(entries[1..]) ensures x.seqNo != entries[0].seqNo {}
      InsertSorts(entries[0], SortByKey(entries[1..]));
    }
  }

  /** The first eligible entry of the sorted queue is the one owed the slot. */
  lemma FirstInOrder(entries: seq<Entry>, now: int, done: set<string>, i: nat)
    requires Distinct(entries) && i < |SortByKey(entries)| && Eligible(SortByKey(entries)[i].task, now, done)
    requires forall k :: 0 <= k < i ==> !Eligible(SortByKey(entries)[k].task, now, done)
    ensures First(entries, now, done, SortByKey(entries)[i])
  {
    SortSorts(entries);
    var s := SortByKey(entries);
    forall x <- entries | x != s[i] && Eligible(x.task, now, done) ensures KeyLess(s[i], x) {
      var j :| 0 <= j < |s| && s[j] == x;
    }
  }

  // ---------------------------------------------------------------------
  // The queue
  // ---------------------------------------------------------------------

  class TaskQueue {
    var entries: seq<Entry>
    var nextSeq: nat
    var known: set<string>
    var completed: set<string>

    ghost function State(): Queue reads this { Queue(entries, nextSeq, known, completed) }

    ghost predicate Valid() reads this { WellFormed(State()) }

    constructor ()
      ensures Valid() && State() == EMPTY
    {
      entries, nextSeq, known, completed := [], 0, {}, {};
    }

    /** Queues a task; an id already queued or running is refused, an empty one never. */
    method Add(t: Task) returns (r: Option<Entry>)
      requires Valid()
      modifies this
      ensures Valid() && State() == Added(old(State()), t)
      ensures old(Tidy(State())) ==> Tidy(State())
      ensures r == if t.id in old(known) then None else Some(Entry(t, old(nextSeq)))
    {
      ghost var q := State();
      if t.id != "" && t.id in known { return None; }
      r := Some(Entry(t, nextSeq));
      nextSeq := nextSeq + 1;
      entries := entries + [r.value];
      if t.id != "" { known := known + {t.id}; }
      assert State() == Added(q, t);
      AddKeepsWellFormed(q, t);
      AddKeepsTidy(q, t);
    }

    /** Pulls a task out without running it. */
    method Remove(id: string) returns (r: Option<Task>)
      requires Valid()
      modifies this
      ensures Valid() && State() == Removed(old(State()), id)
      ensures old(Tidy(State())) ==> Tidy(State())
      ensures r == match FindId(old(entries), id) case None => None case Some(e) => Some(e.task)
    {
      ghost var q := State();
      for i := 0 to |entries|
        invariant forall k :: 0 <= k < i ==> entries[k].task.id != id
        invariant State() == old(State())
      {
        if entries[i].task.id == id {
          FoundAt(entries, i);
          WithoutIs(entries, entries[i]);
          RemoveKeepsTidy(q, id);
          r := Some(entries[i].task);
          entries, known := entries[..i] + entries[i + 1..], known - {id};
          return;
        }
      }
      FindIdIs(entries, id);
      r := None;
    }

    /** Records a completion, so that dependants unblock at once. Of an id that is queued,
        it forgets the id and leaves the entry, so that the id can be queued again. */
    method MarkCompleted(id: string, ok: bool)
      requires Valid()
      modifies this
      ensures Valid() && State() == Completed(old(State()), id, ok)
      ensures old(Tidy(State())) ==>
        (Tidy(State()) <==> id == "" || forall e <- old(entries) :: e.task.id != id)
    {
      known := known - {id};
      if ok { completed := completed + {id}; }
    }

    /** Removes every entry whose deadline has passed. */
    method DrainExpired(now: int) returns (late: seq<Entry>)
      requires Valid()
      modifies this
      ensures Valid() && State() == Drained(old(State()), now) && late == Late(old(entries), now)
      ensures forall e :: e in late <==> e in old(entries) && PastDeadline(e.task, now)
      ensures forall e :: e in entries <==> e in old(entries) && !PastDeadline(e.task, now)
      ensures forall id :: id in known <==> id in old(known) && !exists e <- late :: e.task.id == id
      ensures old(Tidy(State())) ==> Tidy(State())
    {
      LiveIsDistinct(entries, now);
      LiveAndLate(entries, now);
      ghost var q := State();
      DrainKeepsQueue(q, now);
      if Tidy(q) { DrainKeepsTidy(q, now); }
      late := Late(entries, now);
      known := known - Ids(late);
      entries := Live(entries, now);
    }

    /** Dependencies an external index vouches for are remembered, up to the first unmet one. */
    method DependenciesMet(t: Task, external: set<string>) returns (met: bool)
      modifies this`completed
      ensures met <==> DepsMet(t, old(completed) + external)
      ensures old(completed) <= completed <= old(completed) + external
    {
      for i := 0 to |t.dependsOn|
        invariant forall k :: 0 <= k < i ==> t.dependsOn[k] in old(completed) + external
        invariant old(completed) <= completed <= old(completed) + external
      {
        var d := t.dependsOn[i];
        assert d in t.dependsOn;
        if d !in completed {
          if d !in external { return false; }
          completed := completed + {d};
        }
      }
      met := true;
    }

    /** `blocked_reason` is None. */
    method Unblocked(t: Task, now: int, external: set<string>) returns (ok: bool)
      modifies this`completed
      ensures ok <==> Eligible(t, now, old(completed) + external)
      ensures old(completed) <= completed <= old(completed) + external
    {
      if t.notBefore.Some? && now < t.notBefore.value { return false; }
      ok := DependenciesMet(t, external);
    }

    /** `next_task`, with the times at which it drains and at which it selects. */
    method NextTask(drainAt: int, now: int, external: set<string>) returns (r: Option<Entry>)
      requires Valid()
      modifies this
      ensures Valid() && Popped(old(State()), drainAt, now, external, r, State())
      ensures ServedInTurn(old(State()), drainAt, now, external, r) && OthersStay(old(State()), drainAt, r, State())
      ensures old(Tidy(State())) ==> Tidy(State())
    {
      ghost var q := State();
      var _ := DrainExpired(drainAt);
      r := Pop(now, external);
      PoppedInTurn(q, drainAt, now, external, r, State());
    }

    /** Pops the first eligible entry in sorted order. */
    method Pop(now: int, external: set<string>) returns (r: Option<Entry>)
      requires Valid()
      modifies this`entries, this`completed
      ensures Valid() && Taken(old(State()), now, external, r, State())
      ensures old(Tidy(State())) ==> Tidy(State())
    {
      ghost var q := State();
      ghost var done := completed + external;
      var order := SortByKey(entries);
      for i := 0 to |order|
        invariant State() == q.(completed := completed)
        invariant q.completed <= completed && completed + external == done
        invariant forall k :: 0 <= k < i ==> !Eligible(order[k].task, now, done)
      {
        var ok := Unblocked(order[i].task, now, external);
        if ok {
          TakeFirst(q, now, external, i, completed);
          entries := Without(entries, order[i]);
          return Some(order[i]);
        }
      }
      TakeNothing(q, now, external, completed);
      r := None;
    }
  }

  lemma TakeFirst(q: Queue, now: int, external: set<string>, i: nat, completed: set<string>)
    requires WellFormed(q) && q.completed <= completed <= q.completed + external && i < |SortByKey(q.entries)|
    requires Eligible(SortByKey(q.entries)[i].task, now, q.completed + external)
    requires forall k :: 0 <= k < i ==> !Eligible(SortByKey(q.entries)[k].task, now, q.completed + external)
    ensures var e := SortByKey(q.entries)[i];
      var q' := q.(entries := Without(q.entries, e), completed := completed);
      WellFormed(q') && Taken(q, now, external, Some(e), q') && (Tidy(q) ==> Tidy(q'))
  {
    var e := SortByKey(q.entries)[i];
    FirstInOrder(q.entries, now, q.completed + external, i);
    WithoutIs(q.entries, e);
  }

  lemma TakeNothing(q: Queue, now: int, external: set<string>, completed: set<string>)
    requires WellFormed(q) && q.completed <= completed <= q.completed + external
    requires forall e <- SortByKey(q.entries) :: !Eligible(e.task, now, q.completed + external)
    ensures Taken(q, now, external, None, q.(completed := completed))
  {
    SortSorts(q.entries);
    forall e <- q.entries ensures !Eligible(e.task, now, q.completed + external) {
      assert e in SortByKey(q.entries);
    }
  }

  lemma {:induction false} FoundBehind(all: seq<Entry>, front: seq<Entry>, e: Entry, back: seq<Entry>)
    requires all == front + ([e] + back) && forall x <- front :: x.task.id != e.task.id
    ensures FindId(all, e.task.id) == Some(e) && Without(all, e) == front + back
    decreases |front|
  {
    if front == [] {
      assert all[0] == e && all[1..] == back && front + back == back;
    } else {
      var x, rest := front[0], front[1..];
      assert x in front && all[0] == x && all[1..] == rest + ([e] + back);
      FoundBehind(all[1..], rest, e, back);
      assert [x] + (rest + back) == front + back;
    }
  }

  lemma CutAround(entries: seq<Entry>, i: nat)
    requires i < |entries|
    ensures entries == entries[..i] + ([entries[i]] + entries[i + 1..])
  {
  }

  lemma FoundAt(entries: seq<Entry>, i: nat)
    requires i < |entries| && forall k :: 0 <= k < i ==> entries[k].task.id != entries[i].task.id
    ensures FindId(entries, entries[i].task.id) == Some(entries[i])
    ensures Without(entries, entries[i]) == entries[..i] + entries[i + 1..]
  {
    CutAround(entries, i);
    FoundBehind(entries, entries[..i], entries[i], entries[i + 1..]);
  }

  lemma DrainKeepsQueue(q: Queue, now: int)
    requires WellFormed(q)
    ensures WellFormed(Drained(q, now))
  {
    LiveIsDistinct(q.entries, now);
    LiveAndLate(q.entries, now);
  }

  lemma DrainKeepsTidy(q: Queue, now: int)
    requires Tidy(q)
    ensures Tidy(Drained(q, now))
  {
    LiveAndLate(q.entries, now);
    forall e <- Live(q.entries, now) | e.task.id != "" ensures e.task.id !in Ids(Late(q.entries, now)) {
      forall x <- Late(q.entries, now) ensures x.task.id != e.task.id {}
    }
  }

  lemma AddKeepsWellFormed(q: Queue, t: Task)
    requires WellFormed(q)
    ensures WellFormed(Added(q, t))
  {}

  lemma AddKeepsTidy(q: Queue, t: Task)
    requires WellFormed(q)
    ensures Tidy(q) ==> Tidy(Added(q, t))
  {
    if t.id !in q.known {
      assert forall x :: x in Added(q, t).entries <==> x in q.entries || x == Entry(t, q.nextSeq);
    }
  }

  lemma RemoveKeepsTidy(q: Queue, id: string)
    requires WellFormed(q)
    ensures Tidy(q) ==> Tidy(Removed(q, id))
  {
    FindIdIs(q.entries, id);
    if FindId(q.entries, id).Some? { WithoutIs(q.entries, FindId(q.entries, id).value); }
  }
}
