/**
 * `workflow_event_stream` of `backend/app/realtime/service.py`: replay and live phase over an append-only log.
 *
 * Events are numbered 1, 2, 3, ... because an append takes the lock of its request and the number after the largest
 * one (`backend/app/workflow/repository.py`), so numbers become visible in order.
 */
module EventStream {
  import opened Common

  const MAX_REPLAY_EVENTS := 250

  datatype Visibility = REQUESTER | MANAGER | COMPANY | INTERNAL

  datatype Event = Event(number: nat, visibility: Visibility)

  type Log = seq<Event>

  ghost predicate Numbered(log: Log) {
    forall i | 0 <= i < |log| :: log[i].number == i + 1
  }

  /** `WorkflowEventRepository.append` under its lock. */
  function Appended(log: Log, visibility: Visibility): (r: Log)
    ensures Numbered(log) ==> Numbered(r)
  {
    log + [Event(Largest(log) + 1, visibility)]
  }

  /** `max(sequence_number)`, or zero */
  function Largest(log: Log): (m: nat)
    ensures Numbered(log) ==> m == |log|
  {
    if log == [] then 0
    else
      var rest := Largest(log[..|log| - 1]);
      if log[|log| - 1].number > rest then log[|log| - 1].number else rest
  }

  predicate Wanted(e: Event, allowed: set<Visibility>, low: int, high: int) {
    low < e.number <= high && e.visibility in allowed
  }

  /** The visible events with numbers in `(low, high]`, in the order of the log. */
  function Window(log: Log, allowed: set<Visibility>, low: int, high: int): seq<Event> {
    if log == [] then []
    else
      var e := log[|log| - 1];
      Window(log[..|log| - 1], allowed, low, high) + if Wanted(e, allowed, low, high) then [e] else []
  }

  /** All visible events behind a cursor. */
  function Pending(log: Log, allowed: set<Visibility>, cursor: int): seq<Event> {
    Window(log, allowed, cursor, |log|)
  }

  /** `list_for_request`: ascending, limited. */
  function ListForRequest(log: Log, allowed: set<Visibility>, after: int, limit: nat): seq<Event> {
    Take(Pending(log, allowed, after), limit)
  }

  ghost predicate Increasing(s: seq<Event>) {
    forall i, j | 0 <= i < j < |s| :: s[i].number < s[j].number
  }

  ghost predicate Within(s: seq<Event>, allowed: set<Visibility>, low: int, high: int) {
    forall i | 0 <= i < |s| :: Wanted(s[i], allowed, low, high)
  }

  // ----- windows -----

  lemma {:induction false} WindowIsInOrder(log: Log, allowed: set<Visibility>, low: int, high: int)
    requires Numbered(log)
    ensures Increasing(Window(log, allowed, low, high))
    ensures Within(Window(log, allowed, low, high), allowed, low, high)
    ensures Within(Window(log, allowed, low, high), allowed, low, |log|)
  {
    if log == [] {
    } else {
      var front := log[..|log| - 1];
      assert Numbered(front);
      WindowIsInOrder(front, allowed, low, high);
    }
  }

  /** A window holds exactly the events of the log whose number lies in it and whose visibility is allowed. */
  lemma {:induction false} WindowHolds(log: Log, allowed: set<Visibility>, low: int, high: int, e: Event)
    ensures e in Window(log, allowed, low, high) <==> e in log && low < e.number <= high && e.visibility in allowed
  {
    if log == [] {
    } else {
      var front, last := log[..|log| - 1], log[|log| - 1];
      WindowHolds(front, allowed, low, high, e);
      assert log == front + [last];
    }
  }

  /**
   * What a limited query returns, said of the log: visible events behind the cursor in ascending order, and where one is
   * missing, the limit is used up by events before it.
   */
  lemma ListIsFirst(log: Log, allowed: set<Visibility>, after: int, limit: nat)
    requires Numbered(log)
    ensures FirstOf(log, allowed, after, limit, ListForRequest(log, allowed, after, limit))
  {
    hide Window;
    var all, r := Pending(log, allowed, after), ListForRequest(log, allowed, after, limit);
    WindowIsInOrder(log, allowed, after, |log|);
    forall e | e in r ensures e in log && after < e.number && e.visibility in allowed {
      assert e in all;
      WindowHolds(log, allowed, after, |log|, e);
    }
    forall e | e in log && after < e.number && e.visibility in allowed && e !in r
      ensures |r| == limit && forall x | x in r :: x.number < e.number
    {
      WindowHolds(log, allowed, after, |log|, e);
      var i :| 0 <= i < |all| && all[i] == e;
      assert forall j | 0 <= j < |r| :: r[j] == all[j];
      assert |r| <= i;
    }
  }

  ghost predicate FirstOf(log: Log, allowed: set<Visibility>, after: int, limit: nat, r: seq<Event>) {
    && Increasing(r) && |r| <= limit
    && (forall e | e in r :: e in log && after < e.number && e.visibility in allowed)
    && (forall e | e in log && after < e.number && e.visibility in allowed && e !in r ::
          |r| == limit && forall x | x in r :: x.number < e.number)
  }

  lemma {:induction false} WindowSplits(log: Log, allowed: set<Visibility>, low: int, mid: int, high: int)
    requires Numbered(log) && low <= mid <= high
    ensures Window(log, allowed, low, high) == Window(log, allowed, low, mid) + Window(log, allowed, mid, high)
  {
    if log == [] {
    } else {
      var front, e := log[..|log| - 1], log[|log| - 1];
      assert Numbered(front);
      WindowSplits(front, allowed, low, mid, high);
      if e.number <= mid {
        WindowEmpty(front, allowed, mid, high);
      }
    }
  }

  lemma {:induction false} WindowEmpty(log: Log, allowed: set<Visibility>, low: int, high: int)
    requires Numbered(log) && (|log| <= low || high <= low)
    ensures Window(log, allowed, low, high) == []
  {
    if log == [] {
    } else {
      assert Numbered(log[..|log| - 1]);
      WindowEmpty(log[..|log| - 1], allowed, low, high);
    }
  }

  /** Events that are appended later lie outside of every window that is closed already. */
  lemma WindowOfLongerLog(log: Log, visibility: Visibility, allowed: set<Visibility>, low: int, high: int)
    requires Numbered(log) && high <= |log|
    ensures Window(Appended(log, visibility), allowed, low, high) == Window(log, allowed, low, high)
  {
    var longer := Appended(log, visibility);
    assert longer[..|longer| - 1] == log;
  }

  /** The first `k` events of a window are the window up to the `k`-th one. */
  lemma PrefixIsWindow(log: Log, allowed: set<Visibility>, low: int, high: int, k: nat)
    requires Numbered(log) && 0 < k <= |Window(log, allowed, low, high)|
    ensures var w := Window(log, allowed, low, high);
      && low < w[k - 1].number <= high && w[k - 1].number <= |log|
      && w[..k] == Window(log, allowed, low, w[k - 1].number)
      && w[k..] == Window(log, allowed, w[k - 1].number, high)
  {
    hide Window;
    var w := Window(log, allowed, low, high);
    WindowIsInOrder(log, allowed, low, high);
    assert Wanted(w[k - 1], allowed, low, high) && Wanted(w[k - 1], allowed, low, |log|);
    var m := w[k - 1].number;
    WindowSplits(log, allowed, low, m, high);
    WindowIsInOrder(log, allowed, low, m);
    WindowIsInOrder(log, allowed, m, high);
    var head, tail := Window(log, allowed, low, m), Window(log, allowed, m, high);
    assert forall i | 0 <= i < |w| :: if i < |head| then w[i] == head[i] else w[i] == tail[i - |head|];
    assert forall i | 0 <= i < |head| :: w[i].number <= m;
    assert forall i | |head| <= i < |w| :: w[i].number > m;
    assert k == |w| || w[k].number > m;
  }

  // ----- the stream -----

  /** Where a live phase stands: the cursor of the client, the last cursor, and what was sent. */
  datatype Stream = Stream(start: int, last: int, sent: seq<Event>)

  /** One round of the `while True` loop. */
  function Poll(log: Log, allowed: set<Visibility>, s: Stream): Stream {
    var batch := ListForRequest(log, allowed, s.last, SSE_BATCH_SIZE);
    s.(last := if batch == [] then s.last else batch[|batch| - 1].number, sent := s.sent + batch)
  }

  /** Exactly the visible events between the client's cursor and the last cursor were sent, each once, in order. */
  ghost predicate Exact(log: Log, allowed: set<Visibility>, s: Stream) {
    && s.start <= s.last && (s.last <= |log| || s.last == s.start)
    && s.sent == Window(log, allowed, s.start, s.last)
  }

  lemma PollKeepsExact(log: Log, allowed: set<Visibility>, s: Stream)
    requires Numbered(log) && Exact(log, allowed, s)
    ensures Exact(log, allowed, Poll(log, allowed, s))
    ensures Pending(log, allowed, Poll(log, allowed, s).last) ==
      var waiting := Pending(log, allowed, s.last); if |waiting| <= SSE_BATCH_SIZE then [] else waiting[SSE_BATCH_SIZE..]
  {
    hide Window;
    var waiting := Pending(log, allowed, s.last);
    var batch := ListForRequest(log, allowed, s.last, SSE_BATCH_SIZE);
    if waiting != [] {
      PrefixIsWindow(log, allowed, s.last, |log|, |batch|);
      assert waiting[..|batch|] == batch;
      WindowSplits(log, allowed, s.start, s.last, batch[|batch| - 1].number);
    }
  }

  lemma AppendKeepsExact(log: Log, visibility: Visibility, allowed: set<Visibility>, s: Stream)
    requires Numbered(log) && Exact(log, allowed, s)
    ensures Exact(Appended(log, visibility), allowed, s)
  {
    if s.last <= |log| {
      WindowOfLongerLog(log, visibility, allowed, s.start, s.last);
    } else {
      WindowEmpty(log, allowed, s.start, s.last);
      WindowEmpty(Appended(log, visibility), allowed, s.start, s.last);
    }
  }

  // ----- runs -----

  datatype Action = Append(visibility: Visibility) | PollOnce

  /** The log and the stream after a sequence of appends and polls, from a given log and cursor on. */
  function Run(log: Log, allowed: set<Visibility>, cursor: int, actions: seq<Action>): (Log, Stream) {
    if actions == [] then (log, Stream(cursor, cursor, []))
    else
      var (l, s) := Run(log, allowed, cursor, actions[..|actions| - 1]);
      match actions[|actions| - 1]
      case Append(visibility) => (Appended(l, visibility), s)
      case PollOnce => (l, Poll(l, allowed, s))
  }

  /**
   * At every moment of every run the stream is exact: what was sent is every visible event behind the client's cursor up
   * to the last cursor, and nothing else, once each and in order.
   */
  lemma {:induction false} LivePhaseIsExact(log: Log, allowed: set<Visibility>, cursor: int, actions: seq<Action>)
    requires Numbered(log)
    ensures var (l, s) := Run(log, allowed, cursor, actions);
      && Numbered(l) && log <= l && s.start == cursor && Exact(l, allowed, s) && Increasing(s.sent)
      && (forall e :: e in s.sent <==> e in l && cursor < e.number <= s.last && e.visibility in allowed)
  {
    hide Window, Exact, Poll;
    if actions == [] {
      WindowIsInOrder(log, allowed, cursor, cursor);
      StartsExact(log, allowed, cursor);
    } else {
      var front := actions[..|actions| - 1];
      LivePhaseIsExact(log, allowed, cursor, front);
      var (l, s) := Run(log, allowed, cursor, front);
      match actions[|actions| - 1]
      case Append(visibility) =>
        AppendKeepsExact(l, visibility, allowed, s);
      case PollOnce =>
        PollKeepsExact(l, allowed, s);
        PollKeepsStart(l, allowed, s);
        ExactIsIncreasing(l, allowed, Poll(l, allowed, s));
    }
    var (l, s) := Run(log, allowed, cursor, actions);
    ExactHolds(l, allowed, s);
  }

  lemma ExactHolds(log: Log, allowed: set<Visibility>, s: Stream)
    requires Exact(log, allowed, s)
    ensures forall e :: e in s.sent <==> e in log && s.start < e.number <= s.last && e.visibility in allowed
  {
    hide Window;
    forall e ensures e in s.sent <==> e in log && s.start < e.number <= s.last && e.visibility in allowed {
      WindowHolds(log, allowed, s.start, s.last, e);
    }
  }

  lemma StartsExact(log: Log, allowed: set<Visibility>, cursor: int)
    requires Numbered(log)
    ensures Exact(log, allowed, Stream(cursor, cursor, []))
  {
    WindowEmpty(log, allowed, cursor, cursor);
  }

  lemma PollKeepsStart(log: Log, allowed: set<Visibility>, s: Stream)
    ensures Poll(log, allowed, s).start == s.start
  {
  }

  lemma ExactIsIncreasing(log: Log, allowed: set<Visibility>, s: Stream)
    requires Numbered(log) && Exact(log, allowed, s)
    ensures Increasing(s.sent)
  {
    WindowIsInOrder(log, allowed, s.start, s.last);
  }

  function Polls(log: Log, allowed: set<Visibility>, s: Stream, k: nat): Stream
    decreases k
  {
    if k == 0 then s else Polls(log, allowed, Poll(log, allowed, s), k - 1)
  }

  function Drop<T>(s: seq<T>, n: nat): seq<T> {
    if n <= |s| then s[n..] else []
  }

  /** With no appends in between, `k` polls catch up exactly when no more than `50 k` events are waiting. */
  lemma {:induction false} PollsCatchUp(log: Log, allowed: set<Visibility>, s: Stream, k: nat)
    requires Numbered(log) && Exact(log, allowed, s)
    ensures var after := Polls(log, allowed, s, k);
      && Exact(log, allowed, after) && after.start == s.start
      && Pending(log, allowed, after.last) == Drop(Pending(log, allowed, s.last), 50 * k)
      && (after.sent == Pending(log, allowed, s.start) <==> |Pending(log, allowed, s.last)| <= 50 * k)
    decreases k
  {
    hide Window, Poll, Pending, Exact;
    var after := Polls(log, allowed, s, k);
    if k == 0 {
    } else {
      PollKeepsExact(log, allowed, s);
      PollKeepsStart(log, allowed, s);
      PollsCatchUp(log, allowed, Poll(log, allowed, s), k - 1);
    }
    SentAndWaiting(log, allowed, s);
    SentAndWaiting(log, allowed, after);
  }

  /** What was sent and what is waiting are together everything behind the client's cursor. */
  lemma SentAndWaiting(log: Log, allowed: set<Visibility>, s: Stream)
    requires Numbered(log) && Exact(log, allowed, s)
    ensures s.sent + Pending(log, allowed, s.last) == Pending(log, allowed, s.start)
  {
    if s.last <= |log| {
      WindowSplits(log, allowed, s.start, s.last, |log|);
    } else {
      WindowEmpty(log, allowed, s.start, s.last);
      WindowEmpty(log, allowed, s.start, |log|);
      WindowEmpty(log, allowed, s.last, |log|);
    }
  }

  /**
   * The replay does not move the cursor of the live phase: whatever it sent is what the live phase sends first, so a
   * reconnecting client receives it twice.
   */
  lemma ReplayIsSentAgain(log: Log, allowed: set<Visibility>, cursor: int, actions: seq<Action>)
    requires Numbered(log)
    ensures var replay, sent := ListForRequest(log, allowed, cursor, MAX_REPLAY_EVENTS), Run(log, allowed, cursor, actions).1.sent;
      if |replay| <= |sent| then sent[..|replay|] == replay else replay[..|sent|] == sent
  {
    hide Window, Poll, Run;
    LivePhaseIsExact(log, allowed, cursor, actions);
    var (l, s) := Run(log, allowed, cursor, actions);
    PendingOfLongerLog(log, l, allowed, cursor);
    SentIsPrefix(l, allowed, s);
  }

  lemma SentIsPrefix(log: Log, allowed: set<Visibility>, s: Stream)
    requires Numbered(log) && Exact(log, allowed, s)
    ensures s.sent <= Pending(log, allowed, s.start)
  {
    SentAndWaiting(log, allowed, s);
  }

  lemma PendingOfLongerLog(log: Log, longer: Log, allowed: set<Visibility>, cursor: int)
    requires Numbered(log) && Numbered(longer) && log <= longer
    ensures Pending(log, allowed, cursor) <= Pending(longer, allowed, cursor)
  {
    hide Window;
    SameWindow(log, longer, allowed, cursor, |log|);
    if cursor <= |log| {
      WindowSplits(longer, allowed, cursor, |log|, |longer|);
    } else {
      WindowEmpty(log, allowed, cursor, |log|);
    }
  }

  lemma {:induction false} SameWindow(log: Log, longer: Log, allowed: set<Visibility>, low: int, high: int)
    requires Numbered(longer) && log <= longer && high <= |log|
    ensures Window(longer, allowed, low, high) == Window(log, allowed, low, high)
    decreases |longer|
  {
    if |longer| > |log| {
      SameWindow(log, longer[..|longer| - 1], allowed, low, high);
    } else {
      assert longer == log;
    }
  }

  // ----- the generator -----

  /** The comprehension that filters once more what the query selected. */
  function NewOnes(events: seq<Event>, allowed: set<Visibility>, last: int): seq<Event> {
    if events == [] then []
    else
      var e := events[|events| - 1];
      NewOnes(events[..|events| - 1], allowed, last) + if e.number > last && e.visibility in allowed then [e] else []
  }

  lemma {:induction false} AllAreNew(events: seq<Event>, allowed: set<Visibility>, last: int, high: int)
    requires Within(events, allowed, last, high)
    ensures NewOnes(events, allowed, last) == events
  {
    if events == [] {
    } else {
      assert Wanted(events[|events| - 1], allowed, last, high);
      AllAreNew(events[..|events| - 1], allowed, last, high);
    }
  }

  /** `new_events.sort(key=...)` on a list that is in order already is the list itself. */
  function InsertByNumber(s: seq<Event>, e: Event): seq<Event> {
    if s == [] || s[|s| - 1].number <= e.number then s + [e]
    else InsertByNumber(s[..|s| - 1], e) + [s[|s| - 1]]
  }

  function SortByNumber(s: seq<Event>): seq<Event> {
    if s == [] then [] else InsertByNumber(SortByNumber(s[..|s| - 1]), s[|s| - 1])
  }

  lemma {:induction false} SortedStays(s: seq<Event>)
    requires Increasing(s)
    ensures SortByNumber(s) == s
  {
    if s == [] {
    } else {
      SortedStays(s[..|s| - 1]);
    }
  }

  class WorkflowEventStream {
    const allowed: set<Visibility>
    const start: int
    var lastCursor: int
    var replayed: seq<Event>
    var sent: seq<Event>

    /** `last_event_id` was parsed already; without one the cursor is 0 and nothing is replayed. */
    constructor (allowed: set<Visibility>, cursor: Option<int>, log: Log)
      requires Numbered(log)
      ensures this.allowed == allowed && start == (if cursor.Some? then cursor.value else 0)
      ensures lastCursor == start && sent == []
      ensures replayed == if cursor.None? then [] else ListForRequest(log, allowed, cursor.value, MAX_REPLAY_EVENTS)
      ensures cursor.Some? ==> FirstOf(log, allowed, cursor.value, 250, replayed)
    {
      hide Window, FirstOf;
      this.allowed := allowed;
      start := if cursor.Some? then cursor.value else 0;
      lastCursor := if cursor.Some? then cursor.value else 0;
      replayed := [];
      sent := [];
      new;
      if cursor.Some? {
        WindowIsInOrder(log, allowed, cursor.value, |log|);
        ListIsFirst(log, allowed, cursor.value, MAX_REPLAY_EVENTS);
        var events := ListForRequest(log, allowed, cursor.value, MAX_REPLAY_EVENTS);
        var i := 0;
        while i < |events|
          invariant 0 <= i <= |events| && replayed == events[..i]
          invariant lastCursor == start && sent == []
        {
          if events[i].number > cursor.value && events[i].visibility in allowed {
            replayed := replayed + [events[i]];
            if |replayed| >= MAX_REPLAY_EVENTS {
              break;
            }
          }
          i := i + 1;
        }
      }
    }

    ghost function View(): Stream
      reads this
    {
      Stream(start, lastCursor, sent)
    }

    /** One round of the loop: read, filter, sort, send. */
    method PollNow(log: Log)
      requires Numbered(log) && Exact(log, allowed, View())
      modifies this
      ensures View() == Poll(log, allowed, old(View()))
      ensures Exact(log, allowed, View()) && replayed == old(replayed)
      ensures exists batch ::
        FirstOf(log, allowed, old(lastCursor), 50, batch) && sent == old(sent) + batch
    {
      hide Window, Exact, SortByNumber;
      PollKeepsExact(log, allowed, View());
      ListIsFirst(log, allowed, lastCursor, SSE_BATCH_SIZE);
      WindowIsInOrder(log, allowed, lastCursor, |log|);
      var events := ListForRequest(log, allowed, lastCursor, SSE_BATCH_SIZE);
      var newEvents := OnlyNew(events);
      AllAreNew(events, allowed, lastCursor, |log|);
      SortedStays(newEvents);
      Send(SortByNumber(newEvents));
    }

    method OnlyNew(events: seq<Event>) returns (newEvents: seq<Event>)
      ensures newEvents == NewOnes(events, allowed, lastCursor)
    {
      newEvents := [];
      var i := 0;
      while i < |events|
        invariant 0 <= i <= |events|
        invariant newEvents == NewOnes(events[..i], allowed, lastCursor)
      {
        assert events[..i + 1][..i] == events[..i];
        if events[i].number > lastCursor && events[i].visibility in allowed {
          newEvents := newEvents + [events[i]];
        }
        i := i + 1;
      }
      assert events[..|events|] == events;
    }

    method Send(events: seq<Event>)
      modifies this
      ensures sent == old(sent) + events && replayed == old(replayed)
      ensures lastCursor == if events == [] then old(lastCursor) else events[|events| - 1].number
    {
      var i := 0;
      while i < |events|
        invariant 0 <= i <= |events| && replayed == old(replayed)
        invariant sent == old(sent) + events[..i]
        invariant lastCursor == if i == 0 then old(lastCursor) else events[i - 1].number
      {
        sent := sent + [events[i]];
        lastCursor := events[i].number;
        i := i + 1;
      }
    }
  }
}
