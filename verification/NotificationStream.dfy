/**
 * `notification_stream` of `backend/app/realtime/service.py`. The query behind it returns the newest rows only
 * (`backend/app/notifications/repository.py`), newest first; the stream filters by its cursor and sends oldest first.
 *
 * A table is the list of a user's unexpired notifications in ascending order of (created_at, id). Between two polls
 * rows may arrive and expire.
 */
module NotificationStream {
  import opened Common

  const MAX_REPLAY_NOTIFICATIONS := 250

  /** A notification, as far as order is concerned; a cursor is the one that was sent last. */
  datatype Note = Note(created: int, id: nat)

  type Table = seq<Note>

  type Cursor = Option<Note>

  predicate Less(a: Note, b: Note) {
    a.created < b.created || (a.created == b.created && a.id < b.id)
  }

  predicate Behind(c: Cursor, n: Note) {
    c.None? || Less(c.value, n)
  }

  ghost predicate Ascending(s: seq<Note>) {
    forall i, j | 0 <= i < j < |s| :: Less(s[i], s[j])
  }

  ghost predicate Descending(s: seq<Note>) {
    forall i, j | 0 <= i < j < |s| :: Less(s[j], s[i])
  }

  function Reverse(s: seq<Note>): (r: seq<Note>)
    ensures |r| == |s| && forall i | 0 <= i < |s| :: r[i] == s[|s| - 1 - i]
  {
    if s == [] then [] else Reverse(s[1..]) + [s[0]]
  }

  function LastOf(s: seq<Note>, n: nat): seq<Note> {
    if n < |s| then s[|s| - n..] else s
  }

  /** `list_for_recipient`: newest first, limited. */
  function ListForRecipient(table: Table, limit: nat): seq<Note> {
    Reverse(LastOf(table, limit))
  }

  /** The rows behind a cursor. */
  function Above(s: seq<Note>, c: Cursor): seq<Note> {
    if s == [] then []
    else Above(s[..|s| - 1], c) + if Behind(c, s[|s| - 1]) then [s[|s| - 1]] else []
  }

  lemma BehindIsUpwards(c: Cursor, a: Note, b: Note)
    requires Less(a, b) && Behind(c, a)
    ensures Behind(c, b)
  {
  }

  /** In an ordered table the rows behind a cursor are its end. */
  lemma {:induction false} AboveIsSuffix(s: seq<Note>, c: Cursor) returns (cut: nat)
    requires Ascending(s)
    ensures cut <= |s| && Above(s, c) == s[cut..]
    ensures forall i | 0 <= i < |s| :: Behind(c, s[i]) <==> cut <= i
  {
    hide Less, Behind;
    cut := 0;
    if s == [] {
    } else {
      var n := |s| - 1;
      cut := AboveIsSuffix(s[..n], c);
      assert forall i | 0 <= i < n :: s[..n][i] == s[i];
      if Behind(c, s[n]) {
        assert s[cut..] == s[..n][cut..] + [s[n]];
      } else {
        if cut < n {
          BehindIsUpwards(c, s[cut], s[n]);
        }
        cut := n + 1;
      }
    }
  }

  lemma NewestAscends(table: Table, n: nat)
    requires Ascending(table)
    ensures Ascending(LastOf(table, n))
  {
  }

  lemma AboveOfSuffix(table: Table, c: Cursor, cut: nat, d: nat)
    requires Ascending(table) && cut <= |table| && d <= |table|
    requires forall i | 0 <= i < |table| :: Behind(c, table[i]) <==> cut <= i
    ensures Above(table[d..], c) == if cut <= d then table[d..] else table[cut..]
  {
    hide Above;
    var newest := table[d..];
    assert forall i | 0 <= i < |newest| :: newest[i] == table[d + i];
    var cut' := AboveIsSuffix(newest, c);
    if cut <= d {
      assert |newest| > 0 ==> Behind(c, newest[0]);
    } else {
      assert !Behind(c, newest[cut - d - 1]);
      assert cut < |table| ==> Behind(c, newest[cut - d]);
      assert cut' == cut - d;
    }
    assert newest[cut'..] == table[d + cut'..];
  }

  /** The newest `n` rows behind a cursor are the newest `n` of the rows behind it. */
  lemma NewestAbove(table: Table, c: Cursor, n: nat)
    requires Ascending(table)
    ensures Above(LastOf(table, n), c) == LastOf(Above(table, c), n)
  {
    hide Above, Ascending;
    var cut := AboveIsSuffix(table, c);
    if n < |table| {
      AboveOfSuffix(table, c, cut, |table| - n);
      assert table[|table| - n..] == LastOf(table, n);
    }
  }

  // ----- sorting -----

  /** `new_notifications.sort(key=lambda n: (n.created_at, n.id))` */
  function Insert(s: seq<Note>, n: Note): seq<Note> {
    if s == [] || !Less(n, s[|s| - 1]) then s + [n] else Insert(s[..|s| - 1], n) + [s[|s| - 1]]
  }

  function Sort(s: seq<Note>): seq<Note> {
    if s == [] then [] else Insert(Sort(s[..|s| - 1]), s[|s| - 1])
  }

  lemma {:induction false} InsertSmallest(s: seq<Note>, n: Note)
    requires forall i | 0 <= i < |s| :: Less(n, s[i])
    ensures Insert(s, n) == [n] + s
  {
    if s == [] {
    } else {
      InsertSmallest(s[..|s| - 1], n);
      assert s == s[..|s| - 1] + [s[|s| - 1]];
    }
  }

  lemma {:induction false} ReverseAppend(s: seq<Note>, n: Note)
    ensures Reverse(s + [n]) == [n] + Reverse(s)
  {
    var all := s + [n];
    assert forall i | 0 <= i < |all| :: Reverse(all)[i] == all[|all| - 1 - i];
  }

  /** Sorting what the query returned newest first puts the oldest first. */
  lemma {:induction false} SortReverses(s: seq<Note>)
    requires Descending(s)
    ensures Sort(s) == Reverse(s)
  {
    hide Reverse, Insert;
    if s == [] {
      assert Reverse(s) == [];
    } else {
      var front, last := s[..|s| - 1], s[|s| - 1];
      SortReverses(front);
      forall i | 0 <= i < |front| ensures Less(last, Reverse(front)[i]) {
        assert Reverse(front)[i] == s[|front| - 1 - i];
      }
      InsertSmallest(Reverse(front), last);
      ReverseAppend(front, last);
      assert s == front + [last];
    }
  }

  lemma ReverseReverse(s: seq<Note>)
    ensures Reverse(Reverse(s)) == s
  {
    var r := Reverse(Reverse(s));
    assert forall i | 0 <= i < |s| :: r[i] == Reverse(s)[|s| - 1 - i] == s[i];
  }

  lemma {:induction false} AboveReverse(s: seq<Note>, c: Cursor)
    ensures Above(Reverse(s), c) == Reverse(Above(s, c))
  {
    hide Reverse;
    if s == [] {
      assert Reverse(s) == [];
    } else {
      var front, last := s[..|s| - 1], s[|s| - 1];
      var mine := if Behind(c, last) then [last] else [];
      AboveReverse(front, c);
      assert s == front + [last];
      ReverseAppend(front, last);
      AboveFirst(last, Reverse(front), c);
      assert Above(Reverse(s), c) == mine + Reverse(Above(front, c));
      ReverseAppend(Above(front, c), last);
    }
  }

  lemma {:induction false} AboveFirst(n: Note, s: seq<Note>, c: Cursor)
    ensures Above([n] + s, c) == (if Behind(c, n) then [n] else []) + Above(s, c)
  {
    var all := [n] + s;
    if s == [] {
      assert all[..0] == [];
    } else {
      AboveFirst(n, s[..|s| - 1], c);
      assert all[..|all| - 1] == [n] + s[..|s| - 1];
    }
  }

  // ----- the live phase -----

  datatype Stream = Stream(last: Cursor, sent: seq<Note>)

  /** What one round of the loop sends. */
  function Batch(table: Table, c: Cursor): seq<Note> {
    Sort(Above(ListForRecipient(table, SSE_BATCH_SIZE), c))
  }

  function Poll(table: Table, s: Stream): Stream {
    var batch := Batch(table, s.last);
    Stream(if batch == [] then s.last else Some(batch[|batch| - 1]), s.sent + batch)
  }

  /** One round sends the newest 50 of the rows behind the cursor, oldest first. */
  lemma BatchIsNewest(table: Table, c: Cursor)
    requires Ascending(table)
    ensures Batch(table, c) == LastOf(Above(table, c), SSE_BATCH_SIZE)
  {
    hide Sort, Above, LastOf;
    var newest := LastOf(table, SSE_BATCH_SIZE);
    NewestAbove(table, c, SSE_BATCH_SIZE);
    AboveReverse(newest, c);
    var selected := Above(newest, c);
    SuffixAscends(table, c, SSE_BATCH_SIZE);
    assert Ascending(selected);
    assert Descending(Reverse(selected));
    SortReverses(Reverse(selected));
    ReverseReverse(selected);
  }

  lemma SuffixAscends(table: Table, c: Cursor, n: nat)
    requires Ascending(table)
    ensures Ascending(LastOf(Above(table, c), n))
  {
    var cut := AboveIsSuffix(table, c);
  }

  /** A round sends everything behind the cursor exactly when no more than 50 rows are; otherwise the oldest are lost. */
  lemma PollIsCompleteExactlyWhen(table: Table, c: Cursor)
    requires Ascending(table)
    ensures Batch(table, c) == Above(table, c) <==> |Above(table, c)| <= 50
    ensures |Above(table, c)| > SSE_BATCH_SIZE ==>
      var lost := Above(table, c)[..|Above(table, c)| - SSE_BATCH_SIZE];
      var after := Poll(table, Stream(c, [])).last;
      forall n | n in lost :: n !in Batch(table, c) && !Behind(after, n)
  {
    hide Above, Batch;
    BatchIsNewest(table, c);
    SuffixAscends(table, c, |Above(table, c)|);
    var all := Above(table, c);
    if |all| > SSE_BATCH_SIZE {
      var k := |all| - SSE_BATCH_SIZE;
      var batch := Batch(table, c);
      forall n | n in all[..k] ensures n !in batch && !Behind(Some(batch[|batch| - 1]), n) {
        var i :| 0 <= i < k && all[i] == n;
        assert forall j | 0 <= j < |batch| :: batch[j] == all[k + j] && Less(n, batch[j]);
      }
    }
  }

  // ----- runs -----

  /** The stream after polls of the tables `tables[..n]`. */
  function After(tables: seq<Table>, start: Cursor, n: nat): Stream
    requires n <= |tables|
  {
    if n == 0 then Stream(start, []) else Poll(tables[n - 1], After(tables, start, n - 1))
  }

  ghost predicate AllAscending(tables: seq<Table>) {
    forall i | 0 <= i < |tables| :: Ascending(tables[i])
  }

  /** Everything sent is in order, lies behind the start and not behind the cursor, and the cursor is what was sent last. */
  ghost predicate StreamOk(start: Cursor, s: Stream) {
    && Ascending(s.sent)
    && (forall i | 0 <= i < |s.sent| :: Behind(start, s.sent[i]))
    && s.last == if s.sent == [] then start else Some(s.sent[|s.sent| - 1])
  }

  lemma PollKeepsOk(table: Table, start: Cursor, s: Stream)
    requires Ascending(table) && StreamOk(start, s)
    ensures StreamOk(start, Poll(table, s))
  {
    hide Above, Batch;
    BatchIsNewest(table, s.last);
    SuffixAscends(table, s.last, SSE_BATCH_SIZE);
    var batch := Batch(table, s.last);
    var cut := AboveIsSuffix(table, s.last);
    forall i | 0 <= i < |batch| ensures Behind(s.last, batch[i]) && Behind(start, batch[i]) {
      var all := Above(table, s.last);
      var j := if SSE_BATCH_SIZE < |all| then |all| - SSE_BATCH_SIZE + i else i;
      assert batch[i] == all[j] == table[cut + j];
    }
    var sent := s.sent + batch;
    forall i, j | 0 <= i < j < |sent| ensures Less(sent[i], sent[j]) {
      if i < |s.sent| <= j {
        assert Behind(s.last, batch[j - |s.sent|]);
        assert i == |s.sent| - 1 || Less(s.sent[i], s.sent[|s.sent| - 1]);
      }
    }
  }

  /** Over every run of polls, whatever arrives and expires, the output is strictly increasing. */
  lemma {:induction false} LiveOutputIncreases(tables: seq<Table>, start: Cursor, n: nat)
    requires AllAscending(tables) && n <= |tables|
    ensures StreamOk(start, After(tables, start, n))
  {
    hide Poll;
    if n == 0 {
    } else {
      LiveOutputIncreases(tables, start, n - 1);
      PollKeepsOk(tables[n - 1], start, After(tables, start, n - 1));
    }
  }

  /** At no poll more than 50 rows lie behind the cursor, and a row seen for the first time does. */
  ghost predicate KeepsUp(tables: seq<Table>, start: Cursor) {
    forall j | 0 <= j < |tables| ::
      var c := After(tables, start, j).last;
      && |Above(tables[j], c)| <= SSE_BATCH_SIZE
      && forall x | x in tables[j] && (forall i | 0 <= i < j :: x !in tables[i]) :: Behind(start, x) ==> Behind(c, x)
  }

  lemma {:induction false} SentStays(tables: seq<Table>, start: Cursor, m: nat, n: nat, x: Note)
    requires m <= n <= |tables| && x in After(tables, start, m).sent
    ensures x in After(tables, start, n).sent
    decreases n - m
  {
    hide Batch;
    if m == n {
    } else {
      SentStays(tables, start, m, n - 1, x);
    }
  }

  lemma SeenIsSent(table: Table, s: Stream, x: Note)
    requires Ascending(table) && |Above(table, s.last)| <= SSE_BATCH_SIZE
    requires x in table && Behind(s.last, x)
    ensures x in Poll(table, s).sent
  {
    hide Above, Batch;
    PollIsCompleteExactlyWhen(table, s.last);
    var cut := AboveIsSuffix(table, s.last);
    var i :| 0 <= i < |table| && table[i] == x;
    assert Above(table, s.last)[i - cut] == x;
  }

  lemma {:induction false} AboveHolds(s: seq<Note>, c: Cursor, x: Note)
    ensures x in Above(s, c) <==> x in s && Behind(c, x)
  {
    hide Behind;
    if s == [] {
    } else {
      AboveHolds(s[..|s| - 1], c, x);
      assert s == s[..|s| - 1] + [s[|s| - 1]];
    }
  }

  /** The row is one of the last `n` of a table. */
  ghost predicate AmongNewest(table: Table, n: nat, x: Note) {
    exists k: nat :: |table| - n <= k < |table| && table[k] == x
  }

  lemma LastOfHolds(table: Table, n: nat, x: Note)
    ensures x in LastOf(table, n) <==> AmongNewest(table, n, x)
  {
    var newest, d := LastOf(table, n), if n < |table| then |table| - n else 0;
    assert forall i | 0 <= i < |newest| :: newest[i] == table[d + i];
    if k: nat :| |table| - n <= k < |table| && table[k] == x {
      assert newest[k - d] == x;
    }
  }

  /** Later than the row at the cursor, or of the same time and with a larger id. */
  ghost predicate LaterThan(c: Cursor, x: Note) {
    match c
    case None => true
    case Some(n) => n.created < x.created || (n.created == x.created && n.id < x.id)
  }

  /** Poll `j` of a run finds the row later than its cursor and among the newest 50 of the table. */
  ghost predicate CaughtAt(tables: seq<Table>, start: Cursor, j: nat, x: Note)
    requires j < |tables|
  {
    LaterThan(After(tables, start, j).last, x) && AmongNewest(tables[j], 50, x)
  }

  /** The replay sends exactly the rows that are later than the client's cursor and among the newest 250. */
  lemma ReplayedExactlyWhen(table: Table, cursor: Note, x: Note)
    requires Ascending(table)
    ensures x in LastOf(Above(table, Some(cursor)), MAX_REPLAY_NOTIFICATIONS) <==>
      LaterThan(Some(cursor), x) && AmongNewest(table, 250, x)
  {
    hide Above, LastOf, AmongNewest;
    NewestAbove(table, Some(cursor), MAX_REPLAY_NOTIFICATIONS);
    AboveHolds(LastOf(table, MAX_REPLAY_NOTIFICATIONS), Some(cursor), x);
    LastOfHolds(table, MAX_REPLAY_NOTIFICATIONS, x);
  }

  /** Whatever arrives and expires: a row is sent exactly if some poll catches it, and never twice. */
  lemma {:induction false} DeliveredExactlyWhen(tables: seq<Table>, start: Cursor, n: nat, x: Note)
    requires AllAscending(tables) && n <= |tables|
    ensures x in After(tables, start, n).sent <==> exists j: nat :: j < n && CaughtAt(tables, start, j, x)
    ensures var sent := After(tables, start, n).sent; forall i, j | 0 <= i < j < |sent| :: sent[i] != sent[j]
  {
    hide Batch, Above, LastOf, Ascending, AmongNewest;
    LiveOutputIncreases(tables, start, n);
    AscendingIsDistinct(After(tables, start, n).sent);
    if n == 0 {
    } else {
      DeliveredExactlyWhen(tables, start, n - 1, x);
      var table, c := tables[n - 1], After(tables, start, n - 1).last;
      BatchIsNewest(table, c);
      NewestAbove(table, c, SSE_BATCH_SIZE);
      AboveHolds(LastOf(table, SSE_BATCH_SIZE), c, x);
      LastOfHolds(table, SSE_BATCH_SIZE, x);
      assert x in Batch(table, c) <==> CaughtAt(tables, start, n - 1, x);
    }
  }

  /** The poll that sees a row for the first time. */
  lemma {:induction false} FirstSight(tables: seq<Table>, k: nat, x: Note) returns (i: nat)
    requires k < |tables| && x in tables[k]
    ensures i <= k && x in tables[i] && forall j | 0 <= j < i :: x !in tables[j]
  {
    if j: nat :| j < k && x in tables[j] {
      i := FirstSight(tables, j, x);
    } else {
      i := k;
    }
  }

  lemma AscendingIsDistinct(s: seq<Note>)
    requires Ascending(s)
    ensures forall i, j | 0 <= i < j < |s| :: s[i] != s[j]
  {
    assert forall i, j | 0 <= i < j < |s| :: Less(s[i], s[j]);
  }

  lemma AfterUnfolds(tables: seq<Table>, start: Cursor)
    ensures forall i: nat | i < |tables| :: After(tables, start, i + 1) == Poll(tables[i], After(tables, start, i))
  {
    hide Poll;
  }

  /** Then every row behind the start is sent by the first poll that sees it, and only once. */
  lemma DeliveredExactlyOnce(tables: seq<Table>, start: Cursor, n: nat, k: nat, x: Note)
    requires AllAscending(tables) && KeepsUp(tables, start)
    requires k < n <= |tables| && x in tables[k] && Behind(start, x)
    ensures x in After(tables, start, n).sent
    ensures var sent := After(tables, start, n).sent; forall i, j | 0 <= i < j < |sent| :: sent[i] != sent[j]
  {
    hide Above, Batch, After, Poll, Ascending;
    LiveOutputIncreases(tables, start, n);
    AscendingIsDistinct(After(tables, start, n).sent);
    AfterUnfolds(tables, start);
    var i := FirstSight(tables, k, x);
    SeenIsSent(tables[i], After(tables, start, i), x);
    SentStays(tables, start, i + 1, n, x);
  }

  // ----- the generator -----

  class NotificationStream {
    var last: Cursor
    var replayed: seq<Note>
    var sent: seq<Note>

    /**
     * The replay phase. It leaves the loop before the cursor is moved when it has just sent the 250th notification;
     * otherwise the cursor ends at the last one sent.
     */
    constructor (cursor: Cursor, table: Table)
      requires Ascending(table)
      ensures sent == []
      ensures replayed == if cursor.None? then [] else LastOf(Above(table, cursor), MAX_REPLAY_NOTIFICATIONS)
      ensures last == CursorAfterReplay(cursor, replayed)
    {
      last := cursor;
      replayed := [];
      sent := [];
      new;
      if cursor.Some? {
        Replay(cursor, table);
      }
    }

    method Replay(cursor: Cursor, table: Table)
      requires Ascending(table) && cursor.Some? && last == cursor && replayed == []
      modifies this
      ensures replayed == LastOf(Above(table, cursor), MAX_REPLAY_NOTIFICATIONS) && sent == old(sent)
      ensures last == CursorAfterReplay(cursor, replayed)
    {
      hide Reverse, Above, Ascending;
      ReverseReverse(LastOf(table, MAX_REPLAY_NOTIFICATIONS));
      NewestAbove(table, cursor, MAX_REPLAY_NOTIFICATIONS);
      NewestAscends(table, MAX_REPLAY_NOTIFICATIONS);
      var notes := Reverse(ListForRecipient(table, MAX_REPLAY_NOTIFICATIONS));
      assert |notes| <= MAX_REPLAY_NOTIFICATIONS;
      ReplayNotes(cursor, notes);
    }

    method ReplayNotes(cursor: Cursor, notes: seq<Note>)
      requires Ascending(notes) && |notes| <= MAX_REPLAY_NOTIFICATIONS
      requires cursor.Some? && last == cursor && replayed == []
      modifies this
      ensures replayed == Above(notes, cursor) && sent == old(sent)
      ensures last == CursorAfterReplay(cursor, replayed)
    {
      hide Above, Ascending;
      AbovePrefixes(notes, cursor);
      var i := 0;
      while i < |notes|
        invariant 0 <= i <= |notes| && sent == old(sent)
        invariant replayed == Above(notes[..i], cursor) && |replayed| <= i
        invariant i < |notes| ==> |replayed| < MAX_REPLAY_NOTIFICATIONS
        invariant last == CursorAfterReplay(cursor, replayed)
      {
        var n := notes[i];
        if Less(cursor.value, n) {
          replayed := replayed + [n];
          if |replayed| >= MAX_REPLAY_NOTIFICATIONS {
            assert i + 1 == |notes|;
            break;
          }
          PrefixAscends(notes, i + 1, cursor);
          Neighbours(replayed, |replayed| - 1);
          MoveCursor(n);
        }
        i := i + 1;
      }
    }

    method MoveCursor(n: Note)
      requires last.Some? ==> Less(last.value, n)
      modifies this`last
      ensures last == Some(n)
    {
      if last.None? || n.created > last.value.created {
        last := Some(n);
      } else if n.created == last.value.created && n.id > last.value.id {
        last := Some(Note(last.value.created, n.id));
      }
    }

    ghost function View(): Stream
      reads this
    {
      Stream(last, sent)
    }

    /** One round of the live loop. */
    method PollNow(table: Table)
      modifies this
      ensures View() == Poll(table, old(View())) && replayed == old(replayed)
    {
      hide Sort;
      var notes := ListForRecipient(table, SSE_BATCH_SIZE);
      var newNotes: seq<Note> := [];
      var i := 0;
      while i < |notes|
        invariant 0 <= i <= |notes| && newNotes == Above(notes[..i], last)
        invariant View() == old(View()) && replayed == old(replayed)
      {
        assert notes[..i + 1][..i] == notes[..i];
        var isNew := false;
        if last.None? {
          isNew := true;
        } else if notes[i].created > last.value.created {
          isNew := true;
        } else if notes[i].created == last.value.created && notes[i].id > last.value.id {
          isNew := true;
        }
        if isNew {
          newNotes := newNotes + [notes[i]];
        }
        i := i + 1;
      }
      assert notes[..|notes|] == notes;
      var batch := Sort(newNotes);
      i := 0;
      while i < |batch|
        invariant 0 <= i <= |batch| && replayed == old(replayed)
        invariant sent == old(sent) + batch[..i]
        invariant last == if i == 0 then old(last) else Some(batch[i - 1])
      {
        sent := sent + [batch[i]];
        last := Some(batch[i]);
        i := i + 1;
      }
    }
  }

  lemma AbovePrefixes(s: seq<Note>, c: Cursor)
    ensures Above(s[..0], c) == [] && s[..|s|] == s
    ensures forall i | 0 <= i < |s| :: Above(s[..i + 1], c) == Above(s[..i], c) + if Behind(c, s[i]) then [s[i]] else []
  {
    forall i | 0 <= i < |s| ensures Above(s[..i + 1], c) == Above(s[..i], c) + if Behind(c, s[i]) then [s[i]] else [] {
      assert s[..i + 1][..i] == s[..i];
    }
  }

  lemma PrefixAscends(s: seq<Note>, n: nat, c: Cursor)
    requires Ascending(s) && n <= |s|
    ensures Ascending(Above(s[..n], c))
  {
    var cut := AboveIsSuffix(s[..n], c);
  }

  lemma Neighbours(s: seq<Note>, i: nat)
    requires Ascending(s) && i < |s|
    ensures i > 0 ==> Less(s[i - 1], s[i])
  {
  }

  function CursorAfterReplay(cursor: Cursor, replayed: seq<Note>): Cursor {
    if replayed == [] then cursor
    else if |replayed| < MAX_REPLAY_NOTIFICATIONS then Some(replayed[|replayed| - 1])
    else Some(replayed[|replayed| - 2])
  }

  /** After a replay of fewer than 250 rows the whole output, replay and live phase together, is strictly increasing. */
  lemma ShortReplayThenLive(cursor: Note, table: Table, tables: seq<Table>, n: nat)
    requires Ascending(table) && AllAscending(tables) && n <= |tables|
    requires |LastOf(Above(table, Some(cursor)), MAX_REPLAY_NOTIFICATIONS)| < MAX_REPLAY_NOTIFICATIONS
    ensures var replayed := LastOf(Above(table, Some(cursor)), MAX_REPLAY_NOTIFICATIONS);
      Ascending(replayed + After(tables, CursorAfterReplay(Some(cursor), replayed), n).sent)
  {
    hide Above, After;
    SuffixAscends(table, Some(cursor), MAX_REPLAY_NOTIFICATIONS);
    var replayed := LastOf(Above(table, Some(cursor)), MAX_REPLAY_NOTIFICATIONS);
    var c := CursorAfterReplay(Some(cursor), replayed);
    LiveOutputIncreases(tables, c, n);
    var sent := After(tables, c, n).sent;
    var all := replayed + sent;
    forall i, j | 0 <= i < j < |all| ensures Less(all[i], all[j]) {
      if i < |replayed| <= j {
        assert Behind(c, sent[j - |replayed|]);
        assert i == |replayed| - 1 || Less(replayed[i], replayed[|replayed| - 1]);
      }
    }
  }

  /** A full replay ends with a notification that the next poll sends again, if it is still there. */
  lemma FullReplayRepeatsItsLast(cursor: Note, table: Table)
    requires Ascending(table) && |Above(table, Some(cursor))| >= MAX_REPLAY_NOTIFICATIONS
    ensures var replayed := LastOf(Above(table, Some(cursor)), MAX_REPLAY_NOTIFICATIONS);
      Batch(table, CursorAfterReplay(Some(cursor), replayed)) == [replayed[|replayed| - 1]]
  {
    hide Above, Batch;
    var all := Above(table, Some(cursor));
    var replayed := LastOf(all, MAX_REPLAY_NOTIFICATIONS);
    var c := CursorAfterReplay(Some(cursor), replayed);
    var cut := AboveIsSuffix(table, Some(cursor));
    assert |replayed| == MAX_REPLAY_NOTIFICATIONS && replayed[|replayed| - 2] == table[|table| - 2];
    assert replayed[|replayed| - 1] == table[|table| - 1];
    BatchIsNewest(table, c);
    var cut' := AboveIsSuffix(table, c);
    assert !Behind(c, table[|table| - 2]) && Behind(c, table[|table| - 1]);
    assert cut' == |table| - 1;
  }
}
