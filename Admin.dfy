/** The administration panel's data helpers (src/pages/AdminPage.jsx): the
    message id and the set of read messages kept in browser storage, the
    unread count and the message filter, the three analytics tallies
    (messages per weekday, per time of day, top subjects) and the article
    tags' split and join.

    A message's `weekday` and `hour` stand for `new Date(created_at)`'s
    `getDay()` (0 is Sunday) and `getHours()`; a value outside 0..6 or 0..23
    stands for an unreadable date, for which both are NaN. */
module Admin {
  import opened Wrappers
  import opened Text
  import opened Seqs

  datatype Message = Message(
    email: string,
    createdAt: string,
    subject: string,
    status: string,
    weekday: int,
    hour: int)

  /** One `{ label, value }` entry of a chart. */
  datatype Tally = Tally(name: string, value: nat)

  /** The storage key of the read-message list. */
  const ReadStorageKey: string := "artimon_read_messages"

  // ---------------------------------------------------------------------
  // Message ids and the read set

  /** `getMessageId`: the e-mail address and the creation time joined by
      "_". */
  function MessageId(m: Message): (id: string)
    ensures |id| == |m.email| + 1 + |m.createdAt| && StartsWith(id, m.email + "_")
    ensures '_' !in m.createdAt ==> TrailingRun(id) == |m.createdAt| && id[|id| - |m.createdAt|..] == m.createdAt
  {
    var id := m.email + "_" + m.createdAt;
    assert id[..|m.email + "_"|] == m.email + "_";
    if '_' !in m.createdAt then
      TrailingRunOfId(m.email, m.createdAt);
      assert id[|id| - |m.createdAt|..] == m.createdAt;
      id
    else id
  }

  /** Length of the run of characters other than "_" at the end of `x`. */
  function TrailingRun(x: string): nat
  {
    if x == [] || x[|x| - 1] == '_' then 0 else 1 + TrailingRun(x[..|x| - 1])
  }

  /** Behind the last "_" of an id comes the creation time, when that
      contains no "_". */
  lemma {:induction false} TrailingRunOfId(e: string, c: string)
    requires '_' !in c
    ensures TrailingRun(e + "_" + c) == |c|
    decreases |c|
  {
    var x := e + "_" + c;
    if c == [] {
      assert x[|x| - 1] == '_';
    } else {
      assert x[|x| - 1] == c[|c| - 1];
      assert x[..|x| - 1] == e + "_" + c[..|c| - 1];
      TrailingRunOfId(e, c[..|c| - 1]);
    }
  }

  /** Two messages get the same id exactly when they share e-mail address
      and creation time, provided creation times contain no "_" (as the
      ISO timestamps the server sends do not). */
  lemma MessageIdInjective(m1: Message, m2: Message)
    requires '_' !in m1.createdAt && '_' !in m2.createdAt
    ensures MessageId(m1) == MessageId(m2) <==>
      m1.email == m2.email && m1.createdAt == m2.createdAt
  {
    var id := MessageId(m1);
    if id == MessageId(m2) {
      TrailingRunOfId(m1.email, m1.createdAt);
      TrailingRunOfId(m2.email, m2.createdAt);
      assert m1.createdAt == id[|id| - |m1.createdAt|..];
      assert m2.createdAt == id[|id| - |m2.createdAt|..];
      assert m1.email == id[..|m1.email|];
      assert m2.email == id[..|m2.email|];
    }
  }

  /** The read set after mounting: the distinct ids of the stored list, in
      order, or nothing when no readable list is stored (None stands for a
      missing or empty entry as well as text `JSON.parse` rejects). */
  function LoadedIds(saved: Option<seq<string>>): (ids: seq<string>)
    ensures NoDuplicates(ids)
    ensures saved.Some? ==> forall i :: 0 <= i < |saved.value| ==> saved.value[i] in ids
    ensures saved.Some? ==> forall i :: 0 <= i < |ids| ==> ids[i] in saved.value
    ensures saved.None? ==> ids == []
  {
    if saved.Some? then Dedup(saved.value) else []
  }

  /** Storing the read set and loading it again gives the same set, in the
      same order. */
  lemma ReloadRestoresReadSet(ids: seq<string>)
    requires NoDuplicates(ids)
    ensures LoadedIds(Some(ids)) == ids
  {
    DedupOfDistinct(ids);
  }

  /** The set a list of read ids stands for: `new Set(ids)`. */
  function ReadSetOf(ids: seq<string>): (r: set<string>)
    ensures forall id :: id in r <==> id in ids
  {
    set id | id in ids
  }

  /** The admin page's read-message state: the `readMessages` set, kept in
      insertion order, and the list last written to storage under
      `ReadStorageKey`. */
  class ReadTracker {
    var ids: seq<string>
    var stored: Option<seq<string>>

    ghost predicate Valid()
      reads this
    {
      NoDuplicates(ids)
    }

    /** `readMessages.has(id)`. */
    predicate Has(id: string)
      reads this
    {
      id in ids
    }

    /** Mounting: the read set is loaded from what is stored. */
    constructor (saved: Option<seq<string>>)
      ensures Valid()
      ensures ids == LoadedIds(saved) && stored == saved
    {
      ids := LoadedIds(saved);
      stored := saved;
    }

    /** `markAsRead`: an id already read changes nothing and writes
        nothing; a new id is added at the end and the whole set is
        stored. */
    method MarkAsRead(m: Message)
      requires Valid()
      modifies this
      ensures Valid()
      ensures old(Has(MessageId(m))) ==> ids == old(ids) && stored == old(stored)
      ensures !old(Has(MessageId(m))) ==> ids == old(ids) + [MessageId(m)] && stored == Some(ids)
      ensures Has(MessageId(m))
      ensures forall id :: Has(id) <==> old(Has(id)) || id == MessageId(m)
      ensures ReadSetOf(ids) == ReadSetOf(old(ids)) + {MessageId(m)}
    {
      var id := MessageId(m);
      if !Has(id) {
        ids := ids + [id];
        stored := Some(ids);
      }
    }
  }

  // ---------------------------------------------------------------------
  // Unread count and the message filter

  function IsUnread(read: set<string>): Message -> bool
  {
    m => MessageId(m) !in read
  }

  function IsRead(read: set<string>): Message -> bool
  {
    m => MessageId(m) in read
  }

  /** `unreadCount`: the number of messages whose id is not in the read
      set. */
  function UnreadCount(messages: seq<Message>, read: set<string>): (n: nat)
    ensures n + Count(messages, IsRead(read)) == |messages|
  {
    CountIsFilterLength(messages, IsUnread(read));
    CountComplement(messages, IsUnread(read), IsRead(read));
    |Filter(messages, IsUnread(read))|
  }

  /** Marking a message read never raises the unread count, and lowers it
      when that message is listed and was unread. */
  lemma MarkingReadLowersUnreadCount(messages: seq<Message>, read: set<string>, m: Message)
    ensures UnreadCount(messages, read + {MessageId(m)}) <= UnreadCount(messages, read)
    ensures m in messages && MessageId(m) !in read ==>
      UnreadCount(messages, read + {MessageId(m)}) < UnreadCount(messages, read)
  {
    var after := read + {MessageId(m)};
    CountIsFilterLength(messages, IsUnread(read));
    CountIsFilterLength(messages, IsUnread(after));
    CountStronger(messages, IsUnread(read), IsUnread(after));
    if m in messages && MessageId(m) !in read {
      var i :| 0 <= i < |messages| && messages[i] == m;
      assert IsUnread(read)(messages[i]) && !IsUnread(after)(messages[i]);
    }
  }

  /** What `MarkAsRead` does to the page: with the read set before and
      after the call, the unread count does not rise, drops when the
      message is listed and was unread, and the message leaves the
      "unread" list. */
  lemma MarkAsReadEffect(messages: seq<Message>, before: seq<string>, after: seq<string>, m: Message)
    requires ReadSetOf(after) == ReadSetOf(before) + {MessageId(m)}
    ensures UnreadCount(messages, ReadSetOf(after)) <= UnreadCount(messages, ReadSetOf(before))
    ensures m in messages && MessageId(m) !in before ==>
      UnreadCount(messages, ReadSetOf(after)) < UnreadCount(messages, ReadSetOf(before))
    ensures m !in FilterMessages(messages, "unread", ReadSetOf(after))
  {
    MarkingReadLowersUnreadCount(messages, ReadSetOf(before), m);
    MarkedMessageLeavesUnreadList(messages, ReadSetOf(before), m);
  }

  /** Whether the filter `filter` keeps a message. */
  function Keeps(filter: string, read: set<string>): Message -> bool
  {
    m => if filter == "all" then true
         else if filter == "unread" then MessageId(m) !in read
         else m.status == filter
  }

  /** `filteredMessages`: the messages the selected filter keeps, in
      order. */
  function FilterMessages(messages: seq<Message>, filter: string, read: set<string>): (r: seq<Message>)
    ensures IsSubsequence(r, messages)
  {
    FilterIsSubsequence(messages, Keeps(filter, read));
    Filter(messages, Keeps(filter, read))
  }

  /** "all" keeps every message, "unread" exactly the unread ones (as many
      as the unread count) and any other value the messages with that
      status. */
  lemma MessageFilterCases(messages: seq<Message>, filter: string, read: set<string>)
    ensures filter == "all" ==> FilterMessages(messages, filter, read) == messages
    ensures filter == "unread" ==>
      |FilterMessages(messages, filter, read)| == UnreadCount(messages, read)
    ensures var r := FilterMessages(messages, filter, read);
      filter != "all" && filter != "unread" ==>
        (forall i :: 0 <= i < |r| ==> r[i].status == filter) &&
        (forall i :: 0 <= i < |messages| && messages[i].status == filter ==> messages[i] in r)
    ensures var r := FilterMessages(messages, filter, read);
      filter == "unread" ==>
        (forall i :: 0 <= i < |r| ==> MessageId(r[i]) !in read) &&
        (forall i :: 0 <= i < |messages| && MessageId(messages[i]) !in read ==> messages[i] in r)
  {
    if filter == "all" {
      FilterAllKept(messages, Keeps(filter, read));
    }
    if filter == "unread" {
      FilterSameCondition(messages, Keeps(filter, read), IsUnread(read));
    }
  }

  /** A message just marked read is not in the "unread" list. */
  lemma MarkedMessageLeavesUnreadList(messages: seq<Message>, read: set<string>, m: Message)
    ensures m !in FilterMessages(messages, "unread", read + {MessageId(m)})
  {
  }

  // ---------------------------------------------------------------------
  // Messages per weekday

  /** Monday-first position of a `getDay()` weekday: Sunday (0) goes last. */
  function DayIndex(weekday: int): int
  {
    if weekday == 0 then 6 else weekday - 1
  }

  /** The seven weekdays fill the seven positions, one each. */
  lemma DayIndexIsBijective(w1: int, w2: int)
    requires 0 <= w1 <= 6 && 0 <= w2 <= 6
    ensures 0 <= DayIndex(w1) <= 6
    ensures DayIndex(w1) == DayIndex(w2) <==> w1 == w2
  {
  }

  /** Every position is some weekday's. */
  lemma DayIndexIsOnto(d: int)
    requires 0 <= d <= 6
    ensures exists w :: 0 <= w <= 6 && DayIndex(w) == d
  {
    var w := if d == 6 then 0 else d + 1;
    assert DayIndex(w) == d;
  }

  function HasWeekday(m: Message): bool
  {
    0 <= m.weekday <= 6
  }

  function OnDay(d: int): Message -> bool
  {
    m => HasWeekday(m) && DayIndex(m.weekday) == d
  }

  /** Count of messages per Monday-first weekday. */
  function DayCounts(messages: seq<Message>): (c: seq<nat>)
    ensures |c| == 7
  {
    seq(7, d requires 0 <= d < 7 => Count(messages, OnDay(d)))
  }

  /** `messagesPerDay`: one counter per weekday, raised once per message.
      A message with an unreadable date raises none of the seven (its
      index is NaN). */
  method MessagesPerDay(messages: seq<Message>) returns (dayCount: seq<nat>)
    ensures dayCount == DayCounts(messages)
  {
    var counts := new nat[7](_ => 0);
    var i := 0;
    while i < |messages|
      invariant 0 <= i <= |messages|
      invariant forall d :: 0 <= d < 7 ==> counts[d] == Count(messages[..i], OnDay(d))
    {
      forall d | 0 <= d < 7 {
        CountPrefixStep(messages, i, OnDay(d));
      }
      var dayOfWeek := messages[i].weekday;
      if 0 <= dayOfWeek <= 6 {
        var adjustedDay := if dayOfWeek == 0 then 6 else dayOfWeek - 1;
        counts[adjustedDay] := counts[adjustedDay] + 1;
      }
      i := i + 1;
    }
    assert messages[..i] == messages;
    dayCount := counts[..];
  }

  function DayTotal(c: seq<nat>): nat
    requires |c| == 7
  {
    c[0] + c[1] + c[2] + c[3] + c[4] + c[5] + c[6]
  }

  /** The seven counts add up to the number of messages with a readable
      date. */
  lemma {:induction false} DayCountsTotal(messages: seq<Message>)
    ensures DayTotal(DayCounts(messages)) == Count(messages, HasWeekday)
    decreases |messages|
  {
    if messages != [] {
      var rest := messages[1..];
      DayCountsTotal(rest);
      var c := DayCounts(messages);
      var c' := DayCounts(rest);
      var m := messages[0];
      assert forall d :: 0 <= d < 7 ==> c[d] == c'[d] + (if OnDay(d)(m) then 1 else 0);
      if HasWeekday(m) {
        var k := DayIndex(m.weekday);
        assert forall d :: 0 <= d < 7 ==> (OnDay(d)(m) <==> d == k);
      } else {
        assert forall d :: 0 <= d < 7 ==> !OnDay(d)(m);
      }
    }
  }

  /** With readable dates throughout, every message is counted once. */
  lemma DayCountsCoverAll(messages: seq<Message>)
    requires forall i :: 0 <= i < |messages| ==> 0 <= messages[i].weekday <= 6
    ensures DayTotal(DayCounts(messages)) == |messages|
  {
    DayCountsTotal(messages);
    CountAll(messages, HasWeekday);
  }

  lemma {:induction false} CountAll<T>(xs: seq<T>, p: T -> bool)
    requires forall i :: 0 <= i < |xs| ==> p(xs[i])
    ensures Count(xs, p) == |xs|
    decreases |xs|
  {
    if xs != [] {
      CountAll(xs[1..], p);
    }
  }

  // ---------------------------------------------------------------------
  // Messages per time of day

  const HourLabels: seq<string> :=
    ["Matin (8-12h)", "Midi (12-14h)", "Après-midi (14-18h)", "Soir (18-22h)"]

  /** The time-of-day bucket of an hour: 8-12, 12-14, 14-18, 18-22, or
      none. */
  function HourBucket(hour: int): (b: Option<nat>)
    ensures b.Some? <==> 8 <= hour < 22
    ensures b.Some? ==> b.value < 4
    ensures b == Some(0) <==> 8 <= hour < 12
    ensures b == Some(1) <==> 12 <= hour < 14
    ensures b == Some(2) <==> 14 <= hour < 18
    ensures b == Some(3) <==> 18 <= hour < 22
  {
    if 8 <= hour < 12 then Some(0)
    else if 12 <= hour < 14 then Some(1)
    else if 14 <= hour < 18 then Some(2)
    else if 18 <= hour < 22 then Some(3)
    else None
  }

  function InBucket(b: nat): Message -> bool
  {
    (m: Message) => HourBucket(m.hour) == Some(b)
  }

  function InDaytime(m: Message): bool
  {
    8 <= m.hour < 22
  }

  /** The four `{ label, value }` entries, in the object's key order. */
  function HourCounts(messages: seq<Message>): (r: seq<Tally>)
    ensures |r| == 4
    ensures forall b :: 0 <= b < 4 ==> r[b].name == HourLabels[b]
  {
    seq(4, b requires 0 <= b < 4 => Tally(HourLabels[b], Count(messages, InBucket(b))))
  }

  /** `messagesByHour`: one counter per bucket, raised by the first bucket
      the hour falls in; hours before 8, from 22 on, and unreadable dates
      raise none. */
  method MessagesByHour(messages: seq<Message>) returns (r: seq<Tally>)
    ensures r == HourCounts(messages)
  {
    var hours := new nat[4](_ => 0);
    var i := 0;
    while i < |messages|
      invariant 0 <= i <= |messages|
      invariant forall b :: 0 <= b < 4 ==> hours[b] == Count(messages[..i], InBucket(b))
    {
      forall b | 0 <= b < 4 {
        CountPrefixStep(messages, i, InBucket(b));
      }
      var hour := messages[i].hour;
      if hour >= 8 && hour < 12 {
        hours[0] := hours[0] + 1;
      } else if hour >= 12 && hour < 14 {
        hours[1] := hours[1] + 1;
      } else if hour >= 14 && hour < 18 {
        hours[2] := hours[2] + 1;
      } else if hour >= 18 && hour < 22 {
        hours[3] := hours[3] + 1;
      }
      i := i + 1;
    }
    assert messages[..i] == messages;
    r := seq(4, b requires 0 <= b < 4 reads hours => Tally(HourLabels[b], hours[b]));
  }

  /** The buckets add up to the messages sent between 8:00 and 22:00, so
      never more than all messages. */
  lemma {:induction false} HourCountsTotal(messages: seq<Message>)
    ensures var r := HourCounts(messages);
      r[0].value + r[1].value + r[2].value + r[3].value == Count(messages, InDaytime)
    ensures var r := HourCounts(messages);
      r[0].value + r[1].value + r[2].value + r[3].value <= |messages|
    decreases |messages|
  {
    if messages != [] {
      var rest := messages[1..];
      HourCountsTotal(rest);
      var m := messages[0];
      var r := HourCounts(messages);
      var r' := HourCounts(rest);
      assert forall b :: 0 <= b < 4 ==> r[b].value == r'[b].value + (if InBucket(b)(m) then 1 else 0);
    }
  }

  // ---------------------------------------------------------------------
  // Top subjects

  function HasSubject(subject: string): Message -> bool
  {
    (m: Message) => m.subject == subject
  }

  function SubjectsOf(messages: seq<Message>): (s: seq<string>)
    ensures |s| == |messages|
    ensures forall i :: 0 <= i < |s| ==> s[i] == messages[i].subject
  {
    seq(|messages|, i requires 0 <= i < |messages| => messages[i].subject)
  }

  /** One entry per distinct subject, in order of first appearance, with
      the number of messages about it. */
  function SubjectTallies(messages: seq<Message>): (t: seq<Tally>)
    ensures forall k :: 0 <= k < |t| ==> t[k].name in SubjectsOf(messages)
  {
    var labels := Dedup(SubjectsOf(messages));
    seq(|labels|, k requires 0 <= k < |labels| => Tally(labels[k], Count(messages, HasSubject(labels[k]))))
  }

  /** Every subject has exactly one entry, and its value is the number of
      messages about it, at least one. */
  lemma SubjectTalliesAreCounts(messages: seq<Message>)
    ensures var t := SubjectTallies(messages);
      && (forall k :: 0 <= k < |t| ==> t[k].value == Count(messages, HasSubject(t[k].name)) >= 1)
      && (forall i :: 0 <= i < |messages| ==> exists k :: 0 <= k < |t| && t[k].name == messages[i].subject)
      && (forall j, k :: 0 <= j < k < |t| ==> t[j].name != t[k].name)
  {
    var subjects := SubjectsOf(messages);
    var labels := Dedup(subjects);
    var t := SubjectTallies(messages);
    forall k | 0 <= k < |t|
      ensures t[k].value >= 1
    {
      assert labels[k] in subjects;
      var i :| 0 <= i < |subjects| && subjects[i] == labels[k];
      CountPositive(messages, HasSubject(labels[k]), i);
    }
    forall i | 0 <= i < |messages|
      ensures exists k :: 0 <= k < |t| && t[k].name == messages[i].subject
    {
      assert subjects[i] in labels;
      var k :| 0 <= k < |labels| && labels[k] == subjects[i];
      assert t[k].name == messages[i].subject;
    }
  }

  /** Place `e` after every entry with a value at least its own: one step
      of a stable sort by descending value. */
  function Insert(sorted: seq<Tally>, e: Tally): (r: seq<Tally>)
    ensures multiset(r) == multiset(sorted) + multiset{e}
    ensures |r| == |sorted| + 1
    decreases |sorted|
  {
    if sorted == [] then [e]
    else if sorted[0].value < e.value then [e] + sorted
    else
      assert sorted == [sorted[0]] + sorted[1..];
      [sorted[0]] + Insert(sorted[1..], e)
  }

  /** The result of `.sort((a, b) => b.value - a.value)`. The sort is
      stable, so its result is this insertion sort's whatever algorithm
      the engine uses. */
  function SortByValue(entries: seq<Tally>): (r: seq<Tally>)
    ensures multiset(r) == multiset(entries)
    ensures |r| == |entries|
    decreases |entries|
  {
    if entries == [] then []
    else
      var init := entries[..|entries| - 1];
      assert entries == init + [entries[|entries| - 1]];
      Insert(SortByValue(init), entries[|entries| - 1])
  }

  predicate SortedByValue(s: seq<Tally>)
  {
    forall i, j :: 0 <= i < j < |s| ==> s[i].value >= s[j].value
  }

  lemma TailSorted(s: seq<Tally>)
    requires s != [] && SortedByValue(s)
    ensures SortedByValue(s[1..])
  {
    forall i, j | 0 <= i < j < |s| - 1
      ensures s[1..][i].value >= s[1..][j].value
    {
      assert s[1..][i] == s[i + 1] && s[1..][j] == s[j + 1];
    }
  }

  lemma ConsSorted(x: Tally, r: seq<Tally>)
    requires SortedByValue(r)
    requires forall k :: 0 <= k < |r| ==> r[k].value <= x.value
    ensures SortedByValue([x] + r)
  {
    var s := [x] + r;
    forall i, j | 0 <= i < j < |s|
      ensures s[i].value >= s[j].value
    {
      assert s[j] == r[j - 1];
      if i > 0 {
        assert s[i] == r[i - 1];
      }
    }
  }

  /** Inserting keeps every value under a common bound. */
  lemma {:induction false} InsertBounded(s: seq<Tally>, e: Tally, bound: nat)
    requires forall k :: 0 <= k < |s| ==> s[k].value <= bound
    requires e.value <= bound
    ensures forall k :: 0 <= k < |Insert(s, e)| ==> Insert(s, e)[k].value <= bound
    decreases |s|
  {
    if s != [] && s[0].value >= e.value {
      InsertBounded(s[1..], e, bound);
      var r := Insert(s[1..], e);
      assert Insert(s, e) == [s[0]] + r;
      forall k | 0 <= k < |Insert(s, e)|
        ensures Insert(s, e)[k].value <= bound
      {
        if k > 0 {
          assert Insert(s, e)[k] == r[k - 1];
        }
      }
    }
  }

  lemma {:induction false} InsertSorted(sorted: seq<Tally>, e: Tally)
    requires SortedByValue(sorted)
    ensures SortedByValue(Insert(sorted, e))
    decreases |sorted|
  {
    if sorted == [] {
    } else if sorted[0].value < e.value {
      ConsSorted(e, sorted);
    } else {
      var tail := sorted[1..];
      TailSorted(sorted);
      InsertSorted(tail, e);
      forall k | 0 <= k < |tail|
        ensures tail[k].value <= sorted[0].value
      {
        assert tail[k] == sorted[k + 1];
      }
      InsertBounded(tail, e, sorted[0].value);
      ConsSorted(sorted[0], Insert(tail, e));
    }
  }

  /** The sort orders entries by descending value. */
  lemma {:induction false} SortByValueSorted(entries: seq<Tally>)
    ensures SortedByValue(SortByValue(entries))
    decreases |entries|
  {
    if entries != [] {
      var init := entries[..|entries| - 1];
      SortByValueSorted(init);
      InsertSorted(SortByValue(init), entries[|entries| - 1]);
    }
  }

  function HasValue(v: nat): Tally -> bool
  {
    (t: Tally) => t.value == v
  }

  /** The filter of a sequence with a first element. */
  lemma FilterCons<T>(x: T, xs: seq<T>, p: T -> bool)
    ensures Filter([x] + xs, p) == (if p(x) then [x] else []) + Filter(xs, p)
  {
    assert ([x] + xs)[1..] == xs;
  }

  lemma {:induction false} InsertKeepsOrderOfEquals(sorted: seq<Tally>, e: Tally, v: nat)
    requires SortedByValue(sorted)
    ensures Filter(Insert(sorted, e), HasValue(v)) == Filter(sorted, HasValue(v)) + EqualTo(e, v)
    decreases |sorted|
  {
    if sorted == [] {
      FilterCons(e, [], HasValue(v));
    } else if sorted[0].value < e.value {
      assert Insert(sorted, e) == [e] + sorted;
      InsertInFront(sorted, e, v);
    } else {
      TailSorted(sorted);
      InsertKeepsOrderOfEquals(sorted[1..], e, v);
      InsertBehindHead(sorted, e, v);
    }
  }

  /** An entry placed in front of a sorted list with smaller values is the
      only entry of its value. */
  lemma InsertInFront(sorted: seq<Tally>, e: Tally, v: nat)
    requires SortedByValue(sorted) && sorted != [] && sorted[0].value < e.value
    ensures Filter([e] + sorted, HasValue(v)) == Filter(sorted, HasValue(v)) + EqualTo(e, v)
  {
    FilterCons(e, sorted, HasValue(v));
    if e.value == v {
      forall k | 0 <= k < |sorted|
        ensures !HasValue(v)(sorted[k])
      {
        assert sorted[0].value >= sorted[k].value;
      }
      CountNone(sorted, HasValue(v));
    }
  }

  /** The step behind the head: the head keeps its place in front. */
  lemma InsertBehindHead(sorted: seq<Tally>, e: Tally, v: nat)
    requires sorted != [] && sorted[0].value >= e.value
    requires Filter(Insert(sorted[1..], e), HasValue(v)) == Filter(sorted[1..], HasValue(v)) + EqualTo(e, v)
    ensures Filter(Insert(sorted, e), HasValue(v)) == Filter(sorted, HasValue(v)) + EqualTo(e, v)
  {
    var tail := sorted[1..];
    assert Insert(sorted, e) == [sorted[0]] + Insert(tail, e);
    FilterConsAppend(sorted[0], Insert(tail, e), tail, EqualTo(e, v), HasValue(v));
    assert [sorted[0]] + tail == sorted;
  }

  /** Putting the same element in front of two sequences keeps what the
      filter of one has beyond the other's. */
  lemma FilterConsAppend<T>(h: T, xs: seq<T>, ys: seq<T>, extra: seq<T>, p: T -> bool)
    requires Filter(xs, p) == Filter(ys, p) + extra
    ensures Filter([h] + xs, p) == Filter([h] + ys, p) + extra
  {
    FilterCons(h, xs, p);
    FilterCons(h, ys, p);
    var front := if p(h) then [h] else [];
    AppendAssociative(front, Filter(ys, p), extra);
  }

  /** The sort of a non-empty sequence inserts its last entry into the
      sort of the others. */
  lemma SortByValueSnoc(entries: seq<Tally>)
    requires entries != []
    ensures SortByValue(entries) ==
      Insert(SortByValue(entries[..|entries| - 1]), entries[|entries| - 1])
  {
  }

  function EqualTo(e: Tally, v: nat): seq<Tally>
  {
    if e.value == v then [e] else []
  }

  lemma SortedFilterSnoc(entries: seq<Tally>, v: nat)
    requires entries != []
    ensures Filter(SortByValue(entries), HasValue(v)) ==
      Filter(SortByValue(entries[..|entries| - 1]), HasValue(v)) + EqualTo(entries[|entries| - 1], v)
  {
    var init := entries[..|entries| - 1];
    SortByValueSorted(init);
    SortByValueSnoc(entries);
    InsertKeepsOrderOfEquals(SortByValue(init), entries[|entries| - 1], v);
  }

  lemma FilterSnoc(entries: seq<Tally>, v: nat)
    requires entries != []
    ensures Filter(entries, HasValue(v)) ==
      Filter(entries[..|entries| - 1], HasValue(v)) + EqualTo(entries[|entries| - 1], v)
  {
    var init := entries[..|entries| - 1];
    var last := entries[|entries| - 1];
    FilterCons(last, [], HasValue(v));
    assert entries == init + [last];
    FilterAppend(init, [last], HasValue(v));
  }

  /** Stability: the entries of each value keep their relative order. */
  lemma {:induction false} SortByValueStable(entries: seq<Tally>, v: nat)
    ensures Filter(SortByValue(entries), HasValue(v)) == Filter(entries, HasValue(v))
    decreases |entries|
  {
    if entries != [] {
      SortByValueStable(entries[..|entries| - 1], v);
      SortedFilterSnoc(entries, v);
      FilterSnoc(entries, v);
    }
  }

  /** What `topSubjects` evaluates to: the five largest tallies. */
  function TopSubjectsOf(messages: seq<Message>): (t: seq<Tally>)
    ensures |t| <= 5
    ensures |t| == if |SubjectTallies(messages)| < 5 then |SubjectTallies(messages)| else 5
    ensures forall k :: 0 <= k < |t| ==> t[k] in SubjectTallies(messages)
  {
    var sorted := SortByValue(SubjectTallies(messages));
    MultisetMembers(sorted, SubjectTallies(messages));
    Take(sorted, 5)
  }

  /** The counts so far of every subject, zero for those not seen. */
  ghost predicate CountedUpTo(messages: seq<Message>, i: nat, subjects: map<string, nat>)
    requires i <= |messages|
  {
    forall l :: Count(messages[..i], HasSubject(l)) == if l in subjects then subjects[l] else 0
  }

  /** The state of the tally loop after `i` messages: the subjects seen,
      in order of first appearance, and their counts so far. */
  ghost predicate TalliedUpTo(messages: seq<Message>, i: nat, labels: seq<string>, subjects: map<string, nat>)
  {
    && i <= |messages|
    && labels == Dedup(SubjectsOf(messages[..i]))
    && (forall l :: l in subjects <==> l in labels)
    && CountedUpTo(messages, i, subjects)
  }

  /** `subjects[s] = (subjects[s] || 0) + 1`. */
  function Bump(subjects: map<string, nat>, s: string): map<string, nat>
  {
    subjects[s := (if s in subjects then subjects[s] else 0) + 1]
  }

  lemma CountStep(messages: seq<Message>, i: nat, subjects: map<string, nat>)
    requires i < |messages| && CountedUpTo(messages, i, subjects)
    ensures CountedUpTo(messages, i + 1, Bump(subjects, messages[i].subject))
  {
    var subjects' := Bump(subjects, messages[i].subject);
    forall l
      ensures Count(messages[..i + 1], HasSubject(l)) == if l in subjects' then subjects'[l] else 0
    {
      CountPrefixStep(messages, i, HasSubject(l));
    }
  }

  lemma LabelStep(messages: seq<Message>, i: nat, labels: seq<string>)
    requires i < |messages| && labels == Dedup(SubjectsOf(messages[..i]))
    ensures var s := messages[i].subject;
      Dedup(SubjectsOf(messages[..i + 1])) == if s in labels then labels else labels + [s]
  {
    var s := messages[i].subject;
    assert SubjectsOf(messages[..i + 1]) == SubjectsOf(messages[..i]) + [s];
    DedupSnoc(SubjectsOf(messages[..i]), s);
  }

  /** One message raises its subject's count, and a new subject is added at
      the end. */
  lemma TallyStep(messages: seq<Message>, i: nat, labels: seq<string>, subjects: map<string, nat>)
    requires i < |messages| && TalliedUpTo(messages, i, labels, subjects)
    ensures var s := messages[i].subject;
      TalliedUpTo(messages, i + 1, if s in subjects then labels else labels + [s], Bump(subjects, s))
  {
    CountStep(messages, i, subjects);
    LabelStep(messages, i, labels);
  }

  /** The tallies once every message is counted. */
  lemma TallyDone(messages: seq<Message>, labels: seq<string>, subjects: map<string, nat>)
    requires TalliedUpTo(messages, |messages|, labels, subjects)
    ensures forall k :: 0 <= k < |labels| ==> labels[k] in subjects
    ensures seq(|labels|, k requires 0 <= k < |labels| && labels[k] in subjects => Tally(labels[k], subjects[labels[k]]))
      == SubjectTallies(messages)
  {
    assert messages[..|messages|] == messages;
  }

  /** `topSubjects`: count per subject, then sort and keep five. */
  method TopSubjects(messages: seq<Message>) returns (top: seq<Tally>)
    ensures top == TopSubjectsOf(messages)
  {
    var labels: seq<string> := [];
    var subjects: map<string, nat> := map[];
    var i := 0;
    while i < |messages|
      invariant TalliedUpTo(messages, i, labels, subjects)
    {
      TallyStep(messages, i, labels, subjects);
      var s := messages[i].subject;
      if s !in subjects {
        labels := labels + [s];
      }
      subjects := subjects[s := (if s in subjects then subjects[s] else 0) + 1];
      i := i + 1;
    }
    TallyDone(messages, labels, subjects);
    var entries := seq(|labels|, k requires 0 <= k < |labels| && labels[k] in subjects => Tally(labels[k], subjects[labels[k]]));
    top := Take(SortByValue(entries), 5);
  }

  /** At most five entries, by descending value, and no subject left out
      has more messages than any subject kept. */
  lemma TopSubjectsAreTheLargest(messages: seq<Message>)
    ensures var top := TopSubjectsOf(messages);
      && |top| <= 5
      && SortedByValue(top)
      && (forall t :: t in top ==> t in SubjectTallies(messages))
      && (forall j, e :: 0 <= j < |top| && e in SubjectTallies(messages) && e !in top ==>
            top[j].value >= e.value)
  {
    LargestAreKept(SubjectTallies(messages), 5);
  }

  /** The first `n` entries of the sort by value: sorted, taken from the
      entries, and no entry left out is larger than one kept. */
  lemma LargestAreKept(entries: seq<Tally>, n: nat)
    ensures var top := Take(SortByValue(entries), n);
      && |top| <= n
      && SortedByValue(top)
      && (forall t :: t in top ==> t in entries)
      && (forall j, e :: 0 <= j < |top| && e in entries && e !in top ==> top[j].value >= e.value)
  {
    var sorted := SortByValue(entries);
    var top := Take(sorted, n);
    SortByValueSorted(entries);
    forall t | t in top
      ensures t in entries
    {
      assert t in multiset(sorted);
    }
    forall j, e | 0 <= j < |top| && e in entries && e !in top
      ensures top[j].value >= e.value
    {
      assert e in multiset(sorted);
      var k :| 0 <= k < |sorted| && sorted[k] == e;
      assert k >= |top|;
      assert top[j] == sorted[j];
    }
  }

  // ---------------------------------------------------------------------
  // Article tags

  /** Each part trimmed, the empty ones dropped (`.map(t => t.trim())
      .filter(t => t)`). */
  function CleanTags(parts: seq<string>): seq<string>
    decreases |parts|
  {
    if parts == [] then []
    else
      var t := TrimJs(parts[0]);
      (if t == "" then [] else [t]) + CleanTags(parts[1..])
  }

  lemma CleanTagsCons(a: string, rest: seq<string>)
    ensures CleanTags([a] + rest) == (if TrimJs(a) == "" then [] else [TrimJs(a)]) + CleanTags(rest)
  {
    assert ([a] + rest)[1..] == rest;
  }

  /** A tag as the split produces it: not empty, trimmed, without comma. */
  predicate IsCleanTag(t: string)
  {
    t != "" && ',' !in t && TrimJs(t) == t
  }

  lemma StripKeepsAbsent(s: string, p: char -> bool, c: char)
    ensures c !in s ==> c !in Strip(s, p)
  {
    var t := TrimStart(s, p);
    var r := TrimEnd(t, p);
    forall k | 0 <= k < |r|
      ensures r[k] == s[|s| - |t| + k]
    {
      assert r[k] == t[k];
    }
  }

  /** Cleaning comma-free parts gives clean tags. */
  lemma {:induction false} CleanTagsAreClean(parts: seq<string>)
    requires forall i :: 0 <= i < |parts| ==> ',' !in parts[i]
    ensures forall i :: 0 <= i < |CleanTags(parts)| ==> IsCleanTag(CleanTags(parts)[i])
    decreases |parts|
  {
    if parts != [] {
      CleanTagsAreClean(parts[1..]);
      StripIdempotent(parts[0], IsJsSpace);
      StripKeepsAbsent(parts[0], IsJsSpace, ',');
    }
  }

  /** `formData.tags.split(",")`, trimmed, without empty tags. */
  function SplitTags(text: string): (tags: seq<string>)
    ensures forall i :: 0 <= i < |tags| ==> IsCleanTag(tags[i])
  {
    CleanTagsAreClean(Split(text, ','));
    CleanTags(Split(text, ','))
  }

  /** `article.tags?.join(", ") || ""`. */
  function JoinTags(tags: Option<seq<string>>): (r: string)
    ensures tags.None? || tags.value == [] ==> r == ""
    ensures tags.Some? && |tags.value| == 1 ==> r == tags.value[0]
  {
    if tags.None? then "" else Join(tags.value, ", ")
  }

  /** Trimming a clean tag behind an optional blank gives the tag. */
  lemma TrimLeadTag(lead: string, t: string)
    requires lead == "" || lead == " "
    requires IsCleanTag(t)
    ensures TrimJs(lead + t) == t
  {
    StripEnds(t, IsJsSpace);
    StripWrapped(lead, t, "", IsJsSpace);
    assert lead + t + "" == lead + t;
  }

  lemma SplitJoinedNoTags(lead: string)
    requires lead == "" || lead == " "
    ensures CleanTags(Split(lead, ',')) == []
  {
    SplitNoSeparator(lead, ',');
    assert TrimJs(lead) == "";
  }

  lemma SplitJoinedOneTag(lead: string, t: string)
    requires lead == "" || lead == " "
    requires IsCleanTag(t)
    ensures CleanTags(Split(lead + t, ',')) == [t]
  {
    SplitNoSeparator(lead + t, ',');
    TrimLeadTag(lead, t);
    CleanTagsCons(lead + t, []);
  }

  lemma SplitJoinedFirstTag(lead: string, t: string, rest: string)
    requires lead == "" || lead == " "
    requires IsCleanTag(t)
    ensures CleanTags(Split(lead + (t + ", " + rest), ',')) == [t] + CleanTags(Split(" " + rest, ','))
  {
    assert lead + (t + ", " + rest) == (lead + t) + [','] + (" " + rest);
    SplitAtFirst(lead + t, ',', " " + rest);
    TrimLeadTag(lead, t);
    CleanTagsCons(lead + t, Split(" " + rest, ','));
  }

  lemma SplitJoinedMoreTags(lead: string, tags: seq<string>)
    requires lead == "" || lead == " "
    requires |tags| >= 2 && IsCleanTag(tags[0])
    requires CleanTags(Split(" " + Join(tags[1..], ", "), ',')) == tags[1..]
    ensures CleanTags(Split(lead + Join(tags, ", "), ',')) == tags
  {
    var rest := Join(tags[1..], ", ");
    assert tags == [tags[0]] + tags[1..];
    JoinCons(tags[0], tags[1..], ", ");
    assert lead + Join(tags, ", ") == lead + (tags[0] + ", " + rest);
    SplitJoinedFirstTag(lead, tags[0], rest);
  }

  lemma {:induction false} SplitJoinedTags(lead: string, tags: seq<string>)
    requires lead == "" || lead == " "
    requires forall i :: 0 <= i < |tags| ==> IsCleanTag(tags[i])
    ensures CleanTags(Split(lead + Join(tags, ", "), ',')) == tags
    decreases |tags|
  {
    if tags == [] {
      assert lead + Join(tags, ", ") == lead;
      SplitJoinedNoTags(lead);
    } else if |tags| == 1 {
      assert lead + Join(tags, ", ") == lead + tags[0];
      SplitJoinedOneTag(lead, tags[0]);
    } else {
      var rest := tags[1..];
      assert forall i :: 0 <= i < |rest| ==> rest[i] == tags[i + 1];
      SplitJoinedTags(" ", rest);
      SplitJoinedMoreTags(lead, tags);
    }
  }

  /** Editing an article and saving it unchanged keeps its tags: joining
      with ", " and splitting again gives back any list of clean tags. */
  lemma TagsRoundTrip(tags: seq<string>)
    requires forall i :: 0 <= i < |tags| ==> IsCleanTag(tags[i])
    ensures SplitTags(JoinTags(Some(tags))) == tags
  {
    SplitJoinedTags("", tags);
    assert "" + Join(tags, ", ") == Join(tags, ", ");
  }

  /** Saving twice is saving once: splitting the joined split changes
      nothing. */
  lemma SplitTagsIdempotent(text: string)
    ensures SplitTags(JoinTags(Some(SplitTags(text)))) == SplitTags(text)
  {
    TagsRoundTrip(SplitTags(text));
  }
}
