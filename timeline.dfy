/** The client-side merge reducer of the messages page, as functions: the
    `scan` over combined-latest `(live, hist)` pairs that folds the live tail
    and the history into one day-grouped timeline. The class that runs it step
    by step is `MessagesPage.DayGroups`. */
module Timeline {
  import opened Models

  /** `{ ...v }`: a shallow copy of a message; as a value it equals the
      original field for field. */
  function CopyMessage(m: Message): (r: Message)
    ensures r == m
  {
    Message(m.id, m.chatId, m.senderId, m.content, m.createdAt, m.kind)
  }

  /** `copyDay`: a day whose message list is copied message by message. As
      values, the copy has the same label, `today` flag and messages, in the
      same order. */
  function CopyDay(d: Day): (r: Day)
    ensures r == d
  {
    Day(d.timestamp,
        seq(|d.messages|, i requires 0 <= i < |d.messages| => CopyMessage(d.messages[i])),
        d.today)
  }

  /** `hist.map((d) => copyDay(d))`. */
  function CopyTimeline(hist: seq<Day>): (r: seq<Day>)
    ensures r == hist
  {
    seq(|hist|, i requires 0 <= i < |hist| => CopyDay(hist[i]))
  }

  /** `_.find(msgs, (histDay) => histDay.timestamp === timestamp)`: the
      position of the first bucket with that label. */
  function FindDay(tl: seq<Day>, timestamp: string): (r: Option<nat>)
    ensures r.Some? ==> r.value < |tl| && tl[r.value].timestamp == timestamp &&
                        forall j :: 0 <= j < r.value ==> tl[j].timestamp != timestamp
    ensures r.None? ==> forall j :: 0 <= j < |tl| ==> tl[j].timestamp != timestamp
  {
    if tl == [] then None
    else if tl[0].timestamp == timestamp then Some(0)
    else match FindDay(tl[1..], timestamp)
         case None => None
         case Some(k) => Some(k + 1)
  }

  /** The inner `forEach`: every incoming message whose `_id` the bucket does
      not hold yet (counting those pushed before it) is pushed onto it. */
  function AppendMissing(bucket: seq<Message>, incoming: seq<Message>): seq<Message> {
    if incoming == [] then bucket
    else
      var acc := AppendMissing(bucket, incoming[..|incoming| - 1]);
      var m := incoming[|incoming| - 1];
      if HasId(acc, m.id) then acc else acc + [m]
  }

  /** One iteration of the outer `forEach`: a live day with an unseen label is
      appended as a copy; otherwise the first bucket with its label takes the
      live `today` flag and the live messages it lacks. */
  function MergeDay(tl: seq<Day>, d: Day): seq<Day> {
    match FindDay(tl, d.timestamp)
    case None => tl + [CopyDay(d)]
    case Some(j) => tl[j := Day(tl[j].timestamp, AppendMissing(tl[j].messages, d.messages), d.today)]
  }

  /** The outer `forEach`: the live days merged in one after another. */
  function MergeLive(tl: seq<Day>, live: seq<Day>): seq<Day> {
    if live == [] then tl
    else MergeDay(MergeLive(tl, live[..|live| - 1]), live[|live| - 1])
  }

  /** The reducer's accumulator `{ historyTaken, messages }`. */
  datatype MergeState = MergeState(historyTaken: bool, messages: seq<Day>)

  /** The `scan` seed. */
  const Initial := MergeState(false, [])

  /** The `scan` reducer applied to one combined-latest pair (`None` is `null`). */
  function Reduce(state: MergeState, live: Option<seq<Day>>, hist: Option<seq<Day>>): (r: MergeState)
    ensures live.None? ==> r == state
    ensures live.Some? && hist.None? ==> r == MergeState(false, live.value)
    ensures live.Some? && hist.Some? ==> r.historyTaken
  {
    if live.None? then state
    else if hist.None? then MergeState(false, live.value)
    else
      var msgs := if state.historyTaken then state.messages else CopyTimeline(hist.value);
      MergeState(true, MergeLive(msgs, live.value))
  }

  /** The accumulator after the `scan` has consumed `pairs`. */
  function Run(state: MergeState, pairs: seq<(Option<seq<Day>>, Option<seq<Day>>)>): MergeState {
    if pairs == [] then state
    else
      var last := pairs[|pairs| - 1];
      Reduce(Run(state, pairs[..|pairs| - 1]), last.0, last.1)
  }

  // ---------------------------------------------------------------------
  // Finding a day
  // ---------------------------------------------------------------------

  /** The first bucket with a label is the one `FindDay` returns. */
  lemma FindDayFirst(tl: seq<Day>, timestamp: string, j: nat)
    requires j < |tl| && tl[j].timestamp == timestamp
    requires forall i :: 0 <= i < j ==> tl[i].timestamp != timestamp
    ensures FindDay(tl, timestamp) == Some(j)
  {
  }

  // ---------------------------------------------------------------------
  // Merging the messages of one day
  // ---------------------------------------------------------------------

  /** Reference for what the inner loop adds: the incoming messages whose
      `_id` is neither in the bucket nor on an earlier incoming message, in
      incoming order. */
  function Unseen(bucket: seq<Message>, incoming: seq<Message>): seq<Message> {
    if incoming == [] then []
    else
      var pre := incoming[..|incoming| - 1];
      var m := incoming[|incoming| - 1];
      Unseen(bucket, pre) + (if !HasId(bucket, m.id) && !HasId(pre, m.id) then [m] else [])
  }

  lemma {:induction false} UnseenIds(bucket: seq<Message>, incoming: seq<Message>, id: string)
    requires !HasId(bucket, id)
    ensures HasId(Unseen(bucket, incoming), id) <==> HasId(incoming, id)
  {
    if incoming != [] {
      var pre := incoming[..|incoming| - 1];
      var m := incoming[|incoming| - 1];
      UnseenIds(bucket, pre, id);
      assert incoming == pre + [m];
      HasIdConcat(pre, [m], id);
      var tail := if !HasId(bucket, m.id) && !HasId(pre, m.id) then [m] else [];
      HasIdConcat(Unseen(bucket, pre), tail, id);
    }
  }

  /** What the inner loop adds is exactly the reference's unseen messages. */
  lemma {:induction false} AppendMissingIsUnseen(bucket: seq<Message>, incoming: seq<Message>)
    ensures AppendMissing(bucket, incoming) == bucket + Unseen(bucket, incoming)
  {
    if incoming != [] {
      var pre := incoming[..|incoming| - 1];
      var m := incoming[|incoming| - 1];
      AppendMissingIsUnseen(bucket, pre);
      HasIdConcat(bucket, Unseen(bucket, pre), m.id);
      if !HasId(bucket, m.id) {
        UnseenIds(bucket, pre, m.id);
      }
    }
  }

  /** The added messages come from the live day, carry ids the bucket did not
      hold, and carry pairwise distinct ids. */
  lemma {:induction false} UnseenFresh(bucket: seq<Message>, incoming: seq<Message>)
    ensures forall k :: 0 <= k < |Unseen(bucket, incoming)| ==>
              Unseen(bucket, incoming)[k] in incoming && !HasId(bucket, Unseen(bucket, incoming)[k].id)
    ensures UniqueIds(Unseen(bucket, incoming))
  {
    if incoming != [] {
      var pre := incoming[..|incoming| - 1];
      var m := incoming[|incoming| - 1];
      var u0 := Unseen(bucket, pre);
      UnseenFresh(bucket, pre);
      assert incoming == pre + [m];
      if !HasId(bucket, m.id) && !HasId(pre, m.id) {
        var u := u0 + [m];
        forall k | 0 <= k < |u0| ensures u0[k].id != m.id {
          var i :| 0 <= i < |pre| && pre[i] == u0[k];
        }
        assert u == Unseen(bucket, incoming);
      }
    }
  }

  lemma {:induction false} UnseenNone(bucket: seq<Message>, incoming: seq<Message>)
    requires forall k :: 0 <= k < |incoming| ==> HasId(bucket, incoming[k].id)
    ensures Unseen(bucket, incoming) == []
  {
    if incoming != [] {
      var pre := incoming[..|incoming| - 1];
      assert forall k :: 0 <= k < |pre| ==> pre[k] == incoming[k];
      UnseenNone(bucket, pre);
    }
  }

  /** After the inner loop every live message's id is in the bucket. */
  lemma {:induction false} AppendMissingCovers(bucket: seq<Message>, incoming: seq<Message>)
    ensures forall k :: 0 <= k < |incoming| ==> HasId(AppendMissing(bucket, incoming), incoming[k].id)
  {
    if incoming != [] {
      var pre := incoming[..|incoming| - 1];
      var m := incoming[|incoming| - 1];
      var acc := AppendMissing(bucket, pre);
      AppendMissingCovers(bucket, pre);
      forall k | 0 <= k < |incoming| ensures HasId(AppendMissing(bucket, incoming), incoming[k].id) {
        if k < |pre| {
          assert pre[k] == incoming[k];
          HasIdConcat(acc, [m], incoming[k].id);
        } else {
          assert incoming[k] == m;
          HasIdConcat(acc, [m], m.id);
          assert [m][0].id == m.id;
        }
      }
    }
  }

  /** Merging the same live day's messages twice adds nothing the second time. */
  lemma AppendMissingIdempotent(bucket: seq<Message>, incoming: seq<Message>)
    ensures AppendMissing(AppendMissing(bucket, incoming), incoming) == AppendMissing(bucket, incoming)
  {
    var r := AppendMissing(bucket, incoming);
    AppendMissingCovers(bucket, incoming);
    UnseenNone(r, incoming);
    AppendMissingIsUnseen(r, incoming);
  }

  /** A bucket without duplicate ids stays without duplicate ids. */
  lemma AppendMissingKeepsUnique(bucket: seq<Message>, incoming: seq<Message>)
    requires UniqueIds(bucket)
    ensures UniqueIds(AppendMissing(bucket, incoming))
  {
  }

  // ---------------------------------------------------------------------
  // Growth: the timeline only gains buckets at the end and messages at the
  // end of buckets
  // ---------------------------------------------------------------------

  /** `after` extends `before`: same labels at the old positions, each old
      bucket's message list a prefix of its new list. */
  ghost predicate Grows(before: seq<Day>, after: seq<Day>) {
    |before| <= |after| &&
    forall i :: 0 <= i < |before| ==>
      after[i].timestamp == before[i].timestamp && before[i].messages <= after[i].messages
  }

  lemma GrowsTransitive(a: seq<Day>, b: seq<Day>, c: seq<Day>)
    requires Grows(a, b) && Grows(b, c)
    ensures Grows(a, c)
  {
  }

  /** Growth never lowers the message count. */
  lemma {:induction false} GrowsCount(before: seq<Day>, after: seq<Day>)
    requires Grows(before, after)
    ensures TotalCount(before) <= TotalCount(after)
  {
    if before != [] {
      assert Grows(before[1..], after[1..]) by {
        forall i | 0 <= i < |before[1..]|
          ensures after[1..][i].timestamp == before[1..][i].timestamp &&
                  before[1..][i].messages <= after[1..][i].messages
        {
          assert before[1..][i] == before[i + 1] && after[1..][i] == after[i + 1];
        }
      }
      GrowsCount(before[1..], after[1..]);
    }
  }

  /** What one merged live day changes, and that nothing else changes: a new
      label is appended as a copy of the live day; for a known label only its
      first bucket changes, taking the live `today` flag and gaining exactly
      the unseen live messages at its end. */
  lemma MergeDayEffect(tl: seq<Day>, d: Day)
    ensures FindDay(tl, d.timestamp).None? ==> MergeDay(tl, d) == tl + [d]
    ensures FindDay(tl, d.timestamp).Some? ==>
              var j := FindDay(tl, d.timestamp).value;
              |MergeDay(tl, d)| == |tl| &&
              (forall i :: 0 <= i < |tl| && i != j ==> MergeDay(tl, d)[i] == tl[i]) &&
              MergeDay(tl, d)[j] == Day(tl[j].timestamp, tl[j].messages + Unseen(tl[j].messages, d.messages), d.today)
  {
    if FindDay(tl, d.timestamp).Some? {
      var j := FindDay(tl, d.timestamp).value;
      AppendMissingIsUnseen(tl[j].messages, d.messages);
    }
  }

  lemma MergeDayGrows(tl: seq<Day>, d: Day)
    ensures Grows(tl, MergeDay(tl, d))
  {
    MergeDayEffect(tl, d);
  }

  /** Across the outer loop the timeline only grows. */
  lemma {:induction false} MergeLiveGrows(tl: seq<Day>, live: seq<Day>)
    ensures Grows(tl, MergeLive(tl, live))
  {
    if live != [] {
      var mid := MergeLive(tl, live[..|live| - 1]);
      MergeLiveGrows(tl, live[..|live| - 1]);
      MergeDayGrows(mid, live[|live| - 1]);
      GrowsTransitive(tl, mid, MergeLive(tl, live));
    }
  }

  /** A merge never creates a second bucket for a label. */
  lemma {:induction false} MergeLiveKeepsDistinct(tl: seq<Day>, live: seq<Day>)
    requires DistinctLabels(tl)
    ensures DistinctLabels(MergeLive(tl, live))
  {
    if live != [] {
      var mid := MergeLive(tl, live[..|live| - 1]);
      var d := live[|live| - 1];
      MergeLiveKeepsDistinct(tl, live[..|live| - 1]);
      MergeDayEffect(mid, d);
      var r := MergeLive(tl, live);
      forall i, j | 0 <= i < j < |r| ensures r[i].timestamp != r[j].timestamp {
        if j == |mid| {
          assert r[j].timestamp == d.timestamp;
        } else {
          assert r[i].timestamp == mid[i].timestamp && r[j].timestamp == mid[j].timestamp;
        }
      }
    }
  }

  /** A merge keeps every bucket free of duplicate ids, given live buckets
      free of them. */
  lemma {:induction false} MergeLiveKeepsUnique(tl: seq<Day>, live: seq<Day>)
    requires forall i :: 0 <= i < |tl| ==> UniqueIds(tl[i].messages)
    requires forall i :: 0 <= i < |live| ==> UniqueIds(live[i].messages)
    ensures forall i :: 0 <= i < |MergeLive(tl, live)| ==> UniqueIds(MergeLive(tl, live)[i].messages)
  {
    if live != [] {
      var pre := live[..|live| - 1];
      var mid := MergeLive(tl, pre);
      var d := live[|live| - 1];
      assert forall i :: 0 <= i < |pre| ==> pre[i] == live[i];
      MergeLiveKeepsUnique(tl, pre);
      match FindDay(mid, d.timestamp)
      case None =>
      case Some(j) =>
        AppendMissingKeepsUnique(mid[j].messages, d.messages);
    }
  }

  // ---------------------------------------------------------------------
  // Coverage: no message the live feed showed is lost
  // ---------------------------------------------------------------------

  /** Some bucket of `tl` carries `d`'s label and every id of `d`'s messages. */
  ghost predicate Absorbs(tl: seq<Day>, d: Day) {
    exists j :: 0 <= j < |tl| && tl[j].timestamp == d.timestamp &&
                forall k :: 0 <= k < |d.messages| ==> HasId(tl[j].messages, d.messages[k].id)
  }

  lemma AbsorbsGrows(before: seq<Day>, after: seq<Day>, d: Day)
    requires Absorbs(before, d) && Grows(before, after)
    ensures Absorbs(after, d)
  {
  }

  lemma MergeDayAbsorbs(tl: seq<Day>, d: Day)
    ensures Absorbs(MergeDay(tl, d), d)
  {
    var r := MergeDay(tl, d);
    match FindDay(tl, d.timestamp)
    case None =>
      assert r[|tl|] == d;
      forall k | 0 <= k < |d.messages| ensures HasId(r[|tl|].messages, d.messages[k].id) {
        assert r[|tl|].messages[k] == d.messages[k];
      }
    case Some(j) =>
      AppendMissingCovers(tl[j].messages, d.messages);
      assert r[j].messages == AppendMissing(tl[j].messages, d.messages);
  }

  /** After a merge, every live message's id is in a bucket with its day's label. */
  lemma {:induction false} MergeLiveCovers(tl: seq<Day>, live: seq<Day>)
    ensures forall i :: 0 <= i < |live| ==> Absorbs(MergeLive(tl, live), live[i])
  {
    if live != [] {
      var pre := live[..|live| - 1];
      var mid := MergeLive(tl, pre);
      var d := live[|live| - 1];
      var r := MergeLive(tl, live);
      MergeLiveCovers(tl, pre);
      MergeDayGrows(mid, d);
      MergeDayAbsorbs(mid, d);
      forall i | 0 <= i < |live| ensures Absorbs(r, live[i]) {
        if i < |pre| {
          assert pre[i] == live[i];
          AbsorbsGrows(mid, r, live[i]);
        }
      }
    }
  }

  // ---------------------------------------------------------------------
  // Idempotence
  // ---------------------------------------------------------------------

  /** The first bucket with `d`'s label holds all of `d`'s ids, so merging
      `d` can only change that bucket's `today` flag. */
  ghost predicate HoldsFirst(tl: seq<Day>, d: Day) {
    FindDay(tl, d.timestamp).Some? &&
    forall k :: 0 <= k < |d.messages| ==>
      HasId(tl[FindDay(tl, d.timestamp).value].messages, d.messages[k].id)
  }

  /** The `today` flag of the last live day with a label: the one a merge
      leaves on that label's bucket. */
  function LastToday(live: seq<Day>, timestamp: string): (r: Option<bool>)
    ensures r.Some? <==> exists i :: 0 <= i < |live| && live[i].timestamp == timestamp
  {
    if live == [] then None
    else if live[|live| - 1].timestamp == timestamp then Some(live[|live| - 1].today)
    else
      var r := LastToday(live[..|live| - 1], timestamp);
      assert forall i :: 0 <= i < |live| - 1 ==> live[..|live| - 1][i] == live[i];
      r
  }

  /** `day.today = today` on the first bucket with the label, if there is one. */
  function SetToday(tl: seq<Day>, timestamp: string, today: bool): seq<Day> {
    match FindDay(tl, timestamp)
    case None => tl
    case Some(j) => tl[j := Day(tl[j].timestamp, tl[j].messages, today)]
  }

  /** The live days' `today` flags written one after another. */
  function SetTodays(tl: seq<Day>, live: seq<Day>): seq<Day> {
    if live == [] then tl
    else SetToday(SetTodays(tl, live[..|live| - 1]), live[|live| - 1].timestamp, live[|live| - 1].today)
  }

  /** Same labels and messages at every position; only `today` flags may differ. */
  ghost predicate SameShape(a: seq<Day>, b: seq<Day>) {
    |a| == |b| &&
    forall j :: 0 <= j < |a| ==> a[j].timestamp == b[j].timestamp && a[j].messages == b[j].messages
  }

  lemma FindDaySameShape(a: seq<Day>, b: seq<Day>, timestamp: string)
    requires SameShape(a, b)
    ensures FindDay(a, timestamp) == FindDay(b, timestamp)
  {
    if FindDay(a, timestamp).Some? {
      FindDayFirst(b, timestamp, FindDay(a, timestamp).value);
    } else if FindDay(b, timestamp).Some? {
      FindDayFirst(a, timestamp, FindDay(b, timestamp).value);
    }
  }

  /** A bucket found for a label stays the one found while the timeline grows. */
  lemma FindDayGrows(a: seq<Day>, b: seq<Day>, timestamp: string)
    requires Grows(a, b) && FindDay(a, timestamp).Some?
    ensures FindDay(b, timestamp) == FindDay(a, timestamp)
  {
    FindDayFirst(b, timestamp, FindDay(a, timestamp).value);
  }

  lemma {:induction false} SetTodaysShape(tl: seq<Day>, live: seq<Day>)
    ensures SameShape(tl, SetTodays(tl, live))
  {
    if live != [] {
      SetTodaysShape(tl, live[..|live| - 1]);
    }
  }

  /** Writing the flags leaves each first bucket of a live label with the
      label's last live flag, and every other bucket as it was. */
  lemma {:induction false} SetTodaysAt(tl: seq<Day>, live: seq<Day>, j: nat)
    requires j < |tl|
    ensures |SetTodays(tl, live)| == |tl|
    ensures SetTodays(tl, live)[j].timestamp == tl[j].timestamp
    ensures SetTodays(tl, live)[j].messages == tl[j].messages
    ensures SetTodays(tl, live)[j].today ==
            if FindDay(tl, tl[j].timestamp) == Some(j) && LastToday(live, tl[j].timestamp).Some?
            then LastToday(live, tl[j].timestamp).value else tl[j].today
  {
    if live != [] {
      var pre := live[..|live| - 1];
      var d := live[|live| - 1];
      SetTodaysShape(tl, pre);
      FindDaySameShape(tl, SetTodays(tl, pre), d.timestamp);
      SetTodaysAt(tl, pre, j);
    }
  }

  lemma MergeDayHoldsFirst(tl: seq<Day>, d: Day)
    ensures HoldsFirst(MergeDay(tl, d), d)
  {
    var r := MergeDay(tl, d);
    match FindDay(tl, d.timestamp)
    case None =>
      FindDayFirst(r, d.timestamp, |tl|);
      forall k | 0 <= k < |d.messages| ensures HasId(r[|tl|].messages, d.messages[k].id) {
        assert r[|tl|].messages[k] == d.messages[k];
      }
    case Some(j) =>
      FindDayFirst(r, d.timestamp, j);
      AppendMissingCovers(tl[j].messages, d.messages);
  }

  lemma HoldsFirstGrows(a: seq<Day>, b: seq<Day>, d: Day)
    requires HoldsFirst(a, d) && Grows(a, b)
    ensures HoldsFirst(b, d)
  {
    FindDayGrows(a, b, d.timestamp);
    var j := FindDay(a, d.timestamp).value;
    var extra := b[j].messages[|a[j].messages|..];
    assert b[j].messages == a[j].messages + extra;
    forall k | 0 <= k < |d.messages| ensures HasId(b[j].messages, d.messages[k].id) {
      HasIdConcat(a[j].messages, extra, d.messages[k].id);
    }
  }

  /** After a merge, the first bucket of every live day's label holds all of
      that day's ids. */
  lemma {:induction false} MergeLiveHoldsFirst(tl: seq<Day>, live: seq<Day>, i: nat)
    requires i < |live|
    ensures HoldsFirst(MergeLive(tl, live), live[i])
  {
    var pre := live[..|live| - 1];
    var mid := MergeLive(tl, pre);
    var d := live[|live| - 1];
    if i == |live| - 1 {
      MergeDayHoldsFirst(mid, d);
    } else {
      assert pre[i] == live[i];
      MergeLiveHoldsFirst(tl, pre, i);
      MergeDayGrows(mid, d);
      HoldsFirstGrows(mid, MergeLive(tl, live), live[i]);
    }
  }

  /** After a merge, the first bucket of every live label carries the flag of
      that label's last live day. */
  lemma {:induction false} MergeLiveLastToday(tl: seq<Day>, live: seq<Day>, timestamp: string)
    requires LastToday(live, timestamp).Some?
    ensures FindDay(MergeLive(tl, live), timestamp).Some?
    ensures MergeLive(tl, live)[FindDay(MergeLive(tl, live), timestamp).value].today ==
            LastToday(live, timestamp).value
  {
    var pre := live[..|live| - 1];
    var mid := MergeLive(tl, pre);
    var d := live[|live| - 1];
    var r := MergeLive(tl, live);
    MergeDayEffect(mid, d);
    if d.timestamp == timestamp {
      match FindDay(mid, timestamp)
      case None => FindDayFirst(r, timestamp, |mid|);
      case Some(j) => FindDayFirst(r, timestamp, j);
    } else {
      MergeLiveLastToday(tl, pre, timestamp);
      MergeDayGrows(mid, d);
      FindDayGrows(mid, r, timestamp);
      var j := FindDay(mid, timestamp).value;
      assert r[j] == mid[j];
    }
  }

  /** Merging a day whose ids its first bucket already holds only writes its flag. */
  lemma MergeDayFlagOnly(tl: seq<Day>, d: Day)
    requires HoldsFirst(tl, d)
    ensures MergeDay(tl, d) == SetToday(tl, d.timestamp, d.today)
  {
    var j := FindDay(tl, d.timestamp).value;
    UnseenNone(tl[j].messages, d.messages);
    AppendMissingIsUnseen(tl[j].messages, d.messages);
    assert AppendMissing(tl[j].messages, d.messages) == tl[j].messages;
  }

  lemma HoldsFirstSameShape(a: seq<Day>, b: seq<Day>, d: Day)
    requires HoldsFirst(a, d) && SameShape(a, b)
    ensures HoldsFirst(b, d)
  {
    FindDaySameShape(a, b, d.timestamp);
  }

  /** Merging days whose ids the timeline already holds only writes flags. */
  lemma {:induction false} MergeLiveFlagsOnly(tl: seq<Day>, live: seq<Day>)
    requires forall i :: 0 <= i < |live| ==> HoldsFirst(tl, live[i])
    ensures MergeLive(tl, live) == SetTodays(tl, live)
  {
    if live != [] {
      var pre := live[..|live| - 1];
      var d := live[|live| - 1];
      assert forall i :: 0 <= i < |pre| ==> pre[i] == live[i];
      MergeLiveFlagsOnly(tl, pre);
      SetTodaysShape(tl, pre);
      HoldsFirstSameShape(tl, SetTodays(tl, pre), d);
      MergeDayFlagOnly(SetTodays(tl, pre), d);
    }
  }

  /** Merging the same live value twice gives the timeline of merging it once:
      the second merge finds every id in place and writes back the flags the
      first merge left. */
  lemma MergeLiveIdempotent(tl: seq<Day>, live: seq<Day>)
    ensures MergeLive(MergeLive(tl, live), live) == MergeLive(tl, live)
  {
    var t := MergeLive(tl, live);
    forall i | 0 <= i < |live| ensures HoldsFirst(t, live[i]) {
      MergeLiveHoldsFirst(tl, live, i);
    }
    MergeLiveFlagsOnly(t, live);
    var u := SetTodays(t, live);
    SetTodaysShape(t, live);
    forall j | 0 <= j < |t| ensures u[j] == t[j] {
      SetTodaysAt(t, live, j);
      if FindDay(t, t[j].timestamp) == Some(j) && LastToday(live, t[j].timestamp).Some? {
        MergeLiveLastToday(tl, live, t[j].timestamp);
      }
    }
  }

  // ---------------------------------------------------------------------
  // The reducer
  // ---------------------------------------------------------------------

  /** On the first history value the timeline is the history, extended: every
      history bucket keeps its label, place and messages, and every live
      message is in the bucket of its day. */
  lemma ReduceSeeds(state: MergeState, live: seq<Day>, hist: seq<Day>)
    requires !state.historyTaken
    ensures Reduce(state, Some(live), Some(hist)).historyTaken
    ensures Grows(hist, Reduce(state, Some(live), Some(hist)).messages)
    ensures forall i :: 0 <= i < |live| ==> Absorbs(Reduce(state, Some(live), Some(hist)).messages, live[i])
  {
    MergeLiveGrows(hist, live);
    MergeLiveCovers(hist, live);
  }

  /** Once history is taken, the history value of a pair no longer matters. */
  lemma ReduceIgnoresLaterHistory(state: MergeState, live: seq<Day>, hist1: seq<Day>, hist2: seq<Day>)
    requires state.historyTaken
    ensures Reduce(state, Some(live), Some(hist1)) == Reduce(state, Some(live), Some(hist2))
    ensures Reduce(state, Some(live), Some(hist1)).messages == MergeLive(state.messages, live)
  {
  }

  /** A seeded step only grows the timeline and never lowers its message count. */
  lemma ReduceGrows(state: MergeState, live: seq<Day>, hist: seq<Day>)
    requires state.historyTaken
    ensures Grows(state.messages, Reduce(state, Some(live), Some(hist)).messages)
    ensures TotalCount(state.messages) <= TotalCount(Reduce(state, Some(live), Some(hist)).messages)
  {
    MergeLiveGrows(state.messages, live);
    GrowsCount(state.messages, MergeLive(state.messages, live));
  }

  /** A step with both values present keeps every live message. */
  lemma ReduceCovers(state: MergeState, live: seq<Day>, hist: seq<Day>)
    ensures forall i :: 0 <= i < |live| ==> Absorbs(Reduce(state, Some(live), Some(hist)).messages, live[i])
  {
    var msgs := if state.historyTaken then state.messages else CopyTimeline(hist);
    MergeLiveCovers(msgs, live);
  }

  /** Re-applying a pair with the same live value (the history query
      re-emitting) leaves the state as it was. */
  lemma ReduceIdempotent(state: MergeState, live: seq<Day>, hist: seq<Day>, hist2: seq<Day>)
    ensures Reduce(Reduce(state, Some(live), Some(hist)), Some(live), Some(hist2)) ==
            Reduce(state, Some(live), Some(hist))
  {
    var msgs := if state.historyTaken then state.messages else CopyTimeline(hist);
    MergeLiveIdempotent(msgs, live);
  }

  /** Every pair carries both a live and a history value. */
  predicate AllPresent(pairs: seq<(Option<seq<Day>>, Option<seq<Day>>)>) {
    forall k :: 0 <= k < |pairs| ==> pairs[k].0.Some? && pairs[k].1.Some?
  }

  /** Across any run of seeded steps with both values present, the timeline
      only grows and its message count never decreases. */
  lemma {:induction false} RunGrows(state: MergeState, pairs: seq<(Option<seq<Day>>, Option<seq<Day>>)>)
    requires state.historyTaken
    requires AllPresent(pairs)
    ensures Run(state, pairs).historyTaken
    ensures Grows(state.messages, Run(state, pairs).messages)
    ensures TotalCount(state.messages) <= TotalCount(Run(state, pairs).messages)
  {
    if pairs != [] {
      var pre := pairs[..|pairs| - 1];
      var last := pairs[|pairs| - 1];
      assert forall k :: 0 <= k < |pre| ==> pre[k] == pairs[k];
      RunGrows(state, pre);
      var mid := Run(state, pre);
      ReduceGrows(mid, last.0.value, last.1.value);
      GrowsTransitive(state.messages, mid.messages, Run(state, pairs).messages);
    }
    GrowsCount(state.messages, Run(state, pairs).messages);
  }
}
