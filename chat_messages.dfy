/** The `Chat.messages` resolver of the GraphQL schema: the completeness
    gate that holds back a paginated result until it has its expected size,
    and the day-grouping transform that turns a newest-first message list
    into `MessageByDay` buckets.

    The calendar-day label of an instant (`moment(createdAt).format('D MMMM Y')`)
    is the parameter `dayLabel`, and the label of the current instant is the
    parameter `nowLabel`; no time zone or locale is modelled. */
module ChatMessages {
  import opened Models

  function Min(a: int, b: int): int {
    if a <= b then a else b
  }

  /** The count a result must reach before it is emitted: the number of
      matching messages, clamped to `limit` when a limit is given. A limit of
      `0` is falsy and therefore means "no limit". */
  function ExpectedCount(total: nat, limit: Option<int>): (r: int)
    ensures limit.None? || limit.value == 0 ==> r == total
    ensures limit.Some? && limit.value != 0 ==>
              r <= total && r <= limit.value && (r == total || r == limit.value)
  {
    if limit.Some? && limit.value != 0 then Min(total, limit.value) else total
  }

  /** The completeness gate applied to one read of the store: a read shorter
      than the expected count is swallowed (no emission), any other read
      passes through unchanged. */
  function Gate(read: seq<Message>, expected: int): (r: Option<seq<Message>>)
    ensures r.Some? <==> |read| >= expected
    ensures r.Some? ==> r.value == read
  {
    if |read| < expected then None else Some(read)
  }

  /** What the gate lets through of a sequence of successive results of the same
      query (the `switchMap` to `Observable.empty()` or `Observable.of`). The
      expected count is computed once, when the resolver runs. */
  function Emitted(results: seq<seq<Message>>, expected: int): (r: seq<seq<Message>>)
    ensures |r| <= |results|
    ensures forall k :: 0 <= k < |r| ==> |r[k]| >= expected && r[k] in results
    ensures forall k :: 0 <= k < |results| && |results[k]| >= expected ==> results[k] in r
  {
    if results == [] then []
    else
      var earlier := Emitted(results[..|results| - 1], expected);
      assert forall k :: 0 <= k < |results| - 1 ==> results[..|results| - 1][k] == results[k];
      match Gate(results[|results| - 1], expected)
      case None => earlier
      case Some(ms) => earlier + [ms]
  }

  /** A single read is emitted once, unchanged, iff it reaches the expected count. */
  lemma EmittedOne(read: seq<Message>, expected: int)
    ensures Emitted([read], expected) == if |read| >= expected then [read] else []
  {
    assert [read][..0] == [];
  }

  /** The gate works read by read: the emissions for two runs of reads in a row
      are the emissions for the first run followed by those for the second, so
      each read that reaches the count is emitted exactly once, in arrival order. */
  lemma {:induction false} EmittedAppend(a: seq<seq<Message>>, b: seq<seq<Message>>, expected: int)
    ensures Emitted(a + b, expected) == Emitted(a, expected) + Emitted(b, expected)
  {
    if b == [] {
      assert a + b == a;
    } else {
      var pre := b[..|b| - 1];
      EmittedAppend(a, pre, expected);
      assert (a + b)[..|a + b| - 1] == a + pre;
      assert (a + b)[|a + b| - 1] == b[|b| - 1];
    }
  }

  // ---------------------------------------------------------------------
  // `_.groupBy(messages, day label)`: an object from key to values, built in
  // one pass; its keys, as `Object.keys` lists them, are in insertion order
  // (a 'D MMMM Y' label is never an integer-like key).
  // ---------------------------------------------------------------------

  /** One entry of the object `_.groupBy` builds: a key and its values in input order. */
  datatype Group = Group(key: string, members: seq<Message>)

  /** The position of the entry with key `key`, if the object has one. */
  function FindGroup(groups: seq<Group>, key: string): (r: Option<nat>)
    ensures r.Some? ==> r.value < |groups| && groups[r.value].key == key
    ensures r.None? ==> forall i :: 0 <= i < |groups| ==> groups[i].key != key
  {
    if groups == [] then None
    else if groups[|groups| - 1].key == key then Some(|groups| - 1)
    else FindGroup(groups[..|groups| - 1], key)
  }

  /** `_.groupBy` over `ms`, keyed by the day label of each message's creation time. */
  function GroupBy(ms: seq<Message>, dayLabel: int -> string): seq<Group>
  {
    if ms == [] then []
    else
      var groups := GroupBy(ms[..|ms| - 1], dayLabel);
      var m := ms[|ms| - 1];
      var key := dayLabel(m.createdAt);
      match FindGroup(groups, key)
      case Some(i) => groups[i := Group(key, groups[i].members + [m])]
      case None => groups + [Group(key, [m])]
  }

  /** `Object.keys(grouped).map(...)`: one bucket per key, its values reversed,
      flagged `today` when the key is the label of now. */
  function ToDays(groups: seq<Group>, nowLabel: string): seq<Day>
  {
    if groups == [] then []
    else
      [Day(groups[0].key, Reverse(groups[0].members), groups[0].key == nowLabel)]
      + ToDays(groups[1..], nowLabel)
  }

  /** The transform applied to every result the gate lets through. */
  function GroupByDay(ms: seq<Message>, dayLabel: int -> string, nowLabel: string): seq<Day>
  {
    Reverse(ToDays(GroupBy(ms, dayLabel), nowLabel))
  }

  /** The whole resolver on one read of the store: gate, then group. */
  function Messages(read: seq<Message>, total: nat, limit: Option<int>,
                    dayLabel: int -> string, nowLabel: string): (r: Option<seq<Day>>)
    ensures r.Some? <==> |read| >= ExpectedCount(total, limit)
    ensures r.Some? ==> r.value == GroupByDay(read, dayLabel, nowLabel)
  {
    match Gate(read, ExpectedCount(total, limit))
    case None => None
    case Some(ms) => Some(GroupByDay(ms, dayLabel, nowLabel))
  }

  // ---------------------------------------------------------------------
  // Reference definition of the grouping: the distinct labels in order of
  // first appearance, and for each label the messages carrying it.
  // ---------------------------------------------------------------------

  /** The distinct day labels of `ms`, in order of first appearance. */
  function FirstSeenLabels(ms: seq<Message>, dayLabel: int -> string): seq<string> {
    if ms == [] then []
    else
      var labels := FirstSeenLabels(ms[..|ms| - 1], dayLabel);
      var l := dayLabel(ms[|ms| - 1].createdAt);
      if l in labels then labels else labels + [l]
  }

  /** The messages of `ms` whose day label is `day`, in input order. */
  function OnDay(ms: seq<Message>, dayLabel: int -> string, day: string): seq<Message> {
    if ms == [] then []
    else
      OnDay(ms[..|ms| - 1], dayLabel, day)
      + (if dayLabel(ms[|ms| - 1].createdAt) == day then [ms[|ms| - 1]] else [])
  }

  lemma {:induction false} FirstSeenLabelsDistinct(ms: seq<Message>, dayLabel: int -> string)
    ensures forall i, j :: 0 <= i < j < |FirstSeenLabels(ms, dayLabel)| ==>
              FirstSeenLabels(ms, dayLabel)[i] != FirstSeenLabels(ms, dayLabel)[j]
  {
    if ms != [] {
      var labels := FirstSeenLabels(ms[..|ms| - 1], dayLabel);
      var l := dayLabel(ms[|ms| - 1].createdAt);
      FirstSeenLabelsDistinct(ms[..|ms| - 1], dayLabel);
      if l !in labels {
        var ls := labels + [l];
        forall i, j | 0 <= i < j < |ls| ensures ls[i] != ls[j] {
          assert ls[i] == labels[i];
          if j < |labels| {
            assert ls[j] == labels[j];
            assert labels[i] != labels[j];
          } else {
            assert labels[i] in labels;
          }
        }
        assert FirstSeenLabels(ms, dayLabel) == ls;
      }
    }
  }

  /** A label is listed exactly when some message carries it. */
  lemma {:induction false} FirstSeenLabelsComplete(ms: seq<Message>, dayLabel: int -> string, l: string)
    ensures l in FirstSeenLabels(ms, dayLabel) <==>
            exists k :: 0 <= k < |ms| && dayLabel(ms[k].createdAt) == l
  {
    if ms != [] {
      var p := ms[..|ms| - 1];
      FirstSeenLabelsComplete(p, dayLabel, l);
      if exists k :: 0 <= k < |ms| && dayLabel(ms[k].createdAt) == l {
        var k :| 0 <= k < |ms| && dayLabel(ms[k].createdAt) == l;
        if k < |ms| - 1 {
          assert p[k] == ms[k];
        }
      }
      if exists k :: 0 <= k < |p| && dayLabel(p[k].createdAt) == l {
        var k :| 0 <= k < |p| && dayLabel(p[k].createdAt) == l;
        assert ms[k] == p[k];
      }
    }
  }

  /** A message is in a label's filter exactly when it is in `ms` and carries the label. */
  lemma {:induction false} OnDayMembers(ms: seq<Message>, dayLabel: int -> string, day: string, x: Message)
    ensures x in OnDay(ms, dayLabel, day) <==> x in ms && dayLabel(x.createdAt) == day
  {
    if ms != [] {
      var p := ms[..|ms| - 1];
      OnDayMembers(p, dayLabel, day, x);
      assert ms == p + [ms[|ms| - 1]];
    }
  }

  lemma {:induction false} OnDayNone(ms: seq<Message>, dayLabel: int -> string, day: string)
    requires forall k :: 0 <= k < |ms| ==> dayLabel(ms[k].createdAt) != day
    ensures OnDay(ms, dayLabel, day) == []
  {
    if ms != [] {
      var p := ms[..|ms| - 1];
      assert forall k :: 0 <= k < |p| ==> p[k] == ms[k];
      OnDayNone(p, dayLabel, day);
    }
  }

  /** The reference grouping: one entry per label in order of first
      appearance, holding that label's messages in input order. */
  function ReferenceGroups(ms: seq<Message>, dayLabel: int -> string): seq<Group> {
    var ls := FirstSeenLabels(ms, dayLabel);
    seq(|ls|, i requires 0 <= i < |ls| => Group(ls[i], OnDay(ms, dayLabel, ls[i])))
  }

  /** The one-pass `_.groupBy` agrees with the reference: its keys are the
      labels in order of first appearance and each key holds exactly that
      label's messages, in input order. */
  lemma {:induction false} GroupByIsReference(ms: seq<Message>, dayLabel: int -> string)
    ensures GroupBy(ms, dayLabel) == ReferenceGroups(ms, dayLabel)
  {
    if ms != [] {
      var p := ms[..|ms| - 1];
      var m := ms[|ms| - 1];
      var l := dayLabel(m.createdAt);
      GroupByIsReference(p, dayLabel);
      var g0 := GroupBy(p, dayLabel);
      var ls0 := FirstSeenLabels(p, dayLabel);
      var g := GroupBy(ms, dayLabel);
      var ls := FirstSeenLabels(ms, dayLabel);
      var ref := ReferenceGroups(ms, dayLabel);
      FirstSeenLabelsDistinct(p, dayLabel);
      match FindGroup(g0, l)
      case Some(i) =>
        assert ls0[i] == l;
        assert ls == ls0;
        forall j | 0 <= j < |g| ensures g[j] == ref[j] {
          if j != i {
            assert ls0[j] != l;
          }
        }
      case None =>
        forall j | 0 <= j < |ls0| ensures ls0[j] != l {
          assert g0[j].key == ls0[j];
        }
        assert ls == ls0 + [l];
        FirstSeenLabelsComplete(p, dayLabel, l);
        OnDayNone(p, dayLabel, l);
        forall j | 0 <= j < |g| ensures g[j] == ref[j] {
          if j < |g0| {
            assert ls0[j] != l;
          }
        }
    }
  }

  /** The bucket the reference assigns to label `l`. */
  function Bucket(ms: seq<Message>, dayLabel: int -> string, nowLabel: string, l: string): Day {
    Day(l, Reverse(OnDay(ms, dayLabel, l)), l == nowLabel)
  }

  /** The reference buckets: one per label, in the reverse of the labels'
      first-appearance order. */
  function ReferenceDays(ms: seq<Message>, dayLabel: int -> string, nowLabel: string): seq<Day> {
    var ls := FirstSeenLabels(ms, dayLabel);
    seq(|ls|, i requires 0 <= i < |ls| => Bucket(ms, dayLabel, nowLabel, ls[|ls| - 1 - i]))
  }

  lemma {:induction false} ToDaysAt(groups: seq<Group>, nowLabel: string)
    ensures |ToDays(groups, nowLabel)| == |groups|
    ensures forall i :: 0 <= i < |groups| ==>
              ToDays(groups, nowLabel)[i] ==
              Day(groups[i].key, Reverse(groups[i].members), groups[i].key == nowLabel)
  {
    if groups != [] {
      ToDaysAt(groups[1..], nowLabel);
    }
  }

  /** Turning the reference grouping into buckets and reversing them gives
      the reference buckets. */
  lemma ReverseToDaysIsReference(g: seq<Group>, ms: seq<Message>, dayLabel: int -> string, nowLabel: string)
    requires g == ReferenceGroups(ms, dayLabel)
    ensures Reverse(ToDays(g, nowLabel)) == ReferenceDays(ms, dayLabel, nowLabel)
  {
    var ls := FirstSeenLabels(ms, dayLabel);
    var ds := ToDays(g, nowLabel);
    var ref := ReferenceDays(ms, dayLabel, nowLabel);
    ToDaysAt(g, nowLabel);
    forall i | 0 <= i < |ref| ensures Reverse(ds)[i] == ref[i] {
      var k := |ls| - 1 - i;
      assert g[k] == Group(ls[k], OnDay(ms, dayLabel, ls[k]));
      assert ref[i] == Bucket(ms, dayLabel, nowLabel, ls[k]);
    }
  }

  /** The buckets agree with the reference: they come in the reverse of the
      labels' first-appearance order, each holds its label's messages in
      reverse input order, and `today` holds exactly when the label is now's. */
  lemma GroupByDayIsReference(ms: seq<Message>, dayLabel: int -> string, nowLabel: string)
    ensures GroupByDay(ms, dayLabel, nowLabel) == ReferenceDays(ms, dayLabel, nowLabel)
  {
    GroupByIsReference(ms, dayLabel);
    ReverseToDaysIsReference(GroupBy(ms, dayLabel), ms, dayLabel, nowLabel);
  }

  /** One reference bucket: the bucket of the i-th label counted from the last. */
  lemma ReferenceDaysAt(ms: seq<Message>, dayLabel: int -> string, nowLabel: string, i: nat)
    requires i < |ReferenceDays(ms, dayLabel, nowLabel)|
    ensures |ReferenceDays(ms, dayLabel, nowLabel)| == |FirstSeenLabels(ms, dayLabel)|
    ensures ReferenceDays(ms, dayLabel, nowLabel)[i] ==
            Bucket(ms, dayLabel, nowLabel,
                   FirstSeenLabels(ms, dayLabel)[|FirstSeenLabels(ms, dayLabel)| - 1 - i])
  {
  }

  /** One bucket, as the reference describes it. */
  lemma GroupByDayAt(ms: seq<Message>, dayLabel: int -> string, nowLabel: string, i: nat)
    requires i < |GroupByDay(ms, dayLabel, nowLabel)|
    ensures |GroupByDay(ms, dayLabel, nowLabel)| == |FirstSeenLabels(ms, dayLabel)|
    ensures GroupByDay(ms, dayLabel, nowLabel)[i] ==
            Bucket(ms, dayLabel, nowLabel,
                   FirstSeenLabels(ms, dayLabel)[|FirstSeenLabels(ms, dayLabel)| - 1 - i])
  {
    GroupByDayIsReference(ms, dayLabel, nowLabel);
    ReferenceDaysAt(ms, dayLabel, nowLabel, i);
  }

  /** An empty read gives no buckets, and only an empty read does. */
  lemma GroupByDayEmpty(ms: seq<Message>, dayLabel: int -> string, nowLabel: string)
    ensures GroupByDay(ms, dayLabel, nowLabel) == [] <==> ms == []
  {
  }

  /** No two reference buckets share a label. */
  lemma ReferenceDaysDistinct(ms: seq<Message>, dayLabel: int -> string, nowLabel: string)
    ensures DistinctLabels(ReferenceDays(ms, dayLabel, nowLabel))
  {
    var r := ReferenceDays(ms, dayLabel, nowLabel);
    var ls := FirstSeenLabels(ms, dayLabel);
    FirstSeenLabelsDistinct(ms, dayLabel);
    forall i, j | 0 <= i < j < |r| ensures r[i].timestamp != r[j].timestamp {
      assert r[i] == Bucket(ms, dayLabel, nowLabel, ls[|ls| - 1 - i]);
      assert r[j] == Bucket(ms, dayLabel, nowLabel, ls[|ls| - 1 - j]);
    }
  }

  /** No two buckets share a label. */
  lemma GroupByDayDistinct(ms: seq<Message>, dayLabel: int -> string, nowLabel: string)
    ensures DistinctLabels(GroupByDay(ms, dayLabel, nowLabel))
  {
    GroupByDayIsReference(ms, dayLabel, nowLabel);
    ReferenceDaysDistinct(ms, dayLabel, nowLabel);
  }

  lemma ReferenceDaysToday(ms: seq<Message>, dayLabel: int -> string, nowLabel: string)
    ensures forall i :: 0 <= i < |ReferenceDays(ms, dayLabel, nowLabel)| ==>
              (ReferenceDays(ms, dayLabel, nowLabel)[i].today <==>
               ReferenceDays(ms, dayLabel, nowLabel)[i].timestamp == nowLabel)
  {
    forall i | 0 <= i < |ReferenceDays(ms, dayLabel, nowLabel)|
      ensures ReferenceDays(ms, dayLabel, nowLabel)[i].today <==>
              ReferenceDays(ms, dayLabel, nowLabel)[i].timestamp == nowLabel
    {
      ReferenceDaysAt(ms, dayLabel, nowLabel, i);
    }
  }

  /** A bucket is flagged `today` exactly when its label is the label of now. */
  lemma GroupByDayToday(ms: seq<Message>, dayLabel: int -> string, nowLabel: string)
    ensures forall i :: 0 <= i < |GroupByDay(ms, dayLabel, nowLabel)| ==>
              (GroupByDay(ms, dayLabel, nowLabel)[i].today <==>
               GroupByDay(ms, dayLabel, nowLabel)[i].timestamp == nowLabel)
  {
    GroupByDayIsReference(ms, dayLabel, nowLabel);
    ReferenceDaysToday(ms, dayLabel, nowLabel);
  }

  lemma BucketMembers(ms: seq<Message>, dayLabel: int -> string, nowLabel: string, l: string, x: Message)
    ensures x in Bucket(ms, dayLabel, nowLabel, l).messages <==> x in ms && dayLabel(x.createdAt) == l
  {
    var f := OnDay(ms, dayLabel, l);
    OnDayMembers(ms, dayLabel, l, x);
    ReverseMultiset(f);
    assert x in Reverse(f) <==> x in multiset(Reverse(f));
  }

  /** A bucket holds exactly the input messages of its day. */
  lemma ReferenceDaysMembers(ms: seq<Message>, dayLabel: int -> string, nowLabel: string, i: nat, x: Message)
    requires i < |ReferenceDays(ms, dayLabel, nowLabel)|
    ensures x in ReferenceDays(ms, dayLabel, nowLabel)[i].messages <==>
            x in ms && dayLabel(x.createdAt) == ReferenceDays(ms, dayLabel, nowLabel)[i].timestamp
  {
    var ls := FirstSeenLabels(ms, dayLabel);
    ReferenceDaysAt(ms, dayLabel, nowLabel, i);
    BucketMembers(ms, dayLabel, nowLabel, ls[|ls| - 1 - i], x);
  }

  lemma GroupByDayMembers(ms: seq<Message>, dayLabel: int -> string, nowLabel: string, i: nat, x: Message)
    requires i < |GroupByDay(ms, dayLabel, nowLabel)|
    ensures x in GroupByDay(ms, dayLabel, nowLabel)[i].messages <==>
            x in ms && dayLabel(x.createdAt) == GroupByDay(ms, dayLabel, nowLabel)[i].timestamp
  {
    GroupByDayIsReference(ms, dayLabel, nowLabel);
    ReferenceDaysMembers(ms, dayLabel, nowLabel, i, x);
  }

  /** Every input message's day has a bucket. */
  lemma GroupByDayCovers(ms: seq<Message>, dayLabel: int -> string, nowLabel: string, x: Message)
    requires x in ms
    ensures exists i :: 0 <= i < |GroupByDay(ms, dayLabel, nowLabel)| &&
                        GroupByDay(ms, dayLabel, nowLabel)[i].timestamp == dayLabel(x.createdAt)
  {
    GroupByDayIsReference(ms, dayLabel, nowLabel);
    var r := ReferenceDays(ms, dayLabel, nowLabel);
    var ls := FirstSeenLabels(ms, dayLabel);
    var l := dayLabel(x.createdAt);
    var k :| 0 <= k < |ms| && ms[k] == x;
    FirstSeenLabelsComplete(ms, dayLabel, l);
    var q :| 0 <= q < |ls| && ls[q] == l;
    assert r[|ls| - 1 - q] == Bucket(ms, dayLabel, nowLabel, ls[q]);
  }

  /** Every input message lies in exactly one bucket. */
  lemma GroupByDayExactlyOne(ms: seq<Message>, dayLabel: int -> string, nowLabel: string, x: Message)
    requires x in ms
    ensures exists i :: 0 <= i < |GroupByDay(ms, dayLabel, nowLabel)| &&
                        x in GroupByDay(ms, dayLabel, nowLabel)[i].messages &&
                        forall j :: (0 <= j < |GroupByDay(ms, dayLabel, nowLabel)| &&
                                     x in GroupByDay(ms, dayLabel, nowLabel)[j].messages) ==> j == i
  {
    var r := GroupByDay(ms, dayLabel, nowLabel);
    GroupByDayCovers(ms, dayLabel, nowLabel, x);
    GroupByDayDistinct(ms, dayLabel, nowLabel);
    var i :| 0 <= i < |r| && r[i].timestamp == dayLabel(x.createdAt);
    GroupByDayMembers(ms, dayLabel, nowLabel, i, x);
    forall j | 0 <= j < |r| && x in r[j].messages ensures j == i {
      GroupByDayMembers(ms, dayLabel, nowLabel, j, x);
    }
  }

  // --- counting: grouping neither loses nor duplicates a message ---

  function GroupMessages(groups: seq<Group>): seq<Message> {
    if groups == [] then [] else groups[0].members + GroupMessages(groups[1..])
  }

  lemma {:induction false} GroupMessagesAppend(groups: seq<Group>, g: Group)
    ensures multiset(GroupMessages(groups + [g])) == multiset(GroupMessages(groups)) + multiset(g.members)
  {
    if groups != [] {
      assert (groups + [g])[1..] == groups[1..] + [g];
      GroupMessagesAppend(groups[1..], g);
    } else {
      assert GroupMessages([g]) == g.members + GroupMessages([]);
    }
  }

  lemma {:induction false} GroupMessagesExtend(groups: seq<Group>, i: nat, key: string, m: Message)
    requires i < |groups|
    ensures multiset(GroupMessages(groups[i := Group(key, groups[i].members + [m])])) ==
            multiset(GroupMessages(groups)) + multiset{m}
  {
    var u := groups[i := Group(key, groups[i].members + [m])];
    if i == 0 {
      assert u[1..] == groups[1..];
    } else {
      assert u[1..] == groups[1..][i - 1 := Group(key, groups[1..][i - 1].members + [m])];
      GroupMessagesExtend(groups[1..], i - 1, key, m);
    }
  }

  lemma {:induction false} GroupByMultiset(ms: seq<Message>, dayLabel: int -> string)
    ensures multiset(GroupMessages(GroupBy(ms, dayLabel))) == multiset(ms)
  {
    if ms != [] {
      var p := ms[..|ms| - 1];
      var m := ms[|ms| - 1];
      GroupByMultiset(p, dayLabel);
      assert ms == p + [m];
      var g0 := GroupBy(p, dayLabel);
      match FindGroup(g0, dayLabel(m.createdAt))
      case Some(i) =>
        GroupMessagesExtend(g0, i, dayLabel(m.createdAt), m);
      case None =>
        GroupMessagesAppend(g0, Group(dayLabel(m.createdAt), [m]));
    }
  }

  lemma {:induction false} ToDaysMultiset(groups: seq<Group>, nowLabel: string)
    ensures multiset(Flatten(ToDays(groups, nowLabel))) == multiset(GroupMessages(groups))
  {
    if groups != [] {
      ToDaysMultiset(groups[1..], nowLabel);
      ReverseMultiset(groups[0].members);
    }
  }

  /** Grouping is a partition of the read: the buckets together hold exactly
      the input messages, as many times each, and so as many messages in all. */
  lemma GroupByDayPartition(ms: seq<Message>, dayLabel: int -> string, nowLabel: string)
    ensures multiset(Flatten(GroupByDay(ms, dayLabel, nowLabel))) == multiset(ms)
    ensures TotalCount(GroupByDay(ms, dayLabel, nowLabel)) == |ms|
  {
    var ds := ToDays(GroupBy(ms, dayLabel), nowLabel);
    FlattenReverseMultiset(ds);
    ToDaysMultiset(GroupBy(ms, dayLabel), nowLabel);
    GroupByMultiset(ms, dayLabel);
    var r := GroupByDay(ms, dayLabel, nowLabel);
    FlattenLength(r);
    assert |multiset(Flatten(r))| == |Flatten(r)|;
    assert |multiset(ms)| == |ms|;
  }

  /** What the resolver emits for one read: nothing when the read is short,
      otherwise buckets holding exactly the read's messages, so never fewer
      than the expected count. */
  lemma MessagesComplete(read: seq<Message>, total: nat, limit: Option<int>,
                         dayLabel: int -> string, nowLabel: string)
    ensures Messages(read, total, limit, dayLabel, nowLabel).Some? <==> |read| >= ExpectedCount(total, limit)
    ensures Messages(read, total, limit, dayLabel, nowLabel).Some? ==>
              multiset(Flatten(Messages(read, total, limit, dayLabel, nowLabel).value)) == multiset(read) &&
              TotalCount(Messages(read, total, limit, dayLabel, nowLabel).value) >= ExpectedCount(total, limit)
  {
    GroupByDayPartition(read, dayLabel, nowLabel);
  }

  // --- ordering on a newest-first read ---

  /** A day label names a contiguous range of instants, as a calendar day does. */
  ghost predicate DayContiguous(dayLabel: int -> string) {
    forall a, b, c :: a <= b <= c && dayLabel(a) == dayLabel(c) ==> dayLabel(b) == dayLabel(a)
  }

  lemma {:induction false} OnDaySorted(ms: seq<Message>, dayLabel: int -> string, day: string)
    requires SortedDesc(ms)
    ensures SortedDesc(OnDay(ms, dayLabel, day))
  {
    if ms != [] {
      var p := ms[..|ms| - 1];
      var m := ms[|ms| - 1];
      OnDaySorted(p, dayLabel, day);
      var f := OnDay(p, dayLabel, day);
      forall a | 0 <= a < |f| ensures f[a].createdAt >= m.createdAt {
        OnDayMembers(p, dayLabel, day, f[a]);
        var k :| 0 <= k < |p| && p[k] == f[a];
      }
    }
  }

  /** On a newest-first read, the reference bucket of a label is oldest first. */
  lemma BucketAscending(ms: seq<Message>, dayLabel: int -> string, nowLabel: string, l: string)
    requires SortedDesc(ms)
    ensures SortedAsc(Bucket(ms, dayLabel, nowLabel, l).messages)
  {
    OnDaySorted(ms, dayLabel, l);
  }

  lemma ReferenceDaysAscending(ms: seq<Message>, dayLabel: int -> string, nowLabel: string, i: nat)
    requires SortedDesc(ms)
    requires i < |ReferenceDays(ms, dayLabel, nowLabel)|
    ensures SortedAsc(ReferenceDays(ms, dayLabel, nowLabel)[i].messages)
  {
    var ls := FirstSeenLabels(ms, dayLabel);
    ReferenceDaysAt(ms, dayLabel, nowLabel, i);
    BucketAscending(ms, dayLabel, nowLabel, ls[|ls| - 1 - i]);
  }

  /** Within a bucket messages are oldest first. */
  lemma GroupByDayAscending(ms: seq<Message>, dayLabel: int -> string, nowLabel: string, i: nat)
    requires SortedDesc(ms)
    requires i < |GroupByDay(ms, dayLabel, nowLabel)|
    ensures SortedAsc(GroupByDay(ms, dayLabel, nowLabel)[i].messages)
  {
    GroupByDayIsReference(ms, dayLabel, nowLabel);
    ReferenceDaysAscending(ms, dayLabel, nowLabel, i);
  }

  /** A message whose label first appears later has, before it, a message of
      every label that first appears earlier. */
  lemma {:induction false} FirstSeenBefore(ms: seq<Message>, dayLabel: int -> string, q: nat, p: nat, k: nat)
    requires var ls := FirstSeenLabels(ms, dayLabel);
             q < p < |ls| && k < |ms| && dayLabel(ms[k].createdAt) == ls[p]
    ensures exists g :: 0 <= g < k && dayLabel(ms[g].createdAt) == FirstSeenLabels(ms, dayLabel)[q]
  {
    var ls := FirstSeenLabels(ms, dayLabel);
    var pre := ms[..|ms| - 1];
    var m := ms[|ms| - 1];
    var ls0 := FirstSeenLabels(pre, dayLabel);
    FirstSeenLabelsDistinct(ms, dayLabel);
    if dayLabel(m.createdAt) in ls0 {
      assert ls == ls0;
      if k < |pre| {
        assert pre[k] == ms[k];
        FirstSeenBefore(pre, dayLabel, q, p, k);
        var g :| 0 <= g < k && dayLabel(pre[g].createdAt) == ls0[q];
        assert ms[g] == pre[g];
      } else {
        FirstSeenLabelsComplete(pre, dayLabel, ls[p]);
        var k' :| 0 <= k' < |pre| && dayLabel(pre[k'].createdAt) == ls[p];
        FirstSeenBefore(pre, dayLabel, q, p, k');
        var g :| 0 <= g < k' && dayLabel(pre[g].createdAt) == ls0[q];
        assert ms[g] == pre[g];
      }
    } else {
      assert ls == ls0 + [dayLabel(m.createdAt)];
      if p < |ls0| {
        assert ls[p] != dayLabel(m.createdAt);
        assert k < |pre|;
        assert pre[k] == ms[k];
        FirstSeenBefore(pre, dayLabel, q, p, k);
        var g :| 0 <= g < k && dayLabel(pre[g].createdAt) == ls0[q];
        assert ms[g] == pre[g];
      } else {
        FirstSeenLabelsComplete(pre, dayLabel, ls0[q]);
        var g :| 0 <= g < |pre| && dayLabel(pre[g].createdAt) == ls0[q];
        assert ms[g] == pre[g];
        if k < |pre| {
          assert pre[k] == ms[k];
          FirstSeenLabelsComplete(pre, dayLabel, dayLabel(m.createdAt));
          assert false;
        }
      }
    }
  }

  /** On a newest-first read, every message of a label that first appears
      later is strictly older than every message of a label that first
      appears earlier. */
  lemma LaterLabelOlder(ms: seq<Message>, dayLabel: int -> string, q: nat, p: nat, x: Message, y: Message)
    requires SortedDesc(ms)
    requires DayContiguous(dayLabel)
    requires q < p < |FirstSeenLabels(ms, dayLabel)|
    requires x in ms && dayLabel(x.createdAt) == FirstSeenLabels(ms, dayLabel)[p]
    requires y in ms && dayLabel(y.createdAt) == FirstSeenLabels(ms, dayLabel)[q]
    ensures x.createdAt < y.createdAt
  {
    var ls := FirstSeenLabels(ms, dayLabel);
    FirstSeenLabelsDistinct(ms, dayLabel);
    var kx :| 0 <= kx < |ms| && ms[kx] == x;
    FirstSeenBefore(ms, dayLabel, q, p, kx);
    var g :| 0 <= g < kx && dayLabel(ms[g].createdAt) == ls[q];
    // ms[g] is at least as new as x and shares y's day: were y no newer than
    // x, x would fall inside y's day.
    assert ms[g].createdAt >= x.createdAt;
  }

  lemma ReferenceDaysOldestFirst(ms: seq<Message>, dayLabel: int -> string, nowLabel: string,
                                 i: nat, j: nat, x: Message, y: Message)
    requires SortedDesc(ms)
    requires DayContiguous(dayLabel)
    requires i < j < |ReferenceDays(ms, dayLabel, nowLabel)|
    requires x in ReferenceDays(ms, dayLabel, nowLabel)[i].messages
    requires y in ReferenceDays(ms, dayLabel, nowLabel)[j].messages
    ensures x.createdAt < y.createdAt
  {
    var ls := FirstSeenLabels(ms, dayLabel);
    ReferenceDaysAt(ms, dayLabel, nowLabel, i);
    ReferenceDaysAt(ms, dayLabel, nowLabel, j);
    ReferenceDaysMembers(ms, dayLabel, nowLabel, i, x);
    ReferenceDaysMembers(ms, dayLabel, nowLabel, j, y);
    LaterLabelOlder(ms, dayLabel, |ls| - 1 - j, |ls| - 1 - i, x, y);
  }

  /** On a newest-first read, the buckets come oldest day first: every message
      of an earlier bucket is strictly older than every message of a later one. */
  lemma GroupByDayOldestFirst(ms: seq<Message>, dayLabel: int -> string, nowLabel: string,
                              i: nat, j: nat, x: Message, y: Message)
    requires SortedDesc(ms)
    requires DayContiguous(dayLabel)
    requires i < j < |GroupByDay(ms, dayLabel, nowLabel)|
    requires x in GroupByDay(ms, dayLabel, nowLabel)[i].messages
    requires y in GroupByDay(ms, dayLabel, nowLabel)[j].messages
    ensures x.createdAt < y.createdAt
  {
    GroupByDayIsReference(ms, dayLabel, nowLabel);
    ReferenceDaysOldestFirst(ms, dayLabel, nowLabel, i, j, x, y);
  }
}
