/** The messages page's merge reducer, run step by step the way the page
    runs it: nested loops that push onto the working timeline and overwrite a
    bucket's `today` flag, with the reducer's accumulator held in the fields of
    `DayGroups`. Each method is proved against the functions of `Timeline`. */
module MessagesPage {
  import opened Models
  import opened Timeline

  /** `_.find(msgs, (histDay) => histDay.timestamp === timestamp)`, scanning
      from the front; `found` is false when `_.find` yields `undefined`. */
  method FindDayIndex(tl: seq<Day>, timestamp: string) returns (found: bool, index: nat)
    ensures found <==> FindDay(tl, timestamp).Some?
    ensures found ==> FindDay(tl, timestamp) == Some(index) && index < |tl|
  {
    index := 0;
    while index < |tl|
      invariant index <= |tl|
      invariant forall j :: 0 <= j < index ==> tl[j].timestamp != timestamp
    {
      if tl[index].timestamp == timestamp {
        FindDayFirst(tl, timestamp, index);
        return true, index;
      }
      index := index + 1;
    }
    found := false;
  }

  /** `_.find(day.messages, (histMsg) => histMsg._id === id)` used as a test. */
  method ContainsId(ms: seq<Message>, id: string) returns (present: bool)
    ensures present <==> HasId(ms, id)
  {
    var k := 0;
    while k < |ms|
      invariant k <= |ms|
      invariant forall j :: 0 <= j < k ==> ms[j].id != id
    {
      if ms[k].id == id {
        return true;
      }
      k := k + 1;
    }
    present := false;
  }

  /** The inner `forEach`: push every incoming message whose `_id` the bucket
      does not hold yet. */
  method MergeMessages(bucket: seq<Message>, incoming: seq<Message>) returns (merged: seq<Message>)
    ensures merged == AppendMissing(bucket, incoming)
    ensures merged == bucket + Unseen(bucket, incoming)
  {
    merged := bucket;
    var k := 0;
    while k < |incoming|
      invariant k <= |incoming|
      invariant merged == AppendMissing(bucket, incoming[..k])
    {
      var msg := incoming[k];
      var hasMsg := ContainsId(merged, msg.id);
      if !hasMsg {
        merged := merged + [msg];
      }
      assert incoming[..k + 1][..k] == incoming[..k];
      k := k + 1;
    }
    assert incoming[..k] == incoming;
    AppendMissingIsUnseen(bucket, incoming);
  }

  /** The stream of day groups the page renders: the `scan` accumulator. */
  class DayGroups {
    var historyTaken: bool
    var messages: seq<Day>

    /** The accumulator as a value. */
    ghost function State(): MergeState
      reads this
    {
      MergeState(historyTaken, messages)
    }

    /** The `scan` seed `{ historyTaken: false, messages: [] }`. */
    constructor ()
      ensures State() == Initial
    {
      historyTaken := false;
      messages := [];
    }

    /** One `scan` step on a combined-latest pair; `output` is what
        `.map((v) => v.messages)` emits for it. */
    method Step(live: Option<seq<Day>>, hist: Option<seq<Day>>) returns (output: seq<Day>)
      modifies this
      ensures State() == Reduce(old(State()), live, hist)
      ensures output == messages
    {
      if live.None? {
        output := messages;
        return;
      }
      if hist.None? {
        historyTaken, messages := false, live.value;
        output := messages;
        return;
      }
      var msgs := if historyTaken then messages else CopyTimeline(hist.value);
      ghost var start := msgs;
      var days := live.value;
      var i := 0;
      while i < |days|
        invariant i <= |days|
        invariant msgs == MergeLive(start, days[..i])
      {
        var msgByDay := days[i];
        var found, j := FindDayIndex(msgs, msgByDay.timestamp);
        if !found {
          msgs := msgs + [CopyDay(msgByDay)];
        } else {
          var dayMessages := MergeMessages(msgs[j].messages, msgByDay.messages);
          msgs := msgs[j := Day(msgs[j].timestamp, dayMessages, msgByDay.today)];
        }
        assert days[..i + 1][..i] == days[..i];
        i := i + 1;
      }
      assert days[..i] == days;
      historyTaken, messages := true, msgs;
      output := messages;
    }

    /** The `scan` over a run of combined-latest pairs: one emission per pair. */
    method Feed(pairs: seq<(Option<seq<Day>>, Option<seq<Day>>)>) returns (outputs: seq<seq<Day>>)
      modifies this
      ensures State() == Run(old(State()), pairs)
      ensures |outputs| == |pairs|
      ensures forall k :: 0 <= k < |pairs| ==> outputs[k] == Run(old(State()), pairs[..k + 1]).messages
    {
      outputs := [];
      var k := 0;
      while k < |pairs|
        invariant k <= |pairs|
        invariant State() == Run(old(State()), pairs[..k])
        invariant |outputs| == k
        invariant forall i :: 0 <= i < k ==> outputs[i] == Run(old(State()), pairs[..i + 1]).messages
      {
        var out := Step(pairs[k].0, pairs[k].1);
        assert pairs[..k + 1][..k] == pairs[..k];
        outputs := outputs + [out];
        k := k + 1;
      }
      assert pairs[..k] == pairs;
    }
  }
}
