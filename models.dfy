/** Shared data model of the chat app: messages, day buckets and the
    small sequence helpers both the server resolvers and the client merge
    reducer use. */
module Models {

  /** A value that may be absent (GraphQL `null` / JavaScript `undefined`). */
  datatype Option<+T> = None | Some(value: T)

  /** JavaScript truthiness of an optional string: absent and `''` are falsy. */
  predicate Truthy(s: Option<string>) {
    s.Some? && s.value != ""
  }

  /** The GraphQL enum `MessageType`. */
  datatype MessageType = Text | Location | Picture

  /** A stored message. `createdAt` is the creation instant in milliseconds;
      `id` is the store-assigned, immutable `_id` used as the dedup key. */
  datatype Message = Message(
    id: string,
    chatId: string,
    senderId: string,
    content: string,
    createdAt: int,
    kind: MessageType)

  /** A `MessageByDay` bucket: a day label, the messages of that day and
      whether the label is the label of "now". */
  datatype Day = Day(timestamp: string, messages: seq<Message>, today: bool)

  /** Some message of `ms` carries identifier `id`. */
  predicate HasId(ms: seq<Message>, id: string) {
    exists i :: 0 <= i < |ms| && ms[i].id == id
  }

  lemma HasIdConcat(a: seq<Message>, b: seq<Message>, id: string)
    ensures HasId(a + b, id) <==> HasId(a, id) || HasId(b, id)
  {
    if HasId(a, id) {
      var i :| 0 <= i < |a| && a[i].id == id;
      assert (a + b)[i] == a[i];
    }
    if HasId(b, id) {
      var i :| 0 <= i < |b| && b[i].id == id;
      assert (a + b)[|a| + i] == b[i];
    }
    if HasId(a + b, id) {
      var i :| 0 <= i < |a + b| && (a + b)[i].id == id;
      if i >= |a| {
        assert b[i - |a|] == (a + b)[i];
      } else {
        assert a[i] == (a + b)[i];
      }
    }
  }

  /** Newest first, as the store's `sort: { createdAt: -1 }` returns them. */
  predicate SortedDesc(ms: seq<Message>) {
    forall a, b :: 0 <= a < b < |ms| ==> ms[a].createdAt >= ms[b].createdAt
  }

  /** Oldest first, the order a bucket lists its messages in. */
  predicate SortedAsc(ms: seq<Message>) {
    forall a, b :: 0 <= a < b < |ms| ==> ms[a].createdAt <= ms[b].createdAt
  }

  /** No two messages of `ms` share an identifier. */
  predicate UniqueIds(ms: seq<Message>) {
    forall i, j :: 0 <= i < j < |ms| ==> ms[i].id != ms[j].id
  }

  /** No two buckets of `days` share a label. */
  predicate DistinctLabels(days: seq<Day>) {
    forall i, j :: 0 <= i < j < |days| ==> days[i].timestamp != days[j].timestamp
  }

  /** `s` in the opposite order (JavaScript's `Array.prototype.reverse` on a fresh array). */
  function Reverse<T>(s: seq<T>): (r: seq<T>)
    ensures |r| == |s|
    ensures forall k :: 0 <= k < |s| ==> r[k] == s[|s| - 1 - k]
  {
    if s == [] then [] else Reverse(s[1..]) + [s[0]]
  }

  lemma ReverseMultiset<T>(s: seq<T>)
    ensures multiset(Reverse(s)) == multiset(s)
  {
    if s != [] {
      ReverseMultiset(s[1..]);
      assert s == [s[0]] + s[1..];
    }
  }

  /** All messages of a timeline, bucket after bucket. */
  function Flatten(days: seq<Day>): seq<Message> {
    if days == [] then [] else days[0].messages + Flatten(days[1..])
  }

  /** Number of messages in a timeline. */
  function TotalCount(days: seq<Day>): nat {
    if days == [] then 0 else |days[0].messages| + TotalCount(days[1..])
  }

  lemma {:induction false} FlattenLength(days: seq<Day>)
    ensures |Flatten(days)| == TotalCount(days)
  {
    if days != [] {
      FlattenLength(days[1..]);
    }
  }

  lemma {:induction false} FlattenAppend(a: seq<Day>, b: seq<Day>)
    ensures Flatten(a + b) == Flatten(a) + Flatten(b)
  {
    if a == [] {
      assert a + b == b;
    } else {
      assert (a + b)[1..] == a[1..] + b;
      FlattenAppend(a[1..], b);
    }
  }

  /** Reordering the buckets does not change which messages a timeline holds. */
  lemma {:induction false} FlattenReverseMultiset(days: seq<Day>)
    ensures multiset(Flatten(Reverse(days))) == multiset(Flatten(days))
  {
    if days != [] {
      FlattenReverseMultiset(days[1..]);
      FlattenAppend(Reverse(days[1..]), [days[0]]);
      assert Flatten([days[0]]) == days[0].messages + Flatten([]);
    }
  }
}
