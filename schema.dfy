/** The small resolvers of the GraphQL schema: message-type and platform
    names, picture references, the chat's receiver (title and picture), the
    first-row-or-null lookups and the shape of the contacts selector. The
    message-list resolver is in `ChatMessages`. */
module Schema {
  import opened Models

  // ---------------------------------------------------------------------
  // Case mapping (`toLowerCase` / `toUpperCase` on ASCII letters)
  // ---------------------------------------------------------------------

  function LowerChar(c: char): char {
    if 'A' <= c <= 'Z' then (c as int + 32) as char else c
  }

  function UpperChar(c: char): char {
    if 'a' <= c <= 'z' then (c as int - 32) as char else c
  }

  /** `s.toLowerCase()`: upper-case ASCII letters lowered, all else kept. */
  function ToLower(s: string): (r: string)
    ensures |r| == |s|
    ensures forall k :: 0 <= k < |s| ==> !('A' <= r[k] <= 'Z')
    ensures forall k :: 0 <= k < |s| ==> UpperChar(r[k]) == UpperChar(s[k])
  {
    if s == [] then [] else [LowerChar(s[0])] + ToLower(s[1..])
  }

  /** `s.toUpperCase()`: lower-case ASCII letters raised, all else kept. */
  function ToUpper(s: string): (r: string)
    ensures |r| == |s|
    ensures forall k :: 0 <= k < |s| ==> !('a' <= r[k] <= 'z')
    ensures forall k :: 0 <= k < |s| ==> LowerChar(r[k]) == LowerChar(s[k])
  {
    if s == [] then [] else [UpperChar(s[0])] + ToUpper(s[1..])
  }

  /** No lower-case ASCII letter, as in every GraphQL enum value name here. */
  predicate NoLower(s: string) {
    forall k :: 0 <= k < |s| ==> !('a' <= s[k] <= 'z')
  }

  /** Raising a lowered name gives the name back when it had no lower-case
      letter. */
  lemma {:induction false} UpperOfLower(s: string)
    requires NoLower(s)
    ensures ToUpper(ToLower(s)) == s
  {
    if s != [] {
      assert NoLower(s[1..]) by {
        forall k | 0 <= k < |s[1..]| ensures !('a' <= s[1..][k] <= 'z') {
          assert s[1..][k] == s[k + 1];
        }
      }
      UpperOfLower(s[1..]);
    }
  }

  // ---------------------------------------------------------------------
  // Message types
  // ---------------------------------------------------------------------

  /** The GraphQL enum name of a type, as declared by `enum MessageType` and
      as the client's `addMessage` switch spells it out. It lives here, beside
      `ParseTypeName` and the case mapping of `addMessage` and `Message.type`,
      because the round-trip lemmas below are stated over it. The switch's
      `default: throw` branch has no counterpart, because a `MessageType` is
      always one of the three cases. */
  function TypeName(t: MessageType): (r: string)
    ensures r != [] && NoLower(r)
  {
    match t
    case Text => "TEXT"
    case Location => "LOCATION"
    case Picture => "PICTURE"
  }

  /** GraphQL's coercion of an enum name to a `MessageType`. */
  function ParseTypeName(s: string): (r: Option<MessageType>)
    ensures r.Some? ==> TypeName(r.value) == s
  {
    if s == "TEXT" then Some(Text)
    else if s == "LOCATION" then Some(Location)
    else if s == "PICTURE" then Some(Picture)
    else None
  }

  lemma ParseTypeNameInverse(t: MessageType)
    ensures ParseTypeName(TypeName(t)) == Some(t)
  {
  }

  /** `Mutation.addMessage` stores `args.type.toLowerCase()`. */
  function StoredType(name: string): (r: string)
    ensures |r| == |name|
    ensures forall k :: 0 <= k < |r| ==> !('A' <= r[k] <= 'Z')
    ensures forall k :: 0 <= k < |r| ==> UpperChar(r[k]) == UpperChar(name[k])
  {
    ToLower(name)
  }

  /** `Message.type` answers `root.type.toUpperCase()`. */
  function ReadType(stored: string): (r: string)
    ensures |r| == |stored|
    ensures NoLower(r)
    ensures forall k :: 0 <= k < |r| ==> LowerChar(r[k]) == LowerChar(stored[k])
  {
    ToUpper(stored)
  }

  /** A type written through `addMessage` reads back as the same enum value. */
  lemma TypeRoundTrip(t: MessageType)
    ensures ReadType(StoredType(TypeName(t))) == TypeName(t)
    ensures ParseTypeName(ReadType(StoredType(TypeName(t)))) == Some(t)
  {
    UpperOfLower(TypeName(t));
  }

  /** Distinct types are stored under distinct names. */
  lemma StoredTypeInjective(t1: MessageType, t2: MessageType)
    requires StoredType(TypeName(t1)) == StoredType(TypeName(t2))
    ensures t1 == t2
  {
  }

  // ---------------------------------------------------------------------
  // Pictures
  // ---------------------------------------------------------------------

  /** The GraphQL enum `PlatformType`. */
  datatype Platform = Web | Android | Ios

  function PlatformName(p: Platform): (r: string)
    ensures r != [] && NoLower(r)
  {
    match p
    case Web => "WEB"
    case Android => "ANDROID"
    case Ios => "IOS"
  }

  /** The suffix `Picture.url` hands to the picture store: empty for an absent
      platform or `WEB`, otherwise the lower-cased platform name. */
  function PlatformSuffix(platform: Option<Platform>): (r: string)
    ensures r == "" <==> platform.None? || platform == Some(Web)
    ensures platform.Some? && platform.value != Web ==> ToUpper(r) == PlatformName(platform.value)
    ensures forall k :: 0 <= k < |r| ==> !('A' <= r[k] <= 'Z')
  {
    if platform.None? || platform.value == Web then ""
    else
      UpperOfLower(PlatformName(platform.value));
      ToLower(PlatformName(platform.value))
  }

  /** The two native platforms get different suffixes. */
  lemma PlatformSuffixDistinct(p: Platform, q: Platform)
    requires p != Web && q != Web && p != q
    ensures PlatformSuffix(Some(p)) != PlatformSuffix(Some(q))
  {
  }

  /** A user's `profile`; `None` is a field that is not set. */
  datatype Profile = Profile(name: Option<string>, pictureId: Option<string>)

  /** A `{ _id }` picture reference; `None` is `_id: null`. */
  datatype PictureRef = PictureRef(id: Option<string>)

  /** `User.picture`: the profile's picture, or `{ _id: null }` when the
      profile has no (or an empty) `pictureId`. */
  function UserPicture(profile: Profile): (r: PictureRef)
    ensures r.id.Some? <==> Truthy(profile.pictureId)
    ensures r.id.Some? ==> r.id == profile.pictureId && r.id.value != ""
  {
    if !Truthy(profile.pictureId) then PictureRef(None) else PictureRef(profile.pictureId)
  }

  // ---------------------------------------------------------------------
  // The receiver of a chat
  // ---------------------------------------------------------------------

  /** `memberIds.find((memberId) => memberId !== userId)`: the first member
      other than the current user (any member when nobody is signed in). */
  function FirstReceiver(memberIds: seq<string>, userId: Option<string>): (r: Option<nat>)
    ensures r.Some? ==> r.value < |memberIds| && Some(memberIds[r.value]) != userId &&
                        forall j :: 0 <= j < r.value ==> Some(memberIds[j]) == userId
    ensures r.None? ==> forall j :: 0 <= j < |memberIds| ==> Some(memberIds[j]) == userId
  {
    if memberIds == [] then None
    else if Some(memberIds[0]) != userId then Some(0)
    else match FirstReceiver(memberIds[1..], userId)
         case None => None
         case Some(k) => Some(k + 1)
  }

  /** `Users.findOne(receiverId)`: the receiver's profile, absent when there
      is no receiver or no such user. */
  function Receiver(memberIds: seq<string>, userId: Option<string>, users: map<string, Profile>): (r: Option<Profile>)
    ensures r.Some? <==> FirstReceiver(memberIds, userId).Some? &&
                         memberIds[FirstReceiver(memberIds, userId).value] in users
    ensures r.Some? ==> r.value == users[memberIds[FirstReceiver(memberIds, userId).value]]
  {
    match FirstReceiver(memberIds, userId)
    case None => None
    case Some(i) => if memberIds[i] in users then Some(users[memberIds[i]]) else None
  }

  /** `Chat.title`: the receiver's name, or `''` when there is no receiver
      or the receiver has no name. */
  function Title(memberIds: seq<string>, userId: Option<string>, users: map<string, Profile>): (r: string)
    ensures r != "" <==> Receiver(memberIds, userId, users).Some? &&
                         Truthy(Receiver(memberIds, userId, users).value.name)
    ensures r != "" ==> Some(r) == Receiver(memberIds, userId, users).value.name
  {
    var receiver := Receiver(memberIds, userId, users);
    if receiver.Some? && Truthy(receiver.value.name) then receiver.value.name.value else ""
  }

  /** `Chat.picture`: the receiver's picture, or `{ _id: null }` when there is
      no receiver or it has no picture. */
  function ChatPicture(memberIds: seq<string>, userId: Option<string>, users: map<string, Profile>): (r: PictureRef)
    ensures r.id.Some? <==> Receiver(memberIds, userId, users).Some? &&
                            Truthy(Receiver(memberIds, userId, users).value.pictureId)
  {
    var receiver := Receiver(memberIds, userId, users);
    if receiver.None? || !Truthy(receiver.value.pictureId) then PictureRef(None)
    else PictureRef(receiver.value.pictureId)
  }

  /** A chat shows its receiver's user picture, and `{ _id: null }` without a
      receiver. */
  lemma ChatPictureIsReceiverPicture(memberIds: seq<string>, userId: Option<string>, users: map<string, Profile>)
    ensures Receiver(memberIds, userId, users).Some? ==>
              ChatPicture(memberIds, userId, users) == UserPicture(Receiver(memberIds, userId, users).value)
    ensures Receiver(memberIds, userId, users).None? ==>
              ChatPicture(memberIds, userId, users) == PictureRef(None)
  {
  }

  /** In a two-member chat each member sees the other one's name. */
  lemma TitleNamesOtherMember(a: string, b: string, users: map<string, Profile>)
    requires a != b && b in users && Truthy(users[b].name)
    ensures Title([a, b], Some(a), users) == users[b].name.value
    ensures Title([b, a], Some(a), users) == users[b].name.value
  {
    assert FirstReceiver([a, b], Some(a)) == Some(1);
    assert FirstReceiver([b, a], Some(a)) == Some(0);
  }

  // ---------------------------------------------------------------------
  // First row or null
  // ---------------------------------------------------------------------

  /** `v.length ? v[0] : null`. */
  function FirstOrNull<T>(rows: seq<T>): (r: Option<T>)
    ensures r.None? <==> |rows| == 0
    ensures r.Some? ==> r.value == rows[0]
  {
    if |rows| == 0 then None else Some(rows[0])
  }

  /** `Chat.lastMessage`: the single row of a newest-first read limited to one. */
  function LastMessage(newestFirst: seq<Message>): (r: Option<Message>)
    ensures r.None? <==> newestFirst == []
  {
    FirstOrNull(if |newestFirst| == 0 then [] else newestFirst[..1])
  }

  /** On a newest-first read, `lastMessage` is a newest message of the chat. */
  lemma LastMessageIsNewest(newestFirst: seq<Message>)
    requires SortedDesc(newestFirst)
    ensures LastMessage(newestFirst).Some? ==>
              LastMessage(newestFirst).value in newestFirst &&
              forall m :: m in newestFirst ==> m.createdAt <= LastMessage(newestFirst).value.createdAt
  {
  }

  /** A stored chat. */
  datatype Chat = Chat(id: string, memberIds: seq<string>)

  /** The chats a `{ _id, memberIds: userId }` selector matches, in store order. */
  function Matching(chats: seq<Chat>, chatId: string, userId: string): (r: seq<Chat>)
    ensures forall c :: c in r <==> c in chats && c.id == chatId && userId in c.memberIds
  {
    if chats == [] then []
    else
      var rest := Matching(chats[1..], chatId, userId);
      if chats[0].id == chatId && userId in chats[0].memberIds then [chats[0]] + rest else rest
  }

  /** `Query.chat`: null for a signed-out caller; otherwise the first chat with
      that id of which the caller is a member, or null. */
  function ChatQuery(chats: seq<Chat>, chatId: string, userId: Option<string>): (r: Option<Chat>)
    ensures !Truthy(userId) ==> r.None?
    ensures r.Some? ==> r.value in chats && r.value.id == chatId && userId.value in r.value.memberIds
    ensures Truthy(userId) && r.None? ==>
              forall c :: c in chats && c.id == chatId ==> userId.value !in c.memberIds
  {
    if !Truthy(userId) then None
    else
      var rows := Matching(chats, chatId, userId.value);
      FirstOrNull(if |rows| == 0 then [] else rows[..1])
  }

  // ---------------------------------------------------------------------
  // Contacts
  // ---------------------------------------------------------------------

  /** The selector `contacts` hands to `Users.find`: an optional
      case-insensitive name pattern and the `$or` of phone numbers and
      Facebook ids. */
  datatype Selector = Selector(namePattern: Option<string>, phoneNumbers: seq<string>, facebookIds: seq<string>)

  /** The selector with its options (`fields: { profile: 1 }`, `limit`). */
  datatype ContactsQuery = ContactsQuery(selector: Selector, limit: nat)

  const ContactsLimit: nat := 15

  /** `Query.contacts`: no query for a signed-out caller (the resolver
      answers `[]`); otherwise a selector over the caller's phone book
      (`[]` when absent) and, for a Facebook account, its friends' ids,
      narrowed by the name pattern when one is given. The friends' ids come
      from the Facebook service and are a parameter here. */
  function Contacts(userId: Option<string>, searchPattern: Option<string>, phoneBook: Option<seq<string>>,
                    hasFacebook: bool, friendIds: seq<string>): (r: Option<ContactsQuery>)
    ensures r.None? <==> !Truthy(userId)
    ensures r.Some? ==> r.value.limit == ContactsLimit
    ensures r.Some? ==> (r.value.selector.namePattern.Some? <==> Truthy(searchPattern))
    ensures r.Some? && r.value.selector.namePattern.Some? ==> r.value.selector.namePattern == searchPattern
    ensures r.Some? ==> r.value.selector.phoneNumbers == (if phoneBook.Some? then phoneBook.value else [])
    ensures r.Some? ==> r.value.selector.facebookIds == (if hasFacebook then friendIds else [])
  {
    if !Truthy(userId) then None
    else
      var contacts := if phoneBook.Some? then phoneBook.value else [];
      var facebookFriendsIds := if hasFacebook then friendIds else [];
      var pattern := if Truthy(searchPattern) then searchPattern else None;
      Some(ContactsQuery(Selector(pattern, contacts, facebookFriendsIds), ContactsLimit))
  }

  /** A user document as the selector sees it. */
  datatype Candidate = Candidate(name: Option<string>, phone: Option<string>, facebookId: Option<string>)

  /** Whether a selector matches a user; the regex test is a parameter. */
  predicate Matches(s: Selector, u: Candidate, nameMatches: (string, string) -> bool) {
    (s.namePattern.None? || (u.name.Some? && nameMatches(s.namePattern.value, u.name.value))) &&
    ((u.phone.Some? && u.phone.value in s.phoneNumbers) ||
     (u.facebookId.Some? && u.facebookId.value in s.facebookIds))
  }

  /** A search pattern only narrows the contacts: whoever the patterned
      selector matches, the selector without a pattern matches too, and the
      two selectors differ in nothing else. */
  lemma PatternNarrows(userId: Option<string>, pattern: Option<string>, phoneBook: Option<seq<string>>,
                       hasFacebook: bool, friendIds: seq<string>, u: Candidate, nameMatches: (string, string) -> bool)
    requires Truthy(userId)
    ensures Contacts(userId, pattern, phoneBook, hasFacebook, friendIds).value.selector.(namePattern := None) ==
            Contacts(userId, None, phoneBook, hasFacebook, friendIds).value.selector
    ensures Matches(Contacts(userId, pattern, phoneBook, hasFacebook, friendIds).value.selector, u, nameMatches) ==>
            Matches(Contacts(userId, None, phoneBook, hasFacebook, friendIds).value.selector, u, nameMatches)
  {
  }
}
