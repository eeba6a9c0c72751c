/**
 * The data of one fetched batch (mentions newest-first, plus the author
 * records the platform attaches) and the pure helpers the dispatcher applies
 * to it: the id-to-handle map, the handle lookup with its fallback, the
 * reply text, and the oldest-first processing order.
 */
module Mentions {
  import opened Wrappers
  import opened Text

  /** A mention as fetched; `text` is only ever logged. */
  datatype Mention = Mention(id: nat, authorId: string, text: string)

  /** An attached author record; a missing username is the empty string. */
  datatype User = User(id: string, username: string)

  const Placeholder := "{username}"
  const DefaultHandle := "friend"
  const DefaultTemplate := "Hey @" + Placeholder + "! Thanks for reaching out \U{1F916} How can I help you?"

  /** The reply template: the configured text, or the built-in one when the setting is unset or empty. */
  function ReplyTemplate(configured: Option<string>): (r: string)
    ensures r != []
    ensures configured.Some? && configured.value != [] ==> r == configured.value
    ensures configured.None? || configured.value == [] ==> r == DefaultTemplate && OccursAt(r, Placeholder, 5)
  {
    if configured.Some? && configured.value != [] then configured.value
    else
      assert DefaultTemplate[5..5 + |Placeholder|] == Placeholder;
      DefaultTemplate
  }

  /** The author map of a batch: later records for the same id overwrite earlier ones. */
  function UserMapOf(users: seq<User>): map<string, string>
    decreases |users|
  {
    if users == [] then map[]
    else
      var last := users[|users| - 1];
      UserMapOf(users[..|users| - 1])[last.id := last.username]
  }

  /** Fills the author map in place, one record at a time. */
  method BuildUserMap(users: seq<User>) returns (userMap: map<string, string>)
    ensures userMap == UserMapOf(users)
  {
    userMap := map[];
    for i := 0 to |users|
      invariant userMap == UserMapOf(users[..i])
    {
      assert users[..i + 1][..i] == users[..i];
      userMap := userMap[users[i].id := users[i].username];
    }
    assert users[..|users|] == users;
  }

  /**
   * An id is in the author map exactly when some record carries it, and it is
   * then mapped to the username of the LAST such record.
   */
  lemma {:induction false} UserMapLastWins(users: seq<User>, id: string)
    ensures id in UserMapOf(users) <==> exists j :: 0 <= j < |users| && users[j].id == id
    ensures forall j :: 0 <= j < |users| && users[j].id == id && (forall k :: j < k < |users| ==> users[k].id != id) ==>
      id in UserMapOf(users) && UserMapOf(users)[id] == users[j].username
  {
    if users != [] {
      var init := users[..|users| - 1];
      UserMapLastWins(init, id);
      assert forall j :: 0 <= j < |init| ==> init[j] == users[j];
    }
  }

  /** The author handle of a mention: the mapped username, or "friend" when it is missing or empty. */
  function Handle(userMap: map<string, string>, authorId: string): (r: string)
    ensures r != []
    ensures r != DefaultHandle ==> authorId in userMap && r == userMap[authorId]
    ensures authorId in userMap && userMap[authorId] != [] ==> r == userMap[authorId]
  {
    if authorId in userMap && userMap[authorId] != [] then userMap[authorId] else DefaultHandle
  }

  /** The handle a batch gives an author: the username of the author's last record if it is non-empty, else "friend". */
  lemma HandleInBatch(users: seq<User>, authorId: string, j: nat)
    requires j < |users| && users[j].id == authorId
    requires forall k :: j < k < |users| ==> users[k].id != authorId
    ensures Handle(UserMapOf(users), authorId) == if users[j].username != [] then users[j].username else DefaultHandle
  {
    UserMapLastWins(users, authorId);
  }

  /** An author without any record in the batch is addressed as "friend". */
  lemma HandleOfUnknownAuthor(users: seq<User>, authorId: string)
    requires forall k :: 0 <= k < |users| ==> users[k].id != authorId
    ensures Handle(UserMapOf(users), authorId) == DefaultHandle
  {
    UserMapLastWins(users, authorId);
  }

  /** `template.replace("{username}", handle)`. */
  function ReplyText(template: string, handle: string): string {
    ReplaceFirst(template, Placeholder, handle)
  }

  /** The handle-substitution example: "Hi @{username}!" for a `$`-free handle is "Hi @" + handle + "!". */
  lemma ReplyTextExample(handle: string)
    requires '$' !in handle
    ensures ReplyText("Hi @{username}!", handle) == "Hi @" + handle + "!"
  {
    var t := "Hi @{username}!";
    ExamplePlaceholderAt4();
    ReplaceAtFirst(t, Placeholder, handle, 4);
    assert t[..4] == "Hi @" && t[14..] == "!";
  }

  /** In "Hi @{username}!" the placeholder first occurs at index 4. */
  lemma ExamplePlaceholderAt4()
    ensures IndexOfFrom("Hi @{username}!", Placeholder, 0) == Some(4)
  {
    var t := "Hi @{username}!";
    assert OccursAt(t, Placeholder, 4) by { assert t[4..14] == Placeholder; }
    forall j | 0 <= j < 4 ensures !OccursAt(t, Placeholder, j) {
      assert t[j..j + |Placeholder|][1] == t[j + 1] != Placeholder[1];
    }
    IndexOfFromFinds(t, Placeholder, 0, 4);
  }

  /** The batch in processing order: `[...mentions].reverse()`, oldest first. */
  function Reversed(mentions: seq<Mention>): (r: seq<Mention>)
    ensures |r| == |mentions|
    ensures forall i :: 0 <= i < |r| ==> r[i] == mentions[|mentions| - 1 - i]
  {
    if mentions == [] then [] else [mentions[|mentions| - 1]] + Reversed(mentions[..|mentions| - 1])
  }
}
