/** The conversation list of src/hooks/useConversations.ts. Each callback replaces the list;
    whether the database call failed is a parameter. */
module Conversations {
  import opened Text
  import IdFilter

  datatype Conversation = Conversation(id: string, title: string, createdAt: string,
                                       updatedAt: string, moduleId: Option<string>)

  /** The id of a conversation, the key `prev.filter(c => c.id !== id)` removes by. */
  function ConversationId(c: Conversation): string {
    c.id
  }

  /** `prev.map(c => c.id === id ? { ...c, title } : c)`. */
  function Retitled(cs: seq<Conversation>, id: string, title: string): (r: seq<Conversation>)
    ensures |r| == |cs|
    ensures forall k :: 0 <= k < |cs| ==>
              r[k] == (if cs[k].id == id then cs[k].(title := title) else cs[k])
  {
    seq(|cs|, k requires 0 <= k < |cs| => if cs[k].id == id then cs[k].(title := title) else cs[k])
  }

  /** A title change touches nothing but the title: ids, timestamps and module of every
      conversation stay, and the conversations with another id are unchanged. */
  lemma RetitledKeepsRest(cs: seq<Conversation>, id: string, title: string, k: nat)
    requires k < |cs|
    ensures Retitled(cs, id, title)[k].id == cs[k].id
    ensures Retitled(cs, id, title)[k].(title := cs[k].title) == cs[k]
    ensures cs[k].id != id ==> Retitled(cs, id, title)[k] == cs[k]
    ensures cs[k].id == id ==> Retitled(cs, id, title)[k].title == title
  {
  }

  /** Retitling twice with the same title is retitling once. */
  lemma RetitledIdempotent(cs: seq<Conversation>, id: string, title: string)
    ensures Retitled(Retitled(cs, id, title), id, title) == Retitled(cs, id, title)
  {
  }

  class ConversationList {
    var conversations: seq<Conversation>

    constructor()
      ensures conversations == []
    {
      conversations := [];
    }

    /** `fetchConversations`: without a user, or when the query fails, the list stays; otherwise
        it becomes the rows read (null data counts as no rows). */
    method Fetch(user: Option<string>, rows: Option<Option<seq<Conversation>>>)
      modifies this
      ensures user.None? || rows.None? ==> conversations == old(conversations)
      ensures user.Some? && rows.Some? ==>
                conversations == (if rows.value.Some? then rows.value.value else [])
    {
      if user.None? {
        return;
      }
      if rows.None? {
        return;
      }
      conversations := if rows.value.Some? then rows.value.value else [];
    }

    /** `deleteConversation`: on success every conversation with the id is removed and the
        answer is true; on failure the list stays and the answer is false. */
    method DeleteConversation(id: string, failed: bool) returns (success: bool)
      modifies this
      ensures success == !failed
      ensures conversations == (if failed then old(conversations)
                                else IdFilter.Without(old(conversations), ConversationId, id))
    {
      if failed {
        return false;
      }
      conversations := IdFilter.Without(conversations, ConversationId, id);
      return true;
    }

    /** `updateConversationTitle`: on success the conversations with the id get the title and
        the answer is true; on failure the list stays and the answer is false. */
    method UpdateConversationTitle(id: string, title: string, failed: bool) returns (success: bool)
      modifies this
      ensures success == !failed
      ensures conversations == (if failed then old(conversations) else Retitled(old(conversations), id, title))
    {
      if failed {
        return false;
      }
      conversations := Retitled(conversations, id, title);
      return true;
    }
  }
}
