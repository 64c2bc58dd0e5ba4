/** `MessagingStore`: the dedup and chat-mapping tables; each method is one atomic transaction. */
module MessagingStore {
  import opened Text

  datatype NativeKey = NativeKey(platform: string, messageId: string)

  datatype ChatKey = ChatKey(platform: string, chatId: string)

  datatype ChatRow = ChatRow(session: string, displayName: string)

  type Dedup = map<NativeKey, nat>
  type Chats = map<ChatKey, ChatRow>

  /** An insert that conflicts on the key keeps the stored session and refreshes the name. */
  function Upserted(chats: Chats, chat: ChatKey, row: ChatRow): Chats {
    chats[chat := if chat in chats then chats[chat].(displayName := row.displayName) else row]
  }

  function Claimed(dedup: Dedup, key: NativeKey, now: nat): Dedup {
    if key in dedup then dedup else dedup[key := now]
  }

  function Kept(dedup: Dedup, cutoff: nat): Dedup {
    map key | key in dedup && dedup[key] >= cutoff :: dedup[key]
  }

  class Store {
    var dedup: Dedup
    var chats: Chats

    constructor ()
      ensures dedup == map[] && chats == map[]
    {
      dedup, chats := map[], map[];
    }

    method ClaimInbound(key: NativeKey, now: nat) returns (isNew: bool)
      modifies this`dedup
      ensures isNew <==> key !in old(dedup)
      ensures dedup == Claimed(old(dedup), key, now)
      ensures dedup == if isNew then old(dedup)[key := now] else old(dedup)
    {
      if key in dedup { return false; }
      dedup := dedup[key := now];
      isNew := true;
    }

    /** Returns the number of rows deleted. */
    method PruneInboundOlderThan(cutoff: nat) returns (count: nat)
      modifies this`dedup
      ensures dedup == Kept(old(dedup), cutoff)
      ensures forall key :: key in dedup <==> key in old(dedup) && !(old(dedup)[key] < cutoff)
      ensures forall key | key in dedup :: dedup[key] == old(dedup)[key]
      ensures count == |old(dedup)| - |dedup|
    {
      var before := dedup.Keys;
      dedup := Kept(dedup, cutoff);
      assert before == dedup.Keys + (before - dedup.Keys);
      count := |before| - |dedup|;
    }

    /** Returns the row as stored, which need not hold the session that was passed. */
    method UpsertChatMapping(chat: ChatKey, session: string, displayName: string) returns (row: ChatRow)
      modifies this`chats
      ensures chats == Upserted(old(chats), chat, ChatRow(session, displayName))
      ensures row == chats[chat] && row.displayName == displayName
      ensures row.session == if chat in old(chats) then old(chats)[chat].session else session
    {
      if chat in chats {
        chats := chats[chat := chats[chat].(displayName := displayName)];
      } else {
        chats := chats[chat := ChatRow(session, displayName)];
      }
      row := chats[chat];
    }
  }

  /** No store operation ever changes the session of a stored chat. */
  lemma UpsertKeepsSessions(chats: Chats, chat: ChatKey, row: ChatRow)
    ensures forall c | c in chats :: c in Upserted(chats, chat, row)
                                     && Upserted(chats, chat, row)[c].session == chats[c].session
    ensures forall c | c in Upserted(chats, chat, row) && c !in chats :: c == chat
  {
  }
}
