/**
 * The inquiry-message request handlers: send, inbox, sent, fetch one
 * (marking it read), reply, mark read and delete, over a store of threads.
 * Each handler runs its guards in the order the routes do and either fails
 * with the store untouched or performs its one update.
 */
module MessageRoutes {
  import opened Maybe
  import opened JsText
  import opened MessageModel
  import opened MessageQuery

  /** What a lookup did not find. */
  datatype Missing = DiamondListing | ReceiverUser | Thread

  /** The error responses: 400 validation, 404 not found, 403 access denied,
      400 invalid recipient, and 500 for a save the schema rejects. */
  datatype Error = Validation | NotFound(what: Missing) | AccessDenied | InvalidRecipient | Internal

  datatype Outcome<T> = Ok(value: T) | Err(error: Error)

  /** The send route's first guard: all four request fields given and not empty. */
  predicate Filled(receiverId: UserId, diamondId: DiamondId, subject: string, message: string) {
    receiverId != "" && diamondId != "" && subject != "" && message != ""
  }

  /** The thread collection. `nextId` stands for the identifier generator:
      every stored identifier was handed out before. */
  class ThreadStore {
    var threads: map<ThreadId, Message>
    var nextId: ThreadId

    ghost predicate Valid()
      reads this
    {
      forall id :: id in threads ==> id < nextId && WellFormed(threads[id])
    }

    constructor ()
      ensures Valid() && threads == map[] && nextId == 0
    {
      threads := map[];
      nextId := 0;
    }

    /** POST /send: `caller` asks about `diamondId` and writes to
        `receiverId`. `users` and `diamonds` are the identifiers the user
        directory and the diamond listings hold. */
    method Send(caller: UserId, receiverId: UserId, diamondId: DiamondId,
                subject: string, message: string,
                users: set<UserId>, diamonds: set<DiamondId>, now: Time) returns (r: Outcome<Entry>)
      requires Valid()
      modifies this
      ensures Valid()
      ensures r == Err(Validation) <==> !Filled(receiverId, diamondId, subject, message)
      ensures r == Err(NotFound(DiamondListing)) <==>
        Filled(receiverId, diamondId, subject, message) && diamondId !in diamonds
      ensures r == Err(NotFound(ReceiverUser)) <==>
        Filled(receiverId, diamondId, subject, message) && diamondId in diamonds && receiverId !in users
      ensures r == Err(InvalidRecipient) <==>
        Filled(receiverId, diamondId, subject, message) && diamondId in diamonds && receiverId in users
        && caller == receiverId
      ensures r == Err(Internal) <==>
        Filled(receiverId, diamondId, subject, message) && diamondId in diamonds && receiverId in users
        && caller != receiverId
        && !ValidRecord(NewMessage(caller, receiverId, diamondId, Trim(subject), Trim(message), now))
      ensures r.Ok? <==>
        Filled(receiverId, diamondId, subject, message) && diamondId in diamonds && receiverId in users
        && caller != receiverId
        && ValidRecord(NewMessage(caller, receiverId, diamondId, Trim(subject), Trim(message), now))
      ensures r.Err? ==> threads == old(threads) && nextId == old(nextId)
      ensures r.Ok? ==>
        && r.value.id == old(nextId) && r.value.id !in old(threads)
        && r.value.thread == NewMessage(caller, receiverId, diamondId, Trim(subject), Trim(message), now)
        && threads == old(threads)[r.value.id := r.value.thread]
        && |threads| == |old(threads)| + 1
        && nextId == old(nextId) + 1
    {
      if receiverId == "" || diamondId == "" || subject == "" || message == "" {
        return Err(Validation);
      }
      if diamondId !in diamonds {
        return Err(NotFound(DiamondListing));
      }
      if receiverId !in users {
        return Err(NotFound(ReceiverUser));
      }
      if caller == receiverId {
        return Err(InvalidRecipient);
      }
      var record := NewMessage(caller, receiverId, diamondId, Trim(subject), Trim(message), now);
      if !ValidRecord(record) {
        return Err(Internal);
      }
      var id := nextId;
      threads := threads[id := record];
      nextId := nextId + 1;
      r := Ok(Entry(id, record));
    }

    /** GET /inbox: the threads addressed to `caller`, only the unread ones
        when `unreadOnly` is the string "true", newest first, one page of
        them; `unreadCount` counts every unread thread addressed to
        `caller`, whatever the filter and the page. */
    method Inbox(caller: UserId, page: Option<nat>, limit: Option<nat>, unreadOnly: string)
      returns (r: ListPage)
      requires page != Some(0) && limit != Some(0)
      ensures forall k :: 0 <= k < |r.messages| ==>
        && r.messages[k].id in threads
        && r.messages[k].thread == threads[r.messages[k].id]
        && r.messages[k].thread.receiver == caller
        && (unreadOnly == "true" ==> !r.messages[k].thread.isRead)
      ensures NewestFirst(threads, IdsOf(r.messages))
      ensures IdsOf(r.messages) ==
        PageOf(Ordered(threads, InboxIds(threads, caller, unreadOnly == "true")),
               page.GetOr(DefaultPage), limit.GetOr(DefaultLimit))
      ensures r.currentPage == page.GetOr(DefaultPage)
      ensures r.totalItems == |InboxIds(threads, caller, unreadOnly == "true")|
      ensures r.totalPages == TotalPages(r.totalItems, limit.GetOr(DefaultLimit))
      ensures r.unreadCount == Some(|InboxIds(threads, caller, true)|)
    {
      var p, l := page.GetOr(DefaultPage), limit.GetOr(DefaultLimit);
      var ids := InboxIds(threads, caller, unreadOnly == "true");
      var unread := InboxIds(threads, caller, true);
      r := Listing(threads, ids, p, l, Some(|unread|));
      forall k | 0 <= k < |r.messages|
        ensures r.messages[k].thread.receiver == caller
        ensures unreadOnly == "true" ==> !r.messages[k].thread.isRead
      {
        var id := r.messages[k].id;
        assert id in ids && r.messages[k].thread == threads[id];
      }
    }

    /** GET /sent: the threads `caller` wrote, newest first, one page of them. */
    method Sent(caller: UserId, page: Option<nat>, limit: Option<nat>) returns (r: ListPage)
      requires page != Some(0) && limit != Some(0)
      ensures forall k :: 0 <= k < |r.messages| ==>
        && r.messages[k].id in threads
        && r.messages[k].thread == threads[r.messages[k].id]
        && r.messages[k].thread.sender == caller
      ensures NewestFirst(threads, IdsOf(r.messages))
      ensures IdsOf(r.messages) ==
        PageOf(Ordered(threads, SentIds(threads, caller)), page.GetOr(DefaultPage), limit.GetOr(DefaultLimit))
      ensures r.currentPage == page.GetOr(DefaultPage)
      ensures r.totalItems == |SentIds(threads, caller)|
      ensures r.totalPages == TotalPages(r.totalItems, limit.GetOr(DefaultLimit))
      ensures r.unreadCount == None
    {
      var p, l := page.GetOr(DefaultPage), limit.GetOr(DefaultLimit);
      var ids := SentIds(threads, caller);
      r := Listing(threads, ids, p, l, None);
      forall k | 0 <= k < |r.messages| ensures r.messages[k].thread.sender == caller {
        var id := r.messages[k].id;
        assert id in ids && r.messages[k].thread == threads[id];
      }
    }

    /** GET /:id: the thread in full, for its two participants only; when
        the receiver opens an unread thread it becomes read. */
    method Get(id: ThreadId, caller: UserId, now: Time) returns (r: Outcome<Message>)
      requires Valid()
      modifies this`threads
      ensures Valid()
      ensures r == Err(NotFound(Thread)) <==> id !in old(threads)
      ensures r == Err(AccessDenied) <==> id in old(threads) && !IsParticipant(old(threads)[id], caller)
      ensures r.Ok? <==> id in old(threads) && IsParticipant(old(threads)[id], caller)
      ensures r.Err? ==> threads == old(threads)
      ensures r.Ok? ==> id in threads && r.value == threads[id]
      ensures r.Ok? ==> threads == old(threads)[id :=
        if caller == old(threads)[id].receiver && !old(threads)[id].isRead
        then MarkAsRead(old(threads)[id], now) else old(threads)[id]]
      ensures r.Ok? ==> threads[id].isRead == (old(threads)[id].isRead || caller == old(threads)[id].receiver)
      ensures r.Ok? && caller != old(threads)[id].receiver ==> threads == old(threads)
    {
      if id !in threads {
        return Err(NotFound(Thread));
      }
      var m := threads[id];
      if m.sender != caller && m.receiver != caller {
        return Err(AccessDenied);
      }
      if m.receiver == caller && !m.isRead {
        MarkAsReadWellFormed(m, now);
        m := MarkAsRead(m, now);
        threads := threads[id := m];
      }
      r := Ok(m);
    }

    /** POST /:id/reply: a participant appends a reply to the thread. */
    method Reply(id: ThreadId, caller: UserId, message: string, now: Time) returns (r: Outcome<Message>)
      requires Valid()
      modifies this`threads
      ensures Valid()
      ensures r == Err(Validation) <==> Trim(message) == ""
      ensures r == Err(NotFound(Thread)) <==> Trim(message) != "" && id !in old(threads)
      ensures r == Err(AccessDenied) <==>
        Trim(message) != "" && id in old(threads) && !IsParticipant(old(threads)[id], caller)
      ensures r == Err(Internal) <==>
        Trim(message) != "" && id in old(threads) && IsParticipant(old(threads)[id], caller)
        && |Trim(message)| > MaxReplyLength
      ensures r.Ok? <==>
        Trim(message) != "" && id in old(threads) && IsParticipant(old(threads)[id], caller)
        && |Trim(message)| <= MaxReplyLength
      ensures r.Err? ==> threads == old(threads)
      ensures r.Ok? ==>
        && id in old(threads)
        && threads == old(threads)[id := AppendReply(old(threads)[id], caller, Trim(message), now)]
        && r.value == threads[id]
    {
      if message == "" || Trim(message) == "" {
        return Err(Validation);
      }
      if id !in threads {
        return Err(NotFound(Thread));
      }
      var m := threads[id];
      if m.sender != caller && m.receiver != caller {
        return Err(AccessDenied);
      }
      var updated := AppendReply(m, caller, Trim(message), now);
      if !ValidRecord(updated) {
        return Err(Internal);
      }
      AppendReplyWellFormed(m, caller, Trim(message), now);
      threads := threads[id := updated];
      r := Ok(updated);
    }

    /** PUT /:id/read: the receiver, and only the receiver, marks the thread
        read; doing it again re-stamps `readAt`. */
    method MarkRead(id: ThreadId, caller: UserId, now: Time) returns (r: Outcome<()>)
      requires Valid()
      modifies this`threads
      ensures Valid()
      ensures r == Err(NotFound(Thread)) <==> id !in old(threads)
      ensures r == Err(AccessDenied) <==> id in old(threads) && old(threads)[id].receiver != caller
      ensures r.Ok? <==> id in old(threads) && old(threads)[id].receiver == caller
      ensures r.Err? ==> threads == old(threads)
      ensures r.Ok? ==> id in old(threads) && threads == old(threads)[id := MarkAsRead(old(threads)[id], now)]
    {
      if id !in threads {
        return Err(NotFound(Thread));
      }
      var m := threads[id];
      if m.receiver != caller {
        return Err(AccessDenied);
      }
      MarkAsReadWellFormed(m, now);
      threads := threads[id := MarkAsRead(m, now)];
      r := Ok(());
    }

    /** DELETE /:id: either participant removes the thread with its replies. */
    method Delete(id: ThreadId, caller: UserId) returns (r: Outcome<()>)
      requires Valid()
      modifies this`threads
      ensures Valid()
      ensures r == Err(NotFound(Thread)) <==> id !in old(threads)
      ensures r == Err(AccessDenied) <==> id in old(threads) && !IsParticipant(old(threads)[id], caller)
      ensures r.Ok? <==> id in old(threads) && IsParticipant(old(threads)[id], caller)
      ensures r.Err? ==> threads == old(threads)
      ensures r.Ok? ==> id !in threads && threads == old(threads) - {id}
    {
      if id !in threads {
        return Err(NotFound(Thread));
      }
      var m := threads[id];
      if m.sender != caller && m.receiver != caller {
        return Err(AccessDenied);
      }
      threads := threads - {id};
      r := Ok(());
    }
  }

  /** The conversation of a buyer and a seller about one diamond: an
      inquiry, the seller opening it, a reply by the buyer, and the deletion
      after which neither of them finds the thread. */
  method ExampleConversation(buyer: UserId, seller: UserId, diamond: DiamondId,
                             subject: string, body: string, answer: string)
    requires buyer != "" && seller != "" && diamond != "" && buyer != seller
    requires Trim(subject) == subject && 1 <= |subject| <= MaxSubjectLength
    requires Trim(body) == body && 1 <= |body| <= MaxMessageLength
    requires Trim(answer) == answer && 1 <= |answer| <= MaxReplyLength
  {
    var store := new ThreadStore();
    NewMessageValidIff(buyer, seller, diamond, subject, body, 10);
    assert Filled(seller, diamond, subject, body);
    assert ValidRecord(NewMessage(buyer, seller, diamond, Trim(subject), Trim(body), 10));
    var sent := store.Send(buyer, seller, diamond, subject, body, {buyer, seller}, {diamond}, 10);
    assert sent.Ok?;
    var t := sent.value.id;
    assert !store.threads[t].isRead && store.threads[t].replies == [];

    assert store.threads[t].receiver == seller;
    var viewed := store.Get(t, seller, 20);
    assert viewed.Ok? && store.threads[t].isRead && store.threads[t].readAt == Some(20);

    var answered := store.Reply(t, buyer, answer, 30);
    assert answered.Ok?;
    assert |store.threads[t].replies| == 1 && store.threads[t].replies[0] == Reply(buyer, answer, 30);
    assert store.threads[t].isRead;

    var gone := store.Delete(t, seller);
    assert gone.Ok?;
    var again := store.Get(t, buyer, 40);
    assert again == Err(NotFound(Thread));
  }
}
