/** The CRUD operations of app/db/crud on the tables of app/db/models.py.
    Each commit is one atomic step: it either applies the change or, when
    the change would break a constraint of the schema, raises
    IntegrityError and leaves the database as it was. */
module Store {
  import opened Errors
  import opened StoreSchema

  // ---------------------------------------------------------------------
  // What a constraint check looks at
  // ---------------------------------------------------------------------

  predicate EmailInUse(t: Tables, email: string)
  {
    exists c :: c in t.chats && t.chats[c].email == email
  }

  predicate ChatHasUser(t: Tables, chatId: Id)
  {
    exists u :: u in t.users && t.users[u].chatId == chatId
  }

  predicate ChatHasGroup(t: Tables, chatId: Id)
  {
    exists g :: g in t.groups && t.groups[g].chatId == chatId
  }

  /** Adding a chat under a fresh id is admitted exactly when its type
      exists and its email is not taken. */
  lemma InsertChatValidIff(t: Tables, id: Id, row: ChatRow)
    requires ValidTables(t) && id !in t.chats
    ensures ValidTables(t.(chats := t.chats[id := row])) <==> row.chatType in t.chatTypes && !EmailInUse(t, row.email)
  {
    var t' := t.(chats := t.chats[id := row]);
    if ValidTables(t') {
      assert t'.chats[id] == row;
      forall c | c in t.chats
        ensures t.chats[c].email != row.email
      {
        assert c in t'.chats && c != id && t'.chats[c] == t.chats[c];
      }
    }
  }

  /** Adding a user under a fresh id is admitted exactly when its chat
      exists and has no user yet. */
  lemma InsertUserValidIff(t: Tables, id: Id, row: UserRow)
    requires ValidTables(t) && id !in t.users
    ensures ValidTables(t.(users := t.users[id := row])) <==> row.chatId in t.chats && !ChatHasUser(t, row.chatId)
  {
    var t' := t.(users := t.users[id := row]);
    if ValidTables(t') {
      assert t'.users[id] == row;
      forall u | u in t.users
        ensures t.users[u].chatId != row.chatId
      {
        assert u in t'.users && u != id && t'.users[u] == t.users[u];
      }
    }
  }

  /** Adding a group under a fresh id is admitted exactly when its chat
      exists and has no group yet. */
  lemma InsertGroupValidIff(t: Tables, id: Id, row: GroupRow)
    requires ValidTables(t) && id !in t.groups
    ensures ValidTables(t.(groups := t.groups[id := row])) <==> row.chatId in t.chats && !ChatHasGroup(t, row.chatId)
  {
    var t' := t.(groups := t.groups[id := row]);
    if ValidTables(t') {
      assert t'.groups[id] == row;
      forall g | g in t.groups
        ensures t.groups[g].chatId != row.chatId
      {
        assert g in t'.groups && g != id && t'.groups[g] == t.groups[g];
      }
    }
  }

  /** Adding an administrator row for a user without one is admitted
      exactly when the user exists. */
  lemma InsertAdminValidIff(t: Tables, userId: Id, row: AdminRow)
    requires ValidTables(t) && userId !in t.admins
    ensures ValidTables(t.(admins := t.admins[userId := row])) <==> userId in t.users
  {
  }

  /** Adding a subscription under a fresh id is admitted exactly when its
      chat and notification type exist and the chat is not already
      subscribed to that type. */
  lemma InsertSubscriberValidIff(t: Tables, id: Id, row: SubscriberRow)
    requires ValidTables(t) && id !in t.subscribers
    ensures ValidTables(t.(subscribers := t.subscribers[id := row]))
            <==> row.chatId in t.chats && row.notificationType in t.notificationTypes
                 && FindSubscription(t, row.chatId, row.notificationType).None?
  {
    var t' := t.(subscribers := t.subscribers[id := row]);
    if ValidTables(t') {
      assert t'.subscribers[id] == row;
      forall k | k in t.subscribers
        ensures !(t.subscribers[k].chatId == row.chatId && t.subscribers[k].notificationType == row.notificationType)
      {
        assert k in t'.subscribers && k != id && t'.subscribers[k] == t.subscribers[k];
      }
    }
  }

  // ---------------------------------------------------------------------
  // Deletes and their cascades
  // ---------------------------------------------------------------------

  /** Deleting a user also deletes its administrator row. */
  function DeleteUserRows(t: Tables, userId: Id): Tables
  {
    t.(users := t.users - {userId}, admins := t.admins - {userId})
  }

  /** Deleting a chat also deletes its user (and that user's administrator
      row), its group and its subscriptions. */
  function CascadeDeleteChat(t: Tables, chatId: Id): Tables
  {
    t.(chats := t.chats - {chatId},
       users := map u | u in t.users && t.users[u].chatId != chatId :: t.users[u],
       admins := map a | a in t.admins && !(a in t.users && t.users[a].chatId == chatId) :: t.admins[a],
       groups := map g | g in t.groups && t.groups[g].chatId != chatId :: t.groups[g],
       subscribers := map s | s in t.subscribers && t.subscribers[s].chatId != chatId :: t.subscribers[s])
  }

  /** Deleting a user keeps the schema, and only the user and its
      administrator row go. */
  lemma DeleteUserRowsSpec(t: Tables, userId: Id)
    requires ValidTables(t)
    ensures ValidTables(DeleteUserRows(t, userId))
    ensures userId !in DeleteUserRows(t, userId).users && userId !in DeleteUserRows(t, userId).admins
    ensures forall u :: u in t.users && u != userId ==> u in DeleteUserRows(t, userId).users
    ensures forall a :: a in t.admins && a != userId ==> a in DeleteUserRows(t, userId).admins
  {
  }

  /** Deleting a group keeps the schema; nothing refers to a group. */
  lemma DeleteGroupRowValid(t: Tables, groupId: Id)
    requires ValidTables(t)
    ensures ValidTables(t.(groups := t.groups - {groupId}))
    ensures groupId !in t.groups - {groupId}
  {
  }

  /** Deleting a chat keeps the schema: afterwards no user, group or
      subscription refers to it, every row that did not depend on it is
      still there unchanged, and the chat can no longer be found. */
  lemma CascadeDeleteChatSpec(t: Tables, chatId: Id)
    requires ValidTables(t) && chatId in t.chats
    ensures var r := CascadeDeleteChat(t, chatId);
            ValidTables(r)
            && FindChat(r, IntIdent(chatId)) == Ok(None)
            && FindChat(r, StrIdent(t.chats[chatId].email)) == Ok(None)
            && (forall u :: u in r.users ==> r.users[u].chatId != chatId)
            && (forall g :: g in r.groups ==> r.groups[g].chatId != chatId)
            && (forall s :: s in r.subscribers ==> r.subscribers[s].chatId != chatId)
            && (forall c :: c in t.chats && c != chatId ==> c in r.chats && r.chats[c] == t.chats[c])
            && (forall u :: u in t.users && t.users[u].chatId != chatId ==> u in r.users && r.users[u] == t.users[u])
            && (forall a :: a in t.admins && t.users[a].chatId != chatId ==>
                  a in r.admins && r.admins[a] == t.admins[a])
            && (forall g :: g in t.groups && t.groups[g].chatId != chatId ==>
                  g in r.groups && r.groups[g] == t.groups[g])
            && (forall s :: s in t.subscribers && t.subscribers[s].chatId != chatId ==>
                  s in r.subscribers && r.subscribers[s] == t.subscribers[s])
            && r.chatTypes == t.chatTypes && r.notificationTypes == t.notificationTypes
  {
    CascadeDeleteChatValid(t, chatId);
    CascadeDeleteChatGone(t, chatId);
    CascadeDeleteChatKeeps(t, chatId);
  }

  lemma CascadeDeleteChatValid(t: Tables, chatId: Id)
    requires ValidTables(t) && chatId in t.chats
    ensures ValidTables(CascadeDeleteChat(t, chatId))
  {
  }

  lemma CascadeDeleteChatGone(t: Tables, chatId: Id)
    requires ValidTables(t) && chatId in t.chats
    ensures var r := CascadeDeleteChat(t, chatId);
            FindChat(r, IntIdent(chatId)) == Ok(None)
            && FindChat(r, StrIdent(t.chats[chatId].email)) == Ok(None)
            && (forall u :: u in r.users ==> r.users[u].chatId != chatId)
            && (forall g :: g in r.groups ==> r.groups[g].chatId != chatId)
            && (forall s :: s in r.subscribers ==> r.subscribers[s].chatId != chatId)
  {
    var r := CascadeDeleteChat(t, chatId);
    var email := t.chats[chatId].email;
    forall c | c in r.chats
      ensures r.chats[c].email != email
    {
      assert c != chatId;
    }
  }

  lemma CascadeDeleteChatKeeps(t: Tables, chatId: Id)
    requires ValidTables(t) && chatId in t.chats
    ensures var r := CascadeDeleteChat(t, chatId);
            (forall c :: c in t.chats && c != chatId ==> c in r.chats && r.chats[c] == t.chats[c])
            && (forall u :: u in t.users && t.users[u].chatId != chatId ==> u in r.users && r.users[u] == t.users[u])
            && (forall a :: a in t.admins && t.users[a].chatId != chatId ==>
                  a in r.admins && r.admins[a] == t.admins[a])
            && (forall g :: g in t.groups && t.groups[g].chatId != chatId ==>
                  g in r.groups && r.groups[g] == t.groups[g])
            && (forall s :: s in t.subscribers && t.subscribers[s].chatId != chatId ==>
                  s in r.subscribers && r.subscribers[s] == t.subscribers[s])
            && r.chatTypes == t.chatTypes && r.notificationTypes == t.notificationTypes
  {
  }

  /** Changing the names of a user keeps the schema. */
  lemma UpdateUserValid(t: Tables, userId: Id, row: UserRow)
    requires ValidTables(t) && userId in t.users && row.chatId == t.users[userId].chatId
    ensures ValidTables(t.(users := t.users[userId := row]))
  {
    var t' := t.(users := t.users[userId := row]);
    forall a, b | a in t'.users && b in t'.users && a != b
      ensures t'.users[a].chatId != t'.users[b].chatId
    {
      assert t'.users[a].chatId == t.users[a].chatId;
      assert t'.users[b].chatId == t.users[b].chatId;
    }
  }

  /** Changing the title of a group keeps the schema. */
  lemma UpdateGroupValid(t: Tables, groupId: Id, row: GroupRow)
    requires ValidTables(t) && groupId in t.groups && row.chatId == t.groups[groupId].chatId
    ensures ValidTables(t.(groups := t.groups[groupId := row]))
  {
    var t' := t.(groups := t.groups[groupId := row]);
    forall a, b | a in t'.groups && b in t'.groups && a != b
      ensures t'.groups[a].chatId != t'.groups[b].chatId
    {
      assert t'.groups[a].chatId == t.groups[a].chatId;
      assert t'.groups[b].chatId == t.groups[b].chatId;
    }
  }

  // ---------------------------------------------------------------------
  // What a later lookup sees
  // ---------------------------------------------------------------------

  /** A chat just added is found again by its id and by its email. */
  lemma CreatedChatIsFound(t: Tables, id: Id, row: ChatRow)
    requires ValidTables(t) && id !in t.chats
    requires row.chatType in t.chatTypes && !EmailInUse(t, row.email)
    ensures var t' := t.(chats := t.chats[id := row]);
            FindChat(t', IntIdent(id)) == Ok(Some(id)) && FindChat(t', StrIdent(row.email)) == Ok(Some(id))
  {
    var t' := t.(chats := t.chats[id := row]);
    InsertChatValidIff(t, id, row);
    FindByNameIsExact(t', row.email);
  }

  /** After granting a user administrator rights it is an administrator;
      after withdrawing them it is not. */
  lemma AdministratorRoundTrip(t: Tables, userId: Id, row: AdminRow)
    ensures IsUserAdministrator(t.(admins := t.admins[userId := row]), Some(userId)) == Ok(true)
    ensures IsUserAdministrator(t.(admins := t.admins - {userId}), Some(userId)) == Ok(false)
  {
  }

  /** A subscription just added is the one found for its chat and type. */
  lemma AddedSubscriptionIsFound(t: Tables, id: Id, row: SubscriberRow)
    requires ValidTables(t) && id !in t.subscribers
    requires ValidTables(t.(subscribers := t.subscribers[id := row]))
    ensures FindSubscription(t.(subscribers := t.subscribers[id := row]), row.chatId, row.notificationType) == Some(id)
  {
    var t' := t.(subscribers := t.subscribers[id := row]);
    var found := FindSubscription(t', row.chatId, row.notificationType);
    assert t'.subscribers[id] == row;
    assert found.Some?;
  }

  /** Removing the subscription found for a chat and type leaves none for
      that pair, and every other subscription in place. */
  lemma RemovedSubscriptionIsGone(t: Tables, chatId: Id, typeId: Id)
    requires ValidTables(t) && FindSubscription(t, chatId, typeId).Some?
    ensures var t' := t.(subscribers := t.subscribers - {FindSubscription(t, chatId, typeId).value});
            ValidTables(t')
            && FindSubscription(t', chatId, typeId).None?
            && forall k :: k in t.subscribers && k != FindSubscription(t, chatId, typeId).value ==>
                 k in t'.subscribers && t'.subscribers[k] == t.subscribers[k]
  {
    var found := FindSubscription(t, chatId, typeId).value;
    var t' := t.(subscribers := t.subscribers - {found});
    forall k | k in t'.subscribers
      ensures !(t'.subscribers[k].chatId == chatId && t'.subscribers[k].notificationType == typeId)
    {
      assert k != found && t'.subscribers[k] == t.subscribers[k];
    }
  }

  // ---------------------------------------------------------------------
  // Argument resolution
  // ---------------------------------------------------------------------

  /** The chat_type argument of create_chat. */
  datatype ChatTypeArg =
    | NoChatType                   // None
    | ChatTypeObject(id: Id)       // a ChatType row
    | ChatTypeKey(ident: Identifier) // an int, a str, or anything else

  /** The type id create_chat stores: ValueError for None, the row's own id
      for a ChatType, the looked-up id for an int or str (AttributeError,
      from reading `.id` of None, when nothing is found), TypeError for
      anything else. */
  function ResolveChatType(t: Tables, arg: ChatTypeArg): (r: Result<Id>)
    ensures r == Err(ValueError) <==> arg.NoChatType?
    ensures r == Err(TypeError) <==> arg == ChatTypeKey(OtherIdent)
    ensures arg.ChatTypeObject? ==> r == Ok(arg.id)
    ensures arg.ChatTypeKey? && arg.ident.IntIdent? ==>
              r == (if arg.ident.i in t.chatTypes then Ok(arg.ident.i) else Err(AttributeError))
    ensures arg.ChatTypeKey? && arg.ident.StrIdent? ==>
              (r == Err(AttributeError) <==> forall k :: k in t.chatTypes ==> t.chatTypes[k].name != arg.ident.s)
    ensures arg.ChatTypeKey? && arg.ident.StrIdent? && r.Ok? ==>
              r.value in t.chatTypes && t.chatTypes[r.value].name == arg.ident.s
  {
    match arg
    case NoChatType => Err(ValueError)
    case ChatTypeObject(id) => Ok(id)
    case ChatTypeKey(ident) =>
      match FindChatType(t, ident)
      case Err(e) => Err(e)
      case Ok(None) => Err(AttributeError)
      case Ok(Some(id)) => Ok(id)
  }

  // ---------------------------------------------------------------------
  // The session
  // ---------------------------------------------------------------------

  /** A database session over tables that satisfy the schema. */
  class Database {
    var tables: Tables

    ghost predicate Valid()
      reads this
    {
      ValidTables(tables)
    }

    constructor(initial: Tables)
      requires ValidTables(initial)
      ensures Valid() && tables == initial
    {
      tables := initial;
    }

    /** create_chat. */
    method CreateChat(email: string, chatType: ChatTypeArg) returns (r: Result<Id>)
      requires Valid()
      requires chatType.ChatTypeObject? ==> chatType.id in tables.chatTypes
      modifies this
      ensures Valid()
      ensures ResolveChatType(old(tables), chatType).Err? ==>
                r == Err(ResolveChatType(old(tables), chatType).error) && tables == old(tables)
      ensures ResolveChatType(old(tables), chatType).Ok? && EmailInUse(old(tables), email) ==>
                r == Err(IntegrityError) && tables == old(tables)
      ensures ResolveChatType(old(tables), chatType).Ok? && !EmailInUse(old(tables), email) ==>
                r.Ok? && r.value !in old(tables).chats
                && tables == old(tables).(chats := old(tables).chats[r.value :=
                                            ChatRow(email, ResolveChatType(old(tables), chatType).value)])
    {
      var typeId := ResolveChatType(tables, chatType);
      if typeId.Err? {
        return Err(typeId.error);
      }
      var id := NewRowId(tables.chats);
      InsertChatValidIff(tables, id, ChatRow(email, typeId.value));
      if EmailInUse(tables, email) {
        return Err(IntegrityError);
      }
      tables := tables.(chats := tables.chats[id := ChatRow(email, typeId.value)]);
      return Ok(id);
    }

    /** delete_chat: False for no match, otherwise the chat and everything
        that depends on it go. */
    method DeleteChat(ident: Identifier) returns (r: Result<bool>)
      requires Valid()
      modifies this
      ensures Valid()
      ensures FindChat(old(tables), ident).Err? ==> r == Err(TypeError) && tables == old(tables)
      ensures FindChat(old(tables), ident) == Ok(None) ==> r == Ok(false) && tables == old(tables)
      ensures FindChat(old(tables), ident).Ok? && FindChat(old(tables), ident).value.Some? ==>
                r == Ok(true) && tables == CascadeDeleteChat(old(tables), FindChat(old(tables), ident).value.value)
    {
      var found := FindChat(tables, ident);
      if found.Err? {
        return Err(found.error);
      }
      if found.value.None? {
        return Ok(false);
      }
      CascadeDeleteChatSpec(tables, found.value.value);
      tables := CascadeDeleteChat(tables, found.value.value);
      return Ok(true);
    }

    /** create_user. */
    method CreateUser(chat: Option<Id>, firstName: string, lastName: Option<string>) returns (r: Result<Id>)
      requires Valid()
      requires chat.Some? ==> chat.value in tables.chats
      modifies this
      ensures Valid()
      ensures chat.None? ==> r == Err(ValueError) && tables == old(tables)
      ensures chat.Some? && ChatHasUser(old(tables), chat.value) ==> r == Err(IntegrityError) && tables == old(tables)
      ensures chat.Some? && !ChatHasUser(old(tables), chat.value) ==>
                r.Ok? && r.value !in old(tables).users
                && tables == old(tables).(users := old(tables).users[r.value := UserRow(chat.value, firstName, lastName)])
    {
      if chat.None? {
        return Err(ValueError);
      }
      var id := NewRowId(tables.users);
      InsertUserValidIff(tables, id, UserRow(chat.value, firstName, lastName));
      if ChatHasUser(tables, chat.value) {
        return Err(IntegrityError);
      }
      tables := tables.(users := tables.users[id := UserRow(chat.value, firstName, lastName)]);
      return Ok(id);
    }

    /** update_user: the names given as non-None replace the stored ones. */
    method UpdateUser(userId: Id, firstName: Option<string>, lastName: Option<string>) returns (user: UserRow)
      requires Valid() && userId in tables.users
      modifies this
      ensures Valid()
      ensures user.chatId == old(tables).users[userId].chatId
      ensures user.firstName == (if firstName.Some? then firstName.value else old(tables).users[userId].firstName)
      ensures user.lastName == (if lastName.Some? then lastName else old(tables).users[userId].lastName)
      ensures tables == old(tables).(users := old(tables).users[userId := user])
    {
      user := tables.users[userId];
      if firstName.Some? {
        user := user.(firstName := firstName.value);
      }
      if lastName.Some? {
        user := user.(lastName := lastName);
      }
      UpdateUserValid(tables, userId, user);
      tables := tables.(users := tables.users[userId := user]);
    }

    /** delete_user: False for no user; otherwise the user and its
        administrator row go and, when asked, its chat with it. */
    method DeleteUser(user: Option<Id>, deleteChat: bool) returns (deleted: bool)
      requires Valid()
      requires user.Some? ==> user.value in tables.users
      modifies this
      ensures Valid()
      ensures deleted == user.Some?
      ensures user.None? ==> tables == old(tables)
      ensures user.Some? && !deleteChat ==> tables == DeleteUserRows(old(tables), user.value)
      ensures user.Some? && deleteChat ==>
                tables == CascadeDeleteChat(DeleteUserRows(old(tables), user.value), old(tables).users[user.value].chatId)
    {
      if user.None? {
        return false;
      }
      var chatId := tables.users[user.value].chatId;
      DeleteUserRowsSpec(tables, user.value);
      tables := DeleteUserRows(tables, user.value);
      if deleteChat {
        assert FindChat(tables, IntIdent(chatId)) == Ok(Some(chatId));
        var _ := DeleteChat(IntIdent(chatId));
      }
      return true;
    }

    /** create_group. */
    method CreateGroup(chat: Option<Id>, title: string) returns (r: Result<Id>)
      requires Valid()
      requires chat.Some? ==> chat.value in tables.chats
      modifies this
      ensures Valid()
      ensures chat.None? ==> r == Err(ValueError) && tables == old(tables)
      ensures chat.Some? && ChatHasGroup(old(tables), chat.value) ==> r == Err(IntegrityError) && tables == old(tables)
      ensures chat.Some? && !ChatHasGroup(old(tables), chat.value) ==>
                r.Ok? && r.value !in old(tables).groups
                && tables == old(tables).(groups := old(tables).groups[r.value := GroupRow(chat.value, title)])
    {
      if chat.None? {
        return Err(ValueError);
      }
      var id := NewRowId(tables.groups);
      InsertGroupValidIff(tables, id, GroupRow(chat.value, title));
      if ChatHasGroup(tables, chat.value) {
        return Err(IntegrityError);
      }
      tables := tables.(groups := tables.groups[id := GroupRow(chat.value, title)]);
      return Ok(id);
    }

    /** update_group: a non-None title replaces the stored one. */
    method UpdateGroup(groupId: Id, title: Option<string>) returns (group: GroupRow)
      requires Valid() && groupId in tables.groups
      modifies this
      ensures Valid()
      ensures group.chatId == old(tables).groups[groupId].chatId
      ensures group.title == (if title.Some? then title.value else old(tables).groups[groupId].title)
      ensures tables == old(tables).(groups := old(tables).groups[groupId := group])
    {
      group := tables.groups[groupId];
      if title.Some? {
        group := group.(title := title.value);
      }
      UpdateGroupValid(tables, groupId, group);
      tables := tables.(groups := tables.groups[groupId := group]);
    }

    /** delete_group: False for no group; otherwise the group goes and,
        when asked, its chat with it. */
    method DeleteGroup(group: Option<Id>, deleteChat: bool) returns (deleted: bool)
      requires Valid()
      requires group.Some? ==> group.value in tables.groups
      modifies this
      ensures Valid()
      ensures deleted == group.Some?
      ensures group.None? ==> tables == old(tables)
      ensures group.Some? && !deleteChat ==> tables == old(tables).(groups := old(tables).groups - {group.value})
      ensures group.Some? && deleteChat ==>
                tables == CascadeDeleteChat(old(tables).(groups := old(tables).groups - {group.value}),
                                            old(tables).groups[group.value].chatId)
    {
      if group.None? {
        return false;
      }
      var chatId := tables.groups[group.value].chatId;
      DeleteGroupRowValid(tables, group.value);
      tables := tables.(groups := tables.groups - {group.value});
      if deleteChat {
        assert FindChat(tables, IntIdent(chatId)) == Ok(Some(chatId));
        var _ := DeleteChat(IntIdent(chatId));
      }
      return true;
    }

    /** create_administrator: the row is keyed by the user's id. */
    method CreateAdministrator(user: Option<Id>, grantedBy: string, grantedAt: Timestamp) returns (r: Result<Id>)
      requires Valid()
      requires user.Some? ==> user.value in tables.users
      modifies this
      ensures Valid()
      ensures user.None? ==> r == Err(ValueError) && tables == old(tables)
      ensures user.Some? && user.value in old(tables).admins ==> r == Err(IntegrityError) && tables == old(tables)
      ensures user.Some? && user.value !in old(tables).admins ==>
                r == Ok(user.value)
                && tables == old(tables).(admins := old(tables).admins[user.value := AdminRow(grantedBy, grantedAt)])
    {
      if user.None? {
        return Err(ValueError);
      }
      if user.value in tables.admins {
        return Err(IntegrityError);
      }
      tables := tables.(admins := tables.admins[user.value := AdminRow(grantedBy, grantedAt)]);
      return Ok(user.value);
    }

    /** delete_administrator: False for no row, otherwise the row goes. */
    method DeleteAdministrator(admin: Option<Id>) returns (deleted: bool)
      requires Valid()
      requires admin.Some? ==> admin.value in tables.admins
      modifies this
      ensures Valid()
      ensures deleted == admin.Some?
      ensures tables == if admin.Some? then old(tables).(admins := old(tables).admins - {admin.value}) else old(tables)
    {
      if admin.None? {
        return false;
      }
      tables := tables.(admins := tables.admins - {admin.value});
      return true;
    }

    /** delete_administrator_by_user: the user's administrator row goes, if
        there is one. */
    method DeleteAdministratorByUser(user: Option<Id>) returns (deleted: bool)
      requires Valid()
      modifies this
      ensures Valid()
      ensures deleted <==> user.Some? && user.value in old(tables).admins
      ensures tables == if deleted then old(tables).(admins := old(tables).admins - {user.value}) else old(tables)
    {
      var admin := FindAdministratorByUser(tables, user);
      deleted := DeleteAdministrator(admin);
    }

    /** add_notification_subscriber. */
    method AddNotificationSubscriber(chat: Option<Id>, notificationType: Option<Id>, grantedBy: string,
                                     grantedAt: Timestamp) returns (r: Result<Id>)
      requires Valid()
      requires chat.Some? ==> chat.value in tables.chats
      requires notificationType.Some? ==> notificationType.value in tables.notificationTypes
      modifies this
      ensures Valid()
      ensures notificationType.None? ==> r == Err(ValueError) && tables == old(tables)
      ensures notificationType.Some? && chat.None? ==> r == Err(AttributeError) && tables == old(tables)
      ensures chat.Some? && notificationType.Some? ==>
                if FindSubscription(old(tables), chat.value, notificationType.value).Some? then
                  r == Err(IntegrityError) && tables == old(tables)
                else
                  r.Ok? && r.value !in old(tables).subscribers
                  && tables == old(tables).(subscribers := old(tables).subscribers[r.value :=
                                              SubscriberRow(chat.value, notificationType.value, grantedBy, grantedAt)])
    {
      if notificationType.None? {
        return Err(ValueError);
      }
      if chat.None? {
        return Err(AttributeError);
      }
      var row := SubscriberRow(chat.value, notificationType.value, grantedBy, grantedAt);
      var id := NewRowId(tables.subscribers);
      InsertSubscriberValidIff(tables, id, row);
      if FindSubscription(tables, chat.value, notificationType.value).Some? {
        return Err(IntegrityError);
      }
      tables := tables.(subscribers := tables.subscribers[id := row]);
      return Ok(id);
    }

    /** delete_notifications_subscriber: False for no row, otherwise the
        row goes. */
    method DeleteNotificationsSubscriber(subscriber: Option<Id>) returns (deleted: bool)
      requires Valid()
      requires subscriber.Some? ==> subscriber.value in tables.subscribers
      modifies this
      ensures Valid()
      ensures deleted == subscriber.Some?
      ensures tables == if subscriber.Some? then old(tables).(subscribers := old(tables).subscribers - {subscriber.value})
                        else old(tables)
    {
      if subscriber.None? {
        return false;
      }
      tables := tables.(subscribers := tables.subscribers - {subscriber.value});
      return true;
    }

    /** delete_notification_subscriber_by_data: ValueError for no type,
        False for no chat or no matching subscription, otherwise exactly
        the matching row goes. */
    method DeleteNotificationSubscriberByData(chat: Option<Id>, notificationType: Option<Id>) returns (r: Result<bool>)
      requires Valid()
      modifies this
      ensures Valid()
      ensures notificationType.None? ==> r == Err(ValueError) && tables == old(tables)
      ensures notificationType.Some? && chat.None? ==> r == Ok(false) && tables == old(tables)
      ensures notificationType.Some? && chat.Some? ==>
                var found := FindSubscription(old(tables), chat.value, notificationType.value);
                r == Ok(found.Some?)
                && tables == if found.Some? then old(tables).(subscribers := old(tables).subscribers - {found.value})
                             else old(tables)
    {
      if notificationType.None? {
        return Err(ValueError);
      }
      if chat.None? {
        return Ok(false);
      }
      var found := FindSubscription(tables, chat.value, notificationType.value);
      if found.None? {
        return Ok(false);
      }
      var deleted := DeleteNotificationsSubscriber(found);
      return Ok(deleted);
    }
  }
}
