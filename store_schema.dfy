/** The tables of app/db/models.py, the schema constraints they carry, and
    the read-only queries of app/db/crud. */
module StoreSchema {
  import opened Errors

  /** An integer primary key. */
  type Id = int

  /** A DateTime column, abstracted to a number. */
  type Timestamp = int

  datatype ChatTypeRow = ChatTypeRow(name: string)
  datatype ChatRow = ChatRow(email: string, chatType: Id)
  datatype UserRow = UserRow(chatId: Id, firstName: string, lastName: Option<string>)
  datatype GroupRow = GroupRow(chatId: Id, title: string)
  /** An administrator row; its primary key is the id of its user. */
  datatype AdminRow = AdminRow(grantedBy: string, grantedAt: Timestamp)
  datatype NotificationTypeRow = NotificationTypeRow(name: string, description: Option<string>)
  datatype SubscriberRow = SubscriberRow(chatId: Id, notificationType: Id, grantedBy: string, grantedAt: Timestamp)

  /** The database: every table as a map from primary key to row. */
  datatype Tables = Tables(
    chatTypes: map<Id, ChatTypeRow>,
    chats: map<Id, ChatRow>,
    users: map<Id, UserRow>,
    groups: map<Id, GroupRow>,
    admins: map<Id, AdminRow>,
    notificationTypes: map<Id, NotificationTypeRow>,
    subscribers: map<Id, SubscriberRow>)

  // ---------------------------------------------------------------------
  // Schema constraints
  // ---------------------------------------------------------------------

  /** chat_types.type is unique. */
  predicate UniqueChatTypeNames(t: Tables)
  {
    forall a, b :: a in t.chatTypes && b in t.chatTypes && a != b ==> t.chatTypes[a].name != t.chatTypes[b].name
  }

  /** chats.email is unique. */
  predicate UniqueEmails(t: Tables)
  {
    forall a, b :: a in t.chats && b in t.chats && a != b ==> t.chats[a].email != t.chats[b].email
  }

  /** notification_types.type is unique. */
  predicate UniqueNotificationTypeNames(t: Tables)
  {
    forall a, b :: a in t.notificationTypes && b in t.notificationTypes && a != b ==>
      t.notificationTypes[a].name != t.notificationTypes[b].name
  }

  /** users.chat_id is unique: at most one user per chat. */
  predicate OneUserPerChat(t: Tables)
  {
    forall a, b :: a in t.users && b in t.users && a != b ==> t.users[a].chatId != t.users[b].chatId
  }

  /** groups.chat_id is unique: at most one group per chat. */
  predicate OneGroupPerChat(t: Tables)
  {
    forall a, b :: a in t.groups && b in t.groups && a != b ==> t.groups[a].chatId != t.groups[b].chatId
  }

  /** The pair (chat_id, notification_type) is unique among subscribers. */
  predicate UniqueSubscriptions(t: Tables)
  {
    forall a, b :: a in t.subscribers && b in t.subscribers && a != b ==>
      (t.subscribers[a].chatId, t.subscribers[a].notificationType)
      != (t.subscribers[b].chatId, t.subscribers[b].notificationType)
  }

  /** Every foreign key names an existing row. */
  predicate ForeignKeys(t: Tables)
  {
    (forall c :: c in t.chats ==> t.chats[c].chatType in t.chatTypes)
    && (forall u :: u in t.users ==> t.users[u].chatId in t.chats)
    && (forall g :: g in t.groups ==> t.groups[g].chatId in t.chats)
    && (forall a :: a in t.admins ==> a in t.users)
    && (forall s :: s in t.subscribers ==>
          t.subscribers[s].chatId in t.chats && t.subscribers[s].notificationType in t.notificationTypes)
  }

  /** A database state the schema admits. */
  predicate ValidTables(t: Tables)
  {
    UniqueChatTypeNames(t) && UniqueEmails(t) && UniqueNotificationTypeNames(t)
    && OneUserPerChat(t) && OneGroupPerChat(t) && UniqueSubscriptions(t) && ForeignKeys(t)
  }

  // ---------------------------------------------------------------------
  // Lookups
  // ---------------------------------------------------------------------

  predicate IsLeast(m: Id, s: set<Id>)
  {
    m in s && forall x :: x in s ==> m <= x
  }

  /** A finite set of keys that holds `w` has a least element. */
  lemma {:induction false} MinExists(s: set<Id>, w: Id)
    requires w in s
    ensures exists m :: IsLeast(m, s)
    decreases |s|
  {
    if exists x :: x in s && x < w {
      var x :| x in s && x < w;
      var rest := s - {w};
      MinExists(rest, x);
      var m :| IsLeast(m, rest);
      assert x in rest;
      forall y | y in s
        ensures m <= y
      {
        if y != w {
          assert y in rest;
        }
      }
      assert IsLeast(m, s);
    } else {
      assert IsLeast(w, s);
    }
  }

  /** A row that satisfies `p`: `.first()` without `order_by` names no
      particular row, so the model picks the least matching key. */
  function FirstWhere<R>(m: map<Id, R>, p: R -> bool): (r: Option<Id>)
    ensures r.Some? ==> r.value in m && p(m[r.value]) && forall k :: k in m && p(m[k]) ==> r.value <= k
    ensures r.None? <==> forall k :: k in m ==> !p(m[k])
  {
    if exists k :: k in m && p(m[k]) then
      assert exists k :: k in m && p(m[k]) && forall j :: j in m && p(m[j]) ==> k <= j by {
        var w :| w in m && p(m[w]);
        var keys := set k | k in m && p(m[k]) :: k;
        MinExists(keys, w);
        var least :| IsLeast(least, keys);
        assert least in m && p(m[least]);
        forall j | j in m && p(m[j])
          ensures least <= j
        {
          assert j in keys;
        }
      }
      var k :| k in m && p(m[k]) && forall j :: j in m && p(m[j]) ==> k <= j;
      Some(k)
    else None
  }

  predicate IsGreatest(m: Id, s: set<Id>)
  {
    m in s && forall x :: x in s ==> x <= m
  }

  /** A finite set of keys that holds `w` has a greatest element. */
  lemma {:induction false} MaxExists(s: set<Id>, w: Id)
    requires w in s
    ensures exists m :: IsGreatest(m, s)
    decreases |s|
  {
    if exists x :: x in s && x > w {
      var x :| x in s && x > w;
      var rest := s - {w};
      MaxExists(rest, x);
      var m :| IsGreatest(m, rest);
      assert x in rest;
      forall y | y in s
        ensures y <= m
      {
        if y != w {
          assert y in rest;
        }
      }
      assert IsGreatest(m, s);
    } else {
      assert IsGreatest(w, s);
    }
  }

  /** The key SQLite gives a new row: one more than the largest key in the
      table, or 1 when the table is empty. */
  function NewRowId<R>(m: map<Id, R>): (id: Id)
    ensures id !in m
    ensures (forall k :: k !in m) ==> id == 1
    ensures forall k :: k in m ==> k < id
    ensures (exists k :: k in m) ==> id - 1 in m
  {
    if exists w :: w in m then
      assert exists g :: IsGreatest(g, m.Keys) by {
        var w :| w in m;
        MaxExists(m.Keys, w);
      }
      var g :| IsGreatest(g, m.Keys);
      g + 1
    else 1
  }

  /** The identifier a lookup is given: an int is a primary key, a str a
      name or an email; anything else is refused. */
  datatype Identifier = IntIdent(i: int) | StrIdent(s: string) | OtherIdent

  /** find_chat_type: by primary key for an int, the first type of that
      name for a str, TypeError for anything else. */
  function FindChatType(t: Tables, ident: Identifier): (r: Result<Option<Id>>)
    ensures r.Err? <==> ident.OtherIdent?
    ensures r.Err? ==> r.error == TypeError
    ensures ident.IntIdent? ==> r == Ok(if ident.i in t.chatTypes then Some(ident.i) else None)
    ensures ident.StrIdent? && r.value.Some? ==>
              r.value.value in t.chatTypes && t.chatTypes[r.value.value].name == ident.s
    ensures ident.StrIdent? ==> (r.value.None? <==> forall k :: k in t.chatTypes ==> t.chatTypes[k].name != ident.s)
  {
    match ident
    case IntIdent(i) => Ok(if i in t.chatTypes then Some(i) else None)
    case StrIdent(s) => Ok(FirstWhere(t.chatTypes, (row: ChatTypeRow) => row.name == s))
    case OtherIdent => Err(TypeError)
  }

  /** find_notification_type: by primary key for an int, the first type of
      that name for a str, TypeError for anything else. */
  function FindNotificationType(t: Tables, ident: Identifier): (r: Result<Option<Id>>)
    ensures r.Err? <==> ident.OtherIdent?
    ensures r.Err? ==> r.error == TypeError
    ensures ident.IntIdent? ==> r == Ok(if ident.i in t.notificationTypes then Some(ident.i) else None)
    ensures ident.StrIdent? && r.value.Some? ==>
              r.value.value in t.notificationTypes && t.notificationTypes[r.value.value].name == ident.s
    ensures ident.StrIdent? ==>
              (r.value.None? <==> forall k :: k in t.notificationTypes ==> t.notificationTypes[k].name != ident.s)
  {
    match ident
    case IntIdent(i) => Ok(if i in t.notificationTypes then Some(i) else None)
    case StrIdent(s) => Ok(FirstWhere(t.notificationTypes, (row: NotificationTypeRow) => row.name == s))
    case OtherIdent => Err(TypeError)
  }

  /** find_chat: by primary key for an int, by email for a str (emails are
      unique, so at most one chat matches), TypeError for anything else. */
  function FindChat(t: Tables, ident: Identifier): (r: Result<Option<Id>>)
    ensures r.Err? <==> ident.OtherIdent?
    ensures r.Err? ==> r.error == TypeError
    ensures ident.IntIdent? ==> r == Ok(if ident.i in t.chats then Some(ident.i) else None)
    ensures ident.StrIdent? && r.value.Some? ==> r.value.value in t.chats && t.chats[r.value.value].email == ident.s
    ensures ident.StrIdent? ==> (r.value.None? <==> forall k :: k in t.chats ==> t.chats[k].email != ident.s)
  {
    match ident
    case IntIdent(i) => Ok(if i in t.chats then Some(i) else None)
    case StrIdent(s) => Ok(FirstWhere(t.chats, (row: ChatRow) => row.email == s))
    case OtherIdent => Err(TypeError)
  }

  /** With unique names, a lookup by name finds the one row of that name. */
  lemma FindByNameIsExact(t: Tables, s: string)
    requires ValidTables(t)
    ensures forall k :: k in t.chatTypes && t.chatTypes[k].name == s ==> FindChatType(t, StrIdent(s)) == Ok(Some(k))
    ensures forall k :: k in t.notificationTypes && t.notificationTypes[k].name == s ==>
              FindNotificationType(t, StrIdent(s)) == Ok(Some(k))
    ensures forall k :: k in t.chats && t.chats[k].email == s ==> FindChat(t, StrIdent(s)) == Ok(Some(k))
  {
  }

  /** find_administrator_by_user: None for no user, otherwise the
      administrator row keyed by the user's id, if any. */
  function FindAdministratorByUser(t: Tables, user: Option<Id>): (r: Option<Id>)
    ensures r.Some? <==> user.Some? && user.value in t.admins
    ensures r.Some? ==> r == user
  {
    match user
    case None => None
    case Some(u) => if u in t.admins then Some(u) else None
  }

  /** is_user_administrator: TypeError for no user, otherwise whether an
      administrator row exists for it. */
  function IsUserAdministrator(t: Tables, user: Option<Id>): (r: Result<bool>)
    ensures r.Err? <==> user.None?
    ensures r.Err? ==> r.error == TypeError
    ensures r.Ok? ==> (r.value <==> FindAdministratorByUser(t, user).Some?)
  {
    match user
    case None => Err(TypeError)
    case Some(u) => Ok(u in t.admins)
  }

  /** The subscription of a chat to a notification type, if there is one. */
  function FindSubscription(t: Tables, chatId: Id, typeId: Id): (r: Option<Id>)
    ensures r.Some? ==> r.value in t.subscribers
                        && t.subscribers[r.value].chatId == chatId && t.subscribers[r.value].notificationType == typeId
    ensures r.None? <==> forall k :: k in t.subscribers ==>
                           !(t.subscribers[k].chatId == chatId && t.subscribers[k].notificationType == typeId)
  {
    FirstWhere(t.subscribers, (row: SubscriberRow) => row.chatId == chatId && row.notificationType == typeId)
  }
}
