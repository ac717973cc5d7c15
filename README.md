# monitor-flow-bot core in Dafny

This project models the core of monitor-flow-bot, a chat bot that keeps a
small SQLite store of chats, users, groups, administrators and notification
subscriptions, and formats records and text for chat messages. It proves
properties of that model.

It models:

- **Text utilities** (`app/utils/text_format.py`), in `text_format.dfy`.
  - `split_text` is a method with the source's `while` loop. Its contract
    is a greedy fixed-width chunking, and that chunking is proved unique.
  - `normalize_whitespace` is a function built from `strip`, `re.split(r'\s+')`
    and `' '.join`. It uses CPython's `str.isspace` character set. The
    model proves the output is single-spaced, keeps the same words, gives
    `""` for blank text, and is idempotent.
- **Nested-dict printer** (`app/utils/json_format.py`), in `json_format.dfy`.
  - `format_json_to_str` is a method with the source's loops.
  - It is proved equal to a recursive specification.
  - Lemmas give the exact output shape of each kind of value.
- **Record formatter** (`app/utils/db_records_format.py`), in `db_records_format.dfy`.
  - `format_for_chat` is a method with the source's loops and recursion.
  - It is proved equal to a recursive specification.
  - Lemmas cover the field-selection rules, the hidden `X_id` rule, the
    three renderings of a nested relation, the `ValueError` cases and the
    `MODEL_FORMATS` table.
  - A record is modelled as:
    - its mapper's column names;
    - its attribute values;
    - its named relationships.
  - `repr` and `str` are parameters.
- **Chat-type filter** (`app/core/bot_extensions/filter.py`), in `chat_filter.dfy`.
  - The filter is a datatype holding the configured types.
  - `filter` follows Python semantics over a JSON-like event. This covers:
    - truthiness;
    - `in` on a str, list or dict;
    - the `TypeError` from `in` on an int, or from indexing a str or list
      with a str;
    - `True == 1`.
- **Store** (`app/db/models.py`, `app/db/crud/*.py`), in `store_schema.dfy` and `store.dfy`.
  - Each table is a map from primary key to row.
  - `ValidTables` states every `unique` and foreign-key constraint of the schema.
  - The read-only lookups are functions. The CRUD operations are methods of
    a `Database` class that updates its `tables` field.
  - **Atomic commits.** Each `db.commit()` is one atomic step. It applies
    the change when the schema still holds afterwards. Otherwise it raises
    `IntegrityError` and changes nothing.
  - **Cascades.** `app/db/base.py` turns on SQLite foreign keys, so
    `ON DELETE CASCADE` is modelled. Deleting a chat removes:
    - its user and that user's administrator row;
    - its group;
    - its subscriptions.
  - **Lemmas.** For each insertion there is an iff lemma: it keeps the
    schema exactly when the source's commit succeeds. Other lemmas show
    that a later lookup sees what an earlier operation did.
  - An ORM object argument (a `Chat`, `User`, `Group`, `ChatType`,
    `NotificationType`, `Administrator` or `NotificationSubscriber`) is its
    primary key, or `None`. The store must already hold it, as it does for
    any object loaded from the session.

`errors.dfy` holds the Python exceptions the core raises
(`ValueError`, `TypeError`, `AttributeError`, `IntegrityError`) and the
`Result` and `Option` types used for them.

### Where the model follows the code rather than its tests

- `split_text`'s loop (`app/utils/text_format.py:17-25`) behaves as follows.
  - A positive length chunks the text.
  - A length of 0 ends only on empty text.
  - Every other call loops forever, so those calls are excluded by a
    precondition.
- **`create_chat` with an int or str type that resolves to nothing** reads
  `.id` of `None` (`app/db/crud/chats.py:24`). This raises `AttributeError`,
  not the `ValueError` its test expects. `Store.ResolveChatType` says
  `AttributeError`.
- **`delete_chat` takes an int or str identifier.** Any other argument
  raises `TypeError` through `find_chat`. That includes a `Chat` object or
  `None`, which is what its tests pass.
- **`delete_chat_by_data` is not defined in `app/db/crud/chats.py`.**
  `delete_user` and `delete_group` call it with a chat id. It is modelled
  as `delete_chat` on that id.
- **The `Administrator` entry of `MODEL_FORMATS` holds a 3-tuple**
  (`app/utils/db_records_format.py:154`). The pair unpacking at line 70
  raises `ValueError` on it. `RecordFormat.AdministratorFormatFails` proves
  that formatting any record with that entry fails this way.
  `RecordFormat.OtherModelFormatsSucceed` proves that every other entry
  formats every object.

## Model

| member | source | states |
|---|---|---|
| TextFormat.SplitText | app/utils/text_format.py:5-27 | The parts concatenate to the text. No part is empty or longer than max_length, and every part but the last is exactly max_length long. Empty text gives no parts; non-empty text of at most max_length gives [text]. |
| TextFormat.ChunkingIsUnique | app/utils/text_format.py:17-25 | The chunking property determines the parts uniquely, so the contract of SplitText fixes its result. |
| TextFormat.ChunkingOfLongText | app/utils/text_format.py:17-21 | More than one part means the text was longer than max_length. |
| TextFormat.NormalizeIsJoinedWords | app/utils/text_format.py:37 | The strip/split/join expression equals the maximal non-whitespace runs of the text joined by single spaces. |
| TextFormat.NormalizeWhitespaceSpec | app/utils/text_format.py:30-37 | The output is single-spaced: no leading or trailing whitespace, and its only whitespace is lone ' ' between non-space characters. It has the same words as the input, and is empty iff the input has no words. |
| TextFormat.NormalizeBlank | app/utils/text_format.py:37 | Empty and whitespace-only text normalises to "". |
| TextFormat.NormalizeIdempotent | app/utils/text_format.py:37 | Normalising twice gives the same result as normalising once. |
| TextFormat.WordsOfJoin | app/utils/text_format.py:37 | Joining words with single spaces and splitting again gives back exactly those words. |
| TextFormat.JoinSingleSpaced | app/utils/text_format.py:37 | Words joined with ' ' form a single-spaced string, which is empty iff there are no words. |
| TextFormat.StripShape | app/utils/text_format.py:37 | strip() leaves no whitespace at either end. |
| TextFormat.WordsTrimLeft | app/utils/text_format.py:37 | Removing leading whitespace does not change the words. |
| TextFormat.WordsTrimRight | app/utils/text_format.py:37 | Removing trailing whitespace does not change the words. |
| TextFormat.SplitIsWords | app/utils/text_format.py:37 | On stripped, non-empty text, re.split on whitespace runs yields exactly the maximal non-whitespace runs. |
| TextFormat.WordsAreWords | app/utils/text_format.py:37 | Every extracted word is non-empty and free of whitespace. |
| TextFormat.NoWordsInSpaces | app/utils/text_format.py:37 | Whitespace-only text has no words. |
| JsonFormat.Indent | app/utils/json_format.py:14 | The indent for depth d is exactly 2*d spaces. |
| JsonFormat.UnescapeSpec | app/utils/json_format.py:22 | replace("\\n", "\n") leaves no literal \n escape. It never lengthens the string and is the identity on strings without one. |
| JsonFormat.FormatJsonToStr | app/utils/json_format.py:4-31 | The lines-and-loops procedure produces exactly the recursive specification Format of the value at the given indent. |
| JsonFormat.FormatEmpty | app/utils/json_format.py:13-31 | An empty dict and an empty list both format to "". |
| JsonFormat.FormatScalarEntry | app/utils/json_format.py:21-23 | A scalar entry at depth d is 2*d spaces, the key, ": " and the value with \n escapes turned into newlines. |
| JsonFormat.FormatNestedEntry | app/utils/json_format.py:18-20 | A dict or list value gives a "key:" line, then its formatting at depth d+1. An empty container leaves "key:\n". |
| JsonFormat.FormatListItem | app/utils/json_format.py:24-26 | A list item is the indent, "- ", then the stripped depth-d+1 formatting of the item. |
| JsonFormat.FormatScalar | app/utils/json_format.py:27-29 | A top-level scalar is the indent followed by its unescaped text. |
| JsonFormat.DictConcat | app/utils/json_format.py:16-23 | Lines are joined with one "\n": the output for a dict is the output of its first entries, a newline, then the output of the rest. |
| JsonFormat.ListConcat | app/utils/json_format.py:24-26 | The same single-"\n" join holds for the items of a list. |
| JsonFormat.DictShape | app/utils/json_format.py:16-23 | A non-empty dict's output is non-empty and starts with its indent. |
| JsonFormat.ListShape | app/utils/json_format.py:24-26 | A non-empty list's output is non-empty and starts with its indent. |
| JsonFormat.FormatShape | app/utils/json_format.py:13-31 | Every non-empty value's output starts with its indent. The output is empty exactly for an empty container, or for the empty scalar at depth 0. |
| RecordFormat.FormatForChat | app/utils/db_records_format.py:16-119 | The dispatching procedure equals the specification Format: iterable, dict, record, primitive. |
| RecordFormat.FormatRecord | app/utils/db_records_format.py:60-116 | A record is rendered as "{ ", then its flat parts and nested parts joined by the field separator, then " }". Any ValueError from field selection or a nested relation propagates. |
| RecordFormat.CollectFields | app/utils/db_records_format.py:66-84 | The loop over model_fields computes the field selection SelectFields. |
| RecordFormat.RenderFlatFields | app/utils/db_records_format.py:90-97 | The flat loop emits field=repr(getattr(obj, field, None)) for exactly the emitted fields, in order. |
| RecordFormat.RenderNested | app/utils/db_records_format.py:100-114 | One nested relation is rendered as NestedPart specifies. |
| RecordFormat.RenderNestedFields | app/utils/db_records_format.py:99-114 | The loop over the nested dict renders every relation in dict order, and stops with the first error. |
| RecordFormat.FlatParts | app/utils/db_records_format.py:96-97 | There is one part per field, and part i is field i, "=" and the repr of its attribute (None when missing). |
| RecordFormat.DictParts | app/utils/db_records_format.py:55-57 | One "k=repr(v)" part per dict entry, in insertion order. |
| RecordFormat.RelIndex | app/utils/db_records_format.py:101 | Finds a relationship of the requested name exactly when the mapper has one. |
| RecordFormat.SelectFieldsFails | app/utils/db_records_format.py:67-82 | Field selection fails iff some spec is neither a pair, an attribute, a Column nor a str (a wrong-arity tuple included), and the failure is ValueError. |
| RecordFormat.SelectFieldsOutcome | app/utils/db_records_format.py:67-84 | One pass of the loop keeps an earlier error, raises ValueError on an unsupported spec, and otherwise succeeds. |
| RecordFormat.SelectFieldsStep | app/utils/db_records_format.py:68-84 | A successful pass sets a pair's relation in the nested dict, ignores a flat name already collected, and otherwise appends the name. |
| RecordFormat.SelectFieldsErrPersists | app/utils/db_records_format.py:81-82 | Once a spec raises, the rest of the loop is skipped and the error is the result. |
| RecordFormat.SelectedFlatFields | app/utils/db_records_format.py:73-84 | The flat fields have no duplicates. They are exactly the flat names requested, in order of first occurrence. |
| RecordFormat.SelectedNestedFields | app/utils/db_records_format.py:68-72 | The nested dict has one key per relation requested. Its value is the sub-field list of the last pair for that relation. |
| RecordFormat.EmittedFields | app/utils/db_records_format.py:92-95 | A flat field is printed iff it is selected and not an X_id whose relation X is requested nested. |
| RecordFormat.EmittedDistinct | app/utils/db_records_format.py:83-95 | Distinct selected fields are printed at most once each. |
| RecordFormat.EmittedInOrder | app/utils/db_records_format.py:92-97 | The printed flat fields are the selected ones in selection order, with the hidden X_id fields skipped, as a front-to-back filter `Visible` defines them. |
| RecordFormat.EmittedAppend | app/utils/db_records_format.py:92-95 | Printing a concatenation of field lists prints each list in turn. |
| RecordFormat.EmittedAllWithoutNested | app/utils/db_records_format.py:92-95 | With no nested relation requested, every flat field is printed, in order. |
| RecordFormat.RecordFormatStep | app/utils/db_records_format.py:86-116 | When field selection and the nested relations succeed, a record prints "{ ", its printed flat fields then its nested parts joined by the field separator, and " }". The columns stand in for the flat fields when none are selected. |
| RecordFormat.AllColumnsWhenNoFields | app/utils/db_records_format.py:86-88 | With no fields requested, every mapper column is printed in declaration order. |
| RecordFormat.IterPartsOk | app/utils/db_records_format.py:45-52 | An iterable formats without error iff each of its items does. |
| RecordFormat.IterPartsItems | app/utils/db_records_format.py:45-52 | When no item raises, an iterable's parts are the formatted items, one per item, in order. |
| RecordFormat.NestedPartsOk | app/utils/db_records_format.py:100-114 | The nested relations of a record render without error iff each of them does. |
| RecordFormat.NestedPartsItems | app/utils/db_records_format.py:99-114 | When no relation raises, a record's nested parts are the rendered relations, one per requested relation, in order. |
| RecordFormat.NestedPartCases | app/utils/db_records_format.py:100-114 | A relation renders as name=<no relation> when the mapper lacks it, name=None when unset, and otherwise name= followed by the related object formatted with its sub-fields. |
| RecordFormat.SelectWellFormed | app/utils/db_records_format.py:66-84 | Selecting from well-formed specs always succeeds, and every nested sub-field list is well-formed too. |
| RecordFormat.FormatNeverFails | app/utils/db_records_format.py:44-119 | With well-formed field specs, at every nesting level, formatting never raises. |
| RecordFormat.IterPartsNeverFail | app/utils/db_records_format.py:45-52 | With well-formed specs no item of an iterable raises. |
| RecordFormat.NestedPartsNeverFail | app/utils/db_records_format.py:100-114 | With well-formed sub-field lists no nested relation raises. |
| RecordFormat.RecordWithBadFieldFails | app/utils/db_records_format.py:81-82 | A record formatted with an unsupported spec anywhere in its fields raises ValueError. |
| RecordFormat.ModelFieldsWellFormed | app/utils/db_records_format.py:129-174 | Every configured field list except the Administrator's holds only attributes and well-formed pairs. |
| RecordFormat.AdministratorFormatFails | app/utils/db_records_format.py:150-159 | Formatting any record with the Administrator entry's fields raises ValueError, because its second element is a 3-tuple. |
| RecordFormat.OtherModelFormatsSucceed | app/utils/db_records_format.py:129-174 | Formatting any object with any other entry's fields succeeds. |
| ChatFilter.Contains | app/core/bot_extensions/filter.py:11 | `sub in s` on strings holds iff sub occurs in s at some position. |
| ChatFilter.ChatTypeFilter.Filter | app/core/bot_extensions/filter.py:9-13 | True only for a dict chat with a "type" whose value is among the configured types. An error is always TypeError, raised only for a present chat that is not a dict. |
| ChatFilter.MissingChatRejected | app/core/bot_extensions/filter.py:10-12 | A missing or falsy chat is rejected. |
| ChatFilter.UntypedChatRejected | app/core/bot_extensions/filter.py:11-12 | A dict chat without "type" is rejected. |
| ChatFilter.DictChatDecision | app/core/bot_extensions/filter.py:11-13 | A dict chat never raises, and is accepted iff it has a type among the configured ones. |
| ChatFilter.NonDictChatRaises | app/core/bot_extensions/filter.py:11-13 | A truthy int or bool chat, or a str or list chat containing "type", raises TypeError. |
| ChatFilter.EmptyFilterRejectsAll | app/core/bot_extensions/filter.py:5-13 | A filter built with no types accepts no event. |
| ChatFilter.SingleTypeDecision | app/core/bot_extensions/filter.py:13 | A filter for one string type accepts a dict chat exactly when its type is that string. |
| StoreSchema.MinExists | app/db/crud/chat_types.py:17 | Any non-empty set of keys has a least element, so `.first()` has a row to return. |
| StoreSchema.FirstWhere | app/db/crud/chat_types.py:17 | `.first()`: Some gives a key whose row matches (the model picks the least), None iff no row matches. Under the unique name constraints of `ValidTables` at most one row matches, so the choice is immaterial (`FindByNameIsExact`). |
| StoreSchema.MaxExists | app/db/models.py:8 | Any non-empty set of keys has a greatest element. |
| StoreSchema.NewRowId | app/db/models.py:8 | An integer primary key assigned by SQLite is fresh: one more than every existing key, or 1 for an empty table. |
| StoreSchema.FindChatType | app/db/crud/chat_types.py:6-21 | TypeError iff the identifier is neither int nor str. An int is looked up by primary key. A str gives a type with that name, or None iff no type has it. |
| StoreSchema.FindNotificationType | app/db/crud/notification_types.py:6-21 | The same three cases as find_chat_type, over notification types. |
| StoreSchema.FindChat | app/db/crud/chats.py:35-50 | TypeError iff the identifier is neither int nor str. An int is looked up by primary key. A str gives the chat with that email, or None iff no chat has it. |
| StoreSchema.FindByNameIsExact | app/db/models.py:9-49 | Under the unique constraints, a lookup by name or email returns the one row that has it. |
| StoreSchema.FindAdministratorByUser | app/db/crud/administrators.py:27-38 | None for no user. Otherwise the administrator row keyed by the user's id, exactly when one exists. |
| StoreSchema.IsUserAdministrator | app/db/crud/administrators.py:41-52 | TypeError iff no user is given. Otherwise true iff find_administrator_by_user finds a row. |
| StoreSchema.FindSubscription | app/db/crud/notification_subscribers.py:71-78 | Some gives a subscription of that chat to that type; None iff there is none. |
| Store.ResolveChatType | app/db/crud/chats.py:16-26 | ValueError iff the type is None; TypeError iff it is neither an object, an int nor a str. An object gives its own id. An int or str gives the found id, and AttributeError iff nothing is found. |
| Store.InsertChatValidIff | app/db/models.py:12-17 | Adding a chat keeps the schema iff its chat type exists and its email is not yet taken. |
| Store.InsertUserValidIff | app/db/models.py:20-26 | Adding a user keeps the schema iff its chat exists and has no user yet. |
| Store.InsertGroupValidIff | app/db/models.py:29-34 | Adding a group keeps the schema iff its chat exists and has no group yet. |
| Store.InsertAdminValidIff | app/db/models.py:37-42 | Adding an administrator row for a user without one keeps the schema iff the user exists. |
| Store.InsertSubscriberValidIff | app/db/models.py:53-65 | Adding a subscription keeps the schema iff its chat and type exist and the (chat, type) pair is not yet subscribed. |
| Store.DeleteUserRowsSpec | app/db/models.py:40 | Deleting a user keeps the schema. It removes the user and that user's administrator row, and no other user or administrator row. |
| Store.DeleteGroupRowValid | app/db/models.py:29-34 | Deleting a group keeps the schema. |
| Store.CascadeDeleteChatValid | app/db/models.py:17-60 | Deleting a chat with its cascades keeps the schema. |
| Store.CascadeDeleteChatGone | app/db/models.py:17-60 | After the delete the chat is found neither by id nor by email, and no user, group or subscription refers to it. |
| Store.CascadeDeleteChatKeeps | app/db/models.py:17-60 | Every chat, user, administrator, group and subscription that did not depend on the chat is kept, and so are both type tables. |
| Store.CascadeDeleteChatSpec | app/db/models.py:17-60 | Deleting a chat keeps the schema. The chat is no longer found by id or email. No user, group or subscription refers to it. Every row that did not depend on it stays unchanged, and so do both type tables. |
| Store.UpdateUserValid | app/db/crud/users.py:37-44 | Changing a user's names keeps the schema. |
| Store.UpdateGroupValid | app/db/crud/groups.py:35-40 | Changing a group's title keeps the schema. |
| Store.CreatedChatIsFound | app/db/crud/chats.py:28-50 | A chat just created is found again by its id and by its email. |
| Store.AdministratorRoundTrip | app/db/crud/administrators.py:41-80 | After granting, is_user_administrator is true; after withdrawing, it is false. |
| Store.AddedSubscriptionIsFound | app/db/crud/notification_subscribers.py:27-37 | A subscription just added is the one found for its (chat, type) pair. |
| Store.RemovedSubscriptionIsGone | app/db/crud/notification_subscribers.py:71-83 | Removing the subscription found for a pair keeps the schema. Afterwards no subscription for that pair remains, and every other subscription stays unchanged. |
| Store.Database.CreateChat | app/db/crud/chats.py:7-32 | A failed type resolution raises its error and changes nothing. An email in use raises IntegrityError and changes nothing. Otherwise exactly one chat is added under a fresh id, with the email and the resolved type. |
| Store.Database.DeleteChat | app/db/crud/chats.py:53-69 | TypeError for a bad identifier, False with no change when no chat matches. Otherwise True, and the chat and everything depending on it are removed. |
| Store.Database.CreateUser | app/db/crud/users.py:7-24 | ValueError for no chat. IntegrityError with no change when the chat already has a user. Otherwise exactly one user is added, with the chat id and both names. |
| Store.Database.UpdateUser | app/db/crud/users.py:27-44 | Exactly the names passed as non-None are replaced, and the user stays in the same chat. Nothing else changes. |
| Store.Database.DeleteUser | app/db/crud/users.py:47-65 | False with no change for no user. Otherwise True, and the user and its administrator row are removed. With delete_chat, its chat is then deleted with all its cascades. |
| Store.Database.CreateGroup | app/db/crud/groups.py:7-23 | ValueError for no chat. IntegrityError with no change when the chat already has a group. Otherwise exactly one group is added, with the chat id and title. |
| Store.Database.UpdateGroup | app/db/crud/groups.py:26-40 | The title is replaced only when one is given, and the group keeps its chat. Nothing else changes. |
| Store.Database.DeleteGroup | app/db/crud/groups.py:43-62 | False with no change for no group. Otherwise True and the group is removed. With delete_chat its chat is also deleted with all its cascades. |
| Store.Database.CreateAdministrator | app/db/crud/administrators.py:7-24 | ValueError for no user. IntegrityError with no change when the user is already an administrator. Otherwise one row is added, keyed by the user's id, with granted_by and granted_at. |
| Store.Database.DeleteAdministrator | app/db/crud/administrators.py:55-68 | False with no change for no row. Otherwise True, and exactly that row is removed. |
| Store.Database.DeleteAdministratorByUser | app/db/crud/administrators.py:71-80 | True iff the user is given and is an administrator; then exactly its row is removed, else nothing changes. |
| Store.Database.AddNotificationSubscriber | app/db/crud/notification_subscribers.py:8-37 | ValueError for no type, then AttributeError for no chat. IntegrityError with no change when the pair is already subscribed. Otherwise exactly one row is added, with the chat, type, granted_by and granted_at. |
| Store.Database.DeleteNotificationsSubscriber | app/db/crud/notification_subscribers.py:40-53 | False with no change for no row. Otherwise True, and exactly that row is removed. |
| Store.Database.DeleteNotificationSubscriberByData | app/db/crud/notification_subscribers.py:56-83 | ValueError for no type, checked before the chat. False with no change for no chat or no matching row. Otherwise True, and exactly the matching row is removed. |

## Left out

- Sessions, the SQL engine, `db.refresh` and lazy loading are not modelled. A commit is one atomic map update. After a failed commit the session would need a rollback; the model just leaves the tables as they were.
- StoreSchema.FirstWhere: the source's `.filter(...).first()` has no `order_by`, so which of several matching rows it returns is unspecified. The model returns the least key. In a store that satisfies `ValidTables`, every lookup through it (type name, chat email, subscription pair) matches at most one row, so the choice changes no result.
- A duplicate administrator is modelled as `IntegrityError`. When the existing row is already loaded in the session, SQLAlchemy can report the identity clash as a flush error instead.
- The chat-type and notification-type tables are given when the `Database` is constructed. The core has no operation that creates or deletes them, so their `ON DELETE CASCADE` into chats and subscribers is not exercised.
- An ORM object argument is its primary key, and the store must already hold that object. Detached or unsaved objects are not modelled.
- A Python `bool` passed as a store identifier is not modelled (Python treats it as an int). Identifiers of any other type are one `OtherIdent` case.
- Timestamps are plain integers. Nothing in the core computes with them.
- `repr` and `str` of values are parameters of the record formatter. The exact text Python prints for each value type is not modelled.
- In the record formatter, SQLAlchemy's `inspect` is replaced by the record's list of columns and relationships. `InstrumentedAttribute`, `Column` and str field specs are kept only as the name they contribute.
- `find_config_model_format` is not defined in `app/utils/db_records_format.py`, so it is not part of this model. `MODEL_FORMATS` page sizes are display settings and are left out.
- The filter compares values structurally, with `True == 1` and `False == 0`. Floats, and equality between a bool and an int nested inside a list or dict, are not modelled.
- `ChatType.PRIVATE`'s string value is defined outside the core, so `ChatFilter.SingleTypeDecision` is stated for any single string type.
- `TextFormat.SplitText`: calls with a negative length, or a length of 0 on non-empty text, do not terminate in the source and are excluded by the precondition.
- `JsonFormat.FormatJsonToStr`: a scalar is its `str()` text given as a string. Python's rendering of numbers, booleans and `None` is not modelled.
- `app/db/crud/universal.py` is not part of this model. Its shown functions only pass through to SQLAlchemy queries.
- Bot handlers, message fan-out, the executor pool, configuration, logging and the web server are I/O or concurrency and are not modelled.
