/** The chat-type event filter (app/core/bot_extensions/filter.py). */
module ChatFilter {
  import opened Errors

  /** A value decoded from an event's JSON payload. */
  datatype PyVal =
    | PNone
    | PBool(b: bool)
    | PInt(i: int)
    | PStr(s: string)
    | PList(items: seq<PyVal>)
    | PDict(entries: map<string, PyVal>)

  /** Python truthiness. */
  predicate Truthy(v: PyVal)
  {
    match v
    case PNone => false
    case PBool(b) => b
    case PInt(i) => i != 0
    case PStr(s) => s != ""
    case PList(items) => items != []
    case PDict(entries) => entries != map[]
  }

  /** The integer a bool or an int compares equal to. */
  function NumericValue(v: PyVal): Option<int>
  {
    match v
    case PBool(b) => Some(if b then 1 else 0)
    case PInt(i) => Some(i)
    case _ => None
  }

  /** `a == b`: a bool equals the int 0 or 1, otherwise values must be equal. */
  predicate PyEq(a: PyVal, b: PyVal)
  {
    if NumericValue(a).Some? && NumericValue(b).Some? then NumericValue(a) == NumericValue(b) else a == b
  }

  /** `sub` occurs in `s` starting at position `i`. */
  predicate OccursAt(s: string, sub: string, i: int)
  {
    0 <= i <= |s| - |sub| && s[i..i + |sub|] == sub
  }

  /** `sub in s` on strings: `sub` occurs in `s` as a contiguous piece. */
  function Contains(s: string, sub: string): (r: bool)
    ensures r <==> exists i :: OccursAt(s, sub, i)
    decreases |s|
  {
    if |s| < |sub| then false
    else if s[..|sub|] == sub then (assert OccursAt(s, sub, 0); true)
    else
      var r := Contains(s[1..], sub);
      assert forall i :: OccursAt(s[1..], sub, i) ==> OccursAt(s, sub, i + 1) by {
        forall i | OccursAt(s[1..], sub, i) ensures OccursAt(s, sub, i + 1) {
          assert s[1..][i..i + |sub|] == s[i + 1..i + 1 + |sub|];
        }
      }
      assert forall j :: OccursAt(s, sub, j) ==> OccursAt(s[1..], sub, j - 1) by {
        forall j | OccursAt(s, sub, j) ensures OccursAt(s[1..], sub, j - 1) {
          assert j != 0;
          assert s[1..][j - 1..j - 1 + |sub|] == s[j..j + |sub|];
        }
      }
      r
  }

  /** `key in v`: a substring test on a str, an element test on a list, a
      key test on a dict; an int or a bool cannot be searched. */
  function HasKey(v: PyVal, key: string): Result<bool>
  {
    match v
    case PNone => Err(TypeError)
    case PBool(_) => Err(TypeError)
    case PInt(_) => Err(TypeError)
    case PStr(s) => Ok(Contains(s, key))
    case PList(items) => Ok(PStr(key) in items)
    case PDict(entries) => Ok(key in entries)
  }

  /** The `data` of a bot event. */
  datatype Event = Event(data: map<string, PyVal>)

  /** A filter built from the chat types it lets through. */
  datatype ChatTypeFilter = ChatTypeFilter(chatTypes: seq<PyVal>) {

    /** `chat["type"] in self.chat_types`. */
    predicate Accepts(t: PyVal)
    {
      exists i :: 0 <= i < |chatTypes| && PyEq(chatTypes[i], t)
    }

    /** filter(event): False for a missing or falsy chat or one without
        "type", otherwise whether its type is one of the configured ones.
        Searching or indexing a chat that is not a dict raises TypeError. */
    function Filter(event: Event): (r: Result<bool>)
      ensures r == Ok(true) ==>
                "chat" in event.data && event.data["chat"].PDict? && "type" in event.data["chat"].entries
                && Accepts(event.data["chat"].entries["type"])
      ensures r.Err? ==> r.error == TypeError && "chat" in event.data && !event.data["chat"].PDict?
    {
      var chat := if "chat" in event.data then event.data["chat"] else PNone;
      if !Truthy(chat) then Ok(false)
      else
        match HasKey(chat, "type")
        case Err(e) => Err(e)
        case Ok(false) => Ok(false)
        case Ok(true) =>
          if chat.PDict? then Ok(Accepts(chat.entries["type"]))
          else Err(TypeError)  // str and list indices must be integers
    }
  }

  /** An event without a chat, or with a falsy one, is rejected. */
  lemma MissingChatRejected(f: ChatTypeFilter, event: Event)
    requires "chat" !in event.data || !Truthy(event.data["chat"])
    ensures f.Filter(event) == Ok(false)
  {
  }

  /** A chat that is a dict without a "type" key is rejected. */
  lemma UntypedChatRejected(f: ChatTypeFilter, event: Event)
    requires "chat" in event.data && event.data["chat"].PDict? && "type" !in event.data["chat"].entries
    ensures f.Filter(event) == Ok(false)
  {
  }

  /** For a chat given as a dict the filter never raises, and it accepts
      exactly when the chat has a type that is one of the configured ones. */
  lemma DictChatDecision(f: ChatTypeFilter, event: Event)
    requires "chat" in event.data && event.data["chat"].PDict?
    ensures f.Filter(event).Ok?
    ensures f.Filter(event).value <==>
              "type" in event.data["chat"].entries && f.Accepts(event.data["chat"].entries["type"])
  {
  }

  /** A truthy int or bool chat, and a str or list chat that contains
      "type", raise TypeError. */
  lemma NonDictChatRaises(f: ChatTypeFilter, event: Event)
    requires "chat" in event.data && Truthy(event.data["chat"])
    requires match event.data["chat"]
             case PBool(_) => true
             case PInt(_) => true
             case PStr(s) => Contains(s, "type")
             case PList(items) => PStr("type") in items
             case _ => false
    ensures f.Filter(event) == Err(TypeError)
  {
  }

  /** A filter constructed with no chat types accepts no event. */
  lemma EmptyFilterRejectsAll(event: Event)
    ensures ChatTypeFilter([]).Filter(event) != Ok(true)
  {
  }

  /** A filter for one string type, as the bot installs for private
      chats, accepts a dict chat exactly when its type is that string. */
  lemma SingleTypeDecision(event: Event, c: string, t: string)
    requires "chat" in event.data && event.data["chat"].PDict?
    requires "type" in event.data["chat"].entries && event.data["chat"].entries["type"] == PStr(t)
    ensures ChatTypeFilter([PStr(c)]).Filter(event) == Ok(t == c)
  {
    var f := ChatTypeFilter([PStr(c)]);
    if t == c {
      assert PyEq(f.chatTypes[0], PStr(t));
    }
  }
}
