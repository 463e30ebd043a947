/**
 * `TelegramJsonParser` of `lib/services/telegramJsonParser.ts`: validation of
 * a Telegram chat export, the reading of one exported message, the pass over
 * all messages that tallies authors, and the bot test.
 *
 * `JSON.parse` is outside the model: `Validate` receives its outcome, and
 * `ParseExport` receives the export already parsed. Turning a date string
 * into a time value is a parameter (`dateOf`, milliseconds since the epoch,
 * `None` for an Invalid Date).
 */
module TelegramJsonParser {
  import opened Wrappers
  import opened Text
  import opened JsValues

  // ---------------------------------------------------------------- validate

  datatype Validation = Validation(valid: bool, error: Option<string>)

  const RootError := "Invalid JSON: root must be an object"
  const NameError := "Invalid JSON: missing or invalid \"name\" field"
  const MessagesError := "Invalid JSON: missing or invalid \"messages\" array"
  const EmptyError := "Invalid JSON: empty messages array"
  const FirstMessageError := "Invalid JSON: messages must have \"id\" and \"date\""

  /** The shape `validate` accepts: an object with a non-empty string name and a non-empty messages array whose first entry has an id and a date. */
  predicate AcceptedExport(data: JsValue) {
    Truthy(data) && IsObjectType(data)
    && Get(data, "name").Str? && Get(data, "name").s != []
    && Get(data, "messages").Arr? && |Get(data, "messages").items| > 0
    && !IsNullish(Get(data, "messages").items[0])
    && Truthy(Get(Get(data, "messages").items[0], "id"))
    && Truthy(Get(Get(data, "messages").items[0], "date"))
  }

  /**
   * `validate`, given what `JSON.parse` made of the content: the parsed value,
   * or the message of the error it threw.
   */
  function Validate(parsed: Result<JsValue, string>): (r: Validation)
    ensures r.valid <==> r.error.None?
    ensures r.valid <==> parsed.Ok? && AcceptedExport(parsed.value)
    ensures parsed.Err? ==> r.error == Some("JSON parse error: " + parsed.error)
    ensures parsed.Ok? && !(Truthy(parsed.value) && IsObjectType(parsed.value)) ==> r.error == Some(RootError)
    ensures (parsed.Ok? && Truthy(parsed.value) && IsObjectType(parsed.value) && !Get(parsed.value, "messages").Arr?
             && Get(parsed.value, "name").Str? && Get(parsed.value, "name").s != []) ==> r.error == Some(MessagesError)
  {
    if parsed.Err? then Validation(false, Some("JSON parse error: " + parsed.error))
    else
      var data := parsed.value;
      if !Truthy(data) || !IsObjectType(data) then Validation(false, Some(RootError))
      else
        var name := Get(data, "name");
        if !Truthy(name) || !name.Str? then Validation(false, Some(NameError))
        else
          var messages := Get(data, "messages");
          if !Truthy(messages) || !messages.Arr? then Validation(false, Some(MessagesError))
          else if |messages.items| == 0 then Validation(false, Some(EmptyError))
          else
            var first := messages.items[0];
            // reading `.id` of a null first message throws a TypeError, caught as a parse error
            if first.Null? then Validation(false, Some("JSON parse error: Cannot read properties of null (reading 'id')"))
            else if first.Undefined? then Validation(false, Some("JSON parse error: Cannot read properties of undefined (reading 'id')"))
            else if !Truthy(Get(first, "id")) || !Truthy(Get(first, "date")) then Validation(false, Some(FirstMessageError))
            else Validation(true, None)
  }

  // ---------------------------------------------------------------- from_id

  /** The regular expression `word(\d+)` matches at `j`. */
  predicate WordThenDigit(s: string, word: string, j: int) {
    OccursAt(s, word, j) && j + |word| < |s| && IsDigit(s[j + |word|])
  }

  /** The leftmost match of `word(\d+)` from `j` on, if any. */
  function FirstWordThenDigit(s: string, word: string, j: nat): (r: Option<nat>)
    ensures r.Some? ==> j <= r.value && WordThenDigit(s, word, r.value)
    ensures r.None? ==> forall k :: j <= k ==> !WordThenDigit(s, word, k)
    decreases |s| - j
  {
    if j >= |s| then None
    else if WordThenDigit(s, word, j) then Some(j)
    else FirstWordThenDigit(s, word, j + 1)
  }

  /** `parseInt(match[1], 10)` for the digits the leftmost match of `word(\d+)` captured. */
  function CapturedNumber(s: string, word: string): Option<nat> {
    var m := FirstWordThenDigit(s, word, 0);
    if m.Some? then Some(DigitsValue(LeadingDigits(s[m.value + |word|..]))) else None
  }

  /** The author id a `from_id` string gives: `userN` is N, else `channelN` is -N. */
  function AuthorId(fromId: string): Option<int> {
    var user := CapturedNumber(fromId, "user");
    if user.Some? then Some(user.value as int)
    else
      var channel := CapturedNumber(fromId, "channel");
      if channel.Some? then Some(-(channel.value as int)) else None
  }

  predicate AllDigits(d: string) {
    forall k :: 0 <= k < |d| ==> IsDigit(d[k])
  }

  /** `"user" + digits` gives the number the digits spell. */
  lemma UserFromId(d: string)
    requires d != [] && AllDigits(d)
    ensures AuthorId("user" + d) == Some(DigitsValue(d))
  {
    var s := "user" + d;
    assert s[0..4] == "user";
    assert WordThenDigit(s, "user", 0);
    assert s[4..] == d;
    LeadingDigitsAll(d);
  }

  /** `"channel" + digits` gives minus the number the digits spell. */
  lemma ChannelFromId(d: string)
    requires d != [] && AllDigits(d)
    ensures AuthorId("channel" + d) == Some(-(DigitsValue(d) as int))
  {
    var s := "channel" + d;
    NoUserInChannel(d);
    assert CapturedNumber(s, "user") == None;
    ChannelCaptured(d);
  }

  /** `"channel" + digits` holds no `u`, so no `user`. */
  lemma NoUserInChannel(d: string)
    requires AllDigits(d)
    ensures forall k :: !WordThenDigit("channel" + d, "user", k)
  {
    var s := "channel" + d;
    forall k | 0 <= k < |s|
      ensures s[k] != 'u'
    {
      if k < 7 {
        assert s[k] == "channel"[k];
      } else {
        assert s[k] == d[k - 7];
      }
    }
    forall k
      ensures !OccursAt(s, "user", k)
    {
      if 0 <= k && k + 4 <= |s| {
        assert s[k..k + 4][0] == s[k];
      }
    }
  }

  /** The `channel(\d+)` match of `"channel" + digits` captures the digits. */
  lemma ChannelCaptured(d: string)
    requires d != [] && AllDigits(d)
    ensures CapturedNumber("channel" + d, "channel") == Some(DigitsValue(d))
  {
    var s := "channel" + d;
    assert s[0..7] == "channel";
    assert WordThenDigit(s, "channel", 0);
    assert s[7..] == d;
    LeadingDigitsAll(d);
  }

  /** A `from_id` in which neither word is followed by a digit gives no id. */
  lemma OtherFromId(s: string)
    requires forall k :: !WordThenDigit(s, "user", k) && !WordThenDigit(s, "channel", k)
    ensures AuthorId(s) == None
  {
  }

  // ---------------------------------------------------------------- parseMessage

  /**
   * A parsed message. `authorName` is `msg.from || 'Unknown'`, which keeps a
   * truthy value of any type. `origin` is the message's position in the
   * export; it stands for the identity of the message's own `from` object,
   * which a `Map` compares by reference.
   */
  datatype ParsedMessage = ParsedMessage(
    authorName: JsValue,
    authorUserId: Option<int>,
    authorUsername: Option<string>,
    text: string,
    timestamp: int,
    messageId: JsValue,
    replyTo: JsValue,
    charCount: nat,
    linksCount: nat,
    mentionsCount: nat,
    origin: nat)

  /** The largest time value a `Date` holds, in milliseconds. */
  const MaxTimeValue := 8_640_000_000_000_000

  /** A date string with no `Z`, no `+` and no `-` from index 10 on is read as UTC. */
  predicate WithoutZone(date: string) {
    !Contains(date, "Z") && !Contains(date, "+") && IndexOf(date, "-", 10) == -1
  }

  /** The time value of `msg.date`: a string through `dateOf` (a `Z` appended when it has no zone), seconds times 1000. */
  function Timestamp(date: JsValue, dateOf: string -> Option<int>): Option<int> {
    match date
    case Str(s) => dateOf(if WithoutZone(s) then s + "Z" else s)
    case Num(n) => if -MaxTimeValue <= n * 1000 <= MaxTimeValue then Some(n * 1000) else None
    case _ => None
  }

  /**
   * `entity.text || ''` for one element of a text array, as `join('')` turns
   * it into a string; `None` when the element is null and reading it throws.
   */
  function EntityText(e: JsValue): (r: Option<string>)
    ensures r.None? <==> IsNullish(e)
    ensures r.Some? && !Truthy(Get(e, "text")) ==> r.value == ""
    ensures r.Some? && Get(e, "text").Str? ==> r.value == Get(e, "text").s
  {
    if IsNullish(e) then None
    else
      var t := Get(e, "text");
      if !Truthy(t) then Some("") else Some(ToStr(t))
  }

  /** An array `text` of an entity is joined with commas, as `String` of an array is. */
  lemma EntityArrayText(a: string, b: string)
    ensures EntityText(Obj([("text", Arr([Str(a), Str(b)]))])) == Some(a + "," + b)
  {
    var items := [Str(a), Str(b)];
    assert items[1..] == [Str(b)];
    assert ToStr(Str(b)) == b && JoinItems([Str(b)]) == b;
    assert ToStr(Str(a)) == a && !IsNullish(Str(a));
    assert JoinItems(items) == a + "," + JoinItems([Str(b)]);
    assert Get(Obj([("text", Arr(items))]), "text") == Arr(items);
  }

  /** `entities.map(entity => entity.text || '').join('')`. */
  function EntitiesText(es: seq<JsValue>): Option<string> {
    if es == [] then Some("")
    else
      var head := EntityText(es[0]);
      var rest := EntitiesText(es[1..]);
      if head.Some? && rest.Some? then Some(head.value + rest.value) else None
  }

  /** The raw text of a message: the `text` string, else the `text` array, else the `text_entities` array, else "". */
  function RawText(msg: JsValue): Option<string> {
    var t := Get(msg, "text");
    if t.Str? then Some(t.s)
    else if t.Arr? then EntitiesText(t.items)
    else
      var te := Get(msg, "text_entities");
      if te.Arr? then EntitiesText(te.items) else Some("")
  }

  /** `\w`: ASCII letters, digits and the underscore. */
  predicate IsWordChar(c: char) {
    ('a' <= c <= 'z') || ('A' <= c <= 'Z') || IsDigit(c) || c == '_'
  }

  /** The first index from `j` that is not a word character. */
  function WordEnd(s: string, j: nat): (e: nat)
    requires j <= |s|
    ensures j <= e <= |s|
    decreases |s| - j
  {
    if j == |s| || !IsWordChar(s[j]) then j else WordEnd(s, j + 1)
  }

  /** The first index from `j` that is white space. */
  function SpaceEnd(s: string, j: nat): (e: nat)
    requires j <= |s|
    ensures j <= e <= |s|
    decreases |s| - j
  {
    if j == |s| || IsSpace(s[j]) then j else SpaceEnd(s, j + 1)
  }

  /** The number of matches of the global regular expression `@\w+` from `j` on. */
  function CountMentions(s: string, j: nat): nat
    decreases |s| - j
  {
    if j + 1 >= |s| then 0
    else if s[j] == '@' && IsWordChar(s[j + 1]) then 1 + CountMentions(s, WordEnd(s, j + 1))
    else CountMentions(s, j + 1)
  }

  /** Where a match of `https?:\/\/[^\s]+` starting at `j` ends, or `j` when none starts there. */
  function LinkEnd(s: string, j: nat): (e: nat)
    requires j <= |s|
    ensures e == j || j + 8 <= e <= |s|
  {
    var p := if OccursAt(s, "https://", j) then 8 else if OccursAt(s, "http://", j) then 7 else 0;
    if p > 0 && j + p < |s| && !IsSpace(s[j + p]) then SpaceEnd(s, j + p + 1) else j
  }

  /** The number of matches of the global regular expression `https?:\/\/[^\s]+` from `j` on. */
  function CountLinks(s: string, j: nat): nat
    requires j <= |s|
    decreases |s| - j
  {
    if j == |s| then 0
    else
      var e := LinkEnd(s, j);
      if e > j then 1 + CountLinks(s, e) else CountLinks(s, j + 1)
  }

  /**
   * `parseMessage` of the message at position `origin`: `None` for a service
   * message, an invalid date, an empty text, and for the inputs on which it
   * throws (a null message, a `from_id` that is not a string, a null text
   * entity). `parse` catches the throw and skips the message, except for a
   * null message, whose catch block throws again (see `ParseExport`).
   */
  function ParseMessage(msg: JsValue, origin: nat, dateOf: string -> Option<int>): (r: Option<ParsedMessage>)
    ensures r.Some? ==> Get(msg, "type") == Str("message")
    ensures r.Some? ==> r.value.text != [] && Trim(r.value.text) == r.value.text
    ensures r.Some? ==> r.value.charCount == |r.value.text|
    ensures r.Some? ==> r.value.authorName == (if Truthy(Get(msg, "from")) then Get(msg, "from") else Str("Unknown"))
    ensures r.Some? ==> r.value.origin == origin && r.value.messageId == Get(msg, "id")
    ensures Truthy(Get(msg, "from_id")) && !Get(msg, "from_id").Str? ==> r.None?
    ensures r.Some? && Truthy(Get(msg, "from_id")) ==> r.value.authorUserId == AuthorId(Get(msg, "from_id").s)
    ensures r.Some? && !Truthy(Get(msg, "from_id")) ==> r.value.authorUserId.None?
    ensures r.Some? ==> Timestamp(Get(msg, "date"), dateOf) == Some(r.value.timestamp)
    ensures r.Some? ==> RawText(msg).Some? && r.value.text == Trim(RawText(msg).value)
  {
    if IsNullish(msg) || Get(msg, "type") != Str("message") then None
    else
      var from := Get(msg, "from");
      var authorName := if Truthy(from) then from else Str("Unknown");
      var fromId := Get(msg, "from_id");
      if Truthy(fromId) && !fromId.Str? then None
      else
        var authorUserId := if Truthy(fromId) then AuthorId(fromId.s) else None;
        var timestamp := Timestamp(Get(msg, "date"), dateOf);
        var raw := RawText(msg);
        if timestamp.None? || raw.None? then None
        else
          var text := Trim(raw.value);
          if text == [] then None
          else
            TrimIdempotent(raw.value);
            Some(ParsedMessage(authorName, authorUserId, None, text, timestamp.value,
                               Get(msg, "id"), Get(msg, "reply_to_message_id"), |text|,
                               CountLinks(text, 0), CountMentions(text, 0), origin))
  }

  /** A message whose trimmed text is empty is skipped. */
  lemma BlankMessageSkipped(msg: JsValue, origin: nat, dateOf: string -> Option<int>)
    requires RawText(msg).Some? && forall k :: 0 <= k < |RawText(msg).value| ==> IsSpace(RawText(msg).value[k])
    ensures ParseMessage(msg, origin, dateOf) == None
  {
    TrimEmptyIff(RawText(msg).value);
  }

  // ---------------------------------------------------------------- parse

  datatype Author = Author(
    name: JsValue,
    userId: Option<int>,
    username: Option<string>,
    messageCount: nat,
    firstMessageDate: int,
    lastMessageDate: int)

  /**
   * The exported chat: `name`, `type` and `id` are passed through as the JSON
   * holds them (`Undefined` when missing); `messages` is the array iterated.
   */
  datatype Export = Export(name: JsValue, chatType: JsValue, id: JsValue, messages: seq<JsValue>)

  /**
   * A key of a JavaScript `Map`: `null`, `undefined`, booleans, numbers and
   * strings by value, an object or array by identity (here, the position of
   * the message it came from).
   */
  datatype MapKey = UndefinedKey | NullKey | BoolKey(b: bool) | NumKey(n: int) | StrKey(s: string) | ObjectKey(origin: nat)

  /** The `Map` key a value of the message at position `origin` makes. */
  function KeyOf(v: JsValue, origin: nat): MapKey {
    match v
    case Undefined => UndefinedKey
    case Null => NullKey
    case Bool(b) => BoolKey(b)
    case Num(n) => NumKey(n)
    case Str(s) => StrKey(s)
    case _ => ObjectKey(origin)
  }

  /** The authors map: its entries, and its keys in insertion order (the order `Map` iterates in). */
  datatype Tally = Tally(authors: map<MapKey, Author>, order: seq<MapKey>)

  datatype ParseResult = ParseResult(
    messages: seq<ParsedMessage>,
    tally: Tally,
    chatId: JsValue,
    dateStart: int,
    dateEnd: int,
    totalMessages: nat,
    uniqueAuthors: nat,
    chatName: JsValue,
    chatType: JsValue)

  /** `user_<id>` for a non-zero author id, else the username, else the author name as it is. */
  function AuthorKey(m: ParsedMessage): MapKey {
    if m.authorUserId.Some? && m.authorUserId.value != 0 then StrKey("user_" + IntToString(m.authorUserId.value))
    else if m.authorUsername.Some? && m.authorUsername.value != [] then StrKey(m.authorUsername.value)
    else KeyOf(m.authorName, m.origin)
  }

  /** Two messages without an author id whose `from` is an object or an array are two authors, as `Map` keys objects by identity. */
  lemma ObjectAuthorsApart(m1: ParsedMessage, m2: ParsedMessage)
    requires m1.authorUserId.None? && m2.authorUserId.None? && m1.authorUsername.None? && m2.authorUsername.None?
    requires (m1.authorName.Obj? || m1.authorName.Arr?) && (m2.authorName.Obj? || m2.authorName.Arr?)
    requires m1.origin != m2.origin
    ensures AuthorKey(m1) != AuthorKey(m2)
  {
  }

  /** A number `from` is a key of its own, apart from the string of its digits. */
  lemma NumberAuthorKey(m: ParsedMessage, n: int)
    requires m.authorUserId.None? && m.authorUsername.None? && m.authorName == Num(n)
    ensures AuthorKey(m) == NumKey(n) && AuthorKey(m) != StrKey(IntToString(n))
  {
  }

  /** The author statistics after one more message. */
  function AddMessage(t: Tally, m: ParsedMessage): Tally {
    var key := AuthorKey(m);
    if key in t.authors then
      var a := t.authors[key];
      Tally(t.authors[key := a.(messageCount := a.messageCount + 1,
                                firstMessageDate := if m.timestamp < a.firstMessageDate then m.timestamp else a.firstMessageDate,
                                lastMessageDate := if m.timestamp > a.lastMessageDate then m.timestamp else a.lastMessageDate)],
            t.order)
    else
      Tally(t.authors[key := Author(m.authorName, m.authorUserId, m.authorUsername, 1, m.timestamp, m.timestamp)],
            t.order + [key])
  }

  /** The statistics of a list of parsed messages, folded from the first. */
  function TallyOf(ms: seq<ParsedMessage>): Tally {
    if ms == [] then Tally(map[], []) else AddMessage(TallyOf(ms[..|ms| - 1]), ms[|ms| - 1])
  }

  /** The messages `parse` keeps, in export order. */
  function Kept(msgs: seq<JsValue>, dateOf: string -> Option<int>): seq<ParsedMessage> {
    if msgs == [] then []
    else
      var p := ParseMessage(msgs[|msgs| - 1], |msgs| - 1, dateOf);
      Kept(msgs[..|msgs| - 1], dateOf) + (if p.Some? then [p.value] else [])
  }

  /** The messages among `ms` with author key `key`. */
  function CountKey(ms: seq<ParsedMessage>, key: MapKey): nat {
    if ms == [] then 0 else CountKey(ms[..|ms| - 1], key) + (if AuthorKey(ms[|ms| - 1]) == key then 1 else 0)
  }

  /** The smallest and the largest time value of a non-empty list. */
  function MinStamp(ms: seq<ParsedMessage>): int
    requires ms != []
  {
    if |ms| == 1 then ms[0].timestamp
    else
      var m := MinStamp(ms[..|ms| - 1]);
      if ms[|ms| - 1].timestamp < m then ms[|ms| - 1].timestamp else m
  }

  function MaxStamp(ms: seq<ParsedMessage>): int
    requires ms != []
  {
    if |ms| == 1 then ms[0].timestamp
    else
      var m := MaxStamp(ms[..|ms| - 1]);
      if ms[|ms| - 1].timestamp > m then ms[|ms| - 1].timestamp else m
  }

  predicate NoDuplicateKeys(order: seq<MapKey>) {
    forall i, j :: 0 <= i < j < |order| ==> order[i] != order[j]
  }

  /** The author-statistics update in the body of `parse`'s loop. */
  method RecordAuthor(authors: map<MapKey, Author>, order: seq<MapKey>, m: ParsedMessage)
    returns (authors': map<MapKey, Author>, order': seq<MapKey>)
    ensures Tally(authors', order') == AddMessage(Tally(authors, order), m)
  {
    var key := AuthorKey(m);
    order' := order;
    if key in authors {
      var a := authors[key];
      var first := a.firstMessageDate;
      var last := a.lastMessageDate;
      if m.timestamp < first {
        first := m.timestamp;
      }
      if m.timestamp > last {
        last := m.timestamp;
      }
      authors' := authors[key := a.(messageCount := a.messageCount + 1, firstMessageDate := first, lastMessageDate := last)];
    } else {
      authors' := authors[key := Author(m.authorName, m.authorUserId, m.authorUsername, 1, m.timestamp, m.timestamp)];
      order' := order + [key];
    }
  }

  /** The TypeError of reading `msg.id` in the catch block of `parse`, for a null or undefined message. */
  function IdReadError(msg: JsValue): string {
    if msg.Null? then "Cannot read properties of null (reading 'id')"
    else "Cannot read properties of undefined (reading 'id')"
  }

  /** No entry before `n` is null or undefined. */
  predicate NoNullishBefore(msgs: seq<JsValue>, n: int) {
    forall k :: 0 <= k < n && k < |msgs| ==> !IsNullish(msgs[k])
  }

  /**
   * `parse`: the loop over the exported messages, pushing each kept message
   * and updating the authors map. The date range is the first and last of the
   * sorted time values, or `now` when no message was kept. A null entry makes
   * `parseMessage` throw, and the catch block throws again when it reads
   * `msg.id` of it, so the first such entry ends `parse` with that TypeError.
   */
  method ParseExport(data: Export, dateOf: string -> Option<int>, now: int) returns (result: Result<ParseResult, string>)
    ensures result.Err? <==> exists k :: 0 <= k < |data.messages| && IsNullish(data.messages[k])
    ensures result.Err? ==> exists k :: 0 <= k < |data.messages| && IsNullish(data.messages[k])
                                        && NoNullishBefore(data.messages, k) && result.error == IdReadError(data.messages[k])
    ensures result.Ok? ==> var r := result.value;
      && r.messages == Kept(data.messages, dateOf)
      && r.tally == TallyOf(r.messages)
      && r.totalMessages == |r.messages| && r.uniqueAuthors == |r.tally.authors|
      && (r.messages == [] ==> r.dateStart == now && r.dateEnd == now)
      && (r.messages != [] ==> r.dateStart == MinStamp(r.messages) && r.dateEnd == MaxStamp(r.messages))
      && r.chatId == data.id && r.chatName == data.name && r.chatType == data.chatType
  {
    var messages: seq<ParsedMessage> := [];
    var authors: map<MapKey, Author> := map[];
    var order: seq<MapKey> := [];
    var i := 0;
    while i < |data.messages|
      invariant i <= |data.messages|
      invariant NoNullishBefore(data.messages, i)
      invariant messages == Kept(data.messages[..i], dateOf)
      invariant Tally(authors, order) == TallyOf(messages)
    {
      if IsNullish(data.messages[i]) {
        return Err(IdReadError(data.messages[i]));
      }
      NoNullishStep(data.messages, i);
      KeptStep(data.messages, i, dateOf);
      var parsed := ParseMessage(data.messages[i], i, dateOf);
      if parsed.Some? {
        var m := parsed.value;
        TallyStep(messages, m);
        messages := messages + [m];
        authors, order := RecordAuthor(authors, order, m);
      }
      i := i + 1;
    }
    assert data.messages[..i] == data.messages;
    var start := now;
    var end := now;
    if messages != [] {
      start := MinStamp(messages);
      end := MaxStamp(messages);
    }
    result := Ok(ParseResult(messages, Tally(authors, order), data.id, start, end, |messages|, |authors|, data.name, data.chatType));
  }

  lemma NoNullishStep(msgs: seq<JsValue>, i: nat)
    requires i < |msgs| && NoNullishBefore(msgs, i) && !IsNullish(msgs[i])
    ensures NoNullishBefore(msgs, i + 1)
  {
  }

  /** One more exported message extends the kept list by its parse, if any. */
  lemma KeptStep(msgs: seq<JsValue>, i: nat, dateOf: string -> Option<int>)
    requires i < |msgs|
    ensures var p := ParseMessage(msgs[i], i, dateOf);
      Kept(msgs[..i + 1], dateOf) == Kept(msgs[..i], dateOf) + (if p.Some? then [p.value] else [])
  {
    assert msgs[..i + 1][..i] == msgs[..i];
  }

  /** One more kept message updates the statistics by `AddMessage`. */
  lemma TallyStep(ms: seq<ParsedMessage>, m: ParsedMessage)
    ensures TallyOf(ms + [m]) == AddMessage(TallyOf(ms), m)
  {
    assert (ms + [m])[..|ms|] == ms;
  }

  /**
   * The authors map has one entry per distinct author key of the messages,
   * in first-appearance order, and each entry counts that author's messages
   * and holds the earliest and latest of their time values.
   */
  lemma {:induction false} TallyCounts(ms: seq<ParsedMessage>)
    ensures var t := TallyOf(ms);
      NoDuplicateKeys(t.order)
      && (forall k :: k in t.authors <==> k in t.order)
      && (forall k :: k in t.authors <==> CountKey(ms, k) > 0)
      && (forall k :: k in t.authors ==> t.authors[k].messageCount == CountKey(ms, k))
  {
    if ms != [] {
      var init := ms[..|ms| - 1];
      TallyCounts(init);
    }
  }

  /** Each author's first and last dates bound all their messages' time values and are among them. */
  lemma {:induction false} TallyDates(ms: seq<ParsedMessage>, key: MapKey)
    requires key in TallyOf(ms).authors
    ensures var a := TallyOf(ms).authors[key];
      DatesWithin(ms, key, a.firstMessageDate, a.lastMessageDate)
      && DateOf(ms, key, a.firstMessageDate) && DateOf(ms, key, a.lastMessageDate)
  {
    var init := ms[..|ms| - 1];
    var m := ms[|ms| - 1];
    var a := TallyOf(ms).authors[key];
    AuthorStep(ms, key);
    if key in TallyOf(init).authors {
      TallyDates(init, key);
      var b := TallyOf(init).authors[key];
      DatesWithinGrow(ms, key, b.firstMessageDate, b.lastMessageDate, a.firstMessageDate, a.lastMessageDate);
      DateOfGrow(ms, key, b.firstMessageDate);
      DateOfGrow(ms, key, b.lastMessageDate);
    } else {
      TallyAbsent(init, key);
      DatesWithinFirst(ms, init, key);
    }
    if AuthorKey(m) == key {
      DateOfLast(ms, key);
    }
  }

  /** Every message with author key `key` has a time value in `[lo, hi]`. */
  predicate DatesWithin(ms: seq<ParsedMessage>, key: MapKey, lo: int, hi: int) {
    forall j :: 0 <= j < |ms| && AuthorKey(ms[j]) == key ==> lo <= ms[j].timestamp <= hi
  }

  /** Some message with author key `key` has time value `v`. */
  predicate DateOf(ms: seq<ParsedMessage>, key: MapKey, v: int) {
    exists j :: 0 <= j < |ms| && AuthorKey(ms[j]) == key && ms[j].timestamp == v
  }

  /** How the last message changes the record of author `key`. */
  lemma AuthorStep(ms: seq<ParsedMessage>, key: MapKey)
    requires ms != [] && key in TallyOf(ms).authors
    ensures var init := ms[..|ms| - 1];
      var m := ms[|ms| - 1];
      var a := TallyOf(ms).authors[key];
      if key in TallyOf(init).authors then
        var b := TallyOf(init).authors[key];
        if AuthorKey(m) == key then
          a.firstMessageDate == (if m.timestamp < b.firstMessageDate then m.timestamp else b.firstMessageDate)
          && a.lastMessageDate == (if m.timestamp > b.lastMessageDate then m.timestamp else b.lastMessageDate)
        else a == b
      else AuthorKey(m) == key && a.firstMessageDate == m.timestamp && a.lastMessageDate == m.timestamp
  {
  }

  /** A wider range for the messages before the last that also holds the last one. */
  lemma DatesWithinGrow(ms: seq<ParsedMessage>, key: MapKey, lo: int, hi: int, lo': int, hi': int)
    requires ms != [] && DatesWithin(ms[..|ms| - 1], key, lo, hi) && lo' <= lo && hi <= hi'
    requires AuthorKey(ms[|ms| - 1]) == key ==> lo' <= ms[|ms| - 1].timestamp <= hi'
    ensures DatesWithin(ms, key, lo', hi')
  {
    var init := ms[..|ms| - 1];
    forall j | 0 <= j < |ms| && AuthorKey(ms[j]) == key
      ensures lo' <= ms[j].timestamp <= hi'
    {
      if j < |init| {
        assert ms[j] == init[j];
      }
    }
  }

  /** The first message of an author bounds all of its messages. */
  lemma DatesWithinFirst(ms: seq<ParsedMessage>, init: seq<ParsedMessage>, key: MapKey)
    requires ms != [] && init == ms[..|ms| - 1] && AuthorKey(ms[|ms| - 1]) == key
    requires forall j :: 0 <= j < |init| ==> AuthorKey(init[j]) != key
    ensures DatesWithin(ms, key, ms[|ms| - 1].timestamp, ms[|ms| - 1].timestamp)
  {
  }

  lemma DateOfGrow(ms: seq<ParsedMessage>, key: MapKey, v: int)
    requires ms != [] && DateOf(ms[..|ms| - 1], key, v)
    ensures DateOf(ms, key, v)
  {
    var init := ms[..|ms| - 1];
    var j :| 0 <= j < |init| && AuthorKey(init[j]) == key && init[j].timestamp == v;
    assert ms[j] == init[j];
  }

  lemma DateOfLast(ms: seq<ParsedMessage>, key: MapKey)
    requires ms != [] && AuthorKey(ms[|ms| - 1]) == key
    ensures DateOf(ms, key, ms[|ms| - 1].timestamp)
  {
  }

  /** A key the authors map lacks belongs to none of the messages. */
  lemma {:induction false} TallyAbsent(ms: seq<ParsedMessage>, key: MapKey)
    requires key !in TallyOf(ms).authors
    ensures forall j :: 0 <= j < |ms| ==> AuthorKey(ms[j]) != key
  {
    if ms != [] {
      var init := ms[..|ms| - 1];
      TallyAbsent(init, key);
      assert forall j :: 0 <= j < |init| ==> ms[j] == init[j];
    }
  }

  /** The date range bounds every kept message's time value and is attained. */
  lemma {:induction false} StampBounds(ms: seq<ParsedMessage>)
    requires ms != []
    ensures forall j :: 0 <= j < |ms| ==> MinStamp(ms) <= ms[j].timestamp <= MaxStamp(ms)
    ensures exists j :: 0 <= j < |ms| && ms[j].timestamp == MinStamp(ms)
    ensures exists j :: 0 <= j < |ms| && ms[j].timestamp == MaxStamp(ms)
  {
    if |ms| > 1 {
      var init := ms[..|ms| - 1];
      StampBounds(init);
      assert forall j :: 0 <= j < |init| ==> ms[j] == init[j];
      var jmin :| 0 <= jmin < |init| && init[jmin].timestamp == MinStamp(init);
      var jmax :| 0 <= jmax < |init| && init[jmax].timestamp == MaxStamp(init);
      assert ms[jmin] == init[jmin] && ms[jmax] == init[jmax];
    } else {
      assert ms[0].timestamp == MinStamp(ms) == MaxStamp(ms);
    }
  }

  // ---------------------------------------------------------------- isBot

  const KnownBots: seq<string> := ["orbo", "bot", "telegram", "channel"]

  /** The username test of `isBot`: the lower-cased username ends in "bot". */
  predicate BotUsername(a: Author) {
    a.username.Some? && EndsWith(Lower(a.username.value), "bot")
  }

  /** The name test of `isBot`: the lower-cased, trimmed name contains one of the known bot words. */
  predicate BotName(name: string) {
    exists w :: w in KnownBots && Contains(Trim(Lower(name)), w)
  }

  /**
   * `isBot`: a username ending in "bot", or a name containing one of the
   * known bot words, either case. When the username test fails and the name
   * is not a string, `author.name.toLowerCase()` throws, which is `None`.
   */
  function IsBot(a: Author): (r: Option<bool>)
    ensures BotUsername(a) ==> r == Some(true)
    ensures r.None? <==> !BotUsername(a) && !a.name.Str?
    ensures !BotUsername(a) && a.name.Str? ==> r == Some(BotName(a.name.s))
  {
    if BotUsername(a) then Some(true)
    else if !a.name.Str? then None
    else Some(BotName(a.name.s))
  }

  /** Every known word in the name makes a bot, in any case. */
  lemma KnownWordMakesBot(a: Author, w: string)
    requires a.name.Str? && w in KnownBots && Contains(Trim(Lower(a.name.s)), w)
    ensures IsBot(a) == Some(true)
  {
  }

  /** Whether an author is a bot does not depend on the case of the name. */
  lemma IsBotIgnoresCase(a: Author)
    requires a.name.Str?
    ensures IsBot(a.(name := Str(Lower(a.name.s)))) == IsBot(a)
  {
    LowerIdempotent(a.name.s);
  }
}
