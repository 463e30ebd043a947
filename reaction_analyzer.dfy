/**
 * The reaction analyzer (`lib/services/enrichment/reactionAnalyzer.ts`): from
 * a participant's reactions, the five favourite emojis, the sentiment of the
 * emojis, the ten most frequent topics of the messages reacted to and the five
 * authors reacted to most.
 */
module ReactionAnalyzer {
  import opened Wrappers
  import opened Text
  import opened Sorting
  import opened Tally

  datatype OriginalMessage = OriginalMessage(text: string, authorId: int, authorName: Option<string>)

  datatype Reaction = Reaction(
    messageId: int, tgUserId: int, emoji: Option<string>, createdAt: string,
    originalMessage: Option<OriginalMessage>)

  datatype Sentiment = Positive | Neutral | Negative

  datatype EmojiCount = EmojiCount(emoji: string, count: nat)

  datatype UserCount = UserCount(userId: int, userName: Option<string>, count: nat)

  datatype Patterns = Patterns(
    totalReactions: nat, favoriteEmojis: seq<EmojiCount>, reactsToTopics: seq<string>,
    reactsToUsers: seq<UserCount>, sentiment: Sentiment)

  const FavoriteEmojiLimit := 5
  const TopicLimit := 10
  const UserLimit := 5
  const KeywordLimit := 10

  const PositiveEmojis: seq<string> := [
    "\U{1F44D}", "\U{2764}\U{FE0F}", "\U{1F525}", "\U{1F44F}", "\U{1F4AF}", "\U{2B50}", "\U{2705}",
    "\U{1F60A}", "\U{1F389}", "\U{1F4AA}", "\U{1F64C}", "\U{1F60D}", "\U{1F91D}"]
  const NegativeEmojis: seq<string> := [
    "\U{1F44E}", "\U{1F494}", "\U{1F622}", "\U{1F621}", "\U{274C}", "\U{1F92C}"]

  // ---------------------------------------------------------------- extractKeywords

  const StopWords: set<string> := {
    "и", "в", "на", "с", "по", "для", "не", "что", "как", "это", "я", "мы", "вы", "они",
    "а", "но", "или", "же", "бы", "ли", "да", "нет", "так", "вот", "там", "тут", "когда",
    "где", "кто", "почему", "зачем", "если", "то", "уже", "еще", "можно", "нужно",
    "the", "is", "are", "was", "were", "and", "or", "but", "in", "on", "at", "to", "for"}

  /** `\w`. */
  predicate IsWordChar(c: char) {
    ('a' <= c <= 'z') || ('A' <= c <= 'Z') || ('0' <= c <= '9') || c == '_'
  }

  /** The characters `[^\wа-яА-ЯёЁ\s]` does not match. */
  predicate Kept(c: char) {
    IsWordChar(c) || ('\U{0430}' <= c <= '\U{044F}') || ('\U{0410}' <= c <= '\U{042F}')
    || c == '\U{0451}' || c == '\U{0401}' || IsSpace(c)
  }

  /** `.replace(/[^\wа-яА-ЯёЁ\s]/g, ' ')`. */
  function Clean(s: string): (r: string)
    ensures |r| == |s|
    ensures forall k :: 0 <= k < |s| ==> r[k] == if Kept(s[k]) then s[k] else ' '
  {
    seq(|s|, k requires 0 <= k < |s| => if Kept(s[k]) then s[k] else ' ')
  }

  /** The index of the first white space character, or the length. */
  function FirstSpace(s: string): (i: nat)
    ensures i <= |s|
    ensures forall k :: 0 <= k < i ==> !IsSpace(s[k])
    ensures i < |s| ==> IsSpace(s[i])
  {
    if s == [] || IsSpace(s[0]) then 0 else 1 + FirstSpace(s[1..])
  }

  /**
   * The non-empty pieces of `.split(/\s+/)`: the maximal runs without white
   * space. (The split also yields empty pieces at the ends, which the length
   * filter drops.)
   */
  function Words(s: string): (ws: seq<string>)
    ensures forall w :: w in ws ==> w != [] && forall c :: c in w ==> c in s && !IsSpace(c)
    decreases |s|
  {
    if s == [] then []
    else
      var i := FirstSpace(s);
      (if i == 0 then [] else [s[..i]]) + (if i == |s| then [] else Words(s[i + 1..]))
  }

  /** The test of the word filter: longer than three characters and not a stop word. */
  predicate IsKeyword(w: string) {
    |w| > 3 && w !in StopWords
  }

  /** `.filter(w => w.length > 3 && !stopWords.has(w))`. */
  function KeepWords(ws: seq<string>): (r: seq<string>)
    ensures forall w :: w in r <==> w in ws && IsKeyword(w)
  {
    if ws == [] then []
    else KeepWords(ws[..|ws| - 1]) + (if IsKeyword(ws[|ws| - 1]) then [ws[|ws| - 1]] else [])
  }

  /** `Array.from(new Set(ws))`: the first occurrence of each word, in order. */
  function Distinct(ws: seq<string>): (r: seq<string>)
    ensures forall w :: w in r <==> w in ws
    ensures forall i, j :: 0 <= i < j < |r| ==> r[i] != r[j]
  {
    if ws == [] then []
    else
      var p := Distinct(ws[..|ws| - 1]);
      p + (if ws[|ws| - 1] in ws[..|ws| - 1] then [] else [ws[|ws| - 1]])
  }

  /** `extractKeywords`. */
  function ExtractKeywords(text: string): seq<string> {
    Take(Distinct(KeepWords(Words(Clean(Lower(text))))), KeywordLimit)
  }

  /**
   * At most ten keywords, without repeats, each a lower-case run of word
   * characters longer than three that is not a stop word; with fewer than ten
   * distinct such words, every one of them is a keyword.
   */
  lemma KeywordsCorrect(text: string)
    ensures |ExtractKeywords(text)| <= KeywordLimit
    ensures forall i, j :: 0 <= i < j < |ExtractKeywords(text)| ==> ExtractKeywords(text)[i] != ExtractKeywords(text)[j]
    ensures forall w :: w in ExtractKeywords(text) ==>
              IsKeyword(w) && forall c :: c in w ==> Kept(c) && !IsSpace(c) && !IsUpper(c)
    ensures |Distinct(KeepWords(Words(Clean(Lower(text)))))| < KeywordLimit ==>
              forall w :: w in Words(Clean(Lower(text))) && IsKeyword(w) ==> w in ExtractKeywords(text)
  {
    var d := Distinct(KeepWords(Words(Clean(Lower(text)))));
    KeywordsDistinct(d);
    CleanedChars(text);
  }

  lemma KeywordsDistinct(d: seq<string>)
    requires forall i, j :: 0 <= i < j < |d| ==> d[i] != d[j]
    ensures forall i, j :: 0 <= i < j < |Take(d, KeywordLimit)| ==> Take(d, KeywordLimit)[i] != Take(d, KeywordLimit)[j]
  {
    var r := Take(d, KeywordLimit);
    forall i, j | 0 <= i < j < |r| ensures r[i] != r[j] {
      assert r[i] == d[i] && r[j] == d[j];
    }
  }

  /** After lower-casing and cleaning, only kept characters remain and none is a capital. */
  lemma CleanedChars(text: string)
    ensures forall c :: c in Clean(Lower(text)) ==> Kept(c) && !IsUpper(c)
  {
    var cleaned := Clean(Lower(text));
    forall c | c in cleaned ensures Kept(c) && !IsUpper(c) {
      var k :| 0 <= k < |cleaned| && cleaned[k] == c;
    }
  }

  // ---------------------------------------------------------------- the counting inputs

  /** The reactions with an emoji, as keys of the emoji map. */
  function EmojiItems(rs: seq<Reaction>): seq<(string, ())> {
    if rs == [] then []
    else
      var r := rs[|rs| - 1];
      EmojiItems(rs[..|rs| - 1]) + (if Filled(r.emoji) then [(r.emoji.value, ())] else [])
  }

  function KeywordItems(ws: seq<string>): (items: seq<(string, ())>)
    ensures |items| == |ws|
    ensures forall k :: 0 <= k < |ws| ==> items[k] == (ws[k], ())
  {
    seq(|ws|, k requires 0 <= k < |ws| => (ws[k], ()))
  }

  /** The keywords of the message a reaction is to, when that message has text. */
  function MessageKeywords(r: Reaction): seq<string> {
    if r.originalMessage.Some? && r.originalMessage.value.text != []
    then ExtractKeywords(r.originalMessage.value.text) else []
  }

  /** The keywords of every message reacted to that has text, in order. */
  function TopicItems(rs: seq<Reaction>): seq<(string, ())> {
    if rs == [] then []
    else TopicItems(rs[..|rs| - 1]) + KeywordItems(MessageKeywords(rs[|rs| - 1]))
  }

  /** The authors of the messages reacted to (a zero id is falsy), each with the author name. */
  function UserItems(rs: seq<Reaction>): seq<(int, Option<string>)> {
    if rs == [] then []
    else
      var r := rs[|rs| - 1];
      UserItems(rs[..|rs| - 1])
      + (if r.originalMessage.Some? && r.originalMessage.value.authorId != 0
         then [(r.originalMessage.value.authorId, r.originalMessage.value.authorName)] else [])
  }

  // ---------------------------------------------------------------- sentiment

  datatype Tallies = Tallies(positive: nat, negative: nat, neutral: nat)

  /** The sentiment counters after the loop over `rs`. */
  function SentimentTallies(rs: seq<Reaction>): Tallies {
    if rs == [] then Tallies(0, 0, 0)
    else
      var t := SentimentTallies(rs[..|rs| - 1]);
      var e := rs[|rs| - 1].emoji;
      if !Filled(e) then t
      else if e.value in PositiveEmojis then t.(positive := t.positive + 1)
      else if e.value in NegativeEmojis then t.(negative := t.negative + 1)
      else t.(neutral := t.neutral + 1)
  }

  /** Positive when positive emojis outnumber each other kind, negative when they outnumber the positive ones. */
  function SentimentOf(t: Tallies): Sentiment {
    if t.positive > t.negative && t.positive > t.neutral then Positive
    else if t.negative > t.positive then Negative
    else Neutral
  }

  /** Every reaction with an emoji is counted exactly once by the sentiment counters. */
  lemma {:induction false} TalliesPartition(rs: seq<Reaction>)
    ensures var t := SentimentTallies(rs); t.positive + t.negative + t.neutral == |EmojiItems(rs)|
  {
    if rs != [] {
      TalliesPartition(rs[..|rs| - 1]);
    }
  }

  /** Every reaction carries an emoji from `list`. */
  predicate AllIn(rs: seq<Reaction>, list: seq<string>) {
    forall r :: r in rs ==> Filled(r.emoji) && r.emoji.value in list
  }

  /** Only positive emojis make a positive participant, only negative ones a negative one. */
  lemma UniformSentiment(rs: seq<Reaction>)
    requires rs != []
    ensures AllIn(rs, PositiveEmojis) ==> SentimentOf(SentimentTallies(rs)) == Positive
    ensures AllIn(rs, NegativeEmojis) ==> SentimentOf(SentimentTallies(rs)) == Negative
  {
    UniformTallies(rs);
  }

  lemma {:induction false} UniformTallies(rs: seq<Reaction>)
    ensures AllIn(rs, PositiveEmojis) ==> SentimentTallies(rs) == Tallies(|rs|, 0, 0)
    ensures AllIn(rs, NegativeEmojis) ==> SentimentTallies(rs) == Tallies(0, |rs|, 0)
  {
    if rs != [] {
      var p := rs[..|rs| - 1];
      var e := rs[|rs| - 1].emoji;
      assert forall r :: r in p ==> r in rs;
      UniformTallies(p);
      if Filled(e) {
        NoEmojiBoth(e.value);
      }
    }
  }

  lemma NoEmojiBoth(e: string)
    ensures !(e in PositiveEmojis && e in NegativeEmojis)
  {
  }

  // ---------------------------------------------------------------- analyzeReactionPatterns

  const NoPatterns := Patterns(0, [], [], [], Neutral)

  function EmojiCounts(t: seq<Slot<string, ()>>): (r: seq<EmojiCount>)
    ensures |r| == |t|
    ensures forall k :: 0 <= k < |t| ==> r[k] == EmojiCount(t[k].key, t[k].count)
  {
    seq(|t|, k requires 0 <= k < |t| => EmojiCount(t[k].key, t[k].count))
  }

  function SlotKeys<K, P>(t: seq<Slot<K, P>>): (r: seq<K>)
    ensures |r| == |t|
    ensures forall k :: 0 <= k < |t| ==> r[k] == t[k].key
  {
    seq(|t|, k requires 0 <= k < |t| => t[k].key)
  }

  function UserCounts(t: seq<Slot<int, Option<string>>>): (r: seq<UserCount>)
    ensures |r| == |t|
    ensures forall k :: 0 <= k < |t| ==> r[k] == UserCount(t[k].key, t[k].first, t[k].count)
  {
    seq(|t|, k requires 0 <= k < |t| => UserCount(t[k].key, t[k].first, t[k].count))
  }

  /** The patterns from the three counting maps and the sentiment counters. */
  function Assemble(rs: seq<Reaction>): Patterns {
    Patterns(
      |rs|,
      EmojiCounts(TopSlots(TallyOf(EmojiItems(rs)), FavoriteEmojiLimit)),
      SlotKeys(TopSlots(TallyOf(TopicItems(rs)), TopicLimit)),
      UserCounts(TopSlots(TallyOf(UserItems(rs)), UserLimit)),
      SentimentOf(SentimentTallies(rs)))
  }

  /** `analyzeReactionPatterns` without the engagement rate. */
  function PatternsOf(rs: seq<Reaction>): Patterns {
    if rs == [] then NoPatterns else Assemble(rs)
  }

  /** The early return for no reactions gives what the general computation would. */
  lemma EarlyReturnAgrees()
    ensures Assemble([]) == NoPatterns
  {
    assert TallyOf<string, ()>([]) == [];
    assert TallyOf<int, Option<string>>([]) == [];
  }

  /**
   * Every reaction is counted, the favourites are at most five emojis with
   * their true counts, most used first, and no emoji left out was used more
   * often than a favourite; at most ten topics and five authors are kept.
   */
  lemma PatternsCorrect(rs: seq<Reaction>)
    ensures PatternsOf(rs).totalReactions == |rs|
    ensures var fav := PatternsOf(rs).favoriteEmojis;
            |fav| <= FavoriteEmojiLimit
            && (forall i, j :: 0 <= i < j < |fav| ==> fav[i].count >= fav[j].count && fav[i].emoji != fav[j].emoji)
            && (forall i :: 0 <= i < |fav| ==> fav[i].count == Count(EmojiItems(rs), fav[i].emoji) > 0)
            && (forall i, e :: 0 <= i < |fav| && (forall j :: 0 <= j < |fav| ==> fav[j].emoji != e) ==>
                  Count(EmojiItems(rs), e) <= fav[i].count)
    ensures |PatternsOf(rs).reactsToTopics| <= TopicLimit
    ensures |PatternsOf(rs).reactsToUsers| <= UserLimit
  {
    if rs != [] {
      FavoritesCorrect(EmojiItems(rs));
      TopSlotsCorrect(TallyOf(TopicItems(rs)), TopicLimit);
      TopSlotsCorrect(TallyOf(UserItems(rs)), UserLimit);
    }
  }

  /** The favourite emojis of a list of emoji occurrences. */
  lemma FavoritesCorrect(items: seq<(string, ())>)
    ensures var fav := EmojiCounts(TopSlots(TallyOf(items), FavoriteEmojiLimit));
            |fav| <= FavoriteEmojiLimit
            && (forall i, j :: 0 <= i < j < |fav| ==> fav[i].count >= fav[j].count && fav[i].emoji != fav[j].emoji)
            && (forall i :: 0 <= i < |fav| ==> fav[i].count == Count(items, fav[i].emoji) > 0)
            && (forall i, e :: 0 <= i < |fav| && (forall j :: 0 <= j < |fav| ==> fav[j].emoji != e) ==>
                  Count(items, e) <= fav[i].count)
  {
    var t := TallyOf(items);
    var top := TopSlots(t, FavoriteEmojiLimit);
    TopSlotsCorrect(t, FavoriteEmojiLimit);
    TopCounts(items, FavoriteEmojiLimit);
    TopKeysDistinct(items, FavoriteEmojiLimit);
    forall e | forall j :: 0 <= j < |top| ==> top[j].key != e
      ensures forall f :: f in top ==> Count(items, e) <= f.count
    {
      TopLeftOut(items, FavoriteEmojiLimit, e);
    }
    FavoritesOrdered(top);
    FavoritesCounted(items, top);
    FavoritesMaximal(items, top);
  }

  /** The favourites of sorted top slots with distinct keys are ordered and distinct. */
  lemma FavoritesOrdered(top: seq<Slot<string, ()>>)
    requires SortedDesc(top, CountKey)
    requires forall i, j :: 0 <= i < j < |top| ==> top[i].key != top[j].key
    ensures var fav := EmojiCounts(top);
            forall i, j :: 0 <= i < j < |fav| ==> fav[i].count >= fav[j].count && fav[i].emoji != fav[j].emoji
  {
    var fav := EmojiCounts(top);
    forall i, j | 0 <= i < j < |fav|
      ensures fav[i].count >= fav[j].count && fav[i].emoji != fav[j].emoji
    {
      assert CountKey(top[i]) >= CountKey(top[j]);
    }
  }

  /** The favourites of counted top slots carry their emojis' counts. */
  lemma FavoritesCounted(items: seq<(string, ())>, top: seq<Slot<string, ()>>)
    requires forall s :: s in top ==> s.count == Count(items, s.key) > 0
    ensures var fav := EmojiCounts(top);
            forall i :: 0 <= i < |fav| ==> fav[i].count == Count(items, fav[i].emoji) > 0
  {
    var fav := EmojiCounts(top);
    forall i | 0 <= i < |fav| ensures fav[i].count == Count(items, fav[i].emoji) > 0 {
      assert top[i] in top;
    }
  }

  /** No emoji left out of the favourites is counted more than one kept. */
  lemma FavoritesMaximal(items: seq<(string, ())>, top: seq<Slot<string, ()>>)
    requires forall e :: (forall j :: 0 <= j < |top| ==> top[j].key != e) ==> forall f :: f in top ==> Count(items, e) <= f.count
    ensures var fav := EmojiCounts(top);
            forall i, e :: 0 <= i < |fav| && (forall j :: 0 <= j < |fav| ==> fav[j].emoji != e) ==>
              Count(items, e) <= fav[i].count
  {
    var fav := EmojiCounts(top);
    forall i, e | 0 <= i < |fav| && (forall j :: 0 <= j < |fav| ==> fav[j].emoji != e)
      ensures Count(items, e) <= fav[i].count
    {
      assert forall j :: 0 <= j < |top| ==> top[j].key == fav[j].emoji;
      assert top[i] in top;
    }
  }

  /** One reaction more adds its emoji, if it has one, to the emoji tally. */
  lemma EmojiStep(rs: seq<Reaction>, r: Reaction)
    ensures TallyOf(EmojiItems(rs + [r]))
            == if Filled(r.emoji) then Bump(TallyOf(EmojiItems(rs)), r.emoji.value, ()) else TallyOf(EmojiItems(rs))
  {
    assert (rs + [r])[..|rs|] == rs;
    assert EmojiItems(rs + [r]) == EmojiItems(rs) + (if Filled(r.emoji) then [(r.emoji.value, ())] else []);
    if Filled(r.emoji) {
      TallyAppend(EmojiItems(rs), (r.emoji.value, ()));
    } else {
      assert EmojiItems(rs + [r]) == EmojiItems(rs);
    }
  }

  /** One reaction more adds the keywords of its message, if it has text, to the topic items. */
  lemma TopicStep(rs: seq<Reaction>, r: Reaction)
    ensures TopicItems(rs + [r]) == TopicItems(rs) + KeywordItems(MessageKeywords(r))
  {
    assert (rs + [r])[..|rs|] == rs;
  }

  /** One reaction more adds its author, if known, to the author tally. */
  lemma UserStep(rs: seq<Reaction>, r: Reaction)
    ensures TallyOf(UserItems(rs + [r]))
            == if r.originalMessage.Some? && r.originalMessage.value.authorId != 0
               then Bump(TallyOf(UserItems(rs)), r.originalMessage.value.authorId, r.originalMessage.value.authorName)
               else TallyOf(UserItems(rs))
  {
    assert (rs + [r])[..|rs|] == rs;
    assert UserItems(rs + [r]) == UserItems(rs)
      + (if r.originalMessage.Some? && r.originalMessage.value.authorId != 0
         then [(r.originalMessage.value.authorId, r.originalMessage.value.authorName)] else []);
    if r.originalMessage.Some? && r.originalMessage.value.authorId != 0 {
      TallyAppend(UserItems(rs), (r.originalMessage.value.authorId, r.originalMessage.value.authorName));
    } else {
      assert UserItems(rs + [r]) == UserItems(rs);
    }
  }

  /** The emoji loop: `emojiCounts.set(r.emoji, (emojiCounts.get(r.emoji) || 0) + 1)`. */
  method CountEmojis(reactions: seq<Reaction>) returns (counts: seq<Slot<string, ()>>)
    ensures counts == TallyOf(EmojiItems(reactions))
  {
    counts := [];
    for i := 0 to |reactions|
      invariant counts == TallyOf(EmojiItems(reactions[..i]))
    {
      assert reactions[..i + 1] == reactions[..i] + [reactions[i]];
      EmojiStep(reactions[..i], reactions[i]);
      var r := reactions[i];
      if Filled(r.emoji) {
        counts := Bump(counts, r.emoji.value, ());
      }
    }
    assert reactions[..|reactions|] == reactions;
  }

  /** The sentiment loop. */
  method CountSentiment(reactions: seq<Reaction>) returns (t: Tallies)
    ensures t == SentimentTallies(reactions)
  {
    var positiveCount, negativeCount, neutralCount := 0, 0, 0;
    for i := 0 to |reactions|
      invariant Tallies(positiveCount, negativeCount, neutralCount) == SentimentTallies(reactions[..i])
    {
      assert reactions[..i + 1][..i] == reactions[..i];
      var e := reactions[i].emoji;
      if !Filled(e) {
        continue;
      }
      if e.value in PositiveEmojis {
        positiveCount := positiveCount + 1;
      } else if e.value in NegativeEmojis {
        negativeCount := negativeCount + 1;
      } else {
        neutralCount := neutralCount + 1;
      }
    }
    assert reactions[..|reactions|] == reactions;
    t := Tallies(positiveCount, negativeCount, neutralCount);
  }

  /** The topic loop: every keyword of every message with text is counted. */
  method CountTopics(reactions: seq<Reaction>) returns (counts: seq<Slot<string, ()>>)
    ensures counts == TallyOf(TopicItems(reactions))
  {
    counts := [];
    for i := 0 to |reactions|
      invariant counts == TallyOf(TopicItems(reactions[..i]))
    {
      TopicPrefixStep(reactions, i);
      var r := reactions[i];
      if r.originalMessage.Some? && r.originalMessage.value.text != [] {
        counts := CountKeywords(counts, TopicItems(reactions[..i]), MessageKeywords(r));
      }
    }
    assert reactions[..|reactions|] == reactions;
  }

  /** `TopicStep` at the loop's index: a reaction to a message without text adds nothing. */
  lemma TopicPrefixStep(reactions: seq<Reaction>, i: int)
    requires 0 <= i < |reactions|
    ensures TopicItems(reactions[..i + 1]) == TopicItems(reactions[..i]) + KeywordItems(MessageKeywords(reactions[i]))
    ensures !(reactions[i].originalMessage.Some? && reactions[i].originalMessage.value.text != [])
            ==> TopicItems(reactions[..i + 1]) == TopicItems(reactions[..i])
  {
    assert reactions[..i + 1] == reactions[..i] + [reactions[i]];
    TopicStep(reactions[..i], reactions[i]);
    var ws := MessageKeywords(reactions[i]);
    if !(reactions[i].originalMessage.Some? && reactions[i].originalMessage.value.text != []) {
      assert |KeywordItems(ws)| == 0;
    }
  }

  /** The inner topic loop over one message's keywords. */
  method CountKeywords(counts: seq<Slot<string, ()>>, ghost before: seq<(string, ())>, keywords: seq<string>)
      returns (after: seq<Slot<string, ()>>)
    requires counts == TallyOf(before)
    ensures after == TallyOf(before + KeywordItems(keywords))
  {
    after := counts;
    assert before + KeywordItems(keywords[..0]) == before;
    for j := 0 to |keywords|
      invariant after == TallyOf(before + KeywordItems(keywords[..j]))
    {
      KeywordStep(before, keywords, j);
      after := Bump(after, keywords[j], ());
    }
    assert keywords[..|keywords|] == keywords;
  }

  /** One keyword more bumps its count. */
  lemma KeywordStep(before: seq<(string, ())>, keywords: seq<string>, j: int)
    requires 0 <= j < |keywords|
    ensures TallyOf(before + KeywordItems(keywords[..j + 1])) == Bump(TallyOf(before + KeywordItems(keywords[..j])), keywords[j], ())
  {
    var p := before + KeywordItems(keywords[..j]);
    assert KeywordItems(keywords[..j + 1]) == KeywordItems(keywords[..j]) + [(keywords[j], ())];
    assert before + KeywordItems(keywords[..j + 1]) == p + [(keywords[j], ())];
    TallyAppend(p, (keywords[j], ()));
  }

  /** The author loop: the first reaction to an author stores the author name. */
  method CountUsers(reactions: seq<Reaction>) returns (counts: seq<Slot<int, Option<string>>>)
    ensures counts == TallyOf(UserItems(reactions))
  {
    counts := [];
    for i := 0 to |reactions|
      invariant counts == TallyOf(UserItems(reactions[..i]))
    {
      assert reactions[..i + 1] == reactions[..i] + [reactions[i]];
      UserStep(reactions[..i], reactions[i]);
      var r := reactions[i];
      if r.originalMessage.Some? && r.originalMessage.value.authorId != 0 {
        var m := r.originalMessage.value;
        counts := Bump(counts, m.authorId, m.authorName);
      }
    }
    assert reactions[..|reactions|] == reactions;
  }

  /** `analyzeReactionPatterns`. */
  method AnalyzeReactionPatterns(reactions: seq<Reaction>) returns (p: Patterns)
    ensures p == PatternsOf(reactions)
  {
    if |reactions| == 0 {
      return NoPatterns;
    }
    var emojiCounts := CountEmojis(reactions);
    var sentiment := CountSentiment(reactions);
    var topics := CountTopics(reactions);
    var users := CountUsers(reactions);
    p := Patterns(
      |reactions|,
      EmojiCounts(TopSlots(emojiCounts, FavoriteEmojiLimit)),
      SlotKeys(TopSlots(topics, TopicLimit)),
      UserCounts(TopSlots(users, UserLimit)),
      SentimentOf(sentiment));
  }
}
