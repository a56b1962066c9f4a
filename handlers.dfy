/**
 * The four line handlers of the factoid plugin. Each recognises its template at the start of an
 * incoming line, extracts the key (and value), makes one store call and yields at most one reply.
 */
module FactoidHandlers {
  import opened Optional
  import opened PyText
  import opened FactoidStore

  /** The two groups of a `<key> is <value>` match, before stripping. */
  datatype Groups = Groups(key: string, value: string)

  // ---------------------------------------------------------------------------
  // `(.+?) is (.*)`, shared by the create and replace templates

  /** The literal ` is ` of a template, under IGNORECASE, at index `j` of `s`. */
  predicate SeparatorAt(s: string, j: nat)
  {
    j + 4 <= |s| && StartsWithPattern(s[j..], " is ", true)
  }

  /**
   * `(.+?) is `, with its group begun at `lo`, can close the group at `j`: the group `s[lo..j]` is
   * non-empty, `.` crosses no newline, and ` is ` follows.
   */
  predicate GroupEnd(s: string, lo: nat, j: nat)
  {
    lo < j <= |s| && '\n' !in s[lo..j] && SeparatorAt(s, j)
  }

  /** The lazy `.+?` closes its group at the first place it can. */
  ghost predicate FirstGroupEnd(s: string, lo: nat, j: nat)
  {
    GroupEnd(s, lo, j) && forall j' :: lo < j' < j ==> !GroupEnd(s, lo, j')
  }

  /** The search the regex engine makes for `.+?`: try `j`, `j + 1`, ... until ` is ` follows or a newline stops it. */
  function FindGroupEnd(s: string, lo: nat, j: nat): (r: Option<nat>)
    requires lo < j <= |s| + 1
    requires '\n' !in s[lo..j - 1]
    requires forall j' :: lo < j' < j ==> !GroupEnd(s, lo, j')
    ensures r.Some? ==> FirstGroupEnd(s, lo, r.value)
    ensures r.None? ==> forall j' :: !GroupEnd(s, lo, j')
    decreases |s| - j
  {
    if j + 4 > |s| then None
    else if s[j - 1] == '\n' then
      assert forall j' :: j <= j' <= |s| ==> s[lo..j'][j - 1 - lo] == '\n';
      None
    else
      assert s[lo..j] == s[lo..j - 1] + [s[j - 1]];
      if SeparatorAt(s, j) then Some(j) else FindGroupEnd(s, lo, j + 1)
  }

  /**
   * `[^What|Where]` under IGNORECASE is a negated character class: it keeps these seven characters
   * (in either case) from starting a factoid, not the words "What" and "Where".
   */
  predicate ExcludedInitial(c: char)
  {
    Fold(c) in {'w', 'h', 'a', 't', '|', 'e', 'r'}
  }

  /**
   * `^([^What|Where].+?) is (.*)` under IGNORECASE, as `findall` reports its only match: a first
   * character outside the class, then `.+?` up to the first ` is ` it reaches without crossing a
   * newline (so the raw key has at least two characters), then `(.*)`, the rest of that line.
   */
  function MatchCreate(line: string): (m: Option<Groups>)
    ensures m.Some? <==> |line| > 0 && !ExcludedInitial(line[0]) && exists j :: GroupEnd(line, 1, j)
    ensures m.Some? ==> (2 <= |m.value.key| && |m.value.key| + 4 <= |line| && m.value.key == line[..|m.value.key|]
      && FirstGroupEnd(line, 1, |m.value.key|) && m.value.value == RestOfLine(line[|m.value.key| + 4..]))
  {
    if |line| == 0 || ExcludedInitial(line[0]) then None
    else match FindGroupEnd(line, 1, 2)
      case None => None
      case Some(j) => Some(Groups(line[..j], RestOfLine(line[j + 4..])))
  }

  /** `^no, (.+?) is (.*)` under IGNORECASE: the raw key lies between the prefix and the first ` is ` after it. */
  function MatchReplace(line: string): (m: Option<Groups>)
    ensures m.Some? <==> StartsWithPattern(line, "no, ", true) && exists j :: GroupEnd(line, 4, j)
    ensures m.Some? ==> (1 <= |m.value.key| && 4 + |m.value.key| + 4 <= |line| && m.value.key == line[4..4 + |m.value.key|]
      && FirstGroupEnd(line, 4, 4 + |m.value.key|) && m.value.value == RestOfLine(line[4 + |m.value.key| + 4..]))
  {
    if !StartsWithPattern(line, "no, ", true) then None
    else match FindGroupEnd(line, 4, 5)
      case None => None
      case Some(j) => Some(Groups(line[4..j], RestOfLine(line[j + 4..])))
  }

  /** Both groups with `strip()` applied, as `createFactoid` and `replaceFactoid` use them. */
  function Stripped(g: Groups): Groups
  {
    Groups(Strip(g.key), Strip(g.value))
  }

  // ---------------------------------------------------------------------------
  // `^(?:What is|Where is) (.*[^?])?` and `^forget (.*)`

  /**
   * `(.*[^?])` applied to `rest` can close its group at `k`: the group `rest[..k]` is non-empty,
   * `.*` crosses no newline, and `[^?]` takes a last character other than '?' (a newline included).
   */
  predicate QueryGroupEnd(rest: string, k: nat)
  {
    0 < k <= |rest| && '\n' !in rest[..k - 1] && rest[k - 1] != '?'
  }

  /** The backtracking of the greedy `.*`: try `k`, `k - 1`, ... until `[^?]` can take the last character. */
  function LongestQueryGroup(rest: string, k: nat): (r: Option<nat>)
    requires k <= |rest|
    requires forall k' :: k < k' ==> !QueryGroupEnd(rest, k')
    ensures r.Some? ==> QueryGroupEnd(rest, r.value) && forall k' :: r.value < k' ==> !QueryGroupEnd(rest, k')
    ensures r.None? ==> forall k' :: !QueryGroupEnd(rest, k')
  {
    if k == 0 then None
    else if QueryGroupEnd(rest, k) then Some(k)
    else LongestQueryGroup(rest, k - 1)
  }

  /** The optional group `(.*[^?])?`: the longest prefix of `rest` it can take, or unset (None) when there is none. */
  function QueryKey(rest: string): (key: Option<string>)
    ensures key.None? <==> forall k :: !QueryGroupEnd(rest, k)
    ensures key.Some? ==> (QueryGroupEnd(rest, |key.value|) && key.value == rest[..|key.value|]
      && forall k :: |key.value| < k ==> !QueryGroupEnd(rest, k))
  {
    match LongestQueryGroup(rest, |rest|)
    case None => None
    case Some(k) => Some(rest[..k])
  }

  /** The outcome of the query template: no match, or a match whose group 1 may be unset. */
  datatype QueryMatch = NoMatch | Query(key: Option<string>)

  /** `^(?:What is|Where is) (.*[^?])?`; `ignoreCase` is the flag of the host's `regexp` handler. */
  function MatchQuery(line: string, ignoreCase: bool): (m: QueryMatch)
    ensures m.Query? <==> StartsWithPattern(line, "What is ", ignoreCase) || StartsWithPattern(line, "Where is ", ignoreCase)
    ensures StartsWithPattern(line, "What is ", ignoreCase) ==> m == Query(QueryKey(line[8..]))
    ensures StartsWithPattern(line, "Where is ", ignoreCase) ==> m == Query(QueryKey(line[9..]))
  {
    PrefixesExclusive(line, ignoreCase);
    if StartsWithPattern(line, "What is ", ignoreCase) then Query(QueryKey(line[8..]))
    else if StartsWithPattern(line, "Where is ", ignoreCase) then Query(QueryKey(line[9..]))
    else NoMatch
  }

  /** The two alternatives of the query template never both match: they differ in their third character. */
  lemma PrefixesExclusive(line: string, ignoreCase: bool)
    ensures !(StartsWithPattern(line, "What is ", ignoreCase) && StartsWithPattern(line, "Where is ", ignoreCase))
  {
    if StartsWithPattern(line, "What is ", ignoreCase) {
      assert CharMatches(line[2], 'a', ignoreCase);
    }
  }

  /** `^forget (.*)`: the key is the rest of the line, not stripped, up to the first newline. */
  function MatchDelete(line: string, ignoreCase: bool): (key: Option<string>)
    ensures key.Some? <==> StartsWithPattern(line, "forget ", ignoreCase)
    ensures key.Some? ==> (7 + |key.value| <= |line| && key.value == line[7..7 + |key.value|] && '\n' !in key.value
      && (7 + |key.value| == |line| || line[7 + |key.value|] == '\n'))
  {
    if StartsWithPattern(line, "forget ", ignoreCase) then Some(RestOfLine(line[7..])) else None
  }

  // ---------------------------------------------------------------------------
  // Replies

  /** The lead-ins `getFactoid` picks from at random. */
  const Flavors: seq<string> := ["I think that", "Perhaps", "Maybe", "Possibly",
    "Someone told me that", "I heard that", "A wise man once said",
    "I read somewhere that", "I could be wrong but", "The magic 8 ball says that"]

  const GotIt: string := "Got it!"
  const ReplaceFailed: string := "I failed to replace that factoid for some reason... Sorry..."
  const Forgotten: string := "Like it was never there..."

  /** Python's `"%s" % v`: a missing value is printed as `None`. */
  function Show(v: Option<string>): string
  {
    match v
    case None => "None"
    case Some(s) => s
  }

  // ---------------------------------------------------------------------------
  // The handlers

  /**
   * `createFactoid`: teach `key is value` with `set_factoid`. A new key is stored silently; a key
   * already held in any channel leaves the table alone and the reply quotes the value this channel
   * sees for it, which reads `None` when the key belongs to another channel.
   */
  method CreateFactoid(store: SQLiteFactoid, channel: string, line: string) returns (reply: Option<string>)
    requires store.Valid()
    modifies store
    ensures store.Valid()
    ensures MatchCreate(line).None? ==> reply == None && store.rows == old(store.rows)
    ensures MatchCreate(line).Some? ==>
      var g := Stripped(MatchCreate(line).value);
      if HasKey(old(store.rows), g.key)
      then reply == Some("But " + g.key + " is already " + Show(Select(old(store.rows), channel, g.key)))
        && store.rows == old(store.rows)
      else reply == None && store.rows == old(store.rows) + [Row(channel, g.key, g.value)]
  {
    match MatchCreate(line)
    case None =>
      reply := None;
    case Some(raw) =>
      var g := Stripped(raw);
      var outcome := store.SetFactoid(channel, g.key, g.value);
      match outcome
      case Inserted =>
        reply := None;
      case Conflict(current) =>
        reply := Some("But " + g.key + " is already " + Show(current));
  }

  /**
   * `replaceFactoid`: `no, key is value` stores the value with `update_factoid`, which always
   * succeeds, so the reply is always "Got it!"; afterwards this channel reads the new value.
   */
  method ReplaceFactoid(store: SQLiteFactoid, channel: string, line: string) returns (reply: Option<string>)
    requires store.Valid()
    modifies store
    ensures store.Valid()
    ensures MatchReplace(line).None? ==> reply == None && store.rows == old(store.rows)
    ensures MatchReplace(line).Some? ==>
      var g := Stripped(MatchReplace(line).value);
      reply == Some(GotIt)
      && store.rows == InsertOrReplace(old(store.rows), Row(channel, g.key, g.value))
      && store.GetFactoid(channel, g.key) == Some(g.value)
  {
    match MatchReplace(line)
    case None =>
      reply := None;
    case Some(raw) =>
      var g := Stripped(raw);
      var ok := store.UpdateFactoid(channel, g.key, g.value);
      reply := Some(if ok then GotIt else ReplaceFailed);
  }

  /**
   * `getFactoid`: a reply exists exactly when the line is a query whose key this channel holds,
   * and it is the chosen lead-in, the key and the stored value. A query whose group is unset asks
   * for `key = NULL`, which no row satisfies. `choice` stands for `random.choice`.
   */
  function AskFactoid(store: SQLiteFactoid, channel: string, line: string, ignoreCase: bool, choice: nat): (reply: Option<string>)
    reads store
    requires choice < |Flavors|
    ensures reply.Some? ==> MatchQuery(line, ignoreCase).Query? && MatchQuery(line, ignoreCase).key.Some?
    ensures reply.Some? ==>
      var key := MatchQuery(line, ignoreCase).key.value;
      exists v :: Row(channel, key, v) in store.rows && reply.value == Flavors[choice] + " " + key + " is " + v
    ensures store.Valid() && MatchQuery(line, ignoreCase).Query? && MatchQuery(line, ignoreCase).key.Some? ==>
      var key := MatchQuery(line, ignoreCase).key.value;
      (exists v :: Row(channel, key, v) in store.rows) ==> reply.Some?
  {
    match MatchQuery(line, ignoreCase)
    case NoMatch => None
    case Query(None) => None
    case Query(Some(key)) =>
      match store.GetFactoid(channel, key)
      case None => None
      case Some(v) => Some(Flavors[choice] + " " + key + " is " + v)
  }

  /**
   * `delFactoid`: `forget key` deletes the pair with `delete_factoid`, which always reports
   * success, so the reply comes whether or not a row was removed.
   */
  method DelFactoid(store: SQLiteFactoid, channel: string, line: string, ignoreCase: bool) returns (reply: Option<string>)
    requires store.Valid()
    modifies store
    ensures store.Valid()
    ensures MatchDelete(line, ignoreCase).None? ==> reply == None && store.rows == old(store.rows)
    ensures MatchDelete(line, ignoreCase).Some? ==>
      var key := MatchDelete(line, ignoreCase).value;
      reply == Some(Forgotten)
      && store.rows == DeleteWhere(old(store.rows), channel, key)
      && store.GetFactoid(channel, key) == None
  {
    match MatchDelete(line, ignoreCase)
    case None =>
      reply := None;
    case Some(key) =>
      var ok := store.DeleteFactoid(channel, key);
      reply := if ok then Some(Forgotten) else None;
  }

  // ---------------------------------------------------------------------------
  // What the templates extract

  /** Where ` is ` follows a run of characters that holds no space and no newline, the lazy group closes there. */
  lemma FirstGroupEndAt(line: string, lo: nat, e: nat)
    requires lo < e && SeparatorAt(line, e)
    requires forall i :: lo <= i < e ==> line[i] != ' ' && line[i] != '\n'
    ensures FirstGroupEnd(line, lo, e)
  {
    assert forall i :: 0 <= i < e - lo ==> line[lo..e][i] == line[lo + i];
    forall j' | lo < j' < e
      ensures !SeparatorAt(line, j')
    {
      assert line[j'..][0] != ' ';
    }
  }

  /**
   * `key is value` teaches `key` when the key is at least two characters long, starts outside the
   * excluded class and holds no space, and no newline interrupts the line.
   */
  lemma TeachLine(key: string, value: string)
    requires |key| >= 2 && !ExcludedInitial(key[0])
    requires ' ' !in key && '\n' !in key && '\n' !in value
    ensures MatchCreate(key + " is " + value) == Some(Groups(key, value))
  {
    var line := key + " is " + value;
    assert line[|key|..][..4] == " is ";
    assert forall i :: 0 <= i < |key| ==> line[i] == key[i] && key[i] in key;
    FirstGroupEndAt(line, 1, |key|);
    var m := MatchCreate(line);
    assert m.Some?;
    assert line[..|key|] == key;
    assert line[|key| + 4..] == value;
    RestOfPlainLine(value);
  }

  /** `no, key is value` gives the replace handler `key` and `value` when the key holds no space and no newline interrupts the line. */
  lemma CorrectLine(key: string, value: string)
    requires |key| >= 1 && ' ' !in key && '\n' !in key && '\n' !in value
    ensures MatchReplace("no, " + key + " is " + value) == Some(Groups(key, value))
  {
    var line := "no, " + key + " is " + value;
    assert line[4 + |key|..][..4] == " is ";
    assert forall i :: 0 <= i < |key| ==> line[4 + i] == key[i] && key[i] in key;
    FirstGroupEndAt(line, 4, 4 + |key|);
    var m := MatchReplace(line);
    assert StartsWithPattern(line, "no, ", true);
    assert m.Some?;
    assert line[4..4 + |key|] == key;
    assert line[4 + |key| + 4..] == value;
    RestOfPlainLine(value);
  }

  /** `forget key` gives the delete handler `key`, unstripped, when it holds no newline. */
  lemma ForgetLine(key: string, ignoreCase: bool)
    requires '\n' !in key
    ensures MatchDelete("forget " + key, ignoreCase) == Some(key)
  {
    var line := "forget " + key;
    assert StartsWithPattern(line, "forget ", ignoreCase);
    assert line[7..] == key;
    RestOfPlainLine(key);
  }

  /** Text with every trailing '?' removed: the reference for what the query group keeps. */
  function DropQuestionMarks(s: string): (r: string)
    ensures |r| <= |s| && r == s[..|r|]
    ensures r == [] || r[|r| - 1] != '?'
    ensures forall i :: |r| <= i < |s| ==> s[i] == '?'
  {
    if s != [] && s[|s| - 1] == '?' then DropQuestionMarks(s[..|s| - 1]) else s
  }

  /**
   * On a line without a newline, the query key is what remains once every trailing '?' is dropped,
   * and the group is unset when nothing remains.
   */
  lemma QueryKeyDropsQuestionMarks(rest: string)
    requires '\n' !in rest
    ensures QueryKey(rest) == if DropQuestionMarks(rest) == [] then None else Some(DropQuestionMarks(rest))
  {
    var d := DropQuestionMarks(rest);
    forall k | 0 < k <= |rest|
      ensures QueryGroupEnd(rest, k) <==> rest[k - 1] != '?'
    {
      assert forall i :: 0 <= i < k - 1 ==> rest[..k - 1][i] == rest[i] && rest[i] in rest;
    }
    if d == [] {
      assert forall k :: !QueryGroupEnd(rest, k);
    } else {
      assert QueryGroupEnd(rest, |d|);
      var key := QueryKey(rest);
      assert |key.value| == |d|;
    }
  }

  /** `What is key?` asks for `key` when the key is non-empty, holds no newline and does not itself end in '?'. */
  lemma AskLine(key: string, ignoreCase: bool)
    requires key != [] && '\n' !in key && key[|key| - 1] != '?'
    ensures MatchQuery("What is " + key + "?", ignoreCase) == Query(Some(key))
  {
    var line := "What is " + key + "?";
    assert StartsWithPattern(line, "What is ", ignoreCase);
    assert line[8..] == key + "?";
    assert '\n' !in key + "?";
    QueryKeyDropsQuestionMarks(key + "?");
    assert (key + "?")[..|key|] == key;
  }

  /** A query line never teaches: its first letter, 'W' or 'w', is in the create template's excluded class. */
  lemma QueryNeverTeaches(line: string, ignoreCase: bool)
    requires MatchQuery(line, ignoreCase).Query?
    ensures MatchCreate(line).None?
  {
    assert CharMatches(line[0], 'W', ignoreCase);
    assert Fold(line[0]) == 'w';
  }

  /**
   * Every correction is also taught: a line the replace template matches is matched by the create
   * template too, whose key ends no later than the replace key (so it begins with "no,").
   */
  lemma CorrectionAlsoTeaches(line: string)
    requires MatchReplace(line).Some?
    ensures MatchCreate(line).Some?
    ensures 4 + |MatchReplace(line).value.key| >= |MatchCreate(line).value.key| >= 3
  {
    var e := 4 + |MatchReplace(line).value.key|;
    assert GroupEnd(line, 4, e);
    assert CharMatches(line[0], 'n', true) && CharMatches(line[1], 'o', true);
    assert CharMatches(line[2], ',', true) && CharMatches(line[3], ' ', true);
    forall i | 1 <= i < e
      ensures line[i] != '\n'
    {
      if i >= 4 {
        assert line[i] == line[4..e][i - 4];
      }
    }
    assert forall i :: 0 <= i < e - 1 ==> line[1..e][i] == line[i + 1];
    assert GroupEnd(line, 1, e);
    assert !ExcludedInitial(line[0]);
    assert !SeparatorAt(line, 2) by {
      assert line[2] == ',';
    }
  }
}
