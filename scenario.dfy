/**
 * Short exchanges through the four handlers and the store, each from an empty table, showing how
 * channel-scoped reads meet the table-wide key.
 */
module FactoidScenario {
  import opened Optional
  import opened PyText
  import opened FactoidStore
  import opened FactoidHandlers

  /** Text `strip()` leaves alone and that no newline interrupts. */
  predicate PlainValue(v: string)
  {
    '\n' !in v && (v == [] || (!IsSpace(v[0]) && !IsSpace(v[|v| - 1])))
  }

  /**
   * A key every template extracts whole: two or more characters, none of them whitespace, a first
   * character the create template accepts and a last one other than '?'.
   */
  predicate PlainKey(key: string)
  {
    |key| >= 2 && !ExcludedInitial(key[0]) && key[|key| - 1] != '?'
    && forall i :: 0 <= i < |key| ==> !IsSpace(key[i])
  }

  /** A plain key holds neither a space nor a newline. */
  lemma PlainKeyChars(key: string)
    requires PlainKey(key)
    ensures ' ' !in key && '\n' !in key
  {
    forall i | 0 <= i < |key|
      ensures key[i] != ' ' && key[i] != '\n'
    {
      assert !IsSpace(key[i]);
    }
  }

  /** A plain key and value are extracted whole by the create template. */
  lemma PlainTeach(key: string, value: string)
    requires PlainKey(key) && PlainValue(value)
    ensures MatchCreate(key + " is " + value).Some?
    ensures Stripped(MatchCreate(key + " is " + value).value) == Groups(key, value)
  {
    PlainKeyChars(key);
    TeachLine(key, value);
    PlainGroupsStripped(key, value);
  }

  /** Stripping leaves a plain key and value as they are. */
  lemma PlainGroupsStripped(key: string, value: string)
    requires PlainKey(key) && PlainValue(value)
    ensures Stripped(Groups(key, value)) == Groups(key, value)
  {
    StripTrimmed(key);
    StripTrimmed(value);
  }

  /** A plain key and value are extracted whole by the replace template. */
  lemma PlainCorrect(key: string, value: string)
    requires PlainKey(key) && PlainValue(value)
    ensures MatchReplace("no, " + key + " is " + value).Some?
    ensures Stripped(MatchReplace("no, " + key + " is " + value).value) == Groups(key, value)
  {
    PlainKeyChars(key);
    CorrectLine(key, value);
    PlainGroupsStripped(key, value);
  }

  /** A plain key is extracted whole by the query and delete templates. */
  lemma PlainAskAndForget(key: string)
    requires PlainKey(key)
    ensures MatchQuery("What is " + key + "?", true) == Query(Some(key))
    ensures MatchDelete("forget " + key, true) == Some(key)
  {
    PlainKeyChars(key);
    AskLine(key, true);
    ForgetLine(key, true);
  }

  /** The conflict reply for a row this channel cannot see. */
  lemma ConflictWithNone(key: string)
    ensures "But " + key + " is already " + Show(None) == "But " + key + " is already None"
  {
    assert " is already " + "None" == " is already None";
  }

  // ---------------------------------------------------------------------------
  // The four handlers fed with lines built from a plain key and value

  /** `key is value` sent to `createFactoid`. */
  method Teach(store: SQLiteFactoid, channel: string, key: string, value: string) returns (reply: Option<string>)
    requires store.Valid() && PlainKey(key) && PlainValue(value)
    modifies store
    ensures store.Valid()
    ensures HasKey(old(store.rows), key) ==>
      reply == Some("But " + key + " is already " + Show(Select(old(store.rows), channel, key)))
      && store.rows == old(store.rows)
    ensures !HasKey(old(store.rows), key) ==> reply == None && store.rows == old(store.rows) + [Row(channel, key, value)]
  {
    PlainTeach(key, value);
    reply := CreateFactoid(store, channel, key + " is " + value);
  }

  /** `no, key is value` sent to `replaceFactoid`. */
  method Correct(store: SQLiteFactoid, channel: string, key: string, value: string) returns (reply: Option<string>)
    requires store.Valid() && PlainKey(key) && PlainValue(value)
    modifies store
    ensures store.Valid()
    ensures reply == Some("Got it!") && store.rows == InsertOrReplace(old(store.rows), Row(channel, key, value))
  {
    PlainCorrect(key, value);
    reply := ReplaceFactoid(store, channel, "no, " + key + " is " + value);
  }

  /** `What is key?` sent to `getFactoid`. */
  method Ask(store: SQLiteFactoid, channel: string, key: string, choice: nat) returns (reply: Option<string>)
    requires PlainKey(key) && choice < |Flavors|
    ensures Select(store.rows, channel, key).None? ==> reply == None
    ensures Select(store.rows, channel, key).Some? ==>
      reply == Some(Flavors[choice] + " " + key + " is " + Select(store.rows, channel, key).value)
  {
    PlainAskAndForget(key);
    reply := AskFactoid(store, channel, "What is " + key + "?", true, choice);
  }

  /** `forget key` sent to `delFactoid`. */
  method Forget(store: SQLiteFactoid, channel: string, key: string) returns (reply: Option<string>)
    requires store.Valid() && PlainKey(key)
    modifies store
    ensures store.Valid()
    ensures reply == Some("Like it was never there...") && store.rows == DeleteWhere(old(store.rows), channel, key)
  {
    PlainAskAndForget(key);
    reply := DelFactoid(store, channel, "forget " + key, true);
  }

  // ---------------------------------------------------------------------------
  // Exchanges

  /**
   * A key taught in one channel cannot be taught in another: the second create is refused and,
   * since the other channel cannot see the row, quotes the current value as None.
   */
  method TeachInTwoChannels(c1: string, c2: string, key: string, v1: string, v2: string)
    returns (r1: Option<string>, r2: Option<string>)
    requires c1 != c2 && PlainKey(key) && PlainValue(v1) && PlainValue(v2)
    ensures r1 == None && r2 == Some("But " + key + " is already None")
  {
    var store := new SQLiteFactoid();
    r1 := Teach(store, c1, key, v1);
    assert store.rows == [Row(c1, key, v1)];
    assert HasKey(store.rows, key) by { assert store.rows[0].key == key; }
    assert Select(store.rows, c2, key) == None by {
      ForeignKeyHidden(store.rows, Row(c1, key, v1), c2);
    }
    r2 := Teach(store, c2, key, v2);
    ConflictWithNone(key);
  }

  /** A correction is read back in its channel, whether or not the key was taught first. */
  method CorrectThenAsk(c: string, key: string, v1: string, v2: string, choice: nat)
    returns (r1: Option<string>, r2: Option<string>, r3: Option<string>)
    requires PlainKey(key) && PlainValue(v1) && PlainValue(v2) && choice < |Flavors|
    ensures r1 == Some("Got it!") && r2 == Some("Got it!")
    ensures r3 == Some(Flavors[choice] + " " + key + " is " + v2)
  {
    var store := new SQLiteFactoid();
    r1 := Correct(store, c, key, v1);
    ghost var before := store.rows;
    r2 := Correct(store, c, key, v2);
    ReplaceThenSelect(before, Row(c, key, v2));
    r3 := Ask(store, c, key, choice);
  }

  /** A correction in another channel moves the key there: its first channel no longer sees it. */
  method CorrectionMovesKey(c1: string, c2: string, key: string, v1: string, v2: string, choice: nat)
    returns (r1: Option<string>, r2: Option<string>, r3: Option<string>, r4: Option<string>)
    requires c1 != c2 && PlainKey(key) && PlainValue(v1) && PlainValue(v2) && choice < |Flavors|
    ensures r1 == None && r2 == Some("Got it!") && r3 == None
    ensures r4 == Some(Flavors[choice] + " " + key + " is " + v2)
  {
    var store := new SQLiteFactoid();
    r1 := Teach(store, c1, key, v1);
    assert store.rows == [Row(c1, key, v1)];
    r2 := Correct(store, c2, key, v2);
    ReplaceThenSelect([Row(c1, key, v1)], Row(c2, key, v2));
    r3 := Ask(store, c1, key, choice);
    r4 := Ask(store, c2, key, choice);
  }

  /**
   * Forgetting a key in a channel that does not hold it is reported as done, and the row stays
   * where it was.
   */
  method ForgetElsewhere(c1: string, c2: string, key: string, v: string, choice: nat)
    returns (r1: Option<string>, r2: Option<string>, r3: Option<string>)
    requires c1 != c2 && PlainKey(key) && PlainValue(v) && choice < |Flavors|
    ensures r1 == None && r2 == Some("Like it was never there...")
    ensures r3 == Some(Flavors[choice] + " " + key + " is " + v)
  {
    var store := new SQLiteFactoid();
    r1 := Teach(store, c1, key, v);
    assert store.rows == [Row(c1, key, v)];
    assert Select(store.rows, c2, key) == None by {
      ForeignKeyHidden(store.rows, Row(c1, key, v), c2);
    }
    r2 := Forget(store, c2, key);
    DeleteOfAbsentPair([Row(c1, key, v)], c2, key);
    r3 := Ask(store, c1, key, choice);
  }

  /** A key taught, asked for and forgotten in one channel is gone afterwards. */
  method TeachAskForget(c: string, key: string, v: string, choice: nat)
    returns (r1: Option<string>, r2: Option<string>, r3: Option<string>, r4: Option<string>)
    requires PlainKey(key) && PlainValue(v) && choice < |Flavors|
    ensures r1 == None && r2 == Some(Flavors[choice] + " " + key + " is " + v)
    ensures r3 == Some("Like it was never there...") && r4 == None
  {
    var store := new SQLiteFactoid();
    r1 := Teach(store, c, key, v);
    assert store.rows == [Row(c, key, v)];
    r2 := Ask(store, c, key, choice);
    r3 := Forget(store, c, key);
    assert Select(store.rows, c, key) == None;
    r4 := Ask(store, c, key, choice);
  }
}
