/**
 * The `factoids` table of `SQLiteFactoid`: columns (channel, key, factoid) with the
 * PRIMARY KEY on `key` alone, while reads and deletes filter on channel AND key.
 * The table is a sequence of rows in storage order; each SQL statement the store
 * issues is a function on it, and the store class applies them to its one field.
 */
module FactoidStore {
  import opened Optional

  /** One row of the `factoids` table. */
  datatype Row = Row(channel: string, key: string, factoid: string)

  /** The PRIMARY KEY (key) constraint: no two rows share a key, whatever their channels. */
  ghost predicate KeysUnique(rows: seq<Row>)
  {
    forall i, j :: 0 <= i < j < |rows| ==> rows[i].key != rows[j].key
  }

  /** Some row, in any channel, has this key: the case in which a plain INSERT of it raises IntegrityError. */
  predicate HasKey(rows: seq<Row>, key: string)
  {
    exists i :: 0 <= i < |rows| && rows[i].key == key
  }

  /** The WHERE clause `channel = ? AND key = ?` of the store's SELECT and DELETE. */
  predicate Matches(row: Row, channel: string, key: string)
  {
    row.channel == channel && row.key == key
  }

  /**
   * `SELECT factoid FROM factoids WHERE channel = ? AND key = ?`, then `result[0][0]`,
   * or None when the result is empty.
   */
  function Select(rows: seq<Row>, channel: string, key: string): (r: Option<string>)
    ensures r.Some? ==> Row(channel, key, r.value) in rows
    ensures r.None? <==> forall i :: 0 <= i < |rows| ==> !Matches(rows[i], channel, key)
  {
    if rows == [] then None
    else if Matches(rows[0], channel, key) then Some(rows[0].factoid)
    else
      var r := Select(rows[1..], channel, key);
      assert forall i :: 1 <= i < |rows| ==> rows[i] == rows[1..][i - 1];
      r
  }

  /** `DELETE FROM factoids WHERE channel = ? AND key = ?`: the rows that do not match, in their order. */
  function DeleteWhere(rows: seq<Row>, channel: string, key: string): (r: seq<Row>)
    ensures |r| <= |rows|
    ensures forall row :: row in r <==> row in rows && !Matches(row, channel, key)
  {
    if rows == [] then []
    else
      var rest := DeleteWhere(rows[1..], channel, key);
      assert forall row :: row in rows <==> row == rows[0] || row in rows[1..];
      if Matches(rows[0], channel, key) then rest else [rows[0]] + rest
  }

  /** The deletion step of REPLACE conflict resolution: every row with this key goes, whatever its channel. */
  function WithoutKey(rows: seq<Row>, key: string): (r: seq<Row>)
    ensures |r| <= |rows|
    ensures forall row :: row in r <==> row in rows && row.key != key
  {
    if rows == [] then []
    else
      var rest := WithoutKey(rows[1..], key);
      assert forall row :: row in rows <==> row == rows[0] || row in rows[1..];
      if rows[0].key == key then rest else [rows[0]] + rest
  }

  /**
   * `INSERT OR REPLACE`: the only uniqueness constraint is the primary key, so the REPLACE
   * resolution removes the row holding the new row's key, in any channel, and the new row is
   * stored after the others (it takes a fresh rowid).
   */
  function InsertOrReplace(rows: seq<Row>, row: Row): (r: seq<Row>)
    ensures 0 < |r| <= |rows| + 1 && r[|r| - 1] == row
    ensures forall x :: x in r <==> x == row || (x in rows && x.key != row.key)
  {
    WithoutKey(rows, row.key) + [row]
  }

  /** What `set_factoid` returns: `(True, True)` after an insert, `(False, currFactoid)` on IntegrityError. */
  datatype SetOutcome = Inserted | Conflict(current: Option<string>)

  /** The SQLite-backed factoid store; `rows` is the `factoids` table. */
  class SQLiteFactoid {
    var rows: seq<Row>

    /** The table keeps its primary-key constraint. */
    ghost predicate Valid()
      reads this
    {
      KeysUnique(rows)
    }

    /** `init_tables` on a new database: the table exists and is empty. */
    constructor ()
      ensures Valid() && rows == []
    {
      rows := [];
    }

    /** `get_factoid`: the value stored for this key in this channel, if any; the table is not changed. */
    function GetFactoid(channel: string, key: string): (r: Option<string>)
      reads this
      ensures Valid() ==> forall v :: r == Some(v) <==> Row(channel, key, v) in rows
    {
      var r := Select(rows, channel, key);
      assert Valid() ==> forall v :: r == Some(v) <==> Row(channel, key, v) in rows by {
        if Valid() {
          SelectIsTheRow(rows, channel, key);
        }
      }
      r
    }

    /**
     * `set_factoid`: a plain INSERT. When no row has the key it is inserted; when one has, in any
     * channel, the table is unchanged and the value this channel sees for the key is reported.
     */
    method SetFactoid(channel: string, key: string, factoid: string) returns (outcome: SetOutcome)
      requires Valid()
      modifies this
      ensures Valid()
      ensures !HasKey(old(rows), key) ==> outcome == Inserted && rows == old(rows) + [Row(channel, key, factoid)]
      ensures HasKey(old(rows), key) ==> outcome == Conflict(old(GetFactoid(channel, key))) && rows == old(rows)
    {
      if HasKey(rows, key) {
        outcome := Conflict(GetFactoid(channel, key));
      } else {
        InsertKeepsKeysUnique(rows, Row(channel, key, factoid));
        rows := rows + [Row(channel, key, factoid)];
        outcome := Inserted;
      }
    }

    /**
     * `update_factoid`: INSERT OR REPLACE, which never raises IntegrityError on this schema, so it
     * always reports success; afterwards this channel sees the new value, no other channel sees the
     * key, and every other key reads as before.
     */
    method UpdateFactoid(channel: string, key: string, factoid: string) returns (ok: bool)
      requires Valid()
      modifies this
      ensures Valid() && ok
      ensures rows == InsertOrReplace(old(rows), Row(channel, key, factoid))
      ensures GetFactoid(channel, key) == Some(factoid)
      ensures forall c :: c != channel ==> GetFactoid(c, key) == None
      ensures forall c, k :: k != key ==> GetFactoid(c, k) == old(GetFactoid(c, k))
    {
      var row := Row(channel, key, factoid);
      ghost var before := rows;
      ReplaceKeepsKeysUnique(rows, row);
      rows := InsertOrReplace(rows, row);
      ReplaceThenSelect(before, row);
      forall c, k | k != key
        ensures Select(rows, c, k) == Select(before, c, k)
      {
        ReplaceKeepsOtherKeys(before, row, c, k);
      }
      ok := true;
    }

    /**
     * `delete_factoid`: DELETE of the row matching both channel and key. It reports success even
     * when no row matched; afterwards the pair reads as absent and every other pair reads as before.
     */
    method DeleteFactoid(channel: string, key: string) returns (ok: bool)
      requires Valid()
      modifies this
      ensures Valid() && ok
      ensures rows == DeleteWhere(old(rows), channel, key)
      ensures GetFactoid(channel, key) == None
      ensures forall c, k :: (c, k) != (channel, key) ==> GetFactoid(c, k) == old(GetFactoid(c, k))
    {
      ghost var before := rows;
      DeleteKeepsKeysUnique(rows, channel, key);
      rows := DeleteWhere(rows, channel, key);
      forall c, k | (c, k) != (channel, key)
        ensures Select(rows, c, k) == Select(before, c, k)
      {
        DeleteKeepsOtherPairs(before, channel, key, c, k);
      }
      ok := true;
    }
  }

  // ---------------------------------------------------------------------------
  // The primary-key invariant

  /** A row in front of a table keeps keys unique exactly when the table does and holds no row with its key. */
  lemma ConsKeysUnique(row: Row, rows: seq<Row>)
    ensures KeysUnique([row] + rows) <==> KeysUnique(rows) && forall r :: r in rows ==> r.key != row.key
  {
    var t := [row] + rows;
    assert forall i :: 0 <= i < |rows| ==> t[i + 1] == rows[i];
    if KeysUnique([row] + rows) {
      forall r | r in rows ensures r.key != row.key {
        var i :| 0 <= i < |rows| && rows[i] == r;
        assert t[0].key != t[i + 1].key;
      }
    }
  }

  /** A plain INSERT that passed the primary-key check keeps the constraint. */
  lemma InsertKeepsKeysUnique(rows: seq<Row>, row: Row)
    requires KeysUnique(rows) && !HasKey(rows, row.key)
    ensures KeysUnique(rows + [row])
  {
    var t := rows + [row];
    forall i, j | 0 <= i < j < |t| ensures t[i].key != t[j].key {
      if j == |rows| {
        assert t[i] == rows[i];
      } else {
        assert t[i] == rows[i] && t[j] == rows[j];
      }
    }
  }

  /** DELETE keeps the primary-key constraint. */
  lemma {:induction false} DeleteKeepsKeysUnique(rows: seq<Row>, channel: string, key: string)
    requires KeysUnique(rows)
    ensures KeysUnique(DeleteWhere(rows, channel, key))
  {
    if rows != [] {
      ConsKeysUnique(rows[0], rows[1..]);
      assert rows == [rows[0]] + rows[1..];
      DeleteKeepsKeysUnique(rows[1..], channel, key);
      ConsKeysUnique(rows[0], DeleteWhere(rows[1..], channel, key));
    }
  }

  /** Dropping every row of a key keeps the primary-key constraint, and leaves no row with that key. */
  lemma {:induction false} WithoutKeyKeepsKeysUnique(rows: seq<Row>, key: string)
    requires KeysUnique(rows)
    ensures KeysUnique(WithoutKey(rows, key))
    ensures !HasKey(WithoutKey(rows, key), key)
  {
    if rows != [] {
      ConsKeysUnique(rows[0], rows[1..]);
      assert rows == [rows[0]] + rows[1..];
      WithoutKeyKeepsKeysUnique(rows[1..], key);
      ConsKeysUnique(rows[0], WithoutKey(rows[1..], key));
    }
    var r := WithoutKey(rows, key);
    assert forall i :: 0 <= i < |r| ==> r[i] in r;
  }

  /** INSERT OR REPLACE keeps the primary-key constraint. */
  lemma ReplaceKeepsKeysUnique(rows: seq<Row>, row: Row)
    requires KeysUnique(rows)
    ensures KeysUnique(InsertOrReplace(rows, row))
  {
    WithoutKeyKeepsKeysUnique(rows, row.key);
    InsertKeepsKeysUnique(WithoutKey(rows, row.key), row);
  }

  // ---------------------------------------------------------------------------
  // What reads see

  /**
   * Under the primary key, SELECT finds the value of the row holding the pair, and finds nothing
   * exactly when no row holds it.
   */
  lemma SelectIsTheRow(rows: seq<Row>, channel: string, key: string)
    requires KeysUnique(rows)
    ensures forall v :: Select(rows, channel, key) == Some(v) <==> Row(channel, key, v) in rows
  {
    forall v | Row(channel, key, v) in rows
      ensures Select(rows, channel, key) == Some(v)
    {
      var j :| 0 <= j < |rows| && rows[j] == Row(channel, key, v);
      var r := Select(rows, channel, key);
      assert Matches(rows[j], channel, key);
      var i :| 0 <= i < |rows| && rows[i] == Row(channel, key, r.value);
      assert rows[i].key == rows[j].key;
      assert i == j;
    }
  }

  /**
   * The key of a row that belongs to another channel is invisible here: SELECT in this channel
   * finds nothing. This is what `set_factoid` reports as the current value when it conflicts
   * with another channel's row.
   */
  lemma ForeignKeyHidden(rows: seq<Row>, row: Row, channel: string)
    requires KeysUnique(rows) && row in rows && row.channel != channel
    ensures Select(rows, channel, row.key) == None
  {
    var j :| 0 <= j < |rows| && rows[j] == row;
    forall i | 0 <= i < |rows|
      ensures !Matches(rows[i], channel, row.key)
    {
      if i != j {
        assert rows[i].key != rows[j].key;
      }
    }
  }

  /** SELECT over two runs of rows looks in the first run, then the second. */
  lemma {:induction false} SelectAppend(a: seq<Row>, b: seq<Row>, channel: string, key: string)
    ensures Select(a + b, channel, key) == if Select(a, channel, key).Some? then Select(a, channel, key) else Select(b, channel, key)
  {
    if a != [] {
      assert (a + b)[1..] == a[1..] + b;
      SelectAppend(a[1..], b, channel, key);
    } else {
      assert a + b == b;
    }
  }

  /** Dropping the rows of one key changes nothing SELECT returns for another key. */
  lemma {:induction false} WithoutKeyKeepsOtherKeys(rows: seq<Row>, key: string, channel: string, other: string)
    requires other != key
    ensures Select(WithoutKey(rows, key), channel, other) == Select(rows, channel, other)
  {
    if rows != [] {
      WithoutKeyKeepsOtherKeys(rows[1..], key, channel, other);
      if rows[0].key != key {
        assert ([rows[0]] + WithoutKey(rows[1..], key))[1..] == WithoutKey(rows[1..], key);
      }
    }
  }

  /** After INSERT OR REPLACE of a row, its channel reads its value and every other channel reads nothing for its key. */
  lemma ReplaceThenSelect(rows: seq<Row>, row: Row)
    ensures Select(InsertOrReplace(rows, row), row.channel, row.key) == Some(row.factoid)
    ensures forall c :: c != row.channel ==> Select(InsertOrReplace(rows, row), c, row.key) == None
  {
    var w := WithoutKey(rows, row.key);
    forall c
      ensures Select(InsertOrReplace(rows, row), c, row.key) == Select([row], c, row.key)
    {
      SelectAppend(w, [row], c, row.key);
      assert forall i :: 0 <= i < |w| ==> w[i] in w;
    }
  }

  /** INSERT OR REPLACE changes nothing SELECT returns for any other key. */
  lemma ReplaceKeepsOtherKeys(rows: seq<Row>, row: Row, channel: string, key: string)
    requires key != row.key
    ensures Select(InsertOrReplace(rows, row), channel, key) == Select(rows, channel, key)
  {
    SelectAppend(WithoutKey(rows, row.key), [row], channel, key);
    WithoutKeyKeepsOtherKeys(rows, row.key, channel, key);
  }

  /** DELETE changes nothing SELECT returns for any other (channel, key) pair. */
  lemma {:induction false} DeleteKeepsOtherPairs(rows: seq<Row>, channel: string, key: string, c: string, k: string)
    requires (c, k) != (channel, key)
    ensures Select(DeleteWhere(rows, channel, key), c, k) == Select(rows, c, k)
  {
    if rows != [] {
      DeleteKeepsOtherPairs(rows[1..], channel, key, c, k);
      if !Matches(rows[0], channel, key) {
        assert ([rows[0]] + DeleteWhere(rows[1..], channel, key))[1..] == DeleteWhere(rows[1..], channel, key);
      }
    }
  }

  /**
   * A DELETE whose pair no row holds (the key is unknown, or belongs to another channel) leaves
   * the table exactly as it was, although `delete_factoid` still reports success.
   */
  lemma {:induction false} DeleteOfAbsentPair(rows: seq<Row>, channel: string, key: string)
    requires Select(rows, channel, key) == None
    ensures DeleteWhere(rows, channel, key) == rows
  {
    if rows != [] {
      assert !Matches(rows[0], channel, key);
      DeleteOfAbsentPair(rows[1..], channel, key);
      assert [rows[0]] + rows[1..] == rows;
    }
  }
}
