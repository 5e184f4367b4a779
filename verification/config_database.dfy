/**
 * The app's settings store: one SQLite table `config` whose text key column is
 * UNIQUE, read with a keyed query and written with REPLACE.
 *
 * Callers see a finite map from key to value (`Store`). Underneath, the table
 * is a sequence of rows (`Table`); the lemmas at the end show that the row
 * operations implement the map operations, which is what the UNIQUE key and
 * REPLACE buy. The value type is a parameter: the app stores text, and the
 * rest of this model stands each stored text in for what it encodes.
 */
module ConfigDatabase {
  import opened Optional

  // ---------------------------------------------------------------------
  // The store as its callers see it
  // ---------------------------------------------------------------------

  type Store<V> = map<string, V>

  /** `getConfigValue`: the value stored under `key`, or null. */
  function Get<V>(s: Store<V>, key: string): (r: Option<V>)
    ensures r.Some? <==> key in s
    ensures r.Some? ==> r.value == s[key]
  {
    if key in s then Some(s[key]) else None
  }

  /** `setConfigValue`: afterwards `key` reads back `value` and no other key changed. */
  function Set<V>(s: Store<V>, key: string, value: V): (r: Store<V>)
    ensures Get(r, key) == Some(value)
    ensures forall k :: k != key ==> Get(r, k) == Get(s, k)
    ensures r.Keys == s.Keys + {key}
  {
    s[key := value]
  }

  /** `onCreate` on a new database: the table exists and holds nothing. */
  function Fresh<V>(): (s: Store<V>)
    ensures forall k :: Get(s, k).None?
  {
    map[]
  }

  /** `onUpgrade`: the table is dropped and created again, whatever the versions. */
  function Upgrade<V>(s: Store<V>, oldVersion: int, newVersion: int): (r: Store<V>)
    ensures forall k :: Get(r, k).None?
  {
    Fresh()
  }

  /** Writing a key twice keeps only the latest value. */
  lemma SetTwiceKeepsLatest<V>(s: Store<V>, key: string, first: V, second: V)
    ensures Set(Set(s, key, first), key, second) == Set(s, key, second)
    ensures Get(Set(Set(s, key, first), key, second), key) == Some(second)
  {
  }

  // ---------------------------------------------------------------------
  // The table underneath
  // ---------------------------------------------------------------------

  /** A row: AUTOINCREMENT id, key column, value column. */
  datatype Row<V> = Row(id: nat, key: string, value: V)

  /** The rows in storage order and the next id AUTOINCREMENT hands out. */
  datatype Table<V> = Table(rows: seq<Row<V>>, nextId: nat)

  /** The UNIQUE constraint on the key column. */
  predicate KeysUnique<V>(rows: seq<Row<V>>) {
    forall i, j :: 0 <= i < j < |rows| ==> rows[i].key != rows[j].key
  }

  predicate HasKey<V>(rows: seq<Row<V>>, key: string) {
    exists i :: 0 <= i < |rows| && rows[i].key == key
  }

  /** `onCreate`: CREATE TABLE on an empty database. */
  function CreateTable<V>(): (t: Table<V>)
    ensures KeysUnique(t.rows)
    ensures forall k :: !HasKey(t.rows, k)
  {
    Table([], 1)
  }

  /** `onUpgrade`: DROP TABLE IF EXISTS, then `onCreate`. */
  function UpgradeTable<V>(t: Table<V>, oldVersion: int, newVersion: int): (r: Table<V>)
    ensures forall k :: !HasKey(r.rows, k)
  {
    CreateTable()
  }

  /** The keyed SELECT followed by `moveToFirst`: the value of the first matching row. */
  function Query<V>(rows: seq<Row<V>>, key: string): (r: Option<V>)
    ensures r.None? <==> !HasKey(rows, key)
    ensures r.Some? ==> exists i :: 0 <= i < |rows| && rows[i].key == key && rows[i].value == r.value
  {
    if |rows| == 0 then None
    else if rows[0].key == key then Some(rows[0].value)
    else
      var r := Query(rows[1..], key);
      assert forall i :: 0 <= i < |rows| - 1 ==> rows[1..][i] == rows[i + 1];
      r
  }

  /** The rows REPLACE keeps: every row whose key differs from `key`, in order. */
  function Without<V>(rows: seq<Row<V>>, key: string): (r: seq<Row<V>>)
    ensures !HasKey(r, key)
    ensures forall i :: 0 <= i < |r| ==> r[i] in rows
    ensures forall row :: row in rows && row.key != key ==> row in r
  {
    if |rows| == 0 then []
    else
      var rest := Without(rows[1..], key);
      if rows[0].key == key then rest else [rows[0]] + rest
  }

  /**
   * `setConfigValue` through `SQLiteDatabase.replace`: the row holding `key`
   * (if any) is deleted and a row with a new id is inserted.
   */
  function Replace<V>(t: Table<V>, key: string, value: V): (r: Table<V>)
    ensures Query(r.rows, key) == Some(value)
  {
    var kept := Without(t.rows, key);
    assert kept == (kept + [Row(t.nextId, key, value)])[..|kept|];
    QueryAppendMissing(kept, Row(t.nextId, key, value));
    Table(kept + [Row(t.nextId, key, value)], t.nextId + 1)
  }

  /** What a table means to its callers: each key's first row wins. */
  function View<V>(rows: seq<Row<V>>): Store<V>
  {
    if |rows| == 0 then map[] else View(rows[1..])[rows[0].key := rows[0].value]
  }

  lemma {:induction false} QueryAppendMissing<V>(rows: seq<Row<V>>, row: Row<V>)
    requires !HasKey(rows, row.key)
    ensures Query(rows + [row], row.key) == Some(row.value)
  {
    if |rows| > 0 {
      assert (rows + [row])[1..] == rows[1..] + [row];
      assert rows[0].key != row.key;
      assert !HasKey(rows[1..], row.key) by {
        forall i | 0 <= i < |rows| - 1 ensures rows[1..][i].key != row.key {
          assert rows[1..][i] == rows[i + 1];
        }
      }
      QueryAppendMissing(rows[1..], row);
    }
  }

  // ---------------------------------------------------------------------
  // The table implements the map
  // ---------------------------------------------------------------------

  /** The keyed query reads exactly what the map view holds. */
  lemma {:induction false} QueryMatchesView<V>(rows: seq<Row<V>>, key: string)
    ensures Query(rows, key) == Get(View(rows), key)
  {
    if |rows| > 0 && rows[0].key != key {
      QueryMatchesView(rows[1..], key);
    }
  }

  lemma {:induction false} ViewKeys<V>(rows: seq<Row<V>>, key: string)
    ensures key in View(rows) <==> HasKey(rows, key)
  {
    QueryMatchesView(rows, key);
  }

  lemma {:induction false} ViewWithout<V>(rows: seq<Row<V>>, key: string)
    ensures View(Without(rows, key)) == View(rows) - {key}
  {
    if |rows| > 0 {
      ViewWithout(rows[1..], key);
      ViewWithoutStep(rows, key);
    }
  }

  lemma ViewWithoutStep<V>(rows: seq<Row<V>>, key: string)
    requires |rows| > 0
    requires View(Without(rows[1..], key)) == View(rows[1..]) - {key}
    ensures View(Without(rows, key)) == View(rows) - {key}
  {
    var head, tail := rows[0], rows[1..];
    var rest := Without(tail, key);
    assert View(rows) == View(tail)[head.key := head.value];
    if head.key == key {
      assert Without(rows, key) == rest;
      UpdateThenRemove(View(tail), key, head.value);
    } else {
      assert Without(rows, key) == [head] + rest;
      assert ([head] + rest)[1..] == rest;
      assert View([head] + rest) == View(rest)[head.key := head.value];
      RemoveThenUpdate(View(tail), key, head.key, head.value);
    }
  }

  lemma UpdateThenRemove<V>(m: map<string, V>, key: string, value: V)
    ensures m[key := value] - {key} == m - {key}
  {
  }

  lemma RemoveThenUpdate<V>(m: map<string, V>, key: string, other: string, value: V)
    requires other != key
    ensures (m - {key})[other := value] == m[other := value] - {key}
  {
  }

  lemma {:induction false} ViewAppend<V>(rows: seq<Row<V>>, row: Row<V>)
    requires !HasKey(rows, row.key)
    ensures View(rows + [row]) == View(rows)[row.key := row.value]
  {
    if |rows| == 0 {
      assert View([row]) == View([row][1..])[row.key := row.value];
    } else {
      assert (rows + [row])[1..] == rows[1..] + [row];
      assert !HasKey(rows[1..], row.key) by {
        forall i | 0 <= i < |rows| - 1 ensures rows[1..][i].key != row.key {
          assert rows[1..][i] == rows[i + 1];
        }
      }
      ViewAppend(rows[1..], row);
      assert rows[0].key != row.key;
    }
  }

  /** REPLACE on the table is `Set` on its map view. */
  lemma ReplaceRefinesSet<V>(t: Table<V>, key: string, value: V)
    ensures View(Replace(t, key, value).rows) == Set(View(t.rows), key, value)
  {
    var kept := Without(t.rows, key);
    ViewAppend(kept, Row(t.nextId, key, value));
    ViewWithout(t.rows, key);
  }

  /** REPLACE never breaks the UNIQUE constraint. */
  lemma {:induction false} ReplaceKeepsKeysUnique<V>(t: Table<V>, key: string, value: V)
    requires KeysUnique(t.rows)
    ensures KeysUnique(Replace(t, key, value).rows)
  {
    var kept := Without(t.rows, key);
    WithoutKeepsKeysUnique(t.rows, key);
    var rows := kept + [Row(t.nextId, key, value)];
    forall i, j | 0 <= i < j < |rows| ensures rows[i].key != rows[j].key {
      if j == |rows| - 1 {
        assert rows[i] == kept[i];
      } else {
        assert rows[i] == kept[i] && rows[j] == kept[j];
      }
    }
  }

  lemma TailKeysUnique<V>(rows: seq<Row<V>>)
    requires |rows| > 0 && KeysUnique(rows)
    ensures KeysUnique(rows[1..])
    ensures !HasKey(rows[1..], rows[0].key)
  {
    var tail := rows[1..];
    forall i, j | 0 <= i < j < |tail| ensures tail[i].key != tail[j].key {
      assert tail[i] == rows[i + 1] && tail[j] == rows[j + 1];
    }
    forall i | 0 <= i < |tail| ensures tail[i].key != rows[0].key {
      assert tail[i] == rows[i + 1];
    }
  }

  /** Every key REPLACE keeps was already in the table. */
  lemma WithoutKeysFrom<V>(rows: seq<Row<V>>, key: string, other: string)
    requires HasKey(Without(rows, key), other)
    ensures HasKey(rows, other)
  {
    var r := Without(rows, key);
    var i :| 0 <= i < |r| && r[i].key == other;
    assert r[i] in rows;
    var j :| 0 <= j < |rows| && rows[j] == r[i];
  }

  lemma {:induction false} WithoutKeepsKeysUnique<V>(rows: seq<Row<V>>, key: string)
    requires KeysUnique(rows)
    ensures KeysUnique(Without(rows, key))
  {
    if |rows| > 0 {
      var tail := rows[1..];
      TailKeysUnique(rows);
      WithoutKeepsKeysUnique(tail, key);
      var rest := Without(tail, key);
      if rows[0].key != key {
        var r := [rows[0]] + rest;
        assert Without(rows, key) == r;
        assert !HasKey(rest, rows[0].key) by {
          if HasKey(rest, rows[0].key) {
            WithoutKeysFrom(tail, key, rows[0].key);
          }
        }
        forall i, j | 0 <= i < j < |r| ensures r[i].key != r[j].key {
          assert r[j] == rest[j - 1];
          if i > 0 {
            assert r[i] == rest[i - 1];
          }
        }
      }
    }
  }

  /** Under the UNIQUE constraint every key holds at most one row: rows and map entries correspond one to one. */
  lemma {:induction false} OneRowPerKey<V>(rows: seq<Row<V>>)
    requires KeysUnique(rows)
    ensures |View(rows)| == |rows|
  {
    if |rows| > 0 {
      var tail := rows[1..];
      TailKeysUnique(rows);
      OneRowPerKey(tail);
      ViewKeys(tail, rows[0].key);
    }
  }

  /** A created or upgraded table reads as the empty store. */
  lemma NewTableIsFresh<V>(t: Table<V>, oldVersion: int, newVersion: int)
    ensures View(CreateTable<V>().rows) == Fresh<V>()
    ensures View(UpgradeTable(t, oldVersion, newVersion).rows) == Fresh<V>()
  {
  }
}
