/**
  `CharacterDatabase` (src/databases/database.py): the `characters` table,
  one row per `character_id` holding a name, an optional disambiguation hint
  and the profile document. The table is a map from id to row; the SQL
  statements become updates of that map, and `uuid4` becomes a choice of an
  id the table does not hold.
 */
module Database {
  import opened Wrappers
  import opened Schemas
  import opened PyStrings

  /** One row of the `characters` table, without its key. A hint that was
      never given is SQL NULL. */
  datatype Row = Row(name: string, disambiguationHint: Option<string>, profile: ProfileDoc)

  /** The dictionary the read operations build for a row. */
  datatype CharacterRecord = CharacterRecord(
    characterId: string,
    name: string,
    disambiguationHint: Option<string>,
    profile: ProfileDoc)

  function RecordOf(id: string, row: Row): CharacterRecord {
    CharacterRecord(id, row.name, row.disambiguationHint, row.profile)
  }

  /** The records of the rows whose ids are in `ids`. */
  ghost function Records(rows: map<string, Row>, ids: set<string>): set<CharacterRecord>
    requires ids <= rows.Keys
  {
    set id | id in ids :: RecordOf(id, rows[id])
  }

  /** The ids of the rows whose name is exactly `name`. */
  function NamedIds(rows: map<string, Row>, name: string): set<string> {
    set id | id in rows && rows[id].name == name
  }

  /** `name LIKE '%q%' OR disambiguation_hint LIKE '%q%'`, read as plain
      substring search; a NULL hint never matches. */
  predicate Matches(row: Row, query: string) {
    Find(row.name, query) != -1
    || (row.disambiguationHint.Some? && Find(row.disambiguationHint.value, query) != -1)
  }

  function MatchingIds(rows: map<string, Row>, query: string): set<string> {
    set id | id in rows && Matches(rows[id], query)
  }

  /** `UPDATE characters SET profile_json = ? WHERE character_id = ?`. */
  function Updated(rows: map<string, Row>, id: string, doc: ProfileDoc): (r: map<string, Row>)
    ensures r.Keys == rows.Keys
    ensures forall k :: k in rows ==>
      (r[k].name == rows[k].name && r[k].disambiguationHint == rows[k].disambiguationHint)
    ensures forall k :: k in rows && k != id ==> r[k] == rows[k]
    ensures id in rows ==> r[id].profile == doc
  {
    if id in rows then rows[id := rows[id].(profile := doc)] else rows
  }

  /** Writing the same document twice under one id is the same as writing
      it once. */
  lemma UpdateIdempotent(rows: map<string, Row>, id: string, doc: ProfileDoc)
    ensures Updated(Updated(rows, id, doc), id, doc) == Updated(rows, id, doc)
  {
  }

  // ---------------------------------------------------------------------
  // ORDER BY name, disambiguation_hint

  /** SQLite's default (BINARY) collation compares the UTF-8 bytes, which
      orders strings by code point, lexicographically. */
  predicate StrLess(a: string, b: string)
    decreases |a|
  {
    |b| > 0 && (|a| == 0 || a[0] < b[0] || (a[0] == b[0] && StrLess(a[1..], b[1..])))
  }

  lemma {:induction false} StrLessIrreflexive(a: string)
    ensures !StrLess(a, a)
    decreases |a|
  {
    if |a| > 0 {
      StrLessIrreflexive(a[1..]);
    }
  }

  lemma {:induction false} StrLessTransitive(a: string, b: string, c: string)
    requires StrLess(a, b) && StrLess(b, c)
    ensures StrLess(a, c)
    decreases |a|
  {
    if |a| > 0 && a[0] == b[0] && b[0] == c[0] {
      StrLessTransitive(a[1..], b[1..], c[1..]);
    }
  }

  lemma {:induction false} StrLessTotal(a: string, b: string)
    ensures a == b || StrLess(a, b) || StrLess(b, a)
    decreases |a|
  {
    if |a| > 0 && |b| > 0 && a[0] == b[0] {
      StrLessTotal(a[1..], b[1..]);
      if a[1..] == b[1..] {
        assert a == [a[0]] + a[1..] && b == [b[0]] + b[1..];
      }
    }
  }

  /** NULL sorts before every string. */
  predicate HintAtMost(a: Option<string>, b: Option<string>) {
    a.None? || (b.Some? && (a.value == b.value || StrLess(a.value, b.value)))
  }

  /** `x` may come before `y` under `ORDER BY name, disambiguation_hint`. */
  predicate OrderedBefore(x: CharacterRecord, y: CharacterRecord) {
    StrLess(x.name, y.name) || (x.name == y.name && HintAtMost(x.disambiguationHint, y.disambiguationHint))
  }

  lemma OrderedTotal(x: CharacterRecord, y: CharacterRecord)
    ensures OrderedBefore(x, y) || OrderedBefore(y, x)
  {
    StrLessTotal(x.name, y.name);
    if x.disambiguationHint.Some? && y.disambiguationHint.Some? {
      StrLessTotal(x.disambiguationHint.value, y.disambiguationHint.value);
    }
  }

  lemma OrderedTransitive(x: CharacterRecord, y: CharacterRecord, z: CharacterRecord)
    requires OrderedBefore(x, y) && OrderedBefore(y, z)
    ensures OrderedBefore(x, z)
  {
    if StrLess(x.name, y.name) && StrLess(y.name, z.name) {
      StrLessTransitive(x.name, y.name, z.name);
    }
    if x.name == y.name == z.name && x.disambiguationHint.Some? {
      StrLessIrreflexive(x.name);
      var a, b, c := x.disambiguationHint.value, y.disambiguationHint.value, z.disambiguationHint.value;
      if StrLess(a, b) && StrLess(b, c) {
        StrLessTransitive(a, b, c);
      }
    }
  }

  predicate SortedByNameHint(rs: seq<CharacterRecord>) {
    forall i, j :: 0 <= i < j < |rs| ==> OrderedBefore(rs[i], rs[j])
  }

  /** Inserts `x` after every record that must precede it. */
  function InsertSorted(x: CharacterRecord, rs: seq<CharacterRecord>): (r: seq<CharacterRecord>)
    ensures multiset(r) == multiset(rs) + multiset{x}
    decreases |rs|
  {
    if |rs| == 0 then [x]
    else if OrderedBefore(x, rs[0]) then [x] + rs
    else
      assert rs == [rs[0]] + rs[1..];
      [rs[0]] + InsertSorted(x, rs[1..])
  }

  lemma {:induction false} InsertSortedSorted(x: CharacterRecord, rs: seq<CharacterRecord>)
    requires SortedByNameHint(rs)
    ensures SortedByNameHint(InsertSorted(x, rs))
    decreases |rs|
  {
    if |rs| == 0 {
    } else if OrderedBefore(x, rs[0]) {
      var r := [x] + rs;
      forall i, j | 0 <= i < j < |r| ensures OrderedBefore(r[i], r[j]) {
        if i == 0 && j > 1 {
          OrderedTransitive(x, rs[0], rs[j - 1]);
        }
      }
    } else {
      var tail := rs[1..];
      InsertSortedSorted(x, tail);
      var r := InsertSorted(x, tail);
      OrderedTotal(x, rs[0]);
      forall k | 0 <= k < |r| ensures OrderedBefore(rs[0], r[k]) {
        assert r[k] in multiset(r);
        if r[k] != x {
          assert r[k] in multiset(tail);
          var m :| 0 <= m < |tail| && tail[m] == r[k];
          assert rs[m + 1] == r[k];
        }
      }
      assert InsertSorted(x, rs) == [rs[0]] + r;
    }
  }

  lemma RecordsAdd(rows: map<string, Row>, done: set<string>, id: string)
    requires done <= rows.Keys && id in rows && id !in done
    ensures multiset(Records(rows, done + {id}))
      == multiset(Records(rows, done)) + multiset{RecordOf(id, rows[id])}
  {
    var x := RecordOf(id, rows[id]);
    assert Records(rows, done + {id}) == Records(rows, done) + {x};
    assert x !in Records(rows, done);
  }

  lemma RecordsEmpty(rows: map<string, Row>, ids: set<string>)
    requires ids <= rows.Keys
    ensures Records(rows, ids) == {} <==> ids == {}
  {
    if ids != {} {
      var id :| id in ids;
      assert RecordOf(id, rows[id]) in Records(rows, ids);
    }
  }

  /** Stands in for `str(uuid.uuid4())`: a non-empty id that none of `used`
      equals (longer than every one of them). */
  method FreshId(used: set<string>) returns (id: string)
    ensures id !in used && id != ""
  {
    var longest: nat := 0;
    var rest := used;
    while rest != {}
      invariant rest <= used
      invariant forall k :: k in used && k !in rest ==> |k| <= longest
      decreases |rest|
    {
      var k :| k in rest;
      if |k| > longest {
        longest := |k|;
      }
      rest := rest - {k};
    }
    id := seq(longest + 1, _ => 'c');
  }

  class CharacterDatabase {
    /** The `characters` table, keyed by `character_id`. */
    var rows: map<string, Row>

    /** Opening the database keeps whatever the table already holds
        (`CREATE TABLE IF NOT EXISTS`). */
    constructor (persisted: map<string, Row>)
      ensures rows == persisted
    {
      rows := persisted;
    }

    method InsertCharacter(name: string, profile: ProfileDoc, disambiguationHint: Option<string>)
      returns (characterId: string)
      modifies this
      ensures characterId !in old(rows) && characterId != ""
      ensures rows == old(rows)[characterId := Row(name, disambiguationHint, profile)]
      ensures |rows| == |old(rows)| + 1
    {
      characterId := FreshId(rows.Keys);
      rows := rows[characterId := Row(name, disambiguationHint, profile)];
    }

    /** Replaces the profile document only; true iff the id was present. */
    method UpdateCharacter(characterId: string, profile: ProfileDoc) returns (updated: bool)
      modifies this
      ensures updated <==> characterId in old(rows)
      ensures rows == Updated(old(rows), characterId, profile)
    {
      updated := characterId in rows;
      rows := Updated(rows, characterId, profile);
    }

    method GetCharacter(characterId: string) returns (r: Option<CharacterRecord>)
      ensures r.None? <==> characterId !in rows
      ensures r.Some? ==>
        (r.value.characterId == characterId
         && r.value.name == rows[characterId].name
         && r.value.disambiguationHint == rows[characterId].disambiguationHint
         && r.value.profile == rows[characterId].profile)
    {
      if characterId in rows {
        r := Some(RecordOf(characterId, rows[characterId]));
      } else {
        r := None;
      }
    }

    /** Every row whose name is exactly `name`, homonyms included, each
        once; the hint plays no part. */
    method FindCharactersByName(name: string) returns (rs: seq<CharacterRecord>)
      ensures multiset(rs) == multiset(Records(rows, NamedIds(rows, name)))
    {
      rs := [];
      var rest := rows.Keys;
      while rest != {}
        invariant rest <= rows.Keys
        invariant multiset(rs) == multiset(Records(rows, NamedIds(rows, name) - rest))
        decreases |rest|
      {
        var id :| id in rest;
        if rows[id].name == name {
          RecordsAdd(rows, NamedIds(rows, name) - rest, id);
          assert NamedIds(rows, name) - (rest - {id}) == NamedIds(rows, name) - rest + {id};
          rs := rs + [RecordOf(id, rows[id])];
        } else {
          assert NamedIds(rows, name) - (rest - {id}) == NamedIds(rows, name) - rest;
        }
        rest := rest - {id};
      }
      assert NamedIds(rows, name) - {} == NamedIds(rows, name);
    }

    /** The records of `ids`, ordered by name and then hint. */
    method SortedRecords(ids: set<string>) returns (rs: seq<CharacterRecord>)
      requires ids <= rows.Keys
      ensures SortedByNameHint(rs)
      ensures multiset(rs) == multiset(Records(rows, ids))
    {
      rs := [];
      var rest := ids;
      while rest != {}
        invariant rest <= ids
        invariant SortedByNameHint(rs)
        invariant multiset(rs) == multiset(Records(rows, ids - rest))
        decreases |rest|
      {
        var id :| id in rest;
        InsertSortedSorted(RecordOf(id, rows[id]), rs);
        RecordsAdd(rows, ids - rest, id);
        assert ids - (rest - {id}) == ids - rest + {id};
        rs := InsertSorted(RecordOf(id, rows[id]), rs);
        rest := rest - {id};
      }
      assert ids - {} == ids;
    }

    method GetAllCharacters() returns (rs: seq<CharacterRecord>)
      ensures SortedByNameHint(rs)
      ensures multiset(rs) == multiset(Records(rows, rows.Keys))
    {
      rs := SortedRecords(rows.Keys);
    }

    /** Deletes the row; true iff the id was present. */
    method DeleteCharacter(characterId: string) returns (deleted: bool)
      modifies this
      ensures deleted <==> characterId in old(rows)
      ensures rows == old(rows) - {characterId}
      ensures |rows| == if deleted then |old(rows)| - 1 else |old(rows)|
    {
      deleted := characterId in rows;
      rows := rows - {characterId};
      if deleted {
        assert rows.Keys == old(rows).Keys - {characterId};
      } else {
        assert rows == old(rows);
      }
    }

    method SearchCharacters(query: string) returns (rs: seq<CharacterRecord>)
      ensures SortedByNameHint(rs)
      ensures multiset(rs) == multiset(Records(rows, MatchingIds(rows, query)))
    {
      rs := SortedRecords(MatchingIds(rows, query));
    }

    method GetCharacterCount() returns (n: nat)
      ensures n == |rows|
    {
      n := |rows|;
    }

    method ClearDatabase()
      modifies this
      ensures rows == map[]
    {
      rows := map[];
    }
  }
}
