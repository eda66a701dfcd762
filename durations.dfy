/** The per-category stay-duration settings: GET answers the signed-in
    user's settings as a category-to-minutes dictionary, and POST stores
    every entry of the posted dictionary for that user, creating or
    overwriting the (user, category) row. */
module Durations {
  import opened Common

  /** A `categoryDuration` row; (userId, category) is its unique key. */
  datatype Row = Row(userId: string, category: string, duration: int)

  function Categories(rows: seq<Row>): seq<string>
  {
    seq(|rows|, i requires 0 <= i < |rows| => rows[i].category)
  }

  function DurationWrites(rows: seq<Row>): seq<Option<int>>
  {
    seq(|rows|, i requires 0 <= i < |rows| => Some(rows[i].duration))
  }

  /** The dictionary GET's `reduce` builds: row by row, `acc[category] = duration`. */
  function DurationMap(rows: seq<Row>): map<string, int>
  {
    Upserts(map[], Categories(rows), DurationWrites(rows))
  }

  /** The `reduce` over the fetched rows. */
  method Reduce(rows: seq<Row>) returns (acc: map<string, int>)
    ensures acc == DurationMap(rows)
  {
    acc := map[];
    var i := 0;
    while i < |rows|
      invariant 0 <= i <= |rows|
      invariant acc == DurationMap(rows[..i])
    {
      assert Categories(rows[..i + 1])[..i] == Categories(rows[..i]);
      assert DurationWrites(rows[..i + 1])[..i] == DurationWrites(rows[..i]);
      acc := acc[rows[i].category := rows[i].duration];
      i := i + 1;
    }
    assert rows[..i] == rows;
  }

  /** The dictionary's keys are exactly the categories of the rows; no
      rows give `{}`. */
  lemma DurationMapKeys(rows: seq<Row>)
    ensures DurationMap(rows).Keys == set r | r in rows :: r.category
  {
    var cats, w := Categories(rows), DurationWrites(rows);
    forall c | c in DurationMap(rows) ensures exists r :: r in rows && r.category == c {
      var i :| 0 <= i < |cats| && w[i].Some? && cats[i] == c;
      assert rows[i] in rows;
    }
    forall r | r in rows ensures r.category in DurationMap(rows) {
      var i :| 0 <= i < |rows| && rows[i] == r;
      assert w[i].Some? && cats[i] == r.category;
    }
  }

  /** A category maps to the duration of its last row: later rows overwrite. */
  lemma DurationMapLast(rows: seq<Row>, i: nat)
    requires i < |rows|
    requires forall j :: i < j < |rows| ==> rows[j].category != rows[i].category
    ensures rows[i].category in DurationMap(rows)
    ensures DurationMap(rows)[rows[i].category] == rows[i].duration
  {
    var cats, w := Categories(rows), DurationWrites(rows);
    assert cats[i] == rows[i].category && w[i].Some?;
    assert NoWriteFrom(cats, w, rows[i].category, i + 1);
    UpsertsLast(map[], cats, w, rows[i].category, i);
  }

  /** One user's settings in the table, keyed by category. */
  function OfUser(table: map<(string, string), int>, userId: string): map<string, int>
  {
    map k | k in table && k.0 == userId :: k.1 := table[k]
  }

  /** The table after upserting every posted (category, duration) for the user. */
  function Posted(table: map<(string, string), int>, userId: string, body: map<string, int>)
    : map<(string, string), int>
  {
    PostedOnly(table, userId, body, body.Keys)
  }

  /** The table after upserting the posted entries whose category is in `cats`. */
  function PostedOnly(table: map<(string, string), int>, userId: string, body: map<string, int>,
                      cats: set<string>): map<(string, string), int>
  {
    map k | k in table.Keys + (set c | c in cats && c in body :: (userId, c)) ::
      if k.0 == userId && k.1 in cats && k.1 in body then body[k.1] else table[k]
  }

  /** Posting one more category is one more upsert. */
  lemma PostedStep(table: map<(string, string), int>, userId: string, body: map<string, int>,
                   cats: set<string>, c: string)
    requires c in body
    ensures PostedOnly(table, userId, body, cats + {c}) == PostedOnly(table, userId, body, cats)[(userId, c) := body[c]]
  {
  }

  /** POST creates or overwrites each posted category of the user, and
      leaves every other row (other users, other categories) as it was. */
  lemma PostedRows(table: map<(string, string), int>, userId: string, body: map<string, int>,
                   k: (string, string))
    ensures k.0 == userId && k.1 in body ==> k in Posted(table, userId, body) && Posted(table, userId, body)[k] == body[k.1]
    ensures !(k.0 == userId && k.1 in body) ==>
              (k in Posted(table, userId, body) <==> k in table) &&
              (k in table ==> Posted(table, userId, body)[k] == table[k])
  {
  }

  /** Round trip: after POST, GET answers the previous settings
      overwritten by the body, so each posted category with its posted value. */
  lemma PostThenGet(table: map<(string, string), int>, userId: string, body: map<string, int>)
    ensures OfUser(Posted(table, userId, body), userId) == OfUser(table, userId) + body
  {
    var after := Posted(table, userId, body);
    var mine, expected := OfUser(after, userId), OfUser(table, userId) + body;
    forall c ensures c in mine <==> c in expected {
      PostedRows(table, userId, body, (userId, c));
    }
    forall c | c in mine ensures mine[c] == expected[c] {
      PostedRows(table, userId, body, (userId, c));
    }
  }

  /** POST by one user leaves every other user's settings unchanged. */
  lemma PostKeepsOtherUsers(table: map<(string, string), int>, userId: string, body: map<string, int>,
                            other: string)
    requires other != userId
    ensures OfUser(Posted(table, userId, body), other) == OfUser(table, other)
  {
  }

  /** The user's fetched rows fold to the user's settings: `findMany`
      returns each of the user's rows once, in some order, and the
      (user, category) key makes the order irrelevant. */
  lemma FoldOfUserRows(table: map<(string, string), int>, userId: string, rows: seq<Row>)
    requires forall i :: 0 <= i < |rows| ==>
               (userId, rows[i].category) in table && table[(userId, rows[i].category)] == rows[i].duration
    requires forall c :: (userId, c) in table ==> exists i :: 0 <= i < |rows| && rows[i].category == c
    requires forall i, j :: 0 <= i < j < |rows| ==> rows[i].category != rows[j].category
    ensures DurationMap(rows) == OfUser(table, userId)
  {
    var folded, mine := DurationMap(rows), OfUser(table, userId);
    DurationMapKeys(rows);
    forall c ensures c in folded <==> c in mine {
      assert c in mine <==> (userId, c) in table;
      if c in folded {
        var r :| r in rows && r.category == c;
        var i :| 0 <= i < |rows| && rows[i] == r;
      }
      if (userId, c) in table {
        var i :| 0 <= i < |rows| && rows[i].category == c;
        assert rows[i] in rows;
      }
    }
    forall c | c in folded ensures folded[c] == mine[c] {
      var r :| r in rows && r.category == c;
      var i :| 0 <= i < |rows| && rows[i] == r;
      DurationMapLast(rows, i);
      assert mine[c] == table[(userId, c)];
    }
  }

  /** The `categoryDuration` table, as a dictionary from (userId, category)
      to minutes. */
  class Store {
    var table: map<(string, string), int>

    constructor (initial: map<(string, string), int>)
      ensures table == initial
    {
      table := initial;
    }

    /** `findMany({ where: { userId } })`: each of the user's rows once,
        in an order the database chooses. */
    method FindMany(userId: string) returns (rows: seq<Row>)
      ensures forall i :: 0 <= i < |rows| ==>
                rows[i].userId == userId &&
                (userId, rows[i].category) in table && table[(userId, rows[i].category)] == rows[i].duration
      ensures forall c :: (userId, c) in table ==> exists i :: 0 <= i < |rows| && rows[i].category == c
      ensures forall i, j :: 0 <= i < j < |rows| ==> rows[i].category != rows[j].category
    {
      rows := [];
      var pending := set k | k in table && k.0 == userId;
      while pending != {}
        invariant forall k :: k in pending ==> k in table && k.0 == userId
        invariant forall i :: 0 <= i < |rows| ==>
                    rows[i].userId == userId &&
                    (userId, rows[i].category) in table && table[(userId, rows[i].category)] == rows[i].duration &&
                    (userId, rows[i].category) !in pending
        invariant forall c :: (userId, c) in table ==>
                    (userId, c) in pending || exists i :: 0 <= i < |rows| && rows[i].category == c
        invariant forall i, j :: 0 <= i < j < |rows| ==> rows[i].category != rows[j].category
        decreases pending
      {
        var k :| k in pending;
        var before := rows;
        rows := rows + [Row(k.0, k.1, table[k])];
        pending := pending - {k};
        forall c | (userId, c) in table
          ensures (userId, c) in pending || exists i :: 0 <= i < |rows| && rows[i].category == c
        {
          if (userId, c) == k {
            assert rows[|rows| - 1].category == c;
          } else if (userId, c) !in pending {
            var i :| 0 <= i < |before| && before[i].category == c;
            assert rows[i].category == c;
          }
        }
      }
    }

    /** GET: 401 without a session user id, otherwise the user's settings. */
    method Get(userId: Option<string>) returns (r: Response<map<string, int>>)
      ensures !SignedIn(userId) ==> r == Unauthorized
      ensures SignedIn(userId) ==> r == Ok(OfUser(table, userId.value))
    {
      if !SignedIn(userId) {
        return Unauthorized;
      }
      var rows := FindMany(userId.value);
      var acc := Reduce(rows);
      FoldOfUserRows(table, userId.value, rows);
      r := Ok(acc);
    }

    /** One `upsert` on the (userId, category) key. */
    method Upsert(userId: string, category: string, duration: int)
      modifies this
      ensures table == old(table)[(userId, category) := duration]
    {
      table := table[(userId, category) := duration];
    }

    /** POST: 401 without a session user id and the table untouched;
        otherwise every posted entry is upserted for the user. The body is
        a JSON object, so its categories are distinct and the upserts do
        not depend on their order. */
    method Post(userId: Option<string>, body: map<string, int>) returns (r: Response<()>)
      modifies this
      ensures !SignedIn(userId) ==> r == Unauthorized && table == old(table)
      ensures SignedIn(userId) ==> r == Ok(()) && table == Posted(old(table), userId.value, body)
    {
      if !SignedIn(userId) {
        return Unauthorized;
      }
      var user := userId.value;
      var pending := body.Keys;
      while pending != {}
        invariant pending <= body.Keys
        invariant table == PostedOnly(old(table), user, body, body.Keys - pending)
        decreases pending
      {
        var c :| c in pending;
        PostedStep(old(table), user, body, body.Keys - pending, c);
        Upsert(user, c, body[c]);
        assert body.Keys - (pending - {c}) == (body.Keys - pending) + {c};
        pending := pending - {c};
      }
      assert body.Keys - pending == body.Keys;
      r := Ok(());
    }
  }
}
