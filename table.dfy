/**
 * The `readings` table (id SERIAL PRIMARY KEY, temp_co, temp_room, timestamp
 * BIGINT) as the `/data` handler uses it: one INSERT ... RETURNING per
 * accepted POST, and one `ORDER BY timestamp DESC LIMIT $1 OFFSET $2` query
 * per GET. Rows with equal timestamps may come back in any order, so a page is
 * specified as a window of SOME descending-sorted permutation of the table.
 */
module ReadingsTable {
  import opened Readings

  /** The largest value a SERIAL (32-bit) sequence hands out. */
  const MaxSerial: int := 0x7fff_ffff

  function Min(a: int, b: int): int { if a <= b then a else b }
  function Max(a: int, b: int): int { if a <= b then b else a }

  /** How many rows `LIMIT limit OFFSET offset` keeps out of `n`. */
  function PageLength(n: nat, limit: nat, offset: nat): nat
  {
    Min(limit, Max(0, n - offset))
  }

  /** `LIMIT limit OFFSET offset` applied to an already ordered result. */
  function Window<T>(s: seq<T>, limit: nat, offset: nat): (w: seq<T>)
    ensures |w| == PageLength(|s|, limit, offset)
    ensures forall i :: 0 <= i < |w| ==> w[i] == s[offset + i]
  {
    if offset >= |s| then [] else s[offset..Min(offset + limit, |s|)]
  }

  /** Same length, and equal timestamps position by position. */
  ghost predicate SameStamps(a: seq<Row>, b: seq<Row>)
  {
    |a| == |b| && forall k :: 0 <= k < |a| ==> a[k].timestamp == b[k].timestamp
  }

  /** Non-increasing in timestamp: what `ORDER BY timestamp DESC` guarantees. */
  ghost predicate SortedDesc(s: seq<Row>)
  {
    forall i, j :: 0 <= i < j < |s| ==> s[i].timestamp >= s[j].timestamp
  }

  /** `order` is one of the orders the query may return the whole table in. */
  ghost predicate IsOrdering(order: seq<Row>, table: seq<Row>)
  {
    multiset(order) == multiset(table) && SortedDesc(order)
  }

  /** `page` is a legal answer to the page query over `table`. */
  ghost predicate IsPage(page: seq<Row>, table: seq<Row>, limit: nat, offset: nat)
  {
    exists order :: IsOrdering(order, table) && page == Window(order, limit, offset)
  }

  /** Inserting one row into a descending sequence, after every row with a later or equal timestamp. */
  function InsertDesc(r: Row, s: seq<Row>): seq<Row>
  {
    if s == [] || r.timestamp >= s[0].timestamp then [r] + s
    else [s[0]] + InsertDesc(r, s[1..])
  }

  /** One order the store may choose: a stable insertion sort by timestamp, descending. */
  function SortDesc(s: seq<Row>): seq<Row>
  {
    if s == [] then [] else InsertDesc(s[0], SortDesc(s[1..]))
  }

  lemma HeadIsLatest(s: seq<Row>, x: Row)
    requires SortedDesc(s) && x in s
    ensures s[0].timestamp >= x.timestamp
  {
    var m :| 0 <= m < |s| && s[m] == x;
    if m > 0 {
      assert s[0].timestamp >= s[m].timestamp;
    }
  }

  lemma SortedTail(s: seq<Row>)
    requires SortedDesc(s) && s != []
    ensures SortedDesc(s[1..])
  {
    var tail := s[1..];
    forall x, y | 0 <= x < y < |tail| ensures tail[x].timestamp >= tail[y].timestamp {
      assert tail[x] == s[x + 1] && tail[y] == s[y + 1];
    }
  }

  /** Prepending a row no older than every row of a descending sequence keeps it descending. */
  lemma SortedCons(r: Row, s: seq<Row>)
    requires SortedDesc(s)
    requires forall k :: 0 <= k < |s| ==> r.timestamp >= s[k].timestamp
    ensures SortedDesc([r] + s)
  {
    var t := [r] + s;
    forall x, y | 0 <= x < y < |t| ensures t[x].timestamp >= t[y].timestamp {
      assert t[y] == s[y - 1];
      if x > 0 {
        assert t[x] == s[x - 1];
      }
    }
  }

  lemma {:induction false} InsertDescPermutes(r: Row, s: seq<Row>)
    ensures multiset(InsertDesc(r, s)) == multiset(s) + multiset{r}
  {
    if s != [] && r.timestamp < s[0].timestamp {
      InsertDescPermutes(r, s[1..]);
      assert s == [s[0]] + s[1..];
    }
  }

  lemma {:induction false} InsertDescSorted(r: Row, s: seq<Row>)
    requires SortedDesc(s)
    ensures SortedDesc(InsertDesc(r, s))
  {
    if s == [] || r.timestamp >= s[0].timestamp {
      forall k | 0 <= k < |s| ensures r.timestamp >= s[k].timestamp {
        HeadIsLatest(s, s[k]);
      }
      SortedCons(r, s);
    } else {
      var tail := s[1..];
      SortedTail(s);
      var rest := InsertDesc(r, tail);
      InsertDescSorted(r, tail);
      InsertDescPermutes(r, tail);
      forall k | 0 <= k < |rest| ensures s[0].timestamp >= rest[k].timestamp {
        assert rest[k] in multiset(rest);
        if rest[k] != r {
          assert rest[k] in multiset(tail);
          HeadIsLatest(s, rest[k]);
        }
      }
      SortedCons(s[0], rest);
    }
  }

  /** SortDesc yields a legal order, so the page query always has an answer. */
  lemma {:induction false} SortDescIsOrdering(s: seq<Row>)
    ensures IsOrdering(SortDesc(s), s)
  {
    if s != [] {
      SortDescIsOrdering(s[1..]);
      InsertDescPermutes(s[0], SortDesc(s[1..]));
      InsertDescSorted(s[0], SortDesc(s[1..]));
      assert s == [s[0]] + s[1..];
    }
  }

  lemma WindowIsSubMultiset<T>(s: seq<T>, limit: nat, offset: nat)
    ensures multiset(Window(s, limit, offset)) <= multiset(s)
  {
    if offset < |s| {
      var hi := Min(offset + limit, |s|);
      assert s == s[..offset] + s[offset..hi] + s[hi..];
    }
  }

  /**
   * What every legal page is: exactly PageLength rows long, newest first,
   * and made of rows of the table.
   */
  lemma PageShape(page: seq<Row>, table: seq<Row>, limit: nat, offset: nat)
    requires IsPage(page, table, limit, offset)
    ensures |page| == PageLength(|table|, limit, offset)
    ensures SortedDesc(page)
    ensures multiset(page) <= multiset(table)
  {
    var order :| IsOrdering(order, table) && page == Window(order, limit, offset);
    assert |order| == |multiset(order)| == |multiset(table)| == |table|;
    WindowIsSubMultiset(order, limit, offset);
  }

  /** Index `k` of `b` with position `j` removed. */
  lemma RemovedAt(b: seq<Row>, j: nat, k: nat)
    requires j < |b| && k < |b| - 1
    ensures (b[..j] + b[j + 1..])[k] == if k < j then b[k] else b[k + 1]
  {
  }

  lemma SortedRemove(b: seq<Row>, j: nat)
    requires SortedDesc(b) && j < |b|
    ensures SortedDesc(b[..j] + b[j + 1..])
  {
    var b' := b[..j] + b[j + 1..];
    forall x, y | 0 <= x < y < |b'| ensures b'[x].timestamp >= b'[y].timestamp {
      RemovedAt(b, j, x);
      RemovedAt(b, j, y);
    }
  }

  lemma MultisetRemove(b: seq<Row>, j: nat)
    requires j < |b|
    ensures multiset(b[..j] + b[j + 1..]) == multiset(b) - multiset{b[j]}
  {
    assert b == b[..j] + [b[j]] + b[j + 1..];
  }

  /**
   * If `b` is descending, its head ties with `b[j]`, and `a` without its head
   * matches `b` without `b[j]`, then `a` matches `b`.
   */
  lemma TiesShift(a: seq<Row>, b: seq<Row>, j: nat)
    requires SortedDesc(b) && 0 < |a| == |b| && j < |b|
    requires a[0].timestamp == b[0].timestamp == b[j].timestamp
    requires SameStamps(a[1..], b[..j] + b[j + 1..])
    ensures SameStamps(a, b)
  {
    forall k | 0 < k < |a| ensures a[k].timestamp == b[k].timestamp {
      assert a[k] == a[1..][k - 1];
      RemovedAt(b, j, k - 1);
      if k <= j {
        assert b[0].timestamp >= b[k - 1].timestamp >= b[k].timestamp >= b[j].timestamp;
      }
    }
  }

  lemma IndexOf(b: seq<Row>, x: Row) returns (j: nat)
    requires x in multiset(b)
    ensures j < |b| && b[j] == x
  {
    j :| 0 <= j < |b| && b[j] == x;
  }

  /** The heads of two descending permutations of the same rows carry the same timestamp. */
  lemma HeadsTie(a: seq<Row>, b: seq<Row>)
    requires SortedDesc(a) && SortedDesc(b) && multiset(a) == multiset(b) && a != [] && b != []
    ensures a[0].timestamp == b[0].timestamp
  {
    assert a[0] in multiset(b) && b[0] in multiset(a);
    HeadIsLatest(a, b[0]);
    HeadIsLatest(b, a[0]);
  }

  lemma MultisetRemoveMatching(a: seq<Row>, b: seq<Row>, j: nat)
    requires multiset(a) == multiset(b) && a != [] && j < |b| && b[j] == a[0]
    ensures multiset(a[1..]) == multiset(b[..j] + b[j + 1..])
  {
    MultisetRemove(a, 0);
    assert a[..0] + a[1..] == a[1..];
    MultisetRemove(b, j);
  }

  /** Removing the head of `a` and the same row from `b` leaves two descending permutations of each other. */
  lemma RemoveMatching(a: seq<Row>, b: seq<Row>, j: nat)
    requires SortedDesc(a) && SortedDesc(b) && multiset(a) == multiset(b)
    requires a != [] && j < |b| && b[j] == a[0]
    ensures SortedDesc(a[1..]) && SortedDesc(b[..j] + b[j + 1..])
    ensures multiset(a[1..]) == multiset(b[..j] + b[j + 1..])
  {
    SortedTail(a);
    SortedRemove(b, j);
    MultisetRemoveMatching(a, b, j);
  }

  /** Two descending-sorted permutations of the same rows agree on their timestamps. */
  lemma {:induction false} SortedStampsUnique(a: seq<Row>, b: seq<Row>)
    requires SortedDesc(a) && SortedDesc(b) && multiset(a) == multiset(b)
    ensures SameStamps(a, b)
    decreases |a|
  {
    assert |a| == |b| by {
      assert |a| == |multiset(a)| && |b| == |multiset(b)|;
    }
    if a != [] {
      var j := IndexOf(b, a[0]);
      HeadsTie(a, b);
      RemoveMatching(a, b, j);
      SortedStampsUnique(a[1..], b[..j] + b[j + 1..]);
      TiesShift(a, b, j);
    }
  }

  /**
   * Ties are the only freedom the query has: every legal page for the same
   * table, limit and offset carries the same timestamps in the same order.
   */
  lemma PageStampsDetermined(p1: seq<Row>, p2: seq<Row>, table: seq<Row>, limit: nat, offset: nat)
    requires IsPage(p1, table, limit, offset) && IsPage(p2, table, limit, offset)
    ensures SameStamps(p1, p2)
  {
    var o1 :| IsOrdering(o1, table) && p1 == Window(o1, limit, offset);
    var o2 :| IsOrdering(o2, table) && p2 == Window(o2, limit, offset);
    SortedStampsUnique(o1, o2);
    forall k | 0 <= k < |p1| ensures p1[k].timestamp == p2[k].timestamp {
      assert p1[k] == o1[offset + k] && p2[k] == o2[offset + k];
    }
  }

  /** The stored `readings` table and the SERIAL sequence behind its `id` column. */
  class Store {
    var rows: seq<Row>
    var nextId: int

    /** Ids are positive, strictly increasing in insertion order, and below the next sequence value. */
    ghost predicate Valid()
      reads this
    {
      && 1 <= nextId <= MaxSerial + 1
      && (forall i :: 0 <= i < |rows| ==> 1 <= rows[i].id < nextId)
      && (forall i, j :: 0 <= i < j < |rows| ==> rows[i].id < rows[j].id)
    }

    /** A freshly created, empty table. */
    constructor ()
      ensures Valid() && rows == [] && nextId == 1
    {
      rows := [];
      nextId := 1;
    }

    /**
     * `INSERT INTO readings ... RETURNING id, temp_co, temp_room, timestamp`.
     * `fails` stands for a connectivity or constraint failure of the statement;
     * an exhausted sequence fails as well. A failed insert changes nothing.
     */
    method Insert(tempCo: Float64, tempRoom: Float64, timestamp: Int64, fails: bool) returns (r: Option<Row>)
      requires Valid()
      modifies this
      ensures Valid()
      ensures r.None? <==> fails || old(nextId) > MaxSerial
      ensures r.None? ==> rows == old(rows) && nextId == old(nextId)
      ensures r.Some? ==> r.value == Row(old(nextId), tempCo, tempRoom, timestamp)
      ensures r.Some? ==> rows == old(rows) + [r.value] && nextId == old(nextId) + 1
      ensures r.Some? ==> forall i :: 0 <= i < |old(rows)| ==> old(rows)[i].id < r.value.id
    {
      if fails || nextId > MaxSerial {
        return None;
      }
      var row := Row(nextId, tempCo, tempRoom, timestamp);
      rows := rows + [row];
      nextId := nextId + 1;
      return Some(row);
    }

    /**
     * `SELECT ... ORDER BY timestamp DESC LIMIT limit OFFSET offset`;
     * `fails` stands for a failure of the query. The table is not changed.
     */
    method QueryPage(limit: nat, offset: nat, fails: bool) returns (r: Option<seq<Row>>)
      ensures r.None? <==> fails
      ensures r.Some? ==> IsPage(r.value, rows, limit, offset)
    {
      if fails {
        return None;
      }
      SortDescIsOrdering(rows);
      return Some(Window(SortDesc(rows), limit, offset));
    }
  }
}
