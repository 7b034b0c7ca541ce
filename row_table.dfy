/**
 * The table both in-memory sample stores keep: a map from id to name. This
 * module holds what the two stores share: the id that `create`/`save` assigns
 * (largest id plus one), the scan that finds the largest id, and the
 * collection of all rows that `find_all` returns.
 */
module RowTable {
  import opened Entity

  type Rows = map<i64, string>

  /** No stored id is `i64::MAX`, so "largest id plus one" is still an `i64`. */
  predicate RoomForNextId(rows: Rows) {
    forall k | k in rows :: k < I64Max
  }

  /** The largest id of a non-empty set of ids. */
  ghost function Max(s: set<i64>): (m: i64)
    requires s != {}
    ensures m in s && forall k | k in s :: k <= m
    decreases |s|
  {
    var x :| x in s;
    if s == {x} then x
    else
      var rest := Max(s - {x});
      assert forall k | k in s :: k == x || k in s - {x};
      if x <= rest then rest else x
  }

  /** The id a new row gets: 0 in an empty table, otherwise one more than the largest id. */
  ghost function NextId(rows: Rows): (id: int)
    ensures |rows| == 0 ==> id == 0
    ensures |rows| > 0 ==> exists m | m in rows :: m as int == id - 1
    ensures forall k | k in rows :: k as int < id
  {
    if |rows| == 0 then 0
    else
      assert rows.Keys != {} by {
        var k :| k in rows;
      }
      Max(rows.Keys) as int + 1
  }

  /** `map.keys().max().unwrap()`: a scan over the keys in the map's own order. */
  method MaxKey(rows: Rows) returns (m: i64)
    requires |rows| > 0
    ensures m in rows && forall k | k in rows :: k <= m
    ensures m as int == NextId(rows) - 1
  {
    var keys := rows.Keys;
    assert keys != {} by {
      var k :| k in rows;
    }
    m :| m in keys;
    keys := keys - {m};
    while keys != {}
      invariant keys <= rows.Keys && m in rows
      invariant forall k | k in rows && k !in keys :: k <= m
      decreases |keys|
    {
      var k :| k in keys;
      if k > m {
        m := k;
      }
      keys := keys - {k};
    }
  }

  /**
   * `samples` lists `rows` exactly: every element is a stored (id, name) pair,
   * every stored id appears, and no id appears twice. No order is implied.
   */
  ghost predicate Lists(samples: seq<Sample>, rows: Rows) {
    && (forall i | 0 <= i < |samples| :: samples[i].id in rows && rows[samples[i].id] == samples[i].name)
    && (forall k | k in rows :: exists i :: 0 <= i < |samples| && samples[i].id == k)
    && (forall i, j | 0 <= i < j < |samples| :: samples[i].id != samples[j].id)
  }

  /**
   * `map.iter().map(|item| Sample::new(..)).collect()`: the rows in whatever
   * order the map yields them.
   */
  method Collect(rows: Rows) returns (samples: seq<Sample>)
    ensures Lists(samples, rows)
  {
    samples := [];
    var todo := rows.Keys;
    while todo != {}
      invariant todo <= rows.Keys
      invariant forall i | 0 <= i < |samples| ::
        samples[i].id in rows && samples[i].id !in todo && rows[samples[i].id] == samples[i].name
      invariant forall k | k in rows && k !in todo :: exists i :: 0 <= i < |samples| && samples[i].id == k
      invariant forall i, j | 0 <= i < j < |samples| :: samples[i].id != samples[j].id
      decreases |todo|
    {
      var k :| k in todo;
      ghost var before := samples;
      samples := samples + [Sample(k, rows[k])];
      todo := todo - {k};
      assert forall i | 0 <= i < |before| :: samples[i] == before[i];
      assert samples[|samples| - 1].id == k;
    }
  }

  lemma {:induction false} DistinctMultiplicity(s: seq<Sample>, x: Sample)
    requires forall i, j | 0 <= i < j < |s| :: s[i].id != s[j].id
    ensures multiset(s)[x] == if x in s then 1 else 0
    decreases |s|
  {
    if s != [] {
      assert s == [s[0]] + s[1..];
      DistinctMultiplicity(s[1..], x);
      assert forall j | 0 <= j < |s[1..]| :: s[1..][j].id != s[0].id;
    }
  }

  /** Two listings of the same rows hold the same samples the same number of times: they differ only in order. */
  lemma ListingsArePermutations(a: seq<Sample>, b: seq<Sample>, rows: Rows)
    requires Lists(a, rows) && Lists(b, rows)
    ensures multiset(a) == multiset(b)
  {
    forall x: Sample
      ensures multiset(a)[x] == multiset(b)[x]
    {
      DistinctMultiplicity(a, x);
      DistinctMultiplicity(b, x);
      if x in a {
        var i :| 0 <= i < |a| && a[i] == x;
        var j :| 0 <= j < |b| && b[j].id == x.id;
        assert b[j] == x;
      }
      if x in b {
        var j :| 0 <= j < |b| && b[j] == x;
        var i :| 0 <= i < |a| && a[i].id == x.id;
        assert a[i] == x;
      }
    }
  }

  /** A listing has exactly as many samples as the table has rows. */
  lemma ListingSize(samples: seq<Sample>, rows: Rows)
    requires Lists(samples, rows)
    ensures |samples| == |rows|
  {
    var ids := set i | 0 <= i < |samples| :: samples[i].id;
    assert ids == rows.Keys;
    DistinctIdsCount(samples);
  }

  lemma {:induction false} DistinctIdsCount(s: seq<Sample>)
    requires forall i, j | 0 <= i < j < |s| :: s[i].id != s[j].id
    ensures |set i | 0 <= i < |s| :: s[i].id| == |s|
    decreases |s|
  {
    if s != [] {
      var last := |s| - 1;
      var init := s[..last];
      DistinctIdsCount(init);
      var ids := set i | 0 <= i < |s| :: s[i].id;
      var initIds := set i | 0 <= i < |init| :: init[i].id;
      assert ids == initIds + {s[last].id};
      assert s[last].id !in initIds;
    }
  }
}
