/** The shape shared by the four "top n" queries: count the rows of each group,
    order the groups by count descending and then by key ascending, and keep the
    first n. A group key is a pair of strings; queries that group by one name
    leave the second component empty. */
module Ranking {
  import opened Strings

  type Key = (string, string)

  datatype Row = Row(key: Key, count: nat)

  /** Alphabetical order on keys: first component, then second. */
  predicate KeyLess(a: Key, b: Key) {
    Less(a.0, b.0) || (a.0 == b.0 && Less(a.1, b.1))
  }

  /** `x` is listed before `y`: more rows first, then the smaller key. */
  predicate Before(x: Row, y: Row) {
    x.count > y.count || (x.count == y.count && KeyLess(x.key, y.key))
  }

  lemma KeyLessIrreflexive(a: Key)
    ensures !KeyLess(a, a)
  {
    LessIrreflexive(a.0);
    LessIrreflexive(a.1);
  }

  lemma KeyLessTransitive(a: Key, b: Key, c: Key)
    requires KeyLess(a, b) && KeyLess(b, c)
    ensures KeyLess(a, c)
  {
    if Less(a.0, b.0) && Less(b.0, c.0) {
      LessTransitive(a.0, b.0, c.0);
    } else if a.0 == b.0 && b.0 == c.0 {
      LessTransitive(a.1, b.1, c.1);
    }
  }

  lemma KeyLessTotal(a: Key, b: Key)
    ensures a == b || KeyLess(a, b) || KeyLess(b, a)
  {
    LessTotal(a.0, b.0);
    LessTotal(a.1, b.1);
  }

  lemma BeforeIrreflexive(x: Row)
    ensures !Before(x, x)
  {
    KeyLessIrreflexive(x.key);
  }

  lemma BeforeTransitive(x: Row, y: Row, z: Row)
    requires Before(x, y) && Before(y, z)
    ensures Before(x, z)
  {
    if x.count == y.count == z.count {
      KeyLessTransitive(x.key, y.key, z.key);
    }
  }

  /** Rows of different groups are always comparable. */
  lemma BeforeTotal(x: Row, y: Row)
    requires x.key != y.key
    ensures Before(x, y) || Before(y, x)
  {
    KeyLessTotal(x.key, y.key);
  }

  /** Every row is listed strictly before every later row. */
  ghost predicate Ranked(rows: seq<Row>) {
    forall i, j | 0 <= i < j < |rows| :: Before(rows[i], rows[j])
  }

  ghost predicate NoDuplicates<T>(s: seq<T>) {
    forall i, j | 0 <= i < j < |s| :: s[i] != s[j]
  }

  /** The groups present in a sequence of keys. */
  function Groups(ks: seq<Key>): set<Key> {
    set k | k in ks
  }

  /** Number of rows in group `k`. */
  function Count(ks: seq<Key>, k: Key): nat {
    multiset(ks)[k]
  }

  function Min(a: nat, b: nat): nat {
    if a < b then a else b
  }

  /** The groups of `ks`, each once, in order of first appearance. */
  function Distinct(ks: seq<Key>): (d: seq<Key>)
    ensures forall k :: k in d <==> k in ks
    ensures NoDuplicates(d)
  {
    if |ks| == 0 then []
    else
      var d := Distinct(ks[..|ks| - 1]);
      var k := ks[|ks| - 1];
      assert ks == ks[..|ks| - 1] + [k];
      if k in d then d else d + [k]
  }

  lemma {:induction false} NoDuplicatesCard(d: seq<Key>)
    requires NoDuplicates(d)
    ensures |set k | k in d| == |d|
  {
    if |d| > 0 {
      var t := d[..|d| - 1];
      assert NoDuplicates(t);
      NoDuplicatesCard(t);
      assert d == t + [d[|d| - 1]];
      assert (set k | k in d) == (set k | k in t) + {d[|d| - 1]};
    }
  }

  /** One row per group, carrying the size of that group. */
  function Tally(ks: seq<Key>): (rows: seq<Row>)
    ensures |rows| == |Groups(ks)|
    ensures forall x | x in rows :: x.key in ks && x.count == Count(ks, x.key)
    ensures forall k | k in ks :: Row(k, Count(ks, k)) in rows
    ensures NoDuplicates(rows)
  {
    var d := Distinct(ks);
    NoDuplicatesCard(d);
    assert (set k | k in d) == Groups(ks);
    var rows := seq(|d|, i requires 0 <= i < |d| => Row(d[i], Count(ks, d[i])));
    assert forall k | k in ks :: rows[IndexOf(d, k)] == Row(k, Count(ks, k));
    rows
  }

  function IndexOf(d: seq<Key>, k: Key): (i: nat)
    requires k in d
    ensures i < |d| && d[i] == k
  {
    if d[0] == k then 0 else 1 + IndexOf(d[1..], k)
  }

  /** Places `x` among already ranked rows. */
  function Insert(x: Row, rows: seq<Row>): (r: seq<Row>)
    ensures multiset(r) == multiset(rows) + multiset{x}
    ensures Ranked(rows) && (forall y | y in rows :: y.key != x.key) ==> Ranked(r)
  {
    if |rows| == 0 then [x]
    else if Before(x, rows[0]) then
      RankedFront(x, rows);
      [x] + rows
    else
      var t := Insert(x, rows[1..]);
      assert rows == [rows[0]] + rows[1..];
      RankedBehind(x, rows, t);
      [rows[0]] + t
  }

  lemma RankedFront(x: Row, rows: seq<Row>)
    requires |rows| > 0 && Before(x, rows[0])
    ensures Ranked(rows) ==> Ranked([x] + rows)
  {
    if Ranked(rows) {
      forall j | 0 < j < |rows| ensures Before(x, rows[j]) {
        BeforeTransitive(x, rows[0], rows[j]);
      }
    }
  }

  /** `t` holds the rows after the first with `x` inserted among them. */
  lemma RankedBehind(x: Row, rows: seq<Row>, t: seq<Row>)
    requires |rows| > 0 && !Before(x, rows[0])
    requires multiset(t) == multiset(rows[1..]) + multiset{x}
    requires Ranked(rows[1..]) && (forall y | y in rows[1..] :: y.key != x.key) ==> Ranked(t)
    ensures Ranked(rows) && (forall y | y in rows :: y.key != x.key) ==> Ranked([rows[0]] + t)
  {
    if Ranked(rows) && (forall y | y in rows :: y.key != x.key) {
      BeforeTotal(x, rows[0]);
      forall j | 0 <= j < |t| ensures Before(rows[0], t[j]) {
        assert t[j] in multiset(t);
        if t[j] != x {
          assert t[j] in rows[1..];
        }
      }
    }
  }

  /** Insertion sort into ranking order. */
  function Sort(rows: seq<Row>): (r: seq<Row>)
    ensures multiset(r) == multiset(rows)
    ensures (forall i, j | 0 <= i < j < |rows| :: rows[i].key != rows[j].key) ==> Ranked(r)
  {
    if |rows| == 0 then []
    else
      var t := Sort(rows[1..]);
      assert rows == [rows[0]] + rows[1..];
      FirstKeyApart(rows, t);
      Insert(rows[0], t)
  }

  /** When the keys of `rows` differ, the first is not among the keys of a
      permutation `t` of the others. */
  lemma FirstKeyApart(rows: seq<Row>, t: seq<Row>)
    requires |rows| > 0 && multiset(t) == multiset(rows[1..])
    ensures (forall i, j | 0 <= i < j < |rows| :: rows[i].key != rows[j].key)
        ==> (forall y | y in t :: y.key != rows[0].key)
  {
    forall y | y in t ensures (forall i, j | 0 <= i < j < |rows| :: rows[i].key != rows[j].key) ==> y.key != rows[0].key {
      assert y in multiset(t);
      var j :| 0 <= j < |rows[1..]| && rows[1..][j] == y;
    }
  }

  /** Every group of `ks`, in ranking order, with its size. */
  function Ordered(ks: seq<Key>): (all: seq<Row>)
    ensures |all| == |Groups(ks)|
    ensures Ranked(all)
    ensures forall x | x in all :: x.key in ks && x.count == Count(ks, x.key)
    ensures forall k | k in ks :: Row(k, Count(ks, k)) in all
  {
    var rows := Tally(ks);
    var all := Sort(rows);
    assert |all| == |rows| by {
      assert |multiset(all)| == |multiset(rows)|;
    }
    assert forall x | x in all :: x in rows by {
      forall x | x in all ensures x in rows {
        assert x in multiset(all);
      }
    }
    assert forall x | x in rows :: x in all by {
      forall x | x in rows ensures x in all {
        assert x in multiset(rows);
      }
    }
    all
  }

  /** A group missing from a prefix of a ranking ranks after the whole prefix,
      and the prefix is then as long as was asked for. */
  lemma PrefixBeatsRest(all: seq<Row>, n: nat, x: Row)
    requires Ranked(all) && x in all
    requires forall i | 0 <= i < Min(n, |all|) :: all[i].key != x.key
    ensures Min(n, |all|) == n
    ensures forall i | 0 <= i < Min(n, |all|) :: Before(all[i], x)
  {
    var p :| 0 <= p < |all| && all[p] == x;
    assert p >= Min(n, |all|);
  }

  /** The first `n` groups of `ks` in ranking order, with their sizes. */
  function Rank(ks: seq<Key>, n: nat): (r: seq<Row>)
    ensures |r| == Min(n, |Groups(ks)|)
    ensures Ranked(r)
    ensures forall i | 0 <= i < |r| :: r[i].key in ks && r[i].count == Count(ks, r[i].key)
    ensures forall k | k in ks && (forall i | 0 <= i < |r| :: r[i].key != k) ::
              |r| == n && forall i | 0 <= i < |r| :: Before(r[i], Row(k, Count(ks, k)))
  {
    var all := Ordered(ks);
    var m := Min(n, |all|);
    var r := all[..m];
    assert forall i | 0 <= i < m :: r[i] == all[i];
    forall k | k in ks && (forall i | 0 <= i < m :: all[i].key != k)
      ensures m == n && forall i | 0 <= i < m :: Before(all[i], Row(k, Count(ks, k)))
    {
      PrefixBeatsRest(all, n, Row(k, Count(ks, k)));
    }
    r
  }

  /** The rows of a ranking by one name, as (name, count) pairs. */
  function Named(rows: seq<Row>): (r: seq<(string, nat)>)
    ensures |r| == |rows| && forall i | 0 <= i < |r| :: r[i] == (rows[i].key.0, rows[i].count)
  {
    seq(|rows|, i requires 0 <= i < |rows| => (rows[i].key.0, rows[i].count))
  }

  /** `Rank` for groups named by one string (keys with an empty second
      component), stated over the (name, count) pairs: at most `n` of them,
      each a group with its size, more rows first and then alphabetical, and
      any group left out ranks after all `n` listed ones. */
  lemma RankNamed(ks: seq<Key>, n: nat, c: string -> nat)
    requires forall k | k in ks :: k.1 == ""
    requires forall a :: Count(ks, (a, "")) == c(a)
    ensures var r := Named(Rank(ks, n));
      && |r| <= n
      && (forall i | 0 <= i < |r| :: c(r[i].0) == r[i].1 > 0)
      && (forall i, j | 0 <= i < j < |r| :: r[i].1 > r[j].1 || (r[i].1 == r[j].1 && Less(r[i].0, r[j].0)))
      && (forall a | c(a) > 0 && (forall i | 0 <= i < |r| :: r[i].0 != a) ::
            |r| == n && forall i | 0 <= i < |r| :: r[i].1 > c(a) || (r[i].1 == c(a) && Less(r[i].0, a)))
  {
    var rows := Rank(ks, n);
    var r := Named(rows);
    assert forall i | 0 <= i < |rows| :: rows[i].key == (r[i].0, "") && rows[i].key in multiset(ks);
    forall a | c(a) > 0 && (forall i | 0 <= i < |r| :: r[i].0 != a)
      ensures |r| == n && forall i | 0 <= i < |r| :: r[i].1 > c(a) || (r[i].1 == c(a) && Less(r[i].0, a))
    {
      assert Count(ks, (a, "")) > 0;
      assert (a, "") in ks;
    }
  }

  /** The rows of a ranking by two names, as (first, second, count) triples. */
  function Tripled(rows: seq<Row>): (r: seq<(string, string, nat)>)
    ensures |r| == |rows| && forall i | 0 <= i < |r| :: r[i] == (rows[i].key.0, rows[i].key.1, rows[i].count)
  {
    seq(|rows|, i requires 0 <= i < |rows| => (rows[i].key.0, rows[i].key.1, rows[i].count))
  }

  /** `Rank` stated over (first, second, count) triples. */
  lemma RankTripled(ks: seq<Key>, n: nat, c: (string, string) -> nat)
    requires forall t, a :: Count(ks, (t, a)) == c(t, a)
    ensures var r := Tripled(Rank(ks, n));
      && |r| <= n
      && (forall i | 0 <= i < |r| :: c(r[i].0, r[i].1) == r[i].2 > 0)
      && (forall i, j | 0 <= i < j < |r| ::
            r[i].2 > r[j].2 || (r[i].2 == r[j].2 && KeyLess((r[i].0, r[i].1), (r[j].0, r[j].1))))
      && (forall t, a | c(t, a) > 0 && (forall i | 0 <= i < |r| :: (r[i].0, r[i].1) != (t, a)) ::
            |r| == n && forall i | 0 <= i < |r| ::
              r[i].2 > c(t, a) || (r[i].2 == c(t, a) && KeyLess((r[i].0, r[i].1), (t, a))))
  {
    var rows := Rank(ks, n);
    var r := Tripled(rows);
    assert forall i | 0 <= i < |rows| :: rows[i].key == (r[i].0, r[i].1) && rows[i].key in multiset(ks);
    forall t, a | c(t, a) > 0 && (forall i | 0 <= i < |r| :: (r[i].0, r[i].1) != (t, a))
      ensures |r| == n && forall i | 0 <= i < |r| ::
        r[i].2 > c(t, a) || (r[i].2 == c(t, a) && KeyLess((r[i].0, r[i].1), (t, a)))
    {
      assert Count(ks, (t, a)) > 0;
      assert (t, a) in ks;
    }
  }
}
