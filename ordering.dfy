/** How SQLite orders the `created_at` TEXT column, and the
    `ORDER BY created_at DESC [LIMIT n]` of the list queries.

    SQLite compares TEXT with the BINARY collation, a `memcmp` of the UTF-8
    bytes; UTF-8 preserves code point order, so this is the lexicographic
    order on code points, with a proper prefix sorting first. Rows whose
    `created_at` are equal may come in any order; `OrderNewestFirst` returns
    one such order, and its contract says only what every such order has.

    "Newest" below means the largest `created_at` text. That is not always
    the later instant: `WholeSecondSortsLast` shows a pair it orders the
    other way. */
module Ordering {

  /** `a` sorts no later than `b`. */
  predicate TextLe(a: string, b: string)
    decreases |a|
  {
    |a| == 0 || (|b| > 0 && (a[0] < b[0] || (a[0] == b[0] && TextLe(a[1..], b[1..]))))
  }

  lemma {:induction false} TextLeReflexive(a: string)
    ensures TextLe(a, a)
  {
    if |a| > 0 {
      TextLeReflexive(a[1..]);
    }
  }

  lemma {:induction false} TextLeTotal(a: string, b: string)
    ensures TextLe(a, b) || TextLe(b, a)
  {
    if |a| > 0 && |b| > 0 && a[0] == b[0] {
      TextLeTotal(a[1..], b[1..]);
    }
  }

  lemma {:induction false} TextLeTransitive(a: string, b: string, c: string)
    requires TextLe(a, b) && TextLe(b, c)
    ensures TextLe(a, c)
  {
    if |a| > 0 && a[0] == b[0] && b[0] == c[0] {
      TextLeTransitive(a[1..], b[1..], c[1..]);
    }
  }

  lemma {:induction false} TextLeAntisymmetric(a: string, b: string)
    requires TextLe(a, b) && TextLe(b, a)
    ensures a == b
  {
    if |a| > 0 {
      TextLeAntisymmetric(a[1..], b[1..]);
    }
  }

  /** `isoformat()` leaves out the fraction when the microsecond is 0, and
      `Z` sorts after `.`: of two times in the same second, the whole second
      has the larger text although it is the earlier instant. */
  lemma {:induction false} WholeSecondSortsLast(p: string)
    ensures TextLe(p + ".000001Z", p + "Z")
    ensures !TextLe(p + "Z", p + ".000001Z")
    decreases |p|
  {
    if |p| > 0 {
      WholeSecondSortsLast(p[1..]);
      assert (p + ".000001Z")[1..] == p[1..] + ".000001Z";
      assert (p + "Z")[1..] == p[1..] + "Z";
    } else {
      assert p + ".000001Z" == ".000001Z" && p + "Z" == "Z";
    }
  }

  /** Each row's timestamp, by key. */
  function TimesOf<R>(m: map<string, R>, time: R -> string): (ts: map<string, string>)
    ensures ts.Keys == m.Keys
    ensures forall k :: k in m ==> ts[k] == time(m[k])
  {
    map k | k in m :: time(m[k])
  }

  /** The key of each row, in order. */
  function KeysOf<R>(rows: seq<R>, key: R -> string): (ids: seq<string>)
    ensures |ids| == |rows| && forall i :: 0 <= i < |rows| ==> ids[i] == key(rows[i])
  {
    seq(|rows|, i requires 0 <= i < |rows| => key(rows[i]))
  }

  /** `keys` lists distinct keys of `ts`, largest timestamp text first. */
  predicate NewestFirst(keys: seq<string>, ts: map<string, string>) {
    && (forall i :: 0 <= i < |keys| ==> keys[i] in ts)
    && (forall i, j :: 0 <= i < j < |keys| ==> keys[i] != keys[j])
    && (forall i, j :: 0 <= i < j < |keys| ==> TextLe(ts[keys[j]], ts[keys[i]]))
  }

  function Min(a: nat, b: nat): nat {
    if a <= b then a else b
  }

  /** What `ORDER BY created_at DESC LIMIT limit` returns: the rows newest
      first, as many as the limit allows, and none left out that is newer
      than one listed. */
  predicate NewestLimited(keys: seq<string>, ts: map<string, string>, limit: nat) {
    && NewestFirst(keys, ts)
    && |keys| == Min(limit, |ts|)
    && (forall k, i :: k in ts && k !in keys && 0 <= i < |keys| ==> TextLe(ts[k], ts[keys[i]]))
  }

  /** Puts `k` in front of the first key whose timestamp is not newer. */
  function InsertNewest(k: string, keys: seq<string>, ts: map<string, string>): (r: seq<string>)
    requires k in ts
    requires forall i :: 0 <= i < |keys| ==> keys[i] in ts
    ensures |r| == |keys| + 1
    ensures forall x :: x in r <==> x == k || x in keys
    ensures forall i :: 0 <= i < |r| ==> r[i] in ts
    decreases |keys|
  {
    if |keys| == 0 then [k]
    else if TextLe(ts[keys[0]], ts[k]) then [k] + keys
    else [keys[0]] + InsertNewest(k, keys[1..], ts)
  }

  lemma {:induction false} InsertNewestSorted(k: string, keys: seq<string>, ts: map<string, string>)
    requires k in ts && k !in keys && NewestFirst(keys, ts)
    ensures NewestFirst(InsertNewest(k, keys, ts), ts)
    decreases |keys|
  {
    if |keys| == 0 {
    } else if TextLe(ts[keys[0]], ts[k]) {
      var r := [k] + keys;
      forall j | 0 < j < |r|
        ensures TextLe(ts[r[j]], ts[r[0]])
      {
        if j > 1 {
          TextLeTransitive(ts[keys[j - 1]], ts[keys[0]], ts[k]);
        }
      }
    } else {
      TextLeTotal(ts[keys[0]], ts[k]);
      var tail := keys[1..];
      assert NewestFirst(tail, ts);
      InsertNewestSorted(k, tail, ts);
      var rest := InsertNewest(k, tail, ts);
      var r := [keys[0]] + rest;
      forall j | 0 <= j < |rest|
        ensures rest[j] != keys[0] && TextLe(ts[rest[j]], ts[keys[0]])
      {
        assert rest[j] in rest;
        if rest[j] != k {
          var m :| 0 <= m < |tail| && tail[m] == rest[j];
          assert keys[m + 1] == rest[j];
        }
      }
      assert r == InsertNewest(k, keys, ts);
    }
  }

  /** `ORDER BY created_at DESC` over the whole table: the keys of `ts`,
      each once, newest first. */
  method OrderNewestFirst(ts: map<string, string>) returns (keys: seq<string>)
    ensures NewestFirst(keys, ts)
    ensures forall k :: k in ts <==> k in keys
    ensures |keys| == |ts|
  {
    var remaining := ts.Keys;
    keys := [];
    while remaining != {}
      invariant remaining <= ts.Keys
      invariant forall k :: k in keys <==> k in ts && k !in remaining
      invariant NewestFirst(keys, ts)
      invariant |keys| + |remaining| == |ts.Keys|
      decreases |remaining|
    {
      var k :| k in remaining;
      InsertNewestSorted(k, keys, ts);
      keys := InsertNewest(k, keys, ts);
      remaining := remaining - {k};
    }
  }

  /** `LIMIT n` on a newest-first order keeps the newest rows. */
  lemma LimitKeepsNewest(keys: seq<string>, ts: map<string, string>, limit: nat)
    requires NewestFirst(keys, ts)
    requires forall k :: k in ts ==> k in keys
    requires |keys| == |ts|
    ensures NewestLimited(keys[..Min(limit, |keys|)], ts, limit)
  {
    var n := Min(limit, |keys|);
    var top := keys[..n];
    forall k, i | k in ts && k !in top && 0 <= i < |top|
      ensures TextLe(ts[k], ts[top[i]])
    {
      var j :| 0 <= j < |keys| && keys[j] == k;
      assert j >= n;
    }
  }

  /** With no limit, every row is listed. */
  lemma FullListing(keys: seq<string>, ts: map<string, string>)
    requires NewestFirst(keys, ts)
    requires forall k :: k in ts ==> k in keys
    requires |keys| == |ts|
    ensures NewestLimited(keys, ts, |ts|)
  {
  }

  /** The other keys whose timestamp is the same as or newer than `k`'s. */
  function AtLeastAsNew(ts: map<string, string>, k: string): set<string>
    requires k in ts
  {
    set j | j in ts && j != k && TextLe(ts[k], ts[j])
  }

  /** A sequence of distinct members of `s` is no longer than `s` is large. */
  lemma {:induction false} DistinctWithin(keys: seq<string>, s: set<string>)
    requires forall i, j :: 0 <= i < j < |keys| ==> keys[i] != keys[j]
    requires forall i :: 0 <= i < |keys| ==> keys[i] in s
    ensures |keys| <= |s|
  {
    if |keys| > 0 {
      DistinctWithin(keys[1..], s - {keys[0]});
    }
  }

  /** A row left out of the listing has at least `limit` other rows that
      are at least as new: with fewer, it would be listed. */
  lemma OmittedMeansCrowded(keys: seq<string>, ts: map<string, string>, limit: nat, k: string)
    requires NewestLimited(keys, ts, limit)
    requires k in ts && k !in keys
    ensures |AtLeastAsNew(ts, k)| >= limit
  {
    var newer := AtLeastAsNew(ts, k);
    forall i | 0 <= i < |keys| ensures keys[i] in newer {
      assert TextLe(ts[k], ts[keys[i]]);
    }
    DistinctWithin(keys, newer);
    SubsetSize(newer + {k}, ts.Keys);
    assert |newer + {k}| == |newer| + 1;
  }

  /** A row with fewer than `limit` other rows at least as new is listed. */
  lemma ListedUnlessCrowded(keys: seq<string>, ts: map<string, string>, limit: nat, k: string)
    requires NewestLimited(keys, ts, limit)
    requires k in ts && |AtLeastAsNew(ts, k)| < limit
    ensures k in keys
  {
    if k !in keys {
      OmittedMeansCrowded(keys, ts, limit, k);
    }
  }

  lemma {:induction false} SubsetSize(a: set<string>, b: set<string>)
    requires a <= b
    ensures |a| <= |b|
    decreases |a|
  {
    if a != {} {
      var x :| x in a;
      SubsetSize(a - {x}, b - {x});
    }
  }
}
