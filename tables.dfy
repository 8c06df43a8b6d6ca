/**
 * Relational vocabulary shared by the repositories: a table is a sequence of rows in
 * storage order; `Where` is a WHERE clause, `SortDesc` an ORDER BY ... DESC, `Take` a LIMIT,
 * and `ReadRows` is the reader loop that copies the rows a query yields into a list.
 */
module Tables {
  import opened Wrappers

  /** The rows of `s` that satisfy `p`, in table order. */
  function Where<T>(s: seq<T>, p: T -> bool): (r: seq<T>)
    ensures |r| <= |s|
  {
    if s == [] then [] else Where(s[..|s| - 1], p) + (if p(s[|s| - 1]) then [s[|s| - 1]] else [])
  }

  /** A row is selected exactly when it is in the table and satisfies the condition. */
  lemma {:induction false} WhereMembership<T>(s: seq<T>, p: T -> bool, x: T)
    ensures x in Where(s, p) <==> x in s && p(x)
  {
    if s != [] {
      var init := s[..|s| - 1];
      WhereMembership(init, p, x);
      assert s == init + [s[|s| - 1]];
    }
  }

  /** Every selected row satisfies the condition (the membership lemma for all rows at once). */
  lemma WhereAll<T>(s: seq<T>, p: T -> bool)
    ensures forall x :: x in Where(s, p) <==> x in s && p(x)
  {
    forall x ensures x in Where(s, p) <==> x in s && p(x) {
      WhereMembership(s, p, x);
    }
  }

  /** Reading only the first `k` rows yields a prefix of the full result. */
  lemma {:induction false} WherePrefix<T>(s: seq<T>, p: T -> bool, k: nat)
    requires k <= |s|
    ensures Where(s[..k], p) <= Where(s, p)
    decreases |s| - k
  {
    if k < |s| {
      var t := s[..k + 1];
      assert t[..|t| - 1] == s[..k];
      WherePrefix(s, p, k + 1);
    } else {
      assert s[..k] == s;
    }
  }

  /** Filtering a concatenation filters each part. */
  lemma {:induction false} WhereAppend<T>(a: seq<T>, b: seq<T>, p: T -> bool)
    ensures Where(a + b, p) == Where(a, p) + Where(b, p)
    decreases |b|
  {
    if b == [] {
      assert a + b == a;
    } else {
      var b' := b[..|b| - 1];
      WhereAppend(a, b', p);
      assert (a + b)[..|a + b| - 1] == a + b';
    }
  }

  /** A condition that holds of no row selects nothing. */
  lemma {:induction false} WhereNone<T>(s: seq<T>, p: T -> bool)
    requires forall i :: 0 <= i < |s| ==> !p(s[i])
    ensures Where(s, p) == []
  {
    if s != [] {
      WhereNone(s[..|s| - 1], p);
    }
  }

  /** A condition every row satisfies selects the whole table. */
  lemma {:induction false} WhereEvery<T>(s: seq<T>, p: T -> bool)
    requires forall i :: 0 <= i < |s| ==> p(s[i])
    ensures Where(s, p) == s
  {
    if s != [] {
      WhereEvery(s[..|s| - 1], p);
    }
  }

  /** `s` is ordered by `key`, largest first (ORDER BY key DESC). */
  ghost predicate SortedDesc<T>(s: seq<T>, key: T -> int)
  {
    forall i, j :: 0 <= i < j < |s| ==> key(s[i]) >= key(s[j])
  }

  /** Inserts `x` before the first element whose key is strictly smaller (stable for ties). */
  function InsertDesc<T>(x: T, s: seq<T>, key: T -> int): (r: seq<T>)
    ensures |r| == |s| + 1
  {
    if s == [] || key(x) > key(s[0]) then [x] + s else [s[0]] + InsertDesc(x, s[1..], key)
  }

  /** The rows of `s` ordered newest (largest key) first. */
  function SortDesc<T>(s: seq<T>, key: T -> int): (r: seq<T>)
    ensures |r| == |s|
  {
    if s == [] then [] else InsertDesc(s[0], SortDesc(s[1..], key), key)
  }

  lemma {:induction false} InsertDescPermutes<T>(x: T, s: seq<T>, key: T -> int)
    ensures multiset(InsertDesc(x, s, key)) == multiset(s) + multiset{x}
  {
    if s != [] && key(x) <= key(s[0]) {
      InsertDescPermutes(x, s[1..], key);
      assert s == [s[0]] + s[1..];
    }
  }

  lemma {:induction false} InsertDescSorted<T>(x: T, s: seq<T>, key: T -> int)
    requires SortedDesc(s, key)
    ensures SortedDesc(InsertDesc(x, s, key), key)
  {
    if s != [] && key(x) <= key(s[0]) {
      var rest := InsertDesc(x, s[1..], key);
      InsertDescSorted(x, s[1..], key);
      InsertDescPermutes(x, s[1..], key);
      forall j | 0 <= j < |rest| ensures key(s[0]) >= key(rest[j]) {
        assert rest[j] in multiset(s[1..]) + multiset{x};
        if rest[j] != x {
          var k :| 0 <= k < |s[1..]| && s[1..][k] == rest[j];
          assert s[k + 1] == rest[j];
        }
      }
      var r := [s[0]] + rest;
      forall i, j | 0 <= i < j < |r| ensures key(r[i]) >= key(r[j]) {
        if i > 0 {
          assert r[i] == rest[i - 1] && r[j] == rest[j - 1];
        }
      }
    }
  }

  /** ORDER BY ... DESC returns the same rows, and in order. */
  lemma {:induction false} SortDescFacts<T>(s: seq<T>, key: T -> int)
    ensures SortedDesc(SortDesc(s, key), key)
    ensures multiset(SortDesc(s, key)) == multiset(s)
  {
    if s != [] {
      SortDescFacts(s[1..], key);
      InsertDescSorted(s[0], SortDesc(s[1..], key), key);
      InsertDescPermutes(s[0], SortDesc(s[1..], key), key);
      assert s == [s[0]] + s[1..];
    }
  }

  /** LIMIT n: the first `n` rows (all of them when there are fewer). */
  function Take<T>(s: seq<T>, n: int): (r: seq<T>)
    ensures r <= s
    ensures |r| == if n <= 0 then 0 else if n < |s| then n else |s|
  {
    if n <= 0 then [] else if n < |s| then s[..n] else s
  }

  function Min(a: int, b: int): int { if a < b then a else b }

  /** The first row satisfying `p`: what a reader returns when it reads one row only. */
  function First<T>(s: seq<T>, p: T -> bool): (r: Option<T>)
    ensures r.Some? <==> exists i :: 0 <= i < |s| && p(s[i])
    ensures r.Some? ==> exists i :: 0 <= i < |s| && s[i] == r.value && p(s[i]) && forall j :: 0 <= j < i ==> !p(s[j])
  {
    if s == [] then None
    else if p(s[0]) then Some(s[0])
    else
      var r := First(s[1..], p);
      assert forall i :: 0 < i < |s| ==> s[i] == s[1..][i - 1];
      r
  }

  /** The first match in a concatenation is the first part's, when it has one. */
  lemma {:induction false} FirstAppend<T>(a: seq<T>, b: seq<T>, p: T -> bool)
    ensures First(a + b, p) == if First(a, p).Some? then First(a, p) else First(b, p)
  {
    if a == [] {
      assert a + b == b;
    } else {
      assert (a + b)[0] == a[0];
      assert (a + b)[1..] == a[1..] + b;
      FirstAppend(a[1..], b, p);
    }
  }

  /** Two conditions that agree on every row select the same rows. */
  lemma {:induction false} WhereSameCondition<T>(s: seq<T>, p: T -> bool, q: T -> bool)
    requires forall x :: p(x) == q(x)
    ensures Where(s, p) == Where(s, q)
  {
    if s != [] {
      WhereSameCondition(s[..|s| - 1], p, q);
    }
  }

  /** A count query is positive exactly when some row satisfies the condition. */
  lemma WhereNonEmpty<T>(s: seq<T>, p: T -> bool)
    ensures |Where(s, p)| > 0 <==> exists i :: 0 <= i < |s| && p(s[i])
  {
    WhereAll(s, p);
    if exists i :: 0 <= i < |s| && p(s[i]) {
      var i :| 0 <= i < |s| && p(s[i]);
      assert s[i] in Where(s, p);
    }
  }

  /** `UPDATE ... SET f WHERE p`: every row satisfying `p` is rewritten by `f`, in place. */
  function UpdateWhere<T>(s: seq<T>, p: T -> bool, f: T -> T): (r: seq<T>)
    ensures |r| == |s|
  {
    seq(|s|, i requires 0 <= i < |s| => if p(s[i]) then f(s[i]) else s[i])
  }

  /**
   * When the rewrite keeps rows selected, the first selected row after the update is the
   * first selected row before it, rewritten: what `UPDATE ... RETURNING` yields first.
   */
  lemma UpdateWhereFirst<T>(s: seq<T>, p: T -> bool, f: T -> T)
    requires forall x :: p(x) ==> p(f(x))
    ensures First(UpdateWhere(s, p, f), p) == if First(s, p).Some? then Some(f(First(s, p).value)) else None
  {
    var r := UpdateWhere(s, p, f);
    if First(s, p).Some? {
      var k :| 0 <= k < |s| && s[k] == First(s, p).value && p(s[k]) && forall j :: 0 <= j < k ==> !p(s[j]);
      assert p(r[k]);
      var m :| 0 <= m < |r| && r[m] == First(r, p).value && p(r[m]) && forall j :: 0 <= j < m ==> !p(r[j]);
      assert p(s[m]);
      assert m == k;
    } else {
      forall i | 0 <= i < |r| ensures !p(r[i]) {
        assert !p(s[i]);
      }
    }
  }

  /** The WHERE clause drops some row exactly when some row fails the condition. */
  lemma {:induction false} WhereDrops<T>(s: seq<T>, p: T -> bool)
    ensures |Where(s, p)| < |s| <==> exists i :: 0 <= i < |s| && !p(s[i])
  {
    if s != [] {
      var init := s[..|s| - 1];
      WhereDrops(init, p);
      assert forall i :: 0 <= i < |init| ==> init[i] == s[i];
    }
  }

  /**
   * What a reader loop yields when reading a row can throw: the rows before the first one
   * that cannot be read (`ok` false), in result order.
   */
  function ReadPrefix<T>(s: seq<T>, ok: T -> bool): (r: seq<T>)
    ensures r <= s
    ensures forall i :: 0 <= i < |r| ==> ok(r[i])
    ensures |r| < |s| ==> !ok(s[|r|])
  {
    if s == [] || !ok(s[0]) then [] else [s[0]] + ReadPrefix(s[1..], ok)
  }

  /** The read prefix is the only prefix of readable rows that stops at an unreadable row or the end. */
  lemma {:induction false} ReadPrefixUnique<T>(s: seq<T>, ok: T -> bool, k: nat)
    requires k <= |s|
    requires forall i :: 0 <= i < k ==> ok(s[i])
    requires k < |s| ==> !ok(s[k])
    ensures ReadPrefix(s, ok) == s[..k]
  {
    if k > 0 {
      ReadPrefixUnique(s[1..], ok, k - 1);
      assert [s[0]] + s[1..][..k - 1] == s[..k];
    }
  }

  /** Every row is read exactly when every row is readable. */
  lemma ReadPrefixComplete<T>(s: seq<T>, ok: T -> bool)
    ensures ReadPrefix(s, ok) == s <==> forall i :: 0 <= i < |s| ==> ok(s[i])
  {
    if forall i :: 0 <= i < |s| ==> ok(s[i]) {
      ReadPrefixUnique(s, ok, |s|);
    }
  }

  /**
   * A reader over a filtered query returns stored rows that pass the filter and can be read,
   * and returns them all when every selected row can be read.
   */
  lemma ReadPrefixOfWhere<T>(s: seq<T>, p: T -> bool, ok: T -> bool)
    ensures forall x :: x in ReadPrefix(Where(s, p), ok) ==> x in s && p(x) && ok(x)
    ensures (forall x :: x in s && p(x) ==> ok(x)) ==> ReadPrefix(Where(s, p), ok) == Where(s, p)
  {
    var w := Where(s, p);
    var r := ReadPrefix(w, ok);
    WhereAll(s, p);
    forall x | x in r ensures x in s && p(x) && ok(x) {
      var k :| 0 <= k < |r| && r[k] == x;
      assert w[k] == x;
    }
    if forall x :: x in s && p(x) ==> ok(x) {
      forall i | 0 <= i < |w| ensures ok(w[i]) {
        assert w[i] in w;
      }
      ReadPrefixComplete(w, ok);
    }
  }

  /**
   * The reader loop: copies the rows a query yields into a list, one at a time, and stops at
   * the first row whose columns cannot be read; `complete` tells whether it got to the end.
   */
  method ReadRows<T>(s: seq<T>, ok: T -> bool) returns (r: seq<T>, complete: bool)
    ensures r == ReadPrefix(s, ok)
    ensures complete <==> r == s
  {
    r := [];
    var i := 0;
    while i < |s|
      invariant 0 <= i <= |s|
      invariant r == s[..i]
      invariant forall j :: 0 <= j < i ==> ok(s[j])
    {
      if !ok(s[i]) {
        ReadPrefixUnique(s, ok, i);
        return r, false;
      }
      r := r + [s[i]];
      i := i + 1;
    }
    assert r == s;
    ReadPrefixUnique(s, ok, i);
    complete := true;
  }
}
