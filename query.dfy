/**
 * The meaning of the data-store queries the route handlers build: `.eq` filters,
 * `.single()`, `.update()` and `.delete()` by filter, `.order()`, `.limit()` and
 * `.ilike()`. A table is a sequence of rows in storage order.
 */
module Query {
  import opened Wrappers

  /** The rows satisfying `p`, in table order. */
  function Filter<T(!new)>(s: seq<T>, p: T -> bool): (r: seq<T>)
    ensures |r| <= |s|
    ensures forall x :: x in r <==> x in s && p(x)
  {
    if s == [] then [] else (if p(s[0]) then [s[0]] else []) + Filter(s[1..], p)
  }

  /** Every row satisfying `p` is kept as many times as the table holds it; no other row is. */
  lemma {:induction false} FilterMultiset<T(!new)>(s: seq<T>, p: T -> bool)
    ensures forall x :: multiset(Filter(s, p))[x] == if p(x) then multiset(s)[x] else 0
  {
    if s != [] {
      assert s == [s[0]] + s[1..];
      FilterMultiset(s[1..], p);
    }
  }

  lemma {:induction false} FilterAppend<T(!new)>(a: seq<T>, b: seq<T>, p: T -> bool)
    ensures Filter(a + b, p) == Filter(a, p) + Filter(b, p)
  {
    if a == [] {
      assert a + b == b;
    } else {
      assert (a + b)[1..] == a[1..] + b;
      FilterAppend(a[1..], b, p);
    }
  }

  /** Filtering one more element of `s` appends it exactly when it passes. */
  lemma FilterSnoc<T(!new)>(s: seq<T>, i: nat, p: T -> bool)
    requires i < |s|
    ensures Filter(s[..i + 1], p) == Filter(s[..i], p) + (if p(s[i]) then [s[i]] else [])
  {
    assert s[..i + 1] == s[..i] + [s[i]];
    FilterAppend(s[..i], [s[i]], p);
    assert [s[i]][1..] == [];
  }

  /** Selecting with a predicate no row satisfies gives nothing. */
  lemma FilterNone<T(!new)>(s: seq<T>, p: T -> bool)
    requires forall i :: 0 <= i < |s| ==> !p(s[i])
    ensures Filter(s, p) == []
  {
    if s != [] {
      FilterNone(s[1..], p);
    }
  }

  /** Selecting with a predicate every row satisfies gives the table itself. */
  lemma FilterAll<T(!new)>(s: seq<T>, p: T -> bool)
    requires forall i :: 0 <= i < |s| ==> p(s[i])
    ensures Filter(s, p) == s
  {
    if s != [] {
      FilterAll(s[1..], p);
    }
  }

  /** Two predicates that agree on every row select the same rows. */
  lemma FilterCongruent<T(!new)>(s: seq<T>, p: T -> bool, q: T -> bool)
    requires forall i :: 0 <= i < |s| ==> p(s[i]) == q(s[i])
    ensures Filter(s, p) == Filter(s, q)
  {
    if s != [] {
      FilterCongruent(s[1..], p, q);
    }
  }

  /** `.single()`: a row only when exactly one row matched, otherwise an error and no data. */
  function Single<T>(matches: seq<T>): (r: Option<T>)
    ensures r.Some? <==> |matches| == 1
    ensures r.Some? ==> r.value == matches[0]
  {
    if |matches| == 1 then Some(matches[0]) else None
  }

  /** `.limit(n)`: the first `n` rows. */
  function Take<T>(s: seq<T>, n: nat): (r: seq<T>)
    ensures |r| == if |s| <= n then |s| else n
    ensures r == s[..|r|]
    ensures |s| <= n ==> r == s
  {
    if n < |s| then s[..n] else s
  }

  /**
   * `count || 0` after a `count: 'exact'` read the handler does not check: a read that
   * returns an error leaves `count` null, which reads as 0.
   */
  function CountOrZero(readFails: bool, n: nat): (c: nat)
    ensures c <= n
    ensures readFails ==> c == 0
    ensures !readFails ==> c == n
  {
    if readFails then 0 else n
  }

  /** `data || []` after a read the handler does not check: a failed read gives no rows. */
  function RowsOrEmpty<T>(readFails: bool, s: seq<T>): (r: seq<T>)
    ensures readFails ==> r == []
    ensures !readFails ==> r == s
  {
    if readFails then [] else s
  }

  /** `.update(f).eq(...)`: every row satisfying `p` is replaced by `f` of it; the others stay. */
  function UpdateWhere<T>(s: seq<T>, p: T -> bool, f: T -> T): (r: seq<T>)
    ensures |r| == |s|
    ensures forall i :: 0 <= i < |s| ==> r[i] == if p(s[i]) then f(s[i]) else s[i]
  {
    seq(|s|, i requires 0 <= i < |s| => if p(s[i]) then f(s[i]) else s[i])
  }

  /** An update that keeps every row's verdict under `p` commutes with selecting by `p`. */
  lemma {:induction false} FilterUpdateWhere<T(!new)>(s: seq<T>, p: T -> bool, f: T -> T)
    requires forall x :: p(f(x)) == p(x)
    ensures Filter(UpdateWhere(s, p, f), p) == UpdateWhere(Filter(s, p), p, f)
  {
    if s != [] {
      var u := UpdateWhere(s, p, f);
      assert u == [u[0]] + UpdateWhere(s[1..], p, f);
      FilterUpdateWhere(s[1..], p, f);
      var m := Filter(s[1..], p);
      if p(s[0]) {
        assert Filter(s, p) == [s[0]] + m;
        assert UpdateWhere([s[0]] + m, p, f) == [f(s[0])] + UpdateWhere(m, p, f);
      } else {
        assert Filter(s, p) == m;
      }
    }
  }

  /** Applying an idempotent update that keeps its own filter's verdict twice is applying it once. */
  lemma UpdateWhereIdempotent<T(!new)>(s: seq<T>, p: T -> bool, f: T -> T)
    requires forall x :: p(f(x)) == p(x) && f(f(x)) == f(x)
    ensures UpdateWhere(UpdateWhere(s, p, f), p, f) == UpdateWhere(s, p, f)
  {
    var once := UpdateWhere(s, p, f);
    var twice := UpdateWhere(once, p, f);
    assert forall i :: 0 <= i < |twice| ==> twice[i] == once[i];
  }

  /** `.delete().eq(...)`: the rows satisfying `p` are removed. */
  function DeleteWhere<T(!new)>(s: seq<T>, p: T -> bool): (r: seq<T>)
    ensures forall x :: x in r <==> x in s && !p(x)
  {
    Filter(s, (x: T) => !p(x))
  }

  /** The conjunction of two row predicates. */
  function Both<T>(p: T -> bool, q: T -> bool): T -> bool
  {
    (x: T) => p(x) && q(x)
  }

  /** Removing the rows satisfying `p` removes, from any selection `q`, exactly those that satisfy both. */
  lemma {:induction false} DeleteWhereCount<T(!new)>(s: seq<T>, p: T -> bool, q: T -> bool)
    ensures |Filter(s, q)| == |Filter(DeleteWhere(s, p), q)| + |Filter(s, Both(p, q))|
  {
    if s != [] {
      DeleteWhereCount(s[1..], p, q);
      var head := if !p(s[0]) then [s[0]] else [];
      assert DeleteWhere(s, p) == head + DeleteWhere(s[1..], p);
      FilterAppend(head, DeleteWhere(s[1..], p), q);
    }
  }

  ghost predicate SortedBy<T>(s: seq<T>, key: T -> int)
  {
    forall i, j :: 0 <= i < j < |s| ==> key(s[i]) <= key(s[j])
  }

  function InsertByKey<T>(x: T, s: seq<T>, key: T -> int): (r: seq<T>)
    requires SortedBy(s, key)
    ensures SortedBy(r, key)
    ensures multiset(r) == multiset(s) + multiset{x}
  {
    if s == [] || key(x) <= key(s[0]) then [x] + s
    else
      var rest := InsertByKey(x, s[1..], key);
      assert s == [s[0]] + s[1..];
      BoundedByMultiset(key(s[0]), s[1..], rest, x, key);
      SortedCons(s[0], rest, key);
      [s[0]] + rest
  }

  /** A lower bound on every key of `s` and on `x` bounds every key of a reordering of `s` plus `x`. */
  lemma BoundedByMultiset<T>(lo: int, s: seq<T>, r: seq<T>, x: T, key: T -> int)
    requires lo <= key(x) && forall k :: 0 <= k < |s| ==> lo <= key(s[k])
    requires multiset(r) == multiset(s) + multiset{x}
    ensures forall k :: 0 <= k < |r| ==> lo <= key(r[k])
  {
    forall k | 0 <= k < |r|
      ensures lo <= key(r[k])
    {
      assert r[k] in multiset(r);
      if r[k] != x {
        assert r[k] in multiset(s);
        var j :| 0 <= j < |s| && s[j] == r[k];
      }
    }
  }

  lemma SortedCons<T>(y: T, r: seq<T>, key: T -> int)
    requires SortedBy(r, key) && forall k :: 0 <= k < |r| ==> key(y) <= key(r[k])
    ensures SortedBy([y] + r, key)
  {
    var s := [y] + r;
    forall i, j | 0 <= i < j < |s|
      ensures key(s[i]) <= key(s[j])
    {
      assert s[j] == r[j - 1];
      if i > 0 {
        assert s[i] == r[i - 1];
      }
    }
  }

  /**
   * `.order(column, { ascending: true })` with `key` reading the column; a descending
   * order is the same with the key negated. Rows with equal keys keep their table order.
   */
  function SortBy<T>(s: seq<T>, key: T -> int): (r: seq<T>)
    ensures SortedBy(r, key)
    ensures multiset(r) == multiset(s)
    ensures |r| == |s|
  {
    if s == [] then []
    else
      assert s == [s[0]] + s[1..];
      InsertByKey(s[0], SortBy(s[1..], key), key)
  }

  /** Two orderings of the same rows hold the same rows. */
  lemma SameMembers<T>(a: seq<T>, b: seq<T>)
    requires multiset(a) == multiset(b)
    ensures forall x :: x in a <==> x in b
  {
    forall x
      ensures x in a <==> x in b
    {
      assert x in a <==> x in multiset(a);
      assert x in b <==> x in multiset(b);
    }
  }

  /**
   * `r` is a page `.order(key).limit(n)` may answer with from the rows `s`: as many rows
   * as the limit allows, drawn from `s`, in key order, and no row left out has a smaller
   * key than a row kept.
   */
  ghost predicate FirstByKey<T>(r: seq<T>, s: seq<T>, key: T -> int, n: nat)
  {
    && |r| == (if |s| <= n then |s| else n)
    && multiset(r) <= multiset(s)
    && SortedBy(r, key)
    && forall x, y :: x in multiset(s) - multiset(r) && y in r ==> key(y) <= key(x)
  }

  /** A prefix of a sorted table is sorted, holds only rows of the table, and is its first rows by the key. */
  lemma TakeSorted<T>(s: seq<T>, key: T -> int, n: nat)
    requires SortedBy(s, key)
    ensures SortedBy(Take(s, n), key)
    ensures forall x :: x in Take(s, n) ==> x in s
    ensures FirstByKey(Take(s, n), s, key, n)
  {
    var r := Take(s, n);
    assert s == r + s[|r|..];
    assert multiset(s) - multiset(r) == multiset(s[|r|..]);
    forall x, y | x in multiset(s) - multiset(r) && y in r
      ensures key(y) <= key(x)
    {
      assert x in s[|r|..];
      var j :| |r| <= j < |s| && s[j] == x;
      var i :| 0 <= i < |r| && r[i] == y;
      assert s[i] == y;
    }
  }

  /** `.order(key).limit(n)` answers with the first `n` rows by the key. */
  lemma {:induction false} TakeSortBy<T>(s: seq<T>, key: T -> int, n: nat)
    ensures FirstByKey(Take(SortBy(s, key), n), s, key, n)
  {
    TakeSorted(SortBy(s, key), key, n);
  }

  /** The first row of a sorted table has the least key of all its rows. */
  lemma SortByFirstIsLeast<T>(s: seq<T>, key: T -> int, x: T)
    requires x in s
    ensures SortBy(s, key) != [] && key(SortBy(s, key)[0]) <= key(x)
  {
    var r := SortBy(s, key);
    assert x in multiset(s);
    assert x in r;
    var j :| 0 <= j < |r| && r[j] == x;
    if j > 0 {
      assert key(r[0]) <= key(r[j]);
    }
  }

  // ILIKE pattern matching, as PostgreSQL defines it: `%` matches any run of characters,
  // `_` exactly one, and a backslash makes the character after it literal.

  function LikeMatch(p: string, t: string): bool
    decreases |p| + |t|
  {
    if p == [] then t == []
    else if p[0] == '%' then LikeMatch(p[1..], t) || (t != [] && LikeMatch(p, t[1..]))
    else if p[0] == '_' then t != [] && LikeMatch(p[1..], t[1..])
    else if p[0] == '\\' && |p| >= 2 then t != [] && t[0] == p[1] && LikeMatch(p[2..], t[1..])
    else t != [] && t[0] == p[0] && LikeMatch(p[1..], t[1..])
  }

  /** ASCII lower-casing, the case folding ILIKE applies to both sides. */
  function Lower(c: char): char
  {
    if 'A' <= c <= 'Z' then (c as int + 32) as char else c
  }

  function LowerAll(s: string): (r: string)
    ensures |r| == |s| && forall k :: 0 <= k < |s| ==> r[k] == Lower(s[k])
  {
    seq(|s|, k requires 0 <= k < |s| => Lower(s[k]))
  }

  /** `text ILIKE pattern`: a lone `%` matches everything, the empty pattern only the empty text. */
  predicate ILike(text: string, pattern: string): (b: bool)
    ensures pattern == "%" ==> b
    ensures pattern == "" ==> (b <==> text == "")
  {
    PercentMatchesAll(LowerAll(text));
    assert LowerAll("%") == "%";
    LikeMatch(LowerAll(pattern), LowerAll(text))
  }

  /** A string holding no `%`, `_` or backslash matches only itself. */
  predicate Literal(u: string)
  {
    forall k :: 0 <= k < |u| ==> u[k] != '%' && u[k] != '_' && u[k] != '\\'
  }

  /** `u` occurs in `t` starting at index `i`. */
  predicate OccursAt(u: string, t: string, i: int)
  {
    0 <= i <= |t| - |u| && t[i..i + |u|] == u
  }

  predicate IsInfix(u: string, t: string)
  {
    exists i :: 0 <= i <= |t| && OccursAt(u, t, i)
  }

  /** A lone `%` matches every string. */
  lemma {:induction false} PercentMatchesAll(t: string)
    ensures LikeMatch("%", t)
  {
    if t != [] {
      PercentMatchesAll(t[1..]);
    } else {
      assert "%"[1..] == [];
    }
  }

  /** A literal followed by `%` matches exactly the strings that start with the literal. */
  lemma {:induction false} LiteralPrefix(u: string, t: string)
    requires Literal(u)
    ensures LikeMatch(u + "%", t) <==> |u| <= |t| && t[..|u|] == u
  {
    if u == [] {
      assert u + "%" == "%";
      PercentMatchesAll(t);
    } else {
      assert (u + "%")[0] == u[0];
      assert (u + "%")[1..] == u[1..] + "%";
      if t != [] {
        LiteralPrefix(u[1..], t[1..]);
        if |u| <= |t| && t[..|u|] == u {
          assert t[1..][..|u| - 1] == u[1..];
        }
        if t[0] == u[0] && |u[1..]| <= |t[1..]| && t[1..][..|u[1..]|] == u[1..] {
          assert t[..|u|] == [t[0]] + t[1..][..|u| - 1];
        }
      }
    }
  }

  /** A leading `%` lets the rest of the pattern match any suffix. */
  lemma {:induction false} LeadingPercent(q: string, t: string)
    ensures LikeMatch("%" + q, t) <==> exists k :: 0 <= k <= |t| && LikeMatch(q, t[k..])
  {
    var p := "%" + q;
    assert p[1..] == q;
    if t == [] {
      assert t[0..] == t;
    } else {
      LeadingPercent(q, t[1..]);
      if LikeMatch(p, t) {
        if LikeMatch(q, t) {
          assert t[0..] == t;
        } else {
          var k :| 0 <= k <= |t[1..]| && LikeMatch(q, t[1..][k..]);
          assert t[1..][k..] == t[k + 1..];
        }
      }
      if exists k :: 0 <= k <= |t| && LikeMatch(q, t[k..]) {
        var k :| 0 <= k <= |t| && LikeMatch(q, t[k..]);
        if k == 0 {
          assert t[0..] == t;
        } else {
          assert t[1..][k - 1..] == t[k..];
        }
      }
    }
  }

  /** `%term%` with a literal term matches exactly the strings that contain the term. */
  lemma ContainsPattern(u: string, t: string)
    requires Literal(u)
    ensures LikeMatch("%" + u + "%", t) <==> IsInfix(u, t)
  {
    assert "%" + u + "%" == "%" + (u + "%");
    LeadingPercent(u + "%", t);
    if LikeMatch("%" + u + "%", t) {
      var k :| 0 <= k <= |t| && LikeMatch(u + "%", t[k..]);
      LiteralPrefix(u, t[k..]);
      assert t[k..k + |u|] == t[k..][..|u|];
      assert OccursAt(u, t, k);
    }
    if IsInfix(u, t) {
      var i :| 0 <= i <= |t| && OccursAt(u, t, i);
      LiteralPrefix(u, t[i..]);
      assert t[i..][..|u|] == t[i..i + |u|];
    }
  }

  /** An unescaped `_` is a wildcard: `%_%` matches every non-empty string. */
  lemma UnderscoreMatchesAnyNonEmpty(t: string)
    ensures LikeMatch("%_%", t) <==> t != []
  {
    assert "%_%" == "%" + "_%";
    LeadingPercent("_%", t);
    if t != [] {
      assert "_%"[1..] == "%";
      PercentMatchesAll(t[1..]);
      assert LikeMatch("_%", t[0..]);
    } else {
      assert forall k :: 0 <= k <= |t| ==> t[k..] == [];
    }
  }
}
