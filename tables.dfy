/** Generic facts about tables kept as sequences of rows: selecting rows by a
    condition (an ORM `filter`) and the order that selection keeps. */
module Tables {

  /** `sub` occurs in `s` in the same relative order (not necessarily contiguous). */
  predicate IsSubsequence<T(==)>(sub: seq<T>, s: seq<T>)
    decreases |s|
  {
    if sub == [] then true
    else if s == [] then false
    else if sub[0] == s[0] then IsSubsequence(sub[1..], s[1..])
    else IsSubsequence(sub, s[1..])
  }

  /** The rows of `rows` that satisfy `keep`, in their original order. */
  function Filter<T(==,!new)>(rows: seq<T>, keep: T -> bool): (r: seq<T>)
    ensures |r| <= |rows|
    ensures forall x :: x in r <==> x in rows && keep(x)
    ensures IsSubsequence(r, rows)
  {
    if rows == [] then []
    else if keep(rows[0]) then [rows[0]] + Filter(rows[1..], keep)
    else Filter(rows[1..], keep)
  }

  /** Selecting after appending one row is selecting first and then appending
      that row when it is kept. */
  lemma {:induction false} FilterAppend<T(!new)>(rows: seq<T>, x: T, keep: T -> bool)
    ensures Filter(rows + [x], keep) == Filter(rows, keep) + (if keep(x) then [x] else [])
  {
    if rows == [] {
      assert rows + [x] == [x];
    } else {
      assert (rows + [x])[1..] == rows[1..] + [x];
      FilterAppend(rows[1..], x, keep);
    }
  }

  /** A condition that holds of every row keeps the table as it is. */
  lemma {:induction false} FilterAll<T(!new)>(rows: seq<T>, keep: T -> bool)
    requires forall x :: x in rows ==> keep(x)
    ensures Filter(rows, keep) == rows
  {
    if rows != [] {
      FilterAll(rows[1..], keep);
    }
  }

  /** A condition that holds of no row selects nothing. */
  lemma {:induction false} FilterNone<T(!new)>(rows: seq<T>, keep: T -> bool)
    requires forall x :: x in rows ==> !keep(x)
    ensures Filter(rows, keep) == []
  {
    if rows != [] {
      FilterNone(rows[1..], keep);
    }
  }

  predicate StrictlyAscending<T>(s: seq<T>, rank: T -> int) {
    forall i, j :: 0 <= i < j < |s| ==> rank(s[i]) < rank(s[j])
  }

  /** A subsequence of a strictly ascending sequence is strictly ascending:
      selecting rows never breaks an ordering. */
  lemma {:induction false} SubsequenceAscending<T>(sub: seq<T>, s: seq<T>, rank: T -> int)
    requires IsSubsequence(sub, s)
    requires StrictlyAscending(s, rank)
    ensures StrictlyAscending(sub, rank)
    decreases |s|
  {
    if sub != [] && s != [] {
      if sub[0] == s[0] {
        SubsequenceAscending(sub[1..], s[1..], rank);
        SubsequenceMembers(sub[1..], s[1..]);
        forall j | 0 < j < |sub| ensures rank(sub[0]) < rank(sub[j]) {
          assert sub[j] == sub[1..][j - 1];
          assert sub[j] in sub[1..];
          var k :| 0 <= k < |s[1..]| && s[1..][k] == sub[j];
          assert s[k + 1] == sub[j];
        }
      } else {
        SubsequenceAscending(sub, s[1..], rank);
      }
    }
  }

  /** Every element of a subsequence is an element of the sequence. */
  lemma {:induction false} SubsequenceMembers<T>(sub: seq<T>, s: seq<T>)
    requires IsSubsequence(sub, s)
    ensures forall x :: x in sub ==> x in s
    decreases |s|
  {
    if sub != [] && s != [] {
      if sub[0] == s[0] {
        SubsequenceMembers(sub[1..], s[1..]);
        forall x | x in sub ensures x in s {
          var i :| 0 <= i < |sub| && sub[i] == x;
          if i > 0 {
            assert sub[1..][i - 1] == x;
            assert x in sub[1..];
            var k :| 0 <= k < |s[1..]| && s[1..][k] == x;
            assert s[k + 1] == x;
          } else {
            assert s[0] == x;
          }
        }
      } else {
        SubsequenceMembers(sub, s[1..]);
      }
    }
  }

  /** No two rows share a key: a unique constraint over the columns `key`
      projects. */
  predicate UniqueBy<T, K(==)>(s: seq<T>, key: T -> K) {
    forall i, j :: 0 <= i < j < |s| ==> key(s[i]) != key(s[j])
  }

  /** Removing rows never breaks a unique constraint. */
  lemma {:induction false} SubsequenceUniqueBy<T, K>(sub: seq<T>, s: seq<T>, key: T -> K)
    requires IsSubsequence(sub, s)
    requires UniqueBy(s, key)
    ensures UniqueBy(sub, key)
    decreases |s|
  {
    if sub != [] && s != [] {
      if sub[0] == s[0] {
        SubsequenceUniqueBy(sub[1..], s[1..], key);
        SubsequenceMembers(sub[1..], s[1..]);
        forall j | 0 < j < |sub| ensures key(sub[0]) != key(sub[j]) {
          assert sub[j] == sub[1..][j - 1];
          assert sub[j] in sub[1..];
          var k :| 0 <= k < |s[1..]| && s[1..][k] == sub[j];
          assert s[k + 1] == sub[j];
        }
      } else {
        SubsequenceUniqueBy(sub, s[1..], key);
      }
    }
  }

  /** Two tables that are each unique and share no key concatenate into a
      unique table. */
  lemma ConcatUniqueBy<T, K>(a: seq<T>, b: seq<T>, key: T -> K)
    requires UniqueBy(a, key) && UniqueBy(b, key)
    requires forall x, y :: x in a && y in b ==> key(x) != key(y)
    ensures UniqueBy(a + b, key)
  {
    var c := a + b;
    forall i, j | 0 <= i < j < |c| ensures key(c[i]) != key(c[j]) {
      if j < |a| {
        assert c[i] == a[i] && c[j] == a[j];
      } else if i >= |a| {
        assert c[i] == b[i - |a|] && c[j] == b[j - |a|];
      } else {
        assert c[i] == a[i] && c[j] == b[j - |a|];
        assert c[i] in a && c[j] in b;
      }
    }
  }
}
