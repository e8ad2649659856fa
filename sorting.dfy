// `ORDER BY` for the repository queries: stable insertion sorts by an
// integer key, newest first, and by a string key in code-point order.

module Sorting {

  // ---------------------------------------------------------------
  // Descending by an integer key (`ORDER BY created_at DESC`).

  predicate NotOlder<T>(a: T, b: T, key: T -> int) {
    key(a) >= key(b)
  }

  predicate SortedDesc<T>(s: seq<T>, key: T -> int) {
    forall i :: 0 <= i < |s| - 1 ==> NotOlder(s[i], s[i + 1], key)
  }

  function InsertDesc<T>(x: T, s: seq<T>, key: T -> int): seq<T> {
    if s == [] then [x]
    else if key(x) >= key(s[0]) then [x] + s
    else [s[0]] + InsertDesc(x, s[1..], key)
  }

  function SortDesc<T>(s: seq<T>, key: T -> int): seq<T> {
    if s == [] then [] else InsertDesc(s[0], SortDesc(s[1..], key), key)
  }

  lemma InsertDescHead<T>(x: T, s: seq<T>, key: T -> int)
    ensures var r := InsertDesc(x, s, key);
      r != [] && (r[0] == x || (s != [] && r[0] == s[0]))
  {
  }

  lemma {:induction false} InsertDescPermutes<T>(x: T, s: seq<T>, key: T -> int)
    ensures multiset(InsertDesc(x, s, key)) == multiset(s) + multiset{x}
    decreases |s|
  {
    if s != [] && key(x) < key(s[0]) {
      InsertDescPermutes(x, s[1..], key);
      assert s == [s[0]] + s[1..];
    }
  }

  lemma {:induction false} InsertDescSorted<T>(x: T, s: seq<T>, key: T -> int)
    requires SortedDesc(s, key)
    ensures SortedDesc(InsertDesc(x, s, key), key)
    decreases |s|
  {
    if s != [] && key(x) < key(s[0]) {
      var t := InsertDesc(x, s[1..], key);
      InsertDescSorted(x, s[1..], key);
      InsertDescHead(x, s[1..], key);
      assert key(s[0]) >= key(t[0]);
    }
  }

  lemma InsertDescFacts<T>(x: T, s: seq<T>, key: T -> int)
    requires SortedDesc(s, key)
    ensures var r := InsertDesc(x, s, key);
      SortedDesc(r, key) && multiset(r) == multiset(s) + multiset{x}
      && r != [] && (r[0] == x || (s != [] && r[0] == s[0]))
  {
    InsertDescHead(x, s, key);
    InsertDescPermutes(x, s, key);
    InsertDescSorted(x, s, key);
  }

  /** The sorted rows are the same rows, newest (largest key) first. */
  lemma SortDescCorrect<T>(s: seq<T>, key: T -> int)
    ensures SortedDesc(SortDesc(s, key), key)
    ensures multiset(SortDesc(s, key)) == multiset(s)
  {
    SortDescSorted(s, key);
    SortDescPermutes(s, key);
  }

  lemma {:induction false} SortDescSorted<T>(s: seq<T>, key: T -> int)
    ensures SortedDesc(SortDesc(s, key), key)
    decreases |s|
  {
    if s != [] {
      SortDescSorted(s[1..], key);
      InsertDescSorted(s[0], SortDesc(s[1..], key), key);
    }
  }

  lemma {:induction false} SortDescPermutes<T>(s: seq<T>, key: T -> int)
    ensures multiset(SortDesc(s, key)) == multiset(s)
    decreases |s|
  {
    if s != [] {
      SortDescPermutes(s[1..], key);
      InsertDescPermutes(s[0], SortDesc(s[1..], key), key);
      assert s == [s[0]] + s[1..];
    }
  }

  /** Adjacent order gives order between any two positions. */
  lemma {:induction false} SortedDescPairwise<T>(s: seq<T>, key: T -> int, i: int, j: int)
    requires SortedDesc(s, key) && 0 <= i <= j < |s|
    ensures key(s[i]) >= key(s[j])
    decreases j - i
  {
    if i < j {
      SortedDescPairwise(s, key, i + 1, j);
    }
  }

  // ---------------------------------------------------------------
  // Ascending by a string key (`ORDER BY name`), code-point order.

  predicate StrLe(a: string, b: string)
    decreases |a|
  {
    a == [] || (b != [] && (a[0] < b[0] || (a[0] == b[0] && StrLe(a[1..], b[1..]))))
  }

  lemma {:induction false} StrLeTotal(a: string, b: string)
    ensures StrLe(a, b) || StrLe(b, a)
    decreases |a|
  {
    if a != [] && b != [] && a[0] == b[0] {
      StrLeTotal(a[1..], b[1..]);
    }
  }

  lemma {:induction false} StrLeAntisymmetric(a: string, b: string)
    requires StrLe(a, b) && StrLe(b, a)
    ensures a == b
    decreases |a|
  {
    if a != [] {
      StrLeAntisymmetric(a[1..], b[1..]);
      assert a == [a[0]] + a[1..] && b == [b[0]] + b[1..];
    }
  }

  predicate SortedAsc<T>(s: seq<T>, key: T -> string) {
    forall i :: 0 <= i < |s| - 1 ==> StrLe(key(s[i]), key(s[i + 1]))
  }

  function InsertAsc<T>(x: T, s: seq<T>, key: T -> string): seq<T> {
    if s == [] then [x]
    else if StrLe(key(x), key(s[0])) then [x] + s
    else [s[0]] + InsertAsc(x, s[1..], key)
  }

  function SortAsc<T>(s: seq<T>, key: T -> string): seq<T> {
    if s == [] then [] else InsertAsc(s[0], SortAsc(s[1..], key), key)
  }

  lemma InsertAscHead<T>(x: T, s: seq<T>, key: T -> string)
    ensures var r := InsertAsc(x, s, key);
      r != [] && (r[0] == x || (s != [] && r[0] == s[0]))
  {
  }

  lemma {:induction false} InsertAscPermutes<T>(x: T, s: seq<T>, key: T -> string)
    ensures multiset(InsertAsc(x, s, key)) == multiset(s) + multiset{x}
    decreases |s|
  {
    if s != [] && !StrLe(key(x), key(s[0])) {
      InsertAscPermutes(x, s[1..], key);
      assert s == [s[0]] + s[1..];
    }
  }

  lemma {:induction false} InsertAscSorted<T>(x: T, s: seq<T>, key: T -> string)
    requires SortedAsc(s, key)
    ensures SortedAsc(InsertAsc(x, s, key), key)
    decreases |s|
  {
    if s != [] && !StrLe(key(x), key(s[0])) {
      var t := InsertAsc(x, s[1..], key);
      StrLeTotal(key(x), key(s[0]));
      InsertAscSorted(x, s[1..], key);
      InsertAscHead(x, s[1..], key);
      assert StrLe(key(s[0]), key(t[0]));
    }
  }

  lemma InsertAscFacts<T>(x: T, s: seq<T>, key: T -> string)
    requires SortedAsc(s, key)
    ensures var r := InsertAsc(x, s, key);
      SortedAsc(r, key) && multiset(r) == multiset(s) + multiset{x}
      && r != [] && (r[0] == x || (s != [] && r[0] == s[0]))
  {
    InsertAscHead(x, s, key);
    InsertAscPermutes(x, s, key);
    InsertAscSorted(x, s, key);
  }

  /** The sorted rows are the same rows, in ascending key order. */
  lemma SortAscCorrect<T>(s: seq<T>, key: T -> string)
    ensures SortedAsc(SortAsc(s, key), key)
    ensures multiset(SortAsc(s, key)) == multiset(s)
  {
    SortAscSorted(s, key);
    SortAscPermutes(s, key);
  }

  lemma {:induction false} SortAscSorted<T>(s: seq<T>, key: T -> string)
    ensures SortedAsc(SortAsc(s, key), key)
    decreases |s|
  {
    if s != [] {
      SortAscSorted(s[1..], key);
      InsertAscSorted(s[0], SortAsc(s[1..], key), key);
    }
  }

  lemma {:induction false} SortAscPermutes<T>(s: seq<T>, key: T -> string)
    ensures multiset(SortAsc(s, key)) == multiset(s)
    decreases |s|
  {
    if s != [] {
      SortAscPermutes(s[1..], key);
      InsertAscPermutes(s[0], SortAsc(s[1..], key), key);
      assert s == [s[0]] + s[1..];
    }
  }
}
