/** Shared vocabulary for the back-office model: optional values, request
    fields as JavaScript delivers them, the ObjectId text check, and the
    list primitives the controllers use (`findIndex`, `filter`, `sort`). */
module Common {

  datatype Option<T> = None | Some(value: T) {
    function GetOr(default: T): T {
      match this
      case Some(v) => v
      case None => default
    }
  }

  /** A request-body field as a handler sees it: absent (`undefined`),
      present but falsy and not of the declared type (`null`, `NaN`, `false`),
      or a value of the declared type. An empty string or a zero arrives as
      `Given("")` / `Given(0)`; the truthiness helpers below treat them as
      JavaScript does. */
  datatype Input<T> = Undefined | Null | Given(value: T)

  /** What a handler answers: an HTTP status code and the message text. */
  datatype Reply = Reply(code: int, message: string)

  /** `x || 0` for a numeric field. */
  function OrZero(i: Input<int>): (r: int)
    ensures i.Given? ==> r == i.value
    ensures !i.Given? ==> r == 0
  {
    if i.Given? then i.value else 0
  }

  /** JavaScript truthiness of a string field. */
  predicate StrTruthy(i: Input<string>) {
    i.Given? && i.value != ""
  }

  /** JavaScript truthiness of a numeric field. */
  predicate NumTruthy(i: Input<int>) {
    i.Given? && i.value != 0
  }

  predicate IsHexDigit(c: char) {
    ('0' <= c <= '9') || ('a' <= c <= 'f') || ('A' <= c <= 'F')
  }

  /** `ObjectId.isValid` on a string: 24 hexadecimal digits, or any 12
      characters (read as the 12 raw bytes of an id). */
  predicate IsObjectIdText(s: string) {
    |s| == 12 || (|s| == 24 && forall i :: 0 <= i < |s| ==> IsHexDigit(s[i]))
  }

  /** `Math.max(0, x)`. */
  function Max0(x: int): (r: int)
    ensures r >= 0 && r >= x
    ensures r == x || r == 0
  {
    if x < 0 then 0 else x
  }

  // ---------------------------------------------------------------------
  // findIndex by key

  /** `Array.prototype.findIndex(e => key(e) === k)`, with `None` for -1. */
  function IndexOf<T, K(==)>(s: seq<T>, key: T -> K, k: K): (r: Option<nat>)
    ensures r.Some? ==> r.value < |s| && key(s[r.value]) == k
    ensures r.Some? ==> forall i :: 0 <= i < r.value ==> key(s[i]) != k
    ensures r.None? <==> forall i :: 0 <= i < |s| ==> key(s[i]) != k
  {
    if |s| == 0 then None
    else if key(s[0]) == k then Some(0)
    else match IndexOf(s[1..], key, k)
      case None => None
      case Some(j) => Some(j + 1)
  }

  // ---------------------------------------------------------------------
  // filter by key

  /** `Array.prototype.filter(e => key(e) !== k)`. */
  function RemoveWhere<T, K(==)>(s: seq<T>, key: T -> K, k: K): (r: seq<T>)
    ensures |r| <= |s|
    ensures |r| == |s| <==> forall i :: 0 <= i < |s| ==> key(s[i]) != k
  {
    if |s| == 0 then []
    else if key(s[0]) == k then RemoveWhere(s[1..], key, k)
    else [s[0]] + RemoveWhere(s[1..], key, k)
  }

  /** The filter keeps exactly the elements whose key differs. */
  lemma {:induction false} RemoveWhereMembers<T, K>(s: seq<T>, key: T -> K, k: K)
    ensures forall x :: x in RemoveWhere(s, key, k) <==> x in s && key(x) != k
  {
    if |s| > 0 {
      RemoveWhereMembers(s[1..], key, k);
      assert s == [s[0]] + s[1..];
      forall x ensures x in s <==> x == s[0] || x in s[1..] {
      }
    }
  }

  /** Filtering keeps the survivors in their original relative order: it
      distributes over concatenation, so every part of the input keeps its
      place in the output. */
  lemma {:induction false} RemoveWhereKeepsOrder<T, K>(s: seq<T>, t: seq<T>, key: T -> K, k: K)
    ensures RemoveWhere(s + t, key, k) == RemoveWhere(s, key, k) + RemoveWhere(t, key, k)
  {
    if |s| == 0 {
      assert s + t == t;
    } else {
      assert (s + t)[0] == s[0];
      assert (s + t)[1..] == s[1..] + t;
      RemoveWhereKeepsOrder(s[1..], t, key, k);
    }
  }

  /** When no element carries the key, filtering changes nothing. */
  lemma {:induction false} RemoveWhereAbsent<T, K>(s: seq<T>, key: T -> K, k: K)
    requires forall i :: 0 <= i < |s| ==> key(s[i]) != k
    ensures RemoveWhere(s, key, k) == s
  {
    if |s| > 0 {
      RemoveWhereAbsent(s[1..], key, k);
      assert [s[0]] + s[1..] == s;
    }
  }

  // ---------------------------------------------------------------------
  // stable sort by an integer key (Array.prototype.sort with `a.k - b.k`)

  ghost predicate SortedBy<T>(s: seq<T>, key: T -> int) {
    forall i, j :: 0 <= i < j < |s| ==> key(s[i]) <= key(s[j])
  }

  ghost predicate DistinctBy<T>(s: seq<T>, key: T -> int) {
    forall i, j :: 0 <= i < j < |s| ==> key(s[i]) != key(s[j])
  }

  /** Inserts `x` before the first element whose key is not smaller, so an
      element inserted earlier in the input stays ahead of later equal keys. */
  function InsertBy<T>(x: T, s: seq<T>, key: T -> int): (r: seq<T>)
    ensures multiset(r) == multiset(s) + multiset{x}
    ensures |r| == |s| + 1
  {
    if |s| == 0 || key(x) <= key(s[0]) then [x] + s
    else
      assert s == [s[0]] + s[1..];
      [s[0]] + InsertBy(x, s[1..], key)
  }

  lemma {:induction false} InsertKeepsSorted<T>(x: T, s: seq<T>, key: T -> int)
    requires SortedBy(s, key)
    ensures SortedBy(InsertBy(x, s, key), key)
  {
    if |s| == 0 || key(x) <= key(s[0]) {
    } else {
      var tail := s[1..];
      var rest := InsertBy(x, tail, key);
      InsertKeepsSorted(x, tail, key);
      forall y | y in rest ensures key(s[0]) <= key(y) {
        assert y in multiset(rest);
        if y != x {
          assert y in multiset(tail);
          var k :| 0 <= k < |tail| && tail[k] == y;
          assert s[k + 1] == y;
        }
      }
      var r := [s[0]] + rest;
      forall i, j | 0 <= i < j < |r| ensures key(r[i]) <= key(r[j]) {
        if i == 0 {
          assert r[j] == rest[j - 1] && rest[j - 1] in rest;
        } else {
          assert r[i] == rest[i - 1] && r[j] == rest[j - 1];
        }
      }
    }
  }

  /** Stable insertion sort, ascending by `key` (see `SortIsStable`). */
  function SortBy<T>(s: seq<T>, key: T -> int): (r: seq<T>)
    ensures multiset(r) == multiset(s)
    ensures |r| == |s|
    ensures SortedBy(r, key)
  {
    if |s| == 0 then []
    else
      assert s == [s[0]] + s[1..];
      var rest := SortBy(s[1..], key);
      InsertKeepsSorted(s[0], rest, key);
      InsertBy(s[0], rest, key)
  }

  /** The elements of `s` whose key is `k`, in their order in `s`. */
  function WithKey<T>(s: seq<T>, key: T -> int, k: int): (r: seq<T>)
    ensures forall x :: x in r ==> x in s && key(x) == k
  {
    if |s| == 0 then []
    else (if key(s[0]) == k then [s[0]] else []) + WithKey(s[1..], key, k)
  }

  lemma WithKeyCons<T>(y: T, t: seq<T>, key: T -> int, k: int)
    ensures WithKey([y] + t, key, k) == (if key(y) == k then [y] else []) + WithKey(t, key, k)
  {
    assert ([y] + t)[1..] == t;
  }

  lemma InsertByStep<T>(x: T, s: seq<T>, key: T -> int)
    ensures |s| == 0 || key(x) <= key(s[0]) ==> InsertBy(x, s, key) == [x] + s
    ensures |s| > 0 && key(s[0]) < key(x) ==> InsertBy(x, s, key) == [s[0]] + InsertBy(x, s[1..], key)
  {
  }

  /** Inserting `x` puts it ahead of every element of its own key. */
  lemma {:induction false} InsertWithKey<T>(x: T, s: seq<T>, key: T -> int, k: int)
    ensures WithKey(InsertBy(x, s, key), key, k) == (if key(x) == k then [x] else []) + WithKey(s, key, k)
  {
    InsertByStep(x, s, key);
    if |s| == 0 || key(x) <= key(s[0]) {
      WithKeyCons(x, s, key, k);
    } else {
      var rest := InsertBy(x, s[1..], key);
      WithKeyCons(s[0], rest, key, k);
      InsertWithKey(x, s[1..], key, k);
      var w := WithKey(s[1..], key, k);
      assert WithKey(s, key, k) == (if key(s[0]) == k then [s[0]] else []) + w;
      if key(s[0]) == k {
        assert key(x) != k;
        assert WithKey(rest, key, k) == w;
      } else {
        assert WithKey(InsertBy(x, s, key), key, k) == WithKey(rest, key, k);
      }
    }
  }

  /** The sort is stable: elements with equal keys keep their input order,
      as `Array.prototype.sort` guarantees. */
  lemma {:induction false} SortIsStable<T>(s: seq<T>, key: T -> int, k: int)
    ensures WithKey(SortBy(s, key), key, k) == WithKey(s, key, k)
  {
    if |s| > 0 {
      SortIsStable(s[1..], key, k);
      InsertWithKey(s[0], SortBy(s[1..], key), key, k);
    }
  }

  lemma MemberOfSorted<T>(s: seq<T>, key: T -> int, x: T)
    ensures x in SortBy(s, key) <==> x in s
  {
    var r := SortBy(s, key);
    assert x in r <==> x in multiset(r);
    assert x in s <==> x in multiset(s);
  }

  lemma {:induction false} InsertKeepsDistinct<T>(x: T, s: seq<T>, key: T -> int)
    requires DistinctBy(s, key)
    requires forall y :: y in s ==> key(y) != key(x)
    ensures DistinctBy(InsertBy(x, s, key), key)
  {
    if |s| == 0 || key(x) <= key(s[0]) {
    } else {
      var rest := InsertBy(x, s[1..], key);
      InsertKeepsDistinct(x, s[1..], key);
      forall y | y in rest ensures key(y) != key(s[0]) {
        assert y in multiset(rest);
        if y != x {
          assert y in multiset(s[1..]);
          var k :| 0 <= k < |s[1..]| && s[1..][k] == y;
          assert s[k + 1] == y;
        }
      }
      var r := [s[0]] + rest;
      forall i, j | 0 <= i < j < |r| ensures key(r[i]) != key(r[j]) {
        if i == 0 {
          assert r[j] == rest[j - 1] && rest[j - 1] in rest;
        } else {
          assert r[i] == rest[i - 1] && r[j] == rest[j - 1];
        }
      }
    }
  }

  /** Sorting never merges or splits keys: distinct keys stay distinct. */
  lemma {:induction false} SortKeepsDistinct<T>(s: seq<T>, key: T -> int)
    requires DistinctBy(s, key)
    ensures DistinctBy(SortBy(s, key), key)
  {
    if |s| > 0 {
      var tail := s[1..];
      assert DistinctBy(tail, key) by {
        forall i, j | 0 <= i < j < |tail| ensures key(tail[i]) != key(tail[j]) {
          assert tail[i] == s[i + 1] && tail[j] == s[j + 1];
        }
      }
      SortKeepsDistinct(tail, key);
      forall y | y in SortBy(tail, key) ensures key(y) != key(s[0]) {
        MemberOfSorted(tail, key, y);
        var k :| 0 <= k < |tail| && tail[k] == y;
        assert s[k + 1] == y;
      }
      InsertKeepsDistinct(s[0], SortBy(tail, key), key);
    }
  }
}
