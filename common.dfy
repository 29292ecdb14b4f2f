/** Vocabulary shared by every handler: document ids, optional values, the
    replies a handler sends, and the sequence operations the handlers are
    written with (JavaScript's `filter`, `includes`, `startsWith`, and
    MongoDB's "first document in natural order that matches"). */
module Common {

  /** A document id: a MongoDB ObjectId, always compared by its string form. */
  type Id = string

  datatype Option<+T> = None | Some(value: T)

  /** What a handler answers: a success status with a body, or an error
      status with the message of the `{ success: false, message }` envelope. */
  datatype Reply<+T> = Ok(status: nat, body: T) | Fail(status: nat, message: string)

  /** JavaScript truthiness of a string value: only the empty string is falsy.
      A missing request field and an empty one are both written "". */
  predicate Truthy(s: string) {
    s != ""
  }

  /** Truthiness of a value that may be absent (`undefined` or `null`). */
  predicate OptTruthy(o: Option<string>) {
    o.Some? && o.value != ""
  }

  /** `s.startsWith(prefix)`, comparing code units exactly (case-sensitive). */
  predicate StartsWith(s: string, prefix: string) {
    |prefix| <= |s| && s[..|prefix|] == prefix
  }

  /** Number of occurrences of `x` in `s`. */
  function Count<T(==)>(s: seq<T>, x: T): (n: nat)
    ensures n <= |s|
    ensures n == 0 <==> x !in s
  {
    if s == [] then 0 else (if s[0] == x then 1 else 0) + Count(s[1..], x)
  }

  lemma {:induction false} CountConcat<T>(a: seq<T>, b: seq<T>, x: T)
    ensures Count(a + b, x) == Count(a, x) + Count(b, x)
  {
    if a == [] {
      assert a + b == b;
    } else {
      assert (a + b)[1..] == a[1..] + b;
      CountConcat(a[1..], b, x);
    }
  }

  /** `s.filter(e => e !== x)`: every occurrence of `x` is dropped, every
      other element is kept, as often as it occurred. */
  function RemoveAll<T(==,!new)>(s: seq<T>, x: T): (r: seq<T>)
    ensures x !in r
    ensures forall y :: y in r <==> y in s && y != x
    ensures forall y :: y != x ==> Count(r, y) == Count(s, y)
    ensures |r| == |s| - Count(s, x)
  {
    if s == [] then []
    else if s[0] == x then RemoveAll(s[1..], x)
    else
      var r := [s[0]] + RemoveAll(s[1..], x);
      assert r[1..] == RemoveAll(s[1..], x);
      r
  }

  /** `filter` works element by element, so it keeps the relative order:
      filtering a concatenation is the concatenation of the filtered parts. */
  lemma {:induction false} RemoveAllConcat<T(!new)>(a: seq<T>, b: seq<T>, x: T)
    ensures RemoveAll(a + b, x) == RemoveAll(a, x) + RemoveAll(b, x)
  {
    if a == [] {
      assert a + b == b;
    } else {
      assert (a + b)[0] == a[0];
      assert (a + b)[1..] == a[1..] + b;
      RemoveAllConcat(a[1..], b, x);
    }
  }

  /** Filtering a sequence grown by one element: the filtered prefix, then
      the new element unless it is the one filtered out. */
  lemma RemoveAllSnoc<T(!new)>(s: seq<T>, y: T, x: T)
    ensures RemoveAll(s + [y], x) == RemoveAll(s, x) + (if y == x then [] else [y])
  {
    RemoveAllConcat(s, [y], x);
    assert [y][1..] == [];
  }

  /** Filtering out a value that does not occur changes nothing. */
  lemma {:induction false} RemoveAllAbsent<T(!new)>(s: seq<T>, x: T)
    requires x !in s
    ensures RemoveAll(s, x) == s
  {
    if s != [] {
      RemoveAllAbsent(s[1..], x);
      assert s == [s[0]] + s[1..];
    }
  }

  /** Pushing `x` and then filtering it out gives back a sequence that did not
      hold `x`: the push/filter pair of a toggle is a round trip. */
  lemma RemoveAllAfterPush<T(!new)>(s: seq<T>, x: T)
    requires x !in s
    ensures RemoveAll(s + [x], x) == s
  {
    RemoveAllConcat(s, [x], x);
    RemoveAllAbsent(s, x);
    assert RemoveAll([x], x) == [];
  }

  /** Filtering twice by the same value is filtering once. */
  lemma RemoveAllIdempotent<T(!new)>(s: seq<T>, x: T)
    ensures RemoveAll(RemoveAll(s, x), x) == RemoveAll(s, x)
  {
    RemoveAllAbsent(RemoveAll(s, x), x);
  }

  /** Filtering by `x` does not change whether `y`, a different value, occurs. */
  lemma RemoveAllKeepsOthers<T(!new)>(s: seq<T>, x: T, y: T)
    requires y != x
    ensures (y in RemoveAll(s, x)) == (y in s)
    ensures (y in s + [x]) == (y in s)
  {
  }

  /** Index of the first element of `s` that satisfies `p`: MongoDB's
      `findOne`/`findById` over a collection in natural order. */
  function FindFirst<T>(s: seq<T>, p: T -> bool): (r: Option<nat>)
    ensures r.Some? ==> r.value < |s| && p(s[r.value])
    ensures r.Some? ==> forall j :: 0 <= j < r.value ==> !p(s[j])
    ensures r.None? <==> forall j :: 0 <= j < |s| ==> !p(s[j])
  {
    if s == [] then None
    else if p(s[0]) then Some(0)
    else
      match FindFirst(s[1..], p)
      case None => None
      case Some(k) => Some(k + 1)
  }

  /** `s.filter(p)`. */
  function Filter<T(!new)>(s: seq<T>, p: T -> bool): (r: seq<T>)
    ensures |r| <= |s|
    ensures forall k :: 0 <= k < |r| ==> p(r[k])
    ensures multiset(r) <= multiset(s)
    ensures forall x :: multiset(r)[x] == if p(x) then multiset(s)[x] else 0
    ensures forall x :: x in r <==> x in s && p(x)
  {
    if s == [] then []
    else
      assert s == [s[0]] + s[1..];
      assert multiset(s) == multiset{s[0]} + multiset(s[1..]);
      if p(s[0]) then
        var r := [s[0]] + Filter(s[1..], p);
        assert multiset(r) == multiset{s[0]} + multiset(Filter(s[1..], p));
        r
      else
        Filter(s[1..], p)
  }

  /** The sequence without its element at `i` (MongoDB's `deleteOne` of a
      document found at that position). */
  function RemoveAt<T>(s: seq<T>, i: nat): (r: seq<T>)
    requires i < |s|
    ensures |r| == |s| - 1
    ensures forall k :: 0 <= k < i ==> r[k] == s[k]
    ensures forall k :: i <= k < |r| ==> r[k] == s[k + 1]
  {
    s[..i] + s[i + 1..]
  }
}
