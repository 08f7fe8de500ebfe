/**
 * The order on error records used to line up summary, error and display
 * lists: records are compared by priority, then by their key text. A
 * missing record (an exhausted list) sorts after every present one.
 */
module Ordering {
  import opened Text
  import opened Outcomes

  /** The comparison key of a record: its priority and its key text. */
  datatype Key = Key(priority: int, text: string)

  /** The four answers of CompareErrors: "<", "=", ">" and "?". */
  datatype Order = Before | Same | After | Undefined

  /** Python's tuple order on (priority, text). */
  predicate KeyLess(a: Key, b: Key) {
    a.priority < b.priority || (a.priority == b.priority && Less(a.text, b.text))
  }

  predicate KeyLessEq(a: Key, b: Key) {
    KeyLess(a, b) || a == b
  }

  /** CompareErrors: compare two possibly missing records. */
  function CompareErrors(first: Option<Key>, second: Option<Key>): (r: Order)
    ensures r == Undefined <==> first.None? && second.None?
    ensures first.Some? && second.None? ==> r == Before
    ensures first.None? && second.Some? ==> r == After
    ensures first.Some? && second.Some? ==>
              (r == Before <==> KeyLess(first.value, second.value))
              && (r == After <==> KeyLess(second.value, first.value))
              && (r == Same <==> first.value == second.value)
  {
    if first.Some? && second.None? then Before
    else if first.None? && second.Some? then After
    else if first.None? && second.None? then Undefined
    else
      var a := first.value;
      var b := second.value;
      KeyLessFacts(a, b);
      if a.priority < b.priority then Before
      else if a.priority > b.priority then After
      else if Less(a.text, b.text) then Before
      else if Less(b.text, a.text) then After
      else Same
  }

  /**
   * A record as the dictionary CompareErrors reads it: its 'priority' and,
   * when the record has one, its 'keyData' entry.
   */
  datatype Entries = Entries(priority: int, keyData: Option<string>)

  /** The key of a record's entries; a record without 'keyData' gets an empty key text. */
  function EntriesKey(e: Entries): Key {
    Key(e.priority, if e.keyData.Some? then e.keyData.value else "")
  }

  function EntriesKeyOf(e: Option<Entries>): Option<Key> {
    if e.Some? then Some(EntriesKey(e.value)) else None
  }

  /**
   * CompareErrors as written: at equal priorities it reads 'keyData' from
   * the first record, then from the second, and a record without that entry
   * raises KeyError. Whenever it does not raise, its answer is the keyed
   * comparison's.
   */
  function CompareAsWritten(first: Option<Entries>, second: Option<Entries>): (r: Result<Order>)
    ensures r.Fail? <==> && first.Some? && second.Some?
                         && first.value.priority == second.value.priority
                         && (first.value.keyData.None? || second.value.keyData.None?)
    ensures r.Fail? ==> r.failure == KeyError
    ensures r.Ok? ==> r.value == CompareErrors(EntriesKeyOf(first), EntriesKeyOf(second))
  {
    if first.Some? && second.None? then Ok(Before)
    else if first.None? && second.Some? then Ok(After)
    else if first.None? && second.None? then Ok(Undefined)
    else if first.value.priority < second.value.priority then Ok(Before)
    else if first.value.priority > second.value.priority then Ok(After)
    else if first.value.keyData.None? || second.value.keyData.None? then Fail(KeyError)
    else Ok(CompareErrors(EntriesKeyOf(first), EntriesKeyOf(second)))
  }

  /** Keys of different priorities are ordered by priority alone, whatever their key texts. */
  lemma PriorityDecides(a: Key, b: Key, a': Key, b': Key)
    requires a.priority == a'.priority && b.priority == b'.priority && a.priority != b.priority
    ensures CompareErrors(Some(a), Some(b)) == CompareErrors(Some(a'), Some(b'))
  {
    KeyLessFacts(a, b);
    KeyLessFacts(a', b');
  }

  /** The key order is a strict total order. */
  lemma KeyLessFacts(a: Key, b: Key)
    ensures !(KeyLess(a, b) && KeyLess(b, a))
    ensures KeyLess(a, b) || a == b || KeyLess(b, a)
    ensures !KeyLess(a, a)
  {
    LessIrreflexive(a.text);
    LessTrichotomy(a.text, b.text);
    if Less(a.text, b.text) {
      LessAsymmetric(a.text, b.text);
    }
  }

  lemma KeyLessTransitive(a: Key, b: Key, c: Key)
    requires KeyLess(a, b) && KeyLess(b, c)
    ensures KeyLess(a, c)
  {
    if a.priority == b.priority && b.priority == c.priority {
      LessTransitive(a.text, b.text, c.text);
    }
  }

  /** Swapping the arguments swaps "<" and ">". */
  lemma CompareAntisymmetric(a: Option<Key>, b: Option<Key>)
    ensures CompareErrors(a, b) == Before <==> CompareErrors(b, a) == After
    ensures CompareErrors(a, b) == Same <==> CompareErrors(b, a) == Same
  {
    if a.Some? && b.Some? {
      KeyLessFacts(a.value, b.value);
    }
  }

  /** "<" is transitive over present records. */
  lemma CompareTransitive(a: Key, b: Key, c: Key)
    requires CompareErrors(Some(a), Some(b)) == Before
    requires CompareErrors(Some(b), Some(c)) == Before
    ensures CompareErrors(Some(a), Some(c)) == Before
  {
    KeyLessTransitive(a, b, c);
  }

  // ---- sorting by key, as Python's stable `sorted(..., key=itemgetter(...))` ----

  predicate SortedBy<T>(xs: seq<T>, key: T -> Key) {
    forall i, j :: 0 <= i < j < |xs| ==> KeyLessEq(key(xs[i]), key(xs[j]))
  }

  /** Insert x before the first element whose key is not below x's key. */
  function Insert<T>(x: T, xs: seq<T>, key: T -> Key): seq<T> {
    if xs == [] then [x]
    else if KeyLessEq(key(x), key(xs[0])) then [x] + xs
    else [xs[0]] + Insert(x, xs[1..], key)
  }

  /** A stable sort by key. */
  function SortBy<T>(xs: seq<T>, key: T -> Key): seq<T> {
    if xs == [] then [] else Insert(xs[0], SortBy(xs[1..], key), key)
  }

  /** The elements of xs whose key is k, in their order in xs. */
  function WithKey<T>(xs: seq<T>, key: T -> Key, k: Key): seq<T> {
    if xs == [] then []
    else if key(xs[0]) == k then [xs[0]] + WithKey(xs[1..], key, k)
    else WithKey(xs[1..], key, k)
  }

  lemma {:induction false} InsertMultiset<T>(x: T, xs: seq<T>, key: T -> Key)
    ensures multiset(Insert(x, xs, key)) == multiset(xs) + multiset{x}
  {
    if xs != [] && !KeyLessEq(key(x), key(xs[0])) {
      InsertMultiset(x, xs[1..], key);
      assert xs == [xs[0]] + xs[1..];
    }
  }

  lemma {:induction false} InsertWithKey<T>(x: T, xs: seq<T>, key: T -> Key, k: Key)
    ensures WithKey(Insert(x, xs, key), key, k)
            == (if key(x) == k then [x] else []) + WithKey(xs, key, k)
  {
    if xs == [] {
    } else if KeyLessEq(key(x), key(xs[0])) {
      assert ([x] + xs)[1..] == xs;
    } else {
      InsertWithKey(x, xs[1..], key, k);
      var rest := Insert(x, xs[1..], key);
      assert ([xs[0]] + rest)[1..] == rest;
      if key(xs[0]) == k {
        KeyLessFacts(key(x), key(xs[0]));
      }
    }
  }

  lemma SortedTail<T>(xs: seq<T>, key: T -> Key)
    requires xs != [] && SortedBy(xs, key)
    ensures SortedBy(xs[1..], key)
  {
    forall i, j | 0 <= i < j < |xs[1..]| ensures KeyLessEq(key(xs[1..][i]), key(xs[1..][j])) {
      assert xs[1..][i] == xs[i + 1] && xs[1..][j] == xs[j + 1];
    }
  }

  lemma {:induction false} InsertSorted<T>(x: T, xs: seq<T>, key: T -> Key)
    requires SortedBy(xs, key)
    ensures SortedBy(Insert(x, xs, key), key)
  {
    var r := Insert(x, xs, key);
    if xs == [] {
    } else if KeyLessEq(key(x), key(xs[0])) {
      forall i, j | 0 <= i < j < |r| ensures KeyLessEq(key(r[i]), key(r[j])) {
        if i == 0 {
          KeyLessEqTransitive(key(x), key(xs[0]), key(xs[j - 1]));
        }
      }
    } else {
      var rest := Insert(x, xs[1..], key);
      SortedTail(xs, key);
      InsertSorted(x, xs[1..], key);
      InsertMultiset(x, xs[1..], key);
      KeyLessFacts(key(x), key(xs[0]));
      assert r == [xs[0]] + rest;
      forall j | 0 < j < |r| ensures KeyLessEq(key(r[0]), key(r[j])) {
        var y := r[j];
        assert y == rest[j - 1];
        assert y in multiset(rest);
        if y != x {
          assert y in multiset(xs[1..]);
          var m :| 0 <= m < |xs[1..]| && xs[1..][m] == y;
          assert xs[m + 1] == y;
        }
      }
    }
  }

  lemma KeyLessEqTransitive(a: Key, b: Key, c: Key)
    requires KeyLessEq(a, b) && KeyLessEq(b, c)
    ensures KeyLessEq(a, c)
  {
    if KeyLess(a, b) && KeyLess(b, c) {
      KeyLessTransitive(a, b, c);
    }
  }

  /**
   * SortBy orders by key, is a permutation of its input, and is stable:
   * the elements sharing any one key keep their input order.
   */
  lemma {:induction false} SortByFacts<T>(xs: seq<T>, key: T -> Key, k: Key)
    ensures SortedBy(SortBy(xs, key), key)
    ensures multiset(SortBy(xs, key)) == multiset(xs)
    ensures WithKey(SortBy(xs, key), key, k) == WithKey(xs, key, k)
  {
    if xs != [] {
      SortByFacts(xs[1..], key, k);
      InsertSorted(xs[0], SortBy(xs[1..], key), key);
      InsertMultiset(xs[0], SortBy(xs[1..], key), key);
      InsertWithKey(xs[0], SortBy(xs[1..], key), key, k);
      assert xs == [xs[0]] + xs[1..];
    }
  }
}
