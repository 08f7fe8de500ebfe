/**
 * The propagation event queue. Every queued device is a node of an
 * intrusive singly linked list threaded through one shared array
 * `queueArray`: `queueArray[d]` is the device after `d` in its list,
 * `d` itself when `d` is the last one, and UNKNOWN_DEVICE when `d` is in
 * no list. A list header holds its first and last device and its size.
 * The queue keeps two ordered maps from event key to list header (the
 * main and the delay queue) and serves the least key first.
 */
module EventQueues {
  import opened Outcomes
  import opened CvcTypes
  import opened Text
  import VirtualNets

  /** A CEventList header: `first` and `last` are UNKNOWN_DEVICE when the list is empty. */
  datatype EventList = EventList(first: nat, last: nat, size: nat)

  const EMPTY_LIST: EventList := EventList(UNKNOWN_DEVICE, UNKNOWN_DEVICE, 0)

  /** Where AddEvent puts a device (queuePosition_t, -3 .. 2). */
  datatype QueuePosition = QueueHiz | SkipQueue | MosDiode | MainBack | DelayFront | DelayBack

  /** A list inside the queue: which of the two maps, and its key there. */
  datatype Slot = Slot(delayed: bool, key: int)

  /**
   * `list` is threaded through `a` and holds the devices `xs`, in order:
   * each device links to the next, the last links to itself, no device
   * repeats, and the header names the two ends and the length.
   */
  ghost predicate Threaded(a: seq<nat>, list: EventList, xs: seq<nat>) {
    && list.size == |xs|
    && (xs == [] ==> list.first == UNKNOWN_DEVICE && list.last == UNKNOWN_DEVICE)
    && (forall i :: 0 <= i < |xs| ==> xs[i] < |a|)
    && (xs != [] ==> list.first == xs[0] && list.last == xs[|xs| - 1] && a[list.last] == list.last)
    && (forall i :: 0 <= i < |xs| - 1 ==> a[xs[i]] == xs[i + 1])
    && (forall i, j :: 0 <= i < j < |xs| ==> xs[i] != xs[j])
  }

  /** `CEventList::empty`. */
  predicate Empty(list: EventList) {
    list.first == UNKNOWN_DEVICE
  }

  lemma EmptyIffNoDevices(a: seq<nat>, list: EventList, xs: seq<nat>)
    requires |a| <= UNKNOWN_DEVICE && Threaded(a, list, xs)
    ensures Empty(list) <==> xs == []
  {
  }

  /**
   * An array whose slots are all free threads only empty lists: after
   * ResetQueue a header that still names devices no longer describes a list.
   */
  lemma ClearedHoldsNoList(a: seq<nat>, list: EventList, xs: seq<nat>)
    requires |a| <= UNKNOWN_DEVICE && forall d :: 0 <= d < |a| ==> a[d] == UNKNOWN_DEVICE
    ensures Threaded(a, list, xs) <==> xs == [] && list == EMPTY_LIST
  {
  }

  /** A listed device's slot is never UNKNOWN_DEVICE, so a free slot means an unlisted device. */
  lemma ListedSlotTaken(a: seq<nat>, list: EventList, xs: seq<nat>, i: nat)
    requires |a| <= UNKNOWN_DEVICE && Threaded(a, list, xs) && i < |xs|
    ensures a[xs[i]] != UNKNOWN_DEVICE
  {
    if i < |xs| - 1 {
      assert a[xs[i]] == xs[i + 1] < |a|;
    }
  }

  /** A list stays threaded when no slot of its own devices changes. */
  lemma ThreadedFrame(a: seq<nat>, b: seq<nat>, list: EventList, xs: seq<nat>)
    requires Threaded(a, list, xs) && |a| == |b|
    requires forall i :: 0 <= i < |xs| ==> b[xs[i]] == a[xs[i]]
    ensures Threaded(b, list, xs)
  {
    if xs != [] {
      assert b[xs[|xs| - 1]] == a[xs[|xs| - 1]];
    }
  }

  /**
   * `CEventList::push_back`: throws EQueueError when `d` already holds a
   * slot; otherwise `d` becomes the new last device.
   */
  method PushBack(a: array<nat>, list: EventList, ghost xs: seq<nat>, d: nat) returns (r: EventList, failure: Option<Failure>)
    requires a.Length <= UNKNOWN_DEVICE && d < a.Length && Threaded(a[..], list, xs)
    modifies a
    ensures old(a[d]) != UNKNOWN_DEVICE ==> failure == Some(QueueError) && r == list && a[..] == old(a[..])
    ensures old(a[d]) == UNKNOWN_DEVICE ==> failure == None && Threaded(a[..], r, xs + [d])
    ensures old(a[d]) == UNKNOWN_DEVICE ==>
              a[..] == if xs == [] then old(a[..])[d := d] else old(a[..])[list.last := d][d := d]
  {
    if a[d] != UNKNOWN_DEVICE {
      return list, Some(QueueError);
    }
    forall i | 0 <= i < |xs| ensures xs[i] != d {
      ListedSlotTaken(a[..], list, xs, i);
    }
    a[d] := d;
    if list.first == UNKNOWN_DEVICE {
      r := EventList(d, d, list.size + 1);
    } else {
      a[list.last] := d;
      r := EventList(list.first, d, list.size + 1);
    }
    failure := None;
    ghost var ys := xs + [d];
    assert forall i :: 0 <= i < |xs| ==> ys[i] == xs[i];
  }

  /**
   * `CEventList::push_front`: throws EQueueError when `d` already holds a
   * slot; otherwise `d` becomes the new first device.
   */
  method PushFront(a: array<nat>, list: EventList, ghost xs: seq<nat>, d: nat) returns (r: EventList, failure: Option<Failure>)
    requires a.Length <= UNKNOWN_DEVICE && d < a.Length && Threaded(a[..], list, xs)
    modifies a
    ensures old(a[d]) != UNKNOWN_DEVICE ==> failure == Some(QueueError) && r == list && a[..] == old(a[..])
    ensures old(a[d]) == UNKNOWN_DEVICE ==> failure == None && Threaded(a[..], r, [d] + xs)
    ensures old(a[d]) == UNKNOWN_DEVICE ==>
              a[..] == old(a[..])[d := if xs == [] then d else list.first]
  {
    if a[d] != UNKNOWN_DEVICE {
      return list, Some(QueueError);
    }
    forall i | 0 <= i < |xs| ensures xs[i] != d {
      ListedSlotTaken(a[..], list, xs, i);
    }
    if list.first == UNKNOWN_DEVICE {
      a[d] := d;
      r := EventList(d, d, list.size + 1);
    } else {
      a[d] := list.first;
      r := EventList(d, list.last, list.size + 1);
    }
    failure := None;
    ghost var ys := [d] + xs;
    assert forall i :: 0 <= i < |xs| ==> ys[i + 1] == xs[i];
  }

  /**
   * `CEventList::pop_front`: throws EQueueError on an empty list;
   * otherwise returns the first device, frees its slot and shortens the
   * list by one.
   */
  method PopFront(a: array<nat>, list: EventList, ghost xs: seq<nat>) returns (r: EventList, d: nat, failure: Option<Failure>)
    requires a.Length <= UNKNOWN_DEVICE && Threaded(a[..], list, xs)
    modifies a
    ensures xs == [] ==> failure == Some(QueueError) && r == list && a[..] == old(a[..])
    ensures xs != [] ==> failure == None && d == xs[0] && Threaded(a[..], r, xs[1..])
    ensures xs != [] ==> a[..] == old(a[..])[d := UNKNOWN_DEVICE]
  {
    if list.first == UNKNOWN_DEVICE {
      return list, 0, Some(QueueError);
    }
    d := list.first;
    if |xs| > 1 {
      assert a[xs[0]] == xs[1] != xs[0];
    }
    if list.first == a[list.first] {
      r := EventList(UNKNOWN_DEVICE, UNKNOWN_DEVICE, list.size - 1);
    } else {
      r := EventList(a[list.first], list.last, list.size - 1);
    }
    a[d] := UNKNOWN_DEVICE;
    failure := None;
    ThreadedFrame(old(a[..]), a[..], r, xs[1..]);
  }

  /** The devices of the list at `key`; a missing key reads as an empty list, as `operator[]` creates one. */
  function Devices(items: map<int, seq<nat>>, key: int): seq<nat> {
    if key in items then items[key] else []
  }

  function Header(lists: map<int, EventList>, key: int): EventList {
    if key in lists then lists[key] else EMPTY_LIST
  }

  /** Every list of one map is threaded through `a` with the devices `items` records for it. */
  ghost predicate SubQueueValid(a: seq<nat>, lists: map<int, EventList>, items: map<int, seq<nat>>) {
    && lists.Keys == items.Keys
    && forall key :: key in lists ==> Threaded(a, lists[key], items[key])
  }

  /** Every device listed in `items` is recorded by `owner` as belonging to its list. */
  ghost predicate Owned(owner: map<nat, Slot>, items: map<int, seq<nat>>, delayed: bool) {
    forall key, i :: key in items && 0 <= i < |items[key]| ==>
      items[key][i] in owner && owner[items[key][i]] == Slot(delayed, key)
  }

  /** A device in none of the lists of `items`. */
  ghost predicate Unlisted(items: map<int, seq<nat>>, d: nat) {
    forall key, i :: key in items && 0 <= i < |items[key]| ==> items[key][i] != d
  }

  lemma SubQueueFrame(a: seq<nat>, b: seq<nat>, lists: map<int, EventList>, items: map<int, seq<nat>>, changed: set<nat>)
    requires SubQueueValid(a, lists, items) && |a| == |b|
    requires forall x :: 0 <= x < |a| && x !in changed ==> b[x] == a[x]
    requires forall x :: x in changed ==> Unlisted(items, x)
    ensures SubQueueValid(b, lists, items)
  {
    forall key | key in lists ensures Threaded(b, lists[key], items[key]) {
      var xs := items[key];
      forall i | 0 <= i < |xs| ensures b[xs[i]] == a[xs[i]] {
        assert xs[i] < |a|;
        assert !Unlisted(items, xs[i]) by {
          assert key in items && items[key][i] == xs[i];
        }
      }
      ThreadedFrame(a, b, lists[key], xs);
    }
  }

  /** A free slot belongs to no device of a valid map. */
  lemma FreeIsUnlisted(a: seq<nat>, lists: map<int, EventList>, items: map<int, seq<nat>>, d: nat)
    requires |a| <= UNKNOWN_DEVICE && SubQueueValid(a, lists, items) && d < |a| && a[d] == UNKNOWN_DEVICE
    ensures Unlisted(items, d)
  {
    forall key, i | key in items && 0 <= i < |items[key]| ensures items[key][i] != d {
      ListedSlotTaken(a, lists[key], items[key], i);
    }
  }

  /**
   * Slots that changed belong to devices that are unlisted or in the list
   * at `key`: every other list of the map stays threaded.
   */
  lemma OthersUnchanged(a: seq<nat>, b: seq<nat>, lists: map<int, EventList>, items: map<int, seq<nat>>,
                        owner: map<nat, Slot>, delayed: bool, key: int, changed: set<nat>)
    requires SubQueueValid(a, lists, items) && Owned(owner, items, delayed) && |a| == |b|
    requires forall x :: 0 <= x < |a| && x !in changed ==> b[x] == a[x]
    requires forall x :: x in changed ==> Unlisted(items, x) || x in Devices(items, key)
    ensures SubQueueValid(b, lists - {key}, items - {key})
  {
    forall x | x in changed ensures Unlisted(items - {key}, x) {
      forall k, i | k in items - {key} && 0 <= i < |items[k]| ensures items[k][i] != x {
        if x in Devices(items, key) {
          var j :| 0 <= j < |items[key]| && items[key][j] == x;
          assert owner[items[key][j]] == Slot(delayed, key);
          assert owner[items[k][i]] == Slot(delayed, k);
        }
      }
    }
    SubQueueFrame(a, b, lists - {key}, items - {key}, changed);
  }

  /** Putting back the list at `key` next to the untouched others. */
  lemma Reinserted(a: seq<nat>, lists: map<int, EventList>, items: map<int, seq<nat>>, key: int, r: EventList, ys: seq<nat>)
    requires SubQueueValid(a, lists - {key}, items - {key}) && Threaded(a, r, ys)
    requires lists.Keys == items.Keys
    ensures SubQueueValid(a, lists[key := r], items[key := ys])
  {
    var lists', items' := lists[key := r], items[key := ys];
    forall k | k in lists' ensures Threaded(a, lists'[k], items'[k]) {
      if k != key {
        assert k in lists - {key};
      }
    }
  }

  /** The owner map records a pushed device for the list it joined. */
  lemma OwnedPush(owner: map<nat, Slot>, items: map<int, seq<nat>>, delayed: bool, key: int, d: nat, ys: seq<nat>)
    requires Owned(owner, items, delayed) && Unlisted(items, d)
    requires forall i :: 0 <= i < |ys| ==> ys[i] == d || ys[i] in Devices(items, key)
    ensures Owned(owner[d := Slot(delayed, key)], items[key := ys], delayed)
  {
    var owner' := owner[d := Slot(delayed, key)];
    var items' := items[key := ys];
    forall k, i | k in items' && 0 <= i < |items'[k]|
      ensures items'[k][i] in owner' && owner'[items'[k][i]] == Slot(delayed, k)
    {
      if k == key && ys[i] != d {
        var j :| 0 <= j < |items[key]| && items[key][j] == ys[i];
        assert owner[items[key][j]] == Slot(delayed, key);
      } else if k != key {
        assert items[k][i] != d;
      }
    }
  }

  /**
   * `mainQueue[key].push_…(d)` or `delayQueue[key].push_…(d)`: the map's
   * `operator[]` first creates an empty list at `key` when there is none,
   * and that list stays even when the push throws.
   */
  method Enqueue(a: array<nat>, lists: map<int, EventList>, ghost items: map<int, seq<nat>>,
                 ghost owner: map<nat, Slot>, ghost delayed: bool, key: int, d: nat, front: bool)
    returns (lists': map<int, EventList>, ghost items': map<int, seq<nat>>, failure: Option<Failure>)
    requires a.Length <= UNKNOWN_DEVICE && d < a.Length
    requires SubQueueValid(a[..], lists, items) && Owned(owner, items, delayed)
    modifies a
    ensures lists'.Keys == lists.Keys + {key}
    ensures SubQueueValid(a[..], lists', items')
    ensures old(a[d]) != UNKNOWN_DEVICE ==>
              failure == Some(QueueError) && a[..] == old(a[..]) && items' == items[key := Devices(items, key)]
    ensures old(a[d]) == UNKNOWN_DEVICE ==> failure == None && Unlisted(items, d)
    ensures old(a[d]) == UNKNOWN_DEVICE ==>
              items' == Added(items, key, d, front)
    ensures old(a[d]) != UNKNOWN_DEVICE ==> Owned(owner, items', delayed)
    ensures old(a[d]) == UNKNOWN_DEVICE ==> Owned(owner[d := Slot(delayed, key)], items', delayed)
    ensures forall x :: 0 <= x < a.Length && a[x] != old(a[x]) ==> x == d || x in Devices(items, key)
  {
    var list := Header(lists, key);
    ghost var xs := Devices(items, key);
    ghost var before := a[..];
    ghost var changed := if xs == [] then {d} else {d, list.last};
    assert xs != [] ==> list.last == xs[|xs| - 1];
    var r;
    if front {
      r, failure := PushFront(a, list, xs, d);
    } else {
      r, failure := PushBack(a, list, xs, d);
    }
    lists' := lists[key := r];
    if failure != None {
      items' := items[key := xs];
      OthersUnchanged(before, a[..], lists, items, owner, delayed, key, {});
      Reinserted(a[..], lists, items, key, r, xs);
      return;
    }
    FreeIsUnlisted(before, lists, items, d);
    ghost var ys := if front then [d] + xs else xs + [d];
    items' := items[key := ys];
    OthersUnchanged(before, a[..], lists, items, owner, delayed, key, changed);
    Reinserted(a[..], lists, items, key, r, ys);
    OwnedPush(owner, items, delayed, key, d, ys);
  }

  /**
   * Takes the first device of the list at `key`, and erases the key once
   * its list is empty.
   */
  method Dequeue(a: array<nat>, lists: map<int, EventList>, ghost items: map<int, seq<nat>>,
                 ghost owner: map<nat, Slot>, ghost delayed: bool, key: int)
    returns (lists': map<int, EventList>, ghost items': map<int, seq<nat>>, d: nat, failure: Option<Failure>)
    requires a.Length <= UNKNOWN_DEVICE && key in lists
    requires SubQueueValid(a[..], lists, items) && Owned(owner, items, delayed)
    modifies a
    ensures SubQueueValid(a[..], lists', items') && Owned(owner, items', delayed)
    ensures items[key] == [] ==> failure == Some(QueueError) && lists' == lists && items' == items && a[..] == old(a[..])
    ensures items[key] != [] ==> failure == None && d == items[key][0] && a[..] == old(a[..])[d := UNKNOWN_DEVICE]
    ensures items[key] != [] ==> items' == Removed(items, key)
    ensures lists'.Keys <= lists.Keys
  {
    ghost var xs := items[key];
    ghost var before := a[..];
    var r;
    r, d, failure := PopFront(a, lists[key], xs);
    if failure != None {
      return lists, items, d, failure;
    }
    if Empty(r) {
      lists' := lists - {key};
      items' := items - {key};
    } else {
      lists' := lists[key := r];
      items' := items[key := xs[1..]];
    }
    forall k, i | k in items - {key} && 0 <= i < |items[k]| ensures items[k][i] != d {
      assert owner[items[k][i]] == Slot(delayed, k) && owner[xs[0]] == Slot(delayed, key);
    }
    SubQueueFrame(before, a[..], lists - {key}, items - {key}, {d});
  }

  /** The least key of a nonempty key set: `begin()->first` of an ordered map. */
  function Front(keys: set<int>): (k: int)
    requires keys != {}
    ensures k in keys && forall j :: j in keys ==> k <= j
  {
    LeastExists(keys);
    var k :| k in keys && forall j :: j in keys ==> k <= j;
    k
  }

  lemma {:induction false} LeastExists(keys: set<int>)
    requires keys != {}
    ensures exists k :: k in keys && forall j :: j in keys ==> k <= j
  {
    if forall y :: y !in keys {
      assert false;
    }
    var x :| x in keys;
    if keys != {x} {
      LeastExists(keys - {x});
      var k :| k in keys - {x} && forall j :: j in keys - {x} ==> k <= j;
      var least := if x < k then x else k;
      forall j | j in keys ensures least <= j {
        if j != x {
          assert j in keys - {x};
        }
      }
    } else {
      assert forall j :: j in keys ==> x <= j;
    }
  }

  /** `CEventSubQueue::QueueTime`: the front key, or MAX_EVENT_TIME for an empty map. */
  function SubQueueTime(keys: set<int>): (t: int)
    ensures keys == {} ==> t == MAX_EVENT_TIME
    ensures keys != {} ==> t in keys && forall k :: k in keys ==> t <= k
  {
    if keys == {} then MAX_EVENT_TIME else Front(keys)
  }

  /** eventKey_t is a 32-bit signed integer. */
  predicate IsEventKey(k: int) {
    INT32_MIN <= k <= INT32_MAX
  }

  /** 32-bit negation: INT32_MIN has no opposite and wraps to itself. */
  function Negate(k: int): int {
    if k == INT32_MIN then INT32_MIN else -k
  }

  /**
   * The lesser of the two maps' `QueueTime`s: the least key over both,
   * since no eventKey_t exceeds MAX_EVENT_TIME.
   */
  function EarliestKey(main: set<int>, delay: set<int>): (t: int)
    requires main != {} || delay != {}
    requires forall k :: k in main + delay ==> k <= MAX_EVENT_TIME
    ensures t in main + delay && forall k :: k in main + delay ==> t <= k
  {
    var m := SubQueueTime(main);
    var d := SubQueueTime(delay);
    if m < d then m else d
  }

  /** The key a queue of type `queueType` stores for the event key `key`: MAX_QUEUE negates it. */
  function StoredKey(queueType: EventQueueType, key: int): (k: int)
    requires IsEventKey(key)
    ensures IsEventKey(k)
    ensures queueType != MAX_QUEUE ==> k == key
    ensures queueType == MAX_QUEUE && key != INT32_MIN ==> k == -key
  {
    if queueType == MAX_QUEUE then Negate(key) else key
  }

  /** Negating a stored MAX_QUEUE key gives back the event key. */
  lemma StoredKeyInverse(queueType: EventQueueType, key: int)
    requires IsEventKey(key)
    ensures StoredKey(queueType, StoredKey(queueType, key)) == key
  {
  }

  /** `CEventQueue::Later(first, second)`: `first` is served after `second`. */
  predicate LaterThan(queueType: EventQueueType, first: int, second: int) {
    if queueType == MAX_QUEUE then first < second else first > second
  }

  /** Serving stored keys in ascending order serves event keys in the queue's order. */
  lemma LaterIsStoredOrder(queueType: EventQueueType, first: int, second: int)
    requires IsEventKey(first) && IsEventKey(second)
    requires queueType == MAX_QUEUE ==> first != INT32_MIN && second != INT32_MIN
    ensures LaterThan(queueType, first, second) <==> StoredKey(queueType, first) > StoredKey(queueType, second)
  {
  }

  /** The key of a power leak: the smaller power id, a space, the larger one. */
  function LeakKey(sourcePower: nat, drainPower: nat): (key: string)
    ensures key == Decimal(if sourcePower < drainPower then sourcePower else drainPower) + " "
                   + Decimal(if sourcePower < drainPower then drainPower else sourcePower)
  {
    if sourcePower < drainPower then Decimal(sourcePower) + " " + Decimal(drainPower)
    else Decimal(drainPower) + " " + Decimal(sourcePower)
  }

  /** A leak between two powers is filed under one key whichever end is the source. */
  lemma LeakKeySymmetric(p: nat, q: nat)
    ensures LeakKey(p, q) == LeakKey(q, p)
  {
  }

  /** A push into one map leaves the lists of the other map threaded and owned as before. */
  lemma PushKeepsOther(a: seq<nat>, b: seq<nat>, items: map<int, seq<nat>>, owner: map<nat, Slot>, delayed: bool,
                       key: int, d: nat, other: map<int, EventList>, otherItems: map<int, seq<nat>>)
    requires |a| <= UNKNOWN_DEVICE && |a| == |b| && d < |a| && a[d] == UNKNOWN_DEVICE
    requires Owned(owner, items, delayed)
    requires SubQueueValid(a, other, otherItems) && Owned(owner, otherItems, !delayed)
    requires forall x :: 0 <= x < |a| && b[x] != a[x] ==> x == d || x in Devices(items, key)
    ensures SubQueueValid(b, other, otherItems) && Owned(owner[d := Slot(delayed, key)], otherItems, !delayed)
  {
    FreeIsUnlisted(a, other, otherItems, d);
    var changed := {d} + set x | x in Devices(items, key);
    forall x | x in changed ensures Unlisted(otherItems, x) {
      if x != d {
        var j :| 0 <= j < |items[key]| && items[key][j] == x;
        assert owner[items[key][j]] == Slot(delayed, key);
        forall k, i | k in otherItems && 0 <= i < |otherItems[k]| ensures otherItems[k][i] != x {
          assert owner[otherItems[k][i]] == Slot(!delayed, k);
        }
      }
    }
    SubQueueFrame(a, b, other, otherItems, changed);
  }

  /** A pop from one map leaves the lists of the other map threaded. */
  lemma PopKeepsOther(a: seq<nat>, b: seq<nat>, items: map<int, seq<nat>>, owner: map<nat, Slot>, delayed: bool,
                      key: int, other: map<int, EventList>, otherItems: map<int, seq<nat>>)
    requires key in items && items[key] != [] && |a| == |b|
    requires Owned(owner, items, delayed)
    requires SubQueueValid(a, other, otherItems) && Owned(owner, otherItems, !delayed)
    requires forall x :: 0 <= x < |a| && x != items[key][0] ==> b[x] == a[x]
    ensures SubQueueValid(b, other, otherItems)
  {
    var d := items[key][0];
    assert owner[items[key][0]] == Slot(delayed, key);
    forall k, i | k in otherItems && 0 <= i < |otherItems[k]| ensures otherItems[k][i] != d {
      assert owner[otherItems[k][i]] == Slot(!delayed, k);
    }
    SubQueueFrame(a, b, other, otherItems, {d});
  }

  /** The devices of the list a slot names. */
  function ListAt(mainItems: map<int, seq<nat>>, delayItems: map<int, seq<nat>>, slot: Slot): seq<nat> {
    Devices(if slot.delayed then delayItems else mainItems, slot.key)
  }

  /**
   * Because push_front and push_back refuse a device that already holds
   * a slot, a device is queued in at most one list.
   */
  lemma OneListPerDevice(mainItems: map<int, seq<nat>>, delayItems: map<int, seq<nat>>, owner: map<nat, Slot>,
                         d: nat, s1: Slot, s2: Slot)
    requires Owned(owner, mainItems, false) && Owned(owner, delayItems, true)
    requires d in ListAt(mainItems, delayItems, s1) && d in ListAt(mainItems, delayItems, s2)
    ensures s1 == s2
  {
    var xs1, xs2 := ListAt(mainItems, delayItems, s1), ListAt(mainItems, delayItems, s2);
    var i :| 0 <= i < |xs1| && xs1[i] == d;
    var j :| 0 <= j < |xs2| && xs2[j] == d;
    if s1.delayed {
      assert owner[delayItems[s1.key][i]] == s1;
    } else {
      assert owner[mainItems[s1.key][i]] == s1;
    }
    if s2.delayed {
      assert owner[delayItems[s2.key][j]] == s2;
    } else {
      assert owner[mainItems[s2.key][j]] == s2;
    }
  }

  /** Where AddEvent files a device: the delay queue for DELAY_FRONT and DELAY_BACK. */
  predicate ToDelay(position: QueuePosition) {
    position == DelayFront || position == DelayBack
  }

  /** AddEvent pushes at the front for QUEUE_HIZ, MOS_DIODE and DELAY_FRONT. */
  predicate AtFront(position: QueuePosition) {
    position == QueueHiz || position == MosDiode || position == DelayFront
  }

  /** The devices of a map after `d` joins the list at `key`. */
  function Added(items: map<int, seq<nat>>, key: int, d: nat, front: bool): map<int, seq<nat>> {
    items[key := if front then [d] + Devices(items, key) else Devices(items, key) + [d]]
  }

  /** The devices of a map after the first device of the list at `key` leaves it. */
  function Removed(items: map<int, seq<nat>>, key: int): map<int, seq<nat>>
    requires key in items && items[key] != []
  {
    if |items[key]| == 1 then items - {key} else items[key := items[key][1..]]
  }

  class EventQueue {
    var queueArray: array<nat>
    const queueType: EventQueueType
    const virtualNets: VirtualNets.VirtualNetVector
    var main: map<int, EventList>
    var delay: map<int, EventList>
    ghost var mainItems: map<int, seq<nat>>
    ghost var delayItems: map<int, seq<nat>>
    /** Which list each device was last put in. */
    ghost var owner: map<nat, Slot>
    /** CLeakMap: each CLeakList as its devices, most recent first. */
    var leaks: map<string, seq<nat>>
    var queueStart: bool
    var enqueueCount: nat
    var dequeueCount: nat
    var requeueCount: nat

    ghost predicate Valid()
      reads this, queueArray
    {
      && queueArray.Length <= UNKNOWN_DEVICE
      && SubQueueValid(queueArray[..], main, mainItems)
      && SubQueueValid(queueArray[..], delay, delayItems)
      && Owned(owner, mainItems, false)
      && Owned(owner, delayItems, true)
      && KeysInRange()
    }

    /** Every stored key is an eventKey_t. */
    ghost predicate KeysInRange()
      reads this
    {
      && (forall k :: k in main ==> IsEventKey(k))
      && (forall k :: k in delay ==> IsEventKey(k))
    }

    constructor (queueType: EventQueueType, virtualNets: VirtualNets.VirtualNetVector)
      ensures Valid() && this.queueType == queueType && this.virtualNets == virtualNets
      ensures queueArray.Length == 0 && main == map[] && delay == map[] && leaks == map[]
      ensures !queueStart && enqueueCount == 0 && dequeueCount == 0 && requeueCount == 0
    {
      this.queueType := queueType;
      this.virtualNets := virtualNets;
      queueArray := new nat[0];
      main, delay := map[], map[];
      mainItems, delayItems, owner := map[], map[], map[];
      leaks := map[];
      queueStart := false;
      enqueueCount, dequeueCount, requeueCount := 0, 0, 0;
    }

    /**
     * `ResetQueue`: a fresh array of `deviceCount` free slots, zero
     * counters, the queue not started and the virtual-net clock at zero.
     * The list headers of both queues are kept as they are, so the queue is
     * still well formed afterwards only when every list was empty.
     */
    method ResetQueue(deviceCount: nat)
      requires deviceCount <= UNKNOWN_DEVICE
      modifies this`queueArray, this`enqueueCount, this`dequeueCount, this`requeueCount, this`queueStart
      modifies virtualNets`lastUpdate
      ensures fresh(queueArray)
      ensures main == old(main) && delay == old(delay)
      ensures (&& old(Valid())
               && (forall key :: key in mainItems ==> mainItems[key] == [])
               && (forall key :: key in delayItems ==> delayItems[key] == []))
              ==> Valid()
      ensures queueArray.Length == deviceCount && forall d :: 0 <= d < deviceCount ==> queueArray[d] == UNKNOWN_DEVICE
      ensures enqueueCount == 0 && dequeueCount == 0 && requeueCount == 0 && !queueStart
      ensures virtualNets.lastUpdate == 0
    {
      queueArray := new nat[deviceCount](_ => UNKNOWN_DEVICE);
      enqueueCount, dequeueCount, requeueCount := 0, 0, 0;
      queueStart := false;
      virtualNets.lastUpdate := 0;
    }

    /** `IsNextMainQueue`: whether the next event comes from the main queue. */
    function IsNextMainQueue(): (next: bool)
      reads this
      ensures queueType == SIM_QUEUE ==> (next <==> main != map[])
      ensures next ==> main != map[] && (queueType == SIM_QUEUE || Front(main.Keys) == Front(main.Keys + delay.Keys))
      ensures !next && main != map[] ==>
                delay != map[] && Front(delay.Keys) == Front(main.Keys + delay.Keys) && Front(delay.Keys) < Front(main.Keys)
    {
      if main == map[] then false
      else if delay == map[] then true
      else queueType == SIM_QUEUE || Front(main.Keys) <= Front(delay.Keys)
    }

    /** `CEventQueue::QueueTime`: the key of the next event, 0 before the queue starts or when it is empty. */
    function QueueTime(): (t: int)
      requires KeysInRange()
      reads this
      ensures IsEventKey(t)
      ensures !queueStart || (main == map[] && delay == map[]) ==> t == 0
      ensures queueStart && (main != map[] || delay != map[]) ==>
                (forall k :: k in main.Keys + delay.Keys ==> StoredKey(queueType, t) <= k)
                && StoredKey(queueType, t) in main.Keys + delay.Keys
    {
      if !queueStart || (delay == map[] && main == map[]) then 0
      else
        var front := EarliestKey(main.Keys, delay.Keys);
        if queueType == MAX_QUEUE then Negate(front) else front
    }

    /** `CEventQueue::Later(key)`: an event at `key` comes after the next queued one. */
    predicate Later(key: int)
      requires KeysInRange()
      reads this
    {
      LaterThan(queueType, key, QueueTime())
    }

    /**
     * `AddEvent`: puts `d` in the list at `key` (negated for MAX_QUEUE) of
     * the main or the delay queue, at the front or the back as `position`
     * says; SKIP_QUEUE is a fatal error.
     */
    method AddEvent(key: int, d: nat, position: QueuePosition) returns (failure: Option<Failure>)
      requires Valid() && d < queueArray.Length && IsEventKey(key)
      modifies this`main, this`delay, this`mainItems, this`delayItems, this`owner, this`enqueueCount, queueArray
      ensures Valid()
      ensures position == SkipQueue ==> failure == Some(FatalError) && unchanged(this) && unchanged(queueArray)
      ensures position != SkipQueue && old(queueArray[d]) != UNKNOWN_DEVICE ==>
                failure == Some(QueueError) && enqueueCount == old(enqueueCount) && queueArray[..] == old(queueArray[..])
      ensures position != SkipQueue && old(queueArray[d]) == UNKNOWN_DEVICE ==>
                failure == None && enqueueCount == old(enqueueCount) + 1
      ensures position != SkipQueue && ToDelay(position) ==>
                main == old(main) && mainItems == old(mainItems) && StoredKey(queueType, key) in delay
                && (failure == None ==> delayItems == Added(old(delayItems), StoredKey(queueType, key), d, AtFront(position)))
      ensures position != SkipQueue && !ToDelay(position) ==>
                delay == old(delay) && delayItems == old(delayItems) && StoredKey(queueType, key) in main
                && (failure == None ==> mainItems == Added(old(mainItems), StoredKey(queueType, key), d, AtFront(position)))
    {
      if position == SkipQueue {
        return Some(FatalError);
      }
      var k := StoredKey(queueType, key);
      if ToDelay(position) {
        failure := PushDelay(k, d, AtFront(position));
      } else {
        failure := PushMain(k, d, AtFront(position));
      }
      if failure == None {
        enqueueCount := enqueueCount + 1;
      }
    }

    /** `mainQueue[key].push_front(d)` or `.push_back(d)`. */
    method PushMain(key: int, d: nat, front: bool) returns (failure: Option<Failure>)
      requires Valid() && d < queueArray.Length && IsEventKey(key)
      modifies this`main, this`mainItems, this`owner, queueArray
      ensures Valid() && key in main
      ensures old(queueArray[d]) != UNKNOWN_DEVICE ==> failure == Some(QueueError) && queueArray[..] == old(queueArray[..])
      ensures old(queueArray[d]) == UNKNOWN_DEVICE ==> failure == None && mainItems == Added(old(mainItems), key, d, front)
    {
      ghost var before := queueArray[..];
      var lists; ghost var items;
      lists, items, failure := Enqueue(queueArray, main, mainItems, owner, false, key, d, front);
      ghost var pushed, owned := mainItems, owner;
      main, mainItems := lists, items;
      if failure == None {
        owner := owner[d := Slot(false, key)];
        PushKeepsOther(before, queueArray[..], pushed, owned, false, key, d, delay, delayItems);
      }
    }

    /** `delayQueue[key].push_front(d)` or `.push_back(d)`. */
    method PushDelay(key: int, d: nat, front: bool) returns (failure: Option<Failure>)
      requires Valid() && d < queueArray.Length && IsEventKey(key)
      modifies this`delay, this`delayItems, this`owner, queueArray
      ensures Valid() && key in delay
      ensures old(queueArray[d]) != UNKNOWN_DEVICE ==> failure == Some(QueueError) && queueArray[..] == old(queueArray[..])
      ensures old(queueArray[d]) == UNKNOWN_DEVICE ==> failure == None && delayItems == Added(old(delayItems), key, d, front)
    {
      ghost var before := queueArray[..];
      var lists; ghost var items;
      lists, items, failure := Enqueue(queueArray, delay, delayItems, owner, true, key, d, front);
      ghost var pushed, owned := delayItems, owner;
      delay, delayItems := lists, items;
      if failure == None {
        owner := owner[d := Slot(true, key)];
        PushKeepsOther(before, queueArray[..], pushed, owned, true, key, d, main, mainItems);
      }
    }

    /**
     * `GetMainEvent`: removes and returns the first device of the main
     * queue's least key, erasing that key once its list empties.
     */
    method GetMainEvent() returns (d: nat, failure: Option<Failure>)
      requires Valid() && main != map[]
      modifies this`main, this`mainItems, this`dequeueCount, queueArray
      ensures Valid()
      ensures var k := Front(old(main.Keys));
              && (old(mainItems[k]) == [] ==>
                    failure == Some(QueueError) && main == old(main) && dequeueCount == old(dequeueCount)
                    && queueArray[..] == old(queueArray[..]))
              && (old(mainItems[k]) != [] ==>
                    failure == None && d == old(mainItems[k][0]) && mainItems == Removed(old(mainItems), k)
                    && dequeueCount == old(dequeueCount) + 1 && queueArray[..] == old(queueArray[..])[d := UNKNOWN_DEVICE])
    {
      var k := Front(main.Keys);
      ghost var before := queueArray[..];
      var lists; ghost var items;
      lists, items, d, failure := Dequeue(queueArray, main, mainItems, owner, false, k);
      if failure != None {
        return;
      }
      ghost var popped := mainItems;
      main, mainItems := lists, items;
      dequeueCount := dequeueCount + 1;
      PopKeepsOther(before, queueArray[..], popped, owner, false, k, delay, delayItems);
    }

    /** `GetDelayEvent`: as GetMainEvent, on the delay queue. */
    method GetDelayEvent() returns (d: nat, failure: Option<Failure>)
      requires Valid() && delay != map[]
      modifies this`delay, this`delayItems, this`dequeueCount, queueArray
      ensures Valid()
      ensures var k := Front(old(delay.Keys));
              && (old(delayItems[k]) == [] ==>
                    failure == Some(QueueError) && delay == old(delay) && dequeueCount == old(dequeueCount)
                    && queueArray[..] == old(queueArray[..]))
              && (old(delayItems[k]) != [] ==>
                    failure == None && d == old(delayItems[k][0]) && delayItems == Removed(old(delayItems), k)
                    && dequeueCount == old(dequeueCount) + 1 && queueArray[..] == old(queueArray[..])[d := UNKNOWN_DEVICE])
    {
      var k := Front(delay.Keys);
      ghost var before := queueArray[..];
      var lists; ghost var items;
      lists, items, d, failure := Dequeue(queueArray, delay, delayItems, owner, true, k);
      if failure != None {
        return;
      }
      ghost var popped := delayItems;
      delay, delayItems := lists, items;
      dequeueCount := dequeueCount + 1;
      PopKeepsOther(before, queueArray[..], popped, owner, true, k, main, mainItems);
    }

    /** `GetEvent`: the next event, from the main queue when IsNextMainQueue says so. */
    method GetEvent() returns (d: nat, failure: Option<Failure>)
      requires Valid() && (main != map[] || delay != map[])
      modifies this`main, this`mainItems, this`delay, this`delayItems, this`dequeueCount, queueArray
      ensures Valid()
      ensures old(IsNextMainQueue()) ==> delay == old(delay) && delayItems == old(delayItems)
      ensures !old(IsNextMainQueue()) ==> main == old(main) && mainItems == old(mainItems)
      ensures var xs := if old(IsNextMainQueue()) then old(mainItems[Front(main.Keys)]) else old(delayItems[Front(delay.Keys)]);
              && (xs == [] <==> failure == Some(QueueError))
              && (xs == [] ==> dequeueCount == old(dequeueCount) && queueArray[..] == old(queueArray[..]))
              && (xs != [] ==> d == xs[0] && dequeueCount == old(dequeueCount) + 1
                               && queueArray[..] == old(queueArray[..])[d := UNKNOWN_DEVICE])
      ensures old(IsNextMainQueue()) && failure == None ==> mainItems == Removed(old(mainItems), Front(old(main.Keys)))
      ensures !old(IsNextMainQueue()) && failure == None ==> delayItems == Removed(old(delayItems), Front(old(delay.Keys)))
    {
      if IsNextMainQueue() {
        d, failure := GetMainEvent();
      } else {
        d, failure := GetDelayEvent();
      }
    }

    /** `AddLeak`: files `device` at the front of the leak list of the two powers. */
    method AddLeak(device: nat, sourcePower: nat, drainPower: nat)
      modifies this`leaks
      ensures var key := LeakKey(sourcePower, drainPower);
              leaks == old(leaks)[key := [device] + (if key in old(leaks) then old(leaks)[key] else [])]
    {
      var key := LeakKey(sourcePower, drainPower);
      var list := if key in leaks then leaks[key] else [];
      leaks := leaks[key := [device] + list];
    }
  }
}
