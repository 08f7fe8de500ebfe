/**
 * Tallying a display list: one counter per record type and review level,
 * an error and a checked counter per section, the section totals in table
 * order, and the checked share of all errors in tenths of a percent.
 */
module Tally {
  import opened Outcomes
  import opened Records
  import opened Taxonomy

  /** The counters that exist before the first record is read. */
  const COUNTED: seq<string> := ["ERROR", "Warning", "Check", "ignore", "unchecked", "uncommitted", "unmatched", "comment"]

  const ALL: string := "all"

  function TypeName(t: RecordType): string {
    match t
    case Comment => "comment"
    case Unmatched => "unmatched"
    case Unchecked => "unchecked"
    case Checked => "checked"
    case Uncommitted => "uncommitted"
  }

  datatype Counts = Counts(errorCount: map<string, int>, checkCount: map<string, int>)

  /** A counter per review level and per record type at 0, and "all" at the list length. */
  function Initial(n: nat): Counts {
    Counts(map["ERROR" := 0, "Warning" := 0, "Check" := 0, "ignore" := 0,
               "unchecked" := 0, "uncommitted" := 0, "unmatched" := 0, "comment" := 0][ALL := n],
           map[])
  }

  /** Records that belong to an error section. */
  predicate IsErrorType(t: RecordType) {
    t == Uncommitted || t == Checked || t == Unchecked
  }

  /** The counter a record bumps: its level when checked, else its type. */
  function Bucket(d: DisplayRecord): string {
    if d.rtype == Checked then d.level else TypeName(d.rtype)
  }

  /** A section seen for the first time gets an error and a checked counter at 0. */
  function AddSection(c: Counts, section: string): (r: Counts)
    ensures forall k :: k != section ==> (k in r.errorCount <==> k in c.errorCount) && (k in r.checkCount <==> k in c.checkCount)
    ensures forall k :: k != section && k in c.errorCount ==> r.errorCount[k] == c.errorCount[k]
    ensures forall k :: k != section && k in c.checkCount ==> r.checkCount[k] == c.checkCount[k]
  {
    if section != "" && section !in c.errorCount then Counts(c.errorCount[section := 0], c.checkCount[section := 0])
    else c
  }

  /** A section record bumps its section's error counter, and its checked counter when checked. */
  function CountSection(c: Counts, section: string, checked: bool): (r: (Counts, Option<Failure>))
    ensures forall k :: k != section ==> (k in r.0.errorCount <==> k in c.errorCount) && (k in r.0.checkCount <==> k in c.checkCount)
    ensures forall k :: k != section && k in c.errorCount ==> r.0.errorCount[k] == c.errorCount[k]
    ensures forall k :: k != section && k in c.checkCount ==> r.0.checkCount[k] == c.checkCount[k]
  {
    if !checked then
      if section !in c.errorCount then (c, Some(KeyError))
      else (Counts(c.errorCount[section := c.errorCount[section] + 1], c.checkCount), None)
    else if section !in c.checkCount then (c, Some(KeyError))
    else if section !in c.errorCount then (Counts(c.errorCount, c.checkCount[section := c.checkCount[section] + 1]), Some(KeyError))
    else (Counts(c.errorCount[section := c.errorCount[section] + 1], c.checkCount[section := c.checkCount[section] + 1]), None)
  }

  /** The section a record counts under: its table entry's section for a section record, else none. */
  function RecordSection(d: DisplayRecord): string
    requires IsErrorType(d.rtype) ==> d.priority < |ErrorTable|
  {
    if IsErrorType(d.rtype) then ErrorTable[d.priority].section else ""
  }

  /**
   * One record's effect. A failure (an out-of-table priority, a missing
   * counter) comes with the counts as they stand when it is raised.
   */
  function Step(c: Counts, d: DisplayRecord): (Counts, Option<Failure>) {
    if IsErrorType(d.rtype) && d.priority >= |ErrorTable| then (c, Some(IndexError))
    else
      var section := RecordSection(d);
      var bucket := Bucket(d);
      if bucket !in c.errorCount then (c, Some(KeyError))
      else
        var c1 := AddSection(Counts(c.errorCount[bucket := c.errorCount[bucket] + 1], c.checkCount), section);
        if IsErrorType(d.rtype) then CountSection(c1, section, d.rtype == Checked) else (c1, None)
  }

  /** The counts after reading `ds` from `c`, or at the first failure. */
  function TallyFrom(c: Counts, ds: seq<DisplayRecord>): (Counts, Option<Failure>)
    decreases |ds|
  {
    if ds == [] then (c, None)
    else
      var (c1, f) := Step(c, ds[0]);
      if f.Some? then (c1, f) else TallyFrom(c1, ds[1..])
  }

  /** Reading from position i: that record's step, then the rest unless it failed. */
  lemma TallyStep(c: Counts, ds: seq<DisplayRecord>, i: nat)
    requires i < |ds|
    ensures TallyFrom(c, ds[i..]) == if Step(c, ds[i]).1.Some? then Step(c, ds[i]) else TallyFrom(Step(c, ds[i]).0, ds[i + 1..])
  {
    assert ds[i..][0] == ds[i] && ds[i..][1..] == ds[i + 1..];
  }

  /** A section's "section checked/total" line. */
  datatype Detail = Detail(section: string, checked: int, total: int)

  datatype Totals = Totals(details: seq<Detail>, total: int, checked: int, failure: Option<Failure>)

  /** The section lines and sums for the table entries from k on, in table order. */
  function TotalsFrom(c: Counts, k: nat, details: seq<Detail>, total: int, checked: int): Totals
    requires k <= |ErrorTable|
    decreases |ErrorTable| - k
  {
    if k == |ErrorTable| then Totals(details, total, checked, None)
    else
      var s := ErrorTable[k].section;
      if s !in c.errorCount then TotalsFrom(c, k + 1, details, total, checked)
      else if s !in c.checkCount then Totals(details, total, checked, Some(KeyError))
      else TotalsFrom(c, k + 1, details + [Detail(s, c.checkCount[s], c.errorCount[s])],
                      total + c.errorCount[s], checked + c.checkCount[s])
  }

  /** The checked share in tenths of a percent, rounded down; 0 when there are no errors. */
  function Permille(checked: int, total: int): (p: int)
    requires 0 <= checked <= total
    ensures 0 <= p <= 1000
    ensures p == 1000 <==> total > 0 && checked == total
  {
    if total != 0 then
      PermilleBounds(checked, total);
      (1000 * checked) / total
    else 0
  }

  lemma PermilleBounds(checked: int, total: int)
    requires 0 <= checked <= total && total > 0
    ensures 0 <= (1000 * checked) / total <= 1000
    ensures (1000 * checked) / total == 1000 <==> checked == total
  {
    var a := 1000 * checked;
    var p := a / total;
    var r := a % total;
    assert a == p * total + r && 0 <= r < total;
    assert p >= 0 by {
      if p < 0 {
        MulMonotone(p, -1, total);
      }
    }
    if checked == total {
      assert a == 1000 * total + 0;
      DivExact(1000, total);
    } else {
      assert a <= 1000 * total - 1000;
      assert p * total < 1000 * total;
      MulCancel(p, 1000, total);
    }
  }

  lemma MulMonotone(p: int, q: int, t: int)
    requires p <= q && t > 0
    ensures p * t <= q * t
  {
  }

  lemma MulCancel(p: int, q: int, t: int)
    requires t > 0 && p * t < q * t
    ensures p < q
  {
    if p >= q {
      MulMonotone(q, p, t);
    }
  }

  lemma DivExact(q: int, t: int)
    requires t > 0
    ensures (q * t) / t == q
  {
    var p := (q * t) / t;
    var r := (q * t) % t;
    assert q * t == p * t + r && 0 <= r < t;
    assert (q - p) * t == r;
    if q - p >= 1 {
      MulMonotone(1, q - p, t);
    } else if q - p <= -1 {
      MulMonotone(q - p, -1, t);
    }
  }

  // ---- the counters stay consistent ----

  predicate IsSectionName(s: string) {
    exists i :: 0 <= i < |ErrorTable| && ErrorTable[i].section == s
  }

  /** No section shares its name with a type or level counter, or with "all". */
  lemma SectionsNotCounters(i: nat)
    requires i < |ErrorTable|
    ensures ErrorTable[i].section !in COUNTED && ErrorTable[i].section != ALL && ErrorTable[i].section != ""
  {
    if i < 12 {
      NotCountersLow(i);
    } else if i < 23 {
      NotCountersMiddle(i);
    } else {
      NotCountersHigh(i);
    }
  }

  // The same, band by band: [0, 12), [12, 23) and [23, 34).

  lemma NotCountersLow(i: nat)
    requires i < 12
    ensures ErrorTable[i].section !in COUNTED && ErrorTable[i].section != ALL && ErrorTable[i].section != ""
  {
  }

  lemma NotCountersMiddle(i: nat)
    requires 12 <= i < 23
    ensures ErrorTable[i].section !in COUNTED && ErrorTable[i].section != ALL && ErrorTable[i].section != ""
  {
  }

  lemma NotCountersHigh(i: nat)
    requires 23 <= i < 34
    ensures ErrorTable[i].section !in COUNTED && ErrorTable[i].section != ALL && ErrorTable[i].section != ""
  {
  }

  /**
   * The invariant of the counters: a checked counter exists only for a
   * section and never exceeds that section's error counter; every section
   * counter has its checked counter; the type and level counters exist.
   */
  predicate Consistent(c: Counts) {
    && (forall s :: s in c.checkCount ==>
          s in c.errorCount && IsSectionName(s) && 0 <= c.checkCount[s] <= c.errorCount[s])
    && (forall s :: s in c.errorCount && IsSectionName(s) ==> s in c.checkCount)
    && (forall k :: k in COUNTED ==> k in c.errorCount)
    && ALL in c.errorCount
  }

  /** Every table section with an error counter has a checked counter no larger than it. */
  predicate TableCounted(c: Counts) {
    forall k :: 0 <= k < |ErrorTable| && ErrorTable[k].section in c.errorCount ==>
      ErrorTable[k].section in c.checkCount
      && 0 <= c.checkCount[ErrorTable[k].section] <= c.errorCount[ErrorTable[k].section]
  }

  lemma ConsistentTableCounted(c: Counts)
    requires Consistent(c)
    ensures TableCounted(c)
  {
    forall k | 0 <= k < |ErrorTable| && ErrorTable[k].section in c.errorCount
      ensures ErrorTable[k].section in c.checkCount
    {
      assert IsSectionName(ErrorTable[k].section);
    }
  }

  lemma InitialConsistent(n: nat)
    ensures Consistent(Initial(n))
  {
    var c := Initial(n);
    forall s | s in c.errorCount && IsSectionName(s) ensures false {
      var i :| 0 <= i < |ErrorTable| && ErrorTable[i].section == s;
      SectionsNotCounters(i);
    }
  }

  /** A record the tally can count: a section record has a table priority; a checked one a review level. */
  predicate Countable(d: DisplayRecord) {
    (IsErrorType(d.rtype) ==> d.priority < |ErrorTable|) && (d.rtype == Checked ==> d.level in ValidLevels)
  }

  /** Counting a countable record keeps the counters consistent and never fails. */
  lemma StepConsistent(c: Counts, d: DisplayRecord)
    requires Consistent(c) && Countable(d)
    ensures Step(c, d).1.None? && Consistent(Step(c, d).0)
  {
    StepSucceeds(c, d);
    StepKeepsConsistent(c, d);
  }

  lemma StepSucceeds(c: Counts, d: DisplayRecord)
    requires Consistent(c) && Countable(d)
    ensures Step(c, d).1.None?
  {
    assert Bucket(d) in COUNTED;
    if IsErrorType(d.rtype) {
      SectionsNotCounters(d.priority);
      assert IsSectionName(RecordSection(d));
    }
  }

  /** Whatever the record, a step that does not fail keeps the counters consistent. */
  lemma StepKeepsConsistent(c: Counts, d: DisplayRecord)
    requires Consistent(c)
    ensures Step(c, d).1.None? ==> Consistent(Step(c, d).0)
  {
    if !(IsErrorType(d.rtype) && d.priority >= |ErrorTable|) {
      var section := RecordSection(d);
      if IsErrorType(d.rtype) {
        assert IsSectionName(section);
      }
      var bucket := Bucket(d);
      if bucket in c.errorCount {
        var c0 := Counts(c.errorCount[bucket := c.errorCount[bucket] + 1], c.checkCount);
        BumpKeeps(c, bucket);
        AddSectionKeeps(c0, section);
        if IsErrorType(d.rtype) {
          CountSectionKeeps(AddSection(c0, section), section, d.rtype == Checked);
        }
      }
    }
  }

  lemma BumpKeeps(c: Counts, b: string)
    requires Consistent(c) && b in c.errorCount
    ensures Consistent(Counts(c.errorCount[b := c.errorCount[b] + 1], c.checkCount))
  {
  }

  lemma AddSectionKeeps(c: Counts, s: string)
    requires Consistent(c) && (s == "" || IsSectionName(s))
    ensures Consistent(AddSection(c, s))
  {
  }

  lemma CountSectionKeeps(c: Counts, s: string, checked: bool)
    requires Consistent(c)
    ensures CountSection(c, s, checked).1.None? ==> Consistent(CountSection(c, s, checked).0)
  {
  }

  /** A tally from consistent counters that does not fail ends consistent. */
  lemma {:induction false} TallySucceedsConsistent(c: Counts, ds: seq<DisplayRecord>)
    requires Consistent(c)
    ensures TallyFrom(c, ds).1.None? ==> Consistent(TallyFrom(c, ds).0)
    decreases |ds|
  {
    if ds != [] {
      StepKeepsConsistent(c, ds[0]);
      if Step(c, ds[0]).1.None? {
        TallySucceedsConsistent(Step(c, ds[0]).0, ds[1..]);
      }
    }
  }

  lemma {:induction false} TallyConsistent(c: Counts, ds: seq<DisplayRecord>)
    requires Consistent(c)
    requires forall i :: 0 <= i < |ds| ==> Countable(ds[i])
    ensures TallyFrom(c, ds).1.None? && Consistent(TallyFrom(c, ds).0)
    decreases |ds|
  {
    if ds != [] {
      StepConsistent(c, ds[0]);
      TallyConsistent(Step(c, ds[0]).0, ds[1..]);
    }
  }

  // ---- every record bumps exactly one type or level counter ----

  function SumOf(m: map<string, int>, keys: seq<string>): int
    requires forall k :: k in keys ==> k in m
  {
    if keys == [] then 0 else m[keys[0]] + SumOf(m, keys[1..])
  }

  lemma {:induction false} SumOfOther(m: map<string, int>, keys: seq<string>, x: string, v: int)
    requires forall k :: k in keys ==> k in m
    requires x !in keys
    ensures SumOf(m[x := v], keys) == SumOf(m, keys)
  {
    if keys != [] {
      SumOfOther(m, keys[1..], x, v);
    }
  }

  lemma {:induction false} SumOfBump(m: map<string, int>, keys: seq<string>, x: string)
    requires forall k :: k in keys ==> k in m
    requires x in keys
    requires forall i, j :: 0 <= i < j < |keys| ==> keys[i] != keys[j]
    ensures SumOf(m[x := m[x] + 1], keys) == SumOf(m, keys) + 1
  {
    if keys[0] == x {
      assert x !in keys[1..];
      SumOfOther(m, keys[1..], x, m[x] + 1);
    } else {
      SumOfBump(m, keys[1..], x);
    }
  }

  lemma {:induction false} SumOfAgree(m1: map<string, int>, m2: map<string, int>, keys: seq<string>)
    requires forall k :: k in keys ==> k in m1 && k in m2 && m1[k] == m2[k]
    ensures SumOf(m1, keys) == SumOf(m2, keys)
  {
    if keys != [] {
      SumOfAgree(m1, m2, keys[1..]);
    }
  }

  lemma StepBumpsOne(c: Counts, d: DisplayRecord)
    requires Consistent(c) && Countable(d)
    ensures SumOf(Step(c, d).0.errorCount, COUNTED) == SumOf(c.errorCount, COUNTED) + 1
    ensures ALL in Step(c, d).0.errorCount && Step(c, d).0.errorCount[ALL] == c.errorCount[ALL]
  {
    var b := Bucket(d);
    assert b in COUNTED;
    var ec := c.errorCount[b := c.errorCount[b] + 1];
    SumOfBump(c.errorCount, COUNTED, b);
    if IsErrorType(d.rtype) {
      SectionsNotCounters(d.priority);
    }
    var after := Step(c, d).0.errorCount;
    forall k | k in COUNTED
      ensures k in after && after[k] == ec[k]
    {
      StepElsewhere(c, d, k);
    }
    SumOfAgree(after, ec, COUNTED);
    StepElsewhere(c, d, ALL);
  }

  /** Away from the record's section, a step only bumps the record's counter. */
  lemma StepElsewhere(c: Counts, d: DisplayRecord, k: string)
    requires Countable(d) && Bucket(d) in c.errorCount
    requires k != RecordSection(d)
    ensures k in Step(c, d).0.errorCount <==> k in c.errorCount
    ensures k in c.errorCount ==> Step(c, d).0.errorCount[k] == c.errorCount[k] + (if k == Bucket(d) then 1 else 0)
  {
  }

  /**
   * After counting a list of countable records, the type and level
   * counters add up to the list's length, and "all" holds the length.
   */
  lemma {:induction false} CountersAddUp(c: Counts, ds: seq<DisplayRecord>)
    requires Consistent(c)
    requires forall i :: 0 <= i < |ds| ==> Countable(ds[i])
    ensures TallyConsistentResult(c, ds)
    ensures SumOf(TallyFrom(c, ds).0.errorCount, COUNTED) == SumOf(c.errorCount, COUNTED) + |ds|
    ensures TallyFrom(c, ds).0.errorCount[ALL] == c.errorCount[ALL]
    decreases |ds|
  {
    TallyConsistent(c, ds);
    if ds != [] {
      StepBumpsOne(c, ds[0]);
      StepConsistent(c, ds[0]);
      CountersAddUp(Step(c, ds[0]).0, ds[1..]);
    }
  }

  predicate TallyConsistentResult(c: Counts, ds: seq<DisplayRecord>) {
    TallyFrom(c, ds).1.None? && Consistent(TallyFrom(c, ds).0)
  }

  lemma InitialSum(n: nat)
    ensures SumOf(Initial(n).errorCount, COUNTED) == 0
  {
    SumOfZero(Initial(n).errorCount, COUNTED);
  }

  lemma {:induction false} SumOfZero(m: map<string, int>, keys: seq<string>)
    requires forall k :: k in keys ==> k in m && m[k] == 0
    ensures SumOf(m, keys) == 0
  {
    if keys != [] {
      SumOfZero(m, keys[1..]);
    }
  }

  /** The tally of a whole display list of countable records: "all" and the type/level counters both count every record. */
  lemma TallyOfList(ds: seq<DisplayRecord>)
    requires forall i :: 0 <= i < |ds| ==> Countable(ds[i])
    ensures TallyConsistentResult(Initial(|ds|), ds)
    ensures TallyFrom(Initial(|ds|), ds).0.errorCount[ALL] == |ds|
    ensures SumOf(TallyFrom(Initial(|ds|), ds).0.errorCount, COUNTED) == |ds|
  {
    var c := Initial(|ds|);
    InitialConsistent(|ds|);
    InitialSum(|ds|);
    assert c.errorCount[ALL] == |ds|;
    CountersAddUp(c, ds);
  }

  /** With consistent counters the section totals never fail, and no more are checked than found. */
  lemma {:induction false} TotalsSound(c: Counts, k: nat, details: seq<Detail>, total: int, checked: int)
    requires TableCounted(c) && k <= |ErrorTable|
    requires 0 <= checked <= total
    ensures TotalsFrom(c, k, details, total, checked).failure.None?
    ensures 0 <= TotalsFrom(c, k, details, total, checked).checked <= TotalsFrom(c, k, details, total, checked).total
    decreases |ErrorTable| - k
  {
    if k < |ErrorTable| {
      var s := ErrorTable[k].section;
      if s in c.errorCount {
        var d := details + [Detail(s, c.checkCount[s], c.errorCount[s])];
        TotalsSound(c, k + 1, d, total + c.errorCount[s], checked + c.checkCount[s]);
        assert TotalsFrom(c, k, details, total, checked)
            == TotalsFrom(c, k + 1, d, total + c.errorCount[s], checked + c.checkCount[s]);
      } else {
        TotalsSound(c, k + 1, details, total, checked);
        assert TotalsFrom(c, k, details, total, checked) == TotalsFrom(c, k + 1, details, total, checked);
      }
    }
  }
}
