/** The pre-processing step of `main`: drop the runs whose `date` is falsy,
    then `sorted(..., key=lambda r: r['date'])`.  Python's sort is stable, and
    a stable sort by a key has exactly one possible result, so it is modelled
    here by a stable insertion sort on the date string, compared the way
    Python compares strings. */
module Chronology {
  import opened Wrappers
  import opened Text
  import opened Runs

  /** `r.get('date')` is truthy: the key is there and the string is not empty. */
  predicate HasDate(r: Run) {
    r.date.Some? && r.date.value != ""
  }

  /** `[r for r in runs if r.get('date')]`. */
  function DatedRuns(runs: seq<Run>): (dated: seq<Run>)
    ensures |dated| <= |runs|
    ensures forall r :: r in dated <==> r in runs && HasDate(r)
    decreases |runs|
  {
    if runs == [] then []
    else (if HasDate(runs[0]) then [runs[0]] else []) + DatedRuns(runs[1..])
  }

  /** The filter keeps every dated run, once per occurrence and in the
      API's order: for any non-empty date, the runs carrying it are the
      same before and after. */
  lemma {:induction false} DatedKeepsOrder(runs: seq<Run>, d: string)
    requires d != ""
    ensures WithDate(DatedRuns(runs), d) == WithDate(runs, d)
    decreases |runs|
  {
    if runs != [] {
      DatedKeepsOrder(runs[1..], d);
      WithDateAppend(if HasDate(runs[0]) then [runs[0]] else [], DatedRuns(runs[1..]), d);
    }
  }

  predicate AllDated(runs: seq<Run>) {
    forall i :: 0 <= i < |runs| ==> runs[i].date.Some?
  }

  /** `r['date']`. */
  function DateKey(r: Run): string
    requires r.date.Some?
  {
    r.date.value
  }

  /** Non-decreasing by date string. */
  predicate SortedByDate(runs: seq<Run>) {
    AllDated(runs) &&
    forall i, j :: 0 <= i < j < |runs| ==> LexLeq(DateKey(runs[i]), DateKey(runs[j]))
  }

  /** The runs carrying date `d`, in their order. */
  function WithDate(runs: seq<Run>, d: string): seq<Run>
    decreases |runs|
  {
    if runs == [] then []
    else (if runs[0].date == Some(d) then [runs[0]] else []) + WithDate(runs[1..], d)
  }

  lemma {:induction false} WithDateAppend(a: seq<Run>, b: seq<Run>, d: string)
    ensures WithDate(a + b, d) == WithDate(a, d) + WithDate(b, d)
    decreases |a|
  {
    if a != [] {
      assert (a + b)[1..] == a[1..] + b;
      WithDateAppend(a[1..], b, d);
    } else {
      assert a + b == b;
    }
  }

  /** Places `x` before the first run whose date is not below its own, so
      that it stays ahead of the runs with an equal date. */
  function InsertByDate(x: Run, sorted: seq<Run>): (r: seq<Run>)
    requires x.date.Some? && AllDated(sorted)
    ensures AllDated(r)
    ensures multiset(r) == multiset(sorted) + multiset{x}
    decreases |sorted|
  {
    if sorted == [] || LexLeq(DateKey(x), DateKey(sorted[0])) then [x] + sorted
    else
      assert sorted == [sorted[0]] + sorted[1..];
      [sorted[0]] + InsertByDate(x, sorted[1..])
  }

  /** `sorted(runs, key=lambda r: r['date'])`. */
  function SortByDate(runs: seq<Run>): (r: seq<Run>)
    requires AllDated(runs)
    ensures AllDated(r)
    ensures multiset(r) == multiset(runs)
    decreases |runs|
  {
    if runs == [] then []
    else
      assert runs == [runs[0]] + runs[1..];
      InsertByDate(runs[0], SortByDate(runs[1..]))
  }

  lemma LexLeqReflexive(a: string)
    ensures LexLeq(a, a)
  {
  }

  /** A run no later than every run of a sorted list can go in front of it. */
  lemma ConsSorted(h: Run, rest: seq<Run>)
    requires h.date.Some? && SortedByDate(rest)
    requires forall j :: 0 <= j < |rest| ==> LexLeq(DateKey(h), DateKey(rest[j]))
    ensures SortedByDate([h] + rest)
  {
    var r := [h] + rest;
    forall i, j | 0 <= i < j < |r|
      ensures LexLeq(DateKey(r[i]), DateKey(r[j]))
    {
      if i == 0 {
        assert r[j] == rest[j - 1];
      } else {
        assert r[i] == rest[i - 1] && r[j] == rest[j - 1];
      }
    }
  }

  /** A lower bound of `x` and of every run of `s` bounds the insertion too. */
  lemma InsertBounded(h: Run, x: Run, s: seq<Run>, r: seq<Run>)
    requires h.date.Some? && x.date.Some? && AllDated(s)
    requires LexLeq(DateKey(h), DateKey(x))
    requires forall j :: 0 <= j < |s| ==> LexLeq(DateKey(h), DateKey(s[j]))
    requires r == InsertByDate(x, s)
    ensures forall j :: 0 <= j < |r| ==> LexLeq(DateKey(h), DateKey(r[j]))
  {
    forall j | 0 <= j < |r|
      ensures LexLeq(DateKey(h), DateKey(r[j]))
    {
      assert r[j] in multiset(r);
      if r[j] != x {
        assert r[j] in multiset(s);
        var m :| 0 <= m < |s| && s[m] == r[j];
      }
    }
  }

  lemma {:induction false} InsertKeepsSorted(x: Run, sorted: seq<Run>)
    requires x.date.Some? && SortedByDate(sorted)
    ensures SortedByDate(InsertByDate(x, sorted))
    decreases |sorted|
  {
    if sorted == [] {
    } else if LexLeq(DateKey(x), DateKey(sorted[0])) {
      forall j | 0 <= j < |sorted|
        ensures LexLeq(DateKey(x), DateKey(sorted[j]))
      {
        if j > 0 {
          LexLeqTransitive(DateKey(x), DateKey(sorted[0]), DateKey(sorted[j]));
        }
      }
      ConsSorted(x, sorted);
    } else {
      var head, tail := sorted[0], sorted[1..];
      LexLeqTotal(DateKey(x), DateKey(head));
      assert SortedByDate(tail);
      InsertKeepsSorted(x, tail);
      assert forall j :: 0 <= j < |tail| ==> tail[j] == sorted[j + 1];
      var r := InsertByDate(x, tail);
      InsertBounded(head, x, tail, r);
      ConsSorted(head, r);
    }
  }

  lemma WithDateCons(h: Run, s: seq<Run>, d: string)
    ensures WithDate([h] + s, d) == (if h.date == Some(d) then [h] else []) + WithDate(s, d)
  {
    assert ([h] + s)[0] == h && ([h] + s)[1..] == s;
  }

  /** Inserting `x` keeps the runs of every date in their order, `x` first
      among its own date. */
  lemma {:induction false} InsertKeepsDateOrder(x: Run, sorted: seq<Run>, d: string)
    requires x.date.Some? && SortedByDate(sorted)
    ensures WithDate(InsertByDate(x, sorted), d)
      == (if x.date == Some(d) then [x] else []) + WithDate(sorted, d)
    decreases |sorted|
  {
    if sorted == [] || LexLeq(DateKey(x), DateKey(sorted[0])) {
      WithDateCons(x, sorted, d);
    } else {
      var head, tail := sorted[0], sorted[1..];
      LexLeqReflexive(DateKey(x));
      assert head.date != x.date;
      assert SortedByDate(tail);
      InsertKeepsDateOrder(x, tail, d);
      var rest := InsertByDate(x, tail);
      assert InsertByDate(x, sorted) == [head] + rest;
      assert sorted == [head] + tail;
      WithDateCons(head, rest, d);
      WithDateCons(head, tail, d);
      var w := WithDate(tail, d);
      if x.date == Some(d) {
        assert WithDate(rest, d) == [x] + w;
        assert [] + ([x] + w) == [x] + w && [] + w == w;
      } else {
        assert WithDate(rest, d) == [] + w;
        assert [] + w == w;
      }
    }
  }

  lemma {:induction false} SortIsSorted(runs: seq<Run>)
    requires AllDated(runs)
    ensures SortedByDate(SortByDate(runs))
    decreases |runs|
  {
    if runs != [] {
      assert AllDated(runs[1..]) by {
        forall i | 0 <= i < |runs| - 1 ensures runs[1..][i].date.Some? { assert runs[1..][i] == runs[i + 1]; }
      }
      SortIsSorted(runs[1..]);
      InsertKeepsSorted(runs[0], SortByDate(runs[1..]));
    }
  }

  lemma {:induction false} SortIsStable(runs: seq<Run>, d: string)
    requires AllDated(runs)
    ensures WithDate(SortByDate(runs), d) == WithDate(runs, d)
    decreases |runs|
  {
    if runs != [] {
      assert AllDated(runs[1..]) by {
        forall i | 0 <= i < |runs| - 1 ensures runs[1..][i].date.Some? { assert runs[1..][i] == runs[i + 1]; }
      }
      SortIsStable(runs[1..], d);
      SortIsSorted(runs[1..]);
      InsertKeepsDateOrder(runs[0], SortByDate(runs[1..]), d);
    }
  }

  /** `sorted([r for r in runs if r.get('date')], key=lambda r: r['date'])`. */
  function ChronologicalRuns(runs: seq<Run>): seq<Run> {
    var dated := DatedRuns(runs);
    assert AllDated(dated) by {
      forall i | 0 <= i < |dated| ensures dated[i].date.Some? { assert dated[i] in dated; }
    }
    SortByDate(dated)
  }

  /** What `main` hands to the analysis: exactly the dated runs (a
      permutation of them, each with a non-empty date), non-decreasing by
      date string, and runs that share a date keep the order in which the
      API returned them. */
  lemma ChronologicalRunsSpec(runs: seq<Run>, d: string)
    ensures var c := ChronologicalRuns(runs);
      && multiset(c) == multiset(DatedRuns(runs))
      && (forall r :: r in c ==> HasDate(r))
      && SortedByDate(c)
      && WithDate(c, d) == WithDate(DatedRuns(runs), d)
      && (d != "" ==> WithDate(c, d) == WithDate(runs, d))
  {
    var dated := DatedRuns(runs);
    var c := ChronologicalRuns(runs);
    assert AllDated(dated) by {
      forall i | 0 <= i < |dated| ensures dated[i].date.Some? { assert dated[i] in dated; }
    }
    SortIsSorted(dated);
    SortIsStable(dated, d);
    if d != "" {
      DatedKeepsOrder(runs, d);
    }
    forall r | r in c ensures HasDate(r) {
      assert r in multiset(c);
      assert r in multiset(dated);
    }
  }
}
