/** `analisar_progressao_recorde`: keep the runs of one sub-category, then
    walk them in date order holding the best time so far, and emit a history
    entry whenever a run is strictly faster than every run before it. */
module Progression {
  import opened Wrappers
  import opened Runs

  // ---------------------------------------------------------------------
  // Step 1: the sub-category filter

  /** `target_var_id in run.get('values', {}) and run['values'][target_var_id] == target_val_id`. */
  predicate InSubcategory(run: Run, varId: string, valId: string) {
    varId in run.values && run.values[varId] == valId
  }

  /** The runs of the sub-category, in their original order (the list
      comprehension of `coletores/speedrun.py`). */
  function Subcategory(runs: seq<Run>, varId: string, valId: string): (kept: seq<Run>)
    ensures |kept| <= |runs|
    ensures forall r :: r in kept <==> r in runs && InSubcategory(r, varId, valId)
    decreases |runs|
  {
    if runs == [] then []
    else
      (if InSubcategory(runs[0], varId, valId) then [runs[0]] else [])
      + Subcategory(runs[1..], varId, valId)
  }

  /** The filter keeps order: filtering a concatenation concatenates the
      filtered parts.  With the membership clause of `Subcategory` this pins
      the result down: the matching runs, each in its original place. */
  lemma {:induction false} SubcategoryAppend(a: seq<Run>, b: seq<Run>, varId: string, valId: string)
    ensures Subcategory(a + b, varId, valId) == Subcategory(a, varId, valId) + Subcategory(b, varId, valId)
    decreases |a|
  {
    if a != [] {
      var h := if InSubcategory(a[0], varId, valId) then [a[0]] else [];
      var sa, sb := Subcategory(a[1..], varId, valId), Subcategory(b, varId, valId);
      assert (a + b)[0] == a[0];
      assert (a + b)[1..] == a[1..] + b;
      assert Subcategory(a + b, varId, valId) == h + Subcategory(a[1..] + b, varId, valId);
      SubcategoryAppend(a[1..], b, varId, valId);
      assert h + (sa + sb) == (h + sa) + sb;
    } else {
      assert a + b == b;
    }
  }

  /** The explicit filter loop of `speedrun.py`, appending each matching run. */
  method SelectSubcategoryRuns(runs: seq<Run>, varId: string, valId: string) returns (kept: seq<Run>)
    ensures kept == Subcategory(runs, varId, valId)
  {
    kept := [];
    for i := 0 to |runs|
      invariant kept == Subcategory(runs[..i], varId, valId)
    {
      var run := runs[i];
      if varId in run.values && run.values[varId] == valId {
        kept := kept + [run];
      }
      assert runs[..i + 1] == runs[..i] + [run];
      SubcategoryAppend(runs[..i], [run], varId, valId);
      assert [run][1..] == [];
    }
    assert runs[..|runs|] == runs;
  }

  // ---------------------------------------------------------------------
  // Step 2: the best-so-far scan, on times alone

  /** `tempo_atual < melhor_tempo`; `None` stands for `float('inf')`. */
  predicate Beats(t: nat, best: Option<nat>) {
    best.None? || t < best.value
  }

  /** The best time after looking at `t`. */
  function NextBest(t: nat, best: Option<nat>): Option<nat> {
    if Beats(t, best) then Some(t) else best
  }

  /** Position `i` sets a record: its time beats `best` and is strictly
      below every earlier time.  With `best == None` this is "faster than
      every earlier run". */
  predicate IsRecord(ts: seq<nat>, best: Option<nat>, i: nat)
    requires i < |ts|
  {
    Beats(ts[i], best) && forall j :: 0 <= j < i ==> ts[i] < ts[j]
  }

  function Shift(idx: seq<nat>): (r: seq<nat>)
    ensures |r| == |idx| && forall k :: 0 <= k < |idx| ==> r[k] == idx[k] + 1
  {
    seq(|idx|, k requires 0 <= k < |idx| => idx[k] + 1)
  }

  /** The positions at which the scan, starting from `best`, emits an entry,
      in the order it emits them. */
  function Emitted(ts: seq<nat>, best: Option<nat>): (idx: seq<nat>)
    ensures forall k :: 0 <= k < |idx| ==> idx[k] < |ts|
    ensures forall k, l :: 0 <= k < l < |idx| ==> idx[k] < idx[l]
    decreases |ts|
  {
    if ts == [] then []
    else
      var rest := Shift(Emitted(ts[1..], NextBest(ts[0], best)));
      if Beats(ts[0], best) then [0] + rest else rest
  }

  /** Moving the best time past the first run leaves the record property
      of every later position unchanged. */
  lemma RecordStep(ts: seq<nat>, best: Option<nat>, i: nat)
    requires 1 <= i < |ts|
    ensures IsRecord(ts[1..], NextBest(ts[0], best), i - 1) <==> IsRecord(ts, best, i)
  {
    var tail := ts[1..];
    assert forall j :: 0 <= j < i - 1 ==> tail[j] == ts[j + 1];
    if IsRecord(tail, NextBest(ts[0], best), i - 1) {
      forall j | 0 <= j < i
        ensures ts[i] < ts[j]
      {
        if j > 0 { assert tail[j - 1] == ts[j]; }
      }
    }
    if IsRecord(ts, best, i) {
      forall j | 0 <= j < i - 1
        ensures tail[i - 1] < tail[j]
      {
        assert ts[j + 1] == tail[j];
      }
    }
  }

  lemma ShiftMember(inner: seq<nat>, i: nat)
    ensures 0 !in Shift(inner)
    ensures i >= 1 ==> (i in Shift(inner) <==> i - 1 in inner)
  {
    var rest := Shift(inner);
    if i >= 1 && i - 1 in inner {
      var k :| 0 <= k < |inner| && inner[k] == i - 1;
      assert rest[k] == i;
    }
    if i in rest {
      var k :| 0 <= k < |rest| && rest[k] == i;
      assert inner[k] == i - 1;
    }
  }

  /** A position is emitted exactly when it sets a record. */
  lemma {:induction false} EmittedAreRecords(ts: seq<nat>, best: Option<nat>)
    ensures forall i :: 0 <= i < |ts| ==> (i in Emitted(ts, best) <==> IsRecord(ts, best, i))
    decreases |ts|
  {
    if ts != [] {
      var nb := NextBest(ts[0], best);
      var inner := Emitted(ts[1..], nb);
      EmittedAreRecords(ts[1..], nb);
      forall i | 0 <= i < |ts|
        ensures i in Emitted(ts, best) <==> IsRecord(ts, best, i)
      {
        ShiftMember(inner, i);
        if i >= 1 {
          RecordStep(ts, best, i);
        }
      }
    }
  }

  /** The scan emits nothing only on empty input, and the first run always
      sets the first record. */
  lemma FirstRunIsEmitted(ts: seq<nat>)
    ensures |Emitted(ts, None)| == 0 <==> |ts| == 0
    ensures |ts| > 0 ==> Emitted(ts, None)[0] == 0
  {
  }

  /** Emitted times are strictly decreasing. */
  lemma EmittedTimesDecrease(ts: seq<nat>, best: Option<nat>)
    ensures var idx := Emitted(ts, best);
      forall k :: 0 <= k < |idx| - 1 ==> ts[idx[k + 1]] < ts[idx[k]]
  {
    var idx := Emitted(ts, best);
    EmittedAreRecords(ts, best);
    forall k | 0 <= k < |idx| - 1
      ensures ts[idx[k + 1]] < ts[idx[k]]
    {
      assert idx[k + 1] in idx;
      assert IsRecord(ts, best, idx[k + 1]);
    }
  }

  /** The first position holding the smallest time. */
  function FirstMinimum(ts: seq<nat>): (m: nat)
    requires |ts| > 0
    ensures m < |ts|
    ensures forall j :: 0 <= j < |ts| ==> ts[m] <= ts[j]
    ensures forall j :: 0 <= j < m ==> ts[m] < ts[j]
    decreases |ts|
  {
    if |ts| == 1 then 0
    else
      var m := FirstMinimum(ts[..|ts| - 1]);
      if ts[|ts| - 1] < ts[m] then |ts| - 1 else m
  }

  /** The last emitted time is the smallest time of all. */
  lemma LastEmittedIsMinimum(ts: seq<nat>)
    requires |ts| > 0
    ensures var idx := Emitted(ts, None);
      |idx| > 0 && forall j :: 0 <= j < |ts| ==> ts[idx[|idx| - 1]] <= ts[j]
    ensures var idx := Emitted(ts, None);
      idx[|idx| - 1] == FirstMinimum(ts)
  {
    var idx := Emitted(ts, None);
    var m := FirstMinimum(ts);
    EmittedAreRecords(ts, None);
    assert IsRecord(ts, None, m);
    assert m in idx;
    var k :| 0 <= k < |idx| && idx[k] == m;
    var last := idx[|idx| - 1];
    assert last in idx;
    assert IsRecord(ts, None, last);
    assert ts[m] <= ts[last];
  }

  /** A worked example: times 120, 130, 110, 110, 90 emit 120, 110 and 90
      (the slower 130 and the tied 110 are skipped). */
  lemma ScanExample()
    ensures Emitted([120, 130, 110, 110, 90], None) == [0, 2, 4]
  {
    var ts: seq<nat> := [120, 130, 110, 110, 90];
    assert ts[1..] == [130, 110, 110, 90];
    assert ts[1..][1..] == [110, 110, 90];
    assert ts[1..][1..][1..] == [110, 90];
    assert ts[1..][1..][1..][1..] == [90];
    assert Emitted([90], Some(110)) == [0];
    assert Emitted([110, 90], Some(110)) == [1];
    assert Emitted([110, 110, 90], Some(120)) == [0, 2];
    assert Emitted([130, 110, 110, 90], Some(120)) == [1, 3];
  }

  // ---------------------------------------------------------------------
  // Step 2 on runs: the loop of `analisar_progressao_recorde`

  predicate AllTimed(runs: seq<Run>) {
    forall i :: 0 <= i < |runs| ==> runs[i].primaryT.Some?
  }

  function TimesOf(runs: seq<Run>): (ts: seq<nat>)
    requires AllTimed(runs)
    ensures |ts| == |runs| && forall i :: 0 <= i < |runs| ==> ts[i] == runs[i].primaryT.value
  {
    seq(|runs|, i requires 0 <= i < |runs| => runs[i].primaryT.value)
  }

  /** Puts `h` in front of a successful history; keeps a failure. */
  function Prepend(h: seq<Entry>, r: Result<seq<Entry>, Fault>): Result<seq<Entry>, Fault> {
    match r
    case Success(t) => Success(h + t)
    case Failure(e) => Failure(e)
  }

  lemma PrependNothing(r: Result<seq<Entry>, Fault>)
    ensures Prepend([], r) == r
  {
    if r.Success? {
      assert [] + r.value == r.value;
    }
  }

  lemma PrependAssoc(h: seq<Entry>, e: Entry, r: Result<seq<Entry>, Fault>)
    ensures Prepend(h, Prepend([e], r)) == Prepend(h + [e], r)
  {
    if r.Success? {
      assert h + ([e] + r.value) == (h + [e]) + r.value;
    }
  }

  /** The scan from best time `best`, run by run, as Python evaluates it:
      the time of every run is read; a run that beats the best becomes the
      best and its entry is built, and the first exception ends the scan. */
  function ScanRuns(runs: seq<Run>, best: Option<nat>, variant: Variant): Result<seq<Entry>, Fault>
    decreases |runs|
  {
    if runs == [] then Success([])
    else
      match runs[0].primaryT
      case None => Failure(MissingTime)
      case Some(t) =>
        if Beats(t, best) then
          match MakeEntry(runs[0], variant)
          case Failure(e) => Failure(e)
          case Success(entry) => Prepend([entry], ScanRuns(runs[1..], Some(t), variant))
        else ScanRuns(runs[1..], best, variant)
  }

  /** A run without a time always makes the scan fail. */
  lemma {:induction false} ScanNeedsEveryTime(runs: seq<Run>, best: Option<nat>, variant: Variant)
    requires !AllTimed(runs)
    ensures ScanRuns(runs, best, variant).Failure?
    decreases |runs|
  {
    if runs[0].primaryT.Some? {
      var t := runs[0].primaryT.value;
      assert !AllTimed(runs[1..]) by {
        var i :| 0 <= i < |runs| && runs[i].primaryT.None?;
        assert runs[1..][i - 1] == runs[i];
      }
      ScanNeedsEveryTime(runs[1..], NextBest(t, best), variant);
    }
  }

  /** The entries of the runs at positions `idx`, built in that order; the
      first entry that cannot be built ends the list with its fault. */
  function EntriesAt(runs: seq<Run>, idx: seq<nat>, variant: Variant): Result<seq<Entry>, Fault>
    requires AllTimed(runs)
    requires forall k :: 0 <= k < |idx| ==> idx[k] < |runs|
    decreases |idx|
  {
    if idx == [] then Success([])
    else
      match MakeEntry(runs[idx[0]], variant)
      case Failure(e) => Failure(e)
      case Success(entry) => Prepend([entry], EntriesAt(runs, idx[1..], variant))
  }

  /** The entries at `idx` are built exactly when each of them can be. */
  lemma {:induction false} EntriesAtSucceeds(runs: seq<Run>, idx: seq<nat>, variant: Variant)
    requires AllTimed(runs)
    requires forall k :: 0 <= k < |idx| ==> idx[k] < |runs|
    ensures EntriesAt(runs, idx, variant).Success?
      <==> forall k :: 0 <= k < |idx| ==> MakeEntry(runs[idx[k]], variant).Success?
    decreases |idx|
  {
    if idx != [] {
      var rest := idx[1..];
      EntriesAtSucceeds(runs, rest, variant);
      assert forall k :: 1 <= k < |idx| ==> idx[k] == rest[k - 1];
    }
  }

  /** A built list holds, in order, the entry of each run at `idx`. */
  lemma {:induction false} EntriesAtValues(runs: seq<Run>, idx: seq<nat>, variant: Variant)
    requires AllTimed(runs)
    requires forall k :: 0 <= k < |idx| ==> idx[k] < |runs|
    requires EntriesAt(runs, idx, variant).Success?
    ensures var s := EntriesAt(runs, idx, variant).value;
      |s| == |idx| && forall k :: 0 <= k < |idx| ==> MakeEntry(runs[idx[k]], variant) == Success(s[k])
    decreases |idx|
  {
    if idx != [] {
      var rest := idx[1..];
      var head := MakeEntry(runs[idx[0]], variant).value;
      var tail := EntriesAt(runs, rest, variant);
      EntriesAtValues(runs, rest, variant);
      var s := [head] + tail.value;
      assert EntriesAt(runs, idx, variant).value == s;
      forall k | 0 <= k < |idx|
        ensures MakeEntry(runs[idx[k]], variant) == Success(s[k])
      {
        if k > 0 {
          assert idx[k] == rest[k - 1] && s[k] == tail.value[k - 1];
        }
      }
    }
  }

  lemma EntriesAtMeaning(runs: seq<Run>, idx: seq<nat>, variant: Variant)
    requires AllTimed(runs)
    requires forall k :: 0 <= k < |idx| ==> idx[k] < |runs|
    ensures EntriesAt(runs, idx, variant).Success?
      <==> forall k :: 0 <= k < |idx| ==> MakeEntry(runs[idx[k]], variant).Success?
    ensures var s := EntriesAt(runs, idx, variant);
      s.Success? ==>
        |s.value| == |idx| && forall k :: 0 <= k < |idx| ==> MakeEntry(runs[idx[k]], variant) == Success(s.value[k])
  {
    EntriesAtSucceeds(runs, idx, variant);
    if EntriesAt(runs, idx, variant).Success? {
      EntriesAtValues(runs, idx, variant);
    }
  }

  lemma {:induction false} EntriesAtShift(runs: seq<Run>, inner: seq<nat>, variant: Variant)
    requires runs != [] && AllTimed(runs) && AllTimed(runs[1..])
    requires forall k :: 0 <= k < |inner| ==> inner[k] < |runs| - 1
    ensures EntriesAt(runs, Shift(inner), variant) == EntriesAt(runs[1..], inner, variant)
    decreases |inner|
  {
    if inner != [] {
      assert Shift(inner)[1..] == Shift(inner[1..]);
      assert runs[Shift(inner)[0]] == runs[1..][inner[0]];
      EntriesAtShift(runs, inner[1..], variant);
    }
  }

  /** The scan over runs is the scan over their times: with every time
      present, the scan builds the entries of the emitted runs, in emission
      order, and fails with the first entry that cannot be built. */
  lemma {:induction false} ScanFollowsEmitted(runs: seq<Run>, best: Option<nat>, variant: Variant)
    requires AllTimed(runs)
    ensures ScanRuns(runs, best, variant) == EntriesAt(runs, Emitted(TimesOf(runs), best), variant)
    decreases |runs|
  {
    if runs != [] {
      var ts := TimesOf(runs);
      var t := ts[0];
      var tail := runs[1..];
      assert AllTimed(tail) by {
        forall i | 0 <= i < |tail| ensures tail[i].primaryT.Some? { assert tail[i] == runs[i + 1]; }
      }
      assert TimesOf(tail) == ts[1..];
      var nb := NextBest(t, best);
      var inner := Emitted(ts[1..], nb);
      ScanFollowsEmitted(tail, nb, variant);
      EntriesAtShift(runs, inner, variant);
      if Beats(t, best) {
        var idx := [0] + Shift(inner);
        assert Emitted(ts, best) == idx;
        assert idx[1..] == Shift(inner);
      }
    }
  }

  // ---------------------------------------------------------------------
  // The whole analysis

  /** `analisar_progressao_recorde(runs, target_var_id, target_val_id, _)`. */
  function RecordHistory(runs: seq<Run>, varId: string, valId: string, variant: Variant)
    : Result<seq<Entry>, Fault>
  {
    var filtered := Subcategory(runs, varId, valId);
    if |filtered| == 0 then Success([]) else ScanRuns(filtered, None, variant)
  }

  /** When the analysis fails: a run of the sub-category without a time, or
      a record-setting run whose entry cannot be built. */
  lemma ProgressionSucceeds(runs: seq<Run>, varId: string, valId: string, variant: Variant)
    ensures var f := Subcategory(runs, varId, valId);
      RecordHistory(runs, varId, valId, variant).Success? <==>
        AllTimed(f) &&
        var idx := Emitted(TimesOf(f), None);
        forall k :: 0 <= k < |idx| ==> MakeEntry(f[idx[k]], variant).Success?
  {
    var f := Subcategory(runs, varId, valId);
    if AllTimed(f) {
      ScanFollowsEmitted(f, None, variant);
      EntriesAtMeaning(f, Emitted(TimesOf(f), None), variant);
    } else {
      ScanNeedsEveryTime(f, None, variant);
    }
  }

  /** The history is the entries of exactly the runs of the sub-category
      that are strictly faster than every earlier one, in date order: a
      subsequence of the filtered runs, where a tie is not a record. */
  lemma ProgressionIsRecordHistory(runs: seq<Run>, varId: string, valId: string, variant: Variant)
    requires RecordHistory(runs, varId, valId, variant).Success?
    ensures var f := Subcategory(runs, varId, valId);
      var h := RecordHistory(runs, varId, valId, variant).value;
      AllTimed(f) &&
      var idx := Emitted(TimesOf(f), None);
      && |h| == |idx|
      && (forall k, l :: 0 <= k < l < |idx| ==> idx[k] < idx[l])
      && (forall k :: 0 <= k < |idx| ==> idx[k] < |f| && MakeEntry(f[idx[k]], variant) == Success(h[k]))
      && (forall i :: 0 <= i < |f| ==>
            (i in idx <==> forall j :: 0 <= j < i ==> f[i].primaryT.value < f[j].primaryT.value))
  {
    var f := Subcategory(runs, varId, valId);
    ProgressionSucceeds(runs, varId, valId, variant);
    ScanFollowsEmitted(f, None, variant);
    EntriesAtMeaning(f, Emitted(TimesOf(f), None), variant);
    EmittedAreRecords(TimesOf(f), None);
  }

  /** The times of the history are the emitted times of the sub-category. */
  lemma HistoryTimes(runs: seq<Run>, varId: string, valId: string, variant: Variant)
    requires RecordHistory(runs, varId, valId, variant).Success?
    ensures var f := Subcategory(runs, varId, valId);
      var h := RecordHistory(runs, varId, valId, variant).value;
      AllTimed(f) &&
      var idx := Emitted(TimesOf(f), None);
      && |h| == |idx|
      && forall k :: 0 <= k < |idx| ==> h[k].timeMicros == TimesOf(f)[idx[k]]
  {
    ProgressionIsRecordHistory(runs, varId, valId, variant);
  }

  /** Emitted times are strictly decreasing. */
  lemma ProgressionTimesDecrease(runs: seq<Run>, varId: string, valId: string, variant: Variant)
    requires RecordHistory(runs, varId, valId, variant).Success?
    ensures var h := RecordHistory(runs, varId, valId, variant).value;
      forall k :: 0 <= k < |h| - 1 ==> h[k + 1].timeMicros < h[k].timeMicros
  {
    HistoryTimes(runs, varId, valId, variant);
    EmittedTimesDecrease(TimesOf(Subcategory(runs, varId, valId)), None);
  }

  /** The history is empty exactly when no run is in the sub-category, and
      otherwise opens with the first run of the sub-category. */
  lemma ProgressionEmptyIff(runs: seq<Run>, varId: string, valId: string, variant: Variant)
    requires RecordHistory(runs, varId, valId, variant).Success?
    ensures var f := Subcategory(runs, varId, valId);
      var h := RecordHistory(runs, varId, valId, variant).value;
      (|h| == 0 <==> |f| == 0) && (|f| > 0 ==> MakeEntry(f[0], variant) == Success(h[0]))
  {
    var f := Subcategory(runs, varId, valId);
    ProgressionIsRecordHistory(runs, varId, valId, variant);
    if |f| > 0 {
      FirstRunIsEmitted(TimesOf(f));
    }
  }

  /** The last entry holds the best time of the whole sub-category. */
  lemma ProgressionEndsAtMinimum(runs: seq<Run>, varId: string, valId: string, variant: Variant)
    requires RecordHistory(runs, varId, valId, variant).Success?
    requires |RecordHistory(runs, varId, valId, variant).value| > 0
    ensures var f := Subcategory(runs, varId, valId);
      var h := RecordHistory(runs, varId, valId, variant).value;
      && (forall r :: r in f ==> r.primaryT.Some? && h[|h| - 1].timeMicros <= r.primaryT.value)
      && (exists r :: r in f && r.primaryT == Some(h[|h| - 1].timeMicros))
  {
    var f := Subcategory(runs, varId, valId);
    var h := RecordHistory(runs, varId, valId, variant).value;
    HistoryTimes(runs, varId, valId, variant);
    var ts := TimesOf(f);
    LastEmittedIsMinimum(ts);
    var idx := Emitted(ts, None);
    var last := idx[|idx| - 1];
    MinimumOfRuns(f, last, h[|h| - 1].timeMicros);
  }

  /** A run holding the smallest time of a timed sequence, stated on the runs. */
  lemma MinimumOfRuns(f: seq<Run>, m: nat, t: nat)
    requires AllTimed(f) && m < |f| && TimesOf(f)[m] == t
    requires forall j :: 0 <= j < |f| ==> TimesOf(f)[m] <= TimesOf(f)[j]
    ensures forall r :: r in f ==> r.primaryT.Some? && t <= r.primaryT.value
    ensures exists r :: r in f && r.primaryT == Some(t)
  {
    var ts := TimesOf(f);
    forall r | r in f
      ensures r.primaryT.Some? && t <= r.primaryT.value
    {
      var i :| 0 <= i < |f| && f[i] == r;
      assert ts[i] == r.primaryT.value;
    }
    assert f[m] in f && f[m].primaryT == Some(t);
  }

  /** The analysis as the two scripts run it: the filter (a loop in
      `speedrun.py`, a comprehension in `coletores/speedrun.py`), the early
      return on an empty sub-category, then the best-so-far loop. */
  method AnalyzeProgression(runs: seq<Run>, targetVarId: string, targetValId: string, variant: Variant)
    returns (history: Result<seq<Entry>, Fault>)
    ensures history == RecordHistory(runs, targetVarId, targetValId, variant)
  {
    var filtered: seq<Run>;
    if variant == RootScript {
      filtered := SelectSubcategoryRuns(runs, targetVarId, targetValId);
    } else {
      filtered := Subcategory(runs, targetVarId, targetValId);
    }
    if |filtered| == 0 {
      return Success([]);
    }
    history := ScanLoop(filtered, variant);
  }

  /** One step of the scan, at position `i`. */
  lemma ScanAt(runs: seq<Run>, i: nat, best: Option<nat>, variant: Variant)
    requires i < |runs|
    ensures ScanRuns(runs[i..], best, variant) ==
      match runs[i].primaryT
      case None => Failure(MissingTime)
      case Some(t) =>
        if !Beats(t, best) then ScanRuns(runs[i + 1..], best, variant)
        else match MakeEntry(runs[i], variant)
          case Failure(e) => Failure(e)
          case Success(entry) => Prepend([entry], ScanRuns(runs[i + 1..], Some(t), variant))
  {
    assert runs[i..][0] == runs[i] && runs[i..][1..] == runs[i + 1..];
  }

  /** The best-so-far loop over the filtered runs, with its early exits. */
  method ScanLoop(filtered: seq<Run>, variant: Variant) returns (history: Result<seq<Entry>, Fault>)
    ensures history == ScanRuns(filtered, None, variant)
  {
    var best: Option<nat> := None;
    var entries: seq<Entry> := [];
    assert filtered[0..] == filtered;
    PrependNothing(ScanRuns(filtered, None, variant));
    for i := 0 to |filtered|
      invariant ScanRuns(filtered, None, variant) == Prepend(entries, ScanRuns(filtered[i..], best, variant))
    {
      var run := filtered[i];
      ScanAt(filtered, i, best, variant);
      match run.primaryT {
        case None =>
          return Failure(MissingTime);
        case Some(t) =>
          if Beats(t, best) {
            var entry := MakeEntry(run, variant);
            if entry.Failure? {
              return Failure(entry.error);
            }
            PrependAssoc(entries, entry.value, ScanRuns(filtered[i + 1..], Some(t), variant));
            entries := entries + [entry.value];
            best := Some(t);
          }
      }
    }
    assert ScanRuns(filtered[|filtered|..], best, variant) == Success([]);
    assert entries + [] == entries;
    history := Success(entries);
  }
}
