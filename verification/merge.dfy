/** The two merge strategies that combine a cached series with freshly downloaded bars:
    `AppendMergeStrategy` (strategies/append_merge.py) and `UpdateMergeStrategy`
    (strategies/update_merge.py). */
module Merge {
  import opened Wrappers
  import opened Seqs
  import opened Bars

  /** `combined[~combined.index.duplicated(keep="last")]`: drops every row whose date occurs
      again further down, so the last row of each date survives, in its original position. */
  function DedupKeepLast(s: Series): (r: Series)
    ensures DistinctDates(r)
    ensures AsMap(r) == AsMap(s)
    ensures forall b :: b in r ==> b in s
  {
    if |s| == 0 then []
    else
      var rest := DedupKeepLast(s[1..]);
      if s[0].date in Dates(s[1..]) then
        DedupDrops(s, rest);
        rest
      else
        DedupKeeps(s, rest);
        [s[0]] + rest
  }

  /** A row whose date occurs again further down adds nothing to the map reading. */
  lemma DedupDrops(s: Series, rest: Series)
    requires |s| > 0 && s[0].date in Dates(s[1..])
    requires AsMap(rest) == AsMap(s[1..])
    requires forall b :: b in rest ==> b in s[1..]
    ensures AsMap(rest) == AsMap(s)
    ensures forall b :: b in rest ==> b in s
  {
    OverriddenKey(s[0].date, s[0], AsMap(s[1..]));
    forall b | b in rest ensures b in s {
      var k :| 0 <= k < |s[1..]| && s[1..][k] == b;
      assert s[k + 1] == b;
    }
  }

  /** The last row of its date, put in front of the deduplicated rest, keeps the dates distinct. */
  lemma DedupKeeps(s: Series, rest: Series)
    requires |s| > 0 && s[0].date !in Dates(s[1..])
    requires DistinctDates(rest) && AsMap(rest) == AsMap(s[1..])
    requires forall b :: b in rest ==> b in s[1..]
    ensures DistinctDates([s[0]] + rest)
    ensures AsMap([s[0]] + rest) == AsMap(s)
    ensures forall b :: b in [s[0]] + rest ==> b in s
  {
    var r := [s[0]] + rest;
    ConsParts(s[0], rest);
    assert s[0].date !in Dates(rest);
    forall i, j | 0 <= i < j < |r| ensures r[i].date != r[j].date {
      assert r[j] == rest[j - 1];
      if i > 0 {
        assert r[i] == rest[i - 1];
      } else {
        assert r[j] in rest;
      }
    }
    forall b | b in r ensures b in s {
      if b != s[0] {
        assert b in rest;
        var k :| 0 <= k < |s[1..]| && s[1..][k] == b;
        assert s[k + 1] == b;
      }
    }
  }

  lemma OverriddenKey<K, V>(k: K, v: V, m: map<K, V>)
    requires k in m
    ensures map[k := v] + m == m
  {
  }

  /** Places `b` among the rows of an ascending series that lacks its date. */
  function InsertByDate(b: Bar, s: Series): (r: Series)
    requires Ascending(s)
    requires b.date !in Dates(s)
    ensures Ascending(r)
    ensures forall x :: x in r ==> x in s || x == b
    ensures AsMap(r) == AsMap(s)[b.date := b]
  {
    if |s| == 0 || b.date < s[0].date then
      InsertInFront(b, s);
      [b] + s
    else
      DatesSplit(s);
      var rest := InsertByDate(b, s[1..]);
      InsertAfterHead(b, s, rest);
      [s[0]] + rest
  }

  lemma InsertInFront(b: Bar, s: Series)
    requires Ascending(s) && b.date !in Dates(s)
    requires |s| == 0 || b.date < s[0].date
    ensures Ascending([b] + s)
    ensures forall x :: x in [b] + s ==> x in s || x == b
    ensures AsMap([b] + s) == AsMap(s)[b.date := b]
  {
    BelowHead(b, s);
    ConsParts(b, s);
    PrependFreshKey(b.date, b, AsMap(s));
  }

  lemma InsertAfterHead(b: Bar, s: Series, rest: Series)
    requires Ascending(s) && |s| > 0 && s[0].date < b.date
    requires Ascending(rest)
    requires forall x :: x in rest ==> x in s[1..] || x == b
    requires AsMap(rest) == AsMap(s[1..])[b.date := b]
    ensures Ascending([s[0]] + rest)
    ensures forall x :: x in [s[0]] + rest ==> x in s || x == b
    ensures AsMap([s[0]] + rest) == AsMap(s)[b.date := b]
  {
    HeadBelowRest(s, b, rest);
    ConsParts(s[0], rest);
    PrependThenUpdate(s[0].date, s[0], b.date, b, AsMap(s[1..]));
    forall x | x in [s[0]] + rest ensures x in s || x == b {
      if x != s[0] && x != b {
        assert x in s[1..];
        var k :| 0 <= k < |s[1..]| && s[1..][k] == x;
        assert s[k + 1] == x;
      }
    }
  }

  /** A date below the head of an ascending series is below all of it. */
  lemma BelowHead(b: Bar, s: Series)
    requires Ascending(s)
    requires |s| == 0 || b.date < s[0].date
    ensures Ascending([b] + s)
  {
    var r := [b] + s;
    forall i, j | 0 <= i < j < |r| ensures r[i].date < r[j].date {
      if i == 0 && j > 1 {
        assert r[j] == s[j - 1];
      }
    }
  }

  lemma HeadBelowRest(s: Series, b: Bar, rest: Series)
    requires Ascending(s) && |s| > 0
    requires Ascending(rest)
    requires s[0].date < b.date
    requires forall x :: x in rest ==> x in s[1..] || x == b
    ensures Ascending([s[0]] + rest)
  {
    var r := [s[0]] + rest;
    forall i, j | 0 <= i < j < |r| ensures r[i].date < r[j].date {
      if i == 0 {
        assert r[j] == rest[j - 1];
        assert r[j] in rest;
        if r[j] != b {
          var k :| 0 <= k < |s[1..]| && s[1..][k] == r[j];
          assert s[k + 1] == r[j];
        }
      } else {
        assert r[i] == rest[i - 1] && r[j] == rest[j - 1];
      }
    }
  }

  lemma PrependFreshKey<K, V>(k: K, v: V, m: map<K, V>)
    requires k !in m
    ensures map[k := v] + m == m[k := v]
  {
  }

  lemma PrependThenUpdate<K, V>(k: K, v: V, k2: K, v2: V, m: map<K, V>)
    requires k != k2
    ensures map[k := v] + m[k2 := v2] == (map[k := v] + m)[k2 := v2]
  {
  }

  lemma EmptyMapUnion<K, V>(m: map<K, V>)
    ensures m + map[] == m && map[] + m == m
  {
  }

  lemma MapUnionSelf<K, V>(m: map<K, V>)
    ensures m + m == m
  {
  }

  /** `sort_index()` applied to a series whose dates are already unique. */
  function SortByDate(s: Series): (r: Series)
    requires DistinctDates(s)
    ensures Ascending(r)
    ensures AsMap(r) == AsMap(s)
  {
    if |s| == 0 then []
    else
      DatesSplit(s);
      assert s[0].date !in Dates(s[1..]) by {
        forall b | b in s[1..] ensures b.date != s[0].date {
          var k :| 0 <= k < |s[1..]| && s[1..][k] == b;
          assert s[k + 1] == b;
        }
      }
      PrependFreshKey(s[0].date, s[0], AsMap(s[1..]));
      InsertByDate(s[0], SortByDate(s[1..]))
  }

  /** `AppendMergeStrategy.merge`: concatenate, keep the last row of every date, sort by date.
      The result is ascending, has exactly the dates of both inputs, and reads as the
      right-biased union of the inputs' map readings: an incoming bar replaces the cached bar
      of the same date, and every other bar is carried over unchanged. */
  function AppendMerge(existing: Series, incoming: Series): (merged: Series)
    ensures Ascending(merged)
    ensures AsMap(merged) == AsMap(existing) + AsMap(incoming)
    ensures Dates(merged) == Dates(existing) + Dates(incoming)
    ensures |merged| == |Dates(existing) + Dates(incoming)| <= |existing| + |incoming|
  {
    var combined := existing + incoming;
    AsMapConcat(existing, incoming);
    var merged := SortByDate(DedupKeepLast(combined));
    AscendingIsDistinct(merged);
    DistinctCardinality(merged);
    DatesConcat(existing, incoming);
    DatesCardinalityBound(combined);
    merged
  }

  /** For series with unique dates: every downloaded bar is in the result. */
  lemma AppendMergeKeepsIncoming(existing: Series, incoming: Series)
    requires DistinctDates(incoming)
    ensures forall b :: b in incoming ==> b in AppendMerge(existing, incoming)
  {
    var merged := AppendMerge(existing, incoming);
    AscendingIsDistinct(merged);
    forall b | b in incoming ensures b in merged {
      var k :| 0 <= k < |incoming| && incoming[k] == b;
      AsMapOfDistinct(incoming, k);
      BarAtDate(merged, b.date);
    }
  }

  /** For series with unique dates: every cached bar whose date was not downloaded again is
      in the result, unchanged. */
  lemma AppendMergeKeepsUntouched(existing: Series, incoming: Series)
    requires DistinctDates(existing)
    ensures forall b :: b in existing && b.date !in Dates(incoming) ==> b in AppendMerge(existing, incoming)
  {
    var merged := AppendMerge(existing, incoming);
    AscendingIsDistinct(merged);
    forall b | b in existing && b.date !in Dates(incoming) ensures b in merged {
      var k :| 0 <= k < |existing| && existing[k] == b;
      AsMapOfDistinct(existing, k);
      BarAtDate(merged, b.date);
    }
  }

  /** For series with unique dates: the result holds nothing but downloaded bars and cached
      bars of dates that were not downloaded; a cached bar never survives a clash. */
  lemma AppendMergeOnlyInputs(existing: Series, incoming: Series)
    requires DistinctDates(existing) && DistinctDates(incoming)
    ensures forall b :: b in AppendMerge(existing, incoming) ==>
              b in incoming || (b in existing && b.date !in Dates(incoming))
  {
    var merged := AppendMerge(existing, incoming);
    AscendingIsDistinct(merged);
    forall b | b in merged ensures b in incoming || (b in existing && b.date !in Dates(incoming)) {
      var k :| 0 <= k < |merged| && merged[k] == b;
      AsMapOfDistinct(merged, k);
      if b.date in Dates(incoming) {
        var j :| 0 <= j < |incoming| && incoming[j].date == b.date;
        AsMapOfDistinct(incoming, j);
      } else {
        assert b.date in Dates(merged);
        assert b.date in Dates(existing);
        var j :| 0 <= j < |existing| && existing[j].date == b.date;
        AsMapOfDistinct(existing, j);
      }
    }
  }

  /** In a series with unique dates, the map reading at a present date is one of its rows. */
  lemma BarAtDate(s: Series, d: Day)
    requires DistinctDates(s)
    requires d in Dates(s)
    ensures AsMap(s)[d] in s
  {
    var k :| 0 <= k < |s| && s[k].date == d;
    AsMapOfDistinct(s, k);
  }

  /** Merging a valid cached series with an empty download, or an empty cache with a valid
      download, returns that series unchanged. */
  lemma AppendMergeWithEmpty(s: Series)
    requires Ascending(s)
    ensures AppendMerge(s, []) == s
    ensures AppendMerge([], s) == s
  {
    EmptyMapUnion(AsMap(s));
    AscendingDeterminedByMap(AppendMerge(s, []), s);
    AscendingDeterminedByMap(AppendMerge([], s), s);
  }

  /** Merging the same download a second time changes nothing. */
  lemma AppendMergeIdempotent(existing: Series, incoming: Series)
    ensures AppendMerge(AppendMerge(existing, incoming), incoming) == AppendMerge(existing, incoming)
  {
    var once := AppendMerge(existing, incoming);
    var twice := AppendMerge(once, incoming);
    MapUnionAssociative(AsMap(existing), AsMap(incoming), AsMap(incoming));
    MapUnionSelf(AsMap(incoming));
    AscendingDeterminedByMap(twice, once);
  }

  /** pandas' `DataFrame.update` rule for one cell: a non-missing incoming value overwrites,
      a missing one leaves the cell as it was. */
  function PatchField(current: Option<real>, incoming: Option<real>): Option<real>
  {
    if incoming.Some? then incoming else current
  }

  /** The cell relation `PatchField` establishes, stated per case. */
  predicate FieldPatched(patched: Option<real>, current: Option<real>, incoming: Option<real>)
  {
    && (incoming.Some? ==> patched == incoming)
    && (incoming.None? ==> patched == current)
  }

  /** A cached bar patched column by column from the incoming bar of its date. */
  predicate BarPatched(patched: Bar, current: Bar, incoming: Bar)
  {
    && patched.date == current.date
    && FieldPatched(patched.open, current.open, incoming.open)
    && FieldPatched(patched.high, current.high, incoming.high)
    && FieldPatched(patched.low, current.low, incoming.low)
    && FieldPatched(patched.close, current.close, incoming.close)
    && FieldPatched(patched.volume, current.volume, incoming.volume)
  }

  function PatchBar(current: Bar, incoming: Bar): (patched: Bar)
    ensures BarPatched(patched, current, incoming)
  {
    Bar(current.date,
        PatchField(current.open, incoming.open),
        PatchField(current.high, incoming.high),
        PatchField(current.low, incoming.low),
        PatchField(current.close, incoming.close),
        PatchField(current.volume, incoming.volume))
  }

  /** `existing.update(new)` on a download with unique dates: every cached row whose date was
      downloaded is patched from the downloaded row of that date; every other row, and the row
      order, stay as they were. */
  function Patch(existing: Series, incoming: Series): (patched: Series)
    requires DistinctDates(incoming)
    ensures |patched| == |existing|
    ensures forall i :: 0 <= i < |existing| ==> patched[i].date == existing[i].date
    ensures forall i :: 0 <= i < |existing| && existing[i].date !in Dates(incoming) ==>
              patched[i] == existing[i]
    ensures forall i, j :: 0 <= i < |existing| && 0 <= j < |incoming| && incoming[j].date == existing[i].date ==>
              BarPatched(patched[i], existing[i], incoming[j])
  {
    var m := AsMap(incoming);
    assert forall j :: 0 <= j < |incoming| ==> m[incoming[j].date] == incoming[j] by {
      forall j | 0 <= j < |incoming| ensures m[incoming[j].date] == incoming[j] {
        AsMapOfDistinct(incoming, j);
      }
    }
    seq(|existing|, i requires 0 <= i < |existing| =>
      if existing[i].date in m then PatchBar(existing[i], m[existing[i].date]) else existing[i])
  }

  /** Reading a series as a map after rewriting its rows without moving their dates is
      rewriting the map's values. */
  lemma {:induction false} AsMapOfPatch(existing: Series, patched: Series, d: Day)
    requires |patched| == |existing|
    requires forall i :: 0 <= i < |existing| ==> patched[i].date == existing[i].date
    ensures Dates(patched) == Dates(existing)
    ensures d in Dates(existing) ==>
              exists i :: 0 <= i < |existing| && existing[i].date == d
                && AsMap(existing)[d] == existing[i] && AsMap(patched)[d] == patched[i]
  {
    if |existing| > 0 {
      DatesSplit(existing);
      DatesSplit(patched);
      AsMapOfPatch(existing[1..], patched[1..], d);
      if d in Dates(existing) {
        if d in Dates(existing[1..]) {
          var i :| 0 <= i < |existing[1..]| && existing[1..][i].date == d && AsMap(existing[1..])[d] == existing[1..][i]
                   && AsMap(patched[1..])[d] == patched[1..][i];
          assert existing[i + 1] == existing[1..][i];
          assert patched[i + 1] == patched[1..][i];
        } else {
          assert AsMap(existing)[d] == existing[0];
        }
      }
    }
  }

  /** After the patch, the downloaded rows still override every patched cached row, so the
      map reading of the concatenation is the same as without the patch. */
  lemma PatchedUnion(existing: Series, incoming: Series)
    requires DistinctDates(incoming)
    ensures AsMap(Patch(existing, incoming)) + AsMap(incoming) == AsMap(existing) + AsMap(incoming)
  {
    var patched := Patch(existing, incoming);
    var lhs := AsMap(patched) + AsMap(incoming);
    var rhs := AsMap(existing) + AsMap(incoming);
    AsMapOfPatch(existing, patched, 0);
    forall d | d in lhs ensures lhs[d] == rhs[d] {
      if d !in AsMap(incoming) {
        AsMapOfPatch(existing, patched, d);
      }
    }
    MapExtensional(lhs, rhs);
  }

  lemma MapExtensional<K, V>(m1: map<K, V>, m2: map<K, V>)
    requires m1.Keys == m2.Keys
    requires forall k :: k in m1 ==> m1[k] == m2[k]
    ensures m1 == m2
  {
  }

  /** The error `DataFrame.update` raises when it cannot re-index the download onto the
      cached rows: the download repeats a date. */
  datatype MergeError = DuplicateLabels

  /** A series' index: the dates of its rows, in row order. */
  function DateColumn(s: Series): (ds: seq<Day>)
    ensures |ds| == |s| && forall i :: 0 <= i < |s| ==> ds[i] == s[i].date
  {
    seq(|s|, i requires 0 <= i < |s| => s[i].date)
  }

  /** `new.reindex(existing.index)` inside `existing.update(new)` raises exactly when the
      download repeats a date and its index is not the cached index itself: an index equal to
      the target is taken over as it is, without the duplicate check. */
  predicate UpdateRaises(existing: Series, incoming: Series)
  {
    !DistinctDates(incoming) && DateColumn(incoming) != DateColumn(existing)
  }

  /** `existing.update(new)` when the download's index is the cached index: no re-indexing
      happens, and every row is patched from the downloaded row at the same position. */
  function PatchAligned(existing: Series, incoming: Series): (patched: Series)
    requires DateColumn(incoming) == DateColumn(existing)
    ensures |patched| == |existing|
    ensures forall i :: 0 <= i < |existing| ==> BarPatched(patched[i], existing[i], incoming[i])
  {
    assert |incoming| == |DateColumn(incoming)|;
    seq(|existing|, i requires 0 <= i < |existing| => PatchBar(existing[i], incoming[i]))
  }

  /** With the download's index equal to the cached one, every patched row's date is a
      downloaded date, so the download overrides all of them and the patch leaves no trace in
      the concatenation's map reading. */
  lemma AlignedPatchedUnion(existing: Series, incoming: Series)
    requires DateColumn(incoming) == DateColumn(existing)
    ensures AsMap(PatchAligned(existing, incoming)) + AsMap(incoming) == AsMap(existing) + AsMap(incoming)
  {
    var patched := PatchAligned(existing, incoming);
    AsMapOfPatch(existing, patched, 0);
    assert Dates(existing) <= Dates(incoming) by {
      forall d | d in Dates(existing) ensures d in Dates(incoming) {
        var i :| 0 <= i < |existing| && existing[i].date == d;
        assert DateColumn(incoming)[i] == DateColumn(existing)[i];
        assert incoming[i] in incoming;
      }
    }
    var lhs := AsMap(patched) + AsMap(incoming);
    var rhs := AsMap(existing) + AsMap(incoming);
    MapExtensional(lhs, rhs);
  }

  /** What `UpdateMergeStrategy.merge` leaves behind: the caller's `existing` frame, patched in
      place, and the merged frame it returns. */
  datatype Updated = Updated(patched: Series, merged: Series)

  /** `UpdateMergeStrategy.merge`: patch `existing` in place, then concatenate, keep the last
      row of every date and sort. Because every downloaded row still wins the deduplication,
      the returned series is exactly the append merge of the same inputs, even where the
      downloaded row has missing cells; the patch shows only in the caller's `existing`. */
  function UpdateMerge(existing: Series, incoming: Series): (r: Result<Updated, MergeError>)
    ensures r.Err? <==> UpdateRaises(existing, incoming)
    ensures r.Ok? ==> r.value.merged == AppendMerge(existing, incoming)
    ensures r.Ok? ==> |r.value.patched| == |existing|
    // A download with unique dates patches each cached row from the downloaded row of its date.
    ensures r.Ok? && DistinctDates(incoming) ==>
              && (forall i :: 0 <= i < |existing| && existing[i].date !in Dates(incoming) ==>
                    r.value.patched[i] == existing[i])
              && (forall i, j :: 0 <= i < |existing| && 0 <= j < |incoming| && incoming[j].date == existing[i].date ==>
                    BarPatched(r.value.patched[i], existing[i], incoming[j]))
    // A download that repeats dates on the cached index patches row by row.
    ensures r.Ok? && !DistinctDates(incoming) ==>
              forall i :: 0 <= i < |existing| ==> BarPatched(r.value.patched[i], existing[i], incoming[i])
  {
    if DistinctDates(incoming) then
      var patched := Patch(existing, incoming);
      var merged := AppendMerge(patched, incoming);
      PatchedUnion(existing, incoming);
      AscendingDeterminedByMap(merged, AppendMerge(existing, incoming));
      Ok(Updated(patched, merged))
    else if DateColumn(incoming) == DateColumn(existing) then
      var patched := PatchAligned(existing, incoming);
      var merged := AppendMerge(patched, incoming);
      AlignedPatchedUnion(existing, incoming);
      AscendingDeterminedByMap(merged, AppendMerge(existing, incoming));
      Ok(Updated(patched, merged))
    else
      Err(DuplicateLabels)
  }

  /** The `--strategy` choice: which merge strategy the manager is built with. */
  datatype MergePolicy = AppendPolicy | UpdatePolicy

  /** The manager's `merge_strategy.merge(existing, new)` call, dispatched on the policy. Both
      policies return the append merge; only the update policy can raise, and only on a
      download that repeats a date on an index other than the cached one. */
  function MergeWith(policy: MergePolicy, existing: Series, incoming: Series): (r: Result<Series, MergeError>)
    ensures r.Ok? ==> r.value == AppendMerge(existing, incoming)
    ensures r.Err? <==> policy == UpdatePolicy && UpdateRaises(existing, incoming)
  {
    match policy
    case AppendPolicy => Ok(AppendMerge(existing, incoming))
    case UpdatePolicy =>
      match UpdateMerge(existing, incoming)
      case Ok(u) => Ok(u.merged)
      case Err(e) => Err(e)
  }
}
