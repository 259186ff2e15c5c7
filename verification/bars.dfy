/** Bars and bar series: the daily price/volume rows that every other module exchanges. */
module Bars {
  import opened Wrappers

  /** A calendar day as a day number. The source keeps dates as `YYYY-MM-DD` strings or
      timestamps; for years 1000..9999 comparing those strings orders them as day numbers do. */
  type Day = int

  /** One row of a price table, keyed by its date. A missing cell (NaN) is `None`. */
  datatype Bar = Bar(
    date: Day,
    open: Option<real>,
    high: Option<real>,
    low: Option<real>,
    close: Option<real>,
    volume: Option<real>)

  /** A price table in row order. Nothing forces the rows to be sorted or their dates unique:
      that is what the merge strategies establish. */
  type Series = seq<Bar>

  /** The set of dates (index labels) of a series. */
  function Dates(s: Series): set<Day>
  {
    set b | b in s :: b.date
  }

  /** Dates strictly increase along the series: sorted and free of duplicates. */
  predicate Ascending(s: Series)
  {
    forall i, j :: 0 <= i < j < |s| ==> s[i].date < s[j].date
  }

  /** No date occurs twice, in whatever order the rows come. */
  predicate DistinctDates(s: Series)
  {
    forall i, j :: 0 <= i < j < |s| ==> s[i].date != s[j].date
  }

  /** The series read as a mapping from date to bar, where a later row overrides an earlier
      row with the same date (the reading pandas' `duplicated(keep="last")` keeps). */
  function AsMap(s: Series): (m: map<Day, Bar>)
    ensures m.Keys == Dates(s)
  {
    if |s| == 0 then map[]
    else
      var m := map[s[0].date := s[0]] + AsMap(s[1..]);
      assert Dates(s) == {s[0].date} + Dates(s[1..]) by {
        assert s == [s[0]] + s[1..];
      }
      m
  }

  lemma DatesSplit(s: Series)
    requires |s| > 0
    ensures Dates(s) == {s[0].date} + Dates(s[1..])
  {
    assert s == [s[0]] + s[1..];
  }

  lemma DatesConcat(a: Series, b: Series)
    ensures Dates(a + b) == Dates(a) + Dates(b)
  {
    assert forall x :: x in a + b <==> x in a || x in b;
  }

  /** Reading a concatenation as a map is the right-biased union of the two readings:
      on a shared date the second series wins. */
  lemma {:induction false} AsMapConcat(a: Series, b: Series)
    ensures AsMap(a + b) == AsMap(a) + AsMap(b)
  {
    if |a| == 0 {
      assert a + b == b;
    } else {
      assert (a + b)[1..] == a[1..] + b;
      AsMapConcat(a[1..], b);
      MapUnionAssociative(map[a[0].date := a[0]], AsMap(a[1..]), AsMap(b));
    }
  }

  lemma MapUnionAssociative<K, V>(x: map<K, V>, y: map<K, V>, z: map<K, V>)
    ensures x + (y + z) == (x + y) + z
  {
  }

  /** In a series with unique dates, the bar the map reading gives for a row's date is that row. */
  lemma {:induction false} AsMapOfDistinct(s: Series, i: int)
    requires DistinctDates(s)
    requires 0 <= i < |s|
    ensures AsMap(s)[s[i].date] == s[i]
  {
    if i == 0 {
      DatesSplit(s);
      assert s[0].date !in Dates(s[1..]) by {
        forall b | b in s[1..] ensures b.date != s[0].date {
          var k :| 0 <= k < |s[1..]| && s[1..][k] == b;
          assert s[k + 1] == b;
        }
      }
    } else {
      AsMapOfDistinct(s[1..], i - 1);
      assert s[1..][i - 1] == s[i];
    }
  }

  /** A series with unique dates has exactly as many rows as dates. */
  lemma {:induction false} DistinctCardinality(s: Series)
    requires DistinctDates(s)
    ensures |Dates(s)| == |s|
  {
    if |s| > 0 {
      DatesSplit(s);
      assert s[0].date !in Dates(s[1..]) by {
        forall b | b in s[1..] ensures b.date != s[0].date {
          var k :| 0 <= k < |s[1..]| && s[1..][k] == b;
          assert s[k + 1] == b;
        }
      }
      DistinctCardinality(s[1..]);
    }
  }

  /** Every date of a series has at least one row, so |Dates(s)| never exceeds |s|. */
  lemma {:induction false} DatesCardinalityBound(s: Series)
    ensures |Dates(s)| <= |s|
  {
    if |s| > 0 {
      DatesSplit(s);
      DatesCardinalityBound(s[1..]);
    }
  }

  /** An ascending series is determined by its map reading: the rows are the map's values
      listed in date order, so two ascending series that agree as maps are the same series. */
  lemma {:induction false} AscendingDeterminedByMap(a: Series, b: Series)
    requires Ascending(a) && Ascending(b)
    requires AsMap(a) == AsMap(b)
    ensures a == b
  {
    HeadDateInMap(a);
    HeadDateInMap(b);
    if |a| == 0 || |b| == 0 {
    } else {
      // The first row of each holds the least date of the common key set.
      assert a[0].date in Dates(b);
      assert b[0].date in Dates(a);
      MinimumIsHead(a, b[0].date);
      MinimumIsHead(b, a[0].date);
      assert a[0].date == b[0].date;
      AscendingIsDistinct(a);
      AscendingIsDistinct(b);
      AsMapOfDistinct(a, 0);
      AsMapOfDistinct(b, 0);
      assert a[0] == b[0];
      TailMap(a);
      TailMap(b);
      AscendingDeterminedByMap(a[1..], b[1..]);
      assert a == [a[0]] + a[1..];
      assert b == [b[0]] + b[1..];
    }
  }

  lemma HeadDateInMap(s: Series)
    ensures |s| > 0 ==> s[0].date in AsMap(s)
  {
    if |s| > 0 {
      assert s[0] in s;
    }
  }

  lemma MinimumIsHead(s: Series, d: Day)
    requires Ascending(s) && |s| > 0
    requires d in Dates(s)
    ensures s[0].date <= d
  {
    var k :| 0 <= k < |s| && s[k].date == d;
  }

  lemma AscendingIsDistinct(s: Series)
    requires Ascending(s)
    ensures DistinctDates(s)
  {
  }

  /** Dropping the head of an ascending series drops exactly its date from the map reading. */
  lemma TailMap(s: Series)
    requires Ascending(s) && |s| > 0
    ensures AsMap(s[1..]) == AsMap(s) - {s[0].date}
  {
    DatesSplit(s);
    assert s[0].date !in Dates(s[1..]) by {
      forall b | b in s[1..] ensures b.date != s[0].date {
        var k :| 0 <= k < |s[1..]| && s[1..][k] == b;
        assert s[k + 1] == b;
      }
    }
  }
}
