/**
 * The read-only queries of the store (tvmodule.cpp specificDayShow,
 * maxShow, minShow, averageShow, broadcastSummary), as functions of the
 * show and channel collections, with the properties their results have.
 */
module Queries {
  import opened Wrappers
  import opened Text
  import opened Numbers
  import opened Records

  /** `INT_MAX`, the starting value of minShow's scan. */
  const IntMax: int := 0x7fff_ffff

  // ---------------------------------------------------------------- day query

  /** Does the show run on `day`, ignoring case? */
  predicate OnDayPred(s: Show, day: string)
  {
    ToLower(s.dayOfWeek) == ToLower(day)
  }

  /** The shows on `day`, in store order (the selection loop of specificDayShow). */
  function OnDay(programs: seq<Show>, day: string): (r: seq<Show>)
    ensures |r| <= |programs|
  {
    if programs == [] then []
    else
      var front := programs[..|programs| - 1];
      var last := programs[|programs| - 1];
      assert programs == front + [last];
      if OnDayPred(last, day) then OnDay(front, day) + [last] else OnDay(front, day)
  }

  /** The selection holds exactly the shows on `day`, each no more often than the store does. */
  lemma {:induction false} OnDayMembers(programs: seq<Show>, day: string)
    ensures forall s :: s in OnDay(programs, day) <==> s in programs && OnDayPred(s, day)
    ensures multiset(OnDay(programs, day)) <= multiset(programs)
  {
    if programs != [] {
      var front := programs[..|programs| - 1];
      assert programs == front + [programs[|programs| - 1]];
      OnDayMembers(front, day);
    }
  }

  /**
   * The selection keeps store order and every repetition: it distributes
   * over concatenation, and one show is kept exactly when it is on `day`.
   */
  lemma {:induction false} OnDayConcat(a: seq<Show>, b: seq<Show>, day: string)
    ensures OnDay(a + b, day) == OnDay(a, day) + OnDay(b, day)
  {
    if b == [] {
      assert a + b == a;
    } else {
      var front := b[..|b| - 1];
      assert (a + b)[..|a + b| - 1] == a + front;
      assert (a + b)[|a + b| - 1] == b[|b| - 1];
      OnDayConcat(a, front, day);
    }
  }

  /** The day query ignores case: asking for "MONDAY" selects what "monday" does. */
  lemma {:induction false} OnDayIgnoresCase(programs: seq<Show>, day: string)
    ensures OnDay(programs, ToLower(day)) == OnDay(programs, day)
  {
    if programs != [] {
      ToLowerIdempotent(day);
      OnDayIgnoresCase(programs[..|programs| - 1], day);
    }
  }

  /** A single show is selected exactly when it runs on `day`. */
  lemma OnDayOne(s: Show, day: string)
    ensures OnDay([s], day) == if OnDayPred(s, day) then [s] else []
  {
    assert [s][..0] == [];
  }

  /** The sort's comparator: `a` starts strictly before `b`. */
  predicate StartsBefore(a: Show, b: Show)
  {
    if a.startHour != b.startHour then a.startHour < b.startHour else a.startMinute < b.startMinute
  }

  /** Non-decreasing by (startHour, startMinute). */
  predicate SortedByStart(r: seq<Show>)
  {
    forall i, j :: 0 <= i < j < |r| ==> !StartsBefore(r[j], r[i])
  }

  /** Inserts `x` after every show that does not start after it. */
  function InsertByStart(sorted: seq<Show>, x: Show): (r: seq<Show>)
    requires SortedByStart(sorted)
    ensures SortedByStart(r)
    ensures multiset(r) == multiset(sorted) + multiset{x}
  {
    if sorted == [] || StartsBefore(x, sorted[0]) then [x] + sorted
    else
      var rest := InsertByStart(sorted[1..], x);
      assert sorted == [sorted[0]] + sorted[1..];
      NotBeforeHead(sorted, x, rest);
      [sorted[0]] + rest
  }

  /** Nothing in a rearrangement of the tail plus a later `x` starts before the head. */
  lemma NotBeforeHead(sorted: seq<Show>, x: Show, rest: seq<Show>)
    requires sorted != [] && SortedByStart(sorted) && !StartsBefore(x, sorted[0])
    requires multiset(rest) == multiset(sorted[1..]) + multiset{x}
    ensures forall j :: 0 <= j < |rest| ==> !StartsBefore(rest[j], sorted[0])
  {
    forall j | 0 <= j < |rest| ensures !StartsBefore(rest[j], sorted[0]) {
      var y := rest[j];
      assert y in multiset(rest);
      if y != x {
        assert y in multiset(sorted[1..]);
        var k :| 0 <= k < |sorted[1..]| && sorted[1..][k] == y;
        assert sorted[k + 1] == y;
      }
    }
  }

  // ------------------------------------------------------- longest / shortest

  /** maxShow's first loop: the running maximum starting from 0. */
  function MaxDuration(programs: seq<Show>): (m: int)
    ensures m >= 0
    ensures forall i :: 0 <= i < |programs| ==> programs[i].duration <= m
    ensures m == 0 || exists i :: 0 <= i < |programs| && programs[i].duration == m
  {
    if programs == [] then 0
    else
      var front := programs[..|programs| - 1];
      var d := programs[|programs| - 1].duration;
      var m := MaxDuration(front);
      assert forall i :: 0 <= i < |front| ==> front[i] == programs[i];
      if d > m then d else m
  }

  /** minShow's first loop: the running minimum starting from INT_MAX. */
  function MinDuration(programs: seq<Show>): (m: int)
    ensures m <= IntMax
    ensures forall i :: 0 <= i < |programs| ==> m <= programs[i].duration
    ensures m == IntMax || exists i :: 0 <= i < |programs| && programs[i].duration == m
  {
    if programs == [] then IntMax
    else
      var front := programs[..|programs| - 1];
      var d := programs[|programs| - 1].duration;
      var m := MinDuration(front);
      assert forall i :: 0 <= i < |front| ==> front[i] == programs[i];
      if d < m then d else m
  }

  /** The second loop of maxShow and minShow: the shows of exactly this duration, in store order. */
  function WithDuration(programs: seq<Show>, d: int): (r: seq<Show>)
    ensures |r| <= |programs|
    ensures forall s :: s in r <==> s in programs && s.duration == d
  {
    if programs == [] then []
    else
      var front := programs[..|programs| - 1];
      var last := programs[|programs| - 1];
      assert programs == front + [last];
      if last.duration == d then WithDuration(front, d) + [last] else WithDuration(front, d)
  }

  /** maxShow lists exactly the shows of the greatest duration. */
  lemma LongestShows(programs: seq<Show>)
    ensures forall s :: s in WithDuration(programs, MaxDuration(programs)) ==>
      forall i :: 0 <= i < |programs| ==> programs[i].duration <= s.duration
    ensures forall i :: 0 <= i < |programs| && programs[i].duration == MaxDuration(programs) ==>
      programs[i] in WithDuration(programs, MaxDuration(programs))
  {
  }

  /**
   * maxShow lists at least one show when some duration is not negative
   * (every show added through the store has a positive one).
   */
  lemma LongestShowsNonEmpty(programs: seq<Show>, i: nat)
    requires i < |programs| && programs[i].duration >= 0
    ensures WithDuration(programs, MaxDuration(programs)) != []
  {
    var m := MaxDuration(programs);
    if m == 0 {
      assert programs[i] in WithDuration(programs, m);
    } else {
      var k :| 0 <= k < |programs| && programs[k].duration == m;
      assert programs[k] in WithDuration(programs, m);
    }
  }

  /** Because the scan starts from 0, a store whose durations are all negative lists no longest show. */
  lemma LongestShowsAllNegative(programs: seq<Show>)
    requires forall i :: 0 <= i < |programs| ==> programs[i].duration < 0
    ensures WithDuration(programs, MaxDuration(programs)) == []
  {
    var r := WithDuration(programs, MaxDuration(programs));
    assert forall s :: s in r ==> s.duration >= 0;
    assert forall s :: s in programs ==> s.duration < 0;
  }

  /** minShow lists exactly the shows of the least duration. */
  lemma ShortestShows(programs: seq<Show>)
    ensures forall s :: s in WithDuration(programs, MinDuration(programs)) ==>
      forall i :: 0 <= i < |programs| ==> s.duration <= programs[i].duration
    ensures forall i :: 0 <= i < |programs| && programs[i].duration == MinDuration(programs) ==>
      programs[i] in WithDuration(programs, MinDuration(programs))
  {
  }

  /** minShow lists at least one show when some duration fits an `int`. */
  lemma ShortestShowsNonEmpty(programs: seq<Show>, i: nat)
    requires i < |programs| && programs[i].duration <= IntMax
    ensures WithDuration(programs, MinDuration(programs)) != []
  {
    var m := MinDuration(programs);
    if m == IntMax {
      assert programs[i] in WithDuration(programs, m);
    } else {
      var k :| 0 <= k < |programs| && programs[k].duration == m;
      assert programs[k] in WithDuration(programs, m);
    }
  }

  /** Selecting by duration keeps store order: it distributes over concatenation. */
  lemma {:induction false} WithDurationConcat(a: seq<Show>, b: seq<Show>, d: int)
    ensures WithDuration(a + b, d) == WithDuration(a, d) + WithDuration(b, d)
  {
    if b == [] {
      assert a + b == a;
    } else {
      var front := b[..|b| - 1];
      assert (a + b)[..|a + b| - 1] == a + front;
      assert (a + b)[|a + b| - 1] == b[|b| - 1];
      WithDurationConcat(a, front, d);
    }
  }

  // ------------------------------------------------------------------ average

  /** Sum and number of the durations of the shows in `category` (averageShow's loop). */
  function CategoryTotals(programs: seq<Show>, category: string): (r: (int, nat))
    ensures r.1 <= |programs|
    ensures r.1 == 0 <==> forall i :: 0 <= i < |programs| ==> programs[i].category != category
    ensures (forall i :: 0 <= i < |programs| ==> programs[i].duration > 0) ==> r.0 >= r.1
  {
    if programs == [] then (0, 0)
    else
      var front := programs[..|programs| - 1];
      var last := programs[|programs| - 1];
      var t := CategoryTotals(front, category);
      assert forall i :: 0 <= i < |front| ==> front[i] == programs[i];
      if last.category == category then (t.0 + last.duration, t.1 + 1) else t
  }

  /** Every show counted lies between `lo` and `hi`, so the average does too. */
  lemma {:induction false} CategoryTotalsBounds(programs: seq<Show>, category: string, lo: int, hi: int)
    requires forall i :: 0 <= i < |programs| && programs[i].category == category ==> lo <= programs[i].duration <= hi
    ensures lo * CategoryTotals(programs, category).1 <= CategoryTotals(programs, category).0
    ensures CategoryTotals(programs, category).0 <= hi * CategoryTotals(programs, category).1
  {
    if programs != [] {
      var front := programs[..|programs| - 1];
      var last := programs[|programs| - 1];
      assert forall i :: 0 <= i < |front| ==> front[i] == programs[i];
      CategoryTotalsBounds(front, category, lo, hi);
      var t := CategoryTotals(front, category);
      var r := CategoryTotals(programs, category);
      if last.category == category {
        assert r == (t.0 + last.duration, t.1 + 1);
        MulStep(lo, t.1);
        MulStep(hi, t.1);
      } else {
        assert r == t;
      }
    }
  }

  lemma MulStep(a: int, n: int)
    ensures a * (n + 1) == a * n + a
  {
  }

  /** The totals of two runs of shows add up: the loop's sum and count are additive. */
  lemma {:induction false} CategoryTotalsConcat(a: seq<Show>, b: seq<Show>, category: string)
    ensures CategoryTotals(a + b, category).0 == CategoryTotals(a, category).0 + CategoryTotals(b, category).0
    ensures CategoryTotals(a + b, category).1 == CategoryTotals(a, category).1 + CategoryTotals(b, category).1
  {
    if b == [] {
      assert a + b == a;
    } else {
      var front := b[..|b| - 1];
      assert (a + b)[..|a + b| - 1] == a + front;
      assert (a + b)[|a + b| - 1] == b[|b| - 1];
      CategoryTotalsConcat(a, front, category);
    }
  }

  /** One show adds its duration and 1 when it is in the category, and nothing otherwise. */
  lemma CategoryTotalsOne(s: Show, category: string)
    ensures CategoryTotals([s], category) == if s.category == category then (s.duration, 1) else (0, 0)
  {
    assert [s][..0] == [];
  }

  /** News 30, Sports 60, News 50: News totals 80 minutes over 2 shows, an average of 40. */
  lemma CategoryTotalsExample()
    ensures CategoryTotals([Show("a", "News", 9, 0, 30, "Mon", "1"), Show("b", "Sports", 10, 0, 60, "Mon", "1"),
                            Show("c", "News", 11, 0, 50, "Mon", "1")], "News") == (80, 2)
  {
    var x, y, z := Show("a", "News", 9, 0, 30, "Mon", "1"), Show("b", "Sports", 10, 0, 60, "Mon", "1"),
                   Show("c", "News", 11, 0, 50, "Mon", "1");
    assert "Sports" != "News";
    CategoryTotalsOne(x, "News");
    CategoryTotalsOne(y, "News");
    CategoryTotalsOne(z, "News");
    CategoryTotalsConcat([x], [y], "News");
    assert [x] + [y] == [x, y];
    CategoryTotalsConcat([x, y], [z], "News");
    assert [x, y] + [z] == [x, y, z];
  }

  // -------------------------------------------------------- broadcast summary

  /** Index of the first channel with this code (the inner loop's `break`). */
  function FirstWithCode(channels: seq<Channel>, code: string): (r: Option<nat>)
    ensures r.None? <==> forall j :: 0 <= j < |channels| ==> channels[j].code != code
    ensures r.Some? ==> r.value < |channels| && channels[r.value].code == code
    ensures r.Some? ==> forall k :: 0 <= k < r.value ==> channels[k].code != code
  {
    if channels == [] then None
    else if channels[0].code == code then Some(0)
    else match FirstWithCode(channels[1..], code)
      case None => None
      case Some(k) => Some(k + 1)
  }

  /** The name a show is counted under: that of the first channel with its code, if any. */
  function CountedUnder(channels: seq<Channel>, s: Show): Option<string>
  {
    match FirstWithCode(channels, s.channelCode)
    case None => None
    case Some(j) => Some(channels[j].name)
  }

  /** `std::string`'s `<`: lexicographic by character. */
  predicate LexLess(a: string, b: string)
  {
    if a == [] then b != []
    else b != [] && (a[0] < b[0] || (a[0] == b[0] && LexLess(a[1..], b[1..])))
  }

  lemma {:induction false} LexLessIrreflexive(a: string)
    ensures !LexLess(a, a)
  {
    if a != [] { LexLessIrreflexive(a[1..]); }
  }

  lemma {:induction false} LexLessTransitive(a: string, b: string, c: string)
    requires LexLess(a, b) && LexLess(b, c)
    ensures LexLess(a, c)
  {
    if a != [] && a[0] == b[0] && b[0] == c[0] {
      LexLessTransitive(a[1..], b[1..], c[1..]);
    }
  }

  lemma {:induction false} LexLessTotal(a: string, b: string)
    requires a != b
    ensures LexLess(a, b) || LexLess(b, a)
  {
    if a != [] && b != [] && a[0] == b[0] {
      assert a == [a[0]] + a[1..] && b == [b[0]] + b[1..];
      LexLessTotal(a[1..], b[1..]);
    }
  }

  /** One line of the summary: a channel name and its count (std::map<string, int> entry). */
  datatype Entry = Entry(name: string, count: nat)

  /** The entries in the map's key order, each name once. */
  predicate StrictlySorted(entries: seq<Entry>)
  {
    forall i, j :: 0 <= i < j < |entries| ==> LexLess(entries[i].name, entries[j].name)
  }

  /** The count stored under `name`, 0 when absent. */
  function Lookup(entries: seq<Entry>, name: string): nat
  {
    if entries == [] then 0
    else if entries[0].name == name then entries[0].count
    else Lookup(entries[1..], name)
  }

  /** The sum of all counts. */
  function Total(entries: seq<Entry>): nat
  {
    if entries == [] then 0 else entries[0].count + Total(entries[1..])
  }

  lemma {:induction false} LookupAbsent(entries: seq<Entry>, name: string)
    requires forall i :: 0 <= i < |entries| ==> entries[i].name != name
    ensures Lookup(entries, name) == 0
  {
    if entries != [] { LookupAbsent(entries[1..], name); }
  }

  /** A name below the first key of a sorted map is below every key. */
  lemma BelowAllKeys(entries: seq<Entry>, name: string)
    requires entries != [] && StrictlySorted(entries) && LexLess(name, entries[0].name)
    ensures forall i :: 0 <= i < |entries| ==> LexLess(name, entries[i].name) && entries[i].name != name
  {
    LexLessIrreflexive(name);
    forall i | 0 < i < |entries| ensures LexLess(name, entries[i].name) {
      LexLessTransitive(name, entries[0].name, entries[i].name);
    }
  }

  /** `counts[name]++` on the ordered map: insert with 1 or add one, keeping key order. */
  function Bump(entries: seq<Entry>, name: string): (r: seq<Entry>)
    requires StrictlySorted(entries)
    ensures StrictlySorted(r)
    ensures forall e :: e in r ==> e.name == name || e in entries
    ensures (forall e :: e in entries ==> e.count >= 1) ==> forall e :: e in r ==> e.count >= 1
  {
    if entries == [] then [Entry(name, 1)]
    else if entries[0].name == name then [Entry(name, entries[0].count + 1)] + entries[1..]
    else if LexLess(name, entries[0].name) then
      BelowAllKeys(entries, name);
      [Entry(name, 1)] + entries
    else
      var rest := Bump(entries[1..], name);
      LexLessTotal(name, entries[0].name);
      AboveHead(entries, name, rest);
      [entries[0]] + rest
  }

  /** The head of a sorted map is below every key of the bumped tail. */
  lemma AboveHead(entries: seq<Entry>, name: string, rest: seq<Entry>)
    requires entries != [] && StrictlySorted(entries) && LexLess(entries[0].name, name)
    requires forall e :: e in rest ==> e.name == name || e in entries[1..]
    ensures forall j :: 0 <= j < |rest| ==> LexLess(entries[0].name, rest[j].name)
  {
    forall j | 0 <= j < |rest| ensures LexLess(entries[0].name, rest[j].name) {
      if rest[j].name != name {
        var i :| 0 <= i < |entries[1..]| && entries[1..][i] == rest[j];
        assert entries[i + 1] == rest[j];
      }
    }
  }

  /** Bumping adds one under `name`, leaves every other count alone, and adds one to the total. */
  lemma {:induction false} BumpCounts(entries: seq<Entry>, name: string)
    requires StrictlySorted(entries)
    ensures Lookup(Bump(entries, name), name) == Lookup(entries, name) + 1
    ensures forall n :: n != name ==> Lookup(Bump(entries, name), n) == Lookup(entries, n)
    ensures Total(Bump(entries, name)) == Total(entries) + 1
  {
    if entries == [] {
    } else if entries[0].name == name {
    } else if LexLess(name, entries[0].name) {
      BelowAllKeys(entries, name);
      LookupAbsent(entries, name);
    } else {
      BumpCounts(entries[1..], name);
    }
  }

  /** broadcastSummary's counting loop over the shows. */
  function Tally(programs: seq<Show>, channels: seq<Channel>): (r: seq<Entry>)
    ensures StrictlySorted(r)
    ensures forall e :: e in r ==> e.count >= 1 && exists j :: 0 <= j < |channels| && channels[j].name == e.name
  {
    if programs == [] then []
    else
      var t := Tally(programs[..|programs| - 1], channels);
      match CountedUnder(channels, programs[|programs| - 1])
      case None => t
      case Some(n) => Bump(t, n)
  }

  /** How many shows are counted under `name`. */
  function CountUnder(programs: seq<Show>, channels: seq<Channel>, name: string): (c: nat)
    ensures c <= |programs|
  {
    if programs == [] then 0
    else
      CountUnder(programs[..|programs| - 1], channels, name)
        + (if CountedUnder(channels, programs[|programs| - 1]) == Some(name) then 1 else 0)
  }

  /** How many shows have a channel at all. */
  function CountResolved(programs: seq<Show>, channels: seq<Channel>): (c: nat)
    ensures c <= |programs|
  {
    if programs == [] then 0
    else
      CountResolved(programs[..|programs| - 1], channels)
        + (if CountedUnder(channels, programs[|programs| - 1]).Some? then 1 else 0)
  }

  /**
   * The summary counts each show once, under the first channel with its
   * code: the count for a name is the number of shows resolved to it, and
   * the counts add up to the number of shows with a channel, never more
   * than the number of shows.
   */
  lemma {:induction false} TallyCounts(programs: seq<Show>, channels: seq<Channel>)
    ensures forall n :: Lookup(Tally(programs, channels), n) == CountUnder(programs, channels, n)
    ensures Total(Tally(programs, channels)) == CountResolved(programs, channels) <= |programs|
  {
    if programs != [] {
      var front := programs[..|programs| - 1];
      TallyCounts(front, channels);
      match CountedUnder(channels, programs[|programs| - 1])
      case None =>
      case Some(n) => BumpCounts(Tally(front, channels), n);
    }
  }

  /** The lines written to the summary file, in key order. */
  function SummaryLines(entries: seq<Entry>): (r: seq<string>)
    ensures |r| == |entries|
    ensures forall i :: 0 <= i < |entries| ==> r[i] == entries[i].name + " " + IntToString(entries[i].count)
  {
    if entries == [] then [] else [entries[0].name + " " + IntToString(entries[0].count)] + SummaryLines(entries[1..])
  }

}
