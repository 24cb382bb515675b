/**
 * Grouping of stored check-ins into clinics (`_update_clinic_aggregations`)
 * and the statistics computed for each group
 * (`_aggregate_clinic_data_from_list`).
 *
 * A Python dictionary keyed by group key, iterated in insertion order, is a
 * sequence of `ClinicData` whose `clinicId`s are the keys in that order.
 */
module Aggregation {
  import opened Common
  import opened ClinicKeys

  /** The aggregate of one group, without the reliability score and the
      `last_updated` time stamp. */
  datatype ClinicData = ClinicData(
    clinicId: string,
    clinicName: string,
    location: Option<Location>,
    averageWait: Option<real>,
    latestWait: Option<real>,
    currentCondition: string,
    totalReports: nat,
    recentReports: nat)

  // ---------------------------------------------------------------------
  // Python's ordering of strings

  /** `a < b` on Python strings: compare code points at the first
      difference; a proper prefix comes first. */
  predicate StrLess(a: string, b: string) {
    if b == [] then false
    else if a == [] then true
    else if a[0] != b[0] then a[0] < b[0]
    else StrLess(a[1..], b[1..])
  }

  lemma {:induction false} StrLessIrreflexive(a: string)
    ensures !StrLess(a, a)
  {
    if a != [] {
      StrLessIrreflexive(a[1..]);
    }
  }

  lemma {:induction false} StrLessTransitive(a: string, b: string, c: string)
    requires StrLess(a, b) && StrLess(b, c)
    ensures StrLess(a, c)
  {
    if a != [] && a[0] == b[0] && b[0] == c[0] {
      StrLessTransitive(a[1..], b[1..], c[1..]);
    }
  }

  lemma {:induction false} StrLessTotal(a: string, b: string)
    requires a != b
    ensures StrLess(a, b) || StrLess(b, a)
  {
    if a != [] && b != [] && a[0] == b[0] {
      assert a == [a[0]] + a[1..] && b == [b[0]] + b[1..];
      StrLessTotal(a[1..], b[1..]);
    }
  }

  /** `b <= a` in Python's string order. */
  lemma NotLessIsAtLeast(a: string, b: string, c: string)
    requires !StrLess(a, b) && StrLess(a, c)
    ensures StrLess(b, c)
  {
    if a != b {
      StrLessTotal(a, b);
      StrLessTransitive(b, a, c);
    }
  }

  // ---------------------------------------------------------------------
  // What the first pass over a group collects

  /** The `wait_time`s that are not None, in order. */
  function WaitsOf(cs: seq<Checkin>): (r: seq<real>)
    ensures |r| <= |cs|
  {
    if cs == [] then []
    else
      var last := cs[|cs| - 1];
      WaitsOf(cs[..|cs| - 1]) + (if last.waitTime.Some? then [last.waitTime.value] else [])
  }

  /** A check-in with a parsable `created_at` at most seven whole days
      old (a future time stamp counts as recent). */
  predicate IsRecent(c: Checkin) {
    c.createdAt != "" && c.ageDays.Some? && c.ageDays.value <= 7
  }

  function RecentOf(cs: seq<Checkin>): (r: seq<Checkin>)
    ensures |r| <= |cs|
    ensures forall c :: c in r ==> c in cs && IsRecent(c)
  {
    if cs == [] then []
    else
      var last := cs[|cs| - 1];
      RecentOf(cs[..|cs| - 1]) + (if IsRecent(last) then [last] else [])
  }

  /** The truthy `condition`s, in order. */
  function ConditionsOf(cs: seq<Checkin>): (r: seq<string>)
    ensures |r| <= |cs|
    ensures forall k :: k in r ==> k != ""
  {
    if cs == [] then []
    else
      var last := cs[|cs| - 1];
      ConditionsOf(cs[..|cs| - 1]) + (if last.condition.Some? && last.condition.value != "" then [last.condition.value] else [])
  }

  function Sum(xs: seq<real>): real {
    if xs == [] then 0.0 else Sum(xs[..|xs| - 1]) + xs[|xs| - 1]
  }

  /** `sum(xs) / len(xs)`, or None for an empty list. */
  function Mean(xs: seq<real>): Option<real> {
    if xs == [] then None else Some(Sum(xs) / |xs| as real)
  }

  // ---------------------------------------------------------------------
  // The most common recent condition

  /** The distinct elements of `xs` in order of first appearance: the key
      order of a dictionary filled from `xs`. */
  function Distinct(xs: seq<string>): (r: seq<string>)
    ensures forall k :: k in r <==> k in xs
    ensures forall i, j :: 0 <= i < j < |r| ==> r[i] != r[j]
  {
    if xs == [] then []
    else
      var prefix := Distinct(xs[..|xs| - 1]);
      var last := xs[|xs| - 1];
      assert forall k :: k in xs <==> k in xs[..|xs| - 1] || k == last;
      if last in prefix then prefix else prefix + [last]
  }

  /** The occurrence count of every element of `xs`. */
  function Tally(xs: seq<string>): map<string, nat> {
    if xs == [] then map[]
    else
      var counts := Tally(xs[..|xs| - 1]);
      var k := xs[|xs| - 1];
      counts[k := if k in counts then counts[k] + 1 else 1]
  }

  lemma {:induction false} TallyKeys(xs: seq<string>)
    ensures forall k :: k in Tally(xs) <==> k in xs
  {
    if xs != [] {
      var init := xs[..|xs| - 1];
      TallyKeys(init);
      assert forall k :: k in xs <==> k in init || k == xs[|xs| - 1];
    }
  }

  /** The tally holds exactly the elements of `xs`, each with its number of
      occurrences. */
  lemma {:induction false} TallyCounts(xs: seq<string>)
    ensures forall k :: k in Tally(xs) <==> k in xs
    ensures forall k :: k in Tally(xs) ==> Tally(xs)[k] == multiset(xs)[k] >= 1
  {
    if xs != [] {
      var init := xs[..|xs| - 1];
      TallyCounts(init);
      assert xs == init + [xs[|xs| - 1]];
      assert forall k :: k in xs <==> k in init || k == xs[|xs| - 1];
    }
  }

  /** Python's `max` over the items of the tally: the position of the
      first key with the largest count. */
  function MostCommonIndex(keys: seq<string>, counts: map<string, nat>): (p: nat)
    requires keys != [] && forall k :: k in keys ==> k in counts
    ensures p < |keys|
    ensures forall i :: 0 <= i < |keys| ==> counts[keys[i]] <= counts[keys[p]]
    ensures forall i :: 0 <= i < p ==> counts[keys[i]] < counts[keys[p]]
  {
    if |keys| == 1 then 0
    else
      var p := MostCommonIndex(keys[..|keys| - 1], counts);
      assert keys[..|keys| - 1][p] == keys[p];
      if counts[keys[|keys| - 1]] > counts[keys[p]] then |keys| - 1 else p
  }

  /** The key order of a prefix of `xs` is a prefix of the key order of
      `xs`. */
  lemma {:induction false} DistinctOfPrefix(xs: seq<string>, n: nat)
    requires n <= |xs|
    ensures |Distinct(xs[..n])| <= |Distinct(xs)|
    ensures Distinct(xs[..n]) == Distinct(xs)[..|Distinct(xs[..n])|]
  {
    if n < |xs| {
      var init := xs[..|xs| - 1];
      DistinctOfPrefix(init, n);
      assert init[..n] == xs[..n];
    } else {
      assert xs[..n] == xs;
    }
  }

  /** A key that comes before position `p` of the key order was first seen
      before `keys[p]`: every condition seen before the first occurrence of
      `keys[p]` sits at a position below `p`. */
  lemma SeenBeforeComesBefore(conditions: seq<string>, p: nat, i: nat)
    requires p < |Distinct(conditions)| && i < |conditions|
    requires Distinct(conditions)[p] !in conditions[..i + 1]
    ensures exists j :: 0 <= j < p && Distinct(conditions)[j] == conditions[i]
  {
    var keys := Distinct(conditions);
    DistinctOfPrefix(conditions, i + 1);
    var pre := Distinct(conditions[..i + 1]);
    assert conditions[i] in conditions[..i + 1];
    var j :| 0 <= j < |pre| && pre[j] == conditions[i];
    assert forall q :: 0 <= q < |pre| ==> keys[q] == pre[q] && pre[q] in conditions[..i + 1];
    assert keys[j] == conditions[i];
  }

  /** The most common of the given conditions, ties going to the one seen
      first; "Moderate" when there is none. */
  function CurrentCondition(conditions: seq<string>): (r: string)
    ensures conditions == [] ==> r == "Moderate"
    ensures conditions != [] ==> r in conditions
    ensures forall k :: k in conditions ==> multiset(conditions)[k] <= multiset(conditions)[r]
    ensures forall i :: 0 <= i < |conditions| && r !in conditions[..i + 1] ==>
      multiset(conditions)[conditions[i]] < multiset(conditions)[r]
  {
    var keys := Distinct(conditions);
    if keys == [] then "Moderate"
    else
      TallyCounts(conditions);
      var p := MostCommonIndex(keys, Tally(conditions));
      MostCommonInMultiset(conditions, p);
      FirstSeenWins(conditions, p);
      keys[p]
  }

  /** The tally's maximum, restated with the conditions' own occurrence
      counts. */
  lemma MostCommonInMultiset(conditions: seq<string>, p: nat)
    requires Distinct(conditions) != []
    requires forall k :: k in Distinct(conditions) ==> k in Tally(conditions)
    requires p == MostCommonIndex(Distinct(conditions), Tally(conditions))
    ensures p < |Distinct(conditions)|
    ensures forall k :: k in conditions ==> multiset(conditions)[k] <= multiset(conditions)[Distinct(conditions)[p]]
    ensures forall j :: 0 <= j < p ==>
      multiset(conditions)[Distinct(conditions)[j]] < multiset(conditions)[Distinct(conditions)[p]]
  {
    var keys := Distinct(conditions);
    var counts := Tally(conditions);
    TallyCounts(conditions);
    assert keys[p] in counts && counts[keys[p]] == multiset(conditions)[keys[p]];
    forall k | k in conditions
      ensures multiset(conditions)[k] <= multiset(conditions)[keys[p]]
    {
      var i :| 0 <= i < |keys| && keys[i] == k;
      assert counts[keys[i]] <= counts[keys[p]];
    }
    forall j | 0 <= j < p
      ensures multiset(conditions)[keys[j]] < multiset(conditions)[keys[p]]
    {
      assert counts[keys[j]] < counts[keys[p]];
    }
  }

  /** Every condition first seen before the chosen one occurs strictly
      fewer times: Python's `max` keeps the first maximal item in the
      dictionary's insertion order. */
  lemma FirstSeenWins(conditions: seq<string>, p: nat)
    requires p < |Distinct(conditions)|
    requires forall j :: 0 <= j < p ==>
      multiset(conditions)[Distinct(conditions)[j]] < multiset(conditions)[Distinct(conditions)[p]]
    ensures forall i :: 0 <= i < |conditions| && Distinct(conditions)[p] !in conditions[..i + 1] ==>
      multiset(conditions)[conditions[i]] < multiset(conditions)[Distinct(conditions)[p]]
  {
    var keys := Distinct(conditions);
    forall i | 0 <= i < |conditions| && keys[p] !in conditions[..i + 1]
      ensures multiset(conditions)[conditions[i]] < multiset(conditions)[keys[p]]
    {
      SeenBeforeComesBefore(conditions, p, i);
    }
  }

  // ---------------------------------------------------------------------
  // The most recent check-in

  /** The position of the first check-in with the greatest `created_at`,
      which is the head of the list sorted by `created_at` with
      `reverse=True` (Python's sort is stable in both directions). */
  function MostRecentIndex(cs: seq<Checkin>): (p: nat)
    requires cs != []
    ensures p < |cs|
    ensures forall i :: 0 <= i < |cs| ==> !StrLess(cs[p].createdAt, cs[i].createdAt)
    ensures forall i :: 0 <= i < p ==> StrLess(cs[i].createdAt, cs[p].createdAt)
  {
    if |cs| == 1 then
      StrLessIrreflexive(cs[0].createdAt);
      0
    else
      var init := cs[..|cs| - 1];
      var p := MostRecentIndex(init);
      var last := |cs| - 1;
      assert forall i :: 0 <= i < last ==> cs[i] == init[i];
      if StrLess(cs[p].createdAt, cs[last].createdAt) then
        assert forall i :: 0 <= i < last ==> StrLess(cs[i].createdAt, cs[last].createdAt) by {
          forall i | 0 <= i < last
            ensures StrLess(cs[i].createdAt, cs[last].createdAt)
          {
            NotLessIsAtLeast(cs[p].createdAt, cs[i].createdAt, cs[last].createdAt);
          }
        }
        assert forall i :: 0 <= i < |cs| ==> !StrLess(cs[last].createdAt, cs[i].createdAt) by {
          forall i | 0 <= i < |cs|
            ensures !StrLess(cs[last].createdAt, cs[i].createdAt)
          {
            if i == last {
              StrLessIrreflexive(cs[last].createdAt);
            } else if StrLess(cs[last].createdAt, cs[i].createdAt) {
              StrLessTransitive(cs[i].createdAt, cs[last].createdAt, cs[i].createdAt);
              StrLessIrreflexive(cs[i].createdAt);
            }
          }
        }
        last
      else
        p
  }

  // ---------------------------------------------------------------------
  // The aggregate of one group

  /** A Python number used as a truth value: zero is dropped. */
  function Truthy(x: Option<real>): (r: Option<real>)
    ensures r.Some? <==> x.Some? && x.value != 0.0
    ensures r.Some? ==> r == x
  {
    if x.Some? && x.value != 0.0 then x else None
  }

  /** `_aggregate_clinic_data_from_list` for a non-empty group: the clinic
      carries the group's id, `total_reports` is the group's size and
      `recent_reports` never exceeds it. */
  function Aggregate(clinicId: string, cs: seq<Checkin>): (r: ClinicData)
    requires cs != []
    ensures r.clinicId == clinicId
    ensures r.totalReports == |cs| && r.recentReports <= r.totalReports
  {
    ClinicData(
      clinicId,
      if cs[0].clinicName.Some? then cs[0].clinicName.value else "Unknown Clinic",
      LocationOf(cs),
      Truthy(Mean(WaitsOf(cs))),
      Truthy(LatestWaitOf(cs)),
      CurrentCondition(ConditionsOf(RecentOf(cs))),
      |cs|,
      |RecentOf(cs)|)
  }

  /** The location of the most recent check-in, or else of the first. */
  function LocationOf(cs: seq<Checkin>): Option<Location>
    requires cs != []
  {
    var mostRecent := cs[MostRecentIndex(cs)];
    if mostRecent.location.Some? then mostRecent.location else cs[0].location
  }

  /** The wait of the most recent check-in, or else the last wait reported. */
  function LatestWaitOf(cs: seq<Checkin>): Option<real>
    requires cs != []
  {
    var mostRecent := cs[MostRecentIndex(cs)];
    var waits := WaitsOf(cs);
    if mostRecent.waitTime.Some? then mostRecent.waitTime
    else if waits != [] then Some(waits[|waits| - 1])
    else None
  }

  /** The first pass of `_aggregate_clinic_data_from_list`: the wait
      times that are present and the recent check-ins. */
  method CollectWaitsAndRecent(cs: seq<Checkin>) returns (waits: seq<real>, recent: seq<Checkin>)
    ensures waits == WaitsOf(cs) && recent == RecentOf(cs)
  {
    waits, recent := [], [];
    for i := 0 to |cs|
      invariant waits == WaitsOf(cs[..i])
      invariant recent == RecentOf(cs[..i])
    {
      assert cs[..i + 1][..i] == cs[..i];
      var c := cs[i];
      if c.waitTime.Some? {
        waits := waits + [c.waitTime.value];
      }
      if IsRecent(c) {
        recent := recent + [c];
      }
    }
    assert cs[..|cs|] == cs;
  }

  /** The second pass: the count of every truthy condition among the recent
      check-ins, and the order in which the conditions first appear. */
  method CountConditions(recent: seq<Checkin>) returns (counts: map<string, nat>, order: seq<string>)
    ensures counts == Tally(ConditionsOf(recent))
    ensures order == Distinct(ConditionsOf(recent))
  {
    counts, order := map[], [];
    for i := 0 to |recent|
      invariant counts == Tally(ConditionsOf(recent[..i]))
      invariant order == Distinct(ConditionsOf(recent[..i]))
    {
      ghost var before := ConditionsOf(recent[..i]);
      ConditionsStep(recent, i);
      var c := recent[i];
      if c.condition.Some? && c.condition.value != "" {
        var k := c.condition.value;
        assert ConditionsOf(recent[..i + 1]) == before + [k];
        TallyStep(before, k);
        DistinctStep(before, k);
        TallyKeys(before);
        if k in counts {
          counts := counts[k := counts[k] + 1];
        } else {
          counts := counts[k := 1];
          order := order + [k];
        }
        assert counts == Tally(before + [k]);
      } else {
        assert ConditionsOf(recent[..i + 1]) == before;
      }
    }
    assert recent[..|recent|] == recent;
  }

  lemma TallyStep(xs: seq<string>, k: string)
    ensures Tally(xs + [k]) == Tally(xs)[k := if k in Tally(xs) then Tally(xs)[k] + 1 else 1]
  {
    assert (xs + [k])[..|xs|] == xs;
  }

  lemma ConditionsStep(cs: seq<Checkin>, i: nat)
    requires i < |cs|
    ensures ConditionsOf(cs[..i + 1]) == ConditionsOf(cs[..i])
      + (if cs[i].condition.Some? && cs[i].condition.value != "" then [cs[i].condition.value] else [])
  {
    assert cs[..i + 1][..i] == cs[..i];
  }

  /** A new element goes to the end of the key order; a known one changes
      nothing. */
  lemma DistinctStep(xs: seq<string>, k: string)
    ensures Distinct(xs + [k]) == if k in Distinct(xs) then Distinct(xs) else Distinct(xs) + [k]
  {
    assert (xs + [k])[..|xs|] == xs;
  }

  /** The current condition: the most common truthy condition among the
      recent check-ins, or "Moderate". */
  method MostCommonCondition(recent: seq<Checkin>) returns (condition: string)
    ensures condition == CurrentCondition(ConditionsOf(recent))
  {
    var counts, order := CountConditions(recent);
    condition := "Moderate";
    if order != [] {
      TallyCounts(ConditionsOf(recent));
      condition := order[MostCommonIndex(order, counts)];
    }
  }

  /** `_aggregate_clinic_data_from_list`: nothing for an empty list,
      otherwise the aggregate. */
  method AggregateClinicData(clinicId: string, cs: seq<Checkin>) returns (r: Option<ClinicData>)
    ensures cs == [] ==> r.None?
    ensures cs != [] ==> r == Some(Aggregate(clinicId, cs))
  {
    if cs == [] {
      return None;
    }
    var waits, recent := CollectWaitsAndRecent(cs);
    var condition := MostCommonCondition(recent);
    var location, latest := LocationOf(cs), LatestWaitOf(cs);
    var name := if cs[0].clinicName.Some? then cs[0].clinicName.value else "Unknown Clinic";
    r := Some(ClinicData(clinicId, name, location, Truthy(Mean(waits)), Truthy(latest), condition, |cs|, |recent|));
  }

  // ---------------------------------------------------------------------
  // Properties of one aggregate

  lemma {:induction false} SumBounds(xs: seq<real>, lo: real, hi: real)
    requires forall i :: 0 <= i < |xs| ==> lo <= xs[i] <= hi
    ensures lo * |xs| as real <= Sum(xs) <= hi * |xs| as real
  {
    if xs != [] {
      SumBounds(xs[..|xs| - 1], lo, hi);
    }
  }

  lemma {:induction false} WaitsOfBounded(cs: seq<Checkin>, lo: real, hi: real)
    requires forall c :: c in cs && c.waitTime.Some? ==> lo <= c.waitTime.value <= hi
    ensures forall i :: 0 <= i < |WaitsOf(cs)| ==> lo <= WaitsOf(cs)[i] <= hi
  {
    if cs != [] {
      var init := cs[..|cs| - 1];
      assert forall c :: c in init ==> c in cs;
      WaitsOfBounded(init, lo, hi);
    }
  }

  /** A mean lies within the range of the values averaged. */
  lemma MeanInRange(xs: seq<real>, lo: real, hi: real)
    requires forall i :: 0 <= i < |xs| ==> lo <= xs[i] <= hi
    ensures Mean(xs).Some? ==> lo <= Mean(xs).value <= hi
  {
    if xs != [] {
      SumBounds(xs, lo, hi);
      var n := |xs| as real;
      var avg := Sum(xs) / n;
      assert avg * n == Sum(xs);
      assert lo * n <= avg * n <= hi * n;
    }
  }

  /** The average and the latest wait of a group lie within the range of
      the waits reported for it. */
  lemma AggregateWaitsInRange(clinicId: string, cs: seq<Checkin>, lo: real, hi: real)
    requires cs != []
    requires forall c :: c in cs && c.waitTime.Some? ==> lo <= c.waitTime.value <= hi
    ensures Aggregate(clinicId, cs).averageWait.Some? ==> lo <= Aggregate(clinicId, cs).averageWait.value <= hi
    ensures Aggregate(clinicId, cs).latestWait.Some? ==> lo <= Aggregate(clinicId, cs).latestWait.value <= hi
  {
    WaitsOfBounded(cs, lo, hi);
    MeanInRange(WaitsOf(cs), lo, hi);
    assert cs[MostRecentIndex(cs)] in cs;
  }

  /** The latest wait is that of the most recent check-in when it reported
      a non-zero wait. */
  lemma LatestWaitIsMostRecent(clinicId: string, cs: seq<Checkin>, p: nat)
    requires p < |cs| && cs[p].waitTime.Some? && cs[p].waitTime.value != 0.0
    requires forall i :: 0 <= i < |cs| ==> !StrLess(cs[p].createdAt, cs[i].createdAt)
    requires forall i :: 0 <= i < p ==> StrLess(cs[i].createdAt, cs[p].createdAt)
    ensures Aggregate(clinicId, cs).latestWait == cs[p].waitTime
  {
    var q := MostRecentIndex(cs);
    assert q == p;
  }

  // ---------------------------------------------------------------------
  // Grouping

  /** How a check-in is assigned to a group: `None` leaves it out. The
      server groups by `ClinicKeys.GroupKey`; the grouping itself does not
      depend on how the key is computed. */
  type KeyFn = Checkin -> Option<string>

  /** The group keys of the check-ins, in order of first appearance. */
  function KeyOrder(cs: seq<Checkin>, keyOf: KeyFn): (r: seq<string>)
    ensures forall i, j :: 0 <= i < j < |r| ==> r[i] != r[j]
  {
    if cs == [] then []
    else
      var prefix := KeyOrder(cs[..|cs| - 1], keyOf);
      var key := keyOf(cs[|cs| - 1]);
      if key.None? || key.value in prefix then prefix else prefix + [key.value]
  }

  /** The keys are exactly those of the named check-ins. */
  lemma {:induction false} KeyOrderMembers(cs: seq<Checkin>, keyOf: KeyFn)
    ensures forall k :: k in KeyOrder(cs, keyOf) <==> exists c :: c in cs && keyOf(c) == Some(k)
  {
    if cs != [] {
      var init := cs[..|cs| - 1];
      var last := cs[|cs| - 1];
      KeyOrderMembers(init, keyOf);
      assert forall c :: c in cs <==> c in init || c == last;
    }
  }

  /** The check-ins whose group key is `key`, in order. */
  function GroupOf(cs: seq<Checkin>, keyOf: KeyFn, key: string): (r: seq<Checkin>)
    ensures |r| <= |cs|
  {
    if cs == [] then []
    else GroupOf(cs[..|cs| - 1], keyOf, key) + (if keyOf(cs[|cs| - 1]) == Some(key) then [cs[|cs| - 1]] else [])
  }

  /** A group holds exactly the check-ins with its key. */
  lemma {:induction false} GroupOfMembers(cs: seq<Checkin>, keyOf: KeyFn, key: string)
    ensures forall c :: c in GroupOf(cs, keyOf, key) <==> c in cs && keyOf(c) == Some(key)
  {
    if cs != [] {
      var init := cs[..|cs| - 1];
      var last := cs[|cs| - 1];
      GroupOfMembers(init, keyOf, key);
      assert forall c :: c in cs <==> c in init || c == last;
    }
  }

  /** The aggregates `_update_clinic_aggregations` stores, in key order. */
  function Aggregations(cs: seq<Checkin>, keyOf: KeyFn): (r: seq<ClinicData>)
    ensures |r| == |KeyOrder(cs, keyOf)|
  {
    var keys := KeyOrder(cs, keyOf);
    seq(|keys|, n requires 0 <= n < |keys| =>
      var g := GroupOf(cs, keyOf, keys[n]);
      if g == [] then ClinicData(keys[n], "", None, None, None, "", 0, 0) else Aggregate(keys[n], g))
  }

  /** The grouping loop of `_update_clinic_aggregations`: the group of
      every key, and the keys in order of first appearance. */
  method GroupCheckins(cs: seq<Checkin>, keyOf: KeyFn) returns (groups: map<string, seq<Checkin>>, keys: seq<string>)
    ensures keys == KeyOrder(cs, keyOf)
    ensures forall k :: k in groups <==> k in keys
    ensures forall k :: k in groups ==> groups[k] == GroupOf(cs, keyOf, k)
  {
    groups, keys := map[], [];
    for i := 0 to |cs|
      invariant GroupsOf(cs[..i], keyOf, groups, keys)
    {
      ghost var before := cs[..i];
      assert cs[..i + 1] == before + [cs[i]];
      var key := keyOf(cs[i]);
      if key.Some? {
        if key.value in groups {
          GroupsStepOld(before, keyOf, cs[i], groups, keys, key.value);
          groups := groups[key.value := groups[key.value] + [cs[i]]];
        } else {
          GroupsStepNew(before, keyOf, cs[i], groups, keys, key.value);
          groups := groups[key.value := [cs[i]]];
          keys := keys + [key.value];
        }
      } else {
        GroupsStepNone(before, keyOf, cs[i], groups, keys);
      }
    }
    assert cs[..|cs|] == cs;
  }

  /** `groups` and `keys` are what the grouping loop holds after `cs`. */
  ghost predicate GroupsOf(cs: seq<Checkin>, keyOf: KeyFn, groups: map<string, seq<Checkin>>, keys: seq<string>) {
    && keys == KeyOrder(cs, keyOf)
    && (forall k :: k in groups <==> k in keys)
    && (forall k :: k in groups ==> groups[k] == GroupOf(cs, keyOf, k))
  }

  lemma GroupsStepNone(cs: seq<Checkin>, keyOf: KeyFn, c: Checkin, groups: map<string, seq<Checkin>>, keys: seq<string>)
    requires GroupsOf(cs, keyOf, groups, keys) && keyOf(c).None?
    ensures GroupsOf(cs + [c], keyOf, groups, keys)
  {
    KeyOrderStep(cs, keyOf, c);
    forall k | k in groups
      ensures groups[k] == GroupOf(cs + [c], keyOf, k)
    {
      GroupOfStep(cs, keyOf, c, k);
    }
  }

  lemma GroupsStepOld(cs: seq<Checkin>, keyOf: KeyFn, c: Checkin, groups: map<string, seq<Checkin>>, keys: seq<string>, key: string)
    requires GroupsOf(cs, keyOf, groups, keys) && keyOf(c) == Some(key) && key in groups
    ensures GroupsOf(cs + [c], keyOf, groups[key := groups[key] + [c]], keys)
  {
    KeyOrderStep(cs, keyOf, c);
    var after := groups[key := groups[key] + [c]];
    forall k | k in after
      ensures after[k] == GroupOf(cs + [c], keyOf, k)
    {
      GroupOfStep(cs, keyOf, c, k);
    }
  }

  lemma GroupsStepNew(cs: seq<Checkin>, keyOf: KeyFn, c: Checkin, groups: map<string, seq<Checkin>>, keys: seq<string>, key: string)
    requires GroupsOf(cs, keyOf, groups, keys) && keyOf(c) == Some(key) && key !in groups
    ensures GroupsOf(cs + [c], keyOf, groups[key := [c]], keys + [key])
  {
    KeyOrderStep(cs, keyOf, c);
    NewKeyHasEmptyGroup(cs, keyOf, key);
    var after := groups[key := [c]];
    forall k | k in after
      ensures after[k] == GroupOf(cs + [c], keyOf, k)
    {
      GroupOfStep(cs, keyOf, c, k);
    }
  }

  lemma KeyOrderStep(cs: seq<Checkin>, keyOf: KeyFn, c: Checkin)
    ensures KeyOrder(cs + [c], keyOf) ==
      if keyOf(c).None? || keyOf(c).value in KeyOrder(cs, keyOf) then KeyOrder(cs, keyOf) else KeyOrder(cs, keyOf) + [keyOf(c).value]
  {
    assert (cs + [c])[..|cs|] == cs;
  }

  lemma GroupOfStep(cs: seq<Checkin>, keyOf: KeyFn, c: Checkin, key: string)
    ensures GroupOf(cs + [c], keyOf, key) == GroupOf(cs, keyOf, key) + (if keyOf(c) == Some(key) then [c] else [])
  {
    assert (cs + [c])[..|cs|] == cs;
  }

  lemma NewKeyHasEmptyGroup(cs: seq<Checkin>, keyOf: KeyFn, key: string)
    requires key !in KeyOrder(cs, keyOf)
    ensures GroupOf(cs, keyOf, key) == []
  {
    KeyOrderMembers(cs, keyOf);
    GroupOfMembers(cs, keyOf, key);
  }

  lemma AggregationsAt(cs: seq<Checkin>, keyOf: KeyFn, j: nat)
    requires j < |KeyOrder(cs, keyOf)| && GroupOf(cs, keyOf, KeyOrder(cs, keyOf)[j]) != []
    ensures Aggregations(cs, keyOf)[j] == Aggregate(KeyOrder(cs, keyOf)[j], GroupOf(cs, keyOf, KeyOrder(cs, keyOf)[j]))
  {
  }

  /** `_update_clinic_aggregations`: group the named check-ins by key,
      then aggregate every group. */
  method UpdateClinicAggregations(cs: seq<Checkin>) returns (clinics: seq<ClinicData>)
    ensures clinics == Aggregations(cs, GroupKey)
  {
    var groups, keys := GroupCheckins(cs, GroupKey);
    clinics := [];
    for j := 0 to |keys|
      invariant clinics == Aggregations(cs, GroupKey)[..j]
    {
      GroupsAreNonEmpty(cs, GroupKey, keys[j]);
      var data := AggregateClinicData(keys[j], groups[keys[j]]);
      AggregationsAt(cs, GroupKey, j);
      PrefixStep(Aggregations(cs, GroupKey), j);
      clinics := clinics + [data.value];
    }
    PrefixAll(Aggregations(cs, GroupKey));
  }

  lemma PrefixStep<T>(s: seq<T>, j: nat)
    requires j < |s|
    ensures s[..j + 1] == s[..j] + [s[j]]
  {
  }

  lemma PrefixAll<T>(s: seq<T>)
    ensures s[..|s|] == s
  {
  }

  // ---------------------------------------------------------------------
  // Properties of the grouping

  /** Every key names a non-empty group. */
  lemma GroupsAreNonEmpty(cs: seq<Checkin>, keyOf: KeyFn, key: string)
    requires key in KeyOrder(cs, keyOf)
    ensures GroupOf(cs, keyOf, key) != []
  {
    KeyOrderMembers(cs, keyOf);
    GroupOfMembers(cs, keyOf, key);
    var c :| c in cs && keyOf(c) == Some(key);
    assert c in GroupOf(cs, keyOf, key);
  }

  /** One clinic per key, in order of the keys' first appearance, whose
      report count is the size of its group. */
  lemma AggregationsAreGroups(cs: seq<Checkin>, keyOf: KeyFn, n: nat)
    requires n < |Aggregations(cs, keyOf)|
    ensures Aggregations(cs, keyOf)[n].clinicId == KeyOrder(cs, keyOf)[n]
    ensures Aggregations(cs, keyOf)[n].totalReports == |GroupOf(cs, keyOf, KeyOrder(cs, keyOf)[n])| >= 1
  {
    GroupsAreNonEmpty(cs, keyOf, KeyOrder(cs, keyOf)[n]);
  }

  /** Check-ins without a clinic name are dropped; every other check-in
      lands in the group of its own key and no other. */
  lemma CheckinInItsGroup(cs: seq<Checkin>, c: Checkin, key: string)
    requires c in cs
    ensures c in GroupOf(cs, GroupKey, key) <==> HasName(c) && GroupKey(c).value == key
    ensures HasName(c) ==> GroupKey(c).value in KeyOrder(cs, GroupKey)
  {
    KeyOrderMembers(cs, GroupKey);
    GroupOfMembers(cs, GroupKey, key);
  }

  /** The check-ins that have a key; under `GroupKey`, the named ones. */
  function NamedOf(cs: seq<Checkin>, keyOf: KeyFn): (r: seq<Checkin>)
    ensures |r| <= |cs|
  {
    if cs == [] then []
    else
      var last := cs[|cs| - 1];
      NamedOf(cs[..|cs| - 1], keyOf) + (if keyOf(last).Some? then [last] else [])
  }

  /** The total size of the groups named by `keys`. */
  function GroupSizes(cs: seq<Checkin>, keyOf: KeyFn, keys: seq<string>): nat {
    if keys == [] then 0 else GroupSizes(cs, keyOf, keys[..|keys| - 1]) + |GroupOf(cs, keyOf, keys[|keys| - 1])|
  }

  lemma {:induction false} GroupSizesOfOthers(cs: seq<Checkin>, keyOf: KeyFn, c: Checkin, keys: seq<string>)
    requires keyOf(c).None? || keyOf(c).value !in keys
    ensures GroupSizes(cs + [c], keyOf, keys) == GroupSizes(cs, keyOf, keys)
  {
    if keys != [] {
      GroupOfStep(cs, keyOf, c, keys[|keys| - 1]);
      GroupSizesOfOthers(cs, keyOf, c, keys[..|keys| - 1]);
    }
  }

  lemma {:induction false} GroupSizesOfOwner(cs: seq<Checkin>, keyOf: KeyFn, c: Checkin, keys: seq<string>)
    requires keyOf(c).Some? && keyOf(c).value in keys
    requires forall i, j :: 0 <= i < j < |keys| ==> keys[i] != keys[j]
    ensures GroupSizes(cs + [c], keyOf, keys) == GroupSizes(cs, keyOf, keys) + 1
  {
    var init := keys[..|keys| - 1];
    GroupOfStep(cs, keyOf, c, keys[|keys| - 1]);
    if keys[|keys| - 1] == keyOf(c).value {
      GroupSizesOfOthers(cs, keyOf, c, init);
    } else {
      assert keyOf(c).value in init;
      GroupSizesOfOwner(cs, keyOf, c, init);
    }
  }

  /** The groups partition the named check-ins: their sizes, and so the
      clinics' report counts, add up to the number of named check-ins. */
  lemma {:induction false} GroupsPartition(cs: seq<Checkin>, keyOf: KeyFn)
    ensures GroupSizes(cs, keyOf, KeyOrder(cs, keyOf)) == |NamedOf(cs, keyOf)|
  {
    if cs != [] {
      var init := cs[..|cs| - 1];
      var c := cs[|cs| - 1];
      assert cs == init + [c];
      GroupsPartition(init, keyOf);
      KeyOrderStep(init, keyOf, c);
      var keys := KeyOrder(init, keyOf);
      var key := keyOf(c);
      if key.None? {
        GroupSizesOfOthers(init, keyOf, c, keys);
      } else if key.value in keys {
        GroupSizesOfOwner(init, keyOf, c, keys);
      } else {
        GroupSizesOfOthers(init, keyOf, c, keys);
        GroupOfStep(init, keyOf, c, key.value);
        NewKeyHasEmptyGroup(init, keyOf, key.value);
        assert (keys + [key.value])[..|keys|] == keys;
      }
    }
  }
}
