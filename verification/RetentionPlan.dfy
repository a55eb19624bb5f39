/** Which old versions may have their deletion scheduled. */
module RetentionPlans {
  import opened Options
  import opened Remotes
  import opened CertificateServices

  const DAY := 86_400

  datatype RetentionConfig = RetentionConfig(enabled: bool, keep: nat, minimumAgeDays: nat, deletionDelayDays: nat)

  datatype RetentionPlan = RetentionPlan(versions: seq<nat>, deletionTime: int)

  predicate Protected(stages: set<Stage>) {
    CURRENT in stages || PENDING in stages || PREVIOUS in stages || LATEST in stages || PENDING_ACTIVATION in stages
  }

  predicate Eligible(v: VersionView, config: RetentionConfig, referenced: set<nat>, now: int) {
    && DEPRECATED in v.stages && !Protected(v.stages)
    && v.number !in referenced
    && v.deletion.None?
    && v.created.Some? && v.created.value <= now - config.minimumAgeDays * DAY
  }

  function Select(versions: seq<VersionView>, config: RetentionConfig, referenced: set<nat>, now: int)
    : (s: seq<VersionView>)
    ensures forall v :: v in s <==> v in versions && Eligible(v, config, referenced, now)
  {
    if versions == [] then []
    else if Eligible(versions[0], config, referenced, now)
    then [versions[0]] + Select(versions[1..], config, referenced, now)
    else Select(versions[1..], config, referenced, now)
  }

  function Created(v: VersionView): int {
    if v.created.Some? then v.created.value else 0
  }

  /** The order of (time created, version number). */
  predicate Newer(a: VersionView, b: VersionView) {
    Created(a) > Created(b) || (Created(a) == Created(b) && a.number > b.number)
  }

  /** A stable sort, newest first: equal keys keep the order they were listed in. */
  function Insert(v: VersionView, s: seq<VersionView>): (t: seq<VersionView>)
    ensures multiset(t) == multiset(s) + multiset{v}
  {
    if s == [] || !Newer(s[0], v) then [v] + s
    else assert s == [s[0]] + s[1..]; [s[0]] + Insert(v, s[1..])
  }

  function Sort(s: seq<VersionView>): (t: seq<VersionView>)
    ensures multiset(t) == multiset(s)
  {
    if s == [] then []
    else assert s == [s[0]] + s[1..]; Insert(s[0], Sort(s[1..]))
  }

  ghost predicate Ordered(s: seq<VersionView>) {
    forall i, j | 0 <= i < j < |s| :: !Newer(s[j], s[i])
  }

  lemma {:induction false} InsertOrdered(v: VersionView, s: seq<VersionView>)
    requires Ordered(s)
    ensures Ordered(Insert(v, s))
  {
    if s != [] && Newer(s[0], v) {
      var rest := Insert(v, s[1..]);
      InsertOrdered(v, s[1..]);
      forall x | x in rest ensures !Newer(x, s[0]) {
        assert x in multiset(rest);
        assert x == v || x in s[1..];
      }
    }
  }

  lemma {:induction false} SortOrdered(s: seq<VersionView>)
    ensures Ordered(Sort(s))
  {
    if s != [] {
      SortOrdered(s[1..]);
      InsertOrdered(s[0], Sort(s[1..]));
    }
  }

  function EligibleVersions(versions: seq<VersionView>, config: RetentionConfig, referenced: set<nat>, now: int)
    : seq<VersionView>
  {
    Sort(Select(versions, config, referenced, now))
  }

  function Retained(eligible: seq<VersionView>, keep: nat): seq<VersionView> {
    if |eligible| <= keep then eligible else eligible[..keep]
  }

  function Dropped(eligible: seq<VersionView>, keep: nat): seq<VersionView> {
    if |eligible| <= keep then [] else eligible[keep..]
  }

  function Numbers(s: seq<VersionView>): set<nat> {
    set v | v in s :: v.number
  }

  function Surplus(eligible: seq<VersionView>, retained: set<nat>): (numbers: seq<nat>)
    ensures forall n :: n in numbers <==> n in Numbers(eligible) && n !in retained
  {
    if eligible == [] then []
    else
      var rest := Surplus(eligible[1..], retained);
      var n := eligible[0].number;
      assert Numbers(eligible) == {n} + Numbers(eligible[1..]) by {
        assert eligible == [eligible[0]] + eligible[1..];
      }
      if n in retained then rest else [n] + rest
  }

  function PlanRetention(config: RetentionConfig, versions: seq<VersionView>, referenced: set<nat>, now: int)
    : RetentionPlan
  {
    var deletionTime := now + config.deletionDelayDays * DAY;
    if !config.enabled then RetentionPlan([], deletionTime)
    else
      var eligible := EligibleVersions(versions, config, referenced, now);
      RetentionPlan(Surplus(eligible, Numbers(Retained(eligible, config.keep))), deletionTime)
  }

  // ----- distinct version numbers -----

  ghost predicate Distinct(versions: seq<VersionView>) {
    forall i, j | 0 <= i < j < |versions| :: versions[i].number != versions[j].number
  }

  /** Every entry newer than all that follow it. */
  ghost predicate NewestFirst(s: seq<VersionView>) {
    forall i, j | 0 <= i < j < |s| :: Newer(s[i], s[j])
  }

  function Bag(s: seq<VersionView>): multiset<nat> {
    if s == [] then multiset{} else multiset{s[0].number} + Bag(s[1..])
  }

  lemma {:induction false} BagHolds(s: seq<VersionView>, i: nat)
    requires i < |s|
    ensures s[i].number in Bag(s)
  {
    if i > 0 {
      BagHolds(s[1..], i - 1);
    }
  }

  lemma {:induction false} BagLacks(s: seq<VersionView>, n: nat)
    requires forall i | 0 <= i < |s| :: s[i].number != n
    ensures Bag(s)[n] == 0
  {
    if s != [] {
      BagLacks(s[1..], n);
    }
  }

  lemma {:induction false} DistinctBag(s: seq<VersionView>, n: nat)
    requires Distinct(s)
    ensures Bag(s)[n] <= 1
  {
    if s != [] {
      if s[0].number == n {
        BagLacks(s[1..], n);
      } else {
        DistinctBag(s[1..], n);
      }
    }
  }

  lemma {:induction false} BagDistinct(s: seq<VersionView>)
    requires forall n: nat :: Bag(s)[n] <= 1
    ensures Distinct(s)
  {
    if s != [] {
      forall n: nat ensures Bag(s[1..])[n] <= 1 {
        assert Bag(s)[n] <= 1;
      }
      BagDistinct(s[1..]);
      forall j | 0 < j < |s| ensures s[j].number != s[0].number {
        assert Bag(s)[s[0].number] <= 1;
        BagHolds(s[1..], j - 1);
      }
    }
  }

  lemma {:induction false} InsertBag(v: VersionView, s: seq<VersionView>)
    ensures Bag(Insert(v, s)) == Bag(s) + multiset{v.number}
  {
    if s == [] || !Newer(s[0], v) {
      assert ([v] + s)[1..] == s;
    } else {
      InsertBag(v, s[1..]);
      assert ([s[0]] + Insert(v, s[1..]))[1..] == Insert(v, s[1..]);
    }
  }

  lemma {:induction false} SortBag(s: seq<VersionView>)
    ensures Bag(Sort(s)) == Bag(s)
  {
    if s != [] {
      SortBag(s[1..]);
      InsertBag(s[0], Sort(s[1..]));
    }
  }

  lemma {:induction false} SelectBag(versions: seq<VersionView>, config: RetentionConfig,
                                     referenced: set<nat>, now: int)
    ensures Bag(Select(versions, config, referenced, now)) <= Bag(versions)
  {
    if versions != [] {
      SelectBag(versions[1..], config, referenced, now);
      var rest := Select(versions[1..], config, referenced, now);
      assert ([versions[0]] + rest)[1..] == rest;
    }
  }

  lemma EligibleMembers(versions: seq<VersionView>, config: RetentionConfig, referenced: set<nat>, now: int)
    ensures forall v :: v in EligibleVersions(versions, config, referenced, now) <==>
                        v in versions && Eligible(v, config, referenced, now)
  {
    var selected := Select(versions, config, referenced, now);
    forall v ensures v in Sort(selected) <==> v in selected {
      assert v in Sort(selected) <==> v in multiset(Sort(selected));
      assert v in selected <==> v in multiset(selected);
    }
  }

  lemma EligibleNewestFirst(versions: seq<VersionView>, config: RetentionConfig, referenced: set<nat>, now: int)
    requires Distinct(versions)
    ensures Distinct(EligibleVersions(versions, config, referenced, now))
    ensures NewestFirst(EligibleVersions(versions, config, referenced, now))
  {
    var selected := Select(versions, config, referenced, now);
    SelectBag(versions, config, referenced, now);
    SortBag(selected);
    SortOrdered(selected);
    forall n: nat ensures Bag(Sort(selected))[n] <= 1 {
      DistinctBag(versions, n);
    }
    BagDistinct(Sort(selected));
  }

  lemma {:induction false} NewestFirstIsUnique(a: seq<VersionView>, b: seq<VersionView>)
    requires NewestFirst(a) && NewestFirst(b)
    requires forall v :: v in a <==> v in b
    ensures a == b
  {
    FirstIsMember(a);
    FirstIsMember(b);
    if a != [] && b != [] {
      forall v ensures v in a[1..] <==> v in b[1..] {
        if v in a[1..] {
          var i :| 0 <= i < |a[1..]| && a[1..][i] == v;
          assert a[i + 1] == v && v in a && Newer(a[0], v);
        }
        if v in b[1..] {
          var i :| 0 <= i < |b[1..]| && b[1..][i] == v;
          assert b[i + 1] == v && v in b && Newer(b[0], v);
        }
      }
      NewestFirstIsUnique(a[1..], b[1..]);
    }
  }

  lemma FirstIsMember(s: seq<VersionView>)
    ensures s != [] ==> s[0] in s
  {
  }

  lemma {:induction false} SurplusOf(first: seq<VersionView>, rest: seq<VersionView>, retained: set<nat>)
    requires Numbers(first) <= retained && Numbers(rest) !! retained
    ensures |Surplus(first + rest, retained)| == |rest|
    decreases |first| + |rest|
  {
    var s := first + rest;
    if first != [] {
      assert s[0] == first[0] && s[1..] == first[1..] + rest;
      assert first[0].number in Numbers(first);
      assert Numbers(first[1..]) <= Numbers(first);
      SurplusOf(first[1..], rest, retained);
    } else if rest != [] {
      assert s == rest && first + rest[1..] == s[1..];
      assert rest[0].number in Numbers(rest);
      assert Numbers(rest[1..]) <= Numbers(rest);
      SurplusOf(first, rest[1..], retained);
    }
  }

  // ----- the plan is exact -----

  lemma KeptIsRetained(config: RetentionConfig, versions: seq<VersionView>, referenced: set<nat>, now: int,
                       v: VersionView)
    requires Distinct(versions) && config.enabled
    requires v in versions && Eligible(v, config, referenced, now)
    ensures v.number !in PlanRetention(config, versions, referenced, now).versions <==>
            v in Retained(EligibleVersions(versions, config, referenced, now), config.keep)
  {
    var eligible := EligibleVersions(versions, config, referenced, now);
    var retained := Retained(eligible, config.keep);
    EligibleMembers(versions, config, referenced, now);
    assert v.number in Numbers(eligible);
    if v in retained {
      assert v.number in Numbers(retained);
    } else if v.number in Numbers(retained) {
      var e :| e in retained && e.number == v.number;
      assert e in eligible;
      SameNumberSameVersion(versions, e, v);
    }
  }

  lemma KeptAreRetained(config: RetentionConfig, versions: seq<VersionView>, referenced: set<nat>, now: int)
    requires Distinct(versions) && config.enabled
    ensures
      var eligible := EligibleVersions(versions, config, referenced, now);
      var plan := PlanRetention(config, versions, referenced, now);
      forall v :: v in eligible && v.number !in plan.versions <==> v in Retained(eligible, config.keep)
  {
    var eligible := EligibleVersions(versions, config, referenced, now);
    var retained := Retained(eligible, config.keep);
    EligibleMembers(versions, config, referenced, now);
    forall v
      ensures v in eligible && v.number !in PlanRetention(config, versions, referenced, now).versions <==>
              v in retained
    {
      if v in retained {
        assert v in eligible;
      }
      if v in eligible {
        KeptIsRetained(config, versions, referenced, now, v);
      }
    }
  }

  lemma SplitEligible(eligible: seq<VersionView>, keep: nat)
    requires Distinct(eligible)
    ensures eligible == Retained(eligible, keep) + Dropped(eligible, keep)
    ensures Numbers(Dropped(eligible, keep)) !! Numbers(Retained(eligible, keep))
  {
    var retained, dropped := Retained(eligible, keep), Dropped(eligible, keep);
    assert eligible == retained + dropped;
    forall n | n in Numbers(dropped) ensures n !in Numbers(retained) {
      var i :| 0 <= i < |dropped| && dropped[i].number == n;
      assert eligible[|retained| + i] == dropped[i];
      forall j | 0 <= j < |retained| ensures retained[j].number != n {
        assert eligible[j] == retained[j];
      }
    }
  }

  /** It schedules what exceeds `keep`. */
  lemma PlanSize(config: RetentionConfig, versions: seq<VersionView>, referenced: set<nat>, now: int)
    requires Distinct(versions) && config.enabled
    ensures var eligible := EligibleVersions(versions, config, referenced, now);
            |PlanRetention(config, versions, referenced, now).versions| ==
              if |eligible| <= config.keep then 0 else |eligible| - config.keep
  {
    var eligible := EligibleVersions(versions, config, referenced, now);
    EligibleNewestFirst(versions, config, referenced, now);
    SplitEligible(eligible, config.keep);
    SurplusOf(Retained(eligible, config.keep), Dropped(eligible, config.keep),
              Numbers(Retained(eligible, config.keep)));
  }

  /** What is scheduled is what the kept part of the eligible list leaves over. */
  lemma PlannedAreDropped(config: RetentionConfig, versions: seq<VersionView>, referenced: set<nat>, now: int,
                          v: VersionView)
    requires Distinct(versions) && config.enabled
    requires v in versions && v.number in PlanRetention(config, versions, referenced, now).versions
    ensures v in Dropped(EligibleVersions(versions, config, referenced, now), config.keep)
  {
    var eligible := EligibleVersions(versions, config, referenced, now);
    var retained, dropped := Retained(eligible, config.keep), Dropped(eligible, config.keep);
    EligibleMembers(versions, config, referenced, now);
    EligibleNewestFirst(versions, config, referenced, now);
    SplitEligible(eligible, config.keep);
    assert forall x | x in retained :: x.number in Numbers(retained);
    assert v.number in Numbers(eligible) && v.number !in Numbers(retained);
    var e :| e in eligible && e.number == v.number;
    SameNumberSameVersion(versions, e, v);
    assert v in retained + dropped;
  }

  lemma RetainedAreNewer(eligible: seq<VersionView>, keep: nat, kept: VersionView, dropped: VersionView)
    requires NewestFirst(eligible) && kept in Retained(eligible, keep) && dropped in Dropped(eligible, keep)
    ensures Newer(kept, dropped)
  {
    var i :| 0 <= i < |Retained(eligible, keep)| && Retained(eligible, keep)[i] == kept;
    var j :| 0 <= j < |Dropped(eligible, keep)| && Dropped(eligible, keep)[j] == dropped;
    assert eligible[i] == kept && eligible[keep + j] == dropped;
  }

  /** It schedules what exceeds `keep`, and every kept eligible version is newer than every scheduled one. */
  lemma PlanIsExact(config: RetentionConfig, versions: seq<VersionView>, referenced: set<nat>, now: int)
    requires Distinct(versions) && config.enabled
    ensures
      var eligible := EligibleVersions(versions, config, referenced, now);
      var plan := PlanRetention(config, versions, referenced, now);
      && |plan.versions| == (if |eligible| <= config.keep then 0 else |eligible| - config.keep)
      && (forall v | v in versions && v.number in plan.versions :: Eligible(v, config, referenced, now))
      && (forall kept, dropped | kept in versions && dropped in versions
            && Eligible(kept, config, referenced, now) && kept.number !in plan.versions
            && dropped.number in plan.versions ::
            && kept.created.Some? && dropped.created.Some?
            && (|| kept.created.value > dropped.created.value
                || (kept.created.value == dropped.created.value && kept.number > dropped.number)))
  {
    var eligible := EligibleVersions(versions, config, referenced, now);
    var plan := PlanRetention(config, versions, referenced, now);
    PlanSize(config, versions, referenced, now);
    EligibleMembers(versions, config, referenced, now);
    EligibleNewestFirst(versions, config, referenced, now);
    forall v | v in versions && v.number in plan.versions ensures Eligible(v, config, referenced, now) {
      PlannedAreDropped(config, versions, referenced, now, v);
      assert v in eligible;
    }
    forall kept, dropped | kept in versions && dropped in versions
        && Eligible(kept, config, referenced, now) && kept.number !in plan.versions && dropped.number in plan.versions
      ensures kept.created.Some? && dropped.created.Some? && Newer(kept, dropped)
    {
      KeptIsRetained(config, versions, referenced, now, kept);
      PlannedAreDropped(config, versions, referenced, now, dropped);
      RetainedAreNewer(eligible, config.keep, kept, dropped);
    }
  }

  lemma SameNumberSameVersion(s: seq<VersionView>, a: VersionView, b: VersionView)
    requires Distinct(s) && a in s && b in s && a.number == b.number
    ensures a == b
  {
  }

  /** The plan does not depend on the order the versions were listed in. */
  lemma PlanIgnoresListingOrder(config: RetentionConfig, versions: seq<VersionView>, other: seq<VersionView>,
                                referenced: set<nat>, now: int)
    requires Distinct(versions) && Distinct(other)
    requires forall v :: v in versions <==> v in other
    ensures PlanRetention(config, versions, referenced, now) == PlanRetention(config, other, referenced, now)
  {
    EligibleMembers(versions, config, referenced, now);
    EligibleMembers(other, config, referenced, now);
    EligibleNewestFirst(versions, config, referenced, now);
    EligibleNewestFirst(other, config, referenced, now);
    NewestFirstIsUnique(EligibleVersions(versions, config, referenced, now),
                        EligibleVersions(other, config, referenced, now));
  }

  /** Keeping more only shrinks the plan, and a retained number is never scheduled, even listed twice. */
  lemma KeepingMoreSchedulesLess(config: RetentionConfig, more: nat, versions: seq<VersionView>,
                                 referenced: set<nat>, now: int)
    requires config.keep <= more
    ensures forall n :: n in PlanRetention(config.(keep := more), versions, referenced, now).versions ==>
                        n in PlanRetention(config, versions, referenced, now).versions
    ensures var eligible := EligibleVersions(versions, config, referenced, now);
            forall v | v in Retained(eligible, config.keep) ::
              v.number !in PlanRetention(config, versions, referenced, now).versions
  {
    SelectIgnoresKeep(config, more, versions, referenced, now);
    var eligible := EligibleVersions(versions, config, referenced, now);
    var fewer, greater := Retained(eligible, config.keep), Retained(eligible, more);
    forall v | v in fewer ensures v in greater {
      var i :| 0 <= i < |fewer| && fewer[i] == v;
      assert greater[i] == v;
    }
    assert Numbers(fewer) <= Numbers(greater);
  }

  lemma {:induction false} SelectIgnoresKeep(config: RetentionConfig, more: nat, versions: seq<VersionView>,
                                             referenced: set<nat>, now: int)
    ensures Select(versions, config.(keep := more), referenced, now) == Select(versions, config, referenced, now)
  {
    if versions != [] {
      SelectIgnoresKeep(config, more, versions[1..], referenced, now);
    }
  }

  lemma {:induction false} SurplusDistinct(eligible: seq<VersionView>, retained: set<nat>)
    requires Distinct(eligible)
    ensures forall i, j | 0 <= i < j < |Surplus(eligible, retained)| ::
              Surplus(eligible, retained)[i] != Surplus(eligible, retained)[j]
  {
    if eligible != [] {
      SurplusDistinct(eligible[1..], retained);
      var rest := Surplus(eligible[1..], retained);
      forall n | n in rest ensures n != eligible[0].number {
        var v :| v in eligible[1..] && v.number == n;
        var i :| 0 <= i < |eligible[1..]| && eligible[1..][i] == v;
        assert eligible[i + 1] == v;
      }
    }
  }

  /** Every planned number names one listed, eligible version, and none is planned twice. */
  lemma PlanIsSafe(config: RetentionConfig, versions: seq<VersionView>, referenced: set<nat>, now: int)
    requires Distinct(versions)
    ensures var plan := PlanRetention(config, versions, referenced, now).versions;
            && (forall i, j | 0 <= i < j < |plan| :: plan[i] != plan[j])
            && (forall n | n in plan ::
                  exists v :: v in versions && v.number == n && Eligible(v, config, referenced, now))
  {
    EligibleMembers(versions, config, referenced, now);
    EligibleNewestFirst(versions, config, referenced, now);
    var eligible := EligibleVersions(versions, config, referenced, now);
    SurplusDistinct(eligible, Numbers(Retained(eligible, config.keep)));
    forall n | n in PlanRetention(config, versions, referenced, now).versions
      ensures exists v :: v in versions && v.number == n && Eligible(v, config, referenced, now)
    {
      assert n in Numbers(eligible);
      var v :| v in eligible && v.number == n;
    }
  }

  lemma {:induction false} DistinctNumbers(s: seq<VersionView>)
    requires Distinct(s)
    ensures |Numbers(s)| == |s|
  {
    if s == [] {
      assert Numbers(s) == {};
    } else {
      DistinctNumbers(s[1..]);
      assert s == [s[0]] + s[1..];
      assert Numbers(s) == {s[0].number} + Numbers(s[1..]);
      assert s[0].number !in Numbers(s[1..]);
    }
  }

  /** The listing after every deletion of a plan has been scheduled. */
  function Applied(versions: seq<VersionView>, plan: RetentionPlan): seq<VersionView> {
    seq(|versions|, i requires 0 <= i < |versions| =>
      if versions[i].number in plan.versions then versions[i].(deletion := Some(plan.deletionTime)) else versions[i])
  }

  lemma AppliedMembers(config: RetentionConfig, versions: seq<VersionView>, plan: RetentionPlan,
                       referenced: set<nat>, now: int)
    ensures forall v ::
      v in Applied(versions, plan) && Eligible(v, config, referenced, now) <==>
      v in versions && v.number !in plan.versions && Eligible(v, config, referenced, now)
  {
    var after := Applied(versions, plan);
    forall v | v in after && Eligible(v, config, referenced, now)
      ensures v in versions && v.number !in plan.versions
    {
      var i :| 0 <= i < |after| && after[i] == v;
      assert versions[i] in versions;
    }
    forall v | v in versions && v.number !in plan.versions ensures v in after {
      var i :| 0 <= i < |versions| && versions[i] == v;
      assert after[i] == v;
    }
  }

  lemma AppliedDistinct(versions: seq<VersionView>, plan: RetentionPlan)
    requires Distinct(versions)
    ensures Distinct(Applied(versions, plan))
  {
    forall i | 0 <= i < |versions| ensures Applied(versions, plan)[i].number == versions[i].number {
    }
  }

  /** Planning again at the same time, after the plan was applied, schedules nothing. */
  lemma ReplanningSchedulesNothing(config: RetentionConfig, versions: seq<VersionView>, referenced: set<nat>, now: int)
    requires Distinct(versions)
    ensures var plan := PlanRetention(config, versions, referenced, now);
            PlanRetention(config, Applied(versions, plan), referenced, now).versions == []
  {
    if config.enabled {
      var plan := PlanRetention(config, versions, referenced, now);
      var after := Applied(versions, plan);
      var again := EligibleVersions(after, config, referenced, now);
      var eligible := EligibleVersions(versions, config, referenced, now);
      AppliedDistinct(versions, plan);
      EligibleMembers(versions, config, referenced, now);
      EligibleMembers(after, config, referenced, now);
      AppliedMembers(config, versions, plan, referenced, now);
      KeptAreRetained(config, versions, referenced, now);
      EligibleNewestFirst(versions, config, referenced, now);
      EligibleNewestFirst(after, config, referenced, now);
      NewestFirstIsUnique(again, Retained(eligible, config.keep));
      assert Retained(again, config.keep) == again;
      NothingExceedsItself(again);
    }
  }

  lemma NothingExceedsItself(s: seq<VersionView>)
    ensures Surplus(s, Numbers(s)) == []
  {
    assert s == s + [];
    SurplusOf(s, [], Numbers(s));
  }
}
