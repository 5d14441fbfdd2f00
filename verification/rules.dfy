/** The achievement rules of pax_achievements.py. Every rule filters the national frame, groups
    it by (period, Slack user, home region), measures each group (rows, or distinct AOs),
    keeps the groups at or above a threshold and dates the award at the group's last beatdown.
    The calendar (year, month, ISO week of a date) and the backblast and AO-name regular
    expressions are parameters. */
module Rules {
  import opened Wrappers
  import opened Seqs
  import opened Logic

  /** One attendance at one beatdown, with the attendee's home region joined on by email. */
  datatype NationRow = NationRow(
    email: string, slackUserId: string, aoId: string, ao: string, date: int, qFlag: int,
    backblast: Option<string>, region: string)

  /** The calendar functions the rules use: `dt.year()`, `dt.month()`, `dt.week()`. */
  datatype Calendar = Calendar(year: int -> int, month: int -> int, week: int -> int)

  datatype Period = Year | Month | Week

  function PeriodOf(cal: Calendar, p: Period, date: int): int {
    match p
    case Year => cal.year(date)
    case Month => cal.month(date)
    case Week => cal.week(date)
  }

  /** The regular-expression tests on the backblast and the AO name. A test on a NULL
      backblast is unknown. */
  datatype Filters = Filters(bb: NationRow -> Truth, ao: NationRow -> Truth)

  /** `pl.col("ao_id").count()` or `pl.col("ao_id").n_unique()`. */
  datatype Measure = Rows | DistinctAos

  datatype GroupKey = GroupKey(period: int, slackUserId: string, region: string)

  /** A rule's output row: the group and `date_awarded`. */
  datatype Award = Award(period: int, slackUserId: string, region: string, dateAwarded: int)

  function AwardKey(a: Award): GroupKey { GroupKey(a.period, a.slackUserId, a.region) }

  // ---------------------------------------------------------------------------------------
  // Grouping

  function Group<K(==)>(kept: seq<NationRow>, keyOf: NationRow -> K, k: K): (g: seq<NationRow>)
    ensures forall x :: x in g <==> x in kept && keyOf(x) == k
  {
    Filter(kept, x => keyOf(x) == k)
  }

  function AosOf(g: seq<NationRow>): set<string> {
    set x | x in g :: x.aoId
  }

  function Size(m: Measure, g: seq<NationRow>): nat {
    match m
    case Rows => |g|
    case DistinctAos => |AosOf(g)|
  }

  /** There are never more distinct AOs than rows. */
  lemma {:induction false} DistinctAosAtMostRows(g: seq<NationRow>)
    ensures |AosOf(g)| <= |g|
    decreases |g|
  {
    if |g| > 0 {
      DistinctAosAtMostRows(g[1..]);
      assert AosOf(g) == AosOf(g[1..]) + {g[0].aoId} by {
        assert g == [g[0]] + g[1..];
      }
    }
  }

  /** `pl.col("date").max()`. */
  function LastDate(g: seq<NationRow>): (d: int)
    requires |g| > 0
    ensures exists x :: x in g && x.date == d
    ensures forall x :: x in g ==> x.date <= d
    decreases |g|
  {
    if |g| == 1 then g[0].date
    else
      var rest := LastDate(g[1..]);
      assert forall x :: x in g[1..] ==> x in g;
      assert forall x :: x in g ==> x == g[0] || x in g[1..];
      if g[0].date >= rest then g[0].date else rest
  }

  /** One group after `.agg(...)`: its key, its measure and its last date. */
  datatype Tally<K> = Tally(key: K, size: nat, last: int)

  function TallyKey<K>(t: Tally<K>): K { t.key }

  function Summarize<K(==)>(kept: seq<NationRow>, keyOf: NationRow -> K, m: Measure, k: K): Tally<K>
    requires k in KeysOf(kept, keyOf)
  {
    var g := Group(kept, keyOf, k);
    var i :| 0 <= i < |kept| && keyOf(kept[i]) == k;
    assert kept[i] in g;
    Tally(k, Size(m, g), LastDate(g))
  }

  /** `group_by(...).agg(...)`: one tally per key present, in order of first appearance. */
  function Tallies<K(==,!new)>(kept: seq<NationRow>, keyOf: NationRow -> K, m: Measure): (r: seq<Tally<K>>)
    ensures UniqueKeys(r, TallyKey)
    ensures KeysOf(r, TallyKey) == KeysOf(kept, keyOf)
    ensures forall t :: t in r ==> t.key in KeysOf(kept, keyOf) && t == Summarize(kept, keyOf, m, t.key)
  {
    var reps := DedupBy(kept, keyOf);
    assert forall i :: 0 <= i < |reps| ==> keyOf(reps[i]) in KeysOf(kept, keyOf) by {
      forall i | 0 <= i < |reps| ensures keyOf(reps[i]) in KeysOf(kept, keyOf) {
        assert keyOf(reps[i]) in KeysOf(reps, keyOf);
      }
    }
    var r := seq(|reps|, i requires 0 <= i < |reps| => Summarize(kept, keyOf, m, keyOf(reps[i])));
    TalliesFollowReps(kept, keyOf, m, reps, r);
    r
  }

  lemma TalliesFollowReps<K(!new)>(kept: seq<NationRow>, keyOf: NationRow -> K, m: Measure, reps: seq<NationRow>,
                             r: seq<Tally<K>>)
    requires UniqueKeys(reps, keyOf) && KeysOf(reps, keyOf) == KeysOf(kept, keyOf)
    requires |r| == |reps|
    requires forall i :: 0 <= i < |reps| ==> keyOf(reps[i]) in KeysOf(kept, keyOf)
    requires forall i :: 0 <= i < |r| ==> r[i] == Summarize(kept, keyOf, m, keyOf(reps[i]))
    ensures UniqueKeys(r, TallyKey)
    ensures KeysOf(r, TallyKey) == KeysOf(kept, keyOf)
    ensures forall t :: t in r ==> t.key in KeysOf(kept, keyOf) && t == Summarize(kept, keyOf, m, t.key)
  {
    assert forall i :: 0 <= i < |r| ==> TallyKey(r[i]) == keyOf(reps[i]);
    forall k | k in KeysOf(kept, keyOf)
      ensures k in KeysOf(r, TallyKey)
    {
      var i :| 0 <= i < |reps| && keyOf(reps[i]) == k;
      assert TallyKey(r[i]) == k;
    }
  }

  /** The groups at or above the threshold, as award rows; `toGroup` drops any extra grouping
      column. */
  function AwardsAtLeast<K(!new)>(ts: seq<Tally<K>>, n: nat, toGroup: K -> GroupKey): (r: seq<Award>)
    ensures forall a :: a in r <==> exists t :: t in ts && t.size >= n && a == AwardFrom(t, toGroup)
    decreases |ts|
  {
    if |ts| == 0 then []
    else
      var rest := AwardsAtLeast(ts[1..], n, toGroup);
      assert forall t :: t in ts <==> t == ts[0] || t in ts[1..];
      (if ts[0].size >= n then [AwardFrom(ts[0], toGroup)] else []) + rest
  }

  function AwardFrom<K>(t: Tally<K>, toGroup: K -> GroupKey): Award {
    var k := toGroup(t.key);
    Award(k.period, k.slackUserId, k.region, t.last)
  }

  function SameGroup(k: GroupKey): GroupKey { k }

  /** Keeping whole groups of uniquely keyed tallies yields at most one award per group. */
  lemma {:induction false} AwardsAtLeastUnique(ts: seq<Tally<GroupKey>>, n: nat)
    requires UniqueKeys(ts, TallyKey)
    ensures UniqueKeys(AwardsAtLeast(ts, n, SameGroup), AwardKey)
    decreases |ts|
  {
    if |ts| > 0 {
      var rest := AwardsAtLeast(ts[1..], n, SameGroup);
      AwardsAtLeastUnique(ts[1..], n);
      forall a | a in rest
        ensures AwardKey(a) != ts[0].key
      {
        var t :| t in ts[1..] && t.size >= n && a == AwardFrom(t, SameGroup);
        var j :| 0 <= j < |ts[1..]| && ts[1..][j] == t;
        assert ts[j + 1] == t;
      }
      var r := AwardsAtLeast(ts, n, SameGroup);
      if ts[0].size >= n {
        forall i, j | 0 <= i < j < |r|
          ensures AwardKey(r[i]) != AwardKey(r[j])
        {
          if i == 0 {
            assert r[j] == rest[j - 1];
            assert r[j] in rest;
          } else {
            assert r[i] == rest[i - 1] && r[j] == rest[j - 1];
          }
        }
      }
    }
  }

  // ---------------------------------------------------------------------------------------
  // A rule

  /** Filter, grouping period, measure and threshold of a rule. */
  datatype Rule = Rule(period: Period, keep: NationRow -> Truth, measure: Measure, threshold: nat)

  /** polars `filter`: a row stays only when the condition is true, not unknown. */
  function Kept(keep: NationRow -> Truth, rows: seq<NationRow>): seq<NationRow> {
    Filter(rows, x => keep(x) == IsTrue)
  }

  function KeyFn(cal: Calendar, p: Period): NationRow -> GroupKey {
    (x: NationRow) => GroupKey(PeriodOf(cal, p, x.date), x.slackUserId, x.region)
  }

  function RuleTallies(rule: Rule, cal: Calendar, rows: seq<NationRow>): seq<Tally<GroupKey>> {
    Tallies(Kept(rule.keep, rows), KeyFn(cal, rule.period), rule.measure)
  }

  /** The reference reading of a rule: `a` is awarded when the rows of its group that pass the
      filter measure at least the threshold, and it is dated at the last of them. */
  predicate Earns(rule: Rule, cal: Calendar, rows: seq<NationRow>, a: Award) {
    var g := Group(Kept(rule.keep, rows), KeyFn(cal, rule.period), AwardKey(a));
    |g| > 0 && Size(rule.measure, g) >= rule.threshold && a.dateAwarded == LastDate(g)
  }

  function Apply(rule: Rule, cal: Calendar, rows: seq<NationRow>): (r: seq<Award>)
    ensures UniqueKeys(r, AwardKey)
    ensures forall a :: a in r <==> Earns(rule, cal, rows, a)
  {
    var ts := RuleTallies(rule, cal, rows);
    AwardsAtLeastUnique(ts, rule.threshold);
    ApplyMembers(rule, cal, rows);
    AwardsAtLeast(ts, rule.threshold, SameGroup)
  }

  lemma ApplyMembers(rule: Rule, cal: Calendar, rows: seq<NationRow>)
    ensures forall a :: a in AwardsAtLeast(RuleTallies(rule, cal, rows), rule.threshold, SameGroup)
                    <==> Earns(rule, cal, rows, a)
  {
    forall a | Earns(rule, cal, rows, a)
      ensures a in AwardsAtLeast(RuleTallies(rule, cal, rows), rule.threshold, SameGroup)
    {
      EarnedIsListed(rule, cal, rows, a);
    }
    forall a | a in AwardsAtLeast(RuleTallies(rule, cal, rows), rule.threshold, SameGroup)
      ensures Earns(rule, cal, rows, a)
    {
      ListedIsEarned(rule, cal, rows, a);
    }
  }

  /** A key whose group is non-empty has its tally among the tallies. */
  lemma TallyOf<K(!new)>(kept: seq<NationRow>, keyOf: NationRow -> K, m: Measure, k: K) returns (t: Tally<K>)
    requires |Group(kept, keyOf, k)| > 0
    ensures k in KeysOf(kept, keyOf)
    ensures t in Tallies(kept, keyOf, m) && t == Summarize(kept, keyOf, m, k)
  {
    var g := Group(kept, keyOf, k);
    assert g[0] in g;
    assert g[0] in kept && keyOf(g[0]) == k;
    var i :| 0 <= i < |kept| && kept[i] == g[0];
    assert keyOf(kept[i]) in KeysOf(kept, keyOf);
    var ts := Tallies(kept, keyOf, m);
    var j := KeyWitness(ts, TallyKey, k);
    assert ts[j] in ts;
    t := ts[j];
  }

  lemma EarnedIsListed(rule: Rule, cal: Calendar, rows: seq<NationRow>, a: Award)
    requires Earns(rule, cal, rows, a)
    ensures a in AwardsAtLeast(RuleTallies(rule, cal, rows), rule.threshold, SameGroup)
  {
    var t := TallyOf(Kept(rule.keep, rows), KeyFn(cal, rule.period), rule.measure, AwardKey(a));
    assert AwardFrom(t, SameGroup) == a;
  }

  lemma ListedIsEarned(rule: Rule, cal: Calendar, rows: seq<NationRow>, a: Award)
    requires a in AwardsAtLeast(RuleTallies(rule, cal, rows), rule.threshold, SameGroup)
    ensures Earns(rule, cal, rows, a)
  {
    var kept := Kept(rule.keep, rows);
    var keyOf := KeyFn(cal, rule.period);
    var ts := RuleTallies(rule, cal, rows);
    var t :| t in ts && t.size >= rule.threshold && a == AwardFrom(t, SameGroup);
    assert t == Summarize(kept, keyOf, rule.measure, t.key);
    assert AwardKey(a) == t.key;
  }

  /** A group earned under a threshold is earned under any lower one. */
  lemma EarnsMonotone(rule: Rule, cal: Calendar, rows: seq<NationRow>, a: Award, lower: nat)
    requires lower <= rule.threshold && Earns(rule, cal, rows, a)
    ensures Earns(rule.(threshold := lower), cal, rows, a)
  {
  }

  /** Raising the threshold only removes awards: the same rule with a lower threshold awards
      every group the higher one does, on the same date. */
  lemma ApplyMonotone(rule: Rule, cal: Calendar, rows: seq<NationRow>, lower: nat)
    requires lower <= rule.threshold
    ensures forall a :: a in Apply(rule, cal, rows) ==> a in Apply(rule.(threshold := lower), cal, rows)
  {
    forall a | a in Apply(rule, cal, rows)
      ensures a in Apply(rule.(threshold := lower), cal, rows)
    {
      EarnsMonotone(rule, cal, rows, a, lower);
    }
  }

  // ---------------------------------------------------------------------------------------
  // The rules

  function QFlagged(f: Filters): NationRow -> Truth {
    (x: NationRow) => And(And(FromBool(x.qFlag == 1), f.bb(x)), f.ao(x))
  }

  function BothFilters(f: Filters): NationRow -> Truth {
    (x: NationRow) => And(f.bb(x), f.ao(x))
  }

  function EitherFilter(f: Filters): NationRow -> Truth {
    (x: NationRow) => Or(f.bb(x), f.ao(x))
  }

  function ThePriest(f: Filters): Rule { Rule(Year, EitherFilter(f), Rows, 25) }

  function TheMonk(f: Filters): Rule { Rule(Month, EitherFilter(f), Rows, 4) }

  function LeaderOfMen(f: Filters): Rule { Rule(Month, QFlagged(f), Rows, 4) }

  function TheBoss(f: Filters): Rule { Rule(Month, QFlagged(f), Rows, 6) }

  function HammerNotNail(f: Filters): Rule { Rule(Week, QFlagged(f), Rows, 6) }

  function Cadre(f: Filters): Rule { Rule(Month, QFlagged(f), DistinctAos, 7) }

  function ElPresidente(f: Filters): Rule { Rule(Year, QFlagged(f), Rows, 20) }

  function SixPack(f: Filters): Rule { Rule(Week, BothFilters(f), Rows, 6) }

  /** `posts`: the per-year post counts, before any threshold. */
  function Posts(f: Filters, cal: Calendar, rows: seq<NationRow>): seq<Tally<GroupKey>> {
    RuleTallies(Rule(Year, BothFilters(f), Rows, 0), cal, rows)
  }

  /** The post-count thresholds, in achievement order. */
  const Ladder: seq<nat> := [25, 50, 100, 150, 200]

  /** One rung: `s.filter(pl.col("ao_id") >= val)`. */
  function PostRung(f: Filters, cal: Calendar, rows: seq<NationRow>, val: nat): (r: seq<Award>)
    ensures forall a :: a in r <==> Earns(Rule(Year, BothFilters(f), Rows, val), cal, rows, a)
  {
    ApplyMembers(Rule(Year, BothFilters(f), Rows, val), cal, rows);
    AwardsAtLeast(Posts(f, cal, rows), val, SameGroup)
  }

  /** A higher post count only awards groups a lower one awards. */
  lemma PostRungMonotone(f: Filters, cal: Calendar, rows: seq<NationRow>, lo: nat, hi: nat)
    requires lo <= hi
    ensures forall a :: a in PostRung(f, cal, rows, hi) ==> a in PostRung(f, cal, rows, lo)
  {
    var r := Rule(Year, BothFilters(f), Rows, hi);
    forall a | a in PostRung(f, cal, rows, hi)
      ensures a in PostRung(f, cal, rows, lo)
    {
      EarnsMonotone(r, cal, rows, a, lo);
    }
  }

  /** The rungs of the post ladder nest: a higher rung only awards groups a lower rung awards. */
  lemma PostLadderNests(f: Filters, cal: Calendar, rows: seq<NationRow>, i: nat, j: nat)
    requires i <= j < |Ladder|
    ensures forall a :: a in PostRung(f, cal, rows, Ladder[j]) ==> a in PostRung(f, cal, rows, Ladder[i])
  {
    assert Ladder[i] <= Ladder[j];
    PostRungMonotone(f, cal, rows, Ladder[i], Ladder[j]);
  }

  /** Every group awarded The Boss is awarded Leader of Men, on the same date. */
  lemma BossIsLeader(f: Filters, cal: Calendar, rows: seq<NationRow>)
    ensures forall a :: a in Apply(TheBoss(f), cal, rows) ==> a in Apply(LeaderOfMen(f), cal, rows)
  {
    ApplyMonotone(TheBoss(f), cal, rows, 4);
    assert TheBoss(f).(threshold := 4) == LeaderOfMen(f);
  }

  /** Q-ing at seven different AOs in a month means Q-ing at least seven times, so a Cadre
      award is also a Boss award. */
  lemma CadreIsBoss(f: Filters, cal: Calendar, rows: seq<NationRow>)
    ensures forall a :: a in Apply(Cadre(f), cal, rows) ==> a in Apply(TheBoss(f), cal, rows)
  {
    forall a | a in Apply(Cadre(f), cal, rows)
      ensures a in Apply(TheBoss(f), cal, rows)
    {
      var g := Group(Kept(QFlagged(f), rows), KeyFn(cal, Month), AwardKey(a));
      DistinctAosAtMostRows(g);
    }
  }

  /** Seven rows at one AO are not a Cadre: the measure counts distinct AOs. */
  lemma CadreCountsDistinctAos(g: seq<NationRow>, ao: string)
    requires |g| > 0 && forall x :: x in g ==> x.aoId == ao
    ensures Size(DistinctAos, g) == 1
  {
    assert AosOf(g) == {ao} by {
      assert g[0] in g;
    }
  }

  // ---------------------------------------------------------------------------------------
  // Holding Down the Fort: grouped by AO as well, the AO column then dropped

  datatype FortKey = FortKey(period: int, slackUserId: string, region: string, aoId: string)

  function FortKeyFn(cal: Calendar): NationRow -> FortKey {
    (x: NationRow) => FortKey(cal.year(x.date), x.slackUserId, x.region, x.aoId)
  }

  function FortGroup(k: FortKey): GroupKey { GroupKey(k.period, k.slackUserId, k.region) }

  const FortThreshold: nat := 50

  function Hdtf(f: Filters, cal: Calendar, rows: seq<NationRow>): (r: seq<Award>)
    ensures forall a :: a in r <==> exists ao :: EarnsFort(f, cal, rows, a, ao)
  {
    var kept := Kept(BothFilters(f), rows);
    var ts := Tallies(kept, FortKeyFn(cal), Rows);
    HdtfMembers(f, cal, rows);
    AwardsAtLeast(ts, FortThreshold, FortGroup)
  }

  /** `a` is earned at AO `ao`: fifty or more passing rows of its (year, user, region) at that
      AO, dated at the last of them. */
  predicate EarnsFort(f: Filters, cal: Calendar, rows: seq<NationRow>, a: Award, ao: string) {
    var g := Group(Kept(BothFilters(f), rows), FortKeyFn(cal), FortKey(a.period, a.slackUserId, a.region, ao));
    |g| >= FortThreshold && a.dateAwarded == LastDate(g)
  }

  lemma HdtfMembers(f: Filters, cal: Calendar, rows: seq<NationRow>)
    ensures forall a :: a in AwardsAtLeast(Tallies(Kept(BothFilters(f), rows), FortKeyFn(cal), Rows), FortThreshold, FortGroup)
                    <==> exists ao :: EarnsFort(f, cal, rows, a, ao)
  {
    var ts := Tallies(Kept(BothFilters(f), rows), FortKeyFn(cal), Rows);
    forall a, ao | EarnsFort(f, cal, rows, a, ao)
      ensures a in AwardsAtLeast(ts, FortThreshold, FortGroup)
    {
      FortEarnedIsListed(f, cal, rows, a, ao);
    }
    forall a | a in AwardsAtLeast(ts, FortThreshold, FortGroup)
      ensures exists ao :: EarnsFort(f, cal, rows, a, ao)
    {
      var t :| t in ts && t.size >= FortThreshold && a == AwardFrom(t, FortGroup);
      assert t == Summarize(Kept(BothFilters(f), rows), FortKeyFn(cal), Rows, t.key);
      assert EarnsFort(f, cal, rows, a, t.key.aoId);
    }
  }

  lemma FortEarnedIsListed(f: Filters, cal: Calendar, rows: seq<NationRow>, a: Award, ao: string)
    requires EarnsFort(f, cal, rows, a, ao)
    ensures a in AwardsAtLeast(Tallies(Kept(BothFilters(f), rows), FortKeyFn(cal), Rows), FortThreshold, FortGroup)
  {
    var k := FortKey(a.period, a.slackUserId, a.region, ao);
    var t := TallyOf(Kept(BothFilters(f), rows), FortKeyFn(cal), Rows, k);
    assert AwardFrom(t, FortGroup) == a;
  }

  // ---------------------------------------------------------------------------------------
  // The achievement list, in id order

  /** Which rule computes an achievement. */
  datatype RuleKind =
    | PriestRule | MonkRule | LeaderRule | BossRule | HammerRule | CadreRule | PresidenteRule
    | PostsRule(count: nat) | SixPackRule | FortRule

  datatype Achievement = Achievement(name: string, verb: string, code: string, kind: RuleKind)

  /** The fourteen achievements; an achievement's id is its position plus one. */
  const Catalogue: seq<Achievement> := [
    Achievement("The Priest", "posting for 25 Qsource lessons", "the_priest", PriestRule),
    Achievement("The Monk", "posting at 4 Qsources in a month", "the_monk", MonkRule),
    Achievement("Leader of Men", "Qing at 4 beatdowns in a month", "leader_of_men", LeaderRule),
    Achievement("The Boss", "Qing at 6 beatdowns in a month", "the_boss", BossRule),
    Achievement("Be the Hammer, Not the Nail", "Qing at 6 beatdowns in a week", "be_the_hammer_not_the_nail", HammerRule),
    Achievement("Cadre", "Qing at 7 different AOs in a month", "cadre", CadreRule),
    Achievement("El Presidente", "Qing at 20 beatdowns in a year", "el_presidente", PresidenteRule),
    Achievement("El Quatro", "posting at 25 beatdowns in a year", "el_quatro", PostsRule(25)),
    Achievement("Golden Boy", "posting at 50 beatdowns in a year", "golden_boy", PostsRule(50)),
    Achievement("Centurion", "posting at 100 beatdowns in a year", "centurion", PostsRule(100)),
    Achievement("Karate Kid", "posting at 150 beatdowns in a year", "karate_kid", PostsRule(150)),
    Achievement("Crazy Person", "posting at 200 beatdowns in a year", "crazy_person", PostsRule(200)),
    Achievement("6 pack", "posting at 6 beatdowns in a week", "6_pack", SixPackRule),
    Achievement("Holding Down the Fort", "posting 50 times at an AO", "holding_down_the_fort", FortRule)
  ]

  /** The achievement id of 6 pack. */
  const SixPackId: int := 13

  /** The rule behind an achievement: Q Source rules use the Q Source filters, every other
      rule the beatdown filters. */
  function RuleFor(kind: RuleKind, qsource: Filters, other: Filters, cal: Calendar, rows: seq<NationRow>)
    : seq<Award>
  {
    match kind
    case PriestRule => Apply(ThePriest(qsource), cal, rows)
    case MonkRule => Apply(TheMonk(qsource), cal, rows)
    case LeaderRule => Apply(LeaderOfMen(other), cal, rows)
    case BossRule => Apply(TheBoss(other), cal, rows)
    case HammerRule => Apply(HammerNotNail(other), cal, rows)
    case CadreRule => Apply(Cadre(other), cal, rows)
    case PresidenteRule => Apply(ElPresidente(other), cal, rows)
    case PostsRule(n) => PostRung(other, cal, rows, n)
    case SixPackRule => Apply(SixPack(other), cal, rows)
    case FortRule => Hdtf(other, cal, rows)
  }

  /** The order in which `main` appends frames to `dfs`: the two Q Source rules, five Q rules,
      the post ladder, 6 pack and Holding Down the Fort. */
  const DfsOrder: seq<RuleKind> := [
    PriestRule, MonkRule, LeaderRule, BossRule, HammerRule, CadreRule, PresidenteRule,
    PostsRule(Ladder[0]), PostsRule(Ladder[1]), PostsRule(Ladder[2]), PostsRule(Ladder[3]), PostsRule(Ladder[4]),
    SixPackRule, FortRule
  ]

  /** The `dfs` list: one award frame per rule, in `DfsOrder`. */
  function Dfs(qsource: Filters, other: Filters, cal: Calendar, rows: seq<NationRow>): (r: seq<seq<Award>>)
    ensures |r| == |DfsOrder|
    ensures forall i :: 0 <= i < |r| ==> r[i] == RuleFor(DfsOrder[i], qsource, other, cal, rows)
  {
    seq(|DfsOrder|, i requires 0 <= i < |DfsOrder| => RuleFor(DfsOrder[i], qsource, other, cal, rows))
  }

  /** The i-th frame of `dfs` is computed by the rule of the i-th achievement of the list, so the
      id the sender gives a frame (its position plus one) names the achievement it computes. */
  lemma DfsFollowsCatalogue(qsource: Filters, other: Filters, cal: Calendar, rows: seq<NationRow>, i: nat)
    requires i < |Catalogue|
    ensures |Dfs(qsource, other, cal, rows)| == |Catalogue|
    ensures Dfs(qsource, other, cal, rows)[i] == RuleFor(Catalogue[i].kind, qsource, other, cal, rows)
  {
    assert DfsOrder == seq(|Catalogue|, k requires 0 <= k < |Catalogue| => Catalogue[k].kind);
  }

  /** The position the sender numbers from 1 is the 6 pack entry of the catalogue. */
  lemma SixPackIsThirteenth()
    ensures Catalogue[SixPackId - 1].code == "6_pack" && Catalogue[SixPackId - 1].name == "6 pack"
  {
  }
}
