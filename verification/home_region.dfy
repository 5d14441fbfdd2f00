/** Home-region assignment, shared by the achievement job and both Kotter reports: every
    region reports one attendance figure per email, taken from the shortest look-back window
    in which the man attended at all; each email is then assigned the region with the largest
    figure, and the national beatdown rows are joined to that region by email. Also the
    region-list filters each job applies before it builds its queries. */
module HomeRegion {
  import opened Wrappers
  import opened Text
  import opened Seqs
  import Rules

  /** One region's attendance counts for one email: the 30-, 60-, 90- and 120-day look-back
      counts (absent when the man has no attendance in that window, so the outer join leaves
      NULL) and the count over the current calendar year. */
  datatype Windows = Windows(last30: Option<nat>, last60: Option<nat>, last90: Option<nat>,
                             last120: Option<nat>, thisYear: nat)

  /** The look-back windows, shortest first, as the CASE tests them. */
  function LookBacks(w: Windows): seq<Option<nat>> {
    [w.last30, w.last60, w.last90, w.last120]
  }

  /** The first present value of `s`, or `otherwise` when every value is absent. */
  function FirstPresent<T>(s: seq<Option<T>>, otherwise: T): (r: T)
    ensures (forall i :: 0 <= i < |s| ==> s[i].None?) ==> r == otherwise
    ensures forall i :: 0 <= i < |s| && s[i].Some? && (forall j :: 0 <= j < i ==> s[j].None?)
              ==> r == s[i].value
    decreases |s|
  {
    if |s| == 0 then otherwise
    else if s[0].Some? then s[0].value
    else
      var r := FirstPresent(s[1..], otherwise);
      assert forall i :: 1 <= i < |s| ==> s[i] == s[1..][i - 1];
      r
  }

  /** The attendance figure a region reports for one email: the count of the shortest
      window that has one, else the full-year count. */
  function Attendance(w: Windows): (r: nat)
    ensures w.last30.Some? ==> r == w.last30.value
    ensures w.last30.None? && w.last60.Some? ==> r == w.last60.value
    ensures w.last30.None? && w.last60.None? && w.last90.Some? ==> r == w.last90.value
    ensures w.last30.None? && w.last60.None? && w.last90.None? && w.last120.Some? ==> r == w.last120.value
    ensures w.last30.None? && w.last60.None? && w.last90.None? && w.last120.None? ==> r == w.thisYear
  {
    var s := LookBacks(w);
    assert s[0] == w.last30 && s[1] == w.last60 && s[2] == w.last90 && s[3] == w.last120;
    FirstPresent(s, w.thisYear)
  }

  /** The figure always comes from one of the five counts. */
  lemma AttendanceIsOneOfTheCounts(w: Windows)
    ensures Some(Attendance(w)) in LookBacks(w) || Attendance(w) == w.thisYear
  {
  }

  /** One row of the home-region query: a region, an email, the Slack user id where the query
      selects one (the Kotter reports do, the achievement job does not) and the counts. */
  datatype HomeRow = HomeRow(region: string, email: string, userId: Option<string>, windows: Windows)

  function EmailOf(h: HomeRow): string {
    h.email
  }

  function AttendanceOf(h: HomeRow): int {
    Attendance(h.windows)
  }

  /** Grouping by email and keeping, per email, the row sorted last by attendance: one row
      per email, taken from the input, with the largest attendance figure (which of several
      equal rows survives is left open). */
  function HomeRegions(rows: seq<HomeRow>): (r: seq<HomeRow>)
    ensures UniqueKeys(r, EmailOf)
    ensures KeysOf(r, EmailOf) == KeysOf(rows, EmailOf)
    ensures forall h :: h in r ==> h in rows
    ensures forall h, x :: h in r && x in rows && x.email == h.email
              ==> Attendance(x.windows) <= Attendance(h.windows)
  {
    var r := BestPerKey(rows, EmailOf, AttendanceOf);
    forall h, x | h in r && x in rows && x.email == h.email
      ensures Attendance(x.windows) <= Attendance(h.windows)
    {
      var i :| 0 <= i < |r| && r[i] == h;
      var j :| 0 <= j < |rows| && rows[j] == x;
      assert EmailOf(rows[j]) == EmailOf(r[i]);
      assert AttendanceOf(rows[j]) <= AttendanceOf(r[i]);
    }
    r
  }

  /** Every email that has a region row gets exactly one home region. */
  lemma HomeRegionPerEmail(rows: seq<HomeRow>, e: string)
    ensures (exists x :: x in rows && x.email == e) <==>
            (exists h :: h in HomeRegions(rows) && h.email == e)
  {
    var r := HomeRegions(rows);
    if exists x :: x in rows && x.email == e {
      var x :| x in rows && x.email == e;
      var j :| 0 <= j < |rows| && rows[j] == x;
      assert e in KeysOf(rows, EmailOf);
      assert e in KeysOf(r, EmailOf);
      var i :| 0 <= i < |r| && EmailOf(r[i]) == e;
      assert r[i] in r;
    }
  }

  /** The joined rows for one input row: one per home row with the same email. */
  function Matches<T, U(!new)>(x: T, emailOf: T -> string, homes: seq<HomeRow>, attach: (T, HomeRow) -> U): (r: seq<U>)
    ensures forall u :: u in r <==> exists h :: h in homes && h.email == emailOf(x) && u == attach(x, h)
    ensures |r| <= |homes|
    decreases |homes|
  {
    if |homes| == 0 then []
    else
      var rest := Matches(x, emailOf, homes[1..], attach);
      assert forall h :: h in homes[1..] ==> h in homes;
      assert forall h :: h in homes ==> h == homes[0] || h in homes[1..];
      (if homes[0].email == emailOf(x) then [attach(x, homes[0])] else []) + rest
  }

  /** A row whose email no home row carries joins nothing. */
  lemma {:induction false} MatchesNone<T, U(!new)>(x: T, emailOf: T -> string, homes: seq<HomeRow>,
                                             attach: (T, HomeRow) -> U)
    requires forall h :: h in homes ==> h.email != emailOf(x)
    ensures Matches(x, emailOf, homes, attach) == []
    decreases |homes|
  {
    if |homes| > 0 {
      assert homes[0] in homes;
      MatchesNone(x, emailOf, homes[1..], attach);
    }
  }

  /** With one home row per email an input row joins at most once. */
  lemma {:induction false} MatchesAtMostOne<T, U(!new)>(x: T, emailOf: T -> string, homes: seq<HomeRow>,
                                                  attach: (T, HomeRow) -> U)
    requires UniqueKeys(homes, EmailOf)
    ensures |Matches(x, emailOf, homes, attach)| <= 1
    decreases |homes|
  {
    if |homes| > 0 {
      assert UniqueKeys(homes[1..], EmailOf) by {
        forall i, j | 0 <= i < |homes[1..]| && 0 <= j < |homes[1..]| && EmailOf(homes[1..][i]) == EmailOf(homes[1..][j])
          ensures i == j
        {
          assert homes[1..][i] == homes[i + 1] && homes[1..][j] == homes[j + 1];
        }
      }
      MatchesAtMostOne(x, emailOf, homes[1..], attach);
      if homes[0].email == emailOf(x) {
        forall h | h in homes[1..]
          ensures h.email != emailOf(x)
        {
          var k :| 0 <= k < |homes[1..]| && homes[1..][k] == h;
          assert homes[k + 1] == h;
        }
        MatchesNone(x, emailOf, homes[1..], attach);
      }
    }
  }

  /** polars inner `join(on="email")` of `rows` against the home-region table: each row once
      per home row with its email, in input order; rows whose email has no home region vanish. */
  function JoinHome<T, U(!new)>(rows: seq<T>, emailOf: T -> string, homes: seq<HomeRow>,
                          attach: (T, HomeRow) -> U): (r: seq<U>)
    ensures forall u :: u in r <==>
              exists i, h :: 0 <= i < |rows| && h in homes && h.email == emailOf(rows[i]) && u == attach(rows[i], h)
    decreases |rows|
  {
    if |rows| == 0 then []
    else
      var head := Matches(rows[0], emailOf, homes, attach);
      var rest := JoinHome(rows[1..], emailOf, homes, attach);
      assert forall i :: 1 <= i < |rows| ==> rows[i] == rows[1..][i - 1];
      forall u | u in head + rest
        ensures exists i, h :: 0 <= i < |rows| && h in homes && h.email == emailOf(rows[i]) && u == attach(rows[i], h)
      {
        if u in head {
          var h :| h in homes && h.email == emailOf(rows[0]) && u == attach(rows[0], h);
          assert 0 <= 0 < |rows| && u == attach(rows[0], h);
        } else {
          var i, h :| 0 <= i < |rows[1..]| && h in homes && h.email == emailOf(rows[1..][i]) && u == attach(rows[1..][i], h);
          assert u == attach(rows[i + 1], h);
        }
      }
      forall u | exists i, h :: 0 <= i < |rows| && h in homes && h.email == emailOf(rows[i]) && u == attach(rows[i], h)
        ensures u in head + rest
      {
        var i, h :| 0 <= i < |rows| && h in homes && h.email == emailOf(rows[i]) && u == attach(rows[i], h);
        if i > 0 {
          assert u == attach(rows[1..][i - 1], h);
        }
      }
      head + rest
  }

  /** Joined against a table with one row per email, no input row is duplicated. */
  lemma {:induction false} JoinHomeNoLarger<T, U(!new)>(rows: seq<T>, emailOf: T -> string, homes: seq<HomeRow>,
                                                  attach: (T, HomeRow) -> U)
    requires UniqueKeys(homes, EmailOf)
    ensures |JoinHome(rows, emailOf, homes, attach)| <= |rows|
    decreases |rows|
  {
    if |rows| > 0 {
      MatchesAtMostOne(rows[0], emailOf, homes, attach);
      JoinHomeNoLarger(rows[1..], emailOf, homes, attach);
    }
  }

  /** Every joined row carries the home region of its email: the region row with the largest
      attendance figure among all region rows for that email. */
  lemma JoinedRegionIsBest<T, U(!new)>(rows: seq<T>, emailOf: T -> string, regionRows: seq<HomeRow>,
                                 attach: (T, HomeRow) -> U, u: U)
    requires u in JoinHome(rows, emailOf, HomeRegions(regionRows), attach)
    ensures exists i, h :: 0 <= i < |rows| && h in regionRows && h.email == emailOf(rows[i])
              && u == attach(rows[i], h)
              && forall x :: x in regionRows && x.email == h.email ==> Attendance(x.windows) <= Attendance(h.windows)
  {
    var homes := HomeRegions(regionRows);
    var i, h :| 0 <= i < |rows| && h in homes && h.email == emailOf(rows[i]) && u == attach(rows[i], h);
    assert h in regionRows;
  }

  /** One row of the achievement job's national query, before a region is attached. */
  datatype Post = Post(email: string, slackUserId: string, aoId: string, ao: string, date: int, qFlag: int,
                       backblast: Option<string>)

  function PostEmail(p: Post): string {
    p.email
  }

  function WithRegion(p: Post, h: HomeRow): Rules.NationRow {
    Rules.NationRow(p.email, p.slackUserId, p.aoId, p.ao, p.date, p.qFlag, p.backblast, h.region)
  }

  /** The national row without its region. */
  function PostOf(n: Rules.NationRow): Post {
    Post(n.email, n.slackUserId, n.aoId, n.ao, n.date, n.qFlag, n.backblast)
  }

  /** `h` is a home region among `regionRows`: no row for the same email has a larger figure. */
  predicate IsHome(regionRows: seq<HomeRow>, h: HomeRow) {
    h in regionRows && forall x :: x in regionRows && x.email == h.email ==> Attendance(x.windows) <= Attendance(h.windows)
  }

  /** The national frame the achievement rules read: every post of a man who has a region row
      appears, once, tagged with his home region; posts of anyone else are dropped. */
  function NationFrame(posts: seq<Post>, regionRows: seq<HomeRow>): (r: seq<Rules.NationRow>)
    ensures |r| <= |posts|
    ensures forall n :: n in r ==> PostOf(n) in posts
    ensures forall n :: n in r ==>
              exists h :: IsHome(regionRows, h) && h.email == n.email && h.region == n.region
    ensures forall p :: p in posts ==>
              ((exists n :: n in r && PostOf(n) == p) <==> exists x :: x in regionRows && x.email == p.email)
  {
    var r := JoinHome(posts, PostEmail, HomeRegions(regionRows), WithRegion);
    JoinHomeNoLarger(posts, PostEmail, HomeRegions(regionRows), WithRegion);
    forall n | n in r
      ensures PostOf(n) in posts
      ensures exists h :: IsHome(regionRows, h) && h.email == n.email && h.region == n.region
    {
      NationRowOrigin(posts, regionRows, n);
    }
    forall p | p in posts
      ensures (exists n :: n in r && PostOf(n) == p) <==> exists x :: x in regionRows && x.email == p.email
    {
      PostKeptIff(posts, regionRows, p);
    }
    r
  }

  lemma NationRowOrigin(posts: seq<Post>, regionRows: seq<HomeRow>, n: Rules.NationRow)
    requires n in JoinHome(posts, PostEmail, HomeRegions(regionRows), WithRegion)
    ensures PostOf(n) in posts
    ensures exists h :: IsHome(regionRows, h) && h.email == n.email && h.region == n.region
  {
    var homes := HomeRegions(regionRows);
    var i, h :| 0 <= i < |posts| && h in homes && h.email == PostEmail(posts[i]) && n == WithRegion(posts[i], h);
    assert PostOf(n) == posts[i];
    assert IsHome(regionRows, h);
  }

  lemma PostKeptIff(posts: seq<Post>, regionRows: seq<HomeRow>, p: Post)
    requires p in posts
    ensures (exists n :: n in JoinHome(posts, PostEmail, HomeRegions(regionRows), WithRegion) && PostOf(n) == p)
            <==> exists x :: x in regionRows && x.email == p.email
  {
    if exists x :: x in regionRows && x.email == p.email {
      PostKeptWhenHomed(posts, regionRows, p);
    }
    if exists n :: n in JoinHome(posts, PostEmail, HomeRegions(regionRows), WithRegion) && PostOf(n) == p {
      var n :| n in JoinHome(posts, PostEmail, HomeRegions(regionRows), WithRegion) && PostOf(n) == p;
      NationRowOrigin(posts, regionRows, n);
    }
  }

  lemma PostKeptWhenHomed(posts: seq<Post>, regionRows: seq<HomeRow>, p: Post)
    requires p in posts
    requires exists x :: x in regionRows && x.email == p.email
    ensures exists n :: n in JoinHome(posts, PostEmail, HomeRegions(regionRows), WithRegion) && PostOf(n) == p
  {
    var homes := HomeRegions(regionRows);
    var i :| 0 <= i < |posts| && posts[i] == p;
    HomeRegionPerEmail(regionRows, p.email);
    var h :| h in homes && h.email == p.email;
    var n := WithRegion(posts[i], h);
    assert PostOf(n) == p;
    JoinHomeHas(posts, PostEmail, homes, WithRegion, i, h);
  }

  /** A row and a home row with its email join. */
  lemma JoinHomeHas<T, U(!new)>(rows: seq<T>, emailOf: T -> string, homes: seq<HomeRow>,
                                attach: (T, HomeRow) -> U, i: nat, h: HomeRow)
    requires i < |rows| && h in homes && h.email == emailOf(rows[i])
    ensures attach(rows[i], h) in JoinHome(rows, emailOf, homes, attach)
  {
    var u := attach(rows[i], h);
    assert 0 <= i < |rows| && h in homes && h.email == emailOf(rows[i]) && u == attach(rows[i], h);
  }

  /** The MySQL pattern `LIKE 'f3%'` under the default case-insensitive collation. */
  predicate LikeF3(schema: string) {
    IsPrefix("f3", Lower(schema))
  }

  /** The development schemas every job skips. */
  const DevSchemas: seq<string> := ["f3devcommunity", "f3development"]

  /** The schemas the newer Kotter report drops before any query. */
  const KotterExcluded: seq<string> := ["f3devcommunity", "f3development", "f3csra"]

  /** A region the achievement job and the older Kotter report's query builders cover. */
  predicate AchievementRegion(schema: string) {
    LikeF3(schema) && schema !in DevSchemas
  }

  /** A region the newer Kotter report covers. */
  predicate KotterRegion(schema: string) {
    LikeF3(schema) && schema !in KotterExcluded
  }

  predicate NotCsra(schema: string) {
    schema != "f3csra"
  }

  /** The regions the achievement job and the older Kotter report's query builders cover. */
  function AchievementSchemas(regions: seq<string>): (r: seq<string>)
    ensures forall s :: s in r <==> s in regions && LikeF3(s) && s != "f3devcommunity" && s != "f3development"
    ensures |r| <= |regions|
  {
    Filter(regions, AchievementRegion)
  }

  /** The regions the newer Kotter report covers. */
  function KotterSchemas(regions: seq<string>): (r: seq<string>)
    ensures forall s :: s in r <==>
              s in regions && LikeF3(s) && s != "f3devcommunity" && s != "f3development" && s != "f3csra"
    ensures |r| <= |regions|
  {
    Filter(regions, KotterRegion)
  }

  /** The newer Kotter report covers the achievement regions except f3csra, in the same order. */
  lemma KotterSchemasNarrowAchievementSchemas(regions: seq<string>)
    ensures KotterSchemas(regions) == Filter(AchievementSchemas(regions), NotCsra)
  {
    forall x ensures KotterRegion(x) == (AchievementRegion(x) && NotCsra(x)) {
    }
    FilterNarrow(regions, AchievementRegion, NotCsra, KotterRegion);
  }

  /** Name matching ignores letter case. */
  lemma SchemaCaseExample()
    ensures AchievementSchemas(["F3Omaha", "paxminer"]) == ["F3Omaha"]
  {
    assert AchievementRegion("F3Omaha") by {
      assert Lower("F3Omaha")[..2] == "f3";
    }
    assert !AchievementRegion("paxminer") by {
      assert Lower("paxminer")[0] == 'p';
    }
    assert ["F3Omaha", "paxminer"] == ["F3Omaha"] + ["paxminer"];
    FilterSingle("F3Omaha", AchievementRegion);
    FilterSingle("paxminer", AchievementRegion);
    FilterAppend(["F3Omaha"], ["paxminer"], AchievementRegion);
  }

  /** f3csra is covered by the achievement job and dropped by the newer Kotter report. */
  lemma CsraExample()
    ensures AchievementSchemas(["f3csra"]) == ["f3csra"]
    ensures KotterSchemas(["f3csra"]) == []
  {
    assert Lower("f3csra")[..2] == "f3";
    assert "f3csra" !in DevSchemas;
  }
}
