/** Region discovery, per-region watermarks and the per-region pull of f3_data_builder.py.
    Every region is a PAXminer schema holding `users`, `aos`, `beatdowns` and `bd_attendance`;
    the warehouse remembers, per region, the newest beatdown `timestamp` and `ts_edited` it has
    merged, and the next run pulls only rows past those watermarks. Timestamps are modelled as
    integers. */
module Extraction {
  import opened Wrappers
  import opened Seqs
  import opened Logic

  /** `ts_edited` in a PAXminer schema: NULL, the text 'NA', or an edit time. */
  datatype Edited = NoEdit | NotAvailable | EditedAt(t: int)

  datatype SrcUser = SrcUser(slackUserId: string, userName: Option<string>, email: Option<string>)

  datatype SrcAo = SrcAo(channelId: string, aoName: Option<string>)

  datatype SrcBeatdown = SrcBeatdown(
    channelId: string, bdDate: int, q: Option<string>, coq: Option<string>,
    paxCount: Option<int>, fngCount: Option<int>, timestamp: Option<int>, edited: Edited,
    backblast: Option<string>, json: Option<string>)

  datatype SrcAttendance = SrcAttendance(
    channelId: string, bdDate: int, q: Option<string>, user: Option<string>,
    timestamp: Option<int>, edited: Edited, json: Option<string>)

  /** The four tables of one region's schema. */
  datatype Schema = Schema(
    users: seq<SrcUser>, aos: seq<SrcAo>, beatdowns: seq<SrcBeatdown>, attendance: seq<SrcAttendance>)

  /** A pulled row stamped with the region it came from (`{region_id} AS region_id`). */
  datatype Regional<T> = Regional(regionId: nat, row: T)

  // ---------------------------------------------------------------------------------------
  // Watermarks

  /** A merged beatdown as the watermark subquery sees it: its AO's region, `timestamp`
      and `ts_edited`. */
  datatype StatRow = StatRow(regionId: nat, timestamp: Option<int>, tsEdited: Option<int>)

  /** The watermark columns of a region row: `max_timestamp`, `max_ts_edited`, `beatdown_count`. */
  datatype Watermark = Watermark(maxTimestamp: Option<int>, maxTsEdited: Option<int>, beatdownCount: Option<nat>)

  /** SQL `MAX`: ignores NULLs, NULL when every value is NULL. */
  function SqlMax(s: seq<Option<int>>): (m: Option<int>)
    ensures m.None? <==> forall i :: 0 <= i < |s| ==> s[i].None?
    ensures m.Some? ==> m in s
    ensures m.Some? ==> forall i :: 0 <= i < |s| && s[i].Some? ==> s[i].value <= m.value
    decreases |s|
  {
    if |s| == 0 then None
    else
      var rest := SqlMax(s[1..]);
      assert forall i :: 1 <= i < |s| ==> s[i] == s[1..][i - 1];
      match s[0]
      case None => rest
      case Some(v) =>
        if rest.Some? && rest.value > v then rest else Some(v)
  }

  /** The region's row of the `LEFT JOIN (SELECT region_id, MAX(timestamp), MAX(ts_edited),
      COUNT(*) ... GROUP BY region_id)`: all NULL when the region has no merged beatdown. */
  function RegionWatermark(stats: seq<StatRow>, regionId: nat): (w: Watermark)
    ensures w.beatdownCount.None? <==> forall i :: 0 <= i < |stats| ==> stats[i].regionId != regionId
    ensures w.beatdownCount.Some? ==> w.beatdownCount.value >= 1
    ensures w.beatdownCount.None? ==> w.maxTimestamp.None? && w.maxTsEdited.None?
  {
    var group := Filter(stats, (r: StatRow) => r.regionId == regionId);
    if |group| == 0 then
      assert forall i :: 0 <= i < |stats| ==> stats[i] !in group;
      Watermark(None, None, None)
    else
      assert group[0] in stats;
      Watermark(SqlMax(seq(|group|, i requires 0 <= i < |group| => group[i].timestamp)),
                SqlMax(seq(|group|, i requires 0 <= i < |group| => group[i].tsEdited)),
                Some(|group|))
  }

  // ---------------------------------------------------------------------------------------
  // Extraction mode

  /** Which beatdown/attendance query runs for a region (f3_data_builder.py, lines 68-76). */
  datatype Mode =
    | SinceBoth(maxTs: int, maxEd: int)   // `timestamp > max_ts OR ts_edited > max_ed`
    | SinceTimestamp(maxTs: int)          // `timestamp > max_ts`
    | Everything                          // no WHERE clause
    | NoPull                              // nothing appended for this region

  /** The branch as written: the unfiltered pull needs a `beatdown_count` of exactly 0. */
  function SelectMode(w: Watermark): (m: Mode)
    ensures m.SinceBoth? <==> w.maxTimestamp.Some? && w.maxTsEdited.Some?
    ensures m.SinceBoth? ==> m.maxTs == w.maxTimestamp.value && m.maxEd == w.maxTsEdited.value
    ensures m.SinceTimestamp? <==> w.maxTimestamp.Some? && w.maxTsEdited.None?
    ensures m.SinceTimestamp? ==> m.maxTs == w.maxTimestamp.value
    ensures m.Everything? <==> w.maxTimestamp.None? && w.beatdownCount == Some(0)
    ensures m.NoPull? <==> w.maxTimestamp.None? && w.beatdownCount != Some(0)
  {
    if w.maxTimestamp.Some? && w.maxTsEdited.Some? then SinceBoth(w.maxTimestamp.value, w.maxTsEdited.value)
    else if w.maxTimestamp.Some? then SinceTimestamp(w.maxTimestamp.value)
    else if w.beatdownCount == Some(0) then Everything
    else NoPull
  }

  /** The watermark the region query produces never has a count of 0, so the unfiltered branch
      is dead code: whatever the warehouse holds, no region is ever pulled in full. */
  lemma EverythingUnreachable(stats: seq<StatRow>, regionId: nat)
    ensures SelectMode(RegionWatermark(stats, regionId)) != Everything
  {
  }

  /** A region with no merged beatdown yet is never pulled at all as written. */
  lemma NewRegionNeverPulled(stats: seq<StatRow>, regionId: nat)
    requires forall i :: 0 <= i < |stats| ==> stats[i].regionId != regionId
    ensures SelectMode(RegionWatermark(stats, regionId)) == NoPull
  {
  }

  /** The selector as evidently intended (and as the refactored extractor behaves in
      tests/test_f3_data_builder.py): with no watermark at all, pull everything. */
  function SelectModeIntended(w: Watermark): (m: Mode)
    ensures m.SinceBoth? <==> w.maxTimestamp.Some? && w.maxTsEdited.Some?
    ensures m.SinceTimestamp? <==> w.maxTimestamp.Some? && w.maxTsEdited.None?
    ensures m.Everything? <==> w.maxTimestamp.None? && w.maxTsEdited.None?
    ensures m.NoPull? <==> w.maxTimestamp.None? && w.maxTsEdited.Some?
  {
    if w.maxTimestamp.Some? && w.maxTsEdited.Some? then SinceBoth(w.maxTimestamp.value, w.maxTsEdited.value)
    else if w.maxTimestamp.Some? then SinceTimestamp(w.maxTimestamp.value)
    else if w.maxTsEdited.None? then Everything
    else NoPull
  }

  /** With the intended selector a new region is pulled in full, and the two selectors agree
      on every region that already has a timestamp watermark. */
  lemma NewRegionPulledInFull(stats: seq<StatRow>, regionId: nat)
    requires forall i :: 0 <= i < |stats| ==> stats[i].regionId != regionId
    ensures SelectModeIntended(RegionWatermark(stats, regionId)) == Everything
  {
  }

  lemma SelectorsAgreeWithWatermark(w: Watermark)
    requires w.maxTimestamp.Some?
    ensures SelectModeIntended(w) == SelectMode(w)
  {
  }

  // ---------------------------------------------------------------------------------------
  // The WHERE clause, in SQL's three-valued logic

  /** `x > c` where `x` may be NULL. */
  function SqlGreater(x: Option<int>, c: int): (t: Truth)
    ensures t == IsUnknown <==> x.None?
    ensures t == IsTrue <==> x.Some? && x.value > c
  {
    match x
    case None => IsUnknown
    case Some(v) => if v > c then IsTrue else IsFalse
  }

  /** MySQL compares the text column numerically: 'NA' converts to 0. */
  function EditedAsNumber(e: Edited): Option<int> {
    match e
    case NoEdit => None
    case NotAvailable => Some(0)
    case EditedAt(t) => Some(t)
  }

  /** The WHERE clause of the query `m` selects; `Everything` has none. */
  function WhereClause(m: Mode, ts: Option<int>, ed: Edited): Truth
    requires !m.NoPull?
  {
    match m
    case SinceBoth(maxTs, maxEd) => Or(SqlGreater(ts, maxTs), SqlGreater(EditedAsNumber(ed), maxEd))
    case SinceTimestamp(maxTs) => SqlGreater(ts, maxTs)
    case Everything => IsTrue
  }

  /** Two-valued reading of the filter: a row is pulled when it is newer than the timestamp
      watermark or edited after the edit watermark; a NULL never qualifies. */
  predicate Newer(m: Mode, ts: Option<int>, ed: Edited)
    requires !m.NoPull?
  {
    match m
    case SinceBoth(maxTs, maxEd) =>
      (ts.Some? && ts.value > maxTs) || (EditedAsNumber(ed).Some? && EditedAsNumber(ed).value > maxEd)
    case SinceTimestamp(maxTs) => ts.Some? && ts.value > maxTs
    case Everything => true
  }

  /** WHERE keeps a row exactly when its condition is TRUE, which is the two-valued reading. */
  lemma WhereClauseMeaning(m: Mode, ts: Option<int>, ed: Edited)
    requires !m.NoPull?
    ensures WhereClause(m, ts, ed) == IsTrue <==> Newer(m, ts, ed)
  {
  }

  /** The rows a query for mode `m` returns; `None` when no query runs. */
  function SelectRows<T(!new)>(m: Mode, rows: seq<T>, ts: T -> Option<int>, ed: T -> Edited): (r: Option<seq<T>>)
    ensures r.None? <==> m.NoPull?
    ensures r.Some? ==> forall x :: x in r.value <==> x in rows && Newer(m, ts(x), ed(x))
    ensures r.Some? && m.Everything? ==> r.value == rows
  {
    if m.NoPull? then None
    else
      var keep := (x: T) => WhereClause(m, ts(x), ed(x)) == IsTrue;
      var kept := Filter(rows, keep);
      WhereClauseOnRows(m, rows, ts, ed);
      if m.Everything? then
        FilterAll(rows, keep);
        Some(kept)
      else Some(kept)
  }

  lemma WhereClauseOnRows<T>(m: Mode, rows: seq<T>, ts: T -> Option<int>, ed: T -> Edited)
    requires !m.NoPull?
    ensures forall x :: x in rows ==> (WhereClause(m, ts(x), ed(x)) == IsTrue <==> Newer(m, ts(x), ed(x)))
  {
    forall x | x in rows
      ensures WhereClause(m, ts(x), ed(x)) == IsTrue <==> Newer(m, ts(x), ed(x))
    {
      WhereClauseMeaning(m, ts(x), ed(x));
    }
  }

  lemma {:induction false} FilterAll<T(!new)>(s: seq<T>, p: T -> bool)
    requires forall i :: 0 <= i < |s| ==> p(s[i])
    ensures Filter(s, p) == s
    decreases |s|
  {
    if |s| > 0 {
      assert forall i :: 0 <= i < |s[1..]| ==> s[1..][i] == s[i + 1];
      FilterAll(s[1..], p);
      assert p(s[0]);
      assert s == [s[0]] + s[1..];
    }
  }

  /** With watermarks (100, 50), a beatdown stamped 90 and edited at 60 is pulled; one edited
      at 40 is not. */
  lemma IncrementalFilterExample()
    ensures WhereClause(SinceBoth(100, 50), Some(90), EditedAt(60)) == IsTrue
    ensures WhereClause(SinceBoth(100, 50), Some(90), EditedAt(40)) != IsTrue
  {
  }

  // ---------------------------------------------------------------------------------------
  // Pulling regions

  /** A row of `weaselbot.combined_regions` joined with its watermark. */
  datatype RegionRow = RegionRow(schemaName: string, regionId: nat, watermark: Watermark)

  /** What one region contributes: users and AOs always, beatdowns and attendance only when a
      query runs for its mode. */
  datatype RegionPull = RegionPull(
    users: seq<Regional<SrcUser>>, aos: seq<Regional<SrcAo>>,
    beatdowns: Option<seq<Regional<SrcBeatdown>>>, attendance: Option<seq<Regional<SrcAttendance>>>)

  function Stamp<T>(regionId: nat, rows: seq<T>): (r: seq<Regional<T>>)
    ensures |r| == |rows|
    ensures forall i :: 0 <= i < |r| ==> r[i].regionId == regionId && r[i].row == rows[i]
  {
    seq(|rows|, i requires 0 <= i < |rows| => Regional(regionId, rows[i]))
  }

  function PullRegion(region: RegionRow, s: Schema, select: Watermark -> Mode): (p: RegionPull)
    ensures p.users == Stamp(region.regionId, s.users)
    ensures p.aos == Stamp(region.regionId, s.aos)
    ensures p.beatdowns.None? <==> select(region.watermark).NoPull?
    ensures p.attendance.None? <==> select(region.watermark).NoPull?
    ensures p.beatdowns.Some? ==>
      forall b :: b in p.beatdowns.value <==>
        (b.regionId == region.regionId && b.row in s.beatdowns
         && Newer(select(region.watermark), b.row.timestamp, b.row.edited))
  {
    var m := select(region.watermark);
    var bds := SelectRows(m, s.beatdowns, (b: SrcBeatdown) => b.timestamp, (b: SrcBeatdown) => b.edited);
    var att := SelectRows(m, s.attendance, (a: SrcAttendance) => a.timestamp, (a: SrcAttendance) => a.edited);
    var p := RegionPull(
      Stamp(region.regionId, s.users), Stamp(region.regionId, s.aos),
      if bds.Some? then Some(Stamp(region.regionId, bds.value)) else None,
      if att.Some? then Some(Stamp(region.regionId, att.value)) else None);
    if bds.Some? then
      StampMembers(region.regionId, bds.value);
      p
    else p
  }

  lemma StampMembers<T>(regionId: nat, rows: seq<T>)
    ensures forall b: Regional<T> :: b in Stamp(regionId, rows) <==> b.regionId == regionId && b.row in rows
  {
    var st := Stamp(regionId, rows);
    forall b: Regional<T> | b.regionId == regionId && b.row in rows
      ensures b in st
    {
      var i :| 0 <= i < |rows| && rows[i] == b.row;
      assert st[i] == b;
    }
  }

  /** Everything pulled across regions, concatenated in region order. */
  datatype Extracted = Extracted(
    users: seq<Regional<SrcUser>>, aos: seq<Regional<SrcAo>>,
    beatdowns: seq<Regional<SrcBeatdown>>, attendance: seq<Regional<SrcAttendance>>)

  /** Why the run stops: a region's schema cannot be read, or `pd.concat` is handed an empty
      list (no regions, or no region ran a beatdown query). */
  datatype PullError = MissingSchema(schemaName: string) | NothingToConcatenate

  /** Region `i` is the first whose schema cannot be read. */
  predicate FirstMissing(regions: seq<RegionRow>, schemas: map<string, Schema>, i: nat)
    requires i < |regions|
  {
    regions[i].schemaName !in schemas && forall j :: 0 <= j < i ==> regions[j].schemaName in schemas
  }

  /** The per-region frames, in order, before concatenation; the first region whose schema
      cannot be read stops the run. */
  function PullEach(regions: seq<RegionRow>, schemas: map<string, Schema>, select: Watermark -> Mode)
    : (r: Result<seq<RegionPull>, PullError>)
    ensures r.Success? <==> forall i :: 0 <= i < |regions| ==> regions[i].schemaName in schemas
    ensures r.Success? ==> |r.value| == |regions|
    ensures r.Success? ==> forall i :: 0 <= i < |regions| ==>
      r.value[i] == PullRegion(regions[i], schemas[regions[i].schemaName], select)
    ensures r.Failure? ==> exists i :: 0 <= i < |regions| && FirstMissing(regions, schemas, i)
                                        && r.error == MissingSchema(regions[i].schemaName)
    decreases |regions|
  {
    if |regions| == 0 then Success([])
    else if regions[0].schemaName !in schemas then Failure(MissingSchema(regions[0].schemaName))
    else
      match PullEach(regions[1..], schemas, select)
      case Failure(e) =>
        var i :| 0 <= i < |regions[1..]| && FirstMissing(regions[1..], schemas, i)
                 && e == MissingSchema(regions[1..][i].schemaName);
        assert forall j :: 1 <= j < i + 1 ==> regions[j] == regions[1..][j - 1];
        assert regions[i + 1] == regions[1..][i];
        assert FirstMissing(regions, schemas, i + 1);
        Failure(e)
      case Success(rest) =>
        assert forall i :: 1 <= i < |regions| ==> regions[i] == regions[1..][i - 1];
        Success([PullRegion(regions[0], schemas[regions[0].schemaName], select)] + rest)
  }

  /** The frames a list of optional frames actually holds (the `.append` calls that ran). */
  function Present<T>(frames: seq<Option<T>>): (r: seq<T>)
    ensures |r| == 0 <==> forall i :: 0 <= i < |frames| ==> frames[i].None?
    decreases |frames|
  {
    if |frames| == 0 then []
    else
      assert forall i :: 1 <= i < |frames| ==> frames[i] == frames[1..][i - 1];
      (if frames[0].Some? then [frames[0].value] else []) + Present(frames[1..])
  }

  /** The users frame of each region. */
  function UserFrames(pulls: seq<RegionPull>): (r: seq<seq<Regional<SrcUser>>>)
    ensures |r| == |pulls| && forall i :: 0 <= i < |pulls| ==> r[i] == pulls[i].users
  {
    seq(|pulls|, i requires 0 <= i < |pulls| => pulls[i].users)
  }

  /** The AO frame of each region. */
  function AoFrames(pulls: seq<RegionPull>): (r: seq<seq<Regional<SrcAo>>>)
    ensures |r| == |pulls| && forall i :: 0 <= i < |pulls| ==> r[i] == pulls[i].aos
  {
    seq(|pulls|, i requires 0 <= i < |pulls| => pulls[i].aos)
  }

  /** The beatdown frame of each region, where its query ran. */
  function BeatdownFrames(pulls: seq<RegionPull>): (r: seq<Option<seq<Regional<SrcBeatdown>>>>)
    ensures |r| == |pulls| && forall i :: 0 <= i < |pulls| ==> r[i] == pulls[i].beatdowns
  {
    seq(|pulls|, i requires 0 <= i < |pulls| => pulls[i].beatdowns)
  }

  /** The attendance frame of each region, where its query ran. */
  function AttendanceFrames(pulls: seq<RegionPull>): (r: seq<Option<seq<Regional<SrcAttendance>>>>)
    ensures |r| == |pulls| && forall i :: 0 <= i < |pulls| ==> r[i] == pulls[i].attendance
  {
    seq(|pulls|, i requires 0 <= i < |pulls| => pulls[i].attendance)
  }

  /** Whether some region's watermark selects a beatdown pull. */
  predicate AnyPulls(regions: seq<RegionRow>, select: Watermark -> Mode) {
    exists i :: 0 <= i < |regions| && !select(regions[i].watermark).NoPull?
  }

  /** Lines 50-81: pull every region, then concatenate each list of frames. */
  function PullAll(regions: seq<RegionRow>, schemas: map<string, Schema>, select: Watermark -> Mode)
    : (r: Result<Extracted, PullError>)
    ensures r.Success? <==>
      && (forall i :: 0 <= i < |regions| ==> regions[i].schemaName in schemas)
      && AnyPulls(regions, select)
    ensures r.Failure? && (forall i :: 0 <= i < |regions| ==> regions[i].schemaName in schemas)
      ==> r.error == NothingToConcatenate
    ensures r.Failure? && r.error.MissingSchema? ==>
      exists i :: 0 <= i < |regions| && regions[i].schemaName == r.error.schemaName
        && regions[i].schemaName !in schemas
  {
    match PullEach(regions, schemas, select)
    case Failure(e) => Failure(e)
    case Success(pulls) =>
      var bdFrames := Present(BeatdownFrames(pulls));
      var attFrames := Present(AttendanceFrames(pulls));
      FramesPresentIff(regions, schemas, select, pulls);
      if |pulls| == 0 || |bdFrames| == 0 || |attFrames| == 0 then Failure(NothingToConcatenate)
      else
        Success(Extracted(Flatten(UserFrames(pulls)), Flatten(AoFrames(pulls)), Flatten(bdFrames), Flatten(attFrames)))
  }

  /** There is a beatdown frame, and an attendance frame, to concatenate exactly when some
      region's watermark selects a pull. */
  lemma FramesPresentIff(regions: seq<RegionRow>, schemas: map<string, Schema>, select: Watermark -> Mode,
                         pulls: seq<RegionPull>)
    requires PullEach(regions, schemas, select) == Success(pulls)
    ensures |pulls| == |regions|
    ensures |Present(BeatdownFrames(pulls))| > 0 <==> AnyPulls(regions, select)
    ensures |Present(AttendanceFrames(pulls))| > 0 <==> AnyPulls(regions, select)
  {
    var bds := BeatdownFrames(pulls);
    var atts := AttendanceFrames(pulls);
    forall i | 0 <= i < |regions|
      ensures bds[i].Some? <==> !select(regions[i].watermark).NoPull?
      ensures atts[i].Some? <==> !select(regions[i].watermark).NoPull?
    {
      assert pulls[i] == PullRegion(regions[i], schemas[regions[i].schemaName], select);
    }
  }

  /** Region discovery skips the `f3dc` schema. */
  const ExcludedSchema: string := "f3dc"

  datatype DirectoryRow = DirectoryRow(schemaName: string, regionName: string)

  function DiscoverRegions(directory: seq<DirectoryRow>): (r: seq<DirectoryRow>)
    ensures forall d :: d in r <==> d in directory && d.schemaName != ExcludedSchema
  {
    Filter(directory, (d: DirectoryRow) => d.schemaName != ExcludedSchema)
  }
}
