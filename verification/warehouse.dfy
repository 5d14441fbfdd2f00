/** The warehouse tables the data builder writes (`weaselbot.combined_*`) and the
    `ON DUPLICATE KEY UPDATE` clause of each insert statement: which columns form the natural
    key, which columns an existing row takes from the new values, and which it keeps. */
module Warehouse {
  import opened Wrappers
  import opened Upsert
  import opened Seqs

  // ---------------------------------------------------------------------------------------
  // combined_regions: key schema_name; updates region_name, max_timestamp, max_ts_edited

  datatype RegionIn = RegionIn(schemaName: string, regionName: Option<string>,
                               maxTimestamp: Option<int>, maxTsEdited: Option<int>)

  /** A stored region also has `slack_team_id`, which this statement never writes. */
  datatype RegionVal = RegionVal(schemaName: string, regionName: Option<string>, slackTeamId: Option<string>,
                                 maxTimestamp: Option<int>, maxTsEdited: Option<int>)

  function RegionKey(x: RegionIn): string { x.schemaName }

  function RegionInsert(x: RegionIn): (r: RegionVal)
    ensures r.schemaName == x.schemaName && r.regionName == x.regionName && r.slackTeamId.None?
    ensures r.maxTimestamp == x.maxTimestamp && r.maxTsEdited == x.maxTsEdited
  {
    RegionVal(x.schemaName, x.regionName, None, x.maxTimestamp, x.maxTsEdited)
  }

  function RegionUpdate(cur: RegionVal, x: RegionIn): (r: RegionVal)
    ensures r.schemaName == cur.schemaName && r.slackTeamId == cur.slackTeamId
    ensures r.regionName == x.regionName && r.maxTimestamp == x.maxTimestamp && r.maxTsEdited == x.maxTsEdited
  {
    cur.(regionName := x.regionName, maxTimestamp := x.maxTimestamp, maxTsEdited := x.maxTsEdited)
  }

  lemma RegionUpsertOverwrites()
    ensures Overwriting(RegionInsert, RegionUpdate)
  {
  }

  function UpsertRegions(t: Table<string, RegionVal>, batch: seq<RegionIn>): Table<string, RegionVal> {
    UpsertBatch(t, batch, RegionKey, RegionInsert, RegionUpdate)
  }

  /** Re-running the region statement with the same values changes nothing. */
  lemma UpsertRegionsIdempotent(t: Table<string, RegionVal>, batch: seq<RegionIn>)
    ensures UpsertRegions(UpsertRegions(t, batch), batch) == UpsertRegions(t, batch)
  {
    RegionUpsertOverwrites();
    UpsertIdempotent(t, batch, RegionKey, RegionInsert, RegionUpdate);
  }

  // ---------------------------------------------------------------------------------------
  // combined_users: key email; updates user_name, email, home_region_id

  datatype UserIn = UserIn(userName: Option<string>, email: string, homeRegionId: nat)

  function UserKey(x: UserIn): string { x.email }

  function UserInsert(x: UserIn): UserIn { x }

  function UserUpdate(cur: UserIn, x: UserIn): (r: UserIn)
    ensures r == x
  {
    UserIn(x.userName, x.email, x.homeRegionId)
  }

  lemma UserUpsertOverwrites()
    ensures Overwriting(UserInsert, UserUpdate)
  {
  }

  function UpsertUsers(t: Table<string, UserIn>, batch: seq<UserIn>): Table<string, UserIn> {
    UpsertBatch(t, batch, UserKey, UserInsert, UserUpdate)
  }

  lemma UpsertUsersIdempotent(t: Table<string, UserIn>, batch: seq<UserIn>)
    ensures UpsertUsers(UpsertUsers(t, batch), batch) == UpsertUsers(t, batch)
  {
    UserUpsertOverwrites();
    UpsertIdempotent(t, batch, UserKey, UserInsert, UserUpdate);
  }

  // ---------------------------------------------------------------------------------------
  // combined_users_dup: key (slack_user_id, region_id); updates user_name, email, region_id, user_id

  datatype AliasIn = AliasIn(slackUserId: string, userName: Option<string>, email: string, regionId: nat, userId: nat)

  datatype AliasKey = AliasKey(slackUserId: string, regionId: nat)

  function AliasKeyOf(x: AliasIn): AliasKey { AliasKey(x.slackUserId, x.regionId) }

  function AliasInsert(x: AliasIn): AliasIn { x }

  function AliasUpdate(cur: AliasIn, x: AliasIn): (r: AliasIn)
    ensures r.slackUserId == cur.slackUserId
    ensures r.userName == x.userName && r.email == x.email && r.regionId == x.regionId && r.userId == x.userId
  {
    cur.(userName := x.userName, email := x.email, regionId := x.regionId, userId := x.userId)
  }

  lemma AliasUpsertOverwrites()
    ensures Overwriting(AliasInsert, AliasUpdate)
  {
  }

  function UpsertAliases(t: Table<AliasKey, AliasIn>, batch: seq<AliasIn>): Table<AliasKey, AliasIn> {
    UpsertBatch(t, batch, AliasKeyOf, AliasInsert, AliasUpdate)
  }

  lemma UpsertAliasesIdempotent(t: Table<AliasKey, AliasIn>, batch: seq<AliasIn>)
    ensures UpsertAliases(UpsertAliases(t, batch), batch) == UpsertAliases(t, batch)
  {
    AliasUpsertOverwrites();
    UpsertIdempotent(t, batch, AliasKeyOf, AliasInsert, AliasUpdate);
  }

  // ---------------------------------------------------------------------------------------
  // combined_aos: key (slack_channel_id, region_id); updates only ao_name

  datatype AoIn = AoIn(channelId: string, aoName: Option<string>, regionId: nat)

  datatype AoKey = AoKey(channelId: string, regionId: nat)

  function AoKeyOf(x: AoIn): AoKey { AoKey(x.channelId, x.regionId) }

  function AoInsert(x: AoIn): AoIn { x }

  function AoUpdate(cur: AoIn, x: AoIn): (r: AoIn)
    ensures r.channelId == cur.channelId && r.regionId == cur.regionId
    ensures r.aoName == x.aoName
  {
    cur.(aoName := x.aoName)
  }

  lemma AoUpsertOverwrites()
    ensures Overwriting(AoInsert, AoUpdate)
  {
  }

  function UpsertAos(t: Table<AoKey, AoIn>, batch: seq<AoIn>): Table<AoKey, AoIn> {
    UpsertBatch(t, batch, AoKeyOf, AoInsert, AoUpdate)
  }

  lemma UpsertAosIdempotent(t: Table<AoKey, AoIn>, batch: seq<AoIn>)
    ensures UpsertAos(UpsertAos(t, batch), batch) == UpsertAos(t, batch)
  {
    AoUpsertOverwrites();
    UpsertIdempotent(t, batch, AoKeyOf, AoInsert, AoUpdate);
  }

  // ---------------------------------------------------------------------------------------
  // combined_beatdowns: key (ao_id, bd_date, q_user_id); updates coq_user_id, pax_count,
  // fng_count, timestamp, ts_edited, backblast, json

  datatype BeatdownIn = BeatdownIn(
    aoId: nat, bdDate: int, qUserId: Option<nat>, coqUserId: Option<nat>,
    paxCount: Option<int>, fngCount: int, timestamp: Option<int>, tsEdited: Option<int>,
    backblast: Option<string>, json: Option<string>)

  datatype BeatdownKey = BeatdownKey(aoId: nat, bdDate: int, qUserId: Option<nat>)

  function BeatdownKeyOf(x: BeatdownIn): BeatdownKey { BeatdownKey(x.aoId, x.bdDate, x.qUserId) }

  function BeatdownInsert(x: BeatdownIn): BeatdownIn { x }

  function BeatdownUpdate(cur: BeatdownIn, x: BeatdownIn): (r: BeatdownIn)
    ensures BeatdownKeyOf(r) == BeatdownKeyOf(cur)
    ensures r.coqUserId == x.coqUserId && r.paxCount == x.paxCount && r.fngCount == x.fngCount
    ensures r.timestamp == x.timestamp && r.tsEdited == x.tsEdited
    ensures r.backblast == x.backblast && r.json == x.json
  {
    cur.(coqUserId := x.coqUserId, paxCount := x.paxCount, fngCount := x.fngCount,
         timestamp := x.timestamp, tsEdited := x.tsEdited, backblast := x.backblast, json := x.json)
  }

  lemma BeatdownUpsertOverwrites()
    ensures Overwriting(BeatdownInsert, BeatdownUpdate)
  {
  }

  function UpsertBeatdowns(t: Table<BeatdownKey, BeatdownIn>, batch: seq<BeatdownIn>)
    : Table<BeatdownKey, BeatdownIn>
  {
    UpsertBatch(t, batch, BeatdownKeyOf, BeatdownInsert, BeatdownUpdate)
  }

  lemma UpsertBeatdownsIdempotent(t: Table<BeatdownKey, BeatdownIn>, batch: seq<BeatdownIn>)
    ensures UpsertBeatdowns(UpsertBeatdowns(t, batch), batch) == UpsertBeatdowns(t, batch)
  {
    BeatdownUpsertOverwrites();
    UpsertIdempotent(t, batch, BeatdownKeyOf, BeatdownInsert, BeatdownUpdate);
  }

  /** The re-edit case: a beatdown pulled again with a new head count keeps its row and id and
      takes the new count. */
  lemma BeatdownReEditUpdatesInPlace(t: Table<BeatdownKey, BeatdownIn>, x: BeatdownIn)
    requires BeatdownKeyOf(x) in t.rows
    ensures var t' := UpsertBeatdowns(t, [x]);
      && t'.rows.Keys == t.rows.Keys
      && t'.rows[BeatdownKeyOf(x)].id == t.rows[BeatdownKeyOf(x)].id
      && t'.rows[BeatdownKeyOf(x)].val.paxCount == x.paxCount
  {
    forall k | k in KeysOf([x], BeatdownKeyOf)
      ensures k == BeatdownKeyOf(x)
    {
      var i :| 0 <= i < 1 && BeatdownKeyOf([x][i]) == k;
    }
  }

  // ---------------------------------------------------------------------------------------
  // combined_attendance: key (beatdown_id, user_id); updates beatdown_id, json

  datatype AttendanceIn = AttendanceIn(beatdownId: nat, userId: nat, json: Option<string>)

  datatype AttendanceKey = AttendanceKey(beatdownId: nat, userId: nat)

  function AttendanceKeyOf(x: AttendanceIn): AttendanceKey { AttendanceKey(x.beatdownId, x.userId) }

  function AttendanceInsert(x: AttendanceIn): AttendanceIn { x }

  /** `beatdown_id = VALUES(beatdown_id)` rewrites a key column with the value it already has. */
  function AttendanceUpdate(cur: AttendanceIn, x: AttendanceIn): (r: AttendanceIn)
    ensures r.userId == cur.userId && r.beatdownId == x.beatdownId && r.json == x.json
  {
    cur.(beatdownId := x.beatdownId, json := x.json)
  }

  lemma AttendanceUpsertOverwrites()
    ensures Overwriting(AttendanceInsert, AttendanceUpdate)
  {
  }

  function UpsertAttendance(t: Table<AttendanceKey, AttendanceIn>, batch: seq<AttendanceIn>)
    : Table<AttendanceKey, AttendanceIn>
  {
    UpsertBatch(t, batch, AttendanceKeyOf, AttendanceInsert, AttendanceUpdate)
  }

  lemma UpsertAttendanceIdempotent(t: Table<AttendanceKey, AttendanceIn>, batch: seq<AttendanceIn>)
    ensures UpsertAttendance(UpsertAttendance(t, batch), batch) == UpsertAttendance(t, batch)
  {
    AttendanceUpsertOverwrites();
    UpsertIdempotent(t, batch, AttendanceKeyOf, AttendanceInsert, AttendanceUpdate);
  }
}
