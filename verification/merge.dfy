/** The beatdown and attendance steps of f3_data_builder.py: the pulled PAXminer rows are
    rewritten in warehouse ids (AO, Q, co-Q, attendee, beatdown) by left merges with the
    aliases and the stored AOs and beatdowns, cleaned, and upserted. */
module Merge {
  import opened Wrappers
  import opened Seqs
  import opened Upsert
  import opened Extraction
  import opened SlackIds
  import opened Warehouse

  // ---------------------------------------------------------------------------------------
  // Lookups

  /** The left merge with the in-memory aliases on (Slack user id, region): the user id of the
      first alias with that key; a missing id never matches. */
  function ResolveUser(aliases: seq<AliasIn>, slack: Option<string>, regionId: nat): (r: Option<nat>)
    ensures r.Some? <==> slack.Some? && AliasKey(slack.value, regionId) in KeysOf(aliases, AliasKeyOf)
    ensures r.Some? ==> exists i :: (0 <= i < |aliases|
      && AliasKeyOf(aliases[i]) == AliasKey(slack.value, regionId) && aliases[i].userId == r.value)
    decreases |aliases|
  {
    if slack.None? || |aliases| == 0 then None
    else
      assert aliases == [aliases[0]] + aliases[1..];
      KeysOfAppend([aliases[0]], aliases[1..], AliasKeyOf);
      assert KeysOf([aliases[0]], AliasKeyOf) == {AliasKeyOf(aliases[0])};
      if AliasKeyOf(aliases[0]) == AliasKey(slack.value, regionId) then Some(aliases[0].userId)
      else
        var r := ResolveUser(aliases[1..], slack, regionId);
        assert r.Some? ==> exists i :: (1 <= i < |aliases|
          && AliasKeyOf(aliases[i]) == AliasKey(slack.value, regionId) && aliases[i].userId == r.value) by {
          if r.Some? {
            var i :| 0 <= i < |aliases[1..]|
              && AliasKeyOf(aliases[1..][i]) == AliasKey(slack.value, regionId) && aliases[1..][i].userId == r.value;
            assert aliases[i + 1] == aliases[1..][i];
          }
        }
        r
  }

  /** The left merge with `combined_aos` on (channel, region): the stored AO's id. */
  function ResolveAo(aos: Table<AoKey, AoIn>, channelId: string, regionId: nat): (r: Option<nat>)
    ensures r.Some? <==> AoKey(channelId, regionId) in aos.rows
    ensures r.Some? ==> r.value == aos.rows[AoKey(channelId, regionId)].id
  {
    var k := AoKey(channelId, regionId);
    if k in aos.rows then Some(aos.rows[k].id) else None
  }

  /** `ts_edited`: the text 'NA' becomes NULL before the column is cast to a number. */
  function EditedValue(e: Edited): (r: Option<int>)
    ensures r.Some? <==> e.EditedAt?
    ensures r.Some? ==> r.value == e.t
  {
    match e
    case EditedAt(t) => Some(t)
    case _ => None
  }

  // ---------------------------------------------------------------------------------------
  // Beatdowns

  /** One pulled beatdown in warehouse terms, or nothing when its AO is unknown. A Q or co-Q
      that does not resolve is written as NULL; the beatdown is kept. */
  function CleanBeatdown(b: Regional<SrcBeatdown>, aliases: seq<AliasIn>, aos: Table<AoKey, AoIn>)
    : (r: Option<BeatdownIn>)
    ensures r.Some? <==> AoKey(b.row.channelId, b.regionId) in aos.rows
    ensures r.Some? ==>
      && r.value.aoId == aos.rows[AoKey(b.row.channelId, b.regionId)].id
      && r.value.bdDate == b.row.bdDate
      && r.value.qUserId == ResolveUser(aliases, ExtractUserId(b.row.q), b.regionId)
      && r.value.coqUserId == ResolveUser(aliases, ExtractUserId(b.row.coq), b.regionId)
      && r.value.fngCount == b.row.fngCount.GetOr(0)
      && (r.value.tsEdited.Some? <==> b.row.edited.EditedAt?)
  {
    match ResolveAo(aos, b.row.channelId, b.regionId)
    case None => None
    case Some(aoId) =>
      Some(BeatdownIn(
        aoId, b.row.bdDate,
        ResolveUser(aliases, ExtractUserId(b.row.q), b.regionId),
        ResolveUser(aliases, ExtractUserId(b.row.coq), b.regionId),
        b.row.paxCount, b.row.fngCount.GetOr(0), b.row.timestamp, EditedValue(b.row.edited),
        b.row.backblast, b.row.json))
  }

  /** The rows handed to the beatdown insert, in order: the pulled beatdowns whose AO resolved. */
  function CleanBeatdowns(bds: seq<Regional<SrcBeatdown>>, aliases: seq<AliasIn>, aos: Table<AoKey, AoIn>)
    : (r: seq<BeatdownIn>)
    ensures |r| <= |bds|
    ensures forall x :: x in r <==> exists i :: 0 <= i < |bds| && CleanBeatdown(bds[i], aliases, aos) == Some(x)
    decreases |bds|
  {
    if |bds| == 0 then []
    else
      var rest := CleanBeatdowns(bds[1..], aliases, aos);
      assert forall i :: 1 <= i < |bds| ==> bds[i] == bds[1..][i - 1];
      match CleanBeatdown(bds[0], aliases, aos)
      case None => rest
      case Some(x) => [x] + rest
  }

  /** A beatdown whose AO is known is written, whether or not its Q resolved. */
  lemma BeatdownKeptWhenAoKnown(bds: seq<Regional<SrcBeatdown>>, aliases: seq<AliasIn>, aos: Table<AoKey, AoIn>, i: nat)
    requires i < |bds|
    ensures AoKey(bds[i].row.channelId, bds[i].regionId) in aos.rows ==>
      CleanBeatdown(bds[i], aliases, aos).Some? && CleanBeatdown(bds[i], aliases, aos).value in CleanBeatdowns(bds, aliases, aos)
  {
    if AoKey(bds[i].row.channelId, bds[i].regionId) in aos.rows {
      assert CleanBeatdown(bds[i], aliases, aos).value in CleanBeatdowns(bds, aliases, aos);
    }
  }

  /** Rows are sent in statements of at most this many rows. */
  const BeatdownChunk: nat := 1000

  function LoadBeatdowns(t: Table<BeatdownKey, BeatdownIn>, rows: seq<BeatdownIn>): Table<BeatdownKey, BeatdownIn> {
    UpsertEach(t, Chunks(rows, BeatdownChunk), BeatdownKeyOf, BeatdownInsert, BeatdownUpdate)
  }

  /** Sending the rows a thousand at a time has the effect of one statement for all of them. */
  lemma LoadBeatdownsChunked(t: Table<BeatdownKey, BeatdownIn>, rows: seq<BeatdownIn>)
    ensures LoadBeatdowns(t, rows) == UpsertBeatdowns(t, rows)
  {
    UpsertChunks(t, Chunks(rows, BeatdownChunk), BeatdownKeyOf, BeatdownInsert, BeatdownUpdate);
  }

  // ---------------------------------------------------------------------------------------
  // Attendance

  /** An attendance row after the merges: its beatdown and user, each possibly unresolved. */
  datatype Linked = Linked(beatdownId: Option<nat>, userId: Option<nat>, json: Option<string>)

  datatype LinkKey = LinkKey(beatdownId: Option<nat>, userId: Option<nat>)

  function LinkKeyOf(l: Linked): LinkKey { LinkKey(l.beatdownId, l.userId) }

  predicate Complete(l: Linked) { l.beatdownId.Some? && l.userId.Some? }

  /** The merge with the stored beatdowns on (date, Q, AO), where a NULL Q matches a NULL Q. */
  function FindBeatdown(bdT: Table<BeatdownKey, BeatdownIn>, ao: Option<nat>, bdDate: int, q: Option<nat>)
    : (r: Option<nat>)
    ensures r.Some? <==> ao.Some? && BeatdownKey(ao.value, bdDate, q) in bdT.rows
    ensures r.Some? ==> r.value == bdT.rows[BeatdownKey(ao.value, bdDate, q)].id
  {
    if ao.Some? && BeatdownKey(ao.value, bdDate, q) in bdT.rows then Some(bdT.rows[BeatdownKey(ao.value, bdDate, q)].id)
    else None
  }

  function LinkOne(a: Regional<SrcAttendance>, aliases: seq<AliasIn>, aos: Table<AoKey, AoIn>,
                   bdT: Table<BeatdownKey, BeatdownIn>): Linked
  {
    var q := ResolveUser(aliases, ExtractUserId(a.row.q), a.regionId);
    var ao := ResolveAo(aos, a.row.channelId, a.regionId);
    Linked(FindBeatdown(bdT, ao, a.row.bdDate, q), ResolveUser(aliases, ExtractUserId(a.row.user), a.regionId), a.row.json)
  }

  function LinkAll(att: seq<Regional<SrcAttendance>>, aliases: seq<AliasIn>, aos: Table<AoKey, AoIn>,
                   bdT: Table<BeatdownKey, BeatdownIn>): (r: seq<Linked>)
    ensures |r| == |att| && forall i :: 0 <= i < |r| ==> r[i] == LinkOne(att[i], aliases, aos, bdT)
  {
    seq(|att|, i requires 0 <= i < |att| => LinkOne(att[i], aliases, aos, bdT))
  }

  function ToAttendanceIn(l: Linked): AttendanceIn
    requires Complete(l)
  {
    AttendanceIn(l.beatdownId.value, l.userId.value, l.json)
  }

  function ToAttendanceRows(ls: seq<Linked>): (r: seq<AttendanceIn>)
    requires forall i :: 0 <= i < |ls| ==> Complete(ls[i])
    ensures |r| == |ls| && forall i :: 0 <= i < |r| ==> r[i] == ToAttendanceIn(ls[i])
  {
    seq(|ls|, i requires 0 <= i < |ls| => ToAttendanceIn(ls[i]))
  }

  /** Keep the first row of every (beatdown, user) pair, then drop rows missing either. */
  function CompleteLinks(att: seq<Regional<SrcAttendance>>, aliases: seq<AliasIn>, aos: Table<AoKey, AoIn>,
                         bdT: Table<BeatdownKey, BeatdownIn>): (r: seq<Linked>)
    ensures forall i :: 0 <= i < |r| ==> Complete(r[i])
  {
    Filter(DedupBy(LinkAll(att, aliases, aos, bdT), LinkKeyOf), Complete)
  }

  function LinkAttendance(att: seq<Regional<SrcAttendance>>, aliases: seq<AliasIn>, aos: Table<AoKey, AoIn>,
                          bdT: Table<BeatdownKey, BeatdownIn>): seq<AttendanceIn>
  {
    ToAttendanceRows(CompleteLinks(att, aliases, aos, bdT))
  }

  /** Dropping the incomplete rows after deduplicating keeps the same rows as dropping them
      first, because completeness is a property of the deduplication key. */
  lemma CompleteLinksDeduped(att: seq<Regional<SrcAttendance>>, aliases: seq<AliasIn>, aos: Table<AoKey, AoIn>,
                             bdT: Table<BeatdownKey, BeatdownIn>)
    ensures var linked := LinkAll(att, aliases, aos, bdT);
      CompleteLinks(att, aliases, aos, bdT) == DedupBy(Filter(linked, Complete), LinkKeyOf)
  {
    DedupFilterCommute(LinkAll(att, aliases, aos, bdT), LinkKeyOf, Complete);
  }

  /** The attendance insert names each (beatdown, user) pair at most once. */
  lemma LinkAttendanceUnique(att: seq<Regional<SrcAttendance>>, aliases: seq<AliasIn>, aos: Table<AoKey, AoIn>,
                             bdT: Table<BeatdownKey, BeatdownIn>)
    ensures UniqueKeys(LinkAttendance(att, aliases, aos, bdT), AttendanceKeyOf)
  {
    CompleteLinksDeduped(att, aliases, aos, bdT);
    var c := CompleteLinks(att, aliases, aos, bdT);
    var r := LinkAttendance(att, aliases, aos, bdT);
    assert UniqueKeys(c, LinkKeyOf);
    forall i, j | 0 <= i < j < |r|
      ensures AttendanceKeyOf(r[i]) != AttendanceKeyOf(r[j])
    {
      assert LinkKeyOf(c[i]) != LinkKeyOf(c[j]);
    }
  }

  /** Every row the insert writes is the link of a pulled attendance row whose beatdown and
      user both resolved. */
  lemma LinkAttendanceSound(att: seq<Regional<SrcAttendance>>, aliases: seq<AliasIn>, aos: Table<AoKey, AoIn>,
                            bdT: Table<BeatdownKey, BeatdownIn>, x: AttendanceIn)
    requires x in LinkAttendance(att, aliases, aos, bdT)
    ensures exists i :: (0 <= i < |att| && Complete(LinkOne(att[i], aliases, aos, bdT))
      && ToAttendanceIn(LinkOne(att[i], aliases, aos, bdT)) == x)
  {
    var linked := LinkAll(att, aliases, aos, bdT);
    var c := CompleteLinks(att, aliases, aos, bdT);
    var r := LinkAttendance(att, aliases, aos, bdT);
    var k :| 0 <= k < |r| && r[k] == x;
    assert c[k] in DedupBy(linked, LinkKeyOf);
    assert c[k] in linked;
    var i :| 0 <= i < |linked| && linked[i] == c[k];
  }

  /** Every pulled attendance row whose beatdown and user both resolve has its pair in the
      insert. */
  lemma LinkAttendanceComplete(att: seq<Regional<SrcAttendance>>, aliases: seq<AliasIn>, aos: Table<AoKey, AoIn>,
                               bdT: Table<BeatdownKey, BeatdownIn>, i: nat)
    requires i < |att| && Complete(LinkOne(att[i], aliases, aos, bdT))
    ensures AttendanceKeyOf(ToAttendanceIn(LinkOne(att[i], aliases, aos, bdT)))
         in KeysOf(LinkAttendance(att, aliases, aos, bdT), AttendanceKeyOf)
  {
    var linked := LinkAll(att, aliases, aos, bdT);
    var l := linked[i];
    CompleteLinksDeduped(att, aliases, aos, bdT);
    var f := Filter(linked, Complete);
    assert l in f;
    var fi :| 0 <= fi < |f| && f[fi] == l;
    assert LinkKeyOf(l) in KeysOf(f, LinkKeyOf);
    var c := CompleteLinks(att, aliases, aos, bdT);
    assert LinkKeyOf(l) in KeysOf(c, LinkKeyOf);
    var j := KeyWitness(c, LinkKeyOf, LinkKeyOf(l));
    var r := LinkAttendance(att, aliases, aos, bdT);
    assert r[j] == ToAttendanceIn(c[j]);
    assert c[j].beatdownId == l.beatdownId && c[j].userId == l.userId;
    assert AttendanceKeyOf(r[j]) == AttendanceKeyOf(ToAttendanceIn(l));
  }

  /** The attendance row of a beatdown led by an unresolved Q still finds a beatdown stored
      with a NULL Q. */
  lemma NullQMatchesNullQ(bdT: Table<BeatdownKey, BeatdownIn>, ao: nat, bdDate: int)
    requires BeatdownKey(ao, bdDate, None) in bdT.rows
    ensures FindBeatdown(bdT, Some(ao), bdDate, None) == Some(bdT.rows[BeatdownKey(ao, bdDate, None)].id)
  {
  }
}
