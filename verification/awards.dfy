/** The achievement sender of weaselbot/utils.py: which rule rows are new for a region, how a
    region's award counts evolve while messages go out, what each message says and where it
    goes, and which rows are returned for upload to `achievements_awarded`. The Slack client
    is left out; a message is the pair (target, text) the sender hands to it. */
module Awards {
  import opened Wrappers
  import opened Text
  import opened Seqs
  import opened Rules

  // ---------------------------------------------------------------------------------------
  // Ordinal suffixes

  function Min(a: int, b: int): int { if a <= b then a else b }

  /** `ordinal_suffix`. Dafny's `%` by a positive divisor agrees with Python's for every
      integer, negative ones included. */
  function OrdinalSuffix(n: int): (r: string)
    ensures r == "st" || r == "nd" || r == "rd" || r == "th"
  {
    if 11 <= n % 100 <= 13 then "th"
    else ["th", "st", "nd", "rd", "th"][Min(n % 10, 4)]
  }

  /** The English rule the suffix table encodes: 1st, 2nd, 3rd except in the teens. */
  lemma OrdinalSuffixEnglish(n: int)
    ensures OrdinalSuffix(n) == "st" <==> n % 10 == 1 && n % 100 != 11
    ensures OrdinalSuffix(n) == "nd" <==> n % 10 == 2 && n % 100 != 12
    ensures OrdinalSuffix(n) == "rd" <==> n % 10 == 3 && n % 100 != 13
    ensures OrdinalSuffix(n) == "th" <==> n % 10 !in {1, 2, 3} || 11 <= n % 100 <= 13
  {
    var a := n % 100;
    var d := n % 10;
    LastDigitOfLastTwo(n);
    assert "st"[0] != "th"[0] && "nd"[0] != "th"[0] && "rd"[0] != "th"[0];
    assert "st"[0] != "nd"[0] && "st"[0] != "rd"[0] && "nd"[0] != "rd"[0];
    if 11 <= a <= 13 {
      assert OrdinalSuffix(n) == "th";
    } else {
      assert OrdinalSuffix(n) == ["th", "st", "nd", "rd", "th"][Min(d, 4)];
    }
  }

  /** The last digit of a number is the last digit of its last two digits. */
  lemma LastDigitOfLastTwo(n: int)
    ensures n % 10 == (n % 100) % 10
  {
    var k := n / 100;
    assert n == 100 * k + n % 100;
    assert 100 * k == 10 * (10 * k);
  }

  lemma OrdinalSuffixExamples()
    ensures OrdinalSuffix(1) == "st" && OrdinalSuffix(21) == "st" && OrdinalSuffix(1000001) == "st"
    ensures OrdinalSuffix(2) == "nd" && OrdinalSuffix(52) == "nd"
    ensures OrdinalSuffix(3) == "rd" && OrdinalSuffix(93) == "rd"
    ensures OrdinalSuffix(11) == "th" && OrdinalSuffix(12) == "th" && OrdinalSuffix(13) == "th"
    ensures OrdinalSuffix(14) == "th" && OrdinalSuffix(112) == "th" && OrdinalSuffix(113) == "th"
  {
  }

  // ---------------------------------------------------------------------------------------
  // New results

  /** A row of `achievements_awarded`: achievement id, Slack id, award date. */
  datatype Awarded = Awarded(achievementId: int, paxId: string, dateAwarded: int)

  /** A rule frame as the sender sees it: the name of its first (period) column and its rows. */
  datatype Frame = Frame(firstColumn: string, rows: seq<Award>)

  /** A row of `new_data`: columns period, region, date_awarded, pax_id, in that order, so
      `record[2]` is the award date and `record[3]` the Slack id. */
  datatype NewRow = NewRow(period: int, region: string, dateAwarded: int, paxId: string)

  function ColumnName(p: Period): string {
    match p
    case Year => "year"
    case Month => "month"
    case Week => "week"
  }

  /** The period a frame is keyed by, read off its first column: month, week, or else year. */
  function PeriodColumn(name: string): (p: Period)
    ensures p == Month <==> name == "month"
    ensures p == Week <==> name == "week"
  {
    if name == "month" then Month else if name == "week" then Week else Year
  }

  /** Reading a rule frame's first column recovers the rule's period. */
  lemma PeriodColumnRoundTrip(p: Period)
    ensures PeriodColumn(ColumnName(p)) == p
  {
  }

  function ToNewRow(a: Award): NewRow {
    NewRow(a.period, a.region, a.dateAwarded, a.slackUserId)
  }

  function ToNewRows(s: seq<Award>): (r: seq<NewRow>)
    ensures |r| == |s| && forall i :: 0 <= i < |s| ==> r[i] == ToNewRow(s[i])
  {
    seq(|s|, i requires 0 <= i < |s| => ToNewRow(s[i]))
  }

  /** An earlier award of achievement `idx` this year, for the same pax in the same period. */
  predicate Blocks(cal: Calendar, p: Period, year: int, idx: int, a: Awarded, r: NewRow) {
    a.achievementId == idx && cal.year(a.dateAwarded) == year
    && PeriodOf(cal, p, a.dateAwarded) == r.period && a.paxId == r.paxId
  }

  predicate IsNew(cal: Calendar, p: Period, year: int, idx: int, awarded: seq<Awarded>, r: NewRow) {
    forall a :: a in awarded ==> !Blocks(cal, p, year, idx, a, r)
  }

  /** `_check_for_new_results`: the frame's rows for this region that no earlier award of the
      same achievement this year already covers. The anti-join compares period and pax only,
      not the region. */
  function CheckForNewResults(schema: string, year: int, idx: int, frame: Frame, awarded: seq<Awarded>,
                              cal: Calendar): (r: seq<NewRow>)
    ensures |r| <= |frame.rows|
    ensures forall x :: x in r ==> x.region == schema
  {
    var p := PeriodColumn(frame.firstColumn);
    Filter(ToNewRows(frame.rows), (x: NewRow) => x.region == schema && IsNew(cal, p, year, idx, awarded, x))
  }

  /** A row is new exactly when it comes from the frame, belongs to this region, and no award
      of this achievement dated this year has the same period and pax. */
  lemma CheckForNewResultsMembers(schema: string, year: int, idx: int, frame: Frame, awarded: seq<Awarded>,
                                  cal: Calendar, x: NewRow)
    ensures x in CheckForNewResults(schema, year, idx, frame, awarded, cal) <==>
      (exists i :: 0 <= i < |frame.rows| && x == ToNewRow(frame.rows[i]))
      && x.region == schema
      && !(exists a :: a in awarded && Blocks(cal, PeriodColumn(frame.firstColumn), year, idx, a, x))
  {
    var rows := ToNewRows(frame.rows);
    assert x in rows <==> exists i :: 0 <= i < |frame.rows| && x == ToNewRow(frame.rows[i]) by {
      if x in rows {
        var i :| 0 <= i < |rows| && rows[i] == x;
      }
    }
  }

  /** The rows a region uploads for achievement `idx`. */
  function Tag(idx: int, rows: seq<NewRow>): (r: seq<Awarded>)
    ensures |r| == |rows|
    ensures forall i :: 0 <= i < |rows| ==> r[i] == Awarded(idx, rows[i].paxId, rows[i].dateAwarded)
  {
    seq(|rows|, i requires 0 <= i < |rows| => Awarded(idx, rows[i].paxId, rows[i].dateAwarded))
  }

  /** The rows of a frame are dated inside their own period and in the current year, as every
      rule's output is when the national frame holds only this year's beatdowns. */
  predicate DatedInPeriod(cal: Calendar, year: int, frame: Frame) {
    forall a :: a in frame.rows ==>
      PeriodOf(cal, PeriodColumn(frame.firstColumn), a.dateAwarded) == a.period && cal.year(a.dateAwarded) == year
  }

  /** Once the new rows are uploaded, checking the same frame again finds nothing new: an
      award is never announced twice. */
  lemma NoRepeatAfterUpload(schema: string, year: int, idx: int, frame: Frame, awarded: seq<Awarded>, cal: Calendar)
    requires DatedInPeriod(cal, year, frame)
    ensures var found := CheckForNewResults(schema, year, idx, frame, awarded, cal);
      CheckForNewResults(schema, year, idx, frame, awarded + Tag(idx, found), cal) == []
  {
    var p := PeriodColumn(frame.firstColumn);
    var found := CheckForNewResults(schema, year, idx, frame, awarded, cal);
    var after := awarded + Tag(idx, found);
    var again := CheckForNewResults(schema, year, idx, frame, after, cal);
    if |again| > 0 {
      var x := again[0];
      assert x in again;
      CheckForNewResultsMembers(schema, year, idx, frame, after, cal, x);
      CheckForNewResultsMembers(schema, year, idx, frame, awarded, cal, x);
      var i :| 0 <= i < |frame.rows| && x == ToNewRow(frame.rows[i]);
      assert frame.rows[i] in frame.rows;
      forall a | a in awarded
        ensures !Blocks(cal, p, year, idx, a, x)
      {
        assert a in after;
      }
      assert x in found;
      var j :| 0 <= j < |found| && found[j] == x;
      assert Tag(idx, found)[j] in after;
      assert Blocks(cal, p, year, idx, Tag(idx, found)[j], x);
      assert false;
    }
  }

  /** A calendar on dates written yyyymmdd; weeks are not needed here. */
  const Ymd: Calendar := Calendar(d => d / 10000, d => d / 100 % 100, d => 0)

  /** The monthly case of the sender's unit test: U1 already has achievement 3 for January, so
      only U2's February row is new. */
  lemma CheckForNewResultsMonthExample()
    ensures CheckForNewResults("f3chicago", 2024, 3,
                               Frame("month", [Award(1, "U1", "f3chicago", 20240101), Award(2, "U2", "f3chicago", 20240201)]),
                               [Awarded(3, "U1", 20240101), Awarded(4, "U2", 20240201)], Ymd)
         == [NewRow(2, "f3chicago", 20240201, "U2")]
  {
    var frame := Frame("month", [Award(1, "U1", "f3chicago", 20240101), Award(2, "U2", "f3chicago", 20240201)]);
    var awarded := [Awarded(3, "U1", 20240101), Awarded(4, "U2", 20240201)];
    var u1 := NewRow(1, "f3chicago", 20240101, "U1");
    var u2 := NewRow(2, "f3chicago", 20240201, "U2");
    var rows := ToNewRows(frame.rows);
    assert rows == [u1, u2];
    assert Blocks(Ymd, Month, 2024, 3, awarded[0], u1);
    assert !IsNew(Ymd, Month, 2024, 3, awarded, u1);
    assert !Blocks(Ymd, Month, 2024, 3, awarded[1], u2);
    assert IsNew(Ymd, Month, 2024, 3, awarded, u2);
    var keep := (x: NewRow) => x.region == "f3chicago" && IsNew(Ymd, Month, 2024, 3, awarded, x);
    assert Filter([u2], keep) == [u2];
    assert rows[1..] == [u2];
    assert Filter(rows, keep) == [u2];
  }

  // ---------------------------------------------------------------------------------------
  // Award counts

  /** One award of achievement `achievementId` to `paxId` this year. */
  datatype CountKey = CountKey(paxId: string, achievementId: int)

  /** `achievement_counts[pax][ach]`: how many of the events are that pax and achievement. */
  function Count(events: seq<CountKey>, pax: string, ach: int): (n: nat)
    ensures n <= |events|
    ensures n == 0 <==> CountKey(pax, ach) !in events
  {
    if |events| == 0 then 0
    else Count(events[..|events| - 1], pax, ach) + (if events[|events| - 1] == CountKey(pax, ach) then 1 else 0)
  }

  /** `achievement_counts[pax].total()`: that pax's awards of every achievement. */
  function Total(events: seq<CountKey>, pax: string): (n: nat)
    ensures n <= |events|
  {
    if |events| == 0 then 0
    else Total(events[..|events| - 1], pax) + (if events[|events| - 1].paxId == pax then 1 else 0)
  }

  /** A pax's count of one achievement never exceeds that pax's total. */
  lemma {:induction false} CountAtMostTotal(events: seq<CountKey>, pax: string, ach: int)
    ensures Count(events, pax, ach) <= Total(events, pax)
  {
    if |events| > 0 {
      CountAtMostTotal(events[..|events| - 1], pax, ach);
    }
  }

  /** `update({idx: 1})`: one more event raises exactly that pax's count of that achievement
      by one, and that pax's total by one. */
  lemma CountBump(events: seq<CountKey>, pax: string, ach: int, p: string, k: int)
    ensures Count(events + [CountKey(pax, ach)], p, k) == Count(events, p, k) + (if p == pax && k == ach then 1 else 0)
    ensures Total(events + [CountKey(pax, ach)], p) == Total(events, p) + (if p == pax then 1 else 0)
  {
    assert (events + [CountKey(pax, ach)])[..|events|] == events;
  }

  function Events(rows: seq<Awarded>): (r: seq<CountKey>)
    ensures |r| == |rows|
    ensures forall i :: 0 <= i < |rows| ==> r[i] == CountKey(rows[i].paxId, rows[i].achievementId)
  {
    seq(|rows|, i requires 0 <= i < |rows| => CountKey(rows[i].paxId, rows[i].achievementId))
  }

  function InYear(cal: Calendar, year: int, awarded: seq<Awarded>): seq<Awarded> {
    Filter(awarded, (a: Awarded) => cal.year(a.dateAwarded) == year)
  }

  /** `_get_achievement_counts`: one event per award dated this year. */
  function AchievementCounts(awarded: seq<Awarded>, year: int, cal: Calendar): (r: seq<CountKey>)
    ensures forall k :: k in r <==> exists a :: a in awarded && cal.year(a.dateAwarded) == year
                                             && k == CountKey(a.paxId, a.achievementId)
  {
    var kept := InYear(cal, year, awarded);
    var r := Events(kept);
    assert forall k :: k in r <==> exists i :: 0 <= i < |kept| && k == CountKey(kept[i].paxId, kept[i].achievementId);
    r
  }

  /** Awards from other years are never counted. */
  lemma CountsIgnoreOtherYears(awarded: seq<Awarded>, year: int, cal: Calendar, a: Awarded)
    requires cal.year(a.dateAwarded) != year
    ensures AchievementCounts(awarded + [a], year, cal) == AchievementCounts(awarded, year, cal)
  {
    FilterAppend(awarded, [a], (a: Awarded) => cal.year(a.dateAwarded) == year);
  }

  // ---------------------------------------------------------------------------------------
  // Messages

  /** Python values as far as `==` is concerned: a string never equals an integer. */
  datatype PyValue = PyStr(s: string) | PyInt(i: int)

  predicate PyEquals(a: PyValue, b: PyValue) {
    match (a, b)
    case (PyStr(x), PyStr(y)) => x == y
    case (PyInt(x), PyInt(y)) => x == y
    case _ => false
  }

  /** A Slack mention of a user id. */
  function Mention(paxId: string): string { "<@" + paxId + ">" }

  /** "2nd time this year": the count with its suffix. */
  function OrdinalPhrase(count: nat): string {
    NatToString(count) + OrdinalSuffix(count) + " time this year"
  }

  const LongOpening: string := "Congrats to our man "

  const ShortOpening: string := "Nice work brother."

  /** The long text from the pax mention's "!" up to the count. */
  function LongFacts(paxId: string, date: int, name: string, verb: string, total: nat, show: int -> string): string {
    "! He just unlocked the achievement *" + name + "* for " + verb + " "
    + "which he earned on " + show(date) + ". "
    + "This is achievement #" + NatToString(total) + " for " + Mention(paxId) + " and the "
  }

  const LongClosing: string := " he's earned this award. Keep up the good work!"

  function LongMessage(paxId: string, date: int, name: string, verb: string, total: nat, count: nat, show: int -> string): string {
    LongOpening + (Mention(paxId) + (LongFacts(paxId, date, name, verb, total, show) + OrdinalPhrase(count) + LongClosing))
  }

  function ShortMessage(count: nat): string {
    ShortOpening + (" You just earned 6 pack for the " + OrdinalPhrase(count) + "!")
  }

  lemma LongIsNotShort(paxId: string, date: int, name: string, verb: string, total: nat, count: nat, show: int -> string)
    ensures IsPrefix(LongOpening, LongMessage(paxId, date, name, verb, total, count, show))
    ensures !IsPrefix(ShortOpening, LongMessage(paxId, date, name, verb, total, count, show))
  {
    var m := LongMessage(paxId, date, name, verb, total, count, show);
    var rest := Mention(paxId) + (LongFacts(paxId, date, name, verb, total, show) + OrdinalPhrase(count) + LongClosing);
    assert m == LongOpening + rest;
    assert m[..|LongOpening|] == LongOpening;
    assert m[0] == 'C';
  }

  lemma ShortIsNotLong(count: nat)
    ensures IsPrefix(ShortOpening, ShortMessage(count))
    ensures !IsPrefix(LongOpening, ShortMessage(count))
  {
    var m := ShortMessage(count);
    assert m[..|ShortOpening|] == ShortOpening;
    assert m[0] == 'N';
  }

  /** `_format_achievement_message` as written: the short 6 pack text is guarded by
      `record[3] == 13`, and `record[3]` is the Slack id, a string. */
  function FormatAsWritten(paxId: string, date: int, name: string, verb: string, total: nat, count: nat, show: int -> string)
    : (m: string)
    ensures IsPrefix(LongOpening, m) && !IsPrefix(ShortOpening, m)
    ensures Contains(m, Mention(paxId)) && Contains(m, OrdinalPhrase(count))
  {
    if PyEquals(PyStr(paxId), PyInt(13)) && count > 1 then ShortMessage(count)
    else
      LongIsNotShort(paxId, date, name, verb, total, count, show);
      LongMentionsPax(paxId, date, name, verb, total, count, show);
      LongHasOrdinal(paxId, date, name, verb, total, count, show);
      LongMessage(paxId, date, name, verb, total, count, show)
  }

  /** As written, the short text is unreachable: every message is the long one. */
  lemma FormatAsWrittenNeverShort(paxId: string, date: int, name: string, verb: string, total: nat, count: nat, show: int -> string)
    ensures FormatAsWritten(paxId, date, name, verb, total, count, show) == LongMessage(paxId, date, name, verb, total, count, show)
  {
  }

  /** The repeat 6 pack case: a pax's second 6 pack this year gets the long text, in a direct
      message. */
  lemma SixPackRepeatGetsLongMessage(paxId: string, date: int, show: int -> string)
    ensures IsPrefix(LongOpening, FormatAsWritten(paxId, date, "6 pack", "posting at 6 beatdowns in a week", 5, 2, show))
    ensures !IsPrefix(ShortOpening, FormatAsWritten(paxId, date, "6 pack", "posting at 6 beatdowns in a week", 5, 2, show))
  {
    LongIsNotShort(paxId, date, "6 pack", "posting at 6 beatdowns in a week", 5, 2, show);
  }

  /** The message with the guard the routing rule uses: achievement 13 earned again this year
      gets the short text, everything else the long one. */
  function FormatAchievementMessage(idx: int, paxId: string, date: int, name: string, verb: string, total: nat, count: nat,
                                    show: int -> string): (m: string)
    ensures IsPrefix(ShortOpening, m) <==> idx == SixPackId && count > 1
    ensures IsPrefix(LongOpening, m) <==> !(idx == SixPackId && count > 1)
  {
    if idx == SixPackId && count > 1 then
      ShortIsNotLong(count);
      ShortMessage(count)
    else
      LongIsNotShort(paxId, date, name, verb, total, count, show);
      LongMessage(paxId, date, name, verb, total, count, show)
  }

  /** The long text names the pax. */
  lemma LongMessageMentionsPax(idx: int, paxId: string, date: int, name: string, verb: string, total: nat, count: nat,
                               show: int -> string)
    requires !(idx == SixPackId && count > 1)
    ensures Contains(FormatAchievementMessage(idx, paxId, date, name, verb, total, count, show), Mention(paxId))
  {
    LongMentionsPax(paxId, date, name, verb, total, count, show);
  }

  lemma LongMentionsPax(paxId: string, date: int, name: string, verb: string, total: nat, count: nat, show: int -> string)
    ensures Contains(LongMessage(paxId, date, name, verb, total, count, show), Mention(paxId))
  {
    var rest := LongFacts(paxId, date, name, verb, total, show) + OrdinalPhrase(count) + LongClosing;
    assert LongMessage(paxId, date, name, verb, total, count, show) == LongOpening + Mention(paxId) + rest;
    ContainsInfix(LongOpening, Mention(paxId), rest);
  }

  lemma ShortHasOrdinal(count: nat)
    ensures Contains(ShortMessage(count), OrdinalPhrase(count))
  {
    var pre := ShortOpening + " You just earned 6 pack for the ";
    assert ShortMessage(count) == pre + OrdinalPhrase(count) + "!";
    ContainsInfix(pre, OrdinalPhrase(count), "!");
  }

  lemma Regroup(a: string, b: string, c: string, d: string, e: string)
    ensures a + (b + (c + d + e)) == (a + b + c) + d + e
  {
  }

  lemma LongHasOrdinal(paxId: string, date: int, name: string, verb: string, total: nat, count: nat, show: int -> string)
    ensures Contains(LongMessage(paxId, date, name, verb, total, count, show), OrdinalPhrase(count))
  {
    var facts := LongFacts(paxId, date, name, verb, total, show);
    Regroup(LongOpening, Mention(paxId), facts, OrdinalPhrase(count), LongClosing);
    ContainsInfix(LongOpening + Mention(paxId) + facts, OrdinalPhrase(count), LongClosing);
  }

  /** Both texts give the per-achievement count with its ordinal suffix. */
  lemma MessagesUseOrdinalOfCount(idx: int, paxId: string, date: int, name: string, verb: string, total: nat, count: nat,
                                  show: int -> string)
    ensures Contains(FormatAchievementMessage(idx, paxId, date, name, verb, total, count, show), OrdinalPhrase(count))
  {
    if idx == SixPackId && count > 1 {
      ShortHasOrdinal(count);
    } else {
      LongHasOrdinal(paxId, date, name, verb, total, count, show);
    }
  }

  // ---------------------------------------------------------------------------------------
  // The sender

  /** A row of the region's `achievements_list`. */
  datatype AwardInfo = AwardInfo(id: int, name: string, verb: string)

  function AwardIds(awards: seq<AwardInfo>): set<int> {
    set a | a in awards :: a.id
  }

  /** `awards.filter(id == idx).select(pl.first(...)).item()`: the first listed row with that id. */
  function FirstAward(awards: seq<AwardInfo>, idx: int): (a: AwardInfo)
    requires idx in AwardIds(awards)
    ensures a in awards && a.id == idx
    ensures exists k :: 0 <= k < |awards| && awards[k] == a && forall j :: 0 <= j < k ==> awards[j].id != idx
  {
    if awards[0].id == idx then awards[0]
    else
      assert idx in AwardIds(awards[1..]) by {
        var b :| b in awards && b.id == idx;
        assert b in awards[1..];
      }
      var a := FirstAward(awards[1..], idx);
      var k :| 0 <= k < |awards[1..]| && awards[1..][k] == a && forall j :: 0 <= j < k ==> awards[1..][j].id != idx;
      assert awards[k + 1] == a;
      a
  }

  /** The text handed to Slack and where it goes. */
  datatype Message = Message(target: string, text: string)

  /** A record as the sender announces it: the award and the counts right after its bump,
      which is all its message is made from. */
  datatype Notice = Notice(counts: seq<CountKey>, award: Awarded)

  /** Everything the sender produces for a region: the running counts, one notice per message
      sent, and the rows queued for upload. */
  datatype Outcome = Outcome(counts: seq<CountKey>, notices: seq<Notice>, upload: seq<Awarded>)

  /** Which 6 pack guard the message text uses: the one `_format_achievement_message` has, or
      the one the routing rule uses. */
  datatype Wording = AsWritten | Intended

  /** The text of a message in the given wording. */
  function Compose(wording: Wording, idx: int, paxId: string, date: int, name: string, verb: string, total: nat,
                   count: nat, show: int -> string): (t: string)
    ensures wording == AsWritten ==> IsPrefix(LongOpening, t) && Contains(t, Mention(paxId))
    ensures wording == Intended ==> (IsPrefix(ShortOpening, t) <==> idx == SixPackId && count > 1)
    ensures Contains(t, OrdinalPhrase(count))
  {
    match wording
    case AsWritten => FormatAsWritten(paxId, date, name, verb, total, count, show)
    case Intended =>
      MessagesUseOrdinalOfCount(idx, paxId, date, name, verb, total, count, show);
      FormatAchievementMessage(idx, paxId, date, name, verb, total, count, show)
  }

  /** The message for award `u`, given the counts right after its bump: a repeat 6 pack goes to
      the pax's direct messages, everything else to the achievement channel. */
  function Announce(counts: seq<CountKey>, channel: string, awards: seq<AwardInfo>, show: int -> string,
                    wording: Wording, u: Awarded): (m: Message)
    requires u.achievementId in AwardIds(awards)
    ensures var repeatSixPack := u.achievementId == SixPackId && Count(counts, u.paxId, u.achievementId) > 1;
      && (repeatSixPack ==> m.target == u.paxId)
      && (!repeatSixPack ==> m.target == channel)
      && (wording == AsWritten ==> IsPrefix(LongOpening, m.text) && Contains(m.text, Mention(u.paxId)))
      && (wording == Intended ==> (IsPrefix(ShortOpening, m.text) <==> repeatSixPack))
      && Contains(m.text, OrdinalPhrase(Count(counts, u.paxId, u.achievementId)))
  {
    var count := Count(counts, u.paxId, u.achievementId);
    var info := FirstAward(awards, u.achievementId);
    var text := Compose(wording, u.achievementId, u.paxId, u.dateAwarded, info.name, info.verb,
                        Total(counts, u.paxId), count, show);
    Message(if u.achievementId == SixPackId && count > 1 then u.paxId else channel, text)
  }

  /** Whether every notice is for an award the region lists, so that it can be rendered. */
  predicate Renderable(notices: seq<Notice>, awards: seq<AwardInfo>) {
    forall j :: 0 <= j < |notices| ==> notices[j].award.achievementId in AwardIds(awards)
  }

  /** The messages the notices turn into, in sending order. */
  function Messages(notices: seq<Notice>, channel: string, awards: seq<AwardInfo>, show: int -> string,
                    wording: Wording): (ms: seq<Message>)
    requires Renderable(notices, awards)
    ensures |ms| == |notices|
    ensures forall j :: 0 <= j < |notices| ==>
              ms[j] == Announce(notices[j].counts, channel, awards, show, wording, notices[j].award)
  {
    seq(|notices|, j requires 0 <= j < |notices| =>
          Announce(notices[j].counts, channel, awards, show, wording, notices[j].award))
  }

  /** One record: bump the count, announce, queue the row for upload. */
  function Step(o: Outcome, u: Awarded): (o': Outcome)
    ensures o'.counts == o.counts + [CountKey(u.paxId, u.achievementId)]
    ensures o'.upload == o.upload + [u]
    ensures o'.notices == o.notices + [Notice(o'.counts, u)]
  {
    var counts := o.counts + [CountKey(u.paxId, u.achievementId)];
    Outcome(counts, o.notices + [Notice(counts, u)], o.upload + [u])
  }

  /** The notice a replay of the upload list gives for its `j`-th row: the counts as they stand
      right after that row's bump. */
  function NoticeFor(base: seq<CountKey>, upload: seq<Awarded>, j: nat): Notice
    requires j < |upload|
  {
    Notice(base + Events(upload[..j + 1]), upload[j])
  }

  /** The message for the `j`-th uploaded row, from the counts as they stand right after that
      row's bump. */
  function MessageFor(base: seq<CountKey>, channel: string, awards: seq<AwardInfo>, show: int -> string,
                      wording: Wording, upload: seq<Awarded>, j: nat): Message
    requires j < |upload| && upload[j].achievementId in AwardIds(awards)
  {
    Announce(base + Events(upload[..j + 1]), channel, awards, show, wording, upload[j])
  }

  /** The sender's running state agrees with a replay of the upload list: one notice per
      uploaded row, taken from the counts as they stood after that row, and counts equal to the
      starting counts plus one event per uploaded row. */
  ghost predicate Replays(base: seq<CountKey>, o: Outcome)
  {
    && |o.notices| == |o.upload|
    && o.counts == base + Events(o.upload)
    && (forall j :: 0 <= j < |o.upload| ==> o.notices[j] == NoticeFor(base, o.upload, j))
  }

  function Record(idx: int, r: NewRow): Awarded {
    Awarded(idx, r.paxId, r.dateAwarded)
  }

  /** The inner loop over one frame's new records. */
  function SendRecords(idx: int, records: seq<NewRow>, o: Outcome): Outcome
    decreases |records|
  {
    if |records| == 0 then o
    else SendRecords(idx, records[1..], Step(o, Record(idx, records[0])))
  }

  /** Whether frame number `idx` (counting from 1) gets processed, and its new rows. */
  function FrameNews(schema: string, year: int, awarded: seq<Awarded>, awards: seq<AwardInfo>, cal: Calendar,
                     idx: int, frame: Frame): Option<seq<NewRow>>
  {
    if |frame.rows| == 0 then None
    else
      var found := CheckForNewResults(schema, year, idx, frame, awarded, cal);
      if |found| == 0 || idx !in AwardIds(awards) then None else Some(found)
  }

  /** One frame of the outer loop: skipped, or its new records sent in order. */
  function AfterFrame(schema: string, year: int, awarded: seq<Awarded>, awards: seq<AwardInfo>,
                      cal: Calendar, frame: Frame, idx: int, o: Outcome): Outcome
  {
    match FrameNews(schema, year, awarded, awards, cal, idx, frame)
    case None => o
    case Some(found) => SendRecords(idx, found, o)
  }

  /** The outer loop of `send_to_slack`, from frame number `idx` on. */
  function SendFrames(schema: string, year: int, awarded: seq<Awarded>, awards: seq<AwardInfo>,
                      cal: Calendar, frames: seq<Frame>, idx: int, o: Outcome): Outcome
    decreases |frames|
  {
    if |frames| == 0 then o
    else
      SendFrames(schema, year, awarded, awards, cal, frames[1..], idx + 1,
                 AfterFrame(schema, year, awarded, awards, cal, frames[0], idx, o))
  }

  /** `send_to_slack`: frames are numbered from 1 in `dfs` order. */
  function SendToSlack(schema: string, year: int, awarded: seq<Awarded>, awards: seq<AwardInfo>,
                       cal: Calendar, frames: seq<Frame>): Outcome
  {
    SendFrames(schema, year, awarded, awards, cal, frames, 1, Outcome(AchievementCounts(awarded, year, cal), [], []))
  }

  /** The closing note to the log channel. */
  function Summary(o: Outcome): string {
    "Successfully ran today's Weaselbot achievements patch. Sent " + NatToString(|o.upload|) + " new achievements."
  }

  // ---------------------------------------------------------------------------------------
  // Properties of the sender

  lemma EventsAppend(a: seq<Awarded>, b: seq<Awarded>)
    ensures Events(a + b) == Events(a) + Events(b)
  {
  }

  /** One record keeps the replay invariant. */
  lemma StepReplays(base: seq<CountKey>, o: Outcome, u: Awarded)
    requires Replays(base, o)
    ensures Replays(base, Step(o, u))
  {
    var o' := Step(o, u);
    var up := o'.upload;
    var n := |o.upload|;
    EventsAppend(o.upload, [u]);
    assert Events([u]) == [CountKey(u.paxId, u.achievementId)];
    assert up[..n + 1] == up && up[n] == u && o.upload == up[..n];
    forall j | 0 <= j < |up|
      ensures o'.notices[j] == NoticeFor(base, up, j)
    {
      if j < n {
        assert up[..j + 1] == o.upload[..j + 1];
      }
    }
  }

  lemma {:induction false} SendRecordsReplays(base: seq<CountKey>, idx: int, records: seq<NewRow>, o: Outcome)
    requires Replays(base, o)
    ensures Replays(base, SendRecords(idx, records, o))
    decreases |records|
  {
    if |records| > 0 {
      StepReplays(base, o, Record(idx, records[0]));
      SendRecordsReplays(base, idx, records[1..], Step(o, Record(idx, records[0])));
    }
  }

  lemma AfterFrameReplays(schema: string, year: int, awarded: seq<Awarded>, awards: seq<AwardInfo>,
                          cal: Calendar, frame: Frame, idx: int, o: Outcome, base: seq<CountKey>)
    requires Replays(base, o)
    ensures Replays(base, AfterFrame(schema, year, awarded, awards, cal, frame, idx, o))
  {
    match FrameNews(schema, year, awarded, awards, cal, idx, frame)
    case None =>
    case Some(found) =>
      SendRecordsReplays(base, idx, found, o);
  }

  lemma {:induction false} SendFramesReplays(schema: string, year: int, awarded: seq<Awarded>,
                                             awards: seq<AwardInfo>, cal: Calendar, frames: seq<Frame>,
                                             idx: int, o: Outcome, base: seq<CountKey>)
    requires Replays(base, o)
    ensures Replays(base, SendFrames(schema, year, awarded, awards, cal, frames, idx, o))
    decreases |frames|
  {
    if |frames| > 0 {
      AfterFrameReplays(schema, year, awarded, awards, cal, frames[0], idx, o, base);
      SendFramesReplays(schema, year, awarded, awards, cal, frames[1..], idx + 1,
                        AfterFrame(schema, year, awarded, awards, cal, frames[0], idx, o), base);
    }
  }

  /** The sender's bookkeeping: one message per uploaded row; the final counts are this year's
      awards plus one per uploaded row; and the `j`-th message is the one the replay of the
      upload list gives, so it goes to the pax directly exactly when it is a 6 pack the pax has
      already earned this year, counting the ones uploaded before it in this run. */
  lemma SendToSlackBookkeeping(schema: string, channel: string, year: int, awarded: seq<Awarded>,
                               awards: seq<AwardInfo>, cal: Calendar, show: int -> string, wording: Wording,
                               frames: seq<Frame>)
    ensures var o := SendToSlack(schema, year, awarded, awards, cal, frames);
      var base := AchievementCounts(awarded, year, cal);
      && |o.notices| == |o.upload|
      && o.counts == base + Events(o.upload)
      && (forall j :: 0 <= j < |o.upload| ==> o.upload[j].achievementId in AwardIds(awards))
      && Renderable(o.notices, awards)
      && var ms := Messages(o.notices, channel, awards, show, wording);
         forall j :: 0 <= j < |o.upload| ==> ms[j] == MessageFor(base, channel, awards, show, wording, o.upload, j)
  {
    var base := AchievementCounts(awarded, year, cal);
    var o := SendToSlack(schema, year, awarded, awards, cal, frames);
    SendFramesReplays(schema, year, awarded, awards, cal, frames, 1, Outcome(base, [], []), base);
    SendToSlackUploads(schema, year, awarded, awards, cal, frames);
    forall j | 0 <= j < |o.upload| ensures o.upload[j].achievementId in AwardIds(awards) {
      var _, _, _ := ExpectedUploadOrigin(schema, year, awarded, awards, cal, frames, 1, o.upload[j]);
    }
    assert Renderable(o.notices, awards) by {
      forall j | 0 <= j < |o.notices| ensures o.notices[j].award.achievementId in AwardIds(awards) {
        assert o.notices[j] == NoticeFor(base, o.upload, j);
      }
    }
  }

  /** The sender as written: a pax's repeat 6 pack this year (counting the ones uploaded before
      it in this run) is sent to the pax directly, but with the long congratulation rather than
      the short 6 pack text. */
  lemma SentRepeatSixPackIsLong(schema: string, channel: string, year: int, awarded: seq<Awarded>,
                                awards: seq<AwardInfo>, cal: Calendar, show: int -> string, frames: seq<Frame>, j: nat)
    ensures var o := SendToSlack(schema, year, awarded, awards, cal, frames);
      var base := AchievementCounts(awarded, year, cal);
      j < |o.upload| && o.upload[j].achievementId == SixPackId
      && Count(base + Events(o.upload[..j + 1]), o.upload[j].paxId, SixPackId) > 1
      ==> && Renderable(o.notices, awards)
          && |o.notices| == |o.upload|
          && var m := Messages(o.notices, channel, awards, show, AsWritten)[j];
             && m.target == o.upload[j].paxId
             && IsPrefix(LongOpening, m.text)
             && !IsPrefix(ShortOpening, m.text)
  {
    var o := SendToSlack(schema, year, awarded, awards, cal, frames);
    var base := AchievementCounts(awarded, year, cal);
    SendToSlackBookkeeping(schema, channel, year, awarded, awards, cal, show, AsWritten, frames);
    if j < |o.upload| {
      var m := Messages(o.notices, channel, awards, show, AsWritten)[j];
      assert m == MessageFor(base, channel, awards, show, AsWritten, o.upload, j);
      LongIsNotShortPrefix(m.text);
    }
  }

  /** No text starts with both openings. */
  lemma LongIsNotShortPrefix(t: string)
    requires IsPrefix(LongOpening, t)
    ensures !IsPrefix(ShortOpening, t)
  {
    assert t[0] == LongOpening[0];
  }

  /** The rows one frame contributes to the upload. */
  function FrameUpload(schema: string, year: int, awarded: seq<Awarded>, awards: seq<AwardInfo>, cal: Calendar,
                       frame: Frame, idx: int): seq<Awarded>
  {
    match FrameNews(schema, year, awarded, awards, cal, idx, frame)
    case None => []
    case Some(found) => Tag(idx, found)
  }

  /** The upload list is, frame by frame in order, the new rows of every processed frame,
      tagged with the frame's number. */
  function ExpectedUpload(schema: string, year: int, awarded: seq<Awarded>, awards: seq<AwardInfo>, cal: Calendar,
                          frames: seq<Frame>, idx: int): seq<Awarded>
    decreases |frames|
  {
    if |frames| == 0 then []
    else
      FrameUpload(schema, year, awarded, awards, cal, frames[0], idx)
      + ExpectedUpload(schema, year, awarded, awards, cal, frames[1..], idx + 1)
  }

  lemma {:induction false} SendRecordsUploads(idx: int, records: seq<NewRow>, o: Outcome)
    ensures SendRecords(idx, records, o).upload == o.upload + Tag(idx, records)
    decreases |records|
  {
    if |records| > 0 {
      var o' := Step(o, Record(idx, records[0]));
      SendRecordsUploads(idx, records[1..], o');
      assert Tag(idx, records) == [Record(idx, records[0])] + Tag(idx, records[1..]);
    }
  }

  lemma AppendAssoc<T>(a: seq<T>, b: seq<T>, c: seq<T>)
    ensures a + b + c == a + (b + c)
  {
  }

  lemma AfterFrameUploads(schema: string, year: int, awarded: seq<Awarded>, awards: seq<AwardInfo>,
                          cal: Calendar, frame: Frame, idx: int, o: Outcome)
    ensures AfterFrame(schema, year, awarded, awards, cal, frame, idx, o).upload
         == o.upload + FrameUpload(schema, year, awarded, awards, cal, frame, idx)
  {
    match FrameNews(schema, year, awarded, awards, cal, idx, frame)
    case None =>
    case Some(found) =>
      SendRecordsUploads(idx, found, o);
  }

  lemma {:induction false} SendFramesUploads(schema: string, year: int, awarded: seq<Awarded>,
                                             awards: seq<AwardInfo>, cal: Calendar,
                                             frames: seq<Frame>, idx: int, o: Outcome)
    ensures SendFrames(schema, year, awarded, awards, cal, frames, idx, o).upload
         == o.upload + ExpectedUpload(schema, year, awarded, awards, cal, frames, idx)
    decreases |frames|
  {
    if |frames| > 0 {
      var o' := AfterFrame(schema, year, awarded, awards, cal, frames[0], idx, o);
      AfterFrameUploads(schema, year, awarded, awards, cal, frames[0], idx, o);
      SendFramesUploads(schema, year, awarded, awards, cal, frames[1..], idx + 1, o');
      var here := FrameUpload(schema, year, awarded, awards, cal, frames[0], idx);
      var rest := ExpectedUpload(schema, year, awarded, awards, cal, frames[1..], idx + 1);
      AppendAssoc(o.upload, here, rest);
    }
  }

  /** What `send_to_slack` returns for upload: every processed frame's new rows tagged with its
      number, frames skipped when empty, when nothing in them is new, or when their number is
      not in the region's achievement list. */
  lemma SendToSlackUploads(schema: string, year: int, awarded: seq<Awarded>, awards: seq<AwardInfo>,
                           cal: Calendar, frames: seq<Frame>)
    ensures SendToSlack(schema, year, awarded, awards, cal, frames).upload
         == ExpectedUpload(schema, year, awarded, awards, cal, frames, 1)
  {
    SendFramesUploads(schema, year, awarded, awards, cal, frames, 1,
                      Outcome(AchievementCounts(awarded, year, cal), [], []));
  }

  /** A frame's uploaded row is one of its new rows tagged with its number, and that number is in
      the region's achievement list. */
  lemma FrameUploadOrigin(schema: string, year: int, awarded: seq<Awarded>, awards: seq<AwardInfo>, cal: Calendar,
                          frame: Frame, idx: int, u: Awarded) returns (x: NewRow)
    requires u in FrameUpload(schema, year, awarded, awards, cal, frame, idx)
    ensures u.achievementId in AwardIds(awards)
    ensures x in CheckForNewResults(schema, year, idx, frame, awarded, cal) && u == Record(idx, x)
  {
    var found :| FrameNews(schema, year, awarded, awards, cal, idx, frame) == Some(found);
    var j :| 0 <= j < |Tag(idx, found)| && Tag(idx, found)[j] == u;
    x := found[j];
  }

  /** A row of the upload is a row of the first frame's or of the later frames'. */
  lemma ExpectedUploadSplit(schema: string, year: int, awarded: seq<Awarded>, awards: seq<AwardInfo>, cal: Calendar,
                            frames: seq<Frame>, idx: int, u: Awarded)
    requires u in ExpectedUpload(schema, year, awarded, awards, cal, frames, idx)
    ensures |frames| > 0
    ensures u in FrameUpload(schema, year, awarded, awards, cal, frames[0], idx)
         || u in ExpectedUpload(schema, year, awarded, awards, cal, frames[1..], idx + 1)
  {
  }

  /** Every uploaded row is an uploaded row of frame `i`, numbered `n`. */
  lemma {:induction false} ExpectedUploadFrame(schema: string, year: int, awarded: seq<Awarded>,
                                               awards: seq<AwardInfo>, cal: Calendar, frames: seq<Frame>,
                                               idx: int, u: Awarded) returns (i: nat, n: int)
    requires u in ExpectedUpload(schema, year, awarded, awards, cal, frames, idx)
    ensures i < |frames| && n == idx + i
    ensures u in FrameUpload(schema, year, awarded, awards, cal, frames[i], n)
    decreases |frames|
  {
    ExpectedUploadSplit(schema, year, awarded, awards, cal, frames, idx, u);
    if u in FrameUpload(schema, year, awarded, awards, cal, frames[0], idx) {
      i, n := 0, idx;
    } else {
      var k, m := ExpectedUploadFrame(schema, year, awarded, awards, cal, frames[1..], idx + 1, u);
      assert frames[1..][k] == frames[k + 1];
      i, n := k + 1, m;
    }
  }

  /** Every uploaded row is a new row of frame `i`, tagged with that frame's number `n`, and
      that number is in the region's achievement list. */
  lemma ExpectedUploadOrigin(schema: string, year: int, awarded: seq<Awarded>, awards: seq<AwardInfo>,
                             cal: Calendar, frames: seq<Frame>, idx: int, u: Awarded)
    returns (i: nat, n: int, x: NewRow)
    requires u in ExpectedUpload(schema, year, awarded, awards, cal, frames, idx)
    ensures u.achievementId in AwardIds(awards)
    ensures i < |frames| && n == idx + i
    ensures x in CheckForNewResults(schema, year, n, frames[i], awarded, cal) && u == Record(n, x)
  {
    i, n := ExpectedUploadFrame(schema, year, awarded, awards, cal, frames, idx, u);
    x := FrameUploadOrigin(schema, year, awarded, awards, cal, frames[i], n, u);
  }
}
