/** The weekly Kotter report: for every region, the men who have stopped posting (MIA), the
    men who have not led a workout for a while (low Q) and the men who have never led one
    (no Q), written up as one Slack message per site Q and one for the region's default
    recipient. This module holds the newer report; the older one reuses its mention rule,
    header and recipient rule. */
module Kotter {
  import opened Wrappers
  import opened Text
  import opened Seqs

  /** One row of a report list: the man's Slack user id, the date that put him on the list
      (his last post or his last Q) and the site Q of his home AO, absent when that AO has none. */
  datatype Pax = Pax(userId: string, date: int, siteQ: Option<string>)

  /** The site-Q value names a Slack user: present, non-empty, and its first character
      upper-cases to `U`. */
  predicate NamesUser(siteq: Option<string>) {
    siteq.Some? && |siteq.value| > 0 && (siteq.value[0] == 'U' || siteq.value[0] == 'u')
  }

  /** Whom the report greets: the site Q himself when the value names a user, otherwise the
      whole channel (including an absent or empty value). */
  function Mention(siteq: Option<string>): (r: string)
    ensures IsPrefix("@", r) <==> NamesUser(siteq)
    ensures IsPrefix("@", r) ==> r[1..] == siteq.value
    ensures !IsPrefix("@", r) ==> r == "!channel"
  {
    assert "!channel"[0] != '@';
    if NamesUser(siteq) then "@" + siteq.value else "!channel"
  }

  lemma MentionExamples()
    ensures Mention(Some("U04ABC")) == "@U04ABC"
    ensures Mention(Some("u7")) == "@u7"
    ensures Mention(Some("C0123")) == "!channel"
    ensures Mention(Some("")) == "!channel"
    ensures Mention(None) == "!channel"
  {
  }

  /** The opening line every report starts with. */
  function Header(mention: string): string {
    "Howdy, <" + mention + ">! This is your weekly WeaselBot Site Q report. According to my records..."
  }

  /** A line of a list: it starts with a new line and a dash. */
  predicate IsBullet(s: string) {
    |s| >= 2 && s[0] == '\n' && s[1] == '-'
  }

  predicate AllBullets(b: seq<string>) {
    forall i :: 0 <= i < |b| ==> IsBullet(b[i])
  }

  /** A titled list: nothing at all when the list is empty. */
  function Section(heading: string, bullets: seq<string>): seq<string> {
    if |bullets| == 0 then [] else [heading] + bullets
  }

  /** A piece that is not a list line occurs in a section exactly when it is the title of a
      non-empty one. */
  lemma InSection(x: string, heading: string, bullets: seq<string>)
    requires AllBullets(bullets) && !IsBullet(x)
    ensures x in Section(heading, bullets) <==> x == heading && |bullets| > 0
  {
  }

  /** Keeping the list lines of a section keeps exactly its rows. */
  lemma {:induction false} SectionLines(heading: string, bullets: seq<string>)
    requires AllBullets(bullets) && !IsBullet(heading)
    ensures Filter(Section(heading, bullets), IsBullet) == bullets
  {
    if |bullets| > 0 {
      FilterAppend([heading], bullets, IsBullet);
      AllBulletsKept(bullets);
    }
  }

  lemma {:induction false} AllBulletsKept(b: seq<string>)
    requires AllBullets(b)
    ensures Filter(b, IsBullet) == b
    decreases |b|
  {
    if |b| > 0 {
      AllBulletsKept(b[1..]);
    }
  }

  /** Every section title starts on a new paragraph. */
  const Gap: string := "\n\n"

  const PostsHeading: string := Gap + "The following men haven't posted in a while."
  const QsHeading: string := Gap + "These guys haven't Q'd in a while. Here's how many days it's been:"
  const NoQsHeading: string := Gap + "These guys have never been Q:"

  /** A Slack user reference. */
  function Tag(userId: string): string {
    "<@" + userId + ">"
  }

  /** `fmt` is `strftime("%B %d, %Y")`, which lies outside the model. */
  function PostBullet(p: Pax, fmt: int -> string): (s: string)
    ensures IsBullet(s)
  {
    "\n- " + Tag(p.userId) + " last posted " + fmt(p.date)
  }

  /** Days since the man last led, with `today` standing for `date.today()`. */
  function DaysSince(p: Pax, today: int): int {
    today - p.date
  }

  function QBullet(p: Pax, today: int): (s: string)
    ensures IsBullet(s)
  {
    "\n- " + Tag(p.userId) + ": " + IntToString(DaysSince(p, today)) + "!"
  }

  function NoQBullet(p: Pax): (s: string)
    ensures IsBullet(s)
  {
    "\n- " + Tag(p.userId)
  }

  /** The low-Q rows by ascending number of days since the man last led. */
  function ByDaysSince(qs: seq<Pax>, today: int): (r: seq<Pax>)
    ensures multiset(r) == multiset(qs)
    ensures forall i, j :: 0 <= i < j < |r| ==> DaysSince(r[i], today) <= DaysSince(r[j], today)
  {
    SortBy(qs, (p: Pax) => DaysSince(p, today))
  }

  function PostLines(posts: seq<Pax>, fmt: int -> string): (b: seq<string>)
    ensures |b| == |posts| && AllBullets(b)
  {
    seq(|posts|, i requires 0 <= i < |posts| => PostBullet(posts[i], fmt))
  }

  function QLines(qs: seq<Pax>, today: int): (b: seq<string>)
    ensures |b| == |qs| && AllBullets(b)
    ensures forall k :: 0 <= k < |qs| ==> b[k] == QBullet(ByDaysSince(qs, today)[k], today)
  {
    var sorted := ByDaysSince(qs, today);
    assert |sorted| == |multiset(sorted)| == |qs|;
    seq(|qs|, i requires 0 <= i < |qs| => QBullet(sorted[i], today))
  }

  function NoQLines(noqs: seq<Pax>): (b: seq<string>)
    ensures |b| == |noqs| && AllBullets(b)
  {
    seq(|noqs|, i requires 0 <= i < |noqs| => NoQBullet(noqs[i]))
  }

  /** The pieces the report is joined from, in order: the header, then the MIA, low-Q and
      no-Q sections. */
  function Pieces(posts: seq<Pax>, qs: seq<Pax>, noqs: seq<Pax>, siteq: Option<string>,
                  today: int, fmt: int -> string): seq<string>
  {
    [Header(Mention(siteq))] + Section(PostsHeading, PostLines(posts, fmt))
      + Section(QsHeading, QLines(qs, today)) + Section(NoQsHeading, NoQLines(noqs))
  }

  /** The report text. */
  function Report(posts: seq<Pax>, qs: seq<Pax>, noqs: seq<Pax>, siteq: Option<string>,
                  today: int, fmt: int -> string): (r: string)
    ensures IsPrefix(Header(Mention(siteq)), r)
  {
    var ps := Pieces(posts, qs, noqs, siteq, today, fmt);
    assert ps[0] == Header(Mention(siteq));
    Flatten(ps)
  }

  /** A section title appears in the report exactly when its list is non-empty. */
  lemma ReportHeadings(posts: seq<Pax>, qs: seq<Pax>, noqs: seq<Pax>, siteq: Option<string>,
                       today: int, fmt: int -> string)
    ensures var ps := Pieces(posts, qs, noqs, siteq, today, fmt);
      && ps[0] == Header(Mention(siteq))
      && (PostsHeading in ps <==> |posts| > 0)
      && (QsHeading in ps <==> |qs| > 0)
      && (NoQsHeading in ps <==> |noqs| > 0)
  {
    var h := Header(Mention(siteq));
    var a := PostLines(posts, fmt);
    var b := QLines(qs, today);
    var c := NoQLines(noqs);
    assert h[0] == 'H';
    assert PostsHeading[1] == '\n' && QsHeading[1] == '\n' && NoQsHeading[1] == '\n';
    assert |PostsHeading| != |QsHeading| && |PostsHeading| != |NoQsHeading| && |QsHeading| != |NoQsHeading|;
    HeadingIn(PostsHeading, h, PostsHeading, a, QsHeading, b, NoQsHeading, c);
    HeadingIn(QsHeading, h, PostsHeading, a, QsHeading, b, NoQsHeading, c);
    HeadingIn(NoQsHeading, h, PostsHeading, a, QsHeading, b, NoQsHeading, c);
  }

  /** Where a title that is neither the header nor a list line can occur among three sections. */
  lemma HeadingIn(x: string, h: string, ha: string, a: seq<string>, hb: string, b: seq<string>,
                  hc: string, c: seq<string>)
    requires AllBullets(a) && AllBullets(b) && AllBullets(c) && !IsBullet(x) && x != h
    ensures x in [h] + Section(ha, a) + Section(hb, b) + Section(hc, c) <==>
            (x == ha && |a| > 0) || (x == hb && |b| > 0) || (x == hc && |c| > 0)
  {
    InSection(x, ha, a);
    InSection(x, hb, b);
    InSection(x, hc, c);
  }

  /** The report's list lines are exactly the rows' lines, section by section. */
  lemma ReportLineCount(posts: seq<Pax>, qs: seq<Pax>, noqs: seq<Pax>, siteq: Option<string>,
                        today: int, fmt: int -> string)
    ensures Filter(Pieces(posts, qs, noqs, siteq, today, fmt), IsBullet)
         == PostLines(posts, fmt) + QLines(qs, today) + NoQLines(noqs)
    ensures |Filter(Pieces(posts, qs, noqs, siteq, today, fmt), IsBullet)| == |posts| + |qs| + |noqs|
  {
    HeaderIsNoBullet(Mention(siteq));
    HeadingsAreNoBullets();
    ThreeSectionsLines(Header(Mention(siteq)), PostsHeading, PostLines(posts, fmt), QsHeading, QLines(qs, today),
                       NoQsHeading, NoQLines(noqs));
  }

  lemma HeaderIsNoBullet(mention: string)
    ensures !IsBullet(Header(mention))
  {
    assert Header(mention)[0] == 'H';
  }

  lemma HeadingsAreNoBullets()
    ensures !IsBullet(PostsHeading) && !IsBullet(QsHeading) && !IsBullet(NoQsHeading)
  {
    assert PostsHeading[1] == '\n' && QsHeading[1] == '\n' && NoQsHeading[1] == '\n';
  }

  /** Keeping the list lines of a header and three titled sections keeps exactly their rows. */
  lemma ThreeSectionsLines(h: string, ha: string, a: seq<string>, hb: string, b: seq<string>,
                           hc: string, c: seq<string>)
    requires !IsBullet(h) && !IsBullet(ha) && !IsBullet(hb) && !IsBullet(hc)
    requires AllBullets(a) && AllBullets(b) && AllBullets(c)
    ensures Filter([h] + Section(ha, a) + Section(hb, b) + Section(hc, c), IsBullet) == a + b + c
  {
    var sa, sb, sc := Section(ha, a), Section(hb, b), Section(hc, c);
    SectionLines(ha, a);
    SectionLines(hb, b);
    SectionLines(hc, c);
    FilterSingle(h, IsBullet);
    FilterAppend([h], sa, IsBullet);
    assert Filter([h] + sa, IsBullet) == a;
    FilterAppend([h] + sa, sb, IsBullet);
    assert Filter([h] + sa + sb, IsBullet) == a + b;
    FilterAppend([h] + sa + sb, sc, IsBullet);
  }

  lemma QLinesAscending(qs: seq<Pax>, today: int)
    ensures exists sorted: seq<Pax> ::
              && multiset(sorted) == multiset(qs)
              && (forall i, j :: 0 <= i < j < |sorted| ==> DaysSince(sorted[i], today) <= DaysSince(sorted[j], today))
              && QLines(qs, today) == seq(|sorted|, k requires 0 <= k < |sorted| => QBullet(sorted[k], today))
  {
    var sorted := ByDaysSince(qs, today);
    assert |sorted| == |multiset(sorted)| == |qs|;
  }

  /** The user ids on a list. */
  function UserIds(rows: seq<Pax>): set<string> {
    set p | p in rows :: p.userId
  }

  /** The rows whose user id is not in `ids` (`filter(~is_in(ids))`). */
  function WithoutIds(rows: seq<Pax>, ids: set<string>): (r: seq<Pax>)
    ensures forall p :: p in r <==> p in rows && p.userId !in ids
    ensures |r| <= |rows|
  {
    Filter(rows, (p: Pax) => p.userId !in ids)
  }

  /** The low-Q list leaves out the MIA men. */
  function LowQList(mia: seq<Pax>, lowq: seq<Pax>): (r: seq<Pax>)
    ensures forall p :: p in r <==> p in lowq && p.userId !in UserIds(mia)
  {
    WithoutIds(lowq, UserIds(mia))
  }

  /** The no-Q list leaves out the MIA men and the (already reduced) low-Q men. */
  function NoQList(mia: seq<Pax>, lowq: seq<Pax>, noq: seq<Pax>): (r: seq<Pax>)
    ensures forall p :: p in r <==> p in noq && p.userId !in UserIds(mia) && p.userId !in UserIds(lowq)
  {
    WithoutIds(WithoutIds(noq, UserIds(mia)), UserIds(lowq))
  }

  /** After the exclusions no man is on two lists. */
  lemma ListsDisjoint(mia: seq<Pax>, lowqRows: seq<Pax>, noqRows: seq<Pax>)
    ensures var lowq := LowQList(mia, lowqRows);
      var noq := NoQList(mia, lowq, noqRows);
      && UserIds(mia) !! UserIds(lowq)
      && UserIds(mia) !! UserIds(noq)
      && UserIds(lowq) !! UserIds(noq)
  {
    var lowq := LowQList(mia, lowqRows);
    var noq := NoQList(mia, lowq, noqRows);
    forall u | u in UserIds(lowq) ensures u !in UserIds(mia) {
      var p :| p in lowq && p.userId == u;
    }
    forall u | u in UserIds(noq) ensures u !in UserIds(mia) && u !in UserIds(lowq) {
      var p :| p in noq && p.userId == u;
    }
  }

  /** One Slack message: where it goes and what it says. */
  datatype Message = Message(channel: string, text: string)

  /** The rows of a list whose home AO has site Q `q`; rows without a site Q match nobody. */
  function ForSiteQ(rows: seq<Pax>, q: string): (r: seq<Pax>)
    ensures forall p :: p in r <==> p in rows && p.siteQ == Some(q)
  {
    Filter(rows, (p: Pax) => p.siteQ == Some(q))
  }

  /** Some row of the three lists belongs to site Q `q`. */
  predicate HasMen(q: string, mia: seq<Pax>, lowq: seq<Pax>, noq: seq<Pax>) {
    exists p :: p in mia + lowq + noq && p.siteQ == Some(q)
  }

  /** A report builder: the three lists and the recipient's site-Q value to a message. */
  type Builder = (seq<Pax>, seq<Pax>, seq<Pax>, Option<string>) -> string

  /** The report site Q `q` gets: the rows of his AOs only. */
  function SiteQMessage(q: string, mia: seq<Pax>, lowq: seq<Pax>, noq: seq<Pax>, build: Builder): Message {
    Message(q, build(ForSiteQ(mia, q), ForSiteQ(lowq, q), ForSiteQ(noq, q), Some(q)))
  }

  /** The number of rows of the three lists that belong to site Q `q`. */
  function MenCount(q: string, mia: seq<Pax>, lowq: seq<Pax>, noq: seq<Pax>): nat {
    |ForSiteQ(mia, q)| + |ForSiteQ(lowq, q)| + |ForSiteQ(noq, q)|
  }

  /** The row count is positive exactly when some row belongs to `q`. */
  lemma MenCountPositive(q: string, mia: seq<Pax>, lowq: seq<Pax>, noq: seq<Pax>)
    ensures MenCount(q, mia, lowq, noq) > 0 <==> HasMen(q, mia, lowq, noq)
  {
    if HasMen(q, mia, lowq, noq) {
      var p :| p in mia + lowq + noq && p.siteQ == Some(q);
      assert p in ForSiteQ(mia, q) || p in ForSiteQ(lowq, q) || p in ForSiteQ(noq, q);
    }
    if MenCount(q, mia, lowq, noq) > 0 {
      var p := if |ForSiteQ(mia, q)| > 0 then ForSiteQ(mia, q)[0]
               else if |ForSiteQ(lowq, q)| > 0 then ForSiteQ(lowq, q)[0]
               else ForSiteQ(noq, q)[0];
      assert p in mia + lowq + noq && p.siteQ == Some(q);
    }
  }

  /** One message per site-Q row (an AO's site Q) whose lists are not all empty, in row order. */
  function SiteQMessages(siteqs: seq<string>, mia: seq<Pax>, lowq: seq<Pax>, noq: seq<Pax>,
                         build: Builder): (r: seq<Message>)
    ensures |r| <= |siteqs|
    ensures forall m :: m in r ==> m.channel in siteqs && m == SiteQMessage(m.channel, mia, lowq, noq, build)
    decreases |siteqs|
  {
    if |siteqs| == 0 then []
    else
      var q := siteqs[0];
      var rest := SiteQMessages(siteqs[1..], mia, lowq, noq, build);
      assert forall x :: x in siteqs[1..] ==> x in siteqs;
      (if MenCount(q, mia, lowq, noq) > 0 then [SiteQMessage(q, mia, lowq, noq, build)] else []) + rest
  }

  /** Site Q `q` is sent a report exactly when he is listed and some row belongs to him. */
  lemma {:induction false} SiteQMessagesTo(siteqs: seq<string>, mia: seq<Pax>, lowq: seq<Pax>, noq: seq<Pax>,
                                           build: Builder, q: string)
    ensures SiteQMessage(q, mia, lowq, noq, build) in SiteQMessages(siteqs, mia, lowq, noq, build)
            <==> q in siteqs && HasMen(q, mia, lowq, noq)
    decreases |siteqs|
  {
    if |siteqs| > 0 {
      SiteQMessagesTo(siteqs[1..], mia, lowq, noq, build, q);
      MenCountPositive(siteqs[0], mia, lowq, noq);
      assert forall x :: x in siteqs <==> x == siteqs[0] || x in siteqs[1..];
    }
  }

  const DefaultNote: string :=
    "\n\nNote: If you have listed your site Qs on your aos table, this information will have gone out to them as well."

  /** The region-wide report for the default recipient, with the note appended. */
  function DefaultMessage(default: string, mia: seq<Pax>, lowq: seq<Pax>, noq: seq<Pax>, build: Builder): Message {
    Message(default, build(mia, lowq, noq, Some(default)) + DefaultNote)
  }

  /** All messages of one region: the site-Q reports, then the full report for the default
      recipient unless he is himself one of the site Qs. */
  function Deliveries(siteqs: seq<string>, mia: seq<Pax>, lowq: seq<Pax>, noq: seq<Pax>, default: string,
                      build: Builder): (r: seq<Message>)
    ensures forall m :: m in r ==> m.channel in siteqs || m.channel == default
    ensures forall q :: q in siteqs ==>
              ((exists m :: m in r && m.channel == q) <==> HasMen(q, mia, lowq, noq))
    ensures forall m :: m in r && m.channel in siteqs ==> m == SiteQMessage(m.channel, mia, lowq, noq, build)
    ensures default !in siteqs ==> |r| > 0 && r[|r| - 1] == DefaultMessage(default, mia, lowq, noq, build)
    ensures default in siteqs ==> forall m :: m in r ==> m == SiteQMessage(m.channel, mia, lowq, noq, build)
    ensures |r| <= |siteqs| + 1
  {
    var s := SiteQMessages(siteqs, mia, lowq, noq, build);
    var r := s + if default !in siteqs then [DefaultMessage(default, mia, lowq, noq, build)] else [];
    forall q | q in siteqs
      ensures (exists m :: m in r && m.channel == q) <==> HasMen(q, mia, lowq, noq)
    {
      DeliveriesTo(siteqs, mia, lowq, noq, default, build, q);
    }
    r
  }

  lemma DeliveriesTo(siteqs: seq<string>, mia: seq<Pax>, lowq: seq<Pax>, noq: seq<Pax>, default: string,
                     build: Builder, q: string)
    requires q in siteqs
    ensures var r := SiteQMessages(siteqs, mia, lowq, noq, build)
                     + if default !in siteqs then [DefaultMessage(default, mia, lowq, noq, build)] else [];
      (exists m :: m in r && m.channel == q) <==> HasMen(q, mia, lowq, noq)
  {
    var s := SiteQMessages(siteqs, mia, lowq, noq, build);
    var r := s + if default !in siteqs then [DefaultMessage(default, mia, lowq, noq, build)] else [];
    SiteQMessagesTo(siteqs, mia, lowq, noq, build, q);
    if HasMen(q, mia, lowq, noq) {
      assert SiteQMessage(q, mia, lowq, noq, build) in r;
    }
    if exists m :: m in r && m.channel == q {
      var m :| m in r && m.channel == q;
      assert m in s;
    }
  }

  /** The newer report as a builder. */
  function NewReport(today: int, fmt: int -> string): Builder {
    (a: seq<Pax>, b: seq<Pax>, c: seq<Pax>, q: Option<string>) => Report(a, b, c, q, today, fmt)
  }

  /** A man whose home AO has no listed site Q reaches nobody's list but the default
      recipient's, and when the default recipient is himself a site Q, nobody's at all. */
  lemma UnassignedReachOnlyDefault(siteqs: seq<string>, mia: seq<Pax>, lowq: seq<Pax>, noq: seq<Pax>,
                                   default: string, build: Builder, p: Pax)
    requires p.siteQ.None? || p.siteQ.value !in siteqs
    ensures forall m :: m in Deliveries(siteqs, mia, lowq, noq, default, build) && m.channel in siteqs ==>
              p !in ForSiteQ(mia, m.channel) && p !in ForSiteQ(lowq, m.channel) && p !in ForSiteQ(noq, m.channel)
    ensures default in siteqs ==>
              forall m :: m in Deliveries(siteqs, mia, lowq, noq, default, build) ==> m.channel in siteqs
  {
  }

  /** A site Q listed on several AOs gets the same report once per AO. */
  lemma {:induction false} SiteQMessageCount(siteqs: seq<string>, mia: seq<Pax>, lowq: seq<Pax>, noq: seq<Pax>,
                                             build: Builder, q: string)
    ensures multiset(SiteQMessages(siteqs, mia, lowq, noq, build))[SiteQMessage(q, mia, lowq, noq, build)]
            == if HasMen(q, mia, lowq, noq) then multiset(siteqs)[q] else 0
    decreases |siteqs|
  {
    if |siteqs| > 0 {
      var x := siteqs[0];
      var m := SiteQMessage(q, mia, lowq, noq, build);
      SiteQMessageCount(siteqs[1..], mia, lowq, noq, build, q);
      FirstSiteQCount(siteqs, mia, lowq, noq, build, q);
      MultisetHead(siteqs);
    }
  }

  /** The messages owed to the first site-Q row, counted. */
  lemma FirstSiteQCount(siteqs: seq<string>, mia: seq<Pax>, lowq: seq<Pax>, noq: seq<Pax>, build: Builder, q: string)
    requires |siteqs| > 0
    ensures var m := SiteQMessage(q, mia, lowq, noq, build);
      multiset(SiteQMessages(siteqs, mia, lowq, noq, build))[m]
      == (if HasMen(q, mia, lowq, noq) then multiset{siteqs[0]}[q] else 0)
         + multiset(SiteQMessages(siteqs[1..], mia, lowq, noq, build))[m]
  {
    var x := siteqs[0];
    var m := SiteQMessage(q, mia, lowq, noq, build);
    var head := if MenCount(x, mia, lowq, noq) > 0 then [SiteQMessage(x, mia, lowq, noq, build)] else [];
    var rest := SiteQMessages(siteqs[1..], mia, lowq, noq, build);
    assert SiteQMessages(siteqs, mia, lowq, noq, build) == head + rest;
    MenCountPositive(x, mia, lowq, noq);
    if x != q {
      assert SiteQMessage(x, mia, lowq, noq, build).channel != m.channel;
    }
  }
}
