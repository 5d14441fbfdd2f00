/** The older Kotter report. It greets and routes exactly like the newer one (same mention
    rule, header and recipients) but words its sections differently: the MIA section has a
    two-part title, low-Q lines give both the date and the day count, and no-Q men are
    appended as plain lines with no title of their own. */
module KotterLegacy {
  import opened Wrappers
  import opened Text
  import opened Seqs
  import opened Kotter

  const PostsTitle: string := Gap + "The following PAX haven't posted in a bit. "
  const PostsNudge: string :=
    "Now may be a good time" + " to reach out to them when you get a minute. No OYO! :muscle:"
  const QsTitle: string := Gap + "These guys haven't Q'd anywhere in a while (or at all!):"

  /** The MIA section: nothing when the list is empty, else both title parts and a line per row. */
  function PostsPart(posts: seq<Pax>, fmt: int -> string): seq<string> {
    if |posts| == 0 then [] else [PostsTitle, PostsNudge] + PostLines(posts, fmt)
  }

  /** A low-Q line; `fmt` formats the date as `strftime("%B %d, %Y")`. */
  function SinceBullet(p: Pax, today: int, fmt: int -> string): (s: string)
    ensures IsBullet(s)
  {
    "\n- " + Tag(p.userId) + " hasn't been Q since " + fmt(p.date) + ". That's "
      + IntToString(DaysSince(p, today)) + " days!"
  }

  function SinceLines(qs: seq<Pax>, today: int, fmt: int -> string): (b: seq<string>)
    ensures |b| == |qs| && AllBullets(b)
    ensures forall k :: 0 <= k < |qs| ==> b[k] == SinceBullet(ByDaysSince(qs, today)[k], today, fmt)
  {
    var sorted := ByDaysSince(qs, today);
    assert |sorted| == |multiset(sorted)| == |qs|;
    seq(|qs|, i requires 0 <= i < |qs| => SinceBullet(sorted[i], today, fmt))
  }

  function NeverBullet(p: Pax): (s: string)
    ensures IsBullet(s)
  {
    "\n- " + Tag(p.userId) + " (no Q yet!)"
  }

  function NeverLines(noqs: seq<Pax>): (b: seq<string>)
    ensures |b| == |noqs| && AllBullets(b)
  {
    seq(|noqs|, i requires 0 <= i < |noqs| => NeverBullet(noqs[i]))
  }

  /** The pieces the older report is joined from, in order. */
  function Pieces(posts: seq<Pax>, qs: seq<Pax>, noqs: seq<Pax>, siteq: Option<string>,
                  today: int, fmt: int -> string): seq<string>
  {
    [Header(Mention(siteq))] + PostsPart(posts, fmt) + Section(QsTitle, SinceLines(qs, today, fmt))
      + NeverLines(noqs)
  }

  /** The older report text. */
  function Report(posts: seq<Pax>, qs: seq<Pax>, noqs: seq<Pax>, siteq: Option<string>,
                  today: int, fmt: int -> string): (r: string)
    ensures IsPrefix(Header(Mention(siteq)), r)
  {
    var ps := Pieces(posts, qs, noqs, siteq, today, fmt);
    assert ps[0] == Header(Mention(siteq));
    Flatten(ps)
  }

  /** The MIA titles appear exactly when the MIA list is non-empty, the low-Q title exactly
      when the low-Q list is, and the no-Q rows add lines but no title. */
  lemma ReportHeadings(posts: seq<Pax>, qs: seq<Pax>, noqs: seq<Pax>, siteq: Option<string>,
                       today: int, fmt: int -> string)
    ensures var ps := Pieces(posts, qs, noqs, siteq, today, fmt);
      && ps[0] == Header(Mention(siteq))
      && (PostsTitle in ps <==> |posts| > 0)
      && (PostsNudge in ps <==> |posts| > 0)
      && (QsTitle in ps <==> |qs| > 0)
      && |ps| == 1 + (if |posts| > 0 then 2 else 0) + (if |qs| > 0 then 1 else 0) + |posts| + |qs| + |noqs|
  {
    var h := Header(Mention(siteq));
    var a := PostLines(posts, fmt);
    var b := SinceLines(qs, today, fmt);
    var c := NeverLines(noqs);
    assert h[0] == 'H';
    assert PostsTitle[1] == '\n' && QsTitle[1] == '\n' && PostsNudge[0] == 'N';
    assert |PostsTitle| != |QsTitle| && |PostsNudge| != |QsTitle| && |PostsNudge| != |PostsTitle|;
    TitleIn(PostsTitle, h, a, b, c);
    TitleIn(PostsNudge, h, a, b, c);
    TitleIn(QsTitle, h, a, b, c);
  }

  /** Where a piece that is neither the header nor a list line can occur in the older report. */
  lemma TitleIn(x: string, h: string, a: seq<string>, b: seq<string>, c: seq<string>)
    requires AllBullets(a) && AllBullets(b) && AllBullets(c) && !IsBullet(x) && x != h
    ensures x in [h] + (if |a| == 0 then [] else [PostsTitle, PostsNudge] + a) + Section(QsTitle, b) + c <==>
            ((x == PostsTitle || x == PostsNudge) && |a| > 0) || (x == QsTitle && |b| > 0)
  {
    InSection(x, QsTitle, b);
  }

  /** The older report's list lines are exactly the rows' lines, list by list. */
  lemma ReportLineCount(posts: seq<Pax>, qs: seq<Pax>, noqs: seq<Pax>, siteq: Option<string>,
                        today: int, fmt: int -> string)
    ensures Filter(Pieces(posts, qs, noqs, siteq, today, fmt), IsBullet)
         == PostLines(posts, fmt) + SinceLines(qs, today, fmt) + NeverLines(noqs)
    ensures |Filter(Pieces(posts, qs, noqs, siteq, today, fmt), IsBullet)| == |posts| + |qs| + |noqs|
  {
    HeaderIsNoBullet(Mention(siteq));
    TitlesAreNoBullets();
    PostsPartLines(posts, fmt);
    PartsLines(Header(Mention(siteq)), PostsPart(posts, fmt), PostLines(posts, fmt),
               QsTitle, SinceLines(qs, today, fmt), NeverLines(noqs));
  }

  lemma TitlesAreNoBullets()
    ensures !IsBullet(PostsTitle) && !IsBullet(PostsNudge) && !IsBullet(QsTitle)
  {
    assert PostsTitle[1] == '\n' && PostsNudge[0] == 'N' && QsTitle[1] == '\n';
  }

  /** Keeping the list lines of a header, a part whose lines are `a`, a titled section and
      bare lines keeps exactly `a` and the rows. */
  lemma PartsLines(h: string, sa: seq<string>, a: seq<string>, hb: string, b: seq<string>, c: seq<string>)
    requires !IsBullet(h) && !IsBullet(hb) && Filter(sa, IsBullet) == a
    requires AllBullets(b) && AllBullets(c)
    ensures Filter([h] + sa + Section(hb, b) + c, IsBullet) == a + b + c
  {
    var sb := Section(hb, b);
    SectionLines(hb, b);
    AllBulletsKept(c);
    FilterSingle(h, IsBullet);
    FilterAppend([h], sa, IsBullet);
    assert Filter([h] + sa, IsBullet) == a;
    FilterAppend([h] + sa, sb, IsBullet);
    assert Filter([h] + sa + sb, IsBullet) == a + b;
    FilterAppend([h] + sa + sb, c, IsBullet);
  }

  /** The list lines of the MIA section are its rows. */
  lemma PostsPartLines(posts: seq<Pax>, fmt: int -> string)
    ensures Filter(PostsPart(posts, fmt), IsBullet) == PostLines(posts, fmt)
  {
    if |posts| > 0 {
      TitlesAreNoBullets();
      TitlesLines(PostsTitle, PostsNudge, PostLines(posts, fmt));
    }
  }

  /** Keeping the list lines of two titles and a list keeps exactly the list. */
  lemma TitlesLines(t: string, u: string, a: seq<string>)
    requires !IsBullet(t) && !IsBullet(u) && AllBullets(a)
    ensures Filter([t, u] + a, IsBullet) == a
  {
    FilterSingle(t, IsBullet);
    FilterSingle(u, IsBullet);
    assert [t, u] == [t] + [u];
    FilterAppend([t], [u], IsBullet);
    assert Filter([t, u], IsBullet) == [];
    AllBulletsKept(a);
    FilterAppend([t, u], a, IsBullet);
  }

  /** The older report as a builder, routed by the shared recipient rule. */
  function LegacyReport(today: int, fmt: int -> string): Builder {
    (a: seq<Pax>, b: seq<Pax>, c: seq<Pax>, q: Option<string>) => Report(a, b, c, q, today, fmt)
  }
}
