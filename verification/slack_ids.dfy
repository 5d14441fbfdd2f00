/** Normalisation of the Slack user references PAXminer stores for Qs, co-Qs and attendees:
    either a bare member id ("U..." ) or a mention link whose member id follows "/team/" and
    ends at "|". */
module SlackIds {
  import opened Wrappers
  import opened Text

  const TeamMarker: string := "/team/"
  const Pipe: string := "|"

  /** `extract_user_id`: a bare id is returned as is; a link yields the text between the first
      "/team/" and the next "|" (or the next "/team/"); anything else, and a missing value,
      yields no id. The `try` around the split turns the missing second piece into `None`. */
  function ExtractUserId(raw: Option<string>): (r: Option<string>)
    ensures raw.None? ==> r.None?
    ensures raw.Some? && IsPrefix("U", raw.value) ==> r == raw
    ensures raw.Some? && !IsPrefix("U", raw.value) ==> (r.Some? <==> Contains(raw.value, TeamMarker))
    ensures (raw.Some? && !IsPrefix("U", raw.value) && r.Some?) ==>
      !Contains(r.value, Pipe) && !Contains(r.value, TeamMarker)
  {
    match raw
    case None => None
    case Some(s) =>
      if IsPrefix("U", s) then Some(s)
      else
        var parts := Split(s, TeamMarker);
        if |parts| < 2 then None
        else
          var pieces := Split(parts[1], Pipe);
          assert !Contains(pieces[0], TeamMarker) by {
            assert pieces[0] == parts[1][..IndexOf(parts[1], Pipe)];
            NoMarkerInPrefix(parts[1], IndexOf(parts[1], Pipe));
          }
          Some(pieces[0])
  }

  lemma NoMarkerInPrefix(s: string, m: nat)
    requires m <= |s| && !Contains(s, TeamMarker)
    ensures !Contains(s[..m], TeamMarker)
  {
    if Contains(s[..m], TeamMarker) {
      ContainsPrefix(s, m, TeamMarker);
    }
  }

  /** An occurrence inside a prefix is an occurrence in the whole string. */
  lemma {:induction false} ContainsPrefix(s: string, m: nat, sub: string)
    requires m <= |s|
    ensures Contains(s[..m], sub) ==> Contains(s, sub)
    decreases m
  {
    if Contains(s[..m], sub) {
      if IsPrefix(sub, s[..m]) {
        PrefixOfPrefix(sub, s, m);
      } else {
        assert s[..m][1..] == s[1..][..m - 1];
        ContainsPrefix(s[1..], m - 1, sub);
      }
    }
  }

  /** Where the id comes from: for a link, the id is the text right after the first "/team/",
      up to whichever of "|" and a further "/team/" comes first (or the end). */
  lemma ExtractUserIdLocation(s: string)
    requires !IsPrefix("U", s) && Contains(s, TeamMarker)
    ensures var after := s[IndexOf(s, TeamMarker) + |TeamMarker|..];
      var stop := if IndexOf(after, Pipe) < IndexOf(after, TeamMarker)
                  then IndexOf(after, Pipe) else IndexOf(after, TeamMarker);
      ExtractUserId(Some(s)) == Some(after[..stop])
  {
    var after := s[IndexOf(s, TeamMarker) + |TeamMarker|..];
    LinkIdIsCutPiece(s);
    CutAtEarlierStop(after);
  }

  lemma LinkIdIsCutPiece(s: string)
    requires !IsPrefix("U", s) && Contains(s, TeamMarker)
    ensures var after := s[IndexOf(s, TeamMarker) + |TeamMarker|..];
      var t := after[..IndexOf(after, TeamMarker)];
      ExtractUserId(Some(s)) == Some(t[..IndexOf(t, Pipe)])
  {
    SecondPiece(s);
  }

  lemma CutAtEarlierStop(after: string)
    ensures var t := after[..IndexOf(after, TeamMarker)];
      var stop := if IndexOf(after, Pipe) < IndexOf(after, TeamMarker)
                  then IndexOf(after, Pipe) else IndexOf(after, TeamMarker);
      t[..IndexOf(t, Pipe)] == after[..stop]
  {
    var cut := IndexOf(after, TeamMarker);
    assert Pipe == ['|'];
    IndexOfCharInPrefix(after, '|', cut);
  }

  /** The second piece of the split at "/team/" runs from the first marker to the next. */
  lemma SecondPiece(s: string)
    requires Contains(s, TeamMarker)
    ensures var after := s[IndexOf(s, TeamMarker) + |TeamMarker|..];
      && |Split(s, TeamMarker)| >= 2
      && Split(s, TeamMarker)[1] == after[..IndexOf(after, TeamMarker)]
  {
    var k := IndexOf(s, TeamMarker);
    var after := s[k + |TeamMarker|..];
    SplitAtFirst(s, TeamMarker);
    assert Split(s, TeamMarker)[1] == Split(after, TeamMarker)[0];
  }

  /** A bare member id passes through; a missing value and plain text yield nothing. */
  lemma ExtractUserIdExamples()
    ensures ExtractUserId(Some("U012ABC")) == Some("U012ABC")
    ensures ExtractUserId(Some("bob")) == None
    ensures ExtractUserId(None) == None
  {
    assert "bob"[..1] == "b";
    ShorterNeverContains("bob", TeamMarker);
  }

  /** A mention link yields the member id between "/team/" and "|". */
  lemma ExtractUserIdLinkExample()
    ensures ExtractUserId(Some("/team/U9|b")) == Some("U9")
  {
    var s := "/team/U9|b";
    var after := s[6..];
    assert !IsPrefix("U", s) by {
      assert s[..1] == "/";
    }
    assert IndexOf(s, TeamMarker) == 0 by {
      assert s[..6] == TeamMarker;
    }
    assert after == "U9|b";
    assert IndexOf(after, Pipe) == 2 by {
      assert after[0] == 'U' && after[1] == '9' && after[2] == '|' && Pipe[0] == '|';
      assert after[2..][..1] == Pipe;
      assert after[0..][..1] != Pipe && after[1..][..1] != Pipe;
    }
    assert IndexOf(after, TeamMarker) == |after| by {
      ShorterNeverContains(after, TeamMarker);
    }
    ExtractUserIdLocation(s);
    assert after[..2] == "U9";
  }
}
