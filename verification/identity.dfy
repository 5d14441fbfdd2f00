/** The users step of f3_data_builder.py: PAXminer users of every region are merged into one
    person per email address. A person's home region is the region of the alias with the most
    attendance rows, and every alias is then linked to that person's warehouse id. */
module Identity {
  import opened Wrappers
  import opened Text
  import opened Seqs
  import opened Upsert
  import opened Extraction
  import opened Warehouse

  /** A PAXminer user that has an email, which is now lower-cased, stamped with its region. */
  datatype Candidate = Candidate(slackUserId: string, userName: Option<string>, email: string, regionId: nat)

  /** `c` is what the lower-casing and the `notna` filter make of `u`. */
  predicate NormalizedFrom(c: Candidate, u: Regional<SrcUser>) {
    && u.row.email.Some?
    && c == Candidate(u.row.slackUserId, u.row.userName, Lower(u.row.email.value), u.regionId)
  }

  /** Lower-case every email and drop the users without one, keeping their order. An empty
      email is not missing: it is kept. */
  function NormalizeUsers(users: seq<Regional<SrcUser>>): (r: seq<Candidate>)
    ensures |r| <= |users|
    ensures forall c :: c in r <==> exists i :: 0 <= i < |users| && NormalizedFrom(c, users[i])
    ensures forall i :: 0 <= i < |r| ==> Lower(r[i].email) == r[i].email
    decreases |users|
  {
    if |users| == 0 then []
    else
      var u := users[0];
      var rest := NormalizeUsers(users[1..]);
      assert forall i :: 1 <= i < |users| ==> users[i] == users[1..][i - 1];
      if u.row.email.Some? then
        LowerIdempotent(u.row.email.value);
        [Candidate(u.row.slackUserId, u.row.userName, Lower(u.row.email.value), u.regionId)] + rest
      else rest
  }

  /** The attendance `count` of a Slack user id: how many pulled attendance rows name it, over
      all regions, compared before any link is reduced to an id. */
  function AttendanceCount(att: seq<Regional<SrcAttendance>>, id: string): (n: nat)
    ensures n <= |att|
    ensures n == 0 <==> forall i :: 0 <= i < |att| ==> att[i].row.user != Some(id)
    decreases |att|
  {
    if |att| == 0 then 0
    else
      assert forall i :: 1 <= i < |att| ==> att[i] == att[1..][i - 1];
      (if att[0].row.user == Some(id) then 1 else 0) + AttendanceCount(att[1..], id)
  }

  /** Grouping the concatenated frames counts the same as grouping each frame and adding. */
  lemma {:induction false} AttendanceCountAppend(a: seq<Regional<SrcAttendance>>, b: seq<Regional<SrcAttendance>>,
                                                  id: string)
    ensures AttendanceCount(a + b, id) == AttendanceCount(a, id) + AttendanceCount(b, id)
    decreases |a|
  {
    if |a| == 0 {
      assert a + b == b;
    } else {
      assert (a + b)[1..] == a[1..] + b;
      AttendanceCountAppend(a[1..], b, id);
    }
  }

  /** A candidate with its attendance count; the left merge plus `fillna(0)` gives 0 to a user
      nobody counted. */
  datatype Counted = Counted(cand: Candidate, count: nat)

  function EmailOf(c: Counted): string { c.cand.email }

  function CountOf(c: Counted): int { c.count }

  function WithCounts(cands: seq<Candidate>, att: seq<Regional<SrcAttendance>>): (r: seq<Counted>)
    ensures |r| == |cands|
    ensures forall i :: 0 <= i < |r| ==> r[i].cand == cands[i] && r[i].count == AttendanceCount(att, cands[i].slackUserId)
  {
    seq(|cands|, i requires 0 <= i < |cands| => Counted(cands[i], AttendanceCount(att, cands[i].slackUserId)))
  }

  /** `fillna(0)` on the merged frame also reaches the name column: a user without a name is
      written with the integer 0, which the text column stores as "0". */
  function FilledName(name: Option<string>): (r: Option<string>)
    ensures r.Some?
    ensures name.Some? ==> r == name
    ensures name.None? ==> r == Some("0")
  {
    match name
    case Some(_) => name
    case None => Some("0")
  }

  function ToUserRow(c: Counted): UserIn { UserIn(FilledName(c.cand.userName), c.cand.email, c.cand.regionId) }

  function ToUserRows(cs: seq<Counted>): (r: seq<UserIn>)
    ensures |r| == |cs| && forall i :: 0 <= i < |r| ==> r[i] == ToUserRow(cs[i])
  {
    seq(|cs|, i requires 0 <= i < |cs| => ToUserRow(cs[i]))
  }

  /** Sort by count, highest first, and keep the first row of every email. */
  function ChooseUsers(cands: seq<Candidate>, att: seq<Regional<SrcAttendance>>): seq<UserIn> {
    ToUserRows(BestPerKey(WithCounts(cands, att), EmailOf, CountOf))
  }

  /** `u` comes from candidate `j`, and no candidate with the same email has more attendance. */
  predicate IsHome(cands: seq<Candidate>, att: seq<Regional<SrcAttendance>>, j: nat, u: UserIn)
    requires j < |cands|
  {
    && u == UserIn(FilledName(cands[j].userName), cands[j].email, cands[j].regionId)
    && forall k :: 0 <= k < |cands| && cands[k].email == cands[j].email ==>
         AttendanceCount(att, cands[k].slackUserId) <= AttendanceCount(att, cands[j].slackUserId)
  }

  /** One warehouse user per email, for exactly the emails of the candidates. */
  lemma ChooseUsersEmails(cands: seq<Candidate>, att: seq<Regional<SrcAttendance>>)
    ensures var r := ChooseUsers(cands, att);
      && UniqueKeys(r, UserKey)
      && (forall e :: e in KeysOf(r, UserKey) <==> exists j :: 0 <= j < |cands| && cands[j].email == e)
  {
    var counted := WithCounts(cands, att);
    var best := BestPerKey(counted, EmailOf, CountOf);
    var r := ToUserRows(best);
    assert forall i :: 0 <= i < |r| ==> UserKey(r[i]) == EmailOf(best[i]);
    ChosenEmails(cands, counted, best, r);
  }

  /** Each chosen user is named after and homed in an alias of its email that no other alias
      of that email outcounts. */
  lemma ChooseUsersHome(cands: seq<Candidate>, att: seq<Regional<SrcAttendance>>, i: nat)
    requires i < |ChooseUsers(cands, att)|
    ensures exists j :: 0 <= j < |cands| && IsHome(cands, att, j, ChooseUsers(cands, att)[i])
  {
    var counted := WithCounts(cands, att);
    var best := BestPerKey(counted, EmailOf, CountOf);
    ChosenIsHome(cands, att, counted, best, ToUserRows(best), i);
  }

  lemma ChosenEmails(cands: seq<Candidate>, counted: seq<Counted>, best: seq<Counted>, r: seq<UserIn>)
    requires |counted| == |cands| && forall j :: 0 <= j < |cands| ==> counted[j].cand == cands[j]
    requires KeysOf(best, EmailOf) == KeysOf(counted, EmailOf)
    requires |r| == |best| && forall i :: 0 <= i < |r| ==> UserKey(r[i]) == EmailOf(best[i])
    ensures forall e :: e in KeysOf(r, UserKey) <==> exists j :: 0 <= j < |cands| && cands[j].email == e
  {
    forall e | e in KeysOf(r, UserKey)
      ensures exists j :: 0 <= j < |cands| && cands[j].email == e
    {
      var i :| 0 <= i < |r| && UserKey(r[i]) == e;
      assert e in KeysOf(best, EmailOf);
      var j :| 0 <= j < |counted| && EmailOf(counted[j]) == e;
      assert cands[j].email == e;
    }
    forall e | exists j :: 0 <= j < |cands| && cands[j].email == e
      ensures e in KeysOf(r, UserKey)
    {
      var j :| 0 <= j < |cands| && cands[j].email == e;
      assert EmailOf(counted[j]) == e;
      assert e in KeysOf(best, EmailOf);
      var i :| 0 <= i < |best| && EmailOf(best[i]) == e;
      assert UserKey(r[i]) == e;
    }
  }

  lemma ChosenIsHome(cands: seq<Candidate>, att: seq<Regional<SrcAttendance>>, counted: seq<Counted>,
                     best: seq<Counted>, r: seq<UserIn>, i: nat)
    requires counted == WithCounts(cands, att)
    requires forall x :: x in best ==> x in counted
    requires forall i, j :: 0 <= i < |best| && 0 <= j < |counted| && EmailOf(counted[j]) == EmailOf(best[i])
               ==> CountOf(counted[j]) <= CountOf(best[i])
    requires |r| == |best| && forall i :: 0 <= i < |r| ==> r[i] == ToUserRow(best[i])
    requires i < |r|
    ensures exists j :: 0 <= j < |cands| && IsHome(cands, att, j, r[i])
  {
    assert best[i] in counted;
    var j :| 0 <= j < |counted| && counted[j] == best[i];
    forall k | 0 <= k < |cands| && cands[k].email == cands[j].email
      ensures AttendanceCount(att, cands[k].slackUserId) <= AttendanceCount(att, cands[j].slackUserId)
    {
      assert EmailOf(counted[k]) == EmailOf(best[i]);
    }
    assert IsHome(cands, att, j, r[i]);
  }

  /** The merge of the aliases with `combined_users` on email, `fillna(0)` for an email the
      table lacks. */
  function UserIdOf(t: Table<string, UserIn>, email: string): (id: nat)
    ensures Valid(t) ==> (id >= 1 <==> email in t.rows)
  {
    if email in t.rows then t.rows[email].id else 0
  }

  /** One alias row per candidate, linked to the user of its email; the same `fillna(0)` gives a
      nameless alias the name "0". */
  function AssignUserIds(cands: seq<Candidate>, t: Table<string, UserIn>): (r: seq<AliasIn>)
    ensures |r| == |cands|
    ensures forall i :: 0 <= i < |r| ==>
      && AliasKeyOf(r[i]) == AliasKey(cands[i].slackUserId, cands[i].regionId)
      && r[i].email == cands[i].email && r[i].userName == FilledName(cands[i].userName)
  {
    seq(|cands|, i requires 0 <= i < |cands| =>
      AliasIn(cands[i].slackUserId, FilledName(cands[i].userName), cands[i].email, cands[i].regionId,
              UserIdOf(t, cands[i].email)))
  }

  /** Every alias row carries the positive id of the stored user of its own email. */
  predicate Resolved(batch: seq<AliasIn>, usersT: Table<string, UserIn>) {
    forall j :: 0 <= j < |batch| ==>
      batch[j].userId >= 1 && batch[j].email in usersT.rows && usersT.rows[batch[j].email].id == batch[j].userId
  }

  /** Once the chosen users are upserted into a valid table, every alias gets the real id of
      its email's user. */
  lemma AliasIdsResolve(cands: seq<Candidate>, att: seq<Regional<SrcAttendance>>, t: Table<string, UserIn>)
    requires Valid(t)
    ensures var t' := UpsertUsers(t, ChooseUsers(cands, att));
      Resolved(AssignUserIds(cands, t'), t')
  {
    var chosen := ChooseUsers(cands, att);
    var t' := UpsertUsers(t, chosen);
    var r := AssignUserIds(cands, t');
    assert Valid(t');
    assert t'.rows.Keys == t.rows.Keys + KeysOf(chosen, UserKey);
    ChooseUsersEmails(cands, att);
    forall i | 0 <= i < |r|
      ensures r[i].userId >= 1 && r[i].email in t'.rows && t'.rows[r[i].email].id == r[i].userId
    {
      assert cands[i].email in KeysOf(chosen, UserKey);
      assert r[i].userId == UserIdOf(t', cands[i].email);
    }
  }

  /** Two aliases get the same user id exactly when they share an email. */
  lemma AliasIdsIdentifyPeople(cands: seq<Candidate>, att: seq<Regional<SrcAttendance>>, t: Table<string, UserIn>)
    requires Valid(t)
    ensures var r := AssignUserIds(cands, UpsertUsers(t, ChooseUsers(cands, att)));
      forall i, j :: 0 <= i < |r| && 0 <= j < |r| ==> (r[i].userId == r[j].userId <==> cands[i].email == cands[j].email)
  {
    AliasIdsResolve(cands, att, t);
  }

  /** The whole users step: choose, upsert users, assign ids, upsert aliases. */
  function BuildIdentities(users: seq<Regional<SrcUser>>, att: seq<Regional<SrcAttendance>>,
                           usersT: Table<string, UserIn>, aliasT: Table<AliasKey, AliasIn>)
    : (r: (Table<string, UserIn>, Table<AliasKey, AliasIn>))
    ensures Valid(usersT) ==> Valid(r.0)
    ensures Valid(aliasT) ==> Valid(r.1)
  {
    var cands := NormalizeUsers(users);
    var usersT' := UpsertUsers(usersT, ChooseUsers(cands, att));
    (usersT', UpsertAliases(aliasT, AssignUserIds(cands, usersT')))
  }

  /** Every alias row written for a pulled user points at the stored user of its own email,
      whose id is never 0: the `user_id` foreign key of `combined_users_dup` is never left
      dangling. */
  lemma AliasesPointAtUsers(users: seq<Regional<SrcUser>>, att: seq<Regional<SrcAttendance>>,
                            usersT: Table<string, UserIn>, aliasT: Table<AliasKey, AliasIn>, i: nat)
    requires Valid(usersT)
    requires i < |users| && users[i].row.email.Some?
    ensures var r := BuildIdentities(users, att, usersT, aliasT);
      var k := AliasKey(users[i].row.slackUserId, users[i].regionId);
      && k in r.1.rows
      && r.1.rows[k].val.userId >= 1
      && r.1.rows[k].val.email in r.0.rows
      && r.0.rows[r.1.rows[k].val.email].id == r.1.rows[k].val.userId
  {
    var cands := NormalizeUsers(users);
    var usersT' := UpsertUsers(usersT, ChooseUsers(cands, att));
    var batch := AssignUserIds(cands, usersT');
    var ci := PulledUserIsCandidate(users, i);
    var k := AliasKey(users[i].row.slackUserId, users[i].regionId);
    assert AliasKeyOf(batch[ci]) == k;
    assert k in KeysOf(batch, AliasKeyOf);
    var aliasT' := UpsertAliases(aliasT, batch);
    assert BuildIdentities(users, att, usersT, aliasT) == (usersT', aliasT');
    assert k in aliasT'.rows;
    AliasIdsResolve(cands, att, usersT);
    AliasBatchResolves(aliasT, batch, usersT', k);
  }

  /** If every row of an alias batch carries the positive id of its email's user, so does the
      stored alias of every key the batch touches. */
  lemma AliasBatchResolves(aliasT: Table<AliasKey, AliasIn>, batch: seq<AliasIn>, usersT: Table<string, UserIn>,
                           k: AliasKey)
    requires k in KeysOf(batch, AliasKeyOf)
    requires Resolved(batch, usersT)
    ensures var v := UpsertAliases(aliasT, batch).rows[k].val;
      v.userId >= 1 && v.email in usersT.rows && usersT.rows[v.email].id == v.userId
  {
    AliasUpsertOverwrites();
    UpsertBatchValue(aliasT, batch, AliasKeyOf, AliasInsert, AliasUpdate, k);
    var last := LastWith(batch, AliasKeyOf, k);
    var li :| 0 <= li < |batch| && batch[li] == last;
  }

  /** A pulled user with an email survives normalisation under the same Slack id and region. */
  lemma PulledUserIsCandidate(users: seq<Regional<SrcUser>>, i: nat) returns (ci: nat)
    requires i < |users| && users[i].row.email.Some?
    ensures ci < |NormalizeUsers(users)|
    ensures NormalizeUsers(users)[ci].slackUserId == users[i].row.slackUserId
    ensures NormalizeUsers(users)[ci].regionId == users[i].regionId
  {
    var cands := NormalizeUsers(users);
    var c := Candidate(users[i].row.slackUserId, users[i].row.userName, Lower(users[i].row.email.value), users[i].regionId);
    assert NormalizedFrom(c, users[i]);
    assert c in cands;
    ci :| 0 <= ci < |cands| && cands[ci] == c;
  }
}
