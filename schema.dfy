/**
  The four tables of the ledger store (templates, sessions, session_players,
  scores), their rows as values, and the pure meaning of the SQL statements the
  store runs against them: the round-name column codec, the lookups by id, the
  per-session filters, the date query with its inner join, and the
  INSERT ... ON CONFLICT DO UPDATE upsert on the scores key.
  A table is a sequence in insertion (rowid) order; a SELECT without ORDER BY
  is taken to return rows in that order.
*/
module Schema {
  import opened Wrappers
  import RoundNames

  /** Row identities. The store draws them from a counter where the source calls `uuidv4()`. */
  type Id = nat

  datatype WinCondition = HighestScore | LowestScore
  datatype RoundStructure = Fixed | Dynamic

  /** A `templates` row as stored: `roundNamesText` is the JSON text column (None is SQL NULL). */
  datatype TemplateRow = TemplateRow(
    id: Id, name: string, minPlayers: int, maxPlayers: int,
    winCondition: WinCondition, roundStructure: RoundStructure,
    roundNamesText: Option<string>)

  /** A template as the store hands it out, with `default_round_names` decoded. */
  datatype Template = Template(
    id: Id, name: string, minPlayers: int, maxPlayers: int,
    winCondition: WinCondition, roundStructure: RoundStructure,
    roundNames: seq<string>)

  /** A `sessions` row; `played_at` is the `YYYY-MM-DD` text of the day it was created. */
  datatype Session = Session(id: Id, templateId: Id, playedAt: string, isFinished: bool)

  /** A row of the date query: the session's columns plus `template_name`. */
  datatype SessionListing = SessionListing(session: Session, templateName: string)

  /** A `session_players` row: one seat. */
  datatype SessionPlayer = SessionPlayer(id: Id, sessionId: Id, name: string, seatIndex: int)

  /** The primary key of `scores`. */
  datatype ScoreKey = ScoreKey(sessionId: Id, roundIndex: int, playerId: Id)

  /** A `scores` row. */
  datatype ScoreEntry = ScoreEntry(sessionId: Id, roundIndex: int, playerId: Id, value: int) {
    function Key(): ScoreKey {
      ScoreKey(sessionId, roundIndex, playerId)
    }
  }

  /** What the details query hands back: the session, its template if one has its id, its seats and its scores. */
  datatype SessionDetails = SessionDetails(
    session: Session, template: Option<Template>,
    players: seq<SessionPlayer>, scores: seq<ScoreEntry>)

  // ------------------------------------------------------------ templates

  /** The row `createTemplate` inserts: the round names are written with `JSON.stringify`. */
  function EncodeRow(t: Template): TemplateRow {
    TemplateRow(t.id, t.name, t.minPlayers, t.maxPlayers, t.winCondition, t.roundStructure,
                Some(RoundNames.EncodeRoundNames(t.roundNames)))
  }

  /** A row as `getTemplates` reads it: `JSON.parse(text || '[]')`; None where the parse would throw. */
  function DecodeRow(row: TemplateRow): (r: Option<Template>)
    ensures r.Some? ==>
      && r.value.id == row.id && r.value.name == row.name
      && r.value.minPlayers == row.minPlayers && r.value.maxPlayers == row.maxPlayers
      && r.value.winCondition == row.winCondition && r.value.roundStructure == row.roundStructure
    ensures row.roundNamesText == None || row.roundNamesText == Some("") ==> r.Some? && r.value.roundNames == []
  {
    match RoundNames.DecodeStored(row.roundNamesText)
    case None => None
    case Some(names) =>
      Some(Template(row.id, row.name, row.minPlayers, row.maxPlayers, row.winCondition, row.roundStructure, names))
  }

  /**
    A row as the details query reads it: `JSON.parse(text)` with no fallback;
    None where the parse would throw or would not give a list.
  */
  function DecodeRowStrict(row: TemplateRow): (r: Option<Template>)
    ensures r.Some? ==>
      && r.value.id == row.id && r.value.name == row.name
      && r.value.minPlayers == row.minPlayers && r.value.maxPlayers == row.maxPlayers
      && r.value.winCondition == row.winCondition && r.value.roundStructure == row.roundStructure
    ensures row.roundNamesText == None || row.roundNamesText == Some("") ==> r.None?
  {
    if row.roundNamesText.None? then None
    else
      match RoundNames.DecodeRoundNames(row.roundNamesText.value)
      case None => None
      case Some(names) =>
        Some(Template(row.id, row.name, row.minPlayers, row.maxPlayers, row.winCondition, row.roundStructure, names))
  }

  /** Both readers give back exactly the template that was written. */
  lemma DecodeEncodedRow(t: Template)
    ensures DecodeRow(EncodeRow(t)) == Some(t)
    ensures DecodeRowStrict(EncodeRow(t)) == Some(t)
  {
    RoundNames.RoundTrip(t.roundNames);
    RoundNames.StoredRoundTrip(t.roundNames);
  }

  /** Where the strict reader succeeds, the reader with the fallback agrees with it. */
  lemma DecodersAgree(row: TemplateRow)
    requires DecodeRowStrict(row).Some?
    ensures DecodeRow(row) == DecodeRowStrict(row)
  {
    assert RoundNames.DecodeRoundNames("") == None by {
      assert RoundNames.SkipWhiteSpace("") == "";
    }
  }

  /**
    The last row whose id is `id` (the query's callback overwrites its variable
    on every row, so the last one wins).
  */
  function FindTemplateRow(templates: seq<TemplateRow>, id: Id): (r: Option<TemplateRow>)
    ensures r.Some? ==> r.value in templates && r.value.id == id
    ensures r.None? ==> forall i :: 0 <= i < |templates| ==> templates[i].id != id
  {
    if |templates| == 0 then None
    else if templates[|templates| - 1].id == id then Some(templates[|templates| - 1])
    else FindTemplateRow(templates[..|templates| - 1], id)
  }

  // ------------------------------------------------------------ sessions

  /** The last session row whose id is `id`. */
  function FindSession(sessions: seq<Session>, id: Id): (r: Option<Session>)
    ensures r.Some? ==> r.value in sessions && r.value.id == id
    ensures r.None? ==> forall i :: 0 <= i < |sessions| ==> sessions[i].id != id
  {
    if |sessions| == 0 then None
    else if sessions[|sessions| - 1].id == id then Some(sessions[|sessions| - 1])
    else FindSession(sessions[..|sessions| - 1], id)
  }

  /** The listing of one session for the date query: none when the join finds no template. */
  function ListingOf(s: Session, templates: seq<TemplateRow>): Option<SessionListing> {
    match FindTemplateRow(templates, s.templateId)
    case None => None
    case Some(t) => Some(SessionListing(s, t.name))
  }

  /**
    `SELECT s.*, t.name FROM sessions s JOIN templates t ON s.template_id = t.id
    WHERE s.played_at = d`, in session order (template ids are unique, so the
    join meets at most one template per session).
  */
  function SessionsOnDate(sessions: seq<Session>, templates: seq<TemplateRow>, d: string): seq<SessionListing> {
    if |sessions| == 0 then []
    else
      var s := sessions[|sessions| - 1];
      var earlier := SessionsOnDate(sessions[..|sessions| - 1], templates, d);
      if s.playedAt == d && ListingOf(s, templates).Some? then earlier + [ListingOf(s, templates).value]
      else earlier
  }

  /**
    A listing is in the date query's answer exactly when its session is stored,
    was played on that date, and has a template, whose name it carries.
  */
  lemma {:induction false} SessionsOnDateMembers(sessions: seq<Session>, templates: seq<TemplateRow>, d: string, l: SessionListing)
    ensures l in SessionsOnDate(sessions, templates, d) <==>
      l.session in sessions && l.session.playedAt == d
      && FindTemplateRow(templates, l.session.templateId).Some?
      && l.templateName == FindTemplateRow(templates, l.session.templateId).value.name
  {
    if |sessions| > 0 {
      var prefix := sessions[..|sessions| - 1];
      SessionsOnDateMembers(prefix, templates, d, l);
      assert sessions == prefix + [sessions[|sessions| - 1]];
    }
  }

  /**
    Every listing of the date query carries a stored session of that date that
    joins a template row, and that template's name.
  */
  lemma {:induction false} SessionsOnDateSound(sessions: seq<Session>, templates: seq<TemplateRow>, d: string)
    ensures forall i :: 0 <= i < |SessionsOnDate(sessions, templates, d)| ==>
      && SessionsOnDate(sessions, templates, d)[i].session in sessions
      && SessionsOnDate(sessions, templates, d)[i].session.playedAt == d
      && FindTemplateRow(templates, SessionsOnDate(sessions, templates, d)[i].session.templateId).Some?
      && SessionsOnDate(sessions, templates, d)[i].templateName
         == FindTemplateRow(templates, SessionsOnDate(sessions, templates, d)[i].session.templateId).value.name
    ensures |SessionsOnDate(sessions, templates, d)| <= |sessions|
  {
    if |sessions| > 0 {
      var prefix := sessions[..|sessions| - 1];
      SessionsOnDateSound(prefix, templates, d);
      assert forall s :: s in prefix ==> s in sessions;
    }
  }

  /** With unique session ids, no session is listed twice. */
  lemma {:induction false} SessionsOnDateUnique(sessions: seq<Session>, templates: seq<TemplateRow>, d: string)
    requires forall i, j :: 0 <= i < j < |sessions| ==> sessions[i].id != sessions[j].id
    ensures forall i, j :: 0 <= i < j < |SessionsOnDate(sessions, templates, d)| ==>
      SessionsOnDate(sessions, templates, d)[i].session.id != SessionsOnDate(sessions, templates, d)[j].session.id
  {
    if |sessions| > 0 {
      var prefix := sessions[..|sessions| - 1];
      var last := sessions[|sessions| - 1];
      SessionsOnDateUnique(prefix, templates, d);
      SessionsOnDateSound(prefix, templates, d);
      var earlier := SessionsOnDate(prefix, templates, d);
      forall i | 0 <= i < |earlier| ensures earlier[i].session.id != last.id {
        var k :| 0 <= k < |prefix| && prefix[k] == earlier[i].session;
        assert sessions[k] == prefix[k];
      }
    }
  }

  // ------------------------------------------------------------ seats

  /** `SELECT * FROM session_players WHERE session_id = sid`, in insertion order. */
  function PlayersOf(players: seq<SessionPlayer>, sid: Id): (r: seq<SessionPlayer>)
    ensures |r| <= |players|
    ensures forall p :: p in r <==> p in players && p.sessionId == sid
  {
    if |players| == 0 then []
    else
      var earlier := PlayersOf(players[..|players| - 1], sid);
      var p := players[|players| - 1];
      assert players == players[..|players| - 1] + [p];
      if p.sessionId == sid then earlier + [p] else earlier
  }

  lemma {:induction false} PlayersOfConcat(a: seq<SessionPlayer>, b: seq<SessionPlayer>, sid: Id)
    ensures PlayersOf(a + b, sid) == PlayersOf(a, sid) + PlayersOf(b, sid)
  {
    if |b| > 0 {
      var b' := b[..|b| - 1];
      assert (a + b)[..|a + b| - 1] == a + b';
      PlayersOfConcat(a, b', sid);
    } else {
      assert a + b == a;
    }
  }

  lemma {:induction false} PlayersOfNone(ps: seq<SessionPlayer>, sid: Id)
    requires forall k :: 0 <= k < |ps| ==> ps[k].sessionId != sid
    ensures PlayersOf(ps, sid) == []
  {
    if |ps| > 0 {
      PlayersOfNone(ps[..|ps| - 1], sid);
    }
  }

  lemma {:induction false} PlayersOfAll(ps: seq<SessionPlayer>, sid: Id)
    requires forall k :: 0 <= k < |ps| ==> ps[k].sessionId == sid
    ensures PlayersOf(ps, sid) == ps
  {
    if |ps| > 0 {
      PlayersOfAll(ps[..|ps| - 1], sid);
      assert ps == ps[..|ps| - 1] + [ps[|ps| - 1]];
    }
  }

  /** Seats of one session appear in the table in strictly increasing seat order. */
  ghost predicate SeatsOrdered(players: seq<SessionPlayer>) {
    forall i, j :: 0 <= i < j < |players| && players[i].sessionId == players[j].sessionId ==>
      players[i].seatIndex < players[j].seatIndex
  }

  ghost predicate SortedBySeat(ps: seq<SessionPlayer>) {
    forall i, j :: 0 <= i < j < |ps| ==> ps[i].seatIndex < ps[j].seatIndex
  }

  /**
    Where the table keeps each session's seats in seat order, the filtered rows
    are already sorted by `seat_index`: they are what `ORDER BY seat_index` returns.
  */
  lemma {:induction false} PlayersOfSorted(players: seq<SessionPlayer>, sid: Id)
    requires SeatsOrdered(players)
    ensures SortedBySeat(PlayersOf(players, sid))
  {
    if |players| > 0 {
      var prefix := players[..|players| - 1];
      var p := players[|players| - 1];
      assert SeatsOrdered(prefix);
      PlayersOfSorted(prefix, sid);
      if p.sessionId == sid {
        var earlier := PlayersOf(prefix, sid);
        forall i | 0 <= i < |earlier| ensures earlier[i].seatIndex < p.seatIndex {
          assert earlier[i] in prefix;
          var k :| 0 <= k < |prefix| && prefix[k] == earlier[i];
          assert players[k] == earlier[i];
        }
      }
    }
  }

  // ------------------------------------------------------------ scores

  /** SQLite's primary key on `scores`: no two rows share a key. */
  ghost predicate UniqueKeys(scores: seq<ScoreEntry>) {
    forall i, j :: 0 <= i < j < |scores| ==> scores[i].Key() != scores[j].Key()
  }

  /** `SELECT * FROM scores WHERE session_id = sid`, in insertion order. */
  function ScoresOf(scores: seq<ScoreEntry>, sid: Id): (r: seq<ScoreEntry>)
    ensures |r| <= |scores|
    ensures forall e :: e in r <==> e in scores && e.sessionId == sid
  {
    if |scores| == 0 then []
    else
      var earlier := ScoresOf(scores[..|scores| - 1], sid);
      var e := scores[|scores| - 1];
      assert scores == scores[..|scores| - 1] + [e];
      if e.sessionId == sid then earlier + [e] else earlier
  }

  /** The position of the row with key `k`, if there is one (the first, which is the only one under the key). */
  function IndexOfKey(scores: seq<ScoreEntry>, k: ScoreKey): (r: Option<nat>)
    ensures r.Some? ==> r.value < |scores| && scores[r.value].Key() == k
    ensures r.Some? ==> forall j :: 0 <= j < r.value ==> scores[j].Key() != k
    ensures r.None? ==> forall j :: 0 <= j < |scores| ==> scores[j].Key() != k
  {
    if |scores| == 0 then None
    else if scores[0].Key() == k then Some(0)
    else match IndexOfKey(scores[1..], k)
      case None => None
      case Some(i) => Some(i + 1)
  }

  /**
    `INSERT INTO scores VALUES (e) ON CONFLICT(session_id, round_index, player_id)
    DO UPDATE SET value = excluded.value`: the row with e's key gets e's value in
    place, or e is appended when no row has that key.
  */
  function Upsert(scores: seq<ScoreEntry>, e: ScoreEntry): (r: seq<ScoreEntry>)
    ensures e in r
    ensures |scores| <= |r| <= |scores| + 1
  {
    match IndexOfKey(scores, e.Key())
    case Some(i) => assert scores[i := e][i] == e; scores[i := e]
    case None => assert (scores + [e])[|scores|] == e; scores + [e]
  }

  /** The first row with key `k` is the one `IndexOfKey` finds. */
  lemma {:induction false} IndexOfKeyAt(scores: seq<ScoreEntry>, k: ScoreKey, i: nat)
    requires i < |scores| && scores[i].Key() == k
    requires forall j :: 0 <= j < i ==> scores[j].Key() != k
    ensures IndexOfKey(scores, k) == Some(i)
  {
    if i > 0 {
      IndexOfKeyAt(scores[1..], k, i - 1);
    }
  }

  /**
    After the upsert the keys are still unique, the new row is present, and it
    is the only row with its key (so it holds the new value).
  */
  lemma UpsertWrites(scores: seq<ScoreEntry>, e: ScoreEntry)
    requires UniqueKeys(scores)
    ensures UniqueKeys(Upsert(scores, e))
    ensures e in Upsert(scores, e)
    ensures forall j :: 0 <= j < |Upsert(scores, e)| && Upsert(scores, e)[j].Key() == e.Key() ==>
      Upsert(scores, e)[j] == e
  {
    match IndexOfKey(scores, e.Key())
    case Some(i) =>
      assert Upsert(scores, e)[i] == e;
    case None =>
      assert Upsert(scores, e)[|scores|] == e;
  }

  /**
    The upsert changes no row with another key: rows keep their positions, the
    table grows by one row exactly when no row had the key, and that row is last.
  */
  lemma UpsertKeepsOthers(scores: seq<ScoreEntry>, e: ScoreEntry)
    ensures var r := Upsert(scores, e);
      && |r| == (if IndexOfKey(scores, e.Key()).Some? then |scores| else |scores| + 1)
      && (forall j :: 0 <= j < |scores| && scores[j].Key() != e.Key() ==> r[j] == scores[j])
      && (IndexOfKey(scores, e.Key()).None? ==> r[|scores|] == e)
  {
  }

  /** Saving the same score twice leaves the table as saving it once. */
  lemma UpsertIdempotent(scores: seq<ScoreEntry>, e: ScoreEntry)
    ensures Upsert(Upsert(scores, e), e) == Upsert(scores, e)
  {
    var once := Upsert(scores, e);
    match IndexOfKey(scores, e.Key())
    case Some(i) =>
      IndexOfKeyAt(once, e.Key(), i);
    case None =>
      IndexOfKeyAt(once, e.Key(), |scores|);
  }

  lemma {:induction false} ScoresOfConcat(a: seq<ScoreEntry>, b: seq<ScoreEntry>, sid: Id)
    ensures ScoresOf(a + b, sid) == ScoresOf(a, sid) + ScoresOf(b, sid)
  {
    if |b| > 0 {
      var b' := b[..|b| - 1];
      assert (a + b)[..|a + b| - 1] == a + b';
      ScoresOfConcat(a, b', sid);
    } else {
      assert a + b == a;
    }
  }

  lemma ScoresOfSingle(e: ScoreEntry, sid: Id)
    ensures ScoresOf([e], sid) == if e.sessionId == sid then [e] else []
  {
    assert [e][..0] == [];
  }

  /** The upsert that replaces row `i`, seen through the session filter. */
  lemma ScoresOfReplace(scores: seq<ScoreEntry>, e: ScoreEntry, i: nat)
    requires IndexOfKey(scores, e.Key()) == Some(i)
    ensures ScoresOf(Upsert(scores, e), e.sessionId) == Upsert(ScoresOf(scores, e.sessionId), e)
  {
    var sid, k := e.sessionId, e.Key();
    var before, x, after := scores[..i], scores[i], scores[i + 1..];
    var pre, post := ScoresOf(before, sid), ScoresOf(after, sid);
    UpsertAt(scores, e, i);
    ScoresOfAround(before, e, after, sid);
    SplitAt(scores, i);
    ScoresOfAround(before, x, after, sid);
    NoKeyInScoresOf(before, k, sid);
    UpsertMiddle(pre, x, post, e);
  }

  /** Upserting a row whose key first occurs right after `pre` replaces that row. */
  lemma UpsertMiddle(pre: seq<ScoreEntry>, x: ScoreEntry, post: seq<ScoreEntry>, e: ScoreEntry)
    requires x.Key() == e.Key()
    requires forall j :: 0 <= j < |pre| ==> pre[j].Key() != e.Key()
    ensures Upsert(pre + [x] + post, e) == pre + [e] + post
  {
    IndexOfKeyAt(pre + [x] + post, e.Key(), |pre|);
    ReplaceMiddle(pre, x, e, post);
  }

  /** Overwriting the row at position i is rebuilding the table around it. */
  lemma UpsertAt(scores: seq<ScoreEntry>, e: ScoreEntry, i: nat)
    requires IndexOfKey(scores, e.Key()) == Some(i)
    ensures Upsert(scores, e) == scores[..i] + [e] + scores[i + 1..]
  {
  }

  /** A key absent from a table is absent from every session's part of it. */
  lemma NoKeyInScoresOf(scores: seq<ScoreEntry>, k: ScoreKey, sid: Id)
    requires forall j :: 0 <= j < |scores| ==> scores[j].Key() != k
    ensures forall j :: 0 <= j < |ScoresOf(scores, sid)| ==> ScoresOf(scores, sid)[j].Key() != k
  {
    var mine := ScoresOf(scores, sid);
    forall j | 0 <= j < |mine| ensures mine[j].Key() != k {
      assert mine[j] in scores;
    }
  }

  /** A row of the session, seen through the filter between the rows before and after it. */
  lemma ScoresOfAround(before: seq<ScoreEntry>, x: ScoreEntry, after: seq<ScoreEntry>, sid: Id)
    requires x.sessionId == sid
    ensures ScoresOf(before + [x] + after, sid) == ScoresOf(before, sid) + [x] + ScoresOf(after, sid)
  {
    ScoresOfSingle(x, sid);
    ScoresOfConcat(before + [x], after, sid);
    ScoresOfConcat(before, [x], sid);
  }

  lemma SplitAt<T>(s: seq<T>, i: nat)
    requires i < |s|
    ensures s == s[..i] + [s[i]] + s[i + 1..]
  {
  }

  lemma ReplaceMiddle<T>(a: seq<T>, x: T, y: T, b: seq<T>)
    ensures (a + [x] + b)[|a| := y] == a + [y] + b
  {
  }

  /** Filtering the upserted table by the row's session is upserting the filtered table. */
  lemma ScoresOfUpsert(scores: seq<ScoreEntry>, e: ScoreEntry)
    ensures ScoresOf(Upsert(scores, e), e.sessionId) == Upsert(ScoresOf(scores, e.sessionId), e)
  {
    var sid, k := e.sessionId, e.Key();
    match IndexOfKey(scores, k)
    case None =>
      var mine := ScoresOf(scores, sid);
      ScoresOfSingle(e, sid);
      ScoresOfConcat(scores, [e], sid);
      assert IndexOfKey(mine, k).None? by {
        forall j | 0 <= j < |mine| ensures mine[j].Key() != k {
          assert mine[j] in scores;
        }
      }
    case Some(i) =>
      ScoresOfReplace(scores, e, i);
  }

  /** The upsert leaves every other session's scores as they were. */
  lemma ScoresOfUpsertOther(scores: seq<ScoreEntry>, e: ScoreEntry, sid: Id)
    requires sid != e.sessionId
    ensures ScoresOf(Upsert(scores, e), sid) == ScoresOf(scores, sid)
  {
    ScoresOfSingle(e, sid);
    match IndexOfKey(scores, e.Key())
    case None =>
      ScoresOfConcat(scores, [e], sid);
    case Some(i) =>
      var before, after := scores[..i], scores[i + 1..];
      SplitAt(scores, i);
      assert Upsert(scores, e) == before + [e] + after;
      ScoresOfSingle(scores[i], sid);
      ScoresOfConcat(before + [e], after, sid);
      ScoresOfConcat(before, [e], sid);
      ScoresOfConcat(before + [scores[i]], after, sid);
      ScoresOfConcat(before, [scores[i]], sid);
  }

  // ------------------------------------------------------------ details

  /**
    `getSessionDetails(sid)`: None when no session has that id; otherwise the
    session, its template (None when none has its id), its seats in seat order
    and its score rows. A template row whose round names the strict reader
    refuses also gives None here, where `JSON.parse` would throw out of
    `getSessionDetails`; `LedgerDatabase.Valid` rules such rows out.
  */
  function Details(templates: seq<TemplateRow>, sessions: seq<Session>, players: seq<SessionPlayer>,
                   scores: seq<ScoreEntry>, sid: Id): (r: Option<SessionDetails>)
    ensures r.None? <==> forall i :: 0 <= i < |sessions| ==> sessions[i].id != sid
    ensures r.Some? ==>
      && r.value.session in sessions && r.value.session.id == sid
      && (r.value.template.Some? ==> r.value.template.value.id == r.value.session.templateId)
      && (FindTemplateRow(templates, r.value.session.templateId).None? ==> r.value.template.None?)
      && (FindTemplateRow(templates, r.value.session.templateId).Some? ==>
            r.value.template == DecodeRowStrict(FindTemplateRow(templates, r.value.session.templateId).value))
      && (forall p :: p in r.value.players <==> p in players && p.sessionId == sid)
      && (forall e :: e in r.value.scores <==> e in scores && e.sessionId == sid)
  {
    match FindSession(sessions, sid)
    case None => None
    case Some(s) =>
      var template := match FindTemplateRow(templates, s.templateId)
                      case None => None
                      case Some(row) => DecodeRowStrict(row);
      Some(SessionDetails(s, template, PlayersOf(players, sid), ScoresOf(scores, sid)))
  }
}
