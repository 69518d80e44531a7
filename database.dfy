/**
  The ledger store (`LedgerDatabase` in src/services/database.ts) as a class
  whose four tables are fields, changed in place by its commands. The store is
  taken as already open: the SQLite module, the storage choice and the
  migrations are outside this model, so a new store holds four empty tables.
  `nextId` stands where the source calls `uuidv4()`: every call draws a number
  no row has used.
*/
module Database {
  import opened Wrappers
  import opened Schema
  import RoundNames

  /** The twelve round labels of the seeded Lórum template. */
  const LorumRounds: seq<string> := [
    "Piros", "Fels\U{0151}", "Als\U{00F3}", "H\U{00E1}tul", "Mente", "L\U{00F3}rum",
    "Piros", "Fels\U{0151}", "Als\U{00F3}", "H\U{00E1}tul", "Mente", "L\U{00F3}rum"]

  /** The first seeded template: open-ended rounds, two to eight players, highest total wins. */
  function GenericTemplate(id: Id): Template {
    Template(id, "Scrabble / Generic", 2, 8, HighestScore, Dynamic, [])
  }

  /** The second seeded template: twelve named rounds, exactly four players, lowest total wins. */
  function LorumTemplate(id: Id): Template {
    Template(id, "L\U{00F3}rum", 4, 4, LowestScore, Fixed, LorumRounds)
  }

  /**
    Reading back the seeded rows yields the two built-in templates; the Lórum
    row keeps its twelve round labels and its four-seat table.
  */
  lemma SeededRowsDecode(id: Id)
    ensures DecodeRow(EncodeRow(GenericTemplate(id))) == Some(GenericTemplate(id))
    ensures DecodeRow(EncodeRow(LorumTemplate(id))) == Some(LorumTemplate(id))
    ensures |DecodeRow(EncodeRow(LorumTemplate(id))).value.roundNames| == 12
    ensures GenericTemplate(id).minPlayers <= GenericTemplate(id).maxPlayers
    ensures LorumTemplate(id).minPlayers == LorumTemplate(id).maxPlayers == 4
    ensures LorumTemplate(id).roundStructure == Fixed && GenericTemplate(id).roundStructure == Dynamic
  {
    DecodeEncodedRow(GenericTemplate(id));
    DecodeEncodedRow(LorumTemplate(id));
  }

  class LedgerDatabase {
    var templates: seq<TemplateRow>
    var sessions: seq<Session>
    var players: seq<SessionPlayer>
    var scores: seq<ScoreEntry>
    var nextId: nat

    /**
      The store's invariant: primary keys are unique and below the id counter,
      every template's round-name column parses, each session's seats are in
      seat order, and no two score rows share a key.
    */
    ghost predicate Valid()
      reads this
    {
      && (forall i :: 0 <= i < |templates| ==> templates[i].id < nextId && DecodeRowStrict(templates[i]).Some?)
      && (forall i, j :: 0 <= i < j < |templates| ==> templates[i].id != templates[j].id)
      && (forall i :: 0 <= i < |sessions| ==> sessions[i].id < nextId)
      && (forall i, j :: 0 <= i < j < |sessions| ==> sessions[i].id != sessions[j].id)
      && (forall i :: 0 <= i < |players| ==> players[i].id < nextId && players[i].sessionId < nextId)
      && (forall i, j :: 0 <= i < j < |players| ==> players[i].id != players[j].id)
      && SeatsOrdered(players)
      && UniqueKeys(scores)
    }

    /** An opened store after the migrations: four empty tables. */
    constructor ()
      ensures Valid()
      ensures templates == [] && sessions == [] && players == [] && scores == []
    {
      templates, sessions, players, scores := [], [], [], [];
      nextId := 0;
    }

    /** A fresh identity, in place of `uuidv4()`. */
    method NewId() returns (id: Id)
      requires Valid()
      modifies this`nextId
      ensures Valid()
      ensures id == old(nextId) && nextId == old(nextId) + 1
      ensures templates == old(templates) && sessions == old(sessions)
      ensures players == old(players) && scores == old(scores)
    {
      id := nextId;
      nextId := nextId + 1;
    }

    /** `createTemplate`: inserts one row, the round names written as JSON text. */
    method CreateTemplate(t: Template)
      requires Valid()
      requires t.id < nextId && forall i :: 0 <= i < |templates| ==> templates[i].id != t.id
      modifies this`templates
      ensures Valid()
      ensures templates == old(templates) + [EncodeRow(t)]
      ensures sessions == old(sessions) && players == old(players)
      ensures scores == old(scores) && nextId == old(nextId)
    {
      DecodeEncodedRow(t);
      templates := templates + [EncodeRow(t)];
    }

    /**
      `seedTemplates`: when the templates table is empty, inserts the two
      built-in templates; otherwise does nothing.
    */
    method SeedTemplates()
      requires Valid()
      modifies this
      ensures Valid()
      ensures sessions == old(sessions) && players == old(players) && scores == old(scores)
      ensures |old(templates)| > 0 ==> templates == old(templates) && nextId == old(nextId)
      ensures |old(templates)| == 0 ==>
        templates == [EncodeRow(GenericTemplate(old(nextId))), EncodeRow(LorumTemplate(old(nextId) + 1))]
    {
      if |templates| > 0 {
        return;
      }
      var genericId := NewId();
      CreateTemplate(GenericTemplate(genericId));
      var lorumId := NewId();
      CreateTemplate(LorumTemplate(lorumId));
    }

    /** `getTemplates`: every row, in table order, with its round names decoded. */
    method GetTemplates() returns (res: seq<Template>)
      requires Valid()
      ensures |res| == |templates|
      ensures forall i :: 0 <= i < |res| ==> DecodeRow(templates[i]) == Some(res[i])
    {
      res := [];
      var i := 0;
      while i < |templates|
        invariant 0 <= i <= |templates|
        invariant |res| == i
        invariant forall k :: 0 <= k < i ==> DecodeRow(templates[k]) == Some(res[k])
      {
        DecodersAgree(templates[i]);
        res := res + [DecodeRow(templates[i]).value];
        i := i + 1;
      }
    }

    /**
      `getSessionsByDate`: the sessions played on `dateStr` that have a
      template, each with its template's name, in table order.
    */
    method GetSessionsByDate(dateStr: string) returns (res: seq<SessionListing>)
      requires Valid()
      ensures res == SessionsOnDate(sessions, templates, dateStr)
      ensures forall l :: l in res <==>
        l.session in sessions && l.session.playedAt == dateStr
        && FindTemplateRow(templates, l.session.templateId).Some?
        && l.templateName == FindTemplateRow(templates, l.session.templateId).value.name
    {
      res := [];
      var i := 0;
      while i < |sessions|
        invariant 0 <= i <= |sessions|
        invariant res == SessionsOnDate(sessions[..i], templates, dateStr)
      {
        assert sessions[..i + 1][..i] == sessions[..i];
        var s := sessions[i];
        if s.playedAt == dateStr {
          var joined := FindTemplateRow(templates, s.templateId);
          if joined.Some? {
            res := res + [SessionListing(s, joined.value.name)];
          }
        }
        i := i + 1;
      }
      assert sessions[..i] == sessions;
      forall l ensures l in res <==>
        l.session in sessions && l.session.playedAt == dateStr
        && FindTemplateRow(templates, l.session.templateId).Some?
        && l.templateName == FindTemplateRow(templates, l.session.templateId).value.name
      {
        SessionsOnDateMembers(sessions, templates, dateStr, l);
      }
    }

    /**
      `createSession`: in one transaction, inserts a session of `templateId`
      played on `today`, not finished, and one seat per name, in input order and
      numbered from 0. Returns the new session's id. The template id is not
      checked here: callers are assumed to pass the id of a listed template, so
      the declared foreign key is never put to the test.
    */
    method CreateSession(templateId: Id, playerNames: seq<string>, today: string) returns (sessionId: Id)
      requires Valid()
      modifies this
      ensures Valid()
      ensures forall i :: 0 <= i < |old(sessions)| ==> old(sessions)[i].id != sessionId
      ensures sessions == old(sessions) + [Session(sessionId, templateId, today, false)]
      ensures templates == old(templates) && scores == old(scores)
      ensures |old(players)| <= |players|
      ensures var seats := players[|old(players)|..];
        && players == old(players) + seats
        && |seats| == |playerNames|
        && (forall k :: 0 <= k < |seats| ==> seats[k] == SessionPlayer(seats[k].id, sessionId, playerNames[k], k))
        && PlayersOf(players, sessionId) == seats
    {
      sessionId := InsertSession(templateId, today);
      ghost var before := players;
      ghost var added := InsertSeats(sessionId, playerNames);
      SeatsOfNewSession(before, added, sessionId);
      assert players[|before|..] == added;
    }

    /** The `INSERT INTO sessions` row of `createSession`, under a fresh id. */
    method InsertSession(templateId: Id, today: string) returns (sessionId: Id)
      requires Valid()
      modifies this`sessions, this`nextId
      ensures Valid()
      ensures sessionId == old(nextId) && nextId == old(nextId) + 1
      ensures sessions == old(sessions) + [Session(sessionId, templateId, today, false)]
      ensures forall i :: 0 <= i < |sessions| - 1 ==> sessions[i].id != sessionId
      ensures forall k :: 0 <= k < |players| ==> players[k].sessionId < sessionId
    {
      sessionId := NewId();
      sessions := sessions + [Session(sessionId, templateId, today, false)];
    }

    /** The seat loop of `createSession`: one seat per name, in order, numbered from 0. */
    method InsertSeats(sessionId: Id, playerNames: seq<string>) returns (ghost added: seq<SessionPlayer>)
      requires Valid() && sessionId < nextId
      requires forall k :: 0 <= k < |players| ==> players[k].sessionId < sessionId
      modifies this`players, this`nextId
      ensures Valid()
      ensures players == old(players) + added && |added| == |playerNames|
      ensures forall k :: 0 <= k < |added| ==> added[k] == SessionPlayer(added[k].id, sessionId, playerNames[k], k)
    {
      added := [];
      var index := 0;
      while index < |playerNames|
        invariant 0 <= index <= |playerNames|
        invariant Valid() && sessionId < nextId
        invariant players == old(players) + added && |added| == index
        invariant forall k :: 0 <= k < index ==> added[k] == SessionPlayer(added[k].id, sessionId, playerNames[k], k)
        invariant forall k :: 0 <= k < |players| && players[k].sessionId == sessionId ==> players[k].seatIndex < index
      {
        InsertSeat(sessionId, playerNames[index], index);
        added := added + [players[|players| - 1]];
        index := index + 1;
      }
    }

    /** One `INSERT INTO session_players` row of `createSession`, behind every seat already taken. */
    method InsertSeat(sessionId: Id, name: string, seat: nat)
      requires Valid() && sessionId < nextId
      requires forall k :: 0 <= k < |players| && players[k].sessionId == sessionId ==> players[k].seatIndex < seat
      modifies this`players, this`nextId
      ensures Valid()
      ensures players == old(players) + [SessionPlayer(old(nextId), sessionId, name, seat)]
      ensures nextId == old(nextId) + 1
    {
      var playerId := NewId();
      SeatAppended(players, SessionPlayer(playerId, sessionId, name, seat), playerId);
      players := players + [SessionPlayer(playerId, sessionId, name, seat)];
    }

    /** Appending a seat under a fresh id, behind its session's other seats, keeps the seat conditions of `Valid`. */
    static lemma SeatAppended(players: seq<SessionPlayer>, p: SessionPlayer, n: Id)
      requires forall i :: 0 <= i < |players| ==> players[i].id < n && players[i].sessionId < n
      requires forall i, j :: 0 <= i < j < |players| ==> players[i].id != players[j].id
      requires SeatsOrdered(players)
      requires p.id == n && p.sessionId < n
      requires forall k :: 0 <= k < |players| && players[k].sessionId == p.sessionId ==> players[k].seatIndex < p.seatIndex
      ensures forall i :: 0 <= i < |players + [p]| ==> (players + [p])[i].id < n + 1 && (players + [p])[i].sessionId < n + 1
      ensures forall i, j :: 0 <= i < j < |players + [p]| ==> (players + [p])[i].id != (players + [p])[j].id
      ensures SeatsOrdered(players + [p])
    {
    }

    /** Seats appended for a new session are exactly that session's seats. */
    static lemma SeatsOfNewSession(before: seq<SessionPlayer>, added: seq<SessionPlayer>, sid: Id)
      requires forall k :: 0 <= k < |before| ==> before[k].sessionId < sid
      requires forall k :: 0 <= k < |added| ==> added[k].sessionId == sid
      ensures PlayersOf(before + added, sid) == added
    {
      PlayersOfConcat(before, added, sid);
      PlayersOfNone(before, sid);
      PlayersOfAll(added, sid);
    }

    /**
      `getSessionDetails`: None for an unknown session; otherwise the session,
      its template, its seats ordered by seat index and its score rows.
    */
    method GetSessionDetails(sessionId: Id) returns (r: Option<SessionDetails>)
      requires Valid()
      ensures r == Details(templates, sessions, players, scores, sessionId)
      ensures r.None? <==> forall i :: 0 <= i < |sessions| ==> sessions[i].id != sessionId
      ensures r.Some? ==>
        && r.value.session in sessions && r.value.session.id == sessionId
        && (r.value.template.Some? ==> r.value.template.value.id == r.value.session.templateId)
        && (r.value.template.Some? <==>
              exists i :: 0 <= i < |templates| && templates[i].id == r.value.session.templateId)
        && SortedBySeat(r.value.players)
        && (forall p :: p in r.value.players <==> p in players && p.sessionId == sessionId)
        && (forall e :: e in r.value.scores <==> e in scores && e.sessionId == sessionId)
    {
      var found := FindSession(sessions, sessionId);
      if found.None? {
        return None;
      }
      var session := found.value;
      var template: Option<Template> := None;
      var row := FindTemplateRow(templates, session.templateId);
      if row.Some? {
        ghost var k :| 0 <= k < |templates| && templates[k] == row.value;
        template := DecodeRowStrict(row.value);
      }
      var seats := SelectSeats(sessionId);
      var entries := SelectScores(sessionId);
      PlayersOfSorted(players, sessionId);
      r := Some(SessionDetails(session, template, seats, entries));
    }

    /** `SELECT * FROM session_players WHERE session_id = ?`, row by row in table order. */
    method SelectSeats(sessionId: Id) returns (seats: seq<SessionPlayer>)
      ensures seats == PlayersOf(players, sessionId)
    {
      seats := [];
      var i := 0;
      while i < |players|
        invariant 0 <= i <= |players|
        invariant seats == PlayersOf(players[..i], sessionId)
      {
        assert players[..i + 1][..i] == players[..i];
        if players[i].sessionId == sessionId {
          seats := seats + [players[i]];
        }
        i := i + 1;
      }
      assert players[..i] == players;
    }

    /** `SELECT * FROM scores WHERE session_id = ?`, row by row in table order. */
    method SelectScores(sessionId: Id) returns (entries: seq<ScoreEntry>)
      ensures entries == ScoresOf(scores, sessionId)
    {
      entries := [];
      var j := 0;
      while j < |scores|
        invariant 0 <= j <= |scores|
        invariant entries == ScoresOf(scores[..j], sessionId)
      {
        assert scores[..j + 1][..j] == scores[..j];
        if scores[j].sessionId == sessionId {
          entries := entries + [scores[j]];
        }
        j := j + 1;
      }
      assert scores[..j] == scores;
    }

    /**
      `saveScore`: the upsert on (session, round, player); nothing but the
      scores table changes.
    */
    method SaveScore(sessionId: Id, roundIdx: int, playerId: Id, value: int)
      requires Valid()
      modifies this`scores
      ensures Valid()
      ensures scores == Upsert(old(scores), ScoreEntry(sessionId, roundIdx, playerId, value))
      ensures templates == old(templates) && sessions == old(sessions) && players == old(players)
    {
      UpsertWrites(scores, ScoreEntry(sessionId, roundIdx, playerId, value));
      scores := Upsert(scores, ScoreEntry(sessionId, roundIdx, playerId, value));
    }
  }
}
