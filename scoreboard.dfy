/**
  The scoreboard of one session (`ActiveSession` in src/ActiveSession.tsx):
  the cell lookup, the per-player totals, the number of open-ended rounds shown,
  the row list, and the component state that a score edit or "+ Add Round"
  changes. The arithmetic is written as functions over the rows that
  `getSessionDetails` returns; the component is a class over the store.
*/
module Scoreboard {
  import opened Wrappers
  import opened Schema
  import opened JsBuiltins
  import Database

  function Max(a: int, b: int): int {
    if a < b then b else a
  }

  /** The entry stands in the cell of round `roundIdx`, column `playerId`. */
  predicate InCell(e: ScoreEntry, roundIdx: int, playerId: Id) {
    e.roundIndex == roundIdx && e.playerId == playerId
  }

  /**
    `getScore`: the value of the first entry in that cell, or 0 when there is
    none (`find(...)?.value || 0`; a stored 0 and a missing entry read alike).
  */
  function GetScore(scores: seq<ScoreEntry>, roundIdx: int, playerId: Id): (r: int)
    ensures (forall i :: 0 <= i < |scores| ==> !InCell(scores[i], roundIdx, playerId)) ==> r == 0
    ensures r != 0 ==> exists i :: 0 <= i < |scores| && InCell(scores[i], roundIdx, playerId) && scores[i].value == r
  {
    if |scores| == 0 then 0
    else if InCell(scores[0], roundIdx, playerId) then scores[0].value
    else GetScore(scores[1..], roundIdx, playerId)
  }

  /** The first entry in the cell decides what the cell shows. */
  lemma {:induction false} GetScoreFirst(scores: seq<ScoreEntry>, roundIdx: int, playerId: Id, i: nat)
    requires i < |scores| && InCell(scores[i], roundIdx, playerId)
    requires forall j :: 0 <= j < i ==> !InCell(scores[j], roundIdx, playerId)
    ensures GetScore(scores, roundIdx, playerId) == scores[i].value
  {
    if i > 0 {
      GetScoreFirst(scores[1..], roundIdx, playerId, i - 1);
    }
  }

  /**
    Within one session's rows, whose keys are unique, the cell shows the value
    of the one entry that has that round and player.
  */
  lemma GetScoreUnique(scores: seq<ScoreEntry>, sid: Id, roundIdx: int, playerId: Id, i: nat)
    requires UniqueKeys(scores)
    requires forall j :: 0 <= j < |scores| ==> scores[j].sessionId == sid
    requires i < |scores| && InCell(scores[i], roundIdx, playerId)
    ensures GetScore(scores, roundIdx, playerId) == scores[i].value
  {
    forall j | 0 <= j < i
      ensures !InCell(scores[j], roundIdx, playerId)
    {
      assert scores[j].Key() != scores[i].Key();
    }
    GetScoreFirst(scores, roundIdx, playerId, i);
  }

  /**
    Among the rows of one session, a cell's first entry is the first entry with
    the cell's key, which is where the upsert writes.
  */
  lemma FirstInCellIsFirstWithKey(scores: seq<ScoreEntry>, e: ScoreEntry, j: nat)
    requires forall k :: 0 <= k < |scores| ==> scores[k].sessionId == e.sessionId
    requires j < |scores| && scores[j].Key() != e.Key()
    ensures !InCell(scores[j], e.roundIndex, e.playerId)
  {
  }

  /**
    Reading a cell after an upsert into one session's rows: the written cell
    shows the new value, every other cell shows what it showed before.
  */
  lemma {:induction false} GetScoreAfterUpsert(scores: seq<ScoreEntry>, e: ScoreEntry, roundIdx: int, playerId: Id)
    requires forall k :: 0 <= k < |scores| ==> scores[k].sessionId == e.sessionId
    ensures GetScore(Upsert(scores, e), roundIdx, playerId) ==
      if InCell(e, roundIdx, playerId) then e.value else GetScore(scores, roundIdx, playerId)
  {
    var u := Upsert(scores, e);
    match IndexOfKey(scores, e.Key())
    case Some(i) =>
      assert u == scores[i := e];
      if InCell(e, roundIdx, playerId) {
        forall j | 0 <= j < i ensures !InCell(u[j], roundIdx, playerId) {
          FirstInCellIsFirstWithKey(scores, e, j);
        }
        GetScoreFirst(u, roundIdx, playerId, i);
      } else {
        GetScoreSkip(scores, i, e, roundIdx, playerId);
      }
    case None =>
      assert u == scores + [e];
      if InCell(e, roundIdx, playerId) {
        forall j | 0 <= j < |scores| ensures !InCell(u[j], roundIdx, playerId) {
          FirstInCellIsFirstWithKey(scores, e, j);
        }
        GetScoreFirst(u, roundIdx, playerId, |scores|);
      } else {
        GetScoreAppendOther(scores, e, roundIdx, playerId);
      }
  }

  /** Overwriting an entry outside the cell does not change the cell. */
  lemma {:induction false} GetScoreSkip(scores: seq<ScoreEntry>, i: nat, e: ScoreEntry, roundIdx: int, playerId: Id)
    requires i < |scores| && !InCell(e, roundIdx, playerId) && !InCell(scores[i], roundIdx, playerId)
    ensures GetScore(scores[i := e], roundIdx, playerId) == GetScore(scores, roundIdx, playerId)
  {
    if i > 0 {
      assert scores[i := e][1..] == scores[1..][i - 1 := e];
      GetScoreSkip(scores[1..], i - 1, e, roundIdx, playerId);
    }
  }

  /** Appending an entry outside the cell does not change the cell. */
  lemma {:induction false} GetScoreAppendOther(scores: seq<ScoreEntry>, e: ScoreEntry, roundIdx: int, playerId: Id)
    requires !InCell(e, roundIdx, playerId)
    ensures GetScore(scores + [e], roundIdx, playerId) == GetScore(scores, roundIdx, playerId)
  {
    if |scores| > 0 {
      assert (scores + [e])[1..] == scores[1..] + [e];
      GetScoreAppendOther(scores[1..], e, roundIdx, playerId);
    }
  }

  /**
    What the scoreboard shows after `saveScore` and a reload: the edited cell
    holds the saved value and every other cell of the session is unchanged.
  */
  lemma CellAfterSave(scores: seq<ScoreEntry>, e: ScoreEntry, roundIdx: int, playerId: Id)
    ensures GetScore(ScoresOf(Upsert(scores, e), e.sessionId), roundIdx, playerId) ==
      if InCell(e, roundIdx, playerId) then e.value else GetScore(ScoresOf(scores, e.sessionId), roundIdx, playerId)
  {
    ScoresOfUpsert(scores, e);
    var mine := ScoresOf(scores, e.sessionId);
    assert forall k :: 0 <= k < |mine| ==> mine[k] in mine;
    GetScoreAfterUpsert(mine, e, roundIdx, playerId);
  }

  /**
    `handleScoreChange` on text without any decimal digit (blank, white space,
    letters, a lone sign) still writes the cell: it then holds 0, whatever it
    held before.
  */
  lemma NonNumericInputClearsCell(scores: seq<ScoreEntry>, sid: Id, roundIdx: int, playerId: Id, val: string)
    requires forall i :: 0 <= i < |val| ==> !IsDecimalDigit(val[i])
    ensures var after := Upsert(scores, ScoreEntry(sid, roundIdx, playerId, Coerce(val)));
      && ScoreEntry(sid, roundIdx, playerId, 0) in after
      && GetScore(ScoresOf(after, sid), roundIdx, playerId) == 0
  {
    CoerceWithoutDigits(val);
    var e := ScoreEntry(sid, roundIdx, playerId, 0);
    CellAfterSave(scores, e, roundIdx, playerId);
  }

  // ---------------------------------------------------------------- totals

  /** `scores.filter(s => s.player_id === p.id)`. */
  function EntriesOf(scores: seq<ScoreEntry>, playerId: Id): (r: seq<ScoreEntry>)
    ensures |r| <= |scores|
    ensures forall e :: e in r <==> e in scores && e.playerId == playerId
  {
    if |scores| == 0 then []
    else
      var front := EntriesOf(scores[..|scores| - 1], playerId);
      var last := scores[|scores| - 1];
      assert scores == scores[..|scores| - 1] + [last];
      if last.playerId == playerId then front + [last] else front
  }

  /** `.reduce((sum, s) => sum + s.value, 0)`. */
  function Sum(es: seq<ScoreEntry>): int {
    if |es| == 0 then 0 else Sum(es[..|es| - 1]) + es[|es| - 1].value
  }

  /** One player's total: the sum of the values of that player's entries. */
  function PlayerTotal(scores: seq<ScoreEntry>, playerId: Id): int {
    Sum(EntriesOf(scores, playerId))
  }

  /** `totals`: one total per seat, in seat order. */
  function Totals(players: seq<SessionPlayer>, scores: seq<ScoreEntry>): (r: seq<int>)
    ensures |r| == |players|
    ensures forall i :: 0 <= i < |players| ==> r[i] == PlayerTotal(scores, players[i].id)
  {
    if |players| == 0 then []
    else Totals(players[..|players| - 1], scores) + [PlayerTotal(scores, players[|players| - 1].id)]
  }

  lemma {:induction false} SumConcat(a: seq<ScoreEntry>, b: seq<ScoreEntry>)
    ensures Sum(a + b) == Sum(a) + Sum(b)
  {
    if |b| > 0 {
      assert (a + b)[..|a + b| - 1] == a + b[..|b| - 1];
      SumConcat(a, b[..|b| - 1]);
    } else {
      assert a + b == a;
    }
  }

  lemma {:induction false} EntriesOfConcat(a: seq<ScoreEntry>, b: seq<ScoreEntry>, playerId: Id)
    ensures EntriesOf(a + b, playerId) == EntriesOf(a, playerId) + EntriesOf(b, playerId)
  {
    if |b| > 0 {
      assert (a + b)[..|a + b| - 1] == a + b[..|b| - 1];
      EntriesOfConcat(a, b[..|b| - 1], playerId);
    } else {
      assert a + b == a;
    }
  }

  /** Totals split over a split of the rows. */
  lemma PlayerTotalConcat(a: seq<ScoreEntry>, b: seq<ScoreEntry>, playerId: Id)
    ensures PlayerTotal(a + b, playerId) == PlayerTotal(a, playerId) + PlayerTotal(b, playerId)
  {
    EntriesOfConcat(a, b, playerId);
    SumConcat(EntriesOf(a, playerId), EntriesOf(b, playerId));
  }

  /** A player with no entries totals 0. */
  lemma {:induction false} PlayerTotalNoEntries(scores: seq<ScoreEntry>, playerId: Id)
    requires forall i :: 0 <= i < |scores| ==> scores[i].playerId != playerId
    ensures PlayerTotal(scores, playerId) == 0
  {
    if |scores| > 0 {
      PlayerTotalNoEntries(scores[..|scores| - 1], playerId);
    }
  }

  /** Entries of other players never reach a player's total. */
  lemma PlayerTotalIgnoresOthers(scores: seq<ScoreEntry>, others: seq<ScoreEntry>, playerId: Id)
    requires forall i :: 0 <= i < |others| ==> others[i].playerId != playerId
    ensures PlayerTotal(scores + others, playerId) == PlayerTotal(scores, playerId)
  {
    PlayerTotalConcat(scores, others, playerId);
    PlayerTotalNoEntries(others, playerId);
  }

  /** A single entry adds its value to its own player's total and nothing to anyone else's. */
  lemma PlayerTotalSingle(e: ScoreEntry, playerId: Id)
    ensures PlayerTotal([e], playerId) == if e.playerId == playerId then e.value else 0
  {
    assert [e][..0] == [];
    var f := EntriesOf([e], playerId);
    assert f == if e.playerId == playerId then [e] else [];
    if e.playerId == playerId {
      assert f[..0] == [];
      assert Sum(f) == Sum([]) + e.value;
    }
  }

  /**
    Additivity: replacing one entry's value `v` by `v + delta` changes that
    player's total by exactly `delta` and leaves every other player's total.
  */
  lemma PlayerTotalReplace(scores: seq<ScoreEntry>, i: nat, delta: int, playerId: Id)
    requires i < |scores|
    ensures var changed := scores[i := scores[i].(value := scores[i].value + delta)];
      PlayerTotal(changed, playerId) ==
        PlayerTotal(scores, playerId) + (if scores[i].playerId == playerId then delta else 0)
  {
    var e := scores[i];
    var e' := e.(value := e.value + delta);
    var a, b := scores[..i], scores[i + 1..];
    SplitAt(scores, i);
    ReplaceMiddle(a, e, e', b);
    PlayerTotalSwap(a, e, e', b, playerId);
  }

  /** Swapping one row for another of the same player moves only that player's total, by the difference. */
  lemma PlayerTotalSwap(a: seq<ScoreEntry>, x: ScoreEntry, y: ScoreEntry, b: seq<ScoreEntry>, playerId: Id)
    requires y.playerId == x.playerId
    ensures PlayerTotal(a + [y] + b, playerId) ==
      PlayerTotal(a + [x] + b, playerId) + (if x.playerId == playerId then y.value - x.value else 0)
  {
    PlayerTotalAround(a, x, b, playerId);
    PlayerTotalAround(a, y, b, playerId);
    PlayerTotalSingle(x, playerId);
    PlayerTotalSingle(y, playerId);
  }

  /** A total over a table split around one row is the three parts' totals added up. */
  lemma PlayerTotalAround(a: seq<ScoreEntry>, x: ScoreEntry, b: seq<ScoreEntry>, playerId: Id)
    ensures PlayerTotal(a + [x] + b, playerId) == PlayerTotal(a, playerId) + PlayerTotal([x], playerId) + PlayerTotal(b, playerId)
  {
    PlayerTotalConcat(a + [x], b, playerId);
    PlayerTotalConcat(a, [x], playerId);
  }

  /**
    A save into one session's rows moves the writer's total by the new value
    minus what the cell showed, and leaves everyone else's total alone.
  */
  lemma PlayerTotalAfterUpsert(scores: seq<ScoreEntry>, e: ScoreEntry, playerId: Id)
    requires forall k :: 0 <= k < |scores| ==> scores[k].sessionId == e.sessionId
    ensures PlayerTotal(Upsert(scores, e), playerId) ==
      if e.playerId == playerId
      then PlayerTotal(scores, playerId) - GetScore(scores, e.roundIndex, e.playerId) + e.value
      else PlayerTotal(scores, playerId)
  {
    match IndexOfKey(scores, e.Key())
    case Some(i) => TotalAfterOverwrite(scores, e, i, playerId);
    case None => TotalAfterAppend(scores, e, playerId);
  }

  /** The upsert overwrote row `i`, the first row with the written key. */
  lemma TotalAfterOverwrite(scores: seq<ScoreEntry>, e: ScoreEntry, i: nat, playerId: Id)
    requires forall k :: 0 <= k < |scores| ==> scores[k].sessionId == e.sessionId
    requires IndexOfKey(scores, e.Key()) == Some(i)
    ensures PlayerTotal(scores[i := e], playerId) ==
      if e.playerId == playerId
      then PlayerTotal(scores, playerId) - GetScore(scores, e.roundIndex, e.playerId) + e.value
      else PlayerTotal(scores, playerId)
  {
    var delta := e.value - scores[i].value;
    assert scores[i].(value := scores[i].value + delta) == e;
    PlayerTotalReplace(scores, i, delta, playerId);
    forall j | 0 <= j < i ensures !InCell(scores[j], e.roundIndex, e.playerId) {
      FirstInCellIsFirstWithKey(scores, e, j);
    }
    GetScoreFirst(scores, e.roundIndex, e.playerId, i);
  }

  /** The upsert appended the entry: no row had its key, so its cell showed 0. */
  lemma TotalAfterAppend(scores: seq<ScoreEntry>, e: ScoreEntry, playerId: Id)
    requires forall k :: 0 <= k < |scores| ==> scores[k].sessionId == e.sessionId
    requires IndexOfKey(scores, e.Key()) == None
    ensures PlayerTotal(scores + [e], playerId) ==
      if e.playerId == playerId
      then PlayerTotal(scores, playerId) - GetScore(scores, e.roundIndex, e.playerId) + e.value
      else PlayerTotal(scores, playerId)
  {
    PlayerTotalConcat(scores, [e], playerId);
    PlayerTotalSingle(e, playerId);
    forall j | 0 <= j < |scores| ensures !InCell(scores[j], e.roundIndex, e.playerId) {
      FirstInCellIsFirstWithKey(scores, e, j);
    }
  }

  // ---------------------------------------------------------------- rounds

  /** `scores.reduce((max, s) => Math.max(max, s.round_index), -1)`. */
  function MaxRound(scores: seq<ScoreEntry>): (r: int)
    ensures r >= -1
    ensures forall i :: 0 <= i < |scores| ==> scores[i].roundIndex <= r
    ensures r == -1 || exists i :: 0 <= i < |scores| && scores[i].roundIndex == r
  {
    if |scores| == 0 then -1
    else
      var front := scores[..|scores| - 1];
      var m := MaxRound(front);
      assert forall i :: 0 <= i < |front| ==> scores[i] == front[i];
      Max(m, scores[|scores| - 1].roundIndex)
  }

  /**
    The number of open-ended rounds shown, `Math.max(maxRound + 1, 1)`: at
    least one, past every written round, and no larger than that needs.
  */
  function DynamicRoundCount(scores: seq<ScoreEntry>): (n: nat)
    ensures n >= 1
    ensures forall i :: 0 <= i < |scores| ==> scores[i].roundIndex < n
    ensures n == 1 || exists i :: 0 <= i < |scores| && scores[i].roundIndex == n - 1
  {
    Max(MaxRound(scores) + 1, 1)
  }

  /**
    A save raises the round count to just past the written round, if it was
    not already past it; the round count never drops.
  */
  lemma DynamicRoundCountAfterUpsert(scores: seq<ScoreEntry>, e: ScoreEntry)
    ensures DynamicRoundCount(Upsert(scores, e)) == Max(DynamicRoundCount(scores), e.roundIndex + 1)
  {
    match IndexOfKey(scores, e.Key())
    case Some(i) =>
      MaxRoundSameRounds(scores, scores[i := e]);
    case None =>
      assert (scores + [e])[..|scores|] == scores;
  }

  /** `MaxRound` only looks at the round indices, row by row. */
  lemma {:induction false} MaxRoundSameRounds(a: seq<ScoreEntry>, b: seq<ScoreEntry>)
    requires |a| == |b| && forall k :: 0 <= k < |a| ==> a[k].roundIndex == b[k].roundIndex
    ensures MaxRound(a) == MaxRound(b)
  {
    if |a| > 0 {
      MaxRoundSameRounds(a[..|a| - 1], b[..|b| - 1]);
    }
  }

  /**
    Writing into the bottom visible row leaves the number of rows as it was:
    the grid extends to one past the highest written round, not by a fresh
    empty row below it.
  */
  lemma WriteInVisibleRowKeepsCount(scores: seq<ScoreEntry>, e: ScoreEntry)
    requires 0 <= e.roundIndex < DynamicRoundCount(scores)
    ensures DynamicRoundCount(Upsert(scores, e)) == DynamicRoundCount(scores)
  {
    DynamicRoundCountAfterUpsert(scores, e);
  }

  /** `Array.from({length: n}, (_, i) => i)`: the row numbers 0 .. n-1. */
  function RoundIndices(n: nat): (r: seq<int>)
    ensures |r| == n
    ensures IsRange(r)
  {
    if n == 0 then [] else RoundIndices(n - 1) + [n - 1]
  }

  /** The row list holds exactly its own positions. */
  ghost predicate IsRange(s: seq<int>) {
    forall i :: 0 <= i < |s| ==> s[i] == i
  }

  /** One row of the grid: a named round of a FIXED template, or a numbered one. */
  datatype Row = Named(name: string) | Numbered(index: int)

  /** `rows`: FIXED templates show their round names, DYNAMIC ones the round list. */
  function Rows(template: Template, dynamicRounds: seq<int>): (r: seq<Row>)
    ensures template.roundStructure == Fixed ==>
      |r| == |template.roundNames| && forall i :: 0 <= i < |r| ==> r[i] == Named(template.roundNames[i])
    ensures template.roundStructure == Dynamic ==>
      |r| == |dynamicRounds| && forall i :: 0 <= i < |r| ==> r[i] == Numbered(dynamicRounds[i])
  {
    if template.roundStructure == Fixed then NamedRows(template.roundNames) else NumberedRows(dynamicRounds)
  }

  function NamedRows(names: seq<string>): (r: seq<Row>)
    ensures |r| == |names| && forall i :: 0 <= i < |r| ==> r[i] == Named(names[i])
  {
    if |names| == 0 then [] else NamedRows(names[..|names| - 1]) + [Named(names[|names| - 1])]
  }

  function NumberedRows(rounds: seq<int>): (r: seq<Row>)
    ensures |r| == |rounds| && forall i :: 0 <= i < |r| ==> r[i] == Numbered(rounds[i])
  {
    if |rounds| == 0 then [] else NumberedRows(rounds[..|rounds| - 1]) + [Numbered(rounds[|rounds| - 1])]
  }

  /** A FIXED grid does not depend on the round list, so no score changes its rows. */
  lemma FixedRowsIgnoreRounds(template: Template, d1: seq<int>, d2: seq<int>)
    requires template.roundStructure == Fixed
    ensures Rows(template, d1) == Rows(template, d2)
    ensures |Rows(template, d1)| == |template.roundNames|
  {
  }

  /** A DYNAMIC grid built from a reload has exactly `DynamicRoundCount` numbered rows, 0 first. */
  lemma DynamicRowsAfterLoad(template: Template, scores: seq<ScoreEntry>)
    requires template.roundStructure == Dynamic
    ensures var rows := Rows(template, RoundIndices(DynamicRoundCount(scores)));
      && |rows| == DynamicRoundCount(scores)
      && forall i :: 0 <= i < |rows| ==> rows[i] == Numbered(i)
  {
  }

  // ------------------------------------------------------------- component

  /**
    The component's state for one session: the details last loaded from the
    store and the open-ended round list.
  */
  class ScoreBoard {
    const store: Database.LedgerDatabase
    const sessionId: Id
    var data: Option<SessionDetails>
    var dynamicRounds: seq<int>

    ghost predicate Valid()
      reads this, store
    {
      store.Valid() && IsRange(dynamicRounds)
    }

    /** First render: nothing loaded yet, no rounds. */
    constructor (store: Database.LedgerDatabase, sessionId: Id)
      requires store.Valid()
      ensures Valid()
      ensures this.store == store && this.sessionId == sessionId
      ensures data == None && dynamicRounds == []
    {
      this.store := store;
      this.sessionId := sessionId;
      data := None;
      dynamicRounds := [];
    }

    /**
      `loadData`: an unknown session leaves the state as it was; otherwise the
      details are kept, and for a DYNAMIC template the round list becomes
      0 .. DynamicRoundCount - 1 of the session's scores. A FIXED template
      leaves the round list alone, and so does a session whose template row
      is gone, where the source fails on `res.template` after keeping the
      details.
    */
    method LoadData()
      requires Valid()
      modifies this`data, this`dynamicRounds
      ensures Valid()
      ensures var res := Details(store.templates, store.sessions, store.players, store.scores, sessionId);
        && (res.None? ==> data == old(data) && dynamicRounds == old(dynamicRounds))
        && (res.Some? ==> data == res)
        && (res.Some? && res.value.template.Some? && res.value.template.value.roundStructure == Dynamic ==>
              dynamicRounds == RoundIndices(DynamicRoundCount(res.value.scores)))
        && (res.Some? && !(res.value.template.Some? && res.value.template.value.roundStructure == Dynamic) ==>
              dynamicRounds == old(dynamicRounds))
    {
      var res := store.GetSessionDetails(sessionId);
      if res.Some? {
        data := res;
        if res.value.template.Some? && res.value.template.value.roundStructure == Dynamic {
          dynamicRounds := RoundIndices(DynamicRoundCount(res.value.scores));
        }
      }
    }

    /**
      `handleScoreChange`: coerce the typed text with `parseInt(val) || 0`,
      upsert it into the cell, then reload.
    */
    method HandleScoreChange(roundIdx: int, playerId: Id, val: string)
      requires Valid()
      modifies this`data, this`dynamicRounds, store`scores
      ensures Valid()
      ensures store.scores == Upsert(old(store.scores), ScoreEntry(sessionId, roundIdx, playerId, Coerce(val)))
      ensures store.templates == old(store.templates) && store.sessions == old(store.sessions)
      ensures store.players == old(store.players)
      ensures var res := Details(store.templates, store.sessions, store.players, store.scores, sessionId);
        && (res.None? ==> data == old(data) && dynamicRounds == old(dynamicRounds))
        && (res.Some? ==> data == res)
        && (res.Some? && res.value.template.Some? && res.value.template.value.roundStructure == Dynamic ==>
              dynamicRounds == RoundIndices(DynamicRoundCount(res.value.scores)))
        && (res.Some? && !(res.value.template.Some? && res.value.template.value.roundStructure == Dynamic) ==>
              dynamicRounds == old(dynamicRounds))
    {
      var num := Coerce(val);
      store.SaveScore(sessionId, roundIdx, playerId, num);
      LoadData();
    }

    /** `addRound`: appends the next row number; the list stays 0 .. n. */
    method AddRound()
      requires Valid()
      modifies this`dynamicRounds
      ensures Valid()
      ensures dynamicRounds == old(dynamicRounds) + [|old(dynamicRounds)|]
      ensures dynamicRounds == RoundIndices(|old(dynamicRounds)| + 1)
    {
      RangeIsRoundIndices(dynamicRounds);
      dynamicRounds := dynamicRounds + [|dynamicRounds|];
    }
  }

  /** A list holding its own positions is the round list of its length. */
  lemma {:induction false} RangeIsRoundIndices(s: seq<int>)
    requires IsRange(s)
    ensures s == RoundIndices(|s|)
  {
    if |s| > 0 {
      RangeIsRoundIndices(s[..|s| - 1]);
      assert s == s[..|s| - 1] + [|s| - 1];
    }
  }
}
