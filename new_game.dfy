/**
  The new-game dialog (`NewGameModal` in src/components/NewGameModal.tsx) and
  the `onStart` handler that src/App.tsx gives it: seat slots the user edits,
  a selected template, and the start button that drops blank names, checks
  the template's minimum player count and only then creates a session.
*/
module NewGame {
  import opened Wrappers
  import opened Schema
  import opened JsBuiltins
  import Database

  /**
    A slot `p` with `p.trim() === ""`: empty, or only white space and line
    terminators (`BlankIffTrimmedEmpty` ties this to `Trim`).
  */
  predicate IsBlank(name: string) {
    forall i :: 0 <= i < |name| ==> IsJsWhiteSpace(name[i])
  }

  lemma BlankIffTrimmedEmpty(name: string)
    ensures IsBlank(name) <==> Trim(name) == []
  {
    TrimEmptyIff(name);
  }

  /** `players.filter(p => p.trim() !== "")`: the filled-in slots, in slot order. */
  function ValidPlayers(slots: seq<string>): (r: seq<string>)
    ensures |r| <= |slots|
    ensures forall i :: 0 <= i < |r| ==> !IsBlank(r[i])
    ensures forall name :: name in r <==> name in slots && !IsBlank(name)
  {
    if |slots| == 0 then []
    else
      var front := ValidPlayers(slots[..|slots| - 1]);
      var last := slots[|slots| - 1];
      assert slots == slots[..|slots| - 1] + [last];
      if IsBlank(last) then front else front + [last]
  }

  /** Filtering distributes over a split of the slot list, so slot order is kept. */
  lemma {:induction false} ValidPlayersConcat(a: seq<string>, b: seq<string>)
    ensures ValidPlayers(a + b) == ValidPlayers(a) + ValidPlayers(b)
  {
    if |b| > 0 {
      var b' := b[..|b| - 1];
      assert (a + b)[..|a + b| - 1] == a + b';
      assert (a + b)[|a + b| - 1] == b[|b| - 1];
      ValidPlayersConcat(a, b');
      assert ValidPlayers(a + b) == ValidPlayers(a + b') + ValidPlayers(b)[|ValidPlayers(b')|..];
    } else {
      assert a + b == a;
    }
  }

  /** When no slot is blank, every name goes through unchanged and in place. */
  lemma {:induction false} ValidPlayersAllFilled(slots: seq<string>)
    requires forall i :: 0 <= i < |slots| ==> !IsBlank(slots[i])
    ensures ValidPlayers(slots) == slots
  {
    if |slots| > 0 {
      ValidPlayersAllFilled(slots[..|slots| - 1]);
    }
  }

  /** A name made only of white space counts as no name. */
  lemma BlankNameIsDropped(slots: seq<string>, name: string)
    requires IsBlank(name)
    ensures ValidPlayers(slots + [name]) == ValidPlayers(slots)
  {
    ValidPlayersConcat(slots, [name]);
    assert [name][..0] == [];
  }

  /**
    Editing one slot changes the number of names by whether that slot was
    filled before and whether it is filled after.
  */
  lemma EditChangesCount(slots: seq<string>, idx: nat, value: string)
    requires idx < |slots|
    ensures |ValidPlayers(slots[idx := value])| ==
      |ValidPlayers(slots)| - (if IsBlank(slots[idx]) then 0 else 1) + (if IsBlank(value) then 0 else 1)
  {
    var a, b := slots[..idx], slots[idx + 1..];
    SplitAt(slots, idx);
    ReplaceMiddle(a, slots[idx], value, b);
    ValidPlayersConcat(a + [slots[idx]], b);
    ValidPlayersConcat(a, [slots[idx]]);
    ValidPlayersConcat(a + [value], b);
    ValidPlayersConcat(a, [value]);
    assert [value][..0] == [] && [slots[idx]][..0] == [];
  }

  /** What pressing Start does. */
  datatype StartOutcome =
    | NoTemplate                                          // `selectedTemplate` is undefined: the handler fails
    | Rejected(required: int)                             // too few names: the alert, nothing else
    | Started(templateId: Id, playerNames: seq<string>)   // `onStart(selectedTemplate.id, validPlayers)`

  /**
    `handleStart`: with a template selected, start exactly when the non-blank
    names reach its `min_players`, passing those names; otherwise reject,
    naming the minimum.
  */
  function HandleStart(selected: Option<Template>, slots: seq<string>): (r: StartOutcome)
    ensures r.NoTemplate? <==> selected.None?
    ensures r.Rejected? <==> selected.Some? && |ValidPlayers(slots)| < selected.value.minPlayers
    ensures r.Rejected? ==> r.required == selected.value.minPlayers
    ensures r.Started? <==> selected.Some? && |ValidPlayers(slots)| >= selected.value.minPlayers
    ensures r.Started? ==> r.templateId == selected.value.id && r.playerNames == ValidPlayers(slots)
  {
    match selected
    case None => NoTemplate
    case Some(t) =>
      var valid := ValidPlayers(slots);
      if |valid| < t.minPlayers then Rejected(t.minPlayers) else Started(t.id, valid)
  }

  /** A started game has at least the minimum number of players, none of them blank. */
  lemma StartedRosterIsValid(selected: Option<Template>, slots: seq<string>)
    requires HandleStart(selected, slots).Started?
    ensures var names := HandleStart(selected, slots).playerNames;
      && |names| >= selected.value.minPlayers
      && (forall i :: 0 <= i < |names| ==> !IsBlank(names[i]))
      && (forall name :: name in names ==> name in slots)
  {
  }

  /** The four opening slots are all empty, so Start on them never passes a template that wants a player. */
  lemma EmptySlotsNeverStart(t: Template)
    requires t.minPlayers >= 1
    ensures HandleStart(Some(t), ["", "", "", ""]) == Rejected(t.minPlayers)
  {
    ValidPlayersAllBlank(["", "", "", ""]);
  }

  /** Slots that are all blank give no names. */
  lemma {:induction false} ValidPlayersAllBlank(slots: seq<string>)
    requires forall i :: 0 <= i < |slots| ==> IsBlank(slots[i])
    ensures ValidPlayers(slots) == []
  {
    if |slots| > 0 {
      ValidPlayersAllBlank(slots[..|slots| - 1]);
    }
  }

  /** `templates.find(t => t.id === id)`: the first template with that id. */
  function FindTemplate(templates: seq<Template>, id: Id): (r: Option<Template>)
    ensures r.Some? ==> r.value in templates && r.value.id == id
    ensures r.None? ==> forall i :: 0 <= i < |templates| ==> templates[i].id != id
  {
    if |templates| == 0 then None
    else if templates[0].id == id then Some(templates[0])
    else FindTemplate(templates[1..], id)
  }

  /** The dialog's state: the offered templates, the selected one and the seat slots. */
  class NewGameForm {
    const templates: seq<Template>
    var selected: Option<Template>
    var slots: seq<string>

    /** Opens on the first template (undefined when there is none) with four empty slots. */
    constructor (templates: seq<Template>)
      ensures this.templates == templates
      ensures selected == (if |templates| > 0 then Some(templates[0]) else None)
      ensures slots == ["", "", "", ""]
    {
      this.templates := templates;
      selected := if |templates| > 0 then Some(templates[0]) else None;
      slots := ["", "", "", ""];
    }

    /** The selector's `onChange`: the template with the chosen id, if any. */
    method SelectTemplate(id: Id)
      modifies this`selected
      ensures selected == FindTemplate(templates, id)
    {
      selected := FindTemplate(templates, id);
    }

    /** "+ Add Seat": one more empty slot at the end. */
    method AddSeat()
      modifies this`slots
      ensures slots == old(slots) + [""]
      ensures ValidPlayers(slots) == ValidPlayers(old(slots))
    {
      BlankNameIsDropped(slots, "");
      slots := slots + [""];
    }

    /**
      A slot's `onChange`: that slot takes the typed text, the others stay.
      The index is one the dialog renders, so it lies within the slots.
    */
    method EditSeat(idx: nat, value: string)
      requires idx < |slots|
      modifies this`slots
      ensures slots == old(slots)[idx := value]
      ensures |slots| == |old(slots)|
    {
      slots := slots[idx := value];
    }

    /**
      The Start button with the `onStart` of src/App.tsx: a session is created
      only for a start outcome, with exactly the non-blank names; otherwise
      the store is left as it was.
    */
    method Start(store: Database.LedgerDatabase, today: string) returns (created: Option<Id>)
      requires store.Valid()
      modifies store
      ensures store.Valid()
      ensures created.Some? <==> HandleStart(selected, slots).Started?
      ensures created.None? ==>
        && store.templates == old(store.templates) && store.sessions == old(store.sessions)
        && store.players == old(store.players) && store.scores == old(store.scores)
        && store.nextId == old(store.nextId)
      ensures created.Some? ==>
        var names := ValidPlayers(slots);
        && store.sessions == old(store.sessions) + [Session(created.value, selected.value.id, today, false)]
        && |names| >= selected.value.minPlayers
        && store.templates == old(store.templates) && store.scores == old(store.scores)
        && |old(store.players)| <= |store.players|
        && store.players[..|old(store.players)|] == old(store.players)
        && var seats := store.players[|old(store.players)|..];
        && |seats| == |names|
        && (forall k :: 0 <= k < |seats| ==> seats[k].name == names[k] && seats[k].seatIndex == k)
        && PlayersOf(store.players, created.value) == seats
    {
      var outcome := HandleStart(selected, slots);
      if outcome.Started? {
        var id := store.CreateSession(outcome.templateId, outcome.playerNames, today);
        created := Some(id);
      } else {
        created := None;
      }
    }
  }
}
