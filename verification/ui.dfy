/**
 The interactive controller: the query typed so far, the filtered list of
 command indices, the selected row and the quit flag, and how one key event
 changes them. `Step` is the reference definition of a key event; the class
 `App` holds the same state in fields and its methods are proved against it.
 */
module Ui {
  import opened Wrappers
  import opened Ascii
  import opened Commands
  import opened Search
  import Keyboard

  /** The key codes `handle_input` distinguishes; every other code is `Other`. */
  datatype KeyCode = Esc | Char(c: char) | Backspace | Down | Tab | Up | BackTab | Other

  /** A key event: its code and whether the Control modifier was held. */
  datatype KeyEvent = KeyEvent(code: KeyCode, ctrl: bool)

  /** The fields of `App` that input changes. */
  datatype AppState = AppState(query: string, filtered: seq<nat>, selected: nat, shouldQuit: bool)

  // ---------------------------------------------------------------------------
  // The reference definition of the controller
  // ---------------------------------------------------------------------------

  /** The command indices of a search result, in result order. */
  function Indices(hits: seq<Hit>): seq<nat>
  {
    seq(|hits|, i requires 0 <= i < |hits| => hits[i].index)
  }

  /** The filtered list `update_search` computes for a query. */
  function Filter(commands: seq<Command>, query: string, fuzzy: Matcher): seq<nat>
  {
    Indices(Rank(commands, query, fuzzy))
  }

  /** `App::new`: empty query, every command listed in catalogue order, first row selected. */
  function Initial(commands: seq<Command>): AppState
  {
    AppState([], seq(|commands|, i requires 0 <= i < |commands| => i), 0, false)
  }

  /** A new query: the list is searched again and the selection goes back to the first row. */
  function Requery(commands: seq<Command>, fuzzy: Matcher, s: AppState, query: string): AppState
  {
    AppState(query, Filter(commands, query, fuzzy), 0, s.shouldQuit)
  }

  /** `Down` / `Tab`: the next row, wrapping to the first. */
  function SelectNext(s: AppState): AppState
  {
    if s.filtered == [] then s else s.(selected := (s.selected + 1) % |s.filtered|)
  }

  /** `Up` / `BackTab`: the previous row, wrapping to the last. */
  function SelectPrevious(s: AppState): AppState
  {
    if s.filtered == [] then s
    else s.(selected := if s.selected == 0 then |s.filtered| - 1 else s.selected - 1)
  }

  /** `String::pop`: the query without its last character; nothing to drop from an empty query. */
  function DropLast(query: string): (r: string)
    ensures query != [] ==> r + [query[|query| - 1]] == query
    ensures query == [] ==> r == []
  {
    if query == [] then [] else query[..|query| - 1]
  }

  /**
   The `match key.code` of `handle_input`. The app quits on Esc with an empty
   query or on Ctrl-C, and never un-quits; the query only grows by the typed
   character, loses its last one, or is cleared; and whenever the query or the
   list changes, the list is the search for the new query with the first row
   selected. `Other` keys change nothing.
   */
  function Step(commands: seq<Command>, fuzzy: Matcher, s: AppState, ev: KeyEvent): (t: AppState)
    ensures t.shouldQuit <==> s.shouldQuit || (ev.code == Esc && s.query == []) || (ev.code == Char('c') && ev.ctrl)
    ensures || t.query == s.query || t.query == [] || t.query == DropLast(s.query)
            || (ev.code.Char? && t.query == s.query + [ev.code.c])
    ensures t.query != s.query || t.filtered != s.filtered ==>
              t.selected == 0 && t.filtered == Filter(commands, t.query, fuzzy)
    ensures ev.code == Other ==> t == s
  {
    match ev.code
    case Esc =>
      if s.query == [] then s.(shouldQuit := true) else Requery(commands, fuzzy, s, [])
    case Char(c) =>
      if c == 'c' && ev.ctrl then s.(shouldQuit := true) else Requery(commands, fuzzy, s, s.query + [c])
    case Backspace => Requery(commands, fuzzy, s, DropLast(s.query))
    case Down => SelectNext(s)
    case Tab => SelectNext(s)
    case Up => SelectPrevious(s)
    case BackTab => SelectPrevious(s)
    case Other => s
  }

  /**
   What the controller keeps true: every listed index names a command, and the
   selection is a listed row (or the first row of an empty list).
   */
  predicate Inv(commands: seq<Command>, s: AppState)
  {
    && (forall k :: 0 <= k < |s.filtered| ==> s.filtered[k] < |commands|)
    && (s.selected < |s.filtered| || s.selected == 0)
  }

  /** `selected_command`: the command of the selected row, if there is one. */
  function SelectedOf(commands: seq<Command>, s: AppState): Option<Command>
  {
    if s.selected < |s.filtered| && s.filtered[s.selected] < |commands|
    then Some(commands[s.filtered[s.selected]])
    else None
  }

  // ---------------------------------------------------------------------------
  // The keys shown on the keyboard for a command
  // ---------------------------------------------------------------------------

  /** The named keys the keyboard knows, by lowercase name. */
  const NamedKeys: map<string, string> :=
    map["space" := "Space", "ctrl" := "Ctrl", "alt" := "Alt", "shift" := "Shift",
        "enter" := "Enter", "esc" := "Esc", "tab" := "Tab", "backsp" := "Backsp"]

  /** The single characters the keyboard knows. */
  const PlainChars: string := "abcdefghijklmnopqrstuvwxyz0123456789/.,;'[]\\-=`"

  /**
   The `match key.key.to_lowercase()` of `get_highlight_keys`: the keyboard's
   name for a key, or nothing. A key has a name exactly when its lowercase form
   is one of the named keys or one of the known single characters, and the name
   is the key itself up to case.
   */
  function CanonicalKey(key: string): (r: Option<string>)
    ensures r.Some? <==> Lower(key) in NamedKeys || (|key| == 1 && Lower(key)[0] in PlainChars)
    ensures r.Some? ==> Lower(r.value) == Lower(key)
  {
    var lower := Lower(key);
    if lower in NamedKeys then Some(NamedKeys[lower])
    else if |lower| == 1 && lower[0] in PlainChars then Some(lower)
    else None
  }

  /** `get_highlight_keys` after parsing: the keyboard names of the known keys, in order; unknown keys are skipped. */
  function HighlightKeys(keys: seq<KeyPress>): seq<string>
    decreases |keys|
  {
    if keys == [] then []
    else
      var init := HighlightKeys(keys[..|keys| - 1]);
      match CanonicalKey(keys[|keys| - 1].key)
      case Some(name) => init + [name]
      case None => init
  }

  // ---------------------------------------------------------------------------
  // The controller object
  // ---------------------------------------------------------------------------

  class App {
    const commands: seq<Command>
    /** The search engine's fuzzy matcher. */
    const fuzzy: Matcher
    var query: string
    var filteredResults: seq<nat>
    var selectedIndex: nat
    var shouldQuit: bool

    function State(): AppState
      reads this
    {
      AppState(query, filteredResults, selectedIndex, shouldQuit)
    }

    predicate Valid()
      reads this
    {
      Inv(commands, State())
    }

    /** `App::new` */
    constructor (commands: seq<Command>, fuzzy: Matcher)
      ensures this.commands == commands && this.fuzzy == fuzzy
      ensures State() == Initial(commands)
      ensures Valid()
    {
      this.commands := commands;
      this.fuzzy := fuzzy;
      query := [];
      filteredResults := seq(|commands|, i requires 0 <= i < |commands| => i);
      selectedIndex := 0;
      shouldQuit := false;
    }

    /** `update_search`: the list for the current query, first row selected. */
    method UpdateSearch()
      modifies this
      ensures State() == Requery(commands, fuzzy, old(State()), old(query))
      ensures Valid()
    {
      var results := Search.Search(commands, query, fuzzy);
      filteredResults := Indices(results);
      selectedIndex := 0;
      FilterInRange(commands, query, fuzzy);
    }

    /** `selected_command` */
    method SelectedCommand() returns (r: Option<Command>)
      ensures r == SelectedOf(commands, State())
      ensures Valid() ==> (r.Some? <==> filteredResults != [])
    {
      if Valid() {
        SelectedWhenListed(commands, State());
      }
      if selectedIndex < |filteredResults| {
        var idx := filteredResults[selectedIndex];
        if idx < |commands| {
          return Some(commands[idx]);
        }
      }
      return None;
    }

    /**
     `handle_input`, given what the 50 ms poll delivered: `None` when no key
     event arrived.
     */
    method HandleInput(event: Option<KeyEvent>)
      requires Valid()
      modifies this
      ensures event.None? ==> State() == old(State())
      ensures event.Some? ==> State() == Step(commands, fuzzy, old(State()), event.value)
      ensures Valid()
    {
      if event.None? {
        return;
      }
      var key := event.value;
      StepPreservesInv(commands, fuzzy, State(), key);
      match key.code {
        case Esc =>
          if query == [] {
            shouldQuit := true;
          } else {
            query := [];
            UpdateSearch();
          }
        case Char(c) =>
          if c == 'c' && key.ctrl {
            shouldQuit := true;
          } else {
            query := query + [c];
            UpdateSearch();
          }
        case Backspace =>
          if query != [] {
            query := query[..|query| - 1];
          }
          UpdateSearch();
        case Down =>
          SelectNextRow();
        case Tab =>
          SelectNextRow();
        case Up =>
          SelectPreviousRow();
        case BackTab =>
          SelectPreviousRow();
        case Other =>
      }
    }

    method SelectNextRow()
      requires Valid()
      modifies this
      ensures State() == SelectNext(old(State()))
      ensures Valid()
    {
      if |filteredResults| != 0 {
        selectedIndex := (selectedIndex + 1) % |filteredResults|;
      }
    }

    method SelectPreviousRow()
      requires Valid()
      modifies this
      ensures State() == SelectPrevious(old(State()))
      ensures Valid()
    {
      if |filteredResults| != 0 {
        selectedIndex := if selectedIndex == 0 then |filteredResults| - 1 else selectedIndex - 1;
      }
    }

    /** `get_highlight_keys` */
    method GetHighlightKeys(cmd: Command) returns (result: seq<string>)
      ensures result == HighlightKeys(Parse(cmd.keys))
    {
      var keys := ParseKeys(cmd.keys);
      result := [];
      var i := 0;
      while i < |keys|
        invariant 0 <= i <= |keys|
        invariant result == HighlightKeys(keys[..i])
      {
        assert keys[..i + 1][..i] == keys[..i];
        var staticKey := CanonicalKey(keys[i].key);
        i := i + 1;
        if staticKey.None? {
          continue;
        }
        result := result + [staticKey.value];
      }
      assert keys[..i] == keys;
    }
  }

  // ---------------------------------------------------------------------------
  // What the controller promises
  // ---------------------------------------------------------------------------

  /** Every index a search lists names a command. */
  lemma FilterInRange(commands: seq<Command>, query: string, fuzzy: Matcher)
    ensures forall k :: 0 <= k < |Filter(commands, query, fuzzy)| ==> Filter(commands, query, fuzzy)[k] < |commands|
  {
    if query != [] {
      var r := Rank(commands, query, fuzzy);
      RankMatches(commands, query, fuzzy);
      assert forall k :: 0 <= k < |r| ==> r[k] in r;
    }
  }

  /** The initial state satisfies the invariant. */
  lemma InitialInv(commands: seq<Command>)
    ensures Inv(commands, Initial(commands))
  {
  }

  /** Every key event keeps the invariant. */
  lemma StepPreservesInv(commands: seq<Command>, fuzzy: Matcher, s: AppState, ev: KeyEvent)
    requires Inv(commands, s)
    ensures Inv(commands, Step(commands, fuzzy, s, ev))
  {
    match ev.code
    case Esc => FilterInRange(commands, [], fuzzy);
    case Char(c) => FilterInRange(commands, s.query + [c], fuzzy);
    case Backspace => FilterInRange(commands, DropLast(s.query), fuzzy);
    case _ =>
  }

  /** Under the invariant there is a selected command exactly when the list is not empty, and it is the selected row's. */
  lemma SelectedWhenListed(commands: seq<Command>, s: AppState)
    requires Inv(commands, s)
    ensures SelectedOf(commands, s).None? <==> s.selected >= |s.filtered|
    ensures SelectedOf(commands, s).Some? <==> s.filtered != []
    ensures s.filtered != [] ==> SelectedOf(commands, s) == Some(commands[s.filtered[s.selected]])
  {
  }

  /**
   After a new query the first row is selected, and it holds a command with
   the best score: no listed command scores more.
   */
  lemma RequerySelectsBest(commands: seq<Command>, fuzzy: Matcher, s: AppState, query: string)
    requires query != []
    ensures var r := Rank(commands, query, fuzzy);
            r != [] ==> && r[0].index < |commands|
                        && SelectedOf(commands, Requery(commands, fuzzy, s, query)) == Some(commands[r[0].index])
                        && BestScore(commands[r[0].index], Lower(query), fuzzy) == Some(r[0].score)
    ensures var r := Rank(commands, query, fuzzy);
            forall k :: 0 <= k < |r| ==> r[k].score <= r[0].score
    ensures Rank(commands, query, fuzzy) == [] ==> SelectedOf(commands, Requery(commands, fuzzy, s, query)) == None
  {
    var r := Rank(commands, query, fuzzy);
    RankMatches(commands, query, fuzzy);
    RankOrdered(commands, query, fuzzy);
    if r != [] {
      assert r[0] in r;
    }
    forall k | 0 < k < |r|
      ensures r[k].score <= r[0].score
    {
      assert Before(r[0], r[k]);
    }
  }

  /** `Down` then `Up` (and `Up` then `Down`) come back to the same row. */
  lemma NextThenPrevious(s: AppState)
    requires s.selected < |s.filtered|
    ensures SelectPrevious(SelectNext(s)) == s
    ensures SelectNext(SelectPrevious(s)) == s
  {
    var n := |s.filtered|;
    var next := if s.selected + 1 < n then s.selected + 1 else 0;
    var prev := if s.selected == 0 then n - 1 else s.selected - 1;
    WrapForward(s.selected, n);
    WrapForward(prev, n);
    assert SelectNext(s) == s.(selected := next);
    assert SelectPrevious(s) == s.(selected := prev);
  }

  /** Stepping forward on a cycle of `n` rows: the next row, or the first after the last. */
  lemma WrapForward(i: nat, n: nat)
    requires i < n
    ensures (i + 1) % n == if i + 1 < n then i + 1 else 0
  {
  }

  /** Moving the selection changes nothing but the selected row, and `Down` keeps it on a listed row. */
  lemma MovingKeepsQuery(commands: seq<Command>, fuzzy: Matcher, s: AppState, ev: KeyEvent)
    requires ev.code in {KeyCode.Down, KeyCode.Tab, KeyCode.Up, KeyCode.BackTab}
    requires s.selected < |s.filtered| || s.selected == 0
    ensures var t := Step(commands, fuzzy, s, ev);
            t.query == s.query && t.filtered == s.filtered && t.shouldQuit == s.shouldQuit
    ensures var t := Step(commands, fuzzy, s, ev);
            s.filtered != [] ==> t.selected < |s.filtered|
  {
  }

  /** Typing a character and deleting it gives back the query, with the list searched afresh. */
  lemma TypeThenDelete(commands: seq<Command>, fuzzy: Matcher, s: AppState, c: char, ctrl: bool)
    requires !(c == 'c' && ctrl)
    ensures Step(commands, fuzzy, Step(commands, fuzzy, s, KeyEvent(Char(c), ctrl)), KeyEvent(Backspace, false))
            == Requery(commands, fuzzy, s, s.query)
  {
    assert DropLast(s.query + [c]) == s.query;
  }

  /** `Esc` with text clears the query and brings back the initial listing. */
  lemma EscClearsQuery(commands: seq<Command>, fuzzy: Matcher, s: AppState)
    requires s.query != [] && !s.shouldQuit
    ensures Step(commands, fuzzy, s, KeyEvent(Esc, false)) == Initial(commands)
  {
    RankEmptyQuery(commands, fuzzy);
  }

  /** `Esc` with an empty query, or Ctrl-C, quits and changes nothing else; once set, nothing clears the flag. */
  lemma Quitting(commands: seq<Command>, fuzzy: Matcher, s: AppState, ev: KeyEvent)
    ensures s.query == [] && ev.code == Esc ==> Step(commands, fuzzy, s, ev) == s.(shouldQuit := true)
    ensures ev == KeyEvent(Char('c'), true) ==> Step(commands, fuzzy, s, ev) == s.(shouldQuit := true)
    ensures s.shouldQuit ==> Step(commands, fuzzy, s, ev).shouldQuit
  {
  }

  /** The list does not depend on the case of the query. */
  lemma FilterIgnoresCase(commands: seq<Command>, query: string, fuzzy: Matcher)
    ensures Filter(commands, query, fuzzy) == Filter(commands, Lower(query), fuzzy)
  {
    RankIgnoresCase(commands, query, fuzzy);
  }

  /** Every highlighted name is the keyboard's own name for a key of the command, in order, at most one per key. */
  lemma {:induction false} HighlightKeysSound(keys: seq<KeyPress>)
    ensures |HighlightKeys(keys)| <= |keys|
    ensures forall k :: 0 <= k < |HighlightKeys(keys)| ==>
              exists i :: 0 <= i < |keys| && CanonicalKey(keys[i].key) == Some(HighlightKeys(keys)[k])
    ensures forall k :: 0 <= k < |HighlightKeys(keys)| ==> CanonicalKey(HighlightKeys(keys)[k]) == Some(HighlightKeys(keys)[k])
    decreases |keys|
  {
    if keys != [] {
      var init := keys[..|keys| - 1];
      HighlightKeysSound(init);
      assert forall i :: 0 <= i < |init| ==> init[i] == keys[i];
      match CanonicalKey(keys[|keys| - 1].key)
      case Some(name) => CanonicalFixed(keys[|keys| - 1].key);
      case None =>
    }
  }

  /** The keyboard's names are fixed points of the lookup. */
  lemma CanonicalFixed(key: string)
    requires CanonicalKey(key).Some?
    ensures CanonicalKey(CanonicalKey(key).value) == CanonicalKey(key)
  {
    var lower := Lower(key);
    if lower in NamedKeys {
      assert Lower("Space") == "space" && Lower("Ctrl") == "ctrl" && Lower("Alt") == "alt";
      assert Lower("Shift") == "shift" && Lower("Enter") == "enter" && Lower("Esc") == "esc";
      assert Lower("Tab") == "tab" && Lower("Backsp") == "backsp";
    } else {
      LowerIsLowered(key);
    }
  }

  /** Leader and modifier keys of a parsed sequence always reach the keyboard, with the leader and modifier styles. */
  lemma LeaderAndModifiersShown(keys: string)
    ensures var ps := Parse(keys);
            forall i :: 0 <= i < |ps| && ps[i].isLeader ==>
              CanonicalKey(ps[i].key) == Some("Space") && Keyboard.KeyStyle("Space") == Keyboard.Leader
    ensures var ps := Parse(keys);
            forall i :: 0 <= i < |ps| && ps[i].isModifier ==>
              CanonicalKey(ps[i].key) == Some(ps[i].key) && Keyboard.KeyStyle(ps[i].key) == Keyboard.Modifier
  {
    ParseFlags(keys);
    assert Lower("Space") == "space";
    assert Lower("Ctrl") == "ctrl" && Lower("Alt") == "alt" && Lower("Shift") == "shift";
  }

  /** `<leader>ff` lights up Space, f, f. */
  lemma HighlightLeaderFF(keys: string)
    requires keys == "<leader>ff"
    ensures HighlightKeys(Parse(keys)) == ["Space", "f", "f"]
  {
    ParseLeaderFF(keys);
    HighlightSpaceFF();
  }

  lemma HighlightSpaceFF()
    ensures HighlightKeys([KeyPress("Space", false, true), PlainKey('f'), PlainKey('f')]) == ["Space", "f", "f"]
  {
    var space, f := KeyPress("Space", false, true), PlainKey('f');
    CanonicalOf("Space", "Space");
    CanonicalOf("f", "f");
    HighlightKeysSnoc([], space);
    assert [] + [space] == [space];
    HighlightKeysSnoc([space], f);
    assert [space] + [f] == [space, f];
    HighlightKeysSnoc([space, f], f);
    assert [space, f] + [f] == [space, f, f];
  }

  /** `<C-w>v` lights up only v: the chord is not a key the keyboard knows. */
  lemma HighlightCtrlW(keys: string)
    requires keys == "<C-w>v"
    ensures HighlightKeys(Parse(keys)) == ["v"]
  {
    ParseCtrlW(keys);
    var chord, v := KeyPress("C-w", false, false), PlainKey('v');
    CanonicalOf("C-w", "");
    CanonicalOf("v", "v");
    HighlightKeysSnoc([], chord);
    assert [] + [chord] == [chord];
    HighlightKeysSnoc([chord], v);
    assert [chord] + [v] == [chord, v];
  }

  /** The keyboard's name for a few keys; an empty name stands for no name. */
  lemma CanonicalOf(key: string, name: string)
    requires (key, name) in {("Space", "Space"), ("f", "f"), ("v", "v"), ("C-w", "")}
    ensures CanonicalKey(key) == if name == "" then None else Some(name)
  {
    if key == "Space" {
      assert Lower(key) == "space";
    } else if key == "C-w" {
      assert Lower(key) == "c-w";
    } else {
      assert Lower(key) == key;
      assert key[0] in PlainChars;
    }
  }

  lemma HighlightKeysSnoc(keys: seq<KeyPress>, k: KeyPress)
    ensures HighlightKeys(keys + [k]) == HighlightKeys(keys) + (match CanonicalKey(k.key) case Some(n) => [n] case None => [])
  {
    assert (keys + [k])[..|keys|] == keys;
  }

}
