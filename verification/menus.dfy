/** The `Ui` object's menus. Its one piece of state is `selection`, set to 0
    when the object is created and reset only by `check_player_data`; every
    other menu starts navigating from wherever the last one left it. */
module Menus {
  import opened Wrappers
  import opened Keys
  import opened Selection
  import Render

  /** The state of a `Ui` object. The selection starts at 0 and Up stops at
      0, so it is never negative. */
  datatype Ui = Ui(selection: nat)

  /** A freshly constructed `Ui`. */
  const INITIAL: Ui := Ui(0)

  const MAIN_MENU: seq<string> := ["Import rooms from file", "Import sample rooms", "Quit"]
  /** Sentinel entry appended by `import_file`. */
  const RETURN_ENTRY: string := "Return to main menu"
  /** Sentinel entry appended by `check_player_data`. */
  const NEW_PLAYER_ENTRY: string := "Continue as new player"
  /** Tag of the `check_player_data` result for a new player. */
  const NEW_TAG: string := "New"

  /** A menu call either returned a value or was still reading keys when the
      stream ended. */
  datatype Outcome<T> = Pending | Done(value: T)

  /** The state after a menu call, the option list it navigated (the
      caller's list with any sentinel appended), and what it returned. */
  datatype Session<T> = Session(ui: Ui, menu: seq<string>, outcome: Outcome<T>)

  /** What `import_file` returns: -1 for the sentinel, else the chosen file.
      A stale selection past the end of the list makes the indexing fail. */
  datatype FileChoice = ReturnToMain | File(name: string) | IndexError

  /** What `check_player_data` returns: the pair [tag, name]. */
  datatype PlayerChoice = PlayerChoice(tag: string, name: string)

  /** One menu screen for each selection in `frames`. */
  function Screens(menu: seq<string>, frames: seq<int>): (screens: seq<seq<string>>)
    ensures |screens| == |frames|
  {
    seq(|frames|, i requires 0 <= i < |frames| => Render.PrintOptions(menu, frames[i]))
  }

  lemma ScreensAppend(menu: seq<string>, a: seq<int>, b: seq<int>)
    ensures Screens(menu, a + b) == Screens(menu, a) + Screens(menu, b)
  {
  }

  /** A replay continued after some redraws: the redraws `moves` already
      made, followed by those of the replay `n` of the rest of the stream. */
  function Resume(moves: seq<int>, n: Nav): Nav
  {
    Nav(n.confirmed, n.sel, moves + n.moves)
  }

  /** Reading one more key that is not Enter moves the split point by one. */
  lemma ReplayAdvance(sel: int, maxK: int, codes: seq<int>, i: nat, moves: seq<int>)
    requires i < |codes| && codes[i] != ENTER
    ensures var r := Step(sel, maxK, codes[i]);
      Resume(moves, Replay(sel, maxK, codes[i..]))
      == Resume(moves + (if r.action.Some? then [r.sel] else []), Replay(r.sel, maxK, codes[i + 1..]))
  {
    assert codes[i..][0] == codes[i];
    assert codes[i..][1..] == codes[i + 1..];
    var r := Step(sel, maxK, codes[i]);
    var extra := if r.action.Some? then [r.sel] else [];
    var n := Replay(r.sel, maxK, codes[i + 1..]);
    assert moves + (extra + n.moves) == (moves + extra) + n.moves;
  }

  /** The replay from an Enter, or from the end of the stream. */
  lemma ReplayStops(sel: int, maxK: int, codes: seq<int>, i: nat)
    requires i <= |codes|
    requires i < |codes| ==> codes[i] == ENTER
    ensures Replay(sel, maxK, codes[i..]) == Nav(i < |codes|, sel, [])
  {
    if i < |codes| {
      assert codes[i..][0] == codes[i];
    } else {
      assert codes[i..] == [];
    }
  }

  /** `get_menu_selection`: draw the menu, then read keys one at a time,
      redrawing after every move, until Enter. Returns the new state, whether
      Enter was read, and every screen drawn. */
  method GetMenuSelection(ui: Ui, menu: seq<string>, p: Platform, bytes: seq<int>)
    returns (next: Ui, confirmed: bool, screens: seq<seq<string>>)
    ensures var n := Replay(ui.selection, |menu| - 1, Read(p, bytes));
      && confirmed == n.confirmed
      && next.selection == n.sel
      && screens == Screens(menu, [ui.selection] + n.moves)
    ensures var codes := Read(p, bytes);
      && (confirmed <==> EnterIndex(codes) < |codes|)
      && next.selection == ApplyMoves(ui.selection, |menu| - 1, codes[..EnterIndex(codes)])
    ensures ui.selection < |menu| ==> next.selection < |menu|
  {
    var codes := Read(p, bytes);
    next, confirmed, screens := MenuLoop(ui, menu, codes);
    ReplayIsFoldToFirstEnter(ui.selection, |menu| - 1, codes);
  }

  /** The loop of `get_menu_selection` over the codes `getch` returned. */
  method MenuLoop(ui: Ui, menu: seq<string>, codes: seq<int>)
    returns (next: Ui, confirmed: bool, screens: seq<seq<string>>)
    ensures var n := Replay(ui.selection, |menu| - 1, codes);
      && confirmed == n.confirmed
      && next.selection == n.sel
      && screens == Screens(menu, [ui.selection] + n.moves)
    ensures ui.selection < |menu| ==> next.selection < |menu|
  {
    var maxK := |menu| - 1;
    var sel: nat := ui.selection;
    var moves: seq<int> := [];
    screens := [Render.PrintOptions(menu, sel)];
    var i := 0;
    assert codes[0..] == codes;
    while i < |codes| && codes[i] != ENTER
      invariant 0 <= i <= |codes|
      invariant Replay(ui.selection, maxK, codes) == Resume(moves, Replay(sel, maxK, codes[i..]))
      invariant screens == Screens(menu, [ui.selection] + moves)
      invariant ui.selection < |menu| ==> sel < |menu|
    {
      var r := Step(sel, maxK, codes[i]);
      ReplayAdvance(sel, maxK, codes, i, moves);
      var redraw := if r.action.Some? then [r.sel] else [];
      ScreensAppend(menu, [ui.selection] + moves, redraw);
      assert [ui.selection] + moves + redraw == [ui.selection] + (moves + redraw);
      moves := moves + redraw;
      screens := screens + Screens(menu, redraw);
      sel := r.sel;
      i := i + 1;
    }
    ReplayStops(sel, maxK, codes, i);
    assert moves + [] == moves;
    confirmed := i < |codes|;
    next := Ui(sel);
  }

  /** `show_menu`: navigate the main menu from the current selection and
      return the selection. */
  function ShowMenu(ui: Ui, p: Platform, bytes: seq<int>): (s: Session<nat>)
    ensures var codes := Read(p, bytes);
      var e := EnterIndex(codes);
      && s.menu == MAIN_MENU
      && (s.outcome.Done? <==> e < |codes|)
      && (s.outcome.Done? ==> s.outcome.value == s.ui.selection)
      && s.ui.selection == ApplyMoves(ui.selection, |MAIN_MENU| - 1, codes[..e])
    ensures ui.selection < |MAIN_MENU| ==> s.ui.selection < |MAIN_MENU|
  {
    var n := Navigate(ui.selection, |MAIN_MENU| - 1, Read(p, bytes));
    NavigateIsFoldToFirstEnter(ui.selection, |MAIN_MENU| - 1, Read(p, bytes));
    Session(Ui(n.sel), MAIN_MENU, if n.confirmed then Done(n.sel) else Pending)
  }

  /** The result of `import_file` once navigation has ended at `n`. */
  function FileOutcome(files: seq<string>, n: Nav): (o: Outcome<FileChoice>)
    requires 0 <= n.sel
    ensures o.Done? <==> n.confirmed
    ensures o == Done(ReturnToMain) <==> n.confirmed && n.sel == |files|
    ensures o.Done? && o.value.File? ==> n.sel < |files| && o.value.name == files[n.sel]
    ensures o == Done(IndexError) <==> n.confirmed && n.sel > |files|
  {
    if !n.confirmed then Pending
    else if n.sel == |files| then Done(ReturnToMain)
    else if n.sel < |files| then Done(File(files[n.sel]))
    else Done(IndexError)
  }

  /** `import_file`: append the return sentinel, navigate from the current
      selection, and map the sentinel's index to `ReturnToMain` and any
      other index to that file. */
  function ImportFile(ui: Ui, files: seq<string>, p: Platform, bytes: seq<int>): (s: Session<FileChoice>)
    ensures |s.menu| == |files| + 1 && s.menu[..|files|] == files && s.menu[|files|] == RETURN_ENTRY
    ensures s.outcome.Done? <==> EnterIndex(Read(p, bytes)) < |bytes|
    ensures s.ui.selection == ApplyMoves(ui.selection, |files|, Read(p, bytes)[..EnterIndex(Read(p, bytes))])
    ensures s.outcome == Done(ReturnToMain) <==> s.outcome.Done? && s.ui.selection == |files|
    ensures s.outcome.Done? && s.outcome.value.File? ==>
      s.ui.selection < |files| && s.outcome.value.name == files[s.ui.selection]
    ensures s.outcome == Done(IndexError) <==> s.outcome.Done? && s.ui.selection > |files|
    ensures ui.selection <= |files| ==> s.ui.selection <= |files| && s.outcome != Done(IndexError)
  {
    var menu := files + [RETURN_ENTRY];
    var codes := Read(p, bytes);
    var n := Navigate(ui.selection, |files|, codes);
    NavigateIsFoldToFirstEnter(ui.selection, |files|, codes);
    assert menu[..|files|] == files;
    Session(Ui(n.sel), menu, FileOutcome(files, n))
  }

  /** The result of `check_player_data` once navigation has ended at `n`. */
  function PlayerOutcome(players: seq<string>, typedName: string, n: Nav): (o: Outcome<PlayerChoice>)
    requires 0 <= n.sel <= |players|
    ensures o.Done? <==> n.confirmed
    ensures o.Done? ==> (o.value.tag == NEW_TAG <==> n.sel == |players|)
    ensures o.Done? && n.sel == |players| ==> o.value == PlayerChoice(NEW_TAG, typedName)
    ensures o.Done? && n.sel < |players| ==> o.value == PlayerChoice("", players[n.sel])
  {
    if !n.confirmed then Pending
    else if n.sel == |players| then Done(PlayerChoice(NEW_TAG, typedName))
    else Done(PlayerChoice("", players[n.sel]))
  }

  /** `check_player_data`: reset the selection, append the new-player
      sentinel, navigate, and map the sentinel's index to a new player with
      the typed name and any other index to that player. */
  function CheckPlayerData(ui: Ui, players: seq<string>, typedName: string, p: Platform, bytes: seq<int>)
    : (s: Session<PlayerChoice>)
    ensures |s.menu| == |players| + 1 && s.menu[..|players|] == players
    ensures s.menu[|players|] == NEW_PLAYER_ENTRY
    ensures s.outcome.Done? <==> EnterIndex(Read(p, bytes)) < |bytes|
    ensures s.ui.selection == ApplyMoves(0, |players|, Read(p, bytes)[..EnterIndex(Read(p, bytes))])
    ensures s.ui.selection <= |players|
    ensures s.outcome.Done? ==>
      (s.outcome.value.tag == NEW_TAG <==> s.ui.selection == |players|)
    ensures s.outcome.Done? && s.ui.selection == |players| ==>
      s.outcome.value == PlayerChoice(NEW_TAG, typedName)
    ensures s.outcome.Done? && s.ui.selection < |players| ==>
      s.outcome.value == PlayerChoice("", players[s.ui.selection])
  {
    var menu := players + [NEW_PLAYER_ENTRY];
    var codes := Read(p, bytes);
    var n := Navigate(0, |players|, codes);
    NavigateIsFoldToFirstEnter(0, |players|, codes);
    assert menu[..|players|] == players;
    Session(Ui(n.sel), menu, PlayerOutcome(players, typedName, n))
  }

  /** `check_player_data` does not depend on the selection left by earlier
      menus. */
  lemma CheckPlayerDataIgnoresStaleSelection(
    a: Ui, b: Ui, players: seq<string>, typedName: string, p: Platform, bytes: seq<int>)
    ensures CheckPlayerData(a, players, typedName, p, bytes)
         == CheckPlayerData(b, players, typedName, p, bytes)
  {
  }

  /** Choosing the return sentinel of a four-file import leaves the selection
      at 4; the main menu shown next has three entries and, on Enter alone,
      returns that stale 4. An import from an empty list that starts there
      fails on the indexing. */
  lemma StaleSelectionScenario(files: seq<string>)
    requires |files| == 4
    ensures ImportFile(INITIAL, files, Windows, [DOWN, DOWN, DOWN, DOWN, ENTER])
         == Session(Ui(4), files + [RETURN_ENTRY], Done(ReturnToMain))
    ensures ShowMenu(Ui(4), Windows, [ENTER]).outcome == Done(4)
    ensures ImportFile(Ui(4), [], Windows, [ENTER]).outcome == Done(IndexError)
  {
    var keys := [DOWN, DOWN, DOWN, DOWN, ENTER];
    assert Read(Windows, keys) == keys;
    assert forall j :: 0 <= j < 4 ==> keys[j] == DOWN;
    assert keys[4] == ENTER;
    assert EnterIndex(keys) == 4;
    assert keys[..4] == [DOWN, DOWN, DOWN, DOWN];
    assert ApplyMoves(4, 4, []) == 4;
    assert ApplyMoves(3, 4, [DOWN]) == 4;
    assert ApplyMoves(2, 4, [DOWN, DOWN]) == 4 by { assert [DOWN, DOWN][1..] == [DOWN]; }
    assert ApplyMoves(1, 4, [DOWN, DOWN, DOWN]) == 4 by { assert [DOWN, DOWN, DOWN][1..] == [DOWN, DOWN]; }
    assert ApplyMoves(0, 4, [DOWN, DOWN, DOWN, DOWN]) == 4 by {
      assert [DOWN, DOWN, DOWN, DOWN][1..] == [DOWN, DOWN, DOWN];
    }
    assert Read(Windows, [ENTER]) == [ENTER];
    assert EnterIndex([ENTER]) == 0;
    assert [ENTER][..0] == [];
  }
}
