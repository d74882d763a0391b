/** The menu-selection state machine of `capture_keys` and the navigation
    loop of `get_menu_selection`, over a finite stream of key codes (codes as
    `getch` returns them; see `Keys.Read`).

    `maxK` is the index of the last menu entry. Nothing here requires the
    selection to lie in [0, maxK]: the interface keeps the selection between
    menus, so a selection above `maxK` is a state the program can reach. */
module Selection {
  import opened Wrappers
  import opened Keys

  /** What `capture_keys` returns: "up", "down" or "enter". */
  datatype Action = MoveUp | MoveDown | Confirm

  /** The selection after one key, and the action it produced (if any). */
  datatype Reaction = Reaction(sel: int, action: Option<Action>)

  predicate InRange(sel: int, maxK: int)
  {
    0 <= sel <= maxK
  }

  /** One pass through the body of the loop in `capture_keys`. Up at the top
      and Down at `maxK` are clamped: they change nothing and produce no
      action, so `capture_keys` keeps reading. Which key produces which
      action is `StepActions`. */
  function Step(sel: int, maxK: int, code: int): (r: Reaction)
    ensures r.action == Some(MoveUp) ==> r.sel == sel - 1
    ensures r.action == Some(MoveDown) ==> r.sel == sel + 1
    ensures r.action == None || r.action == Some(Confirm) ==> r.sel == sel
    ensures 0 <= sel ==> 0 <= r.sel
    ensures InRange(sel, maxK) ==> InRange(r.sel, maxK)
  {
    match Classify(code)
    case Enter => Reaction(sel, Some(Confirm))
    case Up => if sel == 0 then Reaction(sel, None) else Reaction(sel - 1, Some(MoveUp))
    case Down => if sel == maxK then Reaction(sel, None) else Reaction(sel + 1, Some(MoveDown))
    case Other => Reaction(sel, None)
  }

  /** Enter always confirms; Up moves exactly when the selection is not 0;
      Down moves exactly when the selection is not `maxK`; nothing else
      produces an action. */
  lemma StepActions(sel: int, maxK: int, code: int)
    ensures Step(sel, maxK, code).action == Some(Confirm) <==> code == ENTER
    ensures Step(sel, maxK, code).action == Some(MoveUp) <==> code == UP && sel != 0
    ensures Step(sel, maxK, code).action == Some(MoveDown) <==> code == DOWN && sel != maxK
    ensures Step(sel, maxK, code).action == None <==>
      (code != ENTER && code != UP && code != DOWN) || (code == UP && sel == 0) || (code == DOWN && sel == maxK)
  {
  }

  /** Result of one call of `capture_keys`: it returned an action after
      consuming a prefix of the stream, or the stream ran out while it was
      still reading (the call would block). */
  datatype Capture =
    | Returned(sel: int, action: Action, rest: seq<int>)
    | Blocked(sel: int)

  /** `capture_keys`: reads codes until one of them produces an action. The
      key it returns on is the first key that did anything; the keys before
      it changed nothing. */
  function CaptureKeys(sel: int, maxK: int, codes: seq<int>): (c: Capture)
    decreases |codes|
    ensures c.Blocked? ==> c.sel == sel
    ensures c.Returned? ==> |c.rest| < |codes| && c.rest == codes[|codes| - |c.rest|..]
    ensures c.Returned? ==>
      Step(sel, maxK, codes[|codes| - |c.rest| - 1]) == Reaction(c.sel, Some(c.action))
    ensures 0 <= sel ==> 0 <= c.sel
    ensures InRange(sel, maxK) ==> InRange(c.sel, maxK)
  {
    if |codes| == 0 then Blocked(sel)
    else
      var r := Step(sel, maxK, codes[0]);
      match r.action
      case Some(a) => Returned(r.sel, a, codes[1..])
      case None => CaptureKeys(sel, maxK, codes[1..])
  }

  /** The key `capture_keys` returns on is the first key that did anything:
      every key it read before that one changed nothing, and so did every key
      of a stream it ran out of. */
  lemma {:induction false} CaptureKeysSkipsInertKeys(sel: int, maxK: int, codes: seq<int>)
    ensures var c := CaptureKeys(sel, maxK, codes);
      c.Blocked? ==> forall i :: 0 <= i < |codes| ==> Step(sel, maxK, codes[i]).action == None
    ensures var c := CaptureKeys(sel, maxK, codes);
      c.Returned? ==> forall i :: 0 <= i < |codes| - |c.rest| - 1 ==> Step(sel, maxK, codes[i]).action == None
    decreases |codes|
  {
    if |codes| > 0 && Step(sel, maxK, codes[0]).action == None {
      CaptureKeysSkipsInertKeys(sel, maxK, codes[1..]);
      assert forall i :: 0 < i < |codes| ==> codes[i] == codes[1..][i - 1];
    }
  }

  /** Two selections one step apart. */
  predicate Adjacent(a: int, b: int)
  {
    a - b == 1 || b - a == 1
  }

  /** `moves` is a walk from `sel` in single steps. */
  predicate Walk(sel: int, moves: seq<int>)
    decreases |moves|
  {
    |moves| == 0 || (Adjacent(sel, moves[0]) && Walk(moves[0], moves[1..]))
  }

  /** Where the navigation loop stands when the stream is consumed:
      `confirmed` if Enter was read, the selection, and the selection at each
      redraw that followed an "up" or "down". */
  datatype Nav = Nav(confirmed: bool, sel: int, moves: seq<int>)

  /** The loop of `get_menu_selection`: call `capture_keys` until it returns
      "enter"; every "up" or "down" triggers a redraw. */
  function Navigate(sel: int, maxK: int, codes: seq<int>): (n: Nav)
    decreases |codes|
    ensures 0 <= sel ==> 0 <= n.sel
    ensures InRange(sel, maxK) ==>
      InRange(n.sel, maxK) && forall x :: x in n.moves ==> InRange(x, maxK)
  {
    match CaptureKeys(sel, maxK, codes)
    case Blocked(s) => Nav(false, s, [])
    case Returned(s, a, rest) =>
      if a == Confirm then Nav(true, s, [])
      else
        var n := Navigate(s, maxK, rest);
        Nav(n.confirmed, n.sel, [s] + n.moves)
  }

  // ---------------------------------------------------------------------
  // Reference definitions: the keys one at a time.

  /** The keys one at a time: stop at the first Enter, redraw after every
      key that moved the cursor. */
  function Replay(sel: int, maxK: int, codes: seq<int>): Nav
    decreases |codes|
  {
    if |codes| == 0 then Nav(false, sel, [])
    else
      var r := Step(sel, maxK, codes[0]);
      if r.action == Some(Confirm) then Nav(true, sel, [])
      else
        var n := Replay(r.sel, maxK, codes[1..]);
        Nav(n.confirmed, n.sel, (if r.action.Some? then [r.sel] else []) + n.moves)
  }

  /** Index of the first Enter in `codes`, or `|codes|` if there is none. */
  function EnterIndex(codes: seq<int>): (e: nat)
    ensures e <= |codes|
    ensures e < |codes| ==> codes[e] == ENTER
    ensures forall j :: 0 <= j < e ==> codes[j] != ENTER
  {
    if |codes| == 0 then 0
    else if codes[0] == ENTER then 0
    else 1 + EnterIndex(codes[1..])
  }

  /** The selection after applying every code in order. */
  function ApplyMoves(sel: int, maxK: int, codes: seq<int>): int
    decreases |codes|
  {
    if |codes| == 0 then sel
    else ApplyMoves(Step(sel, maxK, codes[0]).sel, maxK, codes[1..])
  }

  /** The loop of `get_menu_selection` over `capture_keys` is the key-by-key
      replay: grouping the keys by the call of `capture_keys` that read them
      changes nothing. */
  lemma {:induction false} NavigateIsReplay(sel: int, maxK: int, codes: seq<int>)
    ensures Navigate(sel, maxK, codes) == Replay(sel, maxK, codes)
    decreases |codes|
  {
    if |codes| > 0 {
      var r := Step(sel, maxK, codes[0]);
      if r.action == None {
        SkippedKeyUnfolds(sel, maxK, codes);
        NavigateIsReplay(sel, maxK, codes[1..]);
      } else if r.action == Some(Confirm) {
        ConfirmKeyUnfolds(sel, maxK, codes);
      } else {
        MovingKeyUnfolds(sel, maxK, codes);
        NavigateIsReplay(r.sel, maxK, codes[1..]);
      }
    }
  }

  /** A first key that does nothing is simply dropped by both loops. */
  lemma SkippedKeyUnfolds(sel: int, maxK: int, codes: seq<int>)
    requires |codes| > 0 && Step(sel, maxK, codes[0]).action == None
    ensures Navigate(sel, maxK, codes) == Navigate(sel, maxK, codes[1..])
    ensures Replay(sel, maxK, codes) == Replay(sel, maxK, codes[1..])
  {
    assert CaptureKeys(sel, maxK, codes) == CaptureKeys(sel, maxK, codes[1..]);
  }

  /** A first key that is Enter ends both loops at once. */
  lemma ConfirmKeyUnfolds(sel: int, maxK: int, codes: seq<int>)
    requires |codes| > 0 && Step(sel, maxK, codes[0]).action == Some(Confirm)
    ensures Navigate(sel, maxK, codes) == Nav(true, sel, [])
    ensures Replay(sel, maxK, codes) == Nav(true, sel, [])
  {
    assert CaptureKeys(sel, maxK, codes) == Returned(sel, Confirm, codes[1..]);
  }

  /** A first key that moves the cursor is one redraw in both loops, which
      then go on with the rest of the stream. */
  lemma MovingKeyUnfolds(sel: int, maxK: int, codes: seq<int>)
    requires |codes| > 0
    requires Step(sel, maxK, codes[0]).action.Some?
    requires Step(sel, maxK, codes[0]).action != Some(Confirm)
    ensures var s := Step(sel, maxK, codes[0]).sel;
      var n := Navigate(s, maxK, codes[1..]);
      Navigate(sel, maxK, codes) == Nav(n.confirmed, n.sel, [s] + n.moves)
    ensures var s := Step(sel, maxK, codes[0]).sel;
      var n := Replay(s, maxK, codes[1..]);
      Replay(sel, maxK, codes) == Nav(n.confirmed, n.sel, [s] + n.moves)
  {
    var r := Step(sel, maxK, codes[0]);
    assert CaptureKeys(sel, maxK, codes) == Returned(r.sel, r.action.value, codes[1..]);
  }

  /** Each redraw of the loop shows the cursor one step from the previous
      screen, at most one redraw happens per key, and the loop ends at the
      selection of the last redraw. */
  lemma {:induction false} ReplayRedrawsEachStep(sel: int, maxK: int, codes: seq<int>)
    ensures var n := Replay(sel, maxK, codes);
      && Walk(sel, n.moves)
      && |n.moves| <= |codes|
      && n.sel == (if |n.moves| == 0 then sel else n.moves[|n.moves| - 1])
    decreases |codes|
  {
    if |codes| > 0 {
      var r := Step(sel, maxK, codes[0]);
      if r.action != Some(Confirm) {
        ReplayRedrawsEachStep(r.sel, maxK, codes[1..]);
        var n := Replay(r.sel, maxK, codes[1..]);
        if r.action.Some? {
          assert Adjacent(sel, r.sel);
          assert ([r.sel] + n.moves)[1..] == n.moves;
        } else {
          assert [] + n.moves == n.moves;
        }
      }
    }
  }

  /** The replay confirms exactly when the stream holds an Enter, and ends at
      the selection the keys before the first Enter produce. */
  lemma {:induction false} ReplayIsFoldToFirstEnter(sel: int, maxK: int, codes: seq<int>)
    ensures Replay(sel, maxK, codes).confirmed <==> EnterIndex(codes) < |codes|
    ensures Replay(sel, maxK, codes).sel == ApplyMoves(sel, maxK, codes[..EnterIndex(codes)])
    decreases |codes|
  {
    if |codes| > 0 && codes[0] != ENTER {
      var e := EnterIndex(codes);
      ReplayIsFoldToFirstEnter(Step(sel, maxK, codes[0]).sel, maxK, codes[1..]);
      assert codes[..e][0] == codes[0];
      assert codes[..e][1..] == codes[1..][..e - 1];
    }
  }

  /** The navigation loop ends exactly when an Enter is read, at the
      selection the moves before the first Enter produce. */
  lemma NavigateIsFoldToFirstEnter(sel: int, maxK: int, codes: seq<int>)
    ensures Navigate(sel, maxK, codes).confirmed <==> EnterIndex(codes) < |codes|
    ensures Navigate(sel, maxK, codes).sel == ApplyMoves(sel, maxK, codes[..EnterIndex(codes)])
  {
    NavigateIsReplay(sel, maxK, codes);
    ReplayIsFoldToFirstEnter(sel, maxK, codes);
  }

  /** The selection stays in [0, maxK] under every stream of codes. */
  lemma {:induction false} ApplyMovesInRange(sel: int, maxK: int, codes: seq<int>)
    requires InRange(sel, maxK)
    ensures InRange(ApplyMoves(sel, maxK, codes), maxK)
    decreases |codes|
  {
    if |codes| > 0 {
      ApplyMovesInRange(Step(sel, maxK, codes[0]).sel, maxK, codes[1..]);
    }
  }

  /** Codes other than Enter, Up and Down never change the selection, end
      the loop or cause a redraw. */
  lemma {:induction false} OtherCodesInert(sel: int, maxK: int, codes: seq<int>)
    requires forall i :: 0 <= i < |codes| ==> Classify(codes[i]) == Other
    ensures ApplyMoves(sel, maxK, codes) == sel
    ensures Replay(sel, maxK, codes) == Nav(false, sel, [])
    decreases |codes|
  {
    if |codes| > 0 {
      OtherCodesInert(sel, maxK, codes[1..]);
    }
  }

  /** Up at the top and Down at the bottom are clamped no-ops, and every
      other arrow moves by exactly one, from any selection (a stale one
      included) of a menu of any size. */
  lemma ClampedMovesAreNoOps(sel: int, maxK: int)
    ensures sel == 0 ==> Step(sel, maxK, UP) == Reaction(sel, None)
    ensures sel == maxK ==> Step(sel, maxK, DOWN) == Reaction(sel, None)
    ensures sel != 0 ==> Step(sel, maxK, UP) == Reaction(sel - 1, Some(MoveUp))
    ensures sel != maxK ==> Step(sel, maxK, DOWN) == Reaction(sel + 1, Some(MoveDown))
    ensures Step(sel, maxK, ENTER) == Reaction(sel, Some(Confirm))
  {
  }

  /** Down tests `sel == maxK`, not `sel >= maxK`: a selection already past
      the last entry is pushed further out, never back in. */
  lemma {:induction false} DownPastEndRunsAway(sel: int, maxK: int, n: nat)
    requires sel > maxK
    ensures ApplyMoves(sel, maxK, seq(n, _ => DOWN)) == sel + n
    decreases n
  {
    if n > 0 {
      var downs := seq(n, _ => DOWN);
      assert downs[1..] == seq(n - 1, _ => DOWN);
      DownPastEndRunsAway(sel + 1, maxK, n - 1);
    }
  }

  /** Three entries, from the top: Down, Down, Enter confirms the third
      after redraws at the second and the third. */
  lemma ExampleThreeEntries()
    ensures Navigate(0, 2, [DOWN, DOWN, ENTER]) == Nav(true, 2, [1, 2])
  {
    var codes := [DOWN, DOWN, ENTER];
    NavigateIsReplay(0, 2, codes);
    assert codes[1..] == [DOWN, ENTER] && codes[1..][1..] == [ENTER];
    assert Replay(2, 2, [ENTER]) == Nav(true, 2, []);
    assert Replay(1, 2, [DOWN, ENTER]) == Nav(true, 2, [2]);
  }

  /** A single entry: Up and Down are both clamped, Enter confirms entry 0
      without any redraw. */
  lemma ExampleSingleEntry()
    ensures Navigate(0, 0, [UP, DOWN, ENTER]) == Nav(true, 0, [])
  {
    var codes := [UP, DOWN, ENTER];
    NavigateIsReplay(0, 0, codes);
    assert codes[1..] == [DOWN, ENTER] && codes[1..][1..] == [ENTER];
    assert Replay(0, 0, [ENTER]) == Nav(true, 0, []);
    assert Replay(0, 0, [DOWN, ENTER]) == Nav(true, 0, []);
  }

  /** An empty menu is not rejected: `maxK` is -1, Down is never clamped,
      and Enter confirms an index that names no entry. */
  lemma ExampleEmptyMenu()
    ensures Navigate(0, -1, [DOWN, DOWN, ENTER]) == Nav(true, 2, [1, 2])
  {
    var codes := [DOWN, DOWN, ENTER];
    NavigateIsReplay(0, -1, codes);
    assert codes[1..] == [DOWN, ENTER] && codes[1..][1..] == [ENTER];
    assert Replay(2, -1, [ENTER]) == Nav(true, 2, []);
    assert Replay(1, -1, [DOWN, ENTER]) == Nav(true, 2, [2]);
  }

  /** The POSIX byte sequence of an arrow key and the Windows one move the
      selection alike, from every state. */
  lemma ArrowSequencesAgree(sel: int, maxK: int)
    ensures ApplyMoves(sel, maxK, Read(Posix, [ESC, BRACKET, POSIX_UP]))
         == ApplyMoves(sel, maxK, Read(Windows, [WIN_ARROW_PREFIX, UP]))
    ensures ApplyMoves(sel, maxK, Read(Posix, [ESC, BRACKET, POSIX_DOWN]))
         == ApplyMoves(sel, maxK, Read(Windows, [WIN_ARROW_PREFIX, DOWN]))
  {
    ArrowSequenceAgrees(sel, maxK, POSIX_UP, UP);
    ArrowSequenceAgrees(sel, maxK, POSIX_DOWN, DOWN);
  }

  /** One arrow key: the three POSIX bytes and the two Windows bytes. */
  lemma ArrowSequenceAgrees(sel: int, maxK: int, last: int, code: int)
    requires Normalize(last) == code
    ensures ApplyMoves(sel, maxK, Read(Posix, [ESC, BRACKET, last]))
         == ApplyMoves(sel, maxK, Read(Windows, [WIN_ARROW_PREFIX, code]))
  {
    var posix := Read(Posix, [ESC, BRACKET, last]);
    var windows := Read(Windows, [WIN_ARROW_PREFIX, code]);
    assert posix == [ESC, BRACKET, code];
    assert windows == [WIN_ARROW_PREFIX, code];
    assert posix[1..] == [BRACKET, code] && posix[1..][1..] == [code];
    assert windows[1..] == [code];
  }
}
