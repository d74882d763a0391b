# Menu selection and text output of a terminal narrative game

A Dafny model of the `Ui` class in `ui.py`. This class draws a text menu, lets
the player move a highlighted cursor with the arrow keys, and confirms the
choice with Enter. It also prints narrative text one character at a time.

The keystroke stream is an input: a finite sequence of integer codes, one code
per read from the terminal. On Windows a code is a byte. On POSIX a code is a
character's code point, because `sys.stdin.read` decodes what it reads. The model has five modules.

- `Keys` (`keys.dfy`) covers the tail of `getch`. On POSIX it rewrites the final
  character of an arrow sequence (`A` = 65, `B` = 66) to the Windows scan codes
  (72, 80). It also has the three-way classification of `capture_keys`: 13 is
  Enter, 72 is Up, 80 is Down, and everything else is skipped.
- `Selection` (`selection.dfy`) holds the clamped step `Step`. `CaptureKeys`
  reads keys until one of them does something. `Navigate` is the loop of
  `get_menu_selection`, which calls `CaptureKeys` until Enter. There are two
  reference definitions. `Replay` takes the keys one at a time and stops at the
  first Enter. `ApplyMoves` folds the keys before the first Enter (found by
  `EnterIndex`).
- `Render` (`render.dfy`) covers the screen drawn by `print_options` and a
  reader that recovers the options and the highlighted line from it. It also
  covers the event sequence of `print_text`.
- `Menus` (`menus.dfy`) models the object's one piece of state, `selection`.
  It has a loop implementation of `get_menu_selection` that also returns every
  screen it draws. It also models `show_menu`, `import_file` and
  `check_player_data`.
- `Colours` and `Wrappers` hold the style constants and an `Option` type.

Behaviour of the code that the model keeps on purpose:

- Selection carries over between menus. It is reset only by
  `check_player_data`, so `show_menu` and `import_file` start from wherever the
  previous menu left off.
- The Down clamp tests `selection == max_k`. A selection that is already past
  the last entry moves further out on Down (`DownPastEndRunsAway`). After the
  return sentinel of a long file list, the main menu can return an index it
  does not have, and a later `import_file` can index past its list
  (`StaleSelectionScenario`).
- An empty option list is not rejected. `max_k` is then -1, so Down is never
  clamped (`ExampleEmptyMenu`). The code has no check for an empty option list.
- On POSIX the rewrite looks at single characters. So the plain letters `A` and `H`
  move up, and `B` and `P` move down (`PosixLettersMove`). The ESC and `[`
  characters of an arrow sequence are skipped like any other unknown key.

## Model

| member | source | states |
|---|---|---|
| Keys.Normalize | ui.py:174-178 | On POSIX, 65 becomes the Up code and 66 the Down code. Every other code passes through unchanged. No output is ever 65 or 66. |
| Keys.Getch | ui.py:159-178 | A read gives Enter exactly when it is 13 on either platform. It gives Up exactly when it is 72, or on POSIX also 65 ('A'). It gives Down exactly when it is 80, or on POSIX also 66 ('B'). |
| Keys.Read | ui.py:124 | The repeated `getch` calls of `capture_keys` produce exactly one code per read, in order. |
| Keys.Classify | ui.py:127-144 | A code is Enter, Up or Down exactly when it is 13, 72 or 80. Every other code is skipped. |
| Keys.PlatformsAgree | ui.py:173-178 | The POSIX arrow characters and the Windows arrow codes give the same Up and Down keys. Enter is 13 on both platforms. |
| Keys.PlatformsDifferOnlyOnArrowLetters | ui.py:159-178 | The two platforms return different codes exactly for 65 and 66, and classify them differently exactly then. Every other read reaches the menu unchanged, as the code read, on both platforms. |
| Keys.PosixLettersMove | ui.py:170-178 | On POSIX, the letters A and H classify as Up, and B and P classify as Down. |
| Keys.PrefixBytesSkipped | ui.py:127-144 | The ESC and `[` characters and the Windows arrow prefix byte are all skipped, on both platforms. |
| Selection.Step | ui.py:127-144 | A returned "up" lowers the selection by exactly 1 and a returned "down" raises it by exactly 1. "Enter" or no action leaves it unchanged. The step never makes the selection negative and keeps it in [0, max_k]. |
| Selection.StepActions | ui.py:127-144 | Both directions hold for each case. Code 13 returns "enter" whatever the selection. Up returns "up" exactly when the selection is not 0. Down returns "down" exactly when the selection differs from max_k. Everything else, including a clamped move, returns nothing. |
| Selection.CaptureKeys | ui.py:121-144 | If the stream runs out first, the selection is unchanged. Otherwise the call returns with the action and the selection of the key it stopped on, and the remaining keys form a shorter suffix of the stream. The range is preserved. |
| Selection.CaptureKeysSkipsInertKeys | ui.py:122-144 | Every key read before the returning one produced no action. If the stream runs out, no key in it produced an action. |
| Selection.Navigate | ui.py:84-90 | From a non-negative selection the result is non-negative. From an in-range selection the final selection and every redrawn selection stay in [0, max_k]. |
| Selection.EnterIndex | ui.py:85-90 | Gives the position of the first Enter, or the stream length if there is no Enter. |
| Selection.NavigateIsReplay | ui.py:84-144 | The loop of `get_menu_selection` over `capture_keys` gives exactly the key-by-key replay: same confirmation, same final selection, same redraws. |
| Selection.ReplayRedrawsEachStep | ui.py:84-90 | Each redraw shows the cursor exactly one step from the previous screen. There is at most one redraw per key, and the loop ends at the selection of the last redraw. |
| Selection.ReplayIsFoldToFirstEnter | ui.py:84-90 | The loop confirms exactly when the stream holds an Enter. It ends at the selection produced by applying the keys in order up to the first Enter. |
| Selection.NavigateIsFoldToFirstEnter | ui.py:84-90 | The same two facts, stated for the loop over `capture_keys`. |
| Selection.ApplyMovesInRange | ui.py:121-144 | From an in-range start, no sequence of keys moves the selection out of [0, max_k]. |
| Selection.OtherCodesInert | ui.py:127-144 | A stream made only of codes other than 13, 72 and 80 never changes the selection, never confirms and never redraws. |
| Selection.ClampedMovesAreNoOps | ui.py:128-144 | For any selection, stale ones included: Up at 0 and Down at max_k do nothing. Up anywhere else lowers the selection by one, and Down anywhere else raises it by one. Enter never moves the cursor. |
| Selection.DownPastEndRunsAway | ui.py:138-144 | From a selection above max_k, n presses of Down add n to it, because the clamp tests equality. |
| Selection.ExampleThreeEntries | ui.py:84-90 | Three entries, starting at 0: Down, Down, Enter confirms index 2 after redraws at 1 and at 2. |
| Selection.ExampleSingleEntry | ui.py:84-90 | One entry: Up, Down, Enter confirms index 0 with no redraw. |
| Selection.ExampleEmptyMenu | ui.py:86-90 | No entries: Down, Down, Enter confirms index 2. |
| Selection.ArrowSequencesAgree | ui.py:174-178 | From any state, the full POSIX character sequence of an arrow key moves the selection the same way as the Windows byte sequence. |
| Render.OptionLine | ui.py:103-108 | An option line starts with the filled, styled marker exactly when it is the selected one. It starts with the hollow marker exactly when it is not. |
| Render.OptionLineReadsBack | ui.py:103-108 | A rendered option line reads back as its option text. It carries the highlight marker exactly when it was drawn as selected. |
| Render.PrintOptions | ui.py:99-108 | The screen is the banner line followed by exactly one line per option. |
| Render.PrintOptionsRoundTrip | ui.py:99-108 | The option list, in menu order, can be recovered from the screen. The line of option i is highlighted exactly when i is the selection, so a selection outside the menu highlights no line. |
| Render.PrintOptionsMarksEveryLine | ui.py:103-108 | Every option other than the selected one is drawn as the hollow marker followed by its text. The selected option, when it is inside the menu, is drawn as the filled marker and its text inside the highlight styling. |
| Render.Typewriter | ui.py:68-70 | Writes once per character, in order, and nothing else. |
| Render.TypewriterSpellsText | ui.py:68-69 | The character writes join to exactly the text. |
| Render.PrintText | ui.py:62-75 | Writes the colour line only if the colour is non-empty, then the character writes, then the reset line, then the continue prompt and a screen clear only when asked for. |
| Render.PrintTextOutput | ui.py:62-75 | The terminal receives the colour line (if any), the exact text, the reset line, and the prompt (if asked for). |
| Render.EmptyTextWritesNoCharacters | ui.py:65-72 | Empty text produces no character writes, so no per-character delay is ever computed. |
| Menus.GetMenuSelection | ui.py:77-90 | The loop matches the key-by-key replay: it draws the starting screen and then one screen per move, in order. It confirms exactly when the stream holds an Enter, and it ends at the fold of the keys before the first Enter. It keeps an in-range selection in range. |
| Menus.MenuLoop | ui.py:84-90 | Over the codes read, the loop matches the key-by-key replay. It draws the starting screen and then one screen per move, in order, and keeps an in-range selection in range. |
| Menus.ShowMenu | ui.py:17-19 | Navigates the three-entry main menu from the current selection and returns the confirmed selection. |
| Menus.FileOutcome | ui.py:25-28 | The sentinel index gives the return result. A lower index gives that file. A higher index makes the list lookup fail. |
| Menus.ImportFile | ui.py:21-28 | Appends exactly one sentinel and starts from the current selection, with no reset. The sentinel index gives the return result, a lower index gives that file, and a higher index makes the list lookup fail. An in-range start never fails. |
| Menus.PlayerOutcome | ui.py:34-37 | The sentinel index gives the "New" tag with the typed name. Any other index gives an empty tag with that player. |
| Menus.CheckPlayerData | ui.py:30-37 | Resets the selection to 0 and appends exactly one sentinel. The sentinel index gives the "New" tag with the typed name. Any other index gives an empty tag with that player. The selection stays within the list. |
| Menus.CheckPlayerDataIgnoresStaleSelection | ui.py:30-33 | The result does not depend on the selection left by earlier menus. |
| Menus.StaleSelectionScenario | ui.py:17-28 | Returning from a four-file import leaves the selection at 4. The main menu then confirms that 4, and a following import of an empty list fails on the lookup. |

## Left out

- Raw terminal mode: the settings are saved and restored around each read, and `msvcrt.getch` is used on Windows. Each read is modelled as one integer code from the input sequence, and the restore-on-error guarantee is not modelled. `tty.setraw` flushes pending input when it switches modes, so keys typed between two reads can be lost. The model's stream holds the codes that reach `getch`, not every key typed.
- Decoding on POSIX: `sys.stdin.read` decodes the terminal's bytes, so an undecodable byte sequence raises an error. The model's stream already holds decoded code points.
- A read at end of input: `ord` of an empty string raises an error. The model's stream is a sequence of codes, so this case does not arise.
- Blocking forever: the program waits indefinitely for a key. The model's finite stream ends in `Pending` (or `Blocked` inside `CaptureKeys`) instead.
- `clear_screen` and the shell command it runs: this is process I/O. It appears only as the `ClearScreen` event and as the fact that each menu screen is drawn anew.
- `sleep` and the per-character delay of 2.5 seconds divided by the text length: these are timing and floating point, so they are not modelled.
- The `input` call in `check_player_data`: the typed name is a parameter.
- The `input` call in `wait_for_input`: it is modelled as a `Prompt` event, and the line typed in reply is ignored, as the source ignores it.
- `story_beginning`, `load` and `start_game`: these are fixed narrative data and glue with no logic.
- The `char_width` parameter of `getch`: it is always 1 at the call site.
- Exact escape-sequence values: they are carried as opaque string constants.
- Python list mutation: `import_file` and `check_player_data` append the sentinel to the caller's list. The model returns the extended list as the session's `menu`.
- Keys.Getch: the Windows console returns arrow keys as two bytes, which the model takes as two separate codes from the stream. There is no separate decoder for them, because the source has none.
