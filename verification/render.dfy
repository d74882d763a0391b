/** What the interface writes to the terminal: the menu screen drawn by
    `print_options`, and the typewriter output of `print_text`. Escape
    sequences are opaque string constants; timing is not modelled. */
module Render {
  import Colours

  /** The banner text of the interface (`self.welcome`). */
  const WELCOME: string := "WELCOME"
  /** Style of the banner line. */
  const TITLE_STYLE: string := "\U{1B}[1;130;44m"
  /** Style of the highlighted option. */
  const SELECTED_STYLE: string := "\U{1B}[6;30;42m"
  /** Marker of the highlighted option: a filled bullet in angle brackets. */
  const SELECTED_MARK: string := "<\U{2022}>"
  /** Marker of every other option: a hollow circle in angle brackets. */
  const UNSELECTED_MARK: string := "<\U{25CB}>"

  /** `print` joins its arguments with one space. */
  const SELECTED_PREFIX: string := SELECTED_STYLE + SELECTED_MARK + " "
  const SELECTED_SUFFIX: string := " " + Colours.END
  const UNSELECTED_PREFIX: string := UNSELECTED_MARK + " "

  /** The banner line printed above the options. */
  const BANNER: string := TITLE_STYLE + " " + WELCOME + " " + Colours.END

  /** The line printed for one option: the selected option carries the
      filled marker and its styling, every other option the hollow marker. */
  function OptionLine(option: string, selected: bool): (line: string)
    ensures SELECTED_PREFIX <= line <==> selected
    ensures UNSELECTED_PREFIX <= line <==> !selected
  {
    if selected then
      var line := SELECTED_PREFIX + option + SELECTED_SUFFIX;
      assert line[0] != UNSELECTED_PREFIX[0];
      line
    else
      var line := UNSELECTED_PREFIX + option;
      assert line[0] != SELECTED_PREFIX[0];
      line
  }

  // Reading a rendered line back.

  /** A line carries the highlighted marker. */
  predicate Highlighted(line: string)
  {
    SELECTED_PREFIX <= line
  }

  /** The option text of a rendered line, with marker and styling removed. */
  function OptionText(line: string): string
  {
    if Highlighted(line) && |line| >= |SELECTED_PREFIX| + |SELECTED_SUFFIX| then
      line[|SELECTED_PREFIX|..|line| - |SELECTED_SUFFIX|]
    else if UNSELECTED_PREFIX <= line then
      line[|UNSELECTED_PREFIX|..]
    else
      line
  }

  /** Each option line reads back as its option, highlighted exactly when it
      was drawn as the selected one. */
  lemma OptionLineReadsBack(option: string, selected: bool)
    ensures Highlighted(OptionLine(option, selected)) <==> selected
    ensures OptionText(OptionLine(option, selected)) == option
  {
    var line := OptionLine(option, selected);
    if selected {
      assert line[..|SELECTED_PREFIX|] == SELECTED_PREFIX;
      assert line[|SELECTED_PREFIX|..|line| - |SELECTED_SUFFIX|] == option;
    } else {
      assert line[0] == '<' != SELECTED_PREFIX[0];
      assert line[..|UNSELECTED_PREFIX|] == UNSELECTED_PREFIX;
      assert line[|UNSELECTED_PREFIX|..] == option;
    }
  }

  /** The screen `print_options` draws (after clearing the terminal): the
      banner, then one line per option. What the option lines say is
      `PrintOptionsRoundTrip`. */
  function PrintOptions(menu: seq<string>, sel: int): (lines: seq<string>)
    ensures |lines| == |menu| + 1
    ensures lines[0] == BANNER
  {
    [BANNER] + seq(|menu|, i requires 0 <= i < |menu| => OptionLine(menu[i], i == sel))
  }

  /** The options read back from a screen: the lines after the banner with
      their markers removed. */
  function ReadOptions(lines: seq<string>): (menu: seq<string>)
    requires |lines| >= 1
    ensures |menu| == |lines| - 1
  {
    seq(|lines| - 1, i requires 0 <= i < |lines| - 1 => OptionText(lines[i + 1]))
  }

  /** Rendering loses nothing: the options, in menu order, can be read back
      from the screen, and the line of option `i` is highlighted exactly when
      `i` is the selection (so a selection outside the menu highlights
      none). */
  lemma PrintOptionsRoundTrip(menu: seq<string>, sel: int)
    ensures ReadOptions(PrintOptions(menu, sel)) == menu
    ensures forall i :: 1 <= i < |menu| + 1 ==>
      (Highlighted(PrintOptions(menu, sel)[i]) <==> i - 1 == sel)
  {
    var lines := PrintOptions(menu, sel);
    var back := ReadOptions(lines);
    forall j | 0 <= j < |menu|
      ensures back[j] == menu[j]
      ensures Highlighted(lines[j + 1]) <==> j == sel
    {
      OptionLineAt(menu, sel, j);
      OptionLineReadsBack(menu[j], j == sel);
    }
    assert back == menu;
    forall i | 1 <= i < |menu| + 1
      ensures Highlighted(lines[i]) <==> i - 1 == sel
    {
      assert lines[(i - 1) + 1] == lines[i];
    }
  }

  /** Every option but the selected one is drawn as the hollow marker and
      its text; the selected one, if the selection is inside the menu, as the
      filled marker and its text inside the highlight styling. */
  lemma PrintOptionsMarksEveryLine(menu: seq<string>, sel: int)
    ensures forall i :: 1 <= i < |menu| + 1 && i - 1 != sel ==>
      PrintOptions(menu, sel)[i] == UNSELECTED_PREFIX + menu[i - 1]
    ensures 0 <= sel < |menu| ==>
      PrintOptions(menu, sel)[sel + 1] == SELECTED_PREFIX + menu[sel] + SELECTED_SUFFIX
  {
    forall i | 1 <= i < |menu| + 1 && i - 1 != sel
      ensures PrintOptions(menu, sel)[i] == UNSELECTED_PREFIX + menu[i - 1]
    {
      OptionLineAt(menu, sel, i - 1);
    }
    if 0 <= sel < |menu| {
      OptionLineAt(menu, sel, sel);
    }
  }

  lemma OptionLineAt(menu: seq<string>, sel: int, j: nat)
    requires j < |menu|
    ensures PrintOptions(menu, sel)[j + 1] == OptionLine(menu[j], j == sel)
  {
  }

  // ---------------------------------------------------------------------
  // print_text

  /** One observable effect on the terminal. `Prompt` is the text `input`
      writes before it waits for a line. */
  datatype Event = Write(text: string) | Prompt(text: string) | ClearScreen

  /** Everything written to the terminal by a sequence of events. */
  function Output(events: seq<Event>): string
  {
    if |events| == 0 then "" else Shown(events[0]) + Output(events[1..])
  }

  /** The text one event puts on the terminal. */
  function Shown(e: Event): string
  {
    match e
    case Write(t) => t
    case Prompt(t) => t
    case ClearScreen => ""
  }

  lemma {:induction false} OutputAppend(a: seq<Event>, b: seq<Event>)
    ensures Output(a + b) == Output(a) + Output(b)
    decreases |a|
  {
    if |a| > 0 {
      assert (a + b)[0] == a[0];
      assert (a + b)[1..] == a[1..] + b;
      OutputAppend(a[1..], b);
    } else {
      assert a + b == b;
    }
  }

  /** The character loop of `print_text`: one write per character, with no
      line break after it. */
  function Typewriter(text: string): (events: seq<Event>)
    ensures |events| == |text|
    ensures forall i :: 0 <= i < |text| ==> events[i] == Write([text[i]])
  {
    if |text| == 0 then []
    else [Write([text[0]])] + Typewriter(text[1..])
  }

  /** The character writes spell out the text. */
  lemma {:induction false} TypewriterSpellsText(text: string)
    ensures Output(Typewriter(text)) == text
    decreases |text|
  {
    if |text| > 0 {
      var events := Typewriter(text);
      assert events[0] == Write([text[0]]);
      assert events[1..] == Typewriter(text[1..]);
      TypewriterSpellsText(text[1..]);
      assert [text[0]] + text[1..] == text;
    }
  }

  /** The prompt of `wait_for_input`. */
  const CONTINUE_PROMPT: string := Colours.BLUE + "Press Enter to Continue." + Colours.END + "\n"

  /** `wait_for_input`: prompt, wait for a line, clear the screen. */
  const WAIT_FOR_INPUT: seq<Event> := [Prompt(CONTINUE_PROMPT), ClearScreen]

  /** The colour printed on a line of its own, when it is non-empty. */
  function ColourLine(colour: string): seq<Event>
  {
    if colour != "" then [Write(colour + "\n")] else []
  }

  /** The reset sequence on a line of its own, then the optional wait. */
  function Closing(end: bool): seq<Event>
  {
    [Write(Colours.END + "\n")] + (if end then WAIT_FOR_INPUT else [])
  }

  /** `print_text`: the colour on a line of its own when it is non-empty,
      then each character, then the reset sequence on a line of its own,
      then (when `end` holds) the wait for Enter. */
  function PrintText(text: string, colour: string, end: bool): (events: seq<Event>)
    ensures var pre := if colour != "" then 1 else 0;
      |events| == pre + |text| + 1 + (if end then 2 else 0)
    ensures colour != "" ==> events[0] == Write(colour + "\n")
    ensures var pre := if colour != "" then 1 else 0;
      events[pre..pre + |text|] == Typewriter(text)
    ensures var pre := if colour != "" then 1 else 0;
      events[pre + |text|] == Write(Colours.END + "\n")
    ensures var pre := if colour != "" then 1 else 0;
      events[pre + |text| + 1..] == (if end then WAIT_FOR_INPUT else [])
  {
    var head := ColourLine(colour) + Typewriter(text);
    assert head[|ColourLine(colour)|..] == Typewriter(text);
    head + Closing(end)
  }

  /** What reaches the terminal from `print_text`: the colour line, exactly
      the text, the reset line, and the continue prompt when asked for. */
  lemma PrintTextOutput(text: string, colour: string, end: bool)
    ensures Output(PrintText(text, colour, end)) ==
      (if colour != "" then colour + "\n" else "") + text + Colours.END + "\n"
      + (if end then CONTINUE_PROMPT else "")
  {
    var head := ColourLine(colour) + Typewriter(text);
    OutputAppend(head, Closing(end));
    OutputAppend(ColourLine(colour), Typewriter(text));
    TypewriterSpellsText(text);
    ColourLineOutput(colour);
    ClosingOutput(end);
    var c := if colour != "" then colour + "\n" else "";
    var prompt := if end then CONTINUE_PROMPT else "";
    assert Output(PrintText(text, colour, end)) == (c + text) + (Colours.END + "\n" + prompt);
    Regroup(c, text, Colours.END, "\n", prompt);
  }

  lemma Regroup<T>(a: seq<T>, b: seq<T>, x: seq<T>, y: seq<T>, z: seq<T>)
    ensures (a + b) + (x + y + z) == a + b + x + y + z
  {
  }

  lemma ColourLineOutput(colour: string)
    ensures Output(ColourLine(colour)) == if colour != "" then colour + "\n" else ""
  {
    if colour != "" {
      assert ColourLine(colour)[1..] == [];
    }
  }

  lemma ClosingOutput(end: bool)
    ensures Output(Closing(end)) == Colours.END + "\n" + (if end then CONTINUE_PROMPT else "")
  {
    var reset := [Write(Colours.END + "\n")];
    OutputAppend(reset, if end then WAIT_FOR_INPUT else []);
    assert reset[1..] == [];
    assert WAIT_FOR_INPUT[1..][1..] == [];
  }

  /** Empty text makes no character writes: only the colour, the reset and
      the optional wait remain. */
  lemma EmptyTextWritesNoCharacters(colour: string, end: bool)
    ensures PrintText("", colour, end)
         == (if colour != "" then [Write(colour + "\n")] else [])
          + [Write(Colours.END + "\n")] + (if end then WAIT_FOR_INPUT else [])
  {
  }
}
