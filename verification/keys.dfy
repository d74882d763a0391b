/** Keystroke codes as the menu reads them.

    On Windows `getch` hands back the byte the console delivers: an arrow key
    arrives as a prefix byte followed by the scan code 72 (Up) or 80 (Down).
    On POSIX terminals `getch` reads one decoded character, so a code is a
    code point there; an arrow key arrives as ESC '[' 'A' or ESC '[' 'B', one
    character per read, and `getch` rewrites the final character to the
    Windows code, so that both platforms feed the same codes to the menu. */
module Keys {

  /** Carriage return: what Enter delivers in raw mode and on Windows. */
  const ENTER: int := 13
  /** Windows scan code of the Up arrow (also the character 'H'). */
  const UP: int := 72
  /** Windows scan code of the Down arrow (also the character 'P'). */
  const DOWN: int := 80
  /** Final character of the POSIX Up-arrow sequence (the character 'A'). */
  const POSIX_UP: int := 65
  /** Final character of the POSIX Down-arrow sequence (the character 'B'). */
  const POSIX_DOWN: int := 66
  /** First two characters of a POSIX arrow sequence: ESC and '['. */
  const ESC: int := 27
  const BRACKET: int := 91
  /** Prefix byte the Windows console sends before an arrow scan code. */
  const WIN_ARROW_PREFIX: int := 224

  datatype Platform = Windows | Posix

  /** The three cases of the match in `capture_keys`; every other code is
      `Other` and is skipped. */
  datatype Key = Enter | Up | Down | Other

  /** The rewrite at the tail of the POSIX `getch`. */
  function Normalize(code: int): (c: int)
    ensures code == POSIX_UP <==> c == UP && code != UP
    ensures code == POSIX_DOWN <==> c == DOWN && code != DOWN
    ensures c != POSIX_UP && c != POSIX_DOWN
    ensures code != POSIX_UP && code != POSIX_DOWN ==> c == code
  {
    if code == POSIX_UP then UP
    else if code == POSIX_DOWN then DOWN
    else code
  }

  /** The code `getch` returns for one read from the terminal: a byte on
      Windows, a character's code point on POSIX. Enter is 13 on both; the
      arrow codes also come from 'A' and 'B' on POSIX. */
  function Getch(p: Platform, raw: int): (c: int)
    ensures Classify(c) == Enter <==> raw == ENTER
    ensures Classify(c) == Up <==> raw == UP || (p == Posix && raw == POSIX_UP)
    ensures Classify(c) == Down <==> raw == DOWN || (p == Posix && raw == POSIX_DOWN)
  {
    match p
    case Windows => raw
    case Posix => Normalize(raw)
  }

  /** Which branch of the match in `capture_keys` a code takes. */
  function Classify(code: int): (k: Key)
    ensures k == Enter <==> code == ENTER
    ensures k == Up <==> code == UP
    ensures k == Down <==> code == DOWN
  {
    if code == ENTER then Enter
    else if code == UP then Up
    else if code == DOWN then Down
    else Other
  }

  /** The codes `capture_keys` sees for a stream of terminal reads. */
  function Read(p: Platform, bytes: seq<int>): (codes: seq<int>)
    ensures |codes| == |bytes|
    ensures forall i :: 0 <= i < |bytes| ==> codes[i] == Getch(p, bytes[i])
  {
    if |bytes| == 0 then [] else [Getch(p, bytes[0])] + Read(p, bytes[1..])
  }

  /** POSIX arrow characters and Windows arrow codes classify alike, and Enter is
      the same on both platforms. */
  lemma PlatformsAgree()
    ensures Classify(Getch(Posix, POSIX_UP)) == Classify(Getch(Windows, UP)) == Up
    ensures Classify(Getch(Posix, POSIX_DOWN)) == Classify(Getch(Windows, DOWN)) == Down
    ensures Classify(Getch(Posix, ENTER)) == Classify(Getch(Windows, ENTER)) == Enter
  {
  }

  /** The two platforms decode a read differently exactly for 'A' and 'B';
      every other read reaches the menu as the code read, on both. */
  lemma PlatformsDifferOnlyOnArrowLetters(raw: int)
    ensures Getch(Posix, raw) != Getch(Windows, raw) <==> raw == POSIX_UP || raw == POSIX_DOWN
    ensures Classify(Getch(Posix, raw)) != Classify(Getch(Windows, raw))
      <==> raw == POSIX_UP || raw == POSIX_DOWN
    ensures raw != POSIX_UP && raw != POSIX_DOWN ==>
      Getch(Posix, raw) == raw && Getch(Windows, raw) == raw
  {
  }

  /** The rewrite works on single characters, so on POSIX the plain letters 'A'
      and 'H' both move up, and 'B' and 'P' both move down. */
  lemma PosixLettersMove()
    ensures Classify(Getch(Posix, 'A' as int)) == Up
    ensures Classify(Getch(Posix, 'H' as int)) == Up
    ensures Classify(Getch(Posix, 'B' as int)) == Down
    ensures Classify(Getch(Posix, 'P' as int)) == Down
  {
  }

  /** The leading bytes of an arrow sequence on either platform fall into
      the skipped case. */
  lemma PrefixBytesSkipped(p: Platform)
    ensures Classify(Getch(p, ESC)) == Other
    ensures Classify(Getch(p, BRACKET)) == Other
    ensures Classify(Getch(p, WIN_ARROW_PREFIX)) == Other
  {
  }
}
