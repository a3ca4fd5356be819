/** The position-addressed diagnostics of the pattern codec, rendered as the
    English messages of the JVM target. Every message is fixed text joined
    with the decimal text of its integers (and, for two of them, a quoted
    input or a header); the model proves that each message can be read back
    into the diagnostic it was built from, so no two different diagnostics
    ever share a message. */
module SerializationMessages {
  import opened Wrappers
  import opened Decimal
  import opened Text

  datatype Diagnostic =
    | UnexpectedInput(input: string, lineIndex: int, characterIndex: int)
    | UnexpectedCharacter(character: char, lineIndex: int, characterIndex: int)
    | UnexpectedHeader(header: string)
    | UnexpectedShortLine(lineIndex: int)
    | UnexpectedBlankLine(lineIndex: int)
    | UnexpectedEmptyFile
    | RuleNotSupported
    | DuplicateTopLeftCoordinate(x: int, y: int)

  // The fixed pieces of the messages. A comma or a quote that separates two
  // variable parts is kept apart from the text around it, because the
  // decoders split on it; the common opening word is kept apart too, so that
  // the character that tells two messages apart sits at the start of a piece.
  const Unexpected := "Unexpected "
  const InputPrefix := Unexpected + "input \""
  const InputLine := " starting on line "
  const InputCharacter := " character "
  const CharacterPrefix := Unexpected + "character "
  const CharacterLine := " on line "
  const CharacterOffset := " offset "
  const CharacterSuffix := " interpreted as on"
  const HeaderPrefix := Unexpected + "header, found "
  const ShortLinePrefix := "Line "
  const ShortLineSuffix := " is unexpectedly short"
  const BlankLinePrefix := Unexpected + "blank line at line "
  const EmptyFileText := Unexpected + "empty file, assuming blank pattern"
  const RuleNotSupportedText := "Ruleset not supported"
  const DuplicatePrefix := "Duplicate " + "top-left coordinate instruction, overwriting with ("
  const DuplicateSeparator := " "
  const DuplicateSuffix := ")"

  // ----- the messages ---------------------------------------------------------

  /** `UnexpectedInputMessage`: quotes the input, then gives the line index and
      then the character index; all three can be read back from the message. */
  function UnexpectedInputMessage(input: string, lineIndex: int, characterIndex: int): (m: string)
    ensures Decode(m) == Some(UnexpectedInput(input, lineIndex, characterIndex))
  {
    var m := InputPrefix + (input + (['"'] + (InputLine + (IntToString(lineIndex) + ([','] + (InputCharacter + IntToString(characterIndex)))))));
    InputRoundTrip(input, lineIndex, characterIndex);
    m
  }

  /** `UnexpectedCharacterMessage`: names the character, its line and its
      offset, and says the character was taken as a live cell. */
  function UnexpectedCharacterMessage(character: char, lineIndex: int, characterIndex: int): (m: string)
    ensures Decode(m) == Some(UnexpectedCharacter(character, lineIndex, characterIndex))
    ensures StripSuffix(m, CharacterSuffix).Some?
  {
    var m := CharacterPrefix + ([character] + (CharacterLine + (IntToString(lineIndex) + ([','] + (CharacterOffset + (IntToString(characterIndex) + CharacterSuffix))))));
    CharacterRoundTrip(character, lineIndex, characterIndex);
    m
  }

  /** `UnexpectedHeaderMessage`: the fixed opening followed by the header found. */
  function UnexpectedHeaderMessage(header: string): (m: string)
    ensures Decode(m) == Some(UnexpectedHeader(header))
    ensures StripPrefix(m, HeaderPrefix) == Some(header)
  {
    var m := HeaderPrefix + header;
    HeaderRoundTrip(header);
    m
  }

  /** `UnexpectedShortLineMessage`: determined by, and determines, the line index. */
  function UnexpectedShortLineMessage(lineIndex: int): (m: string)
    ensures Decode(m) == Some(UnexpectedShortLine(lineIndex))
  {
    var m := ShortLinePrefix + (IntToString(lineIndex) + ShortLineSuffix);
    ShortLineRoundTrip(lineIndex);
    m
  }

  /** `UnexpectedBlankLineMessage`: determined by, and determines, the line index. */
  function UnexpectedBlankLineMessage(lineIndex: int): (m: string)
    ensures Decode(m) == Some(UnexpectedBlankLine(lineIndex))
  {
    var m := BlankLinePrefix + IntToString(lineIndex);
    BlankLineRoundTrip(lineIndex);
    m
  }

  /** `UnexpectedEmptyFileMessage`: a constant, told apart from every other message. */
  function UnexpectedEmptyFileMessage(): (m: string)
    ensures Decode(m) == Some(UnexpectedEmptyFile)
  {
    EmptyFileText
  }

  /** `RuleNotSupportedMessage`: a constant, told apart from every other message. */
  function RuleNotSupportedMessage(): (m: string)
    ensures Decode(m) == Some(RuleNotSupported)
    ensures m != UnexpectedEmptyFileMessage()
  {
    assert RuleNotSupportedText[0] != EmptyFileText[0];
    RuleNotSupportedText
  }

  /** `DuplicateTopLeftCoordinate`: ends with the overwriting offset written
      as `(x, y)`, from which both coordinates can be read back. */
  function DuplicateTopLeftCoordinateMessage(x: int, y: int): (m: string)
    ensures Decode(m) == Some(DuplicateTopLeftCoordinate(x, y))
  {
    var m := DuplicatePrefix + (IntToString(x) + ([','] + (DuplicateSeparator + (IntToString(y) + DuplicateSuffix))));
    DuplicateRoundTrip(x, y);
    m
  }

  /** The message of any diagnostic (the `message` property): it always reads
      back as the diagnostic it was built from. */
  function Message(d: Diagnostic): (m: string)
    ensures Decode(m) == Some(d)
  {
    match d
    case UnexpectedInput(input, line, character) => UnexpectedInputMessage(input, line, character)
    case UnexpectedCharacter(ch, line, character) => UnexpectedCharacterMessage(ch, line, character)
    case UnexpectedHeader(header) => UnexpectedHeaderMessage(header)
    case UnexpectedShortLine(line) => UnexpectedShortLineMessage(line)
    case UnexpectedBlankLine(line) => UnexpectedBlankLineMessage(line)
    case UnexpectedEmptyFile => UnexpectedEmptyFileMessage()
    case RuleNotSupported => RuleNotSupportedMessage()
    case DuplicateTopLeftCoordinate(x, y) => DuplicateTopLeftCoordinateMessage(x, y)
  }

  /** Different diagnostics never produce the same message. */
  lemma MessageInjective(d1: Diagnostic, d2: Diagnostic)
    requires Message(d1) == Message(d2)
    ensures d1 == d2
  {
    assert Decode(Message(d1)) == Some(d1);
    assert Decode(Message(d2)) == Some(d2);
  }

  // ----- decoding -------------------------------------------------------------

  /** Reads `a + "," + sep + b` where `a` and `b` are integers. */
  function DecodeIntPair(s: string, sep: string): Option<(int, int)> {
    var comma :- FirstIndexOf(s, ',');
    var a :- ParseInt(s[..comma]);
    var bText :- StripPrefix(s[comma + 1..], sep);
    var b :- ParseInt(bText);
    Some((a, b))
  }

  function DecodeUnexpectedInput(m: string): Option<Diagnostic> {
    var rest :- StripPrefix(m, InputPrefix);
    var quote :- LastIndexOf(rest, '"');
    var position :- DecodeInputPosition(rest[quote + 1..]);
    Some(UnexpectedInput(rest[..quote], position.0, position.1))
  }

  function DecodeInputPosition(tail: string): Option<(int, int)> {
    var pair :- StripPrefix(tail, InputLine);
    DecodeIntPair(pair, InputCharacter)
  }

  function DecodeUnexpectedCharacter(m: string): Option<Diagnostic> {
    var rest :- StripPrefix(m, CharacterPrefix);
    if |rest| == 0 then None else
    var position :- DecodeCharacterPosition(rest[1..]);
    Some(UnexpectedCharacter(rest[0], position.0, position.1))
  }

  function DecodeCharacterPosition(tail: string): Option<(int, int)> {
    var afterLine :- StripPrefix(tail, CharacterLine);
    var pair :- StripSuffix(afterLine, CharacterSuffix);
    DecodeIntPair(pair, CharacterOffset)
  }

  function DecodeUnexpectedHeader(m: string): Option<Diagnostic> {
    var header :- StripPrefix(m, HeaderPrefix);
    Some(UnexpectedHeader(header))
  }

  function DecodeUnexpectedShortLine(m: string): Option<Diagnostic> {
    var rest :- StripPrefix(m, ShortLinePrefix);
    var lineText :- StripSuffix(rest, ShortLineSuffix);
    var line :- ParseInt(lineText);
    Some(UnexpectedShortLine(line))
  }

  function DecodeUnexpectedBlankLine(m: string): Option<Diagnostic> {
    var lineText :- StripPrefix(m, BlankLinePrefix);
    var line :- ParseInt(lineText);
    Some(UnexpectedBlankLine(line))
  }

  function DecodeDuplicateTopLeftCoordinate(m: string): Option<Diagnostic> {
    var rest :- StripPrefix(m, DuplicatePrefix);
    var pairText :- StripSuffix(rest, DuplicateSuffix);
    var pair :- DecodeIntPair(pairText, DuplicateSeparator);
    Some(DuplicateTopLeftCoordinate(pair.0, pair.1))
  }

  predicate StartsWith(s: string, p: string) {
    |p| <= |s| && s[..|p|] == p
  }

  /** Reads a message back into the diagnostic it reports, choosing the
      decoder by the message's fixed opening text. */
  function Decode(m: string): Option<Diagnostic> {
    if m == EmptyFileText then Some(UnexpectedEmptyFile)
    else if m == RuleNotSupportedText then Some(RuleNotSupported)
    else if StartsWith(m, InputPrefix) then DecodeUnexpectedInput(m)
    else if StartsWith(m, CharacterPrefix) then DecodeUnexpectedCharacter(m)
    else if StartsWith(m, HeaderPrefix) then DecodeUnexpectedHeader(m)
    else if StartsWith(m, ShortLinePrefix) then DecodeUnexpectedShortLine(m)
    else if StartsWith(m, BlankLinePrefix) then DecodeUnexpectedBlankLine(m)
    else if StartsWith(m, DuplicatePrefix) then DecodeDuplicateTopLeftCoordinate(m)
    else None
  }

  // ----- proofs of the round trips --------------------------------------------

  /** The decimal text of an integer holds neither quotes nor commas. */
  lemma IntTextExcludes(n: int)
    ensures '"' !in IntToString(n) && ',' !in IntToString(n)
  {
    var s := IntToString(n);
    forall i | 0 <= i < |s|
      ensures s[i] != '"' && s[i] != ','
    {
      if i > 0 {
        assert s[1..][i - 1] == s[i];
      }
    }
  }

  /** A message opening with `p` agrees with `p` at every position of `p`. */
  lemma OpeningAt(m: string, p: string, k: nat)
    requires StartsWith(m, p) && k < |p|
    ensures m[k] == p[k]
  {
    assert m[..|p|][k] == m[k];
  }

  /** A message opening with `p` neither opens with nor equals a text `q`
      that differs from `p` at position `k`. */
  lemma NotOpening(m: string, p: string, q: string, k: nat)
    requires StartsWith(m, p) && k < |p| && k < |q| && p[k] != q[k]
    ensures !StartsWith(m, q) && m != q
  {
    OpeningAt(m, p, k);
    if StartsWith(m, q) {
      OpeningAt(m, q, k);
    }
  }

  lemma Opens(p: string, rest: string)
    ensures StartsWith(p + rest, p)
    ensures StripPrefix(p + rest, p) == Some(rest)
  {
    StripPrefixOfConcat(p, rest);
  }

  lemma Reassociate(a: string, b: string, c: string, d: string, e: string)
    ensures a + (b + (c + (d + e))) == (a + (b + (c + d))) + e
  {
  }

  lemma IntPairRoundTrip(a: int, sep: string, b: int)
    ensures DecodeIntPair(IntToString(a) + ([','] + (sep + IntToString(b))), sep) == Some((a, b))
  {
    var x := IntToString(a);
    var y := IntToString(b);
    var s := x + ([','] + (sep + y));
    IntTextExcludes(a);
    IntToStringRoundTrip(a);
    IntToStringRoundTrip(b);
    FirstIndexOfSplit(x, ',', sep + y);
    SplitAround(x, ',', sep + y);
    StripPrefixOfConcat(sep, y);
  }

  /** The part of an unexpected-input message after the closing quote. */
  function InputTail(lineIndex: int, characterIndex: int): string {
    InputLine + (IntToString(lineIndex) + ([','] + (InputCharacter + IntToString(characterIndex))))
  }

  /** No quote follows the closing quote of an unexpected-input message. */
  lemma InputTailUnquoted(lineIndex: int, characterIndex: int)
    ensures '"' !in InputTail(lineIndex, characterIndex)
  {
    var l := IntToString(lineIndex);
    var c := IntToString(characterIndex);
    IntTextExcludes(lineIndex);
    IntTextExcludes(characterIndex);
    assert '"' !in InputCharacter + c;
    assert '"' !in [','] + (InputCharacter + c);
    assert '"' !in l + ([','] + (InputCharacter + c));
  }

  lemma InputTailRoundTrip(lineIndex: int, characterIndex: int)
    ensures '"' !in InputTail(lineIndex, characterIndex)
    ensures DecodeInputPosition(InputTail(lineIndex, characterIndex)) == Some((lineIndex, characterIndex))
  {
    var pair := IntToString(lineIndex) + ([','] + (InputCharacter + IntToString(characterIndex)));
    InputTailUnquoted(lineIndex, characterIndex);
    Opens(InputLine, pair);
    IntPairRoundTrip(lineIndex, InputCharacter, characterIndex);
  }

  /** The quoted input is everything up to the last quote, whatever quotes
      the input itself holds. */
  lemma DecodeUnexpectedInputOf(input: string, tail: string, position: (int, int))
    requires '"' !in tail && DecodeInputPosition(tail) == Some(position)
    ensures DecodeUnexpectedInput(InputPrefix + (input + (['"'] + tail)))
            == Some(UnexpectedInput(input, position.0, position.1))
  {
    Opens(InputPrefix, input + (['"'] + tail));
    LastIndexOfSplit(input, '"', tail);
    SplitAround(input, '"', tail);
  }

  lemma InputRoundTrip(input: string, lineIndex: int, characterIndex: int)
    ensures var m := InputPrefix + (input + (['"'] + (InputLine + (IntToString(lineIndex) + ([','] + (InputCharacter + IntToString(characterIndex)))))));
            Decode(m) == Some(UnexpectedInput(input, lineIndex, characterIndex))
  {
    var tail := InputTail(lineIndex, characterIndex);
    var m := InputPrefix + (input + (['"'] + tail));
    InputTailRoundTrip(lineIndex, characterIndex);
    DecodeUnexpectedInputOf(input, tail, (lineIndex, characterIndex));
    Opens(InputPrefix, input + (['"'] + tail));
    NotOpening(m, InputPrefix, EmptyFileText, 11);
    NotOpening(m, InputPrefix, RuleNotSupportedText, 0);
  }

  /** The part of an unexpected-character message after the character. */
  function CharacterTail(lineIndex: int, characterIndex: int): string {
    CharacterLine + (IntToString(lineIndex) + ([','] + (CharacterOffset + (IntToString(characterIndex) + CharacterSuffix))))
  }

  lemma CharacterTailRoundTrip(lineIndex: int, characterIndex: int)
    ensures DecodeCharacterPosition(CharacterTail(lineIndex, characterIndex)) == Some((lineIndex, characterIndex))
  {
    var l := IntToString(lineIndex);
    var c := IntToString(characterIndex);
    var pair := l + ([','] + (CharacterOffset + c));
    var afterLine := l + ([','] + (CharacterOffset + (c + CharacterSuffix)));
    Opens(CharacterLine, afterLine);
    Reassociate(l, [','], CharacterOffset, c, CharacterSuffix);
    StripSuffixOfConcat(pair, CharacterSuffix);
    IntPairRoundTrip(lineIndex, CharacterOffset, characterIndex);
  }

  lemma DecodeUnexpectedCharacterOf(character: char, tail: string, position: (int, int))
    requires DecodeCharacterPosition(tail) == Some(position)
    ensures DecodeUnexpectedCharacter(CharacterPrefix + ([character] + tail))
            == Some(UnexpectedCharacter(character, position.0, position.1))
  {
    var rest := [character] + tail;
    Opens(CharacterPrefix, rest);
    assert rest[0] == character && rest[1..] == tail;
  }

  lemma CharacterRoundTrip(character: char, lineIndex: int, characterIndex: int)
    ensures var m := CharacterPrefix + ([character] + (CharacterLine + (IntToString(lineIndex) + ([','] + (CharacterOffset + (IntToString(characterIndex) + CharacterSuffix))))));
            Decode(m) == Some(UnexpectedCharacter(character, lineIndex, characterIndex))
            && StripSuffix(m, CharacterSuffix).Some?
  {
    var tail := CharacterTail(lineIndex, characterIndex);
    var m := CharacterPrefix + ([character] + tail);
    CharacterTailRoundTrip(lineIndex, characterIndex);
    DecodeUnexpectedCharacterOf(character, tail, (lineIndex, characterIndex));
    Opens(CharacterPrefix, [character] + tail);
    NotOpening(m, CharacterPrefix, EmptyFileText, 11);
    NotOpening(m, CharacterPrefix, RuleNotSupportedText, 0);
    NotOpening(m, CharacterPrefix, InputPrefix, 11);
    CharacterEndsWithSuffix(character, lineIndex, characterIndex);
  }

  lemma CharacterEndsWithSuffix(character: char, lineIndex: int, characterIndex: int)
    ensures StripSuffix(CharacterPrefix + ([character] + CharacterTail(lineIndex, characterIndex)), CharacterSuffix).Some?
  {
    var l := IntToString(lineIndex);
    var c := IntToString(characterIndex);
    var front := CharacterPrefix + ([character] + (CharacterLine + (l + ([','] + (CharacterOffset + c)))));
    assert CharacterPrefix + ([character] + CharacterTail(lineIndex, characterIndex)) == front + CharacterSuffix;
    StripSuffixOfConcat(front, CharacterSuffix);
  }

  lemma HeaderRoundTrip(header: string)
    ensures Decode(HeaderPrefix + header) == Some(UnexpectedHeader(header))
    ensures StripPrefix(HeaderPrefix + header, HeaderPrefix) == Some(header)
  {
    var m := HeaderPrefix + header;
    Opens(HeaderPrefix, header);
    NotOpening(m, HeaderPrefix, EmptyFileText, 11);
    NotOpening(m, HeaderPrefix, RuleNotSupportedText, 0);
    NotOpening(m, HeaderPrefix, InputPrefix, 11);
    NotOpening(m, HeaderPrefix, CharacterPrefix, 11);
  }

  lemma ShortLineRoundTrip(lineIndex: int)
    ensures Decode(ShortLinePrefix + (IntToString(lineIndex) + ShortLineSuffix)) == Some(UnexpectedShortLine(lineIndex))
  {
    var rest := IntToString(lineIndex) + ShortLineSuffix;
    var m := ShortLinePrefix + rest;
    assert DecodeUnexpectedShortLine(m) == Some(UnexpectedShortLine(lineIndex)) by {
      Opens(ShortLinePrefix, rest);
      StripSuffixOfConcat(IntToString(lineIndex), ShortLineSuffix);
      IntToStringRoundTrip(lineIndex);
    }
    Opens(ShortLinePrefix, rest);
    NotOpening(m, ShortLinePrefix, EmptyFileText, 0);
    NotOpening(m, ShortLinePrefix, RuleNotSupportedText, 0);
    NotOpening(m, ShortLinePrefix, InputPrefix, 0);
    NotOpening(m, ShortLinePrefix, CharacterPrefix, 0);
    NotOpening(m, ShortLinePrefix, HeaderPrefix, 0);
  }

  lemma BlankLineRoundTrip(lineIndex: int)
    ensures Decode(BlankLinePrefix + IntToString(lineIndex)) == Some(UnexpectedBlankLine(lineIndex))
  {
    var m := BlankLinePrefix + IntToString(lineIndex);
    assert DecodeUnexpectedBlankLine(m) == Some(UnexpectedBlankLine(lineIndex)) by {
      Opens(BlankLinePrefix, IntToString(lineIndex));
      IntToStringRoundTrip(lineIndex);
    }
    Opens(BlankLinePrefix, IntToString(lineIndex));
    NotOpening(m, BlankLinePrefix, EmptyFileText, 11);
    NotOpening(m, BlankLinePrefix, RuleNotSupportedText, 0);
    NotOpening(m, BlankLinePrefix, InputPrefix, 11);
    NotOpening(m, BlankLinePrefix, CharacterPrefix, 11);
    NotOpening(m, BlankLinePrefix, HeaderPrefix, 11);
    NotOpening(m, BlankLinePrefix, ShortLinePrefix, 0);
  }

  lemma DuplicateRoundTrip(x: int, y: int)
    ensures var m := DuplicatePrefix + (IntToString(x) + ([','] + (DuplicateSeparator + (IntToString(y) + DuplicateSuffix))));
            Decode(m) == Some(DuplicateTopLeftCoordinate(x, y))
  {
    var a := IntToString(x);
    var b := IntToString(y);
    var pair := a + ([','] + (DuplicateSeparator + b));
    var rest := a + ([','] + (DuplicateSeparator + (b + DuplicateSuffix)));
    var m := DuplicatePrefix + rest;
    assert DecodeDuplicateTopLeftCoordinate(m) == Some(DuplicateTopLeftCoordinate(x, y)) by {
      Opens(DuplicatePrefix, rest);
      Reassociate(a, [','], DuplicateSeparator, b, DuplicateSuffix);
      StripSuffixOfConcat(pair, DuplicateSuffix);
      IntPairRoundTrip(x, DuplicateSeparator, y);
    }
    Opens(DuplicatePrefix, rest);
    NotOpening(m, DuplicatePrefix, EmptyFileText, 0);
    NotOpening(m, DuplicatePrefix, RuleNotSupportedText, 0);
    NotOpening(m, DuplicatePrefix, InputPrefix, 0);
    NotOpening(m, DuplicatePrefix, CharacterPrefix, 0);
    NotOpening(m, DuplicatePrefix, HeaderPrefix, 0);
    NotOpening(m, DuplicatePrefix, ShortLinePrefix, 0);
    NotOpening(m, DuplicatePrefix, BlankLinePrefix, 0);
  }
}
