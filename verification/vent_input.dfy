/**
  Reading the vent lines: each input line holds a segment written
  `x1,y1 -> x2,y2`, found anywhere in the line by the pattern
  `(\d+),(\d+)\s+->\s+(\d+),(\d+)`.
*/
module VentInput {
  import opened Outcomes
  import opened Vents

  /** `\d`: an ASCII decimal digit. */
  predicate IsDigit(c: char)
  {
    '0' <= c <= '9'
  }

  /** `\s`: space, tab, line feed, vertical tab, form feed, carriage return. */
  predicate IsSpace(c: char)
  {
    c == ' ' || c == '\t' || c == '\n' || c == '\U{B}' || c == '\U{C}' || c == '\r'
  }

  predicate AllDigits(s: string)
  {
    forall k :: 0 <= k < |s| ==> IsDigit(s[k])
  }

  function DigitValue(c: char): (d: nat)
    requires IsDigit(c)
    ensures d < 10
  {
    (c - '0') as nat
  }

  function DigitChar(d: nat): (c: char)
    requires d < 10
    ensures IsDigit(c) && DigitValue(c) == d
  {
    (d as int + '0' as int) as char
  }

  /** `toInt` on a run of digits, most significant first. A leading zero
      does not change the value, so `007` reads as 7. */
  function DecimalValue(ds: string): (v: nat)
    requires AllDigits(ds)
    ensures |ds| > 0 && ds[0] == '0' ==> v == DecimalValue(ds[1..])
  {
    if |ds| == 0 then 0
    else
      var front := ds[..|ds| - 1];
      assert |ds| > 1 ==> front[1..] == ds[1..][..|ds| - 2];
      DecimalValue(front) * 10 + DigitValue(ds[|ds| - 1])
  }

  /** The shortest decimal numeral of n. */
  function Numeral(n: nat): (s: string)
    ensures |s| > 0 && AllDigits(s)
    ensures DecimalValue(s) == n
  {
    if n < 10 then [DigitChar(n)]
    else
      var front := Numeral(n / 10);
      assert (front + [DigitChar(n % 10)])[..|front|] == front;
      front + [DigitChar(n % 10)]
  }

  /** The length of the run of digits at the front of t. */
  function LeadingDigits(t: string): (k: nat)
    ensures k <= |t| && AllDigits(t[..k])
    ensures k == |t| || !IsDigit(t[k])
  {
    if |t| == 0 || !IsDigit(t[0]) then 0
    else
      var k := LeadingDigits(t[1..]);
      assert t[..k + 1] == [t[0]] + t[1..][..k];
      k + 1
  }

  /** The length of the run of `\s` characters at the front of t. */
  function LeadingSpaces(t: string): (k: nat)
    ensures k <= |t|
    ensures forall j :: 0 <= j < k ==> IsSpace(t[j])
    ensures k == |t| || !IsSpace(t[k])
  {
    if |t| == 0 || !IsSpace(t[0]) then 0 else LeadingSpaces(t[1..]) + 1
  }

  /** One element of the regular expression: `\d+`, a literal character,
      or `\s+`. */
  datatype Token = Number | Char(c: char) | Blank

  /** A regular expression made of tokens one after another. */
  datatype Tokens = End | Then(head: Token, tail: Tokens)

  /** `(\d+),(\d+)\s+->\s+(\d+),(\d+)`: four groups, and no token's run
      can swallow the start of the next one. */
  function Pattern(): (p: Tokens)
    ensures CaptureCount(p) == 4
    ensures Separated(p, "")
  {
    Then(Number, Then(Char(','), Then(Number, Then(Blank, Then(Char('-'), Then(Char('>'),
      Then(Blank, Then(Number, Then(Char(','), Then(Number, End))))))))))
  }

  /** How many groups a pattern captures: one per `\d+`. */
  function CaptureCount(pattern: Tokens): nat
  {
    match pattern
    case End => 0
    case Then(head, tail) => (if head == Number then 1 else 0) + CaptureCount(tail)
  }

  /** What a match captured, and the text after it. */
  datatype Scanned = Scanned(captured: seq<nat>, rest: string)

  /** One token matched at the front of t. Each `\d+` and `\s+` takes the
      longest run: giving characters back never helps in this pattern,
      since a digit is never a comma and white space is never a dash or a
      digit. */
  function ScanToken(token: Token, t: string): (r: Option<Scanned>)
    ensures r.Some? ==> |r.value.captured| == (if token == Number then 1 else 0)
    ensures r.Some? ==> |r.value.rest| < |t|
  {
    match token
    case Number =>
      var k := LeadingDigits(t);
      if k == 0 then None else Some(Scanned([DecimalValue(t[..k])], t[k..]))
    case Char(c) =>
      if |t| > 0 && t[0] == c then Some(Scanned([], t[1..])) else None
    case Blank =>
      var k := LeadingSpaces(t);
      if k == 0 then None else Some(Scanned([], t[k..]))
  }

  /** The tokens matched one after another at the front of t. */
  function MatchTokens(pattern: Tokens, t: string): (r: Option<Scanned>)
    ensures r.Some? ==> |r.value.captured| == CaptureCount(pattern)
  {
    match pattern
    case End => Some(Scanned([], t))
    case Then(head, tail) =>
      match ScanToken(head, t)
      case None => None
      case Some(first) =>
        match MatchTokens(tail, first.rest)
        case None => None
        case Some(others) => Some(Scanned(first.captured + others.captured, others.rest))
  }

  /** A segment whose numbers `\d+` can read: no coordinate is negative. */
  predicate NonNegative(l: Line)
  {
    l.start.x >= 0 && l.start.y >= 0 && l.end.x >= 0 && l.end.y >= 0
  }

  /** The whole pattern matched at the front of t, as a segment. A match
      begins with a digit, and since `\d+` reads no sign, every coordinate
      is nonnegative. */
  function MatchPrefix(t: string): (r: Option<Line>)
    ensures r.Some? ==> |t| > 0 && IsDigit(t[0])
    ensures r.Some? ==> NonNegative(r.value)
  {
    match MatchTokens(Pattern(), t)
    case None => None
    case Some(m) => Some(Line(Point(m.captured[0], m.captured[1]), Point(m.captured[2], m.captured[3])))
  }

  /** The pattern matched starting at position i of s. */
  function MatchAt(s: string, i: nat): Option<Line>
    requires i <= |s|
  {
    MatchPrefix(s[i..])
  }

  datatype Found = Found(at: nat, line: Line)

  /** `find`: the match that starts leftmost, at or after i. */
  function FindFrom(s: string, i: nat): (r: Option<Found>)
    requires i <= |s|
    ensures r.Some? ==> i <= r.value.at <= |s| && MatchAt(s, r.value.at) == Some(r.value.line)
    ensures r.Some? ==> forall k :: i <= k < r.value.at ==> MatchAt(s, k).None?
    ensures r.None? ==> forall k :: i <= k <= |s| ==> MatchAt(s, k).None?
    decreases |s| - i
  {
    match MatchAt(s, i)
    case Some(l) => Some(Found(i, l))
    case None => if i == |s| then None else FindFrom(s, i + 1)
  }

  /** One input line read as a segment, or nothing when the pattern does
      not occur in it. */
  function ParseLine(s: string): Option<Line>
  {
    match FindFrom(s, 0)
    case Some(found) => Some(found.line)
    case None => None
  }

  /** `toLines`: every input line read as a segment; a line without the
      pattern fails the whole list with `IllegalArgumentException`. */
  function ToLines(input: seq<string>): (r: Result<seq<Line>>)
    ensures r.Ok? <==> forall k :: 0 <= k < |input| ==> ParseLine(input[k]).Some?
    ensures r.Err? ==> r.failure == IllegalArgument
    ensures r.Ok? ==> |r.value| == |input|
    ensures r.Ok? ==> forall k :: 0 <= k < |input| ==> Some(r.value[k]) == ParseLine(input[k])
  {
    if |input| == 0 then Ok([])
    else
      match ParseLine(input[0])
      case None => Err(IllegalArgument)
      case Some(line) =>
        match ToLines(input[1..])
        case Err(f) => Err(f)
        case Ok(rest) => Ok([line] + rest)
  }

  // ---------------------------------------------------------------------
  // writing a segment back

  /** The text of a pattern with the given captures: a numeral per `\d+`,
      one space per `\s+`. */
  function RenderTokens(pattern: Tokens, captured: seq<nat>): (t: string)
    requires |captured| == CaptureCount(pattern)
    ensures pattern.Then? ==> |t| > 0 && StartsToken(pattern.head, t[0])
  {
    match pattern
    case End => ""
    case Then(Number, tail) => Numeral(captured[0]) + RenderTokens(tail, captured[1..])
    case Then(Char(c), tail) => [c] + RenderTokens(tail, captured)
    case Then(Blank, tail) => " " + RenderTokens(tail, captured)
  }

  /** `ch` can begin a match of the token. */
  predicate StartsToken(token: Token, ch: char)
  {
    match token
    case Number => IsDigit(ch)
    case Char(c) => ch == c
    case Blank => IsSpace(ch)
  }

  /** The longest run of the token stops before t: t is empty or does not
      begin with a character of the token's class. */
  predicate StopsBefore(token: Token, t: string)
  {
    |t| == 0 ||
    match token
    case Number => !IsDigit(t[0])
    case Char(_) => true
    case Blank => !IsSpace(t[0])
  }

  /** A token followed by one whose first character it would not swallow. */
  predicate Separable(token: Token, next: Token)
  {
    match token
    case Number => next != Number && !(next.Char? && IsDigit(next.c))
    case Char(_) => true
    case Blank => next != Blank && !(next.Char? && IsSpace(next.c))
  }

  /** No token of the pattern swallows the start of the next one, and the
      last one stops before `after`. */
  predicate Separated(pattern: Tokens, after: string)
  {
    match pattern
    case End => true
    case Then(head, End) => StopsBefore(head, after)
    case Then(head, tail) => Separable(head, tail.head) && Separated(tail, after)
  }

  /** A run of digits followed by a non-digit (or by nothing) is the
      leading run. */
  lemma {:induction false} LeadingDigitsOf(ds: string, rest: string)
    requires AllDigits(ds) && (rest == [] || !IsDigit(rest[0]))
    ensures LeadingDigits(ds + rest) == |ds|
  {
    if |ds| > 0 {
      assert (ds + rest)[1..] == ds[1..] + rest;
      LeadingDigitsOf(ds[1..], rest);
    }
  }

  /** A numeral followed by a non-digit is read back as its number. */
  lemma ScanNumeral(n: nat, rest: string)
    requires StopsBefore(Number, rest)
    ensures ScanToken(Number, Numeral(n) + rest) == Some(Scanned([n], rest))
  {
    var text := Numeral(n);
    LeadingDigitsOf(text, rest);
    assert (text + rest)[..|text|] == text;
    assert (text + rest)[|text|..] == rest;
  }

  /** One space followed by a non-space is one `\s+` run. */
  lemma ScanSpace(rest: string)
    requires StopsBefore(Blank, rest)
    ensures ScanToken(Blank, " " + rest) == Some(Scanned([], rest))
  {
    assert (" " + rest)[1..] == rest;
    assert LeadingSpaces((" " + rest)[1..]) == 0;
  }

  /** Text appended in two steps. */
  lemma Associate(a: string, b: string, c: string)
    ensures a + b + c == a + (b + c)
  {
  }

  /** Matching a pattern is matching its first token, then the rest. */
  lemma MatchStep(head: Token, tail: Tokens, t: string, first: Scanned, others: Scanned)
    requires ScanToken(head, t) == Some(first)
    requires MatchTokens(tail, first.rest) == Some(others)
    ensures MatchTokens(Then(head, tail), t) == Some(Scanned(first.captured + others.captured, others.rest))
  {
  }

  /** The text after a token of a separated pattern does not continue the
      token's run. */
  lemma SeparatedStops(head: Token, tail: Tokens, captured: seq<nat>, rest: string)
    requires Separated(Then(head, tail), rest) && |captured| == CaptureCount(tail)
    ensures Separated(tail, rest)
    ensures StopsBefore(head, RenderTokens(tail, captured) + rest)
  {
    if tail.Then? {
      assert Separable(head, tail.head);
    }
  }

  /** A literal character, then text the rest of the pattern reads. */
  lemma MatchCharThen(c: char, tail: Tokens, t: string, others: Scanned)
    requires |t| > 0 && t[0] == c
    requires MatchTokens(tail, t[1..]) == Some(others)
    ensures MatchTokens(Then(Char(c), tail), t) == Some(others)
  {
    MatchStep(Char(c), tail, t, Scanned([], t[1..]), others);
    assert [] + others.captured == others.captured;
  }

  /** One space, then text the rest of the pattern reads. */
  lemma MatchSpaceThen(tail: Tokens, after: string, others: Scanned)
    requires StopsBefore(Blank, after)
    requires MatchTokens(tail, after) == Some(others)
    ensures MatchTokens(Then(Blank, tail), " " + after) == Some(others)
  {
    ScanSpace(after);
    MatchStep(Blank, tail, " " + after, Scanned([], after), others);
    assert [] + others.captured == others.captured;
  }

  /** Reading back the text of a separated pattern gives back what was
      captured, and the text after it. */
  lemma {:induction false} MatchRendered(pattern: Tokens, captured: seq<nat>, rest: string)
    requires Separated(pattern, rest) && |captured| == CaptureCount(pattern)
    ensures MatchTokens(pattern, RenderTokens(pattern, captured) + rest) == Some(Scanned(captured, rest))
  {
    match pattern
    case End =>
      assert captured == [] && RenderTokens(End, captured) + rest == rest;
    case Then(Number, tail) =>
      var text := RenderTokens(tail, captured[1..]);
      SeparatedStops(Number, tail, captured[1..], rest);
      MatchRendered(tail, captured[1..], rest);
      RenderStep(Number, tail, captured);
      Associate(Numeral(captured[0]), text, rest);
      ScanNumeral(captured[0], text + rest);
      MatchStep(Number, tail, Numeral(captured[0]) + (text + rest), Scanned([captured[0]], text + rest), Scanned(captured[1..], rest));
      assert [captured[0]] + captured[1..] == captured;
    case Then(Char(c), tail) =>
      var text := RenderTokens(tail, captured);
      SeparatedStops(Char(c), tail, captured, rest);
      MatchRendered(tail, captured, rest);
      RenderStep(Char(c), tail, captured);
      Associate([c], text, rest);
      assert ([c] + (text + rest))[1..] == text + rest;
      MatchCharThen(c, tail, [c] + (text + rest), Scanned(captured, rest));
    case Then(Blank, tail) =>
      var text := RenderTokens(tail, captured);
      SeparatedStops(Blank, tail, captured, rest);
      MatchRendered(tail, captured, rest);
      RenderStep(Blank, tail, captured);
      Associate(" ", text, rest);
      MatchSpaceThen(tail, text + rest, Scanned(captured, rest));
  }

  /** The text `x1,y1 -> x2,y2` of a segment with nonnegative coordinates. */
  function Render(l: Line): string
    requires NonNegative(l)
  {
    RenderTokens(Pattern(), [l.start.x, l.start.y, l.end.x, l.end.y])
  }

  /** The text of a pattern is the text of its first token, then the
      text of the rest. */
  lemma RenderStep(head: Token, tail: Tokens, captured: seq<nat>)
    requires |captured| == CaptureCount(Then(head, tail))
    ensures head == Number ==> RenderTokens(Then(head, tail), captured) == Numeral(captured[0]) + RenderTokens(tail, captured[1..])
    ensures head.Char? ==> RenderTokens(Then(head, tail), captured) == [head.c] + RenderTokens(tail, captured)
    ensures head == Blank ==> RenderTokens(Then(head, tail), captured) == " " + RenderTokens(tail, captured)
  {
  }

  lemma ArrowText(t: string)
    ensures " " + (['-'] + (['>'] + (" " + t))) == " -> " + t
  {
  }

  /** The text of `\s+->\s+(\d+),(\d+)`. */
  lemma RenderEndText(x2: nat, y2: nat)
    ensures RenderTokens(Then(Blank, Then(Char('-'), Then(Char('>'), Then(Blank, Then(Number, Then(Char(','), Then(Number, End))))))), [x2, y2])
            == " -> " + (Numeral(x2) + ("," + Numeral(y2)))
  {
    var tail1 := Then(Number, End);
    var tail2 := Then(Char(','), tail1);
    var tail3 := Then(Number, tail2);
    RenderStep(Number, End, [y2]);
    RenderStep(Char(','), tail1, [y2]);
    assert [x2, y2][1..] == [y2];
    RenderStep(Number, tail2, [x2, y2]);
    assert Numeral(y2) + "" == Numeral(y2);
    var text3 := Numeral(x2) + ("," + Numeral(y2));
    assert RenderTokens(tail3, [x2, y2]) == text3;
    RenderStep(Blank, tail3, [x2, y2]);
    RenderStep(Char('>'), Then(Blank, tail3), [x2, y2]);
    RenderStep(Char('-'), Then(Char('>'), Then(Blank, tail3)), [x2, y2]);
    RenderStep(Blank, Then(Char('-'), Then(Char('>'), Then(Blank, tail3))), [x2, y2]);
    ArrowText(text3);
  }

  /** A written segment reads `x1,y1 -> x2,y2`. */
  lemma RenderText(l: Line)
    requires NonNegative(l)
    ensures Render(l) == Numeral(l.start.x) + ("," + (Numeral(l.start.y) + (" -> " + (Numeral(l.end.x) + ("," + Numeral(l.end.y))))))
  {
    var x1, y1, x2, y2 := l.start.x, l.start.y, l.end.x, l.end.y;
    var tail7 := Then(Blank, Then(Char('-'), Then(Char('>'), Then(Blank, Then(Number, Then(Char(','), Then(Number, End)))))));
    var tail8 := Then(Number, tail7);
    var tail9 := Then(Char(','), tail8);
    assert Pattern() == Then(Number, tail9);
    RenderEndText(x2, y2);
    var text7 := " -> " + (Numeral(x2) + ("," + Numeral(y2)));
    assert [y1, x2, y2][1..] == [x2, y2];
    RenderStep(Number, tail7, [y1, x2, y2]);
    RenderStep(Char(','), tail8, [y1, x2, y2]);
    assert [x1, y1, x2, y2][1..] == [y1, x2, y2];
    RenderStep(Number, tail9, [x1, y1, x2, y2]);
  }

  /** The pattern matches a written segment in full. */
  lemma MatchRender(l: Line)
    requires NonNegative(l)
    ensures MatchPrefix(Render(l)) == Some(l)
  {
    assert Separated(Pattern(), "");
    MatchRendered(Pattern(), [l.start.x, l.start.y, l.end.x, l.end.y], "");
    assert Render(l) + "" == Render(l);
  }

  /** Reading back a written segment gives the segment. */
  lemma ParseRender(l: Line)
    requires NonNegative(l)
    ensures ParseLine(Render(l)) == Some(l)
  {
    MatchRender(l);
    assert Render(l)[0..] == Render(l);
  }

  /** One text line per segment. */
  function RenderLines(lines: seq<Line>): (input: seq<string>)
    requires forall k :: 0 <= k < |lines| ==> NonNegative(lines[k])
    ensures |input| == |lines|
  {
    seq(|lines|, k requires 0 <= k < |lines| && NonNegative(lines[k]) => Render(lines[k]))
  }

  /** `toLines` reads back the written segments, one per text line. */
  lemma ToLinesRenderLines(lines: seq<Line>)
    requires forall k :: 0 <= k < |lines| ==> NonNegative(lines[k])
    ensures ToLines(RenderLines(lines)) == Ok(lines)
  {
    var input := RenderLines(lines);
    forall k | 0 <= k < |lines|
      ensures ParseLine(input[k]) == Some(lines[k])
    {
      ParseRender(lines[k]);
    }
    var r := ToLines(input);
    assert r.Ok?;
    assert r.value == lines;
  }

  /** The first segment documented for the puzzle. */
  lemma DocumentedInput()
    ensures ParseLine("0,9 -> 5,9") == Some(Line(Point(0, 9), Point(5, 9)))
  {
    var l := Line(Point(0, 9), Point(5, 9));
    assert Render(l) == "0,9 -> 5,9";
    ParseRender(l);
  }

  /** The pattern cannot start at a character that is not a digit. */
  lemma NoMatchAtNonDigit(s: string, i: nat)
    requires i < |s| && !IsDigit(s[i])
    ensures MatchAt(s, i) == None
  {
    assert s[i..][0] == s[i];
  }

  /** A line without any digit holds no segment, so `toLines` rejects it. */
  lemma NoDigitsNoSegment(s: string)
    requires forall k :: 0 <= k < |s| ==> !IsDigit(s[k])
    ensures ParseLine(s) == None
    ensures ToLines([s]) == Err(IllegalArgument)
  {
    forall i | 0 <= i <= |s|
      ensures MatchAt(s, i) == None
    {
      if i < |s| {
        NoMatchAtNonDigit(s, i);
      } else {
        assert s[i..] == [];
      }
    }
  }

  /** `find` looks inside the line: text without digits before a segment
      is skipped. */
  lemma SegmentAfterText(text: string, l: Line)
    requires forall k :: 0 <= k < |text| ==> !IsDigit(text[k])
    requires NonNegative(l)
    ensures ParseLine(text + Render(l)) == Some(l)
  {
    var s := text + Render(l);
    MatchRender(l);
    assert s[|text|..] == Render(l);
    assert MatchAt(s, |text|) == Some(l);
    forall i | 0 <= i < |text|
      ensures MatchAt(s, i) == None
    {
      assert s[i] == text[i];
      NoMatchAtNonDigit(s, i);
    }
    var found := FindFrom(s, 0);
    assert found.Some?;
    assert found.value.at == |text|;
  }
}
