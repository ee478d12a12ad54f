/** sanitizeParamsXml: the installer choices inside an installer's argument string. */
module Choices {
  import opened Integers
  import opened Options
  import opened Text

  const MARKER := "installer_choices=\""

  datatype Outcome<T> = Ok(value: T) | InvalidArgument | OutOfRange

  // ------------------------------------------------------------------ std::stoi

  predicate IsSpace(c: char) {
    c == ' ' || '\t' <= c <= '\r'
  }

  function SkipSpaces(s: string): string {
    if s != "" && IsSpace(s[0]) then SkipSpaces(s[1..]) else s
  }

  predicate AllDigits(s: string) {
    forall i :: 0 <= i < |s| ==> IsDigit(s[i])
  }

  /** The digits at the front of a string. */
  function DigitsOf(s: string): string {
    if s != "" && IsDigit(s[0]) then [s[0]] + DigitsOf(s[1..]) else ""
  }

  function NumberOf(digits: string): int {
    if digits == "" then 0
    else 10 * NumberOf(digits[..|digits| - 1]) + DigitValue(digits[|digits| - 1])
  }

  function InRange(n: int): Outcome<int> {
    if INT_MIN <= n <= INT_MAX then Ok(n) else OutOfRange
  }

  function Unsigned(s: string): string {
    if s != "" && (s[0] == '-' || s[0] == '+') then s[1..] else s
  }

  function Value(digits: string, negative: bool): Outcome<int> {
    if digits == "" then InvalidArgument
    else InRange(if negative then -NumberOf(digits) else NumberOf(digits))
  }

  /** An optional sign, then digits. */
  function Signed(s: string): Outcome<int> {
    Value(DigitsOf(Unsigned(s)), s != "" && s[0] == '-')
  }

  /** Leading white space, a sign, digits; whatever follows is ignored. */
  function Stoi(text: string): Outcome<int> {
    Signed(SkipSpaces(text))
  }

  // ---------------------------------------------------------------- the parser

  /** The two pieces that getline takes from a token; a missing one stays empty. */
  function KeyOf(token: string): string {
    var fields := Fields(token, '=');
    if fields == [] then "" else fields[0]
  }

  function ValueOf(token: string): string {
    var fields := Fields(token, '=');
    if |fields| < 2 then "" else fields[1]
  }

  /** What one token says. */
  datatype Reading = Reading(key: string, value: Outcome<int>)

  function Read(token: string): Reading {
    Reading(KeyOf(token), Stoi(ValueOf(token)))
  }

  function ReadAll(tokens: seq<string>): seq<Reading> {
    seq(|tokens|, i requires 0 <= i < |tokens| => Read(tokens[i]))
  }

  /** The result of inserting the readings in order; the first that stoi rejected ends it. */
  function Insert(readings: seq<Reading>, choices: map<string, int>): Outcome<map<string, int>> {
    if readings == [] then Ok(choices)
    else match readings[0].value
      case Ok(n) => Insert(readings[1..], choices[readings[0].key := n])
      case InvalidArgument => InvalidArgument
      case OutOfRange => OutOfRange
  }

  /** The text between the marker and the next quote, if both are there. */
  function Quoted(args: string, marker: string): Option<string> {
    match Search(args, marker)
    case None => None
    case Some(first) =>
      match Find(args, '\"', first + |marker|)
      case None => None
      case Some(second) => Some(args[first + |marker|..second])
  }

  lemma NextReading(token: string, tokens: seq<string>)
    ensures ReadAll([token] + tokens) == [Read(token)] + ReadAll(tokens)
  {
  }

  function InsertOne(r: Reading, rest: seq<Reading>, choices: map<string, int>): Outcome<map<string, int>> {
    match r.value
    case Ok(n) => Insert(rest, choices[r.key := n])
    case InvalidArgument => InvalidArgument
    case OutOfRange => OutOfRange
  }

  lemma InsertCons(r: Reading, rest: seq<Reading>, choices: map<string, int>)
    ensures Insert([r] + rest, choices) == InsertOne(r, rest, choices)
  {
    assert ([r] + rest)[1..] == rest;
  }

  /** One getline(stream, token, ' ') on a stream that is not exhausted. */
  method NextToken(stream: string) returns (token: string, rest: string)
    requires stream != ""
    ensures Fields(stream, ' ') == [token] + Fields(rest, ' ') && |rest| < |stream|
  {
    var end := IndexOf(stream, ' ');
    if end.Some? {
      FirstField(stream, ' ', end.value);
      return stream[..end.value], stream[end.value + 1..];
    } else {
      LastField(stream, ' ');
      NoFields("", ' ');
      return stream, "";
    }
  }

  /** The getline loop, over what the stream has not yielded yet. */
  method ReadTokens(theArgs: string) returns (result: Outcome<map<string, int>>)
    ensures result == Insert(ReadAll(Fields(theArgs, ' ')), map[])
  {
    var resultArg: map<string, int> := map[];
    var stream := theArgs;
    ghost var readings := ReadAll(Fields(theArgs, ' '));
    while stream != ""
      invariant readings == ReadAll(Fields(stream, ' '))
      invariant Insert(readings, resultArg) == Insert(ReadAll(Fields(theArgs, ' ')), map[])
      decreases |stream|
    {
      var token, rest := NextToken(stream);
      var reading := Read(token);
      NextReading(token, Fields(rest, ' '));
      readings := ReadAll(Fields(rest, ' '));
      InsertCons(reading, readings, resultArg);
      stream := rest;
      match reading.value {
        case Ok(n) => resultArg := resultArg[reading.key := n];
        case InvalidArgument => return InvalidArgument;
        case OutOfRange => return OutOfRange;
      }
    }
    NoFields(stream, ' ');
    return Ok(resultArg);
  }

  /** What the parser makes of an argument string. */
  function Sanitized(args: string, marker: string): Outcome<map<string, int>> {
    match Quoted(args, marker)
    case None => Ok(map[])
    case Some(text) => Insert(ReadAll(Fields(text, ' ')), map[])
  }

  method ExtractArgs(args: string, enterName: string) returns (theArgs: Option<string>)
    ensures theArgs == Quoted(args, enterName)
  {
    var firstOcc := Search(args, enterName);
    if firstOcc.None? {
      return None;
    }
    var secondOcc := Find(args, '\"', firstOcc.value + |enterName|);
    if secondOcc.None? {
      return None;
    }
    // the marker is longer than one character, so the source's test firstOcc + 1 >= secondOcc is false here
    return Some(args[firstOcc.value + |enterName|..secondOcc.value]);
  }

  method SanitizeParamsXml(args: string) returns (result: Outcome<map<string, int>>)
    ensures result == Sanitized(args, MARKER)
  {
    var theArgs := ExtractArgs(args, MARKER);
    if theArgs.None? {
      return Ok(map[]);
    }
    result := ReadTokens(theArgs.value);
  }

  // ------------------------------------------------------------------ printing

  function DigitChar(n: nat): (c: char)
    requires n < 10
    ensures IsDigit(c) && DigitValue(c) == n
  {
    '0' + n as char
  }

  function Decimal(n: nat): (s: string)
    ensures s != "" && AllDigits(s)
  {
    if n < 10 then [DigitChar(n)] else Decimal(n / 10) + [DigitChar(n % 10)]
  }

  function PrintInt(n: int): string {
    if n < 0 then ['-'] + Decimal(-n) else Decimal(n)
  }

  datatype Choice = Choice(key: string, value: int)

  predicate IsChoice(c: Choice) {
    Lacks(c.key, ' ') && Lacks(c.key, '=') && Lacks(c.key, '\"') && INT_MIN <= c.value <= INT_MAX
  }

  function PrintChoice(c: Choice): string {
    c.key + "=" + PrintInt(c.value)
  }

  function PrintedChoices(cs: seq<Choice>): (parts: seq<string>)
    ensures |parts| == |cs| && forall i :: 0 <= i < |cs| ==> parts[i] == PrintChoice(cs[i])
  {
    seq(|cs|, i requires 0 <= i < |cs| => PrintChoice(cs[i]))
  }

  /** The choices one behind the other, separated by single spaces. */
  function Render(cs: seq<Choice>): string {
    Join(PrintedChoices(cs), ' ')
  }

  /** The map the choices stand for: of a repeated key the last value counts. */
  function MapOf(cs: seq<Choice>): map<string, int> {
    if cs == [] then map[] else MapOf(cs[..|cs| - 1])[cs[|cs| - 1].key := cs[|cs| - 1].value]
  }

  // ---------------------------------------------------------------- round trip

  lemma {:induction false} DecimalReads(n: nat)
    ensures NumberOf(Decimal(n)) == n
  {
    if n < 10 {
      var s := Decimal(n);
      assert s[..|s| - 1] == "";
    } else {
      DecimalReads(n / 10);
      var s := Decimal(n);
      assert s[..|s| - 1] == Decimal(n / 10);
    }
  }

  lemma {:induction false} DigitsAlone(s: string)
    requires AllDigits(s)
    ensures DigitsOf(s) == s
  {
    if s != "" {
      DigitsAlone(s[1..]);
    }
  }

  lemma NothingToSkip(s: string)
    requires s != "" && (IsDigit(s[0]) || s[0] == '-')
    ensures SkipSpaces(s) == s
  {
  }

  lemma UnsignedReads(d: string)
    requires d != "" && IsDigit(d[0]) && DigitsOf(d) == d
    ensures Signed(d) == InRange(NumberOf(d))
  {
  }

  lemma NegatedReads(s: string, d: string)
    requires s != "" && s[0] == '-' && s[1..] == d && d != "" && DigitsOf(d) == d
    ensures Signed(s) == InRange(-NumberOf(d))
  {
    assert Unsigned(s) == d;
  }

  lemma BehindTheSign(sign: char, d: string)
    ensures ([sign] + d)[1..] == d && ([sign] + d)[0] == sign
  {
  }

  /** stoi undoes the printing of every 32-bit integer. */
  lemma PrintedIntReads(n: int)
    requires INT_MIN <= n <= INT_MAX
    ensures Stoi(PrintInt(n)) == Ok(n)
  {
    if n < 0 {
      DecimalReads(-n);
      DigitsAlone(Decimal(-n));
      BehindTheSign('-', Decimal(-n));
      NegatedReads(['-'] + Decimal(-n), Decimal(-n));
      NothingToSkip(['-'] + Decimal(-n));
    } else {
      DecimalReads(n);
      DigitsAlone(Decimal(n));
      UnsignedReads(Decimal(n));
      NothingToSkip(Decimal(n));
    }
  }

  lemma PrintedIntLacks(n: int, c: char)
    requires !IsDigit(c) && c != '-'
    ensures Lacks(PrintInt(n), c)
  {
  }

  lemma PrintedChoiceSplits(c: Choice)
    requires IsChoice(c)
    ensures KeyOf(PrintChoice(c)) == c.key && ValueOf(PrintChoice(c)) == PrintInt(c.value)
    ensures Lacks(PrintChoice(c), ' ') && Lacks(PrintChoice(c), '\"')
  {
    var v := PrintInt(c.value);
    PrintedIntLacks(c.value, '=');
    PrintedIntLacks(c.value, ' ');
    PrintedIntLacks(c.value, '\"');
    assert Terminate([c.key], '=') == c.key + "=" by {
      assert [c.key][1..] == [];
    }
    TerminatedIsUnique(PrintChoice(c), '=', [c.key], v);
    assert Fields(PrintChoice(c), '=') == [c.key, v];
  }

  lemma RenderedChoicesSplit(cs: seq<Choice>)
    requires forall c :: c in cs ==> IsChoice(c)
    ensures Fields(Render(cs), ' ') == PrintedChoices(cs)
    ensures Lacks(Render(cs), '\"')
  {
    var parts := PrintedChoices(cs);
    forall i | 0 <= i < |cs| ensures Lacks(parts[i], ' ') && Lacks(parts[i], '\"') && parts[i] != "" {
      PrintedChoiceSplits(cs[i]);
    }
    JoinSplits(parts, ' ');
    JoinLacks(parts, ' ', '\"');
  }

  predicate Tells(r: Reading, c: Choice) {
    r.key == c.key && r.value == Ok(c.value)
  }

  lemma {:induction false} InsertTold(readings: seq<Reading>, cs: seq<Choice>, done: seq<Choice>)
    requires |readings| == |cs| && forall i :: 0 <= i < |cs| ==> Tells(readings[i], cs[i])
    ensures Insert(readings, MapOf(done)) == Ok(MapOf(done + cs))
    decreases |cs|
  {
    if cs == [] {
      assert done + cs == done;
    } else {
      var done' := done + [cs[0]];
      assert Tells(readings[0], cs[0]);
      assert done'[..|done'| - 1] == done;
      InsertTold(readings[1..], cs[1..], done');
      assert done + cs == done' + cs[1..];
    }
  }

  lemma QuotedBetween(args: string, marker: string, first: nat, second: nat, text: string)
    requires Search(args, marker) == Some(first)
    requires Find(args, '\"', first + |marker|) == Some(second)
    requires args[first + |marker|..second] == text
    ensures Quoted(args, marker) == Some(text)
  {
  }

  lemma TextIsQuoted(args: string, head: string, marker: string, text: string, suffix: string)
    requires |marker| <= |head| && args == head + (text + ['\"'] + suffix)
    requires Search(args, marker) == Some(|head| - |marker|)
    requires Lacks(text, '\"')
    ensures Quoted(args, marker) == Some(text)
  {
    QuoteIsFound(head, text, '\"', suffix);
    SliceBehind(head, text, '\"', suffix);
    QuotedBetween(args, marker, |head| - |marker|, |head| + |text|, text);
  }

  lemma QuotedText(prefix: string, marker: string, text: string, suffix: string)
    requires marker != "" && marker[|marker| - 1] == '\"' && Lacks(marker[..|marker| - 1], '\"')
    requires !Contains(prefix, marker)
    requires Lacks(text, '\"')
    ensures Quoted(prefix + marker + (text + ['\"'] + suffix), marker) == Some(text)
  {
    MarkerIsFound(prefix, marker, '\"', text + ['\"'] + suffix);
    TextIsQuoted(prefix + marker + (text + ['\"'] + suffix), prefix + marker, marker, text, suffix);
  }

  lemma MarkerEndsWithItsQuote()
    ensures MARKER != "" && MARKER[|MARKER| - 1] == '\"' && Lacks(MARKER[..|MARKER| - 1], '\"')
  {
  }

  /** For every list of choices, any prefix without the marker and any suffix, the parser gives back
      the map that was rendered; a repeated key has its last value. */
  lemma RenderedChoicesParse(prefix: string, cs: seq<Choice>, suffix: string)
    requires forall c :: c in cs ==> IsChoice(c)
    requires !Contains(prefix, MARKER)
    ensures Sanitized(prefix + MARKER + (Render(cs) + ['\"'] + suffix), MARKER) == Ok(MapOf(cs))
  {
    MarkerEndsWithItsQuote();
    RenderedChoicesSplit(cs);
    QuotedText(prefix, MARKER, Render(cs), suffix);
    var readings := ReadAll(PrintedChoices(cs));
    forall i | 0 <= i < |cs| ensures Tells(readings[i], cs[i]) {
      PrintedChoiceSplits(cs[i]);
      PrintedIntReads(cs[i].value);
    }
    InsertTold(readings, cs, []);
    assert [] + cs == cs;
  }

  // -------------------------------------------------- any other argument string

  predicate AllSpaces(s: string) {
    forall i :: 0 <= i < |s| ==> IsSpace(s[i])
  }

  lemma {:induction false} SpacesAreSkipped(spaces: string, s: string)
    requires AllSpaces(spaces) && (s == "" || !IsSpace(s[0]))
    ensures SkipSpaces(spaces + s) == s
  {
    if spaces == "" {
      assert spaces + s == s;
    } else {
      assert (spaces + s)[1..] == spaces[1..] + s;
      SpacesAreSkipped(spaces[1..], s);
    }
  }

  lemma {:induction false} DigitsInFront(digits: string, rest: string)
    requires AllDigits(digits) && (rest == "" || !IsDigit(rest[0]))
    ensures DigitsOf(digits + rest) == digits
  {
    if digits == "" {
      assert digits + rest == rest;
    } else {
      assert (digits + rest)[1..] == digits[1..] + rest;
      DigitsInFront(digits[1..], rest);
    }
  }

  lemma SignIsTaken(sign: string, s: string)
    requires sign == "" || sign == "-" || sign == "+"
    requires sign == "" ==> s == "" || (s[0] != '-' && s[0] != '+')
    ensures Signed(sign + s) == Value(DigitsOf(s), sign == "-")
  {
    if sign == "" {
      assert sign + s == s;
    } else {
      assert (sign + s)[1..] == s;
    }
  }

  /** stoi skips white space, takes one sign and the digits behind it, and ignores what follows them; it rejects a
      number outside 32 bits, and a text without digits in that place. */
  lemma StoiReads(spaces: string, sign: string, digits: string, rest: string)
    requires AllSpaces(spaces) && (sign == "" || sign == "-" || sign == "+")
    requires AllDigits(digits) && (rest == "" || !IsDigit(rest[0]))
    requires sign == "" && digits == "" && rest != "" ==> !IsSpace(rest[0]) && rest[0] != '-' && rest[0] != '+'
    ensures
      var n := if sign == "-" then -NumberOf(digits) else NumberOf(digits);
      Stoi(spaces + (sign + (digits + rest))) ==
        if digits == "" then InvalidArgument
        else if -0x8000_0000 <= n <= 0x7fff_ffff then Ok(n)
        else OutOfRange
  {
    var s := digits + rest;
    assert s != "" ==> s[0] == if digits != "" then digits[0] else rest[0];
    assert sign + s != "" ==> (sign + s)[0] == if sign != "" then sign[0] else s[0];
    SpacesAreSkipped(spaces, sign + s);
    SignIsTaken(sign, s);
    DigitsInFront(digits, rest);
  }

  /** A token says what its first two pieces say; one without an equals sign, or an empty one, is rejected. */
  lemma TokenReads(key: string, value: string, more: string)
    requires Lacks(key, '=') && Lacks(value, '=')
    ensures Read(key + ['='] + (value + ['='] + more)) == Reading(key, Stoi(value))
    ensures Read(key).value == InvalidArgument
  {
    var rest := value + ['='] + more;
    FirstDelimiter(key, '=', rest);
    FirstField(key + ['='] + rest, '=', |key|);
    FirstDelimiter(value, '=', more);
    FirstField(rest, '=', |value|);
    LacksIndex(key, '=');
    NoFields("", '=');
    if key != "" {
      LastField(key, '=');
    }
  }

  predicate FirstFailure(readings: seq<Reading>, i: int) {
    0 <= i < |readings| && !readings[i].value.Ok? && forall j :: 0 <= j < i ==> readings[j].value.Ok?
  }

  /** The first token that stoi rejects decides the exception. */
  lemma {:induction false} FirstFailureDecides(readings: seq<Reading>, choices: map<string, int>, i: nat)
    requires FirstFailure(readings, i)
    ensures
      var result := Insert(readings, choices);
      (result.InvalidArgument? <==> readings[i].value.InvalidArgument?)
      && (result.OutOfRange? <==> readings[i].value.OutOfRange?) && !result.Ok?
    decreases |readings|
  {
    if i > 0 {
      FirstFailureDecides(readings[1..], choices[readings[0].key := readings[0].value.value], i - 1);
    }
  }

  /** Without the marker, or without a quote behind it, there are no choices. */
  lemma NoChoices(args: string)
    ensures !Contains(args, "installer_choices=\"") ==> Sanitized(args, MARKER) == Ok(map[])
    ensures
      var first := Search(args, "installer_choices=\"");
      first.Some? && Lacks(args[first.value + 19..], '\"') ==> Sanitized(args, MARKER) == Ok(map[])
  {
  }

  predicate LastOf(cs: seq<Choice>, i: int, key: string) {
    0 <= i < |cs| && cs[i].key == key && forall j :: i < j < |cs| ==> cs[j].key != key
  }

  /** MapOf is the map a reader expects: every key with its last value. */
  lemma {:induction false} MapOfIsLastWins(cs: seq<Choice>, key: string)
    ensures key in MapOf(cs) <==> exists i :: 0 <= i < |cs| && cs[i].key == key
    ensures forall i :: LastOf(cs, i, key) ==> MapOf(cs)[key] == cs[i].value
    decreases |cs|
  {
    if cs != [] {
      var n := |cs| - 1;
      MapOfIsLastWins(cs[..n], key);
      assert cs == cs[..n] + [cs[n]];
    }
  }
}
