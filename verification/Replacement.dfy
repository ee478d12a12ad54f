/** The replacement format of std::regex_replace: "$$" is a dollar sign, "$&" the match, "$`" and "$'" the text
    before and behind it, and "$n" or "$nn" a group of it. */
module Replacement {
  import opened Text

  /** What a match has to offer: all of it, its one group, the text since the match before, and the text behind. */
  datatype Match = Match(all: string, group: string, before: string, behind: string)

  /** Group 0 is the match, and groups that the expression does not have are empty. */
  function Group(m: Match, n: int): string {
    if n == 0 then m.all else if n == 1 then m.group else ""
  }

  /** A dollar sign before any other character, or at the end, stands for itself. */
  function Format(fmt: string, m: Match): string
    decreases |fmt|
  {
    if fmt == "" then ""
    else if fmt[0] != '$' || |fmt| == 1 then [fmt[0]] + Format(fmt[1..], m)
    else if fmt[1] == '$' then ['$'] + Format(fmt[2..], m)
    else if fmt[1] == '&' then m.all + Format(fmt[2..], m)
    else if fmt[1] == '`' then m.before + Format(fmt[2..], m)
    else if fmt[1] == '\'' then m.behind + Format(fmt[2..], m)
    else if IsDigit(fmt[1]) then
      if |fmt| > 2 && IsDigit(fmt[2]) then
        Group(m, 10 * DigitValue(fmt[1]) + DigitValue(fmt[2])) + Format(fmt[3..], m)
      else
        Group(m, DigitValue(fmt[1])) + Format(fmt[2..], m)
    else ['$'] + Format(fmt[1..], m)
  }

  predicate IsSpecial(c: char) {
    c == '$' || c == '&' || c == '`' || c == '\'' || IsDigit(c)
  }

  /** No dollar sign is followed by a character that gives it a meaning. */
  predicate Plain(fmt: string) {
    fmt == "" || (!(fmt[0] == '$' && |fmt| > 1 && IsSpecial(fmt[1])) && Plain(fmt[1..]))
  }

  lemma {:induction false} PlainIsLiteral(fmt: string, m: Match)
    requires Plain(fmt)
    ensures Format(fmt, m) == fmt
    decreases |fmt|
  {
    if fmt != "" {
      PlainIsLiteral(fmt[1..], m);
    }
  }

  const NOTHING := Match("", "", "", "")

  lemma {:induction false} NothingShortens(fmt: string)
    ensures |Format(fmt, NOTHING)| <= |fmt|
    ensures !Plain(fmt) ==> |Format(fmt, NOTHING)| < |fmt|
    decreases |fmt|
  {
    if fmt != "" {
      NothingShortens(fmt[1..]);
      if |fmt| > 1 {
        NothingShortens(fmt[2..]);
      }
      if |fmt| > 2 {
        NothingShortens(fmt[3..]);
      }
    }
  }

  /** A format stands for itself whatever is matched if and only if it is plain; one without a dollar sign is. */
  lemma LiteralIff(fmt: string)
    ensures (forall m :: Format(fmt, m) == fmt) <==> Plain(fmt)
  {
    if Plain(fmt) {
      forall m ensures Format(fmt, m) == fmt {
        PlainIsLiteral(fmt, m);
      }
    } else {
      NothingShortens(fmt);
    }
  }

  lemma {:induction false} NoDollarIsPlain(fmt: string)
    requires Lacks(fmt, '$')
    ensures Plain(fmt)
  {
    if fmt != "" {
      NoDollarIsPlain(fmt[1..]);
    }
  }

  lemma {:induction false} FormatBehind(stem: string, fmt: string, m: Match)
    requires Lacks(stem, '$')
    ensures Format(stem + fmt, m) == stem + Format(fmt, m)
    decreases |stem|
  {
    if stem == "" {
      assert stem + fmt == fmt;
    } else {
      assert (stem + fmt)[1..] == stem[1..] + fmt;
      FormatBehind(stem[1..], fmt, m);
    }
  }

  /** What each of the meanings is: of a character behind the dollar sign, of two digits, and of anything else. */
  lemma OneCharacter(c: char, m: Match, rest: string)
    ensures c == '$' ==> Format(['$', c] + rest, m) == "$" + Format(rest, m)
    ensures c == '&' ==> Format(['$', c] + rest, m) == m.all + Format(rest, m)
    ensures c == '`' ==> Format(['$', c] + rest, m) == m.before + Format(rest, m)
    ensures c == '\'' ==> Format(['$', c] + rest, m) == m.behind + Format(rest, m)
    ensures '0' <= c <= '9' && (rest == "" || !('0' <= rest[0] <= '9')) ==>
      Format(['$', c] + rest, m) == (if c == '0' then m.all else if c == '1' then m.group else "") + Format(rest, m)
  {
    var s := ['$', c] + rest;
    assert s[0] == '$' && s[1] == c && s[2..] == rest;
  }

  lemma TwoDigits(c: char, d: char, m: Match, rest: string)
    requires '0' <= c <= '9' && '0' <= d <= '9'
    ensures Format(['$', c, d] + rest, m)
         == (if c == d == '0' then m.all else if c == '0' && d == '1' then m.group else "") + Format(rest, m)
  {
    var s := ['$', c, d] + rest;
    assert s[0] == '$' && s[1] == c && s[2] == d && s[3..] == rest;
  }

  lemma OtherCharacter(m: Match, rest: string)
    requires rest == "" || !IsSpecial(rest[0])
    ensures Format(['$'] + rest, m) == "$" + Format(rest, m)
  {
    var s := ['$'] + rest;
    assert s[0] == '$' && s[1..] == rest;
  }
}
