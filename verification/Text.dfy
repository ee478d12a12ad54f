/** The string searches and splits that the components share: std::string::find and the pieces a
    delimiter cuts a string into. */
module Text {
  import opened Options

  predicate Lacks(s: string, c: char) {
    forall i :: 0 <= i < |s| ==> s[i] != c
  }

  predicate IsDigit(c: char) {
    '0' <= c <= '9'
  }

  function DigitValue(c: char): int {
    c as int - '0' as int
  }

  /** The first place of a character. */
  function IndexOf(s: string, c: char): (r: Option<nat>)
    ensures r.Some? ==> r.value < |s| && s[r.value] == c && Lacks(s[..r.value], c)
    ensures r.None? ==> Lacks(s, c)
  {
    if s == "" then None
    else if s[0] == c then Some(0)
    else match IndexOf(s[1..], c)
      case None => None
      case Some(i) => Some(i + 1)
  }

  /** std::string::find(c, from). */
  function Find(s: string, c: char, from: nat): (r: Option<nat>)
    ensures r.Some? ==> from <= r.value < |s| && s[r.value] == c && Lacks(s[from..r.value], c)
    ensures r.None? && from <= |s| ==> Lacks(s[from..], c)
  {
    if from > |s| then None
    else match IndexOf(s[from..], c)
      case None => None
      case Some(i) =>
        assert s[from..from + i] == s[from..][..i];
        Some(from + i)
  }

  predicate Starts(s: string, pattern: string) {
    |pattern| <= |s| && s[..|pattern|] == pattern
  }

  /** std::string::find(pattern). */
  function Search(s: string, pattern: string): (r: Option<nat>)
    ensures r.Some? ==> r.value + |pattern| <= |s|
  {
    if Starts(s, pattern) then Some(0)
    else if s == "" then None
    else match Search(s[1..], pattern)
      case None => None
      case Some(i) => Some(i + 1)
  }

  /** Search is the first place, and misses none. */
  lemma {:induction false} SearchIsFirst(s: string, pattern: string, at: nat)
    requires at <= |s| && Starts(s[at..], pattern)
    ensures Search(s, pattern).Some? && Search(s, pattern).value <= at
    ensures Starts(s[Search(s, pattern).value..], pattern)
    decreases |s|
  {
    if Starts(s, pattern) {
      assert s[0..] == s;
    } else {
      assert at > 0 by {
        assert s[0..] == s;
      }
      assert s[1..][at - 1..] == s[at..];
      SearchIsFirst(s[1..], pattern, at - 1);
      var i := Search(s[1..], pattern).value;
      assert s[1..][i..] == s[i + 1..];
    }
  }

  /** ... and what it finds is there. */
  lemma {:induction false} SearchFinds(s: string, pattern: string)
    requires Search(s, pattern).Some?
    ensures Starts(s[Search(s, pattern).value..], pattern)
    decreases |s|
  {
    if Starts(s, pattern) {
      assert s[0..] == s;
    } else {
      SearchFinds(s[1..], pattern);
      var i := Search(s[1..], pattern).value;
      assert s[1..][i..] == s[i + 1..];
    }
  }

  // ---------------------------------------------------------------- delimiters

  /** The pieces that end with the delimiter, and what is left behind the last one. */
  function Terminated(s: string, d: char): seq<string>
    decreases |s|
  {
    match IndexOf(s, d)
    case None => []
    case Some(i) => [s[..i]] + Terminated(s[i + 1..], d)
  }

  function Tail(s: string, d: char): string
    decreases |s|
  {
    match IndexOf(s, d)
    case None => s
    case Some(i) => Tail(s[i + 1..], d)
  }

  /** What a getline loop yields: a last piece counts only if it is not empty. */
  function Fields(s: string, d: char): seq<string> {
    Terminated(s, d) + if Tail(s, d) == "" then [] else [Tail(s, d)]
  }

  /** Every piece with its delimiter put back. */
  function Terminate(pieces: seq<string>, d: char): string {
    if pieces == [] then "" else pieces[0] + [d] + Terminate(pieces[1..], d)
  }

  predicate AllLack(pieces: seq<string>, d: char) {
    forall i :: 0 <= i < |pieces| ==> Lacks(pieces[i], d)
  }

  lemma RebuildStep(piece: string, d: char, pieces: string, tail: string)
    ensures piece + [d] + pieces + tail == piece + [d] + (pieces + tail)
  {
  }

  lemma TerminateCons(piece: string, pieces: seq<string>, d: char)
    ensures Terminate([piece] + pieces, d) == piece + [d] + Terminate(pieces, d)
  {
    assert ([piece] + pieces)[1..] == pieces;
  }

  lemma CutAt(s: string, i: nat)
    requires i < |s|
    ensures s[..i] + [s[i]] + s[i + 1..] == s
  {
  }

  /** The pieces and the tail rebuild the string, and the delimiter is in none of them. */
  lemma {:induction false} TerminatedRebuilds(s: string, d: char)
    ensures Terminate(Terminated(s, d), d) + Tail(s, d) == s
    decreases |s|
  {
    match IndexOf(s, d)
    case None =>
    case Some(i) =>
      var rest := s[i + 1..];
      TerminatedRebuilds(rest, d);
      TerminateCons(s[..i], Terminated(rest, d), d);
      RebuildStep(s[..i], d, Terminate(Terminated(rest, d), d), Tail(rest, d));
      CutAt(s, i);
  }

  lemma {:induction false} PiecesLack(s: string, d: char)
    ensures AllLack(Terminated(s, d), d) && Lacks(Tail(s, d), d)
    decreases |s|
  {
    match IndexOf(s, d)
    case None =>
    case Some(i) => PiecesLack(s[i + 1..], d);
  }

  lemma {:induction false} FirstIndex(a: string, c: char, b: string)
    requires Lacks(a, c)
    ensures IndexOf(a + [c] + b, c) == Some(|a|)
    decreases |a|
  {
    if a == "" {
      assert a + [c] + b == [c] + b;
    } else {
      assert (a + [c] + b)[1..] == a[1..] + [c] + b;
      FirstIndex(a[1..], c, b);
    }
  }

  lemma FirstDelimiter(a: string, d: char, b: string)
    requires Lacks(a, d)
    ensures IndexOf(a + [d] + b, d) == Some(|a|)
    ensures (a + [d] + b)[..|a|] == a && (a + [d] + b)[|a| + 1..] == b
  {
    FirstIndex(a, d, b);
  }

  /** ... and nothing else does: the two facts above determine the pieces. */
  lemma {:induction false} TerminatedIsUnique(s: string, d: char, pieces: seq<string>, tail: string)
    requires Terminate(pieces, d) + tail == s && AllLack(pieces, d) && Lacks(tail, d)
    ensures pieces == Terminated(s, d) && tail == Tail(s, d)
    decreases |pieces|
  {
    if pieces == [] {
      assert s == tail;
    } else {
      var rest := Terminate(pieces[1..], d) + tail;
      assert s == pieces[0] + [d] + rest;
      FirstDelimiter(pieces[0], d, rest);
      TerminatedIsUnique(rest, d, pieces[1..], tail);
    }
  }

  /** One more piece at the end: how a loop that walks through the string extends its result. */
  lemma {:induction false} TerminateSnoc(pieces: seq<string>, p: string, d: char)
    ensures Terminate(pieces + [p], d) == Terminate(pieces, d) + p + [d]
    decreases |pieces|
  {
    if pieces == [] {
    } else {
      assert (pieces + [p])[1..] == pieces[1..] + [p];
      TerminateSnoc(pieces[1..], p, d);
    }
  }

  lemma NextPiece(s: string, d: char, start: nat, end: nat, pieces: seq<string>)
    requires start <= end < |s| && s[end] == d && Terminate(pieces, d) == s[..start]
    ensures Terminate(pieces + [s[start..end]], d) == s[..end + 1]
  {
    TerminateSnoc(pieces, s[start..end], d);
    assert s[..start] + s[start..end] + [d] == s[..end + 1];
  }

  /** The pieces with one delimiter between each two. */
  function Join(parts: seq<string>, d: char): string {
    if parts == [] then ""
    else if |parts| == 1 then parts[0]
    else parts[0] + [d] + Join(parts[1..], d)
  }

  lemma ConcatAssociates<T>(a: seq<T>, b: seq<T>, c: seq<T>)
    ensures (a + b) + c == a + (b + c)
  {
  }

  lemma NoFields(s: string, d: char)
    requires s == ""
    ensures Fields(s, d) == []
  {
  }

  lemma LastField(s: string, d: char)
    requires s != "" && IndexOf(s, d).None?
    ensures Fields(s, d) == [s]
  {
  }

  lemma FirstField(s: string, d: char, i: nat)
    requires i < |s| && IndexOf(s, d) == Some(i)
    ensures Fields(s, d) == [s[..i]] + Fields(s[i + 1..], d)
  {
    var rest := s[i + 1..];
    ConcatAssociates([s[..i]], Terminated(rest, d), if Tail(rest, d) == "" then [] else [Tail(rest, d)]);
  }

  lemma LacksIndex(s: string, c: char)
    requires Lacks(s, c)
    ensures IndexOf(s, c).None?
  {
  }

  /** Splitting undoes joining, unless the last piece is empty. */
  lemma {:induction false} JoinSplits(parts: seq<string>, d: char)
    requires AllLack(parts, d) && (parts != [] ==> parts[|parts| - 1] != "")
    ensures Fields(Join(parts, d), d) == parts
    decreases |parts|
  {
    if |parts| == 1 {
      LacksIndex(parts[0], d);
      LastField(parts[0], d);
    } else if |parts| > 1 {
      var rest := Join(parts[1..], d);
      FirstDelimiter(parts[0], d, rest);
      FirstField(parts[0] + [d] + rest, d, |parts[0]|);
      JoinSplits(parts[1..], d);
    }
  }

  lemma {:induction false} JoinLacks(parts: seq<string>, d: char, c: char)
    requires AllLack(parts, c) && c != d
    ensures Lacks(Join(parts, d), c)
    decreases |parts|
  {
    if |parts| > 1 {
      JoinLacks(parts[1..], d, c);
    }
  }

  predicate Contains(s: string, pattern: string) {
    Search(s, pattern).Some?
  }

  lemma PatternBehind(prefix: string, pattern: string, rest: string)
    ensures Starts((prefix + pattern + rest)[|prefix|..], pattern)
  {
    assert (prefix + pattern + rest)[|prefix|..] == pattern + rest;
  }

  lemma PatternWithin(prefix: string, rest: string, pattern: string, at: nat)
    requires at + |pattern| <= |prefix| && Starts((prefix + rest)[at..], pattern)
    ensures Contains(prefix, pattern)
  {
    assert (prefix + rest)[at..][..|pattern|] == prefix[at..][..|pattern|];
    SearchIsFirst(prefix, pattern, at);
  }

  lemma InsideMarker(prefix: string, marker: string, quote: char, rest: string, k: nat)
    requires |prefix| <= k < |prefix| + |marker| - 1 && Lacks(marker[..|marker| - 1], quote)
    ensures (prefix + marker + rest)[k] != quote
  {
    assert (prefix + marker + rest)[k] == marker[..|marker| - 1][k - |prefix|];
  }

  /** A marker that ends with its only quote cannot overlap itself, so the first place it occurs is
      where it was put. */
  lemma MarkerIsFound(prefix: string, marker: string, quote: char, rest: string)
    requires marker != "" && marker[|marker| - 1] == quote && Lacks(marker[..|marker| - 1], quote)
    requires !Contains(prefix, marker)
    ensures Search(prefix + marker + rest, marker) == Some(|prefix|)
  {
    var s := prefix + marker + rest;
    PatternBehind(prefix, marker, rest);
    SearchIsFirst(s, marker, |prefix|);
    var at := Search(s, marker).value;
    if at < |prefix| {
      var last := at + |marker| - 1;
      assert s[last] == s[at..][..|marker|][|marker| - 1] == quote;
      assert last < |prefix| by {
        if last >= |prefix| {
          InsideMarker(prefix, marker, quote, rest, last);
        }
      }
      assert s == prefix + (marker + rest);
      PatternWithin(prefix, marker + rest, marker, at);
    }
  }

  lemma SliceBehind(head: string, text: string, quote: char, suffix: string)
    ensures (head + (text + [quote] + suffix))[|head|..|head| + |text|] == text
  {
    var rest := text + [quote] + suffix;
    assert (head + rest)[|head|..] == rest;
    assert rest[..|text|] == text;
  }

  lemma QuoteIsFound(head: string, text: string, quote: char, suffix: string)
    requires Lacks(text, quote)
    ensures Find(head + (text + [quote] + suffix), quote, |head|) == Some(|head| + |text|)
  {
    var rest := text + [quote] + suffix;
    assert (head + rest)[|head|..] == rest;
    FirstIndex(text, quote, suffix);
  }
}
