/** Three ways the components cut a command's output into lines: the index walk of CommandExec, the
    erasing loop of the pkgutil wrapper, and its splitString. */
module Lines {
  import opened Options
  import opened Text

  /** CommandExec::ParseOutput: pushes the lines of `output` onto `outputLines`. */
  method ParseOutput(output: string, outputLines: seq<string>) returns (lines: seq<string>)
    ensures lines == outputLines + Fields(output, '\n')
  {
    lines := outputLines;
    var start := 0;
    var end := Find(output, '\n', start);
    ghost var pieces: seq<string> := [];
    while end.Some?
      invariant 0 <= start <= |output| && end == Find(output, '\n', start)
      invariant Terminate(pieces, '\n') == output[..start] && AllLack(pieces, '\n')
      invariant lines == outputLines + pieces
      decreases |output| - start
    {
      var line := output[start..end.value];
      NextPiece(output, '\n', start, end.value, pieces);
      pieces := pieces + [line];
      lines := lines + [line];
      start := end.value + 1;
      end := Find(output, '\n', start);
    }
    assert output[..start] + output[start..] == output;
    TerminatedIsUnique(output, '\n', pieces, output[start..]);
    if start < |output| {
      lines := lines + [output[start..]];
    }
  }

  /** The erasing loop: cut the first line off until none is left. */
  method EraseLines(commandOutput: string, delimiter: char) returns (lines: seq<string>, dropped: string)
    ensures lines == Terminated(commandOutput, delimiter) && dropped == Tail(commandOutput, delimiter)
  {
    ghost var all, tail := Terminated(commandOutput, delimiter), Tail(commandOutput, delimiter);
    var output := commandOutput;
    lines := [];
    var pos := IndexOf(output, delimiter);
    while pos.Some?
      invariant pos == IndexOf(output, delimiter)
      invariant lines + Terminated(output, delimiter) == all && Tail(output, delimiter) == tail
      decreases |output|
    {
      CutFirst(lines, output, delimiter, pos.value);
      lines := lines + [output[..pos.value]];
      output := output[pos.value + 1..];
      pos := IndexOf(output, delimiter);
    }
    return lines, output;
  }

  /** PmPkgUtilWrapper::listPackages and listPackageFiles. Both return only what a newline ends; the rest of the
      output is dropped. */
  method ListPackages(commandOutput: string) returns (packages: seq<string>, dropped: string)
    ensures packages == Terminated(commandOutput, '\n') && dropped == Tail(commandOutput, '\n')
  {
    packages, dropped := EraseLines(commandOutput, '\n');
  }

  lemma FirstPiece(s: string, d: char, i: nat)
    requires i < |s| && IndexOf(s, d) == Some(i)
    ensures Terminated(s, d) == [s[..i]] + Terminated(s[i + 1..], d)
  {
  }

  lemma TailBehind(s: string, d: char, i: nat)
    requires i < |s| && IndexOf(s, d) == Some(i)
    ensures Tail(s, d) == Tail(s[i + 1..], d)
  {
  }

  lemma CutFirst(pieces: seq<string>, s: string, d: char, i: nat)
    requires i < |s| && IndexOf(s, d) == Some(i)
    ensures pieces + [s[..i]] + Terminated(s[i + 1..], d) == pieces + Terminated(s, d)
    ensures Tail(s[i + 1..], d) == Tail(s, d)
  {
    FirstPiece(s, d, i);
    TailBehind(s, d, i);
    ConcatAssociates(pieces, [s[..i]], Terminated(s[i + 1..], d));
  }

  function NonEmpty(pieces: seq<string>): seq<string> {
    if pieces == [] then []
    else if pieces[0] == "" then NonEmpty(pieces[1..])
    else [pieces[0]] + NonEmpty(pieces[1..])
  }

  lemma NonEmptyCons(p: string, rest: seq<string>)
    ensures NonEmpty([p] + rest) == if p == "" then NonEmpty(rest) else [p] + NonEmpty(rest)
  {
    assert ([p] + rest)[1..] == rest;
  }

  lemma {:induction false} NonEmptySnoc(pieces: seq<string>, p: string)
    ensures NonEmpty(pieces + [p]) == if p == "" then NonEmpty(pieces) else NonEmpty(pieces) + [p]
    decreases |pieces|
  {
    if pieces == [] {
      NonEmptyCons(p, []);
      assert pieces + [p] == [p] + [];
    } else {
      var head, rest := pieces[0], pieces[1..];
      assert pieces + [p] == [head] + (rest + [p]);
      NonEmptyCons(head, rest + [p]);
      NonEmptySnoc(rest, p);
      ConcatAssociates([head], NonEmpty(rest), [p]);
    }
  }

  /** splitString. */
  method SplitString(str: string, delimiter: char) returns (tokens: seq<string>)
    ensures tokens == NonEmpty(Fields(str, delimiter))
  {
    tokens := [];
    var startPos := 0;
    ghost var pieces: seq<string> := [];
    while startPos < |str|
      invariant 0 <= startPos <= |str| + 1
      invariant startPos <= |str| ==> Terminate(pieces, delimiter) == str[..startPos] && AllLack(pieces, delimiter)
      invariant startPos == |str| + 1 ==> pieces == Fields(str, delimiter)
      invariant tokens == NonEmpty(pieces)
      decreases |str| - startPos
    {
      var found := Find(str, delimiter, startPos);
      var endPos := if found.Some? then found.value else |str|;
      var token := str[startPos..endPos];
      if token != "" {
        tokens := tokens + [token];
      }
      NonEmptySnoc(pieces, token);
      if found.Some? {
        NextPiece(str, delimiter, startPos, endPos, pieces);
      } else {
        assert str[..startPos] + token == str;
        TerminatedIsUnique(str, delimiter, pieces, token);
      }
      pieces := pieces + [token];
      startPos := endPos + 1;
    }
    if startPos == |str| {
      assert str[..startPos] + "" == str;
      TerminatedIsUnique(str, delimiter, pieces, "");
      assert Fields(str, delimiter) == pieces;
    }
  }

  /** The three agree on every output: the index walk adds the unterminated rest to what the erasing
      loop finds, splitString drops the empty lines of the index walk, no line holds a newline, and the
      erasing loop's lines, ended again, with the dropped rest give back the output. */
  lemma SplittersAgree(output: string)
    ensures Fields(output, '\n') ==
      Terminated(output, '\n') + if Tail(output, '\n') == "" then [] else [Tail(output, '\n')]
    ensures AllLack(Fields(output, '\n'), '\n')
    ensures Terminate(Terminated(output, '\n'), '\n') + Tail(output, '\n') == output
    ensures AllLack(NonEmpty(Fields(output, '\n')), '\n') && "" !in NonEmpty(Fields(output, '\n'))
  {
    TerminatedRebuilds(output, '\n');
    PiecesLack(output, '\n');
    NonEmptyKeeps(Fields(output, '\n'), '\n');
  }

  lemma {:induction false} NonEmptyKeeps(pieces: seq<string>, d: char)
    requires AllLack(pieces, d)
    ensures AllLack(NonEmpty(pieces), d) && "" !in NonEmpty(pieces)
    decreases |pieces|
  {
    if pieces != [] {
      NonEmptyKeeps(pieces[1..], d);
    }
  }

  /** Where splitString and the index walk give the same lines: exactly when no line is empty. */
  lemma {:induction false} NonEmptyIsIdentityIff(pieces: seq<string>)
    ensures NonEmpty(pieces) == pieces <==> "" !in pieces
    ensures |NonEmpty(pieces)| <= |pieces|
    decreases |pieces|
  {
    if pieces != [] {
      NonEmptyIsIdentityIff(pieces[1..]);
      assert pieces == [pieces[0]] + pieces[1..];
      if NonEmpty(pieces) == pieces && pieces[0] != "" {
        assert NonEmpty(pieces)[1..] == NonEmpty(pieces[1..]);
      }
    }
  }
}
