/** Folder ids: a path that starts with <FOLDERID_name> stands for a path in the folder of that name.
    FileUtilities::ResolvePath replaces the ids; PmPlatformDiscovery puts one back in front of every
    file that it discovered. */
module FolderIds {
  import opened Options
  import opened Replacement
  import opened Text

  const MARKER := "<FOLDERID_"
  const USER_HOME := "UserHome"

  // ------------------------------------------------------------ the resolver

  /** The length of the tag that the string starts with, as the expression <FOLDERID_([^>]+)> reads
      it; 0 if there is none. */
  function TagLength(s: string, marker: string): (n: nat)
    ensures n <= |s| && (n > 0 ==> |marker| + 2 <= n)
  {
    if !Starts(s, marker) then 0
    else match IndexOf(s[|marker|..], '>')
      case None => 0
      case Some(end) => if end == 0 then 0 else |marker| + end + 1
  }

  /** The name in the first tag: std::regex_search. */
  function FirstName(s: string, marker: string): Option<string> {
    if s == "" then None
    else if TagLength(s, marker) > 0 then Some(s[|marker|..TagLength(s, marker) - 1])
    else FirstName(s[1..], marker)
  }

  /** std::regex_replace: every tag becomes the folder, which is a replacement format. `before` is the text
      behind the last tag that was passed already. */
  function ReplaceTags(before: string, s: string, marker: string, folder: string): string
    decreases |s|
  {
    var n := TagLength(s, marker);
    if s == "" then ""
    else if n > 0 then
      Format(folder, Match(s[..n], s[|marker|..n - 1], before, s[n..])) + ReplaceTags("", s[n..], marker, folder)
    else [s[0]] + ReplaceTags(before + [s[0]], s[1..], marker, folder)
  }

  /** The known folders by name, each resolved. */
  type Folders = map<string, string>

  /** knownFolderIdMap knows one name, for the home folder of the console user; it is empty when there is no
      such user. */
  function LinuxFolders(home: string): Folders {
    map[USER_HOME := home]
  }

  /** ResolveKnownFolderIdForDefaultUser */
  function KnownFolder(name: string, folders: Folders): string {
    if name in folders then folders[name] else ""
  }

  function ResolvePath(basePath: string, marker: string, folders: Folders): string {
    match FirstName(basePath, marker)
    case None => basePath
    case Some(name) =>
      if KnownFolder(name, folders) != "" then ReplaceTags("", basePath, marker, KnownFolder(name, folders))
      else basePath
  }

  // ------------------------------------------------------- comparing two paths

  /** Every run of separators as one. */
  function Collapse(path: string): string {
    if path == "" then ""
    else if path[0] == '/' && |path| > 1 && path[1] == '/' then Collapse(path[1..])
    else [path[0]] + Collapse(path[1..])
  }

  lemma {:induction false} CollapseStarts(path: string)
    requires path != ""
    ensures Collapse(path) != "" && Collapse(path)[0] == path[0]
    decreases |path|
  {
    if path[0] == '/' && |path| > 1 && path[1] == '/' {
      CollapseStarts(path[1..]);
    }
  }

  lemma {:induction false} CollapseIsDone(path: string)
    ensures Collapse(Collapse(path)) == Collapse(path)
    decreases |path|
  {
    if path != "" {
      CollapseIsDone(path[1..]);
      if |path| > 1 {
        CollapseStarts(path[1..]);
      }
    }
  }

  /** std::filesystem::path compares element by element. */
  predicate SamePath(a: string, b: string) {
    Collapse(a) == Collapse(b)
  }

  /** The names in a path: what stands between separators. */
  function Names(path: string): seq<string>
    decreases |path|
  {
    if path == "" then []
    else if path[0] == '/' then Names(path[1..])
    else match IndexOf(path, '/')
      case None => [path]
      case Some(i) => [path[..i]] + Names(path[i..])
  }

  predicate Absolute(path: string) {
    path != "" && path[0] == '/'
  }

  predicate EndsInSlash(path: string) {
    path != "" && path[|path| - 1] == '/'
  }

  lemma {:induction false} CollapseBehind(name: string, rest: string)
    requires Lacks(name, '/')
    ensures Collapse(name + rest) == name + Collapse(rest)
    decreases |name|
  {
    if name == "" {
      assert name + rest == rest;
    } else {
      assert (name + rest)[1..] == name[1..] + rest;
      CollapseBehind(name[1..], rest);
    }
  }

  lemma {:induction false} CollapseEnds(path: string)
    ensures EndsInSlash(Collapse(path)) <==> EndsInSlash(path)
    decreases |path|
  {
    if |path| > 1 {
      CollapseEnds(path[1..]);
      CollapseStarts(path[1..]);
    }
  }

  lemma NamesCons(name: string, rest: string)
    requires name != "" && Lacks(name, '/') && Absolute(rest)
    ensures Names(name + rest) == [name] + Names(rest)
  {
    assert name + rest == name + ['/'] + rest[1..];
    FirstIndex(name, '/', rest[1..]);
    assert (name + rest)[..|name|] == name && (name + rest)[|name|..] == rest;
  }

  lemma OneName(name: string)
    requires name != "" && Lacks(name, '/')
    ensures Names(name) == [name] && Collapse(name) == name
  {
    LacksIndex(name, '/');
    CollapseBehind(name, "");
    assert name + "" == name;
  }

  /** Shortening the runs of separators keeps the names. */
  lemma {:induction false} CollapseKeepsNames(path: string)
    ensures Names(Collapse(path)) == Names(path)
    decreases |path|
  {
    if path == "" {
    } else if path[0] == '/' {
      CollapseKeepsNames(path[1..]);
      if !(|path| > 1 && path[1] == '/') {
        assert ([path[0]] + Collapse(path[1..]))[1..] == Collapse(path[1..]);
      }
    } else {
      match IndexOf(path, '/')
      case None => OneName(path);
      case Some(i) =>
        var name, rest := path[..i], path[i..];
        assert path == name + rest;
        CollapseBehind(name, rest);
        CollapseStarts(rest);
        NamesCons(name, rest);
        NamesCons(name, Collapse(rest));
        CollapseKeepsNames(rest);
    }
  }

  /** The path with single separators that has given names. */
  function Built(absolute: bool, names: seq<string>, ends: bool): string {
    (if absolute then "/" else "") + (Join(names, '/') + (if ends && names != [] then "/" else ""))
  }

  lemma {:induction false} NoNamesAllSlashes(path: string)
    requires path != "" && Names(path) == []
    ensures EndsInSlash(path)
    decreases |path|
  {
    if |path| > 1 {
      NoNamesAllSlashes(path[1..]);
    }
  }

  lemma BuiltCons(name: string, names: seq<string>, ends: bool)
    requires names == [] ==> ends
    ensures name + Built(true, names, ends) == Built(false, [name] + names, ends)
  {
    assert ([name] + names)[1..] == names;
    if names == [] {
      assert name + Built(true, names, ends) == name + "/";
    } else {
      var tail := if ends then "/" else "";
      assert Join([name] + names, '/') == name + ['/'] + Join(names, '/');
      assert name + ("/" + (Join(names, '/') + tail)) == name + ['/'] + Join(names, '/') + tail;
    }
  }

  predicate IsBuilt(path: string) {
    Collapse(path) == Built(Absolute(path), Names(path), EndsInSlash(path))
  }

  lemma BuiltBehindName(name: string, rest: string)
    requires name != "" && Lacks(name, '/') && Absolute(rest) && IsBuilt(rest)
    ensures IsBuilt(name + rest)
  {
    CollapseBehind(name, rest);
    NamesCons(name, rest);
    if Names(rest) == [] {
      NoNamesAllSlashes(rest);
    }
    BuiltCons(name, Names(rest), EndsInSlash(rest));
  }

  lemma {:induction false} CollapseIsBuilt(path: string)
    ensures IsBuilt(path)
    decreases |path|
  {
    if path == "" {
    } else if path[0] == '/' {
      if |path| > 1 {
        CollapseIsBuilt(path[1..]);
      }
    } else {
      match IndexOf(path, '/')
      case None =>
        OneName(path);
        assert Built(false, [path], false) == path;
      case Some(i) =>
        CollapseIsBuilt(path[i..]);
        BuiltBehindName(path[..i], path[i..]);
        assert path == path[..i] + path[i..];
    }
  }

  /** Two paths are the same when they have the same names, and both or neither start, and end, with a separator. */
  lemma SamePathIff(a: string, b: string)
    ensures SamePath(a, b)
      <==> Names(a) == Names(b) && (Absolute(a) <==> Absolute(b)) && (EndsInSlash(a) <==> EndsInSlash(b))
  {
    CollapseIsBuilt(a);
    CollapseIsBuilt(b);
    CollapseKeepsNames(a);
    CollapseKeepsNames(b);
    CollapseEnds(a);
    CollapseEnds(b);
    if a != "" {
      CollapseStarts(a);
    }
    if b != "" {
      CollapseStarts(b);
    }
  }

  // -------------------------------------------------- the rewriting of a file

  /** What ResolveAndDiscover finds out about a configured path: the folder id at its front, and what
      that id stands for in the resolved path. */
  datatype FolderId = FolderId(id: string, conversion: string)

  /** std::string::substr(at, count): the count is cut off at the end of the string. */
  function Substr(s: string, at: nat, count: nat): string
    requires at <= |s|
  {
    if at + count <= |s| then s[at..at + count] else s[at..]
  }

  /** The resolved path up to the first place of the rest; all of it when the rest is not in it. */
  function ConversionOf(resolvedPath: string, rest: string): string {
    match Search(resolvedPath, rest)
    case Some(at) => resolvedPath[..at]
    case None => resolvedPath
  }

  function FolderIdOf(unresolvedPath: string, resolvedPath: string, marker: string): FolderId {
    if SamePath(unresolvedPath, resolvedPath) then FolderId("", "")
    else match (Search(unresolvedPath, marker), IndexOf(unresolvedPath, '>'))
      case (Some(first), Some(last)) =>
        FolderId(Substr(unresolvedPath, first, last + 1), ConversionOf(resolvedPath, unresolvedPath[last + 1..]))
      case _ => FolderId("", "")
  }

  /** The path reported for a discovered file; substr throws when the conversion is longer than it. */
  function Unresolve(file: string, folderId: FolderId): Option<string> {
    if folderId.id == "" then Some(file)
    else if |folderId.conversion| > |file| then None
    else Some(folderId.id + file[|folderId.conversion|..])
  }

  // ---------------------------------------------------------------- round trip

  predicate IsMarker(marker: string) {
    marker != "" && marker[0] == '<' && Lacks(marker, '>')
  }

  /** A tag, as it is written in a configured path. */
  function Tag(marker: string, name: string): string {
    marker + name + ['>']
  }

  predicate TagFree(s: string, marker: string) {
    FirstName(s, marker).None?
  }

  lemma {:induction false} TagFreeIsKept(before: string, s: string, marker: string, folder: string)
    requires TagFree(s, marker)
    ensures ReplaceTags(before, s, marker, folder) == s
    decreases |s|
  {
    if s != "" {
      TagFreeIsKept(before + [s[0]], s[1..], marker, folder);
    }
  }

  lemma LeadingTag(marker: string, name: string, rest: string)
    requires name != "" && Lacks(name, '>') && IsMarker(marker)
    ensures TagLength(Tag(marker, name) + rest, marker) == |Tag(marker, name)|
    ensures (Tag(marker, name) + rest)[|marker|..|Tag(marker, name)| - 1] == name
    ensures (Tag(marker, name) + rest)[|Tag(marker, name)|..] == rest
  {
    var s := Tag(marker, name) + rest;
    assert s[|marker|..] == name + ['>'] + rest;
    FirstIndex(name, '>', rest);
    assert s[..|marker|] == marker;
  }

  /** A folder that is known, and that the replacement format leaves alone. */
  predicate PlainFolder(name: string, folders: Folders) {
    KnownFolder(name, folders) != "" && Plain(KnownFolder(name, folders))
  }

  lemma TagAtFront(before: string, s: string, n: nat, tag: string, name: string, rest: string, marker: string,
                   folder: string)
    requires s != "" && TagLength(s, marker) == n > 0
    requires s[..n] == tag && s[|marker|..n - 1] == name && s[n..] == rest
    ensures ReplaceTags(before, s, marker, folder)
         == Format(folder, Match(tag, name, before, rest)) + ReplaceTags("", rest, marker, folder)
  {
  }

  lemma TagIsReplaced(before: string, marker: string, name: string, rest: string, folder: string)
    requires IsMarker(marker) && name != "" && Lacks(name, '>')
    ensures ReplaceTags(before, Tag(marker, name) + rest, marker, folder)
         == Format(folder, Match(Tag(marker, name), name, before, rest)) + ReplaceTags("", rest, marker, folder)
  {
    var tag := Tag(marker, name);
    LeadingTag(marker, name, rest);
    assert (tag + rest)[..|tag|] == tag;
    TagAtFront(before, tag + rest, |tag|, tag, name, rest, marker, folder);
  }

  /** Resolving a path with one tag at its front, for any folder: the folder is a format. */
  lemma LeadingTagFormats(marker: string, name: string, rest: string, folders: Folders)
    requires name != "" && Lacks(name, '>') && IsMarker(marker) && KnownFolder(name, folders) != ""
    ensures ResolvePath(Tag(marker, name) + rest, marker, folders)
         == Format(KnownFolder(name, folders), Match(Tag(marker, name), name, "", rest))
            + ReplaceTags("", rest, marker, KnownFolder(name, folders))
  {
    LeadingTag(marker, name, rest);
    TagIsReplaced("", marker, name, rest, KnownFolder(name, folders));
  }

  /** ... and for a plain one. */
  lemma LeadingTagResolves(marker: string, name: string, rest: string, folders: Folders)
    requires name != "" && Lacks(name, '>') && IsMarker(marker) && PlainFolder(name, folders)
    ensures ResolvePath(Tag(marker, name) + rest, marker, folders)
         == KnownFolder(name, folders) + ReplaceTags("", rest, marker, KnownFolder(name, folders))
  {
    LeadingTagFormats(marker, name, rest, folders);
    PlainIsLiteral(KnownFolder(name, folders), Match(Tag(marker, name), name, "", rest));
  }

  /** Where the condition fails the path may not resolve to the folder and the rest: with a folder that ends in
      the two characters "$&" the tag itself comes back. */
  lemma DollarExpands(marker: string, name: string, rest: string, stem: string)
    requires name != "" && Lacks(name, '>') && IsMarker(marker) && Lacks(stem, '$') && TagFree(rest, marker)
    ensures
      var folders: Folders := map[name := stem + ['$', '&']];
      && !Plain(stem + ['$', '&'])
      && ResolvePath(Tag(marker, name) + rest, marker, folders) == stem + Tag(marker, name) + rest
  {
    var m := Match(Tag(marker, name), name, "", rest);
    var fmt := ['$', '&'];
    LeadingTagFormats(marker, name, rest, map[name := stem + fmt]);
    TagFreeIsKept("", rest, marker, stem + fmt);
    FormatBehind(stem, fmt, m);
    assert fmt[2..] == [];
    assert Format(fmt, m) == Tag(marker, name);
    FormatBehind(stem, fmt, NOTHING);
    assert Format(fmt, NOTHING) == [];
    if Plain(stem + fmt) {
      PlainIsLiteral(stem + fmt, NOTHING);
    }
  }

  /** The first id of a path decides; when its folder is not known, or is empty, the path stays as it is, whatever
      other ids are in it. */
  lemma UnknownFolderIsKept(front: string, marker: string, name: string, rest: string, folders: Folders)
    requires name != "" && Lacks(name, '>') && IsMarker(marker) && Lacks(front, '<')
    requires name !in folders || folders[name] == ""
    ensures ResolvePath(front + (Tag(marker, name) + rest), marker, folders) == front + (Tag(marker, name) + rest)
  {
    FirstNameBehind(front, marker, name, rest);
  }

  lemma NoTagAt(front: string, s: string, marker: string)
    requires IsMarker(marker) && front != "" && front[0] != '<'
    ensures FirstName(front + s, marker) == FirstName(front[1..] + s, marker)
  {
    assert (front + s)[1..] == front[1..] + s && (front + s)[0] == front[0];
    assert !Starts(front + s, marker);
  }

  lemma {:induction false} FirstNameBehind(front: string, marker: string, name: string, rest: string)
    requires name != "" && Lacks(name, '>') && IsMarker(marker) && Lacks(front, '<')
    ensures FirstName(front + (Tag(marker, name) + rest), marker) == Some(name)
    decreases |front|
  {
    var s := Tag(marker, name) + rest;
    if front == "" {
      assert front + s == s;
      LeadingTag(marker, name, rest);
    } else {
      FirstNameBehind(front[1..], marker, name, rest);
      NoTagAt(front, s, marker);
    }
  }

  /** The one id that Linux knows: it becomes the user's home, and stays when there is no user. */
  lemma HomeResolves(home: string, rest: string)
    requires TagFree(rest, MARKER) && Plain(home)
    ensures ResolvePath("<FOLDERID_UserHome>" + rest, MARKER, LinuxFolders(home))
         == (if home == "" then "<FOLDERID_UserHome>" else home) + rest
  {
    LinuxIdIsTag(home);
    assert Tag(MARKER, USER_HOME) == "<FOLDERID_UserHome>";
    if home == "" {
      assert "" + (Tag(MARKER, USER_HOME) + rest) == Tag(MARKER, USER_HOME) + rest;
      UnknownFolderIsKept("", MARKER, USER_HOME, rest, LinuxFolders(home));
    } else {
      LeadingTagResolves(MARKER, USER_HOME, rest, LinuxFolders(home));
      TagFreeIsKept("", rest, MARKER, home);
    }
  }

  /** What is found out about a configured path with one leading tag: the tag, and the resolved path up
      to the first place of what follows the tag. */
  lemma LeadingTagIsFound(marker: string, name: string, rest: string, resolvedPath: string)
    requires name != "" && Lacks(name, '>') && IsMarker(marker)
    requires !SamePath(Tag(marker, name) + rest, resolvedPath)
    ensures FolderIdOf(Tag(marker, name) + rest, resolvedPath, marker)
         == FolderId(Tag(marker, name), ConversionOf(resolvedPath, rest))
  {
    var s := Tag(marker, name) + rest;
    assert s[..|marker|] == marker;
    FirstDelimiter(marker + name, '>', rest);
    assert s[..|marker + name| + 1] == Tag(marker, name);
  }

  /** In general, with the marker anywhere in the configured path, the first '>' of the path counts, even one in front
      of the marker: the id has as many characters as there are up to and with it, as far as there are any. */
  lemma FirstBracketCounts(a: string, b: string, resolvedPath: string, marker: string, first: nat)
    requires Lacks(a, '>') && Search(a + ['>'] + b, marker) == Some(first)
    requires !SamePath(a + ['>'] + b, resolvedPath)
    ensures
      var found := FolderIdOf(a + ['>'] + b, resolvedPath, marker);
      var at := Search(resolvedPath, b);
      && |found.id| == Least(|a| + 1, |a| + 1 + |b| - first) && Starts((a + ['>'] + b)[first..], found.id)
      && found.conversion == if at.Some? then resolvedPath[..at.value] else resolvedPath
  {
    FirstDelimiter(a, '>', b);
    assert |a + ['>'] + b| == |a| + 1 + |b|;
  }

  /** Without the marker, or without any '>', no id is found, and files are reported as they are. */
  lemma NoIdIsFound(unresolvedPath: string, resolvedPath: string, marker: string, file: string)
    requires !Contains(unresolvedPath, marker) || Lacks(unresolvedPath, '>')
    ensures Unresolve(file, FolderIdOf(unresolvedPath, resolvedPath, marker)) == Some(file)
  {
    if Lacks(unresolvedPath, '>') {
      LacksIndex(unresolvedPath, '>');
    }
  }

  lemma {:induction false} SearchInSuffix(front: string, rest: string)
    ensures Search(front + rest, rest).Some? && Search(front + rest, rest).value <= |front|
    decreases |front|
  {
    if front == "" {
      assert front + rest == rest;
    } else if !Starts(front + rest, rest) {
      assert (front + rest)[1..] == front[1..] + rest;
      SearchInSuffix(front[1..], rest);
    }
  }

  lemma {:induction false} NoTagAcross(front: string, s: string, marker: string)
    requires IsMarker(marker) && Lacks(front, '<') && TagFree(s, marker)
    ensures TagFree(front + s, marker)
    decreases |front|
  {
    if front == "" {
      assert front + s == s;
    } else {
      assert (front + s)[1..] == front[1..] + s;
      NoTagAcross(front[1..], s, marker);
      assert !Starts(front + s, marker) by {
        assert (front + s)[0] != marker[0];
      }
    }
  }

  /** What resolving gives back for a file, whatever was cut off: the folder, and behind it the file
      without its first `cut` characters. */
  lemma CutFileResolves(marker: string, name: string, file: string, cut: nat, folders: Folders)
    requires name != "" && Lacks(name, '>') && IsMarker(marker) && PlainFolder(name, folders) && cut <= |file|
    requires TagFree(file[cut..], marker)
    ensures ResolvePath(Tag(marker, name) + file[cut..], marker, folders) == KnownFolder(name, folders) + file[cut..]
  {
    LeadingTagResolves(marker, name, file[cut..], folders);
    TagFreeIsKept("", file[cut..], marker, KnownFolder(name, folders));
  }

  /** What is reported for a file of the folder: the tag, and the file from where the rest of the
      configured path first occurs in the resolved one. It resolves to the folder and that. */
  lemma ReportedFile(marker: string, name: string, rest: string, inFolder: string, folders: Folders)
    requires IsMarker(marker) && name != "" && Lacks(name, '>') && PlainFolder(name, folders)
    requires !SamePath(Tag(marker, name) + rest, KnownFolder(name, folders) + rest)
    ensures
      var folder := KnownFolder(name, folders);
      var cut := Search(folder + rest, rest);
      && cut.Some? && cut.value <= |folder|
      && Unresolve(folder + inFolder, FolderIdOf(Tag(marker, name) + rest, folder + rest, marker))
           == Some(Tag(marker, name) + (folder + inFolder)[cut.value..])
      && (TagFree((folder + inFolder)[cut.value..], marker) ==>
            ResolvePath(Tag(marker, name) + (folder + inFolder)[cut.value..], marker, folders)
              == folder + (folder + inFolder)[cut.value..])
  {
    var folder := KnownFolder(name, folders);
    LeadingTagIsFound(marker, name, rest, folder + rest);
    SearchInSuffix(folder, rest);
    var cut := Search(folder + rest, rest).value;
    assert |(folder + rest)[..cut]| == cut;
    if TagFree((folder + inFolder)[cut..], marker) {
      CutFileResolves(marker, name, folder + inFolder, cut, folders);
    }
  }

  /** The round trip. A configured path is one tag and a rest; it resolves to the folder and the rest, and a
      file was discovered in that folder. When the rest first occurs behind the folder, the path reported for
      the file resolves to the file. */
  lemma RoundTrip(marker: string, name: string, rest: string, inFolder: string, folders: Folders)
    requires IsMarker(marker) && name != "" && Lacks(name, '>') && PlainFolder(name, folders)
    requires TagFree(rest, marker) && TagFree(inFolder, marker)
    requires !SamePath(Tag(marker, name) + rest, KnownFolder(name, folders) + rest)
    requires Search(KnownFolder(name, folders) + rest, rest) == Some(|KnownFolder(name, folders)|)
    ensures ResolvePath(Tag(marker, name) + rest, marker, folders) == KnownFolder(name, folders) + rest
    ensures
      var folder := KnownFolder(name, folders);
      var unresolved := Unresolve(folder + inFolder, FolderIdOf(Tag(marker, name) + rest, folder + rest, marker));
      unresolved.Some? && ResolvePath(unresolved.value, marker, folders) == folder + inFolder
  {
    var folder := KnownFolder(name, folders);
    LeadingTagResolves(marker, name, rest, folders);
    TagFreeIsKept("", rest, marker, folder);
    PrefixAndRest(folder, inFolder);
    ReportedFile(marker, name, rest, inFolder, folders);
  }

  /** ... and its exact condition, for a folder without a '<': not when the rest occurs earlier; in particular
      never when the tag is all of the configured path. */
  lemma RoundTripIff(marker: string, name: string, rest: string, inFolder: string, folders: Folders)
    requires IsMarker(marker) && name != "" && Lacks(name, '>')
    requires PlainFolder(name, folders) && Lacks(KnownFolder(name, folders), '<')
    requires TagFree(rest, marker) && TagFree(inFolder, marker)
    ensures
      var folder := KnownFolder(name, folders);
      var unresolved := Unresolve(folder + inFolder, FolderIdOf(Tag(marker, name) + rest, folder + rest, marker));
      && unresolved.Some?
      && (ResolvePath(unresolved.value, marker, folders) == folder + inFolder
          <==> Search(folder + rest, rest) == Some(|folder|))
  {
    var folder := KnownFolder(name, folders);
    TagDiffers(marker, name, rest, folder + rest);
    ReportedFile(marker, name, rest, inFolder, folders);
    CutInFolder(folder, inFolder, Search(folder + rest, rest).value, marker);
  }

  lemma CutInFolder(folder: string, inFolder: string, cut: nat, marker: string)
    requires IsMarker(marker) && cut <= |folder| && Lacks(folder, '<') && TagFree(inFolder, marker)
    ensures TagFree((folder + inFolder)[cut..], marker)
    ensures folder + (folder + inFolder)[cut..] == folder + inFolder <==> cut == |folder|
  {
    assert (folder + inFolder)[cut..] == folder[cut..] + inFolder;
    NoTagAcross(folder[cut..], inFolder, marker);
    if cut == |folder| {
      assert folder[cut..] + inFolder == inFolder;
    } else {
      assert |folder + (folder + inFolder)[cut..]| > |folder + inFolder|;
    }
  }

  /** A folder's path, which is absolute, is never the same as that of a tag. */
  lemma TagDiffers(marker: string, name: string, rest: string, path: string)
    requires IsMarker(marker) && path != "" && path[0] != '<'
    ensures !SamePath(Tag(marker, name) + rest, path)
  {
    CollapseStarts(path);
    CollapseStarts(Tag(marker, name) + rest);
    assert (Tag(marker, name) + rest)[0] == marker[0];
  }

  /** A configured path that is a tag and nothing more: every file of the folder is reported with the
      folder in its path twice. */
  lemma BareTagFails(marker: string, name: string, inFolder: string, folders: Folders)
    requires IsMarker(marker) && name != "" && Lacks(name, '>') && TagFree(inFolder, marker)
    requires PlainFolder(name, folders) && Lacks(KnownFolder(name, folders), '<')
    ensures
      var folder := KnownFolder(name, folders);
      var unresolved := Unresolve(folder + inFolder, FolderIdOf(Tag(marker, name), folder, marker));
      unresolved.Some? && ResolvePath(unresolved.value, marker, folders) != folder + inFolder
  {
    var folder := KnownFolder(name, folders);
    assert Tag(marker, name) + [] == Tag(marker, name) && folder + [] == folder;
    assert Starts(folder, []);
    RoundTripIff(marker, name, [], inFolder, folders);
  }

  // ------------------------------------------------ a tag that is not in front

  lemma {:induction false} SearchBehind(front: string, pattern: string, rest: string)
    requires pattern != "" && Lacks(front, pattern[0])
    ensures Search(front + (pattern + rest), pattern) == Some(|front|)
    decreases |front|
  {
    var s := front + (pattern + rest);
    if front == "" {
      assert s == pattern + rest;
    } else {
      assert s[0] != pattern[0];
      assert s[1..] == front[1..] + (pattern + rest);
      SearchBehind(front[1..], pattern, rest);
    }
  }

  function Least(a: nat, b: nat): nat {
    if a <= b then a else b
  }

  lemma IdFrom(unresolvedPath: string, resolvedPath: string, marker: string, first: nat, last: nat,
               id: string, rest: string)
    requires first <= |unresolvedPath| && last < |unresolvedPath|
    requires Search(unresolvedPath, marker) == Some(first) && IndexOf(unresolvedPath, '>') == Some(last)
    requires Substr(unresolvedPath, first, last + 1) == id && unresolvedPath[last + 1..] == rest
    requires !SamePath(unresolvedPath, resolvedPath)
    ensures FolderIdOf(unresolvedPath, resolvedPath, marker) == FolderId(id, ConversionOf(resolvedPath, rest))
  {
  }

  lemma Regroup(a: string, b: string, c: string, d: string, e: string)
    ensures a + (b + c + d + e) == (a + b + c) + d + e
    ensures b + c + d + e == b + (c + d + e)
  {
  }

  lemma LacksAppend(a: string, b: string, d: string, c: char)
    requires Lacks(a, c) && Lacks(b, c) && Lacks(d, c)
    ensures Lacks(a + b + d, c)
  {
  }

  lemma InnerTagEnds(front: string, marker: string, name: string, rest: string)
    requires Lacks(name, '>') && IsMarker(marker) && Lacks(front, '>')
    ensures IndexOf(front + (Tag(marker, name) + rest), '>') == Some(|front| + |Tag(marker, name)| - 1)
    ensures (front + (Tag(marker, name) + rest))[|front| + |Tag(marker, name)|..] == rest
  {
    Regroup(front, marker, name, ['>'], rest);
    LacksAppend(front, marker, name, '>');
    FirstDelimiter(front + marker + name, '>', rest);
  }

  lemma InnerTagStarts(front: string, marker: string, name: string, rest: string)
    requires IsMarker(marker) && Lacks(front, '<')
    ensures Search(front + (Tag(marker, name) + rest), marker) == Some(|front|)
  {
    Regroup(front, marker, name, ['>'], rest);
    SearchBehind(front, marker, name + ['>'] + rest);
  }

  lemma InnerTagIsFound(front: string, marker: string, name: string, rest: string, resolvedPath: string)
    requires Lacks(name, '>') && IsMarker(marker) && Lacks(front, '<') && Lacks(front, '>')
    requires !SamePath(front + (Tag(marker, name) + rest), resolvedPath)
    ensures FolderIdOf(front + (Tag(marker, name) + rest), resolvedPath, marker)
         == FolderId(Tag(marker, name) + rest[..Least(|front|, |rest|)], ConversionOf(resolvedPath, rest))
  {
    var tag := Tag(marker, name);
    InnerTagStarts(front, marker, name, rest);
    InnerTagEnds(front, marker, name, rest);
    InnerSubstr(front, tag, rest);
    IdFrom(front + (tag + rest), resolvedPath, marker, |front|, |front| + |tag| - 1,
           tag + rest[..Least(|front|, |rest|)], rest);
  }

  lemma InnerSubstr(front: string, tag: string, rest: string)
    ensures Substr(front + (tag + rest), |front|, |front| + |tag|) == tag + rest[..Least(|front|, |rest|)]
  {
    assert (front + (tag + rest))[|front|..] == tag + rest;
  }

  /** With text in front of the tag, substr's count reaches that far beyond the tag: the reported path
      loses what its conversion stands for and repeats as much of the rest as there is text in front. It resolves
      to the file exactly when the folder followed by that repetition is what was lost. */
  lemma InnerTagIff(front: string, marker: string, name: string, rest: string, inFolder: string, folders: Folders)
    requires IsMarker(marker) && name != "" && Lacks(name, '>') && Lacks(front, '<') && Lacks(front, '>')
    requires PlainFolder(name, folders)
    requires !SamePath(front + (Tag(marker, name) + rest), front + KnownFolder(name, folders) + rest)
    requires
      var cut := Search(front + KnownFolder(name, folders) + rest, rest);
      cut.Some? && cut.value <= |front + KnownFolder(name, folders)| ==>
        TagFree(rest[..Least(|front|, |rest|)] + (front + KnownFolder(name, folders) + inFolder)[cut.value..], marker)
    ensures
      var resolvedPath := front + KnownFolder(name, folders) + rest;
      var file := front + KnownFolder(name, folders) + inFolder;
      var cut := Search(resolvedPath, rest);
      var repeated := rest[..Least(|front|, |rest|)];
      var unresolved := Unresolve(file, FolderIdOf(front + (Tag(marker, name) + rest), resolvedPath, marker));
      && cut.Some? && cut.value <= |front + KnownFolder(name, folders)|
      && unresolved == Some(Tag(marker, name) + repeated + file[cut.value..])
      && (ResolvePath(unresolved.value, marker, folders) == file
          <==> KnownFolder(name, folders) + repeated == resolvedPath[..cut.value])
  {
    var folder := KnownFolder(name, folders);
    var base := front + folder;
    var repeated := rest[..Least(|front|, |rest|)];
    SearchInSuffix(base, rest);
    var cut := Search(base + rest, rest).value;
    var file := base + inFolder;
    InnerTagIsFound(front, marker, name, rest, base + rest);
    SamePrefix(base, rest, inFolder, cut);
    UnresolveBehind(Tag(marker, name) + repeated, file[..cut], file[cut..]);
    assert file[..cut] + file[cut..] == file;
    RestIsKept(marker, name, repeated, file[cut..], folders);
    SameBefore(folder + repeated, file[..cut], file[cut..]);
  }

  lemma SamePrefix(base: string, a: string, b: string, n: nat)
    requires n <= |base|
    ensures (base + a)[..n] == (base + b)[..n] && |(base + a)[..n]| == n
  {
  }

  lemma PrefixAndRest(a: string, b: string)
    ensures (a + b)[..|a|] == a && (a + b)[|a|..] == b
  {
  }

  lemma UnresolveBehind(id: string, conversion: string, inFolder: string)
    requires id != ""
    ensures Unresolve(conversion + inFolder, FolderId(id, conversion)) == Some(id + inFolder)
  {
    PrefixAndRest(conversion, inFolder);
  }

  lemma RestIsKept(marker: string, name: string, repeated: string, inFolder: string, folders: Folders)
    requires IsMarker(marker) && name != "" && Lacks(name, '>') && PlainFolder(name, folders)
    requires TagFree(repeated + inFolder, marker)
    ensures ResolvePath(Tag(marker, name) + repeated + inFolder, marker, folders)
         == KnownFolder(name, folders) + repeated + inFolder
  {
    LeadingTagResolves(marker, name, repeated + inFolder, folders);
    TagFreeIsKept("", repeated + inFolder, marker, KnownFolder(name, folders));
    Associates(Tag(marker, name), repeated, inFolder);
    Associates(KnownFolder(name, folders), repeated, inFolder);
  }

  lemma Associates(a: string, b: string, c: string)
    ensures a + b + c == a + (b + c)
  {
  }

  lemma SameBefore(a: string, b: string, c: string)
    ensures a + c == b + c <==> a == b
  {
    if a + c == b + c {
      assert a == (a + c)[..|a|] && b == (b + c)[..|b|];
    }
  }

  // ----------------------------------------------------- where it does go wrong

  lemma {:induction false} CollapseAppends(front: string, rest: string)
    requires front != "" ==> front[|front| - 1] != '/'
    ensures Collapse(front + rest) == Collapse(front) + Collapse(rest)
    decreases |front|
  {
    if front == "" {
      assert front + rest == rest;
    } else {
      assert (front + rest)[1..] == front[1..] + rest;
      CollapseAppends(front[1..], rest);
    }
  }

  lemma InnerTagDiffers(front: string, marker: string, name: string, rest: string, folder: string)
    requires IsMarker(marker) && front != "" && front[|front| - 1] != '/'
    requires folder != "" && folder[0] != '<'
    ensures !SamePath(front + (Tag(marker, name) + rest), front + folder + rest)
  {
    TagDiffers(marker, name, rest, folder + rest);
    CollapseAppends(front, Tag(marker, name) + rest);
    CollapseAppends(front, folder + rest);
    Associates(front, folder, rest);
    SameBehind(Collapse(front), Collapse(Tag(marker, name) + rest), Collapse(folder + rest));
  }

  lemma SameBehind(a: string, b: string, c: string)
    ensures a + b == a + c <==> b == c
  {
    if a + b == a + c {
      assert b == (a + b)[|a|..] && c == (a + c)[|a|..];
    }
  }

  lemma SearchSkips(s: string, rest: string, pattern: string)
    requires s != "" && s[1..] == rest && !Starts(s, pattern) && Search(rest, pattern).Some?
    ensures Search(s, pattern) == Some(Search(rest, pattern).value + 1)
  {
  }

  lemma StartsWithPair(s: string, a: char, b: char)
    requires |s| >= 2
    ensures Starts(s, [a, b]) <==> s[0] == a && s[1] == b
  {
  }

  lemma ConsIs(c: char, rest: string)
    ensures ([c] + rest)[0] == c && ([c] + rest)[1..] == rest
    ensures rest != "" ==> ([c] + rest)[1] == rest[0]
  {
  }

  /** The first place of /r in /p/q/r. */
  lemma ThirdPlace(p: char, q: char, r: char)
    requires p != '/' && q != '/' && r != p && r != q
    ensures Search(['/', p] + ['/', q] + ['/', r], ['/', r]) == Some(4)
  {
    var s4 := ['/', r];
    var s3, s2, s1 := [q] + s4, ['/'] + ([q] + s4), [p] + (['/'] + ([q] + s4));
    assert Starts(s4, s4);
    ConsIs(q, s4);
    StartsWithPair(s3, '/', r);
    SearchSkips(s3, s4, s4);
    ConsIs('/', s3);
    StartsWithPair(s2, '/', r);
    SearchSkips(s2, s3, s4);
    ConsIs(p, s2);
    StartsWithPair(s1, '/', r);
    SearchSkips(s1, s2, s4);
    ConsIs('/', s1);
    StartsWithPair(['/'] + s1, '/', r);
    SearchSkips(['/'] + s1, s1, s4);
    assert ['/'] + s1 == ['/', p] + ['/', q] + ['/', r];
  }

  /** Configured paths with the id inside, where a file loses the round trip: for the pattern /p<id>/r and the
      folder /q, the file /p/q/r is reported under a path that resolves to /q/r/r. The letters p, q and r are
      any that differ as stated. */
  lemma InnerTagFails(p: char, q: char, r: char, marker: string, name: string)
    requires {p, q, r} !! {'/', '<', '>', '$'} && r != p && r != q
    requires IsMarker(marker) && name != "" && Lacks(name, '>')
    ensures
      var file := ['/', p] + ['/', q] + ['/', r];
      var unresolved := Unresolve(file, FolderIdOf(['/', p] + (Tag(marker, name) + ['/', r]), file, marker));
      unresolved.Some? && ResolvePath(unresolved.value, marker, map[name := ['/', q]]) != file
  {
    var front, folder, rest := ['/', p], ['/', q], ['/', r];
    InnerTagDiffers(front, marker, name, rest, folder);
    ThirdPlace(p, q, r);
    assert rest[..Least(|front|, |rest|)] == rest;
    PrefixAndRest(front + folder, rest);
    NoTagWithout(rest + rest, marker);
    NoDollarIsPlain(folder);
    InnerTagIff(front, marker, name, rest, rest, map[name := folder]);
    assert (folder + rest)[3] == r && (front + folder)[3] == q;
  }

  /** The marker and the name that the code knows. */
  lemma LinuxIdIsTag(home: string)
    ensures IsMarker(MARKER) && USER_HOME != "" && Lacks(USER_HOME, '>')
    ensures KnownFolder(USER_HOME, LinuxFolders(home)) == home
  {
  }

  lemma {:induction false} NoTagWithout(s: string, marker: string)
    requires Lacks(s, '<') && IsMarker(marker)
    ensures TagFree(s, marker)
  {
    if s != "" {
      NoTagWithout(s[1..], marker);
      assert !Starts(s, marker) by {
        assert s[0] != marker[0];
      }
    }
  }

  lemma StartsHas(s: string, pattern: string, i: nat)
    requires i < |pattern| && Starts(s, pattern)
    ensures !Lacks(s, pattern[i])
  {
    assert s[i] == s[..|pattern|][i];
  }

  lemma {:induction false} SearchNeeds(s: string, pattern: string, i: nat)
    requires i < |pattern| && Lacks(s, pattern[i])
    ensures Search(s, pattern).None?
    decreases |s|
  {
    if Starts(s, pattern) {
      StartsHas(s, pattern, i);
    }
    if s != "" {
      SearchNeeds(s[1..], pattern, i);
    }
  }

  /** Two ids one behind the other: both are resolved, but the rest behind the first still has the second, so it
      is not found, and the first id is taken to stand for the whole resolved path. */
  lemma SecondTagIsNotFound(marker: string, name: string, rest: string, folders: Folders)
    requires IsMarker(marker) && name != "" && Lacks(name, '>')
    requires PlainFolder(name, folders) && Lacks(KnownFolder(name, folders), '<') && Lacks(rest, '<')
    ensures
      var folder := KnownFolder(name, folders);
      var unresolvedPath := Tag(marker, name) + (Tag(marker, name) + rest);
      var resolvedPath := folder + (folder + rest);
      && ResolvePath(unresolvedPath, marker, folders) == resolvedPath
      && FolderIdOf(unresolvedPath, resolvedPath, marker) == FolderId(Tag(marker, name), resolvedPath)
  {
    var folder, tag := KnownFolder(name, folders), Tag(marker, name);
    var behind := tag + rest;
    var resolvedPath := folder + (folder + rest);
    LeadingTagResolves(marker, name, behind, folders);
    TagIsReplaced("", marker, name, rest, folder);
    PlainIsLiteral(folder, Match(tag, name, "", rest));
    NoTagWithout(rest, marker);
    TagFreeIsKept("", rest, marker, folder);
    assert behind[0] == '<';
    SearchNeeds(resolvedPath, behind, 0);
    TagDiffers(marker, name, behind, resolvedPath);
    LeadingTagIsFound(marker, name, behind, resolvedPath);
  }
}
