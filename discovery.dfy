/**
  Channel discovery: the names under which channel and provider files are
  cached, the APT list file a sources.list entry's Release data is read from,
  the `Origin:`/`Label:`/`Codename:` fields of that file, and the loops that
  fill the cache, offer every entry to the channels and collect the enabled
  ones.

  Listing the channel directory, the existence test and the reading of list
  files are I/O: the model takes the directory's file names, the channel
  files' sections and the readable list files (path to lines) as parameters.
 */
module Discovery {
  import opened Wrappers
  import opened Lists
  import opened Strings
  import opened Channels
  import opened Relations

  // ---------------------------------------------------------------------
  // Cache keys

  /** The key a file of the channel directory is cached under, or None for a file that is skipped. */
  function CacheKey(file: string): (k: Option<string>)
    ensures k.None? <==> !EndsWith(file, ".channel") && !EndsWith(file, ".provider")
  {
    if !EndsWith(file, ".channel") && !EndsWith(file, ".provider") then None
    else Some(RemoveAll(file, ".channel"))
  }

  /** No `.channel` can straddle the end of `a` when what follows starts with a dot. */
  lemma NoStraddle(a: string, t: string)
    requires |t| > 0 && t[0] == '.'
    ensures forall j :: 0 <= j < |a| && |a| < j + 8 ==> !OccursAt(a + t, ".channel", j)
  {
    forall j | 0 <= j < |a| && |a| < j + 8 ensures !OccursAt(a + t, ".channel", j) {
      if j + 8 <= |a + t| {
        var k := |a| - j;
        assert (a + t)[j..j + 8][k] == (a + t)[|a|] == '.';
        assert ".channel"[k] != '.';
      }
    }
  }

  /** `b.channel` is cached as `b` when `b` has no `.channel` of its own. */
  lemma ChannelFileKey(b: string)
    requires !Occurs(b, ".channel")
    ensures CacheKey(b + ".channel") == Some(b)
  {
    NoStraddle(b, ".channel");
    RemoveAllSplit(b, ".channel", ".channel");
    RemoveAllAbsent(b, ".channel");
    assert RemoveAll(".channel", ".channel") == "";
    assert b + "" == b;
    assert (b + ".channel")[|b + ".channel"| - 8..] == ".channel";
  }

  /** Removing `.channel` from `.provider` changes nothing. */
  lemma ProviderSuffixKept()
    ensures RemoveAll(".provider", ".channel") == ".provider"
  {
    var p := ".provider";
    assert p[..8] != ".channel" by { assert p[1] == 'p'; }
    assert p[1..][..8] != ".channel" by { assert p[1] == 'p'; }
    assert |p[2..]| < 8;
    assert [p[0]] + ([p[1]] + p[2..]) == p;
  }

  /** `.provider` survives the removal of `.channel`: a provider file's key ends in `.provider`. */
  lemma ProviderKeepsSuffix(file: string)
    requires EndsWith(file, ".provider")
    ensures CacheKey(file).Some? && EndsWith(CacheKey(file).value, ".provider")
  {
    var a := file[..|file| - 9];
    assert file == a + ".provider";
    NoStraddle(a, ".provider");
    RemoveAllSplit(a, ".provider", ".channel");
    ProviderSuffixKept();
    var key := RemoveAll(a, ".channel") + ".provider";
    assert key[|key| - 9..] == ".provider";
  }

  /** `b.provider` is cached as `b.provider` when `b` has no `.channel`. */
  lemma ProviderFileKey(b: string)
    requires !Occurs(b, ".channel")
    ensures CacheKey(b + ".provider") == Some(b + ".provider")
  {
    NoStraddle(b, ".provider");
    RemoveAllSplit(b, ".provider", ".channel");
    RemoveAllAbsent(b, ".channel");
    ProviderSuffixKept();
    assert (b + ".provider")[|b + ".provider"| - 9..] == ".provider";
  }

  // ---------------------------------------------------------------------
  // Release file names

  /** The list without its empty strings. */
  function NonEmpty(xs: seq<string>): (r: seq<string>)
    ensures "" !in r
    ensures forall x :: x in r <==> x in xs && x != ""
    decreases |xs|
  {
    if xs == [] then []
    else if xs[0] == "" then NonEmpty(xs[1..])
    else [xs[0]] + NonEmpty(xs[1..])
  }

  /** Removing one empty string does not change the non-empty pieces. */
  lemma {:induction false} RemoveFirstEmpty(xs: seq<string>)
    requires "" in xs
    ensures NonEmpty(RemoveFirst(xs, "")) == NonEmpty(xs)
    decreases |xs|
  {
    if xs[0] != "" {
      RemoveFirstEmpty(xs[1..]);
      assert ([xs[0]] + RemoveFirst(xs[1..], ""))[1..] == RemoveFirst(xs[1..], "");
    }
  }

  /** A list without empty strings is its own non-empty part. */
  lemma {:induction false} NonEmptyFixed(xs: seq<string>)
    requires "" !in xs
    ensures NonEmpty(xs) == xs
    decreases |xs|
  {
    if xs != [] {
      assert xs[0] in xs;
      NonEmptyFixed(xs[1..]);
      assert [xs[0]] + xs[1..] == xs;
    }
  }

  /** The pieces of the URI: slashes turned into underscores, then split on underscores. */
  function UriPieces(uri: string): seq<string> {
    Split(ReplaceChar(uri, '/', '_'), '_')
  }

  /** The release base of an entry: the non-empty URI pieces without the first (the protocol),
      followed by `dists` and the distribution with slashes turned into underscores. */
  function ReleaseBase(uri: string, dist: string): (r: seq<string>)
    ensures |r| == |NonEmpty(UriPieces(uri))| + 1
    ensures |r| >= 2 ==> r[|r| - 2] == "dists"
    ensures r[|r| - 1] == ReplaceChar(dist, '/', '_')
    ensures forall i :: 0 <= i < |r| - 2 ==> r[i] != "" && '/' !in r[i] && '_' !in r[i]
  {
    var pieces := UriPieces(uri);
    assert forall x :: x in NonEmpty(pieces) ==> x in pieces && '_' !in x && '/' !in x by {
      forall x | x in pieces ensures '/' !in x {
        var j :| 0 <= j < |pieces| && pieces[j] == x;
        PieceOfSplit(ReplaceChar(uri, '/', '_'), '_', j);
      }
    }
    (NonEmpty(pieces) + ["dists", ReplaceChar(dist, '/', '_')])[1..]
  }

  /** Every character of a split piece is a character of the split string. */
  lemma {:induction false} PieceOfSplit(s: string, sep: char, j: int)
    requires 0 <= j < |Split(s, sep)|
    ensures forall c :: c in Split(s, sep)[j] ==> c in s
    decreases |s|
  {
    if |s| > 0 {
      var rest := Split(s[1..], sep);
      if s[0] == sep {
        if j > 0 {
          PieceOfSplit(s[1..], sep, j - 1);
        }
      } else if j == 0 {
        PieceOfSplit(s[1..], sep, 0);
      } else {
        PieceOfSplit(s[1..], sep, j);
      }
    }
  }

  /** The computation at lines 70-77: split, drop the empty pieces one `remove` at a time, append
      the distribution, drop the protocol piece. */
  method ComputeReleaseBase(uri: string, dist: string) returns (base: seq<string>)
    ensures base == ReleaseBase(uri, dist)
  {
    base := Split(ReplaceChar(uri, '/', '_'), '_');
    while "" in base
      invariant NonEmpty(base) == NonEmpty(UriPieces(uri))
      decreases |base|
    {
      RemoveFirstEmpty(base);
      base := RemoveFirst(base, "");
    }
    NonEmptyFixed(base);
    base := base + ["dists", ReplaceChar(dist, '/', '_')];
    base := base[1..];
  }

  /** The directory APT keeps its list files in. */
  const ListsDir := "/var/lib/apt/lists"

  /** `os.path.join(ListsDir, name)` for a relative name. */
  function ListPath(name: string): string {
    ListsDir + "/" + name
  }

  /** Appending one more piece to a non-empty list adds a separator and the piece to its join. */
  lemma {:induction false} JoinSnoc(parts: seq<string>, x: string, sep: char)
    requires |parts| > 0
    ensures Join(parts + [x], sep) == Join(parts, sep) + [sep] + x
    decreases |parts|
  {
    if |parts| == 1 {
      assert (parts + [x])[1..] == [x];
    } else {
      assert (parts + [x])[1..] == parts[1..] + [x];
      JoinSnoc(parts[1..], x, sep);
    }
  }

  /** The InRelease file of a release base. */
  function InReleasePath(base: seq<string>): string {
    ListPath(Join(base + ["InRelease"], '_'))
  }

  /** The Release fallback as written: the join starts at the second piece of the base. */
  function ReleasePathAsWritten(base: seq<string>): string {
    var rest := if |base| == 0 then [] else base[1..];
    ListPath(Join(rest + ["Release"], '_'))
  }

  /** The Release fallback as intended: the same stem as the InRelease file. */
  function ReleasePath(base: seq<string>): string {
    ListPath(Join(base + ["Release"], '_'))
  }

  /** The InRelease and Release files of a base share their stem, the base joined by underscores. */
  lemma ReleaseFilesShareStem(base: seq<string>)
    requires |base| > 0
    ensures InReleasePath(base) == ListPath(Join(base, '_') + "_" + "InRelease")
    ensures ReleasePath(base) == ListPath(Join(base, '_') + "_" + "Release")
  {
    JoinSnoc(base, "InRelease", '_');
    JoinSnoc(base, "Release", '_');
  }

  /** As written, the fallback loses the first piece of the base (the host) and its separator,
      so it never names the file beside the InRelease file. */
  lemma ReleasePathAsWrittenDropsHost(base: seq<string>)
    requires |base| >= 2
    ensures ReleasePath(base) == ListPath(base[0] + "_" + Join(base[1..], '_') + "_" + "Release")
    ensures ReleasePathAsWritten(base) == ListPath(Join(base[1..], '_') + "_" + "Release")
    ensures |ReleasePath(base)| == |ReleasePathAsWritten(base)| + |base[0]| + 1
    ensures ReleasePath(base) != ReleasePathAsWritten(base)
  {
    assert Join(base, '_') == base[0] + "_" + Join(base[1..], '_');
    JoinSnoc(base, "Release", '_');
    JoinSnoc(base[1..], "Release", '_');
  }

  /** For every entry whose URI has a non-empty piece, the fallback as written is not the Release
      file beside the entry's InRelease file. */
  lemma FallbackMissesSibling(uri: string, dist: string)
    requires |NonEmpty(UriPieces(uri))| >= 1
    ensures ReleasePathAsWritten(ReleaseBase(uri, dist)) != ReleasePath(ReleaseBase(uri, dist))
  {
    ReleasePathAsWrittenDropsHost(ReleaseBase(uri, dist));
  }

  // ---------------------------------------------------------------------
  // Release fields

  /** The three fields discovery reads from a Release file; None where the file has none. */
  datatype ReleaseInfo = ReleaseInfo(origin: Option<string>, releaseLabel: Option<string>, codename: Option<string>)

  /** The value a line gives to `key`: the line is stripped and split on spaces, and when its first
      token is `key` the value is the remaining tokens joined by spaces. */
  function FieldValue(line: string, key: string): Option<string> {
    var tokens := Split(Strip(line), ' ');
    if tokens[0] == key then Some(Join(tokens[1..], ' ')) else None
  }

  /** A line gives `v` to `key` exactly when, stripped, it is `key` alone (and `v` is empty) or
      `key`, one space and `v`. */
  lemma FieldValueMeaning(line: string, key: string, v: string)
    requires ' ' !in key
    ensures FieldValue(line, key) == Some(v) <==> (Strip(line) == key && v == "") || Strip(line) == key + " " + v
  {
    if FieldValue(line, key) == Some(v) {
      FieldValueGives(line, key, v);
    }
    if (Strip(line) == key && v == "") || Strip(line) == key + " " + v {
      FieldValueOf(line, key, v);
    }
  }

  /** A line that gives `v` to `key` is, stripped, `key` alone or `key`, one space and `v`. */
  lemma FieldValueGives(line: string, key: string, v: string)
    requires FieldValue(line, key) == Some(v)
    ensures (Strip(line) == key && v == "") || Strip(line) == key + " " + v
  {
    var s := Strip(line);
    var tokens := Split(s, ' ');
    JoinSplit(s, ' ');
    if |tokens| > 1 {
      assert s == tokens[0] + " " + Join(tokens[1..], ' ');
    }
  }

  /** A line that is, stripped, `key` alone or `key`, one space and `v`, gives `v` to `key`. */
  lemma FieldValueOf(line: string, key: string, v: string)
    requires ' ' !in key
    requires (Strip(line) == key && v == "") || Strip(line) == key + " " + v
    ensures FieldValue(line, key) == Some(v)
  {
    var s := Strip(line);
    if s == key && v == "" {
      SplitFree(key, ' ');
    } else {
      SplitPrefix(key, v, ' ');
      JoinSplit(v, ' ');
      assert Split(s, ' ')[1..] == Split(v, ' ');
    }
  }

  /** The last value present in `vs`, or None when none is. */
  function LastSome(vs: seq<Option<string>>): Option<string>
    decreases |vs|
  {
    if vs == [] then None
    else if vs[|vs| - 1].Some? then vs[|vs| - 1]
    else LastSome(vs[..|vs| - 1])
  }

  /** LastSome is None exactly when no value is present, and otherwise it is a value after which
      no value is present. */
  lemma {:induction false} LastSomeMeaning(vs: seq<Option<string>>)
    ensures LastSome(vs).None? <==> forall i :: 0 <= i < |vs| ==> vs[i].None?
    ensures LastSome(vs).Some? ==> exists i :: 0 <= i < |vs| && vs[i] == LastSome(vs) && forall j :: i < j < |vs| ==> vs[j].None?
    decreases |vs|
  {
    if vs != [] && vs[|vs| - 1].None? {
      var prefix := vs[..|vs| - 1];
      LastSomeMeaning(prefix);
      assert forall i :: 0 <= i < |prefix| ==> prefix[i] == vs[i];
      if LastSome(vs).Some? {
        var i :| 0 <= i < |prefix| && prefix[i] == LastSome(prefix) && forall j :: i < j < |prefix| ==> prefix[j].None?;
        assert vs[i] == LastSome(vs);
      }
    }
  }

  /** The value each line gives to `key`. */
  function FieldValues(lines: seq<string>, key: string): (vs: seq<Option<string>>)
    ensures |vs| == |lines| && forall i :: 0 <= i < |lines| ==> vs[i] == FieldValue(lines[i], key)
  {
    seq(|lines|, i requires 0 <= i < |lines| => FieldValue(lines[i], key))
  }

  /** The value the last line giving `key` a value gives it, or None when no line does. */
  function LastField(lines: seq<string>, key: string): Option<string> {
    LastSome(FieldValues(lines, key))
  }

  /** LastField is None exactly when no line gives the key a value, and otherwise it is the value
      of a line after which no line gives the key a value. */
  lemma LastFieldMeaning(lines: seq<string>, key: string)
    ensures LastField(lines, key).None? <==> forall i :: 0 <= i < |lines| ==> FieldValue(lines[i], key).None?
    ensures LastField(lines, key).Some? ==>
      exists i :: (0 <= i < |lines| && FieldValue(lines[i], key) == LastField(lines, key)
        && forall j :: i < j < |lines| ==> FieldValue(lines[j], key).None?)
  {
    LastSomeMeaning(FieldValues(lines, key));
  }

  /** One more line: its value for `key`, if it gives one, becomes the last. */
  lemma LastFieldSnoc(lines: seq<string>, line: string, key: string)
    ensures LastField(lines + [line], key) == if FieldValue(line, key).Some? then FieldValue(line, key) else LastField(lines, key)
  {
    var vs := FieldValues(lines + [line], key);
    assert vs[..|lines|] == FieldValues(lines, key);
  }

  /** The fields of a Release file given as its lines. */
  function Parsed(lines: seq<string>): ReleaseInfo {
    ReleaseInfo(LastField(lines, "Origin:"), LastField(lines, "Label:"), LastField(lines, "Codename:"))
  }

  /** The three keys are distinct, so a line gives a value to at most one of them. */
  lemma KeysDistinct()
    ensures "Origin:" != "Label:" && "Origin:" != "Codename:" && "Label:" != "Codename:"
  {
    assert "Origin:"[0] == 'O' && "Label:"[0] == 'L' && "Codename:"[0] == 'C';
  }

  /** The body of the loop at lines 97-105 for one line: the line updates the field its first
      token names, if any. */
  method ParseLine(info: ReleaseInfo, line: string, ghost prefix: seq<string>) returns (next: ReleaseInfo)
    requires info == Parsed(prefix)
    ensures next == Parsed(prefix + [line])
  {
    KeysDistinct();
    LastFieldSnoc(prefix, line, "Origin:");
    LastFieldSnoc(prefix, line, "Label:");
    LastFieldSnoc(prefix, line, "Codename:");
    var tokens := Split(Strip(line), ' ');
    var value := Some(Join(tokens[1..], ' '));
    if tokens[0] == "Origin:" {
      next := info.(origin := value);
    } else if tokens[0] == "Label:" {
      next := info.(releaseLabel := value);
    } else if tokens[0] == "Codename:" {
      next := info.(codename := value);
    } else {
      next := info;
    }
  }

  /** The loop at lines 96-105: every line is parsed in turn, so a later line overrides an
      earlier one. */
  method ParseRelease(lines: seq<string>) returns (info: ReleaseInfo)
    ensures info == Parsed(lines)
  {
    info := ReleaseInfo(None, None, None);
    assert info == Parsed(lines[..0]) by {
      assert lines[..0] == [];
    }
    for i := 0 to |lines|
      invariant info == Parsed(lines[..i])
    {
      info := ParseLine(info, lines[i], lines[..i]);
      assert lines[..i] + [lines[i]] == lines[..i + 1];
    }
    assert lines[..|lines|] == lines;
  }

  /** Lines 85-105 as intended: the InRelease file when it exists, else the Release file beside
      it, else no fields. `lists` holds the list files that exist, with their lines. */
  function ReleaseInfoFor(entry: SourceEntry, lists: map<string, seq<string>>): (info: ReleaseInfo)
    ensures var base := ReleaseBase(entry.uri, entry.dist);
      InReleasePath(base) !in lists && ReleasePath(base) !in lists ==> info == ReleaseInfo(None, None, None)
    ensures var base := ReleaseBase(entry.uri, entry.dist);
      InReleasePath(base) !in lists && ReleasePath(base) in lists ==> info == Parsed(lists[ReleasePath(base)])
  {
    var base := ReleaseBase(entry.uri, entry.dist);
    if InReleasePath(base) in lists then Parsed(lists[InReleasePath(base)])
    else if ReleasePath(base) in lists then Parsed(lists[ReleasePath(base)])
    else ReleaseInfo(None, None, None)
  }

  /** The InRelease file wins over the Release file when both exist. */
  lemma InReleasePreferred(entry: SourceEntry, lists: map<string, seq<string>>)
    requires InReleasePath(ReleaseBase(entry.uri, entry.dist)) in lists
    ensures ReleaseInfoFor(entry, lists) == Parsed(lists[InReleasePath(ReleaseBase(entry.uri, entry.dist))])
  {
  }

  /** Lines 80-105 as written: the InRelease file, else the fallback that line 82 names. */
  function ReleaseInfoAsWritten(entry: SourceEntry, lists: map<string, seq<string>>): (info: ReleaseInfo)
    ensures var base := ReleaseBase(entry.uri, entry.dist);
      InReleasePath(base) !in lists && ReleasePathAsWritten(base) !in lists ==> info == ReleaseInfo(None, None, None)
  {
    var base := ReleaseBase(entry.uri, entry.dist);
    if InReleasePath(base) in lists then Parsed(lists[InReleasePath(base)])
    else if ReleasePathAsWritten(base) in lists then Parsed(lists[ReleasePathAsWritten(base)])
    else ReleaseInfo(None, None, None)
  }

  /** When the only list file of an entry with a host is the Release file beside its InRelease
      file, the intended lookup reads its fields, while the lookup as written finds no file and
      leaves every field unknown, so `check()` falls back to comparing mirrors. */
  lemma SiblingReleaseIgnoredAsWritten(entry: SourceEntry, lines: seq<string>)
    requires |NonEmpty(UriPieces(entry.uri))| >= 1
    ensures var sibling := map[ReleasePath(ReleaseBase(entry.uri, entry.dist)) := lines];
      ReleaseInfoFor(entry, sibling) == Parsed(lines)
      && ReleaseInfoAsWritten(entry, sibling) == ReleaseInfo(None, None, None)
  {
    var base := ReleaseBase(entry.uri, entry.dist);
    ReleaseFilesShareStem(base);
    FallbackMissesSibling(entry.uri, entry.dist);
    assert |InReleasePath(base)| == |ReleasePath(base)| + 2;
  }

  // ---------------------------------------------------------------------
  // The discovery loops

  /** Lines 66-67: entries without a URI and source entries are not looked at. */
  predicate Skipped(entry: SourceEntry) {
    entry.uri == "" || entry.kind == "deb-src"
  }

  /** The URI `check()` is given for an entry: with a trailing slash (line 115). */
  function CheckUri(entry: SourceEntry): (u: string)
    ensures EndsWith(u, "/")
  {
    WithSlash(entry.uri)
  }

  /** Every repository section of `sections` has what `check()` reads for the given URI and origin. */
  predicate SectionsCheckableAt(sections: map<string, Section>, uri: string, origin: Option<string>) {
    forall r :: r in sections && r != "channel" ==> SectionCheckable(sections[r], uri, origin)
  }

  /** Every repository section of `sections` has what `check()` reads when it is offered `entry`. */
  predicate SectionsCheckable(sections: map<string, Section>, entry: SourceEntry, lists: map<string, seq<string>>) {
    SectionsCheckableAt(sections, CheckUri(entry), ReleaseInfoFor(entry, lists).origin)
  }

  /** The repository map of a channel after it is offered `entry` with the given codename. */
  function Offered(ch: Channel, repos: map<string, Option<SourceEntry>>, entry: SourceEntry,
                   lists: map<string, seq<string>>, codename: string): (res: map<string, Option<SourceEntry>>)
    requires !Skipped(entry) ==> SectionsCheckable(ch.sections, entry, lists)
    requires repos.Keys <= ch.sections.Keys - {"channel"}
    ensures res.Keys == repos.Keys
    ensures Skipped(entry) ==> res == repos
    ensures !Skipped(entry) ==> forall r :: r in repos ==>
      res[r] == (if ch.Matches(r, CheckUri(entry), ReleaseInfoFor(entry, lists).origin, codename) then Some(entry) else repos[r])
  {
    if Skipped(entry) then repos
    else ch.CheckResult(repos, CheckUri(entry), ReleaseInfoFor(entry, lists).origin, codename, entry)
  }

  /** The file names of the channel directory that are loaded, as cache keys. */
  function LoadedKeys(files: seq<string>): set<string> {
    set i | 0 <= i < |files| && CacheKey(files[i]).Some? :: CacheKey(files[i]).value
  }

  /** Entity `e` is what lines 59-62 create for key `k`: a provider named `k`, or a channel named
      `k` built from the sections of its file, with no entry for any repository yet. */
  ghost predicate Loaded(e: Entity, k: string, contents: map<string, map<string, Section>>)
    reads if e.ChannelEntity? then {e.ch} else {}
  {
    if EndsWith(k, ".provider") then e == ProviderEntity(k)
    else
      && e.ChannelEntity? && k in contents
      && e.ch.channelName == k && e.ch.sections == contents[k]
      && e.ch.repositories.Keys == contents[k].Keys - {"channel"}
      && (forall r :: r in e.ch.repositories ==> e.ch.repositories[r] == None)
  }

  /** A channel file's sections are at hand when the file is a channel file. */
  predicate LoadableFrom(file: string, contents: map<string, map<string, Section>>) {
    CacheKey(file).Some? && !EndsWith(CacheKey(file).value, ".provider") ==> CacheKey(file).value in contents
  }

  /** A single file loads its key, if it has one. */
  lemma LoadedKeysSingle(file: string)
    ensures LoadedKeys([file]) == if CacheKey(file).Some? then {CacheKey(file).value} else {}
  {
    assert [file][0] == file;
  }

  /** One more file adds at most its own key. */
  lemma LoadedKeysSnoc(files: seq<string>, i: int)
    requires 0 <= i < |files|
    ensures LoadedKeys(files[..i + 1]) == LoadedKeys(files[..i]) + LoadedKeys([files[i]])
  {
    assert files[..i + 1] == files[..i] + [files[i]];
  }

  /** Storing an entity under its own name, whose kind the key's suffix gives, and whose channel
      is not already cached keeps the cache's shape. */
  lemma StoreKeepsShape(cache: Registry, key: string, e: Entity)
    requires WellFormed(cache) && NamesMatch(cache) && DistinctObjects(cache)
    requires EndsWith(key, ".provider") <==> e.ProviderEntity?
    requires e.ProviderEntity? ==> e.providerName == key
    requires e.ChannelEntity? ==> e.ch.channelName == key && e.ch !in Objects(cache)
    ensures WellFormed(cache[key := e]) && NamesMatch(cache[key := e]) && DistinctObjects(cache[key := e])
  {
    var c := cache[key := e];
    forall a, b | a in c && b in c && a != b && c[a].ChannelEntity? && c[b].ChannelEntity?
      ensures c[a].ch != c[b].ch
    {
      if a == key {
        assert c[b].ch in Objects(cache);
      } else if b == key {
        assert c[a].ch in Objects(cache);
      }
    }
  }

  /** `cache` is `start` with the keys of `keys` loaded from `contents`. */
  ghost predicate Preloaded(cache: Registry, start: Registry, keys: set<string>, contents: map<string, map<string, Section>>)
    reads Objects(cache)
  {
    && cache.Keys == start.Keys + keys
    && (forall k :: k in start && k !in keys ==> cache[k] == start[k])
    && (forall k :: k in keys ==> Loaded(cache[k], k, contents))
  }

  /** Storing what key `key` loads extends the loaded keys by `key`. */
  lemma StoreLoaded(cache: Registry, start: Registry, keys: set<string>, contents: map<string, map<string, Section>>,
                    key: string, e: Entity)
    requires Preloaded(cache, start, keys, contents) && Loaded(e, key, contents)
    ensures Preloaded(cache[key := e], start, keys + {key}, contents)
  {
    var c := cache[key := e];
    forall k | k in keys + {key} ensures Loaded(c[k], k, contents) {
      if k != key {
        assert c[k] == cache[k];
      }
    }
  }

  /** Lines 70-105 as intended: the release base of the entry, the InRelease file if it exists,
      else the Release file beside it, else nothing, and the fields read from it. */
  method ReadRelease(entry: SourceEntry, lists: map<string, seq<string>>) returns (info: ReleaseInfo)
    ensures info == ReleaseInfoFor(entry, lists)
  {
    var base := ComputeReleaseBase(entry.uri, entry.dist);
    var inRelease := InReleasePath(base);
    var release := ReleasePath(base);
    info := ReleaseInfo(None, None, None);
    if inRelease in lists {
      info := ParseRelease(lists[inRelease]);
    } else if release in lists {
      info := ParseRelease(lists[release]);
    }
  }

  /** The repository maps of the cached channels. */
  ghost function Repos(cache: Registry): (m: map<string, map<string, Option<SourceEntry>>>)
    reads Objects(cache)
    ensures forall k :: k in m <==> k in cache && cache[k].ChannelEntity?
    ensures forall k :: k in m ==> m[k] == cache[k].ch.repositories
  {
    map k | k in cache && cache[k].ChannelEntity? :: cache[k].ch.repositories
  }

  /** Against the snapshot `start`, the channels of `todo` have their repositories `now` as in
      it and the others as `check()` leaves them. */
  predicate ScanState(cache: Registry, start: map<string, map<string, Option<SourceEntry>>>,
                      now: map<string, map<string, Option<SourceEntry>>>, todo: set<string>,
                      uri: string, origin: Option<string>, codename: string, entry: SourceEntry)
  {
    && now.Keys == start.Keys
    && (forall k :: k in cache && cache[k].ChannelEntity? ==> k in start)
    && forall k :: k in start ==>
      && k in cache && cache[k].ChannelEntity?
      && (forall r :: r in start[k] ==> cache[k].ch.CheckDefined(r, uri, origin))
      && now[k] == (if k in todo then start[k] else cache[k].ch.CheckResult(start[k], uri, origin, codename, entry))
  }

  /** Checking channel `name` moves it out of `todo`. */
  lemma ScanAdvance(cache: Registry, start: map<string, map<string, Option<SourceEntry>>>,
                    now: map<string, map<string, Option<SourceEntry>>>, after: map<string, map<string, Option<SourceEntry>>>,
                    todo: set<string>, uri: string, origin: Option<string>, codename: string, entry: SourceEntry,
                    name: string)
    requires ScanState(cache, start, now, todo, uri, origin, codename, entry) && name in todo && name in start
    requires after.Keys == now.Keys && forall k :: k in now && k != name ==> after[k] == now[k]
    requires after[name] == cache[name].ch.CheckResult(now[name], uri, origin, codename, entry)
    ensures ScanState(cache, start, after, todo - {name}, uri, origin, codename, entry)
  {
  }

  /** A key without a channel snapshot leaves `todo` without anything changing. */
  lemma ScanPass(cache: Registry, start: map<string, map<string, Option<SourceEntry>>>,
                 now: map<string, map<string, Option<SourceEntry>>>, todo: set<string>,
                 uri: string, origin: Option<string>, codename: string, entry: SourceEntry, name: string)
    requires ScanState(cache, start, now, todo, uri, origin, codename, entry) && name !in start
    ensures ScanState(cache, start, now, todo - {name}, uri, origin, codename, entry)
  {
  }

  /** Every cached channel has what `check()` reads for the given URI and origin. */
  predicate CacheCheckable(cache: Registry, uri: string, origin: Option<string>) {
    forall k :: k in cache && cache[k].ChannelEntity? ==> SectionsCheckableAt(cache[k].ch.sections, uri, origin)
  }

  /** The cached channels that are not providers and are enabled. */
  ghost function EnabledKeys(cache: Registry): (ks: set<string>)
    requires WellFormed(cache) && RegistryValid(cache)
    reads Objects(cache)
    ensures forall k :: k in ks ==> k in cache && cache[k].ChannelEntity? && !EndsWith(k, ".provider")
  {
    set k | k in cache && !EndsWith(k, ".provider") && cache[k].ch.Enabled()
  }

  /** Every repository section of a channel file has a boolean `proposed`, if any. */
  predicate ContentsReadable(sections: map<string, Section>) {
    forall r :: r in sections && r != "channel" ==> SectionReadable(sections[r])
  }

  /** Every repository section has what `check()` reads for every entry that is not skipped. */
  predicate SourcesCheckable(sections: map<string, Section>, sources: seq<SourceEntry>, lists: map<string, seq<string>>) {
    forall j :: 0 <= j < |sources| && !Skipped(sources[j]) ==> SectionsCheckable(sections, sources[j], lists)
  }

  /** A repository map without entries for the repository sections of a channel file. */
  function NoEntries(sections: map<string, Section>): (m: map<string, Option<SourceEntry>>)
    ensures m.Keys == sections.Keys - {"channel"}
    ensures forall r :: r in m ==> m[r].None?
  {
    map r | r in sections && r != "channel" :: None
  }

  /** The repository map of a channel after the entries of `sources` are offered to it in order. */
  function OfferedAll(ch: Channel, repos: map<string, Option<SourceEntry>>, sources: seq<SourceEntry>,
                      lists: map<string, seq<string>>, codenames: seq<string>): (res: map<string, Option<SourceEntry>>)
    requires |codenames| == |sources| && SourcesCheckable(ch.sections, sources, lists)
    requires repos.Keys <= ch.sections.Keys - {"channel"}
    ensures res.Keys == repos.Keys
    decreases |sources|
  {
    if sources == [] then repos
    else
      var n := |sources| - 1;
      Offered(ch, OfferedAll(ch, repos, sources[..n], lists, codenames[..n]), sources[n], lists, codenames[n])
  }

  /** Repository `r` of the channel takes entry `e`, offered with `codename`: the entry is not
      skipped and the repository matches it. */
  predicate Accepts(ch: Channel, r: string, e: SourceEntry, lists: map<string, seq<string>>, codename: string)
    requires r in ch.sections && r != "channel"
    requires !Skipped(e) ==> SectionsCheckable(ch.sections, e, lists)
  {
    !Skipped(e) && ch.Matches(r, CheckUri(e), ReleaseInfoFor(e, lists).origin, codename)
  }

  /** Repository `r` holds in `res` what it held in `repos`, or an entry of `sources` it takes. */
  predicate FromSources(ch: Channel, repos: map<string, Option<SourceEntry>>, res: map<string, Option<SourceEntry>>,
                        sources: seq<SourceEntry>, lists: map<string, seq<string>>, codenames: seq<string>, r: string)
    requires |codenames| == |sources| && SourcesCheckable(ch.sections, sources, lists)
    requires r in repos && r in res && r in ch.sections && r != "channel"
  {
    res[r] == repos[r]
    || exists j :: 0 <= j < |sources| && res[r] == Some(sources[j]) && Accepts(ch, r, sources[j], lists, codenames[j])
  }

  /** After offering a list of entries, a repository keeps what it had or holds an entry of the list
      that it takes; an entry it takes is never passed over. */
  lemma {:induction false} OfferedFromSources(ch: Channel, repos: map<string, Option<SourceEntry>>, sources: seq<SourceEntry>,
                                              lists: map<string, seq<string>>, codenames: seq<string>, r: string)
    requires |codenames| == |sources| && SourcesCheckable(ch.sections, sources, lists)
    requires repos.Keys <= ch.sections.Keys - {"channel"} && r in repos
    ensures FromSources(ch, repos, OfferedAll(ch, repos, sources, lists, codenames), sources, lists, codenames, r)
    decreases |sources|
  {
    if sources != [] {
      var n := |sources| - 1;
      var prefix, names := sources[..n], codenames[..n];
      assert SourcesCheckable(ch.sections, prefix, lists) by {
        forall j | 0 <= j < n ensures prefix[j] == sources[j] {}
      }
      OfferedFromSources(ch, repos, prefix, lists, names, r);
      var mid := OfferedAll(ch, repos, prefix, lists, names);
      FromSourcesStep(ch, repos, mid, sources, lists, codenames, r);
    }
  }

  /** Offering the last entry of `sources` after the others keeps `FromSources`. */
  lemma FromSourcesStep(ch: Channel, repos: map<string, Option<SourceEntry>>, mid: map<string, Option<SourceEntry>>,
                        sources: seq<SourceEntry>, lists: map<string, seq<string>>, codenames: seq<string>, r: string)
    requires |codenames| == |sources| && |sources| > 0 && SourcesCheckable(ch.sections, sources, lists)
    requires repos.Keys <= ch.sections.Keys - {"channel"} && r in repos && mid.Keys == repos.Keys
    requires var n := |sources| - 1;
      SourcesCheckable(ch.sections, sources[..n], lists)
      && FromSources(ch, repos, mid, sources[..n], lists, codenames[..n], r)
    ensures var n := |sources| - 1;
      FromSources(ch, repos, Offered(ch, mid, sources[n], lists, codenames[n]), sources, lists, codenames, r)
  {
    var n := |sources| - 1;
    var res := Offered(ch, mid, sources[n], lists, codenames[n]);
    if res[r] != mid[r] {
      assert res[r] == Some(sources[n]) && Accepts(ch, r, sources[n], lists, codenames[n]);
    } else if mid[r] != repos[r] {
      var j :| 0 <= j < n && mid[r] == Some(sources[..n][j]) && Accepts(ch, r, sources[..n][j], lists, codenames[..n][j]);
      assert sources[..n][j] == sources[j] && codenames[..n][j] == codenames[j];
    }
  }

  /** The last entry of the list that a repository matches is the one it holds. */
  lemma LastMatchWins(ch: Channel, repos: map<string, Option<SourceEntry>>, sources: seq<SourceEntry>,
                      lists: map<string, seq<string>>, codenames: seq<string>, r: string)
    requires |codenames| == |sources| && |sources| > 0 && SourcesCheckable(ch.sections, sources, lists)
    requires repos.Keys <= ch.sections.Keys - {"channel"} && r in repos
    requires !Skipped(sources[|sources| - 1])
    requires ch.Matches(r, CheckUri(sources[|sources| - 1]), ReleaseInfoFor(sources[|sources| - 1], lists).origin, codenames[|sources| - 1])
    ensures OfferedAll(ch, repos, sources, lists, codenames)[r] == Some(sources[|sources| - 1])
  {
  }

  /** The repository maps the loop over the sources starts from: none for a freshly loaded channel,
      the earlier ones for the others. */
  ghost function BaseRepos(cache: Registry, before: map<string, map<string, Option<SourceEntry>>>, keys: set<string>,
                           contents: map<string, map<string, Section>>): map<string, map<string, Option<SourceEntry>>>
  {
    map k | k in cache && cache[k].ChannelEntity? && (k in keys ==> k in contents) && (k !in keys ==> k in before) ::
      if k in keys then NoEntries(contents[k]) else before[k]
  }

  /** Right after pre-loading, a cached channel is valid and its repositories are where the loop over
      the sources starts from. */
  lemma PreloadedEntry(cache: Registry, start: Registry, before: map<string, map<string, Option<SourceEntry>>>,
                       keys: set<string>, contents: map<string, map<string, Section>>, k: string)
    requires Preloaded(cache, start, keys, contents) && RegistryValid(start) && before == Repos(start)
    requires forall k :: k in contents ==> ContentsReadable(contents[k])
    requires k in cache && cache[k].ChannelEntity?
    ensures var base := BaseRepos(cache, before, keys, contents);
      && cache[k].ch.Valid() && k in base && base[k] == cache[k].ch.repositories
      && base[k].Keys == cache[k].ch.sections.Keys - {"channel"}
  {
    if k in keys {
      assert Loaded(cache[k], k, contents);
      assert cache[k].ch.repositories == NoEntries(contents[k]);
    } else {
      assert cache[k] == start[k];
    }
  }

  /** Right after pre-loading, the cache's channels are valid and none has been offered an entry yet. */
  lemma PreloadedStart(cache: Registry, start: Registry, before: map<string, map<string, Option<SourceEntry>>>,
                       keys: set<string>, contents: map<string, map<string, Section>>,
                       sources: seq<SourceEntry>, lists: map<string, seq<string>>, codenames: seq<string>)
    requires |codenames| == |sources| && WellFormed(cache)
    requires Preloaded(cache, start, keys, contents) && RegistryValid(start) && before == Repos(start)
    requires forall k :: k in contents ==> ContentsReadable(contents[k]) && SourcesCheckable(contents[k], sources, lists)
    requires forall k :: k in start && start[k].ChannelEntity? ==> SourcesCheckable(start[k].ch.sections, sources, lists)
    ensures RegistryValid(cache) && LoadedShape(cache, start, keys, contents)
    ensures OfferedSoFar(cache, BaseRepos(cache, before, keys, contents), Repos(cache), sources, lists, codenames, 0)
  {
    var base := BaseRepos(cache, before, keys, contents);
    forall k | k in cache && cache[k].ChannelEntity?
      ensures cache[k].ch.Valid() && k in base && base[k] == cache[k].ch.repositories
      ensures base[k].Keys == cache[k].ch.sections.Keys - {"channel"}
    {
      PreloadedEntry(cache, start, before, keys, contents, k);
    }
    assert sources[..0] == [] && codenames[..0] == [];
  }

  /** What `discover()` leaves, against the cache `start` it found and the repository maps `before`
      its channels had: the cache holds `start` with every loaded key replaced by a provider of that
      name or a channel built from that key's file, and every channel's repositories `now` are those
      it started from (none for a loaded channel) with all the entries of `sources` offered in order. */
  predicate Discovered(cache: Registry, start: Registry, before: map<string, map<string, Option<SourceEntry>>>,
                       now: map<string, map<string, Option<SourceEntry>>>, files: seq<string>,
                       contents: map<string, map<string, Section>>, sources: seq<SourceEntry>,
                       lists: map<string, seq<string>>, codenames: seq<string>)
    requires |codenames| == |sources|
  {
    && LoadedShape(cache, start, LoadedKeys(files), contents)
    && forall k :: k in cache && cache[k].ChannelEntity? ==>
      && k in now && SourcesCheckable(cache[k].ch.sections, sources, lists)
      && (k in LoadedKeys(files) ==>
            k in contents && now[k] == OfferedAll(cache[k].ch, NoEntries(contents[k]), sources, lists, codenames))
      && (k !in LoadedKeys(files) ==>
            k in before && before[k].Keys <= cache[k].ch.sections.Keys - {"channel"}
            && now[k] == OfferedAll(cache[k].ch, before[k], sources, lists, codenames))
  }

  /** The cache is `start` with the keys of `keys` loaded: a provider of that name, or a channel of
      that name with the sections of that key's file. */
  predicate LoadedShape(cache: Registry, start: Registry, keys: set<string>, contents: map<string, map<string, Section>>) {
    && cache.Keys == start.Keys + keys
    && (forall k :: k in start && k !in keys ==> cache[k] == start[k])
    && (forall k :: k in keys && EndsWith(k, ".provider") ==> cache[k] == ProviderEntity(k))
    && (forall k :: k in keys && !EndsWith(k, ".provider") ==>
          cache[k].ChannelEntity? && cache[k].ch.channelName == k && k in contents && cache[k].ch.sections == contents[k])
  }

  /** Once every entry is offered, each channel's repositories are those it started from with all
      the entries offered. */
  lemma DiscoveredRepos(cache: Registry, start: Registry, base: map<string, map<string, Option<SourceEntry>>>,
                        now: map<string, map<string, Option<SourceEntry>>>, before: map<string, map<string, Option<SourceEntry>>>,
                        files: seq<string>, contents: map<string, map<string, Section>>,
                        sources: seq<SourceEntry>, lists: map<string, seq<string>>, codenames: seq<string>)
    requires |codenames| == |sources| && base == BaseRepos(cache, before, LoadedKeys(files), contents)
    requires LoadedShape(cache, start, LoadedKeys(files), contents)
    requires OfferedSoFar(cache, base, now, sources, lists, codenames, |sources|)
    ensures Discovered(cache, start, before, now, files, contents, sources, lists, codenames)
  {
    assert sources[..|sources|] == sources && codenames[..|codenames|] == codenames;
  }

  /** After the entries `sources[..i]`, every cached channel's repositories `now` are those of `base`
      with those entries offered. */
  predicate OfferedSoFar(cache: Registry, base: map<string, map<string, Option<SourceEntry>>>,
                         now: map<string, map<string, Option<SourceEntry>>>, sources: seq<SourceEntry>,
                         lists: map<string, seq<string>>, codenames: seq<string>, i: int)
    requires 0 <= i <= |sources| && |codenames| == |sources|
  {
    && now.Keys == base.Keys
    && (forall k :: k in cache && cache[k].ChannelEntity? ==> k in base)
    && forall k :: k in base ==>
      && k in cache && cache[k].ChannelEntity?
      && SourcesCheckable(cache[k].ch.sections, sources, lists)
      && base[k].Keys == cache[k].ch.sections.Keys - {"channel"}
      && now[k] == OfferedAll(cache[k].ch, base[k], sources[..i], lists, codenames[..i])
  }

  /** The cache can be offered entry `i`. */
  lemma OfferedSoFarCheckable(cache: Registry, base: map<string, map<string, Option<SourceEntry>>>,
                              now: map<string, map<string, Option<SourceEntry>>>, sources: seq<SourceEntry>,
                              lists: map<string, seq<string>>, codenames: seq<string>, i: int)
    requires 0 <= i < |sources| && |codenames| == |sources|
    requires OfferedSoFar(cache, base, now, sources, lists, codenames, i)
    ensures !Skipped(sources[i]) ==> CacheCheckable(cache, CheckUri(sources[i]), ReleaseInfoFor(sources[i], lists).origin)
  {
  }

  /** Offering entry `i` to every channel extends the offered entries by one. */
  lemma OfferedSoFarStep(cache: Registry, base: map<string, map<string, Option<SourceEntry>>>,
                         now: map<string, map<string, Option<SourceEntry>>>, after: map<string, map<string, Option<SourceEntry>>>,
                         sources: seq<SourceEntry>, lists: map<string, seq<string>>, codenames: seq<string>, i: int)
    requires 0 <= i < |sources| && |codenames| == |sources|
    requires OfferedSoFar(cache, base, now, sources, lists, codenames, i)
    requires after.Keys == now.Keys
    requires forall k :: k in now ==> (SourcesCheckable(cache[k].ch.sections, sources, lists)
      && now[k].Keys <= cache[k].ch.sections.Keys - {"channel"}
      && after[k] == Offered(cache[k].ch, now[k], sources[i], lists, codenames[i]))
    ensures OfferedSoFar(cache, base, after, sources, lists, codenames, i + 1)
  {
    assert sources[..i + 1][..i] == sources[..i];
    assert codenames[..i + 1][..i] == codenames[..i];
    forall k | k in base
      ensures after[k] == OfferedAll(cache[k].ch, base[k], sources[..i + 1], lists, codenames[..i + 1])
    {
    }
  }

  /** The loop at lines 125-127 on values: `channels` with every enabled cached channel that is
      not a provider added under its key. */
  method WithEnabled(cache: Registry, channels: map<string, Channel>) returns (collected: map<string, Channel>)
    requires WellFormed(cache) && RegistryValid(cache)
    ensures collected.Keys == channels.Keys + EnabledKeys(cache)
    ensures forall k :: k in collected ==> collected[k] == if k in EnabledKeys(cache) then cache[k].ch else channels[k]
  {
    ghost var enabled := EnabledKeys(cache);
    collected := channels;
    var todo := cache.Keys;
    while todo != {}
      invariant todo <= cache.Keys
      invariant collected.Keys == channels.Keys + (enabled - todo)
      invariant forall k :: k in collected ==> collected[k] == if k in enabled - todo then cache[k].ch else channels[k]
      decreases todo
    {
      var k :| k in todo;
      if !EndsWith(k, ".provider") && cache[k].ch.Enabled() {
        collected := collected[k := cache[k].ch];
      }
      todo := todo - {k};
    }
  }

  class ChannelDiscovery {
    var cache: Registry
    var channels: map<string, Channel>

    /** The shape the pre-load loop gives the cache. */
    ghost predicate Valid()
      reads this
    {
      WellFormed(cache) && NamesMatch(cache) && DistinctObjects(cache)
    }

    /** The cache is `start` with the keys of `keys` loaded from `contents`. */
    ghost predicate PreloadedFrom(start: Registry, keys: set<string>, contents: map<string, map<string, Section>>)
      reads this, Objects(cache)
    {
      Preloaded(cache, start, keys, contents)
    }

    constructor ()
      ensures Valid() && cache == map[] && channels == map[]
    {
      cache := map[];
      channels := map[];
    }

    /** One round of the loop at lines 51-62: a `.channel` or `.provider` file is cached under its
        key, replacing what was cached there; any other file is skipped. */
    method PreloadFile(file: string, contents: map<string, map<string, Section>>, ghost start: Registry, ghost keys: set<string>)
      requires Valid() && LoadableFrom(file, contents) && PreloadedFrom(start, keys, contents)
      modifies this`cache
      ensures Valid()
      ensures PreloadedFrom(start, keys + LoadedKeys([file]), contents)
      ensures forall k :: k in cache && cache[k].ChannelEntity? ==> cache[k].ch in Objects(old(cache)) || fresh(cache[k].ch)
    {
      LoadedKeysSingle(file);
      if !EndsWith(file, ".channel") && !EndsWith(file, ".provider") {
        return;
      }
      var key := RemoveAll(file, ".channel");
      Store(key, contents, start, keys);
    }

    /** Lines 59-62: a provider, or a channel built from its file's sections, is cached under `key`. */
    method Store(key: string, contents: map<string, map<string, Section>>, ghost start: Registry, ghost keys: set<string>)
      requires Valid() && PreloadedFrom(start, keys, contents)
      requires !EndsWith(key, ".provider") ==> key in contents
      modifies this`cache
      ensures Valid()
      ensures PreloadedFrom(start, keys + {key}, contents)
      ensures forall k :: k in cache && cache[k].ChannelEntity? ==> cache[k].ch in Objects(old(cache)) || fresh(cache[k].ch)
    {
      if EndsWith(key, ".provider") {
        StoreProvider(key, contents, start, keys);
      } else {
        StoreChannel(key, contents, start, keys);
      }
    }

    /** Line 60: a provider is cached under its own name. */
    method StoreProvider(key: string, contents: map<string, map<string, Section>>, ghost start: Registry, ghost keys: set<string>)
      requires Valid() && PreloadedFrom(start, keys, contents) && EndsWith(key, ".provider")
      modifies this`cache
      ensures Valid()
      ensures PreloadedFrom(start, keys + {key}, contents)
      ensures forall k :: k in cache && cache[k].ChannelEntity? ==> cache[k].ch in Objects(old(cache))
    {
      StoreKeepsShape(cache, key, ProviderEntity(key));
      StoreLoaded(cache, start, keys, contents, key, ProviderEntity(key));
      cache := cache[key := ProviderEntity(key)];
    }

    /** Line 62: a new channel built from the key's file is cached under the key. */
    method StoreChannel(key: string, contents: map<string, map<string, Section>>, ghost start: Registry, ghost keys: set<string>)
      requires Valid() && PreloadedFrom(start, keys, contents) && !EndsWith(key, ".provider") && key in contents
      modifies this`cache
      ensures Valid()
      ensures PreloadedFrom(start, keys + {key}, contents)
      ensures forall k :: k in cache && cache[k].ChannelEntity? ==> cache[k].ch in Objects(old(cache)) || fresh(cache[k].ch)
    {
      var ch := new Channel(key, contents[key]);
      StoreKeepsShape(cache, key, ChannelEntity(ch));
      StoreLoaded(cache, start, keys, contents, key, ChannelEntity(ch));
      cache := cache[key := ChannelEntity(ch)];
    }

    /** Lines 51-62: every `.channel` or `.provider` file of the directory listing `files` is cached
        under its key; a later file with the same key replaces an earlier one. `contents` holds the
        sections of each channel file by key. */
    method Preload(files: seq<string>, contents: map<string, map<string, Section>>)
      requires Valid()
      requires forall i :: 0 <= i < |files| ==> LoadableFrom(files[i], contents)
      modifies this`cache
      ensures Valid()
      ensures PreloadedFrom(old(cache), LoadedKeys(files), contents)
      ensures forall k :: k in cache && cache[k].ChannelEntity? ==> cache[k].ch in old(Objects(cache)) || fresh(cache[k].ch)
    {
      ghost var start := cache;
      for i := 0 to |files|
        invariant Valid()
        invariant PreloadedFrom(start, LoadedKeys(files[..i]), contents)
        invariant forall k :: k in cache && cache[k].ChannelEntity? ==> cache[k].ch in Objects(start) || fresh(cache[k].ch)
      {
        LoadedKeysSnoc(files, i);
        PreloadFile(files[i], contents, start, LoadedKeys(files[..i]));
      }
      assert files[..|files|] == files;
    }

    /** Every cached channel has a snapshot in `start`; those of `todo` are still as in it, the
        others as `check()` leaves them. */
    ghost predicate ScanProgress(start: map<string, map<string, Option<SourceEntry>>>, todo: set<string>,
                                 uri: string, origin: Option<string>, codename: string, entry: SourceEntry)
      reads this, Objects(cache)
    {
      ScanState(cache, start, Repos(cache), todo, uri, origin, codename, entry)
    }

    /** Line 114: `check()` on the channel cached under `name`; no other channel changes. */
    method CheckChannel(name: string, uri: string, origin: Option<string>, releaseLabel: Option<string>,
                        codename: string, entry: SourceEntry)
      requires Valid() && RegistryValid(cache) && name in cache && cache[name].ChannelEntity?
      requires forall r :: r in cache[name].ch.repositories ==> cache[name].ch.CheckDefined(r, uri, origin)
      modifies Objects(cache)
      ensures RegistryValid(cache)
      ensures cache[name].ch.repositories == cache[name].ch.CheckResult(old(cache[name].ch.repositories), uri, origin, codename, entry)
      ensures forall k :: k in cache && cache[k].ChannelEntity? && k != name ==>
        cache[k].ch.repositories == old(cache[k].ch.repositories)
    {
      cache[name].ch.Check(uri, origin, releaseLabel, codename, entry);
    }

    /** One round of the loop at lines 108-120: a provider is passed over, a channel is checked. */
    method ScanStep(name: string, uri: string, origin: Option<string>, releaseLabel: Option<string>, codename: string,
                    entry: SourceEntry, ghost start: map<string, map<string, Option<SourceEntry>>>, ghost todo: set<string>)
      requires Valid() && RegistryValid(cache)
      requires name in todo && ScanProgress(start, todo, uri, origin, codename, entry)
      modifies Objects(cache)
      ensures RegistryValid(cache) && ScanProgress(start, todo - {name}, uri, origin, codename, entry)
    {
      if EndsWith(name, ".provider") {
        ScanPass(cache, start, Repos(cache), todo, uri, origin, codename, entry, name);
        return;
      }
      assert name in cache ==> cache[name].ChannelEntity?;
      if name !in cache {
        ScanPass(cache, start, Repos(cache), todo, uri, origin, codename, entry, name);
        return;
      }
      ScanChannel(name, uri, origin, releaseLabel, codename, entry, start, todo);
    }

    /** Line 114 inside the loop: the channel `name` is checked and leaves `todo`. */
    method ScanChannel(name: string, uri: string, origin: Option<string>, releaseLabel: Option<string>, codename: string,
                       entry: SourceEntry, ghost start: map<string, map<string, Option<SourceEntry>>>, ghost todo: set<string>)
      requires Valid() && RegistryValid(cache) && name in cache && cache[name].ChannelEntity?
      requires name in todo && ScanProgress(start, todo, uri, origin, codename, entry)
      modifies Objects(cache)
      ensures RegistryValid(cache) && ScanProgress(start, todo - {name}, uri, origin, codename, entry)
    {
      ghost var now := Repos(cache);
      CheckChannel(name, uri, origin, releaseLabel, codename, entry);
      ScanAdvance(cache, start, now, Repos(cache), todo, uri, origin, codename, entry, name);
    }

    /** Lines 108-120: every cached channel is checked against `entry` with the given URI, Release
        fields and codename; providers are passed over. */
    method CheckAll(uri: string, origin: Option<string>, releaseLabel: Option<string>, codename: string, entry: SourceEntry)
      requires Valid() && RegistryValid(cache) && CacheCheckable(cache, uri, origin)
      modifies Objects(cache)
      ensures RegistryValid(cache)
      ensures forall k :: k in cache && cache[k].ChannelEntity? ==>
        cache[k].ch.repositories == cache[k].ch.CheckResult(old(cache[k].ch.repositories), uri, origin, codename, entry)
    {
      ghost var start := Repos(cache);
      var todo := cache.Keys;
      while todo != {}
        invariant todo <= cache.Keys
        invariant RegistryValid(cache) && ScanProgress(start, todo, uri, origin, codename, entry)
        decreases todo
      {
        var name :| name in todo;
        ScanStep(name, uri, origin, releaseLabel, codename, entry, start, todo);
        todo := todo - {name};
      }
    }

    /** Lines 65-120 for one sources.list entry: unless it is skipped, its Release fields are read
        and every cached channel is checked against it; `codename` is the value compared with each
        repository's `codename` option. */
    method ScanEntry(entry: SourceEntry, lists: map<string, seq<string>>, codename: string)
      requires Valid() && RegistryValid(cache)
      requires !Skipped(entry) ==> CacheCheckable(cache, CheckUri(entry), ReleaseInfoFor(entry, lists).origin)
      modifies Objects(cache)
      ensures RegistryValid(cache)
      ensures forall k :: k in cache && cache[k].ChannelEntity? ==>
        cache[k].ch.repositories == Offered(cache[k].ch, old(cache[k].ch.repositories), entry, lists, codename)
    {
      if entry.uri == "" || entry.kind == "deb-src" {
        return;
      }
      var info := ReadRelease(entry, lists);
      var uri := if EndsWith(entry.uri, "/") then entry.uri else entry.uri + "/";
      CheckAll(uri, info.origin, info.releaseLabel, codename, entry);
    }

    /** Lines 125-127: every cached channel that is not a provider and is enabled is added to
        `channels` under its key. */
    method CollectEnabled()
      requires Valid() && RegistryValid(cache)
      modifies this`channels
      ensures RegistryValid(cache) && Repos(cache) == old(Repos(cache))
      ensures channels.Keys == old(channels).Keys + EnabledKeys(cache)
      ensures forall k :: k in channels ==> channels[k] == if k in EnabledKeys(cache) then cache[k].ch else old(channels)[k]
    {
      channels := WithEnabled(cache, channels);
    }

    /** One round of the loop at lines 65-123: the entry `sources[i]` is offered to every cached channel. */
    method DiscoverStep(sources: seq<SourceEntry>, lists: map<string, seq<string>>, codenames: seq<string>, i: int,
                        ghost base: map<string, map<string, Option<SourceEntry>>>)
      requires Valid() && RegistryValid(cache) && 0 <= i < |sources| && |codenames| == |sources|
      requires OfferedSoFar(cache, base, Repos(cache), sources, lists, codenames, i)
      modifies Objects(cache)
      ensures RegistryValid(cache) && OfferedSoFar(cache, base, Repos(cache), sources, lists, codenames, i + 1)
    {
      ghost var now := Repos(cache);
      OfferedSoFarCheckable(cache, base, now, sources, lists, codenames, i);
      ScanEntry(sources[i], lists, codenames[i]);
      OfferedSoFarStep(cache, base, now, Repos(cache), sources, lists, codenames, i);
    }

    /** `discover()`: the channel files of `files` are cached, every entry of `sources` is offered
        to every cached channel in order, and the enabled channels are collected. `contents` holds the
        channel files' sections by key, `lists` the list files that exist, and `codenames[i]` the
        value compared with the repositories' `codename` for `sources[i]`. */
    method Discover(files: seq<string>, contents: map<string, map<string, Section>>, sources: seq<SourceEntry>,
                    lists: map<string, seq<string>>, codenames: seq<string>)
      requires Valid() && RegistryValid(cache) && |codenames| == |sources|
      requires forall i :: 0 <= i < |files| ==> LoadableFrom(files[i], contents)
      requires forall k :: k in contents ==> ContentsReadable(contents[k]) && SourcesCheckable(contents[k], sources, lists)
      requires forall k :: k in cache && cache[k].ChannelEntity? ==> SourcesCheckable(cache[k].ch.sections, sources, lists)
      modifies this, Objects(cache)
      ensures Valid() && RegistryValid(cache)
      ensures Discovered(cache, old(cache), old(Repos(cache)), Repos(cache), files, contents, sources, lists, codenames)
      ensures channels.Keys == old(channels).Keys + EnabledKeys(cache)
      ensures forall k :: k in channels ==> channels[k] == if k in EnabledKeys(cache) then cache[k].ch else old(channels)[k]
    {
      PreloadAndScan(files, contents, sources, lists, codenames);
      CollectEnabled();
    }

    /** Lines 52-123 of `discover()`: the channel files are loaded into the cache, then every entry
        of `sources` is offered to the cached channels; `channels` is left alone. */
    method PreloadAndScan(files: seq<string>, contents: map<string, map<string, Section>>, sources: seq<SourceEntry>,
                          lists: map<string, seq<string>>, codenames: seq<string>)
      requires Valid() && RegistryValid(cache) && |codenames| == |sources|
      requires forall i :: 0 <= i < |files| ==> LoadableFrom(files[i], contents)
      requires forall k :: k in contents ==> ContentsReadable(contents[k]) && SourcesCheckable(contents[k], sources, lists)
      requires forall k :: k in cache && cache[k].ChannelEntity? ==> SourcesCheckable(cache[k].ch.sections, sources, lists)
      modifies this`cache, Objects(cache)
      ensures Valid() && RegistryValid(cache)
      ensures Discovered(cache, old(cache), old(Repos(cache)), Repos(cache), files, contents, sources, lists, codenames)
    {
      ghost var start, before := cache, Repos(cache);
      Preload(files, contents);
      ghost var loaded, keys := cache, LoadedKeys(files);
      ghost var base := BaseRepos(loaded, before, keys, contents);
      PreloadedStart(loaded, start, before, keys, contents, sources, lists, codenames);
      ScanSources(sources, lists, codenames, base);
      assert cache == loaded;
      DiscoveredRepos(loaded, start, base, Repos(cache), before, files, contents, sources, lists, codenames);
    }

    /** The loop at lines 65-123: each entry of `sources` in turn is offered to every cached channel. */
    method ScanSources(sources: seq<SourceEntry>, lists: map<string, seq<string>>, codenames: seq<string>,
                       ghost base: map<string, map<string, Option<SourceEntry>>>)
      requires Valid() && RegistryValid(cache) && |codenames| == |sources|
      requires OfferedSoFar(cache, base, Repos(cache), sources, lists, codenames, 0)
      modifies Objects(cache)
      ensures RegistryValid(cache) && OfferedSoFar(cache, base, Repos(cache), sources, lists, codenames, |sources|)
    {
      for i := 0 to |sources|
        invariant RegistryValid(cache)
        invariant OfferedSoFar(cache, base, Repos(cache), sources, lists, codenames, i)
      {
        DiscoverStep(sources, lists, codenames, i, base);
      }
    }
  }
}
