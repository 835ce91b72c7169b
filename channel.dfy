/**
  A channel: a named set of APT repositories, read from a `.channel` file,
  that is enabled or disabled as a whole.

  The file's sections are an immutable map (section name to its key/value
  pairs). The section `channel` holds the metadata (`depends`, `conflicts`,
  `provides`); every other section describes one repository. The mutable
  state is the map from repository name to the sources.list entry found for
  it, or None.
 */
module Channels {
  import opened Wrappers
  import opened Strings

  /** An APT sources.list entry, reduced to the fields the channel code reads or sets. */
  datatype SourceEntry = SourceEntry(
    kind: string, uri: string, dist: string, comps: seq<string>,
    comment: string, file: string, disabled: bool)

  /** One section of a configuration file: option name to value. */
  type Section = map<string, string>

  /** ASCII lower-casing, as configparser applies before looking a boolean word up. */
  function Lower(s: string): (r: string)
    ensures |r| == |s|
  {
    seq(|s|, i requires 0 <= i < |s| => if 'A' <= s[i] <= 'Z' then (s[i] as int + 32) as char else s[i])
  }

  /** configparser's `getboolean`: the boolean a value stands for, or None where it raises ValueError. */
  function BooleanState(v: string): Option<bool> {
    var w := Lower(v);
    if w == "1" || w == "yes" || w == "true" || w == "on" then Some(true)
    else if w == "0" || w == "no" || w == "false" || w == "off" then Some(false)
    else None
  }

  /** A value is truthy in Python unless it is None or the empty string. */
  predicate Truthy(o: Option<string>) {
    o.Some? && o.value != ""
  }

  /** A section's `proposed` option, if present, is a boolean word. */
  predicate SectionReadable(s: Section) {
    "proposed" in s ==> BooleanState(s["proposed"]).Some?
  }

  /** The entry is a sources.list entry that is not disabled. */
  predicate EntryOn(e: Option<SourceEntry>) {
    e.Some? && !e.value.disabled
  }

  /** The first test of `check()` on one repository section: the given origin equals the
      section's, or, without an origin, the URI equals its default mirror with a trailing slash. */
  predicate SectionOriginPasses(s: Section, uri: string, origin: Option<string>)
    requires Truthy(origin) ==> "origin" in s
    requires !Truthy(origin) ==> "default_mirror" in s
  {
    if Truthy(origin) then origin.value == s["origin"]
    else WithSlash(s["default_mirror"]) == uri
  }

  /** The section has the options `check()` reads from it, in the order it reads them. */
  predicate SectionCheckable(s: Section, uri: string, origin: Option<string>) {
    && (Truthy(origin) ==> "origin" in s)
    && (!Truthy(origin) ==> "default_mirror" in s)
    && (SectionOriginPasses(s, uri, origin) ==> "codename" in s)
  }

  class Channel {
    const channelName: string
    const sections: map<string, Section>
    var repositories: map<string, Option<SourceEntry>>

    /** Section `r` exists and its `proposed` option, if present, is a boolean word. */
    predicate Readable(r: string) {
      r in sections && SectionReadable(sections[r])
    }

    /** Every repository of `repos` can be asked whether it is proposed. */
    predicate ReadableAll(repos: map<string, Option<SourceEntry>>) {
      forall r :: r in repos ==> Readable(r)
    }

    /** Every repository section's `proposed` option, if present, is a boolean word. This depends
        only on the file, so no operation on the channel changes it. */
    predicate ProposedReadable() {
      forall r :: r in sections && r != "channel" ==> SectionReadable(sections[r])
    }

    /** `enabled` can be evaluated on `repos`: every repository has a section, and one without an
        enabled entry, for which `is_proposed` is consulted, has a boolean `proposed` word. */
    predicate EnabledDefined(repos: map<string, Option<SourceEntry>>) {
      forall r :: r in repos ==> r in sections && (!EntryOn(repos[r]) ==> SectionReadable(sections[r]))
    }

    ghost predicate Valid()
      reads this
    {
      repositories.Keys == sections.Keys - {"channel"}
    }

    /** Builds the repository map from the file's sections; every entry starts as None. */
    constructor (name: string, fileSections: map<string, Section>)
      ensures channelName == name && sections == fileSections
      ensures repositories.Keys == fileSections.Keys - {"channel"}
      ensures forall r :: r in repositories ==> repositories[r] == None
      ensures Valid()
    {
      channelName := name;
      sections := fileSections;
      var repos: map<string, Option<SourceEntry>> := map[];
      var todo := fileSections.Keys;
      while todo != {}
        invariant todo <= fileSections.Keys
        invariant repos.Keys == fileSections.Keys - todo - {"channel"}
        invariant forall r :: r in repos ==> repos[r] == None
        decreases todo
      {
        var r :| r in todo;
        if r != "channel" {
          repos := repos[r := None];
        }
        todo := todo - {r};
      }
      repositories := repos;
    }

    /** `is_proposed`: the section has a `proposed` option whose boolean value is true. */
    predicate IsProposed(r: string)
      requires Readable(r)
    {
      "proposed" in sections[r] && BooleanState(sections[r]["proposed"]) == Some(true)
    }

    /** `is_sourceentry_enabled`: an enabled entry, or (when proposed ones are skipped) a proposed repository. */
    predicate IsSourceEntryEnabled(r: string, entry: Option<SourceEntry>, skipProposed: bool)
      requires r in sections && (skipProposed && !EntryOn(entry) ==> SectionReadable(sections[r]))
    {
      (entry.Some? && !entry.value.disabled) || (skipProposed && IsProposed(r))
    }

    /** The `enabled` property evaluated on a repository map. */
    predicate EnabledWith(repos: map<string, Option<SourceEntry>>)
      requires EnabledDefined(repos)
    {
      forall r :: r in repos ==> IsSourceEntryEnabled(r, repos[r], true)
    }

    /** `enabled`: every repository passes `is_sourceentry_enabled` with `skip_proposed=True`. */
    predicate Enabled()
      requires EnabledDefined(repositories)
      reads this
    {
      EnabledWith(repositories)
    }

    /** True iff every repository of `repos` is proposed. */
    predicate AllProposed(repos: map<string, Option<SourceEntry>>)
      requires ReadableAll(repos)
    {
      forall r :: r in repos ==> IsProposed(r)
    }

    /** A channel whose repositories are all proposed (or that has none) is enabled whatever its entries. */
    lemma ProposedOnlyIsEnabled(repos: map<string, Option<SourceEntry>>)
      requires ReadableAll(repos) && AllProposed(repos)
      ensures EnabledWith(repos)
    {
    }

    /** The space-separated list in option `key` of the `channel` section, or [] when the option is absent. */
    function ListField(key: string): (r: seq<string>)
      requires "channel" in sections
      ensures key !in sections["channel"] ==> r == []
      ensures key in sections["channel"] ==>
        |r| >= 1 && Join(r, ' ') == sections["channel"][key] && forall i :: 0 <= i < |r| ==> ' ' !in r[i]
    {
      if key in sections["channel"] then
        var v := sections["channel"][key];
        JoinSplit(v, ' ');
        Split(v, ' ')
      else []
    }

    /** `get_dependencies` */
    function GetDependencies(): (r: seq<string>)
      requires "channel" in sections
      ensures r == ListField("depends")
    {
      ListField("depends")
    }

    /** `get_conflicts` */
    function GetConflicts(): (r: seq<string>)
      requires "channel" in sections
      ensures r == ListField("conflicts")
    {
      ListField("conflicts")
    }

    /** `get_providers` */
    function GetProviders(): (r: seq<string>)
      requires "channel" in sections
      ensures r == ListField("provides")
    {
      ListField("provides")
    }

    /** The options `enable()` reads to add an entry for repository `r`. */
    predicate HasEntryFields(r: string)
      requires r in sections
    {
      "default_mirror" in sections[r] && "codename" in sections[r] && "components" in sections[r]
    }

    /** Every repository that `enable()` would have to add an entry for has the options it reads. */
    predicate EnableDefined(repos: map<string, Option<SourceEntry>>)
      requires ReadableAll(repos)
    {
      forall r :: r in repos && repos[r].None? && !IsProposed(r) ==> HasEntryFields(r)
    }

    /** The entry `sourceslist.add` creates for repository `r` of this channel. */
    function NewEntry(r: string): (e: SourceEntry)
      requires r in sections && HasEntryFields(r)
      ensures !e.disabled && e.kind == "deb" && e.uri == sections[r]["default_mirror"]
      ensures e.dist == sections[r]["codename"] && e.comment == r
      ensures Join(e.comps, ' ') == sections[r]["components"]
    {
      JoinSplit(sections[r]["components"], ' ');
      SourceEntry("deb", sections[r]["default_mirror"], sections[r]["codename"],
                  Split(sections[r]["components"], ' '), r,
                  "/etc/apt/sources.list.d/" + channelName + ".list", false)
    }

    /** What `enable()` leaves in repository `r` that held `e`. */
    function EnableEntry(r: string, e: Option<SourceEntry>): Option<SourceEntry>
      requires Readable(r) && (e.None? && !IsProposed(r) ==> HasEntryFields(r))
    {
      if IsProposed(r) then e
      else if e.Some? then Some(e.value.(disabled := false))
      else Some(NewEntry(r))
    }

    /** The repository map after `enable()`. */
    function EnableResult(repos: map<string, Option<SourceEntry>>): (res: map<string, Option<SourceEntry>>)
      requires ReadableAll(repos) && EnableDefined(repos)
      ensures res.Keys == repos.Keys
      ensures forall r :: r in repos && IsProposed(r) ==> res[r] == repos[r]
      ensures forall r :: r in repos && !IsProposed(r) ==> res[r].Some? && !res[r].value.disabled
      ensures forall r :: r in repos && !IsProposed(r) && repos[r].Some? ==>
        res[r] == Some(repos[r].value.(disabled := false))
      ensures forall r :: r in repos && !IsProposed(r) && repos[r].None? ==> res[r] == Some(NewEntry(r))
    {
      map r | r in repos :: EnableEntry(r, repos[r])
    }

    /** The repository map after `disable()`. */
    function DisableResult(repos: map<string, Option<SourceEntry>>): (res: map<string, Option<SourceEntry>>)
      ensures res.Keys == repos.Keys
      ensures forall r :: r in repos && repos[r].None? ==> res[r].None?
      ensures forall r :: r in repos && repos[r].Some? ==> res[r] == Some(repos[r].value.(disabled := true))
    {
      map r | r in repos :: if repos[r].Some? then Some(repos[r].value.(disabled := true)) else None
    }

    /** After `enable()` the channel is enabled. */
    lemma EnableMakesEnabled(repos: map<string, Option<SourceEntry>>)
      requires ReadableAll(repos) && EnableDefined(repos)
      ensures ReadableAll(EnableResult(repos)) && EnabledWith(EnableResult(repos))
    {
    }

    /** After `disable()` the channel is enabled exactly when all its repositories are proposed. */
    lemma DisableEnabledIffAllProposed(repos: map<string, Option<SourceEntry>>)
      requires ReadableAll(repos)
      ensures ReadableAll(DisableResult(repos))
      ensures EnabledWith(DisableResult(repos)) <==> AllProposed(repos)
    {
      var d := DisableResult(repos);
      if EnabledWith(d) {
        forall r | r in repos ensures IsProposed(r) {
          assert IsSourceEntryEnabled(r, d[r], true);
        }
      }
    }

    /** Neither operation creates a repository that `enable()` could not fill in. */
    lemma EnableDefinedStable(repos: map<string, Option<SourceEntry>>)
      requires ReadableAll(repos) && EnableDefined(repos)
      ensures ReadableAll(EnableResult(repos)) && EnableDefined(EnableResult(repos))
      ensures ReadableAll(DisableResult(repos)) && EnableDefined(DisableResult(repos))
    {
    }

    /** `disable()`: every existing entry is turned off; repositories without an entry stay without. */
    method Disable()
      requires Valid()
      modifies this
      ensures Valid()
      ensures repositories == DisableResult(old(repositories))
    {
      var repos := repositories;
      ghost var target := DisableResult(repos);
      var todo := repos.Keys;
      while todo != {}
        invariant todo <= repositories.Keys && repos.Keys == repositories.Keys
        invariant forall r :: r in todo ==> repos[r] == repositories[r]
        invariant forall r :: r in repositories && r !in todo ==> repos[r] == target[r]
        decreases todo
      {
        var r :| r in todo;
        if repos[r].Some? {
          repos := repos[r := Some(repos[r].value.(disabled := true))];
        }
        todo := todo - {r};
      }
      assert repos == target;
      repositories := repos;
    }

    /** `enable()`: proposed repositories are skipped; every other one gets an enabled entry, reused or new. */
    method Enable()
      requires Valid() && ReadableAll(repositories) && EnableDefined(repositories)
      modifies this
      ensures Valid()
      ensures repositories == EnableResult(old(repositories))
    {
      var repos := repositories;
      ghost var target := EnableResult(repos);
      var todo := repos.Keys;
      while todo != {}
        invariant todo <= repositories.Keys && repos.Keys == repositories.Keys
        invariant forall r :: r in todo ==> repos[r] == repositories[r]
        invariant forall r :: r in repositories && r !in todo ==> repos[r] == target[r]
        decreases todo
      {
        var r :| r in todo;
        if !IsProposed(r) {
          if repos[r].Some? {
            repos := repos[r := Some(repos[r].value.(disabled := false))];
          } else {
            repos := repos[r := Some(NewEntry(r))];
          }
        }
        todo := todo - {r};
      }
      assert repos == target;
      repositories := repos;
    }

    /** The options `check()` reads for repository `r` are present. */
    predicate CheckDefined(r: string, uri: string, origin: Option<string>)
    {
      r in sections && SectionCheckable(sections[r], uri, origin)
    }

    /** The origin test of `check()` on repository `r`. */
    predicate OriginPasses(r: string, uri: string, origin: Option<string>)
      requires CheckDefined(r, uri, origin)
    {
      SectionOriginPasses(sections[r], uri, origin)
    }

    /** Repository `r` accepts the entry: the origin test passes and the codename is equal. */
    predicate Matches(r: string, uri: string, origin: Option<string>, codename: string)
      requires CheckDefined(r, uri, origin)
    {
      OriginPasses(r, uri, origin) && codename == sections[r]["codename"]
    }

    /** The repository map after `check()`. */
    function CheckResult(repos: map<string, Option<SourceEntry>>, uri: string, origin: Option<string>,
                         codename: string, entry: SourceEntry): (res: map<string, Option<SourceEntry>>)
      requires forall r :: r in repos ==> CheckDefined(r, uri, origin)
      ensures res.Keys == repos.Keys
      ensures forall r :: r in repos ==> res[r] == (if Matches(r, uri, origin, codename) then Some(entry) else repos[r])
    {
      map r | r in repos :: if Matches(r, uri, origin, codename) then Some(entry) else repos[r]
    }

    /** Checking the same entry twice changes nothing more than checking it once. */
    lemma CheckIdempotent(repos: map<string, Option<SourceEntry>>, uri: string, origin: Option<string>,
                          codename: string, entry: SourceEntry)
      requires forall r :: r in repos ==> CheckDefined(r, uri, origin)
      ensures CheckResult(CheckResult(repos, uri, origin, codename, entry), uri, origin, codename, entry)
           == CheckResult(repos, uri, origin, codename, entry)
    {
    }

    /** Without an origin, a mirror written without its trailing slash matches the URI with it. */
    lemma MirrorSlashInsensitive(r: string, uri: string, codename: string)
      requires r in sections && "default_mirror" in sections[r] && "codename" in sections[r]
      requires var m := sections[r]["default_mirror"]; uri == m + "/" && !EndsWith(m, "/")
      ensures CheckDefined(r, uri, None)
      ensures Matches(r, uri, None, codename) == (codename == sections[r]["codename"])
      ensures WithSlash(uri) == uri
    {
    }

    /** `check()`: the entry is stored in every repository it matches; the others are left alone. */
    method Check(uri: string, origin: Option<string>, releaseLabel: Option<string>, codename: string, entry: SourceEntry)
      requires Valid()
      requires forall r :: r in repositories ==> CheckDefined(r, uri, origin)
      modifies this
      ensures Valid()
      ensures repositories == CheckResult(old(repositories), uri, origin, codename, entry)
    {
      var repos := repositories;
      ghost var target := CheckResult(repos, uri, origin, codename, entry);
      var todo := repos.Keys;
      while todo != {}
        invariant todo <= repositories.Keys && repos.Keys == repositories.Keys
        invariant forall r :: r in todo ==> repos[r] == repositories[r]
        invariant forall r :: r in repositories && r !in todo ==> repos[r] == target[r]
        decreases todo
      {
        var r :| r in todo;
        repos := CheckOne(repos, r, uri, origin, codename, entry);
        todo := todo - {r};
      }
      assert repos == target;
      repositories := repos;
    }

    /** One round of the loop of `check()`: repository `r` takes the entry when it matches. */
    function CheckOne(repos: map<string, Option<SourceEntry>>, r: string, uri: string, origin: Option<string>,
                      codename: string, entry: SourceEntry): (res: map<string, Option<SourceEntry>>)
      requires r in repos && CheckDefined(r, uri, origin)
      ensures res.Keys == repos.Keys
      ensures forall q :: q in repos && q != r ==> res[q] == repos[q]
      ensures res[r] == (if Matches(r, uri, origin, codename) then Some(entry) else repos[r])
    {
      if Matches(r, uri, origin, codename) then repos[r := Some(entry)] else repos
    }
  }
}
