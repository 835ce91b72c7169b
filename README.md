# libchannels, modelled in Dafny

libchannels manages *channels*: named sets of APT repositories described by a `.channel` file. Each
repository section gives a default mirror, an origin, a codename and components. A `[channel]`
section can declare `depends`, `conflicts` and `provides` lists. A channel is enabled when every
repository it lists that is not `proposed` has an enabled sources.list entry.

- **Discovery.** It reads every `.channel` and `.provider` file of the channel directory into a
  cache. It then offers each `deb` entry of sources.list to every cached channel, using the
  `Origin:` and `Codename:` fields of the entry's APT list file (`InRelease`, else `Release`).
  Finally it collects the enabled channels. The scan reads the `Release` file beside the
  `InRelease` file, which is the corrected fallback of the first finding below.
- **Relations.** A dependency, a conflict or a provider relation is satisfied or not against the
  live registry.
- **Resolver.** It builds the dependency relations of every cached channel and says whether a
  channel can be enabled. Providers are passed over, which corrects the third finding below.
- **Actions.** These run an enable/disable plan over the cache.
- **APT handler.** A small part of it explains pending package changes: the reason for a change,
  whether a check of a relationship list holds, the changes reported to a front-end, and the
  packages the user has kept back.

Modules:

- `Lists`: Python's `list.remove`, used on lists of strings and of package ids.
- `Strings`: the handful of Python string operations the core relies on (`split`, `join`,
  `replace`, `strip`, appending a trailing slash), with their laws.
- `Channels`: class `Channel` with its immutable file sections and its mutable repository map.
  `enable`, `disable` and `check` are methods. Each is specified by a pure function of the old map,
  and the `enabled` property is a predicate.
- `Relations`: the registry (cache key to channel object or provider name) and the three relation
  kinds.
- `Resolver`: class `DependencyResolver`.
- `Actions`: the action type, `enable_channel` and `disable_channel`. The solution plan they follow
  is a parameter.
- `Discovery`: cache keys, the release-file name, the Release field parser, and class
  `ChannelDiscovery` with its `cache` and `channels` maps.
- `AptHandler`: packages as values, `get_reason`, `check_relationship(s)`, and class `Apt` with
  `id_with_packages` (a map plus its insertion order) and `now_kept`.

## Model

| member | source | states |
|---|---|---|
| Lists.RemoveFirst | libchannels/discovery.py:73 | `list.remove` takes out one element |
| Lists.RemoveFirstAt | libchannels/apt_handler.py:455 | `list.remove` takes out exactly the first occurrence |
| Strings.Split | libchannels/channel.py:123 | `str.split(sep)` yields at least one piece, and no piece contains the separator |
| Strings.JoinSplit | libchannels/discovery.py:70 | joining the pieces of a split with the same separator gives back the string |
| Strings.SplitJoin | libchannels/discovery.py:80 | splitting a join of separator-free pieces gives back the pieces |
| Strings.SplitFree | libchannels/channel.py:123 | a string without the separator splits into itself alone |
| Strings.SplitPrefix | libchannels/channel.py:123 | splitting `a + sep + b` gives `a` followed by the pieces of `b` |
| Strings.ReplaceChar | libchannels/discovery.py:70 | `str.replace` of one character keeps the length and replaces exactly the occurrences of that character |
| Strings.RemoveAllSplit | libchannels/discovery.py:57 | removing a pattern distributes over concatenation when no occurrence straddles the boundary |
| Strings.RemoveAllAbsent | libchannels/discovery.py:57 | removing a pattern that does not occur leaves the string unchanged |
| Strings.StripLeft | libchannels/discovery.py:99 | the result is a suffix of the input, it starts with a non-space, and everything dropped is white space |
| Strings.StripRight | libchannels/discovery.py:99 | the result is a prefix of the input, it ends with a non-space, and everything dropped is white space |
| Strings.Strip | libchannels/discovery.py:99 | `str.strip()`: a contiguous slice with only white space dropped at both ends, and non-space at both ends |
| Strings.StripBoth | libchannels/discovery.py:99 | the slice strip picks is the one between the first and the last non-space character |
| Strings.StripUnpadded | libchannels/discovery.py:99 | a string without leading or trailing white space is its own strip |
| Strings.StripIdempotent | libchannels/discovery.py:99 | stripping twice equals stripping once |
| Strings.WithSlash | libchannels/channel.py:158-160 | the URI ends in `/`; it is the input when that already ends in `/`, else the input plus `/` |
| Strings.SlashInsensitive | libchannels/discovery.py:115 | a URI and the same URI with a trailing slash normalise to the same string |
| Channels.Channel.constructor | libchannels/channel.py:59-77 | every section except `channel` becomes a repository with no entry, so the repository names are exactly the non-`channel` sections |
| Channels.Channel.ProposedOnlyIsEnabled | libchannels/channel.py:184-207 | a channel whose repositories without entry are all proposed counts as enabled |
| Channels.Channel.IsProposed | libchannels/channel.py:174-182 | definition of `is_proposed`: a `proposed` option whose boolean word means true; `EnableResult` shows that enabling leaves exactly the proposed repositories as they were |
| Channels.Channel.IsSourceEntryEnabled | libchannels/channel.py:184-198 | definition of `is_sourceentry_enabled`: an entry that is not disabled, or a proposed repository when proposed ones are skipped; used by `Enabled` |
| Channels.Channel.Enabled | libchannels/channel.py:200-207 | definition of `enabled`: every repository passes `is_sourceentry_enabled` with proposed ones skipped; `EnableMakesEnabled`, `DisableEnabledIffAllProposed` and `ProposedOnlyIsEnabled` prove what enabling and disabling do to it |
| Channels.Channel.ListField | libchannels/channel.py:118-137 | a metadata list is empty when the key is absent, and is otherwise the value split on single spaces |
| Channels.Channel.GetDependencies | libchannels/channel.py:118-123 | `get_dependencies` is the `depends` list |
| Channels.Channel.GetConflicts | libchannels/channel.py:125-130 | `get_conflicts` is the `conflicts` list |
| Channels.Channel.GetProviders | libchannels/channel.py:132-137 | `get_providers` is the `provides` list |
| Channels.Channel.NewEntry | libchannels/channel.py:106-114 | a manually added entry is an enabled `deb` line with the section's mirror, codename and components, commented with the repository name |
| Channels.Channel.EnableResult | libchannels/channel.py:98-114 | proposed repositories are untouched; every other one ends with an enabled entry, either its existing entry switched on or a new one |
| Channels.Channel.DisableResult | libchannels/channel.py:86-87 | every existing entry is switched off, and repositories without an entry keep none |
| Channels.Channel.EnableMakesEnabled | libchannels/channel.py:91-116 | after `enable()` the channel is enabled |
| Channels.Channel.DisableEnabledIffAllProposed | libchannels/channel.py:79-89 | after `disable()` the channel is still enabled exactly when all its repositories are proposed |
| Channels.Channel.EnableDefinedStable | libchannels/channel.py:98-114 | enabling and disabling keep every entry well formed, so the channel can be enabled again |
| Channels.Channel.Enable | libchannels/channel.py:91-116 | `enable()` sets the repository map to `EnableResult` of the old map and keeps the object valid |
| Channels.Channel.Disable | libchannels/channel.py:79-89 | `disable()` sets the repository map to `DisableResult` of the old map and keeps the object valid |
| Channels.Channel.CheckResult | libchannels/channel.py:146-172 | a repository takes the offered entry exactly when the origin (or the slash-normalised default mirror, when there is no origin) and the codename match; the others keep theirs |
| Channels.Channel.CheckOne | libchannels/channel.py:156-172 | one iteration of `check()` changes at most the repository it looks at |
| Channels.Channel.CheckIdempotent | libchannels/channel.py:146-172 | offering the same entry twice is the same as offering it once |
| Channels.Channel.MirrorSlashInsensitive | libchannels/channel.py:156-166 | without an origin, a mirror written without its trailing slash matches the URI that has one, and the codename alone decides |
| Channels.Channel.Check | libchannels/channel.py:146-172 | `check()` sets the repository map to `CheckResult` of the old map |
| Relations.GetName | libchannels/relations.py:53-58 | `get_name` returns the target's key when every entity is registered under its own name |
| Relations.Satisfied | libchannels/relations.py:60-65 | definition of `bool()`: a dependency holds when its target is enabled, a conflict when it is not, a provider relation when no channel is its enabled provider; `ContainsFalseIffUnsatisfied` links it to `False in rels` |
| Relations.IsProviderEnabled | libchannels/relations.py:110-124 | definition of `is_provider_enabled(c)`: `c` is not a provider key, not the requirer, lists the provider and is enabled; `RequirerNeverBlocksItself` and `EnabledProvidersBlockEachOther` prove its consequences |
| Relations.Equals | libchannels/relations.py:35-45 | definition of `==` between relations: the targets are equal, whatever the kind; `EqualityIgnoresKind` proves a dependency equals the conflict on the same target |
| Relations.EqualsBool | libchannels/relations.py:40-42 | definition of `==` with a boolean: the boolean is the relation's satisfaction; `EqualityIgnoresKind` proves a dependency and a conflict on one target compare oppositely |
| Relations.ContainsFalseIffUnsatisfied | libchannels/relations.py:35-45 | `False in rels`, using the boolean `__eq__`, holds exactly when some relation is unsatisfied |
| Relations.EqualityIgnoresKind | libchannels/relations.py:35-45 | relation equality compares targets only: a dependency and a conflict on one channel are equal although exactly one of them is satisfied |
| Relations.RequirerNeverBlocksItself | libchannels/relations.py:110-124 | the requirer is never the enabled provider of its own relation |
| Relations.SatisfiedProviderIsExclusive | libchannels/relations.py:137-142 | when a provider relation is satisfied, no enabled channel other than the requirer provides the target |
| Relations.EnabledProvidersBlockEachOther | libchannels/relations.py:110-142 | two distinct enabled channels providing the same name each leave the other's provider relation unsatisfied |
| Relations.CurrentProviderChannel | libchannels/relations.py:126-135 | the result is None exactly when the relation is satisfied; otherwise it is the first channel, in iteration order, that currently provides the target |
| Resolver.DependencyRelations | libchannels/resolver.py:49-53 | one dependency relation per declared dependency, in order |
| Resolver.ChannelKeys | libchannels/discovery.py:110-112 | the cache keys that hold channels, not providers |
| Resolver.RelationsAsWritten | libchannels/resolver.py:39-53 | definition of the construction loop as written: the first provider reached raises, otherwise every key visited gets its dependency relations; `ProviderBreaksResolver` and `AsWrittenWithoutProviders` prove both outcomes |
| Resolver.ProviderBreaksResolver | libchannels/resolver.py:39-53 | as written, construction fails whenever the cache holds a provider, and the failure names a provider |
| Resolver.AsWrittenWithoutProviders | libchannels/resolver.py:39-53 | without providers, the loop as written succeeds and builds the dependency relations of exactly the keys it visits |
| Resolver.DependencyResolver.constructor | libchannels/resolver.py:32-41 | (corrected) exactly the cached channels get relations, each its dependency relations; providers are passed over |
| Resolver.DependencyResolver.BuildRelations | libchannels/resolver.py:43-53 | the channel's relation list is replaced by its dependency relations, and the other lists stay as they were |
| Resolver.DependencyResolver.IsChannelEnableable | libchannels/resolver.py:55-61 | definition of `is_channel_enableable`: no relation of the channel compares equal to False; `EnableableIffDependenciesEnabled` and `NoDependenciesEnableable` prove its meaning |
| Resolver.DependencyResolver.EnableableIffDependenciesEnabled | libchannels/resolver.py:55-61 | a channel can be enabled exactly when every declared dependency is enabled |
| Resolver.DependencyResolver.NoDependenciesEnableable | libchannels/resolver.py:55-61 | a channel without dependencies can always be enabled |
| Actions.Value | libchannels/actions.py:23-29 | the enum values are 1 and 2 |
| Actions.FromValue | libchannels/actions.py:23-29 | exactly 1 and 2 name an action |
| Actions.ValueRoundTrip | libchannels/actions.py:23-29 | value and lookup are inverse in both directions |
| Actions.ActionsForConcat | libchannels/actions.py:55-59 | the actions a plan applies to one channel, split at any point, are the actions of the two halves |
| Actions.LastStepDecides | libchannels/actions.py:55-59 | the last action applied to a channel is the one of the last step naming it |
| Actions.UnnamedUntouched | libchannels/actions.py:55-59 | a channel the plan does not name gets no action |
| Actions.Applied | libchannels/actions.py:55-59 | applying actions keeps the repository keys and keeps every entry well formed |
| Actions.LastActionDecides | libchannels/actions.py:55-59 | after a run of actions, a final enable leaves the channel enabled; a final disable leaves it enabled exactly when all its repositories are proposed |
| Actions.RunStep | libchannels/actions.py:55-59 | one step of the plan advances exactly its channel by one action |
| Actions.ChannelStep | libchannels/actions.py:56-59 | an enable or disable step changes the named channel as `enable()`/`disable()` do and no other channel |
| Actions.ApplyPlan | libchannels/actions.py:55-59 | every channel ends at the result of the plan's actions for it, in order |
| Actions.EnableChannel | libchannels/actions.py:46-59 | an enabled channel is left as it is, with the cache unchanged; otherwise every channel ends at the plan's actions for it |
| Actions.DisableChannel | libchannels/actions.py:61-74 | a disabled channel is left as it is, with the cache unchanged; otherwise every channel ends at the plan's actions for it |
| Discovery.CacheKey | libchannels/discovery.py:53-57 | a file is skipped exactly when it ends in neither `.channel` nor `.provider` |
| Discovery.ChannelFileKey | libchannels/discovery.py:57 | `name.channel` is cached as `name` |
| Discovery.ProviderFileKey | libchannels/discovery.py:57-60 | `name.provider` is cached under its full file name |
| Discovery.ProviderKeepsSuffix | libchannels/discovery.py:57-60 | every provider file's key still ends in `.provider`, so it is stored as a provider |
| Discovery.ProviderSuffixKept | libchannels/discovery.py:57 | removing `.channel` leaves `.provider` intact |
| Discovery.NonEmpty | libchannels/discovery.py:72-73 | the result has no empty piece and keeps exactly the non-empty pieces |
| Discovery.RemoveFirstEmpty | libchannels/discovery.py:72-73 | removing one empty piece does not change the non-empty pieces |
| Discovery.NonEmptyFixed | libchannels/discovery.py:72 | a list without empty pieces is its own filter, so the while loop stops there |
| Discovery.ReleaseBase | libchannels/discovery.py:70-77 | the release base is the URI's non-empty pieces without the protocol, then `dists`, then the distribution with `/` replaced by `_` |
| Discovery.ComputeReleaseBase | libchannels/discovery.py:70-77 | the loop that drops empty pieces and pops the protocol computes `ReleaseBase` |
| Discovery.InReleasePath | libchannels/discovery.py:80 | definition of the InRelease file name: the base and `InRelease` joined by `_` under the lists directory; `ReleaseFilesShareStem` proves its stem |
| Discovery.ReleasePathAsWritten | libchannels/discovery.py:82 | definition of the fallback as written: the base without its first piece, then `Release`, joined by `_`; `ReleasePathAsWrittenDropsHost` proves it is never the sibling file |
| Discovery.ReleasePath | libchannels/discovery.py:82 | (corrected) definition of the fallback: the whole base and `Release` joined by `_`; `ReleaseFilesShareStem` proves it shares the InRelease file's stem |
| Discovery.ReleaseFilesShareStem | libchannels/discovery.py:79-82 | (corrected) the InRelease and Release names are the same joined base with different last parts |
| Discovery.ReleasePathAsWrittenDropsHost | libchannels/discovery.py:80-82 | as written, the fallback name drops the first base piece: it is shorter than the intended name by that piece and a `_` |
| Discovery.FallbackMissesSibling | libchannels/discovery.py:80-82 | for every URI with a host, the fallback the code opens is not the `Release` file beside the `InRelease` file |
| Discovery.FieldValueMeaning | libchannels/discovery.py:98-105 | a line gives a field value exactly when the stripped line is the key alone (empty value) or the key, a space and the value |
| Discovery.LastSomeMeaning | libchannels/discovery.py:98-105 | the last value found is None exactly when no line gave one, and otherwise comes from a line with no later ones |
| Discovery.FieldValues | libchannels/discovery.py:98-105 | one parse result per line, in order |
| Discovery.LastFieldMeaning | libchannels/discovery.py:98-105 | a field is the value given by the last line that gives it, and None when no line gives it |
| Discovery.ParseRelease | libchannels/discovery.py:96-105 | the line loop computes the Origin, Label and Codename of the last matching lines |
| Discovery.ParseLine | libchannels/discovery.py:99-105 | one line updates the field its first token names, so the info becomes that of the lines read so far plus this one |
| Discovery.FieldValue | libchannels/discovery.py:99-105 | definition of the value a line gives to a key: the tokens after the key, joined by spaces; `FieldValueMeaning` proves that a line gives `v` exactly when, stripped, it is the key alone (and `v` is empty) or the key, a space and `v` |
| Discovery.ReleaseInfoFor | libchannels/discovery.py:84-105 | (corrected) the fields of the InRelease file, else of the Release file beside it; with neither present, no field is known |
| Discovery.ReleaseInfoAsWritten | libchannels/discovery.py:80-105 | the lookup as written: the InRelease file, else the file line 82 names; with neither, no field is known |
| Discovery.SiblingReleaseIgnoredAsWritten | libchannels/discovery.py:82-93 | when only the Release file beside the InRelease file exists, the corrected lookup reads its fields and the lookup as written finds none |
| Discovery.InReleasePreferred | libchannels/discovery.py:85-87 | when the InRelease file exists, its fields are used |
| Discovery.ReadRelease | libchannels/discovery.py:70-105 | (corrected) computing the base and reading the list file gives `ReleaseInfoFor` of the entry |
| Discovery.Skipped | libchannels/discovery.py:66-67 | definition of the skip test: an entry without a URI, or of type `deb-src`; `Offered` proves a skipped entry changes nothing |
| Discovery.CheckUri | libchannels/discovery.py:115 | the URI given to `check()` ends in `/` |
| Discovery.Offered | libchannels/discovery.py:66-120 | a skipped entry changes nothing; any other entry is offered to a channel with the entry's normalised URI and the origin of `ReleaseInfoFor` (corrected) |
| Discovery.OfferedFromSources | libchannels/discovery.py:65-120 | (corrected) after all entries, each repository keeps its starting entry or holds an entry of sources.list that it accepts |
| Discovery.LastMatchWins | libchannels/discovery.py:65-120 | a repository ends with the last entry offered when that entry matches it |
| Discovery.NoEntries | libchannels/channel.py:72-77 | a freshly loaded channel has every repository section without an entry |
| Discovery.EnabledKeys | libchannels/discovery.py:125-127 | the keys collected are cached channels, not providers |
| Discovery.Repos | libchannels/discovery.py:108-120 | the repository maps of exactly the cached channels |
| Discovery.ChannelDiscovery.constructor | libchannels/discovery.py:35-43 | a discovery starts with an empty cache and no enabled channels |
| Discovery.ChannelDiscovery.PreloadFile | libchannels/discovery.py:53-62 | one directory entry is skipped or stored under its key |
| Discovery.ChannelDiscovery.Store | libchannels/discovery.py:59-62 | a key is stored as a provider or as a channel, by its suffix |
| Discovery.ChannelDiscovery.StoreProvider | libchannels/discovery.py:59-60 | a provider key is stored as a provider of that name |
| Discovery.ChannelDiscovery.StoreChannel | libchannels/discovery.py:61-62 | a channel key is stored as a fresh channel with its file's sections |
| Discovery.ChannelDiscovery.Preload | libchannels/discovery.py:50-62 | the cache is the old cache with every loaded key replaced |
| Discovery.ChannelDiscovery.CheckChannel | libchannels/discovery.py:114-120 | one channel's `check()` changes only that channel |
| Discovery.ChannelDiscovery.ScanStep | libchannels/discovery.py:108-120 | one iteration checks one channel, and providers are passed over |
| Discovery.ChannelDiscovery.ScanChannel | libchannels/discovery.py:108-120 | one iteration, for a channel that is not a provider |
| Discovery.ChannelDiscovery.CheckAll | libchannels/discovery.py:108-120 | every cached channel is checked against one entry, and providers are left alone |
| Discovery.ChannelDiscovery.ScanEntry | libchannels/discovery.py:65-123 | (corrected) one sources.list entry is skipped or offered to every cached channel |
| Discovery.ChannelDiscovery.DiscoverStep | libchannels/discovery.py:65-123 | after entry `i`, every channel holds its start map with the first `i+1` entries offered |
| Discovery.ChannelDiscovery.ScanSources | libchannels/discovery.py:65-123 | all entries are offered in order |
| Discovery.ChannelDiscovery.PreloadAndScan | libchannels/discovery.py:50-123 | (corrected) loading and scanning leave the cache of `Discovered` |
| Discovery.WithEnabled | libchannels/discovery.py:125-127 | the loop adds exactly the enabled cached channels that are not providers, which override old entries, and keeps every other entry |
| Discovery.ChannelDiscovery.CollectEnabled | libchannels/discovery.py:125-127 | `channels` gains exactly the enabled cached channels, which override old entries, and no repository changes |
| Discovery.ChannelDiscovery.Discover | libchannels/discovery.py:45-127 | (corrected) the cache is the old one with the directory's files loaded, every channel holds its start map with all entries offered in order, and `channels` gains exactly the enabled ones |
| AptHandler.GetReason | libchannels/apt_handler.py:315-335 | the reason is a mark the package carries and the first by remove, downgrade, install, upgrade; None exactly when it carries none |
| AptHandler.HighestMarkIsReason | libchannels/apt_handler.py:315-335 | conversely, the first mark carried is the reason |
| AptHandler.CurrentVersion | libchannels/apt_handler.py:133-137 | (corrected) the installed version when there is one, else the candidate of a package marked to change |
| AptHandler.CheckRelationship | libchannels/apt_handler.py:121-142 | (corrected) true exactly when some alternative names a cached package whose own current version passes the check |
| AptHandler.CheckRelationships | libchannels/apt_handler.py:144-162 | (corrected) true exactly when every group holds |
| AptHandler.CheckRelationshipAsWritten | libchannels/apt_handler.py:130-142 | definition of the loop as written, carrying `version` between rounds: raises when it is unbound or has no candidate; `AsWrittenAgreesWithOwnVersions` and `StaleVersionAccepted` prove when it agrees with `CheckRelationship` and when it does not |
| AptHandler.CheckRelationshipsAsWritten | libchannels/apt_handler.py:158-162 | definition of `check_relationships` over the loop as written: the first group that fails or raises decides; `RelationshipsAsWrittenAgree` and `StaleVersionAcceptsList` prove its agreement and its discrepancy |
| AptHandler.RelationshipsAsWrittenAgree | libchannels/apt_handler.py:158-162 | when every cached package has a version of its own, the list check as written agrees with the corrected one |
| AptHandler.StaleVersionAcceptsList | libchannels/apt_handler.py:158-162 | as written, the list holding only the stale-version group is accepted although that group does not hold |
| AptHandler.AsWrittenAgreesWithOwnVersions | libchannels/apt_handler.py:130-142 | when every cached alternative has a current version, the loop as written gives the corrected answer |
| AptHandler.StaleVersionAccepted | libchannels/apt_handler.py:130-142 | as written, the group "`a (>= 2.0)` or `b`", with `a` 1.0 installed and `b` neither installed nor marked, is accepted although no alternative holds |
| AptHandler.UnboundVersionRaises | libchannels/apt_handler.py:130-142 | as written, a first alternative neither installed nor marked raises, because `version` is unbound |
| AptHandler.Save | libchannels/apt_handler.py:352-354 | saving keeps the record valid, adds the id, and keeps every earlier entry |
| AptHandler.SaveAll | libchannels/apt_handler.py:342-354 | every reported package's id is saved, and earlier entries are never overwritten |
| AptHandler.SaveAllKeys | libchannels/apt_handler.py:342-354 | an id is saved exactly when it was saved before or some reported package has it |
| AptHandler.FirstSeenWins | libchannels/apt_handler.py:353-354 | a new id keeps the first reported package with that id and its reason |
| AptHandler.ChangeFor | libchannels/apt_handler.py:357-364 | a change carries the package's id and name, the candidate version, the current reason or else the saved one, and a status that is true exactly when the package is not kept |
| AptHandler.Reports | libchannels/apt_handler.py:342-364 | at most one change per package |
| AptHandler.ReportsAreReported | libchannels/apt_handler.py:342-364 | a change is reported exactly when it is the change of some package with a reason or kept, and with a candidate |
| AptHandler.ReportsExtend | libchannels/apt_handler.py:352-361 | saving more entries does not change the changes already reported |
| AptHandler.StillKept | libchannels/apt_handler.py:444-455 | definition of what the first loop leaves of the kept ids, in order; `StillKeptMembers` proves it holds exactly the kept ids still marked keep, and stays distinct |
| AptHandler.RestoredNotices | libchannels/apt_handler.py:444-452 | definition of the first loop's notices, in order; `RestoredNoticesMeaning` proves each names a kept id no longer marked keep, with its reason |
| AptHandler.NewlyKept | libchannels/apt_handler.py:459-469 | definition of the ids the second loop appends, in order; `NewlyKeptMembers` proves it holds exactly the ids marked keep and not kept before, and stays distinct |
| AptHandler.StillKeptMembers | libchannels/apt_handler.py:444-455 | after the first loop, the kept ids are those that were kept and are still marked keep, without duplicates |
| AptHandler.NewlyKeptMembers | libchannels/apt_handler.py:459-469 | the newly kept ids are the saved ids marked keep and not kept already, without duplicates |
| AptHandler.RestoredNoticesMeaning | libchannels/apt_handler.py:444-452 | each restore notice is for a kept id no longer marked keep, with that package's reason |
| AptHandler.KeptNotices | libchannels/apt_handler.py:461-466 | one keep notice per newly kept id, in order |
| AptHandler.KeptIffMarkedKeep | libchannels/apt_handler.py:437-469 | after `get_user_changes`, an id is kept exactly when it is saved and currently marked keep |
| AptHandler.Apt.constructor | libchannels/apt_handler.py:44-71 | a handler starts unchanged, with no saved packages and nothing kept |
| AptHandler.Apt.Clear | libchannels/apt_handler.py:94-105 | `clear` empties the saved packages and the kept list and resets `changed` |
| AptHandler.Apt.GetChanges | libchannels/apt_handler.py:337-367 | the record becomes `SaveAll` of the old one, and the changes reported are `Reports` of the packages |
| AptHandler.Apt.GetUserChanges | libchannels/apt_handler.py:437-469 | the kept list becomes those still kept followed by the newly kept, and the notices are the restore notices followed by the keep notices |
| AptHandler.Apt.DropUnkept | libchannels/apt_handler.py:444-455 | the first loop keeps only the ids still marked keep and reports the others that have a reason |
| AptHandler.Apt.AddKept | libchannels/apt_handler.py:459-469 | the second loop appends the newly kept ids in insertion order and reports each |

## Left out

- File and process I/O: listing the channel directory, testing that list files exist, reading
  them, and parsing `.channel` files with configparser. The model takes the directory's file
  names, each file's sections and the existing list files (path to lines) as parameters.
- Writing sources.list. `sourceslist.add` is modelled by the entry it creates (`NewEntry`);
  `sourceslist.save()` and the `print` calls are left out.
- The codename: `check()` receives the list of the entry's distribution and the Release file's
  codename, and compares it with the section's codename string. The model treats this value as an
  opaque string per sources.list entry (`codenames[i]`), compared by equality.
- The Release file's `Label:` is parsed but, as in the source, never compared: `check()` ignores
  its `label` argument.
- `cache`, `channels` and `relations` are class attributes in the source, shared between all
  instances. The model makes them instance fields.
- Iteration order of Python dicts: the model lets several loops range over a sequence that is the
  map's key order, or over a set in any order. `Check`, `CheckAll` and the collection of enabled
  channels specify results that do not depend on that order.
- Discovery.ChannelDiscovery.Discover: requires every channel file's `proposed` values to be
  boolean words and every repository section to have the options `check()` reads. The source
  raises on the first such lookup instead.
- Discovery.ReleaseInfoFor: falls back to the `Release` file beside the `InRelease` file, not to
  the name line 82 of discovery.py builds (see the first finding); `ReleaseInfoAsWritten` is that lookup.
- Discovery.ReadRelease: reads the corrected fallback, as `ReleaseInfoFor` does.
- Discovery.Offered: the origin offered is that of the corrected lookup, so `OfferedAll`,
  `OfferedFromSources`, `ScanEntry` and `PreloadAndScan` describe the corrected scan. When only
  the sibling `Release` file exists, the source compares mirrors instead
  (`SiblingReleaseIgnoredAsWritten`).
- Discovery.ChannelDiscovery.Discover: its end-to-end contract is that of the corrected scan.
- Channels.Channel.Enable: requires every repository it must add an entry for to have
  `default_mirror`, `codename` and `components`. The source raises KeyError at channel.py:109-111
  instead, after it has already changed the entries of earlier repositories in the same loop.
- Channels.Channel.Check: requires every repository section to have the options `check()` reads:
  `origin` when an origin is given, otherwise `default_mirror`, and `codename` once the first test
  passes. The source raises KeyError at channel.py:156-165 instead, after earlier repositories of
  the same loop may already hold the entry.
- Channels.Channel.ListField: requires the file to have a `channel` section. The source raises
  KeyError at channel.py:123, 130 and 137 for a file without one.
- Channels.Channel.GetDependencies: the same `channel` section requirement as `ListField`.
- Channels.Channel.GetConflicts: the same `channel` section requirement as `ListField`.
- Channels.Channel.GetProviders: the same `channel` section requirement as `ListField`.
- Relations.Satisfied: requires, through `RegistryValid`, every cached channel's `proposed` values
  to be boolean words. The source's `enabled` parses only those of repositories without an
  enabled entry, and raises ValueError for another word there. `IsProviderEnabled`, `EqualsBool`
  and `CurrentProviderChannel` carry the same requirement.
- Actions.EnableChannel: requires the channel to be a cached channel and every step of the plan to
  name one. The source raises KeyError for an unknown name, such as a mistyped command-line
  argument, and AttributeError for a provider, which has no `enabled`. A bad step raises after
  the earlier steps have run, which leaves the plan partly applied.
- Actions.ApplyPlan: requires, through `RegistryValid`, every cached channel's `proposed` values to
  be boolean words. The source's `disable()` reads none of them, and `enable()` raises ValueError
  only when it reaches a repository with another word. `EnableChannel` and `DisableChannel` carry
  the same requirement.
- Actions.DisableChannel: the same requirements as `EnableChannel`, with the same KeyError and
  AttributeError paths at actions.py:66 and actions.py:72-74.
- Resolver.DependencyResolver.constructor: requires every declared dependency to name a cached
  channel. The source raises KeyError at resolver.py:53 for an unknown name, including the `""`
  an empty `depends =` splits into. A provider named as a dependency raises when the relation is
  evaluated.
- AptHandler.CheckRelationships: runs the corrected `CheckRelationship`; the list check as written
  is `CheckRelationshipsAsWritten`.
- Sources.list entries are values. In the source, every channel that matches an entry holds the
  same `SourceEntry` object, and `set_enabled` through one holder is seen by all. In the model, a
  channel's `enable()` or `disable()` changes only its own copy, so `ApplyPlan` and `ChannelStep`
  leave the entries of other channels as they were.
- Relation equality between two relations compares target keys. The source compares the target
  channel objects, which configparser compares by their contents.
- The rest of the APT handler, which drives APT: `update`, `mark_for_upgrade`, `fetch`,
  `install`, `change_status`, `restore_working_state`, `get_update_infos`, `open_cache`,
  `notify_error`, locking and the progress objects.
- AptHandler.Apt.Clear: the call to `self.cache.clear()` goes into APT and is left out.
- AptHandler.Apt.GetChanges: the `size` column and `size_to_str` are left out. The callbacks
  become the returned sequence of changes, and `finish_callback` is left out.
- AptHandler.Apt.GetUserChanges: the live APT marks of the saved packages are a parameter, and
  the callbacks become the returned sequence of notices.
- `apt_pkg.check_dep` is a parameter of the relationship checks.
- `provider.py` is reduced to the provider's name, which is all the core reads of it.
  `apt_cache.py` and `common.py` are not part of this model.
- `get_channel_solution` is not defined in the core. The plan it would return is a parameter of
  `EnableChannel` and `DisableChannel`.
- `__str__` of a channel, which returns its display name, is not modelled.

## Findings

| source | as written | input that shows it | evidently intended | confidence | as-written member | corrected member |
|---|---|---|---|---|---|---|
| libchannels/discovery.py:80-82 | the fallback `Release` name joins `release_base[1:]`, dropping the host piece that the `InRelease` name keeps | entry `deb http://deb.debian.org/debian jessie`: InRelease `deb.debian.org_debian_dists_jessie_InRelease`, fallback `debian_dists_jessie_Release` | the `Release` file beside the `InRelease` file, `deb.debian.org_debian_dists_jessie_Release` | high, not executed | Discovery.SiblingReleaseIgnoredAsWritten | Discovery.ReleaseInfoFor |
| libchannels/apt_handler.py:130-142 | `version` is assigned only for packages that are installed or marked to change. For any other package the loop compares the version left over from an earlier alternative, or raises UnboundLocalError on the first one | the group "`a (>= 2.0)` or `b`" with `a` 1.0 installed and `b` neither installed nor marked: reported as satisfied | an alternative holds only through its own package's current version | high, not executed | AptHandler.StaleVersionAccepted | AptHandler.CheckRelationship |
| libchannels/resolver.py:39-53 | the constructor builds relations for every cache key, and line 51 calls `get_dependencies()`, which a Provider does not have (provider.py defines only `__init__` and `__str__`) | a channel directory holding any `.provider` file: discovery caches a Provider for it (discovery.py:59-60), and manager.py:22 passes that cache to the resolver, which raises AttributeError | providers are passed over, as discovery passes them over at discovery.py:110-112 | medium, not executed | Resolver.ProviderBreaksResolver | Resolver.DependencyResolver.constructor |
