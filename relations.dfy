/**
  The three relation kinds between channels, evaluated against the live
  registry that maps names to channels and providers.

  A relation names its target (and, for a provider relation, its requirer)
  by registry key. Channels are objects whose `Enabled()` changes as they are
  enabled and disabled, so satisfaction reads the channel objects of the
  registry.
 */
module Relations {
  import opened Wrappers
  import opened Strings
  import opened Channels

  /** An entry of the registry: a channel, or a provider, which only has a name. */
  datatype Entity = ChannelEntity(ch: Channel) | ProviderEntity(providerName: string)

  /** Discovery's cache: file name (without `.channel`) to entity. */
  type Registry = map<string, Entity>

  /** The channel objects of a registry. */
  function Objects(reg: Registry): set<Channel> {
    set k | k in reg && reg[k].ChannelEntity? :: reg[k].ch
  }

  /** Every channel of the registry satisfies its object invariant, and its file's `proposed` words
      are booleans: the relations may ask any channel whether it is enabled in any state, and
      `enabled` consults `is_proposed` for every repository without an enabled entry. */
  ghost predicate RegistryValid(reg: Registry)
    reads Objects(reg)
  {
    forall k :: k in reg && reg[k].ChannelEntity? ==> reg[k].ch.Valid() && reg[k].ch.ProposedReadable()
  }

  /** The shape discovery builds: keys ending in `.provider` are providers, all others channels. */
  predicate WellFormed(reg: Registry) {
    forall k :: k in reg ==> (EndsWith(k, ".provider") <==> reg[k].ProviderEntity?)
  }

  /** Every entity is registered under its own name. */
  predicate NamesMatch(reg: Registry) {
    forall k :: k in reg ==>
      (reg[k].ChannelEntity? ==> reg[k].ch.channelName == k)
      && (reg[k].ProviderEntity? ==> reg[k].providerName == k)
  }

  /** Distinct cache keys hold distinct channel objects. */
  predicate DistinctObjects(cache: Registry) {
    forall a, b :: a in cache && b in cache && a != b && cache[a].ChannelEntity? && cache[b].ChannelEntity?
      ==> cache[a].ch != cache[b].ch
  }

  datatype Relation =
    | Dependency(target: string)
    | Conflict(target: string)
    | ProviderRel(requirer: string, target: string)

  /** The lookups a relation's evaluation performs succeed. For a provider relation, every
      entry that the short-circuit reaches `get_providers()` on must be a channel with metadata. */
  predicate Evaluable(rel: Relation, reg: Registry) {
    match rel
    case Dependency(t) => t in reg && reg[t].ChannelEntity?
    case Conflict(t) => t in reg && reg[t].ChannelEntity?
    case ProviderRel(q, t) =>
      q in reg && reg[q].ChannelEntity? && t in reg && reg[t].ProviderEntity?
      && forall c :: c in reg && !EndsWith(c, ".provider") && reg[q].ch.channelName != c ==>
           reg[c].ChannelEntity? && "channel" in reg[c].ch.sections
  }

  /** `get_name`: the target's `channel_name`, or `provider_name` for a provider relation. */
  function GetName(rel: Relation, reg: Registry): (r: string)
    requires Evaluable(rel, reg)
    ensures NamesMatch(reg) ==> r == rel.target
  {
    match rel
    case Dependency(t) => reg[t].ch.channelName
    case Conflict(t) => reg[t].ch.channelName
    case ProviderRel(_, t) => reg[t].providerName
  }

  /** `is_provider_enabled(c)`: `c` is a channel other than the requirer that lists the provider and is enabled. */
  predicate IsProviderEnabled(rel: Relation, reg: Registry, c: string)
    requires rel.ProviderRel? && Evaluable(rel, reg) && RegistryValid(reg) && c in reg
    reads Objects(reg)
  {
    && !EndsWith(c, ".provider")
    && reg[rel.requirer].ch.channelName != c
    && reg[rel.target].providerName in reg[c].ch.GetProviders()
    && reg[c].ch.Enabled()
  }

  /** `bool(rel)` */
  predicate Satisfied(rel: Relation, reg: Registry)
    requires Evaluable(rel, reg) && RegistryValid(reg)
    reads Objects(reg)
  {
    match rel
    case Dependency(t) => reg[t].ch.Enabled()
    case Conflict(t) => !reg[t].ch.Enabled()
    case ProviderRel(_, _) => !exists c :: c in reg && IsProviderEnabled(rel, reg, c)
  }

  /** `rel == other` for two relations: the targets are the same. */
  predicate Equals(rel: Relation, other: Relation) {
    rel.target == other.target
  }

  /** `rel == b` for a boolean `b`: `b` is the relation's satisfaction. */
  predicate EqualsBool(rel: Relation, b: bool, reg: Registry)
    requires Evaluable(rel, reg) && RegistryValid(reg)
    reads Objects(reg)
  {
    b == Satisfied(rel, reg)
  }

  /** Python's `b in rels`: some relation of the list compares equal to `b`. */
  predicate ContainsBool(rels: seq<Relation>, b: bool, reg: Registry)
    requires RegistryValid(reg) && forall i :: 0 <= i < |rels| ==> Evaluable(rels[i], reg)
    reads Objects(reg)
  {
    exists i :: 0 <= i < |rels| && EqualsBool(rels[i], b, reg)
  }

  /** `False in rels` holds exactly when some relation of the list is unsatisfied. */
  lemma ContainsFalseIffUnsatisfied(rels: seq<Relation>, reg: Registry)
    requires RegistryValid(reg) && forall i :: 0 <= i < |rels| ==> Evaluable(rels[i], reg)
    ensures ContainsBool(rels, false, reg) <==> exists i :: 0 <= i < |rels| && !Satisfied(rels[i], reg)
  {
  }

  /** Relation equality ignores the kind: a dependency and a conflict on the same channel compare
      equal although exactly one of them is satisfied. */
  lemma EqualityIgnoresKind(t: string, reg: Registry)
    requires t in reg && reg[t].ChannelEntity? && RegistryValid(reg)
    ensures Equals(Dependency(t), Conflict(t))
    ensures Satisfied(Dependency(t), reg) != Satisfied(Conflict(t), reg)
    ensures EqualsBool(Dependency(t), true, reg) == EqualsBool(Conflict(t), false, reg)
  {
  }

  /** The requirer never counts as the current provider of its own relation. */
  lemma RequirerNeverBlocksItself(rel: Relation, reg: Registry)
    requires rel.ProviderRel? && Evaluable(rel, reg) && RegistryValid(reg) && NamesMatch(reg)
    ensures !IsProviderEnabled(rel, reg, rel.requirer)
  {
  }

  /** A satisfied provider relation leaves at most the requirer among the enabled channels listing the provider. */
  lemma SatisfiedProviderIsExclusive(rel: Relation, reg: Registry, c: string)
    requires rel.ProviderRel? && Evaluable(rel, reg) && RegistryValid(reg) && NamesMatch(reg) && WellFormed(reg)
    requires Satisfied(rel, reg)
    requires c in reg && reg[c].ChannelEntity? && "channel" in reg[c].ch.sections
    requires rel.target in reg[c].ch.GetProviders() && reg[c].ch.Enabled()
    ensures c == rel.requirer
  {
    assert !IsProviderEnabled(rel, reg, c);
  }

  /** Two distinct enabled channels providing the same name block each other's provider relation. */
  lemma EnabledProvidersBlockEachOther(a: string, b: string, p: string, reg: Registry)
    requires RegistryValid(reg) && NamesMatch(reg) && WellFormed(reg)
    requires a != b && a in reg && b in reg && reg[a].ChannelEntity? && reg[b].ChannelEntity?
    requires p in reg && reg[p].ProviderEntity?
    requires forall c :: c in reg && reg[c].ChannelEntity? ==> "channel" in reg[c].ch.sections
    requires p in reg[a].ch.GetProviders() && reg[a].ch.Enabled()
    requires p in reg[b].ch.GetProviders() && reg[b].ch.Enabled()
    ensures Evaluable(ProviderRel(a, p), reg) && !Satisfied(ProviderRel(a, p), reg)
    ensures Evaluable(ProviderRel(b, p), reg) && !Satisfied(ProviderRel(b, p), reg)
  {
    assert IsProviderEnabled(ProviderRel(a, p), reg, b);
    assert IsProviderEnabled(ProviderRel(b, p), reg, a);
  }

  /** Position `i` of `order` is the first entry that currently provides the relation's target. */
  ghost predicate FirstProviderAt(rel: Relation, reg: Registry, order: seq<string>, i: int)
    requires rel.ProviderRel? && Evaluable(rel, reg) && RegistryValid(reg)
    reads Objects(reg)
  {
    && 0 <= i < |order| && order[i] in reg && IsProviderEnabled(rel, reg, order[i])
    && forall j :: 0 <= j < i ==> order[j] in reg && !IsProviderEnabled(rel, reg, order[j])
  }

  /** `get_current_provider_channel`: the first entry, in the registry's iteration order `order`,
      that currently provides the target; None exactly when the relation is satisfied. */
  method CurrentProviderChannel(rel: Relation, reg: Registry, order: seq<string>) returns (r: Option<string>)
    requires rel.ProviderRel? && Evaluable(rel, reg) && RegistryValid(reg)
    requires forall k :: k in reg <==> k in order
    ensures r.None? <==> Satisfied(rel, reg)
    ensures r.Some? ==> exists i :: FirstProviderAt(rel, reg, order, i) && order[i] == r.value
  {
    var i := 0;
    while i < |order|
      invariant 0 <= i <= |order|
      invariant forall j :: 0 <= j < i ==> !IsProviderEnabled(rel, reg, order[j])
    {
      if IsProviderEnabled(rel, reg, order[i]) {
        assert FirstProviderAt(rel, reg, order, i);
        return Some(order[i]);
      }
      i := i + 1;
    }
    forall c | c in reg
      ensures !IsProviderEnabled(rel, reg, c)
    {
      var j :| 0 <= j < |order| && order[j] == c;
    }
    return None;
  }
}
