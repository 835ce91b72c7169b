/**
  The dependency resolver: for every channel of the cache it builds the list
  of relations the channel declares, and answers whether a channel can be
  enabled as things stand. Only dependency relations are built.
 */
module Resolver {
  import opened Wrappers
  import opened Channels
  import opened Relations

  /** One dependency relation per declared dependency name, in declaration order. */
  function DependencyRelations(deps: seq<string>): (r: seq<Relation>)
    ensures |r| == |deps|
    ensures forall i :: 0 <= i < |deps| ==> r[i] == Dependency(deps[i])
  {
    if deps == [] then []
    else DependencyRelations(deps[..|deps| - 1]) + [Dependency(deps[|deps| - 1])]
  }

  /** What the resolver needs of the cache: every channel has a `channel` section whose declared
      dependencies are all channels of the cache (an unknown name raises KeyError when the relation
      is built, a provider named as a dependency raises when the relation is evaluated). */
  predicate ResolvableCache(cache: Registry) {
    forall c :: c in cache && cache[c].ChannelEntity? ==>
      "channel" in cache[c].ch.sections
      && forall d :: d in cache[c].ch.GetDependencies() ==> d in cache && cache[d].ChannelEntity?
  }

  /** The keys of the cache that hold channels. */
  function ChannelKeys(cache: Registry): (ks: set<string>)
    ensures forall c :: c in ks <==> c in cache && cache[c].ChannelEntity?
  {
    set c | c in cache && cache[c].ChannelEntity?
  }

  /** The construction loop as written (lines 40-41 and 49-53), over the cache keys in the order
      `order`: a provider has no `get_dependencies()`, so the first provider reached raises
      AttributeError, given here as Err with its key. */
  function RelationsAsWritten(cache: Registry, order: seq<string>): Result<map<string, seq<Relation>>, string>
    requires ResolvableCache(cache) && forall i :: 0 <= i < |order| ==> order[i] in cache
    decreases |order|
  {
    if order == [] then Ok(map[])
    else
      var c := order[0];
      if cache[c].ProviderEntity? then Err(c)
      else
        match RelationsAsWritten(cache, order[1..])
        case Err(k) => Err(k)
        case Ok(m) => Ok(m[c := DependencyRelations(cache[c].ch.GetDependencies())])
  }

  /** As written, building the resolver fails whenever the cache holds a provider, as the cache of
      every discovery that found a `.provider` file does; the failure names a provider. */
  lemma {:induction false} ProviderBreaksResolver(cache: Registry, order: seq<string>, p: string)
    requires ResolvableCache(cache) && forall i :: 0 <= i < |order| ==> order[i] in cache
    requires p in order && cache[p].ProviderEntity?
    ensures var r := RelationsAsWritten(cache, order);
      r.Err? && r.error in cache && cache[r.error].ProviderEntity?
    decreases |order|
  {
    if order[0] != p {
      assert p in order[1..];
      ProviderBreaksResolver(cache, order[1..], p);
    }
  }

  /** Without providers the loop as written succeeds and builds the dependency relations of
      exactly the keys it visits, as the corrected constructor does. */
  lemma {:induction false} AsWrittenWithoutProviders(cache: Registry, order: seq<string>)
    requires ResolvableCache(cache) && forall i :: 0 <= i < |order| ==> order[i] in cache
    requires forall i :: 0 <= i < |order| ==> cache[order[i]].ChannelEntity?
    ensures RelationsAsWritten(cache, order).Ok?
    ensures var m := RelationsAsWritten(cache, order).value;
      (forall c :: c in m ==> c in order)
      && (forall i :: 0 <= i < |order| ==> order[i] in m)
      && forall c :: c in m ==> m[c] == DependencyRelations(cache[c].ch.GetDependencies())
    decreases |order|
  {
    if order != [] {
      AsWrittenWithoutProviders(cache, order[1..]);
      var m := RelationsAsWritten(cache, order[1..]).value;
      forall c | c in m ensures c in order {
        assert c in order[1..];
      }
      forall i | 1 <= i < |order| ensures order[i] in m {
        assert order[1..][i - 1] == order[i];
      }
    }
  }

  class DependencyResolver {
    const cache: Registry
    var relations: map<string, seq<Relation>>

    ghost predicate Valid()
      reads this
    {
      ResolvableCache(cache)
      && relations.Keys == ChannelKeys(cache)
      && forall c :: c in relations ==> relations[c] == DependencyRelations(cache[c].ch.GetDependencies())
    }

    /** Builds the relations of every channel of the cache; providers are passed over, as
        discovery passes them over (the loop as written is `RelationsAsWritten`). */
    constructor (registry: Registry)
      requires ResolvableCache(registry)
      ensures cache == registry && Valid()
      ensures relations.Keys == ChannelKeys(registry)
      ensures forall c :: c in relations ==> relations[c] == DependencyRelations(registry[c].ch.GetDependencies())
    {
      cache := registry;
      relations := map[];
      new;
      var todo := registry.Keys;
      while todo != {}
        invariant cache == registry && todo <= registry.Keys
        invariant relations.Keys == ChannelKeys(registry) - todo
        invariant forall c :: c in relations ==> relations[c] == DependencyRelations(cache[c].ch.GetDependencies())
        decreases todo
      {
        var c :| c in todo;
        if cache[c].ChannelEntity? {
          BuildRelations(c);
        }
        todo := todo - {c};
      }
    }

    /** `build_relations`: replaces the channel's list by one dependency per declared dependency. */
    method BuildRelations(channel: string)
      requires ResolvableCache(cache) && channel in cache && cache[channel].ChannelEntity?
      modifies this`relations
      ensures relations == old(relations)[channel := DependencyRelations(cache[channel].ch.GetDependencies())]
    {
      var deps := cache[channel].ch.GetDependencies();
      var rels: seq<Relation> := [];
      for i := 0 to |deps|
        invariant rels == DependencyRelations(deps[..i])
      {
        assert deps[..i + 1][..i] == deps[..i];
        rels := rels + [Dependency(deps[i])];
      }
      assert deps[..|deps|] == deps;
      relations := relations[channel := rels];
    }

    /** `is_channel_enableable`: no relation of the channel compares equal to False. */
    predicate IsChannelEnableable(channel: string)
      requires Valid() && RegistryValid(cache) && channel in relations
      reads this, Objects(cache)
    {
      !ContainsBool(relations[channel], false, cache)
    }

    /** A channel can be enabled exactly when every channel it declares a dependency on is enabled;
        its conflicts and provides play no part. */
    lemma EnableableIffDependenciesEnabled(channel: string)
      requires Valid() && RegistryValid(cache) && channel in cache && cache[channel].ChannelEntity?
      ensures IsChannelEnableable(channel) <==>
        forall d :: d in cache[channel].ch.GetDependencies() ==> cache[d].ch.Enabled()
    {
      var deps := cache[channel].ch.GetDependencies();
      var rels := relations[channel];
      ContainsFalseIffUnsatisfied(rels, cache);
      if IsChannelEnableable(channel) {
        forall d | d in deps ensures cache[d].ch.Enabled() {
          var i :| 0 <= i < |deps| && deps[i] == d;
          assert Satisfied(rels[i], cache);
        }
      } else {
        var i :| 0 <= i < |rels| && !Satisfied(rels[i], cache);
        assert deps[i] in deps && !cache[deps[i]].ch.Enabled();
      }
    }

    /** A channel without declared dependencies can always be enabled. */
    lemma NoDependenciesEnableable(channel: string)
      requires Valid() && RegistryValid(cache) && channel in cache && cache[channel].ChannelEntity?
      requires cache[channel].ch.GetDependencies() == []
      ensures IsChannelEnableable(channel)
    {
    }
  }
}
