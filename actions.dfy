/**
  The action executor: enabling or disabling a channel by running a plan of
  (channel, action) steps against the channel objects of the cache.

  The plan is the solution for the requested change; where it comes from is
  not part of this model, so the executor takes it as a parameter.
 */
module Actions {
  import opened Wrappers
  import opened Channels
  import opened Relations

  /** `ActionType`: an enumeration with exactly two members. */
  datatype ActionType = Disable | Enable

  /** The enumeration value of a member: DISABLE = 1, ENABLE = 2. */
  function Value(a: ActionType): (v: int)
    ensures v == 1 || v == 2
  {
    match a
    case Disable => 1
    case Enable => 2
  }

  /** `ActionType(v)`: the member with value `v`, or None where the lookup raises ValueError. */
  function FromValue(v: int): (r: Option<ActionType>)
    ensures r.Some? <==> v == 1 || v == 2
  {
    if v == 1 then Some(Disable) else if v == 2 then Some(Enable) else None
  }

  /** Values and members correspond one to one. */
  lemma ValueRoundTrip(a: ActionType, v: int)
    ensures FromValue(Value(a)) == Some(a)
    ensures FromValue(v).Some? ==> Value(FromValue(v).value) == v
  {
  }

  /** One step of a plan: the channel to act on and the action. */
  datatype Step = Step(channel: string, action: ActionType)

  /** The actions of `plan` on channel `name`, in plan order. */
  function ActionsFor(plan: seq<Step>, name: string): seq<ActionType>
    decreases |plan|
  {
    if plan == [] then []
    else
      var last := plan[|plan| - 1];
      ActionsFor(plan[..|plan| - 1], name) + (if last.channel == name then [last.action] else [])
  }

  /** The actions on a channel of two consecutive plan pieces are those of each piece in turn. */
  lemma {:induction false} ActionsForConcat(a: seq<Step>, b: seq<Step>, name: string)
    ensures ActionsFor(a + b, name) == ActionsFor(a, name) + ActionsFor(b, name)
    decreases |b|
  {
    if b == [] {
      assert a + b == a;
    } else {
      var b' := b[..|b| - 1];
      assert (a + b)[..|a + b| - 1] == a + b';
      ActionsForConcat(a, b', name);
    }
  }

  /** One more step adds its action to the actions of the channel it names, and to no other. */
  lemma ActionsForStep(plan: seq<Step>, i: int, name: string)
    requires 0 <= i < |plan|
    ensures plan[i].channel == name ==> ActionsFor(plan[..i + 1], name) == ActionsFor(plan[..i], name) + [plan[i].action]
    ensures plan[i].channel != name ==> ActionsFor(plan[..i + 1], name) == ActionsFor(plan[..i], name)
  {
    assert plan[..i + 1][..i] == plan[..i];
    assert ActionsFor(plan[..i], name) + [] == ActionsFor(plan[..i], name);
  }

  /** A channel has actions exactly when the plan names it, and its last action is that of
      the last step naming it. */
  lemma {:induction false} LastStepDecides(plan: seq<Step>, name: string, j: int)
    requires 0 <= j < |plan| && plan[j].channel == name
    requires forall k :: j < k < |plan| ==> plan[k].channel != name
    ensures ActionsFor(plan, name) != []
    ensures ActionsFor(plan, name)[|ActionsFor(plan, name)| - 1] == plan[j].action
    decreases |plan|
  {
    if j < |plan| - 1 {
      LastStepDecides(plan[..|plan| - 1], name, j);
    }
  }

  /** A channel the plan does not name gets no action. */
  lemma {:induction false} UnnamedUntouched(plan: seq<Step>, name: string)
    requires forall k :: 0 <= k < |plan| ==> plan[k].channel != name
    ensures ActionsFor(plan, name) == []
    decreases |plan|
  {
    if plan != [] {
      UnnamedUntouched(plan[..|plan| - 1], name);
    }
  }

  /** The repository map of `ch` after calling `enable()` and `disable()` in the order of `acts`. */
  function Applied(ch: Channel, repos: map<string, Option<SourceEntry>>, acts: seq<ActionType>)
    : (res: map<string, Option<SourceEntry>>)
    requires ch.ReadableAll(repos) && (Enable in acts ==> ch.EnableDefined(repos))
    ensures res.Keys == repos.Keys && ch.ReadableAll(res)
    ensures ch.EnableDefined(repos) ==> ch.EnableDefined(res)
    decreases |acts|
  {
    if acts == [] then repos
    else
      var prev := Applied(ch, repos, acts[..|acts| - 1]);
      assert Enable in acts[..|acts| - 1] ==> Enable in acts;
      if acts[|acts| - 1] == Enable then
        ch.EnableDefinedStable(prev);
        ch.EnableResult(prev)
      else
        if ch.EnableDefined(prev) then ch.EnableDefinedStable(prev); ch.DisableResult(prev)
        else ch.DisableResult(prev)
  }

  /** The last action alone decides whether the channel ends enabled: after a final enable it is,
      after a final disable it is exactly when all its repositories are proposed. */
  lemma LastActionDecides(ch: Channel, repos: map<string, Option<SourceEntry>>, acts: seq<ActionType>)
    requires ch.ReadableAll(repos) && (Enable in acts ==> ch.EnableDefined(repos)) && acts != []
    ensures acts[|acts| - 1] == Enable ==> ch.EnabledWith(Applied(ch, repos, acts))
    ensures acts[|acts| - 1] == Disable ==> (ch.EnabledWith(Applied(ch, repos, acts)) <==> ch.AllProposed(repos))
  {
    var prev := Applied(ch, repos, acts[..|acts| - 1]);
    assert Enable in acts[..|acts| - 1] ==> Enable in acts;
    if acts[|acts| - 1] == Enable {
      ch.EnableMakesEnabled(prev);
    } else {
      ch.DisableEnabledIffAllProposed(prev);
      assert ch.AllProposed(prev) <==> ch.AllProposed(repos);
    }
  }

  /** Every step names a channel of the cache, and every channel that is to be enabled can add
      the entries it lacks. */
  predicate PlanRunnable(cache: Registry, plan: seq<Step>)
    requires RegistryValid(cache)
    reads Objects(cache)
  {
    (forall i :: 0 <= i < |plan| ==> plan[i].channel in cache && cache[plan[i].channel].ChannelEntity?)
    && forall k :: k in cache && cache[k].ChannelEntity? && Enable in ActionsFor(plan, k) ==>
         cache[k].ch.EnableDefined(cache[k].ch.repositories)
  }

  /** The repository map after one more action is that action's result on the map before it. */
  lemma AppliedSnoc(ch: Channel, repos: map<string, Option<SourceEntry>>, acts: seq<ActionType>, a: ActionType)
    requires ch.ReadableAll(repos) && (Enable in acts + [a] ==> ch.EnableDefined(repos))
    ensures Enable in acts ==> ch.EnableDefined(repos)
    ensures a == Enable ==> (ch.EnableDefined(Applied(ch, repos, acts))
      && Applied(ch, repos, acts + [a]) == ch.EnableResult(Applied(ch, repos, acts)))
    ensures a == Disable ==> Applied(ch, repos, acts + [a]) == ch.DisableResult(Applied(ch, repos, acts))
  {
    assert (acts + [a])[..|acts + [a]| - 1] == acts;
  }

  /** `start` holds one repository map per channel of the cache. */
  ghost predicate Snapshot(cache: Registry, start: map<string, map<string, Option<SourceEntry>>>) {
    forall k :: k in start <==> k in cache && cache[k].ChannelEntity?
  }

  /** `repos` is what `acts` make of the channel's repository map `s`. */
  ghost predicate ChannelAt(ch: Channel, s: map<string, Option<SourceEntry>>, acts: seq<ActionType>,
                            repos: map<string, Option<SourceEntry>>) {
    ch.ReadableAll(s) && (Enable in acts ==> ch.EnableDefined(s)) && repos == Applied(ch, s, acts)
  }

  /** Every snapshot map is readable, and can be enabled where the plan enables its channel. */
  ghost predicate Runnable(cache: Registry, start: map<string, map<string, Option<SourceEntry>>>, plan: seq<Step>)
    requires Snapshot(cache, start)
  {
    forall k :: k in start ==>
      cache[k].ch.ReadableAll(start[k]) && (Enable in ActionsFor(plan, k) ==> cache[k].ch.EnableDefined(start[k]))
  }

  /** The actions of a prefix of the plan are among those of the whole plan. */
  lemma ActionsForPrefix(plan: seq<Step>, i: int, name: string)
    requires 0 <= i <= |plan|
    ensures forall a :: a in ActionsFor(plan[..i], name) ==> a in ActionsFor(plan, name)
  {
    assert plan == plan[..i] + plan[i..];
    ActionsForConcat(plan[..i], plan[i..], name);
  }

  /** After the first `i` steps, each channel holds the result of its actions among them. */
  ghost predicate Progress(cache: Registry, start: map<string, map<string, Option<SourceEntry>>>, plan: seq<Step>, i: int)
    requires Snapshot(cache, start) && 0 <= i <= |plan|
    reads Objects(cache)
  {
    forall k :: k in start ==> ChannelAt(cache[k].ch, start[k], ActionsFor(plan[..i], k), cache[k].ch.repositories)
  }

  /** One more action on a channel keeps `ChannelAt`, and an enable finds the fields it needs. */
  lemma ChannelAtStep(ch: Channel, s: map<string, Option<SourceEntry>>, acts: seq<ActionType>, a: ActionType,
                      repos: map<string, Option<SourceEntry>>)
    requires ChannelAt(ch, s, acts, repos) && (Enable in acts + [a] ==> ch.EnableDefined(s))
    ensures a == Enable ==> ch.EnableDefined(repos) && ChannelAt(ch, s, acts + [a], ch.EnableResult(repos))
    ensures a == Disable ==> ChannelAt(ch, s, acts + [a], ch.DisableResult(repos))
  {
    AppliedSnoc(ch, s, acts, a);
  }

  /** Calls `enable()` or `disable()` on the named channel, leaving every other object alone. */
  method ChannelStep(cache: Registry, name: string, a: ActionType)
    requires RegistryValid(cache) && DistinctObjects(cache)
    requires name in cache && cache[name].ChannelEntity?
    requires a == Enable ==> cache[name].ch.EnableDefined(cache[name].ch.repositories)
    modifies Objects(cache)
    ensures RegistryValid(cache)
    ensures a == Enable ==> cache[name].ch.repositories == cache[name].ch.EnableResult(old(cache[name].ch.repositories))
    ensures a == Disable ==> cache[name].ch.repositories == cache[name].ch.DisableResult(old(cache[name].ch.repositories))
    ensures forall k :: k in cache && cache[k].ChannelEntity? && k != name ==>
      cache[k].ch.repositories == old(cache[k].ch.repositories)
  {
    var ch := cache[name].ch;
    match a
    case Enable =>
      ch.Enable();
    case Disable =>
      ch.Disable();
  }

  /** Runs step `i` of the plan. */
  method RunStep(cache: Registry, ghost start: map<string, map<string, Option<SourceEntry>>>, plan: seq<Step>, i: int)
    requires RegistryValid(cache) && DistinctObjects(cache) && Snapshot(cache, start)
    requires 0 <= i < |plan| && plan[i].channel in start
    requires Runnable(cache, start, plan) && Progress(cache, start, plan, i)
    modifies Objects(cache)
    ensures RegistryValid(cache) && Progress(cache, start, plan, i + 1)
  {
    var name := plan[i].channel;
    var a := plan[i].action;
    ghost var ch := cache[name].ch;
    ghost var acts := ActionsFor(plan[..i], name);
    ghost var before := map k | k in start :: cache[k].ch.repositories;
    assert forall k :: k in start ==> ChannelAt(cache[k].ch, start[k], ActionsFor(plan[..i], k), before[k]);
    ActionsForStep(plan, i, name);
    ActionsForPrefix(plan, i + 1, name);
    ChannelAtStep(ch, start[name], acts, a, before[name]);
    ChannelStep(cache, name, a);
    forall k | k in start
      ensures ChannelAt(cache[k].ch, start[k], ActionsFor(plan[..i + 1], k), cache[k].ch.repositories)
    {
      ActionsForStep(plan, i, k);
      if k == name {
        assert cache[k].ch.repositories == (if a == Enable then ch.EnableResult(before[k]) else ch.DisableResult(before[k]));
      } else {
        assert cache[k].ch.repositories == before[k];
        assert ActionsFor(plan[..i + 1], k) == ActionsFor(plan[..i], k);
        assert ChannelAt(cache[k].ch, start[k], ActionsFor(plan[..i], k), before[k]);
      }
    }
  }

  /** Runs the steps of the plan in order, calling `enable()` or `disable()` on the named channel. */
  method ApplyPlan(cache: Registry, plan: seq<Step>)
    requires RegistryValid(cache) && DistinctObjects(cache) && PlanRunnable(cache, plan)
    modifies Objects(cache)
    ensures RegistryValid(cache)
    ensures forall k :: k in cache && cache[k].ChannelEntity? ==>
      old(cache[k].ch.ReadableAll(cache[k].ch.repositories))
      && cache[k].ch.repositories == Applied(cache[k].ch, old(cache[k].ch.repositories), ActionsFor(plan, k))
  {
    ghost var start := map k | k in cache && cache[k].ChannelEntity? :: cache[k].ch.repositories;
    assert Snapshot(cache, start);
    assert Runnable(cache, start, plan);
    assert Progress(cache, start, plan, 0);
    for i := 0 to |plan|
      invariant RegistryValid(cache) && Progress(cache, start, plan, i)
    {
      RunStep(cache, start, plan, i);
    }
    assert plan[..|plan|] == plan;
  }

  /** `enable_channel`: nothing happens when the channel is already enabled; otherwise the plan is run. */
  method EnableChannel(cache: Registry, channel: string, plan: seq<Step>)
    requires channel in cache && cache[channel].ChannelEntity?
    requires RegistryValid(cache) && DistinctObjects(cache)
    requires !cache[channel].ch.Enabled() ==> PlanRunnable(cache, plan)
    modifies Objects(cache)
    ensures RegistryValid(cache)
    ensures old(cache[channel].ch.Enabled()) ==>
      forall k :: k in cache && cache[k].ChannelEntity? ==> cache[k].ch.repositories == old(cache[k].ch.repositories)
    ensures !old(cache[channel].ch.Enabled()) ==>
      forall k :: k in cache && cache[k].ChannelEntity? ==>
        old(cache[k].ch.ReadableAll(cache[k].ch.repositories))
        && cache[k].ch.repositories == Applied(cache[k].ch, old(cache[k].ch.repositories), ActionsFor(plan, k))
  {
    if cache[channel].ch.Enabled() {
      return;
    }
    ApplyPlan(cache, plan);
  }

  /** `disable_channel`: nothing happens when the channel is already disabled; otherwise the plan is run. */
  method DisableChannel(cache: Registry, channel: string, plan: seq<Step>)
    requires channel in cache && cache[channel].ChannelEntity?
    requires RegistryValid(cache) && DistinctObjects(cache)
    requires cache[channel].ch.Enabled() ==> PlanRunnable(cache, plan)
    modifies Objects(cache)
    ensures RegistryValid(cache)
    ensures !old(cache[channel].ch.Enabled()) ==>
      forall k :: k in cache && cache[k].ChannelEntity? ==> cache[k].ch.repositories == old(cache[k].ch.repositories)
    ensures old(cache[channel].ch.Enabled()) ==>
      forall k :: k in cache && cache[k].ChannelEntity? ==>
        old(cache[k].ch.ReadableAll(cache[k].ch.repositories))
        && cache[k].ch.repositories == Applied(cache[k].ch, old(cache[k].ch.repositories), ActionsFor(plan, k))
  {
    if !cache[channel].ch.Enabled() {
      return;
    }
    ApplyPlan(cache, plan);
  }
}
