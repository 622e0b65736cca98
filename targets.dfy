/**
 * Target resolution: which chains the driver deploys to, from the parsed
 * command line and the registry.
 */
module Targets {
  import opened Seqs

  /** The chain deployed to when nothing else is left and `--all` is off. */
  const DefaultChain := "sepolia"

  function InRegistry(registry: seq<string>): string -> bool {
    chain => chain in registry
  }

  /** The requested chains that the registry knows, in command-line order, repeats kept. */
  function Registered(requested: seq<string>, registry: seq<string>): seq<string> {
    Filter(requested, InRegistry(registry))
  }

  /**
   * The targets: the whole registry with `--all`; otherwise the registered
   * requested chains, or `sepolia` alone when none of them is registered.
   */
  function Resolve(onAllChains: bool, requested: seq<string>, registry: seq<string>): seq<string> {
    if onAllChains then registry
    else if Registered(requested, registry) == [] then [DefaultChain]
    else Registered(requested, registry)
  }

  /**
   * Resolution as the driver does it: take the registry with `--all`,
   * otherwise `retain` the registered chains in place; then push `sepolia`
   * when the list is empty and `--all` is off.
   */
  method ResolveTargets(onAllChains: bool, providedChains: seq<string>, chains: seq<string>)
    returns (targets: seq<string>)
    ensures targets == Resolve(onAllChains, providedChains, chains)
  {
    if onAllChains {
      targets := chains;
    } else {
      targets := [];
      for i := 0 to |providedChains|
        invariant targets == Registered(providedChains[..i], chains)
      {
        FilterSnoc(providedChains[..i], providedChains[i], InRegistry(chains));
        assert providedChains[..i + 1] == providedChains[..i] + [providedChains[i]];
        if providedChains[i] in chains {
          targets := targets + [providedChains[i]];
        }
      }
      assert providedChains[..|providedChains|] == providedChains;
    }
    if targets == [] && !onAllChains {
      targets := targets + [DefaultChain];
    }
  }

  /** With `--all` the targets are exactly the registry, even when it is empty. */
  lemma ResolveAll(requested: seq<string>, registry: seq<string>)
    ensures Resolve(true, requested, registry) == registry
  {
  }

  /**
   * Without `--all`, when some requested chain is registered, the targets are
   * the registered requested chains: each as often as it was requested,
   * unregistered ones not at all.
   */
  lemma ResolveRequested(requested: seq<string>, registry: seq<string>, chain: string)
    requires exists c :: c in requested && c in registry
    ensures Resolve(false, requested, registry) == Registered(requested, registry)
    ensures multiset(Resolve(false, requested, registry))[chain]
            == if chain in registry then multiset(requested)[chain] else 0
    ensures chain in Resolve(false, requested, registry) <==> chain in requested && chain in registry
  {
    var c :| c in requested && c in registry;
    assert c in Registered(requested, registry);
    FilterCount(requested, InRegistry(registry), chain);
  }

  /** Filtering keeps command-line order: the targets of two runs of requests are the concatenation. */
  lemma RegisteredKeepsOrder(a: seq<string>, b: seq<string>, registry: seq<string>)
    ensures Registered(a + b, registry) == Registered(a, registry) + Registered(b, registry)
  {
    FilterAppend(a, b, InRegistry(registry));
  }

  /**
   * Without `--all`, when no requested chain is registered, the target is
   * `sepolia` alone, whether or not the registry knows it.
   */
  lemma ResolveDefault(requested: seq<string>, registry: seq<string>)
    requires forall c :: c in requested ==> c !in registry
    ensures Resolve(false, requested, registry) == [DefaultChain]
  {
    FilterKeepsNone(requested, InRegistry(registry));
  }

  /** Every target is registered, except the `sepolia` default chosen when nothing was left. */
  lemma TargetsRegisteredOrDefault(onAllChains: bool, requested: seq<string>, registry: seq<string>)
    ensures var targets := Resolve(onAllChains, requested, registry);
      forall c :: c in targets ==> c in registry || (!onAllChains && targets == [DefaultChain])
  {
  }

  /** The default bypasses the registry: an unregistered `sepolia` is still a target. */
  lemma DefaultMayBeUnregistered()
    ensures Resolve(false, [], ["mainnet"]) == ["sepolia"]
  {
  }
}
