/**
 * The chain registry: the chain names the driver knows about, read from the
 * keys of two sections of the build tool's configuration file.
 */
module Registry {
  import opened Seqs

  const RpcSection := "rpc_endpoints"
  const ExplorerSection := "etherscan"

  /** The one key that is never a deployment target. */
  const Localhost := "localhost"

  /** A top-level value of the configuration: a table (its keys, in the parser's order) or anything else. */
  datatype ConfigValue = Table(keys: seq<string>) | NotTable

  /**
   * What reading and parsing the configuration file gave: the file could not
   * be read, it could not be parsed, or the top-level values by name.
   */
  datatype ConfigSource = Unreadable | Unparsable | Parsed(root: map<string, ConfigValue>)

  predicate NotLocalhost(key: string) {
    key != Localhost
  }

  /** The keys of one section with `localhost` dropped; nothing when the section is missing or not a table. */
  function SectionChains(root: map<string, ConfigValue>, section: string): seq<string> {
    if section in root && root[section].Table? then Filter(root[section].keys, NotLocalhost) else []
  }

  /** The registry: the RPC section's chains followed by the explorer section's, nothing on a read or parse failure. */
  function AllChains(source: ConfigSource): seq<string> {
    match source
    case Parsed(root) => SectionChains(root, RpcSection) + SectionChains(root, ExplorerSection)
    case _ => []
  }

  /** The keys of a section, or nothing when the section is missing or not a table. */
  function SectionKeys(root: map<string, ConfigValue>, section: string): seq<string> {
    if section in root && root[section].Table? then root[section].keys else []
  }

  /** The chains of the given sections, in the order the sections are listed. */
  function ChainsOfSections(root: map<string, ConfigValue>, sections: seq<string>): seq<string>
    decreases |sections|
  {
    if sections == [] then []
    else ChainsOfSections(root, sections[..|sections| - 1]) + SectionChains(root, sections[|sections| - 1])
  }

  /**
   * Builds the registry as the driver does: for each of the two sections in
   * turn, when it is a table, extend the list with its keys other than `localhost`.
   */
  method GetAllChains(source: ConfigSource) returns (chains: seq<string>)
    ensures chains == AllChains(source)
  {
    if !source.Parsed? {
      return [];
    }
    var root := source.root;
    var sections := [RpcSection, ExplorerSection];
    chains := [];
    for s := 0 to |sections|
      invariant chains == ChainsOfSections(root, sections[..s])
    {
      assert sections[..s + 1][..s] == sections[..s];
      chains := ExtendWithSection(chains, root, sections[s]);
    }
    assert sections[..|sections|] == sections;
    ChainsOfTwoSections(root, RpcSection, ExplorerSection);
  }

  /** Two sections contribute their chains one after the other. */
  lemma ChainsOfTwoSections(root: map<string, ConfigValue>, first: string, second: string)
    ensures ChainsOfSections(root, [first, second]) == SectionChains(root, first) + SectionChains(root, second)
  {
    assert [first, second][..1] == [first];
    assert [first][..0] == [];
    assert ChainsOfSections(root, [first]) == [] + SectionChains(root, first);
    assert [] + SectionChains(root, first) == SectionChains(root, first);
  }

  /** One section of GetAllChains: `chains.extend(keys.filter(|key| key != "localhost"))`. */
  method ExtendWithSection(chains: seq<string>, root: map<string, ConfigValue>, section: string)
    returns (extended: seq<string>)
    ensures extended == chains + SectionChains(root, section)
  {
    extended := chains;
    if section in root && root[section].Table? {
      var keys := root[section].keys;
      for k := 0 to |keys|
        invariant extended == chains + Filter(keys[..k], NotLocalhost)
      {
        FilterSnoc(keys[..k], keys[k], NotLocalhost);
        assert keys[..k + 1] == keys[..k] + [keys[k]];
        if keys[k] != Localhost {
          extended := extended + [keys[k]];
        }
      }
      assert keys[..|keys|] == keys;
    }
  }

  /** `localhost` is never a registered chain, whatever the configuration says. */
  lemma NeverLocalhost(source: ConfigSource)
    ensures Localhost !in AllChains(source)
  {
  }

  /**
   * A name is registered exactly when it is a key of one of the two sections
   * and is not `localhost`; a read or parse failure registers nothing.
   */
  lemma AllChainsMembers(source: ConfigSource, chain: string)
    ensures !source.Parsed? ==> AllChains(source) == []
    ensures source.Parsed? ==>
      (chain in AllChains(source) <==>
         chain != Localhost
         && (chain in SectionKeys(source.root, RpcSection) || chain in SectionKeys(source.root, ExplorerSection)))
  {
  }

  /**
   * Names are not de-duplicated: each name other than `localhost` is listed
   * as many times as it is a key of the two sections together.
   */
  lemma {:induction false} AllChainsCounts(root: map<string, ConfigValue>, chain: string)
    requires chain != Localhost
    ensures multiset(AllChains(Parsed(root)))[chain]
            == multiset(SectionKeys(root, RpcSection))[chain] + multiset(SectionKeys(root, ExplorerSection))[chain]
  {
    FilterCount(SectionKeys(root, RpcSection), NotLocalhost, chain);
    FilterCount(SectionKeys(root, ExplorerSection), NotLocalhost, chain);
  }

  /** So a chain configured in both sections is registered twice. */
  lemma ChainInBothSectionsListedTwice(root: map<string, ConfigValue>, chain: string)
    requires chain != Localhost
    requires chain in SectionKeys(root, RpcSection) && chain in SectionKeys(root, ExplorerSection)
    ensures multiset(AllChains(Parsed(root)))[chain] >= 2
  {
    AllChainsCounts(root, chain);
  }

  /**
   * The RPC section's chains come first, in the order of its keys; they are
   * all of its keys when none of them is `localhost`.
   */
  lemma RpcChainsFirst(root: map<string, ConfigValue>)
    ensures var rpc := SectionChains(root, RpcSection); var all := AllChains(Parsed(root));
      |all| >= |rpc| && all[..|rpc|] == rpc
    ensures RpcSection in root && root[RpcSection].Table?
            && (forall i :: 0 <= i < |root[RpcSection].keys| ==> root[RpcSection].keys[i] != Localhost)
            ==> SectionChains(root, RpcSection) == root[RpcSection].keys
  {
    var rpc := SectionChains(root, RpcSection);
    assert (rpc + SectionChains(root, ExplorerSection))[..|rpc|] == rpc;
    if RpcSection in root && root[RpcSection].Table? {
      if forall i :: 0 <= i < |root[RpcSection].keys| ==> root[RpcSection].keys[i] != Localhost {
        FilterKeepsAll(root[RpcSection].keys, NotLocalhost);
      }
    }
  }
}
