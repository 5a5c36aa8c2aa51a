/** Effective deploy configuration along a boundary chain (termin_core/providers/binding.py). */
module Bindings {
  import opened Basics

  /** Configuration values are opaque: the merge never looks inside them. */
  type Config = map<string, string>

  datatype Binding = Binding(provider: string, config: Config)

  type Named = map<string, Binding>

  datatype DeployConfig = DeployConfig(
    version: string, identity: Binding, roleMappings: Config, storage: Binding, presentation: Binding,
    compute: Named, channels: Named, runtime: Config)

  datatype Resolution = Resolved(config: DeployConfig) | EmptyChain | VersionMismatch

  // ------------------------------------------------------------ merging two configs

  /** `_shallow_merge` */
  method ShallowMerge(parent: Config, leaf: Config) returns (out: Config)
    ensures out == parent + leaf
  {
    out := parent;
    out := out + leaf;
  }

  function MergeBinding(parent: Binding, leaf: Binding): Binding {
    Binding(leaf.provider, parent.config + leaf.config)
  }

  function NamedAt(parent: Named, leaf: Named, key: string): Binding
    requires key in parent || key in leaf
  {
    if key !in leaf then parent[key]
    else if key !in parent then leaf[key]
    else MergeBinding(parent[key], leaf[key])
  }

  function MergeNamed(parent: Named, leaf: Named): Named {
    map key | key in parent.Keys + leaf.Keys :: NamedAt(parent, leaf, key)
  }

  /** `_merge_named_map`: the parent's keys first, then the keys only the leaf has. */
  method MergeNamedMap(parent: Named, leaf: Named) returns (out: Named)
    ensures out == MergeNamed(parent, leaf)
  {
    out := ParentKeys(parent, leaf);
    out := AddLeafKeys(parent, leaf, out);
    assert out.Keys == MergeNamed(parent, leaf).Keys;
  }

  method AddLeafKeys(parent: Named, leaf: Named, start: Named) returns (out: Named)
    requires start.Keys == parent.Keys
    ensures out.Keys == parent.Keys + leaf.Keys
    ensures forall key :: key in parent ==> out[key] == start[key]
    ensures forall key :: key in leaf && key !in parent ==> out[key] == leaf[key]
  {
    out := start;
    var todo := leaf.Keys;
    while todo != {}
      invariant todo <= leaf.Keys
      invariant forall key :: key in out <==> key in parent || (key in leaf && key !in todo)
      invariant forall key :: key in parent ==> out[key] == start[key]
      invariant forall key :: key in out && key !in parent ==> out[key] == leaf[key]
      decreases |todo|
    {
      var key :| key in todo;
      todo := todo - {key};
      if key !in parent {
        out := out[key := leaf[key]];
      }
    }
  }

  method ParentKeys(parent: Named, leaf: Named) returns (out: Named)
    ensures out.Keys == parent.Keys
    ensures forall key :: key in out ==> out[key] == NamedAt(parent, leaf, key)
  {
    out := map[];
    var todo := parent.Keys;
    while todo != {}
      invariant todo <= parent.Keys && out.Keys == parent.Keys - todo
      invariant forall key :: key in out ==> out[key] == NamedAt(parent, leaf, key)
      decreases |todo|
    {
      var key :| key in todo;
      todo := todo - {key};
      if key !in leaf {
        out := out[key := parent[key]];
      } else {
        var config := ShallowMerge(parent[key].config, leaf[key].config);
        out := out[key := Binding(leaf[key].provider, config)];
      }
    }
  }

  /** `_merge_two` */
  function MergeTwo(parent: DeployConfig, leaf: DeployConfig): DeployConfig {
    DeployConfig(leaf.version,
                 MergeBinding(parent.identity, leaf.identity),
                 parent.roleMappings + leaf.roleMappings,
                 MergeBinding(parent.storage, leaf.storage),
                 MergeBinding(parent.presentation, leaf.presentation),
                 MergeNamed(parent.compute, leaf.compute),
                 MergeNamed(parent.channels, leaf.channels),
                 parent.runtime + leaf.runtime)
  }

  // ------------------------------------------------------------ resolving a chain

  /** Folding a non-empty list from the left. */
  function FoldWith<T>(op: (T, T) -> T, xs: seq<T>): T
    requires xs != []
  {
    if |xs| == 1 then xs[0] else op(FoldWith(op, xs[..|xs| - 1]), xs[|xs| - 1])
  }

  function Fold(chain: seq<DeployConfig>): DeployConfig
    requires chain != []
  {
    FoldWith(MergeTwo, chain)
  }

  predicate OneVersion(chain: seq<DeployConfig>) {
    forall i, j :: 0 <= i < |chain| && 0 <= j < |chain| ==> chain[i].version == chain[j].version
  }

  ghost function Resolve(chain: seq<DeployConfig>): Resolution {
    if chain == [] then EmptyChain else if !OneVersion(chain) then VersionMismatch else Resolved(Fold(chain))
  }

  /** `resolve_effective_bindings` */
  method ResolveEffectiveBindings(chain: seq<DeployConfig>) returns (r: Resolution)
    ensures r == Resolve(chain)
    ensures r.EmptyChain? <==> chain == []
    ensures r.VersionMismatch? <==> exists c, d :: c in chain && d in chain && c.version != d.version
  {
    if chain == [] {
      return EmptyChain;
    }
    var same := SameVersions(chain);
    if !same {
      return VersionMismatch;
    }
    var effective := FoldChain(chain);
    FoldKeepsVersion(chain);
    return Resolved(effective.(version := chain[0].version));
  }

  /** `len({c.version for c in chain}) == 1` */
  method SameVersions(chain: seq<DeployConfig>) returns (same: bool)
    requires chain != []
    ensures same <==> OneVersion(chain)
  {
    var versions := set c | c in chain :: c.version;
    assert chain[0].version in versions;
    if versions != {chain[0].version} {
      var v :| v in versions && v != chain[0].version;
      var i :| 0 <= i < |chain| && chain[i].version == v;
      return false;
    }
    assert forall i :: 0 <= i < |chain| ==> chain[i].version in versions;
    return true;
  }

  method FoldChain(chain: seq<DeployConfig>) returns (effective: DeployConfig)
    requires chain != []
    ensures effective == Fold(chain)
  {
    effective := chain[0];
    var i := 1;
    while i < |chain|
      invariant 1 <= i <= |chain|
      invariant effective == Fold(chain[..i])
    {
      assert chain[..i + 1][..i] == chain[..i];
      effective := Merge(effective, chain[i]);
      i := i + 1;
    }
    assert chain[..i] == chain;
  }

  method Merge(parent: DeployConfig, leaf: DeployConfig) returns (out: DeployConfig)
    ensures out == MergeTwo(parent, leaf)
  {
    var identity := ShallowMerge(parent.identity.config, leaf.identity.config);
    var roles := ShallowMerge(parent.roleMappings, leaf.roleMappings);
    var storage := ShallowMerge(parent.storage.config, leaf.storage.config);
    var presentation := ShallowMerge(parent.presentation.config, leaf.presentation.config);
    var compute := MergeNamedMap(parent.compute, leaf.compute);
    var channels := MergeNamedMap(parent.channels, leaf.channels);
    var runtime := ShallowMerge(parent.runtime, leaf.runtime);
    out := DeployConfig(leaf.version, Binding(leaf.identity.provider, identity), roles,
                        Binding(leaf.storage.provider, storage),
                        Binding(leaf.presentation.provider, presentation), compute, channels, runtime);
  }

  // ------------------------------------------------------------ a config as its settings

  datatype Slot = IdentitySlot | StorageSlot | PresentationSlot | ComputeSlot(name: string) | ChannelSlot(name: string)

  /** Everything a config can say. */
  datatype Path =
    | Version
    | Provider(slot: Slot)
    | Key(slot: Slot, key: string)
    | Role(key: string)
    | Runtime(key: string)

  function BindingAt(c: DeployConfig, slot: Slot): Option<Binding> {
    match slot
    case IdentitySlot => Some(c.identity)
    case StorageSlot => Some(c.storage)
    case PresentationSlot => Some(c.presentation)
    case ComputeSlot(n) => if n in c.compute then Some(c.compute[n]) else None
    case ChannelSlot(n) => if n in c.channels then Some(c.channels[n]) else None
  }

  function Setting(c: DeployConfig, path: Path): Option<string> {
    match path
    case Version => Some(c.version)
    case Provider(slot) =>
      (match BindingAt(c, slot) case None => None case Some(b) => Some(b.provider))
    case Key(slot, key) =>
      (match BindingAt(c, slot) case None => None case Some(b) => Lookup(b.config, key))
    case Role(key) => Lookup(c.roleMappings, key)
    case Runtime(key) => Lookup(c.runtime, key)
  }

  /** The last config in the chain that sets the path decides it. */
  function LastSetting(chain: seq<DeployConfig>, path: Path): Option<string> {
    if chain == [] then None
    else if Setting(chain[|chain| - 1], path).Some? then Setting(chain[|chain| - 1], path)
    else LastSetting(chain[..|chain| - 1], path)
  }

  lemma LeafWins(parent: DeployConfig, leaf: DeployConfig, path: Path)
    ensures Setting(MergeTwo(parent, leaf), path) ==
            if Setting(leaf, path).Some? then Setting(leaf, path) else Setting(parent, path)
  {
    match path
    case Provider(slot) => BindingOfMerge(parent, leaf, slot);
    case Key(slot, _) => BindingOfMerge(parent, leaf, slot);
    case _ =>
  }

  lemma BindingOfMerge(parent: DeployConfig, leaf: DeployConfig, slot: Slot)
    ensures var p, l := BindingAt(parent, slot), BindingAt(leaf, slot);
            BindingAt(MergeTwo(parent, leaf), slot) ==
            if l.None? then p else if p.None? then l else Some(MergeBinding(p.value, l.value))
  {
  }

  /** Every provider and every config key, under every name, is what the last config that sets it says. */
  lemma {:induction false} LastConfigWins(chain: seq<DeployConfig>, path: Path)
    requires chain != []
    ensures Setting(Fold(chain), path) == LastSetting(chain, path)
  {
    if |chain| == 1 {
      assert chain[..0] == [];
    } else {
      LastConfigWins(chain[..|chain| - 1], path);
      LeafWins(Fold(chain[..|chain| - 1]), chain[|chain| - 1], path);
    }
  }

  /** A config is its settings. */
  lemma SameSettingsSameConfig(a: DeployConfig, b: DeployConfig)
    requires forall path :: Setting(a, path) == Setting(b, path)
    ensures a == b
  {
    assert Setting(a, Version) == Setting(b, Version);
    SameBinding(a, b, IdentitySlot);
    SameBinding(a, b, StorageSlot);
    SameBinding(a, b, PresentationSlot);
    forall n ensures (n in a.compute <==> n in b.compute) && (n in a.compute ==> a.compute[n] == b.compute[n]) {
      SameBinding(a, b, ComputeSlot(n));
    }
    assert a.compute == b.compute;
    forall n ensures (n in a.channels <==> n in b.channels) && (n in a.channels ==> a.channels[n] == b.channels[n]) {
      SameBinding(a, b, ChannelSlot(n));
    }
    assert a.channels == b.channels;
    forall k ensures Lookup(a.roleMappings, k) == Lookup(b.roleMappings, k) {
      assert Setting(a, Role(k)) == Setting(b, Role(k));
    }
    SameLookups(a.roleMappings, b.roleMappings);
    forall k ensures Lookup(a.runtime, k) == Lookup(b.runtime, k) {
      assert Setting(a, Runtime(k)) == Setting(b, Runtime(k));
    }
    SameLookups(a.runtime, b.runtime);
  }

  lemma SameBinding(a: DeployConfig, b: DeployConfig, slot: Slot)
    requires forall path :: Setting(a, path) == Setting(b, path)
    ensures BindingAt(a, slot) == BindingAt(b, slot)
  {
    assert Setting(a, Provider(slot)) == Setting(b, Provider(slot));
    if BindingAt(a, slot).Some? && BindingAt(b, slot).Some? {
      var x, y := BindingAt(a, slot).value.config, BindingAt(b, slot).value.config;
      forall k ensures Lookup(x, k) == Lookup(y, k) {
        assert Setting(a, Key(slot, k)) == Setting(b, Key(slot, k));
      }
      SameLookups(x, y);
    }
  }

  lemma SameLookups(x: Config, y: Config)
    requires forall k :: Lookup(x, k) == Lookup(y, k)
    ensures x == y
  {
    forall k ensures (k in x <==> k in y) && (k in x ==> x[k] == y[k]) {
      assert Lookup(x, k) == Lookup(y, k);
    }
  }

  // ------------------------------------------------------------ a fold that splits anywhere

  lemma MergeIsAssociative(a: DeployConfig, b: DeployConfig, c: DeployConfig)
    ensures MergeTwo(MergeTwo(a, b), c) == MergeTwo(a, MergeTwo(b, c))
  {
    forall path ensures Setting(MergeTwo(MergeTwo(a, b), c), path) == Setting(MergeTwo(a, MergeTwo(b, c)), path) {
      LeafWins(MergeTwo(a, b), c, path);
      LeafWins(a, b, path);
      LeafWins(a, MergeTwo(b, c), path);
      LeafWins(b, c, path);
    }
    SameSettingsSameConfig(MergeTwo(MergeTwo(a, b), c), MergeTwo(a, MergeTwo(b, c)));
  }

  lemma {:induction false} FoldWithSplits<T(!new)>(op: (T, T) -> T, front: seq<T>, back: seq<T>)
    requires front != [] && back != []
    requires forall a, b, c :: op(op(a, b), c) == op(a, op(b, c))
    ensures FoldWith(op, front + back) == op(FoldWith(op, front), FoldWith(op, back))
    decreases |back|
  {
    var all := front + back;
    var init, last := back[..|back| - 1], back[|back| - 1];
    assert all[..|all| - 1] == front + init && all[|all| - 1] == last;
    if init == [] {
      assert front + init == front;
    } else {
      FoldWithSplits(op, front, init);
    }
  }

  /** The fold is a homomorphism: it may be split anywhere. */
  lemma FoldSplits(front: seq<DeployConfig>, back: seq<DeployConfig>)
    requires front != [] && back != []
    ensures Fold(front + back) == MergeTwo(Fold(front), Fold(back))
  {
    forall a: DeployConfig, b: DeployConfig, c: DeployConfig
      ensures MergeTwo(MergeTwo(a, b), c) == MergeTwo(a, MergeTwo(b, c))
    {
      MergeIsAssociative(a, b, c);
    }
    FoldWithSplits(MergeTwo, front, back);
  }

  lemma {:induction false} FoldKeepsVersion(chain: seq<DeployConfig>)
    requires chain != []
    ensures Fold(chain).version == chain[|chain| - 1].version
  {
  }

  /** Resolving a concatenated chain is merging the two resolutions, and fails exactly when a part fails or the
      two parts have different versions. */
  lemma ResolutionSplits(front: seq<DeployConfig>, back: seq<DeployConfig>)
    requires front != [] && back != []
    ensures var f, b := Resolve(front), Resolve(back);
            Resolve(front + back) ==
            if f.Resolved? && b.Resolved? && f.config.version == b.config.version
            then Resolved(MergeTwo(f.config, b.config)) else VersionMismatch
  {
    FoldSplits(front, back);
    FoldKeepsVersion(front);
    FoldKeepsVersion(back);
    var all := front + back;
    VersionsOf(all, front, back);
  }

  lemma VersionsOf(all: seq<DeployConfig>, front: seq<DeployConfig>, back: seq<DeployConfig>)
    requires front != [] && back != [] && all == front + back
    ensures OneVersion(all) <==>
            && OneVersion(front) && OneVersion(back)
            && front[|front| - 1].version == back[|back| - 1].version
  {
    assert forall i :: 0 <= i < |front| ==> all[i] == front[i];
    assert forall i :: 0 <= i < |back| ==> all[|front| + i] == back[i];
    if OneVersion(all) {
      assert all[|front| - 1].version == all[|all| - 1].version;
    }
    if OneVersion(front) && OneVersion(back) && front[|front| - 1].version == back[|back| - 1].version {
      var v := back[|back| - 1].version;
      assert forall i :: 0 <= i < |all| ==> all[i].version == v;
    }
  }
}
