/**
 The sprite packer's policy registry. The static fields of the editor's
 `Packer` class become the fields of one object, and the persisted player
 setting it reads and writes becomes a field as well. Each method that
 rebuilds the registry receives the loaded assemblies as they stand at the
 time of the call.
 */
module Sprites {
  import opened PackerSpec

  class Packer {
    /** The registered policy names (duplicates kept); meaningful once `initialized`. */
    var policies: seq<string>
    /** The registry has been built, i.e. the list of names is no longer null. */
    var initialized: bool
    /** Name to implementing type, first registration wins. */
    var cache: map<string, TypeInfo>
    /** The name of the selected policy. */
    var selected: string
    /** The persisted player setting holding the selected policy name (None is null). */
    var setting: Option<string>
    /** The qualifying types found by the one scan, in discovery order. */
    ghost var scanned: seq<TypeInfo>

    /** Once built, the registry holds the names and the dictionary of the
        scanned types, and the selection is a registered name or the default. */
    ghost predicate Valid()
      reads this
    {
      initialized ==>
        && policies == Names(scanned)
        && cache == FirstWins(scanned)
        && (forall t :: t in scanned ==> Qualifies(t))
        && (selected in policies || selected == DefaultPolicy)
    }

    /** The names and the dictionary are those of the first scan: kept when
        the registry was already built, freshly computed from `scan` if not. */
    twostate predicate ScannedOnce(scan: seq<AssemblyScan>)
      reads this
    {
      && initialized
      && (old(initialized) ==>
            policies == old(policies) && cache == old(cache) && scanned == old(scanned))
      && (!old(initialized) ==>
            scanned == Discovered(scan) && policies == Names(scanned) && cache == FirstWins(scanned))
    }

    /** The selection and the setting are kept when the registry was already
        built, and made by the initial selection rule if not. */
    twostate predicate SelectionSettled()
      reads this
    {
      && (old(initialized) ==> selected == old(selected) && setting == old(setting))
      && (!old(initialized) ==> Selection(selected, setting) == InitialSelection(policies, old(setting)))
    }

    /** The registry before its first use: nothing scanned, the persisted
        setting as the editor holds it. */
    constructor (persisted: Option<string>)
      ensures Valid() && !initialized && setting == persisted
    {
      policies := [];
      initialized := false;
      cache := map[];
      selected := "";
      setting := persisted;
      scanned := [];
    }

    /** Selects `value` and persists it. */
    method SetSelectedPolicy(value: string)
      modifies this`selected, this`setting
      ensures selected == value && setting == Some(value)
    {
      selected := value;
      setting := Some(value);
    }

    /** `list` followed by the qualifying types among `types`, added one at
        a time in the order the assembly reports them. */
    static method AppendQualifying(list: seq<TypeInfo>, types: seq<TypeInfo>) returns (r: seq<TypeInfo>)
      ensures r == list + QualifyingTypes(types)
    {
      r := list;
      var j := 0;
      while j < |types|
        invariant 0 <= j <= |types|
        invariant r == list + QualifyingTypes(types[..j])
      {
        var t := types[j];
        if Qualifies(t) {
          r := r + [t];
        }
        assert types[..j + 1][..j] == types[..j];
        assert QualifyingTypes(types[..j + 1])
          == QualifyingTypes(types[..j]) + (if Qualifies(t) then [t] else []);
        j := j + 1;
      }
      assert types[..j] == types;
    }

    /** The qualifying types of every assembly, in discovery order. A failure
        inside one assembly is logged and ends the scan of that assembly only;
        what it had already added stays. */
    static method CollectPolicyTypes(scan: seq<AssemblyScan>) returns (list: seq<TypeInfo>)
      ensures list == Discovered(scan)
    {
      list := [];
      var i := 0;
      while i < |scan|
        invariant 0 <= i <= |scan|
        invariant list == Discovered(scan[..i])
      {
        match scan[i] {
          case Failed(_) =>
            // reading the types threw before any was tested
          case Interrupted(_, reached) =>
            // testing a type threw after the types in `reached`
            list := AppendQualifying(list, reached);
          case Loaded(_, types) =>
            list := AppendQualifying(list, types);
        }
        assert scan[..i + 1][..i] == scan[..i];
        assert Discovered(scan[..i + 1]) == Discovered(scan[..i]) + Contribution(scan[i]);
        i := i + 1;
      }
      assert scan[..i] == scan;
    }

    /** Fills the dictionary from `list`, in order; a type whose name is
        already a key is reported as a duplicate and not inserted. */
    method FillCache(list: seq<TypeInfo>)
      modifies this`cache
      ensures cache == FirstWins(list)
    {
      cache := map[];
      var k := 0;
      while k < |list|
        invariant 0 <= k <= |list|
        invariant cache == FirstWins(list[..k])
      {
        var current := list[k];
        assert list[..k + 1][..k] == list[..k];
        assert list[..k + 1][k] == current;
        if current.name in cache {
          // a duplicate name is reported; the earlier type stays
        } else {
          cache := cache[current.name := current];
        }
        k := k + 1;
      }
      assert list[..k] == list;
    }

    /** Takes the persisted name if it is set, else the default, and falls
        back to (and persists) the default when that name is not registered. */
    method SelectInitialPolicy()
      modifies this`selected, this`setting
      ensures Selection(selected, setting) == InitialSelection(policies, old(setting))
    {
      selected := if IsSet(setting) then setting.value else DefaultPolicy;
      if selected !in policies {
        SetSelectedPolicy(DefaultPolicy);
      }
    }

    /** Builds the registry on first use; does nothing once it is built. */
    method RegenerateList(scan: seq<AssemblyScan>)
      requires Valid()
      modifies this
      ensures Valid() && ScannedOnce(scan) && SelectionSettled()
    {
      if !initialized {
        var list := CollectPolicyTypes(scan);
        policies := Names(list);
        initialized := true;
        FillCache(list);
        scanned := list;
        DiscoveredMembers(scan);
        SelectInitialPolicy();
      }
    }

    /** The registered policy names. */
    method GetPolicies(scan: seq<AssemblyScan>) returns (names: seq<string>)
      requires Valid()
      modifies this
      ensures Valid() && ScannedOnce(scan) && SelectionSettled()
      ensures names == policies
    {
      RegenerateList(scan);
      names := policies;
    }

    /** The selected policy name. */
    method GetSelectedPolicy(scan: seq<AssemblyScan>) returns (name: string)
      requires Valid()
      modifies this
      ensures Valid() && ScannedOnce(scan) && SelectionSettled()
      ensures name == selected
      ensures name in policies || name == DefaultPolicy
    {
      RegenerateList(scan);
      name := selected;
    }

    /** Selects a registered policy and persists the choice. A null or
        unregistered name is rejected and leaves the selection and the
        setting as the (possibly just built) registry had them. */
    method SetSelected(scan: seq<AssemblyScan>, value: Option<string>) returns (outcome: Result<()>)
      requires Valid()
      modifies this
      ensures Valid() && ScannedOnce(scan)
      ensures outcome == Err(ArgumentNull) <==> value.None?
      ensures outcome.Ok? <==> value.Some? && value.value in policies
      ensures value.Some? && value.value !in policies ==> outcome == Err(NotInPolicyList(value.value))
      ensures outcome.Ok? ==> selected == value.value && setting == Some(value.value)
      ensures outcome.Err? ==> SelectionSettled()
    {
      RegenerateList(scan);
      if value.None? {
        return Err(ArgumentNull);
      }
      if value.value !in policies {
        return Err(NotInPolicyList(value.value));
      }
      SetSelectedPolicy(value.value);
      outcome := Ok(());
    }

    /** The type registered under the selected name, as the version-id, the
        sequential-packing and the grouping helpers look it up before they
        instantiate it. The lookup fails only when the selection is the
        default policy and the default policy was never discovered. */
    method LookupSelectedPolicy(scan: seq<AssemblyScan>) returns (r: Result<TypeInfo>)
      requires Valid()
      modifies this
      ensures Valid() && ScannedOnce(scan) && SelectionSettled()
      ensures r.Ok? <==> selected in policies
      ensures r.Ok? ==> r.value.name == selected && Qualifies(r.value)
      ensures r.Ok? ==> exists i :: 0 <= i < |scanned| && scanned[i] == r.value
                                    && forall j :: 0 <= j < i ==> scanned[j].name != selected
      ensures r.Err? ==> r.error == KeyNotFound(selected) && selected == DefaultPolicy
    {
      RegenerateList(scan);
      FirstWinsDomain(scanned);
      if selected in cache {
        r := Ok(cache[selected]);
        FirstWinsIsEarliest(scanned, selected);
      } else {
        r := Err(KeyNotFound(selected));
      }
    }
  }

  /** The discovery list of the scenario below: the interface and a helper
      type are left out, the unreadable assembly adds nothing, and the
      interrupted one keeps what it had reached. */
  lemma ScenarioDiscovery(a: TypeInfo, b: TypeInfo, policyInterface: TypeInfo, helper: TypeInfo,
                          scan: seq<AssemblyScan>)
    requires Qualifies(a) && Qualifies(b) && !Qualifies(policyInterface) && !Qualifies(helper)
    requires scan == [Loaded("Plugins", [policyInterface, a, helper]), Failed("Broken"), Interrupted("Partial", [b])]
    ensures Discovered(scan) == [a, b]
  {
    assert Contribution(scan[0]) == [a] by {
      assert [policyInterface][..0] == [];
      assert QualifyingTypes([policyInterface]) == [];
      assert [policyInterface, a][..1] == [policyInterface];
      assert QualifyingTypes([policyInterface, a]) == [a];
      assert [policyInterface, a, helper][..2] == [policyInterface, a];
    }
    assert Contribution(scan[1]) == [];
    assert Contribution(scan[2]) == [b] by {
      assert [b][..0] == [];
    }
    assert scan[..1][..0] == [];
    assert Discovered(scan[..1]) == [a];
    assert scan[..2][..1] == scan[..1];
    assert Discovered(scan[..2]) == [a];
    assert scan[..3] == scan;
  }

  /** Two assemblies declare the policies "A" and "B", a third cannot be
      read, the scan of the one declaring "B" is interrupted after it, and
      the persisted setting names a policy "C" that no longer exists: the
      default is selected and persisted, and since the default policy itself
      was not discovered, resolving the selection fails. A later call with
      more assemblies loaded sees the same registry. */
  method StaleSettingScenario()
  {
    var a := TypeInfo("A", "Plugins.A", true, false);
    var b := TypeInfo("B", "Partial.B", true, false);
    var policyInterface := TypeInfo("IPackerPolicy", "UnityEditor.Sprites.IPackerPolicy", true, true);
    var helper := TypeInfo("Helper", "Plugins.Helper", false, false);
    var scan := [Loaded("Plugins", [policyInterface, a, helper]), Failed("Broken"), Interrupted("Partial", [b])];
    ScenarioDiscovery(a, b, policyInterface, helper, scan);
    assert Names([a, b]) == ["A", "B"];

    var p := new Packer(Some("C"));
    var names := p.GetPolicies(scan);
    assert names == ["A", "B"];
    assert p.selected == DefaultPolicy && p.setting == Some(DefaultPolicy);

    var r := p.LookupSelectedPolicy(scan + [Loaded("Late", [TypeInfo(DefaultPolicy, "Late.DefaultPackerPolicy", true, false)])]);
    assert r == Err(KeyNotFound(DefaultPolicy));
  }

  /** On the registry of the scenario above, the setter rejects the stale
      name and accepts "B", which then resolves to its type. */
  method SetterScenario()
  {
    var a := TypeInfo("A", "Plugins.A", true, false);
    var b := TypeInfo("B", "Partial.B", true, false);
    var policyInterface := TypeInfo("IPackerPolicy", "UnityEditor.Sprites.IPackerPolicy", true, true);
    var helper := TypeInfo("Helper", "Plugins.Helper", false, false);
    var scan := [Loaded("Plugins", [policyInterface, a, helper]), Failed("Broken"), Interrupted("Partial", [b])];
    ScenarioDiscovery(a, b, policyInterface, helper, scan);
    assert Names([a, b]) == ["A", "B"];

    var p := new Packer(Some("C"));
    var rejected := p.SetSelected(scan, Some("C"));
    assert rejected == Err(NotInPolicyList("C"));
    var accepted := p.SetSelected(scan, Some("B"));
    assert accepted.Ok? && p.selected == "B" && p.setting == Some("B");
    var resolved := p.LookupSelectedPolicy([]);
    assert resolved == Ok(b);
  }
}
