# Sprite packer policy registry

This project models the managed part of the Unity editor's sprite packer
(`UnityEditor.Sprites.Packer`). Most of that class is a thin layer over
native engine calls. The part with logic of its own is the **packing-policy
registry**:

- On first use, `RegenerateList` scans every loaded assembly for types that
  implement the packing-policy interface, leaving out the interface itself.
  A failure while scanning one assembly is logged and ends the scan of that
  assembly only. The types it had already added stay in the list.
- It keeps the names of those types in discovery order, duplicates included,
  as the policy list.
- It files the types in a name-to-type dictionary. The first type seen under
  a name wins, and later ones are reported as duplicates.
- It picks the selected policy. This is the persisted player setting if that
  is set and registered, and the default policy `DefaultPackerPolicy`
  otherwise. The default is written back to the setting whenever the
  candidate name is not registered.
- The `SelectedPolicy` setter rejects null and unregistered names. Otherwise
  it selects the name and persists it.
- Three internal helpers look up the selected name in the dictionary before
  they instantiate the policy. These are the version id, the
  sequential-packing flag and atlas grouping.

Reflection is replaced by a value. Each call that may build the registry
receives `scan: seq<AssemblyScan>`: the loaded assemblies at that moment, in
the order the application domain lists them. Each entry is one of three
outcomes:

- `Failed(name)`: asking the assembly for its types threw.
- `Interrupted(name, reached)`: it reported its types, but testing one of
  them threw after the types in `reached` had been tested.
- `Loaded(name, types)`: every type it reported was tested.

A `TypeInfo` carries the simple name, the full name, whether the type can be
assigned to the policy interface, and whether it is that interface.

Two files:

- `packer_spec.dfy`, module `PackerSpec`. It holds the values and the pure
  specification functions: `Discovered`, `Names`, `FirstWins` and
  `InitialSelection`. It also holds the lemmas about them.
- `packer.dfy`, module `Sprites`. It holds class `Packer`. The static fields of
  the editor class become its fields: `policies`, `initialized` (the list is
  non-null), `cache`, `selected`, and `setting` (the persisted player setting,
  `None` standing for null). A ghost field `scanned` keeps the types of the
  one scan. `Valid()` ties the fields to the specification functions. The
  methods follow the source's loops and assignments, and their `ensures`
  clauses tie the new state to those functions. The two-state predicates
  `ScannedOnce` and `SelectionSettled` state that a built registry changes no
  field when it is asked to build again.

Only the lookup is kept from the source's three resolve-and-invoke helpers.
They are modelled by one method, `LookupSelectedPolicy`, because they differ
only in the plugin call that follows the lookup. The method
`StaleSettingScenario` works through a concrete registry. Two assemblies
declare the policies "A" and "B", one assembly cannot be read, and the scan
of the assembly declaring "B" is interrupted right after it. The persisted
setting "C" is stale, so the default is selected and persisted. The lookup
then fails because the default was not discovered. `SetterScenario` shows
the setter rejecting "C" and accepting "B" on the same registry.

## Model

| member | source | states |
|---|---|---|
| `PackerSpec.QualifyingTypesMembers` | UnityEditor/UnityEditor.Sprites/Packer.cs:114-121 | a type is kept from an assembly iff the assembly reports it, it implements the policy interface and it is not the interface itself |
| `PackerSpec.QualifyingTypesAppend` | UnityEditor/UnityEditor.Sprites/Packer.cs:114-121 | filtering an assembly's types distributes over concatenation, so the kept types stay in the order the assembly reports them |
| `PackerSpec.DiscoveredAppend` | UnityEditor/UnityEditor.Sprites/Packer.cs:107-127 | discovery distributes over concatenation of the assembly list: the list is in assembly order, then type order |
| `PackerSpec.FailedAssemblySkipped` | UnityEditor/UnityEditor.Sprites/Packer.cs:110-126 | an assembly whose types cannot be read contributes nothing, wherever it stands, and the scan continues with the rest |
| `PackerSpec.InterruptedKeepsPrefix` | UnityEditor/UnityEditor.Sprites/Packer.cs:110-126 | an assembly whose filter loop throws keeps the qualifying types it had reached: its contribution is a prefix of what a complete scan of it would add |
| `PackerSpec.DiscoveredMembers` | UnityEditor/UnityEditor.Sprites/Packer.cs:104-127 | a type is discovered iff it qualifies and some assembly reported it and had it tested before its scan ended |
| `PackerSpec.FirstWinsDomain` | UnityEditor/UnityEditor.Sprites/Packer.cs:128-142 | the dictionary's keys are exactly the names in the policy list, and each entry is a discovered type filed under its own name |
| `PackerSpec.FirstWinsKeepsFirst` | UnityEditor/UnityEditor.Sprites/Packer.cs:131-141 | the first type in the list under a name is the one the dictionary holds for that name |
| `PackerSpec.FirstWinsIsEarliest` | UnityEditor/UnityEditor.Sprites/Packer.cs:131-141 | every dictionary entry is the earliest type in the list that carries its name |
| `PackerSpec.FirstWinsNeverOverwritten` | UnityEditor/UnityEditor.Sprites/Packer.cs:133-140 | types appended later never replace an entry that is already in the dictionary |
| `PackerSpec.InitialSelection` | UnityEditor/UnityEditor.Sprites/Packer.cs:143-147 | a set and registered persisted name is selected and the setting is kept; otherwise the default is selected; a set but unregistered name is overwritten with the default; an unset setting is rewritten iff the default is unregistered |
| `PackerSpec.InitialResolution` | UnityEditor/UnityEditor.Sprites/Packer.cs:143-154 | right after the build, the selected name has a dictionary entry iff the persisted name was set and registered or the default was discovered, so the lookup fails only when the default is missing |
| `Sprites.ScenarioDiscovery` | UnityEditor/UnityEditor.Sprites/Packer.cs:104-127 | on a concrete scan, the interface and a non-policy type are left out, an unreadable assembly adds nothing and an interrupted one keeps what it reached |
| `Sprites.Packer.constructor` | UnityEditor/UnityEditor.Sprites/Packer.cs:20-24 | the registry starts unbuilt, holding the persisted setting it was given |
| `Sprites.Packer.SetSelectedPolicy` | UnityEditor/UnityEditor.Sprites/Packer.cs:94-98 | the selection and the persisted setting both become the given name, and nothing else changes |
| `Sprites.Packer.AppendQualifying` | UnityEditor/UnityEditor.Sprites/Packer.cs:114-121 | the inner loop appends exactly the qualifying types of the tested types, in order, to the list |
| `Sprites.Packer.CollectPolicyTypes` | UnityEditor/UnityEditor.Sprites/Packer.cs:104-127 | the outer loop with its per-assembly catch produces exactly `Discovered(scan)` |
| `Sprites.Packer.FillCache` | UnityEditor/UnityEditor.Sprites/Packer.cs:130-142 | the insertion loop leaves the dictionary equal to `FirstWins(list)` |
| `Sprites.Packer.SelectInitialPolicy` | UnityEditor/UnityEditor.Sprites/Packer.cs:143-147 | the selection and the setting become those of `InitialSelection` applied to the policy list and the old setting |
| `Sprites.Packer.RegenerateList` | UnityEditor/UnityEditor.Sprites/Packer.cs:100-149 | a first call sets the list to the names of `Discovered(scan)`, the dictionary to its `FirstWins`, and the selection by `InitialSelection`; once built, a call changes no field; `Valid()` is kept |
| `Sprites.Packer.GetPolicies` | UnityEditor/UnityEditor.Sprites/Packer.cs:32-39 | builds the registry if needed and returns the policy list; a built registry is left unchanged |
| `Sprites.Packer.GetSelectedPolicy` | UnityEditor/UnityEditor.Sprites/Packer.cs:41-47 | builds the registry if needed and returns the selection, which is a registered name or the default |
| `Sprites.Packer.SetSelected` | UnityEditor/UnityEditor.Sprites/Packer.cs:48-60 | after building the registry if needed: null gives the null-argument error, an unregistered name gives the argument error, and either leaves the selection and the setting as they were once the registry was built (a first call that fails has still built it); a registered name is selected and persisted; the list and the dictionary never change |
| `Sprites.Packer.LookupSelectedPolicy` | UnityEditor/UnityEditor.Sprites/Packer.cs:151-173 | the lookup succeeds iff the selection is a registered name, and then yields the first discovered type of that name; it fails with a key-not-found error only when the selection is the undiscovered default |

## Left out

- The native engine calls are not modelled because their behaviour is not visible: `atlasNames`, `Internal_GetAtlasNameForSprite`, `Internal_GetAtlasTextureSprite`, `GetTexturesForAtlas`, `GetAlphaTexturesForAtlas` and the three-argument `RebuildAtlasCacheIfNeeded`.
- The two `RebuildAtlasCacheIfNeeded` overloads, `GetAtlasDataForSprite` and the `Execution` enum are left out. They only forward to those native calls.
- Reflection is not modelled: enumerating the loaded assemblies, `GetTypes`, and the assignability test against the policy interface. The `scan` parameter stands for their results. The exception itself and its message are not kept. The full type names and the assembly names are kept as data only: the source reads them only for its log messages, and here they tell apart types and assemblies that share a simple name.
- `Activator.CreateInstance` and the plugin calls `GetVersion`, `AllowSequentialPacking` and `OnGroupAtlases` are left out. They run foreign plugin code. The id string built from the type's assembly-qualified name is left out with them.
- `SaveUnappliedTextureImporterSettings` is left out. It is editor UI: inspector windows and modal dialogs.
- The `Debug.Log` and `Debug.LogError` calls for failed assemblies and duplicate names are logging only. They become comments at the matching places.
- `kDefaultPolicy` is a mutable public static field in the source. Nothing in this class writes it, so it is the constant `DefaultPolicy`.
- The registry is a set of process-wide statics in the source and one object here. Concurrent first use is not modelled, since the editor calls this from its main thread only.
- `GetPolicies` returns a value. The source returns its internal array, which a caller could then modify in place. That aliasing is not modelled.
- The selected name is null in the source before the first build. The model holds `""` there instead. This value cannot be observed, because every reader builds the registry first.
- The persisted setting can be changed by other editor code between calls. The model changes it only through this class.
