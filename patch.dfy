/**
 * Patches of the world map and the map that holds them, at the level of their stated
 * contracts. A patch has a fixed id, a set of neighbour ids and a list of the species
 * that live in it with their per-patch population; a map keys patches by id and
 * remembers which patch is the current one.
 */
module Patches {
  import opened Primitives

  /** The population a species gets in a patch when none is given. */
  const INITIAL_SPECIES_POPULATION: int32 := 100

  /** A species, shared between patches and compared by identity; only its name is modelled. */
  class Species {
    const name: string

    constructor (name: string)
      ensures this.name == name
    {
      this.name := name;
    }
  }

  /** One species' entry in one patch. */
  datatype SpeciesInPatch = SpeciesInPatch(species: Species, population: int32)

  class Patch {
    const patchId: int32
    var name: string
    var speciesInPatch: seq<SpeciesInPatch>
    /** Ids of the patches this one links to. */
    var adjacentPatches: set<int32>

    constructor (name: string, id: int32)
      ensures GetId() == id && this.name == name
      ensures speciesInPatch == [] && adjacentPatches == {}
    {
      this.patchId := id;
      this.name := name;
      speciesInPatch := [];
      adjacentPatches := {};
    }

    function GetId(): int32
    {
      patchId
    }

    function GetName(): string
      reads this
    {
      name
    }

    function GetSpecies(): seq<SpeciesInPatch>
      reads this
    {
      speciesInPatch
    }

    /** The species object itself has an entry in this patch. */
    ghost predicate Hosts(s: Species)
      reads this
    {
      exists i :: 0 <= i < |speciesInPatch| && speciesInPatch[i].species == s
    }

    /** Some species with this name has an entry in this patch. */
    ghost predicate HostsSpeciesNamed(speciesName: string)
      reads this
    {
      exists i :: 0 <= i < |speciesInPatch| && speciesInPatch[i].species.name == speciesName
    }

    /** Adds a link to the patch with this id; true iff the link is new. */
    method AddNeighbour(id: int32) returns (isNew: bool)
      modifies this`adjacentPatches
      ensures isNew <==> id !in old(adjacentPatches)
      ensures adjacentPatches == old(adjacentPatches) + {id}
    {
      isNew := id !in adjacentPatches;
      adjacentPatches := adjacentPatches + {id};
    }

    /** Looks for a species with this name among the patch's entries. */
    method SearchSpeciesByName(speciesName: string) returns (r: Option<Species>)
      ensures r.None? <==> !HostsSpeciesNamed(speciesName)
      ensures r.Some? ==> Hosts(r.value) && r.value.name == speciesName
    {
      var i := 0;
      while i < |speciesInPatch|
        invariant 0 <= i <= |speciesInPatch|
        invariant forall j :: 0 <= j < i ==> speciesInPatch[j].species.name != speciesName
      {
        if speciesInPatch[i].species.name == speciesName {
          return Some(speciesInPatch[i].species);
        }
        i := i + 1;
      }
      r := None;
    }

    /**
     * Adds a species with a population; false, and nothing added, if the species is
     * already in the patch. Whether "already in" means the same object or the same name is
     * left open: the same object is always refused, and a refusal always means that a
     * species with that name is present.
     */
    method AddSpecies(species: Species, population: int32 := INITIAL_SPECIES_POPULATION)
      returns (added: bool)
      modifies this`speciesInPatch
      ensures old(Hosts(species)) ==> !added
      ensures !added ==> old(HostsSpeciesNamed(species.name))
      ensures speciesInPatch ==
        if added then old(speciesInPatch) + [SpeciesInPatch(species, population)]
        else old(speciesInPatch)
    {
      var existing := SearchSpeciesByName(species.name);
      if existing.Some? {
        return false;
      }
      speciesInPatch := speciesInPatch + [SpeciesInPatch(species, population)];
      added := true;
    }

    /** The scripting entry point: delegates to `AddSpecies` and returns what it returns. */
    method AddSpeciesWrapper(species: Species, population: int32) returns (added: bool)
      modifies this`speciesInPatch
      ensures old(Hosts(species)) ==> !added
      ensures !added ==> old(HostsSpeciesNamed(species.name))
      ensures speciesInPatch ==
        if added then old(speciesInPatch) + [SpeciesInPatch(species, population)]
        else old(speciesInPatch)
    {
      added := AddSpecies(species, population);
    }
  }

  class PatchMap {
    var patches: map<int32, Patch>
    var currentPatchId: int32

    /** Every patch is stored under its own id. */
    ghost predicate Valid()
      reads this
    {
      forall id :: id in patches ==> patches[id].GetId() == id
    }

    constructor ()
      ensures Valid() && patches == map[]
      ensures GetCurrentPatchId() == 0 && GetCurrentPatchId() !in patches
    {
      patches := map[];
      currentPatchId := 0;
    }

    function GetCurrentPatchId(): int32
      reads this
    {
      currentPatchId
    }

    /**
     * Adds a patch under its id; refused, leaving the map as it was, when the id is already
     * taken. Other reasons for a refusal are left open.
     */
    method AddPatch(patch: Patch) returns (added: bool)
      requires Valid()
      modifies this`patches
      ensures Valid()
      ensures patch.GetId() in old(patches) ==> !added
      ensures patches == if added then old(patches)[patch.GetId() := patch] else old(patches)
    {
      if patch.GetId() in patches {
        return false;
      }
      patches := patches[patch.GetId() := patch];
      added := true;
    }

    /** The scripting entry point: delegates to `AddPatch` and returns what it returns. */
    method AddPatchWrapper(patch: Patch) returns (added: bool)
      requires Valid()
      modifies this`patches
      ensures Valid()
      ensures patch.GetId() in old(patches) ==> !added
      ensures patches == if added then old(patches)[patch.GetId() := patch] else old(patches)
    {
      added := AddPatch(patch);
    }

    /**
     * Makes the patch with this id the current one; true iff such a patch exists. What
     * happens to the current id on failure is left open.
     */
    method SetCurrentPatch(newId: int32) returns (ok: bool)
      modifies this`currentPatchId
      ensures ok <==> newId in patches
      ensures ok ==> GetCurrentPatchId() == newId
      ensures ok && Valid() ==> patches[GetCurrentPatchId()].GetId() == newId
    {
      if newId !in patches {
        return false;
      }
      currentPatchId := newId;
      ok := true;
    }

    /**
     * Finds a species with this name in any patch, preferring one in the current patch:
     * None iff no patch has one, and a species of the current patch whenever the current
     * patch has one.
     */
    method FindSpeciesByName(speciesName: string) returns (r: Option<Species>)
      ensures r.None? <==> forall id :: id in patches ==> !patches[id].HostsSpeciesNamed(speciesName)
      ensures r.Some? ==>
        r.value.name == speciesName && exists id :: id in patches && patches[id].Hosts(r.value)
      ensures currentPatchId in patches && patches[currentPatchId].HostsSpeciesNamed(speciesName) ==>
        r.Some? && patches[currentPatchId].Hosts(r.value)
    {
      if currentPatchId in patches {
        r := patches[currentPatchId].SearchSpeciesByName(speciesName);
        if r.Some? {
          return;
        }
      }
      var unvisited := patches.Keys;
      while unvisited != {}
        invariant unvisited <= patches.Keys
        invariant forall id :: id in patches && id !in unvisited ==> !patches[id].HostsSpeciesNamed(speciesName)
        invariant currentPatchId in patches ==> !patches[currentPatchId].HostsSpeciesNamed(speciesName)
        decreases unvisited
      {
        var id :| id in unvisited;
        r := patches[id].SearchSpeciesByName(speciesName);
        if r.Some? {
          return;
        }
        unvisited := unvisited - {id};
      }
      r := None;
    }
  }
}
