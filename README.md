# Thrive: compound validation, chart markers, patch maps

A Dafny model of three small, independent pieces of the Thrive simulation game:

- **Compounds** (`compound.dfy`, module `Compounds`): the registry record `Compound`. Its
  `Check` applies four rules in order — the display name is present, the colour's alpha is 1
  (after an alpha of exactly 0 has been taken as "unset" and replaced by 1), the colour is
  not black, the volume is positive — and the first rule that fails decides the error. The
  alpha coercion is the only change it makes. Equality and hash depend on the internal name
  alone. The rules' reference semantics is `FirstViolation`, "the first rule of a list that
  does not hold"; `Verdict` instantiates it with the four rules and characterises every
  outcome exactly, and the imperative `Check` is proved to agree with it.
- **Charts** (`datapoint.dfy`, module `Charts`): the chart marker `DataPoint`. The `Size`
  setter derives a hit box 10 units larger than the glyph; the `Coordinate` setter centres
  the current hit box on the coordinate; pointer enter and exit toggle the hover flag; and
  `DrawCommands` gives the draw calls one repaint makes, as values.
- **Patches** (`patch.dfy`, module `Patches`): `Patch` (an id fixed at construction, a set
  of neighbour ids, a list of species entries with populations) and `PatchMap` (patches keyed
  by id, and a current patch id). `patch.h` declares these members; the contracts follow
  its doc-comments, not the bodies in the implementation file. What the doc-comments leave open stays open, and the method bodies are one
  implementation the contracts admit. The constructors' empty collections come from the
  default-initialised members (`patch.h:91`, `:95`, `:172`) and a `Patch` constructor that
  takes no species or neighbours; the frames say which member each operation updates.

Shared value types: `primitives.dfy` (`Option` for nullable references and strings,
`Outcome` for a thrown error, `int32`, `Abs`) and `godot.dfy` (the toolkit's `Vector2`,
`Color` and `Rect2`, with floats as reals).

Foreign code becomes parameters: `Compound.GetHashCode` takes the string hash as
`stringHash`, and `DataPoint.DrawCommands` takes `Color.Lightened` as `lightened`.
`MathUtils.EPSILON` is the constant `EPSILON`, known only to be positive; the two example
lemmas that need "green is not black" assume in addition that it is at most 1.

- Only the `Coordinate` setter centres the hit box on the coordinate; a later `Size`
  assignment changes the box's extent but keeps its origin, so the centre moves off the
  coordinate (`ResizeAfterPlacingMovesCentre`).
- The `Size` setter does not clamp, so `SetSize` keeps a negative size.
- `MarkerIcon` has two values, so the `default: throw` branch of `_Draw` cannot be reached.

## Model

| member | source | states |
|---|---|---|
| `Compounds.FirstViolation` | src/microbe_stage/Compound.cs:39-73 | None iff every rule holds; otherwise the violation of a rule that fails while every earlier rule holds (early-exit guards in order) |
| `Compounds.CoerceAlpha` | src/microbe_stage/Compound.cs:47-51 | an alpha of exactly 0 becomes 1, any other colour is kept, and only alpha can change; the result's alpha is never 0 |
| `Compounds.Verdict` | src/microbe_stage/Compound.cs:39-73 | accepted iff the name is present, the coerced alpha is within EPSILON of 1, the colour is not black and the volume is positive; each error is reported iff all earlier rules pass and its own fails |
| `Compounds.ColourAfterCheck` | src/microbe_stage/Compound.cs:41-51 | the colour is untouched when the name rule fails or alpha is not 0; otherwise only alpha changes |
| `Compounds.Report` | src/microbe_stage/Compound.cs:43-69 | no exception iff the verdict accepts; otherwise the exception carries the entry name, the type name "Compound" and the violated rule |
| `Compounds.Compound.constructor` | src/microbe_stage/Compound.cs:17-37 | a new record has null names, zero volume, cleared flags and the all-zero colour |
| `Compounds.Compound.Check` | src/microbe_stage/Compound.cs:39-73 | throws exactly what `Verdict` of the fields decides; changes nothing but the colour, and the colour only as `ColourAfterCheck` says |
| `Compounds.Compound.GetHashCode` | src/microbe_stage/Compound.cs:85-88 | 0 for a null internal name, else the string hash of it; reads no other field |
| `Compounds.Compound.Equals` | src/microbe_stage/Compound.cs:90-98 | reflexive on the same object, false for null; reads the internal names and no other field |
| `Compounds.MissingNameFailsFirst` | src/microbe_stage/Compound.cs:41-45 | a null or empty name fails on the name whatever the colour and volume, and the colour is not coerced |
| `Compounds.ZeroAlphaNeverFailsAlpha` | src/microbe_stage/Compound.cs:47-57 | an alpha of exactly 0 never fails the alpha rule, and becomes 1 once the name rule passes |
| `Compounds.RecheckIsStable` | src/microbe_stage/Compound.cs:39-73 | a second `Check` on the state the first left reaches the same verdict and changes nothing |
| `Compounds.RecheckAfterSuccess` | src/microbe_stage/Compound.cs:39-73 | after a successful `Check`, a second one also succeeds, changes nothing, and alpha is within EPSILON of 1 |
| `Compounds.OpaqueBlackFails` | src/microbe_stage/Compound.cs:59-64 | named, opaque (0,0,0,1) with volume 1 fails as black |
| `Compounds.UnsetAlphaGreenAccepted` | src/microbe_stage/Compound.cs:47-73 | "Glucose" with colour (0,1,0,0) and volume 1 is accepted and leaves with colour (0,1,0,1) |
| `Compounds.ZeroVolumeFails` | src/microbe_stage/Compound.cs:66-70 | a volume of 0 on an otherwise valid record fails on the volume |
| `Compounds.EqualsIsEquivalence` | src/microbe_stage/Compound.cs:90-98 | `Equals` is reflexive, symmetric and transitive |
| `Compounds.EqualsIffSameInternalName` | src/microbe_stage/Compound.cs:95-98 | two compounds are equal iff their internal names are, whatever their other fields |
| `Compounds.EqualsImpliesSameHash` | src/microbe_stage/Compound.cs:85-98 | equal compounds have equal hash codes for every string hash |
| `Charts.BoxOrigin` | src/gui_common/charts/DataPoint.cs:55-63 | the derived origin puts the box's centre on the coordinate |
| `Charts.GlyphRect` | src/gui_common/charts/DataPoint.cs:107-137 | the glyph rectangle is size by size and centred in the hit box |
| `Charts.GlyphInsideHitBox` | src/gui_common/charts/DataPoint.cs:75-76 | with the padded hit box the glyph's origin is (5,5) for every size; for a non-negative size the glyph lies inside the box with a 5-unit margin on every side |
| `Charts.ResizeKeepsCentreIffSameBox` | src/gui_common/charts/DataPoint.cs:55-78 | a placed box stays centred on its coordinate after its extent changes iff the extent is the same |
| `Charts.ResizeAfterPlacingMovesCentre` | src/gui_common/charts/DataPoint.cs:55-78 | assigning a different size after the coordinate moves the box's centre off the coordinate |
| `Charts.DataPoint.constructor` | src/gui_common/charts/DataPoint.cs:22-26 | size 7, hit box (17,17), circle icon, drawing on, not hovered, default colours, zero value |
| `Charts.DataPoint.WithValue` | src/gui_common/charts/DataPoint.cs:28-33 | as the default constructor, with value (x, y) |
| `Charts.DataPoint.SetCoordinate` | src/gui_common/charts/DataPoint.cs:55-63 | stores the coordinate and centres the current hit box on it; changes no other field |
| `Charts.DataPoint.SetSize` | src/gui_common/charts/DataPoint.cs:68-78 | stores any size, negative included, and sets the hit box to size + 10 each way; coordinate and origin unchanged |
| `Charts.DataPoint.OnMouseEnter` | src/gui_common/charts/DataPoint.cs:151-156 | hovered afterwards whatever before; changes no other field |
| `Charts.DataPoint.OnMouseExit` | src/gui_common/charts/DataPoint.cs:158-163 | not hovered afterwards whatever before; changes no other field |
| `Charts.DataPoint.DrawCommands` | src/gui_common/charts/DataPoint.cs:102-144 | nothing when drawing is off; else the shape's glyph texture last, in the glyph rectangle; a circle first gets a disc coinciding with the glyph, in the highlighted fill when hovered; a cross gets no disc and is tinted lightened by 0.5 when hovered |
| `Patches.Patch.constructor` | src/microbe_stage/patch.h:25 | the id is the one given (and, being a constant, stays so); no species, no neighbours |
| `Patches.Patch.AddNeighbour` | src/microbe_stage/patch.h:28-31 | true iff the id was not yet a neighbour; afterwards it is one, and nothing else is added |
| `Patches.Patch.SearchSpeciesByName` | src/microbe_stage/patch.h:40-42 | None iff no entry has that name; otherwise a species of the patch with that name |
| `Patches.Patch.AddSpecies` | src/microbe_stage/patch.h:44-48 | appends the species with the population (100 by default) when added; a species already present is refused; a refusal changes nothing |
| `Patches.Patch.AddSpeciesWrapper` | src/microbe_stage/patch.h:74-78 | the same contract as `AddSpecies`, whose result it returns |
| `Patches.PatchMap.constructor` | src/microbe_stage/patch.h:102 | no patches, current id 0, which names no patch |
| `Patches.PatchMap.AddPatch` | src/microbe_stage/patch.h:105-109 | a duplicate id is refused and leaves the map as it was; success stores the patch under its id; every patch stays under its own id |
| `Patches.PatchMap.AddPatchWrapper` | src/microbe_stage/patch.h:136-140 | the same contract as `AddPatch`, whose result it returns |
| `Patches.PatchMap.SetCurrentPatch` | src/microbe_stage/patch.h:122-125 | true iff a patch has that id; on success the current id is that id and, with every patch stored under its own id, names the patch with that id |
| `Patches.PatchMap.FindSpeciesByName` | src/microbe_stage/patch.h:111-117 | None iff no patch has a species with that name; a found species has that name and is in some patch, and is from the current patch whenever the current patch has one |

`Patch.GetId`, `Patch.GetName`, `Patch.GetSpecies`, `PatchMap.GetCurrentPatchId`,
`DataPoint.Coordinate` and `DataPoint.Size` are the source's inline getters and carry no
contract of their own.

## Left out

- Exception messages of `InvalidRegistryDataException`: the model reports which rule failed, not the wording.
- The translation calls: `Check` ends, on success, with a call into the translation helper, and `ApplyTranslations`, the reflection-filled `untranslatedName` and the type-converter attribute are foreign reflection code; none is modelled.
- `ToString` of `Compound` and `DataPoint`: string formatting of toolkit values that are not part of this model.
- `Equals(object)` with an argument of another type: the model's argument is a `Compound` or null.
- Floating point: floats are reals, so rounding, NaN and signed zero are not modelled; the exact `== 0` alpha test is real equality.
- `_Ready`: texture loading, signal wiring and repaint requests (`Update()`) are toolkit calls; the draw calls are command values, and the toolkit's own clamping of a control's extent is not modelled.
- The `default: throw` branch of `_Draw` is dead code: `MarkerIcon` has exactly two values.
- `Color.Lightened` is a parameter of `DrawCommands`, not a definition.
- Reference counting and raw-pointer wrappers (`AddRef`, `WrapPtr`, `getCurrentPatchWrapper`, `getPatchWrapper`, `findSpeciesByNameWrapper`): memory management only.
- `getPatch` and `getCurrentPatch`: `patch.h` gives them no doc-comment, and their bodies in the implementation file are not part of this model, so what they return for a missing id is not modelled.
- Null `Species` and `Patch` pointers: the model's references cannot be null.
- Biomes and species contents (`getBiome`, the species' fields other than its name): their definitions are not part of this model.
- `Patches.Patch.AddSpecies`: does not decide whether "already in this patch" compares species objects or names, because the doc-comment does not say; the body compares names.
- `Patches.PatchMap.AddPatch`: does not promise success for a new id, because the doc-comment allows "some other problem" to refuse it.
- `Patches.PatchMap.SetCurrentPatch`: does not say what happens to the current id on failure, because the doc-comment does not.
- `Patches.Patch.SearchSpeciesByName`, `Patches.PatchMap.FindSpeciesByName`: do not say which match is returned when several species share a name, because the doc-comments do not.
