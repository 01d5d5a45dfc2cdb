# Clean sub-warp speed probe, bitmap cache and module removal command

A Dafny model of three pieces of a starship-fitting desktop application:

- **The warp-time graph** (`gui/builtinGraphs/fitWarpTime.py`). It covers
  the distance unit conversions of the graph inputs (AU and km to metres and
  back, and the distance limiter). It also covers the probe that measures a
  fit's *clean* sub-warp speed. The probe switches off every speed-changing
  effect and records the old state of each entity it touches. The effects are
  propulsion, mass-entangler and cloaking modules at ACTIVE or above, active
  projection links, non-exclusive projected modules at ACTIVE or above,
  active projected drones and active projected fighters. The probe then
  recalculates the fit, reads and caches the speed per fit ID, writes every
  recorded state back and recalculates again. The fit is a class whose five
  entity collections are arrays updated in place. The simulation engine that
  derives the maximum velocity from the entity states is an uninterpreted
  function `engine`. A ghost log records every recalculation and the state
  it saw.
- **The bitmap loader** (`gui/bitmap_loader.py`). It covers the file-name
  rule for the scaled variants of an image (`<name>@<scale>x.png`, with
  `<name>.png` as the fallback at scale 1). It covers the search from the
  display's resolution scale down to 1 for the largest variant that loads.
  It covers the bounded (500 entries) insertion-ordered bitmap cache: it
  evicts its oldest entry when full, before looking the key up, and a hit
  does not move the entry, so the order is first-in first-out. It also
  covers the switch that bypasses the cache. The image store is a function
  from file name and location to an optional image.
- **The local-module removal command**
  (`gui/fitCommands/calc/module/localRemove.py`). `Do` frees the listed slots
  of a fit's slot array that hold a module when reached. It records each
  removed module's info under its position, in an insertion-ordered
  dictionary modelled as a map plus its key order. `Do` reports whether
  anything is recorded. `Undo` issues one non-committing replace call per
  record, in insertion order, and reports whether any of them succeeded.
  Database commits and replace calls are ghost logs.

Modules: `Wrappers` (the `Option` type), `WarpTime`, `Bitmaps`,
`LocalRemove`, one file each.

## Model

| member | source | states |
|---|---|---|
| WarpTime.DenormalizeNormalize | gui/builtinGraphs/fitWarpTime.py:55-64 | Over exact reals, converting a distance shown in AU or km to metres and back gives the distance back. |
| WarpTime.NormalizeDenormalize | gui/builtinGraphs/fitWarpTime.py:55-64 | Converting metres to AU or km and back to metres gives the distance back. |
| WarpTime.DistanceLimitsInMeters | gui/builtinGraphs/fitWarpTime.py:59-60 | The limiter runs from 0 to the fit's maximum warp distance converted from AU to metres. Shown in AU, its upper end is that maximum distance. For a non-negative distance the range is not empty. |
| WarpTime.RestoreUndoesNeutralise | gui/builtinGraphs/fitWarpTime.py:84-122 | For one category, writing back the recorded values after the switch-off pass gives back every entity unchanged. This needs writing back an old value to undo the neutral write. |
| WarpTime.NeutralisedIsClean | gui/builtinGraphs/fitWarpTime.py:84-111 | At the measurement the fit is fully neutral. No speed-group module and no non-exclusive projected module is at ACTIVE or above. No link is active, no drone stack has an active drone, and no fighter is active. |
| WarpTime.NeutraliseWritesOnlySelected | gui/builtinGraphs/fitWarpTime.py:84-109 | The switch-off pass leaves every unselected entity as it was. It sets selected local and projected modules to exactly ONLINE and active drones to 0. It turns links and fighters inactive. It keeps every collection's length. |
| WarpTime.NeutraliseCleanIsIdentity | gui/builtinGraphs/fitWarpTime.py:84-109 | A fit with nothing to switch off is measured in the state it is in. |
| WarpTime.RestoredUndoesNeutralised | gui/builtinGraphs/fitWarpTime.py:84-122 | For the whole fit, writing back all five records after switching everything off gives back the fit exactly as it was. |
| WarpTime.Neutralise | gui/builtinGraphs/fitWarpTime.py:84-109 | One switch-off loop, in place. Afterwards the array holds the neutralised entities. The returned record maps the position of every selected entity to that entity's old field value, and holds nothing else. |
| WarpTime.Restore | gui/builtinGraphs/fitWarpTime.py:113-122 | One restoring loop, in place. Every recorded position gets its recorded value back, and every other entity is untouched. |
| WarpTime.Fit.SwitchOffSpeedEffects | gui/builtinGraphs/fitWarpTime.py:84-109 | The five switch-off loops. The fit ends in the neutralised state, and the records are the snapshots of its old state. |
| WarpTime.Fit.RestoreSpeedEffects | gui/builtinGraphs/fitWarpTime.py:113-122 | The five restoring loops, links first. The fit ends in its state with every record written back. |
| WarpTime.Fit.CalculateModifiedAttributes | gui/builtinGraphs/fitWarpTime.py:110-111 | A recalculation sets the ship's maximum velocity to the engine's value for the current entity states, and logs that state. |
| WarpTime.FitWarpTimeGraph.GetSubwarpSpeed | gui/builtinGraphs/fitWarpTime.py:80-124 | On a hit it returns the cached speed and changes no entity, cache entry, velocity or recalculation. On a miss it returns the engine's speed for the neutralised fit and caches it under the fit ID. It recalculates exactly twice, first on the neutralised state and then on the original state. Either way every entity ends as it started. |
| Bitmaps.LoadScaledBitmap | gui/bitmap_loader.py:116-133 | The scale defaults to 1. The scaled name is tried first. The plain name is used exactly when the scale is 1 and the scaled name loads nothing. The returned image is the one stored under the returned name, which is the last name tried. An image is found iff the scaled name loads, or the scale is 1 and the plain name loads. |
| Bitmaps.CountDownIsLargest | gui/bitmap_loader.py:97-107 | Counting down from a scale finds the largest accepted scale between 1 and that scale. It finds nothing only when no scale in that range is accepted. |
| Bitmaps.FindScale | gui/bitmap_loader.py:97-107 | The scale the loader settles on loads, lies between 1 and the resolution scale, and no larger scale up to the resolution scale loads. With no result, no scale from 1 to the resolution scale loads. |
| Bitmaps.BitmapLoader.LoadBitmap | gui/bitmap_loader.py:92-107 | The scale-descending loop returns the bitmap of the variant at the largest available scale, or nothing when no scale loads. |
| Bitmaps.OrderedKeysCount | gui/bitmap_loader.py:72 | The cache holds exactly as many entries as its key order lists, so testing the order's length is testing the dictionary's size. |
| Bitmaps.CachedGetKeepsCache | gui/bitmap_loader.py:70-81 | A cached lookup keeps the keys distinct and in step with the entries. It leaves the key mapped to the returned bitmap. A cache within its capacity stays within it, counted by entries and by key order alike. |
| Bitmaps.CachedGetHit | gui/bitmap_loader.py:75-79 | A hit that the eviction did not remove returns the stored bitmap without loading. It leaves the entries and their key order as the eviction left them. |
| Bitmaps.CachedGetMiss | gui/bitmap_loader.py:75-77 | A miss loads the bitmap, returns it, and appends its key at the newest end. It stores the bitmap under the key and keeps every other entry the eviction left. |
| Bitmaps.CachedGetFullEvictsOldest | gui/bitmap_loader.py:72-77 | A full cache drops its oldest entry before the lookup. A request for that oldest key is therefore reloaded and becomes the newest. |
| Bitmaps.CacheKeyCollision | gui/bitmap_loader.py:70 | The key is the name and location written one after the other. Any two requests whose name and location run together to the same text share an entry: once one is cached, the other is a hit that returns the same bitmap without loading, unless the eviction drops that entry first. |
| Bitmaps.BitmapLoader.constructor | gui/bitmap_loader.py:49-54 | The loader starts with an empty cache, caching switched on. |
| Bitmaps.BitmapLoader.GetBitmap | gui/bitmap_loader.py:66-81 | With the bypass flag set, it returns the loader's result and leaves the cache untouched. Otherwise the cache takes exactly one cached-lookup step on the key name + location: evict when the cache holds 500 entries, then hit or load-and-append. The loader is called only on a miss. |
| LocalRemove.FreedPositions | gui/fitCommands/calc/module/localRemove.py:25-29 | A position is freed iff it is listed and its slot held a module to begin with. |
| LocalRemove.FreedDistinct | gui/fitCommands/calc/module/localRemove.py:25-29 | No position is freed twice: a repeated position finds its slot already empty. |
| LocalRemove.FreedInfosContents | gui/fitCommands/calc/module/localRemove.py:25-28 | A record exists for a position iff it is listed and its slot held a module. The record holds the info of the module the slot held before the removal. |
| LocalRemove.ClearedContents | gui/fitCommands/calc/module/localRemove.py:25-29 | After the removal every listed slot is empty and every other slot holds what it held. |
| LocalRemove.RecordedIffOccupied | gui/fitCommands/calc/module/localRemove.py:25-34 | After a removal something is recorded iff something was recorded before or a listed slot held a module. |
| LocalRemove.ConsistentAssign | gui/fitCommands/calc/module/localRemove.py:28 | Assigning to a dictionary key keeps every key listed once: a new key goes last, an existing key keeps its place. |
| LocalRemove.ReplaceCallsCoverRecords | gui/fitCommands/calc/module/localRemove.py:38-42 | Undo's replace calls name exactly the recorded positions, none twice. Each carries the fit ID and the info recorded for its position, and none of them commits. |
| LocalRemove.CalcRemoveLocalModuleCommand.constructor | gui/fitCommands/calc/module/localRemove.py:14-19 | The command keeps fit ID, positions and commit flag, which defaults to committing, and starts with no records. |
| LocalRemove.CalcRemoveLocalModuleCommand.FreeListed | gui/fitCommands/calc/module/localRemove.py:25-29 | The removal loop, in place. The slots end as the listed positions freed in turn. The records gain the infos of the freed modules, and the key order gains the freed positions in the order they were freed. |
| LocalRemove.CalcRemoveLocalModuleCommand.Do | gui/fitCommands/calc/module/localRemove.py:21-34 | Every listed slot ends empty and every other slot is untouched. The records are the old records plus one per freed slot. The result is true iff something is recorded, that is, iff something was recorded before or a listed slot held a module. It commits once iff the commit flag is set. |
| LocalRemove.CalcRemoveLocalModuleCommand.Undo | gui/fitCommands/calc/module/localRemove.py:36-45 | It issues one non-committing replace per record, in insertion order, and keeps the records. The result is true iff some record's replace succeeds, so it is false when nothing is recorded. It commits once iff the commit flag is set. |

## Left out

- `calculate_time_in_warp` (fitWarpTime.py:130-157) is left out: it is floating-point arithmetic built on a natural logarithm.
- `_distance2time` and `_iterLinear` are left out: the distance sampler lives in a base class that is not part of this model. Note that `_distance2time` passes the sub-warp speed first (fitWarpTime.py:72), while `calculate_time_in_warp` takes the warp speed first (fitWarpTime.py:130).
- The graph's UI definitions, its registration and its constructor (fitWarpTime.py:34-35) are left out. The graph base class that owns `_calcCache` is not part of this model. The constructor of `FitWarpTimeGraph` here stands for that base class setting up an empty cache, which is a field of the graph.
- The simulation engine (`calculateModifiedAttributes`, `getModifiedItemAttr('maxVelocity')`) is the uninterpreted function `engine` of the entity states.
- Python floats are modelled as exact reals, so rounding in the unit conversions is not modelled.
- Entities are identified by their position in the fit's collections. The source keys its snapshot dictionaries by entity object, and the model restores in ascending position order, the order in which the dictionaries were filled.
- WarpTime.FitWarpTimeGraph.GetSubwarpSpeed: the probe is not exception-safe in the source; an exception from the engine would leave the fit neutralised. The model's engine is total, so that path is not modelled.
- The wx calls are left out: `getStaticBitmap`, `getImage`, the bitmap construction, and the fractional `extraScale` resize. A bitmap is the image together with the scale it was found at.
- The computation of `gen_scale` and `res_scale` from the platform or the window is left out; `resScale` is a constant of the loader.
- `loadImage` is left out. Its zip archive and file-system reads, the archive opened at import time and the logging become a function from file name and location to an optional image.
- Bitmap names are strings; the source also accepts integer type IDs, which it formats the same way.
- `eos.db.commit` is a ghost commit counter. `Fit.getInstance().getFit` is replaced by passing the fit's slot array to `Do`.
- `ModuleInfo.fromModule` is an uninterpreted function passed to `Do`.
- `fit.modules.free` empties exactly the given slot.
- The replace command is not part of this model. Its outcome is a function of the call passed to `Undo`, its effect on the fit is not modelled, and no Do/Undo round trip is claimed.
- Positions must name existing slots; the source raises an IndexError otherwise. Python's negative indices are not modelled.
