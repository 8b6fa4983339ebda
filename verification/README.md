# The OCaml stubs of the DGFiP tax engine, modelled in Dafny

`examples/dgfip_c/ml_primitif/stubs.c` sits between OCaml and a generated C
tax engine. It does four things:

- **Classification converters.** `convert_genre`, `convert_type` and
  `convert_nature` decode the raw codes of the generated descriptor records.
  Any other code ends the process.
- **Code index.** `add_var_to_index` appends to a growable buffer of
  (code, slot) pairs. `sort_index` sorts it in place with a quicksort in
  `strcmp` order. `cherche_var` searches it by bisection.
- **Variable registry.** `init_var_dict` builds it once:
  - it fills the fixed slot array `var[TAILLE_TOTALE]` from six input
    descriptor tables, the debug table and the restituée table;
  - it spreads each array variable over the slots that follow its head;
  - it sorts the index.

  `ml_charge_vars` reports every slot.
- **Bridge and dispatch.**
  - `convert_tgv_to_c` writes a list of (code, element, value) overrides into
    the engine's state vector through the index.
  - `convert_tgv_to_ml` reads every slot back.
  - `ml_exec_ench` and `ml_exec_verif` run a chain or a verification chosen
    by name between the two.

The Dafny project follows that structure:

| file | module | contents |
|---|---|---|
| `wrappers.dfy` | `Wrappers` | `Option`, `Result`, and `Outcome` (pass, or fail with an error) |
| `cstrings.dfy` | `CStrings` | codes as character sequences; the sign of `strcmp` as `Cmp`, with its laws (zero iff equal, antisymmetry, transitivity) |
| `kinds.dfy` | `Kinds` | the enumerations; the engine constants as a `Conf` record; the converters; the faults that stand for `exit(1)` |
| `index.dfy` | `Index` | the quicksort over an `array<Entry>`; the bisection as a function; the class `VarIndex` (the buffer and its counters) |
| `registry_spec.dfy` | `RegistrySpec` | every pass of `init_var_dict` as a function over the slots and the index entries, with the lemmas saying what each pass may change |
| `registry.dfy` | `Registry` | the class `Registry` (slot array, index, once-only flag); each pass is a loop proved equal to its function |
| `bridge.dfy` | `Bridge` | the state vector as a class over a map from cells to values; both conversions, as functions and as loops; the round trip |
| `dispatch.dfy` | `Dispatch` | the two name tables, the name scan, and the entry points `ml_exec_ench` and `ml_exec_verif` |

Each imperative operation is a method whose `ensures` ties the new state, or
its result, to a specification function of the old state. The properties of
the operation are then lemmas about that function. A fatal error is a
`Fault` value: the process ends there, so the model says nothing about the
state left behind.

## Model

All source cells refer to `examples/dgfip_c/ml_primitif/stubs.c`.

| member | source | states |
|---|---|---|
| Kinds.ConvertGenre | examples/dgfip_c/ml_primitif/stubs.c:185-196 | yields genre g exactly when `indice & EST_MASQUE` is g's tag; fails exactly when the tag is none of the three, with a fault naming the tag |
| Kinds.ConvertType | examples/dgfip_c/ml_primitif/stubs.c:198-217 | yields type t exactly when the code is one of t's codes: BOOLEEN for booleans, ENTIER or REEL for reals, the five DATE_* codes for dates; fails on any other code, with a fault naming it |
| Kinds.ConvertTypeOnto | examples/dgfip_c/ml_primitif/stubs.c:198-217 | every value type is produced by some code |
| Kinds.ConvertNature | examples/dgfip_c/ml_primitif/stubs.c:219-230 | yields nature n exactly when the code is n's code (-1, 0, 1); fails exactly on codes outside {-1, 0, 1}, with a fault naming the code |
| Index.VarIndex.constructor | examples/dgfip_c/ml_primitif/stubs.c:177-179 | the index starts unallocated and empty, with a buffer of its own |
| Index.VarIndex.Add | examples/dgfip_c/ml_primitif/stubs.c:232-251 | succeeds exactly when code and variable are non-NULL; then the contents are the old contents plus the new pair at the end; otherwise nothing changes. The first call allocates 1024 entries. A full buffer is replaced by one a quarter larger; a buffer with room is kept |
| Index.ClimbLow | examples/dgfip_c/ml_primitif/stubs.c:262-263 | the left scan stops at `last` or at the first entry above the pivot, having passed only entries at most the pivot |
| Index.DescendHigh | examples/dgfip_c/ml_primitif/stubs.c:264-265 | the right scan passes only entries above the pivot and stops on one at most the pivot, never left of the pivot |
| Index.PartitionRound | examples/dgfip_c/ml_primitif/stubs.c:261-271 | one round of the outer loop keeps the partition invariant and makes `i` advance |
| Index.Partition | examples/dgfip_c/ml_primitif/stubs.c:257-274 | the pivot ends at `j`; entries before it are at most its code, entries after it are above; the range keeps its multiset; the rest is untouched |
| Index.QuickSortOrder | examples/dgfip_c/ml_primitif/stubs.c:257-277 | partitioning, then sorting both sides, leaves the whole range in order |
| Index.QuickSortPerm | examples/dgfip_c/ml_primitif/stubs.c:257-277 | partitioning, then sorting both sides, keeps the range's multiset |
| Index.QuickSortStep | examples/dgfip_c/ml_primitif/stubs.c:257-277 | the recursive case yields a sorted permutation of the range that leaves the outside alone |
| Index.SortAux | examples/dgfip_c/ml_primitif/stubs.c:253-278 | positions first..last become sorted by `strcmp` and are a permutation of what they held; every other position is unchanged |
| Index.ShortRangeUnchanged | examples/dgfip_c/ml_primitif/stubs.c:253-278 | a sorted permutation of a range of at most one entry is the identity: `first >= last` is a no-op |
| Index.VarIndex.Sort | examples/dgfip_c/ml_primitif/stubs.c:280-283 | the contents become sorted and a permutation of the old contents; with at most one entry nothing changes |
| Index.Search | examples/dgfip_c/ml_primitif/stubs.c:560-579 | the bisection: a slot it returns belongs to an entry of the range whose code is the key |
| Index.SearchComplete | examples/dgfip_c/ml_primitif/stubs.c:560-579 | on a sorted range the bisection finds every key that occurs in it |
| Index.SearchFinds | examples/dgfip_c/ml_primitif/stubs.c:560-579 | on a sorted index every present code is found |
| Index.SearchSound | examples/dgfip_c/ml_primitif/stubs.c:560-579 | a found slot comes with an entry (key, slot) of the index |
| Index.VarIndex.Find | examples/dgfip_c/ml_primitif/stubs.c:560-579 | the loop computes the bisection; a result is the slot of an entry with that code; on a sorted index holding the key the result is not NULL; an empty index gives NULL |
| RegistrySpec.Initial | examples/dgfip_c/ml_primitif/stubs.c:170 | TAILLE_TOTALE slots, none with a code or a descriptor; an empty index |
| RegistrySpec.SlotId | examples/dgfip_c/ml_primitif/stubs.c:475-477 | a slot lies at or after the start of its genre's zone (input slots from 0, computed slots from TAILLE_SAISIE, base slots from TAILLE_SAISIE + TAILLE_CALCULEE), and inside the zone when the masked position is below the zone's size |
| RegistrySpec.SlotIdZones | examples/dgfip_c/ml_primitif/stubs.c:475-477 | positions inside their zones give the same slot exactly when genre and position agree: records of different genres never share a slot |
| RegistrySpec.ZonesDisjoint | examples/dgfip_c/ml_primitif/stubs.c:475-477 | the input, computed and base zones are laid end to end, so a position inside one zone never lands in another |
| RegistrySpec.InputVar | examples/dgfip_c/ml_primitif/stubs.c:293-470 | the slot an input record yields: succeeds exactly when its type converts and its nature code (modcat for the context table, -1 for variation and penalty) is valid; the slot has no code, the record's name as alias, input genre, the table's domain, this record as descriptor, `indice_tab` -1 and is not reported; its type and nature are what the converters give, and `ind_abat` is true for the variation and penalty tables |
| RegistrySpec.InputStep | examples/dgfip_c/ml_primitif/stubs.c:294-319 | one record of an input table: on success the slot array keeps its size and (alias, slot) is appended to the index |
| RegistrySpec.InputStepSpec | examples/dgfip_c/ml_primitif/stubs.c:293-320 | one input record succeeds exactly when its slot exists, has no descriptor and its codes convert; it then replaces that slot alone and appends (alias, slot) to the index |
| RegistrySpec.InputPass | examples/dgfip_c/ml_primitif/stubs.c:293-320 | an input-domain loop over its table, stopping at the first fault; on success the slot array keeps its size |
| RegistrySpec.InputPasses | examples/dgfip_c/ml_primitif/stubs.c:292-470 | the six input-domain loops in source order; on success the slot array keeps its size |
| RegistrySpec.InputPassFrame | examples/dgfip_c/ml_primitif/stubs.c:293-470 | an input pass never changes a slot that already had a descriptor, and appends the records' aliases to the index in table order |
| RegistrySpec.InputPassDescribes | examples/dgfip_c/ml_primitif/stubs.c:293-470 | after a successful input pass each record's slot points to that record |
| RegistrySpec.InputPassRejectsDuplicates | examples/dgfip_c/ml_primitif/stubs.c:293-470 | two records of one table with the same slot make the pass abort |
| RegistrySpec.ComputedVar | examples/dgfip_c/ml_primitif/stubs.c:495-521 | the slot a computed or base record yields: succeeds exactly when its type and nature convert; the slot has the record's name as code, no alias, the given genre, undefined domain, this record as descriptor, `indice_tab` -1 and is not reported |
| RegistrySpec.DebugStep | examples/dgfip_c/ml_primitif/stubs.c:473-522 | a debug record that succeeds has a valid genre and a slot inside the array |
| RegistrySpec.DebugStepInput | examples/dgfip_c/ml_primitif/stubs.c:478-494 | a debug record for an input slot succeeds exactly when the slot has a descriptor and an alias; if the name equals the alias nothing changes, otherwise the slot gets the name as code and the name is indexed |
| RegistrySpec.DebugStepComputed | examples/dgfip_c/ml_primitif/stubs.c:495-521 | a computed or base record succeeds exactly when its shifted slot exists, has no descriptor and its codes convert; it then fills that slot and indexes the name |
| RegistrySpec.DebugStepFrame | examples/dgfip_c/ml_primitif/stubs.c:473-522 | one debug record changes a described slot only by giving it a code; a slot it describes anew is a computed or base slot with a code; it only appends to the index |
| RegistrySpec.DebugPass | examples/dgfip_c/ml_primitif/stubs.c:473-522 | the debug-table loop, stopping at the first fault; on success the slot array keeps its size |
| RegistrySpec.DebugPassKeepsDescribed | examples/dgfip_c/ml_primitif/stubs.c:473-522 | the debug pass changes no described slot except by giving it a code |
| RegistrySpec.DebugPassCreatesComputed | examples/dgfip_c/ml_primitif/stubs.c:473-522 | every slot the debug pass describes anew is a computed or base slot with a code: it creates no input slot |
| RegistrySpec.DebugPassAppends | examples/dgfip_c/ml_primitif/stubs.c:473-522 | the debug pass only appends to the index |
| RegistrySpec.RestitueeStep | examples/dgfip_c/ml_primitif/stubs.c:525-537 | a restituée record succeeds exactly when its genre converts and its shifted slot exists and is described; it then sets that slot's flag and nothing else |
| RegistrySpec.RestitueePass | examples/dgfip_c/ml_primitif/stubs.c:525-537 | the restituée loop, stopping at the first fault; on success the slot array keeps its size |
| RegistrySpec.RestitueePassOnlyFlags | examples/dgfip_c/ml_primitif/stubs.c:525-537 | the restituée pass changes nothing but the flag and never clears it |
| RegistrySpec.RestitueePassFlagsRecords | examples/dgfip_c/ml_primitif/stubs.c:525-537 | after the pass every record's slot is flagged, and every slot flagged anew is some record's slot |
| RegistrySpec.HeadOf | examples/dgfip_c/ml_primitif/stubs.c:539-553 | the head of a slot's run is at or before it, has a code (or is slot 0), and no slot between them has a code |
| RegistrySpec.CompactSlot | examples/dgfip_c/ml_primitif/stubs.c:539-553 | a slot after compaction carries the code and the descriptor of the head of its run |
| RegistrySpec.Compacted | examples/dgfip_c/ml_primitif/stubs.c:539-553 | compaction keeps the number of slots |
| RegistrySpec.Build | examples/dgfip_c/ml_primitif/stubs.c:285-558 | the whole of a first `init_var_dict`: input passes, debug pass, restituée pass, then compaction; on success the slot array keeps its size |
| RegistrySpec.CompactKeepsHeads | examples/dgfip_c/ml_primitif/stubs.c:539-553 | a slot with a code keeps all but `indice_tab`; that becomes 0 exactly when the next slot has no code, and otherwise the slot is unchanged |
| RegistrySpec.CompactRun | examples/dgfip_c/ml_primitif/stubs.c:539-553 | in a run longer than one slot, every slot becomes a copy of the head numbered by its distance from it, and the head gets 0 |
| RegistrySpec.CompactAllCoded | examples/dgfip_c/ml_primitif/stubs.c:539-553 | when slot 0 has a code every slot has one after compaction |
| RegistrySpec.CompactOverwritesUncoded | examples/dgfip_c/ml_primitif/stubs.c:539-553 | a slot without code is overwritten by its head, descriptor included, with a positive `indice_tab` |
| RegistrySpec.Catalogue | examples/dgfip_c/ml_primitif/stubs.c:590-620 | the slot scan of `ml_charge_vars`, stopping at the first slot without a code; on success it lists exactly n slots |
| RegistrySpec.CatalogueOk | examples/dgfip_c/ml_primitif/stubs.c:590-620 | the slot scan succeeds exactly when every slot has a code, and then lists every slot's 16 fields, last slot first |
| RegistrySpec.CatalogueFault | examples/dgfip_c/ml_primitif/stubs.c:590-620 | a failing scan names the first slot without a code |
| Registry.Registry.constructor | examples/dgfip_c/ml_primitif/stubs.c:170-181 | the registry starts in the initial state, not loaded, with a slot array and an index of its own |
| Registry.Registry.InputRecord | examples/dgfip_c/ml_primitif/stubs.c:294-319 | one iteration of an input loop computes the input step on the state |
| Registry.Registry.LoadInputs | examples/dgfip_c/ml_primitif/stubs.c:293-320 | one input loop computes the input pass over its table |
| Registry.Registry.LoadAllInputs | examples/dgfip_c/ml_primitif/stubs.c:292-470 | the six input loops compute the six passes in order |
| Registry.Registry.DebugRecord | examples/dgfip_c/ml_primitif/stubs.c:474-521 | one iteration of the debug loop computes the debug step |
| Registry.Registry.LoadDebug | examples/dgfip_c/ml_primitif/stubs.c:473-522 | the debug loop computes the debug pass |
| Registry.Registry.LoadRestituee | examples/dgfip_c/ml_primitif/stubs.c:525-537 | the restituée loop computes the restituée pass |
| Registry.Registry.Compact | examples/dgfip_c/ml_primitif/stubs.c:539-553 | the nested while loops leave the slot array equal to the compaction of the old array |
| Registry.Registry.BuildSlots | examples/dgfip_c/ml_primitif/stubs.c:285-555 | the input, debug and restituée loops followed by the compaction compute `Build`: its fault, or its slots and unsorted index |
| Registry.Registry.InitVarDict | examples/dgfip_c/ml_primitif/stubs.c:285-558 | a second call changes nothing; a first call fails exactly when the build does, with its fault; on success the slots are the built slots and the index is sorted and a permutation of the built entries; the index buffer is the old one or newly allocated |
| Registry.Registry.ScanSlots | examples/dgfip_c/ml_primitif/stubs.c:590-620 | the slot scan loop computes the catalogue of all slots |
| Registry.Registry.ChargeVars | examples/dgfip_c/ml_primitif/stubs.c:581-623 | builds the registry if needed, then returns its catalogue, or the build's fault; an already built registry is left unchanged, and a first successful call leaves the built slots and a sorted permutation of the built index; the index buffer is the old one or newly allocated |
| Registry.Registry.Lookup | examples/dgfip_c/ml_primitif/stubs.c:560-579 | a lookup through the registry's index returns a slot inside the array whose entry has that code |
| Bridge.Tgv.constructor | examples/dgfip_c/ml_primitif/stubs.c:698-699 | a new state vector holds no value |
| Bridge.Tgv.Reset | examples/dgfip_c/ml_primitif/stubs.c:700-701 | a reset state vector holds no value |
| Bridge.Tgv.Store | examples/dgfip_c/ml_primitif/stubs.c:642-646 | a write sets one cell and leaves every other cell alone |
| Bridge.Tgv.Fetch | examples/dgfip_c/ml_primitif/stubs.c:665-668 | a read gives the cell's value, or NULL exactly when the cell holds none |
| Bridge.Tgv.Run | examples/dgfip_c/ml_primitif/stubs.c:720 | running a procedure replaces the vector by its image under the procedure |
| Bridge.Target | examples/dgfip_c/ml_primitif/stubs.c:642-646 | an override writes its variable's descriptor: the base cell for a negative element number, the element cell at that number otherwise |
| Bridge.TargetOf | examples/dgfip_c/ml_primitif/stubs.c:637-646 | an override resolves to a cell exactly when the index finds its code |
| Bridge.Apply | examples/dgfip_c/ml_primitif/stubs.c:633-648 | the overrides written in list order, stopping at the first unknown code; on success no cell that held a value loses it |
| Bridge.ApplyOk | examples/dgfip_c/ml_primitif/stubs.c:633-648 | writing the overrides succeeds exactly when every code is found; otherwise the fault names the first code not found |
| Bridge.ApplyKeeps | examples/dgfip_c/ml_primitif/stubs.c:633-648 | a cell no override targets keeps its value, or stays empty |
| Bridge.ApplyLastWins | examples/dgfip_c/ml_primitif/stubs.c:633-648 | a cell holds the value of the last override that targets it |
| Bridge.ConvertTgvToC | examples/dgfip_c/ml_primitif/stubs.c:625-651 | the loop writes the overrides in list order: a base cell for a negative element number, an element cell otherwise; it aborts on the first unknown code |
| Bridge.Source | examples/dgfip_c/ml_primitif/stubs.c:665-669 | a slot reads its descriptor's base cell for a negative `indice_tab`, the element cell at `indice_tab` otherwise |
| Bridge.Extract | examples/dgfip_c/ml_primitif/stubs.c:662-684 | the scan over slots, stopping at the first slot without a code; on success at most one item per slot |
| Bridge.PresentSlots | examples/dgfip_c/ml_primitif/stubs.c:662-684 | the slots with a code and a value, strictly descending, and exactly those |
| Bridge.ExtractOk | examples/dgfip_c/ml_primitif/stubs.c:662-684 | extraction succeeds exactly when every slot has a code, and otherwise names the first slot without one |
| Bridge.ExtractItems | examples/dgfip_c/ml_primitif/stubs.c:662-684 | on success there is one item per slot with a value, highest slot first, each with that slot's code, `indice_tab` and value |
| Bridge.ConvertTgvToMl | examples/dgfip_c/ml_primitif/stubs.c:653-687 | the loop reads each slot from the cell its `indice_tab` selects, prepending, and computes the extraction |
| Bridge.RoundTrip | examples/dgfip_c/ml_primitif/stubs.c:625-687 | a value written by an override that no later override shadows is reported by every coded slot that reads that cell |
| Bridge.ArrayElementCell | examples/dgfip_c/ml_primitif/stubs.c:662-667 | after compaction the slot at distance e from an array's head reads element e of the head's descriptor, and the head reads element 0 |
| Dispatch.FirstMatch | examples/dgfip_c/ml_primitif/stubs.c:708-718 | the first position holding the name, or none exactly when no entry holds it |
| Dispatch.FindByName | examples/dgfip_c/ml_primitif/stubs.c:708-718 | the `strcmp` scan returns the first matching position |
| Dispatch.ShadowedEntries | examples/dgfip_c/ml_primitif/stubs.c:66-80 | the second `sauve_base_inr_ntl` and the second `sauve_base_inr_tl` can never be selected |
| Dispatch.Exec | examples/dgfip_c/ml_primitif/stubs.c:698-722 | one call on a built registry: overrides written to an empty vector, the named procedure run, every slot read back; a success names a procedure of the table and reports at most one item per slot |
| Dispatch.ExecOk | examples/dgfip_c/ml_primitif/stubs.c:689-725 | a run on a built registry succeeds exactly when every override's code is indexed, the name is in the table and every slot has a code; it then reports the values the procedure left, highest slot first |
| Dispatch.Stubs.constructor | examples/dgfip_c/ml_primitif/stubs.c:170-183 | the registry starts in its initial state and there is no state vector; the registry, its slot array and its index are new objects |
| Dispatch.Stubs.RunProcedure | examples/dgfip_c/ml_primitif/stubs.c:698-722 | allocating or resetting the vector, writing, scanning for the name, running and reading back compute the run; the vector is allocated afterwards and, on success, holds the procedure's image of the written overrides; it is the old vector or a newly allocated one |
| Dispatch.Stubs.Execute | examples/dgfip_c/ml_primitif/stubs.c:689-725 | a first call fails with the build's fault, or leaves the built slots and a sorted permutation of the built index entries and returns the run on that registry; a later call leaves the registry unchanged and returns the run on it; the index buffer and the vector are the old ones or newly allocated |
| Dispatch.Stubs.ExecEnch | examples/dgfip_c/ml_primitif/stubs.c:689-725 | `ml_exec_ench`: as Execute, with the chain table; an unknown name is a fault naming the chain; the registry is built on the first call and unchanged afterwards |
| Dispatch.Stubs.ExecVerif | examples/dgfip_c/ml_primitif/stubs.c:727-764 | `ml_exec_verif`: as Execute, with the verification table; an unknown name is a fault naming the verification; the registry is built on the first call and unchanged afterwards |
| Dispatch.FirstExecEnch | examples/dgfip_c/ml_primitif/stubs.c:689-725 | the first `ml_exec_ench` of a process: the build's fault, or the run on the built slots and some sorted permutation of the built index entries |
| Dispatch.SecondExecEnch | examples/dgfip_c/ml_primitif/stubs.c:689-725 | two `ml_exec_ench` calls in one process: the first gives the build's fault, or both run on the same built slots and sorted index, the second reusing the first call's state vector |
| Dispatch.ChargeThenExecEnch | examples/dgfip_c/ml_primitif/stubs.c:581-725 | `ml_charge_vars` then `ml_exec_ench`: the build's fault, or the catalogue of the built slots followed by the run on those slots and a sorted permutation of the built index |

## Left out

- OCaml marshalling (`CAMLparam`, `caml_alloc_*`, `Store_field`, the `caml_alloc_some` shim): lists are sequences. Enumerations are datatypes, not their C integer values.
- The engine's state vector. `IRDATA_*` are external, so the vector is a map from cells to values. Values are an opaque type parameter, since they are only moved. The base cell of a variable and its element 0 are separate cells here. Bridge.ApplyKeeps, Bridge.ApplyLastWins and Bridge.RoundTrip rely on this. Take the overrides `[(X, -1, a), (X, 0, b)]`: the model keeps both values. If the engine stores a base value in element 0, the second write overwrites the first, and those lemmas do not describe that engine.
- The chain and verification procedures, and the `verif_saisie_cohe_primitive_isf` stub. They are external engine code, so each is a function on the state vector, given as a parameter. The discrepancy list a verification returns is dropped, as in the source.
- The contents of the generated descriptor tables and the engine's header constants (EST_*, INDICE_VAL, TAILLE_*, the type codes). They are parameters (`Tables`, `Conf`). `Conf.Valid` asks only that each `switch`'s case labels be distinct.
- `fprintf` and `exit(1)`: a `Fault` value. After a fault the process ends, so the slots and index left behind are not specified.
- `ml_annee_calc`: it returns a constant.
- An input, debug or restituée descriptor whose slot lies past the array: C indexes out of bounds without a check (the input loops, the debug loop at lines 479-502, the restituée loop). The model reports `SlotOutOfRange`.
- `strcmp` over strings with an embedded NUL: codes are the characters before the terminator.
- `cherche_var` adds `inf + sup` in `int`, which cannot overflow below 2^30 entries. Integers here are unbounded.
- The enumeration fields of a zero-initialised slot: C gives them value 0, which no enumerator has. The model uses fixed representatives. Such a slot has no code, so they are never reported.
- Bridge.ConvertTgvToC: the element number is an OCaml int read into a C `int`, and the truncation of values beyond 32 bits is not modelled.
- RegistrySpec.Compacted: compaction keys on `code == NULL`, as the source does. An input slot whose debug name equals its alias has no code. It is therefore overwritten by the preceding head, descriptor included (RegistrySpec.CompactOverwritesUncoded). The model keeps this behaviour and does not assert that it is unintended.
- Dispatch.Stubs.Execute: the source writes the overrides before the name lookup. An unknown code is therefore reported before an unknown name, and the model keeps that order.
