# COLLADA helper utilities of Blender, modelled in Dafny

This project models the self-contained helpers of Blender's COLLADA
importer/exporter in `source/blender/collada/collada_utils.cpp`, and proves
what they promise:

- the parent graph of scene objects: the loop test, the reparenting guard
  with its field updates, the climb to the highest selected ancestor, and the
  base-node test;
- the export mark (the `LIB_DOIT` bit of an object's ID flags): test, set
  and clear;
- the armature lookup through a skeletal parent or the modifier stack;
- the export set: membership, a type query, and the in-place bubble sort
  by name;
- the root-bone test of an armature, with and without the
  deforming-bones-only mode;
- the find-and-replace loop and the URL encoding built on it;
- the float-or-double array accessor.

Modules:

- `Flags` (flags.dfy): the bit constants and the mark/unmark words.
- `SceneObjects` (objects.dfy): the `Object` class, whose fields the helpers
  update in place, and the `Scene` class. `Scene` carries the set of objects
  and a ghost rank that strictly decreases from child to parent, which is
  the acyclicity invariant `Valid()`.
- `Bones` (bones.dfy): the `Bone` class. Its parent is fixed, and a ghost
  depth makes every walk up the chain end.
- `ExportSet` (export_set.dfy): the export set, modelled as the sequence of
  its links; the sort works on an `array` of them.
- `Strings` (strings.dfy): the sign of `strcmp`, `std::string::find`, and
  `ReplaceAll`. `ReplaceAll` is the recursive specification of the
  replacement loop.
- `Numeric` (numeric.dfy): the tagged float/double array.

The ancestor helper carries a comment at
`collada_utils.cpp:183-184` saying that it returns NULL when no ancestor is
selected. The code returns the object itself in that case, and the model
follows the code: `HighestSelectedAncestorOrSelf` never returns null.

## Model

| member | source | states |
|---|---|---|
| Numeric.GetFloatValue | source/blender/collada/collada_utils.cpp:61-70 | An index past the end of the tagged storage gives 0.0. Otherwise the result is the value at that index, from the float storage when the tag is float and from the double storage when it is double. |
| SceneObjects.Scene.TestParentLoop | source/blender/collada/collada_utils.cpp:73-81 | A null parent never gives a loop. A positive answer means `ob` is in the scene and ranks no higher than `par`. It terminates on every acyclic scene. |
| SceneObjects.Scene.TestParentLoopReaches | source/blender/collada/collada_utils.cpp:73-81 | When the loop test says yes, following `parent` some number of times from `par` reaches `ob`. |
| SceneObjects.Scene.ReachesTestParentLoop | source/blender/collada/collada_utils.cpp:73-81 | When following `parent` n times from `par` reaches `ob`, the loop test says yes. |
| SceneObjects.Scene.TestParentLoopIsAncestry | source/blender/collada/collada_utils.cpp:73-81 | The loop test holds exactly when `ob` is `par` or one of its ancestors, in both directions. |
| SceneObjects.Scene.NoParentLoop | source/blender/collada/collada_utils.cpp:73-81 | In an acyclic scene no object lies on its own parent's chain. |
| SceneObjects.Scene.ChainTransitive | source/blender/collada/collada_utils.cpp:73-81 | Ancestor-or-self is transitive. |
| SceneObjects.Scene.ChainAntisymmetric | source/blender/collada/collada_utils.cpp:73-81 | Two objects that are each other's ancestor-or-self are the same object. |
| SceneObjects.Scene.ChainLinear | source/blender/collada/collada_utils.cpp:73-81 | Any two ancestors of one object are related: one is ancestor-or-self of the other. |
| SceneObjects.Scene.SetParent | source/blender/collada/collada_utils.cpp:85-127 | Fails exactly when the parent is null or `ob` is already on the parent's chain, and then changes nothing. On success: `ob`'s parent is `par`, its parent type is object parenting and its sub-target is empty; `ob` gains both recalc bits and `par` the transform bit; `par` is then on `ob`'s chain; the scene stays acyclic with the same objects. |
| SceneObjects.IsMarked | source/blender/collada/collada_utils.cpp:224-227 | Never true for null; otherwise true exactly when the `LIB_DOIT` bit is set. |
| SceneObjects.RemoveMark | source/blender/collada/collada_utils.cpp:229-232 | Afterwards the object is not marked, and every other ID flag bit is as before. Only the flag word changes. |
| SceneObjects.SetMark | source/blender/collada/collada_utils.cpp:234-237 | Afterwards the object is marked, and every other ID flag bit is as before. Only the flag word changes. |
| Flags.WithMark | source/blender/collada/collada_utils.cpp:234-237 | The mark bit is set and all other bits are kept. |
| Flags.WithoutMark | source/blender/collada/collada_utils.cpp:229-232 | The mark bit is clear and all other bits are kept. |
| Flags.MarkRoundTrip | source/blender/collada/collada_utils.cpp:229-237 | Setting then clearing the mark restores an unmarked word. Clearing then setting restores a marked word. |
| SceneObjects.GetAssignedArmature | source/blender/collada/collada_utils.cpp:164-181 | With a skeletal parent that is an armature, the result is that parent. Otherwise it is the target of the last armature modifier on the stack, or null when there is none. |
| SceneObjects.Scene.HighestSelectedAncestorOrSelf | source/blender/collada/collada_utils.cpp:188-196 | The result is `ob` or one of its ancestors, and never null. Every object strictly above `ob`, up to and including the result, is marked. The result's parent is null or unmarked. |
| SceneObjects.Scene.IsBaseNode | source/blender/collada/collada_utils.cpp:199-203 | True exactly when `ob`'s parent is null or unmarked. |
| ExportSet.LinkIndex | source/blender/collada/collada_utils.cpp:207 | The index of the first link equal to the object, or -1 exactly when the object is not in the list. |
| ExportSet.IsInExportSet | source/blender/collada/collada_utils.cpp:205-208 | True exactly when the object is a member of the export set. |
| ExportSet.HasObjectType | source/blender/collada/collada_utils.cpp:210-222 | True exactly when some member has the given type and non-null data. |
| Strings.StrCmp | source/blender/collada/collada_utils.cpp:253 | The sign of the comparison, which is zero exactly when the strings are equal. |
| Strings.StrCmpAntisymmetric | source/blender/collada/collada_utils.cpp:253 | Swapping the arguments flips the sign. |
| Strings.StrCmpTransitive | source/blender/collada/collada_utils.cpp:253 | "Sorts no later than" is transitive. |
| ExportSet.NeighboursInOrder | source/blender/collada/collada_utils.cpp:240-261 | When every neighbour pair is in name order, every pair is. |
| ExportSet.BubbleSortByObjectName | source/blender/collada/collada_utils.cpp:240-261 | The links end as the outer-loop specification `SortLoop` gives them. They are a permutation of the input, sorted by name, after at most n - 1 passes. Links already in order are not moved, and the sort stops after exactly one pass (none for a single link). |
| ExportSet.SortLoopSorts | source/blender/collada/collada_utils.cpp:244-260 | From any point of the outer loop at which the last `node` positions (those from n - node on) are placed, the loop ends with a permutation of the links sorted by name, after between node and n - 1 passes. |
| ExportSet.SortInOrder | source/blender/collada/collada_utils.cpp:244-260 | Links already in order end unmoved, after one pass, or after none for a single link. |
| ExportSet.AdjacentSorted | source/blender/collada/collada_utils.cpp:244 | Links whose neighbours are in order are sorted by name; with PassProperties this is why the early exit is safe. |
| ExportSet.BubblePass | source/blender/collada/collada_utils.cpp:247-259 | One pass leaves the links that comparing every neighbour pair in turn from the head gives (`PassUpTo`). `sorted` is true exactly when none of those comparisons swapped (`SwapFreeUpTo`). |
| ExportSet.PassSwapFree | source/blender/collada/collada_utils.cpp:247-259 | A pass permutes the links. It swaps nothing exactly when every neighbour pair was already in order, and then the links are unchanged. |
| ExportSet.PassProperties | source/blender/collada/collada_utils.cpp:247-259 | On links whose suffix from m is placed, a pass permutes them and places one more position. It swaps nothing exactly when the neighbours were in order, and then leaves them unchanged. |
| ExportSet.PassUpToInvariant | source/blender/collada/collada_utils.cpp:249-258 | After any number of comparisons the pass invariant holds: the links are permuted, the placed suffix stays placed, the largest link of the prefix sits at the current position, and the flag is true exactly when the original pairs so far were in order, in which case nothing has moved. |
| ExportSet.PassStart | source/blender/collada/collada_utils.cpp:247-249 | Before its first comparison a pass has the invariant with nothing swapped. |
| ExportSet.PassStep | source/blender/collada/collada_utils.cpp:250-257 | One comparison keeps the pass invariant one position further on. |
| ExportSet.PassEnd | source/blender/collada/collada_utils.cpp:249 | When the inner loop ends, one more position is placed, and the flag is true exactly when all pairs were in order and nothing moved. |
| ExportSet.CompareAndSwap | source/blender/collada/collada_utils.cpp:250-257 | Swaps exactly when the first name sorts after the second. A swap exchanges exactly the links at c and c + 1; otherwise nothing changes. |
| ExportSet.SwapMovesMaxUp | source/blender/collada/collada_utils.cpp:253-256 | Exchanging an out-of-order pair after the largest link of the prefix moves that link one position up, and permutes the links. |
| ExportSet.MaxMovesUp | source/blender/collada/collada_utils.cpp:253-257 | A neighbour no smaller than the prefix maximum is the maximum of the longer prefix. |
| ExportSet.PlacedAfterSwap | source/blender/collada/collada_utils.cpp:254-255 | Swapping two neighbours before the placed suffix keeps the suffix placed. |
| Bones.ChainAbove | source/blender/collada/collada_utils.cpp:273-277 | Every strict ancestor of a bone is shallower than it, so the walk up never meets the bone again. |
| Bones.LastDeformingIsFirst | source/blender/collada/collada_utils.cpp:270-278 | The last deforming bone on the chain is the starting bone exactly when that bone deforms and none of its ancestors does. |
| Bones.IsRootBone | source/blender/collada/collada_utils.cpp:268-282 | Without the deform-only mode: true exactly when the bone has no parent. With it: true exactly when the bone deforms and no ancestor deforms, so a non-deforming bone is never a root. |
| Strings.Find | source/blender/collada/collada_utils.cpp:300 | The first occurrence at or after the start position, or NPOS exactly when there is none. |
| Strings.ReplaceAllSkips | source/blender/collada/collada_utils.cpp:297-305 | A prefix in which the pattern does not start passes through unchanged. |
| Strings.ReplaceAllNoMatch | source/blender/collada/collada_utils.cpp:297-305 | A string without an occurrence comes back unchanged. |
| Strings.ReplaceAllIdentity | source/blender/collada/collada_utils.cpp:297-305 | Replacing a pattern by itself changes nothing. |
| Strings.ReplaceAllAtFirstMatch | source/blender/collada/collada_utils.cpp:300-302 | Replacement splits at the first match: the prefix, then the replacement, then the replaced rest. |
| Strings.FirstMatchInSuffix | source/blender/collada/collada_utils.cpp:300 | The match found from a position is the first match in the suffix from there. |
| Strings.ReplaceStep | source/blender/collada/collada_utils.cpp:300-303 | One splice-and-resume round keeps "done part + replacement of the rest" equal. |
| Strings.ReplaceString | source/blender/collada/collada_utils.cpp:297-305 | The result is the leftmost, non-overlapping replacement of every occurrence; inserted text is never rescanned. |
| Strings.ReplaceAllRemovesChar | source/blender/collada/collada_utils.cpp:290-295 | Replacing a character by text that does not contain it removes every instance of it. |
| Strings.UrlEncodeLength | source/blender/collada/collada_utils.cpp:290-295 | Encoding lengthens the string by two characters per '#'. |
| Strings.UrlEncode | source/blender/collada/collada_utils.cpp:290-295 | The result is every '#' replaced by "%23". It contains no '#' and is two characters longer per '#' of the input. |

## Left out

- SceneObjects.Scene.SetParent: the matrix half (world-space multiplication when `is_parent_space`, decomposition, the parent inverse) is not modelled, because it is floating-point matrix arithmetic through calls into the host. `isParentSpace` is therefore unused, and the context lookups at lines 88-89 are left out.
- SceneObjects.Scene.SetParent: the commented-out dependency-graph and notifier calls (lines 119-123) are not code and are not modelled.
- bc_add_object, bc_to_mesh_apply_modifiers and bc_get_active_UVLayer are not part of this model: they only create or read host data blocks through calls into the host database.
- bc_match_scale (lines 307-366) is not part of this model: it is floating-point matrix arithmetic.
- Numeric.GetFloatValue: values are reals, so the narrowing of a double to a float on return is not modelled.
- Strings.ReplaceString: requires a non-empty pattern. With an empty pattern the source never ends: the search matches at the resume position every time, so the replacement is inserted again and again before the same character.
- Strings.StrCmp: models only the sign of strcmp, comparing characters by code point. The source compares bytes of `id.name`, which includes the two-letter ID prefix; `Object.name` stands for that whole name.
- ExportSet: the singly linked list is modelled as the sequence, or for the sort the array, of its links in order. Node identity and aliasing between nodes are not modelled. The sort moves only links, never nodes, so this loses nothing the helpers rely on.
- ExportSet.BubbleSortByObjectName: requires a non-empty list, as the source dereferences the head.
- ExportSet.BubbleSortByObjectName: the pass count is a ghost result.
- SceneObjects.Object: the name is a constant, because no modelled helper renames an object.
- SceneObjects.Object and SceneObjects.Scene: their constructors stand for the host creating objects and scenes, which collada_utils.cpp does not do; they model no source line.
- Null arguments: object and bone parameters are non-null in the model where the source would accept NULL. The source gives `bc_is_root_bone(NULL, true)` as true, because the walk is skipped and the root stays NULL (lines 271-278); `bc_is_in_Export_set` and `bc_test_parent_loop` accept a null object (lines 205-207 and 73-81). No helper in collada_utils.cpp passes NULL to them.
- SceneObjects.Scene.HighestSelectedAncestorOrSelf: the export set parameter is unused, as in the source. The comment at line 184 about a NULL result disagrees with the code, which is modelled.
- SceneObjects.Scene.IsBaseNode: the export set parameter is unused, as in the source.
- Bones.Bone: no helper reparents a bone, so the bone parent is a constant. Bones with a parent loop cannot be built, so termination of the walk is by construction.
- SceneObjects.Scene: the acyclicity of the parent graph is an invariant of the model (`Valid`); the source relies on it without checking.
- Flags: the constants take the values of Blender's DNA headers, which are not part of this model; the proofs rely only on each flag being one bit.
