# QDEngine core logic in Dafny

This project models the self-contained logic of the QDEngine adventure-game engine and proves properties of it. It covers these parts:

- **Conditions and conditional objects.** A condition (`qdCondition`) is typed. Its type fixes its parameter and object slots, and two "negative" types are stored as inverted positive ones. A TIMER condition advances its elapsed time and fired state. A conditional object (`qdConditionalObject`) combines its conditions and its condition groups under AND or OR, and keeps each condition's in-group mark consistent with the groups. It checks them in the source's order with early exits, and returns the click flags the checks set.
- **Trigger records and the trigger profiler.** Trigger links (`qdTriggerLink`, held by value) are records whose setters give the updated record; trigger elements (`qdTriggerElement`) are objects with setters. The profiler log (`qdTriggerProfiler`) is saved as six words per record, and a prefix of it is replayed onto the trigger graph.
- **Trigger-start hooks.** A grid zone state (`qdGridZoneState`) switches its zone. A game end (`qdGameEnd`) registers itself as the ending. The model also covers their copies, assignments and script attributes.
- **The tile codec and the tile table.** The RLE encoder and decoder of `grTileSprite` are proved to round-trip, and its tolerant tile comparison is modelled. `grTileAnimation` keeps a table of deduplicated 16x16 tiles with prefix-sum offsets.
- **The inventory grid.** A cell set (`qdInventoryCellSet`) is a grid of typed cells with a scroll window. The inventory (`qdInventory`) numbers all cells across its sets.
- **Small utilities:**
  - the CD bitmask of `qdFileOwner`;
  - the save format of `qdCameraMode`;
  - the `XRnd` generator;
  - `XBuffer`'s binary access;
  - the XML parser's tag-format registry;
  - the name of `qdNamedObjectBase`.

Each source file is modelled by one module:

- Objects that the source updates in place are classes whose methods state their whole new state.
- Records held by value in vectors are datatypes, and their mutators return the updated record.
- Loops over arrays and sequences are methods with loop invariants. Each is proved against a specification function, and lemmas state what the source promises about that function.

Collaborators whose code is not part of this model are parameters:

- the game dispatcher's verdict, chain list and `set_game_end`;
- the `qd_rnd` roll;
- which condition types are click and object-click conditions (`qd_condition.h` is not part of this model);
- the LZ77 codec;
- the existence of trigger elements and links;
- whether a camera mode has a working time.

`wrappers.dfy` holds the shared `Option` type, 32-bit ranges, C's truncating division and the typed stream tokens. `script_tags.dfy` holds a small model of XML elements as written by the `save_script` members, which is used to state well-formedness.

## Model

| member | source | states |
|---|---|---|
| Conditions.Canonical | qdcore/qd_condition.cpp:136-170 | the type set_type stores is never one of the two negative types, and is the requested type unless that one is negative |
| Conditions.NewCondition | qdcore/qd_condition.cpp:42-47 | a default condition is CONDITION_FALSE, not inverted, in no group, with no slots |
| Conditions.SetType | qdcore/qd_condition.cpp:85-284 | the stored type is the canonical one; the inversion flag is set for a negative type and kept otherwise; owner and group mark do not change |
| Conditions.ConditionOfType | qdcore/qd_condition.cpp:49-55 | a condition built with a type stores its canonical type, is inverted exactly when the type is negative, and is in no group |
| Conditions.CopyOf | qdcore/qd_condition.cpp:57-66 | the copy equals the original in every field except the group mark, which starts false |
| Conditions.Assign | qdcore/qd_condition.cpp:68-80 | the target takes every field of the source except the group mark, which the target keeps |
| Conditions.SetInGroup | core/qdcore/qd_conditional_object.cpp:335-337 | adding or removing a group reference sets or clears the group mark and changes nothing else |
| Conditions.PutInt | qdcore/qd_condition.cpp:291-294 | storing an integer succeeds exactly when the slot has room for the index; on failure nothing changes; on success the value reads back |
| Conditions.PutFloat | qdcore/qd_condition.cpp:296-299 | storing a float succeeds exactly when the slot has room for the index; on failure nothing changes; on success the value reads back |
| Conditions.PutIntFrame | qdcore/qd_condition.cpp:291-324 | an integer store leaves every other integer and every float as read before |
| Conditions.PutFloatFrame | qdcore/qd_condition.cpp:296-324 | a float store leaves every other float and every integer as read before |
| Conditions.GetInt | qdcore/qd_condition.cpp:312-317 | the integer at the index when the slot has room for it, 0 past its room; so a non-zero read is a value the slot holds |
| Conditions.GetFloat | qdcore/qd_condition.cpp:319-324 | the float at the index when the slot has room for it, 0 past its room; so a non-zero read is a value the slot holds |
| Conditions.PutString | qdcore/qd_condition.cpp:286-289 | the slot takes the string, which get_value then reads back; every other slot, the type and the object slots are kept |
| Conditions.GetString | qdcore/qd_condition.cpp:301-310 | some string, the call succeeding, exactly when the slot holds one, and then that string |
| Conditions.PutStringFrame | qdcore/qd_condition.cpp:286-324 | a string store leaves every integer and float as read before, and a second store to the slot replaces the first |
| Conditions.FreshSlotReadsZero | qdcore/qd_condition.cpp:93-95 | a slot fresh from init_data reads 0 at every index and holds no string |
| Conditions.PutObject | qdcore/qd_condition.cpp:471-475 | put_object makes the indexed object slot refer to the object and leaves every other slot and field unchanged |
| Conditions.GetObject | qdcore/qd_condition.cpp:477-486 | an index out of range gives NULL and changes nothing; a filled slot gives its object; an empty slot is resolved by the lookup, which is stored and returned |
| Conditions.PutGetObject | qdcore/qd_condition.cpp:471-486 | an object stored by put_object is the one get_object returns |
| Conditions.Check | qdcore/qd_condition.cpp:452-469 | the result is true exactly when there is a dispatcher and its verdict differs from the inversion flag; a true result sets the click flag for a click condition, else the object-click flag for an object-click condition; a false result leaves both flags |
| Conditions.CheckInversion | qdcore/qd_condition.cpp:452-458 | with a dispatcher, flipping the inversion flag flips the result of check |
| Conditions.NotInStateIsInvertedState | qdcore/qd_condition.cpp:136-144 | a condition made with OBJECT_NOT_IN_STATE is an inverted OBJECT_STATE condition and checks false when the dispatcher's predicate holds |
| Conditions.SetTypeNegative | qdcore/qd_condition.cpp:162-170 | setting a negative type is setting its positive type and then inverting |
| Conditions.TimerSlots | qdcore/qd_condition.cpp:116-120 | TIMER lays out a float slot and an int slot with two values each and keeps the object slots |
| Conditions.ObjectsDistanceSlots | qdcore/qd_condition.cpp:171-177 | OBJECTS_DISTANCE lays out three parameter slots, the third a one-value float slot, and two object slots |
| Conditions.UntouchedSlots | qdcore/qd_condition.cpp:89-91 | TRUE, FALSE and MOUSE_DIALOG_CLICK leave both slot arrays as they were |
| Conditions.SetTypeKeepsObjects | qdcore/qd_condition.cpp:85-284 | object slots that survive the resize keep their references |
| Conditions.SetTypeIdempotent | qdcore/qd_condition.cpp:85-284 | setting the same type twice gives what setting it once gives |
| Conditions.SetTypeTimerShaped | qdcore/qd_condition.cpp:116-120 | after set_type(TIMER) the period, elapsed, chance and fired values all have their slots |
| Conditions.Quant | qdcore/qd_condition.cpp:385-412 | a non-timer is unchanged; a timer adds dt to the elapsed time, and once it reaches the period subtracts the period and fires (1) unless the chance is nonzero and the roll is nonzero; below the period the fired state is 0; period and chance are kept |
| Conditions.QuantKeepsPhase | qdcore/qd_condition.cpp:391-402 | a timer whose elapsed time lies in [0, period) stays there when ticked by at most one period |
| Conditions.QuantFiresWhenDue | qdcore/qd_condition.cpp:396-410 | with a zero skip chance the timer fires exactly when the elapsed time plus dt reaches the period |
| Conditions.TimerThreeTicks | qdcore/qd_condition.cpp:385-412 | a period-1 timer ticked by 0.4 three times fires on the third tick only and keeps 0.2 of elapsed time |
| Conditions.Init | qdcore/qd_condition.cpp:489-495 | init zeroes a timer's elapsed time and fired state and succeeds; any other type is untouched |
| Conditions.SaveData | qdcore/qd_condition.cpp:431-450 | a timer writes a float then an integer; any other type writes nothing |
| Conditions.LoadData | qdcore/qd_condition.cpp:414-429 | a non-timer reads nothing and succeeds; loading only ever changes the parameter slots |
| Conditions.SaveLoadRoundTrip | qdcore/qd_condition.cpp:414-450 | a timer loaded from another timer's save takes its elapsed time and fired state, keeps its own period and chance, and leaves the rest of the stream unread |
| Conditions.SaveLoadIdentity | qdcore/qd_condition.cpp:414-450 | a timer loaded from its own save is unchanged |
| Conditions.InitData | qdcore/qd_condition.cpp:93-95 | a fresh slot of the kind, with room for n values of that kind and none of the other |
| Conditions.Resize | qdcore/qd_condition.cpp:93-94 | the object slots have the new size, keep their first entries and pad with empty references |
| ConditionalObjects.Marked | core/qdcore/qd_conditional_object.cpp:333-340 | re-marking keeps the number of conditions and sets each condition's in-group mark to whether some group lists its index, changing nothing else |
| ConditionalObjects.MarkedConsistent | core/qdcore/qd_conditional_object.cpp:333-340 | after re-marking, every condition's mark agrees with the groups, and only the marks changed |
| ConditionalObjects.MarkedIdentity | core/qdcore/qd_conditional_object.cpp:333-340 | re-marking conditions whose marks already agree with the groups changes nothing |
| ConditionalObjects.CopiedConditions | core/qdcore/qd_conditional_object.cpp:56-59 | copying the condition vector copy-constructs every condition, so every copy has its in-group mark cleared |
| ConditionalObjects.NoConditionsHold | core/qdcore/qd_conditional_object.cpp:109-139 | without conditions the verdict is true, whatever the groups and the mode |
| ConditionalObjects.EmptyGroups | core/qdcore/qd_conditional_object.cpp:293-310 | an empty AND group holds and an empty OR group does not |
| ConditionalObjects.AndImpliesOr | core/qdcore/qd_conditional_object.cpp:111-134 | when some condition is ungrouped or some group exists, a true AND verdict implies a true OR verdict |
| ConditionalObjects.AndOrExample | core/qdcore/qd_conditional_object.cpp:111-134 | three ungrouped conditions that hold, hold and fail give a false AND verdict and a true OR verdict |
| ConditionalObjects.ConditionalObject.constructor | core/qdcore/qd_conditional_object.cpp:49-54 | a new object is in OR mode with no conditions and no groups |
| ConditionalObjects.ConditionalObject.Copy | core/qdcore/qd_conditional_object.cpp:56-64 | the corrected copy takes the name, flags, mode and groups, and the copied conditions re-marked from the groups |
| ConditionalObjects.ConditionalObject.AssignFrom | core/qdcore/qd_conditional_object.cpp:76-86 | assignment to itself changes nothing; otherwise the target takes the name, flags, mode and groups, and the copied conditions re-marked from the groups |
| ConditionalObjects.ConditionalObject.AddCondition | core/qdcore/qd_conditional_object.cpp:88-93 | a copy of the condition, owned by this object, is appended, and its index (the new last index) is returned; groups and mode are kept |
| ConditionalObjects.ConditionalObject.UpdateCondition | core/qdcore/qd_conditional_object.cpp:95-103 | condition num is assigned from the given one, made owned by this object, and the call returns true; nothing else changes |
| ConditionalObjects.ConditionalObject.RemoveCondition | core/qdcore/qd_conditional_object.cpp:142-151 | exactly condition idx is erased, every group is given idx to drop, and the call returns true |
| ConditionalObjects.ConditionalObject.CheckGroupConditions | core/qdcore/qd_conditional_object.cpp:293-310 | the early-exit loop checks the members in order, each with its click kind, stops at the first failure under AND or the first success under OR, and returns the verdict and click flags of that order; the verdict is whether the group holds |
| ConditionalObjects.ConditionalObject.CheckAll | core/qdcore/qd_conditional_object.cpp:111-122 | the AND loops check the ungrouped conditions and then the groups in order, stopping at the first failure, and return that order's verdict and click flags; the verdict is true exactly when every ungrouped condition and every group holds |
| ConditionalObjects.ConditionalObject.CheckAny | core/qdcore/qd_conditional_object.cpp:123-134 | the OR loops check the ungrouped conditions and then the groups in order, stopping at the first success, and return that order's verdict and click flags; the verdict is true exactly when some ungrouped condition or some group holds |
| ConditionalObjects.ConditionalObject.CheckConditions | core/qdcore/qd_conditional_object.cpp:105-140 | the click flags are cleared first; the verdict is true without conditions and otherwise the AND or OR combination of the mode; a flag comes back set only when a condition of its click kind holds |
| ConditionalObjects.ConditionalObject.HasConditions | core/qdcore/qd_conditional_object.cpp:109 | true exactly when the object has a condition, the test check_conditions makes before checking |
| ConditionalObjects.GroupRunVerdict | core/qdcore/qd_conditional_object.cpp:293-310 | checking a group's members in order and stopping early gives every-member for AND and some-member for OR, whatever the click flags |
| ConditionalObjects.GroupsRunVerdict | core/qdcore/qd_conditional_object.cpp:118-121 | the loop over the groups gives every group holding for AND and some group holding for OR |
| ConditionalObjects.UngroupedRunVerdict | core/qdcore/qd_conditional_object.cpp:111-134 | the loop over the ungrouped conditions followed by the groups gives the AND or OR combination of both |
| ConditionalObjects.RunVerdict | core/qdcore/qd_conditional_object.cpp:105-140 | checking in the source's order with early exits gives exactly the declarative verdict of the mode |
| ConditionalObjects.CheckAtFlags | qdcore/qd_condition.cpp:452-467 | one check() keeps set flags set and sets the click flag only for a holding click condition, the object-click flag only for a holding object-click condition |
| ConditionalObjects.GroupRunFlags | core/qdcore/qd_conditional_object.cpp:293-310 | a group check sets a flag only through a holding condition of its kind and clears none |
| ConditionalObjects.GroupsRunFlags | core/qdcore/qd_conditional_object.cpp:118-121 | the loop over the groups sets a flag only through a holding condition of its kind and clears none |
| ConditionalObjects.UngroupedRunFlags | core/qdcore/qd_conditional_object.cpp:111-134 | the condition loops set a flag only through a holding condition of its kind and clear none |
| ConditionalObjects.RunFlags | core/qdcore/qd_conditional_object.cpp:105-140 | after check_conditions, which clears the flags first, a flag is set only when some condition of its click kind holds |
| ConditionalObjects.AndRunSetsClick | core/qdcore/qd_conditional_object.cpp:111-117 | under AND, once the loop over the ungrouped conditions has passed a click condition and the verdict is true, the click flag is set |
| ConditionalObjects.AndVerdictSetsClick | core/qdcore/qd_conditional_object.cpp:105-122 | in AND mode a true verdict with an ungrouped click condition leaves the click flag set |
| ConditionalObjects.ConditionalObject.IsConditionInGroup | core/qdcore/qd_conditional_object.cpp:312-319 | true exactly when some group lists the index |
| ConditionalObjects.ConditionalObject.RefreshGroupMarks | core/qdcore/qd_conditional_object.cpp:333-340 | the loop leaves every condition re-marked from the groups and changes nothing else |
| ConditionalObjects.ConditionalObject.AddConditionGroup | core/qdcore/qd_conditional_object.cpp:321-324 | the group is appended and its index returned; the conditions are not re-marked |
| ConditionalObjects.ConditionalObject.UpdateConditionGroup | core/qdcore/qd_conditional_object.cpp:326-341 | group num is replaced, and afterwards a condition is marked in-group exactly when some group lists it |
| ConditionalObjects.ConditionalObject.RemoveConditionGroup | core/qdcore/qd_conditional_object.cpp:344-359 | exactly group idx is erased, and afterwards a condition is marked in-group exactly when some group lists it |
| ConditionalObjects.ConditionalObject.Init | core/qdcore/qd_conditional_object.cpp:379-388 | every condition is initialised, with no early exit, and the result is true exactly when every initialisation succeeded |
| ConditionalObjects.ConditionalObject.ConditionsQuant | core/qdcore/qd_conditional_object.cpp:241-245 | every condition is ticked by dt, each with its own roll; groups and mode are kept |
| ConditionalObjects.CopyLosesGroupMarks | core/qdcore/qd_conditional_object.cpp:56-64 | an OR object whose only group is AND{0, 1}, with condition 0 holding and condition 1 (the same condition inverted) not under one dispatcher verdict, is false, while its copy as written is true |
| ConditionalObjects.CorrectedCopyKeepsVerdict | core/qdcore/qd_conditional_object.cpp:56-64 | the corrected copy of an object whose marks agree with its groups has the same conditions and the same verdict |
| GridZoneStates.GridZone.SetState | core/qdcore/qd_grid_zone_state.cpp:116 | the zone takes the given state |
| GridZoneStates.GridZoneState.constructor | core/qdcore/qd_grid_zone_state.cpp:40-45 | a new state stores its flag, has no owner and no conditions, and is named "Вкл" when on and "Выкл" when off |
| GridZoneStates.GridZoneState.Copy | core/qdcore/qd_grid_zone_state.cpp:47-49 | the copy takes the state, the owner and the conditional-object part (conditions re-marked from the copied groups) |
| GridZoneStates.GridZoneState.AssignFrom | core/qdcore/qd_grid_zone_state.cpp:54-60 | only the state is copied; the owner, conditions and name stay, and self-assignment changes nothing |
| GridZoneStates.GridZoneState.TriggerStart | core/qdcore/qd_grid_zone_state.cpp:113-119 | without an owner zone the result is FAILED and nothing changes; with one, the zone takes this state and the result is ACTIVATE |
| GridZoneStates.StateScriptAsWrittenBroken | core/qdcore/qd_grid_zone_state.cpp:79-88 | with conditions, the binary-stream save_script closes the element with `/>` before writing its body and closing tag, so the result is not well-formed |
| GridZoneStates.StateScriptWellFormed | core/qdcore/qd_grid_zone_state.cpp:93-111 | the corrected element is well-formed with or without conditions, and its first attribute is state, 1 or 0 |
| GameEnds.GameDispatcher.SetGameEnd | core/qdcore/qd_game_end.cpp:60 | the dispatcher remembers the game end |
| GameEnds.GameEnd.constructor | core/qdcore/qd_game_end.cpp:38-39 | a new game end has an empty conditional-object part and no end screen |
| GameEnds.GameEnd.Copy | core/qdcore/qd_game_end.cpp:41-43 | the copy takes the interface screen and the conditional-object part (conditions re-marked from the copied groups) |
| GameEnds.GameEnd.AssignFrom | core/qdcore/qd_game_end.cpp:48-56 | self-assignment changes nothing; otherwise the conditional-object part and the interface screen are copied |
| GameEnds.GameEnd.TriggerStart | core/qdcore/qd_game_end.cpp:58-65 | with a dispatcher this object becomes its game end and the result is ACTIVATE; without one the result is FAILED |
| GameEnds.EndAttrs | core/qdcore/qd_game_end.cpp:94-104 | save_script writes attributes only, never a body piece |
| GameEnds.EndAttrsSelection | core/qdcore/qd_game_end.cpp:94-104 | the name, flags and end_screen attributes are each written exactly when the name is present, the flags are nonzero and the screen is non-empty |
| GameEnds.EndScriptAsWrittenBroken | core/qdcore/qd_game_end.cpp:106-113 | without conditions, save_script as written leaves the opening tag unterminated, so the element is not well-formed |
| GameEnds.EndScriptWellFormed | core/qdcore/qd_game_end.cpp:87-115 | the corrected element, ended by `/>` when there are no conditions, is well-formed in both cases |
| TileSprite.LiteralHeader | core/system/graphics/gr_tile_sprite.cpp:57-58 | a literal header carries the sequence mask, and removing the mask gives back the block length |
| TileSprite.RunHeaderUnmasked | core/system/graphics/gr_tile_sprite.cpp:37 | the mask bit lies above every block length up to the tile size, so a run header never carries it |
| TileSprite.Decode | core/system/graphics/gr_tile_sprite.cpp:75-96 | a successful decoding is exactly one tile of pixels |
| TileSprite.DecodeLength | core/system/graphics/gr_tile_sprite.cpp:80-93 | decoding from any point writes exactly one tile, starting with the pixels already written |
| TileSprite.DecodeRunAt | core/system/graphics/gr_tile_sprite.cpp:86-90 | a run block [count, pixel] repeats the pixel count times and decoding goes on two words later |
| TileSprite.DecodeLiteralAt | core/system/graphics/gr_tile_sprite.cpp:82-85 | a literal block copies the count words after its header and decoding goes on after them |
| TileSprite.RunBlockWords | core/system/graphics/gr_tile_sprite.cpp:47-48 | a run block ends where the leading run of equal pixels ends, covers at least two pixels, and is written as [length, pixel] |
| TileSprite.LiteralBlockWords | core/system/graphics/gr_tile_sprite.cpp:50-62 | a literal block ends where the backward scan from the forward scan's stop lands, and is written as its header followed by its pixels |
| TileSprite.BlockShape | core/system/graphics/gr_tile_sprite.cpp:44-66 | a run block is at least two equal pixels written as [length, pixel] with the mask clear; a literal block holds at least one pixel, starts with two different pixels, and unless it ends the tile is followed by three equal pixels; its header carries the mask and its pixels follow |
| TileSprite.BackOffStopsBeforeTriple | core/system/graphics/gr_tile_sprite.cpp:51-55 | backing off from the forward scan's stop lands two pixels before it, at the start of three equal pixels, or at the end of the tile |
| TileSprite.LiteralScanStop | core/system/graphics/gr_tile_sprite.cpp:51-52 | inside the tile the forward scan stops at the third of three equal pixels whose first differs from its predecessor |
| TileSprite.DecodeEncodeAt | core/system/graphics/gr_tile_sprite.cpp:39-96 | decoding the encoding of the pixels from any block start, after the pixels before it have been written, gives the whole tile |
| TileSprite.RoundTrip | core/system/graphics/gr_tile_sprite.cpp:39-96 | decodeRLE(encodeRLE(t)) is t for every tile, whatever words follow the encoding |
| TileSprite.EncodeBound | core/system/graphics/gr_tile_sprite.cpp:39-73 | an encoded tile takes at most 2 * 256 words |
| TileSprite.ScanRun | core/system/graphics/gr_tile_sprite.cpp:44-48 | the scan stops at the first pixel that differs from the block's first one |
| TileSprite.ScanLiteral | core/system/graphics/gr_tile_sprite.cpp:51-55 | the forward and backward scans stop at the end of the literal block |
| TileSprite.EmitLiteral | core/system/graphics/gr_tile_sprite.cpp:57-62 | the header with the mask, then the block's pixels, are appended to what was written |
| TileSprite.EmitRun | core/system/graphics/gr_tile_sprite.cpp:64-65 | the length and the pixel are appended to what was written |
| TileSprite.EncodeNextBlock | core/system/graphics/gr_tile_sprite.cpp:44-68 | one pass of the outer loop writes exactly the encoding of the block at count and moves count to its end |
| TileSprite.EncodeRLE | core/system/graphics/gr_tile_sprite.cpp:39-73 | the words written are the encoding of the tile, and the returned size is their number, at most 512 |
| TileSprite.CopyPixels | core/system/graphics/gr_tile_sprite.cpp:84-85 | the copy loop appends the literal's pixels and leaves the words after them |
| TileSprite.FillPixels | core/system/graphics/gr_tile_sprite.cpp:88-89 | the fill loop appends count copies of the colour and leaves the words after them |
| TileSprite.DecodeRLE | core/system/graphics/gr_tile_sprite.cpp:75-96 | on an input that is an encoding, the first 256 words written are its decoding, and the result is true |
| TileSprite.SpriteEquals | core/system/graphics/gr_tile_sprite.cpp:150-163 | two empty sprites are equal, an empty and a non-empty one are not, and two tiles are equal exactly when each of their 1024 bytes differs by at most 2 |
| TileSprite.SameSpriteReflexive | core/system/graphics/gr_tile_sprite.cpp:150-163 | every sprite equals itself |
| TileSprite.SameSpriteSymmetric | core/system/graphics/gr_tile_sprite.cpp:150-163 | sprite equality is symmetric |
| TileSprite.SameSpriteNotTransitive | core/system/graphics/gr_tile_sprite.cpp:157-160 | sprite equality is not transitive: tiles of all-0, all-2 and all-4 pixels chain, yet the first and last differ |
| TileSprite.Compress | core/system/graphics/gr_tile_sprite.cpp:165-178 | RLE writes the run-length encoding and returns its length; LZ77 writes the external codec's words; any other method writes nothing and returns 0 |
| TileSprite.Uncompress | core/system/graphics/gr_tile_sprite.cpp:180-192 | RLE writes the decoded tile, LZ77 the external codec's tile, and both return true; any other method writes nothing and returns false |
| TileAnimations.TilesRoundToNearest | system/graphics/gr_tile_animation.cpp:68-69 | the tile count along an axis rounds the frame size to the nearest multiple of 16: the tiles cover the frame to within half a tile (20 pixels give 1 tile, 24 give 2) |
| TileAnimations.Tiles | system/graphics/gr_tile_animation.cpp:102-109 | the first n tiles of an uncompressed table, n of them, each a whole tile |
| TileAnimations.TilesAt | system/graphics/gr_tile_animation.cpp:109 | tile k of the list is the 256 words read at k * 256 |
| TileAnimations.CompressedTiles | system/graphics/gr_tile_animation.cpp:103-115 | one compressed piece per tile |
| TileAnimations.CatLayout | system/graphics/gr_tile_animation.cpp:111-114 | offsets i and i+1 of the rebuilt table bound exactly piece i of the rebuilt data |
| TileAnimations.RleTilesDecode | system/graphics/gr_tile_animation.cpp:87-136 | after RLE compression every tile's offset lies in the data, and decoding the words from it gives back the tile it was made from |
| TileAnimations.UncompressedMethodEmptiesTiles | system/graphics/gr_tile_animation.cpp:103-118 | compressing with TILE_UNCOMPRESSED writes no word for any tile: the data is emptied and every offset is 0 |
| TileAnimations.CompressTiles | system/graphics/gr_tile_animation.cpp:96-115 | the loop leaves the data equal to every tile's compressed words laid out in order, and the offsets equal to 0 followed by each tile's end |
| TileAnimations.LoadTile | system/graphics/gr_tile_animation.cpp:109 | the buffer holds the 256 words of tile i |
| TileAnimations.CompressTile | system/graphics/gr_tile_animation.cpp:112-113 | the words kept are exactly what grTileSprite::compress writes for the tile |
| TileAnimations.FrameTile | system/graphics/gr_tile_animation.cpp:150-166 | a tile cut from the frame is always 256 pixels |
| TileAnimations.RowTiles | system/graphics/gr_tile_animation.cpp:149-187 | a row of the frame gives tiles.x whole tiles |
| TileAnimations.FrameTiles | system/graphics/gr_tile_animation.cpp:148-188 | the first rows of a frame give each row's tiles in order, each a whole tile |
| TileAnimations.ExtractTile | system/graphics/gr_tile_animation.cpp:150-166 | the tile-cutting loops give the frame's pixels under the tile, and 0 where the tile hangs over the frame's right or bottom edge |
| TileAnimations.TileAnimation.constructor | system/graphics/gr_tile_animation.cpp:38-40 | a new animation is cleared |
| TileAnimations.TileAnimation.Clear | system/graphics/gr_tile_animation.cpp:42-59 | no frames, no frame index, offsets or data, uncompressed, zero sizes, no alpha |
| TileAnimations.TileAnimation.Init | system/graphics/gr_tile_animation.cpp:61-79 | alpha, frame size and frame count are stored, the tile grid is the rounded frame size, the offsets are [0], and the empty table is valid with no tiles |
| TileAnimations.TileAnimation.Compress | system/graphics/gr_tile_animation.cpp:87-121 | a compressed animation refuses and is unchanged; otherwise the method is stored and the data and offsets become the tiles' compressed words and their ends, with the frame index and sizes kept |
| TileAnimations.TileAnimation.GetTile | system/graphics/gr_tile_animation.cpp:124-137 | the result is a whole tile: the stored words of an uncompressed table, or the decompressed words at the tile's offset |
| TileAnimations.TileAnimation.FindTile | system/graphics/gr_tile_animation.cpp:168-176 | the result is -1 or a stored tile equal to the given one, no earlier stored tile is equal to it, and it is the first equal stored tile when there is one |
| TileAnimations.TileAnimation.AppendTile | system/graphics/gr_tile_animation.cpp:178-184 | the tile's words and its end offset are appended and its number goes into the frame index; the table stays valid and the earlier tiles are unchanged |
| TileAnimations.TileAnimation.PlaceTile | system/graphics/gr_tile_animation.cpp:168-186 | the table becomes the old one with the tile added by deduplication: the first stored tile equal to it is reused, and only when none is equal is the tile appended; its number goes into the frame index |
| TileAnimations.TileAnimation.AddFrame | system/graphics/gr_tile_animation.cpp:139-189 | the table becomes the old one with the frame's tiles, row by row and left to right, added one by one by deduplication (zero-filled past the frame's edges); the index stays valid |
| TileAnimations.TileAnimation.AddRow | system/graphics/gr_tile_animation.cpp:149-187 | the table becomes the old one with the row's tiles added one by one by deduplication |
| TileAnimations.TileAnimation.AddNextRow | system/graphics/gr_tile_animation.cpp:148-188 | one pass of the row loop extends the deduplicated table by the next row's tiles |
| TileAnimations.TileAnimation.ContentsAt | system/graphics/gr_tile_animation.cpp:102-109 | tile k of the table as a list of tiles is stored tile k |
| TileAnimations.FirstEqualSpec | system/graphics/gr_tile_animation.cpp:168-176 | the search result is the first stored tile equal to the given one, or the number of tiles when none is |
| TileAnimations.FirstEqualIs | system/graphics/gr_tile_animation.cpp:168-176 | a stored tile equal to the given one with no equal tile before it is the search result |
| TileAnimations.AddTile | system/graphics/gr_tile_animation.cpp:168-186 | adding a tile only ever appends to the tiles, by at most one, and keeps them whole |
| TileAnimations.AddTileReuses | system/graphics/gr_tile_animation.cpp:185-186 | when a stored tile equals the new one, the first such is named in the index and no tile is stored |
| TileAnimations.AddTileAppends | system/graphics/gr_tile_animation.cpp:178-184 | when no stored tile equals the new one, it is appended and its new number goes into the index |
| TileAnimations.AddTileNamesEqual | system/graphics/gr_tile_animation.cpp:168-186 | the new index entry names a stored tile equal to the tile added |
| TileAnimations.AddTilesNamesEqual | system/graphics/gr_tile_animation.cpp:148-188 | after adding a list of tiles, the index entry for each names a stored tile equal to it |
| TileAnimations.AddTilesGrows | system/graphics/gr_tile_animation.cpp:148-188 | adding tiles keeps the old tiles and index entries as prefixes, stores at most one tile per tile added, and adds exactly one index entry per tile |
| TileAnimations.AddTilesKeepsDistinct | system/graphics/gr_tile_animation.cpp:168-186 | starting from distinct tiles, deduplication never stores a tile equal to one already stored |
| TileAnimations.RepeatedTileStoredOnce | system/graphics/gr_tile_animation.cpp:168-186 | adding the same tile twice to an empty table stores it once and names tile 0 twice |
| TileAnimations.AddTilesAppend | system/graphics/gr_tile_animation.cpp:148-188 | adding two lists of tiles one after the other is adding their concatenation |
| TileAnimations.AddTilesNext | system/graphics/gr_tile_animation.cpp:149-187 | adding one more tile of a list extends the result by that tile |
| TileAnimations.FrameTilesCount | system/graphics/gr_tile_animation.cpp:148-188 | the first rows of a frame give tiles.x tiles per row |
| TileAnimations.FrameTilesNext | system/graphics/gr_tile_animation.cpp:148-188 | one more row of the frame appends that row's tiles |
| TileAnimations.CompressNextTile | system/graphics/gr_tile_animation.cpp:109-114 | one pass copies tile i into the buffer, compresses it, and appends its words and its end offset |
| TriggerElements.LinkStatusOf | qdcore/qd_trigger_element.h:49-62 | an integer names a link status only as that status's enumerator value |
| TriggerElements.ElementStatusOf | qdcore/qd_trigger_element.h:197-202 | an integer names an element status only as that status's enumerator value |
| TriggerElements.LinkStatusesExact | qdcore/qd_trigger_element.h:49-62 | the link statuses are exactly INACTIVE, ACTIVE, DONE, numbered 0 to 2 |
| TriggerElements.ElementStatusesOrdered | qdcore/qd_trigger_element.h:192-202 | element statuses are exactly INACTIVE, WAITING, WORKING, DONE, numbered 0 to 3 in that order, and ROOT_ID and INVALID_ID are distinct negative ids |
| TriggerElements.TriggerLink.SetStatus | qdcore/qd_trigger_element.h:69-75 | the record with the status set; type, element, id and auto-restart flag are kept |
| TriggerElements.TriggerLink.SetType | qdcore/qd_trigger_element.h:78-84 | the record with the type set; status, element, id and auto-restart flag are kept |
| TriggerElements.TriggerLink.SetElement | qdcore/qd_trigger_element.h:87-93 | the record with the element set; status, type, id and auto-restart flag are kept |
| TriggerElements.TriggerLink.SetElementId | qdcore/qd_trigger_element.h:103-109 | the id is stored and true returned exactly when the link has no element; otherwise false and the old id stays; the other fields are kept |
| TriggerElements.TriggerLink.ToggleAutoRestart | qdcore/qd_trigger_element.h:144-150 | the record with the auto-restart flag set; status, type, element and id are kept |
| TriggerElements.LeadsToIgnoresLinkState | qdcore/qd_trigger_element.h:69-113 | only set_element changes which element a link compares equal to: the status, type, id and auto-restart setters leave it |
| TriggerElements.ElementIdFixedOnceBound | qdcore/qd_trigger_element.h:87-109 | once set_element has given a link an element, set_element_ID is refused and the link is unchanged; after set_element(NULL) the id is taken |
| TriggerElements.TriggerElement.SetId | qdcore/qd_trigger_element.h:287-292 | ID() then reads the id set; nothing else changes |
| TriggerElements.TriggerElement.MakeActive | qdcore/qd_trigger_element.h:253-259 | is_active() then reads the value set; nothing else changes |
| TriggerElements.TriggerElement.SetStatus | qdcore/qd_trigger_element.h:281-284 | status() then reads the status set; nothing else changes |
| TriggerProfilers.Signed | qdcore/qd_trigger_profiler.cpp:102-106 | reading a word as signed gives a 32-bit value whose stored word is that word |
| TriggerProfilers.SignedToWord | qdcore/qd_trigger_profiler.cpp:88-106 | writing a signed 32-bit value and reading it back as signed gives it back |
| TriggerProfilers.SaveRecord | qdcore/qd_trigger_profiler.cpp:84-95 | a record is saved as six words |
| TriggerProfilers.LoadRecord | qdcore/qd_trigger_profiler.cpp:97-110 | a loaded record's fields always fit their 32-bit fields |
| TriggerProfilers.RecordRoundTrip | qdcore/qd_trigger_profiler.cpp:84-110 | load after save gives back all six fields of a record that fits, read in the order written |
| TriggerProfilers.DefaultRecordZeros | qdcore/qd_trigger_profiler.cpp:40-46 | the default record (time 0, ELEMENT_STATUS_UPDATE, ids and status 0) is saved as six zero words, and six zero words load as it |
| TriggerProfilers.Images | qdcore/qd_trigger_profiler.cpp:126-128 | the records take six words each in the work file |
| TriggerProfilers.ParseWorkFile | qdcore/qd_trigger_profiler.cpp:141-145 | record k is read from the six words after the count at 1 + 6k |
| TriggerProfilers.ImagesAt | qdcore/qd_trigger_profiler.cpp:126-128 | record k is saved at words 6k to 6k+6 of the records' part |
| TriggerProfilers.WorkFileRoundTrip | qdcore/qd_trigger_profiler.cpp:121-152 | parsing the words save_to_work_file writes for a log gives the log back (the words, not a file on disk; see Left out), when the records fit and their number fits a signed 32-bit count |
| TriggerProfilers.IndexOf | qdcore/qd_trigger_profiler.cpp:54-59 | the first position holding the chain, or the list length exactly when the chain is absent |
| TriggerProfilers.TriggerAt | qdcore/qd_trigger_profiler.cpp:172-183 | no chain without a dispatcher; a position inside the list gives the chain there; a position at or past the end gives none |
| TriggerProfilers.TriggerIndexRecovers | qdcore/qd_trigger_profiler.cpp:48-59 | a record made for a listed chain leads back to that chain through get_record_trigger; one made for an unlisted chain leads to none |
| TriggerProfilers.NewRecord | qdcore/qd_trigger_profiler.cpp:48-60 | the record keeps the given fields; its trigger position is 0 without a dispatcher, and otherwise the chain's first position in the list, or the list length when absent |
| TriggerProfilers.IndexOfUnique | qdcore/qd_trigger_profiler.cpp:54-59 | a position holding the chain with none before it is the first position |
| TriggerProfilers.RecordElement | qdcore/qd_trigger_profiler.cpp:154-159 | the record's element is found exactly when the record's chain is found and holds an element with the record's id |
| TriggerProfilers.RecordLink | qdcore/qd_trigger_profiler.cpp:161-170 | a found link is a child link exactly for a child-link event, a parent link otherwise, has the record's link id, and belongs to the record's element |
| TriggerProfilers.AppliedUntouched | qdcore/qd_trigger_profiler.cpp:191-203 | a target no replayed record writes keeps its status |
| TriggerProfilers.AppliedLastWriteWins | qdcore/qd_trigger_profiler.cpp:191-203 | a target takes the status of the last replayed record that writes it |
| TriggerProfilers.AppliedNoDispatcher | qdcore/qd_trigger_profiler.cpp:172-183 | without a dispatcher no record finds its chain, so a replay changes nothing |
| TriggerProfilers.TriggerProfiler.constructor | qdcore/qd_trigger_profiler.cpp:112-114 | a new profiler has an empty log, logging off, read-only mode and the work file "trigger_profiler.dat" |
| TriggerProfilers.TriggerProfiler.SetWorkFile | qdcore/qd_trigger_profiler.cpp:214-217 | a given name replaces the work file name, and none clears it; nothing else changes |
| TriggerProfilers.TriggerProfiler.SaveToWorkFile | qdcore/qd_trigger_profiler.cpp:121-132 | the words its writes produce are the record count followed by each record's six words; in the source they reach no file (see Left out) |
| TriggerProfilers.TriggerProfiler.LoadFromWorkFile | qdcore/qd_trigger_profiler.cpp:134-152 | the log is cleared first; the result is false and the log empty when the file does not open; otherwise the log is the records the file holds |
| TriggerProfilers.TriggerProfiler.GetRecordTrigger | qdcore/qd_trigger_profiler.cpp:172-183 | the walk through the list reaches the chain at the record's position, none past the end |
| TriggerProfilers.TriggerProfiler.Evolve | qdcore/qd_trigger_profiler.cpp:185-206 | with a dispatcher, the graph is reset and records 0 to num are applied in order; without one nothing is written |
| InventoryCells.CellSet.PutObject | qdcore/qd_inventory_cell.cpp:249-258 | the first empty cell of the object's inventory type takes the object and no other cell changes; false with the set unchanged when no cell fits |
| InventoryCells.CellSet.RemoveObject | qdcore/qd_inventory_cell.cpp:316-325 | the first cell holding the object is emptied and no other cell changes; false with the set unchanged when no cell holds it |
| InventoryCells.CellSet.IsObjectInList | qdcore/qd_inventory_cell.cpp:327-334 | true exactly when some cell holds the object |
| InventoryCells.CellSet.CellIndex | qdcore/qd_inventory_cell.cpp:464-472 | the index of the first cell holding the object, non-negative exactly when some cell holds it |
| InventoryCells.CellSet.GetObjectAt | qdcore/qd_inventory_cell.cpp:301-314 | an object is returned only when the point hits the set, and it is an object the set holds |
| InventoryCells.CellSet.Hit | qdcore/qd_inventory_cell.cpp:260-270 | a set without cells or with a zero cell size is never hit, and a hit point lies at or past the set's corner once moved by half a cell |
| InventoryCells.HitInVisibleCell | qdcore/qd_inventory_cell.cpp:260-270 | with positive cell sizes a hit point falls in one of the visible columns and rows |
| InventoryCells.CellSet.CellPosition | qdcore/qd_inventory_cell.cpp:474-485 | an index out of range gives (0,0); a cell's position is where its row and column, less the shift, are drawn |
| InventoryCells.CellSet.PutObjectAt | qdcore/qd_inventory_cell.cpp:285-299 | succeeds exactly when the point hits, the addressed index is a cell and that cell is empty and of the object's type; then only that cell changes, otherwise nothing |
| InventoryCells.CellSet.HasRectObjects | qdcore/qd_inventory_cell.cpp:553-564 | true exactly when some cell of the rectangle, rows top to bottom and columns left to right, holds an object |
| InventoryCells.CellSet.ScrollLeft | qdcore/qd_inventory_cell.cpp:566-571 | the set after one step left, taken only when a hidden cell left of the window holds an object |
| InventoryCells.CellSet.ScrollRight | qdcore/qd_inventory_cell.cpp:573-578 | the set after one step right, taken only when a hidden cell right of the window holds an object |
| InventoryCells.CellSet.ScrollUp | qdcore/qd_inventory_cell.cpp:580-585 | the set after one step up, taken only when a hidden cell above the window holds an object |
| InventoryCells.CellSet.ScrollDown | qdcore/qd_inventory_cell.cpp:587-592 | the set after one step down, taken only when a hidden cell below the window holds an object |
| InventoryCells.CellSet.WithCellType | qdcore/qd_inventory_cell.cpp:394-405 | every cell takes the type and its sprite's size and keeps its object; the number of cells is unchanged |
| InventoryCells.CellSet.Init | qdcore/qd_inventory_cell.cpp:394-405 | true exactly when the set has cells and some cell type matches the first cell's type; then the first such type is applied to every cell, otherwise the set is unchanged |
| InventoryCells.ScrollKeepsValid | qdcore/qd_inventory_cell.cpp:566-592 | every scroll keeps the set valid and its cells in place, and moves the window by at most one cell along one axis |
| InventoryCells.ScrollLeftNeedsHiddenObject | qdcore/qd_inventory_cell.cpp:566-571 | the window moves left exactly when a cell left of it holds an object |
| InventoryCells.EmptyCellSet | qdcore/qd_inventory_cell.cpp:196-200 | the default set is valid and has no cells |
| InventoryCells.NewCellSet | qdcore/qd_inventory_cell.cpp:202-207 | the set has the given position, sizes and additional cells, shift (0,0), and (sx+addit_sx)*(sy+addit_sy) empty cells of the given type |
| InventoryCells.NewCellSetValid | qdcore/qd_inventory_cell.cpp:202-207 | a set built from non-negative sizes is valid and holds no object |
| InventoryCells.RemoveUndoesPut | qdcore/qd_inventory_cell.cpp:249-258 | removing an object right after putting it gives back the set, and cell_index reports the cell put_object chose |
| InventoryCells.GetAfterPutAt | qdcore/qd_inventory_cell.cpp:285-314 | the object put at a point is the object got at that point |
| InventoryCells.AddressesDrawnCell | qdcore/qd_inventory_cell.cpp:232-247 | with rows size.x+additional.x cells apart, the point where a visible cell is drawn hits the set and addresses that cell, whose object get_object returns |
| InventoryCells.CellPositionIsDrawn | qdcore/qd_inventory_cell.cpp:474-485 | with rows size.x+additional.x cells apart, cell_position of a visible cell is where it is drawn, and that point addresses the cell |
| InventoryCells.StrideAsWrittenMissesDrawnCell | qdcore/qd_inventory_cell.cpp:285-314 | with 2x2 visible cells and one additional column, a click on the drawn cell 3 addresses cell 2 as written, and cell_position(3) is where cell 4 is drawn |
| Inventories.FlagsAreDistinctBits | qdcore/qd_inventory.h:42-58 | the five inventory flags are the single bits 0x01 to 0x10 in order, and the shadow defaults are colour 0 and alpha 128 |
| Inventories.IndexLocatesObject | core/qdcore/qd_inventory.cpp:385-409 | cell_index is -1 exactly when no set holds the object, and otherwise cell_position's walk over the sets takes the number back to the first cell holding the object, in the first set holding it |
| Inventories.Locate | core/qdcore/qd_inventory.cpp:399-409 | the set and the cell a number is taken to are a set of the list and a cell of that set |
| Inventories.Inventory.constructor | core/qdcore/qd_inventory.cpp:51-58 | no cell sets, no redraw due, the default shadow colour and alpha and no additional cells |
| Inventories.Inventory.AddCellSet | qdcore/qd_inventory.h:64-66 | the set is appended to the list and nothing else changes |
| Inventories.Inventory.RemoveCellSet | core/qdcore/qd_inventory.cpp:326-333 | for an index inside the list, the set at it is erased and the others keep their order |
| Inventories.Inventory.SetCellsPos | qdcore/qd_inventory.h:107-110 | an index inside the list moves that set to the position; any other index changes nothing |
| Inventories.Inventory.SetCellsType | qdcore/qd_inventory.h:111-114 | an index inside the list gives that set's cells the type; any other index changes nothing |
| Inventories.Inventory.SetCellsSize | qdcore/qd_inventory.h:115-118 | an index inside the list sets that set's size; any other index changes nothing |
| Inventories.Inventory.CellIndex | core/qdcore/qd_inventory.cpp:385-397 | the cells of the sets before the first set holding the object plus its index there; non-negative exactly when some set holds it |
| Inventories.Inventory.CellPosition | core/qdcore/qd_inventory.cpp:399-409 | the position of the cell the number falls in, counting the sets' cells in order; (0,0) past the last cell |
| Inventories.Inventory.IsObjectInList | core/qdcore/qd_inventory.cpp:150-158 | true exactly when some set holds the object |
| Inventories.Inventory.GetObject | core/qdcore/qd_inventory.cpp:125-135 | the object of the first set that the point hits and that has an object there; any object returned is in the inventory |
| Inventories.Inventory.PutObjectAt | core/qdcore/qd_inventory.cpp:111-123 | the first set whose put_object at the point succeeds takes the object; then the object is marked in the inventory, remembers its cell number and a redraw is due; on failure nothing changes |
| Inventories.Inventory.PutObjectInFirstSet | core/qdcore/qd_inventory.cpp:99-108 | the first set with a fitting cell puts the object in its first such cell, which is then recorded; on failure nothing changes |
| Inventories.Inventory.PutObject | core/qdcore/qd_inventory.cpp:92-109 | succeeds exactly when the remembered cell's position takes the object or some set has a fitting cell; the remembered position is tried first, and then only the first set taking the object there changes, as put_object(p, pos) changes it; otherwise only the first set with a fitting cell changes, its first fitting cell taking the object; on success the object is marked in the inventory, remembers the number of the first cell holding it, and a redraw is due; on failure nothing changes |
| Inventories.Inventory.RemoveObject | core/qdcore/qd_inventory.cpp:137-148 | succeeds exactly when some set holds the object; the first holding set empties its first holding cell, the in-inventory mark is dropped and a redraw is due; on failure nothing changes |
| Inventories.Inventory.Init | core/qdcore/qd_inventory.cpp:225-234 | every set is initialised with the cell types and takes the inventory's additional cells; true exactly when every set found its cell type |
| Inventories.Inventory.ScrollLeft | core/qdcore/qd_inventory.cpp:418-423 | every set scrolls left, the sets stay valid and a redraw is due |
| Inventories.Inventory.ScrollRight | core/qdcore/qd_inventory.cpp:425-430 | every set scrolls right, the sets stay valid and a redraw is due |
| Inventories.Inventory.ScrollUp | core/qdcore/qd_inventory.cpp:432-437 | every set scrolls up, the sets stay valid and a redraw is due |
| Inventories.Inventory.ScrollDown | core/qdcore/qd_inventory.cpp:439-444 | every set scrolls down, the sets stay valid and a redraw is due |
| Inventories.Inventory.PostRedraw | core/qdcore/qd_inventory.cpp:85-90 | no redraw is due afterwards and the sets are unchanged |
| Inventories.Inventory.ToggleRedraw | qdcore/qd_inventory.h:124-126 | the redraw flag takes the given state and nothing else changes |
| Inventories.Inventory.SetShadowColor | qdcore/qd_inventory.h:136-141 | shadow_color() gives the colour set and nothing else changes |
| Inventories.Inventory.SetShadowAlpha | qdcore/qd_inventory.h:143-148 | shadow_alpha() gives the alpha set and nothing else changes |
| Inventories.Inventory.SetAdditionalCells | qdcore/qd_inventory.h:167-172 | additional_cells() gives the value set and nothing else changes |
| Inventories.RemoveUndoesPutInFirstSet | core/qdcore/qd_inventory.cpp:92-148 | an object put into the first set with a fitting cell is found by remove_object in that set and cell, and removing it gives back every set |
| Inventories.RemoveUndoesAdd | core/qdcore/qd_inventory.cpp:326-333 | removing the set just added gives back the list |
| FileOwners.NoCd | qdcore/qd_file_owner.h:29 | the mask a new owner starts with has the value 0 |
| FileOwners.FileOwner.constructor | qdcore/qd_file_owner.h:29 | CD_info() is 0 and no file size is counted |
| FileOwners.FileOwner.AddToCd | qdcore/qd_file_owner.h:37-39 | bit n of the mask is set, every other bit and the file size are kept |
| FileOwners.FileOwner.RemoveFromCd | qdcore/qd_file_owner.h:40-42 | bit n of the mask is cleared, every other bit and the file size are kept |
| FileOwners.FileOwner.ClearCdInfo | qdcore/qd_file_owner.h:47-49 | CD_info() is 0 afterwards and the file size is kept |
| FileOwners.FileOwner.IsOnCd | qdcore/qd_file_owner.h:43-46 | with some CD recorded, whether bit n is set; with none recorded, true for CD 0 only |
| FileOwners.FileOwner.CdInfo | qdcore/qd_file_owner.h:52-54 | the unsigned value whose bits are the mask, 0 exactly when no CD is recorded |
| FileOwners.FileOwner.SetCdInfo | qdcore/qd_file_owner.h:55-57 | CD_info() gives the value set afterwards and the file size is kept |
| FileOwners.MaskValueRoundTrip | qdcore/qd_file_owner.h:52-57 | a mask's value fits 32 bits, and the mask of that value is the mask: CD_info and set_CD_info are inverse |
| FileOwners.OnCdIsBit | qdcore/qd_file_owner.h:43-46 | a mask with some bit set answers is_on_CD(n) by bit n alone |
| FileOwners.FreshOwnerOnCdZeroOnly | qdcore/qd_file_owner.h:43-46 | an empty mask is read as CD 0 only, so is_on_CD with the default argument 1 is false |
| FileOwners.AddedIsOnCd | qdcore/qd_file_owner.h:37-46 | after add_to_CD(n) the owner is on CD n |
| FileOwners.RemovedIsOnCdOnlyAsCdZero | qdcore/qd_file_owner.h:40-46 | after remove_from_CD(n) the owner is on CD n exactly when n is 0 and no CD is left in the mask |
| FileOwners.RemovingLastCdMeansCdZero | qdcore/qd_file_owner.h:37-46 | removing the only CD added to a new owner leaves mask 0, read as CD 0 only |
| CameraModes.Encode | core/qdcore/qd_camera_mode.cpp:109-125 | seven values, the first of them the mode |
| CameraModes.Decode | core/qdcore/qd_camera_mode.cpp:98-107 | succeeds exactly when the stream starts with the seven values of their kinds; the rest of the stream follows them, and any nonzero switch byte turns the smooth switch on |
| CameraModes.DecodeEncode | core/qdcore/qd_camera_mode.cpp:98-125 | loading what save_data wrote restores every field but the mode, whatever follows in the stream |
| CameraModes.DecodeIgnoresMode | core/qdcore/qd_camera_mode.cpp:98-107 | different modes are saved differently but load alike: the mode read is dropped |
| CameraModes.CameraMode.constructor | core/qdcore/qd_camera_mode.cpp:39-45 | unassigned mode, time 0, speed 100, distance 100, no smooth switch and centre (0,0) |
| CameraModes.CameraMode.SaveData | core/qdcore/qd_camera_mode.cpp:127-134 | the stream grows by the seven values of Encode, mode first |
| CameraModes.CameraMode.LoadData | core/qdcore/qd_camera_mode.cpp:98-107 | on a readable stream the fields become the decoded settings and the rest follows; the mode is always kept |
| CameraModes.CameraMode.ScriptAttrs | core/qdcore/qd_camera_mode.cpp:76-96 | at least the three attributes written always, and only attributes |
| CameraModes.CameraMode.SaveScript | core/qdcore/qd_camera_mode.cpp:76-96 | a well-formed, self-closed camera_mode element |
| CameraModes.ScriptAttrsChoice | core/qdcore/qd_camera_mode.cpp:79-91 | type, speed and distance come first; the screen centre is written exactly when it is not (0,0), time exactly when the mode has a working time, smooth_switch exactly when it is on |
| RandomGenerators.HighBits | xlibs/xutil/xutil/xutil.cpp:44 | the bits taken from the state are below 2^15 |
| RandomGenerators.DrawInRange | xlibs/xutil/xutil/xutil.cpp:40-45 | XRnd(0) is 0, and XRnd(m) for m > 0 is below m and below 2^15 |
| RandomGenerators.Generator.constructor | xlibs/xutil/xutil/xutil.cpp:38 | the state starts at 83838383 |
| RandomGenerators.Generator.XRnd | xlibs/xutil/xutil/xutil.cpp:40-45 | every call advances the state by state*214013+2531011 modulo 2^32, also for m = 0, and returns the draw from the new state |
| RandomGenerators.Generator.XRndSet | xlibs/xutil/xutil/xutil.cpp:47-53 | XRndGet() gives the value set afterwards |
| RandomGenerators.Generator.XRndGet | xlibs/xutil/xutil/xutil.cpp:51-53 | the generator's state, the value XRnd steps from next and XRndSet sets |
| RandomGenerators.StepInvertible | xlibs/xutil/xutil/xutil.cpp:41 | a step of the generator is undone by the inverse step, so no two states lead to the same next state |
| RandomGenerators.StepUndone | xlibs/xutil/xutil/xutil.cpp:41 | the inverse step takes the next state back to the state |
| RandomGenerators.FirstStates | xlibs/xutil/xutil/xutil.cpp:38-45 | the first three states from 83838383 and the 15 bits each draws from |
| XBuffers.Zeros | xlibs/xutil/xutil.h:249-254 | k bytes, all zero |
| XBuffers.Grown | xlibs/xutil/xutil.h:249-251 | the grown buffer fits the bytes needed and starts with the old buffer |
| XBuffers.WrittenPlacesBytes | xlibs/xutil/xutil.h:249-254 | after a write the bytes sit at the offset, every other byte keeps its value, and the size grows only as far as the write needs |
| XBuffers.XBuffer.Write | xlibs/xutil/xutil.h:249-254 | the buffer is the old one with the bytes copied in at the offset, grown if need be, and the offset moves past them, so end() is false |
| XBuffers.XBuffer.Read | xlibs/xutil/xutil.h:255-259 | the bytes at the offset are returned, the buffer is unchanged, and the offset moves past them |
| XBuffers.XBuffer.Tell | xlibs/xutil/xutil.h:97-99 | the current offset, which write, read and the offset operators move as their contracts state |
| XBuffers.XBuffer.End | xlibs/xutil/xutil.h:93-95 | true exactly when tell() is strictly past size(); never right after a write, which grows the buffer to hold its bytes |
| XBuffers.XBuffer.Advance | xlibs/xutil/xutil.h:227-230 | the offset moves forward, wrapping as an unsigned 32-bit value; the bytes are unchanged |
| XBuffers.XBuffer.Retreat | xlibs/xutil/xutil.h:231-234 | the offset moves back, wrapping as an unsigned 32-bit value; the bytes are unchanged |
| XBuffers.XBuffer.Increment | xlibs/xutil/xutil.h:219-222 | the offset moves one forward, wrapping at 2^32 |
| XBuffers.XBuffer.Decrement | xlibs/xutil/xutil.h:223-226 | the offset moves one back, and from 0 wraps to 2^32-1 |
| XBuffers.WriteRewindRead | xlibs/xutil/xutil.h:231-259 | a write, a step back by its size and a read give back the value written |
| XBuffers.Sign | xlibs/xutil/xutil.h:479-482 | -1, 0 or 1, 0 exactly for 0 and 1 exactly for positive x, and the sign times the absolute value is x |
| XBuffers.SqrProperties | xlibs/xutil/xutil.h:474-477 | sqr is never negative, the same for x and -x, the square of the absolute value, and 0 exactly for 0 |
| XBuffers.BitSR | xlibs/xutil/xutil.h:486-502 | the stub returns 0 for every input |
| XmlParsers.Resized | parser/xml_parser.h:65-67 | the pool has the new size, keeps its first entries and fills new ones with NUL |
| XmlParsers.Parser.ResizeDataPool | parser/xml_parser.h:65-67 | the pool is the resized pool and the registry is unchanged |
| XmlParsers.Parser.RegisterTagFormat | parser/xml_parser.h:69-76 | true exactly for an unregistered name, which is then registered with the format, and the count grows by one; a registered name keeps its format |
| XmlParsers.Parser.GetTagFormat | parser/xml_parser.h:77-83 | some format exactly for a registered name, and then its registered format |
| XmlParsers.RegisterThenGet | parser/xml_parser.h:69-83 | after registering a new name, get_tag_format gives its format and every other name's lookup is unchanged |
| XmlParsers.InsertGrows | parser/xml_parser.h:85-87 | registering a new name makes num_tag_formats one larger |
| XmlParsers.Parser.NumTagFormats | parser/xml_parser.h:85-87 | the number of registered names, 0 exactly when none is registered |
| NamedObjects.NamedObject.Name | core/qdcore/qd_named_object_base.h:40-43 | none exactly when the stored name is empty, and otherwise the stored name |
| NamedObjects.NamedObject.SetName | core/qdcore/qd_named_object_base.h:45-48 | a given string is stored, and NULL clears the name |
| NamedObjects.SetThenGet | core/qdcore/qd_named_object_base.h:40-48 | after set_name, name() gives a non-empty string set, and none for NULL or an empty string |

## Left out

- Rendering, input handling, `redraw`/`pre_redraw`, mouse handlers, `objects_quant`, every `load_script` and most `save_script` text output, and resource loading are not modelled. These are drawing, input and XML tag trees; only the attribute choices of the `save_script` members are modelled.
- The C++ headers `qd_condition.h`, `qd_conditional_object.h`, `qd_inventory_cell.h`, `gr_tile_sprite.h`, `gr_tile_animation.h` and `qd_camera_mode.h` are not part of this model. Their inline members are modelled as the module comments state: `inverse()` sets the inversion flag, a cell is empty when it holds no object, `tileCount()` is the number of offsets minus one, and a tile sprite is empty exactly when it has no data.
- `qd_trigger_element.cpp` and `qd_trigger_chain.cpp` are not part of this model. Element activation, link propagation and chain `quant` are therefore not modelled, and `qdTriggerElement::set_status` is modelled as a plain store.
- Floats (timer periods, camera time and speed) are modelled as reals. IEEE rounding is not modelled.
- Save streams are modelled as sequences of typed values (32-bit integer, 32-bit float, byte), not as bytes.
- Conditions.GetInt, Conditions.GetFloat, Conditions.PutInt, Conditions.PutFloat, Conditions.PutString, Conditions.GetString: `qdConditionData` (its `get_int`, `get_float`, `put_int`, `put_float`, `put_string` and `get_string`) is not part of this model. The model takes a slot to have room for the values `init_data` gave it, a read past that room to give 0, a store past it to fail, and a string store to succeed.
- Conditions.LoadData: on a stream that is too short, or that holds values of the wrong kind, the model reports failure and keeps the condition. The source reads regardless.
- ConditionalObjects.ConditionalObject.Copy: models the corrected copy, which re-marks the copied conditions from the groups. The copy as written clears every mark (see Findings).
- ConditionalObjects.ConditionalObject.AssignFrom: models the corrected assignment, which re-marks the copied conditions from the groups. As written, the vector assignment keeps each target condition's own mark and clears the marks of conditions it appends, so the marks need not match the groups.
- GridZoneStates.GridZoneState.Copy and GameEnds.GameEnd.Copy: take the corrected conditional-object copy described above.
- GameEnds.GameEnd.AssignFrom: takes the corrected conditional-object assignment described above.
- TileSprite.DecodeRLE: requires an input that decodes to a whole tile and has no zero-count block. The encoder never writes a zero-count block, and the source decodes one in bounds as a no-op; on input that does not make up a whole tile the source reads or writes out of bounds.
- TileSprite.Compress: the LZ77 method is an external codec given as a parameter. Its `len/4+2` size and the header word are taken as the codec's words.
- TileAnimations.TileAnimation.AddFrame: requires an uncompressed table, since comparing against compressed tiles goes through that external codec. The progress handler is not modelled.
- TileAnimations.TileAnimation.Compress: the progress handler is not modelled.
- `grTileAnimation::drawFrame` and the other drawing members are not modelled.
- TriggerProfilers.TriggerProfiler.SaveToWorkFile: returns the words the writes produce. The source writes them to a `DumpFile` it never opens, so nothing reaches the work file; that loss is not modelled, and WorkFileRoundTrip is about those words, not about a file on disk.
- TriggerProfilers.LoadRecord: a read past the end of the work file gives the word 0. The source's stream behaviour at the end of a file is not modelled.
- TriggerProfilers.ParseWorkFile: a count of zero or less gives no records.
- TriggerProfilers.TriggerProfiler.Evolve: returns the replayed trigger graph instead of `true`. Resetting the triggers is modelled as starting from the given reset graph.
- Record copy and assignment of `qdTriggerProfilerRecord` are datatype value copies, so they have no members of their own.
- The text formatting of profiler records and `add_record` are not modelled.
- InventoryCells.CellSet.GetObjectAt: finds the cell with the corrected stride, rows `size.x + additional.x` cells apart. The source takes rows `size.x` cells apart there, which the model does not capture; see Findings and InventoryCells.StrideAsWrittenMissesDrawnCell.
- InventoryCells.CellSet.PutObjectAt: addresses the cell with the corrected stride, rows `size.x + additional.x` cells apart. The source takes rows `size.x` cells apart there, which the model does not capture; see Findings and InventoryCells.StrideAsWrittenMissesDrawnCell.
- InventoryCells.CellSet.CellPosition: places cell numbers with the corrected stride, rows `size.x + additional.x` cells apart. The source takes rows `size.x` cells apart there, which the model does not capture; see Findings and InventoryCells.StrideAsWrittenMissesDrawnCell.
- Inventories.Inventory.CellPosition: places cell numbers through CellSet.CellPosition, so with the corrected stride, rows `size.x + additional.x` cells apart. The source takes rows `size.x` cells apart there, which the model does not capture; see Findings and InventoryCells.StrideAsWrittenMissesDrawnCell.
- Inventories.Inventory.GetObject: goes through CellSet.GetObjectAt, so with the corrected stride, rows `size.x + additional.x` cells apart. The source takes rows `size.x` cells apart there, which the model does not capture; see Findings and InventoryCells.StrideAsWrittenMissesDrawnCell.
- Inventories.Inventory.PutObjectAt: goes through CellSet.PutObjectAt, so with the corrected stride, rows `size.x + additional.x` cells apart. The source takes rows `size.x` cells apart there, which the model does not capture; see Findings and InventoryCells.StrideAsWrittenMissesDrawnCell.
- Inventories.Inventory.PutObject: goes through CellSet.PutObjectAt for the remembered cell, so with the corrected stride, rows `size.x + additional.x` cells apart. The source takes rows `size.x` cells apart there, which the model does not capture; see Findings and InventoryCells.StrideAsWrittenMissesDrawnCell.
- InventoryCells: the 16-bit `Vect2s` coordinates are modelled as unbounded integers, so their wrap-around is not modelled.
- `load_data`/`save_data` of cell sets and of the inventory, `set_mouse_hover_object`, `screen_region` and `debug_log` are not modelled.
- Inventories.Inventory.PostRedraw: the cell sets' own `post_redraw` (screen-region bookkeeping) is not modelled.
- FileOwners: a CD number is 0 to 31, the range where `1 << n` on a 32-bit int is defined. `calc_files_size` and `get_files_list` are not modelled.
- CameraModes: the value of MODE_UNASSIGNED is left unspecified. `has_work_time()` is a parameter of the script writer. `load_script` is not modelled.
- CameraModes.CameraMode.LoadData: on a stream that does not hold the seven values, the model reports false and keeps the fields. The source reads regardless and returns true.
- XBuffers.XBuffer.Write: requires the new offset to fit 32 bits. The model grows the buffer to exactly the size needed, because `handleOutOfSize` is not part of this model.
- XBuffers.XBuffer.Read: requires the bytes to lie inside the buffer. The source reads whatever memory lies there.
- XBuffer's text operators, `search`, `set` and `init` are not modelled.
- XML parsing (`parse_file`, the element handlers) is not modelled; only the tag-format registry and the data pool are.
- NamedObjects: a name is a string, so NUL characters inside a name are not modelled.

## Findings

| source | as written | input that shows it | evidently intended | confidence | as-written member | corrected member |
|---|---|---|---|---|---|---|
| core/qdcore/qd_conditional_object.cpp:56-64 | the copy constructor copies the conditions with their copy constructor, which clears every in-group mark, while the groups are copied as they are | an OR object whose only group is AND{0, 1}, where condition 0 holds and condition 1, the same condition inverted, does not: the original is false and its copy true | a copy evaluates like the original: its conditions are re-marked from the copied groups | not executed | ConditionalObjects.CopyLosesGroupMarks | ConditionalObjects.CorrectedCopyKeepsVerdict |
| core/qdcore/qd_game_end.cpp:106-113 | with no conditions, save_script writes `<game_end` and its attributes and never ends the tag | a game end without conditions | `/>` ends the element when there are no conditions | not executed | GameEnds.EndScriptAsWrittenBroken | GameEnds.EndScriptWellFormed |
| core/qdcore/qd_grid_zone_state.cpp:79-88 | with conditions, the binary-stream save_script writes `/>` and then the conditions and `</grid_zone_state>` | a grid zone state with one condition | `>` before the conditions, as the text-stream overload writes it | not executed | GridZoneStates.StateScriptAsWrittenBroken | GridZoneStates.StateScriptWellFormed |
| qdcore/qd_inventory_cell.cpp:285-314 | put_object(p, pos), get_object(pos) and cell_position take rows `size.x` cells apart, while the constructor, redraw and scrolling lay rows out `size.x + additional.x` cells apart | 2x2 visible cells, one additional column and 10x10 cells: a click on the drawn cell 3 addresses cell 2, and cell_position(3) is where cell 4 is drawn | rows `size.x + additional.x` cells apart throughout | not executed | InventoryCells.StrideAsWrittenMissesDrawnCell | InventoryCells.AddressesDrawnCell |
