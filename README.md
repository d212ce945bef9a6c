# Wizardiuz Staff Add-on: a verified model

This project models two pieces of the Wizardiuz Staff add-on for Minecraft Bedrock.

**The staff/scroll cast controller** (`BP/scripts/main.js`) runs once for every item-use event:

- It resolves the used item to one of five elements (water, fire, wind, sand, hail) by its exact staff identifier.
- It resolves the off-hand item to an element through the five-entry scroll table.
- It then does exactly one of four things:
  - ignores the event;
  - advances the staff one step through the cyclic element order;
  - shows a hint;
  - realigns the staff to the scroll's element and casts an ability.
- The ability is drawn from the half of the element's six-entry table that the sneak flag designates.
- The damage ring filters the nearby entities down to mobs and requests damage on each one. A request the engine rejects does not stop the others.

**The icon builder** (`tools/build_addon.py`) works on a flat RGBA byte buffer:

- Buffer operations: a blank buffer, a solid buffer and the bounds-checked pixel write `setpx`.
- The staff and scroll icons, drawn as loops of `setpx` on a 16 x 16 buffer.
- The PNG serialiser. It builds the raw stream with filter byte 0 ("None") in front of each row (section 9.2 of the PNG specification, ISO/IEC 15948).
- It frames chunks as length, type, data and CRC (section 5.3).
- It writes the eight-byte signature (section 5.2) and a 13-byte IHDR (section 11.2.2).

Modules:

- `Elements`: the element order, the staff and scroll identities, the identity resolver and the cyclic successor.
- `Abilities`: the ability table, the subset choice and the action-bar line of a cast.
- `Dispatcher`: the item-use handler.
  - `Step` is the reference definition of one event on a value `State`.
  - `Player` is the engine-side object the handler updates in place.
  - `OnItemUse` is proved to perform exactly `Step`.
- `Entities`: `nearbyMobs` and the best-effort `damageRing` loop.
- `Bytes`: bytes and big-endian 32-bit packing.
- `Pixels`: the RGBA buffer, `setpx`, and drawing a list of strokes (`Paint`).
- `Png`: the scanline stream, chunk framing, IHDR and the whole file. Each comes with a reader used to state round trips.
- `Icons`: `draw_staff` and `draw_scroll`, each specified by the strokes its loops issue, and `solid`, specified through `Pixels.Repeat`.

Randomness, the CRC and the compressor are parameters:

- `r < 3` stands for `Math.floor(Math.random() * 3)`.
- `crc` stands for `zlib.crc32`, which the model reduces modulo 2^32 as `& 0xFFFFFFFF` does.
- `compress` stands for `zlib.compress`.

## Model

| member | source | states |
|---|---|---|
| Elements.StaffId | Wizardiuz_Staff_Addon/BP/scripts/main.js:4 | the staff identifier of an element: `wizardiuz:staff_` followed by its lower-case name |
| Elements.StaffIdInjective | Wizardiuz_Staff_Addon/BP/scripts/main.js:3-4 | distinct elements have distinct staff identifiers |
| Elements.FindStaff | Wizardiuz_Staff_Addon/BP/scripts/main.js:14 | `find` returns an element of the order whose staff identifier equals the id; none means no element of the order has that identifier |
| Elements.ElementFromStaff | Wizardiuz_Staff_Addon/BP/scripts/main.js:13-15 | returns `e` only when the id is exactly `wizardiuz:staff_<e>`; returns none exactly when no element's staff identifier matches (no partial or case-insensitive match) |
| Elements.ElementFromStaffId | Wizardiuz_Staff_Addon/BP/scripts/main.js:13-15 | every staff identifier resolves back to its own element |
| Elements.ScrollId | Wizardiuz_Staff_Addon/BP/scripts/main.js:5-11 | the five scroll identifiers: `scroll_tide_warden` for water, `scroll_banished_sun` for fire, `scroll_gale_sigil` for wind, `scroll_dune_aegis` for sand, `scroll_hail_requiem` for hail |
| Elements.ScrollIdInjective | Wizardiuz_Staff_Addon/BP/scripts/main.js:5-11 | distinct elements have distinct scroll identifiers |
| Elements.ScrollElement | Wizardiuz_Staff_Addon/BP/scripts/main.js:116-118 | a resolved element is the one whose scroll identifier the off-hand item carries; none exactly when no item is present or its identifier is no element's scroll identifier |
| Elements.ScrollElementOf | Wizardiuz_Staff_Addon/BP/scripts/main.js:116-118 | the off-hand resolves to `e` exactly when it holds the scroll of `e`, so each element has exactly one scroll |
| Elements.ToUpper | Wizardiuz_Staff_Addon/BP/scripts/main.js:104 | the upper-cased string has the same length and each character is its ASCII upper case |
| Elements.UpperName | Wizardiuz_Staff_Addon/BP/scripts/main.js:124 | the element name as `toUpperCase` gives it, used by both action-bar lines |
| Elements.UpperNames | Wizardiuz_Staff_Addon/BP/scripts/main.js:124 | the action bar spells the elements WATER, FIRE, WIND, SAND and HAIL |
| Elements.IndexOf | Wizardiuz_Staff_Addon/BP/scripts/main.js:121 | `indexOf` is -1 exactly when the element is absent; otherwise it is the first position holding it |
| Elements.IndexOfStaffOrder | Wizardiuz_Staff_Addon/BP/scripts/main.js:121 | searching the order finds every element at its position |
| Elements.Next | Wizardiuz_Staff_Addon/BP/scripts/main.js:121-122 | the next element sits one position further on, modulo five |
| Elements.NextSearchesOrder | Wizardiuz_Staff_Addon/BP/scripts/main.js:121-122 | `Next(e)` is `STAFF_ORDER[(indexOf(e) + 1) % 5]`, with the index found by searching |
| Elements.HailToWater | Wizardiuz_Staff_Addon/BP/scripts/main.js:121-122 | hail advances to water |
| Elements.NextBijective | Wizardiuz_Staff_Addon/BP/scripts/main.js:121-122 | one step back undoes one step on and vice versa, so the successor is a bijection on the five elements |
| Elements.NextInjective | Wizardiuz_Staff_Addon/BP/scripts/main.js:121-122 | two elements with the same successor are equal |
| Elements.NextNPosition | Wizardiuz_Staff_Addon/BP/scripts/main.js:121-122 | after `n` switches the position has moved on by `n` modulo five |
| Elements.CycleReturns | Wizardiuz_Staff_Addon/BP/scripts/main.js:121-122 | five switches, or any multiple of five, bring a staff back to its starting element |
| Abilities.Pool | Wizardiuz_Staff_Addon/BP/scripts/main.js:56-97 | every element's ability table has exactly six entries |
| Abilities.Subset | Wizardiuz_Staff_Addon/BP/scripts/main.js:101 | each slice of the table has three entries |
| Abilities.Choose | Wizardiuz_Staff_Addon/BP/scripts/main.js:99-102 | the chosen ability is table entry `r` when standing and `3 + r` when sneaking, so its index lies in [0,3) or [3,6) respectively |
| Abilities.ChooseCoversSubset | Wizardiuz_Staff_Addon/BP/scripts/main.js:101-102 | every ability of the designated subset is chosen by some draw |
| Abilities.PoolDistinct | Wizardiuz_Staff_Addon/BP/scripts/main.js:56-97 | no two entries of one element's table are equal |
| Abilities.Pushes | Wizardiuz_Staff_Addon/BP/scripts/main.js:61 | the abilities whose routine starts with `pushBurst` (Riptide Burst, line 61; Cyclone Jab, line 74): the only routines with an unguarded per-entity knockback request |
| Abilities.PushingEntries | Wizardiuz_Staff_Addon/BP/scripts/main.js:56-97 | of the thirty table entries exactly water's fourth and wind's first call `pushBurst` |
| Abilities.CastText | Wizardiuz_Staff_Addon/BP/scripts/main.js:104 | the cast line: section-sign colour codes around the upper-cased element, then the ability's name and its category in parentheses |
| Abilities.ChooseNeverOtherSubset | Wizardiuz_Staff_Addon/BP/scripts/main.js:101-102 | a cast never runs an ability from the other sneak state's subset |
| Dispatcher.Decide | Wizardiuz_Staff_Addon/BP/scripts/main.js:107-138 | exactly one of ignore / switch / hint / cast applies, each characterised (both directions) by the held staff, the sneak flag and the off-hand scroll; a switch goes to the next element; a cast uses the scroll's element, realigns exactly when it differs from the staff's, and runs the ability `r` picks |
| Dispatcher.SwitchText | Wizardiuz_Staff_Addon/BP/scripts/main.js:124 | the switch line: `Element switched: ` and the upper-cased next element, with colour codes |
| Dispatcher.StaffStack | Wizardiuz_Staff_Addon/BP/scripts/main.js:25 | the fresh stack a realignment writes: the element's staff identifier, quantity one |
| Dispatcher.HeldElement | Wizardiuz_Staff_Addon/BP/scripts/main.js:108-114 | the element of the used staff, none for an invalid player, a missing item or an item that is no staff |
| Dispatcher.OffhandElement | Wizardiuz_Staff_Addon/BP/scripts/main.js:116-118 | the element of the off-hand scroll, none when the off-hand is empty or holds anything else |
| Dispatcher.Completes | Wizardiuz_Staff_Addon/BP/scripts/main.js:41-48 | an effect routine returns normally unless it calls `pushBurst` and the engine rejects a knockback, which `pushBurst` does not catch; the engine's neighbour query and command calls are taken never to throw |
| Dispatcher.WithCast | Wizardiuz_Staff_Addon/BP/scripts/main.js:99-105 | `castAbility` after its choice: the run, then the action-bar report, which a throwing routine never reaches |
| Dispatcher.Apply | Wizardiuz_Staff_Addon/BP/scripts/main.js:116-137 | carrying out any outcome keeps the number of slots, changes no slot but the selected one, only appends to the request log, and appends nothing exactly when the event is ignored |
| Dispatcher.Step | Wizardiuz_Staff_Addon/BP/scripts/main.js:107-138 | one event leaves the state unchanged exactly when the handler returns early without acting |
| Dispatcher.WithStaff | Wizardiuz_Staff_Addon/BP/scripts/main.js:21-26 | without an inventory nothing changes; otherwise only the selected slot changes and it holds one staff of the element; one slot write is requested |
| Dispatcher.UnrecognisedUseIgnored | Wizardiuz_Staff_Addon/BP/scripts/main.js:108-114 | an invalid player, no item, or an item that is no staff leaves the state untouched: no slot write, no text, no cast |
| Dispatcher.SneakSwitchesElement | Wizardiuz_Staff_Addon/BP/scripts/main.js:120-126 | sneaking without a scroll writes the next element's staff (quantity 1) into the selected slot and shows "Element switched: NEXT"; no ability runs |
| Dispatcher.SwitchEffect | Wizardiuz_Staff_Addon/BP/scripts/main.js:123-124 | a switch writes the slot first, then the action bar, and runs nothing |
| Dispatcher.SneakSwitchFromHail | Wizardiuz_Staff_Addon/BP/scripts/main.js:120-126 | a hail staff switches to a water staff |
| Dispatcher.StandingShowsHint | Wizardiuz_Staff_Addon/BP/scripts/main.js:128-131 | standing without a scroll sets only the hint text; the slots are unchanged and no ability runs |
| Dispatcher.ScrollCastsItsElement | Wizardiuz_Staff_Addon/BP/scripts/main.js:133-137 | with a scroll of element B: the slot becomes staff B before the ability runs, exactly when B differs from the staff's element; the ability is one of B's, from the sneak-designated subset; the action bar names B and the ability, unless the ability's routine threw, in which case neither the action bar nor any further request changes |
| Dispatcher.CastEffect | Wizardiuz_Staff_Addon/BP/scripts/main.js:133-137 | a cast issues the optional slot write, then the ability run, then the action-bar text, in that order; a throwing routine keeps the slot write and the run and skips the text |
| Dispatcher.Player.SetMainhandToElement | Wizardiuz_Staff_Addon/BP/scripts/main.js:21-26 | the in-place slot update performs `WithStaff` on the player's state |
| Dispatcher.Player.RunAbility | Wizardiuz_Staff_Addon/BP/scripts/main.js:103 | running an ability appends one run request and changes nothing else; it reports completion exactly when the routine does not throw |
| Dispatcher.Player.SetActionBarText | Wizardiuz_Staff_Addon/BP/scripts/main.js:104 | the action bar holds the text and one text request is appended |
| Dispatcher.Player.CastAbility | Wizardiuz_Staff_Addon/BP/scripts/main.js:99-105 | runs the ability `r` picks from the designated subset, then reports element and ability on the action bar unless the routine threw: exactly `WithCast` |
| Dispatcher.OnItemUse | Wizardiuz_Staff_Addon/BP/scripts/main.js:107-138 | the handler's early-return sequence leaves the player exactly in the state `Step` defines |
| Entities.NearbyMobs | Wizardiuz_Staff_Addon/BP/scripts/main.js:28-31 | the filter never returns more entities than the query found |
| Entities.IsMob | Wizardiuz_Staff_Addon/BP/scripts/main.js:30 | the filter predicate: the entity is not the caster and not a dropped item (`minecraft:item`) |
| Entities.NearbyMobsExact | Wizardiuz_Staff_Addon/BP/scripts/main.js:28-31 | keeps exactly the found entities whose id differs from the caster's and whose type is not `minecraft:item` |
| Entities.NearbyMobsOne | Wizardiuz_Staff_Addon/BP/scripts/main.js:30 | one entity is kept exactly when it is a mob |
| Entities.NearbyMobsAppend | Wizardiuz_Staff_Addon/BP/scripts/main.js:30 | filtering a concatenation concatenates the filtered parts, so the filter keeps order and repetitions |
| Entities.Hits | Wizardiuz_Staff_Addon/BP/scripts/main.js:33-39 | never more hits than targets; each hit carries the requested amount, cause and damaging entity |
| Entities.HitsBestEffort | Wizardiuz_Staff_Addon/BP/scripts/main.js:33-39 | a hit is recorded exactly for the targets that accept damage, whatever the others do |
| Entities.HitsCount | Wizardiuz_Staff_Addon/BP/scripts/main.js:33-39 | the number of hits is the number of targets minus the rejecting ones |
| Entities.DamageRing | Wizardiuz_Staff_Addon/BP/scripts/main.js:33-39 | the loop attempts every nearby mob, in order, and records the hits of the best-effort pass |
| Bytes.BE32 | Wizardiuz_Staff_Addon/tools/build_addon.py:22 | `struct.pack(">I", n)` gives four bytes that read back as `n` |
| Bytes.BE32OfFromBE32 | Wizardiuz_Staff_Addon/tools/build_addon.py:22 | packing what four bytes read as gives back those bytes |
| Pixels.Repeat | Wizardiuz_Staff_Addon/tools/build_addon.py:104 | `n` copies of a pixel: length `4n`, and every pixel equals the colour |
| Pixels.Blank | Wizardiuz_Staff_Addon/tools/build_addon.py:45-46 | the blank buffer has `4*w*h` bytes, all zero |
| Pixels.InBoundsFits | Wizardiuz_Staff_Addon/tools/build_addon.py:50-52 | a pixel that passes the `setpx` guard lies wholly inside the buffer |
| Pixels.InBounds | Wizardiuz_Staff_Addon/tools/build_addon.py:50 | the `setpx` guard: `0 <= x < w` and `0 <= y < len(buf) // (w * 4)` |
| Pixels.Offset | Wizardiuz_Staff_Addon/tools/build_addon.py:51 | the first byte of pixel `(x, y)`: `(y * w + x) * 4` |
| Pixels.OffsetsApart | Wizardiuz_Staff_Addon/tools/build_addon.py:51 | two different pixels never share a byte |
| Pixels.WithPixel | Wizardiuz_Staff_Addon/tools/build_addon.py:49-52 | in bounds, the pixel's four bytes become the colour and every other byte is unchanged; out of bounds, the buffer is unchanged; the length never changes |
| Pixels.SetPx | Wizardiuz_Staff_Addon/tools/build_addon.py:49-52 | the in-place write leaves the array holding `WithPixel` of its old contents |
| Pixels.Paint | Wizardiuz_Staff_Addon/tools/build_addon.py:55-100 | drawing any list of strokes keeps the buffer length |
| Pixels.PaintAppend | Wizardiuz_Staff_Addon/tools/build_addon.py:55-100 | drawing two stroke lists one after the other is drawing their concatenation |
| Pixels.PaintPixel | Wizardiuz_Staff_Addon/tools/build_addon.py:49-52 | after drawing, each pixel holds the colour of the last in-bounds stroke aimed at it, or its original bytes |
| Png.Slice | Wizardiuz_Staff_Addon/tools/build_addon.py:32 | Python's clipped slice agrees with the exact slice when the bounds fit |
| Png.Scanlines | Wizardiuz_Staff_Addon/tools/build_addon.py:28-32 | the row loop builds the raw stream `Rows` |
| Png.Rows | Wizardiuz_Staff_Addon/tools/build_addon.py:28-32 | the raw stream: for each row in turn, filter byte 0 and then the row's pixel bytes (clipped like a Python slice); its shape is stated by `RowsLength` and `RowsLine` |
| Png.Row | Wizardiuz_Staff_Addon/tools/build_addon.py:31-32 | the pixel bytes of row `y`: the slice of `4w` bytes starting at `y * w * 4`, clipped like a Python slice |
| Png.RowsLength | Wizardiuz_Staff_Addon/tools/build_addon.py:28-32 | with at least `h` rows of pixels, the stream has `h*(1+4w)` bytes |
| Png.RowsLine | Wizardiuz_Staff_Addon/tools/build_addon.py:28-32 | line `y` of the stream is filter byte 0 followed by pixel bytes `[4wy, 4w(y+1))` |
| Png.Chunk | Wizardiuz_Staff_Addon/tools/build_addon.py:20-26 | a chunk has `12 + len(data)` bytes |
| Png.ChunkRoundTrip | Wizardiuz_Staff_Addon/tools/build_addon.py:20-26 | reading a framed chunk gives back its type and data, checks its CRC, and leaves what followed it |
| Png.Ihdr | Wizardiuz_Staff_Addon/tools/build_addon.py:34 | the IHDR data is 13 bytes |
| Png.IhdrRoundTrip | Wizardiuz_Staff_Addon/tools/build_addon.py:34 | the IHDR reads back as width `w`, height `h`, bit depth 8, colour type 6, and compression, filter and interlace 0 |
| Png.ThreeChunks | Wizardiuz_Staff_Addon/tools/build_addon.py:37-39 | the IHDR, IDAT and IEND chunks in a row read back as those three chunks |
| Png.Encode | Wizardiuz_Staff_Addon/tools/build_addon.py:34-40 | nothing exactly when the width, height or compressed length does not fit 32 bits; otherwise `57 + len(idat)` bytes starting with the PNG signature |
| Png.EncodeParses | Wizardiuz_Staff_Addon/tools/build_addon.py:35-40 | the payload starts with the PNG signature and reads back as exactly IHDR(header), IDAT(compressed stream), IEND(empty) |
| Png.PngWrite | Wizardiuz_Staff_Addon/tools/build_addon.py:19-40 | `png_write` produces `Encode`, or nothing where a 32-bit field would overflow |
| Icons.Span | Wizardiuz_Staff_Addon/tools/build_addon.py:83-84 | a row loop issues one stroke per `x` in `[x0, x1)`, in order |
| Icons.Rect | Wizardiuz_Staff_Addon/tools/build_addon.py:82-84 | the strokes of a nested `y`/`x` loop filling a rectangle in one colour, row by row |
| Icons.ColumnPair | Wizardiuz_Staff_Addon/tools/build_addon.py:61-63 | the strokes of a `y` loop writing two columns, left then right on each row |
| Icons.RowPair | Wizardiuz_Staff_Addon/tools/build_addon.py:85-87 | the strokes of an `x` loop writing two rows, upper then lower at each column |
| Icons.Points | Wizardiuz_Staff_Addon/tools/build_addon.py:64-69 | the strokes of a loop over a point list, in list order and one colour |
| Icons.Tint | Wizardiuz_Staff_Addon/tools/build_addon.py:80 | the scroll's tint: its colour with alpha 180 |
| Icons.RectExact | Wizardiuz_Staff_Addon/tools/build_addon.py:82-84 | the nested loops paint exactly the pixels of the rectangle, in its colour |
| Icons.ColumnPairExact | Wizardiuz_Staff_Addon/tools/build_addon.py:61-63 | the column loop paints exactly the two columns over the `y` range |
| Icons.RowPairExact | Wizardiuz_Staff_Addon/tools/build_addon.py:85-87 | the row loop paints exactly the two rows over the `x` range |
| Icons.PointsExact | Wizardiuz_Staff_Addon/tools/build_addon.py:64-65 | the point loop paints exactly the listed points |
| Icons.OnIconInBounds | Wizardiuz_Staff_Addon/tools/build_addon.py:50 | on a 16 x 16 icon every stroke passes the `setpx` guard of the 1024-byte buffer |
| Icons.StaffStrokes | Wizardiuz_Staff_Addon/tools/build_addon.py:61-70 | the strokes of `draw_staff` in issue order: shaft columns, crook, band, crystal, glint |
| Icons.StaffStrokeSet | Wizardiuz_Staff_Addon/tools/build_addon.py:61-70 | the staff paints exactly: columns 7 and 8 from row 3 down in wood, the seven crook points in wood, the eight band points in gold, the five crystal points in the crystal colour, and the glint at (11, 2) |
| Icons.ScrollStrokes | Wizardiuz_Staff_Addon/tools/build_addon.py:82-98 | the strokes of `draw_scroll` in issue order: paper, edge rows, edge columns, tint, writing lines |
| Icons.ScrollStrokeSet | Wizardiuz_Staff_Addon/tools/build_addon.py:82-98 | the scroll paints exactly: paper over [3,13) x [2,14), edge rows 2 and 13, edge columns 3 and 12, the tint over [4,12) x [4,12), and edge lines at rows 6 and 8 over [5,11) and row 10 over [5,10) |
| Icons.StaffStrokesOnIcon | Wizardiuz_Staff_Addon/tools/build_addon.py:55-70 | every coordinate `draw_staff` passes lies on the icon |
| Icons.ScrollStrokesOnIcon | Wizardiuz_Staff_Addon/tools/build_addon.py:75-98 | every coordinate `draw_scroll` passes lies on the icon |
| Icons.NoStrokeDropped | Wizardiuz_Staff_Addon/tools/build_addon.py:55-100 | on the icon no write is skipped: each pixel's colour is that of the last stroke aimed at it |
| Icons.BlankPixel | Wizardiuz_Staff_Addon/tools/build_addon.py:45-46 | every pixel of the blank icon is transparent black |
| Icons.IconPixel | Wizardiuz_Staff_Addon/tools/build_addon.py:55-100 | every pixel of a drawn icon is the last stroke's colour there, or transparent black |
| Icons.GlintOnTop | Wizardiuz_Staff_Addon/tools/build_addon.py:68-70 | pixel (11, 2) of a staff is the white glint, written over the crystal |
| Icons.DrawSpan | Wizardiuz_Staff_Addon/tools/build_addon.py:83-84 | the loop paints the span's strokes onto the array |
| Icons.DrawRect | Wizardiuz_Staff_Addon/tools/build_addon.py:82-84 | the nested loops paint the rectangle's strokes onto the array |
| Icons.DrawColumnPair | Wizardiuz_Staff_Addon/tools/build_addon.py:61-63 | the loop paints the column pair's strokes onto the array |
| Icons.DrawRowPair | Wizardiuz_Staff_Addon/tools/build_addon.py:85-87 | the loop paints the row pair's strokes onto the array |
| Icons.DrawPoints | Wizardiuz_Staff_Addon/tools/build_addon.py:64-65 | the loop paints the point list's strokes onto the array |
| Icons.PaintShaft | Wizardiuz_Staff_Addon/tools/build_addon.py:61-67 | the shaft, crook and band loops paint their strokes in order |
| Icons.PaintHead | Wizardiuz_Staff_Addon/tools/build_addon.py:68-70 | the crystal loop and then the glint |
| Icons.PaintStaff | Wizardiuz_Staff_Addon/tools/build_addon.py:61-70 | all the staff loops paint the staff's strokes in order |
| Icons.PaintSheet | Wizardiuz_Staff_Addon/tools/build_addon.py:82-90 | the paper, edge-row and edge-column loops in order |
| Icons.PaintField | Wizardiuz_Staff_Addon/tools/build_addon.py:91-98 | the tint and writing-line loops in order |
| Icons.PaintScroll | Wizardiuz_Staff_Addon/tools/build_addon.py:82-98 | all the scroll loops paint the scroll's strokes in order |
| Icons.DrawStaff | Wizardiuz_Staff_Addon/tools/build_addon.py:55-72 | a 1024-byte image: the blank buffer with the staff's strokes drawn; the payload is its PNG encoding |
| Icons.DrawScroll | Wizardiuz_Staff_Addon/tools/build_addon.py:75-100 | a 1024-byte image: the blank buffer with the scroll's strokes drawn; the payload is its PNG encoding |
| Icons.Solid | Wizardiuz_Staff_Addon/tools/build_addon.py:103-105 | the PNG encoding of `w*h` pixels that all equal the colour |

## Left out

- Engine calls are not modelled beyond a recorded request: `getEntities`, `applyDamage`, `addEffect`, `runCommandAsync`, `ItemStack` construction and `setActionBar`. Their behaviour is not visible. The spatial query is an input, and whether the engine accepts a damage request is a flag on each entity.
- Each ability's effect routine is recorded as "ran" only, with no parameters. Whether it returns normally is modelled: the two routines that call `pushBurst` throw when the engine rejects a knockback, and the cast then skips its action-bar line. Left out with them:
  - the concrete effect parameters;
  - `pushBurst`'s floating-point direction vectors and knockback strengths;
  - which mob's rejected knockback throws: the model has one flag per event, and the `damageRing` a throwing routine skips is part of the unmodelled routine;
  - `effectSelf`;
  - the `system.runTimeout` volleys, which are host scheduling.
- `damageRing`'s default `cause = "magic"`: the cause is always passed in explicitly.
- `Math.random` is an input `r` with `0 <= r < 3`.
- `zlib.crc32` and `zlib.compress` are function parameters. The IDAT contents are opaque.
- File and archive I/O: `path.write_bytes`, `mkdir` and the whole of `main()` with its fixed icon colours.
- Dispatcher.Completes: only a rejected knockback in `pushBurst` makes a routine throw. `getEntities`, reached from every `damageRing` and `pushBurst` call outside their `try`, and the unguarded `runCommandAsync` of main.js lines 58, 66, 85 and 93 are assumed not to throw, so every other routine reaches the action-bar line.
- Elements.ScrollElement: models the lookup table as a map of its five keys. In JavaScript an identifier naming an `Object.prototype` member (such as `constructor`) would also produce a truthy value. No namespaced item identifier can be such a name, so this is not modelled.
- Elements.Next: computes the index from the element's position rather than by a linear search. `NextSearchesOrder` proves that the two agree.
- Elements.ToUpper: upper-cases ASCII letters only, which is all the element names contain.
- Pixels.WithPixel: colour components are bytes by type. Python's `ValueError` for a component outside 0..255 is not modelled.
- Png.Chunk: requires the data length to fit 32 bits, which `struct.pack` demands. The whole-file function `Encode` returns none where the source would raise.
