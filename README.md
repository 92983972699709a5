# A verified model of the Stream Deck driver core

This project models three parts of the Go driver for Elgato Stream Deck
panels (`dh1tw/streamdeck`) in Dafny, and proves properties of the model.

- **Device profiles** (`config.go`, module `Profile` in `profile.dfy`).
  The grid geometry of each hardware generation: button count, panel width
  and height. Also `fixKey`, which renumbers keys for the legacy panel, the
  three shipped profiles, and the first-match choice of a connected
  profile. Whether a device is present is a parameter (`present`). The
  enumeration of the USB transport is not modelled.
- **Input-report decoder** (`event.go`, module `Events` in `events.dfy`).
  `State` is a class whose three growable arrays (`keys`, `dialPush`,
  `dialPos`) are `seq` fields that the methods reassign. `Update` checks
  the sentinel byte and dispatches to one of four decoders:
  - the legacy de-scrambled key report;
  - the modern key report;
  - dial pushes;
  - dial turns.

  `applyBools` and `applyDelta` are loop methods proved against the
  specification functions `BoolsAfter`/`Flipped` and
  `DeltaAfter`/`LastNonZero`. `Decode` is the whole decoder written as a
  function on a `Snapshot` value. `Update`'s contract says that it does
  exactly what `Decode` says.
- **Legacy output framing** (`streamdeck.go`, module `LegacyDeck` in
  `legacy_deck.dfy`). This is the older revision of the driver. It has its
  own `Config` and a fixed `ButtonSize` of 72. The module covers:
  - input validation;
  - the pixel-buffer serialisation loop of `FillImage`;
  - the split into two pages;
  - the two message prefixes, the first of which carries a BMP header;
  - the descending clear order of `ClearAllBtns`;
  - the tile rectangles of `FillPanel`.

  The device is a class `StreamDeck` whose `written` field records every
  buffer passed to the device's `Write`, in order.

`common.dfy` (module `Common`) holds the shared vocabulary:
- bytes, and Go's `byte(v)` truncation;
- `Option`, `Result` and `Outcome`;
- quotient and remainder facts.

Go panics are turned into preconditions. These are an index past the end
of a short report in `Update`, and `%` by a zero column count in `fixKey`.
Errors that the Go code returns are modelled as `Result` or `Outcome`
values. Go's `%` truncates toward zero; it is modelled by `Profile.GoRem`.

Where the code and its documentation disagree, the model follows the code.
`checkValidKeyIndex` is documented as a validity check, but it accepts the
index `NumButtons` itself, one past the last button
(`LegacyDeck.OnePastLastKeyAccepted`).

As written in streamdeck.go:455-460, the first message prefix is 72 bytes
long:
  - a 6-byte report header;
  - 10 zero bytes;
  - a 14-byte BITMAPFILEHEADER;
  - a 40-byte BITMAPINFOHEADER;
  - 2 zero bytes.

## Model

| member | source | states |
|---|---|---|
| Common.ToByte | streamdeck.go:325 | Go's `byte(v)` keeps `v` modulo 256 (the result differs from `v` by a multiple of 256) |
| Profile.NumButtons | config.go:18-20 | one button per cell: non-negative for a non-negative grid, at least the row and column counts |
| Profile.PanelWidth | config.go:23-25 | the right edge of the last column: `(columns - 1)` pitches of `buttonSize + spacer`, plus one button |
| Profile.PanelHeight | config.go:28-30 | the bottom edge of the last row, likewise with the row count |
| Profile.GoRem | config.go:34 | Go's truncated remainder: differs from the dividend by a multiple of the divisor, non-negative and below the divisor's absolute value for a non-negative dividend, non-positive and within that bound for a negative one |
| Profile.FixKey | config.go:32-38 | identity without key conversion; with it, `1 + key - 2*(key % columns) + columns - 1` using Go's remainder |
| Profile.KeyInGrid | config.go:18-20 | every index below `NumButtons` has a row inside the grid and decomposes as row and column |
| Profile.CellInGrid | config.go:18-20 | every (row, column) cell has a row-major index below `NumButtons` that divides back into the cell |
| Profile.FixKeyMirrorsColumn | config.go:32-38 | on the legacy panel `FixKey(k) - 1` stays in the grid, keeps the row, mirrors the column, and mirroring twice gives `k` back |
| Profile.FixKeyRange | config.go:32-38 | keys `[0, NumButtons)` go to device indices in `[1, NumButtons]` |
| Profile.FixKeyInjective | config.go:32-38 | no two keys go to the same device index |
| Profile.FixKeyOnto | config.go:32-38 | the keys reach every device index in `[1, NumButtons]` and nothing else; with `FixKeyInjective`, a bijection |
| Profile.ProfileGeometry | config.go:40-67 | `Original` has 15 buttons on a 436 x 254 panel, `Plus` has 8 on 537 x 259 |
| Profile.FixKeyExamples | config_test.go:11-17 | `Plus` and `Original2` keep key 5; `Original` sends key 4 to 1 and key 5 to 10 |
| Profile.FirstConnected | config.go:71-79 | succeeds iff some candidate is present, and then returns the first present candidate; otherwise the zero config |
| Profile.FindConnectedConfig | config.go:69-79 | a found profile is one of `AllConfigs` and present; not finding one means no profile is present, and the zero config is returned |
| Profile.FindConnectedOrder | config.go:69-79 | the probing order `Original`, `Original2`, `Plus` decides which present profile wins |
| Events.KindName | event.go:20-35 | every kind has a non-empty name without a colon |
| Events.KindNamesDistinct | event.go:20-35 | distinct kinds have distinct names |
| Events.NatDigitsRoundTrip | event.go:42-44 | the decimal digits of `n` read back as `n` |
| Events.Decimal | event.go:42-44 | `%d`: a leading `-` exactly for negative numbers, followed by digits that read back as the absolute value |
| Events.EventString | event.go:42-44 | the kind's name, a single colon, then the index in decimal, so the text splits back into kind and index |
| Events.EventStringExamples | event_test.go:72-74 | `dial-pressed:5`, `key-released:0`, `dial-turn:0` |
| Events.BoolsAfter | event.go:75-95 | the array grows to the data length; covered slots become "byte is nonzero"; the others keep their value |
| Events.FlippedExactly | event.go:75-95 | `Flipped` lists exactly the indices whose value changes, each below the bound, in strictly ascending order |
| Events.FlippedSteady | event.go:75-95 | after the data has been applied, applying it again changes no slot |
| Events.ApplyBools | event.go:75-95 | the loop's array is `BoolsAfter(prev, data)` and its changed list is `Flipped` over the whole data |
| Events.EmitEvents | event.go:111-118 | the event loop yields `EventsOf`: one event per changed index, in order, with the on/off kind from the new value |
| Events.BoolEventsMeaning | event.go:111-118 | a key or dial-push report yields one event per changed index, ascending; the kind is the pressed kind exactly when the new byte is nonzero; every change yields an event |
| Events.SingleFlipEvent | event.go:122-135 | a report that changes exactly one slot yields exactly that slot's event |
| Events.FlippedOnly | event.go:75-95 | when only slot `i` can change, the changed list is `[i]` if it does change and empty otherwise |
| Events.PairFlipEvents | event.go:111-118 | a report that changes exactly two slots yields their two events, lower index first |
| Events.FlippedPair | event.go:75-95 | when only slots `i < k` can change and both do, the changed list is `[i, k]` |
| Events.BoolReportTwiceIsQuiet | event.go:122-135 | the same key or dial-push data handed over twice produces no events the second time |
| Events.SignedByte | event.go:177-181 | the two's-complement value of a byte: in `[-128, 128)` and congruent to the byte |
| Events.Clamp | event.go:177-181 | lands in `[0, DialMax]` and is the identity inside it |
| Events.DialStepClamps | event.go:177-181 | from a position in range, a dial step is the signed delta clamped to `[0, 100]`; a byte below 0x80 never exceeds 100, any other byte never goes below 0 |
| Events.DeltaAfter | event.go:164-186 | the array grows to the data length; dials beyond the data keep their position; new dials step from 50 |
| Events.LastNonZero | event.go:164-170 | the highest index of a nonzero byte, or -1 exactly when every byte is zero |
| Events.LastNonZeroStep | event.go:167-170 | scanning one more byte makes it the last nonzero index when it is nonzero and keeps the answer otherwise |
| Events.DeltaKeepsRange | event.go:164-186 | positions that start in `[0, 100]` stay in `[0, 100]` |
| Events.TurnDial | event.go:175-183 | the update of one dial computes `DialStep`, whose clamping `DialStepClamps` states |
| Events.DeltaAfterPointwise | event.go:164-186 | an array with every covered dial stepped and every other dial kept is exactly `DeltaAfter` |
| Events.ApplyDelta | event.go:164-186 | the loop's array is `DeltaAfter(prev, data)` and its changed index is `LastNonZero(data)` |
| Events.DialWorkedExample | event_test.go:31-57 | 50 to 52, 53, 100, 99, 97 under deltas 2, 1, 50, 255, 254; 0 stays 0 under 255 |
| Events.LegacySource | event.go:104-109 | canonical key `k` is read from the byte in the same row with the mirrored column |
| Events.Descrambled | event.go:104-109 | a legacy body gives exactly 15 canonical key bytes |
| Events.LegacySourceIsMirror | event.go:104-109 | the legacy byte order is the column mirror that `FixKey(Original, k) - 1` applies, and it is an involution |
| Events.Descramble | event.go:104-109 | the nested loop fills the array with `Descrambled(data)` |
| Events.Decode | event.go:52-73 | an error leaves the state unchanged; a dial-push change touches nothing else; the arrays never shrink; dial positions in range stay in range |
| Events.DecodeFailures | event.go:52-73 | a report fails exactly when its first byte is not 1 (`BadSentinel`), it is legacy with a body under 15 bytes (`WrongLegacyLength`), or it is modern with a type byte other than 0 and 3 (`UnknownEventType`) |
| Events.LegacyKeyReport | event.go:58-59 | under a key-converting config, the keys take the de-scrambled body after byte 0, the events are its key events, and the dial arrays are untouched |
| Events.ModernKeyReport | event.go:62-64 | under any other config, a type-0 report sets the keys from byte 4 on, yields their key events, and leaves the dial arrays untouched |
| Events.DialPushReport | event.go:65-67 | a type-3 report with byte 4 zero sets the dial pushes from byte 5 on, yields their dial events, and leaves keys and positions untouched |
| Events.DialTurnReport | event.go:65-69 | a type-3 report with byte 4 nonzero steps the positions by the deltas from byte 5 on, yields one `DialTurn` for the last nonzero delta or none, and leaves keys and pushes untouched |
| Events.RepeatedReportIsQuiet | event.go:52-73 | a key or dial-push report decoded twice in a row produces no events the second time, in both dialects |
| Events.DialTurnReportsLastDial | event.go:152-162 | a dial-turn report yields at most one `DialTurn` event, for the highest dial with a nonzero delta, and none when every delta is zero |
| Events.KeyPressExample | event_test.go:12-16 | from the empty state, a report with key 0 down yields `KeyPressed` 0 and twelve keys with only key 0 set |
| Events.KeyReleaseExample | event_test.go:18-22 | from that state, a report with every key up yields `KeyReleased` 0 and twelve clear keys |
| Events.SecondKeyPressExample | event_test.go:24-28 | from twelve clear keys, a report with key 1 down yields `KeyPressed` 1, with key 1 set and key 0 clear |
| Events.DialPushExamples | event_test.go:59-68 | dial 0 pressed then released, with `dialPush` becoming `[true]` then `[false]` |
| Events.LegacyReportExamples | event_test.go:76-105 | on the legacy panel, body byte 0 is key 4, body byte 14 is key 10, body byte 10 is key 14, and an all-zero body sets no key |
| Events.LegacyPressExample | event_test.go:79-86 | with the `Original` profile from the empty state, body byte 0 yields `KeyPressed` 4 and only key 4 set |
| Events.LegacyReleaseExample | event_test.go:88-93 | an all-zero body then yields `KeyReleased` 4 and fifteen clear keys |
| Events.LegacyKey10Example | event_test.go:95-99 | from clear keys, body byte 14 yields `KeyPressed` 10 |
| Events.LegacyKey14Example | event_test.go:101-105 | with key 10 down, a body with only byte 10 set yields `KeyReleased` 10 and then `KeyPressed` 14 |
| Events.State.constructor | event.go:46-50 | the zero `State`: every array empty |
| Events.State.Update | event.go:52-73 | the result and the new state are those of `Decode` on the old state |
| Events.State.UpdateKeyPressOriginal | event.go:97-120 | a body shorter than 15 bytes is an error and keeps the keys; otherwise the keys and events come from the de-scrambled body |
| Events.State.UpdateKeyPress | event.go:122-135 | the keys become `BoolsAfter(old keys, data)`; the events are `BoolEvents` for keys |
| Events.State.UpdateDialPush | event.go:137-150 | the dial pushes become `BoolsAfter(old pushes, data)`; the events are `BoolEvents` for dials |
| Events.State.UpdateDialTurn | event.go:152-162 | the positions become `DeltaAfter(old positions, data)`; one `DialTurn` event for `LastNonZero(data)`, or none |
| LegacyDeck.NumButtons | streamdeck.go:33-35 | one button per cell: non-negative for a non-negative grid, at least the row and column counts |
| LegacyDeck.PanelWidth | streamdeck.go:38-40 | `(columns - 1)` pitches of `72 + spacer`, plus one button |
| LegacyDeck.PanelHeight | streamdeck.go:43-45 | likewise with the row count |
| LegacyDeck.OriginalGeometry | streamdeck.go:47-52 | this revision's `Original`: 15 buttons on a 436 x 254 panel |
| LegacyDeck.CheckRGB | streamdeck.go:496-501 | passes exactly for components in `0..255`; otherwise the colour-range error |
| LegacyDeck.CheckValidKeyIndex | streamdeck.go:446-451 | passes exactly for `0 <= k <= NumButtons`; otherwise the key-index error |
| LegacyDeck.OnePastLastKeyAccepted | streamdeck.go:446-451 | the index `NumButtons` passes; `NumButtons + 1` does not |
| LegacyDeck.Itob | streamdeck.go:504-509 | released exactly for 0, pressed otherwise, never long-pressed |
| LegacyDeck.SolidButton | streamdeck.go:299-301 | the image `FillColor` draws is 72 pixels wide |
| LegacyDeck.Serialize | streamdeck.go:320-327 | the pixel buffer holds 72 x 72 x 3 bytes |
| LegacyDeck.SerialTriple | streamdeck.go:322-326 | pixel (x, row) is stored at `3*(row*72 + 71 - x)` as its r, b, g low bytes |
| LegacyDeck.PixelTriple | streamdeck.go:322-326 | the three bytes of pixel (x, row) in the buffer are `[r, b, g]` |
| LegacyDeck.PixelOrder | streamdeck.go:322-323 | rows ascend and x descends within a row; distinct pixels have distinct offsets |
| LegacyDeck.SolidButtonBytes | streamdeck.go:299-303 | a solid `(r, g, b)` button serialises to `r, b, g` repeated |
| LegacyDeck.EncodeButton | streamdeck.go:320-327 | the nested loop builds exactly `Serialize(img)` |
| LegacyDeck.SplitPages | streamdeck.go:329-330 | page 1 has 2583 x 3 bytes, page 2 has 2601 x 3, they concatenate to the buffer, and 2583 + 2601 = 72 x 72 |
| LegacyDeck.ReportHeader | streamdeck.go:455 | six bytes ending in the button number `btnIndex + 1` as a byte |
| LegacyDeck.Zeros | streamdeck.go:455-460 | `n` zero bytes |
| LegacyDeck.BmpFileHeaderFields | streamdeck.go:456-457 | the BMP file header: 14 bytes, "BM", file size 54 + 15552, reserved zero, pixel data at offset 54 |
| LegacyDeck.BmpInfoHeaderGeometry | streamdeck.go:457-460 | the BMP info header: 40 bytes, 72 x 72 pixels, 1 plane, 24 bits per pixel |
| LegacyDeck.BmpInfoHeaderSizes | streamdeck.go:457-460 | no compression, image size 15552, 3780 pixels per metre on both axes, no palette |
| LegacyDeck.Msg1Prefix | streamdeck.go:454-460 | the first prefix is 72 bytes long |
| LegacyDeck.Msg1PrefixLayout | streamdeck.go:454-460 | `02 01 01 00 00 (btnIndex+1)`, ten zeros, the BMP file and info headers, two zeros |
| LegacyDeck.Msg2Prefix | streamdeck.go:466-468 | the second prefix is 18 bytes long |
| LegacyDeck.Msg2PrefixLayout | streamdeck.go:466-468 | `02 01 02 00 01 (btnIndex+1)`, then zeros |
| LegacyDeck.ButtonWrites | streamdeck.go:329-335 | one image is written as exactly two messages |
| LegacyDeck.ButtonWritesFraming | streamdeck.go:329-335 | page 1 goes first and page 2 second, with their headers and the button number; removing the prefixes gives the pixel buffer back |
| LegacyDeck.BlackButton | streamdeck.go:272-278 | the black button's buffer is a full pixel buffer |
| LegacyDeck.ClearSequenceOrder | streamdeck.go:281-285 | clearing writes two messages per button, and writes `2j`, `2j+1` are the black button `n-1-j` |
| LegacyDeck.ClearStep | streamdeck.go:281-285 | clearing from button `from` is clearing the higher buttons first, then button `from` |
| LegacyDeck.BlackButtonIsZero | streamdeck.go:272-278 | every byte sent to clear a button is zero |
| LegacyDeck.TileGeometry | streamdeck.go:378-387 | tile (row, col) starts at x = `(columns-1-col)` pitches and y = `row` pitches, spans 71 on each axis, and lies inside the panel |
| LegacyDeck.TilesDisjoint | streamdeck.go:378-387 | tiles of distinct cells do not overlap |
| LegacyDeck.TileAppended | streamdeck.go:374-391 | appending the tile of cell (row, col) at counter `row*columns + col` keeps every tile at its own counter's cell |
| LegacyDeck.PanelTiles | streamdeck.go:374-391 | no tiles for an empty grid; otherwise one tile per button, each tile going to its counter's button with that cell's rectangle (`TilesSoFar`) |
| LegacyDeck.TileOfCell | streamdeck.go:374-391 | tile `row*columns + col` goes to that button with the rectangle of cell (row, col) |
| LegacyDeck.CellIndex | streamdeck.go:376-389 | the counter value of cell (row, col) names a button and divides back into the cell |
| LegacyDeck.StreamDeck.Open | streamdeck.go:135-189 | every button is released, then every button is cleared in descending order |
| LegacyDeck.StreamDeck.WriteMsg1 | streamdeck.go:454-463 | appends prefix 1 plus the page to the write log |
| LegacyDeck.StreamDeck.WriteMsg2 | streamdeck.go:466-471 | appends prefix 2 plus the page to the write log |
| LegacyDeck.StreamDeck.FillImage | streamdeck.go:309-338 | a bad index is reported with nothing written; otherwise the two messages of the serialised image are written, in order |
| LegacyDeck.StreamDeck.FillColor | streamdeck.go:288-304 | any component outside `0..255` is reported before anything is written; otherwise it behaves as `FillImage` of the solid button |
| LegacyDeck.StreamDeck.ClearBtn | streamdeck.go:272-278 | a bad index is reported with nothing written; otherwise the black button's two messages are written |
| LegacyDeck.StreamDeck.ClearAllBtns | streamdeck.go:281-285 | the write log grows by `ClearSequence(NumButtons, 0)`, from the last button down to button 0 |

## Left out

- The USB/HID transport is foreign I/O and is not modelled: `hid.Enumerate` with the vendor id 4057 (config.go:73, streamdeck.go:141), device selection by serial number and `Open` (streamdeck.go:137-164), `Read`, `Close` and `Serial` (streamdeck.go:201-269). `Write` is modelled only as appending to the `written` log.
- The `read` goroutine is concurrent and timer-driven, so it is left out, along with its long-press timers, `stopTimer` channels, the mutex and the callback goroutines (streamdeck.go:186, 201-255). `Itob` and the button table are modelled. The diffing of reports is covered by the `Events` module.
- `resize` and `cropCenter` call an image-filter library (streamdeck.go:474-493). `FillPanel` also computes a `float32` height ratio (streamdeck.go:361-372). Neither is modelled.
- LegacyDeck.StreamDeck.FillImage: modelled only for images 72 pixels wide, because any other width goes through `resize`.
- LegacyDeck.PanelTiles: records each tile's button and rectangle, but not the pixel copy and the `FillImage` call. With Go's half-open rectangles, a tile whose `Max` is `Min + 71` is 71 pixels wide, so that `FillImage` call always goes through `resize`.
- `WriteText`, `FillImageFromFile` and `FillPanelFromFile` need font rendering, image decoding and file I/O (streamdeck.go:340-354, 396-443). They are not modelled.
- `applyBools` and `applyDelta` write into the slice they are handed, which Go shares with the caller when its capacity allows. `State` always replaces its own field with the result, so the sharing is not observable there. The model uses `seq` values and does not capture the sharing.
- `updateDialTurn` returns a nil slice when no dial moved and an empty one elsewhere. Both have length 0, and the model does not distinguish them.
- `Event.String` builds the text with `fmt.Sprintf`; `Events.Decimal` stands in for `%d`.
- Go's `int` is 64 bits wide. The model uses unbounded integers, so any wrap-around in the geometry or the key arithmetic is not modelled. No shipped profile comes near the limit.
- Several features are referenced but defined in files that are not part of this model, so they are not modelled: JPEG encoding, image rotation, padded transactions, brightness and `encodeBMP` (which `TestRGB` in config_test.go:19-29 calls).
- The widget packages, the asset loader and the demo programs are not part of this model.
