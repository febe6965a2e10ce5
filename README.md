# kafic.hr bar ordering: a Dafny model

kafic.hr (“BarLink”) is a serverless ordering app for bars. Waiters and
bartenders open the same page on their phones and join a session by a
six-character code. Their browsers then form a WebRTC mesh. A waiter picks
a table, walks the menu and sends the order. Every bartender's feed shows
one card per table. The lobby shows the join code as a QR code.

This project models the core of that app in Dafny and proves properties of
the model.

- **Network layer** (`Network`, `Presence`, `Protocol`). This is the peer
  presence table, a heartbeat sweep that drops silent peers, and debounced,
  rate-limited self-healing reconnects. It also covers routing inbound
  frames and sending. Time is an explicit `now`. Each timer callback is a
  `Fire…` method. The transport's success is a parameter.
- **QR encoder** (`GaloisField`, `ReedSolomon`, `QrEncode`, `QrMatrix`,
  `QrRender`, `QrSpecs`, `Bits`). Versions 1 to 3 at level L, byte mode,
  mask 0, as in ISO/IEC 18004:2015:
  - GF(256) tables;
  - Reed-Solomon error correction (section 7.5.2);
  - data codewords (sections 7.4.3 to 7.4.10);
  - function patterns (section 6.3);
  - codeword placement (section 7.7.3);
  - masking and format information (sections 7.8 and 7.9).
- **Sessions** (`Session`, `App`). The join-code alphabet and generator,
  the room id and its inverse, normalising a typed or pasted join code,
  starting, joining, resuming and leaving a session, and the peer list the
  network callbacks keep.
- **Order flow** (`Waiter`, `Bartender`, `State`). The quantity dialog,
  menu navigation, the order lines and the back button. It also covers
  sending with a local echo, the bartender's one-card-per-table feed and the
  shared state record with its resets.
- **Data** (`TableData`, `ExtData`, `Menu`, `Manager`). The table count and
  generated table list, and the stored menu (both copies of the data
  module). It also covers the menu editor's edits with a five-favourite cap.
- **Translation** (`I18n`). Dotted-key lookup in the locale tables with
  fallback to the key, first-occurrence `{name}` substitution, and the
  current language.

Code that changes state step by step is a class, with the source's
variables as fields:
- `Network.Connection`, `State.AppState`, `Bartender.Queue`;
- `Waiter.WaiterView`, `TableData.DataStore`, `I18n.Translator`, `App.Shell`.

The methods of these classes state their new state as a function of the old
one. The lemmas prove their properties about those functions. The QR
tables, the bit stream, the error-correction register and the module grid
are built by loops over arrays and sequences, as in the source. Each loop is
proved against a specification function.

## Model

| member | source | states |
|---|---|---|
| QrSpecs.SpecOf | js/qr.js:3-7 | versions 1..3 have 21/25/29 modules, 19/34/55 data and 7/10/15 error-correction codewords and their alignment positions; any other version has no entry |
| Bits.Bit | js/qr.js:54 | `(v >>> k) & 1` is 0 or 1 and is bit k of v |
| Bits.BitsOf | js/qr.js:53-55 | `pushBits(value, length)` emits `length` bits, most significant first, each bit of the value |
| Bits.Xor8 | js/qr.js:15 | xor of two bytes is a byte |
| GaloisField.ExpStep | js/qr.js:13-17 | each power in the exponent table is the previous one doubled and reduced by 0x11d |
| GaloisField.StepInjective | js/qr.js:14-16 | the doubling step is injective, so the powers never repeat early |
| GaloisField.ExpNonZero | js/qr.js:12-17 | every entry of the exponent table lies in 1..255 |
| GaloisField.ExpOrder | js/qr.js:11-17 | 2 has multiplicative order exactly 255 |
| GaloisField.ExpPeriod | js/qr.js:13-17 | `gfExp[i + 255] == gfExp[i]` for every index of the table |
| GaloisField.ExpInjective | js/qr.js:11-17 | the first 255 powers are pairwise distinct |
| GaloisField.Log | js/qr.js:18 | the logarithm of a non-zero byte is below 255 and its power is that byte |
| GaloisField.LogExp | js/qr.js:18 | `gfLog[gfExp[i]] == i` for i < 255 |
| GaloisField.PowerOf | js/qr.js:11-18 | every non-zero byte is a power of 2 below exponent 255 |
| GaloisField.GfMul | js/qr.js:21 | `gfMul(a, b)` is 0 exactly when a or b is 0 |
| GaloisField.GfMulCommutes | js/qr.js:21 | `gfMul` is commutative |
| GaloisField.GfMulExp | js/qr.js:21 | multiplying two powers adds their exponents |
| GaloisField.GfMulOne | js/qr.js:21 | 1 is the unit of `gfMul` |
| GaloisField.TableMul | js/qr.js:21 | reading the filled tables as the source does gives `GfMul` |
| GaloisField.InitGF | js/qr.js:11-19 | `initGF` fills 512 exponent and 256 logarithm entries with exactly the powers and the logarithms |
| GaloisField.FillExp | js/qr.js:12-17 | the first loop writes power i to every cell i < 512 |
| GaloisField.FillLog | js/qr.js:18 | the second loop leaves `gfLog[gfExp[k]] == k` for k < 255 and 0 elsewhere |
| GaloisField.LogTable | js/qr.js:18 | such a table is the logarithm |
| ReedSolomon.GenPolyShape | js/qr.js:23-35 | the generator of degree d has d + 1 coefficients and leading coefficient 1 |
| ReedSolomon.GenPolyStep | js/qr.js:25-33 | one outer round multiplies by the factor (x + 2^i) |
| ReedSolomon.BuildGeneratorPoly | js/qr.js:23-35 | `buildGeneratorPoly(d)` returns the product of (x + 2^i) for i < d |
| ReedSolomon.MulByFactor | js/qr.js:26-31 | the inner loop over a zero-filled `next` computes poly times (x + c) |
| ReedSolomon.GeneratorCache.constructor | js/qr.js:37 | the cache starts empty |
| ReedSolomon.GeneratorCache.Get | js/qr.js:38-43 | `getGeneratorPoly(d)` equals `buildGeneratorPoly(d)`, and a miss stores it |
| ReedSolomon.Remainder | js/qr.js:79-94 | the remainder of data times x^n divided by the generator has n coefficients |
| ReedSolomon.Shift | js/qr.js:85-86 | `ec.shift(); ec.push(0)` drops the head and appends 0 |
| ReedSolomon.Absorb | js/qr.js:87-91 | the inner loop xors in the scaled generator, leading coefficient left out |
| ReedSolomon.Lfsr | js/qr.js:83-92 | the register after the data has as many cells as the generator's degree |
| ReedSolomon.LfsrRemainder | js/qr.js:79-94 | the shift register of `computeEC` computes the long-division remainder |
| ReedSolomon.ComputeEC | js/qr.js:79-94 | `computeEC` returns exactly `ecCodewords` bytes, the Reed-Solomon remainder of the data |
| ReedSolomon.Register | js/qr.js:83-92 | the `forEach` over the data bytes leaves the register of the data |
| ReedSolomon.FeedLoop | js/qr.js:88-90 | the loop `ec[i] ^= gfMul(generatorPoly[i + 1], factor)` absorbs the factor |
| ReedSolomon.FeedZero | js/qr.js:87 | with a zero factor, skipping the loop changes nothing |
| QrEncode.BytesBits | js/qr.js:59 | the payload's bit stream is eight bits per byte, most significant first |
| QrEncode.Header | js/qr.js:57-59 | the mode indicator 0100, the count byte and the payload, 12 + 8n bits |
| QrEncode.PadBytes | js/qr.js:70-75 | the pad codewords alternate 0xEC and 0x11, starting with 0xEC |
| QrEncode.Padded | js/qr.js:70-75 | padding reaches the capacity and adds nothing to data that already fills it |
| QrEncode.TerminateFour | js/qr.js:61-64 | a stream 4 bits past a byte boundary always gets 4 zero bits, from the terminator or from alignment |
| QrEncode.StreamReady | js/qr.js:61-64 | the terminated and aligned stream is n + 2 whole bytes |
| QrEncode.Pack | js/qr.js:66-69 | one codeword for each group of eight bits |
| QrEncode.BitsOfPack | js/qr.js:66-69 | the codewords of a byte-aligned stream hold exactly its bits |
| QrEncode.PackBytes | js/qr.js:66-69 | packing the bit stream of bytes gives back the bytes |
| QrEncode.Codewords | js/qr.js:52-76 | the data codewords number max(n + 2, capacity) |
| QrEncode.EncodeSpec | js/qr.js:45-76 | an unsupported version or more bytes than the capacity throw; all else gives the codewords |
| QrEncode.DecodeBits | js/qr.js:57-59 | a reader parses the mode, the count and that many bytes, or fails for a short stream |
| QrEncode.CodewordsBits | js/qr.js:52-76 | the codewords' bits are the header, four zero bits and the pad codewords |
| QrEncode.EncodeDecode | js/qr.js:45-76 | a reader recovers mode 0100 and exactly the payload from any result of `encodeData` |
| QrEncode.EncodeLayout | js/qr.js:52-76 | for n <= capacity - 2 the result is exactly the capacity: header, terminator, then 0xEC/0x11 |
| QrEncode.EncodeOverflow | js/qr.js:49-50 | as written, n = capacity - 1 or capacity passes the check and yields 1 or 2 codewords too many |
| QrEncode.Version1Overflow | js/qr.js:49-50 | 19 bytes at version 1 yield 21 data codewords where 19 fit |
| QrEncode.EncodeChecked | js/qr.js:49-50 | the corrected check rejects n + 2 > capacity |
| QrEncode.EncodeCheckedFits | js/qr.js:45-76 | whatever the corrected check accepts fills the symbol exactly and decodes to the payload |
| QrEncode.ChooseVersionAsWritten | js/qr.js:256-259 | version 1 if the bytes fit 19, else 2 if they fit 34, else 3 |
| QrEncode.ChooseVersionOverflow | js/qr.js:256-260 | 18 bytes choose version 1, whose 19 codewords cannot hold the 20 the encoder returns |
| QrEncode.ChooseVersionAsWrittenEncodes | js/qr.js:256-260 | as written, `encodeData` at the chosen version throws exactly for more than 55 bytes |
| QrEncode.ChooseVersion | js/qr.js:256-259 | the corrected choice is the smallest version holding n + 2 codewords, else 3 |
| QrEncode.ChooseVersionFits | js/qr.js:256-260 | with the corrected choice, encoding fails exactly for more than 53 bytes and otherwise fills the symbol |
| QrEncode.ChooseVersionsDiffer | js/qr.js:256-259 | the as-written and the corrected choice differ exactly for 18, 19, 33 and 34 bytes, by one version |
| QrEncode.PushBits | js/qr.js:53-55 | the loop appends the `length` bits of the value, most significant first |
| QrEncode.PushBytes | js/qr.js:59 | the `forEach` appends the bit stream of the payload |
| QrEncode.AlignToByte | js/qr.js:64 | the loop appends exactly the zeros up to the next multiple of 8 |
| QrEncode.PackGroups | js/qr.js:66-69 | the loop reads each group of eight bits as one codeword |
| QrEncode.PadData | js/qr.js:70-75 | the loop appends 0xEC/0x11 in turn up to the capacity |
| QrEncode.BuildStream | js/qr.js:52-64 | the bit array is mode, count, payload, terminator and alignment zeros |
| QrEncode.PushHeader | js/qr.js:57-59 | the three header pushes give `Header(bytes)` |
| QrEncode.PushTerminator | js/qr.js:61-64 | the terminator is `min(4, remaining)` zeros, then zeros to the byte boundary |
| QrEncode.EncodeData | js/qr.js:45-77 | `encodeData` as written, on the UTF-8 bytes: the result of `EncodeSpec` |
| QrEncode.EncodeDataChecked | js/qr.js:45-77 | the encoder with the corrected capacity check: the result of `EncodeChecked` |
| QrMatrix.Size | js/qr.js:4-6 | the side of a supported version is 17 + 4 * version |
| QrMatrix.AlignCentre | js/qr.js:139-149 | of all pairings of alignment positions, only (last, last) is drawn |
| QrMatrix.ReservedGrid | js/qr.js:96-158 | the reservation map is exactly the functional cells of the version |
| QrMatrix.PlaceFinder | js/qr.js:102-114 | `placeFinder` draws and reserves the clipped 9x9 window and changes nothing else |
| QrMatrix.PlaceAlign | js/qr.js:127-138 | `placeAlign` draws (dark unless at distance 1) and reserves the 5x5 window |
| QrMatrix.PlaceTiming | js/qr.js:120-123 | row and column 6 alternate dark at even indices on the cells not yet reserved, and become reserved |
| QrMatrix.PlaceAlignments | js/qr.js:139-149 | the double loop skips the three finder-corner pairings and draws the others |
| QrMatrix.FormatPositions | js/qr.js:152-156 | the format cells in the order the two loops push them |
| QrMatrix.ReserveFormat | js/qr.js:157-158 | the format area and the dark module are reserved; no module changes |
| QrMatrix.PlaceFunctionPatterns | js/qr.js:96-158 | all function patterns in place: reserved exactly the functional cells, with their values |
| QrMatrix.PosOfCell | js/qr.js:174-191 | the placement walk reaches every cell off column 6 exactly once |
| QrMatrix.ColumnWalk | js/qr.js:174-191 | the outer loop runs once per column pair, with column 6 moved to 5 |
| QrMatrix.DataGrid | js/qr.js:160-191 | the data value of every cell as a grid |
| QrMatrix.PlaceModule | js/qr.js:177-182 | an unreserved cell takes the next codeword bit while bits remain |
| QrMatrix.PlaceStep | js/qr.js:177-182 | the `cOffset` loop does the right cell of the pair, then the left |
| QrMatrix.PlacePair | js/qr.js:176-190 | one column pair, walked from end to end, after which the direction flips |
| QrMatrix.PlaceData | js/qr.js:160-191 | the placement loops give every data cell its codeword bit in placement order |
| QrMatrix.WalkComplete | js/qr.js:174-191 | past the last pair, every data cell has its value |
| QrMatrix.ReservedGridWalks | js/qr.js:96-158 | the reservation map of a version admits the walk |
| QrMatrix.BuildMatrix | js/qr.js:96-194 | `buildMatrix` returns a side x side matrix with function patterns, reservation and data as specified |
| QrMatrix.FinderCorners | js/qr.js:102-118 | the three finders with light separators sit in three corners, whatever the data |
| QrMatrix.TimingPatterns | js/qr.js:120-123 | row and column 6 between the finders are dark exactly at even indices |
| QrMatrix.ReservedIgnoresData | js/qr.js:179 | no codeword bit reaches a reserved cell |
| QrMatrix.TimingColumnReserved | js/qr.js:175 | column 6 holds no data |
| QrMatrix.PlacementOrder | js/qr.js:160-191 | a data cell the walk reaches earlier takes an earlier bit |
| QrMatrix.DataCellsDistinct | js/qr.js:166-172 | no two data cells take the same codeword bit |
| QrRender.FormatBitsForMask0 | js/qr.js:198-205 | the BCH computation of `formatBitsForMask0` gives 0x77C4 |
| QrRender.FormatWordOfMask0 | js/qr.js:198-205 | 0x77C4 xor the mask is 01000 followed by the remainder of the generator 0x537 |
| QrRender.FormatIndex | js/qr.js:217-226 | which format bit each cell of row 8 and column 8 carries |
| QrRender.MaskFunction | js/qr.js:196 | mask 000 darkens exactly the cells whose row and column have the same parity |
| QrRender.ApplyMask | js/qr.js:209-214 | mask 000 flips exactly the unreserved cells with r + c even |
| QrRender.FormatCopies | js/qr.js:217-226 | each format bit has exactly its two copies |
| QrRender.WriteFormatBit | js/qr.js:218-225 | one round writes bit i into its column-8 cell and its row-8 cell |
| QrRender.PlaceFormat | js/qr.js:216-227 | the format loop and the dark module at (side - 8, 8) |
| QrRender.ApplyMaskAndFormat | js/qr.js:207-228 | every cell ends masked, format-written or as drawn, as specified |
| QrRender.FormatCellsReserved | js/qr.js:152-158 | the format cells and the dark module are reserved, so no data bit is overwritten |
| QrRender.SymbolUnmask | js/qr.js:207-214 | unmasking a data cell gives back the bit placed there |
| QrRender.SymbolFunctionPatterns | js/qr.js:207-228 | masking and format writing leave the other function patterns as drawn |
| QrRender.SymbolFinders | js/qr.js:207-228 | the three finders survive masking and format writing |
| QrRender.SymbolFormat | js/qr.js:216-227 | both copies of format bit i carry it, and the dark module is dark |
| QrRender.FinishSymbol | js/qr.js:263-264 | `buildMatrix`, then `applyMaskAndFormat`, give the finished symbol |
| QrRender.RenderQR | js/qr.js:252-271 | with the corrected version choice and capacity check: true exactly for a canvas and 1..53 bytes, and then the finished symbol of the smallest version that holds the payload and its overhead |
| QrRender.RenderQRAsWritten | js/qr.js:252-271 | as written: true exactly for a canvas and 1..55 bytes, and then the finished symbol of the as-written version over the as-written codewords |
| QrRender.RenderAsWrittenOverfills | js/qr.js:252-271 | for 54 and 55 bytes the as-written `renderQR` draws version 3 with more data codewords than it holds, where the corrected one fails |
| Presence.Set | js/network.js:34 | `presence.set`: an existing key keeps its place with the new time, a new key is appended |
| Presence.Touch | js/network.js:30-34 | an empty id changes nothing; otherwise the id is set to `now` |
| Presence.Delete | js/network.js:50 | `presence.delete(id)` never grows the table |
| Presence.DeleteKeys | js/network.js:50 | deleting keeps the ids distinct and shrinks the size by one exactly when the key was there |
| Presence.DeleteKeySet | js/network.js:141 | delete removes exactly the key and is the identity on a missing key |
| Presence.Sweep | js/network.js:47-54 | the sweep at `now` never grows the table |
| Presence.StaleIds | js/network.js:47-54 | one expired id for each entry the sweep removes |
| Presence.DistinctCard | js/network.js:28 | with distinct ids the Map's size is its number of keys |
| Presence.SweepKeepsFresh | js/network.js:47-54 | the sweep keeps exactly the entries with `now - lastSeen <= 6000` |
| Presence.SweepKeys | js/network.js:47-54 | the sweep only removes ids and keeps them distinct |
| Presence.SweepLeavesShape | js/network.js:51 | the k-th `leave` names the k-th expired peer and reports size - k - 1 peers |
| Presence.HealthEventsShape | js/network.js:47-58 | one `leave` per removed peer in Map order, then one `peers` exactly when something was removed |
| Presence.SweepStepDrop | js/network.js:47-53 | deleting while iterating: after each expired entry the table is the sweep of the visited prefix plus the rest |
| Presence.SweepStepKeep | js/network.js:47-48 | the same step for a kept entry |
| Presence.SweepLeavesStep | js/network.js:51 | one iteration's event is a `leave` with the current size, or nothing |
| Presence.DropStep | js/network.js:47-54 | one iteration keeps the loop's table, events and `changed` flag in step with the sweep |
| Presence.SweepFromResult | js/network.js:44-58 | the loop computes the sweep, its `leave` events and whether anything was removed |
| Presence.TouchCountsDistinctIds | js/network.js:28-40 | without removals the count is the number of distinct non-empty ids touched |
| Presence.TimeoutBoundary | js/network.js:48 | a peer seen at 0 is still present at 5999 and gone at 6001 |
| Presence.TwoPeersLostInOneSweep | js/network.js:42-58 | two peers expiring in one sweep give two `leave` events and one `peers(0)` |
| Network.Target | js/network.js:167-171 | an empty target id means broadcast, any other id is a unicast |
| Network.RouteStatus | js/network.js:153-157 | only a NETWORK_UPDATE with a sender id becomes a status event |
| Network.RouteData | js/network.js:121-161 | heartbeats and NETWORK_UPDATE never reach `onData`; all else does, unchanged |
| Network.InitialRoomId | js/network.js:230 | the given room id, else the restored one, else empty |
| Network.InitialSessionCode | js/network.js:231-236 | the restored code, else the upper-cased suffix of a `barlink-` room id, else empty |
| Network.RemoveFirst | js/network.js:96 | `clearTimeout` removes one occurrence of the deadline from the timer pool |
| Network.SweepLoop | js/network.js:47-54 | the deleting loop computes the sweep and its `leave` events |
| Network.Connection.constructor | js/network.js:5-26 | module load: no room, no peers, no timers, empty logs |
| Network.Connection.PeerCount | js/network.js:28 | `peerCount()` is the number of distinct tracked peers |
| Network.Connection.UpdateLastSeen | js/network.js:30-40 | presence is touched; a new id logs exactly `join` then `peers` |
| Network.Connection.CheckHealth | js/network.js:42-66 | sweeps, logs the events, and forces a reconnect exactly when a non-empty table became empty |
| Network.Connection.DropExpired | js/network.js:47-54 | the loop leaves the sweep and its `leave` events; `changed` iff something was removed |
| Network.Connection.StartHeartbeat | js/network.js:68-85 | a prior interval is cleared first: exactly one heartbeat loop runs |
| Network.Connection.StopHeartbeat | js/network.js:87-90 | no heartbeat loop runs afterwards |
| Network.Connection.FireHeartbeat | js/network.js:70-84 | one tick sends a heartbeat (a failed send forces a reconnect), then checks health |
| Network.Connection.ScheduleSoftReconnect | js/network.js:92-105 | an unforced request within 3000 ms is ignored; otherwise the one pending timer is replaced by one due in 1000 ms |
| Network.Connection.FireReconnectTimer | js/network.js:100-104 | the timer is cleared and `lastReconnectAt` set first, then `softReconnect` runs |
| Network.Connection.SoftReconnect | js/network.js:200-225 | nothing without a room id; else heartbeat stopped, room dropped, peers cleared with one `peers(0)` if any, rejoin scheduled |
| Network.Connection.FireRejoin | js/network.js:217-224 | the rejoin tick runs `setupRoom` and schedules the announce unless it threw |
| Network.Connection.FireAnnounce | js/network.js:221-223 | the announce tick sends NETWORK_UPDATE from this peer |
| Network.Connection.SetupRoom | js/network.js:107-151 | empty id: nothing; a failed join logs `error` and throws; success logs `connected` and starts the heartbeat |
| Network.Connection.OnFrame | js/network.js:121-129 | every frame refreshes its sender's presence before it is routed |
| Network.Connection.HandleIncoming | js/network.js:153-161 | NETWORK_UPDATE goes to status only, the rest to data |
| Network.Connection.OnPeerJoin | js/network.js:131-136 | the peer is touched and pinged back directly |
| Network.Connection.OnPeerLeave | js/network.js:138-145 | an untracked peer changes nothing; a tracked one is removed with `leave` then `peers` |
| Network.Connection.SendPayload | js/network.js:163-179 | false without a send action; a failed send forces a reconnect and returns false; else true with the frame sent |
| Network.Connection.InitNetwork | js/network.js:227-242 | settles room id, session code and host flag, then `setupRoom`: a join logs `connected` and starts one heartbeat, a throw logs `error` and leaves room, send action and heartbeat as they were |
| Network.Connection.Broadcast | js/network.js:244-251 | true exactly when there is a payload and a send action and the send succeeds |
| State.ResetWaiterEffect | js/state.js:14-18 | the waiter reset clears table, path and order and keeps every other field |
| State.ResetsIdempotent | js/state.js:14-29 | both resets are idempotent; the full reset absorbs a waiter reset |
| State.ResetWaiter | js/state.js:14-18 | table, path and order are cleared; the peers, the received orders and the session code stay |
| State.ClearRuntime | js/state.js:20-29 | the full reset gives the initial record |
| State.AppState.constructor | js/state.js:1-12 | the initial record |
| State.AppState.ResetWaiterState | js/state.js:14-18 | `resetWaiterState` on the object |
| State.AppState.ClearRuntimeState | js/state.js:20-29 | `clearRuntimeState` on the object: the initial record |
| Session.AlphabetShape | chromeExtension/js/session.js:4 | 32 distinct characters, all capitals or digits, none of I, O, 0, 1 |
| Session.GenerateJoinCode | chromeExtension/js/session.js:6-12 | six characters, character i the alphabet entry drawn at i |
| Session.AlphabetIndex | chromeExtension/js/session.js:4 | every alphabet character has a position |
| Session.EveryCodeDrawable | chromeExtension/js/session.js:6-12 | every code over the alphabet can be drawn |
| Session.RoomIdFromCode | chromeExtension/js/session.js:14 | `barlink-` followed by the lower-cased code |
| Session.RoomIdCaseBlind | chromeExtension/js/session.js:14 | codes differing only in case give the same room id |
| Session.RoomIdRoundTrip | js/network.js:234-236 | stripping `barlink-` and upper-casing recovers any join code |
| Session.RoomIdInjective | chromeExtension/js/session.js:14 | distinct join codes give distinct room ids |
| Session.RoleOrNull | chromeExtension/js/session.js:41 | `session.role \|\| null`: an empty role is none |
| Session.SyncedEffect | chromeExtension/js/session.js:36-42 | the five session fields are copied and the other fields untouched |
| Session.Synced | chromeExtension/js/session.js:36-42 | code, room id and name come from the session; the peers, the order and the received orders stay |
| Session.Persisted | js/app.js:552-560 | syncing from what `persist` saves restores the state, with an empty role read as none |
| Session.SyncPersistRoundTrip | chromeExtension/js/session.js:36-42 | persisting after a sync saves the loaded session, an empty role as none |
| Session.SyncStateToSession | chromeExtension/js/session.js:36-42 | `syncStateToSession` on the shared state |
| App.AlnumRun | js/app.js:94 | the longest prefix of `[A-Za-z0-9]` characters |
| App.MatchFrom | js/app.js:94-95 | a match of `/join=([A-Za-z0-9]+)/i` captures a non-empty alphanumeric code |
| App.MatchFirst | js/app.js:94-95 | the leftmost `join=` followed by a code decides the capture |
| App.MatchNone | js/app.js:94-95 | without `join=` followed by a code there is no match |
| App.KeepAlnum | js/app.js:97 | `replace(/[^A-Za-z0-9]/g, '')` keeps only alphanumerics |
| App.Normalize | js/app.js:97 | the normalised code has at most six characters |
| App.NormalizeFormatted | js/app.js:97 | the normalised code holds only capitals and digits |
| App.NormalizeFixed | js/app.js:97 | a code of at most six capitals and digits is its own normal form |
| App.FormatJoinCode | js/app.js:86-98 | every result holds only A–Z and 0–9 and has at most six characters |
| App.FormatEmpty | js/app.js:87 | `formatJoinCode('')` is `''` |
| App.FormatFixed | js/app.js:93-97 | a formatted code matches nothing and formats to itself |
| App.FormatIdempotent | js/app.js:86-98 | formatting a formatted code changes nothing |
| App.FormatExtractsJoin | js/app.js:93-97 | outside the URL path, text with `join=XYZ` first at i yields the normalised XYZ |
| App.FormatJoinCodeText | js/app.js:93-97 | `join=` plus a six-character code of capitals and digits gives that code |
| App.JoinAllowedCodes | js/app.js:390-396 | every drawn join code is accepted as typed |
| App.Clamp | js/app.js:75 | the result lies in [min, max], and a value in range is kept |
| App.Utf16Length | js/app.js:82 | `length` counts UTF-16 code units: between one and two per character, one per character exactly when all lie in the Basic Multilingual Plane |
| App.Utf16Astral | js/app.js:82 | characters outside the Basic Multilingual Plane count twice |
| App.UsernameSize | js/app.js:79-84 | the field size is always in 8..20, and the UTF-16 length of the trimmed name, or of the placeholder when it is blank, plus 1 when that fits |
| App.EmojiNameSize | js/app.js:79-84 | a name of eight emoji gets size 17 |
| App.NextTheme | js/app.js:565 | the next theme is auto, light or dark |
| App.CycledTheme | js/app.js:563-582 | the stored theme afterwards is none (auto), light or dark |
| App.ThemePeriod | js/app.js:563-582 | auto → light → dark → auto, period 3, every press changes the theme |
| App.NextLang | js/app.js:585-586 | the next language is en or hr and differs from the current one |
| App.LangToggles | js/app.js:585-586 | switching twice comes back to en or hr |
| App.HelloRecords | js/app.js:498-501 | a hello stores {name, role} under the sender, last write wins, a new sender counts once, others untouched |
| App.LeaveForgets | js/app.js:506 | a leave deletes exactly that peer and counts one fewer if it was known |
| App.HelloThenLeave | js/app.js:498-506 | a new peer that says hello and leaves is forgotten again |
| App.PeersUntouched | js/app.js:497-509 | other data and statuses leave the peers alone |
| App.PeersAfterData | js/app.js:498-501 | a hello adds its sender to the keys and nothing else does; every other peer keeps its entry |
| App.PeersAfterStatus | js/app.js:506 | the keys never grow, the remaining entries are unchanged, and a leave with an id removes that peer |
| App.Shell.constructor | js/app.js:70 | `hasNetwork` starts false |
| App.Shell.SyncJoinControls | js/app.js:275-281 | the field becomes its formatted form; the button is enabled exactly for six characters |
| App.Shell.SyncUsernameWidth | js/app.js:79-84 | the field size becomes `UsernameSize`, in 8..20, counted in UTF-16 units |
| App.Shell.UpdatePeerUI | js/app.js:539-550 | when online the shown count is the number of keys of `state.peers`; offline nothing changes |
| App.Shell.Persist | js/app.js:552-560 | the five session fields of the state are saved |
| App.Shell.CycleTheme | js/app.js:563-567 | the stored theme moves to `CycledTheme` |
| App.Shell.CycleLang | js/app.js:584-593 | en and hr swap when the locale exists; join field and name size re-synced |
| App.Shell.OnData | js/app.js:497-504 | a hello updates the peers and the count; a new order goes to the bar; nothing else changes |
| App.Shell.OnStatus | js/app.js:505-519 | a leave deletes the peer; connected/peers/join/leave refresh the count; a join is answered by a hello to that peer, and a hello not sent leaves `sent` as it was; a failed hello forces a reconnect due in 1000 ms; any other status sends nothing and leaves the reconnect timer alone |
| App.Shell.ConnectNetwork | js/app.js:486-528 | a no-op while `hasNetwork`; a missing room id or code returns with it false; otherwise the session code comes from the room id and the host flag is cleared; a join sets room and send action, starts one heartbeat, logs `connected` and refreshes the shown peer count, as its `connected` callback does; a throwing init logs `error`, changes nothing else on the connection and resets `hasNetwork` to false |
| App.Shell.AnnounceSelf | js/app.js:530-537 | a hello with name, role and session code, to one peer or to all; a failed send forces a reconnect due in 1000 ms, and otherwise the reconnect timer stays |
| App.Shell.InitSessionState | js/app.js:440-457 | a fresh session under the trimmed name or `Worker`, with no role, peers or orders, and saved |
| App.Shell.OpenSession | js/app.js:378-405 | the session for the code is set up and saved and its room joined, with the connection state `connectNetwork` leaves (`NetworkSetUp`); online, the count shows 0 peers |
| App.Shell.StartHost | js/app.js:378-388 | a fresh hosted session for a drawn join code, joined to its room with the connection state of `NetworkSetUp`; online, the count shows 0 peers |
| App.Shell.JoinSession | js/app.js:390-405 | nothing unless the field formats to six characters; then a fresh joined session for that code, the connection state of `NetworkSetUp` and a count of 0 peers online |
| App.Shell.ResumeFlow | js/app.js:407-424 | the saved session with no peers, no orders and the waiter reset, and a fresh connect with the connection state of `NetworkSetUp`; online, the count shows 0 peers after the lobby's refresh or a successful join, and otherwise keeps its value; no connection change without a room id or code |
| App.Shell.SelectRole | js/app.js:466-471 | the role and the untrimmed name or `Worker` are set and saved |
| App.Shell.ReturnToLobby | js/app.js:426-438 | the role is dropped and saved, the waiter reset; the session stays |
| Waiter.Round | js/waiter.js:80 | `Math.round`: the nearest integer, halves up |
| Waiter.ClampQty | js/waiter.js:80 | the quantity is in 1..99 |
| Waiter.ClampQtyKeeps | js/waiter.js:80 | a whole quantity in range is kept; clamping twice is clamping once |
| Waiter.ClampQtyMonotone | js/waiter.js:80 | clamping is monotone |
| Waiter.PresetsInRange | js/waiter.js:33 | every preset is kept by the clamp |
| Waiter.Columns | js/waiter.js:116-122 | 3 columns exactly when count % 4 != 0 and count % 3 == 0, else 4 |
| Waiter.ColumnsFillRows | js/waiter.js:116-122 | a multiple of 3 or 4 fills every row, 4 whenever 4 fills |
| Waiter.Captions | js/waiter.js:195 | the labels of the path, in order |
| Waiter.ContextLevels | js/waiter.js:195 | the context is empty at the root and the category's caption one level down |
| Waiter.Context | js/waiter.js:195 | the captions joined by single spaces, each caption no longer than the context |
| Waiter.Level | js/waiter.js:101-103 | the grid shows the innermost category's children, or the menu at the root |
| Waiter.SelectTable | js/waiter.js:129-133 | the table is chosen and the path emptied; nothing else changes |
| Waiter.Enter | js/waiter.js:152-155 | one level down: the grid then shows that category's children; nothing else changes |
| Waiter.Back | js/waiter.js:278-291 | up one level, else the table cleared, else the lobby flag with the state unchanged; the order lines always stay |
| Waiter.BackUndoes | js/waiter.js:278-291 | back undoes entering a category, clears a freshly chosen table, and leaves only from table selection |
| Waiter.BackOutOf | js/waiter.js:278-282 | walking in and back out level by level ends where it started |
| Waiter.AddLine | js/waiter.js:195-204 | one line is appended after the existing ones; nothing but the order changes |
| Waiter.RemoveLine | js/waiter.js:236-239 | the order loses one line when idx is in range and none otherwise; nothing else changes |
| Waiter.ClearLines | js/waiter.js:248-253 | the order ends empty exactly when it was empty or the user confirmed; a surviving order is untouched |
| Waiter.AddLineEffect | js/waiter.js:199-204 | the appended line holds item, clamped quantity and context; removing it restores the order |
| Waiter.LineRemoval | js/waiter.js:236-253 | removing row idx takes out exactly that line (as a multiset) and an out-of-range idx changes nothing; clearing empties only the order, only when confirmed |
| Waiter.OrderPayload | js/waiter.js:255-264 | the new-order payload, none without a table or lines |
| Waiter.WaiterView.constructor | js/waiter.js:34-35 | no pending item, quantity 1 |
| Waiter.WaiterView.SetQty | js/waiter.js:81-84 | the quantity becomes the clamp of the value |
| Waiter.WaiterView.StepQty | js/waiter.js:85 | the quantity becomes the clamp of itself plus the step |
| Waiter.WaiterView.ClearQty | js/waiter.js:43-46 | the quantity goes back to 1 |
| Waiter.WaiterView.CloseQty | js/waiter.js:49-62 | the dialog closes and forgets its item |
| Waiter.WaiterView.OpenQty | js/waiter.js:176-191 | the item becomes pending with quantity 1 |
| Waiter.WaiterView.TapItem | js/waiter.js:149-158 | a category with children is entered, anything else opens the dialog |
| Waiter.WaiterView.ConfirmQty | js/waiter.js:193-212 | no-op without a pending item; else exactly one line is appended and the item cleared |
| Waiter.SelectTableAction | js/waiter.js:130-134 | the table is chosen with an empty path |
| Waiter.RemoveRow | js/waiter.js:236-239 | the order loses exactly row idx |
| Waiter.ClearOrder | js/waiter.js:248-253 | the order empties exactly when non-empty and confirmed |
| Waiter.HandleBack | js/waiter.js:278-291 | pop one level, else clear the table, else return to the lobby |
| Waiter.SendOrder | js/waiter.js:255-276 | no-op without a table or lines, the reconnect timer included; else broadcast, with a failed send forcing a reconnect due in 1000 ms, local echo to the bar whatever the broadcast gave, then the waiter reset |
| Bartender.RemoveCard | js/bartender.js:70 | exactly the entries of that card leave the feed; no entry is duplicated |
| Bartender.RemoveFirstEmpty | js/bartender.js:30-31 | the first placeholder leaves the feed |
| Bartender.CheckEmpty | js/bartender.js:79-88 | the placeholder shows exactly when the feed is empty |
| Bartender.OneCardPerTable | js/bartender.js:19-35 | under the invariant two cards of one table are the same card |
| Bartender.Init | js/bartender.js:15-17 | `initBartender` leaves a non-empty feed, a non-empty one as it was, and the map and timers alone |
| Bartender.Receive | js/bartender.js:19-35 | `onOrderReceived`: the new card heads the feed and is the table's entry; the map gains only that table and keeps every other entry; no timer changes |
| Bartender.MarkDone | js/bartender.js:66-68 | a done click schedules the card's removal exactly when the card is on screen, and changes nothing else |
| Bartender.FireAsWritten | js/bartender.js:69-73 | the timeout as written: the timer goes, the card leaves the feed, and the table's entry is deleted whichever card it now holds |
| Bartender.Fire | js/bartender.js:69-73 | the corrected timeout: the timer goes, the card leaves the feed, and the table's entry is deleted only when it is still that card |
| Bartender.InitialInv | js/bartender.js:4-5 | the empty board keeps the invariant |
| Bartender.InitInv | js/bartender.js:15-17 | `initBartender` keeps the invariant |
| Bartender.ReceiveMembers | js/bartender.js:19-33 | after an order the feed holds its card and the other tables' cards |
| Bartender.ReceiveEffect | js/bartender.js:19-33 | the new card is first and recorded for its table; the old card and the placeholder go; others stay |
| Bartender.ReceiveInv | js/bartender.js:19-35 | an order keeps one card per table with feed tables equal to the map keys |
| Bartender.ClickInv | js/bartender.js:66-69 | a done click only schedules the removal |
| Bartender.FireInv | js/bartender.js:69-73 | the corrected removal keeps the invariant |
| Bartender.AsWrittenForgets | js/bartender.js:69-73 | as written, the removal deletes the newer card's table entry |
| Bartender.CorrectedKeeps | js/bartender.js:69-73 | the corrected removal keeps the newer card recorded |
| Bartender.FireAsWrittenLosesCard | js/bartender.js:66-74 | done, re-order within 200 ms, the timeout as written, then a third order: two cards of table 1 are shown |
| Bartender.FireKeepsCard | js/bartender.js:66-74 | the same events with the corrected removal show one card, the newest, recorded for table 1 |
| Bartender.Queue.constructor | js/bartender.js:4-5 | an empty feed and map |
| Bartender.Queue.InitBartender | js/bartender.js:15-17 | the placeholder is rendered into an empty feed |
| Bartender.Queue.OnOrderReceived | js/bartender.js:19-35 | `onOrderReceived` on the queue: `Receive`, invariant kept |
| Bartender.Queue.ClickDone | js/bartender.js:66-69 | the card's removal is scheduled |
| Bartender.Queue.FireTimer | js/bartender.js:69-73 | a due removal fires, corrected, invariant kept |
| TableData.ParseInt | js/data.js:32 | `parseInt(s, 10)`: optional space and sign, then the longest digit run, or NaN |
| TableData.InitialCount | js/data.js:28-41 | a stored count parsing to non-zero wins, zero or NaN gives 20; else the old array's length, else 20 |
| TableData.InitialMenu | js/data.js:43-46 | the stored menu, else the default |
| TableData.Tables | js/data.js:53-56 | `tableCount` tables, table i with id i + 1 and label `Table i+1` |
| TableData.TablesNumbered | js/data.js:53-56 | ids strictly increase and are exactly 1..count |
| TableData.ClampCount | js/data.js:61 | at least 1, a positive whole count kept, 0 or NaN give 1 |
| TableData.DigitsValueOfNat | js/data.js:62 | the decimal text of a count parses back to it |
| TableData.CountRoundTrip | js/data.js:28-63 | reloading after `setTableCount(n)` gives the stored count back |
| TableData.DataStore.InitData | js/data.js:24-49 | module load runs `initData` on what storage returned |
| TableData.DataStore.GetTableCount | js/data.js:52 | the current count |
| TableData.DataStore.GetTables | js/data.js:53-56 | the generated list of the current count |
| TableData.DataStore.GetMenu | js/data.js:57 | the active menu |
| TableData.DataStore.SetTableCount | js/data.js:60-63 | the count becomes the clamp and is written to storage |
| TableData.DataStore.SaveTables | js/data.js:66-68 | an array sets the count from its length; anything else is ignored |
| TableData.DataStore.SaveMenu | js/data.js:70-73 | `getMenu()` afterwards returns the saved menu, and so does a reload |
| TableData.SaveMenuThenReload | js/data.js:43-73 | after `saveMenu(m)`, `initData` on what storage holds gives `m` as the active menu, whatever the default |
| TableData.SetTableCountThenReload | js/data.js:28-63 | after `setTableCount(count)`, `initData` on what storage holds gives the count that was set |
| TableData.Load | js/data.js:1-49 | loading js/data.js with its default menu and count |
| ExtData.Load | chromeExtension/js/data.js:126-145 | loading the extension's copy with its own default menu |
| ExtData.DefaultMenus | chromeExtension/js/data.js:5-119 | neither default menu has a favourite |
| Manager.CountFavorites | js/manager.js:170-177 | the loop counts the flagged nodes anywhere in the tree |
| Manager.ToggleFavorite | js/manager.js:324-339 | the favourite button leaves the roots and the path in place, and either changes nothing or flips exactly that node's flag |
| Manager.AddSubItem | js/manager.js:341-345 | the roots and the path stay, and the node gains exactly one child |
| Manager.AddRoot | js/manager.js:163-167 | the old roots followed by one new empty root |
| Manager.DeleteItem | js/manager.js:368-375 | the sibling list stays addressable and loses one node exactly when the delete is confirmed and idx is in range |
| Manager.ToggleOpen | js/manager.js:221-225 | the roots and the path stay, and that node's `_isOpen` is flipped |
| Manager.FavoriteRefused | js/manager.js:325-331 | a refused mark leaves the menu unchanged |
| Manager.FavoriteAccepted | js/manager.js:325-332 | an accepted mark flags the node and adds exactly one favourite |
| Manager.Unfavorite | js/manager.js:333-335 | un-marking always succeeds and removes exactly one favourite |
| Manager.FavoriteCap | js/manager.js:324-339 | from at most five favourites the button never leads to more |
| Manager.AddSubItemEffect | js/manager.js:341-345 | children are created if absent, one empty child appended, the parent opened |
| Manager.AddRootEffect | js/manager.js:163-167 | exactly one empty root node is appended |
| Manager.DeleteEffect | js/manager.js:368-375 | a confirmed delete removes exactly sibling idx; a cancelled one changes nothing |
| Manager.ToggleOpenEffect | js/manager.js:221-225 | the toggle flips `_isOpen` of that node and nothing else |
| Manager.ToggleOpenTwice | js/manager.js:221-222 | toggling twice restores the menu |
| Manager.FavoriteAction | js/manager.js:324-339 | the favourite handler on the store: refuse without storing, else store the edited menu |
| Manager.AddSubItemAction | js/manager.js:341-354 | the add-sub-item handler stores the edited menu |
| Manager.AddRootAction | js/manager.js:163-167 | the add-root button stores the edited menu |
| Manager.DeleteAction | js/manager.js:368-375 | the delete handler stores the edited menu only when confirmed |
| Manager.ToggleOpenAction | js/manager.js:221-225 | the toggle changes the active menu without storing it |
| I18n.Child | chromeExtension/js/i18n.js:15 | `value?.[k]`: nothing below a string or a missing value |
| I18n.Split | chromeExtension/js/i18n.js:12 | at least one part, none containing the separator |
| I18n.SplitJoin | chromeExtension/js/i18n.js:12 | joining the parts with the separator gives the key back |
| I18n.JoinSplit | chromeExtension/js/i18n.js:12 | separator-free parts joined and split come back |
| I18n.Lookup | chromeExtension/js/i18n.js:14-17 | no segments leave the root; a lookup that succeeds ends on a truthy entry |
| I18n.LookupAppend | chromeExtension/js/i18n.js:14-17 | a longer key is followed segment by segment |
| I18n.IndexFrom | chromeExtension/js/i18n.js:19 | the first occurrence of the pattern at or after `from`, or none |
| I18n.ReplaceFirst | chromeExtension/js/i18n.js:19 | `replace` with a string pattern changes only the first occurrence |
| I18n.ReplaceFirstOnly | chromeExtension/js/i18n.js:19 | when the pattern occurs at j, the replaced occurrence is the first one, at or before j, and the text before it is kept |
| I18n.Interpolate | chromeExtension/js/i18n.js:18-20 | a string in which none of the placeholders occurs is left as it is |
| I18n.Translate | chromeExtension/js/i18n.js:11-22 | a lookup that fails on a missing or falsy segment gives the key back; a successful one ends on a truthy entry; a table is returned only when the key leads to it; without params the entry comes back as it is |
| I18n.TranslateNested | chromeExtension/js/i18n.js:11-21 | `group.name` gives the group's entry |
| I18n.TranslateMissing | chromeExtension/js/i18n.js:11-17 | an unknown first segment gives the key itself |
| I18n.Translator.constructor | chromeExtension/js/i18n.js:3 | the current language starts as hr |
| I18n.Translator.InitI18n | chromeExtension/js/i18n.js:5-9 | a supported language becomes current; any other keeps the current one |
| I18n.Translator.SetLanguage | chromeExtension/js/i18n.js:41-48 | unsupported: no-op; supported: current and stored |
| I18n.Translator.GetLanguage | chromeExtension/js/i18n.js:50 | the current language |
| I18n.Translator.T | chromeExtension/js/i18n.js:11-22 | the loop and the substitutions compute `Translate` of the current locale |

## Left out

- The Trystero transport (`joinRoom`, `makeAction`, `selfId`). It is a foreign library. Its success is the `joinOk`/`sendOk` parameter.
- Real timers and the browser's online/offline/connection listeners (js/network.js:181-198). They are explicit deadlines and `Fire…` methods here.
- DOM rendering, toasts, the status texts, canvas drawing (`drawToCanvas`), sound (`notify`), the camera scanner and the install prompt. These are user interface and devices.
- localStorage and `JSON.parse`/`JSON.stringify`. What a read returned is a parameter, and what a setter writes is a field.
- `new URL(val)` in `formatJoinCode` (js/app.js:89-92). It is a browser parser. Its outcome is the `UrlParse` parameter.
- `TextEncoder`. The QR model takes the byte sequence.
- `Math.random` and `crypto.randomUUID`. The drawn indices and fresh ids are parameters.
- `Date.now()`. It is the `now`/`timestamp` parameter.
- js/db.js, js/ux.js (the History-API modal stack `registerModal`/`popModal`), sw.js and js/locales.js. These are browser I/O or plain data. Locale tables are a parameter of `I18n.Translator`.
- `updateDOM`/`updateToggles` in chromeExtension/js/i18n.js. They write to the page.
- `launchRole`, `goToView`, `setupLobbyUI`'s drawing and `bootstrap`. These switch views. Only the peer-count refresh of `setupLobbyUI` is modelled.
- The 500 ms `announceSelf()` of `connectNetwork` (js/app.js:527) is not a method. `App.Shell.AnnounceSelf` is the call it makes.
- The network's callbacks do not run inside the network's methods. `Network.Connection` appends each status to `statusLog` and each delivery to `dataLog`. The app's handlers `App.Shell.OnStatus` and `App.Shell.OnData` are separate calls, one per logged status or delivery. The one exception is the `connected` status of the join inside `connectNetwork`: `App.Shell.ConnectNetwork` itself does the peer-count refresh it causes. The model therefore does not capture a handler running in the middle of a network method, for example between the `join` and `peers` statuses of `UpdateLastSeen`.
- Case mapping and alphanumeric tests cover ASCII letters and digits only, because there is no Unicode table here: `toUpperCase`/`toLowerCase` leave non-ASCII letters unchanged. Trimming removes ASCII white space, U+00A0 and U+FEFF. JavaScript's other white space (U+1680, U+2000 to U+200A, U+2028, U+2029, U+202F, U+205F and U+3000) is not trimmed.
- Strings are sequences of Unicode scalar values, so a JavaScript string with a lone surrogate has no counterpart. Where the source reads `length` (the name field size) it is counted in UTF-16 code units by `App.Utf16Length`.
- App.FormatIdempotent: the second call is taken down the non-URL path. This holds because a formatted code has no `:`, so `new URL` fails on it.
- Prices, images, labels and colours of menu items (js/manager.js:244-249 and the image handlers) are left out. This is floating-point parsing and blob storage.
- The manager's slider (js/manager.js:156-158) is only `TableData.DataStore.SetTableCount`.
- Waiter.Round: `Math.round` is modelled on reals; NaN from a non-numeric quantity is not modelled.
- I18n.Translator.T: property access on strings (such as a `length` segment) and inherited object keys are not modelled. `$` patterns in replacement strings are not modelled either.
- The initial HTML of the bartender feed is not modelled. The feed starts empty.
- Menu nodes without `children` and with an empty `children` array are the same here (an empty sequence).

## Findings

| source | as written | input that shows it | evidently intended | confidence | as-written member | corrected member |
|---|---|---|---|---|---|---|
| js/qr.js:49-50 | the capacity check rejects only more bytes than `dataCodewords` | a 19-byte payload at version 1 yields 21 data codewords where 19 fit | reject payloads whose header and terminator, two more codewords, overflow the symbol | not executed | QrEncode.EncodeOverflow | QrEncode.EncodeCheckedFits |
| js/qr.js:256-259 | `renderQR` picks the first version whose `dataCodewords` hold the bytes | an 18-byte text chooses version 1, and the encoder returns 20 codewords for 19 | the smallest version holding the bytes plus two codewords of overhead | not executed | QrEncode.ChooseVersionOverflow | QrEncode.ChooseVersionFits |
| js/bartender.js:69-73 | the done timeout deletes `tableCards` by table id | table 1 orders, its card is marked done, table 1 orders again within 200 ms: the timeout deletes the new card's entry | delete the entry only when it still points at the removed card | not executed | Bartender.FireAsWrittenLosesCard | Bartender.FireInv |
