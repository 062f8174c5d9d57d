# p44BTDMX in Dafny

A model of p44BTDMX, which carries DMX512 lighting data over Bluetooth LE
advertisements, with proofs about it.

**Sender** (`P44BTDMXsender`)
- Keeps a universe of channels. Each channel holds three values:
  - `pending`: the value last received from DMX;
  - `current`: the value last broadcast;
  - `age`: how many cycles the channel has gone unsent.
- Every cycle, `generateP44DMXcmds` turns the changed and oldest channels
  into compact delta commands.
- The commands are padded and then scrambled with a system key.
- A 16-bit CRC is appended.
- The result is wrapped in a "manufacturer specific data" AD structure.

**Receiver** (`P44BTDMXreceiver`)
- Finds that structure and recognises the carrier: native, or disguised as an Apple iBeacon.
- Holds non-native data back for 10 s after native data.
- Checks the CRC.
- Dispatches the decoded commands to its lights (`P44DMXLight`). Each light keeps a pending and a current value per channel.

**DMX receiver** (`DMXReceiver`, ESP32 build)
- Assembles DMX512 frames from UART events: a break, a chunk led by the NULL start code, then the slots.

**Prototype** (`main/`)
- The older version is modelled separately.
- Its decoder only logs.
- Its scheduler walks 512 channels as 102 five-channel lights.

**How the model is built**
- Pure logic becomes functions and lemmas: codec, command stream, carriers, AD-structure scan, scheduler specification, dispatch.
- State the source updates in place becomes classes with `modifies` clauses:
  - sender universe;
  - receiver and lights;
  - prototype sender;
  - DMX receive state.
- Every such method is proved against the function that specifies it.
- The lemmas state what the source promises:
  - round trips from sender to receiver;
  - budget and carry properties of the scheduler;
  - frame assembly and single completion in the DMX receiver.

**Modules**

| file | module | covers |
|---|---|---|
| `wire.dfy` | `Wire` | bytes, XOR, `Option` |
| `codec.dfy` | `Codec`, `Crc16` | system key, CRC, payload frame |
| `commands.dfy` | `Commands` | ESP32 command stream |
| `scheduler.dfy` | `Scheduler` | delta scheduler as functions |
| `sender.dfy` | `Sender` | sender class |
| `receiver.dfy` | `Receiver` | lights and receiver class |
| `carrier.dfy` | `Carrier` | manufacturer-data carriers |
| `adstruct.dfy` | `AdStruct` | `findADStruct` |
| `endtoend.dfy` | `EndToEnd` | sender-to-receiver theorems |
| `prototype.dfy` | `Prototype` | prototype stream, receiver, payload |
| `prototype_sender.dfy` | `PrototypeSender` | prototype scheduler and sender class |
| `dmxrx.dfy` | `DmxRx` | DMX receive state machine |

**Decisions where the sources disagree or leave things open**
- **Light width.** The ESP32 sender walks `cNumLights` lights of `cLightChannels` channels. The header shown declares only `cLightBytes = 5` (`p44btdmx_esp32/main/p44btdmx.hpp:46`), and the light classes use channel index 7. The model follows the `.cpp`: 8 channels per light and 84 lights, so a universe of 672 channels.
- **Return types.** The header declares `void` for `processBTAdvMfgData`, `processP44BTDMXpayload`, `processP44DMX` and `applyChannels`. The `.cpp` returns `bool`, and the model follows the `.cpp`.
- **Byte-sized values.** Bytes are unsigned. Every value the source stores in a `uint8_t` is cut to a byte explicitly.
- **Brightness at the end of a stream.** The `i++>=ln` check of `processP44DMX` can never fire. A brightness command whose address byte is the last byte therefore reads the string's terminating NUL and applies brightness 0. The model does the same.
- **Time.** Time is in microseconds and is passed in as `now`. `Never` is taken as 0.

## Model

| member | source | states |
|---|---|---|
| Codec.KeyFromInput | p44btdmx_esp32/main/p44btdmx.cpp:54-67 | empty input gives the 32-byte default key, inputs of 1..63 characters are used literally, 64 or more are read as hexadecimal |
| Codec.KeyByte | p44btdmx_esp32/main/p44btdmx.cpp:70-74 | key byte at a position inside the key, 0x42 past its end |
| Codec.CrcAppend | p44btdmx_esp32/main/p44btdmx.cpp:180-183 | proof step for the sender's CRC loop and `CrcCollision`: the CRC of a plaintext is the crc16 update folded over its bytes from 0, one byte at a time |
| Codec.CrcBytes | p44btdmx_esp32/main/p44btdmx.cpp:396-397 | the CRC travels as two bytes |
| Codec.Scramble | p44btdmx_esp32/main/p44btdmx.cpp:391-395 | every byte is XORed with the key byte of its position |
| Codec.ScrambleTwice | p44btdmx_esp32/main/p44btdmx.cpp:180-184 | descrambling with the same key stream gives back the plaintext |
| Codec.Encode | p44btdmx_esp32/main/p44btdmx.cpp:386-399 | the frame is `|p| + 2` bytes: scrambled plaintext, then the scrambled CRC high byte and low byte |
| Codec.EncodeLayout | p44btdmx_esp32/main/p44btdmx.cpp:391-398 | the sender's loop output followed by the two CRC bytes is exactly the frame |
| Codec.Decode | p44btdmx_esp32/main/p44btdmx.cpp:177-191 | an accepted frame is two bytes longer than its plaintext and is the encoding of it |
| Codec.DecodeEncode | p44btdmx_esp32/main/p44btdmx.cpp:177-191 | decoding what the sender encoded with the same key gives the plaintext back |
| Codec.DecodeExactly | p44btdmx_esp32/main/p44btdmx.cpp:185-191 | a frame decodes to `p` if and only if it is the encoding of `p` |
| Codec.EncodeBodyDetermines | p44btdmx_esp32/main/p44btdmx.cpp:391-395 | the scrambled body of a frame determines its plaintext |
| Codec.CrcFieldTamperRejected | p44btdmx_esp32/main/p44btdmx.cpp:185-194 | any change confined to the CRC bytes of a valid frame is rejected |
| Codec.CrcCollision | p44btdmx_esp32/main/p44btdmx.cpp:78-86 | the plaintexts `00 00` and `DB 8E` have the same CRC |
| Codec.SameCrcUndetected | p44btdmx_esp32/main/p44btdmx.cpp:185-190 | swapping in another plaintext of the same length and CRC passes the check |
| Codec.UndetectedTwoByteCorruption | p44btdmx_esp32/main/p44btdmx.cpp:177-190 | a concrete two-byte corruption of a valid frame is accepted |
| Crc16.TwoByteCollision | p44btdmx_esp32/main/p44btdmx.cpp:78-86 | the 16-bit intermediate of the update makes two different two-byte inputs collide |
| Commands.AddressByte | p44btdmx_esp32/main/p44btdmx.cpp:231-233 | the address byte of a command for one of the 84 lights is `3 * light + kind`, at most 251, and divides back into light and kind |
| Commands.EncodeCommand | p44btdmx_esp32/main/p44btdmx.cpp:503-533 | a command's bytes: its address byte and 1, 3 or 2 data bytes |
| Commands.SerializeSnoc | p44btdmx_esp32/main/p44btdmx.cpp:505-529 | proof step for `SerializeSnocBytes`: appending a command appends `3*l, b`, `3*l+1, h, s, b` or `3*l+2, index, value` |
| Commands.SerializeAppend | p44btdmx_esp32/main/p44btdmx.cpp:503-534 | the bytes of two command runs are the two runs' bytes one after the other |
| Commands.Padding | p44btdmx_esp32/main/p44btdmx.cpp:557-560 | the fill is `n` bytes of 0xFF |
| Commands.ParsePadding | p44btdmx_esp32/main/p44btdmx.cpp:218-229 | 0xFF padding decodes to no command |
| Commands.ParseShift | p44btdmx_esp32/main/p44btdmx.cpp:216-292 | decoding from a position does not depend on the bytes before it |
| Commands.ParseFromBound | p44btdmx_esp32/main/p44btdmx.cpp:216-292 | every command the decoder loop reads (`ParseFrom`, the defining function of `processP44DMX`'s loop) used at least two bytes, the last possibly the terminating NUL |
| Commands.ParseCommandFirst | p44btdmx_esp32/main/p44btdmx.cpp:216-291 | one addressable command in front of a stream decodes as itself, then the rest |
| Commands.ParseSerialize | p44btdmx_esp32/main/p44btdmx.cpp:203-294 | the decoder reads back exactly the commands the sender serialised, whatever padding follows |
| Scheduler.Channel | p44btdmx_esp32/main/p44btdmx.cpp:490 | channel `cidx` of light `l` lies inside the universe |
| Scheduler.Detect | p44btdmx_esp32/main/p44btdmx.cpp:455-461 | a changed channel is adopted with age 255; an unchanged one keeps its age |
| Scheduler.MaxAgeBelow | p44btdmx_esp32/main/p44btdmx.cpp:468-473 | the found age is 0 or lies below the ceiling, and is at most 255 |
| Scheduler.MaxAgeBelowIsMax | p44btdmx_esp32/main/p44btdmx.cpp:468-473 | the found age is an age of the universe, and no age below the ceiling is higher |
| Scheduler.OtherStep | p44btdmx_esp32/main/p44btdmx.cpp:525-533 | a channel step keeps every value, only appends, changes ages only to the done age, and uses 3 bytes of room when it sends |
| Scheduler.OtherStepMarks | p44btdmx_esp32/main/p44btdmx.cpp:525-533 | the channel is sent if and only if it is at the tier's age and 3 bytes fit; then exactly its index/value command with the current value is appended and the channel takes the done age; no other channel changes |
| Scheduler.EmitOthers | p44btdmx_esp32/main/p44btdmx.cpp:524-534 | the other channels' commands keep the emission invariant and never overdraw the room |
| Scheduler.HsbSend | p44btdmx_esp32/main/p44btdmx.cpp:503-514 | an HSB command keeps every value, changes ages only to the done age, and takes 4 bytes |
| Scheduler.HsbSendMarks | p44btdmx_esp32/main/p44btdmx.cpp:503-514 | exactly the HSB command with the current hue, saturation and brightness is appended; those three channels take the done age and no other channel changes |
| Scheduler.BrightnessSend | p44btdmx_esp32/main/p44btdmx.cpp:515-522 | a brightness command keeps every value, changes ages only to the done age, and takes 2 bytes |
| Scheduler.BrightnessSendMarks | p44btdmx_esp32/main/p44btdmx.cpp:515-522 | exactly the brightness command with the current brightness is appended; the brightness channel takes the done age and no other channel changes |
| Scheduler.EmitColor | p44btdmx_esp32/main/p44btdmx.cpp:503-522 | the colour command keeps the invariant and never overdraws the room, which is at least two bytes at this point |
| Scheduler.EmitLight | p44btdmx_esp32/main/p44btdmx.cpp:489-534 | one light's commands keep the invariant |
| Scheduler.EmitLights | p44btdmx_esp32/main/p44btdmx.cpp:489-536 | one tier keeps every value, and every channel keeps its age or takes the done age |
| Scheduler.EmitLightsMarks | p44btdmx_esp32/main/p44btdmx.cpp:489-536 | one tier only appends commands, and every channel a new command sets ends the tier at the tier's done age |
| Scheduler.EmitLightsNext | p44btdmx_esp32/main/p44btdmx.cpp:535 | a tier stops as soon as less than two bytes are left |
| Scheduler.TierOrderCons | p44btdmx_esp32/main/p44btdmx.cpp:474-486 | a tier below the ceiling, followed by lower tiers, keeps the tier order |
| Scheduler.SentAgesCons | p44btdmx_esp32/main/p44btdmx.cpp:477-486 | sent channels have age 0, or one below a recent-change tier |
| Scheduler.Tiers | p44btdmx_esp32/main/p44btdmx.cpp:466-537 | the tier loop terminates; its tiers are strictly decreasing, only the first can be a recent-change tier, and sent channels get 0 or age-1 |
| Scheduler.TiersMarks | p44btdmx_esp32/main/p44btdmx.cpp:466-537 | the tiers only append commands, and every channel a new command sets ends the call with age 0, or one below the first tier's age when that tier held recent changes |
| Scheduler.TiersStop | p44btdmx_esp32/main/p44btdmx.cpp:474-476 | no room or no age below the ceiling ends the loop |
| Scheduler.TiersNext | p44btdmx_esp32/main/p44btdmx.cpp:477-489 | otherwise the highest age below the ceiling is sent, and the ceiling and done age are chosen as in the source |
| Scheduler.TierStep | p44btdmx_esp32/main/p44btdmx.cpp:466-537 | one tier followed by the remaining tiers keeps the order and age properties |
| Scheduler.AgeAll | p44btdmx_esp32/main/p44btdmx.cpp:539-543 | aging changes no value |
| Scheduler.CarriesSameValues | p44btdmx_esp32/main/p44btdmx.cpp:503-533 | whether a command carries current values depends on values only, not on ages |
| Scheduler.SizeIsSerializedLength | p44btdmx_esp32/main/p44btdmx.cpp:509 | the room accounting is the byte length of the output |
| Scheduler.GenerateRound | p44btdmx_esp32/main/p44btdmx.cpp:462-537 | below two bytes no command is produced, and the room never goes negative |
| Scheduler.GenerateOfRound | p44btdmx_esp32/main/p44btdmx.cpp:451-549 | a call is detection, the tiers, then aging only when refreshing |
| Scheduler.Generate | p44btdmx_esp32/main/p44btdmx.cpp:451-549 | the defining function of one call; the universe keeps its shape, and below two bytes no command is produced |
| Scheduler.GenerateWithinBudget | p44btdmx_esp32/main/p44btdmx.cpp:462-537 | a call produces at most `maxBytes` bytes, none below two, and only commands for the 84 lights |
| Scheduler.GenerateCarriesCurrent | p44btdmx_esp32/main/p44btdmx.cpp:455-534 | after a call every channel's current value is its pending value, and every command carries current values |
| Scheduler.ResetAll | p44btdmx_esp32/main/p44btdmx.cpp:376-382 | reset keeps the universe's size |
| Scheduler.ResetNothingPending | p44btdmx_esp32/main/p44btdmx.cpp:376-382 | after a reset no change is detected, and every channel is re-sent as an older tier below new changes |
| Scheduler.SetPending | p44btdmx_esp32/main/p44btdmx.cpp:409-418 | setting a channel keeps the universe's size |
| Scheduler.SetPendings | p44btdmx_esp32/main/p44btdmx.cpp:421-426 | the defining function of `setChannels`; the universe keeps its size, whatever the block |
| Scheduler.SetPendingsBlock | p44btdmx_esp32/main/p44btdmx.cpp:421-426 | a block inside the universe lands on consecutive channels, and nothing else changes |
| Scheduler.GetAfterSet | p44btdmx_esp32/main/p44btdmx.cpp:402-418 | reading gives the value last set, or 0 past the end; other channels are unaffected |
| Scheduler.GenerateBytes | p44btdmx_esp32/main/p44btdmx.cpp:451-549 | the bytes of a call never exceed `maxBytes`, and are empty below two |
| Sender.Fill | p44btdmx_esp32/main/p44btdmx.cpp:554-560 | padding reaches the minimum, which defaults to `maxBytes - 2`, and adds nothing past it |
| Sender.PayloadOfPadded | p44btdmx_esp32/main/p44btdmx.cpp:552-562 | a non-empty payload is the padded stream encoded |
| Sender.PayloadFor | p44btdmx_esp32/main/p44btdmx.cpp:552-562 | the defining function of the payload; it is empty if and only if there are no commands, and otherwise at least the minimum plus the two CRC bytes |
| Sender.AdvFor | p44btdmx_esp32/main/p44btdmx.cpp:565-577 | the defining function of the advertising data; empty if and only if the payload is, otherwise five header bytes then the payload |
| Sender.PayloadRoundTrip | p44btdmx_esp32/main/p44btdmx.cpp:552-562 | a payload decodes with the same key, and its plaintext parses back to exactly the commands |
| Sender.PayloadExactLength | p44btdmx_esp32/main/p44btdmx.cpp:554-561 | with the default minimum, a payload for commands within budget is exactly `maxBytes` long |
| Sender.Sender.constructor | p44btdmx_esp32/main/p44btdmx.cpp:359-368 | all channels 0 and age 0, three repeats, no refresh, the default key |
| Sender.Sender.SetSystemKey | p44btdmx_esp32/main/p44btdmx.cpp:54-67 | installs the key `KeyFromInput` chooses |
| Sender.Sender.SetInitialRepeatCount | p44btdmx_esp32/main/p44btdmx.hpp:177 | stores the repeat count |
| Sender.Sender.SetRefreshUniverse | p44btdmx_esp32/main/p44btdmx.hpp:183 | stores the refresh flag |
| Sender.Sender.Reset | p44btdmx_esp32/main/p44btdmx.cpp:376-382 | the universe becomes `ResetAll` of the old one |
| Sender.Sender.GetChannel | p44btdmx_esp32/main/p44btdmx.cpp:402-406 | the pending value, 0 past the end |
| Sender.Sender.SetChannel | p44btdmx_esp32/main/p44btdmx.cpp:409-418 | only that channel's pending value changes; a channel past the end is ignored |
| Sender.Sender.SetChannels | p44btdmx_esp32/main/p44btdmx.cpp:421-426 | values go to consecutive 16-bit channel numbers |
| Sender.Sender.EncodeP44BTDMXpayload | p44btdmx_esp32/main/p44btdmx.cpp:386-399 | the loop computes exactly `Codec.Encode` |
| Sender.Sender.DetectChanges | p44btdmx_esp32/main/p44btdmx.cpp:455-461 | the universe becomes `Detect` of the old one |
| Sender.Sender.FindMaxAge | p44btdmx_esp32/main/p44btdmx.cpp:468-473 | the scan computes `MaxAgeBelow` |
| Sender.Sender.EmitOtherChannel | p44btdmx_esp32/main/p44btdmx.cpp:525-533 | one pass of the other-channel loop is `OtherStep` |
| Sender.Sender.EmitOtherChannels | p44btdmx_esp32/main/p44btdmx.cpp:524-534 | the other-channel loop is `EmitOthers` |
| Sender.Sender.EmitColorCommand | p44btdmx_esp32/main/p44btdmx.cpp:503-522 | the colour branch is `EmitColor` |
| Sender.Sender.EmitHsb | p44btdmx_esp32/main/p44btdmx.cpp:503-514 | the HSB branch is `HsbSend`, with the bytes appended |
| Sender.Sender.EmitBrightness | p44btdmx_esp32/main/p44btdmx.cpp:515-522 | the brightness branch is `BrightnessSend` |
| Sender.Sender.EmitLightCommands | p44btdmx_esp32/main/p44btdmx.cpp:490-534 | one light's body is `EmitLight` |
| Sender.Sender.EmitTier | p44btdmx_esp32/main/p44btdmx.cpp:489-536 | the light loop is `EmitLights` |
| Sender.Sender.AgeChannels | p44btdmx_esp32/main/p44btdmx.cpp:540-542 | the aging loop is `AgeAll` |
| Sender.Sender.EmitNextTier | p44btdmx_esp32/main/p44btdmx.cpp:467-536 | one pass of the tier loop keeps the loop's result, and the ceiling strictly decreases |
| Sender.Sender.EmitTiers | p44btdmx_esp32/main/p44btdmx.cpp:466-537 | the tier loop computes `Tiers` |
| Sender.Sender.GenerateP44DMXcmds | p44btdmx_esp32/main/p44btdmx.cpp:451-549 | the new universe and bytes are those of `Generate` |
| Sender.Sender.GenerateP44BTDMXpayload | p44btdmx_esp32/main/p44btdmx.cpp:552-562 | nothing when there are no commands; otherwise the padded commands encoded with the system key |
| Sender.Sender.GenerateBTAdvMfgData | p44btdmx_esp32/main/p44btdmx.cpp:565-577 | the payload for `maxBytes - 5`, wrapped in one manufacturer data structure, or nothing |
| Receiver.Applied | p44btdmx_esp32/main/p44btdmx.cpp:341-353 | after apply every channel is settled and keeps its pending value |
| Receiver.WithPending | p44btdmx_esp32/main/p44btdmx.cpp:334-338 | only that channel's pending value changes; an index past the light's width is ignored |
| Receiver.ApplyIdempotent | p44btdmx_esp32/main/p44btdmx.cpp:341-353 | applying twice changes nothing the second time |
| Receiver.SettledNeedsNoApply | p44btdmx_esp32/main/p44btdmx.cpp:345-352 | apply reports a change if and only if some channel was unsettled |
| Receiver.Light.constructor | p44btdmx_esp32/main/p44btdmx.cpp:317-325 | every channel is pending 0 and current 1, so the first apply reports a change |
| Receiver.Light.SetChannel | p44btdmx_esp32/main/p44btdmx.cpp:334-338 | the channels become `WithPending` |
| Receiver.Light.ApplyChannels | p44btdmx_esp32/main/p44btdmx.cpp:341-353 | the channels become `Applied`, and the result says whether any channel changed |
| Receiver.LocalIndex | p44btdmx_esp32/main/p44btdmx.cpp:234-237 | a local index is non-negative only for one of the receiver's lights |
| Receiver.Step | p44btdmx_esp32/main/p44btdmx.cpp:231-291 | the defining function of one command; logger mode or a foreign light changes nothing and reports false; otherwise only the addressed light changes, and it ends settled |
| Receiver.Dispatch | p44btdmx_esp32/main/p44btdmx.cpp:216-293 | dispatch keeps the number of lights and each light's width |
| Receiver.DispatchLogger | p44btdmx_esp32/main/p44btdmx.cpp:243-245 | in logger mode nothing is applied and the result is false |
| Receiver.DispatchUnaddressed | p44btdmx_esp32/main/p44btdmx.cpp:235-236 | a light no command addresses keeps its channels |
| Receiver.DispatchChangeAddressed | p44btdmx_esp32/main/p44btdmx.cpp:246-286 | a reported change needs a command for one of the receiver's lights, outside logger mode |
| Receiver.ReceivedEncoded | p44btdmx_esp32/main/p44btdmx.cpp:177-191 | a frame encoded with the receiver's key dispatches its plaintext |
| Receiver.ReceivedForeignFrame | p44btdmx_esp32/main/p44btdmx.cpp:185-199 | a frame that is no encoding under the key changes nothing and returns false |
| Receiver.Received | p44btdmx_esp32/main/p44btdmx.cpp:163-200 | the defining function of a payload's effect; the shape of the lights is kept, and data the lockout holds back changes nothing |
| Receiver.Receiver.constructor | p44btdmx_esp32/main/p44btdmx.cpp:91-96 | no lights, first light 0, no native data yet, not a logger, the default key |
| Receiver.Receiver.SetSystemKey | p44btdmx_esp32/main/p44btdmx.cpp:54-67 | installs the key `KeyFromInput` chooses |
| Receiver.Receiver.SetAddressingInfo | p44btdmx_esp32/main/p44btdmx.cpp:297-300 | stores the first light number cut to 16 bits |
| Receiver.Receiver.AddLight | p44btdmx_esp32/main/p44btdmx.cpp:303-309 | appends the light under the next local number with the current offset, and applies it once |
| Receiver.Receiver.ApplyCommand | p44btdmx_esp32/main/p44btdmx.cpp:240-287 | one command sets its channels on one light, then applies them |
| Receiver.Receiver.ProcessP44DMX | p44btdmx_esp32/main/p44btdmx.cpp:203-294 | the decoding loop computes `Dispatch` of `Parse` |
| Receiver.Receiver.ProcessP44BTDMXpayload | p44btdmx_esp32/main/p44btdmx.cpp:163-200 | native data renews the lockout; admitted data is CRC-checked and dispatched |
| Receiver.Receiver.ProcessBTAdvMfgData | p44btdmx_esp32/main/p44btdmx.cpp:132-151 | an unrecognised carrier changes nothing; a recognised one hands its payload on with its native flag |
| Carrier.CompanyId | p44btdmx_esp32/main/p44btdmx.cpp:137 | the company id is little-endian over unsigned bytes |
| Carrier.Unwrap | p44btdmx_esp32/main/p44btdmx.cpp:132-151 | recognised if and only if at least 4 bytes and native or iBeacon; native payload from byte 3; iBeacon payload the bytes from 4 on, of the announced length, cut at the end of the data |
| Carrier.AdvMfgData | p44btdmx_esp32/main/p44btdmx.cpp:569-576 | the advertising data is five header bytes, then the payload |
| Carrier.UnwrapAdvMfgData | p44btdmx_esp32/main/p44btdmx.cpp:565-577 | what the sender builds is type 0xFF, and its data is a native carrier of the same payload |
| Carrier.UnwrapIBeacon | p44btdmx_esp32/main/p44btdmx.cpp:144-148 | an iBeacon hands on exactly the announced length when the data holds it |
| Carrier.UnwrapIBeaconCut | p44btdmx_esp32/main/p44btdmx.cpp:147 | an iBeacon announcing more than the data holds hands on everything from byte 4 |
| Carrier.IsIBeacon | p44btdmx_esp32/main/p44btdmx.cpp:138-149 | an iBeacon record is never also a native one, so the two carriers never compete |
| AdStruct.FindADStruct | p44btdmx_esp32/main/esp_bt.cpp:263-282 | the loop finds a structure if and only if `Scan` does, and returns its data position and length |
| AdStruct.ScanFrom | p44btdmx_esp32/main/esp_bt.cpp:267-280 | the defining function of the scan from a cursor; a found structure's type byte is the one asked for, its data starts at least two bytes after the cursor and ends within the 31 bytes |
| AdStruct.Scan | p44btdmx_esp32/main/esp_bt.cpp:263-282 | the same from the start of the advertising data |
| AdStruct.ScanFoundShape | p44btdmx_esp32/main/esp_bt.cpp:270-278 | a found structure has the type byte before its data and a length byte of `len + 1`, and ends within 32 bytes |
| AdStruct.ScanStopsAtInvalidLength | p44btdmx_esp32/main/esp_bt.cpp:270 | a zero or overlong length byte ends the scan |
| AdStruct.ScanFindsFirstStructure | p44btdmx_esp32/main/esp_bt.cpp:267-278 | a first structure of the requested type is found |
| AdStruct.ScanMismatchAdvancesOneByte | p44btdmx_esp32/main/esp_bt.cpp:271-273 | on a type mismatch the cursor moves by one byte only |
| AdStruct.WalkFindsFirst | p44btdmx_esp32/main/esp_bt.cpp:263-282 | stepping by length finds the first structure of the type anywhere in a run |
| AdStruct.WalkFindsFirstStructureOfType | p44btdmx_esp32/main/esp_bt.cpp:263-282 | the same, from the start of the advertising data |
| AdStruct.ScanMissesSecondStructure | p44btdmx_esp32/main/esp_bt.cpp:267-280 | manufacturer data behind a service-UUID structure is missed by the scan and found by the walk |
| EndToEnd.DispatchKeeps | p44btdmx_esp32/main/p44btdmx.cpp:216-293 | commands carrying current values keep delivered channels delivered |
| EndToEnd.DispatchDelivers | p44btdmx_esp32/main/p44btdmx.cpp:216-293 | every channel some command sets ends with the sender's value, applied |
| EndToEnd.AdvertisementFound | p44btdmx_esp32/main/p44btdmx.cpp:565-577 | the sender's advertisement is found by the scan and recognised as native |
| EndToEnd.PayloadDispatches | p44btdmx_esp32/main/p44btdmx.cpp:552-562 | a padded payload, received as native data, dispatches exactly its command stream |
| EndToEnd.AdvertisementDispatches | p44btdmx_esp32/main/p44btdmx.cpp:565-577 | the payload leaves room for exactly the five header bytes of `maxBytes`, and the receiver dispatches exactly the sent commands |
| EndToEnd.AdvForFound | p44btdmx_esp32/main/p44btdmx.cpp:569-576 | the sender's advertising data of `n` bytes is found by the scan as its first structure, and is a native carrier of the payload |
| EndToEnd.DispatchDeliversPending | p44btdmx_esp32/main/p44btdmx.cpp:455-461 | delivered channels hold the values last set on the sender |
| EndToEnd.AdvertisementDelivers | p44btdmx_esp32/main/p44btdmx.cpp:565-577 | one call end to end: nothing when there are no commands, otherwise every channel a command sets ends with the last value set on the sender |
| Prototype.AddressByte | main/p44btdmx.cpp:333 | the address byte is `3 * light + kind` cut to a byte: exact and below the NOP for the first 85 lights; light 85's brightness command is 0xFF |
| Prototype.EncodeCommand | main/p44btdmx.cpp:331-361 | a command's bytes start with its address byte |
| Prototype.SizeIsLength | main/p44btdmx.cpp:337 | the room accounting is the byte length |
| Prototype.SerializeAppend | main/p44btdmx.cpp:331-361 | the bytes of two command runs are the two runs' bytes one after the other |
| Prototype.Nops | main/p44btdmx.cpp:378-381 | the fill is `n` bytes of 0xFF |
| Prototype.NopSkipped | main/p44btdmx.cpp:175-178 | a lone 0xFF is a one-byte NOP |
| Prototype.ParseNops | main/p44btdmx.cpp:173-178 | a run of NOPs decodes to nothing |
| Prototype.ParseShift | main/p44btdmx.cpp:173-218 | decoding from a position does not depend on the bytes before it |
| Prototype.ParseFromBound | main/p44btdmx.cpp:173-218 | every command the prototype decoder reads (`ParseFrom`, its defining function) used at least two bytes, the last possibly the terminating NUL |
| Prototype.ParseCommandFirst | main/p44btdmx.cpp:173-217 | a command for one of the first 85 lights decodes as itself |
| Prototype.ParseSerialize | main/p44btdmx.cpp:161-219 | commands for the first 85 lights, then NOPs, decode to exactly those commands |
| Prototype.Light85Misread | main/p44btdmx.cpp:345 | light 85's brightness command is read as brightness 0 for light 1 |
| Prototype.LocalIndex | main/p44btdmx.cpp:179-183 | a non-negative local index belongs to one of the receiver's lights |
| Prototype.Logs | main/p44btdmx.cpp:188-212 | only commands for the receiver's lights are logged, with their local numbers |
| Prototype.LogsExactly | main/p44btdmx.cpp:182-212 | a command is logged if and only if it addresses one of the receiver's lights |
| Prototype.ReceivedEncoded | main/p44btdmx.cpp:136-158 | a frame encoded with the receiver's key logs exactly its plaintext's commands |
| Prototype.AdvReceivedNative | main/p44btdmx.cpp:93-97 | a native carrier's payload is decoded and logged |
| Prototype.AdvReceivedIBeacon | main/p44btdmx.cpp:99-103 | an iBeacon's payload is decoded and logged too: there is no lockout |
| Prototype.Payload | main/p44btdmx.cpp:375-383 | a payload is exactly `maxBytes` long when the commands fit, and otherwise the commands plus 2 |
| Prototype.PayloadRoundTrip | main/p44btdmx.cpp:375-383 | commands for the first 85 lights reach a receiver with the same key as exactly its log lines |
| PrototypeSender.SetAges | main/p44btdmx.cpp:339-341 | only the given channels take the done age |
| PrototypeSender.Send | main/p44btdmx.cpp:333-341 | a command appends itself, uses its size in room and marks its channels |
| PrototypeSender.ExtendsChain | main/p44btdmx.cpp:306-364 | proof step for the sender loop: the emission invariant is transitive |
| PrototypeSender.ColorStep | main/p44btdmx.cpp:331-350 | the colour step keeps values and the tail, and never overdraws the room |
| PrototypeSender.PosModeStep | main/p44btdmx.cpp:352-361 | the position/mode step keeps the invariant |
| PrototypeSender.EmitLight | main/p44btdmx.cpp:331-361 | one light keeps the invariant |
| PrototypeSender.EmitLights | main/p44btdmx.cpp:316-363 | one pass keeps every value and the tail channels |
| PrototypeSender.EmitLightsNext | main/p44btdmx.cpp:362 | a pass stops as soon as less than two bytes are left |
| PrototypeSender.MaxAge | main/p44btdmx.cpp:308-311 | the pass's age fits the `uint8_t` it is kept in |
| PrototypeSender.DoneAge | main/p44btdmx.cpp:313 | the done age is `maxAge - 2` for a recent change, else 0 |
| PrototypeSender.Run | main/p44btdmx.cpp:306-364 | with room short, the loop does not run |
| PrototypeSender.RunEnds | main/p44btdmx.cpp:306-364 | where the loop ends it kept values and tail, its commands fit, and room is short or every age is 0 |
| PrototypeSender.RunNext | main/p44btdmx.cpp:306-313 | a pass at the highest age with its done age, one pass fewer |
| PrototypeSender.RunStep | main/p44btdmx.cpp:306-363 | a pass keeps the loop heading for the same end |
| PrototypeSender.RunStop | main/p44btdmx.cpp:306-312 | room short or no non-zero age ends the loop where it is |
| PrototypeSender.Outcome | main/p44btdmx.cpp:305-364 | the ending state keeps values and tail, fits `maxBytes`, and has no room or no age left |
| PrototypeSender.Generate | main/p44btdmx.cpp:295-372 | a call that ends keeps the detected values, and its commands fit `maxBytes` |
| PrototypeSender.GenerateKeepsTail | main/p44btdmx.cpp:366-368 | a call keeps the two tail channels at age 255 |
| PrototypeSender.NoProgressSpins | main/p44btdmx.cpp:306-364 | a pass that sends nothing repeats forever |
| PrototypeSender.IdleLights | main/p44btdmx.cpp:316-363 | lights without a channel at the pass's age send nothing |
| PrototypeSender.TailSpins | main/p44btdmx.cpp:309-316 | a tail channel at 255 and no light channel at 255 spin the loop |
| PrototypeSender.SettledSenderSpins | main/p44btdmx.cpp:228-232 | a settled sender, as the constructor leaves the tail, never returns |
| PrototypeSender.NoFloor | main/p44btdmx.cpp:307-313 | channels a pass sends take the done age, which the next search still reaches |
| PrototypeSender.ProtoSender.constructor | main/p44btdmx.cpp:224-233 | all channels 0 at age 255, three repeats, the default key |
| PrototypeSender.ProtoSender.SetInitialRepeatCount | main/p44btdmx.hpp:101 | stores the repeat count |
| PrototypeSender.ProtoSender.SetChannel | main/p44btdmx.cpp:280-284 | only that channel's pending value changes; past 511 it is ignored |
| PrototypeSender.ProtoSender.SetChannels | main/p44btdmx.cpp:287-292 | values go to consecutive 16-bit channel numbers |
| PrototypeSender.ProtoSender.DetectChanges | main/p44btdmx.cpp:298-304 | the universe becomes `Detect` of the old one |
| PrototypeSender.ProtoSender.FindMaxAge | main/p44btdmx.cpp:307-311 | the scan computes `MaxAge` |
| PrototypeSender.ProtoSender.EmitHsb | main/p44btdmx.cpp:331-342 | the HSB branch sends hue, saturation and brightness at the done age |
| PrototypeSender.ProtoSender.EmitBrightness | main/p44btdmx.cpp:343-350 | the brightness branch sends brightness at the done age |
| PrototypeSender.ProtoSender.EmitColor | main/p44btdmx.cpp:331-350 | the colour branch is `ColorStep` |
| PrototypeSender.ProtoSender.EmitPosMode | main/p44btdmx.cpp:352-361 | the position/mode branch is `PosModeStep` |
| PrototypeSender.ProtoSender.EmitLightCmds | main/p44btdmx.cpp:317-361 | one light's body is `EmitLight` |
| PrototypeSender.ProtoSender.EmitPass | main/p44btdmx.cpp:316-363 | the light loop is `EmitLights` |
| PrototypeSender.ProtoSender.AgeChannels | main/p44btdmx.cpp:366-368 | every age below 255 grows by one |
| PrototypeSender.ProtoSender.GenerateP44DMXcmds | main/p44btdmx.cpp:295-372 | for a call that ends: the universe and bytes are those of `Generate`, and the tail stays at 255 |
| PrototypeSender.ProtoSender.GenerateP44BTDMXpayload | main/p44btdmx.cpp:375-383 | the commands filled with NOPs to `maxBytes - 2`, then encoded, even when empty |
| DmxRx.FirstByte | p44btdmx_esp32/main/esp_dmx_rx.cpp:148-157 | the first byte of the zeroed buffer: the chunk's first byte, or 0 for an empty chunk |
| DmxRx.Taken | p44btdmx_esp32/main/esp_dmx_rx.cpp:174-182 | the bytes stored never carry the offset past 513, and all are stored when they fit |
| DmxRx.Store | p44btdmx_esp32/main/esp_dmx_rx.cpp:169-189 | storing keeps the buffer at 513 bytes and the offset within it |
| DmxRx.Next | p44btdmx_esp32/main/esp_dmx_rx.cpp:149-209 | every event keeps the state well formed |
| DmxRx.BreakAndErrorModes | p44btdmx_esp32/main/esp_dmx_rx.cpp:191-209 | a break moves any state to break, an error to idle; neither touches the buffer |
| DmxRx.IgnoredChunks | p44btdmx_esp32/main/esp_dmx_rx.cpp:155-169 | data in idle, or in break without the start code, changes nothing |
| DmxRx.TimestampOnFrameStart | p44btdmx_esp32/main/esp_dmx_rx.cpp:155-166 | the timestamp changes only when a frame opens, to that time |
| DmxRx.Feed | p44btdmx_esp32/main/esp_dmx_rx.cpp:169-182 | a run of chunks keeps the state well formed |
| DmxRx.FeedAssembles | p44btdmx_esp32/main/esp_dmx_rx.cpp:169-182 | in data state, chunks fill the buffer from the offset with their bytes in order; excess bytes are dropped |
| DmxRx.CompletesOnce | p44btdmx_esp32/main/esp_dmx_rx.cpp:173-188 | completion is signalled exactly once if the offset reaches 513, never otherwise |
| DmxRx.FrameAssembles | p44btdmx_esp32/main/esp_dmx_rx.cpp:150-198 | a break and chunks led by the start code leave the buffer holding the frame's first 513 bytes, stamped with the frame's start; completion is signalled if and only if 513 bytes arrived |
| DmxRx.Clamp | p44btdmx_esp32/main/esp_dmx_rx.cpp:108-114 | the channel is clamped to 1..512 and kept when inside |
| DmxRx.HealthyAfterFrameStart | p44btdmx_esp32/main/esp_dmx_rx.cpp:123-131 | after a frame opens the receiver is healthy for exactly 500 ms |
| DmxRx.DmxReceiver.constructor | p44btdmx_esp32/main/esp_dmx_rx.cpp:48-54 | no UART, idle, offset 0, never a packet |
| DmxRx.DmxReceiver.Stop | p44btdmx_esp32/main/esp_dmx_rx.cpp:63-73 | a started receiver lets go of its UART and goes idle; a stopped one is unchanged |
| DmxRx.DmxReceiver.Start | p44btdmx_esp32/main/esp_dmx_rx.cpp:77-84 | stop, then take the UART |
| DmxRx.DmxReceiver.Read | p44btdmx_esp32/main/esp_dmx_rx.cpp:106-120 | the slot at the channel clamped to 1..512, never the start code |
| DmxRx.DmxReceiver.IsHealthy | p44btdmx_esp32/main/esp_dmx_rx.cpp:123-131 | healthy if and only if the last packet started less than 500 ms ago |
| DmxRx.DmxReceiver.StoreChunk | p44btdmx_esp32/main/esp_dmx_rx.cpp:170-184 | the copy loop is `Store` |
| DmxRx.DmxReceiver.HandleEvent | p44btdmx_esp32/main/esp_dmx_rx.cpp:147-210 | one event of the UART loop is `Next` |

## Left out

- PrototypeSender.ProtoSender.GenerateP44DMXcmds: proved only for calls that end (`Terminates`). The source loop can spin forever (see Findings). A call that does not end has no result to state.
- PrototypeSender.ProtoSender.GenerateP44BTDMXpayload: the same restriction, for the same reason.
- PrototypeSender.Outcome: uses one number of passes after which the loop has ended. That any larger number gives the same state is true, because `Run` is deterministic, but it is not proved.
- Receiver.Receiver.ProcessP44BTDMXpayload: requires at least two bytes for admitted data. The source computes `size() - 2` unsigned and reads out of bounds below that.
- Receiver.Receiver.ProcessBTAdvMfgData: the same requirement on the carried payload.
- Receiver.Receiver.AddLight: requires a light that is not yet attached and whose channel array is no other light's. The source would add the same light twice; two entries sharing one array cannot be modelled as separate lights.
- Prototype.Received: requires at least two bytes of data. The source computes `size() - 2` unsigned (main/p44btdmx.cpp:143) and reads out of bounds below that.
- Prototype.AdvReceived: the same requirement on the carried payload.
- Codec: a general single-byte tamper detection of the CRC is not proved; only the case of a change confined to the CRC field is (`CrcFieldTamperRejected`). The bit-level proof was too expensive for the solver.
- `hexToBinaryString` is not part of this model. Its result is a parameter of `SetSystemKey`.
- Logging output, `binaryToHexString` and `LOG`/`FOCUSLOG` are not modelled. The prototype decoder's log lines are modelled as a list of `Logged` values.
- The non-`ESP_PLATFORM` branch of the lockout is not modelled. That branch admits everything with `now = 0`.
- The clock (`MainLoop::now`) is a parameter. `Never` is taken as 0 and `MilliSecond` as 1000 µs (p44utils is not part of this model). 64-bit time overflow is not modelled.
- Light subclasses (`PWMLight`, `P44lrgLight`, text lights) and their `applyChannels` overrides are not part of this model. Only the base light is modelled.
- The prototype's `setSystemKey` and `setAddressingInfo` are declared in the header but not defined in the `.cpp`. The prototype key is the default key, and the first light and the number of lights are parameters of the receiver functions. The prototype receiver is modelled as functions, because it changes no state.
- The prototype sender's `encodeP44BTDMXpayload` and `systemKeyByte` are the ESP32 loop and key lookup. They are modelled once, as `Codec.Encode`, `Codec.KeyByte` and `Sender.Sender.EncodeP44BTDMXpayload`.
- The prototype's `aMinBytes` parameter is unused in the source and is left out.
- FreeRTOS is not modelled: tasks, the queue, the mutex, the `uart_*` driver calls, the main-loop delivery of DMX data, the data callback and the `sharedReceiver` singleton. `HandleEvent` returns whether a packet completed, which is where `deliverDmxData` is called.
- The 1024-byte UART read buffer is not modelled. Chunks are sequences of any length, which the UART driver never exceeds in practice.
- BLE scanning and advertising are not modelled: the GAP callbacks and the rest of `esp_bt.cpp` beyond `findADStruct`.
- The application wiring (`p44btdmx_main.cpp`) is not part of this model.

## Findings

| source | as written | input that shows it | evidently intended | confidence | as-written member | corrected member |
|---|---|---|---|---|---|---|
| p44btdmx_esp32/main/esp_bt.cpp:267-280 | on a type mismatch the cursor moves one byte, so the next length byte is read from the type byte | `03 03 00 18 05 FF 8F 04 44 00`: the UUID byte 0x00 is read as a length and the scan stops | step to the next structure, `idx + ln + 1`, and find the manufacturer data at 6 | not executed | AdStruct.ScanMissesSecondStructure | AdStruct.WalkFindsFirstStructureOfType |
| main/p44btdmx.cpp:316-345 | address byte `3 * lidx + kind` is appended as a `char` for all 102 lights | light 85 brightness 3 is sent as `FF 03` and decoded as brightness 0 for light 1 | only address the lights whose address bytes stay below 0xFF, as the ESP32 version does with `cNumLights = (255-2)/3` | not executed | Prototype.Light85Misread | Commands.ParseSerialize |
| main/p44btdmx.cpp:305-316 | the age search covers all 512 channels but the light walk stops at 510; channels 510 and 511 start at age 255 and are never sent | a sender whose light channels are all sent and unchanged, with `maxBytes >= 2`: every pass is at age 255 and sends nothing, forever | search only channels of lights, and lower a ceiling from pass to pass so the loop ends, as the ESP32 version does with `lastMaxAge` | not executed | PrototypeSender.SettledSenderSpins | Scheduler.Tiers |
