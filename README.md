# Sidewalk sensor monitoring: protocol vocabulary and custom-data record

This project models two pieces of the application server of the Sidewalk
sensor-monitoring sample, and proves properties about them.

1. **The protocol vocabulary** (`codec/protocol.py`). It is a set of closed
   enumerations whose values are fixed-width binary strings:
   - operation code, 2 bits;
   - command class, 2 bits;
   - class-command subgroup, 3 bits;
   - normal and custom command ids, 3 bits each;
   - TLV tag type, 6 bits;
   - TLV length format, 2 bits;
   - radio link type, 8 bits;
   - sensor unit, 1 bit.

   The file also holds the static tables that map each command id to its
   subgroup and each command class to its id namespace.
2. **The CustomData record** (`database/custom_data.py`). It reads a 24-bit
   custom-data payload into a 16-bit sensor reading and an 8-bit
   temperature, stamps the record with a time in milliseconds and turns it
   into a dictionary (`to_dict`).

Layout:

- `wrappers.dfy`: `Option`, `Result` and `Outcome`. These stand for Python's
  exceptions.
- `binary.dfy`: binary strings and their unsigned values, plus zero-padded
  binary (`ToBinary`) and the lemmas that tie the two together.
- `pybuiltins.dfy`: the Python built-ins the record uses, on strings:
  - `int(x, 2)`, with its whitespace, sign, `0b` prefix and underscore rules;
  - `str(n)`;
  - `hex(n)`;
  - `str.zfill`.
- `protocol.dfy`: one datatype per enumeration, with a total `…ToBits` (the
  member's `.value`) and a partial `…FromBits` (Python's `Enum(value)`
  lookup, `None` where Python raises `ValueError`). It also holds the five
  tables.
- `protocol_facts.dfy`: coverage, distinctness, namespace overlap, the
  duplicate-value alias and table agreement.
- `custom_data.dfy`: the `CustomData` class, which has mutable fields and
  methods with frames. It also holds the pure function `Unpack`, which the
  payload method is proved against, and the as-written variant behind the
  finding below.

Points of the code worth knowing:
- `TagType` has 14 members, `000001` to `001110`.
- `ClassCmdId` has two members, because `DEMO_APP_CUSTOM_CMD_DATA` repeats
  the value `000` and becomes an alias.
- The record's time is in milliseconds. The docstring at
  `custom_data.py:22-23` says seconds.

## Model

| member | source | states |
|---|---|---|
| `Protocol.OpCodeToBits` | ApplicationServerDeployment/lambda/codec/protocol.py:15-18 | every operation code is a 2-bit string |
| `Protocol.OpCodeFromBits` | ApplicationServerDeployment/lambda/codec/protocol.py:11-18 | `OpCode(value)` finds exactly the member whose value is the string, and nothing otherwise |
| `Protocol.ClassToBits` | ApplicationServerDeployment/lambda/codec/protocol.py:25-26 | every command class is a 2-bit string |
| `Protocol.ClassFromBits` | ApplicationServerDeployment/lambda/codec/protocol.py:21-26 | `Class(value)` finds exactly the member with that value |
| `Protocol.ClassCmdIdToBits` | ApplicationServerDeployment/lambda/codec/protocol.py:33-35 | every class-command subgroup is a 3-bit string |
| `Protocol.ClassCmdIdFromBits` | ApplicationServerDeployment/lambda/codec/protocol.py:29-35 | `ClassCmdId(value)` finds exactly the member with that value |
| `Protocol.NormalIdToBits` | ApplicationServerDeployment/lambda/codec/protocol.py:42-46 | every normal command id is a 3-bit string |
| `Protocol.NormalIdFromBits` | ApplicationServerDeployment/lambda/codec/protocol.py:38-46 | `NormalId(value)` finds exactly the member with that value |
| `Protocol.CustomIdToBits` | ApplicationServerDeployment/lambda/codec/protocol.py:50-52 | every custom command id is a 3-bit string |
| `Protocol.CustomIdFromBits` | ApplicationServerDeployment/lambda/codec/protocol.py:49-52 | `CustomId(value)` finds exactly the member with that value |
| `Protocol.TagTypeToBits` | ApplicationServerDeployment/lambda/codec/protocol.py:59-72 | every tag type is a 6-bit string |
| `Protocol.TagTypeFromBits` | ApplicationServerDeployment/lambda/codec/protocol.py:55-72 | `TagType(value)` finds exactly the member with that value |
| `Protocol.TlvFormatToBits` | ApplicationServerDeployment/lambda/codec/protocol.py:79-82 | every TLV format is a 2-bit string |
| `Protocol.TlvFormatFromBits` | ApplicationServerDeployment/lambda/codec/protocol.py:75-82 | `TlvFormat(value)` finds exactly the member with that value |
| `Protocol.LinkTypeToBits` | ApplicationServerDeployment/lambda/codec/protocol.py:89-91 | every link type is an 8-bit string whose only `1` is the radio's own flag bit (BLE bit 0, FSK bit 1, LoRa bit 2) |
| `Protocol.LinkTypeFromBits` | ApplicationServerDeployment/lambda/codec/protocol.py:85-91 | `LinkType(value)` finds exactly the member with that value |
| `Protocol.SensorUnitsToBits` | ApplicationServerDeployment/lambda/codec/protocol.py:98-99 | every sensor unit is a 1-bit string |
| `Protocol.SensorUnitsFromBits` | ApplicationServerDeployment/lambda/codec/protocol.py:94-99 | `SensorUnits(value)` finds exactly the member with that value |
| `Protocol.CommandIdToBits` | ApplicationServerDeployment/lambda/codec/protocol.py:38-52 | an id of either namespace is a 3-bit string |
| `Protocol.IdFromBits` | ApplicationServerDeployment/lambda/codec/protocol.py:129-132 | calling the enumeration that `ClassToIdMap` gives for a class: the result lies in that namespace and has the given value, and None means no member of the namespace has it |
| `ProtocolFacts.OpCodeBijection` | ApplicationServerDeployment/lambda/codec/protocol.py:15-18 | decoding succeeds on exactly the four 2-bit strings, and every opcode decodes back to itself |
| `ProtocolFacts.TlvFormatBijection` | ApplicationServerDeployment/lambda/codec/protocol.py:79-82 | decoding succeeds on exactly the four 2-bit strings, and every format decodes back to itself |
| `ProtocolFacts.ClassDecoding` | ApplicationServerDeployment/lambda/codec/protocol.py:25-26 | only `00` and `01` decode; `10` and `11` fail; among 2-bit strings, exactly those with a leading 0 decode |
| `ProtocolFacts.TagTypeValue` | ApplicationServerDeployment/lambda/codec/protocol.py:59-72 | the unsigned value of each tag's pattern is that tag's code, from 1 to 14 |
| `ProtocolFacts.TagTypeCoverage` | ApplicationServerDeployment/lambda/codec/protocol.py:59-72 | a 6-bit string names a tag exactly when its value is 1 to 14, so `000000` and everything above `001110` are not members |
| `ProtocolFacts.TagTypeDistinct` | ApplicationServerDeployment/lambda/codec/protocol.py:59-72 | tag values are pairwise distinct, and every tag decodes back to itself |
| `ProtocolFacts.IdValuesDistinct` | ApplicationServerDeployment/lambda/codec/protocol.py:42-52 | values are distinct within `NormalId` and within `CustomId` |
| `ProtocolFacts.IdNamespacesOverlap` | ApplicationServerDeployment/lambda/codec/protocol.py:42-52 | the two namespaces share exactly `010` and `011`, and each value names a different id under class `00` than under class `01` |
| `ProtocolFacts.ClassCmdIdAlias` | ApplicationServerDeployment/lambda/codec/protocol.py:33-35 | `000` decodes to the single member that both `CAP_DISCOVERY_ID` and `CUSTOM_CMD_DATA` name; only `000` and `001` decode |
| `ProtocolFacts.DefaultIdSubgroups` | ApplicationServerDeployment/lambda/codec/protocol.py:105-111 | the table covers every `NormalId`; the two capability-discovery ids map to `000` and the three action ids map to `001` |
| `ProtocolFacts.CustomIdSubgroups` | ApplicationServerDeployment/lambda/codec/protocol.py:113-117 | the table covers every `CustomId` and maps each one to `000`, the `CUSTOM_CMD_DATA` subgroup |
| `ProtocolFacts.ClassTablesAgree` | ApplicationServerDeployment/lambda/codec/protocol.py:119-132 | `ClassValueToIdValueMap[c.value] == ClassToIdValueMap[c]`; `ClassToIdMap` sends `00` to `NormalId` and `01` to `CustomId`; each class's table matches its namespace; both value-keyed maps have keys `{00, 01}` |
| `ProtocolFacts.ClassIdResolution` | ApplicationServerDeployment/lambda/codec/protocol.py:105-132 | any id decoded in a class's namespace has a subgroup in that class's table, and the subgroup is a `ClassCmdId` value |
| `PyBuiltins.DigitsOf` | ApplicationServerDeployment/lambda/database/custom_data.py:57 | the digits Python prints for a non-negative int: non-empty, valid in the base, with the int's value and no leading zero |
| `PyBuiltins.IntStr` | ApplicationServerDeployment/lambda/database/custom_data.py:56-60 | `str(n)` is a canonical decimal literal, and reading it back gives `n`; it starts with `-` exactly when `n < 0` |
| `PyBuiltins.Hex` | ApplicationServerDeployment/lambda/database/custom_data.py:67 | `hex(n)` is `0x` followed by the hex digits of `n`, or `-0x` followed by the digits of `-n` when `n` is negative |
| `PyBuiltins.ZFill` | ApplicationServerDeployment/lambda/database/custom_data.py:68 | `zfill` pads to the width with `0`s in front, after a leading `+` or `-` if there is one, and the rest of the string follows unchanged; a string already that wide comes back unchanged |
| `PyBuiltins.ZFillDigits` | ApplicationServerDeployment/lambda/database/custom_data.py:68 | zero-filling a digit string with no leading zero keeps its value and digits and reaches the width; a zero in front appears only as padding |
| `PyBuiltins.IntBase2` | ApplicationServerDeployment/lambda/database/custom_data.py:44-45 | `int(s, 2)`: it fails on a string that is empty once whitespace is trimmed, and a negative result needs a leading `-` after the trim; the two lemmas below give the exact values |
| `PyBuiltins.IntBase2OfBinary` | ApplicationServerDeployment/lambda/database/custom_data.py:44-45 | on a non-empty string of `0`/`1`, `int(s, 2)` is the unsigned value |
| `PyBuiltins.IntBase2OfNegated` | ApplicationServerDeployment/lambda/database/custom_data.py:44-45 | `int(s, 2)` also accepts a leading `-` and returns minus the unsigned value of the digits after it (negative unless they are all `0`) |
| `CustomDataRecord.ParseField` | ApplicationServerDeployment/lambda/database/custom_data.py:44-45 | a field reads only when it is non-empty binary; its value lies below 2^width and pads back to the field |
| `CustomDataRecord.ParseFieldAgrees` | ApplicationServerDeployment/lambda/database/custom_data.py:44-45 | where the field reads, Python's `int(field, 2)` gives the same number |
| `CustomDataRecord.Unpack` | ApplicationServerDeployment/lambda/database/custom_data.py:38-45 | the payload is accepted exactly when it is 24 characters of `0`/`1`; any other length is `WrongLength`; sensor < 65536 and temp < 256; padding them to 16 + 8 bits gives the payload back |
| `CustomDataRecord.UnpackRoundTrip` | ApplicationServerDeployment/lambda/database/custom_data.py:44-45 | for `s < 65536` and `t < 256`, unpacking the 16-bit padded `s` followed by the 8-bit padded `t` gives `s` and `t` |
| `CustomDataRecord.UnpackRejectsNonBit` | ApplicationServerDeployment/lambda/database/custom_data.py:40-45 | a payload with a character other than `0`/`1` is refused: `NotBinary` at length 24, `WrongLength` otherwise |
| `CustomDataRecord.UnpackAsWritten` | ApplicationServerDeployment/lambda/database/custom_data.py:38-45 | the split as written, with `int(x, 2)`: a length other than 24 is `WrongLength`, and success means both slices pass `int()` |
| `CustomDataRecord.UnpackAsWrittenAgrees` | ApplicationServerDeployment/lambda/database/custom_data.py:44-45 | on binary payloads, the as-written split and `Unpack` give the same sensor and temperature |
| `CustomDataRecord.UnpackAsWrittenTakesSign` | ApplicationServerDeployment/lambda/database/custom_data.py:44-45 | a 24-character payload made of `-`, 15 binary digits (not all zero) and 8 binary digits passes as written, with a negative sensor reading; `Unpack` refuses it as `NotBinary` |
| `CustomDataRecord.CustomData.constructor` | ApplicationServerDeployment/lambda/database/custom_data.py:26-36 | the value starts empty; sensor and temp are as given (default 0); a time ≥ 0 is kept exactly; a negative time (default -1) becomes the clock reading `nowMs` |
| `CustomDataRecord.CustomData.GetDataFromString` | ApplicationServerDeployment/lambda/database/custom_data.py:38-45 | stores the payload first; passes exactly when `Unpack` does, with its sensor and temp; on failure temp is unchanged, and sensor holds the new value only if the length was right and the sensor field read; device and time never change |
| `CustomDataRecord.CustomData.SetSensor` | ApplicationServerDeployment/lambda/database/custom_data.py:50-51 | sets the sensor, and its frame allows no other field to change |
| `CustomDataRecord.CustomData.SetTemp` | ApplicationServerDeployment/lambda/database/custom_data.py:53-54 | sets the temperature, and its frame allows no other field to change |
| `CustomDataRecord.CustomData.GetWirelessDeviceId` | ApplicationServerDeployment/lambda/database/custom_data.py:47-48 | returns the device id the constructor stored |
| `CustomDataRecord.CustomData.GetSensor` | ApplicationServerDeployment/lambda/database/custom_data.py:56-57 | a canonical decimal string that reads back as the sensor value |
| `CustomDataRecord.CustomData.GetTemp` | ApplicationServerDeployment/lambda/database/custom_data.py:59-60 | a canonical decimal string that reads back as the temperature |
| `CustomDataRecord.CustomData.GetTime` | ApplicationServerDeployment/lambda/database/custom_data.py:62-63 | returns the stored time: the caller's time when it was given, otherwise the clock reading taken at construction |
| `CustomDataRecord.CustomData.Bin2Hex` | ApplicationServerDeployment/lambda/database/custom_data.py:65-68 | `_bin2hex` succeeds exactly when `int(binary, 2)` does, and gives at least `len(binary) // 4` characters |
| `CustomDataRecord.Bin2HexOfEmpty` | ApplicationServerDeployment/lambda/database/custom_data.py:65-68 | `_bin2hex("")` fails, because `int("", 2)` raises |
| `CustomDataRecord.CustomData.ToDict` | ApplicationServerDeployment/lambda/database/custom_data.py:73-84 | exactly the keys `wireless_device_id`, `sensor`, `temperature` and `time`: the device id, the decimal sensor and temperature strings that read back as the fields, and the time |
| `CustomDataRecord.Bin2HexOfBinary` | ApplicationServerDeployment/lambda/database/custom_data.py:65-68 | for a non-empty binary string, `_bin2hex` gives hex digits with the same value, at least `len // 4` of them, and no leading zero beyond that padding |

## Left out

- The header codec, the TLV record codec, the length-field formats and the GPS-time offset are not part of this model. Their source is not among the modelled files, and the model does not invent a wire layout for them. Only the enumerations they would use are modelled.
- `database/custom_data_handler.py` is not part of this model. It makes one call to the Timestream `write_records` service and prints rejected records.
- `CustomDataRecord.CustomData.constructor`: does not read the wall clock or do the float arithmetic `int(round(time_now * 1000))`. The caller passes the current time in milliseconds as `nowMs`.
- `__str__` is left out, because it only produces log text.
- `PyBuiltins.IntBase2`: models ASCII whitespace only. Python's `int()` also strips Unicode whitespace and accepts non-ASCII decimal digits. Both are left out.
- `CustomDataRecord.CustomData.GetDataFromString`: reads each field with the corrected `ParseField`, not with `int(x, 2)`, as the finding below explains. The as-written behaviour is kept in `UnpackAsWritten`.
- `CustomDataRecord.CustomData.GetDataFromString`: its length check is a Python `assert`, which `python -O` removes. The model always checks the length.
- Parameters are typed `string` or `int`. Values of other types are not modelled. For example, `set_sensor` stores any object, and `get_sensor` then prints it.
- `protocol.py` defines no conversion between members and numbers. `ProtocolFacts.TagTypeCode` is only a proof helper.
- `PyBuiltins.IntStr`: never fails. Since Python 3.11 (and the matching security releases of 3.7 to 3.10), `str(n)` raises `ValueError` for an int with more than 4300 decimal digits. `set_sensor`, `set_temp` and the constructor accept any int, so `get_sensor`, `get_temp` and `to_dict` can raise there. The model has no such limit.

## Findings

| source | as written | input that shows it | evidently intended | confidence | as-written member | corrected member |
|---|---|---|---|---|---|---|
| ApplicationServerDeployment/lambda/database/custom_data.py:44-45 | `int(value[:16], 2)` and `int(value[16:24], 2)` accept a sign, a `0b` prefix, underscores and spaces, so a 24-character payload can pass with a negative or misaligned field | `"-000000000000001" + "00000001"` gives sensor -1 and temp 1 | the comment's "2B (sensor) + 1B (internal temp)" layout: each field is unsigned binary, and anything else is refused | medium, not executed | `CustomDataRecord.UnpackAsWrittenTakesSign` (about `CustomDataRecord.UnpackAsWritten`) | `CustomDataRecord.Unpack` (with `CustomDataRecord.UnpackRoundTrip`) |
