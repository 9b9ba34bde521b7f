/**
 * The protocol vocabulary of the Sidewalk sensor-monitoring application:
 * closed enumerations whose values are fixed-width binary strings, and the
 * static tables that tie command ids to their class-command subgroup and
 * command classes to their id namespace.
 *
 * Each enumeration has a total `...ToBits` (the member's `.value`) and a
 * partial `...FromBits` (Python's `Enum(value)` lookup, which raises
 * ValueError on a string that is no member's value; here it yields None).
 */
module Protocol {
  import opened Wrappers
  import opened BinaryStrings

  // ---------------------------------------------------------------------------
  // OpCode: 2 bits, all four patterns used

  datatype OpCode = MsgTypeRead | MsgTypeWrite | MsgTypeNotify | MsgTypeResp

  function OpCodeToBits(o: OpCode): (r: string)
    ensures |r| == 2 && IsBinary(r)
  {
    match o
    case MsgTypeRead => "00"
    case MsgTypeWrite => "01"
    case MsgTypeNotify => "10"
    case MsgTypeResp => "11"
  }

  function OpCodeFromBits(s: string): (r: Option<OpCode>)
    ensures forall o :: r == Some(o) <==> OpCodeToBits(o) == s
  {
    match s
    case "00" => Some(MsgTypeRead)
    case "01" => Some(MsgTypeWrite)
    case "10" => Some(MsgTypeNotify)
    case "11" => Some(MsgTypeResp)
    case _ => None
  }

  // ---------------------------------------------------------------------------
  // Class: 2 bits, only two of the four patterns used

  datatype Class = DemoAppClass | DemoAppClassCustom

  function ClassToBits(c: Class): (r: string)
    ensures |r| == 2 && IsBinary(r)
  {
    match c
    case DemoAppClass => "00"
    case DemoAppClassCustom => "01"
  }

  function ClassFromBits(s: string): (r: Option<Class>)
    ensures forall c :: r == Some(c) <==> ClassToBits(c) == s
  {
    match s
    case "00" => Some(DemoAppClass)
    case "01" => Some(DemoAppClassCustom)
    case _ => None
  }

  // ---------------------------------------------------------------------------
  // ClassCmdId: 3 bits. The enumeration declares '000' twice, so its third
  // name is an alias of the first member rather than a member of its own.

  datatype ClassCmdId = DemoAppClassCmdCapDiscoveryId | DemoAppClassCmdAction

  /** DEMO_APP_CUSTOM_CMD_DATA: a second name for the member whose value is '000'. */
  const DemoAppCustomCmdData: ClassCmdId := DemoAppClassCmdCapDiscoveryId

  function ClassCmdIdToBits(g: ClassCmdId): (r: string)
    ensures |r| == 3 && IsBinary(r)
  {
    match g
    case DemoAppClassCmdCapDiscoveryId => "000"
    case DemoAppClassCmdAction => "001"
  }

  function ClassCmdIdFromBits(s: string): (r: Option<ClassCmdId>)
    ensures forall g :: r == Some(g) <==> ClassCmdIdToBits(g) == s
  {
    match s
    case "000" => Some(DemoAppClassCmdCapDiscoveryId)
    case "001" => Some(DemoAppClassCmdAction)
    case _ => None
  }

  // ---------------------------------------------------------------------------
  // NormalId and CustomId: 3 bits each, two independent namespaces

  datatype NormalId =
    | DemoAppCapDiscoveryNotification
    | DemoAppCapDiscoveryResp
    | DemoAppActionReq
    | DemoAppActionNotification
    | DemoAppActionResp
  {
    /** The ids of the capability-discovery exchange (the rest are actions). */
    predicate IsCapDiscovery() {
      DemoAppCapDiscoveryNotification? || DemoAppCapDiscoveryResp?
    }
  }

  function NormalIdToBits(n: NormalId): (r: string)
    ensures |r| == 3 && IsBinary(r)
  {
    match n
    case DemoAppCapDiscoveryNotification => "010"
    case DemoAppCapDiscoveryResp => "011"
    case DemoAppActionReq => "101"
    case DemoAppActionNotification => "110"
    case DemoAppActionResp => "111"
  }

  function NormalIdFromBits(s: string): (r: Option<NormalId>)
    ensures forall n :: r == Some(n) <==> NormalIdToBits(n) == s
  {
    match s
    case "010" => Some(DemoAppCapDiscoveryNotification)
    case "011" => Some(DemoAppCapDiscoveryResp)
    case "101" => Some(DemoAppActionReq)
    case "110" => Some(DemoAppActionNotification)
    case "111" => Some(DemoAppActionResp)
    case _ => None
  }

  datatype CustomId = DemoAppCustomDataReq | DemoAppCustomDataResp | DemoAppCustomDataNotification

  function CustomIdToBits(c: CustomId): (r: string)
    ensures |r| == 3 && IsBinary(r)
  {
    match c
    case DemoAppCustomDataReq => "001"
    case DemoAppCustomDataResp => "011"
    case DemoAppCustomDataNotification => "010"
  }

  function CustomIdFromBits(s: string): (r: Option<CustomId>)
    ensures forall c :: r == Some(c) <==> CustomIdToBits(c) == s
  {
    match s
    case "001" => Some(DemoAppCustomDataReq)
    case "011" => Some(DemoAppCustomDataResp)
    case "010" => Some(DemoAppCustomDataNotification)
    case _ => None
  }

  // ---------------------------------------------------------------------------
  // TagType: 6 bits, the values 1 to 14

  datatype TagType =
    | NumberOfButtons
    | NumberOfLeds
    | LedOn
    | LedOff
    | ButtonPress
    | TempSensorData
    | CurrentGpsTimeInSecs
    | DlLatencyInSecs
    | LedOnResp
    | LedOffResp
    | TempSensorAvailableAndUnitRepresentation
    | LinkTypeTag
    | ButtonPressedResp
    | CustomDataTag

  function TagTypeToBits(t: TagType): (r: string)
    ensures |r| == 6 && IsBinary(r)
  {
    match t
    case NumberOfButtons => "000001"
    case NumberOfLeds => "000010"
    case LedOn => "000011"
    case LedOff => "000100"
    case ButtonPress => "000101"
    case TempSensorData => "000110"
    case CurrentGpsTimeInSecs => "000111"
    case DlLatencyInSecs => "001000"
    case LedOnResp => "001001"
    case LedOffResp => "001010"
    case TempSensorAvailableAndUnitRepresentation => "001011"
    case LinkTypeTag => "001100"
    case ButtonPressedResp => "001101"
    case CustomDataTag => "001110"
  }

  function TagTypeFromBits(s: string): (r: Option<TagType>)
    ensures forall t :: r == Some(t) <==> TagTypeToBits(t) == s
  {
    match s
    case "000001" => Some(NumberOfButtons)
    case "000010" => Some(NumberOfLeds)
    case "000011" => Some(LedOn)
    case "000100" => Some(LedOff)
    case "000101" => Some(ButtonPress)
    case "000110" => Some(TempSensorData)
    case "000111" => Some(CurrentGpsTimeInSecs)
    case "001000" => Some(DlLatencyInSecs)
    case "001001" => Some(LedOnResp)
    case "001010" => Some(LedOffResp)
    case "001011" => Some(TempSensorAvailableAndUnitRepresentation)
    case "001100" => Some(LinkTypeTag)
    case "001101" => Some(ButtonPressedResp)
    case "001110" => Some(CustomDataTag)
    case _ => None
  }

  // ---------------------------------------------------------------------------
  // TlvFormat: 2 bits, all four patterns used

  datatype TlvFormat = SizeOptimized1B | SizeOptimized2B | SizeOptimized4B | Standard

  function TlvFormatToBits(f: TlvFormat): (r: string)
    ensures |r| == 2 && IsBinary(r)
  {
    match f
    case SizeOptimized1B => "00"
    case SizeOptimized2B => "01"
    case SizeOptimized4B => "10"
    case Standard => "11"
  }

  function TlvFormatFromBits(s: string): (r: Option<TlvFormat>)
    ensures forall f :: r == Some(f) <==> TlvFormatToBits(f) == s
  {
    match s
    case "00" => Some(SizeOptimized1B)
    case "01" => Some(SizeOptimized2B)
    case "10" => Some(SizeOptimized4B)
    case "11" => Some(Standard)
    case _ => None
  }

  // ---------------------------------------------------------------------------
  // LinkType: 8 bits, one bit set per radio

  datatype LinkType = Ble | Fsk | Lora

  /** The position of a radio's flag, counted from the least significant bit. */
  function LinkTypeFlag(l: LinkType): (k: nat)
    ensures k < 8
  {
    match l
    case Ble => 0
    case Fsk => 1
    case Lora => 2
  }

  /** Exactly one bit is set: the radio's own flag. */
  function LinkTypeToBits(l: LinkType): (r: string)
    ensures |r| == 8 && IsBinary(r)
    ensures forall i :: 0 <= i < 8 ==> (r[i] == '1' <==> i == 7 - LinkTypeFlag(l))
  {
    match l
    case Ble => "00000001"
    case Fsk => "00000010"
    case Lora => "00000100"
  }

  function LinkTypeFromBits(s: string): (r: Option<LinkType>)
    ensures forall l :: r == Some(l) <==> LinkTypeToBits(l) == s
  {
    match s
    case "00000001" => Some(Ble)
    case "00000010" => Some(Fsk)
    case "00000100" => Some(Lora)
    case _ => None
  }

  // ---------------------------------------------------------------------------
  // SensorUnits: 1 bit

  datatype SensorUnits = Celsius | Fahrenheit

  function SensorUnitsToBits(u: SensorUnits): (r: string)
    ensures |r| == 1 && IsBinary(r)
  {
    match u
    case Celsius => "0"
    case Fahrenheit => "1"
  }

  function SensorUnitsFromBits(s: string): (r: Option<SensorUnits>)
    ensures forall u :: r == Some(u) <==> SensorUnitsToBits(u) == s
  {
    match s
    case "0" => Some(Celsius)
    case "1" => Some(Fahrenheit)
    case _ => None
  }

  // ---------------------------------------------------------------------------
  // Static tables

  /** Each NormalId to the value of its class-command subgroup. */
  const DefaultIdToCmdIdValueMap: map<NormalId, string> := map[
    DemoAppCapDiscoveryNotification := ClassCmdIdToBits(DemoAppClassCmdCapDiscoveryId),
    DemoAppCapDiscoveryResp := ClassCmdIdToBits(DemoAppClassCmdCapDiscoveryId),
    DemoAppActionReq := ClassCmdIdToBits(DemoAppClassCmdAction),
    DemoAppActionResp := ClassCmdIdToBits(DemoAppClassCmdAction),
    DemoAppActionNotification := ClassCmdIdToBits(DemoAppClassCmdAction)
  ]

  /** Each CustomId to the value of its class-command subgroup. */
  const CustomIdToCmdIdValueMap: map<CustomId, string> := map[
    DemoAppCustomDataReq := ClassCmdIdToBits(DemoAppCustomCmdData),
    DemoAppCustomDataResp := ClassCmdIdToBits(DemoAppCustomCmdData),
    DemoAppCustomDataNotification := ClassCmdIdToBits(DemoAppCustomCmdData)
  ]

  /** One of the two id-to-subgroup tables; their key types differ. */
  datatype IdTable = DefaultIdTable(normal: map<NormalId, string>) | CustomIdTable(custom: map<CustomId, string>)

  /** One of the two id enumerations, as a value (Python passes the enum class itself). */
  datatype IdNamespace = NormalIdSpace | CustomIdSpace

  /** A command id of either namespace. */
  datatype CommandId = Normal(normal: NormalId) | Custom(custom: CustomId)

  const ClassToIdValueMap: map<Class, IdTable> := map[
    DemoAppClass := DefaultIdTable(DefaultIdToCmdIdValueMap),
    DemoAppClassCustom := CustomIdTable(CustomIdToCmdIdValueMap)
  ]

  const ClassValueToIdValueMap: map<string, IdTable> := map[
    ClassToBits(DemoAppClass) := DefaultIdTable(DefaultIdToCmdIdValueMap),
    ClassToBits(DemoAppClassCustom) := CustomIdTable(CustomIdToCmdIdValueMap)
  ]

  /** Keyed by the class VALUE (a bit string), despite its name. */
  const ClassToIdMap: map<string, IdNamespace> := map[
    ClassToBits(DemoAppClass) := NormalIdSpace,
    ClassToBits(DemoAppClassCustom) := CustomIdSpace
  ]

  predicate InNamespace(id: CommandId, ns: IdNamespace) {
    match id
    case Normal(_) => ns == NormalIdSpace
    case Custom(_) => ns == CustomIdSpace
  }

  function CommandIdToBits(id: CommandId): (r: string)
    ensures |r| == 3 && IsBinary(r)
  {
    match id
    case Normal(n) => NormalIdToBits(n)
    case Custom(c) => CustomIdToBits(c)
  }

  /**
   * Calling the enumeration that a namespace stands for on an id value:
   * `ClassToIdMap[class_value](id_value)`. The result lies in the namespace
   * asked for and has the given value; None means no member of that
   * namespace has it.
   */
  function IdFromBits(ns: IdNamespace, s: string): (r: Option<CommandId>)
    ensures r.Some? ==> InNamespace(r.value, ns) && CommandIdToBits(r.value) == s
    ensures r.None? ==> forall id :: InNamespace(id, ns) ==> CommandIdToBits(id) != s
  {
    match ns
    case NormalIdSpace =>
      (match NormalIdFromBits(s) case Some(n) => Some(Normal(n)) case None => None)
    case CustomIdSpace =>
      (match CustomIdFromBits(s) case Some(c) => Some(Custom(c)) case None => None)
  }

  /** Indexing an id-to-subgroup table with an id; a key of the wrong namespace is missing. */
  function SubgroupLookup(table: IdTable, id: CommandId): Option<string> {
    match (table, id)
    case (DefaultIdTable(m), Normal(n)) => if n in m then Some(m[n]) else None
    case (CustomIdTable(m), Custom(c)) => if c in m then Some(m[c]) else None
    case _ => None
  }
}
