/**
 * The CustomData record of the sensor-monitoring application: a 24-bit
 * custom-data payload split into a 16-bit sensor reading and an 8-bit
 * internal temperature, stamped with a time in milliseconds and tied to
 * the wireless device it came from.
 */
module CustomDataRecord {
  import opened Wrappers
  import opened BinaryStrings
  import opened PyBuiltins

  /** Payload layout: 2 bytes of sensor reading, then 1 byte of temperature. */
  const PayloadBits: nat := 24
  const SensorBits: nat := 16
  const TempBits: nat := 8

  /** Why get_data_from_string stopped: the length assertion, or int() refusing a field. */
  datatype DataError = WrongLength | NotBinary

  /** The two fields read from a payload. */
  datatype Reading = Reading(sensor: nat, temp: nat)

  /** A value of the dictionary that to_dict returns. */
  datatype DictValue = Text(text: string) | Number(number: int)

  /**
   * One payload field read as an unsigned binary number: a non-empty string
   * of '0' and '1'. Where it succeeds it agrees with Python's int(s, 2);
   * unlike int(), it refuses a sign, a "0b" prefix, underscores and spaces.
   */
  function ParseField(s: string): (r: Option<nat>)
    ensures r.Some? <==> |s| > 0 && IsBinary(s)
    ensures r.Some? ==> r.value < Pow2(|s|) && ToBinary(r.value, |s|) == s
  {
    if |s| > 0 && IsBinary(s) then
      ToBinaryOfValue(s);
      Some(BitsValue(s))
    else None
  }

  /** Where the field reading succeeds, Python's int(s, 2) gives the same number. */
  lemma ParseFieldAgrees(s: string)
    requires ParseField(s).Some?
    ensures IntBase2(s) == Some(ParseField(s).value as int)
  {
    IntBase2OfBinary(s);
  }

  /**
   * The payload split into its fields: exactly 24 characters, all of them
   * '0' or '1'. A successful read is the payload's own encoding: padding
   * the sensor to 16 bits and the temperature to 8 gives the payload back.
   */
  function Unpack(value: string): (r: Result<Reading, DataError>)
    ensures r.Ok? <==> |value| == PayloadBits && IsBinary(value)
    ensures |value| != PayloadBits ==> r == Err(WrongLength)
    ensures r.Ok? ==> r.value.sensor < 65536 && r.value.temp < 256
    ensures r.Ok? ==> ToBinary(r.value.sensor, SensorBits) + ToBinary(r.value.temp, TempBits) == value
  {
    if |value| != PayloadBits then Err(WrongLength)
    else
      var hi, lo := value[..SensorBits], value[SensorBits..];
      assert value == hi + lo;
      IsBinaryConcat(hi, lo);
      match (ParseField(hi), ParseField(lo))
      case (Some(s), Some(t)) =>
        ToBinaryOfValue(hi);
        ToBinaryOfValue(lo);
        Ok(Reading(s, t))
      case _ => Err(NotBinary)
  }

  /** Packing a sensor reading and a temperature in 16 + 8 bits and reading them back gives both. */
  lemma UnpackRoundTrip(sensor: nat, temp: nat)
    requires sensor < 65536 && temp < 256
    ensures Unpack(ToBinary(sensor, SensorBits) + ToBinary(temp, TempBits)) == Ok(Reading(sensor, temp))
  {
    Pow2OfFieldWidths();
    var hi, lo := ToBinary(sensor, SensorBits), ToBinary(temp, TempBits);
    ToBinaryValue(sensor, SensorBits);
    ToBinaryValue(temp, TempBits);
    var value := hi + lo;
    IsBinaryConcat(hi, lo);
    var r := Unpack(value).value;
    var hi', lo' := ToBinary(r.sensor, SensorBits), ToBinary(r.temp, TempBits);
    ToBinaryValue(r.sensor, SensorBits);
    ToBinaryValue(r.temp, TempBits);
    assert hi' == hi by {
      assert (hi' + lo')[..SensorBits] == hi';
      assert (hi + lo)[..SensorBits] == hi;
    }
    assert lo' == lo by {
      assert (hi' + lo')[SensorBits..] == lo';
      assert (hi + lo)[SensorBits..] == lo;
    }
  }

  /** A payload with a character other than '0' or '1' is refused, whatever its length. */
  lemma UnpackRejectsNonBit(value: string, i: nat)
    requires i < |value| && !IsBit(value[i])
    ensures Unpack(value).Err?
    ensures Unpack(value).error == if |value| == PayloadBits then NotBinary else WrongLength
  {
  }

  // ---------------------------------------------------------------------------
  // The payload split as get_data_from_string writes it, with Python's int(x, 2)

  /**
   * The fields as custom_data.py reads them: the length is checked, then
   * each slice goes through int(x, 2), which also takes a sign, a "0b"
   * prefix, underscores and surrounding spaces.
   */
  function UnpackAsWritten(value: string): (r: Result<(int, int), DataError>)
    ensures |value| != PayloadBits <==> r == Err(WrongLength)
    ensures r.Ok? <==> |value| == PayloadBits && IntBase2(value[..SensorBits]).Some? && IntBase2(value[SensorBits..]).Some?
  {
    if |value| != PayloadBits then Err(WrongLength)
    else
      match (IntBase2(value[..SensorBits]), IntBase2(value[SensorBits..]))
      case (Some(s), Some(t)) => Ok((s, t))
      case _ => Err(NotBinary)
  }

  /** On payloads of '0' and '1' the written split and the corrected one agree. */
  lemma UnpackAsWrittenAgrees(value: string)
    requires Unpack(value).Ok?
    ensures UnpackAsWritten(value) == Ok((Unpack(value).value.sensor as int, Unpack(value).value.temp as int))
  {
    var hi, lo := value[..SensorBits], value[SensorBits..];
    assert IsBinary(hi) && IsBinary(lo);
    IntBase2OfBinary(hi);
    IntBase2OfBinary(lo);
    ToBinaryOfValue(hi);
    ToBinaryOfValue(lo);
    var r := Unpack(value).value;
    ToBinaryValue(r.sensor, SensorBits);
    ToBinaryValue(r.temp, TempBits);
    assert ToBinary(r.sensor, SensorBits) == hi by {
      assert (ToBinary(r.sensor, SensorBits) + ToBinary(r.temp, TempBits))[..SensorBits] == ToBinary(r.sensor, SensorBits);
    }
    assert ToBinary(r.temp, TempBits) == lo by {
      assert (ToBinary(r.sensor, SensorBits) + ToBinary(r.temp, TempBits))[SensorBits..] == ToBinary(r.temp, TempBits);
    }
  }

  /**
   * A payload whose sensor field is '-' and fifteen binary digits passes the
   * length check and reads as a negative sensor value, outside the unsigned
   * 16-bit range the field is meant to hold; the corrected split refuses it.
   * "-000000000000001" + "00000001" is one such payload: sensor -1, temp 1.
   */
  lemma UnpackAsWrittenTakesSign(value: string)
    requires |value| == PayloadBits && value[0] == '-'
    requires IsBinary(value[1..SensorBits]) && BitsValue(value[1..SensorBits]) > 0
    requires IsBinary(value[SensorBits..])
    ensures UnpackAsWritten(value) == Ok((-(BitsValue(value[1..SensorBits]) as int), BitsValue(value[SensorBits..]) as int))
    ensures UnpackAsWritten(value).value.0 < 0
    ensures Unpack(value) == Err(NotBinary)
  {
    var hi, lo := value[..SensorBits], value[SensorBits..];
    assert IntBase2(hi) == Some(-(BitsValue(value[1..SensorBits]) as int)) by {
      assert hi[1..] == value[1..SensorBits];
      IntBase2OfNegated(hi);
    }
    assert IntBase2(lo) == Some(BitsValue(lo) as int) by {
      IntBase2OfBinary(lo);
    }
    UnpackAsWrittenFields(value);
    UnpackRejectsNonBit(value, 0);
  }

  /** When both slices pass int(), the written split returns what int() gave for each. */
  lemma UnpackAsWrittenFields(value: string)
    requires |value| == PayloadBits
    requires IntBase2(value[..SensorBits]).Some? && IntBase2(value[SensorBits..]).Some?
    ensures UnpackAsWritten(value) == Ok((IntBase2(value[..SensorBits]).value, IntBase2(value[SensorBits..]).value))
  {
  }

  // ---------------------------------------------------------------------------
  // The record

  class CustomData {
    var wirelessDeviceId: string
    /** The last payload handed to GetDataFromString, kept even when it is refused. */
    var value: string
    var sensor: int
    var temp: int
    /** Milliseconds since the Unix epoch. */
    var time: int

    /**
     * A record for a device. A non-negative `time` is kept as given; a
     * negative one (the default) means "now", read from the clock as
     * `nowMs`, the current time in milliseconds.
     */
    constructor (wirelessDeviceId: string, nowMs: int, sensor: int := 0, temp: int := 0, time: int := -1)
      ensures this.wirelessDeviceId == wirelessDeviceId && value == ""
      ensures this.sensor == sensor && this.temp == temp
      ensures time >= 0 ==> this.time == time
      ensures time < 0 ==> this.time == nowMs
    {
      this.wirelessDeviceId := wirelessDeviceId;
      value := "";
      this.sensor := sensor;
      this.temp := temp;
      if time < 0 {
        this.time := nowMs;
      } else {
        this.time := time;
      }
    }

    /**
     * Reads a payload into the record. The payload is stored first, then its
     * length is checked, then the sensor field is read and stored, then the
     * temperature field: a refused temperature leaves the new sensor value in
     * place. Device and time never change.
     */
    method GetDataFromString(v: string := "") returns (outcome: Outcome<DataError>)
      modifies this`value, this`sensor, this`temp
      ensures value == v
      ensures wirelessDeviceId == old(wirelessDeviceId) && time == old(time)
      ensures outcome.Pass? <==> Unpack(v).Ok?
      ensures outcome.Fail? ==> outcome.error == Unpack(v).error
      ensures outcome.Pass? ==> sensor == Unpack(v).value.sensor && temp == Unpack(v).value.temp
      ensures outcome.Fail? ==> temp == old(temp)
      ensures outcome.Fail? ==>
        sensor == if |v| == PayloadBits && ParseField(v[..SensorBits]).Some? then ParseField(v[..SensorBits]).value else old(sensor)
    {
      value := v;
      if |v| != PayloadBits {
        return Fail(WrongLength);
      }
      var s := ParseField(v[..SensorBits]);
      if s.None? {
        return Fail(NotBinary);
      }
      sensor := s.value;
      var t := ParseField(v[SensorBits..]);
      if t.None? {
        return Fail(NotBinary);
      }
      temp := t.value;
      return Pass;
    }

    /** The device the record belongs to, as the constructor stored it. */
    function GetWirelessDeviceId(): (r: string)
      reads this
      ensures r == wirelessDeviceId
    {
      wirelessDeviceId
    }

    method SetSensor(sensor: int)
      modifies this`sensor
      ensures this.sensor == sensor
    {
      this.sensor := sensor;
    }

    method SetTemp(temp: int)
      modifies this`temp
      ensures this.temp == temp
    {
      this.temp := temp;
    }

    /** The sensor reading as Python prints it; reading the text back gives the reading. */
    function GetSensor(): (r: string)
      reads this
      ensures IsCanonicalDecimal(r) && DecimalValue(r) == sensor
    {
      IntStr(sensor)
    }

    /** The temperature as Python prints it; reading the text back gives the temperature. */
    function GetTemp(): (r: string)
      reads this
      ensures IsCanonicalDecimal(r) && DecimalValue(r) == temp
    {
      IntStr(temp)
    }

    /** The record's time in milliseconds: the one given, or the clock reading taken at construction. */
    function GetTime(): (r: int)
      reads this
      ensures r == time
    {
      time
    }

    /**
     * A binary string as hexadecimal: int(binary, 2), printed by hex()
     * without its "0x", left-padded with zeros to a quarter of the input's
     * length. None stands for the ValueError int() raises.
     */
    static function Bin2Hex(binary: string): (r: Option<string>)
      ensures r.Some? <==> IntBase2(binary).Some?
      ensures r.Some? ==> |r.value| >= |binary| / 4
    {
      match IntBase2(binary)
      case None => None
      case Some(v) => Some(ZFill(Hex(v)[2..], |binary| / 4))
    }

    /** The record as a dictionary of its four fields. */
    function ToDict(): (d: map<string, DictValue>)
      reads this
      ensures d.Keys == {"wireless_device_id", "sensor", "temperature", "time"}
      ensures d["wireless_device_id"] == Text(wirelessDeviceId)
      ensures d["sensor"].Text? && IsCanonicalDecimal(d["sensor"].text) && DecimalValue(d["sensor"].text) == sensor
      ensures d["temperature"].Text? && IsCanonicalDecimal(d["temperature"].text) && DecimalValue(d["temperature"].text) == temp
      ensures d["time"] == Number(time)
    {
      map[
        "wireless_device_id" := Text(GetWirelessDeviceId()),
        "sensor" := Text(GetSensor()),
        "temperature" := Text(GetTemp()),
        "time" := Number(GetTime())
      ]
    }
  }

  /**
   * For a non-empty string of '0' and '1', Bin2Hex gives lower-case hex
   * digits with the same value, at least a quarter as many as the input
   * has bits, and no zero in front beyond that padding.
   */
  lemma Bin2HexOfBinary(binary: string)
    requires |binary| > 0 && IsBinary(binary)
    ensures CustomData.Bin2Hex(binary).Some?
    ensures var h := CustomData.Bin2Hex(binary).value;
      && IsDigits(h, 16)
      && DigitsValue(h, 16) == BitsValue(binary)
      && |h| >= |binary| / 4
      && (|h| > |binary| / 4 ==> h[0] != '0' || h == "0")
  {
    IntBase2OfBinary(binary);
    var d := DigitsOf(BitsValue(binary), 16);
    assert CustomData.Bin2Hex(binary) == Some(ZFill(d, |binary| / 4));
    ZFillDigits(d, |binary| / 4, 16);
  }

  /** _bin2hex("") raises: int() refuses the empty string. */
  lemma Bin2HexOfEmpty()
    ensures CustomData.Bin2Hex("") == None
  {
    IntBase2OfEmpty();
  }
}
