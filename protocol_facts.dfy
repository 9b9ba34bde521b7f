/**
 * What the protocol vocabulary guarantees: which bit patterns each
 * enumeration covers, that its values are distinct, where the two id
 * namespaces overlap, and that the static tables agree with each other.
 */
module ProtocolFacts {
  import opened Wrappers
  import opened BinaryStrings
  import opened Protocol

  /** The four 2-bit strings are the only ones. */
  lemma TwoBitPatterns(s: string)
    requires |s| == 2 && IsBinary(s)
    ensures s == "00" || s == "01" || s == "10" || s == "11"
  {
    ToBinaryOfValue(s);
    var v := BitsValue(s);
    assert v < 4;
    if v == 0 {
      assert ToBinary(0, 2) == "00";
    } else if v == 1 {
      assert ToBinary(1, 2) == "01";
    } else if v == 2 {
      assert ToBinary(2, 2) == "10";
    } else {
      assert ToBinary(3, 2) == "11";
    }
  }

  /** OpCode is a bijection between its members and the 2-bit strings. */
  lemma OpCodeBijection()
    ensures forall s :: OpCodeFromBits(s).Some? <==> |s| == 2 && IsBinary(s)
    ensures forall o :: OpCodeFromBits(OpCodeToBits(o)) == Some(o)
  {
    forall s | |s| == 2 && IsBinary(s)
      ensures OpCodeFromBits(s).Some?
    {
      TwoBitPatterns(s);
    }
  }

  /** TlvFormat is a bijection between its members and the 2-bit strings. */
  lemma TlvFormatBijection()
    ensures forall s :: TlvFormatFromBits(s).Some? <==> |s| == 2 && IsBinary(s)
    ensures forall f :: TlvFormatFromBits(TlvFormatToBits(f)) == Some(f)
  {
    forall s | |s| == 2 && IsBinary(s)
      ensures TlvFormatFromBits(s).Some?
    {
      TwoBitPatterns(s);
    }
  }

  /** Class uses the 2-bit patterns with a leading 0 and rejects '10' and '11'. */
  lemma ClassDecoding()
    ensures forall s :: ClassFromBits(s).Some? <==> s == "00" || s == "01"
    ensures ClassFromBits("10") == None && ClassFromBits("11") == None
    ensures forall s :: |s| == 2 && IsBinary(s) ==> (ClassFromBits(s).Some? <==> s[0] == '0')
  {
    forall s | |s| == 2 && IsBinary(s)
      ensures ClassFromBits(s).Some? <==> s[0] == '0'
    {
      TwoBitPatterns(s);
    }
  }

  /** The value of a tag's 6-bit pattern, as a number. */
  function TagTypeCode(t: TagType): (v: nat)
    ensures 1 <= v <= 14
  {
    match t
    case NumberOfButtons => 1
    case NumberOfLeds => 2
    case LedOn => 3
    case LedOff => 4
    case ButtonPress => 5
    case TempSensorData => 6
    case CurrentGpsTimeInSecs => 7
    case DlLatencyInSecs => 8
    case LedOnResp => 9
    case LedOffResp => 10
    case TempSensorAvailableAndUnitRepresentation => 11
    case LinkTypeTag => 12
    case ButtonPressedResp => 13
    case CustomDataTag => 14
  }

  /** The tag whose 6-bit value is v. */
  function TagTypeWithCode(v: nat): (t: TagType)
    requires 1 <= v <= 14
    ensures TagTypeCode(t) == v
  {
    if v == 1 then NumberOfButtons
    else if v == 2 then NumberOfLeds
    else if v == 3 then LedOn
    else if v == 4 then LedOff
    else if v == 5 then ButtonPress
    else if v == 6 then TempSensorData
    else if v == 7 then CurrentGpsTimeInSecs
    else if v == 8 then DlLatencyInSecs
    else if v == 9 then LedOnResp
    else if v == 10 then LedOffResp
    else if v == 11 then TempSensorAvailableAndUnitRepresentation
    else if v == 12 then LinkTypeTag
    else if v == 13 then ButtonPressedResp
    else CustomDataTag
  }

  /** Every tag's pattern has the tag's code as its value. */
  lemma TagTypeValue(t: TagType)
    ensures BitsValue(TagTypeToBits(t)) == TagTypeCode(t)
  {
    BitsValueOfSixBits(TagTypeToBits(t));
  }

  /**
   * A 6-bit string names a tag exactly when its value is 1 to 14:
   * '000000' and everything above '001110' are not members.
   */
  lemma TagTypeCoverage(s: string)
    requires |s| == 6 && IsBinary(s)
    ensures TagTypeFromBits(s).Some? <==> 1 <= BitsValue(s) <= 14
  {
    var v := BitsValue(s);
    if TagTypeFromBits(s).Some? {
      TagTypeValue(TagTypeFromBits(s).value);
    }
    if 1 <= v <= 14 {
      var t := TagTypeWithCode(v);
      TagTypeValue(t);
      BitsValueInjective(TagTypeToBits(t), s);
    }
  }

  /** Tag values are pairwise distinct, so every tag decodes back to itself. */
  lemma TagTypeDistinct()
    ensures forall a, b :: TagTypeToBits(a) == TagTypeToBits(b) ==> a == b
    ensures forall t :: TagTypeFromBits(TagTypeToBits(t)) == Some(t)
  {
    forall a, b | TagTypeToBits(a) == TagTypeToBits(b)
      ensures a == b
    {
      assert TagTypeFromBits(TagTypeToBits(a)) == Some(a);
    }
  }

  /** NormalId values are pairwise distinct; so are CustomId values. */
  lemma IdValuesDistinct()
    ensures forall a, b :: NormalIdToBits(a) == NormalIdToBits(b) ==> a == b
    ensures forall a, b :: CustomIdToBits(a) == CustomIdToBits(b) ==> a == b
  {
    forall a, b | NormalIdToBits(a) == NormalIdToBits(b)
      ensures a == b
    {
      assert NormalIdFromBits(NormalIdToBits(a)) == Some(a);
    }
    forall a, b | CustomIdToBits(a) == CustomIdToBits(b)
      ensures a == b
    {
      assert CustomIdFromBits(CustomIdToBits(a)) == Some(a);
    }
  }

  /**
   * The namespaces share exactly the values '010' and '011', each naming a
   * different id in each namespace, so the class decides which id is meant.
   */
  lemma IdNamespacesOverlap()
    ensures forall n, c :: NormalIdToBits(n) == CustomIdToBits(c) <==>
      (n == DemoAppCapDiscoveryNotification && c == DemoAppCustomDataNotification) ||
      (n == DemoAppCapDiscoveryResp && c == DemoAppCustomDataResp)
    ensures forall s :: NormalIdFromBits(s).Some? && CustomIdFromBits(s).Some? <==> s == "010" || s == "011"
    ensures IdFromBits(ClassToIdMap["00"], "010") == Some(Normal(DemoAppCapDiscoveryNotification))
    ensures IdFromBits(ClassToIdMap["01"], "010") == Some(Custom(DemoAppCustomDataNotification))
    ensures IdFromBits(ClassToIdMap["00"], "011") == Some(Normal(DemoAppCapDiscoveryResp))
    ensures IdFromBits(ClassToIdMap["01"], "011") == Some(Custom(DemoAppCustomDataResp))
  {
  }

  /** '000' decodes to the one member that both CAP_DISCOVERY_ID and CUSTOM_CMD_DATA name. */
  lemma ClassCmdIdAlias()
    ensures ClassCmdIdFromBits("000") == Some(DemoAppCustomCmdData)
    ensures DemoAppCustomCmdData == DemoAppClassCmdCapDiscoveryId
    ensures forall s :: ClassCmdIdFromBits(s).Some? <==> s == "000" || s == "001"
  {
  }

  /**
   * DefaultIdToCmdIdValueMap covers every NormalId: the capability-discovery
   * ids go to subgroup '000', the action ids to '001'.
   */
  lemma DefaultIdSubgroups()
    ensures forall n: NormalId :: n in DefaultIdToCmdIdValueMap
    ensures forall n: NormalId :: n in DefaultIdToCmdIdValueMap ==>
      ClassCmdIdFromBits(DefaultIdToCmdIdValueMap[n]) ==
        Some(if n.IsCapDiscovery() then DemoAppClassCmdCapDiscoveryId else DemoAppClassCmdAction)
    ensures forall n: NormalId :: n in DefaultIdToCmdIdValueMap ==>
      (DefaultIdToCmdIdValueMap[n] == "000" <==> n.IsCapDiscovery()) &&
      (DefaultIdToCmdIdValueMap[n] == "001" <==> !n.IsCapDiscovery())
  {
    forall n: NormalId
      ensures n in DefaultIdToCmdIdValueMap
    {
      match n
      case DemoAppCapDiscoveryNotification =>
      case DemoAppCapDiscoveryResp =>
      case DemoAppActionReq =>
      case DemoAppActionNotification =>
      case DemoAppActionResp =>
    }
  }

  /** CustomIdToCmdIdValueMap covers every CustomId and sends each to '000'. */
  lemma CustomIdSubgroups()
    ensures forall c: CustomId :: c in CustomIdToCmdIdValueMap
    ensures forall c: CustomId :: c in CustomIdToCmdIdValueMap ==>
      CustomIdToCmdIdValueMap[c] == "000" &&
      ClassCmdIdFromBits(CustomIdToCmdIdValueMap[c]) == Some(DemoAppCustomCmdData)
  {
    forall c: CustomId
      ensures c in CustomIdToCmdIdValueMap
    {
      match c
      case DemoAppCustomDataReq =>
      case DemoAppCustomDataResp =>
      case DemoAppCustomDataNotification =>
    }
  }

  /**
   * The three class tables agree: keyed by the class or by its value they give
   * the same id table, and that table is the one for the namespace that
   * ClassToIdMap names ('00' the NormalId namespace, '01' the CustomId one).
   */
  lemma ClassTablesAgree(c: Class)
    ensures ClassToBits(c) in ClassValueToIdValueMap && c in ClassToIdValueMap
    ensures ClassValueToIdValueMap[ClassToBits(c)] == ClassToIdValueMap[c]
    ensures ClassToBits(c) in ClassToIdMap
    ensures ClassToIdMap[ClassToBits(c)] == if c == DemoAppClass then NormalIdSpace else CustomIdSpace
    ensures ClassToIdValueMap[c].DefaultIdTable? <==> ClassToIdMap[ClassToBits(c)] == NormalIdSpace
    ensures ClassToIdMap.Keys == ClassValueToIdValueMap.Keys == {"00", "01"}
  {
  }

  /**
   * Resolving an id through the class value never misses the subgroup table:
   * any id that the class's namespace decodes has a subgroup in the table
   * that ClassValueToIdValueMap gives for that class, and the subgroup value
   * is a ClassCmdId member.
   */
  lemma ClassIdResolution(c: Class, s: string)
    requires IdFromBits(ClassToIdMap[ClassToBits(c)], s).Some?
    ensures SubgroupLookup(ClassValueToIdValueMap[ClassToBits(c)], IdFromBits(ClassToIdMap[ClassToBits(c)], s).value).Some?
    ensures ClassCmdIdFromBits(SubgroupLookup(ClassValueToIdValueMap[ClassToBits(c)], IdFromBits(ClassToIdMap[ClassToBits(c)], s).value).value).Some?
  {
    ClassTablesAgree(c);
    DefaultIdSubgroups();
    CustomIdSubgroups();
  }
}
