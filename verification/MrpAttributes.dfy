/** The attributes of the MSRP application and their codes (msrp/vtss_msrp_private.h). */
module MrpAttributes {
  import opened Octets
  import opened Wrappers

  /** `mrp_attribute_type`. */
  datatype AttrType = TalkerAdvertise | TalkerFailed | Listener | Domain

  /** Its number in the enumeration. */
  function Code(t: AttrType): (n: nat)
    ensures n < 4
  {
    match t
    case TalkerAdvertise => 0
    case TalkerFailed => 1
    case Listener => 2
    case Domain => 3
  }

  /** Its octet in a PDU. */
  function EncodeAttrType(t: AttrType): Byte {
    Code(t) + 1
  }

  function DecodeAttrType(octet: Byte): Option<AttrType> {
    match octet
    case 1 => Some(TalkerAdvertise)
    case 2 => Some(TalkerFailed)
    case 3 => Some(Listener)
    case 4 => Some(Domain)
    case _ => None
  }

  /** `first_value_lengths`. */
  function FirstLength(t: AttrType): (n: nat)
    ensures 4 <= n <= 34
  {
    match t
    case TalkerAdvertise => 25
    case TalkerFailed => 34
    case Listener => 8
    case Domain => 4
  }

  /** Only listeners carry four-packed events. */
  predicate HasFourPacked(t: AttrType) {
    t == Listener
  }
}
