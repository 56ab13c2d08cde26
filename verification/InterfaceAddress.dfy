/**
  ValidateIPWithSubnetMatch: the server's own address, in CIDR notation, against the Subnet's network.
 */
module InterfaceAddress {
  import opened Text
  import opened Address
  import opened Ranges

  datatype Verdict = Match | BadFormat | NotInSubnet | NetworkDiffers

  /** IP.Mask with a four-byte mask: nothing for an address that is not IPv4. */
  function MaskIP(net: IPNet, ip: IP): Option<seq<Byte>>
  {
    match To4(ip)
    case Some(q) => Some(Mask(q, net.ones))
    case None => None
  }

  /** parseCIDR is the address part of net.ParseCIDR. Containment decides alone: the comparison of the network parts that follows it never fails. */
  method ValidateIPWithSubnetMatch(parseCIDR: Parser, ipCIDR: string, net: IPNet) returns (v: Verdict)
    ensures v == Match <==> parseCIDR(ipCIDR).Some? && Contains(net, parseCIDR(ipCIDR).value)
    ensures v == BadFormat <==> parseCIDR(ipCIDR).None?
    ensures v != NetworkDiffers
  {
    var ip := parseCIDR(ipCIDR);
    if ip.None? {
      return BadFormat;
    }
    if !Contains(net, ip.value) {
      return NotInSubnet;
    }
    if MaskIP(net, ip.value) != Some(Mask(net.ip, net.ones)) {
      return NetworkDiffers;
    }
    return Match;
  }
}
