/**
 * The address converter's extra columns and `divide_subnet`
 * (fgaddressestocsv.py), which splits a FortiGate `subnet` value such as
 * "10.0.0.1 255.255.255.0" into an address and a mask.
 */
module AddressFields {
  import opened Text
  import opened Wrappers

  /** The one key whose value is split. The comparison in the source is case-sensitive. */
  const SubnetKey := "subnet"
  const IpAddrKey := "ip_addr"
  const SubnetMaskKey := "subnet_mask"

  /**
   * `divide_subnet`: pieces 0 and 1 of `field.split(' ')`. None stands for the
   * IndexError the source raises when the field holds no space at all.
   */
  function DivideSubnet(field: string): Option<(string, string)> {
    var pieces := SplitOn(field, ' ');
    if |pieces| < 2 then None else Some((pieces[0], pieces[1]))
  }

  /**
   * DivideSubnet succeeds exactly when the field holds a space. The address is
   * then the text before the first space, and the mask the text between the
   * first space and the second one (or the end of the field).
   */
  lemma DivideSubnetSpec(field: string)
    ensures DivideSubnet(field).Some? <==> ' ' in field
    ensures DivideSubnet(field).Some? ==>
      var (ip, mask) := DivideSubnet(field).value;
      && ' ' !in ip && ' ' !in mask
      && |ip| + 1 + |mask| <= |field|
      && field[..|ip|] == ip && field[|ip|] == ' '
      && field[|ip| + 1..|ip| + 1 + |mask|] == mask
      && (|ip| + 1 + |mask| < |field| ==> field[|ip| + 1 + |mask|] == ' ')
  {
    var pieces := SplitOn(field, ' ');
    SplitOnSpec(field, ' ');
    SplitOnHead(field, ' ');
    if |pieces| >= 2 {
      var rest := field[|pieces[0]| + 1..];
      SplitOnHead(rest, ' ');
      assert rest[..|pieces[1]|] == field[|pieces[0]| + 1..|pieces[0]| + 1 + |pieces[1]|];
    }
  }

  /** Two space-free pieces joined by one space are split back apart. */
  lemma DivideSubnetOf(ip: string, mask: string)
    requires ' ' !in ip && ' ' !in mask
    ensures DivideSubnet(ip + " " + mask) == Some((ip, mask))
  {
    SplitOnAfterPiece(ip, ' ', mask);
    SplitOnPiece(mask, ' ');
  }

  /** Only the first two pieces count: whatever follows a second space is dropped. */
  lemma DivideSubnetOfLonger(ip: string, mask: string, rest: string)
    requires ' ' !in ip && ' ' !in mask
    ensures DivideSubnet(ip + " " + mask + " " + rest) == Some((ip, mask))
  {
    assert ip + " " + mask + " " + rest == ip + [' '] + (mask + [' '] + rest);
    SplitOnAfterPiece(ip, ' ', mask + [' '] + rest);
    SplitOnAfterPiece(mask, ' ', rest);
  }

  /** The example of a FortiGate subnet value: an address and a mask separated by one space. */
  lemma DivideSubnetExample()
    ensures DivideSubnet("10.0.0.1" + " " + "255.255.255.0") == Some(("10.0.0.1", "255.255.255.0"))
  {
    DivideSubnetOf("10.0.0.1", "255.255.255.0");
  }

  /** A split on every space, not on the first: a third piece is dropped. */
  lemma DivideSubnetDropsThirdPiece()
    ensures DivideSubnet("a b c") == Some(("a", "b"))
  {
    DivideSubnetOfLonger("a", "b", "c");
    assert "a" + " " + "b" + " " + "c" == "a b c";
  }

  /** Two consecutive spaces give an empty mask, as `str.split(' ')` does. */
  lemma DivideSubnetDoubleSpace(ip: string, rest: string)
    requires ' ' !in ip
    ensures DivideSubnet(ip + "  " + rest) == Some((ip, ""))
  {
    assert ip + "  " + rest == ip + [' '] + ([' '] + rest);
    SplitOnAfterPiece(ip, ' ', [' '] + rest);
    assert [' '] + rest == [] + [' '] + rest;
    SplitOnAfterPiece([], ' ', rest);
  }

  /** A CIDR-style value has no space, so `divide_subnet` raises. */
  lemma DivideSubnetWithoutSpaceFails()
    ensures DivideSubnet("10.0.0.0/24") == None
  {
    var field := "10.0.0.0/24";
    DivideSubnetSpec(field);
    assert forall i :: 0 <= i < |field| ==> field[i] != ' ';
  }
}
