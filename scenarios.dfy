/**
 * A whole run of the address converter on one firewall address object, from
 * the configuration lines to the CSV rows, and the same input on `parse` as
 * written, which raises before reading its first line.
 */
module Scenarios {
  import opened Wrappers
  import opened Text
  import opened Patterns
  import opened AddressFields
  import opened Scanner
  import opened ScannerProperties
  import opened CsvWriter

  // ---------------------------------------------------------------- building lines

  /** `edit "<name>"` */
  function EditLineOf(name: string): string {
    "edit" + " " + "\"" + name + "\""
  }

  /** `set <key> <value>` */
  function SetLineOf(key: string, value: string): string {
    "set" + (" " + (key + (" " + value)))
  }

  /** A value the converters keep as it is: non-empty, no whitespace, no quote. */
  predicate PlainField(s: string) {
    |s| >= 1 && NoSpace(s) && '"' !in s
  }

  lemma EntryLineView(v: Variant)
    ensures View(v, BlockKeyword(v)) == LineView(true, None, None, false, false)
  {
    var t := BlockKeyword(v);
    BlockKeywordShape(v);
    assert NoOuterSpace(t);
    BlockEntryComplete(t, [], t);
    assert [] + t == t;
    EntryView(v, t);
  }

  lemma EditLineView(v: Variant, name: string)
    requires '\n' !in name
    ensures View(v, EditLineOf(name)) == LineView(false, Some(name), None, false, false)
  {
    var t := EditLineOf(name);
    assert t[0] == 'e' && t[|t| - 1] == '"';
    assert IsEditShape(t, [], "edit", " ", name);
    EditNameComplete(t, [], "edit", " ", name);
    EditView(v, t);
  }

  lemma SetLineView(v: Variant, key: string, value: string)
    requires |key| >= 1 && NoSpace(key)
    requires value != [] && NoOuterSpace(value) && '\n' !in value
    ensures View(v, SetLineOf(key, value)) == LineView(false, None, Some((key, value)), false, false)
  {
    var t := SetLineOf(key, value);
    assert t[0] == 's' && t[|t| - 1] == value[|value| - 1];
    assert IsSetShape(t, [], "set", " ", key, " ", value);
    SetFieldsComplete(t, [], "set", " ", key, " ", value);
    SetView(v, t);
  }

  lemma NextLineView(v: Variant)
    ensures View(v, "next") == LineView(false, None, None, true, false)
  {
    NextView(v, "next");
  }

  lemma EndLineView(v: Variant)
    ensures View(v, "end") == LineView(false, None, None, false, true)
  {
    EndView(v, "end");
  }

  // ---------------------------------------------------------------- one address object

  /** A firewall address object with a name and a subnet, as the configuration lists it. */
  function AddressLines(name: string, ip: string, mask: string): seq<string> {
    [BlockKeyword(Address), EditLineOf(name), SetLineOf(SubnetKey, ip + " " + mask), "next", "end"]
  }

  function AddressColumns(): seq<string> {
    [NameKey, SubnetKey, IpAddrKey, SubnetMaskKey]
  }

  function AddressRecord(name: string, ip: string, mask: string): Record {
    map[NameKey := name, IpAddrKey := ip, SubnetMaskKey := mask, SubnetKey := ip + " " + mask]
  }

  /** How the scanner classifies the object's five lines. */
  function AddressViews(name: string, ip: string, mask: string): seq<LineView> {
    [ LineView(true, None, None, false, false),
      LineView(false, Some(name), None, false, false),
      LineView(false, None, Some((SubnetKey, ip + " " + mask)), false, false),
      LineView(false, None, None, true, false),
      LineView(false, None, None, false, true) ]
  }

  /** The subnet value is kept as it is and splits into the address and the mask. */
  lemma PlainSubnetValue(ip: string, mask: string)
    requires PlainField(ip) && PlainField(mask)
    ensures RemoveQuotes(Strip(ip + " " + mask)) == ip + " " + mask
    ensures DivideSubnet(ip + " " + mask) == Some((ip, mask))
  {
    var value := ip + " " + mask;
    assert value[0] == ip[0] && value[|value| - 1] == mask[|mask| - 1];
    StripOf([], value, []);
    assert [] + value + [] == value;
    assert '"' !in value;
    DivideSubnetOf(ip, mask);
  }

  lemma AddressColumnsRegistered()
    ensures SetColumns(Address, [NameKey], SubnetKey) == AddressColumns()
  {
    assert SubnetKey != NameKey && IpAddrKey != NameKey && IpAddrKey != SubnetKey;
    assert SubnetMaskKey != NameKey && SubnetMaskKey != SubnetKey && SubnetMaskKey != IpAddrKey;
  }

  /**
   * After the edit line, a subnet value that is clean already and splits into
   * `ip` and `mask` fills in the record and registers the four columns.
   */
  lemma StoreSubnet(name: string, value: string, ip: string, mask: string)
    requires RemoveQuotes(Strip(value)) == value && DivideSubnet(value) == Some((ip, mask))
    ensures StoreSetting(Address, ScanState(true, map[NameKey := name], [], [NameKey]), SubnetKey, value)
      == Success(ScanState(true, map[NameKey := name, IpAddrKey := ip, SubnetMaskKey := mask, SubnetKey := value], [], AddressColumns()))
  {
    AddressColumnsRegistered();
  }

  /** The subnet line fills in the whole record and registers the four columns. */
  lemma AddressSubnet(name: string, ip: string, mask: string)
    requires PlainField(ip) && PlainField(mask)
    ensures StoreSetting(Address, ScanState(true, map[NameKey := name], [], [NameKey]), SubnetKey, ip + " " + mask)
      == Success(ScanState(true, AddressRecord(name, ip, mask), [], AddressColumns()))
  {
    PlainSubnetValue(ip, mask);
    StoreSubnet(name, ip + " " + mask, ip, mask);
  }

  /** The state after the first k lines of the object. */
  function AddressState(k: nat, name: string, ip: string, mask: string): ScanState {
    var rec := AddressRecord(name, ip, mask);
    if k == 0 then Start
    else if k == 1 then ScanState(true, map[], [], [])
    else if k == 2 then ScanState(true, map[NameKey := name], [], [NameKey])
    else if k == 3 then ScanState(true, rec, [], AddressColumns())
    else if k == 4 then ScanState(true, map[], [rec], AddressColumns())
    else ScanState(false, map[], [rec], AddressColumns())
  }

  /** Each classified line takes the scanner from one state of the object to the next. */
  lemma AddressStepOn(k: nat, name: string, ip: string, mask: string)
    requires k < 5 && PlainField(ip) && PlainField(mask)
    ensures StepOn(Address, AddressState(k, name, ip, mask), AddressViews(name, ip, mask)[k])
      == Success(AddressState(k + 1, name, ip, mask))
  {
    var cs := AddressViews(name, ip, mask);
    var st := AddressState(k, name, ip, mask);
    if k == 0 {
      EntryLineOn(Address, st, cs[0]);
    } else if k == 1 {
      EditLineOn(Address, st, cs[1]);
      assert Register([], NameKey) == [NameKey];
    } else if k == 2 {
      SetLineOn(Address, st, cs[2]);
      AddressSubnet(name, ip, mask);
    } else if k == 3 {
      NextLineOn(Address, st, cs[3]);
      assert [] + [AddressRecord(name, ip, mask)] == [AddressRecord(name, ip, mask)];
    } else {
      EndLineOn(Address, st, cs[4]);
    }
  }

  lemma SubnetLineView(ip: string, mask: string)
    requires PlainField(ip) && PlainField(mask)
    ensures View(Address, SetLineOf(SubnetKey, ip + " " + mask)) == LineView(false, None, Some((SubnetKey, ip + " " + mask)), false, false)
  {
    var value := ip + " " + mask;
    assert value[0] == ip[0] && value[|value| - 1] == mask[|mask| - 1];
    assert '\n' !in value;
    SetLineView(Address, SubnetKey, value);
  }

  /** Each line of the object is classified as AddressViews says. */
  lemma AddressLineView(k: nat, name: string, ip: string, mask: string)
    requires k < 5 && '\n' !in name && PlainField(ip) && PlainField(mask)
    ensures View(Address, AddressLines(name, ip, mask)[k]) == AddressViews(name, ip, mask)[k]
  {
    var lines := AddressLines(name, ip, mask);
    var cs := AddressViews(name, ip, mask);
    var line := lines[k];
    if k == 0 {
      assert line == BlockKeyword(Address);
      EntryLineView(Address);
    } else if k == 1 {
      assert line == EditLineOf(name);
      EditLineView(Address, name);
    } else if k == 2 {
      assert line == SetLineOf(SubnetKey, ip + " " + mask);
      SubnetLineView(ip, mask);
    } else if k == 3 {
      assert line == "next";
      NextLineView(Address);
    } else {
      assert line == "end";
      EndLineView(Address);
    }
  }

  /** The scanner after the first k lines of the object. */
  lemma {:induction false} AddressPrefix(k: nat, name: string, ip: string, mask: string)
    requires k <= 5 && '\n' !in name && PlainField(ip) && PlainField(mask)
    ensures Run(Address, Start, AddressLines(name, ip, mask)[..k]) == Success(AddressState(k, name, ip, mask))
  {
    var lines := AddressLines(name, ip, mask);
    if k == 0 {
      assert lines[..0] == [];
    } else {
      AddressPrefix(k - 1, name, ip, mask);
      AddressLineView(k - 1, name, ip, mask);
      AddressStepOn(k - 1, name, ip, mask);
      RunExtends(Address, lines, k - 1, AddressState(k - 1, name, ip, mask),
        AddressViews(name, ip, mask)[k - 1], Success(AddressState(k, name, ip, mask)));
    }
  }

  /**
   * The address converter on one address object: one record holding the
   * name, the whole subnet value and its two halves, and the four columns in
   * first-registration order.
   */
  lemma AddressObject(name: string, ip: string, mask: string)
    requires '\n' !in name && PlainField(ip) && PlainField(mask)
    ensures ParseResult(Address, AddressLines(name, ip, mask))
      == Success(Parsed([AddressRecord(name, ip, mask)], AddressColumns()))
  {
    AddressPrefix(5, name, ip, mask);
    assert AddressLines(name, ip, mask)[..5] == AddressLines(name, ip, mask);
  }

  /** The CSV of that object, with the header and without empty rows: the header, then one data row. */
  lemma AddressObjectCsv(name: string, ip: string, mask: string)
    ensures Generated([AddressRecord(name, ip, mask)], AddressColumns(), false, false)
      == Written([AddressColumns(), [name, ip + " " + mask, ip, mask]])
  {
    var rec := AddressRecord(name, ip, mask);
    var cols := AddressColumns();
    var results := [rec];
    assert results[..0] == [];
    assert Body(results, cols, false) == [DataRow(rec, cols)];
    AddressColumnsRegistered();
    var row := DataRow(rec, cols);
    assert row[0] == name && row[1] == ip + " " + mask && row[2] == ip && row[3] == mask;
    assert row == [name, ip + " " + mask, ip, mask];
  }

  /**
   * The worked example: object SRV1 with subnet `10.0.0.1 255.255.255.0`
   * gives the record and the columns above, and the rows
   * `name;subnet;ip_addr;subnet_mask` and `SRV1;10.0.0.1 255.255.255.0;10.0.0.1;255.255.255.0`.
   */
  lemma Srv1Example()
    ensures ParseResult(Address, AddressLines("SRV1", "10.0.0.1", "255.255.255.0")) ==
      Success(Parsed(
        [map["name" := "SRV1", "ip_addr" := "10.0.0.1", "subnet_mask" := "255.255.255.0",
             "subnet" := "10.0.0.1" + " " + "255.255.255.0"]],
        ["name", "subnet", "ip_addr", "subnet_mask"]))
    ensures Generated(ParseResult(Address, AddressLines("SRV1", "10.0.0.1", "255.255.255.0")).value.records,
                      ParseResult(Address, AddressLines("SRV1", "10.0.0.1", "255.255.255.0")).value.keys, false, false) ==
      Written([["name", "subnet", "ip_addr", "subnet_mask"],
               ["SRV1", "10.0.0.1" + " " + "255.255.255.0", "10.0.0.1", "255.255.255.0"]])
  {
    assert PlainField("10.0.0.1") && PlainField("255.255.255.0");
    AddressObject("SRV1", "10.0.0.1", "255.255.255.0");
    AddressObjectCsv("SRV1", "10.0.0.1", "255.255.255.0");
  }

  // ---------------------------------------------------------------- parse as written

  /**
   * `parse` as written raises NameError on every non-empty input, where the
   * intended scanner returns records: the VIP converter always, and the
   * address converter on the object above.
   */
  lemma UndefinedPatternNames(lines: seq<string>)
    requires lines != []
    ensures ParseAsWritten(Vip, lines) == Failure(UndefinedName("p_entering_vip_block"))
    ensures ParseResult(Vip, lines).Success?
    ensures ParseAsWritten(Address, AddressLines("SRV1", "10.0.0.1", "255.255.255.0"))
      == Failure(UndefinedName("p_entering_address_block"))
    ensures ParseResult(Address, AddressLines("SRV1", "10.0.0.1", "255.255.255.0")).Success?
  {
    VipNeverFails(Start, Views(Vip, lines));
    Srv1Example();
  }
}
