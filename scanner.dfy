/**
 * `parse` of both converters (fgviptocsv.py and fgaddressestocsv.py): a
 * line-by-line scanner with an "inside the block" flag, one record being
 * filled in, the committed records and the first-seen list of column names.
 *
 * The two sources differ only in the block keyword and in what a `set` line
 * does besides storing its value, so one scanner is parameterised by the
 * Variant. Each use of an undefined pattern name in the sources is bound here
 * to the compiled pattern it evidently stands for; ParseAsWritten is what the
 * sources do as written.
 *
 * The scanner is specified by Step (one line) and Run (a prefix of the
 * lines); the method Parse is the source's loop, proved to compute Run.
 */
module Scanner {
  import opened Wrappers
  import opened Text
  import opened Patterns
  import opened AddressFields

  /** Which converter: fgviptocsv.py or fgaddressestocsv.py. */
  datatype Variant = Vip | Address

  /** The text of `p_entering_service_block`, after `^\s*`. */
  function BlockKeyword(v: Variant): string {
    match v
    case Vip => "config firewall vip"
    case Address => "config firewall address"
  }

  /** The column an `edit` line fills. */
  const NameKey := "name"

  /** A Python dict from column name to value. */
  type Record = map<string, string>

  /**
   * The scanner's variables: `in_vip_block` / `in_address_block`,
   * `address_elem`, `address_list` and `order_keys`.
   */
  datatype ScanState = ScanState(inBlock: bool, pending: Record, records: seq<Record>, keys: seq<string>)

  const Start := ScanState(false, map[], [], [])

  /**
   * The exceptions `parse` can raise: the IndexError of `divide_subnet` on a
   * subnet value with no space, and the NameError of an undefined pattern name.
   */
  datatype ParseError = SubnetWithoutSpace(value: string) | UndefinedName(name: string)

  /** `parse`'s return value `(address_list, order_keys)`. */
  datatype Parsed = Parsed(records: seq<Record>, keys: seq<string>)

  predicate NoDuplicates(s: seq<string>) {
    forall i, j :: 0 <= i < j < |s| ==> s[i] != s[j]
  }

  /** `if not(k in order_keys): order_keys.append(k)` */
  function Register(keys: seq<string>, k: string): seq<string> {
    if k in keys then keys else keys + [k]
  }

  /**
   * After Register the column is present, no other column is added, the
   * earlier columns keep their places, and no column appears twice.
   */
  lemma RegisterSpec(keys: seq<string>, k: string)
    ensures forall x :: x in Register(keys, k) <==> x in keys || x == k
    ensures |keys| <= |Register(keys, k)| && Register(keys, k)[..|keys|] == keys
    ensures NoDuplicates(keys) ==> NoDuplicates(Register(keys, k))
  {
  }

  /** The columns a `set` line of `key` registers, in order. */
  function SetColumns(v: Variant, keys: seq<string>, key: string): seq<string> {
    var ks := Register(keys, key);
    if v == Address then Register(Register(ks, IpAddrKey), SubnetMaskKey) else ks
  }

  /**
   * What the five patterns say about one stripped line: whether it enters the
   * block, the captured name of an `edit` line, the key and raw value of a
   * `set` line, whether it is `next`, whether it is `end`.
   */
  datatype LineView = LineView(entry: bool, edit: Option<string>, setting: Option<(string, string)>, next: bool, end: bool)

  /** `line.lstrip().rstrip().strip()`, then each compiled pattern's `search` on the result. */
  function View(v: Variant, line: string): LineView {
    var t := Strip(line);
    LineView(MatchesBlockEntry(BlockKeyword(v), t), EditName(t), SetFields(t), IsNext(t), IsEnd(t))
  }

  /** An `edit "<name>"` line, in the block. */
  function ApplyEdit(st: ScanState, edit: Option<string>): ScanState {
    match edit
    case None => st
    case Some(name) => st.(pending := st.pending[NameKey := name], keys := Register(st.keys, NameKey))
  }

  /** A `set <key> <raw>` line, in the block. */
  function StoreSetting(v: Variant, st: ScanState, key: string, raw: string): Result<ScanState, ParseError> {
    var keys := SetColumns(v, st.keys, key);
    var value := RemoveQuotes(Strip(raw));
    if v == Address && key == SubnetKey then
      match DivideSubnet(value)
      case None => Failure(SubnetWithoutSpace(value))
      case Some((ip, mask)) =>
        Success(st.(pending := st.pending[IpAddrKey := ip][SubnetMaskKey := mask][key := value], keys := keys))
    else
      Success(st.(pending := st.pending[key := value], keys := keys))
  }

  function ApplySet(v: Variant, st: ScanState, setting: Option<(string, string)>): Result<ScanState, ParseError> {
    match setting
    case None => Success(st)
    case Some((key, raw)) => StoreSetting(v, st, key, raw)
  }

  /** A `next` line, in the block: the record is committed and a new empty one started. */
  function ApplyNext(st: ScanState, next: bool): ScanState {
    if next then st.(records := st.records + [st.pending], pending := map[]) else st
  }

  /** The three in-block tests, in the source's order, each on the state the previous one left. */
  function InBlockRules(v: Variant, st: ScanState, c: LineView): Result<ScanState, ParseError> {
    match ApplySet(v, ApplyEdit(st, c.edit), c.setting)
    case Failure(e) => Failure(e)
    case Success(st2) => Success(ApplyNext(st2, c.next))
  }

  /**
   * One iteration of the loop on a classified line: set the flag on a
   * block-entry line, apply the in-block rules when the flag is set, clear
   * the flag on `end`.
   */
  function StepOn(v: Variant, st: ScanState, c: LineView): Result<ScanState, ParseError> {
    var inBlock := st.inBlock || c.entry;
    var r := if inBlock then InBlockRules(v, st, c) else Success(st);
    match r
    case Failure(e) => Failure(e)
    case Success(st2) => Success(st2.(inBlock := inBlock && !c.end))
  }

  function Step(v: Variant, st: ScanState, line: string): Result<ScanState, ParseError> {
    StepOn(v, st, View(v, line))
  }

  /** Every line, stripped and classified. */
  function Views(v: Variant, lines: seq<string>): (cs: seq<LineView>)
    ensures |cs| == |lines|
    ensures forall i :: 0 <= i < |lines| ==> cs[i] == View(v, lines[i])
  {
    seq(|lines|, i requires 0 <= i < |lines| => View(v, lines[i]))
  }

  /** The loop over classified lines, from `st`; the first exception ends it. */
  function RunViews(v: Variant, st: ScanState, cs: seq<LineView>): Result<ScanState, ParseError>
    decreases |cs|
  {
    if cs == [] then Success(st)
    else
      match RunViews(v, st, cs[..|cs| - 1])
      case Failure(e) => Failure(e)
      case Success(st2) => StepOn(v, st2, cs[|cs| - 1])
  }

  /** The loop over the lines, from `st`. */
  function Run(v: Variant, st: ScanState, lines: seq<string>): Result<ScanState, ParseError> {
    RunViews(v, st, Views(v, lines))
  }

  /** What `parse` returns, or the exception it raises. */
  function ParseResult(v: Variant, lines: seq<string>): Result<Parsed, ParseError> {
    match Run(v, Start, lines)
    case Failure(e) => Failure(e)
    case Success(st) => Success(Parsed(st.records, st.keys))
  }

  /** The invariants `parse` keeps: no duplicate column, and every key of every record is a column. */
  predicate WellFormed(st: ScanState) {
    && NoDuplicates(st.keys)
    && (forall k :: k in st.pending ==> k in st.keys)
    && (forall i, k :: 0 <= i < |st.records| && k in st.records[i] ==> k in st.keys)
  }

  /** Storing a value under a registered column, and registering more columns, keeps the invariants. */
  lemma StoreKeepsWellFormed(st: ScanState, pending: Record, keys: seq<string>)
    requires WellFormed(st) && NoDuplicates(keys)
    requires forall x :: x in st.keys ==> x in keys
    requires forall k :: k in pending ==> k in st.pending || k in keys
    ensures WellFormed(st.(pending := pending, keys := keys))
  {
  }

  lemma ApplyEditKeepsWellFormed(st: ScanState, edit: Option<string>)
    requires WellFormed(st)
    ensures WellFormed(ApplyEdit(st, edit))
  {
    if edit.Some? {
      RegisterSpec(st.keys, NameKey);
      StoreKeepsWellFormed(st, st.pending[NameKey := edit.value], Register(st.keys, NameKey));
    }
  }

  /**
   * A set line's columns: the earlier ones keep their places, the key is
   * present, and in the address converter so are `ip_addr` and `subnet_mask`;
   * nothing else is added and nothing is duplicated.
   */
  lemma SetColumnsSpec(v: Variant, keys: seq<string>, key: string)
    ensures var r := SetColumns(v, keys, key);
      && keys <= r
      && key in r
      && (v == Address ==> IpAddrKey in r && SubnetMaskKey in r)
      && (forall x :: x in r ==> x in keys || x == key || (v == Address && (x == IpAddrKey || x == SubnetMaskKey)))
      && (NoDuplicates(keys) ==> NoDuplicates(r))
  {
    var ks := Register(keys, key);
    RegisterSpec(keys, key);
    RegisterSpec(ks, IpAddrKey);
    RegisterSpec(Register(ks, IpAddrKey), SubnetMaskKey);
  }

  /** A set line touches only the record being filled in and the columns. */
  lemma StoreSettingFrame(v: Variant, st: ScanState, key: string, raw: string)
    requires StoreSetting(v, st, key, raw).Success?
    ensures var after := StoreSetting(v, st, key, raw).value;
      after.keys == SetColumns(v, st.keys, key) && after.records == st.records && after.inBlock == st.inBlock
  {
  }

  lemma StoreSettingKeepsWellFormed(v: Variant, st: ScanState, key: string, raw: string)
    requires WellFormed(st)
    ensures StoreSetting(v, st, key, raw).Success? ==> WellFormed(StoreSetting(v, st, key, raw).value)
  {
    var keys := SetColumns(v, st.keys, key);
    SetColumnsSpec(v, st.keys, key);
    var r := StoreSetting(v, st, key, raw);
    if r.Success? {
      StoreKeepsWellFormed(st, r.value.pending, keys);
    }
  }

  lemma ApplyNextKeepsWellFormed(st: ScanState, next: bool)
    requires WellFormed(st)
    ensures WellFormed(ApplyNext(st, next))
  {
  }

  lemma StepKeepsWellFormed(v: Variant, st: ScanState, c: LineView)
    requires WellFormed(st)
    ensures StepOn(v, st, c).Success? ==> WellFormed(StepOn(v, st, c).value)
  {
    var st1 := ApplyEdit(st, c.edit);
    ApplyEditKeepsWellFormed(st, c.edit);
    var r := ApplySet(v, st1, c.setting);
    if c.setting.Some? {
      StoreSettingKeepsWellFormed(v, st1, c.setting.value.0, c.setting.value.1);
    }
    if r.Success? {
      ApplyNextKeepsWellFormed(r.value, c.next);
    }
  }

  lemma {:induction false} RunKeepsWellFormed(v: Variant, st: ScanState, cs: seq<LineView>)
    requires WellFormed(st)
    ensures RunViews(v, st, cs).Success? ==> WellFormed(RunViews(v, st, cs).value)
    decreases |cs|
  {
    if cs != [] {
      RunKeepsWellFormed(v, st, cs[..|cs| - 1]);
      var prev := RunViews(v, st, cs[..|cs| - 1]);
      if prev.Success? {
        StepKeepsWellFormed(v, prev.value, cs[|cs| - 1]);
      }
    }
  }

  lemma StartIsWellFormed()
    ensures WellFormed(Start)
  {
  }

  /**
   * The `set` branch of `parse`'s loop body: register the columns, strip the
   * value and remove its quotes, split a `subnet` value (address variant
   * only), store the value. It computes StoreSetting.
   */
  method ScanSetting(v: Variant, st: ScanState, key: string, raw: string) returns (r: Result<ScanState, ParseError>)
    ensures r == StoreSetting(v, st, key, raw)
  {
    var addressElem, orderKeys := st.pending, st.keys;
    orderKeys := Register(orderKeys, key);
    if v == Address {
      orderKeys := Register(orderKeys, IpAddrKey);
      orderKeys := Register(orderKeys, SubnetMaskKey);
    }
    var value := RemoveQuotes(Strip(raw));
    if v == Address && key == SubnetKey {
      var parts := DivideSubnet(value);
      if parts.None? {
        return Failure(SubnetWithoutSpace(value));
      }
      addressElem := addressElem[IpAddrKey := parts.value.0][SubnetMaskKey := parts.value.1];
    }
    addressElem := addressElem[key := value];
    r := Success(st.(pending := addressElem, keys := orderKeys));
  }

  /**
   * The body of `parse`'s loop on one classified line, with the source's
   * variables as parameters: it computes StepOn.
   */
  method ScanLine(v: Variant, c: LineView, inBlock0: bool, addressElem0: Record, addressList0: seq<Record>, orderKeys0: seq<string>)
    returns (r: Result<ScanState, ParseError>)
    ensures r == StepOn(v, ScanState(inBlock0, addressElem0, addressList0, orderKeys0), c)
  {
    var inBlock, addressElem, addressList, orderKeys := inBlock0, addressElem0, addressList0, orderKeys0;
    if c.entry {
      inBlock := true;
    }
    if inBlock {
      ghost var entered := ScanState(inBlock0, addressElem, addressList, orderKeys);
      if c.edit.Some? {
        addressElem := addressElem[NameKey := c.edit.value];
        orderKeys := Register(orderKeys, NameKey);
      }
      ghost var edited := ScanState(inBlock0, addressElem, addressList, orderKeys);
      assert edited == ApplyEdit(entered, c.edit);
      if c.setting.Some? {
        var stored := ScanSetting(v, ScanState(inBlock0, addressElem, addressList, orderKeys), c.setting.value.0, c.setting.value.1);
        if stored.Failure? {
          return Failure(stored.error);
        }
        addressElem, orderKeys := stored.value.pending, stored.value.keys;
      }
      assert Success(ScanState(inBlock0, addressElem, addressList, orderKeys)) == ApplySet(v, edited, c.setting);
      if c.next {
        addressList := addressList + [addressElem];
        addressElem := map[];
      }
    }
    if c.end {
      inBlock := false;
    }
    r := Success(ScanState(inBlock, addressElem, addressList, orderKeys));
  }

  /**
   * The loop of `parse`: each line is stripped and classified, then scanned.
   * An exception ends the method with a Failure. The result is ParseResult,
   * and the column list it returns is duplicate-free and covers every key of
   * every record.
   */
  method Parse(v: Variant, lines: seq<string>) returns (r: Result<Parsed, ParseError>)
    ensures r == ParseResult(v, lines)
    ensures r.Success? ==> NoDuplicates(r.value.keys)
    ensures r.Success? ==> forall i, k :: 0 <= i < |r.value.records| && k in r.value.records[i] ==> k in r.value.keys
  {
    var inBlock := false;
    var addressList: seq<Record> := [];
    var addressElem: Record := map[];
    var orderKeys: seq<string> := [];
    var i := 0;
    while i < |lines|
      invariant 0 <= i <= |lines|
      invariant Run(v, Start, lines[..i]) == Success(ScanState(inBlock, addressElem, addressList, orderKeys))
    {
      var c := View(v, lines[i]);
      var next := ScanLine(v, c, inBlock, addressElem, addressList, orderKeys);
      RunExtends(v, lines, i, ScanState(inBlock, addressElem, addressList, orderKeys), c, next);
      if next.Failure? {
        r := Failure(next.error);
        FailureEndsParse(v, lines, i + 1);
        return;
      }
      inBlock, addressElem, addressList, orderKeys := next.value.inBlock, next.value.pending, next.value.records, next.value.keys;
      i := i + 1;
    }
    assert lines[..i] == lines;
    r := Success(Parsed(addressList, orderKeys));
    StartIsWellFormed();
    RunKeepsWellFormed(v, Start, Views(v, lines));
  }

  /** Run over one more line is one more Step. */
  lemma RunSnoc(v: Variant, st0: ScanState, lines: seq<string>, i: nat)
    requires i < |lines|
    ensures Run(v, st0, lines[..i + 1]) ==
      match Run(v, st0, lines[..i])
      case Failure(e) => Failure(e)
      case Success(st) => Step(v, st, lines[i])
  {
    var cs := Views(v, lines[..i + 1]);
    assert cs[..i] == Views(v, lines[..i]);
  }

  /** The loop invariant of Parse carried over one line. */
  lemma RunExtends(v: Variant, lines: seq<string>, i: nat, st: ScanState, c: LineView, next: Result<ScanState, ParseError>)
    requires i < |lines| && c == View(v, lines[i])
    requires Run(v, Start, lines[..i]) == Success(st)
    requires next == StepOn(v, st, c)
    ensures Run(v, Start, lines[..i + 1]) == next
  {
    RunSnoc(v, Start, lines, i);
  }

  /** Once a prefix of the lines raises, so does the whole input. */
  lemma FailureEndsParse(v: Variant, lines: seq<string>, j: nat)
    requires j <= |lines| && Run(v, Start, lines[..j]).Failure?
    ensures ParseResult(v, lines) == Failure(Run(v, Start, lines[..j]).error)
  {
    FailureIsFinal(v, lines[..j], lines[j..]);
    assert lines[..j] + lines[j..] == lines;
  }

  /** RunViews over a concatenation is RunViews over the second part from where the first part left off. */
  lemma {:induction false} RunViewsConcat(v: Variant, st: ScanState, a: seq<LineView>, b: seq<LineView>)
    ensures RunViews(v, st, a + b) ==
      match RunViews(v, st, a)
      case Failure(e) => Failure(e)
      case Success(mid) => RunViews(v, mid, b)
    decreases |b|
  {
    if b == [] {
      assert a + b == a;
    } else {
      var ab := a + b;
      assert ab[..|ab| - 1] == a + b[..|b| - 1];
      assert ab[|ab| - 1] == b[|b| - 1];
      RunViewsConcat(v, st, a, b[..|b| - 1]);
    }
  }

  /** Run over a concatenation of inputs is Run over the second from where the first left off. */
  lemma RunConcat(v: Variant, st: ScanState, a: seq<string>, b: seq<string>)
    ensures Run(v, st, a + b) ==
      match Run(v, st, a)
      case Failure(e) => Failure(e)
      case Success(mid) => Run(v, mid, b)
  {
    assert Views(v, a + b) == Views(v, a) + Views(v, b);
    RunViewsConcat(v, st, Views(v, a), Views(v, b));
  }

  /** An exception ends `parse`: nothing after the failing line can undo it. */
  lemma FailureIsFinal(v: Variant, a: seq<string>, b: seq<string>)
    requires Run(v, Start, a).Failure?
    ensures ParseResult(v, a + b) == Failure(Run(v, Start, a).error)
  {
    RunConcat(v, Start, a, b);
  }

  /**
   * `parse` as written: its first statement in the loop evaluates
   * `p_entering_vip_block` (fgviptocsv.py) or `p_entering_address_block`
   * (fgaddressestocsv.py), names that are never bound, so the first line of
   * any non-empty input raises NameError; an empty input returns two empty lists.
   */
  function ParseAsWritten(v: Variant, lines: seq<string>): (r: Result<Parsed, ParseError>)
    ensures r.Success? <==> lines == []
    ensures r.Success? ==> r.value == Parsed([], [])
  {
    if lines == [] then Success(Parsed([], []))
    else Failure(UndefinedName(if v == Vip then "p_entering_vip_block" else "p_entering_address_block"))
  }
}
