/**
 * What `parse` promises, stated about the scanner of module Scanner: the effect
 * of each kind of line, which inputs can raise, what lines are ignored, how
 * the column list grows, and how many records come out.
 */
module ScannerProperties {
  import opened Wrappers
  import opened Text
  import opened Patterns
  import opened AddressFields
  import opened Scanner

  // ---------------------------------------------------------------- one line

  /** The block-entry keyword starts with `c` and is longer than any other keyword. */
  lemma BlockKeywordShape(v: Variant)
    ensures |BlockKeyword(v)| > 4 && BlockKeyword(v)[0] == 'c'
  {
  }

  /** A classified line is of at most one kind. */
  predicate SingleKind(c: LineView) {
    && (c.entry ==> c.edit.None? && c.setting.None? && !c.next && !c.end)
    && (c.edit.Some? ==> c.setting.None? && !c.next && !c.end)
    && (c.setting.Some? ==> !c.next && !c.end)
    && (c.next ==> !c.end)
  }

  /** The five patterns never match the same stripped line together. */
  lemma ViewKinds(v: Variant, line: string)
    ensures SingleKind(View(v, line))
  {
    var t := Strip(line);
    if MatchesBlockEntry(BlockKeyword(v), t) {
      BlockKeywordShape(v);
      EntryExcludesOthers(BlockKeyword(v), t);
    }
    if EditName(t).Some? {
      EditExcludesSet(t);
    }
    if IsNext(t) {
      NextExcludesOthers(t);
    }
    if IsEnd(t) {
      EndExcludesOthers(t);
    }
  }

  /** A line with no surrounding whitespace is classified as it stands. */
  lemma ViewOfUnpadded(v: Variant, t: string)
    requires NoOuterSpace(t)
    ensures View(v, t) == LineView(MatchesBlockEntry(BlockKeyword(v), t), EditName(t), SetFields(t), IsNext(t), IsEnd(t))
  {
    StripOf([], t, []);
    assert [] + t + [] == t;
  }

  lemma EntryView(v: Variant, t: string)
    requires NoOuterSpace(t) && MatchesBlockEntry(BlockKeyword(v), t)
    ensures View(v, t) == LineView(true, None, None, false, false)
  {
    ViewOfUnpadded(v, t);
    BlockKeywordShape(v);
    EntryExcludesOthers(BlockKeyword(v), t);
  }

  lemma EditView(v: Variant, t: string)
    requires NoOuterSpace(t) && EditName(t).Some?
    ensures View(v, t) == LineView(false, EditName(t), None, false, false)
  {
    ViewOfUnpadded(v, t);
    ViewKinds(v, t);
  }

  lemma SetView(v: Variant, t: string)
    requires NoOuterSpace(t) && SetFields(t).Some?
    ensures View(v, t) == LineView(false, None, SetFields(t), false, false)
  {
    ViewOfUnpadded(v, t);
    ViewKinds(v, t);
  }

  lemma NextView(v: Variant, t: string)
    requires NoOuterSpace(t) && IsNext(t)
    ensures View(v, t) == LineView(false, None, None, true, false)
  {
    ViewOfUnpadded(v, t);
    ViewKinds(v, t);
  }

  lemma EndView(v: Variant, t: string)
    requires NoOuterSpace(t) && IsEnd(t)
    ensures View(v, t) == LineView(false, None, None, false, true)
  {
    ViewOfUnpadded(v, t);
    ViewKinds(v, t);
  }

  /** Outside the block, a line that does not enter it changes nothing. */
  lemma OutsideLineIgnored(v: Variant, st: ScanState, line: string)
    requires !st.inBlock && !View(v, line).entry
    ensures Step(v, st, line) == Success(st)
  {
  }

  lemma EntryLineOn(v: Variant, st: ScanState, c: LineView)
    requires SingleKind(c) && c.entry
    ensures StepOn(v, st, c) == Success(st.(inBlock := true))
  {
  }

  /** A block-entry line only sets the flag. */
  lemma EntryLine(v: Variant, st: ScanState, line: string)
    requires View(v, line).entry
    ensures Step(v, st, line) == Success(st.(inBlock := true))
  {
    ViewKinds(v, line);
    EntryLineOn(v, st, View(v, line));
  }

  lemma EndLineOn(v: Variant, st: ScanState, c: LineView)
    requires SingleKind(c) && c.end
    ensures StepOn(v, st, c) == Success(st.(inBlock := false))
  {
  }

  /** An `end` line, inside the block or not, only clears the flag. */
  lemma EndLine(v: Variant, st: ScanState, line: string)
    requires View(v, line).end
    ensures Step(v, st, line) == Success(st.(inBlock := false))
  {
    ViewKinds(v, line);
    EndLineOn(v, st, View(v, line));
  }

  lemma EditLineOn(v: Variant, st: ScanState, c: LineView)
    requires SingleKind(c) && st.inBlock && c.edit.Some?
    ensures StepOn(v, st, c) == Success(st.(pending := st.pending[NameKey := c.edit.value], keys := Register(st.keys, NameKey)))
  {
  }

  /** In the block, an edit line stores its captured name under `name` and registers that column. */
  lemma EditLine(v: Variant, st: ScanState, line: string)
    requires st.inBlock && View(v, line).edit.Some?
    ensures Step(v, st, line) ==
      Success(st.(pending := st.pending[NameKey := View(v, line).edit.value], keys := Register(st.keys, NameKey)))
  {
    ViewKinds(v, line);
    EditLineOn(v, st, View(v, line));
  }

  lemma SetLineOn(v: Variant, st: ScanState, c: LineView)
    requires SingleKind(c) && st.inBlock && c.setting.Some?
    ensures StepOn(v, st, c) == StoreSetting(v, st, c.setting.value.0, c.setting.value.1)
  {
    var r := StoreSetting(v, st, c.setting.value.0, c.setting.value.1);
    if r.Success? {
      StoreSettingFrame(v, st, c.setting.value.0, c.setting.value.1);
    }
  }

  /** In the block, a set line does what StoreSetting says, and nothing more. */
  lemma SetLine(v: Variant, st: ScanState, line: string)
    requires st.inBlock && View(v, line).setting.Some?
    ensures Step(v, st, line) == StoreSetting(v, st, View(v, line).setting.value.0, View(v, line).setting.value.1)
  {
    ViewKinds(v, line);
    SetLineOn(v, st, View(v, line));
  }

  lemma NextLineOn(v: Variant, st: ScanState, c: LineView)
    requires SingleKind(c) && st.inBlock && c.next
    ensures StepOn(v, st, c) == Success(st.(records := st.records + [st.pending], pending := map[]))
  {
  }

  /**
   * In the block, a `next` line appends the record being filled in, whatever
   * it holds (with or without a name), and starts an empty one.
   */
  lemma NextLine(v: Variant, st: ScanState, line: string)
    requires st.inBlock && View(v, line).next
    ensures Step(v, st, line) == Success(st.(records := st.records + [st.pending], pending := map[]))
  {
    ViewKinds(v, line);
    NextLineOn(v, st, View(v, line));
  }

  lemma UnquotedEditStripped()
    ensures Strip("edit 5") == "edit 5" && LeadingSpaces("edit 5") == 0
  {
    var line := "edit 5";
    StripOf([], line, []);
    assert [] + line + [] == line;
    LeadingSpacesIs(line, 0);
  }

  lemma UnquotedEditNoCapture()
    ensures EditName("edit 5").None? && SetFields("edit 5").None?
  {
    var line := "edit 5";
    UnquotedEditStripped();
    if EditName(line).Some? {
      EditLineLength(line);
    }
    if SetFields(line).Some? {
      AfterKeywordFirst("set", line);
    }
  }

  lemma UnquotedEditView(v: Variant)
    ensures View(v, "edit 5") == LineView(false, None, None, false, false)
  {
    UnquotedEditStripped();
    UnquotedEditNoCapture();
    BlockKeywordShape(v);
    assert |BlockKeyword(v)| != |"edit 5"|;
  }

  /** `edit 5`, with no quotes, is not an edit line: in the block it changes nothing. */
  lemma UnquotedEditIgnored(v: Variant, st: ScanState)
    requires st.inBlock
    ensures Step(v, st, "edit 5") == Success(st)
  {
    UnquotedEditView(v);
  }

  // ---------------------------------------------------------------- set lines

  /**
   * Every column a set line registers is present afterwards; in the address
   * converter that always includes `ip_addr` and `subnet_mask`, whatever the key.
   */
  lemma SetRegistersColumns(v: Variant, st: ScanState, key: string, raw: string)
    requires StoreSetting(v, st, key, raw).Success?
    ensures var after := StoreSetting(v, st, key, raw).value;
      && st.keys <= after.keys
      && key in after.keys
      && (v == Address ==> IpAddrKey in after.keys && SubnetMaskKey in after.keys)
      && (forall k :: k in after.keys ==> k in st.keys || k == key || (v == Address && (k == IpAddrKey || k == SubnetMaskKey)))
  {
    StoreSettingFrame(v, st, key, raw);
    SetColumnsSpec(v, st.keys, key);
  }

  /**
   * The value stored by a set line is the raw group with surrounding
   * whitespace removed and every double quote deleted. Except for the
   * address converter's `subnet`, no other entry of the record changes.
   */
  lemma SetStoresValue(v: Variant, st: ScanState, key: string, raw: string)
    requires !(v == Address && key == SubnetKey)
    ensures StoreSetting(v, st, key, raw).Success?
    ensures var after := StoreSetting(v, st, key, raw).value;
      && after.pending == st.pending[key := RemoveQuotes(Strip(raw))]
      && '"' !in after.pending[key]
      && after.records == st.records && after.inBlock == st.inBlock
  {
  }

  /**
   * The address converter's `subnet` key: the record gets the address and the
   * mask of `divide_subnet` and also the whole value under `subnet`, keeps
   * every entry it had, and changes no other; a value with no space raises.
   */
  lemma SubnetSplit(st: ScanState, raw: string)
    ensures var value := RemoveQuotes(Strip(raw));
      match DivideSubnet(value)
      case None => StoreSetting(Address, st, SubnetKey, raw) == Failure(SubnetWithoutSpace(value))
      case Some((ip, mask)) =>
        && StoreSetting(Address, st, SubnetKey, raw).Success?
        && var after := StoreSetting(Address, st, SubnetKey, raw).value;
        && after.pending == st.pending[IpAddrKey := ip][SubnetMaskKey := mask][SubnetKey := value]
        && after.pending[IpAddrKey] == ip && after.pending[SubnetMaskKey] == mask && after.pending[SubnetKey] == value
        && (forall k :: k in st.pending ==> k in after.pending)
        && (forall k :: k in after.pending && k != IpAddrKey && k != SubnetMaskKey && k != SubnetKey ==>
              k in st.pending && after.pending[k] == st.pending[k])
        && after.records == st.records && after.inBlock == st.inBlock
  {
  }

  /**
   * A set line leaves its own value under its key, whatever the record held
   * before: a later set of the same key in the same record overwrites the
   * earlier value.
   */
  lemma SetOverwrites(v: Variant, st: ScanState, key: string, raw: string)
    requires StoreSetting(v, st, key, raw).Success?
    ensures StoreSetting(v, st, key, raw).value.pending[key] == RemoveQuotes(Strip(raw))
  {
    if v == Address && key == SubnetKey {
      SubnetSplit(st, raw);
    } else {
      SetStoresValue(v, st, key, raw);
    }
  }

  // ---------------------------------------------------------------- whole inputs

  /** The VIP converter never raises. */
  lemma {:induction false} VipNeverFails(st: ScanState, cs: seq<LineView>)
    ensures RunViews(Vip, st, cs).Success?
    decreases |cs|
  {
    if cs != [] {
      VipNeverFails(st, cs[..|cs| - 1]);
    }
  }

  /** The address converter raises only on a `subnet` value that holds no space. */
  lemma {:induction false} AddressFailureCause(st: ScanState, cs: seq<LineView>)
    ensures RunViews(Address, st, cs).Failure? ==>
      RunViews(Address, st, cs).error.SubnetWithoutSpace? && ' ' !in RunViews(Address, st, cs).error.value
    decreases |cs|
  {
    if cs != [] {
      AddressFailureCause(st, cs[..|cs| - 1]);
      var prev := RunViews(Address, st, cs[..|cs| - 1]);
      if prev.Success? {
        var c := cs[|cs| - 1];
        if c.setting.Some? {
          var value := RemoveQuotes(Strip(c.setting.value.1));
          DivideSubnetSpec(value);
        }
      }
    }
  }

  /** From a state outside the block, lines that do not enter the block change nothing. */
  lemma {:induction false} NoEntryNoChange(v: Variant, st: ScanState, cs: seq<LineView>)
    requires !st.inBlock
    requires forall i :: 0 <= i < |cs| ==> !cs[i].entry
    ensures RunViews(v, st, cs) == Success(st)
    decreases |cs|
  {
    if cs != [] {
      NoEntryNoChange(v, st, cs[..|cs| - 1]);
    }
  }

  /** Lines before the first block-entry line change neither the records nor the keys. */
  lemma PreambleIgnored(v: Variant, pre: seq<string>, rest: seq<string>)
    requires forall i :: 0 <= i < |pre| ==> !View(v, pre[i]).entry
    ensures ParseResult(v, pre + rest) == ParseResult(v, rest)
  {
    NoEntryNoChange(v, Start, Views(v, pre));
    RunConcat(v, Start, pre, rest);
  }

  /** Whatever came before, the scanner is outside the block after an `end` line. */
  lemma EndClearsFlag(v: Variant, before: seq<string>, end: string)
    requires View(v, end).end
    ensures Run(v, Start, before + [end]).Success? ==> !Run(v, Start, before + [end]).value.inBlock
  {
    RunConcat(v, Start, before, [end]);
    match Run(v, Start, before)
    case Failure(_) =>
    case Success(mid) =>
      assert Views(v, [end]) == [View(v, end)];
      EndLine(v, mid, end);
  }

  /**
   * After an `end` line, lines up to the next block-entry line change neither
   * the records nor the keys.
   */
  lemma AfterEndIgnored(v: Variant, before: seq<string>, end: string, after: seq<string>)
    requires View(v, end).end
    requires forall i :: 0 <= i < |after| ==> !View(v, after[i]).entry
    ensures ParseResult(v, before + [end] + after) == ParseResult(v, before + [end])
  {
    var head := before + [end];
    EndClearsFlag(v, before, end);
    var r := Run(v, Start, head);
    if r.Success? {
      NoEntryNoChange(v, r.value, Views(v, after));
    }
    RunConcat(v, Start, head, after);
  }

  /** Running on from a state only appends columns and records. */
  lemma {:induction false} RunOnlyAppends(v: Variant, st: ScanState, cs: seq<LineView>)
    ensures RunViews(v, st, cs).Success? ==>
      && st.keys <= RunViews(v, st, cs).value.keys
      && st.records <= RunViews(v, st, cs).value.records
    decreases |cs|
  {
    if cs != [] {
      RunOnlyAppends(v, st, cs[..|cs| - 1]);
      var prev := RunViews(v, st, cs[..|cs| - 1]);
      if prev.Success? {
        StepOnlyAppends(v, prev.value, cs[|cs| - 1]);
      }
    }
  }

  lemma StepOnlyAppends(v: Variant, st: ScanState, c: LineView)
    ensures StepOn(v, st, c).Success? ==>
      && st.keys <= StepOn(v, st, c).value.keys
      && st.records <= StepOn(v, st, c).value.records
  {
    var st1 := ApplyEdit(st, c.edit);
    RegisterSpec(st.keys, NameKey);
    assert st.keys <= st1.keys && st1.records == st.records;
    var r := ApplySet(v, st1, c.setting);
    if c.setting.Some? && r.Success? {
      StoreSettingFrame(v, st1, c.setting.value.0, c.setting.value.1);
      SetColumnsSpec(v, st1.keys, c.setting.value.0);
    }
    assert r.Success? ==> st.keys <= r.value.keys && st.records == r.value.records;
  }

  /**
   * `order_keys` only grows by appending: the column list and the records of
   * any prefix of a successful input are prefixes of the final ones.
   */
  lemma KeysGrowByAppending(v: Variant, lines: seq<string>, i: nat)
    requires i <= |lines| && ParseResult(v, lines).Success?
    ensures ParseResult(v, lines[..i]).Success?
    ensures ParseResult(v, lines[..i]).value.keys <= ParseResult(v, lines).value.keys
    ensures ParseResult(v, lines[..i]).value.records <= ParseResult(v, lines).value.records
  {
    assert lines[..i] + lines[i..] == lines;
    PrefixOnlyGrows(v, lines[..i], lines[i..]);
  }

  lemma PrefixOnlyGrows(v: Variant, a: seq<string>, b: seq<string>)
    requires Run(v, Start, a + b).Success?
    ensures Run(v, Start, a).Success?
    ensures Run(v, Start, a).value.keys <= Run(v, Start, a + b).value.keys
    ensures Run(v, Start, a).value.records <= Run(v, Start, a + b).value.records
  {
    RunConcat(v, Start, a, b);
    var mid := Run(v, Start, a);
    if mid.Success? {
      RunOnlyAppends(v, mid.value, Views(v, b));
    }
  }

  /** The block flag after each classified line, from the start of the input. */
  function FlagAfter(cs: seq<LineView>): bool
    decreases |cs|
  {
    if cs == [] then false
    else
      var c := cs[|cs| - 1];
      (FlagAfter(cs[..|cs| - 1]) || c.entry) && !c.end
  }

  /** The number of `next` lines met while the flag is set. */
  function InBlockNexts(cs: seq<LineView>): nat
    decreases |cs|
  {
    if cs == [] then 0
    else
      var c := cs[|cs| - 1];
      InBlockNexts(cs[..|cs| - 1]) + (if (FlagAfter(cs[..|cs| - 1]) || c.entry) && c.next then 1 else 0)
  }

  /** The scanner's flag is FlagAfter, and it has committed one record per in-block `next` line. */
  lemma {:induction false} RunCounts(v: Variant, cs: seq<LineView>)
    ensures RunViews(v, Start, cs).Success? ==>
      && RunViews(v, Start, cs).value.inBlock == FlagAfter(cs)
      && |RunViews(v, Start, cs).value.records| == InBlockNexts(cs)
    decreases |cs|
  {
    if cs != [] {
      RunCounts(v, cs[..|cs| - 1]);
    }
  }

  /** `parse` returns exactly one record per `next` line seen inside the block. */
  lemma RecordCount(v: Variant, lines: seq<string>)
    requires ParseResult(v, lines).Success?
    ensures |ParseResult(v, lines).value.records| == InBlockNexts(Views(v, lines))
  {
    RunCounts(v, Views(v, lines));
  }

  /**
   * A record that no in-block `next` line follows is dropped: when no such
   * line comes after position `j`, the records are those already committed at `j`.
   */
  lemma TrailingRecordDropped(v: Variant, lines: seq<string>, j: nat)
    requires j <= |lines| && ParseResult(v, lines).Success?
    requires InBlockNexts(Views(v, lines[..j])) == InBlockNexts(Views(v, lines))
    ensures ParseResult(v, lines[..j]).Success?
    ensures ParseResult(v, lines[..j]).value.records == ParseResult(v, lines).value.records
  {
    KeysGrowByAppending(v, lines, j);
    RecordCount(v, lines);
    RecordCount(v, lines[..j]);
  }

  /** The column list `parse` returns has no duplicates and covers every key of every record. */
  lemma ParseWellFormed(v: Variant, lines: seq<string>)
    requires ParseResult(v, lines).Success?
    ensures NoDuplicates(ParseResult(v, lines).value.keys)
    ensures forall i, k :: 0 <= i < |ParseResult(v, lines).value.records| && k in ParseResult(v, lines).value.records[i] ==>
      k in ParseResult(v, lines).value.keys
  {
    StartIsWellFormed();
    RunKeepsWellFormed(v, Start, Views(v, lines));
  }

  // ---------------------------------------------------------------- which columns, in which order

  /**
   * The first occurrence of each name, in order: an element is kept exactly
   * when it does not occur earlier in `s`.
   */
  function Dedup(s: seq<string>): seq<string>
    decreases |s|
  {
    if s == [] then []
    else
      var front := s[..|s| - 1];
      Dedup(front) + (if s[|s| - 1] in front then [] else [s[|s| - 1]])
  }

  /** Dedup keeps every name and only those, each once. */
  lemma {:induction false} DedupSpec(s: seq<string>)
    ensures forall x :: x in Dedup(s) <==> x in s
    ensures NoDuplicates(Dedup(s))
    decreases |s|
  {
    if s != [] {
      var front := s[..|s| - 1];
      DedupSpec(front);
      assert s == front + [s[|s| - 1]];
    }
  }

  /** Registering a name after the first occurrences is the first occurrences of the longer list. */
  lemma DedupSnoc(s: seq<string>, x: string)
    ensures Dedup(s + [x]) == Register(Dedup(s), x)
  {
    assert (s + [x])[..|s|] == s;
    DedupSpec(s);
  }

  /** `order_keys.append(k)` under `if not(k in order_keys)` for each name of `t`, in order. */
  function RegisterAll(keys: seq<string>, t: seq<string>): seq<string>
    decreases |t|
  {
    if t == [] then keys else RegisterAll(Register(keys, t[0]), t[1..])
  }

  /** Registering more names one by one continues the first-occurrence list. */
  lemma {:induction false} DedupAppend(s: seq<string>, t: seq<string>)
    ensures Dedup(s + t) == RegisterAll(Dedup(s), t)
    decreases |t|
  {
    if t == [] {
      assert s + t == s;
    } else {
      assert s + t == (s + [t[0]]) + t[1..];
      DedupAppend(s + [t[0]], t[1..]);
      DedupSnoc(s, t[0]);
    }
  }

  /** The names one in-block line registers, in the order the loop body registers them. */
  function LineNames(v: Variant, c: LineView): seq<string> {
    EditNames(c) + SetNames(v, c)
  }

  function EditNames(c: LineView): seq<string> {
    if c.edit.Some? then [NameKey] else []
  }

  function SetNames(v: Variant, c: LineView): seq<string> {
    if c.setting.None? then []
    else if v == Address then [c.setting.value.0, IpAddrKey, SubnetMaskKey]
    else [c.setting.value.0]
  }

  /**
   * Every name the in-block `edit` and `set` lines register, repetitions
   * included: `name` for an edit line, the key for a set line, and for the
   * address converter `ip_addr` and `subnet_mask` after each set line.
   */
  function Registered(v: Variant, cs: seq<LineView>): seq<string>
    decreases |cs|
  {
    if cs == [] then []
    else
      var front := cs[..|cs| - 1];
      var c := cs[|cs| - 1];
      Registered(v, front) + (if FlagAfter(front) || c.entry then LineNames(v, c) else [])
  }

  lemma RegisterAllAppend(keys: seq<string>, a: seq<string>, b: seq<string>)
    ensures RegisterAll(keys, a + b) == RegisterAll(RegisterAll(keys, a), b)
    decreases |a|
  {
    if a != [] {
      assert (a + b)[0] == a[0] && (a + b)[1..] == a[1..] + b;
      RegisterAllAppend(Register(keys, a[0]), a[1..], b);
    } else {
      assert a + b == b;
    }
  }

  lemma EditRegisters(st: ScanState, c: LineView)
    ensures ApplyEdit(st, c.edit).keys == RegisterAll(st.keys, EditNames(c))
  {
    if c.edit.Some? {
      assert [NameKey][1..] == [];
    }
  }

  lemma SetRegisters(v: Variant, keys: seq<string>, key: string)
    ensures SetColumns(v, keys, key) == RegisterAll(keys, SetNames(v, LineView(false, None, Some((key, "")), false, false)))
  {
    var f := SetNames(v, LineView(false, None, Some((key, "")), false, false));
    if v == Address {
      var k1 := Register(keys, key);
      var k2 := Register(k1, IpAddrKey);
      assert f[1..] == [IpAddrKey, SubnetMaskKey] && f[1..][1..] == [SubnetMaskKey];
      assert RegisterAll(k2, [SubnetMaskKey]) == Register(k2, SubnetMaskKey) by {
        assert [SubnetMaskKey][1..] == [];
      }
      assert RegisterAll(k1, [IpAddrKey, SubnetMaskKey]) == RegisterAll(k2, [SubnetMaskKey]);
    } else {
      assert f[1..] == [];
    }
  }

  /** One loop iteration registers exactly the line's names when the flag is set, and none otherwise. */
  lemma StepRegisters(v: Variant, st: ScanState, c: LineView)
    requires StepOn(v, st, c).Success?
    ensures StepOn(v, st, c).value.keys ==
      RegisterAll(st.keys, if st.inBlock || c.entry then LineNames(v, c) else [])
  {
    if st.inBlock || c.entry {
      var st1 := ApplyEdit(st, c.edit);
      EditRegisters(st, c);
      RegisterAllAppend(st.keys, EditNames(c), SetNames(v, c));
      var r := ApplySet(v, st1, c.setting);
      assert r.Success?;
      if c.setting.Some? {
        var key := c.setting.value.0;
        StoreSettingFrame(v, st1, key, c.setting.value.1);
        SetRegisters(v, st1.keys, key);
        assert SetNames(v, c) == SetNames(v, LineView(false, None, Some((key, "")), false, false));
      }
      assert r.value.keys == RegisterAll(st1.keys, SetNames(v, c));
    }
  }

  /**
   * `order_keys` is the list of registered names in order of first
   * occurrence: in-block edit lines give `name`, set lines their key and, in
   * the address converter, `ip_addr` and `subnet_mask`.
   */
  lemma {:induction false} RunKeys(v: Variant, cs: seq<LineView>)
    ensures RunViews(v, Start, cs).Success? ==>
      RunViews(v, Start, cs).value.keys == Dedup(Registered(v, cs))
    decreases |cs|
  {
    if cs != [] {
      var front := cs[..|cs| - 1];
      var c := cs[|cs| - 1];
      RunKeys(v, front);
      RunCounts(v, front);
      var prev := RunViews(v, Start, front);
      if prev.Success? {
        var names := if FlagAfter(front) || c.entry then LineNames(v, c) else [];
        assert Registered(v, cs) == Registered(v, front) + names;
        var r := RunViews(v, Start, cs);
        assert r == StepOn(v, prev.value, c);
        if r.Success? {
          StepRegisters(v, prev.value, c);
          DedupAppend(Registered(v, front), names);
        }
      }
    }
  }

  /** The columns `parse` returns are the registered names, each at its first occurrence. */
  lemma ParseKeys(v: Variant, lines: seq<string>)
    requires ParseResult(v, lines).Success?
    ensures ParseResult(v, lines).value.keys == Dedup(Registered(v, Views(v, lines)))
  {
    RunKeys(v, Views(v, lines));
  }
}
