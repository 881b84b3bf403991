// The length of the printed text: which settings overrun the I/O buffer, and a
// bound on the channel table under which none do.
module ConfigSize {
  import opened Options
  import opened CStrings
  import opened JsonScan
  import opened ConfigText
  import opened ConfigKeys
  import opened ConfigRoundTrip
  import opened ConfigStore

  // ---------------------------------------------------------------- the exact length

  /** The characters of one table entry, without its separator. */
  function EntrySize(ch: Channel): nat
  { |ch.name| + |BoolText(ch.enabled)| + if ch.topic != "" then |ch.topic| + 32 else 4 }

  /** The characters of the first i entries with their separators. */
  function EntriesSize(chs: seq<Channel>, i: nat): nat
    requires i <= |chs|
  { if i == 0 then 0 else EntriesSize(chs, i - 1) + EntrySize(chs[i - 1]) + 6 }

  /** The characters the whole table adds to the text. */
  function TableSize(chs: seq<Channel>): nat { if chs == [] then 0 else EntriesSize(chs, |chs|) + 20 }

  function StringsSize(c: Config): nat
  {
    |c.network.mac| + |c.network.ip| + |c.network.netmask| + |c.network.gateway| + |c.network.agentIp|
    + |c.network.agentPort| + |c.ros.nodeName| + |c.ros.ns|
  }

  /** The digits of the first k trim numbers. */
  function TrimDigits(t: RcTrim, k: nat): nat
    requires |t.ch| == RC_CH_COUNT && k <= 19
  { if k == 0 then 0 else TrimDigits(t, k - 1) + |Dec(TrimNum(t, k - 1))| }

  /** The characters of the text before its last line. */
  function TextSize(c: Config): nat
    requires |c.trim.ch| == RC_CH_COUNT
  {
    531 + StringsSize(c) + |BoolText(c.network.dhcp)| + TableSize(c.channels)
    + TrimDigits(c.trim, 19) + |Dec2(c.trim.emaAlpha)|
  }

  function CellsSize(cs: seq<Cell>): nat
  { if cs == [] then 0 else |cs[0].tok| + 2 + |cs[0].gap| + CellsSize(cs[1..]) }

  lemma {:induction false} RenderSize(cs: seq<Cell>)
    ensures |Render(cs)| == CellsSize(cs)
  {
    if cs != [] { RenderSize(cs[1..]); }
  }

  function HeadUpTo(c: Config, k: nat): nat
    requires k <= HEAD_CELLS
  { if k == 0 then 0 else HeadUpTo(c, k - 1) + |HeadTok(c, k - 1)| + 2 + |HeadGap(c, k - 1)| }

  lemma {:induction false} HeadPrefix(c: Config, k: nat)
    requires k <= HEAD_CELLS
    ensures |Render(HeadCells(c)[..k])| == HeadUpTo(c, k)
  {
    hide HeadTok, HeadGap;
    var cs := HeadCells(c);
    if k == 0 {
      assert cs[..0] == [];
    } else {
      HeadPrefix(c, k - 1);
      RenderLength(cs, k - 1);
    }
  }

  lemma HeadGapSize(c: Config, k: nat)
    requires k < HEAD_CELLS
    ensures |HeadGap(c, k)| == (if k in {0, 13, 14} then 8 else if k == 3 then 8 + |BoolText(c.network.dhcp)|
                                else if k in {1, 4, 6, 8, 10, 12, 15, 17} then 2 else if k == 18 then 4 else 6)
  {
    hide BoolText;
  }

  lemma HeadKeySize(c: Config)
    ensures |HeadTok(c, 0)| == |HeadTok(c, 6)| == |HeadTok(c, 8)| == 7 && |HeadTok(c, 1)| == |HeadTok(c, 14)| == 3
    ensures |HeadTok(c, 3)| == 4 && |HeadTok(c, 4)| == 2 && |HeadTok(c, 10)| == 8 && |HeadTok(c, 12)| == 10
    ensures |HeadTok(c, 15)| == |HeadTok(c, 17)| == 9
  {
  }

  lemma HeadValueSize(c: Config)
    ensures |HeadTok(c, 2)| + |HeadTok(c, 5)| + |HeadTok(c, 7)| + |HeadTok(c, 9)| + |HeadTok(c, 11)| + |HeadTok(c, 13)|
          + |HeadTok(c, 16)| + |HeadTok(c, 18)| == StringsSize(c)
  {
  }

  lemma HeadSize(c: Config)
    ensures |HeadText(c)| == 199 + StringsSize(c) + |BoolText(c.network.dhcp)|
  {
    HeadKeySize(c);
    HeadValueSize(c);
    hide HeadTok, HeadGap, BoolText, StringsSize, Render;
    HeadPrefix(c, HEAD_CELLS);
    assert HeadCells(c)[..HEAD_CELLS] == HeadCells(c);
    forall k: nat | k < HEAD_CELLS ensures HeadUpTo(c, k + 1) == HeadUpTo(c, k) + |HeadTok(c, k)| + 2 + |HeadGap(c, k)| {
    }
    HeadGapSize(c, 0); HeadGapSize(c, 1); HeadGapSize(c, 2); HeadGapSize(c, 3); HeadGapSize(c, 4);
    HeadGapSize(c, 5); HeadGapSize(c, 6); HeadGapSize(c, 7); HeadGapSize(c, 8); HeadGapSize(c, 9);
    HeadGapSize(c, 10); HeadGapSize(c, 11); HeadGapSize(c, 12); HeadGapSize(c, 13); HeadGapSize(c, 14);
    HeadGapSize(c, 15); HeadGapSize(c, 16); HeadGapSize(c, 17); HeadGapSize(c, 18);
    hide HeadUpTo;
  }

  lemma ChannelSize(ch: Channel, first: bool)
    ensures |ChannelText(ch, first)| == EntrySize(ch) + if first then 5 else 6
  {
    ChannelForm(ch, first);
    hide BoolText, ChannelText;
  }

  lemma {:induction false} ChannelsSize(c: Config, i: nat)
    requires i <= |c.channels|
    ensures |ChannelsText(c, i)| == |HeadText(c)| + 17 + EntriesSize(c.channels, i) - if i > 0 then 1 else 0
  {
    hide HeadText, ChannelText, EntrySize;
    if i > 0 {
      ChannelsSize(c, i - 1);
      ChannelSize(c.channels[i - 1], i == 1);
    }
  }

  lemma BeforeTrimSize(c: Config)
    ensures |BeforeTrim(c)| == |HeadText(c)| + TableSize(c.channels)
  {
    hide HeadText, ChannelsText, EntriesSize;
    if c.channels != [] { ChannelsSize(c, |c.channels|); }
  }

  lemma TrimCellSize(t: RcTrim, k: nat)
    requires |t.ch| == RC_CH_COUNT && k < 20
    ensures |TrimKey(k)| + |TrimGap(t, k)| + 2
         == if k == 19 then 16 + |Dec2(t.emaAlpha)|
            else |Dec(TrimNum(t, k))| + if k == 18 then 18 else if k % 3 == 0 then 13 else if k % 3 == 1 then 16 else 17
  {
    hide Dec, Dec2, TrimNum;
  }

  lemma {:induction false} TrimRowsSize(t: RcTrim, r: nat)
    requires |t.ch| == RC_CH_COUNT && r <= RC_CH_COUNT
    ensures |Render(TrimCells(t)[..3 * r])| == 46 * r + TrimDigits(t, 3 * r)
  {
    hide TrimKey, TrimGap, Dec, TrimNum;
    var cs := TrimCells(t);
    if r == 0 {
      assert cs[..0] == [];
    } else {
      hide Render, TrimCells, TrimDigits;
      TrimRowsSize(t, r - 1);
      RowSize(t, r - 1);
      ThreeMore(t, 3 * (r - 1));
    }
  }

  lemma RowSize(t: RcTrim, r: nat)
    requires |t.ch| == RC_CH_COUNT && r < RC_CH_COUNT
    ensures var cs, k := TrimCells(t), 3 * r;
            |Render(cs[..k + 3])|
            == |Render(cs[..k])| + 46 + |Dec(TrimNum(t, k))| + |Dec(TrimNum(t, k + 1))| + |Dec(TrimNum(t, k + 2))|
  {
    hide TrimKey, TrimGap, Dec, TrimNum, Render;
    var cs, k := TrimCells(t), 3 * r;
    RenderLength(cs, k);
    RenderLength(cs, k + 1);
    RenderLength(cs, k + 2);
    TrimCellSize(t, k);
    TrimCellSize(t, k + 1);
    TrimCellSize(t, k + 2);
  }

  lemma ThreeMore(t: RcTrim, k: nat)
    requires |t.ch| == RC_CH_COUNT && k + 3 <= 19
    ensures TrimDigits(t, k + 3)
         == TrimDigits(t, k) + |Dec(TrimNum(t, k))| + |Dec(TrimNum(t, k + 1))| + |Dec(TrimNum(t, k + 2))|
  {
    hide Dec, TrimNum;
    assert TrimDigits(t, k + 2) == TrimDigits(t, k + 1) + |Dec(TrimNum(t, k + 1))|;
  }

  lemma TrimSize(t: RcTrim)
    requires |t.ch| == RC_CH_COUNT
    ensures |Render(TrimCells(t))| == 310 + TrimDigits(t, 19) + |Dec2(t.emaAlpha)|
  {
    hide TrimKey, TrimGap, Dec, Dec2, TrimNum;
    var cs := TrimCells(t);
    TrimRowsSize(t, 6);
    RenderLength(cs, 18);
    RenderLength(cs, 19);
    TrimCellSize(t, 18);
    TrimCellSize(t, 19);
    assert cs[..20] == cs;
  }

  /** The text before the last line has exactly this many characters. */
  lemma TextSizeIs(c: Config)
    requires |c.trim.ch| == RC_CH_COUNT
    ensures |TrimText(c, RC_CH_COUNT + 1)| == TextSize(c)
  {
    TrimBlock(c);
    HeadSize(c);
    BeforeTrimSize(c);
    TrimSize(c.trim);
    hide BeforeTrim, TrimCells, Render, TrimText, HeadText, StringsSize, TableSize, TrimDigits, BoolText, Dec2;
  }

  // ---------------------------------------------------------------- a budget for the table

  /** What the stored fields can hold, whatever is set. */
  predicate FieldsFit(c: Config)
  {
    && |c.network.mac| < MAC_LEN && |c.network.agentPort| < PORT_LEN && |c.network.ip| < CFG_STR_LEN
    && |c.network.netmask| < CFG_STR_LEN && |c.network.gateway| < CFG_STR_LEN && |c.network.agentIp| < CFG_STR_LEN
    && |c.ros.nodeName| < CFG_STR_LEN && |c.ros.ns| < CFG_STR_LEN && TrimInRange(c.trim)
  }

  lemma {:induction false} DigitsFit(t: RcTrim, k: nat)
    requires TrimInRange(t) && k <= 19
    ensures TrimDigits(t, k) <= 5 * k
  {
    hide Dec;
    if k > 0 {
      DigitsFit(t, k - 1);
      assert k - 1 < 18 ==> t.ch[(k - 1) / 3] in t.ch;
      FiveDigits(TrimNum(t, k - 1));
    }
  }

  /** A condition a caller can check: while the table and the filter constant print at most 596
      characters, saving neither overruns the buffer nor cuts the text, whatever the other fields hold. */
  lemma TableBudget(c: Config)
    requires FieldsFit(c) && TableSize(c.channels) + |Dec2(c.trim.emaAlpha)| <= 596
    ensures |TrimText(c, RC_CH_COUNT + 1)| < IO_BUF
  {
    TextSizeIs(c);
    DigitsFit(c.trim, 19);
    hide TableSize, TrimDigits, Dec2, TrimText;
  }

  lemma StepFits(c: Config, key: string, value: string)
    requires FieldsFit(c)
    ensures FieldsFit(Set(c, key, value).1)
  {
    hide SetChannels, ValidName, ValidNamespace, Strtol, Strtof;
  }

  lemma {:induction false} RunFits(cmds: seq<Cmd>)
    ensures FieldsFit(Run(Defaults(), cmds))
  {
    hide Set, FieldsFit;
    if cmds == [] {
      DefaultsFit();
    } else {
      RunFits(cmds[..|cmds| - 1]);
      StepFits(Run(Defaults(), cmds[..|cmds| - 1]), cmds[|cmds| - 1].key, cmds[|cmds| - 1].value);
    }
  }

  lemma DefaultsFit()
    ensures FieldsFit(Defaults())
  {
  }

  // ---------------------------------------------------------------- a run that overruns the buffer

  /** n equal characters. */
  function Fill(x: char, n: nat): (s: string)
    ensures |s| == n && forall c :: c in s ==> c == x
  { seq(n, _ => x) }

  function LongName(i: nat): (s: string)
    requires i < CFG_MAX_CHANNELS
    ensures |s| == 31 && s[0] == 'a' + i as char && '.' !in s
  { ['a' + i as char] + Fill('n', 30) }

  const LONG_TOPIC := Fill('t', 31)

  /** Gives the k-th name a topic. */
  function TopicCmd(k: nat): Cmd
    requires k < CFG_MAX_CHANNELS
  { Cmd("channels." + (LongName(k) + ".topic"), LONG_TOPIC) }

  /** One topic for each of the first k names. */
  function TopicCmds(k: nat): seq<Cmd>
    requires k <= CFG_MAX_CHANNELS
  { if k == 0 then [] else TopicCmds(k - 1) + [TopicCmd(k - 1)] }

  function TopicTable(k: nat): (chs: seq<Channel>)
    requires k <= CFG_MAX_CHANNELS
    ensures |chs| == k && forall i :: 0 <= i < k ==> chs[i] == Channel(LongName(i), true, LONG_TOPIC)
  { if k == 0 then [] else TopicTable(k - 1) + [Channel(LongName(k - 1), true, LONG_TOPIC)] }

  lemma TopicStep(c: Config, k: nat)
    requires k < CFG_MAX_CHANNELS && |c.trim.ch| == RC_CH_COUNT && c.channels == TopicTable(k)
    ensures var r := Set(c, "channels." + (LongName(k) + ".topic"), LONG_TOPIC);
            r.0 == 0 && r.1.channels == TopicTable(k + 1)
  {
    var name := LongName(k);
    var key, rest := "channels." + (name + ".topic"), name + ".topic";
    assert key[9..] == rest && rest == name + ['.'] + "topic";
    MemChrAfter(name, '.', "topic");
    assert rest[..31] == name && rest[32..] == "topic";
    PrefixesDiffer(key);
    forall i | 0 <= i < k ensures c.channels[i].name != name {
      assert LongName(i)[0] != name[0];
    }
    assert FindChannel(c.channels, name) < 0;
    hide LongName, FindChannel, TopicTable, SetNetwork, SetRos, SetTrim;
    assert SafeCopy(LONG_TOPIC, CFG_CH_NAME_LEN) == LONG_TOPIC;
    assert SetTopic(c.channels, name, "topic", LONG_TOPIC) == (0, c.channels + [Channel(name, true, LONG_TOPIC)]);
    TopicGrows(k);
  }

  lemma TopicGrows(k: nat)
    requires k < CFG_MAX_CHANNELS
    ensures TopicTable(k + 1) == TopicTable(k) + [Channel(LongName(k), true, LONG_TOPIC)]
  {
  }

  lemma {:induction false} TopicRun(k: nat)
    requires k <= CFG_MAX_CHANNELS
    ensures Run(Defaults(), TopicCmds(k)).channels == TopicTable(k)
  {
    hide Set, TopicTable;
    if k == 0 {
      assert TopicTable(0) == [];
    } else {
      TopicRun(k - 1);
      var cmds := TopicCmds(k);
      assert cmds[..|cmds| - 1] == TopicCmds(k - 1);
      TopicStep(Run(Defaults(), TopicCmds(k - 1)), k - 1);
    }
  }

  lemma {:induction false} TopicSize(k: nat, i: nat)
    requires i <= k <= CFG_MAX_CHANNELS
    ensures EntriesSize(TopicTable(k), i) >= 104 * i
  {
    hide TopicTable;
    if i > 0 {
      TopicSize(k, i - 1);
      assert TopicTable(k)[i - 1] == Channel(LongName(i - 1), true, LONG_TOPIC);
    }
  }

  /** Twelve commands from the defaults, each accepted, after which saving prints out of bounds. */
  lemma OverrunRun()
    ensures forall k: nat :: k < CFG_MAX_CHANNELS ==>
              Set(Run(Defaults(), TopicCmds(k)), TopicCmd(k).key, TopicCmd(k).value).0 == 0
    ensures |TrimText(Run(Defaults(), TopicCmds(CFG_MAX_CHANNELS)), RC_CH_COUNT + 1)| > IO_BUF
  {
    hide Set, Run, TopicCmds, TopicTable, TrimText, EntriesSize;
    var c := Run(Defaults(), TopicCmds(CFG_MAX_CHANNELS));
    forall k: nat | k < CFG_MAX_CHANNELS
      ensures Set(Run(Defaults(), TopicCmds(k)), TopicCmd(k).key, TopicCmd(k).value).0 == 0
    {
      TopicRun(k);
      TopicStep(Run(Defaults(), TopicCmds(k)), k);
    }
    TopicRun(CFG_MAX_CHANNELS);
    TopicSize(CFG_MAX_CHANNELS, CFG_MAX_CHANNELS);
    TextSizeIs(c);
  }
}
