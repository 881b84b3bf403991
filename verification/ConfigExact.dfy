// Saving and loading the configuration: exactly which configurations come back
// from the file, whatever RAM held.
module ConfigExact {
  import opened Options
  import opened CStrings
  import opened JsonScan
  import opened ConfigText
  import opened ConfigHead
  import opened ConfigRoundTrip
  import opened ConfigSections
  import opened ConfigChannels
  import opened ChannelScan
  import ConfigStore

  /** C strings, no braces in channel names and topics, trims of 16 bits and a filter constant of a
      printable size. Quotes may stand anywhere. */
  predicate Tame(c: Config)
  {
    && BracesHarmless(c) && TrimInRange(c.trim) && |Dec2(c.trim.emaAlpha)| < 98
    && (forall k :: 0 <= k < HEAD_CELLS && IsValue(k) ==> NoNul(HeadTok(c, k)))
    && (forall ch :: ch in c.channels ==> TameChannel(ch))
  }

  predicate TameChannel(ch: Channel) { BraceFree(ch.name) && BraceFree(ch.topic) && NoNul(ch.name) && NoNul(ch.topic) }

  /** What the loader can give back at all: strings without quotes and within their fields, and at most
      twelve channels, none without a name. */
  predicate Readable(c: Config)
  {
    && (forall k :: 0 <= k < HEAD_CELLS && IsValue(k) ==> QuoteFree(HeadTok(c, k)) && |HeadTok(c, k)| < Cap(k - 1))
    && |c.channels| <= CFG_MAX_CHANNELS && forall ch :: ch in c.channels ==> Storable(ch)
  }

  /** Both together, as `PlainIs` says. */
  predicate Plain(c: Config)
  { PlainText(c) && |c.channels| <= CFG_MAX_CHANNELS && TrimInRange(c.trim) && |Dec2(c.trim.emaAlpha)| < 98 }

  /** No string spells a key where the search for that key would stop at it. */
  predicate Unshadowed(c: Config) { HeadClear(c) && TableClear(c) && TrimClear(c) }

  predicate Printable(c: Config) { Plain(c) && Unshadowed(c) }

  /** The configuration the loader gets back: the filter constant comes in hundredths. */
  function Rounded(c: Config): Config { c.(trim := c.trim.(emaAlpha := ToHundredths(c.trim.emaAlpha))) }

  ghost predicate AlwaysRestored(c: Config, text: string)
  { forall o: Config :: |o.trim.ch| == RC_CH_COUNT ==> Parse(text, o) == Rounded(c) }

  lemma StartsWithHead(c: Config, z: string) returns (s: string)
    requires |c.trim.ch| == RC_CH_COUNT
    ensures TrimText(c, RC_CH_COUNT + 1) + z == HeadText(c) + s
  {
    hide HeadText, TrimText, BeforeTrim;
    ConfigStore.HeadFits(c);
    var t := TrimText(c, RC_CH_COUNT + 1);
    s := t[|HeadText(c)|..] + z;
    assert t == HeadText(c) + t[|HeadText(c)|..];
    Assoc(HeadText(c), t[|HeadText(c)|..], z);
  }

  // ---------------------------------------------------------------- what cannot come back

  /** From any text at all: a string the loader reads holds no quote and fits its field, so a string
      that is kept for one state of RAM and read for the other does too. */
  lemma ReadIsReadable(json: string, key: string, cap: nat, v: string, dest: string)
    requires cap > 0 && StrOr(json, key, cap, dest) == v != dest
    ensures QuoteFree(v) && |v| < cap
  {
    hide GetStr;
    ReadIsShort(json, key, cap);
  }

  /** No text restores a configuration with a quote in a string, an overlong string, an unnamed channel
      or a thirteenth one. */
  lemma RestoredIsReadable(c: Config, text: string)
    requires |c.trim.ch| == RC_CH_COUNT && AlwaysRestored(c, text)
    ensures Readable(c)
  {
    hide HeadTok, StrOr, ParseNetwork, ParseRos, ParseChannels, AlwaysRestored, QuoteFree;
    var n, r := OtherNetwork(c.network), OtherRos(c.ros);
    OneRestored(c, text, Config(n, r, [], c.trim));
    ChannelsStorable(text);
    forall k | 0 <= k < HEAD_CELLS && IsValue(k) ensures QuoteFree(HeadTok(c, k)) && |HeadTok(c, k)| < Cap(k - 1) {
      FieldParsed(c, text, k - 1, n, r);
      OtherDiffers(k - 1, c.network, c.ros);
      ReadIsReadable(text, HeadTok(c, k - 1), Cap(k - 1), HeadTok(c, k), Field(k - 1, n, r));
    }
  }

  lemma PlainIs(c: Config)
    ensures Plain(c) <==> Tame(c) && Readable(c)
  {
    assert HeadTok(c, 2) == c.network.mac && HeadTok(c, 13) == c.network.agentPort && IsValue(2) && IsValue(13);
    hide HeadTok, BracesHarmless, TrimInRange, Dec2;
    assert PlainChannels(c.channels) <==> forall ch :: ch in c.channels ==> TameChannel(ch) && Storable(ch);
  }

  /** Parsing the printed text, with anything quote-free behind its last block, from every state of
      RAM: the configuration comes back exactly when it is unshadowed. */
  lemma PlainParsesExactly(c: Config, z: string)
    requires Plain(c) && QuoteFree(z)
    ensures AlwaysRestored(c, TrimText(c, RC_CH_COUNT + 1) + z) <==> Unshadowed(c)
  {
    InRangeHasSix(c.trim);
    hide PlainText, HeadClear, TableClear, TrimClear, HeadText, TrimText, ParseNetwork, ParseRos, ParseChannels,
      ParseTrim, Dec2, ToHundredths, TrimInRange;
    var text := TrimText(c, RC_CH_COUNT + 1) + z;
    var s := StartsWithHead(c, z);
    PlainParts(c);
    HeadExactly(c, s);
    TableExactly(c, z);
    TrimExactly(c, z);
    if AlwaysRestored(c, text) {
      forall n: Network, r: Ros ensures Restored(c, text, n, r) {
        OneRestored(c, text, Config(n, r, [], c.trim));
      }
      forall o: RcTrim | |o.ch| == RC_CH_COUNT ensures ParseTrim(text, o) == Rounded(c).trim {
        OneRestored(c, text, Config(c.network, c.ros, [], o));
      }
      OneRestored(c, text, c);
    }
    if Unshadowed(c) {
      forall o: Config | |o.trim.ch| == RC_CH_COUNT ensures Parse(text, o) == Rounded(c) {
        assert Restored(c, text, o.network, o.ros);
      }
    }
  }

  /** The same with quotes anywhere and strings of any length: it comes back exactly when every
      string can be read back and none poses as a key. */
  lemma ParsesExactly(c: Config, z: string)
    requires Tame(c) && QuoteFree(z)
    ensures |c.trim.ch| == RC_CH_COUNT
    ensures AlwaysRestored(c, TrimText(c, RC_CH_COUNT + 1) + z) <==> Readable(c) && Unshadowed(c)
  {
    InRangeHasSix(c.trim);
    PlainIs(c);
    hide Tame, Readable, Plain, Unshadowed, TrimText, AlwaysRestored;
    var text := TrimText(c, RC_CH_COUNT + 1) + z;
    if AlwaysRestored(c, text) { RestoredIsReadable(c, text); }
    if Plain(c) { PlainParsesExactly(c, z); }
  }

  lemma InRangeHasSix(t: RcTrim)
    requires TrimInRange(t)
    ensures |t.ch| == RC_CH_COUNT
  {
  }

  lemma OneRestored(c: Config, text: string, o: Config)
    requires AlwaysRestored(c, text) && |o.trim.ch| == RC_CH_COUNT
    ensures Restored(c, text, o.network, o.ros) && ParseChannels(text) == c.channels
    ensures ParseTrim(text, o.trim) == Rounded(c).trim
  {
    hide ParseNetwork, ParseRos, ParseChannels, ParseTrim, ToHundredths;
    assert Parse(text, o) == Rounded(c);
  }

  // ---------------------------------------------------------------- what is on flash

  lemma TextNoNul(c: Config, z: string)
    requires Plain(c) && NoNul(z)
    ensures |c.trim.ch| == RC_CH_COUNT && NoNul(TrimText(c, RC_CH_COUNT + 1) + z)
  {
    InRangeHasSix(c.trim);
    PlainParts(c);
    TextSplitsAtTrim(c, z);
    hide PlainText, CellsBeforeTrim, TrimCells, Dec2, TrimInRange, TrimText, UpToTrim, TrimBody, PlainHead;
    CellsNoNul(c);
    TrimCellsClean(c.trim);
    RenderNoNul(TrimCells(c.trim));
    BodyNoNul(c.trim, z);
    UpToNoNul(c, TrimBody(c.trim, z));
  }

  lemma CellsNoNul(c: Config)
    requires PlainHead(c) && PlainChannels(c.channels)
    ensures NoNul(Render(CellsBeforeTrim(c)))
  {
    hide CellsBeforeTrim, Render, AllForm, PlainHead;
    CellsForm(c);
    assert TRIM_KEY[0] == 'r';
    FormIsClean(CellsBeforeTrim(c), TRIM_KEY);
    RenderNoNul(CellsBeforeTrim(c));
  }

  lemma BodyNoNul(t: RcTrim, z: string)
    requires |t.ch| == RC_CH_COUNT && NoNul(Render(TrimCells(t))) && NoNul(z)
    ensures NoNul(TrimBody(t, z))
  {
    hide Render, TrimCells;
  }

  lemma UpToNoNul(c: Config, body: string)
    requires NoNul(Render(CellsBeforeTrim(c))) && NoNul(body)
    ensures NoNul(UpToTrim(c, body))
  {
    hide Render, CellsBeforeTrim;
    assert NoNul(Quote(TRIM_KEY));
    hide Quote;
  }

  /** What the loader sees of the saved text. */
  lemma VisibleText(c: Config)
    requires Plain(c)
    ensures |c.trim.ch| == RC_CH_COUNT
    ensures var t := Clip(JsonText(c), ConfigStore.IO_BUF - 1);
            Visible(JsonText(c), ConfigStore.IO_BUF) == t && Visible(t, ConfigStore.IO_BUF) == t
  {
    TextNoNul(c, "\n}\n");
    hide Plain, JsonText, TrimText, Holds;
    var t := Clip(JsonText(c), ConfigStore.IO_BUF - 1);
    assert JsonText(c) == TrimText(c, RC_CH_COUNT + 1) + "\n}\n" by { JsonIs(c); }
    assert forall x :: x in t ==> x in JsonText(c);
    HoldsItself(t);
    HoldsCStr(t + "\0", t);
    assert Clip(t, ConfigStore.IO_BUF - 1) == t;
  }

  lemma JsonIs(c: Config)
    requires |c.trim.ch| == RC_CH_COUNT
    ensures JsonText(c) == TrimText(c, RC_CH_COUNT + 1) + "\n}\n"
  {
  }

  lemma HoldsItself(t: string)
    ensures Holds(t + "\0", t)
  {
  }

  lemma CutText(c: Config)
    requires |c.trim.ch| == RC_CH_COUNT && |TrimText(c, RC_CH_COUNT + 1)| == ConfigStore.IO_BUF
    ensures Clip(JsonText(c), ConfigStore.IO_BUF - 1) == UpToTrim(c, "\n    " + Render(TrimCells(c.trim)))
  {
    TextSplitsAtTrim(c, "");
    hide CellsBeforeTrim, TrimCells, Render, TrimText, Quote;
    var t, body := TrimText(c, RC_CH_COUNT + 1), "\n    " + Render(TrimCells(c.trim));
    assert t + "" == t && body + "}" + "" == body + "}";
    var a := "{\n  " + Render(CellsBeforeTrim(c));
    Assoc(": {", body, "}");
    Assoc(Quote(TRIM_KEY), ": {" + body, "}");
    Assoc(a, Quote(TRIM_KEY) + (": {" + body), "}");
    assert t == UpToTrim(c, body) + "}";
    assert JsonText(c)[..ConfigStore.IO_BUF - 1] == t[..ConfigStore.IO_BUF - 1];
  }

  lemma PlainSaveLoad(c: Config)
    requires Plain(c) && |c.trim.ch| == RC_CH_COUNT && |TrimText(c, RC_CH_COUNT + 1)| <= ConfigStore.IO_BUF
    ensures var file := Visible(JsonText(c), ConfigStore.IO_BUF);
            AlwaysRestored(c, Visible(file, ConfigStore.IO_BUF))
            <==> Unshadowed(c) && |TrimText(c, RC_CH_COUNT + 1)| < ConfigStore.IO_BUF
  {
    VisibleText(c);
    var t := TrimText(c, RC_CH_COUNT + 1);
    if |t| < ConfigStore.IO_BUF {
      var z := Clip("\n}\n", ConfigStore.IO_BUF - 1 - |t|);
      assert QuoteFree(z) by { assert QuoteFree("\n}\n"); }
      hide Plain, Unshadowed, TrimText, AlwaysRestored;
      assert Clip(JsonText(c), ConfigStore.IO_BUF - 1) == t + z;
      PlainParsesExactly(c, z);
    } else {
      CutText(c);
      CutTrimIsLost(c);
      hide Plain, Unshadowed, TrimText, Parse, JsonText, UpToTrim;
      LostIsNotRestored(c, Clip(JsonText(c), ConfigStore.IO_BUF - 1));
    }
  }

  /** Save, then load from every state of RAM: the saved configuration comes back, its filter constant
      in hundredths, exactly when every string can be read back, none shadows a key and the text before
      the last line is shorter than the buffer. (Beyond the buffer's size the print is out of bounds.) */
  lemma SaveLoadExactly(c: Config)
    requires Tame(c) && |c.trim.ch| == RC_CH_COUNT && |TrimText(c, RC_CH_COUNT + 1)| <= ConfigStore.IO_BUF
    ensures var file := Visible(JsonText(c), ConfigStore.IO_BUF);
            AlwaysRestored(c, Visible(file, ConfigStore.IO_BUF))
            <==> Readable(c) && Unshadowed(c) && |TrimText(c, RC_CH_COUNT + 1)| < ConfigStore.IO_BUF
  {
    PlainIs(c);
    hide Tame, Readable, Plain, Unshadowed, TrimText, JsonText, AlwaysRestored;
    var text := Visible(Visible(JsonText(c), ConfigStore.IO_BUF), ConfigStore.IO_BUF);
    if AlwaysRestored(c, text) { RestoredIsReadable(c, text); }
    if Plain(c) { PlainSaveLoad(c); }
  }

  lemma LostIsNotRestored(c: Config, text: string)
    requires |c.trim.ch| == RC_CH_COUNT && ParseTrim(text, OtherTrim(c.trim)) != Rounded(c).trim
    ensures !AlwaysRestored(c, text)
  {
    hide ParseTrim, ToHundredths, OtherTrim;
    if AlwaysRestored(c, text) { OneRestored(c, text, c.(trim := OtherTrim(c.trim))); }
  }

  /** For printable configurations the text comes back whole, and rounding is the only change. */
  lemma SaveLoadRestores(c: Config, o: Config)
    requires Printable(c) && |o.trim.ch| == RC_CH_COUNT == |c.trim.ch|
    requires |TrimText(c, RC_CH_COUNT + 1)| < ConfigStore.IO_BUF
    ensures Parse(Visible(Visible(JsonText(c), ConfigStore.IO_BUF), ConfigStore.IO_BUF), o) == Rounded(c)
    ensures Rounded(c) == c <==> Whole(c.trim.emaAlpha * 100.0)
  {
    hide Plain, Unshadowed, TrimText, Parse, JsonText;
    PlainSaveLoad(c);
    RoundedSame(c);
    hide Rounded, Visible;
  }

  lemma RoundedSame(c: Config)
    ensures Rounded(c) == c <==> Whole(c.trim.emaAlpha * 100.0)
  {
    SurvivesTwoDecimals(c.trim.emaAlpha);
    hide ToHundredths, Whole;
    assert Rounded(c).trim.emaAlpha == ToHundredths(c.trim.emaAlpha);
  }
}
