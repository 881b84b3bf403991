// What the channel parser does to an arbitrary text, well formed or not.
module ChannelScan {
  import opened Options
  import opened CStrings
  import opened JsonScan
  import opened ConfigText
  import opened ConfigRoundTrip

  // ---------------------------------------------------------------- nesting

  /** Some enclosing depth is closed exactly n characters on. */
  ghost predicate Encloses(t: string, n: nat) { exists d: nat :: d > 0 && FindEnd(t, d) == Some(n) }

  lemma {:induction false} EnclosesSuffix(t: string, n: nat, k: nat)
    requires Encloses(t, n) && k <= n
    ensures n <= |t| && Encloses(t[k..], n - k)
  {
    var d: nat :| d > 0 && FindEnd(t, d) == Some(n);
    if k == 0 {
      assert t[0..] == t;
    } else {
      var e := if t[0] == '{' then d + 1 else if t[0] == '}' then d - 1 else d;
      assert FindEnd(t[1..], e) == Some(n - 1);
      EnclosesSuffix(t[1..], n - 1, k - 1);
      assert t[1..][k - 1..] == t[k..];
    }
  }

  /** Two levels down, a closing brace comes before the end. */
  lemma {:induction false} CloserBeforeEnd(t: string, d: nat, n: nat)
    requires d >= 2 && FindEnd(t, d) == Some(n)
    ensures MemChr(t, '}').Some? && MemChr(t, '}').value < n
  {
    if t[0] != '}' {
      var e := if t[0] == '{' then d + 1 else d;
      assert FindEnd(t[1..], e) == Some(n - 1);
      CloserBeforeEnd(t[1..], e, n - 1);
    } else {
      assert FindEnd(t[1..], d - 1) == Some(n - 1);
    }
  }

  /** The first '}' of an object that starts inside the section lies inside the section. */
  lemma ObjectCloses(t: string, n: nat)
    requires Encloses(t, n) && t != "" && t[0] == '{'
    ensures var k := MemChr(t[1..], '}'); k.Some? && k.value + 2 <= n
  {
    var d: nat :| d > 0 && FindEnd(t, d) == Some(n);
    assert FindEnd(t[1..], d + 1) == Some(n - 1);
    CloserBeforeEnd(t[1..], d + 1, n - 1);
  }

  /** In a section closed n characters on, a turn stops only when fewer than two quotes are
      left, never because an object lacks its brace, and never moves past the closing brace. */
  lemma TurnInSection(t: string, n: nat)
    requires n <= |t| && Encloses(t, n)
    ensures var q := MemChr(t[..n], '"');
            NextTurn(t, n).Stop? <==> q.None? || MemChr(t[q.value + 1..n], '"').None?
    ensures var r := NextTurn(t, n); !r.Stop? ==> 2 <= r.adv <= n && Encloses(t[r.adv..], n - r.adv)
  {
    hide SkipBlank, AfterName, MemChr, Encloses;
    var q := MemChr(t[..n], '"');
    if q.Some? && MemChr(t[q.value + 1..n], '"').Some? {
      var len := MemChr(t[q.value + 1..n], '"').value;
      var p := q.value + len + 2;
      if len == 0 || len >= CFG_CH_NAME_LEN {
        EnclosesSuffix(t, n, p);
      } else {
        var b := p + (n - p - |SkipBlank(t[p..n])|);
        EnclosesSuffix(t, n, b);
        var name := t[q.value + 1..q.value + 1 + len];
        AfterNameInSection(t[b..], n - b, name, b);
        var r := AfterName(t[b..], n - b, name, b);
        EnclosesSuffix(t, n, r.adv);
      }
    }
  }

  lemma AfterNameInSection(rest: string, m: nat, name: string, used: nat)
    requires m <= |rest| && Encloses(rest, m)
    ensures var r := AfterName(rest, m, name, used); !r.Stop? && r.adv <= used + m
  {
    hide ParseObject, Encloses, MemChr;
    if rest != "" && rest[0] == '{' { ObjectCloses(rest, m); }
  }

  // ---------------------------------------------------------------- what can be stored

  predicate Storable(ch: Channel)
  {
    && 0 < |ch.name| < CFG_CH_NAME_LEN && QuoteFree(ch.name)
    && |ch.topic| < CFG_CH_NAME_LEN && QuoteFree(ch.topic)
  }

  lemma ReadIsShort(json: string, key: string, cap: nat)
    ensures var r := GetStr(json, key, cap); r.StrIs? ==> |r.text| < cap && QuoteFree(r.text)
  {
    hide FindValue;
  }

  lemma TurnStores(t: string, n: nat)
    requires n <= |t|
    ensures NextTurn(t, n).Add? ==> Storable(NextTurn(t, n).ch)
  {
    hide SkipBlank, MemChr, AfterName, Storable;
    var q := MemChr(t[..n], '"');
    if q.Some? && MemChr(t[q.value + 1..n], '"').Some? {
      var len := MemChr(t[q.value + 1..n], '"').value;
      assert t[q.value + 1..n][..len] == t[q.value + 1..q.value + 1 + len];
      var p := q.value + len + 2;
      var b := p + (n - p - |SkipBlank(t[p..n])|);
      if 0 < len < CFG_CH_NAME_LEN {
        AfterNameStores(t[b..], n - b, t[q.value + 1..q.value + 1 + len], b);
      }
    }
  }

  lemma AfterNameStores(rest: string, m: nat, name: string, used: nat)
    requires m <= |rest| && 0 < |name| < CFG_CH_NAME_LEN && QuoteFree(name)
    ensures AfterName(rest, m, name, used).Add? ==> Storable(AfterName(rest, m, name, used).ch)
  {
    hide MemChr, GetBool, GetStr;
    ReadIsShort(rest, "topic", CFG_CH_NAME_LEN);
  }

  lemma {:induction false} EntriesStorable(t: string, n: nat, acc: seq<Channel>)
    requires n <= |t| && |acc| <= CFG_MAX_CHANNELS && forall ch :: ch in acc ==> Storable(ch)
    ensures var r := ParseEntries(t, n, acc);
            |r| <= CFG_MAX_CHANNELS && acc <= r && forall ch :: ch in r ==> Storable(ch)
    decreases n
  {
    hide NextTurn, Storable;
    if n != 0 && |acc| < CFG_MAX_CHANNELS {
      TurnStores(t, n);
      match NextTurn(t, n) {
        case Stop =>
        case Skip(adv) => if adv <= n { EntriesStorable(t[adv..], n - adv, acc); }
        case Add(ch, adv) => if adv <= n { EntriesStorable(t[adv..], n - adv, acc + [ch]); }
      }
    }
  }

  /** Every text, however malformed, yields at most twelve entries whose names have 1 to 31
      quote-free characters and whose topics fit their field. */
  lemma ChannelsStorable(json: string)
    ensures |ParseChannels(json)| <= CFG_MAX_CHANNELS && forall ch :: ch in ParseChannels(json) ==> Storable(ch)
  {
    hide ParseEntries, FindEnd, StrStr, StrChr, Storable;
    match StrStr(json, Quote("channels")) {
      case None =>
      case Some(sec) =>
        match StrChr(sec, '{') {
          case None =>
          case Some(brace) =>
            match FindEnd(brace[1..], 1) {
              case None =>
              case Some(n) => EntriesStorable(brace[1..], n, []);
            }
        }
    }
  }

  // ---------------------------------------------------------------- what an object reads from behind itself

  /** The text of an object: it ends with its closing brace. */
  predicate IsObject(obj: string) { obj != "" && obj[|obj| - 1] == '}' }

  lemma {:induction false} SearchSplits(obj: string, s: string, pat: string)
    requires IsObject(obj) && pat != "" && '}' !in pat
    ensures StrStr(obj + s, pat) == match StrStr(obj, pat) case Some(m) => Some(m + s) case None => StrStr(s, pat)
    ensures StrStr(obj, pat).Some? ==> |StrStr(obj, pat).value| > |pat| && IsObject(StrStr(obj, pat).value)
  {
    var x := obj + s;
    PrefixKept(obj, s, pat);
    assert x[1..] == obj[1..] + s;
    if |obj| > 1 { SearchSplits(obj[1..], s, pat); } else { assert obj[1..] + s == s; }
  }

  lemma {:induction false} BlankSplits(v: string, s: string)
    requires IsObject(v)
    ensures SkipBlank(v + s) == SkipBlank(v) + s && IsObject(SkipBlank(v))
  {
    if IsBlank(v[0]) {
      assert (v + s)[1..] == v[1..] + s;
      BlankSplits(v[1..], s);
    }
  }

  /** A key in the object is read there, whatever follows; a key it lacks is read from the text behind. */
  lemma ObjectReads(obj: string, s: string, key: string)
    requires IsObject(obj) && |key| < CFG_STR_LEN && '}' !in key
    ensures FindValue(obj, key).Here? ==> FindValue(obj + s, key) == Here(FindValue(obj, key).text + s)
                                          && IsObject(FindValue(obj, key).text)
    ensures !FindValue(obj, key).Here? ==> FindValue(obj + s, key) == FindValue(s, key) && FindValue(obj, key).NoKey?
  {
    var pat := Quote(key);
    SearchSplits(obj, s, pat);
    if StrStr(obj, pat).Some? {
      var m := StrStr(obj, pat).value;
      assert (m + s)[|pat|..] == m[|pat|..] + s;
      BlankSplits(m[|pat|..], s);
    }
    hide StrStr, SkipBlank;
  }

  /** The object gives its own topic: a value that is no string, one closed inside, or one too long. */
  predicate OwnTopic(obj: string) {
    match FindValue(obj, "topic")
    case Here(v) => v == "" || v[0] != '"' || '"' in v[1..] || |v| > CFG_CH_NAME_LEN
    case _ => false
  }

  predicate OwnFlag(obj: string) { FindValue(obj, "enabled").Here? }

  /** An object without the key takes the first topic behind it, and the first flag. */
  lemma TakesLater(obj: string, s: string, name: string)
    requires IsObject(obj)
    ensures !FindValue(obj, "topic").Here? ==>
              ParseObject(obj + s, name).topic == Into(GetStr(s, "topic", CFG_CH_NAME_LEN), "")
    ensures !OwnFlag(obj) ==>
              ParseObject(obj + s, name).enabled == match GetBool(s, "enabled") case BoolIs(b) => b case NoBool(_) => true
  {
    ObjectReads(obj, s, "topic");
    ObjectReads(obj, s, "enabled");
    hide FindValue;
  }

  lemma OwnTopicKept(obj: string, s: string)
    requires IsObject(obj) && OwnTopic(obj)
    ensures Into(GetStr(obj + s, "topic", CFG_CH_NAME_LEN), "") == Into(GetStr(obj, "topic", CFG_CH_NAME_LEN), "")
  {
    ObjectReads(obj, s, "topic");
    var v := FindValue(obj, "topic").text;
    hide FindValue;
    if v[0] == '"' {
      assert (v + s)[1..] == v[1..] + s;
      if '"' in v[1..] { FirstOf(v[1..], s, '"'); } else { NotWithin(v[1..], s, '"'); }
    }
  }

  lemma {:induction false} FirstOf(v: string, s: string, c: char)
    requires c in v
    ensures MemChr(v + s, c) == MemChr(v, c) && (v + s)[..MemChr(v, c).value] == v[..MemChr(v, c).value]
  {
    var n := MemChr(v, c).value;
    assert v + s == v[..n] + [c] + (v[n + 1..] + s);
    MemChrAfter(v[..n], c, v[n + 1..] + s);
  }

  lemma NotWithin(v: string, s: string, c: char)
    requires c !in v
    ensures MemChr(v + s, c).Some? ==> MemChr(v + s, c).value >= |v|
  {
    assert forall k :: 0 <= k < |v| ==> (v + s)[k] == v[k] != c;
  }

  lemma OwnFlagKept(obj: string, s: string)
    requires IsObject(obj) && OwnFlag(obj)
    ensures GetBool(obj + s, "enabled") == GetBool(obj, "enabled")
  {
    ObjectReads(obj, s, "enabled");
    var v := FindValue(obj, "enabled").text;
    hide FindValue;
    PrefixKept(v, s, "true");
    PrefixKept(v, s, "false");
  }

  lemma PrefixKept(v: string, s: string, w: string)
    requires IsObject(v) && '}' !in w
    ensures w <= v + s <==> w <= v
    ensures w <= v ==> |w| < |v|
  {
    if |w| >= |v| { assert w[|v| - 1] in w && (v + s)[|v| - 1] == '}'; }
  }

  /** An entry read from an object is the same whatever text follows exactly if the object gives both
      its own topic and its own flag. */
  lemma ObjectExactly(obj: string, name: string)
    requires IsObject(obj)
    ensures (forall s :: ParseObject(obj + s, name) == ParseObject(obj, name)) <==> OwnTopic(obj) && OwnFlag(obj)
  {
    hide GetBool, GetStr, OwnTopic, OwnFlag;
    if OwnTopic(obj) && OwnFlag(obj) {
      forall s ensures ParseObject(obj + s, name) == ParseObject(obj, name) {
        OwnTopicKept(obj, s);
        OwnFlagKept(obj, s);
      }
    } else if !OwnFlag(obj) {
      FlagBorrowed(obj, name);
    } else {
      TopicBorrowed(obj, name);
    }
  }

  /** One printed key with its value. */
  lemma ReadBack(key: string, g: string)
    requires QuoteFree(key) && |key| < CFG_STR_LEN && g != "" && !IsBlank(g[0])
    ensures FindValue(Quote(key) + (": " + g), key) == Here(g)
  {
    SkipBlankOver(": ", g);
    assert (Quote(key) + (": " + g))[|Quote(key)|..] == ": " + g;
  }

  lemma FlagBorrowed(obj: string, name: string)
    requires IsObject(obj) && !OwnFlag(obj)
    ensures exists s :: ParseObject(obj + s, name) != ParseObject(obj, name)
  {
    var s := Quote("enabled") + (": " + "false");
    ReadBack("enabled", "false");
    ObjectReads(obj, s, "enabled");
    hide FindValue, GetStr, Quote;
    assert ParseObject(obj + s, name).enabled != ParseObject(obj, name).enabled;
  }

  lemma TopicBorrowed(obj: string, name: string)
    requires IsObject(obj) && !OwnTopic(obj)
    ensures exists s :: ParseObject(obj + s, name) != ParseObject(obj, name)
  {
    hide FindValue, GetBool, Quote;
    var p := FindValue(obj, "topic");
    if p.Here? {
      var s := "\"";
      ObjectReads(obj, s, "topic");
      ClosedBehind(p.text);
      assert ParseObject(obj + s, name).topic == p.text[1..];
      assert ParseObject(obj, name).topic == "";
    } else {
      var s := Quote("topic") + (": " + "\"t\"");
      ReadBack("topic", "\"t\"");
      ObjectReads(obj, s, "topic");
      assert ParseObject(obj + s, name).topic == "t";
      assert ParseObject(obj, name).topic == "";
    }
  }

  /** A quote behind a text without one closes it. */
  lemma ClosedBehind(v: string)
    requires v != "" && '"' !in v[1..]
    ensures (v + "\"")[0] == v[0] && MemChr((v + "\"")[1..], '"') == Some(|v| - 1)
    ensures (v + "\"")[1..][..|v| - 1] == v[1..]
  {
    assert (v + "\"")[1..] == v[1..] + ['"'] + "";
    MemChrAfter(v[1..], '"', "");
  }

  /** An object that gives a flag only, and an object with a topic under the given name. */
  function FlagOnly(b: bool): string { "{ " + Render([Cell("enabled", ": " + (BoolText(b) + " }"))]) }

  function TopicEntry(name: string, topic: string): string
  { ", " + Render([Cell(name, ": { ")]) + (Quote("topic") + (": " + (Quote(topic) + " }"))) }

  /** Such inputs: a channel with a flag only gets the topic of the channel behind it. */
  lemma TopicOfTheNext(name: string, b: bool, next: string, topic: string, s: string)
    requires QuoteFree(next) && next != "topic" && QuoteFree(topic) && |topic| < CFG_CH_NAME_LEN
    ensures ParseObject(FlagOnly(b) + (TopicEntry(next, topic) + s), name).topic == topic
  {
    FlagOnlyHasNone(b);
    TopicIsRead(next, topic, s);
    TakesLater(FlagOnly(b), TopicEntry(next, topic) + s, name);
    hide GetStr, FindValue, FlagOnly, TopicEntry;
  }

  lemma FlagOnlyHasNone(b: bool)
    ensures IsObject(FlagOnly(b)) && !FindValue(FlagOnly(b), "topic").Here?
  {
    var own := Cell("enabled", ": " + (BoolText(b) + " }"));
    assert own.gap[0] == ':' && QuoteFree(own.tok) && |own.tok| == 7;
    hide BoolText;
    FindsNothing("{ ", [own], "topic");
    hide StrStr;
  }

  lemma TopicIsRead(next: string, topic: string, s: string)
    requires QuoteFree(next) && next != "topic" && QuoteFree(topic) && |topic| < CFG_CH_NAME_LEN
    ensures GetStr(TopicEntry(next, topic) + s, "topic", CFG_CH_NAME_LEN) == StrIs(topic)
  {
    var before := [Cell(next, ": { ")];
    var g := ": " + (Quote(topic) + (" }" + s));
    Finds(", ", before, "topic", g);
    hide StrStr, GetStr, Render;
    assert TopicEntry(next, topic) + s == ", " + Render(before) + (Quote("topic") + g);
    ReadsStr(TopicEntry(next, topic) + s, "topic", ": ", topic, " }" + s, CFG_CH_NAME_LEN);
  }
}
