# Verified model of the Pico micro-ROS bridge

The repository is a microcontroller bridge between GPIO/RC hardware and ROS 2: C firmware on
Zephyr, a Python teleop node, and the workspace script that orders installed packages. This
project states what its most intricate parts are for, as Dafny contracts and theorems, and proves
them. `dafny verify dfyconfig.toml` checks everything.

## What is modelled

**Configuration text** (`CStrings`, `JsonScan`, `ConfigText`, `ConfigKeys`, `ConfigStore`,
`ConfigRoundTrip`, `ConfigHead`, `ConfigSections`, `ConfigChannels`, `ConfigExact`, `ConfigSize`,
`ConfigCommands`, `ChannelScan`, `ChannelParams`, `Json`, `ConfigJson`, `ParamsJson`). Texts are character sequences and every search
is a real first-occurrence search, so a string value that spells a key does shadow the key. A C
pointer into a text is a suffix of it in the specifications and an index in the methods. The
printers run as chained `snprintf` calls into fixed buffers, the parsers as the hand-written loops.
A printed text is viewed as *cells*: a quoted token and the layout up to the next quote. That view
carries the round-trip proofs: what a search finds is the first cell whose token is the key. That
also decides when a string poses as a key: `ConfigExact.SaveLoadExactly` says exactly which
configurations come back from the file, quotes in strings included. `ConfigJson.TextIsJson` says what the
file is for other readers: a JSON document, which is given field by field. The channel table is proved to be a finite map over all runs of `config_set` exactly under a condition
on its commands, and the parameter cache to agree with the file.

**Receive ring** (`RxRing`). The chip is a class with a 16 KiB memory, free-running 16-bit pointers
and a schedule of frames that may arrive before any bus transaction. The driver, with its split
reads and fragment chain, refines a first-in first-out queue of frames.

**Channels and interrupts** (`PublishSteps`, `ChannelManager`). `PublishSteps` is a step system:
an edge may fire between any two steps of the main loop. The theorems quantify over all its runs.
`ChannelManager` is the firmware's code; every method is proved to be a stretch of such a run.

**Sessions and the watchdog** (`Session`, `Watchdog`, `Latency`). The client library is a ledger: which
objects and entities are live, and how many executor handles are used. A trace of calls is legal
only if parents precede children, nothing is finalised twice, handles stay within the capacity and
nothing is live when the reconnect loop starts over. The firmware's functions, with an arbitrary
result for every library call, produce only legal traces; lemmas say what that means. `Watchdog`
is the timed step system of the main loop with a bound on the time between feeds that is attained.
`Latency` runs it together with `PublishSteps`: it bounds the time between two passes of a session and
hence the age of the latest message of a channel.

**Package order** (`PackageOrder`). The topological sort, its pruning step and the cycle reducer.

**RC path** (`RcInput`, `Teleop`). Pulse capture across counter wrap, normalisation with its 16-bit
casts, the smoothing filter over reals, and the teleop node's mode and e-stop gating.

Environment answers (file system, library calls, agent pings, elapsed time, frames, edges,
sensor values) are parameters: arbitrary functions of a transaction or step counter.

### Where code and documentation differ

The model follows the code.

- The teleop docstring says zero velocity is published when RC input stops. The code repeats the
  mix of the last stick values on every tick (`Teleop.RepeatsLastMix`, and `Teleop.MixIsZero` for when
  that is zero).
- The interrupt path publishes channels whose `enabled` flag is off. `PublishSteps.IrqPassExact` says
  exactly which channels an interrupt pass sends, the flag not among the conditions, and
  `PublishSteps.DisabledExactly` exactly when a disabled channel sends anything.
- `config_load` does not validate the node name and namespace it reads; only `config_set` does
  (`ConfigStore.LoadsAnyName`; `ConfigStore.LoadKeepsNamesExactly` says when the names stay valid).
- `config_set channels.<name>` stores a name of 32 characters or more truncated and never finds it
  again (`ConfigKeys.LongNameDuplicates`); `ConfigKeys.RunRefinesExactly` gives the exact condition
  under which the table is a map.
- The trim difference is cast to 16 bits, so a centre in 33569..34968 makes the stick position
  jump; `RcInput.MonotoneExactly` gives the exact condition.
- A string equal to a key searched later hides that key (`ConfigHead.ShadowedFlagIsLost`).
  `ConfigHead.HeadExactly`, `ConfigChannels.TableExactly` and `ConfigSections.TrimExactly` say exactly
  when each part of the configuration is restored. Not every such string does harm: a network string
  "ros" is never searched for, and a ROS name "channels" leads to the table all the same.
- `config_set` accepts strings with a quote, and the printer does not escape it: no text gives back a
  configuration that holds one (`ConfigExact.RestoredIsReadable`); `ConfigHead.CutAtQuote` says what
  comes back instead.
- The searches for a channel's flag and topic run past its object: an object without its own takes
  those of a later one (`ChannelScan.TopicOfTheNext`); `ChannelScan.ObjectExactly` says exactly when
  the text behind an object does not matter.
- Twelve ordinary commands lead to a text longer than the I/O buffer, and the print runs out of
  bounds (`ConfigSize.OverrunRun`); `ConfigSize.TextSizeIs` gives the exact length and
  `ConfigSize.TableBudget` a limit on the table that rules this out.
- The first falling edge of an RC pin is measured from the counter's start if no rising edge came
  before it (`RcInput.FirstFallIsTaken`); `RcInput.WidthsExactly` gives the exact condition under which
  every width is the true one. A channel counts as valid for the first 500 ms without
  any pulse (`RcInput.Receiver.RcPwmValid`).

## Model

| member | source | states |
|---|---|---|
| CStrings.StrStrIsFirst | common/src/config/config.c:168-176 | the substring search stops at the first occurrence and nowhere earlier |
| CStrings.LeadingDigit | common/src/config/config.c:231-254 | in decimal notation the leading digit weighs most |
| CStrings.StrtolDec | common/src/config/config.c:231-254 | reading back a printed decimal number gives the number, whatever follows that is no digit |
| CStrings.StrtofDec2 | common/src/config/config.c:256-279 | reading back a number printed with two decimals gives it rounded to hundredths |
| CStrings.SurvivesTwoDecimals | common/src/config/config.c:285-353 | rounding to hundredths changes nothing exactly on multiples of a hundredth |
| CStrings.Snprintf | common/src/config/config.c:285-353 | chained prints leave in the buffer as much of the whole text as fits, NUL-terminated, and return the length of the whole text |
| JsonScan.SkipBlanks | common/src/config/config.c:174-177 | stops at the first character that is no blank |
| JsonScan.Seek | common/src/config/config.c:160-177 | finds the value behind the first quoted occurrence of a key, with its two error codes |
| JsonScan.JsonGetBool | common/src/config/config.c:160-186 | returns the value and code of the specification; on error the destination keeps its value |
| JsonScan.JsonGetStr | common/src/config/config.c:188-229 | returns the text up to the next quote if it fits, empties the destination when it does not, keeps it on the other errors |
| JsonScan.JsonGetInt | common/src/config/config.c:231-254 | returns the number read at the key as a 32-bit integer, or the error with the destination kept |
| JsonScan.JsonGetFloat | common/src/config/config.c:256-279 | returns the number with decimals read at the key, or the error with the destination kept |
| JsonScan.CopyToQuote | common/src/config/config.c:216-226 | the copy loop ends at the first quote, the end of the text or the capacity, whichever is first |
| JsonScan.Finds | common/src/config/config.c:160-172 | a search in printed text passes every cell that does not spell the key and stops at the key's own cell |
| JsonScan.FindsNothing | common/src/config/config.c:160-172 | a search for a key no token or gap spells finds nothing |
| JsonScan.ReadsStr | common/src/config/config.c:188-229 | a printed string is read back when it fits its field, and the field is emptied when it does not |
| JsonScan.ReadsBool | common/src/config/config.c:160-186 | a printed flag is read back |
| JsonScan.ReadsInt | common/src/config/config.c:231-254 | a printed number below 2^31 is read back |
| JsonScan.ReadsDec2 | common/src/config/config.c:256-279 | a number printed with two decimals is read back rounded to hundredths |
| ConfigKeys.IsValidName | common/src/config/config.c:58-77 | accepts exactly a letter followed by letters, digits and underscores |
| ConfigKeys.SegmentEnd | common/src/config/config.c:99-105 | stops at the first slash or the end |
| ConfigKeys.IsValidNamespace | common/src/config/config.c:83-125 | accepts exactly the root or one or more slash-led valid names of fewer than 48 characters |
| ConfigKeys.NamespaceMeans | common/src/config/config.c:83-125 | the namespace grammar as a set of texts equals what the segment loop checks |
| ConfigKeys.ErrorsChangeNothing | common/src/config/config.c:608-724 | every error return of config_set leaves the whole configuration as it was |
| ConfigKeys.EnabledRefines | common/src/config/config.c:676-694 | a flag command with a name that fits is the flag update on the map, refused for space only for a thirteenth name |
| ConfigKeys.TopicRefines | common/src/config/config.c:647-675 | a topic command is the topic update on the map, refused for space only for a thirteenth name |
| ConfigKeys.LongNameDuplicates | common/src/config/config.c:676-694 | setting one long name twice appends two entries under one truncated name |
| ConfigKeys.StepRefines | common/src/config/config.c:608-724 | one command keeps names unique and acts on the table as on the map, with the same refusals for space |
| ConfigKeys.StepRefinesExactly | common/src/config/config.c:608-724 | a command keeps the table unique and acts as on the map if and only if its flag name fits, its value is refused or the table is full |
| ConfigKeys.RunRefinesExactly | common/src/config/config.c:608-724 | over every run from an empty table: the table is the map of the last values after every command if and only if each command meets that condition |
| ConfigKeys.TableRefinesMap | common/src/config/config.c:608-724 | runs whose flag names fit leave unique names and exactly the map of the last values set |
| ConfigKeys.NamesStayValid | common/src/config/config.c:633-642 | after every run of commands the node name and namespace satisfy their grammars |
| ConfigStore.SettingsFromReset | common/src/config/config.c:131-151 | both run properties hold from the factory defaults |
| ConfigStore.ConfigStore.ResetDefaults | common/src/config/config.c:131-151 | the whole configuration becomes the factory defaults |
| ConfigStore.ConfigStore.ChannelEnabled | common/src/config/config.c:773-784 | on a unique table: the map's flag for a listed name, enabled for an unlisted one |
| ConfigStore.ConfigStore.ChannelTopic | common/src/config/config.c:786-798 | the first non-empty topic stored under the name, none without one; on a unique table the map's topic |
| ConfigStore.ConfigStore.SetKey | common/src/config/config.c:608-724 | the code and the whole new configuration are those of the specification the run theorems are about |
| ConfigStore.ConfigStore.ConfigToJson | common/src/config/config.c:285-353 | the buffer holds as much of the text as fits, and some print starts out of bounds exactly when the text before the last line is longer than the buffer |
| ConfigStore.ConfigStore.MatchBrace | common/src/config/config.c:397-413 | finds the brace that closes the section, exactly when there is one |
| ConfigStore.ConfigStore.ReadTurn | common/src/config/config.c:417-467 | one turn of the entry loop, with names and blanks looked for before the closing brace only |
| ConfigStore.ConfigStore.EntryLoop | common/src/config/config.c:415-467 | terminates with strictly decreasing distance to the brace and stores the specified entries |
| ConfigStore.ConfigStore.ParseChannelsSection | common/src/config/config.c:382-468 | the table becomes what the specification reads out of an arbitrary text |
| ConfigStore.ConfigStore.ParseRcTrim | common/src/config/config.c:474-528 | fields found in the scope are replaced, all others kept, and nothing changes without a scope |
| ConfigStore.ConfigStore.Load | common/src/config/config.c:534-573 | on success the configuration is the parse of the visible file over the old state, on any failure the defaults |
| ConfigStore.ConfigStore.Save | common/src/config/config.c:579-602 | on success the file is the printed text, on failure it is kept (or created empty), RAM never changes; the print is out of bounds exactly when the text is too long |
| ConfigStore.PrintsInsideExactly | common/src/config/config.c:285-353 | every print starts inside the buffer if and only if the text before the last line is no longer than it |
| ConfigStore.LoadKeepsNamesExactly | common/src/config/config.c:565-566 | loading keeps valid names valid if and only if the text holds, under either key, no string or a valid one |
| ConfigStore.LoadsAnyName | common/src/config/config.c:565-566 | any quote-free string under 48 characters becomes the node name, "9" among them |
| ConfigSize.TextSizeIs | common/src/config/config.c:285-353 | the text before the last line has exactly the length given by the strings, the table and the digits |
| ConfigSize.TableBudget | common/src/config/config.c:285-353 | a table and filter constant of at most 596 printed characters never overrun the buffer nor cut the trim block |
| ConfigSize.RunFits | common/src/config/config.c:608-724 | after every run of commands from the defaults the fields are within their sizes |
| ConfigSize.OverrunRun | common/src/config/config.c:285-353 | twelve accepted commands from the defaults after which the print runs out of bounds |
| ConfigRoundTrip.ScopeLength | common/src/config/config.c:486-499 | the printed trim block has at most 412 characters plus those of the filter constant, so for printable configurations the 512-byte scope check never skips it |
| ConfigRoundTrip.SectionEnd | common/src/config/config.c:397-413 | in printed text the brace count ends at the brace that was printed for the section |
| ConfigRoundTrip.ParsePrinted | common/src/config/config.c:415-467 | the entry loop over printed entries gives back exactly the printed channels |
| ConfigRoundTrip.ReadsScope | common/src/config/config.c:474-528 | the trim fields of a printed block are read back whatever RAM held |
| ConfigHead.HeadExactly | common/src/config/config.c:558-566 | network and ROS settings come back from every state of RAM if and only if no string equals a searched key printed behind it |
| ConfigHead.CutAtQuote | common/src/config/config.c:216-229 | if no value in front of a key holds a quote and none spells the key, its value comes back cut at its first quote |
| ConfigHead.ShadowedFlagIsLost | common/src/config/config.c:160-186 | with the MAC string "dhcp" the flag keeps what RAM held: the search stops at the string |
| ConfigChannels.ParsesNothing | common/src/config/config.c:415-467 | a block of tokens without objects and flags behind them yields no entry |
| ConfigChannels.NetworkShadow | common/src/config/config.c:386-395 | a network string that spells "channels" empties the table: the parser enters the ROS block |
| ConfigChannels.TableExactly | common/src/config/config.c:382-468 | the channel table comes back if and only if it is empty or no network string spells "channels" |
| ConfigSections.ReachesExactly | common/src/config/config.c:476-484 | the first brace behind the first "rc_trim" is the trim block's own if and only if the condition on the strings holds |
| ConfigSections.TrimMisses | common/src/config/config.c:474-528 | when the strings violate it, the first channel's lower trim keeps what RAM held |
| ConfigSections.TrimExactly | common/src/config/config.c:474-528 | the trim settings come back from every state of RAM if and only if the condition holds |
| ConfigExact.RestoredIsReadable | common/src/config/config.c:188-229 | no text restores, from every state of RAM, a configuration with a quote in a string, an overlong string, an unnamed channel or a thirteenth one |
| ConfigExact.ParsesExactly | common/src/config/config.c:534-573 | parsing the printed text restores the configuration from every state of RAM if and only if its strings hold no quotes and fit, no channel is unnamed and no string shadows a key |
| ConfigExact.SaveLoadExactly | common/src/config/config.c:285-602 | save then load restores the configuration from every state of RAM if and only if its strings hold no quotes and fit, no channel is unnamed, no string shadows a key and the text before the last line is shorter than the buffer |
| ConfigExact.SaveLoadRestores | common/src/config/config.c:285-602 | for printable configurations the loaded one is the saved one with the filter constant in hundredths, identical if and only if that is a multiple of a hundredth |
| ConfigCommands.NetworkCommand | common/src/config/config.c:618-632 | a network command named like a printed key changes the value printed behind that key and no other token |
| ConfigCommands.DhcpCommand | common/src/config/config.c:620-622 | the flag is set by "true" and "1" and cleared by every other value, nothing else changes |
| ConfigCommands.NetworkUnknown | common/src/config/config.c:618-632 | every other network command is refused and changes nothing |
| ConfigCommands.RosCommand | common/src/config/config.c:633-642 | a ROS command is accepted if and only if its value keeps to the grammar, and then changes the value printed behind its key and no other token |
| ConfigCommands.RosUnknown | common/src/config/config.c:633-642 | every other ROS command is refused and changes nothing |
| ConfigCommands.TrimCommand | common/src/config/config.c:695-719 | a trim command named like a printed trim key changes the number behind that key and no other |
| ConfigCommands.TrimUnknown | common/src/config/config.c:695-719 | every other trim command is refused and changes nothing |
| ConfigCommands.RunIsPrintable | common/src/config/config.c:608-724 | every run of harmless commands from the defaults ends in a printable configuration |
| ConfigCommands.SetSaveLoad | common/src/config/config.c:534-724 | reset, set, save, set anything, load gives back the saved configuration as long as the table keeps to its budget |
| ConfigJson.TextIsJson | common/src/config/config.c:285-353 | the printed text, blanks aside, is the JSON document that holds every field under its name |
| ConfigJson.FileIsJsonExactly | common/src/config/config.c:575-602 | the file a save leaves holds that document if and only if the text is no longer than the buffer |
| ParamsJson.ParamFileIsJson | common/src/config/config.c:846-901 | a saved parameter file is the JSON document of every channel's three values in order |
| ChannelScan.ObjectCloses | common/src/config/config.c:447-457 | the first closing brace of an object that starts inside the section lies inside the section |
| ChannelScan.TurnInSection | common/src/config/config.c:415-467 | on arbitrary text a turn stops exactly when fewer than two quotes are left before the closing brace, and never moves past it |
| ChannelScan.ChannelsStorable | common/src/config/config.c:382-468 | every text yields at most 12 entries with quote-free names of 1 to 31 characters and topics that fit |
| ChannelScan.ObjectReads | common/src/config/config.c:363-380 | a key inside an object is read there whatever follows; a key it lacks is read from the text behind |
| ChannelScan.TakesLater | common/src/config/config.c:363-380 | an object without a topic takes the first topic behind it, and one without a flag the first flag |
| ChannelScan.ObjectExactly | common/src/config/config.c:363-380 | the text behind an object does not matter to its entry if and only if the object has both keys and its topic is no string, closed inside or too long |
| ChannelScan.TopicOfTheNext | common/src/config/config.c:363-380 | a channel with a flag only gets the topic of the channel behind it |
| ChannelParams.ParamStore.Save | common/src/config/config.c:846-901 | succeeds exactly when there are entries, they fit and the file system agrees; then the file holds all of them untruncated and the cache is invalid |
| ChannelParams.ParamStore.Load | common/src/config/config.c:903-959 | every successful load equals a fresh parse of the file, cached or not, and the loaded flag means the cached text is the file's |
| ChannelParams.RestoresEntry | common/src/config/config.c:846-959 | reading any entry of a saved file gives the saved values over any defaults, up to key truncation and the positive-period rule |
| ChannelParams.ExactRoundTrip | common/src/config/config.c:846-959 | an entry is restored over all defaults if and only if its name has at most 34 characters and its period is in 1..2^31-1 |
| ChannelParams.ParamServer.SaveToConfig | common/src/bridge/param_server.c:257-272 | succeeds exactly when there are channels, they fit and the file system agrees; the file then holds every channel's current state |
| ChannelParams.ParamServer.LoadFromConfig | common/src/bridge/param_server.c:201-255 | with a readable file each channel gets the parse of its own keys over its own state; without a file nothing changes |
| ChannelParams.RestoresAll | common/src/bridge/param_server.c:201-272 | saving all channels and loading them into any states restores every saved state |
| RxRing.FirstByteLeads | modules/w6100_driver/drivers/ethernet/eth_w6100.c:200-207 | length prefix and pointers go with the more significant byte first |
| RxRing.CommandRoundTrip | modules/w6100_driver/drivers/ethernet/eth_w6100.c:27-75 | the chip decodes exactly the block, offset and direction the driver encoded: offset first, block in the top five bits of the control byte, direction in bit 2 |
| RxRing.WrapsAgree | modules/w6100_driver/drivers/ethernet/eth_w6100.c:97-107 | ring offsets of free-running 16-bit pointers agree across the 16-bit and the 16 KiB wrap |
| RxRing.FlatCat | modules/w6100_driver/drivers/ethernet/eth_w6100.c:206-207 | the ring content of a queue is the concatenation of its encoded frames, also across two queues |
| RxRing.Chip.Arrive | modules/w6100_driver/drivers/ethernet/eth_w6100.c:197-207 | exactly a frame the ring has room for joins the queue, behind all others; no pointer of the driver moves |
| RxRing.ReadBuf | modules/w6100_driver/drivers/ethernet/eth_w6100.c:97-120 | for every pointer value the one or two reads return exactly the bytes at that place of the queue, while frames arrive |
| RxRing.FillOne | modules/w6100_driver/drivers/ethernet/eth_w6100.c:221-240 | one fragment gets as many of the next bytes as it has room for |
| RxRing.FillNext | modules/w6100_driver/drivers/ethernet/eth_w6100.c:221-242 | one turn extends what the fragments hold of the oldest frame by what the next one has room for |
| RxRing.Fill | modules/w6100_driver/drivers/ethernet/eth_w6100.c:218-242 | the loop spreads exactly the oldest frame over the fragments, none beyond its room |
| RxRing.Peek | modules/w6100_driver/drivers/ethernet/eth_w6100.c:197-207 | the registers and the prefix give the place and length of the oldest frame |
| RxRing.Rx | modules/w6100_driver/drivers/ethernet/eth_w6100.c:184-251 | hands up exactly the oldest frame and releases exactly it, or, only without a frame or a buffer, changes nothing |
| PublishSteps.WireMeans | common/src/bridge/channel_manager.c:79-145 | a published boolean is the value read if and only if the channel is not inverted, a number is the value read; the same for what a callback hands to write; no other payload is |
| PublishSteps.SentCarries | common/src/bridge/channel_manager.c:79-108 | the step behind a claim sends one message, which carries what the channel read in that step |
| PublishSteps.EchoExactly | common/src/bridge/channel_manager.c:79-145 | a command read back is published as received if and only if the channel carries no boolean or its inversion was not switched in between |
| PublishSteps.SaneRun | common/src/bridge/channel_manager.c:193-364 | in every run stamps stay behind the clock, unregistered slots stay clear and only connected readable channels are claimed |
| PublishSteps.NoSignalLost | common/src/bridge/channel_manager.c:336-362 | after an accepted edge, in every interleaving: the bit is set, a read is under way, or one that began later has been sent |
| PublishSteps.SignalsConserved | common/src/bridge/channel_manager.c:336-362 | accepted edges are exactly those sent, those merged into a pending one and those still owed |
| PublishSteps.IrqPassExact | common/src/bridge/channel_manager.c:336-351 | a complete interrupt pass sends exactly the connected interrupt channels whose bit was set when it began or by an accepted edge before it came to them, once each, enabled or not |
| PublishSteps.QuietIrqPassExact | common/src/bridge/channel_manager.c:336-351 | without interrupts meanwhile, exactly the connected interrupt channels with their bit set |
| PublishSteps.MuteIsSilent | common/src/bridge/channel_manager.c:341-343 | in any run a channel that is not interrupt-capable, or not connected, sends nothing on the interrupt path whatever edges raise it |
| PublishSteps.DisabledExactly | common/src/bridge/channel_manager.c:318-351 | over a complete interrupt pass a disabled channel is silent if and only if it is not connected, not capable, or neither pending nor raised in time |
| PublishSteps.PassServes | common/src/bridge/channel_manager.c:336-351 | a complete interrupt pass sends every connected interrupt channel whose bit was set when it began, enabled or not |
| PublishSteps.PassSendsOnce | common/src/bridge/channel_manager.c:318-351 | a pass sends each channel at most once and only on its own path |
| PublishSteps.PeriodicPassExact | common/src/bridge/channel_manager.c:318-334 | a complete periodic pass sends exactly the connected enabled channels whose period has run out, once each |
| PublishSteps.SentAfterReconnect | common/src/bridge/channel_manager.c:193-267 | a signal raised while disconnected is sent by the first interrupt pass that finds the publisher connected |
| PublishSteps.DisabledIsNotPeriodic | common/src/bridge/channel_manager.c:318-334 | a disabled channel sends nothing on the periodic path in any run |
| PublishSteps.PeriodicGap | common/src/bridge/channel_manager.c:318-351 | a periodic claim is stamped at least one period after the channel's previous publish of either kind |
| PublishSteps.NeverLate | common/src/bridge/channel_manager.c:318-334 | with passes at most d apart no pass starts more than p + d behind the latest publish of an enabled channel of period p |
| PublishSteps.ReportedWithin | common/src/bridge/channel_manager.c:318-334 | after any moment the channel publishes again within p + d |
| PublishSteps.DroppedEdgeReported | common/src/drivers/drv_gpio.c:13-32 | an edge the debounce drops raises nothing on its channel, which still sends within p + d, on the periodic path if nothing else raises it |
| PublishSteps.EdgeCounts | common/src/drivers/drv_gpio.c:13-32 | an edge 50 ms or more after the last accepted one of its pin sets the bit of its channel, an earlier one changes nothing |
| PublishSteps.AcceptedApart | common/src/drivers/drv_gpio.c:13-32 | two accepted edges of one pin are at least 50 ms apart |
| ChannelManager.Manager.Reachable | common/src/bridge/channel_manager.c:25-46 | every state of the firmware is one the step system reaches |
| ChannelManager.Manager.SignalIrq | common/src/bridge/channel_manager.c:357-362 | sets the bit of a registered index and nothing else |
| ChannelManager.Manager.GpioIsr | common/src/drivers/drv_gpio.c:15-32 | is exactly the edge step: 50 ms after the last accepted edge it sets the channel's bit, earlier it changes nothing |
| ChannelManager.Manager.Interrupts | common/src/drivers/drv_gpio.c:15-32 | exactly the edges that fired become edge steps, in order; settings are untouched |
| ChannelManager.Manager.PerformPublish | common/src/bridge/channel_manager.c:79-108 | sends one message that carries what the channel reads after the claim, a boolean negated if and only if the channel is inverted, and is exactly the publish step |
| ChannelManager.Manager.SubCallback | common/src/bridge/channel_manager.c:114-145 | a registered channel with a write gets the message's number, or its boolean negated if and only if the channel is inverted; nothing else is written |
| ChannelManager.Manager.HandleIrqPending | common/src/bridge/channel_manager.c:336-351 | is one complete pass of the step system: every connected interrupt channel with its bit set sends once, none twice, none that is not connected or not capable, nothing periodic, each message carrying what its channel read in the pass |
| ChannelManager.Manager.Publish | common/src/bridge/channel_manager.c:318-334 | is one complete pass of the step system: exactly the channels that are due send once each, each message carrying what its channel read in the pass |
| ChannelManager.Manager.Register | common/src/bridge/channel_manager.c:152-174 | refuses the seventeenth channel and a missing descriptor unchanged, else appends it enabled, not inverted, not pending and with its own period |
| ChannelManager.Manager.SetPeriod | common/src/bridge/channel_manager.c:368-373 | sets the period of a registered index only |
| ChannelManager.Manager.CreatePublishers | common/src/bridge/channel_manager.c:193-249 | exactly the channels that can publish and whose publisher is created are connected, their period starting now; pending bits survive |
| ChannelManager.Manager.DestroyPublishers | common/src/bridge/channel_manager.c:251-267 | no publisher stays connected; pending bits survive |
| Session.FinalisedByTop | common/src/main.c:291-380 | in a legal trace every entity created before the loop starts over is finalised by then, exactly once, before its node and support |
| Session.NodeBeforeSupport | common/src/main.c:291-380 | a node is finalised exactly once and before its support |
| Session.Balanced | common/src/main.c:291-380 | creations and finalisations of an entity balance up to whether it is live |
| Session.WithinCapacity | common/src/main.c:322-347 | no legal trace gives the executor more handles than it was made for |
| Session.SubHandlesAre | common/src/bridge/channel_manager.c:285-312 | the subscriptions with a handle are exactly the active ones with no refused active one at or before them |
| Session.Session.CreateEntities | common/src/bridge/channel_manager.c:193-249 | exactly the channel entities whose creation succeeds are live and flagged |
| Session.Session.DestroyEntities | common/src/bridge/channel_manager.c:251-267 | finalises every live channel entity once |
| Session.Session.SubCount | common/src/bridge/channel_manager.c:273-283 | counts the active subscriptions |
| Session.Session.AddSubs | common/src/bridge/channel_manager.c:285-312 | gives handles, in order, to exactly the active subscriptions in front of the first refused one, and succeeds exactly when there is none |
| Session.Session.InitService | common/src/bridge/service_manager.c:179-229 | a service is active exactly when it got a handle; a refused one is finalised at once |
| Session.Session.ServiceManagerInit | common/src/bridge/service_manager.c:173-232 | exactly the services that end up active get a handle, one each, in order |
| Session.Session.ServiceManagerFini | common/src/bridge/service_manager.c:234-243 | finalises every active service once |
| Session.Session.DiagnosticsInit | common/src/bridge/diagnostics.c:111-124 | the publisher is live and flagged exactly when its creation succeeds |
| Session.Session.DiagnosticsFini | common/src/bridge/diagnostics.c:181-189 | finalises the publisher once if it is live |
| Session.Session.Init | common/src/main.c:291-363 | succeeds exactly when support, node and executor do, with exactly the entities whose calls succeed and capacity max(1, subscriptions + services), and a handle for every subscription in front of the first refused one and every active service; every failure exit leaves nothing behind |
| Session.Session.Close | common/src/main.c:365-380 | leaves nothing behind, with every finalisation legal, and does nothing without a session |
| Session.Bridge.Search | common/src/main.c:402-414 | the search loop follows the timed step system and ends exactly with the first ping that is answered |
| Session.Bridge.ServePass | common/src/main.c:436-464 | a pass of the run loop follows the timed step system, pings exactly when the last ping is a second old, and is the last exactly if that ping fails |
| Session.Bridge.Run | common/src/main.c:386-472 | over every run of the reconnect loop, followed for any number of turns, the trace of library calls is legal and consecutive feeds stay within the bound |
| Session.Clock.WatchdogFeed | common/src/main.c:89-94 | every feed is within the bound of the previous one |
| Watchdog.FedInTime | common/src/main.c:386-472 | in every run each feed is at most the bound after the previous one |
| Watchdog.BoundAttained | common/src/main.c:386-472 | for all limits some run has two feeds exactly the bound apart |
| Watchdog.NeverLater | common/src/main.c:386-472 | at every moment of every run the last feed is at most the bound ago |
| Watchdog.PingsDecide | common/src/main.c:386-472 | a session is tried exactly after an answered ping of the search and given up exactly after an unanswered one of the run loop |
| Watchdog.NothingPutOff | common/src/main.c:442-461 | in every run, whenever a turn of the run loop rests, the last ping is under one second and the last diagnostics under five seconds older than its feed |
| Watchdog.DuesApart | common/src/main.c:442-461 | two pings of the run loop are at least one second apart, two diagnostics at least five, over all runs and sessions |
| Watchdog.NeverExpires | common/src/main.c:43-46 | no state of any run reaches the 8 s timeout if and only if the bound is under it |
| Latency.ServesApart | common/src/main.c:430-461 | two consecutive serves of one session start at most 201 + serve + diag ms apart |
| Latency.SessionSpaced | common/src/main.c:430-461 | the periodic passes of a session sample the clock at most 201 + 2 serve + diag ms apart, and the latest is never older than a turn |
| Latency.NeverStale | common/src/main.c:430-461 | at every point of a session a connected enabled channel published last at most its period and 201 + serve + diag ms ago |
| Latency.ReportedInSession | common/src/main.c:430-461 | if the session lasts one period and one turn after any moment, a dropped edge included, the channel has published since, before any pass later than p + 201 + 2 serve + diag |
| PackageOrder.GreedyIsLeast | host_ws/install/_local_setup_util_sh.py:133-143 | picking the least ready name gives the lexicographically least valid order |
| PackageOrder.CycleIsStuck | host_ws/install/_local_setup_util_sh.py:134-139 | the packages of a cycle can never become ready, and each has a dependent on the cycle |
| PackageOrder.StuckHasCycle | host_ws/install/_local_setup_util_sh.py:136-139 | packages none of which can come first contain a cycle |
| PackageOrder.OrderableIffAcyclic | host_ws/install/_local_setup_util_sh.py:121-148 | a valid order excludes every cycle, and a non-empty stuck set has one |
| PackageOrder.ReportHoldsCycles | host_ws/install/_local_setup_util_sh.py:136-139 | the reported packages include every cycle and are not empty |
| PackageOrder.LeqIsAlphabetical | host_ws/install/_local_setup_util_sh.py:140-141 | the order of names is the alphabetical one: a prefix first, else the lower character at the first difference |
| PackageOrder.Least | host_ws/install/_local_setup_util_sh.py:140-141 | the first of the sorted ready names is the alphabetically first |
| PackageOrder.Packages.Prune | host_ws/install/_local_setup_util_sh.py:100-103 | exactly the dependencies on known packages remain |
| PackageOrder.Packages.ReduceCycleSet | host_ws/install/_local_setup_util_sh.py:151-173 | terminates with the greatest set in which every package has a dependent inside |
| PackageOrder.Packages.DropDependency | host_ws/install/_local_setup_util_sh.py:144-147 | removes one name from every dependency set and changes nothing else |
| PackageOrder.Packages.OrderPackages | host_ws/install/_local_setup_util_sh.py:121-148 | a valid greedy order, or the sorted packages that hold the cycles among those no order can place |
| PackageOrder.Packages.OrderWorkspace | host_ws/install/_local_setup_util_sh.py:100-148 | raises exactly when the pruned graph has a cycle; otherwise the alphabetically least of all valid orders; the error report is sorted alphabetically |
| RcInput.ElapsedIsTrue | common/src/drivers/drv_pwm_in.c:15-21 | the 32-bit difference is the true pulse length if and only if the pulse is shorter than one turn of the counter |
| RcInput.MicrosIsTrue | common/src/drivers/drv_pwm_in.c:21-21 | from one megahertz up the conversion to microseconds does not wrap |
| RcInput.MonotoneExactly | apps/rc/src/rc.c:48-76 | a larger pulse never gives a smaller position if and only if the centre avoids 33569..34968 or there is no half range, for all trims and deadzones |
| RcInput.EndPointsExactly | apps/rc/src/rc.c:48-76 | ordered trims map their ends and centre to -1, 1 and 0 if and only if the deadzone, read as signed, exceeds neither half range |
| RcInput.Proportional | apps/rc/src/rc.c:48-76 | between the end points and outside the deadzone the position is the fraction of its half range |
| RcInput.LossForgets | apps/rc/src/rc.c:43-46 | after a signal loss all outputs depend on later samples only |
| RcInput.StaysInHull | apps/rc/src/rc.c:78-91 | outputs stay within the hull of the samples since the last reset |
| RcInput.ErrorDecays | apps/rc/src/rc.c:78-91 | n equal samples leave exactly the (1 - alpha)^n-th part of the initial error in the held state |
| RcInput.OutputsAreStates | apps/rc/src/rc.c:41-92 | over any samples every output is the new held state, zero on a lost signal, and the sample itself from alpha 1 on |
| RcInput.OutputsDecay | apps/rc/src/rc.c:78-91 | the k-th of n equal samples comes out with exactly the (1 - alpha)^k-th part of the initial error |
| RcInput.WidthIsTrue | common/src/drivers/drv_pwm_in.c:15-21 | the width computed for a pulse is the time between its rising and falling edge, wherever the counter wraps |
| RcInput.WidthExactly | common/src/drivers/drv_pwm_in.c:15-21 | the width computed at a falling edge is the true one if and only if a rising edge began the pulse less than one turn of the counter before |
| RcInput.WidthsExactly | common/src/drivers/drv_pwm_in.c:8-28 | over a run every computed width is the true one if and only if every falling edge ends such a pulse |
| RcInput.StoredIsTrue | common/src/drivers/drv_pwm_in.c:8-28 | over every run whose falling edges end pulses shorter than one turn of the counter, the stored width is the true one of the latest pulse of 800..2200 us, and no later pulse is in range |
| RcInput.FirstFallIsTaken | common/src/drivers/drv_pwm_in.c:17-27 | a falling edge with no rising edge before it is measured from the counter's start, and 1.5 ms after it stores a pulse that has no true width |
| RcInput.Receiver.StoredIsPlausible | common/src/drivers/drv_pwm_in.c:23-26 | every stored pulse is in 800..2200 us |
| RcInput.Receiver.PwmIsr | common/src/drivers/drv_pwm_in.c:8-28 | the fields stay what the edges so far make of them; a pulse in range and shorter than one turn is stored with its true width |
| RcInput.Capture | common/src/drivers/drv_pwm_in.c:8-28 | a receiver that sees a measurable run of edges from its start ends up with the true width and end time of the latest pulse in range |
| RcInput.Receiver.RcPwmValid | common/src/drivers/drv_pwm_in.c:75-78 | after any edges a channel is valid at t if and only if t is less than 500 ms after the latest edge that ended a stored pulse, or under 500 ms when there was none |
| RcInput.Normalize | apps/rc/src/rc.c:48-76 | computes the position the monotonicity and end-point theorems are about |
| RcInput.Receiver.RcNormalize | apps/rc/src/rc.c:41-92 | is one filter step on that position, returns the new held state, zero without a signal or the position itself from alpha 1 on, touches no other channel, and stays in -1..1 |
| Teleop.StickMonotone | host_ws/src/roboclaw_tcp_adapter/roboclaw_tcp_adapter/rc_teleop_node.py:108-118 | the stick value is monotone and odd around its centre, deadzone and clamp included |
| Teleop.StickIs | host_ws/src/roboclaw_tcp_adapter/roboclaw_tcp_adapter/rc_teleop_node.py:108-118 | the stick value is zero inside the deadzone, the deflection up to the stops and full deflection beyond; it is zero if and only if the stick rests |
| Teleop.TickSendsZeroExactly | host_ws/src/roboclaw_tcp_adapter/roboclaw_tcp_adapter/rc_teleop_node.py:108-159 | a tick in RC mode sends a zero if and only if the e-stop is active, the tank separation is zero, or every stick with a speed to command rests |
| Teleop.TankRecovers | host_ws/src/roboclaw_tcp_adapter/roboclaw_tcp_adapter/rc_teleop_node.py:150-154 | the wheel speeds recovered from a tank twist are the stick commands and never exceed the maximum |
| Teleop.ArcadeBounded | host_ws/src/roboclaw_tcp_adapter/roboclaw_tcp_adapter/rc_teleop_node.py:155-157 | each stick commands its share of its own limit, so neither speed of an arcade twist exceeds it |
| Teleop.NonZeroMeansReleased | host_ws/src/roboclaw_tcp_adapter/roboclaw_tcp_adapter/rc_teleop_node.py:126-159 | after any events a non-zero message needs the timer, RC mode and a released e-stop, and is the mix of the latest stick values |
| Teleop.NothingBeforeRelease | host_ws/src/roboclaw_tcp_adapter/roboclaw_tcp_adapter/rc_teleop_node.py:59-62 | before the first release message only zeros are sent |
| Teleop.RepeatsLastMix | host_ws/src/roboclaw_tcp_adapter/roboclaw_tcp_adapter/rc_teleop_node.py:142-159 | after any events ending in RC mode with the e-stop released, n further ticks send n copies of the mix of the last stick values |
| Teleop.MixIsZero | host_ws/src/roboclaw_tcp_adapter/roboclaw_tcp_adapter/rc_teleop_node.py:150-157 | that mix is zero if and only if both stick values that count are, or their top speeds |
| Teleop.EndsAtZero | host_ws/src/roboclaw_tcp_adapter/roboclaw_tcp_adapter/rc_teleop_node.py:162-171 | a program that has ended, by the interrupt or an exception, sent a zero last and sends nothing more whatever happens |
| Teleop.ZeroSeparationEnds | host_ws/src/roboclaw_tcp_adapter/roboclaw_tcp_adapter/rc_teleop_node.py:154-154 | with a zero wheel separation in tank mode the next tick ends the program if and only if RC mode is on and the e-stop released |
| Teleop.MessagesCounted | host_ws/src/roboclaw_tcp_adapter/roboclaw_tcp_adapter/rc_teleop_node.py:129-171 | every message is one mode change, one timer tick in RC mode or the interrupt that ends the program |
| Teleop.SilentInRos | host_ws/src/roboclaw_tcp_adapter/roboclaw_tcp_adapter/rc_teleop_node.py:142-144 | while the mode stays ROS and the program runs nothing is sent |
| Teleop.Remembers | host_ws/src/roboclaw_tcp_adapter/roboclaw_tcp_adapter/rc_teleop_node.py:120-135 | while the program runs the fields are the latest message of each topic |
| Teleop.Node.ModeSwitchCallback | host_ws/src/roboclaw_tcp_adapter/roboclaw_tcp_adapter/rc_teleop_node.py:129-135 | keeps fields and messages those of the event sequence: one zero exactly on a change |
| Teleop.Node.PublishTwist | host_ws/src/roboclaw_tcp_adapter/roboclaw_tcp_adapter/rc_teleop_node.py:142-159 | raises exactly on a zero wheel separation in tank mode while driving, before publishing; otherwise keeps fields and messages those of the event sequence |
| Teleop.Node.Run | host_ws/src/roboclaw_tcp_adapter/roboclaw_tcp_adapter/rc_teleop_node.py:162-173 | over the whole life of the node exactly the messages the events call for are sent |

## Left out

- File system: LittleFS is an atomic whole-file write; `config_init`, mounting and the migration of files are not part of this model.
- Numbers: floats are reals; `strtof` exponents, hexadecimal, infinities and NaN, and IEEE rounding are not modelled.
- ConfigStore.ConfigStore.ConfigToJson: stops at the first print that starts beyond the 1536-byte buffer and reports it; what the C print then overwrites is undefined and not modelled.
- ConfigExact.SaveLoadExactly: leaves out channel names and topics with braces, because the search for the section's end counts them, and filter constants that print in 98 characters or more, which no C float does; braces in network and ROS strings only if one of these strings spells "channels" or "rc_trim".
- ConfigJson.TextIsJson: takes a JSON string to be whatever stands between two quotes; a backslash or control character is printed as it is, which other readers may take for an escape or refuse.
- NULL arguments of `config_set`, `config_channel_*` and the out-pointers of `channel_params_load`.
- Format strings are written as tokens and gaps; log output and `config_print` are left out.
- RxRing.Rx: command completion polling, SPI errors and the network stack refusing a packet are not modelled; the `net_buf` chain is a sequence of buffers.
- RxRing.Chip.Arrive: what the chip does with a frame that does not fit is taken to be a drop.
- W6100 transmission, link status, chip start-up and its interrupt thread.
- Session.Session.Init: the exit for a negative result of `channel_manager_create_entities` is not modelled, because that function returns 0 for non-null arguments; the parameter load it ends with is modelled in ChannelParams.
- Session.Bridge.Run: is followed for any given number of turns of its loops, as the firmware's loop does not end; sleeps take exactly their nominal time.
- The publisher side of channels appears twice: with its timing in ChannelManager, with its place in the entity ledger in Session.
- Topic override strings, message type support, the subscription executor and its callbacks' dispatch; only the value conversion of callbacks is modelled.
- Service and diagnostics message contents, the live parameter server (disabled in the firmware), shell commands, LED, MAC and network start-up.
- The publishing rate of the teleop node's timer, and ROS time stamps of its messages.
- Receiver hardware errors in `rc_pwm_init`, and switch thresholds of the RC application.
- `.dsv` processing, directory scanning and environment output of the workspace script; its PowerShell twin has the same functions.
