# libuwifi, verified core

A Dafny model of the parts of libuwifi in which state is easiest to get wrong, with proofs of what they are meant to keep:

- **The node table** (`core/node.c`, `core/essid.c`, on the rings of `include/uwifi/cc_list.h`). Every frame finds or creates a
  node by MAC address and folds statistics into it; stations are linked to access points, nodes to ESSIDs, and a timeout
  sweep unlinks and frees old nodes while iterating. The table is described twice: as one value (`Table`, with `Membership`,
  `ApGraph` and `EssidGraph` below it), over which invariants, whole runs, wrapping clocks and histories are proved
  (`World`, `Staleness`, `History`, `Association`); and on the heap (`Nodes`, `HeapView` and the modules that start with
  `Heap`), where the methods follow the C code pointer by pointer and are proved to compute exactly those values. `HeapRun`
  joins the two: whatever a client calls, from two empty lists on, the heap holds the table of the corresponding run.
- **Intrusive rings** (`CcList`): the list operations as sequence operations that touch no other ring, and the
  consistency check on arbitrary finite heaps.
- **Channel hopping** (`Channels`, `ChannelCapab`, `ChannelHop`, `ChannelDriver`, `ChannelGeometry`): the capability pass, the
  walk over the channel list, the dwell-timed driver with its retries, and where on the air a proposed channel lies.
- **Frames** (`Wlan`, `Elements`, `Capabilities`, `FrameParser`, `FrameFormats`, `FrameBuilder`, `Standards`): the 802.11 header
  and element parser as a fold, and the encodings it undoes: those of all data, control and management frames and of what a
  station announces in its elements (IEEE 802.11-2016 sections 9.2.3, 9.2.4, 9.3 and 9.4), and the library's own builder.
- **The fixed-point average** (`Ewma`): word arithmetic with wrap-around, its documented limit, and the distance from the
  exact rational average.

How the model is built. A node or ESSID is a heap object with its links as parts; `container_of` is the field `obj` of a
link, and `offset` says which member of the container the link is. A `View` is a ghost value: the table, the heads
of its two lists and the objects that belong to it; `Check(v)` is `Intact` when the heap holds that table, and depends on
those objects alone. An object is freed by leaving the table; nothing is ever assumed about an object outside it. `malloc`
appears as a fresh object on the heap, and in the value model as an address that, if it is needed, no live object has
(`spare`). The clock, the driver's answer to a channel change and the
microsecond time are parameters; true time is an unbounded number that the code sees modulo 2^32. `unsigned` fields wrap
explicitly, `unsigned long` is 64 bits wide, bit masks are the sets of their bits, and plain fields of a struct that are
written together are grouped in records. The order of independent field assignments inside one C function may differ.

Where the code and its own comments disagree, the model follows the code:

- Retries after an error are said to go to other channels (`core/channel.c:344`): a failed change leaves the position alone,
  so from the second attempt on the same channel is proposed again (`ChannelDriver.RetriesRepeat`).
- A block is said to be accepted if all its channels exist (`core/channel.c:158`): the top 20 MHz channel is not looked at
  (`Channels.BlockBelowTop`), and the upper 160 MHz block is unreachable (`core/channel.c:69`).
- The check of a proposed channel is said never to fail (`core/channel.c:304`): that holds exactly if every promised neighbour
  channel is listed, which channel 14 next to channel 10 shows is not automatic (`ChannelHop.NextVerifies`,
  `ChannelHop.NextVerifiesOnlyIfPaired`, `ChannelCapab.Channel14Unpaired`).
- ESSID names are unique exactly as long as names are storable, which all names that end inside their buffer are; an
  unterminated buffer can double a name (`EssidGraph.UpdateKeeps`, `Association.UnterminatedNameIsDoubled`).
- A QoS frame is one whose subtype equals 8 (`include/uwifi/wlan80211.h:66`), so the header of the other QoS frames is taken to
  be shorter than it is (`FrameFormats.AssumedIsTrue`), and the QoS class of a four-address frame is read where the fourth
  address lies (`core/wlan_parser.c:231-233`, `FrameFormats.ClassOf`).
- The attempts of one channel change are said to be twice the number of allowed channels (`core/channel.c:328`): they are twice
  the index of `channel_max`, which can be two short of a round (`ChannelDriver.TriesFallShort`).
- A rate index up to 6 is taken for 802.11b (`core/wlan_util.c:310`), which 6 and 9 Mb/s are not (`Standards.RateGuess`), and the
  last supported rate of a built frame is 54 Mb/s, not 64 (`core/inject.c:14`, `Standards.SupportedRates`).

## Model

| member | source | states |
|---|---|---|
| CcList.HeadInit | include/uwifi/cc_list.h:156-159 | makes an empty ring; no other ring is touched |
| CcList.Add | include/uwifi/cc_list.h:175-184 | inserts a free link at the front of a ring; no other ring is touched |
| CcList.AddTail | include/uwifi/cc_list.h:197-206 | inserts a free link at the end of a ring, also an empty one; no other ring is touched |
| CcList.Del | include/uwifi/cc_list.h:260-269 | takes a link out of whatever ring it is on, knowing only the link; all other elements keep their order and no other ring is touched |
| CcList.DelFrom | include/uwifi/cc_list.h:285-300 | the same, and its emptiness assertion never fails |
| CcList.Empty | include/uwifi/cc_list.h:218-222 | is true exactly of a ring without elements |
| CcList.AppendList | include/uwifi/cc_list.h:503-519 | concatenates two rings, either of which may be empty; the second is empty afterwards and no third ring is touched |
| CcList.PrependList | include/uwifi/cc_list.h:535-551 | the same in front |
| CcList.CheckNode | core/cc_list.c:20-36 | terminates on every finite heap of links and succeeds exactly if the link lies on a next-cycle of distinct links whose prev pointers are its inverse |
| CcList.WalkedApart | core/cc_list.c:26-30 | links that passed the prev test are distinct, so a cycle that misses the start is noticed |
| CcList.WalkFollowsChain | core/cc_list.c:26-35 | the walk runs along every well-formed chain from the start, so a consistent list is never rejected |
| Membership.LeftKeeps | core/node.c:234-235 | rings with back pointers stay consistent when a member leaves |
| Membership.JoinKeeps | core/node.c:242-243 | and when one joins |
| Membership.DetachEmpties | core/node.c:280-283 | taking the first member off until none is left empties the ring, clears exactly the pointers to its owner and changes nothing else |
| ApGraph.EvictRemoves | core/node.c:267-283 | an evicted node is on no ring and nobody's AP any more, even if it was its own AP; all other links stay |
| ApGraph.EvictTrims | core/node.c:262-286 | evictions one after the other leave every ring with its remaining stations in order and no pointer to a removed AP |
| EssidGraph.ScanFindsAny | core/essid.c:31-42 | comparing each counting member only with the one before it finds a difference if there is any between two of them |
| EssidGraph.SplitMeansDivided | core/essid.c:20-46 | the computed split status says exactly whether two members that are neither AP nor PROBE have different BSSIDs |
| EssidGraph.DividedMeansTwo | core/essid.c:35-41 | that is, two members wherever on the ring whose modes have neither the AP nor the PROBE bit |
| EssidGraph.RemoveNodeRemoves | core/essid.c:48-72 | removal takes the node out of its group, deletes the group exactly if it was the last member, leaves all other groups alone and recomputes count and status of its own |
| EssidGraph.RemovalSettles | core/essid.c:59-71 | after a removal that leaves the group nonempty its split status is exact |
| EssidGraph.UpdateMoves | core/essid.c:91-125 | an update puts the node into the group of that name, found or new, after taking it out of any other; other groups keep their names and stay nonempty and counted |
| EssidGraph.UpdateSettles | core/essid.c:110-125 | afterwards the node is in the group of that name and the group's split status is exact |
| EssidGraph.UpdateOrdersRing | core/essid.c:99-113 | a new ESSID is the last of the list, and the one the node was alone in is gone from it |
| EssidGraph.UpdateOrdersMembers | core/essid.c:110-123 | the node is the last of its new group, or where it was if that is its old one; every ring keeps the order of its other nodes |
| EssidGraph.UpdateKeeps | core/essid.c:92-108 | names stay unique and groups counted exactly if no other group that survives uses the truncated form of the name |
| EssidGraph.TerminatedIsStorable | core/essid.c:104-105 | a name that ends inside its buffer is always safe in that sense |
| EssidGraph.RemoveTrims | core/essid.c:48-72 | removals one after the other leave every group with its remaining members in order, drop the emptied ones and keep the others' status current |
| EssidGraph.StoredInBuf | core/essid.c:104-105 | strncpy and the final NUL store the name, cut to 33 bytes |
| NodeInfo.FoldsSent | core/node.c:20-110 | signal and retry records depend on the packets the node sent alone, in their order |
| NodeInfo.CountsFrames | core/node.c:23-29 | packet counts, the receive-only mark and the time last seen are those of the history |
| NodeInfo.CountsSamples | core/node.c:70 | every sent packet is one signal sample |
| NodeInfo.CountsRetries | core/node.c:88-95 | the retry counters are the trailing run and the number of all retries among packets with a sequence number, bounded by the packets sent |
| NodeInfo.TrailingRunIsLongest | core/node.c:89-93 | that run is the longest suffix of retries of one packet |
| NodeInfo.TracksMaximum | core/node.c:72-73 | for negative signals the recorded maximum is the true one |
| NodeInfo.AveragesSignal | core/node.c:68 | the recorded average is the moving average of the negated signals |
| NodeInfo.AverageAboveMaximum | core/node.c:68-73 | for negative signals the average that is read is at least the negated maximum, without wrap-around |
| NodeInfo.SignalIsLast | core/node.c:66-69 | signal and rate are those of the last packet sent, and the sum that of all negated signals as an unsigned long |
| NodeInfo.TypesAreUnion | core/node.c:30 | the packet types seen are those of all frames of the history, sent or received |
| NodeInfo.FoldsCapabilities | core/node.c:31-56 | beacon data and capabilities depend on the sent packets alone; only WEP is also told by received ones |
| NodeInfo.BeaconIsLatest | core/node.c:50-55 | TSF, interval, WPA and RSN are those of the latest Beacon or Probe Response the node sent |
| NodeInfo.CapabilitiesAccumulate | core/node.c:43-98 | the channel width is the greatest sent one, and HT40+ is set exactly if some packet had it |
| NodeInfo.StandardIsGreatest | core/node.c:100-106 | the standard is the greatest one that a sent packet suggests |
| NodeInfo.TxStreamsAreLatest | core/node.c:45-46 | the transmit streams are those of the latest packet that names any, and zero if none does |
| NodeInfo.RxStreamsAreLatest | core/node.c:47-48 | so are the receive streams, whatever the same packets say about the others |
| NodeInfo.PayloadIsLatest | core/node.c:31-42 | IP address and OLSR counts are the latest ones other than zero, and a node is a gateway once one packet said so |
| NodeInfo.WepIsLatest | core/node.c:75-86 | whether WEP is on is what the latest telling frame said, sent or received |
| NodeInfo.TellsWepByType | core/node.c:75-85 | telling frames are the data frames that carry data, authentication, Beacons and Probe Responses, by type and subtype numbers |
| NodeInfo.BssidIsLatest | core/node.c:25-152 | the BSSID is the latest one a frame named, sent or received |
| NodeInfo.ModeIsSince | core/node.c:33-164 | the mode is what the latest received frame of an AP, a station or an ad-hoc network made it, a station, an AP or ad-hoc, together with all modes of frames sent since |
| NodeInfo.SentSinceIsUnion | core/node.c:33-34 | a mode bit is among the latter exactly if some frame sent since had it |
| NodeInfo.ChannelIsTold | core/node.c:50-172 | the channel is that of the latest authoritative frame, a beacon sent or any frame of a station with an AP; while that is unknown, the first one a later frame named |
| Table.NodeUpdateKeeps | core/node.c:112-145 | a node update keeps MAC addresses unique and nonzero, all links consistent and all pointers live |
| Table.ReceiverUpdateKeeps | core/node.c:188-220 | so does a receiver update |
| Table.RecordRecords | core/node.c:124-143 | exactly the node of that MAC changes; it is new exactly if nobody had the address, and then the last on the list and without stations |
| Table.GatesDecide | core/node.c:112-196 | node updates pass over exactly the frames with a bad FCS or without a transmitter, receiver updates those with a bad FCS and those to nobody or everybody |
| Table.FindApKeeps | core/node.c:222-249 | looking for an AP keeps the table in order |
| Table.FindApFinds | core/node.c:226-246 | a station with a valid BSSID ends up with the node of that address as its AP if there is one and with none otherwise; everybody else keeps theirs |
| Table.FindApIdle | core/node.c:226-231 | the search changes nothing exactly if the node is no station, has no valid BSSID or has found its AP, or has none and there is none to find |
| Table.FindApRings | core/node.c:232-246 | otherwise the node leaves its old ring and becomes the last on that of the AP found, and everybody else keeps their order |
| Table.EssidsUpdateKeeps | core/essid.c:74-126 | an ESSID update keeps the table in order exactly if the name is storable, in particular if it ends inside its buffer |
| Table.NamesDecide | core/essid.c:79-126 | an ESSID update passes over frames without node or name, with a bad FCS, and those that are neither Beacon nor Probe Response; otherwise the node is in the group of the name afterwards |
| Table.EssidsRemoveNodeKeeps | core/essid.c:48-72 | removing a node from its ESSID keeps the table in order and leaves the node without one |
| Table.TimeoutEvicts | core/node.c:251-288 | a sweep that passes its gate leaves exactly the nodes whose wrapped age is at most the limit, in their order, and trims every ring, pointer and group accordingly; otherwise nothing changes |
| Table.TimeoutSurvivors | core/node.c:256-263 | the records that survive a timeout call are unchanged and exactly those within the wrapped limit |
| Table.NobodyMentionsGone | core/node.c:266-284 | after a sweep no list, ring, AP pointer or ESSID mentions a freed node, and an ESSID is left exactly if one of its members is |
| Association.StationFindsItsAp | core/node.c:112-249 | from any table in order: once B was heard, a station frame from S with BSSID B and a look for its AP attach S to the one node of address B, on that node's list only |
| Association.StationTakesApChannel | core/node.c:58-60 | later frames of an attached station copy the AP's channel and leave it attached |
| Association.ReceiverKnown | core/node.c:147-220 | the receiver of an AP's frame becomes a station and nothing else, that of a station's frame an AP and no station, that of an ad-hoc frame ad-hoc; other frames leave its mode alone |
| Association.ReceiverFindsItsAp | core/node.c:147-249 | from any table in order that holds B: a frame of AP B to S and a look for its AP attach S to the one node of address B |
| Association.DownlinkAttaches | core/node.c:112-249 | from any table in order, the bytes of one data frame from the distribution system, parsed and recorded at its sender B and its receiver S, attach S to B |
| Association.ToDsIsStationFrame | core/wlan_parser.c:163-168 | an accepted data frame to the distribution system is a station's, with the receiver as BSSID |
| Association.FromDsIsApFrame | core/wlan_parser.c:158-162 | one from it is an AP's, with the sender as BSSID |
| Association.NoDsIsAdHocFrame | core/wlan_parser.c:137-142 | one without it is ad-hoc, with the third address as BSSID |
| Association.BothDsIsFourAddressFrame | core/wlan_parser.c:143-157 | one between its parts has four addresses; its BSSID is the third one exactly if it is a QoS frame with an A-MSDU, and otherwise left as it was |
| Association.ParsedNameKeepsTable | core/essid.c:74-126 | a packet with a terminated name into which any frame was parsed has one still, and an ESSID update with it keeps the table in order |
| Association.UnterminatedNameIsDoubled | core/essid.c:92-108 | a concrete unterminated name breaks the uniqueness of names |
| World.ApplyKeeps | core/node.c:112-288 | every call with live arguments keeps the table in order |
| World.RunsKeepTable | core/node.c:112-288 | so does every run from empty lists; every record is the fold of the frames of its node |
| World.RunsContinue | core/node.c:112-288 | no run gets stuck: any legal call can follow |
| World.RunsClean | core/node.c:112-196 | in every run, no history has a frame with a bad FCS in it, nor one sent by nobody or to nobody or everybody |
| World.ReceiversAreUnicast | core/node.c:195-218 | so a node that only ever received has not got the broadcast address |
| History.RunsSourced | core/node.c:124-145 | in every run, each node's history is all traffic from or to its address since a moment when no node had it |
| History.RunsCount | core/node.c:20-186 | in every run of fewer than 2^32 calls the statistics of each node describe that traffic: counts, receive-only mark, retry runs, maximum and average |
| Staleness.TimeoutOnTrueTime | core/node.c:256-263 | with regular timeout calls the wrapping gate and ages decide as an unbounded clock would |
| Staleness.RunsTimely | core/node.c:251-288 | in every such run the last sweep was recent and left nobody older than the limit, whatever the initial time |
| Staleness.NobodyGoesStale | core/node.c:256-287 | with limit T > 0, calls at most D apart and 2T + D below 2^32 microseconds, the wrapped age of every node is its true age and less than 2T + D |
| Nodes.Node.CopyNodeinfo | core/node.c:20-110 | the field updates of a sent frame compute the record's next value and hand the retry count back to the packet |
| Nodes.Node.CopyRxNodeinfo | core/node.c:147-186 | the field updates of a received frame do |
| HeapView.FindNode | core/node.c:125-130 | the ring walk finds the first node of a MAC address |
| HeapAps.AttachAp | core/node.c:242-243 | list insertion and pointer write make the node a station of the AP, and the heap still holds the table |
| HeapAps.DetachAp | core/node.c:234-235 | list removal and pointer write undo that, and the heap still holds the table |
| HeapAps.FindAp | core/node.c:222-249 | refines the AP search of the table, idle cases included |
| HeapEssids.ScanSplit | core/essid.c:20-46 | the loop over the ring computes the split status of the members' records |
| HeapEssids.EnterGroup | core/essid.c:120-122 | the node joins the ESSID, which counts it |
| HeapEssids.ExitGroup | core/essid.c:56-61 | the node leaves the ESSID, which counts it no more |
| HeapEssids.FindEssid | core/essid.c:92-97 | the ring walk finds the first ESSID of a name |
| HeapEssids.OpenEssid | core/essid.c:100-108 | a new ESSID goes to the end of the list, under the stored name and without members |
| HeapEssids.RemoveNode | core/essid.c:48-72 | refines the removal of a node from its ESSID |
| HeapEssids.EssidsUpdate | core/essid.c:74-126 | refines the ESSID update, including the frames and NULL nodes it ignores |
| HeapNodes.FindOrAdd | core/node.c:124-142 | the node of the address if it is found, and then nothing changes; else a fresh, cleared node, now the last on the list |
| HeapNodes.NodeUpdate | core/node.c:112-145 | refines the node update: NULL and nothing changed for ignored frames, else the known node, or a fresh one exactly if the address is new |
| HeapNodes.NodeUpdateReceiver | core/node.c:188-220 | refines the receiver update in the same way |
| HeapTimeout.DetachStations | core/node.c:280-283 | the deletion-safe loop over an AP's stations refines detaching them all |
| HeapTimeout.FreeNode | core/node.c:266-284 | the unlinking steps in the source's order take the node off its list, its AP's ring, its ESSID and its stations' pointers |
| HeapTimeout.SweepNodes | core/node.c:262-286 | the deletion-safe loop over the nodes refines the sweep |
| HeapTimeout.Timeout | core/node.c:251-288 | refines the timeout call, gate and *last_nodetimeout included |
| HeapInvariant.EmptyLists | include/uwifi/cc_list.h:142-143 | two empty list heads are the empty table |
| HeapInvariant.ApPointersAgree | core/node.c:226-246 | in any table in order, n's ap_node is a exactly if n's link is on a's ring, and then a is live |
| HeapInvariant.EssidPointersAgree | core/essid.c:110-123 | n's essid is e exactly if n's link is on e's ring, and then e is live |
| HeapInvariant.EssidsCount | core/essid.c:61-64 | a live ESSID has a name, at least one node, and counts the nodes on its ring |
| HeapInvariant.NamesIdentify | core/node.c:124-145 | no two live nodes share a MAC address, none has the zero address, and no two live ESSIDs share a name |
| HeapRun.Drive | core/node.c:112-288 | from two empty lists, any sequence of library calls at nondecreasing times: the heap ends up holding exactly the table, and *last_nodetimeout, of the run of the calls that were not ignored, and that table is in order |
| HeapRun.HeapStatistics | core/node.c:20-186 | so the fields of every live node describe the traffic of its address since the node was created |
| HeapRun.HeapAges | core/node.c:256-263 | and with regular timeout calls the age computed from its last_seen is the true one, below 2T + D |
| HeapRun.FirstFrame | core/node.c:112-220 | on two empty lists, the two updates for one frame leave exactly its sender and its receiver, and a table in order |
| Ewma.Ilog2 | util/util.c:49-55 | counts the trailing zero bits |
| Ewma.TrailingZeros | util/util.c:49-55 | which for a power of two is the exponent, also for 2^31, which is negative as an int |
| Ewma.Ewma.constructor | util/average.c:38-46 | of both parameters, cut to an int, the trailing zeros are stored, which for powers of two are their exponents; the average starts at zero |
| Ewma.Ewma.Add | util/average.c:55-62 | the shifts and wrapping operators compute one step of the average |
| Ewma.NoWrap | util/average.c:29-62 | within the documented limit no operation wraps, for every sequence |
| Ewma.LimitIsDocumented | util/average.c:29-30 | that limit is ULONG_MAX/(factor*weight) |
| Ewma.FoldBetween | util/average.c:55-62 | the scaled value stays between the least and the greatest scaled sample, restarts at zero included |
| Ewma.ReadBetween | include/uwifi/average.h:38-41 | and what is read between the samples themselves |
| Ewma.ExactStepIsMean | util/average.c:57-60 | the reference average is the weighted mean, without truncation |
| Ewma.ErrorBound | util/average.c:55-62 | for samples of at least 1 the exact average minus the stored one stays between 0 and 2^weight - 1 for ever |
| Ewma.ReadIsFloorOrOneLess | include/uwifi/average.h:38-41 | with weight <= factor the value read is the floor of the exact average or one less |
| Ewma.SettlesFromAbove | util/average.c:55-62 | fed a constant from above, the value decreases every step until it is exact, and stays |
| Ewma.SettlesFromBelow | util/average.c:55-62 | fed a constant from below, it increases every step until it is less than 2^weight short |
| Elements.ParseElements | core/wlan_parser.c:22-97 | the cursor loop terminates, reads only inside a region whose elements fit, and computes the element walk, which undoes the encoding of capabilities (Capabilities.ParserLearns) |
| Elements.WalkIsFold | core/wlan_parser.c:22-97 | on concatenated encoded elements the walk is the fold of the elements' effects, omitting exactly a final one with an empty body |
| Elements.WalkComposes | core/wlan_parser.c:22-97 | parsing is compositional over concatenation unless the first part ends in an empty body |
| Elements.EffectIsLocal | core/wlan_parser.c:29-92 | an element's effect depends on its own body alone |
| Elements.FittingIsEncoded | core/wlan_parser.c:25-96 | every region the loop may read is a list of encoded elements and at most two bytes |
| Elements.WalkKeepsTerminated | core/wlan_parser.c:30-38 | whatever the elements say, the ESSID buffer stays terminated |
| Capabilities.AnnouncementBack | core/wlan_parser.c:29-92 | an element that encodes an announcement (SSID, channel, HT and VHT capabilities and operation, RSN, WPA, other vendors) gives the announced values back and changes nothing else |
| Capabilities.ParserLearns | core/wlan_parser.c:22-97 | the walk over the encoding of a list of announcements leaves what they announce, one after the other |
| Capabilities.EveryElementAnnounces | core/wlan_parser.c:29-92 | every element whose effect is determined by its own body encodes such an announcement, so nothing is left open |
| FrameParser.ParseFrame | core/wlan_parser.c:100-338 | the parser, reading the buffer and writing the packet step by step, computes on every frame the header specification, which undoes the encoding of data, control and management frames (FrameFormats) |
| FrameParser.ParserKeepsTerminated | core/wlan_parser.c:100-338 | every frame leaves the ESSID terminated, as unique names need it |
| FrameParser.HeaderTaOfFrame | core/wlan_parser.c:341-353 | on data and management frames the quick lookup returns the transmitter the parser stores |
| FrameParser.HeaderTaOfCtrl | core/wlan_parser.c:354-368 | on control frames exactly when no flag bits are set and the kind is one the parser knows, or neither finds an address |
| FrameFormats.ControlBack | include/uwifi/wlan80211.h:40-66 | the parser's reading of an encoded frame control field gives type, subtype and flags back |
| FrameFormats.DataFrameBack | core/wlan_parser.c:121-236 | parsing the encoding of any data frame gives mode, addresses, BSSID, duration, sequence number, flags and traffic class back, and the assumed header length unless the body is encrypted |
| FrameFormats.AssumedIsTrue | core/wlan_parser.c:129-146 | that length is the true one exactly for frames without QoS and plain QoS data |
| FrameFormats.ControlFrameBack | core/wlan_parser.c:191-274 | parsing the encoding of any control frame gives its duration, receiver, transmitter and BSSID back where its kind has them |
| FrameFormats.MgmtFrameBack | core/wlan_parser.c:201-336 | parsing the encoding of any management frame gives addresses, sequence number, timestamp, interval, mode and privacy back, and leaves what its elements announce |
| FrameBuilder.CreateBeacon | core/inject.c:16-62 | fills exactly the frame's bytes and nothing behind them |
| FrameBuilder.CreateNullData | core/inject.c:64-77 | fills the 24 header bytes, and returns 36 |
| FrameBuilder.ParserUndoesBuilder | core/inject.c:16-62 | parsing a built frame and any FCS returns 0 and every field: type, addresses, TSF, mode AP, sequence number mod 4096, interval mod 65536, channel mod 256; the ESSID exactly if it has at most 33 bytes |
| FrameBuilder.ParserUndoesNullData | core/inject.c:64-77 | parsing a built null data frame returns the header length and every field, whatever the twelve unset bytes |
| Standards.SupportedRates | core/inject.c:11-14 | the supported rates of a built frame are the OFDM rates in order, of which 6, 12 and 24 Mb/s are basic |
| Standards.RatesInOrder | core/wlan_util.c:101-138 | exactly the legacy rates have an index, from which they come back, and faster ones have greater ones |
| Standards.RateGuess | core/wlan_util.c:308-316 | the standard guessed from a legacy rate is that of the rate exactly if it is neither 6 nor 9 Mb/s |
| Standards.WidthGuess | core/wlan_util.c:290-306 | a wider channel never means an older standard, and exactly the widths that need VHT mean 802.11ac |
| Standards.TypeGuess | core/wlan_util.c:318-344 | the standard guessed from a frame type is the one that goes with its type and subtype numbers |
| Wlan.LeRoundTrip | core/inject.c:38-39 | little-endian encoding is undone by decoding |
| Wlan.HtStreamsFromMcs | core/wlan_util.c:250-267 | the loop finds the leading nonzero MCS bytes and the transmit rule applies to them |
| Wlan.VhtStreamsFromMap | core/wlan_util.c:274-279 | the loop finds the first two-bit field that reads 3 |
| Channels.IdxFromChan | core/channel.c:454-461 | the first channel of that number, or -1 exactly if there is none |
| Channels.IdxFromFreq | core/channel.c:463-470 | the first channel of that frequency, or -1 exactly if there is none |
| Channels.SubchannelsAll | core/channel.c:160-164 | the verification loop accepts exactly if every 20 MHz step below the end of the block is listed |
| Channels.BlockBelowTop | core/channel.c:158-164 | that is all 20 MHz channels of an 80 or 160 MHz block except the top one |
| ChannelCapab.PassInAnyOrder | core/channel.c:406-409 | the capability pass gives the same result in every order and with repetitions |
| ChannelCapab.CapabIsMaximal | core/channel.c:361-395 | HT40 exactly when the band allows it and a neighbour is listed, and above that exactly the widths within the band limit up to which every VHT width verifies |
| ChannelCapab.WithinBand | core/channel.c:35-39 | no channel is granted more than its own band allows: the first band's limit holds for the channels it counts, the second one's for the rest |
| ChannelCapab.FullPassChecks | core/channel.c:406-409 | a pass over all channels leaves a list that a further check would not change |
| ChannelCapab.OfferedVerifies | core/channel.c:300-307 | everything offered for a channel verifies exactly if its promised neighbours are listed |
| ChannelCapab.MatchedIsPaired | core/channel.c:375-376 | they are when numbers four apart are 20 MHz apart |
| ChannelCapab.RasterMatches | core/wlan_util.c:391-405 | as they are on channels 1 to 13 together with the 5 GHz raster |
| ChannelCapab.NumberBack | core/wlan_util.c:391-416 | a channel number comes back from its frequency exactly up to 8000 |
| ChannelCapab.FreqBack | core/wlan_util.c:391-416 | a frequency comes back from its number exactly if it is 2484 MHz, below 2477 MHz and two above a multiple of five, or a multiple of five from 5075 to 45000 MHz |
| ChannelCapab.Channel14Unpaired | core/channel.c:369-376 | but not with channels 10 and 14 |
| ChannelHop.ChoiceInRange | core/channel.c:264-298 | the walk stays inside the list exactly if channel_min is listed or reset, or it does not wrap |
| ChannelHop.ChoiceIsOffered | core/channel.c:279-298 | it never asks for an HT40 direction the channel does not have |
| ChannelHop.NextVerifies | core/channel.c:300-307 | on a checked list with its promised neighbours, every proposed channel verifies |
| ChannelHop.NextVerifiesOnlyIfPaired | core/channel.c:300-307 | and if one neighbour is missing, some state makes it propose a channel that does not |
| ChannelHop.RangeExists | core/channel.c:264-294 | sorted channels with channel_min listed and not above channel_max have a range |
| ChannelHop.RoundLength | core/channel.c:277-298 | a round has one visit a channel and one more for every two-sided HT40 channel |
| ChannelHop.RoundOrder | core/channel.c:277-298 | visits are in index order, HT40- before HT40+ |
| ChannelHop.RoundCovers | core/channel.c:277-298 | every channel of the range is visited |
| ChannelHop.HopsEnter | core/channel.c:264-298 | from any valid state at most two successful hops reach the round, without limits one |
| ChannelHop.HopsCycle | core/channel.c:258-308 | from then on n hops go n places around it, for ever, so never out of the range |
| ChannelHop.PlaceUnique | core/channel.c:277-298 | the visits of a round are different states: nobody is at two places of it |
| ChannelHop.ExactPeriod | core/channel.c:258-308 | the round is the exact period: its length in hops restores index, channel and limits, and no smaller number of hops does |
| ChannelDriver.ChannelTable.ListAdd | core/channel.c:488-497 | appends a channel with its number unless the list is full, and then changes nothing |
| ChannelDriver.ChannelTable.CheckChannel | core/channel.c:170-182 | the lookup and the loops decide exactly the verification predicate |
| ChannelDriver.ChannelTable.CheckCapab | core/channel.c:361-395 | the in-place check changes one entry, to the one the specification gives |
| ChannelDriver.ChannelTable.CheckAll | core/channel.c:406-409 | after the pass every entry is checked, and numbers and frequencies are as before |
| ChannelDriver.Interface.RemainingDwell | core/channel.c:20-33 | the time since the last change and the time left make up the dwell time, clamped to 0 and UINT32_MAX; without scanning it is UINT32_MAX |
| ChannelDriver.Interface.Change | core/channel.c:231-256 | succeeds exactly if the specification has a needed centre frequency and the driver accepts it, and otherwise changes nothing |
| ChannelDriver.Interface.GetNext | core/channel.c:258-308 | proposes the walk's next specification and changes at most an unlisted channel_min |
| ChannelDriver.Interface.AutoChange | core/channel.c:311-359 | 0 exactly if there is nothing to do yet; -1 only after the bounded number of attempts all failed, with the channel unchanged and the time stamped; 1 with the channel of the first attempt that went through |
| ChannelDriver.RetriesRepeat | core/channel.c:339-347 | failed attempts of one call propose the same channel again |
| ChannelDriver.NextIsAcceptable | core/channel.c:235-238 | a proposed channel lacks its centre frequency only at 80+80 MHz |
| ChannelDriver.TriesCoverRound | core/channel.c:328-335 | the attempts of one call are as many as a round has visits unless a listed channel_max limits them; then exactly if twice its index is |
| ChannelDriver.TriesFallShort | core/channel.c:328-333 | with both HT40 directions on all channels up to a channel_max they are two short |
| ChannelGeometry.CenterIsNear | core/channel.c:45-70 | the block of a centre frequency found for a channel at 80 or 160 MHz reaches from below that channel to above it |
| ChannelGeometry.BlockShares | core/channel.c:45-70 | exactly the channels between its edges have that centre frequency |
| ChannelGeometry.CenterNamesBlock | core/channel.c:45-70 | on the 5 GHz raster a channel has the centre frequency of a block of the standard exactly if it is one of its 20 MHz channels |
| ChannelGeometry.CentersOfRaster | core/channel.c:45-70 | no raster channel has any other, and none at all have exactly 165 at 80 MHz and those above 64 at 160 MHz |
| ChannelGeometry.UpperBlockIsLost | core/channel.c:67-70 | so all channels of the upper 160 MHz block are left without one |
| ChannelGeometry.BlocksNest | core/channel.c:45-70 | the 80 MHz block of a channel is the half of its 160 MHz block that it lies in |
| ChannelGeometry.NextLiesInBlock | core/channel.c:300-302 | on a checked list, every channel the walk proposes lies in the block proposed with it, whose other channels below the top are listed |

## Left out

- Netlink, wireless extensions, ioctls, packet sockets, pcap, wpa_ctrl and the platform code: input and output.
- Radiotap and Prism headers, logging, string formatting, name tables and the HT and VHT rate tables: no state of their own.
- `uwifi_nodes_free` and `uwifi_essids_free`: terminal steps that leave the other side's pointers dangling.
- The list of channels a node was seen on (`on_channels`): nothing in the modelled code puts anything on it.
- `wlan_max_phy_rate` and the rest of `uwifi_channel_init` (configured channel, secondary interfaces): no invariant hangs on them.
- Freed memory: an object that left the table stays allocated in Dafny; that it is not read again follows from the methods needing to know what they read, not from a check of accesses.
- Nodes.Node.CopyNodeinfo: does not model the overflow of the signed `phy_sig_count` after 2^31 frames, nor the negation of INT_MIN as a signal.
- Big-endian hosts: the sequence number is shifted after conversion (`core/inject.c:37`), which is right only on little-endian ones.
- Elements.ParseElements: requires that every element the loop reaches fits its region; chains that run past the buffer are not modelled.
- HeapEssids.EssidsUpdate: the packet pointer is never NULL; only the node pointer may be.
- Ewma.Ilog2: requires a nonzero argument, because on zero the source never stops.
- Ewma.Ewma.constructor: requires for the same reason that neither parameter has all of its low 32 bits zero.
- HeapRun.Drive: requires that the name of a packet given to an ESSID update is terminated, as parsing leaves it; a name that fills its buffer can break the table (`Association.UnterminatedNameIsDoubled`).
- Hopping at 80+80 MHz: no centre frequency is ever computed (`core/channel.c:97`), so the driver refuses every such channel.
- `split` between recomputations: node updates change BSSIDs and modes without recomputing it, so it is stated only after ESSID updates and removals.
- HeapView.FindNode: `break` out of a for-each loop and the comparison with the head behind it are one null test here.
- The debug variants of the list operations (`CCAN_LIST_DEBUG`).
