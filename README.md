# Network labs in Dafny: switches, routers, a reliable blaster and a CDN DNS server

This project models the core of a series of network-programming labs written
in Python on top of the switchyard framework, and proves properties of the
model:

- **Learning switches** (lab2). Three MAC-learning switches share one
  forwarding rule: a frame for the switch itself is consumed, a broadcast is
  flooded, and a frame for a learned address goes to its port. Otherwise the
  frame is flooded. The switches differ in how they keep their table:
  - a least-recently-used cache of five entries (`LruSwitch`);
  - a five-entry table that evicts the least-used address (`TrafficSwitch`);
  - a table whose entries go stale after ten seconds (`TimeoutSwitch`).
- **Routers** (labs 3 to 5):
  - the lab3 router only answers ARP requests for its own addresses (`Lab3Router`);
  - the lab4 router adds longest-prefix-match forwarding, an ARP cache, and a
    queue of packets waiting for ARP resolution with a retry timer (`Lab4Router`);
  - the lab5 router adds ICMP (RFC 792): Echo Reply, Time Exceeded, and
    Destination Unreachable codes 0, 1 and 3 (`Lab5Router`).

  Shared parts:
  - the keyed FIFO `DictQueue` (`DictQueues`);
  - the forwarding table (`ForwardTable`);
  - the ARP handling of the two queueing routers (`RouterCore`).
- **Blast transfer** (lab6):
  - a sliding-window sender with a coarse timeout and a resend cursor (`Blaster`);
  - a receiver that acknowledges every data packet and reassembles the
    transfer (`Blastee`);
  - the byte layout of data packets and acknowledgements (`BlastLayout`).
- **CDN DNS server** (lab7, `DnsServer`): the record file parser, the domain
  matcher with its `*` wildcard, the first-match lookup and the reply codes.

Where the source mutates an object (the queue and cache classes, the routers,
switches, blaster and blastee), the model keeps it as a Dafny `class` whose
methods update its fields. Each method's postcondition ties the new state to
a pure effect function of the old state, for example
`Snapshot() == HandleIpEffect(cfg, old(Snapshot()), pkt)`. The lemmas beside
each effect function state what the source promises: bindings learned,
packets forwarded, errors reported, windows kept, round trips completed.
The DNS matcher and parser are pure code in the source, and they are
functions and lemmas here.

Time is an integer `now` passed to each operation. Transmissions are
recorded in a `sent` log in the order the source calls `send_packet`.

## Model

| member | source | states |
|---|---|---|
| DictQueues.Lookup | lab5/myrouter.py:66-69 | None exactly when no entry carries the key; otherwise the value of the first entry with that key |
| DictQueues.LookupIsMember | lab5/myrouter.py:66-69 | with distinct keys, `get` returns v exactly when (k, v) is an entry of the queue |
| DictQueues.RemoveKeyMembers | lab5/myrouter.py:57-64 | after `remove`, the entries are exactly the old entries with another key |
| DictQueues.RemoveKeyProperties | lab5/myrouter.py:57-64 | `remove` keeps the keys distinct, takes exactly that key out of the key set, and shortens the queue by one when the key was present |
| DictQueues.ReplaceMembers | lab5/myrouter.py:161 | updating the value of a present key in place keeps every other entry and binds the key to the new value |
| DictQueues.ReplaceProperties | lab5/myrouter.py:161 | an in-place update keeps the key set and the distinct keys |
| DictQueues.HeadNotInTail | lab5/myrouter.py:201-207 | with distinct keys the popped oldest key is absent from the rest, so pushing it back is a push of a new key |
| DictQueues.DictQueue.constructor | lab5/myrouter.py:33-36 | a new queue is empty, with an empty map and size 0 |
| DictQueues.DictQueue.Push | lab5/myrouter.py:38-41 | the entry is appended at the newest end, the map gains the key and the size grows by one |
| DictQueues.DictQueue.Peek | lab5/myrouter.py:43-46 | the oldest entry, or None on an empty queue; nothing changes |
| DictQueues.DictQueue.Pop | lab5/myrouter.py:48-55 | the oldest entry is removed and returned; on an empty queue None is returned and nothing changes |
| DictQueues.DictQueue.Remove | lab5/myrouter.py:57-64 | the entry under the key is unlinked and its value returned; an absent key gives None and no change |
| DictQueues.DictQueue.Get | lab5/myrouter.py:66-69 | the value under the key, or None; the queue is unchanged |
| DictQueues.DictQueue.SetValue | lab5/myrouter.py:157-161 | the value under a present key is replaced where it stands, as appending to `wait_packs` does |
| ForwardTable.SearchIsLongestMatch | lab5/myrouter.py:78-79 | `search` gives None exactly when no entry contains the address; otherwise it gives the longest-prefix entry, the earliest-added among equal prefixes |
| ForwardTable.LongestMatchIsSearched | lab5/myrouter.py:78-79 | conversely, the longest-prefix-match entry is the one `search` returns |
| ForwardTable.SearchSnoc | lab5/myrouter.py:75-79 | adding an entry changes the lookup only when the new entry contains the address with a strictly longer prefix than the current answer |
| ForwardTable.SearchCatching | lab4/myrouter.py:77-81 | catching the ValueError of `max` on an empty match list gives the same answer as `max` with `default=None` |
| ForwardTable.BuildForwardTable | lab5/myrouter.py:89-97 | the table is one connected route (own network, next hop 0.0.0.0) per interface in interface order, then the static routes in file order |
| ForwardTable.ConnectedNetworksRoutable | lab5/myrouter.py:89-92 | every address on an interface's own network has a route, with a prefix at least as long as that network's |
| RouterCore.InterfaceByIp | lab5/myrouter.py:109 | the interface returned is one of the router's interfaces and carries the address |
| RouterCore.Released | lab5/myrouter.py:116-119 | one transmission per waiting packet, in queue order, on the stored port, with the Ethernet destination set to the resolved MAC |
| RouterCore.ArpLearnsSender | lab5/myrouter.py:104-105 | after any ARP packet the table binds the sender's IP to its MAC, gains no other key and changes no other binding |
| RouterCore.ArpRequestAnswered | lab5/myrouter.py:107-112 | a Request is answered exactly when its target is a router address, with one Reply on the arrival port from the owning interface's (MAC, IP) to the requester's; the queue is untouched |
| RouterCore.ArpReplyReleasesWaiting | lab5/myrouter.py:113-119 | a non-Request ARP for a router address removes the sender's queue entry, keeps the others in order, and sends each of its packets exactly once, in order; without an entry nothing is sent |
| RouterCore.ResolveAndSendKeepsQueue | lab5/myrouter.py:146-161 | the ARP-miss path keeps the queue's keys distinct, never reorders or re-times an entry, leaves the ARP table alone, and adds the next hop as a key only on a cache miss |
| RouterCore.ResolveAndSendExtends | lab5/myrouter.py:155-161 | queueing keeps every old entry's key, position and timer, and a new entry starts at time 0 with five requests |
| RouterCore.ResolveAndSendOutcome | lab5/myrouter.py:151-161 | a cache hit transmits once to the cached MAC with no queue change; a miss transmits nothing, and the next hop's entry ends with the packet (a new entry holds only it) |
| RouterCore.RequeueWeights | lab5/myrouter.py:200-207 | retrying a due entry that still has requests takes it out of the due set and leaves the exhausted count alone, so the resend loop's measure goes down |
| RouterCore.ArpState.constructor | lab5/myrouter.py:84-86 | empty ARP table, empty queue, nothing sent |
| RouterCore.ArpState.HandleArp | lab5/myrouter.py:103-119 | the state after `handle_arp` is `HandleArpEffect` of the old state |
| RouterCore.ArpState.Release | lab5/myrouter.py:116-119 | the flush loop appends exactly `Released` to the log and leaves the ARP table alone |
| RouterCore.ArpState.Deliver | lab5/myrouter.py:146-161 | the ARP step of `send_ip` performs `ResolveAndSend` in place |
| RouterCore.ArpState.Retry | lab5/myrouter.py:204-207 | one ARP request for the key is broadcast from the stored interface, and the entry is pushed back stamped `now` with one request fewer |
| Lab5Router.Quote | lab5/myrouter.py:127 | the quoted bytes are a prefix of the datagram, at most 28 bytes, and are the whole datagram when it is shorter |
| Lab5Router.MakeIcmpError | lab5/myrouter.py:121-135 | the error goes back to the datagram's source from 0.0.0.0 with TTL 65, has the given type and code, and quotes the first 28 bytes of the datagram without its Ethernet header |
| Lab5Router.EchoReply | lab5/myrouter.py:167-180 | the reply swaps the addresses, has TTL 65, type Echo Reply, code 0, and copies the identifier, sequence number and data |
| Lab5Router.SendStepAsWritten | lab5/myrouter.py:138-163 | as written, `send_ip` recurses on an error exactly when there is no route or the TTL is 1; the error is aimed at the source from 0.0.0.0; nothing is ever dropped |
| Lab5Router.SendStep | lab5/myrouter.py:138-163 | the corrected step drops exactly the unroutable packets that still have source 0.0.0.0; every error it makes ranks below the packet that caused it |
| Lab5Router.HostUnreachables | lab5/myrouter.py:209-210 | one Destination Unreachable (code 1) error per waiting packet, in order |
| Lab5Router.SendEffectExtends | lab5/myrouter.py:138-163 | sending, including every error it causes, only appends fresh entries to the ARP queue |
| Lab5Router.SendAllExtends | lab5/myrouter.py:209-210 | sending a sequence of packets only appends fresh entries to the ARP queue |
| Lab5Router.ResendStepShrinks | lab5/myrouter.py:199-210 | each loop iteration retires a due exhausted entry, or moves a due entry out of the due set, so `resend_arp` terminates |
| Lab5Router.RouteHitForwards | lab5/myrouter.py:139-154 | a routed packet with TTL other than 1 goes to the ARP step on the longest-match entry's interface. Its TTL is one less and the egress MAC is its Ethernet source. An unset source becomes the egress address, and a connected entry makes the destination the next hop |
| Lab5Router.TtlExpiryReportsTimeExceeded | lab5/myrouter.py:142-144 | a routed packet arriving with TTL 1 is replaced by a Time Exceeded error that quotes it with TTL 0 |
| Lab5Router.NoRouteReportsNetUnreachable | lab5/myrouter.py:162-163 | a packet with no route is replaced by Destination Unreachable code 0 for its source, or dropped when it has no source (the corrected behaviour) |
| Lab5Router.SendKeepsEarlierState | lab5/myrouter.py:138-163 | `send_ip` never changes the ARP table or an earlier queue entry, and the transmission log only grows |
| Lab5Router.ErrorNeverReissued | lab5/myrouter.py:138-163 | under the correction, an error made by `send_ip` is never itself answered with another error, so a chain of calls has at most two links |
| Lab5Router.LoneInterfaceRoutes | lab5/myrouter.py:89-92 | the one-interface router 10.0.0.1/24 has a route exactly for 10.0.0.0/24 |
| Lab5Router.UnsourcedChainNeverSettles | lab5/myrouter.py:162-163 | as written, on that router an unroutable packet from 0.0.0.0 does not settle within any number of `send_ip` calls |
| Lab5Router.UnroutablePingNeverSettlesAsWritten | lab5/myrouter.py:162-163 | as written, a ping from 8.8.8.8 to 9.9.9.9 through that router never finishes `send_ip` |
| Lab5Router.UnroutablePingSettles | lab5/myrouter.py:162-163 | under the correction, the same ping is dropped after one error and the state is unchanged |
| Lab5Router.HandleIpAnswers | lab5/myrouter.py:165-184 | an Echo Request to a router address gets its Echo Reply; any other packet to a router address gets Destination Unreachable code 3; other packets are sent on |
| Lab5Router.OtherFramesIgnored | lab5/myrouter.py:186-197 | a frame that is neither ARP nor IPv4 changes nothing and sends nothing |
| Lab5Router.ResendLeavesNoDueHead | lab5/myrouter.py:200 | when `resend_arp` returns, the oldest entry, if any, is less than a second old |
| Lab5Router.RetrySendsRequest | lab5/myrouter.py:203-207 | a due entry with requests left gets one ARP request broadcast from its interface for its key, and moves to the newest end stamped `now` with one request fewer; its packets stay queued |
| Lab5Router.GiveUpReportsHostUnreachable | lab5/myrouter.py:208-210 | a due entry with no requests left leaves the queue, and each of its packets, in order, gets Destination Unreachable code 1 sent to its source |
| Lab5Router.LoneEntryRetry | lab5/myrouter.py:199-207 | a lone due entry with budget gets exactly one request per call, is stamped with the call's time, and loses one unit of budget |
| Lab5Router.RetrySchedule | lab5/myrouter.py:199-207 | a lone entry called on at least a second apart, no more often than its budget: each call sends one request, so n calls send exactly n requests and leave the entry stamped with the last call's time and n units poorer |
| Lab5Router.RetryGivesUp | lab5/myrouter.py:199-210 | on the call after the budget is spent, the entry is dropped and Host Unreachable goes out about each of its packets, in order; no request beyond the budget is sent |
| Lab5Router.FreshEntryRetriesFiveTimes | lab5/myrouter.py:199-210 | an entry `send_ip` has just queued (timestamp 0, budget 5) that nothing answers: five calls at least a second apart send exactly five requests, and the sixth drops it and reports Host Unreachable about its packets |
| Lab5Router.Router.constructor | lab5/myrouter.py:82-97 | empty ARP state; the connected routes come first in interface order, followed by the static routes |
| Lab5Router.Router.SendIp | lab5/myrouter.py:138-163 | `send_ip` in place equals `SendEffect` of the old state |
| Lab5Router.Router.HandleIp | lab5/myrouter.py:165-184 | `handle_ip` in place equals `HandleIpEffect` of the old state |
| Lab5Router.Router.HandlePacket | lab5/myrouter.py:186-197 | `handle_packet` in place equals `HandlePacketEffect` of the old state |
| Lab5Router.Router.ResendArp | lab5/myrouter.py:199-210 | the loop of `resend_arp` ends in `ResendEffect` of the old state |
| Lab5Router.Router.ResendOldest | lab5/myrouter.py:201-210 | one loop iteration equals `ResendStep` |
| Lab5Router.Router.GiveUp | lab5/myrouter.py:209-210 | the give-up loop sends a Host Unreachable error about each waiting packet, in order |
| Lab4Router.ResendStepShrinks | lab4/myrouter.py:155-163 | each iteration retires a due exhausted entry or moves a due entry out of the due set, so the loop terminates |
| Lab4Router.LocalOrUnroutableDropped | lab4/myrouter.py:123-126 | a packet for a router address, or with no containing route, is dropped with no state change |
| Lab4Router.RoutedPacketForwarded | lab4/myrouter.py:123-141 | any other packet goes to the ARP step on the longest-match entry's interface. Its TTL is one less, even at 0 or below, and the egress MAC is its Ethernet source. Its source address is untouched, and a connected entry makes the destination the next hop |
| Lab4Router.ResendLeavesNoDueHead | lab4/myrouter.py:156 | when `resend_arp` returns, the oldest entry, if any, is not due |
| Lab4Router.ExhaustedEntryDiscarded | lab4/myrouter.py:157-159 | a due entry with no requests left is dropped with its packets, and nothing is sent |
| Lab4Router.ResendSendsOnlyRequests | lab4/myrouter.py:155-163 | `resend_arp` sends only ARP requests, each from its entry's interface, and never touches the ARP table |
| Lab4Router.Router.constructor | lab4/myrouter.py:84-100 | empty ARP state; the connected routes come first, followed by the static routes |
| Lab4Router.Router.HandleIp | lab4/myrouter.py:123-141 | `handle_ip` in place equals `HandleIpEffect` of the old state |
| Lab4Router.Router.HandlePacket | lab4/myrouter.py:143-153 | `handle_packet` in place equals `HandlePacketEffect` of the old state |
| Lab4Router.Router.ResendArp | lab4/myrouter.py:155-163 | the loop of `resend_arp` ends in `ResendEffect` of the old state |
| Lab3Router.NonArpIgnored | lab3/myrouter.py:19-21 | a frame without an ARP header changes nothing and sends nothing |
| Lab3Router.ArpPacketHandled | lab3/myrouter.py:22-31 | the sender's binding is upserted and no other binding changes. Exactly one Reply, from the owning interface to the requester on the arrival port, is sent for a Request whose target an interface owns; nothing is sent otherwise (the KeyError is swallowed) |
| Lab3Router.Router.constructor | lab3/myrouter.py:13-15 | empty ARP table, nothing sent |
| Lab3Router.Router.HandlePacket | lab3/myrouter.py:17-31 | `handle_packet` in place equals `HandlePacketEffect` of the old state |
| SwitchCommon.FloodSendsToOthers | lab2/myswitch_lru.py:67-69 | flooding sends only the unchanged frame, never on the arrival port, on every other port, and sends no more frames than there are ports |
| SwitchCommon.FloodInPortOrder | lab2/myswitch_lru.py:67-69 | the k-th send goes to the port at position `idx[k]`; the positions increase strictly, so each port gets the frame once and in interface order; and they are exactly the positions whose port is not the arrival port |
| SwitchCommon.Classify | lab2/myswitch_lru.py:88-92 | a destination is for the switch exactly when it is one of the ports' MACs; otherwise it is broadcast exactly when it is ff:ff:ff:ff:ff:ff; otherwise it is unicast |
| LruSwitch.PutMembers | lab2/myswitch_lru.py:45-53 | after `put` the entries are the new binding plus every old entry of another key, except an evicted one |
| LruSwitch.PutBinds | lab2/myswitch_lru.py:45-53 | `put` keeps the cache valid (distinct keys, at most `cap` entries) and binds the key. Other keys keep their values, except the least recently used one, which goes exactly when the key was new and the cache full |
| LruSwitch.PutPresentKeepsRecency | lab2/myswitch_lru.py:46-47 | `put` of a present key changes only its value, and every key keeps its recency position |
| LruSwitch.PutEvictsLeastRecent | lab2/myswitch_lru.py:49-53 | `put` of a new key into a full cache evicts exactly the least recently used entry and adds the key as most recent |
| LruSwitch.GetRefreshes | lab2/myswitch_lru.py:55-59 | `get` returns the value under the key or None. A hit makes the key most recently used and changes no binding; a miss changes nothing |
| LruSwitch.LruCache.constructor | lab2/myswitch_lru.py:27-31 | an empty cache with the given capacity |
| LruSwitch.LruCache.RemoveLru | lab2/myswitch_lru.py:33-38 | the least recently used entry is dropped |
| LruSwitch.LruCache.FlushMru | lab2/myswitch_lru.py:40-43 | a present key moves to the most recently used end with its value |
| LruSwitch.LruCache.Put | lab2/myswitch_lru.py:45-53 | the cache after `put` is `PutEffect` of the old cache |
| LruSwitch.LruCache.Get | lab2/myswitch_lru.py:55-59 | the result and the cache after `get` are `GetEffect` of the old cache |
| LruSwitch.ReceiveLearnsAndForwards | lab2/myswitch_lru.py:85-98 | after a frame the cache stays valid and maps the source to the arrival port. A frame for the switch sends nothing, a broadcast floods, and a unicast goes to its learned port alone or is flooded |
| LruSwitch.NonEthernetStops | lab2/myswitch_lru.py:80-83 | a packet without an Ethernet header ends `main` and changes nothing else |
| LruSwitch.Switch.constructor | lab2/myswitch_lru.py:62-65 | an empty five-entry cache, nothing sent |
| LruSwitch.Switch.Receive | lab2/myswitch_lru.py:71-98 | one turn of the loop in place equals `ReceiveEffect` of the old state |
| TrafficSwitch.LeastTraffic | lab2/myswitch_traffic.py:42 | the position of the first entry with the smallest traffic count |
| TrafficSwitch.LearnNewMembers | lab2/myswitch_traffic.py:40-43 | a new source is appended with count 0, after the first least-used entry is popped from a full table |
| TrafficSwitch.LearnMembers | lab2/myswitch_traffic.py:37-43 | the entries after learning are the source's entry plus every old entry of another address, except an evicted one |
| TrafficSwitch.LearnBindsSource | lab2/myswitch_traffic.py:37-43 | learning keeps the table valid (distinct addresses, at most five) and binds the source to the arrival port. A known source keeps its count and position; a new one starts at 0, and exactly the first least-used entry is evicted when the table was full |
| TrafficSwitch.CountAddsOne | lab2/myswitch_traffic.py:49-53 | a send to a known destination adds exactly one to its count and changes nothing else |
| TrafficSwitch.ReceiveForwards | lab2/myswitch_traffic.py:45-55 | a known unicast destination gets one send to its port and one more unit of traffic. A frame for the switch, a broadcast or an unknown destination changes no count, and the last two are flooded |
| TrafficSwitch.Switch.constructor | lab2/myswitch_traffic.py:13-16 | an empty table, nothing sent |
| TrafficSwitch.Switch.Receive | lab2/myswitch_traffic.py:22-55 | one turn of the loop in place equals `ReceiveEffect` of the old state |
| TimeoutSwitch.ReceiveLearnsSource | lab2/myswitch_to.py:38 | every frame records (arrival port, now) for its source and changes no other entry; nothing is ever removed |
| TimeoutSwitch.ReceiveForwards | lab2/myswitch_to.py:40-48 | a frame for the switch sends nothing and a broadcast floods. A destination seen less than ten seconds ago gets one send to its port; one never seen, or seen ten or more seconds ago, is flooded |
| TimeoutSwitch.Switch.constructor | lab2/myswitch_to.py:14-17 | an empty table, nothing sent |
| TimeoutSwitch.Switch.Receive | lab2/myswitch_to.py:23-48 | one turn of the loop in place equals `ReceiveEffect` of the old state |
| BlastLayout.BigEndian | lab6/blaster.py:57 | packing a number below 256^n gives exactly n bytes |
| BlastLayout.FromBigEndian | lab6/blastee.py:33 | unpacking n bytes gives a number below 256^n |
| BlastLayout.BigEndianRoundTrip | lab6/blaster.py:57 | unpacking what was packed gives the number back |
| BlastLayout.FromBigEndianRoundTrip | lab6/blastee.py:33 | packing what was unpacked gives the bytes back |
| BlastLayout.PadTo | lab6/blaster.py:53 | data shorter than the length is zero-filled up to exactly the length, longer data is kept whole, and the data is always a prefix of the result |
| BlastLayout.ParseData | lab6/blastee.py:33-35 | a header is returned only for a payload of at least 6 bytes whose length field equals the number of bytes after the header |
| BlastLayout.DataPacketRoundTrip | lab6/blaster.py:53-57 | a data packet the blaster builds parses back to its sequence number, its length and the zero-padded data |
| BlastLayout.Fit8 | lab6/blastee.py:36 | `pack('!8s')` gives exactly 8 bytes: the first 8 of the data, or the data NUL-padded |
| BlastLayout.AckEchoesSeqno | lab6/blastee.py:36 | the acknowledgement of a data packet is 12 bytes; its first 4 unpack to the packet's sequence number, followed by the first 8 padded payload bytes |
| Blaster.Initial | lab6/blaster.py:33-39 | the window is empty at 1, nothing is acknowledged or sent, and no resend is running |
| Blaster.AboveShrinks | lab6/blaster.py:76-77 | passing an acknowledged number leaves fewer acknowledged numbers ahead, so the skip loop terminates |
| Blaster.SkipAcked | lab6/blaster.py:76-77 | the skip loop stops at the first unacknowledged number at or after its start |
| Blaster.SkipToLhs | lab6/blaster.py:89-90 | with every number below `lhs` acknowledged and `lhs` not, skipping from 1..lhs stops exactly at `lhs` and never below it |
| Blaster.InitialInv | lab6/blaster.py:33-39 | the initial state satisfies the window invariant |
| Blaster.TrySendKeepsInv | lab6/blaster.py:63-84 | `try_to_send` keeps the window invariant: 1 <= lhs <= rhs <= num+1, at most `window` packets in flight, acknowledgements only for sent packets, every number below `lhs` acknowledged, and a running resend cursor on a sent packet |
| Blaster.TrySendAtMostOne | lab6/blaster.py:63-84 | `try_to_send` sends at most one packet: the new packet `rhs` (rhs up by one), or a resend of an unacknowledged number in [lhs, rhs) (resend count up by one); `lhs` and the acknowledgements never change |
| Blaster.TimeoutResendsOldest | lab6/blaster.py:72-82 | at the timeout the timer restarts, one more timeout is counted, and `lhs`, the oldest unacknowledged packet, is resent when one is in flight |
| Blaster.NewPacketWhenWindowOpen | lab6/blaster.py:66-71 | before the timeout, with no resend running, the new packet `rhs` goes out exactly when the window has room and packets remain |
| Blaster.HandleAckKeepsInv | lab6/blaster.py:86-92 | an ack for a sent packet keeps the invariant and never moves `lhs` back. The new `lhs` is the first unacknowledged number, the timer is set to `now` when `lhs` moves and is left as it was when it does not, and the transfer is done exactly when every packet 1..num is acknowledged |
| Blaster.Sender.constructor | lab6/blaster.py:13-39 | the parameters are stored and the state is `Initial` |
| Blaster.Sender.TrySend | lab6/blaster.py:63-84 | `try_to_send` in place equals `TrySendEffect` of the old state |
| Blaster.Sender.StartOrTimeout | lab6/blaster.py:64-75 | the clock start and the new-packet-or-timeout branch in place |
| Blaster.Sender.Resend | lab6/blaster.py:76-84 | the resend-cursor loop in place equals `ResendPhase` |
| Blaster.Sender.HandleAck | lab6/blaster.py:86-101 | `handle_ack` in place equals `HandleAckEffect` of the old state |
| Blaster.Sender.HandlePacket | lab6/blaster.py:103-109 | `handle_packet` in place equals `HandlePacketEffect` of the old state |
| Blastee.ListIndex | lab6/blastee.py:42 | Python list indexing succeeds exactly for -n <= i < n, and a negative index counts from the end |
| Blastee.FillOne | lab6/blastee.py:42-44 | filling an empty slot adds exactly one to the number of filled slots |
| Blastee.FullMeansAllFilled | lab6/blastee.py:45-48 | a count equal to the number of slots means every slot holds a payload |
| Blastee.ExtractRoundTrip | lab6/blastee.py:48-50 | data prefixed with its 4-byte size and followed by any padding comes out of the output step unchanged |
| Blastee.Initial | lab6/blastee.py:22-24 | `num` empty slots with the count at 0, which satisfies the count invariant |
| Blastee.ReceiveKeepsInv | lab6/blastee.py:42-44 | the count always equals the number of filled slots |
| Blastee.EveryPacketAcked | lab6/blastee.py:33-41 | a malformed payload is an exception before any ack. Every other packet, duplicates included, gets exactly one 12-byte ack: its sequence-number bytes and its first 8 payload bytes |
| Blastee.FirstArrivalStored | lab6/blastee.py:42-44 | the first arrival of 1..num is stored in slot seqno-1 and counted, and a duplicate changes nothing but the acks. Sequence number 0 reaches the last slot, and one above `num` is an IndexError after its ack |
| Blastee.LastArrivalWrites | lab6/blastee.py:45-52 | filling the last slot with an output file writes the joined payloads after their size prefix, up to that size, and stops; without a file it only counts |
| Blastee.Receiver.constructor | lab6/blastee.py:13-25 | the slots and the state are `Initial(num)` |
| Blastee.Receiver.Receive | lab6/blastee.py:27-52 | `handle_packet` in place, on the slot array, equals `ReceiveEffect` of the old state |
| DnsServer.SplitOn | lab7/dnsServer/dns_server.py:72 | `split('.')` gives at least one part, no part contains the separator, and joining the parts back gives the string |
| DnsServer.Fields | lab7/dnsServer/dns_server.py:34 | `split()` (on every character `str.isspace()` accepts, not only ASCII blanks) gives non-empty, whitespace-free fields that together are exactly the line's non-whitespace characters in order |
| DnsServer.NoBreakSpaceSeparates | lab7/dnsServer/dns_server.py:34 | a no-break space between two names splits them into two fields, as any Unicode whitespace does for `str.split()` |
| DnsServer.FieldsAreMaximalRuns | lab7/dnsServer/dns_server.py:34 | the line is its fields with whitespace-only gaps around them, and every gap between two fields is non-empty: the fields are the maximal runs of non-whitespace, so the split is unique |
| DnsServer.ParseLine | lab7/dnsServer/dns_server.py:34-38 | a line is read exactly when it has at least two fields, or at least three for a CNAME; the first two fields are the domain and the type. A CNAME's value is the third field, any other type's value is the list of fields from the third on, and an unreadable line gives MissingField with its line number |
| DnsServer.ParseFrom | lab7/dnsServer/dns_server.py:33-38 | never more records than lines; no error exactly when every line was read |
| DnsServer.ParseFromReadsLines | lab7/dnsServer/dns_server.py:33-38 | the records are the lines' own records, in file order, up to the first unreadable line, and the error returned is that line's |
| DnsServer.LabelsFrom | lab7/dnsServer/dns_server.py:72 | `all` over `zip_longest` holds exactly when every position up to the longer label list passes |
| DnsServer.MatchReflexive | lab7/dnsServer/dns_server.py:72 | every name matches itself |
| DnsServer.MatchByLabels | lab7/dnsServer/dns_server.py:72 | `match` holds exactly when at each position the pattern label is `*`, the labels are equal, or both are empty or missing; extra name labels must be empty |
| DnsServer.SplitFirst | lab7/dnsServer/dns_server.py:72 | splitting at the first dot gives the label before it followed by the split of the rest |
| DnsServer.SplitNoSep | lab7/dnsServer/dns_server.py:72 | a string without dots splits into itself alone |
| DnsServer.WildcardCoversOneLabel | lab7/dnsServer/dns_server.py:72 | `*.example.com` serves `www.example.com` but not `a.www.example.com` |
| DnsServer.TrailingDotMatches | lab7/dnsServer/dns_server.py:72 | the empty last label of a trailing dot matches a missing one |
| DnsServer.FirstMatch | lab7/dnsServer/dns_server.py:81-82 | the first record whose domain serves the name; None exactly when none does |
| DnsServer.AnswerOf | lab7/dnsServer/dns_server.py:83-91 | the answer carries the record's type and its CNAME target or one of its addresses; it fails exactly for an empty address list |
| DnsServer.GetResponse | lab7/dnsServer/dns_server.py:74-94 | the scan answers from the first serving record and consults no later one; it gives no answer when no record serves the name |
| DnsServer.HandleAnswers | lab7/dnsServer/dns_server.py:106-128 | a malformed request gets FormErr and an unserved name gets NXDomain. Otherwise the reply carries the first serving record's type and its CNAME target or one of its addresses. When some record serves the name, the reply is withheld exactly when the first serving record has an empty address list, and carries records exactly when it does not |
| DnsServer.Server.constructor | lab7/dnsServer/dns_server.py:22-25 | the table starts empty |
| DnsServer.Server.ParseDnsFile | lab7/dnsServer/dns_server.py:27-38 | the table grows by exactly `ParseFrom` of the lines, and the first unreadable line's error is returned |

## Left out

- Linked nodes: `Node` and its pointer rewiring in `DictQueue` and
  `LRUCache` are modelled as the sequence the circular list encodes. Aliasing
  between the dict and the nodes is not modelled.
- DictQueues.DictQueue.Push: requires a key that is not yet present. Every
  caller in the routers pushes only absent keys (`RouterCore.ResolveAndSendKeepsQueue`
  and `DictQueues.HeadNotInTail` prove this), so a second node under the same
  key is not modelled.
- Packet encoding: switchyard's `to_bytes` is a parameter `encode` of the lab5
  configuration. Ethernet, IPv4, ICMP and UDP headers are records with only
  the fields the code reads or writes.
- TTL width: the IPv4 TTL is an unbounded integer. switchyard's rejection of a
  TTL outside 0..255, for example lab4's decrement of a TTL that is already 0,
  is not modelled.
- I/O and switchyard: `recv_packet`, `send_packet`, `log_*`, the
  `forwarding_table.txt` file (given to the constructors as a route list) and
  the `start`/`main` loops with their Shutdown and NoPackets handling are left
  out. `send_packet` calls are appended to a `sent` log.
- Time: `time.time()` is an integer `now` per call. The blaster's
  millisecond timeout is an integer in the same unit. The switch's
  ten-second limit is compared on the same integers.
- Blaster.Sender.HandlePacket: requires an acknowledgement payload of at least
  4 bytes. `unpack` of a shorter one raises, which is not modelled. Only the
  sequence numbers of sent packets are recorded, not their bytes; those bytes
  are `BlastLayout.DataPacket`.
- BlastLayout.DataPacket: requires a sequence number below 2^32 and a length
  below 2^16, the ranges `pack('!IH')` accepts. The `struct.error` raised
  beyond them is not modelled.
- Blaster.HandleAckKeepsInv: assumes the acknowledged number is one the blaster
  has sent (1 <= seqno < rhs). An ack from elsewhere would break the window
  invariant, and this lemma says nothing about it.
- Blaster.TrySendKeepsInv: assumes a window of at least 1, as in
  the default parameters. A window of 0 or less never sends.
- Blaster `get_data`: the input-file reading (seek, read, the 4-byte size
  prefix of the first packet) is left out. The data read is a parameter, and
  only its zero padding (`PadTo`) is modelled.
- The final `while True: pass` spins of the blaster and blastee are a `done`
  flag after which no more packets are handled. The blastee's file write
  is recorded in `written`.
- `lab6/middlebox.py` is not part of this model.
- DNS messages: `DNS_Request` decoding and encoding and `IP_Utils` location
  lookups are not part of this model. The request's validity and name are
  parameters.
- DnsServer.GetResponse: the choice among a record's addresses, by client
  distance or `random.choice`, is an index `pick`. The contract promises
  only that the answer is one of the record's addresses, not which one.
- Lab5Router.SendEffect: follows the corrected `send_ip` described under
  Findings. The as-written recursion is modelled by
  `Lab5Router.SendStepAsWritten` and `Lab5Router.SettlesAsWritten`.

## Findings

| source | as written | input that shows it | evidently intended | confidence | as-written member | corrected member |
|---|---|---|---|---|---|---|
| lab5/myrouter.py:162-163 | An unroutable packet is answered by calling `send_ip` on a Destination Unreachable error, which has source 0.0.0.0 and is aimed at the packet's source. When that source is unroutable too, the error is itself answered with an error to 0.0.0.0. When 0.0.0.0 is also unroutable, the calls never end | Router with the single interface 10.0.0.1/24 and only its connected route; an Echo Request from 8.8.8.8 to 9.9.9.9 | An error about a packet the router cannot route back is dropped, not answered with another error | not executed | Lab5Router.UnroutablePingNeverSettlesAsWritten | Lab5Router.ErrorNeverReissued |

The as-written chain is modelled step by step (`Lab5Router.SendStepAsWritten`).
`Lab5Router.UnsourcedChainNeverSettles` shows that no number of calls
settles it on that router. In Python the recursion ends in a
RecursionError that stops the router. The corrected `Lab5Router.SendStep`
drops an unroutable packet whose source is still 0.0.0.0. With that rule,
every chain of `send_ip` calls has at most two links, so the model's
`SendEffect` terminates without a fuel bound. `Lab5Router.UnroutablePingSettles`
shows the same ping leaving the state unchanged.
