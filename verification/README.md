# A model of dhcpcd in Dafny

`dhcpcd` is the DHCP client daemon of this repository: a DHCPv4 and a DHCPv6 client on top of a small
event loop. This project models the parts of it that are hardest to get right and proves what they
keep over every input and every run.

- **The event loop** (`Eloop`, `EventLoop`): the sorted list of timeouts, its free pool and the
  descriptors handed to `poll`. The list refines a map from (callback, argument) to due time.
- **The DHCPv4 client** (`Dhcp4` and the files named after it): `dhcp.c` as a state machine over that
  list. `Dhcp4` holds the handlers as functions on states, `Dhcp4Client` the same handlers as methods
  of an object that updates its fields, each proved equal to its function. `Dhcp4Timers` and
  `Dhcp4Effects` say what each handler does to the timers, `Dhcp4Safety`, `Dhcp4Chains`, `Dhcp4Offers`
  and `Dhcp4Reboot` prove invariants of every step, `Dhcp4Theorems` and `Dhcp4Retries` draw the
  conclusions about whole runs, and `Dhcp4Timing` has the arithmetic. `Dhcp4Example` and `Dhcp4Runs`
  exhibit runs from start-up: one that obtains a lease, and those that break a promise. A run may end in
  `dhcp_bind` without an offer, which is a crash; theorems about reachable states are about all others.
- **Packets** (`Checksum`, `UdpPacket`) and **option buffers** (`Options`, `Overload` for messages
  whose options continue in the boot file and server name fields, and `OptionBuffer` for the buffer in
  which a split option is put together).
- **Names and text** (`Names`, `Hostname`, `PrintText`).
- **Authentication** (`Auth`), with the keyed hash as a parameter.
- **The DHCPv6 client**: options on the wire (`Dhcp6Wire`), reconciling held addresses with one reply
  (`Dhcp6Lease`) and with every sequence of them (`Dhcp6Replies`), what a message contains and how long
  it is (`Dhcp6Message`), writing it through a cursor (`Dhcp6Writer`), reading it back (`Dhcp6ReadBack`,
  `Dhcp6Echo`), the message after a reply (`Dhcp6Next`), retransmission (`Dhcp6Backoff`) and ids for delegated prefixes (`Sla`).
- **Small companions**: `Bpf` (the packet filters under an interpreter) and `Arp` (probe counting).

Code that changes things in place is modelled by classes, arrays and loops, and every such method is
proved against a function of its inputs or of the old state; the promises are then proved about those
functions. The keyed hash is a function parameter; random numbers, clock readings, whether sockets
open and whether packets leave are inputs of each step, so a run may see any of them. `malloc`
succeeds. A callback is a value of `Callback`. Times are in microseconds.

`dafny verify dfyconfig.toml` checks everything.

## What the proofs turned up

Some promises one would expect do not hold of the code. Each is stated as the code has it, with the
exact condition under which the promise does hold.

- A finite lease has its expiry pending while BOUND, RENEW or REBIND (`LeaseSafety`), but not while
  discovering after `dhcp_timeout` nor while probing another address (`ExpiryIffHolding`,
  `TimeoutLosesExpiry`, `ProbingLosesExpiry`): there the old lease stays in force with nothing to end
  it. Both are reached from start-up, with every saved lease not older than its own time and with every
  other usable address (`TimeoutReached`, `ProbingReached`). In REQUEST it is pending
  exactly while a saved lease is confirmed and no last lease is to be used, and then due after the
  reboot time (`RequestExpiryIff`); in INIT, which a start whose socket fails leaves behind, it is as it
  was before (`FailedStartKeepsTimers`).
- A pending bind keeps its offer throughout a run if and only if the client is never started over, by
  the user or by carrier coming back, while a bind is pending and the socket fails to open
  (`BindHasOfferIff`). Both ways lead from start-up to `dhcp_bind` without an offer (`CrashReached`,
  `CarrierCrashReached`). Nothing else ends a run: every step keeps the invariant or is that one
  (`StepInv`), and messages are neither lost nor freed twice even then (`LinearOwnership`).
- With a lease to release, `dhcp_drop` and `send_message` call each other once for every time in a row
  that the socket does not open (`NestsWithFailures`): no depth bounds it, and a socket that never opens
  ends the stack.
- At most one retransmission is pending in every run that grants a given acknowledgement if and only if
  its T1 <= T2 (`OneRetransmissionIff`). The fallback for T1 ignores T2, so T1 > T2 can happen
  (`RenewAfterRebind`), and then two chains run side by side (`TwoChainsReached`).
- `dhcp_start` subtracts a saved lease's age from its times, but `dhcp_bind` reads them from the message
  again, so a lease not yet outdated is bound for its full time (`FileAgeIsIgnored`, `TimeoutReached`). The REBOOT phase
  is always left before the handler returns (`NeverRebooting`).
- A UDP checksum that comes out as zero is sent as zero, not as all ones (`FieldIsRfc768`); there is such
  a payload for every pair of addresses (`ZeroSumPayload`).
- The walk of `get_option` goes round in circles on a message whose boot file or server name field
  overloads again (`EndlessIff`, `SelfOverloadIsEndless`); every other walk ends after at most five areas.
- `get_option` copies a split option into 1472 bytes unchecked. That is enough for a message that is
  not overloaded, or that visits no area twice (`NotOverloadedFits`, `OnceFits`). A walk that ends writes
  behind the buffer exactly when all it gathered is longer (`OverrunBySum`, `TwiceOverruns`), and one that
  would go round for ever does exactly when its circle holds data or one round of it already does
  (`OverrunIff`, `CircleOverruns`); only the remaining ones never return (`OutcomeIff`).
- Because END is not written, a saved lease no longer visits those two fields: an answer survives
  exactly when they added nothing to it (`LeaseRoundTrip`, and `ReloadedOutcome` with the buffer).
- The room check of `dhcp_message_add_addr` is one byte short, which only matters at END offset 1226
  (`OverrunsOnlyAt1226`), an offset its own messages never reach (`AppendRendered`).
- `encode_rfc1035` measures more than it writes exactly for names with an inner label whose length is a
  multiple of 256, the empty one above all (`Hostname.MeasuredIsWritten`).
- `print_string` checks room only before escapes: it writes past its room exactly when some beginning of
  the text passes those checks and does not fit (`WritesPastRoomIff`, `SucceedsPastRoomIff`).
- The replay check rejects only a repetition of the last counter (`ReplayRejectsOnlyRepeats`).
- `dhcp6_findoption` finds everything that was written except an empty option at the very end of a
  message (`FindAllEncoded`, `AllFoundIff`).
- A DHCPv6 reply that names an address twice queues its node twice (`IntactIffDistinct`).
- `dhcp6_findia` takes an address under any IAID the reply gives it, but `dhcp6_makemessage` measures
  all live addresses and writes only those of configured IAs: after a reply the next message fills its
  memory exactly when every live address is under a configured IAID, else its tail is sent unwritten
  (`NextMessageIff`, `UnconfiguredIaid`). The opposite, writing more than was measured, would take a held
  address while soliciting (`MeasuredIffAddresses`); `dhcp6_startdiscover` has then freed them all, so it
  cannot happen (`SolicitsAgree`).
- The clearing of the elapsed time covers a pointer's size instead of two bytes, which stays inside the
  message because the vendor class follows (`PutElapsed`). A vendor class over 65535 bytes is measured
  as an empty option and then not written at all.
- A capped retransmission time stays at the cap, unless the cap were a single second (`CapHoldsIff`).
- A configured SLA id is not recorded, so an id made up later can equal it: all ids in force stay
  distinct over a run exactly when no step collides (`DistinctIffNoCollision`, `MadeUpIff`,
  `ConfiguredMayCollide`).
- The ARP filter also accepts every frame whose type field is 2 (`ArpFilterAccepts`).

## Model

| member | source | states |
|---|---|---|
| `Eloop.AddRefines` | dhcpcd/eloop.c:162-214 | adding a timeout updates exactly its key in the map of due times, whether the node is reused, taken from the pool or allocated, keeps the list sorted with unique keys and every node in one place; a sum that wraps is refused and changes nothing |
| `Eloop.RescheduledRefines` | dhcpcd/eloop.c:170-213 | removing a key and inserting it again by time is a map update on the sorted list |
| `Eloop.AddIsStable` | dhcpcd/eloop.c:204-213 | the new timeout stands behind all that are due no later and before all that are due later; the rest keep their order |
| `Eloop.DiscardRefines` | dhcpcd/eloop.c:244-293 | deleting keeps exactly the entries kept, in their order, restricts the map to their keys, and moves each dropped node to the pool |
| `Eloop.FireRefines` | dhcpcd/eloop.c:342-363 | the fired timeout is due, is a minimum, and only its key leaves the map |
| `Eloop.StepKeepsValid` | dhcpcd/eloop.c:162-293 | every operation, also between the start and end of a firing, keeps sortedness, unique keys and node ownership |
| `Eloop.EveryRunKeepsValid` | dhcpcd/eloop.c:162-363 | the same over every sequence of adds, deletes and re-entrant firings |
| `EventLoopClass.EventLoop.AddTimeout` | dhcpcd/eloop.c:162-214 | the in-place lists become what the specification of adding says, error return included |
| `EventLoopClass.EventLoop.FindTimeout` | dhcpcd/eloop.c:179-188 | the walk finds the first node with this callback and argument |
| `EventLoopClass.EventLoop.InsertSorted` | dhcpcd/eloop.c:204-213 | the walk inserts before the first later timeout |
| `EventLoopClass.EventLoop.DeleteTimeout` | dhcpcd/eloop.c:280-293 | deletes one or all callbacks of an argument in place, nodes to the pool in order |
| `EventLoopClass.EventLoop.DeleteTimeoutsExcept` | dhcpcd/eloop.c:244-278 | deletes all callbacks of an argument but the listed ones |
| `EventLoopClass.EventLoop.AddNow` | dhcpcd/eloop.c:227-239 | the single immediate slot is used if free, else a timeout of delay zero |
| `EventLoopClass.EventLoop.Next` | dhcpcd/eloop.c:337-363 | a turn runs the immediate slot, or a head that is due, or waits until the head |
| `EventLoopClass.EventLoop.Finish` | dhcpcd/eloop.c:352-363 | after the callback the node is in the pool |
| `EventLoopClass.Poller.SetupFds` | dhcpcd/eloop.c:77-91 | the poll array lists the watched descriptors and each event points at its own entry |
| `EventLoopClass.Poller.AddEvent` | dhcpcd/eloop.c:93-144 | a known descriptor gets the new callback, an unknown one is added in front; the poll array stays in step |
| `EventLoopClass.Poller.DeleteEvent` | dhcpcd/eloop.c:146-160 | exactly this descriptor is no longer watched |
| `Dhcp4Timers.Stops` | dhcpcd/eloop.c:280-293 | deleting one callback removes exactly that key of the pending timers |
| `Dhcp4Timers.KeepsExpiry` | dhcpcd/dhcp.c:2018-2061 | "delete all but the expiry" leaves at most the expiry, unchanged |
| `Dhcp4Effects.SendEffect` | dhcpcd/dhcp.c:1478-1584 | sending either arms exactly its own retransmission and moves no message, or drops the lease |
| `Dhcp4Effects.DropEffect` | dhcpcd/dhcp.c:2018-2061 | dropping clears the lease in force and the old one, keeps at most the expiry, conserves messages |
| `Dhcp4Safety.StepInv` | dhcpcd/dhcp.c:1621-2466 | every packet, timer, carrier, conflict, address and restart step keeps the lease, offer and ownership invariant, or is the firing of a bind left over from a failed start that finds no offer |
| `Dhcp4Safety.RunInv` | dhcpcd/dhcp.c:1621-2466 | hence every run does, or ends in that crash with every message still owned once |
| `Dhcp4Theorems.LeaseSafety` | dhcpcd/dhcp.c:1729-1845 | in every reachable BOUND, RENEW or REBIND state with a finite lease the expiry is pending exactly one lease time after the timers were set |
| `Dhcp4Theorems.LeaseTerms` | dhcpcd/dhcp.c:1247-1275 | in every such state the address and its time are those the message in force grants, at least 20 seconds, with T1 and T2 strictly inside |
| `Dhcp4Theorems.RenewalsScheduled` | dhcpcd/dhcp.c:1827-1832 | in every reachable BOUND state with a finite lease the renewal and rebind timers are pending, T1 and T2 after the bind |
| `Dhcp4Theorems.NeverOutlived` | dhcpcd/dhcp.c:1827-1832 | no packet, carrier or address event is handled with such an address after its lease time |
| `Dhcp4Theorems.ExpiryClears` | dhcpcd/dhcp.c:1670-1683 | when the expiry fires the lease in force is gone and discovery runs |
| `Dhcp4Theorems.ExpiryIffHolding` | dhcpcd/dhcp.c:1729-1856 | with a finite lease in force, in every phase but INIT and REQUEST, the expiry is pending if and only if the phase is BOUND, RENEW or REBIND |
| `Dhcp4Reboot.StepAsked` | dhcpcd/dhcp.c:1621-2745 | every step keeps what is known of the expiry while requesting |
| `Dhcp4Reboot.RequestExpiryIff` | dhcpcd/dhcp.c:1963-2016 | in every reachable REQUEST state with a lease in force the expiry is pending if and only if a saved lease is being confirmed and no last lease is to be used, and is then due within the reboot time |
| `Dhcp4Reboot.ExpiryIff` | dhcpcd/dhcp.c:1729-2016 | in every phase but INIT the expiry of a finite lease in force is pending if and only if the phase maintains the lease or confirms it without a last lease |
| `Dhcp4Reboot.FailedStartKeepsTimers` | dhcpcd/dhcp.c:2642-2680 | a start whose socket fails leaves INIT with lease and timers as they were |
| `Dhcp4Theorems.NeverRebooting` | dhcpcd/dhcp.c:1963-2016 | no step ever starts in the REBOOT phase |
| `Dhcp4Theorems.TimeoutLosesExpiry` | dhcpcd/dhcp.c:1847-1856 | binding the saved lease at the reboot timeout leaves it in force for the time its message grants, without an expiry |
| `Dhcp4Runs.TimeoutReached` | dhcpcd/dhcp.c:2699-2745 | every saved lease that is not older than its time, whatever its age up to then, can be brought to that state from start-up |
| `Dhcp4Theorems.ProbingLosesExpiry` | dhcpcd/dhcp.c:2289-2312 | probing a newly acknowledged address other than the one in use leaves the old lease in force without an expiry |
| `Dhcp4Runs.ProbingReached` | dhcpcd/dhcp.c:2289-2312 | for every usable address but the bound one, a run from start-up renews its lease, is given that address instead, and loses the pending expiry to probing |
| `Dhcp4Theorems.FileAgeIsIgnored` | dhcpcd/dhcp.c:1728-1845 | in every run, when the reboot timeout finds an offer and binds the saved lease its expiry is set the full time the message grants after the bind, whatever age was subtracted at start |
| `Dhcp4Theorems.LinearOwnership` | dhcpcd/dhcp.c:2129-2466 | in every state of every run, the crashed one included, each message ever allocated is in exactly one slot or was freed exactly once |
| `Dhcp4Offers.StepTidy` | dhcpcd/dhcp.c:1621-2745 | every step but a start with a bind pending on a socket that fails keeps an offer beside every pending bind |
| `Dhcp4Offers.BindHasOffer` | dhcpcd/dhcp.c:1743-1746 | in every run without an unlucky restart a pending bind, timeout or probe has an offer, and bind is never entered without |
| `Dhcp4Offers.BindHasOfferIff` | dhcpcd/dhcp.c:2642-2680 | every pending bind keeps its offer throughout a run if and only if no step starts over, with a bind pending, on a socket that fails |
| `Dhcp4Offers.UnluckyRestart` | dhcpcd/dhcp.c:2642-2680 | starting over, on request or when carrier comes back, with a bind pending and a socket that fails always frees the offer and keeps the timer |
| `Dhcp4Offers.BindWithoutOfferCrashes` | dhcpcd/dhcp.c:1743-1746 | firing that timer enters bind without an offer |
| `Dhcp4Runs.CrashReached` | dhcpcd/dhcp.c:2642-2680 | a run from start-up over a failed restart enters bind without an offer |
| `Dhcp4Runs.CarrierCrashReached` | dhcpcd/dhcp.c:2379-2466 | so does one in which a packet is accepted without carrier and carrier comes back |
| `Dhcp4Chains.StepChain` | dhcpcd/dhcp.c:1586-1726 | every step whose messages have T1 <= T2 keeps at most one retransmission, none of its rivals, and renewal before rebind in the list, unless it crashes for want of an offer |
| `Dhcp4Chains.RunChain` | dhcpcd/dhcp.c:1586-1726 | hence every run does |
| `Dhcp4Theorems.OneRetransmission` | dhcpcd/dhcp.c:1586-1726 | at most one of the four retransmissions is pending and it fits the phase |
| `Dhcp4Theorems.FiringOrder` | dhcpcd/dhcp.c:1827-1832 | renewal, rebind and expiry fire in that order, also when T1 = T2 |
| `Dhcp4Theorems.RebindBeforeRenew` | dhcpcd/dhcp.c:1710-1726 | with T2 before T1, rebinding leaves the renewal pending at its time and arms its own retransmission |
| `Dhcp4Theorems.TwoChains` | dhcpcd/dhcp.c:1692-1708 | ... which then starts a second retransmission chain |
| `Dhcp4Runs.TwoChainsReached` | dhcpcd/dhcp.c:1827-1832 | every acknowledgement of a usable address with T1 > T2 can lead from start-up into two chains |
| `Dhcp4Runs.OneRetransmissionIff` | dhcpcd/dhcp.c:1586-1726 | at most one retransmission is pending in every run granting a given acknowledgement if and only if its T1 <= T2 |
| `Dhcp4Theorems.NthTransmission` | dhcpcd/dhcp.c:1498-1507 | a transmission with the interval of the n-th is followed after min(4*2^n, 64) seconds, give or take one |
| `Dhcp4Retries.RetriesDouble` | dhcpcd/dhcp.c:1498-1507 | over every run of retransmissions that leave, the waits are 4, 8, 16, ... at most 64 seconds, give or take one |
| `Dhcp4Theorems.NthNak` | dhcpcd/dhcp.c:2170-2195 | a NAK with the backoff of the n-th drops the lease and restarts discovery after 0, 1, 2, 4, ... at most 60 seconds |
| `Dhcp4Retries.StepNakoff` | dhcpcd/dhcp.c:2129-2316 | every step without an accepted ACK or BOOTP reply and without a start raises the backoff by the NAKs it handles and by nothing else |
| `Dhcp4Retries.NaksBackOff` | dhcpcd/dhcp.c:2170-2281 | over every run of such steps, with offers, requests, conflicts and timers between, the backoff is that of the number of NAKs handled |
| `Dhcp4Retries.NakStep` | dhcpcd/dhcp.c:2170-2195 | handling a NAK after n of them drops the lease and starts discovery after 0, 1, 2, 4, ... at most 60 seconds |
| `Dhcp4Retries.NestsWithFailures` | dhcpcd/dhcp.c:2018-2061 | releasing a lease enters dhcp_drop once more than the socket fails to open in a row |
| `Dhcp4Theorems.SendSucceeds` | dhcpcd/dhcp.c:1478-1584 | with sockets and packets going through, the retransmission is armed in its window and the lease stays |
| `Dhcp4Timing.LeaseTimes` | dhcpcd/dhcp.c:1773-1803 | a finite bind lasts at least 20 seconds with 0 < T1, T2 < lease |
| `Dhcp4Timing.ServerTimesKept` | dhcpcd/dhcp.c:1773-1803 | sensible times from the server are used as they are |
| `Dhcp4Timing.RenewAfterRebind` | dhcpcd/dhcp.c:1773-1803 | T1 > T2 if and only if the server's T2 is below half the lease and its T1 absent or above it |
| `Dhcp4Timing.IntervalDoubles` | dhcpcd/dhcp.c:1498-1507 | the interval after n transmissions in closed form |
| `Dhcp4Timing.DelayWindow` | dhcpcd/dhcp.c:1498-1507 | the delay lies in [interval - 1, interval + 1) seconds |
| `Dhcp4Timing.NakoffDoubles` | dhcpcd/dhcp.c:2186-2193 | the NAK backoff in closed form |
| `Dhcp4Example.LeaseIsReached` | dhcpcd/dhcp.c:2129-2316 | a run from start-up over offer and acknowledgement reaches a finite lease in force |
| `Dhcp4Client.Client.SendMessage` | dhcpcd/dhcp.c:1478-1584 | sends through the right socket, falls back or drops on errors, and re-arms itself, as the state machine says |
| `Dhcp4Client.Client.DropLease` | dhcpcd/dhcp.c:2018-2061 | dhcp_drop in place |
| `Dhcp4Client.Client.DiscoverServers` | dhcpcd/dhcp.c:1621-1658 | dhcp_discover in place |
| `Dhcp4Client.Client.SendRequestFor` | dhcpcd/dhcp.c:1660-1668 | dhcp_request in place |
| `Dhcp4Client.Client.ExpireNow` | dhcpcd/dhcp.c:1670-1683 | dhcp_expire in place |
| `Dhcp4Client.Client.StartRenewing` | dhcpcd/dhcp.c:1692-1708 | dhcp_renew in place |
| `Dhcp4Client.Client.StartRebinding` | dhcpcd/dhcp.c:1710-1726 | dhcp_rebind in place |
| `Dhcp4Client.Client.BindOffer` | dhcpcd/dhcp.c:1728-1845 | dhcp_bind in place |
| `Dhcp4Client.Client.BindLastLease` | dhcpcd/dhcp.c:1847-1856 | dhcp_timeout in place |
| `Dhcp4Client.Client.AnnounceAddress` | dhcpcd/arp.c:214-266 | arp_announce in place, for a lease with the DHCP cookie |
| `Dhcp4Client.Client.ProbeAddress` | dhcpcd/arp.c:268-328 | arp_probe in place, without a list of addresses to search for |
| `Dhcp4Client.Client.RebootLease` | dhcpcd/dhcp.c:1963-2016 | dhcp_reboot in place |
| `Dhcp4Client.Client.StartClient` | dhcpcd/dhcp.c:2642-2745 | dhcp_start in place |
| `Dhcp4Client.Client.NakReceived` | dhcpcd/dhcp.c:2170-2195 | the NAK branch of dhcp_handledhcp in place |
| `Dhcp4Client.Client.AcceptMessage` | dhcpcd/dhcp.c:2278-2316 | the tail of dhcp_handledhcp in place |
| `Dhcp4Client.Client.HandleMessage` | dhcpcd/dhcp.c:2129-2316 | dhcp_handledhcp in place |
| `Dhcp4Client.Client.ReceivePackets` | dhcpcd/dhcp.c:2379-2466 | the loop of dhcp_handlepacket with its buffer |
| `Dhcp4Client.Client.AddressConflict` | dhcpcd/arp.c:90-115 | arp_failure in place |
| `Dhcp4Client.Client.HandleInput` | dhcpcd/dhcp.c:1621-2745 | the object's fields after any input are what the step of the state machine says |
| `Checksum.SumIsOnesComplement` | dhcpcd/dhcp.c:1406-1427 | for every length up to 65535 the checksum is the complement of the one's-complement sum of the words |
| `Checksum.FoldIsCanon` | dhcpcd/dhcp.c:1421-1422 | two folds suffice |
| `Checksum.StoredSumIsZero` | dhcpcd/dhcp.c:1406-1427 | a block that stores its own checksum sums to zero |
| `Checksum.WordSumPad` | dhcpcd/dhcp.c:1465 | zero padding does not change the sum, also after an odd length |
| `Checksum.Compute` | dhcpcd/dhcp.c:1406-1427 | the loop on 32 bits never overflows and computes that checksum |
| `UdpPacket.RoundTrip` | dhcpcd/dhcp.c:1429-1476 | a packet built from any payload that fits is accepted, from its sender, and unwraps to that payload, whatever the receiver's buffer held |
| `UdpPacket.StandsInForPseudoHeader` | dhcpcd/dhcp.c:1454-1465 | the partly filled IP header gives the checksum RFC 768 defines with its pseudo header |
| `UdpPacket.FieldIsRfc768` | dhcpcd/dhcp.c:1465 | the stored field is RFC 768's if and only if the sum is not zero |
| `UdpPacket.ZeroSumPayload` | dhcpcd/dhcp.c:1465 | for every pair of addresses two bytes of payload make the sum zero |
| `UdpPacket.IpHeaderSumsToZero` | dhcpcd/dhcp.c:1467-1472 | the finished IP header sums to zero |
| `UdpPacket.MakeUdpPacket` | dhcpcd/dhcp.c:1429-1476 | the passes over the packet in place produce the specified packet |
| `UdpPacket.ValidUdpPacket` | dhcpcd/dhcp.c:2328-2377 | the checks in place decide as specified |
| `Options.GetOptionJoins` | dhcpcd/dhcp.c:154-227 | in a well-formed area a lookup is the concatenation of all instances in order |
| `Overload.LeaseRoundTrip` | dhcpcd/dhcp.c:989-1032 | saving and reloading a lease leaves an answer unchanged if and only if there was no END, or no overload, or the two fields added nothing to the answer |
| `Overload.EndlessIff` | dhcpcd/dhcp.c:192-213 | with a buffer that never runs out a lookup never answers if and only if the overload byte of the options area leads into a circle of the two fields (OptionBuffer.OutcomeIff has the buffer) |
| `Overload.EndlessIsForever` | dhcpcd/dhcp.c:192-213 | such a walk asks for another area after any number of them, while all others end after at most five |
| `Overload.SelfOverloadIsEndless` | dhcpcd/dhcp.c:192-213 | a boot file field that asks for itself is such a circle, whatever is looked up |
| `Overload.FinalWith` | dhcpcd/dhcp.c:154-227 | the two fields add to an answer what they hold by themselves, behind what the options area held |
| `OptionBuffer.LookUp` | dhcpcd/dhcp.c:154-227 | the walk with its 1472-byte buffer, through the boot file and server name fields where the message is overloaded, gives that lookup, malformed areas included, or overruns the buffer exactly as specified, wherever it comes to an end |
| `OptionBuffer.NotOverloadedFits` | dhcpcd/dhcp.c:168-190 | without overload the buffer is never overrun |
| `OptionBuffer.OnceFits` | dhcpcd/dhcp.c:192-204 | nor is it when each of the two fields is visited at most once |
| `OptionBuffer.EndedWalk` | dhcpcd/dhcp.c:168-227 | a walk that ends overruns the buffer if and only if all it gathered, up to a malformed instance too, is longer than 1472 bytes; otherwise its answer is the concatenation |
| `OptionBuffer.OverrunBySum` | dhcpcd/dhcp.c:168-227 | that is, if and only if the options area and what the walk over the fields gathers by itself exceed 1472 bytes together |
| `OptionBuffer.TwiceOverruns` | dhcpcd/dhcp.c:192-204 | a boot file field that asks for itself and the server name: the walk ends, and overruns if and only if the options area held more than 1169 bytes |
| `OptionBuffer.OverrunIff` | dhcpcd/dhcp.c:168-213 | over any number of areas the buffer is overrun if and only if an ended walk gathered too much, or a circle gathers anything in six areas, or the first eight areas do it |
| `OptionBuffer.OutcomeIff` | dhcpcd/dhcp.c:168-227 | the lookup goes on for ever if and only if its walk is a circle and that fails; otherwise some number of areas brings the specified outcome |
| `OptionBuffer.CircleOverruns` | dhcpcd/dhcp.c:168-213 | a boot file field that asks for itself and holds one byte of the option overruns the buffer |
| `OptionBuffer.ReloadedOutcome` | dhcpcd/dhcp.c:989-1032 | the condition of Overload.LeaseRoundTrip is exact with the buffer too: a reloaded lease never overruns it |
| `Options.ElsewhereIfOverloaded` | dhcpcd/dhcp.c:192-204 | the walk of the options area goes on to another exactly for the overload byte met on the way |
| `Options.LeaseLength` | dhcpcd/dhcp.c:989-1002 | the walk of write_lease stops at the END marker or the end |
| `Options.OverrunsOnlyAt1226` | dhcpcd/dhcp.c:646-668 | the room check admits a write behind the area only for END at 1226 |
| `Options.AddAddr` | dhcpcd/dhcp.c:646-668 | appends kind, length, address and END in place, with END at 1226 one byte behind the area, or refuses and changes nothing; without an END the walk leaves the area |
| `Options.NewIsRendered` | dhcpcd/dhcp.c:1858-1877 | a new message holds exactly its netmask |
| `Options.AppendRendered` | dhcpcd/dhcp.c:646-668 | END stays at multiples of six, never 1226, until 205 addresses are held |
| `Options.LookUpRendered` | dhcpcd/dhcp.c:154-227 | a lookup returns all addresses of its kind in the order they were added |
| `Options.AppendThenLookUp` | dhcpcd/dhcp.c:646-668 | an append changes no other answer and adds its address to its own |
| `Options.BuildMessage` | dhcpcd/dhcp.c:1858-1877 | any sequence of appends to a new message stays inside the array and holds what fits, in order |
| `Names.NextAdvances` | dhcpcd/dhcp-common.c:185-231 | every decoded name, pointers included, resumes behind where it began, which makes the decoding end |
| `Names.DecodeName` | dhcpcd/dhcp-common.c:187-229 | one name is appended, found malformed, or found too long for the room, on every byte string |
| `Names.DecodeRfc3397` | dhcpcd/dhcp-common.c:174-239 | the measuring pass and a writing pass with that room agree to the byte; less room or a malformed list fails |
| `Hostname.MeasuredIsWritten` | dhcpcd/dhcp-common.c:118-168 | the measured length is the written one if and only if no inner label has length 0, 256, 512, ...; never less |
| `Hostname.EncodeRfc1035` | dhcpcd/dhcp-common.c:118-168 | the loop writes the encoding in place, or measures |
| `Hostname.RoundTrip` | dhcpcd/dhcp-common.c:118-239 | decoding an encoded host name gives it back without trailing dot, single labels included |
| `Hostname.NameNeverStops` | dhcpcd/dhcp-common.c:140-155 | names whose labels have 1 to 63 bytes never take the early return |
| `PrintText.PrintString` | dhcpcd/dhcp-common.c:241-305 | measures, or writes exactly the text and its terminator, or fails exactly on a room check; says which memory is written in each case |
| `PrintText.MeasuredIsEnough` | dhcpcd/dhcp-common.c:241-305 | with the measured room no check fails |
| `PrintText.PlainIsUnchecked` | dhcpcd/dhcp-common.c:290-297 | plain text passes in any room at all |
| `PrintText.EnoughIff` | dhcpcd/dhcp-common.c:257-289 | all checks pass if and only if there is no escape or more room than the text takes through its last |
| `PrintText.SucceedsPastRoomIff` | dhcpcd/dhcp-common.c:241-305 | a successful call writes past the room if and only if that holds and the text does not fit |
| `PrintText.WritesPastRoomIff` | dhcpcd/dhcp-common.c:241-305 | any call does if and only if some beginning of the text passes its checks and does not fit |
| `PrintText.EscapesAreGuarded` | dhcpcd/dhcp-common.c:272-289 | every shell-active character in the text stands behind a backslash |
| `PrintText.TextIsPrintable` | dhcpcd/dhcp-common.c:257-297 | the text is printable ASCII |
| `PrintText.TextReadsBack` | dhcpcd/dhcp-common.c:241-305 | reading the escapes gives the data back but for trailing zeros |
| `PrintText.PrintSearchList` | dhcpcd/dhcp-common.c:375-386 | decode then print, measured by a first call, writes exactly that much in a second |
| `Auth.FindToken` | dhcpcd/auth.c:226-233 | the walk finds the first token for the secret and realm |
| `Auth.ChoiceIsFirstMatch` | dhcpcd/auth.c:371-388 | left to itself the token protocol chooses a first match that has not expired |
| `Auth.SizeIsConsumed` | dhcpcd/auth.c:418-556 | writing into an option of the measured size leaves nothing over |
| `Auth.TokenAccepted` | dhcpcd/auth.c:83-300 | a token-protocol option is accepted |
| `Auth.DelayedAccepted` | dhcpcd/auth.c:83-300 | a delayed or delayed-realm option is accepted: the receiver hashes what the sender hashed |
| `Auth.RoundTrip` | dhcpcd/auth.c:83-556 | for all three protocols the option is accepted, binds the session, and hops, giaddr and the rest of the message are as before |
| `Auth.ReplayRejectsOnlyRepeats` | dhcpcd/auth.c:133-137 | a bound session rejects a valid option if and only if its counter is the last one |
| `Auth.EncodeInPlace` | dhcpcd/auth.c:446-556 | the write pass on the message buffer, with fields cleared and restored around the hash, refusals and an option too short for the hash included |
| `Auth.SignAt` | dhcpcd/auth.c:523-552 | the hash is computed with hops and giaddr cleared, stored, and the fields restored |
| `Auth.AuthState.ValidateOption` | dhcpcd/auth.c:83-300 | decides as specified and updates the session only on acceptance |
| `Dhcp6Wire.FindOption` | dhcpcd/dhcp6.c:254-275 | the walk finds the first option of the code it can see |
| `Dhcp6Wire.FindAllEncoded` | dhcpcd/dhcp6.c:254-275 | repeated searches find every option that was written, in order, except an empty one at the very end |
| `Dhcp6Wire.AllFoundIff` | dhcpcd/dhcp6.c:254-275 | all are found if and only if the message does not end in an empty option of the code |
| `Dhcp6Wire.ParsedEncoded` | dhcpcd/dhcp6.c:549-686 | written options parse back to themselves |
| `Dhcp6Lease.Reconciled` | dhcpcd/dhcp6.c:1519-1609 | after a successful reply with distinct addresses the queue is the named survivors in place with their identity, then the newcomers in reply order |
| `Dhcp6Lease.ReconciledKeys` | dhcpcd/dhcp6.c:1351-1609 | nothing stale is left, every entry has the reply's lifetimes, every address of the reply is there once |
| `Dhcp6Lease.ReconciledTimes` | dhcpcd/dhcp6.c:1351-1636 | expire is the largest valid lifetime, lowpl the smallest nonzero preferred one, renew and rebind the smallest nonzero T1 and T2 |
| `Dhcp6Lease.TimesOfIa` | dhcpcd/dhcp6.c:1557-1578 | T1 and T2 are dropped together exactly when T1 > T2 > 0 |
| `Dhcp6Lease.IntactIffDistinct` | dhcpcd/dhcp6.c:1429-1432 | the queue survives a successful reply if and only if no address comes twice |
| `Dhcp6Lease.AddressQueue.FindAddr` | dhcpcd/dhcp6.c:1275-1294 | the walk finds the first entry with the address |
| `Dhcp6Lease.AddressQueue.TakeItem` | dhcpcd/dhcp6.c:1377-1434 | one option refreshes or adds an entry and the times |
| `Dhcp6Lease.AddressQueue.FindItems` | dhcpcd/dhcp6.c:1351-1517 | the loops of dhcp6_findna and dhcp6_findpd take every option that is long enough, in order |
| `Dhcp6Lease.AddressQueue.MarkStale` | dhcpcd/dhcp6.c:1536-1538 | every entry is marked |
| `Dhcp6Lease.AddressQueue.Sweep` | dhcpcd/dhcp6.c:1599-1608 | exactly the entries still marked leave the queue |
| `Dhcp6Lease.AddressQueue.FindOneIa` | dhcpcd/dhcp6.c:1549-1597 | one IA: times, status, items, or refusal |
| `Dhcp6Lease.AddressQueue.FindIas` | dhcpcd/dhcp6.c:1519-1609 | dhcp6_findia in place, failures included |
| `Dhcp6Lease.AddressQueue.Validate` | dhcpcd/dhcp6.c:1611-1636 | dhcp6_validatelease in place |
| `Dhcp6Replies.FailedTakes` | dhcpcd/dhcp6.c:1580-1596 | a reply refused for its j-th IA, the first without good status or items, has taken exactly the items of the IAs before it |
| `Dhcp6Replies.FromFirst` | dhcpcd/dhcp6.c:1611-1636 | handing on the message from its first IA loses none of its items |
| `Dhcp6Replies.EveryReplyKeepsQueue` | dhcpcd/dhcp6.c:1351-1636 | over every sequence of replies that name no address twice, accepted or refused, the queue stays intact and lists no address twice |
| `Dhcp6Echo.EchoKeepsAddresses` | dhcpcd/dhcp6.c:1519-1609 | a reply that repeats the client's IAs is accepted and leaves exactly their live addresses: same nodes, order and lifetimes |
| `Dhcp6Echo.OwnMessageKeepsAddresses` | dhcpcd/dhcp6.c:577-634 | the message the client wrote, read as a reply, does so: writer, reader and reconciliation agree |
| `Dhcp6Message.PassesDiffer` | dhcpcd/dhcp6.c:406-686 | the two passes differ by addresses written but not allowed for and by the name's shortfall, and by nothing else |
| `Dhcp6Message.MeasuredIffName` | dhcpcd/dhcp6.c:406-686 | with addresses that suit the phase nothing exceeds the measured length, and the passes agree if and only if the name sent has no inner label of length 0, 256, 512, ... |
| `Dhcp6Message.MeasuredIffAddresses` | dhcpcd/dhcp6.c:436-485 | with a good name they agree if and only if every live address has its IA, or, while soliciting, none has |
| `Dhcp6Next.NextMessageIff` | dhcpcd/dhcp6.c:1519-1609 | after an accepted reply the next message that carries the addresses fills its memory if and only if every live address it brought or kept is under a configured IAID |
| `Dhcp6Next.UnconfiguredIaid` | dhcpcd/dhcp6.c:1389-1394 | every reply with one address under another IAID is accepted by a client that holds none and makes the next message fall short |
| `Dhcp6Next.SolicitsAgree` | dhcpcd/dhcp6.c:983-1012 | while soliciting nothing is held and the passes agree |
| `Dhcp6Message.CursorIffFits` | dhcpcd/dhcp6.c:549-686 | the cursor, which steps over 16-bit lengths, covers what was written if and only if all lengths fit |
| `Dhcp6Message.VendorMeasured` | dhcpcd/dhcp6.c:196-252 | the vendor class written has the length measured |
| `Dhcp6ReadBack.IaReadsBack` | dhcpcd/dhcp6.c:577-634 | the client's own reader finds in an IA it wrote exactly the live addresses of that IA, nested lengths agreeing |
| `Dhcp6ReadBack.MessageReadsBack` | dhcpcd/dhcp6.c:549-686 | the whole message parses back to its options, and its IAs read back as configured and held |
| `Dhcp6Writer.MakeVendor` | dhcpcd/dhcp6.c:196-252 | both passes of dhcp6_makevendor |
| `Dhcp6Writer.Measure` | dhcpcd/dhcp6.c:406-531 | the measuring pass |
| `Dhcp6Writer.PutElapsed` | dhcpcd/dhcp6.c:559-563 | the elapsed time, whose clearing runs into the next option |
| `Dhcp6Writer.PutIa` | dhcpcd/dhcp6.c:577-634 | an IA written address by address, its length field growing in place |
| `Dhcp6Writer.PutAssociations` | dhcpcd/dhcp6.c:577-634 | all IAs through the cursor |
| `Dhcp6Writer.PutRequests` | dhcpcd/dhcp6.c:636-678 | the name and the requested option codes |
| `Dhcp6Writer.WriteMessage` | dhcpcd/dhcp6.c:549-686 | the writing pass fills the memory from its start with header and options |
| `Dhcp6Writer.SuitedFits` | dhcpcd/dhcp6.c:406-686 | addresses that suit the phase keep the writing inside the memory |
| `Dhcp6Writer.MakeMessage` | dhcpcd/dhcp6.c:363-689 | refused exactly without a message type or a server to name; else memory of the measured length that begins with exactly the options |
| `Dhcp6Backoff.NextInBounds` | dhcpcd/dhcp6.c:808-844 | every retransmission time lies between 0.9 IRT and max(1.1 MRT, MRT + 1 s), and grows by 1.9 until capped |
| `Dhcp6Backoff.StaysAtCap` | dhcpcd/dhcp6.c:808-844 | a time within a tenth of MRT is followed by another |
| `Dhcp6Backoff.CapHoldsIff` | dhcpcd/dhcp6.c:832-844 | that holds of every such time and draw if and only if MRT is not one second |
| `Dhcp6Backoff.RunInBounds` | dhcpcd/dhcp6.c:793-906 | in every run every time waited is in bounds |
| `Dhcp6Backoff.NinthAtCap` | dhcpcd/dhcp6.c:793-906 | in every phase the ninth and all later times are within a tenth of MRT |
| `Dhcp6Backoff.SendsExactly` | dhcpcd/dhcp6.c:896-906 | each call sends one message until one is lost or MRC are sent: giving up comes after exactly MRC, never if MRC is 0 |
| `Dhcp6Backoff.RequestSendsTen` | dhcpcd/dhcp6.c:1093-1113 | REQUEST ends after ten messages, or after the first that is lost |
| `Dhcp6Backoff.Retransmitter.AddJitter` | dhcpcd/dhcp6.c:819-830 | seconds and microseconds change by the jitter, carry and borrow included |
| `Dhcp6Backoff.Retransmitter.SendMessage` | dhcpcd/dhcp6.c:793-906 | the timing of dhcp6_sendmessage on seconds and microseconds |
| `Sla.FindSla` | dhcpcd/dhcp6.c:1771-1792 | the nested loops find the lowest id no interface has, or report that none is left |
| `Sla.AlwaysFound` | dhcpcd/dhcp6.c:1771-1792 | with fewer than 2^32 - 1 interfaces one is always found |
| `Sla.AlwaysDistinct` | dhcpcd/dhcp6.c:1794-1835 | under every sequence of delegations and releases the ids made up are pairwise distinct |
| `Sla.IdIsKept` | dhcpcd/dhcp6.c:1819-1835 | an interface keeps its id while its state lives |
| `Sla.DelegateIsNext` | dhcpcd/dhcp6.c:1778-1788 | with none freed the ids are 0, 1, 2, ... without a gap |
| `Sla.ConfiguredMayCollide` | dhcpcd/dhcp6.c:1819-1835 | whichever id the made-up ones come to next, if it is configured on one interface it is handed out to any other |
| `Sla.MadeUpIff` | dhcpcd/dhcp6.c:1771-1792 | an id is made up if and only if it is the least that none has made up, configured or not |
| `Sla.StepDistinctIff` | dhcpcd/dhcp6.c:1794-1835 | a step keeps all ids in force, configured and made up, distinct if and only if it does not collide |
| `Sla.DistinctIffNoCollision` | dhcpcd/dhcp6.c:1794-1835 | over every run they stay distinct if and only if no step collides |
| `Sla.Interfaces.DelegateTo` | dhcpcd/dhcp6.c:1794-1835 | the choice of id in place |
| `Bpf.DhcpFilterAccepts` | dhcpcd/bpf-filter.h:78-99 | a frame is accepted if and only if it is IPv4, UDP, not a later fragment and to port 68 behind a header of its own length |
| `Bpf.DhcpFiltersAgree` | dhcpcd/bpf-filter.h:78-99 | the filter without type test decides the same on the packet inside the frame |
| `Bpf.ArpFilterAccepts` | dhcpcd/bpf-filter.h:33-49 | accepts ARP requests and replies, and every frame whose type is 2, and nothing else |
| `Bpf.ArpCookedAccepts` | dhcpcd/bpf-filter.h:33-49 | without type test exactly requests and replies |
| `Arp.ThreeProbes` | dhcpcd/arp.c:268-328 | one address gets three probes one to two seconds apart, then the next step after two |
| `Arp.SearchesInOrder` | dhcpcd/arp.c:268-338 | exactly three probes for each address of the list, in order, then start_interface |
| `Arp.ProbesOffer` | dhcpcd/arp.c:268-328 | with the list done, exactly three probes of the offered address, then dhcp_bind |
| `Arp.Prober.ArpProbe` | dhcpcd/arp.c:268-328 | arp_probe on its counters, nothing when its socket fails |
| `Arp.Prober.ArpStart` | dhcpcd/arp.c:330-338 | arp_start resets the counters and probes |

## Left out

- INFORM, STATIC, IPv4LL, TEST and fallback modes of the DHCPv4 client, and addresses in 169.254/16: they depend on other files or leave the state machine modelled here.
- Several interfaces at once, and the list of addresses to search for inside the DHCPv4 machine (`Arp` has it on its own).
- Clocks beyond 2^62 seconds.
- The netmask and broadcast address in get_lease, the routes and every other option that only reaches scripts.
- BOOTP leases in write_lease and dhcp_start, and interfaces with neither a hardware address nor a client id.
- Dhcp4Theorems.ProbingLosesExpiry: takes the address of the lease in force to be on the interface; a kernel that refuses to add it is not modelled.
- OptionBuffer.LookUp: requires that the lookup does not go on for ever, because a method must; OptionBuffer.OutcomeIff says exactly when it would. Which memory an overrun destroys is not modelled.
- OptionBuffer.NotOverloadedFits: not for the padding code, whose instances may overlap; no caller asks for it.
- Options.AddAddr: requires that the memory behind the area holds the byte the code may write there; what the walk meets behind an area without an END is not modelled.
- Names.DecodeRfc3397: the count of bytes is unbounded, where the code has an int.
- Auth.RoundTrip: the replay counter is a parameter; the file that stores it is not modelled, nor is the inside of HMAC-MD5.
- Auth.EncodeInPlace: requires that the sixteen bytes of the hash, which the code copies unchecked, stay inside the message; they may run past a short option.
- Dhcp6Lease.IntactIffDistinct: once a node is queued twice the model only records that the queue is broken, not what its links then are.
- Dhcp6Writer.MakeMessage: requires lengths that fit their fields and a writing pass within the measured length, because the code otherwise writes outside its memory; the unicast address remembered for sending is not modelled.
- Dhcp6Writer.WriteMessage: requires the same, for the same reason.
- Dhcp6Backoff.SendsExactly: counts without bound, where the code has an int.
- DHCPv6 state changes other than retransmission timing, building the message and reading the reply (handling of duplicate address detection, delegation of prefixes beyond the choice of id).
- Node identity and links: lists are sequences whose nodes carry an identity, so a broken list is a flag and aliasing is not modelled.
- Environment generation for hook scripts, config parsing, control socket, plugins, sockets, routing, BPF devices: process and system plumbing without a deep property.
