# L2TPv3 control plane: a Dafny model

The daemon xcesp-l2tpv3d sets up L2TPv3 tunnels and Ethernet pseudowires (RFC 3931). This
project models its protocol logic and proves what holds of it over every input and every run.
`dafny verify dfyconfig.toml` checks everything.

| file | models |
|---|---|
| `Prelude.dfy` | options and results, octets, big-endian packing, XOR |
| `AvpCodec.dfy`, `MessageCodec.dfy` | AVPs with hiding, message framing, 16-bit sequence arithmetic |
| `Signing.dfy` | signing by patching and verifying by re-encoding |
| `TypedMessages.dfy` | builders and parsers of the nine message types |
| `Layout.dfy` | the encodings octet by octet |
| `Transport.dfy`, `PeerObject.dfy` | one end of the reliable channel, as a value and as the object that updates in place |
| `Delivery.dfy`, `Progress.dfy`, `Timing.dfy` | two ends over a lossy network; draining the queue; when a peer is declared dead |
| `Wrap.dfy` | what happens beyond half a turn of sequence numbers |
| `TunnelFsm.dfy`, `SessionFsm.dfy` | the two state machines, as functions and as objects |
| `TunnelEvents.dfy`, `SessionEvents.dfy` | what each of their events does and says, as the peer reads it |
| `Dataplane.dfy` | the kernel tables |
| `Runtime.dfy`, `TunnelObject.dfy` | one configured tunnel with its action executor, as a value and as the object |
| `Safety.dfy`, `Exceptions.dfy` | what every event of a tunnel keeps, and which events raise |
| `Speech.dfy`, `Effects.dfy`, `KernelEntry.dfy` | what every event puts on the wire, does to sessions and writes to the kernel |
| `Daemon.dfy` | all tunnels of a daemon over one dataplane |
| `Pairing.dfy`, `Handshake.dfy` | two tunnels facing each other |
| `Network.dfy` | two tunnels over the lossy network |

Where the daemon updates objects in place, the classes do too (`Peer`, `PendingSend`,
`MessageObject`, `TunnelFSM`, `SessionFSM`, `MockDataplane`, `Tunnel`); each of their methods
is proved against a function on values, and the properties are proved of those functions.
MD5 and HMAC are arbitrary functions with the right output length; time is real-valued.

`Delivery` works on octets and 16-bit numbers and ends at the list `receive` returns:
consecutive messages of the other end, in order, once. `Pairing` starts there: each end takes
the next messages of the other in batches of any size, of which the daemon looks at the first
Message Type only. `Network` joins the two for tunnels without a password: every
datagram a tunnel handles is an act of `Pairing`, and everything it sends a datagram of `Delivery`.

Assumptions, all of them visible in the lemmas: at most 32767 messages unacknowledged and no
delivered datagram more than 32768 numbers old (`Delivery.Guard`, `Network.Allowed`);
distinct CCIDs in one daemon, distinct non-zero session IDs and distinct session names in one
tunnel; a positive initial timer of at most 16 s. `Peer.send` has no window of its own, so the first
of them is not the code's: `Wrap` says exactly what happens without it, on the receiving side
(`OrderKeptExactly`, `OldMessageIgnoredExactly`, `OldMessageRedelivered`) and on the sending side
(`AckAheadExactly`, `FullAckExactly`, `OldAckHarmlessExactly`).

Where the code falls short of what its documentation suggests, the code is what is modelled:

- A batch is dispatched on its first Message Type only, so messages behind it are lost to the
  state machines and can lend it a cookie, which then stays learned (`MergedIcrqsMix`; the exact condition
  is in `CookieLearnedExactly`, a configuration that avoids it in `UniformCookiesKept`).
- Two ends that open at the same time both end up in IDLE (`SimultaneousOpenCollapses`), because
  an SCCRQ is answered only in IDLE (`SccrqAnsweredExactly`).
- Sessions come up in any tunnel state, and only a tunnel that leaves ESTABLISHED takes them
  down (`SessionsIgnoreTunnelState`, `CloseCleansExactly`, `DeathCleansExactly`).
- A Message Type AVP that is not two octets raises through the receive loop and ends the daemon
  (`DatagramRaisesExactly`, `StopsExactly`).
- With a password, retransmissions and bare acknowledgements are unsigned and so never
  accepted (`UnsignedNeverVerifies`); progress is proved for tunnels without one.
- A digest AVP whose M bit is clear, or a second digest AVP, makes the verifier rebuild other
  octets than it received (`RebuildIsExact`).
- A peer CCID configured as 0 is meant to be learned, but datagrams to CCID 0 reach no
  tunnel (`RoutedByCcid`).

## Model

| member | source | states |
|---|---|---|
| AvpCodec.GenerateKeystream | xcesp_l2tpv3d/avp.py:360-383 | the loop extends block by block and returns the first `length` octets of the chained MD5 stream; shorter streams are prefixes of longer ones |
| AvpCodec.UnhideHide | xcesp_l2tpv3d/avp.py:306-357 | hiding succeeds for every value up to 65535 octets and unhiding its result returns the value, whatever MD5 is |
| AvpCodec.HideUnhide | xcesp_l2tpv3d/avp.py:306-357 | hiding again what was unhidden gives the same ciphertext if and only if the sender's padding was zeros and no longer than a block needs |
| AvpCodec.EncodeSucceeds | xcesp_l2tpv3d/avp.py:157-201 | an AVP encodes if and only if its fields fit 16 bits and its value is at most 1017 octets, 1006 when hidden with a secret and a vector |
| AvpCodec.DecodeEncoded | xcesp_l2tpv3d/avp.py:157-267 | decoding where an AVP was written, hidden or not, returns that AVP and the position just after it |
| AvpCodec.EncodeDecoded | xcesp_l2tpv3d/avp.py:205-267 | a plain AVP that was decoded re-encodes to exactly the octets it was read from |
| AvpCodec.DecodeSequence | xcesp_l2tpv3d/avp.py:272-299 | the loop over position and random vector computes the recursive decoding: each hidden AVP under the latest Random Vector before it |
| AvpCodec.VectorIsLatest | xcesp_l2tpv3d/avp.py:283-297 | the vector a hidden AVP is decoded with is that of the last Random Vector AVP before it |
| AvpCodec.DecodeFromEncoded | xcesp_l2tpv3d/avp.py:272-299 | a body decodes back to its AVP list, hidden AVPs included, when each one's latest Random Vector carries the encoder's vector |
| AvpCodec.EncodeDecodedFrom | xcesp_l2tpv3d/avp.py:272-299 | a body with nothing hidden is the joined encoding of what it decodes to, to the last octet |
| AvpCodec.FindAvp | xcesp_l2tpv3d/avp.py:688-700 | returns the first IETF AVP of the type, and none if and only if there is none |
| AvpCodec.FindConcat | xcesp_l2tpv3d/avp.py:688-700 | in joined lists the search takes the first list's AVP and falls back to the second |
| MessageCodec.DecodeEncodedMessage | xcesp_l2tpv3d/messages.py:126-225 | decode(encode(m)) is m for every list in which each hidden AVP's latest Random Vector carries the encoder's vector |
| MessageCodec.EncodeDecodedMessage | xcesp_l2tpv3d/messages.py:166-225 | every accepted buffer with nothing hidden is reproduced octet for octet by the encoder |
| MessageCodec.WireIsCanonical | xcesp_l2tpv3d/messages.py:126-225 | without a secret, encode gives buf for m if and only if decode gives m for buf |
| MessageCodec.SplitsOneWay | xcesp_l2tpv3d/messages.py:177-225 | an accepted body is the joined encoding of one AVP list only, with at most (len - 12) / 6 elements |
| MessageCodec.SeqDeltaExact | xcesp_l2tpv3d/messages.py:251-261 | the 16-bit distance of two positions is their real distance if and only if that is within half a turn |
| Layout.MessageLayout | xcesp_l2tpv3d/messages.py:139-162 | an encoded message, octet by octet: flags, version, length, CCID, Ns, Nr, then the AVPs |
| Layout.AvpLayout | xcesp_l2tpv3d/avp.py:157-201 | an encoded AVP, octet by octet: M and H bits, length, vendor, type, then the value or what hides it |
| Prelude.XorAt | xcesp_l2tpv3d/avp.py:306-357 | the mask is applied bit by bit: a bit is set where value and keystream differ |
| Layout.HiddenLayout | xcesp_l2tpv3d/avp.py:306-332 | behind the keystream, a hidden value is its length in two octets, itself, and the fewest zeros that fill 16-octet blocks |
| Layout.KeystreamChain | xcesp_l2tpv3d/avp.py:360-383 | the keystream is the MD5 of attribute type, secret and vector, and then of the secret and the block before, block by block |
| Layout.SignedLayout | xcesp_l2tpv3d/messages.py:728-742 | a signed message ends with a mandatory digest AVP: hash type 0 or 1 and the HMAC of 1 and the message with zeros in its place |
| Layout.HelloOctets | xcesp_l2tpv3d/messages.py:352-358 | an encoded HELLO, all twenty octets |
| Signing.BuildZeroedAvps | xcesp_l2tpv3d/messages.py:777-783 | the loop replaces exactly the Message Digest AVPs by the all-zero placeholder |
| Signing.PatchIsReplacement | xcesp_l2tpv3d/messages.py:738-742 | putting another digest into an AVP changes only that AVP's digest octets of the message, the last ones if it stands last |
| Signing.SignVerifyRoundTrip | xcesp_l2tpv3d/messages.py:713-795 | a message without digest signs if and only if it encodes and leaves room; verifying the result returns the same header and AVPs with the digest AVP appended |
| Signing.RebuildIsExact | xcesp_l2tpv3d/messages.py:773-790 | the octets the verifier rebuilds are the received ones with the first digest zeroed if and only if its M bit is set and any further digest AVP is already the placeholder |
| Signing.AcceptedExactlyWhenAuthentic | xcesp_l2tpv3d/messages.py:745-795 | with one digest AVP, M bit set, at any position, a buffer is accepted if and only if its digest octets are the HMAC of the buffer with them zeroed |
| Signing.VerifiedExactly | xcesp_l2tpv3d/messages.py:745-795 | any buffer is accepted if and only if its first digest AVP has the expected type and size and holds the HMAC of the rebuilt octets |
| Signing.UnsignedNeverVerifies | xcesp_l2tpv3d/transport.py:405-413 | what tick and ack_only emit carries no digest and is never accepted by a verifier |
| TypedMessages.SccrxSurvives | xcesp_l2tpv3d/messages.py:274-340 | SCCRQ and SCCRP parse back to the arguments they were built from, any capability list and any optional fields |
| TypedMessages.StopCcnSurvives | xcesp_l2tpv3d/messages.py:361-380 | StopCCN parses back to its CCID, result, error and text |
| TypedMessages.SessionSurvives | xcesp_l2tpv3d/messages.py:383-495 | ICRQ, ICRP and ICCN parse back to every field given and to None for every field left out |
| TypedMessages.CdnSurvives | xcesp_l2tpv3d/messages.py:498-517 | CDN parses back to both session IDs and its result, and carries no cookie and no CCID |
| TypedMessages.TypedMessagesSurviveWire | xcesp_l2tpv3d/messages.py:525-692 | the same after encoding to octets and decoding them |
| TypedMessages.CapabilitiesSurvive | xcesp_l2tpv3d/avp.py:491-512 | a capability list of any length comes back in order |
| TypedMessages.MessageTypeReadsExactly | xcesp_l2tpv3d/messages.py:687-692 | the Message Type is unreadable if and only if it is there and not two octets |
| TypedMessages.SccrxParsesExactly | xcesp_l2tpv3d/messages.py:629-659 | an SCCRQ or SCCRP parses if and only if its four required AVPs are there and all have their sizes |
| TypedMessages.SessionParsesExactly | xcesp_l2tpv3d/messages.py:546-579 | a session message parses if and only if the Local Session ID is there and all have their sizes, the cookie 0, 4 or 8 octets |
| TypedMessages.OptionalFieldsRead | xcesp_l2tpv3d/messages.py:546-579 | what is left out reads as None, the Remote Session ID as 0; what is there does not |
| TypedMessages.TeardownParsesExactly | xcesp_l2tpv3d/messages.py:592-684 | likewise StopCCN and CDN |
| Layout.CapabilityOctets | xcesp_l2tpv3d/avp.py:491-500 | capabilities stand in the order given, two octets each |
| Layout.SccrxNumbers | xcesp_l2tpv3d/messages.py:274-340 | SCCRQ and SCCRP hold exactly these values under these attribute numbers, mandatory or not |
| Layout.SessionNumbers | xcesp_l2tpv3d/messages.py:383-495 | likewise ICRQ, ICRP and ICCN |
| Layout.TeardownNumbers | xcesp_l2tpv3d/messages.py:361-522 | likewise StopCCN and CDN |
| Layout.CodeOctets | xcesp_l2tpv3d/avp.py:101-116 | the message types and result codes as octets |
| TypedMessages.SccrxEncodes | xcesp_l2tpv3d/messages.py:274-340 | SCCRQ and SCCRP can be sent if and only if host name, vendor name and nonce are at most 1017 octets and the list at most 508 types |
| TypedMessages.SessionEncodes | xcesp_l2tpv3d/messages.py:383-495 | a session message can be sent if and only if its Remote End ID is at most 1017 octets |
| TypedMessages.TeardownEncodes | xcesp_l2tpv3d/messages.py:361-380 | StopCCN, and CDN likewise, can be sent if and only if its error text, if any, is at most 1013 octets |
| TypedMessages.BareEncodes | xcesp_l2tpv3d/messages.py:343-358 | SCCCN and HELLO can always be sent |
| Transport.PeerInvAlways | xcesp_l2tpv3d/transport.py:189-429 | after any calls: queued Ns are consecutive and end before ns_send, cached octets are the messages' encodings, buffered numbers are 1..window ahead of nr_expect |
| Transport.ReorderBounded | xcesp_l2tpv3d/transport.py:368-376 | the reorder buffer never holds more than a window of messages, and never the one expected next |
| Transport.DrainInv | xcesp_l2tpv3d/transport.py:349-366 | the drain loop ends with nothing expected left in the buffer and every key one to window ahead |
| Transport.RetransmissionIsFaithful | xcesp_l2tpv3d/transport.py:394-413 | every datagram a tick returns decodes to a message still queued, with its Ns, CCID and AVPs and the current Nr |
| Transport.ConsumeAcksPopsFront | xcesp_l2tpv3d/transport.py:417-429 | acknowledging removes a front part of the queue: all of it is before Nr and the next message is not |
| Transport.SendDoes | xcesp_l2tpv3d/transport.py:266-299 | a send succeeds if and only if there is something to send and it encodes; the message goes to the remote CCID with the next Ns and the current Nr, and is queued with a fresh timer |
| Transport.AddressedAsSet | xcesp_l2tpv3d/transport.py:254-262 | once the remote CCID is set, everything sent and acknowledged is addressed to it |
| Transport.AckDoes | xcesp_l2tpv3d/transport.py:301-315 | an acknowledgement goes to the remote CCID with the next Ns and the current Nr, and carries nothing |
| Transport.ReceiveHeeds | xcesp_l2tpv3d/transport.py:317-378 | a message for another CCID changes nothing; any other acknowledges, and is answered by the new state if and only if it carries something and is not early |
| Transport.DeathIsCounted | xcesp_l2tpv3d/transport.py:396-401 | when a tick declares death, the message out of retries has been counted once more than allowed |
| Transport.QueueIsSentTail | xcesp_l2tpv3d/transport.py:189-429 | after any calls the queue holds the last messages sent, each with the CCID, Ns and AVPs of its first send |
| Transport.ResentAsFirstSent | xcesp_l2tpv3d/transport.py:394-413 | whatever is resent decodes to a message once sent, with its CCID, Ns and AVPs, and the current Nr |
| PeerObject.Peer.Send | xcesp_l2tpv3d/transport.py:266-299 | queues and stamps the message or changes nothing; the returned object is the queued one |
| PeerObject.Peer.Receive | xcesp_l2tpv3d/transport.py:317-378 | in place, the counters, queue, reorder buffer, delivered AVPs and acknowledgement of the specification |
| PeerObject.Peer.ConsumeAcks | xcesp_l2tpv3d/transport.py:417-429 | the pop loop removes what the specification removes |
| PeerObject.Peer.DrainReorder | xcesp_l2tpv3d/transport.py:352-364 | the drain loop appends what the specification drains, and moves nr_expect with it |
| PeerObject.PendingSend.Retransmit | xcesp_l2tpv3d/transport.py:402-410 | restamps the shared message object, doubles the timer up to 16 s and re-encodes |
| PeerObject.Peer.Fire | xcesp_l2tpv3d/transport.py:396-411 | a timed-out entry is retransmitted, or counted and the peer dead when retries are used up; the other entries stay as they are, although messages are shared objects |
| PeerObject.Peer.Tick | xcesp_l2tpv3d/transport.py:382-413 | the loop over the queue leaves the queue, datagrams and verdict of the specification |
| Delivery.ExactlyOnceInOrder | xcesp_l2tpv3d/transport.py:317-378 | over any lossy, duplicating, reordering run within the wrap guard, what one end delivered is the concatenation of a prefix of what the other sent, across any number of wraps |
| Delivery.NoPrematureAck | xcesp_l2tpv3d/transport.py:417-429 | in every such state the queue holds every message sent from some position on, and the other end has delivered all before it |
| Delivery.BatchIsConsecutive | xcesp_l2tpv3d/transport.py:349-366 | each list receive returns joins consecutive messages of the other end, from the next one due |
| Delivery.AcksExact | xcesp_l2tpv3d/transport.py:417-429 | exactly the messages below the position behind a datagram's Nr leave the queue |
| Delivery.RunKeeps | xcesp_l2tpv3d/transport.py:189-429 | both directions' invariants are kept by every allowed run |
| Delivery.DeliverKeeps | xcesp_l2tpv3d/transport.py:317-378 | delivering any datagram, however often and late within the guard, keeps them |
| Delivery.ReceiveEffect | xcesp_l2tpv3d/transport.py:317-378 | what one receive delivers and how far it moves, for new, early, old and bare messages |
| Wrap.AckPops | xcesp_l2tpv3d/transport.py:417-429 | how many messages any Nr removes from a queue of any length: as many as it is ahead modulo a turn, none from half a turn on |
| Wrap.AckAheadExactly | xcesp_l2tpv3d/transport.py:417-429 | an Nr that covers h queued messages removes exactly those if and only if h < 32768; half a turn to a turn ahead it removes none, and it never removes more |
| Wrap.FullAckExactly | xcesp_l2tpv3d/transport.py:283-298 | the acknowledgement of everything empties the queue if and only if it holds at most 32767 messages, which nothing in send ensures |
| Wrap.OldAckHarmlessExactly | xcesp_l2tpv3d/transport.py:417-429 | an outdated Nr leaves the queue alone if and only if it is at most half a turn old, modulo a turn |
| Wrap.NumberedAlways | xcesp_l2tpv3d/transport.py:283-298 | after any calls the queue carries consecutive numbers, however long it is |
| Wrap.OrderKeptExactly | xcesp_l2tpv3d/transport.py:345-376 | any genuine datagram, however old or far ahead, leaves delivery correct if and only if its message is not taken up, or is taken for a position with the same AVPs |
| Wrap.OldMessageIgnoredExactly | xcesp_l2tpv3d/transport.py:345-376 | a message delivered before is ignored if and only if, modulo a turn, it is 1 to 32768 numbers old, or older but further than the window from the next turn (or its slot holds it already) |
| Wrap.ActsAsIfSentThere | xcesp_l2tpv3d/transport.py:349-373 | once it takes a message up, the end goes on exactly as if these AVPs had been sent at the position it took the message for |
| Wrap.OldMessageRedelivered | xcesp_l2tpv3d/transport.py:349-373 | such a message is delivered again: at once when whole turns old, else as soon as the messages up to its slot are there |
| Progress.RoundTripAdvances | xcesp_l2tpv3d/transport.py:349-378 | a copy of the oldest message and then the resulting acknowledgement remove at least that message, new or duplicate |
| Progress.QueueDrains | xcesp_l2tpv3d/transport.py:349-429 | at most twice as many deliveries as queued messages empty the queue, with everything delivered |
| Progress.RetransmissionRefreshes | xcesp_l2tpv3d/transport.py:394-413 | a tick on which every message has timed out puts a usable copy of each on the wire |
| Timing.RetriesAndTimers | xcesp_l2tpv3d/transport.py:394-410 | until death retries never exceed max_retries and the timer is min(r * 2^retries, 16) |
| Timing.DeadNotTooEarly | xcesp_l2tpv3d/transport.py:397-401 | a peer is declared dead only when some message is at least sum of min(r * 2^k, 16), k = 0..max_retries, old |
| Timing.DeadNotTooLate | xcesp_l2tpv3d/transport.py:382-413 | with ticks at most d apart, a message older than that sum plus one gap per retry makes the next tick declare death |
| TunnelFsm.ReactDelta | xcesp_l2tpv3d/tunnel_fsm.py:184-369 | every event sends at most one message first; the timer is set on the way up and when it fires, cleared on the way down; signals come exactly on crossings |
| TunnelFsm.TraceAlternates | xcesp_l2tpv3d/tunnel_fsm.py:184-369 | over any events Established and TornDown strictly alternate, starting with up, and the last tells whether the state is ESTABLISHED |
| TunnelFsm.TunnelFSM.Receive | xcesp_l2tpv3d/tunnel_fsm.py:221-354 | the object's state and actions after a message are the specification's; it raises if and only if the Message Type cannot be read |
| TunnelFsm.TunnelFSM.Handle | xcesp_l2tpv3d/tunnel_fsm.py:184-262 | the same for every event; only a message raises |
| TunnelEvents.OpenDoes | xcesp_l2tpv3d/tunnel_fsm.py:184-198 | opening in IDLE sends one SCCRQ that parses to the configured identity; in any other state nothing |
| TunnelEvents.CloseDoes | xcesp_l2tpv3d/tunnel_fsm.py:202-217 | closing, except in IDLE and SEND_STOPCCN, sends a StopCCN that parses to our CCID and the given result, clears the timer and reports a tunnel that was up |
| TunnelEvents.HelloTimerDoes | xcesp_l2tpv3d/tunnel_fsm.py:243-250 | the timer of an ESTABLISHED tunnel sends a HELLO and is set again |
| TunnelEvents.DeadDoes | xcesp_l2tpv3d/tunnel_fsm.py:254-262 | a dead peer takes the tunnel to IDLE, clears the timer and reports a tunnel that was up |
| TunnelEvents.SccrqDoes | xcesp_l2tpv3d/tunnel_fsm.py:266-294 | an SCCRQ in IDLE is answered with an SCCRP of the configured identity if it parses, and refused with general error in any other state |
| TunnelEvents.SccrpDoes | xcesp_l2tpv3d/tunnel_fsm.py:296-315 | an SCCRP brings a waiting tunnel up with an SCCCN, the peer's identity learned; one that does not parse is refused; elsewhere it is ignored |
| TunnelEvents.OthersDo | xcesp_l2tpv3d/tunnel_fsm.py:317-354 | an SCCCN brings an answering tunnel up, a StopCCN takes any tunnel to IDLE, every other message is ignored |
| SessionFsm.ReactDelta | xcesp_l2tpv3d/session_fsm.py:165-389 | every event sends at most one message first; dataplane add and delete come exactly on crossings, with this session's IDs and parameters; a session that stays up is unchanged |
| SessionFsm.TraceAlternates | xcesp_l2tpv3d/session_fsm.py:165-389 | over any events DataplaneAdd/Del and SessionEstablished/TornDown each strictly alternate, and the last tells whether the state is ESTABLISHED |
| SessionFsm.IcrqTaken | xcesp_l2tpv3d/session_fsm.py:241-268 | an idle session takes the ICRQ's session ID and cookie and waits for the ICCN |
| SessionFsm.IcrpTaken | xcesp_l2tpv3d/session_fsm.py:270-297 | a waiting initiator takes the ICRP's session ID and cookie and is ESTABLISHED |
| SessionFsm.IccnTaken | xcesp_l2tpv3d/session_fsm.py:299-317 | an ICCN completes the session if and only if it comes from the session ID the ICRQ announced |
| SessionFsm.SessionFSM.Receive | xcesp_l2tpv3d/session_fsm.py:227-340 | the object's state and actions after a message are the specification's; it raises if and only if the Message Type cannot be read |
| SessionFsm.SessionFSM.Handle | xcesp_l2tpv3d/session_fsm.py:165-239 | the same for every event; only a message raises |
| SessionEvents.ParamsDescribe | xcesp_l2tpv3d/session_fsm.py:344-369 | what the kernel is told, field by field: IDs, interface name, both cookies, sublayer and pseudowire |
| SessionEvents.TunnelUpDoes | xcesp_l2tpv3d/session_fsm.py:165-186 | when the tunnel comes up an idle initiator sends one ICRQ with its name and parameters and waits; no other session does anything |
| SessionEvents.TunnelGoneDoes | xcesp_l2tpv3d/session_fsm.py:210-223 | when it is gone every session is IDLE, out of the kernel if it was in, and silent |
| SessionEvents.CloseDoes | xcesp_l2tpv3d/session_fsm.py:188-208 | closing, except in IDLE and SEND_CDN, sends a CDN with both IDs and the given result |
| SessionEvents.IcrqDoes | xcesp_l2tpv3d/session_fsm.py:241-268 | an ICRQ is answered with ICRP by an idle session if it parses, and refused with a CDN in any other state |
| SessionEvents.IcrpDoes | xcesp_l2tpv3d/session_fsm.py:270-297 | an ICRP brings a waiting session up with an ICCN, the peer's ID and cookie learned and the kernel told; one that does not parse is refused |
| SessionEvents.IccnDoes | xcesp_l2tpv3d/session_fsm.py:299-317 | an ICCN under the announced ID brings an answering session up and the kernel is told; any other is refused |
| SessionEvents.CdnDoes | xcesp_l2tpv3d/session_fsm.py:319-340 | a CDN takes a session to IDLE from any state, and out of the kernel if it was in, whether or not it parses |
| SessionEvents.CdnTaken | xcesp_l2tpv3d/session_fsm.py:319-340 | so does every CDN the other end builds, with the result it gives |
| SessionEvents.OthersIgnored | xcesp_l2tpv3d/session_fsm.py:227-237 | every other message changes nothing |
| Dataplane.CallsDo | xcesp_l2tpv3d/dataplane.py:141-184 | what each call does to both tables, and exactly when it is refused |
| Dataplane.CallsAreRecorded | xcesp_l2tpv3d/dataplane.py:141-184 | the recorded calls, replayed, give the tables |
| Dataplane.CallsKeepRooted | xcesp_l2tpv3d/dataplane.py:141-184 | no call leaves a session entry without its tunnel entry |
| Dataplane.MockDataplane.Add | xcesp_l2tpv3d/dataplane.py:141-151 | adds the tunnel, or accepts the same one again, or refuses different parameters and changes nothing |
| Dataplane.MockDataplane.AddNetdev | xcesp_l2tpv3d/dataplane.py:153-163 | adds the session, or refuses a taken key or an unknown tunnel and changes nothing |
| Dataplane.MockDataplane.Delete | xcesp_l2tpv3d/dataplane.py:165-172 | deletes the session, silently when it is gone |
| Dataplane.MockDataplane.DeleteTunnel | xcesp_l2tpv3d/dataplane.py:174-184 | deletes the tunnel, silently when gone, and refuses while a session of it is live |
| Safety.SealedOpens | xcesp_l2tpv3d/main.py:201-207 | what an end sends, signed or not, an end with the same settings opens to the same header and AVPs |
| Safety.ShortTransmits | xcesp_l2tpv3d/main.py:343-351 | sends of SCCCN, HELLO, StopCCN, CDN and ICCN never raise, signed or not |
| Safety.SessionStepMoves | xcesp_l2tpv3d/main.py:308-339 | whatever a session does, the kernel tables follow it, and a send that raises leaves nothing half done |
| Safety.CascadeDown | xcesp_l2tpv3d/main.py:294-299 | after the cascade every session is IDLE, and nothing was raised |
| Safety.GoDownCleans | xcesp_l2tpv3d/main.py:294-307 | executing TornDown leaves every session IDLE, no entry under the CCID, and raises nothing |
| Safety.TunnelStepMoves | xcesp_l2tpv3d/main.py:268-339 | every tunnel event with its nested actions keeps the invariant; if the tunnel came down everything is clean |
| Safety.FirstIdleFound | xcesp_l2tpv3d/main.py:389-399 | an ICRQ goes to the first session in configuration order that is idle and of the name it carries, if any, and to none if and only if there is none |
| Safety.DispatchKeeps | xcesp_l2tpv3d/main.py:355-416 | routing and executing any session message keeps the invariant and leaves the control connection alone |
| Safety.DatagramKeeps | xcesp_l2tpv3d/main.py:194-247 | so does every datagram whatever its octets |
| Safety.NextKeeps | xcesp_l2tpv3d/main.py:177-448 | every event keeps: kernel sessions are exactly the ESTABLISHED ones with their parameters, the tunnel entry exists iff recorded, no dataplane call is refused, the HELLO timer is armed iff ESTABLISHED with one live handle; other CCIDs are untouched |
| Safety.BootInv | xcesp_l2tpv3d/main.py:96-165 | a newly built tunnel satisfies it |
| Safety.RunKeeps | xcesp_l2tpv3d/main.py:84-448 | it holds after every run |
| Safety.CloseCleansExactly | xcesp_l2tpv3d/main.py:183-190 | closing leaves sessions idle and the kernel clean if and only if the tunnel was ESTABLISHED or all was clean before |
| Safety.DeathCleansExactly | xcesp_l2tpv3d/main.py:249-264 | the same for a peer found dead |
| Safety.SessionsIgnoreTunnelState | xcesp_l2tpv3d/main.py:243-244 | in any tunnel state an ICRQ that names an idle session, and the ICCN that follows, bring the first idle session of that name up: an ESTABLISHED session does not imply an ESTABLISHED tunnel |
| Safety.AddressedSessionsIgnoreTunnelState | xcesp_l2tpv3d/main.py:387-388 | so does an ICRQ that carries the session's ID |
| Safety.ArrivedRouted | xcesp_l2tpv3d/main.py:387-416 | a session message changes the session it is routed to as that machine says, and no other |
| Safety.ArrivedAddressed | xcesp_l2tpv3d/main.py:387-416 | a message carrying our session ID changes that session as its machine says, and no other |
| Safety.ArrivedByPeerSid | xcesp_l2tpv3d/main.py:400-403 | an ICRP or ICCN without an ID of ours reaches the session indexed by the peer's |
| Safety.NoTargetExactly | xcesp_l2tpv3d/main.py:386-409 | exactly when a session message finds no session |
| Safety.UnroutableDropped | xcesp_l2tpv3d/main.py:381-409 | a session message that cannot be parsed or finds no session changes nothing |
| Exceptions.SessionStepRaises | xcesp_l2tpv3d/main.py:343-351 | of all session events only the announcement of an initiator whose name does not fit an AVP raises |
| Exceptions.CascadeRaises | xcesp_l2tpv3d/main.py:291-293 | the cascade on the tunnel's coming up raises if and only if some session has such a name |
| Exceptions.TunnelStepRaises | xcesp_l2tpv3d/main.py:268-307 | a tunnel event raises if and only if its SCCRQ or SCCRP is too long, or it brings the tunnel up and some session has such a name |
| Exceptions.DatagramRaisesExactly | xcesp_l2tpv3d/main.py:194-247 | a datagram raises if and only if what it delivers starts with an unreadable Message Type, or the reply it calls for is too long in one of these ways |
| Exceptions.NextRaisesExactly | xcesp_l2tpv3d/main.py:177-448 | besides datagrams only a start with too long a host name raises; closing, ticks, timers and session closes never do |
| Speech.TransmitSpeaks | xcesp_l2tpv3d/main.py:343-353 | a send that does not raise is queued and puts one datagram on the wire that reads back, with the same settings, as the message to the peer's CCID; one that raises changes nothing |
| Speech.SessionStepSpeaks | xcesp_l2tpv3d/main.py:268-274 | a session event puts on the wire what the session's machine sends, and nothing else |
| Speech.CascadeSays | xcesp_l2tpv3d/main.py:288-299 | a cascade gives each session the event once, and their messages go out in that order |
| Speech.TunnelStepSpeaks | xcesp_l2tpv3d/main.py:268-307 | a tunnel event puts on the wire what the tunnel's machine sends, then, if it came up, each session's announcement; nothing else |
| Speech.OwnSpeaks | xcesp_l2tpv3d/main.py:175-448 | every event but a tick or a datagram only sends: each message said is queued and on the wire, in order |
| Effects.ReplyDoes | xcesp_l2tpv3d/main.py:230-232 | every acknowledgement reaches the wire |
| Effects.DatagramAcknowledged | xcesp_l2tpv3d/main.py:229-232 | a message that is new or old is acknowledged by the first datagram out, with what is expected now, to the peer's CCID |
| Effects.TickResends | xcesp_l2tpv3d/main.py:254-257 | every datagram the delivery layer sends again reaches the wire, in order |
| Effects.StartSends | xcesp_l2tpv3d/main.py:177-181 | a start puts one SCCRQ with the configured identity on the wire, if its names fit |
| Effects.CloseSends | xcesp_l2tpv3d/main.py:183-190 | closing puts one StopCCN on the wire, result 6, except in IDLE and SEND_STOPCCN |
| Effects.HelloFiresSends | xcesp_l2tpv3d/main.py:445-448 | the timer puts one HELLO on the wire and leaves one live handle, a new one |
| Effects.SettingLeavesOne | xcesp_l2tpv3d/main.py:275-280 | setting the timer cancels the handle there was and leaves one, a new one |
| Effects.ComingUpAnnounces | xcesp_l2tpv3d/main.py:285-293 | when the tunnel comes up every session hears of it and the announcements follow on the wire |
| Effects.ChorusAnnounces | xcesp_l2tpv3d/main.py:288-293 | among them that of every idle initiator, with its name and parameters |
| Effects.SessionCloseSends | xcesp_l2tpv3d/session_fsm.py:188-208 | closing a session puts one CDN with both IDs and the given result on the wire, except in IDLE and SEND_CDN, and takes it out of the kernel |
| Effects.CdnArrives | xcesp_l2tpv3d/main.py:372-416 | a CDN with our session ID takes that session to IDLE and out of the kernel, and leaves every other session and entry alone |
| Effects.CdnByPeerSid | xcesp_l2tpv3d/main.py:400-403 | so does one with only the peer's ID, for the session indexed by it |
| Effects.ArrivedIndexes | xcesp_l2tpv3d/main.py:412-415 | a session is indexed by its peer's ID unless that ID is taken; no other index entry changes |
| Effects.AssignedIsLearned | xcesp_l2tpv3d/main.py:213-227 | while the peer's CCID is unknown, any message that assigns one, delivered or not, makes it the peer's CCID from then on; later ones do not |
| Effects.NothingElseIsLearned | xcesp_l2tpv3d/main.py:220-227 | a CCID that is not four octets, or is 0, is not learned |
| Effects.RefusalsAreCounted | xcesp_l2tpv3d/main.py:301-331 | every refusal of the dataplane is counted, so that none counted means none refused |
| Effects.OnlyAuthenticHandled | xcesp_l2tpv3d/main.py:201-211 | with a password, a datagram without a digest, or with a wrong one, changes nothing; an authentic one is opened |
| KernelEntry.NextEntry | xcesp_l2tpv3d/main.py:418-443 | no event rewrites the kernel's tunnel entry; one that writes it names the peer as known then |
| KernelEntry.EntryWasWritten | xcesp_l2tpv3d/main.py:418-443 | over any run, an entry was written at one moment and has stood since: our CCID and the two addresses as configured, the peer's CCID as known at that moment |
| KernelEntry.KernelDescribes | xcesp_l2tpv3d/main.py:308-321 | an ESTABLISHED session's kernel entry is as configured and learned, field by field, under a tunnel entry with the configured CCID and addresses |
| TunnelObject.Tunnel.constructor | xcesp_l2tpv3d/main.py:96-165 | builds the machines, the session table and the delivery layer of the specification |
| TunnelObject.Tunnel.Transmit | xcesp_l2tpv3d/main.py:343-353 | hands the AVPs to the delivery layer and the sealed message to the transport; what has happened when either raises |
| TunnelObject.Tunnel.ExecuteSession | xcesp_l2tpv3d/main.py:308-339 | the loop over a session's actions ends where the specification does, also when a send raises |
| TunnelObject.Tunnel.ExecuteTunnel | xcesp_l2tpv3d/main.py:268-307 | the loop over a tunnel's actions with both cascades |
| TunnelObject.Tunnel.Cascade | xcesp_l2tpv3d/main.py:288-299 | the event reaches the sessions in configuration order |
| TunnelObject.Tunnel.FindSession | xcesp_l2tpv3d/main.py:386-409 | the session found is the specification's, by our ID, by name or by the peer's ID |
| TunnelObject.Tunnel.DispatchSessionMessage | xcesp_l2tpv3d/main.py:355-416 | reads, routes, indexes and executes as specified; malformed and unroutable messages change nothing |
| TunnelObject.Tunnel.EnsureTunnelDataplane | xcesp_l2tpv3d/main.py:418-443 | adds the kernel tunnel once |
| TunnelObject.Tunnel.HandleDatagram | xcesp_l2tpv3d/main.py:194-247 | decoding, learning, delivery, reply and dispatch on real objects give the specified state |
| TunnelObject.Tunnel.Tick | xcesp_l2tpv3d/main.py:249-264 | retransmits, and on a dead peer runs the teardown |
| TunnelObject.Tunnel.Close | xcesp_l2tpv3d/main.py:183-190 | closes and cancels the timer as specified |
| TunnelObject.Tunnel.HelloTimerFires | xcesp_l2tpv3d/main.py:445-448 | forgets the handle and runs the event |
| Daemon.NeighbourUnharmed | xcesp_l2tpv3d/main.py:455-480 | what one tunnel does to the shared kernel tables leaves a tunnel on another CCID consistent with them |
| Daemon.DaemonKeeps | xcesp_l2tpv3d/main.py:509-536 | over any run of any number of tunnels with distinct CCIDs, the shared tables agree with all their state machines |
| Daemon.SharedTablesAgree | xcesp_l2tpv3d/main.py:474-536 | from the start of the daemon, after any run, the shared kernel tables hold for each tunnel it still has exactly the ESTABLISHED sessions, and the tunnel entry iff recorded |
| Daemon.RoutedByCcid | xcesp_l2tpv3d/main.py:524-536 | a datagram reaches the tunnel of its header's CCID only; one that carries 0 reaches none |
| Daemon.SpokenReachesPeer | xcesp_l2tpv3d/main.py:524-536 | whatever a tunnel sends, the other daemon hands to the tunnel of the CCID it is addressed to |
| Daemon.StopsExactly | xcesp_l2tpv3d/main.py:499-507 | a well-formed datagram ends the daemon's loops if and only if it is for one of its tunnels and raises there |
| Daemon.DeadAreRemoved | xcesp_l2tpv3d/main.py:509-522 | the tick loop never raises, and a tunnel whose peer is dead is removed |
| Pairing.MergedSession | xcesp_l2tpv3d/messages.py:546-579 | a batch is read by its first message: IDs, name and type are its own; its cookie is, unless it has none and a later one has |
| Pairing.MessageBinds | xcesp_l2tpv3d/session_fsm.py:227-340 | a message that introduces the partner binds a session to the partner's ID and cookie and to nothing else |
| Pairing.RouteIntroduces | xcesp_l2tpv3d/main.py:372-416 | every ICRQ and ICRP of the other end is routed to the session of the same name |
| Pairing.OverhearPaired | xcesp_l2tpv3d/main.py:213-227 | the learned CCID is the other end's own or the configured one |
| Pairing.ArrivedPaired | xcesp_l2tpv3d/main.py:237-247 | a batch starting with any message of the other end, with anything behind it, keeps sessions and identity paired, and cookies if the batch keeps them apart |
| Pairing.OwnPaired | xcesp_l2tpv3d/main.py:175-190 | so do opens, closes, ticks, timers and other tunnels |
| Pairing.PlayKeeps | xcesp_l2tpv3d/main.py:84-448 | and every interleaving of both ends, with batches of any size, with or without a password |
| Pairing.PairingAlways | xcesp_l2tpv3d/main.py:84-448 | from construction on, both ends satisfy the pairing invariant after any interleaving |
| Pairing.TunnelsAgree | xcesp_l2tpv3d/tunnel_fsm.py:266-324 | whatever the batches, tunnels both ESTABLISHED hold each other's configured CCID, host name and router ID |
| Pairing.NeverCrossed | xcesp_l2tpv3d/session_fsm.py:241-297 | whatever the batches, no session ever holds the ID of a session with another name |
| Pairing.SessionsMatch | xcesp_l2tpv3d/session_fsm.py:241-317 | same-named sessions both ESTABLISHED hold each other's session ID and, where batches keep cookies apart, exactly each other's configured cookie |
| Pairing.KernelsMirror | xcesp_l2tpv3d/session_fsm.py:344-369 | and the two kernels' entries name each other and likewise expect each other's cookie, under tunnel entries with the configured addresses that name the other end or the CCID configured for it |
| Network.OwnLinks | xcesp_l2tpv3d/main.py:343-353 | whatever a tunnel sends on its own events, executor and cascades included, is what the delivery layer of module Delivery would have sent, and is on the wire |
| Network.HearLinks | xcesp_l2tpv3d/main.py:194-247 | so is whatever it sends in reply to a datagram, which it receives as module Delivery says |
| Network.DatagramIsThreeActs | xcesp_l2tpv3d/main.py:213-247 | handling a datagram is overhearing a message of the other end, a step of the delivery layer and, if anything is due, taking the batch of messages next in order |
| Network.HearPaired | xcesp_l2tpv3d/main.py:194-247 | so any recent datagram, lost ones, duplicates and early ones around it, keeps the ends paired |
| Network.RunKeeps | xcesp_l2tpv3d/main.py:84-448 | and so does any run over the network |
| Network.EndsAgree | xcesp_l2tpv3d/main.py:84-448 | two tunnels without a password over a network that loses, duplicates and reorders octets: identities agree, sessions are never crossed and match, kernel entries mirror, and each end was handed what the other sent, once and in order |
| Handshake.UniformCookiesKept | xcesp_l2tpv3d/main.py:237-247 | where all sessions of the sender have cookies, or none, no batch can mix them up |
| Handshake.CookieLearnedExactly | xcesp_l2tpv3d/session_fsm.py:253-283 | at the head of any batch, an ICRQ or ICRP leaves the session with its sender's cookie, or none if that has none, if and only if it has one, or nothing later in the batch has one and none had been learned before |
| Handshake.SccrqAnsweredExactly | xcesp_l2tpv3d/tunnel_fsm.py:266-294 | an SCCRQ is answered with SCCRP if and only if the receiver is IDLE |
| Handshake.MergedIcrqsMix | xcesp_l2tpv3d/main.py:237-247 | two ICRQs delivered together act as one; a session without cookie is given the next one's |
| Handshake.OneSidedOpenConnects | xcesp_l2tpv3d/tunnel_fsm.py:184-324 | SCCRQ, SCCRP, SCCCN bring both machines up knowing each other |
| Handshake.SimultaneousOpenCollapses | xcesp_l2tpv3d/tunnel_fsm.py:266-271 | opened from both sides, each refuses the other and both fall silent in IDLE |
| Handshake.SessionOpens | xcesp_l2tpv3d/session_fsm.py:165-317 | ICRQ, ICRP, ICCN end with kernel parameters that mirror each other |

## Left out

- Sockets, the asyncio loops, signals, systemd notification, the command line and log output; the wire is a set or a list of datagrams, the event loop a set of pending timer handles, and the current time a parameter.
- The dataplane that runs `ip l2tp`: its surface is that of the in-memory one, whose error branches are modelled.
- Field-by-field configuration checks; their ranges appear as types and their uniqueness checks as assumptions.
- Strength of MD5, HMAC, nonces and constant-time comparison.
- Builder arguments outside their wire width (the ValueErrors of the single-value range checks): excluded by type.
- Names and texts are octet strings, teardown reasons values of a datatype; Unicode conversion is not modelled.
- AVP types the daemon never sends or reads beyond the ones listed in `AvpCodec.dfy`.
- The session close event has no caller in the daemon; it is included because the session machine offers it.
- Delivery.ExactlyOnceInOrder: guarded against numbers more than half a turn apart, which the code itself does not prevent.
- Progress.QueueDrains: for tunnels without a password only, since signed ends discard what tick sends again.
- Pairing.SessionsMatch: the claim about cookies leaves out runs with a batch that lends one; Handshake.CookieLearnedExactly says exactly which these are. The claim about session IDs leaves out nothing.
- Network.EndsAgree: for tunnels without a password; with one, the octets on the wire are signed and what is sent again is lost (Signing.UnsignedNeverVerifies), and the two ends are covered by Pairing only.
- TunnelObject.Tunnel.ExecuteTunnel: one time value stands for the clock readings of all sends within one event.
