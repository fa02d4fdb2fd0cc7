# A verified model of the P2P connection stack

The repository is a peer-to-peer connection stack. Clients find each other through NatServers, detect
their NAT type, punch holes or fall back to a relay proxy, and run reliable sessions over encrypted
tunnels. NatServers keep a registry of online peers, share it with each other by flooding, and keep a
blacklist and a licence list in files. This project models that behaviour in Dafny 4.11 and proves what it
promises: safety and recovery of the tunnel protocol, the algebra of the cryptographic code, the reach and
termination of the registry floods, the agreement of the proxy tables, the login protocol, the verdicts of
NAT detection, and the round trips of the files.

`dafny verify dfyconfig.toml` checks the whole project.

## Layout

| files | part of the system |
|---|---|
| Bytes, Codec, SessionSpec, Session | tunnel frames and the session class, `Codec.h` and `Session.h` |
| TunnelNet, TunnelSafety, TunnelNoLoss, TunnelRecovery, TunnelLimits | two sessions over a network that loses, duplicates and reorders |
| CryptoBytes, Gf256, Aes, AesCode, Cbc, Sha256, Hmac, Aead | `Crypto.cpp` |
| TunnelCrypto, TunnelClient, TunnelPlain, TunnelLink, TunnelWire | tunnel encryption, `P2PClient.cpp`, and the sessions on top of it |
| PeerManage, Graph, Rings, SyncNode, FloodTree, EntryFlood, EntryReach, EntryNear, EntryMiss, DeleteFlood, DeleteRest | registry sync between NatServers |
| Proxy, ProxyRun, ProxyMoves, ProxyPaths | relay proxy tables and their timer |
| Login, LoginRun | challenge login and heartbeats |
| NatDetect, NatRun | NAT type detection against RFC 4787 NATs |
| TextFile, Blacklist, License, FileCipher, AntiAbuse, LicenseMgr | the two persisted lists |

Objects that the source updates in place are classes here, and each method is proved equal to a
specification function on values. The theorems are about runs of those functions. A run is any sequence of
calls, packets, losses and waits that the system allows. Bytes on the wire are numbers below 256; bytes of
the cryptographic code are bit vectors. Clocks, random bytes and file contents are parameters.

## Results that differ from what one might expect

* A session acknowledges "nothing yet" with the value 0, which also acknowledges frame 0. If frame 0 is then
  lost the direction is stuck for good (`AckZeroLosesFrame`, `StuckForever`); up to 2^15 sends this is the
  only way to lose the ability to recover (`RecoverableIff`). Encryption changes none of this
  (`EncryptedStuckForever`, `EncryptedRecoverableIff`). The comment in `Session.h` calls the value the largest
  sequence number received; the model follows the code.
* A delete notice has neither hop count nor dedupe. It never comes to rest on a triangle (`Triangle`), and
  comes to rest, in every run, exactly where no way without turning back is longer than the net has links
  (`QuietsExactly`), that is, where no ring of servers is in reach (`QuietsWithoutRings`).
* The dedupe key of a registration has no hop. On a net with a triangle a copy that has used up its hops can
  overtake, on one link, a copy that has one left; the later one is dropped, and a server three links away is
  not reached even without loss (`FiveMissed`). `ThirdLinkExactly` says when that can happen; two links are
  always reached (`WithinTwoLanded`), and on acyclic nets all three are (`ReachesExactly`).
* The two timer phases of the proxy can make two clients share an address (`SharedAddress`); the exact
  condition is `AgreementExactly`.
* The proxy never forgets an address that a client has moved away from (`LeftBehindExactly`,
  `LeftBehindStays`): the maximum bounds the registrations (`NeverOverCapacity`) but not the addresses on
  record (`RecordsWithoutBound`). So a moved client can lose its live registration to the next client at its
  old address (`MovedClientEvicted`); the exact condition is `RegisterRemoves`.
* The detection protocol cannot find a NAT symmetric whose filtering is port-dependent too
  (`SymmetricExactly`), and after a restart it can call every NAT full cone (`FullConeAfterRestart`).
* `LicenseMgr::load` holds its mutex while the closing log message calls `count()`, which locks the same
  mutex (`LicenseMgr.cpp:53`, `:101`, `:108`, `:179-180`). So a load that accepts its file does not return,
  and `load` returns exactly for missing and refused files (`LoadReturnsExactly`, `SavedNeverReturns`). The
  other licence results speak of the list that has been parsed by then.
* `P2PClient::start` stores the new secret before it can fail (`P2PClient.cpp:36-41`) and drops the cached
  keys after that, so a client whose start failed has stale keys. It is not running and has no sessions, and
  the next start that succeeds drops them (`TunnelClient.Client.Start`).
* The list parsed from an encrypted licence file has one uuid too many (`SaveLoadEncrypted`), which turns an
  empty list, meaning everyone, into a list that would admit no ordinary uuid (`EmptyListLocksOut`).

## Model

| member | source | states |
|---|---|---|
| `Codec.Encode` | client/sdk/proto/Codec.h:68-88 | An encoded frame is 14 bytes longer than its payload and reads back as the same frame |
| `Codec.DecodeEncode` | client/sdk/proto/Codec.h:91-106 | Every buffer the reader accepts begins with the encoding of the frame it read: nothing in the header is ignored |
| `Codec.WriteTunnel` | client/sdk/proto/Codec.h:68-88 | The in-place writer stores exactly the encoding, touches nothing behind it, and refuses (with -1, buffer untouched) exactly when 8 + length exceeds the capacity |
| `SessionSpec.RetransmitMeaning` | client/sdk/session/Session.h:92-97 | A tick resends exactly the frames whose 400 ms timer ran out and changes nothing of a pending frame but their time stamps |
| `Session.Session.Send` | client/sdk/session/Session.h:43-67 | The method changes the session and transmits as the transition function says: -1, -2 and 0 cases, window and sequence number |
| `Session.Session.OnFrame` | client/sdk/session/Session.h:70-81 | Dispatch of a received packet: new state, transmitted frames and deliveries in order |
| `Session.Session.Tick` | client/sdk/session/Session.h:84-98 | Keep-alive after 15 s and retransmission, in the order of transmission |
| `Session.Session.RetransmitLoop` | client/sdk/session/Session.h:92-97 | The loop over the window computes the retransmission function |
| `Session.Session.HandleData` | client/sdk/session/Session.h:106-134 | Reliable and unreliable data, with one acknowledgement per reliable frame |
| `Session.Session.HandleReliable` | client/sdk/session/Session.h:109-130 | In-order delivery, buffering of later frames while fewer than 64 are held, dropping of the rest |
| `Session.Session.DrainLoop` | client/sdk/session/Session.h:114-122 | The drain loop hands up buffered frames in order until the first gap, and terminates |
| `Session.Session.HandleAck` | client/sdk/session/Session.h:141-145 | The loop pops the acknowledged prefix of the window |
| `TunnelSafety.DrainSafe` | client/sdk/session/Session.h:114-122 | Draining delivers consecutive items that were sent, each from its own slot and channel |
| `TunnelSafety.SafeReceive` | client/sdk/session/Session.h:106-134 | Whatever packet in flight arrives, the deliveries stay a prefix of the sends |
| `TunnelSafety.SafeSender` | client/sdk/session/Session.h:43-98 | Sends, ticks and acknowledgements keep window, packets in flight and sent items consistent |
| `TunnelSafety.SafeRun` | client/sdk/session/Session.h:43-159 | The safety invariant holds for both directions in every reachable state |
| `TunnelSafety.PrefixDelivery` | client/sdk/session/Session.h:43-139 | Over every interleaving of both ends and a network that loses, duplicates and reorders, with at most 65535 reliable sends the reliable deliveries are a prefix of the sends, in order and exactly once; empty payloads only skip the callback |
| `TunnelLimits.SafetyBoundIsTight` | client/sdk/session/Session.h:51 | With 65536 sends a run delivers the first frame twice: the bound of the safety theorem is exact |
| `TunnelNoLoss.PopAckedExact` | client/sdk/session/Session.h:141-145 | Below 2^15 the signed 16-bit comparison removes exactly the frames up to the acknowledged one |
| `TunnelNoLoss.HeldRun` | client/sdk/session/Session.h:106-153 | In every run the window is contiguous and no acknowledgement runs ahead of the receiver, except for the value 0 |
| `TunnelNoLoss.NoLoss` | client/sdk/session/Session.h:141-153 | With at most 2^15 sends the window is a contiguous run of at most 64 frames whose base is at most max(1, expected), and every undelivered frame but number 0 is still in it |
| `TunnelLimits.NoLossBoundIsTight` | client/sdk/session/Session.h:141-145 | With 2^15 + 1 sends a stale acknowledgement retires a frame that was never delivered: the bound is exact |
| `TunnelLimits.AckZeroLosesFrame` | client/sdk/session/Session.h:147-153 | For any two frames there is a run in which the acknowledgement 0 sent for "nothing" retires frame 0, and the state it reaches cannot recover |
| `TunnelRecovery.StuckForever` | client/sdk/session/Session.h:84-153 | Once frame 0 is lost this way nothing is delivered in that direction any more, whatever is called or sent, as long as each direction stays within 2^15 sends |
| `TunnelRecovery.StuckExactly` | client/sdk/session/Session.h:84-153 | A direction is in that state exactly when frame 0 is neither pending, delivered nor in flight |
| `TunnelRecovery.RecoverableIff` | client/sdk/session/Session.h:84-153 | From a reachable state with at most 2^15 sends each way, some run of ticks and deliveries without new sends delivers and acknowledges everything if and only if frame 0 of each direction is pending, delivered or in flight (which holds whenever the base is not ahead of the receiver) |
| `TunnelRecovery.BufferHasRoom` | client/sdk/session/Session.h:123-128 | While the base is not ahead of the receiver the 64-slot buffer never refuses a frame of the window |
| `Gf256.GMul` | common/Crypto.cpp:15-25 | The shift-and-add loop computes the product in GF(2^8) |
| `Gf256.GInv` | common/Crypto.cpp:27-37 | The square-and-multiply loop computes a^254 |
| `Gf256.MulComm` | common/Crypto.cpp:15-25 | The field product is commutative |
| `Gf256.MulAssoc` | common/Crypto.cpp:15-25 | The field product is associative |
| `Gf256.MulAdds` | common/Crypto.cpp:15-25 | The field product distributes over exclusive-or on both sides |
| `Gf256.InverseLaw` | common/Crypto.cpp:27-37 | a times a^254 is 1 for every non-zero a |
| `Gf256.InvInv` | common/Crypto.cpp:27-37 | Inversion undoes itself, so it is a permutation of the field |
| `Aes.SubInverse` | common/Crypto.cpp:51-56 | The two S-boxes undo each other, so the S-box is a bijection |
| `Aes.ShiftRowsInverse` | common/Crypto.cpp:117-120 | The inverse row shift undoes the row shift and conversely |
| `Aes.MixColumnsInverse` | common/Crypto.cpp:122-128 | InvMixColumns undoes MixColumns and conversely |
| `Aes.BlockInverse` | common/Crypto.cpp:108-172 | Block decryption and encryption are mutual inverses for every round-key schedule and block |
| `AesCode.BuildSboxes` | common/Crypto.cpp:52-56 | The table loop fills the S-box, and the inverse S-box at every place |
| `AesCode.BuildTables` | common/Crypto.cpp:51-66 | All eight tables hold what their names say, for every byte |
| `AesCode.RconTable` | common/Crypto.cpp:73-75 | The ten round constants are the powers of x |
| `AesCode.ExpandKey` | common/Crypto.cpp:81-106 | The key expansion computes the schedule of section 5.2 of FIPS 197 |
| `AesCode.EncryptBlock` | common/Crypto.cpp:109-138 | The table-driven block loop computes the cipher of section 5.1 of FIPS 197 |
| `AesCode.DecryptBlock` | common/Crypto.cpp:141-172 | The table-driven block loop computes the inverse cipher of section 5.3 of FIPS 197 |
| `Cbc.UnchainChain` | common/Crypto.cpp:359-413 | Unchaining a chained text gives the text back |
| `Cbc.PadUnpad` | common/Crypto.cpp:406-410 | A text whose padding is accepted is the padding of what is left of it |
| `Cbc.DecryptEncrypt` | common/Crypto.cpp:359-413 | For every key, IV and length, decrypting an encryption returns the plaintext |
| `Cbc.EncryptDecrypt` | common/Crypto.cpp:387-413 | Every ciphertext that decryption accepts is the encryption of its result |
| `Cbc.EncryptCode` | common/Crypto.cpp:359-385 | The in-place encryption writes exactly the ciphertext, or returns -1 with the buffer untouched exactly when it does not fit |
| `Cbc.DecryptCode` | common/Crypto.cpp:387-413 | The in-place decryption succeeds exactly when length, capacity and padding are right, and leaves the unchained text, padding included, in the buffer either way |
| `Sha256.ZeroPadLeast` | common/Crypto.cpp:244-245 | The number of zero bytes is the least that leaves room for the length |
| `Sha256.Sha256Ctx.Block` | common/Crypto.cpp:201-225 | Message schedule and 64 rounds compute the compression function of section 6.2.2 of FIPS 180-4 |
| `Sha256.Sha256Ctx.Update` | common/Crypto.cpp:227-238 | An update appends its bytes to the absorbed message, however they meet the block boundaries |
| `Sha256.Sha256Ctx.PadZeros` | common/Crypto.cpp:245 | The zero loop ends, by the measure (56 - buflen) mod 64, having added exactly the zero bytes of the padding |
| `Sha256.Sha256Ctx.Final` | common/Crypto.cpp:240-257 | The result is the digest of the absorbed message with the padding of section 5.1.1 of FIPS 180-4 |
| `Sha256.HashPieces` | common/Crypto.cpp:201-263 | Any cutting of a message into updates gives the digest of the whole message |
| `Sha256.HashCode` | common/Crypto.cpp:260-264 | One-shot hashing |
| `Hmac.HmacCode` | common/Crypto.cpp:277-301 | HMAC-SHA256 of the message, also when the output array is the one that holds the message |
| `Hmac.Iterate` | common/Crypto.cpp:350-353 | The iterations of one block, with one buffer as input and output of HMAC and the exclusive-or formed in the output, give F of RFC 8018 |
| `Hmac.Pbkdf2Code` | common/Crypto.cpp:324-357 | The derived key of section 5.2 of RFC 8018 for salts up to 60 bytes (0 iterations count as 1), zeros for longer ones |
| `Hmac.DerivedPrefix` | common/Crypto.cpp:338-356 | A shorter derived key is a prefix of every longer one |
| `Aead.CtrTwice` | common/Crypto.cpp:420-449 | Applying the key stream twice gives the text back |
| `Aead.CtrCode` | common/Crypto.cpp:420-449 | The counter loop applies the key stream of a 32-bit big-endian counter that wraps |
| `Aead.OpenSeal` | common/Crypto.cpp:451-506 | A box opens to a text if and only if sealing that text gives that box |
| `Aead.SealCode` | common/Crypto.cpp:451-476 | Ciphertext and tag as specified; -1 for a short buffer or more than 4096 bytes |
| `Aead.OpenCode` | common/Crypto.cpp:478-506 | Success exactly when capacity, length and tag are right; otherwise the output is untouched |
| `Aead.SameTag` | common/Crypto.cpp:498-500 | The constant-time comparison accepts exactly equal tags |
| `TunnelCrypto.SameKey` | client/sdk/api/P2PClient.cpp:933-940 | Two named clients with one secret derive the same key, whichever of them asks |
| `TunnelCrypto.DecryptEncryptFrame` | client/sdk/api/P2PClient.cpp:948-1004 | Decrypting an encrypted frame gives the frame with TF_ENC cleared: the frame itself exactly when it was sent without that flag |
| `TunnelCrypto.EncryptDecryptFrame` | client/sdk/api/P2PClient.cpp:978-1004 | Encrypting what a frame was decrypted to, under its nonce, gives the frame back |
| `TunnelCrypto.AcceptedIffEncrypted` | client/sdk/api/P2PClient.cpp:978-1004 | A whole frame with a payload, within the packet size, is accepted if and only if some plain frame and nonce encrypt to it |
| `TunnelCrypto.Transparent` | client/sdk/api/P2PClient.cpp:948-1033 | For two named clients the receiver hands up exactly the frame that was sent, for any nonce, with or without a secret |
| `TunnelPlain.RunPlain` | client/sdk/session/Session.h:43-159 | Every packet of a run of two sessions is a whole frame without TF_ENC and with at most 1200 bytes of payload |
| `TunnelLink.LinkIsTransparent` | client/sdk/api/P2PClient.cpp:880-1033 | Each packet in flight in a run of two sessions, encrypted at its end under any nonce and decrypted at the other, comes out as it went in |
| `TunnelWire.RunSim` | client/sdk/api/P2PClient.cpp:872-1033 | Every run of two sessions whose network carries ciphertexts under arbitrary nonces, and loses, duplicates and reorders them, has the sessions, sends, deliveries and frames in flight of a run over the plain network |
| `TunnelWire.RunBack` | client/sdk/api/P2PClient.cpp:872-1033 | and conversely every run over the plain network is matched by one over the encrypted link, the loss of a frame by the loss of all ciphertexts that carry it |
| `TunnelWire.EncryptedPrefixDelivery` | client/sdk/api/P2PClient.cpp:880-1033 | So over the encrypted link too the reliable deliveries are a prefix of the sends, in order and exactly once, up to 65535 sends |
| `TunnelWire.EncryptedNoLoss` | client/sdk/api/P2PClient.cpp:880-1033 | and up to 2^15 sends no frame but number 0 is lost |
| `TunnelWire.EncryptedRecoverableIff` | client/sdk/api/P2PClient.cpp:872-1033 | Over the encrypted link, up to 2^15 sends each way, retransmission alone finishes both directions if and only if frame 0 of each is pending, delivered, or in flight as some ciphertext that decrypts to it |
| `TunnelWire.EncryptedStuckForever` | client/sdk/api/P2PClient.cpp:872-1033 | and once frame 0 of a direction is out of reach nothing is ever delivered in it, whatever is called, sent, encrypted, delivered or lost afterwards |
| `TunnelClient.Client.GetTunnelKey` | client/sdk/api/P2PClient.cpp:927-946 | The cached key is always the derived one |
| `TunnelClient.Client.Start` | client/sdk/api/P2PClient.cpp:30-69 | Exactly which calls succeed, and the new state either way: a call that succeeds drops the cached keys, one that fails at the address or the socket has stored the new secret already and leaves a stopped client |
| `TunnelClient.Client.Stop` | client/sdk/api/P2PClient.cpp:71-87 | A client that is stopped has no sessions, so that a stale key cache is never used |
| `TunnelClient.Client.Transmit` | client/sdk/api/P2PClient.cpp:872-884 | What goes out for a frame is its encryption, or the frame as it is when encryption is off or refuses it |
| `TunnelClient.Client.EncryptTunnelFrame` | client/sdk/api/P2PClient.cpp:948-976 | The frame built in the output buffer is the specified one; refusal exactly for short, empty or oversized frames and missing keys; counter |
| `TunnelClient.Client.DecryptTunnelFrame` | client/sdk/api/P2PClient.cpp:978-1004 | The frame restored in the output buffer is the specified one; refusal exactly in the specified cases; counter |
| `TunnelClient.Client.SessionFor` | client/sdk/api/P2PClient.cpp:1009-1023 | One session per peer, created on first use with the next identifier |
| `TunnelClient.Client.OnTunnelFrame` | client/sdk/api/P2PClient.cpp:1025-1033 | The session of the peer makes the transition for the decrypted frame, or for the packet as it came |
| `TunnelClient.TransmittedIsOutgoing` | client/sdk/api/P2PClient.cpp:872-884 | For whole frames these bytes are the ones the encrypted link of two clients carries |
| `TunnelClient.HandedIsIncoming` | client/sdk/api/P2PClient.cpp:1025-1033 | and the bytes handed to the session are what that link delivers for a packet |
| `SyncNode.NatServer.SeenSyncEntry` | server/natserver/src/NatServer.cpp:605-622 | The dedupe table answers for 300 s and is pruned above 16384 entries |
| `SyncNode.NatServer.Targets` | server/natserver/src/NatServer.cpp:594-602 | All sync peers but the one excepted, in order |
| `SyncNode.NatServer.HandleSyncEntry` | server/natserver/src/NatServer.cpp:667-703 | Table, dedupe table and forwarded entries after an entry |
| `SyncNode.NatServer.HandleSyncDel` | server/natserver/src/NatServer.cpp:706-715 | Table and forwarded notices after a delete notice |
| `SyncNode.NatServer.BroadcastPeerEntry` | server/natserver/src/NatServer.cpp:648-664 | A local registration goes to every sync peer with hop 1 |
| `SyncNode.LandedIsOnRecord` | server/natserver/src/NatServer.cpp:690 | An entry that lands is on record with the data of its source and counts as logged in for an hour from its heartbeat |
| `SyncNode.SecondCopyDropped` | server/natserver/src/NatServer.cpp:605-622 | A second copy over the same link is dropped for 300 s; pruning never forgets a key earlier |
| `Graph.UniqueReduced` | server/natserver/src/NatServer.cpp:594-602 | On an acyclic symmetric graph a message that never turns back has at most one way between two servers |
| `Graph.ReducedIsDistance` | server/natserver/src/NatServer.cpp:594-602 | and that way is a shortest one |
| `FloodTree.NextCore` | server/natserver/src/NatServer.cpp:594-602 | Forwarding keeps, also under loss: a way is in flight or delivered at most once, and only after the shorter way it extends |
| `FloodTree.QuietDone` | server/natserver/src/NatServer.cpp:594-602 | Without loss, when nothing is in flight exactly the ways within the hop limit have been delivered |
| `EntryFlood.WithinThreeLinks` | server/natserver/src/NatServer.cpp:648-703 | On every graph, with losses and any dedupe state, an entry lands only within three links of its origin, with the links it came over as its hop |
| `EntryFlood.FloodEnds` | server/natserver/src/NatServer.cpp:594-703 | With at most D sync peers per server one registration causes at most D + D^2 + D^3 deliveries, on every graph |
| `EntryFlood.StepWeight` | server/natserver/src/NatServer.cpp:667-703 | Every delivery and every loss lowers the weight 1 + D + D^2, 1 + D, 1 of the entries in flight at hop 1, 2, 3 |
| `EntryReach.NeverBlocked` | server/natserver/src/NatServer.cpp:605-684 | On an acyclic graph the dedupe table never drops the copy that is due |
| `EntryReach.ReachesExactly` | server/natserver/src/NatServer.cpp:605-703 | On an acyclic symmetric graph a loss-free flood with nothing left in flight has landed at exactly the servers at distance 1 to 3, with the distance as hop |
| `EntryNear.WithinTwoLanded` | server/natserver/src/NatServer.cpp:594-703 | On a net of any shape, a loss-free flood with nothing left in flight has landed at every server within two links of its origin that takes part in the sync |
| `EntryNear.ThirdLinkLanded` | server/natserver/src/NatServer.cpp:594-703 | and at a server at distance three if some way of three links to it begins with a link that has no detour of two links |
| `EntryMiss.DeliverExact` | server/natserver/src/NatServer.cpp:605-703 | While the clock stands still the flood is this machine on walks: a copy is passed on unless one over its last link has landed before; nothing that is due is forgotten |
| `EntryMiss.ThirdLinkExactly` | server/natserver/src/NatServer.cpp:605-703 | On any well-formed net without links of a server to itself, every loss-free flood that comes to rest has reached a server at distance three if and only if some way of three links to it begins with a link that has no detour of two |
| `EntryMiss.FiveMissed` | server/natserver/src/NatServer.cpp:605-703 | Five servers, and a loss-free flood that comes to rest without having reached the one three links away |
| `DeleteFlood.DeleteEnds` | server/natserver/src/NatServer.cpp:706-715 | On an acyclic graph each server handles a delete notice at most once and the origin never, also with losses, so the flood ends |
| `DeleteFlood.EveryServerOnce` | server/natserver/src/NatServer.cpp:706-715 | Without loss, once nothing is in flight, exactly the servers connected to the origin have handled the notice, each exactly once |
| `DeleteRest.QuietsExactly` | server/natserver/src/NatServer.cpp:706-715 | On any well-formed net these are equivalent: some loss-free run of the delete flood comes to rest; all its runs, lossy or not, end after a bounded number of deliveries; no way to pass the notice on without turning back is longer than the net has links |
| `DeleteRest.QuietsWithoutRings` | server/natserver/src/NatServer.cpp:99-115 | On well-formed nets without links of a server to itself, which the configuration skips, this is so if and only if no ring of three or more servers is in reach of the origin |
| `Rings.GoRound` | server/natserver/src/NatServer.cpp:594-602 | A way that takes a link twice can be prolonged without end |
| `Rings.RingBetween` | server/natserver/src/NatServer.cpp:594-602 | Between two visits of a server a way that never turns back goes round a ring |
| `Rings.BoundedWithoutRings` | server/natserver/src/NatServer.cpp:594-602 | The ways from a server are bounded if and only if no ring is in its reach |
| `DeleteRest.NeverQuiet` | server/natserver/src/NatServer.cpp:706-715 | Where every server has two peers a loss-free delete flood never comes to rest |
| `DeleteRest.Triangle` | server/natserver/src/NatServer.cpp:706-715 | The triangle is such a net |
| `Proxy.P2PProxy.DoRegister` | server/proxyserver/src/P2PProxy.cpp:88-149 | Result code and both maps after a registration: refused, full, or taken, with the uuid on record for the address thrown out |
| `Proxy.P2PProxy.DoUnregister` | server/proxyserver/src/P2PProxy.cpp:151-162 | Only the registering address unregisters; the paths of that end go in both directions |
| `Proxy.P2PProxy.RelayData` | server/proxyserver/src/P2PProxy.cpp:195-252 | Destination, both path entries and counters after a relayed packet |
| `Proxy.P2PProxy.TimerPhase1` | server/proxyserver/src/P2PProxy.cpp:299-319 | The first locked section: counts fall, dead and idle paths and expired registrations go, their addresses are put aside |
| `Proxy.P2PProxy.TimerPhase2` | server/proxyserver/src/P2PProxy.cpp:320-323 | The second locked section forgets the addresses put aside |
| `ProxyRun.NeverOverCapacity` | server/proxyserver/src/P2PProxy.cpp:119-125 | In all interleavings there are never more registrations than the maximum |
| `ProxyRun.AgreeInjective` | server/proxyserver/src/P2PProxy.cpp:116-141 | While the maps agree, an address belongs to one uuid |
| `ProxyRun.AgreementExactly` | server/proxyserver/src/P2PProxy.cpp:116-161 | The maps agree in every state of a run if and only if no second phase runs while a live registration has an address put aside by the first |
| `ProxyRun.StepNoClash` | server/proxyserver/src/P2PProxy.cpp:299-324 | Such a state arises exactly from an accepted registration, between the phases, from an address put aside |
| `ProxyRun.AgreementHolds` | server/proxyserver/src/P2PProxy.cpp:116-161 | Without such a registration the maps agree in every state and no two uuids share an address |
| `ProxyRun.SharedAddress` | server/proxyserver/src/P2PProxy.cpp:299-324 | A run with such a registration after which two uuids share an address |
| `ProxyMoves.LeftBehindExactly` | server/proxyserver/src/P2PProxy.cpp:88-324 | An address is on record without a registration, and not about to be forgotten, after a step exactly if it was so and no client registered from it, or a registration moved or evicted the one client that lived there |
| `ProxyMoves.LeftBehindStays` | server/proxyserver/src/P2PProxy.cpp:127-324 | No timer pass, relay, or registration from elsewhere ever removes such an address, or changes its uuid |
| `ProxyMoves.RecordsWithoutBound` | server/proxyserver/src/P2PProxy.cpp:127-141 | One client that keeps moving leaves any number of addresses on record, whatever the maximum |
| `ProxyMoves.RegisterRemoves` | server/proxyserver/src/P2PProxy.cpp:127-141 | An accepted registration removes another uuid if and only if that uuid is on record for the address |
| `ProxyMoves.MovedClientEvicted` | server/proxyserver/src/P2PProxy.cpp:127-141 | A run in which a client that moved on loses its live registration to the next client at its old address |
| `ProxyPaths.StepOne` | server/proxyserver/src/P2PProxy.cpp:195-318 | One step moves the count of a path as the history says, unless a pass finds it idle too long |
| `ProxyPaths.HistoryExactly` | server/proxyserver/src/P2PProxy.cpp:195-318 | A path is present with count 3 - k exactly when k < 3 passes have gone by since the last exchange and neither end unregistered since, in every state of a run if and only if no pass finds a path with lives left idle for over 120 s |
| `ProxyPaths.TableIsHistory` | server/proxyserver/src/P2PProxy.cpp:195-318 | With passes at most 60 s apart this holds throughout, so the two directions exist together with the same count of 1 to 3 |
| `ProxyPaths.OneWayPath` | server/proxyserver/src/P2PProxy.cpp:195-311 | A late pass can leave a path in one direction only, because the clock is read once for each |
| `PeerManage.PeerManager.DoUpsert` | server/natserver/src/PeerManage.cpp:11-42 | A heartbeat creates or updates the record and keeps its login expiry; empty or over-long uuids are refused |
| `PeerManage.PeerManager.DoUpsertSynced` | server/natserver/src/PeerManage.cpp:49-80 | A synced record keeps the heartbeat time of its source and is logged in for an hour from it |
| `PeerManage.PeerManager.DoSetAuthExpire` | server/natserver/src/PeerManage.cpp:95-100 | A login is recorded for the session and on the record, if there is one |
| `PeerManage.PeerManager.IsAuthed` | server/natserver/src/PeerManage.cpp:102-110 | Logged in by session or by record |
| `PeerManage.PeerManager.DoCleanupSessions` | server/natserver/src/PeerManage.cpp:112-119 | The iterator loop drops exactly the expired sessions |
| `PeerManage.PeerManager.CleanupAndCollect` | server/natserver/src/PeerManage.cpp:159-172 | The iterator loop drops exactly the timed-out peers and returns each of them once |
| `PeerManage.CleanupKeepsAuthed` | server/natserver/src/PeerManage.cpp:102-119 | Dropping expired sessions changes no answer about who is logged in, now or later |
| `Login.AuthServer.OnChallenge` | server/natserver/src/RecvProcess.cpp:330-344 | Result code; a nonce valid for 30 s replaces any earlier one of the uuid |
| `Login.AuthServer.VerifyAuthLogin` | server/natserver/src/NatServer.cpp:205-239 | A challenge is used up by the first attempt; success records an hour from the second clock reading |
| `Login.AuthServer.OnLogin` | server/natserver/src/RecvProcess.cpp:348-371 | Result codes in the order blacklist, licence, verification |
| `Login.AuthServer.HandleHeartbeat` | server/natserver/src/NatServer.cpp:264-304 | Log in first, refused, or registered |
| `LoginRun.LoginAgreement` | server/natserver/src/NatServer.cpp:195-239 | With authentication on, a login succeeds if and only if it carries the right MAC for a nonce issued to that uuid at most 30 s earlier with neither another challenge nor another attempt for the uuid in between |
| `LoginRun.ChallengesUsedOnce` | server/natserver/src/NatServer.cpp:219 | No challenge is good for two attempts, so successful logins consume distinct nonces |
| `LoginRun.RegistrationsAreGranted` | server/natserver/src/NatServer.cpp:264-287 | A heartbeat registers a uuid only under a login or a synced entry less than an hour old, and is never told to log in while a login is |
| `NatDetect.ResponseRead` | server/natserver/src/NatTypeCheck.cpp:58-90 | Index, mapped address and mapped port are where the client reads them |
| `NatDetect.NatDetect.Start` | client/sdk/transport/NatDetect.h:32-41 | A start resets the phase but not the verdict |
| `NatDetect.NatDetect.Feed` | client/sdk/transport/NatDetect.h:46-72 | A reply moves the state machine as specified |
| `NatDetect.NatDetect.Tick` | client/sdk/transport/NatDetect.h:75-94 | Timeouts repeat a probe or move on to the alternate socket |
| `NatRun.StepKept` | client/sdk/transport/NatDetect.h:32-121 | What every step of client, server and NAT keeps |
| `NatRun.FullConeExactly` | client/sdk/transport/NatDetect.h:32-121 | While no restart follows a probe to the alternate socket, FULL_CONE is reached exactly for NATs whose filtering is not port-dependent |
| `NatRun.FullConeAfterRestart` | client/sdk/transport/NatDetect.h:32-41 | With such a restart FULL_CONE is reached for every NAT |
| `NatRun.SymmetricExactly` | server/natserver/src/NatTypeCheck.cpp:92-98 | SYMMETRIC is reached exactly for port-dependent mapping without port-dependent filtering: never for a NAT that is symmetric in both |
| `NatRun.PortRestrictedAlways` | client/sdk/transport/NatDetect.h:75-110 | A repeated first reply leads to PORT_RESTRICTED for every NAT |
| `TextFile.AtollPrint` | server/natserver/src/AntiAbuse.cpp:33-45 | Reading a printed number gives it back, for every integer |
| `TextFile.ParsePrintIp` | server/natserver/src/AntiAbuse.cpp:33-39 | Parsing a printed address gives it back |
| `Blacklist.ParseEntries` | server/natserver/src/AntiAbuse.cpp:22-49 | The position loop parses line by line |
| `Blacklist.RestoredExactly` | server/natserver/src/AntiAbuse.cpp:22-49 | In the clear the parser restores exactly the unexpired entries if and only if no unexpired uuid contains a space or a newline |
| `Blacklist.LeftoverIgnored` | server/natserver/src/AntiAbuse.cpp:22-49 | Padding bytes and a NUL are never an entry, newlines among them or not |
| `FileCipher.OpenSealed` | server/natserver/src/AntiAbuse.cpp:131-193 | Opening a sealed file gives the text back, with its padding and a NUL behind it |
| `FileCipher.SealFileCode` | server/natserver/src/AntiAbuse.cpp:166-192 | The file written is header, salt, IV and ciphertext under the derived key |
| `FileCipher.OpenFileCode` | server/natserver/src/AntiAbuse.cpp:92-121 | The file is opened with the salt, IV and iteration count it carries |
| `AntiAbuse.SaveLoad` | server/natserver/src/AntiAbuse.cpp:79-193 | Saving and loading into empty tables, plain or encrypted, with the clock read for each entry: the file is accepted and restores exactly the unexpired entries if and only if no unexpired uuid contains a space or a newline, although the loader passes leftover bytes on |
| `AntiAbuse.AntiAbuse.DoLoad` | server/natserver/src/AntiAbuse.cpp:79-129 | Acceptance, tables and dirty flag after loading |
| `AntiAbuse.AntiAbuse.Save` | server/natserver/src/AntiAbuse.cpp:131-193 | When a file is written, and what it holds, for some order of the hash tables |
| `AntiAbuse.WindowIs` | server/natserver/src/AntiAbuse.cpp:202-203 | The window keeps exactly the arrivals of the last second, in order |
| `AntiAbuse.AntiAbuse.CheckFlood` | server/natserver/src/AntiAbuse.cpp:195-216 | An address over the threshold is blacklisted and its window cleared; otherwise the window grows by one |
| `AntiAbuse.AntiAbuse.IsUuidBlacklisted` | server/natserver/src/AntiAbuse.cpp:230-237 | Expired entries are dropped when they are asked for |
| `License.ParseUuids` | server/natserver/src/LicenseMgr.cpp:19-31 | The position loop parses line by line |
| `License.RestoredExactly` | server/natserver/src/LicenseMgr.cpp:19-31 | In the clear the parser restores exactly the saved uuids if and only if none is empty, starts with a hash, contains a newline or ends in a carriage return |
| `License.LeftoverAdds` | server/natserver/src/LicenseMgr.cpp:19-31 | The leftover bytes are read as one more uuid, for each of the sixteen paddings |
| `LicenseMgr.SaveLoadPlain` | server/natserver/src/LicenseMgr.cpp:49-126 | In the clear, the list parsed from a saved file is the saved one if and only if every uuid is safe on a line of its own |
| `LicenseMgr.SaveLoadEncrypted` | server/natserver/src/LicenseMgr.cpp:82-160 | Encrypted, a list of safe uuids is parsed back with one uuid more; a list comes back unchanged if and only if all its uuids are safe and it holds the extra one already; with the length less the header it would come back if and only if all are safe |
| `LicenseMgr.EmptyListLocksOut` | server/natserver/src/LicenseMgr.cpp:96-100 | The empty list, which lets everyone in, is parsed back as one that would let no ordinary uuid in |
| `LicenseMgr.LoadReturnsExactly` | server/natserver/src/LicenseMgr.cpp:49-111 | A load returns if and only if the file is missing, or is encrypted and does not open to the header, and its answer is then false: after any other file the log message takes the mutex a second time |
| `LicenseMgr.SavedNeverReturns` | server/natserver/src/LicenseMgr.cpp:49-160 | No file that was saved can be loaded again: the load accepts it and does not return |
| `LicenseMgr.LicenseMgr.DoLoad` | server/natserver/src/LicenseMgr.cpp:49-111 | How the call ends, with the mutex held or not, and the path and list it leaves |
| `LicenseMgr.LicenseMgr.Save` | server/natserver/src/LicenseMgr.cpp:113-160 | What the file holds; the call waits while the mutex is held |

## Left out

* Sockets, threads, logging, the status server and the event loops: packets, time and file contents are
  values; a mutex-protected section is one atomic step, except the two sections of the proxy timer and
  the one of `LicenseMgr::load`, whose mutex is part of the model.
* ICE and SDP relay (libjuice is foreign code), the rest of the connection driver of `P2PClient`, the demo
  clients, the configuration parser, list replies, administration messages, proxy health and selection:
  mostly I/O, or only easy members.
* `p2p_stream_xor`, `sha256_hex`, the random source and the `Encryptor` wrapper of `Crypto.cpp`.
* Cryptographic hardness: nothing is claimed about secrecy or forgery. In `Login` the MAC is an arbitrary
  function of uuid and nonce.
* Overlap of the input and output buffers of CBC, CTR and the AEAD functions; only HMAC and PBKDF2, which the
  source calls with overlapping buffers, are modelled so.
* The session identifier of received frames is not checked by the code, so a restarted session is not told
  from the old one; the runs have one session at each end. TT_CLOSE frames are handled, but no session sends them.
* Byte, packet and drop counters, times and lengths are unbounded integers, except sequence numbers, the
  SHA-256 length, block and CTR counters, and the unsigned subtraction in `Session.tick`.
* `uint32_t` truncation of heartbeat times in sync entries, and numbers beyond `long long` in the blacklist file.
* Extension data on forwarded sync entries: the forwarded message is sent from a local structure without it.
  Snapshots are handled by `SyncNode`, but the flood runs have none; nor do they count copies made by the network.
* Authentication of sync messages and of proxy registrations: a message that fails it has no effect, and for
  registrations the outcome is a parameter.
- Codec.WriteTunnel: asks for 14 + length bytes of room whenever 8 + length fit the capacity, because the code's own check is 6 bytes short and relies on its callers.
- TunnelClient.Client.DecryptTunnelFrame: asks that the announced payload lies within the buffer, because the code does not compare it with the packet length; the packet may be shorter than the buffer.
- TunnelClient.Client.EncryptTunnelFrame: asks that the announced payload lies within the buffer, as in every frame a session builds.
- NatDetect.NatDetect.Feed: asks for 37 readable bytes once there are three, because the code checks only for three.
- TunnelClient.Client.OnTunnelFrame: asks the same of encrypted-looking packets.
- TunnelClient.Client.Transmit: asks the same of the frame; the paths it is then sent over are not part of this model.
- TunnelClient.Client.GetTunnelKey: asks, like the methods that use it, for a running client, because only such a one has connections and sessions to call it.
- TunnelClient.Client.Start: whether the server address resolves and the socket opens are parameters; what a start or a stop does to the rest of the connection driver is not modelled.
- SyncNode.NatServer.HandleSyncEntry: entries carry no extension data, because the code forwards that from behind a local structure.
- SyncNode.NatServer.BroadcastPeerEntry: no extension data; the heartbeat time, which the code reads from the clock, comes with the entry.
- LicenseMgr.LicenseMgr.DoLoad: relocking a `std::mutex` is undefined in C++; the model lets it wait for ever, as the usual implementation does.
- SyncNode.NatServer.Targets: the addresses are those configured; resolving them is not part of this model.
