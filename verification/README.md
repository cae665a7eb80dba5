# A verified model of the muddy tunnel

A small UDP tunnel: clients and a server relay Ethernet frames between virtual
interfaces. The model covers the four parts that carry the weight and the seams
between them.

- **The reader/writer lock** (`SharedMutexProtocol`, `SharedMutexTheorems`,
  `SharedMutex`, `UnsignedBits`). A transition system over any number of threads
  whose steps are the critical sections of the lock, with the two gates, spurious
  wake-ups and notifications that reach an arbitrary sleeper; and the class on the
  packed state word, each method of which refines its step.
- **The server** (`Sessions`, `ServerProtocol` and the `Server*` proofs,
  `SweepSpec`, `TunnelServer`). The critical sections as functions of the shared
  state; any number of threads interleaving them at every lock operation, with
  writer preference; and the object whose handlers run them from start to end.
  `LockRefinement` and `Composition` join the server to the reader/writer lock, step
  by step and with its progress; `HandlersAlone` joins the two server models;
  `ServerDelivery`, `ServerSweeps`, `MacBindings`, `Orphans` and `SharedKeyRuns` say
  what becomes of frames and sessions over whole runs, and `Requests` what becomes of
  each datagram, from its bytes to the fields that change.
- **The packet path** (`Wire`, `DummyCrypto`, `TunnelPath`, `TunnelClient`,
  `Handshake`). Packed layouts as bytes, the cipher by words in place, the gates at
  both ends, and the client's handshake.
- **Memory** (`Arena`, `FreeList`, `ArenaAllocator`, `ReturnStack`, `AllocatorRuns`,
  `Reservation`). Where carved objects lie, the lists threaded through them, the
  lock-free stack of returned objects, that the allocator object takes the steps of
  the concurrent model, and the aligned reservation of an arena.

A run is a sequence of labels from the start state; `Legal` says that each label is
enabled in turn and `Exec` is where the run leads, so a lemma about
`Exec(Start(..), ls)` for all legal `ls` speaks of every reachable state.

## Where the code does not do what it is for

In each case the model follows the code and the exact condition is proved.

- `unlock_shared` notifies gate 1 only on the step from a full count
  (shared_mutex.cpp:66-68). With `n` threads and a maximum of `max` readers some
  schedule leaves a thread asleep on a lock that nobody holds or is entering iff
  `max >= 2` and `n >= max + 2`
  (`LostWakeupIff`; `LosingRun` builds the schedule). The server's three threads are
  safe (`ServerLosesNoWakeup`).
- The client accepts a handshake reply by length alone, and receives it into a
  buffer of exactly that length (main.cpp:114-115). A UDP receive cuts a longer
  datagram to the buffer and reports the buffer's length, so a relayed frame passes
  for session information. The server relays frames to a session from its first
  StartSession on, so a lost or late reply is enough. The handshake is sound for
  all contents iff no relayed frame arrives before the first session information
  (`SoundIff`). On Windows a cut datagram is an error instead; the model takes the
  behaviour of `recvfrom` on Unix.
- `release` looks for the owner in the first word of the object itself
  (ArenaAllocator.hpp:59), while `append` writes it in the first word of the arena
  (line 74). The two agree iff the object's first word happens to hold the owner
  (`LookupAsWritten`), and for an object just allocated it never does (`Allocate`).
  Rounding the address down to the arena size always finds the owner
  (`HeaderNamesOwner`).
- AlignedAllocator_unix.cpp:13 multiplies the remainder where
  AlignedAllocator_win32.cpp:11 multiplies the quotient. The address stays inside
  the reservation iff the two coincide (`RemainderInsideIff`), which is never the
  case from the square of the alignment on (`RemainderMissesHighAddresses`).
  `Reserve` follows the Unix trims with the quotient.
- `insert` leaves an existing key alone, and a retried handshake registers a second
  session for the same MAC address (`TwoSessions`). Whether the two indexes stay
  nested or equal is decided, both ways, by which keys were taken at each
  registration (`IndexAgreement`).
- The sweep erases the MAC entry of a session it drops whoever the entry belongs to
  (TunnelServer.cpp:99), so a session that was heard a second ago can lose its route
  (`RouteLost`). A session heard in time stays routable exactly until another one
  with its MAC is dropped (`RoutableIff`).
- A session registered under a taken identity is reached by no heartbeat and no
  sweep, and its address never comes back (`OneIdentity`, `OrphanForever`). There
  are such sessions iff some registration finds its identity taken (`OrphansIff`).
- `allocate` reads through a null pointer when a new arena yields no object at all;
  `Allocate` returns `None` there. That is so iff the arena ends no later than the
  first object would (`NoObjectsIff`): an object that just fills what the header
  leaves is already too large (`TooLargeByNothing`).

## Model

| member | source | states |
|---|---|---|
| `SharedMutexProtocol.InvStep` | source/common/thread/shared_mutex.cpp:7-70 | each critical section keeps: count = shared holders and at most the maximum; write bit set iff exactly one thread drains or holds; a holder coexists with no reader; who may sleep on which gate |
| `SharedMutexTheorems.Exclusion` | source/common/thread/shared_mutex.cpp:7-70 | in every run an exclusive holder excludes every other holder and every pending writer, and the count is exactly the number of shared holders |
| `SharedMutexTheorems.DrainMeasure` | source/common/thread/shared_mutex.cpp:12-15 | while a writer drains each release removes one reader and nothing adds one; the writer can go iff as many releases have happened as there were readers |
| `SharedMutexTheorems.UnlockWakesAll` | source/common/thread/shared_mutex.cpp:27-31 | an exclusive release leaves the lock free with nobody asleep on either gate |
| `SharedMutexTheorems.SleepersAreOwed` | source/common/thread/shared_mutex.cpp:56-70 | with at most max threads: a sleeper on gate 1 implies the write bit, a sleeper on gate 2 is the pending writer with readers left, and every sleeper is owed by another thread that holds or is awake |
| `SharedMutexTheorems.LosingRun` | source/common/thread/shared_mutex.cpp:61-69 | for every max >= 2 and n >= max + 2, a legal run after which a thread sleeps on a lock that nobody holds |
| `SharedMutexTheorems.LostWakeupIff` | source/common/thread/shared_mutex.cpp:33-70 | a wake-up can be lost iff max >= 2 and there are at least max + 2 threads |
| `SharedMutexImpl.Masks` | include/muddy/common/thread/shared_mutex.hpp:28-30 | the two masks split every 32-bit word into write bit and count |
| `SharedMutexImpl.AddReader` | source/common/thread/shared_mutex.cpp:39-41 | incrementing a count that is not full never carries into the write bit |
| `SharedMutexImpl.RemoveReader` | source/common/thread/shared_mutex.cpp:58-60 | decrementing borrows from the write bit iff there is neither reader nor writer |
| `SharedMutexImpl.SharedMutex.constructor` | source/common/thread/shared_mutex.cpp:5 | a new lock is free |
| `SharedMutexImpl.SharedMutex.Lock` | source/common/thread/shared_mutex.cpp:7-16 | the first segment of lock() on the packed word is the abstract one |
| `SharedMutexImpl.SharedMutex.Drain` | source/common/thread/shared_mutex.cpp:13-15 | so is the second loop |
| `SharedMutexImpl.SharedMutex.TryLock` | source/common/thread/shared_mutex.cpp:18-25 | succeeds exactly on a free lock |
| `SharedMutexImpl.SharedMutex.Unlock` | source/common/thread/shared_mutex.cpp:27-31 | clears the word and empties gate 1 |
| `SharedMutexImpl.SharedMutex.LockShared` | source/common/thread/shared_mutex.cpp:33-42 | adds a reader, or sleeps behind a writer or a full count |
| `SharedMutexImpl.SharedMutex.TryLockShared` | source/common/thread/shared_mutex.cpp:44-54 | adds a reader exactly if no writer and no full count stand in the way |
| `SharedMutexImpl.SharedMutex.UnlockShared` | source/common/thread/shared_mutex.cpp:56-70 | removes a reader and wakes one sleeper of the right gate, on the last reader before a writer or on leaving a full count |
| `SharedMutexTheorems.TriesSucceedIff` | source/common/thread/shared_mutex.cpp:18-54 | in every reachable state try_lock succeeds iff nobody drains or holds the lock, try_lock_shared iff there is no writer and the count is not full |
| `LockRefinement.MutexRefinesLock` | source/common/thread/shared_mutex.cpp:7-70 | every critical section of the lock is a finite path of moves of the abstract lock under which the server is verified |
| `LockRefinement.LetsThroughIff` | source/common/thread/shared_mutex.cpp:7-70 | the other half: with at most max threads, in every reachable state, a waiting thread is awake and its next critical section takes it further iff the abstract lock lets it through |
| `LockRefinement.PassableIffGetsThrough` | source/common/thread/shared_mutex.cpp:7-70 | a server thread can pass a lock iff the reader/writer lock under it has let it in or is about to |
| `Wire.HeaderRoundTrip` | include/muddy/tunnel/packet.hpp:14-28 | reading a packed header back yields its four fields, and the payload follows it |
| `Wire.PacketLayout` | include/muddy/tunnel/packet.hpp:14-28 | a packet byte by byte: type, version 1, length and identity, least significant byte first, then the payload |
| `Wire.PayloadLayout` | include/muddy/tunnel/packet.hpp:83-105 | where the fields of session information lie, and the type and bytes of each server message |
| `DummyCryptoImpl.DummyCrypto.constructor` | source/crypto/DummyCrypto.cpp:6-17 | byte j of the folded key is the XOR of all secret bytes at positions congruent to j mod 4 |
| `DummyCryptoImpl.FoldAppend` | source/crypto/DummyCrypto.cpp:9-16 | byte j of a further word, or of a shorter tail, is combined with byte j of the fold |
| `DummyCryptoImpl.FoldShort` | source/crypto/DummyCrypto.cpp:9-16 | a secret of up to four bytes folds to its own bytes, padded by zeros |
| `DummyCryptoImpl.FoldStep` | source/crypto/DummyCrypto.cpp:9-16 | a word, or a shorter tail in a zeroed word, extends the fold by its bytes |
| `DummyCryptoImpl.DummyCrypto.Encrypt` | source/crypto/DummyCrypto.cpp:19-32 | for every length the word loop and the tail XOR byte i with key byte i mod 4, and touch nothing past the length |
| `DummyCryptoImpl.DummyCrypto.Decrypt` | source/crypto/DummyCrypto.cpp:34-36 | the same transformation |
| `DummyCryptoImpl.CryptWord` | source/crypto/DummyCrypto.cpp:24-30 | XOR of up to four loaded bytes with the key word is the bytewise cipher |
| `DummyCryptoImpl.CryptAt` | source/crypto/DummyCrypto.cpp:19-32 | byte i of the result is byte i XOR key byte i mod 4 |
| `DummyCryptoImpl.CryptTwice` | source/crypto/DummyCrypto.cpp:34-36 | the cipher is its own inverse |
| `DummyCryptoImpl.CryptPrefix` | source/crypto/DummyCrypto.cpp:19-32 | the cipher commutes with taking prefixes |
| `TunnelPath.ClientToServer` | source/tunnel/TunnelServer.cpp:28-67 | a client packet reaches the handler of its type whole iff it fits 1600 bytes and the type has a handler |
| `TunnelPath.UplinkIdentity` | source/tunnel/TunnelServer.cpp:148-168 | a client frame is written at the server byte for byte iff it has 19 to 1592 bytes, a known session and an acceptable destination; otherwise nothing is written |
| `TunnelPath.DownlinkIdentity` | source/tunnel/TunnelClient.cpp:48-71 | a server frame is sent iff it has at least 18 bytes and written at the client byte for byte iff it has at most 1992 |
| `TunnelPath.VerdictByBytes` | source/tunnel/TunnelServer.cpp:33-64 | what the server does with any decrypted packet, by its bytes: size, declared length, version and type in that order |
| `TunnelPath.ReactionByBytes` | source/tunnel/TunnelClient.cpp:53-69 | what the client does with any decrypted packet of its server, by its bytes |
| `TunnelPath.StrangersSkipped` | source/tunnel/TunnelClient.cpp:91-95 | whatever comes from another address, port or family is skipped |
| `TunnelPath.SessionInfoSkipped` | source/tunnel/TunnelClient.cpp:65-66 | session information that comes late or twice is never written as a frame |
| `TunnelPath.OnlyErrorsStop` | source/tunnel/TunnelClient.cpp:59-63 | of all server messages exactly the errors stop the client, cut or not |
| `TunnelClientImpl.TunnelClient.HandleFrame` | source/tunnel/TunnelClient.cpp:73-89 | sends exactly the sealed packet of the frame |
| `TunnelClientImpl.TunnelClient.SendHeartbeats` | source/tunnel/TunnelClient.cpp:31-46 | every round sends the one packet prepared at the start |
| `TunnelClientImpl.TunnelClient.HandleDatagram` | source/tunnel/TunnelClient.cpp:48-71 | decrypts in place and stops, writes or skips by source, type and length |
| `Handshake.StartSession` | source/tunnel/main.cpp:94-124 | up to three requests, each the sealed StartSession of the client's MAC, until a reply has the received length 24, which is adopted |
| `Handshake.Lengths` | include/muddy/tunnel/packet.hpp:83-105 | on the wire session information has 24 bytes, an error 10, a relayed frame at least 26, and nothing else has these lengths |
| `Handshake.AdoptsEmission` | source/tunnel/main.cpp:112-119 | what the client makes of each server message: the exact fields, nothing, or the first sixteen bytes of a relayed frame |
| `Handshake.InfoFirstIsSound` | source/tunnel/main.cpp:112-119 | if no relayed frame comes before the first session information, whatever is adopted was sent as session information |
| `Handshake.FrameFirstIsAdopted` | source/tunnel/main.cpp:112-119 | otherwise the first sixteen bytes of the frame are adopted, whatever it is |
| `Handshake.SoundIff` | source/tunnel/main.cpp:112-119 | the handshake is sound for all contents iff no relayed frame comes first |
| `Sessions.HtonlInvolution` | source/tunnel/TunnelServer.cpp:233 | byte reversal is a bijection on 32-bit addresses and only 0 yields the failure value 0 |
| `Sessions.HtonlBytes` | source/tunnel/TunnelServer.cpp:233 | the four bytes of an address in reverse |
| `Sessions.InsertAgreement` | source/tunnel/TunnelServer.cpp:193-195 | registration keeps every key right; it keeps the nesting of the indexes in either direction iff the stated keys are free or taken |
| `Sessions.UnlinkAgreement` | source/tunnel/TunnelServer.cpp:99-100 | erasing one session from both indexes leaves no way to it and keeps keys and nestings |
| `ServerProtocol.LockStep` | source/tunnel/TunnelServer.cpp:86-250 | every step of every handler keeps: the locks held fit the place in the code, and no two threads hold incompatible stages of one lock |
| `ServerMemory.MemStep` | source/tunnel/TunnelServer.cpp:86-226 | every step keeps: index entries point to live objects under their own keys, borrowed pointers are live and indexed, private ones are unindexed and unshared |
| `ServerMemory.SafeReclamation` | source/tunnel/TunnelServer.cpp:86-105 | in every reachable state an object about to be deleted is live, unindexed, and neither pointed to nor locked by any other thread |
| `ServerMemory.DeletedOnce` | source/tunnel/TunnelServer.cpp:96-102 | every run deletes an object at most once |
| `ServerMemory.RaceFree` | source/tunnel/TunnelServer.cpp:206-226 | in every reachable state a thread free to write alive or address of a session is the only one free to touch them |
| `ServerProgress.LockOrder` | source/tunnel/TunnelServer.cpp:137-144 | in every reachable state a thread only waits for a lock of a higher level than all it holds |
| `ServerProgress.DeadlockFree` | source/tunnel/TunnelServer.cpp:86-250 | whenever some handler is under way, some handler can take a step |
| `ServerAddresses.AddressConservation` | source/tunnel/TunnelServer.cpp:229-250 | in every reachable state free, session-held and in-hand addresses are pairwise disjoint and duplicate-free and are together exactly those ever handed out |
| `ServerAddresses.AddressesGiven` | include/muddy/tunnel/TunnelServer.hpp:64-65 | with the constructor's bounds every address free or taken is one of 10.20.30.100 to 10.20.30.199 in network order, never the gateway |
| `ServerAddresses.ExhaustedIff` | source/tunnel/TunnelServer.cpp:238-244 | in every reachable state allocation yields 0 iff every address of the range is taken |
| `ServerIndexes.IndexStep` | source/tunnel/TunnelServer.cpp:193-195 | for each step, the exact condition under which the indexes stay nested, and equal |
| `ServerIndexes.IndexAgreement` | source/tunnel/TunnelServer.cpp:91-103 | over a whole run the MAC index stays within the identity index iff no session registers under a taken identity and a free MAC; the indexes stay equal iff every registration finds both keys free or both taken |
| `ServerIndexes.BindingStep` | source/tunnel/TunnelServer.cpp:91-103 | a binding disappears iff the sweep drops it and never changes otherwise |
| `MacBindings.MacBindingIff` | source/tunnel/TunnelServer.cpp:91-103 | over any run a MAC keeps its session exactly until a sweep drops some session with that MAC, its own or another |
| `MacBindings.RoutableIff` | source/tunnel/TunnelServer.cpp:91-103 | a session heard in time at every sweep stays routable iff no other session with its MAC is dropped |
| `SharedKeyRuns.TwoSessions` | source/tunnel/TunnelServer.cpp:193-195 | a run of two StartSessions with one MAC after which a session is filed by identity alone |
| `SharedKeyRuns.RouteLost` | source/tunnel/TunnelServer.cpp:94-102 | a run in which a session heard one second before the sweep stays bound and loses its MAC entry |
| `SharedKeyRuns.OneIdentity` | source/tunnel/TunnelServer.cpp:190-195 | a run of two StartSessions that draw one identity, after which a live session is out of reach of heartbeats and sweeps |
| `Orphans.OrphanStep` | source/tunnel/TunnelServer.cpp:86-226 | exactly a registration under a taken identity makes a live session that neither an identity nor a thread leads to, and it remains one |
| `Orphans.OrphansIff` | source/tunnel/TunnelServer.cpp:86-226 | over a whole run there is no such session iff every registration finds its identity free |
| `Orphans.OrphanForever` | source/tunnel/TunnelServer.cpp:91-103 | such a session is never deleted and its address stays taken |
| `ServerSweeps.SurvivorsStep` | source/tunnel/TunnelServer.cpp:91-103 | while a sweep is under way no step of any thread changes which sessions will be left or what they are, and a sweep that leaves has nothing left to drop |
| `ServerSweeps.DueStep` | source/tunnel/TunnelServer.cpp:96-102 | each step takes from the sessions due for unlinking, for returning their address or for deletion exactly the one it deals with, and does that and nothing else |
| `ServerSweeps.SweepExact` | source/tunnel/TunnelServer.cpp:86-105 | under every interleaving, when a sweep leaves, the identity index and its sessions are what they were when it read its clock but for exactly the sessions then silent for 45 seconds or more, each of which was unlinked, gave its address back and was deleted once |
| `ServerSweeps.SweepDropsTheSilent` | source/tunnel/TunnelServer.cpp:90-95 | under every interleaving, an identity bound when a sweep reads its clock is bound when it leaves iff its session was started or heard less than 45 seconds before |
| `ServerSweeps.AliveIsLastHeard` | source/tunnel/TunnelServer.cpp:191-215 | in every reachable state a session's alive is the clock at its start or at its latest heartbeat |
| `ServerSweeps.HeartbeatRecorded` | source/tunnel/TunnelServer.cpp:206-226 | under every interleaving, a heartbeat whose identity is bound when the index lock is taken is recorded with that session |
| `ServerSweeps.Survival` | source/tunnel/TunnelServer.cpp:88-95 | from any reachable state, a session whose start or latest heartbeat was less than 45 seconds before each time a sweep reads its clock stays bound to the same live object |
| `ServerRouting.Routing` | source/tunnel/TunnelServer.cpp:119-145 | in every reachable state the next datagram carries its frame to the ip and port the session last spoke from, and a frame whose first byte is even goes to the session filed under its first six bytes |
| `ServerDelivery.PendingStep` | source/tunnel/TunnelServer.cpp:119-145 | each step of any thread takes from the targets a sender has pending exactly the one it serves, and a sender that leaves has none pending |
| `ServerDelivery.Delivered` | source/tunnel/TunnelServer.cpp:107-146 | under every interleaving a frame goes to no MAC entry twice; at the end it has gone to every entry if its first byte is odd and else to the entry of its first six bytes, each time once, to the ip and port the session last spoke from |
| `ServerRouting.LogIsHistory` | source/tunnel/TunnelServer.cpp:186-224 | the log that routing refers to is every start of a session and every heartbeat handled in the run, in order |
| `ServerRouting.UnknownRefused` | source/tunnel/TunnelServer.cpp:155-160 | in any state, a heartbeat or frame under an unknown identity is answered by one error with code 2 and changes nothing else; a known one goes on to its session |
| `ServerRouting.RegistrationAnswered` | source/tunnel/TunnelServer.cpp:193-196 | in any state, a registration fills the free keys and sends the peer the address, gateway, netmask and identity |
| `ServerRouting.RequestKept` | source/tunnel/TunnelServer.cpp:170-227 | whatever other threads do, a handler keeps to the peer and the MAC of its request until it is done |
| `ServerRouting.SessionInfoGenuine` | source/tunnel/TunnelServer.cpp:186-196 | every session information ever sent went to the peer of a StartSession and names the identity and the address that this session was given and the server's gateway and netmask |
| `SweepSpec.WithoutOneMore` | source/tunnel/TunnelServer.cpp:96-102 | dropping sessions one at a time amounts to removing the whole set, each address returned once |
| `SweepSpec.WithoutAgrees` | source/tunnel/TunnelServer.cpp:91-103 | what is left has right keys and live objects |
| `TunnelServerImpl.TunnelServer.constructor` | include/muddy/tunnel/TunnelServer.hpp:58-67 | an empty server with the given pool bounds |
| `TunnelServerImpl.TunnelServer.Send` | source/tunnel/TunnelServer.cpp:252-283 | frames, encrypts in place and sends; the wire stays the encoding of the messages |
| `TunnelServerImpl.TunnelServer.AllocateAddress` | source/tunnel/TunnelServer.cpp:229-245 | takes the next fresh address, else the top of the stack, else fails |
| `TunnelServerImpl.TunnelServer.ReleaseAddress` | source/tunnel/TunnelServer.cpp:247-250 | pushes the address |
| `TunnelServerImpl.TunnelServer.StartSession` | source/tunnel/TunnelServer.cpp:170-197 | drops a packet of the wrong size, gives up without an address, else builds, registers and answers |
| `TunnelServerImpl.TunnelServer.Register` | source/tunnel/TunnelServer.cpp:193-196 | fills both indexes where the keys are free and answers with address, gateway, netmask and identity |
| `TunnelServerImpl.TunnelServer.HandleHeartbeat` | source/tunnel/TunnelServer.cpp:199-227 | refuses an unknown session, else records the time and the peer's ip and port |
| `TunnelServerImpl.TunnelServer.RelayData` | source/tunnel/TunnelServer.cpp:148-168 | refuses an unknown session, else writes the frame iff its destination is acceptable |
| `TunnelServerImpl.TunnelServer.HandleDatagram` | source/tunnel/TunnelServer.cpp:28-67 | decrypts in place and does exactly what the verdict on the datagram calls for |
| `Requests.HeartbeatArrives` | source/tunnel/TunnelServer.cpp:199-227 | from the datagram a client sends: a heartbeat of a bound session sets alive to now and the endpoint to the peer's ip and port and nothing else; of an unknown one it is answered by code 2 |
| `Requests.StartSessionArrives` | source/tunnel/TunnelServer.cpp:170-197 | from the datagram: a StartSession takes the next address, makes and files the session and answers with address, gateway, netmask and identity; without an address nothing happens |
| `Requests.FrameArrives` | source/tunnel/TunnelServer.cpp:148-163 | from the datagram: a frame changes nothing but for the error code 2 under an unknown identity |
| `Requests.OthersArrive` | source/tunnel/TunnelServer.cpp:28-67 | whatever else arrives is ignored, but a wrong version is answered by code 1 |
| `TunnelServerImpl.TunnelServer.Broadcast` | source/tunnel/TunnelServer.cpp:107-124 | one datagram for every entry of the MAC index, none twice |
| `TunnelServerImpl.TunnelServer.Unicast` | source/tunnel/TunnelServer.cpp:126-146 | one datagram to the session under the destination, or none |
| `TunnelServerImpl.TunnelServer.HandleFrame` | source/tunnel/TunnelServer.cpp:69-84 | drops frames under 18 bytes and sends the others to every MAC entry if the first byte is odd, else to the entry of the first six bytes |
| `TunnelServerImpl.TunnelServer.RemoveZombies` | source/tunnel/TunnelServer.cpp:86-105 | drops exactly the sessions with now - alive >= 45, each once, in some order |
| `HandlersAlone.HeartbeatAlone` | source/tunnel/TunnelServer.cpp:206-226 | the handler run alone among interleaved threads does what the method does |
| `HandlersAlone.StartSessionAlone` | source/tunnel/TunnelServer.cpp:177-196 | so does startSession |
| `HandlersAlone.LookupAlone` | source/tunnel/TunnelServer.cpp:148-163 | so does the lookup of relayData, with its error reply |
| `HandlersAlone.FrameAlone` | source/tunnel/TunnelServer.cpp:107-146 | with no other handler under way, a frame is sent as the method sends it; under interleaving see `Delivered` |
| `HandlersAlone.SweepAlone` | source/tunnel/TunnelServer.cpp:89-104 | with no other handler under way, a sweep does what the method does; under interleaving see `SweepExact` |
| `Composition.AdoptedPairWasIssued` | source/tunnel/main.cpp:112-119 | under any schedule of the server, a client that sees no relayed frame first adopts the identity and address of one session that was started for this client, with the server's gateway and netmask |
| `Composition.EveryLockIsBacked` | source/tunnel/TunnelServer.cpp:86-250 | every run of the server has, at its index lock and each session lock, a history of the reader/writer lock that puts the threads where they are |
| `Composition.DeadlockFreeOnMutexes` | source/tunnel/TunnelServer.cpp:86-250 | with such states of the reader/writer lock under the server, whenever a handler is under way some thread is awake and its next critical section takes it further |
| `Composition.ServerLosesNoWakeup` | source/tunnel/main.cpp:86-88 | the server's three threads cannot lose a wake-up |
| `Arena.AlignLeast` | include/muddy/common/tpl/align.hpp:8-13 | the result is the least multiple of the alignment that is not smaller |
| `Arena.CountExact` | include/muddy/common/mm/ArenaAllocator.hpp:79-82 | the closed form of the number of objects is where the carving loop stops |
| `Arena.Positions` | include/muddy/common/mm/ArenaAllocator.hpp:76-82 | the values of the loop variable: the objects in order, then the first address past the limit |
| `Arena.NoObjectsIff` | include/muddy/common/mm/ArenaAllocator.hpp:76-82 | an arena yields no object iff its end is not past the first place by more than an object |
| `Arena.TooLargeByNothing` | include/muddy/common/mm/ArenaAllocator.hpp:79 | an object that just fills the arena behind the header is not carved |
| `Arena.ObjectsPlaced` | include/muddy/common/mm/ArenaAllocator.hpp:72-84 | for every size and alignment the objects are aligned, disjoint, clear of the header and inside the arena |
| `Arena.HeaderFound` | include/muddy/common/mm/ArenaAllocator.hpp:22-24 | rounding down an address inside an arena yields the arena |
| `ArenaAllocatorImpl.ElsewhereIntact` | include/muddy/common/mm/ArenaAllocator.hpp:29-32 | work inside one's own arena leaves lists and headers of all other allocators intact |
| `ArenaAllocatorImpl.ArenaAllocator.PushNode` | include/muddy/common/mm/ArenaAllocator.hpp:29-32 | writes one word and puts the node in front of the list |
| `ArenaAllocatorImpl.ArenaAllocator.Carve` | include/muddy/common/mm/ArenaAllocator.hpp:76-83 | the loop prepends exactly the objects of the arena, last first, writing only inside it and not on the header |
| `ArenaAllocatorImpl.ArenaAllocator.Append` | include/muddy/common/mm/ArenaAllocator.hpp:72-84 | the same with the header, keeping both lists and all headers |
| `ArenaAllocatorImpl.ArenaAllocator.Allocate` | include/muddy/common/mm/ArenaAllocator.hpp:44-55 | yields the first object of the local list, of the exchanged stack or of a new arena; its first word is not the owner |
| `ArenaAllocatorImpl.ArenaAllocator.Release` | include/muddy/common/mm/ArenaAllocator.hpp:57-63 | for an object of any allocator: pushed on the local list iff its first word is this allocator, which is right iff the object is this allocator's own; else hands on whatever that word says |
| `ArenaAllocatorImpl.ArenaAllocator.ReleaseForeign` | include/muddy/common/mm/ArenaAllocator.hpp:65-69 | however often the exchange fails, the object ends up on top of its owner's stack, and lists and headers stay right |
| `ArenaAllocatorImpl.ReleaseByHeader` | include/muddy/common/mm/ArenaAllocator.hpp:57-69 | among any number of allocators over one memory, an object given back through the header of its arena ends up with its owner, on the local list or the shared stack, and every allocator stays valid |
| `ArenaAllocatorImpl.ArenaAllocator.HeaderNamesOwner` | include/muddy/common/mm/ArenaAllocator.hpp:74 | the header found from any object names its allocator |
| `ArenaAllocatorImpl.ArenaAllocator.LookupAsWritten` | include/muddy/common/mm/ArenaAllocator.hpp:59 | the lookup as written agrees with the header iff the object's first word holds the owner |
| `ReturnStack.SwapStep` | include/muddy/common/mm/ArenaAllocator.hpp:65-69 | a successful exchange is right whatever happened to the head since it was read |
| `ReturnStack.Conservation` | include/muddy/common/mm/ArenaAllocator.hpp:45-70 | in every run, with any number of releasing threads, spurious failures and reused heads, both lists are finite and duplicate-free and every carved object is at exactly one place |
| `AllocatorRuns.Allocate` | include/muddy/common/mm/ArenaAllocator.hpp:44-55 | on the words of the objects, the method is a run of the concurrent steps: take all if the local list is empty, carve the objects of the new arena if still empty, pop |
| `AllocatorRuns.Release` | include/muddy/common/mm/ArenaAllocator.hpp:57-63 | the owner's release is the concurrent step |
| `AllocatorRuns.CompareExchange` | include/muddy/common/mm/ArenaAllocator.hpp:67 | an attempt is the successful or the failing exchange of the concurrent model |
| `AllocatorRuns.ReleaseForeign` | include/muddy/common/mm/ArenaAllocator.hpp:65-69 | the whole release by another thread is the run of a load, its failures and the exchange |
| `Reservation.QuotientInside` | source/common/mm/AlignedAllocator_win32.cpp:10-11 | the quotient formula yields an aligned address inside the reservation |
| `Reservation.RemainderInsideIff` | source/common/mm/AlignedAllocator_unix.cpp:12-13 | the remainder formula stays inside iff remainder and quotient coincide |
| `Reservation.RemainderMissesHighAddresses` | source/common/mm/AlignedAllocator_unix.cpp:12-13 | it never does from the square of the alignment on |
| `Reservation.AlignedAllocator.Reserve` | source/common/mm/AlignedAllocator_unix.cpp:8-19 | both trims are non-empty page multiples and exactly the aligned block stays mapped |

## Left out

- ClientInfo as heap objects of their own: they live in an explicit heap keyed by pointer, because a deletion, and a use after it, can then be stated.
- The second mapping in AlignedAllocator_unix.cpp:20: without a fixed-address flag it need not return the requested address, and nothing is claimed about it.
- ArenaAllocatorImpl.ArenaAllocator.ReleaseForeign: no exchange of a third thread comes between its load and its exchange; those interleavings are the steps of `ReturnStack`.
- HandlersAlone.FrameAlone: joins the two server models where no other handler is under way; `Delivered` covers every interleaving.
- HandlersAlone.SweepAlone: the same; `SweepExact` covers every interleaving.
- ArenaAllocatorImpl.ArenaAllocator.Release: returns the owner it found instead of pushing onto that owner's stack, because the first word need not name an allocator; `ReleaseByHeader` does the push.
- Reservation.AlignedAllocator.Reserve: aligns by the quotient where AlignedAllocator_unix.cpp:13 takes the remainder, whose own address need not lie in the reservation, and stops before the second mapping.
- The wrong-version error in the interleaved server (TunnelServer.cpp:44-47), which touches no lock and no shared state: the server object sends it, and `AdoptedPairWasIssued` admits it among the replies.
- The 15-second period of the sweep: in the model a sweep may start at any time.
- Sockets, virtual interfaces, `select` and the clock: what arrives, the time and the random identity are arguments; what leaves is recorded.
- Failed reads and receives (a negative length), which the wrappers turn into exceptions.
- The lookup in `relayData` and the write after it: in the interleaved model only the lookup and the error reply are steps; the write is in the server object.
- The mutex inside the reader/writer lock: a critical section is one step.
- Memory ordering weaker than sequential consistency, and scheduling fairness.
- Unaligned word access in the cipher, byte order other than little-endian, and wrap-around of addresses at the top of memory.
- The hash functions of MacAddress and InetAddress: the indexes are maps keyed by the six bytes that MacAddress compares.
- Logging, command line, start-up and the system-call wrappers: no hard property.
