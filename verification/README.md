# A model of the AmneziaWG kernel module's core

This project models, in Dafny, the parts of the AmneziaWG kernel module in which
the most can go wrong, and proves what they are for:

- the routing table of allowed addresses: a trie on the heap with byte-swapped
  keys, parent pointers, per-peer lists and a walk with a fixed stack, and the
  naive list with masks that the self-test compares it with (`Words`,
  `Address`, `Forest`, `TrieShape`, `AllowedIps`, `NaiveTable`, `NaiveRows`);
- ChaCha20-Poly1305: both limb representations of Poly1305 down to single
  machine words, the streaming layer, and the AEAD on contiguous and on
  scattered messages (`Poly1305Spec`, `LimbArithmetic`, `Donna32`, `Donna64`,
  `Poly1305`, `ChaCha20`, `Aead`, `AeadSg`);
- the lock-free queue, the pointer ring and the packet pipeline on top of them,
  as state machines over every interleaving (`PrevQueue`, `PtrRing`,
  `RingSteps`, `Pipeline`, `QueuedPipeline`);
- nonces and the replay window, and both together (`SendingNonces`,
  `ReplayWindow`, `NoncesDelivered`);
- sessions: the index table, the keypair slots and the Noise handshake with its
  key derivation (`IndexTable`, `Keypairs`, `NoiseKdf`, `NoisePattern`,
  `NoiseHandshake`);
- the rate limiter for handshake packets with its collector, and calls that
  race (`Ratelimiter`, `FirstPackets`);
- traffic imitation: QUIC Initial packets with their key derivation, and SIP,
  STUN, DNS and QUIC fillers (`ClientHello`, `GaloisField`, `Gcm`, `Hmac`,
  `Hkdf`, `Qinit`, `Prng`, `Sip`, `Imitate`);
- SHA-256 and BLAKE2s in pieces (`Sha256`, `Blake2s`).

Objects that the code updates in place are classes with the code's fields, and
loops are loops; each such method is tied by its contract to a function of the
old state, and what the code promises is proved about that function or state.
Protocols between threads are state machines whose steps are the accesses to
shared memory or the regions under one lock. Hash compressions, block ciphers,
curve operations, clocks, random numbers and failing allocations are parameters.

## Findings

Where a promise does not hold of the code, there is an input that breaks it and
the condition under which it holds.

- The end of a session takes two locks one after the other. A clearing of the
  peer's keypairs in between leaves a keypair without references in the index
  table (`Keypairs.Peer.ClearBetween`); `Keypairs.Peer.Run` says exactly when a
  displaced keypair is in the table.
- The rate limiter's collector reads the clock once per round and subtracts
  without a sign. A bucket used between that reading and the collector's visit
  is dropped at any level, and its source starts afresh
  (`Ratelimiter.SixAtOnce`); `Ratelimiter.CollectLevel` says exactly which
  visits change a level, and `Ratelimiter.CollectorInvisible` and
  `Ratelimiter.CollectorVisible` that these are the ones that can be noticed.
- The rate limiter looks for a bucket without a lock and does not look again
  before it inserts one. Calls of one source that find none at the same time
  each get a full bucket: n of them have 5n packets admitted at one moment
  (`FirstPackets.Reached`), and never more (`FirstPackets.RaceBound`).
- Sending nonces are unique for up to 8130 concurrent senders on a keypair and
  not beyond (`SendingNonces.NoncesUnique`, `SendingNonces.NonceReused`).
- The contiguous AEAD passes its length on as 32 bits, so that a message of
  2^32 bytes or more is sealed in its first bytes only (`Aead.LongMessage`,
  `Aead.LeftInTheClear`).
- Variable-length integers are written correctly exactly below 2^62
  (`ClientHello.VarintReads`); the code writes no larger ones.
- The DNS filler's record ends at the end of the datagram exactly up to 65563
  bytes (`Imitate.DnsReads`).

## Model

| member | source | states |
|---|---|---|
| `Address.ChooseReadsBit` | src/allowedips.c:36-39 | For keys of both widths, stored with their bytes swapped, the byte and bit that a node remembers pick bit number cidr of the address. |
| `Address.CommonBitsIsCommonPrefix` | src/allowedips.c:82-97 | For both widths, find-last-set of the xor of byte-swapped words gives the length of the longest common prefix of two addresses. |
| `Address.ReadNode` | src/allowedips.c:383-393 | The address read back has the node's bits up to its prefix length, in network order, and zeroes behind it. |
| `Words.BeReads` | src/imitate.c:26-38 | Numbers of 16, 32 and 64 bits written with the most significant byte first are read back. |
| `Forest.FindIsLongest` | src/allowedips.c:111-124 | The peer of the node found is the owner of the longest stored network that contains the address, and there is none if nothing is found. |
| `AllowedIps.FindNode` | src/allowedips.c:111-124 | The loop over heap nodes and bytes returns the node of the longest match in the table, or null if no stored network contains the address. |
| `AllowedIps.PlaceSound` | src/allowedips.c:149-167 | A node found to be exact holds this network, and dropping the network for a peer is dropping that node; otherwise the parent found is where the network belongs, and dropping it changes nothing. |
| `AllowedIps.AllowedIps.Lookup` | src/allowedips.c:127-147 | On every valid trie the answer for an address is the longest match in the table the trie stands for. |
| `AllowedIps.AllowedIps.Insert` | src/allowedips.c:181-250 | A successful insertion maps the masked network to the peer and changes nothing else in the table; a refused one changes nothing, lists included. It is refused with -EINVAL exactly for a prefix that is too long or no peer, and with -ENOMEM exactly if the network has no node and either the first allocation fails or a stored network branches off at a point without a node and the second one does. |
| `TrieShape.Shape` | src/allowedips.c:181-281 | The trie has a node for a network if and only if the network is stored or two stored ones are in different halves of it: its shape depends on the table alone. |
| `AllowedIps.AllowedIps.RemoveNet` | src/allowedips.c:283-296 | Removing a network takes it out of the table if and only if it belongs to the given peer, leaves the rest, and fails exactly for a prefix that is too long. |
| `AllowedIps.AllowedIps.RemoveNode` | src/allowedips.c:252-281 | Taking out a node, and a parent left with nothing to join, keeps the trie, both directions of its links and the peers' lists sound, and removes exactly one network. |
| `AllowedIps.AllowedIps.RemoveByPeer` | src/allowedips.c:371-381 | Afterwards the table has lost exactly the networks of the peer and the peer's list is empty. |
| `AllowedIps.AllowedIps.Free` | src/allowedips.c:304-325 | Both tries and all peers' lists are empty, and every node there was is freed exactly once. |
| `AllowedIps.RootFree` | src/allowedips.c:41-67 | The walk with a stack of 129 slots never overflows it, visits every node of the trie and visits none twice. |
| `AllowedIps.AllowedIps.RootRemovePeerLists` | src/allowedips.c:69-80 | The walk takes the nodes of the trie off the peers' lists and leaves all others on them, within the stack. |
| `AllowedIps.AllowedIps.NullRoots` | src/selftest/allowedips.c:404-407 | Both root pointers are null if and only if the table is empty, so that the last network takes the last node along. |
| `AllowedIps.AllowedIps.Run` | src/allowedips.c:298-381 | After any sequence of insertions, removals, removals by peer and frees, with any allocation failing, the trie stands for the map that results from applying them to a map, and every error is the one that the map, the operation and the allocations give. |
| `NaiveTable.LookupIsLongest` | src/selftest/allowedips.c:214-236 | On a list ordered by falling prefix length the first match is the longest one. |
| `NaiveTable.ReplayTable` | src/selftest/allowedips.c:152-252 | The list of networks stays ordered and without duplicates over every run, and stands for the same map as the operations applied to a map; NaiveRows relates it to the stored masks. |
| `NaiveRows.MaskBits` | src/selftest/allowedips.c:106-116 | A mask made from a prefix length, with its memset and its shifted word, has ones exactly in front. |
| `NaiveRows.MaskToCidrIs` | src/selftest/allowedips.c:118-122 | Counting the ones of such a mask gives the prefix length back. |
| `NaiveRows.RowStands` | src/selftest/allowedips.c:180-212 | The row made for a network, masked with itself, has the network's bits up to its length and zeroes behind. |
| `NaiveRows.MatchStands` | src/selftest/allowedips.c:137-150 | Matching an address with & against a row succeeds if and only if the row's network contains the address. |
| `NaiveRows.SameKeyStands` | src/selftest/allowedips.c:158-166 | Two rows compare equal, mask and address, if and only if they are for the same network. |
| `NaiveRows.SelfTest` | src/selftest/allowedips.c:254-423 | After any operations on an empty trie and an empty list, the trie and the list of masked rows give the same answer for every address, and once every peer that was given a network is removed both roots are null. |
| `Poly1305Spec.FoldConcat` | src/crypto/zinc/poly1305/poly1305.c:84-116 | Folding blocks in two goes is folding their concatenation. |
| `Donna32.Products` | src/crypto/zinc/poly1305/poly1305-donna32.c:76-91 | The five columns of 26-bit limbs, with the multiples of five folded in, are the product modulo 2^130 - 5, and no sum leaves 64 bits. |
| `Donna32.Carry` | src/crypto/zinc/poly1305/poly1305-donna32.c:93-111 | The carries keep the value modulo 2^130 - 5 and bring the limbs back below their bounds. |
| `Donna32.Freeze` | src/crypto/zinc/poly1305/poly1305-donna32.c:155-183 | The final selection between h and h - p, by a mask, is the remainder modulo 2^130 - 5. |
| `Donna32.State.Blocks` | src/crypto/zinc/poly1305/poly1305-donna32.c:40-122 | Over any number of blocks the limbs represent the polynomial evaluated so far, modulo 2^130 - 5. |
| `Donna32.State.Emit` | src/crypto/zinc/poly1305/poly1305-donna32.c:124-205 | The emitted bytes are the accumulator's remainder plus the nonce, modulo 2^128, little-endian. |
| `Donna64.Products` | src/crypto/zinc/poly1305/poly1305-donna64.c:73-88 | The three columns of 44-, 44- and 42-bit limbs are the product modulo 2^130 - 5, and no sum leaves 128 bits. |
| `Donna64.Freeze` | src/crypto/zinc/poly1305/poly1305-donna64.c:144-161 | The final selection is the remainder modulo 2^130 - 5, as with 32-bit limbs. |
| `Donna64.State.Blocks` | src/crypto/zinc/poly1305/poly1305-donna64.c:40-111 | Over any number of blocks the limbs represent the polynomial evaluated so far, modulo 2^130 - 5. |
| `Donna64.State.Emit` | src/crypto/zinc/poly1305/poly1305-donna64.c:113-182 | The emitted bytes are the accumulator's remainder plus the nonce, modulo 2^128, little-endian. |
| `Poly1305.Context.Update` | src/crypto/zinc/poly1305/poly1305.c:84-116 | However the input is split over calls, buffer and accumulator stand for all of it, with either representation of limbs. |
| `Poly1305.Context.Final` | src/crypto/zinc/poly1305/poly1305.c:118-134 | The tag is that of section 2.5 of RFC 8439 for the key and everything fed, with either representation. |
| `ChaCha20.XorStreamTwice` | src/crypto/zinc/chacha20/chacha20.c:100-116 | Applying the keystream from the same position twice is the identity, for any block function. |
| `ChaCha20.Cipher.Crypt` | src/crypto/zinc/chacha20/chacha20.c:100-116 | The loop writes the keystream over the input, block by block from the current counter, which wraps after 2^32 blocks; the length counts modulo 2^32. |
| `Aead.OpenSeal` | src/crypto/zinc/chacha20poly1305.c:22-60 | Opening what was sealed with the same key, nonce and additional data gives the plaintext. |
| `Aead.PadLengthLeast` | src/crypto/zinc/chacha20poly1305.c:42-49 | The zeroes behind a field bring it to a multiple of 16, and no fewer would. |
| `Aead.MacLayout` | src/crypto/zinc/chacha20poly1305.c:41-56 | What is authenticated is that of section 2.8 of RFC 8439: the additional data at 0, the ciphertext at the next multiple of 16, both lengths in 64 bits at the one after that, and zeroes in between. |
| `Aead.Encrypt` | src/crypto/zinc/chacha20poly1305.c:22-60 | What the destination holds for every length, the ones that 32 bits cannot count included; up to 2^32 - 1 bytes it is the sealed message of section 2.8 of RFC 8439. |
| `Aead.LongMessage` | src/crypto/zinc/chacha20poly1305.c:22-60 | The contiguous result is the sealed message if and only if the length fits 32 bits or the destination already holds the rest of the ciphertext. |
| `Aead.LeftInTheClear` | src/crypto/zinc/chacha20poly1305.c:22-60 | Nothing of a message of 2^32 bytes is encrypted, and unless the destination began with the ciphertext's first byte the result is not the sealed message. |
| `Aead.Decrypt` | src/crypto/zinc/chacha20poly1305.c:168-216 | It succeeds if and only if the message is authentic, then writes the plaintext, and otherwise leaves the destination alone. |
| `AeadSg.Segment` | src/crypto/zinc/chacha20poly1305.c:108-136 | One segment of a scattered message, with the keystream block that the segment before left unfinished, is enciphered as its part of the whole. |
| `AeadSg.EncryptSg` | src/crypto/zinc/chacha20poly1305.c:75-166 | For every way a message is scattered over segments, the segments end up with the contiguous sealed message, tag included, and the rest of them untouched; it refuses exactly above INT_MAX. |
| `AeadSg.DecryptSg` | src/crypto/zinc/chacha20poly1305.c:232-334 | For every way of scattering it succeeds if and only if the contiguous message is authentic, and leaves its plaintext; the lengths it refuses leave everything as it was. |
| `AeadSg.SealAndOpen` | src/crypto/zinc/chacha20poly1305.c:75-334 | Sealing in one scattering and opening in another gives the plaintext back, for both representations of limbs. |
| `PrevQueue.StepKeeps` | src/queueing.c:53-106 | Every single memory access of any producer or the consumer keeps the queue's invariant. |
| `PrevQueue.Safety` | src/queueing.c:53-106 | In every reachable interleaving packets come out in the order of the exchanges, each once, the count bounds the queue, the stub is in it at most once and no pending link starts outside it. |
| `PrevQueue.NoneLost` | src/queueing.c:66-78 | In every run the packets that enqueues were let in with are those exchanged and those a producer still holds, each as often; and a producer is through with its packets after three steps for each. |
| `PrevQueue.DequeueAlone` | src/queueing.c:80-106 | A dequeue while no link is missing returns the oldest packet within seven steps, and NULL only if there is none. |
| `Pipeline.StepKeeps` | src/queueing.h:149-209 | Every step of submitters, workers and consumers keeps the pipeline's invariant, references included. |
| `Pipeline.Delivery` | src/receive.c:467-580 | With plain queues: in every run each peer's packets leave in the order submitted, each once, those transformed and accepted are delivered in that order, and each packet's references are given back exactly once. |
| `Pipeline.Authentic` | src/receive.c:526-540 | Over the actions of every run: a packet is delivered if and only if the worker that held it succeeded with it and the consumer at its front then let it through; of the packets retired, those are transformed with which a worker succeeded, and those are dead with which one failed or which found the ring full. |
| `Pipeline.NoneStuck` | src/send.c:316-404 | When submitters and workers are through, every waiting packet has its state, so that no consumer waits for ever. |
| `QueuedPipeline.Refines` | src/queueing.h:149-184 | With the peers' queues and the device's ring as memory, accessed step by step and interleaved with everything else, and consumers and workers going on with what they read there, every run is a run of the pipeline with plain queues. |
| `QueuedPipeline.Delivery` | src/queueing.h:149-209 | In every run what the dequeues of a peer's queue returned from memory is what its consumer has retired, and the packet in its hands, in the order of the exchanges and each once; what was accepted is delivered in that order; workers get what was written into the ring, in order, and no two the same packet; references are given back exactly once. |
| `QueuedPipeline.Authentic` | src/receive.c:467-540 | The same with the queues and the ring as memory, for every run of single accesses. |
| `PtrRing.Ring.Produce` | src/compat/ptr_ring/include/linux/ptr_ring.h:104-117 | The entry goes behind the contents; it is refused if and only if contents and slots not yet cleared fill the ring, which takes more than size - batch entries. |
| `PtrRing.SetBatch` | src/compat/ptr_ring/include/linux/ptr_ring.h:474-485 | The batch is 16 entries, and one entry for rings of fewer than 32. |
| `PtrRing.Ring.Consume` | src/compat/ptr_ring/include/linux/ptr_ring.h:247-304 | The oldest entry is returned and leaves, whether or not a batch of slots is cleared; NULL exactly if the ring is empty. |
| `PtrRing.Ring.SwapQueue` | src/compat/ptr_ring/include/linux/ptr_ring.h:558-582 | Resizing keeps the longest prefix that fits, in order, and destroys exactly the rest. |
| `RingSteps.StepKeeps` | src/compat/ptr_ring/include/linux/ptr_ring.h:104-304 | Every single access to a slot, by a producer and a consumer that interleave, keeps the ring's invariant. |
| `RingSteps.Fifo` | src/compat/ptr_ring/include/linux/ptr_ring.h:104-304 | In every interleaving what was consumed is a prefix of what was produced, a read at the head gives the next entry and NULL only if there is none, never a stale slot; a producer is refused only above size - batch entries, and while the consumer is ready if and only if the entries and the consumed slots behind the last multiple of the batch fill the ring. |
| `RingSteps.ProduceAlone` | src/compat/ptr_ring/include/linux/ptr_ring.h:104-117 | From every reachable state a produce that is not refused puts its entry behind the others. |
| `RingSteps.ConsumeAlone` | src/compat/ptr_ring/include/linux/ptr_ring.h:247-304 | From every reachable state a consume returns the oldest entry within batch + 3 steps, if there is one. |
| `ReplayWindow.ReplayCounter.Validate` | src/receive.c:322-358 | A counter is accepted if and only if it is below the limit, not behind the window that ends at the highest one accepted, and not accepted before. |
| `ReplayWindow.DeliverAll` | src/receive.c:322-358 | The same over any sequence of arrivals, repeated and out of order, so that no counter is accepted twice. |
| `SendingNonces.NoncesUnique` | src/send.c:428-452 | With at most 8130 concurrent senders on a keypair, over every interleaving of their increments, no nonce is used twice and none reaches the limit. |
| `SendingNonces.WholeCalls` | src/send.c:439-463 | In every run packets are handed on a call at a time, all those that it began with, each with a nonce of its own, and none of a call that met the limit. |
| `SendingNonces.NonceReused` | src/send.c:428-452 | With any larger number there is an interleaving in which the counter goes around and a nonce is used twice. |
| `NoncesDelivered.Deliver` | src/receive.c:322-358 | Packets of any such run of senders, delivered in any order and any number of times, are accepted exactly once each unless behind the window; none is refused because of another packet. |
| `IndexTable.IndexHashtable.TryInsert` | src/peerlookup.c:144-159 | Under the lock an entry gets into the table if and only if its index is not in use, and indices stay distinct and in their buckets. |
| `IndexTable.BucketIs` | src/peerlookup.c:73-81 | The bucket of an index is found by masking with the table size less one. |
| `IndexTable.IndexHashtable.Replace` | src/peerlookup.c:166-190 | The new entry takes over index and place of the old one, which leaves, if and only if the old one was hashed. |
| `IndexTable.IndexHashtable.Lookup` | src/peerlookup.c:202-226 | An entry is found if and only if it is hashed with this index, has an allowed type and its peer can still be referred to. |
| `IndexTable.IndexHashtable.Insert` | src/peerlookup.c:119-164 | The entry ends up hashed under one of the numbers drawn, alone, and nobody else's index changes. |
| `IndexTable.Interleave` | src/peerlookup.c:119-198 | However the unlocked searches and locked regions of any number of inserters interleave with replacements and removals, hashed entries have distinct indices and are in the right buckets. |
| `Keypairs.Peer.AddNew` | src/noise.c:201-254 | The slots rotate as an initiator or a responder does it, each keypair that loses its slot loses that reference once and leaves the table, and nobody else's entry does. |
| `Keypairs.Peer.FinishNew` | src/noise.c:857-871 | The keypair takes the handshake's place and index in the table, whether or not it still has a slot. |
| `Keypairs.Peer.Received` | src/noise.c:256-294 | Only data under the next keypair rotates the slots, and makes that one current. |
| `Keypairs.Peer.ClearAll` | src/noise.c:154-180 | All slots are empty, and of this peer's keypairs only those that entered the table late are still in it. |
| `Keypairs.Peer.GiveBack` | src/noise.c:134-143 | A packet's last reference takes the keypair out of the table. |
| `Keypairs.Peer.Step` | src/noise.c:134-294 | Each operation has exactly the event that the history so far and the table's other entries determine, apart from whether a drawn index is free, and the state is what the history comes to. |
| `Keypairs.Peer.Run` | src/noise.c:134-294 | Over every run one event per operation explains slots, references and roles; slots hold distinct keypairs, each in the table exactly once its session is complete; a displaced keypair has lost its reference exactly once, and is in the table if and only if the slots were cleared between the two steps of its session and no packet has given back its last reference since, so never in a run without a clearing; a responder's keypair is current only after data under it. |
| `Keypairs.Peer.ClearBetween` | src/noise.c:857-871 | A run in which the slots are cleared between the two steps ends with a keypair in the table to which there is no reference. |
| `NoiseKdf.Kdf` | src/noise.c:347-394 | The buffer that each hmac reads and overwrites yields the first blocks of HKDF (RFC 5869) over BLAKE2s, with the chaining key as salt, as far as they are asked for. |
| `NoiseKdf.DerivedIsExpanded` | src/noise.c:343-394 | The three keys together are what HKDF-Expand gives for 96 bytes and no info. |
| `NoiseHandshake.FirstSays` | src/noise.c:519-576 | Both sealed fields of an initiation and the writer's hash and chaining key are folds over what Noise_IKpsk2 mixes in: the protocol name, the prologue, the responder's key, the ephemeral key, es and ss, in this order. |
| `NoiseHandshake.SecondSays` | src/noise.c:683-752 | The same for the response, on top of the initiation: the ephemeral key, ee, se and the preshared key, whose second block enters the hash and whose third block seals. |
| `NoiseHandshake.GreaterIs` | src/noise.c:646-659 | The timestamps are compared as numbers, most significant byte first. |
| `NoiseHandshake.FirstAgrees` | src/noise.c:519-681 | Whoever holds the responder's key reads from an initiation the initiator's static key and timestamp, and both ends have the same hash and chaining key. |
| `NoiseHandshake.SecondAgrees` | src/noise.c:683-830 | The same for the response, with the preshared key. |
| `NoiseHandshake.HonestRun` | src/noise.c:519-877 | An honest run through all five operations, given only that Diffie-Hellman commutes, ends with crossed sending and receiving keys and crossed indices; the keys are the two blocks of HKDF over the chain of ephemeral keys, es, ss, ee, se and the preshared key, and both messages are what that chain and the transcript give. |
| `Ratelimiter.CollectLevel` | src/ratelimiter.c:67-94 | A visit of the collector changes no source's level if and only if every bucket it visits with a clock value older than the bucket is full, and it never lowers one. |
| `Ratelimiter.RateBound` | src/ratelimiter.c:46-168 | Over any span in which every bucket visited with an older clock value is full, a source has at most 5 packets and one per PACKET_COST nanoseconds admitted. |
| `Ratelimiter.SixAtOnce` | src/ratelimiter.c:67-94 | Without that condition the bound fails: for every source and any two clock values six packets are admitted at one moment. |
| `Ratelimiter.CollectorInvisible` | src/ratelimiter.c:67-168 | Under the same condition, while the table is not full, the decisions are those of a limiter that keeps every bucket for ever. |
| `Ratelimiter.CollectorVisible` | src/ratelimiter.c:67-168 | After any other visit there are packets about which the two limiters decide differently. |
| `Ratelimiter.SteadySource` | src/ratelimiter.c:96-168 | A source whose packets are PACKET_COST apart has all of them admitted, whatever the collector does. |
| `Ratelimiter.Limiter.Allow` | src/ratelimiter.c:96-168 | The hash table behaves as the map of buckets: decision and new bucket, and refusal of a new source exactly if the entries are at their maximum or memory is. |
| `Ratelimiter.Limiter.CollectChain` | src/ratelimiter.c:67-94 | A visit to a chain takes out exactly its idle entries, the subtraction wrapping around in 64 bits. |
| `Ratelimiter.Run` | src/ratelimiter.c:53-168 | For any run of packets, visits and delayed frees the table stays sound, counts its entries, and the bound holds under the condition above. |
| `FirstPackets.RaceBound` | src/ratelimiter.c:120-163 | In every interleaving of calls for one source with the collector, the packets admitted, counted over the actions, are at most those of the bound above, which grows by a burst for each bucket inserted in front of another and each one collected with an older clock value, and by one packet for each bucket linked later than made. |
| `FirstPackets.VisitTakes` | src/ratelimiter.c:67-94 | A visit takes out exactly the idle ones of a source's buckets, those behind the first included. |
| `FirstPackets.Reached` | src/ratelimiter.c:120-163 | For every n an interleaving of n calls that find no bucket admits 5n packets at one moment, which is that bound. |
| `FirstPackets.NoRaces` | src/ratelimiter.c:120-163 | If no call looks while another one is under way, no bucket is inserted in front of another. |
| `ClientHello.VarintReads` | src/qinit.c:256-279 | A number of 64 bits is read back (section 16 of RFC 9000) if and only if it is below 2^62. |
| `ClientHello.HelloReads` | src/qinit.c:326-470 | A reader of the message finds the random bytes, all seven extensions in order with their contents, and in them the server name. |
| `ClientHello.BuildHello` | src/qinit.c:326-470 | For every C string the writes stay within the fixed buffers; names of 1 to 255 bytes give the message, and all others -1 with nothing drawn or written. |
| `Gcm.OpenSeal` | src/qinit.c:92-158 | Opening what was sealed gives the text, for any block function. |
| `Gcm.TagIs` | src/qinit.c:112-158 | The tag is that of section 7.1 of NIST SP 800-38D: one hash over both texts, each filled up to whole blocks, and their lengths in bits, under the first counter block. |
| `Gcm.SealInPlace` | src/qinit.c:61-158 | Sealing in place writes the counter-mode text and the tag over header and text, of sections 6 and 7 of NIST SP 800-38D, with the field product below, and nothing else. |
| `GaloisField.TimesIsProduct` | src/qinit.c:13-48 | What the shifts and exclusive ors compute is the product of the two blocks as polynomials, up to a multiple of x^128 + x^7 + x^2 + x + 1. |
| `GaloisField.ProductUnique` | src/qinit.c:13-48 | There is no other block of which that is true. |
| `GaloisField.Multiply` | src/qinit.c:16-48 | The loops over bytes and bits, the carries and the reduction by 0xe1 in place compute that product. |
| `Hmac.OneBlock` | src/qinit.c:222-251 | For up to 32 bytes one HMAC is all of HKDF-Expand (section 2.3 of RFC 5869). |
| `Hkdf.Authenticate` | src/qinit.c:160-187 | The buffers and four hash calls compute HMAC-SHA256 for keys of every length. |
| `Hkdf.KeysAre` | src/qinit.c:189-251 | The labels hashed for the secret, key, iv and header key are the octets that appendix A.1 of RFC 9001 lists. |
| `Hkdf.DeriveInitialKeys` | src/qinit.c:195-251 | The keys are those of section 5.2 of RFC 9001 for the connection id, over the SHA-256 modelled here. |
| `Qinit.NonceBytes` | src/qinit.c:573-578 | Each of the 12 bytes of the nonce is that of the iv with that of the packet number, zeroes in front of it, over it (section 5.3 of RFC 9001), which is how the observer forms it. |
| `Qinit.NoncesDiffer` | src/qinit.c:573-578 | Packet numbers of one length with the same nonce are the same. |
| `Qinit.ObserverReads` | src/qinit.c:495-601 | An observer who derives the keys from the connection id in the datagram, removes header protection, forms the nonce from the packet number, opens the packet and parses the CRYPTO frame reads the name that was put in. |
| `Qinit.Build` | src/qinit.c:495-601 | For names of 1 to 255 bytes exactly 1200 bytes are filled, from 84 random bytes in the order drawn, and an observer reads the name; for others -22 and nothing written. |
| `Sip.SearchSucceeds` | src/imitate.c:358-376 | For every total some number of digits fits behind one or two spaces. |
| `Sip.ParseHexOfHex` | src/imitate.c:338-352 | Numbers in hexadecimal are read back, the last n digits of them. |
| `Sip.ContentLength` | src/imitate.c:337-388 | Where the lines and 21 bytes plus the digits of the total fit, the length written is the number of bytes behind the blank line. |
| `Sip.SipReads` | src/imitate.c:280-388 | In that case a reader of lines finds a SIP/2.0 status line, then Via, From, To, Call-ID and CSeq, and Content-Length with the number of bytes behind the blank line. |
| `Sip.RoomFrom` | src/imitate.c:280-388 | From 460 bytes of padding on, for totals of up to ten digits, all lines fit. |
| `Sip.TextLength` | src/imitate.c:280-388 | The text is as long as the padding, for all lengths and seeds. |
| `Sip.WriteSip` | src/imitate.c:280-388 | Exactly the padding is overwritten, with that text. |
| `Imitate.QuicHeader` | src/imitate.c:179-196 | The first byte has the fixed bit, a short header and no reserved bits. |
| `Imitate.StunReads` | src/imitate.c:200-254 | A reader of types and values finds a success response with the magic cookie and three drawn words as transaction, attributes that fill the header's length, a multiple of four, within the padding, and zeroes behind them; from 32 bytes on the first is XOR-MAPPED-ADDRESS, of family 1, whose port and address, unmasked with the cookie of the header, are those drawn (sections 6 and 15.2 of RFC 5389). |
| `Imitate.TextPrints` | src/imitate.c:235-248 | The characters of SOFTWARE are printable. |
| `Imitate.DnsReads` | src/imitate.c:89-175 | A reader finds a response without error to the two bytes of the payload, one question for a root name and one record, NULL or, from 32 bytes on, OPT for 1232 bytes, which ends at the end of the datagram if and only if that has at most 65563 bytes. |
| `Imitate.ShortDnsReads` | src/imitate.c:121-165 | With room for less than the record the counts say so: one question from 17 bytes on, and none below, with zeroes behind. |
| `Imitate.FillPrefix` | src/imitate.c:390-411 | The payload is untouched, every padding byte is written, and what is written depends only on the lengths, the protocol and the first 64 payload bytes. |
| `Imitate.FillWhole` | src/imitate.c:413-429 | The whole buffer is the protocol's text for its length and the seed. |
| `Sha256.ZeroBytesLeast` | src/crypto/sha256.c:188-216 | The padding has the least number of zero bytes that section 5.1.1 of FIPS 180-4 allows. |
| `Sha256.InitialWords` | src/crypto/sha256.c:36-42 | The initial words are the first 32 bits behind the point of the square roots of the first eight primes. |
| `Sha256.Context.Final` | src/crypto/sha256.c:188-216 | The digest is the compression folded over the padded message, also when the length needs a block of its own. |
| `Sha256.HashedInPieces` | src/crypto/sha256.c:157-225 | However a message is split over updates, the digest is that of the whole. |
| `Blake2s.Increment` | src/crypto/zinc/blake2s/blake2s.c:45-50 | Two words with a carry count bytes modulo 2^64. |
| `Blake2s.InitialWords` | src/crypto/zinc/blake2s/blake2s.c:22-25 | The initial words are those of SHA-256 (section 2.6 of RFC 7693). |
| `Blake2s.Start` | src/crypto/zinc/blake2s/blake2s.c:52-84 | The first word has the parameter block over it: digest length, key length, fanout and depth (section 2.5 of RFC 7693). |
| `Blake2s.State.Update` | src/crypto/zinc/blake2s/blake2s.c:170-192 | Buffer, counter and hash stand for everything fed, with a full buffer kept back since it may be the last block. |
| `Blake2s.HashedInPieces` | src/crypto/zinc/blake2s/blake2s.c:63-204 | However a message is split, with or without a key, the digest is that of section 3.3 of RFC 7693. |
| `Blake2s.Authenticate` | src/crypto/zinc/blake2s/blake2s.c:206-240 | The HMAC, whose inner pad is turned into the outer one in place, is that of RFC 2104. |

## Left out

- Sockets, routing, netlink, device registration, timers, cookies, magic headers and junk packets are not part of this model.
- The compressions of SHA-256 and BLAKE2s, the ChaCha20 and AES block functions and Curve25519 are parameters; their arithmetic is not modelled.
- hchacha20, the XChaCha20 variants and the SIMD code are not part of this model.
- Memory ordering: interleavings are of sequentially consistent steps; read-copy-update grace periods appear only as delayed frees.
- Clearing secrets from memory has no effect that the model could show.
- Pipeline.Delivery: the queues and the ring are sequences there; QueuedPipeline.Refines and QueuedPipeline.Delivery are about their memory.
- QueuedPipeline.Delivery: the test of a full ring and the DEAD state that follows are one step, and so are the dequeue's last access and the assignment of peeked.
- RingSteps.Fifo: one producer and one consumer at a time, since each side holds its lock; resizing, which takes both locks, is PtrRing.Ring.SwapQueue.
- PrevQueue.Safety: says nothing about how often a dequeue finds nothing while a link is missing; DequeueAlone covers the case that none is.
- Keypairs.Peer.Run: Received is one step, its first look without the lock and the second under it being the same test.
- IndexTable.Interleave: each search is one step, not one per list node.
- Ratelimiter.Limiter.Allow: one step; calls of one source that interleave are in FirstPackets. The hash is a parameter, and the source is given as protocol family, namespace and address.
- FirstPackets.RaceBound: a bucket that is collected between being found and being locked is not modelled.
- NoiseHandshake.HonestRun: no lost or forged messages and no failing allocation or index insertion; the rejections are in the contracts of the single operations.
- Hkdf.DeriveInitialKeys: connection ids of up to 2^32 - 1 bytes, as the length parameter has it.
- NaiveTable.ReplayTable: the self-test removes networks only by peer, so that single removals are not replayed on the list.
