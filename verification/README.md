# BlockSettleDB, modelled and proved in Dafny

A Dafny 4.11 model of the parts of BlockSettleDB (the C++ under `cppForSwig/`) whose correctness rests on the order
of many small steps, with proofs of what they promise over every run and every input.

**The encrypted, authenticated channel** (`Symbolic`, `Session`, `Connection`, `Handshake`, `PeerSafety`,
`HonestRun`, `KeyUse`, `PacketSafety`). BIP 151 sessions and the BIP 150 state machine are classes with the
source's fields; the two handshake drivers are methods on them, each proved equal to a step function on values.
Cryptography is symbolic: hashes, key derivation and signatures are free constructors, and ECDH is an unordered
pair of key names. Over these steps: what each side has seen when it reaches SUCCESS, for every sequence of
incoming messages; and for two honest sides over FIFO links, for every interleaving of sends, rekeys and
deliveries, that the handshake completes, that every packet in flight is under the keys and number its receiver
will hold, and that nothing is lost or reordered. Mixed one-way and two-way modes are settled exactly, and so is
nonce reuse: the rekey check that the sockets make before each message keeps it from ever happening.

**The message sequencer** (`PartialMessage`, `Sequencer`, `SequencerProof`, `SequencerReplies`). A pool of parser
threads is a transition system over its atomic steps (pop, try-lock, process, post a flag, release, reply), with
reordering, duplicates, malformed packets and spurious lock failures. At most one thread is inside a client;
messages are consumed with ids 1, 2, 3, ...; every message that has a reply gets exactly one, under its own id; a
ready message never stalls; nothing is lost. From the client's payloads, cut into packets, to what is executed: the
longest prefix received in full, byte for byte.

**Wallet records and integers** (`Bytes`, `BinaryIO`, `KeyOrder`, `Records`, `RecordsProof`, `RecordsAccepted`,
`BitPacking`). Every stored record reads back, and what is torn, repeated or of another version is refused;
big-endian integers sort as numbers; packed bits unpack.

**Wallet accounts** (`AssetChain`, `AssetChainProof`, `AssetChainExact`, `AccountStore`, `AccountStoreProof`,
`AccountStoreExact`, `AddressIndex`, `AddressIndexProof`, `UsedAddresses`, `UsedAddressesProof`, and the classes
`AssetAccount` and `AddressAccount`). The derivation chain with its 32-bit index arithmetic, private-key upgrades,
the last-used cursor, the key/value mirror and its loading, the incremental address index, and the addresses in
use. Derivation, encryption and hashing are functions that the model takes as parameters; the store is a map from
byte strings to byte strings, walked in byte order.

**Peer-to-peer framing** (`P2PPayload`, `P2PFraming`, `P2PStream`, `P2PScan`, `P2PReads`, `P2PDamage`, `P2PCuts`).
Frames are found in any buffer, also among damaged ones, parsed, and stitched together over reads. What every read
yields is given exactly, with the frames that fall behind as part of the state; from it, for every way to cut a
stream into reads, exactly when all frames come out and exactly when each comes out as soon as it is read whole.

A class's `View()` is its value; a method that changes it ensures that the new value, with any result, is a
specification function of the old one. A loop of the source is a loop here. `None` stands for an exception or an
error return. A lemma about runs starts from any state that meets its invariant, or from the source's initial
state, and covers every list of actions; an action that is not enabled leaves the state as it is. Some lemmas
`hide` definitions that they do not need, so that each proof obligation stays small.

## Model

| member | source | states |
|---|---|---|
| Bip151.BIP151Session.constructor | cppForSwig/BIP150_151.cpp:75-99 | a new session has a private key, no cipher, no id, no keys, and neither encinit nor encack seen |
| Bip151.BIP151Session.SetCipherType | cppForSwig/BIP150_151.cpp:500-532 | only ChaCha20Poly1305 is accepted; any other code changes nothing |
| Bip151.BIP151Session.GenSymKeys | cppForSwig/BIP150_151.cpp:107-163 | derivation succeeds exactly with a cipher set, a valid peer point and a private key not yet erased, and sets keys, contexts and id from the shared secret |
| Bip151.BIP151Session.SymKeySetup | cppForSwig/BIP150_151.cpp:192-225 | keys and id are set from the peer's key, and an outgoing session then forgets its private key |
| Bip151.BIP151Session.SessionRekey | cppForSwig/BIP150_151.cpp:280-332 | a BIP 151 or crossed BIP 150 rekey replaces both keys and the byte count, and neither id nor sequence number |
| Bip151.BIP151Session.EncPayload | cppForSwig/BIP150_151.cpp:364-388 | a packet is sealed under the loaded keys and current number; number and byte count move on, 32 bits wide |
| Bip151.BIP151Session.DecPayload | cppForSwig/BIP150_151.cpp:405-440 | 0 exactly when the packet has room and keys and number are the session's; a packet without room, or whose length field reads as more than the packet, is refused before anything is counted, with -1 or that length as a signed integer; every other failure counts |
| Bip151.OwnLengthFits | cppForSwig/BIP150_151.cpp:417-420 | the length of a packet itself is the longest that is not refused as too long |
| Bip151.BIP151Session.GetEncinitData | cppForSwig/BIP150_151.cpp:556-593 | the session's public key with the cipher, which is set; fails once the private key is erased |
| Bip151.BIP151Session.GetEncackData | cppForSwig/BIP150_151.cpp:601-640 | only after encinit; answers with the public key and erases the private one |
| Bip151.BIP151Session.RekeyNeeded | cppForSwig/BIP150_151.cpp:172-184 | the check that `KeyUse.WriteMessage` makes before each message: whether the message would take the bytes on the current keys to the limit; what it is worth is `KeyUse.SendsNeverReuseANonce` |
| Bip150.BIP151Connection.ProcessEncinitMsg | cppForSwig/BIP150_151.cpp:692-738 | an encinit of the right size with a known cipher keys the in-session, once |
| Bip150.BIP151Connection.ProcessEncackMsg | cppForSwig/BIP150_151.cpp:747-801 | an encack keys the out-session, or, all zero on a complete in-session, rekeys it |
| Bip150.BIP151Connection.GetEncinitData | cppForSwig/BIP150_151.cpp:867-872 | an encinit is offered for the out-session |
| Bip150.BIP151Connection.GetEncackData | cppForSwig/BIP150_151.cpp:880-887 | an encack is offered for the in-session |
| Bip150.BIP150StateMachine.ErrorSM | cppForSwig/BIP150_151.cpp:1893-1901 | an error code resets the machine |
| Bip150.BIP150StateMachine.ResetSM | cppForSwig/BIP150_151.cpp:1878-1885 | the machine goes back to inactive with no chosen peer key |
| Bip150.BIP150StateMachine.BuildHashData | cppForSwig/BIP150_151.cpp:1823-1870 | the hash is over session id of the direction, tag of the state, and key; other states have no tag |
| Bip150.BIP150StateMachine.GetAuthchallengeData | cppForSwig/BIP150_151.cpp:1307-1391 | a challenge only from the right state, with the key registered under the name, or the chosen one |
| Bip150.BIP150StateMachine.GetAuthreplyData | cppForSwig/BIP150_151.cpp:1402-1492 | a reply only from the right state: a signature over the out-session id, or in one-way mode the bare key |
| Bip150.BIP150StateMachine.GetAuthproposeData | cppForSwig/BIP150_151.cpp:1500-1552 | a proposal only after the reply, of the own key, or of the stand-in in one-way mode |
| Bip150.BIP150StateMachine.ProcessAuthchallengeMsg | cppForSwig/BIP150_151.cpp:1562-1613 | a challenge moves the machine on only from the right state and with the right hash |
| Bip150.BIP150StateMachine.ProcessAuthreplyMsg | cppForSwig/BIP150_151.cpp:1623-1703 | a reply is checked against the chosen key over the in-session id, or in one-way mode taken as the key |
| Bip150.BIP150StateMachine.FindProposed | cppForSwig/BIP150_151.cpp:1744-1764 | the search finds an authorised key with this hash if there is one |
| Bip150.BIP150StateMachine.ProcessAuthproposeMsg | cppForSwig/BIP150_151.cpp:1711-1783 | a proposal is accepted exactly for the stand-in (one-way) or an authorised key, which is then chosen |
| Bip150.BIP150StateMachine.Rekey | cppForSwig/BIP150_151.cpp:1908-1927 | both sessions are rekeyed across, each with the other's keys from before |
| Handshake.Write | cppForSwig/BIP150_151.cpp:825-839 | what is written is in clear, or sealed by the out-session, which moves on |
| Handshake.ServerSideHandshake | cppForSwig/BIP15x_Handshake.cpp:161-322 | the server's driver, message by message: state, status and packets out, in order |
| Handshake.ClientSideHandshake | cppForSwig/BIP15x_Handshake.cpp:325-464 | the client's driver, message by message: state, status and packets out, in order |
| PeerSafety.ServerDerivesOnce | cppForSwig/BIP150_151.cpp:192-225 | for every sequence of messages to a server: keys and ids derived at most once, encack seen only after encinit, private key erased in a complete session, all later keys hashed from the first |
| PeerSafety.ClientDerivesOnce | cppForSwig/BIP150_151.cpp:601-640 | the same for every sequence of messages to a client |
| PeerSafety.ServerSuccessIsEarned | cppForSwig/BIP15x_Handshake.cpp:241-322 | a server at SUCCESS has both sessions complete and was given challenge, proposal, reply in this order with no other authentication message since; in two-way mode the chosen key is authorised and its signature over the in-session id was verified |
| PeerSafety.ClientSuccessIsEarned | cppForSwig/BIP15x_Handshake.cpp:364-456 | a client at SUCCESS holds the key registered for the server's name and has verified that key's signature over its in-session id, in both modes |
| PeerSafety.CompletedIsSuccess | cppForSwig/BIP15x_Handshake.cpp:161-464 | for every state and message either driver reports completion exactly on the step that brings its machine to SUCCESS, and a failed authentication message always leaves the machine reset |
| PeerSafety.ServerReports | cppForSwig/BIP15x_Handshake.cpp:161-322 | the status of every server step, in terms of the message and the state found: which message is taken, and which of its own lacks is reported otherwise |
| PeerSafety.ClientReports | cppForSwig/BIP15x_Handshake.cpp:325-464 | the same for the client |
| PeerSafety.ServerSends | cppForSwig/BIP15x_Handshake.cpp:161-322 | what the server sends: something exactly if the step succeeds, and what, under which keys and number |
| PeerSafety.ClientSends | cppForSwig/BIP15x_Handshake.cpp:325-464 | the same for the client, which also answers a bad challenge, with an empty reply |
| PeerSafety.StepCounts | cppForSwig/BIP150_151.cpp:825-839 | a step moves the out-session's number by the packets it sealed, and the in-session's not at all |
| PeerSafety.ResultCodes | cppForSwig/BIP150_151.cpp:1307-1783 | the codes that the operations return, and the messages and states they stand for |
| PacketSafety.ReceiveTakes | cppForSwig/Server.cpp:788-846 | what one packet from anyone does: data is taken exactly if it opens at an authenticated side; what does not open, and data before that, closes the connection |
| PacketSafety.TakesAuthenticOnly | cppForSwig/Server.cpp:788-846 | for every sequence of packets, in clear or under any keys, a side takes exactly the data that opened at an authenticated side, in order |
| PacketSafety.OpensOnce | cppForSwig/BIP150_151.cpp:405-440 | a packet that opens does not open again once counted, nor under the next keys |
| PacketSafety.ReplayCloses | cppForSwig/Server.cpp:788-846 | data that comes a second time is not taken again and closes the connection |
| PacketSafety.SentOpens | cppForSwig/WebSocketClient.cpp:101-136 | what is written for a message, the rekey included, opens at the other end packet by packet and leaves it at the writer's keys and number; a rekey is sent exactly if due by size or time |
| HonestRun.CrossedRekeyAgrees | cppForSwig/BIP150_151.cpp:1908-1927 | after the crossed rekey each side's out-keys, id and number are the other's in-keys, id and number |
| HonestRun.HonestHandshakeCompletes | cppForSwig/BIP15x_Handshake.cpp:161-464 | nine deliveries bring both sides to SUCCESS, with the expected peers, empty links, the keys that hash old keys, opposite keys, id and both public keys, and out-sessions that meet the premise of `KeyUse.SendsNeverReuseANonce` |
| HonestRun.HonestStepsReport | cppForSwig/BIP15x_Handshake.cpp:161-464 | all nine steps of an honest handshake succeed, and the last one of either side, and no other, reports completion |
| HonestRun.HonestRunsAgree | cppForSwig/BIP15x_Handshake.cpp:161-464 | in every run of a matched setup no side closes, what was received is a prefix of what was sent, and empty links mean both sides authenticated and in agreement |
| HonestRun.InFlightPacketsWillOpen | cppForSwig/BIP150_151.cpp:364-440 | once both are authenticated, for every interleaving, each packet in flight is under exactly the keys and number its receiver will hold on reaching it |
| HonestRun.UnacceptedProposalNeverSucceeds | cppForSwig/BIP150_151.cpp:1725-1770 | if the server does not take the proposed key, no run authenticates either side |
| HonestRun.MixedModesSucceedOnlyByStandIn | cppForSwig/BIP150_151.cpp:1529-1546 | with mixed modes a client can reach SUCCESS exactly when the server is the two-way side and has the 0xFF stand-in among its authorised keys |
| HonestRun.MixedModesNeverCompleteServer | cppForSwig/BIP150_151.cpp:1725-1770 | with mixed modes no run authenticates the server's side, whatever keys it holds |
| KeyUse.UsesCount | cppForSwig/BIP150_151.cpp:280-332 | over any list of seals and rekeys the number counts the seals, the key's depth the rekeys; a rekey resets the byte count and never the number |
| KeyUse.NonceReuse | cppForSwig/BIP150_151.cpp:364-388 | two packets of a session share keys and number exactly when no rekey came between and their distance is a multiple of 2^32 |
| KeyUse.WriteMessage | cppForSwig/WebSocketClient.cpp:101-136 | one message written: a rekey packet and a rekey if the check or the clock asks for them, then the message's packets, each under the keys and number of its turn |
| KeyUse.MessageSizes | cppForSwig/WebSocketMessage.cpp:141-243 | a message of any size is 1 to 65535 packets, whose bodies are no more than its payload and less than 2^27 bytes |
| KeyUse.PacketsFill | cppForSwig/WebSocketMessage.cpp:141-243 | no packet is longer than 1500 bytes, and every one but the last of a message within the limit is exactly that |
| KeyUse.SendMeters | cppForSwig/Server.cpp:553-613 | from a count below the limit and one message's headers, sending a message wraps nothing around and ends below that bound again |
| KeyUse.SendsNeverReuseANonce | cppForSwig/Server.cpp:553-613 | over every list of messages and clock readings the 32-bit byte count is exact and stays below the limit and one message's headers, and no two packets are sealed under the same keys with the same number |
| PartialMessage.ParseCollects | cppForSwig/WebSocketMessage.cpp:342-477 | parsing one more packet of a message adds exactly its index, in any order; only a repeated single packet is refused |
| PartialMessage.ParseEffect | cppForSwig/WebSocketMessage.cpp:342-477 | what any packet does to any message: when it is refused, and that its body is filed under its index unless there is one |
| PartialMessage.CollectedReady | cppForSwig/WebSocketMessage.cpp:519-522 | a message is ready exactly when all of its packets were parsed |
| PartialMessage.ReadyReadsBack | cppForSwig/WebSocketMessage.cpp:246-289 | a ready message reads back as its parts in order, whatever the order and repetition of packets |
| PartialMessage.Serialize | cppForSwig/WebSocketMessage.cpp:86-243 | the packets of a payload: one single packet, or a header and fragments at the computed offsets |
| PartialMessage.PacketsArePlanned | cppForSwig/WebSocketMessage.cpp:86-243 | within the limit the packets are a header and fragments numbered without a gap |
| PartialMessage.CarriedWholeIffWithinLimit | cppForSwig/WebSocketMessage.cpp:160-186 | the fragments join to the payload exactly when it is no longer than 65535 fragments hold, the count being 16 bits wide |
| PartialMessage.CountInClosedForm | cppForSwig/WebSocketMessage.cpp:160-186 | the count of packets in closed form for every size, cut to 16 bits |
| Sequencer.BDV_Server_Object.constructor | cppForSwig/BDM_Server.h:171-190 | a new client has no pending messages and last id 0 |
| Sequencer.BDV_Server_Object.ConsumeNext | cppForSwig/BDM_Server.cpp:2334-2390 | the message after the last one is taken out if it is ready, else nothing changes |
| Sequencer.BDV_Server_Object.ProcessPacket | cppForSwig/BDM_Server.cpp:2270-2390 | a packet is added to its message; the next message is consumed when this packet, or a flag, finds it ready |
| SequencerProof.AtMostOneInside | cppForSwig/BDM_Server.cpp:2801-2889 | in every run at most one thread is between taking and giving back a client's lock |
| SequencerProof.ConsumedInOrderOnce | cppForSwig/BDM_Server.cpp:2334-2390 | in every run a client's messages are consumed with ids exactly 1, 2, 3, ...; every reply carries the id and answers the content of a consumed message, and no message has two |
| SequencerReplies.EveryReplyIsWritten | cppForSwig/BDM_Server.cpp:2801-2889 | in every run the answers written or in a thread's hand are exactly those owed: one for each step that consumed a message with a reply, with the id and content logged for it; with all threads idle the replies written are exactly these, each once |
| SequencerReplies.ServedInTurn | cppForSwig/BDM_Server.cpp:2801-2889 | one thread alone can serve any number of messages: all are consumed and answered in order, and all is at rest again |
| SequencerProof.NeverStalls | cppForSwig/BDM_Server.cpp:2855-2878 | whenever the next message is ready and no thread is inside, a packet for the client is queued or just popped |
| SequencerProof.DrainedIsLongestPrefix | cppForSwig/BDM_Server.cpp:2270-2390 | with packets of planned messages, each consumed message reads as planned, and once the client is drained the last id is the end of the longest prefix received in full |
| SequencerProof.ConsumedAtOnce | cppForSwig/BDM_Server.cpp:2270-2390 | exactly when processing a packet consumes a message: a flag when the next one is complete, a packet when it completes the next one |
| SequencerProof.SentPayloadsAreConsumed | cppForSwig/BDM_Server.cpp:2270-2390 | from payloads split into packets, sent in any order and number, to what is consumed: the same payloads in order, up to the first one not submitted in full |
| SequencerProof.RunKeepsInv | cppForSwig/BDM_Server.cpp:2801-2889 | every step of the pool keeps counting, mutual exclusion, truthful single replies, no stalling, and conservation of packets |
| BinaryIO.VarIntReadsBack | cppForSwig/BinaryData.h:1565-1591 | every 64-bit value reads back from its CompactSize form |
| BinaryIO.BlobReadsBack | cppForSwig/BinaryData.h:1087-1330 | a length-prefixed string reads back exactly when its length fits in 32 bits |
| BinaryIO.IntToStrBE | cppForSwig/BinaryData.h:456-464 | the buffer filled from its end is the big-endian form |
| BinaryIO.StrToIntBE | cppForSwig/BinaryData.h:487-502 | the shifted bytes add up to the big-endian value; a wrong size gives zero |
| BitPacking.BitPacker.PutBits | cppForSwig/BinaryData.h:1382-1399 | the value's low bits go right below the bits in use |
| BitPacking.BitPacker.GetBinaryData | cppForSwig/BinaryData.h:1409-1410 | the word is written big-endian |
| BitPacking.BitUnpacker.constructor | cppForSwig/BinaryData.h:1437-1443 | the word is read big-endian |
| BitPacking.BitUnpacker.GetBits | cppForSwig/BinaryData.h:1445-1457 | the next bits are shifted down and masked |
| BitPacking.PackedFieldsReadBack | cppForSwig/BinaryData.h:1375-1470 | any fields that fit the word, packed, written, read and unpacked, come back cut to their widths |
| KeyOrder.Less | cppForSwig/BinaryData.cpp:302-312 | the comparison loop is lexicographic order |
| KeyOrder.KeysInOrder | cppForSwig/BinaryData.cpp:302-312 | the keys of an ordered map are met least first |
| KeyOrder.BigEndianOrder | cppForSwig/BinaryData.cpp:302-312 | big-endian integers of one width are in byte order exactly when they are in numeric order |
| KeyOrder.PrefixRange | cppForSwig/BinaryData.cpp:112-135 | nothing without a prefix lies between it and a key that starts with it |
| Records.ReadKeys | cppForSwig/Assets.cpp:215-318 | the two loops over an entry's key records: sizes, versions and repetitions checked |
| Records.ReadPath | cppForSwig/Assets.cpp:367-373 | the derivation path is read step by step |
| Records.ReadEntries | cppForSwig/Assets.cpp:948-963 | cipher entries are filed under their own key ids, the first of an id staying |
| RecordsProof.CipherReadsBack | cppForSwig/AssetEncryption.cpp:193-257 | a cipher reads back from the stream, with what follows it |
| RecordsProof.CipherDataReadsBack | cppForSwig/Assets.cpp:111-159 | cipher data reads back |
| RecordsProof.EncryptedReadsBack | cppForSwig/Assets.cpp:875-1030 | private keys, seeds, and encryption keys with any number of entries read back; an encryption key exactly when its entries are filed under their own ids |
| RecordsProof.EntryReadsBack | cppForSwig/Assets.cpp:205-504 | every asset entry reads back; the two root entries, which read only the compressed key, exactly when the other form is the one computed from it |
| RecordsAccepted.TornEntryIsRefused | cppForSwig/DBUtils.cpp:464-478 | a stored entry that lost any number of bytes at its end, or got some more, is refused |
| RecordsAccepted.TornEncryptedIsRefused | cppForSwig/Assets.cpp:875-1030 | the same for encrypted data |
| RecordsAccepted.KeysAreTheRecords | cppForSwig/Assets.cpp:215-318 | the key records of an entry are accepted exactly if each is of a known version, type and size and no type comes twice; the keys are then exactly what they hold, in any order |
| RecordsAccepted.EntryIsKnown | cppForSwig/Assets.cpp:320-504 | an entry that is read has a version and type of its kind |
| RecordsAccepted.EncryptedIsKnown | cppForSwig/Assets.cpp:875-1030 | encrypted data that is read is whole, of version 1, of the type its code names, valid, and with its entries under their own ids |
| RecordsAccepted.CipherDataIsKnown | cppForSwig/Assets.cpp:111-159 | cipher data that is read is of version 1, with a text that is not empty and is the bytes its length counts |
| RecordsAccepted.CipherIsKnown | cppForSwig/AssetEncryption.cpp:193-257 | a cipher that is read is of version 1, of the known type, with an initialisation vector of 16 bytes |
| RecordsAccepted.OldRootReads | cppForSwig/Assets.cpp:348-395 | a root entry of version 1 reads with no path and with the fingerprint that stands for none |
| RecordsAccepted.EveryFormReads | cppForSwig/Assets.cpp:320-504 | what an entry written with both forms of its public key, either, or none reads as: a root computes the form it lacks, a single-key entry needs both, a legacy root the compressed one |
| AssetAccount.AssetAccount.constructor | cppForSwig/Accounts.h:451-461 | a new account has its root, no assets, cursor and hash position at UINT32_MAX |
| AssetAccount.AssetAccount.WriteAssetEntries | cppForSwig/Accounts.cpp:22-43 | flagged assets are written under their keys and no longer flagged; the others are not touched |
| AssetAccount.AssetAccount.UpdateAssetCount | cppForSwig/Accounts.cpp:49-62 | the number of assets is written |
| AssetAccount.AssetAccount.UpdateOnDiskAssets | cppForSwig/Accounts.cpp:39-46 | flagged assets are written and no longer flagged, and the count is written |
| AssetAccount.AssetAccount.CommitAccount | cppForSwig/Accounts.cpp:65-100 | root, assets, account record, count and cursor are written, and nothing is flagged after |
| AssetAccount.AssetAccount.UpdateHighestUsedIndex | cppForSwig/Accounts.cpp:496-509 | the cursor is written |
| AssetAccount.AssetAccount.Derive | cppForSwig/DerivationScheme.cpp:205-233 | the derivation loop: each legacy key from the one before, each BIP 32 key from the root |
| AssetAccount.AssetAccount.Insert | cppForSwig/Accounts.cpp:417-440 | new assets go where there is none; a private extension replaces assets without a private key and no others |
| AssetAccount.AssetAccount.ExtendChain | cppForSwig/Accounts.cpp:300-443 | an extension with 32-bit start and end; throws without touching anything, else writes what changed |
| AssetAccount.AssetAccount.GetLastAssetWithPrivateKey | cppForSwig/Accounts.cpp:478-493 | the highest asset below the bound that has a private key |
| AssetAccount.AssetAccount.ExtendPublicChain | cppForSwig/Accounts.cpp:268-283 | account and store after extending from the last asset or the root |
| AssetAccount.AssetAccount.ExtendPublicChainToIndex | cppForSwig/Accounts.cpp:286-297 | account and store after extending up to an index |
| AssetAccount.AssetAccount.ExtendPrivateChain | cppForSwig/Accounts.cpp:360-375 | account and store after extending from the last private key |
| AssetAccount.AssetAccount.ExtendPrivateChainToIndex | cppForSwig/Accounts.cpp:378-400 | account and store after extending private keys up to an index |
| AssetAccount.AssetAccount.FillPrivateKey | cppForSwig/Accounts.cpp:640-702 | account and store after deriving private keys from the closest one before, and whether it throws |
| AssetAccount.AssetAccount.GetNewAsset | cppForSwig/Accounts.cpp:512-537 | the cursor moves and is written first; the asset returned, or None |
| AssetAccount.AssetAccount.PeekNextAsset | cppForSwig/Accounts.cpp:540-555 | the asset behind the cursor, which stays |
| AssetAccount.AssetAccount.UpdateAddressHashMap | cppForSwig/Accounts.cpp:578-619 | all assets after the last hashed one are hashed, in order |
| AssetAccount.AssetAccount.HashAsset | cppForSwig/Accounts.cpp:596-616 | an asset gets a hash for each type it has none for |
| AssetAccount.CollectAssets | cppForSwig/Accounts.cpp:186-218 | the loading loop: stops at the first key without the prefix, never ends at the prefix itself, keeps the root apart |
| AssetAccount.LoadFromDisk | cppForSwig/Accounts.cpp:113-255 | head records, seek, collection and the check of the count, with every way to throw or not to end |
| AssetChainProof.RunKeepsChain | cppForSwig/Accounts.cpp:268-443 | over every run of extensions, fills and look-ups: indices 0 to n - 1, private keys an initial segment, each key derived from its source, nothing lost and no private key replaced |
| AssetChainProof.ExtendPublicExact | cppForSwig/Accounts.cpp:268-326 | an extension adds exactly count assets below index 2^31, does nothing when the 32-bit end wraps around, and throws in between |
| AssetChainProof.PublicAdds | cppForSwig/Accounts.cpp:300-326 | extending by x and then by y is extending by x + y |
| AssetChainProof.ExtendPrivateExact | cppForSwig/Accounts.cpp:360-443 | which indices a private extension gives keys to, and exactly when it throws |
| AssetChainExact.PublicToExact | cppForSwig/Accounts.cpp:286-297 | how many assets there are after extending to an index: the index for an empty chain, else one more than it or as many as before, with no entry changed; nothing changes beyond the limit |
| AssetChainExact.PrivateToExact | cppForSwig/Accounts.cpp:378-400 | how many assets have private keys after extending to an index, and how many there are, in all cases |
| AssetChainExact.ReachExact | cppForSwig/Accounts.cpp:512-555 | getting or peeking at the next asset adds one look-up of assets exactly if it is not there; it is found exactly if it is there then; only getting moves the cursor |
| AssetChainExact.RunSeals | cppForSwig/Accounts.cpp:403-443 | in every run each private key is one from the start, or was sealed for the public key and index of its own asset, with the randomness of a private operation of the run |
| AssetChainProof.PrivateAdds | cppForSwig/Accounts.cpp:403-443 | the same additivity for private extensions |
| AssetChainProof.FillExact | cppForSwig/Accounts.cpp:640-702 | filling succeeds exactly when there is a key to derive from, and then gives keys to the asset and all before it and to no other |
| AssetChainExact.FillOthers | cppForSwig/Accounts.cpp:640-702 | filling an asset that has its key changes nothing, and one that is not there throws |
| AssetChainProof.HandedOutInOrder | cppForSwig/Accounts.cpp:512-537 | in every run the n-th new asset has index n - 1, and none is refused while the chain has room for a look-up |
| AccountStoreProof.LoadsBack | cppForSwig/Accounts.cpp:113-255 | loading a store that mirrors an account gives back the same root, assets and cursor |
| AccountStoreProof.LoadsBackAfterEveryRun | cppForSwig/Accounts.cpp:65-255 | after the first commit, whatever was extended, filled, bumped, and written by others since, loading ends and gives back the account |
| AccountStoreProof.RunKeepsSynced | cppForSwig/Accounts.cpp:22-100 | every operation keeps the store a mirror of the account: what changed is flagged, what is flagged is written, and no key strays under the prefix |
| AccountStoreProof.OtherAccountsKeepOut | cppForSwig/Assets.cpp:170-177 | no key of another account with an id of the same length is taken for one of this account |
| AccountStoreProof.DivergesIff | cppForSwig/Accounts.cpp:188-200 | loading never ends exactly when the asset prefix is itself a key of the store |
| AccountStoreExact.LoadIsSound | cppForSwig/Accounts.cpp:113-255 | from any store at all: what is loaded is of a known kind, has as many assets as the count record says, each what a record with its own index says, and the cursor on record |
| AccountStoreExact.LostAssetIsNoticed | cppForSwig/Accounts.cpp:220-223 | a store in sync that lost any asset is not loaded |
| AccountStoreExact.UnreadableIsNoticed | cppForSwig/Accounts.cpp:186-218 | an account with any record under its prefix that cannot be read is not loaded |
| AccountStoreExact.WritesOwnKeysOnly | cppForSwig/Accounts.cpp:22-62 | an operation touches no record but those of its own account |
| AccountStoreExact.ThrowsLeavesAlone | cppForSwig/Accounts.cpp:300-443 | an operation that asks for nothing or throws leaves account and store as they are, but for the cursor of a new asset |
| AccountStoreProof.SomeAccountQualifies | cppForSwig/Accounts.cpp:65-100 | a fresh account over an empty store meets all premises of the loading results |
| AddressAccount.AddressAccount.constructor | cppForSwig/Accounts.h:525-538 | a new address account has its types and accounts, an empty index and no types on record |
| AddressAccount.AddressAccount.AddAsset | cppForSwig/Accounts.cpp:1489-1494 | an asset's hashes are added in type order, a hash that is there keeping its entry |
| AddressAccount.AddressAccount.AddAssets | cppForSwig/Accounts.cpp:1487-1497 | the same for a list of assets, in order |
| AddressAccount.AddressAccount.UpdateAccount | cppForSwig/Accounts.cpp:1465-1500 | one asset account: hashes brought up to date, and what comes after the last indexed asset added |
| AddressAccount.AddressAccount.UpdateAddressHashMap | cppForSwig/Accounts.cpp:1461-1501 | all asset accounts, in key order |
| AddressAccount.AddressAccount.UpdateInstantiatedAddressType | cppForSwig/Accounts.cpp:1653-1683 | a type is recorded, left alone if the same, or erased if an entry becomes the default |
| AddressAccount.AddressAccount.GetNewAddress | cppForSwig/Accounts.cpp:1307-1373 | the account's next asset with the type asked for; a type that is not the default goes on record |
| AddressAccount.AddressAccount.UsedOfAccount | cppForSwig/Accounts.cpp:1758-1777 | the addresses of all assets up to the cursor, or None if one is missing or makes no address |
| AddressAccount.AddressAccount.GetUsedAddressMap | cppForSwig/Accounts.cpp:1749-1781 | the addresses in use of all accounts |
| AddressIndexProof.InOrderIsNumeric | cppForSwig/Assets.h:439-444 | the asset ids of an account in byte order are its indices in numeric order |
| AddressIndexProof.UpdateHashesAll | cppForSwig/Accounts.cpp:578-619 | whatever was hashed before, an update leaves exactly all assets hashed for all types |
| AddressIndexProof.HashOneKeeps | cppForSwig/Accounts.cpp:596-616 | an asset gets a hash for each type it has none for; one that is there stays, and so do other assets' |
| AddressIndexProof.UpdateKeeps | cppForSwig/Accounts.cpp:1461-1501 | an update keeps what is in the index and makes it complete |
| AddressIndexProof.IndexIsTheOneFromScratch | cppForSwig/Accounts.cpp:1461-1501 | after every run the hashes are exactly those of all assets and types, each entry the earliest asset and type of its account with that hash; the index is the one built from scratch for a single asset account, and for several unless two of them share a hash |
| UsedAddresses.TypeMakesAddressAgain | cppForSwig/Addresses.cpp:605-661 | the type of an address makes the same address again exactly when its key is compressed |
| UsedAddresses.TypeNamesAddress | cppForSwig/Addresses.cpp:605-661 | exactly eight types make an address, flags aside; the address has the type asked for, and an uncompressed key exactly if asked for and not P2WPKH |
| UsedAddresses.SameAddress | cppForSwig/Addresses.cpp:605-661 | two types make the same address exactly if they differ in flags only, and in none that counts |
| UsedAddresses.RecordedIsFound | cppForSwig/Accounts.cpp:1653-1683 | a type that is recorded is the one found, whatever was on record; the types of other ids stay, and the default is erased and not kept |
| UsedAddressesProof.NewAddressExact | cppForSwig/Accounts.cpp:1341-1373 | exactly when a new address is handed out, and that the cursor has moved even if not |
| UsedAddressesProof.UsedMapExact | cppForSwig/Accounts.cpp:1749-1781 | the addresses in use are found exactly if every asset in use is there and its type makes an address |
| UsedAddressesProof.UsedIsHandedOut | cppForSwig/Accounts.cpp:1749-1781 | after every run the assets in use are exactly those handed out, and an address is found again as handed out exactly when its type is the default or its key compressed, and always has the type asked for, flags aside |
| UsedAddressesProof.UncompressedIsLost | cppForSwig/Addresses.cpp:494-500 | an uncompressed P2PKH type does not survive the record |
| P2PPayload.PayloadReadsBack | cppForSwig/BitcoinP2P.cpp:586-772 | a payload reads back if it is no pong without a nonce and has no more than 50000 entries of known kinds; else it is passed over and never throws further |
| P2PPayload.DecodeSays | cppForSwig/BitcoinP2P.cpp:586-772 | any bytes under any name: the payload is of the kind the name says, unknown for a name not in the table, and holds what the bytes say; exactly which are passed over, and from which an exception escapes |
| P2PPayload.KindsAre | cppForSwig/BitcoinP2P.cpp:645-736 | the kinds that an inv and a getdata may list |
| P2PPayload.SizeIsAnnounced | cppForSwig/BitcoinP2P.cpp:119-131 | what a payload writes has the size that it announces before |
| P2PFraming.Serialize | cppForSwig/BitcoinP2P.cpp:119-170 | the buffer filled in place is header and payload |
| P2PFraming.FindFrames | cppForSwig/BitcoinP2P.cpp:180-261 | the scanning loop returns the offsets of the frames |
| P2PFraming.ParsePayloads | cppForSwig/BitcoinP2P.cpp:270-363 | the payloads at the offsets, and how far the data counts as consumed; a malformed payload is passed over, and a count that is cut short escapes |
| P2PFraming.BitcoinP2P.ProcessData | cppForSwig/BitcoinP2P.cpp:264-443 | one read, with the spill of the one before: payloads out and spill kept, or an exception that ends the reader with nothing handed on |
| P2PFraming.BitcoinP2P.ProcessDataStack | cppForSwig/BitcoinP2P.cpp:1070-1105 | the reading loop hands on the payloads of all reads, up to the first that throws |
| P2PStream.FoundFramesAreSound | cppForSwig/BitcoinP2P.cpp:180-261 | on any buffer the frames found increase, are disjoint, fit, and have magic word, name and checksum |
| P2PScan.GoodFramesAreFound | cppForSwig/BitcoinP2P.cpp:180-261 | on any buffer a frame with magic word, name and checksum is found, unless it starts inside one that is found, behind a header that does not fit, or less than four bytes after a place that the scan leaves by four |
| P2PScan.DamageIsSkipped | cppForSwig/BitcoinP2P.cpp:180-363 | intact and damaged frames in any order: exactly the starts of the intact ones are found, and exactly the payloads among them that can be read come out, in order |
| P2PScan.ReaderEndsIff | cppForSwig/BitcoinP2P.cpp:270-363 | exactly when a read ends the reader: a frame found is a list whose count is cut short |
| P2PDamage.BegunThenDamage | cppForSwig/BitcoinP2P.cpp:264-443 | the same behind a frame held from the read before: it comes out first, and what is left over starts behind the last intact frame, or with it if it cannot be read |
| P2PStream.ConcatenationReadsBack | cppForSwig/BitcoinP2P.cpp:119-261 | serialised payloads one after the other: exactly their offsets are found, and they parse back with nothing left over |
| P2PReads.ReadScan | cppForSwig/BitcoinP2P.cpp:180-261 | what the scan finds in any read of a clean stream: all whole frames from a boundary on, else those behind the frame begun, less one if that ends within the first three bytes |
| P2PReads.ReadYields | cppForSwig/BitcoinP2P.cpp:264-443 | with any frames held back whole and any part of the next, what a read yields and exactly what it holds after |
| P2PReads.YieldLoses | cppForSwig/BitcoinP2P.cpp:405-443 | a read loses no frame exactly when it finds none, or when none was held back and it passes over none |
| P2PReads.ReadIsFaithfulUnlessLate | cppForSwig/BitcoinP2P.cpp:264-443 | with nothing held back, a read yields exactly the frames it completes and keeps the rest if and only if it does not start one to three bytes before a frame's end while holding the whole next frame; such a read holds that frame back if it is its last one, and else drops it |
| P2PCuts.EveryCutYieldsTheSame | cppForSwig/BitcoinP2P.cpp:1070-1091 | however a stream with the magic word only at frame starts is cut into reads that are not empty, no read throws, and its payloads come out, in order and with nothing left over, if and only if no read loses a frame and none is held back at the end, which sizes alone decide |
| P2PCuts.CutsArePromptUnlessLate | cppForSwig/BitcoinP2P.cpp:1070-1091 | after every number of reads exactly the frames read whole have come out, if and only if no read is late |
| P2PCuts.CutBeforeTheEndDropsAFrame | cppForSwig/BitcoinP2P.cpp:196-213 | three frames cut three bytes before the end of the first and at the end of the second: the second is held back, and the third read drops it |

## Left out

- Sockets, thread creation, the database engine, files, logging, configuration and protobuf: plumbing around the modelled steps.
- Real cryptography (elliptic curves, HKDF, ChaCha20Poly1305, SHA-256, AES, BIP 32 arithmetic): symbolic in the channel, parameters of the model in the wallet and the framing.
- The `PresentPubKey` message, which the sockets handle around the drivers to show a key to a user; both drivers treat it as unknown, as any other type.
- Reassembly of AEAD packets from socket reads, and the exceptions of the channel on packets too short to have a header.
- Command execution, wallet registration and notifications of the server: mostly field copying between classes outside these files.
- A decryption container that is locked: a private extension then throws before it changes anything.
- ECDH-salted derivation schemes: their keys depend on a list of salts that the chain does not hold; look-up by one asset is covered by the look-up parameter.
- The store's records of address types and of the address account itself; the types on record are modelled in memory.
- Multisig entries and the key derivation function's record: they add no new shape of record.
- The meta-data account, whose new index is the map's size and not a free one after a deletion, and resetting an address account that is already hashed.
- `peekNextChangeAddress`, which moves the cursor like `getNewChangeAddress`.
- Contents of version and reject messages, and the exceptions of malformed ones; a reject message is parsed twice by the source (there is no break after its case), so streams with one are outside `P2PStream.Sendable`.
- AssetChain.Extended: an index above 0x7FFFFFFF fails for both schemes; the legacy scheme of the source would overflow a signed integer there.
- P2PCuts.EveryCutYieldsTheSame: for streams that have the magic word at frame starts only and for reads with at least one byte; where a payload contains the magic word, the scan of a read that starts inside it can end there.
- KeyUse.SendsNeverReuseANonce: for the limit of 10^9 bytes; the unit tests of the source compile another one.
- AddressAccount.AddressAccount.UpdateAccount: its asset accounts are values and not the objects of `AssetAccount`, so aliasing through the shared pointers that the source hands out is not captured, other than by the steps of a run that change one account.
- P2PFraming.PayloadAt: a name without an ending zero, which only a frame held from before can have, is cut at twelve bytes; the source reads on.
- P2PFraming.Look: header fields past the end of the buffer, and a length field that wraps around when 24 is added, count as a frame that does not fit; the source reads past the buffer.
- RecordsProof.EncryptedReadsBack: for records shorter than 2^32 bytes, the width of the reader's lengths; `BinaryIO.BlobReadsBack` shows what happens beyond.
- RecordsProof.EntryReadsBack: for entries shorter than 2^32 bytes, as above.
- UsedAddressesProof.UsedIsHandedOut: for accounts whose types all make an address of a single-key asset and whose chains have room for one more look-up; else a new address can throw after the cursor has moved.
- AddressIndexProof.IndexIsTheOneFromScratch: for a type set that does not change during the run. Where two asset accounts share a hash, which of them holds the entry depends on the order of look-ups, and only the account of an entry can then differ from the index built from scratch.
- BitPacking.BitPacker.PutBits: the OR into the word is an addition, the bits below those in use being zero; bits beyond the end of the word, for which the source logs an error and then shifts by an undefined amount, are not modelled.
- BitPacking.BitUnpacker.GetBits: bits beyond the end of the word, an undefined shift in the source, are not modelled.
- Sequencer.BDV_Server_Object.ProcessPacket: a packet too short for its own type counts as one without an id or with a wrong length; the exceptions of the source's reader on such packets are not told apart.
- SequencerProof.NeverStalls: a safety statement; that a queued packet is eventually popped is left to the scheduler.
