# clockUtils: a verified model

This project models the parts of clockUtils that carry state, bit arithmetic or concurrency, and
proves what they are for. It has five independent components.

* **Huffman codec** (`Bytes`, `Huffman*`). The tree that `buildTree` makes, the code table that
  `generateMapping` fills, the in-place bit packing of `convert`, the byte and bit cursor of
  `getChar`, and both compressors around them. Which of several lightest nodes a
  `std::priority_queue` yields is left to the library, so every theorem holds for every function
  `pick` that chooses a lightest node (the same one on both sides). The floating-point scaling of
  the frequencies is any function to bytes that keeps zero. Node values, frequency counts, lengths
  and `byteIndex` are 32-bit and wrap explicitly. `Undefined` is the outcome where the source takes
  the top of an empty priority queue: compressing an empty text with the generic variant, and
  decompressing an all-zero header.
* **LockFreeQueue** (and `LockFreeCalls`). An interleaved step machine with one atomic access per step, any number of
  threads, sequentially consistent atomics and explicit 64-bit arithmetic. Writing a slot takes two
  steps, so that an overlapping read would see a blank slot. `SIZE` is at least 1, and there were
  fewer than 2^64 pushes (`Bounded`).
* **DoubleBufferQueue** (and `DoubleBufferCalls`). A step machine of the two queues, the two pointers and the two locks, with
  the two-phase `clear` and the two separate pointer assignments of `swap`.
* **Sockets** (`Framing`, `TcpReceiver`, `UdpReceiver`, `AsyncWriter`, `AsyncCalls`). Packet framing, reassembly
  from arbitrary chunks or from the interleaved datagrams of many senders, and the worker thread of
  both sockets as one step machine with spurious wake-ups. The stream delivers every byte and its end is
  `NOT_CONNECTED`; datagrams arrive in order and without loss for each sender. A packet of 2^31 bytes or
  more overflows signed arithmetic in the receiver, which is the outcome `Undefined`.
* **IniParser** (`Ini*`). The line store and the entry index as a class, `load`, `save`, `getValue`
  and `setValue` on it, and what editing, printing and parsing do to each other. Texts are sequences
  of characters that stand for bytes, and `std::map` is walked in lexicographic order.

## Findings

* `decompress` gives back what `compress` made exactly when the text is not empty and its codes end
  within 2^32 bytes. That is certain up to 1561806289 bytes, because no code has more than 22 bits.
  Both variants accept longer texts that they can then not read back: the fixed one because some
  code has nine bits or more (`FixedRoundTripFails`), the generic one because rounding the
  frequencies down can cost more than eight bits a byte (`GenericRoundTripFails`). The fixed variant
  also compresses the empty text to something `decompress` refuses.
* A UDP frame whose length is a multiple of 32768 is followed by an empty datagram, which the
  receiver reports as `NOT_CONNECTED`; `Reassembly` and `OnlyPackets` say exactly when, and
  `EvenFrameLosesConnection` gives the packets of 32762 bytes.
* `DoubleBufferQueue::clear` can miss values that were queued before it began: a swap between its two
  phases moves them into the part that is already cleared (`ClearCanMiss`). `ClearedExactly` gives the
  condition under which the queue is empty.
* A TCP stream that ends inside a frame loses the part of the frame that the failing call has read
  (`EndInsideFrame`).
* Lines before the first header of an INI file survive saving and loading only if no section name
  sorts before `global` (`ReloadsExactly`; `LeadingEntryIsMoved` for `x=1` followed by `[a]`). A
  parser without any line comes back with one blank line.
* `setValue` on a section that has no entry list yet but more than one line leaves a second header
  among its lines, and so does the first `setValue` on `global` in a parser that has loaded nothing.
  No later call repairs it, and the saved file never loads again (`SessionExactly`,
  `CommentedSection`, `FreshGlobal`).
* `save` changes what `setValue` does next, because looking for entries creates empty entry lists:
  a section with a comment and no entry can be set after a save and not before, and a section with
  a blank last line and no entry can then no longer be set at all (`SaveSettable`, `CommentedSection`,
  `BlankSection`).
* The header documents that `getValue` leaves the value unchanged when nothing is found
  (include/clockUtils/iniParser/iniParser.h:69); the string form sets it to the empty string
  (libs/iniParser/src/iniParser.cpp:122, 132). The model follows the code.

## Model

| member | source | states |
|---|---|---|
| `Bytes.AppendLength` | libs/compression/src/algorithm/HuffmanGeneric.cpp:39-42 | the loop appends exactly the four big-endian bytes of the length and leaves what is there |
| `Bytes.ReadLength` | libs/compression/src/algorithm/HuffmanGeneric.cpp:61-65 | the 32-bit multiply-and-add loop never wraps and yields the big-endian value of the four bytes |
| `Bytes.LengthRoundTrip` | libs/compression/src/algorithm/HuffmanGeneric.cpp:39-65 | every length below 2^32 is read back as it was written |
| `HuffmanTree.BuildTree` | libs/compression/src/algorithm/HuffmanBase.cpp:32-66 | the queue loop, with 32-bit sums, computes the tree that repeated merging of two lightest nodes defines, for every tie-breaking |
| `HuffmanTree.MergeConserves` | libs/compression/src/algorithm/HuffmanBase.cpp:52-63 | any measure that joining adds up has the same total over the queue as on the finished tree |
| `HuffmanTree.TreeLeaves` | libs/compression/src/algorithm/HuffmanBase.cpp:42-63 | each symbol of non-zero weight has exactly one leaf, carrying the header's weight; no other leaf exists |
| `HuffmanTree.TreeOrdered` | libs/compression/src/algorithm/HuffmanBase.cpp:54-60 | for every header and tie-breaking, the node popped first is the left child: no left child is heavier than its sibling |
| `HuffmanDepth.MergeKeepsGreedy` | libs/compression/src/algorithm/HuffmanBase.cpp:52-63 | every merge keeps the greedy queue invariant (no queued node is lighter than a child of any queued node) and the total weight |
| `HuffmanDepth.TreeGreedy` | libs/compression/src/algorithm/HuffmanBase.cpp:32-66 | for every header the 32-bit sums do not wrap and every node of the tree is greedy |
| `HuffmanDepth.GreedyWeight` | libs/compression/src/algorithm/HuffmanBase.cpp:52-63 | a greedy tree of height h weighs at least Fib(h + 2) |
| `HuffmanDepth.TreeHeight` | libs/compression/src/algorithm/HuffmanBase.cpp:32-66 | for every header and tie-breaking the tree is at most 22 levels deep |
| `HuffmanOptimality.MergeShape` | libs/compression/src/algorithm/HuffmanBase.cpp:52-63 | the exchange step: in any competing tree the two lightest weights can be merged into one leaf, saving at least their sum |
| `HuffmanOptimality.GreedyIsOptimal` | libs/compression/src/algorithm/HuffmanBase.cpp:52-63 | from any greedy queue on, no tree over the queued values beats what merging still adds |
| `HuffmanOptimality.TreeIsOptimal` | libs/compression/src/algorithm/HuffmanBase.cpp:32-66 | the weighted path length of the tree is the sum of its inner values and is least among all binary trees with the same weighted leaves |
| `HuffmanCodes.GenerateMapping` | libs/compression/src/algorithm/HuffmanBase.cpp:68-83 | the recursion writes into the table in place what `Mapped` says of its old contents |
| `HuffmanCodes.MappedAt` | libs/compression/src/algorithm/HuffmanBase.cpp:68-83 | every symbol of the tree gets its root path as code (left 1, right 0), every other entry stays |
| `HuffmanCodes.TreeSymbols` | libs/compression/src/algorithm/HuffmanBase.cpp:42-83 | exactly the symbols of non-zero weight have a code, each by one leaf, of at most 22 bits |
| `HuffmanCodes.PrefixFree` | libs/compression/src/algorithm/HuffmanBase.cpp:68-83 | no symbol's code is a prefix of another's |
| `HuffmanCodes.KraftEquality` | libs/compression/src/algorithm/HuffmanBase.cpp:32-83 | the sum of 2^(22 - length) over all codes is exactly 2^22, for every header |
| `HuffmanCodes.TreeMatches` | libs/compression/src/algorithm/HuffmanBase.cpp:42-63 | every leaf carries its own symbol's weight |
| `HuffmanCodes.CodesAreOptimal` | libs/compression/src/algorithm/HuffmanBase.cpp:32-83 | the total of weight times code length over all symbols is at most the path length of any binary tree over the same weights |
| `HuffmanCodes.TwoSymbolCodes` | libs/compression/src/algorithm/HuffmanBase.cpp:52-82 | of two symbols of different weight the lighter one has the code 1 and the heavier one the code 0 |
| `HuffmanCodes.HeavierIsShorter` | libs/compression/src/algorithm/HuffmanBase.cpp:32-83 | for every header and tie-breaking, a heavier symbol never has a longer code than a lighter one |
| `HuffmanCodes.WeightBoundsLength` | libs/compression/src/algorithm/HuffmanBase.cpp:32-83 | a symbol's weight times Fib(code length + 1) stays within the total weight of the header |
| `HuffmanDecoder.GetChar` | libs/compression/src/algorithm/HuffmanBase.cpp:85-116 | on any payload, tree and length the wrapping cursor loop reads only inside the payload, succeeds exactly when `Decoded` has a text, and then leaves that text in the result |
| `HuffmanDecoder.DecodedExactly` | libs/compression/src/algorithm/HuffmanBase.cpp:85-116 | for every non-empty payload below 2^32 bytes: accepted exactly when the list-of-bits decoder yields the symbols from n bits with n / 8 equal to the payload's length minus one, with the same text |
| `HuffmanDecoder.DecodedIsEncoded` | libs/compression/src/algorithm/HuffmanBase.cpp:85-116 | from any payload: an accepted text has the requested length, its codes end in the last byte, and the payload starts with them (a payload of exactly 2^32 bytes is read in a circle; longer ones are never accepted) |
| `HuffmanDecoder.NeverAccepted` | libs/compression/src/algorithm/HuffmanBase.cpp:105-115 | an empty payload and one of more than 2^32 bytes are never accepted |
| `HuffmanDecoder.DecodeOfConcat` | libs/compression/src/algorithm/HuffmanBase.cpp:94-113 | decoding undoes encoding, whatever bits follow |
| `HuffmanDecoder.ConcatOfDecode` | libs/compression/src/algorithm/HuffmanBase.cpp:94-113 | encoding undoes decoding: the consumed bits are the concatenated codes of the decoded text |
| `HuffmanDecoder.DecodedOfPacked` | libs/compression/src/algorithm/HuffmanBase.cpp:85-116 | the packed codes of a text decode to it exactly when they end within 2^32 bytes, one-leaf trees and full last bytes included |
| `HuffmanEncoder.AppendCode` | libs/compression/src/algorithm/HuffmanGeneric.cpp:81-91 | growing by zero bytes and OR-ing bits appends exactly the code after the bits written so far, with zeros behind it, in (bits / 8 + 1) bytes |
| `HuffmanEncoder.Convert` | libs/compression/src/algorithm/HuffmanGeneric.cpp:76-93 | the result is the old bytes followed by the packed concatenation of the codes; for an empty text nothing is added |
| `HuffmanEncoder.ConvertedBits` | libs/compression/src/algorithm/HuffmanFixed.cpp:105-123 | header bytes unchanged, totalBits / 8 + 1 payload bytes, leading bits equal to the codes, zero padding |
| `HuffmanGeneric.CalcFrequencies` | libs/compression/src/algorithm/HuffmanGeneric.cpp:95-118 | each header entry is the scaled count of its symbol relative to the largest count, raised to 1 where a present symbol scaled to 0; the 32-bit counts do not wrap |
| `HuffmanGeneric.LargestIsMaximum` | libs/compression/src/algorithm/HuffmanGeneric.cpp:98-106 | the running maximum bounds every symbol's count and is the count of a symbol of the text |
| `HuffmanGeneric.HeaderSymbols` | libs/compression/src/algorithm/HuffmanGeneric.cpp:108-115 | exactly the symbols of the text have non-zero weight |
| `HuffmanGeneric.Compress` | libs/compression/src/algorithm/HuffmanGeneric.cpp:30-49 | too long texts are refused; otherwise header, length and packed codes |
| `HuffmanGeneric.Decompress` | libs/compression/src/algorithm/HuffmanGeneric.cpp:51-74 | short inputs are refused; otherwise what the decoder makes of the payload with the tree of the header |
| `HuffmanGeneric.RoundTrip` | libs/compression/src/algorithm/HuffmanGeneric.cpp:30-118 | every non-empty text below 2^32 bytes is compressed, and comes back exactly if its codes end within 2^32 bytes; otherwise `decompress` reports INVALID_ARGUMENT |
| `HuffmanGeneric.SafeRoundTrip` | libs/compression/src/algorithm/HuffmanGeneric.cpp:30-118 | every non-empty text of up to 1561806289 bytes comes back |
| `HuffmanGeneric.AcceptedInput` | libs/compression/src/algorithm/HuffmanGeneric.cpp:51-74 | of arbitrary input: what is accepted has the announced length, its codes end in the payload's last byte, and the payload starts with them (read in a circle if it has exactly 2^32 bytes) |
| `HuffmanGeneric.HeaderFollowsCounts` | libs/compression/src/algorithm/HuffmanGeneric.cpp:110-115 | a present symbol that scales to 0 weighs exactly 1 and every other one what it scales to; for a monotone scale a more frequent symbol never weighs less |
| `HuffmanGeneric.Refused` | libs/compression/src/algorithm/HuffmanGeneric.cpp:31-34 | compress refuses exactly texts of 2^32 bytes and more; decompress refuses inputs shorter than 260 bytes, and those of 260 bytes with any weight |
| `HuffmanGeneric.CompressedAab` | libs/compression/src/algorithm/HuffmanGeneric.cpp:30-49 | the text "aab" is compressed to its header, the bytes 0, 0, 0, 3 and the payload 0x20, whatever the tie-breaking |
| `HuffmanFixed.FixedCodes` | libs/compression/src/algorithm/HuffmanFixed.cpp:31-61 | every byte has a non-empty code of at most 22 bits in the built-in tree |
| `HuffmanFixed.Codec.Fill` | libs/compression/src/algorithm/HuffmanFixed.cpp:106-109 | the test of entry 0 fills the table when it is empty and only then; afterwards it holds the tree's codes |
| `HuffmanFixed.Codec.Compress` | libs/compression/src/algorithm/HuffmanFixed.cpp:63-82 | the result does not depend on whether the table was already filled: the length and the packed codes of the built-in tree |
| `HuffmanFixed.Codec.Decompress` | libs/compression/src/algorithm/HuffmanFixed.cpp:84-103 | short inputs are refused; otherwise what the decoder makes of the payload with the built-in tree |
| `HuffmanFixed.FixedRoundTrip` | libs/compression/src/algorithm/HuffmanFixed.cpp:63-123 | every text below 2^32 bytes is compressed, and comes back exactly if it is not empty and its codes end within 2^32 bytes; otherwise an error is reported |
| `HuffmanFixed.FixedSafeRoundTrip` | libs/compression/src/algorithm/HuffmanFixed.cpp:63-123 | every non-empty text of up to 1561806289 bytes comes back |
| `HuffmanFixed.FixedRefused` | libs/compression/src/algorithm/HuffmanFixed.cpp:64-87 | compress refuses exactly texts of 2^32 bytes and more; decompress refuses inputs without a payload |
| `HuffmanFixedLimit.BuiltInLengths` | libs/compression/src/algorithm/HuffmanFixed.cpp:31-60 | the built-in weights add up to 1706, and weight times Fib(code length + 1) stays within that for every symbol |
| `HuffmanFixedLimit.FrequentSymbols` | libs/compression/src/algorithm/HuffmanFixed.cpp:31-60 | the space has at most 4 bits, e at most 5, t, i, n and o at most 6, a, s, h and r at most 7 |
| `HuffmanFixedLimit.SomeLongCode` | libs/compression/src/algorithm/HuffmanFixed.cpp:31-61 | whatever the tie-breaking, some code of the built-in tree has nine bits or more |
| `HuffmanFixedLimit.FixedRoundTripFails` | libs/compression/src/algorithm/HuffmanFixed.cpp:63-123 | some text of 2^32 - 1 bytes is compressed without complaint and cannot be read back |
| `HuffmanGenericLimit.BitsFromFrequencies` | libs/compression/src/algorithm/HuffmanGeneric.cpp:80-92 | the payload takes the sum over all symbols of frequency times code length, for every tree and text |
| `HuffmanGenericLimit.NotLevel` | libs/compression/src/algorithm/HuffmanBase.cpp:52-63 | one symbol of weight 255 among symbols of weight 127 never ends up in a tree whose codes all have the same length, because greedy merging leaves no sibling lighter than a child |
| `HuffmanGenericLimit.GenericRoundTripFails` | libs/compression/src/algorithm/HuffmanGeneric.cpp:30-118 | with exact scaling and any tie-breaking, some text of 2^32 - 9 bytes is compressed without complaint and cannot be read back |
| `LockFreeQueue.RoomTest` | include/clockUtils/container/LockFreeQueue.h:67 | the unsigned test for room is exact for every stale read index |
| `LockFreeQueue.MoveKeepsGood` | include/clockUtils/container/LockFreeQueue.h:57-159 | every step of every thread keeps the invariant: exclusive sections, indices that count the history, live slots that hold their values, and what each local copy is worth |
| `LockFreeQueue.RunIsGood` | include/clockUtils/container/LockFreeQueue.h:51-159 | the invariant holds at every moment of every run with fewer than 2^64 pushes |
| `LockFreeQueue.FirstInFirstOut` | include/clockUtils/container/LockFreeQueue.h:57-141 | in every interleaving the indices count removals and pushes, readIndex <= writeIndex <= readIndex + SIZE, the k-th removal takes the k-th pushed value, and every queued value sits in its slot |
| `LockFreeQueue.ReturnedValue` | include/clockUtils/container/LockFreeQueue.h:101-141 | a successful front returns the oldest queued value, a successful poll the value it removed |
| `LockFreeQueue.SectionsDisjoint` | include/clockUtils/container/LockFreeQueue.h:59-69 | at most one thread in each section, and a producer about to write and a consumer about to read never mean the same slot, stale indices notwithstanding |
| `LockFreeQueue.NoDeadlock` | include/clockUtils/container/LockFreeQueue.h:57-141 | nobody spins on an abandoned flag: while any call is under way, some call under way can take a step that changes the state |
| `LockFreeQueue.RefusedPush` | include/clockUtils/container/LockFreeQueue.h:64-72 | NO_SPACE_AVAILABLE implies a moment inside that call at which the queue was full |
| `LockFreeQueue.RefusedRemoval` | include/clockUtils/container/LockFreeQueue.h:87-138 | NO_ELEMENT implies a moment inside that call at which the queue was empty |
| `LockFreeQueue.Observed` | include/clockUtils/container/LockFreeQueue.h:146-159 | empty() returning true implies the queue was empty at its first read; size() never underflows and counts at least what was queued then |
| `LockFreeCalls.CompletedCall` | include/clockUtils/container/LockFreeQueue.h:57-159 | every call that returns, in every run: a push answering SUCCESS appended the value it was called with by exactly one of its steps; a pop or poll answering SUCCESS removed the oldest value by exactly one of its steps, and poll returns it; a refused call, a front and an observer changed nothing |
| `DoubleBufferQueue.MoveKeepsGood` | include/clockUtils/container/DoubleBufferQueue.h:65-238 | every step of every thread, clear and the half-done swap included, keeps the invariant |
| `DoubleBufferQueue.StepRefinesQueue` | include/clockUtils/container/DoubleBufferQueue.h:65-238 | with read ++ other as abstract value: push appends, pop and poll take the head, clear drops a head, and every other step, swap included, changes nothing |
| `DoubleBufferQueue.RunIsGood` | include/clockUtils/container/DoubleBufferQueue.h:59-238 | the invariant holds at every moment of every run |
| `DoubleBufferQueue.FirstInFirstOut` | include/clockUtils/container/DoubleBufferQueue.h:65-68 | without clear, what was removed followed by what is queued is what was pushed, in order and without a gap |
| `DoubleBufferQueue.ClearLosesNothing` | include/clockUtils/container/DoubleBufferQueue.h:108-119 | with clear anywhere: removed and queued values are in push order, and every push is exactly once removed, cleared or still queued |
| `DoubleBufferQueue.ReturnedValue` | include/clockUtils/container/DoubleBufferQueue.h:166-209 | a successful front returns the oldest queued value, a successful poll the value it removed |
| `DoubleBufferQueue.RefusedRemoval` | include/clockUtils/container/DoubleBufferQueue.h:137-209 | NO_ELEMENT implies that the whole queue was empty at the instant of that call's swap |
| `DoubleBufferQueue.NoDeadlock` | include/clockUtils/container/DoubleBufferQueue.h:137-238 | while any call is under way, some call under way can take a step that changes the state |
| `DoubleBufferCalls.CompletedCall` | include/clockUtils/container/DoubleBufferQueue.h:65-238 | every call that returns, in every run: a push appended its value and a successful pop or poll removed the oldest one by exactly one of its steps, poll returns that value, a front and a refused call changed nothing, and a clear only dropped values |
| `DoubleBufferCalls.ClearedExactly` | include/clockUtils/container/DoubleBufferQueue.h:108-119 | when a clear is about to return, concurrent calls notwithstanding, the queue is empty if and only if nothing is queued that a swap has moved since this call found the read queue empty; in particular if there was no swap |
| `DoubleBufferCalls.ClearCanMiss` | include/clockUtils/container/DoubleBufferQueue.h:113-114 | a run in which a front of another thread swaps between the two phases and a value queued before the clear began survives it |
| `AsyncWriter.MoveKeepsGood` | libs/sockets/src/TcpSocket.cpp:604-648 | every step of the worker, a client or the destructor, and every spurious wake-up, keeps lock ownership, conservation, the wake-up and the shutdown invariants, for both sockets |
| `AsyncWriter.RunIsGood` | libs/sockets/src/UdpSocket.cpp:267-311 | these invariants hold at every moment of every run |
| `AsyncWriter.BlockedWillBeTold` | libs/sockets/src/TcpSocket.cpp:608-624 | no lost wake-up: while the worker is blocked, a raised flag or a filled queue has an owner that has still to notify |
| `AsyncWriter.HandedOverInOrder` | libs/sockets/src/TcpSocket.cpp:349-419 | at every moment, what was handed to the write call is what was enqueued first, each item once and in order |
| `AsyncWriter.ShutdownDrains` | libs/sockets/src/linux/UdpSocket.cpp:40-51 | when the worker has exited, everything enqueued before the flag was raised was handed over in order, and everything at all if nothing was enqueued later |
| `AsyncWriter.NeverStuck` | libs/sockets/src/TcpSocket.cpp:57-68 | unless the worker has exited or has nothing to do, the worker, a client in a call or a destructor that has been called can take a step that changes the state |
| `AsyncCalls.CompletedCall` | libs/sockets/src/TcpSocket.cpp:349-419 | every writePacketAsync or writeAsync call that returns: exactly one of its steps enqueued something, namely its item in the queue it is for, and none touched the other queue |
| `AsyncCalls.CallIsSent` | libs/sockets/src/TcpSocket.cpp:604-648 | the item of a call that returned while the flag was down has been handed to the write call of its own lane, in the place at which it was enqueued, once the worker has exited |
| `AsyncCalls.CallsInOrder` | libs/sockets/src/TcpSocket.cpp:349-419 | a call that returned before another one for the same lane began has the earlier place |
| `AsyncCalls.DestructorJoins` | libs/sockets/src/TcpSocket.cpp:63-65 | the destructor has returned only if the worker has exited |
| `AsyncCalls.WorkerExits` | libs/sockets/src/UdpSocket.cpp:267-311 | once the worker has seen the flag and while nothing more is enqueued, it takes at most a bounded number of further steps, and after that many it has exited |
| `Framing.WritePacket` | libs/sockets/src/TcpSocket.cpp:320-340 | the buffer filled byte by byte is the frame: bar, big-endian length, contents, bar |
| `Framing.ParseFrame` | libs/sockets/src/TcpSocket.cpp:474-489 | a frame, whatever it contains, is recognised when its last byte is there and not before, and what follows it is left alone |
| `TcpReceiver.Socket.ReceivePacket` | libs/sockets/src/TcpSocket.cpp:437-494 | the loop with its sticky length and skipped first read returns the outcome, kept bytes and unread chunks that collecting from the kept bytes defines, errors included |
| `TcpReceiver.NextPacket` | libs/sockets/src/TcpSocket.cpp:437-494 | whatever the division into chunks, a call returns the next packet, and kept plus unread bytes are then the frames still owed |
| `TcpReceiver.Reassembly` | libs/sockets/src/TcpSocket.cpp:320-494 | successive calls return exactly the framed packets in order, then NOT_CONNECTED, for every cut of the stream |
| `TcpReceiver.NoBar` | libs/sockets/src/TcpSocket.cpp:464-469 | a stream that does not start with a bar makes the call fail with UNKNOWN, nothing is kept, and later bytes stay unread |
| `TcpReceiver.OnlyAfterBar` | libs/sockets/src/TcpSocket.cpp:464-469 | without kept bytes a packet is returned only if the first byte of the stream is a bar |
| `TcpReceiver.EndInsideFrame` | libs/sockets/src/TcpSocket.cpp:452-458 | a stream that ends inside a frame makes the call fail, and the bytes it has read are not kept |
| `UdpReceiver.Write` | libs/sockets/src/UdpSocket.cpp:85-104 | the index loop sends the pieces of the data in order |
| `UdpReceiver.PiecesMakeData` | libs/sockets/src/UdpSocket.cpp:96-97 | length / 32768 + 1 pieces of at most 32768 bytes, whose concatenation is the data |
| `UdpReceiver.Socket.Handle` | libs/sockets/src/UdpSocket.cpp:207-241 | a datagram changes its sender's buffer only, and yields a packet, an error or nothing yet |
| `UdpReceiver.Socket.ReceivePacket` | libs/sockets/src/UdpSocket.cpp:188-245 | a call returns the first event of the datagrams, with its sender, and leaves exactly the later events to later calls |
| `UdpReceiver.SendersNeverMix` | libs/sockets/src/UdpSocket.cpp:211-241 | whatever arrives in whatever order, the outcomes for a sender are those of its own datagrams alone |
| `UdpReceiver.Reassembly` | libs/sockets/src/UdpSocket.cpp:60-245 | for any interleaving of any number of senders, each sender's packets come out in order under its own address, with a NOT_CONNECTED after exactly those whose frame length is a multiple of 32768 |
| `UdpReceiver.OnlyPackets` | libs/sockets/src/UdpSocket.cpp:96-97 | for any interleaving of any number of senders, a sender's packets and nothing else are reported if and only if none of its frame lengths is a multiple of 32768 |
| `UdpReceiver.EvenFrameLosesConnection` | libs/sockets/src/UdpSocket.cpp:96-97 | every packet of 32762 bytes is sent as a full and an empty datagram and reported as the packet and NOT_CONNECTED |
| `UdpReceiver.NoBar` | libs/sockets/src/UdpSocket.cpp:213-218 | a datagram without a bar from a sender with nothing kept is reported as UNKNOWN, and the receiver goes on as if it had not come |
| `IniText.JoinOfSplit` | libs/iniParser/src/iniParser.cpp:47-48 | the lines read (k + 1 for k newlines), printed with newlines without the last one, are the text |
| `IniText.SplitOfJoin` | libs/iniParser/src/iniParser.cpp:110 | lines that are printed are read back as the same lines |
| `IniText.SortedLists` | libs/iniParser/src/iniParser.cpp:98 | the walk over the map visits every section once in ascending order |
| `IniParser.PrintLines` | libs/iniParser/src/iniParser.cpp:99-107 | the cursor loop prints every line of a section, with entries in the places the cursor meets |
| `IniParser.PrintSections` | libs/iniParser/src/iniParser.cpp:98-108 | all sections in map order; exactly the sections with lines and without an entry list get an empty one |
| `IniParser.Parser.Load` | libs/iniParser/src/iniParser.cpp:39-85 | succeeds exactly when every line parses, and leaves the maps of all lines before the first that does not |
| `IniParser.Parser.Save` | libs/iniParser/src/iniParser.cpp:88-116 | writes the printed lines of all sections without the last newline, and the whole new state: every section with lines has an entry list, nothing else changes |
| `IniParser.Parser.GetValue` | libs/iniParser/src/iniParser.cpp:118-134 | the value of the first matching entry, or VALUE_NOTFOUND and an empty string |
| `IniParser.Parser.SetValue` | include/clockUtils/iniParser/iniParser.h:131-152 | the whole new state: a new section, a value changed in place, or an entry on the free last line or a new one; required is only that the vectors whose back is taken are not empty |
| `IniInvariant.LoadedIsWellFormed` | libs/iniParser/src/iniParser.cpp:39-82 | loading, even up to a syntax error, leaves strictly increasing in-range places, unique fields, printable entries and every line stored as it prints |
| `IniInvariant.SetKeeps` | include/clockUtils/iniParser/iniParser.h:131-152 | a defined setValue keeps that invariant if and only if its section is settable |
| `IniInvariant.SettableIsDefined` | include/clockUtils/iniParser/iniParser.h:139-151 | on a settable section setValue is defined for every field |
| `IniInvariant.SettableStays` | include/clockUtils/iniParser/iniParser.h:131-152 | no setValue makes another section, or its own, unsettable |
| `IniInvariant.SaveKeeps` | libs/iniParser/src/iniParser.cpp:98-108 | saving keeps the invariant and every section's entries |
| `IniInvariant.SaveSettable` | libs/iniParser/src/iniParser.cpp:101 | exactly how saving changes setValue: a section with lines and no entry list becomes settable if its last line is not blank and undefined otherwise; all others stay as they are |
| `IniInvariant.LookupAfterSet` | include/clockUtils/iniParser/iniParser.h:131-152 | after setValue a lookup finds the new value for that section and field and the old result for all others |
| `IniReload.PrintedEntry` | libs/iniParser/src/iniParser.cpp:50-79 | a printed entry parses as the same field and value if and only if it is printable: no newline, no '=' in the field, not both empty, and the field not starting with '[' or ';' |
| `IniReload.ReloadsExactly` | libs/iniParser/src/iniParser.cpp:39-110 | from any well-formed state, saving and loading gives the same sections, entries and printed lines if and only if there is a line, and nothing before the first header or no section before "global" |
| `IniReload.ReloadedLookup` | libs/iniParser/src/iniParser.cpp:88-134 | from any well-formed state, without lines too, every lookup gives the same before saving and after loading if "global" is empty or first |
| `IniPrinted.SetPrints` | include/clockUtils/iniParser/iniParser.h:131-152 | what setValue does to the printed section, from any well-formed state and settable section: a new section is its header and the entry, a lone header gets the entry and a blank line, a known field changes its own line and no other, a new field takes over a blank last line or comes behind the last one; every other section prints as before |
| `IniTheorems.SessionKeeps` | include/clockUtils/iniParser/iniParser.h:131-152 | any setValue and save calls in any order, each setValue on a section settable then, keep the invariant, and no lines appear before the first header |
| `IniTheorems.SessionReloads` | include/clockUtils/iniParser/iniParser.h:131-152 | after any such session from any well-formed parser, a fresh one included: saved and loaded again, every lookup returns the last value set or the original if "global" is empty or first, and nothing changes at all if and only if there also is a line |
| `IniTheorems.EditedFileReloads` | libs/iniParser/src/iniParser.cpp:39-134 | the same for any session on any file that loads, where the equivalence needs no line condition |
| `IniTheorems.PlannedForFile` | include/clockUtils/iniParser/iniParser.h:131-152 | for a loaded file it is enough that the sections to be set are settable at the start (those with an entry, new ones, and those that are only a header), whatever is set and saved in between |
| `IniVerbatim.SaveUndoesLoad` | libs/iniParser/src/iniParser.cpp:47-110 | for every text that loads, saving writes the identical text if and only if its sections, counting leading lines as "global", are in ascending name order |
| `IniVerbatim.LoadedFileReloads` | libs/iniParser/src/iniParser.cpp:47-110 | without the order condition, reloading gives the same lines and entries for every section if and only if nothing stands before the first header or "global" sorts first |
| `IniDamage.RepeatedHeader` | libs/iniParser/src/iniParser.cpp:60-64 | no text with the same header twice, or with a header named "global", loads |
| `IniDamage.DamageIsDone` | include/clockUtils/iniParser/iniParser.h:132-137 | a defined setValue on a section that is not settable leaves its header visible twice, or a header in "global" |
| `IniDamage.DamageStays` | include/clockUtils/iniParser/iniParser.h:131-152 | no further setValue or save covers or removes that header |
| `IniDamage.DamageIsPermanent` | include/clockUtils/iniParser/iniParser.h:131-152 | any session with a setValue on a section that is not settable then: the result, saved, does not load, whatever comes before and after |
| `IniDamage.SessionExactly` | include/clockUtils/iniParser/iniParser.h:131-152 | for every defined session from every well-formed parser: saved and reloaded without change if and only if every setValue was on a section settable then, there is a line, and "global" is empty or first |
| `IniDamage.CommentedSection` | include/clockUtils/iniParser/iniParser.h:132-137 | a file with a comment and no entry: setValue after loading damages it, setValue after a save in between does not |
| `IniDamage.BlankSection` | include/clockUtils/iniParser/iniParser.h:146 | a file with a blank line and no entry: setValue is defined after loading and undefined after a save |
| `IniDamage.FreshGlobal` | include/clockUtils/iniParser/iniParser.h:132-137 | a fresh parser after setValue on "global" saves a file that does not load |
| `IniDamage.LeadingEntryIsMoved` | libs/iniParser/src/iniParser.cpp:98-108 | the file "x=1", "[a]" loads and does not survive saving and loading |

## Left out

- Exact floating-point rounding of the frequencies: only its range and that zero stays zero are used; `ExactScale` is one instance.
- Allocation failure (`OUT_OF_MEMORY`) and the wrap-around of the 64-bit bit index in `convert`.
- `LockFreeQueue::clear`: it stores the read index without taking the consumers' flag.
- Weaker memory orders than sequential consistency, and fairness: no theorem says that a spinning or waiting thread, or the worker, is eventually scheduled.
- `DoubleBufferQueue::empty` and `size`, which take no lock, and the single-consumer overloads, which are the same code without the read lock.
- Socket creation, connecting, listening, status checks (`NOT_READY`), error maps and address conversion.
- Partial sends, read errors, and loss, truncation or reordering of datagrams.
- `AsyncWriter.MoveKeepsGood`: the write call is one step that takes an item; the queue sizes that the worker reads outside the queue locks are read atomically, and the moved-from front that UdpSocket keeps queued while sending is not told apart from the item.
- `receiveCallback`, the stream operators and the `std::vector` overloads, which wrap the modelled calls.
- `IniParser::removeEntry`: it erases a line without shifting later places, so it does not keep the invariant that `save` relies on.
- `IniParser.Parser.SetValue`: calls that take the back of an empty vector are excluded, because the source leaves them undefined.
- Files themselves (FILENOTFOUND), `getAllSections`, `getAllEntries` and the templated conversions of values.
- The argument parser, whose properties are one-branch facts.
