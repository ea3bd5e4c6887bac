# Verified model of the RPC server's storage, wire format and dispatch

A Dafny model of five parts of the repository that together carry a request from
bytes to a reply, and proofs about each of them and about how they fit.

* **The method registry.** khash with its triangular probing, tombstones, two-bit
  flags and in-place rehash (`Probing`, `BucketFlags`, `Layout`, `Rehashing`,
  `KHash`), and the wrapper the server uses (`RpcHash`). The table refines a finite
  map over every run of operations; the exits that compare a bucket with the first
  one of a walk are never taken.
* **The wire format.** Values, a recursive decoder that is the reference for all
  parsers, and the minimal-width encoder with its round trip (`MsgPack`, `Encoding`);
  `Format` states both in literal bytes.
* **The tree parser.** The loop over an explicit stack of levels with one byte
  reserved for every child (`ParseState`, `TreeParser`). Given data, it accepts exactly
  what the recursive decoder accepts within the node limits, maps of 2^31 entries and more
  apart, and yields the same value.
  From a stream the same messages come out in order however the bytes arrive; it waits
  only while no complete message is there, and every error has its reason in the data,
  the limits or the read function. `Nodes` is access to the result.
* **The writer and the paged builder.** `Plans` are trees of which balanced runs of
  calls are flattenings; `Drafts` says what a run of calls means; `BuildPages` is the
  paged storage, and `Sites` tells from the calls alone where in it everything goes;
  `Writing` is the writer as a class over buffers and pages, which refines `Drafts`.
  Whatever mix of built and known containers a plan asks for, the direct encoding of
  its value comes out, unless the calls put the header of a build flush with its page.
* **Reader, tracking, UTF-8.** The buffered reader as a cursor on a byte stream and
  `mpack_discard` (`Reading`), the nesting checker, which accepts exactly the
  flattenings of plans (`Tracking`), the writer with its checker, which may be called in
  any order (`TrackedWriting`), and the UTF-8 validator (`Utf8`).
* **Dispatch.** `RpcServer` puts the parser, the registry and the writer together:
  what a message makes the server do, over any run of registrations and messages.
* **Round trips through the code.** `EndToEnd` joins the writer and the tree parser:
  what is written is what is parsed, from given data and from a stream that arrives in
  any pieces and with any delays.

A class of the model keeps the fields of the C structure it stands for. Ghost fields
and `Valid()` tie them to the values the results are stated about.

## Where the code does less than it seems to

* **An overlooked build header.** A build header may end exactly at the end of its
  page (mpack.c:2506), but resolving skips a place that would (mpack.c:2643). With
  headers of at least 32 bytes, as on 64-bit machines, plans lose output if and only if
  some inner build call puts its header there (`Sites.MissesExactly`, which
  `Writing.Writer.WritePlans` is conditioned on); what fits the first page never does
  (`Sites.SmallRunSeen`). It happens with the default sizes: an array of a binary of
  4013 bytes and an empty array, both arrays left to the builder
  (`Sites.FlushCallsMiss`); the tag of the inner array is missing from the output then, and
  there is no error (`Writing.WriteFlushPlan`).
* **Builds of 2^32 and more items.** The count of a build wraps around, and neither the
  writer nor the nesting checker notices (`Plans.CountWraps`). What plans put out decodes
  to the values they mean if and only if no build is that large
  (`Plans.ReadsBackExactly`, `Tracking.TrackedRunEmits`).
* **Large maps.** The size of a node is computed with a 32-bit product, which is right
  exactly for maps of less than 2^31 entries (`TreeParser.NodeSizeExact`). At a larger one
  the parser goes on at a wrong place, where the model stops; otherwise within its limits
  given data is parsed exactly if it has none (`TreeParser.Tree.Parse`,
  `EndToEnd.LosesPlace`). Messages below 4 GiB, and pools of less than 2^32 nodes, leave no
  room for one (`ParseState.SmallIsNarrow`).
* **Limits of streams.** The byte limit is compared with all data in the buffer and the
  whole reservation of the next node, although part of the data may cover it
  (`TreeParser.Tree.ReserveFill`), so a message within the limit may be refused because of
  the way its bytes arrive. For a message of n bytes a limit of 2n - 2 is safe, and for the
  values of `EndToEnd.BytesRefused` no lower one is. The children of a container are added
  to the node count before their bytes are there, and again when parsing is resumed
  (`TreeParser.Tree.ParseChildren`), so a message within the node limit may be refused
  because the parser had to wait. For a message of n nodes, the bytes of which are
  interrupted w times, a limit of n + w(n - 1) is safe, and for the values of
  `EndToEnd.NodesRefused` no lower one is. With limits that are safe for each message all of
  them are delivered (`TreeParser.Tree.Poll`, `EndToEnd.Deliver`).
* **Dispatch.** The third element of a request must be there, but its type is not
  looked at. A registered function is called even when the tree has an error by then,
  with `[{}, name]` for instance (`RpcServer.CalledAfterError`,
  `RpcServer.Server.HandleCall`); for other names the error silently suppresses the reply
  (`RpcServer.SuppressedReply`). The error of the reply's writer is not looked at
  (`RpcServer.EncodeErrorReply`).

## Model

| member | source | states |
|---|---|---|
| Probing.ProbeStep | rpcserver/hash/khash.h:238 | adding the next step count, modulo the table size, visits the buckets at triangular distances from the hash |
| Probing.ProbesDistinct | rpcserver/hash/khash.h:233-239 | with a power-of-two size the first n buckets of a walk are pairwise distinct |
| Probing.ProbesCover | rpcserver/hash/khash.h:281 | every bucket is among the first n of a walk |
| Probing.FirstReturn | rpcserver/hash/khash.h:236-239 | a walk is back at its first bucket after 2n - 1 steps and not before |
| Probing.WalkEndsEarly | rpcserver/hash/khash.h:325-329 | a walk over occupied buckets ends within n steps while some bucket is free |
| BucketFlags.MarkDeletedField | rpcserver/hash/khash.h:171 | setting the deleted bit of a bucket leaves the other fifteen buckets of the word alone |
| BucketFlags.MarkNonEmptyField | rpcserver/hash/khash.h:169 | clearing the empty bit of an empty bucket makes it live and leaves the others alone |
| BucketFlags.MarkLiveField | rpcserver/hash/khash.h:170 | clearing both bits makes a bucket live and leaves the others alone |
| BucketFlags.ShiftsUp | rpcserver/hash/khash.h:165-171 | two bits a bucket, the first bucket at the bottom of its word |
| BucketFlags.PacksUpdate | rpcserver/hash/khash.h:165-173 | rewriting one field of one word changes the state of one bucket of the whole array |
| BucketFlags.FlagWords.constructor | rpcserver/hash/khash.h:253-255 | 0xaa bytes are an array of empty buckets |
| BucketFlags.FlagWords.IsEmpty | rpcserver/hash/khash.h:165 | the empty test reads the state of its bucket |
| BucketFlags.FlagWords.IsDel | rpcserver/hash/khash.h:166 | the deleted test reads the state of its bucket |
| BucketFlags.FlagWords.IsEither | rpcserver/hash/khash.h:167 | the test for either bit holds exactly for buckets that are not live |
| BucketFlags.FlagWords.SetIsDelTrue | rpcserver/hash/khash.h:171 | turns one live bucket into a tombstone |
| BucketFlags.FlagWords.SetIsEmptyFalse | rpcserver/hash/khash.h:169 | turns one empty bucket live |
| BucketFlags.FlagWords.SetIsBothFalse | rpcserver/hash/khash.h:170 | turns any bucket live |
| BucketFlags.KRoundUp32Least | rpcserver/hash/khash.h:176 | on machine words the shifting macro yields the least one-bit word not below its argument |
| BucketFlags.RoundUpLeast | rpcserver/hash/khash.h:249 | the size taken for a request is the least power of two not below it |
| BucketFlags.KRoundUp32Rounds | rpcserver/hash/khash.h:176 | for every machine word the macro yields the number that rounding up to a power of two does, up to 2^31, and zero for zero and above |
| Layout.FullStep | rpcserver/hash/khash.h:281 | a walk past an occupied bucket goes on inside the table while there is a free bucket |
| Layout.TakesOne | rpcserver/hash/khash.h:322-334 | the path of a hash has one first empty bucket, and one bucket that a new key takes: the last tombstone before it, or itself |
| Layout.NoTombstones | rpcserver/hash/khash.h:301 | where as many buckets are filled as are live there are no tombstones |
| Layout.PlaceNew | rpcserver/hash/khash.h:336-345 | a new key put into a free or deleted bucket of its path is found there and hides no other key |
| Layout.RemoveOld | rpcserver/hash/khash.h:351-353 | a tombstone removes its key and leaves every other key reachable |
| Layout.WalkOutcome | rpcserver/hash/khash.h:325-333 | where a walk ends tells whether the key is stored and where |
| Layout.WalkStays | rpcserver/hash/khash.h:239 | a walk that has met no free bucket and not its key is not back at its first bucket |
| Layout.AbsentAtEmpty | rpcserver/hash/khash.h:237-241 | a walk that ends at a free bucket proves the key absent, tombstones notwithstanding |
| Layout.LiveCount | rpcserver/hash/khash.h:339-344 | live buckets and stored keys are equally many |
| Rehashing.Start | rpcserver/hash/khash.h:256-269 | at the start of the rehash every entry is still at its old bucket |
| Rehashing.TakeUp | rpcserver/hash/khash.h:270-276 | taking up the entry of an old bucket keeps the split of the original map into remaining, placed and carried entries |
| Rehashing.RoomLeft | rpcserver/hash/khash.h:251-252 | while an entry is carried the new table has a free bucket |
| Rehashing.KickOut | rpcserver/hash/khash.h:282-286 | swapping the carried entry with the live old entry in its new bucket keeps the split, and the placed one is reachable on its new path |
| Rehashing.Settle | rpcserver/hash/khash.h:287-290 | putting the carried entry down keeps the split |
| Rehashing.Finish | rpcserver/hash/khash.h:294-304 | when no old bucket is live the placed entries are the original map |
| KHash.LoadLimits | rpcserver/hash/khash.h:192 | the load limit leaves a free bucket, and doubling makes room |
| KHash.UpperBoundNearest | rpcserver/hash/khash.h:192 | the load limit is the whole number nearest to 0.77 of the buckets, 6 of 8 for instance |
| KHash.TableSizeOfWord | rpcserver/hash/khash.h:249-250 | the size that resizing uses is what the macro yields for the requested word, or four |
| KHash.RequestHelps | rpcserver/hash/khash.h:310-317 | either resize that an insertion asks for brings the live entries below the new load limit |
| KHash.Table.constructor | rpcserver/hash/khash.h:212-214 | a new table is the empty map without buckets |
| KHash.Table.Get | rpcserver/hash/khash.h:230-243 | yields the bucket of a stored key with its value, and the bucket count exactly for keys that are not stored |
| KHash.Table.SizeIsCount | rpcserver/hash/khash.h:195-196 | the size field counts the entries of the map |
| KHash.Table.Del | rpcserver/hash/khash.h:349-355 | removes the key of a live bucket from the map and changes nothing for any other bucket number |
| KHash.Table.Clear | rpcserver/hash/khash.h:223-229 | empties the map and keeps the bucket count |
| KHash.Table.FindSlot | rpcserver/hash/khash.h:319-335 | finds the bucket of a stored key; for any other key the last tombstone of its path before the first empty bucket, or that bucket if there is none |
| KHash.Table.Claim | rpcserver/hash/khash.h:336-347 | claims the bucket; the result tells an existing key, a free and a deleted bucket apart |
| KHash.Table.FindVacant | rpcserver/hash/khash.h:278-281 | the unguarded walk over the new flags ends at the first free bucket of the path |
| KHash.Table.PlaceCarried | rpcserver/hash/khash.h:277-292 | one round of the kick-out keeps the split of the original map, and leaves fewer old entries if it goes on |
| KHash.Table.KickChain | rpcserver/hash/khash.h:270-293 | the kick-out process ends with nothing carried |
| KHash.Table.MoveAll | rpcserver/hash/khash.h:269-294 | after the loop over all old buckets the new flags hold exactly the original map and no tombstones |
| KHash.Table.Install | rpcserver/hash/khash.h:295-303 | taking over the new flags, and shrinking, keep the map |
| KHash.Table.Resize | rpcserver/hash/khash.h:244-306 | never changes the map; a request that is too small changes nothing, any other leaves no tombstones and the rounded size |
| KHash.Table.MakeRoom | rpcserver/hash/khash.h:310-318 | below the load limit afterwards, by cleaning or doubling, with the same map |
| KHash.Table.Put | rpcserver/hash/khash.h:307-348 | the key is in the map afterwards, at the bucket returned; nothing else changes, and a stored value stays; below the load limit a new key takes the last tombstone on its path, which is the third result, or the first empty bucket; a table at the limit is rebuilt and has no tombstone |
| KHash.Table.SetValue | rpcserver/hash/rpc_hash.cpp:11 | writing the value of a live bucket updates its key in the map |
| RpcHash.Hash.Set | rpcserver/hash/rpc_hash.cpp:7-12 | updates the map |
| RpcHash.Hash.Get | rpcserver/hash/rpc_hash.cpp:18-22 | looks up in the map |
| RpcHash.Hash.Has | rpcserver/hash/rpc_hash.cpp:28-34 | tells whether the map has the key |
| RpcHash.Hash.Del | rpcserver/hash/rpc_hash.cpp:40-44 | removes from the map, and ignores a missing key |
| RpcHash.Hash.Run | rpcserver/hash/rpc_hash.cpp:7-44 | over every run of operations, with all the resizing it causes, contents and answers are those of a finite map |
| MsgPack.LoadStore | rpcserver/mpack/mpack.h:2688-2786 | a big-endian number stored in k bytes is loaded back |
| MsgPack.LoadSplits | rpcserver/mpack/mpack.h:2688-2732 | the first bytes of a number are the most significant |
| MsgPack.LoadWide | rpcserver/mpack/mpack.h:2688-2732 | what the numbers of one, two, four and eight bytes are |
| MsgPack.DecodeSplit | rpcserver/mpack/mpack.c:5637-5670 | decoding a list of objects is decoding its parts one after the other |
| MsgPack.DecodeFlat | rpcserver/mpack/mpack.c:5114-5206 | a container is decoded by putting its children in front of what is still to be decoded |
| MsgPack.DecodeExtends | rpcserver/mpack/mpack.c:5815-5830 | bytes behind a complete object do not matter |
| MsgPack.DecodeWithin | rpcserver/mpack/mpack.c:5708-5731 | an object is decoded from its own bytes alone |
| MsgPack.DecodeShifts | rpcserver/mpack/mpack.c:5708-5731 | bytes before an object do not matter |
| MsgPack.DecodesWithoutDefect | rpcserver/mpack/mpack.c:5223-5598 | bytes decode exactly if nothing is wrong with them |
| MsgPack.DefectSplit | rpcserver/mpack/mpack.c:3702-3743 | what is wrong with objects behind others matters only if nothing is wrong with those |
| Encoding.CodeMeansTag | rpcserver/mpack/mpack.c:1870-1984 | what the writer puts for a tag is a defined header of the format with that meaning |
| Encoding.TagRoundTrip | rpcserver/mpack/mpack.c:2037-2108 | the decoder of headers reads back every tag at every width, signed non-negative numbers as unsigned |
| Encoding.TagMinimal | rpcserver/mpack/mpack.c:1825-1984 | no header that reads back as the same tag is shorter, signed numbers included |
| Encoding.RoundTrip | rpcserver/mpack/mpack.c:5223-5598 | decoding an encoded value anywhere in a buffer yields the value and stops at its end |
| Encoding.RoundTripAll | rpcserver/mpack/mpack.c:5223-5598 | the same for a list of values |
| Encoding.RoundTripPrefix | rpcserver/mpack/mpack.c:2162-2222 | the encoding of a value followed by arbitrary bytes decodes to the value |
| Encoding.EncodingInjective | rpcserver/mpack/mpack.c:1825-2120 | no encoding is a proper prefix of another, and only values that parsing cannot tell apart have equal encodings |
| Format.ShortHeaders | rpcserver/mpack/mpack.c:5223-5598 | what each type byte means that is a header by itself, and which bytes no message may have |
| Format.Headers1 | rpcserver/mpack/mpack.c:5223-5598 | the headers with a number of one byte |
| Format.Headers2 | rpcserver/mpack/mpack.c:5223-5598 | the headers with a number of two bytes |
| Format.Headers4 | rpcserver/mpack/mpack.c:5223-5598 | the headers with a number of four bytes |
| Format.Headers8 | rpcserver/mpack/mpack.c:5223-5598 | the headers with a number of eight bytes |
| Format.Defects | rpcserver/mpack/mpack.c:5565-5590 | bytes that are reserved, an extension or cut off, at the top and inside an array |
| Format.StoreWide | rpcserver/mpack/mpack.h:2733-2786 | the bytes of numbers, most significant first |
| Format.TagBytes | rpcserver/mpack/mpack.c:1583-1984 | the bytes written for every tag |
| Format.ValueBytes | rpcserver/mpack/mpack.c:1825-2120 | the bytes written for every value |
| ParseState.PendingAfter | rpcserver/mpack/mpack.c:5065-5112 | counting a child off its level and pushing its children puts those in front of the nodes still to be parsed |
| ParseState.TracksStep | rpcserver/mpack/mpack.c:5600-5630 | one node on, if it is no map of 2^31 entries, the flat run over the nodes still to be parsed gives the same message, end and number of nodes |
| ParseState.HugeInside | rpcserver/mpack/mpack.c:5613-5622 | a map of 2^31 entries and more where the next node is belongs to every message that begins so |
| ParseState.SmallIsNarrow | rpcserver/mpack/mpack.c:5613-5622 | objects with such a map take more than 2^32 bytes and are more than 2^32 |
| ParseState.TracksEnd | rpcserver/mpack/mpack.c:5664-5668 | with nothing left to parse the tree denotes the value of the recursive decoder, which has no map of 2^31 entries, and `size` is its length |
| ParseState.LaidStep | rpcserver/mpack/mpack.c:5142-5206 | new children are one range of fresh nodes, each with one parent |
| ParseState.NodeStep | rpcserver/mpack/mpack.c:5600-5653 | everything kept between two nodes, one node on |
| TreeParser.SwitchAgrees | rpcserver/mpack/mpack.c:5223-5598 | the parser's switch over the type byte and the reference agree on all 256 bytes |
| TreeParser.NodeSizeExact | rpcserver/mpack/mpack.c:5613-5622 | the size computed for a node is right exactly for maps of less than 2^31 entries |
| TreeParser.Tree.Pool | rpcserver/mpack/mpack.c:5884-5906 | a tree over given data and a node pool; an empty pool is a bug |
| TreeParser.Tree.Paged | rpcserver/mpack/mpack.c:5864-5882 | a tree over given data with nodes in pages |
| TreeParser.Tree.Streamed | rpcserver/mpack/mpack.c:5917-5932 | a tree over a read function with limits |
| TreeParser.Tree.ReserveFill | rpcserver/mpack/mpack.c:4929-5026 | bytes read are appended, each one room for one more node; if it waits the data is still short of the reservation and the read function has come to a place where it has nothing to give, the only one passed; it is too big exactly if data and reservation together exceed the limit |
| TreeParser.Tree.ReserveBytes | rpcserver/mpack/mpack.c:5028-5054 | without a read function succeeds exactly if the reservation is covered; with one it waits only while it is not |
| TreeParser.Tree.PushStack | rpcserver/mpack/mpack.c:5065-5112 | pushes a level, growing the stack |
| TreeParser.Tree.AllocateNodes | rpcserver/mpack/mpack.c:5142-5206 | gives nodes from the pool exactly if it has as many, or from pages |
| TreeParser.Tree.ParseChildren | rpcserver/mpack/mpack.c:5114-5207 | reserves a byte for every child and gives them one range of nodes, fails without room, and waits only while bytes are missing; the node count grows even then |
| TreeParser.Tree.ParseBytes | rpcserver/mpack/mpack.c:5209-5213 | the bytes of a string lie inside the data |
| TreeParser.Tree.ParseNodeContents | rpcserver/mpack/mpack.c:5223-5598 | parses what the reference sees as the next item; rejects early only what cannot succeed, a reserved byte as invalid and an extension byte as unsupported; waits only for an item that is not complete |
| TreeParser.Tree.ParseNode | rpcserver/mpack/mpack.c:5600-5653 | moves on and keeps the reservations; a call that waits for data leaves position, nodes and stack unchanged, and no complete message is there |
| TreeParser.Tree.MoveOn | rpcserver/mpack/mpack.c:5606-5630 | counts the node off its level and moves past it, unless it is a map of 2^31 entries or more |
| TreeParser.Tree.ContinueParsing | rpcserver/mpack/mpack.c:5637-5670 | terminates; without a read function succeeds exactly if the message is accepted; waits only while no complete message is there, and calls no stream invalid that could still become one |
| TreeParser.Tree.NodesWithinData | rpcserver/mpack/mpack.c:5028-5054 | the bytes free for nodes are those behind `size` less what the levels still need; allocated nodes never exceed the data |
| TreeParser.Tree.AcceptedHasRoom | rpcserver/mpack/mpack.c:5139-5141 | a message whose nodes stay within the limits has room at every node, so no early rejection loses it |
| TreeParser.Tree.CompleteIsReady | rpcserver/mpack/mpack.c:5028-5054 | when a complete message is in the buffer, every reservation made while parsing it is covered |
| TreeParser.MalformedSpoils | rpcserver/mpack/mpack.c:5223-5598 | a reserved or extension byte where the next node starts is the first thing wrong with every continuation |
| TreeParser.SpoiledIsHopeless | rpcserver/mpack/mpack.c:5223-5598 | then no continuation decodes |
| TreeParser.Tree.PoolLayout | rpcserver/mpack/mpack.c:5142-5206 | on success every node is parsed, every node but the root lies in the range of its parent, ranges lie behind their parents within the pool and are disjoint |
| TreeParser.Tree.AcceptedWhenComplete | rpcserver/mpack/mpack.c:5664-5668 | a complete parse is an accepted message and its tree denotes its value |
| TreeParser.Tree.NextMessage | rpcserver/mpack/mpack.c:5708-5731 | drops exactly the bytes of the parsed message |
| TreeParser.Tree.ParseStart | rpcserver/mpack/mpack.c:5693-5782 | starts with the root as the only node to parse; waits only for an empty buffer; what is left of given data follows the previous message |
| TreeParser.Tree.TryParse | rpcserver/mpack/mpack.c:5815-5830 | success means that the bytes up to `size` are one message and the tree denotes its value, however often parsing was resumed; given data, every message is parsed exactly if it is accepted; a stream waits only while no complete message is there and where the read function has nothing to give, is invalid (unsupported) only if a reserved (extension) byte is the first thing wrong with every continuation, and too big only if every message that begins so and has n bytes exceeds the byte limit with 2n - 2, or with the nodes counted twice the node limit |
| TreeParser.Tree.Parse | rpcserver/mpack/mpack.c:5784-5813 | given data, ends without error exactly if the next message decodes, its nodes fit, and no map in it has 2^31 entries, for every message in turn; if only the last fails the parser has lost its place; unsupported means that an extension byte is the first thing wrong |
| TreeParser.Tree.StreamInOrder | rpcserver/mpack/mpack.c:5708-5731 | messages parsed so far and the current one are the first objects of the whole stream |
| TreeParser.Tree.ExcessiveExceeds | rpcserver/mpack/mpack.c:4929-4945 | a reservation that is refused belongs to no message of n bytes with 2n - 2 within the byte limit and its nodes, those counted twice included, within the node limit |
| TreeParser.Tree.CallWaited | rpcserver/mpack/mpack.c:5114-5141 | after w calls that waited within a message, no node of it but the root was counted more than w times again |
| TreeParser.Tree.PollOnce | rpcserver/mpack/mpack.c:5815-5830 | one more call: a message comes out, or it waits at the next place where the read function has nothing to give, within the current message, or there is an error with a reason |
| TreeParser.Tree.Poll | rpcserver/mpack/mpack.c:5815-5830 | any number of calls over any chunking, and with any error at the end, yields the first objects of the stream, in order; every call yields a message or waits at a place of its own where the read function had nothing to give, those since the last message within the current one; when it ends waiting no complete message is left over; an error has its reason in the data, the read function, or the limits, for the node limit in the number of waits within the current message |
| Plans.EncodesContainer | rpcserver/mpack/mpack.c:2037-2069 | a container is encoded as its tag and its items, built or not |
| Plans.MeansWellFormed | rpcserver/mpack/mpack.h:3814-3818 | what a plan of admissible size means can be encoded |
| Plans.ProperEmits | rpcserver/mpack/mpack.c:2671-2708 | below the size limit of the format the bytes of a plan are the encoding of the value it means, built or not |
| Plans.ReadsBackExactly | rpcserver/mpack/mpack.c:1030-1046 | what plans put out decodes to the values they mean if and only if no build has 2^32 items or more |
| Plans.CountWraps | rpcserver/mpack/mpack.c:1030-1046 | a build of 2^32 nils is written as an empty array with everything left over |
| Drafts.CountsItems | rpcserver/mpack/mpack.c:1030-1046 | counting elements, a map's by pairs, gives the number of items modulo 2^32 |
| Drafts.KnownGrows | rpcserver/mpack/mpack.h:3725-3747 | a known container inside a build counts as one element, whatever is in it |
| Drafts.BuiltCounts | rpcserver/mpack/mpack.c:2671-2708 | when its items are written a build can be completed and its record has their number modulo 2^32 |
| Drafts.BuiltGrows | rpcserver/mpack/mpack.c:2671-2708 | a completed build counts as one element of the build around it, with its tag in front of everything written in it |
| Drafts.PlanRuns | rpcserver/mpack/mpack.h:3800-3838 | the calls of any plan are allowed and add its bytes, as one element |
| Drafts.BuiltAsDirect | rpcserver/mpack/mpack.h:3814-3818 | with nothing being built before, plans emit their bytes one after the other; `Plans.ProperEmits` says that they are the direct encodings |
| BuildPages.Align | rpcserver/mpack/mpack.c:2367-2373 | the least multiple of the alignment that is not below |
| BuildPages.CollectStable | rpcserver/mpack/mpack.c:2406-2424 | later writes and pages change nothing that was stored |
| BuildPages.CollectMore | rpcserver/mpack/mpack.c:2426-2441 | bytes written now are collected behind those written before, across page ends |
| BuildPages.StoredWrite | rpcserver/mpack/mpack.c:2426-2441 | bytes written belong to the latest build |
| BuildPages.StoredPage | rpcserver/mpack/mpack.c:2443-2448 | leaving a page with less than the minimum room loses nothing |
| BuildPages.StoredHeader | rpcserver/mpack/mpack.c:2502-2522 | a new header goes behind all others and disturbs none |
| BuildPages.OverlooksFlush | rpcserver/mpack/mpack.c:2641-2654 | exactly which headers resolving does not find |
| BuildPages.OverlooksOnlyFlush | rpcserver/mpack/mpack.c:2643 | with headers of the minimum buffer size these are the ones that end flush with their page |
| BuildPages.SeenUnlessFlush | rpcserver/mpack/mpack.c:2506 | all headers are found exactly if none ends flush with its page |
| BuildPages.ResolvesAll | rpcserver/mpack/mpack.c:2588-2667 | if no header is overlooked the walk emits every tag and all bytes in order |
| BuildPages.ResolvesShort | rpcserver/mpack/mpack.c:2588-2667 | if one is, the walk reads a header where there is none or emits less |
| BuildPages.ResolvesCut | rpcserver/mpack/mpack.c:2588-2667 | if a header is looked for where no bytes are, exactly the builds before it come out |
| BuildPages.ResolvesExactly | rpcserver/mpack/mpack.c:2552-2669 | the output is complete exactly if no header is overlooked |
| BuildPages.SeenOnOnePage | rpcserver/mpack/mpack.c:2641-2654 | nothing is overlooked while everything stays on a first page that is not full |
| Sites.StepTenable | rpcserver/mpack/mpack.c:2484-2549 | every call leads from a place the writer can be at to another |
| Sites.DefaultHeaders | rpcserver/mpack/mpack.c:2484-2549 | with the default sizes, in numbers: where headers go, and which are hidden |
| Sites.DefaultBytes | rpcserver/mpack/mpack.c:1411-1443 | with the default sizes, in numbers: where tags and raw bytes go |
| Sites.HidesFlush | rpcserver/mpack/mpack.c:2502-2522 | a further header is hidden exactly if it is put flush with its page, or one before it was |
| Sites.FlawedExactly | rpcserver/mpack/mpack.c:2641-2654 | after any run of calls a header is or was hidden exactly if some call put one flush with its page |
| Sites.PlansDepth | rpcserver/mpack/mpack.c:2671-2708 | plans complete what they build, wherever they start |
| Sites.MissesExactly | rpcserver/mpack/mpack.c:2641-2654 | plans overlook a header if and only if some inner build call puts its header flush with its page |
| Sites.SmallRunSeen | rpcserver/mpack/mpack.c:2484-2549 | a run that fits the first page, with a header's room to spare, overlooks nothing |
| Sites.FlushPlanCalls | rpcserver/mpack/mpack.h:3800-3838 | the calls of an array of a long binary and an empty array, both left to the builder |
| Sites.FlushCallsMiss | rpcserver/mpack/mpack.c:2641-2654 | with the default sizes and 4013 bytes these calls overlook the inner header, which lies at 4064 to 4096, and lead to the place after it |
| Writing.Writer.Fixed | rpcserver/mpack/mpack.c:1078-1091 | nothing is out |
| Writing.Writer.Growable | rpcserver/mpack/mpack.c:1230-1254 | nothing is out |
| Writing.Writer.ApplyWrites | rpcserver/mpack/mpack.c:2426-2441 | accounts for the bytes written since the last time |
| Writing.Writer.AddPage | rpcserver/mpack/mpack.c:2406-2421 | a fresh page behind the others |
| Writing.Writer.BuilderFlush | rpcserver/mpack/mpack.c:2443-2448 | room on a new page, and the same meaning |
| Writing.Writer.GrowFlush | rpcserver/mpack/mpack.c:1130-1191 | the buffer grows enough and keeps its bytes, extra data goes behind them, and the flush at teardown does nothing |
| Writing.Writer.Ensure | rpcserver/mpack/mpack.c:1368-1405 | makes room without changing the meaning; fails with TooBig exactly for a full fixed buffer |
| Writing.Writer.SpreadOverPages | rpcserver/mpack/mpack.c:1424-1443 | long writes are spread over as many pages as it takes, in order, and end where `Sites` says |
| Writing.Writer.WriteStraddling | rpcserver/mpack/mpack.c:1411-1471 | appends, or TooBig if a fixed buffer cannot hold the bytes |
| Writing.Writer.WriteNative | rpcserver/mpack/mpack.c:1474-1483 | appends, or TooBig if a fixed buffer cannot hold the bytes |
| Writing.Writer.WriteEncoded | rpcserver/mpack/mpack.c:1818-1823 | the same for a tag |
| Writing.Writer.TrackElement | rpcserver/mpack/mpack.c:1021-1047 | one more element for the open build |
| Writing.Writer.WriteScalar | rpcserver/mpack/mpack.c:1870-2005 | appends the tag of a scalar and counts it |
| Writing.Writer.WriteStr | rpcserver/mpack/mpack.c:2162-2215 | appends tag and bytes of a string, combined or not, and counts it |
| Writing.Writer.StartBytes | rpcserver/mpack/mpack.c:2110-2120 | appends the tag of a string or binary |
| Writing.Writer.WriteBytes | rpcserver/mpack/mpack.c:2233-2237 | appends raw bytes |
| Writing.Writer.StartCompound | rpcserver/mpack/mpack.c:2057-2069 | appends the tag of a known container, counts it, and stops counting inside |
| Writing.Writer.FinishCompound | rpcserver/mpack/mpack.h:3736-3762 | counting resumes |
| Writing.Writer.FindRoom | rpcserver/mpack/mpack.c:2502-2513 | aligned room for a header in this page or on a new one |
| Writing.Writer.OpenBuild | rpcserver/mpack/mpack.c:2484-2549 | opens a build: one element of the one around it, writes go behind its header, which is put where `Sites` says; nothing happens after an error |
| Writing.Writer.CopyOut | rpcserver/mpack/mpack.c:2617-2639 | copies the bytes behind a header from page to page |
| Writing.Writer.Walk | rpcserver/mpack/mpack.c:2588-2667 | writes what the walk over the headers yields |
| Writing.Writer.Resolve | rpcserver/mpack/mpack.c:2552-2669 | if no header is overlooked everything built is appended to the caller's buffer or the error is TooBig; otherwise less comes out, namely what the walk over the pages yields, unless that takes a place for a header that holds none |
| Writing.Writer.CutResolution | rpcserver/mpack/mpack.c:2641-2654 | if the header behind the first build is looked for where no bytes are, only the first build comes out |
| Writing.Writer.CompleteBuild | rpcserver/mpack/mpack.c:2671-2708 | completes the open build, for an outermost one by resolving, with exactly what that yields; a key without value or an unfinished container is a bug and changes nothing |
| Writing.Writer.Do | rpcserver/mpack/mpack.h:3800-3838 | each call means what the draft says and leads to the place it leads to on paper |
| Writing.Writer.Execute | rpcserver/mpack/mpack.h:3800-3838 | any allowed run of calls means what the draft says if the calls overlook no header; otherwise less comes out than should |
| Writing.Writer.WritePlans | rpcserver/mpack/mpack.h:3814-3818 | the calls decide whether a header is overlooked: if not, plans append their bytes, which below 2^32 items are the encodings of their values, and with a fixed buffer the error stays Ok exactly if they fit; if so, they do not |
| Writing.WriteFlushPlan | rpcserver/mpack/mpack.c:2641-2654 | a growable writer with the default sizes puts out an array of 4013 bytes and an empty array, both left to the builder, without the tag of the empty array, and reports no error |
| Writing.Writer.Destroy | rpcserver/mpack/mpack.c:1193-1228 | hands over exactly the bytes written; for a fixed buffer, in the middle of a build too, there is nothing to do |
| Tracking.Track.Grow | rpcserver/mpack/mpack.c:597-611 | doubles the capacity and keeps the elements |
| Tracking.Track.Pop | rpcserver/mpack/mpack.c:654-694 | pops exactly an exhausted element of the right kind |
| Tracking.Track.TrackElement | rpcserver/mpack/mpack.c:704-747 | counts an element, or refuses one that is out of place |
| Tracking.Track.TrackBytes | rpcserver/mpack/mpack.c:749-780 | counts bytes of the open string, or refuses them |
| Tracking.Track.Check | rpcserver/mpack/mpack.c:994-1027 | each call has the verdict of the stack function, and a refused call changes nothing |
| Tracking.LeftNeverUnderflows | rpcserver/mpack/mpack.c:729-747 | the count of what is left goes down by one or stays, also for a map whose value is pending |
| Tracking.TakenApart | rpcserver/mpack/mpack.c:597-808 | every accepted run is complete plans followed by the open levels the stack describes |
| Tracking.PlanAccepted | rpcserver/mpack/mpack.c:704-747 | where an element may be written, any plan may |
| Tracking.AcceptsExactlyPlans | rpcserver/mpack/mpack.c:597-808 | a run is accepted with nothing left open exactly if it is the flattening of plans |
| Tracking.AcceptsExactlyBeginnings | rpcserver/mpack/mpack.c:597-808 | a call is refused exactly if no plans begin with the calls so far |
| Tracking.AcceptedIsAllowed | rpcserver/mpack/mpack.c:597-808 | what is accepted, with whatever left open, is allowed by the writer |
| Tracking.TrackedRunEmits | rpcserver/mpack/mpack.c:802-820 | such a run is allowed by the writer and emits the bytes of plans, which decode to the values meant if and only if no build has 2^32 items or more |
| TrackedWriting.CheckAndDo | rpcserver/mpack/mpack.c:994-1027 | a call is checked first: if it is refused there is an error, otherwise checker and writer go on side by side |
| TrackedWriting.WriteTracked | rpcserver/mpack/mpack.c:802-820 | any calls in any order: a refused one is an error; if none is and nothing is left open they are the calls of plans, whose bytes the writer appends unless a header is overlooked, with a fixed buffer exactly if they fit, and which decode to the values meant if and only if no build has 2^32 items or more |
| Utf8.ReadIsEncoded | rpcserver/mpack/mpack.c:838-905 | a sequence that passes the checks is the encoding of a scalar value: not overlong, no surrogate, in range |
| Utf8.EncodedIsRead | rpcserver/mpack/mpack.c:838-905 | the encoding of every scalar value passes the checks |
| Utf8.DecodingUnique | rpcserver/mpack/mpack.c:822-910 | the scalar values are determined by the bytes |
| Utf8.KnownEncodings | rpcserver/mpack/mpack.c:838-905 | an encoding of each length in literal bytes |
| Utf8.Check | rpcserver/mpack/mpack.c:822-918 | accepts exactly the encodings of sequences of scalar values as in section 4 of RFC 3629, without U+0000 in the variant that forbids it |
| Reading.CasesAgree | rpcserver/mpack/mpack.c:3292-3642 | the reader's decoder of headers and the reference agree on every input |
| Reading.Reader.Data | rpcserver/mpack/mpack.c:2768-2781 | everything given is left to read |
| Reading.Reader.Filled | rpcserver/mpack/mpack.c:2743-2801 | what is in the buffer and the stream is left to read; a buffer of less than 32 bytes is a bug |
| Reading.Reader.FillRange | rpcserver/mpack/mpack.c:2937-2959 | loops over short fills until there are enough bytes, taken in order, or the stream ends |
| Reading.Reader.Ensure | rpcserver/mpack/mpack.h:5222-5232 | succeeds exactly if there are enough bytes and the buffer can hold them, consuming none |
| Reading.Reader.EnsureStraddle | rpcserver/mpack/mpack.c:2961-3001 | moves what is left to the front and fills behind it |
| Reading.Reader.ReadNative | rpcserver/mpack/mpack.h:5236-5245 | delivers exactly the next bytes and touches nothing around them; without enough of them the error depends on there being a fill function, and without one, or after an error, zeros are delivered |
| Reading.Reader.ReadStraddling | rpcserver/mpack/mpack.c:3005-3073 | the same across the end of the buffer, by either of its two ways |
| Reading.Reader.SkipBytes | rpcserver/mpack/mpack.c:3106-3122 | drops exactly the next bytes |
| Reading.Reader.SkipStraddling | rpcserver/mpack/mpack.c:3075-3104 | the same with the skip function or by filling |
| Reading.Reader.SkipUsingFill | rpcserver/mpack/mpack.c:3124-3150 | the same by filling and discarding |
| Reading.Reader.ParseTag | rpcserver/mpack/mpack.c:3292-3642 | sees the header of the reference, and fails on a reserved, extension or truncated one with its own error |
| Reading.Reader.ReadTag | rpcserver/mpack/mpack.c:3644-3685 | and moves past it, or fails with the same error |
| Reading.Reader.Discard | rpcserver/mpack/mpack.c:3702-3743 | terminates; succeeds exactly if a complete object starts here, and moves past exactly the length the tree parser reports; otherwise the error is the one for the first thing wrong with the object |
| Reading.Reader.Consume | rpcserver/mpack/mpack.c:2937-3150 | any run of reads, skips and ensures delivers the bytes of the stream in order, whatever the buffer size and the short fills; the first operation without enough bytes, or that wants more at once than the buffer holds, ends it with the error for that |
| Nodes.Root | rpcserver/mpack/mpack.c:5838-5853 | the root of a parsed tree, the nil node after an error |
| Nodes.ArrayAt | rpcserver/mpack/mpack.c:7192-7207 | the node of the i-th element, or nil and the error that fits |
| Nodes.LookedUpUnique | rpcserver/mpack/mpack.c:6656-6674 | a key that no other key equals is looked up to its value |
| Nodes.LookedUpMeans | rpcserver/mpack/mpack.c:6656-6674 | a key is absent if no pair has it, found twice if two pairs have it, and unique with the value of the only pair that has it |
| Nodes.MapStr | rpcserver/mpack/mpack.c:6643-6675 | finds a key that occurs once, and takes a second occurrence for an error |
| Nodes.MapCstr | rpcserver/mpack/mpack.c:6677-6722 | a missing key is an error too |
| Nodes.CheckNoNull | rpcserver/mpack/mpack.c:920-926 | finds a zero byte |
| Nodes.CopyCstr | rpcserver/mpack/mpack.c:6400-6432 | copies a string that fits and has no zero byte, else leaves an empty string and sets the error that fits |
| RpcServer.Server.RegisterMethod | rpcserver/rpcserver.cpp:236-243 | updates the registry |
| RpcServer.Server.GetCallfunc | rpcserver/rpcserver.cpp:245-249 | the registered function, or null |
| RpcServer.EncodeErrorReply | rpcserver/rpcserver.cpp:104-126 | the buffer holds the encoding of ERROR with cause and server name exactly if it is long enough |
| RpcServer.ErrorSeen | rpcserver/rpcserver.cpp:104-126 | no header of the reply is overlooked while cause and name have no more than 3907 bytes |
| RpcServer.ErrorSize | rpcserver/rpcserver.cpp:133-134 | its exact size, which for short causes and names is far below 256 |
| RpcServer.ReplyBytes | rpcserver/rpcserver.cpp:104-126 | the bytes of a reply, one by one |
| RpcServer.Server.GetRequestId | rpcserver/rpcserver.cpp:148-162 | copies the request id and reports its length, zero if there is no unique one |
| RpcServer.Server.SendErrorReply | rpcserver/rpcserver.cpp:128-146 | one reply under the request id, none after an error of the tree |
| RpcServer.Server.HandleCall | rpcserver/rpcserver.cpp:186-197 | a registered function is called whether or not the tree has an error by then, which it has exactly without a name that can be copied or a third element |
| RpcServer.Server.MsgHandler | rpcserver/rpcserver.cpp:164-197 | what a message makes the server do, for every byte sequence |
| RpcServer.Server.Serve | rpcserver/rpcserver.cpp:205-243 | the log over any run of registrations and messages |
| RpcServer.AtMostOneEvent | rpcserver/rpcserver.cpp:191-196 | no message causes more than one call or reply |
| RpcServer.IgnoredMessages | rpcserver/rpcserver.cpp:172-184 | a message that does not decode, has more than 128 nodes, or is no array with a map in front causes nothing |
| RpcServer.NamedIsCalled | rpcserver/rpcserver.cpp:186-193 | any other message is handed to the function that it names, if that is registered, whatever else is in it |
| RpcServer.NamelessMessage | rpcserver/rpcserver.cpp:186-196 | without a name that can be copied the empty name is looked up, and there is no reply |
| RpcServer.UnregisteredIsAnswered | rpcserver/rpcserver.cpp:128-146 | with a name that is not registered and a third element there is a reply exactly if there is a topic, of which at most 128 bytes are sent |
| RpcServer.TopicOf | rpcserver/rpcserver.cpp:148-162 | the topic of a reply for every kind of value that the only request id may be |
| RpcServer.NoTopicOf | rpcserver/rpcserver.cpp:148-162 | there is none without a request id, or with two |
| RpcServer.RegisteredIsCalled | rpcserver/rpcserver.cpp:191-193 | a request for a registered function is handed to it, and to nothing else |
| RpcServer.CalledAfterError | rpcserver/rpcserver.cpp:186-193 | the message `[{}, name]` is no request, and is handed to a function registered under the name |
| RpcServer.UnregisteredGetsReply | rpcserver/rpcserver.cpp:194-196 | a request for a function that is not registered gets one reply: its topic is the request id, it has less than 256 bytes, which are stated one by one, and decodes to the cause |
| RpcServer.SuppressedReply | rpcserver/rpcserver.cpp:140-142 | the reply to a message with a topic, for a function that is not registered, is suppressed exactly without a name that can be copied or a third element |
| RpcServer.EventsPerMessage | rpcserver/rpcserver.cpp:205-234 | over any run there are at most as many events as messages |
| RpcServer.ServedInOrder | rpcserver/rpcserver.cpp:205-234 | each message adds its own events, decided by the registrations before it |
| RpcServer.EncodedRequest | rpcserver/rpcserver.cpp:199-204 | a request that a client encodes, with any arguments that fit the pool, is one to the server |
| RpcServer.RequestBytes | rpcserver/rpcserver.cpp:199-204 | the bytes of a short request, one by one |
| EndToEnd.NodesWithinBytes | rpcserver/mpack/mpack.c:1825-2120 | a value has no more objects than its encoding has bytes |
| EndToEnd.ParseEncoded | rpcserver/mpack/mpack.c:5784-5813 | an encoded value with anything behind it is parsed from given data exactly if its nodes fit the pool and no map in it has 2^31 entries, and the tree denotes it |
| EndToEnd.ParsePaged | rpcserver/mpack/mpack.c:5864-5882 | with nodes in pages only the second matters |
| EndToEnd.LosesPlace | rpcserver/mpack/mpack.c:5613-5622 | in a map of 2^31 nils and more, which decodes, the parser loses its place |
| EndToEnd.WriteThenParse | rpcserver/mpack/mpack.h:3814-3818 | what a growable writer put out for any plan, built or not, is parsed to the value meant exactly if its nodes fit and no map has 2^31 entries, unless a header was put flush with its page |
| EndToEnd.DecodedUpTo | rpcserver/mpack/mpack.c:5708-5731 | the first k of encoded values are decoded up to the next one |
| EndToEnd.WithinAdds | rpcserver/mpack/mpack.c:5815-5830 | interruptions are counted one by one |
| EndToEnd.Undelivered | rpcserver/mpack/mpack.c:4929-4945 | a parser that stopped before all values came out was refused one for which the limits are not ample, given how often its own bytes were interrupted |
| EndToEnd.Deliver | rpcserver/mpack/mpack.c:5815-5830 | encoded values that arrive in any pieces come out in order and unchanged; all of them do if the read function does not fail, the limits are ample for each value with its own interruptions, and there are more calls than values and delays |
| EndToEnd.FlatKinds | rpcserver/mpack/mpack.c:4942-4945 | strings, binaries and arrays of nils take what their tag announces, which the next result is about |
| EndToEnd.BytesRefused | rpcserver/mpack/mpack.c:4942-4945 | every string and binary that fits the first buffer, and every container of single bytes, is refused under every limit from its n bytes up to 2n - 3 if the last byte arrives later |
| EndToEnd.NodesRefused | rpcserver/mpack/mpack.c:5128-5137 | a short array of nils is refused under every limit from its n nodes to n + w(n - 1) - 1 if the parser has to wait w times for the nils |

## Left out

- Allocation: malloc and realloc always succeed, and sizes stay within `size_t`; the error for lack of memory does not occur.
- Hash functions: keys are hashed by an arbitrary function and compared as values; the lifetime of the key strings a table points to is not modelled.
- KHash.Table.Resize: does not model requests above 2^31, where the rounding macro yields zero; masking with the bucket count less one is written as a remainder.
- KHash.LoadLimits: takes n * 0.77 + 0.5 in exact arithmetic; for powers of two from 4 on it is never near an integer.
- TreeParser.Tree.Paged: node pages are nodes in the order of their allocation; the arithmetic of the page allocator is not modelled.
- TreeParser.Tree.MoveOn: what is read after a map of 2^31 entries and more, at a wrong place or behind the data, has no defined result; the model stops and sets `Undefined`.
- TreeParser.Tree.TryParse: the limits of a stream are not exact in the code; the contract says which messages they cannot refuse, and for the others when they do only for those of `EndToEnd.BytesRefused` and `EndToEnd.NodesRefused`.
- Writing.Writer.Growable: custom flush functions, error callbacks and files are not modelled, only no flush function and the growing one.
- Writing.Writer.Destroy: a growable writer in the middle of a build is not modelled; it would take a place inside a page for the buffer, so callers have to complete what they build first.
- Writing.Writer.Walk: taking a place for a header that holds none has no defined result; the model stops and sets `lost`.
- Writing.Writer.CompoundPush: the depth of known containers inside a build is unbounded instead of 32 bits.
- BuildPages.SeenUnlessFlush: needs headers of at least 32 bytes, as on 64-bit machines; for smaller ones `BuildPages.OverlooksFlush` names the second way a header is overlooked.
- Tracking.Track.Check: the checker is compiled in for debugging only, and is a class beside the writer here, not a field of it.
- Reading.Reader.Fill: a fill function returns bytes in any portions until there are none; one that reports an error of its own is not modelled.
- Reading.Reader.Skip: a skip function drops exactly the bytes asked for or reports an error.
- RpcServer.Server.SendReply: the sockets are a log; bytes behind the topic buffer, which are sent when a request id is too long or no string, are not in it.
- RpcServer.Server.GetRequestId: the size field of a scalar node is never written, so its value is a parameter.
- RpcServer.Server.constructor: names of 32 and more characters, which would not be terminated, are not modelled.
- RpcServer.Server.MsgHandler: what a registered function does is outside the model.
- Extension types, timestamps, compatibility modes, size-optimised code and internal builder storage are compiled out by default.
- Floats are carried as raw words; nothing is computed with them.
- The Expect API, most node getters, printing, stdio, and everything under rpc/ and newrpc/ are single range checks, input and output, or older copies.
