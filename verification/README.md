# Telling: a verified model of its hard parts

Telling is a message broker. Services register under a URI; clients send
HTTP-like requests, replies and reports, and the broker routes each one to the
service with the longest matching URI. This project models the four parts of
the broker that are hard to get right, and proves what they promise.

**The routing index.** The routing table is a HAT-trie: a trie whose leaves are
array-hash tables that burst into trie nodes when they fill. The model goes from
the bytes of a bucket up to whole runs of the trie.

- `ArrayBucket`: a bucket is a byte buffer of packed entries.
- `GrowthPolicy`: bucket counts are powers of two, picked with bit tricks.
- `TableContent`, `TableCursor`, `TableRehash`, `ArrayHash`: the hash table, with
  its side vector of values, lazy compaction, rehashing and iteration.
- `TrieShape`, `TrieOrder`, `TrieNodes`, `HTrie`: the trie, lookup and insertion.
  Nodes have addresses, and the tree is a map from addresses to nodes.
- `TrieRefusal`: exactly which keys an insertion refuses with a length error.
- `TrieWalk`, `TrieErase`: iterators, erasing and pruning.
- `TrieRun`: any sequence of operations answers as a finite map does.
- `TrieLimit`: a trie that refuses a short key.

**The message codec.** `MsgText`, `MsgTables`, `MsgLayout`, `MsgHeaders` and
`MsgWriter` model the parser and the writer. The theorems about them are in these
modules, and in `Uri` for the cutting of URIs into segments.

- `MsgAccept`: which messages are accepted, as what, and which error the others
  meet, told from line breaks, words and lengths.
- `MsgLayoutSound`: the offsets of an accepted message.
- `MsgVerdict`: which headers count, what their values are, and when a message is
  complete.
- `MsgSections`, `MsgRoundTrip`: what the writer writes is read back.
- `MsgRelease`, `MsgOutcome`: whole runs of the writer and how each one ends.

**The asynchronous protocols.** `SendQueue`, `ReplyProtocol`, `ReplyBox`,
`RequestPool`, `RequestBox`, `RequestFuture` and `LifeLock` are step relations over
any number of threads. A block under a mutex is one step, and so is one atomic
access; the completion of an operation is a step of the environment. What a run
comes to is told from its events alone: `RequestFate` says how a request ends,
and `RequestResult` what its promise is set to.

**The service registry.** `Registry` is the protocol of registrations,
disconnects and the management thread over the routing table and its two work
queues. `RegistryNotes` tells from the events of a run which URI a pipe holds,
which services have a route, and what is published. `Services` has the registry's own methods, whose table is the verified
trie, proves that they go through every run as the protocol does, and looks
routes up in that trie.

`Slices` and `Options` are small helpers.

## Where the code does not do what one might expect

- A reply whose reason is the name of a protocol is released by the writer and
  read back as a request; if more words follow the name, the writer refuses the
  start line: `MsgRoundTrip.Misread`, `MsgRelease.MisreadOutcome`,
  `MsgRelease.MisreadExample`. `MsgRoundTrip.RoundTrip` is an equivalence. A
  reader that says it expects a reply is not misled: `MsgRoundTrip.RoundTripAs`.
- A start line with extra spaces, or a status that is not three characters long,
  folds characters into a neighbouring field: `MsgLayoutSound.FieldsExact` says
  exactly when the fields are the words of the line, and
  `MsgLayoutSound.BadlySpacedExample` gives a line where they are not.
- An empty start line passes as a report and is then of no kind:
  `MsgLayoutSound.KindRecomputed`, `MsgLayoutSound.EmptyLineExample`.
- A later Content-Length field of the caller overrides the one the writer fills
  in: `MsgRelease.ReleasedComplete` gives the verdict for every list of fields,
  and `MsgRelease.OverrideExample` a message that is released incomplete.
- Whether a message without a length is complete depends on the protocol it is
  read back with, which a reply can name in its reason:
  `MsgRoundTrip.ProtocolRead`, `MsgRelease.IncompleteExample`.
- A send that does not succeed, or the turn of an empty message, leaves the queue
  busy with nobody sending, for ever: `SendQueue.StuckIff`,
  `SendQueue.StuckForever`, `SendQueue.StuckExample`, `SendQueue.EmptyExample`.
  Without either this cannot happen: `SendQueue.NeverStuck`.
- A request with an empty message leaves its entry in the box, and the next
  request finds it: `RequestBox.StaleIff`, `RequestBox.StaleExample`.
- The future that a call of `request` returns is that of its own request only if
  nothing gets between the two halves of the call: `RequestFuture.FutureIff` has
  the exact condition. A request that ends early makes the call throw although its
  promise is set, and the call can even get the future of another request:
  `RequestFuture.LateExample`, `RequestFuture.StolenExample`.
- A route does not always go with the pipe that registered it. It stays exactly if
  the pipe holds another URI then, or none: `RegistryNotes.OutlivesIff`,
  `RegistryNotes.OrphanExample`, `RegistryNotes.SecondOutlives`.
- A response with an empty message closes the query with nothing sent, and the
  query stays noted as unresponded: `ReplyBox.ClosingIff`,
  `ReplyBox.SilentStays`, `ReplyBox.SilentExample`.
- A burst threshold above 65535 lets a leaf fill up all value indices; inserting a
  new key there is then a length error. A load factor close to zero makes a burst
  fail. `HTrie.Trie.Insert` has the exact condition, `TrieLimit.RefusedExample` a
  trie that meets it, and `TrieRefusal.NeverRefused` the settings that never do.
- A registration whose URI has more than 65534 bytes is a length error of the
  routing table. The management thread does not catch it, so it ends the process
  and the registration is never answered: `Registry.EndedIff`,
  `Registry.EndedExample`, `Services.CanEndIff`. Without such a URI it cannot
  happen: `Registry.NeverEnds`.

## Model

| member | source | states |
|---|---|---|
| ArrayBucket.HoldsUnique | thirdparty/include/tsl/array-hash/array_hash.h:711-721 | a buffer decodes to at most one list of entries, because no key size equals the end marker |
| ArrayBucket.HoldsEntry | thirdparty/include/tsl/array-hash/array_hash.h:271-277 | reading at the offset of an entry finds its size, key and index, and the next entry right behind it |
| ArrayBucket.FindOrEnd | thirdparty/include/tsl/array-hash/array_hash.h:437-449 | the first entry with the key, or the end marker exactly if no entry has it |
| ArrayBucket.Append | thirdparty/include/tsl/array-hash/array_hash.h:458-500 | the buffer then holds one more entry at the end, in a block of exactly the size needed, for a missing block too |
| ArrayBucket.EraseAt | thirdparty/include/tsl/array-hash/array_hash.h:502-529 | moving the rest down removes exactly that entry; the block is freed exactly if it was the last; the same position is the next entry unless it was the last in order |
| ArrayBucket.Reserve | thirdparty/include/tsl/array-hash/array_hash.h:370-383 | an empty bucket with room for the size and the marker, or no block for size zero |
| ArrayBucket.AppendReserved | thirdparty/include/tsl/array-hash/array_hash.h:555-565 | one more entry in a block of the same length, given that it fits |
| ArrayBucket.SetIndex | thirdparty/include/tsl/array-hash/array_hash.h:324-328 | only the value index of one entry changes |
| GrowthPolicy.MaskIsRemainder | thirdparty/include/tsl/array-hash/array_growth_policy.h:76-78 | masking a hash with a power of two less one is the remainder |
| GrowthPolicy.BucketInRange | thirdparty/include/tsl/array-hash/array_growth_policy.h:72-78 | every hash selects a bucket below the bucket count, and bucket zero if there are none |
| GrowthPolicy.PowerOfTwoIff | thirdparty/include/tsl/array-hash/array_growth_policy.h:121-123 | the bit trick recognises exactly the powers of two |
| GrowthPolicy.RoundUpToPowerOfTwo | thirdparty/include/tsl/array-hash/array_growth_policy.h:104-119 | smearing bits gives the least power of two that is not below the value |
| GrowthPolicy.NewPolicy | thirdparty/include/tsl/array-hash/array_growth_policy.h:58-70 | a length error exactly above the largest count, else the rounded count and its mask; zero stays zero |
| GrowthPolicy.RoundedFits | thirdparty/include/tsl/array-hash/array_hash.h:938-949 | a rounded bucket count fits the vector of buckets exactly if the wanted count is at most 2^59 |
| GrowthPolicy.GrowthIsExact | thirdparty/include/tsl/array-hash/array_growth_policy.h:83-89 | the next bucket count is four times the old one and needs no rounding |
| TableContent.MapsCompacted | thirdparty/include/tsl/array-hash/array_hash.h:1440-1467 | renumbering the entries and gathering the live values changes no pair of the map |
| TableCursor.Next | thirdparty/include/tsl/array-hash/array_hash.h:885-902 | from the entry of one rank to that of the next, over empty buckets, or to the end |
| TableCursor.Renumber | thirdparty/include/tsl/array-hash/array_hash.h:1457-1463 | every entry gets its own rank as index, in place, and the blocks keep their sizes |
| TableCursor.Gather | thirdparty/include/tsl/array-hash/array_hash.h:1450-1455 | the values of the entries in iteration order |
| TableRehash.RoutedSizeExact | thirdparty/include/tsl/array-hash/array_hash.h:1546-1558 | the room computed for a new bucket is the packed size of the entries that go there |
| TableRehash.Measure | thirdparty/include/tsl/array-hash/array_hash.h:1546-1558 | the new bucket of every entry, and the room each new bucket needs |
| TableRehash.MoveAll | thirdparty/include/tsl/array-hash/array_hash.h:1560-1572 | every entry is appended to its reserved bucket without a check, and each block ends up exactly full |
| TableRehash.MovedLists | thirdparty/include/tsl/array-hash/array_hash.h:1566-1572 | moving the entries to new buckets loses none and repeats none |
| ArrayHash.Table.Find | thirdparty/include/tsl/array-hash/array_hash.h:1266-1275 | a position of the key exactly if the map has it, else the end |
| ArrayHash.Table.Value | thirdparty/include/tsl/array-hash/array_hash.h:867-871 | the value the map has for the key under the position |
| ArrayHash.Table.OrderLists | thirdparty/include/tsl/array-hash/array_hash.h:1013-1022 | iteration lists every key of the map exactly once, and the counter is their number |
| ArrayHash.Table.Compact | thirdparty/include/tsl/array-hash/array_hash.h:1440-1467 | the map and the order of keys stay, and no erased value is left |
| ArrayHash.Table.Rehash | thirdparty/include/tsl/array-hash/array_hash.h:1535-1583 | the map stays, the bucket count becomes the rounded one; a length error exactly if that exceeds the growth policy's or the vector's largest size, and then map, order and bucket count stay |
| ArrayHash.Table.Redistribute | thirdparty/include/tsl/array-hash/array_hash.h:1546-1583 | every key is in the bucket its hash selects in the new table, and every block fits its entries exactly |
| ArrayHash.GrowthFits | thirdparty/include/tsl/array-hash/array_hash.h:1472-1479 | growing on high load never meets the length error of the growth policy or of the vector of buckets |
| ArrayHash.Table.GrowOnHighLoad | thirdparty/include/tsl/array-hash/array_hash.h:1472-1479 | growing on high load keeps the map, and there are buckets afterwards either way |
| ArrayHash.Table.Emplace | thirdparty/include/tsl/array-hash/array_hash.h:1081-1100 | a new key is added with its value, an existing one keeps its value and is reported; a length error exactly if the key is new and too long or all indices are taken, and then the map stays; for a new key the buckets grow fourfold exactly if the load threshold is reached |
| ArrayHash.Table.EraseAt | thirdparty/include/tsl/array-hash/array_hash.h:1113-1119 | exactly the pair under the position goes, the order of the others stays, and the next position comes back |
| ArrayHash.Table.EraseFromBucket | thirdparty/include/tsl/array-hash/array_hash.h:1394-1414 | the same without the compaction before it |
| ArrayHash.Table.Erase | thirdparty/include/tsl/array-hash/array_hash.h:1155-1171 | the key goes, and the count says whether it was there |
| ArrayHash.Table.Clear | thirdparty/include/tsl/array-hash/array_hash.h:1070-1078 | the map is empty and the bucket count stays |
| TrieShape.PathUnique | thirdparty/include/tsl/htrie_hash.h:182-183 | with consistent parent and child links, no two nodes lie at the end of the same path |
| TrieShape.OwnerBelow | thirdparty/include/tsl/htrie_hash.h:1490-1515 | a stored key that continues the path of a node is in that node or below it: in it for a leaf or at the key's end, else below the child for the next character |
| TrieShape.BurstRepresents | thirdparty/include/tsl/htrie_hash.h:1374-1396 | replacing a leaf by the trie node of its burst keeps all links and the stored map |
| TrieShape.LiftedKeeps | thirdparty/include/tsl/htrie_hash.h:1465-1481 | hanging an empty node in place of its parent keeps all links and the stored map |
| TrieShape.DroppedKeeps | thirdparty/include/tsl/htrie_hash.h:1459-1460 | taking an empty node off its parent keeps all links and the stored map |
| HTrie.Trie.Find | thirdparty/include/tsl/htrie_hash.h:1490-1525 | the end exactly if the key is not stored, else an iterator that stands on it |
| HTrie.Trie.LongestPrefix | thirdparty/include/tsl/htrie_hash.h:1534-1589 | an iterator on the longest stored prefix, and the end exactly if no prefix is stored |
| HTrie.Trie.ValueOf | thirdparty/include/tsl/htrie_hash.h:637-646 | the value the map has for the key under the iterator |
| HTrie.Trie.PutInHashNode | thirdparty/include/tsl/htrie_hash.h:1397-1404 | the key is added to the leaf, or found there; a length error exactly if it is new and the leaf's table is full or the rest of the key too long |
| HTrie.Trie.HangLeaf | thirdparty/include/tsl/htrie_hash.h:1337-1350 | a new leaf for a character without child, with the new key in it |
| HTrie.Trie.SetValue | thirdparty/include/tsl/htrie_hash.h:1359-1369 | the value of a trie node, kept and reported if there is one |
| HTrie.Trie.FirstCharCount | thirdparty/include/tsl/htrie_hash.h:1775-1788 | how many keys of a table start with each character |
| HTrie.Trie.BurstTable | thirdparty/include/tsl/htrie_hash.h:1665-1692 | the keys of a table by first character: the empty key as value, the others without their first character in the child's table; it fails exactly if the keys of one character need a table with too many buckets |
| HTrie.Trie.AttachBurst | thirdparty/include/tsl/htrie_hash.h:1378-1396 | the bursting leaf gives way to the new trie node, at the same path, as root too; no node is empty or too full and the map stays |
| HTrie.Trie.BurstLeaf | thirdparty/include/tsl/htrie_hash.h:1378-1396 | the two together: the leaf bursts with the map unchanged, or stays as it is exactly if a new table would be too big |
| HTrie.Trie.InsertInHashNode | thirdparty/include/tsl/htrie_hash.h:1374-1405 | a full leaf bursts first and the insertion goes on below; the chain of bursts ends |
| HTrie.Trie.InsertFrom | thirdparty/include/tsl/htrie_hash.h:1325-1372 | down the trie to where the key belongs, keeping the tree in order |
| HTrie.Trie.Insert | thirdparty/include/tsl/htrie_hash.h:996-1009 | the map with the key added, or as it was with the existing key reported; a length error exactly if the key is too long or the leaf on its way refuses it, there or after bursting, and then the map stays |
| TrieRefusal.RefusalAtLeaf | thirdparty/include/tsl/htrie_hash.h:1374-1405 | whether a key is refused depends only on the one leaf on its way |
| TrieRefusal.BurstRefusal | thirdparty/include/tsl/htrie_hash.h:1374-1396 | after the burst of that leaf, it depends on the child for the next character and the rest of the key |
| TrieRefusal.StartingCount | thirdparty/include/tsl/htrie_hash.h:1775-1788 | the tally for a character is the number of keys in the map that start with it |
| TrieRefusal.NeverRefused | thirdparty/include/tsl/htrie_hash.h:2046-2047 | with a threshold of at most 65535 and a load factor of at least 0.1, as by default, no leaf refuses a key |
| TrieOrder.AfterSibling | thirdparty/include/tsl/htrie_hash.h:782-801 | after the subtree of a child, in walking order, comes the first key of its next sibling |
| TrieOrder.EndOfParent | thirdparty/include/tsl/htrie_hash.h:787-793 | a child without a next sibling ends the subtree of its parent |
| TrieWalk.SetMostLeft | thirdparty/include/tsl/htrie_hash.h:803-818 | the first key of a subtree, in walking order |
| TrieWalk.SetNextAscending | thirdparty/include/tsl/htrie_hash.h:782-801 | the first key after a subtree, and the end exactly after the last |
| TrieWalk.Next | thirdparty/include/tsl/htrie_hash.h:661-693 | the position right after the given one: before it are the given one and those before that; the end after the last |
| TrieWalk.KeyOf | thirdparty/include/tsl/htrie_hash.h:607-627 | the key rebuilt from parent links and table is the key of the position |
| TrieWalk.First | thirdparty/include/tsl/htrie_hash.h:920-931 | a position nothing comes before; the end only if the map is empty |
| TrieWalk.Walk | thirdparty/include/tsl/htrie_hash.h:661-693 | iterating from begin to end visits every stored key exactly once |
| TrieWalk.RootIff | thirdparty/include/tsl/htrie_hash.h:1447-1482 | in every valid trie there is a root exactly if something is stored |
| TrieErase.ClearEmptyNodes | thirdparty/include/tsl/htrie_hash.h:1447-1482 | the empty node and every ancestor left empty go, the root exactly if nothing is stored; the map stays, and nodes that store keys stay where they are; the climb ends |
| TrieErase.Erase | thirdparty/include/tsl/htrie_hash.h:1407-1440 | exactly the key under the iterator goes, and the iterator returned stands on its successor, even when ancestors are pruned; no root is left exactly if nothing is stored |
| TrieErase.EraseByKey | thirdparty/include/tsl/htrie_hash.h:1023-1031 | the key goes, and the count says whether it was there |
| TrieErase.Clear | thirdparty/include/tsl/htrie_hash.h:990-993 | the map is empty and there is no root |
| TrieRun.Step | thirdparty/include/tsl/htrie_hash.h:990-1031 | one operation answers as the finite map does and leaves what the map becomes, with any threshold and load factor; an insertion is refused exactly in the stated case and then leaves the map |
| TrieRun.Run | thirdparty/include/tsl/htrie_hash.h:990-1201 | every sequence of operations on an empty trie gives, one by one, the answers of a finite map on which refused insertions did nothing; with a threshold of at most 65535 and a load factor of at least 0.1 these are the answers of the plain map |
| TrieRun.NeverRefusedAnswers | thirdparty/include/tsl/htrie_hash.h:990-1201 | a run without refusals gives the answers of the plain finite map |
| TrieRun.NoRefusal | thirdparty/include/tsl/htrie_hash.h:1374-1405 | no trie with such settings refuses a key that is not too long |
| TrieLimit.RefusedExample | thirdparty/include/tsl/array-hash/array_hash.h:1481-1497 | a trie with threshold 65536 and one leaf of 65535 keys, which refuses a further key of two characters |
| MsgText.ConsumeLine | include/telling/msg_util.h:187-199 | the line up to the first line break, and the place behind it; CR LF counts as one |
| MsgTables.ParseMethodInverts | include/telling/msg_method.h:180-240 | a text parses as a valid method exactly if it is the method's name |
| MsgTables.ParseProtocolInverts | include/telling/msg_protocol.h:56-87 | a text parses as a valid protocol exactly if it is the protocol's name |
| MsgTables.StatusRoundTrip | include/telling/msg_status.h:58-84 | a status code survives printing and parsing exactly if it is in 0..999 |
| MsgLayout.PartsIff | src/telling/msg_view.cpp:158-183 | the parts of the start line are the one way to cut it at its first three spaces |
| MsgLayout.SplitStartLine | src/telling/msg_view.cpp:158-183 | the splitting loop finds these parts |
| MsgLayout.ParseMsg | src/telling/msg_view.cpp:113-224 | the scan gives the layout or the error of the parse, which MsgAccept.AcceptedIff tells from the text of the message |
| MsgAccept.AcceptedIff | src/telling/msg_view.cpp:7-224 | a message is accepted exactly if it has an empty line within 65535 bytes, its start line ends in LF or CR LF, and its words are in number and length what the kind allows, and its offsets are then those of the words; else which of the three errors it meets, an incomplete head included |
| MsgAccept.ReadAsIff | src/telling/msg_view.cpp:186-220 | every line is read as one kind, told from the number of its words, the protocol words and the slash |
| MsgAccept.FieldsOfAccepted | include/telling/msg_layout.h:49-70 | the fields of every accepted message are what its words say, missing and shifted words included |
| MsgAccept.EveryMessage | src/telling/msg_view.cpp:113-224 | every message has one start line, one way to cut it into words and one kind |
| MsgAccept.SmallestAccepted | test/main.cpp:158-164 | the seven smallest messages are accepted as what they are, with the kind given and without |
| MsgLayoutSound.LayoutSound | src/telling/msg_view.cpp:7-110 | an accepted message with a non-empty start line has a sound layout: nothing is narrowed away, no range underflows, fields are in order and apart, the sections tile the message, and the kind recomputed is the kind parsed as |
| MsgLayoutSound.FieldsExact | include/telling/msg_layout.h:57-70 | the fields read from the offsets are the words of the line exactly if the line is well spaced |
| MsgLayoutSound.BadlySpacedExample | src/telling/msg_view.cpp:177-183 | a request line that ends in a space is accepted and its URI includes the space |
| MsgLayoutSound.KindRecomputed | include/telling/msg_layout.h:49-55 | the kind recomputed from the offsets is the one parsed as exactly if the start line is not empty |
| MsgLayoutSound.EmptyLineExample | src/telling/msg_view.cpp:195-220 | an empty start line is accepted as a report, is of no kind then, and is refused when the kind is to be guessed |
| MsgHeaders.ParseHeader | include/telling/msg_headers.h:84-122 | the name up to the colon and the value trimmed of spaces and tabs |
| MsgHeaders.HeaderIterator.Advance | include/telling/msg_headers.h:43-73 | the next header of the section, up to the empty line |
| MsgHeaders.CompletionScan | src/telling/msg_view.cpp:228-266 | the loop gives the verdict on a view of a message, which MsgVerdict.VerdictIff tells from its headers, its protocol word and its body |
| MsgHeaders.LastLengthDecides | src/telling/msg_view.cpp:232-238 | of several length headers the last one counts |
| MsgVerdict.NamedIff | src/telling/msg_util.cpp:53-59 | header names are the same exactly up to the case of ASCII letters |
| MsgVerdict.HeadersAreLines | include/telling/msg_headers.h:43-122 | the headers of a section are its lines in order, each with the name up to its first colon and the value without the blanks around it |
| MsgVerdict.HeadersOfAccepted | include/telling/msg_view.h:134-142 | the headers of every accepted message are the lines between its start line and its first empty line, in order, whichever line breaks they have |
| MsgVerdict.ValueRead | src/telling/msg_util.cpp:61-68 | a value that begins with a signed decimal number is that number if 64 bits hold it, else the given default |
| MsgVerdict.ValueMissing | src/telling/msg_util.cpp:61-68 | any other value is the given default |
| MsgVerdict.VerdictIff | src/telling/msg_view.cpp:228-266 | the whole verdict on every message: whether a length and chunking are announced, which length counts, when the message is complete, and the length of the body where none is announced |
| MsgVerdict.CaseDoesNotMatter | src/telling/msg_view.cpp:228-266 | two messages that differ only in the case of letters in header names are parsed alike and get the same verdict |
| MsgVerdict.SmallLettersExample | src/telling/msg_view.cpp:232-239 | a length header in small letters counts |
| MsgVerdict.StatusIsDecimal | include/telling/msg_status.h:58-84 | a status is the decimal number of its three digits, and a code is printed as its digits, or not as digits outside 1..999 |
| MsgWriter.CountDigits | src/telling/msg_writer.cpp:12-17 | the number of decimal digits |
| MsgWriter.CheckOpening | src/telling/msg_writer.cpp:71-115 | a start line is accepted exactly with a valid method, a URI without whitespace and a reason without line breaks |
| MsgWriter.Writer.Start | src/telling/msg_writer.cpp:71-115 | the start line is written, or the error that stops it |
| MsgWriter.Writer.WriteHeader | src/telling/msg_writer.cpp:118-130 | one more header line, refused with a line break or a colon in its name |
| MsgWriter.Writer.WriteHeaderLength | src/telling/msg_writer.cpp:189-205 | a length header with blanks for the size, noted where they are |
| MsgWriter.Writer.CloseHeaders | src/telling/msg_writer.cpp:49-61 | the empty line is written and what was written is parsed |
| MsgWriter.Writer.Release | src/telling/msg_writer.cpp:133-155 | the message with its length filled in, or the error that stops it |
| MsgRoundTrip.RoundTrip | src/telling/msg_writer.cpp:49-130 | parsing a released message gives back kind, method, URI, protocol, status code, reason, headers and body exactly if the head and the reason fit their offsets, the status code is in 0..999 and a reply's reason does not start with a protocol name |
| MsgRoundTrip.RoundTripAs | include/telling/msg_view.h:144-172 | parsing a released message as the kind that was written, as the broker does, gives everything back exactly if the head and the reason fit their offsets and the status code is in 0..999, ambiguous replies included |
| MsgRoundTrip.Misread | src/telling/msg_view.cpp:195-220 | a reply whose reason starts with a protocol name is taken for a request, with the protocol as method and the status as URI; it parses exactly if its head fits and the reason is just that name, else its start line is malformed |
| MsgRoundTrip.ProtocolRead | include/telling/msg_view.h:74 | the protocol read back is the one written, or for a reply taken for a request the one its reason names |
| MsgRelease.OnlyBlanksChange | src/telling/msg_writer.cpp:138-150 | filling in the length changes only the blanks reserved for it |
| MsgRelease.BackPatch | src/telling/msg_writer.cpp:133-155 | after filling in, the layout, the other headers and the body read as before, and the length header reads as the size of the body |
| MsgRelease.ReleasedComplete | src/telling/msg_view.cpp:228-250 | a released message is judged by the last length header among the fields written: complete exactly if the body has that many bytes, always if it is the one filled in; without one, exactly if the protocol read back is not HTTP and nothing is chunked |
| MsgRelease.Compose | src/telling/msg_writer.cpp:42-155 | a whole run of the writer: every error at the step that meets it, else exactly the released message |
| MsgOutcome.OutcomeIs | src/telling/msg_writer.cpp:42-155 | how a run of the writer ends for every start line, list of fields and body, told from texts and lengths: which error comes first, or the message |
| MsgOutcome.FieldErrorIff | src/telling/msg_writer.cpp:118-130 | writing the fields fails exactly if one is refused or is a second length, with the error of the first such field |
| MsgOutcome.HeaderAcceptedIff | src/telling/msg_writer.cpp:118-130 | a header is refused exactly if its line would be read as several lines or under another name |
| MsgOutcome.OpeningAcceptedIff | src/telling/msg_writer.cpp:71-115 | a start line is refused exactly with an unknown method, a line break anywhere, or a blank in its URI |
| MsgOutcome.RoomIff | src/telling/msg_writer.cpp:138-150 | the reserved blanks suffice exactly for bodies whose size has no more digits than the size announced, and so for every smaller body |
| MsgRelease.MisreadOutcome | src/telling/msg_writer.cpp:42-155 | for such a reply the run releases a message that reads back as a request, or ends in the error of the step that stops it; a malformed start line exactly if words follow the name |
| MsgRelease.MisreadExample | src/telling/msg_writer.cpp:87-99 | a reply with a protocol name as reason that is released and reads back as a request |
| MsgRelease.IncompleteExample | src/telling/msg_view.cpp:257-261 | a reply written in a protocol that is not HTTP, with HTTP as reason, is released and judged incomplete |
| MsgRelease.OverrideExample | src/telling/msg_view.cpp:232-238 | a length header behind the reserved one makes a released message incomplete |
| Uri.UriText.PopFront | include/telling/msg_uri.h:56-68 | exactly the first segment is removed and returned |
| Uri.UriText.PopBack | include/telling/msg_uri.h:69-82 | exactly the last segment is removed and returned |
| Uri.RunPops | include/telling/msg_uri.h:56-82 | any mix of pops acts on a URI as on the list of its non-empty segments |
| Uri.FrontPops | include/telling/msg_uri.h:63-68 | popping only from the front lists the segments in order |
| Uri.BackPops | include/telling/msg_uri.h:77-82 | popping only from the back lists them in reverse |
| SendQueue.SendQueueMtx.Produce | include/telling/io_queue.h:80-95 | the message is queued exactly if somebody is sending, else the caller becomes the sender |
| SendQueue.SendQueueMtx.Consume | include/telling/io_queue.h:101-113 | the oldest message leaves, or the sending ends |
| SendQueue.FirstInFirstOut | include/telling/async_loop.h:132-174 | in every interleaving, messages handed over, then held, then queued are the non-empty messages in the order produced, and at most one operation is in hand or in flight |
| SendQueue.SentInOrder | include/telling/async_loop.h:132-174 | in every run the i-th operation started, or completed, is for the i-th non-empty message that was sent, and the others are held or queued in order |
| SendQueue.StuckIff | include/telling/async_loop.h:132-174 | the queue is busy with nobody sending exactly if some completion did not succeed or an empty message was taken; a busy queue is so exactly if no step but a further message is possible; a queued message else has its one sender |
| SendQueue.StuckForever | include/telling/async_loop.h:252-268 | a queue that is stuck stays so, and nothing is handed over any more |
| SendQueue.SomethingEnabled | include/telling/async_loop.h:252-268 | without a failed completion and an empty message taken, some step brings a message on as long as one is not done |
| SendQueue.NeverStuck | include/telling/async_loop.h:252-268 | with messages that are not empty and completions that succeed the queue is never stuck, and a queued message has its one sender |
| SendQueue.EmptyExample | include/telling/async_loop.h:259-268 | an empty message on an idle queue leaves the next message waiting, with no completion at all |
| SendQueue.Drains | include/telling/async_loop.h:132-174 | from every run that is not stuck, the sender's own steps complete every message before the first empty one; then the queue is idle, or stuck there |
| SendQueue.AllSent | include/telling/async_queue.h:33-43 | from every run with messages that are not empty and completions that succeed, every message can be completed and the queue is idle |
| ReplyProtocol.OnePlace | src/telling/service_reply.cpp:46-178 | in every run each received query is in exactly one place: unresponded, claimed, leaving or finished |
| ReplyProtocol.OneUse | src/telling/service_reply.cpp:46-178 | no context is used in two places at once, the armed receive included |
| ReplyProtocol.AnsweredOnce | src/telling/service_reply.cpp:105-147 | each query is answered at most once, on the context it came on, however many responders claim it |
| ReplyProtocol.ReceivedAsArmed | src/telling/service_reply.cpp:46-103 | in every run each query is received on the context armed last, and after a query or a failed receive none is armed until the next |
| ReplyProtocol.SentAsClaimed | src/telling/service_reply.cpp:105-178 | in every run each response that leaves is one that a claim made, query and message together, each once and in the order of the outbox |
| ReplyProtocol.OutRun | src/telling/service_reply.cpp:130-178 | the outbox goes through a run of the send queue in which no message is empty |
| ReplyProtocol.OutboxStuckIff | src/telling/service_reply.cpp:149-178 | the outbox is stuck exactly if some response did not get out; else what waits has its one sender |
| ReplyBox.QueryBox.Receive | src/telling/service_reply.cpp:229-247 | the oldest query and its message, refused while one is open or when not ready; ReplyBox.ReceiveGives tells which message that is |
| ReplyBox.QueryBox.Respond | src/telling/service_reply.cpp:249-266 | an empty message closes the open query with nothing sent; another one claims it, puts the response into the outbox and closes it; refused when none is open or the query is not outstanding, and then it stays open |
| ReplyBox.QueryBox.RespondTo | src/telling/service_reply.cpp:105-147 | nothing for an empty message; else the note of the context goes and the response is produced into the outbox, or the error that nothing is outstanding |
| ReplyBox.Alternates | src/telling/service_reply.cpp:189-266 | in every interleaving with the operations below, the i-th query given out and the i-th one closed is the i-th one received on the socket, and at most one is open |
| ReplyBox.ReceiveGives | src/telling/service_reply.cpp:202-247 | in every run the next message that receive returns is that of the first arrival not given out yet, and the query it opens is the one that came with it; else it returns nothing and changes nothing |
| ReplyBox.GivenInOrder | src/telling/service_reply.cpp:202-247 | in every run the i-th query given out comes with the message of the i-th arrival |
| ReplyBox.CallEnds | src/telling/service_reply.cpp:229-266 | in every run, how a call of receive or respond ends, told from the numbers of queries delivered, given out and closed |
| ReplyBox.ClosedAsTold | src/telling/service_reply.cpp:249-266 | in every run the i-th query is closed by the i-th call of respond that went through, with its message |
| ReplyBox.ClosingIff | src/telling/service_reply.cpp:105-147 | in every interleaving each closing comes from one call of respond, made when this query was open, and a response to the query gets to the outbox exactly if the message of that call was not empty |
| ReplyBox.RespondsInOrder | src/telling/service_reply.cpp:105-178 | in every interleaving the outbox gets and hands on the non-empty responses in the order of the queries, each on its query's context |
| ReplyBox.NeverOutstanding | src/telling/service_reply.cpp:121-127 | a call of respond never meets the error that no query is outstanding |
| ReplyBox.SilentStays | src/telling/service_reply.cpp:119-127 | a query closed with an empty message stays noted as unresponded, and its context is not used again |
| ReplyBox.ReplyRun | src/telling/service_reply.cpp:46-178 | under the box the communicator goes through a run of its own protocol |
| ReplyBox.SilentExample | src/telling/service_reply.cpp:104-119 | a run in which a query is received and closed with an empty message, with nothing in the outbox |
| RequestPool.PoolPartition | src/telling/client_request.cpp:87-218 | active and idle actions partition the pool, and an action is active exactly while it sends or receives |
| RequestPool.PoolBound | src/telling/client_request.cpp:96-129 | the pool never exceeds the most requests ever outstanding and one being prepared |
| RequestPool.ReportedOnce | src/telling/client_request.cpp:132-218 | with a live handler each request that is over was reported exactly once, and no request more often |
| RequestFate.EndsBecause | src/telling/client_request.cpp:132-218 | in every run a request is reported received exactly if its send and then its receive completed with success, the callback of the send ending between them; failed exactly if a completion failed; lost exactly if the handler was gone at one; over exactly when the callback of that completion has ended |
| RequestFate.ReceivesAfterSend | src/telling/client_request.cpp:196-217 | in every run an action receives exactly between the end of the callback of its successful send and the end of the next one, and sends exactly before |
| RequestFate.SentIsNotReceived | src/telling/client_request.cpp:158-165 | a completed send is not reported as the end of its request, the completed receive is |
| RequestPool.MsgStats | src/telling/client_request.cpp:32-46 | the numbers of active actions that send and that receive, together all active ones |
| RequestBox.SetOnce | src/telling/client_request.cpp:268-294 | no promise is set twice |
| RequestBox.EndSetsOwn | src/telling/client_request.cpp:259-294 | the i-th end reported, of some request, sets the promise that this request made or found, and no two requests share a promise |
| RequestResult.PromiseGets | src/telling/client_request.cpp:132-294 | in every run the promise of a request is set to a result exactly if its completions come to that: the message of the second one, or the error of the first that failed and whether the request had been sent |
| RequestFuture.FutureIff | src/telling/client_request.cpp:245-311 | in every run a call of request returns the future of its own request exactly if no other request came in between, no other call took it, and the request has not ended |
| RequestFuture.LateExample | src/telling/client_request.cpp:245-257 | a request that fails before its call asks for the future: the promise is set and the call throws |
| RequestFuture.StolenExample | src/telling/client_request.cpp:245-257 | a call that gets the future of another request, whose own call then throws |
| RequestBox.StaleIff | src/telling/client_request.cpp:259-267 | a new request finds an entry under its number exactly if the request before it was declined |
| RequestBox.StaleExample | src/telling/client_request.cpp:259-267 | after one declined request the next one finds its entry |
| LifeLock.ReturnsLast | thirdparty/include/life_lock.hpp:178-189 | destroy returns only when the last shared pointer is gone and the deleter is through, also after an earlier retire whose reference is still held |
| LifeLock.NoLockAfter | thirdparty/include/life_lock.hpp:143-144 | once the count is zero no weak pointer can be locked any more |
| LifeLock.StatusForward | thirdparty/include/life_lock.hpp:203-212 | the status word only goes from working over retired and expired to empty, never back |
| LifeLock.WaitIsValid | thirdparty/include/life_lock.hpp:273-306 | while destroy waits, or the lock is retired early, the status is retired or expired, and retired exactly until the last holder's deleter has run |
| LifeLock.DeletedOnce | thirdparty/include/life_lock.hpp:203-212 | the deleter stores its mark at most once |
| LifeLock.HoldersCounted | thirdparty/include/life_lock.hpp:143-189 | in every run the holders are the weak pointers locked in time and the reference handed out, less releases, and a weak pointer can be locked exactly while there is a reference |
| LifeLock.DeletedLast | thirdparty/include/life_lock.hpp:178-212 | in every run the deleter runs exactly after the own reference and every holder are gone, and destroy returns only after it |
| LifeLock.EnterIff | thirdparty/include/life_lock.hpp:166-189 | a destroy after an earlier retire goes on at once exactly if the object has been deleted |
| LifeLock.Progresses | thirdparty/include/life_lock.hpp:273-306 | with no holders left, the deleter and one more look let destroy return |
| LifeLock.EarlyExample | thirdparty/include/life_lock.hpp:166-189 | destroy after an earlier retire waits for the reference that retire returned |
| Registry.OnePlace | src/telling/server_services.cpp:147-285 | in every interleaving each route made is in exactly one of table, close queue, deleted and lost, where lost are those that failed dialing or met the length error |
| Registry.NeverDeleted | include/telling/server.h:338-342 | no route in the table is deleted, lost or waiting to be closed |
| Registry.ReportsAlternate | src/telling/server_services.cpp:187-283 | the reports on every URI strictly alternate, created first, and end with created exactly while the service is announced |
| Registry.AnsweredInOrder | src/telling/server_services.cpp:118-285 | registrations are answered once each, in the order they were queued, without gap exactly as long as the thread has not ended; then the one whose URI ended it has no answer |
| Registry.AnswerIff | src/telling/server_services.cpp:205-283 | in every run each answer was given in one step, to the first registration in the queue: 409 exactly if the URI was in the table then, 200 exactly if it was not and dialing worked, and never 200 for a URI that is too long |
| Registry.AcceptedIsCreated | src/telling/server_services.cpp:269-280 | in every run a service is reported as created as often as its registrations were answered with 200 |
| RegistryNotes.TakenInOrder | src/telling/server_services.cpp:118-285 | in every run the queue holds the registrations not taken yet, in order, and the i-th answer is to the i-th one |
| RegistryNotes.NotedIff | src/telling/server_services.cpp:118-260 | in every run the URI noted for a pipe is that of its earliest registration not since forgotten by a disconnect, a 409 or a 503, and none is noted exactly if there is none |
| RegistryNotes.RoutedIff | src/telling/server_services.cpp:133-283 | in every run a service has a route exactly if it was answered with 200 and no pipe that held it was lost since |
| RegistryNotes.LossOfPipe | src/telling/server_services.cpp:133-175 | in every run, after the loss of a pipe the service it held has no route; its route, if there was one, is last in the close queue, all others stay and a waiting thread is notified |
| RegistryNotes.LossOfOther | src/telling/server_services.cpp:150-158 | in every run the loss of a pipe that holds nothing changes nothing |
| RegistryNotes.OutlivesIff | src/telling/server_services.cpp:147-175 | in every run a route outlives the loss of a pipe exactly if the pipe does not hold its service |
| RegistryNotes.LossExample | src/telling/server_services.cpp:164-170 | a service that is enrolled and then lost: its route waits to be closed and the thread is notified |
| RegistryNotes.OrphanExample | src/telling/server_services.cpp:147-175 | a pipe that goes while its registration is queued leaves a route that no pipe holds |
| RegistryNotes.SecondOutlives | src/telling/server_services.cpp:121-175 | of two services that a pipe has enrolled, the second outlives it |
| RegistryNotes.PublishedInOrder | src/telling/server_services.cpp:187-283 | in every run services are published as gone in the order they lost their routes, and as created in the order of the answers with 200 |
| RegistryNotes.DeletedAre | src/telling/server_services.cpp:187-201 | in every run the routes deleted are exactly those taken from the close queue |
| Registry.EndedIff | src/telling/server_services.cpp:236-248 | the thread has ended exactly if the last step took a URI above 65534 bytes whose route could be made, and exactly then no step is possible |
| Registry.NeverEnds | src/telling/server_services.cpp:236-248 | in a run whose registrations all have at most 65534 bytes the thread never ends |
| Registry.EndedExample | src/telling/server_services.cpp:236-248 | a registration with 65535 bytes ends the thread, unanswered and with its route lost |
| Registry.NoLostWakeUp | src/telling/server_services.cpp:164-171 | a management thread that waits without a notification has empty work queues, and every registration answered |
| Services.Registrar.Register | src/telling/server_services.cpp:118-130 | the URI is noted for the pipe unless one is noted already, the registration is queued last and the thread notified |
| Services.Registrar.PipeGone | src/telling/server_services.cpp:133-175 | the pipe is forgotten, and a route under its URI moves from the trie to the close queue; nothing happens for an unknown pipe |
| Services.Registrar.TakeRoute | src/telling/server_services.cpp:164-170 | the route under a URI, if any, is returned and erased from the trie at its position |
| Services.Registrar.Establish | src/telling/server_services.cpp:211-253 | the trie gets the route exactly if the URI is new and short enough and the route can be made and dialed, else it is as before |
| Services.Registrar.OpenRoute | src/telling/server_services.cpp:205-281 | one registration on the trie does what the step of the protocol does, the length error included |
| Services.Registrar.Manage | src/telling/server_services.cpp:178-285 | one pass of the management loop: every route of the close queue is reported gone and deleted, then every registration is answered in turn, up to a URI that is too long |
| Services.Registrar.Do | src/telling/server_services.cpp:118-285 | the registrar makes every step that the protocol allows, with the same effect |
| Services.RunAll | src/telling/server_services.cpp:118-285 | the registrar goes through every run of the protocol, with the trie holding the protocol's table |
| Services.Registrar.RouteFor | include/telling/server.h:338-342 | in every run the route found in that trie is the one of the longest prefix that is enrolled by the events of the run, in the table, and neither deleted, lost nor waiting to be closed; none exactly if no prefix is enrolled |
| Services.RoundIsRun | src/telling/server_services.cpp:178-285 | such a pass, after any run, is a run of the protocol's steps, and leaves both work queues empty unless it ends the thread |
| Services.CanEndIff | src/telling/server_services.cpp:236-248 | after any run the thread can still be ended without a further URI that is too long exactly if one is in the queue |
| Services.Route | include/telling/server.h:338-342 | the route of the longest registered prefix, and none exactly if no prefix is registered |
| Services.RoutePush | include/telling/server.h:261-295 | not found exactly if no prefix is registered, else OK exactly if sending to the route of the longest prefix works |

## Left out

- Sockets, dialing, pipes, TLS, logging, threads and clocks: they appear only as outcomes of steps.
- Memory exhaustion: every allocation succeeds.
- Rounding of floats: load factors are reals, and the map a table stands for does not depend on them.
- Heap layout of trie nodes: nodes are entries of a map that the methods reassign, so dangling node pointers are not modelled.
- Burst with moved values: values are copied, so a burst that fails has nothing to move back.
- Erasing the end position of the registration map when an unknown pipe goes: undefined in C++, modelled as doing nothing.
- `erase_prefix`, prefix ranges, copying, swapping, serialization and the other growth policies: no part of the broker uses them.
- Registrations whose body does not parse, and the stop of the management thread.
- A reply that cannot be sent for a registration: answering always succeeds.
- Reopening a closed send queue, the HTTP client, deposits and remote hosts.
- ReplyBox.Alternates: contexts with identifier zero do not occur, which the messaging library promises; the box is called by one thread at a time, as its unguarded fields demand.
- HTrie.Trie.Insert: the largest vector has 2^60 - 1 elements, as in the common 64-bit libraries; another one would move the limit at which a burst fails.
- LifeLock.NoLockAfter: models pointers taken while the lock works, not `lock` called after it was retired.
- ArrayHash.Table.Insert: does not push and pop the value of a key that is too long, because only the result is visible.
