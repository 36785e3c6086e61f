# Verified kernels of the doodle gateway

A Dafny model of the stateful kernels of doodle, a gateway for functions as a service,
and of the vendored code it stands on, with proofs of what they promise.
`dafny verify dfyconfig.toml` checks everything.

- **Copy-on-write B-tree** (`SortedSet`, `BTreeShape`, `BTreeUpdate`, `BTreeNodes`,
  `BTreeStore`, `BTreeIterate`, `BTree`). Tree values carry the functional proof that
  insert and delete refine sorted-set operations and keep all structural bounds. A node
  store with owner tags and a free list carries the in-place proof: every method computes
  what the tree function does and writes only nodes of its own context or unused ones. On
  top, any run of operations on any number of trees and clones behaves like that many
  independent sorted sets.
- **SFTP pipelining** (`SftpClient`, `SftpRead`, `SftpWriteTo`, `SftpPacketManager`). Reads
  with many requests in flight, against a server that answers in any order and as short as
  it likes, refuses, confirms without data or hangs up; the copy loop that writes chunks in
  order; the server side that puts responses back into request order.
- **MySQL wire code** (`MysqlPackets`, `MysqlConn`, `MysqlInterpolate`, `MysqlLiterals`,
  `MysqlDsn`, `MysqlDsnMeaning`). Framing in place and reassembly over a network that cuts
  the stream anywhere, long parameters, escaping and interpolation and what a server reads
  of it, printing and parsing of data source names and what they mean.
- **gRPC balancing** (`RoundRobin`, `BalancerUpdates`). The round-robin picker with its
  waiting calls, the unbounded queue on a one-slot channel, and the aggregate state from
  wrapping counters.
- **The gateway's own kernels** (`DocumentMerge`, `DocumentRuns`, `DocumentOrder`,
  `DocumentLevels`, `AppToken`, `TokenForm`, `TokenRead`, `ServiceKey`, `Registry`,
  `StatsCache`), with `Numerals`, `Quotients` and `Wrappers` for numbers and results.

Choices that belong to the outside world are free in the model: the order and length of
server replies, network chunks and faults, the order in which Go ranges over a map and
whether it visits entries added meanwhile, which response a worker finishes next. A flag
such as `faulty` or `truthful` says whether the outside may also misbehave. Where a loop
meets such choices, a run is a function of the sequence of replies, the theorems are about
every admissible sequence, and the method returns the one it met as a ghost. Bytes are numbers
below 256; in `MysqlDsn`, `ServiceKey` and the token modules text is written as characters.

Some facts that came out of the proofs:

- A peer that closes the connection between packets looks like the end of the file to
  `Read`, and a status of OK like an answer, so a nil or end-of-file result can be wrong
  (`SftpRead.HangupLooksLikeEof`, `SftpRead.ConfirmedWithoutData`). It is right exactly when
  every byte that the file has there was answered with data and, for nil, no more was asked
  for than the file has (`SftpRead.ExactlyTruthful`).
- The error of `Read` is the last one of the connection, or else that of the refusal nearest
  the start; but a status of OK nearer the start than all refusals so far makes them
  forgotten (`SftpClient.Noted`, `SftpRead.KeptError`).
- `WriteTo` does not notice a reply shorter than the file allows
  (`SftpWriteTo.ShortReplyIsNotNoticed`). If no write failed, the whole file is there exactly
  when all chunks were answered in full, as a truthful server does. After a failed write the
  error is still nil exactly when the last error of the connection since, or with none the
  error of the writer itself, was io.EOF (`SftpWriteTo.EveryRun`,
  `SftpWriteTo.HangupHidesFailure`, `SftpWriteTo.WriterSaysEof`). The count it returns lacks
  the chunks that had to wait (`SftpWriteTo.WaitingIsNotCounted`).
- A text argument is read back out of an interpolated query exactly when no quote follows
  it, in the query or as the literal of a placeholder right behind
  (`MysqlInterpolate.ValueScansOut`, `MysqlInterpolate.AdjacentStrings`).
- NULL, booleans and integers are read back exactly when nothing follows that goes on with a
  word or a number: a letter, digit, dot, underscore or dollar sign of the query, or such a
  literal of a placeholder right behind (`MysqlLiterals.ArgumentReads`).
- `interpolateParams` checks the size after each argument that is not NULL, so text and
  NULLs after the last such argument do not count (`MysqlInterpolate.OversizeResult`); a
  result fits exactly when they do too (`MysqlInterpolate.FitsIffTailFits`).
- A data source name survives printing and parsing exactly when `MysqlDsn.Printable`
  holds; a password without a user and an empty collation are dropped.
- `merge` takes turns between a level and what is below it, but its outcomes are those of
  dealing with the anonymous fields alone and merging below plain ones afterwards, on every
  level (`DocumentLevels.OutcomeIff`). So the order of the maps never shows exactly when all
  levels that this may leave fit (`DocumentLevels.OrderNeverShows`). Where no field takes the
  name of an anonymous one, that is the case exactly when no two fields that differ can come
  last under one name (`DocumentLevels.UntangledFits`), and there a plain field gives way to
  a promoted one (`DocumentOrder.OutcomeFrom`, `DocumentOrder.PlainGivesWay`). Elsewhere a
  plain field may stay (`DocumentOrder.PlainMayStay`), a name may get lost
  (`DocumentLevels.LostName`), and it matters whether an anonymous field was merged below
  before it was promoted (`DocumentOrder.EarlyOrLate`).
- Ids outside the 55-bit range make the creation of a token panic. A token that is base64 of
  a broken block, or whose last decrypted byte is too large, makes reading it panic
  (`TokenRead.TokenPanics`).
- A service that registers again with other data before it was withdrawn keeps its first
  registration (`Registry.HandledAt`).

## Model

| member | source | states |
|---|---|---|
| `SortedSet.FindSpec` | _vendor/github.com/google/btree/btree.go:183-191 | the index found cuts a sorted sequence: everything before is less, everything after greater, and an equivalent item is at it exactly when one exists |
| `SortedSet.FindUnique` | _vendor/github.com/google/btree/btree.go:183-191 | the cut is unique, so any search that finds a cut finds this one |
| `SortedSet.FindIndex` | _vendor/github.com/google/btree/btree.go:183-191 | the binary search returns that cut |
| `SortedSet.SetInsertMeaning` | _vendor/github.com/google/btree/btree.go:653-677 | insert-or-replace on sets: the new item replaces all equivalent ones, nothing else changes, the displaced item is returned and the size grows exactly when there was none |
| `SortedSet.SetRemoveMeaning` | _vendor/github.com/google/btree/btree.go:679-712 | removal on sets: the returned item, and only it, is gone and the order stays; nothing returned means nothing changed |
| `SortedSet.SetRemoveWhich` | _vendor/github.com/google/btree/btree.go:679-695 | which item is removed: the equivalent one, the least, or the greatest; nothing exactly when there is none |
| `BTreeUpdate.SplitChildShape` | _vendor/github.com/google/btree/btree.go:276-302 | splitting a full child keeps contents and all bounds and leaves both halves room |
| `BTreeUpdate.InsertShape` | _vendor/github.com/google/btree/btree.go:304-329 | insert keeps equal leaf depth, child counts and item bounds |
| `BTreeUpdate.InsertRefines` | _vendor/github.com/google/btree/btree.go:304-329 | insert into a node refines insert-or-replace on its contents, for every strict weak order |
| `BTreeUpdate.InsertRoot` | _vendor/github.com/google/btree/btree.go:653-677 | insert below a root that has room refines the set operation, keeps the root well formed and changes the size accordingly |
| `BTreeUpdate.GrowRootShape` | _vendor/github.com/google/btree/btree.go:664-670 | splitting a full root keeps contents and bounds, one level higher |
| `BTreeUpdate.GrowShape` | _vendor/github.com/google/btree/btree.go:447-482 | stealing from either sibling or merging keeps contents and bounds and makes the node removable |
| `BTreeUpdate.GrowSuffices` | _vendor/github.com/google/btree/btree.go:447-482 | after one round of growing, the retried removal never has to grow again |
| `BTreeUpdate.GrownIsBig` | _vendor/github.com/google/btree/btree.go:447-482 | the child the retry descends into has more than the minimum of items |
| `BTreeUpdate.RemoveShape` | _vendor/github.com/google/btree/btree.go:380-426 | remove keeps equal leaf depth, child counts and item bounds |
| `BTreeUpdate.RemoveRefines` | _vendor/github.com/google/btree/btree.go:380-426 | remove from a node refines removal from its contents, for an item, the minimum and the maximum |
| `BTreeUpdate.RemoveRoot` | _vendor/github.com/google/btree/btree.go:697-712 | removal with the collapse of an empty root refines the set operation and keeps the root well formed |
| `BTreeStore.NodeStore.NewNode` | _vendor/github.com/google/btree/btree.go:92-104 | a node from the free list or a new one, in either case one that no tree uses |
| `BTreeStore.NodeStore.FreeNode` | _vendor/github.com/google/btree/btree.go:638-646 | only a node of the own context is cleared and given back |
| `BTreeStore.NodeStore.MutableFor` | _vendor/github.com/google/btree/btree.go:246-265 | a node of the own context is returned as is, any other is copied; the subtree reads the same |
| `BTreeStore.NodeStore.MutableChild` | _vendor/github.com/google/btree/btree.go:267-271 | the child is made own and linked in, with the same contents and only own or unused nodes written |
| `BTreeStore.NodeStore.Split` | _vendor/github.com/google/btree/btree.go:276-287 | the node is cut in place and the upper half moved to a new node |
| `BTreeStore.NodeStore.MaybeSplitChild` | _vendor/github.com/google/btree/btree.go:290-302 | in place, the split the tree function computes |
| `BTreeStore.NodeStore.Insert` | _vendor/github.com/google/btree/btree.go:304-329 | in place, the tree and result the tree function computes, writing only own or unused nodes |
| `BTreeStore.NodeStore.Remove` | _vendor/github.com/google/btree/btree.go:380-426 | in place, the tree and result the tree function computes, writing only own or unused nodes |
| `BTreeStore.NodeStore.RemoveFromLeaf` | _vendor/github.com/google/btree/btree.go:383-401 | the cases without children: one item cut out in place, or nothing found and nothing written |
| `BTreeStore.NodeStore.GrowChild` | _vendor/github.com/google/btree/btree.go:447-482 | in place, steal left, steal right or merge, as the tree function does |
| `BTreeStore.NodeStore.StealFromLeft` | _vendor/github.com/google/btree/btree.go:448-457 | in place, the last item of the left sibling goes up and the separator down |
| `BTreeStore.NodeStore.StealFromRight` | _vendor/github.com/google/btree/btree.go:458-467 | in place, the first item of the right sibling goes up and the separator down |
| `BTreeStore.NodeStore.MergeRight` | _vendor/github.com/google/btree/btree.go:468-480 | in place, the child takes separator and right sibling in, and that sibling is freed |
| `BTreeStore.NodeStore.SplitRoot` | _vendor/github.com/google/btree/btree.go:664-670 | in place, a full root is split under a new one |
| `BTreeStore.NodeStore.CollapseRoot` | _vendor/github.com/google/btree/btree.go:703-707 | an emptied root is freed and its only child takes its place |
| `BTreeIterate.Get` | _vendor/github.com/google/btree/btree.go:332-341 | finds the equivalent stored item, or none |
| `BTreeIterate.IterateUp` | _vendor/github.com/google/btree/btree.go:498-527 | the ascending recursion, with its start, stop and hit flags, shows the callback what one walk over the sorted contents would |
| `BTreeIterate.IterateDown` | _vendor/github.com/google/btree/btree.go:528-555 | the same downwards over the reversed contents |
| `BTreeIterate.WalkServes` | _vendor/github.com/google/btree/btree.go:498-555 | such a walk yields the items in range up to the first on which the callback says stop |
| `BTreeIterate.AnswerMeaning` | _vendor/github.com/google/btree/btree.go:714-784 | the full answer to each of the eight range queries: exactly the stored items in range, in strictly ascending or descending order |
| `BTreeIterate.Range` | _vendor/github.com/google/btree/btree.go:714-784 | every public range method shows the callback that answer, or the prefix ending where the callback says stop |
| `BTree.OthersUnaffected` | _vendor/github.com/google/btree/btree.go:246-271 | writes confined to one context leave every tree whose reachable nodes avoid that context well formed and with the same contents |
| `BTree.WriterStaysOwner` | _vendor/github.com/google/btree/btree.go:246-271 | the writing tree keeps owning what it reaches, and reaches no node of a context it avoided before |
| `BTree.ForestReplace` | _vendor/github.com/google/btree/btree.go:608-646 | any tree that is apart from all others and disturbs none may join or take a place; every other set stays |
| `BTree.ForestWrite` | _vendor/github.com/google/btree/btree.go:632-646 | an update through one tree keeps the ownership invariant of all trees and changes only its own set |
| `BTree.ForestClone` | _vendor/github.com/google/btree/btree.go:608-619 | giving both trees new contexts keeps the invariant and adds an equal set |
| `BTree.Forest.New` | _vendor/github.com/google/btree/btree.go:123-136 | a new empty tree; refused for degree 1 or less |
| `BTree.Forest.ReplaceOrInsert` | _vendor/github.com/google/btree/btree.go:653-677 | insert-or-replace on one set, all others unchanged, invariants kept |
| `BTree.Forest.Delete` | _vendor/github.com/google/btree/btree.go:679-712 | removal from one set, all others unchanged, invariants kept |
| `BTree.Forest.Clone` | _vendor/github.com/google/btree/btree.go:608-619 | one more set, equal to the cloned one |
| `BTree.Forest.Len` | _vendor/github.com/google/btree/btree.go:811-813 | the number of stored items, in every reachable state |
| `BTree.Forest.Get` | _vendor/github.com/google/btree/btree.go:788-793 | look-up on the set |
| `BTree.Forest.Range` | _vendor/github.com/google/btree/btree.go:714-784 | range queries on the set |
| `BTree.Forest.Run` | _vendor/github.com/google/btree/btree.go:608-712 | any run of new, insert, delete and clone on any number of trees behaves like independent sorted sets, results included |
| `BTree.RunIsolated` | _vendor/github.com/google/btree/btree.go:608-646 | in any run a tree ends as if only the operations on it had happened |
| `BTree.CloneIsolated` | _vendor/github.com/google/btree/btree.go:608-646 | after a clone, any interleaving of updates leaves original and clone as if each had been alone |
| `SftpRead.Sent` | _vendor/github.com/pkg/sftp/client.go:712-732 | sending keeps the invariant: each byte of the window is filled, given up, awaited by exactly one request, or unsent |
| `SftpRead.Received` | _vendor/github.com/pkg/sftp/client.go:737-770 | any reply, in any order, of any non-empty length, a refusal, a bare confirmation or a lost connection, keeps that invariant, and every reply but the last kind makes progress |
| `SftpRead.Sound` | _vendor/github.com/pkg/sftp/client.go:690-770 | the invariant holds after every sequence of replies the server can give |
| `SftpRead.ExactlyTruthful` | _vendor/github.com/pkg/sftp/client.go:772-781 | a nil or end-of-file result is right (count, contents, and end of file exactly when short) if and only if every byte the file has in the window was answered with data and a nil result did not ask beyond the end |
| `SftpRead.NoFaultsTruthful` | _vendor/github.com/pkg/sftp/client.go:690-781 | if connection and server do no wrong the result is always right |
| `SftpRead.RunWindow` | _vendor/github.com/pkg/sftp/client.go:693-768 | in every run at most a window of requests is in flight, which is one wide at first and one wider with each data reply, up to 64 |
| `SftpRead.KeptError` | _vendor/github.com/pkg/sftp/client.go:737-756 | in every run the error kept is the last one of the connection, or else that of the nearest refusal that counts; with only data and refusals all count |
| `SftpRead.RefusalsTruthful` | _vendor/github.com/pkg/sftp/client.go:752-781 | if only data and refusals came and no refusal reported the end of the file where it is not, a nil or end-of-file result is right: a failed read never looks like a shorter file |
| `SftpRead.EveryRun` | _vendor/github.com/pkg/sftp/client.go:690-781 | for every complete sequence of replies: both, and which error is returned: the last one of the connection if there was any, and else that of the refusal nearest the start, of those that no confirmation nearer the start made forgotten; with only data and refusals a nil or end-of-file result is right unless a refusal lied about the end of the file |
| `SftpRead.HangupLooksLikeEof` | _vendor/github.com/pkg/sftp/conn.go:49-55 | three packets in file and buffer, the second unanswered when the peer closes: the result is two packets and end of file, and it is wrong |
| `SftpRead.ConfirmedWithoutData` | _vendor/github.com/pkg/sftp/client.go:1105-1122 | a status of OK instead of data gives no bytes and no error, and it is wrong |
| `SftpRead.File.Read` | _vendor/github.com/pkg/sftp/client.go:690-781 | the loop does what some admissible sequence of replies prescribes; without faults: as many bytes as the file has there, the right bytes, the rest of the buffer untouched, end of file exactly when short; with faults a nil or end-of-file result is right exactly under the stated condition, and any other error claims nothing read; the error is the last one of the connection, or else that of the refusal nearest the start; the offset advances by the count |
| `SftpWriteTo.EmitKeeps` | _vendor/github.com/pkg/sftp/client.go:860-898 | whatever the writer does with a chunk, what it has taken stays a contiguous prefix of the file, and a write that fails or falls short ends all writing |
| `SftpWriteTo.Received` | _vendor/github.com/pkg/sftp/client.go:815-905 | any reply, short data, a refusal, a bare confirmation or a lost connection, keeps the invariant on chunks asked for, arrived, parked and written; once a write went wrong, only a lost connection changes the error that is kept |
| `SftpWriteTo.Sound` | _vendor/github.com/pkg/sftp/client.go:785-905 | the invariant holds after every sequence of replies; a reliable writer is never the reason to stop |
| `SftpWriteTo.NothingParked` | _vendor/github.com/pkg/sftp/client.go:834-839 | with a truthful server no chunk stays parked once every request is answered |
| `SftpWriteTo.TruthfulEnd` | _vendor/github.com/pkg/sftp/client.go:785-915 | with a truthful server, whatever the writer does: what is returned is what went wrong with a write (nil for io.EOF), never the internal inconsistency error, and if no write went wrong the whole rest of the file was written |
| `SftpWriteTo.WrittenIffDelivered` | _vendor/github.com/pkg/sftp/client.go:785-915 | for any server: unless a write failed, the whole rest of the file was written if and only if every chunk was asked for and answered in full |
| `SftpWriteTo.FaultStays` | _vendor/github.com/pkg/sftp/client.go:840-898 | for any server: once a write went wrong, the error kept is the last one of the connection since, or else what went wrong |
| `SftpWriteTo.NearestKept` | _vendor/github.com/pkg/sftp/client.go:840-858 | for any server: while no write went wrong and the connection had no error, the error kept is that of the nearest refusal that counts |
| `SftpWriteTo.LostKept` | _vendor/github.com/pkg/sftp/client.go:840-858 | for any server: while no write went wrong, an error of the connection is kept until the next one, whatever is refused |
| `SftpWriteTo.RunCounts` | _vendor/github.com/pkg/sftp/client.go:818-915 | the count falls short of what was written by exactly the bytes that had to wait |
| `SftpWriteTo.RunWindow` | _vendor/github.com/pkg/sftp/client.go:789-880 | in every run at most 64 chunks are awaited or waiting; the window is one wide at first and once the end of the file was asked for, and else one wider with each chunk written as it arrived |
| `SftpWriteTo.EveryRun` | _vendor/github.com/pkg/sftp/client.go:785-915 | for every sequence of replies: a contiguous prefix; without a failed write the whole rest exactly when all was delivered, and the error returned is the last one of the connection, or else that of the nearest refusal that counts, or else the internal inconsistency; after a failed write a nil error exactly when the last error of the connection since, or with none the error of the writer, was io.EOF; the count lacks what had to wait; with a truthful server the error is that of the write |
| `SftpWriteTo.ShortReplyIsNotNoticed` | _vendor/github.com/pkg/sftp/client.go:879-914 | a file of one packet answered one byte short, then end of file: a nil error with a byte missing |
| `SftpWriteTo.HangupHidesFailure` | _vendor/github.com/pkg/sftp/client.go:840-915 | two packets, the write of the second fails with a request in flight, then the peer closes: a nil error with half of the file missing |
| `SftpWriteTo.WriterSaysEof` | _vendor/github.com/pkg/sftp/client.go:862-915 | a writer that fails with io.EOF: a nil error and nothing written |
| `SftpWriteTo.WaitingIsNotCounted` | _vendor/github.com/pkg/sftp/client.go:862-915 | three packets, the third arriving before the second: all written, one packet not counted |
| `SftpWriteTo.ConfirmationsGoOn` | _vendor/github.com/pkg/sftp/client.go:819-858 | after any number of confirmations without data the next request is in flight and nothing is written |
| `SftpWriteTo.WriteInTurn` | _vendor/github.com/pkg/sftp/client.go:860-898 | the chunk that is due and all parked chunks that follow it are written, each once, in order, as the run prescribes |
| `SftpWriteTo.File.WriteTo` | _vendor/github.com/pkg/sftp/client.go:785-915 | the loop does what some admissible sequence of replies prescribes, and count, error and bytes written are as stated for every run |
| `SftpPacketManager.PacketManager.MaybeSendPackets` | _vendor/github.com/pkg/sftp/packet-manager.go:126-148 | sends exactly while the heads of both queues have the same id; sent responses are never taken back |
| `SftpPacketManager.PacketManager.TakeRequest` | _vendor/github.com/pkg/sftp/packet-manager.go:106-111 | an arriving request is queued in order and what can be sent is sent |
| `SftpPacketManager.PacketManager.TakeResponse` | _vendor/github.com/pkg/sftp/packet-manager.go:112-117 | an arriving response is queued by id and what can be sent is sent |
| `SftpPacketManager.SentIsPrefix` | _vendor/github.com/pkg/sftp/packet-manager.go:103-148 | in every consistent state the sent ids are a prefix of the arrival order |
| `SftpPacketManager.HeadsMatch` | _vendor/github.com/pkg/sftp/packet-manager.go:126-148 | when all requests are answered and something is queued, both heads carry the same id |
| `SftpPacketManager.AllSent` | _vendor/github.com/pkg/sftp/packet-manager.go:103-148 | when every request has its response nothing stays queued |
| `SftpPacketManager.PacketManager.Run` | _vendor/github.com/pkg/sftp/packet-manager.go:103-148 | over every interleaving of the two channels the ids sent are a prefix of the arrival order, and all of it once every request was answered |
| `MysqlPackets.HeaderLength` | _vendor/github.com/go-sql-driver/mysql/packets.go:36-45 | the three length bytes and the sequence byte of a header read back |
| `MysqlPackets.ParseFrame` | _vendor/github.com/go-sql-driver/mysql/packets.go:27-83 | the effect of one frame: an empty one ends a packet or breaks the connection, a short one ends it, a maximal one continues it |
| `MysqlPackets.RoundTrip` | _vendor/github.com/go-sql-driver/mysql/packets.go:27-134 | for every payload, starting sequence byte and following bytes, reading what was framed gives the payload, the rest and the writer's final sequence byte; only the empty payload is refused |
| `MysqlPackets.AfterIs` | _vendor/github.com/go-sql-driver/mysql/packets.go:86-134 | the sequence byte moves on by one for each frame, modulo 256, and there is one frame for every 2^24-1 bytes and one more |
| `MysqlPackets.WireIs` | _vendor/github.com/go-sql-driver/mysql/packets.go:86-134 | the bytes on the wire, frame by frame: three length bytes, lowest first, the number of the frame, and its part of the payload |
| `MysqlPackets.ReplyInStep` | _vendor/github.com/go-sql-driver/mysql/packets.go:36-59 | a reply is taken if and only if its number is the one after the last frame sent; a number ahead and one behind are told apart |
| `MysqlPackets.HeadRead` | _vendor/github.com/go-sql-driver/mysql/packets.go:841-860 | the head of a long-data command decodes to command 0x18, the low four bytes of the statement and the low two of the parameter |
| `MysqlPackets.LongDataRoundTrip` | _vendor/github.com/go-sql-driver/mysql/packets.go:825-874 | the server gets a long parameter back whole, however it was cut into commands, and for the statement and parameter it was sent for |
| `MysqlConn.Buffer.MakeRoom` | _vendor/github.com/go-sql-driver/mysql/buffer.go:41-62 | unread bytes are moved to the front and kept when the buffer grows |
| `MysqlConn.Buffer.Fill` | _vendor/github.com/go-sql-driver/mysql/buffer.go:41-90 | for every way the network cuts the stream: enough bytes are buffered exactly when the stream has them, and then none is lost; after a failure the bytes buffered before are still there and those read since are gone |
| `MysqlConn.Buffer.ReadNext` | _vendor/github.com/go-sql-driver/mysql/buffer.go:94-106 | the next bytes of the stream, or an error exactly when there are too few |
| `MysqlConn.Conn.ReadPacket` | _vendor/github.com/go-sql-driver/mysql/packets.go:27-83 | for every chunking the outcome, remaining stream and sequence byte are those of parsing the stream as a whole (what these are, `MysqlPackets.RoundTrip`, `MysqlPackets.WireIs` and `MysqlPackets.ReplyInStep` say); network faults only add failures |
| `MysqlConn.Conn.WritePacket` | _vendor/github.com/go-sql-driver/mysql/packets.go:86-134 | the network gets exactly the frames of the payload, which `MysqlPackets.WireIs` spells out, though headers overwrite the buffer in place; nothing outside the slice changes; refused exactly when too large; on a fault a prefix was sent |
| `MysqlConn.Conn.WriteCommandLongData` | _vendor/github.com/go-sql-driver/mysql/packets.go:825-874 | the commands sent carry the whole parameter, none is too large, and the sequence byte is reset |
| `MysqlConn.Transfer` | _vendor/github.com/go-sql-driver/mysql/packets.go:27-134 | what one connection writes, another reads back whole, under every chunking, with both sequence bytes in step after it |
| `MysqlInterpolate.ScanEscaped` | _vendor/github.com/go-sql-driver/mysql/utils.go:606-740 | in both modes a literal scanner reads an escaped value back and goes on right after it |
| `MysqlInterpolate.LiteralScans` | _vendor/github.com/go-sql-driver/mysql/utils.go:606-740 | the scanner stops exactly at the closing quote with the original value if and only if no further quote follows |
| `MysqlInterpolate.NothingRaw` | _vendor/github.com/go-sql-driver/mysql/utils.go:606-740 | with backslashes no zero byte, line break, control-Z or bare double quote is left in an escaped value, and in both modes only the special bytes take two |
| `MysqlInterpolate.Reserve` | _vendor/github.com/go-sql-driver/mysql/utils.go:595-604 | room after the kept bytes |
| `MysqlInterpolate.Escape` | _vendor/github.com/go-sql-driver/mysql/utils.go:611-740 | all four escape loops: the escaped value is appended, inside the reserved twice-the-length bytes |
| `MysqlInterpolate.DecimalRead` | _vendor/github.com/go-sql-driver/mysql/connection.go:169-171 | an integer literal denotes the integer |
| `MysqlInterpolate.PlaceholderReplaced` | _vendor/github.com/go-sql-driver/mysql/connection.go:151-163 | each placeholder is replaced by the literal of the argument with its number, and the text around it is what the rest gives |
| `MysqlInterpolate.ValueScansOut` | _vendor/github.com/go-sql-driver/mysql/connection.go:137-257 | a text or byte argument scans back out of the finished query, at its place, if and only if no quote follows: neither the next character of the query nor the literal of a placeholder right behind |
| `MysqlInterpolate.AdjacentStrings` | _vendor/github.com/go-sql-driver/mysql/connection.go:151-242 | two placeholders side by side with two texts: a server reads one text with a quote in it |
| `MysqlLiterals.LiteralReads` | _vendor/github.com/go-sql-driver/mysql/connection.go:164-242 | a server that reads NULL, numbers, quoted and binary texts reads the literal of an argument as its value (NULL for nil and nil bytes, 1 and 0 for booleans, the integer, the text, the binary text) and goes on right behind it, if and only if the next character does not cling |
| `MysqlLiterals.ArgumentReads` | _vendor/github.com/go-sql-driver/mysql/connection.go:137-257 | the same in the finished query, at the place of every placeholder: read back if and only if neither the next character of the query nor the literal of a placeholder right behind clings |
| `MysqlInterpolate.NullsGrow` | _vendor/github.com/go-sql-driver/mysql/connection.go:151-163 | how much a query with only NULL arguments grows |
| `MysqlInterpolate.FitsIffTailFits` | _vendor/github.com/go-sql-driver/mysql/connection.go:249-251 | a result that passed the check fits with its header if and only if the text and NULLs behind the last checked argument do |
| `MysqlInterpolate.OversizeResult` | _vendor/github.com/go-sql-driver/mysql/connection.go:249-256 | text behind the last argument makes a result larger than the limit succeed |
| `MysqlInterpolate.AppendLiteral` | _vendor/github.com/go-sql-driver/mysql/connection.go:164-242 | the literal of each kind of argument is appended, which a server reads back as `MysqlLiterals.LiteralReads` says |
| `MysqlInterpolate.Expand` | _vendor/github.com/go-sql-driver/mysql/connection.go:149-256 | the loop over the placeholders writes the substituted query, or refuses, each exactly when it should |
| `MysqlInterpolate.InterpolateParams` | _vendor/github.com/go-sql-driver/mysql/connection.go:137-257 | the substituted query, in which every argument is read back as `MysqlLiterals.ArgumentReads` says, or a refusal, each exactly when it should be; no byte received before is lost |
| `MysqlDsn.LeftParses` | _vendor/github.com/go-sql-driver/mysql/dsn.go:284-319 | credentials, network and address are found again, though passwords and addresses may contain separators |
| `MysqlDsn.PiecesApply` | _vendor/github.com/go-sql-driver/mysql/dsn.go:368-548 | applying the printed options to a new configuration restores all ten flags and the collation |
| `MysqlDsn.ParamsJoined` | _vendor/github.com/go-sql-driver/mysql/dsn.go:368-372 | splitting the options at `&` undoes joining them |
| `MysqlDsn.PrintedParses` | _vendor/github.com/go-sql-driver/mysql/dsn.go:61-364 | a printable configuration is parsed back from what it prints |
| `MysqlDsn.ParsedShaped` | _vendor/github.com/go-sql-driver/mysql/dsn.go:268-364 | what every successfully parsed configuration is like |
| `MysqlDsn.RoundTrip` | _vendor/github.com/go-sql-driver/mysql/dsn.go:61-364 | a configuration is recovered from its printed form if and only if it is printable |
| `MysqlDsn.Reparse` | _vendor/github.com/go-sql-driver/mysql/dsn.go:61-364 | any name that parses prints to one that parses to its normal form |
| `MysqlDsnMeaning.PrintedName` | _vendor/github.com/go-sql-driver/mysql/dsn.go:61-265 | the printed name in full: user, password only with a user, network, address only with a network, database, and the options that do not have their defaults, in the fixed order |
| `MysqlDsnMeaning.BoolRead` | _vendor/github.com/go-sql-driver/mysql/utils.go:71-81 | which texts are true, which are false, and that no other is a boolean |
| `MysqlDsnMeaning.ApplyAllHolds` | _vendor/github.com/go-sql-driver/mysql/dsn.go:368-548 | any option pieces on any configuration: the first wrong piece is the error; otherwise every flag and the collation have what the last piece that names them gives, or what they had, and all other options are kept in order |
| `MysqlDsnMeaning.NameSays` | _vendor/github.com/go-sql-driver/mysql/dsn.go:268-364 | a name put together from credentials, network, address, database and pieces, with any part present or missing, parses to exactly what it says, defaults and the check of old passwords included |
| `MysqlDsnMeaning.OpenSays` | _vendor/github.com/go-sql-driver/mysql/dsn.go:302-317 | an address that is opened and not closed at the end is refused, and which error tells whether it is closed anywhere |
| `MysqlDsnMeaning.EveryName` | _vendor/github.com/go-sql-driver/mysql/dsn.go:268-364 | every text is a name of one of these two kinds or has no slash, so that the outcome of parsing is known for each |
| `MysqlDsn.FormatDSN` | _vendor/github.com/go-sql-driver/mysql/dsn.go:61-265 | the printer computes the specified text |
| `MysqlDsn.ParseDSNLeft` | _vendor/github.com/go-sql-driver/mysql/dsn.go:284-319 | the scans before the slash compute the specified parts and errors |
| `MysqlDsn.ParseDSNParams` | _vendor/github.com/go-sql-driver/mysql/dsn.go:368-548 | the option loop computes the specified result, which `MysqlDsnMeaning.ApplyAllHolds` describes by the last piece for each option |
| `MysqlDsn.ParseDSN` | _vendor/github.com/go-sql-driver/mysql/dsn.go:268-364 | the parser computes the specified result, which `MysqlDsnMeaning.EveryName` describes for every text |
| `DocumentMerge.PromoteShrinks` | service/document.go:245-254 | replacing an anonymous field by its children leaves fewer fields, also when names collide |
| `DocumentMerge.PromoteKeeps` | service/document.go:245-254 | with distinct names it keeps the flattened entries and distinctness |
| `DocumentMerge.FlattenBelowKeeps` | service/document.go:257-261 | merging below a field changes neither what it contributes nor, except to remove some, the names it may use |
| `DocumentMerge.CleanLevel` | service/document.go:239-263 | a level without anonymous fields is its own flattening |
| `DocumentRuns.ClearLevel` | service/document.go:245-254 | one range over the level is a pass: every entry it started with and some of those added, in any order |
| `DocumentRuns.MergeChildren` | service/document.go:257-261 | everything below is replaced by one of its outcomes |
| `DocumentRuns.OutcomeFacts` | service/document.go:239-263 | every outcome of merge, over all orders: no anonymous field at any depth, no larger, and with distinct names the flattening |
| `DocumentRuns.Merge` | service/document.go:239-263 | ends for every order, with one of those outcomes |
| `DocumentLevels.OutcomeIff` | service/document.go:239-263 | on every level, the outcomes of merge are exactly the levels that dealing with the anonymous fields alone may leave, with everything below merged afterwards, though the code takes turns |
| `DocumentLevels.AgreeIffFitting` | service/document.go:239-263 | on every level: all outcomes of two levels are alike if and only if all levels that dealing with the anonymous fields may leave of them fit, name by name and at every depth |
| `DocumentLevels.OrderNeverShows` | service/document.go:239-263 | on every level: the order of the maps never shows in what merge makes of it if and only if all levels that dealing with the anonymous fields may leave of it fit |
| `DocumentLevels.UntangledFits` | service/document.go:239-263 | where no field takes the name of an anonymous one, read off the fields themselves: they fit if and only if the fields that can come last under each name match |
| `DocumentLevels.LostName` | service/document.go:245-254 | an anonymous field that a child of another one may overwrite, and that alone would bring a name: some run has the name, another has not |
| `DocumentOrder.OrderMatters` | service/document.go:245-254 | two anonymous fields with a child of one name: two runs of merge with different results |
| `DocumentOrder.PlainGivesWay` | service/document.go:245-254 | a plain field beside an anonymous one with a child of its name: names are not distinct, yet there is one outcome |
| `DocumentOrder.PlainMayStay` | service/document.go:245-254 | the same with a third field that takes the name of the anonymous one: the plain field may stay |
| `DocumentOrder.TangledOrder` | service/document.go:245-254 | a child named like another anonymous field: whether that field is promoted depends on the order |
| `DocumentOrder.EarlyOrLate` | service/document.go:239-263 | a field visited in the first range or merged below and promoted in the second: different results |
| `AppToken.PadRoundTrip` | util/utils.go:134-150 | unpadding undoes padding, for every length |
| `AppToken.CbcRoundTrip` | util/utils.go:104-106 | chained decryption undoes chained encryption for any invertible block cipher |
| `AppToken.Base64RoundTrip` | util/utils.go:108-113 | decoding undoes encoding, for every length |
| `AppToken.AesRoundTrip` | util/utils.go:96-131 | decrypting an encrypted byte string gives it back, for every length |
| `TokenForm.XorBit` | util/utils.go:104-106 | a bit of an exclusive or is set exactly when the two bits differ |
| `TokenForm.CbcBlock` | util/utils.go:104-106 | each encrypted block is the output of the cipher for the data block mixed with the encrypted block before it, the first one with the front of the key |
| `TokenForm.PadBytes` | util/utils.go:134-138 | one to sixteen bytes are added, up to whole blocks, and each says how many |
| `TokenForm.SymbolIs` | util/utils.go:108 | the letters of the standard base64 alphabet, in order |
| `TokenForm.EncodedSymbol` | util/utils.go:108 | symbol by symbol: six bits of three bytes each, padding where bytes are missing |
| `TokenRead.DecodesIff` | util/utils.go:113-116 | a text decodes exactly when it is groups of four letters, of which the last may end in one or two signs of padding |
| `TokenRead.DecodedByte` | util/utils.go:113-116 | byte by byte: eight bits of four letters each |
| `TokenRead.DecodedLength` | util/utils.go:113-116 | three bytes for four letters, less the padding |
| `TokenRead.CbcPlainBlock` | util/utils.go:121-124 | each decrypted block is the inverse of the cipher, mixed with the encrypted block before it, the first one with the front of the key |
| `AppToken.GroupsFit` | rbac/app.go:96-97 | how many bytes a varint takes |
| `AppToken.PutVarint` | rbac/app.go:96-97 | the varint is stored at the front and the rest left alone, exactly when it fits |
| `AppToken.ReadUvarint` | rbac/init.go:49-52 | the number at the front of a buffer, its length, or the failure |
| `AppToken.IssueToken` | rbac/app.go:96-104 | the token of an id as specified, which `TokenForm.TokenIs` spells out byte by byte, or a panic |
| `AppToken.TokenRoundTrip` | rbac/init.go:42-55 | a token parses back to its id, and tokens are issued for exactly the ids from -2^55 up to 2^55 |
| `TokenForm.GroupByte` | rbac/app.go:96-97 | byte by byte: seven bits of the number each, the top bit set exactly when more follow |
| `TokenForm.TokenIs` | rbac/app.go:96-104 | a token in full: the base64 text of one block, the output of the cipher for the eight bytes of the varint and eight bytes of padding, mixed with the front of the key |
| `TokenRead.UvarintIff` | rbac/init.go:49-52 | a number is read exactly when its last byte is there, it has at most ten, and it fits 64 bits |
| `TokenRead.TokenAccepted` | rbac/init.go:42-55 | for every text: it is accepted as an id if and only if it is base64 of at least one whole block, the last decrypted byte counts no more than there are, and what is left begins with a number of at most 64 bits that is the code of the id |
| `TokenRead.KeyRefused` | util/utils.go:96-120 | keys have 128, 192 or 256 bits: with any other no token is made or accepted |
| `TokenRead.TokenPanics` | util/utils.go:121-149 | for every text: the program panics if and only if it is base64 of a broken block, or the last decrypted byte counts more than there are |
| `RoundRobin.UpdatesMeaning` | _vendor/google.golang.org/grpc/balancer.go:167-193 | any resolver updates keep addresses distinct and are the corresponding map updates, flags of kept addresses included |
| `RoundRobin.OrderKept` | _vendor/google.golang.org/grpc/balancer.go:167-193 | an update keeps the order of the addresses that stay, and a new one comes last |
| `RoundRobin.PickRank` | _vendor/google.golang.org/grpc/balancer.go:290-309 | the search rotates among the connected addresses |
| `RoundRobin.PickIs` | _vendor/google.golang.org/grpc/balancer.go:290-309 | the address picked is the first connected one from the rotating index on, or else the first connected one of all, also when the list became shorter than the index |
| `RoundRobin.EachOnce` | _vendor/google.golang.org/grpc/balancer.go:290-309 | as many picks in a row as there are connected addresses hit each exactly once |
| `RoundRobin.Balancer.Start` | _vendor/google.golang.org/grpc/balancer.go:212-239 | refused when closed or when the resolver fails, leaving nothing behind; else the target itself without a resolver, an empty list and channel with one |
| `RoundRobin.Balancer.Announced` | _vendor/google.golang.org/grpc/balancer.go:195-199 | the list announced has the addresses of the list, one by one |
| `RoundRobin.Balancer.WatchAddrUpdates` | _vendor/google.golang.org/grpc/balancer.go:157-210 | the list follows the updates and the notification channel holds the new list only, address by address |
| `RoundRobin.Balancer.Up` | _vendor/google.golang.org/grpc/balancer.go:243-266 | the address is marked and no other flag changes, and after the first one no call is left waiting |
| `RoundRobin.Balancer.Down` | _vendor/google.golang.org/grpc/balancer.go:269-278 | the address is unmarked and no other flag changes |
| `RoundRobin.Balancer.Search` | _vendor/google.golang.org/grpc/balancer.go:290-309 | the rotating search finds the specified address, or none exactly when none is connected |
| `RoundRobin.Balancer.Get` | _vendor/google.golang.org/grpc/balancer.go:281-331 | which address, error or wait a call gets, and the state it leaves |
| `RoundRobin.Balancer.Wake` | _vendor/google.golang.org/grpc/balancer.go:332-371 | a woken call gets an address if one is connected, an error if the balancer is closed, and otherwise waits on a channel that is still open |
| `RoundRobin.Balancer.Round` | _vendor/google.golang.org/grpc/balancer.go:281-373 | while flags stay fixed, a round of calls reaches each connected address exactly once |
| `RoundRobin.Balancer.NobodyLeftWaiting` | _vendor/google.golang.org/grpc/balancer.go:157-397 | in every reachable state with a connected address, or closed, every channel a call waits on is closed |
| `RoundRobin.Balancer.Close` | _vendor/google.golang.org/grpc/balancer.go:379-397 | every waiting call is woken, and the notification channel is closed if there is one |
| `BalancerUpdates.UpdateBuffer.Put` | _vendor/google.golang.org/grpc/balancer_conn_wrappers.go:50-61 | the update is queued behind all others |
| `BalancerUpdates.UpdateBuffer.Load` | _vendor/google.golang.org/grpc/balancer_conn_wrappers.go:63-74 | the channel is refilled, in order |
| `BalancerUpdates.UpdateBuffer.Receive` | _vendor/google.golang.org/grpc/balancer_conn_wrappers.go:121-122 | the oldest update is taken |
| `BalancerUpdates.UpdateBuffer.NothingStuck` | _vendor/google.golang.org/grpc/balancer_conn_wrappers.go:118-151 | whenever the watcher would block, everything put was received, once and in order |
| `BalancerUpdates.CountChange` | _vendor/google.golang.org/grpc/balancer_v1_wrapper.go:349-362 | how the number of sub-connections in a state moves with one change |
| `BalancerUpdates.TransitionCounts` | _vendor/google.golang.org/grpc/balancer_v1_wrapper.go:349-362 | adding 2^64-1 and 1 with wraparound tracks that number modulo 2^64 |
| `BalancerUpdates.Evaluator.RecordTransition` | _vendor/google.golang.org/grpc/balancer_v1_wrapper.go:349-374 | the counters after a transition, and the state read off them |
| `BalancerUpdates.Wrapper.HandleSubConnStateChange` | _vendor/google.golang.org/grpc/balancer_v1_wrapper.go:231-260 | states are tracked until shutdown, which ends it; from the first change on, below 2^64 sub-connections, the reported state is the aggregate: Ready iff one is, else Connecting iff one is; an unknown sub-connection changes nothing |
| `BalancerUpdates.HandledEnds` | _vendor/google.golang.org/grpc/balancer_v1_wrapper.go:231-260 | after any run of changes each sub-connection has the state of its last change, if it was tracked and none of its changes was a shutdown |
| `BalancerUpdates.ShutdownIsFinal` | _vendor/google.golang.org/grpc/balancer_v1_wrapper.go:231-260 | once shut down, a sub-connection stays untracked whatever it is told later |
| `BalancerUpdates.Wrapper.Resync` | _vendor/google.golang.org/grpc/balancer_v1_wrapper.go:182-208 | every listed address keeps its sub-connection or is to get one, never both; every sub-connection keeps its place or is to be removed, never both, and none is forgotten; no two addresses share one; the reported state stays the aggregate |
| `BalancerUpdates.Wrapper.AddSubConn` | _vendor/google.golang.org/grpc/balancer_v1_wrapper.go:209-223 | a new sub-connection is tracked as Idle, and the reported state stays the aggregate |
| `BalancerUpdates.Wrapper.WatchAddrs` | _vendor/google.golang.org/grpc/balancer_v1_wrapper.go:182-223 | after an address list, exactly those listed addresses have sub-connections that had one or for which one could be made: old ones kept, new ones fresh and tracked; all others, and none that stays, are handed back for removal |
| `BalancerUpdates.Wrapper.Watch` | _vendor/google.golang.org/grpc/balancer_conn_wrappers.go:118-151 | all queued updates reach the balancer, once and in order, and the reported state stays the aggregate |
| `Numerals.ItoaRead` | service/keepalive.go:29-31 | a printed number reads back and holds no slash |
| `Numerals.ItoaShortest` | service/keepalive.go:29-31 | a number is printed with a sign exactly if it is negative, and with no zero in front |
| `Numerals.NumberIs` | repeater/backend.go:53 | digits denote their value, a sign before them counts, and anything else denotes 0 |
| `ServiceKey.KeyRoundTrip` | service/keepalive.go:29-31 | a printed key parses to project, host and port if and only if the host has no slash |
| `ServiceKey.KeyIgnored` | repeater/backend.go:44-50 | a key is passed over exactly when it has fewer than three slashes |
| `ServiceKey.KeyReads` | repeater/backend.go:44-54 | any other key: the first two pieces are not looked at, the last two are host and port, and the name is what stands between, slashes included |
| `ServiceKey.PortRead` | repeater/backend.go:53 | a port is its number, cut off at the ends of the 64-bit range |
| `Registry.ComesAndGoes` | repeater/backend.go:44-59 | a service that comes up under its own key and goes leaves the registry as it was |
| `Registry.HandledAt` | repeater/backend.go:37-62 | after any run of events on an empty registry an instance is registered exactly when some announcement of it was not followed by a withdrawal, and then with the value of the first announcement since the last withdrawal |
| `Registry.EveryTurn` | repeater/repeater.go:162-168 | as many ticks of the clock in a row as a name has instances bring the turn of each |
| `Registry.Backend.Register` | repeater/backend.go:119-140 | insert if absent, by name, host and port; lists stay non-empty and without repetitions |
| `Registry.Backend.Unregister` | repeater/backend.go:91-116 | removal by name, host and port; an empty list goes away |
| `Registry.Backend.Start` | repeater/backend.go:37-62 | after any run of events the registry is the map those events make, which `Registry.HandledAt` describes key by key |
| `Registry.Backend.Choose` | repeater/repeater.go:162-168 | for every clock value the instance whose turn it is, registered under the name, none exactly when there is none |
| `StatsCache.Stats.Success` | repeater/stats.go:50-69 | one more call on the books, and they balance |
| `StatsCache.Stats.Failed` | repeater/stats.go:42-47 | one more failure, in order |
| `StatsCache.Stats.Entrys` | repeater/stats.go:72-87 | in any order of the maps: the cache is emptied, each pair comes out at most once with exactly its cached count and time, and the books still balance |
| `StatsCache.Stats.ErrorEntrys` | repeater/stats.go:90-97 | all cached failures, in order; drained ones followed by cached ones are all failures |
| `StatsCache.DrainBalanced` | repeater/stats.go:72-87 | draining moves counts and times, it neither loses nor doubles any |

## Left out

- HTTP handlers, SQL text, ORM calls, the ssh and etcd clients, logging and configuration: plumbing over libraries that are not modelled.
- AES itself, password scrambling, backoff, and the texts of floats, times, durations and time zones: parameters, or not part of the model.
- BTree.Forest.Run: item identity is a value of a type with a strict weak order; the capacity of slices and the clearing of dropped slots for the garbage collector are not modelled.
- BTree.Forest.New: all trees of a forest share one free list, as clones do; `Min`, `Max`, `Has` and printing are left out as easy.
- BTree.Forest.Range: the callback is a predicate on the items seen so far, and does not change the tree while it runs.
- SftpRead.File.Read: offsets and ids are unbounded; the file does not change during the read; packets of unknown ids or types, after which the client gives up, are left out.
- SftpRead.Received: data replies are never empty and hold the bytes of the file, as the protocol says, also from a server that is otherwise at fault.
- SftpWriteTo.File.WriteTo: the file size is the one reported at the start and the file does not change; packets of unknown ids or types are left out; the method bounds the number of confirmations without data by `patience`, since with no bound the loop need not end (`SftpWriteTo.ConfirmationsGoOn`).
- File.Write and File.ReadFrom: the same window bookkeeping without reordering.
- SftpPacketManager.PacketManager.Run: ids arrive strictly increasing, as the client numbers them; shutdown, where buffered responses may be dropped, is left out.
- MysqlConn.Transfer: the sender's network takes every byte; a payload that is empty or too large is refused, as the rows on framing and writing say.
- MysqlConn.Buffer.ReadNext: the slice is handed out as a value, so its being overwritten by the next read is not captured; read and write deadlines are left out.
- MysqlConn.Conn.WriteCommandLongData: needs a packet limit above 8, below which the loop of the source makes no progress.
- MysqlLiterals.ArgumentReads: what the texts of floats and times denote to the server is not told; signs are read as part of a number.
- MysqlInterpolate.AppendLiteral: texts of floats and times are given.
- MysqlInterpolate.Expand: texts of floats and times are given.
- MysqlInterpolate.InterpolateParams: texts of floats and times are given; bytes of multi-byte character sets are not told apart.
- MysqlDsn.RoundTrip: options whose values need library parsers (location, timeouts, TLS, packet limit, further parameters) are at their defaults; the parser keeps them unread.
- MysqlDsn.Reparse: the same restriction.
- MysqlDsnMeaning.PrintedName: the same restriction.
- MysqlDsnMeaning.NameSays: the same restriction.
- MysqlDsnMeaning.EveryName: the same restriction.
- MysqlDsnMeaning.ApplyAllHolds: the same restriction; such options are kept as a list in order, of which later ones count.
- MysqlDsn.FormatDSN: the same restriction; such options are not printed.
- MysqlDsn.ParseDSNParams: the same restriction; such options are kept unread and never fail.
- MysqlDsn.ParseDSN: the same restriction.
- DocumentRuns.Merge: nested maps are values, which loses nothing as `newField` builds trees without sharing; `depth` labels a field with a bound on its nesting, which every finite tree has; reflection in `newField` is left out.
- AppToken.PutVarint: a panic is a failed result.
- RoundRobin.Balancer.Start: called once, as the interface says; a second call without a resolver would list the target twice; the texts of errors are left out.
- RoundRobin.Balancer.Wake: cancelled contexts are left out.
- BalancerUpdates.Wrapper.HandleSubConnStateChange: the calls to connect, up and down of the balancer are not modelled; the pick-first branch, which drops states without recording it, is left out.
- Registry.Backend.Start: the values of events arrive decoded; agreement with etcd is not claimed. The distributor's watcher parses the same key and is left out.
- StatsCache.Stats.Success: counts and times are unbounded.
- Length-encoded integers, result set parsing and the rest of the MySQL protocol: easy members or other code.
