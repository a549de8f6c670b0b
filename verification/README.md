# R-NAT verification

A model of R-NAT, a reverse-NAT pair of programs, and proofs about it. A relay (`r-nat-s`) accepts users on service
ports; agents (`r-nat-c`) connect to the relay from behind a NAT and carry the users' bytes to the target programs.
Many user streams share one framed tunnel connection. The configuration is read and written with rapidxml, and every
packet lives in asio buffers.

| files | what they model |
|---|---|
| `Framing`, `TcpConnection` | the 4-byte length framing and the connection object that writes and reads it |
| `Protocol`, `EndToEnd` | the packed messages, the demultiplexer, and two connections joined by a network |
| `Agent` | the agent's sessions: demultiplexing, flow control, life cycle |
| `Relay`, `RelayLog`, `TcpServer` | the relay's registry of agents and ports, what it takes from users and sends to agents; its connections and their sequence numbers |
| `XmlText`, `XmlTree`, `XmlParser`, `XmlNumbers`, `Utf8` | the rapidxml parser, as functions on a text and in place on an array |
| `XmlGrammar`, `XmlAccepts` | the language the parser accepts, as a grammar with all its white space, comments and references |
| `XmlPrinter`, `XmlLexical`, `XmlRoundTrip`, `XmlExact` | the printer and the round trip |
| `DomList`, `MemoryPool`, `Bits` | the child lists of a node on the heap; the aligned pool; masks |
| `StreamBuf`, `BufferCopy`, `BuffersIterator`, `BufferPool` | asio's stream buffer, scatter-gather copy and byte iterator; the agent's buffer pool |
| `Common` | bytes, options, flattening |

`dafny verify dfyconfig.toml` checks everything.

Objects the programs update in place are classes here; each method is one handler, one task of the io_service, one
completion or one network event, and the class invariants are therefore statements about every run. Ghost fields record
histories (what was accepted, written, delivered, completed). Pure code and specifications are functions.

Four things turned out not to hold on all inputs. Each has its exact condition:

- `commit` and `consume` pass their count through an `int`: they do what they say exactly below 2^31 bytes. So a payload
  comes through a framed connection exactly if it is shorter than 2^31 bytes and within the reader's limit
  (`Framing.DeframeExactly`, `Framing.LostPayload`), a whole packet is put together exactly if each of its buffers is
  (`TcpConnection.AssembledExactly`, `TcpConnection.SpoiltPacket`), and a buffer goes back to the pool empty exactly if
  the packet in it is (`BufferPool.Release`, `TcpConnection.PoolStaysSound`). From 2^32 bytes on the cast of the length
  loses even the framing (`Framing.CutExactly`).
- A numeric character reference is taken modulo 2^64, so a number far outside Unicode can be accepted
  (`XmlNumbers.NumericExactly`, `XmlNumbers.WrappedReference`).
- `__CleanSession` erases a user's key without looking at the session behind it. The completion of a send over the
  tunnel can come after its session has been cleaned up; if the user id has come back by then, it unregisters the new
  session and leaves it open (`Agent.WrongSessionErased`). `Agent.Agent.Unregister` says exactly when.
- `__SendV` with an empty list drops its completion unless packets are sent whole (`EndToEnd.ModesAgree`).

The agent's counters wrap at 2^32 outstanding sends; `Agent.UncorkTest` says when that misleads the uncork test. Nothing
in the repository's documentation mentions any of these; the model follows the code.

## Model

| member | source | states |
|---|---|---|
| Framing.WordRoundTrip | r-nat-c/network/tcpconnection.hpp:148 | a length stored as `uint32_t` and loaded again is the length modulo 2^32 |
| Framing.DeframeExactly | r-nat-c/network/tcpconnection.hpp:139-317 | a stream of frames is delivered as the payloads written if and only if every payload is shorter than 2^31 bytes and within the reader's limit |
| Framing.CutExactly | r-nat-c/network/tcpconnection.hpp:275-296 | the reader cuts the stream into the payloads if and only if every payload is shorter than 2^32 bytes and within the limit |
| Framing.EndsAtTooLong | r-nat-c/network/tcpconnection.hpp:283-290 | a payload over the limit ends the stream: all before it is read, nothing of it or behind it |
| Framing.LostPayload | r-nat-c/network/tcpconnection.hpp:298-313 | a payload of exactly 2^31 bytes is cut out of the stream whole, and lost in the commit |
| Framing.DeframePrefix | r-nat-c/network/tcpconnection.hpp:257-296 | from any prefix of the stream, cut anywhere, the reader cuts exactly the payloads that are complete in it |
| Framing.DeliveredPrefix | r-nat-c/network/tcpconnection.hpp:257-317 | and delivers exactly those, if they are shorter than 2^31 bytes |
| TcpConnection.TcpConnection.Send | r-nat-c/network/tcpconnection.hpp:60-63 | a send is posted and offered; nothing else changes |
| TcpConnection.TcpConnection.SendNow | r-nat-c/network/tcpconnection.hpp:139-170 | the message is accepted: bytes written plus bytes queued are the images of everything accepted, and the completions owed are conserved; from a sound pool the image is the frame of the message unless a buffer copied into a whole packet has 2^31 bytes or more |
| TcpConnection.TcpConnection.SendVNow | r-nat-c/network/tcpconnection.hpp:172-213 | the same for a list of buffers, through the loops that add up, copy or queue them |
| TcpConnection.TotalSize | r-nat-c/network/tcpconnection.hpp:174-178 | the length of a packet is that of its buffers put together |
| TcpConnection.Assemble | r-nat-c/network/tcpconnection.hpp:199-207 | the packet built in defragment mode is the header and then all buffers in order, if each is shorter than 2^31 bytes |
| TcpConnection.AssembledExactly | r-nat-c/network/tcpconnection.hpp:157-163 | and exactly then |
| TcpConnection.SpoiltPacket | r-nat-c/network/tcpconnection.hpp:162-163 | one buffer of 2^31 bytes spoils a whole packet, and does not spoil a split one |
| TcpConnection.PoolStaysSound | r-nat-c/network/tcpconnection.hpp:215-256 | the pool behind `on_allocbuf` stays sound as long as other users keep it so and neither an entry written nor a body read has 2^31 bytes or more |
| TcpConnection.TcpConnection.DoSend | r-nat-c/network/tcpconnection.hpp:215-238 | starts a write only through the open gate, takes the oldest entry, posts its completion; afterwards anything queued is behind a write |
| TcpConnection.TcpConnection.OnSendCallback | r-nat-c/network/tcpconnection.hpp:239-256 | after an error nothing is written any more and the disconnect is reported once; otherwise the packet is let go, which damages the pool exactly from 2^31 bytes on, and the next entry goes out |
| TcpConnection.TcpConnection.DoRecv | r-nat-c/network/tcpconnection.hpp:257-274 | starts a header read unless one packet is being received or receiving is blocked; afterwards no wake-up is missing |
| TcpConnection.TcpConnection.OnHeadRecvCallback | r-nat-c/network/tcpconnection.hpp:275-296 | goes on to a body of exactly the announced length, or fails exactly on an error or a length over the limit |
| TcpConnection.TcpConnection.OnRecvCallback | r-nat-c/network/tcpconnection.hpp:298-317 | delivers what the commit leaves of the announced bytes, which is all of them exactly below 2^31, and starts the next read unless blocked, also when the application blocks or unblocks from inside `on_recv` |
| TcpConnection.TcpConnection.BlockRecv | r-nat-c/network/tcpconnection.hpp:108-115 | unblocking posts a read, so no wake-up is lost |
| TcpConnection.TcpConnection.RunPosted | r-nat-c/network/tcpconnection.hpp:60-67 | posted tasks run in order: messages are accepted in the order offered, completions run in the order posted |
| TcpConnection.TcpConnection.OnConnect | r-nat-c/network/tcpclient.hpp:53-75 | the gate opens on success only; until then nothing has been written |
| TcpConnection.TcpConnection.OnConnectTimeout | r-nat-c/network/tcpclient.hpp:77-82 | reports the disconnect once unless cancelled |
| TcpConnection.TcpConnection.Client | r-nat-c/network/tcpclient.hpp:35-50 | a started client has a closed gate |
| TcpConnection.TcpConnection.Accepted | r-nat-s/network/tcpserver.hpp:11-31 | a server connection starts with an open gate |
| TcpConnection.Happens | r-nat-c/network/tcpconnection.hpp:215-317 | whatever happens on a connection keeps its invariants and what it has been offered |
| TcpConnection.OneInFlight | r-nat-c/network/tcpconnection.hpp:215-317 | in every state at most one write and one read are in flight, no write before connect or after a write error |
| TcpConnection.NoLostWakeUp | r-nat-c/network/tcpconnection.hpp:108-115 | in every state queued data has a write in flight, and a started unblocked connection has a read in flight or posted |
| Protocol.HeaderRoundTrip | r-nat-c/include/protocol.h:38-56 | the packed record of a message about a user gives back command, port, id and the data behind it |
| Protocol.ConnectRoundTrip | r-nat-s/app1/user.cpp:37-44 | the announcement of a user is a CONNECT of 13 bytes that gives back the user, its address and its port |
| Protocol.BindRoundTrip | r-nat-c/app1/tunnel.cpp:13-20 | the request for a port is a BIND of three bytes that the relay takes and reads as that port |
| Protocol.AckRoundTrip | r-nat-s/app1/tunnel.cpp:81-90 | an acknowledgement gives back command, port and the error code as a `uint32_t` |
| Protocol.WireFormat | r-nat-c/include/protocol.h:14-106 | the messages byte for byte: the number of the command, then port and id, low bytes first |
| Protocol.DemuxSent | r-nat-c/app1/tunnel.cpp:81-123 | demultiplexing a multiplexed list of packets gives each user its own bytes, in order, whatever the interleaving |
| RelayLog.ChunkMessage | r-nat-s/app1/user.cpp:86-108 | the list the relay sends for user data is the DATA packet of that user |
| RelayLog.RecordChunk | r-nat-s/app1/user.cpp:104-108 | offering a user's bytes to a connection as DATA keeps its record: the chunks in it are what was taken from the users it served, and nothing else in it is DATA |
| RelayLog.RecordOther | r-nat-s/app1/user.cpp:63-69 | so does offering any other message |
| EndToEnd.ModesAgree | r-nat-c/network/tcpconnection.hpp:139-213 | both queueing modes owe the same completions in the same order if and only if no empty list carries one |
| EndToEnd.SameRun | r-nat-c/network/tcpconnection.hpp:139-232 | two connections in different modes that accepted the same messages and drained wrote the same bytes, if every buffer is shorter than 2^31 and the pools are sound, and ran the same completions exactly if no empty list carried one |
| EndToEnd.Preserved | r-nat-c/network/tcpconnection.hpp:215-317 | in every state of both ends the receiver has delivered, whole, a prefix of the payloads the sender accepted, if they are shorter than 2^31 bytes and within its limit |
| EndToEnd.UpToTheLastFrame | r-nat-c/network/tcpconnection.hpp:257-317 | a receiver waiting for bytes has delivered every payload complete in what has arrived |
| EndToEnd.NeverTooLong | r-nat-c/network/tcpconnection.hpp:283-290 | a sender within the limits is never cut off by the length test |
| EndToEnd.Multiplexed | r-nat-s/app1/user.cpp:75-118 | in every state of relay, connection and receiver, the receiver has of each user a prefix of what the relay took from that user while the connection served it, up to the last complete frame, and nothing of another user |
| EndToEnd.ToEachTarget | r-nat-c/app1/tunnel.cpp:81-123 | relay, connections and agent together: each registered user's target has been sent what the agent's connections brought for it since its registration; the share of each connection is what the relay recorded as taken from that user, between two points of its record |
| EndToEnd.Offer | r-nat-s/app1/tunnel.cpp:69-136 | each port an agent announces when it connects is listed with that agent at the relay, if its server listens or it is listed already |
| EndToEnd.Introduce | r-nat-s/app1/user.cpp:8-46 | what the relay sends the chosen agent for a new user makes that agent register the user at the endpoint its policy gives, exactly if it knows the service and did not know the user |
| EndToEnd.Dismiss | r-nat-s/app1/user.cpp:48-73 | what the relay sends for a user that is gone closes the relay's side of that user's session at the agent, and ends the session if the target is gone too |
| EndToEnd.Answer | r-nat-s/app1/tunnel.cpp:187-242 | what the agent sends for bytes of the target makes the relay hand those bytes to that user and to nobody else |
| EndToEnd.Depart | r-nat-s/app1/tunnel.cpp:243-264 | what the agent sends for a target that is gone ends that user's session at the relay exactly if the user is gone, and else only marks it |
| Protocol.ShareSplit | r-nat-c/app1/session_tunnel.cpp:33-83 | packets handled from several connections fall into one ordered share per connection |
| Protocol.DemuxShare | r-nat-c/app1/session_tunnel.cpp:33-83 | if only one connection carries a user's data, its share is all of it |
| Agent.CorkStep | r-nat-c/app1/tunnel.cpp:99-107 | counting one more send and corking above the limit keeps flow control right |
| Agent.UncorkStep | r-nat-c/app1/tunnel.cpp:110-118 | counting one less and uncorking at half the limit keeps it right |
| Agent.UncorkTest | r-nat-c/app1/tunnel.cpp:112-118 | the test on the wrapping counter is the test on what is outstanding exactly when that has not wrapped to a small number |
| Agent.FlowOfASession | r-nat-c/app1/app1.h:39-51 | counters equal outstanding sends modulo 2^32; paused exactly while corked; corked means over half the limit is outstanding, uncorked means the limit is kept |
| Agent.PausedMeansOutstanding | r-nat-c/app1/user.cpp:49-75 | a paused connection has more than half the limit outstanding, so at least one send whose completion counts down towards resuming it |
| Agent.LifeOfASession | r-nat-c/app1/app1.cpp:177-190 | a disconnect flag means that side is closed; no registered session has both; with ids not reused an unregistered session is closed on both sides |
| Agent.Agent.Unregister | r-nat-c/app1/app1.cpp:188 | erasing a key leaves an open session behind exactly if the key leads to another session that is open |
| Agent.Agent.CleanSession | r-nat-c/app1/app1.cpp:177-190 | closes and unregisters a session exactly when both sides are gone, and keeps the invariants, with the same exact condition for a session left behind |
| Agent.WrongSessionErased | r-nat-c/app1/user.cpp:65-75 | a concrete run with a user id that comes back, in which a late completion unregisters the new session with both its connections open |
| Agent.CleanedUp | r-nat-c/app1/tunnel.cpp:169-188 | the first part of that run: a session cleaned up on both sides whose completion is still to come |
| Agent.Agent.OnServerConnect | r-nat-c/app1/tunnel.cpp:8-21 | every configured port is announced once, in order |
| Agent.Agent.OnServerRecv | r-nat-c/app1/tunnel.cpp:40-190 | every message, short and unknown ones included, keeps all invariants; only CONNECT registers and only DISCONNECT can unregister |
| Agent.Agent.OnData | r-nat-c/app1/tunnel.cpp:81-123 | the data goes to the session of the user in the message and to no other |
| Agent.Agent.OnConnect | r-nat-c/app1/tunnel.cpp:124-168 | registers a new session at the chosen address unless the user is known or the service is not |
| Agent.Agent.ByAddress | r-nat-c/app1/tunnel.cpp:142-150 | by address, users of a port with the same hash go to the same endpoint whatever their ids, and hashes lead around the endpoints in order |
| Agent.Agent.BySequence | r-nat-c/app1/tunnel.cpp:142-150 | by sequence number the address never matters, the first ids take the endpoints in order, and ids as far apart as there are endpoints meet |
| Agent.Agent.OnDisconnect | r-nat-c/app1/tunnel.cpp:169-188 | closes the session's own connection, and unregisters the session if its target is gone too |
| Agent.Agent.OnServerDisconnect | r-nat-c/app1/tunnel.cpp:23-32 | every registered session is closed on both sides and forgotten |
| Agent.Agent.OnUserRecv | r-nat-c/app1/user.cpp:39-76 | one DATA message with the session's user goes over its own connection if ready, else over the tunnel, and is counted |
| Agent.Agent.OnUserDisconnect | r-nat-c/app1/user.cpp:17-37 | the target side is closed and flagged, the relay is told, and the session is unregistered if both sides are gone |
| Agent.Agent.OnSessionRecv | r-nat-c/app1/session_tunnel.cpp:33-105 | DATA is delivered to the user in the message, DISCONNECT closes and flags that user's session and unregisters it if its target is gone too, everything else changes nothing |
| Agent.Agent.OnSessionConnect | r-nat-c/app1/session_tunnel.cpp:8-21 | announces the session and marks it ready |
| Agent.Agent.OnSessionDisconnect | r-nat-c/app1/session_tunnel.cpp:23-31 | closes and flags the relay side for good |
| Agent.Agent.OnDelivered | r-nat-c/app1/tunnel.cpp:110-121 | the completion of a send to the target counts down, uncorks and cleans up |
| Agent.Agent.OnTaken | r-nat-c/app1/user.cpp:65-75 | the completion of a send to the relay does the same for the other direction |
| Relay.Relay.OnAgentConnect | r-nat-s/app1/tunnel.cpp:8-14 | the registry stays sound if and only if no listed service mentions the new number |
| Relay.Relay.OnAgentDisconnect | r-nat-s/app1/tunnel.cpp:16-59 | no service mentions the agent any more, every service loses exactly that agent and is listed exactly while it has agents; the agent's sessions are told exactly if one of its ports is listed |
| Relay.Relay.OnBind | r-nat-s/app1/tunnel.cpp:69-136 | lists a service whose server listens, or joins an existing one, records the port and acknowledges; a server that returns false leaves only a failure reply, one that throws leaves nothing at all |
| Relay.FailureReply | r-nat-s/app1/tunnel.cpp:81-124 | a port that could not be opened is reported with the error code -1, four bytes 0xFF |
| Relay.Relay.OnUnbind | r-nat-s/app1/tunnel.cpp:137-186 | the agent leaves the service and the port, an empty service is shut down, the reply is always sent |
| Relay.Relay.OnSession | r-nat-s/app1/tunnel.cpp:265-314 | keeps the registry; adds the port to the agent; looks the session up under the connection's own number |
| Relay.Relay.OnAgentRecv | r-nat-s/app1/tunnel.cpp:61-316 | every message keeps the registry and the records of the connections; each kind does what its handler does and nothing else: only well-formed BIND and UNBIND change services or send replies, only DATA reaches users, only DISCONNECT and SESSION touch sessions |
| Relay.Relay.OnData | r-nat-s/app1/tunnel.cpp:187-242 | the bytes go to the user in the message if that user has a session, and to nobody else |
| Relay.Relay.OnDisconnect | r-nat-s/app1/tunnel.cpp:243-264 | the session's tunnel side is gone; it is cleaned up exactly if its user is gone too, and no other session is |
| Relay.Relay.OnUserConnect | r-nat-s/app1/user.cpp:8-46 | announces the user to the agent at the given position in the ordered set; that agent is always found, so the return for a missing one is never taken |
| Relay.Relay.OnUserRecv | r-nat-s/app1/user.cpp:75-118 | bytes of a user with a session are taken and sent as that user's DATA to the connection that serves it; the records of all connections stay true |
| Relay.Relay.OnUserDisconnect | r-nat-s/app1/user.cpp:48-73 | the agent is told unless its side is gone for good, and the session is cleaned up if it is |
| Relay.Relay.Listen | r-nat-s/app1/app1.cpp:62 | the agents' server accepts, with one connection waiting for each endpoint |
| Relay.Relay.OnAccept | r-nat-s/network/tcpserver.cpp:67-90 | an accepted connection becomes an agent without ports; exactly one new connection waits for the next, also after an error, and starts with an empty record |
| Relay.Relay.OnConnectionLost | r-nat-s/network/tcpserver.cpp:51-55 | a lost connection leaves registry and records sound |
| Relay.Relay.OnLine | r-nat-c/network/tcpconnection.hpp:215-317 | whatever happens on a connection leaves its record true |
| Relay.Nth | r-nat-s/app1/user.cpp:22-24 | advancing an ordered set by n gives the element with exactly n smaller ones |
| Relay.Relay.TellSessions | r-nat-s/app1/tunnel.cpp:33-41 | every session of the agent is flagged, and those whose user is gone are closed |
| TcpServer.FreeExactly | r-nat-s/network/tcpserver.cpp:92-100 | a free sequence number exists if and only if fewer than 2^32 are in use |
| TcpServer.TcpServer.GetNextSeq | r-nat-s/network/tcpserver.cpp:92-100 | the search ends despite wrap-around and gives the first free number after the last one given out |
| TcpServer.TcpServer.StartNextConnection | r-nat-s/network/tcpserver.cpp:36-65 | a new connection never overwrites a live one |
| TcpServer.TcpServer.Start | r-nat-s/network/tcpserver.cpp:4-34 | the server runs if it has endpoints, with one connection waiting for each |
| TcpServer.TcpServer.OnAccept | r-nat-s/network/tcpserver.cpp:67-90 | unless cancelled or closed, exactly one new connection is added and takes over the waiting, also after an error; live connections stay; the application is told of an accepted one only |
| TcpServer.AlwaysAccepting | r-nat-s/network/tcpserver.cpp:67-90 | in every state a running server has a connection waiting to be accepted, unless an accept was cancelled |
| TcpServer.TcpServer.Send | r-nat-s/network/tcpserver.cpp:129-136 | offers the message to the live connection of that number and to no other |
| TcpServer.TcpServer.SendV | r-nat-s/network/tcpserver.cpp:138-145 | the same for a list of buffers |
| TcpServer.TcpServer.BlockRecv | r-nat-s/network/tcpserver.cpp:147-154 | blocks or unblocks that connection and no other |
| TcpServer.TcpServer.Close | r-nat-s/network/tcpserver.cpp:102-122 | every connection is closed and forgotten |
| Utf8.MasksAreSums | deps/rapidxml/include/rapidxml/rapidxml.hpp:1523-1549 | the masks, shifts and marks of the source are the bytes of the layout |
| Bits.ContinuationMask | deps/rapidxml/include/rapidxml/rapidxml.hpp:1531 | setting bit 7 and clearing bit 6 of any number leaves its low six bits under the mark 0x80 |
| Utf8.EncodeRoundTrip | deps/rapidxml/include/rapidxml/rapidxml.hpp:1512-1555 | a decoder for the layout of RFC 3629 section 3 recovers every code below 0x110000 from what is written |
| Utf8.EncodeShortest | deps/rapidxml/include/rapidxml/rapidxml.hpp:1512-1555 | in the fewest bytes that can carry it |
| XmlNumbers.NumericExactly | deps/rapidxml/include/rapidxml/rapidxml.hpp:1638-1685 | a numeric reference is accepted if and only if its number modulo 2^64 is below 0x110000, and then gives the UTF-8 form of that number |
| XmlNumbers.WrappedReference | deps/rapidxml/include/rapidxml/rapidxml.hpp:1652-1670 | a reference to 2^64 + 65 is read as the letter A |
| XmlText.InsertCodedCharacter | deps/rapidxml/include/rapidxml/rapidxml.hpp:1512-1555 | writes exactly the UTF-8 bytes at the destination and nothing else |
| XmlText.TurnAt | deps/rapidxml/include/rapidxml/rapidxml.hpp:1596-1713 | what one turn of the expansion writes is never longer than what it reads |
| XmlText.SkipAndExpand | deps/rapidxml/include/rapidxml/rapidxml.hpp:1571-1719 | expanding in place gives what an out-of-place decoder gives, and never touches unread text |
| XmlParser.Parse | deps/rapidxml/include/rapidxml/rapidxml.hpp:1381-1412 | the destructive parser decides and builds exactly what the parser functions say about the text before the call; every name and value stands zero-terminated in the final buffer |
| XmlParser.ReadContents | deps/rapidxml/include/rapidxml/rapidxml.hpp:2168-2235 | the terminator written over the next character does not change what is read |
| XmlParser.AppendData | deps/rapidxml/include/rapidxml/rapidxml.hpp:1941-1995 | data is expanded in place, terminated, appended, and becomes the element's value if that is empty |
| XmlParser.ReadElement | deps/rapidxml/include/rapidxml/rapidxml.hpp:2038-2078 | an element's name, attributes, value and children are those of the text, and its name is terminated last |
| XmlParser.ReadAttributes | deps/rapidxml/include/rapidxml/rapidxml.hpp:2238-2299 | attributes are those of the text, their names and values terminated in place |
| XmlParser.ReadCData | deps/rapidxml/include/rapidxml/rapidxml.hpp:1999-2035 | the text up to the first end mark, terminated in place |
| XmlGrammar.Classes | deps/rapidxml/include/rapidxml/rapidxml.hpp:2307-2447 | the tables of white space, name and attribute name characters, written out |
| XmlGrammar.DigitTable | deps/rapidxml/include/rapidxml/rapidxml.hpp:2540-2561 | one table of digits for both bases |
| XmlGrammar.TextRead | deps/rapidxml/include/rapidxml/rapidxml.hpp:1571-1719 | text spelt with raw characters, named references and decimal or hexadecimal ones is read as what it means |
| XmlGrammar.TextSpelt | deps/rapidxml/include/rapidxml/rapidxml.hpp:1571-1719 | and every text that is read is such a spelling |
| XmlAccepts.AttributesRead | deps/rapidxml/include/rapidxml/rapidxml.hpp:2238-2299 | attributes in either quotes, with white space around '=' and behind, are read as their names and values |
| XmlAccepts.NodeRead | deps/rapidxml/include/rapidxml/rapidxml.hpp:2084-2163 | elements, CDATA, comments, instructions, DOCTYPE and unknown declarations, however spaced, are read as the nodes they stand for, or none |
| XmlAccepts.ContentsRead | deps/rapidxml/include/rapidxml/rapidxml.hpp:2168-2235 | so are the contents of an element; runs of white space make no node; a closing tag may have any name |
| XmlAccepts.NodeSpelt | deps/rapidxml/include/rapidxml/rapidxml.hpp:2084-2163 | and every node that is read is the spelling of markup of the grammar |
| XmlAccepts.AcceptedExactly | deps/rapidxml/include/rapidxml/rapidxml.hpp:1381-1412 | the parser accepts a text if and only if it spells a document of the grammar up to the first terminator, and gives the nodes that document stands for |
| XmlAccepts.LayoutLaw | deps/rapidxml/include/rapidxml/rapidxml.hpp:2307-2312 | spellings that differ only in spaces, line feeds, carriage returns and tabs between tokens are parsed to the same nodes |
| XmlPrinter.CopyAndExpandChars | deps/rapidxml/include/rapidxml/rapidxml_print.hpp:47-82 | the loop appends the escaped text |
| XmlPrinter.PrintAttributesTo | deps/rapidxml/include/rapidxml/rapidxml_print.hpp:121-147 | the loop appends all attributes, each in quotes its value does not contain if possible |
| XmlPrinter.PrintNodeTo | deps/rapidxml/include/rapidxml/rapidxml_print.hpp:320-378 | appends what the printer functions say of a tree |
| XmlLexical.DecodeEscaped | deps/rapidxml/include/rapidxml/rapidxml_print.hpp:47-82 | the parser's decoder undoes the printer's escaping of any text without terminator |
| XmlLexical.AttributesPrinted | deps/rapidxml/include/rapidxml/rapidxml_print.hpp:121-147 | printed attributes are read back as they were |
| XmlRoundTrip.NodePrinted | deps/rapidxml/include/rapidxml/rapidxml_print.hpp:185-237 | a printed node is read back in its normal form |
| XmlRoundTrip.ChildrenPrinted | deps/rapidxml/include/rapidxml/rapidxml_print.hpp:112-119 | printed children are read back with neighbouring data joined and blank data dropped |
| XmlRoundTrip.RoundTrip | deps/common/xmlserializer.h:362-387 | printing and parsing gives the normal form of every document that can be written down |
| XmlExact.RoundTripExactly | deps/common/xmlserializer.h:362-387 | printing and parsing gives the same document back if and only if it is well formed, for every document |
| XmlExact.SecondRoundTrip | deps/common/xmlserializer.h:362-387 | after one round trip a second changes nothing |
| XmlExact.DocumentProduced | deps/rapidxml/include/rapidxml/rapidxml.hpp:1381-1412 | every document the parser returns is made of nodes it can have produced, with no data at the top |
| DomList.Rebuilt | deps/rapidxml/include/rapidxml/rapidxml.hpp:1329-1336 | an operation on one list leaves every other list linked, relying on meaningful pointers only |
| DomList.Prepended | deps/rapidxml/include/rapidxml/rapidxml.hpp:1077-1093 | the links set by prepending are those of the longer list |
| DomList.Inserted | deps/rapidxml/include/rapidxml/rapidxml.hpp:1127-1135 | the links set by inserting in the middle are those of the longer list |
| DomList.Removed | deps/rapidxml/include/rapidxml/rapidxml.hpp:1180-1185 | the links set by removing from the middle are those of the shorter list |
| DomList.XmlNode.PrependNode | deps/rapidxml/include/rapidxml/rapidxml.hpp:1077-1093 | the children are the new child and then the old ones; all nodes stay linked |
| DomList.XmlNode.AppendNode | deps/rapidxml/include/rapidxml/rapidxml.hpp:1098-1113 | the children are the old ones and then the new child |
| DomList.XmlNode.InsertNode | deps/rapidxml/include/rapidxml/rapidxml.hpp:1120-1136 | the new child stands before the given one, or last |
| DomList.XmlNode.RemoveFirstNode | deps/rapidxml/include/rapidxml/rapidxml.hpp:1141-1151 | the first child is gone from the list and has no parent |
| DomList.XmlNode.RemoveLastNode | deps/rapidxml/include/rapidxml/rapidxml.hpp:1156-1168 | the last child is gone from the list and has no parent |
| DomList.XmlNode.RemoveNode | deps/rapidxml/include/rapidxml/rapidxml.hpp:1172-1186 | the given child is gone from its place and has no parent |
| DomList.XmlNode.RemoveAllNodes | deps/rapidxml/include/rapidxml/rapidxml.hpp:1189-1194 | there are no children left and none of them has a parent |
| Bits.Mask | deps/rapidxml/include/rapidxml/rapidxml.hpp:574-578 | masking with a power of two less one is the remainder |
| MemoryPool.Aligned | deps/rapidxml/include/rapidxml/rapidxml.hpp:574-578 | aligning gives a multiple, skips less than one alignment, and moves no aligned address |
| MemoryPool.SlackSuffices | deps/rapidxml/include/rapidxml/rapidxml.hpp:614-628 | a new block needs at most this much slack, a function of header size and alignment, wherever it lies |
| MemoryPool.SlackReached | deps/rapidxml/include/rapidxml/rapidxml.hpp:614-628 | and needs all of it at some address |
| MemoryPool.SlackIsTight | deps/rapidxml/include/rapidxml/rapidxml.hpp:614 | the slack provided always covers it, is used up exactly for headers of one byte more than a multiple of the alignment, and is twice what a header as long as the alignment needs |
| MemoryPool.MemoryPool.AllocSize | deps/rapidxml/include/rapidxml/rapidxml.hpp:608-614 | a new block holds the header, the slack, and the request or the pool size, whichever is larger |
| MemoryPool.MemoryPool.AllocateAligned | deps/rapidxml/include/rapidxml/rapidxml.hpp:600-632 | for every alignment and every run regions are aligned, inside their block, pairwise disjoint and clear of block headers; behind a small request a new block has the rest of the pool size left |
| MemoryPool.MemoryPool.Clear | deps/rapidxml/include/rapidxml/rapidxml.hpp:526-538 | every dynamic block is freed once, newest first, and the pool is as new |
| MemoryPool.MemoryPool.DynamicDistinct | deps/rapidxml/include/rapidxml/rapidxml.hpp:526-538 | those blocks are different from one another and from the static memory |
| StreamBuf.StreamBuf.Reserve | deps/asio/1.10.6/include/asio/basic_streambuf.hpp:299-337 | succeeds exactly if size plus request is within the maximum; never changes the contents, whether it shifts or grows |
| StreamBuf.StreamBuf.Prepare | deps/asio/1.10.6/include/asio/basic_streambuf.hpp:204-209 | the bytes handed out are room behind unchanged contents |
| StreamBuf.StreamBuf.Commit | deps/asio/1.10.6/include/asio/basic_streambuf.hpp:223-229 | moves the put position by the count as an `int`: the bytes move from the room to the contents if and only if there are fewer than 2^31; beyond that the contents are what is left in front of the put position, if that is still behind the get position |
| StreamBuf.CopyIn | r-nat-c/network/tcpconnection.hpp:157-163 | prepare, write, commit appends the bytes if and only if there are fewer than 2^31 |
| StreamBuf.StreamBuf.Consume | deps/asio/1.10.6/include/asio/basic_streambuf.hpp:238-245 | removes bytes from the front, if and only if their number is below 2^31 |
| StreamBuf.StreamBuf.Overflow | deps/asio/1.10.6/include/asio/basic_streambuf.hpp:274-297 | appends one byte exactly while the size is below the maximum |
| StreamBuf.StreamBuf.Underflow | deps/asio/1.10.6/include/asio/basic_streambuf.hpp:254-265 | shows the front byte and changes no contents |
| StreamBuf.AsInt | deps/asio/1.10.6/include/asio/basic_streambuf.hpp:227 | the cast keeps a count exactly below 2^31 |
| BufferCopy.CopyStep | deps/asio/1.10.6/include/asio/buffer.hpp:1706-1734 | copying between the two buffers under the cursors extends the copied prefix of the flattened sequences |
| BufferCopy.Splice | deps/asio/1.10.6/include/asio/buffer.hpp:1706-1734 | writing into one buffer of a sequence is a splice into its flattened contents |
| BufferCopy.Copy | deps/asio/1.10.6/include/asio/buffer.hpp:1693-1736 | copies exactly the smaller total; the flattened target is the source prefix and then its old rest; no other memory changes |
| BufferCopy.CopyBounded | deps/asio/1.10.6/include/asio/buffer.hpp:2186-2231 | the same for at most a given number of bytes |
| BuffersIterator.ByteAt | deps/asio/1.10.6/include/asio/buffers_iterator.hpp:301-304 | the byte at a buffer and offset is the byte at the flat position |
| BuffersIterator.SamePlace | deps/asio/1.10.6/include/asio/buffers_iterator.hpp:307-310 | two iterators are equal by flat position exactly if they are at the same buffer and offset, so one long move ends in the same state as single steps |
| BuffersIterator.BuffersIterator.Advance | deps/asio/1.10.6/include/asio/buffers_iterator.hpp:366-445 | every move inside the bytes, either way and across empty buffers, ends at the flat position moved by n with both positions in agreement |
| BuffersIterator.BuffersIterator.Increment | deps/asio/1.10.6/include/asio/buffers_iterator.hpp:313-334 | one byte forward, past any empty buffers |
| BuffersIterator.BuffersIterator.Decrement | deps/asio/1.10.6/include/asio/buffers_iterator.hpp:336-363 | one byte back, past any empty buffers |
| BuffersIterator.BuffersIterator.Begin | deps/asio/1.10.6/include/asio/buffers_iterator.hpp:127-144 | the place of the first byte |
| BuffersIterator.BuffersIterator.End | deps/asio/1.10.6/include/asio/buffers_iterator.hpp:147-163 | the place behind the last byte |
| BuffersIterator.BuffersIterator.Index | deps/asio/1.10.6/include/asio/buffers_iterator.hpp:178-183 | access relative to an iterator gives the byte at the moved flat position |
| BuffersIterator.Reach | deps/asio/1.10.6/include/asio/buffers_iterator.hpp:257-261 | moving an iterator by its distance to another reaches that one, before or behind it |
| BufferPool.BufferPool.Create | r-nat-c/app1/app1.cpp:150-163 | every buffer handed out is empty and not in the pool |
| BufferPool.BufferPool.Recycle | r-nat-c/app1/app1.cpp:163-174 | the pool keeps holding empty buffers exactly if the buffer returned holds fewer than 2^31 bytes |
| BufferPool.BufferPool.Release | r-nat-c/app1/app1.cpp:163-174 | the same for a packet that has been written and consumed before it is returned |

## Left out

- Sockets, acceptors, resolvers, timers, keep-alive options, threads and strands: only their calls and completions appear. Tasks posted by one connection run in order.
- Byte order: both ends are little-endian, so the native `uint32_t` of one is that of the other.
- A connection after `Close()`: the early return of `__Send` without `on_allocbuf` and the calls through cleared functions are not modelled.
- What a damaged buffer does: a buffer whose positions have left it shows memory that is not its own, and of buffers from a damaged pool nothing is claimed. That other users of a pool keep it sound is a premise of the end-to-end theorems.
- `TcpClient::Start` does not hand `nodelay_` and `defragment_` on to the connection it creates; the model takes the queueing mode as given.
- Data buffers queued by reference are not changed by anyone else while they are queued.
- `RawTCPConnection`, the unframed twin of the connection: the users' side ends at the bytes handed to it.
- Reconnecting after the relay is lost: the agent's model forgets the sessions, and later messages come from another tunnel connection.
- That the agent's handlers are given, in order, what a connection delivered, and that a receiver's bytes are a prefix of the sender's, are premises of the end-to-end theorems: they are the strand and the network.
- Agent.PausedMeansOutstanding: does not say that the completion will run, because after a write error or a close the completions still queued do not.
- The relay's flow control (its user direction resumes on the other direction's counter) and session identity after SESSION, for which the code does not support an invariant.
- Blocking one tunnel connection that several sessions share, and byte order across the switch from the tunnel to a session's own connection.
- `fnv_hash_int`: the hash is a parameter of the handler.
- Starting a server: how it ends is a parameter of BIND. With one endpoint `RawTcpServer::Start` listens or throws; it returns false only without endpoints.
- Sequence numbers with all 2^32 in use: the source searches for ever, and `GetNextSeq` asks for a free one.
- Attribute lists of a node: the same six operations again on other fields.
- The parser and the printer work on tree values; `DomList` and `MemoryPool` model the lists and the memory they would use on the heap.
- `parse_error::where`, XML declarations, comments, DOCTYPE and processing instructions as nodes (dropped under flags 0, and so here), other parse and print flags, wide characters, `XML_DOCUMENT_MIN_LENGTH`.
- `clone_node`, `set_allocator`, allocation failure and address wrap-around in the pool.
- Stream buffer contents after a failed `reserve`: the positions keep their values, the bytes have moved.
- `buffers_iterator` moves outside the bytes: the source asserts there.
- Configuration loading, logging, console output and `main`.
