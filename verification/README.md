# galileo, verified in Dafny

Galileo is a FastCGI-to-Gemini proxy. A web server speaks FastCGI to it; it
asks a Gemini server for the page, turns gemtext into HTML and sends the
answer back, many requests sharing one connection. A privileged parent hands
the configuration to worker processes over imsg, a framed message protocol
with descriptor passing. This project models the parts of it that carry
unbounded properties and proves those properties for all inputs, all runs and
all reachable states.

| file | what it models |
|---|---|
| Common | bytes, optional values, putting sequences together |
| IdOrder, SplayShape, SplayTree | the wrapping id comparators, the top-down splay tree on shapes, and its pointer-rewriting macros on the heap |
| RedBlackShape, RedBlackTree | the red-black tree of the same header, likewise on shapes and on the heap |
| ImsgWire, ImsgTransport, Ibuf, Imsg, ProcDispatch | the wire format, the transport as a step system, growable buffers, the imsg buffers, and the event loop around them |
| FcgiRecord, Tmpl, FcgiOut, Escape | record framing, the buffered template writer, the way out of a connection, the two escaping writers |
| FcgiParams, FcgiFraming, FcgiIn, FcgiRequests, FcgiServed | name-value pairs, the framing loop for whatever records do, what each record does, requests over the life of a connection, whole requests from the bytes on |
| Html, Gemtext, Pages, ProxyRead, Reply | a tokenizer and nesting, the gemtext translator with the page around it, the error and input pages, reading the upstream reply, and the reply from end to end |
| Browser, PageText, DocumentText, PagesText | a reader of pages, and what it sees of lines, whole documents, error and input pages |
| CLiteral, TemplateCompiler, TemplateText, TemplateReader, TemplateMeaning | how C reads what printq prints, the compiler's emission and its meaning, the braces of the printed text, a reader of that text as C, and what it does when run |
| ConfigProto, ConfigCode | configuration distribution as a step system, and the parent's and a worker's code |

How the models are built. Code that updates objects in place is a class whose
methods carry the loops; each method is proved equal to a function on values,
and the properties are lemmas about those functions. Heap trees are read
through a snapshot that maps nodes to cells, so that a pointer write is a map
update. Protocols are step systems whose runs are sequences of states, and
their theorems speak of every run. Input from the operating system (what
sendmsg and recvmsg took, how a stream is cut up, which operation fails) is a
parameter or an event. Where the code reads bytes that have not arrived or
overflows an int, the model gives no value and says only that it happens.
Strings are C strings, one char for each byte.

Where the code is narrower than its purpose, the model follows the code, and
a lemma gives the exact condition under which the property holds:

- the parameter loop miscounts after a name of more than 31 bytes unless the
  value is empty, and goes on beyond its record unless what is left of it is
  refused (`FcgiParams.EncodedIff`, `FcgiParams.RefusedIff`,
  `FcgiParams.OpenIff`);
- a POST body record is read 2047 bytes deep, and an abort of a live request
  leaves its content unread (`FcgiIn.ExactWhen`);
- padding is dropped when it is there and never waited for
  (`FcgiFraming.PaddingInTime`);
- tp_urlescape pads control bytes below 0x10 with a space instead of a zero
  (`Escape.UrlEscapeExact`), and leaves '&' alone, so that a browser reads an
  entity spelled in a URL as a character (`Browser.HrefExact`);
- printq leaves backslashes alone (`CLiteral.SpelledExact`,
  `TemplateCompiler.PreservedIff`);
- a header line beyond 1024 bytes is accepted or refused depending on how it
  arrives (`ProxyRead.FitsIffAnySegmentation`);
- overlapping reloads, or ones that change sc_prefork, can let a start go out
  early or never (`ConfigProto.BarrierIff`, `ConfigProto.PreforkIff`,
  `ConfigProto.StuckIff`, `ConfigProto.OverlapStartsEarly`);
- a web server that closes a stream twice has the request started twice
  (`FcgiRequests.StartsAreClosings`);
- the END_REQUEST for a refused role may overtake what a live request of the
  same id has buffered (`FcgiOut.RefuseNeedsEmpty`);
- the wrapping id comparator orders ids only within half the circle
  (`IdOrder.OrderIffWindow`).

Standards followed: sections 3.3, 3.4 and 5.1 to 5.5 of the FastCGI
Specification 1.0, and section 2.1 of RFC 3986 for percent-encoding.

`dafny verify dfyconfig.toml` checks the whole project.

## Model

| member | source | states |
|---|---|---|
| IdOrder.CmpIsRankOrder | fcgi.c:751-761 | within a window of 2^31 ids the wrapping comparators agree with the distance from the window's base |
| IdOrder.OrderIffWindow | fcgi.c:751-761 | the wrapping comparator is a strict total order on a set of ids if and only if the ids fit a half circle starting at one of them |
| IdOrder.RequestIdsOrdered | fcgi.c:757-764 | on 16-bit request ids the comparator is always a strict total order |
| SplayShape.LoopKeepsOrder | compat/sys/tree.h:211-245 | every turn of the top-down splay keeps in-order(left) ++ in-order(current) ++ in-order(right) |
| SplayShape.SplayedKeepsOrder | compat/sys/tree.h:211-245 | splaying for any id never changes the in-order sequence |
| SplayShape.SplayedSplits | compat/sys/tree.h:211-245 | after a splay everything left of the root is below the id and everything right of it above, the root itself being the nearest |
| SplayShape.SplayedLookup | compat/sys/tree.h:129-139 | the root after a splay answers the lookup of the id in the finite map the tree stands for |
| SplayShape.SplayedMinMaxFinds | compat/sys/tree.h:247-279 | SPLAY_MINMAX keeps the order and brings the first or last element to the root |
| SplayShape.InsertRefines | compat/sys/tree.h:164-187 | SPLAY_INSERT is insertion into a finite map, and leaves the map alone when the id is present |
| SplayShape.RemoveRefines | compat/sys/tree.h:189-208 | SPLAY_REMOVE is removal from a finite map, in a tree that stays sorted |
| SplayShape.DrainStep | fcgi.c:671-674 | removing the least element of a nonempty tree leaves exactly the rest of its elements, in order |
| SplayShape.FitIffOrdered | fcgi.c:751-761 | ids fit a half circle if and only if the wrapping comparator is a strict total order on them |
| SplayShape.CounterFits | fcgi.c:751-761 | ids taken from a wrapping counter fit a half circle as long as all in use lie within 2^31 counts of the oldest |
| SplayShape.Rebase | fcgi.c:751-761 | a tree sorted in one window is sorted in every window that holds its ids, so that the window may move as ids come and go |
| SplayShape.StepRefines | compat/sys/tree.h:123-208 | find, insert, remove, min and max on a tree whose ids fit a half circle with the operand act and answer as on a finite map, and keep the order |
| SplayShape.RunRefines | compat/sys/tree.h:123-208 | every run of these operations in which the ids in use fit a half circle at each step, wherever that lies, leaves a sorted tree that stands for the finite map of the same run, the last answer being that of the map |
| SplayTree.RotateRight | compat/sys/tree.h:89-93 | the pointer writes of the macro realise the rotation on the tree, everything else unchanged |
| SplayTree.RotateLeft | compat/sys/tree.h:95-99 | the mirror image |
| SplayTree.LinkLeft | compat/sys/tree.h:101-105 | the current tree's root moves to the right spine and the left child becomes current |
| SplayTree.LinkRight | compat/sys/tree.h:107-111 | the mirror image |
| SplayTree.Assemble | compat/sys/tree.h:113-118 | the three trees become one, the dummy node left out |
| SplayTree.Head.Splay | compat/sys/tree.h:210-245 | the pointer loop terminates and yields the splayed tree |
| SplayTree.Head.SplayMinMax | compat/sys/tree.h:247-279 | the pointer loop yields the tree splayed to its first or last element |
| SplayTree.Head.MinMax | compat/sys/tree.h:154-160 | null exactly for an empty tree, otherwise the first or last element in order, the map unchanged and the answer its extreme key |
| SplayTree.Head.Find | compat/sys/tree.h:129-139 | the tree is splayed; when the ids fit a half circle with the key, the answer is the map's entry for it, null exactly when there is none, and the map is unchanged |
| SplayTree.Head.Insert | compat/sys/tree.h:165-187 | the shape is that of the insertion; when the ids fit, the map gains exactly the new element or, returning the element present, itself included, nothing |
| SplayTree.Head.Remove | compat/sys/tree.h:189-208 | the shape is that of the removal; when the ids fit, the map loses exactly that key, and the argument is returned exactly when it was there |
| SplayTree.Head.Drain | fcgi.c:671-674 | the loop of SPLAY_MIN and SPLAY_REMOVE terminates and empties the tree |
| RedBlackShape.PlugOrder | compat/sys/tree.h:407-593 | the in-order sequence of a subtree put back is the sequence around it with its own in the middle |
| RedBlackShape.HeightBound | compat/sys/tree.h:54-62 | a valid tree of n elements is at most 2 lg (n + 1) high |
| RedBlackShape.InsertFixOrder | compat/sys/tree.h:407-450 | RB_INSERT_COLOR moves no element |
| RedBlackShape.InsertFixRB | compat/sys/tree.h:407-450 | RB_INSERT_COLOR makes a valid tree of one whose only fault is a red node below a red parent |
| RedBlackShape.SearchFinds | compat/sys/tree.h:626-642 | the search path ends at an element exactly when its key is present |
| RedBlackShape.InsertRefines | compat/sys/tree.h:595-624 | RB_INSERT on a valid tree gives a valid sorted tree with exactly the new key added, or the same tree when the key is present |
| RedBlackShape.RemoveFixOrder | compat/sys/tree.h:452-526 | RB_REMOVE_COLOR moves no element |
| RedBlackShape.ShortHasSiblings | compat/sys/tree.h:459-522 | in a tree with one short subtree the sibling, and its child that a rotation needs, is there whenever it is dereferenced |
| RedBlackShape.RemoveFixRB | compat/sys/tree.h:452-526 | RB_REMOVE_COLOR terminates in a valid tree for every otherwise valid tree with one short subtree |
| RedBlackShape.RemovedRB | compat/sys/tree.h:528-593 | RB_REMOVE of any member of a valid tree gives a valid tree |
| RedBlackShape.RemovedOrder | compat/sys/tree.h:528-593 | RB_REMOVE keeps exactly the other elements, in order, in all of its cases |
| RedBlackShape.RemoveRefines | compat/sys/tree.h:528-593 | removal by key: valid, sorted, and the same elements but the one with that key |
| RedBlackShape.RunValid | compat/sys/tree.h:54-62 | every tree built by inserts and removes is valid, sorted and at most 2 lg (n + 1) high |
| RedBlackShape.InsertedRB | compat/sys/tree.h:595-624 | RB_INSERT keeps the red-black conditions, in a sorted tree or not |
| RedBlackShape.InsertAnswers | compat/sys/tree.h:595-624 | RB_INSERT answers with the element of equal key and leaves the sequence alone, or answers null and adds exactly the new element in its place |
| RedBlackTree.Head.RotateLeft | compat/sys/tree.h:343-361 | the pointer writes realise the rotation, parent links and root included |
| RedBlackTree.Head.RotateRight | compat/sys/tree.h:363-382 | the mirror image |
| RedBlackTree.Head.InsertColor | compat/sys/tree.h:408-450 | the recolouring loop on the heap terminates and yields the repaired tree |
| RedBlackTree.Head.Find | compat/sys/tree.h:626-642 | returns the element of a sorted tree with the key, or null exactly when there is none |
| RedBlackTree.Head.Insert | compat/sys/tree.h:596-624 | keeps a red-black tree with consistent parent links; a sorted one stays sorted and gains exactly the new element, or stays as it is and the element of equal key, itself included, is returned |
| RedBlackTree.Head.RemoveColor | compat/sys/tree.h:452-526 | the repair loop on the heap never dereferences a null sibling, terminates and yields the repaired tree |
| RedBlackTree.Head.Unlink | compat/sys/tree.h:575-587 | a node with at most one child gives its place to that child |
| RedBlackTree.Head.Successor | compat/sys/tree.h:537-541 | the walk ends at the in-order successor |
| RedBlackTree.Head.RemoveTwo | compat/sys/tree.h:537-592 | a node with two children is replaced by its successor and the tree repaired |
| RedBlackTree.Head.Remove | compat/sys/tree.h:528-593 | keeps a red-black tree and returns the node; a sorted tree stays sorted and loses exactly that node |
| ImsgWire.GetEncoded | compat/imsg/imsg.c:123-164 | a buffer that starts with a message yields exactly that message, its descriptor if it is flagged, and the rest of the buffer |
| ImsgWire.GetPartial | compat/imsg/imsg.c:123-164 | a proper prefix of a message is waited for |
| ImsgWire.WaitingLeavesRoom | compat/imsg/imsg.c:123-164 | a reader that waits for more holds fewer than MAX_IMSGSIZE bytes |
| ImsgTransport.SendMoves | compat/imsg/imsg-buffer.c:402-470 | a send of any size moves exactly its bytes, and the first buffer's descriptor with the first of them, out of the queue |
| ImsgTransport.DrainDropsNothing | compat/imsg/imsg-buffer.c:375-391 | within one gathered batch msgbuf_drain closes no descriptor that was not sent |
| ImsgTransport.InvAlways | compat/imsg/imsg.c:46-182 | in every run the composed messages lie, in order, among those taken, the reader, the socket and the queue |
| ImsgTransport.InOrderDelivery | compat/imsg/imsg.c:46-182 | in every run of composes, partial sends, partial receives and gets, the messages taken are a prefix of those composed with equal type, ids and data, each with its own descriptor |
| ImsgTransport.NothingLost | compat/imsg/imsg.c:46-182 | once nothing is queued or in flight and imsg_get wants more, every message and descriptor has arrived |
| Ibuf.GuardExact | compat/recallocarray.c:47-59 | the overflow guard rejects exactly the products above SIZE_MAX |
| Ibuf.Recallocarray | compat/recallocarray.c:38-88 | null exactly when a size does not fit, otherwise the old bytes cut or zero-filled to the new size, a replaced block wiped |
| Ibuf.Ibuf.Realloc | compat/imsg/imsg-buffer.c:84-102 | growth keeps the bytes and fails exactly beyond the buffer's maximum |
| Ibuf.Ibuf.Reserve | compat/imsg/imsg-buffer.c:104-122 | room for more bytes, or failure with nothing changed, across any number of growths |
| Ibuf.Ibuf.Add | compat/imsg/imsg-buffer.c:124-134 | the content grows by exactly the added bytes, or not at all |
| Imsg.Msgbuf.Enqueue | compat/imsg/imsg-buffer.c:472-477 | the queue grows by that buffer |
| Imsg.Msgbuf.DequeueFirst | compat/imsg/imsg-buffer.c:479-491 | the first buffer leaves, its descriptor closed |
| Imsg.Msgbuf.Drain | compat/imsg/imsg-buffer.c:375-391 | exactly n bytes leave the front of the queue, and exactly the descriptors of buffers sent whole are closed |
| Imsg.Msgbuf.Gather | compat/imsg/imsg-buffer.c:419-430 | buffers are gathered up to the next one that carries a descriptor |
| Imsg.Msgbuf.Write | compat/imsg/imsg-buffer.c:402-470 | what was sent leaves the queue, and the one descriptor passed along is closed, no other |
| Imsg.Imsgbuf.Read | compat/imsg/imsg.c:46-121 | received bytes and the first received descriptor are appended to what is held, and every further descriptor is closed |
| Imsg.Imsgbuf.Get | compat/imsg/imsg.c:123-164 | the result and the remaining buffer are those of the wire format |
| Imsg.Imsgbuf.Create | compat/imsg/imsg.c:244-269 | null exactly when the sum of header and data length, wrapped to 16 bits, exceeds the largest message |
| Imsg.Imsgbuf.Compose | compat/imsg/imsg.c:166-182 | succeeds if and only if data length + 16 is at most 16384, and then queues exactly the encoded message |
| ProcDispatch.Imsgev.ComposeEvent | proc.c:690-701 | a composed message leaves EV_WRITE armed exactly when the queue is nonempty |
| ProcDispatch.ServesAllIff | proc.c:620-659 | the loop ends without a fatal error if and only if every complete message is taken by the callback or is a process pipe of full size, and the bytes after them may start another message |
| ProcDispatch.ServesAll | proc.c:620-659 | the messages served are those the wire format has in the buffer |
| ProcDispatch.SeenInOrder | proc.c:620-659 | the callback sees every message in order up to and including the first that nobody takes |
| ProcDispatch.AcceptedLeft | proc.c:638-658 | exactly the messages the callback declines, before the first that nobody takes, are accepted as process pipes |
| ProcDispatch.QueuedInOrder | proc.c:620-659 | what the callback composes on the pipe during the loop is queued behind what was there, in the order of the messages it sees |
| ProcDispatch.ServesRest | proc.c:620-660 | when the loop ends well the reader holds what follows the last message, fewer than MAX_IMSGSIZE bytes |
| ProcDispatch.Imsgev.HandleAll | proc.c:620-659 | the loop terminates with the messages handled and accepted, the write queue, the reader and the verdict of those lemmas, for any callback |
| ProcDispatch.Imsgev.Dispatch | proc.c:583-661 | an I/O error is fatal and nothing read or written means a dead pipe, nothing handled in either case; otherwise what was sent has left the queue, all messages are served as by the loop, and if the process goes on the read buffer has room for a message and EV_WRITE is armed exactly for a nonempty queue; so a write event that was armed always has bytes to offer to sendmsg |
| FcgiRecord.DecodeEncode | fcgi.c:43-57 | decoding a stream record by record inverts encoding |
| Tmpl.FillKeeps | template/tmpl.c:25-48 | buffering neither loses nor reorders anything, for any capacity above zero |
| Tmpl.Template.Flush | template/tmpl.c:153-163 | everything pending is handed on once |
| Tmpl.Template.Write | template/tmpl.c:25-48 | chunks handed on and what stays buffered are those of filling the buffer; all written so far grows by exactly the data |
| Tmpl.Template.Raw | fcgi.c:738-749 | data written past the buffer comes after everything handed on and before everything still buffered |
| FcgiOut.FramesEvents | fcgi.c:720-736 | the records of one write are worth exactly its bytes to its own request and nothing to any other |
| FcgiOut.StepAdds | fcgi.c:139-188 | one operation adds to each request's view exactly what that request asked for |
| FcgiOut.Delivered | fcgi.c:139-188 | for every interleaving of writes, flushes, raw writes, ends and refusals by any requests, the stream decodes, and grouped by id gives with what is buffered exactly what each request asked for in order; no STDOUT record is empty or over 65535 bytes |
| FcgiOut.EndedComplete | fcgi.c:165-188 | a request that has ended left nothing behind in a buffer |
| FcgiOut.RawNeedsFlush | proxy.c:851-853 | a raw write without the flush keeps the order if and only if the two byte strings commute |
| FcgiOut.RefuseNeedsEmpty | fcgi.c:549-559 | the END_REQUEST of a refused role that names a live request keeps that request's order if and only if its buffer is empty |
| FcgiOut.Output.DoWrite | fcgi.c:696-718 | the bytes of one STDOUT record |
| FcgiOut.Output.CltWrite | fcgi.c:720-736 | the loop writes the records that the data is split into, each of 1 to 65535 bytes |
| FcgiOut.Output.SendEndReq | fcgi.c:139-163 | the bytes of one END_REQUEST record, both statuses cut to a byte |
| FcgiOut.Output.WriteTo | template/tmpl.c:25-48 | tp_write with clt_write behind it sends exactly the records of the chunks that overflow the buffer, and the buffer holds the rest |
| FcgiOut.Output.FlushTo | template/tmpl.c:153-163 | the records of what was pending, and nothing pending after |
| FcgiOut.Output.EndRequest | fcgi.c:165-188 | what the template holds, then one END_REQUEST |
| Escape.HtmlRoundTrip | template/tmpl.c:100-135 | un-escaping inverts tp_htmlescape, so it is injective |
| Escape.HtmlEscapeSafe | template/tmpl.c:100-135 | escaped text holds none of the four markup characters |
| Escape.UrlEscapeExact | template/tmpl.c:73-98 | percent-decoding the escaped text gives what decoding the text gives if and only if the text has no control byte below 0x10 |
| Escape.UrlEscapeSafe | template/tmpl.c:73-98 | an escaped URL holds no quote, no backslash and no control byte |
| Escape.UrlEscapeBlank | template/tmpl.c:83-87 | an escaped URL holds no blank if and only if the URL has no control byte below 0x10 |
| Escape.WriteHtml | template/tmpl.c:100-135 | through a buffer of any capacity the loop writes exactly the escaped text |
| Escape.WriteUrl | template/tmpl.c:73-98 | through a buffer of any capacity the loop writes exactly the escaped text |
| FcgiParams.PairRoundTrip | fcgi.c:270-315 | a pair encoded with either width of each length is read back whole, with what follows it |
| FcgiParams.PairSpelled | fcgi.c:270-315 | whatever is read as a pair is the encoding of that pair |
| FcgiParams.PairMore | fcgi.c:270-305 | with more input a pair that has been read stays read, one that is refused stays refused, and a missing part of one can only be completed |
| FcgiParams.RefusedIff | fcgi.c:288-410 | a record of any bytes is refused whatever follows it if and only if it is encoded pairs and a rest whose lengths are refused with the counter as the pairs before left it, and then it is refused before any tail |
| FcgiParams.RefusedLater | fcgi.c:298-311 | after a name of over 31 bytes with a value, two lengths beyond what the counter then holds are refused |
| FcgiParams.OpenIff | fcgi.c:288-410 | for any bytes, how the loop ends depends on what follows the record if and only if it is neither the encoding of pairs that are stepped over exactly nor so refused; then bytes may follow with which it ends well or comes to a sum that overflows an int |
| FcgiParams.EncodedIff | fcgi.c:288-410 | an encoding of a list of pairs, with any widths, is consumed to the end with every pair applied in order if and only if no pair has both a name of over 31 bytes and a value; otherwise how the loop ends depends on what follows |
| FcgiParams.AcceptedIffEncoded | fcgi.c:288-410 | a record is accepted if and only if it is the encoding of such a list |
| FcgiParams.LastAcceptedWins | fcgi.c:317-403 | for every list of pairs: the last REQUEST_METHOD of under 8 bytes that spells get or post in either case makes the method GET or POST; the last SERVER_NAME and SCRIPT_NAME, PATH_INFO and QUERY_STRING that fit are taken up to a NUL, a script name with a slash added unless it ends in one, a path with one before it unless it starts with one; a field no pair is for stays as it was |
| FcgiParams.ScriptSlash | fcgi.c:331-351 | a script name ends in a slash unless a slash after a NUL byte stood in for it, and only then does not |
| FcgiParams.AlwaysSlashed | fcgi.c:331-373 | for NUL-free values script names end and paths start in a slash, whatever pairs arrive |
| FcgiIn.Fcgi.ParseLen | fcgi.c:270-286 | a one- or four-byte length, -1 exactly when four bytes are wanted and the counter has fewer, and for bytes that have not arrived exactly the range the length may lie in |
| FcgiIn.Fcgi.ParseParam | fcgi.c:298-407 | one turn, for any input: the pair applied and its bytes taken off, -1 exactly when that is certain whatever bytes are missing, or astray |
| FcgiIn.Fcgi.ParseParams | fcgi.c:288-410 | the loop terminates for any input: good with all consumed, bad exactly when it fails whatever arrives, astray exactly when that is open |
| FcgiIn.ExactWhen | fcgi.c:412-430 | a record of any bytes is handled alike whatever follows, taken off whole or refused, if and only if it is no POST body beyond 2047 bytes, no abort of a live request with a content, and no parameters of a live request other than encoded pairs stepped over exactly or encoded pairs and a rest that is refused |
| FcgiFraming.Segmentation | fcgi.c:479-648 | for whatever records do, every segmentation that keeps padding with its content handles each record once, in order, up to the first that closes the connection |
| FcgiFraming.LeftoverIsNext | fcgi.c:643-646 | content that is not taken is read as the next record |
| FcgiFraming.LatePadding | fcgi.c:643-646 | padding that arrives after its content is read as the next record |
| FcgiFraming.PaddingInTime | fcgi.c:643-646 | for padding of any length whose late part does not start with the version byte, the stream stays in step if and only if all of it arrived with the content |
| FcgiIn.ReadInOrder | fcgi.c:479-648 | for every sequence of records within the three limits and every such segmentation the connection ends as if each record had been handled whole, once and in order |
| FcgiIn.Fcgi.EndRequest | fcgi.c:165-188 | one END_REQUEST, the request gone, the connection done if it is not kept |
| FcgiIn.Fcgi.StartRequest | proxy.c:453-520 | the request is looked up upstream or answered and ended at once, as FcgiRequests.ClosedDecides states from its fields |
| FcgiIn.Fcgi.BeginRequest | fcgi.c:539-593 | wrong size or reuse of an unkept connection is fatal, an unknown role is answered, a live id ignored, otherwise one request is added; FcgiRequests.BeginDecides states each case from the bytes of the record |
| FcgiIn.Fcgi.GotParams | fcgi.c:601-615 | an empty record starts a GET request, any other is parsed |
| FcgiIn.Fcgi.ParseForm | fcgi.c:412-477 | an empty record starts the request, any other is read at most 2047 bytes deep; FcgiServed.FormCollected states what the records of a form come to |
| FcgiIn.Fcgi.Dispatch | fcgi.c:538-641 | the switch does to the connection what the record means and takes off the input what that record takes |
| FcgiIn.Fcgi.Read | fcgi.c:479-648 | the loop is the record machine run on whatever input there is, and terminates; good, bad or astray exactly as the machine runs on, closes or is lost |
| FcgiIn.Fcgi.Receive | fcgi.c:479-648 | a call after any further input is one step of that machine |
| FcgiRequests.StartedIffClosed | fcgi.c:601-615 | a record starts a request that stays live if and only if it is an empty PARAMS of a GET or an empty STDIN of a POST |
| FcgiRequests.ClosedDecides | proxy.c:453-520 | a record that closes a live request leaves it live with one more upstream operation exactly if it has a path, a server among the hosts, no body and body length 0; otherwise exactly one reply and one END_REQUEST with status 1 are added: 501 without a path, 501 for an unknown server, 400 for a body that was dropped, or the redirect to script, path without its first byte, a question mark and the body |
| FcgiRequests.BeginDecides | fcgi.c:539-593 | every outcome of a BEGIN_REQUEST from its bytes: error for a wrong size or on a connection not kept, END_REQUEST with FCGI_UNKNOWN_ROLE for another role, otherwise one new request unless the id is live, and the connection kept as bit 0 of the flags says |
| FcgiRequests.AbortDecides | fcgi.c:624-635 | an abort ends a live request with one END_REQUEST of status 1 and changes no other, and one of an id not in use changes nothing |
| FcgiRequests.InvAlways | fcgi.c:535-641 | in every run, whatever the web server sends, every id is in balance and every live request has one upstream operation for each record that closed it |
| FcgiRequests.Conservation | fcgi.c:535-641 | in every run, for every id, BEGIN_REQUEST records handled = END_REQUEST records written + 1 if live + BEGIN_REQUEST records ignored |
| FcgiRequests.StartsAreClosings | fcgi.c:601-615 | in every run a live request has been started twice if and only if two records closed it since it began |
| FcgiRequests.StartedTwice | fcgi.c:601-607 | two empty PARAMS records start a GET request twice if it has a path, a configured server and no body |
| FcgiRequests.StartedOnce | proxy.c:453-520 | with PARAMS before STDIN and each stream closed once, no request is ever started twice or before its PARAMS are complete |
| FcgiRequests.KeepOff | fcgi.c:561-567 | once the connection is not to be kept it never is again, and no request is added |
| FcgiRequests.KeptIff | fcgi.c:561-567 | in every run the connection is kept if and only if every BEGIN_REQUEST it accepted had bit 0 of its flags set |
| FcgiRequests.DoneMeansNotKept | fcgi.c:184-185 | in every run a connection is marked done only when it is not to be kept |
| FcgiServed.ParamsCollected | fcgi.c:595-607 | however the pairs are spread over PARAMS records, the client ends with all of them applied in order |
| FcgiServed.ParamsDecide | fcgi.c:595-607 | a new request, its pairs in any PARAMS records and then an empty one: started once if the last method is get and the last path and server will do, answered with one 501 and one END_REQUEST if they will not, left waiting if the method is another |
| FcgiServed.GetServed | fcgi.c:479-648 | the same from the bytes on, for a whole GET request on a kept connection however its bytes are cut up |
| FcgiServed.QueryExact | fcgi.c:459-464 | what is taken for the field q follows the first q= of the record, and none is taken if there is none |
| FcgiServed.FormCollected | fcgi.c:432-477 | the field q of a form, over any number of records, is what follows the first q= up to the next ampersand, if that has at most 1025 bytes |
| FcgiServed.PostRedirected | proxy.c:486-500 | a POST request whose form ends with an empty STDIN is answered with exactly one redirect, to its script, its path without the first byte, a question mark and the field q, and one END_REQUEST with status 1 |
| Html.LexPieces | fragments.tmpl:38-99 | under a tokenizer that skips quoted values the tags of a page are those of its pieces: no text or attribute value adds or hides one |
| Browser.SeenPieces | fragments.tmpl:38-99 | a reader of the characters, who un-escapes text and attribute values, sees of a page exactly what its pieces are meant to show |
| Browser.HrefExact | template/tmpl.c:73-98 | the value a browser takes from an attribute is the escaped URL if and only if the URL spells none of the five entities; without control bytes below 0x10 it percent-decodes to what the URL does under the same condition, and without entities if and only if there is no such byte |
| PageText.LinkPartsExact | proxy.c:303-318 | a link line of blanks, a URL, blanks and a caption is taken apart into the URL and the caption, or the URL again |
| PageText.LinkSplit | proxy.c:303-318 | every link line is spelled so |
| PageText.LineSeen | proxy.c:256-414 | for every line and flags, what a reader of the characters sees: the element by the first characters of the line, its text, and for a link or an image the resolved URL as an attribute; a list or list of links is opened or closed around it as the flags require |
| PageText.LineRead | proxy.c:256-414 | the text of a translated line is the line without its marker, or the label of its link |
| DocumentText.DocumentSeen | proxy.c:416-435 | every tag, attribute value and character a reader sees of a whole page, from the page's fields and the lines |
| DocumentText.DocumentRead | proxy.c:416-435 | the text of a page is its title and navigation, the text of the lines in order, and the original URL |
| PagesText.ErrorSeen | fragments.tmpl:174-195 | an error page shows its code, unless that is -1, and its reason |
| PagesText.InputSeen | fragments.tmpl:197-207 | an input page shows the prompt and a form that posts its answer as q |
| Gemtext.TagsByKind | proxy.c:256-414 | the tags of a translated line are fixed by the flags and the kind of the line, whatever its text, labels and URLs |
| Gemtext.LineLeads | proxy.c:256-414 | a line leads from the open elements its flags stand for to those of the next flags, of which at most one is ever set |
| Gemtext.HeadLeads | fragments.tmpl:38-73 | the head leaves exactly body and html open, for every page |
| Gemtext.FootLeads | fragments.tmpl:75-99 | the foot closes them |
| Gemtext.DocumentNests | proxy.c:873-913 | for every list of lines and every page, head, translated lines, closing at the end of the reply and foot are one well-nested document, character by character |
| Pages.ErrorNests | fragments.tmpl:174-195 | every error page is well nested, whatever the code and the server's words |
| Pages.ErrorShown | fragments.tmpl:175-183 | the error page is empty if and only if its code takes four characters or more |
| Pages.InputNests | fragments.tmpl:197-207 | every input page is well nested, whatever the prompt |
| Gemtext.Translator.EmitLine | proxy.c:256-414 | the flags and the pieces written, in order, for a line of a given kind; PageText.LineSeen states what they show from the line's characters |
| Gemtext.Translator.TranslateLine | proxy.c:256-414 | writes exactly the line's pieces through the template and keeps at most one flag set; PageText.LineSeen and PageText.LineRead state what a reader sees of them |
| Gemtext.Translator.CloseAll | proxy.c:888-906 | closes exactly what the flags say is open |
| ProxyRead.LinesAppend | proxy.c:416-435 | the complete lines of a text do not depend on where it is cut |
| ProxyRead.LineFirst | proxy.c:416-435 | a line ended by LF or CRLF is the first line of the text, without its end |
| ProxyRead.SuccessExact | proxy.c:827-843 | a header line of 2, a digit, blanks and a type brings gemtext if the type starts with text/gemini and its charset is not refused, is answered with Bad response if it is, and else brings a body of that type |
| ProxyRead.SuccessSplit | proxy.c:788-827 | every line that starts with 2, a digit and a blank and has four characters or more is spelled so |
| ProxyRead.VerdictExact | proxy.c:788-825 | for every header line: the error page of proxy_error if and only if it has fewer than four characters or not two digits and a blank; gemtext or a body only if it starts with 2; for any other, a request for input after 1, the redirect after 3 if it resolves, and else a report of its two digits and its text |
| ProxyRead.AnySegmentation | proxy.c:761-865 | any way of cutting the reply up gives what the whole reply gives at once, for header lines of at most 1024 bytes |
| ProxyRead.FitsIffAnySegmentation | proxy.c:781-786 | the reply is read the same under every segmentation if and only if its header line has at most 1024 bytes or is turned away anyway |
| ProxyRead.GemtextReply | proxy.c:761-865 | a reply of 2, a digit, blanks, a type that starts with text/gemini, CRLF and a body becomes, however it arrives, the document of its complete lines, well-nested at the end of the reply |
| ProxyRead.OtherReply | proxy.c:761-865 | a reply of 2, a digit, blanks, any other type, CRLF and a body passes the body on unchanged under that type, however it arrives |
| ProxyRead.AnsweredReply | proxy.c:788-825 | every other reply is answered at once, however it arrives, as its first characters say |
| ProxyRead.Upstream.TranslateGemtext | proxy.c:416-435 | the loop translates every complete line and keeps the unfinished one |
| ProxyRead.Upstream.WriteHeaders | proxy.c:842-853 | after the flush nothing waits in the template |
| ProxyRead.Upstream.StartBody | proxy.c:842-861 | the headers come before the body bytes that are already there |
| ProxyRead.Upstream.Receive | proxy.c:761-865 | a call after any further input is one step of the reply machine that ProxyRead.VerdictExact, GemtextReply and OtherReply speak of; what was written is headers, then translated lines or the body as it is |
| ProxyRead.Upstream.Finish | proxy.c:873-913 | at the end of the reply what is open is closed and the foot written, and nothing for a body that is not gemtext |
| Reply.StepSends | fcgi.c:720-736 | on a connection of many requests an operation adds exactly the bytes that Session counts for it |
| Reply.Session.Receive | proxy.c:761-865 | a call of proxy_read with the template writing through clt_write sends exactly the records of the operations it does |
| Reply.Session.Finish | proxy.c:873-913 | after the end of the reply the request's operations have asked for the text of the whole reply and one END_REQUEST, and their bytes are on the connection |
| Reply.Session.Serve | proxy.c:761-913 | for every way a reply arrives, the operations of the code are such as Reply.GemtextDelivered and Reply.BodyDelivered speak of |
| Reply.GemtextDelivered | proxy.c:761-913 | from end to end: for every way a gemtext reply arrives and every interleaving with other requests, decoding the connection's bytes gives the request the headers, the well-nested page of the reply's document, in which a reader sees the text of the lines in order, and one END_REQUEST, after what earlier requests under its id were sent |
| Reply.BodyDelivered | proxy.c:842-865 | the same for any other body, which arrives unchanged |
| CLiteral.PrintqExact | template/parse.y:746-756 | the printed literal reads back as the text if and only if the text has no backslash and no newline |
| CLiteral.SpelledExact | template/parse.y:140-147 | as many characters of the literal's array as the text has are the text if it has no backslash and no newline; the text with its one two-character escape read and a NUL after it if that is its only fault; and otherwise the literal is malformed or ends too soon |
| TemplateCompiler.ParseEmit | template/parse.y:151-285 | the printed lines parse back by their braces to the template's structure, whatever block they stand in |
| TemplateCompiler.Balanced | template/parse.y:151-285 | the printed lines have balanced braces |
| TemplateText.TextScan | template/parse.y:140-285 | in the C text of the lines, braces outside string and character literals move the depth exactly as the lines do |
| TemplateText.RawNeat | template/parse.y:140-150 | raw text without backslash and newline is one closed literal, whatever braces and quotes are in it |
| TemplateText.TextBalanced | template/parse.y:140-285 | the C text of a template whose C parts are balanced and whose literals C can read is balanced |
| TemplateReader.LineCut | template/parse.y:140-285 | the text of a printed line, between any others, is exactly its physical lines |
| TemplateReader.ReadBack | template/parse.y:140-285 | a reader of C statements, who goes by first words, parentheses, braces, the name called and its arguments, gets back from the text of a template with neat C parts exactly the printed lines: the writer called, the literal and its length, and the jump to the label |
| TemplateReader.FunctionRead | template/parse.y:151-173 | the same for a whole function: its signature, its lines up to the label, and what finally brings |
| TemplateCompiler.RawExact | template/parse.y:140-150 | a printed raw line writes the text, the text with its one escape read and a NUL, or is undefined, in exactly those three cases |
| TemplateCompiler.OneEscapeWritten | template/parse.y:140-150 | raw text of a, backslash, n, b is written as a, line feed, b and NUL |
| TemplateCompiler.CompilerExact | template/parse.y:140-299 | for every template, run and interpretation of its C parts the printed lines make the writes that the template means, raw text as its literal spells it, in the same order, and nothing after the first failure; TemplateMeaning.TextExact states it on the text |
| TemplateCompiler.RunPreserved | template/parse.y:140-299 | under every interpretation a run that comes to no raw text with a backslash or a newline does what the template means |
| TemplateCompiler.PreservedIff | template/parse.y:140-299 | with every write on record, a run does what the template means if and only if it comes to no such text |
| TemplateCompiler.CompilerPreserves | template/parse.y:140-299 | a template whose raw text has no backslash and no newline is preserved in every run |
| TemplateCompiler.FailureReported | template/parse.y:151-163 | whenever the printed function returns, it returns -1 if and only if the template, as its literals spell it, stopped at a failure |
| TemplateMeaning.TextExact | template/parse.y:140-299 | the text of a function, read as C and run with the three writers of tmpl.c, does what the template means with its raw texts as their literals spell them, for every template with neat C parts, every run and every meaning of these parts |
| TemplateMeaning.TextPreserves | template/parse.y:140-299 | it does what the template means if its raw text has no backslash and no newline |
| TemplateMeaning.ShowAppends | template/tmpl.c:73-140 | on an output that takes everything, the three writers add HtmlEscape(v), UrlEscape(v) and v |
| TemplateMeaning.PrintWrites | template/parse.y:190-213 | the text of a template that prints an expression of value v adds HtmlEscape(v), or UrlEscape(v) or v if it says so, and returns 0 |
| ConfigProto.Convergence | config.c:60-123 | in every run, with any number of failed or overlapping reloads, a worker whose channel is drained has exactly the list last distributed, in order, and every live client's entry lies in the worker's list |
| ConfigProto.Listening | proxy.c:136-151 | in every run, once a configuration has been distributed a worker whose channel is drained waits on the socket, and none is sent a socket while it has one |
| ConfigProto.CountBoundedIff | galileo.c:256-303 | in every run sc_reload never exceeds the replies still to come if and only if no distribution sets it above them |
| ConfigProto.StuckIff | galileo.c:284-303 | once everything sent is taken in and every reply counted, sc_reload is zero and the start has gone out if and only if the count was at most the replies to come |
| ConfigProto.ExactIffOrderly | galileo.c:271-272 | in every run the count equals the replies to come at every state, with one start per finished distribution, if and only if every distribution starts when none is pending and sets it to the number of workers |
| ConfigProto.Barrier | galileo.c:284-303 | without overlap, when a start is broadcast every worker has taken in its whole configuration and has the list last distributed |
| ConfigProto.BarrierIff | galileo.c:305-324 | after a reload in any reachable state every start finds every worker settled, in all continuations, if and only if sc_prefork is at least the replies still owed plus the number of workers |
| ConfigProto.BarrierIffIdle | galileo.c:305-324 | after an orderly run a reload keeps the barrier if and only if none is pending |
| ConfigProto.PreforkIff | galileo.c:305-324 | a reload that changes sc_prefork while nothing is owed keeps the barrier if and only if it is not lowered below the number of workers, and the start goes out if and only if it is not raised above |
| ConfigProto.OverlapStartsEarly | galileo.c:305-324 | a run in which overlapping reloads let a start go out before the newer configuration is taken in |
| ConfigCode.Parent.Compose | proc.c:729-750 | the message is appended to every instance's queue |
| ConfigCode.Parent.Configure | galileo.c:256-282 | every worker is sent the proxies in order, the socket and a done |
| ConfigCode.Parent.FirstConfigure | galileo.c:256-282 | the first configuration is a step of the protocol |
| ConfigCode.Parent.ReloadConfig | galileo.c:305-324 | a file that does not parse sends nothing but keeps what it had set, sc_prefork included; any other is preceded by a reset; either is a step of the protocol |
| ConfigCode.Parent.ConfigureDone | galileo.c:284-303 | counts down, and broadcasts a start exactly when the count reaches zero: a step of the protocol |
| ConfigCode.Proxyd.AbortRequest | fcgi.c:196-200 | the request is gone, or the whole connection with it |
| ConfigCode.Proxyd.Purge | config.c:60-93 | the nested loops terminate with every request ended and connection closed before the proxies are freed |
| ConfigCode.Proxyd.Dispatch | proxy.c:125-161 | the worker's state after each message, and a reply exactly to a done |

## Left out

- Allocation failure and failing buffer writes, except where a -1 result is part of a property; the model always has memory.
- libevent, libtls, libasr, sockets and accept: they appear as events that deliver or accept bytes.
- fork, exec, chroot, signals, the pidfile and logging.
- The configuration grammar and yacc's tables: the model starts from a parsed proxy list and, for the compiler, from a parse tree.
- The template lexer, and the printf construct, whose allocation failure jumps to the error label without setting tp_ret.
- Verbatim C inside a template is taken as straight-line code; one that returns or opens a brace is not modelled.
- Loops in templates run for a given number of turns in both meanings; that they finish is not claimed.
- imsg_flush, imsg_composev, imsg_compose_ibuf, ibuf_write and proc_flush_imsg, which repeat what is modelled.
- What a process callback does besides taking a message or not and composing on the pipe it came from.
- proc_accept, which installs the pipe of an accepted message: the model records the message.
- SPLAY_NEXT, RB_NFIND, RB_NEXT, RB_PREV, RB_MINMAX and the RBT wrappers, whose bodies are not in the repository.
- The amortized cost of splaying, for which no cost model is given; order and contents are proved.
- parse_mime, proxy_resurl, match_image_heur and the path handling of tp_navigation: string handling, passed in as functions or as page fields.
- The path of an error, input or redirect page to the web server: what is answered with which and the pages themselves are modelled.
- The locale: iscntrl is taken as ASCII, with bytes from 0x80 printable.
- Strings are C strings, that is NUL-free, except in FastCGI parameters, where what follows a NUL is modelled.
- Requests are values in their connection's map, so aliasing of client pointers is not modelled; that the map is a faithful index is what the splay tree proofs show.
- FcgiRequests.StartedOnce: for a web server that sends PARAMS before STDIN and closes each once, as the FastCGI Specification has it; FcgiRequests.StartsAreClosings covers every other.
- FcgiIn.Fcgi.ParseParams: where the result depends on bytes that have not arrived, says that and nothing of what is read; the counter itself is taken as unbounded.
- FcgiFraming.PaddingInTime: for late padding that does not start with the version byte; late padding that spells whole records is read as those records, as FcgiFraming.LatePadding states.
- ImsgTransport.InOrderDelivery: for a socket that delivers a descriptor with the first byte it was sent with, at most one per read.
- ConfigProto.Barrier: for distributions that start when none is pending and count every worker; ConfigProto.BarrierIff covers every other.
- Browser.SeenPieces: the reader knows tags, quoted attribute values and the five entities that tp_htmlescape writes, not the rest of HTML.
- FcgiServed.PostRedirected: for a field of at most 1025 bytes whose q= lies in one record, and forms without carriage returns, which end the field only in a record without an ampersand.
- TemplateReader.ReadBack: for C parts on one line that close their literals and parentheses, arguments without a comma of their own, rendered calls other than of the four writers, and verbatim code that is none of the printed statements.
- TemplateText.TextBalanced: C parts are taken without comments and spliced lines, and the line directives that dbg prints are not part of the text.
- CLiteral.SpelledExact: for the escape sequences of section 6.4.4.4 of ISO C; those a compiler adds, and trigraphs, are taken as malformed or as they stand.
- Reply.Session.Serve: for a reply that ends in an orderly end of file; the error page of a broken connection is not followed to the web server.
