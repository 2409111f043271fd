# A model of the Leactor proxy core

This project models and proves the parts of a small event-driven HTTP proxy that carry its
correctness: three resumable HTTP parsers, the code that turns a parsed request or response into a
gather list over the same buffer, the timer heap, the time arithmetic, Host validation, the receive
loop and the bump allocator. `dafny verify dfyconfig.toml` checks everything.

## What is modelled

**Parsers.** `RequestLine`, `HeaderLine` and `StatusLine` say, byte by byte, what the three
table-and-switch machines do to the fields of a request; `Requests.Request` is the object itself, with
parser methods that work in place on its fields, on `b.pos` and on the 32-byte ring of name bytes, each
proved equal to the byte-by-byte function. `RequestGrammar`, `HeaderLanguage` and `StatusLanguage`
describe the accepted texts as parse trees with a printer. The machines are proved to accept exactly
those texts and to record exactly the boundaries, flags, numbers, hash and ring of the tree, and
resuming over any cuts of the input is proved to be the same as one call. `RequestAnswers`,
`HeaderAnswers` and `StatusAnswers` settle the other inputs: which are asked to go on and which fail.

**From parser to gather list.** `Http` holds the header loop with its linked list and its lowercasing
in place, `Chains` the two constructors of gather lists, `RoundTrips` the theorems that the list points
at the bytes that came in with lowercased header names, and `Pipelines` the whole path from buffer to
list for a stream of requests that share one request object. `RequestLoops` says on which buffers that
path comes to an end at all, and `RequestReuse` and `StaleRequests` what one request leaves to the next.

**Timers, buffers, memory.** `HeapOrder`, `HeapNonzero` and `Heaps.MinHeap` are the heap with back-indices, `Times`
its clock arithmetic, `Receiving` the receive loop against a scripted socket, `Pools` the allocator.

### How C is read

- A byte is 0..255, which the tables of the parsers intend although they declare plain `char`. The
  byte-wise comparison macros are the ones compiled, and the NGX_WIN32 branches are off.
- A pointer is an offset into its buffer; those the code compares with NULL are `Null` or `At(offset)`.
- The rolling hash wraps at 2^32. Version numbers, lengths and times are unbounded: signed overflow is
  undefined in C, and no claim here is about it.
- The three parsers share one enumeration of states; the number 0 is `Start` in all of them, which is
  how one `state` field serves all three.
- An error return leaves `pos` and `state` unsaved, and at the end of the headers hash and ring index
  are unsaved as well. The functions `Call` say so.
- `lt_new_buffer`, `lt_alloc`, `realloc` and `aligned_alloc` succeed. A header element is filled before
  it is linked; the source links first. The first element's `next` is not set to NULL, so lists
  and gather lists end at `element_tail` and at the last node counted by `chain_len`.

### Where the code and its intent part

- The parsers rely on a fresh request (`Fresh`): `request_end`, `uri_ext`, `args_start` and
  `status.end` null, the flags and the major version zero, `status.code` and `status.count` zero, the
  method not GET, and `lowcase_index` in 0..31, where a name with an invalid first byte would otherwise
  write. `http_create_request` (http.c:104-123) sets only the state, and `http_process_request_line`
  uses one request object for all requests of a buffer. `RequestReuse.AsFresh` proves exactly when a
  valid line leaves in a used object what it leaves in a fresh one, result and all fields; its condition
  has one part for the end of the line, one for version and protocol, one for the method, one for the
  authority and one for the marks of the URI, and in `StaleRequests` there is for each of them a pair of
  requests that breaks it (`StaleEnd`; `StaleProtocol` and `StaleVersion`; `StaleMethod`;
  `StaleAuthority`; `StaleMarks` and `StaleFlags`). A line that is not valid fails in the same way and at
  the same byte in every object (`RequestReuse.SameCourse`). Canonical requests end with CR LF, have a version and leave no flag, so the
  round trips and the pipeline need no fresh object. A used `status` takes in a line with the digits
  that its count is short of three, and so none after a whole line (`StatusLanguage.AcceptsExactly`,
  `StatusLanguage.TakesOneLine`).
- The header loop (http.c:223-286) repeats a call that asks for more or fails.
  `HeaderBlocks.EndsExactlyOnBlocks` proves that it ends exactly on buffers with a complete block, and
  `RequestLoops.ReturnsExactly` that `http_process_request_line` comes back exactly on buffers in which
  every accepted line has such a block behind it.
- The hash taken for Host (http.c:457) covers the NUL and is not lowercased, so the value of a Host
  line is never validated (`HeaderBlocks.HostHashMisses`, `HeaderBlocks.HostValueKept`). The round trips
  assume that no header name has that hash, which a Host line satisfies (`Pipelines.HostIsCanonical`).
- `min_heap_elem_greater` (lea_heap.c:13-14) is a signed difference, which C tests for being non-zero.
  Order is proved for the comparison it is named for, conservation for every comparison
  (`HeapOrder.EraseBag` has the one exception), and `HeapNonzero` says exactly when push, pop and erase
  under the written comparison keep the order, with heaps for which they do not.
- A second application of `http_process_host` is not always the identity: `Hosts.Idempotent` has the
  exact condition.
- A sum of exactly 10^9 nanoseconds is not carried over; `Times.TimeoutMeans` has the one instant at
  which a timeout is therefore missed.
- `lt_new_memory_pool` adds the size of the manager where its header is the smaller pool struct, and
  `lt_alloc` starts a new pool when the position has passed the end of the old one, but returns the block
  of the old one. `Pools.Capacity` says which blocks lie inside their pool, `Pools.Manager.OnlyTheLastEscapes`
  that for elements of more than one whole word the last block of every pool that was left does not.
  Gather lists reach that block with the 15th header of a request (`Chains.HeadersThatFit`).

## Model

| member | source | states |
|---|---|---|
| Bytes.UsualIsPlain | ngx_http_parse.c:11-31 | the 256-bit table marks exactly the bytes the URI scan may pass over: all but NUL, LF, CR, space, hash, percent, plus, dot, slash and question mark |
| Bytes.OrBit5IsLetterTest | ngx_http_parse.c:283-289 | setting bit 5 and comparing with a..z accepts exactly the ASCII letters |
| Bytes.Characters | ngx_http_parse.c:146-149 | the bytes that the parsers and the grammars name are the characters of the source |
| Bytes.Classes | ngx_http_parse.c:146-440 | the byte classes shared by parsers and grammars, as sets of characters: letters, digits, the bytes of a method, of a registered host and of an address literal, and the plain bytes of a URI |
| Bytes.LowerMeans | http.c:190 | lowercasing leaves no upper-case letter and changes only those, by 32 |
| Bytes.HashIsSum | http.c:16-19 | the rolling hash of every string is the sum of its bytes times falling powers of 31, modulo 2^32 |
| Bytes.BKDRhash | http.c:14-22 | the loop computes that sum modulo 2^32 |
| RequestLine.Step | ngx_http_parse.c:137-797 | a turn leaves a well-formed state, steps back only from the two states behind spaces in a URI and then into a state that cannot, and fails only with the two parse errors; which input gets which answer is stated by RequestAnswers.AnswersExactly and RequestLanguage.AcceptsExactly |
| RequestLine.MethodNames | ngx_http_parse.c:161-264 | the fifteen method names as texts |
| RequestLine.MethodCodes | ngx_http_request.h:29-43 | each of the fifteen names has the bit of its constant |
| RequestLine.OtherMethods | ngx_http_parse.c:161-264 | any other name leaves the method field as it was |
| Requests.Request.ReadMethod | ngx_http_parse.c:161-264 | the nested comparisons by length and bytes recognise the fifteen method names and leave the field alone for any other |
| Requests.Request.ParseRequestLine | ngx_http_parse.c:101-821 | the in-place loop leaves in request and buffer exactly what the machine of RequestLine says, and takes at most two turns a byte; an error keeps position and state, asking for more is done at the end of the bytes, and a line that is taken in resets the state |
| RequestLanguage.AcceptsExactlyTheLanguage | ngx_http_parse.c:101-821 | from a fresh request, LOK is returned if and only if the input starts with a valid request line: CR and LF in front, a method, spaces, an origin-form or absolute-form target, an optional version, CR LF or LF; without a version only GET |
| RequestLanguage.AcceptsExactly | ngx_http_parse.c:803-821 | from a request in any condition, LOK is returned if and only if the input starts with a valid line that has a version, or finds a major version left over, or comes out with the method code of GET |
| RequestLanguage.Completeness | ngx_http_parse.c:137-821 | every valid line is taken in whatever follows it and whatever the request held before; return code, position and every field are determined: boundaries, method code, authority, the URI as scanned, protocol, version numbers and request_end come from its parse tree and, where the code adds to a field or leaves it, from the old field |
| RequestLanguage.Soundness | ngx_http_parse.c:137-821 | whatever the machine takes in, with or without that error, is the text of a valid parse tree |
| RequestAnswers.AnswersExactly | ngx_http_parse.c:101-821 | in any request, used or not, the parser asks for more exactly if the bytes are the proper beginning of a valid line; it answers INVALID_METHOD exactly if the byte behind blank lines and method bytes is not the space that ends a name, and INVALID_REQUEST exactly on all that is neither of these nor a line |
| RequestAnswers.AsteriskRefused | ngx_http_parse.c:295-296 | "OPTIONS *" is refused at once |
| RequestTarget.AuthorityComplete | ngx_http_parse.c:296-451 | schema, host, address literal and port of an absolute-form target are recorded at their ends |
| RequestTarget.AuthoritySound | ngx_http_parse.c:296-451 | nothing but a valid authority gets the machine to the path or the space behind it |
| RequestPath.ScanRun | ngx_http_parse.c:479-674 | wherever the one-pass URI scan stops, back-steps included, its URI part is that of a declarative reading of the bytes passed: the first byte that leaves the path, the last dot of the segment before it, the plus signs before it, and the hash signs and spaces anywhere |
| RequestPath.ScannedMeans | ngx_http_parse.c:479-674 | that reading has both flags clear if and only if they were and the URI needs no decoding; then arguments, extension and plus sign are those of the part before the first question mark, or the old ones where the scan writes none |
| RequestProperties.Resume | ngx_http_parse.c:799-806 | a call that asked for more, continued when more has come, is the call on all the bytes; any other result is not changed by more bytes |
| RequestProperties.PiecewiseIsWhole | ngx_http_parse.c:135-138 | for every way of cutting the input, the calls on the pieces return and record what one call on the whole does |
| RequestProperties.AtMostTwice | ngx_http_parse.c:599-620 | no byte is visited more than twice although the scan steps back, and a call takes at most twice as many turns as there are bytes |
| RequestProperties.Boundaries | ngx_http_parse.c:788-811 | on LOK request_start, method_end, uri_start, uri_end, request_end and pos are in order, the URI starts with a slash and holds no CR, LF or NUL, and request_end is where the line terminator starts |
| RequestProperties.RecordedUri | ngx_http_parse.c:382-451 | whatever the request held before, the recorded URI of every valid line is its path, or the first slash of the "://" that is borrowed for a missing path; it starts with a slash, holds no CR, LF or NUL, and all its flags and marks are what the scan of just those bytes makes of the old ones |
| RequestProperties.FlagSoundness | ngx_http_parse.c:479-674 | on LOK neither flag is set if and only if the URI needs no decoding; then args_start is just past the first question mark, uri_ext just past the last dot of the last segment, and plus_in_uri tells of a plus sign in the path |
| RequestProperties.PlainMeans | http.c:146-154 | a URI that needs no decoding has no hash sign, and in front of its question mark no percent sign, no "//" and no "/." |
| Requests.Request.ParseHeaderLine | ngx_http_parse.c:823-1090 | the in-place loop, ring writes included, leaves in request and buffer exactly what the machine of HeaderLine says; an error keeps position and state, hash and ring index are saved only by LOK and when it asks for more |
| HeaderLine.AgainAtEnd | ngx_http_parse.c:879-931 | in every result of every call the ring index is in 0..31 and a call that asks for more stands at the end of the bytes |
| HeaderLine.Resume | ngx_http_parse.c:1067-1080 | hash, index, ring, state and position saved by a call that asks for more are all that the next call needs |
| HeaderLine.PiecewiseIsWhole | ngx_http_parse.c:852-1082 | however a header line is cut, return code, spans, hash, index and ring are those of one call |
| HeaderLanguage.AcceptsExactlyTheLanguage | ngx_http_parse.c:823-1090 | with no upstream LOK is returned exactly on header lines and the end of the headers exactly on a blank line |
| HeaderLanguage.Completeness | ngx_http_parse.c:856-1082 | every header line is taken in; name span, trimmed value span, validity and header_length are right, and for a valid name the hash is that of the lowercased name, the index its length modulo 32 and the ring its last 32 bytes; a name is valid if it holds letters, digits and '-', and '_' where allowed |
| HeaderLanguage.NameByteIsLower | ngx_http_parse.c:841-849 | the table of the parser marks exactly those bytes, and gives each of them lowercased |
| HeaderAnswers.AnswersExactly | ngx_http_parse.c:823-1090 | with no upstream the parser asks for more exactly on proper beginnings of a header line or of a blank line, and fails exactly on all that is neither that nor such a line |
| HeaderAnswers.StatusLineSkipped | ngx_http_parse.c:955-963 | with an upstream a line that starts with "HTTP/" is skipped through its LF, and asks for more without one |
| HeaderAnswers.UpstreamElse | ngx_http_parse.c:823-1090 | with an upstream every other line is parsed as without one |
| HeaderLanguage.Soundness | ngx_http_parse.c:856-1082 | whatever is taken in as a header line is one |
| HeaderLanguage.NameRun | ngx_http_parse.c:877-931 | hash, index and ring are right for the part of the name read so far at every byte of it |
| HeaderLanguage.WholeValueRun | ngx_http_parse.c:974-1055 | from the colon on, the machine reaches the line end with the value span free of leading and trailing spaces |
| HeaderLanguage.TrimMeans | ngx_http_parse.c:934-938 | the recorded value is the text between colon and line end with nothing but spaces taken away, and all of them at both ends |
| Requests.Request.ParseStatusLine | ngx_http_parse.c:1100-1311 | the in-place loop leaves in request, status and buffer exactly what the machine of StatusLine says; an error keeps position and state |
| StatusLine.PiecewiseIsWhole | ngx_http_parse.c:1293-1310 | however a status line is cut, code, version and spans are those of one call |
| StatusLanguage.AcceptsExactlyTheLanguage | ngx_http_parse.c:1100-1311 | from a fresh status, LOK is returned if and only if the input starts with a status line |
| StatusLanguage.AcceptsExactly | ngx_http_parse.c:1227-1249 | into a status with any count, code and end, LOK is returned if and only if the input starts with a status line that has the missing number of code digits |
| StatusLanguage.Completeness | ngx_http_parse.c:1125-1311 | every line accepted into a status, used or not, is taken in and determines every field; http_version is 1000 times the major plus the minor digit run, and on a fresh status the code is the value of the three digits and status.end the start of the line terminator |
| StatusLanguage.Soundness | ngx_http_parse.c:1125-1311 | whatever is taken in is the text of a status line with exactly as many code digits as the count was short of three |
| StatusAnswers.AnswersExactly | ngx_http_parse.c:1100-1311 | the parser asks for more exactly on proper beginnings of the status lines that the status still waits for, on a fresh one the valid lines, on one with a count of three or more those with more digits than there are bytes; it fails exactly on all that is neither that nor an accepted line |
| StatusAnswers.IcyRefused | ngx_http_parse.c:1130-1139 | "ICY 200 OK" is refused at once |
| StatusLanguage.TakesOneLine | ngx_http_parse.c:1241-1243 | a status that has taken in a line, whatever it held before, takes in no other, whatever the input: its count of digits is not set back |
| StatusLanguage.CountLeft | ngx_http_parse.c:1241-1243 | a status left with the one digit 1 takes "HTTP/1.1 20 OK" and records the code 120 |
| Http.RequestLineParsed | http.c:130-182 | lengths and data of request line, method, version and URI come from the boundaries; the URI data is set only if neither flag is |
| Hosts.LowerInPlace | http.c:184-192 | the bytes of the key, and no others, are lowercased in the buffer that both strings share |
| Http.NewElement | http.c:257-271 | the element of a valid line holds hash, length, key and value of the line, and its key is lowercased in the buffer, where the lowercased key points too |
| Http.AppendElement | http.c:246-255 | the list grows by one element at its tail and no element changes its content |
| Http.ProcessRequestHeaders | http.c:215-288 | on a complete block the loop ends behind the blank line; the list is, in wire order, exactly the valid lines; request_length grows by the lengths of all lines, skipped ones included; the buffer is changed as the lines say |
| HeaderElements.KeptNames | http.c:236-242 | the header loop keeps the lines whose names hold letters, digits, '-' and '_' |
| HeaderElements.ElementsCounted | http.c:240-255 | the list has as many elements as there are such lines |
| HeaderElements.ElementInOrder | http.c:257-271 | the element of each such line stands behind those of the valid lines in front of it, and holds the hash, the length and the places of that line |
| HeaderElements.ElementOfHost | http.c:194-213 | under the hash taken for Host, a valid value is lowercased and cut to its host, and any other is left alone |
| HeaderElements.BytesKept | http.c:184-213 | the header loop changes no byte outside the lines, and inside only by lowercasing |
| HeaderBlocks.HostHashMisses | http.c:457 | a header named Host, in any case, has another hash than the one taken for Host |
| HeaderBlocks.HostValueKept | http.c:194-213 | so of a Host line only the name is lowercased, and its value is neither validated nor cut |
| HeaderBlocks.Spins | http.c:223-286 | a call of the header parser that asks for more or fails is repeated for ever without ending the loop |
| HeaderBlocks.EndsExactlyOnBlocks | http.c:223-286 | the header loop ends if and only if the buffer holds a complete block of header lines and a blank line |
| RequestLoops.ReturnsExactly | http.c:329-350 | http_process_request_line comes back if and only if, from its position on, every line that is accepted into the request as its predecessors left it is followed by a complete block of header lines and a blank line |
| RequestLoops.NeverReturns | http.c:340 | on a buffer that ends with an accepted request line it does not come back |
| RequestLoops.ReturnsBehind | http.c:184-192 | the bytes in front of its position, some of which the header loop has lowercased, make no difference to that |
| Hosts.ScanHost | http_parse.c:3-54 | the scan finds out whether the value has no slash, NUL or double dot, where its last dot is and where the host is cut |
| Hosts.ProcessHost | http_parse.c:3-69 | on success the value is lowercased in place and gets the length of the valid host; on failure nothing changes |
| Hosts.HostIsPrefix | http_parse.c:3-69 | the host is a non-empty prefix up to the first colon outside a leading literal or just past its bracket, and loses a dot at its end exactly if that is the last dot of all |
| Hosts.HostAccepted | http_parse.c:3-69 | a value is refused if and only if it holds a slash, a NUL or two dots in a row, or is empty, starts with a colon, or has only its last dot in front of the cut |
| Hosts.Idempotent | http_parse.c:55-69 | applied again, the function changes nothing if and only if the first result does not end in a dot, that is unless a dot ends the host and another stands beyond the cut |
| Hosts.NotAlwaysIdempotent | http_parse.c:55-69 | the value "a.:8.0" becomes "a." and that becomes "a" |
| Chains.ChainElements | http.c:493-516 | each element gives two linked nodes, name and value with two more bytes each, and the last value two bytes more for the blank line |
| Chains.ConstructRequestChains | http.c:555-621 | the list has 3 nodes and 2 for each header, linked in order, chain_len says so, and they point at method, URI, version and headers with one, one and two bytes behind them |
| Chains.ConstructResponseChains | http.c:478-520 | the list has 1 node and 2 for each header, and chain_len says so |
| Chains.HeadersThatFit | http.h:22 | all nodes of a gather list lie inside the pool they come from if and only if a request has at most 14 headers, or a response at most 15 |
| RoundTrips.BlockPrinted | http.c:257-271 | on canonical lines the header loop leaves the buffer as the lines with lowercased names, and the pairs of its elements cover them from the first name through the blank line without a gap |
| RoundTrips.CanonicalFields | http.c:130-182 | the strings made of a canonical request line are the method, the target and the version of its parse tree |
| RoundTrips.RequestRoundTrip | http.c:329-350 | parse line and headers of a canonical request, build the list, and its bytes are the request from request_start through the blank line with header names lowercased; the object may have been used before |
| RoundTrips.Reparse | http.c:555-621 | the printed request is canonical, prints to itself, and parses to the same strings, numbers and elements, moved to the front of the buffer |
| RoundTrips.ResponseRoundTrip | http.c:291-311 | the same for responses: the list of a canonical status line with headers holds the bytes that came in with header names lowercased; code and version are the numbers of the line |
| RoundTrips.ReparseResponse | http.c:478-520 | the printed response is canonical, prints to itself, and parses to the same code, version, status line and elements, moved to the front of the buffer |
| RequestReuse.EndOfUsed | ngx_http_parse.c:808-811 | in a used request request_end is right if and only if the line ends with CR LF, or nothing or the same was there before |
| RequestReuse.CodeOfUsed | ngx_http_parse.c:813-818 | a valid line is accepted into a used request if and only if it has a version, or a major version is left over, or the method code comes out as GET; else it gets the error for its method |
| RequestReuse.CodeAsFresh | ngx_http_parse.c:813-818 | the return code alone is that of a fresh request if and only if the line has a version, or is a GET, or neither a version nor GET is left over |
| RequestReuse.VersionOfUsed | ngx_http_parse.c:813 | http_version is that of the line, 9 without one, if and only if the line has a version or no major version is left over; http_protocol is written only by a line with a version |
| RequestReuse.AuthorityOfUsed | ngx_http_parse.c:296-451 | schema, host and port ends are those of a fresh request if and only if the target is absolute-form with a port, or without one and port_end is not left over, or nothing of them is left over |
| RequestReuse.UriOfUsed | ngx_http_parse.c:479-674 | the URI part is that of a fresh request if and only if each flag or mark left over is also set, or overwritten, by the scan |
| RequestReuse.AsFresh | http.c:346 | a valid line gives in a used request the same return code, position and values of all fields as in a fresh one if and only if request_end, version and protocol, method code, authority and URI part each meet their own condition on line and old field |
| RequestReuse.SameCourse | ngx_http_parse.c:137-797 | the same bytes end the call at the same byte in any two requests, complete a line in both or neither, and give the same code unless they complete one |
| RequestReuse.FlagsOfUsed | ngx_http_parse.c:479-674 | for a URI that needs no decoding, flags, args_start, uri_ext and plus_in_uri are right if and only if no flag was set before, there are arguments or none were there before, the path has a further dot or slash or no extension was there before, and it has a plus sign or none was there before; the mark for spaces likewise |
| StaleRequests.StaleEnd | http.c:346 | "GET / HTTP/1.1" with CR LF and then with a lone LF: the second request_end is the first one, before its own request_start |
| StaleRequests.StaleMarks | http.c:346 | after "GET /a.b+ c?d HTTP/1.1" the URI of "GET / HTTP/1.1" has arguments, an extension, a plus sign and a space |
| StaleRequests.StaleFlags | http.c:346 | after "GET /%# HTTP/1.1" the URI of "GET / HTTP/1.1" passes for one that needs decoding, by both flags |
| StaleRequests.StaleVersion | http.c:346 | after "GET / HTTP/1.1" the line "POST /" is accepted, which a fresh request refuses |
| StaleRequests.StaleProtocol | http.c:139 | after "GET / HTTP/1.1" the line "GET /" has version 1.9 instead of 0.9, and its http_protocol points into the first request |
| StaleRequests.StaleMethod | http.c:346 | after "GET / HTTP/1.1" the line "FOO / HTTP/1.1" is recorded as a GET |
| StaleRequests.StaleAuthority | http.c:172 | after "GET http://a/ HTTP/1.1" the request "GET / HTTP/1.1" has the host of the first, in front of its own start |
| Pipelines.ProcessRequestLine | http.c:329-350 | a buffer of canonical requests is handed on one request after the other, each as its own bytes with header names lowercased, by one request object, and then the parser waits for more |
| Pipelines.Finish | http.c:334-342 | for each of them request_length is the distance from request_start to the blank line, the list has 3 and 2h nodes, and the buffer behind the request is untouched |
| Pipelines.HostIsCanonical | http.c:194-213 | a GET request with a Host line is among the requests that the round trips are about |
| Pipelines.OkIsCanonical | http.c:291-311 | a plain 200 response is among the responses that the round trip is about |
| Pipelines.ProcessResponseLine | http.c:291-311 | a canonical response becomes a list of 1 and 2h nodes that holds its bytes with header names lowercased, and status code and version are right |
| Times.Addition | event_lea.c:437-453 | the loop computes the closed form of the later instant for every timeout |
| Times.AddThenSubtract | event_lea.c:437-457 | subtracting the start from the later instant gives the timeout back; the nanoseconds are at most 10^9, and not negative unless the sum is |
| Times.AddTwice | event_lea.c:437-453 | two timeouts one after the other are one timeout of their sum |
| Times.TimeoutMeans | event_lea.c:410-424 | a timeout counts as running if and only if no more than its length has gone by, save for the instant at which exactly that has and the sum stopped at 10^9 nanoseconds |
| Times.MissedInstant | event_lea.c:410-424 | a concrete timeout whose last instant is missed |
| HeapOrder.PushBag | lea_heap.c:30-36 | push adds its event and no other, for every comparison |
| HeapOrder.PopBag | lea_heap.c:39-50 | pop takes out the first event and no other, for every comparison |
| HeapOrder.EraseBag | lea_heap.c:111-123 | for every comparison erase takes out its event and no other, except where it erases the last slot and finds the parent greater: there the event stays and its parent goes |
| HeapOrder.PushOrdered | lea_heap.c:30-64 | under the strict comparison push keeps every parent no later than its child |
| HeapOrder.PopOrdered | lea_heap.c:39-95 | under the strict comparison pop keeps the order |
| HeapOrder.EraseOrdered | lea_heap.c:66-123 | under the strict comparison erase at any slot keeps the order, sifting up or down, and the exception of EraseBag cannot occur |
| HeapOrder.FirstIsLeast | lea_heap.c:39-50 | the event that pop returns is due no later than any other |
| HeapOrder.RunKeeps | lea_heap.c:30-123 | over any run of pushes, pops and erases the order is kept and the events in the heap and those taken out are the events put in |
| HeapOrder.DrainSorts | lea_heap.c:39-50 | popping until the heap is empty gives all events in the order of their ends |
| HeapOrder.DrainBag | lea_heap.c:39-50 | popping until the heap is empty gives every event once, for every comparison |
| HeapNonzero.NonzeroPush | lea_heap.c:13-14 | with the comparison as written, push keeps the order if and only if the heap was empty, the event is due no later than the first, or one above its slot is due at the same time |
| HeapNonzero.NonzeroPushFails | lea_heap.c:13-14 | pushed after an event due at second 1, an event due at second 2 ends up on top of it |
| HeapNonzero.NonzeroPop | lea_heap.c:39-95 | with the comparison as written, pop keeps the order if and only if one event was left, or the last event sinks well: along its way down no left child is due later than the right one, and it stops at a tie or below something due no later |
| HeapNonzero.NonzeroErase | lea_heap.c:111-123 | with the comparison as written, erase of an inner slot keeps the order if and only if the last event goes up to a tie, or where it need not go up sinks well |
| HeapNonzero.NonzeroEraseLast | lea_heap.c:111-123 | with the comparison as written, erase of the last slot keeps the order if and only if it does not slip, or ends at a tie, or so few events are left that it does not show |
| HeapNonzero.NonzeroPopFails | lea_heap.c:13-14 | on events due at seconds 1, 3 and 2 both a pop and the erasing of slot 1 leave a heap out of order |
| HeapNonzero.NonzeroEraseSlips | lea_heap.c:13-14 | on events due at seconds 1 and 2 erasing the second leaves it in the heap and takes out the first |
| Heaps.MinHeap.Reserve | lea_heap.c:98-109 | the array doubles, starts with 8 and is never smaller than asked for; the events stay in their slots |
| Heaps.MinHeap.ShiftUp | lea_heap.c:52-64 | sifting by moving a hole computes what sifting by swaps does, and every event names its slot |
| Heaps.MinHeap.ShiftUpUnconditional | lea_heap.c:66-78 | the same with a first step that makes no comparison |
| Heaps.MinHeap.ShiftDown | lea_heap.c:80-95 | the same downwards to the lesser child; a hole behind the last slot takes its event as it is |
| Heaps.MinHeap.Push | lea_heap.c:30-36 | the array becomes what push makes of it, every event names its slot, and the bag gains the event; under the strict comparison the whole invariant, order included, is kept |
| Heaps.MinHeap.Pop | lea_heap.c:39-50 | null from an empty heap; else the first event, which no longer names a slot, and what pop leaves, with the bag short of that event; under the strict comparison the whole invariant is kept and no event was due earlier |
| Heaps.MinHeap.Erase | lea_heap.c:111-123 | the event named by its slot no longer names one, the array becomes what erase leaves, every event names its slot and the bag is short of that event unless the exception of EraseBag occurred; under the strict comparison it does not occur and the whole invariant is kept |
| Receiving.Socket.Recv | buffer_op_lea.c:293-294 | the oracle: at most the bytes asked for, from the front of the script, written where asked |
| Receiving.Split | buffer_op_lea.c:293-311 | how a delivery is cut up does not matter to what is delivered in all |
| Receiving.Receive | buffer_op_lea.c:288-328 | the chain grows by exactly the delivered bytes in order and all buffers but the last are full; the result is positive, and then the number delivered, if and only if something came before nothing more was there; nothing-yet, error and end of stream are told apart exactly; a buffer full from the start counts as end of stream and nothing changes |
| Pools.MaskRoundsDown | lt_pool.h:5-6 | the alignment mask clears a 64-bit number to a multiple of 8 |
| Pools.Manager.NewPool | lt_pool.c:41-72 | a new pool is put behind the last one, with its position aligned behind its header |
| Pools.Manager.Alloc | lt_pool.c:21-39 | the block returned is the next one of the last pool, whose position moves by the aligned size; a pool is added at the end of the list exactly when that passes the end, and for elements of more than one whole word exactly at the call after the element count, which returns a block that reaches behind the end of its pool |
| Pools.BumpedIs | lt_pool.c:29-30 | the place to which n blocks take the position of a pool, where Manager.Valid keeps it, is n aligned element sizes further on |
| Pools.Capacity | lt_pool.c:44-60 | the block that comes after n others lies inside its pool if and only if n aligned sizes and one plain size exceed the sizes paid for by no more than 8 |
| Pools.HoldsItsCount | lt_pool.c:44-60 | for elements of whole words, larger than one, the blocks inside are exactly the first element_count ones, and the position passes the end exactly with the next |
| Pools.OddSizes | lt_pool.c:29-32 | of elements of 12 bytes, three to a pool, the third lies inside although the position passes the end |
| Pools.EscapingBlock | lt_pool.c:27-38 | of gather-list nodes of 40 bytes, 32 to a pool, the 33rd is handed out at byte 1320 of a pool of 1328 bytes |
| Pools.Manager.OnlyTheLastEscapes | lt_pool.c:21-39 | after any run of calls every block handed out lies inside its pool but for the last one of a pool that was left; for elements of more than one whole word each of those pools has handed out element_count and one blocks and the last does not |
| Pools.Manager.BlockInside | lt_pool.c:41-58 | after any run of calls every block handed out is aligned to a word, behind the header and in front of the position of its pool |
| Pools.Manager.BlocksApart | lt_pool.c:21-39 | after any run of calls no two blocks handed out that lie inside their pools overlap |

## Left out

- HeaderLanguage.AcceptsExactlyTheLanguage: is about requests with no upstream; for the others HeaderAnswers.StatusLineSkipped and HeaderAnswers.UpstreamElse say what a line becomes.
- Http.ProcessRequestHeaders: is about buffers that hold a complete block, because on any other the loop does not end (HeaderBlocks.EndsExactlyOnBlocks).
- Pipelines.ProcessRequestLine: is about streams of complete canonical requests; what `http_send_to_upstream` does with a list, and its result, which the source ignores, are not part of this model.
- RoundTrips.RequestRoundTrip: does not cover absolute-form targets, URIs that need decoding, requests without headers, or "Name:value" without a space; the fixed separator widths are meant for the canonical shape only.
- Chains.ConstructRequestChains: allocates its nodes on the heap, not from a `Pools.Manager`; Chains.HeadersThatFit joins the two by the number of nodes.
- Heaps.MinHeap.Push: does not model wrap-around of the unsigned slot numbers; the ends of events in a heap do not change, so `lt_io_add`, `lt_io_mod` and `lt_timeout_add`, which set them after the push, are out.
- Times.Addition: does not model overflow of `long`.
- Hosts.ProcessHost: `http_find_host`, a stub, is not part of this model.
- Receiving.Receive: answers of the system come from a finite script behind which there is nothing yet; any error but EAGAIN is one answer.
- `send_chains`, `send_buffers` and their resumption: the partial-write branches advance by whole segments or resume from a node past the tail, so there is no resend property to state.
- Sockets, epoll, accept, connect, name lookup, signals, the main program and the test clients: system calls without a local property.
- The event free list, post-callbacks and active list (event_lea.c:60-107, event_lea.c:218-276): their links are left stale or point to themselves.
- `lt_destroy_memory_pool`, which never advances, and the release of buffers and requests.
- Connection and proxy status codes, the upstream choice, chunked bodies and the functions that are stubs.
